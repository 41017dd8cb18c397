/**
What the interrupts of a whole block amount to: which steps each one makes, how long the timer
waits after it, and that the rates are the ramps and the cruise of the block.
*/
module Trajectory {
  import opened Machine
  import opened Arithmetic
  import opened SpeedTable
  import opened Trapezoid
  import opened StepRamp
  import opened AxisModel
  import Pacing

  // What a sequence of commands should be

  /** The time spent in a phase before command i. */
  function Spent(c: seq<Command>, i: nat, phase: Phase): nat
    requires i <= |c|
  {
    if i == 0 then 0 else (if c[0].phase == phase then c[0].timer else 0) + Spent(c[1..], i - 1, phase)
  }

  /** The rate of the last acceleration before command i; `before` if there is none. */
  function Peak(c: seq<Command>, i: nat, before: nat): nat
    requires i <= |c|
  {
    if i == 0 then before else Peak(c[1..], i - 1, if c[0].phase == Accelerating then c[0].rate else before)
  }

  /** The timer waits as the tables say for the rate. */
  predicate Timed(t: Tables, c: seq<Command>) {
    forall i | 0 <= i < |c| :: c[i].timer == Interval(t, c[i].rate)
  }

  /** Each interrupt makes as many steps as the rate commanded before asks for, or the rest. */
  predicate Grouped(b: Block, c: seq<Command>, completed: nat, loops: nat) {
    && c != []
    && c[0].completed == Min(completed + loops, b.steps)
    && (forall i | 0 <= i < |c| - 1 ::
          c[i].completed < b.steps && c[i + 1].completed == Min(c[i].completed + Loops(c[i].rate), b.steps))
    && c[|c| - 1].completed == b.steps
  }

  /** The phases change with the steps completed, and the cruise is at the nominal rate. */
  predicate Phased(b: Block, c: seq<Command>) {
    forall i | 0 <= i < |c| ::
      && (c[i].phase == Accelerating <==> c[i].completed <= b.accelerateUntil)
      && (c[i].phase == Decelerating <==> b.accelerateUntil < c[i].completed && b.decelerateAfter < c[i].completed)
      && (c[i].phase == Cruising ==> c[i].rate == Wrap16(b.nominalRate))
  }

  /** What acceleration adds up to over a time. */
  function Gain(b: Block, time: nat): nat {
    ScaledIsNatural(time, b.accelerationRate);
    (time * b.accelerationRate) / 0x100_0000
  }

  /** A ramp up from the initial rate, `time` ahead, up to the nominal rate. */
  predicate RampsUp(b: Block, c: seq<Command>, time: nat) {
    forall i | 0 <= i < |c| && c[i].phase == Accelerating ::
      c[i].rate == Min(b.initialRate + Gain(b, time + Spent(c, i, Accelerating)), b.nominalRate)
  }

  /** A ramp down from the rate reached, down to the final rate. */
  predicate RampsDown(b: Block, c: seq<Command>, time: nat, peak: nat) {
    forall i | 0 <= i < |c| && c[i].phase == Decelerating ::
      c[i].rate == Max(Peak(c, i, peak) - Gain(b, time + Spent(c, i, Decelerating)), b.finalRate)
  }

  // What the interrupts command

  /** An interval kept for the cruise is the one of the nominal rate. */
  predicate Steady(t: Tables, b: Block, r: Ramp) {
    r.stepLoopsNominal != 0 ==>
      && r.timerNominal == Interval(t, Wrap16(b.nominalRate))
      && r.stepsCompleted > b.accelerateUntil
      && (r.stepsCompleted <= b.decelerateAfter ==> r.stepLoops == Loops(Wrap16(b.nominalRate)))
  }

  lemma SteadyStep(t: Tables, b: Block, r: Ramp)
    requires Stepping(b, r) && Steady(t, b, r)
    ensures var k := NextTick(t, b, r);
      && k.timer == Interval(t, k.rate)
      && k.ramp.stepsCompleted == Min(r.stepsCompleted + r.stepLoops, b.steps)
      && k.ramp.stepLoops == Loops(k.rate)
      && (Ahead(b, r) == Cruising ==> k.rate == Wrap16(b.nominalRate))
      && Steady(t, b, k.ramp)
  {
    hide Interval, Loops, AccelerationRate, DecelerationRate, Wrap16, Wrap32;
  }

  /** The commands of a block are its first one and those of the rest. */
  lemma CommandsUnfold(t: Tables, b: Block, r: Ramp)
    requires Stepping(b, r)
    ensures var k := NextTick(t, b, r);
      Commands(t, b, r) == [Command(Ahead(b, r), k.ramp.stepsCompleted, k.rate, k.timer)]
                           + if k.ramp.stepsCompleted < b.steps then Commands(t, b, k.ramp) else []
  {
    hide NextTick;
  }

  lemma PrependPhased(t: Tables, b: Block, x: Command, rest: seq<Command>)
    requires Timed(t, rest) && Phased(b, rest) && Timed(t, [x]) && Phased(b, [x])
    ensures Timed(t, [x] + rest) && Phased(b, [x] + rest)
  {
    hide Interval, Wrap16;
    var c := [x] + rest;
    assert [x][0] == x;
    assert forall i | 1 <= i < |c| :: c[i] == rest[i - 1];
  }

  lemma PrependGrouped(b: Block, x: Command, rest: seq<Command>, completed: nat, loops: nat)
    requires x.completed == Min(completed + loops, b.steps)
    requires if x.completed < b.steps then Grouped(b, rest, x.completed, Loops(x.rate)) else rest == []
    ensures Grouped(b, [x] + rest, completed, loops)
  {
    hide Loops;
    var c := [x] + rest;
    assert forall i | 1 <= i < |c| :: c[i] == rest[i - 1];
  }

  lemma PrependTimed(t: Tables, b: Block, x: Command, rest: seq<Command>, completed: nat, loops: nat)
    requires Timed(t, rest) && Phased(b, rest) && Timed(t, [x]) && Phased(b, [x])
    requires x.completed == Min(completed + loops, b.steps)
    requires if x.completed < b.steps then Grouped(b, rest, x.completed, Loops(x.rate)) else rest == []
    ensures var c := [x] + rest;
      Timed(t, c) && Phased(b, c) && Grouped(b, c, completed, loops)
  {
    hide *;
    PrependPhased(t, b, x, rest);
    PrependGrouped(b, x, rest, completed, loops);
  }

  lemma FirstIsTimed(t: Tables, b: Block, r: Ramp)
    requires Stepping(b, r) && Steady(t, b, r)
    ensures var k := NextTick(t, b, r);
      var x := Command(Ahead(b, r), k.ramp.stepsCompleted, k.rate, k.timer);
      && Timed(t, [x]) && Phased(b, [x])
      && x.completed == Min(r.stepsCompleted + r.stepLoops, b.steps)
      && k.ramp.stepLoops == Loops(k.rate) && Steady(t, b, k.ramp)
  {
    SteadyStep(t, b, r);
    hide Interval, Loops, NextTick, Wrap16, Steady;
  }

  lemma Progress(t: Tables, b: Block, r: Ramp)
    requires Stepping(b, r)
    ensures var n := NextTick(t, b, r).ramp.stepsCompleted;
      r.stepsCompleted < n <= b.steps && (n < b.steps ==> Stepping(b, NextTick(t, b, r).ramp))
  {
    hide NextTick;
  }

  lemma {:induction false} CommandsAreTimed(t: Tables, b: Block, r: Ramp)
    requires Stepping(b, r) && Steady(t, b, r)
    ensures var c := Commands(t, b, r);
      Timed(t, c) && Phased(b, c) && Grouped(b, c, r.stepsCompleted, r.stepLoops)
    decreases b.steps - r.stepsCompleted
  {
    hide *;
    Progress(t, b, r);
    FirstIsTimed(t, b, r);
    CommandsUnfold(t, b, r);
    var k := NextTick(t, b, r);
    var x := Command(Ahead(b, r), k.ramp.stepsCompleted, k.rate, k.timer);
    if k.ramp.stepsCompleted < b.steps {
      CommandsAreTimed(t, b, k.ramp);
      PrependTimed(t, b, x, Commands(t, b, k.ramp), r.stepsCompleted, r.stepLoops);
    } else {
      NothingLeft(t, b);
      PrependTimed(t, b, x, [], r.stepsCompleted, r.stepLoops);
    }
  }

  lemma NothingLeft(t: Tables, b: Block)
    ensures Timed(t, []) && Phased(b, [])
  {
  }

  // The ramps

  lemma AccelerationIsGain(b: Block, r: Ramp, timer: nat)
    requires WellPlanned(b) && TimeFits(b, r.accelerationTime + timer, b.initialRate)
    ensures AccelerationRate(b, r.accelerationTime)
            == Min(b.initialRate + Gain(b, r.accelerationTime), b.nominalRate)
  {
    hide Wrap16;
    ScaledOrder(r.accelerationTime, r.accelerationTime + timer, b.accelerationRate);
    AccelerationIs(b, r.accelerationTime);
  }

  lemma DecelerationIsGain(b: Block, r: Ramp, timer: nat)
    requires WellPlanned(b) && TimeFits(b, r.decelerationTime + timer, 0)
    ensures DecelerationRate(b, r.accStepRate, r.decelerationTime)
            == Max(r.accStepRate - Gain(b, r.decelerationTime), b.finalRate)
  {
    ScaledOrder(r.decelerationTime, r.decelerationTime + timer, b.accelerationRate);
    Exact16(Gain(b, r.decelerationTime));
    Exact16(b.finalRate);
    hide Wrap16;
  }

  /** One interrupt moves on along the ramps, in time and in rate. */
  lemma RampStep(t: Tables, b: Block, r: Ramp)
    requires Stepping(b, r) && WellPlanned(b) && TimesFit(t, b, r)
    ensures var k := NextTick(t, b, r);
      && (Ahead(b, r) == Accelerating ==>
            && k.rate == Min(b.initialRate + Gain(b, r.accelerationTime), b.nominalRate)
            && k.ramp == k.ramp.(accelerationTime := r.accelerationTime + k.timer,
                                 decelerationTime := r.decelerationTime, accStepRate := k.rate))
      && (Ahead(b, r) == Decelerating ==>
            && k.rate == Max(r.accStepRate - Gain(b, r.decelerationTime), b.finalRate)
            && k.ramp == k.ramp.(accelerationTime := r.accelerationTime,
                                 decelerationTime := r.decelerationTime + k.timer, accStepRate := r.accStepRate))
      && (Ahead(b, r) == Cruising ==>
            k.ramp == k.ramp.(accelerationTime := r.accelerationTime,
                              decelerationTime := r.decelerationTime, accStepRate := r.accStepRate))
      && (k.ramp.stepsCompleted < b.steps ==> TimesFit(t, b, k.ramp))
  {
    var k := NextTick(t, b, r);
    if Ahead(b, r) == Accelerating {
      AccelerationIsGain(b, r, k.timer);
      Fits32(b, r.accelerationTime + k.timer, b.initialRate);
    } else if Ahead(b, r) == Decelerating {
      DecelerationIsGain(b, r, k.timer);
      Fits32(b, r.decelerationTime + k.timer, 0);
    }
    hide Interval, Loops, AccelerationRate, DecelerationRate, Wrap16, Wrap32, TimeFits, Gain;
  }

  /** Going one command on, times and rates are told from there. */
  lemma PrependRamps(b: Block, x: Command, rest: seq<Command>, up: nat, down: nat, peak: nat)
    requires x.phase == Accelerating ==> x.rate == Min(b.initialRate + Gain(b, up), b.nominalRate)
    requires x.phase == Decelerating ==> x.rate == Max(peak - Gain(b, down), b.finalRate)
    requires RampsUp(b, rest, up + if x.phase == Accelerating then x.timer else 0)
    requires RampsDown(b, rest, down + if x.phase == Decelerating then x.timer else 0,
                       if x.phase == Accelerating then x.rate else peak)
    ensures RampsUp(b, [x] + rest, up) && RampsDown(b, [x] + rest, down, peak)
  {
    hide Gain;
    var c := [x] + rest;
    assert c[1..] == rest;
    forall i | 1 <= i < |c|
      ensures c[i] == rest[i - 1]
      ensures forall p :: Spent(c, i, p) == (if x.phase == p then x.timer else 0) + Spent(rest, i - 1, p)
      ensures Peak(c, i, peak) == Peak(rest, i - 1, if x.phase == Accelerating then x.rate else peak)
    {
    }
  }

  lemma NoRamps(b: Block, up: nat, down: nat, peak: nat)
    ensures RampsUp(b, [], up) && RampsDown(b, [], down, peak)
  {
  }

  lemma {:induction false} CommandsAreRamps(t: Tables, b: Block, r: Ramp)
    requires Stepping(b, r) && WellPlanned(b) && TimesFit(t, b, r)
    ensures RampsUp(b, Commands(t, b, r), r.accelerationTime)
    ensures RampsDown(b, Commands(t, b, r), r.decelerationTime, r.accStepRate)
    decreases b.steps - r.stepsCompleted
  {
    hide *;
    Progress(t, b, r);
    RampStep(t, b, r);
    CommandsUnfold(t, b, r);
    var k := NextTick(t, b, r);
    var x := Command(Ahead(b, r), k.ramp.stepsCompleted, k.rate, k.timer);
    if k.ramp.stepsCompleted < b.steps {
      CommandsAreRamps(t, b, k.ramp);
      PrependRamps(b, x, Commands(t, b, k.ramp), r.accelerationTime, r.decelerationTime, r.accStepRate);
    } else {
      NoRamps(b, r.accelerationTime + if x.phase == Accelerating then x.timer else 0,
              r.decelerationTime + if x.phase == Decelerating then x.timer else 0,
              if x.phase == Accelerating then x.rate else r.accStepRate);
      PrependRamps(b, x, [], r.accelerationTime, r.decelerationTime, r.accStepRate);
    }
  }

  // Whole blocks

  /**
  The commands of a block, told from the block and the tables alone: the first interrupt makes the
  steps of the initial rate, and the ramp up is one such interval ahead.
  */
  predicate Executes(t: Tables, b: Block, c: seq<Command>)
    requires WellPlanned(b)
  {
    && Timed(t, c) && Phased(b, c) && Grouped(b, c, 0, Loops(b.initialRate))
    && RampsUp(b, c, Interval(t, b.initialRate)) && RampsDown(b, c, 0, b.initialRate)
  }

  lemma StartIs(t: Tables, b: Block, old': Ramp)
    requires WellPlanned(b) && b.steps > 0 && old'.timerNominal <= MAX_INTERVAL
    ensures var r := Started(t, b, old');
      && Stepping(b, r) && Steady(t, b, r)
      && r.stepsCompleted == 0 && r.stepLoops == Loops(b.initialRate)
      && r.accelerationTime == Interval(t, b.initialRate) && r.decelerationTime == 0
      && r.accStepRate == b.initialRate
  {
    Exact16(b.initialRate);
  }

  /** A block whose ramp times fit is executed. */
  lemma FittingIsExecuted(t: Tables, b: Block, old': Ramp)
    requires WellPlanned(b) && b.steps > 0 && old'.timerNominal <= MAX_INTERVAL
    requires Stepping(b, Started(t, b, old')) && TimesFit(t, b, Started(t, b, old'))
    ensures Executes(t, b, Commands(t, b, Started(t, b, old')))
  {
    StartIs(t, b, old');
    hide Started, Steady, Stepping, Timed, Phased, Grouped, RampsUp, RampsDown, TimesFit, Commands, WellPlanned;
    CommandsAreTimed(t, b, Started(t, b, old'));
    CommandsAreRamps(t, b, Started(t, b, old'));
  }

  /** In particular one that is in time. */
  lemma PacedIsExecuted(t: Tables, b: Block, pace: Pacing.Pace, old': Ramp)
    requires Pacing.Paced(t, b, pace) && b.steps > 0 && old'.timerNominal <= MAX_INTERVAL
    ensures WellPlanned(b) && Stepping(b, Started(t, b, old'))
    ensures Executes(t, b, Commands(t, b, Started(t, b, old')))
  {
    Pacing.PacedFits(t, b, pace, old');
    PacedIsPlanned(t, b, pace);
    hide *;
    FittingIsExecuted(t, b, old');
  }

  lemma PacedIsPlanned(t: Tables, b: Block, pace: Pacing.Pace)
    requires Pacing.Paced(t, b, pace)
    ensures WellPlanned(b)
  {
  }


  // The interrupts of an axis

  /** The axis after n interrupts. */
  function After(t: Tables, a: Axis, n: nat): (r: Axis)
    requires AxisModel.Valid(a)
    ensures AxisModel.Valid(r)
    decreases n
  {
    hide *;
    if n == 0 then a else
      StepKeepsValid(t, a);
      After(t, AxisModel.Step(t, a).axis, n - 1)
  }

  /** The step parameters of the oldest block: those of a new start if it is not being executed yet. */
  function Current(t: Tables, a: Axis): (r: Ramp)
    requires AxisModel.Valid(a) && a.queue != []
    ensures Stepping(a.queue[0], r)
  {
    if a.live then a.ramp else Started(t, a.queue[0], a.ramp)
  }

  /** Interrupt i makes the steps up to those completed by command i, and waits as it says. */
  predicate Obeys(t: Tables, a: Axis, c: seq<Command>, completed: nat)
    requires AxisModel.Valid(a) && a.queue != []
  {
    && (forall i | 0 <= i < |c| ::
          Does(t, a, i, c[i].timer, c[i].completed - if i == 0 then completed else c[i - 1].completed))
    && After(t, a, |c|).queue == a.queue[1..] && !After(t, a, |c|).live
  }

  lemma FirstInterrupt(t: Tables, a: Axis)
    requires AxisModel.Valid(a) && a.queue != []
    ensures var r := Current(t, a);
      var k := NextTick(t, a.queue[0], r);
      var s := AxisModel.Step(t, a);
      && AxisModel.Valid(s.axis)
      && Does(t, a, 0, k.timer, k.ramp.stepsCompleted - r.stepsCompleted)
      && s.axis.queue == (if k.ramp.stepsCompleted < a.queue[0].steps then a.queue else a.queue[1..])
      && (s.axis.live <==> k.ramp.stepsCompleted < a.queue[0].steps)
      && (s.axis.live ==> s.axis.ramp == k.ramp)
  {
    StepKeepsValid(t, a);
    AfterOne(t, a, 0);
    hide NextTick;
  }

  lemma AfterOne(t: Tables, a: Axis, n: nat)
    requires AxisModel.Valid(a)
    ensures After(t, a, 0) == a
    ensures AxisModel.Valid(AxisModel.Step(t, a).axis)
    ensures After(t, a, n + 1) == After(t, AxisModel.Step(t, a).axis, n)
  {
    hide AxisModel.Valid, AxisModel.Step;
    StepKeepsValid(t, a);
  }

  /** What the interrupt after n others does. */
  predicate Does(t: Tables, a: Axis, n: nat, timer: U16, steps: int)
    requires AxisModel.Valid(a)
  {
    var s := AxisModel.Step(t, After(t, a, n));
    s.timer == timer && |s.pulses| == steps
  }

  lemma DoesNext(t: Tables, a: Axis, n: nat, timer: U16, steps: int)
    requires AxisModel.Valid(a) && AxisModel.Valid(AxisModel.Step(t, a).axis)
    ensures Does(t, a, n + 1, timer, steps) == Does(t, AxisModel.Step(t, a).axis, n, timer, steps)
    ensures After(t, a, n + 1) == After(t, AxisModel.Step(t, a).axis, n)
  {
    AfterOne(t, a, n);
    hide AxisModel.Valid, AxisModel.Step, After;
  }

  lemma ObeysOn(t: Tables, a: Axis, x: Command, rest: seq<Command>, completed: nat)
    requires AxisModel.Valid(a) && a.queue != []
    requires AxisModel.Valid(AxisModel.Step(t, a).axis)
    requires Does(t, a, 0, x.timer, x.completed - completed)
    requires var next := AxisModel.Step(t, a).axis;
      if rest == [] then next.queue == a.queue[1..] && !next.live
      else next.queue == a.queue && Obeys(t, next, rest, x.completed)
    ensures Obeys(t, a, [x] + rest, completed)
  {
    hide AxisModel.Valid, AxisModel.Step, After, Does;
    var c := [x] + rest;
    var next := AxisModel.Step(t, a).axis;
    AfterOne(t, next, 0);
    DoesNext(t, a, |rest|, 0, 0);
    forall i | 0 <= i < |c|
      ensures Does(t, a, i, c[i].timer, c[i].completed - (if i == 0 then completed else c[i - 1].completed))
    {
      if i > 0 {
        var j := i - 1;
        assert c[i] == rest[j] && c[j] == if j == 0 then x else rest[j - 1];
        var before := if j == 0 then x.completed else rest[j - 1].completed;
        assert Does(t, next, j, rest[j].timer, rest[j].completed - before);
        DoesNext(t, a, j, c[i].timer, c[i].completed - c[i - 1].completed);
      }
    }
  }

  /** The interrupts execute the oldest block to its end, by its commands. */
  lemma {:induction false} InterruptsObey(t: Tables, a: Axis)
    requires AxisModel.Valid(a) && a.queue != []
    ensures Obeys(t, a, Commands(t, a.queue[0], Current(t, a)), Current(t, a).stepsCompleted)
    decreases if a.queue == [] then 0 else a.queue[0].steps - Current(t, a).stepsCompleted
  {
    var b, r := a.queue[0], Current(t, a);
    FirstInterrupt(t, a);
    Progress(t, b, r);
    CommandsUnfold(t, b, r);
    var k := NextTick(t, b, r);
    var x := Command(Ahead(b, r), k.ramp.stepsCompleted, k.rate, k.timer);
    var next := AxisModel.Step(t, a).axis;
    hide AxisModel.Valid, AxisModel.Step, After, Obeys, NextTick, Commands, Started;
    if k.ramp.stepsCompleted < b.steps {
      InterruptsObey(t, next);
      ObeysOn(t, a, x, Commands(t, b, k.ramp), r.stepsCompleted);
    } else {
      ObeysOn(t, a, x, [], r.stepsCompleted);
    }
  }

  /** From the plan to the timer: a block in time is fetched and executed as its profile says. */
  lemma PacedIsDriven(t: Tables, a: Axis, pace: Pacing.Pace)
    requires AxisModel.Valid(a) && a.queue != [] && !a.live && Pacing.Paced(t, a.queue[0], pace)
    ensures WellPlanned(a.queue[0])
    ensures var c := Commands(t, a.queue[0], Current(t, a));
      Executes(t, a.queue[0], c) && Obeys(t, a, c, 0)
  {
    InterruptsObey(t, a);
    assert a.queue[0].steps > 0 && a.ramp.timerNominal <= MAX_INTERVAL && Current(t, a).stepsCompleted == 0;
    hide AxisModel.Valid, Pacing.Paced, Executes, Obeys, Started, WellPlanned;
    PacedIsExecuted(t, a.queue[0], pace, a.ramp);
  }

  // The rate that an abort leaves behind

  lemma ReachedNext(t: Tables, b: Block, r: Ramp)
    requires Stepping(b, r)
    ensures var k := NextTick(t, b, r);
      k.ramp.accStepRate == if Ahead(b, r) == Accelerating then k.rate else r.accStepRate
  {
  }

  lemma LaterPeak(x: Command, rest: seq<Command>, i: nat, before: nat)
    requires 0 < i <= |rest| + 1
    ensures Peak([x] + rest, i, before) == Peak(rest, i - 1, if x.phase == Accelerating then x.rate else before)
  {
    assert ([x] + rest)[1..] == rest;
  }

  /** Unless the first interrupt ends the block, the commands after it are those of the axis then. */
  lemma CommandsGoOn(t: Tables, a: Axis)
    requires AxisModel.Valid(a) && a.queue != []
    ensures var c := Commands(t, a.queue[0], Current(t, a));
      var next := AxisModel.Step(t, a).axis;
      && AxisModel.Valid(next)
      && (|c| > 1 ==>
            && next.live && next.queue == a.queue
            && c == [c[0]] + Commands(t, a.queue[0], Current(t, next))
            && Current(t, next).accStepRate ==
               if c[0].phase == Accelerating then c[0].rate else Current(t, a).accStepRate)
  {
    FirstInterrupt(t, a);
    CommandsUnfold(t, a.queue[0], Current(t, a));
    ReachedNext(t, a.queue[0], Current(t, a));
    hide AxisModel.Valid, AxisModel.Step, NextTick, Commands, Does, Started, Ahead;
  }

  /** Before the end of the block, the step parameters hold the last rate of the ramp up. */
  lemma {:induction false} ReachedIsPeak(t: Tables, a: Axis, i: nat)
    requires AxisModel.Valid(a) && a.queue != []
    requires i < |Commands(t, a.queue[0], Current(t, a))|
    ensures var c := Commands(t, a.queue[0], Current(t, a));
      && After(t, a, i).queue == a.queue
      && (i > 0 ==> After(t, a, i).live)
      && Current(t, After(t, a, i)).accStepRate == Peak(c, i, Current(t, a).accStepRate)
    decreases i
  {
    hide AxisModel.Valid, AxisModel.Step, Commands, Current, After, Peak;
    var c := Commands(t, a.queue[0], Current(t, a));
    AfterOne(t, a, 0);
    if i == 0 {
      NoPeakYet(c, Current(t, a).accStepRate);
    } else {
      CommandsGoOn(t, a);
      AfterOne(t, a, i - 1);
      var next := AxisModel.Step(t, a).axis;
      ReachedIsPeak(t, next, i - 1);
      LaterPeak(c[0], Commands(t, a.queue[0], Current(t, next)), i, Current(t, a).accStepRate);
      if i == 1 {
        AfterOne(t, next, 0);
      }
    }
  }

  lemma NoPeakYet(c: seq<Command>, before: nat)
    ensures Peak(c, 0, before) == before
  {
  }

  /**
  Aborting in the middle of a block leaves the last rate of its ramp up behind, or the initial
  rate if there was none; with a halt it leaves zero. The next plan goes on from there.
  */
  lemma AbortLeavesPeak(t: Tables, a: Axis, i: nat, halt: bool)
    requires AxisModel.Valid(a) && a.queue != [] && a.planning == Idle && !a.live
    requires WellPlanned(a.queue[0])
    requires 0 < i < |Commands(t, a.queue[0], Current(t, a))|
    ensures After(t, a, i).planning == Idle
    ensures Abort(After(t, a, i), halt).lastRate
            == if halt then 0 else Peak(Commands(t, a.queue[0], Current(t, a)), i, a.queue[0].initialRate)
  {
    assert Current(t, a).accStepRate == a.queue[0].initialRate by { Exact16(a.queue[0].initialRate); }
    hide AxisModel.Valid, Commands, After, Peak, Started;
    ReachedIsPeak(t, a, i);
    StaysIdle(t, a, i);
  }

  /** Interrupts do not plan. */
  lemma {:induction false} StaysIdle(t: Tables, a: Axis, n: nat)
    requires AxisModel.Valid(a)
    ensures After(t, a, n).planning == a.planning && After(t, a, n).lastRate == a.lastRate
    decreases n
  {
    hide *;
    AfterOne(t, a, 0);
    if n > 0 {
      AfterOne(t, a, n - 1);
      StepPlansNothing(t, a);
      StaysIdle(t, AxisModel.Step(t, a).axis, n - 1);
    }
  }

  lemma StepPlansNothing(t: Tables, a: Axis)
    requires AxisModel.Valid(a)
    ensures AxisModel.Step(t, a).axis.planning == a.planning && AxisModel.Step(t, a).axis.lastRate == a.lastRate
  {
    hide NextTick;
  }
}
