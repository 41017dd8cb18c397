/**
One axis as the main loop and the stepping interrupt see it together. Every event below is
atomic against the others: the interrupt runs Step between any two writes of PlanMoveTo,
while AbortPlannedMoves, CurPosition and SetPosition run with the interrupt suspended.
*/
module AxisModel {
  import opened Machine
  import opened SpeedTable
  import opened Trapezoid
  import opened StepRamp

  type Pos = p: int | -0x8000_0000 <= p < 0x8000_0000

  const BLOCK_BUFFER_SIZE := 4

  /** Where PlanMoveTo is: its block pushed already, its position not yet written. */
  datatype Planning = Idle | Pushed(target: Pos)

  /**
  `queue` holds the planned blocks, oldest first; when `live`, the first one is being
  executed with step parameters `ramp`. `at` is where the pulses have really moved the axis.
  */
  datatype Axis = Axis(
    queue: seq<Block>,
    live: bool,
    ramp: Ramp,
    position: Pos,
    planning: Planning,
    lastRate: U32,
    at: int)

  function BlockShift(b: Block): int { if b.direction then b.steps else 0 - b.steps }

  /** The steps of the rest of a block, each with its direction. */
  function Steps(b: Block, done: nat): (s: seq<bool>)
    requires done <= b.steps
    ensures |s| == b.steps - done
  {
    seq(b.steps - done, _ => b.direction)
  }

  /** The signed sum of pulses. */
  function Net(pulses: seq<bool>): int {
    if pulses == [] then 0
    else Net(pulses[..|pulses| - 1]) + if pulses[|pulses| - 1] then 1 else -1
  }

  function AllSteps(queue: seq<Block>): seq<bool> {
    if queue == [] then [] else Steps(queue[0], 0) + AllSteps(queue[1..])
  }

  function Shifts(queue: seq<Block>): int {
    if queue == [] then 0 else BlockShift(queue[0]) + Shifts(queue[1..])
  }

  function Done(a: Axis): U32 { if a.live then a.ramp.stepsCompleted else 0 }

  /** The pulses still to come, in order. */
  function Unexecuted(a: Axis): seq<bool>
    requires a.queue != [] ==> Done(a) <= a.queue[0].steps
  {
    if a.queue == [] then [] else Steps(a.queue[0], Done(a)) + AllSteps(a.queue[1..])
  }

  /** The signed steps still to come. */
  function Remaining(a: Axis): int {
    if a.queue == [] then 0
    else
      var b := a.queue[0];
      (if b.direction then b.steps - Done(a) else Done(a) - b.steps) + Shifts(a.queue[1..])
  }

  /** The end of the last block that has been pushed. */
  function Head(a: Axis): Pos {
    match a.planning
    case Idle => a.position
    case Pushed(target) => target
  }

  predicate Valid(a: Axis) {
    && |a.queue| <= BLOCK_BUFFER_SIZE
    && (forall b | b in a.queue :: 1 <= b.steps < 0x8000_0000)
    && (a.live ==> a.queue != [] && Stepping(a.queue[0], a.ramp))
    && a.ramp.timerNominal <= MAX_INTERVAL
    && a.at == Head(a) - Remaining(a)
    && -0x8000_0000 <= a.at < 0x8000_0000
    && (forall k | 1 <= k <= |a.queue| :: -0x8000_0000 <= Head(a) - Shifts(a.queue[k..]) < 0x8000_0000)
  }

  // The events

  datatype Stepped = Stepped(axis: Axis, timer: U16, pulses: seq<bool>)

  /** PulseGen::Step, called by the interrupt. */
  function Step(t: Tables, a: Axis): Stepped
    requires Valid(a)
  {
    if a.queue == [] then Stepped(a, 0, [])
    else
      var b := a.queue[0];
      var r := if a.live then a.ramp else Started(t, b, a.ramp);
      var k := NextTick(t, b, r);
      var n := Pulses(b, r);
      var finished := k.ramp.stepsCompleted >= b.steps;
      Stepped(
        a.(queue := if finished then a.queue[1..] else a.queue,
           live := !finished,
           ramp := k.ramp,
           at := if b.direction then a.at + n else a.at - n),
        k.timer,
        seq(n, _ => b.direction))
  }

  /** The push of PlanMoveTo: the filled block becomes visible to the interrupt. */
  function Push(a: Axis, b: Block, target: Pos): Axis
    requires a.planning == Idle
  {
    a.(queue := a.queue + [b], planning := Pushed(target))
  }

  /** The last write of PlanMoveTo. */
  function Commit(a: Axis): Axis
    requires a.planning.Pushed?
  {
    a.(position := a.planning.target, planning := Idle)
  }

  /** CurPosition, as the position that the unexecuted steps leave over. */
  function CurPosition(a: Axis): int { a.position - Remaining(a) }

  function Abort(a: Axis, halt: bool): Axis
    requires Valid(a) && a.planning == Idle
  {
    var rate: U32 := if halt then 0 else if a.live then a.ramp.accStepRate else a.lastRate;
    a.(queue := [], live := false, position := CurPosition(a), lastRate := rate)
  }

  datatype Event =
    | Interrupt
    | PlanRate(rate: U32)
    | PushBlock(block: Block, target: Pos)
    | CommitPosition
    | AbortMoves(halt: bool)

  /** What the firmware lets happen: one plan at a time, no abort in the middle of one. */
  predicate Enabled(a: Axis, e: Event) {
    match e
    case Interrupt => true
    case PlanRate(_) => a.planning == Idle
    case PushBlock(b, target) =>
      && a.planning == Idle && |a.queue| < BLOCK_BUFFER_SIZE
      && 1 <= b.steps < 0x8000_0000 && BlockShift(b) == target - a.position
    case CommitPosition => a.planning.Pushed?
    case AbortMoves(_) => a.planning == Idle
  }

  function Apply(t: Tables, a: Axis, e: Event): Stepped
    requires Valid(a) && Enabled(a, e)
  {
    match e
    case Interrupt => Step(t, a)
    case PlanRate(rate) => Stepped(a.(lastRate := rate), 0, [])
    case PushBlock(b, target) => Stepped(Push(a, b, target), 0, [])
    case CommitPosition => Stepped(Commit(a), 0, [])
    case AbortMoves(halt) => Stepped(Abort(a, halt), 0, [])
  }

  // Sums

  lemma {:induction false} NetAppend(p: seq<bool>, q: seq<bool>)
    ensures Net(p + q) == Net(p) + Net(q)
  {
    if q == [] {
      assert p + q == p;
    } else {
      assert (p + q)[..|p + q| - 1] == p + q[..|q| - 1];
      NetAppend(p, q[..|q| - 1]);
    }
  }

  lemma {:induction false} NetSame(n: nat, d: bool)
    ensures Net(seq(n, _ => d)) == if d then n else 0 - n
    decreases n
  {
    if n > 0 {
      assert seq(n, _ => d)[..n - 1] == seq(n - 1, _ => d);
      NetSame(n - 1, d);
    }
  }

  lemma {:induction false} ShiftsAppend(queue: seq<Block>, b: Block)
    ensures Shifts(queue + [b]) == Shifts(queue) + BlockShift(b)
  {
    if queue != [] {
      assert (queue + [b])[1..] == queue[1..] + [b];
      ShiftsAppend(queue[1..], b);
    } else {
      assert (queue + [b])[1..] == [];
    }
  }

  lemma {:induction false} AllStepsAppend(queue: seq<Block>, b: Block)
    ensures AllSteps(queue + [b]) == AllSteps(queue) + Steps(b, 0)
  {
    if queue != [] {
      assert (queue + [b])[1..] == queue[1..] + [b];
      AllStepsAppend(queue[1..], b);
    } else {
      assert (queue + [b])[1..] == [];
    }
  }

  lemma {:induction false} ShiftsAreNet(queue: seq<Block>)
    ensures Net(AllSteps(queue)) == Shifts(queue)
  {
    if queue != [] {
      NetAppend(Steps(queue[0], 0), AllSteps(queue[1..]));
      NetSame(queue[0].steps, queue[0].direction);
      ShiftsAreNet(queue[1..]);
    }
  }

  /** The remaining signed steps are the net of the pulses still to come. */
  lemma RemainingIsNet(a: Axis)
    requires a.queue != [] ==> Done(a) <= a.queue[0].steps
    ensures Remaining(a) == Net(Unexecuted(a))
  {
    if a.queue != [] {
      var b := a.queue[0];
      NetAppend(Steps(b, Done(a)), AllSteps(a.queue[1..]));
      NetSame(b.steps - Done(a), b.direction);
      ShiftsAreNet(a.queue[1..]);
    }
  }

  // Every event keeps the axis consistent

  /**
  An interrupt executes the next pulses in order, all from one block and at least one while
  there are any, and moves the axis by exactly those.
  */
  lemma StepExecutes(t: Tables, a: Axis)
    requires Valid(a)
    ensures var s := Step(t, a);
      && Unexecuted(a) == s.pulses + Unexecuted(s.axis)
      && |s.pulses| <= 4
      && (a.queue != [] ==>
            && s.pulses != []
            && |s.pulses| <= a.queue[0].steps - Done(a)
            && (forall i | 0 <= i < |s.pulses| :: s.pulses[i] == a.queue[0].direction))
      && (s.timer == 0 <==> a.queue == [])
      && (a.queue != [] ==> MIN_INTERVAL <= s.timer <= MAX_INTERVAL)
      && s.axis.at == a.at + Net(s.pulses)
      && Head(s.axis) == Head(a)
      && (a.queue == [] ==> Unexecuted(a) == [])
  {
    hide NextTick, Shifts;
    if a.queue != [] {
      StepSplits(t, a);
      var b := a.queue[0];
      NetSame(Pulses(b, if a.live then a.ramp else Started(t, b, a.ramp)), b.direction);
      hide Net, AllSteps, Unexecuted;
    }
  }

  /** The pulses of an interrupt are the first of those to come. */
  lemma StepSplits(t: Tables, a: Axis)
    requires Valid(a) && a.queue != []
    ensures Unexecuted(a) == Step(t, a).pulses + Unexecuted(Step(t, a).axis)
  {
    hide NextTick, Shifts, Net;
    var b := a.queue[0];
    var s := Step(t, a);
    var r := if a.live then a.ramp else Started(t, b, a.ramp);
    assert Stepping(b, r);
    hide Valid;
    var done := Done(a) + Pulses(b, r);
    var rest := AllSteps(a.queue[1..]);
    StepsSplit(b, Done(a), Pulses(b, r));
    assert Unexecuted(s.axis) == Steps(b, done) + rest by {
      if done == b.steps {
        QueueUnexecuted(s.axis);
        assert Steps(b, done) + rest == rest;
      }
    }
    hide AllSteps, Steps, Step, Started;
    Regroup(s.pulses, Steps(b, done), rest);
  }

  lemma StepsSplit(b: Block, done: nat, n: nat)
    requires done + n <= b.steps
    ensures Steps(b, done) == seq(n, _ => b.direction) + Steps(b, done + n)
  {
  }

  /** Without a live block, the steps to come are those of the whole queue. */
  lemma QueueUnexecuted(a: Axis)
    requires !a.live
    ensures Unexecuted(a) == AllSteps(a.queue) && Remaining(a) == Shifts(a.queue)
  {
  }

  lemma StepKeepsValid(t: Tables, a: Axis)
    requires Valid(a)
    ensures Valid(Step(t, a).axis)
  {
    if a.queue != [] {
      var s := Step(t, a);
      var b := a.queue[0];
      var r := if a.live then a.ramp else Started(t, b, a.ramp);
      assert Stepping(b, r);
      hide NextTick;
      assert a.queue[1..] == if |a.queue| >= 1 then a.queue[1..] else [];
      assert -0x8000_0000 <= Head(a) - Shifts(a.queue[1..]) < 0x8000_0000;
      if !s.axis.live {
        QueueUnexecuted(s.axis);
        forall k | 1 <= k <= |s.axis.queue|
          ensures -0x8000_0000 <= Head(a) - Shifts(s.axis.queue[k..]) < 0x8000_0000
        {
          assert s.axis.queue[k..] == a.queue[k + 1..];
        }
      }
    }
  }

  lemma PushKeepsValid(a: Axis, b: Block, target: Pos)
    requires Valid(a) && Enabled(a, PushBlock(b, target))
    ensures Valid(Push(a, b, target))
    ensures Unexecuted(Push(a, b, target)) == Unexecuted(a) + Steps(b, 0)
  {
    PushAppends(a, b, target);
    var a' := Push(a, b, target);
    hide Unexecuted, AllSteps, Net, Stepping;
    forall k | 1 <= k <= |a'.queue|
      ensures -0x8000_0000 <= Head(a') - Shifts(a'.queue[k..]) < 0x8000_0000
    {
      if k <= |a.queue| {
        assert a'.queue[k..] == a.queue[k..] + [b];
        ShiftsAppend(a.queue[k..], b);
      }
    }
  }

  lemma PushAppends(a: Axis, b: Block, target: Pos)
    requires Valid(a) && Enabled(a, PushBlock(b, target))
    ensures Unexecuted(Push(a, b, target)) == Unexecuted(a) + Steps(b, 0)
    ensures Remaining(Push(a, b, target)) == Remaining(a) + BlockShift(b)
  {
    var a' := Push(a, b, target);
    if a.queue == [] {
      assert a'.queue[1..] == [];
    } else {
      assert a'.queue[1..] == a.queue[1..] + [b];
      ShiftsAppend(a.queue[1..], b);
      AllStepsAppend(a.queue[1..], b);
    }
  }

  lemma EventKeepsValid(t: Tables, a: Axis, e: Event)
    requires Valid(a) && Enabled(a, e)
    ensures Valid(Apply(t, a, e).axis)
    ensures Apply(t, a, e).axis.at == a.at + Net(Apply(t, a, e).pulses)
  {
    match e
    case Interrupt =>
      StepKeepsValid(t, a);
      StepExecutes(t, a);
    case PushBlock(b, target) =>
      PushKeepsValid(a, b, target);
    case PlanRate(_) =>
    case CommitPosition =>
    case AbortMoves(_) =>
  }

  // Whole runs

  /** The axis and all pulses after a sequence of events, None when one was not enabled. */
  function Run(t: Tables, a: Axis, events: seq<Event>): (r: Option<(Axis, seq<bool>)>)
    requires Valid(a)
    ensures r.Some? ==> Valid(r.value.0)
    decreases |events|
  {
    if events == [] then Some((a, []))
    else if !Enabled(a, events[0]) then None
    else
      EventKeepsValid(t, a, events[0]);
      var s := Apply(t, a, events[0]);
      match Run(t, s.axis, events[1..])
      case None => None
      case Some(rest) => Some((rest.0, s.pulses + rest.1))
  }

  /**
  After any interleaving of interrupts with plans and aborts: the axis stands where its pulses
  have taken it; between plans CurPosition says exactly that; and the planned position lies
  the unexecuted steps further.
  */
  lemma {:induction false} PositionIsPulses(t: Tables, a: Axis, events: seq<Event>)
    requires Valid(a) && Run(t, a, events).Some?
    ensures var (end, pulses) := Run(t, a, events).value;
      && end.at == a.at + Net(pulses)
      && Head(end) - end.at == Net(Unexecuted(end))
      && (end.planning == Idle ==> CurPosition(end) == a.at + Net(pulses)
                                   && end.position - CurPosition(end) == Net(Unexecuted(end)))
    decreases |events|
  {
    var (end, pulses) := Run(t, a, events).value;
    RemainingIsNet(end);
    if events != [] {
      EventKeepsValid(t, a, events[0]);
      var s := Apply(t, a, events[0]);
      PositionIsPulses(t, s.axis, events[1..]);
      NetAppend(s.pulses, Run(t, s.axis, events[1..]).value.1);
    }
  }

  /** A run of two sequences of events is a run of the one and then of the other. */
  /** The rate of the last plan. */
  function PlannedRate(events: seq<Event>, before: U32): U32 {
    if events == [] then before
    else PlannedRate(events[1..], if events[0].PlanRate? then events[0].rate else before)
  }

  predicate NoAbort(events: seq<Event>) { forall e | e in events :: !e.AbortMoves? }

  /** Whatever interrupts come between plans, the axis remembers the final rate of the last one. */
  lemma {:induction false} RateIsPlanned(t: Tables, a: Axis, events: seq<Event>)
    requires Valid(a) && Run(t, a, events).Some? && NoAbort(events)
    ensures Run(t, a, events).value.0.lastRate == PlannedRate(events, a.lastRate)
    decreases |events|
  {
    hide Valid, NextTick, Enabled;
    if events != [] {
      EventKeepsValid(t, a, events[0]);
      RateIsPlanned(t, Apply(t, a, events[0]).axis, events[1..]);
    }
  }

  lemma {:induction false} RunConcat(t: Tables, a: Axis, first: seq<Event>, second: seq<Event>)
    requires Valid(a) && Run(t, a, first).Some?
    ensures var mid := Run(t, a, first).value;
      var end := Run(t, mid.0, second);
      Run(t, a, first + second)
      == if end.None? then None else Some((end.value.0, mid.1 + end.value.1))
    decreases |first|
  {
    hide Valid, Apply, Enabled;
    if first == [] {
      assert first + second == second;
      var end := Run(t, a, second);
      assert end.Some? ==> [] + end.value.1 == end.value.1;
    } else {
      assert (first + second)[1..] == first[1..] + second && (first + second)[0] == first[0];
      EventKeepsValid(t, a, first[0]);
      var s := Apply(t, a, first[0]);
      RunConcat(t, s.axis, first[1..], second);
      var mid := Run(t, s.axis, first[1..]).value;
      var end := Run(t, mid.0, second);
      if end.Some? {
        Regroup(s.pulses, mid.1, end.value.1);
      }
    }
  }

  lemma RunOne(t: Tables, a: Axis, e: Event)
    requires Valid(a) && Enabled(a, e)
    ensures Run(t, a, [e]).Some? && Run(t, a, [e]).value.0 == Apply(t, a, e).axis
  {
    EventKeepsValid(t, a, e);
    assert [e][1..] == [];
  }

  /** The blocks that a sequence of events pushes. */
  function PushedBlocks(events: seq<Event>): seq<Block> {
    if events == [] then []
    else (if events[0].PushBlock? then [events[0].block] else []) + PushedBlocks(events[1..])
  }

  predicate NoAborts(events: seq<Event>) {
    forall e | e in events :: !e.AbortMoves?
  }

  lemma {:induction false} AllStepsConcat(p: seq<Block>, q: seq<Block>)
    ensures AllSteps(p + q) == AllSteps(p) + AllSteps(q)
  {
    if p == [] {
      assert p + q == q;
    } else {
      assert (p + q)[1..] == p[1..] + q;
      AllStepsConcat(p[1..], q);
    }
  }

  lemma OneEvent(t: Tables, a: Axis, e: Event)
    requires Valid(a) && Enabled(a, e) && !e.AbortMoves?
    ensures var s := Apply(t, a, e);
      s.pulses + Unexecuted(s.axis) == Unexecuted(a) + (if e.PushBlock? then Steps(e.block, 0) else [])
  {
    match e
    case Interrupt =>
      StepExecutes(t, a);
    case PushBlock(b, target) =>
      PushAppends(a, b, target);
    case PlanRate(_) =>
    case CommitPosition =>
  }

  /**
  Without aborts, the pulses made plus those to come are exactly the steps of the blocks, in
  the order the blocks were pushed: none is lost, repeated, turned round or overtaken.
  */
  lemma {:induction false} PulsesAreBlocksInOrder(t: Tables, a: Axis, events: seq<Event>)
    requires Valid(a) && Run(t, a, events).Some? && NoAborts(events)
    ensures var (end, pulses) := Run(t, a, events).value;
      pulses + Unexecuted(end) == Unexecuted(a) + AllSteps(PushedBlocks(events))
    decreases |events|
  {
    hide Apply, Enabled, Steps;
    if events != [] {
      var e := events[0];
      EventKeepsValid(t, a, e);
      var s := Apply(t, a, e);
      var (end, rest) := Run(t, s.axis, events[1..]).value;
      PulsesAreBlocksInOrder(t, s.axis, events[1..]);
      OneEvent(t, a, e);
      var first: seq<Block> := if e.PushBlock? then [e.block] else [];
      AllStepsConcat(first, PushedBlocks(events[1..]));
      assert AllSteps(first) == if e.PushBlock? then Steps(e.block, 0) else [];
      var now, next, later := Unexecuted(a), Unexecuted(s.axis), Unexecuted(end);
      var pushed := AllSteps(PushedBlocks(events[1..]));
      hide *;
      Regroup(s.pulses, rest, later);
      Regroup(s.pulses, next, pushed);
      Regroup(now, AllSteps(first), pushed);
    }
  }

  lemma Regroup(p: seq<bool>, q: seq<bool>, r: seq<bool>)
    ensures (p + q) + r == p + (q + r)
  {
  }

  function Interrupts(n: nat): seq<Event> { seq(n, _ => Interrupt) }

  /**
  Interrupts alone drain the queue, in at most as many calls as there are steps to come, and
  leave the axis at the end of the last block pushed.
  */
  lemma {:induction false} InterruptsDrain(t: Tables, a: Axis, n: nat)
    requires Valid(a) && n >= |Unexecuted(a)|
    ensures var run := Run(t, a, Interrupts(n));
      && run.Some?
      && run.value.0.queue == []
      && run.value.1 == Unexecuted(a)
      && run.value.0.at == Head(a)
      && Head(run.value.0) == Head(a)
    decreases n
  {
    hide Net, AllSteps, Shifts, Step, Unexecuted, Remaining;
    if n == 0 {
      EmptyWhenNothingToCome(a);
    } else {
      StepExecutes(t, a);
      EventKeepsValid(t, a, Interrupt);
      var s := Step(t, a);
      assert Interrupts(n)[0] == Interrupt && Interrupts(n)[1..] == Interrupts(n - 1);
      InterruptsDrain(t, s.axis, n - 1);
    }
  }

  lemma EmptyWhenNothingToCome(a: Axis)
    requires Valid(a) && Unexecuted(a) == []
    ensures a.queue == [] && a.at == Head(a)
  {
  }
}
