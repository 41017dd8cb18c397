/** The pulse generator of one axis, in place over its block ring. */
module PulseGenerator {
  import opened Machine
  import opened Arithmetic
  import opened SpeedTable
  import opened Trapezoid
  import opened StepRamp
  import ClockTables
  import Pacing
  import Trajectory
  import opened AxisModel
  import opened Ring

  const SIZE: Size := BLOCK_BUFFER_SIZE

  /** The live blocks of the ring, oldest first. */
  function Queue(buffer: seq<Block>, ix: CircularIndex): (q: seq<Block>)
    requires |buffer| == SIZE && ix.Valid(SIZE)
    ensures |q| == ix.Count(SIZE)
  {
    seq(ix.Count(SIZE), i requires 0 <= i < ix.Count(SIZE) => buffer[ix.Slots(SIZE)[i]])
  }

  /** Writing the slot behind the live ones leaves every live block alone. */
  lemma FillIsInvisible(buffer: seq<Block>, ix: CircularIndex, b: Block)
    requires |buffer| == SIZE && ix.Valid(SIZE) && !ix.Full(SIZE)
    ensures Queue(buffer[ix.Back(SIZE) := b], ix) == Queue(buffer, ix)
  {
    LiveSlotsDistinct(SIZE, ix);
  }

  lemma QueuePush(buffer: seq<Block>, ix: CircularIndex)
    requires |buffer| == SIZE && ix.Valid(SIZE) && !ix.Full(SIZE)
    ensures ix.Push(SIZE).Valid(SIZE)
    ensures Queue(buffer, ix.Push(SIZE)) == Queue(buffer, ix) + [buffer[ix.Back(SIZE)]]
  {
    Ring.PushAppends(SIZE, ix);
  }

  lemma QueuePop(buffer: seq<Block>, ix: CircularIndex)
    requires |buffer| == SIZE && ix.Valid(SIZE) && !ix.Empty()
    ensures ix.Pop(SIZE).Valid(SIZE)
    ensures Queue(buffer, ix) != [] && Queue(buffer, ix)[0] == buffer[ix.Front(SIZE)]
    ensures Queue(buffer, ix.Pop(SIZE)) == Queue(buffer, ix)[1..]
    ensures !ix.Pop(SIZE).Full(SIZE)
  {
    PopDrops(SIZE, ix);
  }

  lemma QueueEmpty(buffer: seq<Block>, ix: CircularIndex)
    requires |buffer| == SIZE && ix.Valid(SIZE)
    ensures ix.Empty() <==> Queue(buffer, ix) == []
    ensures ix.Reset().Valid(SIZE) && Queue(buffer, ix.Reset()) == []
    ensures EMPTY.Valid(SIZE) && Queue(buffer, EMPTY) == []
  {
    EmptyIs(SIZE, ix);
  }

  lemma EmptyIsValid()
    ensures EMPTY.Valid(SIZE)
  {
  }

  /** The slot being filled is never the one the interrupt reads. */
  lemma FilledSlotIsNotRead(ix: CircularIndex)
    requires ix.Valid(SIZE) && !ix.Full(SIZE) && !ix.Empty()
    ensures ix.Back(SIZE) != ix.Front(SIZE)
  {
    LiveSlotsDistinct(SIZE, ix);
    PopDrops(SIZE, ix);
  }

  /** What an interrupt makes of the axis, in terms of its first block. */
  lemma StepIs(t: Tables, a: Axis, b: Block, r: Ramp)
    requires AxisModel.Valid(a) && a.queue != [] && b == a.queue[0]
    requires r == if a.live then a.ramp else Started(t, b, a.ramp)
    ensures Stepping(b, r)
    ensures var k := NextTick(t, b, r);
      var n := Pulses(b, r);
      var s := AxisModel.Step(t, a);
      && AxisModel.Valid(s.axis)
      && k.ramp.stepsCompleted == r.stepsCompleted + n
      && s == Stepped(
           a.(queue := if k.ramp.stepsCompleted >= b.steps then a.queue[1..] else a.queue,
              live := k.ramp.stepsCompleted < b.steps, ramp := k.ramp,
              at := if b.direction then a.at + n else a.at - n),
           k.timer, seq(n, _ => b.direction))
  {
    hide NextTick;
    StepKeepsValid(t, a);
  }

  lemma RoomLeft(ix: CircularIndex)
    requires ix.Valid(SIZE) && !ix.Full(SIZE)
    ensures ix.Count(SIZE) < SIZE
  {
  }

  lemma PushKeepsFront(ix: CircularIndex)
    requires ix.Valid(SIZE) && !ix.Full(SIZE)
    ensures ix.Push(SIZE).Front(SIZE) == ix.Front(SIZE) && !ix.Push(SIZE).Empty()
  {
    Ring.PushAppends(SIZE, ix);
    EmptyIs(SIZE, ix.Push(SIZE));
  }

  /** The events take axis a to axis c. */
  predicate Leads(t: Tables, a: Axis, events: seq<Event>, c: Axis) {
    && AxisModel.Valid(a)
    && AxisModel.Run(t, a, events).Some?
    && AxisModel.Run(t, a, events).value.0 == c
  }

  lemma LeadsNowhere(t: Tables, a: Axis)
    requires AxisModel.Valid(a)
    ensures Leads(t, a, [], a) && Interrupts(0) == []
  {
  }

  lemma LeadsOn(t: Tables, a: Axis, first: seq<Event>, b: Axis, second: seq<Event>, c: Axis)
    requires Leads(t, a, first, b) && Leads(t, b, second, c)
    ensures Leads(t, a, first + second, c)
  {
    hide AxisModel.Run, AxisModel.Valid;
    RunConcat(t, a, first, second);
  }

  lemma LeadsByOne(t: Tables, a: Axis, e: Event)
    requires AxisModel.Valid(a) && Enabled(a, e)
    ensures Leads(t, a, [e], Apply(t, a, e).axis)
  {
    hide AxisModel.Run, AxisModel.Valid, Apply, Enabled;
    RunOne(t, a, e);
  }

  lemma InterruptsAdd(m: nat, n: nat)
    ensures Interrupts(m) + Interrupts(n) == Interrupts(m + n)
  {
  }

  lemma NoInterrupts()
    ensures Interrupts(0) == []
  {
  }

  lemma OneMore(before: seq<Event>, i: nat)
    ensures before + Interrupts(i) + Interrupts(1) == before + Interrupts(i + 1)
  {
    InterruptsAdd(i, 1);
  }

  lemma OneInterrupt(t: Tables, a: Axis)
    requires AxisModel.Valid(a)
    ensures Leads(t, a, Interrupts(1), AxisModel.Step(t, a).axis)
  {
    assert Interrupts(1) == [Interrupt];
    LeadsByOne(t, a, Interrupt);
    hide AxisModel.Run, AxisModel.Valid, AxisModel.Step;
  }

  lemma WrapPosTwice(x: int, y: int)
    ensures WrapPos(WrapPos(x) - y) == WrapPos(x - y)
  {
    var z := x + 0x8000_0000;
    var q := z / 0x1_0000_0000;
    assert WrapPos(x) == x - 0x1_0000_0000 * q;
    ModShift(x - y + 0x8000_0000, 0x1_0000_0000, -q);
  }

  /** The speed at the junction: as near to the feed rate as the jerk limit allows. */
  function EntrySpeed(last: U32, feed: U32, jerk: U32): (e: U32)
    ensures Min(last, feed) <= e <= Max(last, feed)
    ensures last - jerk <= e <= last + jerk
    ensures e == feed || e == last + jerk || e == last - jerk
  {
    if feed >= last then last + Min(feed - last, jerk) else last - Min(last - feed, jerk)
  }

  /** The acceleration scaled by 2^24 over the timer frequency, cut to 67/8. */
  function AccelerationFactor(acceleration: U32): U32 { Div32(Mul32(acceleration, 67), 8) }

  /**
  The factor comes out exactly, and is never more than the acceleration asked for; what it
  lacks is less than two thousandths of it, and one unit of the factor for rounding.
  */
  lemma FactorIsSafe(acceleration: U32)
    requires acceleration <= MAX_ACCELERATION
    ensures AccelerationFactor(acceleration) == acceleration * 67 / 8
    ensures 0 <= acceleration * 0x100_0000 - AccelerationFactor(acceleration) * 2_000_000
              < acceleration * 0x100_0000 / 500 + 2_000_000
  {
    assert Wrap32(acceleration * 67) == acceleration * 67;
  }

  /** What the planner puts into the block of an accepted move by `shift` steps. */
  predicate IsPlan(b: Block, shift: int, feed: U32, end: U32, last: U32, jerk: U32, acceleration: U32) {
    var initial := LimitRate(EntrySpeed(last, feed, jerk), feed);
    && BlockShift(b) == shift && (b.direction <==> shift >= 0)
    && b.nominalRate == feed && b.acceleration == acceleration
    && b.accelerationRate == AccelerationFactor(acceleration)
    && b.initialRate == initial
    && (InRange(b) ==>
          Planned(b) == Ideal(initial, LimitRate(end, feed), feed, Max(acceleration, 1), b.steps))
  }

  /**
  The rates at both ends of every plan in range, in terms of what was asked for. The entry speed
  lies between the last rate and the feed rate, is no more than the jerk away from the last rate,
  and gets to the feed rate if it can; then both rates are limited.
  */
  lemma PlansAreLimited(b: Block, shift: int, feed: U32, end: U32, last: U32, jerk: U32, acceleration: U32)
    returns (entry: nat)
    requires IsPlan(b, shift, feed, end, last, jerk, acceleration) && InRange(b)
    ensures Min(last, feed) <= entry <= Max(last, feed) && last - jerk <= entry <= last + jerk
    ensures entry == feed || entry == last + jerk || entry == last - jerk
    ensures EndsLimited(entry, end, feed, b.steps, b.initialRate, Planned(b))
    ensures b.nominalRate == feed && 0 <= acceleration * 0x100_0000 - b.accelerationRate * 2_000_000
                                      < acceleration * 0x100_0000 / 500 + 2_000_000
  {
    entry := EntrySpeed(last, feed, jerk);
    EndsAreLimited(entry, end, feed, Max(acceleration, 1), b.steps);
    FactorIsSafe(acceleration);
    hide EntrySpeed, EndsLimited, Ideal, LimitRate, Squared, AccelerationFactor;
  }

  /** So from standstill a plan starts at the jerk limit, and one for a slower feed at that. */
  lemma PlannedStart(b: Block, shift: int, feed: U32, end: U32, last: U32, jerk: U32, acceleration: U32)
    requires IsPlan(b, shift, feed, end, last, jerk, acceleration) && InRange(b) && feed >= 120
    ensures b.initialRate == if feed <= last then feed else Max(120, Min(feed, last + jerk))
  {
    var entry := PlansAreLimited(b, shift, feed, end, last, jerk, acceleration);
    hide IsPlan, InRange;
  }

  /** Every plan in range is a block whose rates stay within its nominal rate. */
  lemma PlansAreWellPlanned(b: Block, shift: int, feed: U32, end: U32, last: U32, jerk: U32, acceleration: U32)
    requires IsPlan(b, shift, feed, end, last, jerk, acceleration) && InRange(b)
    ensures WellPlanned(b) && b.decelerateAfter <= b.steps
  {
    var i, f := b.initialRate, LimitRate(end, feed);
    var a := Max(acceleration, 1);
    PhasesInOrder(i, f, feed, a, b.steps);
    ExitRate(i, f, feed, a, b.steps);
    hide Ideal, RampUp, RampDown, Meeting, ExitSquared, Squared;
    assert Planned(b) == Ideal(i, f, feed, a, b.steps);
  }

  /** Every plan in range that is in time follows its profile, whatever block went before. */
  lemma PlansFollowProfile(t: Tables, b: Block, shift: int, feed: U32, end: U32, last: U32, jerk: U32,
                           acceleration: U32, pace: Pacing.Pace, old': Ramp)
    requires IsPlan(b, shift, feed, end, last, jerk, acceleration) && InRange(b) && shift != 0
    requires Pacing.InTime(t, b, pace) && old'.timerNominal <= MAX_INTERVAL
    ensures Stepping(b, Started(t, b, old'))
    ensures FollowsProfile(Commands(t, b, Started(t, b, old')), Min(b.initialRate, b.finalRate), feed)
  {
    PlansAreWellPlanned(b, shift, feed, end, last, jerk, acceleration);
    assert b.steps > 0 && b.nominalRate == feed;
    hide *;
    PlanIsPaced(t, b, pace);
    Pacing.PacedFollowsProfile(t, b, pace, old');
  }

  lemma PlanIsPaced(t: Tables, b: Block, pace: Pacing.Pace)
    requires WellPlanned(b) && b.decelerateAfter <= b.steps && Pacing.InTime(t, b, pace)
    ensures Pacing.Paced(t, b, pace)
  {
    hide Pacing.InTime;
  }

  /**
  From the request to the timer, with the tables of the clock: a plan in range whose ramps fit, told
  from the block, is executed as its profile says once its turn comes.
  */
  lemma PlansAreDriven(t: Tables, b: Block, shift: int, feed: U32, end: U32, last: U32, jerk: U32,
                       acceleration: U32, a: Axis)
    requires IsPlan(b, shift, feed, end, last, jerk, acceleration) && InRange(b) && feed >= 120
    requires ClockTables.OfClock(t) && b.initialRate > 0 && Pacing.Fits(t, b, Pacing.ClockPace(b.initialRate))
    requires AxisModel.Valid(a) && a.queue != [] && !a.live && a.queue[0] == b
    ensures WellPlanned(b)
    ensures var c := Commands(t, b, Trajectory.Current(t, a));
      && Trajectory.Executes(t, b, c) && Trajectory.Obeys(t, a, c, 0)
      && FollowsProfile(c, Min(b.initialRate, b.finalRate), feed)
  {
    var _ := PlansAreLimited(b, shift, feed, end, last, jerk, acceleration);
    PlansAreWellPlanned(b, shift, feed, end, last, jerk, acceleration);
    var pace := Pacing.ClockPace(b.initialRate);
    assert b.steps > 0 && a.ramp.timerNominal <= MAX_INTERVAL && !a.live;
    assert Trajectory.Current(t, a) == Started(t, b, a.ramp);
    assert 120 <= b.initialRate && 120 <= b.finalRate && b.nominalRate == feed <= MAX_STEP_FREQUENCY;
    hide *;
    Pacing.ClockKeepsPace(t, b);
    BothInTime(t, b, pace);
    PlanIsPaced(t, b, pace);
    Trajectory.PacedIsDriven(t, a, pace);
    Pacing.PacedFollowsProfile(t, b, pace, a.ramp);
  }

  lemma BothInTime(t: Tables, b: Block, pace: Pacing.Pace)
    requires b.nominalRate < 0x1_0000 && Pacing.Keeps(t, b, pace) && Pacing.Fits(t, b, pace)
    ensures Pacing.InTime(t, b, pace)
  {
    hide Pacing.Keeps, Pacing.Fits;
  }

  /** How many interrupts come after each piece of a plan. */
  datatype Gaps = Gaps(checked: nat, measured: nat, described: nat, shaped: nat, rated: nat, pushed: nat) {
    function Filling(): nat { checked + measured + described + shaped }
  }

  /** The interrupts that come while the block is being filled in. */
  lemma Together(gaps: Gaps)
    ensures [] + Interrupts(gaps.checked) + Interrupts(gaps.measured) == Interrupts(gaps.checked + gaps.measured)
    ensures Interrupts(gaps.checked + gaps.measured) + Interrupts(gaps.described) + Interrupts(gaps.shaped)
            == Interrupts(gaps.Filling())
  {
  }

  function PlanEvents(b: Block, target: Pos, gaps: Gaps): seq<Event> {
    Interrupts(gaps.Filling()) + [PlanRate(b.finalRate)] + Interrupts(gaps.rated)
    + [PushBlock(b, target)] + Interrupts(gaps.pushed) + [CommitPosition]
  }

  /** Taking back the rest of the live block, then the others, arrives at the pulses made. */
  lemma RollbackIs(a: Axis)
    requires AxisModel.Valid(a) && a.planning == Idle
    ensures var live := if !a.live then 0
                        else if a.queue[0].direction then a.queue[0].steps - Done(a)
                        else Done(a) - a.queue[0].steps;
      WrapPos(WrapPos(a.position - live) - Shifts(if a.live then a.queue[1..] else a.queue)) == a.at
    ensures WrapPos(a.position) == a.position && a.at == AxisModel.CurPosition(a)
  {
    hide WrapPos, BlockShift;
    var live := if !a.live then 0
                else if a.queue[0].direction then a.queue[0].steps - Done(a)
                else Done(a) - a.queue[0].steps;
    if !a.live {
      QueueUnexecuted(a);
    }
    WrapPosTwice(a.position - live, Shifts(if a.live then a.queue[1..] else a.queue));
    WrapPosIs(a.position);
    WrapPosIs(a.at);
  }

  /** The axis when the end of its planned moves gets the name x. */
  function Renamed(a: Axis, x: Pos): Axis { a.(position := x, at := a.at + x - a.position) }

  /** An axis at rest can be given any name; it then stands there. */
  lemma RestIsRenamed(a: Axis, x: Pos)
    requires AxisModel.Valid(a) && a.planning == Idle && a.queue == []
    ensures AxisModel.Valid(Renamed(a, x)) && Renamed(a, x).at == x
  {
  }

  lemma WrapPosIs(x: Pos)
    ensures WrapPos(x) == x
  {
  }

  /** int32_t arithmetic. */
  function WrapPos(x: int): Pos { (x + 0x8000_0000) % 0x1_0000_0000 - 0x8000_0000 }

  class PulseGen {
    const tables: Tables
    const blockBuffer: array<Block>
    var blockIndex: CircularIndex
    var currentBlock: Option<nat>
    var position: Pos
    var maxJerk: U32
    var acceleration: U32
    var lastRate: U32
    var accelerationTime: U32
    var decelerationTime: U32
    var accStepRate: U16
    var stepLoops: Byte
    var stepLoopsNominal: Byte
    var timerNominal: U16
    var stepsCompleted: U32
    /** Where the pulses have moved the axis, and how far a plan has come. */
    ghost var at: int
    ghost var planning: Planning
    ghost var filling: bool

    ghost function Parameters(): Ramp
      reads this
    {
      Ramp(accelerationTime, decelerationTime, accStepRate, stepLoops, stepLoopsNominal, timerNominal,
           stepsCompleted)
    }

    ghost predicate Shaped()
      reads this
    {
      blockBuffer.Length == SIZE && blockIndex.Valid(SIZE)
    }

    ghost function Contents(): Axis
      requires Shaped()
      reads this, blockBuffer
    {
      Axis(Queue(blockBuffer[..], blockIndex), currentBlock.Some?, Parameters(), position, planning, lastRate, at)
    }

    /** The current block, if any, is the oldest one. */
    ghost predicate Aligned()
      reads this
    {
      currentBlock.Some? ==> !blockIndex.Empty() && currentBlock.value == blockIndex.Front(SIZE)
    }

    ghost predicate Valid()
      reads this, blockBuffer
    {
      && Shaped()
      && AxisModel.Valid(Contents())
      && Aligned()
      && (filling ==> planning == Idle && !blockIndex.Full(SIZE))
    }

    constructor (tables: Tables, maxJerk: U32, acceleration: U32)
      ensures Valid() && !filling && planning == Idle && fresh(blockBuffer)
      ensures Contents().queue == [] && position == 0 && at == 0 && lastRate == 0
    {
      this.tables, this.maxJerk, this.acceleration := tables, maxJerk, acceleration;
      var none := Block(0, false, 0, 0, 0, 0, 0, 0, 0);
      blockBuffer := new Block[SIZE](_ => none);
      blockIndex, currentBlock := EMPTY, None;
      position, lastRate := 0, 0;
      accelerationTime, decelerationTime, accStepRate := 0, 0, 0;
      stepLoops, stepLoopsNominal, timerNominal, stepsCompleted := 0, 0, 0, 0;
      at, planning, filling := 0, Idle, false;
      new;
      EmptyIsValid();
      hide IsPower2, Modulus, CircularIndex.Valid;
      QueueEmpty(blockBuffer[..], EMPTY);
    }

    /** Whether all planned moves are finished. */
    method IsEmpty() returns (empty: bool)
      requires Valid()
      ensures empty <==> Contents().queue == []
    {
      QueueEmpty(blockBuffer[..], blockIndex);
      empty := blockIndex.Empty();
    }

    /** Makes the oldest block the current one and initialises the trapezoid generator from it. */
    method Fetch()
      requires Shaped() && currentBlock.None? && !blockIndex.Empty()
      modifies `currentBlock, `decelerationTime, `accStepRate, `accelerationTime, `stepLoops, `stepsCompleted,
               `stepLoopsNominal
      ensures currentBlock == Some(blockIndex.Front(SIZE))
      ensures Parameters() == Started(tables, blockBuffer[blockIndex.Front(SIZE)], old(Parameters()))
    {
      currentBlock := Some(blockIndex.Front(SIZE));
      var b := blockBuffer[currentBlock.value];
      decelerationTime := 0;
      accStepRate := Wrap16(b.initialRate);
      accelerationTime, stepLoops := CalcTimer(tables, accStepRate);
      stepsCompleted := 0;
      stepLoopsNominal := 0;
    }

    /** Steps the motor, up to the end of the block. */
    method Pulse(b: Block) returns (ghost pulses: seq<bool>)
      requires Stepping(b, Parameters())
      modifies `stepsCompleted, `at
      ensures var n := Pulses(b, old(Parameters()));
        && stepsCompleted == old(stepsCompleted) + n
        && pulses == seq(n, _ => b.direction)
        && at == if b.direction then old(at) + n else old(at) - n
    {
      pulses := [];
      var i := 0;
      while i < stepLoops
        invariant 0 <= i <= stepLoops
        invariant stepsCompleted == old(stepsCompleted) + i <= b.steps
        invariant i < stepLoops ==> stepsCompleted < b.steps
        invariant pulses == seq(i, _ => b.direction)
        invariant at == if b.direction then old(at) + i else old(at) - i
        decreases stepLoops - i
      {
        at := if b.direction then at + 1 else at - 1;
        pulses := pulses + [b.direction];
        stepsCompleted := stepsCompleted + 1;
        i := i + 1;
        if stepsCompleted >= b.steps {
          break;
        }
      }
    }

    /** The rate for the next interrupt and its interval. */
    method NextInterval(b: Block, ghost r: Ramp) returns (timer: U16)
      requires Stepping(b, r)
      requires Parameters() == r.(stepsCompleted := r.stepsCompleted + Pulses(b, r))
      modifies `accStepRate, `accelerationTime, `decelerationTime, `stepLoops, `stepLoopsNominal, `timerNominal
      ensures Parameters() == NextTick(tables, b, r).ramp
      ensures timer == NextTick(tables, b, r).timer
    {
      hide MulU24X24toH16, Wrap16, Wrap32, Interval, Loops, Pulses;
      if stepsCompleted <= b.accelerateUntil {
        accStepRate := MulU24X24toH16(accelerationTime, b.accelerationRate);
        accStepRate := Wrap16(accStepRate + Wrap16(b.initialRate));
        if accStepRate > Wrap16(b.nominalRate) {
          accStepRate := Wrap16(b.nominalRate);
        }
        timer, stepLoops := CalcTimer(tables, accStepRate);
        accelerationTime := Wrap32(accelerationTime + timer);
      } else if stepsCompleted > b.decelerateAfter {
        var stepRate := MulU24X24toH16(decelerationTime, b.accelerationRate);
        if stepRate > accStepRate {
          stepRate := Wrap16(b.finalRate);
        } else {
          stepRate := accStepRate - stepRate;
          if stepRate < b.finalRate {
            stepRate := Wrap16(b.finalRate);
          }
        }
        timer, stepLoops := CalcTimer(tables, stepRate);
        decelerationTime := Wrap32(decelerationTime + timer);
      } else {
        if stepLoopsNominal == 0 {
          timerNominal, stepLoops := CalcTimer(tables, Wrap16(b.nominalRate));
          stepLoopsNominal := stepLoops;
        }
        timer := timerNominal;
      }
    }

    /** The pulses of an interrupt and the interval after them. */
    method Run(b: Block) returns (timer: U16, ghost pulses: seq<bool>)
      requires Stepping(b, Parameters())
      modifies `accStepRate, `accelerationTime, `decelerationTime, `stepLoops, `stepLoopsNominal, `timerNominal,
               `stepsCompleted, `at
      ensures var k := NextTick(tables, b, old(Parameters()));
        Parameters() == k.ramp && timer == k.timer
      ensures var n := Pulses(b, old(Parameters()));
        && pulses == seq(n, _ => b.direction)
        && at == if b.direction then old(at) + n else old(at) - n
    {
      hide NextTick, Pulses;
      ghost var r := Parameters();
      pulses := Pulse(b);
      timer := NextInterval(b, r);
    }

    /** Drops the current block when it is complete. */
    method Finish(b: Block)
      requires Shaped() && !blockIndex.Empty() && currentBlock == Some(blockIndex.Front(SIZE))
      modifies `currentBlock, `blockIndex
      ensures Shaped() && blockIndex.head == old(blockIndex.head) && Parameters() == old(Parameters())
      ensures var finished := stepsCompleted >= b.steps;
        var q := old(Queue(blockBuffer[..], blockIndex));
        && (currentBlock.Some? <==> !finished)
        && q != []
        && Queue(blockBuffer[..], blockIndex) == (if finished then q[1..] else q)
      ensures Aligned()
      ensures blockIndex.Full(SIZE) ==> old(blockIndex.Full(SIZE))
    {
      QueuePop(blockBuffer[..], blockIndex);
      if stepsCompleted >= b.steps {
        currentBlock := None;
        blockIndex := blockIndex.Pop(SIZE);
      }
    }

    /** The rest of an interrupt once there is a current block; `a` is the axis before it. */
    method Execute(ghost a: Axis) returns (timer: U16, ghost pulses: seq<bool>)
      requires Shaped() && AxisModel.Valid(a)
      requires !blockIndex.Empty() && currentBlock == Some(blockIndex.Front(SIZE))
      requires Contents() == a.(live := true, ramp := Parameters())
      requires a.queue != []
      requires Parameters() == if a.live then a.ramp else Started(tables, a.queue[0], a.ramp)
      modifies `blockIndex, `currentBlock, `accelerationTime, `decelerationTime, `accStepRate, `stepLoops,
               `stepLoopsNominal, `timerNominal, `stepsCompleted, `at
      ensures Shaped()
      ensures Stepped(Contents(), timer, pulses) == AxisModel.Step(tables, a)
      ensures Aligned()
      ensures blockIndex.Full(SIZE) ==> old(blockIndex.Full(SIZE))
      ensures blockIndex.head == old(blockIndex.head)
    {
      hide *;
      ContentsAre();
      CurrentIsFirst(a);
      ghost var buffer := blockBuffer[..];
      var block := blockBuffer[currentBlock.value];
      StepIs(tables, a, block, Parameters());
      timer, pulses := Run(block);
      assert blockBuffer[..] == buffer;
      Finish(block);
      ContentsAre();
    }

    lemma ContentsAre()
      requires Shaped()
      ensures blockBuffer.Length == SIZE && blockIndex.Valid(SIZE)
      ensures var queue := Queue(blockBuffer[..], blockIndex);
        Contents() == Axis(queue, currentBlock.Some?, Parameters(), position, planning, lastRate, at)
      ensures Parameters().stepsCompleted == stepsCompleted
    {
    }

    /** The current block is the first one of the queue. */
    lemma CurrentIsFirst(a: Axis)
      requires Shaped() && !blockIndex.Empty() && currentBlock == Some(blockIndex.Front(SIZE))
      requires Contents().queue == a.queue
      ensures blockBuffer.Length == SIZE && blockIndex.Valid(SIZE) && currentBlock.value < SIZE
      ensures a.queue == Queue(blockBuffer[..], blockIndex) && blockBuffer[currentBlock.value] == a.queue[0]
    {
      QueuePop(blockBuffer[..], blockIndex);
    }

    /** Makes sure that there is a current block, if there is any block at all. */
    method Begin(ghost a: Axis) returns (idle: bool)
      requires Valid() && a == Contents()
      modifies `currentBlock, `accelerationTime, `decelerationTime, `accStepRate, `stepLoops, `stepLoopsNominal,
               `stepsCompleted
      ensures AxisModel.Valid(a) && AxisModel.Valid(AxisModel.Step(tables, a).axis)
      ensures filling ==> planning == Idle && !blockIndex.Full(SIZE)
      ensures idle ==> Valid() && Stepped(Contents(), 0, []) == AxisModel.Step(tables, a)
      ensures !idle ==> Shaped() && !blockIndex.Empty() && currentBlock == Some(blockIndex.Front(SIZE))
      ensures !idle ==> Contents() == a.(live := true, ramp := Parameters()) && a.queue != []
      ensures !idle ==> Parameters() == if a.live then a.ramp else Started(tables, a.queue[0], a.ramp)
    {
      hide IsPower2, Modulus, CircularIndex.Valid, CircularIndex.Count, Queue, NextTick, Started, AxisModel.Valid;
      QueueEmpty(blockBuffer[..], blockIndex);
      StepKeepsValid(tables, a);
      idle := false;
      if currentBlock.None? {
        if blockIndex.Empty() {
          return true;
        }
        QueuePop(blockBuffer[..], blockIndex);
        Fetch();
      } else {
        LiveHasBlock(a);
      }
    }

    lemma LiveHasBlock(a: Axis)
      requires AxisModel.Valid(a) && a.live
      ensures a.queue != []
    {
    }

    /** One interrupt. `pulses` are the steps made, with their direction. */
    method Step() returns (timer: U16, ghost pulses: seq<bool>)
      requires Valid()
      modifies `blockIndex, `currentBlock, `accelerationTime, `decelerationTime, `accStepRate, `stepLoops,
               `stepLoopsNominal, `timerNominal, `stepsCompleted, `at
      ensures Valid()
      ensures Stepped(Contents(), timer, pulses) == AxisModel.Step(tables, old(Contents()))
      ensures blockIndex.head == old(blockIndex.head)
    {
      ghost var a := Contents();
      hide *;
      var idle := Begin(a);
      if idle {
        return 0, [];
      }
      timer, pulses := Execute(a);
      BecomesValid();
    }

    lemma BecomesValid()
      requires Shaped() && AxisModel.Valid(Contents()) && Aligned()
      requires filling ==> planning == Idle && !blockIndex.Full(SIZE)
      ensures Valid()
    {
    }

    // Planning, one atomic piece at a time

    /** The capacity check that opens a plan. */
    method BeginPlan() returns (ok: bool)
      requires Valid() && !filling && planning == Idle
      modifies `filling
      ensures Valid() && Contents() == old(Contents())
      ensures ok <==> |Contents().queue| < SIZE
      ensures filling == ok
    {
      ok := !blockIndex.Full(SIZE);
      filling := ok;
    }

    /** One write to the slot being filled: the interrupt cannot tell. */
    method Fill(b: Block)
      requires Valid() && filling
      modifies blockBuffer
      ensures Valid() && Contents() == old(Contents())
      ensures blockBuffer[blockIndex.Back(SIZE)] == b
    {
      FillIsInvisible(blockBuffer[..], blockIndex, b);
      ghost var buffer := blockBuffer[..];
      blockBuffer[blockIndex.Back(SIZE)] := b;
      assert blockBuffer[..] == buffer[blockIndex.Back(SIZE) := b];
    }

    method SetLastRate(rate: U32)
      requires Valid() && planning == Idle
      modifies `lastRate
      ensures Valid() && Contents() == Apply(tables, old(Contents()), PlanRate(rate)).axis
    {
      lastRate := rate;
    }

    /** Publishes the filled block. */
    method PushBlock(ghost target: Pos)
      requires Valid() && filling
      requires Enabled(Contents(), Event.PushBlock(blockBuffer[blockIndex.Back(SIZE)], target))
      modifies `blockIndex, `planning, `filling
      ensures Valid() && !filling
      ensures Contents() == Push(old(Contents()), old(blockBuffer[blockIndex.Back(SIZE)]), target)
    {
      QueuePush(blockBuffer[..], blockIndex);
      PushKeepsValid(Contents(), blockBuffer[blockIndex.Back(SIZE)], target);
      PushKeepsFront(blockIndex);
      blockIndex := blockIndex.Push(SIZE);
      planning, filling := Pushed(target), false;
    }

    method CommitPosition(target: Pos)
      requires Valid() && planning == Pushed(target)
      modifies `position, `planning
      ensures Valid() && Contents() == Commit(old(Contents()))
    {
      position := target;
      planning := Idle;
    }

    /** Any number of interrupts, after `before` has taken the axis from a to where it is. */
    method Interrupted(n: nat, ghost a: Axis, ghost before: seq<Event>) returns (ghost events: seq<Event>)
      requires Valid() && Leads(tables, a, before, Contents())
      modifies `blockIndex, `currentBlock, `accelerationTime, `decelerationTime, `accStepRate, `stepLoops,
               `stepLoopsNominal, `timerNominal, `stepsCompleted, `at
      ensures Valid() && blockIndex.head == old(blockIndex.head)
      ensures Contents() == old(Contents()).(queue := Contents().queue, live := Contents().live,
                                             ramp := Contents().ramp, at := Contents().at)
      ensures events == before + Interrupts(n) && Leads(tables, a, events, Contents())
    {
      hide AxisModel.Run, AxisModel.Valid, AxisModel.Step, Leads, Interrupts;
      events := before;
      var i := 0;
      assert before + Interrupts(0) == before by { NoInterrupts(); }
      while i < n
        invariant 0 <= i <= n && Valid() && blockIndex.head == old(blockIndex.head)
        invariant position == old(position) && planning == old(planning) && lastRate == old(lastRate)
        invariant events == before + Interrupts(i) && Leads(tables, a, events, Contents())
      {
        ghost var now := Contents();
        NowValid();
        var _, _ := Step();
        OneInterrupt(tables, now);
        LeadsOn(tables, a, events, now, Interrupts(1), Contents());
        OneMore(before, i);
        events := events + Interrupts(1);
        i := i + 1;
      }
    }

    lemma NowValid()
      requires Valid()
      ensures AxisModel.Valid(Contents())
    {
    }

    /**
    PlanMoveTo, with any number of interrupts after the capacity check, after each part of the
    block has been filled in, after the rate has been written and after the push. `events` is what
    happened to the axis.
    */
    method PlanMoveTo(target: Pos, feedRate: U32, endRate: U32, gaps: Gaps)
      returns (ok: bool, ghost b: Block, ghost events: seq<Event>)
      requires Valid() && !filling && planning == Idle
      requires -0x8000_0000 < target - position < 0x8000_0000 && Shiftable(acceleration)
      modifies this, blockBuffer
      ensures Valid() && !filling && planning == Idle
      ensures Leads(tables, old(Contents()), events, Contents())
      ensures ok <==> |old(Contents()).queue| < SIZE
      ensures !ok ==> events == []
      ensures ok && target == old(position) ==> events == Interrupts(gaps.checked + gaps.measured)
      ensures ok && target != old(position) ==>
        && events == PlanEvents(b, target, gaps)
        && IsPlan(b, target - old(position), feedRate, endRate, old(lastRate), old(maxJerk), old(acceleration))
        && position == target && lastRate == b.finalRate
    {
      hide IsPower2, Modulus, AxisModel.Valid, Queue, CircularIndex.Valid, CircularIndex.Count, Interrupts, Shifts,
           Leads, AxisModel.Run, PlanEvents, IsPlan, Gaps.Filling;
      ghost var a := Contents();
      NowValid();
      LeadsNowhere(tables, a);
      events, b := [], Block(0, false, 0, 0, 0, 0, 0, 0, 0);
      ok := BeginPlan();
      if !ok { return; }
      events := Interrupted(gaps.checked, a, events);
      var steps := target - position;
      var block := blockBuffer[blockIndex.Back(SIZE)];
      block := block.(steps := if steps >= 0 then steps else 0 - steps);
      Fill(block);
      events := Interrupted(gaps.measured, a, events);
      Together(gaps);
      if block.steps == 0 {
        filling := false;
        return;
      }
      b, events := Describe(block, steps, target, feedRate, endRate, gaps, a, events);
    }

    /** The part of PlanMoveTo for a move that is not empty. */
    method Describe(measured: Block, steps: int, target: Pos, feedRate: U32, endRate: U32, gaps: Gaps, ghost a: Axis,
                    ghost before: seq<Event>)
      returns (b: Block, ghost events: seq<Event>)
      requires Valid() && filling && Shiftable(acceleration)
      requires -0x8000_0000 < steps < 0x8000_0000 && steps == target - position
      requires measured.steps == (if steps >= 0 then steps else 0 - steps) && measured.steps > 0
      requires Leads(tables, a, before, Contents()) && before == Interrupts(gaps.checked + gaps.measured)
      modifies this, blockBuffer
      ensures Valid() && !filling && planning == Idle
      ensures events == PlanEvents(b, target, gaps) && Leads(tables, a, events, Contents())
      ensures IsPlan(b, steps, feedRate, endRate, old(lastRate), old(maxJerk), old(acceleration))
      ensures position == target && lastRate == b.finalRate
    {
      Together(gaps);
      hide IsPower2, Modulus, AxisModel.Valid, Queue, CircularIndex.Valid, CircularIndex.Count, Interrupts, Shifts,
           Leads, AxisModel.Run, PlanEvents, Ideal, LimitRate, Mul32, Div32, Shiftable, Gaps.Filling;
      b := measured.(direction := steps >= 0, nominalRate := feedRate, acceleration := acceleration,
                     accelerationRate := AccelerationFactor(acceleration));
      Fill(b);
      events := Interrupted(gaps.described, a, before);
      var entrySpeed := EntrySpeed(lastRate, feedRate, maxJerk);
      b := CalculateTrapezoid(b, entrySpeed, endRate);
      Fill(b);
      events := Interrupted(gaps.shaped, a, events);
      events := Enqueue(b, target, gaps, a, events);
    }

    /** The publishing half of PlanMoveTo. */
    method Enqueue(block: Block, target: Pos, gaps: Gaps, ghost a: Axis, ghost before: seq<Event>)
      returns (ghost events: seq<Event>)
      requires Valid() && filling && blockBuffer[blockIndex.Back(SIZE)] == block
      requires 1 <= block.steps < 0x8000_0000 && BlockShift(block) == target - position
      requires Leads(tables, a, before, Contents()) && before == Interrupts(gaps.Filling())
      modifies this
      ensures Valid() && !filling && planning == Idle
      ensures events == PlanEvents(block, target, gaps) && Leads(tables, a, events, Contents())
      ensures position == target && lastRate == block.finalRate
    {
      hide IsPower2, Modulus, AxisModel.Valid, AxisModel.Run, Queue, CircularIndex.Valid, CircularIndex.Count,
           Interrupts, Shifts, Leads;
      ghost var now := Contents();
      LeadsByOne(tables, now, PlanRate(block.finalRate));
      SetLastRate(block.finalRate);
      LeadsOn(tables, a, before, now, [PlanRate(block.finalRate)], Contents());
      events := before + [PlanRate(block.finalRate)];
      events := Interrupted(gaps.rated, a, events);
      RoomLeft(blockIndex);
      now := Contents();
      LeadsByOne(tables, now, Event.PushBlock(block, target));
      PushBlock(target);
      LeadsOn(tables, a, events, now, [Event.PushBlock(block, target)], Contents());
      events := events + [Event.PushBlock(block, target)];
      events := Interrupted(gaps.pushed, a, events);
      now := Contents();
      LeadsByOne(tables, now, Event.CommitPosition);
      CommitPosition(target);
      LeadsOn(tables, a, events, now, [Event.CommitPosition], Contents());
      events := events + [Event.CommitPosition];
    }

    /** Takes the planned blocks back, oldest first. */
    method RollBack(from: Pos, ix: CircularIndex) returns (cur: Pos)
      requires blockBuffer.Length == SIZE && ix.Valid(SIZE)
      ensures cur == WrapPos(from - Shifts(Queue(blockBuffer[..], ix)))
    {
      hide Queue, IsPower2, Modulus, CircularIndex.Count, CircularIndex.Valid, CircularIndex.Empty;
      ghost var buffer := blockBuffer[..];
      ghost var all := Shifts(Queue(buffer, ix));
      cur := from;
      var iter := ix;
      WrapPosTwice(from, 0);
      while !iter.Empty()
        invariant iter.Valid(SIZE)
        invariant cur == WrapPos(from - all + Shifts(Queue(buffer, iter)))
        decreases |Queue(buffer, iter)|
      {
        QueuePop(buffer, iter);
        var shift := BlockShift(blockBuffer[iter.Front(SIZE)]);
        WrapPosTwice(from - all + Shifts(Queue(buffer, iter)), shift);
        cur := WrapPos(cur - shift);
        iter := iter.Pop(SIZE);
      }
      QueueEmpty(buffer, iter);
    }

    /** The position of the axis while it is moving. */
    method CurPosition() returns (cur: Pos)
      requires Valid() && planning == Idle
      ensures cur == AxisModel.CurPosition(Contents()) == at
    {
      ghost var a, buffer := Contents(), blockBuffer[..];
      cur := position;
      var iter := blockIndex;
      QueueEmpty(buffer, iter);
      if currentBlock.Some? {
        QueuePop(buffer, iter);
        cur := WrapPos(cur - CurBlockShift());
        iter := iter.Pop(SIZE);
      }
      RollbackIs(a);
      assert Queue(buffer, iter) == if a.live then a.queue[1..] else a.queue;
      cur := RollBack(cur, iter);
    }

    /** The signed steps missing from the current block. */
    function CurBlockShift(): int
      requires Valid() && currentBlock.Some?
      reads this, blockBuffer
    {
      PopDrops(SIZE, blockIndex);
      var b := blockBuffer[currentBlock.value];
      if b.direction then b.steps - stepsCompleted else stepsCompleted - b.steps
    }

    method AbortPlannedMoves(halt: bool)
      requires Valid() && planning == Idle && !filling
      modifies this
      ensures Valid() && !filling && at == old(at) && position == at
      ensures Contents() == Abort(old(Contents()), halt)
    {
      QueueEmpty(blockBuffer[..], blockIndex);
      position := CurPosition();
      if currentBlock.Some? {
        lastRate := accStepRate;
        currentBlock := None;
      }
      blockIndex := blockIndex.Reset();
      if halt {
        lastRate := 0;
      }
    }

    /**
    Renames the place where the planned moves end, and with it every place on the way there, as
    long as all of them have a 32-bit name: they do when nothing is planned.
    */
    method SetPosition(x: Pos)
      requires Valid() && planning == Idle && !filling && AxisModel.Valid(Renamed(Contents(), x))
      modifies `position, `at
      ensures Valid() && Contents() == Renamed(old(Contents()), x)
    {
      ghost var shift := x - position;
      position := x;
      at := at + shift;
    }
  }
}
