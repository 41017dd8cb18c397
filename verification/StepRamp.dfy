/** One interrupt of the pulse generator inside a block: pulses, rate and next interval. */
module StepRamp {
  import opened Machine
  import opened Arithmetic
  import opened SpeedTable
  import opened Trapezoid

  /** The step parameters of the block being executed. */
  datatype Ramp = Ramp(
    accelerationTime: U32,
    decelerationTime: U32,
    accStepRate: U16,
    stepLoops: Byte,
    stepLoopsNominal: Byte,
    timerNominal: U16,
    stepsCompleted: U32)

  /** The C form of mulU24X24toH16. */
  function MulU24X24toH16(x: U32, y: U32): U16 {
    ScaledIsNatural(x, y);
    Wrap16((x * y) / 0x100_0000)
  }

  lemma ScaledIsNatural(x: nat, y: nat)
    ensures x * y >= 0 && (x * y) / 0x100_0000 >= 0
  {
    ProductOrder(x, 0, y);
    DivBounds(x * y, 0x100_0000);
  }

  /** The step parameters when a block is fetched; the nominal interval is left over. */
  function Started(t: Tables, b: Block, old': Ramp): Ramp {
    var rate := Wrap16(b.initialRate);
    Ramp(Interval(t, rate), 0, rate, Loops(rate), 0, old'.timerNominal, 0)
  }

  predicate Stepping(b: Block, r: Ramp) {
    && r.stepsCompleted < b.steps
    && (r.stepLoops == 1 || r.stepLoops == 2 || r.stepLoops == 4)
    && (r.stepLoopsNominal == 0 || r.timerNominal >= MIN_INTERVAL)
    && r.timerNominal <= MAX_INTERVAL
  }

  /** The pulses of one interrupt: at most the rest of the block. */
  function Pulses(b: Block, r: Ramp): (n: nat)
    requires Stepping(b, r)
    ensures 1 <= n <= 4 && r.stepsCompleted + n <= b.steps
  {
    Min(r.stepLoops, b.steps - r.stepsCompleted)
  }

  function AccelerationRate(b: Block, time: U32): U16 {
    Min(Wrap16(MulU24X24toH16(time, b.accelerationRate) + Wrap16(b.initialRate)), Wrap16(b.nominalRate))
  }

  function DecelerationRate(b: Block, accStepRate: U16, time: U32): U16 {
    var drop := MulU24X24toH16(time, b.accelerationRate);
    if drop > accStepRate || accStepRate - drop < b.finalRate then Wrap16(b.finalRate)
    else accStepRate - drop
  }

  datatype Phase = Accelerating | Cruising | Decelerating

  function PhaseAt(b: Block, completed: U32): Phase {
    if completed <= b.accelerateUntil then Accelerating
    else if completed > b.decelerateAfter then Decelerating
    else Cruising
  }

  /** Step parameters, commanded rate and interval after one interrupt. */
  datatype Tick = Tick(ramp: Ramp, rate: U16, timer: U16)

  function NextTick(t: Tables, b: Block, r: Ramp): (k: Tick)
    requires Stepping(b, r)
    ensures k.ramp.stepsCompleted == r.stepsCompleted + Pulses(b, r)
    ensures MIN_INTERVAL <= k.timer <= MAX_INTERVAL
    ensures k.ramp.stepsCompleted < b.steps ==> Stepping(b, k.ramp)
    ensures k.ramp.timerNominal <= MAX_INTERVAL
  {
    var r' := r.(stepsCompleted := r.stepsCompleted + Pulses(b, r));
    match PhaseAt(b, r'.stepsCompleted)
    case Accelerating =>
      var rate := AccelerationRate(b, r.accelerationTime);
      var timer := Interval(t, rate);
      Tick(r'.(accStepRate := rate, stepLoops := Loops(rate),
               accelerationTime := Wrap32(r.accelerationTime + timer)), rate, timer)
    case Decelerating =>
      var rate := DecelerationRate(b, r.accStepRate, r.decelerationTime);
      var timer := Interval(t, rate);
      Tick(r'.(stepLoops := Loops(rate), decelerationTime := Wrap32(r.decelerationTime + timer)), rate, timer)
    case Cruising =>
      var rate := Wrap16(b.nominalRate);
      if r.stepLoopsNominal == 0 then
        Tick(r'.(timerNominal := Interval(t, rate), stepLoops := Loops(rate), stepLoopsNominal := Loops(rate)),
             rate, Interval(t, rate))
      else Tick(r', rate, r.timerNominal)
  }

  // The rates commanded over a whole block

  /** What one interrupt decides, and the steps that are completed then. */
  datatype Command = Command(phase: Phase, completed: nat, rate: U16, timer: U16)

  function Ahead(b: Block, r: Ramp): Phase
    requires Stepping(b, r)
  {
    PhaseAt(b, r.stepsCompleted + Pulses(b, r))
  }

  function Commands(t: Tables, b: Block, r: Ramp): (c: seq<Command>)
    requires Stepping(b, r)
    ensures c != []
    decreases b.steps - r.stepsCompleted
  {
    var k := NextTick(t, b, r);
    [Command(Ahead(b, r), k.ramp.stepsCompleted, k.rate, k.timer)]
    + if k.ramp.stepsCompleted < b.steps then Commands(t, b, k.ramp) else []
  }

  /** A ramp time whose scaled product, plus `base`, fits 16 bits. */
  predicate TimeFits(b: Block, time: nat, base: nat) {
    time < 0x1_0000_0000 && (time * b.accelerationRate) / 0x100_0000 + base < 0x1_0000
  }

  /** No ramp time overflows at any interrupt of the rest of the block. */
  predicate TimesFit(t: Tables, b: Block, r: Ramp)
    requires Stepping(b, r)
    decreases b.steps - r.stepsCompleted
  {
    var k := NextTick(t, b, r);
    && (Ahead(b, r) == Accelerating ==> TimeFits(b, r.accelerationTime + k.timer, b.initialRate))
    && (Ahead(b, r) == Decelerating ==> TimeFits(b, r.decelerationTime + k.timer, 0))
    && (k.ramp.stepsCompleted < b.steps ==> TimesFit(t, b, k.ramp))
  }

  /** What the planner guarantees of a block with a 16-bit nominal rate. */
  predicate WellPlanned(b: Block) {
    && b.nominalRate < 0x1_0000
    && b.initialRate <= b.nominalRate
    && b.finalRate <= b.nominalRate
    && b.accelerateUntil <= b.decelerateAfter
  }

  function Rank(p: Phase): nat {
    match p
    case Accelerating => 0
    case Cruising => 1
    case Decelerating => 2
  }

  lemma ScaledOrder(x: nat, y: nat, rate: nat)
    requires x <= y
    ensures 0 <= (x * rate) / 0x100_0000 <= (y * rate) / 0x100_0000
  {
    ProductOrder(rate, x, y);
    ScaledIsNatural(x, rate);
    QuotientOrder(x * rate, y * rate, 0x100_0000);
  }

  lemma AccelerationRises(b: Block, x: U32, y: U32)
    requires WellPlanned(b) && x <= y && TimeFits(b, y, b.initialRate)
    ensures b.initialRate <= AccelerationRate(b, x) <= AccelerationRate(b, y) <= b.nominalRate
  {
    hide Wrap16;
    ScaledOrder(x, y, b.accelerationRate);
    AccelerationIs(b, x);
    AccelerationIs(b, y);
  }

  lemma AccelerationIs(b: Block, x: U32)
    requires WellPlanned(b) && TimeFits(b, x, b.initialRate)
    ensures AccelerationRate(b, x)
            == Min((x * b.accelerationRate) / 0x100_0000 + b.initialRate, b.nominalRate)
  {
    hide Wrap16;
    ScaledIsNatural(x, b.accelerationRate);
    var p := (x * b.accelerationRate) / 0x100_0000;
    Exact16(p);
    Exact16(p + b.initialRate);
    Exact16(b.initialRate);
    Exact16(b.nominalRate);
  }

  lemma DecelerationFalls(b: Block, rate: U16, x: U32, y: U32)
    requires WellPlanned(b) && x <= y && TimeFits(b, y, 0) && rate <= b.nominalRate
    ensures b.finalRate <= DecelerationRate(b, rate, y) <= DecelerationRate(b, rate, x) <= b.nominalRate
  {
    ScaledOrder(x, y, b.accelerationRate);
    var p, q := (x * b.accelerationRate) / 0x100_0000, (y * b.accelerationRate) / 0x100_0000;
    Exact16(p);
    Exact16(q);
    Exact16(b.finalRate);
    hide Wrap16;
  }

  /** The step parameters are those of a block that follows its profile. */
  predicate OnProfile(b: Block, r: Ramp)
    requires Stepping(b, r)
  {
    && b.initialRate <= r.accStepRate <= b.nominalRate
    && (Ahead(b, r) == Accelerating ==> r.accStepRate <= AccelerationRate(b, r.accelerationTime))
  }

  /** One interrupt keeps to the profile and commands a rate inside the limits of the block. */
  lemma ProfileStep(t: Tables, b: Block, r: Ramp)
    requires Stepping(b, r) && WellPlanned(b) && OnProfile(b, r) && TimesFit(t, b, r)
    ensures var k := NextTick(t, b, r);
      && Min(b.initialRate, b.finalRate) <= k.rate <= b.nominalRate
      && (Ahead(b, r) == Accelerating ==> r.accStepRate <= k.rate == k.ramp.accStepRate)
      && (Ahead(b, r) == Decelerating ==>
            k.rate == DecelerationRate(b, r.accStepRate, r.decelerationTime)
            >= DecelerationRate(b, k.ramp.accStepRate, k.ramp.decelerationTime))
      && (k.ramp.stepsCompleted < b.steps ==>
            && OnProfile(b, k.ramp) && TimesFit(t, b, k.ramp)
            && Rank(Ahead(b, r)) <= Rank(Ahead(b, k.ramp)))
  {
    hide Wrap16, AccelerationRate, DecelerationRate, TimeFits;
    var k := NextTick(t, b, r);
    match Ahead(b, r) {
      case Accelerating =>
        Fits32(b, r.accelerationTime + k.timer, b.initialRate);
        AccelerationRises(b, r.accelerationTime, r.accelerationTime + k.timer);
      case Decelerating =>
        Fits32(b, r.decelerationTime + k.timer, 0);
        DecelerationFalls(b, r.accStepRate, r.decelerationTime, r.decelerationTime + k.timer);
      case Cruising =>
        Exact16(b.nominalRate);
    }
  }

  lemma Fits32(b: Block, time: nat, base: nat)
    requires TimeFits(b, time, base)
    ensures time < 0x1_0000_0000 && Wrap32(time) == time
  {
  }

  /**
  Every rate lies between lo and hi; rates never fall while accelerating and never rise while
  decelerating; and the phases follow each other in that order.
  */
  predicate FollowsProfile(c: seq<Command>, lo: int, hi: int) {
    && (forall i | 0 <= i < |c| :: lo <= c[i].rate <= hi)
    && (forall i, j | 0 <= i < j < |c| :: Rank(c[i].phase) <= Rank(c[j].phase))
    && (forall i, j | 0 <= i < j < |c| && c[i].phase == c[j].phase == Accelerating :: c[i].rate <= c[j].rate)
    && (forall i, j | 0 <= i < j < |c| && c[i].phase == c[j].phase == Decelerating :: c[i].rate >= c[j].rate)
  }

  /** What the commands of the rest of a block may be, seen from its step parameters. */
  predicate Bounded(c: seq<Command>, phase: Phase, slowest: int, fastest: int) {
    && (forall i | 0 <= i < |c| :: Rank(c[i].phase) >= Rank(phase))
    && (forall i | 0 <= i < |c| && c[i].phase == Accelerating :: c[i].rate >= slowest)
    && (phase == Decelerating ==> forall i | 0 <= i < |c| :: c[i].rate <= fastest)
  }

  lemma Prepend(x: Command, rest: seq<Command>, lo: int, hi: int, next: Phase, slowest: int, fastest: int)
    requires FollowsProfile(rest, lo, hi) && Bounded(rest, next, slowest, fastest)
    requires lo <= x.rate <= hi && Rank(x.phase) <= Rank(next)
    requires x.phase == Accelerating ==> x.rate <= slowest
    requires x.phase == Decelerating ==> fastest <= x.rate
    ensures FollowsProfile([x] + rest, lo, hi)
    ensures Bounded([x] + rest, x.phase, if x.phase == Accelerating then x.rate else slowest, x.rate)
  {
    PrependFollows(x, rest, lo, hi, next, slowest, fastest);
    PrependBounded(x, rest, lo, hi, next, slowest, fastest);
    hide FollowsProfile, Bounded;
  }

  lemma PrependFollows(x: Command, rest: seq<Command>, lo: int, hi: int, next: Phase, slowest: int, fastest: int)
    requires FollowsProfile(rest, lo, hi) && Bounded(rest, next, slowest, fastest)
    requires lo <= x.rate <= hi && Rank(x.phase) <= Rank(next)
    requires x.phase == Accelerating ==> x.rate <= slowest
    requires x.phase == Decelerating ==> fastest <= x.rate
    ensures FollowsProfile([x] + rest, lo, hi)
  {
    var c := [x] + rest;
    assert forall i | 1 <= i < |c| :: c[i] == rest[i - 1];
  }

  lemma PrependBounded(x: Command, rest: seq<Command>, lo: int, hi: int, next: Phase, slowest: int, fastest: int)
    requires FollowsProfile(rest, lo, hi) && Bounded(rest, next, slowest, fastest)
    requires Rank(x.phase) <= Rank(next)
    requires x.phase == Accelerating ==> x.rate <= slowest
    requires x.phase == Decelerating ==> fastest <= x.rate
    ensures Bounded([x] + rest, x.phase, if x.phase == Accelerating then x.rate else slowest, x.rate)
  {
    var c := [x] + rest;
    assert forall i | 1 <= i < |c| :: c[i] == rest[i - 1];
  }

  /**
  Over a whole block the commanded rates follow the profile, between the lower of the end
  rates and the nominal rate of the block.
  */
  lemma {:induction false} RatesFollowProfile(t: Tables, b: Block, r: Ramp)
    requires Stepping(b, r) && WellPlanned(b) && OnProfile(b, r) && TimesFit(t, b, r)
    ensures FollowsProfile(Commands(t, b, r), Min(b.initialRate, b.finalRate), b.nominalRate)
    ensures Bounded(Commands(t, b, r), Ahead(b, r), r.accStepRate,
                    DecelerationRate(b, r.accStepRate, r.decelerationTime))
    decreases b.steps - r.stepsCompleted
  {
    ProfileStep(t, b, r);
    var k := NextTick(t, b, r);
    var x := Command(Ahead(b, r), k.ramp.stepsCompleted, k.rate, k.timer);
    var lo, hi := Min(b.initialRate, b.finalRate), b.nominalRate;
    hide FollowsProfile, Bounded, AccelerationRate, DecelerationRate, OnProfile, TimesFit, Min;
    if k.ramp.stepsCompleted < b.steps {
      RatesFollowProfile(t, b, k.ramp);
      AccRateKept(t, b, r);
      var fastest := DecelerationRate(b, k.ramp.accStepRate, k.ramp.decelerationTime);
      Prepend(x, Commands(t, b, k.ramp), lo, hi, Ahead(b, k.ramp), k.ramp.accStepRate, fastest);
      Loosen(Commands(t, b, r), x.phase, if x.phase == Accelerating then x.rate else k.ramp.accStepRate, x.rate,
             r.accStepRate, DecelerationRate(b, r.accStepRate, r.decelerationTime));
    } else {
      Single(x, lo, hi, r.accStepRate, DecelerationRate(b, r.accStepRate, r.decelerationTime));
      assert Commands(t, b, r) == [x];
    }
  }

  /** Only accelerating changes the rate that deceleration starts from. */
  lemma AccRateKept(t: Tables, b: Block, r: Ramp)
    requires Stepping(b, r)
    ensures Ahead(b, r) != Accelerating ==> NextTick(t, b, r).ramp.accStepRate == r.accStepRate
  {
  }

  lemma Loosen(c: seq<Command>, phase: Phase, slowest: int, fastest: int, slower: int, faster: int)
    requires Bounded(c, phase, slowest, fastest)
    requires slower <= slowest && (phase == Decelerating ==> fastest <= faster)
    ensures Bounded(c, phase, slower, faster)
  {
  }

  lemma Single(x: Command, lo: int, hi: int, slowest: int, fastest: int)
    requires lo <= x.rate <= hi
    requires x.phase == Accelerating ==> slowest <= x.rate
    requires x.phase == Decelerating ==> x.rate <= fastest
    ensures FollowsProfile([x], lo, hi) && Bounded([x], x.phase, slowest, fastest)
  {
  }

  /** A block that has just been fetched is on its profile. */
  lemma StartedOnProfile(t: Tables, b: Block, old': Ramp)
    requires WellPlanned(b) && b.steps > 0 && old'.timerNominal <= MAX_INTERVAL
    requires Stepping(b, Started(t, b, old'))
    requires TimesFit(t, b, Started(t, b, old'))
    ensures OnProfile(b, Started(t, b, old'))
  {
    var r := Started(t, b, old');
    Exact16(b.initialRate);
    if Ahead(b, r) == Accelerating {
      var time := r.accelerationTime + NextTick(t, b, r).timer;
      Fits32(b, time, b.initialRate);
      AccelerationRises(b, r.accelerationTime, time);
    }
  }
}
