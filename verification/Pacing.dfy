/**
When the ramp times of a block stay within 16 bits, told from the planned block and from a few
constants of the speed tables before the block is started.
*/
module Pacing {
  import opened Machine
  import opened Arithmetic
  import opened SpeedTable
  import opened Trapezoid
  import opened StepRamp
  import ClockTables

  const SCALE: nat := 0x100_0000
  const FULL: nat := 0x1_0000

  /** Bounds for interval times rate, per step of an interrupt, and for the intervals of a ramp up. */
  datatype Pace = Pace(least: nat, most: nat, slowest: nat)

  /** The tables keep to the pace at every rate the block may command. */
  predicate Keeps(t: Tables, b: Block, pace: Pace) {
    && (forall r: U16 | Min(b.initialRate, b.finalRate) <= r <= b.nominalRate ::
          pace.least * Loops(r) <= r * Interval(t, r) <= pace.most * Loops(r))
    && (forall r: U16 | b.initialRate <= r <= b.nominalRate :: Interval(t, r) <= pace.slowest)
  }

  /** The squared rate, times the scale, that n steps of acceleration reach at least. */
  function Gained(b: Block, pace: Pace, n: int): int {
    b.initialRate * b.initialRate * SCALE + 2 * (b.accelerationRate * pace.least) * n
  }

  /** A rate that deceleration starts from at least. */
  function LeastPeak(b: Block, pace: Pace): nat {
    Min(b.nominalRate, FloorSqrt(Max(0, Gained(b, pace, Max(0, b.accelerateUntil - 3)) / SCALE)))
  }

  /**
  Told from the block: while accelerating, the time to reach the nominal rate and the time spent
  there; while decelerating, the distance still to go at the final rate; and that no 32-bit time
  overflows.
  */
  predicate Fits(t: Tables, b: Block, pace: Pace)
    requires b.nominalRate < 0x1_0000
  {
    && b.accelerationRate
       * (pace.slowest
          + Interval(t, b.nominalRate) * ((b.accelerateUntil + 3) / Loops(b.nominalRate) + 1))
       < (FULL - b.nominalRate) * SCALE
    && 2 * (b.accelerationRate * pace.most) * (b.steps - b.decelerateAfter + 6)
       < SCALE * Reserve(LeastPeak(b, pace), b.finalRate)
    && (b.accelerationRate >= 0x100 || MAX_INTERVAL * (b.steps + 1) < 0x1_0000_0000)
  }

  predicate InTime(t: Tables, b: Block, pace: Pace)
    requires b.nominalRate < 0x1_0000
  {
    Keeps(t, b, pace) && Fits(t, b, pace)
  }

  predicate Paced(t: Tables, b: Block, pace: Pace) {
    WellPlanned(b) && b.decelerateAfter <= b.steps && InTime(t, b, pace)
  }

  /** The squared rate that braking from `peak` to f, and then as long as 16 bits last, would use up. */
  function Reserve(peak: int, f: int): int {
    Max(peak - f, 0) * Max(peak - f, 0) + 2 * FULL * f
  }

  // Products

  /** A rate gained over an interval that starts with rate r. */
  lemma Gains(y: int, r: nat, interval: nat, a: nat, least: nat, loops: nat)
    requires y >= r * SCALE && r * interval >= least * loops
    ensures (y + a * interval) * (y + a * interval) >= y * y + 2 * SCALE * ((a * least) * loops)
  {
    var d := a * interval;
    assert d >= 0 by { ProductOrder(a, 0, interval); }
    assert (y + d) * (y + d) == y * y + 2 * (y * d) + d * d;
    ProductOrder(d, r * SCALE, y);
    assert (r * SCALE) * d == SCALE * (a * (r * interval)) by { Reorder(r, a, interval); }
    ProductOrder(a, least * loops, r * interval);
    assert a * (least * loops) == (a * least) * loops by { Associates(a, least, loops); }
    assert d * d >= 0;
  }

  lemma Reorder(r: int, a: int, i: int)
    ensures (r * SCALE) * (a * i) == SCALE * (a * (r * i))
  {
    Associates(SCALE, r, a * i);
    Associates(r, a, i);
    Associates(a, r, i);
  }

  lemma Associates(x: int, y: int, z: int)
    ensures x * (y * z) == (x * y) * z
  {
  }

  /** What braking from `peak` has used up after a scaled drop x, at rate f at the end. */
  function Used(peak: int, f: int, x: int): int {
    var y := Max(peak - f, 0) * SCALE;
    if x <= y then x * (2 * peak * SCALE - x) else y * (2 * peak * SCALE - y) + 2 * f * SCALE * (x - y)
  }

  /** An interval at rate r uses up no more than r times the interval. */
  lemma Uses(peak: nat, f: nat, x: nat, d: nat, r: nat)
    requires r == Max(peak - x / SCALE, f)
    ensures Used(peak, f, x + d) <= Used(peak, f, x) + 2 * SCALE * (d * r)
  {
    var y, z := Max(peak - f, 0) * SCALE, peak * SCALE - x;
    DivBounds(x, SCALE);
    assert z <= SCALE * r;
    if x >= y {
      UsesAtEnd(peak, f, x, d, r);
    } else if x + d <= y {
      Bends(peak * SCALE, x, d);
      ProductOrder(d, z, SCALE * r);
    } else {
      Bends(peak * SCALE, x, y - x);
      ProductOrder(y - x, z, SCALE * r);
      ProductOrder(x + d - y, f, r);
      Splits(r, y - x, x + d - y);
    }
  }

  lemma UsesAtEnd(peak: nat, f: nat, x: nat, d: nat, r: nat)
    requires x >= Max(peak - f, 0) * SCALE && r >= f
    ensures Used(peak, f, x + d) <= Used(peak, f, x) + 2 * SCALE * (d * r)
  {
    ProductOrder(d, f, r);
  }

  lemma Bends(p: int, x: int, d: int)
    ensures (x + d) * (2 * p - (x + d)) == x * (2 * p - x) + 2 * (d * (p - x)) - d * d
    ensures d * d >= 0
  {
  }

  lemma Splits(r: int, a: int, b: int)
    ensures (a + b) * r == a * r + b * r
  {
  }

  /** A drop of 16 bits uses up the reserve. */
  lemma DropUses(peak: nat, f: nat, x: nat)
    requires peak < FULL && x >= FULL * SCALE
    ensures Used(peak, f, x) >= SCALE * SCALE * Reserve(peak, f)
  {
    var y := Max(peak - f, 0) * SCALE;
    ReserveIs(peak, f);
    UsedAtEnd(peak, f, x);
    ProductOrder(f, FULL * SCALE - y, x - y);
  }

  lemma UsedAtEnd(peak: nat, f: nat, x: nat)
    requires x >= Max(peak - f, 0) * SCALE
    ensures var y := Max(peak - f, 0) * SCALE;
      Used(peak, f, x) == y * (2 * peak * SCALE - y) + 2 * SCALE * (f * (x - y))
  {
  }

  lemma ReserveIs(peak: nat, f: nat)
    ensures var y := Max(peak - f, 0) * SCALE;
      SCALE * SCALE * Reserve(peak, f) == y * (2 * peak * SCALE - y) + 2 * SCALE * (f * (FULL * SCALE - y))
  {
    var e := Max(peak - f, 0);
    if peak >= f {
      assert e * (2 * peak - e) + 2 * f * (FULL - e) == e * e + 2 * FULL * f by { ReserveUnscaled(e, f); }
    }
  }

  lemma ReserveUnscaled(e: int, f: int)
    ensures e * (2 * (e + f) - e) + 2 * f * (FULL - e) == e * e + 2 * FULL * f
  {
  }

  /** A higher peak leaves more. */
  lemma ReserveOrder(low: nat, high: nat, f: nat)
    requires low <= high
    ensures Reserve(low, f) <= Reserve(high, f)
  {
    ProductOrder(Max(low - f, 0), Max(low - f, 0), Max(high - f, 0));
    ProductOrder(Max(high - f, 0), Max(low - f, 0), Max(high - f, 0));
  }

  // Ramp up

  /** What a rate p reached by accelerating over n steps can be. */
  predicate Reached(b: Block, pace: Pace, p: nat, n: int) {
    && b.initialRate <= p <= b.nominalRate
    && (p == b.nominalRate || ((p + 1) * SCALE) * ((p + 1) * SCALE) > SCALE * Gained(b, pace, n))
  }

  /** The time to the nominal rate and `ends` intervals at it. */
  predicate OnTime(t: Tables, b: Block, pace: Pace, time: nat, ends: nat)
    requires b.nominalRate < 0x1_0000
  {
    time * b.accelerationRate
    <= (b.nominalRate - b.initialRate) * SCALE
       + b.accelerationRate * (pace.slowest + Interval(t, b.nominalRate) * ends)
  }

  /** The squared rate that a time stands for is at least that of n steps. */
  predicate Energetic(b: Block, pace: Pace, time: nat, n: int) {
    var y := b.initialRate * SCALE + time * b.accelerationRate;
    y * y >= SCALE * Gained(b, pace, n)
  }

  /** Each interval at the nominal rate has made its steps. */
  predicate Counted(b: Block, ends: nat, n: int)
    requires b.nominalRate < 0x1_0000
  {
    ends * Loops(b.nominalRate) <= n
  }

  /** The account of a ramp up: `ends` intervals so far at the nominal rate. */
  predicate Rising(t: Tables, b: Block, pace: Pace, r: Ramp, ends: nat)
    requires Stepping(b, r) && WellPlanned(b)
  {
    && r.decelerationTime == 0
    && TimeFits(b, r.accelerationTime, b.initialRate)
    && Reached(b, pace, r.accStepRate, r.stepsCompleted)
    && r.accelerationTime <= MAX_INTERVAL * (r.stepsCompleted + 1)
    && OnTime(t, b, pace, r.accelerationTime, ends)
    && Counted(b, ends, r.stepsCompleted + r.stepLoops)
    && Energetic(b, pace, r.accelerationTime, r.stepsCompleted + r.stepLoops)
  }

  /** A ramp time fits if its product does. */
  lemma Fitting(b: Block, time: nat, base: nat)
    requires time * b.accelerationRate < (FULL - base) * SCALE && base < FULL
    requires b.accelerationRate >= 0x100 || time < 0x1_0000_0000
    ensures TimeFits(b, time, base)
  {
    var p := time * b.accelerationRate;
    ScaledIsNatural(time, b.accelerationRate);
    DivBounds(p, SCALE);
    if b.accelerationRate >= 0x100 {
      ProductOrder(time, 0x100, b.accelerationRate);
    }
  }

  /** The rate commanded for a ramp time: short of nominal, the time is short too. */
  lemma RateFor(b: Block, time: U32)
    requires WellPlanned(b) && TimeFits(b, time, b.initialRate)
    ensures var u := time * b.accelerationRate;
      var rate := AccelerationRate(b, time);
      && b.initialRate <= rate <= b.nominalRate
      && rate * SCALE <= b.initialRate * SCALE + u
      && (rate < b.nominalRate ==> u < (b.nominalRate - b.initialRate) * SCALE)
      && (rate < b.nominalRate ==> (rate + 1) * SCALE > b.initialRate * SCALE + u)
  {
    AccelerationIs(b, time);
    ScaledIsNatural(time, b.accelerationRate);
    DivBounds(time * b.accelerationRate, SCALE);
    hide AccelerationRate;
  }

  /** Fewer nominal intervals than that go into the ramp up. */
  lemma EndsFit(ends: nat, loops: nat, completed: nat, until: nat)
    requires loops >= 1 && ends * loops <= completed && completed <= until + 3
    ensures ends <= (until + 3) / loops
  {
    DivBounds(until + 3, loops);
    if ends > (until + 3) / loops {
      ProductOrder(loops, (until + 3) / loops + 1, ends);
    }
  }

  /** The time of a ramp up, with one more interval, fits. */
  lemma RisingFits(t: Tables, b: Block, pace: Pace, r: Ramp, ends: nat, next: nat)
    requires Stepping(b, r) && Paced(t, b, pace) && Rising(t, b, pace, r, ends)
    requires r.stepsCompleted + r.stepLoops <= b.accelerateUntil + 3
    requires next <= MAX_INTERVAL
    requires OnTime(t, b, pace, r.accelerationTime + next, ends + 1)
    ensures TimeFits(b, r.accelerationTime + next, b.initialRate)
  {
    hide *;
    PacedIs(t, b, pace);
    PacedBudget(t, b, pace);
    var loops, i := Loops(b.nominalRate), Interval(t, b.nominalRate);
    RisingTime(t, b, pace, r, ends);
    RisingClock(t, b, pace, r, ends);
    OnTimeIs(t, b, pace, r.accelerationTime + next, ends + 1);
    EndsFit(ends, loops, r.stepsCompleted + r.stepLoops, b.accelerateUntil);
    EndsGrow(b.accelerationRate, pace.slowest, i, ends + 1, (b.accelerateUntil + 3) / loops + 1);
    FittingRise(b, r.accelerationTime + next);
  }

  lemma RisingClock(t: Tables, b: Block, pace: Pace, r: Ramp, ends: nat)
    requires Stepping(b, r) && WellPlanned(b) && Rising(t, b, pace, r, ends)
    ensures r.accelerationTime + MAX_INTERVAL <= MAX_INTERVAL * (b.steps + 1)
  {
    hide TimeFits, Interval, Loops, Reached, Gained;
  }

  lemma FittingRise(b: Block, time: nat)
    requires time * b.accelerationRate < (0x1_0000 - b.initialRate) * SCALE && b.initialRate < 0x1_0000
    requires b.accelerationRate >= 0x100 || time < 0x1_0000_0000
    ensures TimeFits(b, time, b.initialRate)
  {
    Fitting(b, time, b.initialRate);
  }

  /** Below the nominal rate the next interrupt of a ramp up leaves no more than one long interval. */
  lemma NextTimeShort(t: Tables, b: Block, pace: Pace, r: Ramp, ends: nat, rate: U16)
    requires Stepping(b, r) && Paced(t, b, pace) && Rising(t, b, pace, r, ends)
    requires rate == AccelerationRate(b, r.accelerationTime) && rate < b.nominalRate
    ensures OnTime(t, b, pace, r.accelerationTime + Interval(t, rate), 0)
  {
    hide *;
    PacedIs(t, b, pace);
    RisingTime(t, b, pace, r, ends);
    RateFor(b, r.accelerationTime);
    KeptRate(t, b, pace, rate);
    ShortOfNominal(b.accelerationRate, r.accelerationTime, Interval(t, rate), pace.slowest,
                   Interval(t, b.nominalRate), (b.nominalRate - b.initialRate) * SCALE);
    OnTimeIs(t, b, pace, r.accelerationTime + Interval(t, rate), 0);
  }

  /** At the nominal rate it adds one interval more. */
  lemma NextTimeNominal(t: Tables, b: Block, pace: Pace, r: Ramp, ends: nat)
    requires Stepping(b, r) && Paced(t, b, pace) && Rising(t, b, pace, r, ends)
    ensures OnTime(t, b, pace, r.accelerationTime + Interval(t, b.nominalRate), ends + 1)
    ensures Counted(b, ends + 1, r.stepsCompleted + r.stepLoops + Loops(b.nominalRate))
  {
    hide *;
    PacedIs(t, b, pace);
    RisingTime(t, b, pace, r, ends);
    AtNominal(b.accelerationRate, r.accelerationTime, Interval(t, b.nominalRate), pace.slowest, ends,
              (b.nominalRate - b.initialRate) * SCALE);
    Splits(Loops(b.nominalRate), ends, 1);
    OnTimeIs(t, b, pace, r.accelerationTime + Interval(t, b.nominalRate), ends + 1);
    CountedIs(b, ends + 1, r.stepsCompleted + r.stepLoops + Loops(b.nominalRate));
  }

  lemma OnTimeIs(t: Tables, b: Block, pace: Pace, time: nat, ends: nat)
    requires b.nominalRate < 0x1_0000
    ensures OnTime(t, b, pace, time, ends) <==>
            time * b.accelerationRate
            <= (b.nominalRate - b.initialRate) * SCALE
               + b.accelerationRate * (pace.slowest + Interval(t, b.nominalRate) * ends)
  {
    hide Interval;
  }

  lemma CountedIs(b: Block, ends: nat, n: int)
    requires b.nominalRate < 0x1_0000
    ensures Counted(b, ends, n) <==> ends * Loops(b.nominalRate) <= n
  {
    hide Loops;
  }

  lemma PacedIs(t: Tables, b: Block, pace: Pace)
    requires Paced(t, b, pace)
    ensures WellPlanned(b) && b.initialRate <= b.nominalRate < 0x1_0000
  {
    hide Interval, Loops, LeastPeak, Reserve, Keeps;
  }

  lemma RisingTime(t: Tables, b: Block, pace: Pace, r: Ramp, ends: nat)
    requires Stepping(b, r) && WellPlanned(b) && Rising(t, b, pace, r, ends)
    ensures TimeFits(b, r.accelerationTime, b.initialRate)
    ensures b.initialRate <= b.nominalRate < 0x1_0000
    ensures ends * Loops(b.nominalRate) <= r.stepsCompleted + r.stepLoops
    ensures r.accelerationTime * b.accelerationRate
            <= (b.nominalRate - b.initialRate) * SCALE
               + b.accelerationRate * (pace.slowest + Interval(t, b.nominalRate) * ends)
  {
    hide TimeFits, Interval, Loops, Reached, Gained;
  }

  lemma KeptRate(t: Tables, b: Block, pace: Pace, rate: U16)
    requires Paced(t, b, pace) && b.initialRate <= rate <= b.nominalRate
    ensures pace.least * Loops(rate) <= rate * Interval(t, rate) <= pace.most * Loops(rate)
    ensures Interval(t, rate) <= pace.slowest
  {
    hide Interval, Loops, LeastPeak, Reserve;
  }

  lemma ShortOfNominal(a: nat, time: nat, timer: nat, slowest: nat, i: nat, room: int)
    requires time * a < room && timer <= slowest
    ensures (time + timer) * a <= room + a * (slowest + i * 0)
  {
    Splits(a, time, timer);
    ProductOrder(a, timer, slowest);
  }

  lemma AtNominal(a: nat, time: nat, i: nat, slowest: nat, ends: nat, room: int)
    requires time * a <= room + a * (slowest + i * ends)
    ensures (time + i) * a <= room + a * (slowest + i * (ends + 1))
  {
    Splits(a, time, i);
    OneMoreEnd(a, slowest, i, ends);
  }

  /** The energy after the next interrupt of a ramp up. */
  lemma NextSquare(t: Tables, b: Block, pace: Pace, r: Ramp, ends: nat, rate: U16)
    requires Stepping(b, r) && WellPlanned(b) && Paced(t, b, pace) && Rising(t, b, pace, r, ends)
    requires rate == AccelerationRate(b, r.accelerationTime)
    ensures Energetic(b, pace, r.accelerationTime + Interval(t, rate), r.stepsCompleted + r.stepLoops + Loops(rate))
    ensures Reached(b, pace, rate, r.stepsCompleted + r.stepLoops)
  {
    hide *;
    PacedIs(t, b, pace);
    RisingTime(t, b, pace, r, ends);
    RisingSquare(t, b, pace, r, ends);
    RateFor(b, r.accelerationTime);
    KeptRate(t, b, pace, rate);
    EnergyGrows(b, pace, r.accelerationTime, Interval(t, rate), rate, r.stepsCompleted + r.stepLoops, Loops(rate));
  }

  lemma EnergyGrows(b: Block, pace: Pace, time: nat, timer: nat, rate: nat, n: nat, loops: nat)
    requires b.initialRate <= rate <= b.nominalRate && pace.least * loops <= rate * timer
    requires var y := b.initialRate * SCALE + time * b.accelerationRate;
      && y * y >= SCALE * Gained(b, pace, n)
      && rate * SCALE <= y && (rate < b.nominalRate ==> y < (rate + 1) * SCALE)
    ensures Energetic(b, pace, time + timer, n + loops) && Reached(b, pace, rate, n)
  {
    hide *;
    var a := b.accelerationRate;
    var y := b.initialRate * SCALE + time * a;
    Splits(a, time, timer);
    Gains(y, rate, timer, a, pace.least, loops);
    GainedMore(b, pace, n, loops);
    NextReached(b, pace, rate, n, y);
    EnergeticIs(b, pace, time + timer, n + loops);
  }

  lemma EnergeticIs(b: Block, pace: Pace, time: nat, n: int)
    ensures var y := b.initialRate * SCALE + time * b.accelerationRate;
      Energetic(b, pace, time, n) <==> y * y >= SCALE * Gained(b, pace, n)
  {
    hide Gained;
  }

  lemma RisingSquare(t: Tables, b: Block, pace: Pace, r: Ramp, ends: nat)
    requires Stepping(b, r) && WellPlanned(b) && Rising(t, b, pace, r, ends)
    ensures var y := b.initialRate * SCALE + r.accelerationTime * b.accelerationRate;
      y * y >= SCALE * Gained(b, pace, r.stepsCompleted + r.stepLoops)
  {
    hide TimeFits, Interval, Loops, Reached, Gained;
  }

  lemma NextReached(b: Block, pace: Pace, rate: nat, n: int, y: int)
    requires b.initialRate <= rate <= b.nominalRate && y * y >= SCALE * Gained(b, pace, n)
    requires 0 <= rate * SCALE <= y && (rate < b.nominalRate ==> y < (rate + 1) * SCALE)
    ensures Reached(b, pace, rate, n)
  {
    if rate < b.nominalRate {
      SquareGrows(y, (rate + 1) * SCALE);
    }
    hide Gained;
  }

  lemma SquareGrows(y: int, z: int)
    requires 0 <= y < z
    ensures y * y < z * z
  {
    ProductOrder(y, y, z);
    ProductOrder(z, y, z - 1);
  }

  lemma OneMoreEnd(a: int, s: int, i: int, n: int)
    ensures a * (s + i * (n + 1)) == a * (s + i * n) + a * i
  {
    assert i * (n + 1) == i * n + i;
    Splits(a, s + i * n, i);
  }

  lemma GainedMore(b: Block, pace: Pace, n: int, m: int)
    ensures SCALE * Gained(b, pace, n + m)
            == SCALE * Gained(b, pace, n) + 2 * SCALE * ((b.accelerationRate * pace.least) * m)
  {
    Splits(b.accelerationRate * pace.least, n, m);
  }

  /** The account after the next interrupt of a ramp up, which commands `rate`. */
  lemma NextAccount(t: Tables, b: Block, pace: Pace, r: Ramp, ends: nat, rate: U16) returns (ends': nat)
    requires Stepping(b, r) && Paced(t, b, pace) && Rising(t, b, pace, r, ends)
    requires r.stepsCompleted + r.stepLoops <= b.accelerateUntil + 3
    requires rate == AccelerationRate(b, r.accelerationTime) && Interval(t, rate) <= MAX_INTERVAL
    ensures TimeFits(b, r.accelerationTime + Interval(t, rate), b.initialRate)
    ensures b.nominalRate < 0x1_0000
    ensures OnTime(t, b, pace, r.accelerationTime + Interval(t, rate), ends')
    ensures Counted(b, ends', r.stepsCompleted + r.stepLoops + Loops(rate))
  {
    hide *;
    PacedIs(t, b, pace);
    RisingTime(t, b, pace, r, ends);
    RateFor(b, r.accelerationTime);
    if rate < b.nominalRate {
      ends' := 0;
      NextTimeShort(t, b, pace, r, ends, rate);
      OnTimeLater(t, b, pace, r.accelerationTime + Interval(t, rate), 0, ends + 1);
      CountedIs(b, 0, r.stepsCompleted + r.stepLoops + Loops(rate));
    } else {
      ends' := ends + 1;
      NextTimeNominal(t, b, pace, r, ends);
    }
    RisingFits(t, b, pace, r, ends, Interval(t, rate));
  }

  lemma OnTimeLater(t: Tables, b: Block, pace: Pace, time: nat, m: nat, n: nat)
    requires b.nominalRate < 0x1_0000 && m <= n && OnTime(t, b, pace, time, m)
    ensures OnTime(t, b, pace, time, n)
  {
    EndsGrow(b.accelerationRate, pace.slowest, Interval(t, b.nominalRate), m, n);
    hide Interval;
  }

  lemma EndsGrow(a: nat, s: nat, i: nat, m: nat, n: nat)
    requires m <= n
    ensures a * (s + i * m) <= a * (s + i * n)
  {
    ProductOrder(i, m, n);
    ProductOrder(a, s + i * m, s + i * n);
  }

  /** One interrupt of a ramp up. */
  lemma RisingStep(t: Tables, b: Block, pace: Pace, r: Ramp, ends: nat) returns (ends': nat)
    requires Stepping(b, r) && Paced(t, b, pace) && Rising(t, b, pace, r, ends) && Ahead(b, r) == Accelerating
    ensures var k := NextTick(t, b, r);
      && TimeFits(b, r.accelerationTime + k.timer, b.initialRate)
      && (k.ramp.stepsCompleted < b.steps ==> Rising(t, b, pace, k.ramp, ends'))
  {
    var k := NextTick(t, b, r);
    ends' := NextAccount(t, b, pace, r, ends, k.rate);
    NextSquare(t, b, pace, r, ends, k.rate);
    Fits32(b, r.accelerationTime + k.timer, b.initialRate);
    hide AccelerationRate, Paced, TimeFits, Reached, OnTime, Energetic, Counted, Interval, Loops;
  }

  /** A fetched block starts its ramp up in order. */
  lemma StartsRising(t: Tables, b: Block, pace: Pace, old': Ramp)
    requires Paced(t, b, pace) && b.steps > 0 && Stepping(b, Started(t, b, old'))
    ensures Rising(t, b, pace, Started(t, b, old'), 0)
  {
    PacedIs(t, b, pace);
    Exact16(b.initialRate);
    StartFits(t, b, pace);
    StartProducts(t, b, pace);
    hide Wrap16, Interval, Loops, Paced, TimeFits, Reached, OnTime, Energetic;
  }

  lemma StartProducts(t: Tables, b: Block, pace: Pace)
    requires Paced(t, b, pace) && b.initialRate <= b.nominalRate < 0x1_0000
    ensures OnTime(t, b, pace, Interval(t, b.initialRate), 0)
    ensures Energetic(b, pace, Interval(t, b.initialRate), Loops(b.initialRate))
    ensures Reached(b, pace, b.initialRate, 0)
  {
    var i, a, timer, loops := b.initialRate, b.accelerationRate, Interval(t, b.initialRate), Loops(b.initialRate);
    hide *;
    KeptRate(t, b, pace, i);
    StartOnTime(t, b, pace, timer);
    Gains(i * SCALE, i, timer, a, pace.least, loops);
    GainedFrom(b, pace, loops);
    EnergeticIs(b, pace, timer, loops);
    StartReached(b, pace);
  }

  lemma StartOnTime(t: Tables, b: Block, pace: Pace, timer: nat)
    requires timer <= pace.slowest && b.initialRate <= b.nominalRate < 0x1_0000
    ensures OnTime(t, b, pace, timer, 0)
  {
    ProductOrder(b.accelerationRate, timer, pace.slowest);
    hide Interval;
  }

  lemma GainedFrom(b: Block, pace: Pace, loops: nat)
    ensures SCALE * Gained(b, pace, loops)
            == (b.initialRate * SCALE) * (b.initialRate * SCALE)
               + 2 * SCALE * ((b.accelerationRate * pace.least) * loops)
  {
    GainedMore(b, pace, 0, loops);
    Squared(b.initialRate);
  }

  lemma Squared(i: int)
    ensures (i * SCALE) * (i * SCALE) == SCALE * (i * i * SCALE)
  {
  }

  lemma StartReached(b: Block, pace: Pace)
    requires b.initialRate <= b.nominalRate
    ensures Reached(b, pace, b.initialRate, 0)
  {
    SquareGrows(b.initialRate * SCALE, (b.initialRate + 1) * SCALE);
    GainedFrom(b, pace, 0);
    hide Gained;
  }

  /** The first condition of Paced by itself. */
  lemma PacedBudget(t: Tables, b: Block, pace: Pace)
    requires Paced(t, b, pace) && b.initialRate <= b.nominalRate < 0x1_0000
    ensures b.accelerationRate
            * (pace.slowest + Interval(t, b.nominalRate) * ((b.accelerateUntil + 3) / Loops(b.nominalRate) + 1))
            < (0x1_0000 - b.nominalRate) * SCALE
    ensures b.accelerationRate >= 0x100 || MAX_INTERVAL * (b.steps + 1) < 0x1_0000_0000
  {
    hide Interval, Loops, Keeps, LeastPeak, Reserve;
  }

  lemma StartFits(t: Tables, b: Block, pace: Pace)
    requires Paced(t, b, pace)
    ensures TimeFits(b, Interval(t, b.initialRate), b.initialRate)
  {
    hide *;
    PacedIs(t, b, pace);
    PacedBudget(t, b, pace);
    KeptRate(t, b, pace, b.initialRate);
    var i := Interval(t, b.nominalRate);
    DivShrinks(b.accelerateUntil + 3, Loops(b.nominalRate));
    EndsGrow(b.accelerationRate, pace.slowest, i, 0, (b.accelerateUntil + 3) / Loops(b.nominalRate) + 1);
    ProductOrder(b.accelerationRate, Interval(t, b.initialRate), pace.slowest);
    StartTime(b, Interval(t, b.initialRate));
  }

  lemma StartTime(b: Block, time: U16)
    requires time * b.accelerationRate < (0x1_0000 - b.nominalRate) * SCALE
    requires b.initialRate <= b.nominalRate < 0x1_0000
    ensures TimeFits(b, time, b.initialRate)
  {
    Fitting(b, time, b.initialRate);
  }

  // Ramp down

  /** The account of the rest of a block after its ramp up. */
  predicate Falling(b: Block, pace: Pace, r: Ramp)
    requires Stepping(b, r) && WellPlanned(b)
  {
    && b.initialRate <= r.accStepRate <= b.nominalRate
    && LeastPeak(b, pace) <= r.accStepRate
    && Ahead(b, r) != Accelerating
    && TimeFits(b, r.decelerationTime, 0)
    && r.decelerationTime <= MAX_INTERVAL * (r.stepsCompleted + 1)
    && (Ahead(b, r) == Cruising ==> r.decelerationTime == 0)
    && (Ahead(b, r) == Decelerating ==>
          Used(r.accStepRate, b.finalRate, r.decelerationTime * b.accelerationRate)
          <= 2 * SCALE * ((b.accelerationRate * pace.most)
                          * (r.stepsCompleted + r.stepLoops - b.decelerateAfter - 1)))
  }

  lemma PeakIsReached(b: Block, pace: Pace, p: nat, n: nat)
    requires Reached(b, pace, p, n) && n >= b.accelerateUntil - 3
    ensures LeastPeak(b, pace) <= p
  {
    var m := Max(0, b.accelerateUntil - 3);
    var g := Gained(b, pace, m);
    if p < b.nominalRate {
      GainedOrder(b, pace, m, n);
      PeakBound(p + 1, g);
    }
    hide Gained;
  }

  lemma GainedOrder(b: Block, pace: Pace, m: nat, n: nat)
    requires m <= n
    ensures 0 <= Gained(b, pace, m) <= Gained(b, pace, n)
  {
    ProductOrder(b.accelerationRate, 0, pace.least);
    ProductOrder(b.accelerationRate * pace.least, 0, m);
    ProductOrder(b.accelerationRate * pace.least, m, n);
    ProductOrder(b.initialRate, 0, b.initialRate);
  }

  lemma PeakBound(p: nat, g: nat)
    requires (p * SCALE) * (p * SCALE) > SCALE * g
    ensures FloorSqrt(g / SCALE) < p
  {
    var q := g / SCALE;
    var s := FloorSqrt(q);
    DivBounds(g, SCALE);
    assert (p * SCALE) * (p * SCALE) == SCALE * (SCALE * (p * p)) by {
      Associates(p, SCALE, p * SCALE);
      Associates(p, p, SCALE);
    }
    if s >= p {
      ProductOrder(p, p, s);
      ProductOrder(s, p, s);
    }
  }

  /** The end of a ramp up. */
  lemma RisingEnds(t: Tables, b: Block, pace: Pace, r: Ramp, ends: nat)
    requires Stepping(b, r) && Paced(t, b, pace) && Rising(t, b, pace, r, ends) && Ahead(b, r) != Accelerating
    ensures Falling(b, pace, r)
  {
    hide Interval, Loops, Keeps, Reserve, Gained, Reached, LeastPeak;
    PeakIsReached(b, pace, r.accStepRate, r.stepsCompleted);
    NothingUsed(r.accStepRate, b.finalRate);
    assert b.initialRate <= r.accStepRate <= b.nominalRate by { ReachedIs(b, pace, r.accStepRate, r.stepsCompleted); }
    NoDrop(b);
    hide Used, TimeFits;
    ProductOrder(b.accelerationRate, 0, pace.most);
    if Ahead(b, r) == Decelerating {
      ProductOrder(b.accelerationRate * pace.most, 0, r.stepsCompleted + r.stepLoops - b.decelerateAfter - 1);
    }
  }

  lemma ReachedIs(b: Block, pace: Pace, p: nat, n: int)
    requires Reached(b, pace, p, n)
    ensures b.initialRate <= p <= b.nominalRate
  {
  }

  lemma NothingUsed(peak: nat, f: nat)
    ensures Used(peak, f, 0) == 0
  {
  }

  lemma NoDrop(b: Block)
    ensures TimeFits(b, 0, 0)
  {
  }

  /** The rate commanded for a time of a ramp down. */
  lemma DropFor(b: Block, peak: U16, time: U32)
    requires WellPlanned(b) && TimeFits(b, time, 0) && peak <= b.nominalRate
    ensures DecelerationRate(b, peak, time) == Max(peak - (time * b.accelerationRate) / SCALE, b.finalRate)
    ensures time * b.accelerationRate >= 0
  {
    ScaledIsNatural(time, b.accelerationRate);
    Exact16((time * b.accelerationRate) / SCALE);
    Exact16(b.finalRate);
    hide Wrap16;
  }

  lemma FallingIs(b: Block, pace: Pace, r: Ramp)
    requires Stepping(b, r) && WellPlanned(b) && Falling(b, pace, r) && Ahead(b, r) == Decelerating
    ensures TimeFits(b, r.decelerationTime, 0) && LeastPeak(b, pace) <= r.accStepRate <= b.nominalRate
    ensures r.decelerationTime <= MAX_INTERVAL * (r.stepsCompleted + 1)
    ensures r.stepsCompleted + r.stepLoops <= b.steps + 3 && r.stepsCompleted < b.steps
    ensures Used(r.accStepRate, b.finalRate, r.decelerationTime * b.accelerationRate)
            <= 2 * SCALE * ((b.accelerationRate * pace.most)
                            * (r.stepsCompleted + r.stepLoops - b.decelerateAfter - 1))
  {
    hide TimeFits, Used, LeastPeak;
  }

  lemma KeptDrop(t: Tables, b: Block, pace: Pace, rate: U16)
    requires Paced(t, b, pace) && b.finalRate <= rate <= b.nominalRate
    ensures rate * Interval(t, rate) <= pace.most * Loops(rate)
  {
    hide Interval, Loops, LeastPeak, Reserve;
  }

  /** What the next interrupt of a ramp down uses up. */
  lemma NextUse(t: Tables, b: Block, pace: Pace, r: Ramp, rate: U16)
    requires Stepping(b, r) && WellPlanned(b) && Paced(t, b, pace) && Falling(b, pace, r)
    requires Ahead(b, r) == Decelerating && rate == DecelerationRate(b, r.accStepRate, r.decelerationTime)
    ensures (r.decelerationTime + Interval(t, rate)) * b.accelerationRate >= 0
    ensures Used(r.accStepRate, b.finalRate, (r.decelerationTime + Interval(t, rate)) * b.accelerationRate)
            <= 2 * SCALE * ((b.accelerationRate * pace.most)
                            * (r.stepsCompleted + r.stepLoops + Loops(rate) - b.decelerateAfter - 1))
  {
    FallRange(b, pace, r);
    hide *;
    FallingIs(b, pace, r);
    DropFor(b, r.accStepRate, r.decelerationTime);
    KeptDrop(t, b, pace, rate);
    UseMore(b.accelerationRate, r.accStepRate, b.finalRate, r.decelerationTime, Interval(t, rate), rate,
            pace.most, Loops(rate), r.stepsCompleted + r.stepLoops - b.decelerateAfter - 1);
  }

  lemma FallRange(b: Block, pace: Pace, r: Ramp)
    requires Stepping(b, r) && WellPlanned(b) && Falling(b, pace, r)
    ensures b.finalRate <= DecelerationRate(b, r.accStepRate, r.decelerationTime) <= b.nominalRate
  {
    DecelerationFalls(b, r.accStepRate, r.decelerationTime, r.decelerationTime);
    hide TimeFits, Used, LeastPeak, DecelerationRate;
  }

  lemma UseMore(a: nat, peak: nat, f: nat, time: nat, timer: nat, rate: nat, most: nat, loops: nat, n: int)
    requires 0 <= time * a && rate == Max(peak - (time * a) / SCALE, f) && rate * timer <= most * loops
    requires Used(peak, f, time * a) <= 2 * SCALE * ((a * most) * n)
    ensures (time + timer) * a >= 0
    ensures Used(peak, f, (time + timer) * a) <= 2 * SCALE * ((a * most) * (n + loops))
  {
    hide *;
    Splits(a, time, timer);
    Spent(a, timer, rate, most, loops);
    Splits(a * most, n, loops);
    UseStep(peak, f, time * a, a * timer, rate, (a * most) * n, (a * most) * loops);
  }

  lemma Spent(a: nat, timer: nat, rate: nat, most: nat, loops: nat)
    requires rate * timer <= most * loops
    ensures 0 <= a * timer && (a * timer) * rate <= (a * most) * loops
  {
    ProductOrder(a, 0, timer);
    Associates(a, timer, rate);
    ProductOrder(a, rate * timer, most * loops);
    Associates(a, most, loops);
  }

  lemma UseStep(peak: nat, f: nat, x: nat, d: nat, rate: nat, v: int, w: int)
    requires rate == Max(peak - x / SCALE, f) && d * rate <= w && Used(peak, f, x) <= 2 * SCALE * v
    ensures Used(peak, f, x + d) <= 2 * SCALE * (v + w)
  {
    Uses(peak, f, x, d, rate);
    hide Used;
  }

  /** The second condition of Paced by itself, for the peak that was reached. */
  lemma PacedReserve(t: Tables, b: Block, pace: Pace, peak: nat)
    requires Paced(t, b, pace) && LeastPeak(b, pace) <= peak
    ensures 2 * ((b.accelerationRate * pace.most) * (b.steps - b.decelerateAfter + 6))
            < SCALE * Reserve(peak, b.finalRate)
    ensures b.accelerationRate >= 0x100 || MAX_INTERVAL * (b.steps + 1) < 0x1_0000_0000
  {
    ReserveOrder(LeastPeak(b, pace), peak, b.finalRate);
    Associates(2, b.accelerationRate * pace.most, b.steps - b.decelerateAfter + 6);
    hide Interval, Loops, Keeps, LeastPeak, Reserve;
  }

  /** The time of a ramp down, with one more interval, fits. */
  lemma FallingFits(t: Tables, b: Block, pace: Pace, r: Ramp, rate: U16)
    requires Stepping(b, r) && WellPlanned(b) && Paced(t, b, pace) && Falling(b, pace, r)
    requires Ahead(b, r) == Decelerating && rate == DecelerationRate(b, r.accStepRate, r.decelerationTime)
    requires Interval(t, rate) <= MAX_INTERVAL && Loops(rate) <= 4
    ensures TimeFits(b, r.decelerationTime + Interval(t, rate), 0)
  {
    assert MAX_INTERVAL == 62500;
    hide *;
    FallingIs(b, pace, r);
    NextUse(t, b, pace, r, rate);
    var n := r.stepsCompleted + r.stepLoops + Loops(rate) - b.decelerateAfter - 1;
    var x := (r.decelerationTime + Interval(t, rate)) * b.accelerationRate;
    PacedReserve(t, b, pace, r.accStepRate);
    ProductOrder(b.accelerationRate, 0, pace.most);
    ProductOrder(b.accelerationRate * pace.most, n, b.steps - b.decelerateAfter + 6);
    ScaleUp(Used(r.accStepRate, b.finalRate, x), (b.accelerationRate * pace.most) * n,
            (b.accelerationRate * pace.most) * (b.steps - b.decelerateAfter + 6), Reserve(r.accStepRate, b.finalRate));
    DropFits(r.accStepRate, b.finalRate, x);
    FittingDrop(b, r.decelerationTime + Interval(t, rate));
  }

  lemma ScaleUp(u: int, v: int, w: int, reserve: int)
    requires u <= 2 * SCALE * v && v <= w && 2 * w < SCALE * reserve
    ensures u < SCALE * (SCALE * reserve)
  {
  }

  lemma DropFits(peak: U16, f: nat, x: nat)
    requires Used(peak, f, x) < SCALE * (SCALE * Reserve(peak, f))
    ensures x < 0x1_0000 * SCALE
  {
    if x >= 0x1_0000 * SCALE {
      DropUses(peak, f, x);
    }
    Associates(SCALE, SCALE, Reserve(peak, f));
    hide Used, Reserve;
  }

  lemma FittingDrop(b: Block, time: nat)
    requires time * b.accelerationRate < 0x1_0000 * SCALE
    requires b.accelerationRate >= 0x100 || time < 0x1_0000_0000
    ensures TimeFits(b, time, 0)
  {
    Fitting(b, time, 0);
  }

  /** One interrupt of a ramp down. */
  lemma FallingStep(t: Tables, b: Block, pace: Pace, r: Ramp)
    requires Stepping(b, r) && Paced(t, b, pace) && Falling(b, pace, r) && Ahead(b, r) == Decelerating
    ensures var k := NextTick(t, b, r);
      && TimeFits(b, r.decelerationTime + k.timer, 0)
      && (k.ramp.stepsCompleted < b.steps ==> Falling(b, pace, k.ramp))
  {
    var k := NextTick(t, b, r);
    NextUse(t, b, pace, r, k.rate);
    FallingFits(t, b, pace, r, k.rate);
    Fits32(b, r.decelerationTime + k.timer, 0);
    hide DecelerationRate, LeastPeak, Used, Paced, TimeFits, Interval, Loops;
  }

  /** One interrupt of the cruise. */
  lemma CruisingStep(t: Tables, b: Block, pace: Pace, r: Ramp)
    requires Stepping(b, r) && Paced(t, b, pace) && Falling(b, pace, r) && Ahead(b, r) == Cruising
    ensures var k := NextTick(t, b, r);
      k.ramp.stepsCompleted < b.steps ==> Falling(b, pace, k.ramp)
  {
    var k := NextTick(t, b, r);
    if k.ramp.stepsCompleted < b.steps {
      NothingUsed(r.accStepRate, b.finalRate);
      ProductOrder(b.accelerationRate, 0, pace.most);
      ProductOrder(b.accelerationRate * pace.most, 0,
                   Max(0, k.ramp.stepsCompleted + k.ramp.stepLoops - b.decelerateAfter - 1));
      hide LeastPeak, Used, Paced, TimeFits, Interval, Loops;
    }
  }

  lemma {:induction false} FallingFitsAll(t: Tables, b: Block, pace: Pace, r: Ramp)
    requires Stepping(b, r) && Paced(t, b, pace) && Falling(b, pace, r)
    ensures TimesFit(t, b, r)
    decreases b.steps - r.stepsCompleted
  {
    if Ahead(b, r) == Decelerating {
      FallingStep(t, b, pace, r);
    } else {
      CruisingStep(t, b, pace, r);
    }
    var k := NextTick(t, b, r);
    hide NextTick, Paced, TimeFits, Used, LeastPeak;
    if k.ramp.stepsCompleted < b.steps {
      FallingFitsAll(t, b, pace, k.ramp);
    }
  }

  lemma {:induction false} RisingFitsAll(t: Tables, b: Block, pace: Pace, r: Ramp, ends: nat)
    requires Stepping(b, r) && Paced(t, b, pace) && Rising(t, b, pace, r, ends)
    ensures TimesFit(t, b, r)
    decreases b.steps - r.stepsCompleted
  {
    var k := NextTick(t, b, r);
    hide NextTick, Paced, Rising, Falling, TimeFits;
    if Ahead(b, r) == Accelerating {
      var ends' := RisingStep(t, b, pace, r, ends);
      hide Ahead;
      if k.ramp.stepsCompleted < b.steps {
        RisingFitsAll(t, b, pace, k.ramp, ends');
      }
    } else {
      RisingEnds(t, b, pace, r, ends);
      FallingFitsAll(t, b, pace, r);
    }
  }

  /** The ramp times of a paced block fit. */
  lemma PacedFits(t: Tables, b: Block, pace: Pace, old': Ramp)
    requires Paced(t, b, pace) && b.steps > 0 && old'.timerNominal <= MAX_INTERVAL
    ensures Stepping(b, Started(t, b, old')) && TimesFit(t, b, Started(t, b, old'))
  {
    assert Stepping(b, Started(t, b, old'));
    hide Paced, Started, TimesFit;
    StartsRising(t, b, pace, old');
    RisingFitsAll(t, b, pace, Started(t, b, old'), 0);
  }

  /** A paced block follows its profile from beginning to end. */
  lemma PacedFollowsProfile(t: Tables, b: Block, pace: Pace, old': Ramp)
    requires Paced(t, b, pace) && b.steps > 0 && old'.timerNominal <= MAX_INTERVAL
    ensures Stepping(b, Started(t, b, old'))
    ensures FollowsProfile(Commands(t, b, Started(t, b, old')), Min(b.initialRate, b.finalRate), b.nominalRate)
  {
    PacedIs(t, b, pace);
    PacedFits(t, b, pace, old');
    hide Paced, Started, FollowsProfile, Commands, TimesFit, OnProfile;
    StartedOnProfile(t, b, old');
    RatesFollowProfile(t, b, Started(t, b, old'));
  }

  // With the tables of the clock

  /** The pace of the tables of a 2 MHz timer, for a block that starts at this rate. */
  function ClockPace(initial: nat): Pace
    requires initial > 0
  {
    Pace(1_990_000, 2_012_000, Max(2_012_000 / initial, 402))
  }

  /** No interval is longer than that of the initial rate allows. */
  lemma Slowest(initial: nat, rate: nat, loops: nat, interval: nat)
    requires 120 <= initial <= rate && rate * interval <= 2_012_000 * loops
    requires loops == 1 || (rate > 10000 && loops == 2) || (rate > 20000 && loops == 4)
    ensures interval <= Max(2_012_000 / initial, 402)
  {
    if loops == 1 {
      ProductOrder(interval, initial, rate);
      DivBounds(2_012_000, initial);
      if interval > 2_012_000 / initial {
        ProductOrder(initial, 2_012_000 / initial + 1, interval);
      }
    } else {
      ProductOrder(interval, if loops == 2 then 10001 else 20001, rate);
    }
  }

  lemma LoopsGroup(rate: U16)
    ensures var loops := Loops(rate);
      loops == 1 || (rate > 10000 && loops == 2) || (rate > 20000 && loops == 4)
  {
  }

  /** Every block whose rates are limited by the planner keeps to it. */
  lemma ClockKeepsPace(t: Tables, b: Block)
    requires ClockTables.OfClock(t)
    requires 120 <= b.initialRate && 120 <= b.finalRate && b.nominalRate <= MAX_STEP_FREQUENCY
    ensures Keeps(t, b, ClockPace(b.initialRate))
  {
    hide Interval, Loops, ClockTables.OfClock;
    forall r: U16 | Min(b.initialRate, b.finalRate) <= r <= b.nominalRate
      ensures 1_990_000 * Loops(r) <= r * Interval(t, r) <= 2_012_000 * Loops(r)
    {
      ClockTables.RateTimesInterval(t, r);
    }
    forall r: U16 | b.initialRate <= r <= b.nominalRate
      ensures Interval(t, r) <= ClockPace(b.initialRate).slowest
    {
      ClockTables.RateTimesInterval(t, r);
      LoopsGroup(r);
      Slowest(b.initialRate, r, Loops(r), Interval(t, r));
    }
  }

  // A move that does, and one that does not

  /** A long pulley move from rest at the default feed rate, acceleration and jerk. */
  function Pulley(n: U32): Block
    requires n >= 942
  {
    Block(n, true, 559868, 471, n - 471, 7938, 334, 120, 66850)
  }

  /** With the tables of the clock, every such move is paced. */
  lemma PulleyIsPaced(t: Tables, n: U32)
    requires n >= 942 && ClockTables.OfClock(t)
    ensures Paced(t, Pulley(n), ClockPace(334))
  {
    ClockKeepsPace(t, Pulley(n));
    ClockTables.RateTimesInterval(t, 7938);
    assert Loops(7938) == 1;
    hide Fits, Keeps, Interval, Loops, ClockTables.OfClock;
    PulleyFits(t, n);
  }

  lemma PulleyFits(t: Tables, n: U32)
    requires n >= 942 && Interval(t, 7938) <= 254
    ensures Fits(t, Pulley(n), ClockPace(334))
  {
    assert Loops(7938) == 1;
    var (b, pace) := (Pulley(n), ClockPace(334));
    assert b == Block(n, true, 559868, 471, n - 471, 7938, 334, 120, 66850);
    assert pace == Pace(1_990_000, 2_012_000, 6023);
    hide LeastPeak, Reserve, Interval, Loops, Pulley, ClockPace, Fits;
    PulleyTime(Interval(t, 7938));
    PulleyReserve(n);
    PulleyRoom(Reserve(LeastPeak(b, pace), 120));
    FitsIs(t, b, pace, Interval(t, 7938), Reserve(LeastPeak(b, pace), 120));
  }

  lemma FitsIs(t: Tables, b: Block, pace: Pace, interval: nat, reserve: int)
    requires b.accelerationRate == 559868 && b.accelerateUntil == 471 && b.nominalRate == 7938 && b.finalRate == 120
    requires b.steps - b.decelerateAfter == 471 && Loops(7938) == 1 && interval == Interval(t, 7938)
    requires pace == Pace(1_990_000, 2_012_000, 6023) && reserve == Reserve(LeastPeak(b, pace), 120)
    requires 559868 * (6023 + interval * 475) < (FULL - 7938) * SCALE
    requires 2 * (559868 * 2_012_000) * 477 < SCALE * reserve
    ensures Fits(t, b, pace)
  {
    hide LeastPeak, Reserve, Interval, Loops;
  }

  lemma PulleyTime(interval: nat)
    requires interval <= 254
    ensures 559868 * (6023 + interval * 475) < (FULL - 7938) * SCALE
  {
  }

  lemma PulleyRoom(reserve: int)
    requires reserve >= 74711040
    ensures 2 * (559868 * 2_012_000) * 477 < SCALE * reserve
  {
    ProductOrder(SCALE, 74711040, reserve);
  }

  lemma PulleyReserve(n: U32)
    requires n >= 942
    ensures Reserve(LeastPeak(Pulley(n), ClockPace(334)), 120) >= 74711040
  {
    PulleyPeak(n);
    hide LeastPeak, Pulley, ClockPace;
    ReserveOrder(7800, LeastPeak(Pulley(n), ClockPace(334)), 120);
    assert Reserve(7800, 120) == 74711040;
  }

  lemma PulleyPeak(n: U32)
    requires n >= 942
    ensures LeastPeak(Pulley(n), ClockPace(334)) >= 7800
  {
    var q := Gained(Pulley(n), ClockPace(334), 468) / SCALE;
    assert q >= 60840000;
    hide Gained, FloorSqrt;
    RootAtLeast(q, 7800);
  }

  lemma RootAtLeast(q: nat, m: nat)
    requires m * m <= q
    ensures FloorSqrt(q) >= m
  {
    SquareOrder(FloorSqrt(q) + 1, Max(m, FloorSqrt(q) + 1));
  }

  /** From rest to 10 kHz at 7.8 million steps per second squared. */
  const STEEP := Block(2000, true, 65325000, 7, 1994, 10000, 120, 120, 7800000)

  /**
  With the tables of the clock the second interrupt of this move asks for more than 16 bits: it
  commands 254 steps per second after 10000, while still accelerating.
  */
  lemma SteepRampFalls(t: Tables, old': Ramp)
    requires old'.timerNominal <= MAX_INTERVAL
    requires ClockTables.OfClock(t)
    ensures var r := Started(t, STEEP, old');
      && Stepping(STEEP, r)
      && Commands(t, STEEP, r)[0] == Command(Accelerating, 1, 10000, 200)
      && |Commands(t, STEEP, r)| > 1
      && Commands(t, STEEP, r)[1].phase == Accelerating && Commands(t, STEEP, r)[1].rate == 254
      && !FollowsProfile(Commands(t, STEEP, r), 120, 10000)
  {
    SteepEntries(t);
    SteepRates(t);
    SteepTicks(t, old');
    hide ClockTables.OfClock, Interval, Loops, AccelerationRate, NextTick;
    var r := Started(t, STEEP, old');
    var k := NextTick(t, STEEP, r);
    assert Commands(t, STEEP, r)[1..] == Commands(t, STEEP, k.ramp);
  }

  lemma SteepEntries(t: Tables)
    requires ClockTables.OfClock(t)
    ensures t.slow[11] == Entry(16666, 1041) && t.fast[38] == Entry(204, 5)
  {
    assert t.slow[11].base == 16666 && t.slow[12].base == 15625;
    assert t.fast[38].base == 204 && t.fast[39].base == 199;
  }

  lemma SteepRates(t: Tables)
    requires t.slow[11] == Entry(16666, 1041) && t.fast[38] == Entry(204, 5)
    ensures Interval(t, 120) == 16666 && Interval(t, 10000) == 200
    ensures AccelerationRate(STEEP, 16666) == 10000 && AccelerationRate(STEEP, 16866) == 254
    ensures Loops(120) == Loops(10000) == 1
  {
    assert TableRate(120) == 88 && TableRate(10000) == 9968;
  }

  lemma SteepTicks(t: Tables, old': Ramp)
    requires old'.timerNominal <= MAX_INTERVAL
    requires t.slow[11] == Entry(16666, 1041) && t.fast[38] == Entry(204, 5)
    ensures var r := Started(t, STEEP, old');
      && Stepping(STEEP, r)
      && Ahead(STEEP, r) == Accelerating
      && var k := NextTick(t, STEEP, r);
      && k.rate == 10000 && k.timer == 200 && k.ramp.stepsCompleted == 1
      && Stepping(STEEP, k.ramp) && Ahead(STEEP, k.ramp) == Accelerating
      && NextTick(t, STEEP, k.ramp).rate == 254
  {
    SteepRates(t);
    hide Interval, AccelerationRate, Loops;
  }
}
