/** From a step rate to a timer interval and the number of steps per interrupt. */
module SpeedTable {
  import opened Machine
  import opened Arithmetic

  const MIN_RATE: U16 := 32
  const MIN_INTERVAL: U16 := 100
  const MAX_INTERVAL: U16 := 62500

  /** An interval and its distance to the next interval of the table. */
  datatype Entry = Entry(base: U16, gain: U16)

  /** Each entry leads exactly to the next one, so a table interpolates a falling function. */
  predicate Chained(table: seq<Entry>) {
    && |table| == 256
    && (forall i | 0 <= i < 256 :: table[i].gain <= table[i].base <= MAX_INTERVAL)
    && (forall i | 0 <= i < 255 :: table[i].base - table[i].gain == table[i + 1].base)
  }

  /** The two tables; only the first slow entry is too steep for 16-bit interpolation. */
  datatype TablePair = TablePair(fast: seq<Entry>, slow: seq<Entry>) {
    predicate Valid() {
      && Chained(fast) && Chained(slow)
      && slow[255].base - slow[255].gain >= fast[8].base
      && (forall i | 1 <= i < 256 :: slow[i].gain * 7 < 0x1_0000)
    }
  }

  const FLAT := seq(256, _ => Entry(100, 0))

  type Tables = t: TablePair | t.Valid() witness TablePair(FLAT, FLAT)

  /** The C form of mulU8X16toH16. */
  function MulU8X16toH16(x: Byte, y: U16): U16 {
    Wrap16((x * y) / 0x100)
  }

  /** Steps per interrupt for a rate. */
  function Loops(rate: U16): (loops: Byte)
    ensures loops == 1 || loops == 2 || loops == 4
  {
    if rate > 20000 then 4 else if rate > 10000 then 2 else 1
  }

  /** The fewest steps per interrupt that keep the interrupts at 10 kHz or below. */
  lemma LoopsAreFewest(rate: U16)
    requires rate <= MAX_STEP_FREQUENCY
    ensures rate <= 10000 * Loops(rate)
    ensures Loops(rate) > 1 ==> rate > 10000 * (Loops(rate) / 2)
  {
  }

  /** The rate of interrupts above the minimum: the position in the tables. */
  function TableRate(rate: U16): (r: U16)
    ensures r <= 10000 - MIN_RATE
    ensures rate <= 32 ==> r == 0
    ensures 32 <= rate <= 10000 ==> r == rate - 32
  {
    var limited := Min(rate, MAX_STEP_FREQUENCY);
    Max(limited / Loops(rate), MIN_RATE) - MIN_RATE
  }

  /** The interval interpolated from the tables, before its lower limit. */
  function Interpolated(t: Tables, r: U16): (timer: nat)
    requires r <= 10000 - MIN_RATE
    ensures timer <= MAX_INTERVAL
  {
    if r >= 8 * 0x100 then
      var e := t.fast[r / 0x100];
      FastSlope(r % 0x100, e.gain);
      e.base - MulU8X16toH16(r % 0x100, e.gain)
    else
      var e := t.slow[r / 8];
      SlowSlope(e.gain, r % 8);
      e.base - Wrap16(e.gain * (r % 8)) / 8
  }

  lemma FastSlope(x: Byte, g: U16)
    ensures MulU8X16toH16(x, g) == (x * g) / 0x100 <= g
  {
    ProductOrder(g, x, 0xff);
    DivShrinks(x * g, 0x100);
  }

  lemma SlowSlope(g: U16, x: nat)
    requires x < 8
    ensures 0 <= Wrap16(g * x) / 8 <= g
  {
    ProductOrder(g, x, 7);
    WrapShrinks(g * x);
  }

  lemma WrapShrinks(x: nat)
    ensures Wrap16(x) <= x
  {
  }

  function Interval(t: Tables, rate: U16): (timer: U16)
    ensures MIN_INTERVAL <= timer <= MAX_INTERVAL
    ensures timer == Interpolated(t, TableRate(rate)) || Interpolated(t, TableRate(rate)) < timer == 100
  {
    Max(Interpolated(t, TableRate(rate)), MIN_INTERVAL)
  }

  /** The part of calc_timer that groups the steps. */
  method Grouped(rate: U16) returns (stepRate: U16, stepLoops: Byte)
    ensures stepRate == TableRate(rate) && stepLoops == Loops(rate)
  {
    stepRate := rate;
    if stepRate > MAX_STEP_FREQUENCY {
      stepRate := MAX_STEP_FREQUENCY;
    }
    if stepRate > 20000 {
      stepRate := stepRate / 4;
      stepLoops := 4;
    } else if stepRate > 10000 {
      stepRate := stepRate / 2;
      stepLoops := 2;
    } else {
      stepLoops := 1;
    }
    if stepRate < MIN_RATE {
      stepRate := MIN_RATE;
    }
    stepRate := stepRate - MIN_RATE;
  }

  /** calc_timer. */
  method CalcTimer(t: Tables, rate: U16) returns (timer: U16, stepLoops: Byte)
    ensures timer == Interval(t, rate) && stepLoops == Loops(rate)
  {
    hide MulU8X16toH16, Wrap16, TableRate, Loops;
    var stepRate;
    stepRate, stepLoops := Grouped(rate);
    if stepRate >= 8 * 0x100 {
      var e := t.fast[stepRate / 0x100];
      FastSlope(stepRate % 0x100, e.gain);
      timer := MulU8X16toH16(stepRate % 0x100, e.gain);
      timer := e.base - timer;
    } else {
      var e := t.slow[stepRate / 8];
      SlowSlope(e.gain, stepRate % 8);
      timer := e.base;
      timer := timer - Wrap16(e.gain * (stepRate % 8)) / 8;
    }
    if timer < MIN_INTERVAL {
      timer := MIN_INTERVAL;
    }
  }

  // Faster is shorter

  /** Every interval read from an entry lies between the entry and the next one. */
  lemma WithinEntry(t: Tables, r: U16)
    requires r <= 10000 - MIN_RATE
    ensures var e := if r >= 8 * 0x100 then t.fast[r / 0x100] else t.slow[r / 8];
      e.base - e.gain <= Interpolated(t, r) <= e.base
  {
    if r >= 8 * 0x100 {
      FastSlope(r % 0x100, t.fast[r / 0x100].gain);
    } else {
      SlowSlope(t.slow[r / 8].gain, r % 8);
    }
  }

  /**
  Where no product wraps, the interval at position k of an entry is the point of the straight line
  from this entry to the next one, rounded up.
  */
  lemma LiesOnLine(t: Tables, r: U16)
    requires r <= 10000 - MIN_RATE && (r >= 8 || Gentle(t))
    ensures var (e, d) := if r >= 8 * 0x100 then (t.fast[r / 0x100], 0x100) else (t.slow[r / 8], 8);
      e.gain * (r % d) - d < d * (e.base - Interpolated(t, r)) <= e.gain * (r % d)
  {
    if r >= 8 * 0x100 {
      var e := t.fast[r / 0x100];
      FastSlope(r % 0x100, e.gain);
      DivBounds((r % 0x100) * e.gain, 0x100);
    } else {
      var e := t.slow[r / 8];
      ProductOrder(e.gain, r % 8, 7);
      ProductOrder(e.gain, 0, r % 8);
      SlowSlope(e.gain, r % 8);
      Exact16(e.gain * (r % 8));
      DivBounds(e.gain * (r % 8), 8);
      hide Wrap16;
    }
  }

  lemma {:induction false} ChainFalls(table: seq<Entry>, i: nat, j: nat)
    requires Chained(table) && i < j < 256
    ensures table[j].base <= table[i].base - table[i].gain
    decreases j
  {
    if i + 1 < j {
      ChainFalls(table, i, j - 1);
    }
  }

  /** No product of the first slow entry wraps; those of the others never do. */
  predicate Gentle(t: Tables) { t.slow[0].gain * 7 < 0x1_0000 }

  lemma SameEntry(t: Tables, r: U16, s: U16)
    requires r <= s <= 10000 - MIN_RATE && (r >= 8 || Gentle(t))
    requires if r >= 8 * 0x100 then r / 0x100 == s / 0x100 else s < 8 * 0x100 && r / 8 == s / 8
    ensures Interpolated(t, s) <= Interpolated(t, r)
  {
    if r >= 8 * 0x100 {
      var g := t.fast[r / 0x100].gain;
      FastOrder(r % 0x100, s % 0x100, g);
      hide MulU8X16toH16;
    } else {
      var g := t.slow[r / 8].gain;
      SlowOrder(r % 8, s % 8, g);
      hide Wrap16;
    }
  }

  lemma FastOrder(x: Byte, y: Byte, g: U16)
    requires x <= y
    ensures MulU8X16toH16(x, g) <= MulU8X16toH16(y, g)
  {
    FastSlope(x, g);
    FastSlope(y, g);
    hide MulU8X16toH16;
    ProductOrder(g, x, y);
    QuotientOrder(x * g, y * g, 0x100);
  }

  lemma SlowOrder(x: nat, y: nat, g: U16)
    requires x <= y < 8 && g * 7 < 0x1_0000
    ensures Wrap16(g * x) / 8 <= Wrap16(g * y) / 8
  {
    ProductOrder(g, x, y);
    ProductOrder(g, y, 7);
    Exact16(g * x);
    Exact16(g * y);
    hide Wrap16;
    QuotientOrder(g * x, g * y, 8);
  }

  lemma Exact16(x: nat)
    requires x < 0x1_0000
    ensures Wrap16(x) == x
  {
  }

  lemma InterpolationFalls(t: Tables, r: U16, s: U16)
    requires r <= s <= 10000 - MIN_RATE && (r >= 8 || Gentle(t))
    ensures Interpolated(t, s) <= Interpolated(t, r)
  {
    hide Interpolated;
    WithinEntry(t, r);
    WithinEntry(t, s);
    if r >= 8 * 0x100 {
      if r / 0x100 == s / 0x100 {
        SameEntry(t, r, s);
      } else {
        ChainFalls(t.fast, r / 0x100, s / 0x100);
      }
    } else if s >= 8 * 0x100 {
      if r / 8 < 255 {
        ChainFalls(t.slow, r / 8, 255);
      }
      if s / 0x100 > 8 {
        ChainFalls(t.fast, 8, s / 0x100);
      }
    } else if r / 8 == s / 8 {
      SameEntry(t, r, s);
    } else {
      ChainFalls(t.slow, r / 8, s / 8);
    }
  }

  /**
  Among rates with the same number of steps per interrupt a faster one never waits longer, from
  40 steps per second on with all tables, and below that too if the first slow entry is gentle.
  */
  lemma FasterIsShorter(t: Tables, x: U16, y: U16)
    requires x <= y && Loops(x) == Loops(y) && (x >= 40 || Gentle(t))
    ensures Interval(t, y) <= Interval(t, x)
  {
    hide Interpolated;
    QuotientOrder(Min(x, MAX_STEP_FREQUENCY), Min(y, MAX_STEP_FREQUENCY), Loops(x));
    InterpolationFalls(t, TableRate(x), TableRate(y));
  }

  /** With the first slow entry of the 16 MHz table, 38 steps per second wait longer than 37. */
  lemma WrapsBelowForty(t: Tables)
    requires t.slow[0] == Entry(62500, 12500)
    ensures Interval(t, 37) == 54688 && Interval(t, 38) == 61317
  {
    assert TableRate(37) == 5 && TableRate(38) == 6;
  }

  /** The interval for one of the eight rates of the first slow entry. */
  lemma FirstEntry(t: Tables, x: nat)
    requires x < 8
    ensures Loops(MIN_RATE + x) == 1
    ensures Interval(t, MIN_RATE + x) == Max(t.slow[0].base - Wrap16(t.slow[0].gain * x) / 8, MIN_INTERVAL)
  {
    assert TableRate(MIN_RATE + x) == x;
    hide Wrap16;
  }

  lemma DropsBack(base: int, g: int, p: int)
    requires 9363 <= g <= base && g <= MAX_INTERVAL && 0 <= p < 0x1_0000 <= p + g
    ensures Max(base - (p + g - 0x1_0000) / 8, MIN_INTERVAL) > Max(base - p / 8, MIN_INTERVAL)
  {
  }

  /** Where the product wraps first, the next rate waits longer. */
  lemma SteepWaitsLonger(t: Tables, x: nat)
    requires 1 <= x < 8 && t.slow[0].gain * (x - 1) < 0x1_0000 <= t.slow[0].gain * x
    ensures Interval(t, MIN_RATE + x) > Interval(t, MIN_RATE + x - 1)
  {
    var g: int := t.slow[0].gain;
    var p := g * (x - 1);
    assert g * x == p + g && 0 <= p;
    assert 9363 <= g by {
      ProductOrder(g, x, 7);
    }
    FirstEntry(t, x);
    FirstEntry(t, x - 1);
    Exact16(p);
    WrapOnce(p + g);
    DropsBack(t.slow[0].base, g, p);
    hide Wrap16, Interval;
  }

  lemma WrapOnce(x: nat)
    requires 0x1_0000 <= x < 0x2_0000
    ensures Wrap16(x) == x - 0x1_0000
  {
  }

  /** Exactly the tables with a gentle first entry are monotonic. */
  lemma MonotonicIsGentle(t: Tables)
    ensures Gentle(t) <==>
            forall x: U16, y: U16 | x <= y && Loops(x) == Loops(y) :: Interval(t, y) <= Interval(t, x)
  {
    hide Interval, Loops;
    if Gentle(t) {
      forall x: U16, y: U16 | x <= y && Loops(x) == Loops(y)
        ensures Interval(t, y) <= Interval(t, x)
      {
        FasterIsShorter(t, x, y);
      }
    } else {
      var g: int, x: nat := t.slow[0].gain, 1;
      while g * x < 0x1_0000
        invariant 1 <= x <= 7 && g * (x - 1) < 0x1_0000
        decreases 8 - x
      {
        x := x + 1;
      }
      SteepWaitsLonger(t, x);
      FirstEntry(t, x);
      FirstEntry(t, x - 1);
      var slower: U16, faster: U16 := MIN_RATE + x - 1, MIN_RATE + x;
      assert Interval(t, faster) > Interval(t, slower) && Loops(faster) == Loops(slower);
    }
  }
}
