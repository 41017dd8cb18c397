/**
The tables of a timer of 2 MHz hold the intervals of their rates, rounded down. Between them the
interpolation keeps rate times interval near 2000000 at every rate a plan may command.
*/
module ClockTables {
  import opened Machine
  import opened Arithmetic
  import opened SpeedTable

  const CLOCK: nat := 2_000_000

  /** The rate of an entry. */
  function SlowRate(i: nat): nat { 32 + 8 * i }

  function FastRate(i: nat): nat { 32 + 256 * i }

  /** Every entry is the interval of its rate, rounded down, and leads to the next. */
  predicate OfClock(t: Tables) {
    && (forall i | 0 <= i < 256 :: t.slow[i].base == CLOCK / SlowRate(i))
    && (forall i | 0 <= i < 256 :: t.fast[i].base == CLOCK / FastRate(i))
    && t.slow[255].base - t.slow[255].gain == t.fast[8].base
  }

  /** B is the interval of the rate x, rounded down. */
  predicate Floored(x: nat, B: nat) { x * B <= CLOCK < x * B + x }

  lemma FlooredIs(x: nat)
    requires x > 0
    ensures CLOCK / x >= 0 && Floored(x, CLOCK / x)
  {
    DivBounds(CLOCK, x);
    if CLOCK / x < 0 {
      ProductOrder(x, CLOCK / x, -1);
    }
  }

  lemma Associates(x: int, y: int, z: int)
    ensures x * (y * z) == (x * y) * z
  {
  }

  lemma Distributes(x: int, y: int, z: int)
    ensures x * (y + z) == x * y + x * z
  {
  }

  /** The chord between the rates x and x + d, at x + k, is of the form of an average. */
  predicate OnChord(x: nat, d: nat, k: nat, B: nat, C: nat, I: nat) {
    && x > 0 && d > 0 && k < d && Floored(x, B) && Floored(x + d, C)
    && (d - k) * B + k * C <= d * I < (d - k) * B + k * C + d
  }

  /** The weights of the two ends, in terms of their product. */
  lemma Weights(x: int, d: int, k: int)
    ensures (d - k) * (x + d) + k * x == d * (x + d - k)
    ensures (x + k) * (x + d - k) == x * (x + d) + k * (d - k)
  {
    assert (d - k) * (x + d) == d * (x + d) - k * (x + d) by { Distributes(x + d, d, -k); }
    assert k * (x + d) == k * x + k * d by { Distributes(k, x, d); }
    assert d * (x + d - k) == d * (x + d) - d * k by { Distributes(d, x + d, -k); }
    assert (x + k) * (x + d - k) == x * (x + d - k) + k * (x + d - k) by { Distributes(x + d - k, x, k); }
    assert x * (x + d - k) == x * (x + d) - x * k by { Distributes(x, x + d, -k); }
    assert k * (x + d - k) == k * x + k * (d - k) by { Distributes(k, x, d - k); }
  }

  /** Both ends of the chord, multiplied out. */
  lemma ChordProduct(x: nat, d: nat, k: nat, B: nat, C: nat)
    ensures (x * (x + d)) * ((d - k) * B + k * C) == ((d - k) * (x + d)) * (x * B) + (k * x) * ((x + d) * C)
  {
    var p := x * (x + d);
    Distributes(p, (d - k) * B, k * C);
    assert p * ((d - k) * B) == ((d - k) * (x + d)) * (x * B) by {
      Associates(x, x + d, (d - k) * B);
      Associates(x + d, d - k, B);
      Associates(x, (x + d) * (d - k), B);
      Associates((d - k) * (x + d), x, B);
    }
    assert p * (k * C) == (k * x) * ((x + d) * C) by {
      Associates(x, x + d, k * C);
      Associates(x + d, k, C);
      Associates(k, x + d, C);
      Associates(x, k, (x + d) * C);
    }
  }

  /** A common positive factor of both sides. */
  lemma Cancels(p: int, a: int, b: int)
    requires p > 0 && p * a <= p * b
    ensures a <= b
  {
    if a > b {
      ProductOrder(p, b + 1, a);
    }
  }

  /** The first step of both bounds: the ends are replaced by n, which is near the clock. */
  lemma EndsReplaced(x: nat, d: nat, k: nat, B: nat, C: nat, n: nat)
    requires k < d
    ensures var p := x * (x + d);
      && (x * B <= n && (x + d) * C <= n ==> p * ((d - k) * B + k * C) <= d * (n * (x + d - k)))
      && (n <= x * B && n <= (x + d) * C ==> d * (n * (x + d - k)) <= p * ((d - k) * B + k * C))
  {
    var u, v := (d - k) * (x + d), k * x;
    assert u >= 0 by { ProductOrder(d - k, 0, x + d); }
    assert v >= 0 by { ProductOrder(k, 0, x); }
    ChordProduct(x, d, k, B, C);
    assert d * (n * (x + d - k)) == u * n + v * n by {
      Weights(x, d, k);
      Distributes(n, u, v);
      Associates(d, n, x + d - k);
      Associates(n, d, x + d - k);
    }
    if x * B <= n && (x + d) * C <= n {
      ProductOrder(u, x * B, n);
      ProductOrder(v, (x + d) * C, n);
    }
    if n <= x * B && n <= (x + d) * C {
      ProductOrder(u, n, x * B);
      ProductOrder(v, n, (x + d) * C);
    }
  }

  /** Rate times interval is never more than a rate below the clock. */
  lemma ChordFromBelow(x: nat, d: nat, k: nat, B: nat, C: nat, I: nat)
    requires OnChord(x, d, k, B, C, I)
    ensures (x + k) * I > CLOCK - (x + k)
  {
    var p, y, n := x * (x + d), x + k, CLOCK + 1;
    assert p > 0 by { ProductOrder(x, 1, x + d); }
    EndsReplaced(x, d, k, B + 1, C + 1, n);
    assert d * (I + 1) >= (d - k) * (B + 1) + k * (C + 1) by {
      Distributes(d, I, 1);
      Distributes(d - k, B, 1);
      Distributes(k, C, 1);
    }
    ProductOrder(p, (d - k) * (B + 1) + k * (C + 1), d * (I + 1));
    assert p * (d * (I + 1)) == d * (p * (I + 1)) by { Swaps(p, d, I + 1); }
    Cancels(d, n * (x + d - k), p * (I + 1));
    ProductOrder(y, n * (x + d - k), p * (I + 1));
    assert y * (p * (I + 1)) == p * (y * (I + 1)) by { Swaps(y, p, I + 1); }
    assert y * (n * (x + d - k)) == p * n + n * (k * (d - k)) by { Rearranged(x, d, k, n); }
    assert n * (k * (d - k)) >= 0 by {
      ProductOrder(k, 0, d - k);
      ProductOrder(n, 0, k * (d - k));
    }
    Cancels(p, n, y * (I + 1));
    Distributes(y, I, 1);
  }

  lemma Swaps(x: int, y: int, z: int)
    ensures x * (y * z) == y * (x * z)
  {
    Associates(x, y, z);
    Associates(y, x, z);
  }

  lemma Rearranged(x: nat, d: nat, k: nat, n: nat)
    ensures (x + k) * (n * (x + d - k)) == (x * (x + d)) * n + n * (k * (d - k))
  {
    Swaps(x + k, n, x + d - k);
    Weights(x, d, k);
    Distributes(n, x * (x + d), k * (d - k));
  }

  lemma Collects(p: int, q: int, n: int, y: int, w: int)
    requires p * q <= p * n + n * w + y * p
    ensures p * (q - n - y) <= n * w
  {
    Distributes(p, q, -n - y);
    Distributes(p, n, y);
  }

  /** Nor more than a rate and the bend of the chord above it. */
  lemma ChordFromAbove(x: nat, d: nat, k: nat, B: nat, C: nat, I: nat)
    requires OnChord(x, d, k, B, C, I)
    ensures (x * (x + d)) * ((x + k) * I - CLOCK - (x + k)) <= CLOCK * (k * (d - k))
  {
    var p, y, n, z := x * (x + d), x + k, CLOCK, x + d - k;
    assert p > 0 by { ProductOrder(x, 1, x + d); }
    assert p * I <= n * z + p by {
      EndsReplaced(x, d, k, B, C, n);
      ProductOrder(p, d * I, (d - k) * B + k * C + d);
      Distributes(p, (d - k) * B + k * C, d);
      Swaps(p, d, I);
      Distributes(d, n * z, p);
      Cancels(d, p * I, n * z + p);
    }
    assert p * (y * I) <= p * n + n * (k * (d - k)) + y * p by {
      ProductOrder(y, p * I, n * z + p);
      Distributes(y, n * z, p);
      Rearranged(x, d, k, n);
      Swaps(y, p, I);
    }
    Collects(p, y * I, n, y, k * (d - k));
  }

  lemma Spread(d: int, k: int, B: int, g: int, I: int)
    ensures (d - k) * B + k * (B - g) == d * B - g * k
    ensures d * (B - I) == d * B - d * I
  {
  }

  /** What the interpolation does between two entries. */
  lemma BetweenEntries(x: nat, d: nat, k: nat, B: nat, g: nat, I: nat)
    requires x > 0 && k < d && g <= B
    requires g * k - d < d * (B - I) <= g * k
    requires Floored(x, B) && Floored(x + d, B - g)
    ensures OnChord(x, d, k, B, B - g, I)
  {
    hide Floored;
    Spread(d, k, B, g, I);
  }

  lemma SlowChord(t: Tables, r: U16)
    requires OfClock(t) && 8 <= r < 8 * 0x100
    ensures var e := t.slow[r / 8];
      OnChord(SlowRate(r / 8), 8, r % 8, e.base, e.base - e.gain, Interpolated(t, r))
  {
    var i := r / 8;
    var e := t.slow[i];
    FlooredIs(SlowRate(i));
    FlooredIs(SlowRate(i + 1));
    assert e.base - e.gain == CLOCK / SlowRate(i + 1);
    LiesOnLine(t, r);
    hide Interpolated, Floored, OnChord, OfClock;
    BetweenEntries(SlowRate(i), 8, r % 8, e.base, e.gain, Interpolated(t, r));
  }

  lemma FastChord(t: Tables, r: U16)
    requires OfClock(t) && 8 * 0x100 <= r <= 10000 - MIN_RATE
    ensures var e := t.fast[r / 0x100];
      OnChord(FastRate(r / 0x100), 0x100, r % 0x100, e.base, e.base - e.gain, Interpolated(t, r))
  {
    var i := r / 0x100;
    var e := t.fast[i];
    FlooredIs(FastRate(i));
    FlooredIs(FastRate(i + 1));
    assert e.base - e.gain == CLOCK / FastRate(i + 1);
    LiesOnLine(t, r);
    hide Interpolated, Floored, OnChord, OfClock;
    BetweenEntries(FastRate(i), 0x100, r % 0x100, e.base, e.gain, Interpolated(t, r));
  }

  lemma Middle(d: int, k: int)
    ensures 4 * (k * (d - k)) <= d * d
  {
    var z := d - 2 * k;
    assert d * d - 4 * (k * (d - k)) == z * z;
  }

  /** The bend of a chord is largest in its middle. */
  lemma Bend(p: int, d: nat, k: nat, excess: int, most: nat)
    requires k < d && p * excess <= CLOCK * (k * (d - k))
    requires p > 0 && CLOCK * (d * d) <= 4 * (p * most)
    ensures excess <= most
  {
    Middle(d, k);
    Cancels(p, excess, most);
  }

  /** At the speed of a single step per interrupt. */
  lemma SingleRate(t: Tables, y: nat)
    requires OfClock(t) && 120 <= y <= 10000
    ensures CLOCK - y < y * Interpolated(t, y - 32)
            <= CLOCK + y + if y < 2080 then 2084 else if y < 5000 then 6745 else 1500
  {
    var r: U16 := y - 32;
    var I := Interpolated(t, r);
    var (x, d, k) := if r < 8 * 0x100 then (SlowRate(r / 8), 8, r % 8)
                     else (FastRate(r / 0x100), 0x100, r % 0x100);
    assert x + k == y;
    hide Interpolated, OfClock, OnChord;
    var e;
    if r < 8 * 0x100 {
      SlowChord(t, r);
      e := t.slow[r / 8];
      assert x >= 120;
    } else {
      FastChord(t, r);
      e := t.fast[r / 0x100];
      assert x >= 2080 && (y >= 5000 ==> x >= 4896);
    }
    ChordFromBelow(x, d, k, e.base, e.base - e.gain, I);
    ChordFromAbove(x, d, k, e.base, e.base - e.gain, I);
    var least := if y < 2080 then 120 else if y < 5000 then 2080 else 4896;
    var most := if y < 2080 then 2084 else if y < 5000 then 6745 else 1500;
    ProductOrder(least, least + d, x + d);
    ProductOrder(x + d, least, x);
    ProductOrder(most, least * (least + d), x * (x + d));
    Bend(x * (x + d), d, k, y * I - CLOCK - y, most);
  }

  lemma LongEnough(y: nat, I: nat)
    requires 1 <= y <= 10000 && y * I > CLOCK - y
    ensures I >= 199
  {
    if I < 199 {
      ProductOrder(y, I, 198);
    }
  }

  lemma TableRateIs(rate: U16)
    requires 120 <= rate <= 40000
    ensures var y := rate / Loops(rate);
      && 120 <= y <= 10000 && TableRate(rate) == y - 32
      && (Loops(rate) > 1 ==> y >= 5000)
      && Loops(rate) * y <= rate < Loops(rate) * y + Loops(rate)
  {
  }

  lemma Grouped(rate: nat, loops: nat, y: nat, I: nat)
    requires loops * y <= rate < loops * y + loops && (loops == 1 || loops == 2 || loops == 4)
    requires 1 <= y <= 10000 && (loops > 1 ==> y >= 5000)
    requires CLOCK - y < y * I <= CLOCK + y + if y < 2080 then 2084 else if y < 5000 then 6745 else 1500
    ensures 1_990_000 * loops <= rate * I <= 2_012_000 * loops
  {
    var e := rate - loops * y;
    assert rate * I == loops * (y * I) + e * I by {
      assert rate == loops * y + e;
      assert (loops * y) * I == loops * (y * I);
    }
    ProductOrder(I, 0, e);
    ProductOrder(loops, CLOCK - y, y * I);
    if loops > 1 {
      ProductOrder(I, 5000, y);
      ProductOrder(I, e, 3);
    }
  }

  /** With such tables rate times interval is right to six tenths of a percent at every rate of a plan. */
  lemma RateTimesInterval(t: Tables, rate: U16)
    requires OfClock(t) && 120 <= rate <= MAX_STEP_FREQUENCY
    ensures 1_990_000 * Loops(rate) <= rate * Interval(t, rate) <= 2_012_000 * Loops(rate)
  {
    TableRateIs(rate);
    var y := rate / Loops(rate);
    SingleRate(t, y);
    LongEnough(y, Interpolated(t, y - 32));
    assert Interval(t, rate) == Interpolated(t, y - 32);
    hide Interval, Interpolated, TableRate, Loops, OfClock;
    Grouped(rate, Loops(rate), y, Interpolated(t, y - 32));
  }
}
