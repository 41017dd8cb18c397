/**
The integer planner of one move. Rates are in steps per second, accelerations in steps per
second squared, so a move of s steps at acceleration a changes the squared rate by 2as.
*/
module Trapezoid {
  import opened Machine
  import opened Arithmetic

  const MIN_STEP_RATE: U32 := 120
  const MAX_ACCELERATION: U32 := 0x200_0000

  datatype Block = Block(
    steps: U32,
    direction: bool,
    accelerationRate: U32,
    accelerateUntil: U32,
    decelerateAfter: U32,
    nominalRate: U32,
    initialRate: U32,
    finalRate: U32,
    acceleration: U32)

  // The intended profile, on unbounded integers

  function CeilDiv(x: int, d: int): int
    requires d > 0
  {
    (x + d - 1) / d
  }

  function FloorSqrtFrom(x: nat, r: nat): (s: nat)
    requires r * r <= x
    ensures s * s <= x < (s + 1) * (s + 1)
    decreases x - r * r
  {
    if (r + 1) * (r + 1) <= x then FloorSqrtFrom(x, r + 1) else r
  }

  function FloorSqrt(x: nat): (s: nat)
    ensures s * s <= x < (s + 1) * (s + 1)
  {
    FloorSqrtFrom(x, 0)
  }

  /** At least 120 steps per second, below which the timer would overflow, and at most the nominal rate. */
  function LimitRate(rate: nat, nominal: nat): (r: nat)
    ensures nominal < 120 ==> r == nominal
    ensures nominal >= 120 ==> 120 <= r <= nominal && (r == rate || (rate < 120 == r) || rate > nominal == r)
  {
    Min(Max(rate, MIN_STEP_RATE), nominal)
  }

  /** The first step count at which a ramp from rate i reaches rate r. */
  function RampUp(i: nat, r: nat, a: nat): int
    requires a > 0
  {
    CeilDiv(r * r - i * i, 2 * a)
  }

  /** The last step count that still brings rate r down to rate f or above. */
  function RampDown(r: nat, f: nat, a: nat): int
    requires a > 0
  {
    (r * r - f * f) / (2 * a)
  }

  /** The step at which a ramp up from i and a ramp down to f over n steps meet. */
  function Meeting(i: nat, f: nat, a: nat, n: nat): int
    requires a > 0
  {
    CeilDiv(f * f - i * i + 2 * a * n, 4 * a)
  }

  /** The rate that n steps of acceleration from i reach, rounded down. */
  function FullRampRate(i: nat, a: nat, n: nat): nat { FloorSqrt(2 * a * n + i * i) }

  datatype Profile = Profile(accelerateUntil: int, decelerateAfter: int, finalRate: int)

  /** Ramp up, cruise if there is room for it, ramp down. */
  function Ideal(i: nat, f: nat, r: nat, a: nat, n: nat): Profile
    requires a > 0
  {
    var up, down := RampUp(i, r, a), RampDown(r, f, a);
    var meet := Meeting(i, f, a, n);
    if up + down < n then Profile(up, n - down, f)
    else if meet > n then Profile(n, n, FullRampRate(i, a, n))
    else Profile(Max(meet, 0), Max(meet, 0), f)
  }

  /** Rounding up is rounding down the other way round. */
  lemma CeilIsFloor(z: int, d: int)
    requires d > 0
    ensures CeilDiv(-z, d) == -(z / d)
  {
    DivBounds(z, d);
    assert d * (-(z / d)) == -(d * (z / d));
    DivUnique(-z + d - 1, d, -(z / d));
  }

  /**
  What becomes of the rates asked for at both ends: with a nominal rate of at least 120 both lie
  between that and the nominal rate, and a rate asked for from there is kept, but for the final
  rate of a block that is too short to speed up to it. A slower block keeps to its nominal rate.
  */
  predicate EndsLimited(entry: nat, exit: nat, nominal: nat, n: nat, initial: nat, p: Profile) {
    if nominal < 120 then initial == p.finalRate == nominal
    else
      && 120 <= initial <= nominal && 120 <= p.finalRate <= nominal
      && (120 <= entry <= nominal ==> initial == entry)
      && (entry < 120 ==> initial == 120) && (entry > nominal ==> initial == nominal)
      && (p.finalRate == Max(120, Min(exit, nominal))
          || (initial <= p.finalRate < Max(120, Min(exit, nominal)) && p.accelerateUntil == n))
  }

  lemma EndsAreLimited(entry: nat, exit: nat, nominal: nat, a: nat, n: nat)
    requires a > 0
    ensures var i := LimitRate(entry, nominal);
      EndsLimited(entry, exit, nominal, n, i, Ideal(i, LimitRate(exit, nominal), nominal, a, n))
  {
    ExitRate(LimitRate(entry, nominal), LimitRate(exit, nominal), nominal, a, n);
    hide RampUp, RampDown, Meeting, FullRampRate, ExitSquared;
    IdealIs(LimitRate(entry, nominal), LimitRate(exit, nominal), nominal, a, n);
    hide Ideal;
  }

  // The two no-cruise branches

  /** Entering no faster than leaving: the branch that computes the acceleration steps. */
  lemma RisingBranch(i: nat, f: nat, a: nat, n: nat)
    requires a > 0
    ensures (f * f - i * i + 4 * a - 1 + if n % 2 == 1 then 2 * a else 0) / (4 * a) + n / 2
            == Meeting(i, f, a, n)
  {
    var x := f * f - i * i;
    var odd := if n % 2 == 1 then 2 * a else 0;
    var h := n / 2;
    assert 2 * a * n == 4 * a * h + odd by {
      assert n == 2 * h + n % 2;
      assert 2 * a * (2 * h) == 4 * a * h;
    }
    DivShift(x + 4 * a - 1 + odd, 4 * a, h);
    assert x + 2 * a * n + 4 * a - 1 == x + 4 * a - 1 + odd + 4 * a * h;
  }

  /** Entering faster than leaving: the branch that computes the deceleration steps. */
  lemma FallingBranch(i: nat, f: nat, a: nat, n: nat)
    requires a > 0
    ensures n - ((i * i - f * f + if n % 2 == 1 then 2 * a else 0) / (4 * a) + n / 2)
            == Meeting(i, f, a, n)
  {
    var y := i * i - f * f;
    var o := n % 2;
    var h := n / 2;
    var odd := if o == 1 then 2 * a else 0;
    assert n == 2 * h + o;
    assert 2 * a * n == 4 * a * (h + o) - odd by {
      assert 2 * a * (2 * h + o) == 4 * a * h + 2 * a * o;
      assert 4 * a * (h + o) == 4 * a * h + 4 * a * o;
    }
    var z := y + odd;
    assert -(z + 4 * a * -(h + o)) == f * f - i * i + 2 * a * n by {
      assert 4 * a * -(h + o) == -(4 * a * (h + o));
    }
    CeilIsFloor(z + 4 * a * -(h + o), 4 * a);
    DivShift(z, 4 * a, -(h + o));
  }

  // What the intended profile is good for

  lemma CeilBounds(x: int, d: int)
    requires d > 0
    ensures d * CeilDiv(x, d) - d < x <= d * CeilDiv(x, d)
  {
    DivBounds(x + d - 1, d);
  }

  /** Without room to cruise, the ramps meet before the first one reaches the nominal rate. */
  lemma MeetingBelowNominal(i: nat, f: nat, r: nat, a: nat, n: nat)
    requires a > 0 && RampUp(i, r, a) + RampDown(r, f, a) >= n
    ensures Meeting(i, f, a, n) <= RampUp(i, r, a)
  {
    var up, down, meet := RampUp(i, r, a), RampDown(r, f, a), Meeting(i, f, a, n);
    CeilBounds(r * r - i * i, 2 * a);
    DivBounds(r * r - f * f, 2 * a);
    CeilBounds(f * f - i * i + 2 * a * n, 4 * a);
    ProductOrder(2 * a, n, up + down);
    assert 2 * a * (up + down) == 2 * a * up + 2 * a * down;
    assert 4 * a * up == 2 * a * up + 2 * a * up;
    assert 4 * a * (up + 1) == 4 * a * up + 4 * a;
    if meet >= up + 1 {
      ProductOrder(4 * a, up + 1, meet);
    }
  }

  /** The squared rate after s steps of acceleration from i. */
  function Squared(i: nat, a: nat, s: int): int { i * i + 2 * a * s }

  lemma SquaredOrder(i: nat, a: nat, s: int, t: int)
    requires s <= t
    ensures Squared(i, a, s) <= Squared(i, a, t)
  {
    ProductOrder(2 * a, s, t);
  }

  lemma RampUpIsFirst(i: nat, r: nat, a: nat)
    requires a > 0
    ensures Squared(i, a, RampUp(i, r, a) - 1) < r * r <= Squared(i, a, RampUp(i, r, a))
    ensures i <= r ==> RampUp(i, r, a) >= 0
  {
    var up := RampUp(i, r, a);
    CeilBounds(r * r - i * i, 2 * a);
    assert 2 * a * (up - 1) == 2 * a * up - 2 * a;
    if i <= r && up < 0 {
      ProductOrder(i, i, r);
      ProductOrder(r, i, r);
      ProductOrder(2 * a, up, -1);
    }
  }

  lemma RampDownIsNatural(r: nat, f: nat, a: nat)
    requires a > 0 && f <= r
    ensures RampDown(r, f, a) >= 0
  {
    ProductOrder(f, f, r);
    ProductOrder(r, f, r);
    DivBounds(r * r - f * f, 2 * a);
    if RampDown(r, f, a) < 0 {
      ProductOrder(2 * a, RampDown(r, f, a), -1);
    }
  }

  /** The phases of a profile are in order and the ramp up stops in time. */
  lemma PhasesInOrder(i: nat, f: nat, r: nat, a: nat, n: nat)
    requires a > 0 && i <= r && f <= r
    ensures var p := Ideal(i, f, r, a, n);
      && 0 <= p.accelerateUntil <= p.decelerateAfter <= n
      && (p.accelerateUntil > 0 ==> Squared(i, a, p.accelerateUntil - 1) < r * r)
      && (p.accelerateUntil < p.decelerateAfter ==> Squared(i, a, p.accelerateUntil) >= r * r)
  {
    var up := RampUp(i, r, a);
    var p := Ideal(i, f, r, a, n);
    RampUpIsFirst(i, r, a);
    RampDownIsNatural(r, f, a);
    if up + RampDown(r, f, a) >= n {
      MeetingBelowNominal(i, f, r, a, n);
      SquaredOrder(i, a, p.accelerateUntil - 1, up - 1);
    }
  }

  /** The squared rate a profile ends with. */
  function ExitSquared(i: nat, r: nat, a: nat, n: nat, p: Profile): int {
    var peak := if p.accelerateUntil < p.decelerateAfter then r * r else Squared(i, a, p.accelerateUntil);
    peak - 2 * a * (n - p.decelerateAfter)
  }

  /**
  The rate at the end of the block. With room to cruise or with ramps that meet inside the
  block, its square misses the requested one by less than 4a, never from below. A block that
  is too short to brake ends faster than that. A block that is too short to speed up ends
  between its initial and the requested rate, and its final rate is lowered to match.
  */
  lemma ExitRate(i: nat, f: nat, r: nat, a: nat, n: nat)
    requires a > 0 && i <= r && f <= r
    ensures var p := Ideal(i, f, r, a, n);
      var exit := ExitSquared(i, r, a, n, p);
      var meet := Meeting(i, f, a, n);
      if RampUp(i, r, a) + RampDown(r, f, a) < n || 0 <= meet <= n then
        p.finalRate == f && f * f <= exit < f * f + 4 * a
      else if meet < 0 then
        p.finalRate == f && p.decelerateAfter == 0 && exit >= f * f + 4 * a
      else
        && i <= p.finalRate < f && p.accelerateUntil == n
        && p.finalRate * p.finalRate <= exit < (p.finalRate + 1) * (p.finalRate + 1)
  {
    var meet := Meeting(i, f, a, n);
    if RampUp(i, r, a) + RampDown(r, f, a) < n {
      DivBounds(r * r - f * f, 2 * a);
    } else {
      MeetingBounds(i, f, a, n);
      if 0 <= meet <= n {
      } else if meet < 0 {
        ProductOrder(4 * a, meet, -1);
      } else {
        TooShort(i, f, a, n);
      }
    }
  }

  /** The squared rate where ramps that meet at their meeting point end. */
  lemma MeetingBounds(i: nat, f: nat, a: nat, n: nat)
    requires a > 0
    ensures var m := Meeting(i, f, a, n);
      f * f <= Squared(i, a, m) - 2 * a * (n - m) < f * f + 4 * a
    ensures Squared(i, a, 0) - 2 * a * n
            == Squared(i, a, Meeting(i, f, a, n)) - 2 * a * (n - Meeting(i, f, a, n))
               - 4 * a * Meeting(i, f, a, n)
  {
    var m := Meeting(i, f, a, n);
    CeilBounds(f * f - i * i + 2 * a * n, 4 * a);
    assert 2 * a * (n - m) == 2 * a * n - 2 * a * m;
    assert 4 * a * m == 2 * a * m + 2 * a * m;
  }

  lemma TooShort(i: nat, f: nat, a: nat, n: nat)
    requires a > 0 && Meeting(i, f, a, n) > n
    ensures i * i <= Squared(i, a, n) < f * f
    ensures i <= FloorSqrt(Squared(i, a, n)) < f
  {
    var m := Meeting(i, f, a, n);
    CeilBounds(f * f - i * i + 2 * a * n, 4 * a);
    ProductOrder(4 * a, n, m - 1);
    assert 4 * a * (m - 1) == 4 * a * m - 4 * a;
    assert 4 * a * n == 2 * a * n + 2 * a * n;
    ProductOrder(2 * a, 0, n);
    RootBetween(i, f, Squared(i, a, n));
  }

  lemma RootBetween(i: nat, f: nat, x: nat)
    requires i * i <= x < f * f
    ensures i <= FloorSqrt(x) < f
  {
    var s := FloorSqrt(x);
    if s < i {
      ProductOrder(s + 1, s + 1, i);
      ProductOrder(i, s + 1, i);
    } else if f <= s {
      ProductOrder(f, f, s);
      ProductOrder(s, f, s);
    }
  }

  // The planner, in 32-bit unsigned arithmetic

  /** The moves for which 32 bits are enough. */
  predicate InRange(block: Block) {
    && block.nominalRate <= MAX_STEP_FREQUENCY
    && block.acceleration <= MAX_ACCELERATION
    && block.steps < 0x8000_0000
  }

  /** No divisor of the planner vanishes when the acceleration is shifted left twice. */
  predicate Shiftable(acceleration: U32) {
    acceleration == 0 || acceleration % 0x4000_0000 != 0
  }

  lemma SquareBound(x: nat)
    requires x <= MAX_STEP_FREQUENCY
    ensures x * x <= 1_600_000_000
  {
    ProductOrder(x, x, 40000);
    ProductOrder(40000, x, 40000);
  }

  lemma SquareOrder(x: nat, y: nat)
    requires x <= y
    ensures x * x <= y * y
  {
    ProductOrder(x, x, y);
    ProductOrder(y, x, y);
  }

  lemma ShiftedPositive(a: U32)
    requires a > 0 && Shiftable(a)
    ensures Mul32(a, 2) > 0 && Mul32(a, 4) > 0
  {
  }

  /** Rates and accelerations for which nothing wraps. */
  predicate Fits(i: nat, f: nat, r: nat, a: nat) {
    i <= r && f <= r && r <= MAX_STEP_FREQUENCY && 1 <= a <= MAX_ACCELERATION
  }

  lemma Exact32(x: nat)
    requires x < 0x1_0000_0000
    ensures Wrap32(x) == x
  {
  }

  lemma QuotientBound(x: nat, d: nat)
    requires d >= 2
    ensures 0 <= x / d && 2 * (x / d) <= x
  {
    var q := x / d;
    DivBounds(x, d);
    if q < 0 {
      ProductOrder(d, q, -1);
    }
    ProductOrder(q, 2, d);
  }

  lemma SquaresExact(i: nat, f: nat, r: nat, a: nat)
    requires Fits(i, f, r, a)
    ensures Wrap32(i * i) == i * i && Wrap32(r * r) == r * r && Wrap32(f * f) == f * f
    ensures i * i <= r * r <= 1_600_000_000 && f * f <= r * r
    ensures Wrap32(a * 2) == 2 * a && Wrap32(a * 4) == 4 * a
    ensures f <= i <==> f * f <= i * i
  {
    hide Wrap32;
    SquareBound(r);
    SquareOrder(i, r);
    SquareOrder(f, r);
    Exact32(i * i);
    Exact32(r * r);
    Exact32(f * f);
    Exact32(a * 2);
    Exact32(a * 4);
    if f <= i {
      SquareOrder(f, i);
    } else {
      SquareOrder(i + 1, f);
    }
  }

  // The operators of the 32-bit planner

  function Mul32(x: U32, y: U32): U32 { Wrap32(x * y) }

  function Add32(x: U32, y: U32): U32 { Wrap32(x + y) }

  function Sub32(x: U32, y: U32): U32 { Wrap32(x - y) }

  function Div32(x: U32, d: U32): U32
    requires d > 0
  {
    DivBounds(x, d);
    DivShrinks(x, d);
    x / d
  }

  function Sqrt32(x: U32): U32 {
    RootFits(FloorSqrt(x));
    FloorSqrt(x)
  }

  lemma RootFits(s: nat)
    ensures s <= s * s
  {
  }

  lemma AddExact(x: U32, y: U32)
    requires x + y < 0x1_0000_0000
    ensures Add32(x, y) == x + y
  {
  }

  lemma SubExact(x: U32, y: U32)
    requires y <= x
    ensures Sub32(x, y) == x - y
  {
  }

  /** Both ramp lengths come out exactly, and so does their sum. */
  lemma RampsExact(i: U32, f: U32, r: U32, a: U32)
    requires Fits(i, f, r, a)
    ensures Mul32(a, 2) > 0
    ensures Div32(Sub32(Add32(Sub32(Mul32(r, r), Mul32(i, i)), Mul32(a, 2)), 1), Mul32(a, 2)) == RampUp(i, r, a)
    ensures Div32(Sub32(Mul32(r, r), Mul32(f, f)), Mul32(a, 2)) == RampDown(r, f, a)
    ensures var up, down := RampUp(i, r, a), RampDown(r, f, a);
      0 <= up < 0x1_0000_0000 && 0 <= down < 0x1_0000_0000 && Add32(up, down) == up + down
  {
    SquaresExact(i, f, r, a);
    hide Wrap32;
    var x, y, d := r * r - i * i + 2 * a - 1, r * r - f * f, 2 * a;
    QuotientBound(x, d);
    QuotientBound(y, d);
    Exact32(r * r - i * i);
    Exact32(r * r - i * i + 2 * a);
    Exact32(x);
    Exact32(y);
    Exact32(x / d + y / d);
  }

  /** The branch for an exit at least as fast as the entry. */
  lemma RisingExact(i: U32, f: U32, r: U32, a: U32, n: U32)
    requires Fits(i, f, r, a) && n < 0x8000_0000
    requires Mul32(f, f) >= Mul32(i, i)
    ensures Mul32(a, 4) > 0
    ensures var s := Sub32(Add32(Sub32(Mul32(f, f), Mul32(i, i)), Mul32(a, 4)), 1);
      var t := if n % 2 == 1 then Add32(s, Mul32(a, 2)) else s;
      Add32(Div32(t, Mul32(a, 4)), n / 2) == Meeting(i, f, a, n)
  {
    SquaresExact(i, f, r, a);
    RisingBranch(i, f, a, n);
    var ff, ii, d := Mul32(f, f), Mul32(i, i), Mul32(a, 4);
    assert ff == f * f && ii == i * i && d == 4 * a && Mul32(a, 2) == 2 * a;
    hide Mul32, Add32, Sub32, Meeting;
    var t := ff - ii + d - 1 + if n % 2 == 1 then 2 * a else 0;
    SubExact(ff, ii);
    AddExact(ff - ii, d);
    SubExact(ff - ii + d, 1);
    if n % 2 == 1 {
      AddExact(ff - ii + d - 1, 2 * a);
    }
    QuotientBound(t, d);
    AddExact(t / d, n / 2);
  }

  /** The argument of the square root, when acceleration fills the block. */
  lemma FullRampExact(i: U32, f: U32, r: U32, a: U32, n: U32)
    requires Fits(i, f, r, a) && Meeting(i, f, a, n) > n
    ensures Sqrt32(Add32(Mul32(Mul32(a, 2), n), Mul32(i, i))) == FullRampRate(i, a, n)
  {
    SquaresExact(i, f, r, a);
    TooShort(i, f, a, n);
    hide Wrap32, Meeting;
    ProductOrder(2 * a, 0, n);
    Exact32(2 * a * n);
    Exact32(2 * a * n + i * i);
  }

  /** The branch for an exit slower than the entry. */
  lemma FallingExact(i: U32, f: U32, r: U32, a: U32, n: U32)
    requires Fits(i, f, r, a) && n < 0x8000_0000
    requires Mul32(f, f) < Mul32(i, i)
    ensures Mul32(a, 4) > 0
    ensures var s := Sub32(Mul32(i, i), Mul32(f, f));
      var t := if n % 2 == 1 then Add32(s, Mul32(a, 2)) else s;
      Add32(Div32(t, Mul32(a, 4)), n / 2) == n - Meeting(i, f, a, n)
  {
    SquaresExact(i, f, r, a);
    FallingBranch(i, f, a, n);
    var ff, ii, d := Mul32(f, f), Mul32(i, i), Mul32(a, 4);
    assert ff == f * f && ii == i * i && d == 4 * a && Mul32(a, 2) == 2 * a;
    hide Mul32, Add32, Sub32, Meeting;
    var t := ii - ff + if n % 2 == 1 then 2 * a else 0;
    SubExact(ii, ff);
    if n % 2 == 1 {
      AddExact(ii - ff, 2 * a);
    }
    QuotientBound(t, d);
    AddExact(t / d, n / 2);
  }

  /** The profile that the 32-bit planner stores in the block. */
  function Planned(b: Block): Profile {
    Profile(b.accelerateUntil, b.decelerateAfter, b.finalRate)
  }

  /** The planner's branch for a block without room to cruise. */
  method MeetRamps(i: U32, f: U32, ghost r: U32, a: U32, n: U32) returns (accelerateSteps: U32, finalRate: U32)
    requires Mul32(a, 2) > 0 && Mul32(a, 4) > 0
    ensures accelerateSteps <= n
    ensures Fits(i, f, r, a) && n < 0x8000_0000 ==>
      && accelerateSteps == Max(0, Min(Meeting(i, f, a, n), n))
      && finalRate == if Meeting(i, f, a, n) > n then FullRampRate(i, a, n) else f
  {
    var initialRateSqr, finalRateSqr := Mul32(i, i), Mul32(f, f);
    var accelerationX2, accelerationX4 := Mul32(a, 2), Mul32(a, 4);
    finalRate := f;
    if Fits(i, f, r, a) && n < 0x8000_0000 {
      MeetingExact(i, f, r, a, n);
    }
    hide Mul32, Add32, Sub32, Div32, Sqrt32, Meeting, FullRampRate, Fits;
    if finalRateSqr >= initialRateSqr {
      accelerateSteps := Sub32(Add32(Sub32(finalRateSqr, initialRateSqr), accelerationX4), 1);
      if n % 2 == 1 {
        accelerateSteps := Add32(accelerateSteps, accelerationX2);
      }
      accelerateSteps := Div32(accelerateSteps, accelerationX4);
      accelerateSteps := Add32(accelerateSteps, n / 2);
      if accelerateSteps > n {
        accelerateSteps := n;
        finalRate := Sqrt32(Add32(Mul32(accelerationX2, accelerateSteps), initialRateSqr));
      }
    } else {
      var decelerateSteps := Sub32(initialRateSqr, finalRateSqr);
      if n % 2 == 1 {
        decelerateSteps := Add32(decelerateSteps, accelerationX2);
      }
      decelerateSteps := Div32(decelerateSteps, accelerationX4);
      decelerateSteps := Add32(decelerateSteps, n / 2);
      if decelerateSteps > n {
        decelerateSteps := n;
      }
      accelerateSteps := n - decelerateSteps;
    }
  }

  lemma MeetingExact(i: U32, f: U32, r: U32, a: U32, n: U32)
    requires Fits(i, f, r, a) && n < 0x8000_0000
    requires Mul32(a, 4) > 0
    ensures Mul32(f, f) >= Mul32(i, i) ==>
      var s := Sub32(Add32(Sub32(Mul32(f, f), Mul32(i, i)), Mul32(a, 4)), 1);
      var t := if n % 2 == 1 then Add32(s, Mul32(a, 2)) else s;
      Add32(Div32(t, Mul32(a, 4)), n / 2) == Meeting(i, f, a, n)
    ensures Mul32(f, f) < Mul32(i, i) ==>
      var s := Sub32(Mul32(i, i), Mul32(f, f));
      var t := if n % 2 == 1 then Add32(s, Mul32(a, 2)) else s;
      Add32(Div32(t, Mul32(a, 4)), n / 2) == n - Meeting(i, f, a, n)
    ensures Meeting(i, f, a, n) > n ==>
      Sqrt32(Add32(Mul32(Mul32(a, 2), n), Mul32(i, i))) == FullRampRate(i, a, n)
  {
    assert a > 0;
    hide Mul32, Add32, Sub32, Div32, Sqrt32, Meeting, FullRampRate, Fits;
    if Mul32(f, f) >= Mul32(i, i) {
      RisingExact(i, f, r, a, n);
    } else {
      FallingExact(i, f, r, a, n);
    }
    if Meeting(i, f, a, n) > n {
      FullRampExact(i, f, r, a, n);
    }
  }

  lemma IdealIs(i: nat, f: nat, r: nat, a: nat, n: nat)
    requires a > 0
    ensures var up, down, meet := RampUp(i, r, a), RampDown(r, f, a), Meeting(i, f, a, n);
      var until := if up + down < n then up else Max(0, Min(meet, n));
      Ideal(i, f, r, a, n) == Profile(until, if up + down < n then n - down else until,
                                      if up + down >= n && meet > n then FullRampRate(i, a, n) else f)
  {
  }

  /** The limits the planner puts on the entry and the exit rate. */
  method Limited(rate: U32, nominal: U32) returns (r: U32)
    ensures r == LimitRate(rate, nominal)
  {
    r := rate;
    if r < MIN_STEP_RATE {
      r := MIN_STEP_RATE;
    }
    if r > nominal {
      r := nominal;
    }
  }

  method CalculateTrapezoid(block: Block, entrySpeed: U32, exitSpeed: U32) returns (b: Block)
    requires Shiftable(block.acceleration)
    ensures b == block.(accelerateUntil := b.accelerateUntil, decelerateAfter := b.decelerateAfter,
                        initialRate := LimitRate(entrySpeed, block.nominalRate), finalRate := b.finalRate)
    ensures InRange(block) ==>
      Planned(b) == Ideal(LimitRate(entrySpeed, block.nominalRate), LimitRate(exitSpeed, block.nominalRate),
                          block.nominalRate, Max(block.acceleration, 1), block.steps)
    ensures InRange(block) ==>
      EndsLimited(entrySpeed, exitSpeed, block.nominalRate, block.steps, b.initialRate, Planned(b))
  {
    EndsAreLimited(entrySpeed, exitSpeed, block.nominalRate, Max(block.acceleration, 1), block.steps);
    hide EndsLimited;
    var initialRate := Limited(entrySpeed, block.nominalRate);
    var finalRate := Limited(exitSpeed, block.nominalRate);
    var acceleration := block.acceleration;
    if acceleration == 0 {
      acceleration := 1;
    }
    ShiftedPositive(acceleration);
    ghost var exact := InRange(block);
    ghost var i, f, r, a, n := initialRate, finalRate, block.nominalRate, acceleration, block.steps;
    assert i == LimitRate(entrySpeed, r) && f == LimitRate(exitSpeed, r) && a == Max(block.acceleration, 1);
    if exact {
      RampsExact(i, f, r, a);
      IdealIs(i, f, r, a, n);
    }
    hide Mul32, Add32, Sub32, Div32, RampUp, RampDown, Meeting, FullRampRate, Shiftable, LimitRate, InRange, Ideal;
    var initialRateSqr := Mul32(initialRate, initialRate);
    var nominalRateSqr := Mul32(block.nominalRate, block.nominalRate);
    var finalRateSqr := Mul32(finalRate, finalRate);
    var accelerationX2 := Mul32(acceleration, 2);
    var accelerateSteps :=
      Div32(Sub32(Add32(Sub32(nominalRateSqr, initialRateSqr), accelerationX2), 1), accelerationX2);
    var decelerateSteps := Div32(Sub32(nominalRateSqr, finalRateSqr), accelerationX2);
    var accelDecelSteps := Add32(accelerateSteps, decelerateSteps);
    var plateauSteps := 0;
    if accelDecelSteps < block.steps {
      plateauSteps := block.steps - accelDecelSteps;
    } else {
      accelerateSteps, finalRate := MeetRamps(initialRate, finalRate, block.nominalRate, acceleration, block.steps);
    }
    if exact {
      AddExact(accelerateSteps, plateauSteps);
    }
    b := block.(accelerateUntil := accelerateSteps, decelerateAfter := Add32(accelerateSteps, plateauSteps),
                initialRate := initialRate, finalRate := finalRate);
  }
}
