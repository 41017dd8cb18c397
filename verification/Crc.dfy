/** The CRC-8 of the serial protocol: generator x^8 + x^2 + x + 1, most significant bit first. */
module Crc {
  /** One round: multiplication by x modulo the generator. */
  function Round(x: bv8): bv8 {
    if x & 0x80 != 0 then (x << 1) ^ 0x07 else x << 1
  }

  function Plus(x: bv8, y: bv8): bv8 { x ^ y }

  function Rounds(x: bv8, n: nat): bv8 {
    if n == 0 then x else Round(Rounds(x, n - 1))
  }

  /** The step from one byte to the next: eight rounds. */
  function ByteStep(x: bv8): bv8 {
    Round(Round(Round(Round(Round(Round(Round(Round(x))))))))
  }

  lemma RoundsAreByteStep(x: bv8)
    ensures Rounds(x, 8) == ByteStep(x)
  {
    assert Rounds(x, 1) == Round(x);
    assert Rounds(x, 2) == Round(Round(x));
    assert Rounds(x, 3) == Round(Round(Round(x)));
    assert Rounds(x, 4) == Round(Round(Round(Round(x))));
    assert Rounds(x, 5) == Round(Round(Round(Round(Round(x)))));
    assert Rounds(x, 6) == Round(Round(Round(Round(Round(Round(x))))));
    assert Rounds(x, 7) == Round(Round(Round(Round(Round(Round(Round(x)))))));
  }

  /** CCITT_updateCX. */
  method UpdateCX(crc: bv8, b: bv8) returns (data: bv8)
    ensures data == ByteStep(Plus(crc, b))
  {
    data := crc ^ b;
    for i := 0 to 8
      invariant data == Rounds(crc ^ b, i)
    {
      if data & 0x80 != 0 {
        data := data << 1;
        data := data ^ 0x07;
      } else {
        data := data << 1;
      }
    }
    RoundsAreByteStep(crc ^ b);
  }

  /** The CRC of a byte string, from the value `crc` on. */
  function Fold(crc: bv8, bytes: seq<bv8>): bv8
    decreases |bytes|
  {
    if bytes == [] then crc else Fold(ByteStep(Plus(crc, bytes[0])), bytes[1..])
  }

  lemma FoldTwo(crc: bv8, x: bv8, y: bv8)
    ensures Fold(crc, [x, y]) == ByteStep(Plus(ByteStep(Plus(crc, x)), y))
  {
    hide ByteStep, Plus;
    assert [x, y][1..] == [y] && [y][1..] == [];
    assert Fold(ByteStep(Plus(crc, x)), [y]) == Fold(ByteStep(Plus(ByteStep(Plus(crc, x)), y)), []);
  }

  /** CCITT_updateW: a 16-bit word, low byte first. */
  method UpdateW(crc: bv8, w: bv16) returns (data: bv8)
    ensures data == Fold(crc, [Low(w), High(w)])
  {
    hide ByteStep, Fold;
    FoldTwo(crc, Low(w), High(w));
    data := UpdateCX(crc, Low(w));
    data := UpdateCX(data, High(w));
  }

  function Low(w: bv16): bv8 { (w & 0xff) as bv8 }

  function High(w: bv16): bv8 { (w >> 8) as bv8 }

  // Linearity

  lemma PlusAssociative(x: bv8, y: bv8, z: bv8)
    ensures Plus(Plus(x, y), z) == Plus(x, Plus(y, z))
  {
  }

  lemma PlusCommutative(x: bv8, y: bv8)
    ensures Plus(x, y) == Plus(y, x)
  {
  }

  lemma PlusSwap(a: bv8, b: bv8, c: bv8, d: bv8)
    ensures Plus(Plus(a, c), Plus(b, d)) == Plus(Plus(a, b), Plus(c, d))
  {
    hide Plus;
    PlusAssociative(a, c, Plus(b, d));
    PlusAssociative(c, b, d);
    PlusCommutative(c, b);
    PlusAssociative(b, c, d);
    PlusAssociative(a, b, Plus(c, d));
  }

  /** A round without a branch: the top bit moves to the bits of the generator. */
  function Branchless(x: bv8): bv8 {
    (x << 1) ^ (x >> 7) ^ ((x >> 7) << 1) ^ ((x >> 7) << 2)
  }

  lemma RoundIsBranchless(x: bv8)
    ensures Round(x) == Branchless(x)
  {
  }

  lemma BranchlessLinear(x: bv8, y: bv8)
    ensures Branchless(x ^ y) == Branchless(x) ^ Branchless(y)
  {
  }

  lemma RoundLinear(x: bv8, y: bv8, z: bv8)
    requires z == Plus(x, y)
    ensures Round(z) == Plus(Round(x), Round(y))
  {
    hide Round, Branchless;
    RoundIsBranchless(x);
    RoundIsBranchless(y);
    RoundIsBranchless(z);
    BranchlessLinear(x, y);
  }

  lemma {:induction false} RoundsLinear(x: bv8, y: bv8, z: bv8, n: nat)
    requires z == Plus(x, y)
    ensures Rounds(z, n) == Plus(Rounds(x, n), Rounds(y, n))
  {
    hide Round, Plus;
    if n > 0 {
      RoundsLinear(x, y, z, n - 1);
      RoundLinear(Rounds(x, n - 1), Rounds(y, n - 1), Rounds(z, n - 1));
    }
  }

  /** The byte step is linear. */
  lemma ByteStepLinear(x: bv8, y: bv8)
    ensures ByteStep(Plus(x, y)) == Plus(ByteStep(x), ByteStep(y))
  {
    hide Rounds, ByteStep, Plus;
    RoundsAreByteStep(x);
    RoundsAreByteStep(y);
    RoundsAreByteStep(Plus(x, y));
    RoundsLinear(x, y, Plus(x, y), 8);
  }

  lemma ByteStepInjective(x: bv8, y: bv8)
    requires ByteStep(x) == ByteStep(y)
    ensures x == y
  {
  }

  function Sum(x: seq<bv8>, y: seq<bv8>): (z: seq<bv8>)
    requires |x| == |y|
    ensures |z| == |x|
  {
    seq(|x|, i requires 0 <= i < |x| => Plus(x[i], y[i]))
  }

  /** The difference of two CRCs depends on the differing bits alone. */
  lemma {:induction false} FoldLinear(c: bv8, d: bv8, x: seq<bv8>, y: seq<bv8>)
    requires |x| == |y|
    ensures Fold(Plus(c, d), Sum(x, y)) == Plus(Fold(c, x), Fold(d, y))
    decreases |x|
  {
    hide ByteStep, Plus;
    if x != [] {
      var a, b := Plus(c, x[0]), Plus(d, y[0]);
      assert Sum(x, y)[1..] == Sum(x[1..], y[1..]);
      PlusSwap(c, x[0], d, y[0]);
      ByteStepLinear(a, b);
      FoldLinear(ByteStep(a), ByteStep(b), x[1..], y[1..]);
    }
  }

  /** Equal bytes never make different CRCs meet. */
  lemma {:induction false} FoldInjective(c: bv8, d: bv8, bytes: seq<bv8>)
    ensures Fold(c, bytes) == Fold(d, bytes) <==> c == d
    decreases |bytes|
  {
    hide ByteStep, Plus;
    if bytes != [] {
      var x, y := Plus(c, bytes[0]), Plus(d, bytes[0]);
      FoldInjective(ByteStep(x), ByteStep(y), bytes[1..]);
      if ByteStep(x) == ByteStep(y) {
        ByteStepInjective(x, y);
        PlusCancels(c, d, bytes[0]);
      }
    }
  }

  lemma PlusCancels(x: bv8, y: bv8, z: bv8)
    ensures Plus(x, z) == Plus(y, z) <==> x == y
  {
  }

  lemma PlusMoves(x: bv8, y: bv8, z: bv8)
    ensures Plus(Plus(x, y), z) == x <==> y == z
  {
    hide Plus;
    PlusAssociative(x, y, z);
    PlusCommutative(x, Plus(y, z));
    PlusZero(x);
    PlusCancels(Plus(y, z), 0, x);
    PlusIsZero(y, z);
  }

  /** Two bytes that leave the CRC as two zero bytes do: the second is the step of the first. */
  lemma InvisiblePair(c: bv8, x: bv8, y: bv8)
    ensures Fold(c, [x, y]) == Fold(c, [0, 0]) <==> ByteStep(x) == y
  {
    hide ByteStep, Plus, Fold;
    FoldTwo(c, x, y);
    FoldTwo(c, 0, 0);
    PlusZero(c);
    PlusZero(ByteStep(c));
    ByteStepLinear(c, x);
    PlusMoves(ByteStep(c), ByteStep(x), y);
    if Fold(c, [x, y]) == Fold(c, [0, 0]) {
      ByteStepInjective(Plus(ByteStep(Plus(c, x)), y), ByteStep(c));
    }
  }

  lemma {:induction false} FoldConcat(c: bv8, a: seq<bv8>, b: seq<bv8>)
    ensures Fold(c, a + b) == Fold(Fold(c, a), b)
    decreases |a|
  {
    hide ByteStep, Plus;
    if a == [] {
      assert a + b == b;
    } else {
      assert (a + b)[0] == a[0] && (a + b)[1..] == a[1..] + b;
      FoldConcat(ByteStep(Plus(c, a[0])), a[1..], b);
    }
  }

  // Bursts

  /** The two bytes that a window w of eight bits covers when it starts s bits before the second. */
  function BurstHigh(w: bv8, s: nat): bv8
    requires s <= 8
  {
    w >> (8 - s)
  }

  function BurstLow(w: bv8, s: nat): bv8
    requires s <= 8
  {
    w << s
  }

  /** The error bits lie in eight consecutive bits of bytes i and i + 1. */
  predicate Burst(e: seq<bv8>, i: nat, w: bv8, s: nat) {
    && i < |e| && s <= 8 && w != 0
    && e[i] == BurstHigh(w, s)
    && (if i + 1 < |e| then e[i + 1] == BurstLow(w, s) else BurstLow(w, s) == 0)
    && forall j | 0 <= j < |e| && j != i && j != i + 1 :: e[j] == 0
  }

  // No pattern of one byte steps to the next one, wherever the window lies.

  lemma BurstSurvivesEarly(w: bv8, s: nat)
    requires s <= 2 && w != 0
    ensures ByteStep(BurstHigh(w, s)) != BurstLow(w, s)
  {
    match s
    case 0 =>
    case 1 =>
    case 2 =>
  }

  lemma BurstSurvivesMidway(w: bv8, s: nat)
    requires 3 <= s <= 5 && w != 0
    ensures ByteStep(BurstHigh(w, s)) != BurstLow(w, s)
  {
    match s
    case 3 =>
    case 4 =>
    case 5 =>
  }

  lemma BurstSurvivesLate(w: bv8, s: nat)
    requires 6 <= s <= 8 && w != 0
    ensures ByteStep(BurstHigh(w, s)) != BurstLow(w, s)
  {
    match s
    case 6 =>
    case 7 =>
    case 8 =>
  }

  lemma BurstSurvives(w: bv8, s: nat)
    requires s <= 8 && w != 0
    ensures ByteStep(BurstHigh(w, s)) != BurstLow(w, s)
  {
    hide *;
    if s <= 2 {
      BurstSurvivesEarly(w, s);
    } else if s <= 5 {
      BurstSurvivesMidway(w, s);
    } else {
      BurstSurvivesLate(w, s);
    }
  }

  lemma ByteStepZero()
    ensures ByteStep(0) == 0
  {
  }

  lemma PlusZero(x: bv8)
    ensures Plus(x, 0) == x && Plus(0, x) == x
  {
  }

  lemma PlusIsZero(x: bv8, y: bv8)
    ensures Plus(x, y) == 0 <==> x == y
  {
  }

  lemma StepsApart(x: bv8, y: bv8)
    requires x != y
    ensures ByteStep(Plus(x, y)) != 0
  {
    hide ByteStep;
    PlusIsZero(x, y);
    ByteStepZero();
    if ByteStep(Plus(x, y)) == 0 {
      ByteStepInjective(Plus(x, y), 0);
    }
  }

  /** A difference never dies out over equal bytes. */
  lemma {:induction false} DifferenceStays(c: bv8, e: seq<bv8>)
    requires c != 0 && forall j | 0 <= j < |e| :: e[j] == 0
    ensures Fold(c, e) != 0
    decreases |e|
  {
    hide ByteStep, Plus;
    if e != [] {
      StepsApart(c, e[0]);
      DifferenceStays(ByteStep(Plus(c, e[0])), e[1..]);
    }
  }

  lemma {:induction false} BurstShows(e: seq<bv8>, i: nat, w: bv8, s: nat)
    requires Burst(e, i, w, s)
    ensures Fold(0, e) != 0
    decreases i
  {
    hide ByteStep, Plus, BurstHigh, BurstLow;
    PlusZero(e[0]);
    ByteStepZero();
    if i > 0 {
      assert Burst(e[1..], i - 1, w, s);
      BurstShows(e[1..], i - 1, w, s);
    } else {
      BurstSurvives(w, s);
      var c := ByteStep(e[0]);
      assert Fold(0, e) == Fold(c, e[1..]);
      if |e| > 1 {
        StepsApart(c, e[1]);
        DifferenceStays(ByteStep(Plus(c, e[1])), e[2..]);
        assert e[1..][1..] == e[2..];
      } else {
        assert e[1..] == [];
      }
    }
  }

  /** Byte strings whose difference is one burst of at most eight bits have different CRCs. */
  lemma BurstIsDetected(crc: bv8, x: seq<bv8>, y: seq<bv8>, i: nat, w: bv8, s: nat)
    requires |x| == |y| && Burst(Sum(x, y), i, w, s)
    ensures Fold(crc, x) != Fold(crc, y)
  {
    hide ByteStep, Plus, Burst, Fold;
    FoldLinear(crc, crc, x, y);
    BurstShows(Sum(x, y), i, w, s);
    PlusIsZero(crc, crc);
    PlusIsZero(Fold(crc, x), Fold(crc, y));
  }

  /** In particular any change of a single byte. */
  lemma ByteChangeIsDetected(crc: bv8, x: seq<bv8>, i: nat, b: bv8)
    requires i < |x| && b != x[i]
    ensures Fold(crc, x) != Fold(crc, x[i := b])
  {
    var y := x[i := b];
    var w := Plus(x[i], b);
    PlusIsZero(x[i], b);
    WholeByte(w);
    hide BurstHigh, BurstLow, Plus, ByteStep, Fold;
    forall j | 0 <= j < |x| && j != i
      ensures Sum(x, y)[j] == 0
    {
      PlusIsZero(x[j], y[j]);
    }
    BurstIsDetected(crc, x, y, i, w, 8);
  }

  lemma WholeByte(w: bv8)
    ensures BurstHigh(w, 8) == w && BurstLow(w, 8) == 0
  {
  }
}
