/** The CRC as what it is meant to be: the remainder of a division of polynomials over two elements. */
module CrcRemainder {
  import opened Crc

  /** The coefficients of a polynomial, those of the highest powers first. */
  type Polynomial = seq<bool>

  function Zeros(n: nat): (p: Polynomial)
    ensures |p| == n
  {
    seq(n, _ => false)
  }

  function Added(p: Polynomial, q: Polynomial): (a: Polynomial)
    requires |p| == |q|
    ensures |a| == |p|
  {
    seq(|p|, i requires 0 <= i < |p| => p[i] != q[i])
  }

  /** x^8 + x^2 + x + 1. */
  function Generator(): (g: Polynomial)
    ensures |g| == 9
  {
    [true, false, false, false, false, false, true, true, true]
  }

  /** The product with the generator: a polynomial of length n has one of length n + 8. */
  function Product(q: Polynomial): (p: Polynomial)
    ensures |p| == |q| + 8
  {
    if q == [] then Zeros(8)
    else
      var n := |q| - 1;
      Added(Product(q[..n]) + [false], if q[n] then Zeros(n) + Generator() else Zeros(n + 9))
  }

  function Mask(j: nat): (m: bv8)
    requires j < 8
    ensures m != 0
  {
    match j
    case 0 => 0x80
    case 1 => 0x40
    case 2 => 0x20
    case 3 => 0x10
    case 4 => 0x08
    case 5 => 0x04
    case 6 => 0x02
    case _ => 0x01
  }

  /** Bit j of a byte, counted from the most significant one. */
  function Bit(b: bv8, j: nat): bool
    requires j < 8
  {
    b & Mask(j) != 0
  }

  function Bits(b: bv8): (s: Polynomial)
    ensures |s| == 8
  {
    seq(8, j requires 0 <= j < 8 => Bit(b, j))
  }

  /** The bits of a byte string, most significant bit first. */
  function AllBits(bytes: seq<bv8>): Polynomial {
    if bytes == [] then [] else Bits(bytes[0]) + AllBits(bytes[1..])
  }

  /** m times x^8 is q times the generator plus r. */
  predicate Divides(m: Polynomial, q: Polynomial, r: bv8) {
    && |q| == |m|
    && m + Zeros(8) == Added(Product(q), Zeros(|m|) + Bits(r))
  }

  // There is only one remainder

  lemma ProductIs(q: Polynomial)
    requires q != []
    ensures var n := |q| - 1;
      Product(q) == Added(Product(q[..n]) + [false], if q[n] then Zeros(n) + Generator() else Zeros(n + 9))
  {
  }

  lemma LeadsAt(n: nat, bit: bool, i: nat)
    requires i <= n
    ensures (if bit then Zeros(n) + Generator() else Zeros(n + 9))[i] == (i == n && bit)
  {
  }

  lemma AddedAt(p: Polynomial, q: Polynomial, i: nat)
    requires |p| == |q| && i < |p|
    ensures Added(p, q)[i] == (p[i] != q[i])
  {
  }

  lemma ProductGrows(q: Polynomial, i: nat)
    requires q != [] && i < |q|
    ensures Product(q)[i] == (Product(q[..|q| - 1])[i] != (i == |q| - 1 && q[i]))
  {
    hide *;
    var n := |q| - 1;
    var p, g := Product(q[..n]), if q[n] then Zeros(n) + Generator() else Zeros(n + 9);
    ProductIs(q);
    LeadsAt(n, q[n], i);
    AddedAt(p + [false], g, i);
    assert (p + [false])[i] == p[i];
    assert Product(q)[i] == (p[i] != g[i]);
  }

  /** The leading coefficients of the product determine the factor. */
  lemma {:induction false} FactorIsUnique(q: Polynomial, q': Polynomial)
    requires |q| == |q'| && forall i | 0 <= i < |q| :: Product(q)[i] == Product(q')[i]
    ensures q == q'
    decreases |q|
  {
    if q != [] {
      hide *;
      var n := |q| - 1;
      var h, h' := q[..n], q'[..n];
      forall i | 0 <= i < n
        ensures Product(h)[i] == Product(h')[i]
      {
        ProductGrows(q, i);
        ProductGrows(q', i);
        assert Product(q)[i] == Product(q')[i];
      }
      FactorIsUnique(h, h');
      ProductGrows(q, n);
      ProductGrows(q', n);
      assert Product(q)[n] == Product(q')[n];
      assert q == h + [q[n]] && q' == h' + [q'[n]];
    }
  }

  /** In terms of coefficients: the product is the message, with the remainder behind it. */
  lemma DividesAt(m: Polynomial, q: Polynomial, r: bv8)
    requires |q| == |m|
    ensures Divides(m, q, r) <==> Product(q) == m + Bits(r)
  {
    var p, e := Product(q), Zeros(|m|) + Bits(r);
    hide Product, Bits;
    if Divides(m, q, r) {
      forall i | 0 <= i < |p|
        ensures p[i] == (m + Bits(r))[i]
      {
        assert (m + Zeros(8))[i] == Added(p, e)[i];
      }
    }
    if p == m + Bits(r) {
      assert m + Zeros(8) == Added(p, e);
    }
  }

  lemma BitsDetermine(r: bv8, r': bv8)
    requires Bits(r) == Bits(r')
    ensures r == r'
  {
    forall j | 0 <= j < 8
      ensures Bit(r, j) == Bit(r', j)
    {
      assert Bits(r)[j] == Bits(r')[j];
    }
    hide Bits;
    assert Bit(r, 0) == Bit(r', 0) && Bit(r, 1) == Bit(r', 1) && Bit(r, 2) == Bit(r', 2);
    assert Bit(r, 3) == Bit(r', 3) && Bit(r, 4) == Bit(r', 4) && Bit(r, 5) == Bit(r', 5);
    assert Bit(r, 6) == Bit(r', 6) && Bit(r, 7) == Bit(r', 7);
  }

  lemma RemainderIsUnique(m: Polynomial, q: Polynomial, r: bv8, q': Polynomial, r': bv8)
    requires Divides(m, q, r) && Divides(m, q', r')
    ensures q == q' && r == r'
  {
    DividesAt(m, q, r);
    DividesAt(m, q', r');
    var (p, p') := (Product(q), Product(q'));
    hide Product, Bits, Divides;
    assert forall i | 0 <= i < |m| :: p[i] == m[i] == p'[i];
    FactorIsUnique(q, q');
    assert p[|m|..] == Bits(r) && p'[|m|..] == Bits(r');
    BitsDetermine(r, r');
  }

  // Bit by bit

  function Top(bit: bool): bv8 { if bit then 0x80 else 0 }

  function Doubled(x: bv8): bv8 { x << 1 }

  lemma ShiftedBit(x: bv8, j: nat)
    requires j < 8
    ensures Bit(Doubled(x), j) == (j < 7 && Bit(x, j + 1))
  {
  }

  lemma MaskAdds(x: bv8, y: bv8, mask: bv8)
    ensures (x ^ y) & mask == (x & mask) ^ (y & mask)
  {
  }

  lemma Apart(a: bv8, b: bv8, mask: bv8)
    requires mask != 0 && (a == 0 || a == mask) && (b == 0 || b == mask)
    ensures a ^ b != 0 <==> (a != 0) != (b != 0)
  {
  }

  lemma OneBit(x: bv8, j: nat)
    requires j < 8
    ensures x & Mask(j) == 0 || x & Mask(j) == Mask(j)
  {
  }

  lemma AddedBit(x: bv8, y: bv8, j: nat)
    requires j < 8
    ensures Bit(Plus(x, y), j) == (Bit(x, j) != Bit(y, j))
  {
    hide Mask;
    OneBit(x, j);
    OneBit(y, j);
    MaskAdds(x, y, Mask(j));
    Apart(x & Mask(j), y & Mask(j), Mask(j));
  }

  /** The generator without its highest power is 7. */
  lemma SevenBit(j: nat)
    requires j < 8
    ensures Bit(0x07, j) == Generator()[j + 1] && !Bit(0, j)
  {
  }

  lemma TopBit(bit: bool, j: nat)
    requires j < 8
    ensures Bit(Top(bit), j) == (j == 0 && bit)
  {
  }

  lemma RoundIs(x: bv8)
    ensures Round(x) == Plus(Doubled(x), if Bit(x, 0) then 0x07 else 0)
  {
  }

  /** One round shifts in the next bit of the message and takes the generator off if it can. */
  lemma RoundBit(r: bv8, bit: bool, j: nat)
    requires j < 8
    ensures var top := Bit(r, 0) != bit;
      Bit(Round(Plus(r, Top(bit))), j) == ((j < 7 && Bit(r, j + 1)) != (top && Generator()[j + 1]))
  {
    hide *;
    var x := Plus(r, Top(bit));
    RoundIs(x);
    AddedBit(r, Top(bit), 0);
    TopBit(bit, 0);
    AddedBit(Doubled(x), if Bit(x, 0) then 0x07 else 0, j);
    ShiftedBit(x, j);
    SevenBit(j);
    if j < 7 {
      AddedBit(r, Top(bit), j + 1);
      TopBit(bit, j + 1);
    }
  }

  /** The register after one more bit of the message. */
  function Shifted(r: bv8, bit: bool): bv8 { Round(Plus(r, Top(bit))) }

  lemma ShiftedIs(r: bv8, bit: bool, j: nat)
    requires j < 8
    ensures var top := Bits(r)[0] != bit;
      Bits(Shifted(r, bit))[j] == ((j < 7 && Bits(r)[j + 1]) != (top && Generator()[j + 1]))
  {
    RoundBit(r, bit, j);
    hide Bit, Round, Plus, Top, Generator;
  }

  lemma LeadsBehind(n: nat, top: bool, j: nat)
    requires j < 8
    ensures (if top then Zeros(n) + Generator() else Zeros(n + 9))[n + 1 + j] == (top && Generator()[j + 1])
  {
  }

  lemma DividesOn(m: Polynomial, q: Polynomial, r: bv8, bit: bool)
    requires Divides(m, q, r)
    ensures Divides(m + [bit], q + [Bits(r)[0] != bit], Shifted(r, bit))
  {
    hide *;
    var n, top := |m|, Bits(r)[0] != bit;
    var q', r' := q + [top], Shifted(r, bit);
    DividesSize(m, q, r);
    DividesAt(m, q, r);
    DividesAt(m + [bit], q', r');
    ProductIs(q');
    assert q'[..n] == q && q'[n] == top;
    var p, g := Product(q) + [false], if top then Zeros(n) + Generator() else Zeros(n + 9);
    var e := m + [bit] + Bits(r');
    forall i | 0 <= i < n + 9
      ensures Product(q')[i] == e[i]
    {
      AddedAt(p, g, i);
      if i <= n {
        LeadsAt(n, top, i);
        assert i < n ==> p[i] == m[i];
        assert i == n ==> p[i] == Bits(r)[0];
      } else {
        var j := i - n - 1;
        ShiftedIs(r, bit, j);
        LeadsBehind(n, top, j);
        assert p[i] == (j < 7 && Bits(r)[j + 1]);
        assert e[i] == Bits(r')[j];
      }
    }
    assert Product(q') == e;
  }

  lemma DividesSize(m: Polynomial, q: Polynomial, r: bv8)
    requires Divides(m, q, r)
    ensures |q| == |m|
  {
  }

  // Byte by byte

  /** The register after more bits of the message. */
  function ShiftedAll(r: bv8, bits: Polynomial): bv8
    decreases |bits|
  {
    if bits == [] then r else ShiftedAll(Shifted(r, bits[0]), bits[1..])
  }

  lemma {:induction false} DividesAll(m: Polynomial, q: Polynomial, r: bv8, bits: Polynomial) returns (q': Polynomial)
    requires Divides(m, q, r)
    ensures Divides(m + bits, q', ShiftedAll(r, bits))
    decreases |bits|
  {
    hide Divides, Shifted, Bits;
    q' := q;
    if bits == [] {
      assert m + bits == m;
    } else {
      DividesOn(m, q, r, bits[0]);
      q' := DividesAll(m + [bits[0]], q + [Bits(r)[0] != bits[0]], Shifted(r, bits[0]), bits[1..]);
      assert m + [bits[0]] + bits[1..] == m + bits;
    }
  }

  /** The top bit of a byte goes where its own round would take the generator off. */
  lemma TopTaken(y: bv8)
    ensures Round(Plus(y, Top(Bit(y, 0)))) == Doubled(y)
  {
  }

  /** While the bits of y are shifted in, the register is the rounds of x and what is left of y. */
  lemma ShiftsIn(x: bv8, y: bv8)
    ensures Shifted(Plus(x, y), Bit(y, 0)) == Plus(Round(x), Doubled(y))
  {
    assert Shifted(Plus(x, y), Bit(y, 0)) == Round(Plus(Plus(x, y), Top(Bit(y, 0))));
    hide *;
    var t := Top(Bit(y, 0));
    PlusAssociative(x, y, t);
    RoundLinear(x, Plus(y, t), Plus(x, Plus(y, t)));
    TopTaken(y);
  }

  /** The first k bits of y. */
  function Leading(y: bv8, k: nat): Polynomial
    requires k <= 8
    decreases k
  {
    if k == 0 then [] else [Bit(y, 0)] + Leading(Doubled(y), k - 1)
  }

  function DoubledTimes(y: bv8, k: nat): bv8
    decreases k
  {
    if k == 0 then y else DoubledTimes(Doubled(y), k - 1)
  }

  lemma {:induction false} RoundsFirst(x: bv8, k: nat)
    ensures Rounds(Round(x), k) == Rounds(x, k + 1)
  {
    hide Round;
    if k > 0 {
      RoundsFirst(x, k - 1);
    }
  }

  lemma {:induction false} ShiftsInAll(x: bv8, y: bv8, k: nat)
    requires k <= 8
    ensures ShiftedAll(Plus(x, y), Leading(y, k)) == Plus(Rounds(x, k), DoubledTimes(y, k))
    decreases k
  {
    hide Round, Plus, Shifted, Doubled, Bit;
    if k > 0 {
      ShiftsIn(x, y);
      RoundsFirst(x, k - 1);
      var bits := Leading(y, k);
      assert bits[0] == Bit(y, 0) && bits[1..] == Leading(Doubled(y), k - 1);
      ShiftsInAll(Round(x), Doubled(y), k - 1);
    }
  }

  lemma {:induction false} LeadingIs(y: bv8, k: nat, j: nat)
    requires j < k <= 8
    ensures |Leading(y, k)| == k && Leading(y, k)[j] == Bit(DoubledTimes(y, j), 0)
    decreases k
  {
    hide Bit, Doubled;
    if k > 1 {
      LeadingIs(Doubled(y), k - 1, if j > 0 then j - 1 else 0);
    }
  }

  lemma {:induction false} DoubledBit(y: bv8, j: nat, i: nat)
    requires i + j < 8
    ensures Bit(DoubledTimes(y, j), i) == Bit(y, i + j)
    decreases j
  {
    if j > 0 {
      ShiftedBit(y, i + j - 1);
      hide Bit, Doubled;
      DoubledBit(Doubled(y), j - 1, i);
    }
  }

  lemma AllLeading(y: bv8)
    ensures Leading(y, 8) == Bits(y)
  {
    hide Bit, Doubled, DoubledTimes;
    forall j | 0 <= j < 8
      ensures |Leading(y, 8)| == 8 && Leading(y, 8)[j] == Bits(y)[j]
    {
      LeadingIs(y, 8, j);
      DoubledBit(y, j, 0);
    }
    hide Leading;
    LeadingIs(y, 8, 0);
  }

  lemma NothingStays(y: bv8)
    ensures DoubledTimes(y, 8) == 0
  {
    var two := Doubled(Doubled(y));
    var four := Doubled(Doubled(two));
    var six := Doubled(Doubled(four));
    DoubledTwice(y, 6);
    DoubledTwice(two, 4);
    DoubledTwice(four, 2);
    DoubledTwice(six, 0);
    DoubledTwice(Doubled(Doubled(six)), 0);
    hide DoubledTimes;
    assert DoubledTimes(y, 8) == Doubled(Doubled(six));
  }

  lemma DoubledTwice(y: bv8, k: nat)
    ensures DoubledTimes(y, k + 2) == DoubledTimes(Doubled(Doubled(y)), k)
    ensures DoubledTimes(y, 0) == y
  {
    hide Doubled;
    assert DoubledTimes(y, k + 2) == DoubledTimes(Doubled(y), k + 1);
  }

  /** Eight bits are one byte step. */
  lemma ByteIsShifted(r: bv8, y: bv8)
    ensures ShiftedAll(r, Bits(y)) == ByteStep(Plus(r, y))
  {
    hide *;
    var x := Plus(r, y);
    assert Plus(x, y) == r by { PlusTwice(r, y); }
    AllLeading(y);
    ShiftsInAll(x, y, 8);
    NothingStays(y);
    PlusZero(Rounds(x, 8));
    RoundsAreByteStep(x);
  }

  lemma PlusTwice(x: bv8, y: bv8)
    ensures Plus(Plus(x, y), y) == x
  {
  }

  lemma {:induction false} DividesBytes(m: Polynomial, q: Polynomial, r: bv8, bytes: seq<bv8>) returns (q': Polynomial)
    requires Divides(m, q, r)
    ensures Divides(m + AllBits(bytes), q', Fold(r, bytes))
    decreases |bytes|
  {
    hide Divides, ShiftedAll, Bits, ByteStep, Plus;
    q' := q;
    if bytes == [] {
      assert m + [] == m;
    } else {
      ByteIsShifted(r, bytes[0]);
      var q1 := DividesAll(m, q, r, Bits(bytes[0]));
      q' := DividesBytes(m + Bits(bytes[0]), q1, ByteStep(Plus(r, bytes[0])), bytes[1..]);
      assert m + Bits(bytes[0]) + AllBits(bytes[1..]) == m + AllBits(bytes);
    }
  }

  lemma NothingDivides()
    ensures Divides([], [], 0)
  {
    forall j | 0 <= j < 8
      ensures !Bit(0, j)
    {
      SevenBit(j);
    }
    hide Bit;
  }

  /** The CRC of a byte string, begun with zero, is its remainder; there is no other. */
  lemma CrcIsRemainder(bytes: seq<bv8>, r: bv8)
    ensures r == Fold(0, bytes) <==> exists q :: Divides(AllBits(bytes), q, r)
  {
    hide Fold, Bits;
    NothingDivides();
    var q0 := DividesBytes([], [], 0, bytes);
    assert [] + AllBits(bytes) == AllBits(bytes);
    hide Divides, AllBits;
    if q :| Divides(AllBits(bytes), q, r) {
      RemainderIsUnique(AllBits(bytes), q, r, q0, Fold(0, bytes));
    }
  }
}
