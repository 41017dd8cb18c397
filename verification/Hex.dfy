/** Hexadecimal numbers of the serial protocol, without leading zeros. */
module Hex {
  predicate IsHexDigit(c: bv8) { (0x30 <= c && c <= 0x39) || (0x61 <= c && c <= 0x66) }

  function Char2Nibble(c: bv8): bv8 {
    if 0x30 <= c && c <= 0x39 then c - 0x30
    else if 0x61 <= c && c <= 0x66 then c - 0x61 + 10
    else 0
  }

  function Nibble2Char(n: bv8): bv8 {
    if n <= 9 then n + 0x30
    else if n <= 15 then n - 10 + 0x61
    else 0
  }

  lemma NibbleReads(n: bv8)
    requires n < 16
    ensures IsHexDigit(Nibble2Char(n)) && Char2Nibble(Nibble2Char(n)) == n
  {
  }

  predicate AllHex(s: seq<bv8>) { forall c | c in s :: IsHexDigit(c) }

  /** The next digit of an 8-bit number; earlier digits fall out at the top. */
  function Digit8(v: bv8, c: bv8): bv8 { (v << 4) | Char2Nibble(c) }

  function Digit16(v: bv16, c: bv8): bv16 { (v << 4) | (Char2Nibble(c) as bv16) }

  function Read8(v: bv8, s: seq<bv8>): bv8
    decreases |s|
  {
    if s == [] then v else Read8(Digit8(v, s[0]), s[1..])
  }

  function Read16(v: bv16, s: seq<bv8>): bv16
    decreases |s|
  {
    if s == [] then v else Read16(Digit16(v, s[0]), s[1..])
  }

  /** A word without its last j nibbles. */
  function Upper(v: bv16, j: nat): bv16
    requires j <= 4
  {
    match j
    case 0 => v
    case 1 => v >> 4
    case 2 => v >> 8
    case 3 => v >> 12
    case _ => 0
  }

  /** The nibble of a word that has j nibbles behind it. */
  function Nibble(v: bv16, j: nat): (n: bv8)
    requires j < 4
    ensures n < 16
  {
    (Upper(v, j) & 0xf) as bv8
  }

  /** UInt8ToHex. */
  function Hex8(v: bv8): (s: seq<bv8>)
    ensures 1 <= |s| <= 2
  {
    if v >> 4 != 0 then [Nibble2Char(v >> 4), Nibble2Char(v & 0xf)] else [Nibble2Char(v & 0xf)]
  }

  /** The number of digits of a word. */
  function Length16(v: bv16): (n: nat)
    ensures 1 <= n <= 4
  {
    if v >> 12 != 0 then 4 else if v >> 8 != 0 then 3 else if v >> 4 != 0 then 2 else 1
  }

  /** UInt16ToHex. */
  function Hex16(v: bv16): (s: seq<bv8>)
    ensures |s| == Length16(v)
  {
    var n := Length16(v);
    seq(n, i requires 0 <= i < n => Nibble2Char(Nibble(v, n - 1 - i)))
  }

  lemma Read8Two(v: bv8, a: bv8, b: bv8)
    ensures Read8(v, [a]) == Digit8(v, a)
    ensures Read8(v, [a, b]) == Digit8(Digit8(v, a), b)
  {
    hide Digit8;
    assert [a][1..] == [] && [a, b][1..] == [b] && [b][1..] == [];
    assert Read8(Digit8(v, a), [b]) == Digit8(Digit8(v, a), b);
  }

  /** Printed without leading zeros, read back unchanged. */
  lemma Hex8RoundTrip(v: bv8)
    ensures AllHex(Hex8(v)) && Read8(0, Hex8(v)) == v
    ensures Hex8(v)[0] == 0x30 ==> |Hex8(v)| == 1
  {
    hide Read8, Char2Nibble;
    NibbleReads(v >> 4);
    NibbleReads(v & 0xf);
    Read8Two(0, Nibble2Char(v >> 4), Nibble2Char(v & 0xf));
    Read8Two(0, Nibble2Char(v & 0xf), 0);
  }

  lemma {:induction false} Read16Last(v: bv16, s: seq<bv8>, c: bv8)
    ensures Read16(v, s + [c]) == Digit16(Read16(v, s), c)
    decreases |s|
  {
    hide Digit16;
    if s == [] {
      assert [c][1..] == [];
      assert (s + [c])[1..] == [];
      assert Read16(Digit16(v, c), []) == Digit16(v, c);
    } else {
      assert (s + [c])[1..] == s[1..] + [c];
      Read16Last(Digit16(v, s[0]), s[1..], c);
    }
  }

  /** The first digits of a word read as the word without its last nibbles. */
  lemma {:induction false} PrefixReads(v: bv16, n: nat, k: nat)
    requires n == Length16(v) && k <= n
    ensures Read16(0, Hex16(v)[..k]) == Upper(v, n - k)
    decreases k
  {
    hide Nibble2Char, Upper, Nibble, Length16, Digit16;
    if k == 0 {
      assert Hex16(v)[..0] == [];
      TopIsZero(v);
    } else {
      PrefixReads(v, n, k - 1);
      var c := Hex16(v)[k - 1];
      assert Hex16(v)[..k] == Hex16(v)[..k - 1] + [c];
      Read16Last(0, Hex16(v)[..k - 1], c);
      NextNibble(v, n - k);
    }
  }

  /** The first digit printed is the first one that is not zero. */
  lemma TopIsZero(v: bv16)
    ensures Upper(v, Length16(v)) == 0
    ensures Length16(v) > 1 ==> Nibble(v, Length16(v) - 1) != 0
  {
  }

  lemma NextNibble(v: bv16, j: nat)
    requires j < 4
    ensures Digit16(Upper(v, j + 1), Nibble2Char(Nibble(v, j))) == Upper(v, j)
  {
    NibbleReads(Nibble(v, j));
    UpperShifts(v, j);
    hide Nibble2Char, Char2Nibble, Upper;
    JoinNibble(Upper(v, j));
  }

  lemma UpperShifts(v: bv16, j: nat)
    requires j < 4
    ensures Upper(v, j + 1) == Upper(v, j) >> 4
  {
    match j
    case 0 =>
    case 1 => assert (v >> 4) >> 4 == v >> 8;
    case 2 => assert (v >> 8) >> 4 == v >> 12;
    case 3 => assert (v >> 12) >> 4 == 0;
  }

  lemma JoinNibble(x: bv16)
    ensures ((x >> 4) << 4) | (((x & 0xf) as bv8) as bv16) == x
  {
    assert ((x & 0xf) as bv8) as bv16 == x & 0xf;
    assert ((x >> 4) << 4) | (x & 0xf) == x;
  }

  lemma DigitIsZero(n: bv8)
    requires n < 16
    ensures IsHexDigit(Nibble2Char(n)) && (Nibble2Char(n) == 0x30 ==> n == 0)
  {
  }

  lemma Hex16RoundTrip(v: bv16)
    ensures AllHex(Hex16(v)) && Read16(0, Hex16(v)) == v
    ensures Hex16(v)[0] == 0x30 ==> |Hex16(v)| == 1
  {
    var n := Length16(v);
    PrefixReads(v, n, n);
    TopIsZero(v);
    assert Hex16(v)[..n] == Hex16(v);
    hide Nibble2Char, Nibble, Length16, Read16, IsHexDigit;
    forall i | 0 <= i < n
      ensures IsHexDigit(Hex16(v)[i])
    {
      DigitIsZero(Nibble(v, n - 1 - i));
    }
    DigitIsZero(Nibble(v, n - 1));
  }
}
