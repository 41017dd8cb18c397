/**
The drive error counter: a high byte, and a low byte that alternates between two cells so
that each of them is written only at every other increment. All three cells store their
value minus one, so erased cells read as zero.
*/
module DriveErrors {
  import opened Machine

  datatype Counter = Counter(high: Byte, low: seq<Byte>)

  predicate WellFormed(c: Counter) { |c.low| == 2 }

  const ERASED := Counter(0xff, [0xff, 0xff])

  function GetHigh(c: Counter): Byte { Inc8(c.high) }

  function GetLow(c: Counter): Byte
    requires WellFormed(c)
  {
    if c.low[0] == 0xff && c.low[1] == 0 then 1
    else if c.low[0] > c.low[1] then Inc8(c.low[0])
    else Inc8(c.low[1])
  }

  function Count(c: Counter): U16
    requires WellFormed(c)
  {
    GetHigh(c) * 0x100 + GetLow(c)
  }

  function SetLow(c: Counter, b: Byte): (r: Counter)
    requires WellFormed(c)
    ensures WellFormed(r)
  {
    c.(low := c.low[b % 2 := Dec8(b)])
  }

  function SetHigh(c: Counter, b: Byte): Counter { c.(high := Dec8(b)) }

  function AfterIncrement(c: Counter): (r: Counter)
    requires WellFormed(c)
    ensures WellFormed(r)
  {
    var errors := Count(c);
    if errors < 0xffff then SetHigh(SetLow(c, Wrap8(errors + 1)), (errors + 1) / 0x100) else c
  }

  function Incremented(n: nat): (c: Counter)
    ensures WellFormed(c)
  {
    if n == 0 then ERASED else AfterIncrement(Incremented(n - 1))
  }

  /** The cells after n increments below saturation: the last two low bytes, each minus one. */
  function Cells(n: nat): Counter
    requires n <= 0xffff
  {
    var high, r: Byte := n / 0x100, n % 0x100;
    var last, previous := Dec8(r), if n == 0 then 0xff else Dec8(Dec8(r));
    Counter(Dec8(high), if r % 2 == 0 then [last, previous] else [previous, last])
  }

  lemma CellsRead(n: nat)
    requires n <= 0xffff
    ensures WellFormed(Cells(n)) && Count(Cells(n)) == n
  {
  }

  /** Low and high byte of the next count. */
  lemma NextBytes(n: nat)
    ensures (n + 1) % 0x100 == Inc8(n % 0x100)
    ensures (n + 1) / 0x100 == n / 0x100 + if n % 0x100 == 0xff then 1 else 0
    ensures Inc8(n % 0x100) % 2 != (n % 0x100) % 2
  {
  }

  lemma CellsNext(n: nat)
    requires n < 0xffff
    ensures AfterIncrement(Cells(n)) == Cells(n + 1)
  {
    CellsRead(n);
    NextBytes(n);
    var c, r, r': Byte := Cells(n), n % 0x100, (n + 1) % 0x100;
    hide Count;
    assert AfterIncrement(c) == SetHigh(SetLow(c, r'), (n + 1) / 0x100);
    hide AfterIncrement;
    assert Dec8(r') == r;
    assert c.low[1 - r' % 2] == Dec8(r);
  }

  lemma {:induction false} IncrementedIs(n: nat)
    ensures Incremented(n) == Cells(Min(n, 0xffff))
  {
    if n > 0 {
      IncrementedIs(n - 1);
      if n <= 0xffff {
        CellsNext(n - 1);
      } else {
        CellsRead(0xffff);
      }
    }
  }

  /** The counter counts through every wrap of its low byte and then stays at its maximum. */
  lemma CountsUpToMaximum(n: nat)
    ensures Count(Incremented(n)) == Min(n, 0xffff)
  {
    IncrementedIs(n);
    CellsRead(Min(n, 0xffff));
  }

  lemma LowReads(c: Counter, b: Byte)
    requires WellFormed(c) && c.low[b % 2] == Dec8(b) && c.low[1 - b % 2] == Dec8(Dec8(b))
    ensures GetLow(c) == b
  {
  }

  /**
  Power lost between the two writes of an increment: the new count is read unless the low
  byte wraps just then, in which case the count falls back by 255.
  */
  lemma CutIncrement(n: nat)
    requires n < 0xffff
    ensures var cut := SetLow(Incremented(n), Wrap8(n + 1));
      Count(cut) == if (n + 1) % 0x100 != 0 then n + 1 else n - 0xff
  {
    IncrementedIs(n);
    NextBytes(n);
    var c, r, r': Byte := Cells(n), n % 0x100, (n + 1) % 0x100;
    assert c.low[1 - r' % 2] == Dec8(Dec8(r'));
    LowReads(SetLow(c, r'), r');
    hide GetLow;
  }

  class DriveError {
    var high: Byte
    const low: array<Byte>

    ghost predicate Valid() { low.Length == 2 }

    ghost function Contents(): (c: Counter)
      requires Valid()
      reads this, low
      ensures WellFormed(c)
    {
      Counter(high, low[..])
    }

    constructor ()
      ensures Valid() && Contents() == ERASED && fresh(low)
    {
      high := 0xff;
      low := new Byte[2](_ => 0xff);
    }

    method Get() returns (errors: U16)
      requires Valid()
      ensures errors == Count(Contents())
    {
      var first, second := low[0], low[1];
      var lowByte;
      if 0xff == first && 0 == second {
        lowByte := 1;
      } else if first > second {
        lowByte := Inc8(first);
      } else {
        lowByte := Inc8(second);
      }
      errors := Inc8(high) * 0x100 + lowByte;
    }

    method Increment()
      requires Valid()
      modifies this, low
      ensures Valid() && Contents() == AfterIncrement(old(Contents()))
      ensures forall n: nat | old(Contents()) == Incremented(n) ::
        Contents() == Incremented(n + 1)
    {
      var errors := Get();
      if errors < 0xffff {
        errors := errors + 1;
        var lowByte := Wrap8(errors);
        low[lowByte % 2] := Dec8(lowByte);
        high := Dec8(errors / 0x100);
      }
    }
  }
}
