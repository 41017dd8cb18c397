/**
The circular index shared between the main loop and the stepping interrupt, for every
capacity a byte cursor allows, and the buffer built on it.
*/
module Ring {
  import opened Machine
  import opened Arithmetic

  /** Capacities accepted by the static assertion on the index type. */
  type Size = n: int | 1 <= n <= 127 witness 1

  predicate IsPower2(size: Size) {
    (size as bv8) & ((size - 1) as bv8) == 0
  }

  /** Cursors run modulo this number: the byte wraps by itself or at twice the size. */
  function Modulus(size: Size): nat {
    if IsPower2(size) then 0x100 else 2 * size
  }

  lemma PowersOf2(x: bv8)
    requires 1 <= x <= 127 && x & (x - 1) == 0
    ensures x == 1 || x == 2 || x == 4 || x == 8 || x == 16 || x == 32 || x == 64
  {
  }

  /** Both moduli are multiples of the size, and at least twice the size. */
  lemma ModulusIsMultiple(size: Size) returns (q: nat)
    ensures Modulus(size) == size * q && q >= 2
  {
    if IsPower2(size) {
      Power2Is(size);
      q := 0x100 / size;
    } else {
      q := 2;
    }
    hide IsPower2;
  }

  lemma Power2Is(size: Size)
    requires IsPower2(size)
    ensures size in {1, 2, 4, 8, 16, 32, 64}
  {
    PowersOf2(size as bv8);
  }

  /** The cursor after c, as each of the two arithmetics computes it. */
  function Next(size: Size, c: Byte): Byte {
    if IsPower2(size) then Inc8(c) else (c + 1) % (size * 2)
  }

  /** The array slot of a cursor. */
  function Mask(size: Size, c: Byte): nat { c % size }

  datatype CircularIndex = CircularIndex(tail: Byte, head: Byte) {
    predicate Empty() { tail == head }

    function Count(size: Size): int {
      if IsPower2(size) then Wrap8(head - tail)
      else if head >= tail then head - tail
      else (size * 2 + head) - tail
    }

    predicate Full(size: Size) { Count(size) == size }

    function Reset(): CircularIndex { this.(head := tail) }

    function Push(size: Size): CircularIndex { this.(head := Next(size, head)) }

    function Pop(size: Size): CircularIndex { this.(tail := Next(size, tail)) }

    function Front(size: Size): nat { Mask(size, tail) }

    function Back(size: Size): nat { Mask(size, head) }

    predicate Valid(size: Size) {
      tail < Modulus(size) && head < Modulus(size) && 0 <= Count(size) <= size
    }

    /** The slots in use, oldest first. */
    function Slots(size: Size): (slots: seq<nat>)
      requires Valid(size)
      ensures |slots| == Count(size)
      ensures forall i | 0 <= i < |slots| :: slots[i] < size
    {
      seq(Count(size), i => (tail + i) % size)
    }
  }

  const EMPTY := CircularIndex(0, 0)

  // The cursors as numbers modulo the size

  /** The next cursor is one further, or wraps to zero at the modulus. */
  lemma NextIs(size: Size, c: Byte)
    requires c < Modulus(size)
    ensures Next(size, c) == if c + 1 == Modulus(size) then 0 else c + 1
  {
    if !IsPower2(size) {
      var q := if c + 1 == size * 2 then 1 else 0;
      ModUnique(c + 1, size * 2, q, c + 1 - size * 2 * q);
    }
  }

  /** The number of elements is the distance from tail to head, around the modulus. */
  lemma CountIs(size: Size, ix: CircularIndex)
    requires ix.tail < Modulus(size) && ix.head < Modulus(size)
    ensures ix.Count(size) == ix.head - ix.tail + if ix.head < ix.tail then Modulus(size) else 0
  {
  }

  /** The slot behind the last live one is the one the head cursor points at. */
  lemma BackIs(size: Size, ix: CircularIndex)
    requires ix.Valid(size)
    ensures ix.Back(size) == (ix.tail + ix.Count(size)) % size
  {
    CountIs(size, ix);
    var q := ModulusIsMultiple(size);
    ModShift(ix.head, size, q);
  }

  /** The live slots are distinct, and a slot about to be filled is none of them. */
  lemma LiveSlotsDistinct(size: Size, ix: CircularIndex)
    requires ix.Valid(size)
    ensures forall i, j | 0 <= i < j < ix.Count(size) :: ix.Slots(size)[i] != ix.Slots(size)[j]
    ensures !ix.Full(size) ==> ix.Back(size) !in ix.Slots(size)
  {
    forall i, j | 0 <= i < j < ix.Count(size)
      ensures ix.Slots(size)[i] != ix.Slots(size)[j]
    {
      RemaindersDiffer(ix.tail + i, ix.tail + j, size);
    }
    BackIs(size, ix);
    if !ix.Full(size) {
      forall i | 0 <= i < ix.Count(size)
        ensures ix.Slots(size)[i] != ix.Back(size)
      {
        RemaindersDiffer(ix.tail + i, ix.tail + ix.Count(size), size);
      }
    }
  }

  /** Push appends the back slot to the live ones. */
  lemma PushAppends(size: Size, ix: CircularIndex)
    requires ix.Valid(size) && !ix.Full(size)
    ensures ix.Push(size).Valid(size)
    ensures ix.Push(size).Slots(size) == ix.Slots(size) + [ix.Back(size)]
  {
    CountIs(size, ix);
    NextIs(size, ix.head);
    var q := ModulusIsMultiple(size);
    CountIs(size, ix.Push(size));
    BackIs(size, ix);
    assert ix.Push(size).Count(size) == ix.Count(size) + 1;
  }

  /** Pop drops the front slot. */
  lemma PopDrops(size: Size, ix: CircularIndex)
    requires ix.Valid(size) && !ix.Empty()
    ensures ix.Count(size) >= 1 && ix.Front(size) == ix.Slots(size)[0]
    ensures ix.Pop(size).Valid(size)
    ensures ix.Pop(size).Slots(size) == ix.Slots(size)[1..]
  {
    CountIs(size, ix);
    NextIs(size, ix.tail);
    var q := ModulusIsMultiple(size);
    CountIs(size, ix.Pop(size));
    var n := ix.Count(size);
    assert ix.Pop(size).Count(size) == n - 1;
    forall i | 0 <= i < n - 1
      ensures ix.Pop(size).Slots(size)[i] == ix.Slots(size)[i + 1]
    {
      ModShift(ix.Pop(size).tail + i, size, q);
    }
  }

  lemma EmptyIs(size: Size, ix: CircularIndex)
    requires ix.Valid(size)
    ensures ix.Empty() <==> ix.Slots(size) == []
    ensures ix.Reset().Valid(size) && ix.Reset().Slots(size) == []
    ensures EMPTY.Valid(size) && EMPTY.Slots(size) == []
  {
    CountIs(size, ix);
    CountIs(size, ix.Reset());
  }

  /** A bounded queue of at most `size` elements. */
  class CircularBuffer<T(0)> {
    const size: Size
    const data: array<T>
    var index: CircularIndex

    ghost predicate Valid()
      reads this
    {
      data.Length == size && index.Valid(size)
    }

    ghost function Contents(): (s: seq<T>)
      requires Valid()
      reads this, data
    {
      var slots := index.Slots(size);
      seq(|slots|, i requires 0 <= i < |slots| reads data => data[slots[i]])
    }

    constructor (size: Size)
      ensures Valid() && Contents() == [] && this.size == size && fresh(data)
    {
      this.size := size;
      data := new T[size];
      index := EMPTY;
    }

    method Empty() returns (b: bool)
      requires Valid()
      ensures b <==> Contents() == []
    {
      EmptyIs(size, index);
      b := index.Empty();
    }

    method Full() returns (b: bool)
      requires Valid()
      ensures b <==> |Contents()| == size
    {
      b := index.Full(size);
    }

    method Count() returns (n: nat)
      requires Valid()
      ensures n == |Contents()|
    {
      n := index.Count(size);
    }

    method Reset()
      requires Valid()
      modifies this
      ensures Valid() && Contents() == []
    {
      EmptyIs(size, index);
      index := index.Reset();
    }

    method Push(elem: T) returns (ok: bool)
      requires Valid()
      modifies this, data
      ensures Valid()
      ensures ok <==> |old(Contents())| < size
      ensures Contents() == if ok then old(Contents()) + [elem] else old(Contents())
    {
      if index.Full(size) {
        return false;
      }
      LiveSlotsDistinct(size, index);
      PushAppends(size, index);
      data[index.Back(size)] := elem;
      index := index.Push(size);
      return true;
    }

    method Front() returns (elem: T)
      requires Valid() && Contents() != []
      ensures elem == Contents()[0]
    {
      EmptyIs(size, index);
      PopDrops(size, index);
      elem := data[index.Front(size)];
    }

    method Pop(last: T) returns (ok: bool, elem: T)
      requires Valid()
      modifies this
      ensures Valid()
      ensures ok <==> old(Contents()) != []
      ensures if ok then elem == old(Contents())[0] && Contents() == old(Contents())[1..]
              else elem == last && Contents() == []
    {
      EmptyIs(size, index);
      if index.Empty() {
        return false, last;
      }
      PopDrops(size, index);
      elem := Front();
      index := index.Pop(size);
      ok := true;
    }
  }
}
