/**
The wear-levelled log that keeps one 4-bit value in N data cells and three status cells.

A data cell holds a key in its top nibble and a value in its bottom nibble. The log is
written in sweeps: the keys 0 and 2 (KeyFront1, KeyFront2) sweep the cells upwards, the keys
1 and 3 (KeyReverse1, KeyReverse2) downwards. The key of the current sweep is the majority
of the status cells. This module states the operations as functions on EEPROM images.
*/
module FilamentLog {
  import opened Machine

  const BLANK: Byte := 0xff
  const TOOL_COUNT := 5
  const TRIES: nat := 3

  datatype Cell = Status(i: nat) | Data(i: nat)

  /** An EEPROM image. A bad cell ignores every write; `wear` counts the physical writes. */
  datatype Image = Image(
    status: seq<Byte>,
    data: seq<Byte>,
    badStatus: Option<nat>,
    badData: Option<nat>,
    wear: multiset<Cell>)
  {
    predicate Valid() {
      && |status| == 3
      && |data| >= 1
      && (badStatus.Some? ==> badStatus.value < 3)
      && (badData.Some? ==> badData.value < |data|)
    }
  }

  type Store = s: Image | s.Valid()
    witness Image([BLANK, BLANK, BLANK], [BLANK], None, None, multiset{})

  predicate Holds(st: Store, c: Cell) {
    match c
    case Status(i) => i < 3
    case Data(i) => i < |st.data|
  }

  function Read(st: Store, c: Cell): Byte
    requires Holds(st, c)
  {
    match c
    case Status(i) => st.status[i]
    case Data(i) => st.data[i]
  }

  /** Same cells, same bad cells, and the bad cells still hold what they are stuck at. */
  predicate SameHardware(st: Store, r: Store) {
    && |r.data| == |st.data|
    && r.badStatus == st.badStatus
    && r.badData == st.badData
    && (st.badStatus.Some? ==> r.status[st.badStatus.value] == st.status[st.badStatus.value])
    && (st.badData.Some? ==> r.data[st.badData.value] == st.data[st.badData.value])
  }

  lemma SameSize(a: Store, b: Store)
    requires SameHardware(a, b)
    ensures |a.data| == |b.data|
  {
  }

  lemma SameTwice(a: Store, b: Store, c: Store)
    requires SameHardware(a, b) && SameHardware(b, c)
    ensures SameHardware(a, c)
  {
  }

  /** Images of one and the same hardware. */
  predicate Alike(st: Store, images: seq<Store>) {
    forall i | 0 <= i < |images| :: SameHardware(st, images[i])
  }

  lemma AlikeConcat(st: Store, a: seq<Store>, c: Store, b: seq<Store>)
    requires Alike(st, a) && SameHardware(st, c) && Alike(c, b)
    ensures Alike(st, a + b)
  {
    hide SameHardware;
    forall i | 0 <= i < |b|
      ensures SameHardware(st, b[i])
    {
      SameTwice(st, c, b[i]);
    }
  }

  lemma AlikeOne(st: Store, c: Store)
    requires SameHardware(st, c)
    ensures Alike(st, [c]) && SameHardware(st, st)
  {
  }

  /** One atomic byte update: no physical write when the byte is already there. */
  function Update(st: Store, c: Cell, v: Byte): (r: Store)
    requires Holds(st, c)
    ensures SameHardware(st, r)
  {
    match c
    case Status(i) =>
      if st.badStatus == Some(i) || st.status[i] == v then st
      else st.(status := st.status[i := v], wear := st.wear + multiset{c})
    case Data(i) =>
      if st.badData == Some(i) || st.data[i] == v then st
      else st.(data := st.data[i := v], wear := st.wear + multiset{c})
  }

  predicate IsKey(k: Byte) { k < 4 }

  predicate Front(k: Byte) { k == 0 || k == 2 }

  /** The single-argument getNext. */
  function NextKey(k: Byte): Byte {
    if k == 0 then 1
    else if k == 1 then 2
    else if k == 2 then 3
    else 0
  }

  function Tag(b: Byte): Byte { b / 16 }

  /** The array index of position p of the sweep with key k, and back again. */
  function Slot(n: nat, k: Byte, p: int): int {
    if Front(k) then p else n - 1 - p
  }

  /** The key found at position p of sweep k. */
  function TagAt(data: seq<Byte>, k: Byte, p: nat): Byte
    requires p < |data|
  {
    Tag(data[Slot(|data|, k, p)])
  }

  /** getStatus: two of three votes. */
  function GetStatus(st: Store): (k: Byte)
    ensures forall i, j | 0 <= i < j < 3 && st.status[i] == st.status[j] :: k == st.status[i]
    ensures (forall i, j | 0 <= i < j < 3 :: st.status[i] != st.status[j]) ==> k == BLANK
  {
    if st.status[0] == st.status[1] then st.status[0]
    else if st.status[0] == st.status[2] then st.status[0]
    else if st.status[1] == st.status[2] then st.status[1]
    else BLANK
  }

  /** The end of the longest run of cells carrying key k from position p of sweep k. */
  function RunFrom(data: seq<Byte>, k: Byte, p: nat): (r: nat)
    requires p <= |data|
    ensures p <= r <= |data|
    ensures forall q | p <= q < r :: TagAt(data, k, q) == k
    ensures r < |data| ==> TagAt(data, k, r) != k
    decreases |data| - p
  {
    if p < |data| && TagAt(data, k, p) == k then RunFrom(data, k, p + 1) else p
  }

  /** The number of cells already written in sweep k, as the scan rediscovers it. */
  function Run(data: seq<Byte>, k: Byte): (r: nat)
    ensures r <= |data|
  {
    RunFrom(data, k, 0)
  }

  /** getIndex: the cell written last, one cell before the sweep when there is none. */
  function GetIndex(st: Store): int {
    var k := GetStatus(st);
    if IsKey(k) then Slot(|st.data|, k, Run(st.data, k) - 1) else -1
  }

  /** get: None stands for the false result. */
  function Get(st: Store): Option<Byte> {
    var index := GetIndex(st);
    if index < 0 || index >= |st.data| then None
    else
      var raw := st.data[index];
      var k := GetStatus(st);
      if raw % 16 >= TOOL_COUNT || !IsKey(k) || Tag(raw) != k then None
      else Some(raw % 16)
  }

  /** Key and sweep position of the next write: what getNext makes of getStatus and getIndex. */
  function Target(st: Store): (t: (Byte, nat))
    ensures IsKey(t.0) && t.1 < |st.data|
  {
    var k := GetStatus(st);
    if !IsKey(k) then (0, 0)
    else if Run(st.data, k) < |st.data| then (k, Run(st.data, k))
    else (NextKey(k), 0)
  }

  /**
  The two-argument getNext: the cell after `index` in the direction of key k, the first cell of
  the next sweep if there is none, and the very first cell if k is no key.
  */
  function NextCell(n: nat, k: Byte, index: int): (Byte, int) {
    var p := Slot(n, k, index) + 1;
    if !IsKey(k) then (0, 0)
    else if 0 <= p < n then (k, Slot(n, k, p))
    else (NextKey(k), Slot(n, NextKey(k), 0))
  }

  /** From the cell written last it is the target of the next write. */
  lemma NextCellIsTarget(st: Store)
    ensures var (k, p) := Target(st);
      NextCell(|st.data|, GetStatus(st), GetIndex(st)) == (k, Slot(|st.data|, k, p))
  {
  }

  /** The images after each byte update of setStatus. */
  function StatusTrace(st: Store, k: Byte): (t: seq<Store>)
    ensures |t| == 3 && Alike(st, t) && SameHardware(st, t[2])
  {
    var s0 := Update(st, Status(0), k);
    var s1 := Update(s0, Status(1), k);
    var s2 := Update(s1, Status(2), k);
    [s0, s1, s2]
  }

  function Raw(k: Byte, v: Byte): Byte
    requires IsKey(k)
  {
    k * 16 + v % 16
  }

  /** What set did: its result and the image after every byte update it made. */
  datatype Outcome = Outcome(ok: bool, trace: seq<Store>)

  function Final(st: Store, trace: seq<Store>): Store {
    if trace == [] then st else trace[|trace| - 1]
  }

  /** One pass of the loop of set up to its read-back test. */
  function WriteTrace(st: Store, v: Byte): (t: seq<Store>)
    ensures |t| == 4 && Alike(st, t)
  {
    var (k, p) := Target(st);
    var s := StatusTrace(st, k);
    s + [Update(s[2], Data(Slot(|st.data|, k, p)), Raw(k, v))]
  }

  /** One pass of the loop of set: its result, None when the loop goes on, and its updates. */
  datatype Pass = Pass(result: Option<bool>, trace: seq<Store>)

  function OnePass(st: Store, v: Byte): (r: Pass)
    ensures r.trace != [] && Alike(st, r.trace)
  {
    hide SameHardware, Alike, GetStatus, Run, RunFrom, NextKey;
    var (k, p) := Target(st);
    var s := StatusTrace(st, k);
    SameSize(st, s[2]);
    var c := Update(s[2], Data(Slot(|st.data|, k, p)), Raw(k, v));
    SameTwice(st, s[2], c);
    SameSize(st, c);
    AlikeOne(st, c);
    AlikeConcat(st, s, st, [c]);
    if GetStatus(s[2]) != k then Pass(Some(false), s)
    else if c.data[Slot(|st.data|, k, p)] == Raw(k, v) then Pass(Some(true), s + [c])
    else
      var next := StatusTrace(c, NextKey(k));
      AlikeConcat(st, s + [c], c, next);
      Pass(if GetStatus(next[2]) != NextKey(k) then Some(false) else None, s + [c] + next)
  }

  /** set with at most `tries` passes left. */
  function SetFrom(st: Store, v: Byte, tries: nat): (r: Outcome)
    ensures Alike(st, r.trace)
    decreases tries
  {
    if tries == 0 then Outcome(false, [])
    else
      var pass := OnePass(st, v);
      if pass.result.Some? then Outcome(pass.result.value, pass.trace)
      else
        var rest := SetFrom(Final(st, pass.trace), v, tries - 1);
        Outcome(rest.ok, pass.trace + rest.trace)
  }

  lemma NoPass(st: Store, v: Byte)
    ensures SetFrom(st, v, 0) == Outcome(false, [])
  {
  }

  lemma SetUnfolds(st: Store, v: Byte, tries: nat)
    requires tries > 0
    ensures var pass := OnePass(st, v);
      var rest := SetFrom(pass.trace[|pass.trace| - 1], v, tries - 1);
      SetFrom(st, v, tries)
      == if pass.result.Some? then Outcome(pass.result.value, pass.trace)
         else Outcome(rest.ok, pass.trace + rest.trace)
  {
    hide OnePass;
  }

  /** A pass that stays in force makes the updates of WriteTrace, and those of a key change if it is refused. */
  lemma PassTraceIs(st: Store, v: Byte)
    ensures var (j, p) := Target(st);
      var w := WriteTrace(st, v);
      var next := StatusTrace(w[3], NextKey(j));
      GetStatus(w[2]) == j ==>
        OnePass(st, v)
        == if w[3].data[Slot(|st.data|, j, p)] == Raw(j, v) then Pass(Some(true), w)
           else Pass(if GetStatus(next[2]) != NextKey(j) then Some(false) else None, w + next)
  {
    hide StatusTrace, Target;
    var (j, p) := Target(st);
    assert WriteTrace(st, v)[2] == StatusTrace(st, j)[2];
  }

  function Set(st: Store, v: Byte): Outcome { SetFrom(st, v, TRIES) }

  function AfterSet(st: Store, v: Byte): (r: Store)
    ensures SameHardware(st, r)
  {
    Final(st, Set(st, v).trace)
  }

  /** The image after a history of complete set calls. */
  function AfterSets(st: Store, history: seq<Byte>): (r: Store)
    ensures SameHardware(st, r)
  {
    if history == [] then st
    else AfterSet(AfterSets(st, history[..|history| - 1]), history[|history| - 1])
  }

  predicate AllSucceed(st: Store, history: seq<Byte>) {
    history != [] ==>
      var before := history[..|history| - 1];
      AllSucceed(st, before) && Set(AfterSets(st, before), history[|history| - 1]).ok
  }

  /** What a plain variable that remembers v would answer. */
  function Answer(v: Byte): Option<Byte> {
    if v % 16 < TOOL_COUNT then Some(v % 16) else None
  }

  /** Every call of the history succeeds and get yields the value stored last. */
  predicate Remembers(st: Store, history: seq<Byte>)
    requires history != []
  {
    AllSucceed(st, history) && Get(AfterSets(st, history)) == Answer(history[|history| - 1])
  }

  /** A freshly erased store: every healthy cell reads 0xff. */
  predicate Erased(st: Store) {
    && (forall i | 0 <= i < 3 && st.badStatus != Some(i) :: st.status[i] == BLANK)
    && (forall i | 0 <= i < |st.data| && st.badData != Some(i) :: st.data[i] == BLANK)
    && st.wear == multiset{}
  }
}
