/** The sweep invariant of the filament log and what one complete set does to it. */
module FilamentSweeps {
  import opened Machine
  import opened FilamentLog

  predicate Healthy(st: Store, k: Byte, p: nat)
    requires p < |st.data|
  {
    st.badData != Some(Slot(|st.data|, k, p))
  }

  /** The position of the bad data cell in sweep k. */
  function BadPos(st: Store, k: Byte): (p: nat)
    requires st.badData.Some?
    ensures p < |st.data| && Slot(|st.data|, k, p) == st.badData.value
  {
    Slot(|st.data|, k, st.badData.value)
  }

  /** The bad cell carries key k. */
  predicate BadMimics(st: Store, k: Byte) {
    st.badData.Some? && Tag(st.data[st.badData.value]) == k
  }

  /** The bad cell carries key k and is the first cell of sweep k. */
  predicate BadLeads(st: Store, k: Byte) {
    BadMimics(st, k) && BadPos(st, k) == 0
  }

  /** Sweep k writes the positions below its limit. */
  function Limit(st: Store, k: Byte): (l: nat)
    ensures l <= |st.data|
  {
    if st.badData.None? || BadLeads(st, k) then |st.data| else BadPos(st, k)
  }

  /** The length of sweep k before its first write. */
  function Start(st: Store, k: Byte): nat { if BadLeads(st, k) then 1 else 0 }

  /** The first m positions of sweep k carry k, and no other healthy cell does. */
  predicate Marked(st: Store, k: Byte, m: nat) {
    && IsKey(k)
    && Start(st, k) <= m <= Limit(st, k)
    && (forall p | 0 <= p < m :: TagAt(st.data, k, p) == k)
    && (forall p | m <= p < |st.data| && Healthy(st, k, p) :: TagAt(st.data, k, p) != k)
  }

  /** Sweep k is at position m, and the cells behind the bad one are ready for the next key. */
  predicate Swept(st: Store, k: Byte, m: nat) {
    && Marked(st, k, m)
    && (forall p | Limit(st, k) < p < |st.data| :: TagAt(st.data, k, p) != NextKey(k))
  }

  /** No healthy cell carries a key. */
  predicate Keyless(st: Store) {
    forall i | 0 <= i < |st.data| && st.badData != Some(i) :: !IsKey(Tag(st.data[i]))
  }

  /** The log can start at the first cell of sweep 0. */
  predicate Restartable(st: Store) {
    if BadLeads(st, 0) then Keyless(st) else Swept(st, 0, 0)
  }

  /** The scan is not misled: sweep k has not reached a bad cell that carries k. */
  predicate Undeceived(st: Store, k: Byte, m: nat) {
    BadMimics(st, k) && 0 < BadPos(st, k) ==> m < BadPos(st, k)
  }

  /** The store is at position m of sweep k, or (k is no key) can start anew. */
  predicate Live(st: Store, k: Byte, m: nat) {
    && GetStatus(st) == k
    && (st.badData.Some? ==> |st.data| >= 2)
    && if IsKey(k) then Swept(st, k, m) && Undeceived(st, k, m)
       else m == 0 && Restartable(st)
  }

  /** The value v is the one written last, at position m - 1 of sweep k. */
  predicate Stored(st: Store, k: Byte, m: nat, v: Byte) {
    && IsKey(k)
    && 1 <= m <= |st.data|
    && Swept(st, k, m)
    && GetStatus(st) == k
    && st.data[Slot(|st.data|, k, m - 1)] == Raw(k, v)
  }

  // The operations, seen through the invariant

  lemma RunExactly(data: seq<Byte>, k: Byte, m: nat)
    requires m <= |data| && (forall p | 0 <= p < m :: TagAt(data, k, p) == k)
    requires m < |data| ==> TagAt(data, k, m) != k
    ensures Run(data, k) == m
  {
  }

  lemma RunIs(st: Store, k: Byte, m: nat)
    requires Marked(st, k, m) && Undeceived(st, k, m)
    ensures Run(st.data, k) == m
  {
    if m < |st.data| {
      assert TagAt(st.data, k, m) != k by {
        if !Healthy(st, k, m) {
          assert BadPos(st, k) == m;
        }
      }
    }
  }

  predicate SameCells(st: Store, c: Store) {
    c.data == st.data && c.badData == st.badData && c.badStatus == st.badStatus
  }

  lemma StatusUpdate(st: Store, i: nat, k: Byte)
    requires i < 3
    ensures var s := Update(st, Status(i), k);
      SameCells(st, s) && s.status == if st.badStatus == Some(i) then st.status else st.status[i := k]
  {
  }

  lemma SetStatusWorks(st: Store, k: Byte)
    ensures var t := StatusTrace(st, k)[2];
      && GetStatus(t) == k && t.data == st.data
      && forall i | 0 <= i < 3 && st.badStatus != Some(i) :: t.status[i] == k
  {
    var s0 := Update(st, Status(0), k);
    var s1 := Update(s0, Status(1), k);
    hide SameHardware, Update;
    StatusUpdate(st, 0, k);
    StatusUpdate(s0, 1, k);
    StatusUpdate(s1, 2, k);
    Majority(StatusTrace(st, k)[2], k);
  }

  lemma Majority(t: Store, k: Byte)
    requires forall i | 0 <= i < 3 && t.badStatus != Some(i) :: t.status[i] == k
    ensures GetStatus(t) == k
  {
  }

  /** After a pass: what a store is left with when its write was refused. */
  function Refused(st: Store, v: Byte): Store {
    StatusTrace(WriteTrace(st, v)[3], NextKey(Target(st).0))[2]
  }

  /** The write that a pass ends with has been read back. */
  predicate Accepted(st: Store, v: Byte) {
    var (j, p) := Target(st);
    WriteTrace(st, v)[3].data[Slot(|st.data|, j, p)] == Raw(j, v)
  }

  /** A call is its first pass, and what follows if the write was refused: key changes never fail. */
  lemma SetIs(st: Store, v: Byte, tries: nat)
    requires tries > 0
    ensures var w := WriteTrace(st, v);
      var next := StatusTrace(w[3], NextKey(Target(st).0));
      var rest := SetFrom(Refused(st, v), v, tries - 1);
      SetFrom(st, v, tries)
      == if Accepted(st, v) then Outcome(true, w) else Outcome(rest.ok, w + next + rest.trace)
  {
    StatusHolds(st, v);
    hide StatusTrace, Target, SetFrom, OnePass, GetStatus, WriteTrace, Slot, Raw, NextKey, Alike;
    PassTraceIs(st, v);
    SetUnfolds(st, v, tries);
  }

  lemma StatusHolds(st: Store, v: Byte)
    ensures var j := Target(st).0;
      GetStatus(WriteTrace(st, v)[2]) == j && GetStatus(Refused(st, v)) == NextKey(j)
  {
    var j := Target(st).0;
    assert WriteTrace(st, v)[2] == StatusTrace(st, j)[2];
    SetStatusWorks(st, j);
    SetStatusWorks(WriteTrace(st, v)[3], NextKey(j));
    hide *;
  }

  /** The image a pass ends with. */
  lemma WriteIs(st: Store, v: Byte)
    ensures var (j, p) := Target(st);
      var s := StatusTrace(st, j)[2];
      && WriteTrace(st, v)[..3] == StatusTrace(st, j) && WriteTrace(st, v)[2] == s
      && WriteTrace(st, v)[3] == Update(s, Data(Slot(|st.data|, j, p)), Raw(j, v))
      && SameHardware(st, s)
  {
    hide StatusTrace, Update, SameHardware, GetStatus, Run;
  }

  /** Where the last image of a trace is. */
  lemma FinalIs(st: Store, t: seq<Store>, more: seq<Store>)
    requires t != []
    ensures Final(st, t) == t[|t| - 1]
    ensures Final(st, t + more) == Final(t[|t| - 1], more)
  {
  }

  /** Reading back: a stored value is what get answers. */
  lemma StoredIsRead(st: Store, k: Byte, m: nat, v: Byte)
    requires Stored(st, k, m, v) && Undeceived(st, k, m)
    ensures Get(st) == Answer(v)
  {
    RunIs(st, k, m);
  }

  /** A sweep that has reached its limit hands over to the next key. */
  lemma Rotate(st: Store, k: Byte)
    requires Swept(st, k, Limit(st, k))
    requires st.badData.Some? ==> |st.data| >= 2
    ensures Swept(st, NextKey(k), Start(st, NextKey(k)))
    ensures Undeceived(st, NextKey(k), Start(st, NextKey(k)))
  {
    var n, k', l := |st.data|, NextKey(k), Limit(st, k);
    forall p | 0 <= p < n && Healthy(st, k', p)
      ensures TagAt(st.data, k', p) != k'
      ensures p > Limit(st, k') ==> TagAt(st.data, k', p) != NextKey(k')
    {
      var q := n - 1 - p;
      assert TagAt(st.data, k', p) == TagAt(st.data, k, q);
      assert q < l ==> TagAt(st.data, k, q) == k;
      assert q >= l ==> Healthy(st, k, q);
    }
  }

  /** A write to the healthy cell at position m extends the sweep by one cell. */
  lemma Extend(st: Store, k: Byte, m: nat, v: Byte)
    requires Marked(st, k, m) && m < |st.data| && Healthy(st, k, m)
    requires m < Limit(st, k)
    ensures var st' := Update(st, Data(Slot(|st.data|, k, m)), Raw(k, v));
      && Marked(st', k, m + 1)
      && (Swept(st, k, m) ==> Swept(st', k, m + 1))
      && st'.data[Slot(|st.data|, k, m)] == Raw(k, v)
      && st'.status == st.status
  {
    var i := Slot(|st.data|, k, m);
    var st' := Update(st, Data(i), Raw(k, v));
    forall p | 0 <= p < |st.data|
      ensures TagAt(st'.data, k, p) == if p == m then k else TagAt(st.data, k, p)
    {
    }
    assert st.badData.Some? ==> st'.data[st.badData.value] == st.data[st.badData.value];
  }

  /** Only data and status decide where the log is. */
  lemma SweptFrame(st: Store, st': Store, k: Byte, m: nat)
    requires Swept(st, k, m) && st'.data == st.data && st'.badData == st.badData
    ensures Swept(st', k, m)
  {
  }

  /** A pass of set that aims at a writable cell is the last one. */
  lemma PassSucceeds(st: Store, k: Byte, m: nat, v: Byte, tries: nat)
    requires tries > 0 && Target(st) == (k, m)
    requires Swept(st, k, m) && m < Limit(st, k) && Healthy(st, k, m)
    ensures SetFrom(st, v, tries).ok
    ensures Stored(Final(st, SetFrom(st, v, tries).trace), k, m + 1, v)
  {
    WriteStores(st, k, m, v);
    hide *;
    SetIs(st, v, tries);
    FinalIs(st, WriteTrace(st, v), []);
  }

  lemma WriteStores(st: Store, k: Byte, m: nat, v: Byte)
    requires Target(st) == (k, m)
    requires Swept(st, k, m) && m < Limit(st, k) && Healthy(st, k, m)
    ensures Accepted(st, v) && Stored(WriteTrace(st, v)[3], k, m + 1, v)
  {
    SetStatusWorks(st, k);
    WriteIs(st, v);
    var s := StatusTrace(st, k)[2];
    SweptFrame(st, s, k, m);
    SameLimits(st, s);
    hide StatusTrace, WriteTrace, Target, Swept, Marked, Limit, Start, SameHardware;
    Extend(s, k, m, v);
    SameVote(s, WriteTrace(st, v)[3]);
    hide Update, GetStatus;
  }

  lemma SameLimits(st: Store, s: Store)
    requires SameHardware(st, s)
    ensures s.badData == st.badData && forall k: Byte :: Start(s, k) == Start(st, k) && Limit(s, k) == Limit(st, k)
  {
  }

  lemma SameVote(s: Store, w: Store)
    ensures s.status == w.status ==> GetStatus(w) == GetStatus(s)
  {
  }

  /** A pass of set that aims at the bad cell changes no data and goes on with the next key. */
  lemma PassFails(st: Store, k: Byte, m: nat, v: Byte, tries: nat) returns (t: Store)
    requires tries > 0 && Target(st) == (k, m)
    requires !Healthy(st, k, m) && st.data[st.badData.value] != Raw(k, v)
    ensures t.data == st.data && t.badData == st.badData && t.badStatus == st.badStatus
    ensures GetStatus(t) == NextKey(k)
    ensures SetFrom(st, v, tries).ok == SetFrom(t, v, tries - 1).ok
    ensures SetFrom(t, v, tries - 1).ok ==>
      Final(st, SetFrom(st, v, tries).trace) == Final(t, SetFrom(t, v, tries - 1).trace)
  {
    t := Refused(st, v);
    RefusedIs(st, k, m, v);
    StatusHolds(st, v);
    hide *;
    SetIs(st, v, tries);
    FinalIs(st, WriteTrace(st, v) + StatusTrace(WriteTrace(st, v)[3], NextKey(k)), SetFrom(t, v, tries - 1).trace);
    RefusedLast(st, v);
  }

  lemma RefusedLast(st: Store, v: Byte)
    ensures var t := WriteTrace(st, v) + StatusTrace(WriteTrace(st, v)[3], NextKey(Target(st).0));
      t != [] && t[|t| - 1] == Refused(st, v)
  {
    hide WriteTrace, StatusTrace, Target;
  }

  lemma RefusedIs(st: Store, k: Byte, m: nat, v: Byte)
    requires Target(st) == (k, m) && !Healthy(st, k, m) && st.data[st.badData.value] != Raw(k, v)
    ensures var t := Refused(st, v);
      && !Accepted(st, v)
      && t.data == st.data && t.badData == st.badData && t.badStatus == st.badStatus
  {
    WriteIs(st, v);
    SetStatusWorks(st, k);
    var w := WriteTrace(st, v);
    assert w[3] == w[2];
    SetStatusWorks(w[3], NextKey(k));
    assert SameHardware(w[3], Refused(st, v));
    hide StatusTrace, Target, GetStatus, Alike, WriteTrace;
  }
}
