/**
Power cuts. A cut stops a set call between two byte updates, so the store is left as one of
the images in the trace of the call. Histories may mix complete calls and cut ones freely.
This module shows that stores with certain cell faults survive every cut; that no other store
does is shown in FilamentCutLimits.
*/
module FilamentCuts {
  import opened Machine
  import opened FilamentLog
  import opened FilamentSweeps
  import opened FilamentFaults

  // The faults that are survived

  /** The bad data cell shows no key, or it leads the sweep of its key and names no tool. */
  predicate Harmless(st: Store) {
    st.badData.Some? ==>
      var b := st.data[st.badData.value];
      |st.data| >= 2 && (IsKey(Tag(b)) ==> BadLeads(st, Tag(b)) && b % 16 >= TOOL_COUNT)
  }

  /**
  The bad status cell shows a key that settles each vote it has to settle: while the other two
  differ there is no majority without it, and the log starts anew at key 0.
  */
  predicate Agreeable(st: Store) {
    st.badStatus.Some? ==>
      var b := st.status[st.badStatus.value];
      if st.badData.None? then b == 0 || b == 1
      else
        var i, tag := st.badData.value, Tag(st.data[st.badData.value]);
        if i == 0 then tag != 0 && (b == 2 || (b == 1 && tag == 2))
        else i == |st.data| - 1 && (b == 1 || (b == 0 && tag == 1))
  }

  predicate CutProof(st: Store) { Harmless(st) && Agreeable(st) }

  // Images that a cut can leave

  /** The healthy status cell that is written first, and the one written last. */
  function First(st: Store): (i: nat)
    ensures i < 3 && st.badStatus != Some(i)
  {
    if st.badStatus == Some(0) then 1 else 0
  }

  function Last(st: Store): (i: nat)
    ensures i < 3 && st.badStatus != Some(i) && i > First(st)
  {
    if st.badStatus == Some(2) then 1 else 2
  }

  /** The vote is k, and stays k when the first status cell is written. */
  predicate Settled(st: Store, k: Byte) {
    && st.status[Last(st)] == k
    && if st.badStatus.None? then st.status[1] == k
       else st.status[First(st)] == k || st.status[st.badStatus.value] == k
  }

  /** The vote is k although the cell written last may lag behind. */
  predicate Leading(st: Store, k: Byte) {
    && st.status[First(st)] == k
    && if st.badStatus.None? then st.status[1] == k else st.status[st.badStatus.value] == k
  }

  /** Only at the very start of a sweep may a status cell lag behind. */
  predicate Spells(st: Store, k: Byte, m: nat) {
    if IsKey(k) then Settled(st, k) || (m == Start(st, k) && Leading(st, k))
    else GetStatus(st) == k && (st.badStatus.None? ==> Settled(st, k))
  }

  /** What every image that a power cut can leave behind looks like. */
  predicate Ready(st: Store, k: Byte, m: nat) {
    && CutProof(st)
    && Spells(st, k, m)
    && (if IsKey(k) then Swept(st, k, m) else k == BLANK && m == 0 && Restartable(st))
  }

  lemma ReadyIsLive(st: Store, k: Byte, m: nat)
    requires Ready(st, k, m)
    ensures Live(st, k, m) && GetStatus(st) == k
    ensures IsKey(k) ==> Run(st.data, k) == m
  {
    if IsKey(k) {
      RunIs(st, k, m);
    }
  }

  // The three things a cut can leave

  predicate Untouched(data: seq<Byte>, c: Store, k: Byte, m: nat) {
    Ready(c, k, m) && c.data == data
  }

  /** The beginning of sweep k, or of everything. */
  function Beginning(st: Store, k: Byte): nat { if IsKey(k) then Start(st, k) else 0 }

  /** The key is changing: another sweep has begun and is still empty, or there is no majority. */
  predicate Rotating(c: Store, k: Byte) {
    var k' := GetStatus(c);
    k' != k && Ready(c, k', Beginning(c, k'))
  }

  predicate Done(c: Store, v: Byte) {
    var k' := GetStatus(c);
    var m' := Run(c.data, k');
    Ready(c, k', m') && Stored(c, k', m', v)
  }

  predicate Safe(data: seq<Byte>, k: Byte, m: nat, v: Byte, c: Store) {
    Untouched(data, c, k, m) || Rotating(c, k) || Done(c, v)
  }

  // The status cells during a change of key

  /** The first healthy cell is written before the last one. */
  lemma StatusTraceIs(st: Store, k: Byte)
    ensures var t := StatusTrace(st, k);
      && (forall i | 0 <= i < 3 ::
            && SameCells(st, t[i])
            && (st.badStatus.Some? ==> t[i].status[st.badStatus.value] == st.status[st.badStatus.value])
            && t[i].status[First(st)] in {k, st.status[First(st)]}
            && (t[i].status[Last(st)] == st.status[Last(st)]
                || t[i].status[First(st)] == t[i].status[Last(st)] == k))
      && (st.badStatus.None? ==>
            && t[0].status == [k, st.status[1], st.status[2]]
            && t[1].status == [k, k, st.status[2]])
      && (forall i | 0 <= i < 3 && st.badStatus != Some(i) :: t[2].status[i] == k)
  {
    hide SameHardware, Update;
    var s0 := Update(st, Status(0), k);
    var s1 := Update(s0, Status(1), k);
    StatusUpdate(st, 0, k);
    StatusUpdate(s0, 1, k);
    StatusUpdate(s1, 2, k);
  }

  /** Apart from the status cells, being ready is a matter of the data cells. */
  lemma ReadyFrame(st: Store, c: Store, k: Byte, m: nat)
    requires CutProof(st) && (if IsKey(k) then Swept(st, k, m) else k == BLANK && m == 0 && Restartable(st))
    requires SameCells(st, c)
    requires st.badStatus.Some? ==> c.status[st.badStatus.value] == st.status[st.badStatus.value]
    requires Spells(c, k, m)
    ensures Ready(c, k, m)
  {
    if IsKey(k) {
      SweptFrame(st, c, k, m);
    }
  }

  /** An image in the middle of a change from position m of sweep k to key j. */
  predicate Between(c: Store, k: Byte, m: nat, j: Byte) {
    Ready(c, k, m) || (j != k && (Ready(c, j, Start(c, j)) || Ready(c, BLANK, 0)))
  }

  /** Without a majority the log starts anew, and may do so. */
  predicate Tied(st: Store, k: Byte, j: Byte) {
    st.badStatus.Some? && st.status[st.badStatus.value] != k && st.status[st.badStatus.value] != j
  }

  /** From position m of sweep k the key may be changed to j. */
  predicate Changes(st: Store, k: Byte, j: Byte) {
    && Swept(st, j, Start(st, j))
    && (IsKey(k) ==> Settled(st, k) && (Tied(st, k, j) ==> Restartable(st)))
    && (!IsKey(k) ==> j == 0)
  }

  /** Image i of a key change, where one status cell is bad. */
  lemma SpellsBad(st: Store, c: Store, k: Byte, m: nat, j: Byte)
    requires Ready(st, k, m) && IsKey(j) && (j != k ==> Changes(st, k, j))
    requires SameCells(st, c) && st.badStatus.Some?
    requires c.status[st.badStatus.value] == st.status[st.badStatus.value]
    requires c.status[First(st)] in {j, st.status[First(st)]}
    requires c.status[Last(st)] == st.status[Last(st)] || c.status[First(st)] == c.status[Last(st)] == j
    ensures Spells(c, k, m) || (j != k && (Spells(c, j, Start(c, j)) || (Spells(c, BLANK, 0) && Restartable(st))))
  {
    hide Swept, Restartable, CutProof;
    var x, y, b := c.status[First(st)], c.status[Last(st)], st.status[st.badStatus.value];
    if j != k && IsKey(k) && x == j && y == k && b != j && b != k {
      assert Tied(st, k, j);
    }
  }

  lemma SpellsGood(st: Store, k: Byte, m: nat, j: Byte, i: nat)
    requires Ready(st, k, m) && IsKey(j) && (j != k ==> Changes(st, k, j))
    requires st.badStatus.None? && i < 3
    ensures var c := StatusTrace(st, j)[i]; Spells(c, k, m) || (j != k && Spells(c, j, Start(c, j)))
  {
    StatusTraceIs(st, j);
    hide Swept, Restartable, CutProof, StatusTrace;
  }

  /** Each of the three updates of a key change leaves an image that is ready again. */
  lemma StatusCut(st: Store, k: Byte, m: nat, j: Byte)
    requires Ready(st, k, m) && IsKey(j) && (j != k ==> Changes(st, k, j))
    ensures var t := StatusTrace(st, j);
      && (forall i | 0 <= i < 3 :: SameCells(st, t[i]) && Between(t[i], k, m, j))
      && Ready(t[2], j, if j == k then m else Start(st, j))
      && Settled(t[2], j) && GetStatus(t[2]) == j
  {
    StatusTraceIs(st, j);
    hide StatusTrace, Swept, Restartable, CutProof, Spells, Settled, Leading;
    var t := StatusTrace(st, j);
    forall i | 0 <= i < 3
      ensures Between(t[i], k, m, j)
    {
      if st.badStatus.Some? {
        SpellsBad(st, t[i], k, m, j);
      } else {
        SpellsGood(st, k, m, j, i);
      }
      FrameBetween(st, t[i], k, m, j);
    }
    AllSay(t[2], j);
    ReadyFrame(st, t[2], j, if j == k then m else Start(st, j));
    ReadyIsLive(t[2], j, if j == k then m else Start(st, j));
  }

  lemma AllSay(c: Store, j: Byte)
    requires forall i | 0 <= i < 3 && c.badStatus != Some(i) :: c.status[i] == j
    ensures Settled(c, j) && (IsKey(j) ==> forall m :: Spells(c, j, m))
  {
  }

  lemma FrameBetween(st: Store, c: Store, k: Byte, m: nat, j: Byte)
    requires Ready(st, k, m) && IsKey(j) && (j != k ==> Changes(st, k, j)) && SameCells(st, c)
    requires st.badStatus.Some? ==> c.status[st.badStatus.value] == st.status[st.badStatus.value]
    requires Spells(c, k, m) || (j != k && (Spells(c, j, Start(c, j)) || (Spells(c, BLANK, 0) && Restartable(st))))
    ensures Between(c, k, m, j)
  {
    hide Swept, Restartable, CutProof, Spells, Settled, Tied;
    if Spells(c, k, m) {
      ReadyFrame(st, c, k, m);
    } else if Spells(c, j, Start(c, j)) {
      ReadyFrame(st, c, j, Start(c, j));
    } else {
      ReadyFrame(st, c, BLANK, 0);
    }
  }

  // One pass of set

  /** When a sweep is over and there is no majority for the change of key, the log may start anew. */
  lemma TieRestarts(st: Store, k: Byte)
    requires CutProof(st) && IsKey(k) && Swept(st, k, Limit(st, k)) && Tied(st, k, NextKey(k))
    ensures Restartable(st)
  {
    var n := |st.data|;
    forall p | 0 <= p < n && Healthy(st, 0, p)
      ensures TagAt(st.data, 0, p) != 0 && (p > Limit(st, 0) ==> TagAt(st.data, 0, p) != 1)
    {
      var q := if Front(k) then p else n - 1 - p;
      assert TagAt(st.data, k, q) == TagAt(st.data, 0, p);
      assert q < Limit(st, k) ==> TagAt(st.data, k, q) == k;
      assert q >= Limit(st, k) ==> Healthy(st, k, q);
    }
  }

  /** Where a set call aims from a ready store, and that it may switch keys there. */
  lemma TargetOf(st: Store, k: Byte, m: nat)
    requires Ready(st, k, m)
    ensures var (j, p) := Target(st);
      && (j == k ==> p == m)
      && (j != k ==> p == 0 && Changes(st, k, j))
      && (j != k && IsKey(k) ==> j == NextKey(k) && Healthy(st, j, 0) && Start(st, j) == 0)
      && (!IsKey(k) ==> j == 0)
  {
    ReadyIsLive(st, k, m);
    if IsKey(k) && m == |st.data| {
      Rotate(st, k);
      if Tied(st, k, NextKey(k)) {
        TieRestarts(st, k);
      }
    }
  }

  /** The position in sweep j that the store is at once the status cells say j. */
  function Place(st: Store, k: Byte, m: nat, j: Byte): nat { if j == k then m else Start(st, j) }

  /** The data update of a pass, at position p. */
  lemma WriteCut(s: Store, j: Byte, q: nat, p: nat, v: Byte)
    requires Ready(s, j, q) && IsKey(j) && Settled(s, j) && GetStatus(s) == j
    requires p < |s.data| && (p == q || (p == 0 && BadLeads(s, j)))
    ensures var c := Update(s, Data(Slot(|s.data|, j, p)), Raw(j, v));
      if Healthy(s, j, p) then c.data[Slot(|s.data|, j, p)] == Raw(j, v) && Done(c, v) else c == s
  {
    if Healthy(s, j, p) {
      assert p < Limit(s, j);
      var c := Update(s, Data(Slot(|s.data|, j, p)), Raw(j, v));
      WriteKeepsFaults(s, j, p, v);
      WriteKeepsSpelling(s, j, p, v);
      Extend(s, j, p, v);
      hide Update, CutProof, Raw, Settled, Leading;
      ReadyIsLive(c, j, p + 1);
      SameVote(s, c);
    }
  }

  lemma WriteKeepsSpelling(s: Store, j: Byte, p: nat, v: Byte)
    requires Settled(s, j) && IsKey(j) && p < |s.data|
    ensures Spells(Update(s, Data(Slot(|s.data|, j, p)), Raw(j, v)), j, p + 1)
  {
  }

  lemma WriteKeepsFaults(s: Store, j: Byte, p: nat, v: Byte)
    requires CutProof(s) && IsKey(j) && p < |s.data|
    ensures CutProof(Update(s, Data(Slot(|s.data|, j, p)), Raw(j, v)))
  {
  }

  /** The four byte updates of one pass of set. */
  lemma PassCut(st: Store, k: Byte, m: nat, v: Byte)
    requires Ready(st, k, m)
    ensures var (j, p) := Target(st);
      var w := WriteTrace(st, v);
      && (forall i | 0 <= i < 3 :: SameCells(st, w[i]) && Between(w[i], k, m, j))
      && GetStatus(w[2]) == j
      && (if Healthy(st, j, p) then w[3].data[Slot(|st.data|, j, p)] == Raw(j, v) && Done(w[3], v)
          else w[3] == w[2] && Ready(w[3], j, Place(st, k, m, j)) && Settled(w[3], j))
  {
    hide StatusTrace, Ready, Swept, Restartable, Target, Changes, Settled, Update;
    var (j, p) := Target(st);
    TargetOf(st, k, m);
    StatusCut(st, k, m, j);
    var s := StatusTrace(st, j)[2];
    assert WriteTrace(st, v)[..3] == StatusTrace(st, j);
    TargetPlace(st, k, m);
    WriteCut(s, j, Place(st, k, m, j), p, v);
  }

  lemma TargetPlace(st: Store, k: Byte, m: nat)
    requires Ready(st, k, m)
    ensures var (j, p) := Target(st); p == Place(st, k, m, j) || (p == 0 && BadLeads(st, j))
  {
    TargetOf(st, k, m);
    hide Ready, Target, Changes;
  }

  /** A write refused by the bad cell is followed by a change to the next key. */
  lemma RefusedChanges(st: Store, s: Store, k: Byte, m: nat)
    requires Ready(st, k, m) && SameCells(st, s)
    requires var (j, p) := Target(st); !Healthy(st, j, p) && Ready(s, j, Place(st, k, m, j)) && Settled(s, j)
    ensures var j := Target(st).0; Changes(s, j, NextKey(j)) && IsKey(j) && IsKey(NextKey(j))
  {
    var (j, p) := Target(st);
    TargetOf(st, k, m);
    if p == Place(st, k, m, j) {
      assert p == Limit(s, j);
      Rotate(s, j);
      if Tied(s, j, NextKey(j)) {
        TieRestarts(s, j);
      }
    } else {
      assert Keyless(s) && BadLeads(s, 0);
    }
  }

  /** The updates that follow a write refused by the bad cell. */
  lemma RefusedCut(st: Store, k: Byte, m: nat, v: Byte)
    requires Ready(st, k, m)
    requires var (j, p) := Target(st); !Healthy(st, j, p)
    ensures var j := Target(st).0;
      var j' := NextKey(j);
      var next := StatusTrace(WriteTrace(st, v)[3], j');
      && (forall i | 0 <= i < 3 :: SameCells(st, next[i]) && Between(next[i], j, Place(st, k, m, j), j'))
      && Ready(next[2], j', Start(st, j'))
      && GetStatus(next[2]) == j'
  {
    hide StatusTrace, WriteTrace, Ready, Swept, Restartable, Target, Changes, Settled, Healthy;
    PassCut(st, k, m, v);
    var j := Target(st).0;
    var w := WriteTrace(st, v);
    RefusedChanges(st, w[3], k, m);
    StatusCut(w[3], j, Place(st, k, m, j), NextKey(j));
  }

  // The whole trace of a set call

  /** From position m of sweep k, no pass of set comes back to key k0 for an empty sweep. */
  predicate Onward(st: Store, k: Byte, m: nat, k0: Byte) {
    var (j, p) := Target(st);
    var j' := NextKey(j);
    && (k == k0 || (IsKey(k) && m == Start(st, k)))
    && (j != k ==> j != k0)
    && (!Healthy(st, j, p) ==>
          && j' != k0
          && (Start(st, j') < |st.data| && !Healthy(st, j', Start(st, j')) ==> NextKey(j') != k0))
  }

  lemma BetweenIsSafe(c: Store, k: Byte, m: nat, j: Byte, k0: Byte, m0: nat, v: Byte)
    requires Between(c, k, m, j) && IsKey(j)
    requires k == k0 ==> m == m0
    requires k != k0 ==> IsKey(k) && m == Start(c, k)
    requires j != k ==> j != k0
    requires k0 == BLANK ==> m0 == 0
    ensures Safe(c.data, k0, m0, v, c)
  {
    hide CutProof, Spells, Swept, Restartable;
    if Ready(c, k, m) {
      ReadyIsLive(c, k, m);
    } else if Ready(c, j, Start(c, j)) {
      ReadyIsLive(c, j, Start(c, j));
    } else {
      ReadyIsLive(c, BLANK, 0);
    }
  }

  /** The first pass: its updates are safe. */
  lemma PassIsSafe(st: Store, k: Byte, m: nat, v: Byte, k0: Byte, m0: nat)
    requires Ready(st, k, m) && Onward(st, k, m, k0)
    requires (k == k0 ==> m == m0) && (k0 == BLANK ==> m0 == 0)
    ensures forall i | 0 <= i < 4 :: Safe(st.data, k0, m0, v, WriteTrace(st, v)[i])
  {
    hide StatusTrace, WriteTrace, Ready, Swept, Restartable, Target, Changes, Settled, Safe, Between, Done, Healthy;
    var j := Target(st).0;
    var w := WriteTrace(st, v);
    TargetOf(st, k, m);
    PassCut(st, k, m, v);
    forall i | 0 <= i < 3
      ensures Safe(st.data, k0, m0, v, w[i])
    {
      BetweenIsSafe(w[i], k, m, j, k0, m0, v);
    }
    assert Done(w[3], v) ==> Safe(st.data, k0, m0, v, w[3]) by { DoneIsSafe(st.data, k0, m0, v, w[3]); }
  }

  lemma DoneIsSafe(data: seq<Byte>, k: Byte, m: nat, v: Byte, c: Store)
    ensures Done(c, v) ==> Safe(data, k, m, v, c)
  {
  }

  lemma RefusedIsSafe(st: Store, k: Byte, m: nat, v: Byte, k0: Byte, m0: nat)
    requires Ready(st, k, m) && Onward(st, k, m, k0)
    requires (k == k0 ==> m == m0) && (k0 == BLANK ==> m0 == 0)
    requires var (j, p) := Target(st); !Healthy(st, j, p)
    ensures var j' := NextKey(Target(st).0);
      var next := StatusTrace(WriteTrace(st, v)[3], j');
      && (forall i | 0 <= i < 3 :: Safe(st.data, k0, m0, v, next[i]))
      && Onward(next[2], j', Start(st, j'), k0)
      && j' != k0 && next[2].data == st.data
  {
    hide StatusTrace, WriteTrace, Ready, Swept, Restartable, Target, Changes, Settled, Safe, Between;
    var j := Target(st).0;
    var j' := NextKey(j);
    var next := StatusTrace(WriteTrace(st, v)[3], j');
    TargetOf(st, k, m);
    RefusedCut(st, k, m, v);
    forall i | 0 <= i < 3
      ensures Safe(st.data, k0, m0, v, next[i])
    {
      BetweenIsSafe(next[i], j, Place(st, k, m, j), j', k0, m0, v);
    }
    BeginningTarget(next[2], j');
  }

  lemma BeginningTarget(st: Store, k: Byte)
    requires Ready(st, k, Start(st, k)) && IsKey(k) && st.badData.Some?
    ensures Target(st) == (k, Start(st, k))
    ensures !Healthy(st, k, Start(st, k)) ==> Healthy(st, NextKey(k), Start(st, NextKey(k)))
  {
    ReadyIsLive(st, k, Start(st, k));
  }

  /** Every image of the trace is safe, whatever number of passes the call takes. */
  lemma {:induction false} TraceIsSafe(st: Store, k: Byte, m: nat, v: Byte, tries: nat, k0: Byte, m0: nat)
    requires Ready(st, k, m) && Onward(st, k, m, k0)
    requires (k == k0 ==> m == m0) && (k0 == BLANK ==> m0 == 0)
    ensures forall i | 0 <= i < |SetFrom(st, v, tries).trace| ::
      Safe(st.data, k0, m0, v, SetFrom(st, v, tries).trace[i])
    decreases tries
  {
    hide StatusTrace, WriteTrace, Ready, Safe, Restartable, Target, Swept, Onward, SetFrom, Changes, Settled, Between,
         Done, Healthy, Accepted;
    if tries == 0 {
      NoPass(st, v);
    } else {
      SetIs(st, v, tries);
      PassIsSafe(st, k, m, v, k0, m0);
      if !Accepted(st, v) {
        RefusedByBadCell(st, k, m, v);
        RefusedCut(st, k, m, v);
        RefusedIsSafe(st, k, m, v, k0, m0);
        var j' := NextKey(Target(st).0);
        assert Refused(st, v) == StatusTrace(WriteTrace(st, v)[3], j')[2];
        TraceIsSafe(Refused(st, v), j', Start(st, j'), v, tries - 1, k0, m0);
      }
    }
  }

  lemma RefusedByBadCell(st: Store, k: Byte, m: nat, v: Byte)
    requires Ready(st, k, m) && !Accepted(st, v)
    ensures var (j, p) := Target(st); !Healthy(st, j, p)
  {
    PassCut(st, k, m, v);
    hide Ready, Target, WriteTrace, Done, Between;
  }

  // Histories of complete and interrupted calls

  /** A set call of value v; `power` is the number of byte updates the power lasts for. */
  datatype Call = Call(v: Byte, power: Option<nat>)

  function AfterCall(st: Store, call: Call): Store {
    var trace := Set(st, call.v).trace;
    match call.power
    case None => AfterSet(st, call.v)
    case Some(n) => Final(st, if n < |trace| then trace[..n] else trace)
  }

  function AfterCalls(st: Store, calls: seq<Call>): Store {
    if calls == [] then st
    else AfterCall(AfterCalls(st, calls[..|calls| - 1]), calls[|calls| - 1])
  }

  /** A call leaves its store, complete or not, as one of its images or as it was. */
  lemma CallLeaves(st: Store, call: Call) returns (i: nat)
    ensures || AfterCall(st, call) == st
            || (i < |Set(st, call.v).trace| && AfterCall(st, call) == Set(st, call.v).trace[i])
  {
    var trace := Set(st, call.v).trace;
    hide Set;
    i := match call.power
      case None => if trace == [] then 0 else |trace| - 1
      case Some(n) => if n == 0 || trace == [] then 0 else Min(n, |trace|) - 1;
  }

  lemma CallIsSafe(st: Store, k: Byte, m: nat, call: Call)
    requires Ready(st, k, m)
    ensures Safe(st.data, k, m, call.v, AfterCall(st, call))
  {
    var tries := TRIES;
    assert k == BLANK ==> m == 0;
    assert Set(st, call.v) == SetFrom(st, call.v, tries);
    hide *;
    ReadyIsOnward(st, k, m);
    TraceIsSafe(st, k, m, call.v, tries, k, m);
    NothingIsSafe(st, k, m, call.v);
    var i := CallLeaves(st, call);
  }

  /** A call that makes no update leaves the store untouched. */
  lemma NothingIsSafe(st: Store, k: Byte, m: nat, v: Byte)
    requires Ready(st, k, m)
    ensures Safe(st.data, k, m, v, st)
  {
  }

  lemma ReadyIsOnward(st: Store, k: Byte, m: nat)
    requires Ready(st, k, m)
    ensures Onward(st, k, m, k)
  {
    TargetOf(st, k, m);
  }

  /** Whatever was interrupted and wherever, the store stays ready. */
  lemma {:induction false} CallsKeepReady(st: Store, calls: seq<Call>) returns (k: Byte, m: nat)
    requires Erased(st) && CutProof(st)
    ensures Ready(AfterCalls(st, calls), k, m)
  {
    hide AfterCall, Ready;
    if calls == [] {
      k, m := BLANK, 0;
      ErasedIsReady(st);
    } else {
      var k0, m0 := CallsKeepReady(st, calls[..|calls| - 1]);
      var before := AfterCalls(st, calls[..|calls| - 1]);
      CallIsSafe(before, k0, m0, calls[|calls| - 1]);
      var after := AfterCalls(st, calls);
      if Untouched(before.data, after, k0, m0) {
        k, m := k0, m0;
      } else if Rotating(after, k0) {
        k := GetStatus(after);
        m := Beginning(after, k);
      } else {
        k, m := GetStatus(after), Run(after.data, GetStatus(after));
      }
    }
  }

  lemma ErasedIsReady(st: Store)
    requires Erased(st) && CutProof(st)
    ensures Ready(st, BLANK, 0)
  {
  }

  /** The next complete call on a ready store succeeds and reads back. */
  lemma ReadyRecovers(st: Store, k: Byte, m: nat, v: Byte)
    requires Ready(st, k, m)
    ensures Set(st, v).ok && Get(AfterSet(st, v)) == Answer(v)
  {
    hide Set, AfterSet;
    ReadyIsLive(st, k, m);
    if IsKey(k) {
      SetStep(st, k, m, v);
      var (k', m') := Advance(st, k, m);
      StoredIsRead(AfterSet(st, v), k', m', v);
    } else {
      var k' := FirstSet(st, v);
      StoredIsRead(AfterSet(st, v), k', 1, v);
    }
  }

  /** At the beginning of a sweep there is nothing to read, not even in a bad cell that leads it. */
  lemma BeginningIsEmpty(c: Store, k: Byte)
    requires Ready(c, k, Beginning(c, k))
    ensures Get(c) == None
  {
    ReadyIsLive(c, k, Beginning(c, k));
  }

  /** What get answers on a safe image. */
  lemma SafeReads(st: Store, k: Byte, m: nat, v: Byte, c: Store)
    requires Ready(st, k, m) && Safe(st.data, k, m, v, c)
    ensures Get(c) == Get(st) || Get(c) == Answer(v) || (Get(c) == None && GetStatus(c) != GetStatus(st))
  {
    ReadyIsLive(st, k, m);
    if Untouched(st.data, c, k, m) {
      ReadyIsLive(c, k, m);
    } else if Rotating(c, k) {
      BeginningIsEmpty(c, GetStatus(c));
    } else {
      StoredIsRead(c, GetStatus(c), Run(c.data, GetStatus(c)), v);
    }
  }

  /**
  A set call that loses power after any number of byte updates, after any history, leaves get
  with the old answer, the new answer, or a failure, the last only when the key has changed;
  and the next complete call succeeds and reads back.
  */
  predicate Survives(st: Store, calls: seq<Call>, call: Call, next: Byte) {
    var before := AfterCalls(st, calls);
    var after := AfterCall(before, call);
    && (Get(after) == Get(before) || Get(after) == Answer(call.v)
        || (Get(after) == None && GetStatus(after) != GetStatus(before)))
    && Set(after, next).ok
    && Get(AfterSet(after, next)) == Answer(next)
  }

  lemma PowerCutIsSafe(st: Store, calls: seq<Call>, call: Call, next: Byte)
    requires Erased(st) && CutProof(st)
    ensures Survives(st, calls, call, next)
  {
    hide AfterCall, AfterSet, Set, Ready, Get;
    var k, m := CallsKeepReady(st, calls);
    var before := AfterCalls(st, calls);
    var after := AfterCall(before, call);
    CallIsSafe(before, k, m, call);
    SafeReads(before, k, m, call.v, after);
    var k', m' := CallsKeepReady(st, calls + [call]);
    assert (calls + [call])[..|calls|] == calls;
    ReadyRecovers(after, k', m', next);
  }
}
