/**
Exactly which cell faults survive a power cut at any byte update. A store that is safe is driven
through its sweeps by complete and interrupted calls, to the change of key that a fault spoils.
*/
module FilamentCutLimits {
  import opened Machine
  import opened FilamentLog
  import opened FilamentSweeps
  import opened FilamentFaults
  import opened FilamentCuts

  /** Every history with every cut is survived. */
  ghost predicate CutSafe(st: Store) {
    forall calls: seq<Call>, call: Call, next: Byte :: Survives(st, calls, call, next)
  }

  // Safety along a history

  lemma {:induction false} AfterCallsFirst(st: Store, call: Call, calls: seq<Call>)
    ensures AfterCalls(st, [call] + calls) == AfterCalls(AfterCall(st, call), calls)
  {
    hide AfterCall;
    var all := [call] + calls;
    if calls == [] {
      assert all[..0] == [];
    } else {
      var before := calls[..|calls| - 1];
      assert all[..|all| - 1] == [call] + before;
      AfterCallsFirst(st, call, before);
    }
  }

  /** Whatever a safe store becomes is safe again. */
  lemma StaysSafe(st: Store, call: Call)
    requires CutSafe(st)
    ensures CutSafe(AfterCall(st, call))
  {
    hide AfterCall, AfterCalls, Set, Get, AfterSet, Answer;
    forall calls: seq<Call>, c: Call, next: Byte
      ensures Survives(AfterCall(st, call), calls, c, next)
    {
      assert Survives(st, [call] + calls, c, next);
      AfterCallsFirst(st, call, calls);
    }
  }

  lemma SurvivesNow(st: Store, call: Call, next: Byte)
    requires CutSafe(st)
    ensures var after := AfterCall(st, call);
      && (Get(after) == Get(st) || Get(after) == Answer(call.v)
          || (Get(after) == None && GetStatus(after) != GetStatus(st)))
      && Set(after, next).ok
      && Get(AfterSet(after, next)) == Answer(next)
  {
    assert Survives(st, [], call, next);
    hide AfterCall, Set, Get, AfterSet, Answer;
  }

  // Complete calls

  function Complete(history: seq<Byte>): (calls: seq<Call>)
    ensures |calls| == |history|
  {
    seq(|history|, i requires 0 <= i < |history| => Call(history[i], None))
  }

  lemma {:induction false} CompleteIs(st: Store, history: seq<Byte>)
    ensures AfterCalls(st, Complete(history)) == AfterSets(st, history)
  {
    hide AfterSet;
    if history != [] {
      var n := |history| - 1;
      assert Complete(history)[..n] == Complete(history[..n]);
      CompleteIs(st, history[..n]);
    }
  }

  lemma {:induction false} SafeRemembers(st: Store, history: seq<Byte>)
    requires CutSafe(st)
    ensures AllSucceed(st, history)
    ensures history != [] ==> Remembers(st, history)
    decreases |history|
  {
    hide Set, AfterSet, Get, Answer;
    if history != [] {
      var n := |history| - 1;
      SafeRemembers(st, history[..n]);
      assert Survives(st, Complete(history[..n]), Call(0, Some(0)), history[n]);
      CompleteIs(st, history[..n]);
      NoUpdates(AfterSets(st, history[..n]));
    }
  }

  lemma NoUpdates(st: Store)
    ensures AfterCall(st, Call(0, Some(0))) == st
  {
    hide Set;
  }

  // One data cell only

  lemma RawHolds(k: Byte, v: Byte)
    requires IsKey(k)
    ensures Raw(k, v) % 16 == v % 16
  {
  }

  lemma NeverAccepted(st: Store, v: Byte)
    requires |st.data| == 1 && st.badData == Some(0) && st.data[0] % 16 != v % 16
    ensures !Accepted(st, v)
  {
    var (j, p) := Target(st);
    var s := WriteTrace(st, v)[3];
    assert SameHardware(st, s) && s.data[0] == st.data[0];
    RawHolds(j, v);
    OnlySlot(j, p);
    hide WriteTrace, Target, Raw, Slot, SameHardware;
  }

  lemma OnlySlot(k: Byte, p: nat)
    requires p < 1
    ensures Slot(1, k, p) == 0
  {
  }

  /** With its only cell bad, a log never stores what that cell does not already show. */
  lemma {:induction false} NeverStores(st: Store, v: Byte, tries: nat)
    requires |st.data| == 1 && st.badData == Some(0) && st.data[0] % 16 != v % 16
    ensures !SetFrom(st, v, tries).ok
    decreases tries
  {
    hide *;
    if tries > 0 {
      NeverAccepted(st, v);
      SetIs(st, v, tries);
      SameBadCell(st, v);
      NeverStores(Refused(st, v), v, tries - 1);
    } else {
      NoPass(st, v);
    }
  }

  lemma SameBadCell(st: Store, v: Byte)
    requires |st.data| == 1 && st.badData == Some(0)
    ensures var c := Refused(st, v); |c.data| == 1 && c.badData == Some(0) && c.data[0] == st.data[0]
  {
    var s := WriteTrace(st, v)[3];
    assert SameHardware(st, s) && SameHardware(s, Refused(st, v));
    hide WriteTrace, StatusTrace, Target, Alike;
  }

  lemma OneBadCellIsUnsafe(st: Store)
    requires CutSafe(st)
    ensures st.badData.Some? ==> |st.data| >= 2
  {
    if st.badData.Some? && |st.data| == 1 {
      var v: Byte := if st.data[0] % 16 == 0 then 1 else 0;
      var tries := TRIES;
      NeverStores(st, v, tries);
      hide SetFrom, Get, AfterSet, AfterCall;
      NoUpdates(st);
      SurvivesNow(st, Call(0, Some(0)), v);
    }
  }

  // Where a cut leaves a call

  /** Cut during its first pass. */
  lemma CutAt(st: Store, v: Byte, n: nat)
    requires 1 <= n <= 4
    ensures AfterCall(st, Call(v, Some(n))) == WriteTrace(st, v)[n - 1]
  {
    var tries := TRIES;
    hide Target, WriteTrace, StatusTrace, SetFrom, Accepted, Refused, Alike;
    SetIs(st, v, tries);
  }

  /** Cut after its first write was refused. */
  lemma CutAfterRefusal(st: Store, v: Byte, n: nat)
    requires 5 <= n <= 7 && !Accepted(st, v)
    ensures AfterCall(st, Call(v, Some(n))) == StatusTrace(WriteTrace(st, v)[3], NextKey(Target(st).0))[n - 5]
  {
    var tries := TRIES;
    hide Target, WriteTrace, StatusTrace, SetFrom, Accepted, Refused, Alike;
    SetIs(st, v, tries);
  }

  // Two faults that are not survived

  /** A call whose first write succeeds ends with it. */
  lemma CallIs(st: Store, v: Byte)
    requires Accepted(st, v)
    ensures Set(st, v).ok && AfterSet(st, v) == WriteTrace(st, v)[3]
  {
    var tries := TRIES;
    hide Target, WriteTrace, StatusTrace, SetFrom, Accepted, Refused, Alike;
    SetIs(st, v, tries);
  }

  lemma RunOfTwo(data: seq<Byte>)
    requires data == [0, 0] || data == [1, 0]
    ensures Run(data, 0) == 2
  {
    RunExactly(data, 0, 2);
  }

  lemma RunOfOne(data: seq<Byte>)
    requires data == [0x03, BLANK]
    ensures Run(data, 0) == 1
  {
    RunExactly(data, 0, 1);
  }

  lemma FirstUpdate(st: Store, v: Byte)
    ensures AfterCall(st, Call(v, Some(1))) == Update(st, Status(0), Target(st).0)
  {
    CutAt(st, v, 1);
    hide AfterCall, Target;
  }

  /** With no majority, set writes the first cell. */
  lemma TiedSet(c: Store)
    requires c.status == [1, 0, 0xff] && c.data == [0, 0] && c.badData == None && c.badStatus == Some(2)
    ensures Set(c, 1).ok
    ensures AfterSet(c, 1).data == [1, 0] && GetStatus(AfterSet(c, 1)) == 0
  {
    assert Target(c) == (0, 0);
    StatusUpdates(c, 1);
    var s := StatusTrace(c, 0)[2];
    var w := Update(s, Data(0), Raw(0, 1));
    assert WriteTrace(c, 1)[3] == w && w.data == [1, 0] && w.status == s.status;
    hide *;
    CallIs(c, 1);
    SameSay(s, w);
  }

  lemma SameSay(s: Store, w: Store)
    requires s.status == w.status && Says(s, 0)
    ensures GetStatus(w) == 0 && Slot(2, 0, 0) == 0
  {
  }

  /** No majority while the key changes from 0 to 1: sweep 0 is taken up again, over its own end. */
  lemma BadStatusForgets(st: Store)
    requires st == Image([0, 0, 0xff], [0, 0], Some(2), None, multiset{})
    ensures var c := AfterCall(st, Call(1, Some(1)));
      GetStatus(c) == BLANK && Set(c, 1).ok && Get(AfterSet(c, 1)) == Some(0)
  {
    FullTarget(st);
    FirstUpdate(st, 1);
    StatusUpdate(st, 0, 1);
    var c := AfterCall(st, Call(1, Some(1)));
    assert st.status[0 := 1] == [1, 0, 0xff];
    hide *;
    NoMajority(c);
    TiedSet(c);
    ReadsSecond(AfterSet(c, 1));
  }

  lemma FullTarget(st: Store)
    requires st.data == [0, 0] && st.status == [0, 0, 0xff]
    ensures Target(st) == (1, 0)
  {
    RunOfTwo(st.data);
  }

  lemma ReadsSecond(d: Store)
    requires d.data == [1, 0] && GetStatus(d) == 0
    ensures Get(d) == Some(0)
  {
    RunOfTwo(d.data);
    hide GetStatus, Run;
  }

  lemma NoMajority(c: Store)
    requires c.status == [1, 0, 0xff]
    ensures GetStatus(c) == BLANK
  {
  }

  /** A tolerated bad cell that leads sweep 0 is read before the first write has been made. */
  lemma BadLeaderSpeaks(st: Store)
    requires st == Image([BLANK, BLANK, BLANK], [0x03, BLANK], None, Some(0), multiset{})
    ensures Tolerated(st) && Get(st) == None && Get(AfterCall(st, Call(1, Some(2)))) == Some(3)
  {
    assert Target(st) == (0, 0);
    SecondUpdate(st, 1);
    TwoUpdates(st);
    var c := AfterCall(st, Call(1, Some(2)));
    hide StatusTrace, AfterCall, Target;
    RunOfOne(c.data);
  }

  lemma TwoUpdates(st: Store)
    requires st.status == [BLANK, BLANK, BLANK] && st.badStatus.None?
    ensures var c := StatusTrace(st, 0)[1]; c.status == [0, 0, BLANK] && c.data == st.data
  {
    StatusTraceIs(st, 0);
    hide StatusTrace;
  }

  lemma SecondUpdate(st: Store, v: Byte)
    ensures AfterCall(st, Call(v, Some(2))) == StatusTrace(st, Target(st).0)[1]
  {
    CutAt(st, v, 2);
    hide AfterCall, Target, StatusTrace;
  }

  // The steps of a drive through the sweeps

  /** All healthy status cells say k. */
  predicate Says(st: Store, k: Byte) {
    GetStatus(st) == k && forall i | 0 <= i < 3 && st.badStatus != Some(i) :: st.status[i] == k
  }

  /** A store that is safe, with a tolerated bad cell, between two calls in sweep k. */
  ghost predicate Driven(st: Store, k: Byte, m: nat) {
    CutSafe(st) && Faulty(st) && Says(st, k) && Marked(st, k, m)
  }

  predicate Faulty(st: Store) {
    Tolerated(st) && (st.badData.Some? ==> |st.data| >= 2)
  }

  lemma FaultyStays(st: Store, c: Store)
    requires Faulty(st) && SameHardware(st, c)
    ensures Faulty(c) && forall k: Byte :: Start(c, k) == Start(st, k) && Limit(c, k) == Limit(st, k)
  {
  }

  lemma DrivenTarget(st: Store, k: Byte, m: nat)
    requires Driven(st, k, m)
    ensures Run(st.data, k) == m
    ensures Target(st) == if m < |st.data| then (k, m) else (NextKey(k), 0)
  {
    hide CutSafe;
    RunIs(st, k, m);
  }

  /** The first three updates of a call. */
  lemma StatusUpdates(st: Store, v: Byte)
    ensures var j := Target(st).0;
      var t := StatusTrace(st, j);
      && WriteTrace(st, v)[..3] == t && WriteTrace(st, v)[2] == t[2]
      && Says(t[2], j) && SameCells(st, t[2]) && SameHardware(st, t[2])
  {
    StatusTraceIs(st, Target(st).0);
    SetStatusWorks(st, Target(st).0);
    hide StatusTrace, Target, GetStatus;
  }

  /** Starting anew: the status cells say 0, the data stay. */
  lemma Restart(st: Store, v: Byte) returns (c: Store)
    requires CutSafe(st) && Faulty(st) && GetStatus(st) == BLANK
    ensures c == AfterCall(st, Call(v, Some(3))) && CutSafe(c) && Faulty(c) && Says(c, 0)
    ensures SameCells(st, c) && SameHardware(st, c)
    ensures c.data == st.data && c.badData == st.badData
  {
    c := AfterCall(st, Call(v, Some(3)));
    StaysSafe(st, Call(v, Some(3)));
    assert Target(st) == (0, 0);
    hide CutSafe, AfterCall, Target, WriteTrace, StatusTrace, Says;
    CutAt(st, v, 3);
    StatusUpdates(st, v);
    FaultyStays(st, c);
  }

  /** Which update of a finished sweep is the last one that writes the new key. */
  function Turning(st: Store, k: Byte): nat { if Limit(st, k) == |st.data| then 0 else 4 }

  /** At the bad cell a write changes nothing. */
  lemma RefusedWrite(st: Store, k: Byte, v: Byte)
    requires Driven(st, k, Limit(st, k)) && Limit(st, k) < |st.data|
    ensures var s := WriteTrace(st, v)[3];
      && SameCells(st, s) && Says(s, k) && SameHardware(st, s)
      && Target(st) == (k, Limit(st, k))
      && s.data[Slot(|st.data|, k, Limit(st, k))] != Raw(k, v)
  {
    DrivenTarget(st, k, Limit(st, k));
    StatusUpdates(st, v);
    hide CutSafe, StatusTrace, Target, GetStatus;
  }

  /** The updates of the change of key at the end of a sweep. */
  lemma KeyChange(st: Store, k: Byte, v: Byte, i: nat) returns (s: Store)
    requires Driven(st, k, Limit(st, k)) && i < 3
    ensures AfterCall(st, Call(v, Some(Turning(st, k) + i + 1))) == StatusTrace(s, NextKey(k))[i]
    ensures SameCells(st, s) && Says(s, k) && SameHardware(st, s)
  {
    var n := Turning(st, k) + i + 1;
    if Limit(st, k) == |st.data| {
      s := st;
      DrivenTarget(st, k, Limit(st, k));
      StatusUpdates(st, v);
      CutAt(st, v, n);
      hide *;
      assert WriteTrace(st, v)[i] == WriteTrace(st, v)[..3][i];
    } else {
      RefusedWrite(st, k, v);
      s := WriteTrace(st, v)[3];
      CutAfterRefusal(st, v, n);
      hide *;
    }
  }

  /** The key of the next sweep, on the same data. */
  lemma Turn(st: Store, k: Byte, v: Byte) returns (c: Store)
    requires Driven(st, k, Limit(st, k))
    ensures c == AfterCall(st, Call(v, Some(Turning(st, k) + 3)))
    ensures CutSafe(c) && Faulty(c) && Says(c, NextKey(k)) && SameCells(st, c) && SameHardware(st, c)
  {
    var call := Call(v, Some(Turning(st, k) + 3));
    c := AfterCall(st, call);
    StaysSafe(st, call);
    var s := KeyChange(st, k, v, 2);
    StatusTraceIs(s, NextKey(k));
    SetStatusWorks(s, NextKey(k));
    FaultyStays(st, c);
    hide CutSafe, AfterCall, StatusTrace, GetStatus;
  }

  /** Halfway through the change of key, when the bad status cell sides with neither. */
  lemma Tie(st: Store, k: Byte, v: Byte) returns (c: Store)
    requires Driven(st, k, Limit(st, k)) && Tied(st, k, NextKey(k))
    ensures CutSafe(c) && Faulty(c) && GetStatus(c) == BLANK && SameCells(st, c) && SameHardware(st, c)
    ensures c.data == st.data && c.badData == st.badData
  {
    var i := First(st);
    var call := Call(v, Some(Turning(st, k) + i + 1));
    c := AfterCall(st, call);
    StaysSafe(st, call);
    var s := KeyChange(st, k, v, i);
    Halfway(s, k, NextKey(k));
    FaultyStays(st, c);
    hide CutSafe, AfterCall, StatusTrace, GetStatus;
  }

  lemma Halfway(s: Store, k: Byte, j: Byte)
    requires Says(s, k) && Tied(s, k, j) && j != k
    ensures GetStatus(StatusTrace(s, j)[First(s)]) == BLANK
  {
    var s0 := Update(s, Status(0), j);
    StatusUpdate(s, 0, j);
    StatusUpdate(s0, 1, j);
  }

  /** One complete call at a healthy cell. */
  lemma FillOne(st: Store, k: Byte, m: nat, w: Byte) returns (c: Store)
    requires Driven(st, k, m) && m < Limit(st, k) && IsKey(k) && 0 <= Slot(|st.data|, k, m) < |st.data|
    ensures Driven(c, k, m + 1) && SameHardware(st, c)
    ensures c.data == st.data[Slot(|st.data|, k, m) := Raw(k, w)]
  {
    c := AfterCall(st, Call(w, Some(4)));
    hide *;
    DrivenIs(st, k, m);
    StaysSafe(st, Call(w, Some(4)));
    CutAt(st, w, 4);
    DrivenTarget(st, k, m);
    FillImage(st, c, k, m, w);
    BecomesDriven(c, k, m + 1);
  }

  lemma DrivenIs(st: Store, k: Byte, m: nat)
    requires Driven(st, k, m)
    ensures CutSafe(st) && Faulty(st) && Says(st, k) && Marked(st, k, m)
  {
    hide CutSafe, Faulty, Says, Marked;
  }

  lemma BecomesDriven(st: Store, k: Byte, m: nat)
    requires CutSafe(st) && Faulty(st) && Says(st, k) && Marked(st, k, m)
    ensures Driven(st, k, m)
  {
    hide CutSafe, Faulty, Says, Marked;
  }

  lemma FillImage(st: Store, c: Store, k: Byte, m: nat, w: Byte)
    requires Faulty(st) && Marked(st, k, m) && m < Limit(st, k) && c == WriteTrace(st, w)[3] && Target(st) == (k, m)
    ensures Faulty(c) && Says(c, k) && Marked(c, k, m + 1) && SameHardware(st, c)
    ensures m < |st.data| && 0 <= Slot(|st.data|, k, m) < |st.data|
    ensures c.data == st.data[Slot(|st.data|, k, m) := Raw(k, w)]
  {
    WriteIs(st, w);
    SetStatusWorks(st, k);
    var s := StatusTrace(st, k)[2];
    assert Healthy(s, k, m);
    Extend(s, k, m, w);
    FaultyStays(st, c);
    hide StatusTrace, GetStatus, Target, Tolerated, WriteTrace;
  }

  /** The rest of a sweep, filled with w. */
  function Filled(st: Store, k: Byte, m: nat, w: Byte, i: nat): Byte
    requires IsKey(k) && i < |st.data|
  {
    if m <= Slot(|st.data|, k, i) < Limit(st, k) then Raw(k, w) else st.data[i]
  }

  lemma {:induction false} Fill(st: Store, k: Byte, m: nat, w: Byte) returns (c: Store)
    requires Driven(st, k, m)
    ensures Driven(c, k, Limit(c, k)) && SameHardware(st, c) && Limit(c, k) == Limit(st, k)
    ensures forall i | 0 <= i < |st.data| :: c.data[i] == Filled(st, k, m, w, i)
    decreases Limit(st, k) - m
  {
    hide CutSafe;
    if m == Limit(st, k) {
      c := st;
    } else {
      var next := FillOne(st, k, m, w);
      FaultyStays(st, next);
      c := Fill(next, k, m + 1, w);
    }
  }

  // From an erased store to the end of a sweep

  /** What cell i shows at the end of sweep k when all sweeps have written w. */
  function Written(st: Store, k: Byte, w: Byte, i: nat): Byte
    requires IsKey(k) && i < |st.data|
  {
    if Start(st, k) <= Slot(|st.data|, k, i) < Limit(st, k) then Raw(k, w)
    else if k == 0 then st.data[i]
    else Written(st, k - 1, w, i)
  }

  lemma {:induction false} WrittenTag(st: Store, k: Byte, w: Byte, i: nat)
    requires Erased(st) && IsKey(k) && i < |st.data|
    ensures st.badData == Some(i) ==> Written(st, k, w, i) == st.data[i]
    ensures st.badData != Some(i) ==> Tag(Written(st, k, w, i)) <= k || Tag(Written(st, k, w, i)) == 15
  {
    if k > 0 {
      WrittenTag(st, k - 1, w, i);
    }
  }

  /** The store c is the erased store st at the end of sweep k. */
  ghost predicate AtEnd(st: Store, c: Store, k: Byte, w: Byte) {
    && Driven(c, k, Limit(c, k)) && SameHardware(st, c)
    && (forall i | 0 <= i < |st.data| :: c.data[i] == Written(st, k, w, i))
  }

  /** A store between two sweeps is at the start of the next one. */
  lemma AtStart(st: Store, c: Store, k: Byte)
    requires CutSafe(c) && Faulty(c) && Says(c, k) && IsKey(k)
    requires forall i | 0 <= i < |c.data| && c.badData != Some(i) :: Tag(c.data[i]) != k
    ensures Driven(c, k, Start(c, k))
  {
    hide CutSafe, Faulty, Says;
  }

  /** Filling a sweep from its start writes what it is to write. */
  lemma FilledIsWritten(st: Store, s: Store, c: Store, k: Byte, w: Byte)
    requires IsKey(k) && |s.data| == |c.data| == |st.data|
    requires Start(s, k) == Start(st, k) && Limit(s, k) == Limit(st, k)
    requires forall i | 0 <= i < |st.data| ::
      s.data[i] == if k == 0 then st.data[i] else Written(st, k - 1, w, i)
    requires forall i | 0 <= i < |st.data| :: c.data[i] == Filled(s, k, Start(s, k), w, i)
    ensures forall i | 0 <= i < |st.data| :: c.data[i] == Written(st, k, w, i)
  {
    hide Start, Limit, Raw;
  }

  /** From the start of sweep k to its end. */
  lemma DriveSweep(st: Store, s: Store, k: Byte, w: Byte) returns (c: Store)
    requires Erased(st) && Faulty(st) && IsKey(k) && CutSafe(s) && Says(s, k) && SameHardware(st, s)
    requires forall i | 0 <= i < |st.data| ::
      s.data[i] == if k == 0 then st.data[i] else Written(st, k - 1, w, i)
    ensures AtEnd(st, c, k, w)
  {
    forall i | 0 <= i < |st.data| && st.badData != Some(i)
      ensures Tag(s.data[i]) != k
    {
      ErasedCell(st, i);
      if k > 0 {
        WrittenTag(st, k - 1, w, i);
      }
    }
    FaultyStays(st, s);
    hide CutSafe, Says, Erased, Faulty, Driven, Written, Filled, Start, Limit;
    AtStart(st, s, k);
    c := Fill(s, k, Start(s, k), w);
    FilledIsWritten(st, s, c, k, w);
  }

  lemma {:induction false} Drive(st: Store, k: Byte, w: Byte) returns (c: Store)
    requires CutSafe(st) && Erased(st) && Faulty(st) && IsKey(k)
    ensures AtEnd(st, c, k, w)
    decreases k
  {
    hide CutSafe, Erased, Faulty, Driven, Written, Says, AfterCall, SameHardware;
    if k == 0 {
      ErasedIsBlank(st);
      var s := Restart(st, w);
      c := DriveSweep(st, s, k, w);
    } else {
      var before := Drive(st, k - 1, w);
      var s := Turn(before, k - 1, w);
      SameTwice(st, before, s);
      c := DriveSweep(st, s, k, w);
    }
  }

  lemma ErasedIsBlank(st: Store)
    requires Erased(st)
    ensures GetStatus(st) == BLANK
  {
  }

  lemma ErasedCell(st: Store, i: nat)
    requires Erased(st) && i < |st.data| && st.badData != Some(i)
    ensures Tag(st.data[i]) == 15
  {
  }

  // What safety demands

  /** What get answers with r cells of sweep k, the last of them showing a tool. */
  lemma Reads(c: Store, k: Byte, r: nat, w: Byte)
    requires IsKey(k) && Says(c, k) && 1 <= r <= |c.data| && w < TOOL_COUNT
    requires forall p | 0 <= p < r :: TagAt(c.data, k, p) == k
    requires r < |c.data| ==> TagAt(c.data, k, r) != k
    requires c.data[Slot(|c.data|, k, r - 1)] % 16 == w
    ensures Get(c) == Some(w)
  {
    RunExactly(c.data, k, r);
    assert TagAt(c.data, k, r - 1) == k;
  }

  /** Where there is no majority, get may not answer once the log starts anew. */
  lemma TieHides(c: Store) returns (s: Store)
    requires CutSafe(c) && Faulty(c) && GetStatus(c) == BLANK
    ensures CutSafe(s) && Faulty(s) && Says(s, 0) && SameCells(c, s) && SameHardware(c, s)
    ensures Get(s) == None
  {
    assert Get(c) == None;
    s := Restart(c, 0);
    var t := Restart(c, 1);
    SameRestart(c);
    assert Answer(0) == Some(0) && Answer(1) == Some(1);
    hide CutSafe, AfterCall, Get, AfterSet, Set, Answer, Says;
    SurvivesNow(c, Call(0, Some(3)), 0);
    SurvivesNow(c, Call(1, Some(3)), 0);
  }

  lemma SameRestart(c: Store)
    ensures AfterCall(c, Call(0, Some(3))) == AfterCall(c, Call(1, Some(3)))
  {
    CutAt(c, 0, 3);
    CutAt(c, 1, 3);
    StatusUpdates(c, 0);
    StatusUpdates(c, 1);
    hide AfterCall, WriteTrace, StatusTrace;
  }

  /** Nor may it answer when that start is refused by a bad first cell. */
  lemma TieHidesNext(c: Store) returns (s: Store)
    requires CutSafe(c) && Faulty(c) && GetStatus(c) == BLANK && c.badData == Some(0)
    requires forall v: Byte | v < TOOL_COUNT :: c.data[0] != Raw(0, v)
    ensures Says(s, 1) && SameCells(c, s) && Get(s) == None
  {
    assert Get(c) == None;
    s := StatusTrace(StatusTrace(c, 0)[2], 1)[2];
    RestartRefused(c, 0);
    RestartRefused(c, 1);
    assert Answer(0) == Some(0) && Answer(1) == Some(1);
    hide CutSafe, AfterCall, Get, AfterSet, Set, Answer, Says, StatusTrace;
    SurvivesNow(c, Call(0, Some(7)), 0);
    SurvivesNow(c, Call(1, Some(7)), 0);
  }

  lemma RestartRefused(c: Store, v: Byte)
    requires GetStatus(c) == BLANK && c.badData == Some(0) && c.data[0] != Raw(0, v)
    ensures var s := StatusTrace(StatusTrace(c, 0)[2], 1)[2];
      && AfterCall(c, Call(v, Some(7))) == s
      && Says(s, 1) && SameCells(c, s)
  {
    assert Target(c) == (0, 0);
    StatusUpdates(c, v);
    var t := StatusTrace(c, 0)[2];
    assert WriteTrace(c, v)[3] == t;
    assert Slot(|c.data|, 0, 0) == 0;
    StatusTraceIs(t, 1);
    SetStatusWorks(t, 1);
    hide AfterCall, WriteTrace, StatusTrace, Target, GetStatus;
    CutAfterRefusal(c, v, 7);
  }

  /** A safe store at the end of sweep k, with r cells of sweep j that get could read. */
  predicate Readable(c: Store, j: Byte, r: nat) {
    && IsKey(j) && 1 <= r <= |c.data|
    && (forall p | 0 <= p < r :: TagAt(c.data, j, p) == j)
    && (r < |c.data| ==> TagAt(c.data, j, r) != j)
    && c.data[Slot(|c.data|, j, r - 1)] % 16 < TOOL_COUNT
  }

  lemma ReadableIsRead(c: Store, s: Store, j: Byte, r: nat)
    requires Readable(c, j, r) && Says(s, j) && s.data == c.data
    ensures Get(s).Some?
  {
    Reads(s, j, r, c.data[Slot(|c.data|, j, r - 1)] % 16);
  }

  /** So the bad status cell must side with one of the two keys there. */
  lemma TieSpoils(c: Store, k: Byte, r: nat)
    requires Driven(c, k, Limit(c, k)) && Readable(c, 0, r)
    ensures !Tied(c, k, NextKey(k))
  {
    if Tied(c, k, NextKey(k)) {
      var e := Tie(c, k, 0);
      var s := TieHides(e);
      hide *;
      ReadableIsRead(c, s, 0, r);
      assert false;
    }
  }

  lemma TieSpoilsNext(c: Store, k: Byte, r: nat)
    requires Driven(c, k, Limit(c, k)) && Readable(c, 1, r)
    requires c.badData == Some(0) && forall v: Byte | v < TOOL_COUNT :: c.data[0] != Raw(0, v)
    ensures !Tied(c, k, NextKey(k))
  {
    if Tied(c, k, NextKey(k)) {
      var e := Tie(c, k, 0);
      var s := TieHidesNext(e);
      hide *;
      ReadableIsRead(c, s, 1, r);
      assert false;
    }
  }

  predicate Covers(st: Store, k: Byte, i: nat)
    requires i < |st.data|
  {
    Start(st, k) <= Slot(|st.data|, k, i) < Limit(st, k)
  }

  lemma WrittenIs(st: Store, k: Byte, i: nat)
    requires k <= 2 && i < |st.data|
    ensures Covers(st, 0, i) && (k >= 1 ==> !Covers(st, 1, i)) && (k >= 2 ==> !Covers(st, 2, i)) ==>
      Written(st, k, 0, i) == 0x00
    ensures k >= 1 && Covers(st, 1, i) && (k >= 2 ==> !Covers(st, 2, i)) ==> Written(st, k, 0, i) == 0x10
  {
    hide Start, Limit;
    assert k >= 1 ==> Written(st, 1, 0, i) == if Covers(st, 1, i) then 0x10 else Written(st, 0, 0, i);
    assert k >= 2 ==> Written(st, 2, 0, i) == if Covers(st, 2, i) then 0x20 else Written(st, 1, 0, i);
  }

  /** Sweep k leaves r cells of sweep j, up to the bad one or to the end. */
  predicate Left(st: Store, k: Byte, j: Byte, r: nat) {
    && k <= 2 && j <= 1 && 1 <= r <= |st.data|
    && (forall p | 0 <= p < r :: Written(st, k, 0, Slot(|st.data|, j, p)) == 0x10 * j)
    && (r < |st.data| ==> st.badData == Some(Slot(|st.data|, j, r)) && !BadMimics(st, j))
  }

  lemma LeftReadable(st: Store, c: Store, k: Byte, j: Byte, r: nat)
    requires Left(st, k, j, r) && SameHardware(st, c)
    requires forall i | 0 <= i < |st.data| :: c.data[i] == Written(st, k, 0, i)
    ensures Readable(c, j, r)
  {
    hide Written;
    forall p | 0 <= p < r
      ensures c.data[Slot(|st.data|, j, p)] == 0x10 * j
    {
      var i := Slot(|st.data|, j, p);
      assert 0 <= i < |st.data|;
    }
  }

  /** At the end of sweep k a tie would bring back cells of sweep 0. */
  lemma LeftSpoils(st: Store, k: Byte, r: nat)
    requires CutSafe(st) && Erased(st) && Faulty(st) && IsKey(k) && Left(st, k, 0, r)
    ensures !Tied(st, k, NextKey(k))
  {
    hide *;
    var c := Drive(st, k, 0);
    EndIs(st, c, k);
    LeftReadable(st, c, k, 0, r);
    TieSpoils(c, k, r);
    SameFaults(st, c);
  }

  /** Or, if the first cell is bad, cells of sweep 1. */
  lemma LeftSpoilsNext(st: Store, k: Byte, r: nat)
    requires CutSafe(st) && Erased(st) && Faulty(st) && IsKey(k) && Left(st, k, 1, r) && Blocked(st)
    ensures !Tied(st, k, NextKey(k))
  {
    hide *;
    var c := Drive(st, k, 0);
    EndIs(st, c, k);
    LeftReadable(st, c, k, 1, r);
    BlockedStays(st, c);
    TieSpoilsNext(c, k, r);
    SameFaults(st, c);
  }

  lemma BlockedStays(st: Store, c: Store)
    requires Blocked(st) && SameHardware(st, c)
    ensures c.badData == Some(0) && forall v: Byte | v < TOOL_COUNT :: c.data[0] != Raw(0, v)
  {
  }

  /** Sweep 0 leaves cells behind: the bad status cell has to show 0 or 1. */
  lemma FirstChange(st: Store)
    requires CutSafe(st) && Erased(st) && Faulty(st) && Start(st, 0) == 0 < Limit(st, 0)
    ensures !Tied(st, 0, 1)
  {
    KeysInOrder();
    LeftAfterFirst(st);
    hide *;
    LeftSpoils(st, 0, Limit(st, 0));
  }

  lemma KeysInOrder()
    ensures IsKey(0) && IsKey(1) && IsKey(2) && NextKey(0) == 1 && NextKey(1) == 2 && NextKey(2) == 3
  {
  }

  lemma LeftAfterFirst(st: Store)
    requires Faulty(st) && Start(st, 0) == 0 < Limit(st, 0)
    ensures Left(st, 0, 0, Limit(st, 0))
  {
    forall p | 0 <= p < Limit(st, 0)
      ensures Written(st, 0, 0, p) == 0x00
    {
      WrittenIs(st, 0, p);
    }
    assert Limit(st, 0) < |st.data| ==> st.badData == Some(Limit(st, 0)) && !BadMimics(st, 0);
    hide Written, Tolerated;
  }

  lemma SameFaults(st: Store, c: Store)
    requires SameHardware(st, c)
    ensures forall k: Byte, j: Byte :: Tied(c, k, j) == Tied(st, k, j)
  {
  }

  /** The same with a bad first cell that leads sweep 0. */
  lemma FirstChangeLed(st: Store)
    requires CutSafe(st) && Erased(st) && Faulty(st) && BadLeads(st, 0)
    ensures !Tied(st, 0, 1)
  {
    KeyAfterZero();
    hide *;
    var c := Drive(st, 0, 0);
    LedCovers(st);
    EndIs(st, c, 0);
    WrittenIs(st, 0, |st.data| - 1);
    FullReadable(c);
    TieSpoils(c, 0, |c.data|);
    SameFaults(st, c);
  }

  lemma KeyAfterZero()
    ensures NextKey(0) == 1 && IsKey(0)
  {
  }

  lemma LedCovers(st: Store)
    requires Faulty(st) && BadLeads(st, 0)
    ensures |st.data| >= 2 && Covers(st, 0, |st.data| - 1) && Limit(st, 0) == |st.data|
  {
  }

  lemma EndIs(st: Store, c: Store, k: Byte)
    requires AtEnd(st, c, k, 0)
    ensures IsKey(k) && |c.data| == |st.data| && SameHardware(st, c) && Driven(c, k, Limit(c, k))
    ensures Limit(c, k) == Limit(st, k) && Marked(c, k, Limit(st, k))
    ensures forall i | 0 <= i < |st.data| :: c.data[i] == Written(st, k, 0, i)
  {
    hide CutSafe;
    FaultyStays(st, c);
  }

  lemma FullReadable(c: Store)
    requires Marked(c, 0, |c.data|) && c.data[|c.data| - 1] == 0x00
    ensures Readable(c, 0, |c.data|)
  {
  }

  /** Cells before the bad one still show key 0 when sweep 1 ends at it. */
  lemma SecondChange(st: Store, q: nat)
    requires CutSafe(st) && Erased(st) && Faulty(st) && st.badData == Some(q) && 1 <= q && !BadLeads(st, 1)
    ensures !Tied(st, 1, 2)
  {
    KeysInOrder();
    LeftAfterSecond(st, q);
    hide *;
    LeftSpoils(st, 1, q);
  }

  lemma LeftAfterSecond(st: Store, q: nat)
    requires Faulty(st) && st.badData == Some(q) && 1 <= q && !BadLeads(st, 1)
    ensures Left(st, 1, 0, q)
  {
    forall p | 0 <= p < q
      ensures Written(st, 1, 0, p) == 0x00
    {
      WrittenIs(st, 1, p);
    }
    assert !BadMimics(st, 0);
    hide Written, Tolerated;
  }

  /** Behind a bad first cell that no write can seem to reach, sweep 1 is found again. */
  predicate Blocked(st: Store) {
    && st.badData == Some(0) && |st.data| >= 2
    && (forall v: Byte | v < TOOL_COUNT :: st.data[0] != Raw(0, v))
  }

  lemma SecondChangeBlocked(st: Store)
    requires CutSafe(st) && Erased(st) && Faulty(st) && Blocked(st)
    ensures !Tied(st, 1, 2)
  {
    KeysInOrder();
    LeftBlocked(st, 1);
    hide *;
    LeftSpoilsNext(st, 1, |st.data| - 1);
  }

  /** So it is at the end of sweep 2 if that one had no cell to write. */
  lemma ThirdChangeBlocked(st: Store)
    requires CutSafe(st) && Erased(st) && Faulty(st) && Blocked(st) && !BadLeads(st, 2)
    ensures !Tied(st, 2, 3)
  {
    KeysInOrder();
    LeftBlocked(st, 2);
    hide *;
    LeftSpoilsNext(st, 2, |st.data| - 1);
  }

  lemma LeftBlocked(st: Store, k: Byte)
    requires Faulty(st) && Blocked(st) && (k == 1 || (k == 2 && !BadLeads(st, 2)))
    ensures |st.data| >= 2 && Left(st, k, 1, |st.data| - 1)
  {
    var n := |st.data|;
    forall p | 0 <= p < n - 1
      ensures Written(st, k, 0, Slot(n, 1, p)) == 0x10
    {
      WrittenIs(st, k, n - 1 - p);
    }
    assert !BadMimics(st, 1);
    hide Written, Tolerated;
  }

  /** Both sides of a bad cell in the middle keep old keys: sweep 1 is found again behind a new sweep 0. */
  lemma MiddleChange(st: Store, q: nat)
    requires CutSafe(st) && Erased(st) && Faulty(st) && st.badData == Some(q) && 1 <= q < |st.data| - 1
    ensures !Tied(st, 2, 3)
  {
    KeysInOrder();
    hide *;
    if Tied(st, 2, 3) {
      var c := Drive(st, 2, 0);
      EndIs(st, c, 2);
      SameFaults(st, c);
      var e := Tie(c, 2, 0);
      var s := Restart(e, 1);
      MiddleLeft(st, c, q);
      PartedStays(c, s, q);
      MiddleSpoils(s, q);
      assert false;
    }
  }

  lemma PartedStays(c: Store, s: Store, q: nat)
    requires Parted(c, q) && s.data == c.data && s.badData == c.badData
    ensures Parted(s, q)
  {
  }

  /** What the sweeps have left on both sides of the bad cell. */
  predicate Parted(c: Store, q: nat) {
    && 1 <= q < |c.data| - 1 && c.badData == Some(q)
    && (forall i | 0 <= i < q :: Tag(c.data[i]) == 2)
    && (forall i | q < i < |c.data| :: c.data[i] == 0x10)
  }

  lemma MiddleLeft(st: Store, c: Store, q: nat)
    requires Erased(st) && Faulty(st) && st.badData == Some(q) && 1 <= q < |st.data| - 1 && AtEnd(st, c, 2, 0)
    ensures Parted(c, q)
  {
    forall i | q < i < |c.data|
      ensures c.data[i] == 0x10
    {
      WrittenIs(st, 2, i);
    }
    hide CutSafe, Says, Written, Tolerated, Erased;
    forall i | 0 <= i < q
      ensures Tag(c.data[i]) == 2
    {
      assert TagAt(c.data, 2, i) == 2;
    }
  }

  lemma MiddleSpoils(s: Store, q: nat)
    requires Faulty(s) && Says(s, 0) && Parted(s, q)
    ensures !CutSafe(s)
  {
    if CutSafe(s) {
      NoLead(s, q);
      AtStart(s, s, 0);
      var c := Fill(s, 0, Start(s, 0), 1);
      FaultyStays(s, c);
      var f := Turn(c, 0, 1);
      MiddleReads(s, c, f, q);
      hide CutSafe, AfterCall, Get, Says, Set, AfterSet;
      SurvivesNow(c, Call(1, Some(Turning(c, 0) + 3)), 0);
      assert false;
    }
  }

  lemma NoLead(s: Store, q: nat)
    requires Faulty(s) && Parted(s, q)
    ensures Start(s, 0) == 0 && Limit(s, 0) == q && !BadMimics(s, 0) && !BadMimics(s, 1)
    ensures forall i | 0 <= i < |s.data| && s.badData != Some(i) :: Tag(s.data[i]) != 0
  {
  }

  lemma MiddleReads(s: Store, c: Store, f: Store, q: nat)
    requires Faulty(s) && Parted(s, q) && SameHardware(s, c) && Says(c, 0) && Says(f, 1) && f.data == c.data
    requires Marked(c, 0, q)
    requires forall i | 0 <= i < |s.data| :: c.data[i] == Filled(s, 0, 0, 1, i)
    ensures Get(c) == Some(1) && Get(f) == Some(0)
  {
    NoLead(s, q);
    var n := |s.data|;
    hide Says, Faulty;
    assert c.data[q - 1] == 0x01;
    Reads(c, 0, q, 1);
    forall p | 0 <= p < n - 1 - q
      ensures f.data[Slot(n, 1, p)] == 0x10
    {
    }
    assert TagAt(f.data, 1, n - 1 - q) != 1;
    Reads(f, 1, n - 1 - q, 0);
  }

  /** A bad cell that leads the sweep of its key is read as soon as that key is in force. */
  lemma LeaderIsSilent(st: Store, t: Byte)
    requires CutSafe(st) && Erased(st) && Faulty(st) && IsKey(t) && BadLeads(st, t)
    ensures st.data[st.badData.value] % 16 >= TOOL_COUNT
  {
    var b := st.data[st.badData.value] % 16;
    var w: Byte := if b == 0 then 1 else 0;
    Tools(w);
    KeyRange(t);
    hide *;
    if b < TOOL_COUNT {
      if t == 0 {
        FirstLeaderSpeaks(st, w);
      } else {
        LaterLeaderSpeaks(st, t, w);
      }
      assert false;
    }
  }

  lemma Tools(w: Byte)
    ensures w < TOOL_COUNT ==> Answer(w) == Some(w)
  {
  }

  lemma KeyRange(t: Byte)
    requires IsKey(t)
    ensures t <= 3 && (t > 0 ==> NextKey(t - 1) == t)
  {
  }

  lemma FirstLeaderSpeaks(st: Store, w: Byte)
    requires CutSafe(st) && Erased(st) && Faulty(st) && BadLeads(st, 0) && Answer(w) == Some(w)
    requires st.data[st.badData.value] % 16 < TOOL_COUNT
    ensures st.data[st.badData.value] % 16 == w
  {
    assert st.badData.Some?;
    hide *;
    ErasedIsBlank(st);
    BlankAnswersNothing(st);
    var s := Restart(st, w);
    ErasedFor(st, s);
    LeaderSpeaks(st, s, 0);
    SurvivesNow(st, Call(w, Some(3)), 0);
  }

  lemma BlankAnswersNothing(st: Store)
    requires GetStatus(st) == BLANK
    ensures Get(st) == None && IsKey(0)
  {
  }

  lemma ErasedFor(st: Store, s: Store)
    requires Erased(st) && Faulty(st) && SameCells(st, s) && st.badData.Some?
    ensures |st.data| >= 2
    ensures forall i | 0 <= i < |s.data| && s.badData != Some(i) :: Tag(s.data[i]) != 0
  {
  }

  lemma LaterLeaderSpeaks(st: Store, t: Byte, w: Byte)
    requires CutSafe(st) && Erased(st) && Faulty(st) && 1 <= t <= 3 && BadLeads(st, t)
    requires Answer(w) == Some(w) && w < TOOL_COUNT && NextKey(t - 1) == t
    requires st.data[st.badData.value] % 16 < TOOL_COUNT
    ensures st.data[st.badData.value] % 16 == w
  {
    assert IsKey(t - 1);
    hide *;
    var c := Drive(st, t - 1, w);
    LeaderEnd(st, c, t, w);
    var f := Turn(c, t - 1, w);
    LeaderFollows(st, c, f, t, w);
    SurvivesNow(c, Call(w, Some(Turning(c, t - 1) + 3)), 0);
  }

  /** The first cell of sweep t is all that get can find, and it is the bad one. */
  lemma LeaderSpeaks(st: Store, f: Store, t: Byte)
    requires IsKey(t) && BadLeads(st, t) && Says(f, t) && SameHardware(st, f) && |st.data| >= 2
    requires st.data[st.badData.value] % 16 < TOOL_COUNT
    requires forall i | 0 <= i < |f.data| && f.badData != Some(i) :: Tag(f.data[i]) != t
    ensures Get(f) == Some(st.data[st.badData.value] % 16)
  {
    assert TagAt(f.data, t, 0) == t;
    assert f.badData != Some(Slot(|f.data|, t, 1));
    hide Says;
    Reads(f, t, 1, st.data[st.badData.value] % 16);
  }

  /** The end of the sweep before, at the bad cell. */
  lemma LeaderEnd(st: Store, c: Store, t: Byte, w: Byte)
    requires Faulty(st) && 1 <= t <= 3 && BadLeads(st, t) && w < TOOL_COUNT && AtEnd(st, c, t - 1, w)
    ensures Driven(c, t - 1, Limit(c, t - 1)) && CutSafe(c)
    ensures Get(c) == Some(w)
  {
    var n := |st.data|;
    var i := Slot(n, t - 1, n - 2);
    hide CutSafe, Says;
    assert Limit(c, t - 1) == n - 1;
    assert c.data[i] == Raw(t - 1, w);
    assert TagAt(c.data, t - 1, n - 1) != t - 1;
    Reads(c, t - 1, n - 1, w);
  }

  lemma LeaderFollows(st: Store, c: Store, f: Store, t: Byte, w: Byte)
    requires Erased(st) && Faulty(st) && 1 <= t <= 3 && BadLeads(st, t)
    requires AtEnd(st, c, t - 1, w) && SameCells(c, f) && SameHardware(c, f) && Says(f, t)
    requires st.data[st.badData.value] % 16 < TOOL_COUNT
    ensures Get(f) == Some(st.data[st.badData.value] % 16)
  {
    forall i | 0 <= i < |st.data| && st.badData != Some(i)
      ensures Tag(f.data[i]) != t
    {
      WrittenTag(st, t - 1, w, i);
    }
    hide CutSafe, Says, Erased, Driven, Written;
    LeaderSpeaks(st, f, t);
  }

  lemma HarmlessNeeded(st: Store)
    requires CutSafe(st) && Erased(st)
    ensures Harmless(st) && Faulty(st)
  {
    OneBadCellIsUnsafe(st);
    if st.badData.Some? {
      forall history: seq<Byte> | history != []
        ensures Remembers(st, history)
      {
        SafeRemembers(st, history);
      }
      hide CutSafe, Erased, Remembers;
      FaultToleranceIsExact(st);
      var t := Tag(st.data[st.badData.value]);
      if IsKey(t) {
        LeaderIsSilent(st, t);
      }
    }
  }

  lemma AgreeableNeeded(st: Store)
    requires CutSafe(st) && Erased(st) && Harmless(st) && Faulty(st)
    ensures Agreeable(st)
  {
    hide CutSafe, Erased, Faulty;
    if st.badStatus.Some? {
      if st.badData.None? {
        FirstChange(st);
      } else if st.badData.value >= 1 {
        var q := st.badData.value;
        FirstChange(st);
        if !BadLeads(st, 1) {
          SecondChange(st, q);
        }
        if q < |st.data| - 1 {
          MiddleChange(st, q);
        }
      } else {
        assert Blocked(st);
        SecondChangeBlocked(st);
        if BadLeads(st, 0) {
          FirstChangeLed(st);
        }
        if !BadLeads(st, 2) {
          ThirdChangeBlocked(st);
        }
      }
    }
  }

  /**
  Power cuts, exactly: with any one status cell and any one data cell bad since before the first
  write, every cut at any byte update after any history is survived if and only if the bad data
  cell is harmless and the bad status cell agreeable.
  */
  lemma CutSafetyIsExact(st: Store)
    requires Erased(st)
    ensures CutSafe(st) <==> CutProof(st)
  {
    if CutProof(st) {
      hide Survives, CutProof;
      forall calls: seq<Call>, call: Call, next: Byte
        ensures Survives(st, calls, call, next)
      {
        PowerCutIsSafe(st, calls, call, next);
      }
    }
    if CutSafe(st) {
      hide CutSafe, Erased;
      HarmlessNeeded(st);
      AgreeableNeeded(st);
    }
  }

  /** The two kinds of fault by themselves. */
  lemma SingleFaults(st: Store)
    requires Erased(st)
    ensures st.badData.None? ==>
      (CutSafe(st) <==> (st.badStatus.Some? ==> st.status[st.badStatus.value] in {0, 1}))
    ensures st.badStatus.None? ==> (CutSafe(st) <==> Harmless(st))
  {
    CutSafetyIsExact(st);
    hide CutSafe;
  }
}
