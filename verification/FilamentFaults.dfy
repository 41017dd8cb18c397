/**
One bad status cell and one bad data cell: exactly when the log still behaves like one
plain variable over every history of set calls.
*/
module FilamentFaults {
  import opened Machine
  import opened FilamentLog
  import opened FilamentSweeps

  /** The bad data cell cannot be mistaken for a live entry that it is not. */
  predicate Tolerated(st: Store) {
    st.badData.Some? ==>
      var key := Tag(st.data[st.badData.value]);
      IsKey(key) ==> st.badData.value == Slot(|st.data|, key, 0)
  }

  /** Where a set call takes a store that is at position m of sweep k. */
  function Advance(st: Store, k: Byte, m: nat): (Byte, nat)
    requires IsKey(k)
  {
    var k1, k2 := NextKey(k), NextKey(NextKey(k));
    if m < Limit(st, k) then (k, m + 1)
    else if Start(st, k1) < Limit(st, k1) then (k1, Start(st, k1) + 1)
    else (k2, 1)
  }

  lemma TargetIs(st: Store, k: Byte, m: nat)
    requires Live(st, k, m) && IsKey(k) && m < |st.data|
    ensures Target(st) == (k, m)
  {
    RunIs(st, k, m);
  }

  /** The passes starting at position m of sweep k store v in the cell before position m'. */
  predicate Lands(st: Store, v: Byte, tries: nat, k: Byte, m: nat) {
    var run := SetFrom(st, v, tries);
    run.ok && Stored(Final(st, run.trace), k, m, v)
  }

  lemma LandsHere(st: Store, k: Byte, m: nat, v: Byte, tries: nat)
    requires Target(st) == (k, m) && tries > 0
    requires Swept(st, k, m) && m < Limit(st, k) && Healthy(st, k, m)
    ensures Lands(st, v, tries, k, m + 1)
  {
    PassSucceeds(st, k, m, v, tries);
  }

  /** A failed pass leaves the store at the start of the next sweep. */
  lemma LandsNext(st: Store, k: Byte, m: nat, v: Byte, tries: nat, k': Byte, m': nat) returns (t: Store)
    requires tries > 0 && Target(st) == (k, m)
    requires !Healthy(st, k, m) && st.data[st.badData.value] != Raw(k, v)
    ensures t.data == st.data && t.badData == st.badData
    ensures GetStatus(t) == NextKey(k)
    ensures Lands(t, v, tries - 1, k', m') ==> Lands(st, v, tries, k', m')
  {
    t := PassFails(st, k, m, v, tries);
  }

  /** From the start of sweep k one pass is enough, or two when its first cell is the bad one. */
  lemma LandsFromStart(st: Store, k: Byte, v: Byte, tries: nat)
    requires tries >= 2 && Live(st, k, Start(st, k)) && IsKey(k)
    ensures Start(st, k) < Limit(st, k) ==> Lands(st, v, tries, k, Start(st, k) + 1)
    ensures Start(st, k) == Limit(st, k) ==> Lands(st, v, tries, NextKey(k), 1)
  {
    hide SetFrom;
    var m, k' := Start(st, k), NextKey(k);
    RunIs(st, k, m);
    if m < Limit(st, k) {
      assert Healthy(st, k, m);
      LandsHere(st, k, m, v, tries);
    } else {
      Rotate(st, k);
      var t := LandsNext(st, k, m, v, tries, k', 1);
      SweptFrame(st, t, k', 0);
      RunIs(t, k', 0);
      assert Healthy(t, k', 0);
      LandsHere(t, k', 0, v, tries - 1);
    }
  }

  /** A sweep that fills the last cell continues at the start of the next one. */
  lemma LandsAround(st: Store, k: Byte, v: Byte, tries: nat)
    requires Live(st, k, |st.data|) && IsKey(k) && tries >= 1
    ensures Lands(st, v, tries, NextKey(k), 1) && Start(st, NextKey(k)) == 0
  {
    hide SetFrom;
    RunIs(st, k, |st.data|);
    Rotate(st, k);
    assert Healthy(st, NextKey(k), 0);
    LandsHere(st, NextKey(k), 0, v, tries);
  }

  /** A sweep that meets the bad cell continues in the next one, or in the one after it. */
  lemma LandsBeyond(st: Store, k: Byte, v: Byte, tries: nat)
    requires Live(st, k, Limit(st, k)) && IsKey(k) && Limit(st, k) < |st.data| && tries >= 3
    ensures var (k', m') := Advance(st, k, Limit(st, k)); Lands(st, v, tries, k', m')
  {
    hide SetFrom, Lands, Target;
    var k', m := NextKey(k), Limit(st, k);
    assert Target(st) == (k, m) by {
      TargetIs(st, k, m);
    }
    Rotate(st, k);
    var (k2, m2) := Advance(st, k, m);
    var t := LandsNext(st, k, m, v, tries, k2, m2);
    SweptFrame(st, t, k', Start(st, k'));
    LandsFromStart(t, k', v, tries - 1);
  }

  /** A set call always succeeds within its three passes and leaves its value stored. */
  lemma LandsAhead(st: Store, k: Byte, m: nat, v: Byte, tries: nat)
    requires Live(st, k, m) && IsKey(k) && tries >= 3
    ensures var (k', m') := Advance(st, k, m); Lands(st, v, tries, k', m')
  {
    hide SetFrom, Lands;
    if m < Limit(st, k) {
      RunIs(st, k, m);
      assert Healthy(st, k, m);
      LandsHere(st, k, m, v, tries);
    } else if m == |st.data| {
      LandsAround(st, k, v, tries);
    } else {
      LandsBeyond(st, k, v, tries);
    }
  }

  lemma SetStep(st: Store, k: Byte, m: nat, v: Byte)
    requires Live(st, k, m) && IsKey(k)
    ensures Set(st, v).ok
    ensures var (k', m') := Advance(st, k, m); Stored(AfterSet(st, v), k', m', v)
  {
    var tries := TRIES;
    LandsAhead(st, k, m, v, tries);
  }

  /** The first write finds the very byte it wants in the bad cell. */
  lemma FirstSetByChance(st: Store, v: Byte, tries: nat)
    requires tries >= 1 && Target(st) == (0, 0) && Restartable(st)
    requires !Healthy(st, 0, 0) && st.data[0] == Raw(0, v)
    ensures Lands(st, v, tries, 0, 1)
  {
    SetStatusWorks(st, 0);
    assert WriteTrace(st, v)[3] == StatusTrace(st, 0)[2];
  }

  /** A start at a bad first cell goes on with sweep 1. */
  lemma RestartSkips(st: Store)
    requires Restartable(st) && !Healthy(st, 0, 0) && |st.data| >= 2
    ensures Swept(st, 1, 0)
  {
    if !BadLeads(st, 0) {
      Rotate(st, 0);
    }
  }

  /** The first set call of a store that has never been written. */
  lemma FirstSetFrom(st: Store, v: Byte, tries: nat) returns (k: Byte)
    requires tries >= 2
    requires !IsKey(GetStatus(st)) && Restartable(st) && (st.badData.Some? ==> |st.data| >= 2)
    ensures Lands(st, v, tries, k, 1) && k <= 1
    ensures BadMimics(st, 0) && 0 < BadPos(st, 0) ==> k == 0
  {
    hide SetFrom;
    k := 0;
    if Healthy(st, 0, 0) {
      LandsHere(st, 0, 0, v, tries);
    } else if st.data[0] == Raw(0, v) {
      FirstSetByChance(st, v, tries);
    } else {
      k := 1;
      RestartSkips(st);
      var t := LandsNext(st, 0, 0, v, tries, 1, 1);
      SweptFrame(st, t, 1, 0);
      RunIs(t, 1, 0);
      assert Healthy(t, 1, 0);
      LandsHere(t, 1, 0, v, tries - 1);
    }
  }

  lemma FirstSet(st: Store, v: Byte) returns (k: Byte)
    requires !IsKey(GetStatus(st)) && Restartable(st) && (st.badData.Some? ==> |st.data| >= 2)
    ensures Set(st, v).ok && k <= 1
    ensures Stored(AfterSet(st, v), k, 1, v)
    ensures BadMimics(st, 0) && 0 < BadPos(st, 0) ==> k == 0
  {
    var tries := TRIES;
    k := FirstSetFrom(st, v, tries);
  }

  lemma ErasedIsLive(st: Store)
    requires Erased(st) && (st.badData.Some? ==> |st.data| >= 2)
    ensures Live(st, BLANK, 0)
  {
  }

  // Tolerated faults

  /** Every non-empty history of set calls leaves its last value stored in some sweep. */
  lemma {:induction false} HistoryIsStored(st: Store, history: seq<Byte>) returns (k: Byte, m: nat)
    requires Erased(st) && Tolerated(st) && (st.badData.Some? ==> |st.data| >= 2)
    requires history != []
    ensures AllSucceed(st, history)
    ensures Stored(AfterSets(st, history), k, m, history[|history| - 1])
    ensures Live(AfterSets(st, history), k, m)
  {
    hide Set, AfterSet;
    var before, v := history[..|history| - 1], history[|history| - 1];
    var now := AfterSets(st, before);
    if before == [] {
      ErasedIsLive(st);
      k := FirstSet(st, v);
      m := 1;
    } else {
      var k0, m0 := HistoryIsStored(st, before);
      SetStep(now, k0, m0, v);
      var next := Advance(now, k0, m0);
      k, m := next.0, next.1;
    }
  }

  lemma ToleratedRemembers(st: Store, history: seq<Byte>)
    requires Erased(st) && Tolerated(st) && (st.badData.Some? ==> |st.data| >= 2)
    requires history != []
    ensures Remembers(st, history)
  {
    var k, m := HistoryIsStored(st, history);
    StoredIsRead(AfterSets(st, history), k, m, history[|history| - 1]);
  }

  // Faults that are not tolerated

  function Repeat(v: Byte, n: nat): seq<Byte> { seq(n, _ => v) }

  lemma {:induction false} AfterSetsFirst(st: Store, v: Byte, history: seq<Byte>)
    ensures AfterSets(st, [v] + history) == AfterSets(AfterSet(st, v), history)
  {
    hide AfterSet;
    var all := [v] + history;
    if history == [] {
      assert all[..0] == [];
    } else {
      var before := history[..|history| - 1];
      assert all[..|all| - 1] == [v] + before;
      AfterSetsFirst(st, v, before);
    }
  }

  /** When a sweep reaches a bad cell that carries its key, get answers with that cell. */
  lemma Betrayed(st: Store, k: Byte, v: Byte)
    requires BadMimics(st, k) && Stored(st, k, BadPos(st, k), v)
    requires v < TOOL_COUNT && v != st.data[st.badData.value] % 16
    ensures Get(st) != Some(v)
  {
    var m := BadPos(st, k);
    assert Run(st.data, k) == m + 1 by {
      assert TagAt(st.data, k, m) == k;
      if m + 1 < |st.data| {
        assert Healthy(st, k, m + 1);
      }
    }
  }

  /** The store is in a sweep before the one that will be misled, or in that one. */
  predicate Approaching(st: Store, k: Byte, m: nat, t: Byte) {
    && IsKey(t) && BadMimics(st, t) && 0 < BadPos(st, t)
    && |st.data| >= 2
    && (k < t || (k == t && m <= BadPos(st, t)))
  }

  lemma StoredIsLive(st: Store, k: Byte, m: nat, t: Byte, v: Byte)
    requires Approaching(st, k, m, t) && Stored(st, k, m, v)
    requires !(k == t && m == BadPos(st, t))
    ensures Live(st, k, m)
  {
  }

  /** Each set call takes the store nearer to the sweep that will be misled. */
  lemma Approach(st: Store, k: Byte, m: nat, t: Byte)
    requires Approaching(st, k, m, t) && IsKey(k) && Start(st, k) <= m <= Limit(st, k)
    requires !(k == t && m == BadPos(st, t))
    ensures var (k', m') := Advance(st, k, m);
      && Approaching(st, k', m', t)
      && (k < k' || (k == k' && m < m'))
  {
  }

  /** Storing v again and again, get eventually answers something else. */
  lemma {:induction false} BetrayedEventually(st: Store, k: Byte, m: nat, t: Byte, v: Byte) returns (n: nat)
    requires Approaching(st, k, m, t) && Stored(st, k, m, v)
    requires v < TOOL_COUNT && v != st.data[st.badData.value] % 16
    ensures Get(AfterSets(st, Repeat(v, n))) != Some(v)
    decreases t - k, |st.data| - m
  {
    hide AfterSet, Set, Stored;
    if k == t && m == BadPos(st, t) {
      n := 0;
      Betrayed(st, k, v);
    } else {
      StoredIsLive(st, k, m, t, v);
      Approach(st, k, m, t);
      SetStep(st, k, m, v);
      var (k', m') := Advance(st, k, m);
      var rest := BetrayedEventually(AfterSet(st, v), k', m', t, v);
      n := rest + 1;
      assert Repeat(v, n) == [v] + Repeat(v, rest);
      AfterSetsFirst(st, v, Repeat(v, rest));
    }
  }

  lemma IntolerableForgets(st: Store) returns (history: seq<Byte>)
    requires Erased(st) && |st.data| >= 2 && !Tolerated(st)
    ensures history != [] && !Remembers(st, history)
  {
    hide AfterSet, Set, SetFrom, Stored, Live;
    var t := Tag(st.data[st.badData.value]);
    var v: Byte := if st.data[st.badData.value] % 16 == 0 then 1 else 0;
    ErasedIsLive(st);
    var k := FirstSet(st, v);
    var n := BetrayedEventually(AfterSet(st, v), k, 1, t, v);
    history := [v] + Repeat(v, n);
    AfterSetsFirst(st, v, Repeat(v, n));
    assert history == Repeat(v, n + 1);
  }

  /**
  The fault claim, exactly. With any one status cell bad and one data cell bad since before
  the first write, the log remembers every history of set calls if and only if the bad data
  cell shows no key, or shows the key of a sweep that starts at it.
  */
  lemma FaultToleranceIsExact(st: Store)
    requires Erased(st) && |st.data| >= 2
    ensures Tolerated(st) <==> forall history: seq<Byte> | history != [] :: Remembers(st, history)
  {
    if Tolerated(st) {
      forall history: seq<Byte> | history != []
        ensures Remembers(st, history)
      {
        ToleratedRemembers(st, history);
      }
    } else {
      var history := IntolerableForgets(st);
    }
  }
}
