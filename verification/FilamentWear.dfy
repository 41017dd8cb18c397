/** How evenly a fault-free store wears. */
module FilamentWear {
  import opened Machine
  import opened Arithmetic
  import opened FilamentLog
  import opened FilamentSweeps

  predicate FaultFree(st: Store) { st.badStatus.None? && st.badData.None? }

  /** The physical writes of one cell. */
  function Writes(st: Store, c: Cell): nat { st.wear[c] }

  /** Sweep number `sweep`, counted from 1, uses the keys in turn. */
  function SweepKey(sweep: nat): Byte
    requires sweep >= 1
  {
    (sweep - 1) % 4
  }

  /**
  The store is at position m of its sweep number `sweep`: status cells were written once per
  sweep, data cells once per sweep that passed them.
  */
  predicate Worn(st: Store, sweep: nat, m: nat)
    requires sweep >= 1
  {
    var k := SweepKey(sweep);
    && FaultFree(st)
    && st.status == [k, k, k]
    && 1 <= m && Swept(st, k, m)
    && (forall i | 0 <= i < 3 :: Writes(st, Status(i)) == sweep)
    && (forall p | 0 <= p < |st.data| ::
          Writes(st, Data(Slot(|st.data|, k, p))) == if p < m then sweep else sweep - 1)
  }

  /** One pass of set on a fault-free store: the exact image it ends with. */
  lemma FaultFreePass(st: Store, v: Byte, tries: nat)
    requires FaultFree(st) && tries > 0
    ensures var (k, p) := Target(st);
      var s := StatusTrace(st, k)[2];
      Final(st, SetFrom(st, v, tries).trace) == Update(s, Data(Slot(|st.data|, k, p)), Raw(k, v))
  {
    WriteIs(st, v);
    FaultFreeWrite(st, v);
    hide *;
    SetIs(st, v, tries);
    FinalIs(st, WriteTrace(st, v), []);
  }

  lemma FaultFreeWrite(st: Store, v: Byte)
    requires FaultFree(st)
    ensures Accepted(st, v)
  {
    WriteIs(st, v);
    hide StatusTrace, Target, GetStatus, WriteTrace, Raw;
  }

  /** Rewriting the status cells costs nothing, switching them costs one write each. */
  lemma StatusWear(st: Store, old': Byte, k: Byte)
    requires FaultFree(st) && st.status == [old', old', old']
    ensures var s := StatusTrace(st, k)[2];
      && s.status == [k, k, k] && s.data == st.data && FaultFree(s)
      && (forall i :: Writes(s, Data(i)) == Writes(st, Data(i)))
      && (forall i | 0 <= i < 3 ::
            Writes(s, Status(i)) == Writes(st, Status(i)) + if k == old' then 0 else 1)
  {
    var s0 := Update(st, Status(0), k);
    var s1 := Update(s0, Status(1), k);
    hide Update, SameHardware;
    UpdateWear(st, 0, k);
    UpdateWear(s0, 1, k);
    UpdateWear(s1, 2, k);
  }

  /** One status update, counted. */
  lemma UpdateWear(st: Store, i: nat, k: Byte)
    requires FaultFree(st) && i < 3
    ensures var s := Update(st, Status(i), k);
      && s.status == st.status[i := k] && s.data == st.data && FaultFree(s)
      && (forall j :: Writes(s, Data(j)) == Writes(st, Data(j)))
      && (forall j :: Writes(s, Status(j)) == Writes(st, Status(j)) + if j == i && st.status[i] != k then 1 else 0)
  {
  }

  /** The data write of a pass extends the sweep and wears exactly its own cell. */
  lemma DataWear(s: Store, k: Byte, m: nat, v: Byte)
    requires FaultFree(s) && Swept(s, k, m) && m < |s.data|
    ensures var c := Update(s, Data(Slot(|s.data|, k, m)), Raw(k, v));
      && Swept(c, k, m + 1) && c.status == s.status && FaultFree(c)
      && (forall i :: Writes(c, Status(i)) == Writes(s, Status(i)))
      && (forall p | 0 <= p < |s.data| ::
            Writes(c, Data(Slot(|s.data|, k, p)))
            == Writes(s, Data(Slot(|s.data|, k, p))) + if p == m then 1 else 0)
  {
    Extend(s, k, m, v);
    assert Healthy(s, k, m) && TagAt(s.data, k, m) != k;
    assert s.data[Slot(|s.data|, k, m)] != Raw(k, v);
  }

  lemma WearStep(st: Store, sweep: nat, m: nat, v: Byte)
    requires sweep >= 1 && Worn(st, sweep, m)
    ensures m < |st.data| ==> Worn(AfterSet(st, v), sweep, m + 1)
    ensures m == |st.data| ==> Worn(AfterSet(st, v), sweep + 1, 1)
  {
    var tries := TRIES;
    var k := SweepKey(sweep);
    FaultFreePass(st, v, tries);
    RunIs(st, k, m);
    hide SetFrom, StatusTrace, Update, Swept, Marked, SameHardware, Raw, Run;
    if m < |st.data| {
      SameWear(st, sweep, m, v);
    } else {
      Rotate(st, k);
      TurnWear(st, sweep, v);
    }
  }

  /** The call that goes on with a sweep. */
  lemma SameWear(st: Store, sweep: nat, m: nat, v: Byte)
    requires sweep >= 1 && Worn(st, sweep, m) && m < |st.data|
    ensures var k := SweepKey(sweep);
      IsKey(k) && Worn(Update(StatusTrace(st, k)[2], Data(Slot(|st.data|, k, m)), Raw(k, v)), sweep, m + 1)
  {
    hide StatusTrace, Update, Swept, Marked, SweepKey;
    var k := SweepKey(sweep);
    NextSweep(sweep);
    StatusWear(st, k, k);
    var s := StatusTrace(st, k)[2];
    SweptFrame(st, s, k, m);
    DataWear(s, k, m, v);
  }

  lemma NextSweep(sweep: nat)
    requires sweep >= 1
    ensures SweepKey(sweep + 1) == NextKey(SweepKey(sweep)) && IsKey(SweepKey(sweep))
  {
  }

  /** The call that starts a new sweep. */
  lemma TurnWear(st: Store, sweep: nat, v: Byte)
    requires sweep >= 1 && Worn(st, sweep, |st.data|)
    requires Swept(st, NextKey(SweepKey(sweep)), 0)
    ensures var k' := NextKey(SweepKey(sweep));
      Worn(Update(StatusTrace(st, k')[2], Data(Slot(|st.data|, k', 0)), Raw(k', v)), sweep + 1, 1)
  {
    hide StatusTrace, Update, Swept, SweepKey;
    var k, k', n := SweepKey(sweep), NextKey(SweepKey(sweep)), |st.data|;
    NextSweep(sweep);
    StatusWear(st, k, k');
    var s := StatusTrace(st, k')[2];
    SweptFrame(st, s, k', 0);
    DataWear(s, k', 0, v);
    var c := Update(s, Data(Slot(n, k', 0)), Raw(k', v));
    forall p | 0 <= p < n
      ensures Writes(c, Data(Slot(n, k', p))) == if p < 1 then sweep + 1 else sweep
    {
      assert Slot(n, k', p) == Slot(n, k, n - 1 - p);
    }
  }

  lemma FirstWear(st: Store, v: Byte)
    requires Erased(st) && FaultFree(st)
    ensures Worn(AfterSet(st, v), 1, 1)
  {
    var tries := TRIES;
    FaultFreePass(st, v, tries);
    StatusWear(st, BLANK, 0);
    var s := StatusTrace(st, 0)[2];
    DataWear(s, 0, 0, v);
  }

  lemma {:induction false} HistoryWear(st: Store, history: seq<Byte>) returns (sweep: nat, m: nat)
    requires Erased(st) && FaultFree(st) && history != []
    ensures sweep >= 1 && Worn(AfterSets(st, history), sweep, m)
    ensures |history| == |st.data| * (sweep - 1) + m
  {
    hide AfterSet, Worn;
    var before, v := history[..|history| - 1], history[|history| - 1];
    if before == [] {
      FirstWear(st, v);
      sweep, m := 1, 1;
    } else {
      var sweep0, m0 := HistoryWear(st, before);
      WearStep(AfterSets(st, before), sweep0, m0, v);
      WornPosition(AfterSets(st, before), sweep0, m0);
      if m0 < |st.data| {
        sweep, m := sweep0, m0 + 1;
      } else {
        sweep, m := sweep0 + 1, 1;
        assert |st.data| * (sweep0 - 1) + |st.data| == |st.data| * sweep0;
      }
    }
  }

  lemma WornPosition(st: Store, sweep: nat, m: nat)
    requires sweep >= 1 && Worn(st, sweep, m)
    ensures 1 <= m <= |st.data|
  {
  }

  lemma CeilingIs(n: nat, size: nat, sweep: nat, m: nat)
    requires 1 <= m <= size && sweep >= 1 && n == size * (sweep - 1) + m
    ensures (n + size - 1) / size == sweep
  {
    var rest := m - 1;
    assert n + size - 1 == size * sweep + rest by {
      assert size * (sweep - 1) + size == size * sweep;
    }
    assert 0 <= rest < size;
    DivUnique(n + size - 1, size, sweep);
  }

  lemma WornEvenly(c: Store, sweep: nat, m: nat)
    requires sweep >= 1 && Worn(c, sweep, m)
    ensures forall i | 0 <= i < 3 :: Writes(c, Status(i)) == sweep
    ensures forall i | 0 <= i < |c.data| :: sweep - 1 <= Writes(c, Data(i)) <= sweep
  {
    var n, k := |c.data|, SweepKey(sweep);
    forall i | 0 <= i < n
      ensures sweep - 1 <= Writes(c, Data(i)) <= sweep
    {
      assert i == Slot(n, k, Slot(n, k, i));
    }
  }

  /**
  After n calls on an erased fault-free store of N data cells, every status cell has been
  written exactly ceil(n/N) times, every data cell ceil(n/N) or one time less, and any two
  data cells differ by at most one write.
  */
  lemma WearIsEven(st: Store, history: seq<Byte>)
    requires Erased(st) && FaultFree(st)
    ensures var c := AfterSets(st, history);
      var sweeps := (|history| + |st.data| - 1) / |st.data|;
      && (forall i | 0 <= i < 3 :: Writes(c, Status(i)) == sweeps)
      && (forall i | 0 <= i < |st.data| :: sweeps - 1 <= Writes(c, Data(i)) <= sweeps)
      && (forall i, j | 0 <= i < |st.data| && 0 <= j < |st.data| ::
            Writes(c, Data(i)) <= Writes(c, Data(j)) + 1)
  {
    hide AfterSet, Worn;
    if history != [] {
      var sweep, m := HistoryWear(st, history);
      var c := AfterSets(st, history);
      WornPosition(c, sweep, m);
      CeilingIs(|history|, |st.data|, sweep, m);
      WornEvenly(c, sweep, m);
    } else {
      DivUnique(|st.data| - 1, |st.data|, 0);
    }
  }
}
