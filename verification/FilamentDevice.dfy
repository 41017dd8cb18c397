/** The filament log as it works on the EEPROM, proved against the image functions. */
module FilamentDevice {
  import opened Machine
  import opened FilamentLog

  /** How the updates of one pass follow each other. */
  lemma PassUnfolds(st: Store, v: Byte, k: Byte, index: nat, s: Store, c: Store, next: Store)
    requires index < |st.data| && IsKey(k)
    requires (k, index) == (Target(st).0, Slot(|st.data|, Target(st).0, Target(st).1))
    requires s == StatusTrace(st, k)[2] && |s.data| == |st.data|
    requires c == Update(s, Data(index), Raw(k, v))
    requires next == StatusTrace(c, NextKey(k))[2]
    ensures var pass := OnePass(st, v);
      if FilamentLog.GetStatus(s) != k then pass == Pass(Some(false), StatusTrace(st, k))
      else if c.data[index] == Raw(k, v) then pass == Pass(Some(true), StatusTrace(st, k) + [c])
      else pass == Pass(if FilamentLog.GetStatus(next) != NextKey(k) then Some(false) else None,
                        StatusTrace(st, k) + [c] + StatusTrace(c, NextKey(k)))
  {
  }

  lemma FinalIs(st: Store, s: seq<Store>, c: Store, next: seq<Store>)
    requires s != [] && next != []
    ensures Final(st, s) == s[|s| - 1]
    ensures Final(st, s + [c]) == c
    ensures Final(st, s + [c] + next) == next[|next| - 1]
  {
  }

  /** What is left of a call: with its result, its updates so far and the image it will end with. */
  predicate Leaves(run: Outcome, end: Store, had: seq<Store>, now: Store, images: seq<Store>, v: Byte, tries: nat) {
    var rest := SetFrom(now, v, tries);
    run.ok == rest.ok && had + run.trace == images + rest.trace && end == Final(now, rest.trace)
  }

  lemma LeavesAll(st: Store, images: seq<Store>, v: Byte)
    ensures Leaves(FilamentLog.Set(st, v), AfterSet(st, v), images, st, images, v, TRIES)
  {
    hide SetFrom, Final;
  }

  /** What one pass from `now` has done. */
  predicate Passed(now: Store, images: seq<Store>, next: Store, images': seq<Store>, result: Option<bool>, v: Byte) {
    var pass := OnePass(now, v);
    result == pass.result && images' == images + pass.trace && next == Final(now, pass.trace)
  }

  /** What a finished call has done. */
  predicate Finished(run: Outcome, end: Store, had: seq<Store>, now: Store, images: seq<Store>, ok: bool) {
    ok == run.ok && images == had + run.trace && now == end
  }

  lemma LeavesNext(run: Outcome, end: Store, had: seq<Store>, now: Store, images: seq<Store>, v: Byte, tries: nat,
                   next: Store, images': seq<Store>, result: Option<bool>)
    requires tries > 0 && Leaves(run, end, had, now, images, v, tries)
    requires Passed(now, images, next, images', result, v)
    ensures if result.Some? then Finished(run, end, had, next, images', result.value)
            else Leaves(run, end, had, next, images', v, tries - 1)
  {
    hide OnePass, SetFrom;
    var pass := OnePass(now, v);
    SetUnfolds(now, v, tries);
    Regrouped(images, pass.trace, SetFrom(next, v, tries - 1).trace);
  }

  lemma LeavesNothing(run: Outcome, end: Store, had: seq<Store>, now: Store, images: seq<Store>, v: Byte)
    requires Leaves(run, end, had, now, images, v, 0)
    ensures Finished(run, end, had, now, images, false)
  {
    NoPass(now, v);
    hide SetFrom;
  }

  lemma PrefixNone(a: seq<Store>, t: seq<Store>)
    ensures a + t[..0] == a
  {
  }

  lemma PrefixGrows(a: seq<Store>, t: seq<Store>, i: nat)
    requires i < |t|
    ensures a + t[..i] + [t[i]] == a + t[..i + 1]
  {
  }

  lemma PrefixWhole(a: seq<Store>, t: seq<Store>)
    ensures a + t[..|t|] == a + t
  {
  }

  lemma Regrouped(a: seq<Store>, b: seq<Store>, c: seq<Store>)
    ensures a + (b + c) == a + b + c
  {
  }

  class FilamentLoaded {
    const status: array<Byte>
    const filament: array<Byte>
    const badStatus: Option<nat>
    const badData: Option<nat>
    ghost var wear: multiset<Cell>
    /** The image after every byte update ever made: where a power cut can leave the cells. */
    ghost var images: seq<Store>

    ghost predicate Valid()
      reads this, status, filament
    {
      && status != filament
      && Image(status[..], filament[..], badStatus, badData, wear).Valid()
    }

    ghost function Contents(): Store
      requires Valid()
      reads this, status, filament
    {
      Image(status[..], filament[..], badStatus, badData, wear)
    }

    /** An EEPROM whose cells hold the given bytes. */
    constructor (st: Store)
      ensures Valid() && Contents() == st && images == []
      ensures fresh(status) && fresh(filament)
    {
      status := new Byte[3](i requires 0 <= i < 3 => st.status[i]);
      filament := new Byte[|st.data|](i requires 0 <= i < |st.data| => st.data[i]);
      badStatus, badData := st.badStatus, st.badData;
      wear, images := st.wear, [];
      new;
      assert status[..] == st.status && filament[..] == st.data;
    }

    method ReadByte(c: Cell) returns (b: Byte)
      requires Valid() && Holds(Contents(), c)
      ensures b == Read(Contents(), c)
    {
      match c
      case Status(i) => b := status[i];
      case Data(i) => b := filament[i];
    }

    method UpdateByte(c: Cell, v: Byte)
      requires Valid() && Holds(Contents(), c)
      modifies this, status, filament
      ensures Valid() && Contents() == Update(old(Contents()), c, v)
      ensures |Contents().data| == |old(Contents()).data|
      ensures images == old(images) + [Contents()]
    {
      var b := ReadByte(c);
      if b != v {
        match c {
          case Status(i) =>
            if badStatus != Some(i) {
              status[i] := v;
              wear := wear + multiset{c};
            }
          case Data(i) =>
            if badData != Some(i) {
              filament[i] := v;
              wear := wear + multiset{c};
            }
        }
      }
      images := images + [Contents()];
    }

    method GetStatus() returns (k: Byte)
      requires Valid()
      ensures k == FilamentLog.GetStatus(Contents())
    {
      if status[0] == status[1] { return status[0]; }
      if status[0] == status[2] { return status[0]; }
      if status[1] == status[2] { return status[1]; }
      return BLANK;
    }

    method SetStatus(k: Byte) returns (ok: bool)
      requires Valid()
      modifies this, status, filament
      ensures Valid()
      ensures images == old(images) + StatusTrace(old(Contents()), k)
      ensures Contents() == StatusTrace(old(Contents()), k)[2]
      ensures |Contents().data| == |old(Contents()).data|
      ensures ok == (FilamentLog.GetStatus(Contents()) == k)
    {
      var i := 0;
      ghost var st := Contents();
      ghost var t := StatusTrace(st, k);
      assert forall j | 0 <= j < 3 :: t[j] == Update(if j == 0 then st else t[j - 1], Status(j), k);
      PrefixNone(old(images), t);
      hide StatusTrace, Update, Contents, Valid, SameHardware;
      while i < 3
        invariant 0 <= i <= 3 && Valid()
        invariant Contents() == if i == 0 then st else t[i - 1]
        invariant images == old(images) + t[..i]
      {
        UpdateByte(Status(i), k);
        PrefixGrows(old(images), t, i);
        i := i + 1;
      }
      PrefixWhole(old(images), t);
      var now := GetStatus();
      ok := now == k;
    }

    /** The scan for the first cell whose key differs. */
    method GetIndex() returns (index: int)
      requires Valid()
      ensures index == FilamentLog.GetIndex(Contents())
    {
      var k := GetStatus();
      var n := filament.Length;
      index := -1;
      if k == 0 || k == 2 {
        index := n - 1;
        var i := 0;
        while i < n
          invariant 0 <= i <= n && index == n - 1
          invariant Run(filament[..], k) == RunFrom(filament[..], k, i)
        {
          if k != filament[i] / 16 {
            index := i - 1;
            break;
          }
          i := i + 1;
        }
      } else if k == 1 || k == 3 {
        index := 0;
        var i := n - 1;
        while i >= 0
          invariant -1 <= i <= n - 1 && index == 0
          invariant Run(filament[..], k) == RunFrom(filament[..], k, n - 1 - i)
        {
          if k != filament[i] / 16 {
            index := i + 1;
            break;
          }
          i := i - 1;
        }
      }
    }

    method Get() returns (ok: bool, value: Byte)
      requires Valid()
      ensures (if ok then Some(value) else None) == FilamentLog.Get(Contents())
    {
      var index := GetIndex();
      value := 0;
      if index < 0 || index >= filament.Length { return false, value; }
      var raw := filament[index];
      value := raw % 16;
      if value >= TOOL_COUNT { return false, value; }
      var k := GetStatus();
      if !(k == 0 || k == 1 || k == 2 || k == 3) { return false, value; }
      if raw / 16 != k { return false, value; }
      return true, value;
    }

    /** The two-argument getNext. */
    method GetNext(k0: Byte, index0: int) returns (k: Byte, index: int)
      requires Valid()
      ensures (k, index) == NextCell(filament.Length, k0, index0)
    {
      k, index := k0, index0;
      if k == 0 || k == 2 {
        index := index + 1;
        if index < 0 || index >= filament.Length {
          k := NextKey(k);
          index := filament.Length - 1;
        }
      } else if k == 1 || k == 3 {
        index := index - 1;
        if index < 0 || index >= filament.Length {
          k := NextKey(k);
          index := 0;
        }
      } else {
        k, index := 0, 0;
      }
    }

    /** The body of the loop of set: None when the loop goes on. */
    method Pass(v: Byte) returns (result: Option<bool>)
      requires Valid()
      modifies this, status, filament
      ensures Valid()
      ensures Passed(old(Contents()), old(images), Contents(), images, result, v)
    {
      var k := GetStatus();
      var index := GetIndex();
      k, index := GetNext(k, index);
      NextCellIsTarget(Contents());
      ghost var st, s := Contents(), StatusTrace(Contents(), k);
      ghost var c := Update(s[2], Data(index), Raw(k, v));
      ghost var next := StatusTrace(c, NextKey(k));
      PassUnfolds(st, v, k, index, s[2], c, next[2]);
      FinalIs(st, s, c, next);
      Regrouped(images, s, [c]);
      Regrouped(images, s + [c], next);
      hide StatusTrace, Update, Target, OnePass, Final, FilamentLog.GetStatus, FilamentLog.GetIndex,
           Run, RunFrom, Raw, Contents, Valid, SameHardware, NextKey;
      var ok := SetStatus(k);
      if !ok { return Some(false); }
      var raw := Raw(k, v);
      UpdateByte(Data(index), raw);
      var back := ReadByte(Data(index));
      if raw == back { return Some(true); }
      ok := SetStatus(NextKey(k));
      result := if ok then None else Some(false);
    }

    /** set: stores the bottom nibble of v, retrying with the next key when a cell fails. */
    method Set(v: Byte) returns (ok: bool)
      requires Valid()
      modifies this, status, filament
      ensures Valid()
      ensures Finished(FilamentLog.Set(old(Contents()), v), AfterSet(old(Contents()), v), old(images),
                       Contents(), images, ok)
    {
      ghost var now, had := Contents(), images;
      ghost var run, end := FilamentLog.Set(now, v), AfterSet(now, v);
      LeavesAll(now, had, v);
      hide *;
      var i := 0;
      while i < TRIES
        invariant 0 <= i <= TRIES && Valid() && now == Contents()
        invariant Leaves(run, end, had, now, images, v, TRIES - i)
      {
        ghost var before, seen := now, images;
        var result := Pass(v);
        now := Contents();
        LeavesNext(run, end, had, before, seen, v, TRIES - i, now, images, result);
        if result.Some? { return result.value; }
        i := i + 1;
      }
      LeavesNothing(run, end, had, now, images, v);
      ok := false;
    }
  }
}
