/** The pulse generators of all axes, stepped in place by the timer they share. */
module Motion {
  import opened Machine
  import opened SpeedTable
  import opened PulseGenerator
  import AxisModel
  import S = Scheduler
  import M = Motors

  /** An axis is stepped, and its timer set, as the interrupt of the axis itself answers. */
  lemma StepOneIs(t: Tables, a: AxisModel.Axis, residual: U16)
    requires AxisModel.Valid(a)
    ensures S.STEP_TIMER_QUANTUM == 256
    ensures var s := AxisModel.Step(t, a);
      var due := residual <= 256 && (residual != 0 || a.queue != []);
      && s.timer <= MAX_INTERVAL
      && M.After(t, a, residual) == (if due then s.axis else a)
      && S.Timer(residual, M.AnswerOf(t, a))
         == if !due then residual else if s.timer != 0 then residual + s.timer else 0
  {
    S.AxisAnswers(t, a);
    hide AxisModel.Step, AxisModel.Valid;
  }

  /** The axes before i have been stepped, and their timers are known. */
  ghost predicate Stepped(t: Tables, m: M.Motors, now: seq<AxisModel.Axis>, timers: seq<U16>, i: nat) {
    && M.Fit(m) && |m.axes| == |now| == |timers| && i <= |now|
    && (forall j | 0 <= j < i ::
          && now[j] == M.After(t, m.axes[j], m.residuals[j])
          && timers[j] == S.Timer(m.residuals[j], M.AnswerOf(t, m.axes[j])))
    && (forall j | i <= j < |now| :: now[j] == m.axes[j])
  }

  lemma StartsStepping(t: Tables, m: M.Motors, timers: seq<U16>)
    requires M.Fit(m) && |timers| == |m.axes|
    ensures Stepped(t, m, m.axes, timers, 0)
  {
    hide AxisModel.Valid;
  }

  lemma StepsOn(t: Tables, m: M.Motors, now: seq<AxisModel.Axis>, timers: seq<U16>, i: nat)
    requires Stepped(t, m, now, timers, i) && i < |now|
    ensures now[i] == m.axes[i] && AxisModel.Valid(now[i])
    ensures Stepped(t, m, now[i := M.After(t, now[i], m.residuals[i])],
                    timers[i := S.Timer(m.residuals[i], M.AnswerOf(t, now[i]))], i + 1)
  {
    hide AxisModel.Valid, M.After, M.AnswerOf, S.Timer;
  }

  lemma AllStepped(t: Tables, m: M.Motors, now: seq<AxisModel.Axis>, timers: seq<U16>)
    requires Stepped(t, m, now, timers, |now|)
    ensures timers == S.Timers(m.residuals, M.Answers(t, m)) && now == M.Call(t, m).axes
  {
    hide S.Timer, M.AnswerOf, M.After, AxisModel.Valid, S.Residuals;
  }

  class Motion {
    const tables: Tables
    const axes: array<PulseGen>
    const residual: array<U16>
    ghost const repr: set<object>

    ghost predicate Valid()
      reads repr
    {
      && axes in repr && residual in repr && axes.Length == residual.Length >= 1
      && (forall i | 0 <= i < axes.Length ::
            && axes[i] in repr && axes[i].blockBuffer in repr
            && axes[i].tables == tables && axes[i].Valid())
      && (forall i, j | 0 <= i < j < axes.Length ::
            axes[i] != axes[j] && axes[i].blockBuffer != axes[j].blockBuffer)
    }

    ghost function Contents(): (m: M.Motors)
      requires Valid()
      reads repr
      ensures |m.axes| == axes.Length && m.residuals == residual[..]
      ensures forall i | 0 <= i < axes.Length :: m.axes[i] == axes[i].Contents()
    {
      M.Motors(UpTo(axes.Length), residual[..])
    }

    ghost function UpTo(n: nat): (s: seq<AxisModel.Axis>)
      requires Valid() && n <= axes.Length
      reads repr
      ensures |s| == n && forall i | 0 <= i < n :: s[i] == axes[i].Contents()
    {
      if n == 0 then [] else UpTo(n - 1) + [axes[n - 1].Contents()]
    }

    /** All axes at rest. */
    constructor (tables: Tables, axes: array<PulseGen>)
      requires axes.Length >= 1
      requires forall i | 0 <= i < axes.Length :: axes[i].tables == tables && axes[i].Valid()
      requires forall i, j | 0 <= i < j < axes.Length ::
                 axes[i] != axes[j] && axes[i].blockBuffer != axes[j].blockBuffer
      ensures Valid() && this.axes == axes && this.tables == tables && fresh(residual)
      ensures forall i | 0 <= i < axes.Length :: residual[i] == 0
    {
      hide PulseGen.Valid, PulseGen.Contents;
      var none := new U16[axes.Length](_ => 0);
      this.tables, this.axes, residual := tables, axes, none;
      ghost var generators: set<object> := set i | 0 <= i < axes.Length :: axes[i];
      ghost var buffers: set<object> := set i | 0 <= i < axes.Length :: axes[i].blockBuffer;
      ghost var own: set<object> := {axes, none};
      repr := own + generators + buffers;
    }

    lemma Fits()
      requires Valid()
      ensures M.Fit(Contents())
    {
    }

    lemma Part(i: nat)
      requires Valid() && i < axes.Length
      ensures Contents().axes[i] == axes[i].Contents() && Contents().residuals[i] == residual[i]
      ensures AxisModel.Valid(axes[i].Contents()) && axes[i].tables == tables && axes[i].Valid()
    {
    }

    /** Steps an axis if it is due, and gives its timer. */
    method StepAxis(i: nat) returns (timer: U16)
      requires Valid() && i < axes.Length
      modifies axes[i]
      ensures Valid()
      ensures AxisModel.Valid(old(Contents()).axes[i])
      ensures Contents().axes == old(Contents()).axes[i := M.After(tables, old(Contents()).axes[i], residual[i])]
      ensures timer == S.Timer(residual[i], M.AnswerOf(tables, old(Contents()).axes[i]))
    {
      hide M.Fit, M.After, S.Timer, M.AnswerOf, PulseGen.Valid, PulseGen.Contents, AxisModel.Valid, UpTo;
      Part(i);
      timer := StepOne(axes[i], residual[i]);
    }

    static method StepOne(axis: PulseGen, residual: U16) returns (timer: U16)
      requires axis.Valid() && AxisModel.Valid(axis.Contents())
      modifies axis
      ensures axis.Valid() && axis.Contents() == M.After(axis.tables, old(axis.Contents()), residual)
      ensures timer == S.Timer(residual, M.AnswerOf(axis.tables, old(axis.Contents())))
    {
      StepOneIs(axis.tables, axis.Contents(), residual);
      hide *;
      timer := residual;
      if timer <= S.STEP_TIMER_QUANTUM {
        var empty := axis.IsEmpty();
        if timer != 0 || !empty {
          var interval, _ := axis.Step();
          timer := if interval != 0 then timer + interval else 0;
        }
      }
    }

    /** Steps the axes that are due and takes the interval of each one. */
    method StepAxes() returns (timers: array<U16>)
      requires Valid()
      modifies axes[..]
      ensures Valid() && M.Fit(old(Contents()))
      ensures fresh(timers) && timers.Length == residual.Length
      ensures timers[..] == S.Timers(old(Contents()).residuals, M.Answers(tables, old(Contents())))
      ensures Contents().axes == M.Call(tables, old(Contents())).axes
    {
      hide M.Fit, M.After, M.AnswerOf, M.Call, S.Timer, S.Timers, M.Answers, PulseGen.Valid, PulseGen.Contents,
           AxisModel.Valid, UpTo, Stepped;
      Fits();
      ghost var m := Contents();
      var n := axes.Length;
      timers := new U16[n](_ => 0);
      StartsStepping(tables, m, timers[..]);
      for i := 0 to n
        invariant Valid() && Contents().residuals == m.residuals
        invariant Stepped(tables, m, Contents().axes, timers[..], i)
      {
        ghost var now, before := Contents().axes, timers[..];
        Part(i);
        var timer := StepAxis(i);
        timers[i] := timer;
        StepsOn(tables, m, now, before, i);
        assert timers[..] == before[i := timer];
      }
      AllStepped(tables, m, Contents().axes, timers[..]);
    }

    /** Plans the next closest interval. */
    static method FindClosest(timers: array<U16>) returns (next: U16)
      requires timers.Length >= 1
      ensures next == S.Closest(timers[..])
    {
      next := timers[0];
      assert timers[..1] == [timers[0]] && [timers[0]][..0] == [];
      for i := 1 to timers.Length
        invariant next == S.Closest(timers[..i])
      {
        assert timers[..i + 1][..i] == timers[..i];
        if timers[i] != 0 && (next == 0 || timers[i] < next) {
          next := timers[i];
        }
      }
      assert timers[..timers.Length] == timers[..];
    }

    /** Updates the residuals. */
    method Carry(timers: array<U16>, next: U16)
      requires Valid() && timers.Length == residual.Length && timers != residual && next == S.Closest(timers[..])
      modifies residual
      ensures Valid() && Contents() == old(Contents()).(residuals := S.Residuals(timers[..]))
    {
      hide M.Fit, PulseGen.Valid, PulseGen.Contents, AxisModel.Valid, S.Closest;
      for i := 0 to residual.Length
        invariant Valid() && Contents().axes == old(Contents()).axes
        invariant forall j | 0 <= j < i :: residual[j] == if timers[j] != 0 then timers[j] - next else 0
      {
        residual[i] := if timers[i] != 0 then timers[i] - next else 0;
      }
      assert residual[..] == S.Residuals(timers[..]);
    }

    /** One timer interrupt: steps every axis that is due and gives the time to the next one. */
    method Step() returns (next: U16)
      requires Valid()
      modifies residual, axes[..]
      ensures Valid() && M.Fit(old(Contents()))
      ensures Contents() == M.Call(tables, old(Contents()))
      ensures next == S.Closest(S.Timers(old(Contents()).residuals, M.Answers(tables, old(Contents()))))
    {
      hide M.Fit, M.After, M.AnswerOf, S.Timers, M.Answers, PulseGen.Valid, PulseGen.Contents, AxisModel.Valid, UpTo,
           S.Closest, S.Residuals;
      var timers := StepAxes();
      next := FindClosest(timers);
      Carry(timers, next);
    }
  }
}
