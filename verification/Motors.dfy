/** All axes under the shared timer: every planned move of every axis is finished. */
module Motors {
  import opened Machine
  import opened Arithmetic
  import opened SpeedTable
  import opened AxisModel
  import S = Scheduler

  /** The axes and what is left of the interval of each one. */
  datatype Motors = Motors(axes: seq<Axis>, residuals: seq<U16>)

  predicate Fit(m: Motors) {
    |m.axes| == |m.residuals| && forall a | a in m.axes :: AxisModel.Valid(a)
  }

  function AnswerOf(t: Tables, a: Axis): (r: S.Answer)
    requires AxisModel.Valid(a)
    ensures r.Valid() && r.queueEmpty == (a.queue == [])
  {
    S.AxisAnswers(t, a);
    S.Answer(a.queue == [], AxisModel.Step(t, a).timer)
  }

  function Answers(t: Tables, m: Motors): (r: seq<S.Answer>)
    requires Fit(m)
    ensures |r| == |m.axes| && forall a | a in r :: a.Valid()
  {
    seq(|m.axes|, i requires 0 <= i < |m.axes| => AnswerOf(t, m.axes[i]))
  }

  /** An axis after a timer interrupt: stepped if it was due. */
  function After(t: Tables, a: Axis, residual: U16): (r: Axis)
    requires AxisModel.Valid(a)
    ensures AxisModel.Valid(r) && Head(r) == Head(a)
  {
    StepKeepsValid(t, a);
    StepExecutes(t, a);
    if S.Due(residual, AnswerOf(t, a)) then AxisModel.Step(t, a).axis else a
  }

  /** One timer interrupt: Motion::Step over the pulse generators themselves. */
  function Call(t: Tables, m: Motors): (r: Motors)
    requires Fit(m)
    ensures Fit(r) && |r.axes| == |m.axes|
  {
    Motors(seq(|m.axes|, i requires 0 <= i < |m.axes| => After(t, m.axes[i], m.residuals[i])),
           S.Residuals(S.Timers(m.residuals, Answers(t, m))))
  }

  function Calls(t: Tables, m: Motors, n: nat): (r: Motors)
    requires Fit(m)
    ensures Fit(r) && |r.axes| == |m.axes|
    decreases n
  {
    hide *;
    if n == 0 then m else Calls(t, Call(t, m), n - 1)
  }

  // Progress

  function Sum(s: seq<nat>): nat {
    if s == [] then 0 else s[0] + Sum(s[1..])
  }

  predicate Below(s: seq<nat>, t: seq<nat>) {
    |s| == |t| && forall i | 0 <= i < |s| :: s[i] <= t[i]
  }

  /** Sums of numbers that did not grow, one of which fell. */
  lemma {:induction false} SumFalls(s: seq<nat>, t: seq<nat>)
    requires Below(s, t)
    ensures Sum(s) <= Sum(t)
    ensures (exists i :: 0 <= i < |s| && s[i] < t[i]) ==> Sum(s) < Sum(t)
    decreases |s|
  {
    if s != [] {
      assert Below(s[1..], t[1..]);
      SumFalls(s[1..], t[1..]);
      if i :| 0 < i < |s| && s[i] < t[i] {
        assert s[1..][i - 1] < t[1..][i - 1];
      }
    }
  }

  lemma {:induction false} SumIsZero(s: seq<nat>)
    ensures Sum(s) == 0 <==> forall i | 0 <= i < |s| :: s[i] == 0
    decreases |s|
  {
    if s != [] {
      SumIsZero(s[1..]);
      assert forall i | 1 <= i < |s| :: s[i] == s[1..][i - 1];
      assert forall i | 0 <= i < |s| - 1 :: s[1..][i] == s[i + 1];
    }
  }

  lemma {:induction false} SumOfOnes(s: seq<nat>)
    requires forall i | 0 <= i < |s| :: s[i] <= 1
    ensures Sum(s) <= |s|
    decreases |s|
  {
    if s != [] {
      SumOfOnes(s[1..]);
    }
  }

  function ToCome(a: Axis): nat
    requires AxisModel.Valid(a)
  {
    |Unexecuted(a)|
  }

  /** The steps to come, axis by axis. */
  function Work(m: Motors): (s: seq<nat>)
    requires Fit(m)
    ensures |s| == |m.axes|
  {
    seq(|m.axes|, i requires 0 <= i < |m.axes| => ToCome(m.axes[i]))
  }

  /** Which axes are still waiting for the end of an interval. */
  function WaitsOf(residuals: seq<U16>): (s: seq<nat>)
    ensures |s| == |residuals|
  {
    seq(|residuals|, i requires 0 <= i < |residuals| => if residuals[i] == 0 then 0 else 1)
  }

  function Waits(m: Motors): seq<nat> { WaitsOf(m.residuals) }

  /** A bound for the number of interrupts until everything is done. */
  function Measure(m: Motors): nat
    requires Fit(m)
  {
    Sum(Work(m)) * (|m.axes| + 1) + Sum(Waits(m))
  }

  lemma AfterWorks(t: Tables, a: Axis, residual: U16)
    requires AxisModel.Valid(a)
    ensures ToCome(After(t, a, residual)) <= ToCome(a)
    ensures S.Due(residual, AnswerOf(t, a)) && a.queue != [] ==> ToCome(After(t, a, residual)) < ToCome(a)
    ensures a.queue == [] ==> After(t, a, residual) == a
  {
    StepExecutes(t, a);
    hide Unexecuted, AxisModel.Valid, Head;
  }

  lemma IdleWhenNothingToCome(a: Axis)
    requires AxisModel.Valid(a)
    ensures ToCome(a) == 0 <==> a.queue == []
    ensures ToCome(a) == 0 ==> a.at == Head(a)
  {
    if ToCome(a) == 0 {
      EmptyWhenNothingToCome(a);
    }
  }

  predicate Working(t: Tables, m: Motors, i: nat)
    requires Fit(m) && i < |m.axes|
  {
    S.Due(m.residuals[i], AnswerOf(t, m.axes[i])) && m.axes[i].queue != []
  }

  lemma WorkFalls(t: Tables, m: Motors)
    requires Fit(m)
    ensures Sum(Work(Call(t, m))) <= Sum(Work(m))
    ensures (exists i :: 0 <= i < |m.axes| && Working(t, m, i)) ==> Sum(Work(Call(t, m))) < Sum(Work(m))
  {
    var r := Call(t, m);
    hide AnswerOf, After, ToCome, AxisModel.Valid, S.Due, S.Timers, S.Residuals;
    forall i | 0 <= i < |m.axes|
      ensures Work(r)[i] <= Work(m)[i]
      ensures Working(t, m, i) ==> Work(r)[i] < Work(m)[i]
    {
      AfterWorks(t, m.axes[i], m.residuals[i]);
    }
    SumFalls(Work(r), Work(m));
  }

  /** Without work, an interval within the quantum is dropped and a longer one goes on. */
  lemma IdleTimer(residual: U16, answer: S.Answer)
    requires answer.Valid() && !(S.Due(residual, answer) && !answer.queueEmpty)
    ensures S.Timer(residual, answer) == if residual > S.STEP_TIMER_QUANTUM then residual else 0
  {
  }

  /** The timers of a call in which no axis is stepped. */
  predicate Idling(timers: seq<U16>, residuals: seq<U16>) {
    && |timers| == |residuals|
    && forall i | 0 <= i < |timers| ::
         timers[i] == if residuals[i] > S.STEP_TIMER_QUANTUM then residuals[i] else 0
  }

  lemma IdleTimers(t: Tables, m: Motors)
    requires Fit(m) && forall i | 0 <= i < |m.axes| :: !Working(t, m, i)
    ensures Idling(S.Timers(m.residuals, Answers(t, m)), m.residuals)
  {
    hide AnswerOf, AxisModel.Valid, S.Timer, S.Due;
    var answers := Answers(t, m);
    forall i | 0 <= i < |m.axes|
      ensures S.Timers(m.residuals, answers)[i]
              == if m.residuals[i] > S.STEP_TIMER_QUANTUM then m.residuals[i] else 0
    {
      assert !Working(t, m, i);
      IdleTimer(m.residuals[i], answers[i]);
    }
  }

  /** No axis begins to wait, and some axis stops waiting. */
  lemma WaitsFallIdling(timers: seq<U16>, residuals: seq<U16>)
    requires Idling(timers, residuals)
    ensures var r, m := WaitsOf(S.Residuals(timers)), WaitsOf(residuals);
      Sum(r) <= Sum(m) && (Sum(m) > 0 ==> Sum(r) < Sum(m))
  {
    var r, m := WaitsOf(S.Residuals(timers)), WaitsOf(residuals);
    var next := S.Closest(timers);
    hide S.Closest, Sum;
    assert Below(r, m);
    SumFalls(r, m);
    if Sum(m) > 0 {
      SumIsZero(m);
      var i :| 0 <= i < |m| && m[i] != 0;
      if residuals[i] > S.STEP_TIMER_QUANTUM {
        assert timers[i] != 0;
        var j :| 0 <= j < |timers| && timers[j] == next;
        assert r[j] < m[j];
      } else {
        assert r[i] < m[i];
      }
    }
  }

  lemma WaitsFall(t: Tables, m: Motors)
    requires Fit(m) && forall i | 0 <= i < |m.axes| :: !Working(t, m, i)
    ensures Sum(Waits(Call(t, m))) <= Sum(Waits(m))
    ensures Sum(Waits(m)) > 0 ==> Sum(Waits(Call(t, m))) < Sum(Waits(m))
  {
    IdleTimers(t, m);
    hide Fit, Working, Sum, S.Timers, S.Residuals, Answers, After, Idling, WaitsOf;
    WaitsFallIdling(S.Timers(m.residuals, Answers(t, m)), m.residuals);
  }

  lemma WaitsBound(m: Motors)
    ensures Sum(Waits(m)) <= |m.residuals|
  {
    SumOfOnes(Waits(m));
  }

  lemma PairFalls(w: nat, s: nat, w': nat, s': nat, k: nat)
    requires (w' < w && s' < k) || (w' <= w && s' < s)
    ensures w' * k + s' < w * k + s
  {
    if w' < w {
      ProductOrder(k, w' + 1, w);
    }
  }

  lemma WaitsAreFew(t: Tables, m: Motors)
    requires Fit(m)
    ensures Sum(Waits(Call(t, m))) < |m.axes| + 1
  {
    WaitsBound(Call(t, m));
  }

  /** As long as anything is left to do, an interrupt brings its end nearer. */
  lemma MeasureFalls(t: Tables, m: Motors)
    requires Fit(m) && Measure(m) > 0
    ensures Measure(Call(t, m)) < Measure(m)
  {
    hide Call, Work, Waits, Fit, Working, Sum;
    WorkFalls(t, m);
    WaitsAreFew(t, m);
    if forall i | 0 <= i < |m.axes| :: !Working(t, m, i) {
      WaitsFall(t, m);
      if Sum(Waits(m)) == 0 {
        NothingWaits(t, m);
      }
    }
    var r := Call(t, m);
    PairFalls(Sum(Work(m)), Sum(Waits(m)), Sum(Work(r)), Sum(Waits(r)), |m.axes| + 1);
  }

  /** If no axis waits, those with something to do are due. */
  lemma NothingWaits(t: Tables, m: Motors)
    requires Fit(m) && Sum(Waits(m)) == 0 && forall i | 0 <= i < |m.axes| :: !Working(t, m, i)
    ensures Sum(Work(m)) == 0
  {
    SumIsZero(Waits(m));
    SumIsZero(Work(m));
    hide AxisModel.Valid, ToCome;
    forall i | 0 <= i < |m.axes|
      ensures Work(m)[i] == 0
    {
      assert Waits(m)[i] == 0 && !Working(t, m, i);
      IdleWhenNothingToCome(m.axes[i]);
    }
  }

  /** Every axis stands at the end of its planned moves, and no interrupt is pending. */
  predicate Finished(start: Motors, end: Motors) {
    && |end.axes| == |start.axes| == |end.residuals|
    && forall i | 0 <= i < |end.axes| ::
      && end.axes[i].queue == [] && end.residuals[i] == 0
      && end.axes[i].at == Head(end.axes[i]) == Head(start.axes[i])
  }

  lemma ZeroMeasure(m: Motors)
    requires Fit(m) && Measure(m) == 0
    ensures Sum(Work(m)) == 0 && Sum(Waits(m)) == 0
  {
    hide Fit, Work, Waits, Sum;
    var work := Sum(Work(m));
    if work > 0 {
      ProductOrder(|m.axes| + 1, 1, work);
    }
  }

  lemma FinishedWhenZero(m: Motors)
    requires Fit(m) && Measure(m) == 0
    ensures Finished(m, m)
  {
    ZeroMeasure(m);
    hide AxisModel.Valid, ToCome, Head, Sum, Measure;
    SumIsZero(Work(m));
    SumIsZero(Waits(m));
    forall i | 0 <= i < |m.axes|
      ensures m.axes[i].queue == [] && m.residuals[i] == 0 && m.axes[i].at == Head(m.axes[i])
    {
      assert Work(m)[i] == 0 && Waits(m)[i] == 0;
      IdleWhenNothingToCome(m.axes[i]);
    }
  }

  lemma FinishedStays(t: Tables, start: Motors, m: Motors)
    requires Fit(m) && Finished(start, m)
    ensures Finished(start, Call(t, m))
  {
    hide AxisModel.Valid, Head, AnswerOf, S.Closest;
    forall i | 0 <= i < |m.axes|
      ensures After(t, m.axes[i], m.residuals[i]) == m.axes[i]
      ensures S.Timers(m.residuals, Answers(t, m))[i] == 0
    {
      AfterWorks(t, m.axes[i], m.residuals[i]);
      IdleTimer(m.residuals[i], Answers(t, m)[i]);
    }
  }

  lemma {:induction false} FinishedForGood(t: Tables, start: Motors, m: Motors, n: nat)
    requires Fit(m) && Finished(start, m)
    ensures Finished(start, Calls(t, m, n))
    decreases n
  {
    hide Fit, Finished, Call;
    if n > 0 {
      FinishedStays(t, start, m);
      FinishedForGood(t, start, Call(t, m), n - 1);
    }
  }

  lemma SameAxes(t: Tables, m: Motors)
    requires Fit(m)
    ensures var r := Call(t, m);
      && |r.axes| == |m.axes| == |r.residuals| == |m.residuals|
      && forall i | 0 <= i < |m.axes| :: Head(r.axes[i]) == Head(m.axes[i])
  {
    hide AxisModel.Valid, Head, Answers, S.Timers, S.Residuals;
  }

  lemma FinishedBefore(start: Motors, next: Motors, end: Motors)
    requires |start.axes| == |next.axes|
    requires forall i | 0 <= i < |start.axes| :: Head(next.axes[i]) == Head(start.axes[i])
    requires Finished(next, end)
    ensures Finished(start, end)
  {
    hide Head;
  }

  /**
  Timer interrupts alone finish every planned move of every axis, within a number of calls that
  depends only on the steps to come, and each axis ends where its last plan said.
  */
  lemma {:induction false} AllMovesFinish(t: Tables, m: Motors, n: nat)
    requires Fit(m) && n >= Measure(m)
    ensures Finished(m, Calls(t, m, n))
    decreases n
  {
    hide Fit, Finished, Call, Measure;
    if Measure(m) == 0 {
      FinishedWhenZero(m);
      FinishedForGood(t, m, m, n);
    } else {
      MeasureFalls(t, m);
      SameAxes(t, m);
      AllMovesFinish(t, Call(t, m), n - 1);
      FinishedBefore(m, Call(t, m), Calls(t, m, n));
    }
  }
}
