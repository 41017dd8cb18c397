/** The timer shared by all axes: when each of them is stepped, and how the rest is carried. */
module Scheduler {
  import opened Machine
  import SpeedTable
  import AxisModel

  const STEP_TIMER_QUANTUM: U16 := 256
  const MIN_INTERVAL := SpeedTable.MIN_INTERVAL
  const MAX_INTERVAL := SpeedTable.MAX_INTERVAL

  /**
  What the pulse generator of an axis answers when the scheduler asks: whether its queue is
  empty, and the interval its Step would return, zero when there is nothing to step.
  */
  datatype Answer = Answer(queueEmpty: bool, interval: U16) {
    predicate Valid() {
      && (interval == 0 <==> queueEmpty)
      && (interval != 0 ==> MIN_INTERVAL <= interval <= MAX_INTERVAL)
    }
  }

  /** The pulse generator only gives such answers. */
  lemma AxisAnswers(t: SpeedTable.Tables, a: AxisModel.Axis)
    requires AxisModel.Valid(a)
    ensures Answer(a.queue == [], AxisModel.Step(t, a).timer).Valid()
  {
    AxisModel.StepExecutes(t, a);
  }

  /** The axis is due now: its rest of time is within the quantum and it has something to do. */
  predicate Due(residual: U16, answer: Answer) {
    residual <= STEP_TIMER_QUANTUM && (residual != 0 || !answer.queueEmpty)
  }

  /** The time to the next step of an axis, zero when it is idle. */
  function Timer(residual: U16, answer: Answer): (t: U16)
    requires answer.Valid()
    ensures t != 0 ==> t >= MIN_INTERVAL
    ensures residual > STEP_TIMER_QUANTUM ==> t == residual
    ensures Due(residual, answer) && !answer.queueEmpty ==> t == residual + answer.interval
  {
    if !Due(residual, answer) then residual
    else if answer.interval == 0 then 0
    else residual + answer.interval
  }

  /** The least non-zero timer, zero when all are. */
  function Closest(timers: seq<U16>): (next: U16)
    ensures next == 0 <==> forall i | 0 <= i < |timers| :: timers[i] == 0
    ensures next != 0 ==> next in timers
    ensures forall i | 0 <= i < |timers| && timers[i] != 0 :: next <= timers[i]
  {
    if timers == [] then 0
    else
      var n := |timers| - 1;
      var before := Closest(timers[..n]);
      assert forall i | 0 <= i < n :: timers[..n][i] == timers[i];
      if timers[n] != 0 && (before == 0 || timers[n] < before) then timers[n] else before
  }

  function Timers(residuals: seq<U16>, answers: seq<Answer>): (t: seq<U16>)
    requires |residuals| == |answers| && forall a | a in answers :: a.Valid()
    ensures |t| == |residuals|
  {
    seq(|residuals|, i requires 0 <= i < |residuals| => Timer(residuals[i], answers[i]))
  }

  function Residuals(timers: seq<U16>): (r: seq<U16>)
    ensures |r| == |timers|
  {
    var next := Closest(timers);
    seq(|timers|, i requires 0 <= i < |timers| => if timers[i] != 0 then timers[i] - next else 0)
  }

  // The account of one axis since it last started

  /** Intervals returned and step intervals asked for since the axis was last idle. */
  datatype Account = Account(returned: nat, charged: nat)

  /** The account after a call that left the axis with `timer` and returned `next`. */
  function Booked(acc: Account, residual: U16, answer: Answer, next: U16): Account
    requires answer.Valid()
  {
    if Timer(residual, answer) == 0 then Account(0, 0)
    else Account(acc.returned + next,
                 acc.charged + if Due(residual, answer) then answer.interval else 0)
  }

  /** The state of a run: residuals and accounts of all axes. */
  datatype State = State(residuals: seq<U16>, accounts: seq<Account>)

  predicate Balanced(s: State) {
    && |s.residuals| == |s.accounts|
    && forall i | 0 <= i < |s.residuals| ::
         s.accounts[i].returned + s.residuals[i] == s.accounts[i].charged
  }

  predicate Answers(s: State, answers: seq<Answer>) {
    |answers| == |s.residuals| && forall a | a in answers :: a.Valid()
  }

  function Next(s: State, answers: seq<Answer>): U16
    requires Answers(s, answers)
  {
    Closest(Timers(s.residuals, answers))
  }

  function Call(s: State, answers: seq<Answer>): State
    requires Answers(s, answers) && |s.accounts| == |s.residuals|
  {
    State(Residuals(Timers(s.residuals, answers)),
          seq(|s.residuals|, i requires 0 <= i < |s.residuals| =>
            Booked(s.accounts[i], s.residuals[i], answers[i], Next(s, answers))))
  }

  function Run(s: State, calls: seq<seq<Answer>>): (r: Option<State>)
    requires |s.accounts| == |s.residuals|
    ensures r.Some? ==> |r.value.accounts| == |r.value.residuals|
    decreases |calls|
  {
    if calls == [] then Some(s)
    else if !Answers(s, calls[0]) then None
    else Run(Call(s, calls[0]), calls[1..])
  }

  lemma CallKeepsBalance(s: State, answers: seq<Answer>)
    requires Balanced(s) && Answers(s, answers)
    ensures Balanced(Call(s, answers))
  {
  }

  /** Over any run, what was returned plus what is left is what the steps asked for. */
  lemma {:induction false} RunKeepsBalance(s: State, calls: seq<seq<Answer>>)
    requires Balanced(s) && Run(s, calls).Some?
    ensures Balanced(Run(s, calls).value)
    decreases |calls|
  {
    if calls != [] {
      CallKeepsBalance(s, calls[0]);
      RunKeepsBalance(Call(s, calls[0]), calls[1..]);
    }
  }

  /**
  A step is made when at most the quantum is left of the intervals of the steps before it: it
  comes never late and at most the quantum early. An axis with more left is not stepped, and a
  call that returns an interval returns at least the least interval, to the axis that is next.
  */
  lemma StepsAreTimely(s: State, calls: seq<seq<Answer>>, answers: seq<Answer>, i: nat)
    requires Balanced(s) && Run(s, calls).Some? && Answers(Run(s, calls).value, answers)
    requires i < |Run(s, calls).value.residuals|
    ensures var now := Run(s, calls).value;
      && (Due(now.residuals[i], answers[i]) ==>
            now.accounts[i].returned <= now.accounts[i].charged <= now.accounts[i].returned + STEP_TIMER_QUANTUM)
      && (forall j | 0 <= j < |answers| && Timers(now.residuals, answers)[j] != 0 ::
            Next(now, answers) <= Timers(now.residuals, answers)[j])
      && (Next(now, answers) != 0 ==> Next(now, answers) >= MIN_INTERVAL)
      && (Next(now, answers) == 0 <==> forall j | 0 <= j < |answers| :: Timers(now.residuals, answers)[j] == 0)
  {
    RunKeepsBalance(s, calls);
  }
}
