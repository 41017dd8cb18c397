/** Byte-at-a-time decoders: what they make of streams of bytes. */
module Streams {
  datatype Status = MessageCompleted | NeedMoreData | DecodeError

  /** A decoder keeps its state and the message that it is filling in. */
  datatype Decoder<S, M> = Decoder(state: S, msg: M)

  type Step<!S, !M> = (Decoder<S, M>, bv8) -> (Decoder<S, M>, Status)

  /** A stream of bytes: the decoder after it, the answer to each byte, the messages completed. */
  datatype Fed<S, M> = Fed(end: Decoder<S, M>, statuses: seq<Status>, messages: seq<M>)

  function Feed<S, M>(step: Step<S, M>, d: Decoder<S, M>, bytes: seq<bv8>): (f: Fed<S, M>)
    ensures |f.statuses| == |bytes|
    decreases |bytes|
  {
    if bytes == [] then Fed(d, [], [])
    else
      var (next, status) := step(d, bytes[0]);
      var rest := Feed(step, next, bytes[1..]);
      Fed(rest.end, [status] + rest.statuses,
          (if status == MessageCompleted then [next.msg] else []) + rest.messages)
  }

  lemma FeedNothing<S, M>(step: Step<S, M>, d: Decoder<S, M>)
    ensures Feed(step, d, []) == Fed(d, [], [])
  {
  }

  lemma {:induction false} FeedConcat<S, M>(step: Step<S, M>, d: Decoder<S, M>, a: seq<bv8>, b: seq<bv8>)
    ensures var f := Feed(step, d, a);
      var g := Feed(step, f.end, b);
      Feed(step, d, a + b) == Fed(g.end, f.statuses + g.statuses, f.messages + g.messages)
    decreases |a|
  {
    if a == [] {
      assert a + b == b;
    } else {
      assert (a + b)[1..] == a[1..] + b && (a + b)[0] == a[0];
      var (next, status) := step(d, a[0]);
      FeedConcat(step, next, a[1..], b);
    }
  }

  lemma FeedOne<S, M>(step: Step<S, M>, d: Decoder<S, M>, c: bv8)
    ensures var (next, status) := step(d, c);
      Feed(step, d, [c]) == Fed(next, [status], if status == MessageCompleted then [next.msg] else [])
  {
    assert [c][1..] == [];
    assert Feed(step, step(d, c).0, []) == Fed(step(d, c).0, [], []);
  }

  /** A stream that only asks for more. */
  predicate Quiet<S, M>(f: Fed<S, M>) {
    f.messages == [] && forall i | 0 <= i < |f.statuses| :: f.statuses[i] == NeedMoreData
  }

  lemma QuietConcat<S, M>(step: Step<S, M>, d: Decoder<S, M>, a: seq<bv8>, b: seq<bv8>)
    requires Quiet(Feed(step, d, a)) && Quiet(Feed(step, Feed(step, d, a).end, b))
    ensures Quiet(Feed(step, d, a + b)) && Feed(step, d, a + b).end == Feed(step, Feed(step, d, a).end, b).end
  {
    FeedConcat(step, d, a, b);
  }

  lemma QuietStep<S, M>(step: Step<S, M>, d: Decoder<S, M>, a: seq<bv8>, c: bv8)
    requires Quiet(Feed(step, d, a)) && step(Feed(step, d, a).end, c).1 == NeedMoreData
    ensures Quiet(Feed(step, d, a + [c])) && Feed(step, d, a + [c]).end == step(Feed(step, d, a).end, c).0
  {
    FeedOne(step, Feed(step, d, a).end, c);
    QuietConcat(step, d, a, [c]);
  }
}
