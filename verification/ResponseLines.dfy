/** How the response decoder answers every byte of a line, whatever the line. */
module ResponseLines {
  import opened Machine
  import opened Crc
  import opened Hex
  import opened Streams
  import opened Responses
  import R = Requests

  /** The line is how a response may begin. */
  ghost predicate Begins(line: seq<bv8>) {
    exists p: Partial :: p.Valid() && p.Text() == line
  }

  // Beginnings are read quietly, and nothing else is

  lemma StartsText(d: ResponseDecoder, c: bv8)
    requires d.state == RequestCode && Decode(d, c).1 == NeedMoreData && !R.IsNewLine(c)
    ensures var p := AtValue(c, []);
      p.Valid() && p.Text() == [c] && p.Fits(Decode(d, c).0)
  {
    NoDigitsYet();
    hide R.IsCode, Read8, AllHex, Fold;
  }

  lemma GoesOn(d: ResponseDecoder, p: Partial, c: bv8)
    requires p.Valid() && p.Fits(d) && Decode(d, c).1 == NeedMoreData
    ensures var next := Longer(d, p, c);
      next.Valid() && next.Fits(Decode(d, c).0) && next.Text() == p.Text() + [c]
  {
    hide *;
    LongerText(d, p, c);
    LongerFits(d, p, c);
  }

  lemma {:induction false} QuietIsBegun(d: ResponseDecoder, line: seq<bv8>) returns (p: Partial)
    requires d.state == RequestCode && line != [] && HasNoLineEnd(line) && Quiet(Feed(Decode, d, line))
    ensures p.Valid() && p.Text() == line && p.Fits(Feed(Decode, d, line).end)
    decreases |line|
  {
    var n := |line| - 1;
    var c := line[n];
    assert line == line[..n] + [c];
    hide Decode, Feed, Partial.Valid, Partial.Text, Partial.Fits, Longer, R.IsNewLine;
    FeedConcat(Decode, d, line[..n], [c]);
    var now := Feed(Decode, d, line[..n]).end;
    FeedOne(Decode, now, c);
    assert Feed(Decode, d, line).statuses[n] == NeedMoreData;
    if n == 0 {
      assert line[..0] == [];
      FeedNothing(Decode, d);
      StartsText(d, c);
      p := AtValue(c, []);
    } else {
      forall i | 0 <= i < n
        ensures Feed(Decode, d, line[..n]).statuses[i] == NeedMoreData
      {
        assert Feed(Decode, d, line).statuses[i] == Feed(Decode, d, line[..n]).statuses[i];
      }
      p := QuietIsBegun(d, line[..n]);
      GoesOn(now, p, c);
      p := Longer(now, p, c);
    }
  }

  /** Exactly the beginnings of responses are answered by "need more" throughout. */
  lemma QuietExactly(d: ResponseDecoder, line: seq<bv8>)
    requires d.state == RequestCode && line != [] && HasNoLineEnd(line)
    ensures Quiet(Feed(Decode, d, line)) <==> Begins(line)
  {
    hide Feed, Decode, Quiet, Partial.Valid, Partial.Text, Partial.Fits, HasNoLineEnd;
    if Quiet(Feed(Decode, d, line)) {
      var p := QuietIsBegun(d, line);
    }
    if Begins(line) {
      var p: Partial :| p.Valid() && p.Text() == line;
      BegunIsQuiet(d, p);
    }
  }

  // Lines that are refused

  lemma {:induction false} ErrorGoesOn(d: ResponseDecoder, more: seq<bv8>)
    requires d.state == Error && HasNoLineEnd(more)
    ensures Feed(Decode, d, more)
            == Fed(if more == [] then d else d.(msg := d.msg.(paramCode := R.UNKNOWN)),
                   seq(|more|, _ => DecodeError), [])
    decreases |more|
  {
    hide R.IsNewLine, R.IsCode, IsParam, IsHexDigit, Fold;
    if more != [] {
      ErrorGoesOn(Decode(d, more[0]).0, more[1..]);
      assert seq(|more|, _ => DecodeError) == [DecodeError] + seq(|more| - 1, _ => DecodeError);
    }
  }

  /** The first byte that no beginning goes on with, in terms of the decoder before it. */
  lemma Refuses(d: ResponseDecoder, c: bv8)
    requires d.state != Error && Decode(d, c).1 == DecodeError
    ensures Decode(d, c).0 == Decoder(Error, if d.state == RequestCode || d.state == RequestValue then d.msg
                                             else d.msg.(paramCode := R.UNKNOWN))
  {
    hide R.IsNewLine, R.IsCode, IsParam, IsHexDigit, Fold;
  }

  lemma NotCompleted(d: ResponseDecoder, c: bv8)
    requires !R.IsNewLine(c)
    ensures Decode(d, c).1 != MessageCompleted
  {
    hide R.IsNewLine, R.IsCode, IsParam, IsHexDigit, Fold;
  }

  /** Only the parameter part comes after a space. */
  lemma SpaceIsPast(p: Partial)
    requires p.Valid()
    ensures R.SPACE in p.Text() <==> !p.AtValue?
  {
    R.SeparatorsAreNoDigits();
    assert !R.IsCode(R.SPACE);
    hide R.IsCode, IsHexDigit, IsParam;
  }

  /** What has been read of a line before the byte that is refused. */
  predicate Before(d: ResponseDecoder, good: seq<bv8>, now: ResponseDecoder) {
    && ReadsTo(d, good, now) && now.state != Error
    && now.msg.paramCode == (if R.SPACE in good then now.msg.paramCode else d.msg.paramCode)
    && (now.state == RequestCode || now.state == RequestValue <==> R.SPACE !in good)
  }

  lemma BeforeIs(d: ResponseDecoder, good: seq<bv8>)
    requires d.state == RequestCode && (good == [] || Begins(good))
    ensures Before(d, good, Feed(Decode, d, good).end)
  {
    if good == [] {
      FeedNothing(Decode, d);
    } else {
      var p: Partial :| p.Valid() && p.Text() == good;
      BegunIsQuiet(d, p);
      SpaceIsPast(p);
    }
    hide Feed, Decode, Read8, Read16, Partial.Valid, Partial.Text;
  }

  lemma FirstRefused(d: ResponseDecoder, good: seq<bv8>, c: bv8)
    requires d.state == RequestCode && (good == [] || Begins(good)) && !Begins(good + [c])
    requires HasNoLineEnd(good) && !R.IsNewLine(c)
    ensures var now := Feed(Decode, d, good).end;
      && Before(d, good, now) && Decode(now, c).1 == DecodeError
  {
    BeforeIs(d, good);
    var now := Feed(Decode, d, good).end;
    hide Feed, Decode, Begins, R.IsNewLine;
    NotCompleted(now, c);
    if Decode(now, c).1 == NeedMoreData {
      OneMore(d, good, now, c, Decode(now, c).0);
      QuietExactly(d, good + [c]);
    }
  }

  /**
  A line that stops being a beginning at c: everything before c is answered by "need more", c and
  the rest by an error, and the line end completes. The parameter code of what it delivers is
  erased, unless c is the last byte of the line and there was no space before it: then it is that
  of the response before.
  */
  lemma BadLineIs(d: ResponseDecoder, good: seq<bv8>, c: bv8, more: seq<bv8>, end: bv8)
    requires d.state == RequestCode && (good == [] || Begins(good)) && !Begins(good + [c])
    requires HasNoLineEnd(good) && !R.IsNewLine(c) && HasNoLineEnd(more) && R.IsNewLine(end)
    ensures var fed := Feed(Decode, d, good + [c] + more + [end]);
      && fed.statuses == seq(|good|, _ => NeedMoreData) + seq(1 + |more|, _ => DecodeError) + [MessageCompleted]
      && fed.end.state == RequestCode && fed.messages == [fed.end.msg]
      && fed.end.msg.paramCode == if more == [] && R.SPACE !in good then d.msg.paramCode else R.UNKNOWN
  {
    hide Feed, Decode, Begins, R.IsNewLine, Quiet;
    FirstRefused(d, good, c);
    var now := Feed(Decode, d, good).end;
    Refuses(now, c);
    var e := Decode(now, c).0;
    QuietStatuses(Feed(Decode, d, good));
    FeedOne(Decode, now, c);
    FeedConcat(Decode, d, good, [c]);
    ErrorGoesOn(e, more);
    FeedConcat(Decode, d, good + [c], more);
    var last := Feed(Decode, e, more).end;
    LineEndCompletes(last, end);
    FeedOne(Decode, last, end);
    FeedConcat(Decode, d, good + [c] + more, [end]);
  }

  lemma QuietStatuses(f: Fed<State, ResponseMsg>)
    requires Quiet(f)
    ensures f.statuses == seq(|f.statuses|, _ => NeedMoreData) && f.messages == []
  {
  }

  lemma LineEndCompletes(d: ResponseDecoder, end: bv8)
    requires d.state == Error && R.IsNewLine(end)
    ensures Decode(d, end) == (d.(state := RequestCode), MessageCompleted)
  {
    hide R.IsNewLine;
  }

  // Lines that are not

  /** A line end after a beginning: a whole response with a matching CRC is completed, anything else is an error. */
  lemma GoodLineIs(d: ResponseDecoder, p: Partial, end: bv8)
    requires d.state == RequestCode && p.Valid() && R.IsNewLine(end)
    ensures var fed := Feed(Decode, d, p.Text() + [end]);
      var m := Reading(d, p).msg;
      var whole := p.AtCRC? && m.request.crc8 == m.ComputeCRC8();
      && fed.statuses == seq(|p.Text()|, _ => NeedMoreData) + [if whole then MessageCompleted else DecodeError]
      && (if whole then fed.end == Decoder(RequestCode, m) && fed.messages == [m]
          else fed.messages == [] && fed.end == Decoder(Error, if p.AtValue? then m else m.(paramCode := R.UNKNOWN)))
  {
    hide Feed, Decode, Reading, Partial.Valid, Partial.Text, R.IsNewLine, Quiet, ResponseMsg.ComputeCRC8;
    BegunIsQuiet(d, p);
    var now := Reading(d, p);
    QuietStatuses(Feed(Decode, d, p.Text()));
    FeedOne(Decode, now, end);
    FeedConcat(Decode, d, p.Text(), [end]);
    StateOf(d, p);
    EndAnswered(now, end);
  }

  lemma StateOf(d: ResponseDecoder, p: Partial)
    ensures var s := Reading(d, p).state;
      && (p.AtValue? <==> s == RequestValue) && (p.AtCRC? <==> s == CRC) && s != Error && s != RequestCode
  {
    hide Read8, Read16;
  }

  lemma EndAnswered(d: ResponseDecoder, end: bv8)
    requires d.state != Error && d.state != RequestCode && R.IsNewLine(end)
    ensures Decode(d, end) ==
            if d.state == CRC && d.msg.request.crc8 == d.msg.ComputeCRC8() then
              (Decoder(RequestCode, d.msg), MessageCompleted)
            else
              (Decoder(Error, if d.state == RequestValue then d.msg else d.msg.(paramCode := R.UNKNOWN)), DecodeError)
  {
    R.SeparatorsAreNoDigits();
    assert !IsParam(R.NEW_LINE) && !IsParam(R.RETURN);
    hide IsHexDigit, IsParam, ResponseMsg.ComputeCRC8;
  }
}
