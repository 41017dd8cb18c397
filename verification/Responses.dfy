/** Response messages: their encoders, the decoder, and exactly when they round-trip. */
module Responses {
  import opened Machine
  import opened Crc
  import CrcRemainder
  import opened Hex
  import opened Streams
  import R = Requests

  const ACCEPTED: bv8 := 0x41
  const REJECTED: bv8 := 0x52

  /** P E F A R B. */
  predicate IsParam(c: bv8) {
    c == 0x50 || c == 0x45 || c == 0x46 || c == ACCEPTED || c == REJECTED || c == 0x42
  }

  /** The parameters there are, and the letters that stand for them. */
  datatype ResponseMsgParamCode = Processing | Failed | Finished | Accepted | Rejected | Pressed {
    function Letter(): char {
      match this
      case Processing => 'P'
      case Failed => 'E'
      case Finished => 'F'
      case Accepted => 'A'
      case Rejected => 'R'
      case Pressed => 'B'
    }
  }

  /** The decoder knows exactly those letters. */
  lemma ParamsAreLetters(c: bv8)
    ensures IsParam(c) <==> exists k: ResponseMsgParamCode :: k.Letter() as int == c as int
  {
    if IsParam(c) {
      var k := if c == 0x50 then Processing else if c == 0x45 then Failed else if c == 0x46 then Finished
               else if c == ACCEPTED then Accepted else if c == REJECTED then Rejected else Pressed;
      assert k.Letter() as int == c as int;
    }
  }

  datatype ResponseMsg = ResponseMsg(request: R.RequestMsg, paramCode: bv8, paramValue: bv16) {
    function ComputeCRC8(): bv8 {
      Fold(request.ComputeCRC8(), [paramCode, Low(paramValue), High(paramValue)])
    }
  }

  /** The bytes of a response that its CRC covers. */
  function Covered(m: ResponseMsg): seq<bv8> {
    R.Covered(m.request) + [m.paramCode, Low(m.paramValue), High(m.paramValue)]
  }

  /** The CRC byte fits exactly when it is the remainder of all those bytes in turn. */
  lemma CRCIsRemainder(m: ResponseMsg)
    ensures m.request.crc8 == m.ComputeCRC8() <==>
      exists q :: CrcRemainder.Divides(CrcRemainder.AllBits(Covered(m)), q, m.request.crc8)
  {
    CrcRemainder.CrcIsRemainder(Covered(m), m.request.crc8);
    FoldConcat(0, R.Covered(m.request), [m.paramCode, Low(m.paramValue), High(m.paramValue)]);
    hide Fold, Low, High;
  }

  /** The constructor of ResponseMsg: the CRC byte of the request holds that of the response. */
  function Response(request: R.RequestMsg, paramCode: bv8, paramValue: bv16): ResponseMsg {
    var m := ResponseMsg(request, paramCode, paramValue);
    m.(request := request.(crc8 := m.ComputeCRC8()))
  }

  // Decoder

  datatype State = RequestCode | RequestValue | ParamCode | ParamValue | CRC | Error

  type ResponseDecoder = Decoder<State, ResponseMsg>

  function Broken(m: ResponseMsg): (ResponseDecoder, Status) {
    (Decoder(Error, m.(paramCode := R.UNKNOWN)), DecodeError)
  }

  /** The digits of a response are added in. */
  function Add8(v: bv8, c: bv8): bv8 { (v << 4) + Char2Nibble(c) }

  function Add16(v: bv16, c: bv8): bv16 { (v << 4) + (Char2Nibble(c) as bv16) }

  lemma NibbleBound(c: bv8)
    ensures Char2Nibble(c) & 0xf0 == 0
  {
  }

  lemma OrIsAdd8(v: bv8, n: bv8)
    requires n & 0xf0 == 0
    ensures (v << 4) | n == (v << 4) + n
  {
  }

  lemma OrIsAdd16(v: bv16, n: bv8)
    requires n & 0xf0 == 0
    ensures (v << 4) | (n as bv16) == (v << 4) + (n as bv16)
  {
  }

  lemma AddIsDigit8(v: bv8, c: bv8)
    ensures Add8(v, c) == Digit8(v, c)
  {
    hide Char2Nibble;
    NibbleBound(c);
    OrIsAdd8(v, Char2Nibble(c));
  }

  lemma AddIsDigit16(v: bv16, c: bv8)
    ensures Add16(v, c) == Digit16(v, c)
  {
    hide Char2Nibble;
    NibbleBound(c);
    OrIsAdd16(v, Char2Nibble(c));
  }

  /** DecodeResponse. */
  function Decode(d: ResponseDecoder, c: bv8): (ResponseDecoder, Status) {
    var m := d.msg;
    match d.state
    case RequestCode =>
      if R.IsCode(c) then (Decoder(RequestValue, m.(request := R.RequestMsg(c, 0, 0, 0))), NeedMoreData)
      else if R.IsNewLine(c) then (d, NeedMoreData)
      else (Decoder(Error, m), DecodeError)
    case RequestValue =>
      if IsHexDigit(c) then
        (Decoder(RequestValue, m.(request := m.request.(value := Add8(m.request.value, c)))), NeedMoreData)
      else if c == R.SPACE then (Decoder(ParamCode, m), NeedMoreData)
      else (Decoder(Error, m), DecodeError)
    case ParamCode =>
      if IsParam(c) then (Decoder(ParamValue, m.(paramCode := c, paramValue := 0)), NeedMoreData)
      else Broken(m)
    case ParamValue =>
      if IsHexDigit(c) then (Decoder(ParamValue, m.(paramValue := Add16(m.paramValue, c))), NeedMoreData)
      else if c == R.SEPARATOR then (Decoder(CRC, m), NeedMoreData)
      else Broken(m)
    case CRC =>
      if IsHexDigit(c) then
        (Decoder(CRC, m.(request := m.request.(crc8 := Add8(m.request.crc8, c)))), NeedMoreData)
      else if R.IsNewLine(c) then
        if m.request.crc8 != m.ComputeCRC8() then Broken(m) else (Decoder(RequestCode, m), MessageCompleted)
      else Broken(m)
    case Error =>
      if R.IsNewLine(c) then (Decoder(RequestCode, m), MessageCompleted)
      else (Decoder(Error, m.(paramCode := R.UNKNOWN)), DecodeError)
  }

  // Encoders

  /** The common form of all encoders: `word` is printed only by those that have a value. */
  function ResponseText(m: R.RequestMsg, paramCode: bv8, word: Option<bv16>, crc: bv8): seq<bv8> {
    R.BeginEncode(m) + [paramCode] + (if word.Some? then Hex16(word.value) else [])
    + R.AppendCRC(crc) + [R.NEW_LINE]
  }

  /** EncodeResponseCmdAR: the only encoder that drops the second value of the request. */
  function EncodeCmdAR(m: R.RequestMsg, ar: bv8): seq<bv8> {
    var rsp := Response(R.Request(m.code, m.value, 0), ar, 0);
    ResponseText(rsp.request, ar, None, rsp.request.crc8)
  }

  /** EncodeResponseQueryOperation. */
  function EncodeQueryOperation(m: R.RequestMsg, code: bv8, value: bv16): seq<bv8> {
    var rsp := Response(m, code, value);
    ResponseText(m, rsp.paramCode, Some(rsp.paramValue), rsp.request.crc8)
  }

  /** EncodeResponseRead. */
  function EncodeRead(m: R.RequestMsg, accepted: bool, value2: bv16): seq<bv8> {
    var rsp := Response(m, if accepted then ACCEPTED else REJECTED, if accepted then value2 else 0);
    ResponseText(m, rsp.paramCode, if accepted then Some(value2) else None, rsp.request.crc8)
  }

  /** EncodeResponseReadFINDA. */
  function EncodeReadFINDA(m: R.RequestMsg, finda: bv8): seq<bv8> { EncodeRead(m, true, finda as bv16) }

  /** A reply as the firmware makes it. */
  datatype Reply =
    | CmdAR(m: R.RequestMsg, ar: bv8)
    | QueryOperation(m: R.RequestMsg, code: bv8, value: bv16)
    | Read(m: R.RequestMsg, accepted: bool, value2: bv16)
    | ReadFINDA(m: R.RequestMsg, finda: bv8)
  {
    predicate Valid() {
      R.IsCode(m.code) && (CmdAR? ==> IsParam(ar)) && (QueryOperation? ==> IsParam(code))
    }

    function Text(): seq<bv8> {
      match this
      case CmdAR(m, ar) => EncodeCmdAR(m, ar)
      case QueryOperation(m, code, value) => EncodeQueryOperation(m, code, value)
      case Read(m, accepted, value2) => EncodeRead(m, accepted, value2)
      case ReadFINDA(m, finda) => EncodeReadFINDA(m, finda)
    }

    function Param(): bv8 {
      match this
      case CmdAR(_, ar) => ar
      case QueryOperation(_, code, _) => code
      case Read(_, accepted, _) => if accepted then ACCEPTED else REJECTED
      case ReadFINDA(_, _) => ACCEPTED
    }

    /** The value printed, if any. */
    function Word(): Option<bv16> {
      match this
      case CmdAR(_, _) => None
      case QueryOperation(_, _, value) => Some(value)
      case Read(_, accepted, value2) => if accepted then Some(value2) else None
      case ReadFINDA(_, finda) => Some(finda as bv16)
    }

    function Value(): bv16 { if Word().Some? then Word().value else 0 }

    /** What the other side should read: the reply to the request without its second value. */
    function Meaning(): ResponseMsg { Response(R.Request(m.code, m.value, 0), Param(), Value()) }

    /** What the decoder collects: the meaning, under the printed CRC. */
    function Received(): ResponseMsg {
      ResponseMsg(R.RequestMsg(m.code, m.value, 0, Printed()), Param(), Value())
    }

    /** Readable by the other side: the CRC does not depend on what is not printed. */
    predicate Readable() {
      CmdAR? || ByteStep(Low(m.value2)) == High(m.value2)
    }

    /** The CRC that the encoder prints. */
    function Printed(): bv8 {
      if CmdAR? then Meaning().request.crc8 else Response(m, Param(), Value()).request.crc8
    }
  }

  lemma TextIs(r: Reply)
    ensures r.Text() == ResponseText(r.m, r.Param(), r.Word(), r.Printed())
  {
    hide Fold, Hex8, Hex16;
  }

  // Feeding

  function Collected(d: ResponseDecoder, s: seq<bv8>): ResponseDecoder {
    match d.state
    case RequestValue => d.(msg := d.msg.(request := d.msg.request.(value := Read8(d.msg.request.value, s))))
    case ParamValue => d.(msg := d.msg.(paramValue := Read16(d.msg.paramValue, s)))
    case CRC => d.(msg := d.msg.(request := d.msg.request.(crc8 := Read8(d.msg.request.crc8, s))))
    case _ => d
  }

  lemma {:induction false} FeedDigits(d: ResponseDecoder, s: seq<bv8>)
    requires (d.state == RequestValue || d.state == ParamValue || d.state == CRC) && AllHex(s)
    ensures Feed(Decode, d, s).end == Collected(d, s) && Quiet(Feed(Decode, d, s))
    decreases |s|
  {
    hide IsHexDigit, Digit8, Digit16, Add8, Add16;
    if s != [] {
      AddIsDigit8(d.msg.request.value, s[0]);
      AddIsDigit8(d.msg.request.crc8, s[0]);
      AddIsDigit16(d.msg.paramValue, s[0]);
      var next := Decode(d, s[0]).0;
      FeedDigits(next, s[1..]);
      assert Collected(next, s[1..]) == Collected(d, s);
    }
  }

  lemma QuietDigits(d: ResponseDecoder, a: seq<bv8>, s: seq<bv8>)
    requires Quiet(Feed(Decode, d, a)) && AllHex(s)
    requires var e := Feed(Decode, d, a).end; e.state == RequestValue || e.state == ParamValue || e.state == CRC
    ensures Quiet(Feed(Decode, d, a + s)) && Feed(Decode, d, a + s).end == Collected(Feed(Decode, d, a).end, s)
  {
    FeedDigits(Feed(Decode, d, a).end, s);
    QuietConcat(Decode, d, a, s);
  }

  // A reply, fed to a decoder that expects one

  lemma ParamIsKnown(r: Reply)
    requires r.Valid()
    ensures IsParam(r.Param())
  {
  }

  lemma FeedCode(d: ResponseDecoder, code: bv8)
    requires d.state == RequestCode && R.IsCode(code)
    ensures var f := Feed(Decode, d, [code]);
      Quiet(f) && f.end == Decoder(RequestValue, d.msg.(request := R.RequestMsg(code, 0, 0, 0)))
  {
    hide R.IsCode;
    FeedOne(Decode, d, code);
  }

  function RequestPart(r: Reply): seq<bv8> {
    [r.m.code] + Hex8(r.m.value) + [R.SPACE] + [r.Param()]
  }

  function Digits(word: Option<bv16>): seq<bv8> {
    if word.Some? then Hex16(word.value) else []
  }

  function Body(r: Reply): seq<bv8> { RequestPart(r) + Digits(r.Word()) + [R.SEPARATOR] }

  /** A reply without its line end. */
  function Line(r: Reply): seq<bv8> { Body(r) + Hex8(r.Printed()) }

  lemma TextIsLine(r: Reply)
    ensures r.Text() == Line(r) + [R.NEW_LINE]
  {
    TextIs(r);
    hide Reply.Text, Reply.Param, Reply.Word, Reply.Printed, Hex8, Hex16;
  }

  /** The bytes are read without an answer but "need more", up to e. */
  predicate ReadsTo(d: ResponseDecoder, bytes: seq<bv8>, e: ResponseDecoder) {
    Quiet(Feed(Decode, d, bytes)) && Feed(Decode, d, bytes).end == e
  }

  lemma OneMore(d: ResponseDecoder, a: seq<bv8>, e: ResponseDecoder, c: bv8, e': ResponseDecoder)
    requires ReadsTo(d, a, e) && Decode(e, c) == (e', NeedMoreData)
    ensures ReadsTo(d, a + [c], e')
  {
    hide Feed, Decode, Quiet;
    QuietStep(Decode, d, a, c);
  }

  lemma MoreDigits(d: ResponseDecoder, a: seq<bv8>, e: ResponseDecoder, s: seq<bv8>)
    requires ReadsTo(d, a, e) && AllHex(s)
    requires e.state == RequestValue || e.state == ParamValue || e.state == CRC
    ensures ReadsTo(d, a + s, Collected(e, s))
  {
    hide Feed, Decode, Quiet, AllHex, Collected;
    QuietDigits(d, a, s);
  }

  /** The request part of a beginning. */
  lemma ReadsRequest(d: ResponseDecoder, p: Partial)
    requires d.state == RequestCode && p.Valid()
    ensures ReadsTo(d, [p.code] + p.digits,
                    Decoder(RequestValue, d.msg.(request := R.RequestMsg(p.code, Read8(0, p.digits), 0, 0))))
  {
    hide Feed, Decode, Quiet, Read8, Read16, R.IsCode, AllHex, IsParam;
    FeedCode(d, p.code);
    MoreDigits(d, [p.code], Feed(Decode, d, [p.code]).end, p.digits);
  }

  lemma SpaceIsRead(d: ResponseDecoder)
    requires d.state == RequestValue
    ensures Decode(d, R.SPACE) == (d.(state := ParamCode), NeedMoreData)
  {
    R.SeparatorsAreNoDigits();
    hide IsHexDigit;
  }

  lemma ParamIsRead(d: ResponseDecoder, c: bv8)
    requires d.state == ParamCode && IsParam(c)
    ensures Decode(d, c) == (Decoder(ParamValue, d.msg.(paramCode := c, paramValue := 0)), NeedMoreData)
  {
    hide IsParam;
  }

  lemma SeparatorIsRead(d: ResponseDecoder)
    requires d.state == ParamValue
    ensures Decode(d, R.SEPARATOR) == (d.(state := CRC), NeedMoreData)
  {
    R.SeparatorsAreNoDigits();
    hide IsHexDigit;
  }

  /** What stays of the response before while p is read. */
  function Reading(d: ResponseDecoder, p: Partial): ResponseDecoder {
    var m := d.msg.(request := R.RequestMsg(p.code, Read8(0, p.digits), 0, if p.AtCRC? then Read8(0, p.crc) else 0));
    match p
    case AtValue(_, _) => Decoder(RequestValue, m)
    case AtParam(_, _) => Decoder(ParamCode, m)
    case AtWord(_, _, _, _) => Decoder(ParamValue, m.(paramCode := p.param, paramValue := Read16(0, p.word)))
    case AtCRC(_, _, _, _, _) => Decoder(CRC, m.(paramCode := p.param, paramValue := Read16(0, p.word)))
  }

  /** From the space to the parameter and its digits. */
  lemma ReadsParam(d: ResponseDecoder, a: seq<bv8>, m: ResponseMsg, c: bv8, word: seq<bv8>)
    requires ReadsTo(d, a, Decoder(ParamCode, m)) && IsParam(c) && AllHex(word)
    ensures ReadsTo(d, a + [c] + word, Decoder(ParamValue, m.(paramCode := c, paramValue := Read16(0, word))))
  {
    hide Decode, Read16, IsParam, AllHex, ReadsTo;
    var e := Decoder(ParamCode, m);
    var e' := Decoder(ParamValue, m.(paramCode := c, paramValue := 0));
    ParamIsRead(e, c);
    OneMore(d, a, e, c, e');
    MoreDigits(d, a + [c], e', word);
  }

  /** From the separator to the end. */
  lemma ReadsCRC(d: ResponseDecoder, a: seq<bv8>, m: ResponseMsg, crc: seq<bv8>)
    requires ReadsTo(d, a, Decoder(ParamValue, m)) && AllHex(crc) && m.request.crc8 == 0
    ensures ReadsTo(d, a + [R.SEPARATOR] + crc,
                    Decoder(CRC, m.(request := m.request.(crc8 := Read8(0, crc)))))
  {
    hide Decode, Read8, AllHex, ReadsTo;
    SeparatorIsRead(Decoder(ParamValue, m));
    OneMore(d, a, Decoder(ParamValue, m), R.SEPARATOR, Decoder(CRC, m));
    MoreDigits(d, a + [R.SEPARATOR], Decoder(CRC, m), crc);
  }

  lemma BegunIsQuiet(d: ResponseDecoder, p: Partial)
    requires d.state == RequestCode && p.Valid()
    ensures ReadsTo(d, p.Text(), Reading(d, p))
  {
    hide Decode, Read8, Read16, R.IsCode, AllHex, IsParam, ReadsTo;
    ReadsRequest(d, p);
    var m := d.msg.(request := R.RequestMsg(p.code, Read8(0, p.digits), 0, 0));
    var a := [p.code] + p.digits;
    if p.AtValue? {
      assert p.Text() == a;
    } else {
      SpaceIsRead(Decoder(RequestValue, m));
      OneMore(d, a, Decoder(RequestValue, m), R.SPACE, Decoder(ParamCode, m));
      if p.AtParam? {
        assert p.Text() == a + [R.SPACE];
      } else {
        ReadsParam(d, a + [R.SPACE], m, p.param, p.word);
        var b := a + [R.SPACE] + [p.param] + p.word;
        if p.AtWord? {
          assert p.Text() == b;
        } else {
          ReadsCRC(d, b, m.(paramCode := p.param, paramValue := Read16(0, p.word)), p.crc);
          assert p.Text() == b + [R.SEPARATOR] + p.crc;
        }
      }
    }
  }

  /** A reply without its line end is how a response may begin. */
  function Read(r: Reply): Partial {
    AtCRC(r.m.code, Hex8(r.m.value), r.Param(), Digits(r.Word()), Hex8(r.Printed()))
  }

  lemma WordIsRead(word: Option<bv16>)
    ensures AllHex(Digits(word)) && Read16(0, Digits(word)) == if word.Some? then word.value else 0
  {
    NoDigitsYet();
    if word.Some? {
      Hex16RoundTrip(word.value);
    }
    hide IsHexDigit, Hex16, Read8, Read16, AllHex;
  }

  lemma LineIsValid(r: Reply)
    requires r.Valid()
    ensures Read(r).Valid()
  {
    ParamIsKnown(r);
    Hex8RoundTrip(r.m.value);
    Hex8RoundTrip(r.Printed());
    WordIsRead(r.Word());
    HasCode(r);
    hide Hex8, Digits, AllHex, R.IsCode, IsParam, Reply.Param, Reply.Word, Reply.Printed, Reply.Valid;
  }

  lemma LineText(r: Reply)
    ensures Read(r).Text() == Line(r)
  {
    hide Hex8, Digits, Reply.Param, Reply.Word, Reply.Printed;
  }

  /** What the decoder collects of a line, in terms of its parts. */
  lemma ReadIs(d: ResponseDecoder, r: Reply)
    ensures Reading(d, Read(r)) == Decoder(CRC, r.Received())
  {
    Hex8RoundTrip(r.m.value);
    Hex8RoundTrip(r.Printed());
    WordIsRead(r.Word());
    ReceivedIs(r);
    hide Digits, Hex8, Read8, Read16, AllHex, Reply.Param, Reply.Word, Reply.Printed, Reply.Received;
  }

  lemma ReceivedIs(r: Reply)
    ensures r.Received() == ResponseMsg(R.RequestMsg(r.m.code, r.m.value, 0, r.Printed()), r.Param(),
                                        if r.Word().Some? then r.Word().value else 0)
  {
    hide Reply.Param, Reply.Word, Reply.Printed;
  }

  lemma FeedLine(d: ResponseDecoder, r: Reply)
    requires d.state == RequestCode && r.Valid()
    ensures Quiet(Feed(Decode, d, Line(r))) && Feed(Decode, d, Line(r)).end == Decoder(CRC, r.Received())
  {
    LineIsValid(r);
    LineText(r);
    ReadIs(d, r);
    hide Feed, Decode, Quiet, Line, Reply.Valid, Reply.Received, Partial.Valid, Partial.Text, Reading, Read;
    BegunIsQuiet(d, Read(r));
  }

  lemma LastByte(m: ResponseMsg, c: bv8)
    requires R.IsNewLine(c)
    ensures Feed(Decode, Decoder(CRC, m), [c])
            == if m.request.crc8 == m.ComputeCRC8() then Fed(Decoder(RequestCode, m), [MessageCompleted], [m])
               else Fed(Broken(m).0, [DecodeError], [])
  {
    R.SeparatorsAreNoDigits();
    FeedOne(Decode, Decoder(CRC, m), c);
  }

  /** The printed CRC fits what is printed exactly when the reply is readable. */
  lemma PrintedFits(r: Reply)
    ensures r.Received().ComputeCRC8() == r.Meaning().request.crc8
    ensures r.Printed() == r.Meaning().request.crc8 <==> r.Readable()
  {
    var head := [r.m.code, r.m.value];
    var lo, hi := Low(r.m.value2), High(r.m.value2);
    var tail := [r.Param(), Low(r.Value()), High(r.Value())];
    assert Low(0) == 0 && High(0) == 0;
    hide Fold, ByteStep, Reply.Param, Reply.Word, Low, High, Reply.Value;
    assert head + [lo, hi] == [r.m.code, r.m.value, lo, hi];
    assert head + [0, 0] == [r.m.code, r.m.value, 0, 0];
    FoldConcat(0, head, [lo, hi]);
    FoldConcat(0, head, [0, 0]);
    InvisiblePair(Fold(0, head), lo, hi);
    FoldInjective(Fold(0, [r.m.code, r.m.value, lo, hi]), Fold(0, [r.m.code, r.m.value, 0, 0]), tail);
  }

  lemma QuietIsSilent(f: Fed<State, ResponseMsg>)
    requires Quiet(f)
    ensures f.messages == []
  {
  }

  lemma FeedReply(d: ResponseDecoder, r: Reply)
    requires d.state == RequestCode && r.Valid()
    ensures var last := Feed(Decode, Decoder(CRC, r.Received()), [R.NEW_LINE]);
      && Feed(Decode, d, r.Text()) == Fed(last.end, Feed(Decode, d, Line(r)).statuses + last.statuses, last.messages)
      && Quiet(Feed(Decode, d, Line(r)))
  {
    hide *;
    FeedLine(d, r);
    TextIsLine(r);
    FeedConcat(Decode, d, Line(r), [R.NEW_LINE]);
    QuietIsSilent(Feed(Decode, d, Line(r)));
  }

  /** Only the last byte is not answered by "need more". */
  predicate WaitsThen(statuses: seq<Status>, last: Status) {
    && |statuses| > 0 && statuses[|statuses| - 1] == last
    && forall i | 0 <= i < |statuses| - 1 :: statuses[i] == NeedMoreData
  }

  lemma QuietThen(f: Fed<State, ResponseMsg>, last: Status)
    requires Quiet(f)
    ensures WaitsThen(f.statuses + [last], last)
  {
  }

  /**
  A reply is read as its meaning exactly when it is readable; its last byte completes it, or
  breaks it.
  */
  lemma ReplyIsDecoded(d: ResponseDecoder, r: Reply)
    requires d.state == RequestCode && r.Valid()
    ensures var fed := Feed(Decode, d, r.Text());
      if r.Readable() then
        && fed.end == Decoder(RequestCode, r.Meaning()) && fed.messages == [r.Meaning()]
        && WaitsThen(fed.statuses, MessageCompleted)
      else
        fed.end.state == Error && fed.messages == [] && WaitsThen(fed.statuses, DecodeError)
  {
    PrintedFits(r);
    FeedReply(d, r);
    LastByte(r.Received(), R.NEW_LINE);
    QuietThen(Feed(Decode, d, Line(r)), MessageCompleted);
    QuietThen(Feed(Decode, d, Line(r)), DecodeError);
    hide Feed, Fold, ByteStep, Line, Reply.Text, Reply.Printed, Reply.Param, Reply.Word, Reply.Readable, Reply.Valid,
         Decode, WaitsThen, Quiet, Reply.Value;
  }

  /** All replies to requests without a second value can be read. */
  lemma ZeroIsReadable(r: Reply)
    requires r.m.value2 == 0
    ensures r.Readable()
  {
    ByteStepZero();
  }

  // Streams of replies

  function EncodeAll(rs: seq<Reply>): seq<bv8> {
    if rs == [] then [] else rs[0].Text() + EncodeAll(rs[1..])
  }

  function Meanings(rs: seq<Reply>): (ms: seq<ResponseMsg>)
    ensures |ms| == |rs|
  {
    if rs == [] then [] else [rs[0].Meaning()] + Meanings(rs[1..])
  }

  predicate AllReadable(rs: seq<Reply>) { forall r | r in rs :: r.Valid() && r.Readable() }

  predicate HasNoLineEnd(s: seq<bv8>) { forall c | c in s :: !R.IsNewLine(c) }

  lemma NoLineEndConcat(a: seq<bv8>, b: seq<bv8>)
    requires HasNoLineEnd(a) && HasNoLineEnd(b)
    ensures HasNoLineEnd(a + b)
  {
  }

  lemma DigitsHaveNoLineEnd(s: seq<bv8>)
    requires AllHex(s)
    ensures HasNoLineEnd(s)
  {
    R.SeparatorsAreNoDigits();
    hide IsHexDigit;
  }

  lemma PrintedHasNoLineEnd(r: Reply)
    ensures HasNoLineEnd(Hex8(r.m.value)) && HasNoLineEnd(Hex8(r.Printed())) && HasNoLineEnd(Digits(r.Word()))
  {
    hide AllHex, Hex8, Hex16, Reply.Printed, Reply.Word, Read8, Read16, R.IsNewLine, HasNoLineEnd;
    Hex8RoundTrip(r.m.value);
    Hex8RoundTrip(r.Printed());
    DigitsHaveNoLineEnd(Hex8(r.m.value));
    DigitsHaveNoLineEnd(Hex8(r.Printed()));
    if r.Word().Some? {
      Hex16RoundTrip(r.Word().value);
      DigitsHaveNoLineEnd(Hex16(r.Word().value));
    } else {
      assert HasNoLineEnd([]) by { EmptyHasNoLineEnd(); }
    }
  }

  lemma EmptyHasNoLineEnd()
    ensures HasNoLineEnd([])
  {
  }

  lemma OthersAreNoLineEnd(r: Reply)
    requires r.Valid()
    ensures HasNoLineEnd([r.m.code]) && HasNoLineEnd([r.Param()]) && HasNoLineEnd([R.SPACE])
    ensures HasNoLineEnd([R.SEPARATOR])
  {
    ParamIsKnown(r);
    assert !R.IsCode(R.NEW_LINE) && !R.IsCode(R.RETURN) && !IsParam(R.NEW_LINE) && !IsParam(R.RETURN);
    hide R.IsCode, IsParam, Reply.Param, Reply.Valid;
    assert R.IsCode(r.m.code) by { HasCode(r); }
  }

  lemma HasCode(r: Reply)
    requires r.Valid()
    ensures R.IsCode(r.m.code)
  {
  }

  lemma LineHasNoLineEnd(r: Reply)
    requires r.Valid()
    ensures HasNoLineEnd(Line(r)) && Line(r) != []
  {
    OthersAreNoLineEnd(r);
    PrintedHasNoLineEnd(r);
    hide HasNoLineEnd, Hex8, Digits, Reply.Param, Reply.Printed, Reply.Word, Reply.Valid;
    NoLineEndConcat([r.m.code], Hex8(r.m.value));
    NoLineEndConcat([r.m.code] + Hex8(r.m.value), [R.SPACE]);
    NoLineEndConcat([r.m.code] + Hex8(r.m.value) + [R.SPACE], [r.Param()]);
    NoLineEndConcat(RequestPart(r), Digits(r.Word()));
    NoLineEndConcat(RequestPart(r) + Digits(r.Word()), [R.SEPARATOR]);
    NoLineEndConcat(Body(r), Hex8(r.Printed()));
  }

  lemma CompletesItsLine(line: seq<bv8>, statuses: seq<Status>)
    requires HasNoLineEnd(line) && |statuses| == |line| + 1 && WaitsThen(statuses, MessageCompleted)
    ensures R.CompletesByLine(line + [R.NEW_LINE], statuses)
  {
  }

  lemma FeedReadable(d: ResponseDecoder, r: Reply)
    requires d.state == RequestCode && r.Valid() && r.Readable()
    ensures var fed := Feed(Decode, d, r.Text());
      && fed.messages == [r.Meaning()] && fed.end == Decoder(RequestCode, r.Meaning())
      && R.CompletesByLine(r.Text(), fed.statuses)
  {
    hide Feed, Reply.Text, Reply.Valid, Reply.Readable, WaitsThen, Reply.Meaning, Line, HasNoLineEnd, R.CompletesByLine;
    ReplyIsDecoded(d, r);
    LineHasNoLineEnd(r);
    TextIsLine(r);
    CompletesItsLine(Line(r), Feed(Decode, d, r.Text()).statuses);
  }

  /** A stream of readable replies decodes to their meanings, each completed by its line end. */
  lemma {:induction false} StreamRoundTrip(d: ResponseDecoder, rs: seq<Reply>)
    requires d.state == RequestCode && AllReadable(rs)
    ensures var fed := Feed(Decode, d, EncodeAll(rs));
      && fed.messages == Meanings(rs) && fed.end.state == RequestCode
      && R.CompletesByLine(EncodeAll(rs), fed.statuses)
    decreases |rs|
  {
    hide Feed, Reply.Text, Reply.Valid, Reply.Readable, Reply.Meaning, R.IsNewLine;
    if rs == [] {
      FeedNothing(Decode, d);
    } else {
      FeedReadable(d, rs[0]);
      var next := Feed(Decode, d, rs[0].Text()).end;
      StreamRoundTrip(next, rs[1..]);
      FeedConcat(Decode, d, rs[0].Text(), EncodeAll(rs[1..]));
    }
  }

  // Line ends between replies

  predicate LineEndsOnly(s: seq<bv8>) { forall c | c in s :: R.IsNewLine(c) }

  lemma LineEndIsSkipped(d: ResponseDecoder, c: bv8)
    requires d.state == RequestCode && R.IsNewLine(c)
    ensures Decode(d, c) == (d, NeedMoreData)
  {
    assert !R.IsCode(R.NEW_LINE) && !R.IsCode(R.RETURN);
    hide R.IsCode;
  }

  /**
  A decoder that waits for a reply answers every line end before it with "need more", keeps its
  message, and goes on as if there had been none.
  */
  lemma {:induction false} LineEndsAreSkipped(d: ResponseDecoder, ends: seq<bv8>, bytes: seq<bv8>)
    requires d.state == RequestCode && LineEndsOnly(ends)
    ensures Feed(Decode, d, ends) == Fed(d, seq(|ends|, _ => NeedMoreData), [])
    ensures var fed := Feed(Decode, d, bytes);
      Feed(Decode, d, ends + bytes) == fed.(statuses := seq(|ends|, _ => NeedMoreData) + fed.statuses)
    decreases |ends|
  {
    hide Decode, R.IsNewLine;
    if ends != [] {
      LineEndIsSkipped(d, ends[0]);
      LineEndsAreSkipped(d, ends[1..], bytes);
      assert seq(|ends|, _ => NeedMoreData) == [NeedMoreData] + seq(|ends| - 1, _ => NeedMoreData);
    } else {
      FeedNothing(Decode, d);
    }
    hide Feed;
    FeedConcat(Decode, d, ends, bytes);
  }

  /** The replies, each after some line ends. */
  function EncodeSpaced(rs: seq<Reply>, ends: seq<seq<bv8>>): seq<bv8>
    requires |ends| == |rs|
  {
    if rs == [] then [] else ends[0] + rs[0].Text() + EncodeSpaced(rs[1..], ends[1..])
  }

  /** A stream of readable replies is decoded whatever line ends come between them, without an error. */
  lemma {:induction false} SpacedRoundTrip(d: ResponseDecoder, rs: seq<Reply>, ends: seq<seq<bv8>>)
    requires d.state == RequestCode && AllReadable(rs)
    requires |ends| == |rs| && forall e | e in ends :: LineEndsOnly(e)
    ensures var fed := Feed(Decode, d, EncodeSpaced(rs, ends));
      fed.messages == Meanings(rs) && fed.end.state == RequestCode && DecodeError !in fed.statuses
    decreases |rs|
  {
    hide Feed, Reply.Text, Reply.Valid, Reply.Readable, Reply.Meaning, R.IsNewLine, LineEndsOnly;
    if rs == [] {
      FeedNothing(Decode, d);
    } else {
      var text := rs[0].Text();
      FeedReadable(d, rs[0]);
      LineEndsAreSkipped(d, ends[0], text);
      var next := Feed(Decode, d, text).end;
      SpacedRoundTrip(next, rs[1..], ends[1..]);
      FeedConcat(Decode, d, ends[0] + text, EncodeSpaced(rs[1..], ends[1..]));
    }
  }

  // Resynchronisation

  /** A line end leaves every decoder between replies or in error. */
  lemma LineEnds(d: ResponseDecoder, garbage: seq<bv8>, c: bv8)
    requires R.IsNewLine(c)
    ensures Feed(Decode, d, garbage + [c]).end.state == RequestCode || Feed(Decode, d, garbage + [c]).end.state == Error
  {
    R.SeparatorsAreNoDigits();
    FeedConcat(Decode, d, garbage, [c]);
    FeedOne(Decode, Feed(Decode, d, garbage).end, c);
    assert !R.IsCode(R.NEW_LINE) && !R.IsCode(R.RETURN) && !IsParam(R.NEW_LINE) && !IsParam(R.RETURN);
    hide Feed, IsHexDigit, R.IsCode, IsParam;
  }

  lemma {:induction false} ErrorSkipsLine(d: ResponseDecoder, line: seq<bv8>, c: bv8)
    requires d.state == Error && R.IsNewLine(c)
    requires forall i | 0 <= i < |line| :: !R.IsNewLine(line[i])
    ensures var fed := Feed(Decode, d, line + [c]);
      && fed.end.state == RequestCode && |fed.messages| == 1
      && (line != [] ==> fed.messages[0].paramCode == R.UNKNOWN)
      && (line == [] ==> fed.messages[0] == d.msg)
    decreases |line|
  {
    hide R.IsNewLine, R.IsCode, IsParam, IsHexDigit, Fold;
    if line == [] {
      assert line + [c] == [c];
      FeedOne(Decode, d, c);
    } else {
      assert (line + [c])[1..] == line[1..] + [c] && (line + [c])[0] == line[0];
      var next := Decode(d, line[0]).0;
      ErrorSkipsLine(next, line[1..], c);
      assert [] + Feed(Decode, next, line[1..] + [c]).messages == Feed(Decode, next, line[1..] + [c]).messages;
    }
  }

  lemma FirstIsLost(d: ResponseDecoder, first: Reply)
    requires d.state == Error && first.Valid()
    ensures var fed := Feed(Decode, d, first.Text());
      fed.end.state == RequestCode && |fed.messages| == 1 && fed.messages[0].paramCode == R.UNKNOWN
  {
    TextIsLine(first);
    LineHasNoLineEnd(first);
    hide Feed, Line, Reply.Text, Reply.Valid;
    ErrorSkipsLine(d, Line(first), R.NEW_LINE);
  }

  /**
  After any garbage and a line end, a stream of readable replies is decoded exactly, except that
  the first one is lost when, and only when, the line end left the decoder in error.
  */
  lemma Resynchronises(d: ResponseDecoder, garbage: seq<bv8>, c: bv8, first: Reply, rs: seq<Reply>)
    requires R.IsNewLine(c) && first.Valid() && first.Readable() && AllReadable(rs)
    ensures var after := Feed(Decode, d, garbage + [c]).end;
      var fed := Feed(Decode, after, first.Text() + EncodeAll(rs));
      && |fed.messages| == 1 + |rs|
      && fed.messages[1..] == Meanings(rs)
      && fed.end.state == RequestCode
      && (after.state == RequestCode ==> fed.messages[0] == first.Meaning())
      && (after.state == Error ==> fed.messages[0].paramCode == R.UNKNOWN)
      && (after.state == RequestCode || after.state == Error)
  {
    hide Feed, Reply.Text, Reply.Valid, Reply.Readable, Reply.Meaning, R.IsNewLine, EncodeAll, R.CompletesByLine,
         AllReadable;
    LineEnds(d, garbage, c);
    var after := Feed(Decode, d, garbage + [c]).end;
    FeedConcat(Decode, after, first.Text(), EncodeAll(rs));
    if after.state == RequestCode {
      FeedReadable(after, first);
    } else {
      FirstIsLost(after, first);
    }
    StreamRoundTrip(Feed(Decode, after, first.Text()).end, rs);
  }

  // Soundness

  /** The part of a response read so far. */
  datatype Partial =
    | AtValue(code: bv8, digits: seq<bv8>)
    | AtParam(code: bv8, digits: seq<bv8>)
    | AtWord(code: bv8, digits: seq<bv8>, param: bv8, word: seq<bv8>)
    | AtCRC(code: bv8, digits: seq<bv8>, param: bv8, word: seq<bv8>, crc: seq<bv8>)
  {
    function Text(): seq<bv8> {
      [code] + digits
      + (if AtValue? then [] else [R.SPACE])
      + (if AtWord? || AtCRC? then [param] + word else [])
      + (if AtCRC? then [R.SEPARATOR] + crc else [])
    }

    predicate Valid() {
      && R.IsCode(code) && AllHex(digits)
      && (AtWord? || AtCRC? ==> IsParam(param) && AllHex(word))
      && (AtCRC? ==> AllHex(crc))
    }

    /** What the decoder holds of it; the other fields are those of the response before. */
    predicate Fits(d: ResponseDecoder) {
      && d.msg.request == R.RequestMsg(code, Read8(0, digits), 0, if AtCRC? then Read8(0, crc) else 0)
      && (AtWord? || AtCRC? ==> d.msg.paramCode == param && d.msg.paramValue == Read16(0, word))
      && d.state == (match this
                     case AtValue(_, _) => RequestValue
                     case AtParam(_, _) => ParamCode
                     case AtWord(_, _, _, _) => ParamValue
                     case AtCRC(_, _, _, _, _) => CRC)
    }
  }

  predicate Explains(d: ResponseDecoder, p: Partial, bytes: seq<bv8>) {
    d.state == RequestCode || d.state == Error
    || (p.Valid() && p.Fits(d) && R.IsSuffix(p.Text(), bytes))
  }

  /** What has been read after one more byte. */
  function Longer(d: ResponseDecoder, p: Partial, c: bv8): Partial {
    if d.state == RequestCode then AtValue(c, [])
    else
      match p
      case AtValue(_, _) => if c == R.SPACE then AtParam(p.code, p.digits) else AtValue(p.code, p.digits + [c])
      case AtParam(_, _) => AtWord(p.code, p.digits, c, [])
      case AtWord(_, _, _, _) =>
        if c == R.SEPARATOR then AtCRC(p.code, p.digits, p.param, p.word, [])
        else AtWord(p.code, p.digits, p.param, p.word + [c])
      case AtCRC(_, _, _, _, _) => AtCRC(p.code, p.digits, p.param, p.word, p.crc + [c])
  }

  lemma LongerText(d: ResponseDecoder, p: Partial, c: bv8)
    requires p.Fits(d) && Decode(d, c).1 == NeedMoreData
    ensures Longer(d, p, c).Text() == p.Text() + [c]
  {
    R.SeparatorsAreNoDigits();
    hide IsHexDigit, R.IsCode, AllHex, Fold, IsParam, Read8, Read16;
  }

  /** Digits collected so far, and one more. */
  lemma OneMoreDigit(s: seq<bv8>, c: bv8)
    requires AllHex(s) && IsHexDigit(c)
    ensures AllHex(s + [c])
    ensures Read8(0, s + [c]) == Add8(Read8(0, s), c) && Read16(0, s + [c]) == Add16(Read16(0, s), c)
  {
    hide IsHexDigit, Add8, Add16, Digit8, Digit16, Read8, Read16;
    R.Read8Last(0, s, c);
    Read16Last(0, s, c);
    AddIsDigit8(Read8(0, s), c);
    AddIsDigit16(Read16(0, s), c);
  }

  lemma NoDigitsYet()
    ensures AllHex([]) && Read8(0, []) == 0 && Read16(0, []) == 0
  {
  }

  lemma LongerFits(d: ResponseDecoder, p: Partial, c: bv8)
    requires p.Valid() && p.Fits(d) && Decode(d, c).1 == NeedMoreData
    ensures Longer(d, p, c).Valid() && Longer(d, p, c).Fits(Decode(d, c).0)
  {
    R.SeparatorsAreNoDigits();
    NoDigitsYet();
    hide IsHexDigit, R.IsCode, Fold, IsParam, Add8, Add16, AllHex, Read8, Read16, R.IsNewLine;
    if IsHexDigit(c) {
      match p {
        case AtValue(_, digits) => OneMoreDigit(digits, c);
        case AtParam(_, _) =>
        case AtWord(_, _, _, word) => OneMoreDigit(word, c);
        case AtCRC(_, _, _, _, crc) => OneMoreDigit(crc, c);
      }
    }
  }

  /** One more byte keeps the explanation. */
  lemma ExplainsNext(d: ResponseDecoder, p: Partial, bytes: seq<bv8>, c: bv8)
    requires Explains(d, p, bytes)
    ensures Explains(Decode(d, c).0, Longer(d, p, c), bytes + [c])
  {
    if d.state == RequestCode {
      StartsPartial(d, p, bytes, c);
    } else if d.state != Error && Decode(d, c).1 == NeedMoreData {
      LongerText(d, p, c);
      LongerFits(d, p, c);
      hide Decode, Partial.Text, Partial.Fits, Partial.Valid, R.IsSuffix, Longer;
      R.SuffixGrows(p.Text(), bytes, c);
    } else {
      hide Fold, Partial.Text, Partial.Fits, Partial.Valid, IsHexDigit, IsParam;
    }
  }

  lemma StartsPartial(d: ResponseDecoder, p: Partial, bytes: seq<bv8>, c: bv8)
    requires d.state == RequestCode
    ensures Explains(Decode(d, c).0, Longer(d, p, c), bytes + [c])
  {
    hide R.IsCode, IsParam, IsHexDigit, Fold;
    assert AtValue(c, []).Text() == [c];
  }

  lemma {:induction false} Explain(d: ResponseDecoder, bytes: seq<bv8>) returns (p: Partial)
    requires d.state == RequestCode
    ensures Explains(Feed(Decode, d, bytes).end, p, bytes)
    decreases |bytes|
  {
    hide Decode, Feed, Longer, Partial.Text, Partial.Fits, Partial.Valid, R.IsSuffix;
    if bytes == [] {
      p := AtValue(0, []);
      FeedNothing(Decode, d);
    } else {
      var n := |bytes| - 1;
      p := Explain(d, bytes[..n]);
      var now := Feed(Decode, d, bytes[..n]).end;
      hide Explains;
      ExplainsNext(now, p, bytes[..n], bytes[n]);
      p := Longer(now, p, bytes[n]);
      assert bytes == bytes[..n] + [bytes[n]];
      FeedConcat(Decode, d, bytes[..n], [bytes[n]]);
      FeedOne(Decode, now, bytes[n]);
    }
  }

  /** The answer to the last byte tells an error from a response that is still being read. */
  lemma ErrorIsAnswered(d: ResponseDecoder, c: bv8)
    ensures Decode(d, c).1 == DecodeError <==> Decode(d, c).0.state == Error
  {
    hide IsHexDigit, R.IsCode, IsParam, R.IsNewLine, Fold;
  }

  lemma LastAnswer(d: ResponseDecoder, bytes: seq<bv8>)
    requires bytes != []
    ensures var f := Feed(Decode, d, bytes);
      f.statuses[|bytes| - 1] == DecodeError <==> f.end.state == Error
  {
    hide Feed, Decode;
    var n := |bytes| - 1;
    assert bytes == bytes[..n] + [bytes[n]];
    FeedConcat(Decode, d, bytes[..n], [bytes[n]]);
    FeedOne(Decode, Feed(Decode, d, bytes[..n]).end, bytes[n]);
    ErrorIsAnswered(Feed(Decode, d, bytes[..n]).end, bytes[n]);
  }

  /** The stream ends with a well-formed line, with a matching CRC, that says m. */
  predicate Says(p: Partial, m: ResponseMsg, stream: seq<bv8>, c: bv8) {
    && p.AtCRC? && p.Valid() && p.Fits(Decoder(CRC, m)) && R.IsNewLine(c) && R.IsSuffix(p.Text() + [c], stream)
    && m.request.crc8 == m.ComputeCRC8()
  }

  lemma CompletesWhatIsSaid(d: ResponseDecoder, p: Partial, bytes: seq<bv8>, c: bv8)
    requires Explains(d, p, bytes) && d.state != Error && Decode(d, c).1 == MessageCompleted
    ensures Says(p, Decode(d, c).0.msg, bytes + [c], c)
  {
    R.SeparatorsAreNoDigits();
    hide Partial.Text, R.IsSuffix, IsHexDigit, AllHex, R.IsCode, IsParam, Read8, Read16, Fold, R.IsNewLine;
    OnlyCRCCompletes(d, c);
    R.SuffixGrows(p.Text(), bytes, c);
  }

  lemma OnlyCRCCompletes(d: ResponseDecoder, c: bv8)
    requires d.state != Error && Decode(d, c).1 == MessageCompleted
    ensures d.state == CRC && R.IsNewLine(c) && Decode(d, c).0.msg == d.msg
    ensures d.msg.request.crc8 == d.msg.ComputeCRC8()
  {
    hide IsHexDigit, R.IsCode, IsParam, Fold;
  }

  /** Past the request part, every error erases the parameter code. */
  predicate Erasing(d: ResponseDecoder) {
    d.state != RequestCode && d.state != RequestValue && (d.state == Error ==> d.msg.paramCode == R.UNKNOWN)
  }

  lemma {:induction false} StaysInLine(d: ResponseDecoder, s: seq<bv8>)
    requires d.state != RequestCode && HasNoLineEnd(s)
    ensures Feed(Decode, d, s).end.state != RequestCode
    ensures Erasing(d) ==> Erasing(Feed(Decode, d, s).end)
    decreases |s|
  {
    hide IsHexDigit, R.IsCode, IsParam, R.IsNewLine, Fold;
    if s != [] {
      StaysInLine(Decode(d, s[0]).0, s[1..]);
    }
  }

  lemma SpaceEndsRequest(d: ResponseDecoder)
    requires d.state != RequestCode
    ensures Erasing(Decode(d, R.SPACE).0)
  {
    R.SeparatorsAreNoDigits();
    hide IsHexDigit, R.IsCode, Fold;
  }

  lemma LeavesStart(d: ResponseDecoder, code: bv8)
    requires R.IsCode(code)
    ensures Decode(d, code).0.state != RequestCode
  {
    assert !R.IsNewLine(code);
    hide IsHexDigit, R.IsCode, IsParam, Fold, R.IsNewLine;
  }

  lemma PartialHasNoLineEnd(p: Partial)
    requires p.AtCRC? && p.Valid()
    ensures HasNoLineEnd(p.digits) && HasNoLineEnd([p.param] + p.word + [R.SEPARATOR] + p.crc)
  {
    DigitsHaveNoLineEnd(p.digits);
    DigitsHaveNoLineEnd(p.word);
    DigitsHaveNoLineEnd(p.crc);
    assert !IsParam(R.NEW_LINE) && !IsParam(R.RETURN);
    hide AllHex, R.IsCode, IsParam;
  }

  lemma EndConcat(d: ResponseDecoder, a: seq<bv8>, b: seq<bv8>)
    ensures Feed(Decode, d, a + b).end == Feed(Decode, Feed(Decode, d, a).end, b).end
  {
    FeedConcat(Decode, d, a, b);
  }

  lemma EndOne(d: ResponseDecoder, c: bv8)
    ensures Feed(Decode, d, [c]).end == Decode(d, c).0
  {
    FeedOne(Decode, d, c);
  }

  lemma LineLeavesErasing(d: ResponseDecoder, p: Partial)
    requires p.AtCRC? && p.Valid()
    ensures Erasing(Feed(Decode, d, p.Text()).end)
  {
    PartialHasNoLineEnd(p);
    LeavesStart(d, p.code);
    hide Feed, Decode, Erasing, HasNoLineEnd, Partial.Valid, Partial.Text;
    var rest := [p.param] + p.word + [R.SEPARATOR] + p.crc;
    EndOne(d, p.code);
    var d1 := Feed(Decode, d, [p.code]).end;
    StaysInLine(d1, p.digits);
    EndConcat(d, [p.code], p.digits);
    var d2 := Feed(Decode, d1, p.digits).end;
    SpaceEndsRequest(d2);
    EndOne(d2, R.SPACE);
    EndConcat(d, [p.code] + p.digits, [R.SPACE]);
    StaysInLine(Decode(d2, R.SPACE).0, rest);
    EndConcat(d, [p.code] + p.digits + [R.SPACE], rest);
    PartialText(p);
  }

  lemma PartialText(p: Partial)
    requires p.AtCRC?
    ensures p.Text() == [p.code] + p.digits + [R.SPACE] + ([p.param] + p.word + [R.SEPARATOR] + p.crc)
  {
  }

  lemma ErrorSaysNothing(d: ResponseDecoder, p: Partial, bytes: seq<bv8>, c: bv8)
    requires Feed(Decode, d, bytes).end.state == Error
    ensures !Says(p, Feed(Decode, d, bytes).end.msg, bytes + [c], c)
  {
    assert !IsParam(R.UNKNOWN);
    hide IsParam, Feed, R.IsCode, AllHex, Read8, Read16, Fold;
    var m := Feed(Decode, d, bytes).end.msg;
    if Says(p, m, bytes + [c], c) {
      var n := |bytes| - |p.Text()|;
      SuffixShrinks(p.Text(), bytes, c);
      hide Partial.Text;
      FeedConcat(Decode, d, bytes[..n], p.Text());
      LineLeavesErasing(Feed(Decode, d, bytes[..n]).end, p);
      assert false;
    }
  }

  lemma SuffixShrinks(s: seq<bv8>, t: seq<bv8>, c: bv8)
    requires R.IsSuffix(s + [c], t + [c])
    ensures |s| <= |t| && t == t[..|t| - |s|] + s
  {
    var n := |t| - |s|;
    assert (t + [c])[n..] == t[n..] + [c];
    assert (s + [c])[..|s|] == s && (t[n..] + [c])[..|s|] == t[n..];
  }

  lemma ErrorCompletesAsItIs(d: ResponseDecoder, c: bv8)
    requires d.state == Error && Decode(d, c).1 == MessageCompleted
    ensures Decode(d, c).0.msg == d.msg
  {
  }

  /**
  A completed response is what the line just ended says, under a matching CRC, if and only if the
  byte before the line end was not answered by an error.
  */
  lemma CompletedIsGenuine(d: ResponseDecoder, bytes: seq<bv8>, c: bv8)
    requires d.state == RequestCode && bytes != []
    requires Decode(Feed(Decode, d, bytes).end, c).1 == MessageCompleted
    ensures var m := Decode(Feed(Decode, d, bytes).end, c).0.msg;
      (exists p :: Says(p, m, bytes + [c], c)) <==> Feed(Decode, d, bytes).statuses[|bytes| - 1] != DecodeError
  {
    hide Feed, Says, Explains, Decode;
    LastAnswer(d, bytes);
    var now := Feed(Decode, d, bytes).end;
    if now.state == Error {
      ErrorCompletesAsItIs(now, c);
      forall p
        ensures !Says(p, now.msg, bytes + [c], c)
      {
        ErrorSaysNothing(d, p, bytes, c);
      }
    } else {
      var p := Explain(d, bytes);
      CompletesWhatIsSaid(now, p, bytes, c);
    }
  }

  /** Directly after an error the decoder completes with whatever it held: here with an old response. */
  lemma StaleIsCompleted(last: ResponseMsg, c: bv8, end: bv8)
    requires !R.IsCode(c) && !R.IsNewLine(c) && R.IsNewLine(end)
    ensures Feed(Decode, Decoder(RequestCode, last), [c, end]).messages == [last]
  {
    hide R.IsCode, R.IsNewLine, IsParam, IsHexDigit, Fold, Feed;
    var d := Decoder(RequestCode, last);
    FeedConcat(Decode, d, [c], [end]);
    FeedOne(Decode, d, c);
    FeedOne(Decode, Decoder(Error, last), end);
    assert [c] + [end] == [c, end];
  }
}
