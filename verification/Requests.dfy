/** Request messages: their text, the byte-at-a-time decoder, and what it makes of streams. */
module Requests {
  import opened Machine
  import opened Crc
  import CrcRemainder
  import opened Hex
  import opened Streams

  const NEW_LINE: bv8 := 0x0a
  const RETURN: bv8 := 0x0d
  const SEPARATOR: bv8 := 0x2a
  const SPACE: bv8 := 0x20
  const WRITE: bv8 := 0x57
  const UNKNOWN: bv8 := 0

  predicate IsNewLine(c: bv8) { c == NEW_LINE || c == RETURN }

  /** Q T L M U X P S B E W K F f H R. */
  predicate IsCode(c: bv8) {
    || c == 0x51 || c == 0x54 || c == 0x4c || c == 0x4d || c == 0x55 || c == 0x58 || c == 0x50 || c == 0x53
    || c == 0x42 || c == 0x45 || c == WRITE || c == 0x4b || c == 0x46 || c == 0x66 || c == 0x48 || c == 0x52
  }

  /** The requests there are, and the letters that stand for them. */
  datatype RequestMsgCode =
    | Query | Tool | Load | Mode | Unload | Reset | Finda | Version
    | Button | Eject | Write | Cut | FilamentType | FilamentSensor | Home | Read
  {
    function Letter(): char {
      match this
      case Query => 'Q'
      case Tool => 'T'
      case Load => 'L'
      case Mode => 'M'
      case Unload => 'U'
      case Reset => 'X'
      case Finda => 'P'
      case Version => 'S'
      case Button => 'B'
      case Eject => 'E'
      case Write => 'W'
      case Cut => 'K'
      case FilamentType => 'F'
      case FilamentSensor => 'f'
      case Home => 'H'
      case Read => 'R'
    }
  }

  /** The decoder knows exactly those letters. */
  lemma CodesAreLetters(c: bv8)
    ensures IsCode(c) <==> exists k: RequestMsgCode :: k.Letter() as int == c as int
  {
    if IsCode(c) {
      var k := if c == 0x51 then Query else if c == 0x54 then Tool else if c == 0x4c then Load
               else if c == 0x4d then Mode else if c == 0x55 then Unload else if c == 0x58 then Reset
               else if c == 0x50 then Finda else if c == 0x53 then Version else if c == 0x42 then Button
               else if c == 0x45 then Eject else if c == WRITE then Write else if c == 0x4b then Cut
               else if c == 0x46 then FilamentType else if c == 0x66 then FilamentSensor
               else if c == 0x48 then Home else Read;
      assert k.Letter() as int == c as int;
    }
  }

  datatype RequestMsg = RequestMsg(code: bv8, value: bv8, value2: bv16, crc8: bv8) {
    function ComputeCRC8(): bv8 {
      Fold(0, [code, value, Low(value2), High(value2)])
    }
  }

  /** The constructors of RequestMsg. */
  function Request(code: bv8, value: bv8, value2: bv16): RequestMsg {
    var m := RequestMsg(code, value, value2, 0);
    m.(crc8 := m.ComputeCRC8())
  }

  // Decoder

  datatype State = Code | Value | Address | WriteValue | CRC | Error

  type RequestDecoder = Decoder<State, RequestMsg>

  /** How the request decoder answers every byte it cannot use. */
  function Broken(m: RequestMsg): (RequestDecoder, Status) {
    (Decoder(Error, m.(code := UNKNOWN)), DecodeError)
  }

  /** DecodeRequest. */
  function Decode(d: RequestDecoder, c: bv8): (RequestDecoder, Status) {
    var m := d.msg;
    match d.state
    case Code =>
      if IsCode(c) then
        (Decoder(if c == WRITE then Address else Value, RequestMsg(c, 0, 0, 0)), NeedMoreData)
      else Broken(m)
    case Value =>
      if IsHexDigit(c) then (Decoder(Value, m.(value := Digit8(m.value, c))), NeedMoreData)
      else if c == SEPARATOR then (Decoder(CRC, m), NeedMoreData)
      else Broken(m)
    case Address =>
      if IsHexDigit(c) then (Decoder(Address, m.(value := Digit8(m.value, c))), NeedMoreData)
      else if c == SPACE then (Decoder(WriteValue, m), NeedMoreData)
      else Broken(m)
    case WriteValue =>
      if IsHexDigit(c) then (Decoder(WriteValue, m.(value2 := Digit16(m.value2, c))), NeedMoreData)
      else if c == SEPARATOR then (Decoder(CRC, m), NeedMoreData)
      else Broken(m)
    case CRC =>
      if IsHexDigit(c) then (Decoder(CRC, m.(crc8 := Digit8(m.crc8, c))), NeedMoreData)
      else if IsNewLine(c) then
        if m.crc8 != m.ComputeCRC8() then Broken(m) else (Decoder(Code, m), MessageCompleted)
      else Broken(m)
    case Error =>
      if IsNewLine(c) then (Decoder(Code, m), MessageCompleted) else Broken(m)
  }

  // Encoders

  function AppendCRC(crc: bv8): seq<bv8> { [SEPARATOR] + Hex8(crc) }

  function BeginEncode(m: RequestMsg): seq<bv8> { [m.code] + Hex8(m.value) + [SPACE] }

  /** EncodeRequest. */
  function EncodeRequest(m: RequestMsg): seq<bv8> {
    [m.code] + Hex8(m.value) + AppendCRC(m.crc8) + [NEW_LINE]
  }

  /** EncodeWriteRequest. */
  function EncodeWriteRequest(address: bv8, value: bv16): seq<bv8> {
    var m := Request(WRITE, address, value);
    BeginEncode(m) + Hex16(value) + AppendCRC(m.crc8) + [NEW_LINE]
  }

  /** The messages the two constructors build: only a write carries a second value. */
  predicate WellFormed(m: RequestMsg) {
    IsCode(m.code) && m.crc8 == m.ComputeCRC8() && (m.code != WRITE ==> m.value2 == 0)
  }

  function Encode(m: RequestMsg): seq<bv8> {
    if m.code == WRITE then EncodeWriteRequest(m.value, m.value2) else EncodeRequest(m)
  }

  function EncodeAll(ms: seq<RequestMsg>): seq<bv8> {
    if ms == [] then [] else Encode(ms[0]) + EncodeAll(ms[1..])
  }

  // Frames: the texts that the decoder takes for a message

  /** A request as it stands in the stream, with any number of digits and either line end. */
  datatype Frame = Frame(code: bv8, digits: seq<bv8>, word: Option<seq<bv8>>, crc: seq<bv8>, end: bv8) {
    predicate Valid() {
      && IsCode(code) && AllHex(digits) && AllHex(crc) && IsNewLine(end)
      && (word.Some? <==> code == WRITE)
      && (word.Some? ==> AllHex(word.value))
    }

    function Head(): seq<bv8> {
      [code] + digits + if word.Some? then [SPACE] + word.value else []
    }

    function Text(): seq<bv8> { Head() + [SEPARATOR] + crc + [end] }

    function Meaning(): RequestMsg {
      RequestMsg(code, Read8(0, digits), if word.Some? then Read16(0, word.value) else 0, Read8(0, crc))
    }

    predicate Genuine() { Meaning().crc8 == Meaning().ComputeCRC8() }
  }

  // Feeding a stream piece by piece

  /** Digits are collected wherever a number is expected. */
  function Collected(d: RequestDecoder, s: seq<bv8>): RequestDecoder {
    match d.state
    case Value => d.(msg := d.msg.(value := Read8(d.msg.value, s)))
    case Address => d.(msg := d.msg.(value := Read8(d.msg.value, s)))
    case WriteValue => d.(msg := d.msg.(value2 := Read16(d.msg.value2, s)))
    case CRC => d.(msg := d.msg.(crc8 := Read8(d.msg.crc8, s)))
    case _ => d
  }

  lemma {:induction false} FeedDigits(d: RequestDecoder, s: seq<bv8>)
    requires d.state != Code && d.state != Error && AllHex(s)
    ensures Feed(Decode, d, s).end == Collected(d, s) && Quiet(Feed(Decode, d, s))
    decreases |s|
  {
    hide IsHexDigit, Digit8, Digit16;
    if s != [] {
      var next := Decode(d, s[0]).0;
      FeedDigits(next, s[1..]);
      assert Collected(next, s[1..]) == Collected(d, s);
    }
  }

  // A frame, fed to a decoder that expects a message

  lemma FeedCode(d: RequestDecoder, code: bv8)
    requires d.state == Code && IsCode(code)
    ensures var f := Feed(Decode, d, [code]);
      Quiet(f) && f.end == Decoder(if code == WRITE then Address else Value, RequestMsg(code, 0, 0, 0))
  {
    hide IsCode;
    FeedOne(Decode, d, code);
  }

  lemma FeedMoreDigits(d: RequestDecoder, a: seq<bv8>, s: seq<bv8>)
    requires Quiet(Feed(Decode, d, a)) && AllHex(s)
    requires Feed(Decode, d, a).end.state != Code && Feed(Decode, d, a).end.state != Error
    ensures Quiet(Feed(Decode, d, a + s)) && Feed(Decode, d, a + s).end == Collected(Feed(Decode, d, a).end, s)
  {
    FeedDigits(Feed(Decode, d, a).end, s);
    QuietConcat(Decode, d, a, s);
  }

  lemma SeparatorsAreNoDigits()
    ensures !IsHexDigit(SEPARATOR) && !IsHexDigit(SPACE) && !IsHexDigit(NEW_LINE) && !IsHexDigit(RETURN)
  {
  }

  lemma FeedHead(d: RequestDecoder, f: Frame)
    requires d.state == Code && f.Valid()
    ensures Quiet(Feed(Decode, d, f.Head() + [SEPARATOR]))
    ensures Feed(Decode, d, f.Head() + [SEPARATOR]).end == Decoder(CRC, f.Meaning().(crc8 := 0))
  {
    hide Feed, Quiet, IsCode, Read8, Read16, IsHexDigit, AllHex;
    SeparatorsAreNoDigits();
    FeedCode(d, f.code);
    FeedMoreDigits(d, [f.code], f.digits);
    var a := [f.code] + f.digits;
    if f.word.Some? {
      QuietStep(Decode, d, a, SPACE);
      FeedMoreDigits(d, a + [SPACE], f.word.value);
      assert a + [SPACE] + f.word.value == f.Head();
    } else {
      assert a == f.Head();
    }
    QuietStep(Decode, d, f.Head(), SEPARATOR);
  }

  /**
  A frame is taken for its meaning exactly when its CRC is right. Only its last byte completes
  the message, or breaks it.
  */
  lemma FrameIsDecoded(d: RequestDecoder, f: Frame)
    requires d.state == Code && f.Valid()
    ensures var fed := Feed(Decode, d, f.Text());
      var n := |f.Text()| - 1;
      && (forall i | 0 <= i < n :: fed.statuses[i] == NeedMoreData)
      && (if f.Genuine() then
            fed.end == Decoder(Code, f.Meaning()) && fed.messages == [f.Meaning()]
            && fed.statuses[n] == MessageCompleted
          else
            fed.end.state == Error && fed.messages == [] && fed.statuses[n] == DecodeError)
  {
    hide Feed, IsHexDigit, IsCode, Read8, Read16, Fold, AllHex, IsNewLine, Frame.Head;
    FeedHead(d, f);
    FeedMoreDigits(d, f.Head() + [SEPARATOR], f.crc);
    var a := f.Head() + [SEPARATOR] + f.crc;
    LastByte(f.Meaning(), f.end);
    FeedConcat(Decode, d, a, [f.end]);
    assert f.Text() == a + [f.end];
  }

  lemma LastByte(m: RequestMsg, c: bv8)
    requires IsNewLine(c)
    ensures Feed(Decode, Decoder(CRC, m), [c])
            == if m.crc8 == m.ComputeCRC8() then Fed(Decoder(Code, m), [MessageCompleted], [m])
               else Fed(Broken(m).0, [DecodeError], [])
  {
    SeparatorsAreNoDigits();
    FeedOne(Decode, Decoder(CRC, m), c);
  }

  // Encoded requests

  /** The frame that an encoder writes. */
  function Encoded(m: RequestMsg): Frame {
    Frame(m.code, Hex8(m.value), if m.code == WRITE then Some(Hex16(m.value2)) else None, Hex8(m.crc8), NEW_LINE)
  }

  lemma EncodedFrame(m: RequestMsg)
    requires WellFormed(m)
    ensures Encoded(m).Valid() && Encoded(m).Genuine()
    ensures Encoded(m).Text() == Encode(m) && Encoded(m).Meaning() == m
  {
    EncodedMeans(m);
    EncodedText(m);
    hide Encoded, Encode, Frame.Text, Frame.Meaning, RequestMsg.ComputeCRC8, Frame.Valid;
  }

  lemma EncodedMeans(m: RequestMsg)
    requires WellFormed(m)
    ensures Encoded(m).Valid() && Encoded(m).Meaning() == m
  {
    hide Fold, Hex8, Hex16, Read8, Read16, AllHex, IsCode;
    Hex8RoundTrip(m.value);
    Hex16RoundTrip(m.value2);
    Hex8RoundTrip(m.crc8);
  }

  lemma EncodedText(m: RequestMsg)
    requires WellFormed(m)
    ensures Encoded(m).Text() == Encode(m)
  {
    hide Fold, Hex8, Hex16, IsCode;
    if m.code == WRITE {
      assert Encode(m)
          == [m.code] + Hex8(m.value) + [SPACE] + Hex16(m.value2) + [SEPARATOR] + Hex8(m.crc8) + [NEW_LINE];
    } else {
      assert Encode(m) == [m.code] + Hex8(m.value) + [SEPARATOR] + Hex8(m.crc8) + [NEW_LINE];
    }
  }

  lemma FramesHoldOneLine(f: Frame)
    requires f.Valid()
    ensures forall i | 0 <= i < |f.Text()| - 1 :: !IsNewLine(f.Text()[i])
  {
    SeparatorsAreNoDigits();
    hide IsHexDigit;
    assert !IsCode(NEW_LINE) && !IsCode(RETURN);
    hide IsCode;
  }

  predicate AllWellFormed(ms: seq<RequestMsg>) { forall m | m in ms :: WellFormed(m) }

  /** Each byte is answered by "completed" if it ends a line and by "need more" otherwise. */
  predicate CompletesByLine(bytes: seq<bv8>, statuses: seq<Status>)
    requires |bytes| == |statuses|
  {
    forall i | 0 <= i < |bytes| ::
      statuses[i] == if IsNewLine(bytes[i]) then MessageCompleted else NeedMoreData
  }

  lemma MessageRoundTrip(d: RequestDecoder, m: RequestMsg)
    requires d.state == Code && WellFormed(m)
    ensures var fed := Feed(Decode, d, Encode(m));
      && fed.messages == [m] && fed.end == Decoder(Code, m)
      && CompletesByLine(Encode(m), fed.statuses)
  {
    hide Feed, Encode, Frame.Text, Frame.Meaning, Frame.Genuine, WellFormed;
    EncodedFrame(m);
    FrameIsDecoded(d, Encoded(m));
    FramesHoldOneLine(Encoded(m));
    EndsWithNewLine(m);
  }

  lemma EndsWithNewLine(m: RequestMsg)
    ensures Encode(m) != [] && Encode(m)[|Encode(m)| - 1] == NEW_LINE
  {
    hide Hex8, Hex16;
  }

  /** A stream of encoded requests decodes to those requests, each completed by its line end. */
  lemma {:induction false} StreamRoundTrip(d: RequestDecoder, ms: seq<RequestMsg>)
    requires d.state == Code && AllWellFormed(ms)
    ensures var fed := Feed(Decode, d, EncodeAll(ms));
      && fed.messages == ms && fed.end.state == Code
      && (ms != [] ==> fed.end.msg == ms[|ms| - 1])
      && CompletesByLine(EncodeAll(ms), fed.statuses)
    decreases |ms|
  {
    hide Feed, Encode, WellFormed;
    if ms == [] {
      assert Feed(Decode, d, []) == Fed(d, [], []) by { FeedNothing(Decode, d); }
    } else {
      MessageRoundTrip(d, ms[0]);
      var next := Feed(Decode, d, Encode(ms[0])).end;
      StreamRoundTrip(next, ms[1..]);
      FeedConcat(Decode, d, Encode(ms[0]), EncodeAll(ms[1..]));
      FeedNothing(Decode, next);
      assert ms == [ms[0]] + ms[1..];
    }
  }

  // Resynchronisation

  /** A line end leaves every decoder between messages or in error. */
  lemma LineEnds(d: RequestDecoder, garbage: seq<bv8>, c: bv8)
    requires IsNewLine(c)
    ensures Feed(Decode, d, garbage + [c]).end.state == Code || Feed(Decode, d, garbage + [c]).end.state == Error
  {
    SeparatorsAreNoDigits();
    FeedConcat(Decode, d, garbage, [c]);
    FeedOne(Decode, Feed(Decode, d, garbage).end, c);
    assert !IsCode(NEW_LINE) && !IsCode(RETURN);
    hide Feed, IsHexDigit, IsCode;
  }

  /** A decoder in error waits for the end of the line and reports it as an unknown message. */
  lemma {:induction false} ErrorSkipsLine(d: RequestDecoder, line: seq<bv8>, c: bv8)
    requires d.state == Error && IsNewLine(c)
    requires forall i | 0 <= i < |line| :: !IsNewLine(line[i])
    ensures var fed := Feed(Decode, d, line + [c]);
      && fed.end.state == Code && |fed.messages| == 1
      && (line != [] ==> fed.messages[0].code == UNKNOWN)
      && (line == [] ==> fed.messages[0] == d.msg)
    decreases |line|
  {
    if line == [] {
      assert line + [c] == [c];
      FeedOne(Decode, d, c);
    } else {
      assert (line + [c])[1..] == line[1..] + [c] && (line + [c])[0] == line[0];
      var next := Decode(d, line[0]).0;
      ErrorSkipsLine(next, line[1..], c);
      assert [] + Feed(Decode, next, line[1..] + [c]).messages == Feed(Decode, next, line[1..] + [c]).messages;
    }
  }

  /**
  After any garbage and a line end, a stream of requests is decoded exactly, except that the
  first request is lost when, and only when, the line end left the decoder in error.
  */
  lemma Resynchronises(d: RequestDecoder, garbage: seq<bv8>, c: bv8, first: RequestMsg, ms: seq<RequestMsg>)
    requires IsNewLine(c) && WellFormed(first) && AllWellFormed(ms)
    ensures var after := Feed(Decode, d, garbage + [c]).end;
      var fed := Feed(Decode, after, Encode(first) + EncodeAll(ms));
      && |fed.messages| == 1 + |ms|
      && fed.messages[1..] == ms
      && fed.end.state == Code
      && (after.state == Code ==> fed.messages[0] == first)
      && (after.state == Error ==> fed.messages[0].code == UNKNOWN)
      && (after.state == Code || after.state == Error)
  {
    hide Feed, Encode, WellFormed, IsNewLine, EncodeAll, CompletesByLine;
    LineEnds(d, garbage, c);
    var after := Feed(Decode, d, garbage + [c]).end;
    FeedConcat(Decode, after, Encode(first), EncodeAll(ms));
    if after.state == Code {
      MessageRoundTrip(after, first);
    } else {
      FirstIsLost(after, first);
    }
    StreamRoundTrip(Feed(Decode, after, Encode(first)).end, ms);
  }

  lemma FirstIsLost(d: RequestDecoder, first: RequestMsg)
    requires d.state == Error && WellFormed(first)
    ensures var fed := Feed(Decode, d, Encode(first));
      fed.end.state == Code && |fed.messages| == 1 && fed.messages[0].code == UNKNOWN
  {
    hide Feed, Encode, WellFormed, Frame.Text, Frame.Valid;
    EncodedFrame(first);
    FramesHoldOneLine(Encoded(first));
    EndsWithNewLine(first);
    HasCode(first);
    var text := Encode(first);
    var n := |text| - 1;
    assert text == text[..n] + [NEW_LINE];
    ErrorSkipsLine(d, text[..n], NEW_LINE);
  }

  lemma HasCode(m: RequestMsg)
    ensures |Encode(m)| >= 2
  {
    hide Hex8, Hex16;
  }

  // Soundness

  /** The part of a frame read so far. */
  datatype Partial = Partial(code: bv8, digits: seq<bv8>, word: Option<seq<bv8>>, crc: Option<seq<bv8>>) {
    function Text(): seq<bv8> {
      [code] + digits
      + (if word.Some? then [SPACE] + word.value else [])
      + (if crc.Some? then [SEPARATOR] + crc.value else [])
    }

    function Meaning(): RequestMsg {
      RequestMsg(code, Read8(0, digits), if word.Some? then Read16(0, word.value) else 0,
                 if crc.Some? then Read8(0, crc.value) else 0)
    }

    predicate Fits(state: State) {
      && IsCode(code) && AllHex(digits)
      && (word.Some? ==> code == WRITE && AllHex(word.value))
      && (crc.Some? ==> AllHex(crc.value))
      && match state
         case Value => code != WRITE && word.None? && crc.None?
         case Address => code == WRITE && word.None? && crc.None?
         case WriteValue => code == WRITE && word.Some? && crc.None?
         case CRC => (code == WRITE <==> word.Some?) && crc.Some?
         case _ => false
    }
  }

  predicate IsSuffix(s: seq<bv8>, t: seq<bv8>) {
    |s| <= |t| && t[|t| - |s|..] == s
  }

  /** The decoder has just read p, or waits for a message, or has given one up as unknown. */
  predicate Explains(d: RequestDecoder, p: Partial, bytes: seq<bv8>) {
    match d.state
    case Code => true
    case Error => d.msg.code == UNKNOWN
    case _ => p.Fits(d.state) && d.msg == p.Meaning() && IsSuffix(p.Text(), bytes)
  }

  /** What has been read after one more byte. */
  function Longer(d: RequestDecoder, p: Partial, c: bv8): Partial {
    match d.state
    case Code => Partial(c, [], None, None)
    case Value => if c == SEPARATOR then p.(crc := Some([])) else p.(digits := p.digits + [c])
    case Address => if c == SPACE then p.(word := Some([])) else p.(digits := p.digits + [c])
    case WriteValue =>
      if c == SEPARATOR then p.(crc := Some([]))
      else if p.word.Some? then p.(word := Some(p.word.value + [c])) else p
    case CRC => if p.crc.Some? then p.(crc := Some(p.crc.value + [c])) else p
    case Error => p
  }

  lemma {:induction false} Read8Last(v: bv8, s: seq<bv8>, c: bv8)
    ensures Read8(v, s + [c]) == Digit8(Read8(v, s), c)
    decreases |s|
  {
    hide Digit8;
    if s == [] {
      assert [c][1..] == [];
      assert s + [c] == [c];
      assert Read8(Digit8(v, c), []) == Digit8(v, c);
    } else {
      assert (s + [c])[1..] == s[1..] + [c];
      Read8Last(Digit8(v, s[0]), s[1..], c);
    }
  }

  lemma SuffixGrows(s: seq<bv8>, t: seq<bv8>, c: bv8)
    requires IsSuffix(s, t)
    ensures IsSuffix(s + [c], t + [c])
  {
  }

  lemma LongerText(d: RequestDecoder, p: Partial, c: bv8)
    requires p.Fits(d.state) && Decode(d, c).1 == NeedMoreData
    ensures Longer(d, p, c).Text() == p.Text() + [c]
  {
    SeparatorsAreNoDigits();
    hide IsHexDigit, IsCode, AllHex, Fold;
  }

  lemma LongerMeaning(d: RequestDecoder, p: Partial, c: bv8)
    requires p.Fits(d.state) && d.msg == p.Meaning() && Decode(d, c).1 == NeedMoreData
    ensures var next := Decode(d, c).0;
      Longer(d, p, c).Fits(next.state) && next.msg == Longer(d, p, c).Meaning()
  {
    SeparatorsAreNoDigits();
    Read8Last(0, p.digits, c);
    if p.word.Some? {
      Read16Last(0, p.word.value, c);
    }
    if p.crc.Some? {
      Read8Last(0, p.crc.value, c);
    }
    hide IsHexDigit, IsCode, Fold, Digit8, Digit16;
  }

  /** One more byte keeps the explanation. */
  lemma ExplainsNext(d: RequestDecoder, p: Partial, bytes: seq<bv8>, c: bv8)
    requires Explains(d, p, bytes)
    ensures Explains(Decode(d, c).0, Longer(d, p, c), bytes + [c])
  {
    if d.state == Code {
      StartsPartial(d, p, bytes, c);
    } else if d.state != Error && Decode(d, c).1 == NeedMoreData {
      LongerText(d, p, c);
      LongerMeaning(d, p, c);
      SuffixGrows(p.Text(), bytes, c);
      hide Decode, Partial.Text, Partial.Meaning, Partial.Fits, IsSuffix, Longer;
      DecodeStays(d, c);
    } else {
      hide *;
      DecodeEnds(d, c);
      EndsAreExplained(Decode(d, c).0, Longer(d, p, c), bytes + [c]);
    }
  }

  lemma StartsPartial(d: RequestDecoder, p: Partial, bytes: seq<bv8>, c: bv8)
    requires d.state == Code
    ensures Explains(Decode(d, c).0, Longer(d, p, c), bytes + [c])
  {
    hide IsCode, Fold;
    assert Partial(c, [], None, None).Text() == [c];
  }

  lemma DecodeEnds(d: RequestDecoder, c: bv8)
    requires d.state == Error || (d.state != Code && Decode(d, c).1 != NeedMoreData)
    ensures var next := Decode(d, c).0; next.state == Code || (next.state == Error && next.msg.code == UNKNOWN)
  {
    hide Fold, IsHexDigit, IsCode, IsNewLine;
  }

  lemma EndsAreExplained(d: RequestDecoder, p: Partial, bytes: seq<bv8>)
    requires d.state == Code || (d.state == Error && d.msg.code == UNKNOWN)
    ensures Explains(d, p, bytes)
  {
  }

  lemma DecodeStays(d: RequestDecoder, c: bv8)
    requires Decode(d, c).1 == NeedMoreData
    ensures Decode(d, c).0.state != Code && Decode(d, c).0.state != Error
  {
  }

  lemma {:induction false} Explain(d: RequestDecoder, bytes: seq<bv8>) returns (p: Partial)
    requires d.state == Code
    ensures Explains(Feed(Decode, d, bytes).end, p, bytes)
    decreases |bytes|
  {
    hide Decode, Feed, Explains, Longer;
    if bytes == [] {
      p := Partial(0, [], None, None);
      FeedNothing(Decode, d);
      assert Explains(d, p, []) by { ExplainsStart(d, p); }
    } else {
      var n := |bytes| - 1;
      p := Explain(d, bytes[..n]);
      var now := Feed(Decode, d, bytes[..n]).end;
      ExplainsNext(now, p, bytes[..n], bytes[n]);
      p := Longer(now, p, bytes[n]);
      assert bytes == bytes[..n] + [bytes[n]];
      FeedConcat(Decode, d, bytes[..n], [bytes[n]]);
      FeedOne(Decode, now, bytes[n]);
    }
  }

  lemma ExplainsStart(d: RequestDecoder, p: Partial)
    requires d.state == Code
    ensures Explains(d, p, [])
  {
  }

  /**
  Whatever the stream, a message completed with a known code is the meaning of a well-formed
  frame with a matching CRC that ends the stream.
  */
  lemma CompletedIsGenuine(d: RequestDecoder, bytes: seq<bv8>, c: bv8) returns (f: Frame)
    requires d.state == Code
    requires Decode(Feed(Decode, d, bytes).end, c).1 == MessageCompleted
    requires Decode(Feed(Decode, d, bytes).end, c).0.msg.code != UNKNOWN
    ensures f.Valid() && f.Genuine() && f.end == c
    ensures f.Meaning() == Decode(Feed(Decode, d, bytes).end, c).0.msg
    ensures IsSuffix(f.Text(), bytes + [c])
  {
    hide Feed, Decode, Explains, Frame.Valid, Frame.Text, Frame.Meaning, Partial.Text, Partial.Fits, Partial.Meaning,
         IsSuffix, IsNewLine;
    var p := Explain(d, bytes);
    var now := Feed(Decode, d, bytes).end;
    OnlyCRCCompletes(now, p, bytes, c);
    f := Closed(p, c);
    SuffixGrows(p.Text(), bytes, c);
  }

  lemma Closed(p: Partial, c: bv8) returns (f: Frame)
    requires p.Fits(CRC) && IsNewLine(c)
    ensures f.Valid() && f.Text() == p.Text() + [c] && f.Meaning() == p.Meaning() && f.end == c
  {
    hide Read8, Read16, Fold, IsHexDigit, IsCode, AllHex, IsNewLine;
    f := Frame(p.code, p.digits, p.word, p.crc.value, c);
  }

  lemma OnlyCRCCompletes(d: RequestDecoder, p: Partial, bytes: seq<bv8>, c: bv8)
    requires Explains(d, p, bytes)
    requires Decode(d, c).1 == MessageCompleted && Decode(d, c).0.msg.code != UNKNOWN
    ensures d.state == CRC && p.Fits(CRC) && IsNewLine(c)
    ensures d.msg == p.Meaning() == Decode(d, c).0.msg && d.msg.crc8 == d.msg.ComputeCRC8()
    ensures IsSuffix(p.Text(), bytes)
  {
    SeparatorsAreNoDigits();
    hide IsHexDigit, Fold, Partial.Text, Partial.Meaning, Partial.Fits, IsSuffix;
  }

  /** The bytes of a request that its CRC covers. */
  function Covered(m: RequestMsg): seq<bv8> { [m.code, m.value, Low(m.value2), High(m.value2)] }

  /** The CRC byte fits exactly when it is the remainder of code, value and second value, low byte first. */
  lemma CRCIsRemainder(m: RequestMsg)
    ensures m.crc8 == m.ComputeCRC8() <==>
      exists q :: CrcRemainder.Divides(CrcRemainder.AllBits(Covered(m)), q, m.crc8)
  {
    CrcRemainder.CrcIsRemainder(Covered(m), m.crc8);
    hide Fold;
  }

  /** A request whose covered bytes were hit by one burst of at most eight bits is rejected. */
  lemma CorruptedIsRejected(m: RequestMsg, n: RequestMsg, i: nat, w: bv8, s: nat)
    requires m.crc8 == m.ComputeCRC8() && n.crc8 == m.crc8
    requires Burst(Sum(Covered(m), Covered(n)), i, w, s)
    ensures n.crc8 != n.ComputeCRC8()
  {
    hide Fold, Burst;
    BurstIsDetected(0, Covered(m), Covered(n), i, w, s);
  }
}
