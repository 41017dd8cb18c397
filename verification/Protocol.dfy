/** The protocol object: decoders that change their fields, encoders that write into a buffer. */
module Protocol {
  import opened Machine
  import opened Crc
  import opened Hex
  import opened Streams
  import R = Requests
  import A = Responses

  const MAX_REQUEST_SIZE: nat := 13
  const MAX_RESPONSE_SIZE: nat := 14

  // CRCs of messages

  lemma FoldOne(crc: bv8, b: bv8)
    ensures Fold(crc, [b]) == ByteStep(Plus(crc, b))
  {
    hide ByteStep, Plus;
    assert [b][1..] == [];
    assert Fold(ByteStep(Plus(crc, b)), []) == ByteStep(Plus(crc, b));
  }

  method RequestCRC8(m: R.RequestMsg) returns (crc: bv8)
    ensures crc == m.ComputeCRC8()
  {
    hide Fold, ByteStep, Plus, Low, High;
    crc := UpdateCX(0, m.code);
    FoldOne(0, m.code);
    crc := UpdateCX(crc, m.value);
    FoldOne(Fold(0, [m.code]), m.value);
    FoldConcat(0, [m.code], [m.value]);
    crc := UpdateW(crc, m.value2);
    FoldConcat(0, [m.code] + [m.value], [Low(m.value2), High(m.value2)]);
    assert [m.code] + [m.value] + [Low(m.value2), High(m.value2)]
        == [m.code, m.value, Low(m.value2), High(m.value2)];
  }

  method ResponseCRC8(m: A.ResponseMsg) returns (crc: bv8)
    ensures crc == m.ComputeCRC8()
  {
    hide Fold, ByteStep, Plus, Low, High;
    ghost var start := m.request.ComputeCRC8();
    crc := RequestCRC8(m.request);
    crc := UpdateCX(crc, m.paramCode);
    FoldOne(start, m.paramCode);
    crc := UpdateW(crc, m.paramValue);
    FoldConcat(start, [m.paramCode], [Low(m.paramValue), High(m.paramValue)]);
    assert [m.paramCode] + [Low(m.paramValue), High(m.paramValue)]
        == [m.paramCode, Low(m.paramValue), High(m.paramValue)];
  }

  method NewRequest(code: bv8, value: bv8, value2: bv16) returns (m: R.RequestMsg)
    ensures m == R.Request(code, value, value2)
  {
    hide Fold;
    m := R.RequestMsg(code, value, value2, 0);
    var crc := RequestCRC8(m);
    m := m.(crc8 := crc);
  }

  method NewResponse(request: R.RequestMsg, paramCode: bv8, paramValue: bv16) returns (m: A.ResponseMsg)
    ensures m == A.Response(request, paramCode, paramValue)
  {
    hide Fold;
    m := A.ResponseMsg(request, paramCode, paramValue);
    var crc := ResponseCRC8(m);
    m := m.(request := m.request.(crc8 := crc));
  }

  // Text in a buffer

  /** The buffer with `text` written from `at` on. */
  function Put(s: seq<bv8>, at: nat, text: seq<bv8>): (t: seq<bv8>)
    requires at + |text| <= |s|
    ensures |t| == |s|
    ensures t[at..at + |text|] == text
  {
    s[..at] + text + s[at + |text|..]
  }

  lemma PutPut(s: seq<bv8>, at: nat, a: seq<bv8>, b: seq<bv8>)
    requires at + |a| + |b| <= |s|
    ensures Put(Put(s, at, a), at + |a|, b) == Put(s, at, a + b)
  {
  }

  lemma PutOne(s: seq<bv8>, at: nat, c: bv8)
    requires at < |s|
    ensures s[at := c] == Put(s, at, [c])
  {
  }

  method Write(c: bv8, dst: array<bv8>, at: nat)
    requires at < dst.Length
    modifies dst
    ensures dst[..] == Put(old(dst[..]), at, [c])
  {
    PutOne(dst[..], at, c);
    dst[at] := c;
  }

  // Numbers

  method UInt8ToHex(value: bv8, dst: array<bv8>, at: nat) returns (charsOut: nat)
    requires at + |Hex8(value)| <= dst.Length
    modifies dst
    ensures charsOut == |Hex8(value)| && dst[..] == Put(old(dst[..]), at, Hex8(value))
  {
    ZeroIsOneDigit();
    hide Nibble2Char, Put, Hex16;
    if value == 0 {
      Write(0x30, dst, at);
      return 1;
    }
    var v := value >> 4;
    charsOut := 1;
    var next := at;
    if v != 0 {
      Write(Nibble2Char(v), dst, at);
      next := next + 1;
      charsOut := 2;
    }
    v := value & 0xf;
    Write(Nibble2Char(v), dst, next);
    if charsOut == 2 {
      PutPut(old(dst[..]), at, [Nibble2Char(value >> 4)], [Nibble2Char(v)]);
      assert [Nibble2Char(value >> 4)] + [Nibble2Char(v)] == Hex8(value);
    }
  }

  lemma ZeroIsOneDigit()
    ensures Hex8(0) == [0x30] && Hex16(0) == [0x30]
  {
    assert Length16(0) == 1 && Nibble(0, 0) == 0;
  }

  /** A word shifted up by k nibbles. */
  function Shifted(v: bv16, k: nat): bv16
    requires k <= 4
  {
    match k
    case 0 => v
    case 1 => v << 4
    case 2 => v << 8
    case 3 => v << 12
    case _ => 0
  }

  lemma ShiftOnce(v: bv16, k: nat)
    requires k < 4
    ensures Shifted(v, k) << 4 == Shifted(v, k + 1)
  {
    match k
    case 0 =>
    case 1 => assert (v << 4) << 4 == v << 8;
    case 2 => assert (v << 8) << 4 == v << 12;
    case 3 => assert (v << 12) << 4 == 0;
  }

  lemma TopNibble(v: bv16, k: nat)
    requires k < 4
    ensures ((Shifted(v, k) & 0xf000) >> 12) as bv8 == Nibble(v, 3 - k)
  {
    match k
    case 0 => assert (v & 0xf000) >> 12 == (v >> 12) & 0xf;
    case 1 => assert ((v << 4) & 0xf000) >> 12 == (v >> 8) & 0xf;
    case 2 => assert ((v << 8) & 0xf000) >> 12 == (v >> 4) & 0xf;
    case 3 => assert ((v << 12) & 0xf000) >> 12 == v & 0xf;
  }

  predicate StartsWithZero(v: bv16) { v & 0xf000 == 0 }

  /** Skipping a leading zero leaves a shorter number; the first other digit is found in time. */
  lemma LeadingZero(v: bv16, n: nat)
    requires 1 <= n <= 4 && v != 0 && Upper(v, n) == 0
    ensures if StartsWithZero(Shifted(v, 4 - n)) then n > 1 && Upper(v, n - 1) == 0 else Length16(v) == n
  {
    match n
    case 1 =>
    case 2 =>
    case 3 =>
    case 4 =>
  }

  /** The number has at most n digits, and `value` is the number without its leading zeros so far. */
  predicate Skipped(number: bv16, value: bv16, n: nat) {
    && 1 <= n <= 4 && value == Shifted(number, 4 - n) && Upper(number, n) == 0
    && if StartsWithZero(value) then n > 1 else Length16(number) == n
  }

  lemma SkipOne(number: bv16, value: bv16, n: nat)
    requires number != 0 && Skipped(number, value, n) && StartsWithZero(value)
    ensures n > 1 && Skipped(number, value << 4, n - 1)
  {
    hide Shifted, Upper, Length16, StartsWithZero;
    LeadingZero(number, n);
    ShiftOnce(number, 4 - n);
    LeadingZero(number, n - 1);
  }

  lemma SkipNone(number: bv16)
    requires number != 0
    ensures Skipped(number, number, 4)
  {
    NothingAbove(number);
    LeadingZero(number, 4);
    hide Shifted, Upper, Length16, StartsWithZero;
  }

  /** The first loop of UInt16ToHex: leading zeros are shifted out. */
  method SkipZeros(number: bv16) returns (value: bv16, charsOut: nat)
    requires number != 0
    ensures charsOut == Length16(number) && value == Shifted(number, 4 - charsOut)
  {
    value := number;
    charsOut := 4;
    SkipNone(number);
    while StartsWithZero(value)
      invariant Skipped(number, value, charsOut)
      decreases charsOut
    {
      SkipOne(number, value, charsOut);
      value := value << 4;
      charsOut := charsOut - 1;
    }
    hide Shifted, Upper, Length16, StartsWithZero;
  }

  lemma NothingAbove(v: bv16)
    ensures Upper(v, 4) == 0 && Shifted(v, 0) == v
  {
  }

  function Digit(v: bv16, i: nat): (c: bv8)
    requires i < Length16(v)
    ensures c == Hex16(v)[i]
  {
    Nibble2Char(Nibble(v, Length16(v) - 1 - i))
  }

  lemma PutDigit(s: seq<bv8>, at: nat, text: seq<bv8>, i: nat)
    requires i < |text| && at + |text| <= |s|
    ensures Put(Put(s, at, text[..i]), at + i, [text[i]]) == Put(s, at, text[..i + 1])
  {
    PutPut(s, at, text[..i], [text[i]]);
    assert text[..i + 1] == text[..i] + [text[i]];
  }

  method UInt16ToHex(number: bv16, dst: array<bv8>, at: nat) returns (charsOut: nat)
    requires at + |Hex16(number)| <= dst.Length
    modifies dst
    ensures charsOut == |Hex16(number)| && dst[..] == Put(old(dst[..]), at, Hex16(number))
  {
    ZeroIsOneDigit();
    hide Hex16, Nibble, Shifted, Length16, Put;
    var value := number;
    if value == 0 {
      Write(0x30, dst, at);
      return 1;
    }
    value, charsOut := SkipZeros(number);
    ghost var before := dst[..];
    PutNothing(before, at);
    for i := 0 to charsOut
      invariant value == Shifted(number, 4 - charsOut + i)
      invariant dst[..] == Put(before, at, Hex16(number)[..i])
    {
      TopNibble(number, 4 - charsOut + i);
      ShiftOnce(number, 4 - charsOut + i);
      var n := ((value & 0xf000) >> 12) as bv8;
      value := value << 4;
      assert Nibble2Char(n) == Digit(number, i);
      Write(Nibble2Char(n), dst, at + i);
      PutDigit(before, at, Hex16(number), i);
    }
    assert Hex16(number)[..charsOut] == Hex16(number);
  }

  lemma PutNothing(s: seq<bv8>, at: nat)
    requires at <= |s|
    ensures Put(s, at, []) == s
  {
  }

  // Encoders

  method BeginEncodeRequest(msg: R.RequestMsg, dst: array<bv8>) returns (n: nat)
    requires |R.BeginEncode(msg)| <= dst.Length
    modifies dst
    ensures n == |R.BeginEncode(msg)| && dst[..] == Put(old(dst[..]), 0, R.BeginEncode(msg))
  {
    hide Hex8, Put;
    ghost var before := dst[..];
    Write(msg.code, dst, 0);
    var i := UInt8ToHex(msg.value, dst, 1);
    PutPut(before, 0, [msg.code], Hex8(msg.value));
    i := 1 + i;
    Write(R.SPACE, dst, i);
    PutPut(before, 0, [msg.code] + Hex8(msg.value), [R.SPACE]);
    n := i + 1;
  }

  method AppendCRC(crc: bv8, dst: array<bv8>, at: nat) returns (n: nat)
    requires at + |R.AppendCRC(crc)| <= dst.Length
    modifies dst
    ensures n == |R.AppendCRC(crc)| && dst[..] == Put(old(dst[..]), at, R.AppendCRC(crc))
  {
    hide Hex8, Put;
    ghost var before := dst[..];
    Write(R.SEPARATOR, dst, at);
    var i := UInt8ToHex(crc, dst, at + 1);
    PutPut(before, at, [R.SEPARATOR], Hex8(crc));
    n := 1 + i;
  }

  /** The common end of all encoders: the CRC and the line end. */
  method Finish(crc: bv8, dst: array<bv8>, at: nat) returns (n: nat)
    requires at + |R.AppendCRC(crc)| + 1 <= dst.Length
    modifies dst
    ensures n == at + |R.AppendCRC(crc)| + 1
    ensures dst[..] == Put(old(dst[..]), at, R.AppendCRC(crc) + [R.NEW_LINE])
  {
    hide Put, R.AppendCRC;
    ghost var before := dst[..];
    n := AppendCRC(crc, dst, at);
    n := at + n;
    Write(R.NEW_LINE, dst, n);
    PutPut(before, at, R.AppendCRC(crc), [R.NEW_LINE]);
    n := n + 1;
  }

  method EncodeRequest(msg: R.RequestMsg, txbuff: array<bv8>) returns (n: nat)
    requires |R.EncodeRequest(msg)| <= txbuff.Length
    modifies txbuff
    ensures n == |R.EncodeRequest(msg)| <= MAX_REQUEST_SIZE
    ensures txbuff[..] == Put(old(txbuff[..]), 0, R.EncodeRequest(msg))
  {
    hide Hex8, Put;
    ghost var before := txbuff[..];
    Write(msg.code, txbuff, 0);
    var i := UInt8ToHex(msg.value, txbuff, 1);
    i := 1 + i;
    PutPut(before, 0, [msg.code], Hex8(msg.value));
    ghost var tail := R.AppendCRC(msg.crc8) + [R.NEW_LINE];
    n := Finish(msg.crc8, txbuff, i);
    PutPut(before, 0, [msg.code] + Hex8(msg.value), tail);
    assert [msg.code] + Hex8(msg.value) + tail == R.EncodeRequest(msg);
  }

  method EncodeWriteRequest(address: bv8, value: bv16, txbuff: array<bv8>) returns (n: nat)
    requires |R.EncodeWriteRequest(address, value)| <= txbuff.Length
    modifies txbuff
    ensures n == |R.EncodeWriteRequest(address, value)| <= MAX_REQUEST_SIZE
    ensures txbuff[..] == Put(old(txbuff[..]), 0, R.EncodeWriteRequest(address, value))
  {
    hide Hex8, Hex16, Put, Fold;
    ghost var before := txbuff[..];
    var msg := NewRequest(R.WRITE, address, value);
    var i := BeginEncodeRequest(msg, txbuff);
    ghost var a := R.BeginEncode(msg);
    var w := UInt16ToHex(value, txbuff, i);
    i := i + w;
    PutPut(before, 0, a, Hex16(value));
    ghost var tail := R.AppendCRC(msg.crc8) + [R.NEW_LINE];
    n := Finish(msg.crc8, txbuff, i);
    PutPut(before, 0, a + Hex16(value), tail);
    assert a + Hex16(value) + tail == R.EncodeWriteRequest(address, value);
  }

  /** The common form of the reply encoders. */
  method WriteResponse(request: R.RequestMsg, paramCode: bv8, word: Option<bv16>, crc: bv8, txbuff: array<bv8>)
    returns (n: nat)
    requires |A.ResponseText(request, paramCode, word, crc)| <= txbuff.Length
    modifies txbuff
    ensures n == |A.ResponseText(request, paramCode, word, crc)| <= MAX_RESPONSE_SIZE
    ensures txbuff[..] == Put(old(txbuff[..]), 0, A.ResponseText(request, paramCode, word, crc))
  {
    hide Hex8, Hex16, Put, R.BeginEncode, R.AppendCRC;
    ghost var before := txbuff[..];
    ghost var a := R.BeginEncode(request);
    ghost var b := a + [paramCode];
    ghost var digits := A.Digits(word);
    ghost var tail := R.AppendCRC(crc) + [R.NEW_LINE];
    assert b + digits + tail == A.ResponseText(request, paramCode, word, crc);
    var i := BeginEncodeRequest(request, txbuff);
    Write(paramCode, txbuff, i);
    i := i + 1;
    PutPut(before, 0, a, [paramCode]);
    if word.Some? {
      var w := UInt16ToHex(word.value, txbuff, i);
      i := i + w;
      PutPut(before, 0, b, digits);
    } else {
      assert b + digits == b;
    }
    n := Finish(crc, txbuff, i);
    PutPut(before, 0, b + digits, tail);
    assert |R.BeginEncode(request)| <= 4 && |R.AppendCRC(crc)| <= 3 by { PartsAreShort(request, crc); }
  }

  lemma PartsAreShort(request: R.RequestMsg, crc: bv8)
    ensures |R.BeginEncode(request)| <= 4 && |R.AppendCRC(crc)| <= 3
  {
    hide Hex8;
  }

  method EncodeResponseCmdAR(msg: R.RequestMsg, ar: bv8, txbuff: array<bv8>) returns (n: nat)
    requires |A.CmdAR(msg, ar).Text()| <= txbuff.Length
    modifies txbuff
    ensures n == |A.CmdAR(msg, ar).Text()| <= MAX_RESPONSE_SIZE
    ensures txbuff[..] == Put(old(txbuff[..]), 0, A.CmdAR(msg, ar).Text())
  {
    hide A.ResponseText, Put, Fold;
    var request := NewRequest(msg.code, msg.value, 0);
    var rsp := NewResponse(request, ar, 0);
    n := WriteResponse(rsp.request, ar, None, rsp.request.crc8, txbuff);
  }

  method EncodeResponseQueryOperation(msg: R.RequestMsg, code: bv8, value: bv16, txbuff: array<bv8>) returns (n: nat)
    requires |A.QueryOperation(msg, code, value).Text()| <= txbuff.Length
    modifies txbuff
    ensures n == |A.QueryOperation(msg, code, value).Text()| <= MAX_RESPONSE_SIZE
    ensures txbuff[..] == Put(old(txbuff[..]), 0, A.QueryOperation(msg, code, value).Text())
  {
    hide A.ResponseText, Put, Fold;
    var rsp := NewResponse(msg, code, value);
    n := WriteResponse(msg, rsp.paramCode, Some(rsp.paramValue), rsp.request.crc8, txbuff);
  }

  method EncodeResponseRead(msg: R.RequestMsg, accepted: bool, value2: bv16, txbuff: array<bv8>) returns (n: nat)
    requires |A.Read(msg, accepted, value2).Text()| <= txbuff.Length
    modifies txbuff
    ensures n == |A.Read(msg, accepted, value2).Text()| <= MAX_RESPONSE_SIZE
    ensures txbuff[..] == Put(old(txbuff[..]), 0, A.Read(msg, accepted, value2).Text())
  {
    hide A.ResponseText, Put, Fold;
    var rsp := NewResponse(msg, if accepted then A.ACCEPTED else A.REJECTED, if accepted then value2 else 0);
    n := WriteResponse(msg, rsp.paramCode, if accepted then Some(value2) else None, rsp.request.crc8, txbuff);
  }

  method EncodeResponseReadFINDA(msg: R.RequestMsg, finda: bv8, txbuff: array<bv8>) returns (n: nat)
    requires |A.ReadFINDA(msg, finda).Text()| <= txbuff.Length
    modifies txbuff
    ensures n == |A.ReadFINDA(msg, finda).Text()| <= MAX_RESPONSE_SIZE
    ensures txbuff[..] == Put(old(txbuff[..]), 0, A.ReadFINDA(msg, finda).Text())
  {
    hide A.ResponseText, Put, Fold;
    n := EncodeResponseRead(msg, true, finda as bv16, txbuff);
  }

  // Decoders

  method ShiftIn8(v: bv8, c: bv8) returns (r: bv8)
    ensures r == Digit8(v, c)
  {
    hide Char2Nibble;
    r := v << 4;
    r := r | Char2Nibble(c);
  }

  method ShiftIn16(v: bv16, c: bv8) returns (r: bv16)
    ensures r == Digit16(v, c)
  {
    hide Char2Nibble;
    r := v << 4;
    r := r | (Char2Nibble(c) as bv16);
  }

  method AddIn8(v: bv8, c: bv8) returns (r: bv8)
    ensures r == A.Add8(v, c)
  {
    hide Char2Nibble;
    r := v << 4;
    r := r + Char2Nibble(c);
  }

  method AddIn16(v: bv16, c: bv8) returns (r: bv16)
    ensures r == A.Add16(v, c)
  {
    hide Char2Nibble;
    r := v << 4;
    r := r + (Char2Nibble(c) as bv16);
  }

  class Protocol {
    var rqState: R.State
    var requestMsg: R.RequestMsg
    var rspState: A.State
    var responseMsg: A.ResponseMsg

    constructor ()
      ensures RequestDecoder() == Decoder(R.Code, R.Request(R.UNKNOWN, 0, 0))
      ensures ResponseDecoder()
              == Decoder(A.RequestCode, A.Response(R.Request(R.UNKNOWN, 0, 0), R.UNKNOWN, 0))
    {
      hide Fold;
      rqState := R.Code;
      rspState := A.RequestCode;
      new;
      requestMsg := NewRequest(R.UNKNOWN, 0, 0);
      responseMsg := NewResponse(requestMsg, R.UNKNOWN, 0);
    }

    function RequestDecoder(): R.RequestDecoder
      reads this
    {
      Decoder(rqState, requestMsg)
    }

    function ResponseDecoder(): A.ResponseDecoder
      reads this
    {
      Decoder(rspState, responseMsg)
    }

    method RefuseRequest() returns (status: Status)
      modifies `rqState, `requestMsg
      ensures (RequestDecoder(), status) == R.Broken(old(requestMsg))
    {
      requestMsg := requestMsg.(code := R.UNKNOWN);
      rqState := R.Error;
      status := DecodeError;
    }

    /** The request decoder takes one step; the response decoder is left alone. */
    method DecodeRequest(c: bv8) returns (status: Status)
      modifies `rqState, `requestMsg
      ensures (RequestDecoder(), status) == R.Decode(old(RequestDecoder()), c)
    {
      hide Fold, Digit8, Digit16, IsHexDigit, R.IsCode, R.IsNewLine, R.RequestMsg.ComputeCRC8;
      status := NeedMoreData;
      match rqState {
        case Code =>
          if R.IsCode(c) {
            requestMsg := R.RequestMsg(c, 0, 0, 0);
            rqState := if c == R.WRITE then R.Address else R.Value;
          } else {
            status := RefuseRequest();
          }
        case Value =>
          if IsHexDigit(c) {
            var v := ShiftIn8(requestMsg.value, c);
            requestMsg := requestMsg.(value := v);
          } else if c == R.SEPARATOR {
            rqState := R.CRC;
          } else {
            status := RefuseRequest();
          }
        case Address =>
          if IsHexDigit(c) {
            var v := ShiftIn8(requestMsg.value, c);
            requestMsg := requestMsg.(value := v);
          } else if c == R.SPACE {
            rqState := R.WriteValue;
          } else {
            status := RefuseRequest();
          }
        case WriteValue =>
          if IsHexDigit(c) {
            var v := ShiftIn16(requestMsg.value2, c);
            requestMsg := requestMsg.(value2 := v);
          } else if c == R.SEPARATOR {
            rqState := R.CRC;
          } else {
            status := RefuseRequest();
          }
        case CRC =>
          if IsHexDigit(c) {
            var v := ShiftIn8(requestMsg.crc8, c);
            requestMsg := requestMsg.(crc8 := v);
          } else if R.IsNewLine(c) {
            var crc := RequestCRC8(requestMsg);
            if requestMsg.crc8 != crc {
              status := RefuseRequest();
            } else {
              rqState := R.Code;
              status := MessageCompleted;
            }
          } else {
            status := RefuseRequest();
          }
        case Error =>
          if R.IsNewLine(c) {
            rqState := R.Code;
            status := MessageCompleted;
          } else {
            status := RefuseRequest();
          }
      }
    }

    method RefuseResponse() returns (status: Status)
      modifies `rspState, `responseMsg
      ensures (ResponseDecoder(), status) == A.Broken(old(responseMsg))
    {
      responseMsg := responseMsg.(paramCode := R.UNKNOWN);
      rspState := A.Error;
      status := DecodeError;
    }

    /** The response decoder takes one step; the request decoder is left alone. */
    method DecodeResponse(c: bv8) returns (status: Status)
      modifies `rspState, `responseMsg
      ensures (ResponseDecoder(), status) == A.Decode(old(ResponseDecoder()), c)
    {
      hide Fold, A.Add8, A.Add16, IsHexDigit, R.IsCode, A.IsParam, R.IsNewLine, A.ResponseMsg.ComputeCRC8;
      status := NeedMoreData;
      var m := responseMsg;
      match rspState {
        case RequestCode =>
          if R.IsCode(c) {
            responseMsg := m.(request := R.RequestMsg(c, 0, 0, 0));
            rspState := A.RequestValue;
          } else if !R.IsNewLine(c) {
            rspState := A.Error;
            status := DecodeError;
          }
        case RequestValue =>
          if IsHexDigit(c) {
            var v := AddIn8(m.request.value, c);
            responseMsg := m.(request := m.request.(value := v));
          } else if c == R.SPACE {
            rspState := A.ParamCode;
          } else {
            rspState := A.Error;
            status := DecodeError;
          }
        case ParamCode =>
          if A.IsParam(c) {
            rspState := A.ParamValue;
            responseMsg := m.(paramCode := c, paramValue := 0);
          } else {
            status := RefuseResponse();
          }
        case ParamValue =>
          if IsHexDigit(c) {
            var v := AddIn16(m.paramValue, c);
            responseMsg := m.(paramValue := v);
          } else if c == R.SEPARATOR {
            rspState := A.CRC;
          } else {
            status := RefuseResponse();
          }
        case CRC =>
          if IsHexDigit(c) {
            var v := AddIn8(m.request.crc8, c);
            responseMsg := m.(request := m.request.(crc8 := v));
          } else if R.IsNewLine(c) {
            var crc := ResponseCRC8(m);
            if m.request.crc8 != crc {
              status := RefuseResponse();
            } else {
              rspState := A.RequestCode;
              status := MessageCompleted;
            }
          } else {
            status := RefuseResponse();
          }
        case Error =>
          if R.IsNewLine(c) {
            rspState := A.RequestCode;
            status := MessageCompleted;
          } else {
            responseMsg := m.(paramCode := R.UNKNOWN);
            status := DecodeError;
          }
      }
    }

    /** A reset forgets the state, not the message. */
    method ResetRequestDecoder()
      modifies `rqState
      ensures RequestDecoder() == old(RequestDecoder()).(state := R.Code)
    {
      rqState := R.Code;
    }

    method ResetResponseDecoder()
      modifies `rspState
      ensures ResponseDecoder() == old(ResponseDecoder()).(state := A.RequestCode)
    {
      rspState := A.RequestCode;
    }
  }
}
