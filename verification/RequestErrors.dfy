/** What one wrong byte on the wire makes of a request. */
module RequestErrors {
  import opened Machine
  import opened Crc
  import opened Hex
  import opened Streams
  import opened Requests

  // Numbers with one wrong digit

  /** The digit that has j digits behind it. */
  function Digit(s: seq<bv8>, j: nat): (n: bv8)
    ensures n < 16
  {
    if j < |s| then Char2Nibble(s[|s| - 1 - j]) else 0
  }

  function Pair(x: bv8, y: bv8): bv8 { (x << 4) | y }

  lemma PairShifts(x: bv8, y: bv8, n: bv8)
    requires x < 16 && y < 16
    ensures (Pair(x, y) << 4) | n == Pair(y, n) && Pair(x, y) >> 4 == x
  {
  }

  lemma PairsDiffer(x: bv8, y: bv8, x': bv8, y': bv8)
    requires x < 16 && y < 16 && x' < 16 && y' < 16 && Pair(x, y) == Pair(x', y')
    ensures x == x' && y == y'
  {
    PairShifts(x, y, 0);
    PairShifts(x', y', 0);
    assert Pair(x, y) & 0xf == y && Pair(x', y') & 0xf == y';
  }

  lemma DigitLast(s: seq<bv8>, c: bv8, j: nat)
    ensures Digit(s + [c], 0) == Char2Nibble(c) && Digit(s + [c], j + 1) == Digit(s, j)
  {
    hide Char2Nibble;
  }

  /** Only the last two digits of an 8-bit number count. */
  lemma {:induction false} Read8Is(s: seq<bv8>)
    ensures Read8(0, s) == Pair(Digit(s, 1), Digit(s, 0))
    decreases |s|
  {
    if s != [] {
      var n := |s| - 1;
      assert s == s[..n] + [s[n]];
      Read8Is(s[..n]);
      Read8Last(0, s[..n], s[n]);
      DigitLast(s[..n], s[n], 0);
      PairShifts(Digit(s[..n], 1), Digit(s[..n], 0), Char2Nibble(s[n]));
      hide Read8, Digit, Pair, Char2Nibble;
    }
  }

  lemma WordShifts(v: bv16, c: bv8)
    ensures Low(Digit16(v, c)) == (Low(v) << 4) | Char2Nibble(c)
    ensures High(Digit16(v, c)) == (High(v) << 4) | (Low(v) >> 4)
  {
    var n := Char2Nibble(c);
    assert n < 16;
    hide Char2Nibble;
  }

  /** The last two digits of a word are its low byte, the two before them the high one. */
  lemma {:induction false} Read16Is(s: seq<bv8>)
    ensures Low(Read16(0, s)) == Pair(Digit(s, 1), Digit(s, 0))
    ensures High(Read16(0, s)) == Pair(Digit(s, 3), Digit(s, 2))
    decreases |s|
  {
    if s != [] {
      var n := |s| - 1;
      var (h, l) := (s[..n], s[n]);
      assert s == h + [l];
      Read16Is(h);
      Read16Last(0, h, l);
      WordShifts(Read16(0, h), l);
      DigitLast(h, l, 0);
      DigitLast(h, l, 1);
      DigitLast(h, l, 2);
      PairShifts(Digit(h, 1), Digit(h, 0), Char2Nibble(l));
      PairShifts(Digit(h, 3), Digit(h, 2), Digit(h, 1));
      hide Read16, Digit, Pair, Char2Nibble, Low, High, Digit16;
    }
  }

  /** One digit replaced by another one. */
  predicate WrongDigit(s: seq<bv8>, i: nat, c: bv8) {
    i < |s| && AllHex(s) && IsHexDigit(c) && c != s[i]
  }

  lemma NibblesDiffer(a: bv8, b: bv8)
    requires IsHexDigit(a) && IsHexDigit(b) && a != b
    ensures Char2Nibble(a) != Char2Nibble(b)
  {
  }

  lemma DigitsOf(s: seq<bv8>, i: nat, c: bv8, j: nat)
    requires WrongDigit(s, i, c)
    ensures Digit(s[i := c], j) == Digit(s, j) <==> j != |s| - 1 - i
  {
    NibblesDiffer(s[i], c);
    hide Char2Nibble, IsHexDigit;
  }

  lemma Read8Differs(s: seq<bv8>, i: nat, c: bv8)
    requires WrongDigit(s, i, c) && |s| <= 2
    ensures Read8(0, s[i := c]) != Read8(0, s)
  {
    var t := s[i := c];
    Read8Is(s);
    Read8Is(t);
    DigitsOf(s, i, c, |s| - 1 - i);
    hide Digit, Pair, Read8, IsHexDigit;
    if Read8(0, t) == Read8(0, s) {
      PairsDiffer(Digit(s, 1), Digit(s, 0), Digit(t, 1), Digit(t, 0));
    }
  }

  /** A wrong digit of a word changes one of its bytes. */
  lemma Read16Differs(s: seq<bv8>, i: nat, c: bv8)
    requires WrongDigit(s, i, c) && |s| <= 4
    ensures var (v, w) := (Read16(0, s), Read16(0, s[i := c]));
      || (Low(v) != Low(w) && High(v) == High(w))
      || (Low(v) == Low(w) && High(v) != High(w))
  {
    var t := s[i := c];
    Read16Is(s);
    Read16Is(t);
    DigitsOf(s, i, c, 0);
    DigitsOf(s, i, c, 1);
    DigitsOf(s, i, c, 2);
    DigitsOf(s, i, c, 3);
    hide Digit, Pair, Read16, IsHexDigit, Low, High;
    if |s| - 1 - i < 2 {
      if Pair(Digit(s, 1), Digit(s, 0)) == Pair(Digit(t, 1), Digit(t, 0)) {
        PairsDiffer(Digit(s, 1), Digit(s, 0), Digit(t, 1), Digit(t, 0));
      }
    } else if Pair(Digit(s, 3), Digit(s, 2)) == Pair(Digit(t, 3), Digit(t, 2)) {
      PairsDiffer(Digit(s, 3), Digit(s, 2), Digit(t, 3), Digit(t, 2));
    }
  }

  // Texts with one wrong byte

  /** s with the byte i replaced by another one. */
  predicate WrongByte(s: seq<bv8>, i: nat, c: bv8, t: seq<bv8>) {
    i < |s| && c != s[i] && t == s[i := c]
  }

  lemma MarkPlace(a: seq<bv8>, b: seq<bv8>, mark: bv8, k: nat)
    requires mark !in a && mark !in b && k < |a + [mark] + b|
    ensures (a + [mark] + b)[k] == mark <==> k == |a|
  {
    var s := a + [mark] + b;
    assert s[k] == if k < |a| then a[k] else if k == |a| then mark else b[k - |a| - 1];
  }

  /** A mark that occurs once stays where it is, and the wrong byte is on one side of it. */
  lemma MarkStays(a: seq<bv8>, b: seq<bv8>, a': seq<bv8>, b': seq<bv8>, mark: bv8, i: nat, c: bv8)
    requires mark !in a && mark !in b && mark !in a' && mark !in b'
    requires WrongByte(a + [mark] + b, i, c, a' + [mark] + b')
    ensures i != |a|
    ensures i < |a| ==> WrongByte(a, i, c, a') && b' == b
    ensures i > |a| ==> a' == a && WrongByte(b, i - |a| - 1, c, b')
  {
    var s, t := a + [mark] + b, a' + [mark] + b';
    MarkPlace(a, b, mark, |a|);
    MarkPlace(a, b, mark, |a'|);
    MarkPlace(a', b', mark, |a|);
    MarkPlace(a', b', mark, |a'|);
    assert |a| == |a'|;
    assert a' == t[..|a|] && b' == t[|a| + 1..] && a == s[..|a|] && b == s[|a| + 1..];
  }

  lemma NoCodeIsAMark()
    ensures !IsCode(SPACE) && !IsCode(SEPARATOR) && !IsCode(NEW_LINE) && !IsCode(RETURN)
  {
  }

  lemma HeadHasNoSeparator(f: Frame)
    requires f.Valid()
    ensures SEPARATOR !in f.Head() && SEPARATOR !in f.crc + [f.end]
    ensures f.Text() == f.Head() + [SEPARATOR] + (f.crc + [f.end])
  {
    SeparatorsAreNoDigits();
    NoCodeIsAMark();
    hide IsHexDigit, IsCode;
  }

  lemma HeadSpaces(f: Frame)
    requires f.Valid()
    ensures SPACE !in [f.code] + f.digits
    ensures f.word.Some? ==> SPACE !in f.word.value && f.Head() == [f.code] + f.digits + [SPACE] + f.word.value
    ensures f.word.None? ==> f.Head() == [f.code] + f.digits
  {
    SeparatorsAreNoDigits();
    NoCodeIsAMark();
    hide IsHexDigit, IsCode;
  }

  lemma HeadPlaces(f: Frame, k: nat)
    requires f.Valid() && k < |f.Head()|
    ensures f.Head()[k] == SPACE <==> f.word.Some? && k == 1 + |f.digits|
    ensures f.Head()[0] == f.code
  {
    HeadSpaces(f);
    hide IsHexDigit, IsCode;
    if f.word.Some? {
      MarkPlace([f.code] + f.digits, f.word.value, SPACE, k);
    }
  }

  /** A frame is not made into another kind of frame by one byte. */
  lemma SameKind(e: Frame, f: Frame, i: nat, c: bv8)
    requires e.Valid() && f.Valid() && WrongByte(e.Head(), i, c, f.Head())
    ensures e.word.Some? <==> f.word.Some?
  {
    HeadSpaces(e);
    HeadSpaces(f);
    var k := if e.word.Some? then 1 + |e.digits| else if f.word.Some? then 1 + |f.digits| else 0;
    HeadPlaces(e, k);
    HeadPlaces(f, k);
    HeadPlaces(e, i);
    HeadPlaces(f, i);
    hide IsHexDigit, IsCode, Frame.Head;
  }

  /** The messages differ in byte k of those that the CRC covers. */
  predicate DifferAt(m: RequestMsg, n: RequestMsg, k: nat) {
    k < 4 && Covered(n)[k] != Covered(m)[k] && Covered(n) == Covered(m)[k := Covered(n)[k]]
  }

  predicate Differ(m: RequestMsg, n: RequestMsg) {
    n.crc8 == m.crc8 && exists k | 0 <= k < 4 :: DifferAt(m, n, k)
  }

  lemma DifferenceShows(m: RequestMsg, n: RequestMsg)
    requires m.crc8 == m.ComputeCRC8() && Differ(m, n)
    ensures n.crc8 != n.ComputeCRC8()
  {
    var k :| 0 <= k < 4 && DifferAt(m, n, k);
    ByteChangeIsDetected(0, Covered(m), k, Covered(n)[k]);
    hide Fold, Low, High;
    assert m.ComputeCRC8() == Fold(0, Covered(m)) && n.ComputeCRC8() == Fold(0, Covered(n));
  }

  lemma OneFieldDiffers(m: RequestMsg, n: RequestMsg)
    requires || (n == m.(code := n.code) && n.code != m.code)
             || (n == m.(value := n.value) && n.value != m.value)
             || (n == m.(value2 := n.value2) && Low(n.value2) != Low(m.value2) && High(n.value2) == High(m.value2))
             || (n == m.(value2 := n.value2) && Low(n.value2) == Low(m.value2) && High(n.value2) != High(m.value2))
    ensures Differ(m, n)
  {
    hide Low, High;
    var k := if n.code != m.code then 0 else if n.value != m.value then 1
             else if Low(n.value2) != Low(m.value2) then 2 else 3;
    assert DifferAt(m, n, k);
  }

  /** The frames agree up to the code and the first number. */
  lemma WrongStart(e: Frame, f: Frame, i: nat, c: bv8)
    requires e.Valid() && f.Valid() && |e.digits| <= 2
    requires WrongByte([e.code] + e.digits, i, c, [f.code] + f.digits)
    requires f.word == e.word && f.crc == e.crc
    ensures Differ(e.Meaning(), f.Meaning())
  {
    StartSplits(e.code, e.digits, f.code, f.digits, i, c);
    if i > 0 {
      assert f.digits[i - 1] == c;
      Read8Differs(e.digits, i - 1, c);
    }
    hide Read8, Read16, IsHexDigit, IsCode, Low, High, Differ;
    OneFieldDiffers(e.Meaning(), f.Meaning());
  }

  lemma StartSplits(a: bv8, s: seq<bv8>, b: bv8, t: seq<bv8>, i: nat, c: bv8)
    requires WrongByte([a] + s, i, c, [b] + t)
    ensures if i == 0 then b == c && b != a && t == s else b == a && WrongByte(s, i - 1, c, t)
  {
    assert ([b] + t)[1..] == t && ([a] + s)[1..] == s && ([b] + t)[0] == b;
  }

  /** The frames agree up to the second number. */
  lemma WrongWord(e: Frame, f: Frame, i: nat, c: bv8)
    requires e.Valid() && f.Valid() && e.word.Some? && f.word.Some? && |e.word.value| <= 4
    requires WrongByte(e.word.value, i, c, f.word.value)
    requires f == e.(word := f.word, end := f.end)
    ensures Differ(e.Meaning(), f.Meaning())
  {
    assert f.word.value[i] == c;
    Read16Differs(e.word.value, i, c);
    hide Read8, Read16, IsHexDigit, IsCode, Low, High, Differ;
    OneFieldDiffers(e.Meaning(), f.Meaning());
  }

  lemma WrongHead(e: Frame, f: Frame, i: nat, c: bv8)
    requires e.Valid() && f.Valid() && |e.digits| <= 2 && (e.word.Some? ==> |e.word.value| <= 4)
    requires WrongByte(e.Head(), i, c, f.Head()) && f.crc == e.crc
    ensures Differ(e.Meaning(), f.Meaning())
  {
    SameKind(e, f, i, c);
    HeadSpaces(e);
    HeadSpaces(f);
    hide Frame.Meaning, Frame.Valid, Differ, Frame.Head, WrongByte;
    if e.word.None? {
      WrongStart(e, f, i, c);
    } else {
      MarkStays([e.code] + e.digits, e.word.value, [f.code] + f.digits, f.word.value, SPACE, i, c);
      if i < 1 + |e.digits| {
        WrongStart(e, f, i, c);
      } else {
        SameStart(e, f);
        WrongWord(e, f, i - |e.digits| - 2, c);
      }
    }
  }

  lemma SameStart(e: Frame, f: Frame)
    requires [f.code] + f.digits == [e.code] + e.digits
    ensures f.code == e.code && f.digits == e.digits
  {
    assert ([f.code] + f.digits)[1..] == f.digits && ([e.code] + e.digits)[1..] == e.digits;
    assert ([f.code] + f.digits)[0] == f.code && ([e.code] + e.digits)[0] == e.code;
  }

  lemma SameHead(e: Frame, f: Frame)
    requires e.Valid() && f.Valid() && f.Head() == e.Head()
    ensures f.code == e.code && f.digits == e.digits && f.word == e.word
  {
    HeadSpaces(e);
    HeadSpaces(f);
    assert f.Head()[0] == f.code && e.Head()[0] == e.code;
    hide IsHexDigit, IsCode, Frame.Head;
    if e.word.Some? {
      SameSplit([e.code] + e.digits, e.word.value, [f.code] + f.digits, f.word.value, SPACE);
    }
    SameStart(e, f);
  }

  lemma SameSplit(a: seq<bv8>, b: seq<bv8>, a': seq<bv8>, b': seq<bv8>, mark: bv8)
    requires mark !in a && mark !in b && mark !in a' && mark !in b'
    requires a + [mark] + b == a' + [mark] + b'
    ensures a == a' && b == b'
  {
    var s, t := a + [mark] + b, a' + [mark] + b';
    MarkPlace(a, b, mark, |a'|);
    assert a' == t[..|a|] && b' == t[|a| + 1..] && a == s[..|a|] && b == s[|a| + 1..];
  }

  /** The frames agree up to the CRC. */
  lemma WrongCRC(e: Frame, f: Frame, i: nat, c: bv8)
    requires e.Valid() && f.Valid() && e.Genuine() && |e.crc| <= 2
    requires f == e.(crc := f.crc, end := f.end) && WrongByte(e.crc, i, c, f.crc)
    ensures !f.Genuine()
  {
    assert f.crc[i] == c && IsHexDigit(c);
    Read8Differs(e.crc, i, c);
    hide Read8, Read16, IsHexDigit, IsCode, Fold;
  }

  /** No frame with a matching CRC is made of a short one by one wrong byte before its end. */
  lemma OneByteOff(e: Frame, f: Frame, i: nat, c: bv8)
    requires e.Valid() && f.Valid() && e.Genuine() && i < |e.Text()| - 1
    requires |e.digits| <= 2 && (e.word.Some? ==> |e.word.value| <= 4) && |e.crc| <= 2
    requires WrongByte(e.Text(), i, c, f.Text())
    ensures !f.Genuine()
  {
    HeadHasNoSeparator(e);
    HeadHasNoSeparator(f);
    hide Frame.Meaning, Frame.Head, Frame.Text, IsCode, IsHexDigit, AllHex, IsNewLine, RequestMsg.ComputeCRC8;
    MarkStays(e.Head(), e.crc + [e.end], f.Head(), f.crc + [f.end], SEPARATOR, i, c);
    assert (e.crc + [e.end])[..|e.crc|] == e.crc && (f.crc + [f.end])[..|f.crc|] == f.crc;
    if i < |e.Head()| {
      assert |f.crc + [f.end]| == |e.crc + [e.end]|;
      WrongHead(e, f, i, c);
      DifferenceShows(e.Meaning(), f.Meaning());
    } else {
      SameHead(e, f);
      WrongCRC(e, f, i - |e.Head()| - 1, c);
    }
  }

  // Lines

  predicate NoNewLine(s: seq<bv8>) { forall c | c in s :: !IsNewLine(c) }

  /** The decoder has given up on the line so far, or it has read p, which is all of it. */
  predicate Reads(d: RequestDecoder, p: Partial, line: seq<bv8>) {
    match d.state
    case Code => false
    case Error => d.msg.code == UNKNOWN
    case _ => p.Fits(d.state) && d.msg == p.Meaning() && p.Text() == line
  }

  lemma ReadsFirst(d: RequestDecoder, p: Partial, c: bv8)
    requires d.state == Code && !IsNewLine(c)
    ensures Reads(Decode(d, c).0, Longer(d, p, c), [c]) && Decode(d, c).1 != MessageCompleted
  {
    hide IsCode, Fold;
    assert Partial(c, [], None, None).Text() == [c];
  }

  lemma ReadsNext(d: RequestDecoder, p: Partial, line: seq<bv8>, c: bv8)
    requires Reads(d, p, line) && !IsNewLine(c)
    ensures Reads(Decode(d, c).0, Longer(d, p, c), line + [c]) && Decode(d, c).1 != MessageCompleted
  {
    NoneCompleted(d, c);
    if d.state != Error && Decode(d, c).1 == NeedMoreData {
      LongerText(d, p, c);
      LongerMeaning(d, p, c);
      hide Decode, Partial.Text, Partial.Meaning, Partial.Fits, Longer;
      DecodeStays(d, c);
    } else {
      hide Partial.Text, Partial.Meaning, Partial.Fits, Longer, IsHexDigit, IsCode, IsNewLine, Fold;
    }
  }

  lemma NoneCompleted(d: RequestDecoder, c: bv8)
    requires !IsNewLine(c)
    ensures Decode(d, c).1 != MessageCompleted
  {
    hide IsHexDigit, IsCode, IsNewLine, Fold;
  }

  /** A decoder that expects a message reads a line up to its end without completing anything. */
  lemma {:induction false} ReadsLine(d: RequestDecoder, line: seq<bv8>) returns (p: Partial)
    requires d.state == Code && NoNewLine(line) && line != []
    ensures Feed(Decode, d, line).messages == [] && Reads(Feed(Decode, d, line).end, p, line)
    decreases |line|
  {
    hide Decode, Feed, Reads, Longer, IsNewLine;
    var n := |line| - 1;
    var c := line[n];
    if n == 0 {
      assert line == [c];
      p := Partial(0, [], None, None);
      ReadsFirst(d, p, c);
      p := Longer(d, p, c);
      FeedOne(Decode, d, c);
    } else {
      p := ReadsLine(d, line[..n]);
      var now := Feed(Decode, d, line[..n]).end;
      ReadsNext(now, p, line[..n], c);
      p := Longer(now, p, c);
      assert line == line[..n] + [c];
      FeedConcat(Decode, d, line[..n], [c]);
      FeedOne(Decode, now, c);
    }
  }

  /** What a line that is not empty comes to: f, unless it is broken at its end or before. */
  lemma EndsLine(d: RequestDecoder, line: seq<bv8>, c: bv8) returns (f: Frame)
    requires d.state == Code && NoNewLine(line) && line != [] && IsNewLine(c)
    ensures var now := Feed(Decode, d, line).end;
      var fed := Feed(Decode, d, line + [c]);
      if now.state == Error then
        now.msg.code == UNKNOWN && fed.messages == [now.msg] && fed.end.state == Code
      else if fed.messages == [] then
        fed.end.state == Error && fed.end.msg.code == UNKNOWN
      else
        f.Valid() && f.Genuine() && f.Text() == line + [c] && fed.messages == [f.Meaning()] && fed.end.state == Code
  {
    hide Decode, Feed, Frame.Valid, Frame.Genuine, Frame.Text, Frame.Meaning, Partial.Text, Partial.Meaning,
         Partial.Fits, IsNewLine;
    var p := ReadsLine(d, line);
    var now := Feed(Decode, d, line).end;
    FeedConcat(Decode, d, line, [c]);
    FeedOne(Decode, now, c);
    Answered(now, c);
    if now.state == CRC {
      f := Closed(p, c);
      GenuineWhen(f);
    } else {
      f := Frame(0, [], None, [], c);
    }
  }

  lemma GenuineWhen(f: Frame)
    ensures f.Genuine() <==> f.Meaning().crc8 == f.Meaning().ComputeCRC8()
  {
  }

  /** How a line end is answered. */
  lemma Answered(d: RequestDecoder, c: bv8)
    requires IsNewLine(c)
    ensures Decode(d, c) ==
            if d.state == Error || (d.state == CRC && d.msg.crc8 == d.msg.ComputeCRC8())
            then (Decoder(Code, d.msg), MessageCompleted) else Broken(d.msg)
  {
    SeparatorsAreNoDigits();
    NoCodeIsAMark();
    hide IsHexDigit, IsCode, Fold;
  }

  // One wrong byte in the text of a request

  /** The text of an encoded request, and the short frame it is. */
  lemma EncodedIs(m: RequestMsg)
    requires WellFormed(m)
    ensures var e := Encoded(m);
      && e.Valid() && e.Genuine() && e.Text() == Encode(m) && e.Meaning() == m
      && |e.digits| <= 2 && (e.word.Some? ==> |e.word.value| <= 4) && e.crc == Hex8(m.crc8) && e.end == NEW_LINE
    ensures var n := |Encode(m)| - 1;
      n >= 2 && Encode(m) == Encode(m)[..n] + [NEW_LINE] && NoNewLine(Encode(m)[..n])
  {
    EncodedFrame(m);
    FramesHoldOneLine(Encoded(m));
    EndsWithNewLine(m);
    hide Hex8, Frame.Text, Frame.Valid, Frame.Meaning, Frame.Genuine, IsNewLine;
    assert |Encode(m)| >= 3;
    hide Encode;
  }

  predicate NothingElse(messages: seq<RequestMsg>, m: RequestMsg) {
    forall x | x in messages :: x == m || x.code == UNKNOWN
  }

  /** The decoder makes m of the stream, or does not; nothing else comes out. */
  predicate Outcome(d: RequestDecoder, bytes: seq<bv8>, m: RequestMsg, arrives: bool) {
    var messages := Feed(Decode, d, bytes).messages;
    NothingElse(messages, m) && (m in messages <==> arrives)
  }

  lemma OutcomeIs(d: RequestDecoder, bytes: seq<bv8>, m: RequestMsg, arrives: bool)
    requires var messages := Feed(Decode, d, bytes).messages;
      NothingElse(messages, m) && (m in messages <==> arrives)
    ensures Outcome(d, bytes, m, arrives)
  {
  }

  lemma KnownCode(m: RequestMsg)
    requires WellFormed(m)
    ensures m.code != UNKNOWN
  {
    hide RequestMsg.ComputeCRC8;
  }

  lemma WrongInside(d: RequestDecoder, m: RequestMsg, i: nat, c: bv8)
    requires d.state == Code && WellFormed(m) && i < |Encode(m)| - 1 && c != Encode(m)[i] && !IsNewLine(c)
    ensures Outcome(d, Encode(m)[i := c], m, false)
  {
    hide Feed, Decode, Encode, Encoded, Request, WellFormed, IsNewLine, IsHexDigit, IsCode, AllHex, Read8, Read16, Hex8,
         Fold, RequestMsg.ComputeCRC8, Frame.Valid, Frame.Genuine, Frame.Meaning, Frame.Text, Frame.Head;
    var (text, n) := (Encode(m), |Encode(m)| - 1);
    var line := text[..n][i := c];
    EncodedIs(m);
    EitherEnd();
    KnownCode(m);
    assert text[i := c] == line + [NEW_LINE];
    var f := EndsLine(d, line, NEW_LINE);
    var messages := Feed(Decode, d, line + [NEW_LINE]).messages;
    if Feed(Decode, d, line).end.state != Error && messages != [] {
      OneByteOff(Encoded(m), f, i, c);
    }
    OutcomeIs(d, text[i := c], m, false);
  }

  lemma WrongEnd(d: RequestDecoder, m: RequestMsg, c: bv8)
    requires d.state == Code && WellFormed(m) && c != NEW_LINE
    ensures Encode(m) != [] && Outcome(d, Encode(m)[|Encode(m)| - 1 := c], m, IsNewLine(c))
  {
    hide *;
    EncodedIs(m);
    var (text, n) := (Encode(m), |Encode(m)| - 1);
    assert text[n := c] == text[..n] + [c];
    if IsNewLine(c) {
      OtherEnd(m, c);
      var f := Encoded(m).(end := c);
      FrameIsDecoded(d, f);
      Arrives(d, f.Text(), m);
    } else {
      OneMore(text[..n], c);
      var _ := ReadsLine(d, text[n := c]);
      Silence(d, text[n := c], m);
    }
  }

  lemma OneMore(line: seq<bv8>, c: bv8)
    requires NoNewLine(line) && !IsNewLine(c)
    ensures NoNewLine(line + [c])
  {
    hide IsNewLine;
  }

  lemma Arrives(d: RequestDecoder, bytes: seq<bv8>, m: RequestMsg)
    requires Feed(Decode, d, bytes).messages == [m]
    ensures Outcome(d, bytes, m, true)
  {
    hide Feed, Decode;
  }

  lemma Silence(d: RequestDecoder, bytes: seq<bv8>, m: RequestMsg)
    requires Feed(Decode, d, bytes).messages == []
    ensures Outcome(d, bytes, m, false)
  {
    hide Feed, Decode;
  }

  /** Either line end will do. */
  lemma OtherEnd(m: RequestMsg, c: bv8)
    requires WellFormed(m) && IsNewLine(c)
    ensures var f := Encoded(m).(end := c);
      f.Valid() && f.Genuine() && f.Meaning() == m && f.Text() == Encode(m)[..|Encode(m)| - 1] + [c]
  {
    hide *;
    EncodedIs(m);
    Restated(Encoded(m), Encoded(m).crc, c);
    Shortened(Encoded(m), Encoded(m).crc, c);
  }

  lemma ZeroCRC()
    ensures |Hex8(0)| == 1 && Read8(0, []) == 0
  {
  }

  /** The CRC of zero has one digit, and is read from none. */
  lemma NoDigits(m: RequestMsg, c: bv8)
    requires WellFormed(m) && IsNewLine(c) && m.crc8 == 0
    ensures |Encode(m)| >= 2
    ensures var f := Encoded(m).(crc := [], end := c);
      f.Valid() && f.Genuine() && f.Meaning() == m && f.Text() == Encode(m)[..|Encode(m)| - 2] + [c]
  {
    ZeroCRC();
    hide *;
    EncodedIs(m);
    Restated(Encoded(m), [], c);
    Shortened(Encoded(m), [], c);
  }

  /** The same message in other words. */
  lemma Restated(e: Frame, crc: seq<bv8>, c: bv8)
    requires e.Valid() && e.Genuine() && IsNewLine(c)
    requires crc == e.crc || (crc == [] && Read8(0, []) == e.Meaning().crc8)
    ensures var f := e.(crc := crc, end := c);
      f.Valid() && f.Genuine() && f.Meaning() == e.Meaning()
  {
    hide RequestMsg.ComputeCRC8, IsHexDigit, IsCode, IsNewLine, Read8, Read16;
  }

  lemma Shortened(e: Frame, crc: seq<bv8>, c: bv8)
    requires |crc| <= |e.crc| && crc == e.crc[..|crc|]
    ensures var f := e.(crc := crc, end := c);
      f.Text() == e.Text()[..|e.Text()| - 1 - (|e.crc| - |crc|)] + [c]
  {
    assert e.(crc := crc, end := c).Head() == e.Head();
    hide Frame.Head;
  }

  /** The first of two digits is not the number. */
  lemma HalfCRC(v: bv8)
    requires |Hex8(v)| == 2
    ensures Read8(0, Hex8(v)[..1]) != v
  {
    var h := v >> 4;
    assert h != 0;
    assert Hex8(v)[..1] == [Nibble2Char(h)];
    Read8Two(0, Nibble2Char(h), 0);
    NibbleReads(h);
    ShiftedIn(Nibble2Char(h));
    hide Nibble2Char, Char2Nibble, Hex8, Read8, Digit8;
    Halved(v);
  }

  lemma ShiftedIn(c: bv8)
    ensures Digit8(0, c) == Char2Nibble(c)
  {
    hide Char2Nibble;
  }

  lemma Halved(v: bv8)
    ensures v != 0 ==> v >> 4 != v
  {
  }

  lemma ShortCRC(v: bv8, k: nat)
    requires k < |Hex8(v)| && Read8(0, Hex8(v)[..k]) == v
    ensures v == 0 && k == 0 && |Hex8(v)| == 1
  {
    if |Hex8(v)| == 2 {
      HalfCRC(v);
    }
    assert Hex8(v)[..0] == [] && Read8(0, []) == 0;
  }

  /** A shortened frame whose CRC still matches. */
  lemma ShortFrame(m: RequestMsg, f: Frame, i: nat, c: bv8)
    requires WellFormed(m) && i < |Encode(m)| - 1 && IsNewLine(c)
    requires f.Valid() && f.Genuine() && f.Text() == Encode(m)[..i] + [c]
    ensures i == |Encode(m)| - 2 && m.crc8 == 0
  {
    hide Feed, Decode, Encode, Encoded, Request, WellFormed, IsNewLine, IsHexDigit, IsCode, AllHex, Read8, Read16, Hex8,
         Fold, RequestMsg.ComputeCRC8, Frame.Valid, Frame.Genuine, Frame.Meaning, Frame.Text, Frame.Head;
    var e := Encoded(m);
    EncodedIs(m);
    HeadHasNoSeparator(e);
    HeadHasNoSeparator(f);
    var (a, b) := (e.Head(), e.crc + [e.end]);
    MarkPlace(a, b, SEPARATOR, |f.Head()|);
    assert f.Text()[|f.Head()|] == SEPARATOR;
    assert |f.Head()| < i by { LastOf(f); }
    assert f.Head() == f.Text()[..|a|] == a;
    SameHead(e, f);
    var k := i - |a| - 1;
    assert f.crc == f.Text()[|a| + 1..i] == e.crc[..k];
    SameCRC(e, f);
    ShortCRC(m.crc8, k);
  }

  lemma LastOf(f: Frame)
    requires f.Valid()
    ensures |f.Head()| < |f.Text()| - 1
  {
    hide Frame.Valid;
  }

  lemma SameCRC(e: Frame, f: Frame)
    requires e.Genuine() && f.Genuine() && f == e.(crc := f.crc, end := f.end)
    ensures Read8(0, f.crc) == e.Meaning().crc8
  {
    hide Fold, Read8, Read16, Low, High;
  }

  lemma PrefixIsGood(d: RequestDecoder, m: RequestMsg, i: nat)
    requires d.state == Code && WellFormed(m) && 0 < i < |Encode(m)|
    ensures Feed(Decode, d, Encode(m)[..i]).end.state != Error
  {
    hide Feed, Decode, Encode, Encoded, Request, WellFormed, IsNewLine, IsHexDigit, IsCode, AllHex, Read8, Read16, Hex8,
         Fold, RequestMsg.ComputeCRC8, Frame.Valid, Frame.Genuine, Frame.Meaning, Frame.Text, Frame.Head;
    var text := Encode(m);
    EncodedIs(m);
    FrameIsDecoded(d, Encoded(m));
    assert text == text[..i] + text[i..] && text[..i] == text[..i - 1] + [text[i - 1]];
    FeedConcat(Decode, d, text[..i], text[i..]);
    assert Feed(Decode, d, text).statuses[i - 1] == Feed(Decode, d, text[..i]).statuses[i - 1] == NeedMoreData;
    FeedConcat(Decode, d, text[..i - 1], [text[i - 1]]);
    var now := Feed(Decode, d, text[..i - 1]).end;
    FeedOne(Decode, now, text[i - 1]);
    DecodeStays(now, text[i - 1]);
  }

  /** After a broken line, the rest of the text is skipped. */
  lemma RestIsLost(d: RequestDecoder, rest: seq<bv8>)
    requires d.state == Error && d.msg.code == UNKNOWN && NoNewLine(rest)
    ensures forall x | x in Feed(Decode, d, rest + [NEW_LINE]).messages :: x.code == UNKNOWN
  {
    hide Feed, Decode, Encode, Encoded, Request, WellFormed, IsNewLine, IsHexDigit, IsCode, AllHex, Read8, Read16, Hex8,
         Fold, RequestMsg.ComputeCRC8, Frame.Valid, Frame.Genuine, Frame.Meaning, Frame.Text, Frame.Head;
    assert IsNewLine(NEW_LINE) by { EitherEnd(); }
    ErrorSkipsLine(d, rest, NEW_LINE);
  }

  lemma EitherEnd()
    ensures IsNewLine(NEW_LINE) && IsNewLine(RETURN)
  {
  }

  /** An early line end, where the CRC of zero is not printed yet. */
  lemma CutAtZero(d: RequestDecoder, m: RequestMsg, c: bv8)
    requires d.state == Code && WellFormed(m) && m.crc8 == 0 && IsNewLine(c)
    ensures |Encode(m)| >= 2 && Outcome(d, Encode(m)[|Encode(m)| - 2 := c], m, true)
  {
    hide Feed, Decode, Encode, Encoded, Request, WellFormed, IsNewLine, IsHexDigit, IsCode, AllHex, Read8, Read16, Hex8,
         Fold, RequestMsg.ComputeCRC8, Frame.Valid, Frame.Genuine, Frame.Meaning, Frame.Text, Frame.Head;
    var (text, n) := (Encode(m), |Encode(m)| - 1);
    EncodedIs(m);
    NoDigits(m, c);
    EitherEnd();
    var f := Encoded(m).(crc := [], end := c);
    FrameIsDecoded(d, f);
    assert text[n - 1 := c] == f.Text() + [NEW_LINE];
    FeedConcat(Decode, d, f.Text(), [NEW_LINE]);
    var after := Feed(Decode, d, f.Text()).end;
    FeedOne(Decode, after, NEW_LINE);
    Answered(after, NEW_LINE);
    OutcomeIs(d, text[n - 1 := c], m, true);
  }

  /** An early line end anywhere else. */
  lemma CutShort(d: RequestDecoder, m: RequestMsg, i: nat, c: bv8)
    requires d.state == Code && WellFormed(m) && i < |Encode(m)| - 1 && IsNewLine(c)
    requires !(m.crc8 == 0 && i == |Encode(m)| - 2)
    ensures Outcome(d, Encode(m)[i := c], m, false)
  {
    hide Feed, Decode, Encode, Encoded, Request, WellFormed, IsNewLine, IsHexDigit, IsCode, AllHex, Read8, Read16, Hex8,
         Fold, RequestMsg.ComputeCRC8, Frame.Valid, Frame.Genuine, Frame.Meaning, Frame.Text, Frame.Head;
    var (text, n) := (Encode(m), |Encode(m)| - 1);
    EncodedIs(m);
    KnownCode(m);
    var (line, rest) := (text[..i], text[i + 1..n]);
    assert text[i := c] == line + [c] + (rest + [NEW_LINE]);
    var first := Feed(Decode, d, line + [c]);
    if i == 0 {
      assert line + [c] == [c];
      FeedOne(Decode, d, c);
      Answered(d, c);
    } else {
      var f := EndsLine(d, line, c);
      PrefixIsGood(d, m, i);
      if first.messages != [] {
        ShortFrame(m, f, i, c);
      }
    }
    RestIsLost(first.end, rest);
    FeedConcat(Decode, d, line + [c], rest + [NEW_LINE]);
    OutcomeIs(d, text[i := c], m, false);
  }

  /**
  Replace one byte of the text of a request by any other byte. The decoder makes no other
  request of it; and it makes the request itself of it exactly when the byte was the line end
  and is now the other line end, or was the only digit of a CRC of zero and is now a line end.
  */
  lemma OneByteIsNoticed(d: RequestDecoder, m: RequestMsg, i: nat, c: bv8)
    requires d.state == Code && WellFormed(m) && i < |Encode(m)| && c != Encode(m)[i]
    ensures var messages := Feed(Decode, d, Encode(m)[i := c]).messages;
      && (forall x | x in messages :: x == m || x.code == UNKNOWN)
      && (m in messages <==>
            IsNewLine(c) && (i == |Encode(m)| - 1 || (i == |Encode(m)| - 2 && m.crc8 == 0)))
  {
    hide Feed, Decode, Encode, Encoded, Request, WellFormed, IsNewLine, IsHexDigit, IsCode, AllHex, Read8, Read16, Hex8,
         Fold, RequestMsg.ComputeCRC8, Frame.Valid, Frame.Genuine, Frame.Meaning, Frame.Text, Frame.Head;
    var n := |Encode(m)| - 1;
    EncodedIs(m);
    if i == n {
      WrongEnd(d, m, c);
    } else if !IsNewLine(c) {
      WrongInside(d, m, i, c);
    } else if m.crc8 == 0 && i == n - 1 {
      CutAtZero(d, m, c);
    } else {
      CutShort(d, m, i, c);
    }
  }

  /**
  Two neighbouring bytes are another matter: the query of 2 and a reset of 11 have the same CRC,
  and their texts differ by a burst of six bits.
  */
  lemma ShortBurstPasses(d: RequestDecoder)
    requires d.state == Code
    ensures var (m, n) := (Request(0x51, 2, 0), Request(0x52, 11, 0));
      && WellFormed(m) && WellFormed(n) && m != n
      && |Encode(m)| == |Encode(n)| && Burst(Sum(Encode(m), Encode(n)), 0, 0x35, 4)
      && Feed(Decode, d, Encode(n)).messages == [n]
  {
    var (m, n) := (Request(0x51, 2, 0), Request(0x52, 11, 0));
    assert m.crc8 == n.crc8 == 0x3c;
    assert Encode(m) == [0x51, 0x32, 0x2a, 0x33, 0x63, NEW_LINE];
    assert Encode(n) == [0x52, 0x62, 0x2a, 0x33, 0x63, NEW_LINE];
    assert Sum(Encode(m), Encode(n)) == [3, 0x50, 0, 0, 0, 0];
    hide Feed, Decode;
    MessageRoundTrip(d, n);
  }
}
