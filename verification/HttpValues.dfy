/** Header values: when the value automata recognise "chunked", "keep-alive" and "close", and
    what a Content-Length value amounts to. */
module HttpValues {
  import opened Wrappers
  import opened HttpTypes
  import opened HttpSwitch
  import opened HttpRun
  import opened HttpMarks
  import opened HttpReading
  import opened HttpNames
  import opened HttpNumbers

  function Lowercase(v: string): string { seq(|v|, i requires 0 <= i < |v| => Lower(v[i])) }

  // The keyword in any case, with nothing but spaces behind it
  predicate IsKeyword(v: string, keyword: string) {
    |v| >= |keyword| && Lowercase(v[..|keyword|]) == keyword && forall i | |keyword| <= i < |v| :: v[i] == ' '
  }

  // The automaton state after the value characters v, for one keyword
  function KeywordClass(v: string, keyword: string, matching: HeaderState, done: HeaderState): HeaderState {
    if |v| < |keyword| && Lowercase(v) <= keyword then matching
    else if IsKeyword(v, keyword) then done
    else HGeneral
  }

  lemma LowercaseMore(v: string, ch: char)
    ensures Lowercase(v + [ch]) == Lowercase(v) + [Lower(ch)]
  {}

  lemma KeywordMore(v: string, ch: char, keyword: string)
    requires 1 <= |v|
    ensures |v| + 1 == |keyword| ==>
      (IsKeyword(v + [ch], keyword) <==> Lowercase(v) <= keyword && Lower(ch) == keyword[|v|])
    ensures |v| >= |keyword| ==> (IsKeyword(v + [ch], keyword) <==> IsKeyword(v, keyword) && ch == ' ')
  {
    var w := v + [ch];
    LowercaseMore(v, ch);
    hide Lower;
    if |v| + 1 == |keyword| {
      assert w[..|keyword|] == w;
    } else if |v| >= |keyword| {
      assert w[..|keyword|] == v[..|keyword|];
      if IsKeyword(w, keyword) {
        assert w[|v|] == ' ';
        assert forall i | |keyword| <= i < |v| :: v[i] == w[i];
      }
    }
  }

  lemma KeywordStep(p: Parser, v: string, ch: char, keyword: string, matching: HeaderState, done: HeaderState)
    requires 1 <= |v| && |keyword| >= 2 && matching != done && matching != HGeneral && done != HGeneral
    requires p.headerState == KeywordClass(v, keyword, matching, done)
    requires p.headerState == matching ==> p.index == |v| - 1
    ensures var next := KeywordClass(v + [ch], keyword, matching, done);
      && (p.headerState == HGeneral ==> next == HGeneral)
      && (p.headerState == done ==> next == if ch != ' ' then HGeneral else done)
      && (p.headerState == matching ==>
            var q := MatchNext(p, keyword, done, Lower(ch)); q.headerState == next && q.index == |v|)
  {
    LowercaseMore(v, ch);
    KeywordMore(v, ch, keyword);
    PrefixStep(keyword, Lowercase(v), Lower(ch));
    LongKeyword(v, keyword);
    hide Lower, IsKeyword, Lowercase;
  }

  lemma LongKeyword(v: string, keyword: string)
    ensures |Lowercase(v)| == |v| && (IsKeyword(v, keyword) ==> |v| >= |keyword|)
  {}

  // ---- the value of a line whose name means h ----

  // The header state after the non-empty value v
  function ValueClass(h: HeaderState, v: string): HeaderState
    requires v != ""
  {
    if h == HTransferEncoding then KeywordClass(v, CHUNKED, HMatchingTransferEncodingChunked, HTransferEncodingChunked)
    else if h == HConnection && Lower(v[0]) == 'k' then
      KeywordClass(v, KEEP_ALIVE, HMatchingConnectionKeepAlive, HConnectionKeepAlive)
    else if h == HConnection && Lower(v[0]) == 'c' then
      KeywordClass(v, CLOSE, HMatchingConnectionClose, HConnectionClose)
    else if h == HContentLength then HContentLength
    else HGeneral
  }

  predicate MatchingValue(h: HeaderState) {
    h == HMatchingTransferEncodingChunked || h == HMatchingConnectionKeepAlive || h == HMatchingConnectionClose
  }

  // The digits of a Content-Length value; the parser skips spaces between them
  function DigitsOf(v: string): seq<nat>
    requires forall c | c in v :: IsNum(c) || c == ' '
  {
    if v == "" then []
    else
      var front, c := v[..|v| - 1], v[|v| - 1];
      assert c in v && forall x | x in front :: x in v;
      DigitsOf(front) + (if c == ' ' then [] else [Digit(c)])
  }

  // A Content-Length value that the parser accepts
  predicate IsLength(v: string) {
    v != "" && v[0] != ' ' && (forall c | c in v :: IsNum(c) || c == ' ')
    && DigitsOf(v) != [] && Accumulated(DigitsOf(v), 10).Some?
  }

  /** A Content-Length is accepted and taken at its value exactly if that is below 2^64 - 1. */
  lemma ContentLengthExact(v: string)
    requires v != "" && v[0] != ' ' && (forall c | c in v :: IsNum(c) || c == ' ')
    ensures IsLength(v) && Accumulated(DigitsOf(v), 10).value == Value(DigitsOf(v), 10)
       <==> Value(DigitsOf(v), 10) < ULLONG_MAX
  {
    DigitsAre(v);
    AccumulatorExact(DigitsOf(v), 10);
  }

  lemma {:induction false} DigitsAre(v: string)
    requires v != "" && v[0] != ' ' && (forall c | c in v :: IsNum(c) || c == ' ')
    ensures Digits(DigitsOf(v), 10)
  {
    var front, c := v[..|v| - 1], v[|v| - 1];
    assert c in v && forall x | x in front :: x in v;
    if front == "" {
      assert DigitsOf(v) == [] + [Digit(c)];
    } else {
      DigitsAre(front);
    }
  }

  // A Content-Length without the spaces in it
  function Unspaced(v: string): string {
    if v == "" then ""
    else Unspaced(v[..|v| - 1]) + (if v[|v| - 1] == ' ' then "" else [v[|v| - 1]])
  }

  lemma {:induction false} UnspacedDigits(v: string)
    requires forall c | c in v :: IsNum(c) || c == ' '
    ensures DigitsAt(Unspaced(v), DigitsOf(v))
  {
    if v != "" {
      var front, c := v[..|v| - 1], v[|v| - 1];
      assert c in v && forall x | x in front :: x in v;
      UnspacedDigits(front);
      hide IsNum, Digit;
    }
  }

  lemma UnspacedStarts(v: string)
    requires v != "" && v[0] != ' '
    ensures Unspaced(v) != ""
  {
    if |v| > 1 { UnspacedStarts(v[..|v| - 1]); }
  }

  /** A Content-Length has the value of the number that its characters spell without the spaces, and
      of no other. */
  lemma LengthIsSpelled(v: string, n: nat)
    requires v != "" && v[0] != ' ' && forall c | c in v :: IsNum(c) || c == ' '
    ensures Value(DigitsOf(v), 10) == n <==> Spells(Unspaced(v), n, 10)
  {
    UnspacedStarts(v);
    UnspacedDigits(v);
    DigitsSpell(Unspaced(v), DigitsOf(v), n);
  }

  // A value the line may carry: no line break, no leading blank, and a number where one is due
  predicate IsValue(h: HeaderState, v: string) {
    v != "" && v[0] != ' ' && v[0] != '\t' && (forall c | c in v :: c != CR && c != LF)
    && (h == HContentLength ==> IsLength(v))
  }

  function LengthAfter(h: HeaderState, v: string, cl: nat): nat
    requires IsValue(h, v)
  {
    if h == HContentLength then Accumulated(DigitsOf(v), 10).value else cl
  }

  // The parser at p's value start, having read the value v
  function InValue(p: Parser, v: string, index: nat): Parser
    requires IsValue(p.headerState, v)
  {
    p.(state := SHeaderValue, headerState := ValueClass(p.headerState, v), index := index,
       nread := p.nread + |v|, contentLength := LengthAfter(p.headerState, v, p.contentLength),
       flags := p.flags.(upgrade := p.flags.upgrade || p.headerState == HUpgrade))
  }

  predicate AtValue(p: Parser, n: nat) {
    p.state == SHeaderValueStart && p.errno == OK && !ValueOnly(p.headerState) && Room(p, n)
  }

  lemma FirstKeyword(ch: char, keyword: string, matching: HeaderState, done: HeaderState)
    requires |keyword| >= 2
    ensures KeywordClass([ch], keyword, matching, done) == if Lower(ch) == keyword[0] then matching else HGeneral
  {
    assert Lowercase([ch]) == [Lower(ch)];
    hide Lower;
  }

  lemma ValueKeywords()
    ensures |CHUNKED| == 7 && CHUNKED[0] == 'c' && |KEEP_ALIVE| == 10 && KEEP_ALIVE[0] == 'k'
    ensures |CLOSE| == 5 && CLOSE[0] == 'c'
  {}

  lemma FirstClassOfValue(h: HeaderState, ch: char)
    ensures ValueClass(h, [ch]) ==
      if h == HTransferEncoding && Lower(ch) == 'c' then HMatchingTransferEncodingChunked
      else if h == HConnection && Lower(ch) == 'k' then HMatchingConnectionKeepAlive
      else if h == HConnection && Lower(ch) == 'c' then HMatchingConnectionClose
      else if h == HContentLength then HContentLength else HGeneral
  {
    hide CHUNKED, KEEP_ALIVE, CLOSE, Lower, KeywordClass;
    ValueKeywords();
    FirstKeyword(ch, CHUNKED, HMatchingTransferEncodingChunked, HTransferEncodingChunked);
    FirstKeyword(ch, KEEP_ALIVE, HMatchingConnectionKeepAlive, HConnectionKeepAlive);
    FirstKeyword(ch, CLOSE, HMatchingConnectionClose, HConnectionClose);
  }

  lemma OneDigit(ch: char)
    requires IsValue(HContentLength, [ch])
    ensures IsNum(ch) && Accumulated(DigitsOf([ch]), 10) == Some(Digit(ch))
  {
    assert ch in [ch] && [ch][..0] == "";
    assert DigitsOf([ch]) == [Digit(ch)];
  }

  lemma FirstValueArm(p: Parser, ch: char)
    requires AtValue(p, 1) && IsValue(p.headerState, [ch])
    ensures FirstValueChar(p.(nread := p.nread + 1), ch) == Next(InValue(p, [ch], 0), [Mark(HeaderValue)])
  {
    hide ValueClass, Lower, IsLength, Accumulated, DigitsOf;
    FirstClassOfValue(p.headerState, ch);
    if p.headerState == HContentLength { OneDigit(ch); }
  }

  lemma FirstValueStep(p: Parser, ch: char)
    requires AtValue(p, 1) && IsValue(p.headerState, [ch])
    ensures Steps(p, ch, InValue(p, [ch], 0), [Byte(HeaderValue, ch)])
  {
    hide Switch, ValueClass, FirstValueChar, LengthAfter, IsLength;
    assert ch in [ch];
    FirstValueArm(p, ch);
    ValueDispatch(p.(nread := p.nread + 1), ch);
    StepsNext(p, ch, InValue(p, [ch], 0), [Mark(HeaderValue)]);
    assert Notes([Mark(HeaderValue)]) == [] && Kept(SHeaderValue, ch) == [Byte(HeaderValue, ch)];
  }

  // ---- the following characters ----

  lemma DigitsMore(v: string, ch: char)
    requires forall c | c in v + [ch] :: IsNum(c) || c == ' '
    ensures (forall c | c in v :: IsNum(c) || c == ' ') && (ch == ' ' || IsNum(ch))
    ensures DigitsOf(v + [ch]) == if ch == ' ' then DigitsOf(v) else DigitsOf(v) + [Digit(ch)]
  {
    var w := v + [ch];
    assert w[..|w| - 1] == v && w[|w| - 1] == ch && ch in w && forall c | c in v :: c in w;
  }

  lemma MoreDigits(v: string, ch: char)
    requires IsLength(v) && (IsNum(ch) || ch == ' ')
    ensures forall c | c in v + [ch] :: IsNum(c) || c == ' '
    ensures var ds := DigitsOf(v + [ch]);
      && ds != []
      && Accumulated(ds, 10) == if ch == ' ' then Accumulated(DigitsOf(v), 10)
                                else Accumulate(Accumulated(DigitsOf(v), 10).value, 10, Digit(ch))
  {
    assert forall c | c in v + [ch] :: c in v || c == ch;
    DigitsMore(v, ch);
    if ch != ' ' { AccumulatedMore(DigitsOf(v), Digit(ch), 10); }
    hide DigitsOf, Accumulated, Accumulate;
  }

  lemma FrontIsValue(h: HeaderState, v: string, ch: char)
    requires v != "" && IsValue(h, v + [ch])
    ensures IsValue(h, v) && ch != CR && ch != LF
    ensures h == HContentLength ==> IsNum(ch) || ch == ' '
  {
    hide DigitsOf, Accumulated;
    var w := v + [ch];
    assert ch in w && w[0] == v[0] && forall c | c in v :: c in w;
    if h == HContentLength {
      DigitsMore(v, ch);
      FrontHasDigit(v);
      if ch != ' ' { AccumulatedMore(DigitsOf(v), Digit(ch), 10); }
    }
  }

  lemma {:induction false} FrontHasDigit(v: string)
    requires v != "" && v[0] != ' ' && forall c | c in v :: IsNum(c) || c == ' '
    ensures DigitsOf(v) != []
  {
    if |v| > 1 {
      var front := v[..|v| - 1];
      assert front[0] == v[0] && forall c | c in front :: c in v;
      FrontHasDigit(front);
    }
  }

  // One more value character keeps the parser in step with InValue
  predicate ValueArmOk(p: Parser, v: string, ch: char, index: nat)
    requires v != "" && IsValue(p.headerState, v + [ch]) && IsValue(p.headerState, v)
  {
    var q := InValue(p, v, index);
    var r := ValueChar(q.(nread := q.nread + 1), ch);
    && r.Next?
    && r == Next(InValue(p, v + [ch], r.p.index), [])
    && (MatchingValue(ValueClass(p.headerState, v + [ch])) ==> r.p.index == |v|)
  }

  predicate MoreValue(p: Parser, v: string, ch: char, index: nat) {
    && AtValue(p, |v| + 1) && v != "" && IsValue(p.headerState, v + [ch]) && IsValue(p.headerState, v)
    && (MatchingValue(ValueClass(p.headerState, v)) ==> index == |v| - 1)
  }

  predicate InKeyword(c: Parser, v: string, keyword: string, matching: HeaderState, done: HeaderState) {
    v != "" && c.headerState == KeywordClass(v, keyword, matching, done)
    && (c.headerState == matching ==> c.index == |v| - 1)
  }

  predicate CharOk(c: Parser, v: string, ch: char, keyword: string, matching: HeaderState, done: HeaderState) {
    var r := ValueChar(c, ch);
    r.Next?
    && r == Next(c.(headerState := KeywordClass(v + [ch], keyword, matching, done), index := r.p.index), [])
    && (r.p.headerState == matching ==> r.p.index == |v|)
  }

  lemma CodingChar(c: Parser, v: string, ch: char)
    requires InKeyword(c, v, CHUNKED, HMatchingTransferEncodingChunked, HTransferEncodingChunked)
    ensures CharOk(c, v, ch, CHUNKED, HMatchingTransferEncodingChunked, HTransferEncodingChunked)
  {
    hide Lower, KeywordClass, CHUNKED;
    ValueKeywords();
    KeywordStep(c, v, ch, CHUNKED, HMatchingTransferEncodingChunked, HTransferEncodingChunked);
    ThreeClasses(v, CHUNKED, HMatchingTransferEncodingChunked, HTransferEncodingChunked);
  }

  lemma CodingArm(p: Parser, v: string, ch: char, index: nat)
    requires MoreValue(p, v, ch, index) && p.headerState == HTransferEncoding
    ensures ValueArmOk(p, v, ch, index)
  {
    hide Lower, KeywordClass, IsLength, CHUNKED, ValueChar;
    var c := InValue(p, v, index);
    CodingChar(c.(nread := c.nread + 1), v, ch);
    ThreeClasses(v + [ch], CHUNKED, HMatchingTransferEncodingChunked, HTransferEncodingChunked);
  }

  lemma KeepAliveChar(c: Parser, v: string, ch: char)
    requires InKeyword(c, v, KEEP_ALIVE, HMatchingConnectionKeepAlive, HConnectionKeepAlive)
    ensures CharOk(c, v, ch, KEEP_ALIVE, HMatchingConnectionKeepAlive, HConnectionKeepAlive)
  {
    hide Lower, KeywordClass, KEEP_ALIVE;
    ValueKeywords();
    KeywordStep(c, v, ch, KEEP_ALIVE, HMatchingConnectionKeepAlive, HConnectionKeepAlive);
    ThreeClasses(v, KEEP_ALIVE, HMatchingConnectionKeepAlive, HConnectionKeepAlive);
  }

  lemma KeepAliveArm(p: Parser, v: string, ch: char, index: nat)
    requires MoreValue(p, v, ch, index) && p.headerState == HConnection && Lower(v[0]) == 'k'
    ensures ValueArmOk(p, v, ch, index)
  {
    hide Lower, KeywordClass, IsLength, KEEP_ALIVE, ValueChar;
    assert (v + [ch])[0] == v[0];
    var c := InValue(p, v, index);
    KeepAliveChar(c.(nread := c.nread + 1), v, ch);
    ThreeClasses(v + [ch], KEEP_ALIVE, HMatchingConnectionKeepAlive, HConnectionKeepAlive);
  }

  lemma CloseChar(c: Parser, v: string, ch: char)
    requires InKeyword(c, v, CLOSE, HMatchingConnectionClose, HConnectionClose)
    ensures CharOk(c, v, ch, CLOSE, HMatchingConnectionClose, HConnectionClose)
  {
    hide Lower, KeywordClass, CLOSE;
    ValueKeywords();
    KeywordStep(c, v, ch, CLOSE, HMatchingConnectionClose, HConnectionClose);
    ThreeClasses(v, CLOSE, HMatchingConnectionClose, HConnectionClose);
  }

  lemma CloseArm(p: Parser, v: string, ch: char, index: nat)
    requires MoreValue(p, v, ch, index) && p.headerState == HConnection && Lower(v[0]) == 'c'
    ensures ValueArmOk(p, v, ch, index)
  {
    hide Lower, KeywordClass, IsLength, CLOSE, ValueChar;
    assert (v + [ch])[0] == v[0];
    var c := InValue(p, v, index);
    CloseChar(c.(nread := c.nread + 1), v, ch);
    ThreeClasses(v + [ch], CLOSE, HMatchingConnectionClose, HConnectionClose);
  }

  lemma LengthArm(p: Parser, v: string, ch: char, index: nat)
    requires MoreValue(p, v, ch, index) && p.headerState == HContentLength
    ensures ValueArmOk(p, v, ch, index)
  {
    hide IsLength, DigitsOf, Accumulated, Accumulate;
    FrontIsValue(HContentLength, v, ch);
    MoreDigits(v, ch);
    LengthHasDigits(v);
    LengthHasDigits(v + [ch]);
  }

  lemma OtherArm(p: Parser, v: string, ch: char, index: nat)
    requires MoreValue(p, v, ch, index) && p.headerState != HTransferEncoding && p.headerState != HContentLength
    requires p.headerState == HConnection ==> Lower(v[0]) != 'k' && Lower(v[0]) != 'c'
    ensures ValueArmOk(p, v, ch, index)
  {
    hide Lower, KeywordClass, IsLength;
    assert (v + [ch])[0] == v[0];
  }

  lemma MoreValueArm(p: Parser, v: string, ch: char, index: nat)
    requires MoreValue(p, v, ch, index)
    ensures ValueArmOk(p, v, ch, index)
  {
    hide ValueArmOk, Lower, IsValue, ValueClass;
    if p.headerState == HTransferEncoding { CodingArm(p, v, ch, index); }
    else if p.headerState == HContentLength { LengthArm(p, v, ch, index); }
    else if p.headerState == HConnection && Lower(v[0]) == 'k' { KeepAliveArm(p, v, ch, index); }
    else if p.headerState == HConnection && Lower(v[0]) == 'c' { CloseArm(p, v, ch, index); }
    else { OtherArm(p, v, ch, index); }
  }

  lemma LengthHasDigits(v: string)
    requires IsLength(v)
    ensures (forall c | c in v :: IsNum(c) || c == ' ') && DigitsOf(v) != [] && Accumulated(DigitsOf(v), 10).Some?
  {}

  lemma ThreeClasses(v: string, keyword: string, matching: HeaderState, done: HeaderState)
    ensures var h := KeywordClass(v, keyword, matching, done); h == matching || h == done || h == HGeneral
  {}

  lemma MoreValueStep(p: Parser, v: string, ch: char, index: nat) returns (next: nat)
    requires MoreValue(p, v, ch, index)
    ensures Steps(InValue(p, v, index), ch, InValue(p, v + [ch], next), [Byte(HeaderValue, ch)])
    ensures MatchingValue(ValueClass(p.headerState, v + [ch])) ==> next == |v|
  {
    hide Switch, ValueClass, ValueChar, LengthAfter, IsLength;
    MoreValueArm(p, v, ch, index);
    var q := InValue(p, v, index);
    next := ValueChar(q.(nread := q.nread + 1), ch).p.index;
    FrontIsValue(p.headerState, v, ch);
    ValueDispatch(q.(nread := q.nread + 1), ch);
    StepsNext(q, ch, InValue(p, v + [ch], next), []);
    assert Notes([]) == [] && Kept(SHeaderValue, ch) == [Byte(HeaderValue, ch)];
  }

  lemma ValueRun(p: Parser, v: string) returns (index: nat)
    requires AtValue(p, |v|) && IsValue(p.headerState, v)
    ensures Reads(p, v, InValue(p, v, index), Bytes(HeaderValue, v))
    ensures MatchingValue(ValueClass(p.headerState, v)) ==> index == |v| - 1
    decreases |v|
  {
    hide Run, ByteStep, ValueClass, LengthAfter;
    if |v| == 1 {
      assert v == [v[0]];
      FirstValueStep(p, v[0]);
      index := 0;
      ReadsByte(p, v[0], InValue(p, v, 0), [Byte(HeaderValue, v[0])]);
      assert Bytes(HeaderValue, v) == [Byte(HeaderValue, v[0])];
    } else {
      var front, ch := v[..|v| - 1], v[|v| - 1];
      assert v == front + [ch];
      FrontIsValue(p.headerState, front, ch);
      var i := ValueRun(p, front);
      index := MoreValueStep(p, front, ch, i);
      ReadsMore(p, front, InValue(p, front, i), Bytes(HeaderValue, front), ch, InValue(p, v, index),
                [Byte(HeaderValue, ch)]);
      assert Bytes(HeaderValue, v) == Bytes(HeaderValue, front) + [Byte(HeaderValue, ch)];
    }
  }

  // ---- what is no Content-Length ----

  lemma NoFirstDigit(p: Parser, ch: char)
    requires AtValue(p, 1) && p.headerState == HContentLength && !IsNum(ch)
    requires ch != ' ' && ch != '\t' && ch != CR && ch != LF
    ensures ByteStep(p, ch).end == Error && ByteStep(p, ch).p.errno == InvalidContentLength
  {
    var c := p.(nread := p.nread + 1);
    assert Switch(c, ch, 1) == Fail(c.(state := SHeaderValue, index := 0, errno := InvalidContentLength));
    hide Switch;
  }

  lemma NoMoreDigit(q: Parser, ch: char)
    requires q.state == SHeaderValue && q.errno == OK && q.headerState == HContentLength && Room(q, 1)
    requires ch != ' ' && ch != CR && ch != LF && (!IsNum(ch) || Accumulate(q.contentLength, 10, Digit(ch)) == None)
    ensures ByteStep(q, ch).end == Error && ByteStep(q, ch).p.errno == InvalidContentLength
  {
    hide Switch, Accumulate, IsNum;
    ValueDispatch(q.(nread := q.nread + 1), ch);
    StepsFail(q, ch, InvalidContentLength);
  }

  lemma OneIsLength(ch: char)
    requires ch != ' '
    ensures IsLength([ch]) <==> IsNum(ch)
  {
    assert ch in [ch] && [ch][..0] == "";
    if IsNum(ch) { assert DigitsOf([ch]) == [Digit(ch)]; }
  }

  // When one more character leaves a length a length
  lemma MoreIsLength(v: string, ch: char)
    requires v != "" && v[0] != ' ' && v[0] != '\t' && (forall c | c in v + [ch] :: c != CR && c != LF)
    ensures IsLength(v + [ch]) <==>
      IsLength(v) && (ch == ' ' || (IsNum(ch) && Accumulate(Accumulated(DigitsOf(v), 10).value, 10, Digit(ch)).Some?))
  {
    hide DigitsOf, Accumulated, Accumulate;
    assert (v + [ch])[0] == v[0];
    if IsLength(v + [ch]) {
      FrontIsValue(HContentLength, v, ch);
      MoreDigits(v, ch);
    } else if IsLength(v) && (ch == ' ' || IsNum(ch)) {
      MoreDigits(v, ch);
    }
  }

  /** Behind the name Content-Length any other value is refused, with HPE_INVALID_CONTENT_LENGTH. */
  lemma {:induction false} LengthDecided(p: Parser, v: string)
    requires AtValue(p, |v|) && p.headerState == HContentLength
    requires v != "" && v[0] != ' ' && v[0] != '\t' && (forall c | c in v :: c != CR && c != LF)
    ensures var o := Run(p, v);
      if IsLength(v) then o.end == Ready && o.p.contentLength == Accumulated(DigitsOf(v), 10).value
      else o.end == Error && o.p.errno == InvalidContentLength
    decreases |v|
  {
    hide Run, ByteStep, IsLength, Accumulated, DigitsOf, Accumulate, IsNum, Digit;
    if IsLength(v) {
      var index := ValueRun(p, v);
    } else {
      var front, ch := v[..|v| - 1], v[|v| - 1];
      assert v == front + [ch] && ch in v && forall c | c in front :: c in v;
      if front == "" {
        assert v == [ch];
        OneIsLength(ch);
        NoFirstDigit(p, ch);
        OneByte(p, ch);
      } else {
        MoreIsLength(front, ch);
        if IsLength(front) {
          var index := ValueRun(p, front);
          NoMoreDigit(InValue(p, front, index), ch);
          ReadsThenFails(p, front, InValue(p, front, index), Bytes(HeaderValue, front), ch);
        } else {
          LengthDecided(p, front);
          RunSplit(p, front, [ch]);
        }
      }
    }
  }

  /** A decimal numeral, with or without spaces in it, is taken for the Content-Length at the number it
      spells exactly if that is below 2^64 - 1; what else becomes of it is HPE_INVALID_CONTENT_LENGTH or,
      after a wrap, another number. */
  lemma LengthTakenExactly(p: Parser, v: string, n: nat)
    requires AtValue(p, |v|) && p.headerState == HContentLength
    requires v != "" && v[0] != ' ' && (forall c | c in v :: IsNum(c) || c == ' ') && Spells(Unspaced(v), n, 10)
    ensures var o := Run(p, v);
      && (o.end == Ready && o.p.contentLength == n <==> n < ULLONG_MAX)
      && (o.end == Ready || (o.end == Error && o.p.errno == InvalidContentLength))
  {
    hide Run, IsLength, Accumulated, DigitsOf, IsNum, Spells, Unspaced, AtValue;
    NumeralIsLength(v, n);
    NoBreakInLength(v);
    assert v[0] in v;
    LengthDecided(p, v);
  }

  lemma NoBreakInLength(v: string)
    requires forall c | c in v :: IsNum(c) || c == ' '
    ensures forall c | c in v :: c != CR && c != LF && c != '\t'
  {}

  lemma NumeralIsLength(v: string, n: nat)
    requires v != "" && v[0] != ' ' && (forall c | c in v :: IsNum(c) || c == ' ') && Spells(Unspaced(v), n, 10)
    ensures IsLength(v) && Accumulated(DigitsOf(v), 10).value == n <==> n < ULLONG_MAX
  {
    LengthIsSpelled(v, n);
    DigitsAre(v);
    AccumulatedBelow(DigitsOf(v), 10);
    AccumulatorExact(DigitsOf(v), 10);
    hide DigitsOf, Unspaced, Spells, Accumulated, Value, IsNum;
  }

  // ---- what a value amounts to at the end of its line ----

  // The flags behind a line whose name means h and whose value is v
  function LineEffect(f: Flags, h: HeaderState, v: string): Flags {
    f.(upgrade := f.upgrade || h == HUpgrade,
       chunked := f.chunked || (h == HTransferEncoding && IsKeyword(v, CHUNKED)),
       keepAlive := f.keepAlive || (h == HConnection && IsKeyword(v, KEEP_ALIVE)),
       close := f.close || (h == HConnection && IsKeyword(v, CLOSE)))
  }

  lemma FlagsOfValue(p: Parser, v: string, index: nat)
    requires !ValueOnly(p.headerState) && IsValue(p.headerState, v)
    ensures LineFlags(InValue(p, v, index)) == LineEffect(p.flags, p.headerState, v)
  {
    hide Lower, IsLength, CHUNKED, KEEP_ALIVE, CLOSE, LengthAfter;
    ValueKeywords();
    KeywordStarts(v, CHUNKED);
    KeywordStarts(v, KEEP_ALIVE);
    KeywordStarts(v, CLOSE);
    hide IsKeyword;
  }

  lemma KeywordStarts(v: string, keyword: string)
    requires v != "" && keyword != ""
    ensures IsKeyword(v, keyword) ==> Lower(v[0]) == keyword[0] && |v| >= |keyword|
  {
    if IsKeyword(v, keyword) {
      assert Lowercase(v[..|keyword|])[0] == Lower(v[0]);
    }
  }
}
