/** Request and status lines: the URL that the parser hands out, and the version and
    status numbers it reads. */
module HttpLines {
  import opened Wrappers
  import opened HttpTypes
  import opened HttpSwitch
  import opened HttpRun
  import opened HttpMarks
  import opened HttpReading
  import opened HttpNumbers
  import U = HttpUrl

  // ---- the URL ----

  // A parser before a URL; n header bytes may follow
  predicate AtUrl(p: Parser, n: nat) { p.state == SReqSpacesBeforeUrl && p.errno == OK && Room(p, n) }

  function UrlFrom(p: Parser): State { U.UrlStart(p.verb == CONNECT) }

  // No byte that ends a URL
  predicate NoBreak(url: string) { forall c | c in url :: c != ' ' && c != CR && c != LF }

  // The states in which a URL may end
  predicate UrlMayEnd(s: State) {
    s == SReqServer || s == SReqServerWithAt || s == SReqPath || s == SReqQueryStringStart || s == SReqQueryString
    || s == SReqFragmentStart || s == SReqFragment
  }

  lemma UrlFirstArm(p: Parser, ch: char)
    requires p.state == SReqSpacesBeforeUrl && ch != ' '
    ensures var t := ParseUrlChar(UrlFrom(p), ch); var q := p.(state := t, nread := p.nread + 1);
      Switch(Counted(p), ch, 1) == if t == SDead then Fail(q.(errno := InvalidUrl)) else Next(q, [Mark(Url)])
  {
    hide ParseUrlChar;
  }

  lemma UrlFirst(p: Parser, ch: char)
    requires AtUrl(p, 1) && ch != ' '
    ensures var t := ParseUrlChar(UrlFrom(p), ch);
      if t == SDead then ByteStep(p, ch).end == Error && ByteStep(p, ch).p.errno == InvalidUrl
      else Steps(p, ch, p.(state := t, nread := p.nread + 1), [Byte(Url, ch)])
  {
    hide ParseUrlChar, Switch, InUrl;
    var t := ParseUrlChar(UrlFrom(p), ch);
    UrlStaysUrl(UrlFrom(p), ch);
    UrlFirstArm(p, ch);
    if t != SDead {
      var q := p.(state := t, nread := p.nread + 1);
      UrlHoldsMark(t);
      StepsNext(p, ch, q, [Mark(Url)]);
      assert Notes([Mark(Url)]) == [] && Kept(t, ch) == [Byte(Url, ch)];
    }
  }

  lemma UrlArmIs(p: Parser, ch: char)
    requires InUrl(p.state) && ch != ' ' && ch != CR && ch != LF
    ensures UrlArm(p, ch) == UrlStep(p, p.state, ch, []) && Switch(p, ch, 1) == UrlArm(p, ch)
  {
    hide ParseUrlChar;
  }

  lemma UrlMore(p: Parser, ch: char)
    requires InUrl(p.state) && p.errno == OK && Room(p, 1) && ch != ' ' && ch != CR && ch != LF
    ensures var t := ParseUrlChar(p.state, ch);
      if t == SDead then ByteStep(p, ch).end == Error && ByteStep(p, ch).p.errno == InvalidUrl
      else Steps(p, ch, p.(state := t, nread := p.nread + 1), [Byte(Url, ch)])
  {
    var t := ParseUrlChar(p.state, ch);
    var q := p.(state := t, nread := p.nread + 1);
    UrlStaysUrl(p.state, ch);
    UrlArmIs(Counted(p), ch);
    hide ParseUrlChar, Switch, UrlArm;
    if t != SDead {
      UrlHoldsMark(t);
      StepsNext(p, ch, q, []);
      assert Notes([]) == [] && Kept(t, ch) == [Byte(Url, ch)];
    }
  }

  // Having read url, the machine is in the state t, or has refused if that is dead
  predicate Follows(p: Parser, url: string, t: State) {
    if t == SDead then Run(p, url).end == Error && Run(p, url).p.errno == InvalidUrl
    else InUrl(t) && Reads(p, url, p.(state := t, nread := p.nread + |url|), Bytes(Url, url))
  }

  lemma FollowsMore(p: Parser, front: string, ch: char, s: State)
    requires Room(p, |front| + 1) && p.errno == OK && Follows(p, front, s) && ch != ' ' && ch != CR && ch != LF
    ensures Follows(p, front + [ch], if s == SDead then SDead else ParseUrlChar(s, ch))
  {
    hide Run, ByteStep, ParseUrlChar, InUrl;
    if s == SDead {
      RunSplit(p, front, [ch]);
    } else {
      var q := p.(state := s, nread := p.nread + |front|);
      var t := ParseUrlChar(s, ch);
      UrlMore(q, ch);
      UrlStaysUrl(s, ch);
      BytesMore(front, ch);
      if t == SDead { ReadsThenFails(p, front, q, Bytes(Url, front), ch); }
      else { ReadsMore(p, front, q, Bytes(Url, front), ch, q.(state := t, nread := q.nread + 1), [Byte(Url, ch)]); }
    }
  }

  lemma BytesMore(front: string, ch: char)
    ensures Bytes(Url, front + [ch]) == Bytes(Url, front) + [Byte(Url, ch)]
  {}

  lemma FollowsOne(p: Parser, ch: char)
    requires AtUrl(p, 1) && ch != ' '
    ensures Follows(p, [ch], ParseUrlChar(UrlFrom(p), ch))
  {
    hide Run, ByteStep, ParseUrlChar, InUrl;
    assert Bytes(Url, [ch]) == [Byte(Url, ch)];
    UrlFirst(p, ch);
    UrlStaysUrl(UrlFrom(p), ch);
    OneByte(p, ch);
  }

  lemma NoBreakParts(front: string, ch: char)
    requires NoBreak(front + [ch])
    ensures NoBreak(front) && ch != ' ' && ch != CR && ch != LF
  {
    assert ch in front + [ch] && forall c | c in front :: c in front + [ch];
  }

  // The machine follows the fold of parse_url_char
  lemma {:induction false} UrlRun(p: Parser, url: string)
    requires AtUrl(p, |url|) && url != "" && NoBreak(url)
    ensures Follows(p, url, U.UrlState(UrlFrom(p), url))
    decreases |url|
  {
    hide ParseUrlChar, Follows, U.UrlState, NoBreak, UrlFrom;
    var front, ch := url[..|url| - 1], url[|url| - 1];
    assert url == front + [ch];
    NoBreakParts(front, ch);
    U.StateMore(UrlFrom(p), url, |front|);
    assert url[..|front| + 1] == url;
    if front == "" {
      EmptyUrlState(UrlFrom(p));
      UrlFromLives(p);
      FollowsOne(p, ch);
      assert url == [ch];
    } else {
      UrlRun(p, front);
      FollowsMore(p, front, ch, U.UrlState(UrlFrom(p), front));
    }
  }

  lemma UrlFromLives(p: Parser)
    ensures UrlFrom(p) != SDead
  {}

  lemma EmptyUrlState(start: State)
    ensures U.UrlState(start, "") == start
  {}

  // The bytes that end a URL
  predicate IsStop(ch: char) { ch == ' ' || ch == CR || ch == LF }

  // The parser behind a URL and the byte that ended it; without a version it is taken for 0.9
  function UrlDone(p: Parser, stop: char): Parser {
    if stop == ' ' then p.(state := SReqHttpStart)
    else p.(state := if stop == CR then SReqLineAlmostDone else SHeaderFieldStart, httpMajor := 0, httpMinor := 9)
  }

  lemma UrlEndStep(p: Parser, stop: char)
    requires InUrl(p.state) && p.errno == OK && Room(p, 1) && IsStop(stop)
    ensures if UrlMayEnd(p.state) then Steps(p, stop, UrlDone(p.(nread := p.nread + 1), stop), [Ended(Url)])
            else ByteStep(p, stop).end == Error && ByteStep(p, stop).p.errno == InvalidUrl
  {
    hide ParseUrlChar, IsStop;
    UrlEndArm(p.(nread := p.nread + 1), stop);
    hide Switch, UrlMayEnd, Notes;
    if UrlMayEnd(p.state) {
      OneFlush(Url);
      StepsNext(p, stop, UrlDone(p.(nread := p.nread + 1), stop), [Flush(Url)]);
    } else {
      StepsFail(p, stop, InvalidUrl);
    }
  }

  lemma UrlEndArm(c: Parser, stop: char)
    requires InUrl(c.state) && IsStop(stop)
    ensures Switch(c, stop, 1) == if UrlMayEnd(c.state) then Next(UrlDone(c, stop), [Flush(Url)])
                                  else Fail(c.(errno := InvalidUrl))
    ensures ParsingHeader(c.state) && Kept(UrlDone(c, stop).state, stop) == []
  {
    hide ParseUrlChar, Switch, UrlStep;
    UrlDispatch(c, stop);
  }

  predicate AreSpaces(gap: string) { forall i :: 0 <= i < |gap| ==> gap[i] == ' ' }

  lemma {:induction false} SpacesRun(p: Parser, gap: string)
    requires AtUrl(p, |gap|) && AreSpaces(gap)
    ensures Reads(p, gap, p.(nread := p.nread + |gap|), [])
    decreases |gap|
  {
    hide Run, ByteStep;
    if gap == "" {
      ReadsNothing(p);
    } else {
      var front := gap[..|gap| - 1];
      assert gap == front + [' '];
      SpacesRun(p, front);
      var q := p.(nread := p.nread + |front|);
      SpaceStep(q);
      ReadsMore(p, front, q, [], ' ', q.(nread := q.nread + 1), []);
    }
  }

  lemma SpaceStep(p: Parser)
    requires AtUrl(p, 1)
    ensures Steps(p, ' ', p.(nread := p.nread + 1), [])
  {
    hide ParseUrlChar;
    StepsNext(p, ' ', p.(nread := p.nread + 1), []);
  }

  predicate UrlEnds(p: Parser, url: string) {
    var t := U.UrlState(U.UrlStart(p.verb == CONNECT), url);
    t != SDead && UrlMayEnd(t)
  }

  lemma StopLive(p: Parser, url: string, stop: char, t: State)
    requires AtUrl(p, |url| + 1) && IsStop(stop) && t != SDead && InUrl(t)
    requires Reads(p, url, p.(state := t, nread := p.nread + |url|), Bytes(Url, url))
    ensures var o := Run(p, url + [stop]);
      if UrlMayEnd(t) then
        Reads(p, url + [stop], UrlDone(p.(nread := p.nread + |url| + 1), stop), Whole(Url, url))
      else o.end == Error && o.p.errno == InvalidUrl
  {
    var q := p.(state := t, nread := p.nread + |url|);
    UrlEndStep(q, stop);
    UrlDoneThere(p, t, |url|, stop);
    hide Run, ByteStep, InUrl, UrlMayEnd, IsStop, UrlDone, Reads, Bytes, AtUrl, Steps;
    if UrlMayEnd(t) {
      var z := UrlDone(q.(nread := q.nread + 1), stop);
      ReadsMore(p, url, q, Bytes(Url, url), stop, z, [Ended(Url)]);
    } else {
      ReadsThenFails(p, url, q, Bytes(Url, url), stop);
    }
  }

  lemma StopAt(p: Parser, url: string, stop: char, t: State)
    requires AtUrl(p, |url| + 1) && IsStop(stop) && Follows(p, url, t)
    ensures var o := Run(p, url + [stop]);
      if t != SDead && UrlMayEnd(t) then
        Reads(p, url + [stop], UrlDone(p.(nread := p.nread + |url| + 1), stop), Whole(Url, url))
      else o.end == Error && o.p.errno == InvalidUrl
  {
    if t == SDead {
      hide ByteStep, InUrl, UrlMayEnd, IsStop, UrlDone;
      RunSplit(p, url, [stop]);
    } else {
      hide Run, InUrl, UrlMayEnd, IsStop, UrlDone, Reads;
      StopLive(p, url, stop, t);
    }
  }

  lemma UrlThenStop(p: Parser, url: string, stop: char)
    requires AtUrl(p, |url| + 1) && url != "" && NoBreak(url) && IsStop(stop)
    ensures var o := Run(p, url + [stop]);
      if UrlEnds(p, url) then
        Reads(p, url + [stop], UrlDone(p.(nread := p.nread + |url| + 1), stop), Whole(Url, url))
      else o.end == Error && o.p.errno == InvalidUrl
  {
    UrlRun(p, url);
    hide Run, Follows, InUrl, UrlMayEnd, IsStop, UrlDone, U.UrlState, NoBreak, Whole, Reads;
    StopAt(p, url, stop, U.UrlState(UrlFrom(p), url));
  }

  lemma UrlDoneThere(p: Parser, t: State, n: nat, stop: char)
    ensures UrlDone(p.(state := t, nread := p.nread + n + 1), stop) == UrlDone(p.(nread := p.nread + n + 1), stop)
  {}

  /** The two users of parse_url_char agree: behind any spaces the parser hands a URL out, byte
      for byte and up to the space or line break that ends it, exactly if the character loop of
      http_parser_parse_url, told is_connect just for CONNECT, gets through it and it ends where
      a URL may end. */
  lemma UrlAgreement(p: Parser, gap: string, url: string, stop: char)
    requires AtUrl(p, |gap| + |url| + 1) && AreSpaces(gap) && url != "" && NoBreak(url) && IsStop(stop)
    ensures var text := gap + (url + [stop]); var o := Run(p, text);
      if UrlEnds(p, url) then Reads(p, text, UrlDone(p.(nread := p.nread + |text|), stop), Whole(Url, url))
      else o.end == Error && o.p.errno == InvalidUrl
  {
    hide Run, Reads, IsStop, UrlDone, UrlEnds, NoBreak, AreSpaces, Whole, U.UrlState;
    var q := p.(nread := p.nread + |gap|);
    SpacesRun(p, gap);
    UrlThenStop(q, url, stop);
    SameEnds(p, q, url);
    if UrlEnds(p, url) {
      DoneLater(p, gap, url + [stop], stop, Whole(Url, url));
    } else {
      FailsLater(p, gap, q, url + [stop]);
    }
  }

  lemma SameEnds(p: Parser, q: Parser, url: string)
    requires p.verb == q.verb
    ensures UrlEnds(p, url) == UrlEnds(q, url)
  {}

  lemma DoneLater(p: Parser, gap: string, rest: string, stop: char, t: seq<Event>)
    requires Reads(p, gap, p.(nread := p.nread + |gap|), [])
    requires Reads(p.(nread := p.nread + |gap|), rest, UrlDone(p.(nread := p.nread + |gap| + |rest|), stop), t)
    ensures Reads(p, gap + rest, UrlDone(p.(nread := p.nread + |gap + rest|), stop), t)
  {
    hide Reads, UrlDone;
    ReadsThen(p, gap, p.(nread := p.nread + |gap|), [], rest, UrlDone(p.(nread := p.nread + |gap| + |rest|), stop), t);
    assert [] + t == t;
  }

  lemma FailsLater(p: Parser, gap: string, q: Parser, rest: string)
    requires Reads(p, gap, q, []) && Run(q, rest).end == Error
    ensures Run(p, gap + rest).end == Error && Run(p, gap + rest).p == Run(q, rest).p
  {
    hide Run;
    RunSplit(p, gap, rest);
  }

  // ---- version and status numbers ----

  // The states that read on in a number
  predicate NumberState(s: State) {
    s == SReqHttpMajor || s == SReqHttpMinor || s == SResHttpMajor || s == SResHttpMinor || s == SResStatusCode
  }

  datatype Slot = Major | Minor | Status

  function SlotOf(s: State): Slot {
    if s == SReqHttpMajor || s == SResHttpMajor then Major
    else if s == SReqHttpMinor || s == SResHttpMinor then Minor else Status
  }

  function NumberIn(p: Parser): nat {
    match SlotOf(p.state) case Major => p.httpMajor case Minor => p.httpMinor case Status => p.statusCode
  }

  function Put(p: Parser, slot: Slot, n: nat): Parser {
    match slot case Major => p.(httpMajor := n) case Minor => p.(httpMinor := n) case Status => p.(statusCode := n)
  }

  function WithNumber(p: Parser, n: nat): Parser { Put(p, SlotOf(p.state), n) }

  // The state in which the number of s begins
  function NumberStart(s: State): State {
    match s
    case SReqHttpMajor => SReqFirstHttpMajor case SReqHttpMinor => SReqFirstHttpMinor
    case SResHttpMajor => SResFirstHttpMajor case SResHttpMinor => SResFirstHttpMinor
    case _ => SResFirstStatusCode
  }

  lemma FirstDigit(p: Parser, s: State, ch: char)
    requires NumberState(s) && p.state == NumberStart(s) && p.errno == OK && Room(p, 1)
    requires IsNum(ch) && (s == SReqHttpMajor ==> ch != '0')
    ensures Steps(p, ch, WithNumber(p.(state := s, nread := p.nread + 1), Digit(ch)), [])
  {
    var q := WithNumber(p.(state := s, nread := p.nread + 1), Digit(ch));
    FirstDigitArm(p, s, ch);
    hide Switch, WithNumber, NumberStart, Digit;
    StepsNext(p, ch, q, []);
  }

  lemma FirstDigitArm(p: Parser, s: State, ch: char)
    requires NumberState(s) && p.state == NumberStart(s) && IsNum(ch) && (s == SReqHttpMajor ==> ch != '0')
    ensures var q := WithNumber(p.(state := s, nread := p.nread + 1), Digit(ch));
      && ParsingHeader(p.state) && Switch(p.(nread := p.nread + 1), ch, 1) == Next(q, [])
      && Kept(q.state, ch) == [] && q.state == s
  {
    hide Digit;
    if s == SReqHttpMajor || s == SReqHttpMinor { FirstOfRequest(p, s, ch); } else { FirstOfResponse(p, s, ch); }
    hide Switch, NumberStart, WithNumber;
  }

  lemma FirstOfRequest(p: Parser, s: State, ch: char)
    requires (s == SReqHttpMajor && ch != '0') || s == SReqHttpMinor
    requires p.state == NumberStart(s) && IsNum(ch)
    ensures var q := WithNumber(p.(state := s, nread := p.nread + 1), Digit(ch));
      && ParsingHeader(p.state) && Switch(p.(nread := p.nread + 1), ch, 1) == Next(q, [])
      && Kept(q.state, ch) == [] && q.state == s
  {
    hide Digit, Switch;
    RequestVersionDispatch(p.(nread := p.nread + 1), ch);
  }

  lemma FirstOfResponse(p: Parser, s: State, ch: char)
    requires s == SResHttpMajor || s == SResHttpMinor || s == SResStatusCode
    requires p.state == NumberStart(s) && IsNum(ch)
    ensures var q := WithNumber(p.(state := s, nread := p.nread + 1), Digit(ch));
      && ParsingHeader(p.state) && Switch(p.(nread := p.nread + 1), ch, 1) == Next(q, [])
      && Kept(q.state, ch) == [] && q.state == s
  {
    hide Digit;
  }

  lemma MoreDigitArm(p: Parser, ch: char)
    requires NumberState(p.state) && IsNum(ch)
    ensures ParsingHeader(p.state) && OpenField(p.state) == None
    ensures var n := NumberIn(p) * 10 + Digit(ch); var c := p.(nread := p.nread + 1);
      Switch(c, ch, 1) == if n <= 999 then Next(WithNumber(c, n), [])
                          else Fail(WithNumber(c, n).(
                            errno := if p.state == SResStatusCode then InvalidStatus else InvalidVersion))
  {
    hide Digit;
  }

  lemma WithNumberKeeps(p: Parser, n: nat)
    ensures WithNumber(p, n).state == p.state && WithNumber(p, n).errno == p.errno && WithNumber(p, n).nread == p.nread
    ensures NumberState(p.state) ==> NumberIn(WithNumber(p, n)) == n
  {}

  lemma MoreDigitStep(p: Parser, ch: char)
    requires NumberState(p.state) && IsNum(ch) && p.errno == OK && Room(p, 1)
    ensures var n := NumberIn(p) * 10 + Digit(ch); var c := p.(nread := p.nread + 1);
      if n <= 999 then Steps(p, ch, WithNumber(c, n), []) else ByteStep(p, ch).end == Error
  {
    var n := NumberIn(p) * 10 + Digit(ch);
    var c := p.(nread := p.nread + 1);
    MoreDigitArm(p, ch);
    WithNumberKeeps(c, n);
    hide Switch, NumberState, NumberIn, WithNumber, OpenField;
    if n <= 999 { StepsNext(p, ch, WithNumber(c, n), []); }
  }

  predicate IsNumber(text: string) { text != "" && forall c | c in text :: IsNum(c) }

  lemma DecimalMore(front: string, ch: char)
    requires IsNumber(front + [ch])
    ensures (forall c | c in front :: IsNum(c)) && IsNum(ch)
    ensures U.Decimal(front + [ch]) == U.Decimal(front) * 10 + Digit(ch)
  {
    var text := front + [ch];
    assert ch in text && forall c | c in front :: c in text;
    var a := seq(|front|, i requires 0 <= i < |front| => assert front[i] in front; Digit(front[i]));
    var b := seq(|text|, i requires 0 <= i < |text| => assert text[i] in text; Digit(text[i]));
    assert b == a + [Digit(ch)];
    assert b[..|b| - 1] == a;
  }

  // After the digits of text, whose value is at most 999
  function Numbered(p: Parser, s: State, text: string): Parser
    requires IsNumber(text)
  {
    WithNumber(p.(state := s, nread := p.nread + |text|), U.Decimal(text))
  }

  lemma NumberMore(p: Parser, s: State, front: string, ch: char)
    requires NumberState(s) && p.errno == OK && Room(p, |front| + 1) && IsNumber(front) && IsNumber(front + [ch])
    requires U.Decimal(front) <= 999
    ensures var q := Numbered(p, s, front);
      if U.Decimal(front + [ch]) <= 999 then Steps(q, ch, Numbered(p, s, front + [ch]), [])
      else ByteStep(q, ch).end == Error
  {
    hide ByteStep, NumberState, Put, SlotOf, NumberIn, U.Decimal;
    var p0 := p.(state := s, nread := p.nread + |front|);
    DecimalMore(front, ch);
    WithNumberKeeps(p0, U.Decimal(front));
    MoreDigitStep(WithNumber(p0, U.Decimal(front)), ch);
    PutTwice(p0, SlotOf(s), U.Decimal(front), U.Decimal(front + [ch]));
  }

  /** A version or status number is read as its decimal value if that is at most 999, and
      refused otherwise. */
  lemma {:induction false} NumberRun(p: Parser, s: State, text: string)
    requires NumberState(s) && p.state == NumberStart(s) && p.errno == OK && Room(p, |text|)
    requires IsNumber(text) && (s == SReqHttpMajor ==> text[0] != '0')
    ensures if U.Decimal(text) <= 999 then Reads(p, text, Numbered(p, s, text), []) else Run(p, text).end == Error
    decreases |text|
  {
    hide Run, ByteStep, NumberState, NumberStart, U.Decimal, Put, SlotOf;
    var front, ch := text[..|text| - 1], text[|text| - 1];
    assert text == front + [ch];
    DecimalMore(front, ch);
    if front == "" {
      NoDecimal();
      assert text == [ch];
      FirstDigit(p, s, ch);
      ReadsByte(p, ch, Numbered(p, s, text), []);
    } else {
      NumberRun(p, s, front);
      hide Numbered;
      if U.Decimal(front) <= 999 {
        NumberMore(p, s, front, ch);
        if U.Decimal(text) <= 999 {
          ReadsMore(p, front, Numbered(p, s, front), [], ch, Numbered(p, s, text), []);
        } else {
          ReadsThenFails(p, front, Numbered(p, s, front), [], ch);
        }
      } else {
        RunSplit(p, front, [ch]);
      }
    }
  }

  lemma NoDecimal()
    ensures U.Decimal("") == 0
  {}

  lemma PutTwice(p: Parser, slot: Slot, m: nat, n: nat)
    ensures var q := Put(p, slot, m); Put(q.(nread := q.nread + 1), slot, n) == Put(p.(nread := p.nread + 1), slot, n)
  {}

  // ---- the fixed words ----

  // One character of "HTTP/", a dot, a blank or the line end, from state to state
  predicate MovesRequest(s: State, ch: char, t: State) {
    || (s == SReqHttpStart && ch == ' ' && t == SReqHttpStart)
    || (s == SReqHttpStart && ch == 'H' && t == SReqHttpH)
    || (s == SReqHttpH && ch == 'T' && t == SReqHttpHT)
    || (s == SReqHttpHT && ch == 'T' && t == SReqHttpHTT)
    || (s == SReqHttpHTT && ch == 'P' && t == SReqHttpHTTP)
    || (s == SReqHttpHTTP && ch == '/' && t == SReqFirstHttpMajor)
    || (s == SReqHttpMajor && ch == '.' && t == SReqFirstHttpMinor)
    || (s == SReqHttpMinor && ch == CR && t == SReqLineAlmostDone)
    || (s == SReqHttpMinor && ch == LF && t == SHeaderFieldStart)
    || (s == SReqLineAlmostDone && ch == LF && t == SHeaderFieldStart)
  }

  predicate MovesResponse(s: State, ch: char, t: State) {
    || (s == SResH && ch == 'T' && t == SResHT)
    || (s == SResHT && ch == 'T' && t == SResHTT)
    || (s == SResHTT && ch == 'P' && t == SResHTTP)
    || (s == SResHTTP && ch == '/' && t == SResFirstHttpMajor)
    || (s == SResHttpMajor && ch == '.' && t == SResFirstHttpMinor)
    || (s == SResHttpMinor && ch == ' ' && t == SResFirstStatusCode)
    || (s == SResFirstStatusCode && ch == ' ' && t == SResFirstStatusCode)
    || (s == SResStatusCode && ch == ' ' && t == SResStatus)
    || (s == SResStatusCode && ch == CR && t == SResLineAlmostDone)
    || (s == SResStatusCode && ch == LF && t == SHeaderFieldStart)
    || (s == SResStatus && ch != CR && ch != LF && t == SResStatus)
    || (s == SResStatus && ch == CR && t == SResLineAlmostDone)
    || (s == SResStatus && ch == LF && t == SHeaderFieldStart)
  }

  predicate Moves(s: State, ch: char, t: State) { MovesRequest(s, ch, t) || MovesResponse(s, ch, t) }

  lemma MoveRequestArm(p: Parser, ch: char, t: State)
    requires MovesRequest(p.state, ch, t)
    ensures Switch(p, ch, 1) == Next(p.(state := t), [])
  {
    hide ThreeDigits, IsNum, Switch;
    RequestVersionDispatch(p, ch);
  }

  lemma MoveResponseArm(p: Parser, ch: char, t: State)
    requires MovesResponse(p.state, ch, t)
    ensures Switch(p, ch, 1) == Next(p.(state := t), [])
  {
    hide ThreeDigits, Switch;
    StatusLineDispatch(p, ch);
  }

  lemma MoveStates(s: State, ch: char, t: State)
    ensures MovesRequest(s, ch, t) ==> ParsingHeader(s) && OpenField(t) == None
  {}

  lemma MoveStatesBack(s: State, ch: char, t: State)
    ensures MovesResponse(s, ch, t) ==> ParsingHeader(s) && OpenField(t) == None
  {}

  lemma MoveStep(p: Parser, ch: char, t: State)
    requires Moves(p.state, ch, t) && p.errno == OK && Room(p, 1)
    ensures Steps(p, ch, p.(state := t, nread := p.nread + 1), [])
  {
    hide Switch, MovesRequest, MovesResponse, OpenField;
    var c := p.(nread := p.nread + 1);
    MoveStates(p.state, ch, t);
    MoveStatesBack(p.state, ch, t);
    if MovesRequest(p.state, ch, t) { MoveRequestArm(c, ch, t); } else { MoveResponseArm(c, ch, t); }
    StepsNext(p, ch, p.(state := t, nread := p.nread + 1), []);
  }

  // The states passed one after the other while w is read
  predicate Walks(w: string, path: seq<State>) {
    |path| == |w| + 1 && forall i | 0 <= i < |w| :: Moves(path[i], w[i], path[i + 1])
  }

  lemma {:induction false} WalkRun(p: Parser, w: string, path: seq<State>)
    requires p.errno == OK && Room(p, |w|) && Walks(w, path) && path[0] == p.state
    ensures Reads(p, w, p.(state := path[|w|], nread := p.nread + |w|), [])
    decreases |w|
  {
    hide Run, ByteStep, Moves;
    if w == "" {
      ReadsNothing(p);
    } else {
      var n := |w| - 1;
      var front, ch := w[..n], w[n];
      assert w == front + [ch];
      WalkRun(p, front, path[..n + 1]);
      var q := p.(state := path[n], nread := p.nread + n);
      MoveStep(q, ch, path[n + 1]);
      ReadsMore(p, front, q, [], ch, p.(state := path[n + 1], nread := p.nread + |w|), []);
    }
  }

  lemma RequestWalks()
    ensures Walks("HTTP/", [SReqHttpStart, SReqHttpH, SReqHttpHT, SReqHttpHTT, SReqHttpHTTP, SReqFirstHttpMajor])
    ensures Walks(".", [SReqHttpMajor, SReqFirstHttpMinor])
    ensures Walks([CR, LF], [SReqHttpMinor, SReqLineAlmostDone, SHeaderFieldStart])
    ensures Walks([LF], [SReqHttpMinor, SHeaderFieldStart])
    ensures Walks([LF], [SReqLineAlmostDone, SHeaderFieldStart])
  {}

  // Spaces before the version of a request line, or before a status code
  lemma SpaceWalks(gap: string, s: State)
    requires AreSpaces(gap) && (s == SReqHttpStart || s == SResFirstStatusCode)
    ensures Walks(gap, seq(|gap| + 1, _ => s))
  {
    SpaceMoves();
  }

  lemma SpaceMoves()
    ensures Moves(SReqHttpStart, ' ', SReqHttpStart) && Moves(SResFirstStatusCode, ' ', SResFirstStatusCode)
  {}

  lemma ResponseWalks()
    ensures Walks("TTP/", [SResH, SResHT, SResHTT, SResHTTP, SResFirstHttpMajor])
    ensures Walks(".", [SResHttpMajor, SResFirstHttpMinor])
    ensures Walks(" ", [SResHttpMinor, SResFirstStatusCode])
    ensures Walks(" ", [SResStatusCode, SResStatus])
    ensures Walks([CR], [SResStatus, SResLineAlmostDone])
    ensures Walks([LF], [SResStatus, SHeaderFieldStart])
    ensures Walks([CR], [SResStatusCode, SResLineAlmostDone])
    ensures Walks([LF], [SResStatusCode, SHeaderFieldStart])
  {}
}
