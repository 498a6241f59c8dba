/** Responses: status lines in every form the parser accepts, whole responses, and one response
    after another on a connection. */
module HttpResponses {
  import opened Wrappers
  import opened HttpTypes
  import opened HttpSwitch
  import opened HttpRun
  import opened HttpMarks
  import opened HttpReading
  import opened HttpNames
  import opened HttpValues
  import opened HttpHeaders
  import opened HttpParser
  import opened HttpBodies
  import opened HttpLines
  import opened HttpMessages
  import opened HttpRequests
  import U = HttpUrl

  // ---- status lines ----

  // Line breaks may come before it; the reason and its space may be missing
  datatype StatusLine =
    StatusLine(lead: string, major: string, minor: string, gap: string, code: string, reason: Option<string>,
               end: LineBreak)

  function ReasonText(s: StatusLine): string {
    match s.reason
    case None => BreakText(s.end)
    case Some(r) => " " + (r + BreakText(s.end))
  }

  function NumbersText(s: StatusLine): string {
    ((s.major + ".") + (s.minor + " ")) + (s.gap + (s.code + ReasonText(s)))
  }

  function StatusText(s: StatusLine): string { s.lead + ("H" + ("TTP/" + NumbersText(s))) }

  predicate NoLineBreak(r: string) { forall c | c in r :: c != CR && c != LF }

  predicate IsStatusLine(s: StatusLine) {
    && (forall i :: 0 <= i < |s.lead| ==> s.lead[i] == CR || s.lead[i] == LF) && AreSpaces(s.gap)
    && IsVersion(s.major, s.minor) && IsNumber(s.code) && U.Decimal(s.code) <= 999
    && (s.reason.Some? ==> NoLineBreak(s.reason.value))
  }

  // status_complete is told only where the line ends with CR LF
  function StatusTold(e: LineBreak): seq<Event> { if e.CrLf? then [Told(StatusComplete)] else [] }

  lemma ReasonRun(p: Parser, reason: string)
    requires p.state == SResStatus && p.errno == OK && Room(p, |reason|) && NoLineBreak(reason)
    ensures Reads(p, reason, p.(nread := p.nread + |reason|), [])
  {
    var path := seq(|reason| + 1, _ => SResStatus);
    forall i | 0 <= i < |reason| ensures Moves(path[i], reason[i], path[i + 1]) { assert reason[i] in reason; }
    hide Moves;
    WalkRun(p, reason, path);
  }

  lemma StatusLfArm(p: Parser)
    requires p.state == SResLineAlmostDone && p.errno == OK && Room(p, 1)
    ensures Steps(p, LF, p.(state := SHeaderFieldStart, nread := p.nread + 1), [Told(StatusComplete)])
  {
    hide Switch, ThreeDigits;
    StatusLineDispatch(p.(nread := p.nread + 1), LF);
    StepsNext(p, LF, p.(state := SHeaderFieldStart, nread := p.nread + 1), [Notify(StatusComplete)]);
    assert Notes([Notify(StatusComplete)]) == [Told(StatusComplete)];
  }

  // The end of the line, in any of the states it may come in
  lemma EndRun(p: Parser, e: LineBreak)
    requires (p.state == SResStatus || p.state == SResStatusCode) && p.errno == OK && Room(p, |BreakText(e)|)
    ensures Reads(p, BreakText(e), p.(state := SHeaderFieldStart, nread := p.nread + |BreakText(e)|), StatusTold(e))
  {
    hide Run, ByteStep, Moves;
    ResponseWalks();
    if e.CrLf? {
      var a := p.(state := SResLineAlmostDone, nread := p.nread + 1);
      var b := a.(state := SHeaderFieldStart, nread := a.nread + 1);
      WalkRun(p, [CR], [p.state, SResLineAlmostDone]);
      StatusLfArm(a);
      ReadsMore(p, [CR], a, [], LF, b, [Told(StatusComplete)]);
      assert [CR] + [LF] == [CR, LF];
      assert [] + [Told(StatusComplete)] == [Told(StatusComplete)];
    } else {
      WalkRun(p, [LF], [p.state, SHeaderFieldStart]);
    }
  }

  lemma StatusStart(p: Parser)
    requires p.state == SStartRes && p.errno == OK && Room(p, 1)
    ensures Steps(p, 'H', p.(flags := NO_FLAGS, contentLength := ULLONG_MAX, state := SResH, nread := p.nread + 1),
                  [Told(MessageBegin)])
  {
    hide Switch;
    StartDispatch(p.(nread := p.nread + 1), 'H');
    StepsNext(p, 'H', p.(flags := NO_FLAGS, contentLength := ULLONG_MAX, state := SResH, nread := p.nread + 1),
              [Notify(MessageBegin)]);
    assert Notes([Notify(MessageBegin)]) == [Told(MessageBegin)];
  }

  // The code, and whatever stands behind it
  lemma CodeRun(p: Parser, s: StatusLine)
    requires p.state == SResFirstStatusCode && p.errno == OK && Room(p, |s.code| + |ReasonText(s)|) && IsStatusLine(s)
    ensures Reads(p, s.code + ReasonText(s),
                  p.(state := SHeaderFieldStart, nread := p.nread + |s.code| + |ReasonText(s)|,
                     statusCode := U.Decimal(s.code)),
                  StatusTold(s.end))
  {
    hide Run, U.Decimal, IsNumber, Reads, Walks, Numbered, BreakText, StatusTold, IsVersion, AreSpaces;
    NumberedIs(p, SResStatusCode, s.code);
    var e := BreakText(s.end);
    var a := Numbered(p, SResStatusCode, s.code);
    match s.reason
    case None =>
      NumberAlone(p, s.code);
      EndRun(a, s.end);
      ReadsThen(p, s.code, a, [], e, a.(state := SHeaderFieldStart, nread := a.nread + |e|), StatusTold(s.end));
      assert [] + StatusTold(s.end) == StatusTold(s.end);
    case Some(r) => ReasonedRun(p, s);
  }

  lemma ReasonAndEnd(b: Parser, r: string, e: LineBreak)
    requires b.state == SResStatus && b.errno == OK && Room(b, |r| + |BreakText(e)|) && NoLineBreak(r)
    ensures var w := r + BreakText(e);
            Reads(b, w, b.(state := SHeaderFieldStart, nread := b.nread + |w|), StatusTold(e))
  {
    hide Run, Reads, StatusTold, BreakText;
    var c := b.(nread := b.nread + |r|);
    ReasonRun(b, r);
    EndRun(c, e);
    ReadsThen(b, r, c, [], BreakText(e), c.(state := SHeaderFieldStart, nread := c.nread + |BreakText(e)|),
              StatusTold(e));
    assert [] + StatusTold(e) == StatusTold(e);
  }

  lemma CodeThenSpace(p: Parser, code: string)
    requires p.state == SResFirstStatusCode && p.errno == OK && Room(p, |code| + 1)
    requires IsNumber(code) && U.Decimal(code) <= 999
    ensures Reads(p, code + " ",
                  p.(state := SResStatus, nread := p.nread + |code| + 1, statusCode := U.Decimal(code)), [])
  {
    hide Run, U.Decimal, IsNumber, Reads, Walks, Numbered;
    NumberedIs(p, SResStatusCode, code);
    ResponseWalks();
    NumberThen(p, SResStatusCode, code, " ", [SResStatusCode, SResStatus]);
  }

  // With a reason
  lemma ReasonedRun(p: Parser, s: StatusLine)
    requires p.state == SResFirstStatusCode && p.errno == OK && Room(p, |s.code| + |ReasonText(s)|) && IsStatusLine(s)
    requires s.reason.Some?
    ensures Reads(p, s.code + ReasonText(s),
                  p.(state := SHeaderFieldStart, nread := p.nread + |s.code| + |ReasonText(s)|,
                     statusCode := U.Decimal(s.code)),
                  StatusTold(s.end))
  {
    hide Run, U.Decimal, Reads, Walks, Numbered, BreakText, StatusTold, IsVersion, AreSpaces;
    var b := p.(state := SResStatus, nread := p.nread + |s.code| + 1, statusCode := U.Decimal(s.code));
    var rest := s.reason.value + BreakText(s.end);
    CodeThenSpace(p, s.code);
    ReasonAndEnd(b, s.reason.value, s.end);
    ReadsThen(p, s.code + " ", b, [], rest, b.(state := SHeaderFieldStart, nread := b.nread + |rest|),
              StatusTold(s.end));
    assert [] + StatusTold(s.end) == StatusTold(s.end);
    assert s.code + " " + rest == s.code + ReasonText(s);
  }

  lemma NumberAlone(p: Parser, code: string)
    requires p.state == SResFirstStatusCode && p.errno == OK && Room(p, |code|) && IsNumber(code)
             && U.Decimal(code) <= 999
    ensures Reads(p, code, Numbered(p, SResStatusCode, code), [])
            && Numbered(p, SResStatusCode, code).state == SResStatusCode
  {
    hide Run, U.Decimal;
    NumberRun(p, SResStatusCode, code);
  }

  // From the version number on
  lemma NumbersRun(p: Parser, s: StatusLine)
    requires p.state == SResFirstHttpMajor && p.errno == OK && IsStatusLine(s) && Room(p, |NumbersText(s)|)
    ensures Reads(p, NumbersText(s),
                  p.(state := SHeaderFieldStart, nread := p.nread + |NumbersText(s)|,
                     httpMajor := U.Decimal(s.major), httpMinor := U.Decimal(s.minor), statusCode := U.Decimal(s.code)),
                  StatusTold(s.end))
  {
    hide Run, U.Decimal, IsNum, Reads, Walks, StatusTold, ReasonText;
    ResponseWalks();
    TwoNumbers(p, s.major, s.minor, " ", [SResHttpMinor, SResFirstStatusCode], false);
    var b := p.(state := SResFirstStatusCode, nread := p.nread + |s.major| + 1 + |s.minor| + 1,
                httpMajor := U.Decimal(s.major), httpMinor := U.Decimal(s.minor));
    var c := b.(nread := b.nread + |s.gap|);
    SpaceWalks(s.gap, SResFirstStatusCode);
    WalkRun(b, s.gap, seq(|s.gap| + 1, _ => SResFirstStatusCode));
    CodeRun(c, s);
    var d := c.(state := SHeaderFieldStart, nread := c.nread + |s.code| + |ReasonText(s)|,
                statusCode := U.Decimal(s.code));
    ReadsThen(b, s.gap, c, [], s.code + ReasonText(s), d, StatusTold(s.end));
    ReadsThen(p, (s.major + ".") + (s.minor + " "), b, [], s.gap + (s.code + ReasonText(s)), d, [] + StatusTold(s.end));
    assert [] + ([] + StatusTold(s.end)) == StatusTold(s.end);
  }

  function Begins(n: nat): seq<Event> { seq(n, _ => Told(MessageBegin)) }

  lemma BlankStart(p: Parser, ch: char)
    requires p.state == SStartRes && p.errno == OK && Room(p, 1) && (ch == CR || ch == LF)
    ensures Steps(p, ch, p.(flags := NO_FLAGS, contentLength := ULLONG_MAX, nread := p.nread + 1), [Told(MessageBegin)])
  {}

  lemma OneMoreBegins(n: nat)
    ensures Begins(n) + [Told(MessageBegin)] == Begins(n + 1)
  {}

  /** Expecting a response, the parser announces a message at every leading line break, besides
      the one that comes: message_begin is told once exactly if there is none. */
  lemma {:induction false} BlankLinesBegin(p: Parser, w: string)
    requires p.state == SStartRes && p.errno == OK && Room(p, |w|)
    requires forall i :: 0 <= i < |w| ==> w[i] == CR || w[i] == LF
    ensures Reads(p, w,
                  if w == "" then p else p.(flags := NO_FLAGS, contentLength := ULLONG_MAX, nread := p.nread + |w|),
                  Begins(|w|))
  {
    hide Run, ByteStep;
    if w == "" {
      ReadsNothing(p);
      assert Begins(0) == [];
    } else {
      var front, ch := w[..|w| - 1], w[|w| - 1];
      var q := if front == "" then p
               else p.(flags := NO_FLAGS, contentLength := ULLONG_MAX, nread := p.nread + |front|);
      var r := p.(flags := NO_FLAGS, contentLength := ULLONG_MAX, nread := p.nread + |w|);
      BlankLinesBegin(p, front);
      BlankStart(q, ch);
      hide Reads, Steps, Begins;
      assert front + [ch] == w;
      ReadsMore(p, front, q, Begins(|front|), ch, r, [Told(MessageBegin)]);
      OneMoreBegins(|front|);
    }
  }

  // The parser after a status line
  function AfterStatusLine(p: Parser, s: StatusLine): Parser
    requires IsStatusLine(s)
  {
    p.(flags := NO_FLAGS, contentLength := ULLONG_MAX, state := SHeaderFieldStart, nread := p.nread + |StatusText(s)|,
       httpMajor := U.Decimal(s.major), httpMinor := U.Decimal(s.minor), statusCode := U.Decimal(s.code))
  }

  function StatusEvents(s: StatusLine): seq<Event> { Begins(|s.lead| + 1) + StatusTold(s.end) }

  /** A status line, whatever its spaces and its end, with or without a reason: the version and the
      status code are the numbers written. */
  lemma StatusLineRun(p: Parser, s: StatusLine)
    requires p.state == SStartRes && p.errno == OK && Room(p, |StatusText(s)|) && IsStatusLine(s)
    ensures Reads(p, StatusText(s), AfterStatusLine(p, s), StatusEvents(s))
  {
    hide Run, ByteStep, U.Decimal, IsNum, Reads, Walks, NumbersText, StatusTold;
    BlankLinesBegin(p, s.lead);
    var l := if s.lead == "" then p
             else p.(flags := NO_FLAGS, contentLength := ULLONG_MAX, nread := p.nread + |s.lead|);
    StatusFrom(l, s);
    var h := "H" + ("TTP/" + NumbersText(s));
    ReadsThen(p, s.lead, l, Begins(|s.lead|), h, AfterStatusLine(p, s), [Told(MessageBegin)] + StatusTold(s.end));
    assert Begins(|s.lead|) + [Told(MessageBegin)] == Begins(|s.lead| + 1);
    assert Begins(|s.lead|) + ([Told(MessageBegin)] + StatusTold(s.end)) == StatusEvents(s);
  }

  // From its first letter on
  lemma StatusFrom(p: Parser, s: StatusLine)
    requires p.state == SStartRes && p.errno == OK && IsStatusLine(s) && Room(p, |NumbersText(s)| + 5)
    ensures Reads(p, "H" + ("TTP/" + NumbersText(s)),
                  p.(flags := NO_FLAGS, contentLength := ULLONG_MAX, state := SHeaderFieldStart,
                     nread := p.nread + |NumbersText(s)| + 5,
                     httpMajor := U.Decimal(s.major), httpMinor := U.Decimal(s.minor), statusCode := U.Decimal(s.code)),
                  [Told(MessageBegin)] + StatusTold(s.end))
  {
    hide Run, ByteStep, U.Decimal, IsNum, Reads, Walks, NumbersText, StatusTold;
    ResponseWalks();
    var a := p.(flags := NO_FLAGS, contentLength := ULLONG_MAX, state := SResH, nread := p.nread + 1);
    StatusStart(p);
    ReadsByte(p, 'H', a, [Told(MessageBegin)]);
    var b := a.(state := SResFirstHttpMajor, nread := a.nread + 4);
    WalkRun(a, "TTP/", [SResH, SResHT, SResHTT, SResHTTP, SResFirstHttpMajor]);
    NumbersRun(b, s);
    var text := NumbersText(s);
    var d := b.(state := SHeaderFieldStart, nread := b.nread + |text|,
                httpMajor := U.Decimal(s.major), httpMinor := U.Decimal(s.minor), statusCode := U.Decimal(s.code));
    ReadsThen(a, "TTP/", b, [], text, d, StatusTold(s.end));
    ReadsThen(p, "H", a, [Told(MessageBegin)], "TTP/" + text, d, [] + StatusTold(s.end));
    assert [Told(MessageBegin)] + ([] + StatusTold(s.end)) == [Told(MessageBegin)] + StatusTold(s.end);
  }

  // ---- whole responses ----

  datatype Response = Response(line: StatusLine, headers: Block, content: Content)

  function ResponseText(r: Response): string { StatusText(r.line) + (BlockText(r.headers) + ContentText(r.content)) }

  function ResponseEvents(r: Response): seq<Event> {
    StatusEvents(r.line) + (BlockEvents(r.headers) + ContentEvents(r.content))
  }

  // A response parser between messages
  predicate Awaiting(p: Parser) {
    p.state == SStartRes && p.errno == OK && p.kind == ParserType.Response && p.verb != CONNECT && !p.upgrade
  }

  predicate HasStatus(p: Parser, line: StatusLine, b: Block) {
    && IsStatusLine(line) && AllWellFormed(b.lines) && Room(p, |StatusText(line)| + |BlockText(b)|)
  }

  function PlanOfResponse(p: Parser, line: StatusLine, b: Block): Plan
    requires HasStatus(p, line, b)
  {
    PlanAfter(AfterStatusLine(p, line), b)
  }

  predicate IsResponse(p: Parser, r: Response) {
    HasStatus(p, r.line, r.headers) && Fitting(PlanOfResponse(p, r.line, r.headers), r.content)
  }

  predicate KeepsOpen(r: Response)
    requires IsStatusLine(r.line)
  {
    Stays(U.Decimal(r.line.major), U.Decimal(r.line.minor), FinalFlags(r.headers, r.content))
  }

  /** A whole response, its body absent, of a known length or chunked: everything is handed out as
      it was written, and the parser awaits the next one, or is dead if the connection ends. */
  lemma ResponseRun(p: Parser, r: Response) returns (q: Parser)
    requires Awaiting(p) && IsResponse(p, r)
    ensures Reads(p, ResponseText(r), q, ResponseEvents(r))
    ensures if KeepsOpen(r) then Awaiting(q) && q.nread == Carried(r.content) && q.answer == p.answer
            else q.state == SDead
  {
    hide Run, Lines, AllWellFormed, ContentLengthAfter, HeaderEvents, Bytes, Reads, StatusText, BlockText, NewMessage,
      PlanAfter, ContentText, ContentEvents, FinalFlags, Carried, NeedsEof, Fitting, StatusEvents, U.Decimal,
      IsStatusLine;
    StatusLineRun(p, r.line);
    var a := AfterStatusLine(p, r.line);
    q := RestOfMessage(a, r.headers, r.content);
    ReadsThen(p, StatusText(r.line), a, StatusEvents(r.line),
              BlockText(r.headers) + ContentText(r.content), q, BlockEvents(r.headers) + ContentEvents(r.content));
    NextState(q);
  }

  /** A response whose body lasts as long as the connection. */
  lemma ResponseUntilEof(p: Parser, line: StatusLine, b: Block, data: string) returns (q: Parser)
    requires Awaiting(p) && HasStatus(p, line, b) && PlanOfResponse(p, line, b) == UntilEof
    ensures Reads(p, StatusText(line) + (BlockText(b) + data), q,
                  StatusEvents(line) + (BlockEvents(b) + Bytes(Body, data)))
    ensures Eof(q) == Outcome(Ready, q, [Told(MessageComplete)], 0)
  {
    hide Run, Lines, AllWellFormed, ContentLengthAfter, HeaderEvents, Bytes, Reads, StatusText, BlockText, Eof,
      PlanAfter, StatusEvents, U.Decimal, IsStatusLine;
    StatusLineRun(p, line);
    var a := AfterStatusLine(p, line);
    q := RestUntilEof(a, b, data);
    ReadsThen(p, StatusText(line), a, StatusEvents(line), BlockText(b) + data, q, BlockEvents(b) + Bytes(Body, data));
  }

  // ---- one response after another ----

  predicate Succession(p: Parser, rs: seq<Response>)
    decreases |rs|
  {
    rs != [] ==>
      && IsResponse(p, rs[0])
      && (|rs| > 1 ==> KeepsOpen(rs[0]))
      && Succession(Carrying(p, Carried(rs[0].content)), rs[1..])
  }

  function ResponseTexts(rs: seq<Response>): string {
    if rs == [] then "" else ResponseText(rs[0]) + ResponseTexts(rs[1..])
  }

  function EventsOfAll(rs: seq<Response>): seq<Event> {
    if rs == [] then [] else ResponseEvents(rs[0]) + EventsOfAll(rs[1..])
  }

  predicate SameReader(p: Parser, q: Parser) {
    p.nread == q.nread && p.answer == q.answer && p.kind == q.kind && p.verb != CONNECT && q.verb != CONNECT
  }

  lemma SameResponseFit(p: Parser, q: Parser, r: Response)
    requires SameReader(p, q) && IsResponse(p, r)
    ensures IsResponse(q, r)
  {
    hide IsStatusLine, StatusText, BlockText, AllWellFormed, FlagsAfter, ContentLengthAfter, Fitting, U.Decimal;
    var a, b := AfterStatusLine(p, r.line), AfterStatusLine(q, r.line);
    var f, n := FlagsAfter(NO_FLAGS, r.headers.lines), ContentLengthAfter(ULLONG_MAX, r.headers.lines);
    SameResponsePlan(a.(flags := f, contentLength := n), b.(flags := f, contentLength := n));
  }

  lemma SameResponsePlan(a: Parser, b: Parser)
    requires a.verb != CONNECT && b.verb != CONNECT && a.kind == b.kind && a.answer == b.answer
    requires a.flags == b.flags && a.contentLength == b.contentLength && a.statusCode == b.statusCode
    ensures PlanOf(a) == PlanOf(b)
  {}

  lemma {:induction false} SameSuccession(p: Parser, q: Parser, rs: seq<Response>)
    requires SameReader(p, q) && Succession(p, rs)
    ensures Succession(q, rs)
    decreases |rs|
  {
    hide IsResponse, KeepsOpen, IsStatusLine;
    if rs != [] {
      SameResponseFit(p, q, rs[0]);
      LineKnown(p, rs[0]);
      SameSuccession(Carrying(p, Carried(rs[0].content)), Carrying(q, Carried(rs[0].content)), rs[1..]);
    }
  }

  lemma LineKnown(p: Parser, r: Response)
    requires IsResponse(p, r)
    ensures IsStatusLine(r.line)
  {}

  lemma {:induction false} SuccessionRun(p: Parser, rs: seq<Response>)
    requires Awaiting(p) && Succession(p, rs)
    ensures var o := Run(p, ResponseTexts(rs));
            o.end == Ready && o.trace == EventsOfAll(rs) && o.used == |ResponseTexts(rs)|
    decreases |rs|
  {
    hide Run, IsResponse, KeepsOpen, IsStatusLine, ResponseEvents, ResponseText, Carried;
    if rs == [] {
      ReadsNothing(p);
    } else {
      var r, rest := rs[0], rs[1..];
      LineKnown(p, r);
      var q := ResponseRun(p, r);
      if rest == [] {
        assert ResponseTexts(rest) == "" && EventsOfAll(rest) == [];
        assert ResponseText(r) + "" == ResponseText(r) && ResponseEvents(r) + [] == ResponseEvents(r);
      } else {
        SameSuccession(Carrying(p, Carried(r.content)), q, rest);
        SuccessionRun(q, rest);
        RunSplit(p, ResponseText(r), ResponseTexts(rest));
      }
    }
  }
}
