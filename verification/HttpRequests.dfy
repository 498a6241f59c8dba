/** Requests, in every form of line the parser accepts: what a client writes is what the
    callbacks say, one request after another. */
module HttpRequests {
  import opened HttpTypes
  import opened HttpSwitch
  import opened HttpRun
  import opened HttpMarks
  import opened HttpReading
  import opened HttpMethods
  import opened HttpNames
  import opened HttpValues
  import opened HttpHeaders
  import opened HttpParser
  import opened HttpBodies
  import opened HttpLines
  import opened HttpMessages
  import U = HttpUrl

  // Without a version a request counts as one of HTTP/0.9
  datatype Version = Missing(end: LineBreak) | Stated(gap: string, major: string, minor: string, end: LineBreak)

  // Line breaks before the line, and spaces besides the one that is due, are skipped
  datatype RequestLine = RequestLine(lead: string, verb: Method, gap: string, url: string, version: Version)

  // The byte that ends the URL, and what follows it
  function VersionText(v: Version): (s: string)
    ensures s != "" && (s[0] == ' ' || s[0] == CR || s[0] == LF)
  {
    if v.Missing? then BreakText(v.end)
    else " " + (v.gap + ("HTTP/" + ((v.major + ".") + (v.minor + BreakText(v.end)))))
  }

  function LineText(r: RequestLine): string {
    r.lead + ((NameOf(r.verb) + " ") + (r.gap + (r.url + VersionText(r.version))))
  }

  predicate IsVersion(major: string, minor: string) {
    IsNumber(major) && IsNumber(minor) && U.Decimal(major) <= 999 && U.Decimal(minor) <= 999
  }

  predicate VersionOk(v: Version) {
    v.Stated? ==> AreSpaces(v.gap) && IsVersion(v.major, v.minor) && v.major[0] != '0'
  }

  function MajorOf(v: Version): nat
    requires VersionOk(v)
  { if v.Missing? then 0 else U.Decimal(v.major) }

  function MinorOf(v: Version): nat
    requires VersionOk(v)
  { if v.Missing? then 9 else U.Decimal(v.minor) }

  // A URL that parse_url_char gets through, a version below 1000
  predicate IsRequestLine(r: RequestLine) {
    && (forall c | c in r.lead :: IsCrLf(c)) && AreSpaces(r.gap)
    && r.url != "" && NoBreak(r.url) && UrlMayEnd(U.UrlState(U.UrlStart(r.verb == CONNECT), r.url))
    && VersionOk(r.version)
  }

  // One number and the fixed text behind it
  lemma NumberThen(p: Parser, s: State, number: string, w: string, path: seq<State>)
    requires NumberState(s) && p.state == NumberStart(s) && p.errno == OK && Room(p, |number| + |w|)
    requires IsNumber(number) && U.Decimal(number) <= 999 && (s == SReqHttpMajor ==> number[0] != '0')
    requires Walks(w, path) && path[0] == s
    ensures Reads(p, number + w, Numbered(p, s, number).(state := path[|w|], nread := p.nread + |number| + |w|), [])
  {
    hide Run, U.Decimal, Moves, NumberState, NumberStart, Put, SlotOf;
    NumberRun(p, s, number);
    var q := Numbered(p, s, number);
    WithNumberKeeps(p.(state := s, nread := p.nread + |number|), U.Decimal(number));
    WalkRun(q, w, path);
    ReadsThen(p, number, q, [], w, q.(state := path[|w|], nread := q.nread + |w|), []);
  }

  const NO_EVENTS: seq<Event> := []

  lemma NothingMore()
    ensures NO_EVENTS + NO_EVENTS == NO_EVENTS
  {}

  lemma NumberedIs(p: Parser, s: State, text: string)
    requires IsNumber(text)
    ensures var n := U.Decimal(text); var q := p.(state := s, nread := p.nread + |text|);
      Numbered(p, s, text) == match SlotOf(s)
        case Major => q.(httpMajor := n) case Minor => q.(httpMinor := n) case Status => q.(statusCode := n)
  {
    hide U.Decimal;
  }

  lemma MajorRun(p: Parser, major: string, isRequest: bool)
    requires p.state == NumberStart(if isRequest then SReqHttpMajor else SResHttpMajor)
    requires p.errno == OK && Room(p, |major| + 1)
    requires IsNumber(major) && U.Decimal(major) <= 999 && (isRequest ==> major[0] != '0')
    ensures Reads(p, major + ".",
                  p.(state := NumberStart(if isRequest then SReqHttpMinor else SResHttpMinor),
                     nread := p.nread + |major| + 1, httpMajor := U.Decimal(major)), [])
  {
    hide Run, U.Decimal, IsNum, Reads, Moves, Numbered;
    RequestWalks();
    ResponseWalks();
    var s := if isRequest then SReqHttpMajor else SResHttpMajor;
    NumberedIs(p, s, major);
    NumberThen(p, s, major, ".", [s, NumberStart(if isRequest then SReqHttpMinor else SResHttpMinor)]);
  }

  lemma MinorRun(p: Parser, minor: string, w: string, path: seq<State>, isRequest: bool)
    requires var t := if isRequest then SReqHttpMinor else SResHttpMinor;
             p.state == NumberStart(t) && Walks(w, path) && path[0] == t
    requires p.errno == OK && Room(p, |minor| + |w|) && IsNumber(minor) && U.Decimal(minor) <= 999
    ensures Reads(p, minor + w,
                  p.(state := path[|w|], nread := p.nread + |minor| + |w|, httpMinor := U.Decimal(minor)), [])
  {
    hide Run, U.Decimal, IsNum, Reads, Moves, Numbered, Walks;
    var t := if isRequest then SReqHttpMinor else SResHttpMinor;
    NumberedIs(p, t, minor);
    NumberThen(p, t, minor, w, path);
  }

  // A version: two numbers, a dot between them and the text w behind them
  lemma TwoNumbers(p: Parser, major: string, minor: string, w: string, path: seq<State>, isRequest: bool)
    requires var s := if isRequest then SReqHttpMajor else SResHttpMajor;
             var t := if isRequest then SReqHttpMinor else SResHttpMinor;
             p.state == NumberStart(s) && Walks(w, path) && path[0] == t
    requires p.errno == OK && Room(p, |major| + 1 + |minor| + |w|)
    requires IsVersion(major, minor) && (isRequest ==> major[0] != '0')
    ensures Reads(p, (major + ".") + (minor + w),
                  p.(state := path[|w|], nread := p.nread + |major| + 1 + |minor| + |w|,
                     httpMajor := U.Decimal(major), httpMinor := U.Decimal(minor)), [])
  {
    hide Run, U.Decimal, IsNum, Reads, Moves, Numbered, NumberStart;
    var s := if isRequest then SReqHttpMajor else SResHttpMajor;
    var t := if isRequest then SReqHttpMinor else SResHttpMinor;
    var b := p.(state := NumberStart(t), nread := p.nread + |major| + 1, httpMajor := U.Decimal(major));
    MajorRun(p, major, isRequest);
    MinorRun(b, minor, w, path, isRequest);
    var c := b.(state := path[|w|], nread := b.nread + |minor| + |w|, httpMinor := U.Decimal(minor));
    ReadsThen(p, major + ".", b, [], minor + w, c, []);
    NothingMore();
  }

  lemma BreakWalks(s: State, e: LineBreak) returns (path: seq<State>)
    requires s == SReqHttpMinor
    ensures Walks(BreakText(e), path) && path[0] == s && path[|BreakText(e)|] == SHeaderFieldStart
  {
    hide Moves;
    RequestWalks();
    path := if e.CrLf? then [SReqHttpMinor, SReqLineAlmostDone, SHeaderFieldStart]
            else [SReqHttpMinor, SHeaderFieldStart];
  }

  lemma GapRun(p: Parser, gap: string)
    requires p.state == SReqHttpStart && p.errno == OK && AreSpaces(gap) && Room(p, |gap|)
    ensures Reads(p, gap, p.(nread := p.nread + |gap|), [])
  {
    hide Run, Walks, Reads;
    RequestWalks();
    SpaceWalks(gap, SReqHttpStart);
    WalkRun(p, gap, seq(|gap| + 1, _ => SReqHttpStart));
  }

  lemma WordHttpRun(p: Parser)
    requires p.state == SReqHttpStart && p.errno == OK && Room(p, 5)
    ensures Reads(p, "HTTP/", p.(state := SReqFirstHttpMajor, nread := p.nread + 5), [])
  {
    hide Run, Walks, Reads;
    RequestWalks();
    WalkRun(p, "HTTP/", [SReqHttpStart, SReqHttpH, SReqHttpHT, SReqHttpHTT, SReqHttpHTTP, SReqFirstHttpMajor]);
  }

  lemma NumbersAndEnd(a: Parser, major: string, minor: string, e: LineBreak)
    requires a.state == SReqFirstHttpMajor && a.errno == OK && IsVersion(major, minor) && major[0] != '0'
    requires Room(a, |major| + 1 + |minor| + |BreakText(e)|)
    ensures Reads(a, (major + ".") + (minor + BreakText(e)),
                  a.(state := SHeaderFieldStart, nread := a.nread + |major| + 1 + |minor| + |BreakText(e)|,
                     httpMajor := U.Decimal(major), httpMinor := U.Decimal(minor)), [])
  {
    hide Run, U.Decimal, IsNum, Reads, Walks, BreakText;
    var path := BreakWalks(SReqHttpMinor, e);
    TwoNumbers(a, major, minor, BreakText(e), path, true);
  }

  // Spaces, and the version of a request line up to its end
  lemma VersionRun(p: Parser, gap: string, major: string, minor: string, e: LineBreak)
    requires p.state == SReqHttpStart && p.errno == OK && AreSpaces(gap)
    requires Room(p, |gap| + |major| + |minor| + 6 + |BreakText(e)|) && IsVersion(major, minor) && major[0] != '0'
    ensures Reads(p, gap + ("HTTP/" + ((major + ".") + (minor + BreakText(e)))),
                  p.(state := SHeaderFieldStart, nread := p.nread + |gap| + |major| + |minor| + 6 + |BreakText(e)|,
                     httpMajor := U.Decimal(major), httpMinor := U.Decimal(minor)), [])
  {
    hide Run, U.Decimal, IsNum, Reads, BreakText;
    var s := p.(nread := p.nread + |gap|);
    GapRun(p, gap);
    var a := s.(state := SReqFirstHttpMajor, nread := s.nread + 5);
    WordHttpRun(s);
    var c := a.(state := SHeaderFieldStart, nread := a.nread + |major| + 1 + |minor| + |BreakText(e)|,
                httpMajor := U.Decimal(major), httpMinor := U.Decimal(minor));
    NumbersAndEnd(a, major, minor, e);
    var text := (major + ".") + (minor + BreakText(e));
    ReadsThen(s, "HTTP/", a, [], text, c, []);
    NothingMore();
    ReadsThen(p, gap, s, [], "HTTP/" + text, c, []);
  }

  // The parser after a request line
  function AfterRequestLine(p: Parser, r: RequestLine): Parser
    requires VersionOk(r.version)
  {
    p.(flags := NO_FLAGS, contentLength := ULLONG_MAX, state := SHeaderFieldStart, verb := r.verb,
       index := |NameOf(r.verb)| + 1, nread := p.nread + |LineText(r)|,
       httpMajor := MajorOf(r.version), httpMinor := MinorOf(r.version))
  }

  // The parser behind the method and its space
  function AfterMethod(p: Parser, m: Method): Parser {
    InMethod(p, m, |NameOf(m)| + 1, |NameOf(m)| + 1).(state := SReqSpacesBeforeUrl)
  }

  lemma MethodRead(p: Parser, m: Method)
    requires Waiting(p, |NameOf(m)| + 1)
    ensures Reads(p, NameOf(m) + " ", AfterMethod(p, m), [Told(MessageBegin)])
  {
    hide Run, NameOf;
    var name := NameOf(m);
    NameIsWord(m);
    hide IsWord;
    NamesDiffer(m);
    MethodExact(p, name);
    assert exists n :: NameOf(n) == name;
  }

  // Everything behind the URL, its end included
  predicate AfterUrl(p: Parser, v: Version, q: Parser)
    requires VersionOk(v)
  {
    q == p.(state := SHeaderFieldStart, nread := p.nread + |VersionText(v)|, httpMajor := MajorOf(v),
            httpMinor := MinorOf(v))
  }

  // From the spaces before the URL to the end of the line
  lemma UrlAndVersion(p: Parser, r: RequestLine) returns (q: Parser)
    requires p.state == SReqSpacesBeforeUrl && p.errno == OK && p.verb == r.verb && IsRequestLine(r)
    requires Room(p, |r.gap| + |r.url| + |VersionText(r.version)|)
    ensures Reads(p, r.gap + (r.url + VersionText(r.version)), q, Whole(Url, r.url))
    ensures AfterUrl(p.(nread := p.nread + |r.gap| + |r.url|), r.version, q)
  {
    hide Run, Reads, U.Decimal, IsNum, NameOf, UrlMayEnd, Bytes, U.UrlState, IsRequestLine, AreSpaces, NoBreak,
      VersionOk, UrlDone, VersionText, AfterUrl;
    LineGives(r);
    var v := r.version;
    var stop, rest := VersionText(v)[0], VersionText(v)[1..];
    UrlAgreement(p, r.gap, r.url, stop);
    var head := r.gap + (r.url + [stop]);
    var a := p.(nread := p.nread + |head|);
    q := RestOfLine(a, v);
    ReadsThen(p, head, UrlDone(a, stop), Whole(Url, r.url), rest, q, []);
    assert Whole(Url, r.url) + [] == Whole(Url, r.url);
    assert VersionText(v) == [stop] + rest;
    assert head + rest == r.gap + (r.url + VersionText(v));
  }

  // Behind the byte that ended the URL
  lemma RestOfLine(a: Parser, v: Version) returns (q: Parser)
    requires VersionOk(v) && a.errno == OK && Room(a, |VersionText(v)| - 1) && a.nread >= 1
    ensures Reads(UrlDone(a, VersionText(v)[0]), VersionText(v)[1..], q, []) && AfterUrl(a.(nread := a.nread - 1), v, q)
  {
    hide Run, U.Decimal, IsNum, Reads, Moves;
    var b := UrlDone(a, VersionText(v)[0]);
    if v.Stated? {
      assert VersionText(v)[1..] == v.gap + ("HTTP/" + ((v.major + ".") + (v.minor + BreakText(v.end))));
      VersionRun(b, v.gap, v.major, v.minor, v.end);
      q := b.(state := SHeaderFieldStart, nread := b.nread + |VersionText(v)| - 1,
              httpMajor := U.Decimal(v.major), httpMinor := U.Decimal(v.minor));
    } else if v.end.CrLf? {
      RequestWalks();
      WalkRun(b, [LF], [SReqLineAlmostDone, SHeaderFieldStart]);
      assert VersionText(v)[1..] == [LF];
      q := b.(state := SHeaderFieldStart, nread := b.nread + 1);
    } else {
      assert VersionText(v)[1..] == "";
      ReadsNothing(b);
      q := b;
    }
  }

  /** A request line, whatever its spaces, its end and its version: the method, the URL and the
      version are the ones written. */
  lemma RequestLineRun(p: Parser, r: RequestLine)
    requires Waiting(p, |LineText(r)|) && IsRequestLine(r)
    ensures Reads(p, LineText(r), AfterRequestLine(p, r), [Told(MessageBegin)] + Whole(Url, r.url))
  {
    hide Run, Reads, U.Decimal, IsNumber, NameOf, UrlMayEnd, Bytes, U.UrlState, VersionText;
    LeadingLines(p, r.lead);
    var l := p.(nread := p.nread + |r.lead|);
    MethodRead(l, r.verb);
    var a := AfterMethod(l, r.verb);
    var q := UrlAndVersion(a, r);
    var rest := r.gap + (r.url + VersionText(r.version));
    ReadsThen(l, NameOf(r.verb) + " ", a, [Told(MessageBegin)], rest, q, Whole(Url, r.url));
    ReadsThen(p, r.lead, l, [], (NameOf(r.verb) + " ") + rest, q, [Told(MessageBegin)] + Whole(Url, r.url));
    assert [] + ([Told(MessageBegin)] + Whole(Url, r.url)) == [Told(MessageBegin)] + Whole(Url, r.url);
    assert q == AfterRequestLine(p, r);
  }

  lemma LineGives(r: RequestLine)
    requires IsRequestLine(r)
    ensures AreSpaces(r.gap) && r.url != "" && NoBreak(r.url) && VersionOk(r.version)
    ensures var t := U.UrlState(U.UrlStart(r.verb == CONNECT), r.url); t != SDead && UrlMayEnd(t)
  {
    hide U.UrlState;
  }

  // Method names are distinct
  lemma NamesDiffer(m: Method)
    ensures forall n | NameOf(n) == NameOf(m) :: n == m
  {
    forall n | NameOf(n) == NameOf(m) ensures n == m {
      HeldOnNames(m, |NameOf(m)|);
      HeldOnNames(n, |NameOf(n)|);
      SupposedWhole(m);
      SupposedWhole(n);
    }
  }

  // ---- whole requests ----

  datatype Message = Message(line: RequestLine, headers: Block, content: Content)

  function HeadText(r: Message): string { LineText(r.line) + BlockText(r.headers) }

  function Text(r: Message): string { LineText(r.line) + (BlockText(r.headers) + ContentText(r.content)) }

  function RequestEvents(r: Message): seq<Event> {
    ([Told(MessageBegin)] + Whole(Url, r.line.url)) + (BlockEvents(r.headers) + ContentEvents(r.content))
  }

  // A request parser between messages
  predicate Idle(p: Parser) {
    p.state == SStartReq && p.errno == OK && p.kind == Request && !p.upgrade
  }

  // Line and headers of a request that stays within the header limit, behind what p has counted
  predicate HasHead(p: Parser, r: Message) {
    && IsRequestLine(r.line) && AllWellFormed(r.headers.lines) && Room(p, |LineText(r.line)| + |BlockText(r.headers)|)
  }

  function PlanOfRequest(p: Parser, r: Message): Plan
    requires HasHead(p, r)
  {
    PlanAfter(AfterRequestLine(p, r.line), r.headers)
  }

  predicate IsRequest(p: Parser, r: Message) {
    HasHead(p, r) && Fitting(PlanOfRequest(p, r), r.content)
  }

  predicate KeepsAlive(r: Message)
    requires VersionOk(r.line.version)
  {
    Stays(MajorOf(r.line.version), MinorOf(r.line.version), FinalFlags(r.headers, r.content))
  }

  /** A whole request: method, URL, headers and body are handed out as they were written,
      and the parser is ready for the next message, or dead if the connection ends. */
  lemma RequestRun(p: Parser, r: Message) returns (q: Parser)
    requires Idle(p) && IsRequest(p, r)
    ensures Reads(p, Text(r), q, RequestEvents(r))
    ensures if KeepsAlive(r) then Idle(q) && q.nread == Carried(r.content) && q.answer == p.answer else q.state == SDead
  {
    hide Run, Lines, AllWellFormed, ContentLengthAfter, HeaderEvents, Bytes, Reads, LineText, BlockText, NewMessage,
      PlanAfter, ContentText, ContentEvents, FinalFlags, Carried, MajorOf, MinorOf, NeedsEof, Fitting;
    RequestLineRun(p, r.line);
    var a := AfterRequestLine(p, r.line);
    q := RestOfMessage(a, r.headers, r.content);
    hide IsRequestLine;
    ReadsThen(p, LineText(r.line), a, [Told(MessageBegin)] + Whole(Url, r.line.url),
              BlockText(r.headers) + ContentText(r.content), q, BlockEvents(r.headers) + ContentEvents(r.content));
    NextState(q);
  }

  /** A CONNECT or an upgrade: the parser stops behind the headers, and says so, whatever comes next. */
  lemma UpgradeRun(p: Parser, r: Message, rest: string)
    requires Idle(p) && HasHead(p, r) && PlanOfRequest(p, r) == Switching
    ensures var o := Run(p, HeadText(r) + rest);
      && o.end == Upgrade && o.p.upgrade && o.used == |HeadText(r)|
      && o.trace == ([Told(MessageBegin)] + Whole(Url, r.line.url)) + (BlockEvents(r.headers) + [Told(MessageComplete)])
  {
    hide Run, Reads, Lines, AllWellFormed, ContentLengthAfter, HeaderEvents, BlockEvents, Whole, LineText, BlockText,
      PlanAfter, MajorOf, MinorOf, IsRequestLine;
    VersionKnown(r.line);
    var a, head := AfterRequestLine(p, r.line), [Told(MessageBegin)] + Whole(Url, r.line.url);
    RequestLineRun(p, r.line);
    RestSwitches(a, r.headers, rest);
    hide AfterRequestLine;
    ReadsFirst(p, LineText(r.line), a, head, BlockText(r.headers) + rest);
    assert HeadText(r) + rest == LineText(r.line) + (BlockText(r.headers) + rest);
  }

  // ---- one request after another ----

  // The parser p as the next message finds it when a trailer of n bytes came before
  function Carrying(p: Parser, n: nat): Parser { p.(nread := n) }

  // Requests on one connection that stays open between them. The trailer of a chunked request
  // counts towards the header limit of the next
  predicate Pipelined(p: Parser, rs: seq<Message>)
    decreases |rs|
  {
    rs != [] ==>
      && IsRequest(p, rs[0]) && VersionOk(rs[0].line.version)
      && (|rs| > 1 ==> KeepsAlive(rs[0]))
      && Pipelined(Carrying(p, Carried(rs[0].content)), rs[1..])
  }

  function Texts(rs: seq<Message>): string { if rs == [] then "" else Text(rs[0]) + Texts(rs[1..]) }

  function EventsOf(rs: seq<Message>): seq<Event> {
    if rs == [] then [] else RequestEvents(rs[0]) + EventsOf(rs[1..])
  }

  // Whether a request fits depends on no more of an idle parser than this
  lemma SameFit(p: Parser, q: Parser, r: Message)
    requires p.nread == q.nread && p.answer == q.answer && p.kind == q.kind == Request && IsRequest(p, r)
    ensures IsRequest(q, r)
  {
    hide IsRequestLine, LineText, BlockText, AllWellFormed, FlagsAfter, ContentLengthAfter, Fitting, MajorOf, MinorOf;
    VersionKnown(r.line);
    var a, b := AfterRequestLine(p, r.line), AfterRequestLine(q, r.line);
    var f, n := FlagsAfter(NO_FLAGS, r.headers.lines), ContentLengthAfter(ULLONG_MAX, r.headers.lines);
    SameRequestPlan(a.(flags := f, contentLength := n), b.(flags := f, contentLength := n));
  }

  lemma SameRequestPlan(a: Parser, b: Parser)
    requires a.verb == b.verb && a.kind == b.kind == Request && a.answer == b.answer
    requires a.flags == b.flags && a.contentLength == b.contentLength
    ensures PlanOf(a) == PlanOf(b)
  {}

  lemma VersionKnown(r: RequestLine)
    requires IsRequestLine(r)
    ensures VersionOk(r.version)
  {}

  lemma {:induction false} SamePipeline(p: Parser, q: Parser, rs: seq<Message>)
    requires p.nread == q.nread && p.answer == q.answer && p.kind == q.kind == Request && Pipelined(p, rs)
    ensures Pipelined(q, rs)
    decreases |rs|
  {
    hide IsRequest, KeepsAlive, VersionOk;
    if rs != [] {
      SameFit(p, q, rs[0]);
      SamePipeline(Carrying(p, Carried(rs[0].content)), Carrying(q, Carried(rs[0].content)), rs[1..]);
    }
  }

  lemma {:induction false} PipelineRun(p: Parser, rs: seq<Message>)
    requires Idle(p) && Pipelined(p, rs)
    ensures var o := Run(p, Texts(rs)); o.end == Ready && o.trace == EventsOf(rs) && o.used == |Texts(rs)|
    decreases |rs|
  {
    hide Run, IsRequest, KeepsAlive, VersionOk, RequestEvents, Text, Carried;
    if rs == [] {
      ReadsNothing(p);
    } else {
      var r, rest := rs[0], rs[1..];
      var q := RequestRun(p, r);
      if rest == [] {
        assert Texts(rest) == "" && EventsOf(rest) == [];
        assert Text(r) + "" == Text(r) && RequestEvents(r) + [] == RequestEvents(r);
      } else {
        SamePipeline(Carrying(p, Carried(r.content)), q, rest);
        PipelineRun(q, rest);
        RunSplit(p, Text(r), Texts(rest));
      }
    }
  }
}
