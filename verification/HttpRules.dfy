/** Which body a message should have by section 4.4 of RFC 2616, and when it is not the one the
    parser expects. */
module HttpRules {
  import opened Wrappers
  import opened HttpTypes
  import opened HttpRun
  import opened HttpMarks
  import opened HttpReading
  import opened HttpNumbers
  import opened HttpLines
  import opened HttpRequests
  import U = HttpUrl
  import opened HttpNames
  import opened HttpValues
  import opened HttpHeaders
  import opened HttpParser
  import opened HttpBodies
  import opened HttpMessages
  import opened HttpResponses

  const IDENTITY: string := "identity"

  // Responses that have no body whatever their headers say
  predicate Bodiless(p: Parser) {
    p.kind != Request && (p.statusCode / 100 == 1 || p.statusCode == 204 || p.statusCode == 304)
  }

  function Joined(xs: seq<Part>): string { if xs == [] then "" else xs[0].value + Joined(xs[1..]) }

  predicate IsCoding(h: Header) {
    Meaning(Lowered(h.name)) == HTransferEncoding && !IsKeyword(Joined(h.parts), IDENTITY)
  }

  // A Transfer-Encoding of anything but "identity" stands for the chunked coding
  predicate Coded(hs: seq<Header>) { exists h :: h in hs && IsCoding(h) }

  /** Section 4.4, rule by rule. It is about messages of HTTP itself, so an upgrade and CONNECT
      come first; that a response answers HEAD is for on_headers_complete to say. */
  function Section44(p: Parser, hs: seq<Header>): Plan
    requires AllWellFormed(hs)
  {
    var f, n := FlagsAfter(p.flags, hs), ContentLengthAfter(p.contentLength, hs);
    if f.upgrade || p.verb == CONNECT then Switching
    else if Bodiless(p) || f.skipBody || p.answer then NoBody
    else if Coded(hs) then Chunked
    else if n == 0 then NoBody
    else if n != ULLONG_MAX then Sized(n)
    else if p.kind == Request then NoBody
    else UntilEof
  }

  /** Where the parser strays from it: a response of a status without a body is not looked at for
      its status until codings and lengths have been; and a coding counts only if it is the single
      word "chunked". */
  predicate Strays(p: Parser, hs: seq<Header>)
    requires AllWellFormed(hs)
  {
    var f, n := FlagsAfter(p.flags, hs), ContentLengthAfter(p.contentLength, hs);
    && !f.upgrade && p.verb != CONNECT && !f.skipBody && !p.answer
    && if Bodiless(p) then f.chunked || (n != 0 && n != ULLONG_MAX) else Coded(hs) && !f.chunked
  }

  // ---- the chunked flag comes from a coding ----

  lemma {:induction false} OnlyFirstPart(f: Flags, m: HeaderState, xs: seq<Part>)
    requires m != HTransferEncoding
    ensures PartsFlags(f, m, xs).chunked == f.chunked
    decreases |xs|
  {
    hide IsKeyword;
    if xs != [] { OnlyFirstPart(PartFlags(f, m, xs[0].value), MeaningAfter(m, xs[0].value), xs[1..]); }
  }

  lemma ChunkedIsCoding(f: Flags, h: Header)
    requires HeaderFlags(f, h).chunked
    ensures f.chunked || IsCoding(h)
  {
    var m, xs := Meaning(Lowered(h.name)), h.parts;
    hide Meaning, Lowered;
    if m != HTransferEncoding {
      OnlyFirstPart(f, m, xs);
    } else if xs != [] {
      OnlyFirstPart(PartFlags(f, m, xs[0].value), MeaningAfter(m, xs[0].value), xs[1..]);
      if IsKeyword(xs[0].value, CHUNKED) { NotIdentity(xs[0].value, Joined(xs[1..])); }
    }
  }

  lemma NotIdentity(v: string, rest: string)
    requires IsKeyword(v, CHUNKED)
    ensures !IsKeyword(v + rest, IDENTITY)
  {
    var w := v + rest;
    assert CHUNKED[0] != IDENTITY[0];
    assert Lowercase(v[..|CHUNKED|])[0] == Lower(v[0]) == Lower(w[0]);
    if |w| >= |IDENTITY| { assert Lowercase(w[..|IDENTITY|])[0] == Lower(w[0]); }
  }

  lemma {:induction false} ChunkedIsCoded(f: Flags, hs: seq<Header>)
    requires FlagsAfter(f, hs).chunked
    ensures f.chunked || Coded(hs)
    decreases |hs|
  {
    hide HeaderFlags, IsCoding;
    if hs != [] {
      ChunkedIsCoded(HeaderFlags(f, hs[0]), hs[1..]);
      if HeaderFlags(f, hs[0]).chunked {
        ChunkedIsCoding(f, hs[0]);
        assert hs[0] in hs;
      } else {
        var h :| h in hs[1..] && IsCoding(h);
        assert h in hs;
      }
    }
  }

  // ---- the two plans ----

  lemma PlansDiffer(p: Parser, hs: seq<Header>)
    requires AllWellFormed(hs) && !p.flags.chunked
    ensures var q := p.(flags := FlagsAfter(p.flags, hs), contentLength := ContentLengthAfter(p.contentLength, hs));
      PlanOf(q) == Section44(p, hs) <==> !Strays(p, hs)
  {
    hide FlagsAfter, ContentLengthAfter, Coded;
    if FlagsAfter(p.flags, hs).chunked { ChunkedIsCoded(p.flags, hs); }
  }

  lemma NoTwoSizes(p: Parser, q: Parser, hs: seq<Header>)
    requires AllWellFormed(hs) && HeadersGive(p, hs, q)
    ensures PlanOf(q).Sized? && Section44(p, hs).Sized? ==> PlanOf(q) == Section44(p, hs)
  {
    hide FlagsAfter, ContentLengthAfter, Coded;
  }

  lemma PlanKept(p: Parser, q: Parser, hs: seq<Header>)
    requires AllWellFormed(hs) && HeadersGive(p, hs, q)
    ensures PlanOf(q) ==
      PlanOf(p.(flags := FlagsAfter(p.flags, hs), contentLength := ContentLengthAfter(p.contentLength, hs)))
  {
    hide FlagsAfter, ContentLengthAfter;
  }

  /** The body that follows the headers is the one of section 4.4 exactly where the parser does
      not stray from it. */
  lemma BodyByTheRules(p: Parser, hs: seq<Header>, e: LineBreak) returns (q: Parser)
    requires AtHeaders(p, |HeaderText(hs, e)|) && AllWellFormed(hs) && !p.flags.chunked
    ensures HeadersGive(p, hs, q)
    ensures Run(p, HeaderText(hs, e)) ==
      Then(Outcome(Ready, q, HeaderEvents(hs), |Lines(hs)|), Announced(Section44(p, hs), q).(used := |BreakText(e)|))
      <==> !Strays(p, hs)
  {
    hide Run, Announced, Lines, FlagsAfter, ContentLengthAfter, HeaderEvents, Section44, Strays, PlanOf, HeadersGive;
    q := HeadersThenPlan(p, hs, e);
    PlansDiffer(p, hs);
    PlanKept(p, q, hs);
    NoTwoSizes(p, q, hs);
    if Strays(p, hs) {
      ThenApart(Outcome(Ready, q, HeaderEvents(hs), |Lines(hs)|), PlanOf(q), Section44(p, hs), q, |BreakText(e)|);
    }
  }

  // Different plans lead to different places
  lemma ThenApart(o: Outcome, a: Plan, b: Plan, q: Parser, n: nat)
    requires a != b && (a.Sized? ==> !b.Sized?)
    ensures Then(o, Announced(a, q).(used := n)) != Then(o, Announced(b, q).(used := n))
  {
    hide ShouldKeepAlive;
  }

  // ---- two headers ----

  const LENGTH_FIVE: Header := Header("Content-Length", Colon, [Part(" ", "5", CrLf)])
  const GZIP_CHUNKED: Header := Header("Transfer-Encoding", Colon, [Part(" ", "gzip, chunked", CrLf)])

  lemma FiveIsLength()
    ensures IsValue(HContentLength, "5") && LengthAfter(HContentLength, "5", 0) == 5
  {
    var v := "5";
    assert v[..0] == "" && DigitsOf("") == [] && DigitsOf(v) == [5];
    assert Accumulated([5], 10) == Some(5);
  }

  lemma LengthMeans()
    ensures IsName("Content-Length") && Meaning(Lowered("Content-Length")) == HContentLength
  {
    assert Lowered("Content-Length") == CONTENT_LENGTH;
  }

  // One line of value behind a colon
  lemma OneLine(name: string, v: string, m: HeaderState, f: Flags, n: nat)
    requires IsName(name) && Meaning(Lowered(name)) == m && IsValue(m, v)
    ensures var h := Header(name, Colon, [Part(" ", v, CrLf)]);
      && WellFormed(h) && HeaderFlags(f, h) == LineEffect(f, m, v) && HeaderLength(h, n) == LengthAfter(m, v, n)
  {
    hide IsName, Lowered, Meaning, IsValue, LineEffect, LengthAfter;
    var xs := [Part(" ", v, CrLf)];
    ValueStarts(m, v);
    assert xs[1..] == [] && IsPart(m, xs[0]);
    assert AreParts(MeaningAfter(m, v), [], true);
    assert AreParts(m, xs, false);
    assert PartsFlags(f, m, xs) == PartsFlags(LineEffect(f, m, v), MeaningAfter(m, v), []);
    assert PartsLength(m, xs, false, n) == PartsLength(MeaningAfter(m, v), [], true, LengthAfter(m, v, n));
  }

  lemma OneLineBlock(name: string, v: string)
    ensures var b := Block([Header(name, Colon, [Part(" ", v, CrLf)])], CrLf);
      && BlockText(b) == (name + (":" + (" " + (v + [CR, LF])))) + [CR, LF]
      && BlockEvents(b) == Whole(HeaderField, name) + Whole(HeaderValue, v) + [Told(HeadersComplete)]
  {
    hide Whole;
    var xs := [Part(" ", v, CrLf)];
    var h := Header(name, Colon, xs);
    assert xs[1..] == [] && [h][1..] == [] && PartsText([]) == "" && ValueEvents([]) == [];
    assert PartsText(xs) == " " + (v + [CR, LF]) + "" == " " + (v + [CR, LF]);
    assert ValueEvents(xs) == Whole(HeaderValue, v) + [] == Whole(HeaderValue, v);
    assert Lines([h]) == Line(h) + "" == Line(h);
    assert HeaderEvents([h]) == HeaderEvent(h) + [] == HeaderEvent(h);
  }

  lemma LengthFive(f: Flags, n: nat)
    ensures WellFormed(LENGTH_FIVE) && HeaderFlags(f, LENGTH_FIVE) == f && HeaderLength(LENGTH_FIVE, n) == 5
  {
    FiveIsLength();
    LengthMeans();
    hide IsName, Lowered, IsValue;
    OneLine("Content-Length", "5", HContentLength, f, n);
  }

  lemma CodingMeans()
    ensures IsName("Transfer-Encoding") && Meaning(Lowered("Transfer-Encoding")) == HTransferEncoding
  {
    assert Lowered("Transfer-Encoding") == TRANSFER_ENCODING;
  }

  lemma NoKeyword(v: string)
    requires v != "" && v[0] == 'g'
    ensures !IsKeyword(v, CHUNKED) && !IsKeyword(v, IDENTITY)
  {
    assert |v| >= |CHUNKED| ==> Lowercase(v[..|CHUNKED|])[0] == 'g' != CHUNKED[0];
    assert |v| >= |IDENTITY| ==> Lowercase(v[..|IDENTITY|])[0] == 'g' != IDENTITY[0];
  }

  lemma GzipChunked(f: Flags, n: nat)
    ensures WellFormed(GZIP_CHUNKED) && HeaderFlags(f, GZIP_CHUNKED) == f && HeaderLength(GZIP_CHUNKED, n) == n
    ensures IsCoding(GZIP_CHUNKED)
  {
    var v := "gzip, chunked";
    NoKeyword(v);
    NoKeyword(v + "");
    CodingMeans();
    hide IsName, Lowered, IsKeyword;
    OneLine("Transfer-Encoding", v, HTransferEncoding, f, n);
    assert GZIP_CHUNKED.parts[1..] == [];
  }

  // ---- messages it strays on ----

  function NotModified(data: string): HttpResponses.Response {
    HttpResponses.Response.Response(
      StatusLine("", "1", "1", "", "304", Some(""), CrLf), Block([LENGTH_FIVE], CrLf), Plain(data))
  }

  lemma SmallNumbers()
    ensures IsVersion("1", "1") && IsNumber("304") && U.Decimal("304") == 304
  {
    assert ("3" + "0") + "4" == "304";
    assert "" + ['1'] == "1" && "" + ['3'] == "3" && "3" + ['0'] == "30" && "30" + ['4'] == "304";
    assert IsNumber("3") && IsNumber("30") && IsNumber("304") && IsNumber("1");
    hide U.Decimal;
    DecimalMore("", '1');
    DecimalMore("", '3');
    DecimalMore("3", '0');
    DecimalMore("30", '4');
    U.NoDigits();
  }

  lemma NotModifiedLine(data: string)
    ensures var s := NotModified(data).line;
      && IsStatusLine(s) && U.Decimal(s.code) == 304 && StatusText(s) == "HTTP/1.1 304 \r\n"
      && StatusEvents(s) == [Told(MessageBegin), Told(StatusComplete)]
  {
    SmallNumbers();
    hide U.Decimal, IsVersion, IsNumber;
  }

  lemma NotModifiedBlock(data: string)
    ensures var b := NotModified(data).headers;
      && AllWellFormed(b.lines) && BlockText(b) == "Content-Length: 5\r\n\r\n"
      && BlockEvents(b) == Whole(HeaderField, "Content-Length") + Whole(HeaderValue, "5") + [Told(HeadersComplete)]
      && FlagsAfter(NO_FLAGS, b.lines) == NO_FLAGS && ContentLengthAfter(ULLONG_MAX, b.lines) == 5
  {
    LengthFive(NO_FLAGS, ULLONG_MAX);
    OneLineBlock("Content-Length", "5");
    hide WellFormed, HeaderFlags, HeaderLength, Whole, BlockEvents, BlockText;
    assert [LENGTH_FIVE][1..] == [];
    assert ("Content-Length" + (":" + (" " + ("5" + [CR, LF])))) + [CR, LF] == "Content-Length: 5\r\n\r\n";
  }

  lemma Paired<T>(a: seq<T>, b: seq<T>, c: seq<T>)
    ensures a + (b + c) == (a + b) + c
  {}

  lemma NotModifiedFits(p: Parser, data: string)
    requires Awaiting(p) && !p.answer && Room(p, 60) && |data| == 5
    ensures IsResponse(p, NotModified(data))
    ensures var a := AfterStatusLine(p, NotModified(data).line);
      Bodiless(a) && AllWellFormed([LENGTH_FIVE]) && Strays(a, [LENGTH_FIVE])
  {
    NotModifiedLine(data);
    NotModifiedBlock(data);
    hide IsStatusLine, AllWellFormed, U.Decimal, FlagsAfter, ContentLengthAfter, StatusText, BlockText, Coded;
  }

  lemma PlainText(data: string)
    ensures ContentText(Plain(data)) == data
  {}

  lemma StatusAndLength(data: string)
    ensures "HTTP/1.1 304 \r\n" + ("Content-Length: 5\r\n\r\n" + data)
         == "HTTP/1.1 304 \r\nContent-Length: 5\r\n\r\n" + data
  {
    var a, b := "HTTP/1.1 304 \r\n", "Content-Length: 5\r\n\r\n";
    assert a + b == "HTTP/1.1 304 \r\nContent-Length: 5\r\n\r\n";
    Paired(a, b, data);
  }

  lemma NotModifiedText(data: string)
    ensures ResponseText(NotModified(data)) == "HTTP/1.1 304 \r\nContent-Length: 5\r\n\r\n" + data
  {
    NotModifiedLine(data);
    NotModifiedBlock(data);
    hide StatusText, BlockText, ContentText;
    PlainText(data);
    StatusAndLength(data);
  }

  lemma NotModifiedEvents(data: string)
    ensures ResponseEvents(NotModified(data)) ==
      ([Told(MessageBegin), Told(StatusComplete)]
       + (Whole(HeaderField, "Content-Length") + Whole(HeaderValue, "5") + [Told(HeadersComplete)]))
      + (Bytes(Body, data) + [Told(MessageComplete)])
  {
    NotModifiedLine(data);
    NotModifiedBlock(data);
    hide StatusText, BlockText, StatusEvents, BlockEvents, Whole, Bytes;
    Paired([Told(MessageBegin), Told(StatusComplete)],
           Whole(HeaderField, "Content-Length") + Whole(HeaderValue, "5") + [Told(HeadersComplete)],
           Bytes(Body, data) + [Told(MessageComplete)]);
  }

  /** A 304 with a Content-Length of 5: whatever five bytes come next, the beginning of the next
      response for instance, are told as its body. */
  lemma NotModifiedHasBody(p: Parser, data: string) returns (q: Parser)
    requires Awaiting(p) && !p.answer && Room(p, 60) && |data| == 5
    ensures Reads(p, "HTTP/1.1 304 \r\nContent-Length: 5\r\n\r\n" + data, q,
                  ([Told(MessageBegin), Told(StatusComplete)]
                   + (Whole(HeaderField, "Content-Length") + Whole(HeaderValue, "5") + [Told(HeadersComplete)]))
                  + (Bytes(Body, data) + [Told(MessageComplete)]))
  {
    NotModifiedText(data);
    NotModifiedEvents(data);
    NotModifiedFits(p, data);
    hide Run, Reads, IsResponse, ResponseText, ResponseEvents, Whole, Bytes, NotModified;
    q := ResponseRun(p, NotModified(data));
  }

  /** A request with the codings gzip and chunked: no body is expected, and whatever comes behind
      the blank line is read as the next request. */
  lemma GzipChunkedHasNone(p: Parser) returns (q: Parser)
    requires Begun(p, Block([GZIP_CHUNKED], CrLf)) && p.kind == Request && p.verb != CONNECT && !p.answer
    ensures AllWellFormed([GZIP_CHUNKED]) && Strays(p, [GZIP_CHUNKED]) && Section44(p, [GZIP_CHUNKED]) == Chunked
    ensures Reads(p, "Transfer-Encoding: gzip, chunked\r\n\r\n", q,
                  Whole(HeaderField, "Transfer-Encoding") + Whole(HeaderValue, "gzip, chunked")
                  + [Told(HeadersComplete)] + [Told(MessageComplete)])
    ensures q.state == NewMessage(q)
  {
    var b := Block([GZIP_CHUNKED], CrLf);
    GzipBlock();
    hide Run, Reads, AllWellFormed, FlagsAfter, ContentLengthAfter, BlockText, BlockEvents, Whole, Bytes,
      ShouldKeepAlive;
    q := RestOfMessage(p, b, Plain(""));
    assert BlockText(b) + "" == BlockText(b);
    NoBodyEvents();
  }

  lemma NoBodyEvents()
    ensures ContentEvents(Plain("")) == [Told(MessageComplete)]
  {}

  lemma GzipBlock()
    ensures var b := Block([GZIP_CHUNKED], CrLf);
      && AllWellFormed(b.lines) && BlockText(b) == "Transfer-Encoding: gzip, chunked\r\n\r\n" && Coded(b.lines)
      && BlockEvents(b) == Whole(HeaderField, "Transfer-Encoding") + Whole(HeaderValue, "gzip, chunked")
                           + [Told(HeadersComplete)]
      && FlagsAfter(NO_FLAGS, b.lines) == NO_FLAGS && ContentLengthAfter(ULLONG_MAX, b.lines) == ULLONG_MAX
  {
    GzipChunked(NO_FLAGS, ULLONG_MAX);
    OneLineBlock("Transfer-Encoding", "gzip, chunked");
    hide WellFormed, HeaderFlags, HeaderLength, Whole, BlockEvents, BlockText, IsCoding;
    assert [GZIP_CHUNKED][1..] == [] && GZIP_CHUNKED in [GZIP_CHUNKED];
    assert ("Transfer-Encoding" + (":" + (" " + ("gzip, chunked" + [CR, LF])))) + [CR, LF]
        == "Transfer-Encoding: gzip, chunked\r\n\r\n";
  }

  // ---- whether the connection stays open ----

  // A header that means m and has the word for its value, or for the first line of it
  predicate Carries(h: Header, m: HeaderState, word: string) {
    Meaning(Lowered(h.name)) == m && h.parts != [] && IsKeyword(h.parts[0].value, word)
  }

  predicate Says(hs: seq<Header>, m: HeaderState, word: string) { exists h :: h in hs && Carries(h, m, word) }

  predicate AsksUpgrade(h: Header) {
    Meaning(Lowered(h.name)) == HUpgrade && h.parts != [] && h.parts[0].value != ""
  }

  predicate Upgrades(hs: seq<Header>) { exists h :: h in hs && AsksUpgrade(h) }

  // The lines behind the first raise no flag
  lemma {:induction false} FoldedRaiseNothing(f: Flags, m: HeaderState, xs: seq<Part>)
    requires m == HGeneral || m == HContentLength
    ensures PartsFlags(f, m, xs) == f
    decreases |xs|
  {
    hide IsKeyword;
    if xs != [] { FoldedRaiseNothing(f, MeaningAfter(m, xs[0].value), xs[1..]); }
  }

  lemma HeaderRaises(f: Flags, h: Header)
    ensures var g := HeaderFlags(f, h);
      && (g.close <==> f.close || Carries(h, HConnection, CLOSE))
      && (g.keepAlive <==> f.keepAlive || Carries(h, HConnection, KEEP_ALIVE))
      && (g.chunked <==> f.chunked || Carries(h, HTransferEncoding, CHUNKED))
      && (g.upgrade <==> f.upgrade || AsksUpgrade(h))
  {
    EmptyIsNoKeyword();
    var m, xs := Meaning(Lowered(h.name)), h.parts;
    hide Meaning, Lowered, IsKeyword, CLOSE, KEEP_ALIVE, CHUNKED;
    if xs != [] { FoldedRaiseNothing(PartFlags(f, m, xs[0].value), MeaningAfter(m, xs[0].value), xs[1..]); }
  }

  lemma EmptyIsNoKeyword()
    ensures !IsKeyword("", CLOSE) && !IsKeyword("", KEEP_ALIVE) && !IsKeyword("", CHUNKED)
  {}

  lemma OneMoreHeader(hs: seq<Header>)
    requires hs != []
    ensures forall m: HeaderState, word: string ::
      Says(hs, m, word) <==> Carries(hs[0], m, word) || Says(hs[1..], m, word)
    ensures Upgrades(hs) <==> AsksUpgrade(hs[0]) || Upgrades(hs[1..])
  {
    hide Carries, AsksUpgrade;
    assert forall h :: h in hs <==> h == hs[0] || h in hs[1..];
  }

  /** The flags raised by any number of headers, folded ones too: close, keep-alive and chunked exactly
      by a header of the meaning with that word alone for its first line, upgrade by any non-empty one. */
  lemma {:induction false} FlagsExact(f: Flags, hs: seq<Header>)
    ensures var g := FlagsAfter(f, hs);
      && (g.close <==> f.close || Says(hs, HConnection, CLOSE))
      && (g.keepAlive <==> f.keepAlive || Says(hs, HConnection, KEEP_ALIVE))
      && (g.chunked <==> f.chunked || Says(hs, HTransferEncoding, CHUNKED))
      && (g.upgrade <==> f.upgrade || Upgrades(hs))
    decreases |hs|
  {
    if hs != [] {
      HeaderRaises(f, hs[0]);
      FlagsExact(HeaderFlags(f, hs[0]), hs[1..]);
      OneMoreHeader(hs);
      hide HeaderFlags, Carries, AsksUpgrade, Says, Upgrades, CLOSE, KEEP_ALIVE, CHUNKED;
    }
  }

  // The headers in front of the body and behind it
  function HeadersOf(b: Block, c: Content): seq<Header> {
    b.lines + if c.Plain? then [] else c.trailer.lines
  }

  /** Section 8.1.2 of RFC 2616: from HTTP/1.1 on a connection persists unless closed; before, as by
      section 19.6.2, only if asked to be kept alive. */
  predicate Persists(major: nat, minor: nat, hs: seq<Header>) {
    if major > 1 || (major == 1 && minor > 0) then !Says(hs, HConnection, CLOSE) else Says(hs, HConnection, KEEP_ALIVE)
  }

  // A major version above 1 with the minor version 0 is taken for an early one
  predicate TakenForEarly(major: nat, minor: nat, hs: seq<Header>) {
    major > 1 && minor == 0 && (Says(hs, HConnection, CLOSE) <==> Says(hs, HConnection, KEEP_ALIVE))
  }

  lemma SaysInEither(a: seq<Header>, b: seq<Header>, m: HeaderState, word: string)
    ensures Says(a + b, m, word) <==> Says(a, m, word) || Says(b, m, word)
  {
    hide Carries;
    assert forall h :: h in a + b <==> h in a || h in b;
  }

  lemma StaysByTheRules(major: nat, minor: nat, b: Block, c: Content)
    ensures var hs := HeadersOf(b, c);
      (Stays(major, minor, FinalFlags(b, c)) <==> Persists(major, minor, hs)) <==> !TakenForEarly(major, minor, hs)
  {
    FlagsExact(NO_FLAGS, b.lines);
    var f := FlagsAfter(NO_FLAGS, b.lines);
    if c.Plain? {
      assert HeadersOf(b, c) == b.lines;
    } else {
      FlagsExact(f.(trailing := true), c.trailer.lines);
      SaysInEither(b.lines, c.trailer.lines, HConnection, CLOSE);
      SaysInEither(b.lines, c.trailer.lines, HConnection, KEEP_ALIVE);
    }
    hide Says, FlagsAfter, CLOSE, KEEP_ALIVE;
  }

  /** Behind a request the parser awaits the next one exactly if the connection persists by those
      rules, unless the version is taken for an early one. */
  lemma RequestKept(p: Parser, r: Message) returns (q: Parser)
    requires Idle(p) && IsRequest(p, r)
    ensures Reads(p, Text(r), q, RequestEvents(r)) && (q.state == SStartReq || q.state == SDead)
    ensures var hs, major, minor := HeadersOf(r.headers, r.content), MajorOf(r.line.version), MinorOf(r.line.version);
      (q.state == SStartReq <==> Persists(major, minor, hs)) <==> !TakenForEarly(major, minor, hs)
  {
    var major, minor := MajorOf(r.line.version), MinorOf(r.line.version);
    hide Run, Reads, Text, RequestEvents, IsRequest, Stays, FinalFlags, HeadersOf, Persists, TakenForEarly,
      MajorOf, MinorOf;
    q := RequestRun(p, r);
    StaysByTheRules(major, minor, r.headers, r.content);
  }

  /** And so behind a response whose end shows without the end of the connection. */
  lemma ResponseKept(p: Parser, r: HttpResponses.Response) returns (q: Parser)
    requires Awaiting(p) && IsResponse(p, r)
    ensures Reads(p, ResponseText(r), q, ResponseEvents(r)) && (q.state == SStartRes || q.state == SDead)
    ensures var hs := HeadersOf(r.headers, r.content);
      var major, minor := U.Decimal(r.line.major), U.Decimal(r.line.minor);
      (q.state == SStartRes <==> Persists(major, minor, hs)) <==> !TakenForEarly(major, minor, hs)
  {
    var major, minor := U.Decimal(r.line.major), U.Decimal(r.line.minor);
    hide Run, Reads, ResponseText, ResponseEvents, IsResponse, Stays, FinalFlags, HeadersOf, Persists, TakenForEarly,
      U.Decimal;
    q := ResponseRun(p, r);
    StaysByTheRules(major, minor, r.headers, r.content);
  }

  // ---- a version above 1 ----

  const TWO: RequestLine := RequestLine("", GET, "", "/", Stated("", "2", "0", CrLf))
  const BARE: Message := Message(TWO, Block([], CrLf), Plain(""))

  lemma TwoNumbers()
    ensures IsVersion("2", "0") && U.Decimal("2") == 2 && U.Decimal("0") == 0
  {
    assert "" + ['2'] == "2" && "" + ['0'] == "0" && IsNumber("2") && IsNumber("0");
    hide U.Decimal;
    DecimalMore("", '2');
    DecimalMore("", '0');
    U.NoDigits();
  }

  lemma TwoIsLine()
    ensures IsRequestLine(TWO) && MajorOf(TWO.version) == 2 && MinorOf(TWO.version) == 0
  {
    TwoNumbers();
    hide U.Decimal, IsVersion;
    SlashIsUrl();
    hide U.UrlState, U.UrlStart;
  }

  lemma SlashIsUrl()
    ensures UrlMayEnd(U.UrlState(U.UrlStart(false), "/")) && NoBreak("/")
  {
    assert "/"[..0] == "";
  }

  lemma TwoText()
    ensures Text(BARE) == "GET / HTTP/2.0\r\n\r\n" && LineText(TWO) == "GET / HTTP/2.0\r\n" && |LineText(TWO)| == 16
    ensures BlockText(BARE.headers) == [CR, LF]
  {
    assert LineText(TWO) == "GET / HTTP/2.0\r\n";
  }

  lemma BareEvents()
    ensures RequestEvents(BARE) ==
      [Told(MessageBegin)] + Whole(Url, "/") + [Told(HeadersComplete), Told(MessageComplete)]
  {
    hide Whole;
    NoBodyEvents();
    hide ContentEvents;
    assert BlockEvents(BARE.headers) == [Told(HeadersComplete)];
  }

  lemma BareIsRequest(p: Parser)
    requires Idle(p) && Room(p, 18)
    ensures IsRequest(p, BARE) && HeadersOf(BARE.headers, BARE.content) == []
  {
    TwoIsLine();
    TwoText();
    hide IsRequestLine, LineText, BlockText, MajorOf, MinorOf;
  }

  /** HTTP/2.0 without a Connection header: by the rules the connection persists, but the parser
      awaits nothing more on it. */
  lemma TwoCloses(p: Parser) returns (q: Parser)
    requires Idle(p) && Room(p, 18)
    ensures Reads(p, "GET / HTTP/2.0\r\n\r\n", q,
                  [Told(MessageBegin)] + Whole(Url, "/") + [Told(HeadersComplete), Told(MessageComplete)])
    ensures Persists(2, 0, []) && q.state == SDead
  {
    TwoIsLine();
    TwoText();
    BareEvents();
    BareIsRequest(p);
    assert BARE.line == TWO;
    hide Run, Reads, Text, RequestEvents, IsRequest, HeadersOf, MajorOf, MinorOf, Whole;
    q := RequestKept(p, BARE);
  }
}
