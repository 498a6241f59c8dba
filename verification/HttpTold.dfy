/** What the callbacks tell is enough: the URL, the header names, the header values line by line,
    the body and the trailer of every message can be read off the events. */
module HttpTold {
  import opened HttpTypes
  import opened HttpMarks
  import opened HttpHeaders
  import opened HttpBodies
  import opened HttpMessages
  import opened HttpRequests
  import opened HttpResponses

  // A header as an application knows it
  datatype Pair = Pair(name: string, lines: seq<string>)

  function ValueLines(xs: seq<Part>): seq<string> {
    if xs == [] then [] else [xs[0].value] + ValueLines(xs[1..])
  }

  function Pairs(hs: seq<Header>): seq<Pair> {
    if hs == [] then [] else [Pair(hs[0].name, ValueLines(hs[0].parts))] + Pairs(hs[1..])
  }

  // What stands behind the first line of a message
  datatype Rest = Rest(headers: seq<Pair>, body: string, trailer: seq<Pair>)

  function BodyOf(c: Content): string { if c.Plain? then c.data else DataOf(c.chunks) }

  function TrailerOf(c: Content): seq<Header> { if c.Plain? then [] else c.trailer.lines }

  function RestOf(b: Block, c: Content): Rest { Rest(Pairs(b.lines), BodyOf(c), Pairs(TrailerOf(c))) }

  datatype Seen = Seen(url: string, rest: Rest)

  function SeenOf(rs: seq<Message>): seq<Seen> {
    if rs == [] then [] else [Seen(rs[0].line.url, RestOf(rs[0].headers, rs[0].content))] + SeenOf(rs[1..])
  }

  function RestsOf(rs: seq<Response>): seq<Rest> {
    if rs == [] then [] else [RestOf(rs[0].headers, rs[0].content)] + RestsOf(rs[1..])
  }

  // ---- where a field ends ----

  // x does not go on with f
  predicate Apart(x: seq<Event>, f: Field) { x == [] || x[0].Told? || x[0].field != f }

  lemma BytesAt(f: Field, a: string, x: seq<Event>, i: nat)
    ensures i < |a| ==> (Bytes(f, a) + x)[i] == Byte(f, a[i])
    ensures i == |a| && x != [] ==> (Bytes(f, a) + x)[i] == x[0]
  {}

  // The byte events of f that e begins with cannot be more than a
  lemma NotLonger(f: Field, a: string, x: seq<Event>, b: string, y: seq<Event>)
    requires Bytes(f, a) + x == Bytes(f, b) + y && (x == [] || !x[0].Byte? || x[0].field != f)
    ensures |b| <= |a|
  {
    BytesAt(f, a, x, |a|);
    BytesAt(f, b, y, |a|);
    assert |Bytes(f, a) + x| == |a| + |x| && |Bytes(f, b) + y| == |b| + |y|;
  }

  lemma BytesSame(f: Field, a: string, x: seq<Event>, b: string, y: seq<Event>)
    requires Bytes(f, a) + x == Bytes(f, b) + y
    requires x == [] || !x[0].Byte? || x[0].field != f
    requires y == [] || !y[0].Byte? || y[0].field != f
    ensures a == b && x == y
  {
    NotLonger(f, a, x, b, y);
    NotLonger(f, b, y, a, x);
    var e := Bytes(f, a) + x;
    assert e[|a|..] == x && (Bytes(f, b) + y)[|b|..] == y;
    forall i | 0 <= i < |a| ensures a[i] == b[i] {
      BytesAt(f, a, x, i);
      BytesAt(f, b, y, i);
    }
  }

  lemma WholeSame(f: Field, a: string, x: seq<Event>, b: string, y: seq<Event>)
    requires Whole(f, a) + x == Whole(f, b) + y
    ensures a == b && x == y
  {
    hide Bytes;
    assert Bytes(f, a) + ([Ended(f)] + x) == Whole(f, a) + x;
    assert Bytes(f, b) + ([Ended(f)] + y) == Whole(f, b) + y;
    BytesSame(f, a, [Ended(f)] + x, b, [Ended(f)] + y);
    assert ([Ended(f)] + x)[1..] == x && ([Ended(f)] + y)[1..] == y;
  }

  lemma WholeStarts(f: Field, a: string, x: seq<Event>)
    ensures var e := Whole(f, a) + x; e != [] && !e[0].Told? && e[0].field == f
  {
    if a != "" { assert Whole(f, a)[0] == Byte(f, a[0]); }
  }

  // ---- headers ----

  lemma FirstPart(xs: seq<Part>, x: seq<Event>)
    requires xs != []
    ensures ValueEvents(xs) + x == Whole(HeaderValue, xs[0].value) + (ValueEvents(xs[1..]) + x)
  {}

  lemma {:induction false} ValuesSame(xs: seq<Part>, x: seq<Event>, ys: seq<Part>, y: seq<Event>)
    requires ValueEvents(xs) + x == ValueEvents(ys) + y && Apart(x, HeaderValue) && Apart(y, HeaderValue)
    ensures ValueLines(xs) == ValueLines(ys) && x == y
    decreases |xs|
  {
    hide Whole;
    if xs != [] {
      FirstPart(xs, x);
      WholeStarts(HeaderValue, xs[0].value, ValueEvents(xs[1..]) + x);
    }
    if ys != [] {
      FirstPart(ys, y);
      WholeStarts(HeaderValue, ys[0].value, ValueEvents(ys[1..]) + y);
    }
    assert [] + x == x && [] + y == y;
    if xs != [] && ys != [] {
      WholeSame(HeaderValue, xs[0].value, ValueEvents(xs[1..]) + x, ys[0].value, ValueEvents(ys[1..]) + y);
      ValuesSame(xs[1..], x, ys[1..], y);
    }
  }

  lemma FirstHeader(hs: seq<Header>, x: seq<Event>)
    requires hs != []
    ensures HeaderEvents(hs) + x ==
            Whole(HeaderField, hs[0].name) + (ValueEvents(hs[0].parts) + (HeaderEvents(hs[1..]) + x))
  {}

  lemma HeadersStart(hs: seq<Header>, x: seq<Event>)
    requires x == [] || x[0].Told?
    ensures var e := HeaderEvents(hs) + x;
      && (hs == [] ==> e == x)
      && (hs != [] ==> e != [] && !e[0].Told? && e[0].field == HeaderField)
  {
    hide Whole;
    if hs != [] {
      FirstHeader(hs, x);
      WholeStarts(HeaderField, hs[0].name, ValueEvents(hs[0].parts) + (HeaderEvents(hs[1..]) + x));
    }
  }

  lemma {:induction false} HeadersSame(hs: seq<Header>, x: seq<Event>, gs: seq<Header>, y: seq<Event>)
    requires HeaderEvents(hs) + x == HeaderEvents(gs) + y && (x == [] || x[0].Told?) && (y == [] || y[0].Told?)
    ensures Pairs(hs) == Pairs(gs) && x == y
    decreases |hs|
  {
    hide Whole, HeaderEvents, ValueEvents;
    HeadersStart(hs, x);
    HeadersStart(gs, y);
    if hs != [] && gs != [] {
      var u, v := HeaderEvents(hs[1..]) + x, HeaderEvents(gs[1..]) + y;
      FirstHeader(hs, x);
      FirstHeader(gs, y);
      WholeSame(HeaderField, hs[0].name, ValueEvents(hs[0].parts) + u, gs[0].name, ValueEvents(gs[0].parts) + v);
      HeadersStart(hs[1..], x);
      HeadersStart(gs[1..], y);
      ValuesSame(hs[0].parts, u, gs[0].parts, v);
      HeadersSame(hs[1..], x, gs[1..], y);
    }
  }

  // ---- messages ----

  lemma RestInOrder(b: Block, c: Content, x: seq<Event>)
    ensures (BlockEvents(b) + ContentEvents(c)) + x ==
            HeaderEvents(b.lines) + ([Told(HeadersComplete)]
            + (Bytes(Body, BodyOf(c)) + (HeaderEvents(TrailerOf(c)) + ([Told(MessageComplete)] + x))))
  {
    hide Bytes;
    assert HeaderEvents([]) == [];
    assert ContentEvents(c) == Bytes(Body, BodyOf(c)) + (HeaderEvents(TrailerOf(c)) + [Told(MessageComplete)]);
    hide ContentEvents, HeaderEvents;
  }

  lemma RestSame(b: Block, c: Content, x: seq<Event>, b': Block, c': Content, x': seq<Event>)
    requires (BlockEvents(b) + ContentEvents(c)) + x == (BlockEvents(b') + ContentEvents(c')) + x'
    ensures RestOf(b, c) == RestOf(b', c') && x == x'
  {
    hide Bytes, BlockEvents, ContentEvents, HeaderEvents, Pairs;
    RestInOrder(b, c, x);
    RestInOrder(b', c', x');
    var done, done' := [Told(MessageComplete)] + x, [Told(MessageComplete)] + x';
    var t, t' := HeaderEvents(TrailerOf(c)) + done, HeaderEvents(TrailerOf(c')) + done';
    var body, body' := Bytes(Body, BodyOf(c)) + t, Bytes(Body, BodyOf(c')) + t';
    HeadersSame(b.lines, [Told(HeadersComplete)] + body, b'.lines, [Told(HeadersComplete)] + body');
    Tails(Told(HeadersComplete), body, body');
    HeadersStart(TrailerOf(c), done);
    HeadersStart(TrailerOf(c'), done');
    BytesSame(Body, BodyOf(c), t, BodyOf(c'), t');
    HeadersSame(TrailerOf(c), done, TrailerOf(c'), done');
    Tails(Told(MessageComplete), x, x');
  }

  lemma Tails(e: Event, x: seq<Event>, y: seq<Event>)
    requires [e] + x == [e] + y
    ensures x == y
  {
    assert ([e] + x)[1..] == x && ([e] + y)[1..] == y;
  }

  lemma FirstRequest(rs: seq<Message>)
    requires rs != []
    ensures EventsOf(rs) == [Told(MessageBegin)] + (Whole(Url, rs[0].line.url)
            + ((BlockEvents(rs[0].headers) + ContentEvents(rs[0].content)) + EventsOf(rs[1..])))
  {
    hide Whole, BlockEvents, ContentEvents;
  }

  lemma NoRequests()
    ensures EventsOf([]) == []
  {}

  /** Requests that lead to the same events have the same URLs, headers, bodies and trailers. */
  lemma {:induction false} RequestsTold(rs: seq<Message>, ss: seq<Message>)
    requires EventsOf(rs) == EventsOf(ss)
    ensures SeenOf(rs) == SeenOf(ss)
    decreases |rs|
  {
    hide Whole, BlockEvents, ContentEvents, EventsOf, RestOf;
    NoRequests();
    if rs != [] { FirstRequest(rs); }
    if ss != [] { FirstRequest(ss); }
    if rs != [] && ss != [] {
      var r, s := rs[0], ss[0];
      var u := (BlockEvents(r.headers) + ContentEvents(r.content)) + EventsOf(rs[1..]);
      var v := (BlockEvents(s.headers) + ContentEvents(s.content)) + EventsOf(ss[1..]);
      Tails(Told(MessageBegin), Whole(Url, r.line.url) + u, Whole(Url, s.line.url) + v);
      WholeSame(Url, r.line.url, u, s.line.url, v);
      RestSame(r.headers, r.content, EventsOf(rs[1..]), s.headers, s.content, EventsOf(ss[1..]));
      RequestsTold(rs[1..], ss[1..]);
    }
  }

  // What comes before the headers of a response
  predicate Opens(e: Event) { e == Told(MessageBegin) || e == Told(StatusComplete) }

  lemma {:induction false} OpeningSame(a: seq<Event>, x: seq<Event>, b: seq<Event>, y: seq<Event>)
    requires a + x == b + y && (forall e | e in a :: Opens(e)) && (forall e | e in b :: Opens(e))
    requires x != [] && y != [] && !Opens(x[0]) && !Opens(y[0])
    ensures x == y
    decreases |a|
  {
    assert a == [] ==> a + x == x;
    assert b == [] ==> b + y == y;
    if a != [] { assert (a + x)[0] == a[0]; }
    if b != [] { assert (b + y)[0] == b[0]; }
    if a != [] && b != [] {
      assert (a + x)[1..] == a[1..] + x && (b + y)[1..] == b[1..] + y;
      OpeningSame(a[1..], x, b[1..], y);
    }
  }

  lemma StatusOpens(s: StatusLine)
    ensures forall e | e in StatusEvents(s) :: Opens(e)
  {}

  function BehindStatus(rs: seq<Response>): seq<Event>
    requires rs != []
  {
    (BlockEvents(rs[0].headers) + ContentEvents(rs[0].content)) + EventsOfAll(rs[1..])
  }

  lemma BlockStarts(b: Block, y: seq<Event>, z: seq<Event>)
    ensures var e := (BlockEvents(b) + y) + z; e != [] && !Opens(e[0])
  {
    hide HeaderEvents;
    var x := [Told(HeadersComplete)] + (y + z);
    HeadersStart(b.lines, x);
    assert (BlockEvents(b) + y) + z == HeaderEvents(b.lines) + x;
  }

  lemma FirstResponse(rs: seq<Response>)
    requires rs != []
    ensures EventsOfAll(rs) == StatusEvents(rs[0].line) + BehindStatus(rs)
    ensures BehindStatus(rs) != [] && !Opens(BehindStatus(rs)[0])
    ensures EventsOfAll(rs) != []
  {
    hide ContentEvents, BlockEvents, StatusEvents, Opens;
    BlockStarts(rs[0].headers, ContentEvents(rs[0].content), EventsOfAll(rs[1..]));
    var status, rest := StatusEvents(rs[0].line), BlockEvents(rs[0].headers) + ContentEvents(rs[0].content);
    assert status + (rest + EventsOfAll(rs[1..])) == (status + rest) + EventsOfAll(rs[1..]);
  }

  /** The same for responses. */
  lemma {:induction false} ResponsesTold(rs: seq<Response>, ss: seq<Response>)
    requires EventsOfAll(rs) == EventsOfAll(ss)
    ensures RestsOf(rs) == RestsOf(ss)
    decreases |rs|
  {
    hide BlockEvents, ContentEvents, StatusEvents, RestOf;
    if rs != [] { FirstResponse(rs); }
    if ss != [] { FirstResponse(ss); }
    if rs != [] && ss != [] {
      var r, s := rs[0], ss[0];
      StatusOpens(r.line);
      StatusOpens(s.line);
      OpeningSame(StatusEvents(r.line), BehindStatus(rs), StatusEvents(s.line), BehindStatus(ss));
      RestSame(r.headers, r.content, EventsOfAll(rs[1..]), s.headers, s.content, EventsOfAll(ss[1..]));
      ResponsesTold(rs[1..], ss[1..]);
    }
  }
}
