/** What every message has behind its first line: headers, and then the body they call for. */
module HttpMessages {
  import opened HttpTypes
  import opened HttpSwitch
  import opened HttpRun
  import opened HttpMarks
  import opened HttpReading
  import opened HttpNumbers
  import opened HttpNames
  import opened HttpValues
  import opened HttpHeaders
  import opened HttpParser
  import opened HttpBodies

  // Header lines and the blank line behind them
  datatype Block = Block(lines: seq<Header>, end: LineBreak)

  function BlockText(b: Block): string { HeaderText(b.lines, b.end) }

  // A body of a length that is known (or none), or a chunked one with its trailer
  datatype Content =
    | Plain(data: string)
    | InChunks(chunks: seq<Chunk>, zero: string, extension: string, trailer: Block)

  function ContentText(c: Content): string {
    match c
    case Plain(data) => data
    case InChunks(cs, zero, extension, trailer) => EncodedAll(cs) + (HeadText(zero, extension) + BlockText(trailer))
  }

  function ContentEvents(c: Content): seq<Event> {
    match c
    case Plain(data) => Bytes(Body, data) + [Told(MessageComplete)]
    case InChunks(cs, _, _, trailer) =>
      Bytes(Body, DataOf(cs)) + (HeaderEvents(trailer.lines) + [Told(MessageComplete)])
  }

  function BlockEvents(b: Block): seq<Event> { HeaderEvents(b.lines) + [Told(HeadersComplete)] }

  // The flags at the end, and the header bytes still counted then
  function FinalFlags(b: Block, c: Content): Flags {
    var f := FlagsAfter(NO_FLAGS, b.lines);
    if c.Plain? then f else FlagsAfter(f.(trailing := true), c.trailer.lines)
  }

  function Carried(c: Content): nat {
    if c.Plain? then 0 else |BlockText(c.trailer)|
  }

  // What the headers announce to the parser p in front of them
  function PlanAfter(p: Parser, b: Block): Plan
    requires AllWellFormed(b.lines)
  {
    PlanOf(p.(flags := FlagsAfter(NO_FLAGS, b.lines), contentLength := ContentLengthAfter(ULLONG_MAX, b.lines)))
  }

  // The content is what was announced
  predicate Fitting(plan: Plan, c: Content) {
    match plan
    case NoBody => c == Plain("")
    case Sized(n) => c.Plain? && |c.data| == n && 0 < n < ULLONG_MAX
    case Chunked =>
      c.InChunks? && AllChunks(c.chunks) && IsHead(c.zero, c.extension, 0)
      && AllWellFormed(c.trailer.lines) && |BlockText(c.trailer)| <= MAX_HEADER_SIZE
    case Switching => false
    case UntilEof => false
  }

  // A parser behind the first line of a message
  predicate Begun(p: Parser, b: Block) {
    && p.state == SHeaderFieldStart && p.errno == OK && Room(p, |BlockText(b)|) && AllWellFormed(b.lines)
    && p.flags == NO_FLAGS && p.contentLength == ULLONG_MAX
  }

  // Nothing but the version, the status and the flags matters to what comes next
  predicate Over(p: Parser, b: Block, c: Content, q: Parser) {
    && q == p.(state := q.state, headerState := q.headerState, index := q.index, nread := Carried(c),
               contentLength := q.contentLength, upgrade := false,
               flags := FinalFlags(b, c).(skipBody := p.answer))
    && q.state == NewMessage(q) && !NeedsEof(q)
  }

  /** Headers and body, whatever the headers call for: everything is handed out as it was written,
      and the message is complete with its last byte. */
  lemma RestOfMessage(p: Parser, b: Block, c: Content) returns (q: Parser)
    requires Begun(p, b) && Fitting(PlanAfter(p, b), c)
    ensures Reads(p, BlockText(b) + ContentText(c), q, BlockEvents(b) + ContentEvents(c)) && Over(p, b, c, q)
  {
    hide Run, Lines, HeaderText, FlagsAfter, ContentLengthAfter, HeaderEvents, NewMessage, Bytes, AllChunks, IsHead,
      EncodedAll, HeadText, DataOf, Reads, AllWellFormed;
    FlagsKept(NO_FLAGS, b.lines);
    match PlanAfter(p, b)
    case NoBody => q := BareMessage(p, b);
    case Sized(_) =>
      q := SizedMessage(p, b.lines, b.end, c.data);
    case Chunked =>
      q := ChunkedMessage(p, b.lines, b.end, c.chunks, c.zero, c.extension, c.trailer.lines, c.trailer.end);
      ChunkedKept(b, c);
  }

  lemma ChunkedKept(b: Block, c: Content)
    requires c.InChunks? && FlagsAfter(NO_FLAGS, b.lines).chunked
    ensures FinalFlags(b, c).chunked && !FinalFlags(b, c).skipBody
  {
    var f := FlagsAfter(NO_FLAGS, b.lines).(trailing := true);
    FlagsKept(NO_FLAGS, b.lines);
    FlagsKept(f, c.trailer.lines);
  }

  lemma BareMessage(p: Parser, b: Block) returns (q: Parser)
    requires Begun(p, b) && PlanAfter(p, b) == NoBody
    ensures Reads(p, BlockText(b) + "", q, BlockEvents(b) + (Bytes(Body, "") + [Told(MessageComplete)]))
    ensures Over(p, b, Plain(""), q)
  {
    hide Run, Lines, HeaderText, FlagsAfter, ContentLengthAfter, HeaderEvents, NewMessage, Bytes, AllWellFormed;
    FlagsKept(NO_FLAGS, b.lines);
    var h := HeadersThenPlan(p, b.lines, b.end);
    var d := HeadersRead(h);
    q := d.(state := NewMessage(d));
    assert PlanOf(h) == NoBody;
    NewMessageStable(d);
    NoBytes();
    HeaderTextLength(b);
    assert HeaderEvents(b.lines) + ([Told(HeadersComplete)] + [Told(MessageComplete)])
        == BlockEvents(b) + ([] + [Told(MessageComplete)]);
    assert BlockText(b) + "" == BlockText(b);
  }

  lemma HeaderTextLength(b: Block)
    ensures |BlockText(b)| == |Lines(b.lines)| + |BreakText(b.end)|
  {}

  lemma NoBytes()
    ensures Bytes(Body, "") == []
  {}

  /** A body that lasts as long as the connection: it is handed out as it comes, and the message
      is complete when the input ends. */
  lemma RestUntilEof(p: Parser, b: Block, data: string) returns (q: Parser)
    requires Begun(p, b) && PlanAfter(p, b) == UntilEof
    ensures Reads(p, BlockText(b) + data, q, BlockEvents(b) + Bytes(Body, data))
    ensures Eof(q) == Outcome(Ready, q, [Told(MessageComplete)], 0)
  {
    hide Run, Lines, HeaderText, FlagsAfter, ContentLengthAfter, HeaderEvents, NewMessage, Bytes, AllWellFormed;
    FlagsKept(NO_FLAGS, b.lines);
    var h := HeadersThenPlan(p, b.lines, b.end);
    var d := HeadersRead(h);
    q := d.(state := SBodyIdentityEof);
    assert PlanOf(h) == UntilEof;
    HeaderTextLength(b);
    assert [Told(HeadersComplete)] + [] == [Told(HeadersComplete)];
    OpenBody(q, data);
    ReadsThen(p, BlockText(b), q, BlockEvents(b), data, q, Bytes(Body, data));
  }

  /** An upgrade or a CONNECT: parsing stops right behind the blank line, whatever comes next. */
  lemma RestSwitches(p: Parser, b: Block, rest: string)
    requires Begun(p, b) && PlanAfter(p, b) == Switching
    ensures var o := Run(p, BlockText(b) + rest);
      o.end == Upgrade && o.p.upgrade && o.used == |BlockText(b)| && o.trace == BlockEvents(b) + [Told(MessageComplete)]
  {
    hide Run, Lines, HeaderText, FlagsAfter, ContentLengthAfter, HeaderEvents, NewMessage, AllWellFormed;
    FlagsKept(NO_FLAGS, b.lines);
    var h := HeadersThenPlan(p, b.lines, b.end);
    assert PlanOf(h) == Switching;
    HeaderTextLength(b);
    RunSplit(p, BlockText(b), rest);
    assert HeaderEvents(b.lines) + ([Told(HeadersComplete)] + [Told(MessageComplete)])
        == BlockEvents(b) + [Told(MessageComplete)];
  }

  // HTTP/1.1 stays open unless told to close; earlier versions close unless told to stay
  predicate Stays(major: nat, minor: nat, f: Flags) {
    if major > 0 && minor > 0 then !f.close else f.keepAlive
  }

  lemma NextState(q: Parser)
    requires !NeedsEof(q)
    ensures NewMessage(q) == if Stays(q.httpMajor, q.httpMinor, q.flags) then
                               (if q.kind == Request then SStartReq else SStartRes)
                             else SDead
  {}
}
