/** Building blocks for statements about whole stretches of input: reading a string from
    a given parser, one byte or one part at a time. */
module HttpReading {
  import opened HttpTypes
  import opened HttpSwitch
  import opened HttpRun
  import opened HttpMarks

  // The ends of a line that the parser accepts
  datatype LineBreak = CrLf | BareLf

  function BreakText(e: LineBreak): (s: string)
    ensures 1 <= |s| <= 2
  {
    if e.CrLf? then [CR, LF] else [LF]
  }

  // All of w is read, from p to q, with the events t
  predicate Reads(p: Parser, w: string, q: Parser, t: seq<Event>) {
    Run(p, w) == Outcome(Ready, q, t, |w|)
  }

  predicate Steps(p: Parser, ch: char, q: Parser, t: seq<Event>) {
    ByteStep(p, ch) == Outcome(Ready, q, t, 1)
  }

  // The header size limit does not interfere with n more bytes
  predicate Room(p: Parser, n: nat) { p.nread + n <= MAX_HEADER_SIZE }

  lemma ReadsNothing(p: Parser)
    ensures Reads(p, "", p, [])
  {}

  lemma ReadsThen(p: Parser, a: string, q: Parser, t: seq<Event>, b: string, r: Parser, u: seq<Event>)
    requires Reads(p, a, q, t) && Reads(q, b, r, u)
    ensures Reads(p, a + b, r, t + u)
  {
    hide Run;
    RunSplit(p, a, b);
  }

  lemma ReadsByte(p: Parser, ch: char, q: Parser, t: seq<Event>)
    requires Steps(p, ch, q, t)
    ensures Reads(p, [ch], q, t)
  {
    hide ByteStep;
    assert [ch] != "" && [ch][0] == ch && [ch][1..] == "";
    assert Run(q, "") == Outcome(Ready, q, [], 0);
    assert t + [] == t;
  }

  lemma ReadsMore(p: Parser, w: string, q: Parser, t: seq<Event>, ch: char, r: Parser, u: seq<Event>)
    requires Reads(p, w, q, t) && Steps(q, ch, r, u)
    ensures Reads(p, w + [ch], r, t + u)
  {
    hide Run, ByteStep;
    ReadsByte(q, ch, r, u);
    ReadsThen(p, w, q, t, [ch], r, u);
  }

  // A stretch that is read, and then a byte at which parsing stops
  lemma ReadsThenStops(p: Parser, w: string, q: Parser, t: seq<Event>, ch: char, rest: string)
    requires Reads(p, w, q, t) && ByteStep(q, ch).end != Ready
    ensures Run(p, w + [ch] + rest) == Then(Outcome(Ready, q, t, |w|), ByteStep(q, ch))
  {
    hide ByteStep;
    assert w + [ch] + rest == w + ([ch] + rest);
    RunSplit(p, w, [ch] + rest);
  }

  // What is read first, and whatever becomes of the rest
  lemma ReadsFirst(p: Parser, w: string, q: Parser, t: seq<Event>, rest: string)
    requires Reads(p, w, q, t)
    ensures var o := Run(q, rest);
            Run(p, w + rest) == o.(trace := t + o.trace, used := |w| + o.used)
  {
    hide Run;
    RunSplit(p, w, rest);
  }

  lemma ReadsSilently(p: Parser, w: string, q: Parser, rest: string)
    requires Reads(p, w, q, [])
    ensures var o := Run(q, rest); Run(p, w + rest) == o.(used := |w| + o.used)
  {
    hide Run;
    RunSplit(p, w, rest);
    assert [] + Run(q, rest).trace == Run(q, rest).trace;
  }

  lemma ReadsThenFails(p: Parser, w: string, q: Parser, t: seq<Event>, ch: char)
    requires Reads(p, w, q, t) && ByteStep(q, ch).end == Error
    ensures Run(p, w + [ch]).end == Error && Run(p, w + [ch]).p == ByteStep(q, ch).p
  {
    hide ByteStep, Run;
    ReadsThenStops(p, w, q, t, ch, "");
    assert w + [ch] + "" == w + [ch];
  }

  lemma OneByte(p: Parser, ch: char)
    ensures Run(p, [ch]) == ByteStep(p, ch)
  {
    hide ByteStep;
    var o := ByteStep(p, ch);
    assert [ch] != "" && [ch][0] == ch && [ch][1..] == "";
    assert Run(o.p, "") == Outcome(Ready, o.p, [], 0);
    assert o.trace + [] == o.trace;
  }

  // What follows depends on the first byte and the parser behind it only
  lemma SameFirstByte(p: Parser, q: Parser, w: string)
    requires w != "" && ByteStep(p, w[0]) == ByteStep(q, w[0])
    ensures Run(p, w) == Run(q, w)
  {
    hide ByteStep;
  }

  // ---- the arm of a state ----

  lemma StartDispatch(p: Parser, ch: char)
    requires InStart(p.state)
    ensures Switch(p, ch, 1) == StartArm(p, ch)
  { hide StartArm; }

  lemma MethodDispatch(p: Parser, ch: char)
    requires p.state == SReqMethod
    ensures Switch(p, ch, 1) == MethodArm(p, ch)
  { hide MethodArm; }

  lemma NameDispatch(p: Parser, ch: char)
    requires InHeaderName(p.state)
    ensures Switch(p, ch, 1) == HeaderNameArm(p, ch)
  { hide HeaderNameArm; }

  lemma ValueDispatch(p: Parser, ch: char)
    requires InHeaderValue(p.state)
    ensures Switch(p, ch, 1) == HeaderValueArm(p, ch)
  { hide HeaderValueArm; }

  lemma HeadersEndDispatch(p: Parser, ch: char)
    requires InHeadersEnd(p.state)
    ensures Switch(p, ch, 1) == HeadersEndArm(p, ch)
  { hide HeadersEndArm; }

  lemma ChunkDispatch(p: Parser, ch: char)
    requires InChunk(p.state)
    ensures Switch(p, ch, 1) == ChunkArm(p, ch, 1)
  { hide ChunkArm; }

  lemma UrlDispatch(p: Parser, ch: char)
    requires InUrl(p.state)
    ensures Switch(p, ch, 1) == UrlArm(p, ch)
  { hide UrlArm; }

  lemma RequestVersionDispatch(p: Parser, ch: char)
    requires InRequestVersion(p.state)
    ensures Switch(p, ch, 1) == RequestVersionArm(p, ch)
  { hide RequestVersionArm; }

  lemma StatusLineDispatch(p: Parser, ch: char)
    requires InStatusLine(p.state)
    ensures Switch(p, ch, 1) == StatusLineArm(p, ch)
  { hide StatusLineArm; }

  // A counted byte whose arm breaks
  lemma StepsNext(p: Parser, ch: char, q: Parser, acts: seq<Act>)
    requires ParsingHeader(p.state) && Room(p, 1)
    requires Switch(p.(nread := p.nread + 1), ch, 1) == Next(q, acts)
    ensures Steps(p, ch, q, Notes(acts) + Kept(q.state, ch))
  {
    hide Switch;
  }

  lemma OneFlush(f: Field)
    requires f != Body
    ensures Notes([Flush(f)]) == [Ended(f)]
  {
    assert [Flush(f)][1..] == [];
    assert Notes([Flush(f)]) == Noted(Flush(f)) + Notes([]);
  }

  lemma StepsFail(p: Parser, ch: char, e: Errno)
    requires ParsingHeader(p.state) && Room(p, 1)
    requires var c := p.(nread := p.nread + 1); Switch(c, ch, 1) == Fail(c.(errno := e))
    ensures ByteStep(p, ch) == Outcome(Error, p.(nread := p.nread + 1, errno := e), [], 0)
  {
    hide Switch;
  }

  // A reexecuted byte
  lemma SettleAgain(c: Parser, x: Parser, ch: char)
    requires Switch(c, ch, 1) == Again(x, [])
    ensures Settle(c, ch) == Settle(x, ch)
  {
    hide Switch;
    ReexecutionDescends(c, ch, 1);
    NoNotes(Settle(x, ch));
  }

  lemma NoNotes(o: Outcome)
    ensures o.(trace := Notes([]) + o.trace) == o
  {}
}
