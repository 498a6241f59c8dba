/** The byte-at-a-time reading of the parser: every byte is handed to the switch as
    if it were alone in its call. The invariant of reachable parsers, the termination
    measure of reexecution and the split law are proved here. */
module HttpRun {
  import opened Wrappers
  import opened HttpTypes
  import opened HttpSwitch

  // How a stretch of input ends: all read, `goto error`, early return for an upgrade,
  // or a failed assert
  datatype End = Ready | Error | Upgrade | Assertion

  datatype Outcome = Outcome(end: End, p: Parser, trace: seq<Event>, used: nat)

  // The data callback whose slice grows while the parser rests in state s
  function OpenField(s: State): Option<Field> {
    if InUrl(s) then Some(Url)
    else if s.SHeaderField? then Some(HeaderField)
    else if s.SHeaderValue? then Some(HeaderValue)
    else None
  }

  // A body ends with its message; its slices just add up
  function Ends(f: Field): seq<Event> { if f == Body then [] else [Ended(f)] }

  function Notes(acts: seq<Act>): seq<Event> {
    if acts == [] then [] else Noted(acts[0]) + Notes(acts[1..])
  }

  function Noted(act: Act): seq<Event> {
    match act
    case Notify(n) => [Told(n)]
    case Flush(f) => Ends(f)
    case _ => []
  }

  function Kept(s: State, ch: char): seq<Event> {
    match OpenField(s) case Some(f) => [Byte(f, ch)] case None => []
  }

  /** Reexecution only ever moves down this order. */
  function Rank(s: State): nat {
    match s
    case SHeaderValueLws => 3
    case SHeaderFieldStart => 2
    case SStartReqOrRes | SHeadersAlmostDone | SHeaderValue | SBodyIdentity => 1
    case _ => 0
  }

  predicate Descends(s: State, arm: Arm) {
    arm.Again? || (arm.Bulk? && arm.closing) ==> Rank(arm.p.state) < Rank(s)
  }

  lemma StartDescends(p: Parser, ch: char)
    requires InStart(p.state)
    ensures Descends(p.state, StartArm(p, ch))
  {}
  lemma LineDescends(p: Parser, ch: char)
    ensures Descends(p.state, StatusLineArm(p, ch)) && Descends(p.state, RequestVersionArm(p, ch))
  {}
  lemma MethodUrlDescends(p: Parser, ch: char)
    ensures Descends(p.state, MethodArm(p, ch)) && Descends(p.state, UrlArm(p, ch))
  {}
  lemma HeaderNameDescends(p: Parser, ch: char)
    requires InHeaderName(p.state)
    ensures Descends(p.state, HeaderNameArm(p, ch))
  {}
  lemma HeaderValueDescends(p: Parser, ch: char)
    requires InHeaderValue(p.state)
    ensures Descends(p.state, HeaderValueArm(p, ch))
  {}
  lemma HeadersEndDescends(p: Parser, ch: char)
    requires InHeadersEnd(p.state)
    ensures Descends(p.state, HeadersEndArm(p, ch))
  {}
  lemma BodyDescends(p: Parser, ch: char, avail: nat)
    ensures Descends(p.state, BodyArm(p, ch, avail)) && Descends(p.state, ChunkArm(p, ch, avail))
  {}

  /** The termination measure of `http_parser_execute`: a byte is reexecuted, by a goto
      or after a completed body, only in a state of strictly lower rank. */
  lemma ReexecutionDescends(p: Parser, ch: char, avail: nat)
    ensures Descends(p.state, Switch(p, ch, avail))
  {
    hide StartArm, StatusLineArm, MethodArm, UrlArm, RequestVersionArm, HeaderNameArm,
      HeaderValueArm, HeadersEndArm, BodyArm, ChunkArm, Descends;
    if InStart(p.state) { StartDescends(p, ch); }
    LineDescends(p, ch);
    MethodUrlDescends(p, ch);
    if InHeaderName(p.state) { HeaderNameDescends(p, ch); }
    if InHeaderValue(p.state) { HeaderValueDescends(p, ch); }
    if InHeadersEnd(p.state) { HeadersEndDescends(p, ch); }
    BodyDescends(p, ch, avail);
  }

  // One byte, from the switch on
  function Settle(p: Parser, ch: char): Outcome
    decreases Rank(p.state)
  {
    ReexecutionDescends(p, ch, 1);
    match Switch(p, ch, 1)
    case Next(q, acts) => Outcome(Ready, q, Notes(acts) + Kept(q.state, ch), 1)
    case Again(q, acts) =>
      var o := Settle(q, ch);
      o.(trace := Notes(acts) + o.trace)
    case Bulk(q, _, closing) =>
      if closing then var o := Settle(q, ch); o.(trace := [Byte(Body, ch)] + o.trace)
      else Outcome(Ready, q, [Byte(Body, ch)], 1)
    case Leave(q, acts) => Outcome(Upgrade, q, Notes(acts), 1)
    case Fail(q) => Outcome(Error, q, [], 0)
    case Abort => Outcome(Assertion, p, [], 0)
  }

  // ++nread, for the states that count
  function Counted(p: Parser): Parser {
    if ParsingHeader(p.state) then p.(nread := p.nread + 1) else p
  }

  function ByteStep(p: Parser, ch: char): Outcome {
    var q := Counted(p);
    if ParsingHeader(p.state) && q.nread > MAX_HEADER_SIZE then
      Outcome(Error, q.(errno := HeaderOverflow), [], 0)
    else Settle(q, ch)
  }

  function Then(a: Outcome, b: Outcome): Outcome {
    Outcome(b.end, b.p, a.trace + b.trace, a.used + b.used)
  }

  function Run(p: Parser, data: string): Outcome
    decreases |data|
  {
    if data == "" then Outcome(Ready, p, [], 0)
    else
      var o := ByteStep(p, data[0]);
      if o.end == Ready then Then(o, Run(o.p, data[1..])) else o
  }

  // ---- the split law ----

  lemma {:induction false} RunSplit(p: Parser, a: string, b: string)
    ensures Run(p, a + b) == var o := Run(p, a); if o.end == Ready then Then(o, Run(o.p, b)) else o
    decreases |a|
  {
    hide ByteStep;
    if a == "" {
      assert a + b == b;
    } else {
      assert (a + b)[0] == a[0] && (a + b)[1..] == a[1..] + b;
      var o := ByteStep(p, a[0]);
      if o.end == Ready {
        RunSplit(o.p, a[1..], b);
        var t := Run(o.p, a[1..]);
        if t.end == Ready {
          var u := Run(t.p, b);
          assert (o.trace + t.trace) + u.trace == o.trace + (t.trace + u.trace);
        }
      }
    }
  }

  function Concat(pieces: seq<string>): string {
    if pieces == [] then "" else pieces[0] + Concat(pieces[1..])
  }

  // ---- the upgrade bit ----

  // The bit is set where the headers end and seen at once; no arm goes on with it
  predicate MindsUpgrade(p: Parser, arm: Arm) {
    match arm
    case Next(q, _) => !q.upgrade
    case Again(q, _) => !q.upgrade || q.state.SHeadersDone?
    case Bulk(q, _, _) => !q.upgrade
    case Leave(q, _) => q.upgrade
    case Fail(_) => true
    case Abort => true
  }

  lemma StartMindsUpgrade(p: Parser, ch: char)
    requires !p.upgrade
    ensures MindsUpgrade(p, StartArm(p, ch)) && MindsUpgrade(p, MethodArm(p, ch)) && MindsUpgrade(p, UrlArm(p, ch))
  {
    hide FirstMethod, NextMethod, NameOf, ParseUrlChar, IsAlpha;
  }

  lemma LineMindsUpgrade(p: Parser, ch: char)
    requires !p.upgrade
    ensures MindsUpgrade(p, StatusLineArm(p, ch)) && MindsUpgrade(p, RequestVersionArm(p, ch))
  {
    hide ThreeDigits, IsNum;
  }

  lemma NameMindsUpgrade(p: Parser, ch: char)
    requires !p.upgrade
    ensures MindsUpgrade(p, HeaderNameArm(p, ch))
  {
    hide Token, MatchNext;
  }

  lemma ValueMindsUpgrade(p: Parser, ch: char)
    requires !p.upgrade
    ensures MindsUpgrade(p, HeaderValueArm(p, ch))
  {
    hide Lower, MatchNext, Accumulate, IsNum;
  }

  lemma BodyMindsUpgrade(p: Parser, ch: char, avail: nat)
    requires !p.upgrade
    ensures MindsUpgrade(p, BodyArm(p, ch, avail)) && MindsUpgrade(p, ChunkArm(p, ch, avail))
  {
    hide Unhex, Accumulate, ShouldKeepAlive;
  }

  lemma EndMindsUpgrade(p: Parser, ch: char)
    requires !p.upgrade || p.state.SHeadersDone?
    ensures MindsUpgrade(p, HeadersEndArm(p, ch))
  {
    hide ShouldKeepAlive, NeedsEof;
  }

  lemma SwitchMindsUpgrade(p: Parser, ch: char)
    requires !p.upgrade || p.state.SHeadersDone?
    ensures MindsUpgrade(p, Switch(p, ch, 1))
  {
    hide StartArm, StatusLineArm, MethodArm, UrlArm, RequestVersionArm, HeaderNameArm,
      HeaderValueArm, HeadersEndArm, BodyArm, ChunkArm, MindsUpgrade;
    EndMindsUpgrade(p, ch);
    if !p.upgrade {
      StartMindsUpgrade(p, ch);
      LineMindsUpgrade(p, ch);
      NameMindsUpgrade(p, ch);
      ValueMindsUpgrade(p, ch);
      BodyMindsUpgrade(p, ch, 1);
    }
  }

  lemma {:induction false} SettleMindsUpgrade(p: Parser, ch: char)
    requires !p.upgrade || p.state.SHeadersDone?
    ensures var o := Settle(p, ch); (o.end == Ready ==> !o.p.upgrade) && (o.end == Upgrade ==> o.p.upgrade)
    decreases Rank(p.state)
  {
    hide Switch;
    SwitchMindsUpgrade(p, ch);
    ReexecutionDescends(p, ch, 1);
    match Switch(p, ch, 1)
    case Again(q, _) => SettleMindsUpgrade(q, ch);
    case Bulk(q, _, closing) => if closing { SettleMindsUpgrade(q, ch); }
    case _ =>
  }

  /** A call that comes back early, for another protocol, leaves `upgrade` set, and no other does. */
  lemma {:induction false} UpgradeShows(p: Parser, data: string)
    requires !p.upgrade
    ensures var o := Run(p, data); (o.end == Ready ==> !o.p.upgrade) && (o.end == Upgrade ==> o.p.upgrade)
    decreases |data|
  {
    hide ByteStep;
    if data != "" {
      StepMindsUpgrade(p, data[0]);
      var o := ByteStep(p, data[0]);
      if o.end == Ready { UpgradeShows(o.p, data[1..]); }
    }
  }

  lemma StepMindsUpgrade(p: Parser, ch: char)
    requires !p.upgrade
    ensures var o := ByteStep(p, ch); (o.end == Ready ==> !o.p.upgrade) && (o.end == Upgrade ==> o.p.upgrade)
  {
    hide Settle;
    SettleMindsUpgrade(Counted(p), ch);
  }

  // ---- the invariant ----

  // A keyword matcher has read a proper prefix of its keyword: the next character exists
  predicate Matching(p: Parser, keyword: string) { p.index + 1 < |keyword| }

  predicate NameOk(p: Parser) {
    match p.headerState
    case HGeneral | HConnection | HContentLength | HTransferEncoding | HUpgrade => true
    case HC => p.index == 0
    case HCO => p.index == 1
    case HCON => p.index == 2
    case HMatchingConnection => p.index >= 3 && Matching(p, CONNECTION)
    case HMatchingProxyConnection => Matching(p, PROXY_CONNECTION)
    case HMatchingContentLength => p.index >= 3 && Matching(p, CONTENT_LENGTH)
    case HMatchingTransferEncoding => Matching(p, TRANSFER_ENCODING)
    case HMatchingUpgrade => Matching(p, UPGRADE)
    case _ => false
  }

  predicate ValueOk(p: Parser) {
    match p.headerState
    case HGeneral | HContentLength => true
    case HTransferEncodingChunked | HConnectionKeepAlive | HConnectionClose => true
    case HMatchingTransferEncodingChunked => Matching(p, CHUNKED)
    case HMatchingConnectionKeepAlive => Matching(p, KEEP_ALIVE)
    case HMatchingConnectionClose => Matching(p, CLOSE)
    case _ => false
  }

  predicate InChunkSize(s: State) { s.SChunkSize? || s.SChunkParameters? || s.SChunkSizeAlmostDone? }
  predicate InChunk(s: State) {
    InChunkSize(s) || s.SChunkSizeStart? || s.SChunkData? || s.SChunkDataAlmostDone? || s.SChunkDataDone?
  }

  // The struct's field widths and limits, in a parser without an error
  predicate Widths(p: Parser) {
    && p.errno == OK
    && p.index <= 16 && p.nread <= MAX_HEADER_SIZE && p.contentLength <= ULLONG_MAX
    && p.httpMajor <= 999 && p.httpMinor <= 999 && p.statusCode <= 999
  }

  // What the tables and asserts of each state rely on
  predicate StateOk(p: Parser) {
    && (p.state.SReqMethod? ==> 1 <= p.index <= |NameOf(p.verb)|)
    && (p.state.SHeaderField? ==> NameOk(p))
    && (p.state.SHeaderValue? ==> ValueOk(p))
    && (InChunk(p.state) ==> p.flags.chunked)
    && (InChunkSize(p.state) ==> p.contentLength < ULLONG_MAX)
    && (p.state.SChunkData? || p.state.SBodyIdentity? ==> 0 < p.contentLength < ULLONG_MAX)
    && (p.state.SChunkDataAlmostDone? ==> p.contentLength == 0)
    && (p.state.SHeadersDone? ==> !p.flags.trailing)
  }

  // Between two bytes of a call, and between calls
  predicate Rest(p: Parser) {
    && Widths(p) && StateOk(p) && !p.state.SHeadersDone? && !p.state.SMessageDone?
    && (p.state.SChunkSizeStart? ==> p.nread == 0)
  }

  // When the switch is entered
  predicate AtSwitch(p: Parser) {
    Widths(p) && StateOk(p) && (p.state.SChunkSizeStart? ==> p.nread == 1)
  }

  // States about which StateOk says nothing
  predicate Plain(s: State) {
    !(s.SReqMethod? || s.SHeaderField? || s.SHeaderValue? || InChunk(s) || s.SBodyIdentity?
      || s.SHeadersDone? || s.SMessageDone?)
  }

  predicate ArmOk(arm: Arm, avail: nat) {
    match arm
    case Next(q, _) => Rest(q)
    case Again(q, _) => AtSwitch(q)
    case Bulk(q, k, closing) => 1 <= k <= avail && (if closing then AtSwitch(q) else Rest(q))
    case Leave(q, _) => Rest(q)
    case Fail(q) => q.errno != OK
    case Abort => false
  }

  lemma MatchNextOk(p: Parser, keyword: string, done: HeaderState, c: char)
    requires p.index + 1 < |keyword| <= 17
    ensures var r := MatchNext(p, keyword, done, c);
      && r.index == p.index + 1 && r == p.(index := r.index, headerState := r.headerState)
      && (r.headerState == HGeneral || r.headerState == done
          || (r.headerState == p.headerState && r.index + 1 < |keyword|))
  {}

  predicate NameGoesOn(p: Parser, r: Option<Parser>) {
    && r.Some? && NameOk(r.value) && r.value.index <= 16
    && r.value == p.(index := r.value.index, headerState := r.value.headerState)
  }

  lemma NameMatchOk(p: Parser, c: char)
    requires NameOk(p) && p.index <= 16
    requires p.headerState == HMatchingConnection || p.headerState == HMatchingProxyConnection
          || p.headerState == HMatchingContentLength || p.headerState == HMatchingTransferEncoding
          || p.headerState == HMatchingUpgrade
    ensures NameGoesOn(p, NameChar(p, c))
  {
    hide MatchNext;
    match p.headerState
    case HMatchingConnection => MatchNextOk(p, CONNECTION, HConnection, c);
    case HMatchingProxyConnection => MatchNextOk(p, PROXY_CONNECTION, HConnection, c);
    case HMatchingContentLength => MatchNextOk(p, CONTENT_LENGTH, HContentLength, c);
    case HMatchingTransferEncoding => MatchNextOk(p, TRANSFER_ENCODING, HTransferEncoding, c);
    case _ => MatchNextOk(p, UPGRADE, HUpgrade, c);
  }

  lemma NameCharOk(p: Parser, c: char)
    requires AtSwitch(p) && p.state.SHeaderField?
    ensures var r := NameChar(p, c);
            r.Some? && NameOk(r.value) && r.value.index <= 16
            && r.value == p.(index := r.value.index, headerState := r.value.headerState)
  {
    assert NameOk(p);
    hide MatchNext, NameOf;
    if p.headerState == HMatchingConnection || p.headerState == HMatchingProxyConnection
       || p.headerState == HMatchingContentLength || p.headerState == HMatchingTransferEncoding
       || p.headerState == HMatchingUpgrade {
      NameMatchOk(p, c);
    }
  }

  lemma AccumulateTenSmall(cl: nat, d: nat)
    ensures var r := Accumulate(cl, 10, d); r.Some? ==> r.value < ULLONG_MAX
  {}

  lemma ValueMatchOk(p: Parser, ch: char)
    requires AtSwitch(p) && p.state.SHeaderValue?
    requires p.headerState == HMatchingTransferEncodingChunked || p.headerState == HMatchingConnectionKeepAlive
          || p.headerState == HMatchingConnectionClose
    ensures ArmOk(ValueChar(p, ch), 1)
  {
    assert ValueOk(p);
    var c := Lower(ch);
    hide MatchNext, Lower, Accumulate, NameOk, NameOf;
    if p.headerState == HMatchingTransferEncodingChunked { MatchNextOk(p, CHUNKED, HTransferEncodingChunked, c); }
    else if p.headerState == HMatchingConnectionKeepAlive { MatchNextOk(p, KEEP_ALIVE, HConnectionKeepAlive, c); }
    else { MatchNextOk(p, CLOSE, HConnectionClose, c); }
  }

  lemma ValueCharOk(p: Parser, ch: char)
    requires AtSwitch(p) && p.state.SHeaderValue?
    ensures ArmOk(ValueChar(p, ch), 1)
  {
    assert ValueOk(p);
    if p.headerState == HMatchingTransferEncodingChunked || p.headerState == HMatchingConnectionKeepAlive
       || p.headerState == HMatchingConnectionClose {
      ValueMatchOk(p, ch);
    } else {
      if p.headerState == HContentLength && IsNum(ch) { AccumulateTenSmall(p.contentLength, Digit(ch)); }
      hide MatchNext, Lower, Accumulate, NameOk, NameOf;
    }
  }

  lemma NextMethodOk(m: Method, index: nat, ch: char)
    requires ch != '\0' && 1 <= index <= |NameOf(m)| <= 11
    ensures var r := NextMethod(m, index, ch);
            r.Some? ==> index < |NameOf(r.value)| <= 11
  {}

  lemma NameLength(m: Method)
    ensures 3 <= |NameOf(m)| <= 11
  {}

  lemma MethodOk(p: Parser, ch: char)
    requires AtSwitch(p) && p.state.SReqMethod?
    ensures ArmOk(MethodArm(p, ch), 1)
  {
    hide NameOf, NextMethod;
    NameLength(p.verb);
    if ch != '\0' { NextMethodOk(p.verb, p.index, ch); }
  }

  lemma StartOk(p: Parser, ch: char)
    requires AtSwitch(p) && InStart(p.state)
    ensures ArmOk(StartArm(p, ch), 1)
  {
    hide IsAlpha;
    hide NameOf, FirstMethod, NameOk, ValueOk;
    NameLength(HEAD);
    if FirstMethod(ch).Some? { NameLength(FirstMethod(ch).value); }
  }

  // An arm that breaks into a plain state, or fails
  predicate PlainArm(arm: Arm) {
    match arm
    case Next(q, _) => Widths(q) && Plain(q.state)
    case Fail(q) => q.errno != OK
    case _ => false
  }

  lemma PlainArmOk(arm: Arm)
    requires PlainArm(arm)
    ensures ArmOk(arm, 1)
  {}

  lemma DigitsSmall(p: Parser, ch: char)
    requires IsNum(ch)
    ensures Digit(ch) <= 9
    ensures ThreeDigits(p.httpMajor, ch).Some? ==> ThreeDigits(p.httpMajor, ch).value <= 999
    ensures ThreeDigits(p.httpMinor, ch).Some? ==> ThreeDigits(p.httpMinor, ch).value <= 999
  {}

  lemma ResponseVersionPlain(p: Parser, ch: char)
    requires Widths(p) && InStatusLine(p.state) && !InStatusCode(p.state)
    ensures PlainArm(StatusLineArm(p, ch))
  {
    if IsNum(ch) { DigitsSmall(p, ch); }
    hide ThreeDigits, IsNum;
  }

  predicate InStatusCode(s: State) {
    s.SResFirstStatusCode? || s.SResStatusCode? || s.SResStatus? || s.SResLineAlmostDone?
  }

  lemma StatusCodePlain(p: Parser, ch: char)
    requires Widths(p) && InStatusCode(p.state)
    ensures PlainArm(StatusLineArm(p, ch))
  {}

  predicate InRequestWord(s: State) {
    s.SReqHttpStart? || s.SReqHttpH? || s.SReqHttpHT? || s.SReqHttpHTT? || s.SReqHttpHTTP?
  }

  lemma RequestWordPlain(p: Parser, ch: char)
    requires Widths(p) && InRequestWord(p.state)
    ensures PlainArm(RequestVersionArm(p, ch))
  {}

  lemma RequestVersionPlain(p: Parser, ch: char)
    requires Widths(p) && InRequestVersion(p.state) && !InRequestWord(p.state)
    ensures PlainArm(RequestVersionArm(p, ch))
  {
    if IsNum(ch) { DigitsSmall(p, ch); }
    hide ThreeDigits, IsNum;
  }

  lemma UrlStepPlain(p: Parser, s: State, ch: char, acts: seq<Act>)
    requires Widths(p)
    ensures PlainArm(UrlStep(p, s, ch, acts))
  {
    hide ParseUrlChar;
    UrlStaysUrl(s, ch);
  }

  lemma InUrlPlain(p: Parser, ch: char)
    requires Widths(p) && InUrl(p.state)
    ensures PlainArm(UrlArm(p, ch))
  {
    UrlStepPlain(p, p.state, ch, []);
    hide UrlStep;
    if ch != ' ' && ch != CR && ch != LF {
      hide Widths;
      assert UrlArm(p, ch) == UrlStep(p, p.state, ch, []);
    }
  }

  lemma UrlPlain(p: Parser, ch: char)
    requires Widths(p) && (InUrl(p.state) || p.state.SReqSpacesBeforeUrl?)
    ensures PlainArm(UrlArm(p, ch))
  {
    hide UrlStep;
    if InUrl(p.state) {
      InUrlPlain(p, ch);
    } else {
      UrlStepPlain(p, if p.verb == CONNECT then SReqServerStart else p.state, ch, [Mark(Url)]);
    }
  }

  lemma UrlStaysUrl(s: State, ch: char)
    ensures var t := ParseUrlChar(s, ch); t == SDead || InUrl(t)
  {}

  lemma FieldStartOk(p: Parser, ch: char)
    requires AtSwitch(p) && p.state.SHeaderFieldStart?
    ensures ArmOk(HeaderNameArm(p, ch), 1)
  {
    hide NameOf, ValueOk;
  }

  lemma FieldOk(p: Parser, ch: char)
    requires AtSwitch(p) && p.state.SHeaderField?
    ensures ArmOk(HeaderNameArm(p, ch), 1)
  {
    hide NameChar, Token, NameOf, ValueOk, NameOk;
    NameCharOk(p, Token(ch));
  }

  lemma FirstValueCharOk(p: Parser, ch: char)
    requires AtSwitch(p) && p.state.SHeaderValueStart?
    ensures ArmOk(FirstValueChar(p, ch), 1)
  {
    hide Lower, NameOf, NameOk;
  }

  lemma ValueStartOk(p: Parser, ch: char)
    requires AtSwitch(p) && p.state.SHeaderValueStart?
    ensures ArmOk(HeaderValueArm(p, ch), 1)
  {
    hide FirstValueChar, NameOf, NameOk;
    FirstValueCharOk(p, ch);
  }

  lemma ValueRestOk(p: Parser, ch: char)
    requires AtSwitch(p) && InHeaderValue(p.state) && !p.state.SHeaderValueStart?
    ensures ArmOk(HeaderValueArm(p, ch), 1)
  {
    hide ValueChar, NameOf, NameOk, ValueOk;
    if p.state.SHeaderValue? { ValueCharOk(p, ch); }
  }

  lemma HeadersEndOk(p: Parser, ch: char)
    requires AtSwitch(p) && InHeadersEnd(p.state)
    ensures ArmOk(HeadersEndArm(p, ch), 1)
  {
    hide NeedsEof, NameOf, NameOk, ValueOk;
  }

  lemma UnhexSmall(ch: char)
    ensures Unhex(ch).Some? ==> Unhex(ch).value <= 15
  {}

  lemma BodyOk(p: Parser, ch: char, avail: nat)
    requires AtSwitch(p) && avail >= 1 && InBody(p.state)
    ensures ArmOk(BodyArm(p, ch, avail), avail)
  {
    hide ShouldKeepAlive, NameOf, NameOk, ValueOk;
  }

  lemma AccumulateSmall(cl: nat, d: nat)
    ensures var r := Accumulate(cl, 16, d); r.Some? ==> r.value < ULLONG_MAX
  {}

  lemma FirstSizeOk(p: Parser, ch: char, avail: nat)
    requires AtSwitch(p) && p.state.SChunkSizeStart?
    ensures ArmOk(ChunkArm(p, ch, avail), avail)
  {
    UnhexSmall(ch);
    hide Unhex, NameOf, NameOk, ValueOk, Accumulate;
  }

  lemma ChunkSizeOk(p: Parser, ch: char, avail: nat)
    requires AtSwitch(p) && (InChunkSize(p.state) || p.state.SChunkSizeStart?)
    ensures ArmOk(ChunkArm(p, ch, avail), avail)
  {
    UnhexSmall(ch);
    if Unhex(ch).Some? { AccumulateSmall(p.contentLength, Unhex(ch).value); }
    hide Unhex, NameOf, NameOk, ValueOk, Accumulate;
    if p.state.SChunkSizeStart? { FirstSizeOk(p, ch, avail); }
  }

  lemma ChunkDataOk(p: Parser, ch: char, avail: nat)
    requires AtSwitch(p) && avail >= 1 && InChunk(p.state) && !InChunkSize(p.state) && !p.state.SChunkSizeStart?
    ensures ArmOk(ChunkArm(p, ch, avail), avail)
  {
    hide Unhex, NameOf, NameOk, ValueOk;
  }

  /** No assert of the switch can fail, the table lookups stay inside their strings,
      and every arm leads to a state that is in order again. */
  lemma SwitchOk(p: Parser, ch: char, avail: nat)
    requires AtSwitch(p) && avail >= 1
    ensures ArmOk(Switch(p, ch, avail), avail)
  {
    hide StartArm, StatusLineArm, MethodArm, UrlArm, RequestVersionArm, HeaderNameArm,
      HeaderValueArm, HeadersEndArm, BodyArm, ChunkArm, StateOk, Rest;
    var s := p.state;
    if InStart(s) { StartOk(p, ch); }
    else if InStatusLine(s) { if InStatusCode(s) { StatusCodePlain(p, ch); } else { ResponseVersionPlain(p, ch); }
      PlainArmOk(StatusLineArm(p, ch)); }
    else if s.SReqMethod? { MethodOk(p, ch); }
    else if InUrl(s) || s.SReqSpacesBeforeUrl? { UrlPlain(p, ch); PlainArmOk(UrlArm(p, ch)); }
    else if InRequestVersion(s) {
      if InRequestWord(s) { RequestWordPlain(p, ch); } else { RequestVersionPlain(p, ch); }
      PlainArmOk(RequestVersionArm(p, ch)); }
    else if InHeaderName(s) { if s.SHeaderField? { FieldOk(p, ch); } else { FieldStartOk(p, ch); } }
    else if InHeaderValue(s) { if s.SHeaderValueStart? { ValueStartOk(p, ch); } else { ValueRestOk(p, ch); } }
    else if InHeadersEnd(s) { HeadersEndOk(p, ch); }
    else if InBody(s) { BodyOk(p, ch, avail); }
    else if InChunkSize(s) || s.SChunkSizeStart? { ChunkSizeOk(p, ch, avail); }
    else { ChunkDataOk(p, ch, avail); }
  }

  lemma {:induction false} SettleOk(p: Parser, ch: char)
    requires AtSwitch(p)
    ensures OutcomeOk(Settle(p, ch))
    decreases Rank(p.state)
  {
    SwitchOk(p, ch, 1);
    ReexecutionDescends(p, ch, 1);
    match Switch(p, ch, 1)
    case Again(q, _) => SettleOk(q, ch);
    case Bulk(q, _, closing) => if closing { SettleOk(q, ch); }
    case _ =>
  }

  predicate OutcomeOk(o: Outcome) {
    && o.end != Assertion
    && (if o.end == Error then o.p.errno != OK else Rest(o.p))
  }

  lemma {:induction false} RunOk(p: Parser, data: string)
    requires Rest(p)
    ensures OutcomeOk(Run(p, data)) && Run(p, data).used <= |data|
    ensures Run(p, data).end == Ready ==> Run(p, data).used == |data|
    decreases |data|
  {
    hide ByteStep;
    hide Rest;
    if data != "" {
      ByteStepOk(p, data[0]);
      var o := ByteStep(p, data[0]);
      if o.end == Ready { RunOk(o.p, data[1..]); }
    }
  }

  lemma ByteStepOk(p: Parser, ch: char)
    requires Rest(p)
    ensures OutcomeOk(ByteStep(p, ch)) && ByteStep(p, ch).used <= 1
    ensures ByteStep(p, ch).end == Ready ==> ByteStep(p, ch).used == 1
  {
    var q := Counted(p);
    if !(ParsingHeader(p.state) && q.nread > MAX_HEADER_SIZE) {
      SettleOk(q, ch);
      SettleUsed(q, ch);
    }
  }

  lemma {:induction false} SettleUsed(p: Parser, ch: char)
    ensures Settle(p, ch).used <= 1
    ensures Settle(p, ch).end == Ready ==> Settle(p, ch).used == 1
    decreases Rank(p.state)
  {
    ReexecutionDescends(p, ch, 1);
    match Switch(p, ch, 1)
    case Again(q, _) => SettleUsed(q, ch);
    case Bulk(q, _, closing) => if closing { SettleUsed(q, ch); }
    case _ =>
  }
}
