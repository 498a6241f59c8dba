/** A parser of type HTTP_BOTH, which finds out from the first bytes what it is reading: from then
    on it is a parser for requests or one for responses. */
module HttpBoth {
  import opened Wrappers
  import opened HttpTypes
  import opened HttpSwitch
  import opened HttpRun
  import opened HttpMarks
  import opened HttpReading
  import opened HttpParser
  import opened HttpHeaders
  import opened HttpBodies
  import opened HttpMethods
  import opened HttpMessages
  import opened HttpRequests
  import opened HttpResponses

  // A parser that does not know yet, n bytes to come
  predicate Undecided(p: Parser, n: nat) {
    p.state == SStartReqOrRes && p.kind == Both && p.errno == OK && Room(p, n)
  }

  function AsRequest(p: Parser): Parser { p.(kind := Request, state := SStartReq) }

  function AsResponse(p: Parser): Parser { p.(kind := ParserType.Response, state := SStartRes) }

  lemma {:induction false} SilentLines(p: Parser, lead: string)
    requires Undecided(p, |lead|) && forall c | c in lead :: IsCrLf(c)
    ensures Reads(p, lead, p.(nread := p.nread + |lead|), [])
    decreases |lead|
  {
    hide Run, ByteStep;
    if lead == "" {
      ReadsNothing(p);
    } else {
      var l, ch := lead[..|lead| - 1], lead[|lead| - 1];
      assert lead == l + [ch] && ch in lead && forall c | c in l :: c in lead;
      var q := p.(nread := p.nread + |l|);
      SilentLines(p, l);
      SilentStep(q, ch);
      ReadsMore(p, l, q, [], ch, q.(nread := q.nread + 1), []);
    }
  }

  lemma SilentStep(p: Parser, ch: char)
    requires Undecided(p, 1) && IsCrLf(ch)
    ensures Steps(p, ch, p.(nread := p.nread + 1), [])
  {
    StepsNext(p, ch, p.(nread := p.nread + 1), []);
  }

  // Any first byte but H is read again, as that of a request
  lemma RequestStep(p: Parser, ch: char)
    requires Undecided(p, 1) && !IsCrLf(ch) && ch != 'H'
    ensures ByteStep(p, ch) == ByteStep(AsRequest(p), ch)
  {
    var c := Counted(p);
    var x := c.(kind := Request, state := SStartReq, flags := NO_FLAGS, contentLength := ULLONG_MAX);
    assert Switch(c, ch, 1) == Again(x, []);
    SameStart(x, Counted(AsRequest(p)), ch);
    hide Switch, Settle;
    SettleAgain(c, x, ch);
    SettleSame(x, Counted(AsRequest(p)), ch);
  }

  lemma SameStart(x: Parser, y: Parser, ch: char)
    requires x.state == SStartReq && !IsCrLf(ch)
    requires x == y.(flags := NO_FLAGS, contentLength := ULLONG_MAX)
    ensures Switch(x, ch, 1) == Switch(y, ch, 1) && !Switch(x, ch, 1).Again? && !Switch(x, ch, 1).Bulk?
         && !Switch(x, ch, 1).Abort?
  {
    hide IsAlpha, FirstMethod;
  }

  lemma SettleSame(x: Parser, y: Parser, ch: char)
    requires Switch(x, ch, 1) == Switch(y, ch, 1)
    requires !Switch(x, ch, 1).Again? && !Switch(x, ch, 1).Bulk? && !Switch(x, ch, 1).Abort?
    ensures Settle(x, ch) == Settle(y, ch)
  {
    hide Switch;
  }

  // The parser behind an H: not decided yet
  function BehindH(p: Parser): Parser {
    p.(flags := NO_FLAGS, contentLength := ULLONG_MAX, state := SResOrRespH, nread := p.nread + 1)
  }

  lemma HStep(p: Parser)
    requires Undecided(p, 1)
    ensures Steps(p, 'H', BehindH(p), [Told(MessageBegin)])
  {
    StepsNext(p, 'H', BehindH(p), [Notify(MessageBegin)]);
    assert Notes([Notify(MessageBegin)]) == [Told(MessageBegin)];
  }

  lemma SecondStep(p: Parser, ch: char)
    requires Undecided(p, 2)
    ensures var q := BehindH(p); var c := q.(nread := q.nread + 1);
      if ch == 'T' then Steps(q, ch, c.(kind := ParserType.Response, state := SResHT), [])
      else if ch == 'E' then Steps(q, ch, c.(kind := Request, verb := HEAD, index := 2, state := SReqMethod), [])
      else ByteStep(q, ch).end == Error && ByteStep(q, ch).p.errno == InvalidConstant
  {
    var q := BehindH(p);
    var c := q.(nread := q.nread + 1);
    if ch == 'T' {
      StepsNext(q, ch, c.(kind := ParserType.Response, state := SResHT), []);
    } else if ch == 'E' {
      StepsNext(q, ch, c.(kind := Request, verb := HEAD, index := 2, state := SReqMethod), []);
    } else {
      StepsFail(q, ch, InvalidConstant);
    }
  }

  // The same two bytes read by a parser for responses and by one for requests
  lemma ResponseBegins(p: Parser)
    requires p.state == SStartRes && p.errno == OK && Room(p, 2)
    ensures Reads(p, "HT", p.(flags := NO_FLAGS, contentLength := ULLONG_MAX, state := SResHT, nread := p.nread + 2),
                  [Told(MessageBegin)])
  {
    hide Run, ByteStep;
    var a := p.(flags := NO_FLAGS, contentLength := ULLONG_MAX, state := SResH, nread := p.nread + 1);
    StatusStart(p);
    ReadsByte(p, 'H', a, [Told(MessageBegin)]);
    NextLetter(a);
    ReadsMore(p, ['H'], a, [Told(MessageBegin)], 'T', a.(state := SResHT, nread := a.nread + 1), []);
    assert ['H'] + ['T'] == "HT" && [Told(MessageBegin)] + [] == [Told(MessageBegin)];
  }

  lemma NextLetter(a: Parser)
    requires a.state == SResH && a.errno == OK && Room(a, 1)
    ensures Steps(a, 'T', a.(state := SResHT, nread := a.nread + 1), [])
  {
    StepsNext(a, 'T', a.(state := SResHT, nread := a.nread + 1), []);
  }

  lemma HeadBegins(p: Parser)
    requires Waiting(p, 3)
    ensures Reads(p, "HE", InMethod(p, HEAD, 2, 2), [Told(MessageBegin)])
  {
    hide Run, ByteStep, Reads;
    WordRun(p, "HE", 2);
    assert Held("HE", 1) == Some(HEAD);
    assert Held("HE", 2) == Some(HEAD);
    assert "HE"[..2] == "HE";
  }

  lemma TwoBytes(p: Parser, ch: char, q: Parser)
    requires Undecided(p, 2) && Steps(BehindH(p), ch, q, [])
    ensures Reads(p, "H" + [ch], q, [Told(MessageBegin)])
  {
    hide Run, ByteStep;
    HStep(p);
    ReadsByte(p, 'H', BehindH(p), [Told(MessageBegin)]);
    ReadsMore(p, "H", BehindH(p), [Told(MessageBegin)], ch, q, []);
    assert [Told(MessageBegin)] + [] == [Told(MessageBegin)];
  }

  /** From its first bytes on the parser is one of the two: behind any line breaks, told by neither,
      HT makes it a parser for responses, HE and anything that does not begin with H one for
      requests, and any other byte behind an H is HPE_INVALID_CONSTANT. */
  lemma Decided(p: Parser, w: string)
    requires Undecided(p, 3) && |w| >= 2 && !IsCrLf(w[0])
    ensures w[0] != 'H' || w[1] == 'E' ==> Run(p, w) == Run(AsRequest(p), w)
    ensures w[0] == 'H' && w[1] == 'T' ==> Run(p, w) == Run(AsResponse(p), w)
    ensures w[0] == 'H' && w[1] != 'T' && w[1] != 'E' ==> Run(p, w).end == Error && Run(p, w).p.errno == InvalidConstant
  {
    hide Run, ByteStep, Reads;
    if w[0] != 'H' {
      RequestStep(p, w[0]);
      SameFirstByte(p, AsRequest(p), w);
    } else {
      var rest := w[2..];
      assert w == "H" + [w[1]] + rest;
      SecondStep(p, w[1]);
      var b := BehindH(p);
      var c := b.(nread := b.nread + 1);
      if w[1] == 'T' {
        var q := c.(kind := ParserType.Response, state := SResHT);
        TwoBytes(p, 'T', q);
        assert "H" + ['T'] == "HT";
        ResponseBegins(AsResponse(p));
        ReadsFirst(p, "HT", q, [Told(MessageBegin)], rest);
        ReadsFirst(AsResponse(p), "HT", q, [Told(MessageBegin)], rest);
      } else if w[1] == 'E' {
        var q := c.(kind := Request, verb := HEAD, index := 2, state := SReqMethod);
        TwoBytes(p, 'E', q);
        assert "H" + ['E'] == "HE";
        HeadBegins(AsRequest(p));
        ReadsFirst(p, "HE", q, [Told(MessageBegin)], rest);
        ReadsFirst(AsRequest(p), "HE", q, [Told(MessageBegin)], rest);
      } else {
        BadSecond(p, w[1], rest);
      }
    }
  }

  lemma BadSecond(p: Parser, ch: char, rest: string)
    requires Undecided(p, 2)
    requires ByteStep(BehindH(p), ch).end == Error && ByteStep(BehindH(p), ch).p.errno == InvalidConstant
    ensures var o := Run(p, "H" + [ch] + rest); o.end == Error && o.p.errno == InvalidConstant
  {
    hide Run, ByteStep;
    HStep(p);
    ReadsByte(p, 'H', BehindH(p), [Told(MessageBegin)]);
    ReadsThenStops(p, "H", BehindH(p), [Told(MessageBegin)], ch, rest);
  }

  // ---- whole messages ----

  lemma NameDecides(m: Method)
    ensures |NameOf(m)| >= 2 && !IsCrLf(NameOf(m)[0]) && (NameOf(m)[0] == 'H' ==> NameOf(m)[1] == 'E')
  {}

  function BehindLead(r: Message): string {
    (NameOf(r.line.verb) + " ")
    + ((r.line.gap + (r.line.url + VersionText(r.line.version))) + (BlockText(r.headers) + ContentText(r.content)))
  }

  lemma LeadFirst(r: Message)
    ensures Text(r) == r.line.lead + BehindLead(r)
  {
    hide NameOf, VersionText, BlockText, ContentText;
    var a, b, c := r.line.lead, NameOf(r.line.verb) + " ", r.line.gap + (r.line.url + VersionText(r.line.version));
    var d := BlockText(r.headers) + ContentText(r.content);
    assert (a + (b + c)) + d == a + (b + (c + d));
  }

  lemma NameFirst(r: Message)
    ensures var w := BehindLead(r); |w| >= 2 && !IsCrLf(w[0]) && (w[0] == 'H' ==> w[1] == 'E')
  {
    hide VersionText, BlockText, ContentText;
    NameDecides(r.line.verb);
    hide NameOf;
  }

  lemma LeadIs(r: RequestLine)
    requires IsRequestLine(r)
    ensures forall c | c in r.lead :: IsCrLf(c)
  {}

  // Any line breaks, and then the first two bytes of a request or of a response
  lemma RequestDecided(p: Parser, lead: string, w: string)
    requires Undecided(p, |lead| + 3) && (forall c | c in lead :: IsCrLf(c))
    requires |w| >= 2 && !IsCrLf(w[0]) && (w[0] == 'H' ==> w[1] == 'E')
    ensures Run(p, lead + w) == Run(AsRequest(p), lead + w)
  {
    hide Run, Reads;
    var q := p.(nread := p.nread + |lead|);
    SilentLines(p, lead);
    LeadingLines(AsRequest(p), lead);
    ReadsSilently(p, lead, q, w);
    ReadsSilently(AsRequest(p), lead, AsRequest(q), w);
    Decided(q, w);
  }

  lemma TurnsResponse(p: Parser, w: string)
    requires Undecided(p, 3) && |w| >= 2 && w[0] == 'H' && w[1] == 'T'
    ensures Run(p, w) == Run(AsResponse(p), w)
  {
    hide Run;
    Decided(p, w);
  }

  lemma ResponseDecided(p: Parser, lead: string, w: string)
    requires Undecided(p, |lead| + 3) && (forall c | c in lead :: IsCrLf(c))
    requires |w| >= 2 && w[0] == 'H' && w[1] == 'T'
    ensures var o := Run(AsResponse(p).(nread := p.nread + |lead|), w); Run(p, lead + w) == o.(used := |lead| + o.used)
  {
    hide Run, Reads;
    var q := p.(nread := p.nread + |lead|);
    SilentLines(p, lead);
    ReadsSilently(p, lead, q, w);
    TurnsResponse(q, w);
  }

  /** A request, as a parser for requests reads it. */
  lemma BothRequest(p: Parser, r: Message) returns (q: Parser)
    requires Undecided(p, 0) && !p.upgrade && IsRequest(AsRequest(p), r)
    ensures Reads(p, Text(r), q, RequestEvents(r))
    ensures if KeepsAlive(r) then Idle(q) && q.nread == Carried(r.content) && q.answer == p.answer else q.state == SDead
  {
    RoomForName(AsRequest(p), r);
    LeadFirst(r);
    NameFirst(r);
    LeadIs(r.line);
    RequestDecided(p, r.line.lead, BehindLead(r));
    hide Run, IsRequest, Text, RequestEvents, IsRequestLine, BehindLead;
    q := RequestRun(AsRequest(p), r);
  }

  lemma RoomForName(p: Parser, r: Message)
    requires IsRequest(p, r)
    ensures Room(p, |r.line.lead| + 3) && IsRequestLine(r.line) && VersionOk(r.line.version)
  {
    hide AllWellFormed, IsRequestLine, BlockText, Fitting;
    NameDecides(r.line.verb);
    LineGives(r.line);
  }

  /** A response likewise, except that no message is announced for line breaks in front of it. */
  lemma BothResponse(p: Parser, lead: string, r: HttpResponses.Response) returns (q: Parser)
    requires Undecided(p, |lead|) && !p.upgrade && p.verb != CONNECT && (forall c | c in lead :: IsCrLf(c))
    requires r.line.lead == "" && IsResponse(AsResponse(p).(nread := p.nread + |lead|), r)
    ensures Reads(p, lead + ResponseText(r), q, ResponseEvents(r))
    ensures if KeepsOpen(r) then Awaiting(q) && q.nread == Carried(r.content) && q.answer == p.answer
            else q.state == SDead
  {
    var a := AsResponse(p).(nread := p.nread + |lead|);
    StatusFirst(r);
    RoomForStatus(a, r);
    hide Run, IsResponse, ResponseText, ResponseEvents, IsStatusLine, KeepsOpen, Carried;
    ResponseDecided(p, lead, ResponseText(r));
    assert Awaiting(a) && a.answer == p.answer;
    hide AsResponse, Awaiting, Undecided;
    q := ResponseRun(a, r);
  }

  lemma StatusFirst(r: HttpResponses.Response)
    requires r.line.lead == ""
    ensures var w := ResponseText(r); |w| >= 3 && w[0] == 'H' && w[1] == 'T'
  {
    hide NumbersText, BlockText, ContentText;
    var s := StatusText(r.line);
    assert |s| >= 5 && s[0] == 'H' && s[1] == 'T';
    hide StatusText;
  }

  lemma RoomForStatus(p: Parser, r: HttpResponses.Response)
    requires IsResponse(p, r)
    ensures Room(p, 3) && IsStatusLine(r.line)
  {
    hide AllWellFormed, IsStatusLine, BlockText, Fitting, NumbersText;
  }
}
