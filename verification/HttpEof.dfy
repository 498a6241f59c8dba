/** The end of a connection: what `http_parser_execute` makes of a call without input, by what the
    callbacks have told so far; and what it makes of more bytes once no further message is awaited. */
module HttpEof {
  import opened Wrappers
  import opened HttpTypes
  import opened HttpSwitch
  import opened HttpRun
  import opened HttpMarks
  import opened HttpReading
  import opened HttpParser

  // Whether a message has begun and not been completed, by the events t; b says whether one had
  // before them
  function Underway(b: bool, t: seq<Event>): bool {
    if t == [] then b
    else
      var e := t[|t| - 1];
      if e == Told(MessageBegin) then true
      else if e == Told(MessageComplete) then false
      else Underway(b, t[..|t| - 1])
  }

  lemma {:induction false} UnderwayMore(b: bool, t: seq<Event>, u: seq<Event>)
    ensures Underway(b, t + u) == Underway(Underway(b, t), u)
    decreases |u|
  {
    if u == [] {
      assert t + u == t;
    } else {
      var n := |u| - 1;
      assert (t + u)[|t + u| - 1] == u[n] && (t + u)[..|t + u| - 1] == t + u[..n];
      UnderwayMore(b, t, u[..n]);
    }
  }

  // The states in which the parser awaits a message
  predicate Awaits(s: State) { s == SDead || s == SStartReqOrRes || s == SStartRes || s == SStartReq }

  // A message is under way in all other states, and may be in s_start_res, where line breaks
  // announce one already
  predicate Agrees(s: State, b: bool) { s == SStartRes || b == !Awaits(s) }

  predicate Turns(s: State, acts: seq<Act>, t: State) {
    if acts == [Notify(MessageBegin)] then !Awaits(t) || t == SStartRes
    else if acts == [Notify(MessageComplete)] then Awaits(t)
    else
      && (forall a | a in acts :: a != Notify(MessageBegin) && a != Notify(MessageComplete))
      && (t == SStartRes || (s != SStartRes && (Awaits(s) <==> Awaits(t))))
  }

  // A parser of requests does not come to s_start_res
  predicate OfRequests(p: Parser) {
    p.kind == Request && p.state != SStartRes && p.state != SStartReqOrRes && p.state != SResOrRespH
  }

  predicate ArmTurns(p: Parser, arm: Arm) {
    match arm
    case Next(q, acts) => Turns(p.state, acts, q.state) && (OfRequests(p) ==> OfRequests(q))
    case Again(q, acts) => Turns(p.state, acts, q.state) && (OfRequests(p) ==> OfRequests(q))
    case Bulk(q, _, _) => !Awaits(p.state) && !Awaits(q.state) && (OfRequests(p) ==> OfRequests(q))
    case _ => true
  }

  lemma StartTurns(p: Parser, ch: char)
    requires InStart(p.state)
    ensures ArmTurns(p, StartArm(p, ch))
  { hide IsAlpha, FirstMethod; }

  lemma StatusTurns(p: Parser, ch: char)
    requires InStatusLine(p.state)
    ensures ArmTurns(p, StatusLineArm(p, ch))
  {
    hide ThreeDigits, IsNum;
    assert !Awaits(p.state);
  }

  lemma MethodTurns(p: Parser, ch: char)
    requires p.state == SReqMethod
    ensures ArmTurns(p, MethodArm(p, ch))
  { hide NextMethod, NameOf; }

  lemma UrlDoesNotAwait(s: State)
    ensures InUrl(s) || s == SReqSpacesBeforeUrl || InRequestVersion(s) || s == SHeaderFieldStart ==>
              !Awaits(s) && s != SResOrRespH
  {}

  lemma UrlStepTurns(p: Parser, s: State, ch: char, acts: seq<Act>)
    requires !Awaits(p.state) && (acts == [] || acts == [Mark(Url)])
    ensures ArmTurns(p, UrlStep(p, s, ch, acts))
  {
    UrlStaysUrl(s, ch);
    UrlDoesNotAwait(ParseUrlChar(s, ch));
    hide ParseUrlChar, InUrl;
  }

  lemma UrlEndTurns(p: Parser, ch: char)
    requires InUrl(p.state) && (ch == ' ' || ch == CR || ch == LF)
    ensures ArmTurns(p, UrlArm(p, ch))
  {
    UrlDoesNotAwait(p.state);
    hide UrlStep;
  }

  lemma StandsStill(p: Parser)
    ensures p.state != SStartRes ==> ArmTurns(p, Next(p, []))
  {}

  lemma UrlTurns(p: Parser, ch: char)
    requires InUrl(p.state) || p.state == SReqSpacesBeforeUrl
    ensures ArmTurns(p, UrlArm(p, ch))
  {
    UrlDoesNotAwait(p.state);
    if InUrl(p.state) && (ch == ' ' || ch == CR || ch == LF) { UrlEndTurns(p, ch); }
    UrlStepTurns(p, p.state, ch, []);
    UrlStepTurns(p, p.state, ch, [Mark(Url)]);
    UrlStepTurns(p, SReqServerStart, ch, [Mark(Url)]);
    hide UrlStep, ArmTurns;
    StandsStill(p);
  }

  lemma VersionTurns(p: Parser, ch: char)
    requires InRequestVersion(p.state)
    ensures ArmTurns(p, RequestVersionArm(p, ch))
  {
    hide ThreeDigits, IsNum;
    assert !Awaits(p.state);
  }

  lemma NameTurns(p: Parser, ch: char)
    requires InHeaderName(p.state)
    ensures ArmTurns(p, HeaderNameArm(p, ch))
  {
    OnlyName(p, Token(ch));
    hide Token, NameChar;
  }

  lemma OnlyName(p: Parser, c: char)
    ensures NameChar(p, c).Some? ==> NameChar(p, c).value.state == p.state && NameChar(p, c).value.kind == p.kind
  {}

  lemma ValueCharTurns(p: Parser, ch: char)
    requires InHeaderValue(p.state)
    ensures p.state == SHeaderValueStart ==> ArmTurns(p, FirstValueChar(p, ch))
    ensures p.state == SHeaderValue ==> ArmTurns(p, ValueChar(p, ch))
  { hide Lower, MatchNext, Accumulate, IsNum; }

  lemma ValueTurns(p: Parser, ch: char)
    requires InHeaderValue(p.state)
    ensures ArmTurns(p, HeaderValueArm(p, ch))
  {
    ValueCharTurns(p, ch);
    if p.state == SHeaderValueStart { ValueStartTurns(p, ch); }
    else if p.state == SHeaderValue { InValueTurns(p, ch); }
    else { ValueEndTurns(p, ch); }
  }

  lemma ValueStartTurns(p: Parser, ch: char)
    requires p.state == SHeaderValueStart && ArmTurns(p, FirstValueChar(p, ch))
    ensures ArmTurns(p, HeaderValueArm(p, ch))
  { hide FirstValueChar, LineFlags; }

  lemma EndOfValueTurns(p: Parser, ch: char)
    requires p.state == SHeaderValue && (ch == CR || ch == LF)
    ensures ArmTurns(p, HeaderValueArm(p, ch))
  { hide ValueChar, LineFlags; }

  lemma InValueTurns(p: Parser, ch: char)
    requires p.state == SHeaderValue && ArmTurns(p, ValueChar(p, ch))
    ensures ArmTurns(p, HeaderValueArm(p, ch))
  {
    hide ValueChar, LineFlags, MatchNext;
    if ch == CR || ch == LF {
      EndOfValueTurns(p, ch);
    } else {
      assert HeaderValueArm(p, ch) == ValueChar(p, ch);
    }
  }

  lemma ValueEndTurns(p: Parser, ch: char)
    requires p.state == SHeaderAlmostDone || p.state == SHeaderValueLws
    ensures ArmTurns(p, HeaderValueArm(p, ch))
  { hide LineFlags; }

  lemma NewMessageAwaits(p: Parser)
    ensures Awaits(NewMessage(p)) && (p.kind == Request ==> NewMessage(p) == SStartReq || NewMessage(p) == SDead)
  { hide ShouldKeepAlive; }

  lemma CompletionTurns(p: Parser, q: Parser)
    requires !Awaits(p.state) && (OfRequests(p) ==> q.kind == Request)
    ensures ArmTurns(p, Complete(q))
  {
    NewMessageAwaits(q);
    hide NewMessage;
    assert [Notify(MessageComplete)] != [Notify(MessageBegin)];
  }

  lemma GoTurns(p: Parser, q: Parser, s: State)
    requires !Awaits(p.state) && !Awaits(s) && s != SResOrRespH && q.kind == p.kind
    ensures ArmTurns(p, Go(q, s))
  {}

  lemma HeadersEndTurns(p: Parser, ch: char)
    requires InHeadersEnd(p.state)
    ensures ArmTurns(p, HeadersEndArm(p, ch))
  {
    if p.state == SHeadersDone { HeadersDoneTurns(p, ch); } else { HeadersAlmostTurns(p, ch); }
  }

  lemma HeadersDoneIs(p: Parser, ch: char)
    requires p.state == SHeadersDone
    ensures var arm, q := HeadersEndArm(p, ch), p.(nread := 0);
      arm.Fail? || arm.Leave? || arm == Complete(q) || arm == Go(q, SChunkSizeStart) || arm == Go(q, SBodyIdentity)
      || arm == Go(q, SBodyIdentityEof)
  {
    hide NewMessage, NeedsEof, Complete, Go;
  }

  lemma StopTurns(p: Parser, arm: Arm)
    requires arm.Fail? || arm.Leave?
    ensures ArmTurns(p, arm)
  {}

  lemma BodiesFollow()
    ensures !Awaits(SHeadersDone) && !Awaits(SChunkSizeStart) && !Awaits(SBodyIdentity) && !Awaits(SBodyIdentityEof)
  {}

  lemma HeadersDoneTurns(p: Parser, ch: char)
    requires p.state == SHeadersDone
    ensures ArmTurns(p, HeadersEndArm(p, ch))
  {
    hide HeadersEndArm, Complete, Go, ArmTurns, Awaits, Turns;
    var arm, q := HeadersEndArm(p, ch), p.(nread := 0);
    HeadersDoneIs(p, ch);
    if arm.Fail? || arm.Leave? {
      StopTurns(p, arm);
    } else if arm == Complete(q) {
      BodiesFollow();
      CompletionTurns(p, q);
    } else {
      BodiesFollow();
      GoTurns(p, q, SChunkSizeStart);
      GoTurns(p, q, SBodyIdentity);
      GoTurns(p, q, SBodyIdentityEof);
    }
  }

  lemma HeadersAlmostTurns(p: Parser, ch: char)
    requires p.state == SHeadersAlmostDone
    ensures ArmTurns(p, HeadersEndArm(p, ch))
  {
    CompletionTurns(p, p);
    hide NewMessage, NeedsEof, Complete;
  }

  lemma BodyTurns(p: Parser, ch: char, avail: nat)
    requires InBody(p.state)
    ensures ArmTurns(p, BodyArm(p, ch, avail))
  {
    NewMessageAwaits(p);
    hide NewMessage;
  }

  lemma ChunkTurns(p: Parser, ch: char, avail: nat)
    requires !Awaits(p.state)
    ensures ArmTurns(p, ChunkArm(p, ch, avail))
  { hide Unhex, Accumulate; }

  lemma SwitchTurns(p: Parser, ch: char, avail: nat)
    ensures ArmTurns(p, Switch(p, ch, avail))
  {
    hide StartArm, StatusLineArm, MethodArm, UrlArm, RequestVersionArm, HeaderNameArm, HeaderValueArm, HeadersEndArm,
      BodyArm, ChunkArm, ArmTurns;
    var s := p.state;
    if InStart(s) { StartTurns(p, ch); }
    else if InStatusLine(s) { StatusTurns(p, ch); }
    else if s.SReqMethod? { MethodTurns(p, ch); }
    else if InUrl(s) || s.SReqSpacesBeforeUrl? { UrlTurns(p, ch); }
    else if InRequestVersion(s) { VersionTurns(p, ch); }
    else if InHeaderName(s) { NameTurns(p, ch); }
    else if InHeaderValue(s) { ValueTurns(p, ch); }
    else if InHeadersEnd(s) { HeadersEndTurns(p, ch); }
    else if InBody(s) { BodyTurns(p, ch, avail); }
    else { ChunkTurns(p, ch, avail); }
  }

  // ---- one byte, and any number ----

  lemma {:induction false} NoTurn(b: bool, acts: seq<Act>)
    requires forall a | a in acts :: a != Notify(MessageBegin) && a != Notify(MessageComplete)
    ensures Underway(b, Notes(acts)) == b
  {
    if acts != [] {
      assert acts[0] in acts && forall a | a in acts[1..] :: a in acts;
      NoTurn(b, acts[1..]);
      UnderwayMore(b, Noted(acts[0]), Notes(acts[1..]));
      NotedTurns(b, acts[0]);
    }
  }

  lemma NotedTurns(b: bool, act: Act)
    ensures Underway(b, Noted(act)) ==
      if act == Notify(MessageBegin) then true else if act == Notify(MessageComplete) then false else b
  {
    assert Underway(b, []) == b;
    if Noted(act) != [] { assert Noted(act)[..0] == []; }
  }

  lemma TurnsAgree(s: State, acts: seq<Act>, t: State, b: bool)
    requires Turns(s, acts, t) && Agrees(s, b)
    ensures Agrees(t, Underway(b, Notes(acts)))
  {
    hide Awaits, Noted;
    if acts == [Notify(MessageBegin)] || acts == [Notify(MessageComplete)] {
      assert acts[1..] == [] && Notes(acts) == Noted(acts[0]) + [] == Noted(acts[0]);
      NotedTurns(b, acts[0]);
    } else {
      NoTurn(b, acts);
    }
  }

  lemma BytesDoNotTurn(b: bool, s: State, ch: char)
    ensures Underway(b, Kept(s, ch)) == b && Underway(b, [Byte(Body, ch)]) == b
  {
    hide OpenField;
    assert [Byte(Body, ch)][..0] == [];
    if Kept(s, ch) != [] { assert Kept(s, ch)[..0] == []; }
  }

  lemma {:induction false} SettleAgrees(p: Parser, ch: char, b: bool)
    requires Agrees(p.state, b)
    ensures var o := Settle(p, ch); o.end == Ready ==> Agrees(o.p.state, Underway(b, o.trace))
    decreases Rank(p.state)
  {
    hide Switch, Agrees, Turns, Underway, Notes, Kept;
    SwitchTurns(p, ch, 1);
    ReexecutionDescends(p, ch, 1);
    match Switch(p, ch, 1)
    case Next(q, acts) =>
      TurnsAgree(p.state, acts, q.state, b);
      UnderwayMore(b, Notes(acts), Kept(q.state, ch));
      BytesDoNotTurn(Underway(b, Notes(acts)), q.state, ch);
    case Again(q, acts) =>
      TurnsAgree(p.state, acts, q.state, b);
      SettleAgrees(q, ch, Underway(b, Notes(acts)));
      UnderwayMore(b, Notes(acts), Settle(q, ch).trace);
    case Bulk(q, _, closing) =>
      BytesDoNotTurn(b, q.state, ch);
      InBodyAgrees(p.state, q.state, b);
      if closing {
        SettleAgrees(q, ch, b);
        UnderwayMore(b, [Byte(Body, ch)], Settle(q, ch).trace);
      }
    case _ =>
  }

  lemma InBodyAgrees(s: State, t: State, b: bool)
    requires !Awaits(s) && !Awaits(t) && Agrees(s, b)
    ensures Agrees(t, b)
  {}

  lemma StepAgrees(p: Parser, ch: char, b: bool)
    requires Agrees(p.state, b)
    ensures var o := ByteStep(p, ch); o.end == Ready ==> Agrees(o.p.state, Underway(b, o.trace))
  {
    hide Settle, Underway;
    SettleAgrees(Counted(p), ch, b);
  }

  lemma {:induction false} RunAgrees(p: Parser, data: string, b: bool)
    requires Agrees(p.state, b)
    ensures var o := Run(p, data); o.end == Ready ==> Agrees(o.p.state, Underway(b, o.trace))
    decreases |data|
  {
    hide ByteStep, Agrees;
    if data != "" {
      var o := ByteStep(p, data[0]);
      StepAgrees(p, data[0], b);
      if o.end == Ready {
        var c := Underway(b, o.trace);
        RunAgrees(o.p, data[1..], c);
        hide Underway;
        UnderwayMore(b, o.trace, Run(o.p, data[1..]).trace);
      }
    }
  }

  // A parser of requests stays one
  lemma {:induction false} SettleKind(p: Parser, ch: char)
    requires OfRequests(p)
    ensures var o := Settle(p, ch); o.end == Ready ==> OfRequests(o.p)
    decreases Rank(p.state)
  {
    hide Switch, Turns, Notes, Kept;
    SwitchTurns(p, ch, 1);
    ReexecutionDescends(p, ch, 1);
    match Switch(p, ch, 1)
    case Again(q, _) => SettleKind(q, ch);
    case Bulk(q, _, closing) => if closing { SettleKind(q, ch); }
    case _ =>
  }

  lemma StepKind(p: Parser, ch: char)
    requires OfRequests(p)
    ensures var o := ByteStep(p, ch); o.end == Ready ==> OfRequests(o.p)
  {
    hide Settle;
    SettleKind(Counted(p), ch);
  }

  lemma {:induction false} RunKind(p: Parser, data: string)
    requires OfRequests(p)
    ensures var o := Run(p, data); o.end == Ready ==> OfRequests(o.p)
    decreases |data|
  {
    hide ByteStep;
    if data != "" {
      StepKind(p, data[0]);
      var o := ByteStep(p, data[0]);
      if o.end == Ready { RunKind(o.p, data[1..]); }
    }
  }

  /** What the end of the connection means, by what has been told before it: silence between
      messages; within one, its completion if its body lasts as long as the connection, and
      HPE_INVALID_EOF_STATE otherwise. Only a parser of responses may be silent within one: in
      s_start_res, where a line break announces a message. */
  lemma EofTells(t: ParserType, answer: bool, data: string)
    requires Run(Init(t, answer), data).end == Ready
    ensures var o := Run(Init(t, answer), data); var e := Eof(o.p);
      if !Underway(false, o.trace) || o.p.state == SStartRes then e == Outcome(Ready, o.p, [], 0)
      else if o.p.state == SBodyIdentityEof then e == Outcome(Ready, o.p, [Told(MessageComplete)], 0)
      else e.end == Error && e.p.errno == InvalidEofState && e.trace == [] && e.used == 1
    ensures t == Request ==> Run(Init(t, answer), data).p.state != SStartRes
  {
    hide Run;
    RunAgrees(Init(t, answer), data, false);
    if t == Request { RunKind(Init(t, answer), data); }
  }

  // ---- bytes behind the last message ----

  // The parser behind a message after which the connection is not kept
  predicate Dead(p: Parser) { p.state == SDead && p.errno == OK && Room(p, 0) }

  predicate IsLineBreak(c: char) { c == '\r' || c == '\n' }

  lemma DeadStep(p: Parser, ch: char)
    requires Dead(p)
    ensures ByteStep(p, ch) ==
      if !Room(p, 1) then Outcome(Error, p.(nread := p.nread + 1, errno := HeaderOverflow), [], 0)
      else if IsLineBreak(ch) then Outcome(Ready, p.(nread := p.nread + 1), [], 1)
      else Outcome(Error, p.(nread := p.nread + 1, errno := ClosedConnection), [], 0)
  {
    var c := p.(nread := p.nread + 1);
    assert Switch(c, ch, 1) == if IsLineBreak(ch) then Next(c, []) else Fail(c.(errno := ClosedConnection));
    hide Switch;
    assert Notes([]) == [];
  }

  /** Behind the last message line breaks are skipped without a callback, and the first other byte is
      HPE_CLOSED_CONNECTION; the header limit holds for them too. */
  lemma {:induction false} DeadDecided(p: Parser, lead: string, rest: string)
    requires Dead(p) && (forall c | c in lead :: IsLineBreak(c)) && (rest == "" || !IsLineBreak(rest[0]))
    ensures var room := MAX_HEADER_SIZE - p.nread;
      Run(p, lead + rest) ==
      if |lead| > room || (|lead| == room && rest != "") then
        Outcome(Error, p.(nread := MAX_HEADER_SIZE + 1, errno := HeaderOverflow), [], room)
      else if rest == "" then Outcome(Ready, p.(nread := p.nread + |lead|), [], |lead|)
      else Outcome(Error, p.(nread := p.nread + |lead| + 1, errno := ClosedConnection), [], |lead|)
    decreases |lead|
  {
    hide ByteStep;
    var text := lead + rest;
    if lead != "" {
      assert text[0] == lead[0] && text[1..] == lead[1..] + rest && lead[0] in lead;
      assert forall c | c in lead[1..] :: c in lead;
      DeadStep(p, text[0]);
      if Room(p, 1) { DeadDecided(p.(nread := p.nread + 1), lead[1..], rest); }
    } else if rest != "" {
      assert text == rest;
      DeadStep(p, rest[0]);
    }
  }
}
