/** `http_parser_execute` itself: the loop over the input with its marks, its slices and
    its jumps over body bytes, proved against the byte-at-a-time reading. */
module HttpParser {
  import opened Wrappers
  import opened HttpTypes
  import opened HttpSwitch
  import opened HttpRun
  import opened HttpMarks

  // Events already out and bytes already read, before the outcome o of what follows
  function After(trace: seq<Event>, used: nat, o: Outcome): Outcome {
    o.(trace := trace + o.trace, used := used + o.used)
  }

  // The rest of a run whose current byte has reached the switch
  function Resume(p: Parser, ch: char, rest: string): Outcome {
    var o := Settle(p, ch);
    if o.end == Ready then Then(o, Run(o.p, rest)) else o
  }

  lemma AfterAfter(a: seq<Event>, i: nat, b: seq<Event>, j: nat, o: Outcome)
    ensures After(a, i, After(b, j, o)) == After(a + b, i + j, o)
  {
    assert a + (b + o.trace) == (a + b) + o.trace;
  }

  lemma RunIsResume(p: Parser, data: string)
    requires data != "" && !(ParsingHeader(p.state) && p.nread + 1 > MAX_HEADER_SIZE)
    ensures Run(p, data) == Resume(Counted(p), data[0], data[1..])
  {
    hide Settle;
  }

  lemma AvailOnlyForBodies(p: Parser, ch: char, avail: nat)
    ensures Switch(p, ch, avail).Bulk? || Switch(p, ch, avail) == Switch(p, ch, 1)
  {
    hide StartArm, StatusLineArm, MethodArm, UrlArm, RequestVersionArm, HeaderNameArm,
      HeaderValueArm, HeadersEndArm, ShouldKeepAlive;
  }

  // How an arm that is not a body jump continues
  function Continue(arm: Arm, ch: char, rest: string): Outcome
    requires !arm.Bulk? && !arm.Abort?
  {
    match arm
    case Next(q, acts) => After(Notes(acts) + Kept(q.state, ch), 1, Run(q, rest))
    case Again(q, acts) => After(Notes(acts), 0, Resume(q, ch, rest))
    case Leave(q, acts) => Outcome(Upgrade, q, Notes(acts), 1)
    case Fail(q) => Outcome(Error, q, [], 0)
  }

  lemma ResumeArm(p: Parser, ch: char, rest: string, avail: nat)
    requires !Switch(p, ch, avail).Bulk? && !Switch(p, ch, avail).Abort?
    ensures Resume(p, ch, rest) == Continue(Switch(p, ch, avail), ch, rest)
  {
    AvailOnlyForBodies(p, ch, avail);
    hide Switch, Run, Notes, Kept;
    var arm := Switch(p, ch, avail);
    if arm.Again? {
      var o := Settle(arm.p, ch);
      if o.end == Ready {
        assert Notes(arm.acts) + (o.trace + Run(o.p, rest).trace) == (Notes(arm.acts) + o.trace) + Run(o.p, rest).trace;
      }
    }
  }

  // ---- the body jumps ----

  // A body state and the parser after k of its bytes
  predicate BodyState(p: Parser) {
    p.state.SBodyIdentityEof?
    || ((p.state.SBodyIdentity? || (p.state.SChunkData? && p.flags.chunked)) && 0 < p.contentLength < ULLONG_MAX)
  }

  function Jump(p: Parser, avail: nat): Arm
    requires BodyState(p)
  {
    if p.state.SBodyIdentityEof? then Bulk(p, avail, false)
    else
      var k := Min(p.contentLength, avail);
      var left := p.contentLength - k;
      var s := if left > 0 then p.state else if p.state.SBodyIdentity? then SMessageDone else SChunkDataAlmostDone;
      Bulk(p.(contentLength := left, state := s), k, p.state.SBodyIdentity? && left == 0)
  }

  lemma BulkArm(p: Parser, ch: char, avail: nat)
    requires p.contentLength <= ULLONG_MAX
    ensures Switch(p, ch, avail).Bulk? <==> BodyState(p)
    ensures BodyState(p) ==> !ParsingHeader(p.state) && Switch(p, ch, avail) == Jump(p, avail)
  {
    NoBulkElsewhere(p, ch);
    hide StartArm, StatusLineArm, MethodArm, UrlArm, RequestVersionArm, HeaderNameArm,
      HeaderValueArm, HeadersEndArm, ShouldKeepAlive;
  }

  lemma NoBulkElsewhere(p: Parser, ch: char)
    ensures !StartArm(p, ch).Bulk? && !StatusLineArm(p, ch).Bulk? && !MethodArm(p, ch).Bulk?
         && !UrlArm(p, ch).Bulk? && !RequestVersionArm(p, ch).Bulk? && !HeaderNameArm(p, ch).Bulk?
         && !HeaderValueArm(p, ch).Bulk? && !HeadersEndArm(p, ch).Bulk?
  {
    hide IsAlpha, FirstMethod, NextMethod, NameOf, ParseUrlChar, ThreeDigits, NameChar, MatchNext,
      ShouldKeepAlive, Token, Lower, IsNum, NeedsEof;
  }

  // A completed body is closed the same way whichever byte is reexecuted
  lemma DoneIgnoresByte(p: Parser, c: char, d: char)
    requires p.state.SMessageDone?
    ensures Settle(p, c) == Settle(p, d)
  {
    hide ShouldKeepAlive;
  }

  // What follows a jump: its bytes, then the byte after them, or its last byte again
  function Landing(arm: Arm, ch: char, rest: string): Outcome
    requires arm.Bulk? && 1 <= arm.toRead <= |rest| + 1
  {
    var k := arm.toRead;
    var bytes := Bytes(Body, ([ch] + rest)[..k]);
    if arm.closing then After(bytes, k - 1, Resume(arm.p, ch, rest[k - 1..]))
    else After(bytes, k, Run(arm.p, rest[k - 1..]))
  }

  lemma JoinLanding(arm: Arm, arm': Arm, ch: char, rest: string)
    requires rest != "" && arm.Bulk? && arm'.Bulk? && 1 <= arm'.toRead <= |rest|
    requires arm == arm'.(toRead := arm'.toRead + 1)
    requires arm.closing ==> arm.p.state.SMessageDone?
    ensures After([Byte(Body, ch)], 1, Landing(arm', rest[0], rest[1..])) == Landing(arm, ch, rest)
  {
    hide Resume, Run, Bytes, After;
    var k := arm.toRead;
    JoinBytes(ch, rest, k);
    var tail := Bytes(Body, ([rest[0]] + rest[1..])[..k - 1]);
    if arm.closing {
      ResumeIgnoresByte(arm.p, ch, rest[0], rest[k - 1..]);
      AfterAfter([Byte(Body, ch)], 1, tail, k - 2, Resume(arm.p, ch, rest[k - 1..]));
    } else {
      AfterAfter([Byte(Body, ch)], 1, tail, k - 1, Run(arm.p, rest[k - 1..]));
    }
  }

  lemma JoinBytes(ch: char, rest: string, k: nat)
    requires 2 <= k <= |rest| + 1
    ensures Bytes(Body, ([ch] + rest)[..k]) == [Byte(Body, ch)] + Bytes(Body, ([rest[0]] + rest[1..])[..k - 1])
    ensures rest[1..][k - 2..] == rest[k - 1..]
  {
    assert [rest[0]] + rest[1..] == rest;
    assert ([ch] + rest)[..k] == [ch] + rest[..k - 1];
  }

  /** The jump `p += to_read - 1` over a body is as many single body steps. */
  lemma {:induction false} JumpIsSteps(p: Parser, ch: char, rest: string)
    requires BodyState(p) && p.contentLength <= ULLONG_MAX
    ensures var arm := Jump(p, |rest| + 1);
      1 <= arm.toRead <= |rest| + 1 && Resume(p, ch, rest) == Landing(arm, ch, rest)
    decreases |rest|
  {
    hide Switch, Resume, Run, Landing;
    BulkArm(p, ch, 1);
    var arm, arm1 := Jump(p, |rest| + 1), Jump(p, 1);
    if arm.toRead == 1 {
      assert arm == arm1;
      LandAtOnce(arm, ch, rest);
      if arm.closing { CloseAtOnce(p, arm.p, ch, rest); } else { StepAtOnce(p, arm.p, ch, rest); }
    } else {
      StepAtOnce(p, arm1.p, ch, rest);
      RunIsResume(arm1.p, rest);
      JumpIsSteps(arm1.p, rest[0], rest[1..]);
      JoinLanding(arm, Jump(arm1.p, |rest|), ch, rest);
    }
  }

  lemma LandAtOnce(arm: Arm, ch: char, rest: string)
    requires arm.Bulk? && arm.toRead == 1
    ensures Landing(arm, ch, rest) == if arm.closing then After([Byte(Body, ch)], 0, Resume(arm.p, ch, rest))
                                      else After([Byte(Body, ch)], 1, Run(arm.p, rest))
  {
    hide Resume, Run;
    assert rest[0..] == rest && ([ch] + rest)[..1] == [ch];
    assert Bytes(Body, [ch]) == [Byte(Body, ch)];
  }

  lemma ResumeIgnoresByte(p: Parser, c: char, d: char, rest: string)
    requires p.state.SMessageDone?
    ensures Resume(p, c, rest) == Resume(p, d, rest)
  {
    hide Settle;
    DoneIgnoresByte(p, c, d);
  }

  lemma StepAtOnce(p: Parser, q: Parser, ch: char, rest: string)
    requires Switch(p, ch, 1) == Bulk(q, 1, false)
    ensures Resume(p, ch, rest) == After([Byte(Body, ch)], 1, Run(q, rest))
  {
    hide Switch;
  }

  lemma CloseAtOnce(p: Parser, q: Parser, ch: char, rest: string)
    requires Switch(p, ch, 1) == Bulk(q, 1, true)
    ensures Resume(p, ch, rest) == After([Byte(Body, ch)], 0, Resume(q, ch, rest))
  {
    hide Switch, Run;
    var o := Settle(q, ch);
    if o.end == Ready {
      assert [Byte(Body, ch)] + (o.trace + Run(o.p, rest).trace) == ([Byte(Body, ch)] + o.trace) + Run(o.p, rest).trace;
    }
  }

  // ---- the parser object ----

  // http_parser_execute on no input at all: the connection has ended
  function Eof(p: Parser): Outcome {
    match p.state
    case SBodyIdentityEof => Outcome(Ready, p, [Told(MessageComplete)], 0)
    case SDead | SStartReqOrRes | SStartRes | SStartReq => Outcome(Ready, p, [], 0)
    case _ => Outcome(Error, p.(errno := InvalidEofState), [], 1)
  }

  // The field whose bytes are being gathered in state s
  predicate HasOpen(s: State, f: Field) { OpenField(s) == Some(f) || (f == Body && BodyOpen(s)) }

  // Every byte from m to k has gone into the field f
  predicate OpenSince(start: Parser, data: string, m: nat, k: nat, f: Field)
    requires k <= |data|
  {
    forall j :: m < j <= k ==> HasOpen(Run(start, data[..j]).p.state, f)
  }

  // What may still sit behind the open mark when parsing stops at an error: bytes of one field,
  // and none from before it was opened
  predicate Withheld(start: Parser, shown: seq<Event>, told: seq<Event>, data: string, used: nat) {
    shown == told
    || exists f: Field, m: nat ::
         m <= used <= |data| && shown == told + Bytes(f, data[m..used]) && OpenSince(start, data, m, used, f)
  }

  // ---- where the bytes behind a mark come from ----

  predicate Trail(start: Parser, data: string, marks: map<Field, nat>, p: nat) {
    p <= |data| && forall f | f in marks :: OpenSince(start, data, marks[f], p, f)
  }

  predicate Reached(start: Parser, data: string, p: nat, st: Parser) {
    p <= |data| && Run(start, data[..p]).end == Ready && Run(start, data[..p]).p == st
  }

  predicate SameEnd(a: Outcome, b: Outcome) { a.end == b.end && a.p == b.p }

  // Once the switch is through with ch, byte p is read
  predicate Ahead(start: Parser, data: string, p: nat, st: Parser, ch: char) {
    p < |data| && SameEnd(Run(start, data[..p + 1]), Settle(st, ch))
  }

  lemma ReachedStarts(start: Parser, data: string)
    ensures Reached(start, data, 0, start)
  {
    assert data[..0] == "";
  }

  lemma ByteAhead(start: Parser, data: string, p: nat, st: Parser)
    requires Reached(start, data, p, st) && p < |data| && !(ParsingHeader(st.state) && st.nread + 1 > MAX_HEADER_SIZE)
    ensures Ahead(start, data, p, Counted(st), data[p])
  {
    hide Run, Settle;
    RunSplit(start, data[..p], [data[p]]);
    assert data[..p] + [data[p]] == data[..p + 1];
    RunIsResume(st, [data[p]]);
    assert [data[p]][1..] == "";
    RunNothing(Settle(Counted(st), data[p]).p);
  }

  lemma RunNothing(p: Parser)
    ensures Run(p, "") == Outcome(Ready, p, [], 0)
  {}

  lemma NextReached(start: Parser, data: string, p: nat, st: Parser, ch: char, avail: nat)
    requires Ahead(start, data, p, st, ch) && Switch(st, ch, avail).Next?
    ensures Reached(start, data, p + 1, Switch(st, ch, avail).p)
  {
    hide Run, Switch;
    AvailOnlyForBodies(st, ch, avail);
  }

  lemma AgainAhead(start: Parser, data: string, p: nat, st: Parser, ch: char, avail: nat)
    requires Ahead(start, data, p, st, ch) && Switch(st, ch, avail).Again?
    ensures Ahead(start, data, p, Switch(st, ch, avail).p, ch)
  {
    hide Run, Switch;
    AvailOnlyForBodies(st, ch, avail);
  }

  // The i bytes from p on, seen from the switch
  lemma ResumeAhead(start: Parser, data: string, p: nat, st: Parser, ch: char, i: nat)
    requires Ahead(start, data, p, st, ch) && 1 <= i <= |data| - p
    ensures SameEnd(Run(start, data[..p + i]), Resume(st, ch, data[p + 1..p + i]))
  {
    hide Run, Settle;
    RunSplit(start, data[..p + 1], data[p + 1..p + i]);
    assert data[..p + 1] + data[p + 1..p + i] == data[..p + i];
  }

  // Inside a jump the body stays open
  lemma InsideJump(start: Parser, data: string, p: nat, st: Parser, ch: char, i: nat)
    requires Ahead(start, data, p, st, ch) && 1 <= i <= |data| - p && BodyState(st) && st.contentLength <= ULLONG_MAX
    ensures var arm := Jump(st, i);
      if arm.closing then arm.toRead == i ==> Ahead(start, data, p + i - 1, arm.p, ch)
      else arm.toRead == i ==> Reached(start, data, p + i, arm.p)
  {
    hide Run, Settle;
    var arm, rest := Jump(st, i), data[p + 1..p + i];
    ResumeAhead(start, data, p, st, ch, i);
    JumpIsSteps(st, ch, rest);
    if arm.toRead == i {
      assert rest[i - 1..] == "";
      RunNothing(arm.p);
      RunNothing(Settle(arm.p, ch).p);
    }
  }

  lemma JumpOpen(start: Parser, data: string, p: nat, st: Parser, ch: char)
    requires Ahead(start, data, p, st, ch) && BodyState(st) && st.contentLength <= ULLONG_MAX
    ensures var arm := Jump(st, |data| - p);
      && 1 <= arm.toRead <= |data| - p
      && (if arm.closing then Ahead(start, data, p + arm.toRead - 1, arm.p, ch)
          else Reached(start, data, p + arm.toRead, arm.p) && OpenSince(start, data, p, p + arm.toRead, Body))
  {
    hide Run, Settle, Ahead;
    JumpReads(st, |data| - p) by { AheadStarts(start, data, p, st, ch); }
    var arm := Jump(st, |data| - p);
    var k := arm.toRead;
    ShorterJump(st, |data| - p, k);
    InsideJump(start, data, p, st, ch, k);
    if !arm.closing {
      forall j | p < j <= p + k ensures HasOpen(Run(start, data[..j]).p.state, Body) {
        ShorterJump(st, |data| - p, j - p);
        InsideJump(start, data, p, st, ch, j - p);
      }
    }
  }

  lemma AheadStarts(start: Parser, data: string, p: nat, st: Parser, ch: char)
    requires Ahead(start, data, p, st, ch) && BodyState(st) && st.contentLength <= ULLONG_MAX
    ensures p < |data| && (st.state.SBodyIdentityEof? || st.contentLength > 0)
  {
    JumpIsSteps(st, ch, "");
  }

  lemma JumpReads(st: Parser, avail: nat)
    requires BodyState(st) && avail >= 1 && (st.state.SBodyIdentityEof? || st.contentLength > 0)
    ensures 1 <= Jump(st, avail).toRead <= avail
  {}

  // A jump cut short reads all it is given, and leaves the body open
  lemma ShorterJump(st: Parser, avail: nat, i: nat)
    requires BodyState(st) && 1 <= i <= Jump(st, avail).toRead
    ensures Jump(st, i).toRead == i
    ensures i == Jump(st, avail).toRead ==> Jump(st, i) == Jump(st, avail)
    ensures !Jump(st, avail).closing ==> !Jump(st, i).closing && BodyOpen(Jump(st, i).p.state)
  {}

  // A mark is where it was, or here
  lemma MarksStand(acts: seq<Act>, sink: Sink, data: string, p: nat)
    requires p <= |data| && InRange(sink.marks, p)
    ensures var r := DoAll(acts, sink, data, p);
      forall f | f in r.marks :: r.marks[f] == p || (f in sink.marks && r.marks[f] == sink.marks[f])
  {
    if acts != [] { MarksStand(acts[1..], Do(acts[0], sink, data, p), data, p); }
  }

  lemma AgainTrail(start: Parser, data: string, acts: seq<Act>, sink: Sink, p: nat)
    requires Trail(start, data, sink.marks, p) && InRange(sink.marks, p)
    ensures Trail(start, data, DoAll(acts, sink, data, p).marks, p)
  {
    hide Run, DoAll;
    MarksStand(acts, sink, data, p);
  }

  lemma NextTrail(start: Parser, data: string, acts: seq<Act>, sink: Sink, p: nat, q: Parser)
    requires Trail(start, data, sink.marks, p) && InRange(sink.marks, p) && p < |data|
    requires Reached(start, data, p + 1, q) && MarksFit(q.state, DoAll(acts, sink, data, p).marks)
    ensures Trail(start, data, DoAll(acts, sink, data, p).marks, p + 1)
  {
    hide Run, DoAll;
    MarksStand(acts, sink, data, p);
    var marks := DoAll(acts, sink, data, p).marks;
    forall f | f in marks ensures OpenSince(start, data, marks[f], p + 1, f) {
      assert HasOpen(q.state, f);
      if f in sink.marks && marks[f] == sink.marks[f] { assert OpenSince(start, data, sink.marks[f], p, f); }
    }
  }

  lemma JumpTrail(start: Parser, data: string, sink: Sink, p: nat, k: nat)
    requires Trail(start, data, sink.marks, p) && p + k <= |data| && sink.marks.Keys <= {Body}
    requires OpenSince(start, data, p, p + k, Body)
    ensures Trail(start, data, WithBodyMark(sink, p).marks, p + k)
  {
    hide Run;
  }

  // The loop stands at p, with the switch still to see `ch`
  predicate Inside(total: Outcome, st: Parser, ch: char, sink: Sink, data: string, p: nat) {
    && p < |data| && InRange(sink.marks, p) && MarksFit(st.state, sink.marks) && AtSwitch(st)
    && (ch == data[p] || st.state.SMessageDone?)
    && total == After(Shown(sink, data, p), p, Resume(st, ch, data[p + 1..]))
  }

  // The loop stands before byte p
  predicate Between(total: Outcome, st: Parser, sink: Sink, data: string, p: nat) {
    && p <= |data| && InRange(sink.marks, p) && MarksFit(st.state, sink.marks) && Rest(st)
    && total == After(Shown(sink, data, p), p, Run(st, data[p..]))
  }

  // The marks and slices after an arm that breaks
  lemma NextShows(s: State, arm: Arm, sink: Sink, data: string, p: nat)
    requires p < |data| && InRange(sink.marks, p) && MarksFit(s, sink.marks)
    requires arm.Next? && ArmFits(s, arm)
    ensures var r := DoAll(arm.acts, sink, data, p);
      && InRange(r.marks, p + 1) && MarksFit(arm.p.state, r.marks)
      && Shown(r, data, p + 1) == Shown(sink, data, p) + (Notes(arm.acts) + Kept(arm.p.state, data[p]))
  {
    hide Do, Shown, Kept, Notes;
    var t := arm.p.state;
    FieldOrBody(s);
    FieldOrBody(t);
    hide OpenField, BodyOpen;
    DoAllShows(s, arm.acts, t, sink, data, p);
    StepPast(t, DoAll(arm.acts, sink, data, p), data, p);
    assert (Shown(sink, data, p) + Notes(arm.acts)) + Kept(t, data[p])
        == Shown(sink, data, p) + (Notes(arm.acts) + Kept(t, data[p]));
  }

  lemma FieldOrBody(s: State)
    ensures BodyOpen(s) ==> OpenField(s) == None
  {}

  lemma NextKeepsUp(total: Outcome, st: Parser, ch: char, sink: Sink, data: string, p: nat)
    requires Inside(total, st, ch, sink, data, p) && Switch(st, ch, |data| - p).Next?
    ensures var arm := Switch(st, ch, |data| - p);
            Between(total, arm.p, DoAll(arm.acts, sink, data, p), data, p + 1)
  {
    hide Switch, Resume, Run, Shown, DoAll, After, Notes, Kept, Rest, AtSwitch, ArmFits, MarksFit;
    var arm := Switch(st, ch, |data| - p);
    SwitchOk(st, ch, |data| - p);
    SwitchFits(st, ch, |data| - p);
    ResumeArm(st, ch, data[p + 1..], |data| - p);
    DoneIsSilent(st, ch, data[p], |data| - p);
    NextShows(st.state, arm, sink, data, p);
    AfterAfter(Shown(sink, data, p), p, Notes(arm.acts) + Kept(arm.p.state, ch), 1, Run(arm.p, data[p + 1..]));
  }

  lemma AgainKeepsUp(total: Outcome, st: Parser, ch: char, sink: Sink, data: string, p: nat)
    requires Inside(total, st, ch, sink, data, p) && Switch(st, ch, |data| - p).Again?
    ensures var arm := Switch(st, ch, |data| - p);
      && Rank(arm.p.state) < Rank(st.state)
      && Inside(total, arm.p, ch, DoAll(arm.acts, sink, data, p), data, p)
  {
    hide Switch, Resume, Run, Shown, DoAll, After, Notes, AtSwitch, OpenField, BodyOpen, MarksFit;
    var arm := Switch(st, ch, |data| - p);
    SwitchOk(st, ch, |data| - p);
    SwitchFits(st, ch, |data| - p);
    ReexecutionDescends(st, ch, |data| - p);
    ResumeArm(st, ch, data[p + 1..], |data| - p);
    MarksFree(st.state, sink.marks);
    DoAllShows(st.state, arm.acts, arm.p.state, sink, data, p);
    AfterAfter(Shown(sink, data, p), p, Notes(arm.acts), 0, Resume(arm.p, ch, data[p + 1..]));
  }

  lemma MarksFree(s: State, marks: map<Field, nat>)
    requires MarksFit(s, marks)
    ensures OpenField(s) == None && !BodyOpen(s) ==> marks.Keys == {}
  {}

  lemma LeaveEnds(total: Outcome, st: Parser, ch: char, sink: Sink, data: string, p: nat)
    requires Inside(total, st, ch, sink, data, p) && Switch(st, ch, |data| - p).Leave?
    ensures var arm := Switch(st, ch, |data| - p);
      Rest(arm.p) && total == Outcome(Upgrade, arm.p, Flatten(DoAll(arm.acts, sink, data, p).calls), p + 1)
  {
    hide Switch, Resume, Run, Pending, DoAll, Notes, AtSwitch, Rest, OpenField, BodyOpen, MarksFit;
    var arm := Switch(st, ch, |data| - p);
    var r := DoAll(arm.acts, sink, data, p);
    SwitchOk(st, ch, |data| - p);
    SwitchFits(st, ch, |data| - p);
    ResumeArm(st, ch, data[p + 1..], |data| - p);
    MarksFree(st.state, sink.marks);
    LeaveIsSilent(st, ch, |data| - p);
    DoAllShows(st.state, arm.acts, arm.p.state, sink, data, p);
    MarksFree(arm.p.state, r.marks);
    PendingNone(r.marks, data, p);
  }

  lemma LeaveIsSilent(st: Parser, ch: char, avail: nat)
    requires Switch(st, ch, avail).Leave?
    ensures var q := Switch(st, ch, avail).p; OpenField(q.state) == None && !BodyOpen(q.state)
  {
    NoLeaveElsewhere(st, ch, avail);
    hide StartArm, StatusLineArm, MethodArm, UrlArm, RequestVersionArm, HeaderNameArm,
      HeaderValueArm, BodyArm, ChunkArm, ShouldKeepAlive;
  }

  lemma NoLeaveElsewhere(p: Parser, ch: char, avail: nat)
    ensures !StartArm(p, ch).Leave? && !StatusLineArm(p, ch).Leave? && !MethodArm(p, ch).Leave?
         && !UrlArm(p, ch).Leave? && !RequestVersionArm(p, ch).Leave? && !HeaderNameArm(p, ch).Leave?
         && !HeaderValueArm(p, ch).Leave? && !BodyArm(p, ch, avail).Leave? && !ChunkArm(p, ch, avail).Leave?
  {
    hide IsAlpha, FirstMethod, NextMethod, NameOf, ParseUrlChar, ThreeDigits, NameChar, MatchNext,
      ShouldKeepAlive, Token, Lower, IsNum, NeedsEof, Unhex, Accumulate;
  }

  // At most one mark is set, so an error withholds one slice at most
  lemma ShownOrWithheld(start: Parser, s: State, sink: Sink, data: string, p: nat)
    requires p <= |data| && InRange(sink.marks, p) && MarksFit(s, sink.marks) && Trail(start, data, sink.marks, p)
    ensures Withheld(start, Shown(sink, data, p), Flatten(sink.calls), data, p)
  {
    hide Run;
    var told := Flatten(sink.calls);
    if sink.marks.Keys == {} {
      PendingNone(sink.marks, data, p);
      assert Shown(sink, data, p) == told;
    } else {
      var f :| f in sink.marks;
      OneMark(s, sink.marks, f);
      PendingOne(sink.marks, f, data, p);
      assert Shown(sink, data, p) == told + Bytes(f, data[sink.marks[f]..p]);
    }
  }

  lemma OneMark(s: State, marks: map<Field, nat>, f: Field)
    requires MarksFit(s, marks) && f in marks
    ensures marks.Keys == {f}
  {}

  lemma FailEnds(start: Parser, total: Outcome, st: Parser, ch: char, sink: Sink, data: string, p: nat)
    requires Inside(total, st, ch, sink, data, p) && Switch(st, ch, |data| - p).Fail?
             && Trail(start, data, sink.marks, p)
    ensures var arm := Switch(st, ch, |data| - p);
      && total.end == Error && total.p == arm.p && total.used == p && arm.p.errno != OK
      && Withheld(start, total.trace, Flatten(sink.calls), data, p)
  {
    hide Switch, Resume, Run, Shown, AtSwitch, OpenField, BodyOpen, MarksFit, Withheld, Trail;
    var arm := Switch(st, ch, |data| - p);
    SwitchOk(st, ch, |data| - p);
    ResumeArm(st, ch, data[p + 1..], |data| - p);
    assert total.trace == Shown(sink, data, p);
    ShownOrWithheld(start, st.state, sink, data, p);
  }

  // MARK(body)
  function WithBodyMark(sink: Sink, p: nat): Sink {
    if Body in sink.marks then sink else sink.(marks := sink.marks[Body := p])
  }

  // The inclusive body callback of a completed identity body
  function CloseBody(sink: Sink, data: string, p: nat): Sink
    requires p < |data| && Body in sink.marks && sink.marks[Body] <= p
  {
    Sink(sink.marks - {Body}, sink.calls + [Slice(Body, data[sink.marks[Body]..p + 1], true)])
  }

  lemma BodyMarked(s: State, sink: Sink, data: string, p: nat)
    requires p <= |data| && InRange(sink.marks, p) && MarksFit(s, sink.marks) && BodyOpen(s)
    ensures var r := WithBodyMark(sink, p);
      InRange(r.marks, p) && r.marks.Keys == {Body} && Shown(r, data, p) == Shown(sink, data, p)
  {
    FieldOrBody(s);
    var r := WithBodyMark(sink, p);
    if Body !in sink.marks {
      assert sink.marks.Keys == {};
      PendingNone(sink.marks, data, p);
      PendingOne(r.marks, Body, data, p);
    }
  }

  /** A jump over body bytes, seen from the loop: either the run goes on behind them, or
      the body is complete and its last byte is reexecuted. */
  lemma JumpKeepsUp(total: Outcome, st: Parser, ch: char, sink: Sink, data: string, p: nat)
    requires Inside(total, st, ch, sink, data, p) && Switch(st, ch, |data| - p).Bulk?
    ensures var arm := Switch(st, ch, |data| - p);
      && 1 <= arm.toRead <= |data| - p
      && var r, p' := WithBodyMark(sink, p), p + arm.toRead - 1;
      if arm.closing then
        && Body in r.marks && r.marks[Body] <= p' && Rank(arm.p.state) < Rank(st.state)
        && Inside(total, arm.p, ch, CloseBody(r, data, p'), data, p')
      else
        Between(total, arm.p, r, data, p' + 1)
  {
    hide Switch, Resume, Run, Shown, AtSwitch, Rest, Rank, Pending, OpenField, MarksFit;
    var avail := |data| - p;
    var arm := Switch(st, ch, avail);
    AtSwitchSmall(st);
    BulkArm(st, ch, avail);
    SwitchOk(st, ch, avail);
    SwitchFits(st, ch, avail);
    ReexecutionDescends(st, ch, avail);
    JumpIsSteps(st, ch, data[p + 1..]);
    BodyMarked(st.state, sink, data, p);
    JumpShows(arm, ch, sink, data, p);
    var k := arm.toRead;
    assert data[p + 1..][k - 1..] == data[p + k..];
    var r := WithBodyMark(sink, p);
    if arm.closing {
      AfterAfter(Shown(sink, data, p), p, Bytes(Body, data[p..p + k]), k - 1, Resume(arm.p, ch, data[p + k..]));
    } else {
      AfterAfter(Shown(sink, data, p), p, Bytes(Body, data[p..p + k]), k, Run(arm.p, data[p + k..]));
    }
  }

  lemma AtSwitchSmall(st: Parser)
    requires AtSwitch(st)
    ensures st.contentLength <= ULLONG_MAX
  {}

  lemma JumpedOver(ch: char, data: string, p: nat, k: nat)
    requires p < |data| && ch == data[p] && 1 <= k <= |data| - p
    ensures ([ch] + data[p + 1..])[..k] == data[p..p + k]
  {}

  lemma JumpShows(arm: Arm, ch: char, sink: Sink, data: string, p: nat)
    requires p < |data| && InRange(sink.marks, p) && arm.Bulk? && 1 <= arm.toRead <= |data| - p
    requires ch == data[p]
    requires var r := WithBodyMark(sink, p);
             InRange(r.marks, p) && r.marks.Keys == {Body} && Shown(r, data, p) == Shown(sink, data, p)
    requires if arm.closing then OpenField(arm.p.state) == None
             else OpenField(arm.p.state) == None && BodyOpen(arm.p.state)
    ensures var r, k := WithBodyMark(sink, p), arm.toRead;
      && ([ch] + data[p + 1..])[..k] == data[p..p + k]
      && InRange(r.marks, p + k)
      && Shown(r, data, p + k) == Shown(sink, data, p) + Bytes(Body, data[p..p + k])
      && (!arm.closing ==> MarksFit(arm.p.state, r.marks))
      && (arm.closing ==>
            var c := CloseBody(r, data, p + k - 1);
            InRange(c.marks, p + k - 1) && MarksFit(arm.p.state, c.marks)
            && Shown(c, data, p + k - 1) == Shown(sink, data, p) + Bytes(Body, data[p..p + k]))
  {
    hide OpenField, BodyOpen, Pending, Emit, Flatten;
    var r, k := WithBodyMark(sink, p), arm.toRead;
    PendingGrows(r.marks, Body, data, p, p + k);
    JumpedOver(ch, data, p, k);
    hide WithBodyMark, Bytes;
    assert (Flatten(r.calls) + Pending(r.marks, data, p)) + Bytes(Body, data[p..p + k])
        == Flatten(r.calls) + (Pending(r.marks, data, p) + Bytes(Body, data[p..p + k]));
    if arm.closing { BodyCloses(r, data, p, k); }
  }

  lemma BodyCloses(r: Sink, data: string, p: nat, k: nat)
    requires 1 <= k && p + k <= |data| && InRange(r.marks, p) && r.marks.Keys == {Body}
    ensures var c := CloseBody(r, data, p + k - 1);
      c.marks.Keys == {} && InRange(r.marks, p + k) && InRange(c.marks, p + k - 1)
      && Shown(c, data, p + k - 1) == Shown(r, data, p + k)
  {
    hide Pending, Flatten;
    var c := CloseBody(r, data, p + k - 1);
    assert c.marks.Keys == {};
    PendingNone(c.marks, data, p + k - 1);
    PendingOne(r.marks, Body, data, p + k);
    var slice := Slice(Body, data[r.marks[Body]..p + k], true);
    FlattenAppend(r.calls, slice);
    assert CallEvents(slice) == Bytes(Body, slice.text) + [] == Bytes(Body, slice.text);
  }

  lemma DoneIsSilent(st: Parser, ch: char, d: char, avail: nat)
    requires ch == d || st.state.SMessageDone?
    requires Switch(st, ch, avail).Next?
    ensures var q := Switch(st, ch, avail).p; Kept(q.state, ch) == Kept(q.state, d)
  {
    hide ShouldKeepAlive;
  }

  // ---- entering and leaving a call ----

  // A call that starts inside a slice starts with its mark set to the first byte
  function InitialMarks(s: State): map<Field, nat> {
    match OpenField(s) case Some(f) => map[f := 0] case None => map[]
  }

  lemma Enters(st: Parser, data: string)
    requires Rest(st)
    ensures Between(Run(st, data), st, Sink(InitialMarks(st.state), []), data, 0)
  {
    hide Run, Rest;
    var marks := InitialMarks(st.state);
    match OpenField(st.state)
    case Some(f) => PendingOne(marks, f, data, 0);
    case None => PendingNone(marks, data, 0);
    assert data[0..] == data;
    assert Shown(Sink(marks, []), data, 0) == [];
  }

  lemma ByteEnters(start: Parser, total: Outcome, st: Parser, sink: Sink, data: string, p: nat)
    requires Between(total, st, sink, data, p) && p < |data| && Trail(start, data, sink.marks, p)
    ensures ParsingHeader(st.state) && st.nread + 1 > MAX_HEADER_SIZE ==>
      total.end == Error && total.p == Counted(st).(errno := HeaderOverflow) && total.used == p
      && Withheld(start, total.trace, Flatten(sink.calls), data, p)
    ensures !(ParsingHeader(st.state) && st.nread + 1 > MAX_HEADER_SIZE) ==>
      Inside(total, Counted(st), data[p], sink, data, p)
  {
    hide Settle, Shown, MarksFit, Withheld, Trail;
    var rest := data[p..];
    assert rest[0] == data[p] && rest[1..] == data[p + 1..];
    if ParsingHeader(st.state) && st.nread + 1 > MAX_HEADER_SIZE {
      assert total.trace == Shown(sink, data, p);
      ShownOrWithheld(start, st.state, sink, data, p);
    } else {
      CountedOk(st);
      RunIsResume(st, rest);
      hide Rest, AtSwitch, Resume, Run;
    }
  }

  lemma CountedOk(st: Parser)
    requires Rest(st) && !(ParsingHeader(st.state) && st.nread + 1 > MAX_HEADER_SIZE)
    ensures AtSwitch(Counted(st))
  {
    hide NameOf;
    assert NameOk(st) ==> NameOk(Counted(st));
    assert ValueOk(st) ==> ValueOk(Counted(st));
  }

  lemma Leaves(total: Outcome, st: Parser, sink: Sink, data: string)
    requires Between(total, st, sink, data, |data|)
    ensures var r := DoAll(FlushOrder(), sink, data, |data|);
            total == Outcome(Ready, st, Flatten(r.calls), |data|)
  {
    hide Rest, OpenField, BodyOpen;
    assert data[|data|..] == "";
    FlushAllShows(st.state, sink, data, |data|);
  }

  // The four final callbacks, in the source's order
  function FlushOrder(): seq<Act> { [HandOut(HeaderField), HandOut(HeaderValue), HandOut(Url), HandOut(Body)] }

  lemma FlushAllShows(s: State, sink: Sink, data: string, p: nat)
    requires p <= |data| && InRange(sink.marks, p) && MarksFit(s, sink.marks)
    ensures Flatten(DoAll(FlushOrder(), sink, data, p).calls) == Shown(sink, data, p)
  {
    hide MarksFit, Pending, DoAll;
    if sink.marks.Keys == {} {
      PendingNone(sink.marks, data, p);
      FlushNothing(FlushOrder(), sink, data, p);
    } else {
      var f :| f in sink.marks;
      OneMark(s, sink.marks, f);
      var i := match f case HeaderField => 0 case HeaderValue => 1 case Url => 2 case Body => 3;
      assert FlushOrder()[i] == HandOut(f);
      FlushOne(FlushOrder(), f, sink, data, p);
    }
  }

  lemma {:induction false} FlushNothing(acts: seq<Act>, sink: Sink, data: string, p: nat)
    requires p <= |data| && sink.marks.Keys == {}
    requires forall i | 0 <= i < |acts| :: acts[i].HandOut?
    ensures DoAll(acts, sink, data, p) == sink
  {
    if acts != [] { FlushNothing(acts[1..], sink, data, p); }
  }

  lemma {:induction false} FlushOne(acts: seq<Act>, f: Field, sink: Sink, data: string, p: nat)
    requires p <= |data| && InRange(sink.marks, p) && sink.marks.Keys == {f}
    requires HandOut(f) in acts && forall i | 0 <= i < |acts| :: acts[i].HandOut?
    ensures Flatten(DoAll(acts, sink, data, p).calls) == Shown(sink, data, p)
  {
    hide Pending, Flatten, Do;
    if acts[0].field == f {
      var r := Do(acts[0], sink, data, p);
      DoShows(acts[0], sink, data, p);
      PendingNone(r.marks, data, p);
      FlushNothing(acts[1..], r, data, p);
      assert Shown(r, data, p) == Flatten(r.calls);
      assert DoAll(acts, sink, data, p) == r;
    } else {
      hide Shown;
      FlushSkips(acts[0], sink, data, p);
      FlushOne(acts[1..], f, sink, data, p);
    }
  }

  lemma FlushSkips(act: Act, sink: Sink, data: string, p: nat)
    requires p <= |data| && InRange(sink.marks, p) && act.HandOut? && act.field !in sink.marks
    ensures Do(act, sink, data, p) == sink
  {}

  // ---- the trail, arm by arm ----

  lemma InitialTrail(start: Parser, data: string)
    ensures Trail(start, data, InitialMarks(start.state), 0)
  {}

  lemma NextOn(start: Parser, total: Outcome, st: Parser, ch: char, sink: Sink, data: string, p: nat)
    requires Inside(total, st, ch, sink, data, p) && Switch(st, ch, |data| - p).Next?
    requires Ahead(start, data, p, st, ch) && Trail(start, data, sink.marks, p)
    ensures var arm := Switch(st, ch, |data| - p);
      Reached(start, data, p + 1, arm.p) && Trail(start, data, DoAll(arm.acts, sink, data, p).marks, p + 1)
  {
    hide Switch, Run, Shown, DoAll, Resume, After, AtSwitch, MarksFit, Trail, Reached, Ahead, Notes;
    var arm := Switch(st, ch, |data| - p);
    NextReached(start, data, p, st, ch, |data| - p);
    NextKeepsUp(total, st, ch, sink, data, p);
    NextTrail(start, data, arm.acts, sink, p, arm.p);
  }

  lemma AgainOn(start: Parser, total: Outcome, st: Parser, ch: char, sink: Sink, data: string, p: nat)
    requires Inside(total, st, ch, sink, data, p) && Switch(st, ch, |data| - p).Again?
    requires Ahead(start, data, p, st, ch) && Trail(start, data, sink.marks, p)
    ensures var arm := Switch(st, ch, |data| - p);
      Ahead(start, data, p, arm.p, ch) && Trail(start, data, DoAll(arm.acts, sink, data, p).marks, p)
  {
    hide Switch, Run, Shown, DoAll, Resume, After, AtSwitch, MarksFit, Trail, Ahead;
    AgainAhead(start, data, p, st, ch, |data| - p);
    AgainTrail(start, data, Switch(st, ch, |data| - p).acts, sink, p);
  }

  lemma JumpOn(start: Parser, total: Outcome, st: Parser, ch: char, sink: Sink, data: string, p: nat)
    requires Inside(total, st, ch, sink, data, p) && Switch(st, ch, |data| - p).Bulk?
    requires Ahead(start, data, p, st, ch) && Trail(start, data, sink.marks, p)
    ensures var arm := Switch(st, ch, |data| - p);
      && 1 <= arm.toRead <= |data| - p
      && (if arm.closing then
            var r, p' := WithBodyMark(sink, p), p + arm.toRead - 1;
            && Ahead(start, data, p', arm.p, ch) && Body in r.marks && r.marks[Body] <= p'
            && Trail(start, data, CloseBody(r, data, p').marks, p')
          else
            && Reached(start, data, p + arm.toRead, arm.p)
            && Trail(start, data, WithBodyMark(sink, p).marks, p + arm.toRead))
  {
    hide Switch, Run, Shown, Resume, After, OpenSince, AtSwitch, Ahead, Reached, OpenField;
    AtSwitchSmall(st);
    BulkArm(st, ch, |data| - p);
    JumpOpen(start, data, p, st, ch);
    BodyMarksOnly(st, sink);
    var arm := Switch(st, ch, |data| - p);
    if arm.closing {
      JumpKeepsUp(total, st, ch, sink, data, p);
    } else {
      JumpTrail(start, data, sink, p, arm.toRead);
    }
  }

  lemma BodyMarksOnly(st: Parser, sink: Sink)
    requires BodyState(st) && MarksFit(st.state, sink.marks)
    ensures sink.marks.Keys <= {Body}
  {}

  // ---- one call after another ----

  // No call goes on after an error, or once the connection has left HTTP
  predicate GoesOn(st: Parser) { st.errno == OK && !st.upgrade }

  // What is left of the run over data from start, once it has come to its end
  predicate Done(start: Parser, data: string, st: Parser, calls: seq<Call>, consumed: nat) {
    var o := Run(start, data);
    && st == o.p && consumed == o.used <= |data| && o.end != Assertion
    && (if o.end == Error then Withheld(start, o.trace, Flatten(calls), data, consumed) else Flatten(calls) == o.trace)
  }

  // After i pieces: the others still to come, or done before them
  predicate Progress(start: Parser, pieces: seq<string>, st: Parser, calls: seq<Call>, consumed: nat, i: nat) {
    var data := Concat(pieces);
    if GoesOn(st) then
      && i <= |pieces| && consumed <= |data| && data[consumed..] == Concat(pieces[i..])
      && Run(start, data[..consumed]) == Outcome(Ready, st, Flatten(calls), consumed)
    else Done(start, data, st, calls, consumed)
  }

  lemma {:induction false} FlattenMore(a: seq<Call>, b: seq<Call>)
    ensures Flatten(a + b) == Flatten(a) + Flatten(b)
    decreases |b|
  {
    if b == [] {
      assert a + b == a;
    } else {
      FlattenMore(a, b[..|b| - 1]);
      FlattenLast(a, b[..|b| - 1], b[|b| - 1]);
      assert b[..|b| - 1] + [b[|b| - 1]] == b;
    }
  }

  lemma FlattenLast(a: seq<Call>, b: seq<Call>, last: Call)
    requires Flatten(a + b) == Flatten(a) + Flatten(b)
    ensures Flatten(a + (b + [last])) == Flatten(a) + Flatten(b + [last])
  {
    hide Flatten, Bytes, CallEvents;
    assert a + (b + [last]) == (a + b) + [last];
    FlattenAppend(a + b, last);
    FlattenAppend(b, last);
    Regroup(Flatten(a), Flatten(b), CallEvents(last));
  }

  lemma Regroup(x: seq<Event>, y: seq<Event>, z: seq<Event>)
    ensures (x + y) + z == x + (y + z)
  {}

  lemma AllStarts(start: Parser, pieces: seq<string>)
    requires GoesOn(start)
    ensures Progress(start, pieces, start, [], 0, 0)
  {
    hide Run;
    assert pieces[0..] == pieces && Concat(pieces)[0..] == Concat(pieces) && Concat(pieces)[..0] == "";
    RunNothing(start);
  }

  lemma AllEnds(start: Parser, pieces: seq<string>, st: Parser, calls: seq<Call>, consumed: nat, i: nat)
    requires Progress(start, pieces, st, calls, consumed, i) && (GoesOn(st) ==> i == |pieces|)
    ensures Done(start, Concat(pieces), st, calls, consumed)
  {
    hide Run, Flatten, Withheld;
    if GoesOn(st) {
      assert pieces[|pieces|..] == [];
      assert Concat(pieces)[..consumed] == Concat(pieces);
    }
  }

  // The first piece of what is left, in the whole
  lemma PieceIn(pieces: seq<string>, i: nat, n: nat)
    requires i < |pieces| && n <= |Concat(pieces)| && Concat(pieces)[n..] == Concat(pieces[i..])
    ensures var data := Concat(pieces); var k := n + |pieces[i]|;
      && k <= |data| && data[n..k] == pieces[i] && data[n..] == pieces[i] + data[k..]
      && data[k..] == Concat(pieces[i + 1..])
  {
    var rest := Concat(pieces[i + 1..]);
    assert pieces[i..][0] == pieces[i] && pieces[i..][1..] == pieces[i + 1..];
    assert Concat(pieces)[n..] == pieces[i] + rest;
  }

  // What a call makes of the next piece
  lemma NextPiece(start: Parser, pieces: seq<string>, st: Parser, calls: seq<Call>, n: nat, i: nat,
                  st': Parser, more: seq<Call>, used: nat)
    requires GoesOn(st) && Rest(st) && i < |pieces| && Progress(start, pieces, st, calls, n, i)
    requires Done(st, pieces[i], st', more, used)
    ensures Progress(start, pieces, st', calls + more, n + used, i + 1)
  {
    hide Run, Rest, Flatten, Withheld;
    var data, piece := Concat(pieces), pieces[i];
    var o := Run(st, piece);
    var k := n + |piece|;
    PieceIn(pieces, i, n);
    RunSplit(start, data[..n], piece);
    assert data[..n] + piece == data[..k];
    RunSplit(start, data[..k], data[k..]);
    assert data[..k] + data[k..] == data;
    UpgradeShows(st, piece);
    RunOk(st, piece);
    FlattenMore(calls, more);
    if o.end == Ready {
      AtRestOk(st');
    } else if o.end == Error {
      WithheldLater(start, st, o.trace, Flatten(more), piece, used, Flatten(calls), data, n);
    }
  }

  lemma AtRestOk(p: Parser)
    requires Rest(p)
    ensures p.errno == OK
  {}

  lemma SliceOfSlice(data: string, n: nat, k: nat, i: nat, j: nat)
    requires n + k <= |data| && i <= j <= k
    ensures data[n..n + k][i..j] == data[n + i..n + j]
  {
    var a, b := data[n..n + k][i..j], data[n + i..n + j];
    assert |a| == |b|;
    forall t | 0 <= t < |a| ensures a[t] == b[t] {
      assert a[t] == data[n..n + k][i + t] == data[n + (i + t)];
      assert b[t] == data[n + i + t];
    }
  }

  // What one call holds back is what the whole run holds back
  lemma WithheldLater(start: Parser, st: Parser, shown: seq<Event>, told: seq<Event>, piece: string, used: nat,
                      before: seq<Event>, data: string, n: nat)
    requires used <= |piece| && n + |piece| <= |data| && data[n..n + |piece|] == piece
    requires Run(start, data[..n]).end == Ready && Run(start, data[..n]).p == st
             && Withheld(st, shown, told, piece, used)
    ensures Withheld(start, before + shown, before + told, data, n + used)
  {
    hide Run;
    if shown != told {
      var f: Field, m: nat :| m <= used && shown == told + Bytes(f, piece[m..used]) && OpenSince(st, piece, m, used, f);
      SliceOfSlice(data, n, |piece|, m, used);
      assert before + shown == (before + told) + Bytes(f, data[n + m..n + used]);
      forall j | n + m < j <= n + used ensures HasOpen(Run(start, data[..j]).p.state, f) {
        RunSplit(start, data[..n], piece[..j - n]);
        assert data[..n] + piece[..j - n] == data[..j];
        assert HasOpen(Run(st, piece[..j - n]).p.state, f);
      }
    }
  }

  class HttpParser {
    var st: Parser

    ghost predicate Valid() reads this { st.errno == OK ==> Rest(st) }

    constructor (t: ParserType, answer: bool)
      ensures Valid() && st == Init(t, answer)
    {
      st := Init(t, answer);
    }

    /** One call with one piece of input. The parser, the number of bytes consumed and
        the callbacks are those of the byte-at-a-time run; only when parsing stops at
        an error may the bytes behind the one open mark be missing from the callbacks. */
    method Execute(data: string) returns (consumed: nat, calls: seq<Call>)
      requires Valid()
      modifies this
      ensures Valid()
      ensures old(st).errno != OK ==> st == old(st) && consumed == 0 && calls == []
      ensures old(st).errno == OK && data == "" ==>
                Eof(old(st)) == Outcome(Eof(old(st)).end, st, Flatten(calls), consumed)
      ensures old(st).errno == OK && data != "" ==>
        Done(old(st), data, st, calls, consumed)
    {
      hide Switch, Run, Resume, Rest, AtSwitch, Shown, Flatten, After, Eof, DoAll, MarksFit, Withheld, Rank,
        InitialMarks, FlushOrder, Trail, Reached, Ahead;
      consumed, calls := 0, [];
      if st.errno != OK { return; }
      if data == "" {
        consumed, calls := AtEof();
        return;
      }
      ghost var start, total := st, Run(st, data);
      RunOk(st, data);
      ReachedStarts(start, data);
      var sink := Sink(InitialMarks(st.state), []);
      Enters(st, data);
      InitialTrail(start, data);
      var p: nat := 0;
      while p < |data|
        invariant Between(total, st, sink, data, p) && Reached(start, data, p, st) && Trail(start, data, sink.marks, p)
      {
        ByteEnters(start, total, st, sink, data, p);
        ghost var here := st;
        if ParsingHeader(st.state) {
          st := st.(nread := st.nread + 1);
          if st.nread > MAX_HEADER_SIZE {
            st := st.(errno := HeaderOverflow);
            return p, sink.calls;
          }
        }
        ByteAhead(start, data, p, here);
        var ch, reexecute := data[p], true;
        ghost var first := p;
        while reexecute
          invariant first <= p
          invariant reexecute ==> Inside(total, st, ch, sink, data, p)
          invariant reexecute ==> Ahead(start, data, p, st, ch) && Trail(start, data, sink.marks, p)
          invariant !reexecute ==> p < |data| && Between(total, st, sink, data, p + 1)
          invariant !reexecute ==> Reached(start, data, p + 1, st) && Trail(start, data, sink.marks, p + 1)
          decreases reexecute, Rank(st.state)
        {
          var arm := Switch(st, ch, |data| - p);
          match arm {
            case Next(q, acts) =>
              NextKeepsUp(total, st, ch, sink, data, p);
              NextOn(start, total, st, ch, sink, data, p);
              st, sink, reexecute := q, DoAll(acts, sink, data, p), false;
            case Again(q, acts) =>
              AgainKeepsUp(total, st, ch, sink, data, p);
              AgainOn(start, total, st, ch, sink, data, p);
              st, sink := q, DoAll(acts, sink, data, p);
            case Bulk(q, toRead, closing) =>
              JumpKeepsUp(total, st, ch, sink, data, p);
              JumpOn(start, total, st, ch, sink, data, p);
              st, sink := q, WithBodyMark(sink, p);
              p := p + toRead - 1;
              if closing { sink := CloseBody(sink, data, p); } else { reexecute := false; }
            case Leave(q, acts) =>
              LeaveEnds(total, st, ch, sink, data, p);
              st, sink := q, DoAll(acts, sink, data, p);
              return p + 1, sink.calls;
            case Fail(q) =>
              FailEnds(start, total, st, ch, sink, data, p);
              st := q;
              return p, sink.calls;
            case Abort =>
              assert false by { SwitchOk(st, ch, |data| - p); }
          }
        }
        p := p + 1;
      }
      Leaves(total, st, sink, data);
      sink := DoAll(FlushOrder(), sink, data, p);
      return |data|, sink.calls;
    }

    /** Successive calls, one for each piece of the input, none of them empty, until one fails or
        gives the connection up to another protocol: whatever the pieces, the parser, the bytes
        consumed and the callbacks are those of a single call with everything. */
    method ExecuteAll(pieces: seq<string>) returns (consumed: nat, calls: seq<Call>)
      requires Valid() && st.errno == OK && !st.upgrade && forall i :: 0 <= i < |pieces| ==> pieces[i] != ""
      modifies this
      ensures Valid()
      ensures Done(old(st), Concat(pieces), st, calls, consumed)
    {
      hide Run, Rest, Flatten, Withheld, Progress, Done;
      consumed, calls := 0, [];
      ghost var start := st;
      AllStarts(start, pieces);
      var i: nat := 0;
      while i < |pieces| && st.errno == OK && !st.upgrade
        invariant i <= |pieces| && Valid() && Progress(start, pieces, st, calls, consumed, i)
      {
        ghost var before, told, n := st, calls, consumed;
        var used, more := Execute(pieces[i]);
        NextPiece(start, pieces, before, told, n, i, st, more, used);
        calls := calls + more;
        consumed := consumed + used;
        i := i + 1;
      }
      AllEnds(start, pieces, st, calls, consumed, i);
    }

    // The len == 0 branch
    method AtEof() returns (consumed: nat, calls: seq<Call>)
      requires Valid() && st.errno == OK
      modifies this
      ensures Valid() && Eof(old(st)) == Outcome(Eof(old(st)).end, st, Flatten(calls), consumed)
    {
      consumed, calls := 0, [];
      var s := st.state;
      if s.SBodyIdentityEof? {
        calls := [Tell(MessageComplete)];
        FlattenAppend([], calls[0]);
      } else if !(s.SDead? || s.SStartReqOrRes? || s.SStartRes? || s.SStartReq?) {
        st := st.(errno := InvalidEofState);
        consumed := 1;
      }
    }
  }
}
