/** Marks and callbacks: how the slices that `http_parser_execute` hands out add up,
    byte by byte, to the events of the byte-at-a-time reading. */
module HttpMarks {
  import opened Wrappers
  import opened HttpTypes
  import opened HttpSwitch
  import opened HttpRun

  // A callback; `last` is false for a slice that goes on in the next call
  datatype Call = Slice(field: Field, text: string, last: bool) | Tell(note: Note)

  // The four mark pointers (absent is NULL) and the callbacks made so far
  datatype Sink = Sink(marks: map<Field, nat>, calls: seq<Call>)

  function Bytes(f: Field, text: string): seq<Event> {
    seq(|text|, i requires 0 <= i < |text| => Byte(f, text[i]))
  }

  // A field handed out to its end
  function Whole(f: Field, text: string): seq<Event> { Bytes(f, text) + [Ended(f)] }

  function Flatten(calls: seq<Call>): seq<Event> {
    if calls == [] then []
    else
      var last := calls[|calls| - 1];
      Flatten(calls[..|calls| - 1]) + CallEvents(last)
  }

  function CallEvents(call: Call): seq<Event> {
    match call
    case Tell(n) => [Told(n)]
    case Slice(f, text, last) => Bytes(f, text) + if last then Ends(f) else []
  }

  function Do(act: Act, sink: Sink, data: string, p: nat): Sink
    requires p <= |data| && InRange(sink.marks, p)
  {
    match act
    case Notify(n) => sink.(calls := sink.calls + [Tell(n)])
    case Mark(f) => if f in sink.marks then sink else sink.(marks := sink.marks[f := p])
    case Flush(f) => Emit(f, sink, data, p, true)
    case HandOut(f) => Emit(f, sink, data, p, false)
  }

  function Emit(f: Field, sink: Sink, data: string, p: nat, last: bool): Sink
    requires p <= |data| && InRange(sink.marks, p)
  {
    if f in sink.marks then Sink(sink.marks - {f}, sink.calls + [Slice(f, data[sink.marks[f]..p], last)])
    else sink
  }

  predicate InRange(marks: map<Field, nat>, p: nat) { forall f | f in marks :: marks[f] <= p }

  function DoAll(acts: seq<Act>, sink: Sink, data: string, p: nat): (r: Sink)
    requires p <= |data| && InRange(sink.marks, p)
    ensures InRange(r.marks, p)
  {
    if acts == [] then sink else DoAll(acts[1..], Do(acts[0], sink, data, p), data, p)
  }

  // The bytes between the mark of f and p
  function Part(marks: map<Field, nat>, f: Field, data: string, p: nat): seq<Event>
    requires p <= |data| && InRange(marks, p)
  {
    if f in marks then Bytes(f, data[marks[f]..p]) else []
  }

  function Pending(marks: map<Field, nat>, data: string, p: nat): seq<Event>
    requires p <= |data| && InRange(marks, p)
  {
    Part(marks, Url, data, p) + Part(marks, HeaderField, data, p)
    + Part(marks, HeaderValue, data, p) + Part(marks, Body, data, p)
  }

  // Everything handed out, and everything marked but not yet handed out
  function Shown(sink: Sink, data: string, p: nat): seq<Event>
    requires p <= |data| && InRange(sink.marks, p)
  {
    Flatten(sink.calls) + Pending(sink.marks, data, p)
  }

  // The states in which the body mark may be set
  predicate BodyOpen(s: State) {
    s.SBodyIdentity? || s.SBodyIdentityEof? || s.SChunkData? || s.SChunkDataAlmostDone?
  }

  /** Which marks are set in state s: the mark of the open field and no other, or at
      most the body mark. In particular never two marks at once. */
  predicate MarksFit(s: State, marks: map<Field, nat>) {
    match OpenField(s)
    case Some(f) => marks.Keys == {f}
    case None => marks.Keys <= if BodyOpen(s) then {Body} else {}
  }

  // How the macros of an arm from s to t may treat the marks
  predicate Discipline(s: State, acts: seq<Act>, t: State) {
    if acts == [] || (|acts| == 1 && acts[0].Notify?) then
      OpenField(s) == OpenField(t) && (BodyOpen(s) ==> BodyOpen(t))
    else if |acts| == 1 && acts[0].Mark? then
      OpenField(s) == None && !BodyOpen(s) && OpenField(t) == Some(acts[0].field)
    else if |acts| == 1 then
      acts[0].Flush? && OpenField(t) == None && !BodyOpen(t)
      && (OpenField(s) == Some(acts[0].field) || (OpenField(s) == None && BodyOpen(s) && acts[0].field == Body))
    else
      |acts| == 2 && acts[0].Mark? && acts[1] == Flush(acts[0].field)
      && OpenField(s) == None && OpenField(t) == None && !BodyOpen(s) && !BodyOpen(t)
  }

  lemma FlattenAppend(calls: seq<Call>, call: Call)
    ensures Flatten(calls + [call]) == Flatten(calls) + CallEvents(call)
  {
    assert (calls + [call])[..|calls|] == calls;
  }

  lemma BytesSplit(f: Field, data: string, i: nat, j: nat, k: nat)
    requires i <= j <= k <= |data|
    ensures Bytes(f, data[i..k]) == Bytes(f, data[i..j]) + Bytes(f, data[j..k])
  {}

  // The marked stretch grows with p
  lemma PendingGrows(marks: map<Field, nat>, f: Field, data: string, p: nat, p': nat)
    requires p <= p' <= |data| && InRange(marks, p) && marks.Keys == {f}
    ensures InRange(marks, p') && Pending(marks, data, p') == Pending(marks, data, p) + Bytes(f, data[p..p'])
  {
    BytesSplit(f, data, marks[f], p, p');
  }

  lemma PendingOne(marks: map<Field, nat>, f: Field, data: string, p: nat)
    requires p <= |data| && InRange(marks, p) && marks.Keys == {f}
    ensures Pending(marks, data, p) == Bytes(f, data[marks[f]..p])
  {}

  lemma PendingNone(marks: map<Field, nat>, data: string, p: nat)
    requires p <= |data| && marks.Keys == {}
    ensures InRange(marks, p) && Pending(marks, data, p) == []
  {}

  // One macro changes nothing of what is shown, apart from what it adds itself
  lemma DoShows(act: Act, sink: Sink, data: string, p: nat)
    requires p <= |data| && InRange(sink.marks, p)
    requires act.Mark? ==> sink.marks.Keys == {}
    requires act.Flush? ==> sink.marks.Keys == {act.field} || (act.field == Body && sink.marks.Keys == {})
    requires act.HandOut? ==> sink.marks.Keys == {act.field}
    requires act.Notify? ==> sink.marks.Keys == {}
    ensures var r := Do(act, sink, data, p);
      && InRange(r.marks, p)
      && Shown(r, data, p) == Shown(sink, data, p) + Noted(act)
      && r.marks.Keys == (if act.Mark? then {act.field} else {})
  {
    var r := Do(act, sink, data, p);
    match act
    case Notify(n) =>
      PendingNone(sink.marks, data, p);
      FlattenAppend(sink.calls, Tell(n));
    case Mark(f) =>
      PendingNone(sink.marks, data, p);
      PendingOne(r.marks, f, data, p);
    case Flush(f) => EmitShows(f, sink, data, p, true);
    case HandOut(f) => EmitShows(f, sink, data, p, false);
  }

  lemma EmitShows(f: Field, sink: Sink, data: string, p: nat, last: bool)
    requires p <= |data| && InRange(sink.marks, p)
    requires sink.marks.Keys == {f} || (f == Body && sink.marks.Keys == {})
    ensures var r := Emit(f, sink, data, p, last);
      && InRange(r.marks, p) && r.marks.Keys == {}
      && Shown(r, data, p) == Shown(sink, data, p) + if last then Ends(f) else []
  {
    hide Pending;
    var r := Emit(f, sink, data, p, last);
    assert r.marks.Keys == {};
    PendingNone(r.marks, data, p);
    if f in sink.marks {
      PendingOne(sink.marks, f, data, p);
      FlattenAppend(sink.calls, Slice(f, data[sink.marks[f]..p], last));
    } else {
      PendingNone(sink.marks, data, p);
    }
  }

  lemma DoOne(act: Act, sink: Sink, data: string, p: nat)
    requires p <= |data| && InRange(sink.marks, p)
    ensures DoAll([act], sink, data, p) == Do(act, sink, data, p) && Notes([act]) == Noted(act)
  {
    hide Do, Noted;
    assert [act][1..] == [];
    assert Notes([act]) == Noted(act) + Notes([]);
  }

  lemma DoTwo(a: Act, b: Act, sink: Sink, data: string, p: nat)
    requires p <= |data| && InRange(sink.marks, p) && InRange(Do(a, sink, data, p).marks, p)
    ensures DoAll([a, b], sink, data, p) == Do(b, Do(a, sink, data, p), data, p)
    ensures Notes([a, b]) == Noted(a) + Noted(b)
  {
    hide Do, Noted;
    assert [a, b][1..] == [b];
    DoOne(b, Do(a, sink, data, p), data, p);
  }

  lemma MarkMeets(s: State, f: Field, t: State, marks: map<Field, nat>)
    requires MarksFit(s, marks) && Discipline(s, [Mark(f)], t)
    ensures marks.Keys == {} && MarksFit(t, map[f := 0])
  {}

  lemma FlushMeets(s: State, f: Field, t: State, marks: map<Field, nat>)
    requires MarksFit(s, marks) && Discipline(s, [Flush(f)], t)
    ensures (marks.Keys == {f} || (f == Body && marks.Keys == {})) && MarksFit(t, map[])
  {}

  lemma NotifyMeets(s: State, n: Note, t: State, marks: map<Field, nat>)
    requires MarksFit(s, marks) && Discipline(s, [Notify(n)], t) && marks.Keys == {}
    ensures MarksFit(t, map[])
  {}

  lemma NoHandOut(s: State, f: Field, t: State)
    ensures !Discipline(s, [HandOut(f)], t)
  {}

  lemma SameKeysFit(t: State, a: map<Field, nat>, b: map<Field, nat>)
    requires MarksFit(t, a) && a.Keys == b.Keys
    ensures MarksFit(t, b)
  {}

  lemma OneShows(s: State, act: Act, t: State, sink: Sink, data: string, p: nat)
    requires p <= |data| && InRange(sink.marks, p) && MarksFit(s, sink.marks) && Discipline(s, [act], t)
    requires act.Notify? ==> sink.marks.Keys == {}
    ensures var r := DoAll([act], sink, data, p);
      MarksFit(t, r.marks) && Shown(r, data, p) == Shown(sink, data, p) + Notes([act])
  {
    hide Shown, Do, MarksFit, Discipline, Noted;
    match act {
      case Mark(f) => MarkMeets(s, f, t, sink.marks);
      case Flush(f) => FlushMeets(s, f, t, sink.marks);
      case Notify(n) => NotifyMeets(s, n, t, sink.marks);
      case HandOut(f) => NoHandOut(s, f, t);
    }
    DoShows(act, sink, data, p);
    DoOne(act, sink, data, p);
    SameKeysFit(t, if act.Mark? then map[act.field := 0] else map[], Do(act, sink, data, p).marks);
  }

  lemma TwoShow(s: State, f: Field, t: State, sink: Sink, data: string, p: nat)
    requires p <= |data| && InRange(sink.marks, p) && MarksFit(s, sink.marks)
    requires Discipline(s, [Mark(f), Flush(f)], t)
    ensures var r := DoAll([Mark(f), Flush(f)], sink, data, p);
      MarksFit(t, r.marks) && Shown(r, data, p) == Shown(sink, data, p) + Notes([Mark(f), Flush(f)])
  {
    assert sink.marks.Keys == {} && MarksFit(t, map[]);
    hide Shown, Do, MarksFit, Discipline;
    DoShows(Mark(f), sink, data, p);
    var r := Do(Mark(f), sink, data, p);
    DoShows(Flush(f), r, data, p);
    DoTwo(Mark(f), Flush(f), sink, data, p);
    SameKeysFit(t, map[], Do(Flush(f), r, data, p).marks);
  }

  lemma DoAllShows(s: State, acts: seq<Act>, t: State, sink: Sink, data: string, p: nat)
    requires p <= |data| && InRange(sink.marks, p) && MarksFit(s, sink.marks)
    requires Discipline(s, acts, t)
    requires acts != [] && acts[0].Notify? ==> sink.marks.Keys == {}
    ensures var r := DoAll(acts, sink, data, p);
      MarksFit(t, r.marks) && Shown(r, data, p) == Shown(sink, data, p) + Notes(acts)
  {
    hide Shown, Do, OpenField, BodyOpen, Noted;
    if |acts| == 1 {
      assert acts == [acts[0]];
      OneShows(s, acts[0], t, sink, data, p);
    } else if |acts| == 2 {
      var f := acts[0].field;
      assert acts == [Mark(f), Flush(f)];
      TwoShow(s, f, t, sink, data, p);
    }
  }

  // Moving past a byte that the open mark covers
  lemma StepPast(s: State, sink: Sink, data: string, p: nat)
    requires p < |data| && InRange(sink.marks, p) && MarksFit(s, sink.marks)
    requires BodyOpen(s) ==> sink.marks.Keys == {}
    ensures InRange(sink.marks, p + 1) && Shown(sink, data, p + 1) == Shown(sink, data, p) + Kept(s, data[p])
  {
    var open := OpenField(s);
    hide OpenField, BodyOpen, Pending;
    match open
    case Some(f) =>
      PendingGrows(sink.marks, f, data, p, p + 1);
      assert Bytes(f, data[p..p + 1]) == [Byte(f, data[p])];
    case None =>
      PendingNone(sink.marks, data, p);
      PendingNone(sink.marks, data, p + 1);
  }

  // ---- every arm keeps the discipline ----

  predicate ArmFits(s: State, arm: Arm) {
    match arm
    case Next(q, acts) => Discipline(s, acts, q.state) && !(BodyOpen(s) && acts == [])
                          && (acts != [] && acts[0].Notify? ==>
                            OpenField(s) == None && !BodyOpen(s) && !BodyOpen(q.state))
    case Again(q, acts) => Discipline(s, acts, q.state) && !BodyOpen(s)
                           && (acts != [] && acts[0].Notify? ==> OpenField(s) == None)
    case Leave(q, acts) => Discipline(s, acts, q.state) && OpenField(s) == None && !BodyOpen(s)
    case Bulk(q, _, closing) => BodyOpen(s) && OpenField(s) == None && OpenField(q.state) == None
                                && (if closing then !BodyOpen(q.state) else BodyOpen(q.state))
    case _ => true
  }

  lemma StartFits(p: Parser, ch: char)
    requires InStart(p.state)
    ensures ArmFits(p.state, StartArm(p, ch))
  { hide IsAlpha, FirstMethod; }

  predicate Silent(s: State) { OpenField(s) == None && !BodyOpen(s) }

  lemma StatusLineFits(p: Parser, ch: char)
    requires InStatusLine(p.state)
    ensures ArmFits(p.state, StatusLineArm(p, ch))
  {
    hide ThreeDigits, IsNum;
    assert Silent(p.state);
  }

  lemma UrlHoldsMark(s: State)
    requires InUrl(s)
    ensures OpenField(s) == Some(Url) && !BodyOpen(s)
  {}

  lemma UrlStepFits(p: Parser, s: State, ch: char)
    ensures InUrl(p.state) ==> ArmFits(p.state, UrlStep(p, s, ch, []))
    ensures p.state.SReqSpacesBeforeUrl? ==> ArmFits(p.state, UrlStep(p, s, ch, [Mark(Url)]))
  {
    var t := ParseUrlChar(s, ch);
    UrlStaysUrl(s, ch);
    assert p.state.SReqSpacesBeforeUrl? ==> OpenField(p.state) == None && !BodyOpen(p.state);
    hide ParseUrlChar, InUrl, BodyOpen, OpenField;
    if InUrl(p.state) { UrlHoldsMark(p.state); }
    if InUrl(t) { UrlHoldsMark(t); }
  }

  lemma UrlFits(p: Parser, ch: char)
    requires InUrl(p.state) || p.state.SReqSpacesBeforeUrl?
    ensures ArmFits(p.state, UrlArm(p, ch))
  {
    hide UrlStep;
    UrlStepFits(p, p.state, ch);
    UrlStepFits(p, SReqServerStart, ch);
  }

  lemma MethodFits(p: Parser, ch: char)
    requires p.state.SReqMethod?
    ensures ArmFits(p.state, MethodArm(p, ch))
  { hide NextMethod, NameOf; }

  lemma VersionIsSilent(s: State)
    requires InRequestVersion(s) || s == SHeaderFieldStart
    ensures Silent(s)
  {}

  // Such an arm runs no macro
  lemma VersionStays(p: Parser, ch: char)
    requires InRequestVersion(p.state)
    ensures var arm := RequestVersionArm(p, ch);
      arm.Fail? || (arm.Next? && arm.acts == [] && Silent(arm.p.state))
  {
    VersionGoes(p, ch);
    var arm := RequestVersionArm(p, ch);
    hide RequestVersionArm;
    if arm.Next? { VersionIsSilent(arm.p.state); }
  }

  lemma VersionGoes(p: Parser, ch: char)
    requires InRequestVersion(p.state)
    ensures var arm := RequestVersionArm(p, ch);
      arm.Fail? || (arm.Next? && arm.acts == [] && (InRequestVersion(arm.p.state) || arm.p.state == SHeaderFieldStart))
  { hide ThreeDigits, IsNum; }

  lemma RequestVersionFits(p: Parser, ch: char)
    requires InRequestVersion(p.state)
    ensures ArmFits(p.state, RequestVersionArm(p, ch))
  {
    hide ThreeDigits, IsNum;
    VersionIsSilent(p.state);
    VersionStays(p, ch);
    hide RequestVersionArm, OpenField, BodyOpen;
  }

  lemma HeaderNameFits(p: Parser, ch: char)
    requires AtSwitch(p) && InHeaderName(p.state)
    ensures ArmFits(p.state, HeaderNameArm(p, ch))
  {
    hide NameChar, Token, AtSwitch, NameOk;
    if p.state.SHeaderField? { NameCharOk(p, Token(ch)); }
  }

  lemma ValueCharsFit(p: Parser, ch: char)
    ensures p.state == SHeaderValueStart ==> ArmFits(p.state, FirstValueChar(p, ch))
    ensures p.state == SHeaderValue ==> ArmFits(p.state, ValueChar(p, ch))
  { hide MatchNext, Lower, Accumulate, IsNum; }

  lemma HeaderValueFits(p: Parser, ch: char)
    requires InHeaderValue(p.state)
    ensures ArmFits(p.state, HeaderValueArm(p, ch))
  {
    ValueCharsFit(p, ch);
    hide FirstValueChar, ValueChar, LineFlags;
  }

  lemma HeadersEndFits(p: Parser, ch: char)
    requires InHeadersEnd(p.state)
    ensures ArmFits(p.state, HeadersEndArm(p, ch))
  { hide ShouldKeepAlive; }

  lemma BodyFits(p: Parser, ch: char, avail: nat)
    requires InBody(p.state)
    ensures ArmFits(p.state, BodyArm(p, ch, avail))
  { hide ShouldKeepAlive; }

  lemma ChunkFits(p: Parser, ch: char, avail: nat)
    requires InChunk(p.state)
    ensures ArmFits(p.state, ChunkArm(p, ch, avail))
  { hide Unhex, Accumulate; }

  lemma SwitchFits(p: Parser, ch: char, avail: nat)
    requires AtSwitch(p)
    ensures ArmFits(p.state, Switch(p, ch, avail))
  {
    hide StartArm, StatusLineArm, MethodArm, UrlArm, RequestVersionArm, HeaderNameArm,
      HeaderValueArm, HeadersEndArm, BodyArm, ChunkArm, AtSwitch, ArmFits;
    var s := p.state;
    if InStart(s) { StartFits(p, ch); }
    else if InStatusLine(s) { StatusLineFits(p, ch); }
    else if s.SReqMethod? { MethodFits(p, ch); }
    else if InUrl(s) || s.SReqSpacesBeforeUrl? { UrlFits(p, ch); }
    else if InRequestVersion(s) { RequestVersionFits(p, ch); }
    else if InHeaderName(s) { HeaderNameFits(p, ch); }
    else if InHeaderValue(s) { HeaderValueFits(p, ch); }
    else if InHeadersEnd(s) { HeadersEndFits(p, ch); }
    else if InBody(s) { BodyFits(p, ch, avail); }
    else { ChunkFits(p, ch, avail); }
  }
}
