/** Header lines as the parser accepts them: values on one line or folded over several, empty
    values, names without a colon, lines that end with CR LF or with LF alone; and blocks of them. */
module HttpHeaders {
  import opened HttpTypes
  import opened HttpSwitch
  import opened HttpRun
  import opened HttpMarks
  import opened HttpReading
  import opened HttpNames
  import opened HttpNumbers
  import opened HttpValues

  // ---- the form of a header ----

  // A stretch of a value up to the end of its line, with the blanks before it
  datatype Part = Part(blank: string, value: string, end: LineBreak)

  // What stands between the name and the value: a colon, or nothing but the end of the line
  datatype Opening = Colon | Broken(end: LineBreak)

  datatype Header = Header(name: string, opening: Opening, parts: seq<Part>)

  predicate IsBlank(ws: string) { forall c | c in ws :: c == ' ' || c == '\t' }

  function PartText(x: Part): string { x.blank + (x.value + BreakText(x.end)) }

  function PartsText(xs: seq<Part>): string {
    if xs == [] then "" else PartText(xs[0]) + PartsText(xs[1..])
  }

  function OpeningText(o: Opening): string { if o.Colon? then ":" else BreakText(o.end) }

  function Line(h: Header): string { h.name + (OpeningText(h.opening) + PartsText(h.parts)) }

  function ValueEvents(xs: seq<Part>): seq<Event> {
    if xs == [] then [] else Whole(HeaderValue, xs[0].value) + ValueEvents(xs[1..])
  }

  function HeaderEvent(h: Header): seq<Event> {
    Whole(HeaderField, h.name) + ValueEvents(h.parts)
  }

  // An empty value ended by LF alone ends the header: no further part can follow
  predicate Closes(x: Part) { x.value == "" && x.end.BareLf? }

  // What a name means while its value goes on over the next line: only a length is read anew
  function MeaningAfter(m: HeaderState, v: string): HeaderState {
    if m == HContentLength && v != "" then HContentLength else HGeneral
  }

  predicate IsPart(m: HeaderState, x: Part) {
    IsBlank(x.blank) && (x.value == "" || IsValue(m, x.value))
  }

  // The parts of a value whose name means m; folded lines start with a blank
  predicate AreParts(m: HeaderState, xs: seq<Part>, folded: bool)
    decreases |xs|
  {
    xs != [] ==>
      && IsPart(m, xs[0]) && (folded ==> xs[0].blank != "")
      && (|xs| > 1 ==> !Closes(xs[0]))
      && AreParts(MeaningAfter(m, xs[0].value), xs[1..], true)
  }

  predicate WellFormed(h: Header) {
    && IsName(h.name)
    && (h.opening.Colon? ==> h.parts != [])
    && (h.opening == Broken(BareLf) ==> h.parts == [])
    && AreParts(Meaning(Lowered(h.name)), h.parts, !h.opening.Colon?)
  }

  // ---- the effect of a header ----

  function PartFlags(f: Flags, m: HeaderState, v: string): Flags {
    if v == "" then f else LineEffect(f, m, v)
  }

  function PartLength(m: HeaderState, v: string, cl: nat): nat
    requires v == "" || IsValue(m, v)
  {
    if v == "" then cl else LengthAfter(m, v, cl)
  }

  function PartsFlags(f: Flags, m: HeaderState, xs: seq<Part>): Flags
    decreases |xs|
  {
    if xs == [] then f else PartsFlags(PartFlags(f, m, xs[0].value), MeaningAfter(m, xs[0].value), xs[1..])
  }

  function PartsLength(m: HeaderState, xs: seq<Part>, folded: bool, cl: nat): nat
    requires AreParts(m, xs, folded)
    decreases |xs|
  {
    if xs == [] then cl
    else PartsLength(MeaningAfter(m, xs[0].value), xs[1..], true, PartLength(m, xs[0].value, cl))
  }

  function HeaderFlags(f: Flags, h: Header): Flags { PartsFlags(f, Meaning(Lowered(h.name)), h.parts) }

  function HeaderLength(h: Header, cl: nat): nat
    requires WellFormed(h)
  {
    PartsLength(Meaning(Lowered(h.name)), h.parts, !h.opening.Colon?, cl)
  }

  // Where a header line may start
  predicate AtBreak(s: State) { s == SHeaderFieldStart || s == SHeaderValueLws }

  // p with the bytes n, flags and content length accounted for; header_state and index are scratch
  predicate Became(p: Parser, q: Parser, n: nat, f: Flags, cl: nat) {
    q == p.(state := q.state, headerState := q.headerState, index := q.index, nread := p.nread + n,
            flags := f, contentLength := cl)
  }

  // ---- blanks and line ends ----

  lemma {:induction false} BlankRun(p: Parser, ws: string)
    requires p.state == SHeaderValueStart && p.errno == OK && Room(p, |ws|) && IsBlank(ws)
    ensures Reads(p, ws, p.(nread := p.nread + |ws|), [])
    decreases |ws|
  {
    hide Run, ByteStep, Switch;
    if ws == "" { ReadsNothing(p); }
    else {
      var front, ch := ws[..|ws| - 1], ws[|ws| - 1];
      assert ws == front + [ch] && ch in ws && forall c | c in front :: c in ws;
      BlankRun(p, front);
      var q := p.(nread := p.nread + |front|);
      BlankStep(q, ch);
      ReadsMore(p, front, q, [], ch, p.(nread := p.nread + |ws|), []);
    }
  }

  lemma BlankStep(q: Parser, ch: char)
    requires q.state == SHeaderValueStart && q.errno == OK && Room(q, 1) && (ch == ' ' || ch == '\t')
    ensures Steps(q, ch, q.(nread := q.nread + 1), [])
  {
    hide Switch, FirstValueChar;
    ValueDispatch(q.(nread := q.nread + 1), ch);
    StepsNext(q, ch, q.(nread := q.nread + 1), []);
  }

  // A blank behind the end of a line: the value goes on
  lemma FoldStep(p: Parser, ch: char)
    requires p.state == SHeaderValueLws && p.errno == OK && Room(p, 1) && (ch == ' ' || ch == '\t')
    ensures Steps(p, ch, p.(state := SHeaderValueStart, nread := p.nread + 1), [])
  {
    hide Switch, FirstValueChar, ValueChar;
    ValueDispatch(p.(nread := p.nread + 1), ch);
    StepsNext(p, ch, p.(state := SHeaderValueStart, nread := p.nread + 1), []);
  }

  lemma CrStep(p: Parser)
    requires p.state == SHeaderValue && p.errno == OK && Room(p, 1)
    ensures Steps(p, CR, p.(state := SHeaderAlmostDone, nread := p.nread + 1), [Ended(HeaderValue)])
  {
    hide Switch, ValueChar;
    OneFlush(HeaderValue);
    ValueDispatch(p.(nread := p.nread + 1), CR);
    StepsNext(p, CR, p.(state := SHeaderAlmostDone, nread := p.nread + 1), [Flush(HeaderValue)]);
  }

  lemma LfStep(p: Parser)
    requires p.state == SHeaderAlmostDone && p.errno == OK && Room(p, 1)
    ensures Steps(p, LF, p.(state := SHeaderValueLws, flags := LineFlags(p), nread := p.nread + 1), [])
  {
    hide Switch, ValueChar;
    ValueDispatch(p.(nread := p.nread + 1), LF);
    StepsNext(p, LF, p.(state := SHeaderValueLws, flags := LineFlags(p), nread := p.nread + 1), []);
  }

  // LF alone is read twice, as the end of the value and as the end of the line
  lemma BareLfArms(c: Parser)
    requires c.state == SHeaderValue
    ensures var a := c.(state := SHeaderAlmostDone);
      Switch(c, LF, 1) == Again(a, [Flush(HeaderValue)])
      && Switch(a, LF, 1) == Next(c.(state := SHeaderValueLws, flags := LineFlags(c)), [])
  {
    hide ValueChar, Switch;
    ValueDispatch(c, LF);
    ValueDispatch(c.(state := SHeaderAlmostDone), LF);
  }

  lemma SilentLws()
    ensures Notes([]) == [] && Kept(SHeaderValueLws, LF) == []
  {}

  lemma BareLfStep(p: Parser)
    requires p.state == SHeaderValue && p.errno == OK && Room(p, 1)
    ensures Steps(p, LF, p.(state := SHeaderValueLws, flags := LineFlags(p), nread := p.nread + 1),
                  [Ended(HeaderValue)])
  {
    hide Switch, LineFlags, Notes;
    var c := p.(nread := p.nread + 1);
    var a, z := c.(state := SHeaderAlmostDone), c.(state := SHeaderValueLws, flags := LineFlags(p));
    BareLfArms(c);
    SameLineFlags(p, c);
    OneFlush(HeaderValue);
    SilentLws();
    assert Settle(a, LF) == Outcome(Ready, z, [], 1);
  }

  lemma SameLineFlags(p: Parser, q: Parser)
    requires p.flags == q.flags && p.headerState == q.headerState
    ensures LineFlags(p) == LineFlags(q)
  {}

  lemma LineEnd(p: Parser, e: LineBreak)
    requires p.state == SHeaderValue && p.errno == OK && Room(p, |BreakText(e)|)
    ensures Reads(p, BreakText(e),
                  p.(state := SHeaderValueLws, flags := LineFlags(p), nread := p.nread + |BreakText(e)|),
                  [Ended(HeaderValue)])
  {
    hide Run, ByteStep, LineFlags;
    if e.CrLf? {
      var q := p.(state := SHeaderAlmostDone, nread := p.nread + 1);
      CrStep(p);
      LfStep(q);
      SameLineFlags(p, q);
      ReadsByte(p, CR, q, [Ended(HeaderValue)]);
      ReadsMore(p, [CR], q, [Ended(HeaderValue)], LF,
                p.(state := SHeaderValueLws, flags := LineFlags(p), nread := p.nread + 2), []);
      assert [CR] + [LF] == [CR, LF];
    } else {
      BareLfStep(p);
      ReadsByte(p, LF, p.(state := SHeaderValueLws, flags := LineFlags(p), nread := p.nread + 1), [Ended(HeaderValue)]);
    }
  }

  // The end of a line without a value
  lemma EmptyCr(p: Parser)
    requires p.state == SHeaderValueStart && p.errno == OK && Room(p, 1)
    ensures Steps(p, CR, p.(index := 0, headerState := HGeneral, state := SHeaderAlmostDone, nread := p.nread + 1),
                  [Ended(HeaderValue)])
  {
    hide Switch, FirstValueChar;
    ValueDispatch(p.(nread := p.nread + 1), CR);
    StepsNext(p, CR, p.(index := 0, headerState := HGeneral, state := SHeaderAlmostDone, nread := p.nread + 1),
      [Mark(HeaderValue), Flush(HeaderValue)]);
    MarkAndFlush(HeaderValue);
  }

  lemma EmptyLf(p: Parser)
    requires p.state == SHeaderValueStart && p.errno == OK && Room(p, 1)
    ensures Steps(p, LF, p.(index := 0, state := SHeaderFieldStart, nread := p.nread + 1), [Ended(HeaderValue)])
  {
    hide Switch, FirstValueChar;
    ValueDispatch(p.(nread := p.nread + 1), LF);
    StepsNext(p, LF, p.(index := 0, state := SHeaderFieldStart, nread := p.nread + 1),
              [Mark(HeaderValue), Flush(HeaderValue)]);
    MarkAndFlush(HeaderValue);
  }

  lemma MarkAndFlush(f: Field)
    requires f != Body
    ensures Notes([Mark(f), Flush(f)]) == [Ended(f)]
  {
    assert [Mark(f), Flush(f)][1..] == [Flush(f)];
    OneFlush(f);
  }

  lemma EmptyEnd(p: Parser, e: LineBreak) returns (q: Parser)
    requires p.state == SHeaderValueStart && p.errno == OK && Room(p, |BreakText(e)|)
    ensures Reads(p, BreakText(e), q, [Ended(HeaderValue)]) && Became(p, q, |BreakText(e)|, p.flags, p.contentLength)
    ensures if e.BareLf? then q.state == SHeaderFieldStart else q.state == SHeaderValueLws && q.headerState == HGeneral
  {
    hide Run, ByteStep;
    if e.CrLf? {
      var a := p.(index := 0, headerState := HGeneral, state := SHeaderAlmostDone, nread := p.nread + 1);
      q := a.(state := SHeaderValueLws, nread := a.nread + 1);
      EmptyCr(p);
      LfStep(a);
      ReadsByte(p, CR, a, [Ended(HeaderValue)]);
      ReadsMore(p, [CR], a, [Ended(HeaderValue)], LF, q, []);
      assert [CR] + [LF] == [CR, LF];
    } else {
      q := p.(index := 0, state := SHeaderFieldStart, nread := p.nread + 1);
      EmptyLf(p);
      ReadsByte(p, LF, q, [Ended(HeaderValue)]);
    }
  }

  // ---- one part of a value ----

  // What a header state means to a value that starts now
  function Standing(s: HeaderState): HeaderState {
    if s == HConnection || s == HContentLength || s == HTransferEncoding || s == HUpgrade then s else HGeneral
  }

  // A state left over from an earlier line, or from a partial match, counts as no match
  lemma Forgets(p: Parser, v: string)
    requires p.state == SHeaderValueStart && ValueOnly(p.headerState) && Room(p, 1)
    requires v != "" && v[0] != ' ' && v[0] != '\t' && v[0] != CR && v[0] != LF
    ensures Run(p, v) == Run(p.(headerState := HGeneral), v)
  {
    hide Run, ByteStep, ValueOnly;
    ForgetsByte(p, v[0]);
    SameFirstByte(p, p.(headerState := HGeneral), v);
  }

  lemma ForgetsByte(p: Parser, ch: char)
    requires p.state == SHeaderValueStart && ValueOnly(p.headerState) && Room(p, 1)
    requires ch != ' ' && ch != '\t' && ch != CR && ch != LF
    ensures ByteStep(p, ch) == ByteStep(p.(headerState := HGeneral), ch)
  {
    hide Switch, ValueOnly;
    ForgetsArm(p.(nread := p.nread + 1), ch);
  }

  lemma ForgetsArm(p: Parser, ch: char)
    requires p.state == SHeaderValueStart && ValueOnly(p.headerState)
    requires ch != ' ' && ch != '\t' && ch != CR && ch != LF
    ensures Switch(p, ch, 1) == Switch(p.(headerState := HGeneral), ch, 1) && Switch(p, ch, 1).Next?
  {}

  lemma StandingValue(s: HeaderState, v: string)
    requires IsValue(Standing(s), v)
    ensures IsValue(s, v)
    ensures forall cl: nat {:trigger LengthAfter(s, v, cl)} :: LengthAfter(s, v, cl) == LengthAfter(Standing(s), v, cl)
  {}

  lemma StandingEffect(f: Flags, s: HeaderState, v: string)
    ensures LineEffect(f, s, v) == LineEffect(f, Standing(s), v)
  {
    hide IsKeyword;
  }

  lemma StandingAfter(s: HeaderState, v: string)
    requires v != ""
    ensures Standing(ValueClass(s, v)) == MeaningAfter(Standing(s), v)
  {
    hide Lower, KeywordClass;
    ThreeClasses(v, CHUNKED, HMatchingTransferEncodingChunked, HTransferEncodingChunked);
    ThreeClasses(v, KEEP_ALIVE, HMatchingConnectionKeepAlive, HConnectionKeepAlive);
    ThreeClasses(v, CLOSE, HMatchingConnectionClose, HConnectionClose);
  }

  // A value and the end of its line
  lemma ValueAndEnd(p: Parser, v: string, e: LineBreak) returns (q: Parser)
    requires AtValue(p, |v| + |BreakText(e)|) && IsValue(p.headerState, v)
    ensures Reads(p, v + BreakText(e), q, Whole(HeaderValue, v))
    ensures Became(p, q, |v| + |BreakText(e)|, LineEffect(p.flags, p.headerState, v),
                   LengthAfter(p.headerState, v, p.contentLength))
    ensures q.state == SHeaderValueLws && q.headerState == ValueClass(p.headerState, v)
  {
    hide Run, ByteStep, LineFlags, LengthAfter, LineEffect, ValueClass;
    var index := ValueRun(p, v);
    var u := InValue(p, v, index);
    LineEnd(u, e);
    FlagsOfValue(p, v, index);
    q := u.(state := SHeaderValueLws, flags := LineFlags(u), nread := u.nread + |BreakText(e)|);
    ReadsThen(p, v, u, Bytes(HeaderValue, v), BreakText(e), q, [Ended(HeaderValue)]);
  }

  lemma ValueStarts(h: HeaderState, v: string)
    requires IsValue(h, v)
    ensures v != "" && v[0] != ' ' && v[0] != '\t' && v[0] != CR && v[0] != LF
  {
    assert v[0] in v;
  }

  // The same from any header state a value may start in
  lemma AnyValueAndEnd(p: Parser, v: string, e: LineBreak) returns (q: Parser)
    requires p.state == SHeaderValueStart && p.errno == OK && Room(p, |v| + |BreakText(e)|)
    requires IsValue(Standing(p.headerState), v)
    ensures Reads(p, v + BreakText(e), q, Whole(HeaderValue, v))
    ensures var m := Standing(p.headerState);
      Became(p, q, |v| + |BreakText(e)|, LineEffect(p.flags, m, v), LengthAfter(m, v, p.contentLength))
      && q.state == SHeaderValueLws && Standing(q.headerState) == MeaningAfter(m, v)
  {
    hide Run, LengthAfter, LineEffect, ValueClass, IsValue, BreakText;
    var s := p.headerState;
    ValueStarts(Standing(s), v);
    StandingValue(s, v);
    StandingEffect(p.flags, s, v);
    StandingAfter(s, v);
    if ValueOnly(s) {
      var w := v + BreakText(e);
      assert w[0] == v[0];
      Forgets(p, w);
      StandingAfter(HGeneral, v);
      q := ValueAndEnd(p.(headerState := HGeneral), v, e);
    } else {
      q := ValueAndEnd(p, v, e);
    }
  }

  lemma PartRun(p: Parser, x: Part) returns (q: Parser)
    requires p.state == SHeaderValueStart && p.errno == OK && Room(p, |PartText(x)|)
             && IsPart(Standing(p.headerState), x)
    ensures Reads(p, PartText(x), q, Whole(HeaderValue, x.value))
    ensures var m := Standing(p.headerState);
      Became(p, q, |PartText(x)|, PartFlags(p.flags, m, x.value), PartLength(m, x.value, p.contentLength))
      && (if Closes(x) then q.state == SHeaderFieldStart
          else q.state == SHeaderValueLws && Standing(q.headerState) == MeaningAfter(m, x.value))
  {
    hide Run, LengthAfter, LineEffect, IsValue, Reads;
    var a := p.(nread := p.nread + |x.blank|);
    BlankRun(p, x.blank);
    if x.value == "" {
      q := EmptyEnd(a, x.end);
      assert x.value + BreakText(x.end) == BreakText(x.end);
      ReadsThen(p, x.blank, a, [], BreakText(x.end), q, [Ended(HeaderValue)]);
      assert Whole(HeaderValue, "") == [] + [Ended(HeaderValue)];
    } else {
      q := AnyValueAndEnd(a, x.value, x.end);
      ReadsThen(p, x.blank, a, [], x.value + BreakText(x.end), q, Whole(HeaderValue, x.value));
      assert [] + Whole(HeaderValue, x.value) == Whole(HeaderValue, x.value);
    }
  }

  // ---- a whole value, over as many lines as it takes ----

  lemma FirstBlank(x: Part)
    requires x.blank != ""
    ensures PartText(x) == [x.blank[0]] + PartText(x.(blank := x.blank[1..]))
  {
    assert x.blank == [x.blank[0]] + x.blank[1..];
  }

  // A part on a line of its own: its first blank shows that the value goes on
  lemma FoldedRun(p: Parser, x: Part) returns (q: Parser)
    requires p.state == SHeaderValueLws && p.errno == OK && Room(p, |PartText(x)|)
    requires IsPart(Standing(p.headerState), x) && x.blank != ""
    ensures Reads(p, PartText(x), q, Whole(HeaderValue, x.value))
    ensures var m := Standing(p.headerState);
      Became(p, q, |PartText(x)|, PartFlags(p.flags, m, x.value), PartLength(m, x.value, p.contentLength))
      && (if Closes(x) then q.state == SHeaderFieldStart
          else q.state == SHeaderValueLws && Standing(q.headerState) == MeaningAfter(m, x.value))
  {
    hide Run, ByteStep, PartFlags, PartLength, IsValue, Reads, Standing, MeaningAfter, Whole, BreakText;
    var ch := x.blank[0];
    var y := x.(blank := x.blank[1..]);
    assert ch in x.blank && forall c | c in y.blank :: c in x.blank;
    var a := p.(state := SHeaderValueStart, nread := p.nread + 1);
    FoldStep(p, ch);
    ReadsByte(p, ch, a, []);
    FirstBlank(x);
    q := PartRun(a, y);
    hide PartText, IsPart;
    ReadsThen(p, [ch], a, [], PartText(y), q, Whole(HeaderValue, x.value));
    assert [] + Whole(HeaderValue, x.value) == Whole(HeaderValue, x.value);
  }

  lemma PartsRun(p: Parser, xs: seq<Part>, folded: bool) returns (q: Parser)
    requires p.state == (if folded then SHeaderValueLws else SHeaderValueStart) && p.errno == OK
    requires Room(p, |PartsText(xs)|) && AreParts(Standing(p.headerState), xs, folded) && (xs == [] ==> folded)
    ensures Reads(p, PartsText(xs), q, ValueEvents(xs))
    ensures var m := Standing(p.headerState);
      && Became(p, q, |PartsText(xs)|, PartsFlags(p.flags, m, xs), PartsLength(m, xs, folded, p.contentLength))
      && AtBreak(q.state)
    decreases |xs|
  {
    hide Run, PartFlags, PartLength, IsPart, PartText, Standing, MeaningAfter, Reads, Whole;
    if xs == [] {
      ReadsNothing(p);
      q := p;
    } else {
      var x, rest := xs[0], xs[1..];
      var a;
      if folded { a := FoldedRun(p, x); } else { a := PartRun(p, x); }
      assert PartsText(xs) == PartText(x) + PartsText(rest);
      if rest == [] {
        q := a;
        assert PartText(x) + "" == PartText(x) && PartsText(rest) == "";
        assert ValueEvents(rest) == [] && Whole(HeaderValue, x.value) + [] == Whole(HeaderValue, x.value);
      } else {
        q := PartsRun(a, rest, true);
        ReadsThen(p, PartText(x), a, Whole(HeaderValue, x.value), PartsText(rest), q, ValueEvents(rest));
      }
    }
  }

  // ---- a whole header ----

  lemma NameMeans(name: string)
    ensures Standing(NameClass(Lowered(name))) == Meaning(Lowered(name)) && !ValueOnly(NameClass(Lowered(name)))
  {
    hide NameClass, Lowered;
    ClassMeaning(Lowered(name));
  }

  lemma NameCr(p: Parser)
    requires p.state == SHeaderField && p.errno == OK && Room(p, 1)
    ensures Steps(p, CR, p.(state := SHeaderAlmostDone, nread := p.nread + 1), [Ended(HeaderField)])
  {
    hide Switch, NameChar;
    OneFlush(HeaderField);
    NameDispatch(p.(nread := p.nread + 1), CR);
    StepsNext(p, CR, p.(state := SHeaderAlmostDone, nread := p.nread + 1), [Flush(HeaderField)]);
  }

  lemma NameLf(p: Parser)
    requires p.state == SHeaderField && p.errno == OK && Room(p, 1)
    ensures Steps(p, LF, p.(state := SHeaderFieldStart, nread := p.nread + 1), [Ended(HeaderField)])
  {
    hide Switch, NameChar;
    OneFlush(HeaderField);
    NameDispatch(p.(nread := p.nread + 1), LF);
    StepsNext(p, LF, p.(state := SHeaderFieldStart, nread := p.nread + 1), [Flush(HeaderField)]);
  }

  lemma NoLineFlags(p: Parser)
    requires !ValueOnly(p.headerState)
    ensures LineFlags(p) == p.flags
  {}

  // What stands behind the name
  lemma OpeningRun(p: Parser, o: Opening)
    requires p.state == SHeaderField && p.errno == OK && Room(p, |OpeningText(o)|) && !ValueOnly(p.headerState)
    ensures var s := if o.Colon? then SHeaderValueStart else if o.end.CrLf? then SHeaderValueLws else SHeaderFieldStart;
      Reads(p, OpeningText(o), p.(state := s, nread := p.nread + |OpeningText(o)|), [Ended(HeaderField)])
  {
    hide Run, ByteStep, LineFlags, ValueOnly;
    match o
    case Colon =>
      ColonStep(p);
      ReadsByte(p, ':', p.(state := SHeaderValueStart, nread := p.nread + 1), [Ended(HeaderField)]);
    case Broken(e) =>
      if e.CrLf? {
        var a := p.(state := SHeaderAlmostDone, nread := p.nread + 1);
        var z := p.(state := SHeaderValueLws, nread := p.nread + 2);
        NameCr(p);
        LfStep(a);
        NoLineFlags(a);
        ReadsByte(p, CR, a, [Ended(HeaderField)]);
        ReadsMore(p, [CR], a, [Ended(HeaderField)], LF, z, []);
        assert [CR] + [LF] == [CR, LF];
      } else {
        NameLf(p);
        ReadsByte(p, LF, p.(state := SHeaderFieldStart, nread := p.nread + 1), [Ended(HeaderField)]);
      }
  }

  // All that stands behind the name
  lemma BehindName(a: Parser, h: Header) returns (q: Parser)
    requires a.state == SHeaderField && a.errno == OK && !ValueOnly(a.headerState) && WellFormed(h)
    requires Standing(a.headerState) == Meaning(Lowered(h.name))
    requires Room(a, |OpeningText(h.opening) + PartsText(h.parts)|)
    ensures Reads(a, OpeningText(h.opening) + PartsText(h.parts), q, [Ended(HeaderField)] + ValueEvents(h.parts))
    ensures Became(a, q, |OpeningText(h.opening) + PartsText(h.parts)|, HeaderFlags(a.flags, h),
                   HeaderLength(h, a.contentLength)) && AtBreak(q.state)
  {
    hide Run, IsName, Lowered, Meaning, NameClass, Standing, AreParts, PartsFlags, PartsLength, PartsText, ValueEvents,
      Reads, ValueOnly;
    OpeningRun(a, h.opening);
    var s := if h.opening.Colon? then SHeaderValueStart
             else if h.opening.end.CrLf? then SHeaderValueLws
             else SHeaderFieldStart;
    var b := a.(state := s, nread := a.nread + |OpeningText(h.opening)|);
    if h.opening == Broken(BareLf) {
      q := b;
      ReadsNothing(b);
      NoParts(a, h);
    } else {
      q := PartsRun(b, h.parts, !h.opening.Colon?);
    }
    ReadsThen(a, OpeningText(h.opening), b, [Ended(HeaderField)], PartsText(h.parts), q, ValueEvents(h.parts));
  }

  /** One header, on however many lines: its name and value are handed out byte for byte, and the
      flags and the content length change exactly as the lower-cased name and the value say. */
  lemma HeaderLine(p: Parser, h: Header) returns (q: Parser)
    requires AtField(p, |Line(h)|) && WellFormed(h)
    ensures Reads(p, Line(h), q, HeaderEvent(h))
    ensures Became(p, q, |Line(h)|, HeaderFlags(p.flags, h), HeaderLength(h, p.contentLength)) && AtBreak(q.state)
  {
    hide Run, IsName, Lowered, Meaning, NameClass, Standing, AreParts, PartsFlags, PartsLength, PartsText, ValueEvents,
      Reads, ValueOnly;
    var a := NameRun(p, h.name);
    NameMeans(h.name);
    q := BehindName(a, h);
    ReadsThen(p, h.name, a, Bytes(HeaderField, h.name), OpeningText(h.opening) + PartsText(h.parts), q,
              [Ended(HeaderField)] + ValueEvents(h.parts));
    assert Bytes(HeaderField, h.name) + ([Ended(HeaderField)] + ValueEvents(h.parts)) == HeaderEvent(h);
  }

  lemma NoParts(p: Parser, h: Header)
    requires WellFormed(h) && h.parts == []
    ensures PartsText(h.parts) == "" && ValueEvents(h.parts) == []
    ensures HeaderFlags(p.flags, h) == p.flags && HeaderLength(h, p.contentLength) == p.contentLength
  {}

  // ---- a block of headers ----

  // Where a header may start, with n bytes to come
  predicate AtLine(p: Parser, n: nat) {
    AtBreak(p.state) && p.errno == OK && Room(p, n)
  }

  function Lines(hs: seq<Header>): string {
    if hs == [] then "" else Line(hs[0]) + Lines(hs[1..])
  }

  function HeaderEvents(hs: seq<Header>): seq<Event> {
    if hs == [] then [] else HeaderEvent(hs[0]) + HeaderEvents(hs[1..])
  }

  function FlagsAfter(f: Flags, hs: seq<Header>): Flags
    decreases |hs|
  {
    if hs == [] then f else FlagsAfter(HeaderFlags(f, hs[0]), hs[1..])
  }

  predicate AllWellFormed(hs: seq<Header>) { forall h | h in hs :: WellFormed(h) }

  function ContentLengthAfter(cl: nat, hs: seq<Header>): nat
    requires AllWellFormed(hs)
    decreases |hs|
  {
    if hs == [] then cl
    else
      assert hs[0] in hs && forall h | h in hs[1..] :: h in hs;
      ContentLengthAfter(HeaderLength(hs[0], cl), hs[1..])
  }

  // Behind a header anything but a continuation blank starts a new line
  lemma LwsIsLineStart(p: Parser, w: string)
    requires AtLine(p, |w|) && w != "" && w[0] != ' ' && w[0] != '\t'
    ensures Run(p, w) == Run(p.(state := SHeaderFieldStart), w)
  {
    hide Run, HeaderNameArm, Settle, Switch;
    if p.state == SHeaderValueLws {
      var q := p.(state := SHeaderFieldStart);
      LwsSettles(Counted(p), w[0]);
      assert Counted(q) == Counted(p).(state := SHeaderFieldStart);
      SameFirstByte(p, q, w);
    }
  }

  lemma LwsSettles(p: Parser, ch: char)
    requires p.state == SHeaderValueLws && ch != ' ' && ch != '\t'
    ensures Settle(p, ch) == Settle(p.(state := SHeaderFieldStart), ch)
  {
    hide HeaderNameArm, HeadersEndArm, Switch, Settle;
    ValueDispatch(p, ch);
    SettleAgain(p, p.(state := SHeaderFieldStart), ch);
  }

  lemma NameStartsLine(h: Header)
    requires WellFormed(h)
    ensures Line(h) != "" && Line(h)[0] != ' ' && Line(h)[0] != '\t'
  {
    hide AreParts, PartsText;
    assert h.name[0] in h.name && Line(h)[0] == h.name[0];
  }

  /** Any number of headers: names and values come out in order, and their effects add up. */
  lemma HeaderBlock(p: Parser, hs: seq<Header>) returns (q: Parser)
    requires AtLine(p, |Lines(hs)|) && AllWellFormed(hs)
    ensures Reads(p, Lines(hs), q, HeaderEvents(hs)) && AtBreak(q.state)
    ensures Became(p, q, |Lines(hs)|, FlagsAfter(p.flags, hs), ContentLengthAfter(p.contentLength, hs))
    decreases |hs|
  {
    hide Run, HeaderFlags, HeaderLength, HeaderEvent;
    if hs == [] {
      ReadsNothing(p);
      q := p;
    } else {
      var h := hs[0];
      assert h in hs && forall x | x in hs[1..] :: x in hs;
      var p1 := NextHeader(p, h);
      assert |Lines(hs)| == |Line(h)| + |Lines(hs[1..])|;
      hide WellFormed, Line, AtBreak;
      q := HeaderBlock(p1, hs[1..]);
      ReadsThen(p, Line(h), p1, HeaderEvent(h), Lines(hs[1..]), q, HeaderEvents(hs[1..]));
    }
  }

  // A header, wherever it may start
  lemma NextHeader(p: Parser, h: Header) returns (q: Parser)
    requires AtLine(p, |Line(h)|) && WellFormed(h)
    ensures Reads(p, Line(h), q, HeaderEvent(h))
    ensures Became(p, q, |Line(h)|, HeaderFlags(p.flags, h), HeaderLength(h, p.contentLength)) && AtBreak(q.state)
  {
    hide Run, HeaderFlags, HeaderLength, HeaderEvent;
    NameStartsLine(h);
    hide WellFormed, Line;
    LwsIsLineStart(p, Line(h));
    q := HeaderLine(p.(state := SHeaderFieldStart), h);
  }

  // trailing and skipBody are not for headers to change, and chunked is never taken back
  lemma {:induction false} PartsKept(f: Flags, m: HeaderState, xs: seq<Part>)
    ensures var g := PartsFlags(f, m, xs);
            g.trailing == f.trailing && g.skipBody == f.skipBody && (f.chunked ==> g.chunked)
    decreases |xs|
  {
    hide IsKeyword, MeaningAfter;
    if xs != [] { PartsKept(PartFlags(f, m, xs[0].value), MeaningAfter(m, xs[0].value), xs[1..]); }
  }

  lemma {:induction false} FlagsKept(f: Flags, hs: seq<Header>)
    ensures FlagsAfter(f, hs).trailing == f.trailing && FlagsAfter(f, hs).skipBody == f.skipBody
    ensures f.chunked ==> FlagsAfter(f, hs).chunked
    decreases |hs|
  {
    hide Meaning, Lowered, PartsFlags;
    if hs != [] {
      PartsKept(f, Meaning(Lowered(hs[0].name)), hs[0].parts);
      FlagsKept(HeaderFlags(f, hs[0]), hs[1..]);
    }
  }
}
