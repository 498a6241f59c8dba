/** Texts in stretches, each of which belongs to one field or to none: how the two passes of
    `http_parser_parse_url` go through them. */
module HttpUrlSegments {
  import opened Wrappers
  import opened HttpTypes
  import opened HttpSwitch
  import opened HttpNumbers
  import opened HttpUrl

  // ---- stretches of text that belong to one field ----

  datatype Segment = Segment(field: Option<UrlField>, text: string)

  function TextOf(gs: seq<Segment>): string {
    if gs == [] then "" else gs[0].text + TextOf(gs[1..])
  }

  function Copies(f: Option<UrlField>, n: nat): seq<Option<UrlField>> { seq(n, _ => f) }

  function TagsOf(gs: seq<Segment>): (at: seq<Option<UrlField>>)
    ensures |at| == |TextOf(gs)|
  {
    if gs == [] then [] else Copies(gs[0].field, |gs[0].text|) + TagsOf(gs[1..])
  }

  lemma Regrouped<T>(x: seq<T>, y: seq<T>, z: seq<T>)
    ensures x + (y + z) == x + y + z
  {}

  lemma {:induction false} SegmentsMore(a: seq<Segment>, b: seq<Segment>)
    ensures TextOf(a + b) == TextOf(a) + TextOf(b) && TagsOf(a + b) == TagsOf(a) + TagsOf(b)
  {
    if a == [] {
      assert a + b == b;
    } else {
      var rest := a[1..];
      assert (a + b)[1..] == rest + b && (a + b)[0] == a[0];
      SegmentsMore(rest, b);
      Regrouped(a[0].text, TextOf(rest), TextOf(b));
      Regrouped(Copies(a[0].field, |a[0].text|), TagsOf(rest), TagsOf(b));
    }
  }

  lemma {:induction false} FieldElsewhere(gs: seq<Segment>, f: UrlField)
    requires forall i :: 0 <= i < |gs| && gs[i].field == Some(f) ==> gs[i].text == ""
    ensures Some(f) !in TagsOf(gs)
  {
    if gs != [] { FieldElsewhere(gs[1..], f); }
  }

  lemma {:induction false} SpanOfNone(at: seq<Option<UrlField>>, f: UrlField)
    requires Some(f) !in at
    ensures SpanOf(at, f) == Span(0, 0)
  {
    if at != [] {
      assert at[|at| - 1] in at && forall x | x in at[..|at| - 1] :: x in at;
      SpanOfNone(at[..|at| - 1], f);
    }
  }

  lemma {:induction false} SpanThenOthers(at: seq<Option<UrlField>>, z: seq<Option<UrlField>>, f: UrlField)
    requires Some(f) !in z
    ensures SpanOf(at + z, f) == SpanOf(at, f)
    decreases |z|
  {
    if z == [] {
      assert at + z == at;
    } else {
      var n := |z| - 1;
      assert z[n] in z && forall x | x in z[..n] :: x in z;
      assert (at + z)[..|at + z| - 1] == at + z[..n];
      SpanThenOthers(at, z[..n], f);
    }
  }

  lemma {:induction false} SpanOfCopies(at: seq<Option<UrlField>>, f: UrlField, n: nat)
    requires Some(f) !in at
    ensures SpanOf(at + Copies(Some(f), n), f) == if n == 0 then Span(0, 0) else Span(|at|, n)
  {
    if n == 0 {
      assert at + Copies(Some(f), 0) == at;
      SpanOfNone(at, f);
    } else {
      var w := at + Copies(Some(f), n);
      assert w[..|w| - 1] == at + Copies(Some(f), n - 1);
      SpanOfCopies(at, f, n - 1);
    }
  }

  // A field with one stretch is found there
  lemma SegmentFound(x: seq<Segment>, g: Segment, y: seq<Segment>, f: UrlField)
    requires g.field == Some(f)
    requires forall i :: 0 <= i < |x| ==> x[i].field != Some(f)
    requires forall i :: 0 <= i < |y| ==> y[i].field != Some(f)
    ensures var gs := x + [g] + y; var s := SpanOf(TagsOf(gs), f);
      s == (if g.text == "" then Span(0, 0) else Span(|TextOf(x)|, |g.text|)) && Slice(TextOf(gs), s) == g.text
  {
    var gs := x + [g] + y;
    SegmentsMore(x + [g], y);
    SegmentsMore(x, [g]);
    OneSegment(g);
    hide TextOf, TagsOf, SpanOf;
    FieldElsewhere(x, f);
    FieldElsewhere(y, f);
    SpanOfCopies(TagsOf(x), f, |g.text|);
    SpanThenOthers(TagsOf(x) + Copies(Some(f), |g.text|), TagsOf(y), f);
    assert TagsOf(gs) == TagsOf(x) + Copies(Some(f), |g.text|) + TagsOf(y);
    SliceBetween(TextOf(x), g.text, TextOf(y));
  }

  lemma OneSegment(g: Segment)
    ensures TextOf([g]) == g.text && TagsOf([g]) == Copies(g.field, |g.text|)
  {
    assert [g][1..] == [];
    assert g.text + "" == g.text && Copies(g.field, |g.text|) + [] == Copies(g.field, |g.text|);
  }

  lemma SliceBetween(a: string, b: string, c: string)
    ensures (a + b + c)[|a|..|a| + |b|] == b
  {}

  lemma SegmentAt(gs: seq<Segment>, i: nat, f: UrlField)
    requires i < |gs| && gs[i].field == Some(f) && forall j :: 0 <= j < |gs| && j != i ==> gs[j].field != Some(f)
    ensures var s := SpanOf(TagsOf(gs), f);
      && s == (if gs[i].text == "" then Span(0, 0) else Span(|TextOf(gs[..i])|, |gs[i].text|))
      && Slice(TextOf(gs), s) == gs[i].text
  {
    var x, y := gs[..i], gs[i + 1..];
    assert gs == x + [gs[i]] + y;
    SegmentFound(x, gs[i], y, f);
  }

  // ---- the first pass, stretch by stretch ----

  lemma {:induction false} StateCat(s: State, a: string, b: string)
    ensures UrlState(s, a + b) == UrlState(UrlState(s, a), b)
    decreases |b|
  {
    hide ParseUrlChar;
    if b == "" {
      assert a + b == a;
    } else {
      var n := |b| - 1;
      assert (a + b)[..|a + b| - 1] == a + b[..n] && (a + b)[|a + b| - 1] == b[n];
      StateCat(s, a, b[..n]);
    }
  }

  // All of w belongs to f, and takes the first pass from s to t
  predicate Goes(s: State, w: string, f: Option<UrlField>, t: State) {
    UrlState(s, w) == t && t != SDead && FieldsUpTo(s, w, |w|) == Copies(f, |w|)
  }

  lemma TagsCat(s: State, a: string, b: string)
    ensures FieldsUpTo(s, a + b, |a + b|) == FieldsUpTo(s, a, |a|) + FieldsUpTo(UrlState(s, a), b, |b|)
  {
    hide UrlState, FieldOf;
    forall j | 0 <= j < |a + b|
      ensures FieldAt(s, a + b, j) == if j < |a| then FieldAt(s, a, j) else FieldAt(UrlState(s, a), b, j - |a|)
    {
      if j < |a| {
        assert (a + b)[..j + 1] == a[..j + 1];
      } else {
        assert (a + b)[..j + 1] == a + b[..j + 1 - |a|];
        StateCat(s, a, b[..j + 1 - |a|]);
      }
    }
  }

  predicate Chain(gs: seq<Segment>, ss: seq<State>) {
    |ss| == |gs| + 1 && forall i :: 0 <= i < |gs| ==> Goes(ss[i], gs[i].text, gs[i].field, ss[i + 1])
  }

  lemma {:induction false} ChainRun(gs: seq<Segment>, ss: seq<State>)
    requires Chain(gs, ss)
    ensures UrlState(ss[0], TextOf(gs)) == ss[|gs|] && FieldsUpTo(ss[0], TextOf(gs), |TextOf(gs)|) == TagsOf(gs)
    decreases |gs|
  {
    hide UrlState, FieldsUpTo;
    if gs == [] {
      NothingGoes(ss[0]);
    } else {
      assert Goes(ss[0], gs[0].text, gs[0].field, ss[1]);
      forall i | 0 <= i < |gs| - 1 ensures Goes(ss[1..][i], gs[1..][i].text, gs[1..][i].field, ss[1..][i + 1]) {
        assert Goes(ss[i + 1], gs[i + 1].text, gs[i + 1].field, ss[i + 2]);
      }
      ChainRun(gs[1..], ss[1..]);
      StateCat(ss[0], gs[0].text, TextOf(gs[1..]));
      TagsCat(ss[0], gs[0].text, TextOf(gs[1..]));
    }
  }

  lemma NothingGoes(s: State)
    ensures UrlState(s, "") == s && FieldsUpTo(s, "", 0) == []
  {}

  lemma EmptyGoes(s: State, f: Option<UrlField>)
    requires s != SDead
    ensures Goes(s, "", f, s)
  {}

  // The first character leads into a state in which the others stay
  lemma {:induction false} Stretch(s: State, w: string, t: State)
    requires w != "" && s != SDead && t != SDead && ParseUrlChar(s, w[0]) == t
    requires forall i :: 1 <= i < |w| ==> ParseUrlChar(t, w[i]) == t
    ensures Goes(s, w, FieldOf(t), t)
    decreases |w|
  {
    hide ParseUrlChar, FieldOf;
    var n := |w| - 1;
    StateMore(s, w, n);
    assert w[..n + 1] == w;
    if n == 0 {
      assert w[..0] == "" && UrlState(s, "") == s;
      assert FieldsUpTo(s, w, 0) == [];
    } else {
      var v := w[..n];
      Stretch(s, v, t);
      PrefixTags(s, w, n);
    }
  }

  lemma PrefixTags(s: State, w: string, n: nat)
    requires n <= |w|
    ensures FieldsUpTo(s, w, n) == FieldsUpTo(s, w[..n], n)
  {
    forall j | 0 <= j < n ensures FieldAt(s, w, j) == FieldAt(s, w[..n], j) {
      assert w[..n][..j + 1] == w[..j + 1];
    }
  }

  // ---- the second pass, likewise ----

  function HostTags(s: HostState, w: string): seq<Option<UrlField>> {
    seq(|w|, j requires 0 <= j < |w| => HostFieldOf(HostStateAt(s, w[..j + 1])))
  }

  predicate HostGoes(s: HostState, w: string, f: Option<UrlField>, t: HostState) {
    HostStateAt(s, w) == t && t != HostDead && HostTags(s, w) == Copies(f, |w|)
  }

  lemma {:induction false} HostCat(s: HostState, a: string, b: string)
    ensures HostStateAt(s, a + b) == HostStateAt(HostStateAt(s, a), b)
    decreases |b|
  {
    hide ParseHostChar;
    if b == "" {
      assert a + b == a;
    } else {
      var n := |b| - 1;
      assert (a + b)[..|a + b| - 1] == a + b[..n] && (a + b)[|a + b| - 1] == b[n];
      HostCat(s, a, b[..n]);
    }
  }

  lemma HostTagsCat(s: HostState, a: string, b: string)
    ensures HostTags(s, a + b) == HostTags(s, a) + HostTags(HostStateAt(s, a), b)
  {
    hide HostStateAt, HostFieldOf;
    forall j | 0 <= j < |a + b|
      ensures HostTags(s, a + b)[j] == if j < |a| then HostTags(s, a)[j] else HostTags(HostStateAt(s, a), b)[j - |a|]
    {
      if j < |a| {
        assert (a + b)[..j + 1] == a[..j + 1];
      } else {
        assert (a + b)[..j + 1] == a + b[..j + 1 - |a|];
        HostCat(s, a, b[..j + 1 - |a|]);
      }
    }
  }

  predicate HostChain(gs: seq<Segment>, ss: seq<HostState>) {
    |ss| == |gs| + 1 && forall i :: 0 <= i < |gs| ==> HostGoes(ss[i], gs[i].text, gs[i].field, ss[i + 1])
  }

  lemma {:induction false} HostChainRun(gs: seq<Segment>, ss: seq<HostState>)
    requires HostChain(gs, ss)
    ensures HostStateAt(ss[0], TextOf(gs)) == ss[|gs|] && HostTags(ss[0], TextOf(gs)) == TagsOf(gs)
    decreases |gs|
  {
    hide HostStateAt, HostTags;
    if gs == [] {
      NothingHosted(ss[0]);
    } else {
      assert HostGoes(ss[0], gs[0].text, gs[0].field, ss[1]);
      forall i | 0 <= i < |gs| - 1 ensures HostGoes(ss[1..][i], gs[1..][i].text, gs[1..][i].field, ss[1..][i + 1]) {
        assert HostGoes(ss[i + 1], gs[i + 1].text, gs[i + 1].field, ss[i + 2]);
      }
      HostChainRun(gs[1..], ss[1..]);
      HostCat(ss[0], gs[0].text, TextOf(gs[1..]));
      HostTagsCat(ss[0], gs[0].text, TextOf(gs[1..]));
    }
  }

  lemma NothingHosted(s: HostState)
    ensures HostStateAt(s, "") == s && HostTags(s, "") == []
  {}

  lemma EmptyHosted(s: HostState, f: Option<UrlField>)
    requires s != HostDead
    ensures HostGoes(s, "", f, s)
  {}

  lemma {:induction false} HostStretch(s: HostState, w: string, t: HostState)
    requires w != "" && s != HostDead && t != HostDead && ParseHostChar(s, w[0]) == t
    requires forall i :: 1 <= i < |w| ==> ParseHostChar(t, w[i]) == t
    ensures HostGoes(s, w, HostFieldOf(t), t)
    decreases |w|
  {
    hide ParseHostChar, HostFieldOf;
    var n := |w| - 1;
    var v := w[..n];
    assert v + [w[n]] == w && [w[n]][..0] == "";
    HostTagsCat(s, v, [w[n]]);
    HostCat(s, v, [w[n]]);
    if n == 0 {
      assert v == "" && HostTags(s, "") == [];
    } else {
      HostStretch(s, v, t);
    }
    OneHosted(t, w[n]);
    OneHosted(s, w[n]);
  }

  lemma OneHosted(s: HostState, ch: char)
    requires s != HostDead
    ensures HostStateAt(s, [ch]) == ParseHostChar(s, ch) && HostTags(s, [ch]) == [HostFieldOf(ParseHostChar(s, ch))]
  {
    hide ParseHostChar, HostFieldOf;
    assert [ch][..0] == "" && [ch][..1] == [ch];
  }

  lemma TextBefore(g: Segment, gs: seq<Segment>)
    ensures TextOf([g] + gs) == g.text + TextOf(gs)
  {
    assert ([g] + gs)[1..] == gs;
  }

  lemma SomeTag(gs: seq<Segment>, f: UrlField)
    requires SpanOf(TagsOf(gs), f).len > 0
    ensures Some(f) in TagsOf(gs)
  {
    if Some(f) !in TagsOf(gs) { SpanOfNone(TagsOf(gs), f); }
  }
}
