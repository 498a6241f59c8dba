/** What the first pass of `http_parser_parse_url` makes of a URL: the texts it gets through are
    exactly those of a simple outline, with the authority still in one piece. */
module HttpUrlOutline {
  import opened Wrappers
  import opened HttpTypes
  import opened HttpSwitch
  import opened HttpNumbers
  import opened HttpUrl
  import opened HttpUrlSegments

  predicate AllAre(w: string, p: char -> bool) { forall i :: 0 <= i < |w| ==> p(w[i]) }

  // ---- outlines ----

  // `marks` is the "://" behind the schema, or as much of it as there is; any number of hashes
  // may stand in front of a fragment
  datatype Outline = Outline(schema: string, marks: string, server: string, path: string, query: Option<string>,
                             hashes: nat, fragment: string)

  function Hashes(n: nat): string { seq(n, _ => '#') }

  function OrNothing(o: Option<string>): string { match o case Some(t) => t case None => "" }

  function QueryText(q: Option<string>): string { match q case Some(t) => "?" + t case None => "" }

  function TailText(o: Outline): string { o.path + (QueryText(o.query) + (Hashes(o.hashes) + o.fragment)) }

  function OutlineText(o: Outline): string { o.schema + (o.marks + (o.server + TailText(o))) }

  predicate InServer(c: char) { IsUserinfoChar(c) || c == '[' || c == ']' }

  // Characters of an authority, with no two of the sign @ side by side
  predicate IsServer(w: string) {
    && (forall i :: 0 <= i < |w| ==> InServer(w[i]) || w[i] == '@')
    && (forall i :: 0 < i < |w| ==> w[i] != '@' || w[i - 1] != '@')
  }

  predicate IsQueryChar(c: char) { IsUrlChar(c) || c == '?' }

  predicate IsFragmentChar(c: char) { IsUrlChar(c) || c == '?' || c == '#' }

  // Whether an authority may stand here
  predicate HasRoom(isConnect: bool, o: Outline) { isConnect || o.marks == "://" }

  // CONNECT starts at the authority; other URLs with their schema or with their path, a slash or
  // an asterisk. A fragment needs a path or a query before it
  predicate IsOutline(isConnect: bool, o: Outline) {
    && (if isConnect then o.schema == o.marks == "" else AllAre(o.schema, IsAlpha))
    && (o.marks == "" || (o.schema != "" && (o.marks == ":" || o.marks == ":/" || o.marks == "://")))
    && IsServer(o.server) && (o.server != "" ==> HasRoom(isConnect, o))
    && (o.path != "" ==> AllAre(o.path, IsUrlChar) && IsPathStart(isConnect, o, o.path[0]))
    && (o.query.Some? ==> AllAre(o.query.value, IsQueryChar) && (o.path != "" || HasRoom(isConnect, o)))
    && (o.hashes > 0 ==> o.path != "" || o.query.Some?)
    && (o.fragment != "" ==> AllAre(o.fragment, IsFragmentChar) && o.hashes > 0 && o.fragment[0] != '#')
  }

  predicate IsPathStart(isConnect: bool, o: Outline, c: char) {
    if HasRoom(isConnect, o) then c == '/' else o.schema == "" && (c == '/' || c == '*')
  }

  // ---- the states behind its parts ----

  predicate AtServerChars(s: State) { s == SReqServerStart || s == SReqServer || s == SReqServerWithAt }

  function BehindSchema(isConnect: bool, o: Outline): State {
    if o.schema != "" then SReqSchema else UrlStart(isConnect)
  }

  function BehindMarks(isConnect: bool, o: Outline): State {
    if |o.marks| == 0 then BehindSchema(isConnect, o)
    else if |o.marks| == 1 then SReqSchemaSlash
    else if |o.marks| == 2 then SReqSchemaSlashSlash
    else SReqServerStart
  }

  function BehindServer(isConnect: bool, o: Outline): State {
    if o.server == "" then BehindMarks(isConnect, o)
    else if o.server[|o.server| - 1] == '@' then SReqServerWithAt else SReqServer
  }

  function BehindPath(isConnect: bool, o: Outline): State {
    if o.path != "" then SReqPath else BehindServer(isConnect, o)
  }

  function BehindQuestion(isConnect: bool, o: Outline): State {
    if o.query.Some? then SReqQueryStringStart else BehindPath(isConnect, o)
  }

  function BehindQuery(isConnect: bool, o: Outline): State {
    if OrNothing(o.query) != "" then SReqQueryString else BehindQuestion(isConnect, o)
  }

  function BehindHashes(isConnect: bool, o: Outline): State {
    if o.hashes > 0 then SReqFragmentStart else BehindQuery(isConnect, o)
  }

  function LastState(isConnect: bool, o: Outline): State {
    if o.fragment != "" then SReqFragment else BehindHashes(isConnect, o)
  }

  function OutlineStates(isConnect: bool, o: Outline): seq<State> {
    [UrlStart(isConnect), BehindSchema(isConnect, o), BehindMarks(isConnect, o), BehindServer(isConnect, o),
     BehindPath(isConnect, o), BehindQuestion(isConnect, o), BehindQuery(isConnect, o), BehindHashes(isConnect, o),
     LastState(isConnect, o)]
  }

  function Front(o: Outline): seq<Segment> { [Segment(Some(Schema), o.schema), Segment(None, o.marks)] }

  function Behind(o: Outline): seq<Segment> {
    [Segment(Some(Path), o.path), Segment(None, if o.query.Some? then "?" else ""),
     Segment(Some(Query), OrNothing(o.query)), Segment(None, Hashes(o.hashes)), Segment(Some(Fragment), o.fragment)]
  }

  // As the first pass sees it
  function OutlineSegments(o: Outline): seq<Segment> { Front(o) + [Segment(Some(Host), o.server)] + Behind(o) }

  // ---- stretches of one kind ----

  lemma GoesOn(s: State, a: string, b: string, f: Option<UrlField>, t: State, r: State)
    requires Goes(s, a, f, t) && Goes(t, b, f, r)
    ensures Goes(s, a + b, f, r)
  {
    hide UrlState, FieldsUpTo;
    StateCat(s, a, b);
    TagsCat(s, a, b);
  }

  // One more byte of the same field
  lemma GoesOneMore(s: State, w: string, f: Option<UrlField>, t: State, c: char, r: State)
    requires Goes(s, w, f, t) && ParseUrlChar(t, c) == r && r != SDead && FieldOf(r) == f
    ensures Goes(s, w + [c], f, r)
  {
    Stretch(t, [c], r) by { hide ParseUrlChar; }
    hide ParseUrlChar, Goes;
    GoesOn(s, w, [c], f, t, r);
  }

  lemma ServerChars(s: State, c: char)
    requires AtServerChars(s) && InServer(c)
    ensures ParseUrlChar(s, c) == SReqServer && c != '@'
  {
    hide IsAlpha, IsNum;
    ServerCharIs(c);
  }

  lemma ServerCharIs(c: char)
    requires InServer(c)
    ensures ServerChar(c) == SReqServer && c != ' ' && c != CR && c != LF && c != '\t' && c as int != 12 && c != '@'
  {}

  function ServerState(w: string): State {
    if w == "" then SReqServerStart else if w[|w| - 1] == '@' then SReqServerWithAt else SReqServer
  }

  lemma ServerNext(v: string, c: char)
    requires IsServer(v + [c])
    ensures ParseUrlChar(ServerState(v), c) == ServerState(v + [c]) && FieldOf(ServerState(v + [c])) == Some(Host)
    ensures IsServer(v)
  {
    var w := v + [c];
    assert w[|v|] == c && forall i :: 0 <= i < |v| ==> w[i] == v[i];
    if c == '@' { AtNext(ServerState(v)); } else { ServerChars(ServerState(v), c); }
    hide InServer, ParseUrlChar;
  }

  lemma AtNext(s: State)
    requires s == SReqServerStart || s == SReqServer
    ensures ParseUrlChar(s, '@') == SReqServerWithAt
  {}

  lemma {:induction false} ServerGoes(w: string)
    requires IsServer(w) && w != ""
    ensures Goes(SReqServerStart, w, Some(Host), ServerState(w))
  {
    var v, c := w[..|w| - 1], w[|w| - 1];
    assert w == v + [c];
    ServerNext(v, c);
    hide ParseUrlChar, InServer, Goes, FieldOf;
    if v == "" { EmptyGoes(SReqServerStart, Some(Host)); } else { ServerGoes(v); }
    GoesOneMore(SReqServerStart, v, Some(Host), ServerState(v), c, ServerState(w));
  }

  lemma SchemaGoes(schema: string)
    requires schema != "" && AllAre(schema, IsAlpha)
    ensures Goes(SReqSpacesBeforeUrl, schema, Some(Schema), SReqSchema)
  {
    forall i | 0 <= i < |schema|
      ensures ParseUrlChar(SReqSpacesBeforeUrl, schema[i]) == SReqSchema
              && ParseUrlChar(SReqSchema, schema[i]) == SReqSchema
    {
      assert IsAlpha(schema[i]);
    }
    hide ParseUrlChar;
    Stretch(SReqSpacesBeforeUrl, schema, SReqSchema);
  }

  lemma TwoMarksGo()
    ensures Goes(SReqSchema, ":/", None, SReqSchemaSlashSlash)
  {
    Stretch(SReqSchema, ":", SReqSchemaSlash);
    GoesOneMore(SReqSchema, ":", None, SReqSchemaSlash, '/', SReqSchemaSlashSlash);
    assert ":" + ['/'] == ":/";
  }

  lemma ThreeMarksGo()
    ensures Goes(SReqSchema, "://", None, SReqServerStart)
  {
    TwoMarksGo();
    hide Goes;
    GoesOneMore(SReqSchema, ":/", None, SReqSchemaSlashSlash, '/', SReqServerStart);
    assert ":/" + ['/'] == "://";
  }

  lemma MarksGo(marks: string)
    requires marks == ":" || marks == ":/" || marks == "://"
    ensures Goes(SReqSchema, marks, None,
                 if |marks| == 1 then SReqSchemaSlash
                 else if |marks| == 2 then SReqSchemaSlashSlash
                 else SReqServerStart)
  {
    Stretch(SReqSchema, ":", SReqSchemaSlash);
    if |marks| > 1 { TwoMarksGo(); }
    if |marks| > 2 { ThreeMarksGo(); }
  }

  lemma UrlCharIs(c: char)
    requires IsUrlChar(c) || c == '?' || c == '#'
    ensures c != ' ' && c != CR && c != LF && c != '\t' && c as int != 12
  {}

  lemma FirstOfPath(s: State, c: char)
    requires (c == '/' && (AtServerChars(s) || s == SReqSpacesBeforeUrl)) || (c == '*' && s == SReqSpacesBeforeUrl)
    ensures ParseUrlChar(s, c) == SReqPath
  {}

  lemma RestOfPath(path: string)
    requires AllAre(path, IsUrlChar)
    ensures forall i :: 0 <= i < |path| ==> ParseUrlChar(SReqPath, path[i]) == SReqPath
  {
    forall i | 0 <= i < |path| ensures ParseUrlChar(SReqPath, path[i]) == SReqPath {
      assert IsUrlChar(path[i]);
      UrlCharIs(path[i]);
    }
  }

  lemma PathGoes(s: State, path: string)
    requires path != "" && AllAre(path, IsUrlChar)
    requires (path[0] == '/' && (AtServerChars(s) || s == SReqSpacesBeforeUrl))
             || (path[0] == '*' && s == SReqSpacesBeforeUrl)
    ensures Goes(s, path, Some(Path), SReqPath)
  {
    FirstOfPath(s, path[0]);
    RestOfPath(path);
    hide ParseUrlChar;
    Stretch(s, path, SReqPath);
  }

  lemma QueryGoes(q: string)
    requires q != "" && AllAre(q, IsQueryChar)
    ensures Goes(SReqQueryStringStart, q, Some(Query), SReqQueryString)
  {
    forall i | 0 <= i < |q|
      ensures ParseUrlChar(SReqQueryStringStart, q[i]) == SReqQueryString
              && ParseUrlChar(SReqQueryString, q[i]) == SReqQueryString
    {
      assert IsQueryChar(q[i]);
      UrlCharIs(q[i]);
    }
    hide ParseUrlChar;
    Stretch(SReqQueryStringStart, q, SReqQueryString);
  }

  lemma FragmentGoes(f: string)
    requires f != "" && AllAre(f, IsFragmentChar) && f[0] != '#'
    ensures Goes(SReqFragmentStart, f, Some(Fragment), SReqFragment)
  {
    forall i | 0 <= i < |f| ensures ParseUrlChar(SReqFragment, f[i]) == SReqFragment {
      assert IsFragmentChar(f[i]);
      UrlCharIs(f[i]);
    }
    assert IsFragmentChar(f[0]);
    UrlCharIs(f[0]);
    assert ParseUrlChar(SReqFragmentStart, f[0]) == SReqFragment;
    hide ParseUrlChar;
    Stretch(SReqFragmentStart, f, SReqFragment);
  }

  lemma HashesGo(s: State, n: nat)
    requires n > 0 && (s == SReqPath || s == SReqQueryStringStart || s == SReqQueryString)
    ensures Goes(s, Hashes(n), None, SReqFragmentStart)
  {
    Stretch(s, Hashes(n), SReqFragmentStart);
  }

  lemma MarkGoes(s: State, ch: char, t: State)
    requires s != SDead && ParseUrlChar(s, ch) == t && t != SDead && FieldOf(t) == None
    ensures Goes(s, [ch], None, t)
  {
    hide ParseUrlChar;
    Stretch(s, [ch], t);
  }

  // ---- the first pass gets through every outline ----

  lemma ChainOfEight(a: Segment, b: Segment, c: Segment, d: Segment, e: Segment, f: Segment, g: Segment, h: Segment,
                     s0: State, s1: State, s2: State, s3: State, s4: State, s5: State, s6: State, s7: State, s8: State)
    requires Goes(s0, a.text, a.field, s1) && Goes(s1, b.text, b.field, s2) && Goes(s2, c.text, c.field, s3)
    requires Goes(s3, d.text, d.field, s4) && Goes(s4, e.text, e.field, s5) && Goes(s5, f.text, f.field, s6)
    requires Goes(s6, g.text, g.field, s7) && Goes(s7, h.text, h.field, s8)
    ensures Chain([a, b, c, d, e, f, g, h], [s0, s1, s2, s3, s4, s5, s6, s7, s8])
  {
    hide Goes;
  }

  lemma FrontGoes(isConnect: bool, o: Outline)
    requires IsOutline(isConnect, o)
    ensures Goes(UrlStart(isConnect), o.schema, Some(Schema), BehindSchema(isConnect, o))
    ensures Goes(BehindSchema(isConnect, o), o.marks, None, BehindMarks(isConnect, o))
    ensures Goes(BehindMarks(isConnect, o), o.server, Some(Host), BehindServer(isConnect, o))
  {
    hide Goes, AllAre, IsServer;
    if o.schema != "" { SchemaGoes(o.schema); } else { EmptyGoes(UrlStart(isConnect), Some(Schema)); }
    if o.marks != "" { MarksGo(o.marks); } else { EmptyGoes(BehindSchema(isConnect, o), None); }
    if o.server != "" { ServerGoes(o.server); } else { EmptyGoes(BehindMarks(isConnect, o), Some(Host)); }
  }

  lemma PathThere(isConnect: bool, o: Outline)
    requires IsOutline(isConnect, o)
    ensures Goes(BehindServer(isConnect, o), o.path, Some(Path), BehindPath(isConnect, o))
  {
    hide Goes, AllAre, IsServer;
    if o.path != "" { PathGoes(BehindServer(isConnect, o), o.path); }
    else { EmptyGoes(BehindServer(isConnect, o), Some(Path)); }
  }

  lemma QueryThere(isConnect: bool, o: Outline)
    requires IsOutline(isConnect, o)
    ensures Goes(BehindPath(isConnect, o), if o.query.Some? then "?" else "", None, BehindQuestion(isConnect, o))
    ensures Goes(BehindQuestion(isConnect, o), OrNothing(o.query), Some(Query), BehindQuery(isConnect, o))
  {
    hide Goes, AllAre, IsServer;
    if o.query.Some? { MarkGoes(BehindPath(isConnect, o), '?', SReqQueryStringStart); }
    else { EmptyGoes(BehindPath(isConnect, o), None); }
    if OrNothing(o.query) != "" { QueryGoes(o.query.value); }
    else { EmptyGoes(BehindQuestion(isConnect, o), Some(Query)); }
  }

  lemma FragmentThere(isConnect: bool, o: Outline)
    requires IsOutline(isConnect, o)
    ensures Goes(BehindQuery(isConnect, o), Hashes(o.hashes), None, BehindHashes(isConnect, o))
    ensures Goes(BehindHashes(isConnect, o), o.fragment, Some(Fragment), LastState(isConnect, o))
  {
    hide Goes, AllAre, IsServer, BehindServer;
    if o.hashes > 0 {
      HashesGo(BehindQuery(isConnect, o), o.hashes);
    } else {
      BehindQueryLives(isConnect, o);
      EmptyGoes(BehindQuery(isConnect, o), None);
      assert Hashes(0) == "";
    }
    if o.fragment != "" { FragmentGoes(o.fragment); }
    else {
      BehindQueryLives(isConnect, o);
      EmptyGoes(BehindHashes(isConnect, o), Some(Fragment));
    }
  }

  lemma BehindQueryLives(isConnect: bool, o: Outline)
    ensures BehindQuery(isConnect, o) != SDead
  {}

  lemma OutlineChain(isConnect: bool, o: Outline)
    requires IsOutline(isConnect, o)
    ensures Chain(OutlineSegments(o), OutlineStates(isConnect, o))
  {
    FrontGoes(isConnect, o);
    PathThere(isConnect, o);
    QueryThere(isConnect, o);
    FragmentThere(isConnect, o);
    hide Goes, Chain, IsOutline, BehindSchema, BehindMarks, BehindServer, BehindPath, BehindQuestion, BehindQuery,
      BehindHashes, LastState, OutlineSegments, OrNothing, Hashes, UrlStart;
    SegmentsAre(o);
    ChainOfEight(Segment(Some(Schema), o.schema), Segment(None, o.marks), Segment(Some(Host), o.server),
                 Segment(Some(Path), o.path), Segment(None, if o.query.Some? then "?" else ""),
                 Segment(Some(Query), OrNothing(o.query)), Segment(None, Hashes(o.hashes)),
                 Segment(Some(Fragment), o.fragment),
                 UrlStart(isConnect), BehindSchema(isConnect, o), BehindMarks(isConnect, o), BehindServer(isConnect, o),
                 BehindPath(isConnect, o), BehindQuestion(isConnect, o), BehindQuery(isConnect, o),
                 BehindHashes(isConnect, o), LastState(isConnect, o));
  }

  lemma SegmentsAre(o: Outline)
    ensures OutlineSegments(o) ==
      [Segment(Some(Schema), o.schema), Segment(None, o.marks), Segment(Some(Host), o.server),
       Segment(Some(Path), o.path), Segment(None, if o.query.Some? then "?" else ""),
       Segment(Some(Query), OrNothing(o.query)), Segment(None, Hashes(o.hashes)), Segment(Some(Fragment), o.fragment)]
  {}

  lemma FrontText(o: Outline)
    ensures TextOf(Front(o)) == o.schema + o.marks
  {
    hide TextOf;
    var gs := Front(o);
    OneSegment(gs[1]);
    TextBefore(gs[0], [gs[1]]);
    assert [gs[0]] + [gs[1]] == gs;
  }

  lemma BehindText(o: Outline)
    ensures TextOf(Behind(o)) == TailText(o)
  {
    hide TextOf;
    var gs := Behind(o);
    OneSegment(gs[4]);
    TextBefore(gs[3], [gs[4]]);
    TextBefore(gs[2], [gs[3], gs[4]]);
    TextBefore(gs[1], [gs[2], gs[3], gs[4]]);
    TextBefore(gs[0], [gs[1], gs[2], gs[3], gs[4]]);
    assert [gs[3]] + [gs[4]] == [gs[3], gs[4]] && [gs[2]] + [gs[3], gs[4]] == [gs[2], gs[3], gs[4]];
    assert [gs[1]] + [gs[2], gs[3], gs[4]] == [gs[1], gs[2], gs[3], gs[4]];
    assert [gs[0]] + [gs[1], gs[2], gs[3], gs[4]] == gs;
    QueryInTwo(o.query, Hashes(o.hashes) + o.fragment);
  }

  lemma QueryInTwo(q: Option<string>, rest: string)
    ensures (if q.Some? then "?" else "") + (OrNothing(q) + rest) == QueryText(q) + rest
  {}

  lemma SegmentsText(o: Outline)
    ensures TextOf(OutlineSegments(o)) == OutlineText(o)
  {
    hide TextOf, Front, Behind, TailText;
    FrontText(o);
    BehindText(o);
    var host := [Segment(Some(Host), o.server)];
    SegmentsMore(Front(o) + host, Behind(o));
    SegmentsMore(Front(o), host);
    OneSegment(host[0]);
  }

  /** The first pass gets through an outline, and gives every byte to the field it stands in. */
  lemma OutlineFound(isConnect: bool, o: Outline)
    requires IsOutline(isConnect, o)
    ensures var buf := OutlineText(o);
      && UrlState(UrlStart(isConnect), buf) == LastState(isConnect, o) != SDead
      && FirstFields(isConnect, buf) == TagsOf(OutlineSegments(o))
      && TagsOf(OutlineSegments(o)) == TagsOf(Front(o)) + Copies(Some(Host), |o.server|) + TagsOf(Behind(o))
  {
    OutlineChain(isConnect, o);
    SegmentsText(o);
    ChainRun(OutlineSegments(o), OutlineStates(isConnect, o));
    LastLives(isConnect, o);
    hide UrlState, FieldsUpTo, Goes, TagsOf, TextOf, IsOutline, LastState, Front, Behind, OutlineText;
    var host := [Segment(Some(Host), o.server)];
    SegmentsMore(Front(o) + host, Behind(o));
    SegmentsMore(Front(o), host);
    OneSegment(host[0]);
  }

  lemma LastLives(isConnect: bool, o: Outline)
    ensures LastState(isConnect, o) != SDead
  {}

  /** Where the second pass finds its host field. */
  lemma HostPlace(isConnect: bool, o: Outline)
    requires IsOutline(isConnect, o)
    ensures var buf := OutlineText(o); var at := FirstFields(isConnect, buf);
      && (CallsForHost(at) <==> o.schema != "" || o.server != "")
      && HostText(at, buf) == o.server
      && (o.server != "" ==> SpanOf(at, Host) == Span(|TextOf(Front(o))|, |o.server|))
  {
    hide UrlState, FieldsUpTo, TagsOf, TextOf, SpanOf, FirstFields, IsOutline, OutlineText;
    OutlineFound(isConnect, o);
    SegmentsText(o);
    var gs := OutlineSegments(o);
    assert gs[0] == Segment(Some(Schema), o.schema) && gs[2] == Segment(Some(Host), o.server);
    SegmentAt(gs, 0, Schema);
    SegmentAt(gs, 2, Host);
    assert gs[..2] == Front(o);
    if o.schema != "" { SomeTag(gs, Schema); } else { FieldElsewhere(gs, Schema); }
    if o.server != "" { SomeTag(gs, Host); } else { FieldElsewhere(gs, Host); }
  }

  // Redividing the middle leaves both sides as they were
  lemma RehostMiddle(a: string, w: string, c: string, at: seq<Option<UrlField>>, ct: seq<Option<UrlField>>, found: bool)
    requires |at| == |a| && |ct| == |c|
    ensures var start := if found then UserinfoStart else HostStart;
      Rehosted(at + Copies(Some(Host), |w|) + ct, a + w + c, found, Span(|a|, |w|)) == at + HostTags(start, w) + ct
  {
    hide HostStateAt, HostFieldOf;
    var start := if found then UserinfoStart else HostStart;
    var buf := a + w + c;
    var r := Rehosted(at + Copies(Some(Host), |w|) + ct, buf, found, Span(|a|, |w|));
    var z := at + HostTags(start, w) + ct;
    forall j | 0 <= j < |r| ensures r[j] == z[j] {
      if |a| <= j < |a| + |w| { assert buf[|a|..j + 1] == w[..j + 1 - |a|]; }
    }
  }

  lemma OutlineInThree(o: Outline)
    ensures OutlineText(o) == (o.schema + o.marks) + o.server + TailText(o)
  {
    hide TailText;
  }

  lemma HostCalled(isConnect: bool, o: Outline)
    requires IsOutline(isConnect, o) && o.server != ""
    ensures var buf, at := OutlineText(o), FirstFields(isConnect, OutlineText(o));
      var h := Span(|o.schema + o.marks|, |o.server|);
      h.off + h.len <= |buf| && FieldsOf(isConnect, buf) == Rehosted(at, buf, '@' in o.server, h)
  {
    HostPlace(isConnect, o);
    FrontText(o);
    OutlineInThree(o);
    hide TextOf, Front, IsOutline, TailText, FirstFields, SpanOf, HostText, CallsForHost, Rehosted, OutlineText;
  }

  // What the second pass makes of an outline
  lemma HostDivided(isConnect: bool, o: Outline)
    requires IsOutline(isConnect, o) && o.server != ""
    ensures var start := if '@' in o.server then UserinfoStart else HostStart;
      FieldsOf(isConnect, OutlineText(o)) == TagsOf(Front(o)) + HostTags(start, o.server) + TagsOf(Behind(o))
  {
    HostCalled(isConnect, o);
    OutlineFound(isConnect, o);
    OutlineInThree(o);
    FrontText(o);
    BehindText(o);
    hide TextOf, TagsOf, Front, Behind, IsOutline, TailText, UrlState, FirstFields, Rehosted, HostTags, LastState,
      OutlineSegments, FieldsOf, OutlineText;
    RehostMiddle(o.schema + o.marks, o.server, TailText(o), TagsOf(Front(o)), TagsOf(Behind(o)), '@' in o.server);
  }

  // ---- and through nothing else ----

  const NOTHING: Outline := Outline("", "", "", "", None, 0, "")

  // One more byte, in the part that the state t behind it belongs to
  function Extended(o: Outline, t: State, c: char): Outline {
    match t
    case SReqSchema => o.(schema := o.schema + [c])
    case SReqSchemaSlash | SReqSchemaSlashSlash | SReqServerStart => o.(marks := o.marks + [c])
    case SReqServer | SReqServerWithAt => o.(server := o.server + [c])
    case SReqPath => o.(path := o.path + [c])
    case SReqQueryStringStart => o.(query := Some(""))
    case SReqQueryString => o.(query := Some(OrNothing(o.query) + [c]))
    case SReqFragmentStart => o.(hashes := o.hashes + 1)
    case _ => o.(fragment := o.fragment + [c])
  }

  lemma StateBytes(s: State, c: char)
    requires ParseUrlChar(s, c) != SDead
    ensures var t := ParseUrlChar(s, c);
      && (t == SReqSchema ==> IsAlpha(c) && (s == SReqSpacesBeforeUrl || s == SReqSchema))
      && (t == SReqSchemaSlash ==> c == ':' && s == SReqSchema)
      && (t == SReqSchemaSlashSlash ==> c == '/' && s == SReqSchemaSlash)
      && (t == SReqServerStart ==> c == '/' && s == SReqSchemaSlashSlash)
      && (t == SReqServer ==> InServer(c) && c != '@' && AtServerChars(s))
      && (t == SReqServerWithAt ==> c == '@' && (s == SReqServerStart || s == SReqServer))
      && (t == SReqPath ==>
            if s == SReqPath then IsUrlChar(c)
            else (c == '/' && (AtServerChars(s) || s == SReqSpacesBeforeUrl)) || (c == '*' && s == SReqSpacesBeforeUrl))
  {
    hide IsAlpha, IsUrlChar, IsNum, IsMark;
  }

  lemma TailBytes(s: State, c: char)
    requires ParseUrlChar(s, c) != SDead
    ensures var t := ParseUrlChar(s, c);
      && (t == SReqQueryStringStart ==> c == '?' && (AtServerChars(s) || s == SReqPath))
      && (t == SReqQueryString ==> IsQueryChar(c) && (s == SReqQueryStringStart || s == SReqQueryString))
      && (t == SReqFragmentStart ==>
            c == '#' && (s == SReqPath || s == SReqQueryStringStart || s == SReqQueryString || s == SReqFragmentStart))
      && (t == SReqFragment ==>
            IsFragmentChar(c) && (s == SReqFragment || (s == SReqFragmentStart && c != '#')))
      && (FieldOf(t) == None ==> t == SReqSchemaSlash || t == SReqSchemaSlashSlash || t == SReqServerStart
                                 || t == SReqQueryStringStart || t == SReqFragmentStart)
  {
    hide IsAlpha, IsUserinfoChar;
  }

  predicate NoTail(o: Outline) { o.path == "" && o.query == None && o.hashes == 0 && o.fragment == "" }

  // Nothing stands behind the part that t belongs to
  predicate EndsIn(o: Outline, t: State) {
    match t
    case SReqSchema => o.marks == o.server == "" && NoTail(o)
    case SReqSchemaSlash | SReqSchemaSlashSlash | SReqServerStart => o.server == "" && NoTail(o)
    case SReqServer | SReqServerWithAt => NoTail(o)
    case SReqPath => NoTail(o.(path := ""))
    case SReqQueryStringStart => o.query == None && o.hashes == 0 && o.fragment == ""
    case SReqQueryString => o.query.Some? && o.hashes == 0 && o.fragment == ""
    case SReqFragmentStart => o.fragment == ""
    case _ => true
  }

  predicate InTail(s: State) {
    s == SReqPath || s == SReqQueryStringStart || s == SReqQueryString || s == SReqFragmentStart || s == SReqFragment
  }

  // What the last state says about an outline
  lemma LastIs(isConnect: bool, o: Outline)
    requires IsOutline(isConnect, o)
    ensures var s := LastState(isConnect, o);
      && (s == SReqPath ==> o.path != "" && NoTail(o.(path := "")))
      && (s == SReqQueryStringStart ==> o.query == Some("") && o.hashes == 0 && o.fragment == "")
      && (s == SReqQueryString ==> OrNothing(o.query) != "" && o.hashes == 0 && o.fragment == "")
      && (s == SReqFragmentStart ==> o.hashes > 0 && o.fragment == "")
      && (s == SReqFragment ==> o.fragment != "")
      && (!InTail(s) ==> NoTail(o) && s == BehindServer(isConnect, o))
  {
    hide AllAre, IsServer;
  }

  lemma FrontIs(isConnect: bool, o: Outline)
    requires IsOutline(isConnect, o)
    ensures var s := BehindServer(isConnect, o);
      && (s == SReqSpacesBeforeUrl ==> !isConnect && o.schema == o.marks == o.server == "")
      && (s == SReqSchema ==> !isConnect && o.schema != "" && o.marks == o.server == "")
      && (s == SReqSchemaSlash ==> !isConnect && o.marks == ":" && o.server == "")
      && (s == SReqSchemaSlashSlash ==> !isConnect && o.marks == ":/" && o.server == "")
      && (s == SReqServerStart ==> HasRoom(isConnect, o) && o.server == "")
      && (s == SReqServer ==> HasRoom(isConnect, o) && o.server != "" && o.server[|o.server| - 1] != '@')
      && (s == SReqServerWithAt ==> HasRoom(isConnect, o) && o.server != "")
  {
    hide AllAre, IsServer;
  }

  lemma {:induction false} AllMore(w: string, p: char -> bool, c: char)
    requires AllAre(w, p) && p(c)
    ensures AllAre(w + [c], p)
  {}

  lemma ServerMore(w: string, c: char)
    requires IsServer(w) && (InServer(c) || (c == '@' && (w == "" || w[|w| - 1] != '@')))
    ensures IsServer(w + [c])
  {}

  lemma SchemaExtends(isConnect: bool, o: Outline, c: char)
    requires IsOutline(isConnect, o)
    requires var t := ParseUrlChar(LastState(isConnect, o), c);
      t == SReqSchema || t == SReqSchemaSlash || t == SReqSchemaSlashSlash || t == SReqServerStart
    ensures var t := ParseUrlChar(LastState(isConnect, o), c); var x := Extended(o, t, c);
      EndsIn(o, t) && IsOutline(isConnect, x) && LastState(isConnect, x) == t
  {
    var s := LastState(isConnect, o);
    StateBytes(s, c);
    LastIs(isConnect, o);
    FrontIs(isConnect, o);
    if ParseUrlChar(s, c) == SReqSchema { AllMore(o.schema, IsAlpha, c); }
    hide ParseUrlChar, AllAre, IsServer, IsAlpha, InServer;
  }

  lemma ServerExtends(isConnect: bool, o: Outline, c: char)
    requires IsOutline(isConnect, o)
    requires var t := ParseUrlChar(LastState(isConnect, o), c); t == SReqServer || t == SReqServerWithAt
    ensures var t := ParseUrlChar(LastState(isConnect, o), c); var x := Extended(o, t, c);
      EndsIn(o, t) && IsOutline(isConnect, x) && LastState(isConnect, x) == t
  {
    var s := LastState(isConnect, o);
    StateBytes(s, c);
    LastIs(isConnect, o);
    FrontIs(isConnect, o);
    ServerMore(o.server, c);
    hide ParseUrlChar, AllAre, IsServer, IsAlpha, InServer;
  }

  lemma PathExtends(isConnect: bool, o: Outline, c: char)
    requires IsOutline(isConnect, o)
    requires ParseUrlChar(LastState(isConnect, o), c) == SReqPath
    ensures var x := o.(path := o.path + [c]);
      EndsIn(o, SReqPath) && IsOutline(isConnect, x) && LastState(isConnect, x) == SReqPath
  {
    var s := LastState(isConnect, o);
    StateBytes(s, c);
    LastIs(isConnect, o);
    FrontIs(isConnect, o);
    assert IsUrlChar('/') && IsUrlChar('*');
    AllMore(o.path, IsUrlChar, c);
    hide ParseUrlChar, AllAre, IsServer, IsUrlChar;
  }

  lemma QueryExtends(isConnect: bool, o: Outline, c: char)
    requires IsOutline(isConnect, o)
    requires var t := ParseUrlChar(LastState(isConnect, o), c); t == SReqQueryStringStart || t == SReqQueryString
    ensures var t := ParseUrlChar(LastState(isConnect, o), c); var x := Extended(o, t, c);
      && IsOutline(isConnect, x) && LastState(isConnect, x) == t && EndsIn(o, t)
      && (t == SReqQueryStringStart ==> c == '?')
  {
    var s := LastState(isConnect, o);
    TailBytes(s, c);
    LastIs(isConnect, o);
    FrontIs(isConnect, o);
    if ParseUrlChar(s, c) == SReqQueryString { AllMore(o.query.value, IsQueryChar, c); }
    assert AllAre("", IsQueryChar);
    hide ParseUrlChar, AllAre, IsServer, IsQueryChar, BehindServer;
  }

  lemma FragmentExtends(isConnect: bool, o: Outline, c: char)
    requires IsOutline(isConnect, o)
    requires var t := ParseUrlChar(LastState(isConnect, o), c); t == SReqFragmentStart || t == SReqFragment
    ensures var t := ParseUrlChar(LastState(isConnect, o), c); var x := Extended(o, t, c);
      && IsOutline(isConnect, x) && LastState(isConnect, x) == t && EndsIn(o, t)
      && (t == SReqFragmentStart ==> c == '#')
  {
    var s := LastState(isConnect, o);
    TailBytes(s, c);
    LastIs(isConnect, o);
    if ParseUrlChar(s, c) == SReqFragment {
      assert AllAre("", IsFragmentChar) && "" + [c] == [c];
      AllMore(o.fragment, IsFragmentChar, c);
    }
    hide ParseUrlChar, AllAre, IsServer, IsFragmentChar, BehindServer, IsQueryChar, IsUrlChar, IsPathStart;
  }

  lemma TextExtends(isConnect: bool, o: Outline, c: char)
    requires IsOutline(isConnect, o)
    requires var s := LastState(isConnect, o); s != SDead && ParseUrlChar(s, c) != SDead
    ensures var x := Extended(o, ParseUrlChar(LastState(isConnect, o), c), c);
      && IsOutline(isConnect, x) && LastState(isConnect, x) == ParseUrlChar(LastState(isConnect, o), c)
      && OutlineText(x) == OutlineText(o) + [c]
  {
    var s := LastState(isConnect, o);
    var t := ParseUrlChar(s, c);
    UrlLives(s, c);
    hide ParseUrlChar, IsOutline, LastState;
    if t == SReqPath {
      PathExtends(isConnect, o, c);
    } else if t == SReqQueryStringStart || t == SReqQueryString {
      QueryExtends(isConnect, o, c);
    } else if InTail(t) {
      FragmentExtends(isConnect, o, c);
    } else if t == SReqServer || t == SReqServerWithAt {
      ServerExtends(isConnect, o, c);
    } else {
      SchemaExtends(isConnect, o, c);
    }
    hide EndsIn, OutlineText;
    if InTail(t) { TailMore(o, t, c); } else { FrontMore(o, t, c); }
  }

  lemma FrontGrows(o: Outline, x: Outline, c: char)
    requires TailText(o) == TailText(x) == ""
    requires (x.schema == o.schema + [c] && x.marks == o.marks == x.server == o.server == "")
          || (x.schema == o.schema && x.marks == o.marks + [c] && x.server == o.server == "")
          || (x.schema == o.schema && x.marks == o.marks && x.server == o.server + [c])
    ensures OutlineText(x) == OutlineText(o) + [c]
  {
    hide TailText;
  }

  lemma TailNothing(o: Outline)
    requires NoTail(o)
    ensures TailText(o) == ""
  {
    assert Hashes(0) == "";
  }

  lemma FrontMore(o: Outline, t: State, c: char)
    requires EndsIn(o, t)
    requires t == SReqSchema || t == SReqSchemaSlash || t == SReqSchemaSlashSlash || AtServerChars(t)
    ensures OutlineText(Extended(o, t, c)) == OutlineText(o) + [c]
  {
    TailNothing(o);
    TailNothing(Extended(o, t, c)) by { assert NoTail(Extended(o, t, c)); }
    var x := Extended(o, t, c);
    assert (x.schema == o.schema + [c] && x.marks == o.marks == x.server == o.server == "")
        || (x.schema == o.schema && x.marks == o.marks + [c] && x.server == o.server == "")
        || (x.schema == o.schema && x.marks == o.marks && x.server == o.server + [c]);
    hide Extended, EndsIn, OutlineText, TailText;
    FrontGrows(o, x, c);
  }

  lemma TailMore(o: Outline, t: State, c: char)
    requires EndsIn(o, t) && InTail(t)
    requires (t == SReqQueryStringStart ==> c == '?') && (t == SReqFragmentStart ==> c == '#')
    ensures OutlineText(Extended(o, t, c)) == OutlineText(o) + [c]
  {
    var x := Extended(o, t, c);
    TailTextMore(o, t, c);
    hide TailText, EndsIn;
    assert o.schema + (o.marks + (o.server + (TailText(o) + [c])))
        == o.schema + (o.marks + (o.server + TailText(o))) + [c];
  }

  lemma QueryMore(o: Outline, t: State, c: char)
    requires EndsIn(o, t) && (t == SReqQueryStringStart || t == SReqQueryString)
    requires t == SReqQueryStringStart ==> c == '?'
    ensures QueryText(Extended(o, t, c).query) == QueryText(o.query) + [c]
  {}

  lemma TailTextMore(o: Outline, t: State, c: char)
    requires EndsIn(o, t) && InTail(t)
    requires (t == SReqQueryStringStart ==> c == '?') && (t == SReqFragmentStart ==> c == '#')
    ensures TailText(Extended(o, t, c)) == TailText(o) + [c]
  {
    var x := Extended(o, t, c);
    assert Hashes(0) == "" && Hashes(o.hashes + 1) == Hashes(o.hashes) + ['#'];
    if t == SReqPath {
      assert x.path == o.path + [c] && TailText(o) == o.path && TailText(x) == x.path;
    } else if t == SReqQueryStringStart || t == SReqQueryString {
      QueryMore(o, t, c);
      hide Hashes, QueryText;
      assert x.path == o.path && x.hashes == o.hashes == 0 && x.fragment == o.fragment == "";
    } else if t == SReqFragmentStart {
      assert x == o.(hashes := o.hashes + 1);
      hide Hashes, QueryText;
    } else {
      assert x == o.(fragment := o.fragment + [c]);
      hide Hashes, QueryText;
    }
  }

  lemma UrlLives(s: State, c: char)
    requires ParseUrlChar(s, c) != SDead
    ensures var t := ParseUrlChar(s, c);
      t == SReqSchema || t == SReqSchemaSlash || t == SReqSchemaSlashSlash || AtServerChars(t) || InTail(t)
  {
    hide IsAlpha, IsUrlChar, IsUserinfoChar;
  }

  lemma NothingIsOutline(isConnect: bool)
    ensures IsOutline(isConnect, NOTHING) && LastState(isConnect, NOTHING) == UrlStart(isConnect)
    ensures OutlineText(NOTHING) == ""
  {}

  /** The converse: whatever the first pass gets through has an outline. */
  lemma {:induction false} OutlineOf(isConnect: bool, buf: string) returns (o: Outline)
    requires UrlState(UrlStart(isConnect), buf) != SDead
    ensures IsOutline(isConnect, o) && OutlineText(o) == buf
    ensures LastState(isConnect, o) == UrlState(UrlStart(isConnect), buf)
    decreases |buf|
  {
    hide ParseUrlChar, IsOutline, LastState, OutlineText, Extended;
    if buf == "" {
      NothingIsOutline(isConnect);
      o := NOTHING;
    } else {
      var front, c := buf[..|buf| - 1], buf[|buf| - 1];
      var x := OutlineOf(isConnect, front);
      o := Extended(x, ParseUrlChar(LastState(isConnect, x), c), c);
      TextExtends(isConnect, x, c);
    }
  }
}
