/** Splitting a URL is the inverse of composing it: `http_parser_parse_url` accepts nothing but
    composed URLs, and finds the parts each is put together from. */
module HttpUrlParts {
  import opened Wrappers
  import opened HttpTypes
  import opened HttpSwitch
  import opened HttpNumbers
  import opened HttpUrl
  import opened HttpUrlSegments
  import opened HttpUrlOutline
  import opened HttpUrlAuthority

  // ---- URLs in parts ----

  // Only the target of a CONNECT has no schema
  datatype Site = Site(schema: Option<string>, authority: Authority)

  // Any number of hashes may stand in front of a fragment
  datatype Parts = Parts(site: Option<Site>, path: string, query: Option<string>, hashes: nat, fragment: string)

  function SchemaText(p: Parts): string {
    if p.site.Some? && p.site.value.schema.Some? then p.site.value.schema.value + "://" else ""
  }

  function SiteText(p: Parts): string { if p.site.Some? then AuthorityText(p.site.value.authority) else "" }

  function Behind(p: Parts): string { p.path + (QueryText(p.query) + (Hashes(p.hashes) + p.fragment)) }

  function Compose(p: Parts): string { SchemaText(p) + (SiteText(p) + Behind(p)) }

  // A path starts with a slash, or with an asterisk if it starts the URL. A query needs a path or
  // an authority before it, a fragment a path or a query
  predicate ArePartsOfUrl(isConnect: bool, p: Parts) {
    && (isConnect ==> p.site.Some?)
    && (p.site.Some? ==> IsAuthority(p.site.value.authority) && (p.site.value.schema.None? <==> isConnect))
    && (p.site.Some? && !isConnect ==> p.site.value.schema.value != "" && AllAre(p.site.value.schema.value, IsAlpha))
    && (p.path != "" ==> (p.path[0] == '/' || (p.path[0] == '*' && p.site.None?)) && AllAre(p.path, IsUrlChar))
    && (p.query.Some? ==> AllAre(p.query.value, IsQueryChar) && (p.path != "" || p.site.Some?))
    && (p.hashes > 0 ==> p.path != "" || p.query.Some?)
    && (p.fragment != "" ==> AllAre(p.fragment, IsFragmentChar) && p.hashes > 0 && p.fragment[0] != '#')
  }

  function PartOfAuthority(a: Authority, f: UrlField): string {
    match f
    case Userinfo => OrNothing(a.userinfo)
    case Host => a.host
    case Port => OrNothing(a.port)
    case _ => ""
  }

  // What the parser is to find
  function PartOf(p: Parts, f: UrlField): string {
    match f
    case Schema => if p.site.Some? then OrNothing(p.site.value.schema) else ""
    case Path => p.path
    case Query => OrNothing(p.query)
    case Fragment => p.fragment
    case _ => if p.site.Some? then PartOfAuthority(p.site.value.authority, f) else ""
  }

  // As the first pass sees it: the authority in one piece
  function OutlineFor(p: Parts): Outline {
    Outline(PartOf(p, Schema), if SchemaText(p) != "" then "://" else "", SiteText(p), p.path, p.query, p.hashes,
            p.fragment)
  }

  lemma NothingIsFine()
    ensures IsServer("") && AllAre("", IsAlpha)
  {}

  lemma PartsOutline(isConnect: bool, p: Parts)
    requires ArePartsOfUrl(isConnect, p)
    ensures IsOutline(isConnect, OutlineFor(p)) && OutlineText(OutlineFor(p)) == Compose(p)
    ensures p.site.Some? <==> OutlineFor(p).server != ""
    ensures OutlineFor(p).schema != "" ==> p.site.Some?
    ensures TailText(OutlineFor(p)) == Behind(p)
  {
    hide AllAre, IsAuthority, IsServer, AuthorityText;
    NothingIsFine();
    if p.site.Some? {
      AuthorityIsServer(p.site.value.authority);
      HasAuthority(p.site.value.authority);
    }
  }

  // ---- both passes ----

  const NO_AUTHORITY: seq<Segment> :=
    [Segment(Some(Userinfo), ""), Segment(None, ""), Segment(None, ""), Segment(Some(Host), ""), Segment(None, ""),
     Segment(None, ""), Segment(Some(Port), "")]

  function SiteSegments(p: Parts): seq<Segment> {
    if p.site.Some? then AuthoritySegments(p.site.value.authority) else NO_AUTHORITY
  }

  // As it is found in the end
  function FinalSegments(p: Parts): seq<Segment> {
    Front(OutlineFor(p)) + SiteSegments(p) + HttpUrlOutline.Behind(OutlineFor(p))
  }

  lemma SiteSegmentsText(p: Parts)
    ensures TextOf(SiteSegments(p)) == SiteText(p)
  {
    hide TextOf, AuthorityText;
    if p.site.Some? {
      AuthorityTextIs(p.site.value.authority);
    } else {
      var n := NO_AUTHORITY;
      SevenTexts(n[0], n[1], n[2], n[3], n[4], n[5], n[6]);
    }
  }

  // An outline with its authority in segments
  lemma MiddleText(o: Outline, gs: seq<Segment>)
    ensures TextOf(gs) == o.server ==> TextOf(Front(o) + gs + HttpUrlOutline.Behind(o)) == OutlineText(o)
    ensures TagsOf(Front(o) + gs + HttpUrlOutline.Behind(o)) ==
      TagsOf(Front(o)) + TagsOf(gs) + TagsOf(HttpUrlOutline.Behind(o))
  {
    FrontText(o);
    BehindText(o);
    OutlineInThree(o);
    hide TextOf, TagsOf, Front, HttpUrlOutline.Behind, TailText, OutlineText;
    SegmentsMore(Front(o) + gs, HttpUrlOutline.Behind(o));
    SegmentsMore(Front(o), gs);
  }

  lemma FinalText(isConnect: bool, p: Parts)
    requires ArePartsOfUrl(isConnect, p)
    ensures TextOf(FinalSegments(p)) == Compose(p)
    ensures TagsOf(FinalSegments(p)) ==
      TagsOf(Front(OutlineFor(p))) + TagsOf(SiteSegments(p)) + TagsOf(HttpUrlOutline.Behind(OutlineFor(p)))
  {
    var o := OutlineFor(p);
    PartsOutline(isConnect, p);
    SiteSegmentsText(p);
    MiddleText(o, SiteSegments(p));
    hide TextOf, TagsOf, Front, HttpUrlOutline.Behind, SiteSegments, ArePartsOfUrl, SiteText, Behind, SchemaText,
      OutlineText, Compose, IsOutline;
  }

  // The second pass over the authority, in the middle of the URL
  lemma Redivided(isConnect: bool, p: Parts)
    requires ArePartsOfUrl(isConnect, p) && p.site.Some?
    ensures FieldsOf(isConnect, Compose(p)) == TagsOf(FinalSegments(p))
  {
    var o, a := OutlineFor(p), p.site.value.authority;
    PartsOutline(isConnect, p);
    HostDivided(isConnect, o);
    FinalText(isConnect, p);
    AtIsUserinfo(a);
    AuthorityRead(a);
    hide TextOf, TagsOf, Front, HttpUrlOutline.Behind, ArePartsOfUrl, IsOutline, AuthorityText, HostTags, HostAccepted,
      AuthoritySegments, FinalSegments, IsAuthority, FieldsOf, Compose, SchemaText;
  }

  lemma Undivided(isConnect: bool, p: Parts)
    requires ArePartsOfUrl(isConnect, p) && p.site.None?
    ensures FieldsOf(isConnect, Compose(p)) == TagsOf(FinalSegments(p))
  {
    var o := OutlineFor(p);
    PartsOutline(isConnect, p);
    OutlineFound(isConnect, o);
    HostPlace(isConnect, o);
    FinalText(isConnect, p);
    SiteSegmentsText(p);
    hide TextOf, TagsOf, Front, HttpUrlOutline.Behind, ArePartsOfUrl, IsOutline, FirstFields, CallsForHost, HostText,
      UrlState, Rehosted, FinalSegments, SpanOf;
    NoTags(SiteSegments(p));
    assert Copies(Some(Host), 0) == [];
  }

  /** Both passes together find every byte of a composed URL in the field it was written for. */
  lemma FinalFound(isConnect: bool, p: Parts)
    requires ArePartsOfUrl(isConnect, p)
    ensures FieldsOf(isConnect, Compose(p)) == TagsOf(FinalSegments(p))
  {
    if p.site.Some? { Redivided(isConnect, p); } else { Undivided(isConnect, p); }
  }

  lemma NoTags(gs: seq<Segment>)
    requires TextOf(gs) == ""
    ensures TagsOf(gs) == []
  {}

  function IndexOf(f: UrlField): nat {
    match f
    case Schema => 0
    case Userinfo => 2
    case Host => 5
    case Port => 8
    case Path => 9
    case Query => 11
    case Fragment => 13
  }

  lemma SiteSegmentsAre(p: Parts)
    ensures var gs := SiteSegments(p);
      && |gs| == 7 && gs[0] == Segment(Some(Userinfo), PartOf(p, Userinfo)) && gs[1].field == gs[2].field == None
      && gs[3] == Segment(Some(Host), PartOf(p, Host)) && gs[4].field == gs[5].field == None
      && gs[6] == Segment(Some(Port), PartOf(p, Port))
  {}

  lemma FinalSegmentsAre(p: Parts, f: UrlField)
    ensures var gs := FinalSegments(p); var i := IndexOf(f);
      && |gs| == 14 && gs[i] == Segment(Some(f), PartOf(p, f))
      && forall j :: 0 <= j < 14 && j != i ==> gs[j].field != Some(f)
  {
    SiteSegmentsAre(p);
    hide SiteText, SiteSegments, SchemaText;
  }

  // A field is found exactly if its part is not empty, and where it stands
  lemma PartFound(isConnect: bool, p: Parts, f: UrlField)
    requires ArePartsOfUrl(isConnect, p)
    ensures var at, buf := FieldsOf(isConnect, Compose(p)), Compose(p);
      && Slice(buf, SpanOf(at, f)) == PartOf(p, f) && (Some(f) in at <==> PartOf(p, f) != "")
  {
    hide FieldsOf, TagsOf, TextOf, SpanOf, Compose, FinalSegments, PartOf, ArePartsOfUrl;
    var gs := FinalSegments(p);
    FinalFound(isConnect, p);
    FinalText(isConnect, p);
    FinalSegmentsAre(p, f);
    SegmentAt(gs, IndexOf(f), f);
    if PartOf(p, f) != "" { SomeTag(gs, f); } else { FieldElsewhere(gs, f); }
  }

  /** The round trip: whatever URL is composed, the fields found are its parts, each of them whole,
      and a field is set exactly if its part is not empty. */
  lemma PartsRecovered(isConnect: bool, p: Parts, u: Url)
    requires ArePartsOfUrl(isConnect, p) && Tiles(FieldsOf(isConnect, Compose(p)), u)
    ensures AllFields(u.data)
    ensures forall f: UrlField ::
      && u.data[f].off + u.data[f].len <= |Compose(p)| && Slice(Compose(p), u.data[f]) == PartOf(p, f)
      && (f in u.fields <==> PartOf(p, f) != "")
  {
    hide FieldsOf, SpanOf, Compose, PartOf, Tiles, ArePartsOfUrl;
    TilesExactly(FieldsOf(isConnect, Compose(p)), u);
    TilesFields(FieldsOf(isConnect, Compose(p)), u);
    forall f: UrlField
      ensures u.data[f].off + u.data[f].len <= |Compose(p)| && Slice(Compose(p), u.data[f]) == PartOf(p, f)
           && (f in u.fields <==> PartOf(p, f) != "")
    {
      PartFound(isConnect, p, f);
    }
  }

  // ---- acceptance ----

  function PortOf(p: Parts): Option<string> { if p.site.Some? then p.site.value.authority.port else None }

  // What strtoul reads where the port stands: on into the memory behind the URL only if nothing
  // stands behind the port
  function PortRead(p: Parts, beyond: string): string {
    PartOf(p, Port) + if Behind(p) == "" then LeadingDigits(beyond) else ""
  }

  lemma PortReadDigits(isConnect: bool, p: Parts, beyond: string)
    requires ArePartsOfUrl(isConnect, p)
    ensures forall c | c in PortRead(p, beyond) :: IsNum(c)
    ensures PortOf(p).Some? ==> LeadingDigits(OrNothing(PortOf(p)) + (Behind(p) + beyond)) == PortRead(p, beyond)
  {
    hide Behind, IsNum;
    if PortOf(p).Some? {
      var d := PortOf(p).value;
      assert forall c | c in d :: IsNum(c);
      DigitsThenAll(d, Behind(p) + beyond);
      if Behind(p) == "" {
        assert Behind(p) + beyond == beyond;
      } else {
        BehindIsNoDigit(isConnect, p);
        assert (Behind(p) + beyond)[0] == Behind(p)[0];
      }
    } else {
      assert PartOf(p, Port) == "";
    }
  }

  lemma BehindIsNoDigit(isConnect: bool, p: Parts)
    requires ArePartsOfUrl(isConnect, p) && p.site.Some? && Behind(p) != ""
    ensures !IsNum(Behind(p)[0])
  {
    hide IsAuthority, AllAre;
    assert Hashes(0) == "";
  }

  /** What makes a composed URL acceptable: a port that fits into 16 bits, with any digits that stand
      in memory right behind it; and for CONNECT a port, and nothing but host and port. */
  predicate Admissible(isConnect: bool, p: Parts, beyond: string)
    requires ArePartsOfUrl(isConnect, p)
  {
    PortReadDigits(isConnect, p, beyond);
    && (PortOf(p).Some? ==> Decimal(PortRead(p, beyond)) <= 0xffff)
    && (isConnect ==>
          && PortOf(p).Some? && PartOf(p, Userinfo) == "" && p.path == "" && PartOf(p, Query) == ""
          && p.fragment == "")
  }

  lemma SegmentPlace(gs: seq<Segment>, i: nat, f: UrlField)
    requires i < |gs| && gs[i].field == Some(f) && gs[i].text != ""
    requires forall j :: 0 <= j < |gs| && j != i ==> gs[j].field != Some(f)
    ensures Some(f) in TagsOf(gs) && TextOf(gs)[SpanOf(TagsOf(gs), f).off..] == gs[i].text + TextOf(gs[i + 1..])
  {
    hide TagsOf, TextOf, SpanOf;
    SegmentAt(gs, i, f);
    SomeTag(gs, f);
    var x, y := gs[..i], gs[i + 1..];
    assert gs == (x + [gs[i]]) + y;
    SegmentsMore(x + [gs[i]], y);
    SegmentsMore(x, [gs[i]]);
    OneSegment(gs[i]);
    TwoBehind(TextOf(x), gs[i].text, TextOf(y));
  }

  // Where the port of a composed URL starts, and what is read from there
  lemma PortPlace(isConnect: bool, p: Parts)
    requires ArePartsOfUrl(isConnect, p) && PortOf(p).Some?
    ensures var at := FieldsOf(isConnect, Compose(p));
      Some(Port) in at && Compose(p)[SpanOf(at, Port).off..] == PortOf(p).value + Behind(p)
  {
    var gs := FinalSegments(p);
    FinalFound(isConnect, p);
    FinalText(isConnect, p);
    FinalSegmentsAre(p, Port);
    PartsOutline(isConnect, p);
    BehindText(OutlineFor(p));
    BehindPort(p);
    HasPort(isConnect, p);
    hide FieldsOf, TagsOf, TextOf, SpanOf, Compose, FinalSegments, ArePartsOfUrl, Behind, OutlineFor, TailText, PartOf;
    SegmentPlace(gs, 8, Port);
  }

  lemma HasPort(isConnect: bool, p: Parts)
    requires ArePartsOfUrl(isConnect, p) && PortOf(p).Some?
    ensures PartOf(p, Port) == PortOf(p).value != ""
  {}

  lemma BehindPort(p: Parts)
    ensures |FinalSegments(p)| == 14 && FinalSegments(p)[9..] == HttpUrlOutline.Behind(OutlineFor(p))
  {
    SiteSegmentsAre(p);
    hide SiteSegments, SiteText, SchemaText;
  }

  lemma TwoBehind(a: string, b: string, c: string)
    ensures (a + b + c)[|a|..] == b + c
  {}

  lemma HostRight(isConnect: bool, p: Parts)
    requires ArePartsOfUrl(isConnect, p)
    ensures var first := FirstFields(isConnect, Compose(p));
      && UrlState(UrlStart(isConnect), Compose(p)) != SDead
      && (CallsForHost(first) ==> var text := HostText(first, Compose(p)); HostAccepted('@' in text, text))
  {
    var o := OutlineFor(p);
    PartsOutline(isConnect, p);
    OutlineFound(isConnect, o);
    HostPlace(isConnect, o);
    if p.site.Some? {
      AtIsUserinfo(p.site.value.authority);
      AuthorityRead(p.site.value.authority);
    }
  }

  /** A composed URL is accepted exactly if it is admissible. */
  lemma ComposedAccepted(isConnect: bool, p: Parts, beyond: string)
    requires ArePartsOfUrl(isConnect, p)
    ensures Accepts(isConnect, Compose(p), beyond) <==> Admissible(isConnect, p, beyond)
  {
    hide FieldsOf, SpanOf, Compose, UrlState, FirstFields, CallsForHost, HostText, HostAccepted, Behind, AllAre,
      Decimal, LeadingDigits, ArePartsOfUrl;
    HostRight(isConnect, p);
    forall f: UrlField ensures Some(f) in FieldsOf(isConnect, Compose(p)) <==> PartOf(p, f) != "" {
      PartFound(isConnect, p, f);
    }
    OnlyHostAndPort(isConnect, p);
    PortReadDigits(isConnect, p, beyond);
    if PortOf(p).Some? {
      var d := PortOf(p).value;
      HasPort(isConnect, p);
      PortPlace(isConnect, p);
      assert (d + Behind(p)) + beyond == d + (Behind(p) + beyond);
    } else {
      assert PartOf(p, Port) == "";
    }
  }

  lemma OnlyHostAndPort(isConnect: bool, p: Parts)
    requires ArePartsOfUrl(isConnect, p)
    ensures isConnect ==>
      ((forall f: UrlField :: PartOf(p, f) != "" <==> f == Host || f == Port)
       <==> PortOf(p).Some? && PartOf(p, Userinfo) == "" && p.path == "" && PartOf(p, Query) == "" && p.fragment == "")
  {
    hide AllAre;
    assert PartOf(p, Path) == p.path && PartOf(p, Fragment) == p.fragment;
    assert PartOf(p, Port) == OrNothing(PortOf(p));
    if isConnect { assert PartOf(p, Schema) == "" && PartOf(p, Host) != ""; }
  }

  // ---- nothing else is accepted ----

  lemma NobodyThere()
    ensures !HostAccepted('@' in "", "")
  {}

  lemma AcceptedServer(isConnect: bool, o: Outline, beyond: string)
    requires IsOutline(isConnect, o) && Accepts(isConnect, OutlineText(o), beyond)
    ensures o.server != "" ==> HostAccepted('@' in o.server, o.server)
    ensures o.server == "" ==> o.schema == "" && !isConnect
  {
    HostPlace(isConnect, o);
    NobodyThere();
    hide OutlineText, IsOutline, HostAccepted, FirstFields, HostText, UrlState, SpanOf, Rehosted;
    if o.server == "" && o.schema == "" {
      assert Some(Host) !in FieldsOf(isConnect, OutlineText(o));
    }
  }

  lemma OutlineParts(isConnect: bool, o: Outline, a: Authority) returns (p: Parts)
    requires IsOutline(isConnect, o)
    requires if o.server == "" then o.schema == "" && !isConnect else IsAuthority(a) && AuthorityText(a) == o.server
    ensures ArePartsOfUrl(isConnect, p) && Compose(p) == OutlineText(o)
  {
    hide AllAre, IsServer, AuthorityText, IsAuthority;
    var site := if o.server == "" then None else Some(Site(if isConnect then None else Some(o.schema), a));
    p := Parts(site, o.path, o.query, o.hashes, o.fragment);
  }

  /** The converse: every URL that is accepted is a composed one. */
  lemma PartsOfAccepted(isConnect: bool, buf: string, beyond: string) returns (p: Parts)
    requires Accepts(isConnect, buf, beyond)
    ensures ArePartsOfUrl(isConnect, p) && Compose(p) == buf && Admissible(isConnect, p, beyond)
  {
    hide IsOutline, OutlineText, HostAccepted, ArePartsOfUrl, Compose, Admissible, IsAuthority, AuthorityText,
      LastState;
    var o := OutlineOf(isConnect, buf);
    AcceptedServer(isConnect, o, beyond);
    hide Accepts;
    var a := Authority(None, "", false, None);
    if o.server != "" { a := AuthorityOf('@' in o.server, o.server); }
    p := OutlineParts(isConnect, o, a);
    ComposedAccepted(isConnect, p, beyond);
  }

  /** The grammar of what http_parser_parse_url accepts. */
  lemma AcceptedExactly(isConnect: bool, buf: string, beyond: string)
    ensures Accepts(isConnect, buf, beyond) <==>
      exists p :: ArePartsOfUrl(isConnect, p) && Compose(p) == buf && Admissible(isConnect, p, beyond)
  {
    hide Accepts, ArePartsOfUrl, Compose, Admissible;
    if Accepts(isConnect, buf, beyond) {
      var p := PartsOfAccepted(isConnect, buf, beyond);
    }
    forall p | ArePartsOfUrl(isConnect, p) && Compose(p) == buf && Admissible(isConnect, p, beyond)
      ensures Accepts(isConnect, buf, beyond)
    {
      ComposedAccepted(isConnect, p, beyond);
    }
  }

  // ---- calls ----

  /** A call with any composed URL: it fails exactly if the URL is not admissible, and otherwise
      gives back its parts and the value of its port. */
  method SplitComposed(isConnect: bool, p: Parts, beyond: string) returns (failed: bool, u: Url)
    requires ArePartsOfUrl(isConnect, p) && |Compose(p)| <= 0xffff
    ensures failed <==> !Admissible(isConnect, p, beyond)
    ensures !failed ==> AllFields(u.data) && forall f: UrlField ::
      && u.data[f].off + u.data[f].len <= |Compose(p)| && Slice(Compose(p), u.data[f]) == PartOf(p, f)
      && (f in u.fields <==> PartOf(p, f) != "")
    ensures forall c | c in PortRead(p, beyond) :: IsNum(c)
    ensures !failed ==> u.port == if PortOf(p).Some? then Decimal(PortRead(p, beyond)) else 0
  {
    hide ArePartsOfUrl, Accepts, Admissible, Tiles, FieldsOf, SplitsUrl, SpanOf, PartOf, Decimal, LeadingDigits, Behind;
    failed, u := ParseUrl(Compose(p), isConnect, Url.Url({}, 0, NO_SPANS), beyond);
    ghost var at := FieldsOf(isConnect, Compose(p));
    ComposedAccepted(isConnect, p, beyond);
    PortReadDigits(isConnect, p, beyond);
    if !failed {
      PartsRecovered(isConnect, p, u);
      PortValue(isConnect, p, u, beyond);
    }
  }

  lemma PortValue(isConnect: bool, p: Parts, u: Url, beyond: string)
    requires ArePartsOfUrl(isConnect, p) && Tiles(FieldsOf(isConnect, Compose(p)), u) && AllFields(u.data)
    ensures Port in u.fields <==> PortOf(p).Some?
    ensures u.data[Port].off <= |Compose(p)|
    ensures PortOf(p).Some? ==> LeadingDigits(Compose(p)[u.data[Port].off..] + beyond) == PortRead(p, beyond)
  {
    hide FieldsOf, SpanOf, Compose, Tiles, Behind, LeadingDigits, PortRead;
    PartsRecovered(isConnect, p, u);
    TilesExactly(FieldsOf(isConnect, Compose(p)), u);
    PortReadDigits(isConnect, p, beyond);
    if PortOf(p).Some? {
      HasPort(isConnect, p);
      PortPlace(isConnect, p);
      assert (PortOf(p).value + Behind(p)) + beyond == PortOf(p).value + (Behind(p) + beyond);
    }
  }

  lemma TwoDigits(c: char, d: char)
    requires IsNum(c) && IsNum(d)
    ensures (forall x | x in [c] + [d] :: IsNum(x)) && Decimal([c] + [d]) == 10 * Digit(c) + Digit(d)
  {
    assert "" + [c] == [c];
    NoDigits();
    DecimalStep("", c);
    DecimalStep([c], d);
  }

  lemma OneLeadingDigit(d: char, behind: string)
    requires IsNum(d) && (behind == "" || !IsNum(behind[0]))
    ensures LeadingDigits([d] + behind) == [d]
  {
    assert ([d] + behind)[1..] == behind;
    assert [d] + "" == [d];
  }

  /** What becomes of a port at the end of a URL: one digit there and one in the memory behind it are
      read as a port of two digits. */
  method PortReadsOn(schema: string, a: Authority, digit: char, next: char, behind: string) returns (u: Url)
    requires schema != "" && AllAre(schema, IsAlpha) && IsAuthority(a) && a.port == Some([digit])
    requires IsNum(next) && (behind == "" || !IsNum(behind[0])) && |schema + ("://" + AuthorityText(a))| <= 0xffff
    ensures IsNum(digit) && u.port == 10 * Digit(digit) + Digit(next)
    ensures AllFields(u.data) && u.data[Port].off + u.data[Port].len <= |schema + ("://" + AuthorityText(a))|
    ensures Slice(schema + ("://" + AuthorityText(a)), u.data[Port]) == [digit]
  {
    hide Decimal, LeadingDigits, AuthorityText;
    var p := Parts(Some(Site(Some(schema), a)), "", None, 0, "");
    assert Hashes(0) == "" && Behind(p) == "";
    assert Compose(p) == schema + ("://" + AuthorityText(a));
    assert IsNum(digit) by { assert IsNum(a.port.value[0]); }
    OneLeadingDigit(next, behind);
    TwoDigits(digit, next);
    var failed;
    failed, u := SplitComposed(false, p, [next] + behind);
  }

  /** http://h:8 in front of a byte 0 has port 80. */
  method PortEighty() returns (u: Url)
    ensures AllFields(u.data) && u.data[Port].off + u.data[Port].len <= 10
    ensures u.port == 80 && Slice("http://h:8", u.data[Port]) == "8"
  {
    var a := Authority(None, "h", false, Some("8"));
    assert AuthorityText(a) == "h:8" && "http" + ("://" + "h:8") == "http://h:8";
    u := PortReadsOn("http", a, '8', '0', "");
  }
}
