/** `http_parser_parse_url`: the two passes that split a URL into fields, and what the
    fields are when it succeeds. */
module HttpUrl {
  import opened Wrappers
  import opened HttpTypes
  import opened HttpSwitch
  import opened HttpNumbers

  datatype UrlField = Schema | Host | Port | Path | Query | Fragment | Userinfo

  datatype Span = Span(off: nat, len: nat)

  /** `struct http_parser_url` */
  datatype Url = Url(fields: set<UrlField>, port: nat, data: map<UrlField, Span>)

  datatype HostState =
    | HostDead | UserinfoStart | InUserinfo | HostStart | V6Start | InHost | InV6 | V6End | PortStart | InPort

  const NO_SPANS: map<UrlField, Span> :=
    map[Schema := Span(0, 0), Host := Span(0, 0), Port := Span(0, 0), Path := Span(0, 0),
        Query := Span(0, 0), Fragment := Span(0, 0), Userinfo := Span(0, 0)]

  // ---- the first pass ----

  // The state after the characters of text, dead once dead
  function UrlState(start: State, text: string): State {
    if text == "" then start
    else
      var s := UrlState(start, text[..|text| - 1]);
      if s == SDead then SDead else ParseUrlChar(s, text[|text| - 1])
  }

  function FieldOf(s: State): Option<UrlField> {
    match s
    case SReqSchema => Some(Schema)
    case SReqServer | SReqServerWithAt => Some(Host)
    case SReqPath => Some(Path)
    case SReqQueryString => Some(Query)
    case SReqFragment => Some(Fragment)
    case _ => None
  }

  // URL states only ever move up this order
  function UrlRank(s: State): nat {
    match s
    case SReqSchema => 1
    case SReqSchemaSlash | SReqSchemaSlashSlash | SReqServerStart => 2
    case SReqServer | SReqServerWithAt => 3
    case SReqPath => 5
    case SReqQueryStringStart => 6
    case SReqQueryString => 7
    case SReqFragmentStart => 8
    case SReqFragment => 9
    case _ => 0
  }

  // The order in which the fields stand in a URL
  function Order(f: UrlField): nat {
    match f
    case Schema => 1 case Userinfo => 2 case Host => 3 case Port => 4
    case Path => 5 case Query => 7 case Fragment => 9
  }

  predicate Alive(s: State) { InUrl(s) || s == SReqSpacesBeforeUrl }

  lemma UrlAdvances(s: State, ch: char)
    requires Alive(s) && ParseUrlChar(s, ch) != SDead
    ensures var t := ParseUrlChar(s, ch);
      && InUrl(t) && UrlRank(s) <= UrlRank(t) && FieldOf(t) != Some(Port) && FieldOf(t) != Some(Userinfo)
      && (FieldOf(t).Some? ==>
            && UrlRank(t) == Order(FieldOf(t).value)
            && (UrlRank(s) == UrlRank(t) ==> FieldOf(s) == FieldOf(t)))
      && (FieldOf(t) == None ==> IsDelimiter(ch))
  {
    hide IsAlpha, IsUserinfoChar, IsUrlChar;
  }

  predicate IsDelimiter(c: char) {
    c == ':' || c == '/' || c == '@' || c == '[' || c == ']' || c == '?' || c == '#'
  }

  predicate Covers(s: Span, j: nat) { s.off <= j < s.off + s.len }

  predicate AllFields(data: map<UrlField, Span>) { forall f: UrlField :: f in data }

  // The field that byte j belongs to in the first pass
  function FieldAt(start: State, buf: string, j: nat): Option<UrlField>
    requires j < |buf|
  {
    FieldOf(UrlState(start, buf[..j + 1]))
  }

  // Which byte belongs to which field, as far as the pass has come
  function FieldsUpTo(start: State, buf: string, i: nat): seq<Option<UrlField>>
    requires i <= |buf|
  {
    seq(i, j requires 0 <= j < i => FieldAt(start, buf, j))
  }

  // Every byte is owned by the field that covers it
  predicate Owned(at: seq<Option<UrlField>>, u: Url)
    requires AllFields(u.data)
  {
    forall j, f | 0 <= j < |at| :: at[j] == Some(f) <==> f in u.fields && Covers(u.data[f], j)
  }

  predicate InOrder(u: Url)
    requires AllFields(u.data)
  {
    forall f, g | f in u.fields && g in u.fields && Order(f) < Order(g) ::
      u.data[f].off + u.data[f].len <= u.data[g].off
  }

  /** The spans of the set fields are exactly the bytes that belong to them, one field
      after the other in their order. */
  predicate Tiles(at: seq<Option<UrlField>>, u: Url) {
    && AllFields(u.data)
    && (forall f | f in u.fields :: 0 < u.data[f].len && u.data[f].off + u.data[f].len <= |at|)
    && (forall f | f !in u.fields :: u.data[f] == Span(0, 0))
    && Owned(at, u) && InOrder(u)
  }

  // The stretch of bytes that belong to f: where the first is, and how many there are
  function SpanOf(at: seq<Option<UrlField>>, f: UrlField): (s: Span)
    ensures s.off + s.len <= |at| && (s.len == 0 ==> s == Span(0, 0))
  {
    if at == [] then Span(0, 0)
    else
      var n := |at| - 1;
      var s := SpanOf(at[..n], f);
      if at[n] != Some(f) then s else if s.len == 0 then Span(n, 1) else Span(s.off, s.len + 1)
  }

  // A result that tiles says of every field just where its bytes are: there is only one
  lemma {:induction false} TilesPrefix(at: seq<Option<UrlField>>, u: Url, f: UrlField, n: nat)
    requires Tiles(at, u) && n <= |at|
    ensures var d := u.data[f];
      SpanOf(at[..n], f) == if f !in u.fields || n <= d.off then Span(0, 0) else Span(d.off, Min(d.len, n - d.off))
  {
    hide InOrder;
    if n > 0 {
      TilesPrefix(at, u, f, n - 1);
      assert at[..n][..n - 1] == at[..n - 1];
      assert at[n - 1] == Some(f) <==> f in u.fields && Covers(u.data[f], n - 1);
    }
  }

  /** The fields and spans of a result that tiles are determined by which byte belongs to which field. */
  lemma TilesExactly(at: seq<Option<UrlField>>, u: Url)
    requires Tiles(at, u)
    ensures forall f: UrlField :: u.data[f] == SpanOf(at, f) && (f in u.fields <==> Some(f) in at)
  {
    forall f: UrlField ensures u.data[f] == SpanOf(at, f) && (f in u.fields <==> Some(f) in at) {
      TilesPrefix(at, u, f, |at|);
      assert at[..|at|] == at;
      if f in u.fields {
        assert Covers(u.data[f], u.data[f].off);
        assert at[u.data[f].off] == Some(f);
      }
      if Some(f) in at {
        var j :| 0 <= j < |at| && at[j] == Some(f);
        assert f in u.fields;
      }
    }
  }

  function Slice(buf: string, s: Span): string
    requires s.off + s.len <= |buf|
  {
    buf[s.off..s.off + s.len]
  }

  // One more byte for a field that ends here
  function Longer(u: Url, f: UrlField): Url
    requires AllFields(u.data)
  {
    u.(data := u.data[f := Span(u.data[f].off, u.data[f].len + 1)])
  }

  // The first byte of a field
  function Opened(u: Url, f: UrlField, i: nat): Url
    requires AllFields(u.data)
  {
    u.(data := u.data[f := Span(i, 1)], fields := u.fields + {f})
  }

  lemma TilesNone(at: seq<Option<UrlField>>, u: Url)
    requires Tiles(at, u)
    ensures Tiles(at + [None], u)
  {}

  lemma LongerOwned(at: seq<Option<UrlField>>, u: Url, f: UrlField, i: nat)
    requires AllFields(u.data) && Owned(at, u) && i < |at| && at[i] == None
    requires f in u.fields && 0 < u.data[f].len && u.data[f].off + u.data[f].len == i
    ensures Owned(at[i := Some(f)], Longer(u, f))
  {
    var v := Longer(u, f);
    var at' := at[i := Some(f)];
    forall j, g | 0 <= j < |at'| ensures at'[j] == Some(g) <==> g in v.fields && Covers(v.data[g], j) {
      if j != i { assert at'[j] == at[j]; } else if g in u.fields && g != f { assert at[i] != Some(g); }
    }
  }

  lemma LongerInOrder(u: Url, f: UrlField, i: nat)
    requires AllFields(u.data) && InOrder(u) && f in u.fields && u.data[f].off + u.data[f].len == i
    requires forall g | g in u.fields && Order(f) < Order(g) :: i < u.data[g].off
    ensures InOrder(Longer(u, f))
  {
    hide Order;
  }

  lemma TilesLonger(at: seq<Option<UrlField>>, u: Url, f: UrlField, i: nat)
    requires Tiles(at, u) && i < |at| && at[i] == None && f in u.fields && u.data[f].off + u.data[f].len == i
    requires forall g | g in u.fields && Order(f) < Order(g) :: i < u.data[g].off
    ensures Tiles(at[i := Some(f)], Longer(u, f))
  {
    hide Owned, InOrder, Order;
    LongerOwned(at, u, f, i);
    LongerInOrder(u, f, i);
  }

  lemma TilesOpened(at: seq<Option<UrlField>>, u: Url, f: UrlField, i: nat)
    requires Tiles(at, u) && i < |at| && at[i] == None && f !in u.fields
    requires forall g | g in u.fields && Order(g) < Order(f) :: u.data[g].off + u.data[g].len <= i
    requires forall g | g in u.fields && Order(f) < Order(g) :: i < u.data[g].off
    ensures Tiles(at[i := Some(f)], Opened(u, f, i))
  {
    var v := Opened(u, f, i);
    var at' := at[i := Some(f)];
    forall j, g | 0 <= j < |at'| ensures at'[j] == Some(g) <==> g in v.fields && Covers(v.data[g], j) {
      if j != i { assert at'[j] == at[j]; } else if g in u.fields { assert !Covers(u.data[g], i); }
    }
  }

  lemma TilesMore(at: seq<Option<UrlField>>, u: Url, f: UrlField)
    requires Tiles(at, u)
    requires forall g | g in u.fields :: Order(g) <= Order(f)
    ensures f in u.fields && u.data[f].off + u.data[f].len == |at| ==> Tiles(at + [Some(f)], Longer(u, f))
    ensures f !in u.fields ==> Tiles(at + [Some(f)], Opened(u, f, |at|))
  {
    TilesNone(at, u);
    assert (at + [None])[|at| := Some(f)] == at + [Some(f)];
    if f in u.fields {
      if u.data[f].off + u.data[f].len == |at| { TilesLonger(at + [None], u, f, |at|); }
    } else {
      TilesOpened(at + [None], u, f, |at|);
    }
  }

  // The field noted last reaches up to here if the last byte is its own
  lemma TilesEnd(at: seq<Option<UrlField>>, u: Url, f: UrlField)
    requires Tiles(at, u) && at != [] && at[|at| - 1] == Some(f)
    ensures f in u.fields && u.data[f].off + u.data[f].len == |at|
  {
    assert Covers(u.data[f], |at| - 1);
  }

  // Every byte without a field is a delimiter
  predicate Delimited(at: seq<Option<UrlField>>, buf: string) {
    |at| <= |buf| && forall j | 0 <= j < |at| && at[j] == None :: IsDelimiter(buf[j])
  }

  lemma DelimitedMore(at: seq<Option<UrlField>>, buf: string, f: Option<UrlField>)
    requires Delimited(at, buf) && |at| < |buf| && (f == None ==> IsDelimiter(buf[|at|]))
    ensures Delimited(at + [f], buf)
  {}

  /** After i bytes of the first pass, in state s. */
  predicate Split1(start: State, buf: string, i: nat, s: State, last: Option<UrlField>, u: Url) {
    && i <= |buf| && s == UrlState(start, buf[..i]) && Alive(s) && (i == 0 ==> FieldOf(s) == None)
    && Tiles(FieldsUpTo(start, buf, i), u)
    && Delimited(FieldsUpTo(start, buf, i), buf)
    && (forall f | f in u.fields :: f != Port && f != Userinfo && last.Some? && Order(f) <= Order(last.value))
    && (last.Some? ==> last.value in u.fields && Order(last.value) <= UrlRank(s))
  }

  lemma StateMore(start: State, buf: string, i: nat)
    requires i < |buf|
    ensures UrlState(start, buf[..i + 1]) ==
      (var s := UrlState(start, buf[..i]); if s == SDead then SDead else ParseUrlChar(s, buf[i]))
    ensures FieldsUpTo(start, buf, i + 1) == FieldsUpTo(start, buf, i) + [FieldOf(UrlState(start, buf[..i + 1]))]
  {
    hide ParseUrlChar, FieldOf;
    assert buf[..i + 1][..i] == buf[..i];
  }

  lemma Delimits1(start: State, buf: string, i: nat, s: State, last: Option<UrlField>, u: Url)
    requires Split1(start, buf, i, s, last, u) && i < |buf|
    requires var t := ParseUrlChar(s, buf[i]); t != SDead && FieldOf(t) == None
    ensures Split1(start, buf, i + 1, ParseUrlChar(s, buf[i]), last, u)
  {
    hide ParseUrlChar, UrlState, FieldsUpTo, Tiles, IsDelimiter, Delimited;
    StateMore(start, buf, i);
    UrlAdvances(s, buf[i]);
    UpToLength(start, buf, i);
    DelimitedMore(FieldsUpTo(start, buf, i), buf, FieldOf(ParseUrlChar(s, buf[i])));
    TilesNone(FieldsUpTo(start, buf, i), u);
  }

  lemma Continues1(start: State, buf: string, i: nat, s: State, f: UrlField, u: Url)
    requires Split1(start, buf, i, s, Some(f), u) && i < |buf|
    requires var t := ParseUrlChar(s, buf[i]); t != SDead && FieldOf(t) == Some(f)
    ensures Split1(start, buf, i + 1, ParseUrlChar(s, buf[i]), Some(f), Longer(u, f))
  {
    hide ParseUrlChar, UrlState, Tiles, IsDelimiter, Delimited;
    StateMore(start, buf, i);
    UrlAdvances(s, buf[i]);
    UpToLength(start, buf, i);
    DelimitedMore(FieldsUpTo(start, buf, i), buf, FieldOf(ParseUrlChar(s, buf[i])));
    var at := FieldsUpTo(start, buf, i);
    assert FieldOf(s) == Some(f);
    assert at[i - 1] == Some(f);
    hide FieldsUpTo;
    TilesEnd(at, u, f);
    TilesMore(at, u, f);
  }

  lemma Opens1(start: State, buf: string, i: nat, s: State, last: Option<UrlField>, u: Url)
    requires Split1(start, buf, i, s, last, u) && i < |buf|
    requires var t := ParseUrlChar(s, buf[i]); t != SDead && FieldOf(t).Some? && FieldOf(t) != last
    ensures var t := ParseUrlChar(s, buf[i]);
            Split1(start, buf, i + 1, t, FieldOf(t), Opened(u, FieldOf(t).value, i))
  {
    hide ParseUrlChar, UrlState, Tiles, FieldsUpTo, Order, FieldOf, UrlRank, IsDelimiter, Delimited;
    StateMore(start, buf, i);
    UrlAdvances(s, buf[i]);
    UpToLength(start, buf, i);
    DelimitedMore(FieldsUpTo(start, buf, i), buf, FieldOf(ParseUrlChar(s, buf[i])));
    UpToLength(start, buf, i);
    var f := FieldOf(ParseUrlChar(s, buf[i])).value;
    NewIsLater(s, f, last, u);
    TilesMore(FieldsUpTo(start, buf, i), u, f);
  }

  lemma NewIsLater(s: State, f: UrlField, last: Option<UrlField>, u: Url)
    requires last != Some(f) && UrlRank(s) <= Order(f)
    requires forall g | g in u.fields :: last.Some? && Order(g) <= Order(last.value)
    requires last.Some? ==> Order(last.value) <= UrlRank(s)
    ensures f !in u.fields && forall g | g in u.fields :: Order(g) < Order(f)
  {}

  lemma UpToLength(start: State, buf: string, i: nat)
    requires i <= |buf|
    ensures |FieldsUpTo(start, buf, i)| == i
  {}

  // ---- the second pass, over the host field ----

  /** `http_parse_host_char` */
  function ParseHostChar(s: HostState, ch: char): HostState {
    match s
    case InUserinfo | UserinfoStart =>
      if ch == '@' then HostStart else if IsUserinfoChar(ch) then InUserinfo else HostDead
    case HostStart => if ch == '[' then V6Start else if IsHostChar(ch) then InHost else HostDead
    case InHost => if IsHostChar(ch) then InHost else if ch == ':' then PortStart else HostDead
    case V6End => if ch == ':' then PortStart else HostDead
    case InV6 => if ch == ']' then V6End else if IsHex(ch) || ch == ':' || ch == '.' then InV6 else HostDead
    case V6Start => if IsHex(ch) || ch == ':' || ch == '.' then InV6 else HostDead
    case InPort | PortStart => if IsNum(ch) then InPort else HostDead
    case HostDead => HostDead
  }

  function HostFieldOf(s: HostState): Option<UrlField> {
    match s
    case InHost | InV6 => Some(Host)
    case InPort => Some(Port)
    case InUserinfo => Some(Userinfo)
    case _ => None
  }

  function HostRank(s: HostState): nat {
    match s
    case HostDead | UserinfoStart => 0
    case InUserinfo | HostStart | V6Start => 2
    case InHost | InV6 | V6End | PortStart => 3
    case InPort => 4
  }

  lemma HostAdvances(s: HostState, ch: char)
    requires ParseHostChar(s, ch) != HostDead
    ensures var t := ParseHostChar(s, ch);
      && HostRank(s) <= HostRank(t)
      && (HostFieldOf(t).Some? ==>
            HostRank(t) == Order(HostFieldOf(t).value) && InHostPart(HostFieldOf(t).value)
            && (s == t || HostRank(s) < HostRank(t)))
      && (HostFieldOf(t) == None ==> IsDelimiter(ch))
      && (HostRank(t) >= 3 ==> HostRank(s) >= 3 || HostFieldOf(t) == Some(Host))
      && (t == InPort ==> IsNum(ch))
      && (s == InPort ==> t == InPort)
  {
    hide IsUserinfoChar, IsHostChar, IsHex, IsNum;
  }

  function HostStateAt(start: HostState, text: string): HostState {
    if text == "" then start
    else
      var s := HostStateAt(start, text[..|text| - 1]);
      if s == HostDead then HostDead else ParseHostChar(s, text[|text| - 1])
  }

  lemma HostStateMore(start: HostState, buf: string, lo: nat, i: nat)
    requires lo <= i < |buf|
    ensures HostStateAt(start, buf[lo..i + 1]) ==
      (var s := HostStateAt(start, buf[lo..i]); if s == HostDead then HostDead else ParseHostChar(s, buf[i]))
  {
    assert buf[lo..i + 1][..i - lo] == buf[lo..i];
  }

  // While the host span is empty the Host bit stands for nothing yet
  function Opening(u: Url): Url
    requires AllFields(u.data)
  {
    if u.data[Host].len == 0 then Url.Url(u.fields - {Host}, u.port, u.data[Host := Span(0, 0)]) else u
  }

  predicate InHostPart(f: UrlField) { f == Userinfo || f == Host || f == Port }

  predicate OutsideHost(s: Span, f: UrlField, lo: nat, hi: nat) {
    (s.off + s.len <= lo && Order(f) < 2) || (hi <= s.off && 4 < Order(f))
  }

  /** After the bytes lo..i of the host part lo..hi, in state s: `at` tells the field of
      every byte that has one by now, and v what the spans stand for. */
  predicate Split2(start: HostState, buf: string, lo: nat, i: nat, hi: nat, s: HostState,
                   at: seq<Option<UrlField>>, v: Url)
  {
    && lo <= i <= hi <= |buf| == |at| && s == HostStateAt(start, buf[lo..i]) && s != HostDead
    && Tiles(at, v)
    && (forall j | i <= j < hi :: at[j] == None)
    && (forall j | lo <= j < i && at[j] == None :: IsDelimiter(buf[j]))
    && (forall f | f in v.fields :: if InHostPart(f) then Order(f) <= HostRank(s) && v.data[f].off + v.data[f].len <= i
                                    else OutsideHost(v.data[f], f, lo, hi))
    && (HostFieldOf(s).Some? ==> var f := HostFieldOf(s).value; f in v.fields && v.data[f].off + v.data[f].len == i)
    && (HostRank(s) >= 3 ==> Host in v.fields)
    && (Port in v.fields ==>
          && s == InPort && lo <= v.data[Port].off
          && forall j | v.data[Port].off <= j < i :: IsNum(buf[j]))
  }

  lemma HostDelimits(start: HostState, buf: string, lo: nat, i: nat, hi: nat, s: HostState,
                     at: seq<Option<UrlField>>, v: Url)
    requires Split2(start, buf, lo, i, hi, s, at, v) && i < hi
    requires var t := ParseHostChar(s, buf[i]); t != HostDead && HostFieldOf(t) == None
    ensures Split2(start, buf, lo, i + 1, hi, ParseHostChar(s, buf[i]), at, v)
  {
    hide ParseHostChar, HostStateAt, Tiles, IsNum, IsDelimiter;
    HostStateMore(start, buf, lo, i);
    HostAdvances(s, buf[i]);
  }

  lemma HostContinues(start: HostState, buf: string, lo: nat, i: nat, hi: nat, s: HostState,
                      at: seq<Option<UrlField>>, v: Url)
    requires Split2(start, buf, lo, i, hi, s, at, v) && i < hi
    requires ParseHostChar(s, buf[i]) == s && HostFieldOf(s).Some?
    ensures Split2(start, buf, lo, i + 1, hi, s, at[i := HostFieldOf(s)], Longer(v, HostFieldOf(s).value))
  {
    hide ParseHostChar, HostStateAt, IsNum, IsDelimiter, Owned, InOrder;
    HostStateMore(start, buf, lo, i);
    HostAdvances(s, buf[i]);
    TilesLonger(at, v, HostFieldOf(s).value, i);
    hide Tiles;
  }

  lemma HostOpens(start: HostState, buf: string, lo: nat, i: nat, hi: nat, s: HostState,
                  at: seq<Option<UrlField>>, v: Url)
    requires Split2(start, buf, lo, i, hi, s, at, v) && i < hi
    requires var t := ParseHostChar(s, buf[i]); t != HostDead && t != s && HostFieldOf(t).Some?
    ensures var t := ParseHostChar(s, buf[i]); var f := HostFieldOf(t).value;
      f !in v.fields && Split2(start, buf, lo, i + 1, hi, t, at[i := Some(f)], Opened(v, f, i))
  {
    hide ParseHostChar, HostStateAt, IsNum, IsDelimiter, Owned, InOrder;
    HostStateMore(start, buf, lo, i);
    HostAdvances(s, buf[i]);
    var f := HostFieldOf(ParseHostChar(s, buf[i])).value;
    assert f !in v.fields;
    TilesOpened(at, v, f, i);
    hide Tiles;
  }

  // The bookkeeping of http_parse_host for one byte that moves from state s to t
  function HostNote(u: Url, s: HostState, t: HostState, i: nat): Url
    requires AllFields(u.data)
  {
    match HostFieldOf(t)
    case None => u
    case Some(f) =>
      if s == t then Longer(u, f)
      // the host span was emptied before the loop, and its bit stays set
      else if f == Host then u.(data := u.data[Host := Span(i, u.data[Host].len + 1)])
      else Opened(u, f, i)
  }

  lemma NoteIsLonger(u: Url, s: HostState, f: UrlField, i: nat)
    requires AllFields(u.data) && Host in u.fields && HostFieldOf(s) == Some(f) && f in Opening(u).fields
    ensures Opening(HostNote(u, s, s, i)) == Longer(Opening(u), f)
  {
    assert Opening(HostNote(u, s, s, i)).data == Longer(Opening(u), f).data;
  }

  lemma NoteIsOpened(u: Url, s: HostState, t: HostState, f: UrlField, i: nat)
    requires AllFields(u.data) && Host in u.fields && HostFieldOf(t) == Some(f) && s != t && f !in Opening(u).fields
    ensures Opening(HostNote(u, s, t, i)) == Opened(Opening(u), f, i)
  {
    var a, b := Opening(HostNote(u, s, t, i)), Opened(Opening(u), f, i);
    assert a.data == b.data && a.fields == b.fields;
  }

  lemma HostKeepsSplit(start: HostState, buf: string, lo: nat, i: nat, hi: nat, s: HostState,
                       at: seq<Option<UrlField>>, u: Url)
    requires AllFields(u.data) && Host in u.fields && i < hi
    requires Split2(start, buf, lo, i, hi, s, at, Opening(u)) && ParseHostChar(s, buf[i]) != HostDead
    ensures var t := ParseHostChar(s, buf[i]); var w := HostNote(u, s, t, i);
      && AllFields(w.data) && Host in w.fields
      && Split2(start, buf, lo, i + 1, hi, t, at[i := HostFieldOf(t)], Opening(w))
  {
    hide ParseHostChar, Opening, HostNote, Longer, Opened;
    var t := ParseHostChar(s, buf[i]);
    NoteKeepsHost(u, s, t, i);
    match HostFieldOf(t)
    case None =>
      assert at[i := None] == at;
      HostDelimits(start, buf, lo, i, hi, s, at, Opening(u));
    case Some(f) =>
      if s == t {
        HostContinues(start, buf, lo, i, hi, s, at, Opening(u));
        NoteIsLonger(u, s, f, i);
      } else {
        HostOpens(start, buf, lo, i, hi, s, at, Opening(u));
        NoteIsOpened(u, s, t, f, i);
      }
    hide Split2;
  }

  lemma NoteKeepsHost(u: Url, s: HostState, t: HostState, i: nat)
    requires AllFields(u.data) && Host in u.fields
    ensures var w := HostNote(u, s, t, i); AllFields(w.data) && Host in w.fields
    ensures HostFieldOf(t) == None ==> HostNote(u, s, t, i) == u
  {}

  // ---- entering and leaving the second pass ----

  // The bytes of the host field lose their field until the second pass gives them one
  function WithoutHost(at: seq<Option<UrlField>>): seq<Option<UrlField>> {
    seq(|at|, j requires 0 <= j < |at| => if at[j] == Some(Host) then None else at[j])
  }

  function EmptyHost(u: Url): Url
    requires AllFields(u.data)
  {
    u.(data := u.data[Host := Span(u.data[Host].off, 0)])
  }

  // What is left of the spans when the host's is emptied
  lemma OpeningSpans(u: Url)
    requires AllFields(u.data) && Host in u.fields
    ensures var v := Opening(EmptyHost(u));
      v.fields == u.fields - {Host} && AllFields(v.data) && forall f | f != Host :: v.data[f] == u.data[f]
  {}

  lemma WithoutHostTiles(at: seq<Option<UrlField>>, u: Url)
    requires Tiles(at, u) && Host in u.fields
    ensures Tiles(WithoutHost(at), Opening(EmptyHost(u)))
  {
    OpeningSpans(u);
    EmptyOwned(at, u);
    hide Owned, Opening, EmptyHost, WithoutHost;
  }

  lemma HostApart(at: seq<Option<UrlField>>, u: Url)
    requires Tiles(at, u) && Host in u.fields
    requires forall f | f in u.fields :: f != Port && f != Userinfo
    ensures forall f | f in u.fields && f != Host ::
      !InHostPart(f) && OutsideHost(u.data[f], f, u.data[Host].off, u.data[Host].off + u.data[Host].len)
  {
    hide Owned;
  }

  lemma HostEnters(found: bool, buf: string, at: seq<Option<UrlField>>, u: Url)
    requires |at| == |buf| && Tiles(at, u) && Host in u.fields
    requires forall f | f in u.fields :: f != Port && f != Userinfo
    ensures var start, lo := if found then UserinfoStart else HostStart, u.data[Host].off; var w := EmptyHost(u);
      Split2(start, buf, lo, lo, lo + u.data[Host].len, start, WithoutHost(at), Opening(w))
  {
    var w, v := EmptyHost(u), Opening(EmptyHost(u));
    var lo := u.data[Host].off;
    OpeningSpans(u);
    WithoutHostTiles(at, u);
    HostOwned(at, u);
    HostApart(at, u);
    assert buf[lo..lo] == "";
    hide Owned, InOrder, Opening, EmptyHost;
  }

  lemma HostOwned(at: seq<Option<UrlField>>, u: Url)
    requires Tiles(at, u) && Host in u.fields
    ensures forall j | u.data[Host].off <= j < u.data[Host].off + u.data[Host].len :: at[j] == Some(Host)
  {
    forall j | u.data[Host].off <= j < u.data[Host].off + u.data[Host].len ensures at[j] == Some(Host) {
      assert at[j] == Some(Host) <==> Host in u.fields && Covers(u.data[Host], j);
    }
  }

  lemma EmptyOwned(at: seq<Option<UrlField>>, u: Url)
    requires AllFields(u.data) && Owned(at, u)
    ensures Owned(WithoutHost(at), Opening(EmptyHost(u)))
  {
    var v := Opening(EmptyHost(u));
    forall j, f | 0 <= j < |at| ensures WithoutHost(at)[j] == Some(f) <==> f in v.fields && Covers(v.data[f], j) {
      assert at[j] == Some(f) <==> f in u.fields && Covers(u.data[f], j);
    }
  }

  lemma HostFrame(at: seq<Option<UrlField>>, u: Url)
    requires Tiles(at, u)
    ensures AllFields(u.data) && AllFields(EmptyHost(u).data) && EmptyHost(u).fields == u.fields
            && EmptyHost(u).port == u.port
    ensures u.data[Host].off + u.data[Host].len <= |at| && |WithoutHost(at)| == |at|
    ensures Host !in u.fields ==> u.data[Host].len == 0
    ensures forall j | 0 <= j < |at| && !Covers(u.data[Host], j) :: WithoutHost(at)[j] == at[j]
    ensures forall j | 0 <= j < |at| && Covers(u.data[Host], j) && Host in u.fields :: at[j] == Some(Host)
  {}

  lemma HostLeaves(start: HostState, buf: string, lo: nat, hi: nat, s: HostState, at: seq<Option<UrlField>>, u: Url)
    requires AllFields(u.data) && Host in u.fields && Split2(start, buf, lo, hi, hi, s, at, Opening(u))
    requires s == InHost || s == V6End || s == InPort
    ensures Tiles(at, u) && forall j | lo <= j < hi && at[j] == None :: IsDelimiter(buf[j])
    ensures Port in u.fields ==>
      u.data[Port].off + u.data[Port].len == hi && forall j | u.data[Port].off <= j < hi :: IsNum(buf[j])
  {
    hide Tiles, HostStateAt, IsNum, IsDelimiter;
    assert Opening(u) == u;
  }

  // The states in which a host part may end
  predicate HostAccepted(foundAt: bool, text: string) {
    var s := HostStateAt(if foundAt then UserinfoStart else HostStart, text);
    s == InHost || s == V6End || s == InPort
  }

  lemma {:induction false} HostDeadStays(start: HostState, buf: string, lo: nat, i: nat, hi: nat)
    requires lo <= i <= hi <= |buf| && HostStateAt(start, buf[lo..i]) == HostDead
    ensures HostStateAt(start, buf[lo..hi]) == HostDead
    decreases hi - i
  {
    hide ParseHostChar;
    if i < hi {
      HostStateMore(start, buf, lo, i);
      HostDeadStays(start, buf, lo, i + 1, hi);
    }
  }

  // The bytes of the span h as the second pass divides them up, the others as they were
  function Rehosted(at: seq<Option<UrlField>>, buf: string, foundAt: bool, h: Span): (r: seq<Option<UrlField>>)
    requires |at| == |buf| && h.off + h.len <= |buf|
    ensures |r| == |at|
  {
    var start := if foundAt then UserinfoStart else HostStart;
    seq(|at|, j requires 0 <= j < |at| =>
      if Covers(h, j) then HostFieldOf(HostStateAt(start, buf[h.off..j + 1])) else at[j])
  }

  /** `http_parse_host`: splits the host field into userinfo, host and port. */
  method ParseHost(buf: string, u0: Url, foundAt: bool, ghost at0: seq<Option<UrlField>>)
    returns (failed: bool, u: Url, ghost at: seq<Option<UrlField>>)
    requires |at0| == |buf| && Tiles(at0, u0)
    requires forall f | f in u0.fields :: f != Port && f != Userinfo
    ensures u0.data[Host].off + u0.data[Host].len <= |buf|
    ensures failed <==> !HostAccepted(foundAt, Slice(buf, u0.data[Host]))
    ensures !failed ==>
      && Host in u0.fields && u0.fields <= u.fields && |at| == |buf| && Tiles(at, u) && u.port == u0.port
      && at == Rehosted(at0, buf, foundAt, u0.data[Host])
      && (forall j | 0 <= j < |buf| && at[j] == None && at0[j] != None :: IsDelimiter(buf[j]))
      && (Port in u.fields ==>
            && u.data[Port].off + u.data[Port].len == u0.data[Host].off + u0.data[Host].len
            && forall j | u.data[Port].off <= j < u.data[Port].off + u.data[Port].len :: IsNum(buf[j]))
  {
    hide Tiles, ParseHostChar, HostStateAt, IsDelimiter, IsNum, HostNote, Opening, WithoutHost, EmptyHost, Split2;
    HostFrame(at0, u0);
    var lo, hi := u0.data[Host].off, u0.data[Host].off + u0.data[Host].len;
    u := EmptyHost(u0);
    at := WithoutHost(at0);
    var s := if foundAt then UserinfoStart else HostStart;
    ghost var start := s;
    ghost var present := Host in u0.fields;
    if present { HostEnters(foundAt, buf, at0, u0); }
    var p := lo;
    while p < hi
      invariant lo <= p <= hi <= |buf| == |at| && AllFields(u.data) && u.fields >= u0.fields && u.port == u0.port
      invariant if present then Split2(start, buf, lo, p, hi, s, at, Opening(u)) else p == hi && s == start
      invariant forall j | 0 <= j < |buf| && !(lo <= j < hi) :: at[j] == at0[j]
      invariant forall j | lo <= j < p :: at[j] == HostFieldOf(HostStateAt(start, buf[lo..j + 1]))
    {
      var t := ParseHostChar(s, buf[p]);
      if t == HostDead {
        HostStateMore(start, buf, lo, p);
        InState(start, buf, lo, p, hi, s, at, Opening(u));
        HostDeadStays(start, buf, lo, p + 1, hi);
        return true, u, at;
      }
      HostStateMore(start, buf, lo, p);
      InState(start, buf, lo, p, hi, s, at, Opening(u));
      HostKeepsSplit(start, buf, lo, p, hi, s, at, u);
      NoteKeepsFields(u, s, t, p);
      u := HostNote(u, s, t, p);
      at := at[p := HostFieldOf(t)];
      s := t;
      p := p + 1;
    }
    failed := s == HostStart || s == V6Start || s == InV6 || s == PortStart || s == InUserinfo || s == UserinfoStart;
    if present {
      InState(start, buf, lo, p, hi, s, at, Opening(u));
    } else {
      NothingRead(start, buf, lo);
    }
    if !failed { HostLeaves(start, buf, lo, hi, s, at, u); }
    assert present ==> at == Rehosted(at0, buf, foundAt, u0.data[Host]);
  }

  lemma NothingRead(start: HostState, buf: string, lo: nat)
    requires lo <= |buf|
    ensures HostStateAt(start, buf[lo..lo]) == start
  {}

  lemma InState(start: HostState, buf: string, lo: nat, i: nat, hi: nat, s: HostState, at: seq<Option<UrlField>>,
                v: Url)
    requires Split2(start, buf, lo, i, hi, s, at, v)
    ensures s != HostDead && s == HostStateAt(start, buf[lo..i])
  {}

  lemma NoteKeepsFields(u: Url, s: HostState, t: HostState, i: nat)
    requires AllFields(u.data)
    ensures HostNote(u, s, t, i).fields >= u.fields && HostNote(u, s, t, i).port == u.port
  {}

  // ---- the port number ----

  // The digits that strtoul reads
  function LeadingDigits(text: string): (r: string)
    ensures forall c | c in r :: IsNum(c)
  {
    if text == "" || !IsNum(text[0]) then "" else [text[0]] + LeadingDigits(text[1..])
  }

  function Decimal(digits: string): nat
    requires forall c | c in digits :: IsNum(c)
  {
    Value(seq(|digits|, i requires 0 <= i < |digits| => assert digits[i] in digits; Digit(digits[i])), 10)
  }

  /** The number of a version, a status or a port is the one that its digits spell. */
  lemma DecimalIsSpelled(digits: string, n: nat)
    requires digits != "" && forall c | c in digits :: IsNum(c)
    ensures Decimal(digits) == n <==> Spells(digits, n, 10)
  {
    var ds := seq(|digits|, i requires 0 <= i < |digits| => assert digits[i] in digits; Digit(digits[i]));
    forall i | 0 <= i < |digits| ensures IsNum(digits[i]) && ds[i] == Digit(digits[i]) {
      assert digits[i] in digits;
    }
    DigitsSpell(digits, ds, n);
  }

  // strtoul(text, NULL, 10) on a text that starts with a digit; too large is ULONG_MAX
  function StrToUl(text: string): nat { Min(Decimal(LeadingDigits(text)), ULLONG_MAX) }

  // ---- the whole function ----

  /** What a successful split means: the set fields are non-empty slices of the buffer, in
      the order schema, userinfo, host, port, path, query, fragment, and every other byte
      is a delimiter; the port consists of digits up to a byte that is none. */
  predicate SplitsUrl(buf: string, u: Url) {
    && AllFields(u.data)
    && (forall f | f in u.fields :: 0 < u.data[f].len && u.data[f].off + u.data[f].len <= |buf|)
    && InOrder(u)
    && (forall j | 0 <= j < |buf| :: IsDelimiter(buf[j]) || exists f | f in u.fields :: Covers(u.data[f], j))
    && (Port in u.fields ==>
          && (forall c | c in Slice(buf, u.data[Port]) :: IsNum(c))
          && var end := u.data[Port].off + u.data[Port].len; (end < |buf| ==> !IsNum(buf[end])))
  }

  lemma ServerTakesDigits(s: State, ch: char)
    requires FieldOf(s) == Some(Host) && IsNum(ch)
    ensures FieldOf(ParseUrlChar(s, ch)) == Some(Host)
  {}

  // The host field of the first pass does not end before a digit
  lemma HostEndsOpen(start: State, buf: string, u: Url)
    requires Tiles(FieldsUpTo(start, buf, |buf|), u) && Host in u.fields && UrlState(start, buf) != SDead
    ensures var end := u.data[Host].off + u.data[Host].len; end < |buf| ==> !IsNum(buf[end])
  {
    hide UrlState, ParseUrlChar, IsNum;
    var at := FieldsUpTo(start, buf, |buf|);
    var end := u.data[Host].off + u.data[Host].len;
    if end < |buf| {
      assert Covers(u.data[Host], end - 1) && !Covers(u.data[Host], end);
      assert at[end - 1] == Some(Host) && at[end] != Some(Host);
      StateMore(start, buf, end);
      if IsNum(buf[end]) { ServerTakesDigits(UrlState(start, buf[..end]), buf[end]); }
    }
  }

  function UrlStart(isConnect: bool): State { if isConnect then SReqServerStart else SReqSpacesBeforeUrl }

  lemma {:induction false} DeadStays(start: State, buf: string, i: nat)
    requires i <= |buf| && UrlState(start, buf[..i]) == SDead
    ensures UrlState(start, buf) == SDead
    decreases |buf| - i
  {
    hide ParseUrlChar;
    if i == |buf| {
      assert buf[..i] == buf;
    } else {
      StateMore(start, buf, i);
      DeadStays(start, buf, i + 1);
    }
  }

  lemma SplitStarts(start: State, buf: string, u: Url)
    requires start == SReqServerStart || start == SReqSpacesBeforeUrl
    requires u.fields == {} && u.data == NO_SPANS
    ensures Split1(start, buf, 0, start, None, u)
  {
    NoSpans();
    assert buf[..0] == "";
  }

  lemma NoSpans()
    ensures AllFields(NO_SPANS) && forall f {:trigger NO_SPANS[f]} :: f in NO_SPANS ==> NO_SPANS[f] == Span(0, 0)
  {
    forall f: UrlField ensures f in NO_SPANS && NO_SPANS[f] == Span(0, 0) {
      match f case Schema => case Host => case Port => case Path => case Query => case Fragment => case Userinfo =>
    }
  }

  lemma DelimitersOrFields(buf: string, at: seq<Option<UrlField>>, u: Url)
    requires |at| == |buf| && AllFields(u.data) && Owned(at, u)
    requires forall j | 0 <= j < |buf| && at[j] == None :: IsDelimiter(buf[j])
    ensures forall j | 0 <= j < |buf| :: IsDelimiter(buf[j]) || exists f | f in u.fields :: Covers(u.data[f], j)
  {
    hide IsDelimiter;
    forall j | 0 <= j < |buf| ensures IsDelimiter(buf[j]) || exists f | f in u.fields :: Covers(u.data[f], j) {
      if at[j].Some? {
        var f := at[j].value;
        assert at[j] == Some(f) <==> f in u.fields && Covers(u.data[f], j);
      }
    }
  }

  lemma AllDelimiters(start: State, buf: string, s: State, last: Option<UrlField>, u1: Url, at: seq<Option<UrlField>>)
    requires Split1(start, buf, |buf|, s, last, u1) && |at| == |buf|
    requires forall j | 0 <= j < |buf| && at[j] == None && FieldsUpTo(start, buf, |buf|)[j] != None ::
               IsDelimiter(buf[j])
    ensures forall j | 0 <= j < |buf| && at[j] == None :: IsDelimiter(buf[j])
  {
    hide UrlState, IsDelimiter, Tiles, FieldsUpTo;
    UpToLength(start, buf, |buf|);
  }

  // The two passes together
  lemma SplitEnds(start: State, buf: string, s: State, last: Option<UrlField>, u1: Url, at: seq<Option<UrlField>>,
                  u: Url)
    requires Split1(start, buf, |buf|, s, last, u1)
    requires |at| == |buf| && Tiles(at, u)
    requires (u == u1 && at == FieldsUpTo(start, buf, |buf|)) || Host in u1.fields
    requires forall j | 0 <= j < |buf| && at[j] == None && FieldsUpTo(start, buf, |buf|)[j] != None ::
               IsDelimiter(buf[j])
    requires u == u1 || (Port in u.fields ==>
      && u.data[Port].off + u.data[Port].len == u1.data[Host].off + u1.data[Host].len
      && forall j | u.data[Port].off <= j < u.data[Port].off + u.data[Port].len :: IsNum(buf[j]))
    ensures SplitsUrl(buf, u)
  {
    hide UrlState, IsDelimiter, IsNum, ParseUrlChar, Owned, InOrder, FieldsUpTo;
    assert buf[..|buf|] == buf;
    UpToLength(start, buf, |buf|);
    if Host in u1.fields { HostEndsOpen(start, buf, u1); }
    AllDelimiters(start, buf, s, last, u1, at);
    DelimitersOrFields(buf, at, u);
  }

  // Which byte belongs to which field after the first pass
  function FirstFields(isConnect: bool, buf: string): (at: seq<Option<UrlField>>)
    ensures |at| == |buf|
  {
    FieldsUpTo(UrlStart(isConnect), buf, |buf|)
  }

  // An authority is called for by a schema or by host characters
  predicate CallsForHost(at: seq<Option<UrlField>>) { Some(Schema) in at || Some(Host) in at }

  function HostText(at: seq<Option<UrlField>>, buf: string): string
    requires |at| == |buf|
  {
    Slice(buf, SpanOf(at, Host))
  }

  // Which byte belongs to which field in the end; delimiters belong to none
  function FieldsOf(isConnect: bool, buf: string): (at: seq<Option<UrlField>>)
    ensures |at| == |buf|
  {
    var at := FirstFields(isConnect, buf);
    if CallsForHost(at) then Rehosted(at, buf, '@' in HostText(at, buf), SpanOf(at, Host)) else at
  }

  /** The URLs that are accepted: parse_url_char gets through them, an authority that is called for
      is one, CONNECT has host and port and nothing else, and strtoul reads a port of 16 bits. */
  predicate Accepts(isConnect: bool, buf: string, beyond: string) {
    && UrlState(UrlStart(isConnect), buf) != SDead
    && var first, at := FirstFields(isConnect, buf), FieldsOf(isConnect, buf);
    && (CallsForHost(first) ==> var text := HostText(first, buf); HostAccepted('@' in text, text))
    && (isConnect ==> forall f: UrlField :: Some(f) in at <==> f == Host || f == Port)
    && (Some(Port) in at ==> StrToUl(buf[SpanOf(at, Port).off..] + beyond) <= 0xffff)
  }

  lemma AtSign(s: State, ch: char)
    requires Alive(s) && ParseUrlChar(s, ch) != SDead
    ensures var t := ParseUrlChar(s, ch); t == SReqServerWithAt <==> ch == '@' && FieldOf(t) == Some(Host)
  {
    hide IsAlpha, IsUserinfoChar, IsUrlChar;
  }

  // found_at after i bytes
  predicate AtSeen(at: seq<Option<UrlField>>, buf: string) {
    |at| <= |buf| && exists j :: 0 <= j < |at| && buf[j] == '@' && at[j] == Some(Host)
  }

  lemma NoneSeen(start: State, buf: string)
    ensures !AtSeen(FieldsUpTo(start, buf, 0), buf)
  {}

  lemma AtSeenMore(at: seq<Option<UrlField>>, buf: string, f: Option<UrlField>)
    requires |at| < |buf|
    ensures AtSeen(at + [f], buf) <==> AtSeen(at, buf) || (buf[|at|] == '@' && f == Some(Host))
  {
    if AtSeen(at, buf) {
      var j :| 0 <= j < |at| && buf[j] == '@' && at[j] == Some(Host);
      assert (at + [f])[j] == at[j];
    }
    if buf[|at|] == '@' && f == Some(Host) { assert (at + [f])[|at|] == f; }
  }

  lemma AtInHost(at: seq<Option<UrlField>>, buf: string, u: Url)
    requires Tiles(at, u) && |at| == |buf|
    ensures AtSeen(at, buf) <==> '@' in Slice(buf, u.data[Host])
  {
    var d := u.data[Host];
    var text := Slice(buf, d);
    if AtSeen(at, buf) {
      var j :| 0 <= j < |at| && buf[j] == '@' && at[j] == Some(Host);
      assert Covers(d, j);
      assert text[j - d.off] == '@';
    }
    if '@' in text {
      var k :| 0 <= k < |text| && text[k] == '@';
      assert buf[d.off + k] == '@' && Covers(d, d.off + k) && at[d.off + k] == Some(Host);
    }
  }

  lemma FoundStep(start: State, buf: string, p: nat, s: State, last: Option<UrlField>, u: Url)
    requires Split1(start, buf, p, s, last, u) && p < |buf| && ParseUrlChar(s, buf[p]) != SDead
    ensures AtSeen(FieldsUpTo(start, buf, p + 1), buf) <==>
      AtSeen(FieldsUpTo(start, buf, p), buf) || ParseUrlChar(s, buf[p]) == SReqServerWithAt
  {
    hide ParseUrlChar, UrlState, AtSeen;
    StateMore(start, buf, p);
    UpToLength(start, buf, p);
    hide FieldsUpTo;
    AtSign(s, buf[p]);
    AtSeenMore(FieldsUpTo(start, buf, p), buf, FieldOf(ParseUrlChar(s, buf[p])));
  }

  lemma DiesHere(start: State, buf: string, i: nat, s: State, last: Option<UrlField>, u: Url)
    requires Split1(start, buf, i, s, last, u) && i < |buf| && ParseUrlChar(s, buf[i]) == SDead
    ensures UrlState(start, buf) == SDead
  {
    hide ParseUrlChar;
    StateMore(start, buf, i);
    DeadStays(start, buf, i + 1);
  }

  lemma AliveAtEnd(start: State, buf: string, s: State, last: Option<UrlField>, u: Url)
    requires Split1(start, buf, |buf|, s, last, u)
    ensures UrlState(start, buf) == s != SDead && Tiles(FieldsUpTo(start, buf, |buf|), u)
    ensures |FieldsUpTo(start, buf, |buf|)| == |buf| && forall f | f in u.fields :: f != Port && f != Userinfo
  {
    hide UrlState, ParseUrlChar, Tiles;
    assert buf[..|buf|] == buf;
  }

  lemma NotedFields(u: Url, f: UrlField, i: nat)
    requires AllFields(u.data)
    ensures AllFields(Longer(u, f).data) && Longer(u, f).fields == u.fields && Longer(u, f).port == u.port
    ensures AllFields(Opened(u, f, i).data) && Opened(u, f, i).fields == u.fields + {f}
            && Opened(u, f, i).port == u.port
  {}

  lemma PortIrrelevant(buf: string, u: Url, v: nat)
    requires SplitsUrl(buf, u)
    ensures AllFields(u.data) && SplitsUrl(buf, u.(port := v)) && (Port in u.fields ==> u.data[Port].off <= |buf|)
  {
    hide IsDelimiter, IsNum, InOrder;
    assert InOrder(u.(port := v)) by { PortOrder(u, v); }
    forall j | 0 <= j < |buf|
      ensures IsDelimiter(buf[j]) || exists f | f in u.(port := v).fields :: Covers(u.(port := v).data[f], j)
    {
      if !IsDelimiter(buf[j]) {
        var f :| f in u.fields && Covers(u.data[f], j);
        assert f in u.(port := v).fields && Covers(u.(port := v).data[f], j);
      }
    }
  }

  lemma PortOrder(u: Url, v: nat)
    requires AllFields(u.data) && InOrder(u)
    ensures InOrder(u.(port := v))
  {}

  /** `http_parser_parse_url`. `beyond` is whatever memory follows the buffer: strtoul reads
      on into it when the URL ends with its port. */
  method ParseUrl(buf: string, isConnect: bool, u0: Url, beyond: string) returns (failed: bool, u: Url)
    requires |buf| <= 0xffff && u0.data == NO_SPANS
    ensures failed <==> !Accepts(isConnect, buf, beyond)
    ensures !failed ==> Tiles(FieldsOf(isConnect, buf), u) && SplitsUrl(buf, u)
    ensures !failed ==> (Schema in u.fields ==> Host in u.fields) && (isConnect ==> u.fields == {Host, Port})
    ensures !failed ==>
      u.port <= 0xffff
      && u.port == if Port in u.fields then Decimal(LeadingDigits(buf[u.data[Port].off..] + beyond)) else 0
  {
    hide UrlState, ParseUrlChar, Split1, IsDelimiter, SplitsUrl, LeadingDigits, Tiles, Longer, Opened, FieldsUpTo,
      Decimal, AtSeen, HostAccepted, Accepts, FieldsOf, FirstFields, SpanOf;
    u := Url.Url({}, 0, u0.data);
    var s := UrlStart(isConnect);
    ghost var start := s;
    var last: Option<UrlField> := None;
    var foundAt := false;
    NoSpans();
    SplitStarts(start, buf, u);
    NoneSeen(start, buf);
    var p: nat := 0;
    while p < |buf|
      invariant p <= |buf| && AllFields(u.data) && u.port == 0
      invariant Split1(start, buf, p, s, last, u)
      invariant foundAt <==> AtSeen(FieldsUpTo(start, buf, p), buf)
    {
      var t := ParseUrlChar(s, buf[p]);
      if t == SDead {
        DiesHere(start, buf, p, s, last, u);
        DeadRefused(isConnect, buf, beyond);
        return true, u;
      }
      FoundStep(start, buf, p, s, last, u);
      if t == SReqServerWithAt { foundAt := true; }
      match FieldOf(t) {
        case None =>
          Delimits1(start, buf, p, s, last, u);
        case Some(next) =>
          if last == Some(next) {
            Continues1(start, buf, p, s, next, u);
            NotedFields(u, next, p);
            u := Longer(u, next);
          } else {
            Opens1(start, buf, p, s, last, u);
            NotedFields(u, next, p);
            u := Opened(u, next, p);
            last := Some(next);
          }
      }
      s := t;
      p := p + 1;
    }
    AliveAtEnd(start, buf, s, last, u);
    ghost var at := FieldsUpTo(start, buf, |buf|);
    ghost var first := u;
    FirstFieldsAre(isConnect, buf);
    AtInHost(at, buf, first);
    FirstSpans(isConnect, buf, first);
    if Schema in u.fields || Host in u.fields {
      var bad;
      bad, u, at := ParseHost(buf, u, foundAt, at);
      if bad {
        HostRefused(isConnect, buf, beyond);
        return true, u;
      }
    }
    SplitEnds(start, buf, s, last, first, at, u);
    FinalSpans(isConnect, buf, beyond, at, u);
    if isConnect && u.fields != {Host, Port} { return true, u; }
    if Port in u.fields {
      PortIrrelevant(buf, u, 0);
      var v := StrToUl(buf[u.data[Port].off..] + beyond);
      if v > 0xffff { return true, u; }
      PortIrrelevant(buf, u, v);
      TilesPort(at, u, v);
      u := u.(port := v);
    }
    failed := false;
  }

  lemma DeadRefused(isConnect: bool, buf: string, beyond: string)
    requires UrlState(UrlStart(isConnect), buf) == SDead
    ensures !Accepts(isConnect, buf, beyond)
  {}

  lemma FirstFieldsAre(isConnect: bool, buf: string)
    ensures FirstFields(isConnect, buf) == FieldsUpTo(UrlStart(isConnect), buf, |buf|)
  {}

  // What the first pass has noted, in terms of the bytes
  lemma FirstSpans(isConnect: bool, buf: string, first: Url)
    requires Tiles(FirstFields(isConnect, buf), first)
    ensures var at := FirstFields(isConnect, buf);
      && first.data[Host] == SpanOf(at, Host) && (Schema in first.fields || Host in first.fields <==> CallsForHost(at))
      && Slice(buf, first.data[Host]) == HostText(at, buf)
  {
    hide Tiles, FirstFields, SpanOf;
    TilesExactly(FirstFields(isConnect, buf), first);
    TilesFields(FirstFields(isConnect, buf), first);
  }

  lemma TilesFields(at: seq<Option<UrlField>>, u: Url)
    requires Tiles(at, u)
    ensures AllFields(u.data)
  {}

  lemma HostRefused(isConnect: bool, buf: string, beyond: string)
    requires var at := FirstFields(isConnect, buf);
      CallsForHost(at) && !HostAccepted('@' in HostText(at, buf), HostText(at, buf))
    ensures !Accepts(isConnect, buf, beyond)
  {
    hide FirstFields, FieldsOf, UrlState, HostAccepted, SpanOf, LeadingDigits, Decimal;
  }

  // What both passes have noted, in terms of the bytes
  lemma FinalSpans(isConnect: bool, buf: string, beyond: string, at: seq<Option<UrlField>>, u: Url)
    requires UrlState(UrlStart(isConnect), buf) != SDead && Tiles(at, u)
    requires var first := FirstFields(isConnect, buf); var text := HostText(first, buf);
      if CallsForHost(first) then
        HostAccepted('@' in text, text) && at == Rehosted(first, buf, '@' in text, SpanOf(first, Host))
      else at == first
    ensures at == FieldsOf(isConnect, buf) && AllFields(u.data) && (Port in u.fields ==> u.data[Port].off <= |buf|)
    ensures Accepts(isConnect, buf, beyond) <==>
      (isConnect ==> u.fields == {Host, Port})
      && (Port in u.fields ==> StrToUl(buf[u.data[Port].off..] + beyond) <= 0xffff)
  {
    hide FirstFields, UrlState, HostAccepted, SpanOf, LeadingDigits, Decimal, Tiles, Rehosted, HostText, CallsForHost;
    TilesExactly(at, u);
    TilesFields(at, u);
    assert at == FieldsOf(isConnect, buf);
    if isConnect {
      assert u.fields == {Host, Port} <==> forall f: UrlField :: f in u.fields <==> f == Host || f == Port;
    }
  }

  lemma TilesPort(at: seq<Option<UrlField>>, u: Url, v: nat)
    requires Tiles(at, u)
    ensures Tiles(at, u.(port := v))
  {}

  // ---- URLs without an authority ----

  lemma OriginStays(s: State, ch: char)
    ensures var t := ParseUrlChar(s, ch);
      (UrlRank(s) >= 5 && t != SDead ==> UrlRank(t) >= 5)
      && (s == SReqSpacesBeforeUrl && (ch == '/' || ch == '*') ==> UrlRank(t) >= 5)
      && (FieldOf(t).Some? ==> Order(FieldOf(t).value) == UrlRank(t))
  {
    hide IsAlpha, IsUserinfoChar, IsUrlChar;
  }

  lemma {:induction false} OriginFields(buf: string, i: nat)
    requires 1 <= i <= |buf| && (buf[0] == '/' || buf[0] == '*')
    ensures var s := UrlState(SReqSpacesBeforeUrl, buf[..i]); s == SDead || UrlRank(s) >= 5
    ensures UrlState(SReqSpacesBeforeUrl, buf[..i]) != SDead ==>
      forall f | Some(f) in FieldsUpTo(SReqSpacesBeforeUrl, buf, i) :: Order(f) >= 5
  {
    hide ParseUrlChar, UrlRank, Order, UrlState, FieldOf;
    StateMore(SReqSpacesBeforeUrl, buf, i - 1);
    OriginStays(UrlState(SReqSpacesBeforeUrl, buf[..i - 1]), buf[i - 1]);
    if i == 1 {
      assert buf[..0] == "";
      NothingParsed();
    } else {
      OriginFields(buf, i - 1);
    }
  }

  lemma NothingParsed()
    ensures UrlState(SReqSpacesBeforeUrl, "") == SReqSpacesBeforeUrl
  {}

  /** A URL that starts with its path, or with an asterisk, is accepted if parse_url_char gets
      through it: nothing else is asked of it. */
  lemma OriginAccepted(buf: string, beyond: string)
    requires buf != "" && (buf[0] == '/' || buf[0] == '*')
    ensures Accepts(false, buf, beyond) <==> UrlState(SReqSpacesBeforeUrl, buf) != SDead
  {
    hide UrlState, FieldsUpTo, SpanOf, HostAccepted, LeadingDigits, Decimal;
    assert buf[..|buf|] == buf;
    if UrlState(SReqSpacesBeforeUrl, buf) != SDead {
      OriginFields(buf, |buf|);
      var at := FirstFields(false, buf);
      assert Order(Schema) < 5 && Order(Host) < 5 && Order(Port) < 5;
    }
  }

  // ---- the port and its slice ----

  lemma {:induction false} DigitsThenAll(digits: string, rest: string)
    requires forall c | c in digits :: IsNum(c)
    ensures LeadingDigits(digits + rest) == digits + LeadingDigits(rest)
    decreases |digits|
  {
    if digits == "" {
      assert digits + rest == rest;
    } else {
      assert digits[0] in digits && forall c | c in digits[1..] :: c in digits;
      assert (digits + rest)[1..] == digits[1..] + rest;
      DigitsThenAll(digits[1..], rest);
      assert digits == [digits[0]] + digits[1..];
    }
  }

  lemma AllNum(a: string, b: string)
    requires (forall c | c in a :: IsNum(c)) && (forall c | c in b :: IsNum(c))
    ensures forall c | c in a + b :: IsNum(c)
  {}

  // One digit more makes a number ten times as large, and something
  lemma DecimalStep(digits: string, c: char)
    requires forall x | x in digits + [c] :: IsNum(x)
    ensures (forall x | x in digits :: IsNum(x)) && IsNum(c)
    ensures Decimal(digits + [c]) == Decimal(digits) * 10 + Digit(c)
  {
    var w := digits + [c];
    assert c in w && forall x | x in digits :: x in w;
    var ds := seq(|w|, i requires 0 <= i < |w| => assert w[i] in w; Digit(w[i]));
    assert ds[..|w| - 1] == seq(|digits|, i requires 0 <= i < |digits| => assert digits[i] in digits; Digit(digits[i]));
  }

  // More digits leave a number as it is only if there are none, or all is zero
  lemma {:induction false} DecimalGrows(a: string, b: string)
    requires (forall c | c in a :: IsNum(c)) && (forall c | c in b :: IsNum(c))
    ensures (forall c | c in a + b :: IsNum(c)) && Decimal(a + b) >= Decimal(a) && Decimal(a + b) >= Decimal(b)
    ensures b != "" && Decimal(a) > 0 ==> Decimal(a + b) > Decimal(a)
    ensures Decimal(a) == 0 ==> Decimal(a + b) == Decimal(b)
    decreases |b|
  {
    hide Decimal, IsNum;
    AllNum(a, b);
    if b == "" {
      assert a + b == a;
      NoDigits();
    } else {
      var front, c := b[..|b| - 1], b[|b| - 1];
      assert b == front + [c] && a + b == (a + front) + [c] && forall x | x in front :: x in b;
      DecimalGrows(a, front);
      DecimalStep(front, c);
      DecimalStep(a + front, c);
    }
  }

  lemma NoDigits()
    ensures Decimal("") == 0
  {}

  /** The port is the number written in its slice exactly if a byte of the URL follows it, or the
      memory behind the URL does not go on with a digit, or all these digits and the port are 0. */
  lemma PortIsItsSlice(buf: string, u: Url, beyond: string)
    requires SplitsUrl(buf, u) && Port in u.fields
    ensures var d := u.data[Port]; var text, more := Slice(buf, d), LeadingDigits(beyond);
      && (forall c | c in text :: IsNum(c))
      && (Decimal(LeadingDigits(buf[d.off..] + beyond)) == Decimal(text)
          <==> d.off + d.len < |buf| || more == "" || (Decimal(text) == 0 && Decimal(more) == 0))
  {
    hide InOrder, IsDelimiter, Decimal;
    var d := u.data[Port];
    var text, rest, more := Slice(buf, d), buf[d.off + d.len..], LeadingDigits(beyond);
    assert buf[d.off..] + beyond == text + (rest + beyond);
    DigitsThenAll(text, rest + beyond);
    if rest != "" {
      assert (rest + beyond)[0] == rest[0];
      assert text + "" == text;
    } else {
      assert rest + beyond == beyond;
      DecimalGrows(text, more);
      if more == "" { assert text + more == text; }
    }
  }
}
