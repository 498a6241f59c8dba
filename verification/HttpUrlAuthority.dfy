/** Authorities: the texts that `http_parse_host` accepts, and the parts it finds in them. */
module HttpUrlAuthority {
  import opened Wrappers
  import opened HttpTypes
  import opened HttpUrl
  import opened HttpUrlSegments
  import opened HttpUrlOutline

  datatype Authority = Authority(userinfo: Option<string>, host: string, isV6: bool, port: Option<string>)

  function AuthorityText(a: Authority): string {
    (match a.userinfo case Some(u) => u + "@" case None => "")
    + (if a.isV6 then "[" + a.host + "]" else a.host)
    + (match a.port case Some(d) => ":" + d case None => "")
  }

  predicate IsV6Char(c: char) { IsHex(c) || c == ':' || c == '.' }

  predicate IsAuthority(a: Authority) {
    && (a.userinfo.Some? ==> AllAre(a.userinfo.value, IsUserinfoChar))
    && a.host != "" && AllAre(a.host, if a.isV6 then IsV6Char else IsHostChar)
    && (a.port.Some? ==> a.port.value != "" && AllAre(a.port.value, IsNum))
  }

  // ---- an authority ----

  function AuthoritySegments(a: Authority): seq<Segment> {
    [Segment(Some(Userinfo), OrNothing(a.userinfo)), Segment(None, if a.userinfo.Some? then "@" else ""),
     Segment(None, if a.isV6 then "[" else ""), Segment(Some(Host), a.host), Segment(None, if a.isV6 then "]" else ""),
     Segment(None, if a.port.Some? then ":" else ""), Segment(Some(Port), OrNothing(a.port))]
  }

  function AuthorityStates(a: Authority): seq<HostState> {
    var s0 := if a.userinfo.Some? then UserinfoStart else HostStart;
    var s1 := if OrNothing(a.userinfo) != "" then InUserinfo else s0;
    var s3 := if a.isV6 then V6Start else HostStart;
    var s4 := if a.isV6 then InV6 else InHost;
    var s5 := if a.isV6 then V6End else InHost;
    var s6 := if a.port.Some? then PortStart else s5;
    [s0, s1, HostStart, s3, s4, s5, s6, if a.port.Some? then InPort else s5]
  }

  lemma SevenTexts(a: Segment, b: Segment, c: Segment, d: Segment, e: Segment, f: Segment, g: Segment)
    ensures TextOf([a, b, c, d, e, f, g]) == a.text + (b.text + (c.text + (d.text + (e.text + (f.text + g.text)))))
  {
    hide TextOf;
    OneSegment(g);
    TextBefore(f, [g]);
    TextBefore(e, [f, g]);
    TextBefore(d, [e, f, g]);
    TextBefore(c, [d, e, f, g]);
    TextBefore(b, [c, d, e, f, g]);
    TextBefore(a, [b, c, d, e, f, g]);
    assert [f] + [g] == [f, g] && [e] + [f, g] == [e, f, g] && [d] + [e, f, g] == [d, e, f, g];
    assert [c] + [d, e, f, g] == [c, d, e, f, g] && [b] + [c, d, e, f, g] == [b, c, d, e, f, g];
    assert [a] + [b, c, d, e, f, g] == [a, b, c, d, e, f, g];
  }

  lemma InThree(a: string, b: string, c: string, d: string, e: string, f: string, g: string)
    ensures a + (b + (c + (d + (e + (f + g))))) == (a + b) + (c + d + e) + (f + g)
  {}

  lemma UserinfoText(a: Authority)
    ensures OrNothing(a.userinfo) + (if a.userinfo.Some? then "@" else "") ==
      match a.userinfo case Some(u) => u + "@" case None => ""
  {}

  lemma NameText(a: Authority)
    ensures (if a.isV6 then "[" else "") + a.host + (if a.isV6 then "]" else "") ==
      if a.isV6 then "[" + a.host + "]" else a.host
  {}

  lemma PortText(a: Authority)
    ensures (if a.port.Some? then ":" else "") + OrNothing(a.port) ==
      match a.port case Some(d) => ":" + d case None => ""
  {}

  lemma AuthorityTextIs(a: Authority)
    ensures TextOf(AuthoritySegments(a)) == AuthorityText(a)
  {
    var gs := AuthoritySegments(a);
    SevenTexts(gs[0], gs[1], gs[2], gs[3], gs[4], gs[5], gs[6]);
    hide TextOf;
    InThree(gs[0].text, gs[1].text, gs[2].text, gs[3].text, gs[4].text, gs[5].text, gs[6].text);
    UserinfoText(a);
    NameText(a);
    PortText(a);
  }

  lemma UserinfoGoes(u: string)
    requires u != "" && AllAre(u, IsUserinfoChar)
    ensures HostGoes(UserinfoStart, u, Some(Userinfo), InUserinfo)
  {
    HostStretch(UserinfoStart, u, InUserinfo);
  }

  lemma NameGoes(host: string, isV6: bool)
    requires host != "" && AllAre(host, if isV6 then IsV6Char else IsHostChar)
    ensures HostGoes(if isV6 then V6Start else HostStart, host, Some(Host), if isV6 then InV6 else InHost)
  {
    hide IsHex, IsAlpha, IsNum;
    HostStretch(if isV6 then V6Start else HostStart, host, if isV6 then InV6 else InHost) by { NameChars(host, isV6); }
  }

  lemma NameChars(host: string, isV6: bool)
    requires AllAre(host, if isV6 then IsV6Char else IsHostChar)
    ensures var s, t := if isV6 then V6Start else HostStart, if isV6 then InV6 else InHost;
      forall i :: 0 <= i < |host| ==> ParseHostChar(s, host[i]) == t && ParseHostChar(t, host[i]) == t
  {
    if isV6 {
      forall i | 0 <= i < |host| ensures IsV6Char(host[i]) {}
    } else {
      forall i | 0 <= i < |host| ensures IsHostChar(host[i]) {}
    }
  }

  lemma PortGoes(d: string)
    requires d != "" && AllAre(d, IsNum)
    ensures HostGoes(PortStart, d, Some(Port), InPort)
  {
    HostStretch(PortStart, d, InPort);
  }

  lemma OneGoes(s: HostState, ch: char, t: HostState)
    requires s != HostDead && ParseHostChar(s, ch) == t && t != HostDead && HostFieldOf(t) == None
    ensures HostGoes(s, [ch], None, t)
  {
    OneHosted(s, ch);
  }

  lemma AuthorityChain(a: Authority)
    requires IsAuthority(a)
    ensures HostChain(AuthoritySegments(a), AuthorityStates(a))
  {
    hide HostGoes, AllAre;
    var gs, ss := AuthoritySegments(a), AuthorityStates(a);
    assert HostGoes(ss[0], gs[0].text, gs[0].field, ss[1]) by {
      if OrNothing(a.userinfo) != "" { UserinfoGoes(a.userinfo.value); } else { EmptyHosted(ss[0], Some(Userinfo)); }
    }
    assert HostGoes(ss[1], gs[1].text, None, ss[2]) by {
      if a.userinfo.Some? { OneGoes(ss[1], '@', HostStart); } else { EmptyHosted(HostStart, None); }
    }
    assert HostGoes(ss[2], gs[2].text, None, ss[3]) by {
      if a.isV6 { OneGoes(HostStart, '[', V6Start); } else { EmptyHosted(HostStart, None); }
    }
    NameGoes(a.host, a.isV6);
    assert HostGoes(ss[4], gs[4].text, None, ss[5]) by {
      if a.isV6 { OneGoes(InV6, ']', V6End); } else { EmptyHosted(InHost, None); }
    }
    assert HostGoes(ss[5], gs[5].text, None, ss[6]) by {
      if a.port.Some? { ColonGoes(ss[5]); } else { EmptyHosted(ss[5], None); }
    }
    assert HostGoes(ss[6], gs[6].text, Some(Port), ss[7]) by {
      if a.port.Some? { PortGoes(a.port.value); } else { EmptyHosted(ss[6], Some(Port)); }
    }
  }

  lemma ColonGoes(s: HostState)
    requires s == InHost || s == V6End
    ensures HostGoes(s, ":", None, PortStart)
  {
    hide IsAlpha, IsNum;
    OneGoes(s, ':', PortStart) by { ColonEndsHost(s); }
  }

  lemma ColonEndsHost(s: HostState)
    requires s == InHost || s == V6End
    ensures ParseHostChar(s, ':') == PortStart
  {}

  lemma HostPartIs(r: Reading)
    requires r.open <==> r.closed
    requires !r.colon ==> r.port == ""
    ensures HostPart(r) == r.host + ((if r.open then "]" else "") + (if r.colon then ":" + r.port else ""))
  {}

  lemma ThreeParts(u: string, a: string, h: string, b: string, c: string)
    ensures u + (a + (h + (b + c))) == u + (a + h + b) + c
  {}

  lemma BareHost(h: string)
    ensures "" + h + "" == h
  {}

  lemma ReadText(r: Reading)
    requires r.open <==> r.closed
    requires !r.colon ==> r.port == ""
    ensures ReadingText(r) ==
      (r.user + (if r.at then "@" else "")) + (if r.open then "[" + r.host + "]" else r.host)
      + (if r.colon then ":" + r.port else "")
  {
    var u, c := r.user + (if r.at then "@" else ""), if r.colon then ":" + r.port else "";
    HostPartIs(r);
    hide HostPart;
    ThreeParts(u, if r.open then "[" else "", r.host, if r.open then "]" else "", c);
    assert r.user + ((if r.at then "@" else "") + ((if r.open then "[" else "") + HostPart(r)))
        == u + ((if r.open then "[" else "") + HostPart(r));
    BareHost(r.host);
  }

  lemma ReadWhole(found: bool, r: Reading)
    requires IsReading(found, r)
    requires var s := ReadState(found, r); s == InHost || s == V6End || s == InPort
    ensures (found <==> r.at) && (r.open <==> r.closed) && r.host != "" && (r.colon <==> r.port != "")
    ensures (found ==> AllAre(r.user, IsUserinfoChar)) && (!found ==> r.user == "") && AllAre(r.port, IsNum)
    ensures AllAre(r.host, if r.open then IsV6Char else IsHostChar)
  {
    hide AllAre;
  }

  // What has been read when a host field ends well
  lemma ReadAuthority(found: bool, r: Reading)
    requires IsReading(found, r)
    requires var s := ReadState(found, r); s == InHost || s == V6End || s == InPort
    ensures
      var a := Authority(if found then Some(r.user) else None, r.host, r.open, if r.colon then Some(r.port) else None);
      IsAuthority(a) && AuthorityText(a) == ReadingText(r)
  {
    ReadWhole(found, r);
    ReadText(r);
    hide AllAre, IsReading, ReadState, ReadingText;
    if !found { assert r.user == ""; }
  }

  /** http_parse_host accepts an authority and divides it up as it was put together. */
  lemma AuthorityRead(a: Authority)
    requires IsAuthority(a)
    ensures var start := if a.userinfo.Some? then UserinfoStart else HostStart; var text := AuthorityText(a);
      HostTags(start, text) == TagsOf(AuthoritySegments(a)) && HostAccepted(a.userinfo.Some?, text)
  {
    hide HostTags, HostStateAt, TagsOf, HostGoes;
    AuthorityChain(a);
    AuthorityTextIs(a);
    HostChainRun(AuthoritySegments(a), AuthorityStates(a));
  }

  // Exactly the userinfo brings an @ with it
  lemma AtIsUserinfo(a: Authority)
    requires IsAuthority(a)
    ensures '@' in AuthorityText(a) <==> a.userinfo.Some?
  {
    NoAt(a.host, if a.isV6 then IsV6Char else IsHostChar);
    if a.port.Some? { NoAt(a.port.value, IsNum); }
    match a.userinfo
    case Some(u) =>
      assert AuthorityText(a)[|u|] == '@';
    case None =>
  }

  lemma NoAt(w: string, p: char -> bool)
    requires AllAre(w, p) && !p('@')
    ensures '@' !in w
  {}

  // ---- an authority is one piece to the first pass ----

  lemma HasAuthority(a: Authority)
    requires IsAuthority(a)
    ensures AuthorityText(a) != ""
  {}

  // What stands behind the userinfo
  function HostAndPort(a: Authority): string {
    (if a.isV6 then "[" + a.host + "]" else a.host) + (match a.port case Some(d) => ":" + d case None => "")
  }

  lemma HostAndPortInServer(a: Authority)
    requires IsAuthority(a)
    ensures HostAndPort(a) != "" && AllAre(HostAndPort(a), InServer)
  {
    forall i | 0 <= i < |a.host| ensures InServer(a.host[i]) {
      if a.isV6 { assert IsV6Char(a.host[i]); } else { assert IsHostChar(a.host[i]); }
    }
    if a.port.Some? {
      forall i | 0 <= i < |a.port.value| ensures InServer(a.port.value[i]) { assert IsNum(a.port.value[i]); }
    }
    hide IsUserinfoChar;
  }

  lemma AuthorityIsServer(a: Authority)
    requires IsAuthority(a)
    ensures IsServer(AuthorityText(a))
  {
    HostAndPortInServer(a);
    var w := HostAndPort(a);
    assert !InServer('@');
    hide IsUserinfoChar;
    match a.userinfo
    case None => assert AuthorityText(a) == w;
    case Some(u) =>
      assert AuthorityText(a) == u + "@" + w;
      assert forall i :: 0 <= i < |u| ==> IsUserinfoChar(u[i]) && InServer(u[i]);
  }

  // ---- nothing else is accepted ----

  // As much of an authority as has been read: `at`, `open`, `closed` and `colon` say which of the
  // delimiters have
  datatype Reading = Reading(user: string, at: bool, open: bool, host: string, closed: bool, colon: bool, port: string)

  function ReadingText(r: Reading): string {
    r.user + ((if r.at then "@" else "") + ((if r.open then "[" else "") + HostPart(r)))
  }

  predicate IsReading(found: bool, r: Reading) {
    && (if found then AllAre(r.user, IsUserinfoChar) else r.user == "" && !r.at)
    && (found && !r.at ==> !r.open && r.host == "")
    && AllAre(r.host, if r.open then IsV6Char else IsHostChar)
    && (r.closed ==> r.open && r.host != "") && (r.colon ==> r.host != "" && (r.open ==> r.closed))
    && (r.port != "" ==> r.colon) && AllAre(r.port, IsNum)
  }

  function ReadState(found: bool, r: Reading): HostState {
    if r.port != "" then InPort else if r.colon then PortStart else if r.closed then V6End
    else if r.host != "" then (if r.open then InV6 else InHost)
    else if r.open then V6Start else if !found || r.at then HostStart
    else if r.user != "" then InUserinfo else UserinfoStart
  }

  function MoreRead(r: Reading, t: HostState, c: char): Reading {
    match t
    case HostStart => r.(at := true)
    case V6Start => r.(open := true)
    case InHost | InV6 => r.(host := r.host + [c])
    case V6End => r.(closed := true)
    case PortStart => r.(colon := true)
    case InPort => r.(port := r.port + [c])
    case _ => r.(user := r.user + [c])
  }

  lemma ReadMore(found: bool, r: Reading, c: char)
    requires IsReading(found, r) && ParseHostChar(ReadState(found, r), c) != HostDead
    ensures var t := ParseHostChar(ReadState(found, r), c); var x := MoreRead(r, t, c);
      IsReading(found, x) && ReadState(found, x) == t
  {
    var t := ParseHostChar(ReadState(found, r), c);
    if t == InUserinfo { AllMore(r.user, IsUserinfoChar, c); }
    if t == InHost { AllMore(r.host, IsHostChar, c); }
    if t == InV6 { AllMore(r.host, IsV6Char, c); }
    if t == InPort { AllMore(r.port, IsNum, c); }
    hide AllAre, IsUserinfoChar, IsHostChar, IsHex, IsNum;
  }

  // Nothing has been read behind the part that t belongs to
  predicate ReadUpTo(r: Reading, t: HostState) {
    && r.port == (if t == InPort then r.port else "")
    && (t != InPort ==> !r.colon)
    && (t != InPort && t != PortStart ==> !r.closed)
    && (t == V6Start || t == HostStart || t == InUserinfo ==> r.host == "" && !r.open)
    && (t == HostStart || t == InUserinfo ==> !r.at)
  }

  lemma ReadInOrder(found: bool, r: Reading, c: char)
    requires IsReading(found, r) && ParseHostChar(ReadState(found, r), c) != HostDead
    ensures var t := ParseHostChar(ReadState(found, r), c);
      && ReadUpTo(r, t) && t != UserinfoStart
      && (t == HostStart ==> c == '@') && (t == V6Start ==> c == '[') && (t == V6End ==> c == ']')
      && (t == PortStart ==> c == ':')
  {
    hide AllAre, IsUserinfoChar, IsHostChar, IsHex, IsNum;
  }

  lemma TextRead(found: bool, r: Reading, c: char)
    requires IsReading(found, r) && ParseHostChar(ReadState(found, r), c) != HostDead
    ensures ReadingText(MoreRead(r, ParseHostChar(ReadState(found, r), c), c)) == ReadingText(r) + [c]
  {
    ReadInOrder(found, r, c);
    var t := ParseHostChar(ReadState(found, r), c);
    hide ParseHostChar, IsReading, ReadState, MoreRead, ReadUpTo, HostPart;
    if t == InHost || t == InV6 || t == V6End || t == PortStart || t == InPort {
      HostTextRead(r, t, c);
    } else {
      UserTextRead(r, t, c);
    }
  }

  lemma UserTextRead(r: Reading, t: HostState, c: char)
    requires ReadUpTo(r, t) && (t == HostStart ==> c == '@') && (t == V6Start ==> c == '[')
    requires t == InUserinfo || t == HostStart || t == V6Start
    ensures ReadingText(MoreRead(r, t, c)) == ReadingText(r) + [c]
  {
    assert HostPart(r) == HostPart(MoreRead(r, t, c)) == "";
    hide HostPart;
  }

  function HostPart(r: Reading): string {
    r.host + ((if r.closed then "]" else "") + ((if r.colon then ":" else "") + r.port))
  }

  lemma HostTextRead(r: Reading, t: HostState, c: char)
    requires ReadUpTo(r, t) && (t == V6End ==> c == ']') && (t == PortStart ==> c == ':')
    requires t == InHost || t == InV6 || t == V6End || t == PortStart || t == InPort
    ensures var x := MoreRead(r, t, c);
      && x == r.(host := x.host, closed := x.closed, colon := x.colon, port := x.port)
      && HostPart(x) == HostPart(r) + [c]
  {
    var x := MoreRead(r, t, c);
    if t == InPort {
      assert x.port == r.port + [c];
    } else {
      assert r.port == "";
      if t == InHost || t == InV6 { assert HostPart(r) == r.host + ("" + ("" + "")) == r.host; }
    }
  }

  const UNREAD: Reading := Reading("", false, false, "", false, false, "")

  lemma {:induction false} ReadingOf(found: bool, text: string) returns (r: Reading)
    requires HostStateAt(if found then UserinfoStart else HostStart, text) != HostDead
    ensures IsReading(found, r) && ReadingText(r) == text
    ensures ReadState(found, r) == HostStateAt(if found then UserinfoStart else HostStart, text)
    decreases |text|
  {
    hide ParseHostChar, AllAre, IsReading, ReadState, ReadingText;
    if text == "" {
      r := UNREAD;
      UnreadIs(found);
    } else {
      var front, c := text[..|text| - 1], text[|text| - 1];
      var x := ReadingOf(found, front);
      ReadMore(found, x, c);
      TextRead(found, x, c);
      r := MoreRead(x, ParseHostChar(ReadState(found, x), c), c);
    }
  }

  lemma UnreadIs(found: bool)
    ensures IsReading(found, UNREAD) && ReadState(found, UNREAD) == (if found then UserinfoStart else HostStart)
    ensures ReadingText(UNREAD) == ""
  {}

  /** The converse: whatever http_parse_host accepts is an authority. */
  lemma AuthorityOf(found: bool, text: string) returns (a: Authority)
    requires HostAccepted(found, text)
    ensures IsAuthority(a) && AuthorityText(a) == text && (a.userinfo.Some? <==> found)
  {
    hide HostStateAt, AllAre;
    var r := ReadingOf(found, text);
    a := Authority(if found then Some(r.user) else None, r.host, r.open, if r.colon then Some(r.port) else None);
    ReadAuthority(found, r);
  }
}
