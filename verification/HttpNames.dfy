/** The header keyword automata are exact: at the colon the parser knows the header name
    as one of its keywords exactly if the lower-cased name is that keyword. */
module HttpNames {
  import opened Wrappers
  import opened HttpTypes
  import opened HttpSwitch
  import opened HttpRun
  import opened HttpMarks
  import opened HttpReading

  // A header name of section 2.2 of RFC 2616, and its lower-cased form
  predicate IsName(name: string) { name != "" && forall c | c in name :: Token(c) != '\0' }

  function Lowered(name: string): string { seq(|name|, i requires 0 <= i < |name| => Token(name[i])) }

  // What a complete name means to the parser
  function Meaning(t: string): HeaderState {
    if t == CONNECTION || t == PROXY_CONNECTION then HConnection
    else if t == CONTENT_LENGTH then HContentLength
    else if t == TRANSFER_ENCODING then HTransferEncoding
    else if t == UPGRADE then HUpgrade
    else HGeneral
  }

  // The automaton state after the lower-cased characters t of a name
  function NameClass(t: string): HeaderState {
    if Meaning(t) != HGeneral then Meaning(t)
    else if t <= CONNECTION && t <= CONTENT_LENGTH then
      if |t| == 1 then HC else if |t| == 2 then HCO else HCON
    else if t <= CONNECTION then HMatchingConnection
    else if t <= CONTENT_LENGTH then HMatchingContentLength
    else if t <= PROXY_CONNECTION then HMatchingProxyConnection
    else if t <= TRANSFER_ENCODING then HMatchingTransferEncoding
    else if t <= UPGRADE then HMatchingUpgrade
    else HGeneral
  }

  predicate Partial(h: HeaderState) {
    h != HGeneral && h != HConnection && h != HContentLength && h != HTransferEncoding && h != HUpgrade
  }

  // The parser has read the name characters t
  predicate Tracks(p: Parser, t: string) {
    p.headerState == NameClass(t) && (Partial(p.headerState) ==> p.index == |t| - 1)
  }

  lemma PrefixStep(keyword: string, t: string, c: char)
    ensures t + [c] <= keyword <==> t <= keyword && |t| < |keyword| && keyword[|t|] == c
    ensures t + [c] == keyword <==> t <= keyword && |t| == |keyword| - 1 && keyword[|t|] == c
    ensures t == keyword ==> !(t + [c] <= keyword)
  {}

  lemma KeywordFacts()
    ensures |CONNECTION| == 10 && CONNECTION[0] == 'c' && CONNECTION[1] == 'o' && CONNECTION[2] == 'n'
            && CONNECTION[3] == 'n'
    ensures |CONTENT_LENGTH| == 14 && CONTENT_LENGTH[0] == 'c' && CONTENT_LENGTH[1] == 'o' && CONTENT_LENGTH[2] == 'n'
         && CONTENT_LENGTH[3] == 't'
    ensures |PROXY_CONNECTION| == 16 && PROXY_CONNECTION[0] == 'p'
    ensures |TRANSFER_ENCODING| == 17 && TRANSFER_ENCODING[0] == 't'
    ensures |UPGRADE| == 7 && UPGRADE[0] == 'u'
  {}

  lemma NameStep(p: Parser, t: string, c: char)
    requires t != "" && Tracks(p, t) && c != ' ' && c != '\0'
    ensures NameChar(p, c).Some? && Tracks(NameChar(p, c).value, t + [c])
  {
    hide CONNECTION, CONTENT_LENGTH, PROXY_CONNECTION, TRANSFER_ENCODING, UPGRADE;
    KeywordFacts();
    PrefixStep(CONNECTION, t, c);
    PrefixStep(CONTENT_LENGTH, t, c);
    PrefixStep(PROXY_CONNECTION, t, c);
    PrefixStep(TRANSFER_ENCODING, t, c);
    PrefixStep(UPGRADE, t, c);
  }

  // The parser at the start of a header line that may use n more header bytes
  predicate AtField(p: Parser, n: nat) { p.state == SHeaderFieldStart && p.errno == OK && Room(p, n) }

  lemma FirstNameStep(p: Parser, ch: char)
    requires AtField(p, 1) && Token(ch) != '\0'
    ensures var q := p.(state := SHeaderField, headerState := NameClass([Token(ch)]), index := 0, nread := p.nread + 1);
            Steps(p, ch, q, [Byte(HeaderField, ch)]) && Tracks(q, [Token(ch)])
  {
    hide Switch;
    FirstClass(Token(ch));
    var q := p.(state := SHeaderField, headerState := FirstNameState(Token(ch)), index := 0, nread := p.nread + 1);
    NotBreak(ch);
    hide Token, NameClass, Meaning;
    NameDispatch(p.(nread := p.nread + 1), ch);
    StepsNext(p, ch, q, [Mark(HeaderField)]);
    assert Notes([Mark(HeaderField)]) == [] && Kept(SHeaderField, ch) == [Byte(HeaderField, ch)];
  }

  lemma NotBreak(ch: char)
    requires Token(ch) != '\0'
    ensures ch != CR && ch != LF && ch != ' ' && ch != ':'
  {}

  lemma FirstClass(c: char)
    ensures FirstNameState(c) == NameClass([c])
  {
    hide CONNECTION, CONTENT_LENGTH, PROXY_CONNECTION, TRANSFER_ENCODING, UPGRADE;
    KeywordFacts();
  }

  lemma MoreNameStep(p: Parser, t: string, ch: char)
    requires p.state == SHeaderField && p.errno == OK && Room(p, 1)
    requires t != "" && Tracks(p, t) && Token(ch) != '\0' && Token(ch) != ' '
    ensures var q := NameChar(p.(nread := p.nread + 1), Token(ch));
            q.Some? && Steps(p, ch, q.value, [Byte(HeaderField, ch)]) && Tracks(q.value, t + [Token(ch)])
            && q.value == p.(headerState := NameClass(t + [Token(ch)]), index := q.value.index, nread := p.nread + 1)
  {
    hide Switch;
    var c := p.(nread := p.nread + 1);
    hide NameClass, Token;
    NameStep(c, t, Token(ch));
    OnlyClass(c, Token(ch));
    hide NameChar;
    NameDispatch(p.(nread := p.nread + 1), ch);
    StepsNext(p, ch, NameChar(c, Token(ch)).value, []);
  }

  lemma OnlyClass(p: Parser, c: char)
    ensures var r := NameChar(p, c);
      r.Some? ==> r.value == p.(index := r.value.index, headerState := r.value.headerState)
  {}

  lemma NameRun(p: Parser, name: string) returns (q: Parser)
    requires AtField(p, |name|) && IsName(name)
    ensures Reads(p, name, q, Bytes(HeaderField, name)) && Tracks(q, Lowered(name))
    ensures q == p.(state := SHeaderField, headerState := NameClass(Lowered(name)), index := q.index,
                    nread := p.nread + |name|)
    decreases |name|
  {
    hide Run, ByteStep, NameClass, Token;
    if |name| == 1 {
      var ch := name[0];
      assert ch in name && name == [ch] && Lowered(name) == [Token(ch)];
      FirstNameStep(p, ch);
      q := p.(state := SHeaderField, headerState := NameClass([Token(ch)]), index := 0, nread := p.nread + 1);
      ReadsByte(p, ch, q, [Byte(HeaderField, ch)]);
      assert Bytes(HeaderField, name) == [Byte(HeaderField, ch)];
    } else {
      var front, ch := name[..|name| - 1], name[|name| - 1];
      assert name == front + [ch] && ch in name && forall c | c in front :: c in name;
      var q0 := NameRun(p, front);
      TokenNotSpace(ch);
      MoreNameStep(q0, Lowered(front), ch);
      q := NameChar(q0.(nread := q0.nread + 1), Token(ch)).value;
      ReadsMore(p, front, q0, Bytes(HeaderField, front), ch, q, [Byte(HeaderField, ch)]);
      assert Lowered(name) == Lowered(front) + [Token(ch)];
      assert Bytes(HeaderField, name) == Bytes(HeaderField, front) + [Byte(HeaderField, ch)];
    }
  }

  lemma TokenNotSpace(ch: char)
    ensures Token(ch) != ' '
  {}

  lemma ColonStep(p: Parser)
    requires p.state == SHeaderField && p.errno == OK && Room(p, 1)
    ensures Steps(p, ':', p.(state := SHeaderValueStart, nread := p.nread + 1), [Ended(HeaderField)])
  {
    hide Switch, NameChar;
    OneFlush(HeaderField);
    NameDispatch(p.(nread := p.nread + 1), ':');
    StepsNext(p, ':', p.(state := SHeaderValueStart, nread := p.nread + 1), [Flush(HeaderField)]);
  }

  /** For every token string: at the colon header_state is h_connection, h_content_length,
      h_transfer_encoding or h_upgrade exactly if the lower-cased name is the keyword of
      that state, and the name has been handed out byte for byte. */
  lemma NameExact(p: Parser, name: string) returns (q: Parser)
    requires AtField(p, |name| + 1) && IsName(name)
    ensures Reads(p, name + ":", q, Whole(HeaderField, name))
    ensures q == p.(state := SHeaderValueStart, headerState := q.headerState, index := q.index,
                    nread := p.nread + |name| + 1)
    ensures q.headerState == HConnection <==> Lowered(name) == CONNECTION || Lowered(name) == PROXY_CONNECTION
    ensures q.headerState == HContentLength <==> Lowered(name) == CONTENT_LENGTH
    ensures q.headerState == HTransferEncoding <==> Lowered(name) == TRANSFER_ENCODING
    ensures q.headerState == HUpgrade <==> Lowered(name) == UPGRADE
    ensures !ValueOnly(q.headerState)
  {
    hide Run, ByteStep, Token;
    var q0 := NameRun(p, name);
    ColonStep(q0);
    q := q0.(state := SHeaderValueStart, nread := q0.nread + 1);
    ReadsMore(p, name, q0, Bytes(HeaderField, name), ':', q, [Ended(HeaderField)]);
    ClassMeaning(Lowered(name));
  }

  lemma NoFirstToken(p: Parser, ch: char)
    requires AtField(p, 1) && Token(ch) == '\0' && ch != CR && ch != LF
    ensures ByteStep(p, ch).end == Error && ByteStep(p, ch).p.errno == InvalidHeaderToken
  {
    hide Switch, Token;
    NameDispatch(p.(nread := p.nread + 1), ch);
    StepsFail(p, ch, InvalidHeaderToken);
  }

  lemma NoMoreToken(p: Parser, ch: char)
    requires p.state == SHeaderField && p.errno == OK && Room(p, 1)
    requires Token(ch) == '\0' && ch != ':' && ch != CR && ch != LF
    ensures ByteStep(p, ch).end == Error && ByteStep(p, ch).p.errno == InvalidHeaderToken
  {
    hide Switch, Token, NameChar;
    NameDispatch(p.(nread := p.nread + 1), ch);
    StepsFail(p, ch, InvalidHeaderToken);
  }

  // Bytes up to where a header name may end
  predicate NoNameEnd(w: string) { forall i :: 0 <= i < |w| ==> w[i] != ':' && w[i] != CR && w[i] != LF }

  /** Whatever stands in front of a colon or the end of the line is taken for a header name exactly
      if it is a token; anything else is HPE_INVALID_HEADER_TOKEN. */
  lemma {:induction false} NameDecided(p: Parser, w: string)
    requires AtField(p, |w|) && w != "" && NoNameEnd(w)
    ensures var o := Run(p, w);
      if IsName(w) then o.end == Ready && o.p.state == SHeaderField && o.trace == Bytes(HeaderField, w)
      else o.end == Error && o.p.errno == InvalidHeaderToken
    decreases |w|
  {
    hide Run, ByteStep, Token, NameClass;
    if IsName(w) {
      var q := NameRun(p, w);
    } else {
      var front, ch := w[..|w| - 1], w[|w| - 1];
      assert w == front + [ch];
      if front == "" {
        assert w == [ch];
        NoFirstToken(p, ch);
        OneByte(p, ch);
      } else if IsName(front) {
        var q := NameRun(p, front);
        NoMoreToken(q, ch);
        ReadsThenFails(p, front, q, Bytes(HeaderField, front), ch);
      } else {
        NameDecided(p, front);
        RunSplit(p, front, [ch]);
      }
    }
  }

  // Header states that only a header value can bring about
  predicate ValueOnly(h: HeaderState) {
    h == HMatchingTransferEncodingChunked || h == HMatchingConnectionKeepAlive || h == HMatchingConnectionClose
    || h == HTransferEncodingChunked || h == HConnectionKeepAlive || h == HConnectionClose
  }

  lemma ClassMeaning(t: string)
    ensures var h := NameClass(t);
      && !ValueOnly(h)
      && (h == HConnection <==> t == CONNECTION || t == PROXY_CONNECTION)
      && (h == HContentLength <==> t == CONTENT_LENGTH)
      && (h == HTransferEncoding <==> t == TRANSFER_ENCODING)
      && (h == HUpgrade <==> t == UPGRADE)
  {
    hide CONNECTION, CONTENT_LENGTH, PROXY_CONNECTION, TRANSFER_ENCODING, UPGRADE;
    KeywordFacts();
  }
}
