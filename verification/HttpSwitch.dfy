/** The arms of the switch in `http_parser_execute`: what one visit to the current
    state does with one byte. An arm changes the parser, lists the mark and callback
    macros it runs, and says how it ends. */
module HttpSwitch {
  import opened Wrappers
  import opened HttpTypes

  // MARK(field), CALLBACK_DATA(field) (or its NOADVANCE form), CALLBACK_NOTIFY(note); a call that
  // ends inside a slice hands out what it has of it
  datatype Act = Mark(field: Field) | Flush(field: Field) | Notify(note: Note) | HandOut(field: Field)

  datatype Arm =
    | Next(p: Parser, acts: seq<Act>)   // break: on to the next byte
    | Again(p: Parser, acts: seq<Act>)  // goto reexecute_byte
    // MARK(body), then advance by toRead bytes in all; `closing` also runs the
    // inclusive body callback and reexecutes the last byte
    | Bulk(p: Parser, toRead: nat, closing: bool)
    | Leave(p: Parser, acts: seq<Act>)  // return (p - data) + 1
    | Fail(p: Parser)                   // SET_ERRNO, goto error
    | Abort                             // a failed assert

  function Err(p: Parser, e: Errno): Arm { Fail(p.(errno := e)) }

  // break into state s
  function Go(p: Parser, s: State): Arm { Next(p.(state := s), []) }

  // STRICT_CHECK(ch != want), then state s
  function Expect(p: Parser, ch: char, want: char, s: State): Arm {
    if ch != want then Err(p, Strict) else Go(p, s)
  }

  function StartArm(p: Parser, ch: char): Arm {
    match p.state
    case SDead =>
      if ch == CR || ch == LF then Next(p, []) else Err(p, ClosedConnection)
    case SStartReqOrRes =>
      if ch == CR || ch == LF then Next(p, [])
      else
        var q := p.(flags := NO_FLAGS, contentLength := ULLONG_MAX);
        if ch == 'H' then Next(q.(state := SResOrRespH), [Notify(MessageBegin)])
        else Again(q.(kind := Request, state := SStartReq), [])
    case SResOrRespH =>
      if ch == 'T' then Go(p.(kind := Response), SResHT)
      else if ch != 'E' then Err(p, InvalidConstant)
      else Go(p.(kind := Request, verb := HEAD, index := 2), SReqMethod)
    case SStartRes =>
      var q := p.(flags := NO_FLAGS, contentLength := ULLONG_MAX);
      if ch == 'H' then Next(q.(state := SResH), [Notify(MessageBegin)])
      else if ch == CR || ch == LF then Next(q, [Notify(MessageBegin)])
      else Err(q, InvalidConstant)
    case SStartReq =>
      if ch == CR || ch == LF then Next(p, [])
      else
        var q := p.(flags := NO_FLAGS, contentLength := ULLONG_MAX);
        if !IsAlpha(ch) then Err(q, InvalidMethod)
        else
          (match FirstMethod(ch)
           case None => Err(q.(verb := DELETE, index := 1), InvalidMethod)
           case Some(m) => Next(q.(verb := m, index := 1, state := SReqMethod), [Notify(MessageBegin)]))
    case _ => Abort
  }

  function FirstMethod(ch: char): Option<Method> {
    if ch == 'C' then Some(CONNECT) else if ch == 'D' then Some(DELETE)
    else if ch == 'G' then Some(GET) else if ch == 'H' then Some(HEAD)
    else if ch == 'L' then Some(LOCK) else if ch == 'M' then Some(MKCOL)
    else if ch == 'N' then Some(NOTIFY) else if ch == 'O' then Some(OPTIONS)
    else if ch == 'P' then Some(POST) else if ch == 'R' then Some(REPORT)
    else if ch == 'S' then Some(SUBSCRIBE) else if ch == 'T' then Some(TRACE)
    else if ch == 'U' then Some(UNLOCK) else None
  }

  // The method after reading ch at position `index`, or None for HPE_INVALID_METHOD
  function NextMethod(m: Method, index: nat, ch: char): Option<Method> {
    if ch == CharAt(NameOf(m), index) then Some(m)
    else if m == CONNECT then
      if index == 1 && ch == 'H' then Some(CHECKOUT)
      else if index == 2 && ch == 'P' then Some(COPY) else None
    else if m == MKCOL then
      if index == 1 && ch == 'O' then Some(MOVE)
      else if index == 1 && ch == 'E' then Some(MERGE)
      else if index == 1 && ch == '-' then Some(MSEARCH)
      else if index == 2 && ch == 'A' then Some(MKACTIVITY) else None
    else if m == SUBSCRIBE then
      if index == 1 && ch == 'E' then Some(SEARCH) else None
    else if index == 1 && m == POST then
      if ch == 'R' then Some(PROPFIND) else if ch == 'U' then Some(PUT)
      else if ch == 'A' then Some(PATCH) else None
    else if index == 2 then
      if m == PUT then (if ch == 'R' then Some(PURGE) else None)
      else if m == UNLOCK then (if ch == 'S' then Some(UNSUBSCRIBE) else None)
      else None
    else if index == 4 && m == PROPFIND && ch == 'P' then Some(PROPPATCH)
    else None
  }

  function MethodArm(p: Parser, ch: char): Arm {
    if ch == '\0' then Err(p, InvalidMethod)
    else if ch == ' ' && CharAt(NameOf(p.verb), p.index) == '\0' then
      Go(p.(index := p.index + 1), SReqSpacesBeforeUrl)
    else
      match NextMethod(p.verb, p.index, ch)
      case None => Err(p, InvalidMethod)
      case Some(m) => Next(p.(verb := m, index := p.index + 1), [])
  }

  // *10 + digit with the three-digit ceiling of the version and status numbers
  function ThreeDigits(n: nat, ch: char): (r: Option<nat>)
    requires IsNum(ch)
  {
    var v := n * 10 + Digit(ch);
    if v > 999 then None else Some(v)
  }

  function StatusLineArm(p: Parser, ch: char): Arm {
    match p.state
    case SResH => Expect(p, ch, 'T', SResHT)
    case SResHT => Expect(p, ch, 'T', SResHTT)
    case SResHTT => Expect(p, ch, 'P', SResHTTP)
    case SResHTTP => Expect(p, ch, '/', SResFirstHttpMajor)
    case SResFirstHttpMajor =>
      if !IsNum(ch) then Err(p, InvalidVersion) else Go(p.(httpMajor := Digit(ch)), SResHttpMajor)
    case SResHttpMajor =>
      if ch == '.' then Go(p, SResFirstHttpMinor)
      else if !IsNum(ch) then Err(p, InvalidVersion)
      else (match ThreeDigits(p.httpMajor, ch)
            case None => Err(p.(httpMajor := p.httpMajor * 10 + Digit(ch)), InvalidVersion)
            case Some(v) => Next(p.(httpMajor := v), []))
    case SResFirstHttpMinor =>
      if !IsNum(ch) then Err(p, InvalidVersion) else Go(p.(httpMinor := Digit(ch)), SResHttpMinor)
    case SResHttpMinor =>
      if ch == ' ' then Go(p, SResFirstStatusCode)
      else if !IsNum(ch) then Err(p, InvalidVersion)
      else (match ThreeDigits(p.httpMinor, ch)
            case None => Err(p.(httpMinor := p.httpMinor * 10 + Digit(ch)), InvalidVersion)
            case Some(v) => Next(p.(httpMinor := v), []))
    case SResFirstStatusCode =>
      if IsNum(ch) then Go(p.(statusCode := Digit(ch)), SResStatusCode)
      else if ch == ' ' then Next(p, []) else Err(p, InvalidStatus)
    case SResStatusCode =>
      if !IsNum(ch) then
        if ch == ' ' then Go(p, SResStatus)
        else if ch == CR then Go(p, SResLineAlmostDone)
        else if ch == LF then Go(p, SHeaderFieldStart)
        else Err(p, InvalidStatus)
      else (match ThreeDigits(p.statusCode, ch)
            case None => Err(p.(statusCode := p.statusCode * 10 + Digit(ch)), InvalidStatus)
            case Some(v) => Next(p.(statusCode := v), []))
    case SResStatus =>
      if ch == CR then Go(p, SResLineAlmostDone)
      else if ch == LF then Go(p, SHeaderFieldStart)
      else Next(p, [])
    case SResLineAlmostDone =>
      if ch != LF then Err(p, Strict)
      else Next(p.(state := SHeaderFieldStart), [Notify(StatusComplete)])
    case _ => Abort
  }

  /** `parse_url_char` */
  function ParseUrlChar(s: State, ch: char): State {
    if ch == ' ' || ch == CR || ch == LF || ch == '\t' || ch as int == 12 then SDead
    else
      match s
      case SReqSpacesBeforeUrl =>
        if ch == '/' || ch == '*' then SReqPath else if IsAlpha(ch) then SReqSchema else SDead
      case SReqSchema =>
        if IsAlpha(ch) then s else if ch == ':' then SReqSchemaSlash else SDead
      case SReqSchemaSlash => if ch == '/' then SReqSchemaSlashSlash else SDead
      case SReqSchemaSlashSlash => if ch == '/' then SReqServerStart else SDead
      case SReqServerWithAt => if ch == '@' then SDead else ServerChar(ch)
      case SReqServerStart | SReqServer => ServerChar(ch)
      case SReqPath =>
        if IsUrlChar(ch) then s
        else if ch == '?' then SReqQueryStringStart
        else if ch == '#' then SReqFragmentStart else SDead
      case SReqQueryStringStart | SReqQueryString =>
        if IsUrlChar(ch) || ch == '?' then SReqQueryString
        else if ch == '#' then SReqFragmentStart else SDead
      case SReqFragmentStart =>
        if IsUrlChar(ch) || ch == '?' then SReqFragment
        else if ch == '#' then s else SDead
      case SReqFragment =>
        if IsUrlChar(ch) || ch == '?' || ch == '#' then s else SDead
      case _ => SDead
  }

  function ServerChar(ch: char): State {
    if ch == '/' then SReqPath
    else if ch == '?' then SReqQueryStringStart
    else if ch == '@' then SReqServerWithAt
    else if IsUserinfoChar(ch) || ch == '[' || ch == ']' then SReqServer
    else SDead
  }

  function UrlStep(p: Parser, s: State, ch: char, acts: seq<Act>): Arm {
    var s' := ParseUrlChar(s, ch);
    if s' == SDead then Err(p.(state := SDead), InvalidUrl) else Next(p.(state := s'), acts)
  }

  function UrlArm(p: Parser, ch: char): Arm {
    match p.state
    case SReqSpacesBeforeUrl =>
      if ch == ' ' then Next(p, [])
      else UrlStep(p, if p.verb == CONNECT then SReqServerStart else p.state, ch, [Mark(Url)])
    case SReqSchema | SReqSchemaSlash | SReqSchemaSlashSlash | SReqServerStart =>
      if ch == ' ' || ch == CR || ch == LF then Err(p, InvalidUrl)
      else UrlStep(p, p.state, ch, [])
    case SReqServer | SReqServerWithAt | SReqPath | SReqQueryStringStart | SReqQueryString
       | SReqFragmentStart | SReqFragment =>
      if ch == ' ' then Next(p.(state := SReqHttpStart), [Flush(Url)])
      else if ch == CR || ch == LF then
        Next(p.(httpMajor := 0, httpMinor := 9,
                state := if ch == CR then SReqLineAlmostDone else SHeaderFieldStart), [Flush(Url)])
      else UrlStep(p, p.state, ch, [])
    case _ => Abort
  }

  function RequestVersionArm(p: Parser, ch: char): Arm {
    match p.state
    case SReqHttpStart =>
      if ch == 'H' then Go(p, SReqHttpH) else if ch == ' ' then Next(p, []) else Err(p, InvalidConstant)
    case SReqHttpH => Expect(p, ch, 'T', SReqHttpHT)
    case SReqHttpHT => Expect(p, ch, 'T', SReqHttpHTT)
    case SReqHttpHTT => Expect(p, ch, 'P', SReqHttpHTTP)
    case SReqHttpHTTP => Expect(p, ch, '/', SReqFirstHttpMajor)
    case SReqFirstHttpMajor =>
      if ch < '1' || ch > '9' then Err(p, InvalidVersion) else Go(p.(httpMajor := Digit(ch)), SReqHttpMajor)
    case SReqHttpMajor =>
      if ch == '.' then Go(p, SReqFirstHttpMinor)
      else if !IsNum(ch) then Err(p, InvalidVersion)
      else (match ThreeDigits(p.httpMajor, ch)
            case None => Err(p.(httpMajor := p.httpMajor * 10 + Digit(ch)), InvalidVersion)
            case Some(v) => Next(p.(httpMajor := v), []))
    case SReqFirstHttpMinor =>
      if !IsNum(ch) then Err(p, InvalidVersion) else Go(p.(httpMinor := Digit(ch)), SReqHttpMinor)
    case SReqHttpMinor =>
      if ch == CR then Go(p, SReqLineAlmostDone)
      else if ch == LF then Go(p, SHeaderFieldStart)
      else if !IsNum(ch) then Err(p, InvalidVersion)
      else (match ThreeDigits(p.httpMinor, ch)
            case None => Err(p.(httpMinor := p.httpMinor * 10 + Digit(ch)), InvalidVersion)
            case Some(v) => Next(p.(httpMinor := v), []))
    case SReqLineAlmostDone =>
      if ch != LF then Err(p, LfExpected) else Go(p, SHeaderFieldStart)
    case _ => Abort
  }

  // One more character of a keyword; `done` is the state of a complete match
  function MatchNext(p: Parser, keyword: string, done: HeaderState, c: char): (r: Parser)
    ensures r == p.(index := p.index + 1, headerState := r.headerState)
  {
    var i := p.index + 1;
    if i > |keyword| || c != CharAt(keyword, i) then p.(index := i, headerState := HGeneral)
    else if i == |keyword| - 1 then p.(index := i, headerState := done)
    else p.(index := i)
  }

  function FirstNameState(c: char): HeaderState {
    if c == 'c' then HC else if c == 'p' then HMatchingProxyConnection
    else if c == 't' then HMatchingTransferEncoding
    else if c == 'u' then HMatchingUpgrade else HGeneral
  }

  // The header_state switch of s_header_field; None is the failing assert
  function NameChar(p: Parser, c: char): Option<Parser> {
    match p.headerState
    case HGeneral => Some(p)
    case HC => Some(p.(index := p.index + 1, headerState := if c == 'o' then HCO else HGeneral))
    case HCO => Some(p.(index := p.index + 1, headerState := if c == 'n' then HCON else HGeneral))
    case HCON =>
      Some(p.(index := p.index + 1,
              headerState := if c == 'n' then HMatchingConnection
                             else if c == 't' then HMatchingContentLength else HGeneral))
    case HMatchingConnection => Some(MatchNext(p, CONNECTION, HConnection, c))
    case HMatchingProxyConnection => Some(MatchNext(p, PROXY_CONNECTION, HConnection, c))
    case HMatchingContentLength => Some(MatchNext(p, CONTENT_LENGTH, HContentLength, c))
    case HMatchingTransferEncoding => Some(MatchNext(p, TRANSFER_ENCODING, HTransferEncoding, c))
    case HMatchingUpgrade => Some(MatchNext(p, UPGRADE, HUpgrade, c))
    case HConnection | HContentLength | HTransferEncoding | HUpgrade =>
      Some(p.(headerState := if c != ' ' then HGeneral else p.headerState))
    case _ => None
  }

  function HeaderNameArm(p: Parser, ch: char): Arm {
    var c := Token(ch);
    match p.state
    case SHeaderFieldStart =>
      if ch == CR then Go(p, SHeadersAlmostDone)
      else if ch == LF then Again(p.(state := SHeadersAlmostDone), [])
      else if c == '\0' then Err(p, InvalidHeaderToken)
      else Next(p.(index := 0, state := SHeaderField, headerState := FirstNameState(c)), [Mark(HeaderField)])
    case SHeaderField =>
      if c != '\0' then
        (match NameChar(p, c) case None => Abort case Some(q) => Next(q, []))
      else if ch == ':' then Next(p.(state := SHeaderValueStart), [Flush(HeaderField)])
      else if ch == CR then Next(p.(state := SHeaderAlmostDone), [Flush(HeaderField)])
      else if ch == LF then Next(p.(state := SHeaderFieldStart), [Flush(HeaderField)])
      else Err(p, InvalidHeaderToken)
    case _ => Abort
  }

  /** The 64-bit accumulators: multiply and add wrap around, and the overflow test
      only compares the wrapped result with the old value. */
  function Accumulate(cl: nat, base: nat, digit: nat): Option<nat> {
    var t := (cl * base + digit) % (ULLONG_MAX + 1);
    if t < cl || t == ULLONG_MAX then None else Some(t)
  }

  // The header_state switch of s_header_value_start
  function FirstValueChar(p: Parser, ch: char): Arm {
    var c := Lower(ch);
    var q := p.(state := SHeaderValue, index := 0);
    match p.headerState
    case HUpgrade => Next(q.(flags := q.flags.(upgrade := true), headerState := HGeneral), [Mark(HeaderValue)])
    case HTransferEncoding =>
      Next(q.(headerState := if c == 'c' then HMatchingTransferEncodingChunked else HGeneral), [Mark(HeaderValue)])
    case HContentLength =>
      if !IsNum(ch) then Err(q, InvalidContentLength)
      else Next(q.(contentLength := Digit(ch)), [Mark(HeaderValue)])
    case HConnection =>
      Next(q.(headerState := if c == 'k' then HMatchingConnectionKeepAlive
                             else if c == 'c' then HMatchingConnectionClose else HGeneral), [Mark(HeaderValue)])
    case _ => Next(q.(headerState := HGeneral), [Mark(HeaderValue)])
  }

  // The header_state switch of s_header_value
  function ValueChar(p: Parser, ch: char): Arm {
    var c := Lower(ch);
    match p.headerState
    case HGeneral => Next(p, [])
    case HConnection | HTransferEncoding => Abort
    case HContentLength =>
      if ch == ' ' then Next(p, [])
      else if !IsNum(ch) then Err(p, InvalidContentLength)
      else (match Accumulate(p.contentLength, 10, Digit(ch))
            case None => Err(p, InvalidContentLength)
            case Some(t) => Next(p.(contentLength := t), []))
    case HMatchingTransferEncodingChunked => Next(MatchNext(p, CHUNKED, HTransferEncodingChunked, c), [])
    case HMatchingConnectionKeepAlive => Next(MatchNext(p, KEEP_ALIVE, HConnectionKeepAlive, c), [])
    case HMatchingConnectionClose => Next(MatchNext(p, CLOSE, HConnectionClose, c), [])
    case HTransferEncodingChunked | HConnectionKeepAlive | HConnectionClose =>
      Next(p.(headerState := if ch != ' ' then HGeneral else p.headerState), [])
    case _ => Next(p.(headerState := HGeneral), [])
  }

  // The flags that a finished header line raises
  function LineFlags(p: Parser): Flags {
    match p.headerState
    case HConnectionKeepAlive => p.flags.(keepAlive := true)
    case HConnectionClose => p.flags.(close := true)
    case HTransferEncodingChunked => p.flags.(chunked := true)
    case _ => p.flags
  }

  function HeaderValueArm(p: Parser, ch: char): Arm {
    match p.state
    case SHeaderValueStart =>
      if ch == ' ' || ch == '\t' then Next(p, [])
      else if ch == CR then
        Next(p.(index := 0, headerState := HGeneral, state := SHeaderAlmostDone),
             [Mark(HeaderValue), Flush(HeaderValue)])
      else if ch == LF then
        Next(p.(index := 0, state := SHeaderFieldStart), [Mark(HeaderValue), Flush(HeaderValue)])
      else FirstValueChar(p, ch)
    case SHeaderValue =>
      if ch == CR then Next(p.(state := SHeaderAlmostDone), [Flush(HeaderValue)])
      else if ch == LF then Again(p.(state := SHeaderAlmostDone), [Flush(HeaderValue)])
      else ValueChar(p, ch)
    case SHeaderAlmostDone =>
      if ch != LF then Err(p, Strict)
      else Next(p.(state := SHeaderValueLws, flags := LineFlags(p)), [])
    case SHeaderValueLws =>
      if ch == ' ' || ch == '\t' then Go(p, SHeaderValueStart)
      else Again(p.(state := SHeaderFieldStart), [])
    case _ => Abort
  }

  function Complete(p: Parser): Arm { Next(p.(state := NewMessage(p)), [Notify(MessageComplete)]) }

  function HeadersEndArm(p: Parser, ch: char): Arm {
    match p.state
    case SHeadersAlmostDone =>
      if ch != LF then Err(p, Strict)
      else if p.flags.trailing then Complete(p)
      else
        Again(p.(state := SHeadersDone, upgrade := p.flags.upgrade || p.verb == CONNECT,
                 flags := p.flags.(skipBody := p.flags.skipBody || p.answer)), [Notify(HeadersComplete)])
    case SHeadersDone =>
      if ch != LF then Err(p, Strict)
      else
        var q := p.(nread := 0);
        if q.upgrade then Leave(q.(state := NewMessage(q)), [Notify(MessageComplete)])
        else if q.flags.skipBody then Complete(q)
        else if q.flags.chunked then Go(q, SChunkSizeStart)
        else if q.contentLength == 0 then Complete(q)
        else if q.contentLength != ULLONG_MAX then Go(q, SBodyIdentity)
        else if q.kind == Request || !NeedsEof(q) then Complete(q)
        else Go(q, SBodyIdentityEof)
    case _ => Abort
  }

  function Min(a: nat, b: nat): nat { if a < b then a else b }

  // `avail` is (data + len) - p, the bytes from the current one to the end of the call
  function BodyArm(p: Parser, ch: char, avail: nat): Arm {
    match p.state
    case SBodyIdentity =>
      if p.contentLength == 0 || p.contentLength == ULLONG_MAX then Abort
      else
        var toRead := Min(p.contentLength, avail);
        var left := p.contentLength - toRead;
        Bulk(p.(contentLength := left, state := if left == 0 then SMessageDone else p.state), toRead, left == 0)
    case SBodyIdentityEof => Bulk(p, avail, false)
    case SMessageDone => Complete(p)
    case _ => Abort
  }

  function ChunkArm(p: Parser, ch: char, avail: nat): Arm {
    if !p.flags.chunked then Abort
    else
      match p.state
      case SChunkSizeStart =>
        if p.nread != 1 then Abort
        else (match Unhex(ch)
              case None => Err(p, InvalidChunkSize)
              case Some(d) => Next(p.(contentLength := d, state := SChunkSize), []))
      case SChunkSize =>
        if ch == CR then Go(p, SChunkSizeAlmostDone)
        else (match Unhex(ch)
              case None => if ch == ';' || ch == ' ' then Go(p, SChunkParameters) else Err(p, InvalidChunkSize)
              case Some(d) =>
                match Accumulate(p.contentLength, 16, d)
                case None => Err(p, InvalidContentLength)
                case Some(t) => Next(p.(contentLength := t), []))
      case SChunkParameters => if ch == CR then Go(p, SChunkSizeAlmostDone) else Next(p, [])
      case SChunkSizeAlmostDone =>
        if ch != LF then Err(p, Strict)
        else if p.contentLength == 0 then
          Next(p.(nread := 0, flags := p.flags.(trailing := true), state := SHeaderFieldStart), [])
        else Next(p.(nread := 0, state := SChunkData), [])
      case SChunkData =>
        if p.contentLength == 0 || p.contentLength == ULLONG_MAX then Abort
        else
          var toRead := Min(p.contentLength, avail);
          var left := p.contentLength - toRead;
          Bulk(p.(contentLength := left, state := if left == 0 then SChunkDataAlmostDone else p.state), toRead, false)
      case SChunkDataAlmostDone =>
        if p.contentLength != 0 then Abort
        else if ch != CR then Err(p, Strict)
        else Next(p.(state := SChunkDataDone), [Flush(Body)])
      case SChunkDataDone =>
        if ch != LF then Err(p, Strict) else Next(p.(nread := 0, state := SChunkSizeStart), [])
      case _ => Abort
  }

  predicate InStart(s: State) {
    s.SDead? || s.SStartReqOrRes? || s.SResOrRespH? || s.SStartRes? || s.SStartReq?
  }
  predicate InStatusLine(s: State) {
    s.SResH? || s.SResHT? || s.SResHTT? || s.SResHTTP? || s.SResFirstHttpMajor? || s.SResHttpMajor?
    || s.SResFirstHttpMinor? || s.SResHttpMinor? || s.SResFirstStatusCode? || s.SResStatusCode?
    || s.SResStatus? || s.SResLineAlmostDone?
  }
  // The states in which the URL mark is set
  predicate InUrl(s: State) {
    s.SReqSchema? || s.SReqSchemaSlash? || s.SReqSchemaSlashSlash? || s.SReqServerStart?
    || s.SReqServer? || s.SReqServerWithAt? || s.SReqPath? || s.SReqQueryStringStart?
    || s.SReqQueryString? || s.SReqFragmentStart? || s.SReqFragment?
  }
  predicate InRequestVersion(s: State) {
    s.SReqHttpStart? || s.SReqHttpH? || s.SReqHttpHT? || s.SReqHttpHTT? || s.SReqHttpHTTP?
    || s.SReqFirstHttpMajor? || s.SReqHttpMajor? || s.SReqFirstHttpMinor? || s.SReqHttpMinor?
    || s.SReqLineAlmostDone?
  }
  predicate InHeaderName(s: State) { s.SHeaderFieldStart? || s.SHeaderField? }
  predicate InHeaderValue(s: State) {
    s.SHeaderValueStart? || s.SHeaderValue? || s.SHeaderAlmostDone? || s.SHeaderValueLws?
  }
  predicate InHeadersEnd(s: State) { s.SHeadersAlmostDone? || s.SHeadersDone? }
  predicate InBody(s: State) { s.SBodyIdentity? || s.SBodyIdentityEof? || s.SMessageDone? }

  /** The switch itself: every state has its arm. */
  function Switch(p: Parser, ch: char, avail: nat): Arm {
    var s := p.state;
    if InStart(s) then StartArm(p, ch)
    else if InStatusLine(s) then StatusLineArm(p, ch)
    else if s.SReqMethod? then MethodArm(p, ch)
    else if InUrl(s) || s.SReqSpacesBeforeUrl? then UrlArm(p, ch)
    else if InRequestVersion(s) then RequestVersionArm(p, ch)
    else if InHeaderName(s) then HeaderNameArm(p, ch)
    else if InHeaderValue(s) then HeaderValueArm(p, ch)
    else if InHeadersEnd(s) then HeadersEndArm(p, ch)
    else if InBody(s) then BodyArm(p, ch, avail)
    else ChunkArm(p, ch, avail)
  }
}
