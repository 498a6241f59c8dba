/** The data of the incremental HTTP parser: the parser struct, its enumerations,
    the keyword and method tables and the character classes (strict mode).

    A byte of input is a `char`; every byte is a `char` below 256, and nothing below
    depends on how the wider characters are classified. */
module HttpTypes {
  import opened Wrappers

  // 2^64 - 1, the "no Content-Length" mark and the ceiling of both accumulators
  const ULLONG_MAX: nat := 0xFFFF_FFFF_FFFF_FFFF
  const MAX_HEADER_SIZE: nat := 80 * 1024

  const CR: char := '\r'
  const LF: char := '\n'

  datatype ParserType = Request | Response | Both

  datatype State =
    | SDead
    | SStartReqOrRes | SResOrRespH | SStartRes
    | SResH | SResHT | SResHTT | SResHTTP
    | SResFirstHttpMajor | SResHttpMajor | SResFirstHttpMinor | SResHttpMinor
    | SResFirstStatusCode | SResStatusCode | SResStatus | SResLineAlmostDone
    | SStartReq
    | SReqMethod | SReqSpacesBeforeUrl
    | SReqSchema | SReqSchemaSlash | SReqSchemaSlashSlash
    | SReqServerStart | SReqServer | SReqServerWithAt
    | SReqPath | SReqQueryStringStart | SReqQueryString
    | SReqFragmentStart | SReqFragment
    | SReqHttpStart | SReqHttpH | SReqHttpHT | SReqHttpHTT | SReqHttpHTTP
    | SReqFirstHttpMajor | SReqHttpMajor | SReqFirstHttpMinor | SReqHttpMinor
    | SReqLineAlmostDone
    | SHeaderFieldStart | SHeaderField | SHeaderValueStart | SHeaderValue | SHeaderValueLws
    | SHeaderAlmostDone
    | SChunkSizeStart | SChunkSize | SChunkParameters | SChunkSizeAlmostDone
    | SHeadersAlmostDone | SHeadersDone
    | SChunkData | SChunkDataAlmostDone | SChunkDataDone
    | SBodyIdentity | SBodyIdentityEof
    | SMessageDone

  datatype HeaderState =
    | HGeneral | HC | HCO | HCON
    | HMatchingConnection | HMatchingProxyConnection | HMatchingContentLength
    | HMatchingTransferEncoding | HMatchingUpgrade
    | HConnection | HContentLength | HTransferEncoding | HUpgrade
    | HMatchingTransferEncodingChunked | HMatchingConnectionKeepAlive | HMatchingConnectionClose
    | HTransferEncodingChunked | HConnectionKeepAlive | HConnectionClose

  datatype Method =
    | DELETE | GET | HEAD | POST | PUT
    | CONNECT | OPTIONS | TRACE
    | COPY | LOCK | MKCOL | MOVE | PROPFIND | PROPPATCH | SEARCH | UNLOCK
    | REPORT | MKACTIVITY | CHECKOUT | MERGE
    | MSEARCH | NOTIFY | SUBSCRIBE | UNSUBSCRIBE
    | PATCH | PURGE

  datatype Errno =
    | OK | InvalidEofState | HeaderOverflow | ClosedConnection
    | InvalidVersion | InvalidStatus | InvalidMethod | InvalidUrl
    | LfExpected | InvalidHeaderToken | InvalidContentLength | InvalidChunkSize
    | InvalidConstant | Strict

  datatype Flags = Flags(chunked: bool, keepAlive: bool, close: bool,
                         trailing: bool, upgrade: bool, skipBody: bool)

  const NO_FLAGS: Flags := Flags(false, false, false, false, false, false)

  /** `struct http_parser`. `answer` is not part of the struct: it says whether the
      connection's on_headers_complete callback answers 1 ("expect no body"). */
  datatype Parser = Parser(
    kind: ParserType, flags: Flags, state: State, headerState: HeaderState, index: nat,
    nread: nat, contentLength: nat,
    httpMajor: nat, httpMinor: nat, statusCode: nat, verb: Method,
    errno: Errno, upgrade: bool, answer: bool)

  // The data callbacks and the notify callbacks
  datatype Field = Url | HeaderField | HeaderValue | Body
  datatype Note = MessageBegin | StatusComplete | HeadersComplete | MessageComplete

  // What the callbacks amount to once every data slice is cut into bytes: the notifications, the
  // bytes, and where a URL, a header name or a line of a header value ends
  datatype Event = Told(note: Note) | Byte(field: Field, ch: char) | Ended(field: Field)

  function NameOf(m: Method): string {
    match m
    case DELETE => "DELETE" case GET => "GET" case HEAD => "HEAD" case POST => "POST"
    case PUT => "PUT" case CONNECT => "CONNECT" case OPTIONS => "OPTIONS" case TRACE => "TRACE"
    case COPY => "COPY" case LOCK => "LOCK" case MKCOL => "MKCOL" case MOVE => "MOVE"
    case PROPFIND => "PROPFIND" case PROPPATCH => "PROPPATCH" case SEARCH => "SEARCH"
    case UNLOCK => "UNLOCK" case REPORT => "REPORT" case MKACTIVITY => "MKACTIVITY"
    case CHECKOUT => "CHECKOUT" case MERGE => "MERGE" case MSEARCH => "M-SEARCH"
    case NOTIFY => "NOTIFY" case SUBSCRIBE => "SUBSCRIBE" case UNSUBSCRIBE => "UNSUBSCRIBE"
    case PATCH => "PATCH" case PURGE => "PURGE"
  }

  const CONNECTION: string := "connection"
  const PROXY_CONNECTION: string := "proxy-connection"
  const CONTENT_LENGTH: string := "content-length"
  const TRANSFER_ENCODING: string := "transfer-encoding"
  const UPGRADE: string := "upgrade"
  const CHUNKED: string := "chunked"
  const KEEP_ALIVE: string := "keep-alive"
  const CLOSE: string := "close"

  // Reading a NUL-terminated string: the terminator follows the last character
  function CharAt(s: string, i: nat): char {
    if i < |s| then s[i] else '\0'
  }

  // c | 0x20 on a byte
  function Lower(c: char): char {
    var n := c as int;
    if n < 256 && (n / 32) % 2 == 0 then (n + 32) as char else c
  }

  predicate IsAlpha(c: char) { 'a' <= Lower(c) <= 'z' }

  predicate IsNum(c: char) { '0' <= c <= '9' }

  predicate IsHex(c: char) { IsNum(c) || 'a' <= Lower(c) <= 'f' }

  predicate IsMark(c: char) {
    c == '-' || c == '_' || c == '.' || c == '!' || c == '~' || c == '*' || c == '\'' || c == '(' || c == ')'
  }

  predicate IsUserinfoChar(c: char) {
    IsAlpha(c) || IsNum(c) || IsMark(c) || c == '%' || c == ';' || c == ':' || c == '&'
    || c == '=' || c == '+' || c == '$' || c == ','
  }

  predicate IsHostChar(c: char) { IsAlpha(c) || IsNum(c) || c == '.' || c == '-' }

  // The strict table: printable ASCII other than '#' and '?'
  predicate IsUrlChar(c: char) { '!' <= c <= '~' && c != '#' && c != '?' }

  // The lower-cased token character, or NUL for a separator or control character
  function Token(c: char): char {
    if 'A' <= c <= 'Z' then (c as int + 32) as char
    else if 'a' <= c <= 'z' || IsNum(c) || c == '!' || ('#' <= c <= '\'') || c == '*' || c == '+'
         || c == '-' || c == '.' || c == '^' || c == '_' || c == '`' || c == '|' || c == '~' then c
    else '\0'
  }

  function Digit(c: char): nat
    requires IsNum(c)
  { c as int - '0' as int }

  /** The `unhex` table. Only its first 128 entries are initialised to -1 or a digit
      value; the other 128 are zero, so a byte from 0x80 on reads as the digit 0. */
  function Unhex(c: char): Option<nat> {
    if IsNum(c) then Some(c as int - '0' as int)
    else if 'a' <= c <= 'f' then Some(c as int - 'a' as int + 10)
    else if 'A' <= c <= 'F' then Some(c as int - 'A' as int + 10)
    else if c as int >= 128 then Some(0)
    else None
  }

  // Every state up to s_headers_done counts towards the header size limit
  predicate ParsingHeader(s: State) {
    !(s.SChunkData? || s.SChunkDataAlmostDone? || s.SChunkDataDone?
      || s.SBodyIdentity? || s.SBodyIdentityEof? || s.SMessageDone?)
  }

  predicate NeedsEof(p: Parser) {
    if p.kind == Request then false
    else if p.statusCode / 100 == 1 || p.statusCode == 204 || p.statusCode == 304 || p.flags.skipBody then false
    else !(p.flags.chunked || p.contentLength != ULLONG_MAX)
  }

  predicate ShouldKeepAlive(p: Parser) {
    if p.httpMajor > 0 && p.httpMinor > 0 then !p.flags.close && !NeedsEof(p)
    else p.flags.keepAlive && !NeedsEof(p)
  }

  // NEW_MESSAGE() of strict mode
  function NewMessage(p: Parser): State {
    if ShouldKeepAlive(p) then (if p.kind == Request then SStartReq else SStartRes) else SDead
  }

  function Init(t: ParserType, answer: bool): Parser {
    Parser(t, NO_FLAGS, if t == Request then SStartReq else if t == Response then SStartRes else SStartReqOrRes,
           HGeneral, 0, 0, 0, 0, 0, 0, DELETE, OK, false, answer)
  }

  // ---- the character classes against their alphabets ----

  const SMALL: string := "abcdefghijklmnopqrstuvwxyz"
  const CAPITAL: string := "ABCDEFGHIJKLMNOPQRSTUVWXYZ"

  // The separators of section 2.2 of RFC 2616 other than the blanks
  const SEPARATORS: string := "()<>@,;:\\\"/[]?={}"

  // The same letter, both small and capital
  predicate SameLetter(small: char, capital: char) {
    exists i :: 0 <= i < 26 && small == SMALL[i] && capital == CAPITAL[i]
  }

  /** Setting bit 5 turns capital letters into small ones and makes no other byte a letter. */
  lemma LowerExact(b: bv8)
    ensures Lower((b as int) as char) == ((b | 0x20) as int) as char
  {}

  lemma SmallAre(c: char)
    ensures c in SMALL <==> 'a' <= c <= 'z'
  {}

  lemma CapitalsAre(c: char)
    ensures c in CAPITAL <==> 'A' <= c <= 'Z'
    ensures 'A' <= c <= 'Z' ==> SameLetter((c as int + 32) as char, c)
  {
    if 'A' <= c <= 'Z' {
      var i := c as int - 'A' as int;
      assert SMALL[i] == (c as int + 32) as char && CAPITAL[i] == c;
    }
  }

  lemma NumeralsAre(c: char)
    ensures c in "0123456789" <==> IsNum(c)
  {}

  lemma LettersExact(c: char)
    ensures IsAlpha(c) <==> c in SMALL || c in CAPITAL
    ensures c in SMALL ==> Lower(c) == c
    ensures c in CAPITAL ==> SameLetter(Lower(c), c)
  {
    SmallAre(c);
    CapitalsAre(c);
    hide SMALL, CAPITAL, SameLetter;
  }

  /** A token character is any printable one that is no separator; a capital letter is held as the
      small one. */
  lemma TokenExact(c: char)
    ensures Token(c) != '\0' <==> ' ' < c < '\U{7f}' && c !in SEPARATORS
    ensures c in CAPITAL ==> SameLetter(Token(c), c)
    ensures Token(c) != '\0' && c !in CAPITAL ==> Token(c) == c
  {
    CapitalsAre(c);
    hide SMALL, CAPITAL, SameLetter;
  }

  lemma UrlCharExact(c: char)
    ensures IsUrlChar(c) <==>
      c in SMALL || c in CAPITAL || c in "0123456789" || c in "!\"$%&'()*+,-./:;<=>@[\\]^_`{|}~"
  {
    SmallAre(c);
    CapitalsAre(c);
    NumeralsAre(c);
    hide SMALL, CAPITAL, SameLetter;
  }

  lemma HostCharExact(c: char)
    ensures IsHostChar(c) <==> c in SMALL || c in CAPITAL || c in "0123456789" || c in ".-"
  {
    LettersExact(c);
    NumeralsAre(c);
    hide SMALL, CAPITAL, SameLetter, IsAlpha;
  }

  lemma UserinfoCharExact(c: char)
    ensures IsUserinfoChar(c) <==>
      c in SMALL || c in CAPITAL || c in "0123456789" || c in "-_.!~*'()" || c in "%;:&=+$,"
  {
    LettersExact(c);
    NumeralsAre(c);
    hide SMALL, CAPITAL, SameLetter, IsAlpha;
  }

  lemma HexExact(c: char)
    ensures IsHex(c) <==> c in "0123456789abcdefABCDEF"
  {}
}
