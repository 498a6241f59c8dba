# Verified model of xx_chat's protocol code

A Dafny 4.11 model of the parts of the xx_chat server where state and input meet: the incremental
HTTP parser it embeds, the PDU stream between its servers, the reactor underneath, and two
bookkeeping protocols shared between threads. `dafny verify dfyconfig.toml` checks it all.

## The parts

**The HTTP parser** (`Http*.dfy`). `HttpTypes` and `HttpSwitch` hold the parser struct and one
function per group of arms of the big switch, in strict mode: an arm returns the new fields, the
marks and callbacks its macros ask for, and how it ends. `HttpRun` reads byte by byte; there the
termination measure and the reachable-state invariant are proved. `HttpParser` is the class with
the loop of `http_parser_execute`: nread accounting, marks, flushes at the end of a call, and
bulk jumps over bodies. Its `Execute` is proved to be the byte-at-a-time run, and `ExecuteAll`,
successive calls with non-empty pieces, to be one call with everything. On top of it:
`HttpMethods`, `HttpNames`, `HttpValues` and `HttpNumbers` (the recognisers are exact),
`HttpHeaders` (header lines in every form the parser takes, folded ones too), `HttpBodies` (sized
and chunked bodies, section 3.6.1 of RFC 2616), `HttpRules` (where the choice of the body departs
from section 4.4, and that of keeping the connection from section 8.1.2), `HttpLines`,
`HttpMessages`, `HttpRequests` and `HttpResponses` (whole messages), `HttpBoth` (parsers that
find out which they read), `HttpEof` (the end of a connection, and bytes behind its last
message), `HttpPipelines` (whole connections, in successive calls with any pieces) and
`HttpTold` (what the callbacks tell determines the messages). The two-pass URL splitter is
`HttpUrl`; `HttpUrlSegments`, `HttpUrlOutline`, `HttpUrlAuthority` and `HttpUrlParts` prove that
it accepts exactly the URLs of a grammar and is the inverse of composing them. Callbacks appear
as a trace of events; data callbacks are flattened to one event a byte, and one where a URL, a
header name or a line of a header value ends.

**The PDU stream** (`Pdu`, `PduHeader`, `PduStream`). The growing buffer, the integer codecs, the
16-byte header with its setters, the framing loop, and `ImConn` over a socket that takes any
prefix of what it is offered, or refuses, and gives any next bytes. `ImConn.Valid` says what holds
of a connection after any sequence of calls; `EndToEnd` joins a sender and a receiver.

**The reactor** (`ByteBuffer`, `TcpOutput`, `EventLoop`). The compacting buffer against its
readable bytes; the output path of a connection, with the functors it leaves in the loop's queue
run at any later time; the functor queue as a step machine over all interleavings of producers
and loop, with a class whose methods are runs of these steps.

**The database pool and the response router** (`DbPool`, `ProxyRouting`). The pool is a step
relation over threads that enter, wait, resume (notified or not) and release; the class methods are
the stays under the mutex. The router keeps the two global maps, the open sockets and the response
list.

Where the code does less than one might expect, the model follows the code:

- a Content-Length or chunk size is exact only below 2^64 - 1; the overflow test looks at the wrapped sum
- spaces between the digits of a Content-Length are skipped
- bytes from 0x80 on count as the hexadecimal digit 0
- a 1xx, 204 or 304 response is given the body its headers announce; section 4.4 of RFC 2616 lets it have none
- `Transfer-Encoding: gzip, chunked` is not taken as chunked: the value must be that word alone
- a Content-Length folded over several lines counts as the number on the last; no value is recognised on a line behind an empty one
- a header name may end without a colon, and a line that starts with a blank is then its value
- `strtoul` on a port at the end of a URL reads on into the memory behind it
- an empty userinfo in front of the target of a CONNECT goes unnoticed, and so do an empty query and an empty fragment behind it
- in `s_start_res` every leading line break triggers message_begin
- the setters of a PDU change its bytes but not the header record that the getters read
- a PDU may announce a length of 1 to 15 bytes; it is cut as announced, its header read from the bytes behind
- a version X.0 with X above 1 is taken for an early one: the connection closes unless asked to be kept alive
- `Proxy-Connection` is read as `Connection`
- the trailer of a chunked message counts towards the header size limit of the next message
- a functor queued by the loop's thread outside `loop()` wakes nobody, and a quit before `loop()` is forgotten
- `connectDestroyed` on a connection still closing down fails the assert in `Channel::remove`
- `handleClose` can be reached twice in one round of events
- `ProxyConn::Close` on a connection closed before closes the socket that has its handle by then; nothing in proxy_conn.cpp does that, since its callers find the connection in one of the two maps
- after 2^32 connections a uuid may come back while still in use; `insert` then keeps the old entry

## Model

| member | source | states |
|---|---|---|
| HttpRun.ReexecutionDescends | xx_chat_server/thirdparty/http/http_parser.cpp:632-1832 | every `goto reexecute_byte`, and every body jump that reexecutes its last byte, lands in a state of strictly lower rank: execute terminates |
| HttpParser.HttpParser.ExecuteAll | xx_chat_server/thirdparty/http/http_parser.cpp:572-1863 | successive calls with non-empty pieces, until one fails or leaves HTTP: parser, bytes consumed and flattened callbacks are those of one run over the concatenation, whatever the pieces |
| HttpRun.UpgradeShows | xx_chat_server/thirdparty/http/http_parser.cpp:1584-1659 | a run comes back early without an error exactly when `upgrade` has been set, so that a caller can tell |
| HttpRun.SwitchOk | xx_chat_server/thirdparty/http/http_parser.cpp:671-1832 | in every state that can be reached between calls no assert of the switch fails, no table is read past its end, and the next state is such a state again |
| HttpRun.RunOk | xx_chat_server/thirdparty/http/http_parser.cpp:632-1863 | over any input from such a state: no assert fails, errno is set exactly on error, at most the whole input is consumed, and nread stays within HTTP_MAX_HEADER_SIZE |
| HttpMarks.DoAllShows | xx_chat_server/thirdparty/http/http_parser.cpp:61-118 | setting and flushing marks keeps the callbacks made so far plus the bytes behind the open mark equal to the byte events of the same steps |
| HttpMarks.SwitchFits | xx_chat_server/thirdparty/http/http_parser.cpp:1845-1853 | every arm of the switch leaves exactly the mark of its open field set, and never two marks at once |
| HttpParser.JumpIsSteps | xx_chat_server/thirdparty/http/http_parser.cpp:1662-1703 | the jump `p += to_read - 1` over sized body and chunk data is as many single body steps |
| HttpParser.HttpParser.constructor | xx_chat_server/thirdparty/http/http_parser.cpp:1916-1926 | a new parser satisfies the invariant of Execute |
| HttpParser.HttpParser.Execute | xx_chat_server/thirdparty/http/http_parser.cpp:572-1863 | the loop with marks, slices and jumps yields the parser, the count and the flattened callbacks of the byte-at-a-time run; after an error only bytes of the one field then open, none from before it was opened, may be missing from the callbacks; no assert fails; a parser in error does nothing |
| HttpEof.EofTells | xx_chat_server/thirdparty/http/http_parser.cpp:590-609 | by what the callbacks have told before: between messages a zero-length call is silent, within one it completes a body that lasts as long as the connection, and is HPE_INVALID_EOF_STATE with count 1 otherwise; only a parser of responses may be silent within one, in s_start_res, where a line break announces a message |
| HttpEof.DeadDecided | xx_chat_server/thirdparty/http/http_parser.cpp:647-655 | behind the last message of a connection, whatever comes: line breaks are skipped without a callback, the first other byte is HPE_CLOSED_CONNECTION, and the header limit holds for them too |
| HttpMethods.MethodExact | xx_chat_server/thirdparty/http/http_parser.cpp:872-994 | a word without a space and a space are taken for a method exactly if the word is one of the 26 names, and then `method` is that name's; any other word is HPE_INVALID_METHOD |
| HttpMethods.MethodLineExact | xx_chat_server/thirdparty/http/http_parser.cpp:872-994 | for every text without a space: it and a space lead to the URL exactly if it is any line breaks and one of the 26 names behind them; any other is HPE_INVALID_METHOD |
| HttpMethods.LeadingLines | xx_chat_server/thirdparty/http/http_parser.cpp:872-884 | line breaks before a method change nothing but nread, and tell no callback |
| HttpMethods.HeldSpells | xx_chat_server/thirdparty/http/http_parser.h:81-112 | along any word the consumed bytes are the first `index` bytes of the name of the method then held, across all switches in mid-word |
| HttpRequests.NamesDiffer | xx_chat_server/thirdparty/http/http_parser.h:81-112 | the 26 method names are distinct |
| HttpNames.NameExact | xx_chat_server/thirdparty/http/http_parser.cpp:1191-1369 | at the colon header_state is that of connection, content-length, transfer-encoding or upgrade exactly if the lower-cased name is that keyword (or proxy-connection), for every token string |
| HttpNames.NameDecided | xx_chat_server/thirdparty/http/http_parser.cpp:1191-1369 | whatever stands before the colon or the end of the line is taken for a header name, and handed out, exactly if it is a token; anything else is HPE_INVALID_HEADER_TOKEN |
| HttpHeaders.HeaderLine | xx_chat_server/thirdparty/http/http_parser.cpp:1191-1568 | a header, its value empty, on one line or folded over several, its lines ended by CR LF or by LF, hands its name and value out byte for byte, and changes flags and content_length exactly as the lower-cased name and value say (chunked, keep-alive, close, Upgrade, the number) |
| HttpValues.ValueRun | xx_chat_server/thirdparty/http/http_parser.cpp:1416-1548 | while a value is read header_state and index say how much of its keyword has been matched |
| HttpValues.ContentLengthExact | xx_chat_server/thirdparty/http/http_parser.cpp:1464-1487 | a value of digits and spaces is a Content-Length, and taken at its decimal value, exactly if that is below 2^64 - 1 |
| HttpValues.LengthDecided | xx_chat_server/thirdparty/http/http_parser.cpp:1409-1487 | behind the name Content-Length the parser takes any value that is one at its decimal value, and ends in HPE_INVALID_CONTENT_LENGTH at any other |
| HttpValues.LengthIsSpelled | xx_chat_server/thirdparty/http/http_parser.cpp:1464-1487 | the value of a Content-Length is the number that its characters spell when the spaces are left out |
| HttpValues.LengthTakenExactly | xx_chat_server/thirdparty/http/http_parser.cpp:1409-1487 | a decimal numeral, spaces in it or not, is taken at the number it spells exactly if that is below 2^64 - 1 |
| HttpNumbers.AccumulatorExact | xx_chat_server/thirdparty/http/http_parser.cpp:1464-1487 | decimal and hexadecimal accumulation yields the written number exactly if it is below 2^64 - 1 |
| HttpNumbers.OverflowUnnoticed | xx_chat_server/thirdparty/http/http_parser.cpp:1749-1757 | the same wrap in the accumulator: 0x1800000000000000 followed by 0 is accepted as 0x8000000000000000 |
| HttpNumbers.UnhexExact | xx_chat_server/thirdparty/http/http_parser.cpp:180-189 | the table gives each of 0-9, a-f and A-F its value by its place in 0123456789abcdef, 0 to every byte from 0x80 on, and knows no other byte |
| HttpNumbers.SpellsOnce | xx_chat_server/thirdparty/http/http_parser.cpp:1749-1757 | a numeral, told by quotients and remainders over the alphabet of digits, is a numeral of one number only |
| HttpNumbers.NumeralSpells | xx_chat_server/thirdparty/http/http_parser.cpp:1749-1757 | and every number has one, in either base |
| HttpNumbers.DigitsSpell | xx_chat_server/thirdparty/http/http_parser.cpp:1464-1487 | decimal digits have the value of the number they spell, and of no other |
| HttpTypes.TokenExact | xx_chat_server/thirdparty/http/http_parser.cpp:145-177 | the table knows exactly the printable characters that are no separators of section 2.2 of RFC 2616, and holds a capital letter as the small one |
| HttpTypes.LettersExact | xx_chat_server/thirdparty/http/http_parser.cpp:358-359 | IS_ALPHA knows the 52 letters, and LOWER pairs each with the small one |
| HttpTypes.UrlCharExact | xx_chat_server/thirdparty/http/http_parser.cpp:199-231 | the table of URL characters against its alphabet |
| HttpTypes.HostCharExact | xx_chat_server/thirdparty/http/http_parser.cpp:373-373 | the characters of a host against their alphabet |
| HttpTypes.UserinfoCharExact | xx_chat_server/thirdparty/http/http_parser.cpp:363-368 | the characters of a userinfo against their alphabet |
| HttpHeaders.HeaderBlock | xx_chat_server/thirdparty/http/http_parser.cpp:1191-1568 | any number of headers: names and values come out in order, flags and length accumulate |
| HttpBodies.EndOfHeaders | xx_chat_server/thirdparty/http/http_parser.cpp:1570-1660 | after the blank line, CR LF or LF: upgrade and CONNECT leave HTTP, a skipped body is none, chunked goes before Content-Length, that before the kind of message and its status; only then is the end of the connection awaited |
| HttpBodies.HeadersThenPlan | xx_chat_server/thirdparty/http/http_parser.cpp:1570-1660 | headers and blank line together lead to the body the parser chooses for the flags and the length its lines amount to |
| HttpRules.BodyByTheRules | xx_chat_server/thirdparty/http/http_parser.cpp:1632-1658 | that body is the one of section 4.4 of RFC 2616 exactly unless a 1xx, 204 or 304 response carries a coding "chunked" or a length other than 0, or another message has codings besides "identity" but none that is "chunked" alone (upgrade, CONNECT and a skipped body apart) |
| HttpRules.NotModifiedHasBody | xx_chat_server/thirdparty/http/http_parser.cpp:1632-1658 | a 304 with Content-Length: 5, and the next five bytes, whatever they are, told as its body |
| HttpRules.GzipChunkedHasNone | xx_chat_server/thirdparty/http/http_parser.cpp:1632-1658 | a request with Transfer-Encoding: gzip, chunked is complete at the blank line |
| HttpRules.FlagsExact | xx_chat_server/thirdparty/http/http_parser.cpp:1416-1548 | over any headers the flags close, keep-alive and chunked are raised exactly by a Connection (or Proxy-Connection) or Transfer-Encoding header whose first line is that word alone, upgrade by any non-empty Upgrade header |
| HttpRules.RequestKept | xx_chat_server/thirdparty/http/http_parser.cpp:1888-1906 | behind a request the parser awaits the next exactly if the connection persists by section 8.1.2 of RFC 2616 (without close from HTTP/1.1 on, with keep-alive before), unless the version is X.0 with X above 1 and both words are there or neither |
| HttpRules.ResponseKept | xx_chat_server/thirdparty/http/http_parser.cpp:1868-1906 | the same behind a response whose end shows without the end of the connection |
| HttpRules.TwoCloses | xx_chat_server/thirdparty/http/http_parser.cpp:1888-1906 | a request of HTTP/2.0 without headers: the connection persists by those rules, and the parser awaits nothing more |
| HttpBodies.SizedBody | xx_chat_server/thirdparty/http/http_parser.cpp:1662-1698 | a body of the announced length hands out exactly its bytes and completes the message once, at its last byte |
| HttpBodies.OpenBody | xx_chat_server/thirdparty/http/http_parser.cpp:1700-1704 | a body without announced length hands out every byte and never completes by itself |
| HttpBodies.SizedMessage | xx_chat_server/thirdparty/http/http_parser.cpp:1570-1698 | headers with a Content-Length below 2^64 - 1 and as many bytes: exactly these are the body, then one message_complete |
| HttpBodies.ChunkSizeDecided | xx_chat_server/thirdparty/http/http_parser.cpp:1710-1761 | hexadecimal digits are taken for a chunk size if the accumulator takes them all, and end in HPE_INVALID_CONTENT_LENGTH otherwise |
| HttpBodies.SizeIsSpelled | xx_chat_server/thirdparty/http/http_parser.cpp:180-189 | the digits of a chunk size have the value of the number it spells as a hexadecimal numeral (bytes from 0x80 on pass for 0), and of no other |
| HttpBodies.NumeralIsSize | xx_chat_server/thirdparty/http/http_parser.cpp:1710-1761 | every hexadecimal numeral, in either case and with any leading zeros, is a chunk size |
| HttpBodies.SizeTakenExactly | xx_chat_server/thirdparty/http/http_parser.cpp:1710-1761 | a hexadecimal numeral is taken for the chunk size at the number it spells exactly if that is below 2^64 - 1 |
| HttpBodies.ChunkSizeBroken | xx_chat_server/thirdparty/http/http_parser.cpp:1710-1748 | any other byte where a digit is due, or behind the digits unless it ends them, is HPE_INVALID_CHUNK_SIZE |
| HttpBodies.WrappedSize | xx_chat_server/thirdparty/http/http_parser.cpp:1749-1757 | the overflow test misses a wrap: the chunk size 18000000000000000 is read as 0x8000000000000000 |
| HttpBodies.ChunkRun | xx_chat_server/thirdparty/http/http_parser.cpp:1710-1826 | one chunk, its size any hexadecimal numeral of the number of its bytes, with any extension, hands out exactly its data |
| HttpBodies.ChunksRun | xx_chat_server/thirdparty/http/http_parser.cpp:1710-1826 | any list of chunks, each with a numeral of its own length, hands out the concatenated data and is ready for the next chunk |
| HttpBodies.ChunkedMessage | xx_chat_server/thirdparty/http/http_parser.cpp:1570-1826 | round trip of the chunked coding (section 3.6.1 of RFC 2616): any chunks, each with a hexadecimal numeral of its length, a last chunk with a numeral of 0 and trailer lines give exactly the concatenated data and one message_complete, at the final LF; a Content-Length is ignored |
| HttpLines.UrlRun | xx_chat_server/thirdparty/http/http_parser.cpp:996-1067 | while a URL is read the machine is in the state of the fold of parse_url_char, and every byte is handed out; where the fold dies the error is HPE_INVALID_URL |
| HttpLines.UrlAgreement | xx_chat_server/thirdparty/http/http_parser.cpp:1000-1067 | behind any spaces, a URL ended by a space, CR or LF is handed out complete exactly if the character loop of http_parser_parse_url, with is_connect for CONNECT only, gets through it and it ends where a URL may end; any other is HPE_INVALID_URL |
| HttpLines.NumberRun | xx_chat_server/thirdparty/http/http_parser.cpp:1102-1177 | a version number (and a status code) is read as the decimal value of its digits if that is at most 999, and refused otherwise |
| HttpUrl.DecimalIsSpelled | xx_chat_server/thirdparty/http/http_parser.cpp:1102-1177 | that value, and that of a port, is the number the digits spell, by quotients and remainders, and no other |
| HttpRequests.RequestLineRun | xx_chat_server/thirdparty/http/http_parser.cpp:872-1189 | blank lines before it, any spaces in it, with or without a version, ended by CR LF or LF: method, URL and version of a request line are the ones written |
| HttpMessages.RestOfMessage | xx_chat_server/thirdparty/http/http_parser.cpp:1191-1832 | headers and then no body, a sized or a chunked one, whichever they call for: all of it is told as it was written, and the message is complete with its last byte |
| HttpMessages.RestUntilEof | xx_chat_server/thirdparty/http/http_parser.cpp:590-1704 | headers that leave the length open: the body is handed out as it comes, and the zero-length call completes the message |
| HttpMessages.RestSwitches | xx_chat_server/thirdparty/http/http_parser.cpp:1584-1659 | for an upgrade or CONNECT parsing stops right behind the blank line, whatever comes next |
| HttpRequests.RequestRun | xx_chat_server/thirdparty/http/http_parser.cpp:572-1863 | a whole request, without body, with a sized or with a chunked one, is told as it was written; afterwards the parser awaits the next message exactly if the connection stays open |
| HttpRequests.UpgradeRun | xx_chat_server/thirdparty/http/http_parser.cpp:572-1863 | a whole request for an upgrade, or CONNECT, is told as it was written and consumed to its last byte and no further |
| HttpPipelines.ServeRequests | xx_chat_server/thirdparty/http/http_parser.cpp:572-1863 | any number of requests on one connection, passed to successive calls in any pieces: the callbacks tell them in order, and nothing else |
| HttpPipelines.ReadResponses | xx_chat_server/thirdparty/http/http_parser.cpp:572-1863 | the same for responses |
| HttpPipelines.ReadToEnd | xx_chat_server/thirdparty/http/http_parser.cpp:572-1863 | a response in any pieces whose body lasts as long as the connection, and then the zero-length call: all of it is told, and message_complete once, at the end |
| HttpPipelines.ServeUpgrade | xx_chat_server/thirdparty/http/http_parser.cpp:572-1863 | an upgrade or CONNECT in any pieces, with anything behind it: exactly its own bytes are consumed, and the calls for later pieces are not made |
| HttpTold.RequestsTold | xx_chat_server/thirdparty/http/http_parser.cpp:61-118 | requests that lead to the same events have the same URLs, header names, header values line by line, bodies and trailers |
| HttpTold.ResponsesTold | xx_chat_server/thirdparty/http/http_parser.cpp:61-118 | the same for headers, bodies and trailers of responses |
| HttpBoth.Decided | xx_chat_server/thirdparty/http/http_parser.cpp:643-692 | a parser of type HTTP_BOTH reads HT and what follows as one of type HTTP_RESPONSE, HE and anything that does not begin with H as one of type HTTP_REQUEST, and H with any other byte is HPE_INVALID_CONSTANT |
| HttpBoth.BothRequest | xx_chat_server/thirdparty/http/http_parser.cpp:643-1863 | it reads a whole request as a parser of requests does, and is one afterwards |
| HttpBoth.BothResponse | xx_chat_server/thirdparty/http/http_parser.cpp:643-1863 | it reads a whole response as a parser of responses does, but announces nothing for line breaks before it |
| HttpResponses.StatusLineRun | xx_chat_server/thirdparty/http/http_parser.cpp:694-870 | any spaces before the code, with a reason, an empty one or none, ended by CR LF or LF: version and status code of a status line are the numbers written |
| HttpResponses.ResponseRun | xx_chat_server/thirdparty/http/http_parser.cpp:572-1863 | a whole response, without body, with a sized or with a chunked one, is told as it was written; afterwards the parser awaits the next exactly if the connection stays open |
| HttpResponses.ResponseUntilEof | xx_chat_server/thirdparty/http/http_parser.cpp:572-1863 | a whole response whose body lasts as long as the connection, completed by its end |
| HttpResponses.BlankLinesBegin | xx_chat_server/thirdparty/http/http_parser.cpp:694-715 | in s_start_res every leading line break announces one more message_begin |
| HttpUrl.ParseUrl | xx_chat_server/thirdparty/http/http_parser.cpp:2077-2174 | succeeds exactly if parse_url_char gets through the URL, the host field, where there is one, is an authority, CONNECT has host and port and nothing else, and strtoul reads at most 65535; then the spans are exactly the bytes each pass gave to each field, non-empty and in the order schema, userinfo, host, port, path, query, fragment, and everything else is a delimiter |
| HttpUrl.TilesExactly | xx_chat_server/thirdparty/http/http_parser.cpp:2099-2148 | which byte belongs to which field determines the set fields and their spans: there is one result only |
| HttpUrl.OriginAccepted | xx_chat_server/thirdparty/http/http_parser.cpp:2077-2174 | a target that begins with / or * is accepted exactly if parse_url_char gets through it |
| HttpUrlOutline.OutlineFound | xx_chat_server/thirdparty/http/http_parser.cpp:2077-2148 | the first pass gets through every outline of schema, server, path, query and fragment and gives each byte to the field it stands in |
| HttpUrlOutline.OutlineOf | xx_chat_server/thirdparty/http/http_parser.cpp:424-570 | and through nothing else: every text the fold of parse_url_char survives is such an outline |
| HttpUrlAuthority.AuthorityRead | xx_chat_server/thirdparty/http/http_parser.cpp:2005-2075 | http_parse_host accepts every authority and divides it as it was put together |
| HttpUrlAuthority.AuthorityOf | xx_chat_server/thirdparty/http/http_parser.cpp:2005-2075 | and nothing else: whatever it accepts is an optional userinfo, a host name or bracketed IPv6 address, and an optional port |
| HttpUrlParts.PartsRecovered | xx_chat_server/thirdparty/http/http_parser.cpp:2077-2174 | the round trip: in a URL, or target of a CONNECT, composed of any parts the spans are exactly these parts, and a field is set exactly if its part is not empty |
| HttpUrlParts.ComposedAccepted | xx_chat_server/thirdparty/http/http_parser.cpp:2150-2168 | a composed URL is accepted exactly if its port, with the digits behind it in memory where it ends the URL, is at most 65535, and for CONNECT there is a port and nothing else beside the host |
| HttpUrlParts.AcceptedExactly | xx_chat_server/thirdparty/http/http_parser.cpp:2077-2174 | the grammar: a URL is accepted exactly if it is composed of such parts and meets that condition |
| HttpUrlParts.SplitComposed | xx_chat_server/thirdparty/http/http_parser.cpp:2077-2174 | a call with a composed URL fails exactly if it does not meet the condition, and otherwise gives back its parts and the value of its port |
| HttpUrlParts.PortReadsOn | xx_chat_server/thirdparty/http/http_parser.cpp:2157-2168 | for any schema and any authority with a port of one digit at the end of the URL, a digit in the memory behind it makes a port of two digits, while the slice keeps the one |
| HttpUrlParts.PortEighty | xx_chat_server/thirdparty/http/http_parser.cpp:2157-2168 | http://h:8 in front of a byte 0 has port 80 |
| HttpUrl.ParseHost | xx_chat_server/thirdparty/http/http_parser.cpp:2005-2075 | within the host field every byte goes to userinfo, host, port or none as the fold of http_parse_host_char says, outside it nothing changes; fails exactly if that fold refuses the field |
| HttpUrl.UrlAdvances | xx_chat_server/thirdparty/http/http_parser.cpp:424-570 | no character leads parse_url_char back to an earlier field |
| HttpUrl.HostAdvances | xx_chat_server/thirdparty/http/http_parser.cpp:1939-2003 | no character leads http_parse_host_char back to an earlier part |
| HttpUrl.PortIsItsSlice | xx_chat_server/thirdparty/http/http_parser.cpp:2157-2168 | the port is the decimal value of its slice exactly if a byte of the URL follows it, or the memory behind the URL does not go on with a digit, or the slice and those digits are all zeros |
| Pdu.SimpleBuffer.Write | xx_chat_server/src/base/util_pdu.cpp:39-49 | appends to the contents, or claims space behind them when there is no data, whatever growth takes place |
| Pdu.SimpleBuffer.Read | xx_chat_server/src/base/util_pdu.cpp:51-64 | takes at most what is there off the front and keeps the rest in order |
| Pdu.SimpleBuffer.Extend | xx_chat_server/src/base/util_pdu.cpp:31-37 | keeps the contents, and leaves a quarter more than what is asked for |
| Pdu.Put16Reads | xx_chat_server/src/base/util_pdu.cpp:88-92 | a 16-bit field reads back modulo 2^16, whatever surrounds it |
| Pdu.Put32Reads | xx_chat_server/src/base/util_pdu.cpp:100-104 | a 32-bit field reads back modulo 2^32 |
| PduHeader.HeaderRoundTrip | xx_chat_server/src/base/im_pdu_base.cpp:100-115 | a header read from the bytes it was written to is that header |
| PduHeader.HeaderIsItsBytes | xx_chat_server/src/base/im_pdu_base.cpp:45-56 | writing a header read from 16 bytes gives these 16 bytes |
| PduHeader.HeaderPlaces | xx_chat_server/src/base/im_pdu_base.cpp:45-56 | which byte of which field stands where in the 16 bytes, by place value: every field with its high byte first, the length in the first four |
| PduHeader.SettersExact | xx_chat_server/src/base/im_pdu_base.cpp:58-98 | any sequence of setters changes exactly the fields set, in their low 16 bits, and neither length nor body; error and sequence number share a field |
| PduHeader.MessageRoundTrip | xx_chat_server/src/base/im_pdu_base.cpp:117-163 | SetPBMsg, any setters, and then ReadPdu in front of any other bytes give the fields set, the right length and the same body |
| PduHeader.RelayKeepsFields | xx_chat_server/src/base/im_pdu_base.cpp:117-163 | ReadPdu followed by SetPBMsg with a new body keeps version, flag, service, command, sequence and reserved field, and changes only length and body |
| PduHeader.ImPdu.SetPBMsg | xx_chat_server/src/base/im_pdu_base.cpp:149-163 | whatever was in the buffer, afterwards it holds the header, with the whole length, and the body |
| PduHeader.ImPdu.WriteHeader | xx_chat_server/src/base/im_pdu_base.cpp:45-56 | overwrites exactly the first 16 bytes with the header record and the length of the buffer |
| PduHeader.ImPdu.ReadPduHeader | xx_chat_server/src/base/im_pdu_base.cpp:100-115 | fills the header record from 16 bytes or refuses fewer |
| PduHeader.ReadPdu | xx_chat_server/src/base/im_pdu_base.cpp:117-131 | a new PDU with exactly the bytes announced and the header in them |
| PduStream.Available | xx_chat_server/src/base/im_pdu_base.cpp:133-147 | a caller is told to wait exactly while more bytes can change the answer; a frame with room for its header is found exactly when the bytes begin with a PDU, and then it is that PDU |
| PduStream.DeframeMore | xx_chat_server/src/base/im_conn.cpp:116-148 | how reads divide the stream does not matter to what is framed; a corrupt stream stays corrupt |
| PduStream.DeframePrefix | xx_chat_server/src/base/im_conn.cpp:136-143 | any part of a stream of PDUs frames to those complete in it, in order, and the start of the next |
| PduStream.MessagesArePdus | xx_chat_server/src/base/im_pdu_base.cpp:149-163 | what SetPBMsg and the setters leave is a PDU of the framing theorem |
| PduStream.ImConn.Send | xx_chat_server/src/base/im_conn.cpp:70-104 | wire and outBuf_ together are all bytes sent so far, busy_ holds exactly when outBuf_ is not empty, and busy_ is only set when the socket refused |
| PduStream.ImConn.OnWrite | xx_chat_server/src/base/im_conn.cpp:150-175 | likewise; stops early only when the socket refuses |
| PduStream.ImConn.OnRead | xx_chat_server/src/base/im_conn.cpp:116-148 | the PDUs handed on are those framed in everything received, inBuf_ holds the rest, and OnClose has been called exactly if a length of 0 turned up |
| PduStream.EndToEnd | xx_chat_server/src/base/im_conn.cpp:70-175 | whatever the two connections have been through, the PDUs handed on are the first of those sent, and all of them once outBuf_ is empty and the wire is read |
| ByteBuffer.Buffer.Append | xx_chat_server/src/net/buffer.cpp:147-166 | the readable bytes and then the new ones; the size is at most max(old size, readable + 2 len + 7) |
| ByteBuffer.Buffer.MakeSpace | xx_chat_server/src/net/buffer.cpp:364-380 | grows or compacts without changing the readable bytes; the assert at 373 holds |
| ByteBuffer.SpacedEnough | xx_chat_server/src/net/buffer.cpp:159-166 | making space makes it, keeps the number of readable bytes, never shrinks, and bounds the waste |
| ByteBuffer.SpaceBound | xx_chat_server/src/net/buffer.cpp:78-89 | over any run of appends, retrieves, prepends and unwrites the size stays within max(first size, most readable + 2 longest append + 7) |
| ByteBuffer.Buffer.Retrieve | xx_chat_server/src/net/buffer.cpp:78-89 | drops from the front, and starts over when all is taken |
| ByteBuffer.Buffer.Prepend | xx_chat_server/src/net/buffer.cpp:303-309 | the new bytes in front of the readable ones |
| ByteBuffer.Buffer.Unwrite | xx_chat_server/src/net/buffer.cpp:184-188 | drops from the back |
| ByteBuffer.Buffer.Shrink | xx_chat_server/src/net/buffer.cpp:311-317 | keeps the readable bytes in a vector of exactly 8 + max(1024, readable + reserve) bytes |
| ByteBuffer.Buffer.ReadFd | xx_chat_server/src/net/buffer.cpp:324-352 | whatever the scattered read delivers is appended, whole and in order, also across the two areas |
| ByteBuffer.IntRoundTrip | xx_chat_server/src/net/buffer.cpp:191-276 | a signed integer of any width reads back from its big-endian bytes |
| ByteBuffer.BigPlaces | xx_chat_server/src/net/buffer.cpp:191-276 | network order by place value: byte i of n counts multiples of 256^(n-1-i) |
| ByteBuffer.MixedRoundTrip | xx_chat_server/src/net/buffer.cpp:191-276 | integers of any mixture of widths come out as they went in, and what follows is untouched |
| ByteBuffer.Buffer.ReadInt | xx_chat_server/src/net/buffer.cpp:216-243 | decodes the first bytes and drops them |
| TcpOutput.TcpConnection.SendInLoop | xx_chat_server/src/net/tcp_connection.cpp:108-162 | unless disconnected the data is accepted; written + outputBuffer_ is everything accepted unless a direct write found the connection broken, and write interest is on exactly when outputBuffer_ is not empty; outputBuffer_ gains exactly what is kept, and exactly the callbacks of CallbacksExactly are queued |
| TcpOutput.TcpConnection.CallbacksExactly | xx_chat_server/src/net/tcp_connection.cpp:118-157 | a send queues at most one callback: write-complete exactly if nothing was buffered and all of the data was taken at once, the high-water mark, with the length then buffered, exactly if that has crossed it |
| TcpOutput.TcpConnection.Send | xx_chat_server/src/net/tcp_connection.cpp:66-101 | from kConnected only: on the loop's thread all that SendInLoop does, from another the data queued as one functor and nothing else |
| TcpOutput.TcpConnection.HandleWrite | xx_chat_server/src/net/tcp_connection.cpp:268-299 | moves the front of outputBuffer_ to the wire; when that empties it, turns write interest off, announces it, and makes a pending shutdown good |
| TcpOutput.TcpConnection.KeepRest | xx_chat_server/src/net/tcp_connection.cpp:147-161 | buffers the rest, enables writing, and reports the high-water mark exactly when it is crossed |
| TcpOutput.TcpConnection.Shutdown | xx_chat_server/src/net/tcp_connection.cpp:164-171 | from kConnected only; on the loop's thread the socket is shut at once exactly if nothing is left to send |
| TcpOutput.TcpConnection.ShutdownInLoop | xx_chat_server/src/net/tcp_connection.cpp:173-180 | while the connection is closing down shutdownWrite is reached with nothing left to send, and only so |
| TcpOutput.TcpConnection.ForceClose | xx_chat_server/src/net/tcp_connection.cpp:183-199 | queues the close of an open connection and leaves any other alone |
| TcpOutput.TcpConnection.RunTask | xx_chat_server/src/net/tcp_connection.cpp:173-199 | each queued functor, run whenever the loop comes to it, keeps all of the above, and queues, buffers, writes and shuts exactly what a send, a shutdown or a close then does |
| TcpOutput.TcpConnection.HandleEvent | xx_chat_server/src/net/channel.cpp:92-117 | the assert of handleClose holds exactly unless a hangup without POLLIN comes with POLLPRI or POLLRDHUP and the read then finds the end; only the write that takes the last byte buffered queues write-complete, and shuts a connection that is closing down |
| TcpOutput.TcpConnection.ConnectDestroyed | xx_chat_server/src/net/tcp_connection.cpp:234-245 | the assert of Channel::remove holds exactly if the connection is not still kDisconnecting |
| TcpOutput.DestroyedWhileClosing | xx_chat_server/src/net/tcp_connection.cpp:234-245 | established, shut down and destroyed: the assert of Channel::remove fails |
| TcpOutput.ClosedTwice | xx_chat_server/src/net/channel.cpp:92-117 | a hangup with POLLPRI and a read that finds the end: the assert of handleClose fails |
| TcpOutput.GracefulClose | xx_chat_server/src/net/tcp_connection.cpp:164-180 | a connection closing down with nothing queued or buffered has been shut, after all that was accepted was written |
| EventLoop.NoStrandedFunctor | xx_chat_server/src/net/event_loop.cpp:44-97 | over every interleaving: executed + rest of batch + pendingFunctors_ is everything queued, in mutex order; at poll a functor not queued by the loop's own thread outside loop(), or a quit since loop() began, finds the eventfd raised or a wakeup on its way |
| EventLoop.RunInv | xx_chat_server/src/net/event_loop.cpp:44-196 | the invariant behind it, along every run of steps |
| EventLoop.TurnRunsAll | xx_chat_server/src/net/event_loop.cpp:51-66 | once poll has returned and the loop is back at its test or past it, everything queued before has been executed, in order |
| EventLoop.EarlyFunctorsWait | xx_chat_server/src/net/event_loop.cpp:44-97 | until poll first returns nothing is executed and everything queued waits, and the loop is woken exactly if it was before or another thread has pushed or asked it to quit |
| EventLoop.EarlyFunctorWaits | xx_chat_server/src/net/event_loop.cpp:88-97 | such a wait is reached: a functor queued by the loop's own thread before loop() raises nothing |
| EventLoop.EarlyQuitForgotten | xx_chat_server/src/net/event_loop.cpp:44-76 | whatever quit was asked for before, a loop() entered returns only if one is asked for since, be it before the first test |
| EventLoop.QuitEnds | xx_chat_server/src/net/event_loop.cpp:51-76 | a quit asked for since ends the loop at its next test |
| EventLoop.EventLoop.QueueInLoop | xx_chat_server/src/net/event_loop.cpp:88-97 | pushes at the end, and raises the eventfd from other threads and from within functors |
| EventLoop.EventLoop.RunInLoop | xx_chat_server/src/net/event_loop.cpp:78-97 | from another thread the functor is queued and the eventfd raised by one; on the loop's thread just what the functor queues is, raising the eventfd once each while functors run |
| EventLoop.EventLoop.DoPendingFunctors | xx_chat_server/src/net/event_loop.cpp:153-169 | runs exactly the functors queued at the swap, in order, and leaves what they queued, announced by the eventfd |
| EventLoop.EventLoop.HandleRead | xx_chat_server/src/net/event_loop.cpp:188-196 | takes the eventfd back to 0 and nothing else |
| DbPool.PoolSafe | xx_chat_server/src/db_proxy_server/db_pool.cpp:194-235 | over every interleaving: no duplicates in the free list, free and lent disjoint, free + lent = curDbConnCnt_ <= max(2, maxDbConnCnt_), and un-notified waiters only while free <= notified |
| DbPool.NoLostWakeup | xx_chat_server/src/db_proxy_server/db_pool.cpp:194-235 | if somebody waits and no notification is on its way, every connection is lent |
| DbPool.CallEnds | xx_chat_server/src/db_proxy_server/db_pool.cpp:194-219 | a call, or a waiter back from its wait, waits exactly if every connection is lent and the limit reached, fails exactly if every connection is lent below the limit and no other can be made, and otherwise has a connection nobody had |
| DbPool.ReturnEnds | xx_chat_server/src/db_proxy_server/db_pool.cpp:221-235 | a connection given back is free, last in line, and exactly one waiter is notified if there is any |
| DbPool.PoolGrows | xx_chat_server/src/db_proxy_server/db_pool.cpp:194-219 | of any threads that call one after another the pool serves up to max(2, maxDbConnCnt_) in all, and the others wait |
| DbPool.DBPool.Init | xx_chat_server/src/db_proxy_server/db_pool.cpp:179-192 | succeeds exactly if both first connections do, and then both are free |
| DbPool.DBPool.GetDBConn | xx_chat_server/src/db_proxy_server/db_pool.cpp:194-219 | one stay under the mutex: the connection longest free if one is; else, below the limit, a new one, and nothing exactly when it cannot be made; else a wait |
| DbPool.DBPool.ReleaseDBConn | xx_chat_server/src/db_proxy_server/db_pool.cpp:221-235 | appends the connection unless it is in the free list already |
| ProxyRouting.AcceptIndexes | xx_chat_server/src/db_proxy_server/proxy_conn.cpp:94-130 | a new connection is in both maps exactly if its uuid is not that of a live connection; the others stay as they are |
| ProxyRouting.CloseIndexes | xx_chat_server/src/db_proxy_server/proxy_conn.cpp:107-114 | only the connection closed leaves the uuid map; the maps stay in step exactly if it was live or its handle is not in use again, and exactly otherwise netlib_close closes the socket of another connection |
| ProxyRouting.StaleCloseMisroutes | xx_chat_server/src/db_proxy_server/proxy_conn.cpp:107-114 | after such a close the handle's new owner is still found by its uuid, but answers to it reach no socket, and go out over the socket of the next connection given the handle |
| ProxyRouting.ClosedAgain | xx_chat_server/src/db_proxy_server/proxy_conn.cpp:107-130 | accepted, closed, the handle accepted again, the first closed again, the handle accepted once more: answers to the second go out over the socket of the third |
| ProxyRouting.SendRoutes | xx_chat_server/src/db_proxy_server/proxy_conn.cpp:211-228 | one response with a PDU goes to the connection of its uuid, over a socket that is still that connection's, one without closes that connection and no other, and without such a connection it is dropped |
| ProxyRouting.WrapMisroutes | xx_chat_server/src/db_proxy_server/proxy_conn.cpp:94-101 | after a wrap onto a live uuid, answers to the new connection go to the old one |
| ProxyRouting.UuidIs | xx_chat_server/src/db_proxy_server/proxy_conn.cpp:94-101 | the n-th uuid handed out is (n - 1) mod (2^32 - 1) + 1: never 0, and the first to come back is 1 |
| ProxyRouting.ProxyServer.Accept | xx_chat_server/src/db_proxy_server/proxy_conn.cpp:94-130 | SetUuid and OnConnect; before the allocator wraps all invariants are kept |
| ProxyRouting.ProxyServer.Close | xx_chat_server/src/db_proxy_server/proxy_conn.cpp:107-114 | closes the socket that has the handle now, and takes handle and uuid out of the maps; for a live connection that keeps the maps in step |
| ProxyRouting.ProxyServer.OnClose | xx_chat_server/src/db_proxy_server/proxy_conn.cpp:161-165 | the end of a live connection from outside: that one and no other ends, and all invariants are kept |
| ProxyRouting.ProxyServer.SendResponsePduList | xx_chat_server/src/db_proxy_server/proxy_conn.cpp:211-228 | takes every response off the list in order; a connection is live afterwards exactly if it was and no response without a PDU was for it, and has been sent exactly the PDUs for its uuid up to the first such response |
| ProxyRouting.RightConnection | xx_chat_server/src/db_proxy_server/proxy_conn.h:43-46 | a connection has been sent exactly the answers to its own requests taken while it was open, in order, however often socket handles have been reused, and it is open exactly if neither ended from outside nor by a response without a PDU |

## Left out

- The parser's fields are one record held by the class, not one Dafny field each: the arms of the switch are functions from record to record. Aliasing of the struct by callbacks is not modelled.
- Callbacks that return errors or change the parser, `http_parser_pause`, `http_body_is_final` and non-strict mode. An on_headers_complete that answers 1 is modelled.
- `http_parser_settings`: every callback is taken to be set. Whether a slice is the last of its field is kept in the model; the callbacks are not told.
- HttpUrl.ParseUrl: requires a zeroed result and at most 65535 bytes; the source does not clear `field_data`, and its offsets are 16 bits wide. The memory behind the URL that strtoul may read is a parameter.
- HttpUrl.ParseHost: likewise.
- HttpRules.BodyByTheRules: rule 4 of section 4.4 of RFC 2616 (multipart/byteranges) is left out, since the parser looks at no media type; that a response answers HEAD is for the callback to say.
- HttpParser.HttpParser.Execute: after an error the bytes behind the open mark may be missing from the callbacks, as in the source; how many depends on the pieces.
- HttpPipelines.ServeRequests: a CONNECT or an upgrade among the requests ends the pipeline, which HttpPipelines.ServeUpgrade covers.
- Character classes of bytes from 0x80 on in URLs: strict mode refuses them, as modelled; the non-strict table is not.
- Sizes beyond 2^31: the 32-bit offsets of SimpleBuffer wrap there. PduStream.ImConn states the bound where it sends and reads.
- Protobuf: a body is opaque bytes. Ticks, timers, heartbeats, peer address and logging of ImConn.
- ImConn.OnConfirm and EventDispatch. ProxyConn's own OnRead, which frames as ImConn's does.
- The client copies of http_parser, util_pdu, im_pdu_base and im_conn.
- ByteStream's string and data helpers and its variant over a SimpleBuffer; the operators `<<`.
- Buffer's searches for line ends (library calls) and its conversions to strings.
- TcpConnection's input buffer, callbacks' bodies, socket options; callbacks come last in the functions that call them, so that what they do is a later call in the model. Data races on `state_` between threads: each call is one step.
- epoll, eventfd limits, timeouts: poll may return at any time. Channel lists and the poller's own maps.
- EventLoop.EventLoop.RunInLoop: on the loop's thread the functor itself is opaque; only what it queues is seen.
- DbPool: MySQL itself, and pools chosen by name in DBManager. Callers that release a connection they do not hold.
- ProxyRouting: the thread pool and the handlers between a request and its AddResponsePdu; the socket layer, taken to hand out only handles not in use.
- Server selection, reconnects, configuration, login and message handlers, all user interfaces.
