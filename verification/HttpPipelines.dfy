/** Whole connections: what successive calls of the parser tell about the messages written to it,
    in whatever pieces they arrive. */
module HttpPipelines {
  import opened HttpTypes
  import opened HttpSwitch
  import opened HttpRun
  import opened HttpMarks
  import opened HttpHeaders
  import opened HttpParser
  import opened HttpBodies
  import opened HttpMessages
  import opened HttpRequests
  import opened HttpResponses

  // The input as it arrives; a call with none of it would mean the end of the connection
  predicate ArePieces(pieces: seq<string>, text: string) {
    Concat(pieces) == text && forall i :: 0 <= i < |pieces| ==> pieces[i] != ""
  }

  /** Any number of requests on one connection, however they are cut into pieces: the callbacks
      tell the same requests in the same order, and nothing else. */
  method ServeRequests(h: HttpParser, ghost rs: seq<Message>, pieces: seq<string>)
    returns (consumed: nat, calls: seq<Call>)
    requires h.Valid() && Idle(h.st) && Pipelined(h.st, rs) && ArePieces(pieces, Texts(rs))
    modifies h
    ensures h.Valid() && h.st.errno == OK && consumed == |Texts(rs)| && Flatten(calls) == EventsOf(rs)
  {
    hide Run, Pipelined, Flatten, Withheld, Rest;
    ghost var start := h.st;
    PipelineRun(start, rs);
    consumed, calls := h.ExecuteAll(pieces);
    StillOk(start, Texts(rs));
  }

  lemma StillOk(start: Parser, text: string)
    requires Rest(start) && Run(start, text).end == Ready
    ensures Run(start, text).p.errno == OK
  {
    hide Run;
    RunOk(start, text);
  }

  /** The same for responses. */
  method ReadResponses(h: HttpParser, ghost rs: seq<Response>, pieces: seq<string>)
    returns (consumed: nat, calls: seq<Call>)
    requires h.Valid() && Awaiting(h.st) && Succession(h.st, rs) && ArePieces(pieces, ResponseTexts(rs))
    modifies h
    ensures h.Valid() && h.st.errno == OK && consumed == |ResponseTexts(rs)| && Flatten(calls) == EventsOfAll(rs)
  {
    hide Run, Succession, Flatten, Withheld, Rest;
    ghost var start := h.st;
    SuccessionRun(start, rs);
    consumed, calls := h.ExecuteAll(pieces);
    StillOk(start, ResponseTexts(rs));
  }

  /** A response whose body lasts as long as the connection, and then the end of the connection. */
  method ReadToEnd(h: HttpParser, ghost line: StatusLine, ghost b: Block, ghost data: string, pieces: seq<string>)
    returns (calls: seq<Call>)
    requires h.Valid() && Awaiting(h.st) && HasStatus(h.st, line, b) && PlanOfResponse(h.st, line, b) == UntilEof
    requires ArePieces(pieces, StatusText(line) + (BlockText(b) + data))
    modifies h
    ensures h.Valid() && h.st.errno == OK
    ensures Flatten(calls) == (StatusEvents(line) + (BlockEvents(b) + Bytes(Body, data))) + [Told(MessageComplete)]
  {
    hide Run, HasStatus, PlanOfResponse, Flatten, Withheld, Rest, Eof, StatusText, BlockText, StatusEvents,
      BlockEvents, Bytes;
    ghost var start := h.st;
    ghost var q := ResponseUntilEof(start, line, b, data);
    var _, some := h.ExecuteAll(pieces);
    StillOk(start, StatusText(line) + (BlockText(b) + data));
    var _, end := h.Execute("");
    calls := some + end;
    FlattenMore(some, end);
  }

  /** A CONNECT or an upgrade: exactly its own bytes are consumed, and none of what follows is
      looked at, not even when more of it is offered. */
  method ServeUpgrade(h: HttpParser, ghost r: Message, ghost rest: string, pieces: seq<string>)
    returns (consumed: nat, calls: seq<Call>)
    requires h.Valid() && Idle(h.st) && HasHead(h.st, r) && PlanOfRequest(h.st, r) == Switching
    requires ArePieces(pieces, HttpRequests.HeadText(r) + rest)
    modifies h
    ensures h.Valid() && h.st.upgrade && consumed == |HttpRequests.HeadText(r)|
    ensures Flatten(calls) ==
      ([Told(MessageBegin)] + Whole(Url, r.line.url)) + (BlockEvents(r.headers) + [Told(MessageComplete)])
  {
    hide Run, HasHead, PlanOfRequest, Flatten, Withheld, Rest, BlockEvents, Bytes;
    UpgradeRun(h.st, r, rest);
    consumed, calls := h.ExecuteAll(pieces);
  }
}
