/** Responses from worker threads find their way to the connection that asked: connections are
    known by socket handle and by uuid, and handles come back into use while uuids do not. */
module ProxyRouting {
  import opened Wrappers

  const UUIDS: nat := 0x1_0000_0000
  const INVALID_HANDLE: int := -1

  type Handle = int
  type Id = nat   // a ProxyConn object

  datatype Conn = Conn(uuid: nat, handle: Handle)

  type Pdu = seq<int>

  // A worker's answer; None stands for a request that could not be parsed
  datatype Response = Response(uuid: nat, pdu: Option<Pdu>)

  // A PDU given to a connection's SendPdu, and the connection its socket belonged to just then
  datatype Sent = Sent(conn: Id, owner: Option<Id>, pdu: Pdu)

  // ---- what is queued for whom ----

  function For(rs: seq<Response>, u: nat): seq<Pdu> {
    if rs == [] then []
    else
      var r := rs[|rs| - 1];
      For(rs[..|rs| - 1], u) + if r.uuid == u && r.pdu.Some? then [r.pdu.value] else []
  }

  function To(log: seq<Sent>, c: Id): seq<Pdu> {
    if log == [] then []
    else
      var e := log[|log| - 1];
      To(log[..|log| - 1], c) + if e.conn == c then [e.pdu] else []
  }

  lemma ForMore(rs: seq<Response>, r: Response, u: nat)
    ensures For(rs + [r], u) == For(rs, u) + if r.uuid == u && r.pdu.Some? then [r.pdu.value] else []
  {
    assert (rs + [r])[..|rs|] == rs;
  }

  lemma ToMore(log: seq<Sent>, e: Sent, c: Id)
    ensures To(log + [e], c) == To(log, c) + if e.conn == c then [e.pdu] else []
  {
    assert (log + [e])[..|log|] == log;
  }

  // Where the first response comes that ends the connection with uuid u, one without a PDU
  function Until(rs: seq<Response>, u: nat): (n: nat)
    ensures n <= |rs|
  {
    if rs == [] then 0
    else
      var n := Until(rs[..|rs| - 1], u);
      if n < |rs| - 1 || (rs[|rs| - 1].uuid == u && rs[|rs| - 1].pdu.None?) then n else |rs|
  }

  predicate Ends(rs: seq<Response>, u: nat) { exists i :: 0 <= i < |rs| && rs[i].uuid == u && rs[i].pdu.None? }

  // What the connection with uuid u is due: the answers up to there
  function Due(rs: seq<Response>, u: nat): seq<Pdu> { For(rs[..Until(rs, u)], u) }

  lemma {:induction false} UntilIsFirst(rs: seq<Response>, u: nat)
    ensures var n := Until(rs, u);
      && (n < |rs| <==> Ends(rs, u))
      && (n < |rs| ==> rs[n].uuid == u && rs[n].pdu.None?)
      && forall i :: 0 <= i < n ==> !(rs[i].uuid == u && rs[i].pdu.None?)
  {
    if rs != [] {
      var front := rs[..|rs| - 1];
      UntilIsFirst(front, u);
      if Ends(front, u) {
        var i :| 0 <= i < |front| && front[i].uuid == u && front[i].pdu.None?;
        assert rs[i] == front[i];
      }
      if Ends(rs, u) {
        var i :| 0 <= i < |rs| && rs[i].uuid == u && rs[i].pdu.None?;
        assert i < |front| ==> front[i] == rs[i];
      }
    }
  }

  lemma DueMore(rs: seq<Response>, r: Response, u: nat)
    ensures Due(rs + [r], u) ==
      Due(rs, u) + if !Ends(rs, u) && r.uuid == u && r.pdu.Some? then [r.pdu.value] else []
    ensures Ends(rs + [r], u) <==> Ends(rs, u) || (r.uuid == u && r.pdu.None?)
  {
    hide For;
    var all := rs + [r];
    assert all[..|all| - 1] == rs && all[|all| - 1] == r;
    UntilIsFirst(rs, u);
    UntilIsFirst(all, u);
    assert all[..|all|] == all && rs[..|rs|] == rs;
    var n := Until(rs, u);
    if n < |rs| {
      assert all[..n] == rs[..n];
    } else {
      assert all[..|rs|] == rs;
      ForMore(rs, r, u);
    }
  }

  lemma DueOfFor(rs: seq<Response>, u: nat)
    ensures Due(rs, u) <= For(rs, u) && (!Ends(rs, u) ==> Due(rs, u) == For(rs, u))
  {
    hide For;
    var n := Until(rs, u);
    UntilIsFirst(rs, u);
    assert rs[..n] + rs[n..] == rs && rs[..|rs|] == rs;
    ForPrefix(rs[..n], rs[n..], u);
  }

  // ++uuid_alloctor_ in 32 bits, once more when that gives 0
  function NextUuid(allocator: nat): (u: nat)
    ensures 0 < u < UUIDS
  {
    var u := (allocator + 1) % UUIDS;
    if u == 0 then 1 else u
  }

  // The uuid of the n-th connection
  function UuidOf(n: nat): nat { if n == 0 then 0 else NextUuid(UuidOf(n - 1)) }

  /** The allocator goes through 1 to 2^32 - 1 and begins again at 1. */
  lemma {:induction false} UuidIs(n: nat)
    requires n > 0
    ensures UuidOf(n) == (n - 1) % (UUIDS - 1) + 1
  {
    if n > 1 {
      UuidIs(n - 1);
      var m := UUIDS - 1;
      var q, r := (n - 2) / m, (n - 2) % m;
      assert n - 2 == q * m + r;
      if r == m - 1 { RemainderIs(n - 1, m, q + 1, 0); } else { RemainderIs(n - 1, m, q, r + 1); }
    }
  }

  lemma RemainderIs(n: nat, m: nat, q: nat, r: nat)
    requires n == q * m + r && r < m
    ensures n % m == r
  {
    var k := n / m;
    assert n == k * m + n % m;
    Less(k, q, m);
    Less(q, k, m);
  }

  lemma Less(a: nat, b: nat, m: nat)
    ensures a < b ==> (a + 1) * m <= b * m
  {}

  lemma {:induction false} ForNobody(rs: seq<Response>, u: nat)
    requires forall i :: 0 <= i < |rs| ==> rs[i].uuid != u
    ensures For(rs, u) == []
  {
    if rs != [] { ForNobody(rs[..|rs| - 1], u); }
  }

  lemma {:induction false} ToNobody(log: seq<Sent>, c: Id)
    requires forall i :: 0 <= i < |log| ==> log[i].conn != c
    ensures To(log, c) == []
  {
    if log != [] { ToNobody(log[..|log| - 1], c); }
  }

  // ---- the maps ----

  // Every connection ever made, its index the object; the maps over those that live; and the
  // open sockets, each with the connection it was accepted for
  datatype Maps = Maps(conns: seq<Conn>, handles: map<Handle, Id>, uuids: map<nat, Id>, sockets: map<Handle, Id>)

  const NOBODY: Maps := Maps([], map[], map[], map[])

  predicate Live(m: Maps, c: Id) {
    c < |m.conns| && m.conns[c].uuid in m.uuids && m.uuids[m.conns[c].uuid] == c
  }

  predicate HandleLeads(m: Maps, c: Id)
    requires c < |m.conns|
  {
    m.conns[c].handle in m.handles && m.handles[m.conns[c].handle] == c
  }

  predicate SocketOpen(m: Maps, c: Id) {
    c < |m.conns| && m.conns[c].handle in m.sockets && m.sockets[m.conns[c].handle] == c
  }

  // Both maps know exactly the live connections, each by its own handle and uuid, and exactly
  // their sockets are open
  predicate Indexed(m: Maps) {
    && (forall u :: u in m.uuids ==> m.uuids[u] < |m.conns| && m.conns[m.uuids[u]].uuid == u)
    && (forall h :: h in m.handles ==>
          h != INVALID_HANDLE && m.handles[h] < |m.conns| && m.conns[m.handles[h]].handle == h)
    && (forall c :: 0 <= c < |m.conns| ==> (HandleLeads(m, c) <==> Live(m, c)))
    && m.sockets == m.handles
  }

  // No uuid has been given twice so far
  predicate Distinct(m: Maps) {
    forall c :: 0 <= c < |m.conns| ==> m.conns[c].uuid == c + 1
  }

  // insert leaves an entry that is there already as it is
  function Inserted<K, V>(m: map<K, V>, k: K, v: V): map<K, V> {
    if k in m then m else m[k := v]
  }

  function Accepted(m: Maps, uuid: nat, handle: Handle): Maps {
    var c := |m.conns|;
    Maps(m.conns + [Conn(uuid, handle)], Inserted(m.handles, handle, c), Inserted(m.uuids, uuid, c),
      Inserted(m.sockets, handle, c))
  }

  // The socket is looked up by its handle, whosever it is by now
  function Closed(m: Maps, c: Id): Maps
    requires c < |m.conns|
  {
    if m.conns[c].handle == INVALID_HANDLE then m
    else
      m.(handles := m.handles - {m.conns[c].handle}, uuids := m.uuids - {m.conns[c].uuid},
         sockets := m.sockets - {m.conns[c].handle})
  }

  // The maps of such a run
  lemma ClosedTwice(h: Handle, pdu: Pdu)
    requires h != INVALID_HANDLE
    ensures h !in NOBODY.sockets && NextUuid(0) == 1 && NextUuid(1) == 2 && NextUuid(2) == 3
    ensures var a := Accepted(NOBODY, 1, h);
      && |a.conns| == 1 && h !in Closed(a, 0).sockets
      && var b := Accepted(Closed(a, 0), 2, h);
      && |b.conns| == 2 && h !in Closed(b, 0).sockets && |Closed(a, 0).conns| == 1 && |Closed(b, 0).conns| == 2
      && var c := Accepted(Closed(b, 0), 3, h);
      && |c.conns| == 3 && Live(c, 1) && c.conns[1].uuid == 2
      && SentFor(c, Response(2, Some(pdu))) == [Sent(1, Some(2), pdu)]
  {}

  /** A connection accepted on a socket not in use is found by both maps, exactly when its uuid is
      not still that of a live connection: after the 32-bit allocator has wrapped it may be. */
  lemma AcceptIndexes(m: Maps, uuid: nat, handle: Handle)
    requires Indexed(m) && handle != INVALID_HANDLE && handle !in m.sockets
    ensures Indexed(Accepted(m, uuid, handle)) <==> uuid !in m.uuids
    ensures uuid !in m.uuids ==> Live(Accepted(m, uuid, handle), |m.conns|)
    ensures forall c :: 0 <= c < |m.conns| ==> (Live(Accepted(m, uuid, handle), c) <==> Live(m, c))
  {
    var n := Accepted(m, uuid, handle);
    assert HandleLeads(n, |m.conns|);
    forall c | 0 <= c < |m.conns| ensures Live(n, c) <==> Live(m, c) {}
    forall c | 0 <= c < |m.conns| ensures HandleLeads(n, c) <==> HandleLeads(m, c) {}
  }

  /** Closing takes only that connection out of the uuid map, but whatever socket has its handle:
      another connection's socket is closed just when the one closed was closed before and its
      handle is in use again; and just then the maps are no longer in step. */
  lemma CloseIndexes(m: Maps, c: Id)
    requires Indexed(m) && Distinct(m) && c < |m.conns|
    ensures Indexed(Closed(m, c)) <==> Live(m, c) || m.conns[c].handle !in m.sockets
    ensures forall d :: 0 <= d < |m.conns| ==> (Live(Closed(m, c), d) <==> Live(m, d) && d != c)
    ensures !SocketOpen(Closed(m, c), c)
    ensures (exists d: Id :: d != c && SocketOpen(m, d) && !SocketOpen(Closed(m, c), d)) <==>
            !Live(m, c) && m.conns[c].handle in m.sockets
  {
    var n, h := Closed(m, c), m.conns[c].handle;
    forall d | 0 <= d < |m.conns| ensures Live(n, d) <==> Live(m, d) && d != c {}
    forall d | 0 <= d < |m.conns| ensures HandleLeads(n, d) <==> HandleLeads(m, d) && m.conns[d].handle != h {}
    forall d: Id | SocketOpen(m, d) && !SocketOpen(n, d) ensures m.conns[d].handle == h && d == m.sockets[h] {}
    if !Live(m, c) && h in m.sockets {
      var d := m.sockets[h];
      assert HandleLeads(m, d) && Live(n, d) && !HandleLeads(n, d);
      assert d != c && SocketOpen(m, d) && !SocketOpen(n, d);
    }
  }

  // ---- routing ----

  // How many responses had been taken when a connection was ended other than by one of them
  type Endings = map<Id, nat>

  // The responses taken while it could still hear them
  function Heard(handled: seq<Response>, ended: Endings, c: Id): seq<Response> {
    if c in ended && ended[c] <= |handled| then handled[..ended[c]] else handled
  }

  // Each connection has been sent, over its own socket, exactly what it was due, and it lives unless
  // it has been ended, or has had a response that ends it
  predicate Routed(m: Maps, ended: Endings, handled: seq<Response>, sent: seq<Sent>) {
    && (forall c :: 0 <= c < |m.conns| ==> Follows(m, ended, handled, sent, c))
    && (forall c :: c in ended ==> c < |m.conns| && ended[c] <= |handled|)
    && (forall i :: 0 <= i < |sent| ==> sent[i].conn < |m.conns| && sent[i].owner == Some(sent[i].conn))
  }

  predicate Follows(m: Maps, ended: Endings, handled: seq<Response>, sent: seq<Sent>, c: Id)
    requires c < |m.conns|
  {
    && To(sent, c) == Due(Heard(handled, ended, c), m.conns[c].uuid)
    && (Live(m, c) <==> c !in ended && !Ends(handled, m.conns[c].uuid))
  }

  predicate Asked(m: Maps, rs: seq<Response>) {
    forall i :: 0 <= i < |rs| ==> 0 < rs[i].uuid <= |m.conns|
  }

  lemma AcceptRoutes(m: Maps, ended: Endings, handled: seq<Response>, sent: seq<Sent>, handle: Handle)
    requires Indexed(m) && Distinct(m) && Asked(m, handled) && Routed(m, ended, handled, sent)
    requires handle != INVALID_HANDLE && handle !in m.sockets
    ensures var n := Accepted(m, |m.conns| + 1, handle);
            Indexed(n) && Distinct(n) && Routed(n, ended, handled, sent) && Live(n, |m.conns|)
  {
    hide For, To, Due;
    var u := |m.conns| + 1;
    var n := Accepted(m, u, handle);
    assert u !in m.uuids;
    AcceptIndexes(m, u, handle);
    NothingDue(handled, u);
    ToNobody(sent, |m.conns|);
    forall c | 0 <= c < |n.conns| ensures Follows(n, ended, handled, sent, c) {
      if c < |m.conns| { assert Follows(m, ended, handled, sent, c); }
    }
  }

  lemma NothingDue(rs: seq<Response>, u: nat)
    requires forall i :: 0 <= i < |rs| ==> rs[i].uuid != u
    ensures Due(rs, u) == [] && !Ends(rs, u)
  {
    ForNobody(rs[..Until(rs, u)], u);
  }

  // A live connection ended from outside
  lemma CloseRoutes(m: Maps, ended: Endings, handled: seq<Response>, sent: seq<Sent>, c: Id)
    requires Indexed(m) && Distinct(m) && Routed(m, ended, handled, sent) && Live(m, c)
    ensures var n := Closed(m, c);
            Indexed(n) && Distinct(n) && Routed(n, ended[c := |handled|], handled, sent) && !Live(n, c)
  {
    hide For, To, Due;
    var n, now := Closed(m, c), ended[c := |handled|];
    CloseIndexes(m, c);
    assert handled[..|handled|] == handled;
    forall d | 0 <= d < |m.conns| ensures Follows(n, now, handled, sent, d) {
      assert Follows(m, ended, handled, sent, d);
    }
  }

  // What is done with one response
  function SentFor(m: Maps, r: Response): seq<Sent> {
    if r.uuid in m.uuids && r.pdu.Some? && m.uuids[r.uuid] < |m.conns| then
      var c := m.uuids[r.uuid];
      var h := m.conns[c].handle;
      [Sent(c, if h in m.sockets then Some(m.sockets[h]) else None, r.pdu.value)]
    else []
  }

  function MapsAfter(m: Maps, r: Response): Maps {
    if r.uuid in m.uuids && r.pdu.None? && m.uuids[r.uuid] < |m.conns| then Closed(m, m.uuids[r.uuid]) else m
  }

  lemma SendRoutes(m: Maps, ended: Endings, handled: seq<Response>, sent: seq<Sent>, r: Response)
    requires Indexed(m) && Distinct(m) && Routed(m, ended, handled, sent)
    ensures var n := MapsAfter(m, r); Indexed(n) && Distinct(n) && n.conns == m.conns
    ensures Routed(MapsAfter(m, r), ended, handled + [r], sent + SentFor(m, r))
  {
    hide For, To, Due;
    var n, now, log := MapsAfter(m, r), handled + [r], sent + SentFor(m, r);
    if r.uuid in m.uuids {
      assert Live(m, m.uuids[r.uuid]) && HandleLeads(m, m.uuids[r.uuid]);
      if r.pdu.Some? { assert SentFor(m, r) == [Sent(m.uuids[r.uuid], Some(m.uuids[r.uuid]), r.pdu.value)]; }
      if r.pdu.None? { CloseIndexes(m, m.uuids[r.uuid]); }
    }
    forall c | 0 <= c < |m.conns| ensures Follows(n, ended, now, log, c) {
      assert Follows(m, ended, handled, sent, c);
      OneResponse(m, ended, handled, sent, r, c);
    }
  }

  // What one response is to one connection
  lemma OneResponse(m: Maps, ended: Endings, handled: seq<Response>, sent: seq<Sent>, r: Response, c: Id)
    requires Indexed(m) && Distinct(m) && c < |m.conns| && Follows(m, ended, handled, sent, c)
    requires c in ended ==> ended[c] <= |handled|
    ensures Follows(MapsAfter(m, r), ended, handled + [r], sent + SentFor(m, r), c)
  {
    hide For, To, Due;
    var u := m.conns[c].uuid;
    DueMore(handled, r, u);
    if c in ended { assert (handled + [r])[..ended[c]] == handled[..ended[c]]; }
    if SentFor(m, r) != [] { ToMore(sent, SentFor(m, r)[0], c); } else { assert sent + [] == sent; }
    if r.uuid in m.uuids && r.pdu.None? { CloseIndexes(m, m.uuids[r.uuid]); }
  }

  /** Once the allocator has come round to the uuid of a connection still open, answers to the new
      connection's requests go to the old one. */
  lemma WrapMisroutes(m: Maps, uuid: nat, handle: Handle, pdu: Pdu)
    requires Indexed(m) && uuid in m.uuids && handle != INVALID_HANDLE && handle !in m.sockets
    ensures var n := Accepted(m, uuid, handle);
            && n.conns[|m.conns|].uuid == uuid
            && (exists e :: SentFor(n, Response(uuid, Some(pdu))) == [e] && e.conn == m.uuids[uuid] != |m.conns|)
  {
    var n := Accepted(m, uuid, handle);
    var e := SentFor(n, Response(uuid, Some(pdu)))[0];
    assert SentFor(n, Response(uuid, Some(pdu))) == [e];
  }

  /** What a second close does once the handle is in use again: the new owner of the handle is still
      found by its uuid, but has no socket; and when the handle comes back into use once more, the
      answers to its requests go out over the socket of the connection that has it then. */
  lemma StaleCloseMisroutes(m: Maps, c: Id, pdu: Pdu)
    requires Indexed(m) && Distinct(m) && c < |m.conns| && !Live(m, c) && m.conns[c].handle in m.sockets
    ensures var n := Closed(m, c);
            var d := m.sockets[m.conns[c].handle];
            var next := Accepted(n, |m.conns| + 1, m.conns[c].handle);
            && d < |m.conns| && Live(n, d) && Live(next, d)
            && SentFor(n, Response(m.conns[d].uuid, Some(pdu))) == [Sent(d, None, pdu)]
            && SentFor(next, Response(m.conns[d].uuid, Some(pdu))) == [Sent(d, Some(|m.conns|), pdu)]
  {
    var d := m.sockets[m.conns[c].handle];
    assert HandleLeads(m, d) && Live(m, d);
    CloseIndexes(m, c);
  }

  // What the responses rs, taken while the maps went from m to n, have been to the connection d
  predicate Answered(m: Maps, n: Maps, before: seq<Sent>, sent: seq<Sent>, rs: seq<Response>, d: Id)
    requires d < |m.conns|
  {
    && n.conns == m.conns
    && (Live(n, d) <==> Live(m, d) && !Ends(rs, m.conns[d].uuid))
    && To(sent, d) == To(before, d) + if Live(m, d) then Due(rs, m.conns[d].uuid) else []
  }

  lemma NothingTaken(m: Maps, sent: seq<Sent>, d: Id)
    requires d < |m.conns|
    ensures Answered(m, m, sent, sent, [], d)
  {
    assert To(sent, d) + [] == To(sent, d) && Due([], m.conns[d].uuid) == [];
  }

  lemma OneMoreTaken(m0: Maps, m: Maps, before: seq<Sent>, sent: seq<Sent>, rs: seq<Response>, r: Response, d: Id)
    requires d < |m0.conns| && Indexed(m) && Distinct(m) && Answered(m0, m, before, sent, rs, d)
    ensures Answered(m0, MapsAfter(m, r), before, sent + SentFor(m, r), rs + [r], d)
  {
    hide For, To, Due;
    var u := m.conns[d].uuid;
    DueMore(rs, r, u);
    if SentFor(m, r) != [] { ToMore(sent, SentFor(m, r)[0], d); } else { assert sent + [] == sent; }
    if r.uuid in m.uuids && r.pdu.None? { CloseIndexes(m, m.uuids[r.uuid]); }
  }

  // ---- the server ----

  class ProxyServer {
    var conns: seq<Conn>
    var proxyConnMap: map<Handle, Id>
    var uuidConnMap: map<nat, Id>
    var socketMap: map<Handle, Id>
    var uuidAllocator: nat
    var responsePduList: seq<Response>
    ghost var handled: seq<Response>  // the responses taken off the list
    ghost var sent: seq<Sent>
    ghost var ended: Endings          // the connections ended other than by a response

    ghost function View(): Maps
      reads this
    {
      Maps(conns, proxyConnMap, uuidConnMap, socketMap)
    }

    // As long as the allocator has not wrapped
    ghost predicate Valid()
      reads this
    {
      && uuidAllocator == |conns| < UUIDS
      && Indexed(View()) && Distinct(View()) && Routed(View(), ended, handled, sent)
      && Asked(View(), handled) && Asked(View(), responsePduList)
    }

    constructor ()
      ensures Valid() && View() == NOBODY && uuidAllocator == 0 && responsePduList == [] && sent == []
    {
      conns, proxyConnMap, uuidConnMap, socketMap := [], map[], map[], map[];
      uuidAllocator, responsePduList := 0, [];
      handled, sent, ended := [], [], map[];
    }

    // A connection on a socket just accepted, one not in use: SetUuid, then OnConnect
    method Accept(handle: Handle) returns (c: Id)
      requires handle != INVALID_HANDLE && handle !in socketMap
      modifies `conns, `proxyConnMap, `uuidConnMap, `socketMap, `uuidAllocator
      ensures c == |old(conns)| && uuidAllocator == NextUuid(old(uuidAllocator))
      ensures View() == Accepted(old(View()), uuidAllocator, handle)
      ensures old(Indexed(View())) ==> (Indexed(View()) <==> uuidAllocator !in old(uuidConnMap))
      ensures old(Valid()) && old(uuidAllocator) + 1 < UUIDS ==> Valid() && Live(View(), c)
    {
      hide Indexed, Distinct, Routed, Live, For, To;
      c := |conns|;
      if Indexed(View()) { AcceptIndexes(View(), NextUuid(uuidAllocator), handle); }
      if Valid() && uuidAllocator + 1 < UUIDS { AcceptRoutes(View(), ended, handled, sent, handle); }
      if handle !in socketMap { socketMap := socketMap[handle := c]; }
      uuidAllocator := (uuidAllocator + 1) % UUIDS;
      if 0 == uuidAllocator { uuidAllocator := (uuidAllocator + 1) % UUIDS; }
      conns := conns + [Conn(uuidAllocator, handle)];
      if uuidAllocator !in uuidConnMap { uuidConnMap := uuidConnMap[uuidAllocator := c]; }
      if handle !in proxyConnMap { proxyConnMap := proxyConnMap[handle := c]; }
    }

    // netlib_close: the socket that has this handle now, if any
    method NetlibClose(handle: Handle)
      modifies `socketMap
      ensures socketMap == old(socketMap) - {handle}
    {
      if handle in socketMap { socketMap := socketMap - {handle}; }
    }

    method Close(c: Id)
      requires c < |conns|
      modifies `proxyConnMap, `uuidConnMap, `socketMap
      ensures View() == Closed(old(View()), c)
      ensures conns[c].handle != INVALID_HANDLE ==>
                && socketMap == old(socketMap) - {conns[c].handle}
                && proxyConnMap == old(proxyConnMap) - {conns[c].handle}
                && uuidConnMap == old(uuidConnMap) - {conns[c].uuid}
      ensures old(Indexed(View())) && old(Distinct(View())) && old(Live(View(), c)) ==>
                Indexed(View()) && Distinct(View()) && !Live(View(), c)
    {
      hide Indexed, Live;
      if Indexed(View()) && Distinct(View()) { CloseIndexes(View(), c); }
      if conns[c].handle != INVALID_HANDLE {
        NetlibClose(conns[c].handle);
        proxyConnMap := proxyConnMap - {conns[c].handle};
        uuidConnMap := uuidConnMap - {conns[c].uuid};
      }
    }

    // The peer has gone, its bytes make no PDU, or it has been silent for too long
    method OnClose(c: Id)
      requires Valid() && Live(View(), c)
      modifies `proxyConnMap, `uuidConnMap, `socketMap, `ended
      ensures Valid() && View() == Closed(old(View()), c) && ended == old(ended)[c := |handled|]
      ensures forall d :: 0 <= d < |conns| ==> (Live(View(), d) <==> old(Live(View(), d)) && d != c)
    {
      hide Indexed, Distinct, Routed, For, To;
      CloseRoutes(View(), ended, handled, sent, c);
      CloseIndexes(View(), c);
      Close(c);
      ended := ended[c := |handled|];
    }

    // On a worker's thread, for the connection whose uuid came with the request
    method AddResponsePdu(uuid: nat, pdu: Option<Pdu>)
      requires Valid() && 0 < uuid <= |conns|
      modifies `responsePduList
      ensures Valid() && responsePduList == old(responsePduList) + [Response(uuid, pdu)]
    {
      hide Indexed, Distinct, Routed;
      responsePduList := responsePduList + [Response(uuid, pdu)];
    }

    // On the main thread, once a turn
    method SendResponsePduList()
      requires Valid()
      modifies `responsePduList, `handled, `sent, `proxyConnMap, `uuidConnMap, `socketMap
      ensures Valid() && conns == old(conns) && responsePduList == []
      ensures handled == old(handled) + old(responsePduList) && old(sent) <= sent
      // a connection ends exactly if a response without a PDU is for it, and is sent those before
      ensures forall d :: 0 <= d < |conns| ==>
                (Live(View(), d) <==> old(Live(View(), d)) && !Ends(old(responsePduList), conns[d].uuid))
      ensures forall d :: 0 <= d < |conns| ==>
                To(sent, d) == old(To(sent, d))
                               + if old(Live(View(), d)) then Due(old(responsePduList), conns[d].uuid) else []
    {
      hide Indexed, Distinct, Routed, Live, For, To, MapsAfter, SentFor, Due, Ends, Until;
      ghost var taken: seq<Response> := [];
      forall d | 0 <= d < |conns| ensures Answered(old(View()), View(), old(sent), sent, taken, d) {
        NothingTaken(View(), sent, d);
      }
      while responsePduList != []
        invariant Valid() && conns == old(conns) && old(sent) <= sent
        invariant handled == old(handled) + taken && taken + responsePduList == old(responsePduList)
        invariant forall d :: 0 <= d < |conns| ==> Answered(old(View()), View(), old(sent), sent, taken, d)
        decreases |responsePduList|
      {
        ghost var m, log, r := View(), sent, responsePduList[0];
        SendOne();
        forall d | 0 <= d < |conns| ensures Answered(old(View()), View(), old(sent), sent, taken + [r], d) {
          assert Answered(old(View()), m, old(sent), log, taken, d);
          OneMoreTaken(old(View()), m, old(sent), log, taken, r, d);
        }
        taken := taken + [r];
      }
      assert taken + [] == taken;
      forall d | 0 <= d < |conns|
        ensures Live(View(), d) <==> old(Live(View(), d)) && !Ends(old(responsePduList), conns[d].uuid)
        ensures To(sent, d) == old(To(sent, d))
                               + if old(Live(View(), d)) then Due(old(responsePduList), conns[d].uuid) else []
      {
        assert Answered(old(View()), View(), old(sent), sent, taken, d);
      }
    }

    // The front of the list looked up, sent or answered by a close, and taken off
    method SendOne()
      requires Valid() && responsePduList != []
      modifies `responsePduList, `handled, `sent, `proxyConnMap, `uuidConnMap, `socketMap
      ensures Valid() && conns == old(conns)
      ensures handled == old(handled) + [old(responsePduList)[0]] && responsePduList == old(responsePduList)[1..]
      ensures sent == old(sent) + SentFor(old(View()), old(responsePduList)[0])
      ensures View() == MapsAfter(old(View()), old(responsePduList)[0])
      ensures old(Indexed(View())) && old(Distinct(View()))
    {
      hide Distinct, Routed, Live, For, To;
      var r := responsePduList[0];
      SendRoutes(View(), ended, handled, sent, r);
      handled := handled + [r];
      sent := sent + SentFor(View(), r);
      if r.uuid in uuidConnMap && r.pdu.None? {
        Close(uuidConnMap[r.uuid]);
      }
      responsePduList := responsePduList[1..];
    }
  }

  /** Such a second close, from the start: a connection accepted and closed, its handle given to a
      second one, the first closed again, and the handle given to a third: the answers to the second
      now go out over the socket of the third. */
  method ClosedAgain(handle: Handle, pdu: Pdu) returns (s: ProxyServer)
    requires handle != INVALID_HANDLE
    ensures |s.conns| == 3 && Live(s.View(), 1) && s.conns[1].uuid == 2
    ensures SentFor(s.View(), Response(2, Some(pdu))) == [Sent(1, Some(2), pdu)]
  {
    hide Indexed, Distinct, Routed, Asked, Accepted, Closed, Live, SentFor, For, To;
    ClosedTwice(handle, pdu);
    s := new ProxyServer();
    var first := s.Accept(handle);
    s.Close(first);
    var second := s.Accept(handle);
    s.Close(first);
    var third := s.Accept(handle);
  }

  /** What the uuids are for: whatever has happened, and however often handles have been used again,
      a connection has been sent exactly the answers to its own requests that were taken while it
      was open, in the order they were queued, and it is open unless it has been ended from outside
      or by a response without a PDU. */
  lemma RightConnection(s: ProxyServer, c: Id)
    requires s.Valid() && c < |s.conns|
    ensures To(s.sent, c) == Due(Heard(s.handled, s.ended, c), c + 1)
    ensures Live(s.View(), c) <==> c !in s.ended && !Ends(s.handled, c + 1)
    ensures To(s.sent, c) <= For(s.handled + s.responsePduList, c + 1)
    ensures Live(s.View(), c) ==> To(s.sent, c) == For(s.handled, c + 1)
  {
    hide For, To, Due;
    assert Follows(s.View(), s.ended, s.handled, s.sent, c);
    var heard := Heard(s.handled, s.ended, c);
    DueOfFor(heard, c + 1);
    assert heard + s.handled[|heard|..] == s.handled;
    ForPrefix(heard, s.handled[|heard|..], c + 1);
    ForPrefix(s.handled, s.responsePduList, c + 1);
  }

  lemma {:induction false} ForPrefix(a: seq<Response>, b: seq<Response>, u: nat)
    ensures For(a, u) <= For(a + b, u)
    decreases |b|
  {
    if b == [] {
      assert a + b == a;
    } else {
      var i := |b| - 1;
      ForPrefix(a, b[..i], u);
      ForMore(a + b[..i], b[i], u);
      assert a + b == a + b[..i] + [b[i]];
    }
  }
}
