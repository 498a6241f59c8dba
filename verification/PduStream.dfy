/** The PDU stream: framing of received bytes, a connection over a socket that takes any part of
    what it is offered, and what the receiver hands on against what the sender was given. */
module PduStream {
  import opened Pdu
  import opened PduHeader

  const MAX_SOCKET_BUF_SIZE: nat := 131072
  const READ_BUF_SIZE: nat := 2048

  // ---- framing ----

  datatype Frames = Frames(pdus: seq<seq<byte>>, rest: seq<byte>, corrupt: bool)

  // Everything OnRead's framing loop cuts from s
  function Deframe(s: seq<byte>): Frames
    decreases |s|
  {
    var f := Cut(s);
    if !f.Whole? then Frames([], s, f.Corrupt?)
    else
      var d := Deframe(s[|f.bytes|..]);
      Frames([f.bytes] + d.pdus, d.rest, d.corrupt)
  }

  lemma CutMore(s: seq<byte>, more: seq<byte>)
    ensures Cut(s).Whole? ==> Cut(s + more) == Cut(s)
    ensures Cut(s).Corrupt? ==> Cut(s + more) == Corrupt
  {
    if |s| >= HEADER_LEN {
      ParsePrefix(s, more);
      if Cut(s).Whole? { assert (s + more)[..U32(s, 0)] == s[..U32(s, 0)]; }
    }
  }

  /** Framing what is left over together with what comes next gives what framing everything at
      once gives: how reads divide the stream does not matter. A corrupt stream stays so. */
  lemma {:induction false} DeframeMore(s: seq<byte>, more: seq<byte>)
    ensures var d := Deframe(s);
            var e := Deframe(d.rest + more);
            && Deframe(s + more) == Frames(d.pdus + e.pdus, e.rest, e.corrupt)
            && (d.corrupt ==> e == Frames([], d.rest + more, true))
    decreases |s|
  {
    hide Cut, U32;
    CutMore(s, more);
    var f := Cut(s);
    if f.Whole? {
      var t := s[|f.bytes|..];
      DeframeMore(t, more);
      assert (s + more)[|f.bytes|..] == t + more;
      Prefixed(f.bytes, Deframe(t).pdus, Deframe(Deframe(t).rest + more).pdus);
    } else {
      Unprefixed(Deframe(s + more));
    }
  }

  lemma Prefixed(b: seq<byte>, x: seq<seq<byte>>, y: seq<seq<byte>>)
    ensures [b] + (x + y) == [b] + x + y
  {}

  lemma Unprefixed(e: Frames)
    ensures e == Frames([] + e.pdus, e.rest, e.corrupt)
  {}

  // The bytes of the sender's PDUs: at least a header, whose length field is the whole length
  predicate IsPdu(b: seq<byte>) {
    |b| >= HEADER_LEN && U32(b, 0) == |b|
  }

  predicate ArePdus(ps: seq<seq<byte>>) {
    forall i :: 0 <= i < |ps| ==> IsPdu(ps[i])
  }

  function Concat(ps: seq<seq<byte>>): seq<byte> {
    if ps == [] then [] else ps[0] + Concat(ps[1..])
  }

  lemma PrefixNotYet(b: seq<byte>, s: seq<byte>)
    requires IsPdu(b) && s <= b && |s| < |b|
    ensures Cut(s) == NotYet
  {
    if |s| >= HEADER_LEN { assert U32(s, 0) == U32(b, 0); }
  }

  lemma PduWhole(b: seq<byte>, s: seq<byte>)
    requires IsPdu(b) && b <= s
    ensures Cut(s).Whole? && Cut(s).bytes == b
  {
    assert U32(s, 0) == U32(b, 0);
  }

  /** What the test tells a receiver: it asks to wait exactly while more bytes can change its answer;
      it finds a frame that holds its own header exactly when the bytes begin with a PDU, and then
      gives that PDU and no other. */
  lemma Available(s: seq<byte>)
    ensures Cut(s).NotYet? <==> exists more :: Cut(s + more) != Cut(s)
    ensures Cut(s).Whole? && |Cut(s).bytes| >= HEADER_LEN <==> exists b :: IsPdu(b) && b <= s
    ensures forall b :: IsPdu(b) && b <= s ==> Cut(s).Whole? && Cut(s).bytes == b
    ensures forall b :: IsPdu(b) && s <= b && s != b ==> Cut(s).NotYet?
  {
    forall b | IsPdu(b) && b <= s ensures Cut(s).Whole? && Cut(s).bytes == b {
      PduWhole(b, s);
    }
    forall b | IsPdu(b) && s <= b && s != b ensures Cut(s).NotYet? {
      PrefixNotYet(b, s);
    }
    if Cut(s).NotYet? {
      var more := seq(0x1_0000_0000, _ => 0);
      EnoughDecides(s, more);
    } else {
      forall more ensures Cut(s + more) == Cut(s) { CutMore(s, more); }
    }
    if Cut(s).Whole? && |Cut(s).bytes| >= HEADER_LEN {
      FrameIsPdu(s);
    }
  }

  lemma FrameIsPdu(s: seq<byte>)
    requires Cut(s).Whole? && |Cut(s).bytes| >= HEADER_LEN
    ensures IsPdu(Cut(s).bytes) && Cut(s).bytes <= s
  {
    assert U32(Cut(s).bytes, 0) == U32(s, 0);
  }

  // No length field exceeds this many bytes
  lemma EnoughDecides(s: seq<byte>, more: seq<byte>)
    requires |more| == 0x1_0000_0000
    ensures !Cut(s + more).NotYet?
  {}

  lemma DeframeOne(b: seq<byte>, t: seq<byte>)
    requires IsPdu(b)
    ensures Deframe(b + t) == Frames([b] + Deframe(t).pdus, Deframe(t).rest, Deframe(t).corrupt)
  {
    hide Cut, U32;
    PduWhole(b, b + t);
    assert (b + t)[|b|..] == t;
  }

  lemma DeframeNone(s: seq<byte>)
    requires Cut(s) == NotYet
    ensures Deframe(s) == Frames([], s, false)
  {}

  // d is what the PDUs ps give up to some point
  predicate FirstOf(d: Frames, ps: seq<seq<byte>>, s: seq<byte>) {
    && d.pdus <= ps && !d.corrupt && Concat(d.pdus) + d.rest == s
    && (if |d.pdus| < |ps| then |d.rest| < |ps[|d.pdus|]| else d.rest == [])
  }

  lemma FirstOfMore(d: Frames, ps: seq<seq<byte>>, t: seq<byte>, b: seq<byte>)
    requires FirstOf(d, ps, t)
    ensures FirstOf(Frames([b] + d.pdus, d.rest, false), [b] + ps, b + t)
  {
    assert ([b] + d.pdus)[1..] == d.pdus;
    assert b + (Concat(d.pdus) + d.rest) == b + Concat(d.pdus) + d.rest;
  }

  /** Any part of the stream of PDUs frames to the PDUs complete in it, in order; the rest is the
      start of the next one. */
  lemma {:induction false} DeframePrefix(ps: seq<seq<byte>>, s: seq<byte>)
    requires ArePdus(ps) && s <= Concat(ps)
    ensures FirstOf(Deframe(s), ps, s)
  {
    hide Cut, U32, Deframe;
    if ps == [] {
      EmptyNotYet();
      DeframeNone(s);
    } else if |s| < |ps[0]| {
      assert s == Concat(ps)[..|s|] == ps[0][..|s|];
      PrefixNotYet(ps[0], s);
      DeframeNone(s);
      assert Concat([]) + s == s;
    } else {
      var b, t := ps[0], s[|ps[0]|..];
      assert s == b + t;
      assert t == Concat(ps)[|b|..|s|] == Concat(ps[1..])[..|t|];
      DeframePrefix(ps[1..], t);
      DeframeOne(b, t);
      FirstOfMore(Deframe(t), ps[1..], t, b);
      assert [b] + ps[1..] == ps;
    }
  }

  lemma EmptyNotYet()
    ensures Cut([]) == NotYet
  {}

  // ---- the socket ----

  // A send takes some prefix or refuses; a receive returns some next bytes or nothing for now
  class Socket {
    var wire: seq<byte>
    var incoming: seq<byte>
    ghost var refused: bool  // the last send took nothing
    ghost var dry: bool      // the last receive gave nothing

    constructor ()
      ensures wire == [] && incoming == []
    {
      wire, incoming := [], [];
    }

    method Send(data: seq<byte>) returns (ret: int)
      modifies `wire, `refused
      ensures -1 <= ret <= |data| && refused == (ret <= 0)
      ensures wire == old(wire) + data[..if ret < 0 then 0 else ret]
    {
      ret :| -1 <= ret <= |data|;
      refused := ret <= 0;
      wire := wire + data[..if ret < 0 then 0 else ret];
    }

    method Recv(a: array<byte>, off: nat, len: nat) returns (ret: int)
      requires off + len <= a.Length
      modifies `incoming, `dry, a
      ensures -1 <= ret <= len && dry == (ret <= 0)
      ensures var n := if ret < 0 then 0 else ret;
              n <= |old(incoming)| && incoming == old(incoming)[n..]
              && a[..off] == old(a[..off]) && a[off..off + n] == old(incoming)[..n]
    {
      ret :| -1 <= ret <= len && ret <= |incoming|;
      dry := ret <= 0;
      if ret > 0 {
        forall i | 0 <= i < ret { a[off + i] := incoming[i]; }
        incoming := incoming[ret..];
      }
    }
  }

  lemma Moved(w: seq<byte>, c: seq<byte>, taken: seq<byte>, left: seq<byte>, n: nat)
    requires taken + left == c && |taken| == n
    ensures w + c[..n] + left == w + c
  {
    assert taken == c[..n];
  }

  // ---- the connection ----

  class ImConn {
    const socket: Socket
    const inBuf: SimpleBuffer
    const outBuf: SimpleBuffer
    var busy: bool
    var recvBytes: nat
    var handled: seq<seq<byte>>  // the PDUs given to HandlePdu
    var closes: nat              // the calls of OnClose
    ghost var queued: seq<byte>  // all bytes given to Send
    ghost var received: seq<byte>  // all bytes taken from the socket

    ghost predicate Valid()
      reads this, socket, inBuf, inBuf.buffer, outBuf, outBuf.buffer
    {
      && inBuf != outBuf && inBuf.buffer != outBuf.buffer && inBuf.Valid() && outBuf.Valid()
      && socket.wire + outBuf.Contents() == queued
      && (busy <==> outBuf.Contents() != [])
      && recvBytes == |received|
      && Deframe(received) == Frames(handled, inBuf.Contents(), closes > 0)
    }

    constructor (s: Socket)
      requires s.wire == []
      ensures Valid() && socket == s && queued == received == [] && handled == []
      ensures fresh(inBuf) && fresh(inBuf.buffer) && fresh(outBuf) && fresh(outBuf.buffer)
    {
      socket := s;
      inBuf := new SimpleBuffer();
      outBuf := new SimpleBuffer();
      busy, recvBytes, handled, closes, queued, received := false, 0, [], 0, [], [];
      new;
      EmptyNotYet();
    }

    method Send(data: seq<byte>) returns (len: nat)
      requires Valid() && |outBuf.Contents()| + |data| < SIZE_LIMIT
      modifies this`busy, this`queued, socket`wire, socket`refused, outBuf, outBuf.buffer
      ensures Valid() && (outBuf.buffer == old(outBuf.buffer) || fresh(outBuf.buffer))
      ensures len == |data| && queued == old(queued) + data && old(socket.wire) <= socket.wire
      ensures old(busy) ==> socket.wire == old(socket.wire)
      ensures !old(busy) && busy ==> socket.refused
    {
      hide Deframe;
      len := |data|;
      queued := queued + data;
      if busy {
        var _ := outBuf.Write(data, |data|, true);
        assert outBuf.Contents() == old(outBuf.Contents()) + data;
        return;
      }
      assert outBuf.Contents() == [];
      var offset := Offer(data);
      assert socket.wire + data[offset..] == old(socket.wire) + data;
      if offset < |data| {
        var _ := outBuf.Write(data[offset..], |data| - offset, true);
        assert [] + data[offset..] == data[offset..];
        busy := true;
      }
    }

    // Send's loop: pieces of bounded size until all is taken or the socket refuses
    method Offer(data: seq<byte>) returns (offset: nat)
      modifies socket`wire, socket`refused
      ensures offset <= |data| && socket.wire == old(socket.wire) + data[..offset]
      ensures offset < |data| ==> socket.refused
    {
      offset := 0;
      var remain: nat := |data|;
      while remain > 0
        invariant offset + remain == |data|
        invariant socket.wire == old(socket.wire) + data[..offset]
      {
        var sendSize := if remain > MAX_SOCKET_BUF_SIZE then MAX_SOCKET_BUF_SIZE else remain;
        var ret := socket.Send(data[offset..offset + sendSize]);
        if ret <= 0 {
          assert data[offset..offset + sendSize][..0] == [];
          break;
        }
        assert data[..offset] + data[offset..offset + sendSize][..ret] == data[..offset + ret];
        offset := offset + ret;
        remain := remain - ret;
      }
    }

    method SendPdu(pdu: ImPdu) returns (len: nat)
      requires Valid() && pdu.Valid() && |outBuf.Contents()| + |pdu.Bytes()| < SIZE_LIMIT
      modifies this`busy, this`queued, socket`wire, socket`refused, outBuf, outBuf.buffer
      ensures Valid() && (outBuf.buffer == old(outBuf.buffer) || fresh(outBuf.buffer))
      ensures queued == old(queued) + old(pdu.Bytes()) && len == |old(pdu.Bytes())|
    {
      hide Deframe;
      len := Send(pdu.buf.buffer[..pdu.buf.writeOffset]);
    }

    method OnWrite()
      requires Valid()
      modifies this`busy, socket`wire, socket`refused, outBuf, outBuf.buffer
      ensures Valid() && outBuf.buffer == old(outBuf.buffer)
      ensures queued == old(queued) && old(socket.wire) <= socket.wire
      ensures old(busy) && busy ==> socket.refused
    {
      hide Deframe;
      if !busy { return; }
      Drain();
      if 0 == outBuf.writeOffset { busy := false; }
    }

    // OnWrite's loop: pieces off the front until all is taken or the socket refuses
    method Drain()
      requires outBuf.Valid()
      modifies socket`wire, socket`refused, outBuf, outBuf.buffer
      ensures outBuf.Valid() && outBuf.buffer == old(outBuf.buffer) && old(socket.wire) <= socket.wire
      ensures socket.wire + outBuf.Contents() == old(socket.wire) + old(outBuf.Contents())
      ensures outBuf.writeOffset > 0 ==> socket.refused
    {
      while outBuf.writeOffset > 0
        invariant outBuf.Valid() && outBuf.buffer == old(outBuf.buffer) && old(socket.wire) <= socket.wire
        invariant socket.wire + outBuf.Contents() == old(socket.wire) + old(outBuf.Contents())
        decreases outBuf.writeOffset
      {
        var sendSize := if outBuf.writeOffset > MAX_SOCKET_BUF_SIZE then MAX_SOCKET_BUF_SIZE else outBuf.writeOffset;
        ghost var w, c := socket.wire, outBuf.Contents();
        var ret := socket.Send(outBuf.buffer[..sendSize]);
        if ret <= 0 { break; }
        assert outBuf.buffer[..sendSize][..ret] == c[..ret];
        var taken := outBuf.Read(ret);
        Moved(w, c, taken, outBuf.Contents(), ret);
      }
    }

    // Takes whatever the socket gives, then hands on every whole PDU
    method OnRead()
      requires Valid() && |inBuf.Contents()| + |socket.incoming| + READ_BUF_SIZE < SIZE_LIMIT
      modifies this`recvBytes, this`handled, this`closes, this`received, socket`incoming, socket`dry, inBuf,
        inBuf.buffer
      ensures Valid() && (inBuf.buffer == old(inBuf.buffer) || fresh(inBuf.buffer))
      ensures received + socket.incoming == old(received) + old(socket.incoming) && old(received) <= received
      ensures old(handled) <= handled && socket.dry
    {
      hide Deframe;
      Fill();
      ghost var more := received[|old(received)|..];
      DeframeMore(old(received), more);
      assert received == old(received) + more;
      assert old(inBuf.Contents()) == Deframe(old(received)).rest;
      Split();
    }

    // OnRead's first loop
    method Fill()
      requires inBuf.Valid() && recvBytes == |received|
      requires inBuf.writeOffset + |socket.incoming| + READ_BUF_SIZE < SIZE_LIMIT
      modifies this`recvBytes, this`received, socket`incoming, socket`dry, inBuf, inBuf.buffer
      ensures inBuf.Valid() && recvBytes == |received| && (inBuf.buffer == old(inBuf.buffer) || fresh(inBuf.buffer))
      ensures received + socket.incoming == old(received) + old(socket.incoming) && old(received) <= received
      ensures inBuf.Contents() == old(inBuf.Contents()) + received[|old(received)|..]
      ensures inBuf.writeOffset < SIZE_LIMIT && socket.dry
    {
      while true
        invariant inBuf.Valid() && recvBytes == |received|
        invariant inBuf.buffer == old(inBuf.buffer) || fresh(inBuf.buffer)
        invariant received + socket.incoming == old(received) + old(socket.incoming) && old(received) <= received
        invariant inBuf.Contents() == old(inBuf.Contents()) + received[|old(received)|..]
        invariant inBuf.writeOffset + |socket.incoming| + READ_BUF_SIZE < SIZE_LIMIT
        decreases |socket.incoming|
      {
        var room := inBuf.allocSize - inBuf.writeOffset;
        if room < READ_BUF_SIZE { inBuf.Extend(READ_BUF_SIZE); }
        var got := Take();
        if !got { break; }
      }
    }

    // One receive into the room at the end of the buffer
    method Take() returns (got: bool)
      requires inBuf.Valid() && recvBytes == |received| && inBuf.writeOffset + READ_BUF_SIZE <= inBuf.allocSize
      modifies this`recvBytes, this`received, socket`incoming, socket`dry, inBuf, inBuf.buffer
      ensures inBuf.Valid() && inBuf.buffer == old(inBuf.buffer) && recvBytes == |received|
      ensures var n := |received| - |old(received)|;
              && (if got then 0 < n else n == 0 && socket.dry) && n <= |old(socket.incoming)|
              && received == old(received) + old(socket.incoming)[..n]
              && inBuf.Contents() == old(inBuf.Contents()) + old(socket.incoming)[..n]
              && socket.incoming == old(socket.incoming)[n..]
    {
      ghost var before, next := inBuf.Contents(), socket.incoming;
      ghost var off := inBuf.writeOffset;
      var ret := socket.Recv(inBuf.buffer, inBuf.writeOffset, READ_BUF_SIZE);
      assert inBuf.buffer[..off] == before;
      got := ret > 0;
      if got {
        recvBytes := recvBytes + ret;
        received := received + next[..ret];
        assert inBuf.buffer[..off + ret] == inBuf.buffer[..off] + inBuf.buffer[off..off + ret];
        inBuf.IncWriteOffset(ret);
      }
    }

    // OnRead's second loop
    method Split()
      requires inBuf.Valid() && inBuf.writeOffset < SIZE_LIMIT
      modifies this`handled, this`closes, inBuf, inBuf.buffer
      ensures inBuf.Valid() && inBuf.buffer == old(inBuf.buffer)
      ensures var d := Deframe(old(inBuf.Contents()));
              handled == old(handled) + d.pdus && inBuf.Contents() == d.rest
              && closes == old(closes) + if d.corrupt then 1 else 0
    {
      hide Cut;
      ghost var d := Deframe(inBuf.Contents());
      ghost var todo := d.pdus;
      var more := true;
      while more
        invariant inBuf.Valid() && inBuf.buffer == old(inBuf.buffer) && inBuf.writeOffset < SIZE_LIMIT
        invariant handled + todo == old(handled) + d.pdus
        invariant more ==> closes == old(closes) && Deframe(inBuf.Contents()) == Frames(todo, d.rest, d.corrupt)
        invariant !more ==> todo == [] && inBuf.Contents() == d.rest
        invariant !more ==> closes == old(closes) + if d.corrupt then 1 else 0
        decreases more, inBuf.writeOffset
      {
        ghost var s := inBuf.Contents();
        more := HandleNext();
        if more {
          assert todo == [todo[0]] + todo[1..];
          todo := todo[1..];
        }
      }
    }

    // ReadPdu, HandlePdu and the removal of its bytes; or the end of the loop
    method HandleNext() returns (more: bool)
      requires inBuf.Valid() && inBuf.writeOffset < SIZE_LIMIT
      modifies this`handled, this`closes, inBuf, inBuf.buffer
      ensures inBuf.Valid() && inBuf.buffer == old(inBuf.buffer)
      ensures var f := Cut(old(inBuf.Contents()));
              && more == f.Whole?
              && handled == old(handled) + (if more then [f.bytes] else [])
              && inBuf.Contents() == old(inBuf.Contents())[if more then |f.bytes| else 0..]
              && closes == old(closes) + if f.Corrupt? then 1 else 0
    {
      hide Cut;
      ghost var s := inBuf.Contents();
      var f, pdu := ReadPdu(inBuf.buffer[..inBuf.writeOffset]);
      more := pdu != null;
      if more {
        var pduLen := pdu.buf.writeOffset;
        handled := handled + [pdu.buf.buffer[..pduLen]];
        var _ := inBuf.Read(pduLen);
        assert inBuf.Contents() == s[pduLen..];
      } else if f.Corrupt? {
        closes := closes + 1;
      }
    }
  }

  // What SetPBMsg and the setters leave is such a PDU
  lemma MessagesArePdus(h: Header, body: seq<byte>, xs: seq<Setter>)
    requires Fits(h) && HEADER_LEN + |body| < 0x1_0000_0000
    ensures IsPdu(PatchAll(Message(h, body), xs))
  {
    hide Patch16, HeaderBytes, U16, U32;
    var m := Message(h, body);
    HeaderRoundTrip(h.(length := |m|), body);
    SettersExact(m, xs);
  }

  /** End to end: whatever the two connections have been through, the PDUs handed on by the
      receiver are the first of those sent, and all of them once everything is through. */
  lemma EndToEnd(sender: ImConn, receiver: ImConn, ps: seq<seq<byte>>)
    requires sender.Valid() && receiver.Valid() && ArePdus(ps)
    requires sender.queued == Concat(ps) && receiver.received <= sender.socket.wire
    ensures receiver.handled <= ps && receiver.closes == 0
    ensures !sender.busy && receiver.received == sender.socket.wire ==> receiver.handled == ps
  {
    hide Deframe, Cut, U32;
    DeframePrefix(ps, receiver.received);
    if !sender.busy && receiver.received == sender.socket.wire {
      assert receiver.received == Concat(ps);
      Complete(ps);
    }
  }

  lemma Complete(ps: seq<seq<byte>>)
    requires ArePdus(ps)
    ensures Deframe(Concat(ps)).pdus == ps
  {
    hide Deframe, Cut, U32;
    DeframePrefix(ps, Concat(ps));
    var qs := Deframe(Concat(ps)).pdus;
    if |qs| < |ps| { ConcatShorter(qs, ps); }
  }

  lemma {:induction false} ConcatShorter(qs: seq<seq<byte>>, ps: seq<seq<byte>>)
    requires qs <= ps && |qs| < |ps|
    ensures |Concat(ps)| >= |Concat(qs)| + |ps[|qs|]|
  {
    if qs != [] {
      assert qs[1..] <= ps[1..];
      ConcatShorter(qs[1..], ps[1..]);
    }
  }
}
