/** A PDU: a 16-byte big-endian header and a body. The header is written from a record, patched
    in place by the setters, and read back when a PDU is cut out of received bytes. */
module PduHeader {
  import opened Pdu

  const HEADER_LEN: nat := 16
  const PDU_VERSION: nat := 1
  const SID_OTHER: nat := 7

  datatype Header = Header(length: nat, version: nat, flag: nat, serviceId: nat, commandId: nat, seqNum: nat,
                           reversed: nat)

  predicate Fits(h: Header) {
    && h.length < 0x1_0000_0000 && h.version < 0x1_0000 && h.flag < 0x1_0000 && h.serviceId < 0x1_0000
    && h.commandId < 0x1_0000 && h.seqNum < 0x1_0000 && h.reversed < 0x1_0000
  }

  // ---- the layout ----

  function HeaderBytes(h: Header): (s: seq<byte>)
    ensures |s| == HEADER_LEN
  {
    Put32(h.length) + Put16(h.version) + Put16(h.flag) + Put16(h.serviceId) + Put16(h.commandId)
    + Put16(h.seqNum) + Put16(h.reversed)
  }

  function ParseHeader(s: seq<byte>): (h: Header)
    requires |s| >= HEADER_LEN
    ensures Fits(h)
  {
    Header(U32(s, 0), U16(s, 4), U16(s, 6), U16(s, 8), U16(s, 10), U16(s, 12), U16(s, 14))
  }

  lemma HeaderRoundTrip(h: Header, body: seq<byte>)
    requires Fits(h)
    ensures ParseHeader(HeaderBytes(h) + body) == h
  {
    hide Put16, U16, Put32, U32;
    var s := HeaderBytes(h) + body;
    FieldsApart(h, body);
    Put32Reads(h.length, s[4..]);
    Put16Reads(s[..4], h.version, s[6..]);
    Put16Reads(s[..6], h.flag, s[8..]);
    Put16Reads(s[..8], h.serviceId, s[10..]);
    Put16Reads(s[..10], h.commandId, s[12..]);
    Put16Reads(s[..12], h.seqNum, s[14..]);
    Put16Reads(s[..14], h.reversed, s[16..]);
  }

  // The 16-bit field v stands at i, its high byte first
  predicate StandsAt(s: seq<byte>, i: nat, v: nat)
    requires i + 2 <= |s|
  {
    s[i] == v / 256 % 256 && s[i + 1] == v % 256
  }

  /** Where each field stands in the 16 bytes: every one with its high byte first, the length in the
      first four. */
  lemma HeaderPlaces(h: Header)
    ensures var s := HeaderBytes(h); var n := h.length;
      && s[..4] == [n / 0x100_0000 % 256, n / 0x1_0000 % 256, n / 0x100 % 256, n % 256]
      && StandsAt(s, 4, h.version) && StandsAt(s, 6, h.flag) && StandsAt(s, 8, h.serviceId)
      && StandsAt(s, 10, h.commandId) && StandsAt(s, 12, h.seqNum) && StandsAt(s, 14, h.reversed)
  {
    Quotients(h.length);
    var s := HeaderBytes(h);
    assert s[..4] == Put32(h.length);
  }

  lemma Quotients(n: nat)
    ensures n / 0x1_0000 / 0x100 == n / 0x100_0000
  {}

  // Each field with what comes before and after it
  lemma FieldsApart(h: Header, body: seq<byte>)
    ensures var s := HeaderBytes(h) + body;
            && s == Put32(h.length) + s[4..] && s == s[..4] + Put16(h.version) + s[6..]
            && s == s[..6] + Put16(h.flag) + s[8..] && s == s[..8] + Put16(h.serviceId) + s[10..]
            && s == s[..10] + Put16(h.commandId) + s[12..] && s == s[..12] + Put16(h.seqNum) + s[14..]
            && s == s[..14] + Put16(h.reversed) + s[16..]
  {
    hide Put16, Put32;
  }

  // Reading loses nothing: the 16 bytes are those of the header read from them
  lemma HeaderIsItsBytes(s: seq<byte>)
    requires |s| >= HEADER_LEN
    ensures HeaderBytes(ParseHeader(s)) == s[..HEADER_LEN]
  {
    hide Put16, U16, Put32;
    var h := ParseHeader(s);
    forall i: nat | i + 2 <= |s| ensures Put16(U16(s, i)) == s[i..i + 2] { Put16Back(s, i); }
    assert Put32(h.length) == s[..4] by { Put32Back(s); }
    assert s[..16] == s[..4] + s[4..6] + s[6..8] + s[8..10] + s[10..12] + s[12..14] + s[14..16];
  }

  lemma Put16Back(s: seq<byte>, i: nat)
    requires i + 2 <= |s|
    ensures Put16(U16(s, i)) == s[i..i + 2]
  {
    var v := U16(s, i);
    assert v / 256 == s[i] as int && v % 256 == s[i + 1] as int;
  }

  lemma Put32Back(s: seq<byte>)
    requires |s| >= 4
    ensures Put32(U32(s, 0)) == s[..4]
  {
    hide Put16, U16;
    var v := U32(s, 0);
    assert v / 0x1_0000 == U16(s, 0) && v % 0x1_0000 == U16(s, 2);
    Put16Back(s, 0);
    Put16Back(s, 2);
    Put16Low(v);
    assert s[..4] == s[0..2] + s[2..4];
  }

  lemma Put16Low(v: nat)
    ensures Put16(v) == Put16(v % 0x1_0000)
  {
    LowBits(v);
    LowBits(v % 0x1_0000);
  }

  // ---- the setters ----

  datatype Setter =
    | Version(v: nat) | Flag(v: nat) | ServiceId(v: nat) | CommandId(v: nat)
    | Error(v: nat) | SeqNum(v: nat) | Reversed(v: nat)

  // The error code and the sequence number share one field
  function Offset(x: Setter): (off: nat)
    ensures 4 <= off && off + 2 <= HEADER_LEN
  {
    match x
    case Version(_) => 4
    case Flag(_) => 6
    case ServiceId(_) => 8
    case CommandId(_) => 10
    case Error(_) => 12
    case SeqNum(_) => 12
    case Reversed(_) => 14
  }

  // The header with one field replaced, by the low 16 bits
  function Set(h: Header, x: Setter): Header {
    var v := x.v % 0x1_0000;
    match x
    case Version(_) => h.(version := v)
    case Flag(_) => h.(flag := v)
    case ServiceId(_) => h.(serviceId := v)
    case CommandId(_) => h.(commandId := v)
    case Error(_) => h.(seqNum := v)
    case SeqNum(_) => h.(seqNum := v)
    case Reversed(_) => h.(reversed := v)
  }

  function SetAll(h: Header, xs: seq<Setter>): Header {
    if xs == [] then h else Set(SetAll(h, xs[..|xs| - 1]), xs[|xs| - 1])
  }

  function PatchAll(s: seq<byte>, xs: seq<Setter>): (t: seq<byte>)
    requires |s| >= HEADER_LEN
    ensures |t| == |s|
  {
    if xs == [] then s else Patch16(PatchAll(s, xs[..|xs| - 1]), Offset(xs[|xs| - 1]), xs[|xs| - 1].v)
  }

  lemma PatchReads(s: seq<byte>, off: nat, v: nat, i: nat)
    requires off + 2 <= |s| && i + 2 <= |s| && (i == off || i + 2 <= off || off + 2 <= i)
    ensures U16(Patch16(s, off, v), i) == if i == off then v % 0x1_0000 else U16(s, i)
  {
    hide Put16;
    var t := Patch16(s, off, v);
    if i == off {
      Put16Reads(s[..off], v, s[off + 2..]);
    } else {
      assert t[i] == s[i] && t[i + 1] == s[i + 1];
    }
  }

  // A patch of two bytes is an update of one field, and touches neither the length nor the body
  lemma SetterExact(s: seq<byte>, x: Setter)
    requires |s| >= HEADER_LEN
    ensures ParseHeader(Patch16(s, Offset(x), x.v)) == Set(ParseHeader(s), x)
    ensures Patch16(s, Offset(x), x.v)[HEADER_LEN..] == s[HEADER_LEN..]
  {
    hide U16, Put16, Patch16;
    var off := Offset(x);
    var t := Patch16(s, off, x.v);
    assert |t| == |s| && t[HEADER_LEN..] == s[HEADER_LEN..] by { PatchTail(s, off, x.v); }
    PatchReads(s, off, x.v, 0);
    PatchReads(s, off, x.v, 2);
    PatchReads(s, off, x.v, 4);
    PatchReads(s, off, x.v, 6);
    PatchReads(s, off, x.v, 8);
    PatchReads(s, off, x.v, 10);
    PatchReads(s, off, x.v, 12);
    PatchReads(s, off, x.v, 14);
  }

  lemma PatchTail(s: seq<byte>, off: nat, v: nat)
    requires off + 2 <= HEADER_LEN <= |s|
    ensures |Patch16(s, off, v)| == |s| && Patch16(s, off, v)[HEADER_LEN..] == s[HEADER_LEN..]
  {
    hide Put16;
  }

  lemma {:induction false} SettersExact(s: seq<byte>, xs: seq<Setter>)
    requires |s| >= HEADER_LEN
    ensures ParseHeader(PatchAll(s, xs)) == SetAll(ParseHeader(s), xs)
    ensures PatchAll(s, xs)[HEADER_LEN..] == s[HEADER_LEN..]
    ensures ParseHeader(PatchAll(s, xs)).length == ParseHeader(s).length
  {
    hide Patch16, U16, U32;
    if xs != [] {
      var earlier := xs[..|xs| - 1];
      SettersExact(s, earlier);
      SetterExact(PatchAll(s, earlier), xs[|xs| - 1]);
    }
  }

  // ---- cutting a PDU out of received bytes ----

  datatype Framed =
    | NotYet
    | Corrupt
    | Whole(bytes: seq<byte>, header: Header)

  function Cut(s: seq<byte>): (f: Framed)
    ensures f.Whole? ==> 0 < |f.bytes| <= |s| && f.bytes == s[..|f.bytes|]
  {
    if |s| < HEADER_LEN then NotYet
    else if U32(s, 0) > |s| then NotYet
    else if U32(s, 0) == 0 then Corrupt
    else Whole(s[..U32(s, 0)], ParseHeader(s))
  }

  // What SetPBMsg leaves in the buffer
  function Message(h: Header, body: seq<byte>): seq<byte> {
    HeaderBytes(h.(length := HEADER_LEN + |body|)) + body
  }

  /** A message built, patched by any setters and received in front of any other bytes is cut out
      whole, with exactly the fields set and the body given. */
  lemma MessageRoundTrip(h: Header, body: seq<byte>, xs: seq<Setter>, more: seq<byte>)
    requires Fits(h) && HEADER_LEN + |body| < 0x1_0000_0000
    ensures var s := PatchAll(Message(h, body), xs);
            && Cut(s + more) == Whole(s, SetAll(h.(length := HEADER_LEN + |body|), xs))
            && s[HEADER_LEN..] == body
  {
    hide U16, Put16, Put32, Patch16, U32, HeaderBytes;
    var full := h.(length := HEADER_LEN + |body|);
    var m := Message(h, body);
    var s := PatchAll(m, xs);
    HeaderRoundTrip(full, body);
    SettersExact(m, xs);
    ParsePrefix(s, more);
    assert (s + more)[..|s|] == s;
  }

  lemma ParsePrefix(s: seq<byte>, more: seq<byte>)
    requires |s| >= HEADER_LEN
    ensures ParseHeader(s + more) == ParseHeader(s)
  {}

  /** A relay: cutting a PDU and giving it a new body keeps version, flag, service, command,
      sequence number and reserved field, and changes only length and body. */
  lemma RelayKeepsFields(s: seq<byte>, body: seq<byte>, more: seq<byte>)
    requires Cut(s).Whole? && HEADER_LEN + |body| < 0x1_0000_0000
    ensures var t := Message(Cut(s).header, body);
            && Cut(t + more) == Whole(t, Cut(s).header.(length := HEADER_LEN + |body|))
            && t[HEADER_LEN..] == body
            && (HEADER_LEN <= |Cut(s).bytes| ==> t[4..HEADER_LEN] == Cut(s).bytes[4..HEADER_LEN])
  {
    hide U16, Put16, Put32, U32, ParseHeader, HeaderBytes;
    var h := Cut(s).header;
    MessageRoundTrip(h, body, [], more);
    if HEADER_LEN <= |Cut(s).bytes| {
      HeaderIsItsBytes(s);
      SameFields(h, h.(length := HEADER_LEN + |body|));
    }
  }

  lemma SameFields(h: Header, g: Header)
    requires g == h.(length := g.length)
    ensures HeaderBytes(g)[4..] == HeaderBytes(h)[4..]
  {
    hide Put16, Put32;
  }

  // The writes of WriteHeader, one after another
  lemma FieldByField(s: seq<byte>, h: Header)
    requires |s| >= HEADER_LEN
    ensures var s1 := s[..0] + Put32(h.length) + s[4..];
            Patch16(Patch16(Patch16(Patch16(Patch16(Patch16(s1,
              4, h.version), 6, h.flag), 8, h.serviceId), 10, h.commandId), 12, h.seqNum), 14, h.reversed)
            == HeaderBytes(h) + s[HEADER_LEN..]
  {
    hide Put16, Put32, Patch16;
    var a := s[..0] + Put32(h.length);
    NextField(a, h.version, s);
    NextField(a + Put16(h.version), h.flag, s);
    NextField(a + Put16(h.version) + Put16(h.flag), h.serviceId, s);
    NextField(a + Put16(h.version) + Put16(h.flag) + Put16(h.serviceId), h.commandId, s);
    NextField(a + Put16(h.version) + Put16(h.flag) + Put16(h.serviceId) + Put16(h.commandId), h.seqNum, s);
    NextField(a + Put16(h.version) + Put16(h.flag) + Put16(h.serviceId) + Put16(h.commandId) + Put16(h.seqNum),
      h.reversed, s);
    assert a == Put32(h.length);
  }

  lemma NextField(a: seq<byte>, v: nat, s: seq<byte>)
    requires |a| + 2 <= |s|
    ensures Patch16(a + s[|a|..], |a|, v) == a + Put16(v) + s[|a| + 2..]
  {}

  // ---- the class ----

  // A field within the first n bytes
  lemma PatchInside(s: seq<byte>, n: nat, off: nat, v: nat)
    requires off + 2 <= n <= |s|
    ensures Patch16(s, off, v)[..n] == Patch16(s[..n], off, v)
  {
    hide Put16;
    assert s[off + 2..][..n - off - 2] == s[..n][off + 2..];
  }

  class ImPdu {
    const buf: SimpleBuffer
    var header: Header

    ghost predicate Valid()
      reads this, buf, buf.buffer
    {
      buf.Valid() && Fits(header)
    }

    ghost function Bytes(): seq<byte>
      requires Valid()
      reads this, buf, buf.buffer
    {
      buf.Contents()
    }

    constructor ()
      ensures Valid() && fresh(buf) && fresh(buf.buffer) && Bytes() == []
      ensures header.version == PDU_VERSION && header.serviceId == SID_OTHER
      ensures header.flag == header.commandId == header.seqNum == header.reversed == 0
    {
      header := Header(0, PDU_VERSION, 0, SID_OTHER, 0, 0, 0);
      buf := new SimpleBuffer();
    }

    method WriteHeader()
      requires Valid() && HEADER_LEN <= |Bytes()| < SIZE_LIMIT
      modifies buf.buffer
      ensures Valid() && Bytes() == HeaderBytes(header.(length := |old(Bytes())|)) + old(Bytes())[HEADER_LEN..]
    {
      hide Put16, Put32;
      ghost var s0 := buf.buffer[..];
      WriteInt32(buf.buffer, 0, buf.writeOffset);
      WriteUint16(buf.buffer, 4, header.version);
      WriteUint16(buf.buffer, 6, header.flag);
      WriteUint16(buf.buffer, 8, header.serviceId);
      WriteUint16(buf.buffer, 10, header.commandId);
      WriteUint16(buf.buffer, 12, header.seqNum);
      WriteUint16(buf.buffer, 14, header.reversed);
      FieldByField(s0, header.(length := buf.writeOffset));
      assert Bytes() == (HeaderBytes(header.(length := buf.writeOffset)) + s0[HEADER_LEN..])[..buf.writeOffset];
    }

    // Patches the bytes only: the record read by the getters keeps its old field
    method Apply(x: Setter)
      requires Valid() && HEADER_LEN <= |Bytes()|
      modifies buf.buffer
      ensures Valid() && Bytes() == Patch16(old(Bytes()), Offset(x), x.v) && header == old(header)
    {
      hide Put16;
      ghost var s, n := buf.buffer[..], buf.writeOffset;
      WriteUint16(buf.buffer, Offset(x), x.v);
      PatchInside(s, n, Offset(x), x.v);
      assert Bytes() == buf.buffer[..][..n];
    }

    method SetPBMsg(body: seq<byte>)
      requires Valid() && HEADER_LEN + |body| < SIZE_LIMIT
      modifies buf, buf.buffer
      ensures Valid() && (buf.buffer == old(buf.buffer) || fresh(buf.buffer))
      ensures header == old(header) && Bytes() == Message(header, body)
    {
      hide HeaderBytes;
      var _ := buf.Read(buf.writeOffset);
      var _ := buf.Write([], HEADER_LEN, false);
      var _ := buf.Write(body, |body|, true);
      assert buf.Contents()[HEADER_LEN..] == body;
      WriteHeader();
    }

    method ReadPduHeader(s: seq<byte>, len: nat) returns (ret: int)
      requires Valid() && len <= |s|
      modifies this
      ensures Valid() && (ret == 0 <==> len >= HEADER_LEN)
      ensures header == if ret == 0 then ParseHeader(s) else old(header)
    {
      ret := -1;
      if len >= HEADER_LEN {
        var stream := new ByteStream(s, len);
        var length := stream.ReadUint32();
        var version := stream.ReadUint16();
        var flag := stream.ReadUint16();
        var serviceId := stream.ReadUint16();
        var commandId := stream.ReadUint16();
        var seqNum := stream.ReadUint16();
        var reversed := stream.ReadUint16();
        header := Header(length.value, version.value, flag.value, serviceId.value, commandId.value, seqNum.value,
          reversed.value);
        ret := 0;
      }
    }
  }

  // The two ways of asking for a PDU: the test alone, and the test followed by the copy
  method IsPduAvailable(s: seq<byte>) returns (f: Framed)
    ensures f == Cut(s)
  {
    if |s| < HEADER_LEN { return NotYet; }
    var pduLen := U32(s, 0);
    if pduLen > |s| { return NotYet; }
    if 0 == pduLen { return Corrupt; }
    return Whole(s[..pduLen], ParseHeader(s));
  }

  method ReadPdu(s: seq<byte>) returns (f: Framed, pdu: ImPdu?)
    requires |s| < SIZE_LIMIT
    ensures f == Cut(s) && (pdu != null <==> f.Whole?)
    ensures pdu != null ==> fresh(pdu) && fresh(pdu.buf) && fresh(pdu.buf.buffer)
    ensures pdu != null ==> pdu.Valid() && pdu.Bytes() == f.bytes && pdu.header == f.header
  {
    f := IsPduAvailable(s);
    pdu := null;
    if f.Whole? {
      pdu := new ImPdu();
      var _ := pdu.buf.Write(f.bytes, |f.bytes|, true);
      var _ := pdu.ReadPduHeader(s, HEADER_LEN);
    }
  }
}
