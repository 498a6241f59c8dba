/** The PDU layer: a growing byte buffer, big-endian integers, the 16-byte header and the
    framing of PDUs in a byte stream. */
module Pdu {
  import opened Wrappers

  type byte = b: int | 0 <= b < 256

  // Offsets are 32 bits wide; below this no size computed here wraps round
  const SIZE_LIMIT: nat := 0x8000_0000

  // ---- SimpleBuffer ----

  class SimpleBuffer {
    var buffer: array<byte>
    var allocSize: nat
    var writeOffset: nat

    ghost predicate Valid()
      reads this
    {
      writeOffset <= allocSize == buffer.Length
    }

    ghost function Contents(): seq<byte>
      requires Valid()
      reads this, buffer
    {
      buffer[..writeOffset]
    }

    constructor ()
      ensures Valid() && fresh(buffer) && Contents() == []
    {
      buffer, allocSize, writeOffset := new byte[0], 0, 0;
    }

    // realloc to a quarter more than what is asked for; the new tail is uninitialised
    method Extend(len: nat)
      requires Valid() && writeOffset + len < SIZE_LIMIT
      modifies this, buffer
      ensures Valid() && fresh(buffer)
      ensures Contents() == old(Contents()) && writeOffset == old(writeOffset)
      ensures allocSize == (writeOffset + len) + (writeOffset + len) / 4
    {
      allocSize := writeOffset + len;
      allocSize := allocSize + allocSize / 4;
      var grown := new byte[allocSize];
      forall i | 0 <= i < writeOffset { grown[i] := buffer[i]; }
      buffer := grown;
      assert buffer[..writeOffset] == old(buffer[..writeOffset]);
    }

    // Without data the space is only claimed, and holds whatever was there
    method Write(data: seq<byte>, len: nat, hasData: bool) returns (written: nat)
      requires Valid() && (hasData ==> |data| == len) && writeOffset + len < SIZE_LIMIT
      modifies this, buffer
      ensures Valid() && (buffer == old(buffer) || fresh(buffer))
      ensures written == len && writeOffset == old(writeOffset) + len
      ensures Contents()[..old(writeOffset)] == old(Contents())
      ensures hasData ==> Contents() == old(Contents()) + data
    {
      if writeOffset + len > allocSize { Extend(len); }
      if hasData {
        CopyIn(data);
      } else {
        IncWriteOffset(len);
        assert Contents()[..writeOffset - len] == old(Contents());
      }
      return len;
    }

    method CopyIn(data: seq<byte>)
      requires Valid() && writeOffset + |data| <= allocSize
      modifies `writeOffset, buffer
      ensures Valid() && writeOffset == old(writeOffset) + |data| && Contents() == old(Contents()) + data
    {
      ghost var before := Contents();
      forall i | 0 <= i < |data| { buffer[writeOffset + i] := data[i]; }
      assert buffer[..writeOffset] == before;
      assert buffer[writeOffset..writeOffset + |data|] == data;
      ghost var end := writeOffset;
      writeOffset := writeOffset + |data|;
      assert buffer[..writeOffset] == buffer[..end] + buffer[end..writeOffset];
    }

    // Takes up to len bytes from the front and moves the rest down
    method Read(len: nat) returns (taken: seq<byte>)
      requires Valid()
      modifies this, buffer
      ensures Valid() && buffer == old(buffer)
      ensures |taken| == if len > old(writeOffset) then old(writeOffset) else len
      ensures taken + Contents() == old(Contents())
    {
      ghost var before := Contents();
      var n := if len > writeOffset then writeOffset else len;
      taken := buffer[..n];
      writeOffset := writeOffset - n;
      forall i | 0 <= i < writeOffset { buffer[i] := buffer[n + i]; }
      assert buffer[..writeOffset] == before[n..];
      assert taken == before[..n] && before == before[..n] + before[n..];
    }

    method IncWriteOffset(n: nat)
      requires Valid() && writeOffset + n <= allocSize
      modifies `writeOffset
      ensures Valid() && writeOffset == old(writeOffset) + n
    {
      writeOffset := writeOffset + n;
    }
  }

  // ---- big-endian integers ----

  function U16(s: seq<byte>, i: nat): (v: nat)
    requires i + 2 <= |s|
    ensures v < 0x1_0000
  {
    s[i] as int * 256 + s[i + 1] as int
  }

  function U32(s: seq<byte>, i: nat): (v: nat)
    requires i + 4 <= |s|
    ensures v < 0x1_0000_0000
  {
    U16(s, i) * 0x1_0000 + U16(s, i + 2)
  }

  function Put16(v: nat): (s: seq<byte>)
    ensures |s| == 2
  {
    [v / 256 % 256, v % 256]
  }

  function Put32(v: nat): (s: seq<byte>)
    ensures |s| == 4
  {
    Put16(v / 0x1_0000) + Put16(v)
  }

  lemma Remainder(v: nat, q: nat, r: nat)
    requires v == 0x1_0000 * q + r && r < 0x1_0000
    ensures v % 0x1_0000 == r
  {}

  lemma LowBits(v: nat)
    ensures v % 0x1_0000 == v / 256 % 256 * 256 + v % 256
  {
    var q := v / 256;
    assert v == 256 * q + v % 256 && q == 256 * (q / 256) + q % 256;
    Remainder(v, q / 256, q % 256 * 256 + v % 256);
  }

  // Whatever surrounds it, a 16-bit field reads back as what was put
  lemma Put16Reads(before: seq<byte>, v: nat, after: seq<byte>)
    ensures U16(before + Put16(v) + after, |before|) == v % 0x1_0000
  {
    LowBits(v);
    var s := before + Put16(v) + after;
    assert s[|before|] == Put16(v)[0] && s[|before| + 1] == Put16(v)[1];
  }

  lemma HighAndLow(v: nat)
    ensures v % 0x1_0000_0000 == v / 0x1_0000 % 0x1_0000 * 0x1_0000 + v % 0x1_0000
  {
    assert v == v / 0x1_0000_0000 * 0x1_0000_0000 + v % 0x1_0000_0000;
  }

  lemma Put32Reads(v: nat, after: seq<byte>)
    ensures U32(Put32(v) + after, 0) == v % 0x1_0000_0000
  {
    hide Put16, U16;
    var s := Put32(v) + after;
    assert s == [] + Put16(v / 0x1_0000) + (Put16(v) + after);
    Put16Reads([], v / 0x1_0000, Put16(v) + after);
    assert s == Put16(v / 0x1_0000) + Put16(v) + after;
    Put16Reads(Put16(v / 0x1_0000), v, after);
    HighAndLow(v);
  }

  // ---- ByteStream over received bytes ----

  class ByteStream {
    const buf: seq<byte>
    const len: nat
    var pos: nat

    ghost predicate Valid()
      reads this
    {
      pos <= len <= |buf|
    }

    constructor (s: seq<byte>, n: nat)
      requires n <= |s|
      ensures Valid() && buf == s && len == n && pos == 0
    {
      buf, len, pos := s, n, 0;
    }

    // None stands for the exception thrown when the stream is too short
    method ReadByte(n: nat) returns (r: Option<seq<byte>>)
      requires Valid()
      modifies this
      ensures Valid()
      ensures r == (if old(pos) + n <= len then Some(buf[old(pos)..old(pos) + n]) else None)
      ensures pos == if r.Some? then old(pos) + n else old(pos)
    {
      if pos + n > len { return None; }
      r := Some(buf[pos..pos + n]);
      pos := pos + n;
    }

    method ReadUint16() returns (r: Option<nat>)
      requires Valid()
      modifies this
      ensures Valid()
      ensures r == if old(pos) + 2 <= len then Some(U16(buf, old(pos))) else None
      ensures pos == if r.Some? then old(pos) + 2 else old(pos)
    {
      var b := ReadByte(2);
      r := if b.Some? then Some(U16(b.value, 0)) else None;
    }

    method ReadUint32() returns (r: Option<nat>)
      requires Valid()
      modifies this
      ensures Valid()
      ensures r == if old(pos) + 4 <= len then Some(U32(buf, old(pos))) else None
      ensures pos == if r.Some? then old(pos) + 4 else old(pos)
    {
      var b := ReadByte(4);
      r := if b.Some? then Some(U32(b.value, 0)) else None;
    }
  }

  // ---- ByteStream's static writers, which patch a buffer in place ----

  // The two bytes at off replaced
  function Patch16(s: seq<byte>, off: nat, v: nat): seq<byte>
    requires off + 2 <= |s|
  {
    s[..off] + Put16(v) + s[off + 2..]
  }

  method WriteUint16(a: array<byte>, off: nat, v: nat)
    requires off + 2 <= a.Length
    modifies a
    ensures a[..] == Patch16(old(a[..]), off, v)
  {
    a[off] := v / 256 % 256;
    a[off + 1] := v % 256;
  }

  method WriteInt32(a: array<byte>, off: nat, v: nat)
    requires off + 4 <= a.Length
    modifies a
    ensures a[..] == old(a[..])[..off] + Put32(v) + old(a[..])[off + 4..]
  {
    a[off] := v / 0x100_0000 % 256;
    a[off + 1] := v / 0x1_0000 % 256;
    a[off + 2] := v / 256 % 256;
    a[off + 3] := v % 256;
    assert v / 0x100_0000 == v / 0x1_0000 / 256;
  }
}
