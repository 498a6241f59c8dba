/** The reactor's byte buffer: prependable, readable and writable bytes in one vector that grows
    or compacts when an append finds too little room. */
module ByteBuffer {
  import opened Pdu

  const CHEAP_PREPEND: nat := 8
  const INITIAL_SIZE: nat := 1024
  const EXTRA: nat := 65536

  function Max(a: int, b: int): int {
    if a < b then b else a
  }

  // ---- the indices ----

  datatype Shape = Shape(size: nat, reader: nat, writer: nat)

  predicate ShapeOk(h: Shape) {
    h.reader <= h.writer <= h.size && CHEAP_PREPEND <= h.size
  }

  function Readable(h: Shape): int { h.writer - h.reader }

  function Writable(h: Shape): int { h.size - h.writer }

  function Spaced(h: Shape, len: nat): Shape
    requires ShapeOk(h)
  {
    if Writable(h) >= len then h
    else if Writable(h) + h.reader < len + CHEAP_PREPEND then h.(size := h.writer + len)
    else h.(reader := CHEAP_PREPEND, writer := CHEAP_PREPEND + Readable(h))
  }

  // Making space really makes it, never loses a byte, and wastes at most what it was asked for
  lemma SpacedEnough(h: Shape, len: nat)
    requires ShapeOk(h)
    ensures var g := Spaced(h, len);
            && ShapeOk(g) && Writable(g) >= len && Readable(g) == Readable(h)
            && h.size <= g.size <= Max(h.size, Readable(h) + 2 * len + CHEAP_PREPEND - 1)
            && (g.reader != h.reader ==> CHEAP_PREPEND < h.reader)
  {}

  datatype Op = Append(len: nat) | Retrieve(len: nat) | Prepend(len: nat) | Unwrite(len: nat)

  predicate Allowed(h: Shape, op: Op) {
    match op
    case Append(_) => true
    case Retrieve(len) => len <= Readable(h)
    case Prepend(len) => len <= h.reader
    case Unwrite(len) => len <= Readable(h)
  }

  function After(h: Shape, op: Op): (g: Shape)
    requires ShapeOk(h) && Allowed(h, op)
    ensures ShapeOk(g)
  {
    match op
    case Append(len) => SpacedEnough(h, len); var g := Spaced(h, len); g.(writer := g.writer + len)
    case Retrieve(len) =>
      if len < Readable(h) then h.(reader := h.reader + len)
      else Empty(h)
    case Prepend(len) => h.(reader := h.reader - len)
    case Unwrite(len) => h.(writer := h.writer - len)
  }

  // retrieveAll
  function Empty(h: Shape): (g: Shape)
    requires ShapeOk(h)
    ensures ShapeOk(g)
  {
    Shape(h.size, CHEAP_PREPEND, CHEAP_PREPEND)
  }

  // A run in which no append is longer than most and no more than held bytes are ever readable
  predicate Within(h: Shape, ops: seq<Op>, held: nat, most: nat)
    decreases |ops|
  {
    ShapeOk(h) && Readable(h) <= held
    && (ops != [] ==> Allowed(h, ops[0]) && (ops[0].Append? ==> ops[0].len <= most)
                      && Within(After(h, ops[0]), ops[1..], held, most))
  }

  function Run(h: Shape, ops: seq<Op>, held: nat, most: nat): Shape
    requires Within(h, ops, held, most)
    decreases |ops|
  {
    if ops == [] then h else Run(After(h, ops[0]), ops[1..], held, most)
  }

  /** However long the run, the vector never outgrows what the largest content and the longest
      append call for. */
  lemma {:induction false} SpaceBound(h: Shape, ops: seq<Op>, held: nat, most: nat)
    requires Within(h, ops, held, most)
    ensures h.size <= Run(h, ops, held, most).size <= Max(h.size, held + 2 * most + CHEAP_PREPEND - 1)
    decreases |ops|
  {
    if ops != [] {
      if ops[0].Append? { SpacedEnough(h, ops[0].len); }
      SpaceBound(After(h, ops[0]), ops[1..], held, most);
    }
  }

  // ---- integers in network order ----

  function Pow256(n: nat): (p: nat)
    ensures p >= 1
    ensures n > 0 ==> p % 256 == 0
  {
    if n == 0 then 1 else 256 * Pow256(n - 1)
  }

  function ToBig(n: nat, v: nat): (s: seq<byte>)
    ensures |s| == n
  {
    if n == 0 then [] else ToBig(n - 1, v / 256) + [v % 256]
  }

  function FromBig(s: seq<byte>): nat {
    if s == [] then 0 else FromBig(s[..|s| - 1]) * 256 + s[|s| - 1] as int
  }

  // n bytes hold the signed integers of 8 n bits
  predicate InRange(n: nat, x: int) {
    -(Pow256(n) as int) <= 2 * x < Pow256(n)
  }

  function Encode(n: nat, x: int): (s: seq<byte>)
    requires InRange(n, x)
    ensures |s| == n
  {
    ToBig(n, if x < 0 then x + Pow256(n) else x)
  }

  function Decode(s: seq<byte>): int {
    var u := FromBig(s);
    if 2 * u < Pow256(|s|) then u else u - Pow256(|s|)
  }

  lemma {:induction false} BigRoundTrip(n: nat, v: nat)
    requires v < Pow256(n)
    ensures FromBig(ToBig(n, v)) == v
  {
    if n > 0 {
      BigRoundTrip(n - 1, v / 256);
      var s := ToBig(n - 1, v / 256);
      assert (s + [v % 256])[..n - 1] == s;
    }
  }

  lemma DivDiv(v: nat, p: nat)
    requires p >= 1
    ensures v / 256 / p == v / (256 * p)
  {
    var q := v / 256 / p;
    var r := v / 256 % p;
    assert v == 256 * (q * p + r) + v % 256;
    assert 256 * (q * p + r) == q * (256 * p) + 256 * r;
    QuotientIs(v, 256 * p, q, 256 * r + v % 256);
  }

  lemma Less(a: nat, b: nat, k: nat)
    ensures a < b ==> (a + 1) * k <= b * k
  {}

  lemma QuotientIs(v: nat, d: nat, q: nat, r: nat)
    requires v == q * d + r && r < d
    ensures v / d == q
  {
    var k := v / d;
    assert v == k * d + v % d;
    Less(k, q, d);
    Less(q, k, d);
  }

  /** Network order: the byte at i counts multiples of 256 to the power of the bytes behind it. */
  lemma {:induction false} BigPlaces(n: nat, v: nat, i: nat)
    requires i < n
    ensures ToBig(n, v)[i] == v / Pow256(n - 1 - i) % 256
  {
    if i < n - 1 {
      BigPlaces(n - 1, v / 256, i);
      DivDiv(v, Pow256(n - 2 - i));
    }
  }

  lemma IntRoundTrip(n: nat, x: int)
    requires InRange(n, x)
    ensures Decode(Encode(n, x)) == x
  {
    BigRoundTrip(n, if x < 0 then x + Pow256(n) else x);
  }

  datatype Item = Item(width: nat, value: int)

  predicate Items(xs: seq<Item>) {
    forall i :: 0 <= i < |xs| ==> InRange(xs[i].width, xs[i].value)
  }

  function EncodeAll(xs: seq<Item>): seq<byte>
    requires Items(xs)
  {
    if xs == [] then [] else Encode(xs[0].width, xs[0].value) + EncodeAll(xs[1..])
  }

  function Total(widths: seq<nat>): nat {
    if widths == [] then 0 else widths[0] + Total(widths[1..])
  }

  function DecodeAll(widths: seq<nat>, s: seq<byte>): seq<int>
    requires Total(widths) <= |s|
    decreases |widths|
  {
    if widths == [] then [] else [Decode(s[..widths[0]])] + DecodeAll(widths[1..], s[widths[0]..])
  }

  function Widths(xs: seq<Item>): (w: seq<nat>)
    ensures |w| == |xs|
  {
    if xs == [] then [] else [xs[0].width] + Widths(xs[1..])
  }

  function Values(xs: seq<Item>): seq<int> {
    if xs == [] then [] else [xs[0].value] + Values(xs[1..])
  }

  /** Integers of any mixture of widths come out as they went in, and what follows is untouched. */
  lemma {:induction false} MixedRoundTrip(xs: seq<Item>, more: seq<byte>)
    requires Items(xs)
    ensures Total(Widths(xs)) == |EncodeAll(xs)|
    ensures DecodeAll(Widths(xs), EncodeAll(xs) + more) == Values(xs)
    ensures (EncodeAll(xs) + more)[Total(Widths(xs))..] == more
  {
    hide Encode, Decode;
    if xs != [] {
      var s := EncodeAll(xs) + more;
      var w := xs[0].width;
      MixedRoundTrip(xs[1..], more);
      IntRoundTrip(w, xs[0].value);
      assert s[..w] == Encode(w, xs[0].value);
      assert s[w..] == EncodeAll(xs[1..]) + more;
      assert Widths(xs)[1..] == Widths(xs[1..]);
    }
  }

  // ---- the class ----

  class Buffer {
    var buffer: array<byte>
    var readerIndex: nat
    var writerIndex: nat

    ghost predicate Valid()
      reads this
    {
      readerIndex <= writerIndex <= buffer.Length && CHEAP_PREPEND <= buffer.Length
    }

    ghost function Contents(): seq<byte>
      requires Valid()
      reads this, buffer
    {
      buffer[readerIndex..writerIndex]
    }

    ghost function Layout(): (h: Shape)
      requires Valid()
      reads this
      ensures ShapeOk(h)
    {
      Shape(buffer.Length, readerIndex, writerIndex)
    }

    constructor (initialSize: nat := INITIAL_SIZE)
      ensures Valid() && fresh(buffer) && Contents() == []
      ensures Layout() == Shape(CHEAP_PREPEND + initialSize, CHEAP_PREPEND, CHEAP_PREPEND)
    {
      buffer := new byte[CHEAP_PREPEND + initialSize];
      readerIndex, writerIndex := CHEAP_PREPEND, CHEAP_PREPEND;
    }

    method Swap(rhs: Buffer)
      requires Valid() && rhs.Valid()
      modifies this, rhs
      ensures Valid() && rhs.Valid() && buffer == old(rhs.buffer) && rhs.buffer == old(buffer)
      ensures Layout() == old(rhs.Layout()) && rhs.Layout() == old(Layout())
    {
      var b, r, w := buffer, readerIndex, writerIndex;
      buffer, readerIndex, writerIndex := rhs.buffer, rhs.readerIndex, rhs.writerIndex;
      rhs.buffer, rhs.readerIndex, rhs.writerIndex := b, r, w;
    }

    method Retrieve(len: nat)
      requires Valid() && len <= |Contents()|
      modifies `readerIndex, `writerIndex
      ensures Valid() && Contents() == old(Contents())[len..]
      ensures Layout() == After(old(Layout()), Op.Retrieve(len))
    {
      if len < writerIndex - readerIndex {
        readerIndex := readerIndex + len;
      } else {
        RetrieveAll();
      }
    }

    method RetrieveAll()
      requires Valid()
      modifies `readerIndex, `writerIndex
      ensures Valid() && Contents() == [] && Layout() == Empty(old(Layout()))
    {
      readerIndex, writerIndex := CHEAP_PREPEND, CHEAP_PREPEND;
    }

    method RetrieveAsString(len: nat) returns (s: seq<byte>)
      requires Valid() && len <= |Contents()|
      modifies `readerIndex, `writerIndex
      ensures Valid() && s + Contents() == old(Contents()) && |s| == len
    {
      s := buffer[readerIndex..readerIndex + len];
      Retrieve(len);
    }

    method Append(data: seq<byte>)
      requires Valid()
      modifies this, buffer
      ensures Valid() && (buffer == old(buffer) || fresh(buffer))
      ensures Contents() == old(Contents()) + data
      ensures Layout() == After(old(Layout()), Op.Append(|data|))
      ensures buffer.Length <= Max(old(buffer.Length), |old(Contents())| + 2 * |data| + 7)
    {
      hide Spaced, Max;
      SpacedEnough(Layout(), |data|);
      EnsureWritableBytes(|data|);
      CopyIn(data);
    }

    // The copy into the room at the end, and hasWritten
    method CopyIn(data: seq<byte>)
      requires Valid() && writerIndex + |data| <= buffer.Length
      modifies `writerIndex, buffer
      ensures Valid() && writerIndex == old(writerIndex) + |data| && Contents() == old(Contents()) + data
    {
      ghost var before := Contents();
      forall i | 0 <= i < |data| { buffer[writerIndex + i] := data[i]; }
      assert buffer[readerIndex..writerIndex] == before;
      assert buffer[writerIndex..writerIndex + |data|] == data;
      ghost var end := writerIndex;
      HasWritten(|data|);
      assert buffer[readerIndex..writerIndex] == buffer[readerIndex..end] + buffer[end..writerIndex];
    }

    method EnsureWritableBytes(len: nat)
      requires Valid()
      modifies this, buffer
      ensures Valid() && (buffer == old(buffer) || fresh(buffer))
      ensures Contents() == old(Contents()) && Layout() == Spaced(old(Layout()), len)
      ensures writerIndex + len <= buffer.Length
    {
      SpacedEnough(Layout(), len);
      if buffer.Length - writerIndex < len { MakeSpace(len); }
    }

    method HasWritten(len: nat)
      requires Valid() && writerIndex + len <= buffer.Length
      modifies `writerIndex
      ensures Valid() && writerIndex == old(writerIndex) + len
    {
      writerIndex := writerIndex + len;
    }

    method Unwrite(len: nat)
      requires Valid() && len <= |Contents()|
      modifies `writerIndex
      ensures Valid() && Contents() == old(Contents())[..|old(Contents())| - len]
      ensures Layout() == After(old(Layout()), Op.Unwrite(len))
    {
      writerIndex := writerIndex - len;
    }

    method Prepend(data: seq<byte>)
      requires Valid() && |data| <= readerIndex
      modifies this, buffer
      ensures Valid() && buffer == old(buffer) && Contents() == data + old(Contents())
      ensures Layout() == After(old(Layout()), Op.Prepend(|data|))
    {
      readerIndex := readerIndex - |data|;
      ghost var was := buffer[readerIndex + |data|..writerIndex];
      forall i | 0 <= i < |data| { buffer[readerIndex + i] := data[i]; }
      assert buffer[readerIndex..readerIndex + |data|] == data;
      assert buffer[readerIndex + |data|..writerIndex] == was;
      assert Contents() == buffer[readerIndex..readerIndex + |data|] + buffer[readerIndex + |data|..writerIndex];
    }

    // Keeps the bytes, and leaves exactly what they and the reserve need
    method Shrink(reserve: nat)
      requires Valid()
      modifies this
      ensures Valid() && fresh(buffer) && Contents() == old(Contents())
      ensures readerIndex == CHEAP_PREPEND
      ensures buffer.Length == CHEAP_PREPEND + Max(INITIAL_SIZE, |Contents()| + reserve)
    {
      var other := new Buffer();
      other.EnsureWritableBytes(writerIndex - readerIndex + reserve);
      assert other.buffer != buffer;
      other.Append(buffer[readerIndex..writerIndex]);
      assert [] + old(Contents()) == old(Contents());
      Swap(other);
    }

    // A read scattered over the room left and a second area on the stack; readv's answer is
    // given: the bytes it delivers, at most what the areas hold, or an error
    method ReadFd(ready: seq<byte>, failed: bool) returns (n: int)
      requires Valid()
      requires |ready| <= buffer.Length - writerIndex + if buffer.Length - writerIndex < EXTRA then EXTRA else 0
      modifies this, buffer
      ensures Valid() && (buffer == old(buffer) || fresh(buffer))
      ensures n == (if failed then -1 else |ready|)
      ensures Contents() == old(Contents()) + if failed then [] else ready
      ensures !failed && |ready| > old(buffer.Length - writerIndex) ==>
                buffer.Length <= Max(old(buffer.Length), old(buffer.Length - readerIndex) + 2 * EXTRA + 7)
    {
      if failed { return -1; }
      var writable := buffer.Length - writerIndex;
      n := |ready|;
      if n <= writable {
        CopyIn(ready);
      } else {
        ghost var before := Contents();
        CopyIn(ready[..writable]);
        Append(ready[writable..]);
        assert before + ready[..writable] + ready[writable..] == before + ready;
      }
    }

    // Grows when the free bytes do not suffice, else moves the content to the front
    method MakeSpace(len: nat)
      requires Valid() && buffer.Length - writerIndex < len
      modifies this, buffer
      ensures Valid() && (buffer == old(buffer) || fresh(buffer))
      ensures Contents() == old(Contents()) && Layout() == Spaced(old(Layout()), len)
    {
      ghost var before := Contents();
      if buffer.Length - writerIndex + readerIndex < len + CHEAP_PREPEND {
        var grown := new byte[writerIndex + len];
        forall i | 0 <= i < buffer.Length { grown[i] := buffer[i]; }
        buffer := grown;
        assert Contents() == before;
      } else {
        assert CHEAP_PREPEND < readerIndex;
        var readable := writerIndex - readerIndex;
        forall i | 0 <= i < readable { buffer[CHEAP_PREPEND + i] := buffer[readerIndex + i]; }
        readerIndex := CHEAP_PREPEND;
        writerIndex := readerIndex + readable;
        assert Contents() == before;
      }
    }

    // appendInt8, appendInt16, appendInt32 and appendInt64, by width in bytes
    method AppendInt(width: nat, x: int)
      requires Valid() && InRange(width, x)
      modifies this, buffer
      ensures Valid() && (buffer == old(buffer) || fresh(buffer))
      ensures Contents() == old(Contents()) + Encode(width, x)
    {
      Append(Encode(width, x));
    }

    method PrependInt(width: nat, x: int)
      requires Valid() && InRange(width, x) && width <= readerIndex
      modifies this, buffer
      ensures Valid() && buffer == old(buffer) && Contents() == Encode(width, x) + old(Contents())
    {
      Prepend(Encode(width, x));
    }

    method PeekInt(width: nat) returns (x: int)
      requires Valid() && width <= |Contents()|
      ensures x == Decode(Contents()[..width])
    {
      assert Contents()[..width] == buffer[readerIndex..readerIndex + width];
      x := Decode(buffer[readerIndex..readerIndex + width]);
    }

    method ReadInt(width: nat) returns (x: int)
      requires Valid() && width <= |Contents()|
      modifies `readerIndex, `writerIndex
      ensures Valid() && x == Decode(old(Contents())[..width]) && Contents() == old(Contents())[width..]
    {
      x := PeekInt(width);
      Retrieve(width);
    }
  }
}
