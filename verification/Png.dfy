/**
  The PNG writer of tools/boot/make-splash.py, against an independent reader that follows
  RFC 2083: the signature of section 3.1, the chunk layout of section 3.2, the image header of
  section 4.1.1 and filter type 0 of section 6.2.  Compression and the CRC are parameters.
 */
module Png {
  import opened Bytes
  import opened Options

  type Checksum = seq<Byte> -> int
  type Codec = seq<Byte> -> seq<Byte>

  const SIGNATURE: seq<Byte> := [0x89, 0x50, 0x4E, 0x47, 0x0D, 0x0A, 0x1A, 0x0A]
  const IHDR: seq<Byte> := [0x49, 0x48, 0x44, 0x52]
  const IDAT: seq<Byte> := [0x49, 0x44, 0x41, 0x54]
  const IEND: seq<Byte> := [0x49, 0x45, 0x4E, 0x44]

  // ---------------------------------------------------------------- the writer

  /** `struct.pack('>I', n)`. */
  function U32(n: nat): (b: seq<Byte>)
    requires n < TWO32
    ensures |b| == 4
  {
    [n / 0x100_0000, n / 0x1_0000 % 0x100, n / 0x100 % 0x100, n % 0x100]
  }

  function Chunk(tag: seq<Byte>, data: seq<Byte>, crc: Checksum): seq<Byte>
    requires |data| < TWO32
  {
    U32(|data|) + (tag + data) + U32(crc(tag + data) % TWO32)
  }

  function Header(w: nat, h: nat): (b: seq<Byte>)
    requires w < TWO32 && h < TWO32
    ensures |b| == 13
  {
    U32(w) + U32(h) + [8, 6, 0, 0, 0]
  }

  /** The scanlines from `y` on, each behind its zero filter byte. */
  function Scanlines(pixels: seq<Byte>, stride: nat, y: nat, h: nat): seq<Byte>
    decreases h - y
  {
    if y >= h then []
    else Row(pixels, stride, y) + Scanlines(pixels, stride, y + 1, h)
  }

  function Row(pixels: seq<Byte>, stride: nat, y: nat): seq<Byte> {
    RowStart(y, stride);
    [0] + Clip(pixels, y * stride, (y + 1) * stride)
  }

  lemma RowStart(y: nat, stride: nat)
    ensures 0 <= y * stride
  {
  }

  function Encode(w: nat, h: nat, pixels: seq<Byte>, compress: Codec, crc: Checksum): seq<Byte>
    requires w < TWO32 && h < TWO32 && |compress(Scanlines(pixels, w * 4, 0, h))| < TWO32
  {
    SIGNATURE + Chunk(IHDR, Header(w, h), crc)
      + Chunk(IDAT, compress(Scanlines(pixels, w * 4, 0, h)), crc) + Chunk(IEND, [], crc)
  }

  /** `write_png`; `None` stands for the error `struct.pack` raises on a number of 2^32 or more. */
  method WritePng(w: nat, h: nat, pixels: seq<Byte>, compress: Codec, crc: Checksum) returns (png: Option<seq<Byte>>)
    ensures png.Some? <==> w < TWO32 && h < TWO32 && |compress(Scanlines(pixels, w * 4, 0, h))| < TWO32
    ensures png.Some? ==> png.value == Encode(w, h, pixels, compress, crc)
  {
    var raw: seq<Byte> := [];
    var stride := w * 4;
    for y := 0 to h
      invariant raw + Scanlines(pixels, stride, y, h) == Scanlines(pixels, stride, 0, h)
    {
      RowStart(y, stride);
      raw := raw + [0];
      raw := raw + Clip(pixels, y * stride, (y + 1) * stride);
    }
    assert raw == Scanlines(pixels, stride, 0, h);
    var packed := compress(raw);
    if w >= TWO32 || h >= TWO32 || |packed| >= TWO32 { return None; }
    return Some(SIGNATURE + Chunk(IHDR, Header(w, h), crc) + Chunk(IDAT, packed, crc) + Chunk(IEND, [], crc));
  }

  // ---------------------------------------------------------------- the reader

  datatype Piece = Piece(tag: seq<Byte>, data: seq<Byte>)
  datatype Image = Image(w: nat, h: nat, pixels: seq<Byte>)

  function ReadU32(b: seq<Byte>, i: nat): (n: nat)
    requires i + 4 <= |b|
    ensures n < TWO32
  {
    b[i] as int * 0x100_0000 + b[i + 1] as int * 0x1_0000 + b[i + 2] as int * 0x100 + b[i + 3] as int
  }

  /** Section 3.2: length, type, that many bytes of data, and a CRC over type and data. */
  function ReadChunks(b: seq<Byte>, crc: Checksum): Option<seq<Piece>>
    decreases |b|
  {
    if b == [] then Some([])
    else if |b| < 12 || |b| - 12 < ReadU32(b, 0) then None
    else
      var n := ReadU32(b, 0);
      if ReadU32(b, 8 + n) != crc(b[4..8 + n]) % TWO32 then None
      else
        var rest := ReadChunks(b[12 + n..], crc);
        if rest.None? then None else Some([Piece(b[4..8], b[8..8 + n])] + rest.value)
  }

  /** Section 6.2, filter type 0: a scanline is its filter byte followed by its raw bytes. */
  function Unfilter(raw: seq<Byte>, stride: nat, h: nat): Option<seq<Byte>> {
    if h == 0 then (if raw == [] then Some([]) else None)
    else if |raw| < 1 + stride || raw[0] != 0 then None
    else
      var rest := Unfilter(raw[1 + stride..], stride, h - 1);
      if rest.None? then None else Some(raw[1..1 + stride] + rest.value)
  }

  /** Section 4.1.1 fixes the header's fields; this reader takes the one colour type written here. */
  function Decode(png: seq<Byte>, inflate: Codec, crc: Checksum): Option<Image> {
    if |png| < 8 || png[..8] != SIGNATURE then None
    else
      var chunks := ReadChunks(png[8..], crc);
      if chunks.None? || |chunks.value| != 3 then None
      else
        var head, body, end := chunks.value[0], chunks.value[1], chunks.value[2];
        if head.tag != IHDR || body.tag != IDAT || end != Piece(IEND, []) then None
        else if |head.data| != 13 || head.data[8..] != [8, 6, 0, 0, 0] then None
        else
          var w, h := ReadU32(head.data, 0), ReadU32(head.data, 4);
          var pixels := Unfilter(inflate(body.data), w * 4, h);
          if pixels.None? then None else Some(Image(w, h, pixels.value))
  }

  // ---------------------------------------------------------------- the round trip

  lemma U32Digits(n: nat)
    requires n < TWO32
    ensures ReadU32(U32(n), 0) == n
  {
    var a, b, c := n / 0x100, n / 0x1_0000, n / 0x100_0000;
    assert n == a * 0x100 + n % 0x100 && a == b * 0x100 + a % 0x100 && b == c * 0x100 + b % 0x100;
  }

  lemma ReadShifted(before: seq<Byte>, four: seq<Byte>, after: seq<Byte>)
    requires |four| == 4
    ensures ReadU32(before + four + after, |before|) == ReadU32(four, 0)
  {
    var b := before + four + after;
    assert forall i :: 0 <= i < 4 ==> b[|before| + i] == four[i];
  }

  lemma U32RoundTrip(n: nat, before: seq<Byte>, after: seq<Byte>)
    requires n < TWO32
    ensures ReadU32(before + U32(n) + after, |before|) == n
  {
    U32Digits(n);
    ReadShifted(before, U32(n), after);
  }

  lemma {:induction false} ReadsOneChunk(tag: seq<Byte>, data: seq<Byte>, rest: seq<Byte>, crc: Checksum)
    requires |tag| == 4 && |data| < TWO32 && ReadChunks(rest, crc).Some?
    ensures ReadChunks(Chunk(tag, data, crc) + rest, crc) == Some([Piece(tag, data)] + ReadChunks(rest, crc).value)
  {
    var b := Chunk(tag, data, crc) + rest;
    var n := |data|;
    var sum := crc(tag + data) % TWO32;
    assert b == [] + U32(n) + ((tag + data) + U32(sum) + rest);
    U32RoundTrip(n, [], (tag + data) + U32(sum) + rest);
    assert b == (U32(n) + (tag + data)) + U32(sum) + rest;
    U32RoundTrip(sum, U32(n) + (tag + data), rest);
    ChunkParts(U32(n), tag, data, U32(sum), rest, b);
  }

  lemma ChunkParts(size: seq<Byte>, tag: seq<Byte>, data: seq<Byte>, sum: seq<Byte>, rest: seq<Byte>, b: seq<Byte>)
    requires |size| == |tag| == |sum| == 4 && b == size + tag + data + sum + rest
    ensures |b| == 12 + |data| + |rest| && b[4..8 + |data|] == tag + data
    ensures b[4..8] == tag && b[8..8 + |data|] == data && b[12 + |data|..] == rest
  {
  }

  predicate Writable(ps: seq<Piece>) {
    forall p :: p in ps ==> |p.tag| == 4 && |p.data| < TWO32
  }

  function WriteChunks(ps: seq<Piece>, crc: Checksum): seq<Byte>
    requires Writable(ps)
  {
    if ps == [] then []
    else assert ps[0] in ps; Chunk(ps[0].tag, ps[0].data, crc) + WriteChunks(ps[1..], crc)
  }

  /** Any sequence of chunks, however many, is read back piece by piece. */
  lemma {:induction false} ReadsChunks(ps: seq<Piece>, crc: Checksum)
    requires Writable(ps)
    ensures ReadChunks(WriteChunks(ps, crc), crc) == Some(ps)
  {
    if ps != [] {
      assert ps[0] in ps;
      ReadsChunks(ps[1..], crc);
      ReadsOneChunk(ps[0].tag, ps[0].data, WriteChunks(ps[1..], crc), crc);
      assert ps == [Piece(ps[0].tag, ps[0].data)] + ps[1..];
    }
  }

  lemma StrideFits(y: nat, h: nat, stride: nat)
    requires y <= h
    ensures 0 <= y * stride <= h * stride
    ensures y < h ==> (y + 1) * stride == y * stride + stride <= h * stride
  {
    Monotone(0, y, stride);
    Monotone(y, h, stride);
    if y < h { Monotone(y + 1, h, stride); }
  }

  lemma UnfilterOne(pixels: seq<Byte>, stride: nat, at: nat, rest: seq<Byte>, n: nat)
    requires at + stride <= |pixels| && Unfilter(rest, stride, n) == Some(pixels[at + stride..])
    ensures Unfilter(([0] + pixels[at..at + stride]) + rest, stride, n + 1) == Some(pixels[at..])
  {
    var row := pixels[at..at + stride];
    var raw := ([0] + row) + rest;
    assert raw[1 + stride..] == rest && raw[1..1 + stride] == row;
    assert row + pixels[at + stride..] == pixels[at..];
  }

  lemma RowIs(pixels: seq<Byte>, stride: nat, y: nat, at: nat)
    requires at == y * stride && (y + 1) * stride == at + stride <= |pixels|
    ensures Row(pixels, stride, y) == [0] + pixels[at..at + stride]
  {
  }

  lemma ScanlinesFrom(pixels: seq<Byte>, stride: nat, y: nat, h: nat)
    requires y < h
    ensures Scanlines(pixels, stride, y, h) == Row(pixels, stride, y) + Scanlines(pixels, stride, y + 1, h)
  {
  }

  lemma {:induction false} UnfilterScanlines(pixels: seq<Byte>, stride: nat, y: nat, h: nat)
    requires y <= h && |pixels| == h * stride
    ensures 0 <= y * stride <= |pixels|
    ensures Unfilter(Scanlines(pixels, stride, y, h), stride, h - y) == Some(pixels[y * stride..])
    decreases h - y
  {
    StrideFits(y, h, stride);
    if y < h {
      UnfilterScanlines(pixels, stride, y + 1, h);
      UnfilterRow(pixels, stride, y, h, y * stride, h - y - 1);
    } else {
      assert Scanlines(pixels, stride, h, h) == [] && pixels[|pixels|..] == [];
    }
  }

  lemma UnfilterRow(pixels: seq<Byte>, stride: nat, y: nat, h: nat, at: nat, n: nat)
    requires y < h && at == y * stride && (y + 1) * stride == at + stride <= |pixels|
    requires Unfilter(Scanlines(pixels, stride, y + 1, h), stride, n) == Some(pixels[at + stride..])
    ensures Unfilter(Scanlines(pixels, stride, y, h), stride, n + 1) == Some(pixels[at..])
  {
    RowIs(pixels, stride, y, at);
    ScanlinesFrom(pixels, stride, y, h);
    UnfilterOne(pixels, stride, at, Scanlines(pixels, stride, y + 1, h), n);
  }

  /** Whatever picture is written, a conforming reader gets back exactly that picture. */
  lemma PngRoundTrip(w: nat, h: nat, pixels: seq<Byte>, compress: Codec, inflate: Codec, crc: Checksum)
    requires w < TWO32 && h < TWO32 && |pixels| == 4 * w * h
    requires |compress(Scanlines(pixels, w * 4, 0, h))| < TWO32
    requires inflate(compress(Scanlines(pixels, w * 4, 0, h))) == Scanlines(pixels, w * 4, 0, h)
    ensures Decode(Encode(w, h, pixels, compress, crc), inflate, crc) == Some(Image(w, h, pixels))
  {
    var raw := Scanlines(pixels, w * 4, 0, h);
    ChunksRoundTrip(w, h, compress(raw), crc);
    HeaderFields(w, h);
    BufferSize(w, h);
    UnfilterScanlines(pixels, w * 4, 0, h);
  }

  lemma BufferSize(w: nat, h: nat)
    ensures h * (w * 4) == 4 * w * h
  {
  }

  lemma SplitOff(a: seq<Byte>, b: seq<Byte>, c: seq<Byte>, d: seq<Byte>)
    ensures (a + b + c + d)[..|a|] == a
    ensures (a + b + c + d)[|a|..] == b + (c + (d + []))
  {
  }

  lemma ChunksRoundTrip(w: nat, h: nat, packed: seq<Byte>, crc: Checksum)
    requires w < TWO32 && h < TWO32 && |packed| < TWO32
    ensures var png := SIGNATURE + Chunk(IHDR, Header(w, h), crc) + Chunk(IDAT, packed, crc) + Chunk(IEND, [], crc);
      |png| >= 8 && png[..8] == SIGNATURE
      && ReadChunks(png[8..], crc) == Some([Piece(IHDR, Header(w, h)), Piece(IDAT, packed), Piece(IEND, [])])
  {
    var head, body, end := Piece(IHDR, Header(w, h)), Piece(IDAT, packed), Piece(IEND, []);
    SplitOff(SIGNATURE, Chunk(head.tag, head.data, crc), Chunk(body.tag, body.data, crc),
      Chunk(end.tag, end.data, crc));
    calc {
      WriteChunks([head, body, end], crc);
      { assert [head, body, end][1..] == [body, end]; }
      Chunk(head.tag, head.data, crc) + WriteChunks([body, end], crc);
      { assert [body, end][1..] == [end]; }
      Chunk(head.tag, head.data, crc) + (Chunk(body.tag, body.data, crc) + WriteChunks([end], crc));
      { assert [end][1..] == []; }
      Chunk(head.tag, head.data, crc) + (Chunk(body.tag, body.data, crc) + (Chunk(end.tag, end.data, crc) + []));
    }
    ReadsChunks([head, body, end], crc);
  }

  lemma HeaderFields(w: nat, h: nat)
    requires w < TWO32 && h < TWO32
    ensures ReadU32(Header(w, h), 0) == w && ReadU32(Header(w, h), 4) == h
    ensures Header(w, h)[8..] == [8, 6, 0, 0, 0]
  {
    assert Header(w, h) == [] + U32(w) + (U32(h) + [8, 6, 0, 0, 0]);
    U32RoundTrip(w, [], U32(h) + [8, 6, 0, 0, 0]);
    U32RoundTrip(h, U32(w), [8, 6, 0, 0, 0]);
  }

  /** The fixed bytes of every picture: signature, a header chunk of 13 bytes for eight-bit RGBA, an empty end chunk. */
  lemma PngBytes(w: nat, h: nat, pixels: seq<Byte>, compress: Codec, crc: Checksum)
    requires w < TWO32 && h < TWO32 && |compress(Scanlines(pixels, w * 4, 0, h))| < TWO32
    ensures var b := Encode(w, h, pixels, compress, crc);
      var n := |b|;
      && n >= 45 && b[..8] == [137, 80, 78, 71, 13, 10, 26, 10]
      && b[8..16] == [0, 0, 0, 13, 73, 72, 68, 82] && b[24..29] == [8, 6, 0, 0, 0]
      && b[n - 12..n - 4] == [0, 0, 0, 0, 73, 69, 78, 68]
  {
    var packed := compress(Scanlines(pixels, w * 4, 0, h));
    var head, body, end := Chunk(IHDR, Header(w, h), crc), Chunk(IDAT, packed, crc), Chunk(IEND, [], crc);
    assert head[..8] == [0, 0, 0, 13, 73, 72, 68, 82] && head[16..21] == [8, 6, 0, 0, 0];
    assert end[..8] == [0, 0, 0, 0, 73, 69, 78, 68];
    FourParts(SIGNATURE, head, body, end);
  }

  lemma FourParts(a: seq<Byte>, b: seq<Byte>, c: seq<Byte>, d: seq<Byte>)
    requires |a| == 8 && |b| == 25 && |d| == 12
    ensures var s := a + b + c + d;
      && s[..8] == a && s[8..16] == b[..8] && s[24..29] == b[16..21] && s[|s| - 12..|s| - 4] == d[..8]
      && |s| >= 45
  {
  }
}
