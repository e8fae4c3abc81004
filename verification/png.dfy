/**
 The writer of plain-coloured PNG files, and a reader to check it against: signature, chunks with
 length, type, data and CRC (sections 3.1 and 3.2 of RFC 2083), header (section 4.1.1) and rows.
 */
module Png {
  import opened Basics
  import opened Crc32

  type Bytes = seq<Byte>

  // ----- Big-endian numbers

  function UInt32BE(n: Word): (b: Bytes)
    ensures |b| == 4
  {
    var high := n / 256;
    var higher := high / 256;
    [higher / 256, higher % 256, high % 256, n % 256]
  }

  function ReadUInt32BE(b: Bytes): Word
    requires |b| == 4
  {
    var b0: int, b1: int, b2: int, b3: int := b[0], b[1], b[2], b[3];
    ((b0 * 256 + b1) * 256 + b2) * 256 + b3
  }

  lemma ReadOfUInt32BE(n: Word)
    ensures ReadUInt32BE(UInt32BE(n)) == n
  {}

  lemma UInt32BEOfRead(b: Bytes)
    requires |b| == 4
    ensures UInt32BE(ReadUInt32BE(b)) == b
  {
    var b0: int, b1: int, b2: int, b3: int := b[0], b[1], b[2], b[3];
    LastByte(b0 * 256 + b1, b2);
    LastByte((b0 * 256 + b1) * 256 + b2, b3);
    LastByte(b0, b1);
  }

  lemma LastByte(high: nat, low: int)
    requires 0 <= low < 256
    ensures (high * 256 + low) / 256 == high && (high * 256 + low) % 256 == low
  {}

  /** `buffer.writeUInt32BE(value, offset)`: a value that does not fit is an error, nothing is written. */
  method WriteUInt32BE(buffer: array<Byte>, value: nat, offset: nat) returns (ok: bool)
    requires offset + 4 <= buffer.Length
    modifies buffer
    ensures ok == (value < TWO_32)
    ensures ok ==> buffer[offset..offset + 4] == UInt32BE(value)
    ensures buffer[..offset] == old(buffer[..offset])
    ensures buffer[offset + 4..] == old(buffer[offset + 4..])
    ensures !ok ==> buffer[..] == old(buffer[..])
  {
    if value >= TWO_32 {
      return false;
    }
    var n: Word := value;
    var b := UInt32BE(n);
    buffer[offset], buffer[offset + 1], buffer[offset + 2], buffer[offset + 3] := b[0], b[1], b[2], b[3];
    return true;
  }

  // ----- Writing a chunk

  function Chunk(kind: Bytes, data: Bytes): Bytes
    requires |data| < TWO_32
  {
    CrcIsWord(kind + data);
    UInt32BE(|data|) + (kind + data) + UInt32BE(CrcReference(kind + data))
  }

  method MakeChunk(table: array<Word>, kind: Bytes, data: Bytes) returns (result: Result<Bytes, RangeError>)
    requires IsTable(table[..])
    ensures result == if |data| < TWO_32 then Ok(Chunk(kind, data)) else Err(RangeError)
  {
    hide CrcReference, UInt32BE;
    var length := new Byte[4](_ => 0);
    var ok := WriteUInt32BE(length, |data|, 0);
    if !ok {
      return Err(RangeError);
    }
    var body := kind + data;
    var sum := new Byte[4](_ => 0);
    var crc := Crc(table, body);
    ok := WriteUInt32BE(sum, crc, 0);
    assert length[0..0 + 4] == length[..] && sum[0..0 + 4] == sum[..];
    return Ok(length[..] + body + sum[..]);
  }

  // ----- Writing the file

  const SIGNATURE: Bytes := [0x89, 0x50, 0x4E, 0x47, 0x0D, 0x0A, 0x1A, 0x0A]
  const IHDR: Bytes := [0x49, 0x48, 0x44, 0x52]
  const IDAT: Bytes := [0x49, 0x44, 0x41, 0x54]
  const IEND: Bytes := [0x49, 0x45, 0x4E, 0x44]

  /** What a byte buffer stores for a number; a missing channel counts as zero. */
  function Channel(color: seq<int>, i: nat): Byte {
    if i < |color| then color[i] % 256 else 0
  }

  function Pixel(color: seq<int>): Bytes {
    [Channel(color, 0), Channel(color, 1), Channel(color, 2)]
  }

  /** A zero filter byte and `width` copies of the pixel. */
  function Row(width: nat, color: seq<int>): (r: Bytes)
    ensures |r| == 1 + width * 3
  {
    if width == 0 then [0] else Row(width - 1, color) + Pixel(color)
  }

  function Rows(height: nat, row: Bytes): (r: Bytes)
    ensures |r| == height * |row|
  {
    if height == 0 then [] else Rows(height - 1, row) + row
  }

  /** Eight bits a channel, true colour, the only compression, filter and no interlacing. */
  function Header(width: Word, height: Word): Bytes {
    UInt32BE(width) + UInt32BE(height) + [8, 2, 0, 0, 0]
  }

  function Image(width: nat, height: nat, color: seq<int>, deflate: Bytes -> Bytes): Result<Bytes, RangeError> {
    if width >= TWO_32 || height >= TWO_32 then Err(RangeError)
    else
      var data := deflate(Rows(height, Row(width, color)));
      if |data| >= TWO_32 then Err(RangeError)
      else Ok(SIGNATURE + Chunk(IHDR, Header(width, height)) + Chunk(IDAT, data) + Chunk(IEND, []))
  }

  method MakeHeader(width: nat, height: nat) returns (result: Result<Bytes, RangeError>)
    ensures result == if width < TWO_32 && height < TWO_32 then Ok(Header(width, height)) else Err(RangeError)
  {
    hide UInt32BE;
    var header := new Byte[13](_ => 0);
    var ok := WriteUInt32BE(header, width, 0);
    if !ok {
      return Err(RangeError);
    }
    ghost var written := header[..4];
    ok := WriteUInt32BE(header, height, 4);
    if !ok {
      return Err(RangeError);
    }
    ghost var both := header[..8];
    assert both == UInt32BE(width) + UInt32BE(height) by {
      assert written == header[0..0 + 4] == UInt32BE(width);
      assert both == header[..4] + header[4..4 + 4];
    }
    header[8], header[9], header[10], header[11], header[12] := 8, 2, 0, 0, 0;
    assert header[..8] == both && header[8..] == [8, 2, 0, 0, 0];
    assert header[..] == header[..8] + header[8..];
    return Ok(header[..]);
  }

  method MakeRow(width: nat, color: seq<int>) returns (row: array<Byte>)
    ensures row[..] == Row(width, color)
  {
    row := new Byte[1 + width * 3](_ => 0);
    for x := 0 to width
      invariant row[..1 + x * 3] == Row(x, color)
    {
      var at := 1 + x * 3;
      row[at], row[at + 1], row[at + 2] := Channel(color, 0), Channel(color, 1), Channel(color, 2);
      assert row[..at + 3] == row[..at] + Pixel(color);
    }
    assert row[..] == row[..1 + width * 3];
  }

  method SolidPng(width: nat, height: nat, color: seq<int>, deflate: Bytes -> Bytes) returns (result: Result<Bytes, RangeError>)
    ensures result == Image(width, height, color, deflate)
  {
    hide Chunk, Row, Header;
    var header := MakeHeader(width, height);
    if header.Err? {
      return Err(RangeError);
    }
    var row := MakeRow(width, color);
    var rows: Bytes := [];
    for y := 0 to height
      invariant rows == Rows(y, Row(width, color))
    {
      rows := rows + row[..];
    }
    var table := BuildTable();
    HeaderLength(width, height);
    var first := MakeChunk(table, IHDR, header.value);
    var second := MakeChunk(table, IDAT, deflate(rows));
    if second.Err? {
      return Err(RangeError);
    }
    var third := MakeChunk(table, IEND, []);
    return Ok(SIGNATURE + first.value + second.value + third.value);
  }

  lemma HeaderLength(width: Word, height: Word)
    ensures |Header(width, height)| == 13
  {}

  // ----- Reading

  datatype ChunkData = ChunkData(kind: Bytes, data: Bytes)

  /** The first chunk of a file and what follows it, if its length fits and its CRC is right. */
  function ReadChunk(s: Bytes): Option<(ChunkData, Bytes)> {
    if |s| < 12 then None
    else
      var length := ReadUInt32BE(s[..4]);
      if |s| < 12 + length then None
      else
        var body := s[4..8 + length];
        if ReadUInt32BE(s[8 + length..12 + length]) != CrcReference(body) then None
        else Some((ChunkData(body[..4], body[4..]), s[12 + length..]))
  }

  function ReadChunks(s: Bytes): Option<seq<ChunkData>>
    decreases |s|
  {
    if s == [] then Some([])
    else
      match ReadChunk(s)
      case None => None
      case Some((chunk, rest)) =>
        (match ReadChunks(rest)
         case None => None
         case Some(chunks) => Some([chunk] + chunks))
  }

  function ReadPng(s: Bytes): Option<seq<ChunkData>> {
    if |s| < 8 || s[..8] != SIGNATURE then None else ReadChunks(s[8..])
  }

  /** A written chunk reads back, whatever follows it. */
  lemma ReadOfChunk(kind: Bytes, data: Bytes, rest: Bytes)
    requires |kind| == 4 && |data| < TWO_32
    ensures ReadChunk(Chunk(kind, data) + rest) == Some((ChunkData(kind, data), rest))
  {
    hide CrcReference, UInt32BE, ReadUInt32BE;
    var s, n := Chunk(kind, data) + rest, |data|;
    CrcIsWord(kind + data);
    var sum := UInt32BE(CrcReference(kind + data));
    assert s[..4] == UInt32BE(n);
    ReadOfUInt32BE(n);
    assert s[4..8 + n] == kind + data;
    assert s[8 + n..12 + n] == sum;
    ReadOfUInt32BE(CrcReference(kind + data));
    assert (kind + data)[..4] == kind && (kind + data)[4..] == data;
    assert s[12 + n..] == rest;
  }

  /** What the reader accepts as a chunk is what the writer makes of it. */
  lemma ChunkOfRead(s: Bytes)
    requires ReadChunk(s).Some?
    ensures var (chunk, rest) := ReadChunk(s).value;
            |chunk.kind| == 4 && |chunk.data| < TWO_32 && s == Chunk(chunk.kind, chunk.data) + rest
  {
    hide CrcReference, UInt32BE, ReadUInt32BE;
    var (chunk, rest) := ReadChunk(s).value;
    var n := ReadUInt32BE(s[..4]);
    assert chunk.kind + chunk.data == s[4..8 + n];
    UInt32BEOfRead(s[..4]);
    UInt32BEOfRead(s[8 + n..12 + n]);
    assert s == s[..4] + s[4..8 + n] + s[8 + n..12 + n] + s[12 + n..];
  }

  function WriteChunks(chunks: seq<ChunkData>): Bytes
    requires forall i :: 0 <= i < |chunks| ==> |chunks[i].data| < TWO_32
  {
    if chunks == [] then [] else Chunk(chunks[0].kind, chunks[0].data) + WriteChunks(chunks[1..])
  }

  predicate Writable(chunks: seq<ChunkData>) {
    forall i :: 0 <= i < |chunks| ==> |chunks[i].kind| == 4 && |chunks[i].data| < TWO_32
  }

  lemma {:induction false} ReadOfWrite(chunks: seq<ChunkData>)
    requires Writable(chunks)
    ensures ReadChunks(WriteChunks(chunks)) == Some(chunks)
    decreases chunks
  {
    if chunks != [] {
      ReadOfChunk(chunks[0].kind, chunks[0].data, WriteChunks(chunks[1..]));
      ReadOfWrite(chunks[1..]);
      assert [chunks[0]] + chunks[1..] == chunks;
    }
  }

  lemma {:induction false} WriteOfRead(s: Bytes)
    requires ReadChunks(s).Some?
    ensures Writable(ReadChunks(s).value) && WriteChunks(ReadChunks(s).value) == s
    decreases |s|
  {
    if s != [] {
      ChunkOfRead(s);
      var (chunk, rest) := ReadChunk(s).value;
      WriteOfRead(rest);
      assert ReadChunks(s).value[1..] == ReadChunks(rest).value;
    }
  }

  /** A file is accepted with given chunks exactly when it is the signature and those chunks as written. */
  lemma FramingIsExact(s: Bytes, chunks: seq<ChunkData>)
    ensures ReadPng(s) == Some(chunks) <==> Writable(chunks) && s == SIGNATURE + WriteChunks(chunks)
  {
    if ReadPng(s) == Some(chunks) {
      WriteOfRead(s[8..]);
      assert s == s[..8] + s[8..];
    }
    if Writable(chunks) && s == SIGNATURE + WriteChunks(chunks) {
      assert s[..8] == SIGNATURE && s[8..] == WriteChunks(chunks);
      ReadOfWrite(chunks);
    }
  }

  /** The file of `SolidPng` reads back as exactly three chunks. */
  lemma ImageReadsBack(width: nat, height: nat, color: seq<int>, deflate: Bytes -> Bytes)
    ensures var file := Image(width, height, color, deflate);
            file.Ok? ==> (
              && width < TWO_32 && height < TWO_32
              && ReadPng(file.value)
                 == Some([ChunkData(IHDR, Header(width, height)),
                          ChunkData(IDAT, deflate(Rows(height, Row(width, color)))),
                          ChunkData(IEND, [])]))
  {
    hide Chunk, Row, Rows, Header, ReadPng;
    var data := deflate(Rows(height, Row(width, color)));
    if Image(width, height, color, deflate).Err? {
      return;
    }
    HeaderLength(width, height);
    var a, b, c := ChunkData(IHDR, Header(width, height)), ChunkData(IDAT, data), ChunkData(IEND, []);
    var chunks := [a, b, c];
    assert chunks[1..] == [b, c] && [b, c][1..] == [c] && [c][1..] == [];
    var (x, y, z) := (Chunk(a.kind, a.data), Chunk(b.kind, b.data), Chunk(c.kind, c.data));
    assert WriteChunks([c]) == z + [] == z;
    assert WriteChunks([b, c]) == y + z;
    assert WriteChunks(chunks) == x + (y + z);
    assert SIGNATURE + x + y + z == SIGNATURE + (x + (y + z));
    FramingIsExact(SIGNATURE + (x + (y + z)), chunks);
  }

  // ----- The picture

  lemma {:induction false} RowPixel(width: nat, color: seq<int>, x: nat)
    requires x < width
    ensures Row(width, color)[0] == 0
    ensures Row(width, color)[1 + x * 3..4 + x * 3] == Pixel(color)
    decreases width
  {
    var front := Row(width - 1, color);
    if width > 1 {
      RowPixel(width - 1, color, if x < width - 1 then x else 0);
    }
    if x < width - 1 {
      assert (front + Pixel(color))[1 + x * 3..4 + x * 3] == front[1 + x * 3..4 + x * 3];
    }
  }

  lemma {:induction false} RowsAt(height: nat, row: Bytes, y: nat)
    requires y < height
    ensures 0 <= y * |row| <= (y + 1) * |row| <= height * |row|
    ensures Rows(height, row)[y * |row|..(y + 1) * |row|] == row
    decreases height
  {
    var n := |row|;
    assert (y + 1) * n == y * n + n;
    var front := Rows(height - 1, row);
    assert |front| == (height - 1) * n == height * n - n;
    if y < height - 1 {
      RowsAt(height - 1, row, y);
      assert (front + row)[y * n..(y + 1) * n] == front[y * n..(y + 1) * n];
    }
  }

  /** The size a decoder reads out of the header chunk. */
  function HeaderSize(header: Bytes): (nat, nat)
    requires |header| == 13
  {
    (ReadUInt32BE(header[..4]), ReadUInt32BE(header[4..8]))
  }

  /** The pixel a decoder finds at (x, y) in the unpacked rows of a true-colour image. */
  function PixelAt(raw: Bytes, width: nat, x: nat, y: nat): Bytes
    requires x < width && (y + 1) * (1 + width * 3) <= |raw|
  {
    var row := RowAt(raw, width, y);
    row[1 + x * 3..4 + x * 3]
  }

  function RowAt(raw: Bytes, width: nat, y: nat): (row: Bytes)
    requires (y + 1) * (1 + width * 3) <= |raw|
    ensures |row| == 1 + width * 3
  {
    var n := 1 + width * 3;
    RowBounds(n, y);
    raw[y * n..(y + 1) * n]
  }

  lemma RowBounds(n: nat, y: nat)
    ensures 0 <= y * n && (y + 1) * n == y * n + n
  {}

  /** A decoder of the chunks finds the size, an unfiltered row, and the colour at (x, y). */
  predicate Decodes(chunks: seq<ChunkData>, inflate: Bytes -> Bytes, width: nat, height: nat, color: seq<int>,
                    x: nat, y: nat)
    requires x < width && y < height
  {
    && |chunks| == 3 && |chunks[0].data| == 13
    && HeaderSize(chunks[0].data) == (width, height)
    && chunks[0].data[8..] == [8, 2, 0, 0, 0]
    && var raw := inflate(chunks[1].data);
       && |raw| == height * (1 + width * 3)
       && (y + 1) * (1 + width * 3) <= |raw|
       && RowAt(raw, width, y)[0] == 0
       && PixelAt(raw, width, x, y) == Pixel(color)
  }

  /**
   Decoding the file gives the picture that was asked for: its size, no row filtered, and the given
   colour at every place.
   */
  lemma ImageDecodes(width: nat, height: nat, color: seq<int>, deflate: Bytes -> Bytes, inflate: Bytes -> Bytes,
                     x: nat, y: nat)
    requires forall b :: inflate(deflate(b)) == b
    requires x < width && y < height
    ensures var file := Image(width, height, color, deflate);
            file.Ok? ==> ReadPng(file.value).Some? && Decodes(ReadPng(file.value).value, inflate, width, height, color, x, y)
  {
    hide Image, ReadPng, Header, HeaderSize, Row, Rows;
    if Image(width, height, color, deflate).Err? {
      return;
    }
    ImageReadsBack(width, height, color, deflate);
    HeaderDecodes(width, height);
    RowsAt(height, Row(width, color), y);
    RowPixel(width, color, x);
    RowsAreRows(height, Row(width, color), width, y);
  }

  /** The three bytes of the unpacked rows that stand for (x, y) are red, green and blue, modulo 256. */
  predicate ShowsColor(chunks: Option<seq<ChunkData>>, inflate: Bytes -> Bytes, width: nat, color: seq<int>,
                       x: nat, y: nat)
  {
    && chunks.Some? && |chunks.value| == 3
    && var raw, at := inflate(chunks.value[1].data), y * (1 + width * 3) + 1 + x * 3;
       && 0 <= at && at + 3 <= |raw|
       && raw[at] == (if 0 < |color| then color[0] % 256 else 0)
       && raw[at + 1] == (if 1 < |color| then color[1] % 256 else 0)
       && raw[at + 2] == (if 2 < |color| then color[2] % 256 else 0)
  }

  /** The decoded file shows the given red, green and blue at every place; a missing channel counts as zero. */
  lemma PixelBytes(width: nat, height: nat, color: seq<int>, deflate: Bytes -> Bytes, inflate: Bytes -> Bytes,
                   x: nat, y: nat)
    requires forall b :: inflate(deflate(b)) == b
    requires x < width && y < height
    ensures var file := Image(width, height, color, deflate);
            file.Ok? ==> ShowsColor(ReadPng(file.value), inflate, width, color, x, y)
  {
    hide Image, ReadPng, HeaderSize, PixelAt, RowAt;
    ImageDecodes(width, height, color, deflate, inflate, x, y);
    var file := Image(width, height, color, deflate);
    if file.Ok? {
      PixelPlace(inflate(ReadPng(file.value).value[1].data), width, x, y);
    }
  }

  lemma PixelPlace(raw: Bytes, width: nat, x: nat, y: nat)
    requires x < width && (y + 1) * (1 + width * 3) <= |raw|
    ensures var at := y * (1 + width * 3) + 1 + x * 3;
            && at + 3 <= |raw| && |PixelAt(raw, width, x, y)| == 3
            && raw[at] == PixelAt(raw, width, x, y)[0]
            && raw[at + 1] == PixelAt(raw, width, x, y)[1]
            && raw[at + 2] == PixelAt(raw, width, x, y)[2]
  {
    var n := 1 + width * 3;
    RowBounds(n, y);
    var first := y * n;
    RowPlace(raw, RowAt(raw, width, y), first, n, 1 + x * 3);
  }

  lemma RowPlace(raw: Bytes, row: Bytes, first: nat, n: nat, k: nat)
    requires first + n <= |raw| && row == raw[first..first + n] && k + 3 <= n
    ensures |row[k..k + 3]| == 3
    ensures row[k..k + 3][0] == raw[first + k] && row[k..k + 3][1] == raw[first + k + 1]
            && row[k..k + 3][2] == raw[first + k + 2]
  {}

  lemma HeaderDecodes(width: Word, height: Word)
    ensures |Header(width, height)| == 13 && HeaderSize(Header(width, height)) == (width, height)
    ensures Header(width, height)[8..] == [8, 2, 0, 0, 0]
  {
    hide UInt32BE, ReadUInt32BE;
    var header := Header(width, height);
    assert header[..4] == UInt32BE(width) && header[4..8] == UInt32BE(height);
    ReadOfUInt32BE(width);
    ReadOfUInt32BE(height);
  }

  lemma RowsAreRows(height: nat, row: Bytes, width: nat, y: nat)
    requires |row| == 1 + width * 3 && y < height
    ensures |Rows(height, row)| == height * (1 + width * 3)
    ensures (y + 1) * (1 + width * 3) <= |Rows(height, row)|
    ensures RowAt(Rows(height, row), width, y) == row
  {
    hide Rows;
    RowsAt(height, row, y);
  }

  // ----- Damage

  /** Damage within 32 consecutive bits of a chunk's type and data is always noticed. */
  lemma DamagedChunkIsRefused(kind: Bytes, data: Bytes, damaged: Bytes, d: Word, k: nat, rest: Bytes)
    requires |kind| == 4 && |data| < TWO_32
    requires IsBurst(kind + data, damaged, d, k) && damaged != kind + data
    ensures ReadChunk(UInt32BE(|data|) + damaged + Chunk(kind, data)[8 + |data|..] + rest) == None
  {
    hide CrcReference, UInt32BE, ReadUInt32BE, IsBurst;
    BurstKeepsLength(kind + data, damaged, d, k);
    var n := |data|;
    CrcIsWord(kind + data);
    var sum := UInt32BE(CrcReference(kind + data));
    assert Chunk(kind, data)[8 + n..] == sum;
    var s := UInt32BE(n) + damaged + sum + rest;
    assert s[..4] == UInt32BE(n);
    ReadOfUInt32BE(n);
    assert s[4..8 + n] == damaged;
    assert s[8 + n..12 + n] == sum;
    ReadOfUInt32BE(CrcReference(kind + data));
    BurstChangesCrc(kind + data, damaged, d, k);
  }

  lemma BurstKeepsLength(a: Bytes, b: Bytes, d: Word, k: nat)
    requires IsBurst(a, b, d, k)
    ensures |a| == |b|
  {}
}
