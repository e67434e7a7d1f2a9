/** The PNG file the icon writer produces: a signature and chunks, each with its length, type,
    data and CRC (RFC 2083, sections 3.1 to 3.4). */
module PngChunks {
  import opened Wrappers
  import opened Crc32

  const Limit: nat := 0x1_0000_0000

  datatype Chunk = Chunk(kind: seq<Byte>, data: seq<Byte>)

  function BigEndian(x: nat): (b: seq<Byte>)
    requires x < Limit
    ensures |b| == 4
  {
    [x / 0x100_0000, x / 0x1_0000 % 256, x / 0x100 % 256, x % 256]
  }

  function FromBigEndian(b: seq<Byte>): nat
    requires |b| == 4
  {
    var b0: nat, b1: nat, b2: nat, b3: nat := b[0], b[1], b[2], b[3];
    b0 * 0x100_0000 + b1 * 0x1_0000 + b2 * 0x100 + b3
  }

  lemma {:induction false} BigEndianReadsBack(x: nat)
    requires x < Limit
    ensures FromBigEndian(BigEndian(x)) == x
  {
    assert x / 0x100 / 0x100 == x / 0x1_0000 && x / 0x1_0000 / 0x100 == x / 0x100_0000;
  }

  lemma {:induction false} CrcFits(data: seq<Byte>)
    ensures Crc(data) < Limit
  {
    NumberBelow(Xor(Register(Ones, data), Ones));
    PowerOf32();
  }

  // ---------- Writing ----------

  /** The bytes of a chunk; none when its length does not fit the length field. */
  function Written(c: Chunk): Option<seq<Byte>> {
    if |c.data| >= Limit then None
    else
      CrcFits(c.kind + c.data);
      Some(BigEndian(|c.data|) + c.kind + c.data + BigEndian(Crc(c.kind + c.data)))
  }

  method WriteUInt32BE(buffer: array<Byte>, value: nat, offset: nat)
    requires value < Limit && offset + 4 <= buffer.Length
    modifies buffer
    ensures buffer[..] == old(buffer[..offset]) + BigEndian(value) + old(buffer[offset + 4..])
  {
    buffer[offset] := value / 0x100_0000;
    buffer[offset + 1] := value / 0x1_0000 % 256;
    buffer[offset + 2] := value / 0x100 % 256;
    buffer[offset + 3] := value % 256;
    assert buffer[offset..offset + 4] == BigEndian(value);
  }

  method PngChunk(kind: seq<Byte>, data: seq<Byte>) returns (r: Option<seq<Byte>>)
    ensures r == Written(Chunk(kind, data))
  {
    if |data| >= Limit { return None; }
    var length := new Byte[4](_ => 0);
    WriteUInt32BE(length, |data|, 0);
    assert length[..] == BigEndian(|data|);
    var crc := new Byte[4](_ => 0);
    var sum := ComputeCrc(kind + data);
    CrcFits(kind + data);
    WriteUInt32BE(crc, sum, 0);
    assert crc[..] == BigEndian(sum);
    r := Some(length[..] + kind + data + crc[..]);
  }

  const Signature: seq<Byte> := [0x89, 0x50, 0x4E, 0x47, 0x0D, 0x0A, 0x1A, 0x0A]

  function WrittenAll(chunks: seq<Chunk>): Option<seq<Byte>> {
    if chunks == [] then Some([])
    else if Written(chunks[0]).None? || WrittenAll(chunks[1..]).None? then None
    else Some(Written(chunks[0]).value + WrittenAll(chunks[1..]).value)
  }

  // ---------- Reading ----------

  datatype Read = Read(chunk: Chunk, rest: seq<Byte>)

  /** What a decoder takes from the front of a file, once the CRC agrees. */
  function ReadChunk(b: seq<Byte>): Option<Read> {
    if |b| < 12 then None
    else
      var n := FromBigEndian(b[..4]);
      if |b| < 12 + n then None
      else
        var c := Chunk(b[4..8], b[8..8 + n]);
        if FromBigEndian(b[8 + n..12 + n]) != Crc(c.kind + c.data) then None
        else Some(Read(c, b[12 + n..]))
  }

  function ReadChunks(b: seq<Byte>): Option<seq<Chunk>>
    decreases |b|
  {
    if b == [] then Some([])
    else
      match ReadChunk(b)
      case None => None
      case Some(Read(c, rest)) =>
        if |rest| >= |b| then None
        else
          match ReadChunks(rest)
          case None => None
          case Some(cs) => Some([c] + cs)
  }

  function ReadPng(b: seq<Byte>): Option<seq<Chunk>> {
    if |b| < 8 || b[..8] != [137, 80, 78, 71, 13, 10, 26, 10] then None else ReadChunks(b[8..])
  }

  /** Where the fields of a chunk with a four-byte type lie. */
  lemma {:induction false} Fields(length: seq<Byte>, kind: seq<Byte>, data: seq<Byte>, crc: seq<Byte>, rest: seq<Byte>)
    requires |length| == 4 && |kind| == 4 && |crc| == 4
    ensures var b, n := length + kind + data + crc + rest, |data|;
            |b| >= 12 + n && b[..4] == length && b[4..8] == kind && b[8..8 + n] == data
            && b[8 + n..12 + n] == crc && b[12 + n..] == rest
  {
  }

  /** A written chunk reads back exactly when its type is four bytes long; the writer does not
      check that. */
  lemma {:induction false} ChunkReadsBackIff(c: Chunk, rest: seq<Byte>)
    requires |c.data| < Limit
    ensures ReadChunk(Written(c).value + rest) == Some(Read(c, rest)) <==> |c.kind| == 4
  {
    if |c.kind| == 4 {
      var n, sum := |c.data|, Crc(c.kind + c.data);
      CrcFits(c.kind + c.data);
      Fields(BigEndian(n), c.kind, c.data, BigEndian(sum), rest);
      BigEndianReadsBack(n);
      BigEndianReadsBack(sum);
    }
  }

  lemma {:induction false} FirstReadsBack(c: Chunk, others: seq<Chunk>, all: seq<Chunk>, bytes: seq<Byte>,
                                          rest: seq<Byte>)
    requires |c.kind| == 4 && |c.data| < Limit && all == [c] + others
    requires Written(c).Some? && bytes == Written(c).value + rest && ReadChunks(rest) == Some(others)
    ensures ReadChunks(bytes) == Some(all)
  {
    ChunkReadsBackIff(c, rest);
  }

  lemma {:induction false} ChunksReadBack(chunks: seq<Chunk>)
    requires forall c :: c in chunks ==> |c.kind| == 4 && |c.data| < Limit
    ensures WrittenAll(chunks).Some? && ReadChunks(WrittenAll(chunks).value) == Some(chunks)
  {
    if chunks != [] {
      var others := chunks[1..];
      ChunksReadBack(others);
      Uncons(chunks);
      FirstReadsBack(chunks[0], others, chunks, WrittenAll(chunks).value, WrittenAll(others).value);
    }
  }

  /** A file of chunks reads back as the same types and data in the same order. */
  lemma {:induction false} FileReadsBack(chunks: seq<Chunk>)
    requires forall c :: c in chunks ==> |c.kind| == 4 && |c.data| < Limit
    ensures WrittenAll(chunks).Some? && ReadPng(Signature + WrittenAll(chunks).value) == Some(chunks)
  {
    ChunksReadBack(chunks);
    var file := Signature + WrittenAll(chunks).value;
    assert file[..8] == Signature && file[8..] == WrittenAll(chunks).value;
  }

  /** A chunk whose type and data were damaged within 32 consecutive bits is refused. */
  lemma {:induction false} DamageIsRefused(c: Chunk, damaged: Chunk, start: nat, rest: seq<Byte>)
    requires |c.data| < Limit && |c.kind| == |damaged.kind| == 4 && |c.data| == |damaged.data|
    requires c != damaged && Burst(Xor(Bits(c.kind + c.data), Bits(damaged.kind + damaged.data)), start)
    ensures Crc(c.kind + c.data) < Limit
    ensures ReadChunk(BigEndian(|c.data|) + damaged.kind + damaged.data + BigEndian(Crc(c.kind + c.data)) + rest)
            == None
  {
    var a, b := c.kind + c.data, damaged.kind + damaged.data;
    CrcFits(a);
    if a == b { SplitEqual(c.kind, damaged.kind, c.data, damaged.data); }
    BurstIsDetected(a, b, start);
    WrongCrcIsRefused(damaged, Crc(a), rest);
  }

  lemma {:induction false} WrongCrcIsRefused(c: Chunk, sum: nat, rest: seq<Byte>)
    requires |c.data| < Limit && |c.kind| == 4 && sum < Limit && sum != Crc(c.kind + c.data)
    ensures ReadChunk(BigEndian(|c.data|) + c.kind + c.data + BigEndian(sum) + rest) == None
  {
    Fields(BigEndian(|c.data|), c.kind, c.data, BigEndian(sum), rest);
    BigEndianReadsBack(|c.data|);
    BigEndianReadsBack(sum);
  }

  // ---------- The icon ----------

  const IHDR: seq<Byte> := [0x49, 0x48, 0x44, 0x52]
  const IDAT: seq<Byte> := [0x49, 0x44, 0x41, 0x54]
  const IEND: seq<Byte> := [0x49, 0x45, 0x4E, 0x44]

  /** Write a square icon of eight-bit RGBA pixels, already deflated: an IHDR, an IDAT and an IEND
      chunk, named by their ASCII codes. */
  method WriteIcon(size: nat, pixels: seq<Byte>) returns (png: Option<seq<Byte>>)
    ensures png.Some? <==> size < 0x1_0000_0000 && |pixels| < 0x1_0000_0000
    ensures png.Some? ==>
      ReadPng(png.value) == Some([Chunk([73, 72, 68, 82], BigEndian(size) + BigEndian(size) + [8, 6, 0, 0, 0]),
                                  Chunk([73, 68, 65, 84], pixels), Chunk([73, 69, 78, 68], [])])
  {
    if size >= Limit { return None; }
    var header := IconHeader(size);
    var first := PngChunk(IHDR, header);
    var second := PngChunk(IDAT, pixels);
    var third := PngChunk(IEND, []);
    if second.None? { return None; }
    png := Some(Signature + first.value + second.value + third.value);
    ThreeChunks(Chunk(IHDR, header), Chunk(IDAT, pixels), Chunk(IEND, []));
  }

  method IconHeader(size: nat) returns (bytes: seq<Byte>)
    requires size < Limit
    ensures bytes == BigEndian(size) + BigEndian(size) + [8, 6, 0, 0, 0]
  {
    var header := new Byte[13](_ => 0);
    WriteUInt32BE(header, size, 0);
    WriteUInt32BE(header, size, 4);
    assert header[..8] == BigEndian(size) + BigEndian(size);
    header[8], header[9], header[10], header[11], header[12] := 8, 6, 0, 0, 0;
    bytes := header[..];
  }

  lemma {:induction false} ThreeChunks(a: Chunk, b: Chunk, c: Chunk)
    requires |a.kind| == |b.kind| == |c.kind| == 4
    requires |a.data| < Limit && |b.data| < Limit && |c.data| < Limit
    ensures ReadPng(Signature + Written(a).value + Written(b).value + Written(c).value) == Some([a, b, c])
  {
    FileReadsBack([a, b, c]);
    var x, y, z := Written(a).value, Written(b).value, Written(c).value;
    WrittenThree(a, b, c, x, y, z);
    Regroup(Signature, x, y, z);
  }

  lemma {:induction false} Regroup(s: seq<Byte>, x: seq<Byte>, y: seq<Byte>, z: seq<Byte>)
    ensures s + x + y + z == s + (x + (y + z))
  {
  }

  lemma {:induction false} WrittenTwo(b: Chunk, c: Chunk, y: seq<Byte>, z: seq<Byte>)
    requires Written(b) == Some(y) && Written(c) == Some(z)
    ensures WrittenAll([b, c]) == Some(y + z)
  {
    WrittenFirst(b, [c], [b, c], y);
    WrittenFirst(c, [], [c], z);
    assert z + [] == z;
  }

  lemma {:induction false} WrittenThree(a: Chunk, b: Chunk, c: Chunk, x: seq<Byte>, y: seq<Byte>, z: seq<Byte>)
    requires Written(a) == Some(x) && Written(b) == Some(y) && Written(c) == Some(z)
    ensures WrittenAll([a, b, c]) == Some(x + (y + z))
  {
    WrittenFirst(a, [b, c], [a, b, c], x);
    WrittenTwo(b, c, y, z);
  }

  lemma {:induction false} WrittenFirst(c: Chunk, others: seq<Chunk>, all: seq<Chunk>, x: seq<Byte>)
    requires all == [c] + others && Written(c) == Some(x)
    ensures WrittenAll(all)
         == match WrittenAll(others)
            case None => None
            case Some(rest) => Some(x + rest)
  {
    assert all[1..] == others;
  }
}
