/**
 Cutting a blob into chunks, and the bitmap sidecar that records which chunks are on disk
 (src/chunks.rs: `split_with`, `load_bitmap`, `save_bitmap`).
 */
module Chunking {
  import opened Wrappers
  import opened Bytes

  datatype Chunk = Chunk(index: nat, offset: nat, length: nat)

  /** Number of chunks of `size` bytes that cover `total` bytes. */
  function Count(total: nat, size: nat): nat
    requires 0 < size
  {
    (total + size - 1) / size
  }

  /** The chunk that holds position `p`. */
  function IndexAt(p: nat, size: nat): nat
    requires 0 < size
  {
    p / size
  }

  /** End offset of chunk `i`, the last one short. */
  function ChunkEnd(total: nat, size: nat, i: nat): nat {
    Min((i + 1) * size, total)
  }

  /**
   What the collector relies on: chunks are numbered in order, none is empty, each starts where
   its predecessor ends, they reach from 0 to `total`, and only the last is shorter than `size`.
   */
  ghost predicate Tiles(chunks: seq<Chunk>, total: nat, size: nat) {
    && 0 < size
    && |chunks| == Count(total, size)
    && (total == 0 <==> chunks == [])
    && (chunks != [] ==> chunks[0].offset == 0 && chunks[|chunks| - 1].offset + chunks[|chunks| - 1].length == total)
    && (forall i :: 0 <= i < |chunks| ==>
          && chunks[i].index == i
          && 0 < chunks[i].length <= size
          && chunks[i].offset + chunks[i].length <= total)
    && (forall i :: 0 <= i < |chunks| - 1 ==> chunks[i].length == size)
    && (forall i, j :: 0 <= i < j < |chunks| ==> chunks[i].offset + chunks[i].length <= chunks[j].offset)
    && (forall i, j :: 0 <= i && j == i + 1 < |chunks| ==> chunks[i].offset + chunks[i].length == chunks[j].offset)
  }

  lemma MulMonotone(i: nat, j: nat, size: nat)
    requires i < j
    ensures i * size + size == (i + 1) * size <= j * size
  {
    assert j * size == (i + 1) * size + (j - i - 1) * size;
  }

  lemma CountBounds(total: nat, size: nat)
    requires 0 < size
    ensures total <= Count(total, size) * size < total + size
  {
    var n := (total + size - 1) / size;
    assert total + size - 1 == n * size + (total + size - 1) % size;
  }

  /** `split_with`: a zero chunk size is raised to one byte. */
  method SplitWith(total: nat, chunkBytes: nat) returns (chunks: seq<Chunk>)
    ensures Tiles(chunks, total, Max(chunkBytes, 1))
  {
    chunks := [];
    var size := Max(chunkBytes, 1);
    CountBounds(total, size);
    if total == 0 {
      return;
    }
    var offset, index := 0, 0;
    while offset < total
      invariant 0 <= offset <= total && index == |chunks|
      invariant offset == Min(index * size, total)
      invariant offset == total ==> 0 < index
      invariant forall i :: 0 <= i < |chunks| ==> ChunkAt(chunks[i], i, total, size)
    {
      var length := Min(total - offset, size);
      MulMonotone(index, index + 1, size);
      chunks := chunks + [Chunk(index, offset, length)];
      offset := offset + length;
      index := index + 1;
    }
    assert ChunkAt(chunks[index - 1], index - 1, total, size);
    CountIs(total, size, index);
    TilesFromChunkAt(chunks, total, size);
  }

  lemma CountIs(total: nat, size: nat, n: nat)
    requires 0 < size && 0 < n && (n - 1) * size < total <= n * size
    ensures Count(total, size) == n
  {
    CountBounds(total, size);
    if Count(total, size) < n {
      MulAtLeast(Count(total, size), n - 1, size);
    } else if n < Count(total, size) {
      MulMonotone(n, Count(total, size), size);
    }
  }

  lemma MulAtLeast(a: nat, b: nat, size: nat)
    requires a <= b
    ensures a * size <= b * size
  {
  }

  ghost predicate ChunkAt(chunk: Chunk, i: nat, total: nat, size: nat) {
    && i * size < total
    && chunk.index == i
    && chunk.offset == i * size
    && chunk.offset + chunk.length == ChunkEnd(total, size, i)
  }

  lemma TilesFromChunkAt(chunks: seq<Chunk>, total: nat, size: nat)
    requires 0 < size && 0 < total && |chunks| == Count(total, size)
    requires forall i :: 0 <= i < |chunks| ==> ChunkAt(chunks[i], i, total, size)
    ensures Tiles(chunks, total, size)
  {
    CountBounds(total, size);
    var n := |chunks|;
    assert n != 0;
    forall i | 0 <= i < n
      ensures chunks[i].index == i && 0 < chunks[i].length <= size
      ensures chunks[i].offset + chunks[i].length <= total
      ensures i < n - 1 ==> chunks[i].length == size
    {
      assert ChunkAt(chunks[i], i, total, size);
      MulMonotone(i, i + 1, size);
      if i < n - 1 {
        assert ChunkAt(chunks[i + 1], i + 1, total, size);
      }
    }
    forall i, j | 0 <= i < j < n
      ensures chunks[i].offset + chunks[i].length <= chunks[j].offset
    {
      assert ChunkAt(chunks[i], i, total, size) && ChunkAt(chunks[j], j, total, size);
      MulMonotone(i, j, size);
    }
    assert ChunkAt(chunks[n - 1], n - 1, total, size);
  }

  function NthChunk(total: nat, size: nat, i: nat): Chunk {
    Chunk(i, i * size, Max(ChunkEnd(total, size, i) - i * size, 0))
  }

  lemma NthChunkAt(total: nat, size: nat, i: nat)
    requires 0 < size && i < Count(total, size)
    ensures ChunkAt(NthChunk(total, size, i), i, total, size)
  {
    CountBounds(total, size);
    MulAtLeast(i + 1, Count(total, size), size);
    MulMonotone(i, i + 1, size);
  }

  /** There is a layout for every total and chunk size. */
  lemma Layout(total: nat, size: nat) returns (chunks: seq<Chunk>)
    requires 0 < size
    ensures Tiles(chunks, total, size)
  {
    chunks := seq(Count(total, size), i requires 0 <= i => NthChunk(total, size, i));
    if total == 0 {
      ZeroCount(size);
    } else {
      forall i | 0 <= i < |chunks|
        ensures ChunkAt(chunks[i], i, total, size)
      {
        NthChunkAt(total, size, i);
      }
      TilesFromChunkAt(chunks, total, size);
    }
  }

  lemma ZeroCount(size: nat)
    requires 0 < size
    ensures Count(0, size) == 0
  {
    DivWithin(0, size - 1, size);
  }

  /** Two chunks do not overlap. */
  lemma TilesApart(chunks: seq<Chunk>, total: nat, size: nat, i: nat, j: nat)
    requires Tiles(chunks, total, size) && i < |chunks| && j < |chunks| && i != j
    ensures chunks[i].offset + chunks[i].length <= chunks[j].offset
         || chunks[j].offset + chunks[j].length <= chunks[i].offset
  {
    if i < j {
      assert chunks[i].offset + chunks[i].length <= chunks[j].offset;
    } else {
      assert chunks[j].offset + chunks[j].length <= chunks[i].offset;
    }
  }

  /** The layout is determined by the total and the chunk size. */
  lemma TilesUnique(a: seq<Chunk>, b: seq<Chunk>, total: nat, size: nat)
    requires Tiles(a, total, size) && Tiles(b, total, size)
    ensures a == b
  {
    forall i | 0 <= i < |a|
      ensures a[i] == b[i]
    {
      ChunkArithmetic(a, total, size, i);
      ChunkArithmetic(b, total, size, i);
      OffsetIs(a, total, size, i);
      OffsetIs(b, total, size, i);
    }
  }

  /** Chunk `p / size` is the one and only chunk that holds position `p`. */
  lemma {:induction false} TilesCover(chunks: seq<Chunk>, total: nat, size: nat, p: nat)
    requires Tiles(chunks, total, size) && p < total
    ensures IndexAt(p, size) < |chunks|
    ensures forall i :: 0 <= i < |chunks| ==>
      (chunks[i].offset <= p < chunks[i].offset + chunks[i].length <==> i == IndexAt(p, size))
  {
    var k := 0;
    while chunks[k].offset + chunks[k].length <= p
      invariant 0 <= k < |chunks| && chunks[k].offset <= p
      decreases |chunks| - k
    {
      k := k + 1;
    }
    var r := p - chunks[k].offset;
    assert chunks[k].offset == k * size by { OffsetIs(chunks, total, size, k); }
    DivWithin(k, r, size);
  }

  lemma DivWithin(k: nat, r: nat, size: nat)
    requires r < size
    ensures (k * size + r) / size == k
  {
    var n := k * size + r;
    var q := n / size;
    assert n == q * size + n % size;
    if q < k {
      MulMonotone(q, k, size);
    } else if k < q {
      MulMonotone(k, q, size);
    }
  }

  lemma {:induction false} OffsetIs(chunks: seq<Chunk>, total: nat, size: nat, i: nat)
    requires Tiles(chunks, total, size) && i < |chunks|
    ensures chunks[i].offset == i * size
  {
    if i > 0 {
      OffsetIs(chunks, total, size, i - 1);
      assert chunks[i - 1].offset + chunks[i - 1].length == chunks[i].offset;
      MulMonotone(i - 1, i, size);
    }
  }

  /** Dividing a chunk's offset by the chunk size gives its index; its end is the one in the sidecar test. */
  lemma ChunkArithmetic(chunks: seq<Chunk>, total: nat, size: nat, i: nat)
    requires Tiles(chunks, total, size) && i < |chunks|
    ensures IndexAt(chunks[i].offset, size) == i
    ensures chunks[i].offset + chunks[i].length == ChunkEnd(total, size, i)
  {
    OffsetIs(chunks, total, size, i);
    DivWithin(i, 0, size);
    MulMonotone(i, i + 1, size);
  }

  /** The chunks of a blob, put back together in index order, are the blob. */
  lemma TilesReassemble(chunks: seq<Chunk>, blob: Data, size: nat)
    requires Tiles(chunks, |blob|, size)
    ensures Concat(Pieces(chunks, blob)) == blob
  {
    if chunks != [] {
      PrefixReassembles(chunks, blob, |chunks|);
    }
    assert blob[..|blob|] == blob;
    assert chunks[..|chunks|] == chunks;
  }

  ghost predicate Contiguous(chunks: seq<Chunk>, total: nat) {
    && (chunks != [] ==> chunks[0].offset == 0)
    && (forall i :: 0 <= i < |chunks| ==> chunks[i].offset + chunks[i].length <= total)
    && (forall i, j :: 0 <= i && j == i + 1 < |chunks| ==> chunks[i].offset + chunks[i].length == chunks[j].offset)
  }

  lemma {:induction false} PrefixReassembles(chunks: seq<Chunk>, blob: Data, n: nat)
    requires Contiguous(chunks, |blob|) && 0 < n <= |chunks|
    ensures Concat(Pieces(chunks[..n], blob)) == blob[..chunks[n - 1].offset + chunks[n - 1].length]
  {
    var last := chunks[n - 1];
    var piece := blob[last.offset..last.offset + last.length];
    assert Pieces(chunks[..n], blob) == Pieces(chunks[..n - 1], blob) + [piece];
    ConcatPush(Pieces(chunks[..n - 1], blob), piece);
    if n > 1 {
      PrefixReassembles(chunks, blob, n - 1);
      assert chunks[n - 2].offset + chunks[n - 2].length == last.offset;
    }
    assert blob[..last.offset] + piece == blob[..last.offset + last.length];
  }

  ghost function Pieces(chunks: seq<Chunk>, blob: Data): seq<Data>
    requires forall i :: 0 <= i < |chunks| ==> chunks[i].offset + chunks[i].length <= |blob|
  {
    seq(|chunks|, i requires 0 <= i < |chunks| => blob[chunks[i].offset..chunks[i].offset + chunks[i].length])
  }

  // ---------- the bitmap sidecar ----------

  /** A usable sidecar: the chunk size it was written with, and one completion flag per chunk. */
  datatype Bitmap = Bitmap(chunkBytes: nat, done: seq<bool>)

  /** `u64::to_le_bytes`, cut to `width` bytes. */
  function LittleEndian(n: nat, width: nat): Data {
    if width == 0 then [] else [n % 256] + LittleEndian(n / 256, width - 1)
  }

  /** `u64::from_le_bytes`. */
  function FromLittleEndian(bytes: Data): nat {
    if bytes == [] then 0 else bytes[0] + 256 * FromLittleEndian(bytes[1..])
  }

  function Pow256(width: nat): (r: nat)
    ensures r > 0
  {
    if width == 0 then 1 else 256 * Pow256(width - 1)
  }

  lemma {:induction false} LittleEndianRoundTrip(n: nat, width: nat)
    requires n < Pow256(width)
    ensures |LittleEndian(n, width)| == width
    ensures FromLittleEndian(LittleEndian(n, width)) == n
  {
    if width > 0 {
      LittleEndianRoundTrip(n / 256, width - 1);
      assert LittleEndian(n, width)[1..] == LittleEndian(n / 256, width - 1);
    }
  }

  lemma {:induction false} FromLittleEndianBound(bytes: Data)
    ensures FromLittleEndian(bytes) < Pow256(|bytes|)
  {
    if bytes != [] {
      FromLittleEndianBound(bytes[1..]);
    }
  }

  lemma Pow256Of8()
    ensures Pow256(8) == U64_LIMIT
  {
    assert Pow256(4) == 0x1_0000_0000;
    assert Pow256(6) == 0x1_0000_0000_0000;
  }

  function FlagByte(flag: bool): Byte { if flag then 1 else 0 }

  /** The bytes `save_bitmap` writes. */
  function SidecarBytes(chunkBytes: nat, done: seq<bool>): Data {
    LittleEndian(chunkBytes, 8) + seq(|done|, i requires 0 <= i < |done| => FlagByte(done[i]))
  }

  /** Chunk end as the gateway computes it: `u64` multiplication, which wraps in a release build. */
  function WrappingEnd(total: nat, size: nat, i: nat): nat {
    Min((i + 1) * size % U64_LIMIT, total)
  }

  /** Header and flags of a sidecar, before its claims are compared with the part file. */
  function Decode(bytes: Data): (decoded: Option<Bitmap>)
    ensures decoded.Some? ==> 0 < decoded.value.chunkBytes
  {
    if |bytes| < 8 then None
    else
      var size := FromLittleEndian(bytes[..8]);
      if size == 0 then None
      else Some(Bitmap(size, seq(|bytes| - 8, i requires 0 <= i < |bytes| - 8 => bytes[8 + i] == 1)))
  }

  /** No done flag claims bytes past the end of the part file. */
  ghost predicate Covered(bitmap: Bitmap, partLen: nat, total: nat) {
    forall i :: 0 <= i < |bitmap.done| && bitmap.done[i] ==> WrappingEnd(total, bitmap.chunkBytes, i) <= partLen
  }

  /** What a sidecar is worth to a new attempt. */
  ghost function Accepted(bytes: Data, partLen: nat, total: nat): Option<Bitmap> {
    match Decode(bytes)
    case None => None
    case Some(bitmap) => if Covered(bitmap, partLen, total) then Some(bitmap) else None
  }

  /** `load_bitmap` on the sidecar's bytes. */
  method LoadBitmap(bytes: Data, partLen: nat, total: nat) returns (existing: Option<Bitmap>)
    ensures existing == Accepted(bytes, partLen, total)
  {
    if |bytes| < 8 {
      return None;
    }
    var chunkBytes := FromLittleEndian(bytes[..8]);
    if chunkBytes == 0 {
      return None;
    }
    var done := seq(|bytes| - 8, i requires 0 <= i < |bytes| - 8 => bytes[8 + i] == 1);
    var index := 0;
    while index < |done|
      invariant 0 <= index <= |done|
      invariant forall i :: 0 <= i < index && done[i] ==> WrappingEnd(total, chunkBytes, i) <= partLen
    {
      if done[index] {
        var end := Min((index + 1) * chunkBytes % U64_LIMIT, total);
        if end > partLen {
          assert !Covered(Bitmap(chunkBytes, done), partLen, total);
          return None;
        }
      }
      index := index + 1;
    }
    return Some(Bitmap(chunkBytes, done));
  }

  lemma DecodeSidecar(chunkBytes: nat, done: seq<bool>)
    requires 0 < chunkBytes < U64_LIMIT
    ensures Decode(SidecarBytes(chunkBytes, done)) == Some(Bitmap(chunkBytes, done))
  {
    Pow256Of8();
    LittleEndianRoundTrip(chunkBytes, 8);
    var bytes := SidecarBytes(chunkBytes, done);
    assert bytes[..8] == LittleEndian(chunkBytes, 8);
    var flags := seq(|bytes| - 8, i requires 0 <= i < |bytes| - 8 => bytes[8 + i] == 1);
    assert flags == done;
  }

  /** Byte `k` of a number, lowest first. */
  lemma {:induction false} LittleEndianAt(n: nat, width: nat, k: nat)
    requires k < width
    ensures |LittleEndian(n, width)| == width && LittleEndian(n, width)[k] == n / Pow256(k) % 256
    decreases width
  {
    if k > 0 {
      LittleEndianAt(n / 256, width - 1, k - 1);
      DivTwice(n, k - 1);
    } else if width > 1 {
      LittleEndianAt(n / 256, width - 1, 0);
    }
  }

  lemma DivTwice(n: nat, k: nat)
    ensures n / 256 / Pow256(k) == n / Pow256(k + 1)
  {
    var p := Pow256(k);
    var q, r := n / 256 / p, n / 256 % p;
    assert n == 256 * (n / 256) + n % 256 && n / 256 == q * p + r;
    assert n == q * (256 * p) + (256 * r + n % 256);
    assert 256 * r + n % 256 < 256 * p;
    DivWithin(q, 256 * r + n % 256, 256 * p);
  }

  /** The file on disk: eight bytes of chunk size, lowest first, then one byte a chunk, 1 for done and 0 otherwise. */
  lemma SidecarLayout(chunkBytes: nat, done: seq<bool>)
    ensures |SidecarBytes(chunkBytes, done)| == 8 + |done|
    ensures forall k :: 0 <= k < 8 ==> SidecarBytes(chunkBytes, done)[k] == chunkBytes / Pow256(k) % 256
    ensures forall i :: 0 <= i < |done| ==> SidecarBytes(chunkBytes, done)[8 + i] == if done[i] then 1 else 0
  {
    forall k | 0 <= k < 8
      ensures |LittleEndian(chunkBytes, 8)| == 8
      ensures LittleEndian(chunkBytes, 8)[k] == chunkBytes / Pow256(k) % 256
    {
      LittleEndianAt(chunkBytes, 8, k);
    }
    LittleEndianAt(chunkBytes, 8, 0);
  }

  /** Any other flag byte than 1 is read as not done; a short file and a zero chunk size are no sidecar. */
  lemma DecodeExactly(bytes: Data)
    ensures Decode(bytes).None? <==> |bytes| < 8 || FromLittleEndian(bytes[..8]) == 0
    ensures Decode(bytes).Some? ==>
      var bitmap := Decode(bytes).value;
      && bitmap.chunkBytes == FromLittleEndian(bytes[..8]) && |bitmap.done| == |bytes| - 8
      && forall i :: 0 <= i < |bitmap.done| ==> (bitmap.done[i] <==> bytes[8 + i] == 1)
  {
  }

  /** Loading undoes saving exactly when the part file reaches the end of every done chunk. */
  lemma BitmapRoundTrip(chunkBytes: nat, done: seq<bool>, partLen: nat, total: nat)
    requires 0 < chunkBytes < U64_LIMIT
    requires |done| * chunkBytes < U64_LIMIT
    ensures var loaded := Accepted(SidecarBytes(chunkBytes, done), partLen, total);
            if forall i :: 0 <= i < |done| && done[i] ==> ChunkEnd(total, chunkBytes, i) <= partLen
            then loaded == Some(Bitmap(chunkBytes, done))
            else loaded == None
  {
    DecodeSidecar(chunkBytes, done);
    forall i | 0 <= i < |done|
      ensures WrappingEnd(total, chunkBytes, i) == ChunkEnd(total, chunkBytes, i)
    {
      MulAtLeast(i + 1, |done|, chunkBytes);
    }
  }

  /** A save cut short after `k` bytes leaves no sidecar, or one with fewer flags than chunks. */
  lemma TruncatedSidecar(chunkBytes: nat, done: seq<bool>, k: nat)
    requires 0 < chunkBytes < U64_LIMIT
    requires k <= |SidecarBytes(chunkBytes, done)|
    ensures |SidecarBytes(chunkBytes, done)| == 8 + |done|
    ensures Decode(SidecarBytes(chunkBytes, done)[..k])
         == if k < 8 then None else Some(Bitmap(chunkBytes, done[..k - 8]))
  {
    DecodeSidecar(chunkBytes, done);
    Pow256Of8();
    LittleEndianRoundTrip(chunkBytes, 8);
    if k >= 8 {
      var bytes := SidecarBytes(chunkBytes, done);
      assert bytes[..k][..8] == bytes[..8] == LittleEndian(chunkBytes, 8);
      assert bytes[..k] == SidecarBytes(chunkBytes, done[..k - 8]);
      DecodeSidecar(chunkBytes, done[..k - 8]);
    }
  }

  /**
   The wrap in the coverage test cannot matter for a sidecar an attempt uses: whatever the header
   says, if the flag count matches the layout and the blob is at most 2^63 bytes, no chunk end
   overflows, so an accepted sidecar has every done chunk inside the part file.
   */
  lemma AcceptedIsCovered(bytes: Data, partLen: nat, total: nat, i: nat)
    requires total <= U64_LIMIT / 2
    requires Accepted(bytes, partLen, total).Some?
    requires var bitmap := Accepted(bytes, partLen, total).value;
             |bitmap.done| == Count(total, bitmap.chunkBytes) && i < |bitmap.done| && bitmap.done[i]
    ensures ChunkEnd(total, Accepted(bytes, partLen, total).value.chunkBytes, i) <= partLen
  {
    var bitmap := Accepted(bytes, partLen, total).value;
    NoWrap(bytes, total, i);
    assert WrappingEnd(total, bitmap.chunkBytes, i) <= partLen;
  }

  /** For blobs of this size, every used flag of every accepted sidecar marks a chunk inside the part file. */
  ghost predicate CoverageHolds(total: nat) {
    forall bytes: Data, partLen: nat, i: nat :: UsedFlag(bytes, partLen, total, i) ==>
      ChunkEnd(total, Decode(bytes).value.chunkBytes, i) <= partLen
  }

  ghost predicate UsedFlag(bytes: Data, partLen: nat, total: nat, i: nat) {
    && Accepted(bytes, partLen, total).Some?
    && var bitmap := Decode(bytes).value;
       |bitmap.done| == Count(total, bitmap.chunkBytes) && i < |bitmap.done| && bitmap.done[i]
  }

  /** The bound is tight: past 2^63 bytes, a header of 2^63 wraps, and an empty part file passes for complete. */
  lemma CoverageExactly(total: nat)
    requires total < U64_LIMIT
    ensures CoverageHolds(total) <==> total <= U64_LIMIT / 2
  {
    if total <= U64_LIMIT / 2 {
      forall bytes: Data, partLen: nat, i: nat | UsedFlag(bytes, partLen, total, i)
        ensures ChunkEnd(total, Decode(bytes).value.chunkBytes, i) <= partLen
      {
        AcceptedIsCovered(bytes, partLen, total, i);
      }
    } else {
      var half, done := U64_LIMIT / 2, [false, true];
      var bytes := SidecarBytes(half, done);
      DecodeSidecar(half, done);
      CountIs(total, half, 2);
      assert WrappingEnd(total, half, 1) == 0 && ChunkEnd(total, half, 1) == total;
      assert UsedFlag(bytes, 0, total, 1);
    }
  }

  lemma NoWrap(bytes: Data, total: nat, i: nat)
    requires total <= U64_LIMIT / 2
    requires Decode(bytes).Some? && i < Count(total, Decode(bytes).value.chunkBytes)
    ensures WrappingEnd(total, Decode(bytes).value.chunkBytes, i) == ChunkEnd(total, Decode(bytes).value.chunkBytes, i)
  {
    HeaderBound(bytes);
    NoWrapWithin(Decode(bytes).value.chunkBytes, total, i);
  }

  lemma HeaderBound(bytes: Data)
    requires Decode(bytes).Some?
    ensures Decode(bytes).value.chunkBytes < U64_LIMIT
  {
    FromLittleEndianBound(bytes[..8]);
    Pow256Of8();
  }

  lemma NoWrapWithin(size: nat, total: nat, i: nat)
    requires total <= U64_LIMIT / 2 && 0 < size < U64_LIMIT && i < Count(total, size)
    ensures WrappingEnd(total, size, i) == ChunkEnd(total, size, i)
  {
    ProductBound(size, total, i);
    SmallMod((i + 1) * size);
  }

  lemma SmallMod(n: nat)
    requires n < U64_LIMIT
    ensures n % U64_LIMIT == n
  {
  }

  lemma ProductBound(size: nat, total: nat, i: nat)
    requires total <= U64_LIMIT / 2 && 0 < size < U64_LIMIT && i < Count(total, size)
    ensures (i + 1) * size < U64_LIMIT
  {
    if total <= size {
      SmallCount(total, size);
      assert i == 0;
    } else {
      CountBounds(total, size);
      MulAtLeast(i + 1, Count(total, size), size);
    }
  }

  lemma SmallCount(total: nat, size: nat)
    requires 0 < size && total <= size
    ensures Count(total, size) <= 1
  {
    if total > 0 {
      DivWithin(1, total - 1, size);
    }
  }
}
