/**
 The request of a chunk task and what it takes for an answer (src/chunks.rs: `fetch_chunk`), against the gateway's own
 answers from its cache (src/main.rs: `cached_blob_response`): one gateway can be another one's mirror.
 */
module ChunkRequest {
  import opened Wrappers
  import opened Bytes
  import opened Strings
  import opened Chunking
  import ByteRange

  /** The range header of a chunk; the source never asks for an empty one. */
  function RangeHeader(chunk: Chunk): string
    requires 0 < chunk.length
  {
    "bytes=" + Decimal(chunk.offset) + "-" + Decimal(chunk.offset + chunk.length - 1)
  }

  /** Where an answer says it starts: the number between `bytes ` and the first dash, if there is one. */
  function ReportedStart(contentRange: string): Option<nat> {
    match StripPrefix(contentRange, "bytes ")
    case None => None
    case Some(rest) => ParseU64(Split(rest, '-')[0])
  }

  /** The body is read: a success other than 200, and no start that differs from the offset asked for. */
  predicate Accepts(offset: nat, status: nat, contentRange: Option<string>) {
    && status != 416 && status != 200
    && 200 <= status < 300
    && (contentRange.Some? && ReportedStart(contentRange.value).Some? ==>
          ReportedStart(contentRange.value).value == offset)
  }

  lemma NumberHasNoDash(n: nat)
    ensures '-' !in Decimal(n)
  {
  }

  /** A reader of a content range gets first position, last position and size from it. */
  lemma ContentRangeReads(first: nat, last: nat, size: nat)
    ensures var tail := Decimal(last) + "/" + Decimal(size);
            && StripPrefix(ByteRange.ContentRange(first, last, size), "bytes ") == Some(Decimal(first) + ['-'] + tail)
            && SplitOnce(Decimal(first) + ['-'] + tail, '-') == Some((Decimal(first), tail))
            && SplitOnce(tail, '/') == Some((Decimal(last), Decimal(size)))
  {
    NumberHasNoDash(first);
    var a, b, c := Decimal(first), Decimal(last), Decimal(size);
    ContentRangeParts(a, b, c);
    StripPrefixOf("bytes ", a + ['-'] + (b + "/" + c));
    SplitOnceAt(a, '-', b + "/" + c);
    SplitOnceAt(b, '/', c);
  }

  lemma ReportedFirst(first: nat, last: nat, size: nat)
    ensures ReportedStart(ByteRange.ContentRange(first, last, size)) == ParseU64(Decimal(first))
  {
    var a, tail := Decimal(first), Decimal(last) + "/" + Decimal(size);
    ContentRangeReads(first, last, size);
    NumberHasNoDash(first);
    SplitPrepend(a, '-', tail);
  }

  lemma ContentRangeParts(a: string, b: string, c: string)
    ensures "bytes " + a + "-" + b + "/" + c == "bytes " + (a + ['-'] + (b + "/" + c))
  {
  }

  /**
   A success other than 200 is read, with a content range exactly if that starts at the offset, or at a position past
   u64, which cannot be told; without one, always.
   */
  lemma AcceptsExactly(offset: nat, status: nat, first: nat, last: nat, size: nat)
    ensures Accepts(offset, status, Some(ByteRange.ContentRange(first, last, size))) <==>
      201 <= status <= 299 && (first == offset || first >= U64_LIMIT)
    ensures Accepts(offset, status, None) <==> 201 <= status <= 299
  {
    ReportedFirst(first, last, size);
    ParseDecimal(first);
  }

  /**
   A gateway with the blob in its cache is an honest mirror for every layout: each chunk's request is answered in a way
   the chunk task reads, with exactly the chunk's bytes, so the length check after it holds.
   */
  lemma GatewayIsMirror(blob: Data, chunks: seq<Chunk>, chunkBytes: nat, i: nat)
    requires Tiles(chunks, |blob|, chunkBytes) && i < |chunks| && |blob| <= U64_LIMIT
    ensures 0 < chunks[i].length && chunks[i].offset + chunks[i].length <= |blob|
    ensures var r := ByteRange.Served(blob, |blob|, Some(RangeHeader(chunks[i])), false);
            && Accepts(chunks[i].offset, r.status, r.contentRange)
            && r.body == blob[chunks[i].offset..chunks[i].offset + chunks[i].length]
            && |r.body| == r.contentLength == chunks[i].length
            && !r.failed
  {
    ChunkArithmetic(chunks, |blob|, chunkBytes, i);
    StretchAnswered(blob, chunks[i]);
  }

  /** What a chunk task sends is the range of the chunk. */
  lemma HeaderIsRange(chunk: Chunk)
    requires 0 < chunk.length
    ensures RangeHeader(chunk) == ByteRange.PrintSpec(ByteRange.Closed(chunk.offset, chunk.offset + chunk.length - 1))
  {
  }

  lemma StretchAnswered(blob: Data, chunk: Chunk)
    requires 0 < chunk.length && chunk.offset + chunk.length <= |blob| <= U64_LIMIT
    ensures var r := ByteRange.Served(blob, |blob|, Some(RangeHeader(chunk)), false);
            && Accepts(chunk.offset, r.status, r.contentRange)
            && r.body == blob[chunk.offset..chunk.offset + chunk.length]
            && |r.body| == r.contentLength == chunk.length
            && !r.failed
  {
    var from, to := chunk.offset, chunk.offset + chunk.length;
    HeaderIsRange(chunk);
    ByteRange.StretchServed(blob, from, to);
    AcceptsExactly(from, 206, from, to - 1, |blob|);
  }
}
