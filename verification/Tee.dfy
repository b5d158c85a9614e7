/**
 The single-source path: stream the upstream body to the client and into the cache
 (src/main.rs: `tee_blob_to_cache`).
 */
module Tee {
  import opened Wrappers
  import opened Bytes

  /** One item of the upstream body; `written` tells whether appending it to the part file succeeds. */
  datatype Item = Piece(bytes: Data, written: bool) | Broken

  /** The pieces before the first one that fails to arrive or to be written. */
  function Landed(items: seq<Item>): seq<Data> {
    if items == [] || !items[0].Piece? || !items[0].written then [] else [items[0].bytes] + Landed(items[1..])
  }

  /** The whole body arrived and was written. */
  predicate Intact(items: seq<Item>) {
    forall i :: 0 <= i < |items| ==> items[i].Piece? && items[i].written
  }

  lemma {:induction false} LandedPush(items: seq<Item>, n: nat)
    requires n < |items| && Intact(items[..n])
    ensures |Landed(items[..n])| == n
    ensures items[n].Piece? && items[n].written ==> Landed(items[..n + 1]) == Landed(items[..n]) + [items[n].bytes]
    ensures !(items[n].Piece? && items[n].written) ==> Landed(items) == Landed(items[..n])
  {
    if n > 0 {
      assert items[..n][0] == items[0];
      assert items[..n][1..] == items[1..][..n - 1];
      assert items[..n + 1][1..] == items[1..][..n];
      LandedPush(items[1..], n - 1);
    } else {
      assert items[..1][1..] == [];
    }
  }

  /** The client got the pieces up to the first it refused. */
  predicate Heard(pieces: seq<Data>, accepts: seq<bool>, received: seq<Data>, gone: bool)
    requires |pieces| <= |accepts|
  {
    && received <= pieces
    && (forall i :: 0 <= i < |received| ==> accepts[i])
    && (gone <==> |received| < |pieces|)
    && (gone ==> !accepts[|received|])
  }

  /** As `Heard`, for a client that is sent every item, also the broken one. */
  ghost predicate HeardAll(items: seq<Item>, accepts: seq<bool>, received: seq<Data>, heard: nat)
    requires |accepts| == |items|
  {
    && heard <= |items|
    && received == Arrived(items[..heard])
    && (forall i :: 0 <= i < heard ==> accepts[i])
    && (heard < |items| ==> !accepts[heard])
  }

  /** What becomes of the digest's files; nothing in it refers to the client. */
  datatype Files = Files(final: Option<Data>, part: Option<Data>, counted: nat)

  /**
   How the disk behaves: each call may fail, and `left` is what a failing disk holds of the part file
   when its removal fails too.
   */
  datatype FileSystem = FileSystem(created: bool, flushed: bool, renamed: bool, removed: bool, left: Data)

  /** The first item that did not land arrived, but could not be written. */
  predicate WriteFails(items: seq<Item>) {
    items != [] && items[0].Piece? && (!items[0].written || WriteFails(items[1..]))
  }

  function CacheOutcome(items: seq<Item>, fs: FileSystem, oldPart: Option<Data>, hash: Data -> string,
                        hex: string): Files
  {
    var body := Concat(Landed(items));
    if !fs.created then Files(None, oldPart, 0)
    else if WriteFails(items) || (Intact(items) && !fs.flushed)
    then Files(None, if fs.removed then None else Some(fs.left), 0)
    else if !Intact(items) || hash(body) != hex then Files(None, if fs.removed then None else Some(body), 0)
    else if fs.renamed then Files(Some(body), None, |body|)
    else Files(None, Some(body), 0)
  }

  /** `Landed` stops at the first item that is not a written piece. */
  lemma {:induction false} LandedExactly(items: seq<Item>)
    ensures var n := |Landed(items)|;
            && n <= |items|
            && (forall i :: 0 <= i < n ==> items[i] == Piece(Landed(items)[i], true))
            && (n < |items| ==> !(items[n].Piece? && items[n].written))
            && (WriteFails(items) <==> n < |items| && items[n].Piece?)
  {
    if items != [] && items[0].Piece? && items[0].written {
      LandedExactly(items[1..]);
      assert forall i :: 1 <= i < |items| ==> items[i] == items[1..][i - 1];
    }
  }

  lemma {:induction false} IntactIsAll(items: seq<Item>)
    requires Intact(items)
    ensures Landed(items) == Arrived(items) == seq(|items|, i requires 0 <= i < |items| => items[i].bytes)
  {
    if items != [] {
      IntactIsAll(items[1..]);
    }
  }

  /**
   The files, from the inputs alone: `pieces` are the bytes of the items that arrived, `n` the items written before the
   first that was not. The blob is there exactly when nothing failed and the digest is right. The part file is gone
   after a commit and after a failure whose removal succeeded, and stays after a rename that failed.
   */
  lemma OutcomeExactly(items: seq<Item>, fs: FileSystem, oldPart: Option<Data>, hash: Data -> string, hex: string,
                       pieces: seq<Data>, n: nat)
    requires |pieces| == |items| && forall i :: 0 <= i < |items| && items[i].Piece? ==> pieces[i] == items[i].bytes
    requires n <= |items| && forall i :: 0 <= i < n ==> items[i].Piece? && items[i].written
    requires n < |items| ==> !(items[n].Piece? && items[n].written)
    ensures var files := CacheOutcome(items, fs, oldPart, hash, hex);
            var right := n == |items| && fs.flushed && hash(Concat(pieces)) == hex;
            var unwritten := if n < |items| then items[n].Piece? else !fs.flushed;
            && (files.final.Some? <==> fs.created && right && fs.renamed)
            && (files.final.Some? ==> files == Files(Some(Concat(pieces)), None, |Concat(pieces)|))
            && (files.final.None? ==> files.counted == 0)
            && (!fs.created ==> files.part == oldPart)
            && (fs.created ==> (files.part.None? <==> if right then fs.renamed else fs.removed))
            && (fs.created && files.part.Some? ==>
                  files.part.value == if unwritten then fs.left else Concat(pieces[..n]))
  {
    LandedExactly(items);
    var k := |Landed(items)|;
    assert n == k;
    assert Landed(items) == pieces[..n];
    assert n == |items| ==> pieces[..n] == pieces;
  }

  lemma FinalExactly(items: seq<Item>, fs: FileSystem, oldPart: Option<Data>, hash: Data -> string, hex: string)
    ensures var files, body := CacheOutcome(items, fs, oldPart, hash, hex), Concat(Arrived(items));
            && (files.final.Some? <==> fs.created && Intact(items) && fs.flushed && hash(body) == hex && fs.renamed)
            && (files.final.Some? ==> files == Files(Some(body), None, |body|))
  {
    LandedExactly(items);
    if Intact(items) {
      IntactIsAll(items);
    }
  }

  /**
   `accepts[i]`: whether the client takes the i-th message. The blob is committed, as the whole body, exactly when all
   went well up to the rename, whatever the client did. A client gets the pieces up to the first it does not take, all
   of them if it takes each, and one that stayed is told when the blob was not committed.
   */
  method TeeBlobToCache(items: seq<Item>, accepts: seq<bool>, fs: FileSystem, oldPart: Option<Data>,
                        hash: Data -> string, hex: string)
    returns (files: Files, received: seq<Data>, gone: bool, warned: bool)
    requires |accepts| == |items|
    ensures files == CacheOutcome(items, fs, oldPart, hash, hex)
    ensures files.final.Some? <==>
      fs.created && Intact(items) && fs.flushed && hash(Concat(Arrived(items))) == hex && fs.renamed
    ensures files.final.Some? ==> files == Files(Some(Concat(Arrived(items))), None, |Concat(Arrived(items))|)
    ensures |Landed(items)| <= |items| && (fs.created ==> Heard(Landed(items), accepts, received, gone))
    ensures !fs.created ==>
      exists heard: nat :: HeardAll(items, accepts, received, heard) && (gone <==> heard < |items|)
    ensures warned <==> fs.created && !gone && files.final == None
  {
    received, gone, warned := [], false, false;
    LandedExactly(items);
    FinalExactly(items, fs, oldPart, hash, hex);
    if !fs.created {
      var heard;
      received, heard := StreamToChannel(items, accepts);
      return Files(None, oldPart, 0), received, heard < |items|, false;
    }
    var n, part, hashed, total;
    n, part, hashed, total, received, gone := WriteAndSend(items, accepts);
    var dropped := if fs.removed then None else Some(part);
    if n < |items| {
      if items[n].Piece? {
        dropped := if fs.removed then None else Some(fs.left);
      }
      return Files(None, dropped, 0), received, gone, !gone;
    }
    if !fs.flushed {
      return Files(None, if fs.removed then None else Some(fs.left), 0), received, gone, !gone;
    }
    if hash(hashed) != hex {
      return Files(None, dropped, 0), received, gone, !gone;
    }
    if !fs.renamed {
      return Files(None, Some(part), 0), received, gone, !gone;
    }
    files := Files(Some(part), None, total);
  }

  /** The loop of it: it ends at the `n`-th item, broken or not written, or after the last. */
  method WriteAndSend(items: seq<Item>, accepts: seq<bool>)
    returns (n: nat, part: Data, hashed: Data, total: nat, received: seq<Data>, gone: bool)
    requires |accepts| == |items|
    ensures n == |Landed(items)| <= |items| && part == Concat(Landed(items))
    ensures n == |items| ==> Intact(items) && hashed == part && total == |part|
    ensures n < |items| ==> !Intact(items)
    ensures WriteFails(items) <==> n < |items| && items[n].Piece?
    ensures Heard(Landed(items), accepts, received, gone)
  {
    n, part, hashed, total, received, gone := 0, [], [], 0, [], false;
    LandedExactly(items);
    assert items[..|items|] == items;
    while n < |items|
      invariant 0 <= n <= |items| && Intact(items[..n])
      invariant part == hashed == Concat(Landed(items[..n])) && total == |part|
      invariant |Landed(items[..n])| == n && Heard(Landed(items[..n]), accepts, received, gone)
    {
      LandedPush(items, n);
      match items[n] {
        case Broken => return;
        case Piece(bytes, written) =>
          hashed := hashed + bytes;
          total := total + |bytes|;
          if !written {
            return;
          }
          part := part + bytes;
          ConcatPush(Landed(items[..n]), bytes);
          if !gone && accepts[n] {
            received := received + [bytes];
          } else {
            gone := true;
          }
      }
      n := n + 1;
    }
  }

  /** The bytes of all items that arrived. */
  function Arrived(items: seq<Item>): seq<Data> {
    if items == [] then [] else (if items[0].Piece? then [items[0].bytes] else []) + Arrived(items[1..])
  }

  lemma {:induction false} ArrivedPush(items: seq<Item>, last: Item)
    ensures Arrived(items + [last]) == Arrived(items) + if last.Piece? then [last.bytes] else []
  {
    var more := if last.Piece? then [last.bytes] else [];
    if items == [] {
      assert items + [last] == [last];
      assert Arrived([last]) == more;
    } else {
      var first := if items[0].Piece? then [items[0].bytes] else [];
      assert (items + [last])[1..] == items[1..] + [last];
      ArrivedPush(items[1..], last);
      assert first + (Arrived(items[1..]) + more) == (first + Arrived(items[1..])) + more;
    }
  }

  /** `stream_to_channel`, when the cache cannot be written: pass on every item until the client is gone. */
  method StreamToChannel(items: seq<Item>, accepts: seq<bool>) returns (received: seq<Data>, heard: nat)
    requires |accepts| == |items|
    ensures HeardAll(items, accepts, received, heard)
  {
    received, heard := [], 0;
    while heard < |items|
      invariant 0 <= heard <= |items| && received == Arrived(items[..heard])
      invariant forall i :: 0 <= i < heard ==> accepts[i]
    {
      if !accepts[heard] {
        return;
      }
      assert items[..heard + 1] == items[..heard] + [items[heard]];
      ArrivedPush(items[..heard], items[heard]);
      if items[heard].Piece? {
        received := received + [items[heard].bytes];
      }
      heard := heard + 1;
    }
  }
}
