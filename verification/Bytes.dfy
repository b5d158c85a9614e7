/** Byte strings and files: a file is the sequence of its bytes. */
module Bytes {
  import opened Wrappers

  type Byte = b: int | 0 <= b < 256

  type Data = seq<Byte>

  /** The file after a seek to `at` and a write of `data`: a gap past the old end reads as zeros. */
  function WriteAt(file: Data, at: nat, data: Data): Data {
    if data == [] then file
    else
      seq(Max(|file|, at + |data|), k requires 0 <= k < Max(|file|, at + |data|) =>
        if at <= k < at + |data| then data[k - at] else if k < |file| then file[k] else 0)
  }

  lemma WriteAtKeeps(file: Data, at: nat, data: Data, k: nat)
    requires k <= at && k <= |file|
    ensures k <= |WriteAt(file, at, data)| && WriteAt(file, at, data)[..k] == file[..k]
  {
  }

  /** A write leaves a region it does not touch as it was. */
  lemma WriteAtElsewhere(file: Data, at: nat, data: Data, from: nat, to: nat)
    requires from <= to <= |file| && (to <= at || at + |data| <= from)
    ensures to <= |WriteAt(file, at, data)| && WriteAt(file, at, data)[from..to] == file[from..to]
  {
  }

  /** A write that continues a region extends it by its data. */
  lemma WriteAtExtends(file: Data, from: nat, at: nat, data: Data)
    requires from <= at && (from < at ==> at <= |file|) && data != []
    ensures at + |data| <= |WriteAt(file, at, data)|
    ensures WriteAt(file, at, data)[from..at + |data|] == (if from < at then file[from..at] else []) + data
  {
  }

  function Concat(pieces: seq<Data>): Data {
    if pieces == [] then [] else pieces[0] + Concat(pieces[1..])
  }

  lemma {:induction false} ConcatAppend(pieces: seq<Data>, more: seq<Data>)
    ensures Concat(pieces + more) == Concat(pieces) + Concat(more)
  {
    if pieces == [] {
      assert pieces + more == more;
    } else {
      assert (pieces + more)[1..] == pieces[1..] + more;
      ConcatAppend(pieces[1..], more);
    }
  }

  lemma ConcatPush(pieces: seq<Data>, last: Data)
    ensures Concat(pieces + [last]) == Concat(pieces) + last
  {
    ConcatAppend(pieces, [last]);
    assert Concat([last]) == last;
  }
}
