/**
 Whole histories of one digest: attempts cut anywhere and resumed, the single-source path writing
 the same part file, evictions of either file. The result is exactly when trusting a sidecar is safe.
 */
module History {
  import opened Wrappers
  import opened Bytes
  import opened Chunking
  import opened Download
  import opened Resume

  /**
   An attempt fed by honest sources is never rejected: it hashes the blob, and what it commits is
   the blob, byte for byte if the old part file was no longer than the blob.
   */
  lemma HonestAttemptCommitsBlob(d: Disk, c: Config, planned: nat, blob: Data, connected: bool, events: seq<Event>)
    requires Opens(d, c, planned) && c.total == |blob| && c.hash(blob) == c.expected
    requires Sound(d.sidecar, PartOf(d), blob) && Gapless(d.sidecar, PartOf(d), c.total, LastStart(c))
    requires HonestRun(c, blob, Opened(d, c, connected), events)
    ensures var t := Run(c, Opened(d, c, connected), events);
            && t.hashed <= blob
            && !t.phase.Rejected? && t.phase != Failed(DigestMismatch)
            && (t.phase.Committed? ==> t.hashed == blob && t.final.Some? && blob <= t.final.value)
            && (t.phase.Committed? && |PartOf(d)| <= |blob| ==> t.final == Some(blob))
  {
    var s := Opened(d, c, connected);
    OpenedFaithful(d, c, planned, blob, connected);
    HonestNotRejected(c, blob, s, events);
    RunFaithful(c, blob, s, events);
    FaithfulHashesBlob(c, blob, Run(c, s, events));
    if |PartOf(d)| <= |blob| {
      HonestStaysWithin(c, blob, s, events);
      var t := Run(c, s, events);
      if t.phase.Committed? {
        assert blob <= t.part && |t.part| == |blob|;
        assert t.part[..|blob|] == t.part;
      }
    }
  }

  lemma HonestStepWithin(c: Config, blob: Data, s: Sys, e: Event)
    requires Faithful(c, blob, s) && HonestEvent(c, blob, s, e) && |s.part| <= |blob|
    ensures |Step(c, s, e).part| <= |blob|
  {
    if !e.Act? && !e.SaveBytes? {
      CollectorTouches(c, s, e);
    }
  }

  lemma {:induction false} HonestStaysWithin(c: Config, blob: Data, s: Sys, events: seq<Event>)
    requires Faithful(c, blob, s) && HonestRun(c, blob, s, events) && |s.part| <= |blob|
    ensures |Run(c, s, events).part| <= |blob|
    decreases |events|
  {
    if events != [] {
      StepFaithful(c, blob, s, events[0]);
      HonestStepWithin(c, blob, s, events[0]);
      HonestStaysWithin(c, blob, Step(c, s, events[0]), events[1..]);
    }
  }

  lemma EmittedByte(c: Config, blob: Data, s: Sys, p: nat)
    requires Faithful(c, blob, s) && p < s.nextOffset
    ensures p < |s.part| && p < |blob| && s.part[p] == blob[p]
  {
    assert s.nextOffset <= c.total;
    TilesCover(c.chunks, c.total, c.chunkBytes, p);
    var i := IndexAt(p, c.chunkBytes);
    EmittedChunk(c, s, i);
    assert TaskInv(c, s, i) && TaskFaithful(c, blob, s, i);
    var from, to := c.chunks[i].offset, c.chunks[i].offset + c.chunks[i].length;
    assert s.part[from..to][p - from] == blob[from..to][p - from];
  }

  lemma EmittedChunk(c: Config, s: Sys, i: nat)
    requires Inv(c, s) && i < |c.chunks| && c.chunks[i].offset < s.nextOffset
    ensures s.done[i]
  {
    assert i < |s.emitted|;
  }

  lemma FaithfulHashesBlob(c: Config, blob: Data, s: Sys)
    requires Faithful(c, blob, s)
    ensures s.hashed <= blob && (|s.emitted| == |c.chunks| ==> s.hashed == blob)
    ensures s.phase.Committed? ==> s.final == Some(s.part) && blob <= s.part
  {
    forall p | 0 <= p < s.nextOffset
      ensures p < |s.part| && p < |blob| && s.part[p] == blob[p]
    {
      EmittedByte(c, blob, s, p);
    }
    assert s.hashed == s.part[..s.nextOffset] == blob[..s.nextOffset];
  }

  lemma {:induction false} HonestNotRejected(c: Config, blob: Data, s: Sys, events: seq<Event>)
    requires Faithful(c, blob, s) && c.hash(blob) == c.expected && HonestRun(c, blob, s, events)
    requires !s.phase.Rejected? && s.phase != Failed(DigestMismatch)
    ensures var t := Run(c, s, events); !t.phase.Rejected? && t.phase != Failed(DigestMismatch)
    decreases |events|
  {
    if events != [] {
      var t := Step(c, s, events[0]);
      StepFaithful(c, blob, s, events[0]);
      FaithfulHashesBlob(c, blob, t);
      RejectedOnlyByFinish(c, s, events[0]);
      HonestNotRejected(c, blob, t, events[1..]);
    }
  }

  lemma RejectedOnlyByFinish(c: Config, s: Sys, e: Event)
    requires Inv(c, s) && !s.phase.Rejected? && s.phase != Failed(DigestMismatch)
    ensures var t := Step(c, s, e);
            t.phase != Failed(DigestMismatch)
            && (t.phase.Rejected? ==> |t.emitted| == |c.chunks| && c.hash(t.hashed) != c.expected)
  {
    StepInv(c, s, e);
    match e
    case Join(_) =>
    case Finish(_) =>
    case _ =>
  }

  /**
   After a digest mismatch each file goes unless its removal fails, and the next attempt trusts nothing as soon
   as one of them has gone; if both removals fail, it trusts what it would have trusted anyway.
   */
  lemma MismatchStartsOver(c: Config, s: Sys, gone: bool, dropped: bool, next: Config, planned: nat)
    requires Inv(c, s) && s.phase.Joining? && s.remaining == 0 && c.hash(s.hashed) != c.expected
    requires var t := Run(c, s, [Finish(gone), DropSidecar(dropped)]);
             Opens(DiskOf(t), next, planned) && next.total == c.total
    ensures var t := Run(c, s, [Finish(gone), DropSidecar(dropped)]);
            && t.phase == Failed(DigestMismatch)
            && DiskOf(t) == Disk(if gone then None else DiskOf(s).part, if dropped then None else s.sidecar)
            && (gone || dropped ==>
                  forall i :: 0 <= i < |next.chunks| ==> !TrustedFlags(DiskOf(t), next.total, |next.chunks|)[i])
            && (!gone && !dropped ==> DiskOf(t) == DiskOf(s))
  {
    var a := Step(c, s, Finish(gone));
    var b := Step(c, a, DropSidecar(dropped));
    assert Run(c, s, [Finish(gone), DropSidecar(dropped)]) == Run(c, a, [DropSidecar(dropped)]) == Run(c, b, []);
    if gone {
      NothingTrustedWithoutPart(DiskOf(b), next, planned);
    }
  }

  /** Without a part file no flag is trusted, whatever the sidecar says. */
  lemma NothingTrustedWithoutPart(d: Disk, c: Config, planned: nat)
    requires Opens(d, c, planned) && d.part.None?
    ensures forall i :: 0 <= i < |c.chunks| ==> !TrustedFlags(d, c.total, |c.chunks|)[i]
  {
    forall i | 0 <= i < |c.chunks| && TrustedFlags(d, c.total, |c.chunks|)[i]
      ensures false
    {
      AcceptedIsCovered(d.sidecar.value, 0, c.total, i);
      ChunkArithmetic(c.chunks, c.total, c.chunkBytes, i);
      assert false;
    }
  }

  // ---------- when is trusting a sidecar safe? ----------

  /** However an honest attempt on this disk goes on and is cut, the next one trusts only true chunks. */
  ghost predicate StaysTrue(d: Disk, c: Config, blob: Data, events: seq<Event>)
    requires ValidConfig(c) && c.total == |blob|
  {
    HonestRun(c, blob, Opened(d, c, true), events) ==>
      forall next: Config :: ReOpens(d, c, events, next) ==>
        TrustIsTrue(DiskOf(Run(c, Opened(d, c, true), events)), next, blob)
  }

  ghost predicate ReOpens(d: Disk, c: Config, events: seq<Event>, next: Config)
    requires ValidConfig(c)
  {
    && ValidConfig(next) && next.total == c.total <= U64_LIMIT / 2
    && exists planned :: Opens(DiskOf(Run(c, Opened(d, c, true), events)), next, planned)
  }

  ghost predicate SafeForEveryBlob(d: Disk, c: Config)
    requires ValidConfig(c)
  {
    forall blob: Data, events: seq<Event> ::
      |blob| == c.total && Sound(d.sidecar, PartOf(d), blob) ==> StaysTrue(d, c, blob, events)
  }

  lemma AttemptKeepsSound(d: Disk, c: Config, planned: nat, blob: Data, connected: bool, events: seq<Event>)
    requires Opens(d, c, planned) && c.total == |blob|
    requires Sound(d.sidecar, PartOf(d), blob) && Gapless(d.sidecar, PartOf(d), c.total, LastStart(c))
    requires HonestRun(c, blob, Opened(d, c, connected), events)
    ensures var e := DiskOf(Run(c, Opened(d, c, connected), events));
            && Sound(e.sidecar, PartOf(e), blob)
            && (e.part.Some? ==> Gapless(e.sidecar, PartOf(e), c.total, LastStart(c)))
  {
    OpenedFaithful(d, c, planned, blob, connected);
    RunFaithful(c, blob, Opened(d, c, connected), events);
  }

  /**
   `load_bitmap` rejects a sidecar whose done chunks are not all there, but leaves it on disk. The
   attempt that then runs is safe to cut and resume, whatever the blob, exactly when every missing
   byte of a done chunk lies in the last chunk of the attempt's own layout.
   */
  lemma ResumeSafeExactly(d: Disk, c: Config, planned: nat)
    requires Opens(d, c, planned)
    ensures SafeForEveryBlob(d, c) <==> Gapless(d.sidecar, PartOf(d), c.total, LastStart(c))
  {
    if Gapless(d.sidecar, PartOf(d), c.total, LastStart(c)) {
      forall blob: Data, events: seq<Event> | |blob| == c.total && Sound(d.sidecar, PartOf(d), blob)
        ensures StaysTrue(d, c, blob, events)
      {
        if HonestRun(c, blob, Opened(d, c, true), events) {
          AttemptKeepsSound(d, c, planned, blob, true, events);
          var e := DiskOf(Run(c, Opened(d, c, true), events));
          forall next: Config | ReOpens(d, c, events, next)
            ensures TrustIsTrue(e, next, blob)
          {
            var p :| Opens(e, next, p);
            SoundGivesTrust(e, next, p, blob);
          }
        }
      }
    } else {
      var p: nat :| |PartOf(d)| <= p < LastStart(c) && p < c.total && Claimed(d.sidecar, c.total, p);
      var blob, events, next := PoisonedResume(d, c, planned, p);
      assert !StaysTrue(d, c, blob, events);
    }
  }

  /**
   The guard is not idle: a blob of two chunks whose part file went, say by the single-source path, while the
   sidecar that flags the first chunk stayed, is not safe to resume. So for every chunk size.
   */
  lemma OrphanIsUnsafe(size: nat, hash: Data -> string, expected: string) returns (d: Disk, c: Config)
    requires 0 < size && 2 * size <= U64_LIMIT / 2
    ensures d == Disk(None, Some(SidecarBytes(size, [true, false])))
    ensures c.total == 2 * size && c.chunkBytes == size && Opens(d, c, size) && !SafeForEveryBlob(d, c)
  {
    d := Disk(None, Some(SidecarBytes(size, [true, false])));
    var chunks := Layout(2 * size, size);
    c := Config(2 * size, size, chunks, hash, expected);
    TwoChunks(chunks, size);
    BitmapRoundTrip(size, [true, false], 0, 2 * size);
    assert ChunkEnd(2 * size, size, 0) == size > 0 && [true, false][0];
    assert Opens(d, c, size);
    DecodeSidecar(size, [true, false]);
    assert Claimed(d.sidecar, 2 * size, 0);
    assert !Gapless(d.sidecar, PartOf(d), c.total, LastStart(c));
    ResumeSafeExactly(d, c, size);
  }

  lemma TwoChunks(chunks: seq<Chunk>, size: nat)
    requires Tiles(chunks, 2 * size, size)
    ensures |chunks| == Count(2 * size, size) == 2 && chunks[1].offset == size && IndexAt(0, size) == 0
  {
    CountIs(2 * size, size, 2);
    assert chunks[0].length == size;
  }

  /** The blob that agrees with the part file where that has bytes, and is ones elsewhere. */
  function FilledBlob(part: Data, total: nat): Data {
    seq(total, q requires 0 <= q < total => if q < |part| then part[q] else 1)
  }

  /** The failing run: the last chunk is written first, the hole before it reads as zeros. */
  lemma PoisonedResume(d: Disk, c: Config, planned: nat, p: nat) returns (blob: Data, events: seq<Event>, next: Config)
    requires Opens(d, c, planned)
    requires |PartOf(d)| <= p < LastStart(c) && p < c.total && Claimed(d.sidecar, c.total, p)
    ensures |blob| == c.total && Sound(d.sidecar, PartOf(d), blob)
    ensures HonestRun(c, blob, Opened(d, c, true), events) && ReOpens(d, c, events, next)
    ensures !TrustIsTrue(DiskOf(Run(c, Opened(d, c, true), events)), next, blob)
  {
    blob := FilledBlob(PartOf(d), c.total);
    var last := |c.chunks| - 1;
    var from := c.chunks[last].offset;
    assert from + c.chunks[last].length == c.total;
    var tail := blob[from..c.total];
    events := [Act(last, Start), Act(last, Write(tail))];
    ClaimedBeyondPart(d, c, planned, p);
    var s := Opened(d, c, true);
    assert s.tasks[last] == Queued(0);
    var t := Step(c, s, events[0]);
    assert t.tasks[last] == Fetching(0, from);
    var u := Step(c, t, events[1]);
    assert HonestRun(c, blob, t, events[1..]) by {
      assert events[1..][0] == events[1];
    }
    RunPush(c, s, [events[0]], events[1]);
    assert [events[0]] + [events[1]] == events;
    assert Run(c, s, [events[0]]) == Run(c, t, []);
    assert Run(c, s, events) == u;
    assert |u.part| == c.total && u.part[p] == 0 && blob[p] == 1;
    next := PoisonTrusted(DiskOf(u), c, blob, p);
  }

  /** A claim past the end of the part file makes `load_bitmap` reject the sidecar. */
  lemma ClaimedBeyondPart(d: Disk, c: Config, planned: nat, p: nat)
    requires Opens(d, c, planned) && |PartOf(d)| <= p < c.total && Claimed(d.sidecar, c.total, p)
    ensures Accepted(d.sidecar.value, |PartOf(d)|, c.total).None?
    ensures TrustedFlags(d, c.total, |c.chunks|) == seq(|c.chunks|, _ => false)
    ensures c.chunkBytes == planned
  {
    if Accepted(d.sidecar.value, |PartOf(d)|, c.total).Some? {
      TilesCover(c.chunks, c.total, c.chunkBytes, p);
      ChunkArithmetic(c.chunks, c.total, c.chunkBytes, IndexAt(p, c.chunkBytes));
      AcceptedIsCovered(d.sidecar.value, |PartOf(d)|, c.total, IndexAt(p, c.chunkBytes));
      assert false;
    }
  }

  /** Once the part file has its full length, every claim is trusted, also a wrong one. */
  lemma PoisonTrusted(e: Disk, c: Config, blob: Data, p: nat) returns (next: Config)
    requires ValidConfig(c) && c.total == |blob| <= U64_LIMIT / 2
    requires Claimed(e.sidecar, c.total, p) && |PartOf(e)| == c.total && PartOf(e)[p] != blob[p]
    ensures ValidConfig(next) && next.total == c.total && Opens(e, next, 1)
    ensures !TrustIsTrue(e, next, blob)
  {
    var bitmap := Decode(e.sidecar.value).value;
    assert Accepted(e.sidecar.value, |PartOf(e)|, c.total) == Some(bitmap);
    HeaderBound(e.sidecar.value);
    var chunks := Layout(c.total, bitmap.chunkBytes);
    next := Config(c.total, bitmap.chunkBytes, chunks, c.hash, c.expected);
    TilesCover(chunks, c.total, bitmap.chunkBytes, p);
    var i := IndexAt(p, bitmap.chunkBytes);
    assert TrustedFlags(e, c.total, |chunks|)[i];
    var from, to := chunks[i].offset, chunks[i].offset + chunks[i].length;
    assert PartOf(e)[from..to][p - from] != blob[from..to][p - from];
  }

  // ---------- histories ----------

  datatype Episode =
    | Attempt(c: Config, planned: nat, connected: bool, events: seq<Event>)
    | SingleSource(written: nat)  // the tee path truncates the part file, then is cut
    | PartGone                    // evicted, or renamed or removed by the tee path
    | SidecarGone
    | BothGone

  ghost function After(d: Disk, blob: Data, e: Episode): Disk
    requires Admissible(d, blob, e)
  {
    match e
    case Attempt(c, _, connected, events) => DiskOf(Run(c, Opened(d, c, connected), events))
    case SingleSource(written) => Disk(Some(blob[..written]), d.sidecar)
    case PartGone => Disk(None, d.sidecar)
    case SidecarGone => Disk(d.part, None)
    case BothGone => Disk(None, None)
  }

  ghost predicate Admissible(d: Disk, blob: Data, e: Episode) {
    match e
    case Attempt(c, planned, connected, events) =>
      Opens(d, c, planned) && c.total == |blob| && HonestRun(c, blob, Opened(d, c, connected), events)
    case SingleSource(written) => written <= |blob|
    case _ => true
  }

  /** The guard of `ResumeSafeExactly`, at each attempt. */
  ghost predicate Guarded(d: Disk, blob: Data, e: Episode) {
    Admissible(d, blob, e)
    && (e.Attempt? ==> Gapless(d.sidecar, PartOf(d), |blob|, LastStart(e.c)))
  }

  ghost predicate GuardedHistory(d: Disk, blob: Data, episodes: seq<Episode>)
    decreases |episodes|
  {
    episodes != [] ==>
      Guarded(d, blob, episodes[0]) && GuardedHistory(After(d, blob, episodes[0]), blob, episodes[1..])
  }

  ghost function Outcome(d: Disk, blob: Data, episodes: seq<Episode>): Disk
    requires GuardedHistory(d, blob, episodes)
    decreases |episodes|
  {
    if episodes == [] then d else Outcome(After(d, blob, episodes[0]), blob, episodes[1..])
  }

  /** Over any guarded history from an empty disk, each attempt trusts only true chunks. */
  lemma HistorySound(blob: Data, episodes: seq<Episode>, next: Config, planned: nat)
    requires GuardedHistory(Disk(None, None), blob, episodes)
    requires Opens(Outcome(Disk(None, None), blob, episodes), next, planned) && next.total == |blob|
    ensures TrustIsTrue(Outcome(Disk(None, None), blob, episodes), next, blob)
  {
    OutcomeSound(Disk(None, None), blob, episodes);
    SoundGivesTrust(Outcome(Disk(None, None), blob, episodes), next, planned, blob);
  }

  lemma {:induction false} OutcomeSound(d: Disk, blob: Data, episodes: seq<Episode>)
    requires GuardedHistory(d, blob, episodes) && Sound(d.sidecar, PartOf(d), blob)
    ensures var e := Outcome(d, blob, episodes); Sound(e.sidecar, PartOf(e), blob)
    decreases |episodes|
  {
    if episodes != [] {
      var e := episodes[0];
      if e.Attempt? {
        AttemptKeepsSound(d, e.c, e.planned, blob, e.connected, e.events);
      }
      OutcomeSound(After(d, blob, e), blob, episodes[1..]);
    }
  }

  /** The episode never leaves a sidecar whose part file it has deleted or truncated. */
  ghost predicate Paired(d: Disk, blob: Data, e: Episode)
    requires Admissible(d, blob, e)
  {
    var after := After(d, blob, e);
    after.sidecar.None? || (e.Attempt? && after.part.Some?)
  }

  ghost predicate PairedHistory(d: Disk, blob: Data, episodes: seq<Episode>)
    decreases |episodes|
  {
    episodes != [] ==>
      && Admissible(d, blob, episodes[0]) && Paired(d, blob, episodes[0])
      && PairedHistory(After(d, blob, episodes[0]), blob, episodes[1..])
  }

  /** No claimed byte is missing at all. */
  ghost predicate Whole(d: Disk, total: nat) {
    Gapless(d.sidecar, PartOf(d), total, total)
  }

  /** If no part file is ever deleted without its sidecar, the guard holds at every attempt by itself. */
  lemma {:induction false} PairedIsGuarded(d: Disk, blob: Data, episodes: seq<Episode>)
    requires PairedHistory(d, blob, episodes)
    requires Sound(d.sidecar, PartOf(d), blob) && Whole(d, |blob|)
    ensures GuardedHistory(d, blob, episodes)
    decreases |episodes|
  {
    if episodes != [] {
      var e := episodes[0];
      if e.Attempt? {
        AttemptKeepsSound(d, e.c, e.planned, blob, e.connected, e.events);
        AttemptKeepsWhole(d, e.c, e.planned, blob, e.connected, e.events);
      }
      PairedIsGuarded(After(d, blob, e), blob, episodes[1..]);
    }
  }

  lemma AttemptKeepsWhole(d: Disk, c: Config, planned: nat, blob: Data, connected: bool, events: seq<Event>)
    requires Opens(d, c, planned) && c.total == |blob|
    requires Sound(d.sidecar, PartOf(d), blob) && Whole(d, |blob|)
    requires HonestRun(c, blob, Opened(d, c, connected), events)
    ensures var t := Run(c, Opened(d, c, connected), events); Gapless(t.sidecar, t.part, |blob|, |blob|)
  {
    OpenedFaithful(d, c, planned, blob, connected);
    RunKeepsWhole(c, blob, Opened(d, c, connected), events);
  }

  lemma {:induction false} RunKeepsWhole(c: Config, blob: Data, s: Sys, events: seq<Event>)
    requires Faithful(c, blob, s) && HonestRun(c, blob, s, events) && Gapless(s.sidecar, s.part, |blob|, |blob|)
    ensures var t := Run(c, s, events); Gapless(t.sidecar, t.part, |blob|, |blob|)
    decreases |events|
  {
    if events != [] {
      var e, t := events[0], Step(c, s, events[0]);
      StepFaithful(c, blob, s, e);
      StepKeepsWhole(c, blob, s, e);
      RunKeepsWhole(c, blob, t, events[1..]);
    }
  }

  lemma StepKeepsWhole(c: Config, blob: Data, s: Sys, e: Event)
    requires Faithful(c, blob, s) && Gapless(s.sidecar, s.part, |blob|, |blob|)
    ensures var t := Step(c, s, e); Gapless(t.sidecar, t.part, |blob|, |blob|)
  {
    var t := Step(c, s, e);
    if e.SaveBytes? {
      if t != s {
        forall p | |t.part| <= p < |blob|
          ensures !Claimed(t.sidecar, |blob|, p)
        {
          if Claimed(t.sidecar, |blob|, p) {
            SavedClaimIsTrue(c, blob, s, e.count, p);
          }
        }
      }
    } else if !e.Act? {
      CollectorTouches(c, s, e);
    }
  }
}
