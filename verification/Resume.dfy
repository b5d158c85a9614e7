/**
 Resuming: what a part file and its bitmap sidecar are worth after any history of attempts cut at
 any step (src/chunks.rs: `download`, `load_bitmap`, `save_bitmap`), under sources that send the
 blob's own bytes and no more than asked.
 */
module Resume {
  import opened Wrappers
  import opened Bytes
  import opened Chunking
  import opened Download

  /** The two files an attempt leaves behind. */
  datatype Disk = Disk(part: Option<Data>, sidecar: Option<Data>)

  function PartOf(d: Disk): Data {
    if d.part.Some? then d.part.value else []
  }

  /** Cutting an attempt (crash, shutdown, give-up) leaves its files as they are. */
  function DiskOf(s: Sys): Disk {
    Disk(if s.linked then Some(s.part) else None, s.sidecar)
  }

  /** The sidecar decodes, and its flag count fits a blob of `total` bytes. */
  ghost predicate Usable(sidecar: Option<Data>, total: nat) {
    && sidecar.Some?
    && Decode(sidecar.value).Some?
    && |Decode(sidecar.value).value.done| == Count(total, Decode(sidecar.value).value.chunkBytes)
  }

  /** Position `p` lies in a chunk the sidecar flags as done. */
  ghost predicate Claimed(sidecar: Option<Data>, total: nat, p: nat) {
    && Usable(sidecar, total) && p < total
    && var bitmap := Decode(sidecar.value).value;
       IndexAt(p, bitmap.chunkBytes) < |bitmap.done| && bitmap.done[IndexAt(p, bitmap.chunkBytes)]
  }

  /** The claimed bytes that are present are the blob's. */
  ghost predicate Sound(sidecar: Option<Data>, part: Data, blob: Data) {
    forall p :: 0 <= p < |blob| && p < |part| && Claimed(sidecar, |blob|, p) ==> part[p] == blob[p]
  }

  /** No claimed byte before position `bound` is missing from the part file. */
  ghost predicate Gapless(sidecar: Option<Data>, part: Data, total: nat, bound: nat) {
    forall p :: |part| <= p < bound && p < total ==> !Claimed(sidecar, total, p)
  }

  /** Chunk size and flags a new attempt takes from disk, `planned` being the adaptive plan. */
  ghost function OpenChunkBytes(d: Disk, total: nat, planned: nat): nat {
    match d.sidecar
    case None => planned
    case Some(bytes) =>
      match Accepted(bytes, |PartOf(d)|, total)
      case None => planned
      case Some(bitmap) => bitmap.chunkBytes
  }

  ghost function TrustedFlags(d: Disk, total: nat, chunks: nat): seq<bool> {
    match d.sidecar
    case None => seq(chunks, _ => false)
    case Some(bytes) =>
      match Accepted(bytes, |PartOf(d)|, total)
      case None => seq(chunks, _ => false)
      case Some(bitmap) => if |bitmap.done| == chunks then bitmap.done else seq(chunks, _ => false)
  }

  /** A configuration this disk and plan lead to; sizes as the gateway can represent them. */
  ghost predicate Opens(d: Disk, c: Config, planned: nat) {
    && 0 < planned < U64_LIMIT
    && c.total <= U64_LIMIT / 2
    && ValidConfig(c)
    && c.chunkBytes == OpenChunkBytes(d, c.total, planned) < U64_LIMIT
  }

  ghost function Opened(d: Disk, c: Config, connected: bool): Sys {
    Spawned(c, PartOf(d), d.sidecar, TrustedFlags(d, c.total, |c.chunks|), connected)
  }

  /** Every chunk the new attempt would not fetch again has the blob's bytes on disk. */
  ghost predicate TrustIsTrue(d: Disk, c: Config, blob: Data)
    requires ValidConfig(c) && c.total == |blob|
  {
    forall i :: 0 <= i < |c.chunks| && TrustedFlags(d, c.total, |c.chunks|)[i] ==> HasChunk(c, PartOf(d), blob, i)
  }

  /** The part file holds the blob's bytes from `from` to `to`. */
  ghost predicate Agree(part: Data, blob: Data, from: nat, to: nat) {
    from <= to <= |part| && to <= |blob| && part[from..to] == blob[from..to]
  }

  ghost predicate HasChunk(c: Config, part: Data, blob: Data, i: nat)
    requires i < |c.chunks|
  {
    Agree(part, blob, c.chunks[i].offset, c.chunks[i].offset + c.chunks[i].length)
  }

  /** Where the last chunk of the layout starts. */
  function LastStart(c: Config): nat {
    if c.chunks == [] then 0 else c.chunks[|c.chunks| - 1].offset
  }

  /** The source sends the blob's bytes, in order, and not past the end of the chunk. */
  ghost predicate HonestEvent(c: Config, blob: Data, s: Sys, e: Event) {
    e.Act? && e.action.Write? && e.task < |s.tasks| && e.task < |c.chunks| && s.tasks[e.task].Fetching? ==>
      var at := s.tasks[e.task].cursor;
      && at + |e.action.data| <= c.chunks[e.task].offset + c.chunks[e.task].length
      && at + |e.action.data| <= |blob|
      && e.action.data == blob[at..at + |e.action.data|]
  }

  ghost predicate HonestRun(c: Config, blob: Data, s: Sys, events: seq<Event>)
    requires 0 < c.chunkBytes
    decreases |events|
  {
    events != [] ==> HonestEvent(c, blob, s, events[0]) && HonestRun(c, blob, Step(c, s, events[0]), events[1..])
  }

  // ---------- the invariant of an honest attempt ----------

  ghost predicate TaskFaithful(c: Config, blob: Data, s: Sys, i: nat)
    requires i < |c.chunks| && i < |s.tasks|
  {
    match s.tasks[i]
    case Queued(_) => true
    case Exhausted => true
    case Fetching(_, cursor) =>
      var from := c.chunks[i].offset;
      && from <= cursor <= from + c.chunks[i].length
      && (from < cursor ==> Agree(s.part, blob, from, cursor))
    case _ => HasChunk(c, s.part, blob, i)
  }

  ghost predicate Faithful(c: Config, blob: Data, s: Sys) {
    && Inv(c, s) && c.total == |blob| && c.chunkBytes < U64_LIMIT
    && (forall i :: 0 <= i < |c.chunks| ==> TaskFaithful(c, blob, s, i))
    && Sound(s.sidecar, s.part, blob)
    && Gapless(s.sidecar, s.part, |blob|, LastStart(c))
  }

  /** Sound claims make true trust: the coverage test has seen every trusted byte. */
  lemma SoundGivesTrust(d: Disk, c: Config, planned: nat, blob: Data)
    requires Opens(d, c, planned) && c.total == |blob| && Sound(d.sidecar, PartOf(d), blob)
    ensures TrustIsTrue(d, c, blob)
  {
    var flags := TrustedFlags(d, c.total, |c.chunks|);
    forall i | 0 <= i < |c.chunks| && flags[i]
      ensures HasChunk(c, PartOf(d), blob, i)
    {
      AcceptedIsCovered(d.sidecar.value, |PartOf(d)|, c.total, i);
      ChunkArithmetic(c.chunks, c.total, c.chunkBytes, i);
      var from, to := c.chunks[i].offset, c.chunks[i].offset + c.chunks[i].length;
      forall p | from <= p < to
        ensures PartOf(d)[p] == blob[p]
      {
        TilesCover(c.chunks, c.total, c.chunkBytes, p);
        assert Claimed(d.sidecar, c.total, p);
      }
    }
  }

  lemma OpenedFaithful(d: Disk, c: Config, planned: nat, blob: Data, connected: bool)
    requires Opens(d, c, planned) && c.total == |blob|
    requires Sound(d.sidecar, PartOf(d), blob)
    requires Gapless(d.sidecar, PartOf(d), c.total, LastStart(c))
    ensures Faithful(c, blob, Opened(d, c, connected))
  {
    var flags := TrustedFlags(d, c.total, |c.chunks|);
    SpawnedInv(c, PartOf(d), d.sidecar, flags, connected);
    SoundGivesTrust(d, c, planned, blob);
    var s := Opened(d, c, connected);
    forall i | 0 <= i < |c.chunks|
      ensures TaskFaithful(c, blob, s, i)
    {
      assert s.tasks[i].Resumed? ==> flags[i];
    }
  }

  /** Other chunks keep their bytes while a piece of chunk `i` is written. */
  lemma WriteElsewhere(c: Config, blob: Data, s: Sys, i: nat, data: Data, j: nat)
    requires |s.tasks| == |c.chunks| && i < |c.chunks| && j < |c.chunks| && i != j
    requires s.tasks[i].Fetching? && c.chunks[i].offset <= s.tasks[i].cursor
    requires c.chunks[i].offset + c.chunks[i].length <= c.chunks[j].offset
          || c.chunks[j].offset + c.chunks[j].length <= c.chunks[i].offset
    requires TaskFaithful(c, blob, s, j) && HonestEvent(c, blob, s, Act(i, Write(data)))
    ensures TaskFaithful(c, blob, TaskStep(c, s, i, Write(data)), j)
  {
    var at, from, to := s.tasks[i].cursor, c.chunks[j].offset, c.chunks[j].offset + c.chunks[j].length;
    match s.tasks[j]
    case Queued(_) =>
    case Exhausted =>
    case Fetching(_, cursor) =>
      if from < cursor {
        AgreeElsewhere(s.part, blob, at, data, from, cursor);
      }
    case _ => AgreeElsewhere(s.part, blob, at, data, from, to);
  }

  lemma AgreeElsewhere(part: Data, blob: Data, at: nat, data: Data, from: nat, to: nat)
    requires Agree(part, blob, from, to) && (to <= at || at + |data| <= from)
    ensures Agree(WriteAt(part, at, data), blob, from, to)
  {
    WriteAtElsewhere(part, at, data, from, to);
  }

  lemma AgreeExtends(part: Data, blob: Data, at: nat, data: Data, from: nat)
    requires from <= at && (from < at ==> Agree(part, blob, from, at)) && data != []
    requires at + |data| <= |blob| && data == blob[at..at + |data|]
    ensures Agree(WriteAt(part, at, data), blob, from, at + |data|)
  {
    WriteAtExtends(part, from, at, data);
    assert blob[from..at + |data|] == blob[from..at] + blob[at..at + |data|];
  }

  lemma WriteHere(c: Config, blob: Data, s: Sys, i: nat, data: Data)
    requires |s.tasks| == |c.chunks| && i < |c.chunks| && s.tasks[i].Fetching?
    requires TaskFaithful(c, blob, s, i) && HonestEvent(c, blob, s, Act(i, Write(data)))
    ensures TaskFaithful(c, blob, TaskStep(c, s, i, Write(data)), i)
  {
    if data != [] {
      AgreeExtends(s.part, blob, s.tasks[i].cursor, data, c.chunks[i].offset);
    }
  }

  /** Zeros a seek leaves behind fall before the last chunk, where nothing missing is claimed. */
  lemma WriteKeepsClaims(c: Config, blob: Data, s: Sys, i: nat, data: Data)
    requires Faithful(c, blob, s) && i < |c.chunks| && s.tasks[i].Fetching?
    requires HonestEvent(c, blob, s, Act(i, Write(data)))
    ensures var t := TaskStep(c, s, i, Write(data));
            Sound(t.sidecar, t.part, blob) && Gapless(t.sidecar, t.part, |blob|, LastStart(c))
  {
    assert TaskFaithful(c, blob, s, i);
    var t := TaskStep(c, s, i, Write(data));
    assert c.chunks[i].offset <= LastStart(c);
    forall p | 0 <= p < |blob| && p < |t.part| && Claimed(t.sidecar, |blob|, p)
      ensures t.part[p] == blob[p]
    {
      assert Claimed(s.sidecar, |blob|, p);
    }
  }

  lemma WriteFaithful(c: Config, blob: Data, s: Sys, i: nat, data: Data)
    requires Faithful(c, blob, s) && Running(s.phase) && i < |c.chunks| && s.tasks[i].Fetching?
    requires HonestEvent(c, blob, s, Act(i, Write(data)))
    ensures Faithful(c, blob, TaskStep(c, s, i, Write(data)))
  {
    var t := TaskStep(c, s, i, Write(data));
    TaskStepInv(c, s, i, Write(data));
    assert TaskFaithful(c, blob, s, i);
    WriteHere(c, blob, s, i, data);
    WriteKeepsClaims(c, blob, s, i, data);
    forall j | 0 <= j < |c.chunks|
      ensures TaskFaithful(c, blob, t, j)
    {
      if j != i {
        TilesApart(c.chunks, c.total, c.chunkBytes, i, j);
        assert TaskFaithful(c, blob, s, i) && TaskFaithful(c, blob, s, j);
        WriteElsewhere(c, blob, s, i, data, j);
      }
    }
  }

  /** A finished or joined task's chunk is on disk; no other step touches the part file. */
  lemma QuietFaithful(c: Config, blob: Data, s: Sys, t: Sys)
    requires Faithful(c, blob, s) && Inv(c, t)
    requires t.part == s.part && (t.sidecar == s.sidecar || t.sidecar == None)
    requires forall i :: 0 <= i < |c.chunks| ==>
      t.tasks[i] == s.tasks[i] || TaskFaithful(c, blob, t, i)
    ensures Faithful(c, blob, t)
  {
    forall i | 0 <= i < |c.chunks|
      ensures TaskFaithful(c, blob, t, i)
    {
      assert TaskFaithful(c, blob, s, i);
    }
  }

  /** A claim of a sidecar that was cut short is a flag of the complete one. */
  lemma ClaimIsFlag(chunkBytes: nat, flags: seq<bool>, total: nat, count: nat, p: nat)
    requires 0 < chunkBytes < U64_LIMIT && |flags| == Count(total, chunkBytes)
    requires count <= |SidecarBytes(chunkBytes, flags)|
    requires Claimed(Some(SidecarBytes(chunkBytes, flags)[..count]), total, p)
    ensures p < total && IndexAt(p, chunkBytes) < |flags| && flags[IndexAt(p, chunkBytes)]
  {
    TruncatedSidecar(chunkBytes, flags, count);
  }

  lemma SavedClaimIsTrue(c: Config, blob: Data, s: Sys, count: nat, p: nat)
    requires Faithful(c, blob, s) && count <= |SidecarBytes(c.chunkBytes, s.bitmap)|
    requires Claimed(Some(SidecarBytes(c.chunkBytes, s.bitmap)[..count]), |blob|, p)
    ensures p < |s.part| && s.part[p] == blob[p]
  {
    ClaimIsFlag(c.chunkBytes, s.bitmap, |blob|, count, p);
    TilesCover(c.chunks, c.total, c.chunkBytes, p);
    var i := IndexAt(p, c.chunkBytes);
    assert TaskInv(c, s, i) && TaskFaithful(c, blob, s, i);
    var from, to := c.chunks[i].offset, c.chunks[i].offset + c.chunks[i].length;
    assert s.part[from..to][p - from] == blob[from..to][p - from];
  }

  /** What `save_bitmap` writes, complete or cut short, claims only chunks that are on disk. */
  lemma SaveFaithful(c: Config, blob: Data, s: Sys, count: nat)
    requires Faithful(c, blob, s)
    ensures Faithful(c, blob, SaveBytesStep(c, s, count))
  {
    var t := SaveBytesStep(c, s, count);
    if t != s {
      OutsideInv(c, s, t.sidecar, s.linked);
      forall p | 0 <= p < |blob| && Claimed(t.sidecar, |blob|, p)
        ensures p < |t.part| && t.part[p] == blob[p]
      {
        SavedClaimIsTrue(c, blob, s, count, p);
      }
      forall i | 0 <= i < |c.chunks|
        ensures TaskFaithful(c, blob, t, i)
      {
        assert TaskFaithful(c, blob, s, i);
      }
    }
  }

  lemma TaskFaithfulStep(c: Config, blob: Data, s: Sys, i: nat, action: TaskAction)
    requires Faithful(c, blob, s) && Running(s.phase) && i < |c.chunks|
    requires HonestEvent(c, blob, s, Act(i, action))
    ensures Faithful(c, blob, TaskStep(c, s, i, action))
  {
    if s.tasks[i].Fetching? && action.Write? {
      WriteFaithful(c, blob, s, i, action.data);
    } else {
      TaskStepInv(c, s, i, action);
      var t := TaskStep(c, s, i, action);
      QuietTask(c, blob, s, i, action);
      QuietFaithful(c, blob, s, t);
    }
  }

  /** Starting, finishing or retrying: a body of the exact length has put the whole chunk on disk. */
  lemma QuietTask(c: Config, blob: Data, s: Sys, i: nat, action: TaskAction)
    requires 0 < c.chunkBytes && i < |c.chunks| && i < |s.tasks| && !(s.tasks[i].Fetching? && action.Write?)
    requires TaskFaithful(c, blob, s, i) && |s.tasks| == |c.chunks|
    requires 0 < c.chunks[i].length
    ensures TaskFaithful(c, blob, TaskStep(c, s, i, action), i)
  {
  }

  /** The collector leaves the part file alone and moves at most one task, to `Joined`. */
  lemma CollectorTouches(c: Config, s: Sys, e: Event)
    requires 0 < c.chunkBytes && !e.Act? && !e.SaveBytes?
    ensures var t := Step(c, s, e);
            && t.part == s.part
            && (t.sidecar == s.sidecar || t.sidecar == None)
            && (t.tasks == s.tasks
                || (e.Join? && e.task < |s.tasks| && (s.tasks[e.task].Resumed? || s.tasks[e.task].Finished?)
                    && t.tasks == s.tasks[e.task := Joined]))
  {
    match e
    case Join(i) =>
    case Emit(_) =>
    case EmitDone =>
    case Finish(_) =>
    case DropSidecar(_) =>
    case _ =>
  }

  lemma CollectorFaithful(c: Config, blob: Data, s: Sys, e: Event)
    requires Faithful(c, blob, s) && !e.Act? && !e.SaveBytes?
    ensures Faithful(c, blob, Step(c, s, e))
  {
    StepInv(c, s, e);
    CollectorTouches(c, s, e);
    var t := Step(c, s, e);
    if t.tasks != s.tasks {
      assert TaskFaithful(c, blob, s, e.task);
      assert TaskFaithful(c, blob, t, e.task);
    }
    QuietFaithful(c, blob, s, t);
  }

  lemma StepFaithful(c: Config, blob: Data, s: Sys, e: Event)
    requires Faithful(c, blob, s) && HonestEvent(c, blob, s, e)
    ensures Faithful(c, blob, Step(c, s, e))
  {
    if e.Act? {
      if Running(s.phase) && e.task < |c.chunks| {
        TaskFaithfulStep(c, blob, s, e.task, e.action);
      }
    } else if e.SaveBytes? {
      SaveFaithful(c, blob, s, e.count);
    } else {
      CollectorFaithful(c, blob, s, e);
    }
  }

  lemma {:induction false} RunFaithful(c: Config, blob: Data, s: Sys, events: seq<Event>)
    requires Faithful(c, blob, s) && HonestRun(c, blob, s, events)
    ensures Faithful(c, blob, Run(c, s, events))
    decreases |events|
  {
    if events != [] {
      StepFaithful(c, blob, s, events[0]);
      RunFaithful(c, blob, Step(c, s, events[0]), events[1..]);
    }
  }

  // ---------- what a save is worth to the next attempt ----------

  /**
   A new attempt on a disk with a written sidecar: it keeps the sidecar's chunk size, and trusts the flagged chunks,
   all of them and no other, exactly when each flagged chunk ends within the part file, however long that is;
   otherwise it starts over with the planned size.
   */
  lemma OpensAsSaved(d: Disk, chunkBytes: nat, done: seq<bool>, total: nat, planned: nat)
    requires 0 < chunkBytes < U64_LIMIT && total <= U64_LIMIT / 2 && |done| == Count(total, chunkBytes)
    requires d.sidecar == Some(SidecarBytes(chunkBytes, done))
    ensures var covered := forall i :: 0 <= i < |done| && done[i] ==> ChunkEnd(total, chunkBytes, i) <= |PartOf(d)|;
            && OpenChunkBytes(d, total, planned) == (if covered then chunkBytes else planned)
            && TrustedFlags(d, total, |done|) == (if covered then done else seq(|done|, _ => false))
  {
    DecodeSidecar(chunkBytes, done);
    forall i | 0 <= i < |done|
      ensures WrappingEnd(total, chunkBytes, i) == ChunkEnd(total, chunkBytes, i)
    {
      NoWrapWithin(chunkBytes, total, i);
    }
  }

  /**
   Completeness of the save: after `save_bitmap` for the chunk just joined has reached the disk, an attempt that
   starts from there keeps the chunk size and trusts exactly the chunks whose tasks were joined or resumed, that one
   among them.
   */
  lemma SavedSidecarExactly(c: Config, blob: Data, s: Sys, planned: nat)
    requires Faithful(c, blob, s) && s.linked && s.phase.Saving? && c.total <= U64_LIMIT / 2
    ensures var d := DiskOf(Run(c, s, [SaveBytes(8 + |c.chunks|), Saved]));
            && OpenChunkBytes(d, c.total, planned) == c.chunkBytes
            && TrustsJoined(c, s, TrustedFlags(d, c.total, |c.chunks|))
    ensures s.phase.index < |s.tasks| && s.tasks[s.phase.index].Joined?
  {
    SaveOnDisk(c, s);
    BitmapIsOnDisk(c, blob, s);
    SavingIsJoined(c, s);
    TrustsTheJoined(c, s, DiskOf(Run(c, s, [SaveBytes(8 + |c.chunks|), Saved])), planned);
  }

  lemma SavingIsJoined(c: Config, s: Sys)
    requires Inv(c, s) && s.phase.Saving?
    ensures s.phase.index < |s.tasks| && s.tasks[s.phase.index].Joined?
  {
    assert TaskInv(c, s, s.phase.index);
  }

  lemma TrustsTheJoined(c: Config, s: Sys, d: Disk, planned: nat)
    requires ValidConfig(c) && |s.bitmap| == |s.tasks| == |c.chunks|
    requires c.total <= U64_LIMIT / 2 && c.chunkBytes < U64_LIMIT
    requires d == Disk(Some(s.part), Some(SidecarBytes(c.chunkBytes, s.bitmap)))
    requires forall j :: 0 <= j < |c.chunks| ==>
      && (s.bitmap[j] <==> s.tasks[j].Joined? || s.tasks[j].Resumed?)
      && (s.bitmap[j] ==> ChunkEnd(c.total, c.chunkBytes, j) <= |s.part|)
    ensures OpenChunkBytes(d, c.total, planned) == c.chunkBytes
    ensures TrustsJoined(c, s, TrustedFlags(d, c.total, |c.chunks|))
  {
    TrustsAll(d, c.chunkBytes, s.bitmap, c.total, planned);
  }

  /** One flag a chunk, set exactly for those whose tasks were joined or resumed. */
  ghost predicate TrustsJoined(c: Config, s: Sys, flags: seq<bool>) {
    |flags| == |s.tasks| == |c.chunks|
    && forall j :: 0 <= j < |flags| ==> (flags[j] <==> s.tasks[j].Joined? || s.tasks[j].Resumed?)
  }

  lemma TrustsAll(d: Disk, chunkBytes: nat, done: seq<bool>, total: nat, planned: nat)
    requires 0 < chunkBytes < U64_LIMIT && total <= U64_LIMIT / 2 && |done| == Count(total, chunkBytes)
    requires d.sidecar == Some(SidecarBytes(chunkBytes, done))
    requires forall i :: 0 <= i < |done| && done[i] ==> ChunkEnd(total, chunkBytes, i) <= |PartOf(d)|
    ensures OpenChunkBytes(d, total, planned) == chunkBytes && TrustedFlags(d, total, |done|) == done
  {
    OpensAsSaved(d, chunkBytes, done, total, planned);
  }

  lemma BitmapIsOnDisk(c: Config, blob: Data, s: Sys)
    requires Faithful(c, blob, s)
    ensures forall j :: 0 <= j < |c.chunks| ==>
      && (s.bitmap[j] <==> s.tasks[j].Joined? || s.tasks[j].Resumed?)
      && (s.bitmap[j] ==> ChunkEnd(c.total, c.chunkBytes, j) <= |s.part|)
  {
    forall j | 0 <= j < |c.chunks|
      ensures s.bitmap[j] <==> s.tasks[j].Joined? || s.tasks[j].Resumed?
      ensures s.bitmap[j] ==> ChunkEnd(c.total, c.chunkBytes, j) <= |s.part|
    {
      assert TaskInv(c, s, j) && TaskFaithful(c, blob, s, j);
      ChunkArithmetic(c.chunks, c.total, c.chunkBytes, j);
    }
  }

  lemma SaveOnDisk(c: Config, s: Sys)
    requires Inv(c, s) && s.linked && s.phase.Saving?
    ensures DiskOf(Run(c, s, [SaveBytes(8 + |c.chunks|), Saved]))
         == Disk(Some(s.part), Some(SidecarBytes(c.chunkBytes, s.bitmap)))
  {
    SidecarLayout(c.chunkBytes, s.bitmap);
    var all := SidecarBytes(c.chunkBytes, s.bitmap);
    var a := Step(c, s, SaveBytes(8 + |c.chunks|));
    assert all[..8 + |c.chunks|] == all;
    assert [SaveBytes(8 + |c.chunks|), Saved][1..] == [Saved] && [Saved][1..] == [];
    assert Run(c, a, [Saved]) == Run(c, Step(c, a, Saved), []);
  }
}
