/**
 The chunked downloader as a step system (src/chunks.rs: `download`, `fetch_chunk`).

 One event is one atomic action of a chunk task, of the collector, or of the surroundings (the
 client leaving, the part file or sidecar being deleted). `Step` says what the event does; an event
 the code could not perform in that state changes nothing, so `Run` over all event sequences ranges
 over every interleaving of tasks, retries, short and overlong bodies, saves and emissions.
 */
module Download {
  import opened Wrappers
  import opened Bytes
  import opened Chunking

  /** The hash is an unknown function of the bytes; `expected` is the digest the client asked for. */
  datatype Config = Config(total: nat, chunkBytes: nat, chunks: seq<Chunk>, hash: Data -> string, expected: string)

  const MAX_CHUNK_RETRIES: nat := 3

  datatype Task =
    | Resumed                              // flagged done by the sidecar, not yet joined
    | Queued(attempt: nat)
    | Fetching(attempt: nat, cursor: nat)  // body being written at `cursor`
    | Finished                             // exact length written, not yet joined
    | Exhausted                            // out of retries, not yet joined
    | Joined

  datatype Failure = TaskAborted | RetriesExhausted | IoFailed | DigestMismatch

  datatype Phase =
    | Joining             // waiting for a task, or about to finish
    | Saving(index: nat)  // writing the sidecar for this chunk
    | Emitting            // sending the contiguous prefix
    | Renamed             // part file is the final file, sidecar still there
    | Rejected            // digest differs, part file dropped, sidecar still there
    | Committed
    | Failed(why: Failure)

  /** The receiving end of the response channel: what it got, and whether it is still there. */
  datatype Client = Client(connected: bool, delivered: Data)

  /** `linked`: the part file still has its name; `final`: the blob file under its digest. */
  datatype Sys = Sys(
    part: Data,
    linked: bool,
    sidecar: Option<Data>,
    final: Option<Data>,
    tasks: seq<Task>,
    done: seq<bool>,
    bitmap: seq<bool>,
    remaining: nat,
    nextOffset: nat,
    emitted: seq<nat>,
    hashed: Data,
    client: Client,
    phase: Phase)

  datatype TaskAction =
    | Start             // permit held, a 206 for the right offset has arrived
    | Write(data: Data) // one piece of the body
    | EndBody           // end of the body, then the length check
    | Fail              // any other error: status, redirect, timeout, stream, disk

  datatype Event =
    | Act(task: nat, action: TaskAction)
    | Join(task: nat)
    | AbortTask
    | SaveBytes(count: nat)
    | Saved
    | Emit(accepted: bool)
    | EmitDone
    | IoError
    | Finish(ok: bool)
    | DropSidecar(ok: bool)
    | Unlink
    | EvictSidecar

  predicate Running(phase: Phase) {
    phase.Joining? || phase.Saving? || phase.Emitting?
  }

  function Retry(attempt: nat): Task {
    if attempt + 1 > MAX_CHUNK_RETRIES then Exhausted else Queued(attempt + 1)
  }

  /** The spawned future of one chunk and its `fetch_chunk`: what an action makes of the task. */
  function TaskAfter(chunk: Chunk, task: Task, action: TaskAction): Task {
    match task
    case Queued(attempt) =>
      if action.Start? then Fetching(attempt, chunk.offset) else if action.Fail? then Retry(attempt) else task
    case Fetching(attempt, cursor) =>
      (match action
       case Start => task
       case Write(data) => Fetching(attempt, cursor + |data|)
       case EndBody => if cursor == chunk.offset + chunk.length then Finished else Retry(attempt)
       case Fail => Retry(attempt))
    case _ => task
  }

  function PartAfter(part: Data, task: Task, action: TaskAction): Data {
    if task.Fetching? && action.Write? then WriteAt(part, task.cursor, action.data) else part
  }

  function TaskStep(c: Config, s: Sys, i: nat, action: TaskAction): Sys
    requires i < |s.tasks| && i < |c.chunks|
  {
    s.(part := PartAfter(s.part, s.tasks[i], action),
       tasks := s.tasks[i := TaskAfter(c.chunks[i], s.tasks[i], action)])
  }

  /** `join_next` yields task `i`; a fetched chunk goes on to the sidecar, a resumed one does not. */
  function JoinStep(s: Sys, i: nat): Sys {
    if !(s.phase.Joining? && 0 < s.remaining && i < |s.tasks| && i < |s.done| && i < |s.bitmap|) then s
    else match s.tasks[i]
      case Resumed => s.(tasks := s.tasks[i := Joined], done := s.done[i := true], phase := Emitting)
      case Finished => s.(tasks := s.tasks[i := Joined], bitmap := s.bitmap[i := true], phase := Saving(i))
      case Exhausted => s.(phase := Failed(RetriesExhausted))
      case _ => s
  }

  /** The sidecar while `save_bitmap` overwrites it: so far `count` bytes have arrived. */
  function SaveBytesStep(c: Config, s: Sys, count: nat): Sys {
    if s.phase.Saving? && count <= |SidecarBytes(c.chunkBytes, s.bitmap)|
    then s.(sidecar := Some(SidecarBytes(c.chunkBytes, s.bitmap)[..count])) else s
  }

  /** `save_bitmap` returns, its errors ignored. */
  function SavedStep(s: Sys): Sys {
    if s.phase.Saving? && s.phase.index < |s.done|
    then s.(done := s.done[s.phase.index := true], phase := Emitting) else s
  }

  /** The chunk the emission loop would send next, if it is there. */
  predicate CanEmit(c: Config, s: Sys)
    requires 0 < c.chunkBytes
  {
    && s.nextOffset < c.total
    && s.nextOffset / c.chunkBytes < |c.chunks|
    && s.nextOffset / c.chunkBytes < |s.done|
    && s.done[s.nextOffset / c.chunkBytes]
  }

  /** Sending to the channel; a failed send drops the sender for good. */
  function Offer(client: Client, bytes: Data, accepted: bool): Client {
    if client.connected && accepted then client.(delivered := client.delivered + bytes) else client.(connected := false)
  }

  /** Read one chunk back from the part file, hash it, offer it to the client. */
  function EmitStep(c: Config, s: Sys, accepted: bool): Sys
    requires 0 < c.chunkBytes
  {
    if !(s.phase.Emitting? && CanEmit(c, s)) then s
    else
      var next := s.nextOffset / c.chunkBytes;
      var chunk := c.chunks[next];
      if chunk.offset + chunk.length > |s.part| then s.(phase := Failed(IoFailed))
      else
        var bytes := s.part[chunk.offset..chunk.offset + chunk.length];
        s.(hashed := s.hashed + bytes,
           nextOffset := s.nextOffset + |bytes|,
           emitted := s.emitted + [next],
           client := Offer(s.client, bytes, accepted))
  }

  function EmitDoneStep(c: Config, s: Sys): Sys
    requires 0 < c.chunkBytes
  {
    if s.phase.Emitting? && !CanEmit(c, s) && 0 < s.remaining
    then s.(remaining := s.remaining - 1, phase := Joining) else s
  }

  /** After the last chunk: compare digests, then rename the part file or drop it. */
  function FinishStep(c: Config, s: Sys, ok: bool): Sys {
    if !(s.phase.Joining? && s.remaining == 0) then s
    else if c.hash(s.hashed) != c.expected then s.(linked := s.linked && !ok, phase := Rejected)
    else if ok && s.linked then s.(final := Some(s.part), linked := false, phase := Renamed)
    else s.(phase := Failed(IoFailed))
  }

  function DropSidecarStep(s: Sys, ok: bool): Sys {
    if s.phase.Renamed? then s.(sidecar := if ok then None else s.sidecar, phase := Committed)
    else if s.phase.Rejected? then s.(sidecar := if ok then None else s.sidecar, phase := Failed(DigestMismatch))
    else s
  }

  function GiveUpStep(s: Sys, e: Event): Sys {
    if e.AbortTask? && s.phase.Joining? && 0 < s.remaining then s.(phase := Failed(TaskAborted))
    else if e.IoError? && (s.phase.Emitting? || (s.phase.Joining? && s.remaining == 0))
    then s.(phase := Failed(IoFailed))
    else s
  }

  function Step(c: Config, s: Sys, e: Event): Sys
    requires 0 < c.chunkBytes
  {
    match e
    case Act(i, action) =>
      if Running(s.phase) && i < |s.tasks| && i < |c.chunks| then TaskStep(c, s, i, action) else s
    case Join(i) => JoinStep(s, i)
    case SaveBytes(count) => SaveBytesStep(c, s, count)
    case Saved => SavedStep(s)
    case Emit(accepted) => EmitStep(c, s, accepted)
    case EmitDone => EmitDoneStep(c, s)
    case Finish(ok) => FinishStep(c, s, ok)
    case DropSidecar(ok) => DropSidecarStep(s, ok)
    case AbortTask => GiveUpStep(s, e)
    case IoError => GiveUpStep(s, e)
    case Unlink => s.(linked := false)
    case EvictSidecar => s.(sidecar := None)
  }

  function Run(c: Config, s: Sys, events: seq<Event>): Sys
    requires 0 < c.chunkBytes
    decreases |events|
  {
    if events == [] then s else Run(c, Step(c, s, events[0]), events[1..])
  }

  /** The tasks have been spawned and nothing has been joined: trusted chunks are done already (src/chunks.rs:273). */
  function Spawned(c: Config, part: Data, sidecar: Option<Data>, flags: seq<bool>, connected: bool): Sys {
    Sys(part, true, sidecar, None,
        seq(|flags|, i requires 0 <= i < |flags| => if flags[i] then Resumed else Queued(0)),
        flags, flags, |flags|, 0, [], [], Client(connected, []), Joining)
  }

  // ---------- what every step keeps ----------

  ghost predicate ValidConfig(c: Config) {
    Tiles(c.chunks, c.total, c.chunkBytes)
  }

  ghost function Pending(done: seq<bool>): nat {
    if done == [] then 0 else (if done[0] then 0 else 1) + Pending(done[1..])
  }

  lemma {:induction false} PendingUpdate(done: seq<bool>, i: nat)
    requires i < |done| && !done[i]
    ensures Pending(done) == Pending(done[i := true]) + 1
  {
    if i == 0 {
      assert done[i := true][1..] == done[1..];
    } else {
      assert done[i := true][1..] == done[1..][i - 1 := true];
      PendingUpdate(done[1..], i - 1);
    }
  }

  lemma {:induction false} PendingNone(done: seq<bool>)
    ensures Pending(done) == 0 <==> forall i :: 0 <= i < |done| ==> done[i]
    ensures Pending(done) <= |done|
    ensures (forall i :: 0 <= i < |done| ==> !done[i]) ==> Pending(done) == |done|
  {
    if done != [] {
      PendingNone(done[1..]);
      assert forall i :: 1 <= i < |done| ==> done[i] == done[1..][i - 1];
      assert forall i :: 0 <= i < |done| - 1 ==> done[1..][i] == done[i + 1];
    }
  }

  /** Tasks `join_next` has not yielded yet. */
  ghost function Unjoined(tasks: seq<Task>): nat {
    Pending(JoinedFlags(tasks))
  }

  ghost function JoinedFlags(tasks: seq<Task>): seq<bool> {
    seq(|tasks|, i requires 0 <= i < |tasks| => tasks[i].Joined?)
  }

  lemma UnjoinedUpdate(tasks: seq<Task>, i: nat, task: Task)
    requires i < |tasks| && !tasks[i].Joined?
    ensures Unjoined(tasks) == Unjoined(tasks[i := task]) + if task.Joined? then 1 else 0
  {
    if task.Joined? {
      PendingUpdate(JoinedFlags(tasks), i);
      assert JoinedFlags(tasks[i := task]) == JoinedFlags(tasks)[i := true];
    } else {
      assert JoinedFlags(tasks[i := task]) == JoinedFlags(tasks);
    }
  }

  lemma UnjoinedBounds(tasks: seq<Task>)
    ensures Unjoined(tasks) <= |tasks|
    ensures Unjoined(tasks) == 0 <==> forall i :: 0 <= i < |tasks| ==> tasks[i].Joined?
    ensures (forall i :: 0 <= i < |tasks| ==> !tasks[i].Joined?) ==> Unjoined(tasks) == |tasks|
  {
    PendingNone(JoinedFlags(tasks));
    assert forall i :: 0 <= i < |tasks| ==> JoinedFlags(tasks)[i] == tasks[i].Joined?;
  }

  /** Where the first `k` chunks end. */
  function PrefixEnd(c: Config, k: nat): nat
    requires k <= |c.chunks|
  {
    if k < |c.chunks| then c.chunks[k].offset else c.total
  }

  ghost predicate TaskInv(c: Config, s: Sys, i: nat)
    requires i < |c.chunks| && |s.tasks| == |s.done| == |s.bitmap| == |c.chunks|
  {
    && (s.done[i] || s.phase == Saving(i) <==> s.tasks[i].Joined? || s.tasks[i].Resumed?)
    && !(s.done[i] && s.phase == Saving(i))
    && (s.bitmap[i] <==> s.tasks[i].Joined? || s.tasks[i].Resumed?)
    && (s.tasks[i].Queued? ==> s.tasks[i].attempt <= MAX_CHUNK_RETRIES)
    && (s.tasks[i].Fetching? ==> s.tasks[i].attempt <= MAX_CHUNK_RETRIES && c.chunks[i].offset <= s.tasks[i].cursor)
  }

  /** The first `|emitted|` chunks, and nothing else, have been hashed and offered to the client. */
  ghost predicate EmitInv(c: Config, s: Sys)
    requires |s.tasks| == |s.done| == |s.bitmap| == |c.chunks|
  {
    && |s.emitted| <= |c.chunks|
    && (forall j :: 0 <= j < |s.emitted| ==> s.emitted[j] == j && s.done[j])
    && s.nextOffset == PrefixEnd(c, |s.emitted|) <= |s.part|
    && s.hashed == s.part[..s.nextOffset]
    && s.client.delivered <= s.hashed
    && (s.client.connected ==> s.client.delivered == s.hashed)
  }

  /** Emission has caught up with what is done, once something has been joined. */
  ghost predicate Caught(c: Config, s: Sys)
    requires |s.done| == |c.chunks| && |s.emitted| <= |c.chunks|
  {
    s.remaining == |c.chunks| || |s.emitted| == |c.chunks| || !s.done[|s.emitted|]
  }

  ghost predicate PhaseInv(c: Config, s: Sys)
    requires |s.tasks| == |s.done| == |c.chunks| && |s.emitted| <= |c.chunks|
  {
    match s.phase
    case Joining => s.remaining == Unjoined(s.tasks) && Caught(c, s)
    case Saving(i) =>
      i < |c.chunks| && s.tasks[i].Joined? && s.remaining == Unjoined(s.tasks) + 1 && Caught(c, s)
    case Emitting => s.remaining == Unjoined(s.tasks) + 1
    case Renamed => CommittedInv(c, s)
    case Rejected => |s.emitted| == |c.chunks| && c.hash(s.hashed) != c.expected
    case Committed => CommittedInv(c, s)
    case Failed(_) => true
  }

  ghost predicate CommittedInv(c: Config, s: Sys) {
    && |s.emitted| == |c.chunks|
    && s.final == Some(s.part)
    && c.hash(s.hashed) == c.expected
  }

  ghost predicate Inv(c: Config, s: Sys) {
    && ValidConfig(c)
    && |s.tasks| == |s.done| == |s.bitmap| == |c.chunks|
    && (forall i :: 0 <= i < |c.chunks| ==> TaskInv(c, s, i))
    && EmitInv(c, s)
    && PhaseInv(c, s)
  }

  lemma SpawnedInv(c: Config, part: Data, sidecar: Option<Data>, flags: seq<bool>, connected: bool)
    requires ValidConfig(c) && |flags| == |c.chunks|
    ensures Inv(c, Spawned(c, part, sidecar, flags, connected))
  {
    UnjoinedBounds(Spawned(c, part, sidecar, flags, connected).tasks);
  }

  /** A write lands at or after the emitted prefix, because its chunk is not done. */
  lemma WriteBeyondPrefix(c: Config, s: Sys, i: nat)
    requires Inv(c, s) && i < |c.chunks| && s.tasks[i].Fetching?
    ensures s.nextOffset <= c.chunks[i].offset <= s.tasks[i].cursor
  {
    assert TaskInv(c, s, i);
    assert !s.done[i] && |s.emitted| <= i;
  }

  /** No action of a task makes it joined, or not joined any more. */
  lemma TaskStepUnjoined(c: Config, s: Sys, i: nat, action: TaskAction)
    requires i < |s.tasks| && i < |c.chunks|
    ensures Unjoined(TaskStep(c, s, i, action).tasks) == Unjoined(s.tasks)
  {
    var after := TaskAfter(c.chunks[i], s.tasks[i], action);
    if s.tasks[i].Joined? {
      assert s.tasks[i := after] == s.tasks;
    } else {
      UnjoinedUpdate(s.tasks, i, after);
    }
  }

  /** The emitted prefix is untouched. */
  lemma TaskStepEmitInv(c: Config, s: Sys, i: nat, action: TaskAction)
    requires Inv(c, s) && i < |c.chunks|
    ensures EmitInv(c, TaskStep(c, s, i, action))
  {
    if s.tasks[i].Fetching? && action.Write? {
      WriteBeyondPrefix(c, s, i);
      WriteAtKeeps(s.part, s.tasks[i].cursor, action.data, s.nextOffset);
    }
  }

  lemma TaskStepInv(c: Config, s: Sys, i: nat, action: TaskAction)
    requires Inv(c, s) && Running(s.phase) && i < |c.chunks|
    ensures Inv(c, TaskStep(c, s, i, action))
  {
    var t := TaskStep(c, s, i, action);
    TaskStepEmitInv(c, s, i, action);
    TaskStepUnjoined(c, s, i, action);
    assert TaskInv(c, s, i);
    forall j | 0 <= j < |c.chunks|
      ensures TaskInv(c, t, j)
    {
      assert TaskInv(c, s, j);
    }
  }

  /** The task facts look only at tasks, flags and the chunk being saved. */
  lemma TaskFrame(c: Config, s: Sys, t: Sys)
    requires |s.tasks| == |s.done| == |s.bitmap| == |c.chunks|
    requires forall i :: 0 <= i < |c.chunks| ==> TaskInv(c, s, i)
    requires t.tasks == s.tasks && t.done == s.done && t.bitmap == s.bitmap
    requires t.phase == s.phase || (!s.phase.Saving? && !t.phase.Saving?)
    ensures forall i :: 0 <= i < |c.chunks| ==> TaskInv(c, t, i)
  {
    forall i | 0 <= i < |c.chunks|
      ensures TaskInv(c, t, i)
    {
      assert TaskInv(c, s, i);
    }
  }

  lemma JoinResumedInv(c: Config, s: Sys, i: nat)
    requires Inv(c, s) && s.phase.Joining? && 0 < s.remaining && i < |c.chunks| && s.tasks[i].Resumed?
    ensures Inv(c, JoinStep(s, i))
  {
    var t := s.(tasks := s.tasks[i := Joined], done := s.done[i := true], phase := Emitting);
    assert TaskInv(c, s, i);
    UnjoinedUpdate(s.tasks, i, Joined);
    forall j | 0 <= j < |c.chunks|
      ensures TaskInv(c, t, j)
    {
      assert TaskInv(c, s, j);
    }
    assert EmitInv(c, t);
  }

  lemma JoinFinishedInv(c: Config, s: Sys, i: nat)
    requires Inv(c, s) && s.phase.Joining? && 0 < s.remaining && i < |c.chunks| && s.tasks[i].Finished?
    ensures Inv(c, JoinStep(s, i))
  {
    var t := s.(tasks := s.tasks[i := Joined], bitmap := s.bitmap[i := true], phase := Saving(i));
    assert TaskInv(c, s, i);
    UnjoinedUpdate(s.tasks, i, Joined);
    forall j | 0 <= j < |c.chunks|
      ensures TaskInv(c, t, j)
    {
      assert TaskInv(c, s, j);
    }
    assert EmitInv(c, t);
  }

  lemma JoinStepInv(c: Config, s: Sys, i: nat)
    requires Inv(c, s)
    ensures Inv(c, JoinStep(s, i))
  {
    var t := JoinStep(s, i);
    if t.tasks == s.tasks {
      TaskFrame(c, s, t);
    } else if s.tasks[i].Resumed? {
      JoinResumedInv(c, s, i);
    } else {
      JoinFinishedInv(c, s, i);
    }
  }

  lemma SavedStepInv(c: Config, s: Sys)
    requires Inv(c, s)
    ensures Inv(c, SavedStep(s))
  {
    if s.phase.Saving? {
      var t := SavedStep(s);
      assert TaskInv(c, s, s.phase.index);
      forall j | 0 <= j < |c.chunks|
        ensures TaskInv(c, t, j)
      {
        assert TaskInv(c, s, j);
      }
    }
  }

  /** While chunks are missing, the division by the chunk size names the first one not emitted. */
  lemma NextIndex(c: Config, s: Sys)
    requires Inv(c, s)
    ensures s.nextOffset < c.total <==> |s.emitted| < |c.chunks|
    ensures |s.emitted| < |c.chunks| ==> s.nextOffset / c.chunkBytes == |s.emitted|
    ensures CanEmit(c, s) <==> |s.emitted| < |c.chunks| && s.done[|s.emitted|]
  {
    if |s.emitted| < |c.chunks| {
      ChunkArithmetic(c.chunks, c.total, c.chunkBytes, |s.emitted|);
    }
  }

  lemma EmitStepInv(c: Config, s: Sys, accepted: bool)
    requires Inv(c, s)
    ensures Inv(c, EmitStep(c, s, accepted))
  {
    var t := EmitStep(c, s, accepted);
    if s.phase.Emitting? && CanEmit(c, s) {
      NextIndex(c, s);
      TaskFrame(c, s, t);
      var k := |s.emitted|;
      assert PrefixEnd(c, k) == c.chunks[k].offset;
      assert PrefixEnd(c, k + 1) == c.chunks[k].offset + c.chunks[k].length;
      if !t.phase.Failed? {
        EmitKeepsEmitInv(c, s, k, accepted);
      }
    }
  }

  lemma EmitKeepsEmitInv(c: Config, s: Sys, k: nat, accepted: bool)
    requires |s.tasks| == |s.done| == |s.bitmap| == |c.chunks| && EmitInv(c, s)
    requires 0 < c.chunkBytes && s.phase.Emitting? && CanEmit(c, s)
    requires k == |s.emitted| < |c.chunks| && s.nextOffset / c.chunkBytes == k
    requires PrefixEnd(c, k + 1) == PrefixEnd(c, k) + c.chunks[k].length <= |s.part|
    ensures EmitInv(c, EmitStep(c, s, accepted))
  {
    var t := EmitStep(c, s, accepted);
    var bytes := s.part[c.chunks[k].offset..c.chunks[k].offset + c.chunks[k].length];
    assert t.hashed == s.hashed + bytes == s.part[..t.nextOffset];
  }

  lemma EmitDoneStepInv(c: Config, s: Sys)
    requires Inv(c, s)
    ensures Inv(c, EmitDoneStep(c, s))
  {
    NextIndex(c, s);
    TaskFrame(c, s, EmitDoneStep(c, s));
  }

  /** When every task has been joined, every chunk has been emitted. */
  lemma AllJoinedAllEmitted(c: Config, s: Sys)
    requires Inv(c, s) && s.phase.Joining? && s.remaining == 0
    ensures |s.emitted| == |c.chunks|
  {
    UnjoinedBounds(s.tasks);
    forall i | 0 <= i < |c.chunks|
      ensures s.done[i]
    {
      assert TaskInv(c, s, i);
    }
  }

  lemma FinishStepInv(c: Config, s: Sys, ok: bool)
    requires Inv(c, s)
    ensures Inv(c, FinishStep(c, s, ok))
  {
    if s.phase.Joining? && s.remaining == 0 {
      AllJoinedAllEmitted(c, s);
    }
    TaskFrame(c, s, FinishStep(c, s, ok));
  }

  /** Sidecar, name and final file can change under a step, and it can give up: nothing else moves. */
  lemma OutsideInv(c: Config, s: Sys, sidecar: Option<Data>, linked: bool)
    requires Inv(c, s)
    ensures Inv(c, s.(sidecar := sidecar, linked := linked))
  {
    TaskFrame(c, s, s.(sidecar := sidecar, linked := linked));
  }

  lemma GiveUpInv(c: Config, s: Sys, e: Event)
    requires Inv(c, s)
    ensures Inv(c, GiveUpStep(s, e))
  {
    TaskFrame(c, s, GiveUpStep(s, e));
  }

  lemma DropSidecarInv(c: Config, s: Sys, ok: bool)
    requires Inv(c, s)
    ensures Inv(c, DropSidecarStep(s, ok))
  {
    TaskFrame(c, s, DropSidecarStep(s, ok));
  }

  lemma StepInv(c: Config, s: Sys, e: Event)
    requires Inv(c, s)
    ensures Inv(c, Step(c, s, e))
  {
    match e
    case Act(i, action) =>
      if Running(s.phase) && i < |c.chunks| {
        TaskStepInv(c, s, i, action);
      }
    case Join(i) => JoinStepInv(c, s, i);
    case Saved => SavedStepInv(c, s);
    case Emit(accepted) => EmitStepInv(c, s, accepted);
    case EmitDone => EmitDoneStepInv(c, s);
    case Finish(ok) => FinishStepInv(c, s, ok);
    case DropSidecar(ok) => DropSidecarInv(c, s, ok);
    case AbortTask => GiveUpInv(c, s, e);
    case IoError => GiveUpInv(c, s, e);
    case SaveBytes(count) => OutsideInv(c, s, SaveBytesStep(c, s, count).sidecar, s.linked);
    case Unlink => OutsideInv(c, s, s.sidecar, false);
    case EvictSidecar => OutsideInv(c, s, None, s.linked);
  }

  lemma {:induction false} RunInv(c: Config, s: Sys, events: seq<Event>)
    requires Inv(c, s)
    ensures Inv(c, Run(c, s, events))
    decreases |events|
  {
    if events != [] {
      StepInv(c, s, events[0]);
      RunInv(c, Step(c, s, events[0]), events[1..]);
    }
  }

  lemma {:induction false} RunAppend(c: Config, s: Sys, a: seq<Event>, b: seq<Event>)
    requires 0 < c.chunkBytes
    ensures Run(c, s, a + b) == Run(c, Run(c, s, a), b)
    decreases |a|
  {
    if a == [] {
      assert a + b == b;
    } else {
      assert (a + b)[1..] == a[1..] + b;
      RunAppend(c, Step(c, s, a[0]), a[1..], b);
    }
  }

  lemma RunPush(c: Config, s: Sys, a: seq<Event>, e: Event)
    requires 0 < c.chunkBytes
    ensures Run(c, s, a + [e]) == Step(c, Run(c, s, a), e)
  {
    RunAppend(c, s, a, [e]);
  }

  // ---------- main results ----------

  lemma StepKeepsPrefix(c: Config, s: Sys, e: Event)
    requires 0 < c.chunkBytes
    ensures s.hashed <= Step(c, s, e).hashed
    ensures s.client.delivered <= Step(c, s, e).client.delivered
  {
    match e
    case Emit(accepted) =>
    case Join(i) =>
    case Finish(ok) =>
    case _ =>
      assert Step(c, s, e).hashed == s.hashed && Step(c, s, e).client == s.client;
  }

  lemma {:induction false} RunKeepsPrefix(c: Config, s: Sys, events: seq<Event>)
    requires 0 < c.chunkBytes
    ensures s.hashed <= Run(c, s, events).hashed
    ensures s.client.delivered <= Run(c, s, events).client.delivered
    decreases |events|
  {
    if events != [] {
      StepKeepsPrefix(c, s, events[0]);
      RunKeepsPrefix(c, Step(c, s, events[0]), events[1..]);
    }
  }

  /**
   Bytes once hashed and emitted are never rewritten: they stay in the part file for good, and what
   the client has received is always a prefix of them.
   */
  lemma EmittedIsFinal(c: Config, s: Sys, events: seq<Event>)
    requires Inv(c, s)
    ensures var t := Run(c, s, events);
            && s.hashed <= t.hashed
            && s.client.delivered <= t.client.delivered <= t.hashed
            && |s.hashed| == s.nextOffset <= |t.part|
            && t.part[..s.nextOffset] == s.hashed
  {
    RunInv(c, s, events);
    RunKeepsPrefix(c, s, events);
    var t := Run(c, s, events);
    assert t.part[..s.nextOffset] == t.hashed[..s.nextOffset];
  }

  /**
   For every interleaving: if the blob is committed, the bytes [0, total) of the final file are the
   bytes hashed, they have the requested digest, and the chunks went out in order, each once.
   */
  lemma CommitIsSound(c: Config, part: Data, sidecar: Option<Data>, flags: seq<bool>, connected: bool,
                      events: seq<Event>)
    requires ValidConfig(c) && |flags| == |c.chunks|
    ensures var t := Run(c, Spawned(c, part, sidecar, flags, connected), events);
            t.phase.Renamed? || t.phase.Committed? ==>
              && t.final.Some? && c.total <= |t.final.value|
              && t.hashed == t.final.value[..c.total]
              && c.hash(t.final.value[..c.total]) == c.expected
              && t.emitted == seq(|c.chunks|, i => i)
              && t.nextOffset == c.total
  {
    SpawnedInv(c, part, sidecar, flags, connected);
    RunInv(c, Spawned(c, part, sidecar, flags, connected), events);
  }

  /**
   Whatever order the tasks complete in, after the last join the whole blob has been emitted; from the first join
   on it has been as soon as every chunk is done, which can be before the last join where chunks were resumed; and
   while chunks are counted as remaining, some task is left to join.
   */
  lemma LastJoinEmitsAll(c: Config, s: Sys)
    requires Inv(c, s) && s.phase.Joining?
    ensures s.remaining == 0 ==> s.nextOffset == c.total && s.emitted == seq(|c.chunks|, i => i)
    ensures s.remaining < |c.chunks| ==> (s.nextOffset == c.total <==> forall i :: 0 <= i < |s.done| ==> s.done[i])
    ensures s.remaining == 0 <==> forall i :: 0 <= i < |s.tasks| ==> s.tasks[i].Joined?
  {
    NextIndex(c, s);
    UnjoinedBounds(s.tasks);
    if s.remaining == 0 {
      AllJoinedAllEmitted(c, s);
    }
  }

  function TwoBytes(hash: Data -> string, expected: string): Config {
    Config(2, 1, [Chunk(0, 0, 1), Chunk(1, 1, 1)], hash, expected)
  }

  lemma ResumedFirst(c: Config, a: Byte, b: Byte) returns (events: seq<Event>, s: Sys)
    requires c == TwoBytes(c.hash, c.expected)
    ensures var s0 := Spawned(c, [a, b], None, [true, true], true);
            && Run(c, s0, events) == s
            && s == s0.(tasks := [Joined, Resumed], phase := Emitting, hashed := [a], nextOffset := 1,
                        emitted := [0], client := Client(true, [a]))
  {
    var s0 := Spawned(c, [a, b], None, [true, true], true);
    assert s0.tasks == [Resumed, Resumed];
    events := [];
    events, s := Then(c, s0, events, s0, Join(0));
    assert s.done == [true, true];
    events, s := Then(c, s0, events, s, Emit(true));
  }

  /** Two one-byte chunks, both trusted: the first join emits both, and a task is left to join. */
  lemma ResumedGoAhead(c: Config, a: Byte, b: Byte) returns (events: seq<Event>)
    requires c == TwoBytes(c.hash, c.expected)
    ensures ValidConfig(c)
    ensures var t := Run(c, Spawned(c, [a, b], None, [true, true], true), events);
            && t.phase == Joining && t.nextOffset == c.total && t.hashed == [a, b]
            && t.remaining == 1 && t.tasks == [Joined, Resumed]
  {
    var s0 := Spawned(c, [a, b], None, [true, true], true);
    var s;
    events, s := ResumedFirst(c, a, b);
    events, s := Then(c, s0, events, s, Emit(true));
    assert s.hashed == [a, b];
    events, s := Then(c, s0, events, s, EmitDone);
  }

  // ---------- retries ----------

  function Fails(i: nat, n: nat): seq<Event> { seq(n, _ => Act(i, Fail)) }

  /** A chunk is tried four times: after three failures it is queued again, after the fourth it is given up. */
  lemma {:induction false} FourAttempts(c: Config, s: Sys, i: nat, n: nat)
    requires 0 < c.chunkBytes && Running(s.phase) && i < |s.tasks| && i < |c.chunks| && s.tasks[i] == Queued(0)
    ensures Run(c, s, Fails(i, n)) == s.(tasks := s.tasks[i := if n <= 3 then Queued(n) else Exhausted])
  {
    if n == 0 {
      assert Fails(i, 0) == [] && s.tasks[i := Queued(0)] == s.tasks;
    } else {
      FourAttempts(c, s, i, n - 1);
      assert Fails(i, n) == Fails(i, n - 1) + [Act(i, Fail)];
      RunPush(c, s, Fails(i, n - 1), Act(i, Fail));
      var t := Run(c, s, Fails(i, n - 1));
      var task := if n <= 3 then Queued(n) else Exhausted;
      assert t.tasks[i := task] == s.tasks[i := task];
    }
  }

  // ---------- bytes past the end ----------

  /** The event writes a piece of a body whose last byte falls past the end of the blob. */
  ghost predicate WritesPast(c: Config, s: Sys, e: Event) {
    && e.Act? && e.action.Write? && e.action.data != []
    && Running(s.phase) && e.task < |s.tasks| && e.task < |c.chunks|
    && s.tasks[e.task].Fetching?
    && s.tasks[e.task].cursor + |e.action.data| > c.total
  }

  /** Some write of the run reaches past the end of the blob. */
  ghost predicate Overruns(c: Config, s: Sys, events: seq<Event>)
    requires 0 < c.chunkBytes
    decreases |events|
  {
    events != [] && (WritesPast(c, s, events[0]) || Overruns(c, Step(c, s, events[0]), events[1..]))
  }

  /** Nothing but such a write makes the part file longer than the blob. */
  lemma LongerByWrite(c: Config, s: Sys, e: Event)
    requires 0 < c.chunkBytes && |s.part| <= c.total
    ensures |Step(c, s, e).part| > c.total <==> WritesPast(c, s, e)
  {
  }

  /** A source that sends no more than it was asked for never causes one. */
  lemma PastIsOverlong(c: Config, s: Sys, e: Event)
    requires Inv(c, s) && WritesPast(c, s, e)
    ensures s.tasks[e.task].cursor + |e.action.data| > c.chunks[e.task].offset + c.chunks[e.task].length
  {
  }

  lemma {:induction false} OverrunIffLonger(c: Config, s: Sys, events: seq<Event>)
    requires 0 < c.chunkBytes && |s.part| <= c.total
    ensures |Run(c, s, events).part| > c.total <==> Overruns(c, s, events)
    decreases |events|
  {
    if events != [] {
      var t := Step(c, s, events[0]);
      LongerByWrite(c, s, events[0]);
      if |t.part| <= c.total {
        OverrunIffLonger(c, t, events[1..]);
      } else {
        PartNeverShrinks(c, t, events[1..]);
      }
    }
  }

  lemma {:induction false} PartNeverShrinks(c: Config, s: Sys, events: seq<Event>)
    requires 0 < c.chunkBytes
    ensures |s.part| <= |Run(c, s, events).part|
    decreases |events|
  {
    if events != [] {
      PartNeverShrinks(c, Step(c, s, events[0]), events[1..]);
    }
  }

  /**
   The committed file is the hashed blob and nothing more exactly when the old part file was no
   longer than the blob and no task wrote past its end.
   */
  lemma CommittedFileExact(c: Config, part: Data, sidecar: Option<Data>, flags: seq<bool>, connected: bool,
                           events: seq<Event>)
    requires ValidConfig(c) && |flags| == |c.chunks|
    requires Run(c, Spawned(c, part, sidecar, flags, connected), events).phase.Committed?
    ensures var s := Spawned(c, part, sidecar, flags, connected);
            Run(c, s, events).final == Some(Run(c, s, events).hashed)
            <==> |part| <= c.total && !Overruns(c, s, events)
  {
    var s := Spawned(c, part, sidecar, flags, connected);
    var t := Run(c, s, events);
    SpawnedInv(c, part, sidecar, flags, connected);
    RunInv(c, s, events);
    PartNeverShrinks(c, s, events);
    if |part| <= c.total {
      OverrunIffLonger(c, s, events);
    }
    assert t.final == Some(t.part) && t.hashed == t.part[..c.total];
    if |t.part| == c.total {
      assert t.part[..c.total] == t.part;
    }
  }

  /** One more event at the end of a run. */
  lemma Then(c: Config, s: Sys, events: seq<Event>, t: Sys, e: Event) returns (more: seq<Event>, u: Sys)
    requires 0 < c.chunkBytes && Run(c, s, events) == t
    ensures more == events + [e] && u == Step(c, t, e) && Run(c, s, more) == u
  {
    more, u := events + [e], Step(c, t, e);
    RunPush(c, s, events, e);
  }

  function OneByte(hash: Data -> string): Config {
    Config(1, 1, [Chunk(0, 0, 1)], hash, hash([7]))
  }

  /** A two-byte answer to a one-byte request, then a retry with the right byte. */
  lemma OverlongThenRight(c: Config, s0: Sys) returns (events: seq<Event>, s: Sys)
    requires c == OneByte(c.hash) && s0 == Spawned(c, [], None, [false], true)
    ensures Run(c, s0, events) == s && s == s0.(tasks := [Finished], part := [7, 9])
  {
    assert s0.tasks == [Queued(0)];
    events := [];
    events, s := Then(c, s0, events, s0, Act(0, Start));
    events, s := Then(c, s0, events, s, Act(0, Write([7, 9])));
    assert s.part == [7, 9];
    events, s := Then(c, s0, events, s, Act(0, EndBody));
    assert s.tasks == [Queued(1)];
    events, s := Then(c, s0, events, s, Act(0, Start));
    events, s := Then(c, s0, events, s, Act(0, Write([7])));
    assert s.part == [7, 9];
    events, s := Then(c, s0, events, s, Act(0, EndBody));
    assert s.tasks == [Finished];
  }

  /**
   It does happen: the length check fails the first attempt, the second sends the right byte, and
   the file committed under the digest of that byte still has both.
   */
  lemma OverlongBodyIsCommitted(hash: Data -> string) returns (c: Config, events: seq<Event>)
    ensures ValidConfig(c) && c.total == 1 && c.hash == hash && c.expected == hash([7])
    ensures var t := Run(c, Spawned(c, [], None, [false], true), events);
            t.phase.Committed? && t.hashed == [7] && t.final == Some([7, 9])
  {
    c := OneByte(hash);
    var s0 := Spawned(c, [], None, [false], true);
    var s;
    events, s := OverlongThenRight(c, s0);
    events, s := Then(c, s0, events, s, Join(0));
    events, s := Then(c, s0, events, s, Saved);
    events, s := Then(c, s0, events, s, Emit(true));
    assert s.hashed == [7];
    events, s := Then(c, s0, events, s, EmitDone);
    events, s := Then(c, s0, events, s, Finish(true));
    events, s := Then(c, s0, events, s, DropSidecar(true));
  }

  // ---------- the client ----------

  /** Everything but the client's side. */
  function WithoutClient(s: Sys): Sys {
    s.(client := Client(false, []))
  }

  /** The same event with another answer of the client. */
  ghost predicate SameButClient(a: Event, b: Event) {
    a == b || (a.Emit? && b.Emit?)
  }

  lemma EmitWithoutClient(c: Config, s: Sys, client: Client, a: bool, b: bool)
    requires 0 < c.chunkBytes
    ensures WithoutClient(EmitStep(c, s, a)) == WithoutClient(EmitStep(c, s.(client := client), b))
  {
    assert CanEmit(c, s) == CanEmit(c, s.(client := client));
  }

  lemma StepWithoutClient(c: Config, s: Sys, client: Client, a: Event, b: Event)
    requires 0 < c.chunkBytes && SameButClient(a, b)
    ensures WithoutClient(Step(c, s, a)) == WithoutClient(Step(c, s.(client := client), b))
  {
    if a.Emit? {
      EmitWithoutClient(c, s, client, a.accepted, b.accepted);
    } else if a.EmitDone? {
      assert CanEmit(c, s) == CanEmit(c, s.(client := client));
    } else {
      assert Step(c, s.(client := client), a) == Step(c, s, a).(client := client);
    }
  }

  /** Part file, sidecar, hash, commit decision: none depends on whether or when the client leaves. */
  lemma {:induction false} ClientIndependence(c: Config, s: Sys, t: Sys, a: seq<Event>, b: seq<Event>)
    requires 0 < c.chunkBytes && WithoutClient(s) == WithoutClient(t)
    requires |a| == |b| && forall k :: 0 <= k < |a| ==> SameButClient(a[k], b[k])
    ensures WithoutClient(Run(c, s, a)) == WithoutClient(Run(c, t, b))
    decreases |a|
  {
    if a != [] {
      assert t == s.(client := t.client);
      StepWithoutClient(c, s, t.client, a[0], b[0]);
      ClientIndependence(c, Step(c, s, a[0]), Step(c, t, b[0]), a[1..], b[1..]);
    }
  }
}
