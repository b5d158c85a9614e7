/**
 The collector loop of `download` on its own variables (src/chunks.rs:213-377), interleaved with
 whatever the chunk tasks and the surroundings do while it waits. Each run of the loop is a run of
 the step system in `Download`, so every result proved there holds of it.
 */
module Downloader {
  import opened Wrappers
  import opened Bytes
  import opened Chunking
  import opened Download
  import opened Schedule

  /** What `join_next` gives: nothing yet, a chunk on disk, a task out of retries, or an aborted one. */
  datatype JoinResult = NotYet | OnDisk | GaveUp | Aborted

  function PhaseAfter(joined: JoinResult): Phase {
    match joined
    case NotYet => Joining
    case OnDisk => Emitting
    case GaveUp => Failed(RetriesExhausted)
    case Aborted => Failed(TaskAborted)
  }

  /** None of the events is an action of task `i`. */
  ghost predicate Spares(events: seq<Event>, i: nat) {
    forall e :: e in events && e.Act? ==> e.task != i
  }

  /** What `fetch_chunk` does to the task's chunk: each piece of the body written, other tasks before each. */
  ghost function FetchEvents(i: nat, body: seq<Data>, between: seq<seq<Event>>, n: nat): seq<Event>
    requires n <= |body| == |between|
  {
    if n == 0 then []
    else FetchEvents(i, body, between, n - 1) + (between[n - 1] + [Act(i, Write(body[n - 1]))])
  }

  class Collector {
    const config: Config
    var part: Data
    var linked: bool
    var sidecar: Option<Data>
    var final: Option<Data>
    var tasks: seq<Task>
    var done: seq<bool>
    var currentBitmap: seq<bool>
    var chunksRemaining: nat
    var nextOffset: nat
    var hashed: Data
    var client: Client
    ghost var emitted: seq<nat>
    ghost var phase: Phase

    ghost function State(): Sys
      reads this
    {
      Sys(part, linked, sidecar, final, tasks, done, currentBitmap, chunksRemaining, nextOffset, emitted, hashed,
          client, phase)
    }

    /** Part file and flags as found on disk; one task per chunk is spawned, the done ones resumed. */
    constructor (config: Config, part: Data, sidecar: Option<Data>, flags: seq<bool>, connected: bool)
      requires ValidConfig(config) && |flags| == |config.chunks|
      ensures this.config == config
      ensures State() == Spawned(config, part, sidecar, flags, connected) && Inv(config, State())
    {
      this.config := config;
      this.part, this.linked, this.sidecar, this.final := part, true, sidecar, None;
      this.tasks := seq(|flags|, i requires 0 <= i < |flags| => if flags[i] then Resumed else Queued(0));
      this.done := flags;
      this.currentBitmap := flags;
      this.chunksRemaining, this.nextOffset, this.hashed := |flags|, 0, [];
      this.client := Client(connected, []);
      this.emitted, this.phase := [], Joining;
      new;
      SpawnedInv(config, part, sidecar, flags, connected);
    }

    /** One task and one flag per chunk. */
    ghost predicate Sized()
      reads this
    {
      0 < config.chunkBytes && |tasks| == |done| == |currentBitmap| == |config.chunks|
    }

    /** One action of a task or of the surroundings. */
    method Perform(e: Event)
      requires Sized() && Running(phase) && Outside(e)
      modifies this`part, this`linked, this`sidecar, this`tasks
      ensures State() == Step(config, old(State()), e) && Sized()
    {
      match e {
        case Act(i, action) =>
          if i < |tasks| {
            part := PartAfter(part, tasks[i], action);
            tasks := tasks[i := TaskAfter(config.chunks[i], tasks[i], action)];
          }
        case Unlink => linked := false;
        case EvictSidecar => sidecar := None;
      }
    }

    /** Tasks write, finish and retry, files may be deleted, while the collector waits. */
    method Await(events: seq<Event>)
      requires Sized() && Running(phase)
      requires forall e :: e in events ==> Outside(e)
      modifies this`part, this`linked, this`sidecar, this`tasks
      ensures State() == Run(config, old(State()), events) && Sized()
      ensures forall i :: 0 <= i < |tasks| && Spares(events, i) ==> tasks[i] == old(tasks)[i]
    {
      var n := 0;
      assert events[..0] == [];
      while n < |events|
        invariant 0 <= n <= |events| && |tasks| == old(|tasks|)
        invariant State() == Run(config, old(State()), events[..n]) && Sized()
        invariant forall i :: 0 <= i < |tasks| && Spares(events, i) ==> tasks[i] == old(tasks)[i]
      {
        assert events[n] in events;
        Perform(events[n]);
        RunPush(config, old(State()), events[..n], events[n]);
        assert events[..n + 1] == events[..n] + [events[n]];
        n := n + 1;
      }
      assert events[..n] == events;
    }

    /**
     `fetch_chunk` of task `i` after a good status: seek to the cursor and write each piece of the body, other
     tasks in between, then compare the length; `broken` when the stream or the disk fails after these pieces.
     The bytes go where the method's own cursor says, and that is the step system's write.
     */
    method FetchChunk(i: nat, body: seq<Data>, between: seq<seq<Event>>, broken: bool)
      returns (ok: bool)
      requires Sized() && Running(phase) && i < |tasks| && |between| == |body|
      requires tasks[i].Fetching? && tasks[i].cursor == config.chunks[i].offset
      requires forall es :: es in between ==> Spares(es, i) && forall e :: e in es ==> Outside(e)
      modifies this`part, this`linked, this`sidecar, this`tasks
      ensures State() == Step(config, Run(config, old(State()), FetchEvents(i, body, between, |body|)),
                              Act(i, if broken then Fail else EndBody))
      ensures Sized()
      ensures ok <==> !broken && |Concat(body)| == config.chunks[i].length
      ensures tasks[i] == if ok then Finished else Retry(old(tasks[i]).attempt)
    {
      var attempt := tasks[i].attempt;
      var cursor: nat, localTotal: nat, n := config.chunks[i].offset, 0, 0;
      while n < |body|
        invariant 0 <= n <= |body| && Sized()
        invariant State() == Run(config, old(State()), FetchEvents(i, body, between, n))
        invariant tasks[i] == Fetching(attempt, cursor)
        invariant localTotal == |Concat(body[..n])| && cursor == config.chunks[i].offset + localTotal
      {
        assert between[n] in between;
        AwaitPiece(i, attempt, cursor, body[n], between[n]);
        RunAppend(config, old(State()), FetchEvents(i, body, between, n), between[n] + [Act(i, Write(body[n]))]);
        ConcatPush(body[..n], body[n]);
        assert body[..n + 1] == body[..n] + [body[n]];
        cursor := cursor + |body[n]|;
        localTotal := localTotal + |body[n]|;
        n := n + 1;
      }
      assert body[..n] == body;
      ok := !broken && localTotal == config.chunks[i].length;
      EndAttempt(i, attempt, cursor, broken, ok);
    }

    /** While the piece arrives and the file's lock is awaited, other tasks go on. */
    method AwaitPiece(i: nat, attempt: nat, cursor: nat, data: Data, events: seq<Event>)
      requires Sized() && Running(phase) && i < |tasks| && tasks[i] == Fetching(attempt, cursor)
      requires Spares(events, i) && forall e :: e in events ==> Outside(e)
      modifies this`part, this`linked, this`sidecar, this`tasks
      ensures State() == Run(config, old(State()), events + [Act(i, Write(data))]) && Sized()
      ensures tasks[i] == Fetching(attempt, cursor + |data|)
    {
      Await(events);
      RunPush(config, old(State()), events, Act(i, Write(data)));
      WritePiece(i, attempt, cursor, data);
    }

    /** Seek to the caller's cursor and write there: the step system's write, if that cursor is the task's. */
    method WritePiece(i: nat, attempt: nat, cursor: nat, data: Data)
      requires Sized() && Running(phase) && i < |tasks| && tasks[i] == Fetching(attempt, cursor)
      modifies this`part, this`tasks
      ensures State() == Step(config, old(State()), Act(i, Write(data))) && Sized()
      ensures part == WriteAt(old(part), cursor, data) && tasks[i] == Fetching(attempt, cursor + |data|)
    {
      part := WriteAt(part, cursor, data);
      tasks := tasks[i := Fetching(attempt, cursor + |data|)];
    }

    /** The attempt is over: the task has its chunk, or tries again while it may. */
    method EndAttempt(i: nat, attempt: nat, cursor: nat, broken: bool, ok: bool)
      requires Sized() && Running(phase) && i < |tasks| && tasks[i] == Fetching(attempt, cursor)
      requires ok <==> !broken && cursor == config.chunks[i].offset + config.chunks[i].length
      modifies this`tasks
      ensures State() == Step(config, old(State()), Act(i, if broken then Fail else EndBody)) && Sized()
      ensures tasks[i] == if ok then Finished else Retry(attempt)
    {
      tasks := tasks[i := if ok then Finished else Retry(attempt)];
    }

    /** Read the next chunk back, hash it, offer it to the client. */
    method EmitOne(nextIndex: nat, accepted: bool) returns (read: bool)
      requires Sized() && phase == Emitting && CanEmit(config, State()) && nextIndex == nextOffset / config.chunkBytes
      modifies this`nextOffset, this`hashed, this`client, this`emitted, this`phase
      ensures State() == Step(config, old(State()), Emit(accepted)) && Sized()
      ensures phase == if read then Emitting else Failed(IoFailed)
    {
      var chunk := config.chunks[nextIndex];
      if chunk.offset + chunk.length > |part| {
        phase := Failed(IoFailed);
        return false;
      }
      var bytes := part[chunk.offset..chunk.offset + chunk.length];
      hashed := hashed + bytes;
      nextOffset := nextOffset + |bytes|;
      emitted := emitted + [nextIndex];
      if client.connected {
        if accepted {
          client := client.(delivered := client.delivered + bytes);
        } else {
          client := client.(connected := false);
        }
      }
      return true;
    }

    /** One turn of the emission loop: wait for the file, read, hash, offer. */
    method ReadBack(nextIndex: nat, tick: Tick) returns (read: bool)
      requires Sized() && phase == Emitting && CanEmit(config, State()) && nextIndex == nextOffset / config.chunkBytes
      requires forall e :: e in tick.background ==> Outside(e)
      modifies this`part, this`linked, this`sidecar, this`tasks
      modifies this`nextOffset, this`hashed, this`client, this`emitted, this`phase
      ensures State() == PlayRead(config, old(State()), tick) && Sized()
      ensures phase == if read then Emitting else Failed(IoFailed)
    {
      Await(tick.background);
      if !tick.ok {
        phase := Failed(IoFailed);
        return false;
      }
      read := EmitOne(nextIndex, tick.accepted);
    }

    method EmitTurn(schedule: seq<Tick>, now: nat, ghost answer: Played) returns (read: bool)
      requires Sized() && phase == Emitting && CanEmit(config, State())
      requires now < |schedule| && AllOutside(schedule) && answer == PlayEmit(config, State(), schedule[now..])
      modifies this`part, this`linked, this`sidecar, this`tasks
      modifies this`nextOffset, this`hashed, this`client, this`emitted, this`phase
      ensures Sized() && phase == if read then Emitting else Failed(IoFailed)
      ensures read ==> answer == PlayEmit(config, State(), schedule[now + 1..])
      ensures !read ==> answer == Played(State(), schedule[now + 1..], Some(Failure(IoFailed)))
    {
      PlayEmitTick(config, State(), schedule, now);
      assert schedule[now] in schedule;
      read := ReadBack(nextOffset / config.chunkBytes, schedule[now]);
    }

    /**
     Emit the chunks that have become contiguous; tasks go on between two chunks. Stops early when
     the schedule runs out or a read fails. Then one task less is to be joined.
     */
    method EmitReady(schedule: seq<Tick>, now: nat) returns (later: nat, outcome: Option<Outcome>)
      requires Sized() && phase == Emitting && chunksRemaining > 0 && now <= |schedule| && AllOutside(schedule)
      modifies this
      ensures now <= later <= |schedule| && Sized()
      ensures Played(State(), schedule[later..], outcome) == PlayEmit(config, old(State()), schedule[now..])
      ensures outcome in {None, Some(StillWaiting), Some(Failure(IoFailed))}
      ensures phase ==
        if outcome == None then Joining else if outcome == Some(StillWaiting) then Emitting else Failed(IoFailed)
    {
      later, outcome := EmitLoop(schedule, now);
      PlayEmitEnds(config, State(), schedule[later..]);
      if outcome == None {
        chunksRemaining, phase := chunksRemaining - 1, Joining;
      }
    }

    method EmitLoop(schedule: seq<Tick>, now: nat) returns (later: nat, outcome: Option<Outcome>)
      requires Sized() && phase == Emitting && now <= |schedule| && AllOutside(schedule)
      modifies this
      ensures now <= later <= |schedule| && Sized() && chunksRemaining == old(chunksRemaining)
      ensures outcome in {None, Some(StillWaiting), Some(Failure(IoFailed))}
      ensures phase == if outcome == Some(Failure(IoFailed)) then Failed(IoFailed) else Emitting
      ensures outcome == None ==> !CanEmit(config, State())
      ensures outcome == Some(StillWaiting) ==> CanEmit(config, State()) && later == |schedule|
      ensures PlayEmit(config, old(State()), schedule[now..]) ==
        if outcome == Some(Failure(IoFailed)) then Played(State(), schedule[later..], outcome)
        else PlayEmit(config, State(), schedule[later..])
    {
      later, outcome := now, None;
      ghost var goal := PlayEmit(config, State(), schedule[now..]);
      ghost var answer := goal;
      var ready := Ready();
      while ready
        invariant now <= later <= |schedule| && Sized() && phase == Emitting && outcome == None
        invariant (ready <==> CanEmit(config, State())) && chunksRemaining == old(chunksRemaining)
        invariant answer == goal && answer == PlayEmit(config, State(), schedule[later..])
        decreases |schedule| - later
      {
        if later == |schedule| {
          return later, Some(StillWaiting);
        }
        var read := EmitTurn(schedule, later, answer);
        later := later + 1;
        if !read {
          return later, Some(Failure(IoFailed));
        }
        ready := Ready();
      }
    }

    /** Bytes are missing, and the next chunk is done. */
    method Ready() returns (ready: bool)
      requires Sized()
      ensures ready <==> CanEmit(config, State())
    {
      if nextOffset >= config.total {
        return false;
      }
      var nextIndex := nextOffset / config.chunkBytes;
      ready := nextIndex < |config.chunks| && done[nextIndex];
    }

    /** `save_bitmap`, of which only the first `written` bytes may reach the disk; errors are ignored. */
    method Save(i: nat, written: nat)
      requires Sized() && phase == Saving(i) && i < |done|
      modifies this`sidecar, this`done, this`phase
      ensures State() == Step(config, Step(config, old(State()), SaveBytes(written)), Saved) && Sized()
      ensures phase == Emitting && done == old(done)[i := true]
      ensures sidecar == if written <= |SidecarBytes(config.chunkBytes, currentBitmap)|
        then Some(SidecarBytes(config.chunkBytes, currentBitmap)[..written]) else old(sidecar)
    {
      var bytes := SidecarBytes(config.chunkBytes, currentBitmap);
      if written <= |bytes| {
        sidecar := Some(bytes[..written]);
      }
      done, phase := done[i := true], Emitting;
    }

    /**
     One result of `join_next`: a fetched chunk is recorded in the sidecar, with all that were recorded before it,
     then counts as done.
     */
    method JoinOne(tick: Tick) returns (joined: JoinResult)
      requires Sized() && phase == Joining && chunksRemaining > 0
      modifies this`tasks, this`done, this`currentBitmap, this`sidecar, this`phase
      ensures State() == PlayJoined(config, old(State()), tick) && Sized()
      ensures phase == PhaseAfter(joined)
      ensures joined.Aborted? <==> tick.aborted
      ensures !tick.aborted ==>
        (joined.NotYet? <==> tick.pick >= |tasks| || !(old(tasks)[tick.pick] in {Exhausted, Finished, Resumed}))
      ensures joined.OnDisk? ==> tasks == old(tasks)[tick.pick := Joined] && done == old(done)[tick.pick := true]
      ensures joined.OnDisk? && old(tasks)[tick.pick].Finished? ==>
        var bytes := SidecarBytes(config.chunkBytes, old(currentBitmap)[tick.pick := true]);
        sidecar == if tick.written <= |bytes| then Some(bytes[..tick.written]) else old(sidecar)
    {
      var i := tick.pick;
      if tick.aborted {
        phase := Failed(TaskAborted);
        return Aborted;
      }
      if |tasks| <= i {
        return NotYet;
      }
      match tasks[i] {
        case Exhausted =>
          phase := Failed(RetriesExhausted);
          joined := GaveUp;
        case Finished =>
          tasks, currentBitmap, phase := tasks[i := Joined], currentBitmap[i := true], Saving(i);
          Save(i, tick.written);
          joined := OnDisk;
        case Resumed =>
          tasks, done, phase := tasks[i := Joined], done[i := true], Emitting;
          joined := OnDisk;
        case _ =>
          joined := NotYet;
      }
    }

    /**
     `download` from the first `join_next` to the removal of the sidecar: what it does is what the schedule makes of
     the state, and so a run.
     */
    method Collect(schedule: seq<Tick>) returns (outcome: Outcome, ghost trace: seq<Event>)
      requires Inv(config, State()) && phase == Joining && AllOutside(schedule)
      modifies this
      ensures (State(), outcome) == Play(config, old(State()), schedule)
      ensures State() == Run(config, old(State()), trace) && Inv(config, State())
      ensures outcome.Ok? <==> phase == Committed
      ensures outcome.Failure? ==> phase == Failed(outcome.why)
      ensures outcome.StillWaiting? <==> Running(phase)
      ensures outcome.Ok? ==>
        && final.Some? && config.total <= |final.value|
        && hashed == final.value[..config.total]
        && config.hash(hashed) == config.expected
    {
      ghost var s := State();
      outcome := CollectLoop(schedule);
      trace := PlayIsRun(config, s, schedule);
      RunInv(config, s, trace);
    }

    /** Wait for the tasks, then take one result of `join_next`. */
    method AwaitJoin(tick: Tick) returns (joined: JoinResult)
      requires Sized() && phase == Joining && chunksRemaining > 0
      requires forall e :: e in tick.background ==> Outside(e)
      modifies this`part, this`linked, this`tasks, this`done, this`currentBitmap, this`sidecar, this`phase
      ensures State() == PlayJoin(config, old(State()), tick) && Sized()
      ensures phase == PhaseAfter(joined)
    {
      Await(tick.background);
      joined := JoinOne(tick);
    }

    /** One iteration of the loop: wait, join one task, emit what has become contiguous. */
    method CollectOne(schedule: seq<Tick>, now: nat) returns (later: nat, outcome: Option<Outcome>)
      requires Sized() && phase == Joining && chunksRemaining > 0 && now < |schedule| && AllOutside(schedule)
      modifies this
      ensures now < later <= |schedule| && Sized()
      ensures Played(State(), schedule[later..], outcome) == PlayRound(config, old(State()), schedule[now..])
      ensures outcome == None ==> phase == Joining
      ensures outcome.Some? ==>
        if phase == Emitting then outcome.value.StillWaiting?
        else outcome.value.Failure? && phase == Failed(outcome.value.why)
    {
      assert schedule[now] in schedule;
      assert schedule[now..][0] == schedule[now] && schedule[now..][1..] == schedule[now + 1..];
      var joined := AwaitJoin(schedule[now]);
      later, outcome := AfterJoin(joined, schedule, now + 1);
    }

    method AfterJoin(joined: JoinResult, schedule: seq<Tick>, now: nat) returns (later: nat, outcome: Option<Outcome>)
      requires Sized() && phase == PhaseAfter(joined) && chunksRemaining > 0
      requires now <= |schedule| && AllOutside(schedule)
      modifies this
      ensures now <= later <= |schedule| && Sized()
      ensures Played(State(), schedule[later..], outcome) == PlayAfter(config, old(State()), schedule[now..])
      ensures outcome == None ==> phase == Joining
      ensures outcome.Some? ==>
        if phase == Emitting then outcome.value.StillWaiting?
        else outcome.value.Failure? && phase == Failed(outcome.value.why)
    {
      later, outcome := now, None;
      match joined {
        case NotYet =>
        case GaveUp =>
          outcome := Some(Failure(RetriesExhausted));
        case Aborted =>
          outcome := Some(Failure(TaskAborted));
        case OnDisk =>
          later, outcome := EmitReady(schedule, later);
      }
    }

    method CollectLoop(schedule: seq<Tick>) returns (outcome: Outcome)
      requires Sized() && phase == Joining && AllOutside(schedule)
      modifies this
      ensures (State(), outcome) == Play(config, old(State()), schedule)
      ensures outcome.Ok? <==> phase == Committed
      ensures outcome.Failure? ==> phase == Failed(outcome.why)
      ensures outcome.StillWaiting? <==> Running(phase)
    {
      var now := 0;
      ghost var goal := Play(config, State(), schedule);
      assert schedule[now..] == schedule;
      while chunksRemaining > 0
        invariant 0 <= now <= |schedule| && Sized() && phase == Joining
        invariant goal == Play(config, State(), schedule[now..])
        decreases |schedule| - now
      {
        if now == |schedule| {
          return StillWaiting;
        }
        var stop;
        now, stop := CollectOne(schedule, now);
        if stop.Some? {
          return stop.value;
        }
      }
      if |schedule| < now + 3 {
        return StillWaiting;
      }
      assert schedule[now] in schedule && schedule[now + 1] in schedule && schedule[now + 2] in schedule;
      outcome := Commit(schedule[now], schedule[now + 1], schedule[now + 2]);
    }

    /**
     Flush; compare digests and rename the part file or drop it; drop the sidecar. Before each of the three,
     files may be deleted from outside.
     */
    method Commit(flush: Tick, rename: Tick, drop: Tick) returns (outcome: Outcome)
      requires Sized() && phase == Joining && chunksRemaining == 0
      requires forall e :: e in flush.background || e in rename.background || e in drop.background ==> Outside(e)
      modifies this`part, this`linked, this`sidecar, this`tasks, this`final, this`phase
      ensures (State(), outcome) == PlayClose(config, old(State()), flush, rename, drop)
      ensures outcome.Ok? <==> phase == Committed
      ensures outcome.Ok? ==> flush.ok && rename.ok && config.hash(hashed) == config.expected && final == Some(part)
      ensures !outcome.Ok? ==>
        phase == Failed(if flush.ok && config.hash(hashed) != config.expected then DigestMismatch else IoFailed)
        && outcome == Failure(phase.why) && final == old(final)
      ensures phase == Failed(DigestMismatch) && rename.ok ==> !linked
      ensures phase != Failed(IoFailed) && drop.ok ==> sidecar == None
    {
      Await(flush.background);
      if !flush.ok {
        phase := Failed(IoFailed);
        return Failure(IoFailed);
      }
      outcome := Close(rename, drop);
    }

    /** From the flushed part file on. */
    method Close(rename: Tick, drop: Tick) returns (outcome: Outcome)
      requires Sized() && phase == Joining && chunksRemaining == 0
      requires forall e :: e in rename.background || e in drop.background ==> Outside(e)
      modifies this`part, this`linked, this`sidecar, this`tasks, this`final, this`phase
      ensures (State(), outcome) == PlayRename(config, old(State()), rename, drop)
      ensures outcome.Ok? <==> phase == Committed
      ensures outcome.Ok? ==> rename.ok && config.hash(hashed) == config.expected && final == Some(part)
      ensures !outcome.Ok? ==>
        phase == Failed(if config.hash(hashed) != config.expected then DigestMismatch else IoFailed)
        && outcome == Failure(phase.why) && final == old(final)
      ensures phase == Failed(DigestMismatch) && rename.ok ==> !linked
      ensures phase != Failed(IoFailed) && drop.ok ==> sidecar == None
    {
      outcome := AwaitConclude(rename);
      if outcome != Failure(IoFailed) {
        DropSidecar(drop, outcome);
      }
    }

    method AwaitConclude(rename: Tick) returns (outcome: Outcome)
      requires Sized() && phase == Joining && chunksRemaining == 0
      requires forall e :: e in rename.background ==> Outside(e)
      modifies this`part, this`linked, this`sidecar, this`tasks, this`final, this`phase
      ensures Sized() && State() == Step(config, Run(config, old(State()), rename.background), Finish(rename.ok))
      ensures outcome in {Outcome.Ok, Failure(DigestMismatch), Failure(IoFailed)}
      ensures outcome == Failure(DigestMismatch) <==> config.hash(hashed) != config.expected
      ensures outcome.Ok? ==> rename.ok && final == Some(part)
      ensures !outcome.Ok? ==> final == old(final)
      ensures phase ==
        if outcome.Ok? then Renamed else if outcome.why.DigestMismatch? then Rejected else Failed(IoFailed)
      ensures rename.ok && outcome != Failure(IoFailed) ==> !linked
    {
      Await(rename.background);
      outcome := Conclude(rename.ok);
    }

    /** Compare digests, then rename the part file, or remove it. */
    method Conclude(ok: bool) returns (outcome: Outcome)
      requires 0 < config.chunkBytes && phase == Joining && chunksRemaining == 0
      modifies this`linked, this`final, this`phase
      ensures State() == Step(config, old(State()), Finish(ok))
      ensures outcome ==
        if config.hash(hashed) != config.expected then Failure(DigestMismatch)
        else if ok && old(linked) then Outcome.Ok else Failure(IoFailed)
      ensures phase ==
        if outcome.Ok? then Renamed else if outcome.why.DigestMismatch? then Rejected else Failed(IoFailed)
      ensures ok && outcome != Failure(IoFailed) ==> !linked
    {
      if config.hash(hashed) != config.expected {
        linked, phase := linked && !ok, Rejected;
        outcome := Failure(DigestMismatch);
      } else if ok && linked {
        final, linked, phase := Some(part), false, Renamed;
        outcome := Outcome.Ok;
      } else {
        phase := Failed(IoFailed);
        outcome := Failure(IoFailed);
      }
    }

    /** The removal of the sidecar, its failure ignored. */
    method DropSidecar(drop: Tick, outcome: Outcome)
      requires Sized() && (if outcome.Ok? then phase == Renamed else phase == Rejected)
      requires forall e :: e in drop.background ==> Outside(e)
      modifies this`linked, this`sidecar, this`phase
      ensures State() == PlayDrop(config, old(State()), drop)
      ensures phase == (if outcome.Ok? then Committed else Failed(DigestMismatch))
      ensures (!old(linked) ==> !linked) && (drop.ok ==> sidecar == None)
    {
      AwaitQuiet(drop.background);
      if drop.ok {
        sidecar := None;
      }
      phase := if outcome.Ok? then Committed else Failed(DigestMismatch);
    }

    /** With the part file renamed or dropped, tasks do nothing any more; files may still be deleted. */
    method AwaitQuiet(events: seq<Event>)
      requires 0 < config.chunkBytes && !Running(phase)
      requires forall e :: e in events ==> Outside(e)
      modifies this`linked, this`sidecar
      ensures State() == Run(config, old(State()), events)
      ensures !old(linked) ==> !linked
    {
      var n := 0;
      assert events[..0] == [];
      while n < |events|
        invariant 0 <= n <= |events|
        invariant State() == Run(config, old(State()), events[..n])
        invariant !old(linked) ==> !linked
      {
        assert events[n] in events;
        RunPush(config, old(State()), events[..n], events[n]);
        match events[n] {
          case Unlink => linked := false;
          case EvictSidecar => sidecar := None;
          case Act(_, _) =>
        }
        assert events[..n + 1] == events[..n] + [events[n]];
        n := n + 1;
      }
      assert events[..n] == events;
    }
  }
}
