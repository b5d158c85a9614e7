/**
 Progress of the chunked downloader: no state of an honest attempt is stuck that could still finish. From which
 states can the blob still be committed, given that the sources answer?
 */
module Progress {
  import opened Wrappers
  import opened Bytes
  import opened Chunking
  import opened Download
  import opened Resume
  import opened History
  import Schedule

  /** Some honest run goes from `s` to `t`. */
  ghost predicate Reaches(c: Config, blob: Data, s: Sys, t: Sys)
    requires 0 < c.chunkBytes
  {
    exists events :: Leads(c, blob, s, events, t)
  }

  ghost predicate Leads(c: Config, blob: Data, s: Sys, events: seq<Event>, t: Sys)
    requires 0 < c.chunkBytes
  {
    Run(c, s, events) == t && HonestRun(c, blob, s, events)
  }

  lemma {:induction false} LeadsOn(c: Config, blob: Data, s: Sys, a: seq<Event>, t: Sys, b: seq<Event>, u: Sys)
    requires 0 < c.chunkBytes && Leads(c, blob, s, a, t) && Leads(c, blob, t, b, u)
    ensures Leads(c, blob, s, a + b, u)
    decreases |a|
  {
    if a == [] {
      assert a + b == b;
    } else {
      assert (a + b)[0] == a[0] && (a + b)[1..] == a[1..] + b;
      LeadsOn(c, blob, Step(c, s, a[0]), a[1..], t, b, u);
    }
  }

  lemma ReachesOn(c: Config, blob: Data, s: Sys, t: Sys, u: Sys)
    requires 0 < c.chunkBytes && Reaches(c, blob, s, t) && Reaches(c, blob, t, u)
    ensures Reaches(c, blob, s, u)
  {
    var a :| Leads(c, blob, s, a, t);
    var b :| Leads(c, blob, t, b, u);
    LeadsOn(c, blob, s, a, t, b, u);
  }

  lemma ReachesSelf(c: Config, blob: Data, s: Sys)
    requires 0 < c.chunkBytes
    ensures Reaches(c, blob, s, s)
  {
    assert Leads(c, blob, s, [], s);
  }

  lemma ReachesNext(c: Config, blob: Data, s: Sys, e: Event)
    requires 0 < c.chunkBytes && HonestEvent(c, blob, s, e)
    ensures Leads(c, blob, s, [e], Step(c, s, e)) && Reaches(c, blob, s, Step(c, s, e))
  {
    var t := Step(c, s, e);
    assert [e][1..] == [] && Run(c, t, []) == t && HonestRun(c, blob, t, []);
    assert Leads(c, blob, s, [e], t);
  }

  ghost predicate NoneExhausted(s: Sys) {
    forall i :: 0 <= i < |s.tasks| ==> !s.tasks[i].Exhausted?
  }

  /** What can still be committed: running, the part file in place, no task out of retries. */
  ghost predicate Live(c: Config, blob: Data, s: Sys) {
    Faithful(c, blob, s) && Running(s.phase) && s.linked && NoneExhausted(s)
  }

  // ---------- one task to its end ----------

  lemma StartTask(c: Config, blob: Data, s: Sys, i: nat) returns (t: Sys)
    requires Live(c, blob, s) && i < |s.tasks| && s.tasks[i].Queued?
    ensures Leads(c, blob, s, [Act(i, Start)], t) && Live(c, blob, t)
    ensures t == s.(tasks := s.tasks[i := Fetching(s.tasks[i].attempt, c.chunks[i].offset)])
  {
    t := Step(c, s, Act(i, Start));
    StepFaithful(c, blob, s, Act(i, Start));
    ReachesNext(c, blob, s, Act(i, Start));
  }

  /** The rest of the body, in one piece. */
  lemma WriteRest(c: Config, blob: Data, s: Sys, i: nat) returns (e: Event, t: Sys)
    requires Live(c, blob, s) && i < |s.tasks| && s.tasks[i].Fetching?
    ensures e.Act? && Leads(c, blob, s, [e], t) && Live(c, blob, t)
    ensures t.tasks == s.tasks[i := Fetching(s.tasks[i].attempt, c.chunks[i].offset + c.chunks[i].length)]
    ensures t == s.(part := t.part, tasks := t.tasks)
  {
    e := RestOfBody(c, blob, s, i);
    t := Step(c, s, e);
    StepFaithful(c, blob, s, e);
    ReachesNext(c, blob, s, e);
  }

  lemma RestOfBody(c: Config, blob: Data, s: Sys, i: nat) returns (e: Event)
    requires Faithful(c, blob, s) && i < |s.tasks| && s.tasks[i].Fetching?
    ensures e.Act? && e.task == i && e.action.Write? && HonestEvent(c, blob, s, e)
    ensures s.tasks[i].cursor + |e.action.data| == c.chunks[i].offset + c.chunks[i].length
  {
    assert TaskFaithful(c, blob, s, i);
    var at, end := s.tasks[i].cursor, c.chunks[i].offset + c.chunks[i].length;
    e := Act(i, Write(blob[at..end]));
  }

  lemma EndTask(c: Config, blob: Data, s: Sys, i: nat) returns (t: Sys)
    requires Live(c, blob, s) && i < |s.tasks|
    requires s.tasks[i].Fetching? && s.tasks[i].cursor == c.chunks[i].offset + c.chunks[i].length
    ensures Leads(c, blob, s, [Act(i, EndBody)], t) && Live(c, blob, t)
    ensures t == s.(tasks := s.tasks[i := Finished])
  {
    t := Step(c, s, Act(i, EndBody));
    StepFaithful(c, blob, s, Act(i, EndBody));
    ReachesNext(c, blob, s, Act(i, EndBody));
  }

  lemma FinishTask(c: Config, blob: Data, s: Sys, i: nat) returns (events: seq<Event>, t: Sys)
    requires Live(c, blob, s) && i < |s.tasks| && (s.tasks[i].Queued? || s.tasks[i].Fetching?)
    ensures Leads(c, blob, s, events, t) && Live(c, blob, t) && forall e :: e in events ==> e.Act?
    ensures t == s.(part := t.part, tasks := s.tasks[i := Finished])
  {
    var first: seq<Event>, a := [], s;
    if s.tasks[i].Queued? {
      a := StartTask(c, blob, s, i);
      first := [Act(i, Start)];
    }
    var e, b := WriteRest(c, blob, a, i);
    LeadsOn(c, blob, s, first, a, [e], b);
    t := EndTask(c, blob, b, i);
    LeadsOn(c, blob, s, first + [e], b, [Act(i, EndBody)], t);
    events := first + [e] + [Act(i, EndBody)];
  }

  // ---------- the collector ----------

  lemma SaveNow(c: Config, blob: Data, s: Sys) returns (t: Sys)
    requires Live(c, blob, s) && s.phase.Saving?
    ensures Reaches(c, blob, s, t) && Live(c, blob, t)
    ensures t.phase == Emitting && t.remaining == s.remaining && t.client == s.client
  {
    t := Step(c, s, Saved);
    StepFaithful(c, blob, s, Saved);
    ReachesNext(c, blob, s, Saved);
  }

  lemma JoinNow(c: Config, blob: Data, s: Sys, i: nat) returns (t: Sys)
    requires Live(c, blob, s) && s.phase == Joining && 0 < s.remaining
    requires i < |s.tasks| && s.tasks[i] in {Finished, Resumed}
    ensures Reaches(c, blob, s, t) && Live(c, blob, t)
    ensures t.phase == Emitting && t.remaining == s.remaining && t.client == s.client
  {
    t := Step(c, s, Join(i));
    StepFaithful(c, blob, s, Join(i));
    ReachesNext(c, blob, s, Join(i));
    if s.tasks[i].Finished? {
      var a := t;
      t := SaveNow(c, blob, a);
      ReachesOn(c, blob, s, a, t);
    }
  }

  /** What has been joined is in the part file, so reading it back does not fail. */
  lemma EmitNow(c: Config, blob: Data, s: Sys) returns (t: Sys)
    requires Live(c, blob, s) && s.phase == Emitting && CanEmit(c, s)
    ensures Reaches(c, blob, s, t) && Live(c, blob, t)
    ensures t == Step(c, s, Emit(true))
    ensures t.phase == Emitting && t.remaining == s.remaining && |t.emitted| == |s.emitted| + 1
    ensures t.client.connected == s.client.connected
  {
    NextIndex(c, s);
    var k := |s.emitted|;
    assert TaskInv(c, s, k) && TaskFaithful(c, blob, s, k);
    assert HasChunk(c, s.part, blob, k);
    t := Step(c, s, Emit(true));
    StepFaithful(c, blob, s, Emit(true));
    ReachesNext(c, blob, s, Emit(true));
  }

  lemma {:induction false} EmitAll(c: Config, blob: Data, s: Sys) returns (t: Sys)
    requires Live(c, blob, s) && s.phase == Emitting
    ensures Reaches(c, blob, s, t) && Live(c, blob, t)
    ensures t.phase == Joining && t.remaining == s.remaining - 1 && t.client.connected == s.client.connected
    decreases |c.chunks| - |s.emitted|
  {
    if CanEmit(c, s) {
      NextIndex(c, s);
      var a := EmitNow(c, blob, s);
      t := EmitAll(c, blob, a);
      ReachesOn(c, blob, s, a, t);
    } else {
      t := Step(c, s, EmitDone);
      StepFaithful(c, blob, s, EmitDone);
      ReachesNext(c, blob, s, EmitDone);
    }
  }

  /** Fetch one more chunk if need be, join it, and emit what that makes contiguous. */
  lemma OneMore(c: Config, blob: Data, s: Sys) returns (t: Sys)
    requires Live(c, blob, s) && s.phase == Joining && 0 < s.remaining
    ensures Reaches(c, blob, s, t) && Live(c, blob, t)
    ensures t.phase == Joining && t.remaining == s.remaining - 1 && t.client.connected == s.client.connected
  {
    LastJoinEmitsAll(c, s);
    var i :| 0 <= i < |c.chunks| && !s.tasks[i].Joined?;
    ReachesSelf(c, blob, s);
    var a := s;
    if s.tasks[i].Queued? || s.tasks[i].Fetching? {
      var events;
      events, a := FinishTask(c, blob, s, i);
    }
    var b := JoinNow(c, blob, a, i);
    ReachesOn(c, blob, s, a, b);
    t := EmitAll(c, blob, b);
    ReachesOn(c, blob, s, b, t);
  }

  lemma {:induction false} JoinRest(c: Config, blob: Data, s: Sys) returns (t: Sys)
    requires Live(c, blob, s) && s.phase == Joining
    ensures Reaches(c, blob, s, t) && Live(c, blob, t)
    ensures t.phase == Joining && t.remaining == 0 && t.client.connected == s.client.connected
    decreases s.remaining
  {
    if s.remaining == 0 {
      ReachesSelf(c, blob, s);
      t := s;
    } else {
      var a := OneMore(c, blob, s);
      t := JoinRest(c, blob, a);
      ReachesOn(c, blob, s, a, t);
    }
  }

  /** From every live state, to the whole blob fetched, joined and emitted; a client that is there gets all of it. */
  lemma FetchesAll(c: Config, blob: Data, s: Sys) returns (t: Sys)
    requires Live(c, blob, s)
    ensures Reaches(c, blob, s, t) && Live(c, blob, t)
    ensures t.phase == Joining && t.remaining == 0 && t.hashed == blob
    ensures s.client.connected ==> t.client.delivered == blob
  {
    ReachesSelf(c, blob, s);
    var a, b := s, s;
    if s.phase.Saving? {
      a := SaveNow(c, blob, s);
      b := a;
    }
    if a.phase == Emitting {
      b := EmitAll(c, blob, a);
      ReachesOn(c, blob, s, a, b);
    }
    t := JoinRest(c, blob, b);
    ReachesOn(c, blob, s, b, t);
    LastJoinEmitsAll(c, t);
    assert |t.emitted| == |c.chunks|;
    FaithfulHashesBlob(c, blob, t);
  }

  /** The last two steps. */
  lemma Concludes(c: Config, blob: Data, s: Sys) returns (t: Sys)
    requires Live(c, blob, s) && s.phase == Joining && s.remaining == 0 && s.hashed == blob
    ensures Reaches(c, blob, s, t)
    ensures t == s.(linked := false, sidecar := None,
                    final := if c.hash(blob) == c.expected then Some(s.part) else s.final,
                    phase := if c.hash(blob) == c.expected then Committed else Failed(DigestMismatch))
  {
    var a := Step(c, s, Finish(true));
    ReachesNext(c, blob, s, Finish(true));
    t := Step(c, a, DropSidecar(true));
    ReachesNext(c, blob, a, DropSidecar(true));
    ReachesOn(c, blob, s, a, t);
  }

  // ---------- what is lost is lost ----------

  /** No commit can follow. */
  ghost predicate Doomed(s: Sys) {
    if Running(s.phase) then !s.linked || !NoneExhausted(s) else s.phase.Rejected? || s.phase.Failed?
  }

  lemma TaskStaysExhausted(c: Config, s: Sys, e: Event, i: nat)
    requires 0 < c.chunkBytes && i < |s.tasks| && s.tasks[i].Exhausted?
    ensures var t := Step(c, s, e); i < |t.tasks| && t.tasks[i].Exhausted?
  {
  }

  lemma StaysUnlinked(c: Config, s: Sys, e: Event)
    requires 0 < c.chunkBytes && !s.linked
    ensures !Step(c, s, e).linked && (Running(s.phase) ==> !Step(c, s, e).phase.Renamed?)
  {
  }

  /** With a task out of retries, not all chunks can be joined. */
  lemma ExhaustedIsPending(c: Config, s: Sys)
    requires Inv(c, s) && s.phase == Joining && !NoneExhausted(s)
    ensures 0 < s.remaining
  {
    UnjoinedBounds(s.tasks);
  }

  lemma StepStaysDoomed(c: Config, s: Sys, e: Event)
    requires Inv(c, s) && Doomed(s)
    ensures Doomed(Step(c, s, e))
  {
    var t := Step(c, s, e);
    if Running(s.phase) {
      if !s.linked {
        StaysUnlinked(c, s, e);
      } else {
        var i :| 0 <= i < |s.tasks| && s.tasks[i].Exhausted?;
        TaskStaysExhausted(c, s, e, i);
        if s.phase == Joining {
          ExhaustedIsPending(c, s);
        }
      }
    }
  }

  lemma {:induction false} RunStaysDoomed(c: Config, s: Sys, events: seq<Event>)
    requires Inv(c, s) && Doomed(s)
    ensures Doomed(Run(c, s, events))
    decreases |events|
  {
    if events != [] {
      StepInv(c, s, events[0]);
      StepStaysDoomed(c, s, events[0]);
      RunStaysDoomed(c, Step(c, s, events[0]), events[1..]);
    }
  }

  // ---------- the collector gets there ----------

  function Idle(): Schedule.Tick { Schedule.Tick([], 0, false, 0, true, true) }

  /** One good answer from `join_next`, its task's body having come in meanwhile. */
  lemma JoinTick(c: Config, blob: Data, s: Sys) returns (tick: Schedule.Tick, t: Sys)
    requires Live(c, blob, s) && s.phase == Joining && 0 < s.remaining
    ensures t == Schedule.PlayJoin(c, s, tick) && Live(c, blob, t)
    ensures (forall e :: e in tick.background ==> e.Act?) && t.phase == Emitting && t.remaining == s.remaining
  {
    LastJoinEmitsAll(c, s);
    var i :| 0 <= i < |c.chunks| && !s.tasks[i].Joined?;
    var events: seq<Event>, a := [], s;
    if s.tasks[i].Queued? || s.tasks[i].Fetching? {
      events, a := FinishTask(c, blob, s, i);
    }
    tick := Schedule.Tick(events, i, false, 0, true, true);
    t := JoinedTick(c, blob, a, tick);
  }

  lemma JoinedTick(c: Config, blob: Data, s: Sys, tick: Schedule.Tick) returns (t: Sys)
    requires Live(c, blob, s) && s.phase == Joining && 0 < s.remaining && !tick.aborted
    requires tick.pick < |s.tasks| && s.tasks[tick.pick] in {Finished, Resumed}
    ensures t == Schedule.PlayJoined(c, s, tick) && Live(c, blob, t)
    ensures t.phase == Emitting && t.remaining == s.remaining
  {
    var a := Step(c, s, Join(tick.pick));
    StepFaithful(c, blob, s, Join(tick.pick));
    t := a;
    if a.phase.Saving? {
      t := SavedTick(c, blob, a, tick.written);
    }
  }

  lemma SavedTick(c: Config, blob: Data, s: Sys, written: nat) returns (t: Sys)
    requires Live(c, blob, s) && s.phase.Saving?
    ensures t == Step(c, Step(c, s, SaveBytes(written)), Saved) && Live(c, blob, t)
    ensures t.phase == Emitting && t.remaining == s.remaining
  {
    var a := Step(c, s, SaveBytes(written));
    StepFaithful(c, blob, s, SaveBytes(written));
    StepFaithful(c, blob, a, Saved);
    t := Step(c, a, Saved);
  }

  lemma {:induction false} EmitTicks(c: Config, blob: Data, s: Sys) returns (ticks: seq<Schedule.Tick>, t: Sys)
    requires Live(c, blob, s) && s.phase == Emitting
    ensures Schedule.AllOutside(ticks) && Live(c, blob, t) && t.phase == Joining && t.remaining == s.remaining - 1
    ensures forall more :: Schedule.PlayEmit(c, s, ticks + more) == Schedule.Played(t, more, None)
    decreases |c.chunks| - |s.emitted|
  {
    if CanEmit(c, s) {
      NextIndex(c, s);
      var a := EmitNow(c, blob, s);
      IdleRead(c, s);
      var rest;
      rest, t := EmitTicks(c, blob, a);
      ticks := [Idle()] + rest;
      forall more
        ensures Schedule.PlayEmit(c, s, ticks + more) == Schedule.Played(t, more, None)
      {
        EmitFirst(c, s, a, rest, more);
      }
    } else {
      ticks := [];
      t := DoneNow(c, blob, s);
      forall more
        ensures Schedule.PlayEmit(c, s, ticks + more) == Schedule.Played(t, more, None)
      {
        assert ticks + more == more;
        Schedule.PlayEmitEnds(c, s, more);
      }
    }
  }

  lemma EmitFirst(c: Config, s: Sys, a: Sys, rest: seq<Schedule.Tick>, more: seq<Schedule.Tick>)
    requires 0 < c.chunkBytes && CanEmit(c, s) && a == Schedule.PlayRead(c, s, Idle()) && !a.phase.Failed?
    ensures Schedule.PlayEmit(c, s, [Idle()] + rest + more) == Schedule.PlayEmit(c, a, rest + more)
  {
    Schedule.PlayEmitCons(c, s, Idle(), rest + more);
    assert [Idle()] + rest + more == [Idle()] + (rest + more);
  }

  lemma IdleRead(c: Config, s: Sys)
    requires 0 < c.chunkBytes
    ensures Schedule.PlayRead(c, s, Idle()) == Step(c, s, Emit(true))
  {
    assert Run(c, s, []) == s;
  }

  lemma DoneNow(c: Config, blob: Data, s: Sys) returns (t: Sys)
    requires Live(c, blob, s) && s.phase == Emitting && !CanEmit(c, s)
    ensures t == Step(c, s, EmitDone) && Live(c, blob, t)
    ensures t.phase == Joining && t.remaining == s.remaining - 1
  {
    t := Step(c, s, EmitDone);
    StepFaithful(c, blob, s, EmitDone);
  }

  /** Flush, comparison, rename and removal, with nothing in between. */
  lemma CloseTicks(c: Config, blob: Data, s: Sys)
    requires Live(c, blob, s) && s.phase == Joining && s.remaining == 0 && c.hash(blob) == c.expected
    ensures var (t, outcome) := Schedule.Play(c, s, [Idle(), Idle(), Idle()]);
            outcome == Schedule.Outcome.Ok && t.phase == Committed && t.final == Some(s.part) && t.sidecar == None
  {
    LastJoinEmitsAll(c, s);
    assert |s.emitted| == |c.chunks|;
    FaithfulHashesBlob(c, blob, s);
    var a := Step(c, s, Finish(true));
    assert Run(c, s, []) == s && Run(c, a, []) == a;
    assert Schedule.PlayRename(c, s, Idle(), Idle()) == (Schedule.PlayDrop(c, a, Idle()), Schedule.Outcome.Ok);
  }

  /**
   The loop does not idle: from every live state in which a task is awaited there is a schedule, with nothing but the
   tasks' own bodies in it, for which the collector commits the blob and returns Ok.
   */
  lemma {:induction false} CollectorCommits(c: Config, blob: Data, s: Sys) returns (ticks: seq<Schedule.Tick>)
    requires Live(c, blob, s) && s.phase == Joining && c.hash(blob) == c.expected
    ensures Schedule.AllOutside(ticks)
    ensures var (t, outcome) := Schedule.Play(c, s, ticks);
            outcome == Schedule.Outcome.Ok && t.phase == Committed && t.sidecar == None
    decreases s.remaining
  {
    if s.remaining == 0 {
      ticks := [Idle(), Idle(), Idle()];
      CloseTicks(c, blob, s);
    } else {
      var tick, a := JoinTick(c, blob, s);
      var emits, b := EmitTicks(c, blob, a);
      var more := CollectorCommits(c, blob, b);
      ticks := [tick] + (emits + more);
      assert ticks[0] == tick && ticks[1..] == emits + more;
      assert Schedule.PlayRound(c, s, ticks) == Schedule.PlayAfter(c, a, emits + more);
    }
  }

  // ---------- main results ----------

  /**
   From a running state of an honest attempt the blob can still be committed, by some honest run, exactly when the
   part file is in place, no task is out of retries, and the digest is the blob's.
   */
  lemma CommitsExactly(c: Config, blob: Data, s: Sys)
    requires Faithful(c, blob, s) && Running(s.phase)
    ensures (exists t :: Reaches(c, blob, s, t) && t.phase.Committed?)
       <==> s.linked && NoneExhausted(s) && c.hash(blob) == c.expected
  {
    if s.linked && NoneExhausted(s) && c.hash(blob) == c.expected {
      var a := FetchesAll(c, blob, s);
      var t := Concludes(c, blob, a);
      ReachesOn(c, blob, s, a, t);
    }
    forall t | Reaches(c, blob, s, t) && t.phase.Committed?
      ensures s.linked && NoneExhausted(s) && c.hash(blob) == c.expected
    {
      var events :| Leads(c, blob, s, events, t);
      CommittedWasLive(c, blob, s, events);
    }
  }

  lemma CommittedWasLive(c: Config, blob: Data, s: Sys, events: seq<Event>)
    requires Faithful(c, blob, s) && Running(s.phase) && HonestRun(c, blob, s, events)
    requires Run(c, s, events).phase.Committed?
    ensures s.linked && NoneExhausted(s) && c.hash(blob) == c.expected
  {
    if Doomed(s) {
      RunStaysDoomed(c, s, events);
    }
    RunFaithful(c, blob, s, events);
    FaithfulHashesBlob(c, blob, Run(c, s, events));
  }

  /** No attempt is stuck: so after any honest run of an attempt on a sound disk, however far it has got. */
  lemma AttemptCanCommitExactly(d: Disk, c: Config, planned: nat, blob: Data, connected: bool, events: seq<Event>)
    requires Opens(d, c, planned) && c.total == |blob|
    requires Sound(d.sidecar, PartOf(d), blob) && Gapless(d.sidecar, PartOf(d), c.total, LastStart(c))
    requires HonestRun(c, blob, Opened(d, c, connected), events)
    requires Running(Run(c, Opened(d, c, connected), events).phase)
    ensures var s := Run(c, Opened(d, c, connected), events);
            (exists t :: Reaches(c, blob, s, t) && t.phase.Committed?)
            <==> s.linked && NoneExhausted(s) && c.hash(blob) == c.expected
  {
    OpenedFaithful(d, c, planned, blob, connected);
    RunFaithful(c, blob, Opened(d, c, connected), events);
    CommitsExactly(c, blob, Run(c, Opened(d, c, connected), events));
  }

  /** With another digest, such a state leads to a client with the whole blob and a disk with nothing of it. */
  lemma OtherDigestLosesBlob(c: Config, blob: Data, s: Sys) returns (t: Sys)
    requires Live(c, blob, s) && c.hash(blob) != c.expected
    ensures Reaches(c, blob, s, t)
    ensures t.hashed == blob && (s.client.connected ==> t.client.delivered == blob)
    ensures t.phase == Failed(DigestMismatch) && DiskOf(t) == Disk(None, None)
  {
    var a := FetchesAll(c, blob, s);
    t := Concludes(c, blob, a);
    ReachesOn(c, blob, s, a, t);
    NothingLeft(t);
  }

  lemma NothingLeft(t: Sys)
    requires !t.linked && t.sidecar == None
    ensures DiskOf(t) == Disk(None, None)
  {
  }

  /** A final file is there only after a commit. */
  lemma {:induction false} FinalOnlyCommitted(c: Config, s: Sys, events: seq<Event>)
    requires 0 < c.chunkBytes && (s.final.Some? ==> s.phase.Renamed? || s.phase.Committed?)
    ensures var t := Run(c, s, events); t.final.Some? ==> t.phase.Renamed? || t.phase.Committed?
    decreases |events|
  {
    if events != [] {
      FinalStep(c, s, events[0]);
      FinalOnlyCommitted(c, Step(c, s, events[0]), events[1..]);
    }
  }

  lemma FinalStep(c: Config, s: Sys, e: Event)
    requires 0 < c.chunkBytes && (s.final.Some? ==> s.phase.Renamed? || s.phase.Committed?)
    ensures var t := Step(c, s, e); t.final.Some? ==> t.phase.Renamed? || t.phase.Committed?
  {
  }
}
