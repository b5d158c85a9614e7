/**
 What the collector of `download` (src/chunks.rs:273-377) makes of a schedule: at each of its awaits, what the tasks
 and the surroundings do meanwhile, and the answer it gets. Every answer to a schedule is a run of the step system.
 */
module Schedule {
  import opened Wrappers
  import opened Bytes
  import opened Download

  /**
   What happens at one `await` of the collector: first the events of the tasks and surroundings,
   then the answer the collector was waiting for. `pick` is the task `join_next` yields, `aborted`
   whether that task panicked or was cancelled, `written` how much of the sidecar reaches the disk,
   `ok` whether the file operation succeeds.
   */
  datatype Tick =
    Tick(background: seq<Event>, pick: nat, aborted: bool, written: nat, accepted: bool, ok: bool)

  datatype Outcome = Ok | Failure(why: Failure) | StillWaiting

  /** Events that are not the collector's own. */
  predicate Outside(e: Event) {
    e.Act? || e.Unlink? || e.EvictSidecar?
  }

  ghost predicate AllOutside(ticks: seq<Tick>) {
    forall t, e :: t in ticks && e in t.background ==> Outside(e)
  }

  /** State, unused ticks, and why the download stopped, if it did. */
  datatype Played = Played(s: Sys, rest: seq<Tick>, stop: Option<Outcome>)

  /** One chunk read back, hashed and offered, unless the file fails. */
  ghost function PlayRead(c: Config, s: Sys, tick: Tick): Sys
    requires 0 < c.chunkBytes
  {
    Step(c, Run(c, s, tick.background), if tick.ok then Emit(tick.accepted) else IoError)
  }

  /** The emission loop: one tick for each chunk read back. */
  ghost function PlayEmit(c: Config, s: Sys, ticks: seq<Tick>): (p: Played)
    requires 0 < c.chunkBytes
    ensures |p.rest| <= |ticks|
    decreases |ticks|
  {
    if !CanEmit(c, s) then Played(Step(c, s, EmitDone), ticks, None)
    else if ticks == [] then Played(s, ticks, Some(StillWaiting))
    else
      var b := PlayRead(c, s, ticks[0]);
      if b.phase.Failed? then Played(b, ticks[1..], Some(Failure(IoFailed))) else PlayEmit(c, b, ticks[1..])
  }

  lemma PlayEmitEnds(c: Config, s: Sys, ticks: seq<Tick>)
    requires 0 < c.chunkBytes
    ensures !CanEmit(c, s) ==> PlayEmit(c, s, ticks) == Played(Step(c, s, EmitDone), ticks, None)
    ensures CanEmit(c, s) && ticks == [] ==> PlayEmit(c, s, ticks) == Played(s, ticks, Some(StillWaiting))
  {
  }

  lemma PlayEmitTick(c: Config, s: Sys, schedule: seq<Tick>, now: nat)
    requires 0 < c.chunkBytes && CanEmit(c, s) && now < |schedule|
    ensures var b := PlayRead(c, s, schedule[now]);
            PlayEmit(c, s, schedule[now..]) ==
              if b.phase.Failed? then Played(b, schedule[now + 1..], Some(Failure(IoFailed)))
              else PlayEmit(c, b, schedule[now + 1..])
  {
    assert schedule[now..][0] == schedule[now] && schedule[now..][1..] == schedule[now + 1..];
  }

  lemma PlayEmitCons(c: Config, s: Sys, tick: Tick, ticks: seq<Tick>)
    requires 0 < c.chunkBytes && CanEmit(c, s) && !PlayRead(c, s, tick).phase.Failed?
    ensures PlayEmit(c, s, [tick] + ticks) == PlayEmit(c, PlayRead(c, s, tick), ticks)
  {
    assert ([tick] + ticks)[1..] == ticks;
  }

  /** One `join_next`; a fetched chunk's sidecar is written before it counts as done. */
  ghost function PlayJoin(c: Config, s: Sys, tick: Tick): Sys
    requires 0 < c.chunkBytes
  {
    PlayJoined(c, Run(c, s, tick.background), tick)
  }

  ghost function PlayJoined(c: Config, s: Sys, tick: Tick): Sys
    requires 0 < c.chunkBytes
  {
    if tick.aborted then Step(c, s, AbortTask)
    else
      var b := Step(c, s, Join(tick.pick));
      if b.phase.Saving? then Step(c, Step(c, b, SaveBytes(tick.written)), Saved) else b
  }

  /** One round of the collector loop. */
  ghost function PlayRound(c: Config, s: Sys, ticks: seq<Tick>): (p: Played)
    requires 0 < c.chunkBytes && ticks != []
    ensures |p.rest| < |ticks|
  {
    PlayAfter(c, PlayJoin(c, s, ticks[0]), ticks[1..])
  }

  ghost function PlayAfter(c: Config, s: Sys, ticks: seq<Tick>): (p: Played)
    requires 0 < c.chunkBytes
    ensures |p.rest| <= |ticks|
  {
    match s.phase
    case Emitting => PlayEmit(c, s, ticks)
    case Failed(why) => Played(s, ticks, Some(Failure(why)))
    case _ => Played(s, ticks, None)
  }

  ghost function Play(c: Config, s: Sys, ticks: seq<Tick>): (Sys, Outcome)
    requires 0 < c.chunkBytes
    decreases |ticks|
  {
    if s.remaining == 0 then
      if |ticks| < 3 then (s, StillWaiting) else PlayClose(c, s, ticks[0], ticks[1], ticks[2])
    else if ticks == [] then (s, StillWaiting)
    else
      var p := PlayRound(c, s, ticks);
      if p.stop.Some? then (p.s, p.stop.value) else Play(c, p.s, p.rest)
  }

  /** Flush, compare, rename or drop, drop the sidecar. */
  ghost function PlayClose(c: Config, s: Sys, flush: Tick, rename: Tick, drop: Tick): (Sys, Outcome)
    requires 0 < c.chunkBytes
  {
    var a := Run(c, s, flush.background);
    if flush.ok then PlayRename(c, a, rename, drop) else (Step(c, a, IoError), Failure(IoFailed))
  }

  ghost function PlayRename(c: Config, s: Sys, rename: Tick, drop: Tick): (Sys, Outcome)
    requires 0 < c.chunkBytes
  {
    var b := Step(c, Run(c, s, rename.background), Finish(rename.ok));
    match b.phase
    case Renamed => (PlayDrop(c, b, drop), Outcome.Ok)
    case Rejected => (PlayDrop(c, b, drop), Failure(DigestMismatch))
    case _ => (b, Failure(IoFailed))
  }

  ghost function PlayDrop(c: Config, s: Sys, drop: Tick): Sys
    requires 0 < c.chunkBytes
  {
    Step(c, Run(c, s, drop.background), DropSidecar(drop.ok))
  }

  // ---------- every answer is a run ----------

  ghost predicate Goes(c: Config, s: Sys, t: Sys)
    requires 0 < c.chunkBytes
  {
    exists events :: Run(c, s, events) == t
  }

  lemma GoesRun(c: Config, s: Sys, events: seq<Event>, t: Sys)
    requires 0 < c.chunkBytes && Goes(c, s, t)
    ensures Goes(c, s, Run(c, t, events))
  {
    var a :| Run(c, s, a) == t;
    RunAppend(c, s, a, events);
    assert Run(c, s, a + events) == Run(c, t, events);
  }

  lemma GoesStep(c: Config, s: Sys, t: Sys, e: Event)
    requires 0 < c.chunkBytes && Goes(c, s, t)
    ensures Goes(c, s, Step(c, t, e))
  {
    GoesRun(c, s, [e], t);
    assert [e][1..] == [] && Run(c, Step(c, t, e), []) == Step(c, t, e);
    assert Run(c, t, [e]) == Step(c, t, e);
  }

  lemma GoesSelf(c: Config, s: Sys)
    requires 0 < c.chunkBytes
    ensures Goes(c, s, s)
  {
    assert Run(c, s, []) == s;
  }

  lemma {:induction false} EmitGoes(c: Config, s0: Sys, s: Sys, ticks: seq<Tick>)
    requires 0 < c.chunkBytes && Goes(c, s0, s)
    ensures Goes(c, s0, PlayEmit(c, s, ticks).s)
    decreases |ticks|
  {
    if !CanEmit(c, s) {
      GoesStep(c, s0, s, EmitDone);
    } else if ticks != [] {
      var a := Run(c, s, ticks[0].background);
      GoesRun(c, s0, ticks[0].background, s);
      GoesStep(c, s0, a, if ticks[0].ok then Emit(ticks[0].accepted) else IoError);
      EmitGoes(c, s0, PlayRead(c, s, ticks[0]), ticks[1..]);
    }
  }

  lemma JoinGoes(c: Config, s0: Sys, s: Sys, tick: Tick)
    requires 0 < c.chunkBytes && Goes(c, s0, s)
    ensures Goes(c, s0, PlayJoin(c, s, tick))
  {
    var a := Run(c, s, tick.background);
    GoesRun(c, s0, tick.background, s);
    GoesStep(c, s0, a, AbortTask);
    var b := Step(c, a, Join(tick.pick));
    GoesStep(c, s0, a, Join(tick.pick));
    var d := Step(c, b, SaveBytes(tick.written));
    GoesStep(c, s0, b, SaveBytes(tick.written));
    GoesStep(c, s0, d, Saved);
  }

  lemma DropGoes(c: Config, s0: Sys, s: Sys, drop: Tick)
    requires 0 < c.chunkBytes && Goes(c, s0, s)
    ensures Goes(c, s0, PlayDrop(c, s, drop))
  {
    GoesRun(c, s0, drop.background, s);
    GoesStep(c, s0, Run(c, s, drop.background), DropSidecar(drop.ok));
  }

  lemma CloseGoes(c: Config, s0: Sys, s: Sys, flush: Tick, rename: Tick, drop: Tick)
    requires 0 < c.chunkBytes && Goes(c, s0, s)
    ensures Goes(c, s0, PlayClose(c, s, flush, rename, drop).0)
  {
    var a := Run(c, s, flush.background);
    GoesRun(c, s0, flush.background, s);
    GoesStep(c, s0, a, IoError);
    GoesRun(c, s0, rename.background, a);
    var b := Step(c, Run(c, a, rename.background), Finish(rename.ok));
    GoesStep(c, s0, Run(c, a, rename.background), Finish(rename.ok));
    DropGoes(c, s0, b, drop);
  }

  lemma {:induction false} PlayGoes(c: Config, s0: Sys, s: Sys, ticks: seq<Tick>)
    requires 0 < c.chunkBytes && Goes(c, s0, s)
    ensures Goes(c, s0, Play(c, s, ticks).0)
    decreases |ticks|
  {
    if s.remaining == 0 {
      if |ticks| >= 3 {
        CloseGoes(c, s0, s, ticks[0], ticks[1], ticks[2]);
      }
    } else if ticks != [] {
      var b := PlayJoin(c, s, ticks[0]);
      JoinGoes(c, s0, s, ticks[0]);
      EmitGoes(c, s0, b, ticks[1..]);
      var p := PlayRound(c, s, ticks);
      if p.stop.None? {
        PlayGoes(c, s0, p.s, p.rest);
      }
    }
  }

  /** Whatever the schedule: the answer is reached by a run, so all that holds of runs holds of it. */
  lemma PlayIsRun(c: Config, s: Sys, ticks: seq<Tick>) returns (events: seq<Event>)
    requires 0 < c.chunkBytes
    ensures Run(c, s, events) == Play(c, s, ticks).0
  {
    GoesSelf(c, s);
    PlayGoes(c, s, s, ticks);
    events :| Run(c, s, events) == Play(c, s, ticks).0;
  }
}
