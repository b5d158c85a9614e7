/** The manifest cache: a map bounded by age, entries and bytes (src/cache.rs: `ManifestCache`). */
module ManifestCache {
  import opened Wrappers
  import opened Bytes

  /** Namespace, repository and reference. */
  type Key = (string, string, string)

  datatype Manifest = Manifest(contentType: Option<string>, dockerDigest: Option<string>, body: Data, stored: int)

  type Entries = map<Key, Manifest>

  datatype Limits = Limits(ttl: nat, maxEntries: nat, maxBytes: nat)

  datatype State = State(entries: Entries, bytes: nat)

  datatype Op = Put(key: Key, value: Manifest, now: int) | Clear

  /** Strictly younger than the time to live; a stamp in the future has age zero. */
  predicate Fresh(limits: Limits, value: Manifest, now: int) {
    Max(now - value.stored, 0) < limits.ttl
  }

  function Retained(limits: Limits, entries: Entries, now: int): Entries {
    map k | k in entries && Fresh(limits, entries[k], now) :: entries[k]
  }

  ghost function BodyBytes(entries: Entries): nat {
    if entries == map[] then 0
    else
      var key :| key in entries;
      |entries[key].body| + BodyBytes(entries - {key})
  }

  lemma {:induction false} BodyBytesWithout(entries: Entries, key: Key)
    requires key in entries
    ensures BodyBytes(entries) == |entries[key].body| + BodyBytes(entries - {key})
    decreases |entries|
  {
    var first :| first in entries && BodyBytes(entries) == |entries[first].body| + BodyBytes(entries - {first});
    if first != key {
      BodyBytesWithout(entries - {first}, key);
      BodyBytesWithout(entries - {key}, first);
      assert entries - {first} - {key} == entries - {key} - {first};
    }
  }

  function BodyOf(entries: Entries, key: Key): nat {
    if key in entries then |entries[key].body| else 0
  }

  lemma BodyBytesReplace(entries: Entries, key: Key, value: Manifest)
    ensures BodyOf(entries, key) <= BodyBytes(entries)
    ensures BodyBytes(entries[key := value]) == BodyBytes(entries) - BodyOf(entries, key) + |value.body|
  {
    if key in entries {
      BodyBytesWithout(entries, key);
    } else {
      assert entries - {key} == entries;
    }
    BodyBytesWithout(entries[key := value], key);
    assert entries[key := value] - {key} == entries - {key};
  }

  /** The bytes there would be with `value` in place. */
  ghost function NextBytes(live: Entries, key: Key, value: Manifest): nat {
    Max(BodyBytes(live) - BodyOf(live, key), 0) + |value.body|
  }

  predicate Accepts(limits: Limits, value: Manifest) { |value.body| <= limits.maxBytes }

  /** A put that first empties the map: it is full, or would be over the byte budget. */
  ghost predicate Flushes(limits: Limits, entries: Entries, op: Op) {
    && op.Put?
    && Accepts(limits, op.value)
    && var live := Retained(limits, entries, op.now);
       |live| >= limits.maxEntries || NextBytes(live, op.key, op.value) > limits.maxBytes
  }

  ghost function Step(limits: Limits, s: State, op: Op): State {
    match op
    case Clear => State(map[], 0)
    case Put(key, value, now) =>
      if !Accepts(limits, value) then s
      else if Flushes(limits, s.entries, op) then State(map[key := value], |value.body|)
      else
        var live := Retained(limits, s.entries, now);
        State(live[key := value], NextBytes(live, key, value))
  }

  const EMPTY := State(map[], 0)

  ghost function Run(limits: Limits, ops: seq<Op>): State {
    if ops == [] then EMPTY else Step(limits, Run(limits, ops[..|ops| - 1]), ops[|ops| - 1])
  }

  function Lookup(limits: Limits, s: State, key: Key, now: int): Option<Manifest> {
    if key in s.entries && Fresh(limits, s.entries[key], now) then Some(s.entries[key]) else None
  }

  // ---------- budget ----------

  ghost predicate WithinBudget(limits: Limits, s: State) {
    && s.bytes == BodyBytes(s.entries)
    && s.bytes <= limits.maxBytes
    && |s.entries| <= Max(1, limits.maxEntries)
  }

  lemma StepWithinBudget(limits: Limits, s: State, op: Op)
    requires WithinBudget(limits, s)
    ensures WithinBudget(limits, Step(limits, s, op))
  {
    if op.Put? && Accepts(limits, op.value) {
      var live := Retained(limits, s.entries, op.now);
      BodyBytesReplace(live, op.key, op.value);
      BodyBytesReplace(map[], op.key, op.value);
      assert map[][op.key := op.value] == map[op.key := op.value];
    }
  }

  /** After any run the counter is the sum of the stored bodies, within the cap, and the entries are within theirs. */
  lemma {:induction false} RunWithinBudget(limits: Limits, ops: seq<Op>)
    ensures WithinBudget(limits, Run(limits, ops))
  {
    if ops != [] {
      RunWithinBudget(limits, ops[..|ops| - 1]);
      StepWithinBudget(limits, Run(limits, ops[..|ops| - 1]), ops[|ops| - 1]);
    }
  }

  // ---------- what a put leaves of the other entries ----------

  /** Keys of the entries younger than the time to live, which has to be positive. */
  ghost function Young(limits: Limits, entries: Entries, now: int): set<Key> {
    set k | k in entries && 0 < limits.ttl && now - entries[k].stored < limits.ttl
  }

  ghost function Others(limits: Limits, entries: Entries, key: Key, now: int): Entries {
    map k | k in Young(limits, entries, now) && k != key :: entries[k]
  }

  /** There is room for one more entry, and for the body beside those of the other young entries. */
  ghost predicate HasRoom(limits: Limits, entries: Entries, key: Key, value: Manifest, now: int) {
    && |Young(limits, entries, now)| < limits.maxEntries
    && BodyBytes(Others(limits, entries, key, now)) + |value.body| <= limits.maxBytes
  }

  lemma RetainedIsYoung(limits: Limits, entries: Entries, now: int)
    ensures Retained(limits, entries, now).Keys == Young(limits, entries, now)
    ensures |Retained(limits, entries, now)| == |Young(limits, entries, now)|
  {
    var live := Retained(limits, entries, now);
    assert live.Keys == Young(limits, entries, now);
    assert |live| == |live.Keys|;
  }

  lemma FlushesExactly(limits: Limits, entries: Entries, key: Key, value: Manifest, now: int)
    requires |value.body| <= limits.maxBytes
    ensures Flushes(limits, entries, Op.Put(key, value, now)) <==> !HasRoom(limits, entries, key, value, now)
  {
    var live := Retained(limits, entries, now);
    RetainedIsYoung(limits, entries, now);
    assert live - {key} == Others(limits, entries, key, now);
    if key in live {
      BodyBytesWithout(live, key);
    } else {
      assert live - {key} == live;
    }
  }

  /**
   A put of a body within the cap, in any run: its key has the value, and what else is there afterwards are the other
   young entries as they were if there was room, and nothing if there was not.
   */
  lemma PutKeepsExactly(limits: Limits, ops: seq<Op>, key: Key, value: Manifest, now: int)
    requires |value.body| <= limits.maxBytes
    ensures var before := Run(limits, ops).entries;
            var after := Run(limits, ops + [Op.Put(key, value, now)]).entries;
            && key in after && after[key] == value
            && after - {key}
               == if HasRoom(limits, before, key, value, now) then Others(limits, before, key, now) else map[]
  {
    var before, op := Run(limits, ops).entries, Op.Put(key, value, now);
    FlushesExactly(limits, before, key, value, now);
    RetainedIsYoung(limits, before, now);
    assert (ops + [op])[..|ops|] == ops;
  }

  /** So every other young entry is a hit, as before the put, exactly when there was room; expired ones stay missed. */
  lemma PutSparesLookups(limits: Limits, ops: seq<Op>, key: Key, value: Manifest, now: int, other: Key, at: int)
    requires |value.body| <= limits.maxBytes && other != key && now <= at
    ensures var before, after := Run(limits, ops), Run(limits, ops + [Op.Put(key, value, now)]);
            Lookup(limits, after, other, at)
            == if HasRoom(limits, before.entries, key, value, now) then Lookup(limits, before, other, at) else None
  {
    var before, after := Run(limits, ops).entries, Run(limits, ops + [Op.Put(key, value, now)]).entries;
    PutKeepsExactly(limits, ops, key, value, now);
    assert other in after <==> other in after - {key};
  }

  lemma TooLargeIsIgnored(limits: Limits, ops: seq<Op>, key: Key, value: Manifest, now: int)
    requires |value.body| > limits.maxBytes
    ensures Run(limits, ops + [Op.Put(key, value, now)]) == Run(limits, ops)
  {
    assert (ops + [Op.Put(key, value, now)])[..|ops|] == ops;
  }

  // ---------- refinement of an unbounded map ----------

  /** The last accepted put of every key since the last clear. */
  function LastPuts(limits: Limits, ops: seq<Op>): Entries {
    if ops == [] then map[]
    else
      var last, before := ops[|ops| - 1], LastPuts(limits, ops[..|ops| - 1]);
      match last
      case Clear => map[]
      case Put(key, value, _) => if Accepts(limits, value) then before[key := value] else before
  }

  /** As `LastPuts`, since the last clear or flush. Nothing in it ever expires. */
  ghost function KeptPuts(limits: Limits, ops: seq<Op>): Entries {
    if ops == [] then map[]
    else
      var last, before := ops[|ops| - 1], KeptPuts(limits, ops[..|ops| - 1]);
      match last
      case Clear => map[]
      case Put(key, value, _) =>
        if !Accepts(limits, value) then before
        else if Flushes(limits, Run(limits, ops[..|ops| - 1]).entries, last) then map[key := value]
        else before[key := value]
  }

  lemma {:induction false} EntriesAreLastPuts(limits: Limits, ops: seq<Op>, key: Key)
    requires key in Run(limits, ops).entries
    ensures key in LastPuts(limits, ops) && LastPuts(limits, ops)[key] == Run(limits, ops).entries[key]
  {
    if ops != [] {
      var before, last := ops[..|ops| - 1], ops[|ops| - 1];
      if key in Run(limits, before).entries {
        EntriesAreLastPuts(limits, before, key);
      }
    }
  }

  /** A hit is the last accepted put of exactly that key, and young enough, whatever the clock did. */
  lemma HitIsLastPut(limits: Limits, ops: seq<Op>, key: Key, now: int)
    requires Lookup(limits, Run(limits, ops), key, now).Some?
    ensures key in LastPuts(limits, ops)
            && Lookup(limits, Run(limits, ops), key, now).value == LastPuts(limits, ops)[key]
            && Fresh(limits, LastPuts(limits, ops)[key], now)
  {
    EntriesAreLastPuts(limits, ops, key);
  }

  /** The clock at the puts never goes back, and is not past `now`. */
  ghost predicate Monotone(ops: seq<Op>, now: int) {
    && (forall i :: 0 <= i < |ops| && ops[i].Put? ==> ops[i].now <= now)
    && (forall i, j :: 0 <= i < j < |ops| && ops[i].Put? && ops[j].Put? ==> ops[i].now <= ops[j].now)
  }

  /**
   Dropping expired entries early is never seen: a lookup is one in the map that forgets only when flushed or
   cleared.
   */
  lemma {:induction false} LookupExactly(limits: Limits, ops: seq<Op>, key: Key, now: int)
    requires Monotone(ops, now)
    ensures Lookup(limits, Run(limits, ops), key, now) == Lookup(limits, State(KeptPuts(limits, ops), 0), key, now)
  {
    if ops != [] {
      var before, last := ops[..|ops| - 1], ops[|ops| - 1];
      LookupExactly(limits, before, key, now);
      if last.Put? {
        LookupExactly(limits, before, key, last.now);
        if key in Run(limits, before).entries {
          EntriesAreKeptPuts(limits, before, key);
        }
      }
    }
  }

  lemma {:induction false} EntriesAreKeptPuts(limits: Limits, ops: seq<Op>, key: Key)
    requires key in Run(limits, ops).entries
    ensures key in KeptPuts(limits, ops) && KeptPuts(limits, ops)[key] == Run(limits, ops).entries[key]
  {
    if ops != [] {
      var before := ops[..|ops| - 1];
      if key in Run(limits, before).entries {
        EntriesAreKeptPuts(limits, before, key);
      }
    }
  }

  // ---------- when is the last put missed? ----------

  predicate PutAt(limits: Limits, ops: seq<Op>, key: Key, k: nat) {
    k < |ops| && ops[k].Put? && ops[k].key == key && Accepts(limits, ops[k].value)
  }

  /** The k-th operation is the last accepted put of the key, and nothing was cleared since. */
  ghost predicate LastAt(limits: Limits, ops: seq<Op>, key: Key, k: nat) {
    PutAt(limits, ops, key, k) && forall j :: k < j < |ops| ==> !ops[j].Clear? && !PutAt(limits, ops, key, j)
  }

  /** The j-th operation is a put that emptied the full map first. */
  ghost predicate FlushAt(limits: Limits, ops: seq<Op>, j: nat) {
    j < |ops| && Flushes(limits, Run(limits, ops[..j]).entries, ops[j])
  }

  /** Some later put emptied the full map first. */
  ghost predicate FlushedAfter(limits: Limits, ops: seq<Op>, k: nat) {
    exists j: nat :: k < j && FlushAt(limits, ops, j)
  }

  lemma FlushAtEarlier(limits: Limits, ops: seq<Op>, j: nat)
    requires j < |ops| - 1
    ensures FlushAt(limits, ops, j) <==> FlushAt(limits, ops[..|ops| - 1], j)
  {
    assert ops[..|ops| - 1][..j] == ops[..j];
  }

  lemma FlushedEarlier(limits: Limits, ops: seq<Op>, k: nat)
    requires k < |ops| - 1
    ensures FlushedAfter(limits, ops, k) <==>
      FlushedAfter(limits, ops[..|ops| - 1], k) || FlushAt(limits, ops, |ops| - 1)
  {
    forall j: nat | j < |ops| - 1
      ensures FlushAt(limits, ops, j) <==> FlushAt(limits, ops[..|ops| - 1], j)
    {
      FlushAtEarlier(limits, ops, j);
    }
    var init := ops[..|ops| - 1];
    if FlushedAfter(limits, init, k) {
      var j: nat :| k < j && FlushAt(limits, init, j);
      assert FlushAt(limits, ops, j);
    }
    if FlushedAfter(limits, ops, k) {
      var j: nat :| k < j && FlushAt(limits, ops, j);
      assert j == |ops| - 1 || FlushAt(limits, init, j);
    }
  }

  lemma {:induction false} LastPutIs(limits: Limits, ops: seq<Op>, key: Key, k: nat)
    requires LastAt(limits, ops, key, k)
    ensures key in LastPuts(limits, ops) && LastPuts(limits, ops)[key] == ops[k].value
  {
    if k < |ops| - 1 {
      var init := ops[..|ops| - 1];
      assert LastAt(limits, init, key, k);
      LastPutIs(limits, init, key, k);
      assert !PutAt(limits, ops, key, |ops| - 1);
    }
  }

  /** The last put of a key is still kept exactly when nothing was flushed after it. */
  lemma {:induction false} KeptExactly(limits: Limits, ops: seq<Op>, key: Key, k: nat)
    requires LastAt(limits, ops, key, k)
    ensures key in KeptPuts(limits, ops) <==> !FlushedAfter(limits, ops, k)
    ensures key in KeptPuts(limits, ops) ==> KeptPuts(limits, ops)[key] == ops[k].value
  {
    if k < |ops| - 1 {
      var init := ops[..|ops| - 1];
      assert LastAt(limits, init, key, k);
      KeptExactly(limits, init, key, k);
      FlushedEarlier(limits, ops, k);
      assert !PutAt(limits, ops, key, |ops| - 1);
    }
  }

  /**
   Completeness: with a clock that does not go back, a lookup finds the last accepted put of its key, if that is
   young enough, exactly unless a later put flushed the map.
   */
  lemma MissedExactly(limits: Limits, ops: seq<Op>, key: Key, now: int, k: nat)
    requires Monotone(ops, now) && LastAt(limits, ops, key, k) && Fresh(limits, ops[k].value, now)
    ensures key in LastPuts(limits, ops) && LastPuts(limits, ops)[key] == ops[k].value
    ensures Lookup(limits, Run(limits, ops), key, now)
         == if FlushedAfter(limits, ops, k) then None else Some(LastPuts(limits, ops)[key])
  {
    LastPutIs(limits, ops, key, k);
    KeptExactly(limits, ops, key, k);
    LookupExactly(limits, ops, key, now);
  }

  class Cache {
    const limits: Limits
    var bytes: nat
    var entries: Entries
    /** Everything put and cleared so far. */
    ghost var trace: seq<Op>

    ghost predicate Valid() reads this {
      State(entries, bytes) == Run(limits, trace)
    }

    constructor (limits: Limits)
      ensures Valid() && this.limits == limits && trace == []
    {
      this.limits, bytes, entries, trace := limits, 0, map[], [];
    }

    method Get(key: Key, now: int) returns (hit: Option<Manifest>)
      requires Valid()
      ensures hit == Lookup(limits, Run(limits, trace), key, now)
      ensures hit == if key in Young(limits, entries, now) then Some(entries[key]) else None
      ensures hit.Some? ==> key in LastPuts(limits, trace) && hit.value == LastPuts(limits, trace)[key]
    {
      hit := if key in entries && Fresh(limits, entries[key], now) then Some(entries[key]) else None;
      if hit.Some? {
        EntriesAreLastPuts(limits, trace, key);
      }
    }

    /** The sum of the body lengths, in whatever order the map is read. */
    method Sum() returns (total: nat)
      ensures total == BodyBytes(entries)
    {
      total := 0;
      var left := entries;
      while left != map[]
        invariant total + BodyBytes(left) == BodyBytes(entries)
        decreases |left|
      {
        var key :| key in left;
        BodyBytesWithout(left, key);
        total := total + |left[key].body|;
        left := left - {key};
      }
    }

    method Put(key: Key, value: Manifest, now: int)
      requires Valid()
      modifies this
      ensures Valid() && trace == old(trace) + [Op.Put(key, value, now)]
      ensures WithinBudget(limits, State(entries, bytes))
      ensures Accepts(limits, value) ==> key in entries && entries[key] == value
    {
      ghost var op := Op.Put(key, value, now);
      assert (trace + [op])[..|trace|] == trace;
      trace := trace + [op];
      RunWithinBudget(limits, trace);
      if |value.body| > limits.maxBytes {
        return;
      }
      entries := Retained(limits, entries, now);
      var total := Sum();
      var nextBytes := Max(total - (if key in entries then |entries[key].body| else 0), 0) + |value.body|;
      if |entries| >= limits.maxEntries || nextBytes > limits.maxBytes {
        entries := map[];
        total := |value.body|;
      } else {
        total := nextBytes;
      }
      entries := entries[key := value];
      bytes := total;
    }

    method Clear()
      requires Valid()
      modifies this
      ensures Valid() && trace == old(trace) + [Op.Clear] && entries == map[] && bytes == 0
    {
      entries, bytes := map[], 0;
      assert (trace + [Op.Clear])[..|trace|] == trace;
      trace := trace + [Op.Clear];
    }
  }
}
