/** The content-addressed disk cache: byte counter, eviction, per-digest locks (src/cache.rs: `DiskCache`). */
module DiskCache {
  import opened Wrappers

  const PART_MAX_AGE: nat := 3600
  const EVICT_TARGET_NUM: nat := 9
  const EVICT_TARGET_DEN: nat := 10
  const INFLIGHT_PRUNE_AT: nat := 4096

  /** `scratch`: the name ends in `.part` or `.bitmap`. Times are seconds. */
  datatype File = File(scratch: bool, size: nat, modified: int)

  type Files = map<string, File>

  ghost predicate Distinct(names: seq<string>) {
    forall i, j :: 0 <= i < j < |names| ==> names[i] != names[j]
  }

  /** The order in which the directory is read: every name once. */
  ghost predicate Lists(listing: seq<string>, files: Files) {
    && Distinct(listing)
    && (forall name :: name in listing <==> name in files)
  }

  function Counted(file: File): nat { if file.scratch then 0 else file.size }

  /** Bytes of committed blobs on disk. */
  ghost function BlobBytes(files: Files): nat {
    if files == map[] then 0
    else
      var name :| name in files;
      Counted(files[name]) + BlobBytes(files - {name})
  }

  lemma {:induction false} BlobBytesWithout(files: Files, name: string)
    requires name in files
    ensures BlobBytes(files) == Counted(files[name]) + BlobBytes(files - {name})
    decreases |files|
  {
    var first :| first in files && BlobBytes(files) == Counted(files[first]) + BlobBytes(files - {first});
    if first != name {
      BlobBytesWithout(files - {first}, name);
      BlobBytesWithout(files - {name}, first);
      assert files - {first} - {name} == files - {name} - {first};
    }
  }

  function Flipped(files: Files): Files {
    map n | n in files :: files[n].(scratch := !files[n].scratch)
  }

  /** Bytes of part and bitmap files on disk. */
  ghost function ScratchBytes(files: Files): nat { BlobBytes(Flipped(files)) }

  lemma ScratchBytesWithout(files: Files, name: string)
    requires name in files
    ensures ScratchBytes(files) == (if files[name].scratch then files[name].size else 0) + ScratchBytes(files - {name})
  {
    BlobBytesWithout(Flipped(files), name);
    assert Flipped(files) - {name} == Flipped(files - {name});
  }

  lemma BlobBytesAdd(files: Files, name: string, file: File)
    requires name !in files
    ensures BlobBytes(files[name := file]) == BlobBytes(files) + Counted(file)
  {
    BlobBytesWithout(files[name := file], name);
    assert files[name := file] - {name} == files;
  }

  // ---------- eviction ----------

  /** Age as `elapsed().unwrap_or_default()` gives it: a time in the future counts as no age. */
  function Age(file: File, now: int): nat { Max(now - file.modified, 0) }

  predicate Evictable(file: File, now: int) {
    !(file.scratch && Age(file, now) < PART_MAX_AGE)
  }

  /** The files eviction looks at, in reading order, among the first `n` listed. */
  function CandidatesUpTo(files: Files, listing: seq<string>, n: nat, now: int): seq<string>
    requires n <= |listing|
  {
    if n == 0 then []
    else
      CandidatesUpTo(files, listing, n - 1, now)
      + if listing[n - 1] in files && Evictable(files[listing[n - 1]], now) then [listing[n - 1]] else []
  }

  function Candidates(files: Files, listing: seq<string>, now: int): seq<string> {
    CandidatesUpTo(files, listing, |listing|, now)
  }

  function InsertByAge(files: Files, name: string, names: seq<string>): seq<string>
    requires name in files && forall n :: n in names ==> n in files
  {
    if names == [] || files[name].modified <= files[names[0]].modified then [name] + names
    else [names[0]] + InsertByAge(files, name, names[1..])
  }

  /** A stable sort, oldest first. */
  function ByAge(files: Files, names: seq<string>): (sorted: seq<string>)
    requires forall n :: n in names ==> n in files
    ensures forall n :: n in sorted <==> n in names
  {
    if names == [] then []
    else
      InsertMembers(files, names[0], ByAge(files, names[1..]));
      InsertByAge(files, names[0], ByAge(files, names[1..]))
  }

  lemma {:induction false} InsertMembers(files: Files, name: string, names: seq<string>)
    requires name in files && forall n :: n in names ==> n in files
    ensures forall n :: n in InsertByAge(files, name, names) <==> n == name || n in names
    ensures |InsertByAge(files, name, names)| == |names| + 1
  {
    if !(names == [] || files[name].modified <= files[names[0]].modified) {
      InsertMembers(files, name, names[1..]);
    }
  }

  ghost predicate OldestFirst(files: Files, names: seq<string>)
    requires forall n :: n in names ==> n in files
  {
    forall i, j :: 0 <= i < j < |names| ==> files[names[i]].modified <= files[names[j]].modified
  }

  lemma {:induction false} InsertSorted(files: Files, name: string, names: seq<string>)
    requires name in files && (forall n :: n in names ==> n in files) && OldestFirst(files, names)
    ensures forall n :: n in InsertByAge(files, name, names) <==> n == name || n in names
    ensures OldestFirst(files, InsertByAge(files, name, names))
  {
    var sorted := InsertByAge(files, name, names);
    InsertMembers(files, name, names);
    if names == [] || files[name].modified <= files[names[0]].modified {
      assert sorted == [name] + names;
    } else {
      InsertSorted(files, name, names[1..]);
      var rest := InsertByAge(files, name, names[1..]);
      assert sorted == [names[0]] + rest;
      forall j | 0 <= j < |rest|
        ensures files[names[0]].modified <= files[rest[j]].modified
      {
        assert rest[j] in rest;
      }
    }
  }

  lemma {:induction false} InsertDistinct(files: Files, name: string, names: seq<string>)
    requires name in files && (forall n :: n in names ==> n in files)
    requires Distinct(names) && name !in names
    ensures Distinct(InsertByAge(files, name, names))
  {
    if !(names == [] || files[name].modified <= files[names[0]].modified) {
      InsertDistinct(files, name, names[1..]);
      InsertMembers(files, name, names[1..]);
      assert names[0] !in names[1..];
    }
  }

  lemma {:induction false} ByAgeSorted(files: Files, names: seq<string>)
    requires (forall n :: n in names ==> n in files) && Distinct(names)
    ensures OldestFirst(files, ByAge(files, names)) && Distinct(ByAge(files, names))
    ensures |ByAge(files, names)| == |names|
  {
    if names != [] {
      ByAgeSorted(files, names[1..]);
      InsertSorted(files, names[0], ByAge(files, names[1..]));
      InsertDistinct(files, names[0], ByAge(files, names[1..]));
      InsertMembers(files, names[0], ByAge(files, names[1..]));
    }
  }

  /** How many of `names` the removal loop tries, and the counter it ends with. */
  datatype Plan = Plan(tried: nat, total: nat)

  /** The counter after trying to remove one file. */
  function Left(files: Files, name: string, total: nat, removable: set<string>): nat
    requires name in files
  {
    if name in removable then Max(total - files[name].size, 0) else total
  }

  function Reclaim(files: Files, names: seq<string>, total: nat, target: nat, removable: set<string>): (plan: Plan)
    requires forall n :: n in names ==> n in files
    ensures plan.tried <= |names|
  {
    if names == [] || total <= target then Plan(0, total)
    else
      var left := Left(files, names[0], total, removable);
      var rest := Reclaim(files, names[1..], left, target, removable);
      Plan(rest.tried + 1, rest.total)
  }

  function Without(files: Files, names: seq<string>, removable: set<string>): Files {
    map n | n in files && !(n in names && n in removable) :: files[n]
  }

  lemma CandidatesAreEvictable(files: Files, listing: seq<string>, now: int)
    ensures forall n :: n in Candidates(files, listing, now) <==> n in listing && n in files && Evictable(files[n], now)
    ensures forall n :: n in Candidates(files, listing, now) <==>
      n in listing && n in files && (!files[n].scratch || now - files[n].modified >= 3600)
  {
    CandidatesFound(files, listing, |listing|, now);
    assert listing[..|listing|] == listing;
  }

  lemma {:induction false} CandidatesFound(files: Files, listing: seq<string>, k: nat, now: int)
    requires k <= |listing|
    ensures forall n :: n in CandidatesUpTo(files, listing, k, now) <==>
      n in listing[..k] && n in files && Evictable(files[n], now)
  {
    if k > 0 {
      CandidatesFound(files, listing, k - 1, now);
      assert listing[..k] == listing[..k - 1] + [listing[k - 1]];
    }
  }

  lemma CandidatesDistinct(files: Files, listing: seq<string>, now: int)
    requires Distinct(listing)
    ensures Distinct(Candidates(files, listing, now))
  {
    CandidatesOnce(files, listing, |listing|, now);
  }

  lemma {:induction false} CandidatesOnce(files: Files, listing: seq<string>, k: nat, now: int)
    requires k <= |listing| && Distinct(listing)
    ensures Distinct(CandidatesUpTo(files, listing, k, now))
  {
    if k > 0 {
      CandidatesOnce(files, listing, k - 1, now);
      CandidatesFound(files, listing, k - 1, now);
      assert listing[k - 1] !in listing[..k - 1];
    }
  }

  lemma ReclaimAt(files: Files, queue: seq<string>, n: nat, total: nat, target: nat, removable: set<string>)
    requires (forall name :: name in queue ==> name in files) && n < |queue| && total > target
    ensures var left := Left(files, queue[n], total, removable);
            Reclaim(files, queue[n..], total, target, removable)
            == Plan(Reclaim(files, queue[n + 1..], left, target, removable).tried + 1,
                    Reclaim(files, queue[n + 1..], left, target, removable).total)
  {
    assert queue[n..][0] == queue[n] && queue[n..][1..] == queue[n + 1..];
  }

  lemma WithoutPush(files: Files, queue: seq<string>, n: nat, removable: set<string>)
    requires Distinct(queue) && n < |queue| && queue[n] in files
    ensures var left := Without(files, queue[..n], removable);
            && queue[n] in left && left[queue[n]] == files[queue[n]]
            && Without(files, queue[..n + 1], removable) == if queue[n] in removable then left - {queue[n]} else left
  {
    assert queue[..n + 1] == queue[..n] + [queue[n]] && queue[n] !in queue[..n];
  }

  ghost function AllBytes(files: Files): nat { BlobBytes(files) + ScratchBytes(files) }

  lemma AllBytesWithout(files: Files, name: string)
    requires name in files
    ensures AllBytes(files) == files[name].size + AllBytes(files - {name})
  {
    BlobBytesWithout(files, name);
    ScratchBytesWithout(files, name);
  }

  lemma {:induction false} FewerBlobBytes(files: Files, some: Files)
    requires forall n :: n in some ==> n in files && some[n] == files[n]
    ensures BlobBytes(some) <= BlobBytes(files)
    decreases |some|
  {
    if some != map[] {
      var name :| name in some;
      BlobBytesWithout(some, name);
      BlobBytesWithout(files, name);
      FewerBlobBytes(files - {name}, some - {name});
    }
  }

  lemma FewerBytes(files: Files, some: Files)
    requires forall n :: n in some ==> n in files && some[n] == files[n]
    ensures BlobBytes(some) <= BlobBytes(files) && ScratchBytes(some) <= ScratchBytes(files)
  {
    FewerBlobBytes(files, some);
    FewerBlobBytes(Flipped(files), Flipped(some));
  }

  /** The saturating subtractions of the loop come to one: of all bytes removed, blobs and scratch files alike. */
  lemma {:induction false} ReclaimTotal(files: Files, names: seq<string>, total: nat, target: nat,
                                        removable: set<string>)
    requires (forall n :: n in names ==> n in files) && Distinct(names)
    ensures ComesToOne(files, names, total, target, removable)
    decreases |names|
  {
    if names == [] || total <= target {
      assert Without(files, names[..Reclaim(files, names, total, target, removable).tried], removable) == files;
    } else {
      var next := if names[0] in removable then files - {names[0]} else files;
      var left := Left(files, names[0], total, removable);
      TailDistinct(names);
      ReclaimTotal(next, names[1..], left, target, removable);
      ComesToOneStep(files, names, total, target, removable);
    }
  }

  ghost predicate ComesToOne(files: Files, names: seq<string>, total: nat, target: nat, removable: set<string>)
    requires forall n :: n in names ==> n in files
  {
    var plan := Reclaim(files, names, total, target, removable);
    plan.total == Max(total - Removed(files, Without(files, names[..plan.tried], removable)), 0)
  }

  lemma ComesToOneStep(files: Files, names: seq<string>, total: nat, target: nat, removable: set<string>)
    requires (forall n :: n in names ==> n in files) && Distinct(names) && names != [] && total > target
    requires forall n :: n in names[1..] ==> n in (if names[0] in removable then files - {names[0]} else files)
    requires ComesToOne(if names[0] in removable then files - {names[0]} else files, names[1..],
                        Left(files, names[0], total, removable), target, removable)
    ensures ComesToOne(files, names, total, target, removable)
  {
    var next := if names[0] in removable then files - {names[0]} else files;
    var tried := Reclaim(files, names, total, target, removable).tried;
    NextReclaim(files, names, total, target, removable);
    RemovedStep(files, names[0], removable, Without(next, names[1..][..tried - 1], removable));
    WithoutTail(files, names, tried, removable);
  }

  lemma NextReclaim(files: Files, names: seq<string>, total: nat, target: nat, removable: set<string>)
    requires (forall n :: n in names ==> n in files) && Distinct(names) && names != [] && total > target
    ensures var next := if names[0] in removable then files - {names[0]} else files;
            var left := Left(files, names[0], total, removable);
            && (forall n :: n in names[1..] ==> n in next)
            && Reclaim(files, names, total, target, removable)
               == Plan(Reclaim(next, names[1..], left, target, removable).tried + 1,
                       Reclaim(next, names[1..], left, target, removable).total)
  {
    var next := if names[0] in removable then files - {names[0]} else files;
    var left := Left(files, names[0], total, removable);
    TailDistinct(names);
    SameReclaim(files, next, names[1..], left, target, removable);
  }

  /** Bytes that went, of blobs and scratch files alike. */
  ghost function Removed(files: Files, after: Files): int { AllBytes(files) - AllBytes(after) }

  lemma RemovedStep(files: Files, name: string, removable: set<string>, after: Files)
    requires name in files
    requires var next := if name in removable then files - {name} else files;
             forall n :: n in after ==> n in next && after[n] == next[n]
    ensures var next := if name in removable then files - {name} else files;
            Removed(next, after) >= 0
            && Removed(files, after) == Removed(next, after) + if name in removable then files[name].size else 0
  {
    AllBytesWithout(files, name);
    FewerBytes(if name in removable then files - {name} else files, after);
  }

  /** The counter never exceeds the blobs on disk, through every removal, also failing ones. */
  lemma ReclaimKeepsBound(files: Files, names: seq<string>, total: nat, target: nat, removable: set<string>)
    requires (forall n :: n in names ==> n in files) && Distinct(names)
    requires total <= BlobBytes(files)
    ensures var plan := Reclaim(files, names, total, target, removable);
            plan.total <= BlobBytes(Without(files, names[..plan.tried], removable))
  {
    var plan := Reclaim(files, names, total, target, removable);
    ReclaimTotal(files, names, total, target, removable);
    FewerBytes(files, Without(files, names[..plan.tried], removable));
  }

  lemma {:induction false} SameReclaim(a: Files, b: Files, names: seq<string>, total: nat, target: nat,
                                       removable: set<string>)
    requires forall n :: n in names ==> n in a && n in b && a[n] == b[n]
    ensures Reclaim(a, names, total, target, removable) == Reclaim(b, names, total, target, removable)
  {
    if names != [] && total > target {
      SameReclaim(a, b, names[1..], Left(a, names[0], total, removable), target, removable);
    }
  }

  lemma TailDistinct(names: seq<string>)
    requires Distinct(names) && names != []
    ensures Distinct(names[1..]) && names[0] !in names[1..]
  {
  }

  lemma WithoutTail(files: Files, names: seq<string>, k: nat, removable: set<string>)
    requires 0 < k <= |names|
    ensures var next := if names[0] in removable then files - {names[0]} else files;
            Without(next, names[1..][..k - 1], removable) == Without(files, names[..k], removable)
  {
    assert names[..k] == [names[0]] + names[1..][..k - 1];
  }

  ghost function Sizes(files: Files, names: seq<string>): nat
    requires forall n :: n in names ==> n in files
  {
    if names == [] then 0 else files[names[0]].size + Sizes(files, names[1..])
  }

  /** With every removal succeeding, the loop gets to the target, or frees all it was given. */
  lemma {:induction false} ReclaimReaches(files: Files, names: seq<string>, total: nat, target: nat,
                                          removable: set<string>)
    requires forall n :: n in names ==> n in files && n in removable
    ensures Reclaim(files, names, total, target, removable).total <= Max(target, total - Sizes(files, names))
  {
    if names != [] && total > target {
      ReclaimReaches(files, names[1..], Max(total - files[names[0]].size, 0), target, removable);
    }
  }

  /** No file is tried once the counter is at or below the target; the loop stops there or at the end. */
  lemma {:induction false} ReclaimStops(files: Files, names: seq<string>, total: nat, target: nat,
                                        removable: set<string>, k: nat)
    requires forall n :: n in names ==> n in files
    requires k <= |names|
    ensures var plan := Reclaim(files, names, total, target, removable);
            && (k < plan.tried ==>
                  && Reclaim(files, names[..k], total, target, removable)
                     == Plan(k, TotalAfter(files, names[..k], total, removable))
                  && TotalAfter(files, names[..k], total, removable) > target)
            && (plan.tried < |names| ==> plan.total <= target)
            && plan.total == TotalAfter(files, names[..plan.tried], total, removable)
  {
    if names != [] && total > target {
      var left := Left(files, names[0], total, removable);
      var plan := Reclaim(files, names, total, target, removable);
      assert names[..plan.tried][1..] == names[1..][..plan.tried - 1];
      ReclaimStops(files, names[1..], left, target, removable, if k == 0 then 0 else k - 1);
      if 0 < k {
        assert names[..k][1..] == names[1..][..k - 1];
      }
    }
  }

  /** The counter after removing what can be removed of `names`, in order. */
  function TotalAfter(files: Files, names: seq<string>, total: nat, removable: set<string>): nat
    requires forall n :: n in names ==> n in files
  {
    if names == [] then total
    else TotalAfter(files, names[1..], Left(files, names[0], total, removable), removable)
  }

  // ---------- one eviction ----------

  /** Nine tenths of the cap, the u64 product wrapping. */
  function Target(maxBytes: nat): nat { maxBytes * EVICT_TARGET_NUM % U64_LIMIT / EVICT_TARGET_DEN }

  lemma TargetAtMost(maxBytes: nat)
    ensures Target(maxBytes) <= maxBytes
  {
  }

  /** The watermark is nine tenths of the cap exactly while the product fits; it never exceeds the cap. */
  lemma TargetExactly(maxBytes: nat)
    requires maxBytes < U64_LIMIT
    ensures Target(maxBytes) == maxBytes * 9 / 10 <==> maxBytes * 9 < U64_LIMIT
    ensures Target(maxBytes) <= maxBytes
  {
    if maxBytes * 9 >= U64_LIMIT {
      assert maxBytes * 9 % U64_LIMIT <= maxBytes * 9 - U64_LIMIT;
    }
  }

  /** Victims in order, as `evict_old` considers them. */
  function Queue(files: Files, listing: seq<string>, now: int): (queue: seq<string>)
    ensures forall n :: n in queue <==> n in listing && n in files && Evictable(files[n], now)
  {
    CandidatesAreEvictable(files, listing, now);
    ByAge(files, Candidates(files, listing, now))
  }

  function Evict(files: Files, listing: seq<string>, now: int, onDisk: nat, maxBytes: nat,
                 removable: set<string>): (r: (Files, nat))
  {
    if onDisk <= maxBytes then (files, onDisk)
    else EvictTo(files, Queue(files, listing, now), onDisk, Target(maxBytes), removable)
  }

  /** Files and counter after the removal loop. */
  function EvictTo(files: Files, queue: seq<string>, onDisk: nat, target: nat, removable: set<string>): (Files, nat)
    requires forall n :: n in queue ==> n in files
  {
    var plan := Reclaim(files, queue, onDisk, target, removable);
    (Without(files, queue[..plan.tried], removable), plan.total)
  }

  lemma QueueDistinct(files: Files, listing: seq<string>, now: int)
    requires Lists(listing, files)
    ensures OldestFirst(files, Queue(files, listing, now)) && Distinct(Queue(files, listing, now))
  {
    CandidatesAreEvictable(files, listing, now);
    CandidatesDistinct(files, listing, now);
    ByAgeSorted(files, Candidates(files, listing, now));
  }

  /** Files go or stay as they are, and part and bitmap files younger than an hour never go. */
  lemma EvictSparesYoung(files: Files, listing: seq<string>, now: int, onDisk: nat, maxBytes: nat,
                         removable: set<string>)
    ensures var after := Evict(files, listing, now, onDisk, maxBytes, removable).0;
            && (forall n :: n in after ==> n in files && after[n] == files[n])
            && (forall n :: n in files && files[n].scratch && now - files[n].modified < 3600 ==> n in after)
  {
  }

  /** Victims are an oldest-first prefix of the candidates: what could go and stays is no older than what goes. */
  lemma VictimsAreOldest(files: Files, listing: seq<string>, now: int, onDisk: nat, maxBytes: nat,
                         removable: set<string>, gone: string, kept: string)
    requires Lists(listing, files)
    requires var after := Evict(files, listing, now, onDisk, maxBytes, removable).0;
             gone in files && gone !in after && kept in after
    requires kept in files && kept in removable && Evictable(files[kept], now)
    ensures files[gone].modified <= files[kept].modified
  {
    var queue := Queue(files, listing, now);
    var k := Reclaim(files, queue, onDisk, Target(maxBytes), removable).tried;
    QueueDistinct(files, listing, now);
    assert gone in queue[..k] && kept !in queue[..k];
    EarlierIsOlder(files, queue, k, gone, kept);
  }

  lemma EarlierIsOlder(files: Files, queue: seq<string>, k: nat, gone: string, kept: string)
    requires (forall n :: n in queue ==> n in files) && OldestFirst(files, queue)
    requires k <= |queue| && gone in queue[..k] && kept in queue && kept !in queue[..k]
    ensures files[gone].modified <= files[kept].modified
  {
    var i :| 0 <= i < k && queue[i] == gone;
    var j :| 0 <= j < |queue| && queue[j] == kept;
    assert forall m :: 0 <= m < k ==> queue[m] in queue[..k];
  }

  /** Up to the cap nothing goes and the counter stays; over it something goes, if there is something to remove. */
  lemma EvictsExactly(files: Files, listing: seq<string>, now: int, onDisk: nat, maxBytes: nat, removable: set<string>)
    requires Lists(listing, files)
    ensures var r := Evict(files, listing, now, onDisk, maxBytes, removable);
            && (onDisk <= maxBytes ==> r == (files, onDisk))
            && (files.Keys <= removable ==>
                  (r.0 != files <==> onDisk > maxBytes && exists n :: n in files && Evictable(files[n], now)))
  {
    var queue := Queue(files, listing, now);
    if onDisk > maxBytes && queue != [] {
      TargetAtMost(maxBytes);
      var after := Evict(files, listing, now, onDisk, maxBytes, removable).0;
      var k := Reclaim(files, queue, onDisk, Target(maxBytes), removable).tried;
      assert queue[0] in queue[..k] && queue[0] in files.Keys && Evictable(files[queue[0]], now);
      assert queue[0] in removable ==> queue[0] !in after;
    } else if onDisk > maxBytes {
      assert forall n :: n in files && Evictable(files[n], now) ==> n in queue;
    }
  }

  lemma ReclaimBounds(files: Files, queue: seq<string>, onDisk: nat, target: nat, removable: set<string>)
    requires (forall n :: n in queue ==> n in files) && Distinct(queue)
    requires target < onDisk <= BlobBytes(files) <= Sizes(files, queue)
    ensures var r := EvictTo(files, queue, onDisk, target, removable);
            && r.1 <= BlobBytes(r.0)
            && r.1 <= onDisk
            && (files.Keys <= removable ==> r.1 <= target)
  {
    ReclaimKeepsBound(files, queue, onDisk, target, removable);
    ReclaimShrinks(files, queue, onDisk, target, removable);
    if files.Keys <= removable {
      assert forall n :: n in queue ==> n in files.Keys;
      ReclaimReaches(files, queue, onDisk, target, removable);
    }
  }

  /** Counter at most the blobs on disk before: so it is after, and if every removal succeeds it is within the cap. */
  lemma EvictBounds(files: Files, listing: seq<string>, now: int, onDisk: nat, maxBytes: nat, removable: set<string>)
    requires Lists(listing, files) && onDisk <= BlobBytes(files)
    ensures var r := Evict(files, listing, now, onDisk, maxBytes, removable);
            && r.1 <= BlobBytes(r.0)
            && r.1 <= onDisk
            && (files.Keys <= removable ==> r.1 <= maxBytes)
            && (files.Keys <= removable && onDisk > maxBytes ==> r.1 <= Target(maxBytes))
  {
    if onDisk > maxBytes {
      TargetAtMost(maxBytes);
      QueueDistinct(files, listing, now);
      QueueHoldsAllBlobs(files, listing, now);
      ReclaimBounds(files, Queue(files, listing, now), onDisk, Target(maxBytes), removable);
    }
  }

  lemma WithinBounds(files: Files, listing: seq<string>, now: int, onDisk: nat, maxBytes: nat, removable: set<string>,
                     r: (Files, nat))
    requires Lists(listing, files) && r == Evict(files, listing, now, onDisk, maxBytes, removable)
    ensures onDisk <= BlobBytes(files) ==> r.1 <= BlobBytes(r.0)
    ensures onDisk <= BlobBytes(files) && files.Keys <= removable ==> r.1 <= maxBytes
  {
    if onDisk <= BlobBytes(files) {
      EvictBounds(files, listing, now, onDisk, maxBytes, removable);
    }
  }

  /**
   The counter is exact after an eviction exactly when it was before and no scratch bytes went, or no blob
   bytes are left.
   */
  lemma EvictExactly(files: Files, listing: seq<string>, now: int, onDisk: nat, maxBytes: nat, removable: set<string>)
    requires Lists(listing, files) && onDisk <= BlobBytes(files)
    ensures var r := Evict(files, listing, now, onDisk, maxBytes, removable);
            r.1 == BlobBytes(r.0)
            <==> (onDisk == BlobBytes(files) && ScratchBytes(r.0) == ScratchBytes(files)) || BlobBytes(r.0) == 0
  {
    if onDisk > maxBytes {
      QueueDistinct(files, listing, now);
      ReclaimExactly(files, Queue(files, listing, now), onDisk, Target(maxBytes), removable);
    }
  }

  lemma ReclaimExactly(files: Files, names: seq<string>, total: nat, target: nat, removable: set<string>)
    requires (forall n :: n in names ==> n in files) && Distinct(names)
    requires total <= BlobBytes(files)
    ensures var r := EvictTo(files, names, total, target, removable);
            r.1 == BlobBytes(r.0)
            <==> (total == BlobBytes(files) && ScratchBytes(r.0) == ScratchBytes(files)) || BlobBytes(r.0) == 0
  {
    var plan := Reclaim(files, names, total, target, removable);
    ReclaimTotal(files, names, total, target, removable);
    FewerBytes(files, Without(files, names[..plan.tried], removable));
  }

  lemma {:induction false} ReclaimShrinks(files: Files, names: seq<string>, total: nat, target: nat,
                                          removable: set<string>)
    requires forall n :: n in names ==> n in files
    ensures Reclaim(files, names, total, target, removable).total <= total
  {
    if names != [] && total > target {
      ReclaimShrinks(files, names[1..], Left(files, names[0], total, removable), target, removable);
    }
  }

  lemma QueueHoldsAllBlobs(files: Files, listing: seq<string>, now: int)
    requires Lists(listing, files)
    ensures Sizes(files, Queue(files, listing, now)) >= BlobBytes(files)
  {
    CandidatesAreEvictable(files, listing, now);
    QueueDistinct(files, listing, now);
    SizesCover(files, files, Queue(files, listing, now));
  }

  /** A list that names every blob of `some` has at least their bytes. */
  lemma {:induction false} SizesCover(files: Files, some: Files, names: seq<string>)
    requires forall n :: n in names ==> n in files
    requires forall n :: n in some ==> n in files && some[n] == files[n]
    requires forall n :: n in some && !some[n].scratch ==> n in names
    ensures BlobBytes(some) <= Sizes(files, names)
    decreases |names|
  {
    if names == [] {
      OnlyScratch(some);
    } else {
      var name := names[0];
      if name in some {
        BlobBytesWithout(some, name);
        SizesCover(files, some - {name}, names[1..]);
      } else {
        SizesCover(files, some, names[1..]);
      }
    }
  }

  lemma {:induction false} OnlyScratch(files: Files)
    requires forall n :: n in files ==> files[n].scratch
    ensures BlobBytes(files) == 0
    decreases |files|
  {
    if files != map[] {
      var name :| name in files;
      BlobBytesWithout(files, name);
      OnlyScratch(files - {name});
    }
  }

  /** What is left of the directory when only `survivors` cannot be removed. */
  function Cleared(files: Files, survivors: set<string>): Files {
    map n | n in files && n in survivors :: files[n]
  }

  // ---------- per-digest locks ----------

  /** `retain(strong_count > 1)` past 4096 entries; `live` are the locks someone besides the map refers to. */
  function Pruned(inflight: map<string, nat>, live: set<nat>): map<string, nat> {
    if |inflight| > INFLIGHT_PRUNE_AT then map hex | hex in inflight && inflight[hex] in live :: inflight[hex]
    else inflight
  }

  /** The map after `inflight_lock(hex)`; `unused` is the lock made if there is none. */
  function WithLock(inflight: map<string, nat>, live: set<nat>, hex: string, unused: nat): map<string, nat> {
    var kept := Pruned(inflight, live);
    if hex in kept then kept else kept[hex := unused]
  }

  class Cache {
    const maxBytes: nat
    var onDisk: nat
    var files: Files
    var inflight: map<string, nat>
    var nextLock: nat

    constructor (maxBytes: nat, files: Files)
      ensures this.maxBytes == maxBytes && this.files == files && onDisk == 0 && inflight == map[] && nextLock == 0
    {
      this.maxBytes, this.files, onDisk, inflight, nextLock := maxBytes, files, 0, map[], 0;
    }

    /** `init` and `scan_bytes`: the counter is rebuilt from the blobs on disk. */
    method Init(listing: seq<string>)
      requires Lists(listing, files)
      modifies this`onDisk
      ensures onDisk == BlobBytes(files)
    {
      var total, n := 0, 0;
      ghost var left := files;
      while n < |listing|
        invariant 0 <= n <= |listing|
        invariant forall name :: name in left <==> name in files && name !in listing[..n]
        invariant forall name :: name in left ==> left[name] == files[name]
        invariant total + BlobBytes(left) == BlobBytes(files)
      {
        var name := listing[n];
        assert name in listing && name in left;
        BlobBytesWithout(left, name);
        if !files[name].scratch {
          total := total + files[name].size;
        }
        left := left - {name};
        n := n + 1;
      }
      assert left == map[];
      onDisk := total;
    }

    /** `inflight_lock`: one lock per digest, unreferenced ones dropped when the map has grown. */
    method InflightLock(hex: string, live: set<nat>) returns (lock: nat)
      requires nextLock !in live
      modifies this`inflight, this`nextLock
      ensures inflight == WithLock(old(inflight), live, hex, old(nextLock)) && lock == inflight[hex]
      ensures nextLock == old(nextLock) + 1
      ensures var kept := set h | h in old(inflight) && (|old(inflight)| <= 4096 || old(inflight)[h] in live);
              && inflight.Keys == kept + {hex}
              && (forall h :: h in kept ==> inflight[h] == old(inflight)[h])
              && (hex !in kept ==> lock == old(nextLock))
    {
      if |inflight| > INFLIGHT_PRUNE_AT {
        inflight := map h | h in inflight && inflight[h] in live :: inflight[h];
      }
      if hex !in inflight {
        inflight := inflight[hex := nextLock];
      }
      lock := inflight[hex];
      nextLock := nextLock + 1;
    }

    /** `committed`: the blob is in place; count it, and evict when over the cap. */
    method Committed(size: nat, listing: seq<string>, now: int, removable: set<string>)
      requires Lists(listing, files)
      modifies this`onDisk, this`files
      ensures (files, onDisk) == Evict(old(files), listing, now, old(onDisk) + size, maxBytes, removable)
      ensures old(onDisk) + size <= BlobBytes(old(files)) ==> onDisk <= BlobBytes(files)
      ensures old(onDisk) + size <= BlobBytes(old(files)) && old(files).Keys <= removable ==> onDisk <= maxBytes
    {
      ghost var before, counted := files, onDisk + size;
      CountAndEvict(size, listing, now, removable);
      WithinBounds(before, listing, now, counted, maxBytes, removable, (files, onDisk));
    }

    method CountAndEvict(size: nat, listing: seq<string>, now: int, removable: set<string>)
      requires Lists(listing, files)
      modifies this`onDisk, this`files
      ensures (files, onDisk) == Evict(old(files), listing, now, old(onDisk) + size, maxBytes, removable)
    {
      onDisk := onDisk + size;
      if onDisk > maxBytes {
        EvictOld(listing, now, removable);
      }
    }

    /** `evict_old`: collect, sort by age, remove until the counter is at nine tenths of the cap. */
    method EvictOld(listing: seq<string>, now: int, removable: set<string>)
      requires Lists(listing, files)
      modifies this`onDisk, this`files
      ensures (files, onDisk) == Evict(old(files), listing, now, old(onDisk), maxBytes, removable)
    {
      if onDisk <= maxBytes {
        return;
      }
      var candidates := Collect(listing, now);
      QueueDistinct(files, listing, now);
      CandidatesAreEvictable(files, listing, now);
      RemoveUntil(ByAge(files, candidates), maxBytes * EVICT_TARGET_NUM % U64_LIMIT / EVICT_TARGET_DEN, removable);
    }

    /** The files eviction may remove, as the directory is read. */
    method Collect(listing: seq<string>, now: int) returns (candidates: seq<string>)
      ensures candidates == Candidates(files, listing, now)
    {
      candidates := [];
      var n := 0;
      while n < |listing|
        invariant 0 <= n <= |listing|
        invariant candidates == CandidatesUpTo(files, listing, n, now)
      {
        var name := listing[n];
        if name in files && !(files[name].scratch && Age(files[name], now) < PART_MAX_AGE) {
          candidates := candidates + [name];
        }
        n := n + 1;
      }
    }

    method RemoveUntil(queue: seq<string>, target: nat, removable: set<string>)
      requires Distinct(queue) && forall n :: n in queue ==> n in files
      modifies this`onDisk, this`files
      ensures var plan := Reclaim(old(files), queue, old(onDisk), target, removable);
              files == Without(old(files), queue[..plan.tried], removable) && onDisk == plan.total
    {
      ghost var before, plan := files, Reclaim(files, queue, onDisk, target, removable);
      var total: nat, n := onDisk, 0;
      while n < |queue|
        invariant 0 <= n <= |queue|
        invariant files == Without(before, queue[..n], removable)
        invariant plan == Plan(n + Reclaim(before, queue[n..], total, target, removable).tried,
                               Reclaim(before, queue[n..], total, target, removable).total)
      {
        if total <= target {
          break;
        }
        var name := queue[n];
        ReclaimAt(before, queue, n, total, target, removable);
        WithoutPush(before, queue, n, removable);
        if name in removable {
          total := Max(total - files[name].size, 0);
          files := files - {name};
        }
        n := n + 1;
      }
      onDisk := total;
    }

    /** `clear`: the directory is removed, as far as that works, and the counter is zeroed. */
    method Clear(survivors: set<string>) returns (freed: nat)
      modifies this`onDisk, this`files
      ensures freed == old(onDisk) && onDisk == 0
      ensures files == Cleared(old(files), survivors)
      ensures files.Keys == old(files).Keys * survivors && forall n :: n in files ==> files[n] == old(files)[n]
    {
      freed := onDisk;
      files := Cleared(files, survivors);
      onDisk := 0;
    }
  }
}
