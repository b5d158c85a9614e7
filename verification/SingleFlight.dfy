/**
 Requests for blobs over one cache: take the digest's lock, look again, download, commit, evict
 (src/main.rs: `proxy_blob`, `single_source_blob_fallback`; src/cache.rs: `inflight_lock`,
 `committed`, `clear`). Every sequence of events is a run; impossible events change nothing.
 */
module SingleFlight {
  import opened Wrappers
  import opened DiskCache
  import Strings
  import Registry

  /** A request that has missed the cache, by how far it is with the lock. */
  datatype Request =
    | Waiting(hex: string, lock: nat)
    | Holding(hex: string, lock: nat)   // lock acquired, cache not looked at again yet
    | Fetching(hex: string, lock: nat)  // second look missed: it may write the part file

  datatype World = World(
    inflight: map<string, nat>,
    nextLock: nat,
    requests: map<nat, Request>,
    files: Files,
    onDisk: nat)

  datatype Event =
    | Ask(id: nat, hex: string)
    | Acquire(id: nat)
    | LookAgain(id: nat)
    | Scratch(id: nat, bitmap: bool, file: Option<File>)  // part file or sidecar saved, or removed
    | Commit(id: nat, size: nat, listing: seq<string>, now: int, removable: set<string>)
    | Leave(id: nat)
    | Clear(survivors: set<string>)
    | Restart

  /** What `sha256_hex` lets through: 64 lower-case hexadecimal digits. */
  predicate IsHex(hex: string) {
    |hex| == 64 && forall c :: c in hex ==> '0' <= c <= '9' || 'a' <= c <= 'f'
  }

  function ScratchName(hex: string, bitmap: bool): string {
    "." + hex + if bitmap then ".bitmap" else ".part"
  }

  /** The names requests go by are exactly the keys of digests. */
  lemma HexIsKey(hex: string)
    ensures IsHex(hex) <==> Registry.Sha256Hex("sha256:" + hex) == Some(hex)
  {
    Strings.StripPrefixOf("sha256:", hex);
    assert forall i :: 0 <= i < |hex| ==> hex[i] in hex;
    assert forall c :: Strings.IsHexDigit(c) && Strings.LowerChar(c) == c <==> '0' <= c <= '9' || 'a' <= c <= 'f';
    assert Strings.Lower(hex) == hex <==> forall i :: 0 <= i < |hex| ==> Strings.LowerChar(hex[i]) == hex[i];
  }

  /** Part files and sidecars of one digest or two never share a name, nor one with a blob. */
  lemma ScratchNamesDiffer(a: string, b: string, bitmapA: bool, bitmapB: bool)
    requires IsHex(a) && IsHex(b)
    ensures ScratchName(a, bitmapA) == ScratchName(b, bitmapB) <==> a == b && bitmapA == bitmapB
    ensures ScratchName(a, bitmapA) != b
    ensures ScratchName(a, false)[65..] == ".part" && ScratchName(a, true)[65..] == ".bitmap"
  {
    var left, right := ScratchName(a, bitmapA), ScratchName(b, bitmapB);
    assert left[1..65] == a && right[1..65] == b;
    assert |left| == 65 + (if bitmapA then 7 else 5);
    assert b[0] in b && left[0] == '.';
  }

  /** Locks a request refers to: their reference count is more than the map's own one. */
  function Live(requests: map<nat, Request>): set<nat> {
    set id | id in requests :: requests[id].lock
  }

  predicate Held(requests: map<nat, Request>, lock: nat) {
    exists id :: id in requests && requests[id].lock == lock && !requests[id].Waiting?
  }

  /** The rename of the part file onto the blob's name. */
  function Renamed(files: Files, hex: string): Files
    requires ScratchName(hex, false) in files
  {
    (files - {ScratchName(hex, false)})[hex := files[ScratchName(hex, false)].(scratch := false)]
  }

  predicate CanCommit(w: World, id: nat, size: nat) {
    && id in w.requests && w.requests[id].Fetching?
    && ScratchName(w.requests[id].hex, false) in w.files
    && size <= w.files[ScratchName(w.requests[id].hex, false)].size
  }

  /** Rename and `fetch_add`; the request is over. */
  function CountIn(w: World, id: nat, size: nat): World
    requires CanCommit(w, id, size)
  {
    w.(files := Renamed(w.files, w.requests[id].hex), onDisk := w.onDisk + size, requests := w.requests - {id})
  }

  function Evicted(maxBytes: nat, w: World, listing: seq<string>, now: int, removable: set<string>): World {
    var r := Evict(w.files, listing, now, w.onDisk, maxBytes, removable);
    w.(files := r.0, onDisk := r.1)
  }

  ghost predicate EffectiveCommit(w: World, e: Event) {
    e.Commit? && CanCommit(w, e.id, e.size) && Lists(e.listing, CountIn(w, e.id, e.size).files)
  }

  /** `inflight_lock`, then waiting for the lock it gave. */
  function AskStep(w: World, id: nat, hex: string): World {
    if id in w.requests || !IsHex(hex) then w
    else
      var inflight := WithLock(w.inflight, Live(w.requests), hex, w.nextLock);
      w.(inflight := inflight, nextLock := w.nextLock + 1, requests := w.requests[id := Waiting(hex, inflight[hex])])
  }

  function AcquireStep(w: World, id: nat): World {
    if id in w.requests && w.requests[id].Waiting? && !Held(w.requests, w.requests[id].lock)
    then w.(requests := w.requests[id := Holding(w.requests[id].hex, w.requests[id].lock)]) else w
  }

  /** The second lookup, under the lock: a hit is served and the lock released. */
  function LookAgainStep(w: World, id: nat): World {
    if !(id in w.requests && w.requests[id].Holding?) then w
    else if w.requests[id].hex in w.files then w.(requests := w.requests - {id})
    else w.(requests := w.requests[id := Fetching(w.requests[id].hex, w.requests[id].lock)])
  }

  function ScratchStep(w: World, id: nat, bitmap: bool, file: Option<File>): World {
    if !(id in w.requests && w.requests[id].Fetching?) then w
    else
      var name := ScratchName(w.requests[id].hex, bitmap);
      match file
      case None => w.(files := w.files - {name})
      case Some(f) => w.(files := w.files[name := f.(scratch := true)])
  }

  ghost function CommitStep(maxBytes: nat, w: World, e: Event): World {
    if EffectiveCommit(w, e) then Evicted(maxBytes, CountIn(w, e.id, e.size), e.listing, e.now, e.removable) else w
  }

  ghost function Step(maxBytes: nat, w: World, e: Event): World {
    match e
    case Ask(id, hex) => AskStep(w, id, hex)
    case Acquire(id) => AcquireStep(w, id)
    case LookAgain(id) => LookAgainStep(w, id)
    case Scratch(id, bitmap, file) => ScratchStep(w, id, bitmap, file)
    case Commit(_, _, _, _, _) => CommitStep(maxBytes, w, e)
    case Leave(id) => w.(requests := w.requests - {id})
    case Clear(survivors) => w.(files := Cleared(w.files, survivors), onDisk := 0)
    case Restart => w.(inflight := map[], requests := map[], onDisk := BlobBytes(w.files))
  }

  ghost function Run(maxBytes: nat, w: World, events: seq<Event>): World
    decreases |events|
  {
    if events == [] then w else Run(maxBytes, Step(maxBytes, w, events[0]), events[1..])
  }

  // ---------- invariants ----------

  /** Every reference held for a digest is to the lock the map has for it, and no lock serves two digests. */
  ghost predicate LocksInv(w: World) {
    && (forall hex :: hex in w.inflight ==> w.inflight[hex] < w.nextLock)
    && (forall a, b :: a in w.inflight && b in w.inflight && w.inflight[a] == w.inflight[b] ==> a == b)
    && (forall id :: id in w.requests ==>
          && IsHex(w.requests[id].hex)
          && w.requests[id].hex in w.inflight
          && w.inflight[w.requests[id].hex] == w.requests[id].lock)
    && (forall i, j :: PastLock(w, i) && PastLock(w, j) && w.requests[i].lock == w.requests[j].lock ==> i == j)
  }

  ghost predicate PastLock(w: World, id: nat) {
    id in w.requests && !w.requests[id].Waiting?
  }

  /** A request that fetches has no blob to overwrite; scratch files are the ones with a dot in front. */
  ghost predicate FilesInv(w: World) {
    && (forall id :: id in w.requests && w.requests[id].Fetching? ==> w.requests[id].hex !in w.files)
    && (forall name :: name in w.files ==> (w.files[name].scratch <==> name != [] && name[0] == '.'))
  }

  ghost predicate Inv(w: World) {
    LocksInv(w) && FilesInv(w) && w.onDisk <= BlobBytes(w.files)
  }

  /** Dropping unreferenced entries and adding a lock nobody has keeps map and references in step. */
  lemma AskLocks(w: World, id: nat, hex: string)
    requires LocksInv(w) && id !in w.requests && IsHex(hex)
    ensures LocksInv(AskStep(w, id, hex))
  {
    var t := AskStep(w, id, hex);
    KeptLocks(w, hex);
    forall i, j | PastLock(t, i) && PastLock(t, j) && t.requests[i].lock == t.requests[j].lock
      ensures i == j
    {
      assert PastLock(w, i) && PastLock(w, j);
    }
  }

  lemma KeptLocks(w: World, hex: string)
    requires LocksInv(w)
    ensures var inflight := WithLock(w.inflight, Live(w.requests), hex, w.nextLock);
            && hex in inflight
            && (forall h :: h in inflight ==> inflight[h] <= w.nextLock)
            && (forall a, b :: a in inflight && b in inflight && inflight[a] == inflight[b] ==> a == b)
            && (forall i :: i in w.requests ==>
                  w.requests[i].hex in inflight && inflight[w.requests[i].hex] == w.requests[i].lock)
  {
    var live := Live(w.requests);
    PrunedLocks(w.inflight, live);
    LockAdded(Pruned(w.inflight, live), hex, w.nextLock);
    forall i | i in w.requests
      ensures w.requests[i].hex in Pruned(w.inflight, live)
    {
      assert w.requests[i].lock in live;
    }
  }

  lemma LockAdded(kept: map<string, nat>, hex: string, unused: nat)
    requires forall h :: h in kept ==> kept[h] < unused
    requires forall a, b :: a in kept && b in kept && kept[a] == kept[b] ==> a == b
    ensures var inflight := if hex in kept then kept else kept[hex := unused];
            && hex in inflight
            && (forall h :: h in inflight ==> inflight[h] <= unused)
            && (forall a, b :: a in inflight && b in inflight && inflight[a] == inflight[b] ==> a == b)
            && (forall h :: h in kept ==> h in inflight && inflight[h] == kept[h])
  {
  }

  /** Pruning drops only locks nobody refers to. */
  lemma PrunedLocks(inflight: map<string, nat>, live: set<nat>)
    ensures var kept := Pruned(inflight, live);
            && (forall h :: h in kept ==> h in inflight && kept[h] == inflight[h])
            && (forall h :: h in inflight && inflight[h] in live ==> h in kept)
  {
  }

  lemma AcquireLocks(w: World, id: nat)
    requires LocksInv(w)
    ensures LocksInv(AcquireStep(w, id))
  {
    var t := AcquireStep(w, id);
    forall i, j | PastLock(t, i) && PastLock(t, j) && t.requests[i].lock == t.requests[j].lock
      ensures i == j
    {
      assert i != id ==> PastLock(w, i);
      assert j != id ==> PastLock(w, j);
    }
  }

  lemma CountInInv(w: World, id: nat, size: nat)
    requires Inv(w) && CanCommit(w, id, size)
    ensures Inv(CountIn(w, id, size))
  {
    var t := CountIn(w, id, size);
    var hex := w.requests[id].hex;
    assert hex[0] in hex && hex[0] != '.';
    RenameCounts(w.files, hex);
    FewerRequests(w, t);
    forall i | i in t.requests && t.requests[i].Fetching?
      ensures t.requests[i].hex !in t.files
    {
      assert PastLock(w, i) && PastLock(w, id);
      assert t.requests[i].hex != hex;
    }
  }

  /** Fewer files and a counter still below their bytes. */
  lemma FewerFilesInv(w: World, files: Files, counter: nat)
    requires Inv(w) && counter <= BlobBytes(files)
    requires forall n :: n in files ==> n in w.files && files[n] == w.files[n]
    ensures Inv(w.(files := files, onDisk := counter))
  {
    SameRequests(w, w.(files := files, onDisk := counter));
  }

  lemma EvictedInv(maxBytes: nat, w: World, listing: seq<string>, now: int, removable: set<string>)
    requires Inv(w) && Lists(listing, w.files)
    ensures Inv(Evicted(maxBytes, w, listing, now, removable))
  {
    EvictBounds(w.files, listing, now, w.onDisk, maxBytes, removable);
    EvictSparesYoung(w.files, listing, now, w.onDisk, maxBytes, removable);
    var r := Evict(w.files, listing, now, w.onDisk, maxBytes, removable);
    FewerFilesInv(w, r.0, r.1);
  }

  /** A commit adds the part file's bytes to the blobs; it overwrites none. */
  lemma RenameCounts(files: Files, hex: string)
    requires ScratchName(hex, false) in files && files[ScratchName(hex, false)].scratch && hex !in files
    ensures BlobBytes(Renamed(files, hex)) == BlobBytes(files) + files[ScratchName(hex, false)].size
  {
    var part := ScratchName(hex, false);
    BlobBytesWithout(files, part);
    BlobBytesAdd(files - {part}, hex, files[part].(scratch := false));
  }

  lemma ScratchFileBytes(files: Files, name: string, file: File)
    requires (name in files ==> files[name].scratch) && file.scratch
    ensures BlobBytes(files - {name}) == BlobBytes(files) == BlobBytes(files[name := file])
  {
    if name in files {
      BlobBytesWithout(files, name);
    } else {
      assert files - {name} == files;
    }
    BlobBytesAdd(files - {name}, name, file);
    assert files[name := file] == (files - {name})[name := file];
  }

  lemma ScratchInv(w: World, id: nat, bitmap: bool, file: Option<File>)
    requires Inv(w)
    ensures Inv(ScratchStep(w, id, bitmap, file))
  {
    if id in w.requests && w.requests[id].Fetching? {
      var t := ScratchStep(w, id, bitmap, file);
      var name := ScratchName(w.requests[id].hex, bitmap);
      ScratchFileBytes(w.files, name, if file.Some? then file.value.(scratch := true) else File(true, 0, 0));
      forall i | i in t.requests && t.requests[i].Fetching?
        ensures t.requests[i].hex !in t.files
      {
        assert t.requests[i].hex[0] in t.requests[i].hex && name[0] == '.';
      }
      SameRequests(w, t);
    }
  }

  /** The lock facts look only at the map, the lock counter and the requests. */
  lemma SameRequests(w: World, t: World)
    requires LocksInv(w) && t.inflight == w.inflight && t.nextLock == w.nextLock && t.requests == w.requests
    ensures LocksInv(t)
  {
    FewerRequests(w, t);
  }

  lemma FewerRequests(w: World, t: World)
    requires LocksInv(w) && t.inflight == w.inflight && t.nextLock == w.nextLock
    requires forall i :: i in t.requests ==>
      && i in w.requests
      && t.requests[i].hex == w.requests[i].hex
      && t.requests[i].lock == w.requests[i].lock
      && t.requests[i].Waiting? == w.requests[i].Waiting?
    ensures LocksInv(t)
  {
    forall i, j | PastLock(t, i) && PastLock(t, j) && t.requests[i].lock == t.requests[j].lock
      ensures i == j
    {
      assert PastLock(w, i) && PastLock(w, j);
    }
  }

  lemma CommitInv(maxBytes: nat, w: World, e: Event)
    requires Inv(w) && e.Commit?
    ensures Inv(CommitStep(maxBytes, w, e))
  {
    if EffectiveCommit(w, e) {
      CountInInv(w, e.id, e.size);
      EvictedInv(maxBytes, CountIn(w, e.id, e.size), e.listing, e.now, e.removable);
    }
  }

  lemma AskInv(w: World, id: nat, hex: string)
    requires Inv(w)
    ensures Inv(AskStep(w, id, hex))
  {
    if id !in w.requests && IsHex(hex) {
      AskLocks(w, id, hex);
    }
  }

  lemma AcquireInv(w: World, id: nat)
    requires Inv(w)
    ensures Inv(AcquireStep(w, id))
  {
    AcquireLocks(w, id);
  }

  lemma LookAgainInv(w: World, id: nat)
    requires Inv(w)
    ensures Inv(LookAgainStep(w, id))
  {
    FewerRequests(w, LookAgainStep(w, id));
  }

  lemma LeaveInv(w: World, id: nat)
    requires Inv(w)
    ensures Inv(w.(requests := w.requests - {id}))
  {
    FewerRequests(w, w.(requests := w.requests - {id}));
  }

  lemma ClearInv(w: World, survivors: set<string>)
    requires Inv(w)
    ensures Inv(w.(files := Cleared(w.files, survivors), onDisk := 0))
  {
    FewerFilesInv(w, Cleared(w.files, survivors), 0);
  }

  lemma RestartInv(w: World)
    requires Inv(w)
    ensures Inv(w.(inflight := map[], requests := map[], onDisk := BlobBytes(w.files)))
  {
  }

  lemma StepInv(maxBytes: nat, w: World, e: Event)
    requires Inv(w)
    ensures Inv(Step(maxBytes, w, e))
  {
    match e
    case Ask(id, hex) => AskInv(w, id, hex);
    case Acquire(id) => AcquireInv(w, id);
    case LookAgain(id) => LookAgainInv(w, id);
    case Scratch(id, bitmap, file) => ScratchInv(w, id, bitmap, file);
    case Commit(_, _, _, _, _) => CommitInv(maxBytes, w, e);
    case Leave(id) => LeaveInv(w, id);
    case Clear(survivors) => ClearInv(w, survivors);
    case Restart => RestartInv(w);
  }

  lemma {:induction false} RunInv(maxBytes: nat, w: World, events: seq<Event>)
    requires Inv(w)
    ensures Inv(Run(maxBytes, w, events))
    decreases |events|
  {
    if events != [] {
      StepInv(maxBytes, w, events[0]);
      RunInv(maxBytes, Step(maxBytes, w, events[0]), events[1..]);
    }
  }

  // ---------- main results ----------

  /** A started process: no locks, no requests, the counter as `init` sets it. */
  ghost function Started(files: Files): World {
    World(map[], 0, map[], files, BlobBytes(files))
  }

  ghost predicate DottedScratch(files: Files) {
    forall name :: name in files ==> (files[name].scratch <==> name != [] && name[0] == '.')
  }

  /** In every run at most one request per digest is past the lock, so its part file has one writer. */
  lemma SoleWriter(maxBytes: nat, files: Files, events: seq<Event>, i: nat, j: nat)
    requires DottedScratch(files)
    ensures var w := Run(maxBytes, Started(files), events);
            PastLock(w, i) && PastLock(w, j) && w.requests[i].hex == w.requests[j].hex ==> i == j
  {
    RunInv(maxBytes, Started(files), events);
  }

  /** No other request for the same digest is past the lock. */
  ghost predicate AllOthersWait(requests: map<nat, Request>, id: nat, hex: string) {
    forall other :: other in requests && other != id && requests[other].hex == hex ==> requests[other].Waiting?
  }

  lemma HeldExactly(w: World, id: nat)
    requires LocksInv(w) && id in w.requests && w.requests[id].Waiting?
    ensures Held(w.requests, w.requests[id].lock) <==> !AllOthersWait(w.requests, id, w.requests[id].hex)
  {
    forall other | other in w.requests
      ensures w.requests[other].lock == w.requests[id].lock <==> w.requests[other].hex == w.requests[id].hex
    {
      assert w.requests[other].hex in w.inflight && w.requests[id].hex in w.inflight;
    }
  }

  /**
   And who may go on: in every run a waiting request gets the lock, at once, exactly when no other request for its
   digest is past the lock; requests for other digests never hold it up. One that gets it becomes no other request.
   */
  lemma AcquireExactly(maxBytes: nat, files: Files, events: seq<Event>, id: nat)
    requires DottedScratch(files)
    requires var w := Run(maxBytes, Started(files), events); id in w.requests && w.requests[id].Waiting?
    ensures var w := Run(maxBytes, Started(files), events);
            var t := Run(maxBytes, Started(files), events + [Acquire(id)]);
            && t.requests.Keys == w.requests.Keys
            && (forall other :: other in w.requests && other != id ==> t.requests[other] == w.requests[other])
            && t.requests[id].hex == w.requests[id].hex
            && (t.requests[id].Holding? <==> AllOthersWait(w.requests, id, w.requests[id].hex))
            && (!t.requests[id].Holding? ==> t.requests[id].Waiting?)
  {
    var w := Run(maxBytes, Started(files), events);
    RunInv(maxBytes, Started(files), events);
    HeldExactly(w, id);
    RunPush(maxBytes, Started(files), events, Acquire(id));
  }

  lemma RunPush(maxBytes: nat, w: World, events: seq<Event>, e: Event)
    ensures Run(maxBytes, w, events + [e]) == Step(maxBytes, Run(maxBytes, w, events), e)
  {
    var t := Run(maxBytes, w, events);
    RunAppend(maxBytes, w, events, [e]);
    assert [e][1..] == [];
    assert Run(maxBytes, t, [e]) == Run(maxBytes, Step(maxBytes, t, e), []);
  }

  /**
   Single flight from the outside: whatever ran before, a new request for a digest with no one past its lock comes to
   fetch exactly when the cache does not have the blob, and otherwise is served and over.
   */
  lemma NewRequestFetchesExactly(maxBytes: nat, files: Files, events: seq<Event>, id: nat, hex: string)
    requires DottedScratch(files) && IsHex(hex)
    requires var w := Run(maxBytes, Started(files), events);
             id !in w.requests && AllOthersWait(w.requests, id, hex)
    ensures var w := Run(maxBytes, Started(files), events);
            var t := Run(maxBytes, Started(files), events + [Ask(id, hex), Acquire(id), LookAgain(id)]);
            && t.files == w.files && t.onDisk == w.onDisk
            && t.requests - {id} == w.requests
            && (id in t.requests <==> hex !in w.files)
            && (id in t.requests ==> t.requests[id].Fetching? && t.requests[id].hex == hex)
  {
    var w0 := Started(files);
    var w := Run(maxBytes, w0, events);
    RunInv(maxBytes, w0, events);
    NewRequestFetches(w, id, hex);
    RunThree(maxBytes, w, Ask(id, hex), Acquire(id), LookAgain(id));
    RunAppend(maxBytes, w0, events, [Ask(id, hex), Acquire(id), LookAgain(id)]);
  }

  lemma NewRequestFetches(w: World, id: nat, hex: string)
    requires Inv(w) && IsHex(hex) && id !in w.requests && AllOthersWait(w.requests, id, hex)
    ensures var t := LookAgainStep(AcquireStep(AskStep(w, id, hex), id), id);
            && t.files == w.files && t.onDisk == w.onDisk
            && t.requests - {id} == w.requests
            && (id in t.requests <==> hex !in w.files)
            && (id in t.requests ==> t.requests[id].Fetching? && t.requests[id].hex == hex)
  {
    var lock := AskedAndAcquired(w, id, hex);
    var b := AcquireStep(AskStep(w, id, hex), id);
    LookAgainEnds(b, id);
    assert b.requests - {id} == w.requests;
  }

  lemma AskedAndAcquired(w: World, id: nat, hex: string) returns (lock: nat)
    requires LocksInv(w) && IsHex(hex) && id !in w.requests && AllOthersWait(w.requests, id, hex)
    ensures var t := AcquireStep(AskStep(w, id, hex), id);
            t.requests == w.requests[id := Holding(hex, lock)] && t.files == w.files && t.onDisk == w.onDisk
  {
    lock := Asked(w, id, hex);
    AcquiredAlone(AskStep(w, id, hex), w.requests, id, hex, lock);
  }

  lemma AcquiredAlone(w: World, before: map<nat, Request>, id: nat, hex: string, lock: nat)
    requires LocksInv(w) && w.requests == before[id := Waiting(hex, lock)] && AllOthersWait(before, id, hex)
    ensures AcquireStep(w, id) == w.(requests := before[id := Holding(hex, lock)])
  {
    assert AllOthersWait(w.requests, id, hex);
    HeldExactly(w, id);
    assert w.requests[id := Holding(hex, lock)] == before[id := Holding(hex, lock)];
  }

  lemma Asked(w: World, id: nat, hex: string) returns (lock: nat)
    requires LocksInv(w) && IsHex(hex) && id !in w.requests
    ensures var t := AskStep(w, id, hex);
            && LocksInv(t)
            && t.requests == w.requests[id := Waiting(hex, lock)] && t.files == w.files && t.onDisk == w.onDisk
  {
    AskLocks(w, id, hex);
    lock := AskStep(w, id, hex).inflight[hex];
  }

  lemma LookAgainEnds(w: World, id: nat)
    requires id in w.requests && w.requests[id].Holding?
    ensures var t := LookAgainStep(w, id);
            && t.files == w.files && t.onDisk == w.onDisk
            && t.requests - {id} == w.requests - {id}
            && (id in t.requests <==> w.requests[id].hex !in w.files)
            && (id in t.requests ==> t.requests[id].Fetching? && t.requests[id].hex == w.requests[id].hex)
  {
  }

  lemma RunThree(maxBytes: nat, w: World, e: Event, f: Event, g: Event)
    ensures Run(maxBytes, w, [e, f, g]) == Step(maxBytes, Step(maxBytes, Step(maxBytes, w, e), f), g)
  {
    var v := Step(maxBytes, w, e);
    assert [e, f, g][1..] == [f, g];
    assert Run(maxBytes, w, [e, f, g]) == Run(maxBytes, v, [f, g]);
    RunTwo(maxBytes, v, f, g);
  }

  /** In every run all live references for one digest are to one lock, pruned or not. */
  lemma OneLockPerDigest(maxBytes: nat, files: Files, events: seq<Event>, i: nat, j: nat)
    requires DottedScratch(files)
    ensures var w := Run(maxBytes, Started(files), events);
            i in w.requests && j in w.requests ==>
              (w.requests[i].hex == w.requests[j].hex <==> w.requests[i].lock == w.requests[j].lock)
  {
    RunInv(maxBytes, Started(files), events);
  }

  /** No commit of any run renames over an existing blob. */
  lemma CommitNeverOverwrites(maxBytes: nat, files: Files, events: seq<Event>, id: nat, size: nat)
    requires DottedScratch(files)
    requires CanCommit(Run(maxBytes, Started(files), events), id, size)
    ensures var w := Run(maxBytes, Started(files), events); w.requests[id].hex !in w.files
  {
    RunInv(maxBytes, Started(files), events);
  }

  /** The counter never exceeds the bytes of the blobs on disk. */
  lemma CounterBound(maxBytes: nat, files: Files, events: seq<Event>)
    requires DottedScratch(files)
    ensures var w := Run(maxBytes, Started(files), events); w.onDisk <= BlobBytes(w.files)
  {
    RunInv(maxBytes, Started(files), events);
  }

  /** A commit of any run whose evictions succeed ends within the cap, also for a blob larger than the cap. */
  lemma CommitWithinCap(maxBytes: nat, files: Files, events: seq<Event>, e: Event)
    requires DottedScratch(files)
    requires var w := Run(maxBytes, Started(files), events);
             EffectiveCommit(w, e) && CountIn(w, e.id, e.size).files.Keys <= e.removable
    ensures Step(maxBytes, Run(maxBytes, Started(files), events), e).onDisk <= maxBytes
  {
    RunInv(maxBytes, Started(files), events);
    CommitCap(maxBytes, Run(maxBytes, Started(files), events), e);
  }

  lemma CommitCap(maxBytes: nat, w: World, e: Event)
    requires Inv(w) && EffectiveCommit(w, e) && CountIn(w, e.id, e.size).files.Keys <= e.removable
    ensures CommitStep(maxBytes, w, e).onDisk <= maxBytes
  {
    CountInInv(w, e.id, e.size);
    EvictedCap(maxBytes, CountIn(w, e.id, e.size), e.listing, e.now, e.removable);
  }

  lemma EvictedCap(maxBytes: nat, w: World, listing: seq<string>, now: int, removable: set<string>)
    requires w.onDisk <= BlobBytes(w.files) && Lists(listing, w.files) && w.files.Keys <= removable
    ensures Evicted(maxBytes, w, listing, now, removable).onDisk <= maxBytes
  {
    EvictBounds(w.files, listing, now, w.onDisk, maxBytes, removable);
  }

  lemma CountInExact(w: World, id: nat, size: nat)
    requires Inv(w) && CanCommit(w, id, size) && w.onDisk == BlobBytes(w.files)
    ensures CountIn(w, id, size).onDisk == BlobBytes(CountIn(w, id, size).files)
       <==> size == w.files[ScratchName(w.requests[id].hex, false)].size
  {
    RenameCounts(w.files, w.requests[id].hex);
  }

  // ---------- exactness over runs ----------

  /**
   What keeps an exact counter exact: a commit that counts its file's size and evicts no bytes of part and bitmap
   files, or leaves no blob bytes; a clearing after which no blob bytes are left.
   */
  ghost predicate Tidy(maxBytes: nat, w: World, e: Event) {
    match e
    case Commit(id, size, listing, now, removable) =>
      EffectiveCommit(w, e) ==>
        var v := CountIn(w, id, size);
        var after := Evicted(maxBytes, v, listing, now, removable).files;
        || (size == w.files[ScratchName(w.requests[id].hex, false)].size
            && ScratchBytes(after) == ScratchBytes(v.files))
        || BlobBytes(after) == 0
    case Clear(survivors) => BlobBytes(Cleared(w.files, survivors)) == 0
    case _ => true
  }

  ghost predicate TidyRun(maxBytes: nat, w: World, events: seq<Event>)
    decreases |events|
  {
    events != [] ==> Tidy(maxBytes, w, events[0]) && TidyRun(maxBytes, Step(maxBytes, w, events[0]), events[1..])
  }

  ghost predicate Exact(w: World) { w.onDisk == BlobBytes(w.files) }

  lemma ScratchKeepsExact(w: World, id: nat, bitmap: bool, file: Option<File>)
    requires Inv(w) && Exact(w)
    ensures Exact(ScratchStep(w, id, bitmap, file))
  {
    if id in w.requests && w.requests[id].Fetching? {
      var name := ScratchName(w.requests[id].hex, bitmap);
      ScratchFileBytes(w.files, name, if file.Some? then file.value.(scratch := true) else File(true, 0, 0));
    }
  }

  lemma CommitExactly(maxBytes: nat, w: World, e: Event)
    requires Inv(w) && Exact(w) && e.Commit?
    ensures Exact(CommitStep(maxBytes, w, e)) <==> Tidy(maxBytes, w, e)
  {
    if EffectiveCommit(w, e) {
      var v := CountIn(w, e.id, e.size);
      CountInInv(w, e.id, e.size);
      CountInExact(w, e.id, e.size);
      EvictExactly(v.files, e.listing, e.now, v.onDisk, maxBytes, e.removable);
    }
  }

  /** From an exact counter, a step leaves an exact counter exactly when it is tidy. */
  lemma StepExactly(maxBytes: nat, w: World, e: Event)
    requires Inv(w) && Exact(w)
    ensures Exact(Step(maxBytes, w, e)) <==> Tidy(maxBytes, w, e)
  {
    match e
    case Commit(_, _, _, _, _) => CommitExactly(maxBytes, w, e);
    case Scratch(id, bitmap, file) => ScratchKeepsExact(w, id, bitmap, file);
    case Clear(survivors) =>
    case _ =>
  }

  /** The counter is the bytes of the blobs on disk throughout a run exactly when every step is tidy. */
  lemma CounterExactly(maxBytes: nat, files: Files, events: seq<Event>)
    requires DottedScratch(files)
    ensures (forall k :: 0 <= k <= |events| ==> Exact(Run(maxBytes, Started(files), events[..k])))
       <==> TidyRun(maxBytes, Started(files), events)
  {
    RunExactly(maxBytes, Started(files), events);
  }

  lemma {:induction false} RunExactly(maxBytes: nat, w: World, events: seq<Event>)
    requires Inv(w) && Exact(w)
    ensures (forall k :: 0 <= k <= |events| ==> Exact(Run(maxBytes, w, events[..k]))) <==> TidyRun(maxBytes, w, events)
    decreases |events|
  {
    if events != [] {
      var t, rest := Step(maxBytes, w, events[0]), events[1..];
      StepInv(maxBytes, w, events[0]);
      StepExactly(maxBytes, w, events[0]);
      forall k | 0 <= k <= |rest|
        ensures Run(maxBytes, w, events[..k + 1]) == Run(maxBytes, t, rest[..k])
      {
        assert events[..k + 1][1..] == rest[..k] && events[..k + 1][0] == events[0];
      }
      if Exact(t) {
        RunExactly(maxBytes, t, rest);
        forall k | 0 <= k <= |events| && TidyRun(maxBytes, w, events)
          ensures Exact(Run(maxBytes, w, events[..k]))
        {
          if k > 0 {
            assert Exact(Run(maxBytes, t, rest[..k - 1]));
          }
        }
        forall k | 0 <= k <= |rest| && (forall j :: 0 <= j <= |events| ==> Exact(Run(maxBytes, w, events[..j])))
          ensures Exact(Run(maxBytes, t, rest[..k]))
        {
          assert Exact(Run(maxBytes, w, events[..k + 1]));
        }
      } else {
        assert rest[..0] == [];
        assert !Exact(Run(maxBytes, w, events[..0 + 1]));
      }
    }
  }

  // ---------- a run that makes the counter wrong ----------

  function Hex(digit: char): string { seq(64, _ => digit) }

  /** A part file of five bytes nobody has touched for more than an hour. */
  function StaleOnly(stale: string): Files { map[stale := File(true, 5, 0)] }

  function BlobOnly(blob: string): Files { map[blob := File(false, 10, 4000)] }

  function StaleAndBlob(stale: string, blob: string): Files { StaleOnly(stale)[blob := File(false, 10, 4000)] }

  lemma NamesDiffer()
    ensures IsHex(Hex('b')) && Hex('b')[0] == 'b'
    ensures var stale, part := ScratchName(Hex('a'), false), ScratchName(Hex('b'), false);
            && stale != "" && stale[0] == '.' && part[0] == '.' && stale != part
            && Hex('b') != stale && Hex('b') != part
  {
    assert ScratchName(Hex('a'), false)[1] == 'a' && ScratchName(Hex('b'), false)[1] == 'b';
    assert forall c :: c in Hex('b') ==> c == 'b';
  }

  lemma DriftBytes(stale: string, blob: string)
    requires stale != blob
    ensures BlobBytes(StaleOnly(stale)) == 0
    ensures BlobBytes(StaleAndBlob(stale, blob)) == BlobBytes(BlobOnly(blob)) == 10
  {
    OnlyScratch(StaleOnly(stale));
    BlobBytesAdd(StaleOnly(stale), blob, File(false, 10, 4000));
    OnlyScratch(map[]);
    BlobBytesAdd(map[], blob, File(false, 10, 4000));
    assert map[][blob := File(false, 10, 4000)] == BlobOnly(blob);
  }

  lemma DriftQueue(stale: string, blob: string)
    requires stale != blob
    ensures Lists([stale, blob], StaleAndBlob(stale, blob))
    ensures Queue(StaleAndBlob(stale, blob), [stale, blob], 4000) == [stale, blob]
  {
    var files, listing := StaleAndBlob(stale, blob), [stale, blob];
    assert CandidatesUpTo(files, listing, 1, 4000) == [stale];
    assert Candidates(files, listing, 4000) == listing;
    assert listing[1..] == [blob] && [blob][1..] == [];
    assert ByAge(files, [blob]) == [blob];
    assert InsertByAge(files, stale, [blob]) == listing;
  }

  lemma DriftReclaim(stale: string, blob: string)
    requires stale != blob
    ensures var files, queue := StaleAndBlob(stale, blob), [stale, blob];
            EvictTo(files, queue, 10, 8, {stale, blob}) == (BlobOnly(blob), 5)
  {
    var files, queue, removable := StaleAndBlob(stale, blob), [stale, blob], {stale, blob};
    assert Reclaim(files, queue[1..], 5, 8, removable) == Plan(0, 5);
    assert Reclaim(files, queue, 10, 8, removable) == Plan(1, 5);
    assert queue[..1] == [stale];
    assert Without(files, [stale], removable) == BlobOnly(blob);
  }

  /** Over a cap of nine bytes the eviction takes the stale part file first, and stops at a counter of five. */
  lemma DriftEviction(stale: string, blob: string)
    requires stale != blob
    ensures Lists([stale, blob], StaleAndBlob(stale, blob))
    ensures Evict(StaleAndBlob(stale, blob), [stale, blob], 4000, 10, 9, {stale, blob}) == (BlobOnly(blob), 5)
  {
    DriftQueue(stale, blob);
    DriftReclaim(stale, blob);
    assert Target(9) == 8;
  }

  /** A download that gets its lock and writes its part file. */
  lemma DriftFetch(stale: string, hex: string)
    requires IsHex(hex) && hex != stale
    ensures var w := Started(StaleOnly(stale));
            var t := w.(inflight := map[hex := 0], nextLock := 1, requests := map[0 := Fetching(hex, 0)]);
            Run(9, w, [Ask(0, hex), Acquire(0), LookAgain(0)]) == t
  {
    var w := Started(StaleOnly(stale));
    var t := w.(inflight := map[hex := 0], nextLock := 1, requests := map[0 := Waiting(hex, 0)]);
    var u := t.(requests := map[0 := Holding(hex, 0)]);
    assert AskStep(w, 0, hex) == t;
    assert AcquireStep(t, 0) == u;
    var events := [Ask(0, hex), Acquire(0), LookAgain(0)];
    assert events[1..][1..] == [LookAgain(0)] && [LookAgain(0)][1..] == [];
    assert Run(9, u, [LookAgain(0)]) == LookAgainStep(u, 0);
  }

  /** Its commit evicts the stale part file. */
  lemma DriftCommit(stale: string, hex: string, w: World)
    requires hex != stale && ScratchName(hex, false) !in {stale, hex}
    requires w.files == StaleOnly(stale)[ScratchName(hex, false) := File(true, 10, 4000)] && w.onDisk == 0
    requires w.requests == map[0 := Fetching(hex, 0)]
    ensures var t := Step(9, w, Commit(0, 10, [stale, hex], 4000, {stale, hex}));
            t.onDisk == 5 && t.files == BlobOnly(hex)
  {
    var part := ScratchName(hex, false);
    assert w.files - {part} == StaleOnly(stale);
    assert CountIn(w, 0, 10).files == StaleAndBlob(stale, hex);
    DriftEviction(stale, hex);
  }

  lemma {:induction false} RunAppend(maxBytes: nat, w: World, a: seq<Event>, b: seq<Event>)
    ensures Run(maxBytes, w, a + b) == Run(maxBytes, Run(maxBytes, w, a), b)
    decreases |a|
  {
    if a == [] {
      assert a + b == b;
    } else {
      assert (a + b)[0] == a[0] && (a + b)[1..] == a[1..] + b;
      RunAppend(maxBytes, Step(maxBytes, w, a[0]), a[1..], b);
    }
  }

  lemma RunTwo(maxBytes: nat, w: World, e: Event, f: Event)
    ensures Run(maxBytes, w, [e, f]) == Step(maxBytes, Step(maxBytes, w, e), f)
  {
    var v := Step(maxBytes, w, e);
    assert [e, f][1..] == [f] && [f][1..] == [];
    assert Run(maxBytes, v, [f]) == Run(maxBytes, Step(maxBytes, v, f), []);
  }

  function DriftEvents(stale: string, hex: string): seq<Event> {
    [Ask(0, hex), Acquire(0), LookAgain(0)]
    + [Scratch(0, false, Some(File(true, 10, 4000))), Commit(0, 10, [stale, hex], 4000, {stale, hex})]
  }

  lemma DriftRun(stale: string, hex: string)
    requires IsHex(hex) && hex != stale && ScratchName(hex, false) !in {stale, hex}
    ensures var t := Run(9, Started(StaleOnly(stale)), DriftEvents(stale, hex));
            t.onDisk == 5 && t.files == BlobOnly(hex)
  {
    var w := Started(StaleOnly(stale));
    var fetch := [Ask(0, hex), Acquire(0), LookAgain(0)];
    var write := Scratch(0, false, Some(File(true, 10, 4000)));
    var commit := Commit(0, 10, [stale, hex], 4000, {stale, hex});
    DriftBytes(stale, hex);
    DriftFetch(stale, hex);
    RunAppend(9, w, fetch, [write, commit]);
    DriftTail(stale, hex, Run(9, w, fetch));
  }

  lemma DriftTail(stale: string, hex: string, w: World)
    requires hex != stale && ScratchName(hex, false) !in {stale, hex}
    requires w.files == StaleOnly(stale) && w.onDisk == 0 && w.requests == map[0 := Fetching(hex, 0)]
    ensures var write := Scratch(0, false, Some(File(true, 10, 4000)));
            var commit := Commit(0, 10, [stale, hex], 4000, {stale, hex});
            var t := Run(9, w, [write, commit]);
            t.onDisk == 5 && t.files == BlobOnly(hex)
  {
    var write := Scratch(0, false, Some(File(true, 10, 4000)));
    RunTwo(9, w, write, Commit(0, 10, [stale, hex], 4000, {stale, hex}));
    DriftCommit(stale, hex, Step(9, w, write));
  }

  /**
   It does happen: a stale part file on disk, one download, and the counter says five bytes for a blob of ten. Such
   a run is not tidy.
   */
  lemma EvictedPartMakesCounterWrong() returns (files: Files, events: seq<Event>)
    ensures DottedScratch(files) && !TidyRun(9, Started(files), events)
    ensures var w := Run(9, Started(files), events);
            w.onDisk == 5 && w.files == BlobOnly(Hex('b')) && BlobBytes(w.files) == 10
  {
    NamesDiffer();
    var stale, hex := ScratchName(Hex('a'), false), Hex('b');
    files, events := StaleOnly(stale), DriftEvents(stale, hex);
    DriftRun(stale, hex);
    DriftBytes(stale, hex);
    WrongIsUntidy(9, files, events);
  }

  lemma WrongIsUntidy(maxBytes: nat, files: Files, events: seq<Event>)
    requires DottedScratch(files) && !Exact(Run(maxBytes, Started(files), events))
    ensures !TidyRun(maxBytes, Started(files), events)
  {
    CounterExactly(maxBytes, files, events);
    assert events[..|events|] == events;
  }
}
