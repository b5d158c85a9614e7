# Edge gateway: chunked downloads, cache, source choice and references

A model in Dafny 4.11 of the parts of the gateway whose correctness is not visible from one
function body:

- the resumable multi-source chunk downloader, as a system of atomic steps over all interleavings
  (`Download`), as the collector and `fetch_chunk` with their loops and fields (`Downloader`), each
  proved to do what a schedule of its awaits makes of the state, which is a run of that system
  (`Schedule`), and over histories of attempts that are cut anywhere and resumed (`Resume`,
  `History`, with `Progress` and `DigestCase` for how one can end); its layout and sidecar codec
  (`Chunking`);
- the single-source path into the cache (`Tee`);
- the disk cache with its eviction loop and per-digest locks (`DiskCache`), all its requests
  together (`SingleFlight`), and the manifest cache (`ManifestCache`);
- source scores, the weighted pick and the adaptive chunk plan (`Sources`);
- the texts that must agree with each other: byte ranges and the file streamer (`ByteRange`), what
  a chunk task asks for and takes for an answer (`ChunkRequest`),
  routes, challenges and scopes (`Registry`), image references and pull plans (`ImageRef`), the
  daemon's progress stream (`PullStream`), PEM blocks (`Pem`).

`Wrappers`, `Bytes` and `Strings` hold what these share.

The hash, the JSON of a progress line and base64 are function parameters. What the network, the
disk and the clock do arrives as events, schedules and parameters, and the results hold for all of
them. `u64` arithmetic is modelled with its wrap or saturation in the sidecar test, the eviction
watermark, the source counters, averages, samples and plans, and in parsed numbers; byte counts of
files (the disk counter, the write cursor, body totals) are unbounded. Scores are exact reals.

`dafny verify dfyconfig.toml` checks everything.

## What the proofs found

- A sidecar that `load_bitmap` rejects stays on disk (src/chunks.rs:83-101). Together with a part
  file that is deleted or truncated without it (src/main.rs:2458-2521, or a crash between the
  rename or removal and the sidecar's removal, src/chunks.rs:354-370) it can make a later attempt
  trust bytes nobody downloaded. `History.ResumeSafeExactly` gives the exact condition on the disk
  under which no attempt can do so, `History.PoisonedResume` the failing run for every other disk;
  `History.PairedIsGuarded` shows that the condition takes care of itself when no part file is
  deleted without its sidecar.
- A body longer than its chunk is written before the length check (src/chunks.rs:478-506): the
  committed file can be longer than the bytes hashed. `Download.CommittedFileExact` says exactly
  when, `Download.OverlongBodyIsCommitted` is a run.
- The chunked path compares the digest as the client wrote it (src/chunks.rs:352-354), while cache
  keys are lower-cased: a blob asked for by a digest with an upper-case digit is downloaded and
  delivered, and then both its files are deleted, provided the upstream and the sources answer the
  path as the client spelled it (src/main.rs:2205-2250). `DigestCase.HonestAttemptCommitsExactly`
  is the exact condition, `DigestCase.UpperCaseLosesBlob` the run.
- The wrapping product in the sidecar's coverage test cannot mislead for blobs of at most 2^63
  bytes, and can for every larger one (`Chunking.CoverageExactly`).
- A draw of exactly zero picks source 0 whatever its weight (`Sources.PickedHasSuccess`,
  `Sources.ZeroDrawPicksFailed`). The chunk plan collapses to concurrency 4 above 2^63 - 2^24 bytes
  per second (`Sources.WindowCoversExactly`).
- A token request with scopes of both registries goes to the registry of the last one
  (`Registry.MixedScopesMisroute`); `Registry.MergedRegistryExactly` is the condition on the texts.
- `bytes=a-b` with a > b is answered 416; section 2.1 of RFC 7233 has such a range ignored. So is a
  suffix of an empty blob, which that section calls satisfiable. A plus sign in front of a position
  is accepted, and a unit in capitals or an empty list element makes a range ignored.
  `ByteRange.Departs` has all departures for sets of one range, ignoring counted as one although
  section 3.1 permits it; each has a lemma at inputs.
- The image a pull displays does not always plan back to the same pull: the exact condition is
  `ImageRef.Replans`. It fails for tag plus digest, for docker.io names with a dash in front, and for
  those that look like another registry, except `ghcr.io/…`, which happens to give the same plan. A
  docker.io name that starts with a registry prefix is accepted, and its pull is routed elsewhere
  (`ImageRef.RoutingGoesAstray`).
- The counters of a source wrap as a sum: at a sum of exactly 2^64 a failure raises the score
  (`Sources.FailureLowersExactly` has the exact condition).
- An evicted part or bitmap file lowers the disk counter without ever having been counted
  (`SingleFlight.EvictedPartMakesCounterWrong`): `SingleFlight.CounterExactly` says exactly which
  runs keep it exact.
- The comment in src/cache.rs on part names speaks of a counter in the name; the code uses one name
  per digest (src/cache.rs:209-211), which is what `SingleFlight` models.

## Model

| member | source | states |
|---|---|---|
| Chunking.SplitWith | src/chunks.rs:50-69 | the chunks tile [0, total): consecutive, each of the chunk size but the last, none empty, a zero size raised to one |
| Chunking.TilesUnique | src/chunks.rs:50-69 | total and chunk size determine the layout, so a resumed attempt has the offsets of the interrupted one |
| Chunking.TilesCover | src/chunks.rs:50-69 | every position lies in exactly one chunk, the one the division names |
| Chunking.TilesReassemble | src/chunks.rs:50-69 | the chunks of a blob concatenated in order are the blob |
| Chunking.LoadBitmap | src/chunks.rs:83-102 | the method with its loop accepts exactly what the specification accepts, wrap-around included |
| Chunking.BitmapRoundTrip | src/chunks.rs:83-110 | loading a saved sidecar gives chunk size and flags back exactly when the part file reaches the end of every done chunk |
| Chunking.TruncatedSidecar | src/chunks.rs:104-110 | a save cut short leaves no sidecar, or a prefix of the flags |
| Chunking.SidecarLayout | src/chunks.rs:104-110 | the saved file is eight bytes of chunk size, lowest first, and one byte a chunk, 1 exactly for done |
| Chunking.DecodeExactly | src/chunks.rs:83-101 | a file is a sidecar exactly with eight bytes and a chunk size above zero; a chunk is done exactly for a byte of 1 |
| Chunking.CoverageExactly | src/chunks.rs:83-102 | every used flag of every accepted sidecar marks a chunk inside the part file, despite the wrapping product, exactly for blobs of at most 2^63 bytes |
| Download.StepInv | src/chunks.rs:198-377 | every step of a task, the collector or the surroundings keeps the invariant |
| Download.RunInv | src/chunks.rs:198-377 | so does every run: all interleavings, retries, short and overlong bodies |
| Download.WriteBeyondPrefix | src/chunks.rs:474-506 | a write of a live task lands at or after the emitted prefix |
| Download.EmittedIsFinal | src/chunks.rs:303-341 | bytes once hashed stay in the part file unchanged for the rest of any run, and the client has a prefix of them |
| Download.CommitIsSound | src/chunks.rs:273-377 | a committed file's bytes [0, total) are the bytes hashed and have the requested digest, and the chunks were emitted in order, once each |
| Download.LastJoinEmitsAll | src/chunks.rs:273-343 | when the last task has been joined all is emitted in order; from the first join on all is emitted exactly when every chunk is done, trusted ones being done from the start; nothing remains exactly when every task is joined |
| Download.ResumedGoAhead | src/chunks.rs:273-341 | a resumed attempt in which the first join emits everything, with a task left to join |
| Download.FourAttempts | src/chunks.rs:229-262 | a chunk is queued again after each of three failures and given up at the fourth |
| Download.OverrunIffLonger | src/chunks.rs:474-506 | the part file gets longer than the blob exactly when some write of the run, of a piece of a body at its cursor, ends past the blob |
| Download.PastIsOverlong | src/chunks.rs:474-506 | such a write belongs to a body longer than its chunk |
| Download.CommittedFileExact | src/chunks.rs:346-377 | the whole committed file is the hashed blob exactly when no write of the run ended past the blob and the old part was not longer |
| Download.OverlongBodyIsCommitted | src/chunks.rs:478-506 | a run that commits a file longer than the blob |
| Download.ClientIndependence | src/chunks.rs:332-340 | two runs that differ only in when the client leaves have the same part, sidecar, hash, final file and decision |
| Downloader.Collector.FetchChunk | src/chunks.rs:474-508 | the loop writes each piece at its own cursor, with other tasks in between, and ends the attempt: exactly that sequence of events; it succeeds exactly at the exact length with nothing broken |
| Downloader.Collector.WritePiece | src/chunks.rs:480-490 | seeking to the caller's cursor and writing there is the step system's write of that task |
| Downloader.Collector.EmitOne | src/chunks.rs:309-341 | one round of reading back, hashing and offering is the emission step |
| Downloader.Collector.EmitReady | src/chunks.rs:303-341 | the emission loop is what the schedule makes of the state, reading back one ready chunk after the other, and stops only where nothing more can be emitted or a read fails |
| Downloader.Collector.JoinOne | src/chunks.rs:282-301 | joining a fetched chunk writes the bitmap with that chunk set to the sidecar before it counts as done; an aborted or exhausted task ends the download |
| Downloader.Collector.CollectLoop | src/chunks.rs:279-370 | state and answer of the whole collector loop are those of the schedule; Ok exactly in the committed phase |
| Downloader.Collector.Commit | src/chunks.rs:345-370 | flush, digest comparison, rename and removals, with files deleted from outside before each of them |
| Downloader.Collector.Collect | src/chunks.rs:273-377 | the whole of `download` after spawning: state and answer are those of the schedule, and a run leads there; Ok exactly when committed |
| Schedule.PlayIsRun | src/chunks.rs:273-377 | what any schedule makes of a state is reached by a run of the step system |
| Resume.SoundGivesTrust | src/chunks.rs:83-101 | if the claims that are on disk are true, every flag a new attempt trusts is true |
| Resume.OpenedFaithful | src/chunks.rs:140-168 | opening such a disk starts an attempt in the faithful invariant |
| Resume.StepFaithful | src/chunks.rs:213-341 | with an honest source every step keeps it, also while a sidecar is half written |
| Resume.RunFaithful | src/chunks.rs:213-341 | so does every honest run |
| Resume.SavedClaimIsTrue | src/chunks.rs:104-110 | a sidecar cut after any number of bytes claims only chunks that are on disk |
| Resume.OpensAsSaved | src/chunks.rs:83-101 | an attempt on a disk with a saved sidecar keeps its chunk size and trusts the flagged chunks, all and no other, exactly when the part file reaches the end of each; otherwise it starts over with the planned size |
| Resume.SavedSidecarExactly | src/chunks.rs:295-301 | once the sidecar for the chunk just joined is on disk, an attempt that starts from there trusts exactly the chunks that were joined or resumed, that one among them |
| History.HonestAttemptCommitsBlob | src/chunks.rs:273-377 | an honest attempt that commits has committed exactly the blob, and never rejects the blob's own digest |
| DigestCase.HonestAttemptCommitsExactly | src/chunks.rs:352-360 | of the honest attempts that get to the comparison, those whose digest is all lower case commit, and no other |
| DigestCase.FinishExactly | src/chunks.rs:352-367 | with the whole blob fetched, the last step renames for an all lower-case digest and rejects otherwise |
| DigestCase.UpperCaseLosesBlob | src/chunks.rs:352-360 | for every blob, the empty one included, every layout and every accepted spelling of its digest with an upper-case digit, an honest run that delivers all of it and then deletes part file and sidecar |
| Progress.CommitsExactly | src/chunks.rs:213-377 | from a running state of an honest attempt some honest run commits the blob exactly when the part file is in place, no task is out of retries and the digest is the blob's |
| Progress.AttemptCanCommitExactly | src/chunks.rs:114-377 | so after every honest run of an attempt on a sound disk: no such state is stuck |
| Progress.CollectorCommits | src/chunks.rs:273-377 | the collector does not idle: from every live state in which a task is awaited there is a schedule, with nothing from outside but the tasks' own bodies, for which the loop commits the blob and returns Ok |
| Progress.FetchesAll | src/chunks.rs:279-343 | from every such state all chunks can be fetched, joined and emitted, and a client that is there gets the whole blob |
| Progress.RunStaysDoomed | src/chunks.rs:282-293 | once a task is out of retries or the part file is gone, no run commits |
| Progress.OtherDigestLosesBlob | src/chunks.rs:352-360 | with another digest such a state leads to the blob delivered and nothing of it on disk |
| History.MismatchStartsOver | src/chunks.rs:354-360 | after a digest mismatch each file is gone unless its removal failed, and the next attempt trusts nothing unless both failed |
| History.AttemptKeepsSound | src/chunks.rs:114-377 | an attempt cut at any step leaves a disk whose claims are true |
| History.ResumeSafeExactly | src/chunks.rs:83-101 | a disk is safe to resume, for every blob, exactly when each missing byte of a done chunk lies in the last chunk |
| History.PoisonedResume | src/chunks.rs:143-158 | for every other disk, a blob and an honest run after which the next attempt trusts a wrong chunk |
| History.OrphanIsUnsafe | src/main.rs:2458-2521 | such a disk for every chunk size: a part file gone, say by the single-source path, with its sidecar left |
| History.HistorySound | src/chunks.rs:114-377 | over any guarded history of attempts from an empty disk, every trusted flag is true |
| History.PairedIsGuarded | src/chunks.rs:295-301 | the guard holds by itself when the part file is never deleted without its sidecar |
| Tee.TeeBlobToCache | src/main.rs:2445-2533 | the blob is committed, as the whole body, exactly when every piece arrived and was written, creation, flush and rename succeeded and the digest is right; the client gets exactly the pieces up to the first it refuses, and is told of a failure exactly if it stays |
| Tee.StreamToChannel | src/main.rs:2535-2546 | without a cache file, items are passed on in order up to the first the client refuses |
| Tee.OutcomeExactly | src/main.rs:2445-2533 | the same from the inputs alone, with when the part file stays and what is in it, failing writes and removals included |
| DiskCache.BlobBytesWithout | src/cache.rs:138-163 | the bytes on disk are a sum in which every file counts once, in any order |
| DiskCache.Cache.Init | src/cache.rs:131-163 | the counter becomes the bytes of the committed blobs, scratch files left out |
| DiskCache.Cache.InflightLock | src/cache.rs:217-223 | the map keeps every lock up to 4096 entries and exactly the referenced ones past that; the digest's lock is the kept one or a new one |
| DiskCache.Cache.Committed | src/cache.rs:226-231 | counts the blob, evicts over the cap, keeps the counter within the blobs on disk and, if removals succeed, within the cap |
| DiskCache.Cache.EvictOld | src/cache.rs:241-287 | files and counter afterwards are those of the eviction specification |
| DiskCache.Cache.Collect | src/cache.rs:246-274 | the candidates are what the specification lists |
| DiskCache.Cache.RemoveUntil | src/cache.rs:276-286 | the removal loop tries exactly the planned victims |
| DiskCache.Cache.Clear | src/cache.rs:290-297 | reports the counter, zeroes it and keeps exactly the files that could not be removed, unchanged |
| DiskCache.CandidatesAreEvictable | src/cache.rs:246-274 | candidates are the listed files but for part and bitmap files younger than an hour |
| DiskCache.ByAgeSorted | src/cache.rs:275 | the queue is ordered oldest first and has nothing twice |
| DiskCache.ReclaimKeepsBound | src/cache.rs:276-286 | through failing removals too, the counter stays at most the blobs on disk |
| DiskCache.ReclaimTotal | src/cache.rs:276-286 | the saturating subtractions of the loop come to one, of all bytes removed |
| DiskCache.EvictsExactly | src/cache.rs:226-287 | up to the cap an eviction changes nothing; if removals succeed, something goes exactly when the counter is over the cap and a candidate exists |
| DiskCache.EvictExactly | src/cache.rs:241-287 | after an eviction the counter is exact exactly when it was before and no bytes of part and bitmap files went, or no blob bytes are left |
| DiskCache.ReclaimReaches | src/cache.rs:276-286 | if removals succeed the loop gets to the target or frees all |
| DiskCache.ReclaimStops | src/cache.rs:276-286 | no victim is tried once the counter is at the target |
| DiskCache.VictimsAreOldest | src/cache.rs:241-287 | a removable candidate that stays is no older than any file that goes |
| DiskCache.EvictSparesYoung | src/cache.rs:264-271 | files that stay are unchanged, and part and bitmap files younger than an hour stay |
| DiskCache.EvictBounds | src/cache.rs:241-287 | after an eviction the counter is at most the blobs on disk and, if removals succeed, at most the watermark |
| DiskCache.TargetExactly | src/cache.rs:276 | the watermark is nine tenths of the cap exactly while the u64 product does not wrap, and never above the cap |
| SingleFlight.RunInv | src/main.rs:2150-2200 | every run of ask, acquire, look again, write, commit, leave, clear and restart keeps the invariant |
| SingleFlight.HexIsKey | src/main.rs:3113-3117 | the digests requests go by are exactly the cache keys |
| SingleFlight.ScratchNamesDiffer | src/cache.rs:209-214 | part files and sidecars have one name each per digest, and no two share one |
| SingleFlight.OneLockPerDigest | src/cache.rs:217-223 | all live references for one digest, and for no other, are to one lock, also across pruning |
| SingleFlight.KeptLocks | src/cache.rs:217-223 | pruning and adding keep map and references in step and locks distinct |
| SingleFlight.SoleWriter | src/main.rs:2150-2157 | at most one request per digest is past the lock |
| SingleFlight.AcquireExactly | src/main.rs:2154-2155 | in every run a waiting request gets its lock exactly when no other request for its digest is past the lock, whatever requests for other digests do |
| SingleFlight.NewRequestFetchesExactly | src/main.rs:2150-2175 | a new request for a digest with no one past its lock comes to fetch exactly when the cache does not have the blob, and changes no other request and no file |
| SingleFlight.CommitNeverOverwrites | src/main.rs:2154-2175 | because of the second look, no commit of any run renames over a blob |
| SingleFlight.CounterBound | src/cache.rs:226-297 | over every run the counter is at most the bytes of the blobs on disk |
| SingleFlight.CommitWithinCap | src/cache.rs:226-231 | a commit of any run whose removals succeed ends within the cap, also for a blob larger than the cap |
| SingleFlight.CountInExact | src/cache.rs:226-228 | counting a commit keeps the counter exact exactly when the size counted is the file's |
| SingleFlight.StepExactly | src/cache.rs:131-297 | from an exact counter, a step leaves an exact one exactly when it is tidy: a commit of its file's size that evicts no scratch bytes, or leaves no blob bytes; a clearing that leaves none |
| SingleFlight.CounterExactly | src/cache.rs:131-297 | the counter is the bytes of the blobs on disk throughout a run exactly when every step is tidy |
| SingleFlight.EvictedPartMakesCounterWrong | src/cache.rs:246-286 | a run from a started process in which an eviction takes a stale part file and leaves a counter of 5 for a blob of 10 bytes |
| ManifestCache.Cache.Put | src/cache.rs:334-353 | the fields afterwards are those of one more step of the specification, within the budget |
| ManifestCache.Cache.Get | src/cache.rs:327-332 | the hit is the stored entry, exactly when that is younger than the time to live, and is the last accepted put |
| ManifestCache.Cache.Clear | src/cache.rs:355-359 | empties map and counter |
| ManifestCache.PutKeepsExactly | src/cache.rs:334-353 | after an accepted put of any run its key has the value, and the rest is the other young entries as they were if they are fewer than `max_entries`, the replaced one counted, and their bodies with the new one fit `max_bytes`; otherwise there is no rest |
| ManifestCache.PutSparesLookups | src/cache.rs:327-353 | so lookups of other keys stay as they were exactly when there was that room, and miss otherwise |
| ManifestCache.TooLargeIsIgnored | src/cache.rs:335-337 | a body over the byte cap leaves the cache as it was |
| ManifestCache.RunWithinBudget | src/cache.rs:334-359 | after any run the byte counter is the sum of the bodies and within its cap, and the entry count within max(1, max_entries) |
| ManifestCache.HitIsLastPut | src/cache.rs:327-332 | a hit is the last accepted put of exactly that key since the last clear, and young enough |
| ManifestCache.LookupExactly | src/cache.rs:327-353 | with a clock that does not go back, dropping expired entries early is never seen: lookups are those of the map that forgets only when flushed or cleared |
| ManifestCache.MissedExactly | src/cache.rs:327-353 | and a young enough last put is found exactly unless a later put flushed the full map |
| Sources.ScoreZeroExactly | src/sources.rs:47-59 | a weight is zero exactly when there is no success, or the u64 sum of the counters wraps to zero |
| Sources.ScoreBoundExactly | src/sources.rs:47-59 | a score is at most 1.1 while the sum of the counters is at most 2^64, and for the fastest sources only then |
| Sources.ScoreExactly | src/sources.rs:47-59 | a score is the share of successes, times 1.1 exactly for known ranges, divided by one more than the latency in seconds |
| Sources.LatencyOrdersExactly | src/sources.rs:47-59 | with the same counters and range flag and a positive score, a source scores higher exactly when its latency is lower |
| Sources.LatencyDivides | src/sources.rs:54 | one second of latency halves the score of none, and in general |
| Sources.ReportsCounted | src/sources.rs:225-246 | after any reports about a new source its counters are the numbers of good and of other reports |
| Sources.UsableExactly | src/sources.rs:179-190 | the fallback uses a new source exactly as long as nothing was reported and from the first report on that shows ranges to work |
| Sources.LatencySettles | src/sources.rs:474-481 | probes answered in the same time bring the latency to at most 7 ms below it, never past it, and nothing else moves it |
| Sources.FailureLowersExactly | src/sources.rs:225-234 | a failure lowers a score exactly for a source with a success, a failure counter not saturated and a counter sum other than 2^64 |
| Sources.SuccessRaisesExactly | src/sources.rs:236-246 | a success does not lower a score while the counter sum does not wrap, and for a source with ranges known the exact condition |
| Sources.SourcePool.Pick | src/sources.rs:148-197 | a positive total picks the owner of the draw, always; otherwise the fallback, in range |
| Sources.OwnerUnique | src/sources.rs:171-177 | at most one index owns a draw |
| Sources.PickedHasSuccess | src/sources.rs:148-177 | a weighted pick has weight zero exactly for a draw of zero on a zero-weight source 0 |
| Sources.ZeroDrawPicksFailed | src/sources.rs:170-177 | the case exists |
| Sources.CandidatesUsable | src/sources.rs:179-194 | the fallback chooses among the usable sources, or all when none is |
| Sources.FallbackReachesAll | src/sources.rs:195-196 | any run of as many fallback picks as candidates reaches each one |
| Sources.SourcePool.RecomputeWeights | src/sources.rs:368-378 | afterwards the weights are the scores |
| Sources.SourcePool.ReportFailure | src/sources.rs:225-234 | one failure more for that source, nothing for an unknown one, weights recomputed |
| Sources.SourcePool.ReportSuccess | src/sources.rs:236-246 | one success more and ranges known, weights recomputed |
| Sources.SourcePool.ReportThroughput | src/sources.rs:250-266 | the smoothed estimate, or nothing for an empty or instant transfer |
| Sources.ProbeMovesScore | src/sources.rs:392-446 | a probe that reaches a never-successful source makes its next weight positive, and one that fails never raises it, with the exact saturated and wrapped exceptions |
| Sources.SourcePool.ProbeAll | src/sources.rs:380-390 | so for a whole round of probes in any order and the weights after it |
| Sources.SourcePool.ChunkPlan | src/sources.rs:271-275 | the plan for the sum of the estimates |
| Sources.ThroughputUpdated | src/sources.rs:271-275 | the sum changes by what one estimate changes |
| Sources.PlanUnmeasured | src/sources.rs:268-275 | chunks of 8 MiB, four at a time, until there is a measurement |
| Sources.LatencyBetween | src/sources.rs:474-481 | the latency average lies between old value and sample and stands still only within rounding |
| Sources.ThroughputMeanExactly | src/sources.rs:257-263 | the throughput estimate is the rounded weighted mean exactly while the sum fits u64, and then between |
| Sources.SampleIsRate | src/sources.rs:254 | a sample is whole bytes a second, rounded down |
| Sources.SettlesExactly | src/sources.rs:257-263 | equal samples bring every estimate within 3 bytes per second below them, and none that is there is thrown out again, exactly while ten times the sample fits u64 |
| Sources.PlanBounds | src/sources.rs:458-472 | concurrency is in 4..16 and the chunk size one of three, for every throughput |
| Sources.PlanMonotoneExactly | src/sources.rs:458-472 | chunk size is monotone in throughput, and so is the window, exactly unless the faster is past the limit and the slower is neither past it nor at most 64 MiB/s |
| Sources.WindowCoversExactly | src/sources.rs:458-472 | the window covers two seconds unless concurrency is 16, exactly up to 2^63 - 2^24 bytes per second |
| Sources.WindowIsTight | src/sources.rs:458-472 | it holds less than one chunk more than two seconds need, unless concurrency is 4 |
| Sources.ConcurrencyDrops | src/sources.rs:458-472 | concurrency drops at 50 and 150 MiB/s and nowhere within a band |
| ByteRange.ParsePrinted | src/main.rs:2856-2895 | printing a range and parsing it gives its meaning; numbers past u64 make it ignored |
| ByteRange.WrittenMeaning | src/main.rs:2856-2895 | so does every text of a range, leading zeros and plus signs included |
| ByteRange.AnsweredIsWritten | src/main.rs:2856-2895 | and every header text that is not ignored is such a text |
| ByteRange.StandardExactly | src/main.rs:2856-2895 | for every header text the answer is the one of sections 2.1 and 4.4 of RFC 7233 for a set of one range, except exactly in `Departs` |
| ByteRange.BackwardsDeparts | src/main.rs:2883-2885 | every range backwards gets a 416, a departure |
| ByteRange.EmptySuffixDeparts | src/main.rs:2864-2870 | every suffix of an empty blob gets a 416, a departure |
| ByteRange.WideDeparts | src/main.rs:2874-2882 | every range up to a number past u64 is ignored, a departure |
| ByteRange.SignedDeparts | src/main.rs:2873-2882 | a plus sign is accepted in front of every number, a departure |
| ByteRange.OtherSpellingDeparts | src/main.rs:2857-2882 | the unit in another letter case, or an empty list element before or after it, and the range is ignored, a departure |
| ByteRange.AcceptedWithinBlob | src/main.rs:2856-2895 | for every header text, an accepted range has start <= end < size |
| ByteRange.FileStreamRange | src/main.rs:2814-2839 | emits exactly the range in buffers of at most 64 KiB, or the full buffers before a short file ends and then an error |
| ByteRange.CachedBlobResponse | src/main.rs:2729-2785 | status, length, Content-Range and body of GET and HEAD for a cached blob, also when its file is not the size looked up |
| ByteRange.ContentLengthExactly | src/main.rs:2738-2785 | a GET body has Content-Length bytes exactly when it does not break off, which needs a file shorter than looked up; a HEAD has the same headers and no body |
| ByteRange.ServedExactly | src/main.rs:2738-2785 | a GET with a range text is answered 206 with the selected positions and their Content-Range if there are any, and 416 with the size and no body otherwise |
| ByteRange.ServedWhole | src/main.rs:2738-2785 | without a range, or with a text that is none, 200 and the whole blob |
| ChunkRequest.ContentRangeReads | src/main.rs:2745-2753 | a reader of the Content-Range gets first position, last position and size back |
| ChunkRequest.AcceptsExactly | src/chunks.rs:440-474 | a chunk task reads exactly a success other than 200, with a Content-Range only one that starts at its offset, or past u64 |
| ChunkRequest.GatewayIsMirror | src/chunks.rs:394-506 | a gateway with the blob in its cache answers every chunk request of every layout in a way the chunk task takes, with exactly the chunk's bytes |
| ByteRange.RangesReassemble | src/main.rs:2741-2839 | consecutive ranges covering a blob concatenate to it |
| Strings.ParseDecimal | src/main.rs:2866-2885 | a u64 printed and parsed is itself, exactly when it fits |
| Strings.SplitJoined | src/main.rs:3067-3099 | cutting at every separator and joining again is the text, and no part has a separator |
| Registry.RouteExactly | src/main.rs:1818-1836 | which paths are registry requests, and that a registry prefix is taken off and nothing else |
| Registry.ClassifyRegistryPath | src/main.rs:3033-3047 | the loop keeps the last marker: blob with what follows it, manifest, or other |
| Registry.BlobPathParts | src/main.rs:3023-3047 | classification and repository agree: the path is repository, marker and digest |
| Registry.RewritePullScope | src/main.rs:3072-3099 | a pull scope is refused exactly for a colon or an unclean part, else stripped of its registry |
| Registry.RewriteExactly | src/main.rs:3072-3099 | any scope is forwarded exactly if it is a repository of clean components without a colon and `pull` once or several times, and then with its registry taken off |
| Registry.CleanExactly | src/main.rs:3078-3085 | clean means components joined by slashes, none empty, a dot or two |
| Registry.PullOnlyExactly | src/main.rs:3086-3090 | the actions are `pull`, any number of times |
| Registry.ChallengeRoundTrip | src/main.rs:2995-3004 | the scope of a challenge comes back for the same registry and repository, exactly when the repository is clean |
| Registry.MergedUpstreamScope | src/main.rs:3052-3070 | fails exactly when a scope is refused, else joins the distinct rewritten scopes |
| Strings.DedupOrder | src/main.rs:3058-3067 | merged scopes are distinct and in first-occurrence order |
| Registry.PrefixedAndBareCollapse | src/main.rs:3049-3070 | prefixed and bare scope collapse to one exactly when the repository starts with no registry prefix |
| Registry.GhcrScopeText | src/main.rs:3072-3099 | an accepted scope is for ghcr.io exactly when its text starts with `repository:ghcr.io/` |
| Registry.MergedRegistryExactly | src/main.rs:3056-3063 | the one request goes to the right registry for every scope exactly when all of the texts, or none, start so |
| Registry.MixedScopesMisroute | src/main.rs:3056-3063 | two accepted scopes of which one is asked of the wrong registry |
| Registry.KeyExactly | src/main.rs:3113-3117 | a digest has a key exactly when it is `sha256:` and 64 hexadecimal digits, and the key is those in lower case |
| Strings.LowerExactly | src/main.rs:3116 | lower-casing changes exactly the 26 ASCII capitals |
| Registry.KeyIdentifiesDigest | src/main.rs:3113-3117 | digests share a cache key exactly when they differ in letter case only |
| ImageRef.AcceptedExactly | src/dockerpull.rs:453-538 | a text reads as a reference exactly when that is good and the trimmed text spells it, the registry in any letter case, left out only where unambiguous |
| ImageRef.GoodExactly | src/dockerpull.rs:463-518 | good means clean components of the allowed characters, a tag of 1 to 128 characters that does not start with a dot or dash, a digest the cache has a key for |
| ImageRef.CharactersExactly | src/dockerpull.rs:502-514 | the characters of names and of tags |
| ImageRef.UnsupportedExactly | src/dockerpull.rs:474-484 | a first component with a dot or colon, or `localhost`, is refused exactly if it is none of the two registries |
| ImageRef.AcceptedSpelling | src/dockerpull.rs:453-525 | an accepted text spells registry, name, tag and digest of the result, in order, nothing lost |
| ImageRef.ReadPrintedExactly | src/dockerpull.rs:453-538 | a printed reference reads back exactly when its docker.io name has no dash in front and names no registry |
| ImageRef.SpaceAroundIgnored | src/dockerpull.rs:454 | white space around any text changes nothing |
| ImageRef.ReadSpelled | src/dockerpull.rs:453-538 | with its registry spelled out every good reference is accepted |
| ImageRef.RoutingClosesLoop | src/dockerpull.rs:542-581 | the daemon's request for the plan is routed to the parsed registry and path exactly without a registry prefix in a docker.io path; the router and the token request recover the path |
| ImageRef.RoutePlanned | src/main.rs:1818-1836 | the routing half of it, for any path and reference |
| ImageRef.ManifestMarker | src/main.rs:3023-3031 | the repository of a manifest path is all before its last marker |
| ImageRef.RepositoryBefore | src/main.rs:3023-3031 | so for each of the four words between repository and reference |
| ImageRef.RetagsExactly | src/dockerpull.rs:542-581 | a pull without a digest is retagged to exactly what is displayed, and pulled with that tag; a pinned one is not retagged |
| ImageRef.ReplanExactly | src/dockerpull.rs:566-581 | planning the displayed image again gives the same plan, exactly under `Replans` |
| ImageRef.ReplanFails | src/dockerpull.rs:566-581 | every good reference outside `Replans` is accepted, planned and not planned the same again |
| ImageRef.TaggedAndPinnedNotReplanned | src/dockerpull.rs:566-570 | an accepted image with tag and digest that does not plan back |
| ImageRef.OtherRegistryNotReplanned | src/dockerpull.rs:475-485 | an accepted docker.io image named like another registry that does not plan back |
| ImageRef.DashedNotReplanned | src/dockerpull.rs:455-460 | an accepted docker.io image with a dash in front that does not plan back |
| ImageRef.RoutingGoesAstray | src/main.rs:1824-1836 | every accepted docker.io image whose name starts with a registry prefix is routed elsewhere |
| ImageRef.RoutingFailure | src/main.rs:1824-1836 | an accepted one that is asked of ghcr.io |
| PullStream.PullJob.ApplyProgressLine | src/dockerpull.rs:238-280 | the job state after one line; an error line changes nothing |
| PullStream.PullJob.DockerPull | src/dockerpull.rs:327-358 | state and outcome depend on the concatenated bytes and on whether the stream broke, not on the frames |
| PullStream.OutcomeExactly | src/dockerpull.rs:336-358 | a pull succeeds, with its last status, exactly if no complete line is an error, the stream did not break and that status starts with `Status:`; the first error line comes before the break |
| PullStream.LinesExactly | src/dockerpull.rs:344-347 | the bytes are the lines, each with one newline at its end, and a rest that is not read |
| PullStream.MessagesExactly | src/dockerpull.rs:344-347 | the applied messages are those of the lines before the first error line |
| PullStream.SplitFrame | src/dockerpull.rs:336-348 | splitting a frame anywhere changes neither job state nor answer |
| PullStream.StreamTells | src/dockerpull.rs:256-278 | the message is the last status about no layer, and each layer has its latest status and last positive numbers, in order of first mention |
| PullStream.OrderListsLayers | src/dockerpull.rs:256-263 | the layer order has no duplicates and lists exactly the layers |
| Pem.PemDerBlocks | src/main.rs:533-560 | the loop terminates on every text and returns what the specification lists |
| Pem.MarkerTexts | src/main.rs:534-535 | the markers of a certificate and of an RSA key |
| Pem.ParseUndoesPrint | src/main.rs:533-560 | of printed blocks and cut-short markers, with text around them that holds no marker, exactly the blocks come back, in order |
| Pem.RoundTrip | src/main.rs:533-560 | any list printed with any line width is read back |
| Pem.CutShortLosesNothing | src/main.rs:540-544 | a block cut short in its body in front of a printed file loses nothing of the file |
| Pem.ForeignIsQuiet | src/main.rs:533-560 | blocks of other labels are such text |

## Left out

- HTTP, TLS, redirects, host allowlists, tokens, URL joining and the dashboard: upstream answers are arbitrary byte pieces that may break off.
- SHA-256, JSON and base64: unknown functions; base64 with its round trip and without a dash, JSON with no law at all.
- Floating-point rounding in scores and picks: exact reals; the pseudo-random draw is a parameter in [0, 1).
- Real clocks: integers; `LookupExactly` alone asks for a clock that does not go back.
- The semaphore of concurrent chunks: the step system allows any number of running fetches, so every bounded schedule is among its runs.
- A write already handed to the blocking pool when the collector gives up and its tasks are dropped (src/chunks.rs:287-294, 480-490) could still land in the next attempt's part file: the step system stops all writes at a failure.
- ByteRange.StandardExactly: sets of several ranges, which the code ignores, are outside the grammar modelled.
- Cache operations are atomic steps: a counter update lost to a commit that races with an eviction (src/cache.rs:277-286) is not modelled.
- SingleFlight.RunInv: a commit counts at most the part file's bytes, which `Download.CommitIsSound` gives for the chunked path and `Tee.OutcomeExactly` for the other.
- Downloader.Collector.Save: the sidecar is written in one go there; other tasks' steps between its bytes are in `Download` only.
- DiskCache.ByAgeSorted: the library sort is a stable insertion sort on sequences; directories are listings in any order.
- ByteRange.CachedBlobResponse: the response when the file is gone by the time it is opened is left out, being a second upstream request.
- ManifestCache.RunWithinBudget: body lengths are added without the saturation at the end of `usize`, which memory cannot reach.
- The progress list and its guard (src/cache.rs:64-104), `chunks_done`, statistics, logs and settings: counters for display.
- The warm loop, the pull manager's limits and trimming, and the retag call: little to prove, or I/O.
- GitHub and file-host routes: `NotRegistry` in `RouteRequest`.
- Percent-encoding of the pull request, and how the daemon splits host and repository: taken as given in `RoutingClosesLoop`.
