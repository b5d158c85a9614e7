/**
 The digest is compared with the hash as the client wrote it (src/chunks.rs:352-354), although cache
 keys are lower-cased (src/main.rs: `sha256_hex`): when does a download of the right bytes commit?
 */
module DigestCase {
  import opened Wrappers
  import opened Bytes
  import opened Strings
  import opened Chunking
  import opened Download
  import opened Resume
  import opened History
  import opened Progress
  import Registry

  /** The hash is printed in lower case. */
  ghost predicate PrintsLowerCase(hash: Data -> string) {
    forall bytes :: Lower(hash(bytes)) == hash(bytes)
  }

  /**
   With the whole blob fetched, the last step renames the part file if the digest is all lower case, and
   rejects it otherwise.
   */
  lemma FinishExactly(c: Config, blob: Data, s: Sys)
    requires Faithful(c, blob, s) && s.phase.Joining? && s.remaining == 0 && s.linked
    requires PrintsLowerCase(c.hash) && Lower(c.expected) == c.hash(blob)
    ensures Step(c, s, Finish(true)).phase == if Lower(c.expected) == c.expected then Renamed else Rejected
  {
    LastJoinEmitsAll(c, s);
    assert |s.emitted| == |c.chunks|;
    FaithfulHashesBlob(c, blob, s);
  }

  /** Of the honest attempts that get to the comparison, those with an all lower-case digest commit, and no other. */
  lemma HonestAttemptCommitsExactly(d: Disk, c: Config, planned: nat, blob: Data, connected: bool, events: seq<Event>)
    requires Opens(d, c, planned) && c.total == |blob|
    requires Sound(d.sidecar, PartOf(d), blob) && Gapless(d.sidecar, PartOf(d), c.total, LastStart(c))
    requires HonestRun(c, blob, Opened(d, c, connected), events)
    requires PrintsLowerCase(c.hash) && Lower(c.expected) == c.hash(blob)
    ensures var phase := Run(c, Opened(d, c, connected), events).phase;
            phase in {Renamed, Committed, Rejected, Failed(DigestMismatch)} ==>
              (phase in {Renamed, Committed} <==> Lower(c.expected) == c.expected)
  {
    if Lower(c.expected) == c.expected {
      HonestAttemptCommitsBlob(d, c, planned, blob, connected, events);
    } else {
      CommitIsSound(c, PartOf(d), d.sidecar, TrustedFlags(d, c.total, |c.chunks|), connected, events);
    }
  }

  /**
   The harm: for every blob, also the empty one, every layout and every digest of it with an upper-case digit, though
   the gateway accepts the digest, an attempt with an honest source exists in which the client gets all, and then part
   file and sidecar are deleted.
   */
  lemma UpperCaseLosesBlob(c: Config, blob: Data) returns (events: seq<Event>)
    requires ValidConfig(c) && c.total == |blob| && c.chunkBytes < U64_LIMIT && c.expected != c.hash(blob)
    requires Registry.Sha256Hex("sha256:" + c.expected) == Some(c.hash(blob))
    ensures var s := Spawned(c, [], None, seq(|c.chunks|, _ => false), true);
            var t := Run(c, s, events);
            && HonestRun(c, blob, s, events)
            && t.hashed == blob && t.client.delivered == blob
            && t.phase == Failed(DigestMismatch) && t.final == None && DiskOf(t) == Disk(None, None)
  {
    var s := Spawned(c, [], None, seq(|c.chunks|, _ => false), true);
    FreshIsLive(c, blob);
    var t := OtherDigestLosesBlob(c, blob, s);
    events :| Leads(c, blob, s, events, t);
    FinalOnlyCommitted(c, s, events);
  }

  lemma FreshIsLive(c: Config, blob: Data)
    requires ValidConfig(c) && c.total == |blob| && c.chunkBytes < U64_LIMIT
    ensures Live(c, blob, Spawned(c, [], None, seq(|c.chunks|, _ => false), true))
  {
    SpawnedInv(c, [], None, seq(|c.chunks|, _ => false), true);
  }
}
