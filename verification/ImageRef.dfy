/** Image references and pull plans, and how the router sees what was planned (src/dockerpull.rs, src/main.rs). */
module ImageRef {
  import opened Wrappers
  import opened Strings
  import opened Registry

  datatype Refusal =
    InvalidReference | InvalidDigest | UnsupportedRegistry | InvalidPath | InvalidCharacters | InvalidTag

  /** A reference read apart: `name` has no `library/` added. */
  datatype Reference = Reference(registry: Upstream, name: string, tag: Option<string>, digest: Option<string>)

  datatype ParsedImageRef = ParsedImageRef(
    registry: Upstream, path: string, canonical: string, tag: Option<string>, digest: Option<string>)

  predicate NameChar(c: char) { 'a' <= c <= 'z' || IsDigit(c) || c in "._-/" }

  predicate TagChar(c: char) { IsAlphanumeric(c) || c in "._-" }

  predicate GoodTag(tag: string) {
    0 < |tag| <= 128 && tag[0] !in ".-" && forall i :: 0 <= i < |tag| ==> TagChar(tag[i])
  }

  predicate GoodDigest(digest: string) {
    "sha256:" <= digest && |digest| == 71 && forall i :: 7 <= i < 71 ==> IsHexDigit(digest[i])
  }

  predicate GoodChars(name: string) { forall i :: 0 <= i < |name| ==> NameChar(name[i]) }

  /** What precedes and follows the first `@`. */
  function SplitDigest(input: string): Result<(string, Option<string>), Refusal> {
    match SplitOnce(input, '@')
    case None => Ok((input, None))
    case Some((name, digest)) => if GoodDigest(digest) then Ok((name, Some(digest))) else Err(InvalidDigest)
  }

  /** A first component names a registry when it has a dot or a colon, or is localhost. */
  predicate NamesRegistry(first: string) { '.' in first || ':' in first || first == "localhost" }

  function SplitRegistry(name: string): (string, string) {
    match SplitOnce(name, '/')
    case None => ("docker.io", name)
    case Some((first, rest)) => if NamesRegistry(first) then (Lower(first), rest) else ("docker.io", name)
  }

  /** A tag follows the last colon, unless a slash follows it too. */
  function SplitTag(path: string): (string, Option<string>) {
    match RSplitOnce(path, ':')
    case None => (path, None)
    case Some((name, tag)) => if '/' in tag then (path, None) else (name, Some(tag))
  }

  function CheckName(registry: Upstream, split: (string, Option<string>), digest: Option<string>)
    : Result<Reference, Refusal>
  {
    if split.0 == "" || !CleanParts(split.0) then Err(InvalidPath)
    else if !GoodChars(split.0) then Err(InvalidCharacters)
    else if split.1.Some? && !GoodTag(split.1.value) then Err(InvalidTag)
    else Ok(Reference(registry, split.0, split.1, digest))
  }

  function ReadName(name: string, digest: Option<string>): Result<Reference, Refusal> {
    var split := SplitRegistry(name);
    if split.0 == "docker.io" then CheckName(DockerHub, SplitTag(split.1), digest)
    else if split.0 == "ghcr.io" then CheckName(Ghcr, SplitTag(split.1), digest)
    else Err(UnsupportedRegistry)
  }

  predicate HasWhitespace(s: string) { exists i :: 0 <= i < |s| && IsWhitespace(s[i]) }

  function ReadReference(text: string): Result<Reference, Refusal> {
    var input := Trim(text);
    if input == "" || HasWhitespace(input) || Contains(input, "://") || input[0] == '-' then Err(InvalidReference)
    else
      match SplitDigest(input)
      case Err(refusal) => Err(refusal)
      case Ok((name, digest)) => ReadName(name, digest)
  }

  /** Official images live under `library/`. */
  function PullPath(r: Reference): string {
    if r.registry.DockerHub? && '/' !in r.name then "library/" + r.name else r.name
  }

  /** The name as the user would type it. */
  function Canonical(r: Reference): string {
    if r.registry.DockerHub? then r.name else "ghcr.io/" + r.name
  }

  function Parsed(r: Reference): ParsedImageRef {
    ParsedImageRef(r.registry, PullPath(r), Canonical(r), r.tag, r.digest)
  }

  function ParseImageRef(text: string): Result<ParsedImageRef, Refusal> {
    match ReadReference(text)
    case Err(refusal) => Err(refusal)
    case Ok(r) => Ok(Parsed(r))
  }

  datatype PullSpec = PullSpec(
    image: string, pullRepo: string, tag: Option<string>, digest: Option<string>,
    retagRepo: Option<string>, retagTag: Option<string>)

  function PlanOf(parsed: ParsedImageRef, host: string): PullSpec {
    var tag := if parsed.tag.None? && parsed.digest.None? then Some("latest") else parsed.tag;
    var pullRepo := if parsed.registry.Ghcr? then host + "/ghcr.io/" + parsed.path else host + "/" + parsed.path;
    var image :=
      if tag.Some? then parsed.canonical + ":" + tag.value
      else if parsed.digest.Some? then parsed.canonical + "@" + parsed.digest.value
      else parsed.canonical + ":latest";
    if parsed.digest.Some? then PullSpec(image, pullRepo, tag, parsed.digest, None, None)
    else PullSpec(image, pullRepo, tag, None, Some(parsed.canonical), if tag.Some? then tag else Some("latest"))
  }

  function PlanPull(image: string, host: string): Result<PullSpec, Refusal> {
    match ParseImageRef(image)
    case Err(refusal) => Err(refusal)
    case Ok(parsed) => Ok(PlanOf(parsed, host))
  }

  // ---------- what an accepted reference is ----------

  ghost predicate GoodReference(r: Reference) {
    && r.name != "" && CleanParts(r.name) && GoodChars(r.name)
    && (r.tag.Some? ==> GoodTag(r.tag.value))
    && (r.digest.Some? ==> GoodDigest(r.digest.value))
  }

  /** Everything accepted has a clean path, a good tag and a good digest. */
  lemma AcceptedIsGood(text: string)
    requires ReadReference(text).Ok?
    ensures GoodReference(ReadReference(text).value)
  {
    ReadSteps(text);
    var (name, digest) := SplitDigest(Trim(text)).value;
    CheckedIsGood(name, digest);
  }

  lemma CheckedIsGood(name: string, digest: Option<string>)
    requires ReadName(name, digest).Ok? && (digest.Some? ==> GoodDigest(digest.value))
    ensures GoodReference(ReadName(name, digest).value)
  {
  }

  function TagText(r: Reference): string { if r.tag.Some? then ":" + r.tag.value else "" }

  function DigestText(r: Reference): string { if r.digest.Some? then "@" + r.digest.value else "" }

  /** How a registry may be spelled in front of a name: docker.io also by leaving it out. */
  predicate Spells(prefix: string, registry: Upstream) {
    (prefix == "" && registry.DockerHub?) || Lower(prefix) == RoutePrefix(registry)
  }

  /** An accepted text is, but for space around it, a registry in any letter case, the name, the tag and the digest. */
  lemma AcceptedSpelling(text: string) returns (prefix: string)
    requires ReadReference(text).Ok?
    ensures var r := ReadReference(text).value;
            Spells(prefix, r.registry) && Trim(text) == prefix + (r.name + TagText(r)) + DigestText(r)
  {
    ReadSteps(text);
    var (name, digest) := SplitDigest(Trim(text)).value;
    prefix := NameSpelling(name, digest);
    DigestSpelling(Trim(text), ReadReference(text).value);
  }

  lemma ReadSteps(text: string)
    requires ReadReference(text).Ok?
    ensures SplitDigest(Trim(text)).Ok?
    ensures var (name, digest) := SplitDigest(Trim(text)).value; ReadReference(text) == ReadName(name, digest)
  {
  }

  lemma DigestSpelling(input: string, r: Reference)
    requires SplitDigest(input).Ok? && SplitDigest(input).value.1 == r.digest
    ensures input == SplitDigest(input).value.0 + DigestText(r)
  {
    if r.digest.Some? {
      SplitOnceParts(input, '@');
      assert ['@'] + r.digest.value == "@" + r.digest.value;
    }
  }

  lemma NameSpelling(name: string, digest: Option<string>) returns (prefix: string)
    requires ReadName(name, digest).Ok?
    ensures var r := ReadName(name, digest).value;
            Spells(prefix, r.registry) && name == prefix + (r.name + TagText(r)) && r.digest == digest
  {
    var (registry, path) := SplitRegistry(name);
    var r := ReadName(name, digest).value;
    TagSpelling(path, r);
    var split := SplitOnce(name, '/');
    if split.Some? && NamesRegistry(split.value.0) {
      SplitOnceParts(name, '/');
      prefix := split.value.0 + "/";
      LowerPrefix(split.value.0);
      assert name == prefix + path;
    } else {
      prefix := "";
      assert name == prefix + path;
    }
  }

  lemma LowerPrefix(host: string)
    ensures Lower(host + "/") == Lower(host) + "/"
  {
  }

  lemma TagSpelling(path: string, r: Reference)
    requires SplitTag(path) == (r.name, r.tag)
    ensures path == r.name + TagText(r)
  {
    if r.tag.Some? {
      RSplitOnceParts(path, ':');
      assert [':'] + r.tag.value == ":" + r.tag.value;
    }
  }

  // ---------- from the plan back to the registry ----------

  /** The daemon's manifest request for a planned pull: the repository after the gateway host, by digest or tag. */
  function ManifestPath(repository: string, reference: string): string {
    "/v2/" + repository + "/manifests/" + reference
  }

  function RequestedReference(spec: PullSpec): string {
    if spec.digest.Some? then spec.digest.value else if spec.tag.Some? then spec.tag.value else "latest"
  }

  lemma RequestReferenceHasNoSlash(parsed: ParsedImageRef, host: string)
    requires parsed.tag.Some? ==> GoodTag(parsed.tag.value)
    requires parsed.digest.Some? ==> GoodDigest(parsed.digest.value)
    ensures '/' !in RequestedReference(PlanOf(parsed, host))
  {
    if parsed.digest.Some? {
      var digest := parsed.digest.value;
      assert forall i :: 0 <= i < 7 ==> digest[i] == "sha256:"[i];
    }
  }

  /** In a manifest path the last marker is the one before the reference. */
  lemma ManifestMarker(repository: string, reference: string)
    requires '/' !in reference && repository != ""
    ensures RegistryRepository(ManifestPath(repository, reference)) == Some(repository)
  {
    RepositoryBefore(repository, "/manifests/", reference);
  }

  /** So it is for each of the four words: the repository is what stands before it. */
  lemma RepositoryBefore(repository: string, marker: string, reference: string)
    requires marker in {"/manifests/", "/blobs/", "/tags/", "/referrers/"} && '/' !in reference && repository != ""
    ensures RegistryRepository("/v2/" + repository + marker + reference) == Some(repository)
  {
    var rest := repository + marker + reference;
    assert "/v2/" + repository + marker + reference == "/v2/" + rest;
    StripPrefixOf("/v2/", rest);
    LastInRest(repository, marker, reference);
    assert rest[..|repository|] == repository;
  }

  lemma LastInRest(repository: string, marker: string, reference: string)
    requires marker in {"/manifests/", "/blobs/", "/tags/", "/referrers/"} && '/' !in reference
    ensures LastMarker(repository + marker + reference) == Some(|repository|)
  {
    var rest := repository + marker + reference;
    assert rest[|repository|..|repository| + |marker|] == marker;
    MarkersAre(rest, |repository|);
    assert At(rest, marker, |repository|);
    forall j | j > |repository|
      ensures !MarkerAt(rest, j)
    {
      NoMarkerInside(repository, marker, reference, j);
    }
  }

  /** A slash in front, one at the end, none between. */
  ghost predicate TwoSlashes(marker: string) {
    && |marker| > 1 && marker[0] == '/' && marker[|marker| - 1] == '/'
    && forall i :: 0 < i < |marker| - 1 ==> marker[i] != '/'
  }

  lemma NoMarkerInside(repository: string, marker: string, reference: string, j: int)
    requires TwoSlashes(marker) && '/' !in reference && j > |repository|
    ensures !MarkerAt(repository + marker + reference, j)
  {
    var rest := repository + marker + reference;
    forall m | 0 <= m < |MARKERS|
      ensures !At(rest, MARKERS[m], j)
    {
      var n := |MARKERS[m]|;
      if At(rest, MARKERS[m], j) {
        MarkerSlashes(rest, m, j);
        SlashesInTail(repository, marker, reference, j);
        SlashesInTail(repository, marker, reference, j + n - 1);
        assert false;
      }
    }
  }

  lemma MarkerSlashes(path: string, m: nat, j: int)
    requires m < |MARKERS| && At(path, MARKERS[m], j)
    ensures |MARKERS[m]| > 1 && path[j] == '/' && path[j + |MARKERS[m]| - 1] == '/'
  {
    var n := |MARKERS[m]|;
    assert path[j] == path[j..j + n][0] && path[j + n - 1] == path[j..j + n][n - 1];
  }

  lemma SlashesInTail(repository: string, marker: string, reference: string, k: int)
    requires TwoSlashes(marker) && '/' !in reference
    requires |repository| < k < |repository + marker + reference|
    requires (repository + marker + reference)[k] == '/'
    ensures k == |repository| + |marker| - 1
  {
    var rest := repository + marker + reference;
    var front := |repository| + |marker|;
    assert forall i :: |repository| <= i < front ==> rest[i] == marker[i - |repository|];
    assert forall i :: front <= i < |rest| ==> rest[i] == reference[i - front];
  }

  /** Whether a repository path looks to the router as if it named a registry. */
  predicate LooksPrefixed(path: string) { "docker.io/" <= path || "ghcr.io/" <= path }

  lemma RoutePlanned(registry: Upstream, path: string, reference: string)
    requires registry.DockerHub? ==> '/' in path
    ensures var repository := if registry.Ghcr? then "ghcr.io/" + path else path;
            RouteRequest(ManifestPath(repository, reference)) == Routed(registry, ManifestPath(path, reference))
            <==> registry.Ghcr? || !LooksPrefixed(path)
  {
    var tail := "/manifests/" + reference;
    if registry.Ghcr? {
      assert "ghcr.io/" + path + tail == "ghcr.io/" + (path + tail);
      ManifestTail("ghcr.io/" + path, reference);
      RouteText("ghcr.io/" + (path + tail));
      assert ("ghcr.io/" + (path + tail))[0] == 'g' && ("ghcr.io/" + (path + tail))[8..] == path + tail;
    } else {
      ManifestTail(path, reference);
      RouteText(path + tail);
      PrefixOfTail("docker.io", path, tail);
      PrefixOfTail("ghcr.io", path, tail);
      assert "docker.io" + "/" == "docker.io/" && "ghcr.io" + "/" == "ghcr.io/";
      if "docker.io/" <= path + tail {
        assert |"/v2/" + (path + tail)[10..]| < |"/v2/" + (path + tail)|;
      }
    }
    ManifestTail(path, reference);
  }

  lemma ManifestTail(repository: string, reference: string)
    ensures ManifestPath(repository, reference) == "/v2/" + (repository + ("/manifests/" + reference))
  {
  }

  lemma RouteText(rest: string)
    requires rest != ""
    ensures RouteRequest("/v2/" + rest) ==
      if "docker.io/" <= rest then Routed(DockerHub, "/v2/" + rest[10..])
      else if "ghcr.io/" <= rest then Routed(Ghcr, "/v2/" + rest[8..])
      else Routed(DockerHub, "/v2/" + rest)
  {
    var path := "/v2/" + rest;
    assert path[1] == 'v' && |path| > 4 && path[4..] == rest;
  }

  /** With a slash in `path`, what follows it cannot complete a registry prefix. */
  lemma PrefixOfTail(host: string, path: string, tail: string)
    requires '/' !in host && '/' in path
    ensures host + "/" <= path + tail <==> host + "/" <= path
  {
    var k: nat :| k < |path| && path[k] == '/';
    assert (path + tail)[k] == '/';
    assert forall i :: 0 <= i < |host| ==> (host + "/")[i] == host[i];
  }

  lemma PullPathIsClean(r: Reference)
    requires GoodReference(r)
    ensures CleanParts(PullPath(r)) && ':' !in PullPath(r) && PullPath(r) != ""
    ensures r.registry.DockerHub? ==> '/' in PullPath(r)
  {
    assert ':' !in r.name by {
      assert forall i :: 0 <= i < |r.name| ==> r.name[i] != ':';
    }
    if r.registry.DockerHub? && '/' !in r.name {
      assert "library/" + r.name == "library" + "/" + r.name;
      CleanPrefixed("library", r.name);
      assert PullPath(r)[7] == '/';
    }
  }

  /** The repository the daemon asks the gateway for. */
  function GatewayRepository(registry: Upstream, path: string): string {
    if registry.Ghcr? then "ghcr.io/" + path else path
  }

  lemma ReferenceLoop(r: Reference, reference: string)
    requires GoodReference(r) && '/' !in reference
    ensures var upstream := ManifestPath(PullPath(r), reference);
            && (RouteRequest(ManifestPath(GatewayRepository(r.registry, PullPath(r)), reference))
                == Routed(r.registry, upstream)
                <==> r.registry.Ghcr? || !LooksPrefixed(PullPath(r)))
            && RegistryRepository(upstream) == Some(PullPath(r))
            && RewriteScope(ChallengeScope(r.registry, upstream).value) == Some((r.registry, PullScope(PullPath(r))))
  {
    PullPathIsClean(r);
    var path := PullPath(r);
    RoutePlanned(r.registry, path, reference);
    ManifestMarker(path, reference);
    PrefixedPullScope(r.registry, path);
  }

  lemma PlannedRepository(parsed: ParsedImageRef, host: string)
    ensures PlanOf(parsed, host).pullRepo == host + "/" + GatewayRepository(parsed.registry, parsed.path)
  {
    assert host + "/ghcr.io/" + parsed.path == host + "/" + ("ghcr.io/" + parsed.path);
  }

  /**
   * The daemon asked to pull the planned repository sends its manifest request to the parsed registry with
   * the parsed path, unless that is a docker.io path starting with a registry prefix; the router's path gives
   * back exactly the repository, and so does the token request that answers its challenge.
   */
  lemma RoutingClosesLoop(image: string, host: string)
    requires PlanPull(image, host).Ok?
    ensures var parsed, spec := ParseImageRef(image).value, PlanPull(image, host).value;
            var repository := GatewayRepository(parsed.registry, parsed.path);
            var upstream := ManifestPath(parsed.path, RequestedReference(spec));
            && spec.pullRepo == host + "/" + repository
            && (RouteRequest(ManifestPath(repository, RequestedReference(spec))) == Routed(parsed.registry, upstream)
                <==> parsed.registry.Ghcr? || !LooksPrefixed(parsed.path))
            && RegistryRepository(upstream) == Some(parsed.path)
            && RewriteScope(ChallengeScope(parsed.registry, upstream).value)
               == Some((parsed.registry, PullScope(parsed.path)))
  {
    AcceptedIsGood(image);
    var parsed, spec := ParseImageRef(image).value, PlanPull(image, host).value;
    RequestReferenceHasNoSlash(parsed, host);
    ReferenceLoop(ReadReference(image).value, RequestedReference(spec));
    PlannedRepository(parsed, host);
  }

  /**
   A pull without a digest is renamed to what is displayed, name and tag, `latest` without one; a pinned one is left
   as pulled. What the daemon is told to pull is the name under the gateway, official images under `library/`.
   */
  lemma RetagsExactly(image: string, host: string)
    requires PlanPull(image, host).Ok?
    ensures ReadReference(image).Ok?
    ensures var r, spec := ReadReference(image).value, PlanPull(image, host).value;
            && spec.pullRepo == host + "/" + PulledName(r)
            && spec.digest == r.digest
            && spec.tag == (if r.tag.None? && r.digest.None? then Some("latest") else r.tag)
            && (spec.retagRepo.Some? <==> r.digest.None?)
            && (spec.retagTag.Some? <==> r.digest.None?)
            && (r.digest.None? ==>
                  spec.image == spec.retagRepo.value + ":" + spec.retagTag.value && spec.retagTag == spec.tag)
  {
    var r := ReadReference(image).value;
    assert PlanPull(image, host) == Ok(PlanOf(Parsed(r), host));
    PlannedRepository(Parsed(r), host);
    PlanFields(Parsed(r), host);
  }

  function PulledName(r: Reference): string {
    if r.registry.Ghcr? then "ghcr.io/" + r.name else if '/' in r.name then r.name else "library/" + r.name
  }

  lemma PlanFields(parsed: ParsedImageRef, host: string)
    ensures var spec := PlanOf(parsed, host);
            && spec.digest == parsed.digest
            && spec.tag == (if parsed.tag.None? && parsed.digest.None? then Some("latest") else parsed.tag)
            && (spec.retagRepo.Some? <==> parsed.digest.None?)
            && (spec.retagTag.Some? <==> parsed.digest.None?)
            && (parsed.digest.None? ==>
                  spec.image == spec.retagRepo.value + ":" + spec.retagTag.value && spec.retagTag == spec.tag)
  {
  }

  /**
   A first component with a dot or a colon, or `localhost`, names a registry, and any but the two is refused; any
   other first component is part of a docker.io name.
   */
  lemma UnsupportedExactly(first: string, rest: string, digest: Option<string>)
    requires '/' !in first
    ensures ReadName(first + "/" + rest, digest) == Err(UnsupportedRegistry) <==>
      ('.' in first || ':' in first || first == "localhost") && Lower(first) !in {"docker.io", "ghcr.io"}
  {
    SplitOnceAt(first, '/', rest);
  }

  lemma CharactersExactly(c: char)
    ensures NameChar(c) <==> c in "0123456789" || c in "abcdefghijklmnopqrstuvwxyz" || c in "._-/"
    ensures TagChar(c) <==> (NameChar(c) && c != '/') || c in "ABCDEFGHIJKLMNOPQRSTUVWXYZ"
  {
    AlphanumericExactly(c);
  }

  /** A good reference, in full. */
  lemma GoodExactly(r: Reference)
    ensures GoodReference(r) <==>
      && (exists parts :: Components(parts) && r.name == Join(parts, "/"))
      && (forall i :: 0 <= i < |r.name| ==> NameChar(r.name[i]))
      && (r.tag.Some? ==>
            && 1 <= |r.tag.value| <= 128 && r.tag.value[0] != '.' && r.tag.value[0] != '-'
            && forall i :: 0 <= i < |r.tag.value| ==> TagChar(r.tag.value[i]))
      && (r.digest.Some? ==> Sha256Hex(r.digest.value).Some?)
  {
    CleanExactly(r.name);
    if CleanParts(r.name) {
      CleanIsTrimmed(r.name);
    }
    if r.digest.Some? {
      DigestHasKey(r.digest.value);
    }
  }

  /** The digests accepted here are the ones the cache has keys for. */
  lemma DigestHasKey(digest: string)
    ensures GoodDigest(digest) <==> Sha256Hex(digest).Some?
  {
    if "sha256:" <= digest {
      assert forall i :: 7 <= i < |digest| ==> digest[i] == digest[7..][i - 7];
      assert forall i :: 0 <= i < |digest| - 7 ==> digest[7..][i] == digest[7 + i];
    }
  }

  // ---------- printing a reference and reading it back ----------

  function Text(r: Reference): string { Canonical(r) + TagText(r) + DigestText(r) }

  /** The first of several components, as the reader sees it. */
  predicate StartsWithRegistry(name: string) {
    SplitOnce(name, '/').Some? && NamesRegistry(SplitOnce(name, '/').value.0)
  }

  /** References whose text reads back as themselves. */
  predicate Reads(r: Reference)
    requires r.name != ""
  {
    r.registry.Ghcr? || (r.name[0] != '-' && !StartsWithRegistry(r.name))
  }

  /** A name with a registry in front of it, in any letter case. */
  predicate FrontChars(front: string) {
    forall i :: 0 <= i < |front| ==> IsAlphanumeric(front[i]) || front[i] in "._-/"
  }

  lemma CanonicalChars(r: Reference)
    requires GoodReference(r)
    ensures FrontChars(Canonical(r)) && Canonical(r) != ""
  {
    if r.registry.Ghcr? {
      assert forall i :: 0 <= i < 8 ==> NameChar("ghcr.io/"[i]);
    }
  }

  predicate SuffixChar(c: char) { IsAlphanumeric(c) || c in "._-:@" }

  lemma SuffixChars(r: Reference)
    requires GoodReference(r)
    ensures forall i :: 0 <= i < |TagText(r)| ==> SuffixChar(TagText(r)[i])
    ensures forall i :: 0 <= i < |DigestText(r)| ==> SuffixChar(DigestText(r)[i])
    ensures '@' !in TagText(r) && '/' !in TagText(r) && '/' !in DigestText(r)
  {
    if r.tag.Some? {
      assert forall i :: 0 < i < |TagText(r)| ==> TagText(r)[i] == r.tag.value[i - 1];
    }
    if r.digest.Some? {
      var digest := r.digest.value;
      assert forall i :: 0 <= i < 7 ==> digest[i] == "sha256:"[i] && SuffixChar(digest[i]);
      assert forall i :: 0 < i < |DigestText(r)| ==> DigestText(r)[i] == digest[i - 1];
    }
  }

  lemma TrimNothing(s: string)
    requires !HasWhitespace(s)
    ensures Trim(s) == s
  {
  }

  /** Nothing in a spelled reference makes it an invalid reference but a leading dash. */
  lemma TextIsOneWord(front: string, r: Reference)
    requires GoodReference(r) && FrontChars(front) && front != ""
    ensures var text := front + TagText(r) + DigestText(r);
            && text != "" && text[0] == front[0]
            && !HasWhitespace(text) && !Contains(text, "://")
  {
    SuffixChars(r);
    var rest := TagText(r) + DigestText(r);
    assert front + TagText(r) + DigestText(r) == front + rest;
    WordOf(front, rest);
  }

  lemma WordOf(front: string, rest: string)
    requires FrontChars(front) && forall i :: 0 <= i < |rest| ==> SuffixChar(rest[i])
    ensures !HasWhitespace(front + rest) && !Contains(front + rest, "://")
  {
    var t := front + rest;
    assert forall i :: 0 <= i < |t| ==> t[i] == '/' || SuffixChar(t[i]);
    assert forall i :: 0 <= i < |front| ==> t[i] != ':';
    assert forall i :: |front| <= i < |t| ==> t[i] != '/';
    forall i | At(t, "://", i)
      ensures false
    {
      ColonThenSlash(t, i);
      assert false;
    }
  }

  lemma ColonThenSlash(t: string, i: int)
    requires At(t, "://", i)
    ensures t[i] == ':' && t[i + 1] == '/'
  {
    assert t[i] == t[i..i + 3][0] && t[i + 1] == t[i..i + 3][1];
  }

  lemma DigestCutOff(front: string, r: Reference)
    requires GoodReference(r) && FrontChars(front)
    ensures SplitDigest(front + TagText(r) + DigestText(r)) == Ok((front + TagText(r), r.digest))
  {
    SuffixChars(r);
    var name := front + TagText(r);
    var text := name + DigestText(r);
    assert '@' !in name by {
      assert forall i :: 0 <= i < |front| ==> front[i] != '@';
    }
    if r.digest.Some? {
      assert text == name + ['@'] + r.digest.value;
      SplitOnceAt(name, '@', r.digest.value);
    } else {
      assert text == name;
      SplitOnceNone(name, '@');
    }
  }

  /** A spelled reference is read by its name with the digest cut off, unless a dash is in front. */
  lemma ReadWord(front: string, r: Reference)
    requires GoodReference(r) && FrontChars(front) && front != ""
    ensures ReadReference(front + TagText(r) + DigestText(r)) ==
      if front[0] == '-' then Err(InvalidReference) else ReadName(front + TagText(r), r.digest)
  {
    TextIsOneWord(front, r);
    TrimNothing(front + TagText(r) + DigestText(r));
    DigestCutOff(front, r);
  }

  lemma TagHasNoSeparator(tag: string)
    requires GoodTag(tag)
    ensures ':' !in tag && '/' !in tag
  {
    assert forall i :: 0 <= i < |tag| ==> tag[i] != ':' && tag[i] != '/';
  }

  lemma TagCutOff(name: string, r: Reference)
    requires (r.tag.Some? ==> GoodTag(r.tag.value)) && ':' !in name
    ensures SplitTag(name + TagText(r)) == (name, r.tag)
  {
    if r.tag.Some? {
      var tag := r.tag.value;
      TagHasNoSeparator(tag);
      assert name + TagText(r) == name + [':'] + tag;
      RSplitOnceAt(name, ':', tag);
    } else {
      assert name + TagText(r) == name;
      SplitOnceNone(name, ':');
    }
  }

  lemma GoodNameHasNoColon(r: Reference)
    requires GoodReference(r)
    ensures ':' !in r.name
  {
    assert forall i :: 0 <= i < |r.name| ==> r.name[i] != ':';
  }

  lemma ReadGhcr(r: Reference)
    requires GoodReference(r) && r.registry.Ghcr?
    ensures ReadName(Canonical(r) + TagText(r), r.digest) == Ok(r)
  {
    GoodNameHasNoColon(r);
    TagCutOff(r.name, r);
    assert Canonical(r) + TagText(r) == "ghcr.io" + ['/'] + (r.name + TagText(r));
    SplitOnceAt("ghcr.io", '/', r.name + TagText(r));
    assert Lower("ghcr.io") == "ghcr.io";
  }

  /** A docker.io name with one component, or with a first one that names no registry. */
  lemma ReadPlainDocker(r: Reference)
    requires GoodReference(r) && r.registry.DockerHub? && !StartsWithRegistry(r.name)
    ensures ReadName(Canonical(r) + TagText(r), r.digest) == Ok(r)
  {
    GoodNameHasNoColon(r);
    TagCutOff(r.name, r);
    SuffixChars(r);
    SplitOnceNone(r.name, '/');
    if '/' in r.name {
      SplitOnceExtend(r.name, '/', TagText(r));
    } else {
      SplitOnceNone(r.name + TagText(r), '/');
    }
  }

  /** A docker.io name whose first component names a registry is read as being there. */
  lemma ReadRegistryLike(r: Reference)
    requires GoodReference(r) && r.registry.DockerHub? && StartsWithRegistry(r.name)
    ensures var (first, rest) := SplitOnce(r.name, '/').value;
            ReadName(Canonical(r) + TagText(r), r.digest) ==
              if first == "docker.io" then Ok(Reference(DockerHub, rest, r.tag, r.digest))
              else if first == "ghcr.io" then Ok(Reference(Ghcr, rest, r.tag, r.digest))
              else Err(UnsupportedRegistry)
  {
    var (first, rest) := SplitOnce(r.name, '/').value;
    GoodNameHasNoColon(r);
    FirstAndRest(r.name);
    SplitOnceNone(r.name, '/');
    SplitOnceExtend(r.name, '/', TagText(r));
    TagCutOff(rest, r);
  }

  lemma FirstAndRest(name: string)
    requires CleanParts(name) && GoodChars(name) && ':' !in name && SplitOnce(name, '/').Some?
    ensures var (first, rest) := SplitOnce(name, '/').value;
            && Lower(first) == first && ':' !in rest
            && CleanParts(rest) && GoodChars(rest) && rest != ""
  {
    var (first, rest) := SplitOnce(name, '/').value;
    SplitOnceParts(name, '/');
    assert forall i :: 0 <= i < |first| ==> first[i] == name[i] && NameChar(name[i]);
    assert forall i :: 0 <= i < |rest| ==> rest[i] == name[i + |first| + 1];
    FirstHasNone(name, '/');
    RestIsClean(name, first, rest);
  }

  lemma RestIsClean(name: string, first: string, rest: string)
    requires name == first + ['/'] + rest && '/' !in first && CleanParts(name) && GoodChars(name)
    ensures CleanParts(rest) && GoodChars(rest) && rest != ""
  {
    SplitPrepend(first, '/', rest);
    assert forall i :: 0 <= i < |Split(rest, '/')| ==> Split(name, '/')[i + 1] == Split(rest, '/')[i];
    CleanIsTrimmed(rest);
    assert forall i :: 0 <= i < |rest| ==> rest[i] == name[i + |first| + 1];
  }

  /** What a printed reference reads back as. */
  function ReadsAs(r: Reference): Result<Reference, Refusal>
    requires r.name != ""
  {
    if r.registry.Ghcr? then Ok(r)
    else if r.name[0] == '-' then Err(InvalidReference)
    else if !StartsWithRegistry(r.name) then Ok(r)
    else
      var (first, rest) := SplitOnce(r.name, '/').value;
      if first == "docker.io" then Ok(Reference(DockerHub, rest, r.tag, r.digest))
      else if first == "ghcr.io" then Ok(Reference(Ghcr, rest, r.tag, r.digest))
      else Err(UnsupportedRegistry)
  }

  lemma ReadText(r: Reference)
    requires GoodReference(r)
    ensures ReadReference(Text(r)) == ReadsAs(r)
  {
    CanonicalChars(r);
    ReadWord(Canonical(r), r);
    if r.registry.Ghcr? {
      ReadGhcr(r);
    } else if StartsWithRegistry(r.name) {
      ReadRegistryLike(r);
    } else {
      ReadPlainDocker(r);
    }
  }

  /** White space around a text changes nothing. */
  lemma SpaceAroundIgnored(before: string, text: string, after: string)
    requires AllSpace(before) && AllSpace(after)
    ensures ReadReference(before + text + after) == ReadReference(text)
  {
    TrimAround(before, text, after);
  }

  /** A good reference survives printing exactly when its docker.io name has no dash in front and names no registry. */
  lemma ReadPrintedExactly(r: Reference)
    requires GoodReference(r)
    ensures ReadReference(Text(r)) == Ok(r) <==> Reads(r)
  {
    ReadText(r);
    ReadsAsItself(r);
  }

  lemma ReadsAsItself(r: Reference)
    requires r.name != ""
    ensures ReadsAs(r) == Ok(r) <==> Reads(r)
  {
    if StartsWithRegistry(r.name) {
      RestIsShorter(r.name);
    }
  }

  lemma RestIsShorter(name: string)
    requires SplitOnce(name, '/').Some?
    ensures |name| == |SplitOnce(name, '/').value.0| + 1 + |SplitOnce(name, '/').value.1|
  {
    SplitOnceParts(name, '/');
  }

  /** A registry in front, spelled out in any letter case. */
  function Spelled(prefix: string, r: Reference): string {
    prefix + (r.name + TagText(r)) + DigestText(r)
  }

  /** With its registry spelled out every good reference is accepted, also those that must not be printed without it. */
  lemma ReadSpelled(prefix: string, r: Reference)
    requires GoodReference(r) && Lower(prefix) == RoutePrefix(r.registry)
    ensures ReadReference(Spelled(prefix, r)) == Ok(r)
  {
    var front := prefix + r.name;
    SpelledPrefix(prefix, r.registry);
    ReadWord(front, r);
    ReadSpelledName(prefix, r);
    SpelledText(prefix, r.name, TagText(r), DigestText(r));
  }

  lemma SpelledText(prefix: string, name: string, tag: string, digest: string)
    ensures prefix + (name + tag) + digest == prefix + name + tag + digest
    ensures prefix + name + tag == prefix + (name + tag)
  {
  }

  lemma SpelledPrefix(prefix: string, registry: Upstream)
    requires Lower(prefix) == RoutePrefix(registry)
    ensures FrontChars(prefix) && prefix != "" && prefix[0] != '-'
    ensures var host := prefix[..|prefix| - 1];
            prefix == host + ['/'] && '/' !in host && '.' in host && Lower(host) + "/" == RoutePrefix(registry)
  {
    var text := RoutePrefix(registry);
    assert forall i :: 0 <= i < |prefix| ==> LowerChar(prefix[i]) == text[i];
    assert text[|text| - 1] == '/' && text[|text| - 4] == '.';
    assert prefix[|prefix| - 1] == '/';
    var host := prefix[..|prefix| - 1];
    assert host[|host| - 3] == '.';
    LowerPrefix(host);
  }

  lemma ReadSpelledName(prefix: string, r: Reference)
    requires GoodReference(r) && Lower(prefix) == RoutePrefix(r.registry)
    ensures ReadName(prefix + (r.name + TagText(r)), r.digest) == Ok(r)
  {
    SplitSpelled(prefix, r.registry, r.name + TagText(r));
    GoodNameHasNoColon(r);
    TagCutOff(r.name, r);
  }

  function HostName(registry: Upstream): string { if registry.DockerHub? then "docker.io" else "ghcr.io" }

  lemma SplitSpelled(prefix: string, registry: Upstream, rest: string)
    requires Lower(prefix) == RoutePrefix(registry)
    ensures SplitRegistry(prefix + rest) == (HostName(registry), rest)
  {
    SpelledPrefix(prefix, registry);
    var host := prefix[..|prefix| - 1];
    SplitOnceAt(host, '/', rest);
    assert HostName(registry) + "/" == RoutePrefix(registry);
    WithoutSlash(Lower(host), HostName(registry));
  }

  lemma WithoutSlash(a: string, b: string)
    requires a + "/" == b + "/"
    ensures a == b
  {
    assert a == (a + "/")[..|a + "/"| - 1];
    assert b == (b + "/")[..|b + "/"| - 1];
  }

  /**
   The reader, exactly: a text reads as a reference when the reference is good and the text, but for space
   around it, spells it, with the registry left out only where that is unambiguous.
   */
  lemma AcceptedExactly(text: string, r: Reference)
    ensures ReadReference(text) == Ok(r) <==>
      GoodReference(r) && exists prefix ::
        Trim(text) == Spelled(prefix, r) && Spells(prefix, r.registry) && (prefix == "" ==> Reads(r))
  {
    if ReadReference(text) == Ok(r) {
      AcceptedIsGood(text);
      var prefix := AcceptedSpelling(text);
      if prefix == "" {
        BareSpelling(r);
        ReadPrintedExactly(r);
        TrimTwice(text);
      }
      assert Trim(text) == Spelled(prefix, r);
    }
    if GoodReference(r) {
      forall prefix | Trim(text) == Spelled(prefix, r) && Spells(prefix, r.registry) && (prefix == "" ==> Reads(r))
        ensures ReadReference(text) == Ok(r)
      {
        TrimTwice(text);
        if prefix == "" {
          BareSpelling(r);
          ReadPrintedExactly(r);
        } else {
          ReadSpelled(prefix, r);
        }
      }
    }
  }

  lemma BareSpelling(r: Reference)
    requires r.registry.DockerHub?
    ensures Spelled("", r) == Text(r)
  {
  }

  /** Reading looks at the trimmed text only. */
  lemma TrimTwice(text: string)
    ensures ReadReference(Trim(text)) == ReadReference(text)
  {
    TrimIsTrimmed(text);
  }

  /** The part of a reference the display keeps: the digest only when there is no tag. */
  function Shown(r: Reference): Reference {
    if r.tag.Some? then r.(digest := None)
    else if r.digest.Some? then r
    else r.(tag := Some("latest"))
  }

  lemma ShownIsGood(r: Reference)
    requires GoodReference(r)
    ensures GoodReference(Shown(r))
  {
    assert GoodTag("latest");
  }

  lemma DisplayIsText(r: Reference, host: string)
    ensures PlanOf(Parsed(r), host).image == Text(Shown(r))
  {
    var shown := Shown(r);
    JoinText(Canonical(r), ":", if shown.tag.Some? then shown.tag.value else "");
    JoinText(Canonical(r), "@", if shown.digest.Some? then shown.digest.value else "");
    JoinText(Canonical(r), ":", "latest");
    assert ":" + "latest" == ":latest";
  }

  lemma JoinText(a: string, mark: string, b: string)
    ensures a + (mark + b) + "" == a + mark + b
    ensures a + "" + (mark + b) == a + mark + b
    ensures a + (mark + b) == a + mark + b
  {
  }

  /** Whether planning the displayed image again gives the same plan. */
  predicate Replans(r: Reference)
    requires r.name != ""
  {
    !(r.tag.Some? && r.digest.Some?) && (Reads(r) || "ghcr.io/" <= r.name)
  }

  lemma GhcrPrefixIsFirst(name: string)
    ensures "ghcr.io/" <= name <==> SplitOnce(name, '/').Some? && SplitOnce(name, '/').value.0 == "ghcr.io"
    ensures "ghcr.io/" <= name ==> name == "ghcr.io/" + SplitOnce(name, '/').value.1
  {
    if "ghcr.io/" <= name {
      assert name == "ghcr.io" + ['/'] + name[8..];
      SplitOnceAt("ghcr.io", '/', name[8..]);
    } else if SplitOnce(name, '/').Some? {
      SplitOnceParts(name, '/');
      assert "ghcr.io" + ['/'] == "ghcr.io/";
    }
  }

  /** Plans of references that differ in a digest, or in the repository asked for, differ. */
  lemma PlansDiffer(r: Reference, s: Reference, host: string)
    requires r.digest != s.digest
      || GatewayRepository(r.registry, PullPath(r)) != GatewayRepository(s.registry, PullPath(s))
    ensures PlanOf(Parsed(r), host) != PlanOf(Parsed(s), host)
  {
    PlannedRepository(Parsed(r), host);
    PlannedRepository(Parsed(s), host);
    var a, b := GatewayRepository(r.registry, PullPath(r)), GatewayRepository(s.registry, PullPath(s));
    if host + "/" + a == host + "/" + b {
      assert a == (host + "/" + a)[|host| + 1..] == (host + "/" + b)[|host| + 1..] == b;
    }
  }

  /** Planning again what is displayed gives the same plan, exactly for these references. */
  lemma ReplanExactly(image: string, host: string)
    requires PlanPull(image, host).Ok?
    ensures ReadReference(image).Ok? && ReadReference(image).value.name != ""
    ensures PlanPull(PlanPull(image, host).value.image, host) == PlanPull(image, host)
       <==> Replans(ReadReference(image).value)
  {
    AcceptedIsGood(image);
    var r := ReadReference(image).value;
    DisplayIsText(r, host);
    ShownIsGood(r);
    ReadText(Shown(r));
    ReplanShown(r, host);
  }

  lemma ReplanShown(r: Reference, host: string)
    requires GoodReference(r)
    ensures ReadsAs(Shown(r)).Ok? && PlanOf(Parsed(ReadsAs(Shown(r)).value), host) == PlanOf(Parsed(r), host)
       <==> Replans(r)
  {
    GhcrPrefixIsFirst(r.name);
    if r.tag.Some? && r.digest.Some? {
      if ReadsAs(Shown(r)).Ok? {
        PlansDiffer(ReadsAs(Shown(r)).value, r, host);
      }
    } else if r.registry.DockerHub? && r.name[0] != '-' && StartsWithRegistry(r.name) {
      ReplanRegistryLike(r, host);
    }
  }

  lemma ReplanRegistryLike(r: Reference, host: string)
    requires GoodReference(r) && r.registry.DockerHub? && StartsWithRegistry(r.name)
    requires !(r.tag.Some? && r.digest.Some?) && r.name[0] != '-'
    ensures ReadsAs(Shown(r)).Ok? && PlanOf(Parsed(ReadsAs(Shown(r)).value), host) == PlanOf(Parsed(r), host)
       <==> "ghcr.io/" <= r.name
  {
    GhcrPrefixIsFirst(r.name);
    RestIsShorter(r.name);
    var (first, rest) := SplitOnce(r.name, '/').value;
    if first == "docker.io" {
      PullPathLength(Reference(DockerHub, rest, Shown(r).tag, Shown(r).digest));
      SplitOnceNone(r.name, '/');
      PlansDiffer(Reference(DockerHub, rest, Shown(r).tag, Shown(r).digest), r, host);
    } else if first == "ghcr.io" {
      SplitOnceNone(r.name, '/');
      SamePlanInGhcr(r, rest, host);
    }
  }

  lemma PullPathLength(r: Reference)
    ensures |PullPath(r)| <= |r.name| + 8
  {
  }

  /** A docker.io name that starts with `ghcr.io/` is planned like the ghcr.io image it spells. */
  lemma SamePlanInGhcr(r: Reference, rest: string, host: string)
    requires r.registry.DockerHub? && '/' in r.name && r.name == "ghcr.io/" + rest
    requires !(r.tag.Some? && r.digest.Some?)
    ensures PlanOf(Parsed(Reference(Ghcr, rest, Shown(r).tag, Shown(r).digest)), host) == PlanOf(Parsed(r), host)
  {
    var s := Reference(Ghcr, rest, Shown(r).tag, Shown(r).digest);
    PlannedRepository(Parsed(s), host);
    PlannedRepository(Parsed(r), host);
    assert Canonical(s) == Canonical(r);
    JoinText(Canonical(r), ":", "latest");
    assert ":" + "latest" == ":latest";
  }

  // ---------- the failures happen ----------

  /** The text that spells everything out. */
  function FullText(r: Reference): string { Spelled(RoutePrefix(r.registry), r) }

  lemma ReadFullText(r: Reference)
    requires GoodReference(r)
    ensures ReadReference(FullText(r)) == Ok(r)
  {
    assert Lower(RoutePrefix(r.registry)) == RoutePrefix(r.registry);
    ReadSpelled(RoutePrefix(r.registry), r);
  }

  /** Every good reference outside `Replans` is accepted, planned, and not planned the same again. */
  lemma ReplanFails(r: Reference, host: string)
    requires GoodReference(r) && !Replans(r)
    ensures var plan := PlanPull(FullText(r), host);
            plan.Ok? && PlanPull(plan.value.image, host) != plan
  {
    ReadFullText(r);
    ReplanExactly(FullText(r), host);
  }

  function ZeroDigest(): string { "sha256:" + seq(64, _ => '0') }

  const TAGGED_AND_PINNED := Reference(DockerHub, "a", Some("b"), Some(ZeroDigest()))
  const OTHER_REGISTRY := Reference(DockerHub, "quay.io/a", None, None)
  const DASHED := Reference(DockerHub, "-a", None, None)
  const GHCR_LIKE := Reference(DockerHub, "ghcr.io/a", None, None)

  lemma OnePart(name: string)
    requires '/' !in name && CleanPart(name) && GoodChars(name)
    ensures GoodReference(Reference(DockerHub, name, None, None))
  {
    SplitWhole(name, '/');
  }

  lemma TwoParts(host: string)
    requires '/' !in host && CleanPart(host) && GoodChars(host)
    ensures GoodReference(Reference(DockerHub, host + "/" + "a", None, None))
    ensures SplitOnce(host + "/" + "a", '/') == Some((host, "a"))
  {
    SplitWhole("a", '/');
    CleanPrefixed(host, "a");
    SplitOnceAt(host, '/', "a");
  }

  lemma ZeroDigestIsGood()
    ensures GoodDigest(ZeroDigest())
  {
  }

  /** A tag together with a digest: the display drops the digest. */
  lemma TaggedAndPinnedNotReplanned(host: string)
    ensures var plan := PlanPull(FullText(TAGGED_AND_PINNED), host);
            plan.Ok? && PlanPull(plan.value.image, host) != plan
  {
    OnePart("a");
    ZeroDigestIsGood();
    ReplanFails(TAGGED_AND_PINNED, host);
  }

  /** A docker.io name that looks like another registry: its display is refused. */
  lemma OtherRegistryNotReplanned(host: string)
    ensures var plan := PlanPull(FullText(OTHER_REGISTRY), host);
            plan.Ok? && PlanPull(plan.value.image, host) != plan
  {
    OtherRegistryNamesOne();
    ReplanFails(OTHER_REGISTRY, host);
  }

  lemma OtherRegistryNamesOne()
    ensures GoodReference(OTHER_REGISTRY) && !Replans(OTHER_REGISTRY)
  {
    assert "quay.io/a" == "quay.io" + "/" + "a";
    TwoParts("quay.io");
    assert "quay.io"[4] == '.';
    assert "quay.io/a"[0] == 'q';
  }

  /** A docker.io name with a dash in front: its display is refused. */
  lemma DashedNotReplanned(host: string)
    ensures var plan := PlanPull(FullText(DASHED), host);
            plan.Ok? && PlanPull(plan.value.image, host) != plan
  {
    OnePart("-a");
    ReplanFails(DASHED, host);
  }

  /**
   Every good docker.io name that starts with a registry prefix is accepted and planned, and the daemon's request
   for the plan goes elsewhere: under `ghcr.io/`, to the other registry.
   */
  lemma RoutingGoesAstray(r: Reference, host: string)
    requires GoodReference(r) && r.registry.DockerHub? && LooksPrefixed(PullPath(r))
    ensures PlanPull(FullText(r), host).Ok?
    ensures var reference := RequestedReference(PlanPull(FullText(r), host).value);
            && RouteRequest(ManifestPath(PullPath(r), reference))
               != Routed(DockerHub, ManifestPath(PullPath(r), reference))
            && ("ghcr.io/" <= PullPath(r) ==>
                  RouteRequest(ManifestPath(PullPath(r), reference))
                  == Routed(Ghcr, ManifestPath(PullPath(r)[8..], reference)))
  {
    ReadFullText(r);
    RoutingClosesLoop(FullText(r), host);
    var path, reference := PullPath(r), RequestedReference(PlanPull(FullText(r), host).value);
    if "ghcr.io/" <= path {
      GhcrPathRoute(path[8..], reference);
      assert path == "ghcr.io/" + path[8..];
    }
  }

  lemma GhcrPathRoute(rest: string, reference: string)
    ensures RouteRequest(ManifestPath("ghcr.io/" + rest, reference)) == Routed(Ghcr, ManifestPath(rest, reference))
  {
    RoutePlanned(Ghcr, rest, reference);
  }

  lemma RoutingFailure(host: string)
    ensures PlanPull(FullText(GHCR_LIKE), host).Ok?
    ensures RouteRequest(ManifestPath("ghcr.io/a", "latest")) == Routed(Ghcr, ManifestPath("a", "latest"))
    ensures RequestedReference(PlanPull(FullText(GHCR_LIKE), host).value) == "latest"
  {
    GhcrLikePath();
    RoutingGoesAstray(GHCR_LIKE, host);
    ReadFullText(GHCR_LIKE);
  }

  lemma GhcrLikePath()
    ensures GoodReference(GHCR_LIKE) && PullPath(GHCR_LIKE) == "ghcr.io/a"
    ensures "ghcr.io/" <= "ghcr.io/a" && "ghcr.io/a"[8..] == "a"
  {
    assert "ghcr.io/a" == "ghcr.io" + "/" + "a";
    TwoParts("ghcr.io");
    assert "ghcr.io/a"[7] == '/';
  }
}
