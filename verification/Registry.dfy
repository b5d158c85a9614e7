/** Registry routing, repository recovery and token scopes (src/main.rs). */
module Registry {
  import opened Wrappers
  import opened Strings

  datatype Upstream = DockerHub | Ghcr

  function RoutePrefix(registry: Upstream): string {
    if registry.DockerHub? then "docker.io/" else "ghcr.io/"
  }

  /** `NotRegistry`: the path goes on to the file-host routes, which are not part of this model. */
  datatype Route = Root | Token | Routed(registry: Upstream, path: string) | NotRegistry

  function RouteRequest(path: string): Route {
    if path == "/v2/" || path == "/v2" then Root
    else if path == "/token" then Token
    else
      match StripPrefix(path, "/v2/")
      case None => NotRegistry
      case Some(rest) =>
        if "docker.io/" <= rest then Routed(DockerHub, "/v2/" + rest[|"docker.io/"|..])
        else if "ghcr.io/" <= rest then Routed(Ghcr, "/v2/" + rest[|"ghcr.io/"|..])
        else Routed(DockerHub, path)
  }

  /** Which paths are registry requests, and that a registry prefix is taken off and nothing else. */
  lemma RouteExactly(path: string, registry: Upstream, rest: string)
    ensures RouteRequest(path).Root? <==> path == "/v2" || path == "/v2/"
    ensures RouteRequest(path).Token? <==> path == "/token"
    ensures RouteRequest(path).Routed? <==> "/v2/" < path
    ensures RouteRequest("/v2/" + RoutePrefix(registry) + rest) == Routed(registry, "/v2/" + rest)
    ensures rest != "" && !("docker.io/" <= rest) && !("ghcr.io/" <= rest) ==>
      RouteRequest("/v2/" + rest) == Routed(DockerHub, "/v2/" + rest)
  {
    assert "/v2" < "/v2/" && "/token"[1] == 't';
    var prefixed := RoutePrefix(registry) + rest;
    assert "/v2/" + RoutePrefix(registry) + rest == "/v2/" + prefixed;
    assert ("/v2/" + prefixed)[4..] == prefixed && ("/v2/" + prefixed)[1] == 'v';
    assert ("/v2/" + rest)[4..] == rest && ("/v2/" + rest)[1] == 'v';
    assert prefixed[|RoutePrefix(registry)|..] == rest;
    assert registry.Ghcr? ==> prefixed[0] == 'g';
  }

  // ---------- repository and kind of a registry path ----------

  const MARKERS := ["/manifests/", "/blobs/", "/tags/", "/referrers/"]

  ghost predicate MarkerAt(path: string, i: int) {
    exists m :: 0 <= m < |MARKERS| && At(path, MARKERS[m], i)
  }

  /** The four words between a repository and what is asked of it. */
  lemma MarkersAre(path: string, i: int)
    ensures MarkerAt(path, i) <==>
      At(path, "/manifests/", i) || At(path, "/blobs/", i) || At(path, "/tags/", i) || At(path, "/referrers/", i)
  {
    assert MARKERS[0] == "/manifests/" && MARKERS[1] == "/blobs/";
    assert MARKERS[2] == "/tags/" && MARKERS[3] == "/referrers/";
  }

  function Later(a: Option<nat>, b: Option<nat>): Option<nat> {
    if a.None? || (b.Some? && b.value > a.value) then b else a
  }

  function LastMarker(path: string): (r: Option<nat>)
    ensures r.Some? ==> MarkerAt(path, r.value) && forall j :: j > r.value ==> !MarkerAt(path, j)
    ensures r.None? ==> forall j :: !MarkerAt(path, j)
  {
    Later(Later(Later(RFind(path, MARKERS[0]), RFind(path, MARKERS[1])),
                RFind(path, MARKERS[2])),
          RFind(path, MARKERS[3]))
  }

  function RegistryRepository(path: string): Option<string> {
    match StripPrefix(path, "/v2/")
    case None => None
    case Some(rest) =>
      match LastMarker(rest)
      case None => None
      case Some(index) => if index == 0 then None else Some(rest[..index])
  }

  datatype Kind = Blob(digest: string) | Manifest | Other

  /** Keeps the best marker so far; a later one must be strictly further right. */
  method ClassifyRegistryPath(path: string) returns (kind: Kind)
    ensures kind.Blob? ==> exists i :: IsLast(path, "/blobs/", i) && kind.digest == path[i + |"/blobs/"|..]
    ensures kind.Manifest? ==> exists i :: IsLast(path, "/manifests/", i)
    ensures kind.Other? ==> forall i :: !IsLast(path, "/blobs/", i) && !IsLast(path, "/manifests/", i)
  {
    var best: Option<(nat, nat)> := None;
    for m := 0 to |MARKERS|
      invariant best.None? ==> forall k, j :: 0 <= k < m ==> !At(path, MARKERS[k], j)
      invariant best.Some? ==> best.value.0 < m && At(path, MARKERS[best.value.0], best.value.1)
                               && forall k, j :: 0 <= k < m && j > best.value.1 ==> !At(path, MARKERS[k], j)
    {
      match RFind(path, MARKERS[m]) {
        case None =>
        case Some(index) =>
          if best.None? || index > best.value.1 {
            best := Some((m, index));
          }
      }
    }
    kind := Other;
    if best.Some? {
      var marker, index := MARKERS[best.value.0], best.value.1;
      assert IsLast(path, marker, index);
      LastIsUnique(path, marker, index);
      if marker == "/blobs/" {
        kind := Blob(path[index + |"/blobs/"|..]);
      } else if marker == "/manifests/" {
        kind := Manifest;
      }
    }
  }

  /** `marker` stands at `i`, and no marker stands further right. */
  ghost predicate IsLast(path: string, marker: string, i: int) {
    && (exists m :: 0 <= m < |MARKERS| && MARKERS[m] == marker)
    && At(path, marker, i)
    && forall k, j :: 0 <= k < |MARKERS| && j > i ==> !At(path, MARKERS[k], j)
  }

  lemma LastIsUnique(path: string, marker: string, i: int)
    requires IsLast(path, marker, i)
    ensures forall other, j :: IsLast(path, other, j) ==> j == i && other == marker
  {
    forall other, j | IsLast(path, other, j)
      ensures j == i && other == marker
    {
      assert At(path, other, j) && At(path, marker, i);
      assert j == i;
      assert path[i..i + |other|][1] == path[i + 1] == path[i..i + |marker|][1];
    }
  }

  /** A blob path with a repository is exactly its repository, the marker and the digest. */
  lemma BlobPathParts(path: string, i: int, repository: string)
    requires RegistryRepository(path) == Some(repository) && IsLast(path, "/blobs/", i)
    ensures path == "/v2/" + repository + "/blobs/" + path[i + |"/blobs/"|..]
  {
    var index := LastMarker(path[4..]).value;
    MarkerShift(path, index);
    MarkerShift(path, i - 4);
    MarkersAre(path, i);
    assert i == index + 4;
    CutAt(path, i);
  }

  lemma CutAt(path: string, i: int)
    requires 4 <= i <= |path| - 7 && path[..4] == "/v2/" && path[i..i + 7] == "/blobs/"
    ensures path == "/v2/" + path[4..i] + "/blobs/" + path[i + 7..]
  {
    assert path == path[..4] + path[4..i] + path[i..i + 7] + path[i + 7..];
  }

  lemma MarkerShift(path: string, i: int)
    requires |path| >= 4 && i >= 0
    ensures MarkerAt(path[4..], i) <==> MarkerAt(path, i + 4)
  {
    forall m | 0 <= m < |MARKERS|
      ensures At(path[4..], MARKERS[m], i) <==> At(path, MARKERS[m], i + 4)
    {
      if i + |MARKERS[m]| <= |path| - 4 {
        assert path[4..][i..i + |MARKERS[m]|] == path[i + 4..i + 4 + |MARKERS[m]|];
      }
    }
  }

  // ---------- scopes ----------

  predicate CleanPart(part: string) { part != "" && part != "." && part != ".." }

  predicate CleanParts(repository: string) {
    forall i :: 0 <= i < |Split(repository, '/')| ==> CleanPart(Split(repository, '/')[i])
  }

  predicate PullOnly(actions: string) {
    forall i :: 0 <= i < |Split(actions, ',')| ==> Split(actions, ',')[i] == "pull"
  }

  /** `n` times `pull`, with commas between. */
  function Pulls(n: nat): seq<string> { seq(n, _ => "pull") }

  lemma PullOnlyExactly(actions: string)
    ensures PullOnly(actions) <==> exists n :: n > 0 && actions == Join(Pulls(n), ",")
  {
    var parts := Split(actions, ',');
    SplitJoined(actions, ',');
    if PullOnly(actions) {
      assert parts == Pulls(|parts|);
    }
    forall n | n > 0 && actions == Join(Pulls(n), ",")
      ensures PullOnly(actions)
    {
      JoinedSplits(Pulls(n), ',');
    }
  }

  /** Components, none of them empty or a dot or two. */
  ghost predicate Components(parts: seq<string>) {
    parts != [] && forall k :: 0 <= k < |parts| ==> parts[k] !in {"", ".", ".."} && '/' !in parts[k]
  }

  lemma CleanExactly(repository: string)
    ensures CleanParts(repository) <==> exists parts :: Components(parts) && repository == Join(parts, "/")
  {
    SplitJoined(repository, '/');
    if CleanParts(repository) {
      assert Components(Split(repository, '/'));
    }
    forall parts | Components(parts) && repository == Join(parts, "/")
      ensures CleanParts(repository)
    {
      JoinedSplits(parts, '/');
    }
  }

  /** A repository of a scope without its registry. */
  function Bare(repository: string): string {
    if "docker.io/" <= repository then repository[10..]
    else if "ghcr.io/" <= repository then repository[8..]
    else repository
  }

  /** A scope the gateway forwards: a clean repository without a colon, and `pull` once or several times. */
  ghost predicate Forwards(scope: string, repository: string, actions: string) {
    && scope == "repository:" + (repository + (":" + actions))
    && ':' !in repository
    && CleanParts(repository) && PullOnly(actions)
  }

  lemma ScopeParts(repository: string, actions: string)
    requires ':' !in repository
    ensures RewriteScope("repository:" + (repository + (":" + actions)))
         == RewriteParts("repository:" + (repository + (":" + actions)), repository, actions)
  {
    var rest := repository + (":" + actions);
    assert "repository:" + rest == "repository" + [':'] + rest;
    SplitOnceAt("repository", ':', rest);
    assert rest == repository + [':'] + actions;
    SplitOnceAt(repository, ':', actions);
  }

  lemma ForwardedParts(scope: string, repository: string, actions: string)
    requires Forwards(scope, repository, actions)
    ensures RewriteParts(scope, repository, actions).Some?
    ensures RewriteParts(scope, repository, actions).value.1 == "repository:" + (Bare(repository) + (":" + actions))
  {
    CleanIsTrimmed(repository);
    if "docker.io/" <= repository || "ghcr.io/" <= repository {
      PrefixedHasMore(repository);
    }
  }

  lemma PrefixedHasMore(repository: string)
    requires CleanParts(repository) && ("docker.io/" <= repository || "ghcr.io/" <= repository)
    ensures Bare(repository) != ""
    ensures forall actions :: "repository:" + Bare(repository) + ":" + actions
                            == "repository:" + (Bare(repository) + (":" + actions))
  {
    CleanIsTrimmed(repository);
  }

  /** Any scope, exactly: what is forwarded and as what; everything else is refused. */
  lemma RewriteExactly(scope: string)
    ensures RewriteScope(scope).Some? <==> exists repository, actions :: Forwards(scope, repository, actions)
    ensures forall repository, actions :: Forwards(scope, repository, actions) ==>
      RewriteScope(scope).Some?
      && RewriteScope(scope).value.1 == "repository:" + (Bare(repository) + (":" + actions))
  {
    forall repository, actions | Forwards(scope, repository, actions)
      ensures RewriteScope(scope).Some?
      ensures RewriteScope(scope).value.1 == "repository:" + (Bare(repository) + (":" + actions))
    {
      ScopeParts(repository, actions);
      ForwardedParts(scope, repository, actions);
    }
    if RewriteScope(scope).Some? {
      var repository, actions := RewrittenParts(scope);
    }
  }

  lemma RewrittenParts(scope: string) returns (repository: string, actions: string)
    requires RewriteScope(scope).Some?
    ensures Forwards(scope, repository, actions)
  {
    var rest := SplitOnce(scope, ':').value.1;
    FirstHasNone(rest, ':');
    repository, actions := SplitOnce(rest, ':').value.0, SplitOnce(rest, ':').value.1;
    ScopeText(scope, rest, repository, actions);
  }

  lemma ScopeText(scope: string, rest: string, repository: string, actions: string)
    requires SplitOnce(scope, ':') == Some(("repository", rest)) && SplitOnce(rest, ':') == Some((repository, actions))
    ensures scope == "repository:" + (repository + (":" + actions))
  {
    SplitOnceParts(scope, ':');
    SplitOnceParts(rest, ':');
    assert rest == repository + (":" + actions);
    assert "repository" + [':'] == "repository:";
  }

  /** None is a 400. */
  function RewriteScope(scope: string): Option<(Upstream, string)> {
    match SplitOnce(scope, ':')
    case None => None
    case Some((kind, rest)) =>
      if kind != "repository" then None
      else
        match SplitOnce(rest, ':')
        case None => None
        case Some((repository, actions)) => RewriteParts(scope, repository, actions)
  }

  function RewriteParts(scope: string, repository: string, actions: string): Option<(Upstream, string)> {
    if repository == "" || repository[0] == '/' || repository[|repository| - 1] == '/'
       || !CleanParts(repository) || !PullOnly(actions) then None
    else if "docker.io/" <= repository then
      if repository == "docker.io/" then None
      else Some((DockerHub, "repository:" + repository[|"docker.io/"|..] + ":" + actions))
    else if "ghcr.io/" <= repository then
      if repository == "ghcr.io/" then None
      else Some((Ghcr, "repository:" + repository[|"ghcr.io/"|..] + ":" + actions))
    else Some((DockerHub, scope))
  }

  /** The scope the gateway puts in the 401 challenge for an upstream path. */
  function ChallengeScope(registry: Upstream, path: string): Option<string> {
    match RegistryRepository(path)
    case None => None
    case Some(repository) => Some(PullScope(RoutePrefix(registry) + repository))
  }

  function PullScope(repository: string): string { "repository:" + repository + ":pull" }

  lemma CleanIsTrimmed(repository: string)
    requires CleanParts(repository)
    ensures repository != "" && repository[0] != '/' && repository[|repository| - 1] != '/'
  {
    var parts := Split(repository, '/');
    assert CleanPart(parts[0]) && CleanPart(parts[|parts| - 1]);
    SplitWhole("", '/');
    if repository != "" && repository[|repository| - 1] == '/' {
      SplitTrailing(repository, '/');
    } else if repository != "" && repository[0] == '/' {
      SplitLeading(repository, '/');
    }
  }

  lemma CleanPrefixed(host: string, repository: string)
    requires '/' !in host && CleanPart(host)
    ensures CleanParts(host + "/" + repository) <==> CleanParts(repository)
  {
    SplitPrepend(host, '/', repository);
    var all, parts := Split(host + "/" + repository, '/'), Split(repository, '/');
    assert all == [host] + parts;
    if CleanParts(host + "/" + repository) {
      forall i | 0 <= i < |parts|
        ensures CleanPart(parts[i])
      {
        assert all[i + 1] == parts[i];
      }
    }
  }

  /** A scope with a colon in its repository is refused: the rest is not a list of pulls. */
  lemma ColonIsNotPull(rest: string)
    ensures !PullOnly(rest + ":pull")
    ensures PullOnly("pull")
  {
    var i := SplitCovers(rest + ":pull", ',', ':');
    assert Split(rest + ":pull", ',')[i] != "pull";
    SplitWhole("pull", ',');
  }

  /** What rewriting makes of a pull scope, before looking at prefixes: a 400 unless the repository is clean. */
  lemma ParsePullScope(repository: string)
    ensures SplitOnce(PullScope(repository), ':') == Some(("repository", repository + ":pull"))
    ensures ':' !in repository ==> SplitOnce(repository + ":pull", ':') == Some((repository, "pull"))
    ensures ':' in repository ==>
      SplitOnce(repository, ':').Some?
      && SplitOnce(repository + ":pull", ':')
         == Some((SplitOnce(repository, ':').value.0, SplitOnce(repository, ':').value.1 + ":pull"))
  {
    assert PullScope(repository) == "repository" + [':'] + (repository + ":pull");
    SplitOnceAt("repository", ':', repository + ":pull");
    if ':' !in repository {
      assert repository + ":pull" == repository + [':'] + "pull";
      SplitOnceAt(repository, ':', "pull");
    } else {
      SplitOnceExtend(repository, ':', ":pull");
    }
  }

  lemma PullScopeText(repository: string)
    ensures "repository:" + repository + ":" + "pull" == PullScope(repository)
  {
  }

  /** Rewriting a bare or prefixed pull scope, exactly. */
  lemma RewritePullScope(repository: string)
    ensures RewriteScope(PullScope(repository)) ==
      if ':' in repository || !CleanParts(repository) then None
      else if "docker.io/" <= repository then Some((DockerHub, PullScope(repository[|"docker.io/"|..])))
      else if "ghcr.io/" <= repository then Some((Ghcr, PullScope(repository[|"ghcr.io/"|..])))
      else Some((DockerHub, PullScope(repository)))
  {
    ParsePullScope(repository);
    if ':' in repository {
      ColonIsNotPull(SplitOnce(repository, ':').value.1);
    } else if CleanParts(repository) {
      RewriteCleanParts(repository);
    }
  }

  lemma RewriteCleanParts(repository: string)
    requires CleanParts(repository)
    ensures RewriteParts(PullScope(repository), repository, "pull") ==
      if "docker.io/" <= repository then Some((DockerHub, PullScope(repository[|"docker.io/"|..])))
      else if "ghcr.io/" <= repository then Some((Ghcr, PullScope(repository[|"ghcr.io/"|..])))
      else Some((DockerHub, PullScope(repository)))
  {
    CleanIsTrimmed(repository);
    ColonIsNotPull("");
    if "docker.io/" <= repository {
      PullScopeText(repository[|"docker.io/"|..]);
    } else if "ghcr.io/" <= repository {
      PullScopeText(repository[|"ghcr.io/"|..]);
    }
  }

  lemma PrefixedPullScope(registry: Upstream, repository: string)
    ensures RewriteScope(PullScope(RoutePrefix(registry) + repository)) ==
      if ':' in repository || !CleanParts(repository) then None else Some((registry, PullScope(repository)))
  {
    var host := if registry.DockerHub? then "docker.io" else "ghcr.io";
    var all := RoutePrefix(registry) + repository;
    assert all == host + "/" + repository;
    assert ':' in all <==> ':' in repository by {
      assert ':' !in RoutePrefix(registry);
      assert forall i :: 0 <= i < |repository| ==> all[i + |RoutePrefix(registry)|] == repository[i];
    }
    CleanPrefixed(host, repository);
    RewritePullScope(all);
    assert all[|RoutePrefix(registry)|..] == repository;
    if registry.Ghcr? {
      assert all[0] == 'g';
    }
  }

  /**
   * The token request that answers a challenge comes back for the registry the request was routed to
   * and the repository of its path, exactly when that repository is clean and has no colon.
   */
  lemma ChallengeRoundTrip(path: string, registry: Upstream, upstream: string, repository: string)
    requires RouteRequest(path) == Routed(registry, upstream) && RegistryRepository(upstream) == Some(repository)
    ensures ChallengeScope(registry, upstream).Some?
    ensures RewriteScope(ChallengeScope(registry, upstream).value) == Some((registry, PullScope(repository)))
       <==> ':' !in repository && CleanParts(repository)
    ensures RewriteScope(ChallengeScope(registry, upstream).value) in {None, Some((registry, PullScope(repository)))}
  {
    PrefixedPullScope(registry, repository);
  }

  // ---------- merging ----------

  ghost predicate AllRewrite(scopes: seq<string>) {
    forall k :: 0 <= k < |scopes| ==> RewriteScope(scopes[k]).Some?
  }

  ghost function Rewrites(scopes: seq<string>): seq<string>
    requires AllRewrite(scopes)
  {
    seq(|scopes|, k requires 0 <= k < |scopes| => RewriteScope(scopes[k]).value.1)
  }

  lemma RewrittenNonEmpty(scope: string)
    requires RewriteScope(scope).Some?
    ensures RewriteScope(scope).value.1 != ""
  {
    SplitOnceNone(scope, ':');
  }

  /** Each distinct rewritten scope once, in the order of first occurrences; the registry is the last scope's. */
  method MergedUpstreamScope(scopes: seq<string>) returns (r: Option<(Upstream, string)>)
    ensures r.None? <==> !AllRewrite(scopes)
    ensures r.Some? ==> r.value.1 == Join(Dedup(Rewrites(scopes)), " ")
    ensures r.Some? ==> r.value.0 == MergedRegistry(scopes)
  {
    var registry, merged := DockerHub, [];
    for k := 0 to |scopes|
      invariant AllRewrite(scopes[..k])
      invariant merged == Dedup(Rewrites(scopes[..k]))
      invariant registry == if k == 0 then DockerHub else RewriteScope(scopes[k - 1]).value.0
    {
      match RewriteScope(scopes[k]) {
        case None =>
          return None;
        case Some((scopeRegistry, upstream)) =>
          RewrittenNonEmpty(scopes[k]);
          RewritesPush(scopes, k);
          registry := scopeRegistry;
          if upstream != "" && upstream !in merged {
            merged := merged + [upstream];
          }
      }
    }
    assert scopes[..|scopes|] == scopes;
    r := Some((registry, Join(merged, " ")));
  }

  lemma RewritesPush(scopes: seq<string>, k: nat)
    requires k < |scopes| && AllRewrite(scopes[..k]) && RewriteScope(scopes[k]).Some?
    ensures AllRewrite(scopes[..k + 1])
    ensures Rewrites(scopes[..k + 1]) == Rewrites(scopes[..k]) + [RewriteScope(scopes[k]).value.1]
    ensures Rewrites(scopes[..k + 1])[..k] == Rewrites(scopes[..k])
  {
    var init, all := scopes[..k], scopes[..k + 1];
    assert all == init + [scopes[k]];
    forall j | 0 <= j <= k
      ensures RewriteScope(all[j]).Some?
    {
      assert j < k ==> all[j] == init[j];
    }
    assert |Rewrites(all)| == k + 1 && Rewrites(all)[k] == RewriteScope(scopes[k]).value.1;
    forall j | 0 <= j < k
      ensures Rewrites(all)[j] == Rewrites(init)[j]
    {
      assert all[j] == init[j];
    }
  }

  /** The registry a merged request goes to. */
  ghost function MergedRegistry(scopes: seq<string>): Upstream
    requires AllRewrite(scopes)
  {
    if scopes == [] then DockerHub else RewriteScope(scopes[|scopes| - 1]).value.0
  }

  const GHCR_SCOPE := "repository:ghcr.io/"

  /** An accepted scope is for ghcr.io exactly when its text says so. */
  lemma GhcrScopeText(scope: string)
    requires RewriteScope(scope).Some?
    ensures RewriteScope(scope).value.0.Ghcr? <==> GHCR_SCOPE <= scope
  {
    SplitOnceParts(scope, ':');
    var rest := SplitOnce(scope, ':').value.1;
    SplitOnceParts(rest, ':');
    FirstHasNone(rest, ':');
    var (repository, actions) := SplitOnce(rest, ':').value;
    GhcrParts(scope, repository, actions);
    assert scope == "repository:" + (repository + [':'] + actions);
    GhcrText(repository, actions);
  }

  lemma GhcrParts(scope: string, repository: string, actions: string)
    requires RewriteParts(scope, repository, actions).Some?
    ensures RewriteParts(scope, repository, actions).value.0.Ghcr? <==> "ghcr.io/" <= repository
  {
    if "docker.io/" <= repository {
      assert repository[0] == 'd';
    }
  }

  lemma GhcrText(repository: string, actions: string)
    requires ':' !in repository
    ensures GHCR_SCOPE <= "repository:" + (repository + [':'] + actions) <==> "ghcr.io/" <= repository
  {
    GhcrBeforeColon(repository, actions);
    PrefixAfter("repository:", "ghcr.io/", repository + [':'] + actions);
    assert "repository:" + "ghcr.io/" == GHCR_SCOPE;
  }

  lemma PrefixAfter(front: string, prefix: string, rest: string)
    ensures front + prefix <= front + rest <==> prefix <= rest
  {
    if front + prefix <= front + rest {
      assert prefix == (front + prefix)[|front|..] && rest == (front + rest)[|front|..];
    }
  }

  lemma GhcrBeforeColon(repository: string, actions: string)
    requires ':' !in repository
    ensures "ghcr.io/" <= repository + [':'] + actions <==> "ghcr.io/" <= repository
  {
    var s := repository + [':'] + actions;
    assert s[|repository|] == ':';
    assert forall i :: 0 <= i < 8 ==> "ghcr.io/"[i] != ':';
  }

  /**
   The one request made for several scopes goes to the right registry for each of them exactly when all of
   the texts, or none, start with `repository:ghcr.io/`.
   */
  lemma MergedRegistryExactly(scopes: seq<string>)
    requires AllRewrite(scopes)
    ensures (forall i :: 0 <= i < |scopes| ==> RewriteScope(scopes[i]).value.0 == MergedRegistry(scopes))
       <==> (forall i :: 0 <= i < |scopes| ==> GHCR_SCOPE <= scopes[i])
            || (forall i :: 0 <= i < |scopes| ==> !(GHCR_SCOPE <= scopes[i]))
  {
    forall i | 0 <= i < |scopes|
      ensures RewriteScope(scopes[i]).value.0.Ghcr? <==> GHCR_SCOPE <= scopes[i]
    {
      GhcrScopeText(scopes[i]);
    }
    if scopes != [] {
      var last := scopes[|scopes| - 1];
      assert MergedRegistry(scopes).Ghcr? <==> GHCR_SCOPE <= last;
    }
  }

  /** A ghcr.io scope followed by a bare one: both are asked of docker.io. */
  lemma MixedScopesMisroute()
    ensures var scopes := [PullScope("ghcr.io/a"), PullScope("b")];
            && AllRewrite(scopes)
            && MergedRegistry(scopes) == DockerHub
            && RewriteScope(scopes[0]) == Some((Ghcr, PullScope("a")))
            && RewriteScope(scopes[1]) == Some((DockerHub, PullScope("b")))
  {
    SplitWhole("a", '/');
    SplitWhole("b", '/');
    assert "ghcr.io/a" == "ghcr.io/" + "a";
    PrefixedPullScope(Ghcr, "a");
    RewritePullScope("b");
  }

  /**
   * Registry-mirror mode: the prefixed and the bare scope of one docker.io repository are the same
   * upstream scope, exactly when the repository does not itself start with a registry prefix.
   */
  lemma PrefixedAndBareCollapse(repository: string)
    requires ':' !in repository && CleanParts(repository)
    ensures var scopes := [PullScope("docker.io/" + repository), PullScope(repository)];
            && AllRewrite(scopes)
            && (Dedup(Rewrites(scopes)) == [PullScope(repository)]
                <==> !("docker.io/" <= repository) && !("ghcr.io/" <= repository))
            && RewriteScope(scopes[0]).value.0 == DockerHub
  {
    PrefixedPullScope(DockerHub, repository);
    BareKeepsUnlessPrefixed(repository);
    var prefixed, bare := PullScope("docker.io/" + repository), PullScope(repository);
    RewritesPair(prefixed, bare);
    DedupPair(RewriteScope(prefixed).value.1, RewriteScope(bare).value.1);
  }

  lemma BareKeepsUnlessPrefixed(repository: string)
    requires ':' !in repository && CleanParts(repository)
    ensures RewriteScope(PullScope(repository)).Some?
    ensures RewriteScope(PullScope(repository)).value.1 == PullScope(repository)
       <==> !("docker.io/" <= repository) && !("ghcr.io/" <= repository)
  {
    RewritePullScope(repository);
    var y := RewriteScope(PullScope(repository)).value.1;
    if "docker.io/" <= repository || "ghcr.io/" <= repository {
      assert |y| < |PullScope(repository)|;
    }
  }

  lemma RewritesPair(a: string, b: string)
    requires RewriteScope(a).Some? && RewriteScope(b).Some?
    ensures AllRewrite([a, b]) && Rewrites([a, b]) == [RewriteScope(a).value.1, RewriteScope(b).value.1]
  {
  }

  lemma DedupPair(a: string, b: string)
    ensures Dedup([a, b]) == if a == b then [a] else [a, b]
  {
    assert [a][..0] == [] && Dedup([a]) == [a];
    assert [a, b][..1] == [a];
  }

  // ---------- cache keys ----------

  /** The cache key of a digest: 64 hexadecimal digits in lower case. */
  function Sha256Hex(digest: string): (r: Option<string>)
  {
    match StripPrefix(digest, "sha256:")
    case None => None
    case Some(hex) =>
      if |hex| == 64 && forall i :: 0 <= i < |hex| ==> IsHexDigit(hex[i]) then Some(Lower(hex)) else None
  }

  /** A digest has a key exactly when it is `sha256:` and 64 hexadecimal digits; the key is 64 lower-case ones. */
  lemma KeyExactly(digest: string)
    ensures Sha256Hex(digest).Some? <==>
      |digest| == 71 && digest[..7] == "sha256:" && forall i :: 7 <= i < 71 ==> digest[i] in "0123456789abcdefABCDEF"
    ensures Sha256Hex(digest).Some? ==>
      var key := Sha256Hex(digest).value;
      |key| == 64 && forall i :: 0 <= i < 64 ==> key[i] == LowerChar(digest[7 + i]) && key[i] in "0123456789abcdef"
  {
    if |digest| == 71 && digest[..7] == "sha256:" {
      HexDigitsAt(digest[7..]);
      assert forall i :: 7 <= i < 71 ==> digest[i] == digest[7..][i - 7];
      assert forall i :: 0 <= i < 64 ==> digest[7..][i] == digest[7 + i];
    }
  }

  lemma HexDigitsAt(hex: string)
    ensures forall i :: 0 <= i < |hex| ==>
      && (IsHexDigit(hex[i]) <==> hex[i] in "0123456789abcdefABCDEF")
      && (IsHexDigit(hex[i]) ==> LowerChar(hex[i]) in "0123456789abcdef")
  {
    forall i | 0 <= i < |hex|
      ensures IsHexDigit(hex[i]) <==> hex[i] in "0123456789abcdefABCDEF"
      ensures IsHexDigit(hex[i]) ==> LowerChar(hex[i]) in "0123456789abcdef"
    {
      HexDigitExactly(hex[i]);
    }
  }

  /** Digests share a key exactly when they are the same up to letter case after the algorithm name. */
  lemma KeyIdentifiesDigest(a: string, b: string)
    requires Sha256Hex(a).Some? && Sha256Hex(b).Some?
    ensures Sha256Hex(a) == Sha256Hex(b) <==> Lower(a) == Lower(b)
    ensures Sha256Hex("sha256:" + Sha256Hex(a).value) == Sha256Hex(a)
  {
    LowerDigest(a);
    LowerDigest(b);
    KeyOfKey(a);
    PrefixAfter("sha256:", Sha256Hex(a).value, Sha256Hex(b).value);
  }

  lemma LowerDigest(digest: string)
    requires Sha256Hex(digest).Some?
    ensures Lower(digest) == "sha256:" + Sha256Hex(digest).value && |Sha256Hex(digest).value| == 64
  {
    assert Lower("sha256:") == "sha256:";
    assert digest == "sha256:" + digest[7..];
    LowerConcat("sha256:", digest[7..]);
  }

  lemma LowerConcat(a: string, b: string)
    ensures Lower(a + b) == Lower(a) + Lower(b)
  {
  }

  lemma KeyOfKey(digest: string)
    requires Sha256Hex(digest).Some?
    ensures Sha256Hex("sha256:" + Sha256Hex(digest).value) == Sha256Hex(digest)
  {
    var key := Sha256Hex(digest).value;
    StripPrefixOf("sha256:", key);
    assert Lower(key) == key;
  }
}
