/** Source scores, the weighted pick and the adaptive chunk plan (src/sources.rs), over exact reals. */
module Sources {
  import opened Wrappers

  /** Counters are u64; `lastSeen` is a reading of the monotone clock. */
  datatype SourceStats = SourceStats(
    success: nat, failure: nat, p50Ms: nat, rangeOk: bool, lastSeen: Option<int>, throughputBps: nat)

  ghost predicate FitsU64(s: SourceStats) {
    s.success < U64_LIMIT && s.failure < U64_LIMIT && s.throughputBps < U64_LIMIT
  }

  function SaturatingInc(n: nat): nat { Min(n + 1, U64_LIMIT - 1) }

  // ---------- score ----------

  /** Share of successes; the u64 sum wraps. */
  function Rate(success: nat, failure: nat): real {
    var total := (success + failure) % U64_LIMIT;
    if total == 0 then 0.0 else success as real / total as real
  }

  function Score(s: SourceStats): real {
    var score := Rate(s.success, s.failure) / (1.0 + s.p50Ms as real / 1000.0);
    if s.rangeOk then score * 1.1 else score
  }

  function Failed(s: SourceStats, now: int): SourceStats {
    s.(failure := SaturatingInc(s.failure), lastSeen := Some(now))
  }

  function Succeeded(s: SourceStats, now: int): SourceStats {
    s.(success := SaturatingInc(s.success), rangeOk := true, lastSeen := Some(now))
  }

  lemma QuotientOrder(a: real, b: real, d: real)
    requires d > 0.0
    ensures a < b <==> a / d < b / d
    ensures a == b <==> a / d == b / d
  {
    assert a == a / d * d && b == b / d * d;
  }

  /** For one latency and range flag, scores are ordered as the rates are. */
  lemma ScoreFollowsRate(s: SourceStats, t: SourceStats)
    requires s.p50Ms == t.p50Ms && s.rangeOk == t.rangeOk
    ensures Rate(s.success, s.failure) < Rate(t.success, t.failure) <==> Score(s) < Score(t)
    ensures Rate(s.success, s.failure) == Rate(t.success, t.failure) <==> Score(s) == Score(t)
  {
    QuotientOrder(Rate(s.success, s.failure), Rate(t.success, t.failure), 1.0 + s.p50Ms as real / 1000.0);
  }

  lemma RateZero(success: nat, failure: nat)
    requires success < U64_LIMIT && failure < U64_LIMIT
    ensures Rate(success, failure) >= 0.0
    ensures Rate(success, failure) == 0.0 <==> success == 0 || success + failure == U64_LIMIT
  {
    var total := (success + failure) % U64_LIMIT;
    if total != 0 {
      QuotientOrder(0.0, success as real, total as real);
    }
  }

  /** A score is zero exactly when there is no success, or the u64 sum of the counters wraps to zero. */
  lemma ScoreZeroExactly(s: SourceStats)
    requires FitsU64(s)
    ensures Score(s) >= 0.0
    ensures Score(s) == 0.0 <==> s.success == 0 || s.success + s.failure == U64_LIMIT
  {
    RateZero(s.success, s.failure);
    ScoreFollowsRate(s.(success := 0, failure := 0), s);
  }

  /** A share is at most one exactly while the counters' sum is at most 2^64. */
  lemma RateBoundExactly(success: nat, failure: nat)
    requires success < U64_LIMIT && failure < U64_LIMIT
    ensures Rate(success, failure) <= 1.0 <==> success + failure <= U64_LIMIT
  {
    var total := (success + failure) % U64_LIMIT;
    if total != 0 {
      QuotientAtMostOne(success as real, total as real);
    }
  }

  lemma QuotientAtMostOne(a: real, d: real)
    requires d > 0.0
    ensures a / d <= 1.0 <==> a <= d
  {
    QuotientOrder(d, a, d);
    assert d / d == 1.0;
  }

  /** A score is at most 1.1 as long as that sum does not wrap past zero, and for the fastest sources only then. */
  lemma ScoreBoundExactly(s: SourceStats)
    requires FitsU64(s)
    ensures s.success + s.failure <= U64_LIMIT ==> Score(s) <= 1.1
    ensures s.p50Ms == 0 && s.rangeOk ==> (Score(s) <= 1.1 <==> s.success + s.failure <= U64_LIMIT)
  {
    RateBoundExactly(s.success, s.failure);
    var rate, slow := Rate(s.success, s.failure), 1.0 + s.p50Ms as real / 1000.0;
    QuotientAtMostOne(rate, slow);
    if s.p50Ms == 0 {
      assert rate / 1.0 == rate;
    }
  }

  /** A score is the share of successes, a known range flag is worth a tenth more, and latency divides it. */
  lemma ScoreExactly(s: SourceStats)
    requires 0 < s.success + s.failure < U64_LIMIT
    ensures Score(s.(p50Ms := 0, rangeOk := false)) * (s.success + s.failure) as real == s.success as real
    ensures Score(s.(rangeOk := true)) == Score(s.(rangeOk := false)) * 1.1
    ensures Score(s) * (1000 + s.p50Ms) as real == Score(s.(p50Ms := 0)) * 1000.0
  {
    RateIs(s.success, s.failure);
    QuotientTimes(s.success as real, (s.success + s.failure) as real);
    LatencyDivides(s);
    var rate := Rate(s.success, s.failure);
    assert rate / 1.0 == rate;
  }

  lemma QuotientTimes(a: real, d: real)
    requires d > 0.0
    ensures a / d * d == a
  {
  }

  /** Every second of latency divides the score of zero latency once more: one second halves it. */
  lemma LatencyDivides(s: SourceStats)
    ensures Score(s) * (1000 + s.p50Ms) as real == Score(s.(p50Ms := 0)) * 1000.0
    ensures s.p50Ms == 1000 ==> Score(s) * 2.0 == Score(s.(p50Ms := 0))
  {
    var rate, slow, ms := Rate(s.success, s.failure), 1.0 + s.p50Ms as real / 1000.0, (1000 + s.p50Ms) as real;
    assert slow * 1000.0 == ms;
    QuotientTimes(rate, slow);
    var quotient := rate / slow;
    assert quotient * ms == (quotient * slow) * 1000.0;
    assert rate / 1.0 == rate;
    assert (quotient * 1.1) * ms == (quotient * ms) * 1.1;
  }

  /** Of two sources with the same counters and range flag the faster one scores higher, exactly then. */
  lemma LatencyOrdersExactly(s: SourceStats, t: SourceStats)
    requires s.success == t.success && s.failure == t.failure && s.rangeOk == t.rangeOk && Score(s) > 0.0
    ensures Score(s) < Score(t) <==> t.p50Ms < s.p50Ms
    ensures Score(s) == Score(t) <==> t.p50Ms == s.p50Ms
  {
    var rate := Rate(s.success, s.failure);
    var p, q := 1.0 + s.p50Ms as real / 1000.0, 1.0 + t.p50Ms as real / 1000.0;
    assert rate > 0.0 by {
      if rate <= 0.0 {
        QuotientOrder(0.0, rate, p);
      }
    }
    QuotientCompare(rate, p, rate, q);
    ScaleOrder(q, p, rate);
    ScaleOrder(rate / p, rate / q, 1.1);
  }

  lemma RateOrder(a: nat, b: nat, c: nat, d: nat)
    requires a + b > 0 && c + d > 0 && a + b < U64_LIMIT && c + d < U64_LIMIT
    ensures Rate(a, b) < Rate(c, d) <==> a * d < c * b
    ensures Rate(a, b) == Rate(c, d) <==> a * d == c * b
  {
    RateIs(a, b);
    RateIs(c, d);
    ShareOrder(a, b, c, d);
  }

  lemma ShareOrder(a: nat, b: nat, c: nat, d: nat)
    requires a + b > 0 && c + d > 0
    ensures a as real / (a + b) as real < c as real / (c + d) as real <==> a * d < c * b
    ensures a as real / (a + b) as real == c as real / (c + d) as real <==> a * d == c * b
  {
    QuotientCompare(a as real, (a + b) as real, c as real, (c + d) as real);
    CrossMultiply(a, b, c, d);
  }

  lemma RateIs(a: nat, b: nat)
    requires 0 < a + b < U64_LIMIT
    ensures Rate(a, b) == a as real / (a + b) as real
  {
  }

  lemma CrossMultiply(a: nat, b: nat, c: nat, d: nat)
    ensures a as real * (c + d) as real < c as real * (a + b) as real <==> a * d < c * b
    ensures a as real * (c + d) as real == c as real * (a + b) as real <==> a * d == c * b
  {
    assert a as real * (c + d) as real == (a * c + a * d) as real;
    assert c as real * (a + b) as real == (a * c + c * b) as real;
  }

  lemma QuotientCompare(a: real, p: real, c: real, q: real)
    requires p > 0.0 && q > 0.0
    ensures a / p < c / q <==> a * q < c * p
    ensures a / p == c / q <==> a * q == c * p
  {
    var x, y := a / p, c / q;
    assert a == x * p && c == y * q;
    Regroup(x, p, q);
    Regroup(y, q, p);
    ScaleOrder(x, y, p * q);
  }

  lemma Regroup(x: real, p: real, q: real)
    requires p > 0.0 && q > 0.0
    ensures (x * p) * q == x * (p * q) == x * (q * p) && p * q > 0.0
  {
  }

  lemma ScaleOrder(x: real, y: real, m: real)
    requires m > 0.0
    ensures x < y <==> x * m < y * m
    ensures x == y <==> x * m == y * m
  {
  }

  /** Past the wrap the share is over the rest of the sum. */
  lemma RateWrapped(a: nat, b: nat)
    requires a < U64_LIMIT && b < U64_LIMIT && a + b > U64_LIMIT
    ensures Rate(a, b) == a as real / (a + b - U64_LIMIT) as real
  {
    var total := (a + b) % U64_LIMIT;
    assert total == a + b - U64_LIMIT;
  }

  lemma WrappedAfterFailure(success: nat, failure: nat)
    requires success < U64_LIMIT && failure + 1 < U64_LIMIT && success + failure > U64_LIMIT
    ensures Rate(success, failure + 1) < Rate(success, failure)
  {
    RateWrapped(success, failure);
    RateWrapped(success, failure + 1);
    var a, t := success as real, (success + failure - U64_LIMIT) as real;
    QuotientCompare(a, t + 1.0, a, t);
    assert a * t < a * (t + 1.0);
  }

  lemma WrappedAfterSuccess(success: nat, failure: nat)
    requires success + 1 < U64_LIMIT && failure < U64_LIMIT && success + failure > U64_LIMIT
    ensures Rate(success + 1, failure) < Rate(success, failure)
  {
    RateWrapped(success, failure);
    RateWrapped(success + 1, failure);
    var a, t := success as real, (success + failure - U64_LIMIT) as real;
    QuotientCompare(a + 1.0, t + 1.0, a, t);
    assert (a + 1.0) * t < a * (t + 1.0);
  }

  /** One failure more: the share falls, except at a sum of exactly 2^64, where it rises from zero. */
  lemma RateAfterFailure(success: nat, failure: nat)
    requires 0 < success < U64_LIMIT && failure + 1 < U64_LIMIT
    ensures Rate(success, failure + 1) < Rate(success, failure) <==> success + failure != U64_LIMIT
    ensures Rate(success, failure + 1) > Rate(success, failure) <==> success + failure == U64_LIMIT
  {
    var n := success + failure;
    RateZero(success, failure);
    RateZero(success, failure + 1);
    if n + 1 < U64_LIMIT {
      assert success * (failure + 1) == success * failure + success;
      RateOrder(success, failure + 1, success, failure);
    } else if n > U64_LIMIT {
      WrappedAfterFailure(success, failure);
    }
  }

  /**
   A failure lowers the score of a source with a success at once, exactly unless its failure counter is saturated or
   the u64 sum of its counters stands at zero.
   */
  lemma FailureLowersExactly(s: SourceStats, now: int)
    requires FitsU64(s)
    ensures Score(Failed(s, now)) < Score(s)
       <==> s.success > 0 && s.failure + 1 < U64_LIMIT && s.success + s.failure != U64_LIMIT
  {
    if s.success == 0 {
      ScoreZeroExactly(s);
      ScoreZeroExactly(Failed(s, now));
    } else if s.failure + 1 < U64_LIMIT {
      RateAfterFailure(s.success, s.failure);
      ScoreFollowsRate(s.(failure := s.failure + 1), s);
      assert Score(Failed(s, now)) == Score(s.(failure := s.failure + 1));
    }
  }

  /** Whether one success more does not lower the share: it is saturated, not wrapping, or at a zero. */
  predicate SuccessHelps(success: nat, failure: nat) {
    || success + 1 == U64_LIMIT || success + failure + 1 < U64_LIMIT
    || success + failure == U64_LIMIT || success == 0
  }

  lemma RateAfterSuccess(success: nat, failure: nat)
    requires success + 1 < U64_LIMIT && failure < U64_LIMIT
    ensures Rate(success + 1, failure) >= Rate(success, failure) <==> SuccessHelps(success, failure)
  {
    var n := success + failure;
    RateZero(success, failure);
    RateZero(success + 1, failure);
    if 0 < n && n + 1 < U64_LIMIT {
      assert success * failure <= (success + 1) * failure;
      RateOrder(success, failure, success + 1, failure);
    } else if n > U64_LIMIT {
      WrappedAfterSuccess(success, failure);
    }
  }

  /** A success does not lower the score where it helps the share, and if ranges were known to work, only there. */
  lemma SuccessRaisesExactly(s: SourceStats, now: int)
    requires FitsU64(s)
    ensures SuccessHelps(s.success, s.failure) ==> Score(Succeeded(s, now)) >= Score(s)
    ensures s.rangeOk ==> (Score(Succeeded(s, now)) >= Score(s) <==> SuccessHelps(s.success, s.failure))
  {
    var plain := s.(success := SaturatingInc(s.success));
    if s.success + 1 < U64_LIMIT {
      RateAfterSuccess(s.success, s.failure);
    }
    ScoreFollowsRate(plain, s);
    ScoreZeroExactly(plain);
    RangeFlagHelps(plain, now);
  }

  lemma RangeFlagHelps(plain: SourceStats, now: int)
    requires Score(plain) >= 0.0
    ensures var known := plain.(rangeOk := true, lastSeen := Some(now));
            Score(known) >= Score(plain) && (plain.rangeOk ==> Score(known) == Score(plain))
  {
  }

  // ---------- weights ----------

  function Scores(stats: seq<SourceStats>): seq<real> {
    seq(|stats|, i requires 0 <= i < |stats| => Score(stats[i]))
  }

  function Prefix(weights: seq<real>, k: nat): real
    requires k <= |weights|
  {
    if k == 0 then 0.0 else Prefix(weights, k - 1) + weights[k - 1]
  }

  function Total(weights: seq<real>): real { Prefix(weights, |weights|) }

  ghost predicate NonNegative(weights: seq<real>) {
    forall i :: 0 <= i < |weights| ==> weights[i] >= 0.0
  }

  /** Index `i` owns the draws in the half-open interval of its weight. */
  ghost predicate Owns(weights: seq<real>, i: nat, target: real) {
    i < |weights| && Prefix(weights, i) < target <= Prefix(weights, i + 1)
  }

  lemma {:induction false} PrefixGrows(weights: seq<real>, a: nat, b: nat)
    requires NonNegative(weights) && a <= b <= |weights|
    ensures Prefix(weights, a) <= Prefix(weights, b)
  {
    if a < b {
      PrefixGrows(weights, a, b - 1);
    }
  }

  /** At most one index owns a draw. */
  lemma OwnerUnique(weights: seq<real>, i: nat, j: nat, target: real)
    requires NonNegative(weights) && Owns(weights, i, target) && Owns(weights, j, target)
    ensures i == j
  {
    if i < j {
      PrefixGrows(weights, i + 1, j);
    } else if j < i {
      PrefixGrows(weights, j + 1, i);
    }
  }

  /** A draw in (0,1] of a positive total is a target some index owns. */
  lemma DrawInRange(unit: real, total: real)
    requires 0.0 <= unit <= 1.0 && total > 0.0
    ensures 0.0 <= unit * total <= total
    ensures unit * total == 0.0 <==> unit == 0.0
  {
    if unit > 0.0 {
      assert unit * total > 0.0;
      assert (1.0 - unit) * total >= 0.0;
    }
  }

  /** What the weighted draw answers: the owner, except that a draw of exactly zero always answers 0. */
  ghost predicate Picks(weights: seq<real>, unit: real, i: nat) {
    if unit == 0.0 then i == 0 else Owns(weights, i, unit * Total(weights))
  }

  lemma PickedAt(weights: seq<real>, unit: real, target: real, i: nat)
    requires NonNegative(weights) && i < |weights|
    requires target == unit * Total(weights) && (target == 0.0 <==> unit == 0.0) && target >= 0.0
    requires i > 0 ==> Prefix(weights, i) < target
    requires target <= Prefix(weights, i + 1)
    ensures Picks(weights, unit, i)
  {
    PrefixGrows(weights, 0, i);
  }

  /**
   * With weights from the scores, a weighted pick has a recorded success unless the draw is
   * exactly zero and source 0 has weight zero.
   */
  lemma PickedHasSuccess(stats: seq<SourceStats>, unit: real, i: nat)
    requires forall k :: 0 <= k < |stats| ==> FitsU64(stats[k])
    requires 0.0 <= unit <= 1.0 && Total(Scores(stats)) > 0.0 && Picks(Scores(stats), unit, i)
    ensures i < |stats|
    ensures Scores(stats)[i] == 0.0 <==> unit == 0.0 && Scores(stats)[0] == 0.0
    ensures stats[i].success == 0 ==> unit == 0.0 && i == 0
  {
    if unit != 0.0 {
      assert Prefix(Scores(stats), i + 1) == Prefix(Scores(stats), i) + Scores(stats)[i];
    }
    ScoreZeroExactly(stats[i]);
  }

  /** The exception is real: two sources, the first never succeeded, and a draw of zero. */
  lemma ZeroDrawPicksFailed(now: int)
    ensures var bad := SourceStats(0, 1, 0, false, Some(now), 0);
            var good := SourceStats(1, 0, 0, true, Some(now), 0);
            && Picks(Scores([bad, good]), 0.0, 0)
            && Scores([bad, good])[0] == 0.0
            && Total(Scores([bad, good])) > 0.0
  {
    var bad := SourceStats(0, 1, 0, false, Some(now), 0);
    var good := SourceStats(1, 0, 0, true, Some(now), 0);
    ScoreZeroExactly(bad);
    ScoreZeroExactly(good);
    var w := Scores([bad, good]);
    assert Prefix(w, 2) == Prefix(w, 1) + w[1] && Prefix(w, 1) == Prefix(w, 0) + w[0];
  }

  // ---------- fallback ----------

  predicate Usable(s: SourceStats) { s.lastSeen.None? || s.rangeOk }

  function EligibleUpTo(stats: seq<SourceStats>, n: nat): (eligible: seq<nat>)
    requires n <= |stats|
  {
    if n == 0 then []
    else EligibleUpTo(stats, n - 1) + if Usable(stats[n - 1]) then [n - 1] else []
  }

  lemma {:induction false} EligibleExactly(stats: seq<SourceStats>, n: nat)
    requires n <= |stats|
    ensures forall i: nat :: i in EligibleUpTo(stats, n) <==> i < n && Usable(stats[i])
    ensures forall a, b :: 0 <= a < b < |EligibleUpTo(stats, n)| ==>
      EligibleUpTo(stats, n)[a] < EligibleUpTo(stats, n)[b]
  {
    if n > 0 {
      EligibleExactly(stats, n - 1);
      var before := EligibleUpTo(stats, n - 1);
      assert forall a :: 0 <= a < |before| ==> before[a] in before;
    }
  }

  /** The usable sources, or all of them when none is. */
  function Candidates(stats: seq<SourceStats>): (candidates: seq<nat>)
  {
    var eligible := EligibleUpTo(stats, |stats|);
    if eligible == [] then seq(|stats|, i => i) else eligible
  }

  lemma CandidatesUsable(stats: seq<SourceStats>, i: nat)
    ensures i in Candidates(stats) <==>
      i < |stats| && (Usable(stats[i]) || forall k :: 0 <= k < |stats| ==> !Usable(stats[k]))
    ensures stats != [] ==> Candidates(stats) != []
  {
    EligibleExactly(stats, |stats|);
    var eligible := EligibleUpTo(stats, |stats|);
    if eligible == [] {
      assert forall k :: 0 <= k < |stats| && Usable(stats[k]) ==> k in eligible;
      assert i < |stats| ==> Candidates(stats)[i] == i;
    } else {
      assert eligible[0] in eligible && Usable(stats[eligible[0]]);
    }
  }

  lemma ResidueHit(start: nat, n: nat, k: nat)
    requires k < n
    ensures var d := (k - start) % n; 0 <= d < n && (start + d) % n == k
  {
    var d := (k - start) % n;
    var q := (k - start) / n;
    assert start + d == k + n * (-q);
    ModShift(k, n, -q);
  }

  lemma TimesOrder(n: nat, a: int, b: int)
    requires a <= b
    ensures n * a <= n * b
  {
  }

  lemma ModShift(k: nat, n: nat, q: int)
    requires k < n && k + n * q >= 0
    ensures (k + n * q) % n == k
  {
    var v := k + n * q;
    var z := v / n - q;
    assert n * z == k - v % n by {
      assert v == n * (v / n) + v % n;
    }
    if z >= 1 {
      TimesOrder(n, 1, z);
    } else if z <= -1 {
      TimesOrder(n, z, -1);
    }
  }

  /** Round robin: any run of as many fallback picks as there are candidates reaches every candidate. */
  lemma FallbackReachesAll(stats: seq<SourceStats>, start: nat, i: nat)
    requires i in Candidates(stats)
    ensures exists n :: start <= n < start + |Candidates(stats)| && FallbackPick(stats, n) == i
  {
    var candidates := Candidates(stats);
    var k :| 0 <= k < |candidates| && candidates[k] == i;
    var d := (k - start) % |candidates|;
    ResidueHit(start, |candidates|, k);
    assert FallbackPick(stats, start + d) == i;
  }

  function FallbackPick(stats: seq<SourceStats>, counter: nat): nat {
    var candidates := Candidates(stats);
    if candidates == [] then 0 else candidates[counter % |candidates|]
  }

  // ---------- reports about one source ----------

  datatype Report = ChunkFailed | ChunkArrived | ProbeEnded(outcome: ProbeOutcome)

  function Reported(s: SourceStats, r: Report, now: int): SourceStats {
    match r
    case ChunkFailed => Failed(s, now)
    case ChunkArrived => Succeeded(s, now)
    case ProbeEnded(o) => ProbedBy(s, o, now)
  }

  function ReportedAll(s: SourceStats, reports: seq<Report>, now: int): SourceStats {
    if reports == [] then s else Reported(ReportedAll(s, reports[..|reports| - 1], now), reports[|reports| - 1], now)
  }

  /** A chunk that arrived, or a probe that was answered. */
  predicate IsGood(r: Report) {
    r.ChunkArrived? || (r.ProbeEnded? && r.outcome.reachable)
  }

  /** What shows that the source honours ranges. */
  predicate ShowsRanges(r: Report) {
    r.ChunkArrived? || (r.ProbeEnded? && r.outcome.reachable && r.outcome.ranges)
  }

  function GoodReports(reports: seq<Report>): nat {
    if reports == [] then 0
    else GoodReports(reports[..|reports| - 1]) + if IsGood(reports[|reports| - 1]) then 1 else 0
  }

  lemma {:induction false} GoodAtMostAll(reports: seq<Report>)
    ensures GoodReports(reports) <= |reports|
    ensures GoodReports(reports) == |reports| <==> forall i :: 0 <= i < |reports| ==> IsGood(reports[i])
  {
    if reports != [] {
      GoodAtMostAll(reports[..|reports| - 1]);
    }
  }

  function NewSource(): SourceStats { SourceStats(0, 0, 0, false, None, 0) }

  /** After any reports about a new source its counters say how many were good and how many were not. */
  lemma {:induction false} ReportsCounted(reports: seq<Report>, now: int)
    requires |reports| < U64_LIMIT
    ensures var s := ReportedAll(NewSource(), reports, now);
            && s.success == GoodReports(reports)
            && s.success + s.failure == |reports|
            && s.lastSeen == (if reports == [] then None else Some(now))
            && s.throughputBps == 0
  {
    if reports != [] {
      ReportsCounted(reports[..|reports| - 1], now);
    }
  }

  /**
   The fallback uses a new source exactly as long as nothing has been reported, and from the first report on that shows
   that it honours ranges; failures later do not take that back.
   */
  lemma {:induction false} UsableExactly(reports: seq<Report>, now: int)
    ensures var s := ReportedAll(NewSource(), reports, now);
            && (s.rangeOk <==> exists i :: 0 <= i < |reports| && ShowsRanges(reports[i]))
            && (Usable(s) <==> reports == [] || exists i :: 0 <= i < |reports| && ShowsRanges(reports[i]))
  {
    if reports != [] {
      var n := |reports| - 1;
      var init := reports[..n];
      UsableExactly(init, now);
      assert forall i :: 0 <= i < n ==> init[i] == reports[i];
      assert (exists i :: 0 <= i < |reports| && ShowsRanges(reports[i])) <==>
        ShowsRanges(reports[n]) || exists i :: 0 <= i < n && ShowsRanges(init[i]);
    }
  }

  /** Probes answered in `ms` each bring the latency to at most 7 ms below that; other reports leave it alone. */
  lemma {:induction false} LatencySettles(s: SourceStats, reports: seq<Report>, ms: nat, now: int)
    requires forall r :: r in reports && r.ProbeEnded? && r.outcome.reachable ==> r.outcome.elapsedMs == ms
    ensures var after := ReportedAll(s, reports, now).p50Ms;
            && Min(s.p50Ms, ms) <= after <= Max(s.p50Ms, ms)
            && (Answered(reports) >= Max(s.p50Ms - ms, ms - s.p50Ms) ==> after <= ms <= after + 7)
            && (Answered(reports) == 0 ==> after == s.p50Ms)
  {
    LatencyMoves(s, reports, ms, now);
  }

  /** Probes that were answered. */
  function Answered(reports: seq<Report>): nat {
    if reports == [] then 0
    else
      var last := reports[|reports| - 1];
      Answered(reports[..|reports| - 1]) + if last.ProbeEnded? && last.outcome.reachable then 1 else 0
  }

  lemma {:induction false} LatencyMoves(s: SourceStats, reports: seq<Report>, ms: nat, now: int)
    requires forall r :: r in reports && r.ProbeEnded? && r.outcome.reachable ==> r.outcome.elapsedMs == ms
    ensures var after, k := ReportedAll(s, reports, now).p50Ms, Answered(reports);
            && Min(s.p50Ms, ms) <= after <= Max(s.p50Ms, ms)
            && (after <= ms <= after + 7 || (after > ms && after + k <= s.p50Ms)
                || (after + 7 < ms && s.p50Ms + k <= after))
            && (k == 0 ==> after == s.p50Ms)
  {
    if reports != [] {
      var init := reports[..|reports| - 1];
      LatencyMoves(s, init, ms, now);
      LatencyBetween(ReportedAll(s, init, now).p50Ms, ms);
    }
  }

  // ---------- moving averages ----------

  function SampleBps(bytes: nat, micros: nat): nat {
    (bytes * 1_000_000 / Max(micros, 1)) % U64_LIMIT
  }

  /** Whole bytes a second, rounded down; what passes u64 is cut off. No time at all counts as a microsecond. */
  lemma SampleIsRate(bytes: nat, micros: nat)
    requires 0 < micros && bytes * 1_000_000 < U64_LIMIT * micros
    ensures SampleBps(bytes, micros) * micros <= bytes * 1_000_000 < (SampleBps(bytes, micros) + 1) * micros
    ensures SampleBps(bytes, 0) == SampleBps(bytes, 1)
  {
    var rate := bytes * 1_000_000 / micros;
    assert bytes * 1_000_000 == micros * rate + bytes * 1_000_000 % micros;
    if rate >= U64_LIMIT {
      TimesOrder(micros, U64_LIMIT, rate);
    }
  }

  function SmoothBps(prev: nat, sample: nat): nat {
    if prev == 0 then sample else (prev * 7 + sample * 3) % U64_LIMIT / 10
  }

  function EwmaMs(prev: nat, sample: nat): nat {
    if prev == 0 then sample else (prev * 7 + sample) / 8
  }

  /** The latency average lies between old value and sample, and stands still only within rounding of it. */
  lemma LatencyBetween(prev: nat, sample: nat)
    ensures Min(prev, sample) <= EwmaMs(prev, sample) <= Max(prev, sample)
    ensures prev > 0 ==> (EwmaMs(prev, sample) == prev <==> prev <= sample <= prev + 7)
    ensures EwmaMs(0, sample) == sample
  {
  }

  /** The throughput estimate is the rounded weighted mean exactly while the sum fits u64, and then it is between. */
  lemma ThroughputMeanExactly(prev: nat, sample: nat)
    requires 0 < prev
    ensures SmoothBps(prev, sample) == (prev * 7 + sample * 3) / 10 <==> prev * 7 + sample * 3 < U64_LIMIT
    ensures SmoothBps(0, sample) == sample
    ensures prev * 7 + sample * 3 < U64_LIMIT ==>
      && Min(prev, sample) <= SmoothBps(prev, sample) <= Max(prev, sample)
      && (SmoothBps(prev, sample) == prev <==> prev <= sample <= prev + 3)
  {
    var sum := prev * 7 + sample * 3;
    if sum >= U64_LIMIT {
      assert sum % U64_LIMIT <= sum - U64_LIMIT;
    }
  }

  function Repeated(prev: nat, sample: nat, times: nat): nat
    decreases times
  {
    if times == 0 then prev else Repeated(SmoothBps(prev, sample), sample, times - 1)
  }

  ghost predicate Settled(estimate: nat, sample: nat) { estimate <= sample <= estimate + 3 }

  lemma {:induction false} SettlesWithin(prev: nat, sample: nat, times: nat)
    requires prev * 7 + sample * 3 < U64_LIMIT && sample * 10 < U64_LIMIT
    requires times >= prev - sample && times >= sample - prev - 3
    ensures Settled(Repeated(prev, sample, times), sample)
    decreases times
  {
    if times > 0 {
      if prev > 0 {
        ThroughputMeanExactly(prev, sample);
      }
      SettlesWithin(SmoothBps(prev, sample), sample, times - 1);
    }
  }

  /** How many equal samples it takes: the distance, or one wrapped step and then at most a tenth of the range. */
  function SettlingTime(prev: nat, sample: nat): nat {
    if prev * 7 + sample * 3 < U64_LIMIT then Max(prev - sample, sample - prev) else U64_LIMIT
  }

  /** A steady source is believed, whatever the estimate was: it comes within 3 bytes/s below the samples and stays. */
  lemma ThroughputSettles(prev: nat, sample: nat, times: nat)
    requires prev < U64_LIMIT && sample * 10 < U64_LIMIT && times >= SettlingTime(prev, sample)
    ensures Settled(Repeated(prev, sample, times), sample)
  {
    if prev * 7 + sample * 3 < U64_LIMIT {
      SettlesWithin(prev, sample, times);
    } else {
      SettlesWithin(SmoothBps(prev, sample), sample, times - 1);
    }
  }

  /** Whatever the estimate was, from some time on it is within 3 bytes/s below the samples. */
  ghost predicate AlwaysSettles(sample: nat) {
    forall prev: nat :: prev < U64_LIMIT ==> Settles(prev, sample)
  }

  ghost predicate Settles(prev: nat, sample: nat) {
    exists from: nat :: SettledFrom(prev, sample, from)
  }

  ghost predicate SettledFrom(prev: nat, sample: nat, from: nat) {
    forall times: nat :: from <= times ==> Settled(Repeated(prev, sample, times), sample)
  }

  /** And an estimate that is there already is not thrown out again. */
  ghost predicate StaysSettled(sample: nat) {
    forall estimate: nat :: Settled(estimate, sample) ==> Settled(SmoothBps(estimate, sample), sample)
  }

  /** A steady source is believed, whatever the estimate was, and for good, exactly while its tenfold fits u64. */
  lemma SettlesExactly(sample: nat)
    requires sample < U64_LIMIT
    ensures AlwaysSettles(sample) && StaysSettled(sample) <==> sample * 10 < U64_LIMIT
  {
    if sample * 10 < U64_LIMIT {
      forall prev: nat | prev < U64_LIMIT
        ensures Settles(prev, sample)
      {
        forall times: nat | SettlingTime(prev, sample) <= times
          ensures Settled(Repeated(prev, sample, times), sample)
        {
          ThroughputSettles(prev, sample, times);
        }
        assert SettledFrom(prev, sample, SettlingTime(prev, sample));
      }
    } else {
      ThrownOut(sample);
    }
  }

  /** Past that, the wrap throws out an estimate equal to the samples. */
  lemma ThrownOut(sample: nat)
    requires sample < U64_LIMIT <= sample * 10
    ensures Settled(sample, sample) && !Settled(SmoothBps(sample, sample), sample)
  {
    assert sample * 10 % U64_LIMIT <= sample * 10 - U64_LIMIT;
  }

  function Probed(s: SourceStats, reachable: bool, ranges: bool, elapsedMs: nat, now: int): SourceStats {
    if reachable then
      s.(success := SaturatingInc(s.success), rangeOk := s.rangeOk || ranges,
         p50Ms := EwmaMs(s.p50Ms, elapsedMs), lastSeen := Some(now))
    else Failed(s, now)
  }

  datatype ProbeOutcome = ProbeOutcome(reachable: bool, ranges: bool, elapsedMs: nat)

  function ProbedBy(s: SourceStats, o: ProbeOutcome, now: int): SourceStats {
    Probed(s, o.reachable, o.ranges, o.elapsedMs, now)
  }

  /**
   A probe that reaches a source nobody has reached makes its next weight positive, unless its failure counter is
   saturated; one that does not reach it never raises its weight, unless the sum of its counters stands at 2^64.
   */
  lemma ProbeMovesScore(s: SourceStats, ranges: bool, elapsedMs: nat, now: int)
    requires FitsU64(s)
    ensures s.success == 0 ==> (Score(Probed(s, true, ranges, elapsedMs, now)) > 0.0 <==> s.failure + 1 < U64_LIMIT)
    ensures Score(Probed(s, false, ranges, elapsedMs, now)) > Score(s)
       <==> s.success > 0 && s.failure + 1 < U64_LIMIT && s.success + s.failure == U64_LIMIT
  {
    ScoreZeroExactly(Probed(s, true, ranges, elapsedMs, now));
    if s.success > 0 && s.failure + 1 < U64_LIMIT {
      RateAfterFailure(s.success, s.failure);
      ScoreFollowsRate(s, s.(failure := s.failure + 1));
      assert Score(Failed(s, now)) == Score(s.(failure := s.failure + 1));
    } else {
      ScoreZeroExactly(s);
      ScoreZeroExactly(Failed(s, now));
    }
  }

  // ---------- chunk plan ----------

  const MIB: nat := 1024 * 1024
  const CHUNK_MIN_BYTES: nat := 8 * MIB
  const CHUNK_MAX_BYTES: nat := 32 * MIB
  const CONCURRENCY_MIN: nat := 4
  const CONCURRENCY_MAX: nat := 16
  const TARGET_INFLIGHT_SECS: nat := 2

  function ChunkSize(bps: nat): nat {
    var mib := bps / MIB;
    if mib <= 49 then CHUNK_MIN_BYTES else if mib <= 149 then 16 * MIB else CHUNK_MAX_BYTES
  }

  datatype Plan = Plan(chunkBytes: nat, concurrency: nat)

  /** `chunk_plan_for` on u64: the product saturates, the sum wraps. */
  function ChunkPlanFor(bps: nat): Plan {
    if bps == 0 then Plan(CHUNK_MIN_BYTES, CONCURRENCY_MIN)
    else
      var chunk := ChunkSize(bps);
      var inflight := Min(bps * TARGET_INFLIGHT_SECS, U64_LIMIT - 1);
      Plan(chunk, Max(CONCURRENCY_MIN, Min(CONCURRENCY_MAX, (inflight + chunk - 1) % U64_LIMIT / chunk)))
  }

  function Window(plan: Plan): nat { plan.chunkBytes * plan.concurrency }

  /** The largest throughput for which the round-up does not overflow. */
  const PLAN_LIMIT: nat := 0x8000_0000_0000_0000 - 0x100_0000

  lemma PlanBounds(bps: nat)
    ensures CONCURRENCY_MIN <= ChunkPlanFor(bps).concurrency <= CONCURRENCY_MAX
    ensures ChunkPlanFor(bps).chunkBytes in {8 * MIB, 16 * MIB, 32 * MIB}
  {
  }

  /** Up to the limit, concurrency is the clamped number of chunks that hold two seconds of data. */
  lemma PlanInLimit(bps: nat)
    requires bps <= PLAN_LIMIT
    ensures ChunkPlanFor(bps) == Plan(ChunkSize(bps), Max(4, Min(16, (2 * bps + ChunkSize(bps) - 1) / ChunkSize(bps))))
  {
  }

  lemma PlanPastLimit(bps: nat)
    requires PLAN_LIMIT < bps < U64_LIMIT
    ensures ChunkPlanFor(bps) == Plan(CHUNK_MAX_BYTES, CONCURRENCY_MIN)
  {
  }

  /**
   The window holds two seconds of the measured throughput unless concurrency is at its cap, exactly up to the
   limit.
   */
  lemma WindowCoversExactly(bps: nat)
    requires bps < U64_LIMIT
    ensures Window(ChunkPlanFor(bps)) >= 2 * bps || ChunkPlanFor(bps).concurrency == CONCURRENCY_MAX
       <==> bps <= PLAN_LIMIT
  {
    if bps <= PLAN_LIMIT {
      PlanInLimit(bps);
    } else {
      PlanPastLimit(bps);
    }
  }

  /** And not a whole chunk more, unless concurrency is at its floor. */
  lemma WindowIsTight(bps: nat)
    requires bps < U64_LIMIT
    ensures Window(ChunkPlanFor(bps)) < 2 * bps + ChunkPlanFor(bps).chunkBytes
         || ChunkPlanFor(bps).concurrency == CONCURRENCY_MIN
  {
    if bps <= PLAN_LIMIT {
      PlanInLimit(bps);
    } else {
      PlanPastLimit(bps);
    }
  }

  /**
   Faster sources never get smaller chunks, and no smaller window either, exactly unless the faster one is past the
   limit and the slower one neither past it nor at most 64 MiB/s.
   */
  lemma PlanMonotoneExactly(a: nat, b: nat)
    requires a <= b < U64_LIMIT
    ensures ChunkPlanFor(a).chunkBytes <= ChunkPlanFor(b).chunkBytes
    ensures Window(ChunkPlanFor(a)) <= Window(ChunkPlanFor(b)) <==> b <= PLAN_LIMIT || PLAN_LIMIT < a || a <= 64 * MIB
  {
    ChunkSizeMonotone(a, b);
    if b <= PLAN_LIMIT {
      PlanMonotone(a, b);
    } else {
      PlanPastLimit(b);
      if a <= PLAN_LIMIT {
        SmallWindow(a);
      } else {
        PlanPastLimit(a);
      }
    }
  }

  lemma ChunkSizeMonotone(a: nat, b: nat)
    requires a <= b
    ensures ChunkPlanFor(a).chunkBytes <= ChunkPlanFor(b).chunkBytes
  {
  }

  lemma SmallWindow(bps: nat)
    requires bps <= PLAN_LIMIT
    ensures Window(ChunkPlanFor(bps)) <= 128 * MIB <==> bps <= 64 * MIB
  {
    PlanInLimit(bps);
    BandWindows(bps);
  }

  lemma PlanMonotone(a: nat, b: nat)
    requires a <= b <= PLAN_LIMIT
    ensures ChunkPlanFor(a).chunkBytes <= ChunkPlanFor(b).chunkBytes
    ensures Window(ChunkPlanFor(a)) <= Window(ChunkPlanFor(b))
  {
    if ChunkSize(a) == ChunkSize(b) {
      SameBand(a, b);
      TimesOrder(ChunkSize(a), ChunkPlanFor(a).concurrency, ChunkPlanFor(b).concurrency);
    } else {
      BandWindows(a);
      BandWindows(b);
    }
  }

  lemma SameBand(a: nat, b: nat)
    requires a <= b <= PLAN_LIMIT && ChunkSize(a) == ChunkSize(b)
    ensures ChunkPlanFor(a).concurrency <= ChunkPlanFor(b).concurrency
  {
    PlanInLimit(a);
    PlanInLimit(b);
    DivideOrder(2 * a + ChunkSize(a) - 1, 2 * b + ChunkSize(b) - 1, ChunkSize(a));
  }

  lemma DivideOrder(x: nat, y: nat, d: nat)
    requires x <= y && d > 0
    ensures x / d <= y / d
  {
    assert x == d * (x / d) + x % d && y == d * (y / d) + y % d;
    if x / d > y / d {
      TimesOrder(d, y / d + 1, x / d);
    }
  }

  lemma BandWindows(bps: nat)
    requires bps <= PLAN_LIMIT
    ensures ChunkSize(bps) == 8 * MIB ==> bps < 50 * MIB && Window(ChunkPlanFor(bps)) <= 104 * MIB
    ensures ChunkSize(bps) == 16 * MIB ==>
      50 * MIB <= bps < 150 * MIB && 112 * MIB <= Window(ChunkPlanFor(bps)) <= 256 * MIB
    ensures ChunkSize(bps) == 32 * MIB ==> 150 * MIB <= bps && 320 * MIB <= Window(ChunkPlanFor(bps))
  {
    PlanInLimit(bps);
  }

  /** Concurrency alone is not monotone: it drops at 50 and at 150 MiB/s, and only from one band to the next. */
  lemma ConcurrencyDrops()
    ensures ChunkPlanFor(50 * MIB - 1).concurrency == 13 && ChunkPlanFor(50 * MIB).concurrency == 7
    ensures ChunkPlanFor(150 * MIB - 1).concurrency == 16 && ChunkPlanFor(150 * MIB).concurrency == 10
    ensures forall a: nat, b: nat :: a <= b <= PLAN_LIMIT && ChunkSize(a) == ChunkSize(b) ==>
      ChunkPlanFor(a).concurrency <= ChunkPlanFor(b).concurrency
  {
    forall a: nat, b: nat | a <= b <= PLAN_LIMIT && ChunkSize(a) == ChunkSize(b)
      ensures ChunkPlanFor(a).concurrency <= ChunkPlanFor(b).concurrency
    {
      SameBand(a, b);
    }
  }

  // ---------- the pool ----------

  class SourcePool {
    var stats: seq<SourceStats>
    var weights: seq<real>
    var counter: nat

    ghost predicate Valid() reads this {
      && |weights| == |stats|
      && NonNegative(weights)
      && forall i :: 0 <= i < |stats| ==> FitsU64(stats[i])
    }

    constructor (n: nat)
      ensures Valid() && |stats| == n && counter == 0
      ensures forall i :: 0 <= i < n ==> weights[i] == 1.0 && stats[i] == SourceStats(0, 0, 0, false, None, 0)
    {
      stats := seq(n, _ => SourceStats(0, 0, 0, false, None, 0));
      weights := seq(n, _ => 1.0);
      counter := 0;
    }

    method Sum() returns (total: real)
      ensures total == Total(weights)
    {
      total := 0.0;
      for i := 0 to |weights|
        invariant total == Prefix(weights, i)
      {
        total := total + weights[i];
      }
    }

    /** `unit` is the pseudo-random draw in [0,1). */
    method Pick(unit: real) returns (index: nat)
      requires Valid() && 0.0 <= unit < 1.0
      modifies this`counter
      ensures weights == [] ==> index == 0 && counter == old(counter)
      ensures weights != [] ==> index < |weights| && counter == (old(counter) + 1) % U64_LIMIT
      ensures Total(weights) > 0.0 ==> Picks(weights, unit, index)
      ensures weights != [] && Total(weights) <= 0.0 ==>
        index == FallbackPick(stats, old(counter)) && index in Candidates(stats)
    {
      if |weights| == 0 {
        return 0;
      }
      var total := Sum();
      if total > 0.0 {
        counter := (counter + 1) % U64_LIMIT;
        var target := unit * total;
        ghost var aim := target;
        DrawInRange(unit, total);
        assert 0.0 <= aim <= total;
        for i := 0 to |weights|
          invariant target == aim - Prefix(weights, i)
          invariant i > 0 ==> target > 0.0
        {
          target := target - weights[i];
          if target <= 0.0 {
            PickedAt(weights, unit, aim, i);
            return i;
          }
        }
        assert false;
      }
      var candidates := Eligible();
      CandidatesUsable(stats, 0);
      EligibleExactly(stats, |stats|);
      var seqNo := counter;
      counter := (counter + 1) % U64_LIMIT;
      index := candidates[seqNo % |candidates|];
      CandidatesUsable(stats, index);
    }

    method Eligible() returns (candidates: seq<nat>)
      ensures candidates == Candidates(stats)
    {
      candidates := [];
      for i := 0 to |stats|
        invariant candidates == EligibleUpTo(stats, i)
      {
        if stats[i].lastSeen.None? || stats[i].rangeOk {
          candidates := candidates + [i];
        }
      }
      if candidates == [] {
        candidates := seq(|stats|, i => i);
      }
    }

    method RecomputeWeights()
      requires Valid()
      modifies this`weights
      ensures Valid() && weights == Scores(stats)
    {
      for i := 0 to |weights|
        invariant |weights| == |stats|
        invariant forall k :: 0 <= k < i ==> weights[k] == Score(stats[k])
      {
        weights := weights[i := Score(stats[i])];
      }
      forall i | 0 <= i < |weights|
        ensures weights[i] >= 0.0
      {
        ScoreZeroExactly(stats[i]);
      }
    }

    method ReportFailure(index: nat, now: int)
      requires Valid()
      modifies this`stats, this`weights
      ensures Valid() && weights == Scores(stats)
      ensures stats == if index < |old(stats)| then old(stats)[index := Failed(old(stats)[index], now)] else old(stats)
    {
      if index < |stats| {
        var slot := stats[index];
        stats := stats[index := slot.(failure := SaturatingInc(slot.failure), lastSeen := Some(now))];
      }
      RecomputeWeights();
    }

    method ReportSuccess(index: nat, now: int)
      requires Valid()
      modifies this`stats, this`weights
      ensures Valid() && weights == Scores(stats)
      ensures stats ==
        if index < |old(stats)| then old(stats)[index := Succeeded(old(stats)[index], now)] else old(stats)
    {
      if index < |stats| {
        var slot := stats[index];
        stats := stats[index := slot.(success := SaturatingInc(slot.success), rangeOk := true, lastSeen := Some(now))];
      }
      RecomputeWeights();
    }

    /**
     A round of probes, in any order: each has its own slot, and the weights follow when all are in. A source nobody
     had reached gets a positive weight from being reached, and one that is not reached never a higher one, but for
     saturated and wrapping counters.
     */
    method ProbeAll(order: seq<nat>, outcomes: seq<ProbeOutcome>, now: int)
      requires Valid() && |order| == |outcomes| == |stats|
      requires forall i, j :: 0 <= i < j < |order| ==> order[i] != order[j]
      requires forall i :: 0 <= i < |order| ==> order[i] < |stats|
      modifies this`stats, this`weights
      ensures Valid() && |stats| == |old(stats)| && weights == Scores(stats)
      ensures forall i :: 0 <= i < |order| ==>
        var before, after, o := old(stats)[order[i]], weights[order[i]], outcomes[i];
        && (o.reachable && before.success == 0 ==> (after > 0.0 <==> before.failure + 1 < U64_LIMIT))
        && (!o.reachable && before.success + before.failure != U64_LIMIT ==> after <= Score(before))
    {
      for n := 0 to |order|
        invariant Valid() && |stats| == |old(stats)|
        invariant forall i :: 0 <= i < n ==> stats[order[i]] == ProbedBy(old(stats)[order[i]], outcomes[i], now)
        invariant forall i :: n <= i < |order| ==> stats[order[i]] == old(stats)[order[i]]
      {
        ProbeOne(order[n], outcomes[n].reachable, outcomes[n].ranges, outcomes[n].elapsedMs, now);
      }
      RecomputeWeights();
      forall i | 0 <= i < |order|
        ensures var before, after, o := old(stats)[order[i]], weights[order[i]], outcomes[i];
                && (o.reachable && before.success == 0 ==> (after > 0.0 <==> before.failure + 1 < U64_LIMIT))
                && (!o.reachable && before.success + before.failure != U64_LIMIT ==> after <= Score(before))
      {
        ProbeMovesScore(old(stats)[order[i]], outcomes[i].ranges, outcomes[i].elapsedMs, now);
      }
    }

    /** One probe's outcome: `reachable` is a 2xx, 401 or 405 in time. The weights follow when all probes are in. */
    method ProbeOne(index: nat, reachable: bool, ranges: bool, elapsedMs: nat, now: int)
      requires Valid()
      modifies this`stats
      ensures Valid()
      ensures stats ==
        if index < |old(stats)|
        then old(stats)[index := Probed(old(stats)[index], reachable, ranges, elapsedMs, now)]
        else old(stats)
    {
      if index < |stats| {
        var slot := stats[index];
        if reachable {
          slot := slot.(success := SaturatingInc(slot.success), rangeOk := slot.rangeOk || ranges,
                        p50Ms := EwmaMs(slot.p50Ms, elapsedMs));
        } else {
          slot := slot.(failure := SaturatingInc(slot.failure));
        }
        stats := stats[index := slot.(lastSeen := Some(now))];
      }
    }

    /** An elapsed time of zero, or no bytes, is not a measurement. */
    method ReportThroughput(index: nat, bytes: nat, nanos: nat, now: int)
      requires Valid()
      modifies this`stats
      ensures Valid()
      ensures bytes == 0 || nanos == 0 || index >= |old(stats)| ==> stats == old(stats)
      ensures bytes > 0 && nanos > 0 && index < |old(stats)| ==>
        stats == old(stats)[index := old(stats)[index].(
          throughputBps := SmoothBps(old(stats)[index].throughputBps, SampleBps(bytes, nanos / 1000)),
          lastSeen := Some(now))]
    {
      if bytes == 0 || nanos == 0 {
        return;
      }
      var sample := (bytes * 1_000_000 / Max(nanos / 1000, 1)) % U64_LIMIT;
      if index < |stats| {
        var slot := stats[index];
        var next := if slot.throughputBps == 0 then sample else (slot.throughputBps * 7 + sample * 3) % U64_LIMIT / 10;
        stats := stats[index := slot.(throughputBps := next, lastSeen := Some(now))];
      }
    }

    /** The plan for the next download, from the sum of the estimates. */
    method ChunkPlan() returns (plan: Plan)
      ensures plan == ChunkPlanFor(ThroughputUpTo(stats, |stats|) % U64_LIMIT)
    {
      var total := 0;
      for i := 0 to |stats|
        invariant total == ThroughputUpTo(stats, i)
      {
        total := total + stats[i].throughputBps;
      }
      plan := ChunkPlanFor(total % U64_LIMIT);
    }
  }

  function ThroughputUpTo(stats: seq<SourceStats>, n: nat): nat
    requires n <= |stats|
  {
    if n == 0 then 0 else ThroughputUpTo(stats, n - 1) + stats[n - 1].throughputBps
  }

  /** The sum changes by what one estimate changes, and is zero while nothing has been measured. */
  lemma {:induction false} ThroughputUpdated(stats: seq<SourceStats>, n: nat, i: nat, s: SourceStats)
    requires i < n <= |stats|
    ensures ThroughputUpTo(stats[i := s], n) == ThroughputUpTo(stats, n) - stats[i].throughputBps + s.throughputBps
  {
    if i < n - 1 {
      ThroughputUpdated(stats, n - 1, i, s);
    } else {
      ThroughputBefore(stats, n - 1, i, s);
    }
  }

  lemma {:induction false} ThroughputBefore(stats: seq<SourceStats>, n: nat, i: nat, s: SourceStats)
    requires n <= i < |stats|
    ensures ThroughputUpTo(stats[i := s], n) == ThroughputUpTo(stats, n)
  {
    if n > 0 {
      ThroughputBefore(stats, n - 1, i, s);
    }
  }

  /** Chunks of 8 MiB, four at a time, until there is a measurement. */
  lemma {:induction false} PlanUnmeasured(stats: seq<SourceStats>, n: nat)
    requires n <= |stats| && forall i :: 0 <= i < n ==> stats[i].throughputBps == 0
    ensures ThroughputUpTo(stats, n) == 0
    ensures ChunkPlanFor(ThroughputUpTo(stats, n)) == Plan(8 * 1024 * 1024, 4)
  {
    if n > 0 {
      PlanUnmeasured(stats, n - 1);
    }
  }
}
