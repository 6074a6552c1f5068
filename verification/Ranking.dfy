/** Outcome counters, scores and the metrics-driven ranking (gateway/ranking.py).
    Scores are exact reals. */
module Ranking {
  import opened Text
  import opened StableSort
  import opened Catalog

  datatype FeatureMetrics = FeatureMetrics(invocations: nat, successes: nat, totalLatency: real)

  const NO_METRICS := FeatureMetrics(0, 0, 0.0)

  type Counters = map<string, FeatureMetrics>

  function SuccessRate(m: FeatureMetrics): (r: Option<real>)
  {
    if m.invocations != 0 then Some(m.successes as real / m.invocations as real) else None
  }

  function AvgLatency(m: FeatureMetrics): (r: Option<real>)
  {
    if m.successes != 0 then Some(m.totalLatency / m.successes as real) else None
  }

  /** What one record does to the counters of its feature. */
  function After(m: FeatureMetrics, success: bool, latency: real): (r: FeatureMetrics)
  {
    if success then FeatureMetrics(m.invocations + 1, m.successes + 1, m.totalLatency + latency)
    else m.(invocations := m.invocations + 1)
  }

  function Lookup(c: Counters, id: string): (m: FeatureMetrics)
  {
    if id in c then c[id] else NO_METRICS
  }

  function Recorded(c: Counters, id: string, success: bool, latency: real): (r: Counters)
  {
    c[id := After(Lookup(c, id), success, latency)]
  }

  predicate Plausible(m: FeatureMetrics)
  {
    m.successes <= m.invocations && m.totalLatency >= 0.0
  }

  ghost predicate PlausibleCounters(c: Counters)
  {
    forall id :: id in c ==> Plausible(c[id])
  }

  class MetricsStore {
    var m: Counters

    constructor ()
      ensures m == map[]
    {
      m := map[];
    }

    method Record(id: string, success: bool, latency: real)
      modifies this
      ensures m == Recorded(old(m), id, success, latency)
      ensures forall other :: other != id ==> Lookup(m, other) == Lookup(old(m), other)
      ensures old(PlausibleCounters(m)) && latency >= 0.0 ==> PlausibleCounters(m)
    {
      if id !in m {
        m := m[id := NO_METRICS];
      }
      m := m[id := m[id].(invocations := m[id].invocations + 1)];
      if success {
        m := m[id := m[id].(successes := m[id].successes + 1)];
        m := m[id := m[id].(totalLatency := m[id].totalLatency + latency)];
      }
    }

    method Get(id: string) returns (r: Option<FeatureMetrics>)
      ensures r.Some? <==> id in m
      ensures r.Some? ==> r.value == Lookup(m, id)
    {
      r := if id in m then Some(m[id]) else None;
    }
  }

  // ----- scores -----

  function TrustPrior(t: Trust): (p: real)
  {
    match t case Official => 0.10 case Verified => 0.05 case Community => 0.0
  }

  datatype Policy = Policy(defaultPrior: real, latencyWeight: real)

  const DEFAULT_POLICY := Policy(0.7, 0.1)

  function Penalty(p: Policy, m: FeatureMetrics): (r: real)
  {
    (match AvgLatency(m) case Some(ms) => ms case None => 0.0) / 1000.0 * p.latencyWeight
  }

  function ScoreOf(p: Policy, t: Trust, m: FeatureMetrics): (s: real)
  {
    match SuccessRate(m)
    case Some(rate) => rate + TrustPrior(t) - Penalty(p, m)
    case None => p.defaultPrior + TrustPrior(t)
  }

  function Score(p: Policy, f: Feature, c: Counters): (s: real)
  {
    ScoreOf(p, f.manifest.trust, Lookup(c, FeatureId(f)))
  }

  // ----- the ranking -----

  /** The value the id-to-position dictionary holds for x after all positions were written. */
  function LastIndex(s: seq<Feature>, x: Feature): (i: int)
    ensures -1 <= i < |s|
    ensures i >= 0 ==> s[i] == x
    ensures i >= 0 <==> x in s
  {
    if s == [] then -1
    else if s[|s| - 1] == x then |s| - 1
    else LastIndex(s[..|s| - 1], x)
  }

  function RankLe(p: Policy, c: Counters, baseline: seq<Feature>): (Feature, Feature) -> bool
  {
    (f: Feature, g: Feature) =>
      Score(p, f, c) > Score(p, g, c)
      || (Score(p, f, c) == Score(p, g, c) && LastIndex(baseline, f) <= LastIndex(baseline, g))
  }

  function Rank(p: Policy, fs: seq<Feature>, c: Counters): (r: seq<Feature>)
  {
    Sort(fs, RankLe(p, c, RankFeatures(fs)))
  }

  lemma RankLeIsPreorder(p: Policy, c: Counters, baseline: seq<Feature>)
    ensures TotalPreorder(RankLe(p, c, baseline))
  {}

  /** The ranking is a permutation of its input, non-increasing in score, and breaks ties
      in baseline order. */
  lemma RankOrder(p: Policy, fs: seq<Feature>, c: Counters)
    ensures multiset(Rank(p, fs, c)) == multiset(fs)
    ensures var r := Rank(p, fs, c);
            forall i, j :: 0 <= i < j < |r| ==>
              && Score(p, r[i], c) >= Score(p, r[j], c)
              && (Score(p, r[i], c) == Score(p, r[j], c) ==> BaselineLe(r[i], r[j]))
  {
    var base := RankFeatures(fs);
    var le := RankLe(p, c, base);
    RankLeIsPreorder(p, c, base);
    SortSorts(fs, le);
    SortPermutes(fs, le);
    BaselineIsPreorder();
    SortSorts(fs, BaselineLe);
    SortPermutes(fs, BaselineLe);
    var r := Rank(p, fs, c);
    forall i, j | 0 <= i < j < |r| && Score(p, r[i], c) == Score(p, r[j], c) ensures BaselineLe(r[i], r[j]) {
      assert le(r[i], r[j]);
      assert r[i] in multiset(base) && r[j] in multiset(base);
      var a, b := LastIndex(base, r[i]), LastIndex(base, r[j]);
      assert a <= b && base[a] == r[i] && base[b] == r[j];
      BaselineIsTotal(r[i], r[i]);
    }
  }

  lemma LastIndexDistinct(s: seq<Feature>, i: nat)
    requires Distinct(s) && i < |s|
    ensures LastIndex(s, s[i]) == i
  {}

  lemma NoRankTies(p: Policy, c: Counters, base: seq<Feature>)
    ensures var le := RankLe(p, c, base);
            forall f, g :: f in base && g in base && le(f, g) && le(g, f) ==> f == g
  {}

  /** Cold start: with nothing recorded for the listed features the ranking is the static one. */
  lemma ColdStartIsBaseline(p: Policy, fs: seq<Feature>, c: Counters)
    requires Distinct(fs)
    requires forall f :: f in fs ==> Lookup(c, FeatureId(f)).invocations == 0
    ensures Rank(p, fs, c) == RankFeatures(fs)
  {
    var base := RankFeatures(fs);
    var le := RankLe(p, c, base);
    SortPermutes(fs, BaselineLe);
    DistinctPermutes(fs, base);
    assert forall f :: f in base ==> f in multiset(fs);
    ColdBaselineIsSorted(p, fs, c);
    RankLeIsPreorder(p, c, base);
    SortSorts(fs, le);
    SortPermutes(fs, le);
    NoRankTies(p, c, base);
    SortedUniqueWithoutTies(base, Rank(p, fs, c), le);
  }

  /** Without data scores follow trust, which the baseline order respects already. */
  lemma ColdBaselineIsSorted(p: Policy, fs: seq<Feature>, c: Counters)
    requires var base := RankFeatures(fs);
             Distinct(base) && forall f :: f in base ==> Lookup(c, FeatureId(f)).invocations == 0
    ensures Sorted(RankFeatures(fs), RankLe(p, c, RankFeatures(fs)))
  {
    var base := RankFeatures(fs);
    BaselineIsPreorder();
    SortSorts(fs, BaselineLe);
    forall i, j | 0 <= i < j < |base| ensures RankLe(p, c, base)(base[i], base[j]) {
      assert BaselineLe(base[i], base[j]);
      assert base[i] in base && base[j] in base;
      LastIndexDistinct(base, i);
      LastIndexDistinct(base, j);
    }
  }

  /** With distinct baseline keys the ranking does not depend on the order of its input. */
  lemma RankIgnoresInputOrder(p: Policy, fs: seq<Feature>, gs: seq<Feature>, c: Counters)
    requires multiset(fs) == multiset(gs) && DistinctKeys(fs)
    ensures Rank(p, fs, c) == Rank(p, gs, c)
  {
    BaselineIgnoresInputOrder(fs, gs);
    var base := RankFeatures(fs);
    var le := RankLe(p, c, base);
    SortPermutes(fs, BaselineLe);
    RankLeIsPreorder(p, c, base);
    SortSorts(fs, le);
    SortPermutes(fs, le);
    SortSorts(gs, le);
    SortPermutes(gs, le);
    NoRankTies(p, c, base);
    var r := Rank(p, fs, c);
    assert forall f :: f in r ==> f in multiset(base);
    SortedUniqueWithoutTies(r, Rank(p, gs, c), le);
  }

  // ----- trust against observed success -----

  /** At equal latency penalty a success-rate lead beats every trust difference exactly when
      it exceeds 0.10; at 0.10 sharp an official vendor still ties a community one. */
  lemma LeadBeatsTrustExactly(p: Policy, m: FeatureMetrics, n: FeatureMetrics)
    requires m.invocations > 0 && n.invocations > 0 && Penalty(p, m) == Penalty(p, n)
    ensures (forall t, u :: ScoreOf(p, t, m) > ScoreOf(p, u, n))
            <==> SuccessRate(m).value - SuccessRate(n).value > 0.10
  {
    if forall t, u :: ScoreOf(p, t, m) > ScoreOf(p, u, n) {
      assert ScoreOf(p, Community, m) > ScoreOf(p, Official, n);
    }
  }

  /** A lead above 0.10 with no larger latency penalty is ranked first, whatever the trust tiers. */
  lemma LeadOutranks(p: Policy, fs: seq<Feature>, c: Counters, i: nat, j: nat)
    requires var r := Rank(p, fs, c); i < |r| && j < |r|
    requires var r := Rank(p, fs, c);
             var m, n := Lookup(c, FeatureId(r[i])), Lookup(c, FeatureId(r[j]));
             && m.invocations > 0 && n.invocations > 0
             && SuccessRate(m).value - SuccessRate(n).value > 0.10
             && Penalty(p, m) <= Penalty(p, n)
    ensures i < j
  {
    RankOrder(p, fs, c);
  }

  /** With a positive weight penalties compare as average latencies do. */
  lemma PenaltyIsMonotone(p: Policy, m: FeatureMetrics, n: FeatureMetrics)
    requires p.latencyWeight >= 0.0
    ensures MeanLatency(m) <= MeanLatency(n) ==> Penalty(p, m) <= Penalty(p, n)
    ensures p.latencyWeight > 0.0 && MeanLatency(m) > MeanLatency(n) ==> Penalty(p, m) > Penalty(p, n)
  {
    var a, b := MeanLatency(m) / 1000.0, MeanLatency(n) / 1000.0;
    assert Penalty(p, m) == a * p.latencyWeight && Penalty(p, n) == b * p.latencyWeight;
    if a <= b {
      ScaleMonotone(a, b, p.latencyWeight);
    } else if p.latencyWeight > 0.0 {
      ScaleStrictly(b, a, p.latencyWeight);
    }
  }

  /** The average latency of the recorded successes, 0 without any. */
  function MeanLatency(m: FeatureMetrics): (ms: real)
  {
    if m.successes == 0 then 0.0 else m.totalLatency / m.successes as real
  }

  /** The difference of two scores in plain numbers: rates, trust, and latency in seconds times
      its weight. */
  lemma ScoreGap(p: Policy, t: Trust, m: FeatureMetrics, u: Trust, n: FeatureMetrics)
    requires m.invocations > 0 && n.invocations > 0
    ensures ScoreOf(p, t, m) - ScoreOf(p, u, n)
         == (m.successes as real / m.invocations as real - n.successes as real / n.invocations as real)
            + (TrustPrior(t) - TrustPrior(u)) - (MeanLatency(m) - MeanLatency(n)) * p.latencyWeight / 1000.0
  {
    var a, b := MeanLatency(m), MeanLatency(n);
    assert Penalty(p, m) == a / 1000.0 * p.latencyWeight && Penalty(p, n) == b / 1000.0 * p.latencyWeight;
    assert (a - b) * p.latencyWeight / 1000.0 == a / 1000.0 * p.latencyWeight - b / 1000.0 * p.latencyWeight;
  }

  /** One trust tier is worth 0.05, whatever was observed. */
  lemma TrustIsWorth(p: Policy, m: FeatureMetrics)
    ensures ScoreOf(p, Official, m) == ScoreOf(p, Verified, m) + 0.05
    ensures ScoreOf(p, Verified, m) == ScoreOf(p, Community, m) + 0.05
  {}

  /** At equal trust and success rate the provider with the smaller average latency scores higher,
      and by default a millisecond is worth 0.0001. */
  lemma FasterScoresHigher(p: Policy, t: Trust, m: FeatureMetrics, n: FeatureMetrics)
    requires p.latencyWeight > 0.0 && m.invocations > 0 && n.invocations > 0
    requires m.successes as real / m.invocations as real == n.successes as real / n.invocations as real
    ensures ScoreOf(p, t, m) > ScoreOf(p, t, n) <==> MeanLatency(m) < MeanLatency(n)
    ensures ScoreOf(DEFAULT_POLICY, t, m) - ScoreOf(DEFAULT_POLICY, t, n) == (MeanLatency(n) - MeanLatency(m)) * 0.0001
  {
    assert ScoreOf(p, t, m) - ScoreOf(p, t, n) == Penalty(p, n) - Penalty(p, m);
    PenaltyIsMonotone(p, n, m);
    ScoreGap(DEFAULT_POLICY, t, m, t, n);
  }

  /** So it is ranked, and called, first. */
  lemma FasterRanksFirst(p: Policy, fs: seq<Feature>, c: Counters, i: nat, j: nat)
    requires p.latencyWeight > 0.0
    requires var r := Rank(p, fs, c);
             && i < |r| && j < |r| && r[i].manifest.trust == r[j].manifest.trust
             && var m, n := Lookup(c, FeatureId(r[i])), Lookup(c, FeatureId(r[j]));
                && m.invocations > 0 && n.invocations > 0
                && m.successes as real / m.invocations as real == n.successes as real / n.invocations as real
                && MeanLatency(m) < MeanLatency(n)
    ensures i < j
  {
    var r := Rank(p, fs, c);
    FasterScoresHigher(p, r[i].manifest.trust, Lookup(c, FeatureId(r[i])), Lookup(c, FeatureId(r[j])));
    RankOrder(p, fs, c);
  }

  lemma ScaleStrictly(a: real, b: real, w: real)
    requires a < b && w > 0.0
    ensures a * w < b * w
  {
    assert (b - a) * w > 0.0;
    assert (b - a) * w == b * w - a * w;
  }

  lemma ScaleMonotone(a: real, b: real, w: real)
    requires a <= b && w >= 0.0
    ensures a * w <= b * w
  {}

  // ----- one feature's outcomes and another's score -----

  /** Recording for one feature leaves every other feature's counters and score alone. */
  lemma RecordIsLocal(p: Policy, f: Feature, g: Feature, c: Counters, success: bool, latency: real)
    requires '/' !in f.manifest.vendor && '/' !in g.manifest.vendor
    requires '@' !in f.manifest.name && '@' !in g.manifest.name
    requires Identity(f) != Identity(g)
    ensures var c' := Recorded(c, FeatureId(f), success, latency);
            Lookup(c', FeatureId(g)) == Lookup(c, FeatureId(g)) && Score(p, g, c') == Score(p, g, c)
  {
    if FeatureId(f) == FeatureId(g) {
      IdIsInjective(f, g);
      assert false;
    }
  }

  /** A recorded failure raises a score only for a feature never invoked before and only
      under a negative default prior. */
  lemma FailureRaisesExactly(p: Policy, t: Trust, m: FeatureMetrics)
    requires m.successes <= m.invocations
    ensures ScoreOf(p, t, After(m, false, 0.0)) > ScoreOf(p, t, m) <==> m.invocations == 0 && p.defaultPrior < 0.0
  {
    var m' := After(m, false, 0.0);
    assert Penalty(p, m') == Penalty(p, m);
    if m.invocations > 0 {
      FractionShrinks(m.successes as real, m.invocations as real);
    }
  }

  lemma FractionShrinks(s: real, n: real)
    requires s >= 0.0 && n > 0.0
    ensures s / (n + 1.0) <= s / n
  {
    var q := s / n;
    assert q * n == s && q >= 0.0;
    assert s == q * (n + 1.0) - q;
    assert s / (n + 1.0) == q - q / (n + 1.0);
  }
}
