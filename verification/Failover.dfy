/** The select-top / invoke / record loop when every call ends unavailable: the feedback
    must work its way through all providers of a capability. */
module Failover {
  import opened StableSort
  import opened Catalog
  import opened Ranking

  function Failures(m: FeatureMetrics): (n: int) { m.invocations - m.successes }

  /** Failures a provider may still collect before it sinks below every newcomer. */
  function Patience(m: FeatureMetrics): (n: nat)
  {
    var left := 2 * m.successes / 3 + 1 - Failures(m);
    if left > 0 then left else 0
  }

  lemma RateBelow(s: nat, n: nat)
    requires n > 0
    ensures (s as real / n as real < 0.6) <==> 5 * s < 3 * n
  {
    QuotientBelow(s as real, n as real, 0.6);
  }

  lemma QuotientBelow(x: real, y: real, k: real)
    requires y > 0.0
    ensures x / y < k <==> x < k * y
  {
    var q := x / y;
    assert q * y == x;
  }

  /** After floor(2s/3)+1 failures a provider with s successes scores below every provider
      that was never invoked, whatever the two trust tiers. */
  lemma SinksBelowNewcomers(t: Trust, m: FeatureMetrics, u: Trust)
    requires Plausible(m) && m.invocations > 0 && Patience(m) == 0
    ensures ScoreOf(DEFAULT_POLICY, t, m) < ScoreOf(DEFAULT_POLICY, u, NO_METRICS)
  {
    RateBelow(m.successes, m.invocations);
  }

  /** The same in terms of a run of consecutive failures. */
  lemma ConsecutiveFailuresSink(t: Trust, m: FeatureMetrics, k: nat, u: Trust)
    requires Plausible(m) && k >= 2 * m.successes / 3 + 1
    ensures ScoreOf(DEFAULT_POLICY, t, m.(invocations := m.invocations + k)) < ScoreOf(DEFAULT_POLICY, u, NO_METRICS)
  {
    SinksBelowNewcomers(t, m.(invocations := m.invocations + k), u);
  }

  /** The bound is exact for an official provider without latency against a community newcomer. */
  lemma ThresholdIsExact(m: FeatureMetrics)
    requires Plausible(m) && m.invocations > 0 && m.totalLatency == 0.0
    ensures ScoreOf(DEFAULT_POLICY, Official, m) < ScoreOf(DEFAULT_POLICY, Community, NO_METRICS) <==> Patience(m) == 0
  {
    RateBelow(m.successes, m.invocations);
  }

  /** One dispatch whose top-ranked provider turns out to be unavailable. */
  function FailTop(fs: seq<Feature>, c: Counters): (r: Counters)
    requires fs != []
  {
    SortPermutes(fs, RankLe(DEFAULT_POLICY, c, RankFeatures(fs)));
    Recorded(c, FeatureId(Rank(DEFAULT_POLICY, fs, c)[0]), false, 0.0)
  }

  function FailRun(fs: seq<Feature>, c: Counters, n: nat): (r: Counters)
    requires fs != []
    decreases n
  {
    if n == 0 then c else FailRun(fs, FailTop(fs, c), n - 1)
  }

  lemma FailRunStep(fs: seq<Feature>, c: Counters, n: nat)
    requires fs != [] && n > 0
    ensures FailRun(fs, c, n) == FailRun(fs, FailTop(fs, c), n - 1)
  {}

  function Budget(fs: seq<Feature>, c: Counters): (n: nat)
  {
    if fs == [] then 0 else Patience(Lookup(c, FeatureId(fs[0]))) + Budget(fs[1..], c)
  }

  predicate Tried(f: Feature, c: Counters)
  {
    Lookup(c, FeatureId(f)).invocations > 0
  }

  lemma TopIsBest(fs: seq<Feature>, c: Counters)
    requires fs != []
    ensures var r := Rank(DEFAULT_POLICY, fs, c);
            && r != [] && r[0] in fs
            && forall f :: f in fs ==> Score(DEFAULT_POLICY, r[0], c) >= Score(DEFAULT_POLICY, f, c)
  {
    var le := RankLe(DEFAULT_POLICY, c, RankFeatures(fs));
    RankLeIsPreorder(DEFAULT_POLICY, c, RankFeatures(fs));
    SortHeadIsMinimum(fs, le);
  }

  /** While somebody is untried, the provider that is called still has patience left. */
  lemma TopHasPatience(fs: seq<Feature>, c: Counters, f: Feature)
    requires PlausibleCounters(c) && f in fs && !Tried(f, c)
    ensures Rank(DEFAULT_POLICY, fs, c) != []
    ensures Patience(Lookup(c, FeatureId(Rank(DEFAULT_POLICY, fs, c)[0]))) > 0
  {
    TopIsBest(fs, c);
    var top := Rank(DEFAULT_POLICY, fs, c)[0];
    var m := Lookup(c, FeatureId(top));
    NewcomerScore(f.manifest.trust, Lookup(c, FeatureId(f)));
    assert Score(DEFAULT_POLICY, top, c) >= Score(DEFAULT_POLICY, f, c);
    PatientIfNotSunk(top.manifest.trust, m, f.manifest.trust);
  }

  lemma NewcomerScore(t: Trust, m: FeatureMetrics)
    requires m.invocations == 0
    ensures ScoreOf(DEFAULT_POLICY, t, m) == ScoreOf(DEFAULT_POLICY, t, NO_METRICS)
  {}

  lemma PatientIfNotSunk(t: Trust, m: FeatureMetrics, u: Trust)
    requires Plausible(m) && ScoreOf(DEFAULT_POLICY, t, m) >= ScoreOf(DEFAULT_POLICY, u, NO_METRICS)
    ensures Patience(m) > 0
  {
    if m.invocations > 0 && Patience(m) == 0 {
      SinksBelowNewcomers(t, m, u);
    }
  }

  /** A recorded failure costs the recorded id one unit of patience and nobody else anything. */
  lemma PatienceAfterFailure(c: Counters, id: string, other: string)
    ensures Patience(Lookup(Recorded(c, id, false, 0.0), other)) ==
            if other == id && Patience(Lookup(c, id)) > 0 then Patience(Lookup(c, id)) - 1
            else Patience(Lookup(c, other))
  {
    var c' := Recorded(c, id, false, 0.0);
    if other == id {
      assert Lookup(c', id) == After(Lookup(c, id), false, 0.0);
    } else {
      assert Lookup(c', other) == Lookup(c, other);
    }
  }

  lemma {:induction false} BudgetNeverGrows(fs: seq<Feature>, c: Counters, id: string)
    ensures Budget(fs, Recorded(c, id, false, 0.0)) <= Budget(fs, c)
  {
    if fs != [] {
      PatienceAfterFailure(c, id, FeatureId(fs[0]));
      BudgetNeverGrows(fs[1..], c, id);
    }
  }

  lemma {:induction false} FailureCostsBudget(fs: seq<Feature>, c: Counters, f: Feature)
    requires f in fs && Patience(Lookup(c, FeatureId(f))) > 0
    ensures Budget(fs, Recorded(c, FeatureId(f), false, 0.0)) < Budget(fs, c)
  {
    PatienceAfterFailure(c, FeatureId(f), FeatureId(fs[0]));
    if fs[0] == f {
      BudgetNeverGrows(fs[1..], c, FeatureId(f));
    } else {
      assert f in fs[1..];
      FailureCostsBudget(fs[1..], c, f);
    }
  }

  lemma {:induction false} TriedForever(fs: seq<Feature>, c: Counters, n: nat, f: Feature)
    requires fs != [] && Tried(f, c)
    ensures Tried(f, FailRun(fs, c, n))
    decreases n
  {
    if n > 0 {
      TriedForever(fs, FailTop(fs, c), n - 1, f);
    }
  }

  /** If every dispatch ends unavailable, each provider has been invoked after at most
      Budget(fs, c) dispatches: no newcomer is starved. */
  lemma {:induction false} EveryProviderIsTried(fs: seq<Feature>, c: Counters, n: nat, f: Feature)
    requires PlausibleCounters(c) && f in fs && n >= Budget(fs, c)
    ensures Tried(f, FailRun(fs, c, n))
    decreases n
  {
    if Tried(f, c) {
      TriedForever(fs, c, n, f);
    } else {
      FailTopShrinksBudget(fs, c, f);
      EveryProviderIsTried(fs, FailTop(fs, c), n - 1, f);
    }
  }

  lemma FailTopShrinksBudget(fs: seq<Feature>, c: Counters, f: Feature)
    requires PlausibleCounters(c) && f in fs && !Tried(f, c)
    ensures PlausibleCounters(FailTop(fs, c)) && Budget(fs, FailTop(fs, c)) < Budget(fs, c)
  {
    TopHasPatience(fs, c, f);
    TopIsBest(fs, c);
    var top := Rank(DEFAULT_POLICY, fs, c)[0];
    assert FailTop(fs, c) == Recorded(c, FeatureId(top), false, 0.0);
    FailureIsPlausible(c, FeatureId(top));
    FailureCostsBudget(fs, c, top);
  }

  lemma FailureIsPlausible(c: Counters, id: string)
    requires PlausibleCounters(c)
    ensures PlausibleCounters(Recorded(c, id, false, 0.0))
  {}

  function RecordedSuccesses(fs: seq<Feature>, c: Counters): (n: nat)
  {
    if fs == [] then 0 else Lookup(c, FeatureId(fs[0])).successes + RecordedSuccesses(fs[1..], c)
  }

  /** The budget in plain numbers: one dispatch per provider plus two thirds of the successes. */
  lemma {:induction false} BudgetBound(fs: seq<Feature>, c: Counters)
    requires PlausibleCounters(c)
    ensures 3 * Budget(fs, c) <= 3 * |fs| + 2 * RecordedSuccesses(fs, c)
  {
    if fs != [] {
      BudgetBound(fs[1..], c);
    }
  }
}
