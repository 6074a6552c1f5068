/** The metrics store under concurrency (gateway/ranking.py): writers run `record` under a
    lock, readers compute a score without it, one field access at a time. Any number of
    threads, any interleaving. */
module MetricsProtocol {
  import opened Text
  import opened Ranking
  import opened Bags

  datatype Call = Call(id: string, success: bool, latency: real)

  /** Where a thread stands, with the values it has loaded so far. */
  datatype Pc =
    | Idle
    // record(call)
    | Waiting(call: Call)
    | Locked(call: Call)
    | Entered(call: Call)
    | LoadedInvocations(call: Call, n: nat)
    | CountedInvocation(call: Call)
    | LoadedSuccesses(call: Call, n: nat)
    | CountedSuccess(call: Call)
    | LoadedLatency(call: Call, x: real)
    | Finished(call: Call)
    // score(id); `again` tells the second evaluation of success_rate from the first
    | Found(id: string)
    | RateTest(id: string, again: bool)
    | RateTop(id: string, again: bool)
    | RateBottom(id: string, again: bool, s: nat)
    | LatencyTest(id: string, rate: real)
    | LatencyTop(id: string, rate: real)
    | LatencyBottom(id: string, rate: real, total: real)
    | Scored(id: string, observed: Option<real>, latency: real)
    | Crashed

  datatype Config = Config(m: Counters, lock: Option<nat>, pcs: map<nat, Pc>, log: seq<Call>)

  datatype Action = StartRecord(t: nat, call: Call) | StartScore(t: nat, id: string) | Advance(t: nat)

  const INITIAL := Config(map[], None, map[], [])

  function PcOf(c: Config, t: nat): (pc: Pc)
  {
    if t in c.pcs then c.pcs[t] else Idle
  }

  function Goto(c: Config, t: nat, pc: Pc): (r: Config)
  {
    c.(pcs := c.pcs[t := pc])
  }

  function Set(c: Config, id: string, m: FeatureMetrics): (r: Config)
  {
    c.(m := c.m[id := m])
  }

  /** One atomic step of a thread inside `record`. */
  function WriterStep(c: Config, t: nat): (r: Config)
  {
    match PcOf(c, t)
    case Waiting(call) => if c.lock == None then Goto(c.(lock := Some(t)), t, Locked(call)) else c
    case Locked(call) => Goto(Set(c, call.id, Lookup(c.m, call.id)), t, Entered(call))
    case Entered(call) => Goto(c, t, LoadedInvocations(call, Lookup(c.m, call.id).invocations))
    case LoadedInvocations(call, n) =>
      Goto(Set(c, call.id, Lookup(c.m, call.id).(invocations := n + 1)), t, CountedInvocation(call))
    case CountedInvocation(call) =>
      Goto(c, t, if call.success then LoadedSuccesses(call, Lookup(c.m, call.id).successes) else Finished(call))
    case LoadedSuccesses(call, n) =>
      Goto(Set(c, call.id, Lookup(c.m, call.id).(successes := n + 1)), t, CountedSuccess(call))
    case CountedSuccess(call) => Goto(c, t, LoadedLatency(call, Lookup(c.m, call.id).totalLatency))
    case LoadedLatency(call, x) =>
      Goto(Set(c, call.id, Lookup(c.m, call.id).(totalLatency := x + call.latency)), t, Finished(call))
    case Finished(call) => Goto(c.(lock := None, log := c.log + [call]), t, Idle)
    case _ => c
  }

  /** One atomic field access of a thread inside `score`; a division by zero or a missing
      rate would end in Crashed. */
  function ReaderNext(m: Counters, pc: Pc): (r: Pc)
  {
    match pc
    case Found(id) => if Lookup(m, id).invocations > 0 then RateTest(id, false) else Scored(id, None, 0.0)
    case RateTest(id, again) =>
      if Lookup(m, id).invocations != 0 then RateTop(id, again)
      else if again then Crashed else Scored(id, None, 0.0)
    case RateTop(id, again) => RateBottom(id, again, Lookup(m, id).successes)
    case RateBottom(id, again, s) =>
      var n := Lookup(m, id).invocations;
      if n == 0 then Crashed
      else if again then LatencyTest(id, s as real / n as real) else RateTest(id, true)
    case LatencyTest(id, rate) =>
      if Lookup(m, id).successes != 0 then LatencyTop(id, rate) else Scored(id, Some(rate), 0.0)
    case LatencyTop(id, rate) => LatencyBottom(id, rate, Lookup(m, id).totalLatency)
    case LatencyBottom(id, rate, total) =>
      var n := Lookup(m, id).successes;
      if n == 0 then Crashed else Scored(id, Some(rate), total / n as real)
    case _ => pc
  }

  predicate Resting(pc: Pc) { pc.Idle? || pc.Scored? }

  predicate Reading(pc: Pc)
  {
    pc.Found? || pc.RateTest? || pc.RateTop? || pc.RateBottom? || pc.LatencyTest? || pc.LatencyTop? || pc.LatencyBottom?
  }

  function Step(c: Config, a: Action): (r: Config)
  {
    match a
    case StartRecord(t, call) => if Resting(PcOf(c, t)) then Goto(c, t, Waiting(call)) else c
    case StartScore(t, id) =>
      if Resting(PcOf(c, t)) then Goto(c, t, if id in c.m then Found(id) else Scored(id, None, 0.0)) else c
    case Advance(t) =>
      if Reading(PcOf(c, t)) then Goto(c, t, ReaderNext(c.m, PcOf(c, t))) else WriterStep(c, t)
  }

  /** A run: any finite schedule of actions from the empty store. */
  function Run(actions: seq<Action>): (c: Config)
  {
    if actions == [] then INITIAL
    else Step(Run(actions[..|actions| - 1]), actions[|actions| - 1])
  }

  // ----- what the counters should be -----

  /** The counters of one feature after the calls of a log, one after the other. */
  function Counted(log: seq<Call>, id: string): (m: FeatureMetrics)
  {
    if log == [] then NO_METRICS
    else
      var call := log[|log| - 1];
      var m := Counted(log[..|log| - 1], id);
      if call.id == id then After(m, call.success, call.latency) else m
  }

  predicate Holding(pc: Pc)
  {
    pc.Locked? || pc.Entered? || pc.LoadedInvocations? || pc.CountedInvocation? || pc.LoadedSuccesses?
    || pc.CountedSuccess? || pc.LoadedLatency? || pc.Finished?
  }

  /** The part of the current holder's call that has reached the counters already. */
  function Partial(pc: Pc, id: string, m: FeatureMetrics): (r: FeatureMetrics)
  {
    if !Holding(pc) || pc.call.id != id then m
    else match pc
      case CountedInvocation(_) => m.(invocations := m.invocations + 1)
      case LoadedSuccesses(_, _) => m.(invocations := m.invocations + 1)
      case CountedSuccess(_) => m.(invocations := m.invocations + 1, successes := m.successes + 1)
      case LoadedLatency(_, _) => m.(invocations := m.invocations + 1, successes := m.successes + 1)
      case Finished(call) => After(m, call.success, call.latency)
      case _ => m
  }

  function HolderPc(c: Config): (pc: Pc)
  {
    if c.lock.Some? then PcOf(c, c.lock.value) else Idle
  }

  function Expected(c: Config, id: string): (m: FeatureMetrics)
  {
    Partial(HolderPc(c), id, Counted(c.log, id))
  }

  /** Loaded values are still current while the lock is held. */
  predicate RegistersCurrent(m: Counters, pc: Pc)
  {
    match pc
    case LoadedInvocations(call, n) => n == Lookup(m, call.id).invocations
    case LoadedSuccesses(call, n) => call.success && n == Lookup(m, call.id).successes
    case CountedSuccess(call) => call.success
    case LoadedLatency(call, x) => call.success && x == Lookup(m, call.id).totalLatency
    case _ => true
  }

  predicate Writing(pc: Pc) { pc.Waiting? || Holding(pc) }

  /** What a reader relies on between two field accesses, and what it has computed. */
  ghost predicate ReaderOk(pc: Pc, m: Counters)
  {
    match pc
    case RateTest(id, _) => Lookup(m, id).invocations > 0
    case RateTop(id, _) => Lookup(m, id).invocations > 0
    case RateBottom(id, _, s) => Lookup(m, id).invocations > 0 && s <= Lookup(m, id).invocations
    case LatencyTest(_, rate) => 0.0 <= rate <= 1.0
    case LatencyTop(id, rate) => 0.0 <= rate <= 1.0 && Lookup(m, id).successes > 0
    case LatencyBottom(id, rate, _) => 0.0 <= rate <= 1.0 && Lookup(m, id).successes > 0
    case Scored(_, observed, _) => observed.Some? ==> 0.0 <= observed.value <= 1.0
    case Crashed => false
    case _ => true
  }

  /** The lock is held by exactly the thread inside, counters are those of the completed calls
      and of the part of the holder's call done so far, and loaded values are current. */
  ghost predicate Core(c: Config)
  {
    && (forall t: nat :: Holding(PcOf(c, t)) <==> c.lock == Some(t))
    && (forall id :: Lookup(c.m, id) == Expected(c, id))
    && RegistersCurrent(c.m, HolderPc(c))
  }

  ghost predicate Inv(c: Config)
  {
    Core(c) && forall t: nat :: ReaderOk(PcOf(c, t), c.m)
  }

  lemma {:induction false} CountedIsOrdered(log: seq<Call>, id: string)
    ensures Counted(log, id).successes <= Counted(log, id).invocations
  {
    if log != [] {
      CountedIsOrdered(log[..|log| - 1], id);
    }
  }

  lemma CountersAreOrdered(c: Config, id: string)
    requires Core(c)
    ensures Lookup(c.m, id).successes <= Lookup(c.m, id).invocations
  {
    CountedIsOrdered(c.log, id);
    assert Lookup(c.m, id) == Expected(c, id);
  }

  ghost predicate Grows(m: Counters, m': Counters)
  {
    forall id :: && Lookup(m, id).invocations <= Lookup(m', id).invocations
                 && Lookup(m, id).successes <= Lookup(m', id).successes
  }

  // ----- preservation -----

  lemma QuotientInUnit(s: nat, n: nat)
    requires s <= n && n > 0
    ensures 0.0 <= s as real / n as real <= 1.0
  {}

  lemma ReadKeepsOk(m: Counters, pc: Pc)
    requires Reading(pc) && ReaderOk(pc, m) && Lookup(m, pc.id).successes <= Lookup(m, pc.id).invocations
    ensures ReaderOk(ReaderNext(m, pc), m) && !Holding(ReaderNext(m, pc))
  {
    if pc.RateBottom? {
      QuotientInUnit(pc.s, Lookup(m, pc.id).invocations);
    }
  }

  /** Steps that touch neither counters, lock nor log. */
  lemma QuietStep(c: Config, t: nat, pc: Pc)
    requires Inv(c) && !Holding(PcOf(c, t)) && !Holding(pc) && ReaderOk(pc, c.m)
    ensures Inv(Goto(c, t, pc))
  {
    var c' := Goto(c, t, pc);
    assert HolderPc(c') == HolderPc(c);
    forall u: nat ensures Holding(PcOf(c', u)) <==> c'.lock == Some(u) {
      assert Holding(PcOf(c, u)) <==> c.lock == Some(u);
    }
    forall u: nat ensures ReaderOk(PcOf(c', u), c'.m) {
      assert ReaderOk(PcOf(c, u), c.m);
    }
    forall id ensures Lookup(c'.m, id) == Expected(c', id) {
      assert Lookup(c.m, id) == Expected(c, id);
    }
  }

  lemma AcquireKeepsInv(c: Config, t: nat)
    requires Inv(c) && PcOf(c, t).Waiting? && c.lock == None
    ensures Inv(WriterStep(c, t))
  {
    var c' := WriterStep(c, t);
    forall u: nat ensures Holding(PcOf(c', u)) <==> c'.lock == Some(u) {
      assert Holding(PcOf(c, u)) <==> c.lock == Some(u);
    }
    forall u: nat ensures ReaderOk(PcOf(c', u), c'.m) {
      assert ReaderOk(PcOf(c, u), c.m);
    }
    forall id ensures Lookup(c'.m, id) == Expected(c', id) {
      assert Lookup(c.m, id) == Expected(c, id);
    }
  }

  lemma ReleaseKeepsInv(c: Config, t: nat)
    requires Inv(c) && PcOf(c, t).Finished?
    ensures Inv(WriterStep(c, t))
  {
    var c' := WriterStep(c, t);
    var call := PcOf(c, t).call;
    assert Holding(PcOf(c, t));
    assert c'.log[..|c'.log| - 1] == c.log && c'.log[|c'.log| - 1] == call;
    forall u: nat ensures Holding(PcOf(c', u)) <==> c'.lock == Some(u) {
      assert Holding(PcOf(c, u)) <==> c.lock == Some(u);
    }
    forall u: nat ensures ReaderOk(PcOf(c', u), c'.m) {
      assert ReaderOk(PcOf(c, u), c.m);
    }
    forall id ensures Lookup(c'.m, id) == Expected(c', id) {
      assert Lookup(c.m, id) == Expected(c, id);
    }
  }

  /** Steps of the lock holder between acquiring and releasing. */
  lemma HolderKeepsInv(c: Config, t: nat)
    requires Inv(c) && Holding(PcOf(c, t)) && !PcOf(c, t).Finished?
    ensures Inv(WriterStep(c, t))
  {
    var c' := WriterStep(c, t);
    var pc := PcOf(c, t);
    assert c.lock == Some(t) && c'.lock == c.lock && c'.log == c.log;
    assert HolderPc(c) == pc && Holding(HolderPc(c')) && HolderPc(c').call == pc.call;
    HolderMovesCounters(c, t);
    forall u: nat ensures Holding(PcOf(c', u)) <==> c'.lock == Some(u) {
      assert Holding(PcOf(c, u)) <==> c.lock == Some(u);
    }
    forall u: nat ensures ReaderOk(PcOf(c', u), c'.m) {
      assert ReaderOk(PcOf(c, u), c.m);
    }
  }

  lemma HolderMovesCounters(c: Config, t: nat)
    requires Core(c) && Holding(PcOf(c, t)) && !PcOf(c, t).Finished?
    ensures var c' := WriterStep(c, t);
            && Grows(c.m, c'.m)
            && RegistersCurrent(c'.m, PcOf(c', t))
            && forall id :: Lookup(c'.m, id) == Partial(PcOf(c', t), id, Counted(c'.log, id))
  {
    var c' := WriterStep(c, t);
    var pc := PcOf(c, t);
    assert c.lock == Some(t) && HolderPc(c) == pc;
    forall id ensures Lookup(c'.m, id) == Partial(PcOf(c', t), id, Counted(c'.log, id)) {
      assert Lookup(c.m, id) == Expected(c, id);
    }
  }

  lemma StepKeepsInv(c: Config, a: Action)
    requires Inv(c)
    ensures Inv(Step(c, a))
  {
    var pc := PcOf(c, a.t);
    assert ReaderOk(pc, c.m);
    match a
    case StartRecord(t, call) =>
      if Resting(pc) {
        QuietStep(c, t, Waiting(call));
      }
    case StartScore(t, id) =>
      if Resting(pc) {
        QuietStep(c, t, if id in c.m then Found(id) else Scored(id, None, 0.0));
      }
    case Advance(t) =>
      if Reading(pc) {
        CountersAreOrdered(c, pc.id);
        ReadKeepsOk(c.m, pc);
        QuietStep(c, t, ReaderNext(c.m, pc));
      } else if pc.Finished? {
        ReleaseKeepsInv(c, t);
      } else if Holding(pc) {
        HolderKeepsInv(c, t);
      } else if pc.Waiting? && c.lock == None {
        AcquireKeepsInv(c, t);
      }
  }

  lemma {:induction false} RunKeepsInv(actions: seq<Action>)
    ensures Inv(Run(actions))
  {
    if actions != [] {
      RunKeepsInv(actions[..|actions| - 1]);
      StepKeepsInv(Run(actions[..|actions| - 1]), actions[|actions| - 1]);
    }
  }

  // ----- latencies -----

  /** The calls whose outcome is in the counters: the completed ones and the lock holder's
      once it has stored everything. */
  function StoredCalls(c: Config): (r: seq<Call>)
  {
    c.log + (if HolderPc(c).Finished? then [HolderPc(c).call] else [])
  }

  /** Every latency stored for id lies in [0, b]; failed calls store none. */
  predicate LatenciesWithin(calls: seq<Call>, id: string, b: real)
  {
    forall i :: 0 <= i < |calls| && calls[i].id == id && calls[i].success ==> 0.0 <= calls[i].latency <= b
  }

  predicate InBounds(m: FeatureMetrics, b: real)
  {
    0.0 <= m.totalLatency <= b * m.successes as real
  }

  lemma ScaleUp(b: real, x: nat, y: nat)
    requires b >= 0.0 && x <= y
    ensures b * x as real <= b * y as real
  {
    assert b * y as real == b * x as real + b * (y - x) as real;
  }

  lemma {:induction false} CountedInBounds(log: seq<Call>, id: string, b: real)
    requires b >= 0.0 && LatenciesWithin(log, id, b)
    ensures InBounds(Counted(log, id), b)
  {
    if log != [] {
      CountedInBounds(log[..|log| - 1], id, b);
      var m, call := Counted(log[..|log| - 1], id), log[|log| - 1];
      assert call.id == id && call.success ==> 0.0 <= call.latency <= b;
      assert b * (m.successes + 1) as real == b * m.successes as real + b;
    }
  }

  /** Whatever a writer has done so far, the total is bounded by the stored latencies. */
  lemma CountersInBounds(c: Config, id: string, b: real)
    requires Core(c) && b >= 0.0 && LatenciesWithin(StoredCalls(c), id, b)
    ensures InBounds(Lookup(c.m, id), b)
  {
    var pc, stored := HolderPc(c), StoredCalls(c);
    assert forall i :: 0 <= i < |c.log| ==> c.log[i] == stored[i];
    CountedInBounds(c.log, id, b);
    var m := Counted(c.log, id);
    assert b * (m.successes + 1) as real == b * m.successes as real + b;
    assert Lookup(c.m, id) == Expected(c, id);
    if pc.Finished? {
      assert stored[|c.log|] == pc.call;
    }
  }

  /** What a reader of id has loaded or computed is bounded by b. */
  ghost predicate LatencyOk(pc: Pc, m: Counters, id: string, b: real)
  {
    match pc
    case LatencyBottom(i, _, total) => i == id ==> 0.0 <= total <= b * Lookup(m, id).successes as real
    case Scored(i, _, latency) => i == id ==> 0.0 <= latency <= b
    case _ => true
  }

  ghost predicate AllLatencyOk(c: Config, id: string, b: real)
  {
    forall t: nat :: LatencyOk(PcOf(c, t), c.m, id, b)
  }

  lemma QuotientBounded(x: real, n: nat, b: real)
    requires n > 0 && 0.0 <= x <= b * n as real
    ensures 0.0 <= x / n as real <= b
  {
    var q := x / n as real;
    assert q * n as real == x;
  }

  lemma ReadKeepsLatencyOk(m: Counters, pc: Pc, id: string, b: real)
    requires Reading(pc) && ReaderOk(pc, m) && LatencyOk(pc, m, id, b) && b >= 0.0 && InBounds(Lookup(m, id), b)
    ensures LatencyOk(ReaderNext(m, pc), m, id, b)
  {
    if pc.LatencyBottom? && pc.id == id {
      QuotientBounded(pc.total, Lookup(m, id).successes, b);
    }
  }

  /** Counters only grow, so a total loaded before stays in proportion to the successes. */
  lemma LatencyOkSurvivesGrowth(pc: Pc, m: Counters, m': Counters, id: string, b: real)
    requires LatencyOk(pc, m, id, b) && Grows(m, m') && b >= 0.0
    ensures LatencyOk(pc, m', id, b)
  {
    if pc.LatencyBottom? {
      ScaleUp(b, Lookup(m, id).successes, Lookup(m', id).successes);
    }
  }

  lemma StepGrowsCounters(c: Config, a: Action)
    requires Core(c)
    ensures Grows(c.m, Step(c, a).m)
  {
    if Holding(PcOf(c, a.t)) && !PcOf(c, a.t).Finished? {
      HolderMovesCounters(c, a.t);
    }
  }

  /** Another thread's place is not touched, and the acting thread gains no latency of id
      except by reading. */
  lemma StepMovesOne(c: Config, a: Action, u: nat)
    ensures u != a.t ==> PcOf(Step(c, a), u) == PcOf(c, u)
    ensures a.Advance? && Reading(PcOf(c, a.t)) ==>
              PcOf(Step(c, a), a.t) == ReaderNext(c.m, PcOf(c, a.t)) && Step(c, a).m == c.m
    ensures !(a.Advance? && Reading(PcOf(c, a.t))) ==>
              || PcOf(Step(c, a), a.t) == PcOf(c, a.t)
              || (PcOf(Step(c, a), a.t).Scored? && PcOf(Step(c, a), a.t).latency == 0.0)
              || (!PcOf(Step(c, a), a.t).Scored? && !PcOf(Step(c, a), a.t).LatencyBottom?)
  {}

  lemma StepKeepsLatencyOk(c: Config, a: Action, id: string, b: real)
    requires Inv(c) && b >= 0.0 && LatenciesWithin(StoredCalls(c), id, b) && AllLatencyOk(c, id, b)
    ensures AllLatencyOk(Step(c, a), id, b)
  {
    var c' := Step(c, a);
    StepGrowsCounters(c, a);
    forall u: nat ensures LatencyOk(PcOf(c', u), c'.m, id, b) {
      var pc := PcOf(c, u);
      assert LatencyOk(pc, c.m, id, b) && ReaderOk(pc, c.m);
      StepMovesOne(c, a, u);
      if u == a.t && a.Advance? && Reading(pc) {
        CountersInBounds(c, id, b);
        ReadKeepsLatencyOk(c.m, pc, id, b);
      } else {
        LatencyOkSurvivesGrowth(pc, c.m, c'.m, id, b);
      }
    }
  }

  /** Stored calls stay stored, in order. */
  lemma StepKeepsStored(c: Config, a: Action)
    requires Core(c)
    ensures StoredCalls(c) <= StoredCalls(Step(c, a))
  {
    var pc := PcOf(c, a.t);
    assert Holding(pc) <==> c.lock == Some(a.t);
  }

  lemma {:induction false} RunKeepsLatencyOk(actions: seq<Action>, id: string, b: real)
    requires b >= 0.0 && LatenciesWithin(StoredCalls(Run(actions)), id, b)
    ensures AllLatencyOk(Run(actions), id, b)
  {
    if actions != [] {
      var before, a := actions[..|actions| - 1], actions[|actions| - 1];
      var c := Run(before);
      RunKeepsInv(before);
      StepKeepsStored(c, a);
      assert forall i :: 0 <= i < |StoredCalls(c)| ==> StoredCalls(c)[i] == StoredCalls(Step(c, a))[i];
      RunKeepsLatencyOk(before, id, b);
      StepKeepsLatencyOk(c, a, id, b);
    }
  }

  /** In every interleaving no reader crashes, every observed rate lies in [0, 1] and every
      observed average latency between 0 and the largest latency stored for its feature. */
  lemma ReadersSeePlausibleValues(actions: seq<Action>, t: nat)
    ensures var c := Run(actions);
            var pc := PcOf(c, t);
            && !pc.Crashed?
            && (pc.Scored? && pc.observed.Some? ==> 0.0 <= pc.observed.value <= 1.0)
            && (pc.Scored? ==>
                  forall b :: b >= 0.0 && LatenciesWithin(StoredCalls(c), pc.id, b) ==> 0.0 <= pc.latency <= b)
  {
    var c := Run(actions);
    var pc := PcOf(c, t);
    RunKeepsInv(actions);
    assert ReaderOk(pc, c.m);
    if pc.Scored? {
      forall b | b >= 0.0 && LatenciesWithin(StoredCalls(c), pc.id, b) ensures 0.0 <= pc.latency <= b {
        RunKeepsLatencyOk(actions, pc.id, b);
        assert LatencyOk(PcOf(c, t), c.m, pc.id, b);
      }
    }
  }

  /** At most one thread is inside the locked section. */
  lemma MutualExclusion(actions: seq<Action>, t: nat, u: nat)
    requires Holding(PcOf(Run(actions), t)) && Holding(PcOf(Run(actions), u))
    ensures t == u
  {
    RunKeepsInv(actions);
  }

  // ----- no call is lost -----

  /** The call of `record` that an action makes; a thread makes one call at a time. */
  function NewCall(c: Config, a: Action): (b: multiset<Call>)
  {
    if a.StartRecord? && Resting(PcOf(c, a.t)) then multiset{a.call} else multiset{}
  }

  function Started(actions: seq<Action>): (b: multiset<Call>)
  {
    if actions == [] then multiset{}
    else
      var before, a := actions[..|actions| - 1], actions[|actions| - 1];
      Started(before) + NewCall(Run(before), a)
  }

  /** The calls under way, by thread. */
  function Writers(pcs: map<nat, Pc>): (r: map<nat, Call>)
  {
    map t | t in pcs && Writing(pcs[t]) :: pcs[t].call
  }

  ghost predicate Accounted(c: Config, calls: multiset<Call>)
  {
    calls == multiset(c.log) + Values(Writers(c.pcs))
  }

  lemma WritersGoto(c: Config, t: nat, pc: Pc)
    ensures Writing(pc) ==> Writers(Goto(c, t, pc).pcs) == Writers(c.pcs)[t := pc.call]
    ensures !Writing(pc) ==> Writers(Goto(c, t, pc).pcs) == Writers(c.pcs) - {t}
  {}

  /** Any step but a start or a release leaves the calls under way and the log alone. */
  lemma OtherStepKeepsWriters(c: Config, a: Action)
    requires !(a.StartRecord? && Resting(PcOf(c, a.t))) && !(a.Advance? && PcOf(c, a.t).Finished?)
    ensures Writers(Step(c, a).pcs) == Writers(c.pcs) && Step(c, a).log == c.log
  {
    var c', t := Step(c, a), a.t;
    if c' != c {
      WritersGoto(c, t, PcOf(c', t));
      StepMovesOnlyOne(c, a);
      SameCall(c, a);
    }
  }

  lemma StepMovesOnlyOne(c: Config, a: Action)
    requires Step(c, a) != c
    ensures Step(c, a).pcs == c.pcs[a.t := PcOf(Step(c, a), a.t)]
    ensures !(a.Advance? && PcOf(c, a.t).Finished?) ==> Step(c, a).log == c.log
  {}

  lemma SameCall(c: Config, a: Action)
    requires Step(c, a) != c
    requires !(a.StartRecord? && Resting(PcOf(c, a.t))) && !(a.Advance? && PcOf(c, a.t).Finished?)
    ensures Writing(PcOf(Step(c, a), a.t)) <==> Writing(PcOf(c, a.t))
    ensures Writing(PcOf(c, a.t)) ==> PcOf(Step(c, a), a.t).call == PcOf(c, a.t).call
  {}

  lemma StartIsAccounted(c: Config, t: nat, call: Call, calls: multiset<Call>)
    requires Accounted(c, calls) && Resting(PcOf(c, t))
    ensures Accounted(Goto(c, t, Waiting(call)), calls + multiset{call})
  {
    WritersGoto(c, t, Waiting(call));
    ValuesAdd(Writers(c.pcs), t, call);
  }

  lemma ReleaseIsAccounted(c: Config, t: nat, call: Call, calls: multiset<Call>)
    requires Accounted(c, calls) && PcOf(c, t) == Finished(call)
    ensures Accounted(Goto(c.(lock := None, log := c.log + [call]), t, Idle), calls)
  {
    WritersGoto(c, t, Idle);
    assert t in Writers(c.pcs) && Writers(c.pcs)[t] == call;
    ValuesPeel(Writers(c.pcs), t);
    assert multiset(c.log + [call]) == multiset(c.log) + multiset{call};
  }

  lemma StepKeepsAccount(c: Config, a: Action, calls: multiset<Call>)
    requires Accounted(c, calls)
    ensures Accounted(Step(c, a), calls + NewCall(c, a))
  {
    var pc := PcOf(c, a.t);
    if a.StartRecord? && Resting(pc) {
      StartIsAccounted(c, a.t, a.call, calls);
    } else {
      assert calls + NewCall(c, a) == calls;
      if a.Advance? && pc.Finished? {
        ReleaseIsAccounted(c, a.t, pc.call, calls);
      } else {
        OtherStepKeepsWriters(c, a);
      }
    }
  }

  /** At every moment the calls made are, each counted once, the completed ones and those of the
      threads still inside `record`. */
  lemma {:induction false} EveryCallIsAccountedFor(actions: seq<Action>)
    ensures Started(actions) == multiset(Run(actions).log) + Values(Writers(Run(actions).pcs))
  {
    if actions != [] {
      var before, a := actions[..|actions| - 1], actions[|actions| - 1];
      EveryCallIsAccountedFor(before);
      StepKeepsAccount(Run(before), a, Started(before));
    }
  }

  /** No update is lost: once no writer is under way, the completed calls are all the calls made,
      and each feature's counters are those of running them one after the other. */
  lemma QuiescentCountersAreExact(actions: seq<Action>, id: string)
    requires forall t: nat :: !Writing(PcOf(Run(actions), t))
    ensures Lookup(Run(actions).m, id) == Counted(Run(actions).log, id)
    ensures multiset(Run(actions).log) == Started(actions)
  {
    RunKeepsInv(actions);
    var c := Run(actions);
    assert !Writing(HolderPc(c));
    assert Lookup(c.m, id) == Expected(c, id);
    EveryCallIsAccountedFor(actions);
    assert Writers(c.pcs) == map[] by {
      assert forall t :: t in c.pcs ==> PcOf(c, t) == c.pcs[t];
    }
  }

  // ----- the micro-steps of one undisturbed thread add up to the sequential operations -----

  function Advances(c: Config, t: nat, n: nat): (r: Config)
    decreases n
  {
    if n == 0 then c else Advances(Step(c, Advance(t)), t, n - 1)
  }

  lemma {:induction false} AdvancesSplit(c: Config, t: nat, a: nat, b: nat)
    ensures Advances(c, t, a + b) == Advances(Advances(c, t, a), t, b)
    decreases a
  {
    if a > 0 {
      AdvancesSplit(Step(c, Advance(t)), t, a - 1, b);
    }
  }

  /** Thread t gets from c to d on its own. */
  ghost predicate Reaches(c: Config, t: nat, d: Config)
  {
    exists n: nat :: Advances(c, t, n) == d
  }

  lemma ReachesTransitive(c: Config, t: nat, d: Config, e: Config)
    requires Reaches(c, t, d) && Reaches(d, t, e)
    ensures Reaches(c, t, e)
  {
    var a: nat :| Advances(c, t, a) == d;
    var b: nat :| Advances(d, t, b) == e;
    AdvancesSplit(c, t, a, b);
  }

  lemma TwoSteps(c: Config, t: nat, c1: Config, c2: Config)
    requires Step(c, Advance(t)) == c1 && Step(c1, Advance(t)) == c2
    ensures Reaches(c, t, c2)
  {
    assert Advances(c2, t, 0) == c2;
    assert Advances(c, t, 2) == Advances(c1, t, 1) == c2;
  }

  /** The configuration c with thread t at pc and the given counters, lock and log. */
  function At(c: Config, t: nat, pc: Pc, m: Counters, lock: Option<nat>, log: seq<Call>): (r: Config)
  {
    Config(m, lock, c.pcs[t := pc], log)
  }

  lemma RecordEnters(c: Config, t: nat, call: Call)
    requires c.lock == None && PcOf(c, t) == Waiting(call)
    ensures Reaches(c, t, At(c, t, Entered(call), c.m[call.id := Lookup(c.m, call.id)], Some(t), c.log))
  {
    TwoSteps(c, t, At(c, t, Locked(call), c.m, Some(t), c.log),
             At(c, t, Entered(call), c.m[call.id := Lookup(c.m, call.id)], Some(t), c.log));
  }

  lemma RecordCounts(c: Config, t: nat, call: Call)
    requires PcOf(c, t) == Entered(call)
    ensures var m := Lookup(c.m, call.id);
            var m' := c.m[call.id := m.(invocations := m.invocations + 1)];
            Reaches(c, t, At(c, t, CountedInvocation(call), m', c.lock, c.log))
  {
    var m := Lookup(c.m, call.id);
    TwoSteps(c, t, At(c, t, LoadedInvocations(call, m.invocations), c.m, c.lock, c.log),
             At(c, t, CountedInvocation(call), c.m[call.id := m.(invocations := m.invocations + 1)], c.lock, c.log));
  }

  lemma RecordFails(c: Config, t: nat, call: Call)
    requires PcOf(c, t) == CountedInvocation(call) && !call.success
    ensures Reaches(c, t, At(c, t, Idle, c.m, None, c.log + [call]))
  {
    TwoSteps(c, t, At(c, t, Finished(call), c.m, c.lock, c.log), At(c, t, Idle, c.m, None, c.log + [call]));
  }

  lemma RecordSucceeds(c: Config, t: nat, call: Call)
    requires PcOf(c, t) == CountedInvocation(call) && call.success
    ensures var m := Lookup(c.m, call.id);
            var m' := c.m[call.id := m.(successes := m.successes + 1)];
            Reaches(c, t, At(c, t, CountedSuccess(call), m', c.lock, c.log))
  {
    var m := Lookup(c.m, call.id);
    TwoSteps(c, t, At(c, t, LoadedSuccesses(call, m.successes), c.m, c.lock, c.log),
             At(c, t, CountedSuccess(call), c.m[call.id := m.(successes := m.successes + 1)], c.lock, c.log));
  }

  lemma RecordAddsLatency(c: Config, t: nat, call: Call)
    requires PcOf(c, t) == CountedSuccess(call)
    ensures var m := Lookup(c.m, call.id);
            var m' := c.m[call.id := m.(totalLatency := m.totalLatency + call.latency)];
            Reaches(c, t, At(c, t, Idle, m', None, c.log + [call]))
  {
    var m := Lookup(c.m, call.id);
    var m' := c.m[call.id := m.(totalLatency := m.totalLatency + call.latency)];
    var c2 := At(c, t, Finished(call), m', c.lock, c.log);
    TwoSteps(c, t, At(c, t, LoadedLatency(call, m.totalLatency), c.m, c.lock, c.log), c2);
    RecordReleases(c2, t, call);
    assert At(c2, t, Idle, m', None, c2.log + [call]) == At(c, t, Idle, m', None, c.log + [call]);
    ReachesTransitive(c, t, c2, At(c, t, Idle, m', None, c.log + [call]));
  }

  lemma RecordReleases(c: Config, t: nat, call: Call)
    requires PcOf(c, t) == Finished(call)
    ensures Reaches(c, t, At(c, t, Idle, c.m, None, c.log + [call]))
  {
    OneStep(c, t);
  }

  lemma OneStep(c: Config, t: nat)
    ensures Reaches(c, t, Step(c, Advance(t)))
  {
    assert Advances(c, t, 1) == Step(c, Advance(t));
  }

  /** An undisturbed `record` performs exactly one sequential record and frees the lock. */
  lemma UndisturbedRecord(c: Config, t: nat, call: Call)
    requires c.lock == None && PcOf(c, t) == Waiting(call)
    ensures Reaches(c, t, At(c, t, Idle, Recorded(c.m, call.id, call.success, call.latency), None, c.log + [call]))
  {
    var m := Lookup(c.m, call.id);
    var c2 := At(c, t, Entered(call), c.m[call.id := m], Some(t), c.log);
    RecordEnters(c, t, call);
    var m4 := c2.m[call.id := m.(invocations := m.invocations + 1)];
    var c4 := At(c2, t, CountedInvocation(call), m4, c2.lock, c2.log);
    RecordCounts(c2, t, call);
    ReachesTransitive(c, t, c2, c4);
    if call.success {
      SuccessTail(c4, t, call);
      var c9 := At(c4, t, Idle, c4.m[call.id := After(m, true, call.latency)], None, c4.log + [call]);
      ReachesTransitive(c, t, c4, c9);
      assert c9 == At(c, t, Idle, Recorded(c.m, call.id, true, call.latency), None, c.log + [call]);
    } else {
      var c6 := At(c4, t, Idle, c4.m, None, c4.log + [call]);
      RecordFails(c4, t, call);
      ReachesTransitive(c, t, c4, c6);
      assert c6 == At(c, t, Idle, Recorded(c.m, call.id, false, call.latency), None, c.log + [call]);
    }
  }

  lemma SuccessTail(c: Config, t: nat, call: Call)
    requires PcOf(c, t) == CountedInvocation(call) && call.success
    ensures var m := Lookup(c.m, call.id);
            var m' := m.(successes := m.successes + 1, totalLatency := m.totalLatency + call.latency);
            Reaches(c, t, At(c, t, Idle, c.m[call.id := m'], None, c.log + [call]))
  {
    var m := Lookup(c.m, call.id);
    var counted := m.(successes := m.successes + 1);
    var m' := counted.(totalLatency := m.totalLatency + call.latency);
    var c2 := At(c, t, CountedSuccess(call), c.m[call.id := counted], c.lock, c.log);
    RecordSucceeds(c, t, call);
    RecordAddsLatency(c2, t, call);
    var c5 := At(c2, t, Idle, c2.m[call.id := m'], None, c2.log + [call]);
    ReachesTransitive(c, t, c2, c5);
    assert c5 == At(c, t, Idle, c.m[call.id := m'], None, c.log + [call]);
  }

  lemma ReadOn(c: Config, t: nat, start: Config, pc: Pc)
    requires Reaches(start, t, Goto(c, t, pc)) && Reading(pc)
    ensures Reaches(start, t, Goto(c, t, ReaderNext(c.m, pc)))
  {
    var d := Goto(c, t, pc);
    assert Step(d, Advance(t)) == Goto(c, t, ReaderNext(c.m, pc));
    OneStep(d, t);
    ReachesTransitive(start, t, d, Step(d, Advance(t)));
  }

  lemma RateIsRead(c: Config, t: nat, start: Config, id: string, again: bool)
    requires Reaches(start, t, Goto(c, t, RateTest(id, again))) && Lookup(c.m, id).invocations > 0
    ensures var next := if again then LatencyTest(id, SuccessRate(Lookup(c.m, id)).value) else RateTest(id, true);
            Reaches(start, t, Goto(c, t, next))
  {
    ReadOn(c, t, start, RateTest(id, again));
    ReadOn(c, t, start, RateTop(id, again));
    ReadOn(c, t, start, RateBottom(id, again, Lookup(c.m, id).successes));
  }

  lemma LatencyIsRead(c: Config, t: nat, start: Config, id: string, rate: real)
    requires Reaches(start, t, Goto(c, t, LatencyTest(id, rate)))
    ensures var avg := AvgLatency(Lookup(c.m, id));
            Reaches(start, t, Goto(c, t, Scored(id, Some(rate), if avg.Some? then avg.value else 0.0)))
  {
    ReadOn(c, t, start, LatencyTest(id, rate));
    if Lookup(c.m, id).successes > 0 {
      ReadOn(c, t, start, LatencyTop(id, rate));
      ReadOn(c, t, start, LatencyBottom(id, rate, Lookup(c.m, id).totalLatency));
    }
  }

  /** An undisturbed score ends with exactly the rate and the average of the stored counters. */
  lemma UndisturbedScore(c: Config, t: nat, id: string)
    requires Resting(PcOf(c, t)) && Lookup(c.m, id).successes <= Lookup(c.m, id).invocations
    ensures var avg := AvgLatency(Lookup(c.m, id));
            Reaches(Step(c, StartScore(t, id)), t,
                    Goto(c, t, Scored(id, SuccessRate(Lookup(c.m, id)), if avg.Some? then avg.value else 0.0)))
  {
    var start := Step(c, StartScore(t, id));
    assert Advances(start, t, 0) == start;
    if id in c.m {
      ReadOn(c, t, start, Found(id));
      if c.m[id].invocations > 0 {
        RateIsRead(c, t, start, id, false);
        RateIsRead(c, t, start, id, true);
        LatencyIsRead(c, t, start, id, SuccessRate(c.m[id]).value);
      }
    }
  }
}
