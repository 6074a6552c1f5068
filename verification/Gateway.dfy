/** Dispatch through the gateway (gateway/main.py): providers are filtered, ranked by the
    active policy and the best one is called; outcomes feed the metrics store. */
module Gateway {
  import opened Text
  import opened StableSort
  import opened Catalog
  import opened Ranking
  import opened Composer
  import Failover

  /** What calling a feature can end in. */
  datatype Outcome = Served(output: Bindings, latency: real) | InputRejected | Unavailable

  datatype RankingPolicy = Static | Learned(policy: Policy)

  /** Everything outside the gateway: the catalog, the schema check and the features, whose
      answers may depend on all earlier answers. */
  datatype World = World(
    features: seq<Feature>,
    ranking: RankingPolicy,
    schemaErrors: (Manifest, Bindings) -> seq<string>,
    service: (seq<Outcome>, string, Bindings) -> Outcome)

  datatype State = State(counters: Counters, transcript: seq<Outcome>)

  function RankBy(ranking: RankingPolicy, fs: seq<Feature>, c: Counters): (r: seq<Feature>)
  {
    match ranking
    case Static => RankFeatures(fs)
    case Learned(p) => Rank(p, fs, c)
  }

  function Providers(w: World, capability: string, vendor: Option<string>, version: Option<string>): (r: seq<Feature>)
  {
    Candidates(ListByName(w.features), capability, vendor, version)
  }

  // ----- one dispatch -----

  datatype Dispatched =
    | InvalidInput(errors: seq<string>)
    | RejectedInput
    | NotAvailable
    | Answered(output: Bindings, latency: real)

  /** The common tail of every dispatch: validate, call, record. Only real outcomes of the
      feature are recorded; input the caller got wrong is not. */
  function Dispatch(w: World, s: State, f: Feature, input: Bindings): (r: (State, Dispatched))
  {
    var errors := w.schemaErrors(f.manifest, input);
    if errors != [] then (s, InvalidInput(errors))
    else
      var outcome := w.service(s.transcript, f.manifest.name, input);
      var t := s.transcript + [outcome];
      match outcome
      case InputRejected => (State(s.counters, t), RejectedInput)
      case Unavailable => (State(Recorded(s.counters, FeatureId(f), false, 0.0), t), NotAvailable)
      case Served(output, latency) =>
        (State(Recorded(s.counters, FeatureId(f), true, latency), t), Answered(output, latency))
  }

  const UNAVAILABLE_MESSAGE := "the provider is currently unavailable"

  function ReplyOf(d: Dispatched): (r: Reply)
  {
    match d
    case InvalidInput(errors) => Reply(None, Some("invalid input: " + JoinWith(errors, "; ")))
    case RejectedInput => Reply(None, Some("the feature rejected the input"))
    case NotAvailable => Reply(None, Some(UNAVAILABLE_MESSAGE))
    case Answered(output, _) => Reply(Some(output), None)
  }

  function RunCapability(w: World, s: State, c: Call): (r: (State, Reply))
  {
    var ranked := RankBy(w.ranking, Providers(w, c.capability, c.vendor, c.version), s.counters);
    if ranked == [] then (s, Reply(None, Some("no provider for capability '" + c.capability + "'")))
    else
      var (s', d) := Dispatch(w, s, ranked[0], c.input);
      (s', ReplyOf(d))
  }

  function InvokerOf(w: World): (inv: Invoker<State>)
  {
    (s: State, c: Call) => RunCapability(w, s, c)
  }

  // ----- the gateway as an object around the shared store -----

  class GatewayApp {
    const w: World
    const store: MetricsStore
    var transcript: seq<Outcome>

    constructor (w: World)
      ensures this.w == w && fresh(store) && Now() == State(map[], [])
    {
      this.w := w;
      store := new MetricsStore();
      transcript := [];
    }

    function Now(): (s: State)
      reads this, store
    {
      State(store.m, transcript)
    }

    method Invoke(f: Feature, input: Bindings) returns (d: Dispatched)
      modifies this, store
      ensures (Now(), d) == Dispatch(w, old(Now()), f, input)
    {
      var errors := w.schemaErrors(f.manifest, input);
      if errors != [] {
        return InvalidInput(errors);
      }
      var outcome := w.service(transcript, f.manifest.name, input);
      transcript := transcript + [outcome];
      match outcome {
        case InputRejected => return RejectedInput;
        case Unavailable =>
          store.Record(FeatureId(f), false, 0.0);
          return NotAvailable;
        case Served(output, latency) =>
          store.Record(FeatureId(f), true, latency);
          return Answered(output, latency);
      }
    }

    method Call(c: Call) returns (r: Reply)
      modifies this, store
      ensures (Now(), r) == RunCapability(w, old(Now()), c)
    {
      var ranked := RankBy(w.ranking, Providers(w, c.capability, c.vendor, c.version), store.m);
      if ranked == [] {
        return Reply(None, Some("no provider for capability '" + c.capability + "'"));
      }
      var d := Invoke(ranked[0], c.input);
      r := ReplyOf(d);
    }

    /** The pipeline loop, calling the shared gateway at every step. */
    method InvokeComposite(c: Composite, input: Bindings) returns (r: Result)
      modifies this, store
      ensures (Now(), r) == Run(InvokerOf(w), old(Now()), c, input)
    {
      var ctx: Bindings := map["input" := Dict(input)];
      var trace := [];
      ghost var inv := InvokerOf(w);
      ghost var goal := RunSteps(inv, Start(Now(), input), c.steps);
      for i := 0 to |c.steps|
        invariant RunSteps(inv, Progress(Now(), ctx, trace, None), c.steps[i..]) == goal
      {
        var step := c.steps[i];
        ghost var p := Progress(Now(), ctx, trace, None);
        assert c.steps[i..][0] == step && c.steps[i..][1..] == c.steps[i + 1..];
        var gathered := ComputeGather(step.inputs, ctx);
        if gathered.Unresolved? {
          return Result(c.name, map[], trace, Some(BadReference(Some(step.name), gathered.ref)));
        }
        var reply := Call(CallOf(step, gathered.values));
        assert inv(p.state, CallOf(step, gathered.values)) == (Now(), reply);
        if Failed(reply) {
          return Result(c.name, map[], trace, Some(StepFailed(step.name, Message(reply))));
        }
        ctx := ctx[step.name := Dict(reply.output.value)];
        trace := trace + [Entry(step.name, step.capability, reply.output.value)];
        assert RunStep(inv, p, step) == Progress(Now(), ctx, trace, None);
      }
      assert c.steps[|c.steps|..] == [];
      var out := ComputeGather(c.output, ctx);
      match out {
        case Unresolved(ref) => return Result(c.name, map[], trace, Some(BadReference(None, ref)));
        case Built(values) => return Result(c.name, values, trace, None);
      }
    }
  }

  // ----- accounting -----

  function Add(a: FeatureMetrics, b: FeatureMetrics): (r: FeatureMetrics)
  {
    FeatureMetrics(a.invocations + b.invocations, a.successes + b.successes, a.totalLatency + b.totalLatency)
  }

  /** The counters of all features together. */
  ghost function Total(c: Counters): (m: FeatureMetrics)
    decreases |c|
  {
    if c == map[] then NO_METRICS
    else
      var id :| id in c;
      Add(c[id], Total(c - {id}))
  }

  lemma AddSwaps(a: FeatureMetrics, b: FeatureMetrics, m: FeatureMetrics)
    ensures Add(a, Add(b, m)) == Add(b, Add(a, m))
  {}

  lemma {:induction false} TotalPeels(c: Counters, id: string)
    requires id in c
    ensures Total(c) == Add(c[id], Total(c - {id}))
    decreases |c|
  {
    var k :| k in c && Total(c) == Add(c[k], Total(c - {k}));
    if k != id {
      var rest := c - {k} - {id};
      assert c - {id} - {k} == rest;
      assert Total(c - {k}) == Add(c[id], Total(rest)) by { TotalPeels(c - {k}, id); }
      assert Total(c - {id}) == Add(c[k], Total(rest)) by { TotalPeels(c - {id}, k); }
      AddSwaps(c[k], c[id], Total(rest));
    }
  }

  /** One record moves the grand total by exactly one record. */
  lemma TotalRecorded(c: Counters, id: string, success: bool, latency: real)
    ensures Total(Recorded(c, id, success, latency)) == After(Total(c), success, latency)
  {
    var c' := Recorded(c, id, success, latency);
    TotalPeels(c', id);
    if id in c {
      TotalPeels(c, id);
      assert c' - {id} == c - {id};
    } else {
      assert c' - {id} == c;
    }
  }

  /** The served calls of a transcript, as outputs and as summed latency. */
  function Outputs(t: seq<Outcome>): (r: seq<Bindings>)
  {
    if t == [] then []
    else Outputs(t[..|t| - 1]) + (match t[|t| - 1] case Served(o, _) => [o] case _ => [])
  }

  function Latency(t: seq<Outcome>): (r: real)
  {
    if t == [] then 0.0
    else Latency(t[..|t| - 1]) + (match t[|t| - 1] case Served(_, l) => l case _ => 0.0)
  }

  function TraceOutputs(trace: seq<Entry>): (r: seq<Bindings>)
    ensures |r| == |trace|
  {
    seq(|trace|, i requires 0 <= i < |trace| => trace[i].output)
  }

  /** What a run has added so far, relative to the state it started from. */
  ghost predicate Accounted(before: State, after: State, trace: seq<Entry>, unavailable: bool)
  {
    && before.transcript <= after.transcript
    && var added := after.transcript[|before.transcript|..];
       var b, a := Total(before.counters), Total(after.counters);
       && Outputs(added) == TraceOutputs(trace)
       && a.successes == b.successes + |trace|
       && a.invocations == b.invocations + |trace| + (if unavailable then 1 else 0)
       && a.totalLatency == b.totalLatency + Latency(added)
  }

  predicate EndedUnavailable(error: Option<RunError>)
  {
    error.Some? && error.value.StepFailed? && error.value.message == UNAVAILABLE_MESSAGE
  }

  /** The effect of a dispatch on the grand total and the transcript. */
  ghost predicate Records(s: State, s': State, d: Dispatched)
  {
    match d
    case Answered(o, l) =>
      Total(s'.counters) == After(Total(s.counters), true, l) && s'.transcript == s.transcript + [Served(o, l)]
    case NotAvailable =>
      Total(s'.counters) == After(Total(s.counters), false, 0.0) && s'.transcript == s.transcript + [Unavailable]
    case RejectedInput => s'.counters == s.counters && s'.transcript == s.transcript + [InputRejected]
    case InvalidInput(_) => s' == s
  }

  /** A dispatch records a success when the feature answers, a failure when it is
      unavailable, and nothing when the input was at fault. */
  lemma DispatchRecords(w: World, s: State, f: Feature, input: Bindings)
    ensures Records(s, Dispatch(w, s, f, input).0, Dispatch(w, s, f, input).1)
  {
    if w.schemaErrors(f.manifest, input) == [] {
      match w.service(s.transcript, f.manifest.name, input)
      case InputRejected =>
      case Unavailable => TotalRecorded(s.counters, FeatureId(f), false, 0.0);
      case Served(_, latency) => TotalRecorded(s.counters, FeatureId(f), true, latency);
    }
  }

  /** Whose counters a dispatch changes and how: without a call nothing, otherwise those of the
      feature called, by its outcome; input is refused exactly when the schema check objects. */
  lemma DispatchIsLocal(w: World, s: State, f: Feature, input: Bindings, id: string)
    ensures var (s', d) := Dispatch(w, s, f, input);
            var errors := w.schemaErrors(f.manifest, input);
            && (d.InvalidInput? <==> errors != []) && (d.InvalidInput? ==> d.errors == errors && s' == s)
            && (errors == [] ==>
                  var o := w.service(s.transcript, f.manifest.name, input);
                  var m, m' := Lookup(s.counters, id), Lookup(s'.counters, id);
                  && s'.transcript == s.transcript + [o]
                  && (d.RejectedInput? <==> o.InputRejected?) && (d.NotAvailable? <==> o.Unavailable?)
                  && (o.Served? ==> d == Answered(o.output, o.latency))
                  && (id != FeatureId(f) || o.InputRejected? ==> m' == m)
                  && (id == FeatureId(f) && o.Unavailable? ==>
                        m' == FeatureMetrics(m.invocations + 1, m.successes, m.totalLatency))
                  && (id == FeatureId(f) && o.Served? ==>
                        m' == FeatureMetrics(m.invocations + 1, m.successes + 1, m.totalLatency + o.latency)))
  {}

  /** The reply to a capability call, case by case. */
  lemma CallReplies(w: World, s: State, c: Call)
    ensures var ranked := RankBy(w.ranking, Providers(w, c.capability, c.vendor, c.version), s.counters);
            var (s', r) := RunCapability(w, s, c);
            if ranked == [] then s' == s && r == Reply(None, Some("no provider for capability '" + c.capability + "'"))
            else
              var errors := w.schemaErrors(ranked[0].manifest, c.input);
              if errors != [] then s' == s && r == Reply(None, Some("invalid input: " + JoinWith(errors, "; ")))
              else match w.service(s.transcript, ranked[0].manifest.name, c.input)
                case Served(output, _) => r == Reply(Some(output), None)
                case Unavailable => r == Reply(None, Some("the provider is currently unavailable"))
                case InputRejected => r == Reply(None, Some("the feature rejected the input"))
  {}

  lemma MessagesDiffer(d: Dispatched, capability: string)
    ensures ReplyOf(d).error == Some(UNAVAILABLE_MESSAGE) <==> d.NotAvailable?
    ensures "no provider for capability '" + capability + "'" != UNAVAILABLE_MESSAGE
    ensures Failed(ReplyOf(d)) <==> !d.Answered?
  {
    assert UNAVAILABLE_MESSAGE[0] == 't' && UNAVAILABLE_MESSAGE[4] == 'p';
    assert ("no provider for capability '" + capability + "'")[0] == 'n';
    match d
    case InvalidInput(errors) => assert ("invalid input: " + JoinWith(errors, "; "))[0] == 'i';
    case RejectedInput => assert "the feature rejected the input"[4] == 'f';
    case _ =>
  }

  /** One dispatch on top of an accounted run. */
  lemma DispatchAccounts(before: State, s: State, trace: seq<Entry>, s': State, d: Dispatched, entry: Entry)
    requires Accounted(before, s, trace, false) && Records(s, s', d)
    requires d.Answered? ==> entry.output == d.output
    ensures Accounted(before, s', if d.Answered? then trace + [entry] else trace, d.NotAvailable?)
  {
    if !d.InvalidInput? {
      ExtendTranscript(before.transcript, s.transcript, s'.transcript);
    }
    if d.Answered? {
      assert TraceOutputs(trace + [entry]) == TraceOutputs(trace) + [d.output];
    }
  }

  lemma StepAccounts(w: World, before: State, p: Progress<State>, step: Step)
    requires p.error.None? && Accounted(before, p.state, p.trace, false)
    ensures var q := RunStep(InvokerOf(w), p, step);
            Accounted(before, q.state, q.trace, EndedUnavailable(q.error))
  {
    var g := Gather(step.inputs, p.ctx, map[]);
    if g.Built? {
      var c := CallOf(step, g.values);
      var ranked := RankBy(w.ranking, Providers(w, c.capability, c.vendor, c.version), p.state.counters);
      if ranked == [] {
        MessagesDiffer(NotAvailable, c.capability);
      } else {
        var r := Dispatch(w, p.state, ranked[0], c.input);
        DispatchRecords(w, p.state, ranked[0], c.input);
        var entry := Entry(step.name, step.capability, if r.1.Answered? then r.1.output else map[]);
        DispatchAccounts(before, p.state, p.trace, r.0, r.1, entry);
        MessagesDiffer(r.1, c.capability);
        assert InvokerOf(w)(p.state, c) == (r.0, ReplyOf(r.1));
      }
    }
  }

  lemma ExtendTranscript(t0: seq<Outcome>, t1: seq<Outcome>, t2: seq<Outcome>)
    requires t0 <= t1 && |t2| == |t1| + 1 && t2[..|t1|] == t1
    ensures t0 <= t2
    ensures var a, b, o := t1[|t0|..], t2[|t0|..], t2[|t1|];
            && Outputs(b) == Outputs(a) + (match o case Served(x, _) => [x] case _ => [])
            && Latency(b) == Latency(a) + (match o case Served(_, l) => l case _ => 0.0)
  {
    var a, b := t1[|t0|..], t2[|t0|..];
    assert b == a + [t2[|t1|]];
    assert b[..|b| - 1] == a;
  }

  lemma {:induction false} StepsAccount(w: World, before: State, p: Progress<State>, steps: seq<Step>)
    requires p.error.None? && Accounted(before, p.state, p.trace, false)
    ensures var q := RunSteps(InvokerOf(w), p, steps);
            Accounted(before, q.state, q.trace, EndedUnavailable(q.error))
    decreases |steps|
  {
    if steps != [] {
      StepAccounts(w, before, p, steps[0]);
      var q := RunStep(InvokerOf(w), p, steps[0]);
      if q.error.None? {
        StepsAccount(w, before, q, steps[1..]);
      }
    }
  }

  /** Over a whole composite run the store gains one success per trace entry, one more
      invocation exactly when the run ended on an unavailable provider, and the latency of the
      traced calls; the trace shows their outputs in order. */
  lemma CompositeRunAccounts(w: World, s: State, c: Composite, input: Bindings)
    ensures var (s', r) := Run(InvokerOf(w), s, c, input);
            Accounted(s, s', r.trace, EndedUnavailable(r.error))
  {
    assert s.transcript[|s.transcript|..] == [];
    assert TraceOutputs([]) == [];
    StepsAccount(w, s, Start(s, input), c.steps);
  }

  // ----- conservation over whole histories -----

  /** One record per answered or unavailable call, none for rejected input. */
  function CountOutcome(m: FeatureMetrics, o: Outcome): (r: FeatureMetrics)
  {
    match o
    case Served(_, latency) => After(m, true, latency)
    case Unavailable => After(m, false, 0.0)
    case InputRejected => m
  }

  /** What a transcript should have left in the store. */
  function Tally(t: seq<Outcome>): (m: FeatureMetrics)
  {
    if t == [] then NO_METRICS else CountOutcome(Tally(t[..|t| - 1]), t[|t| - 1])
  }

  ghost predicate Conserved(s: State)
  {
    Total(s.counters) == Tally(s.transcript)
  }

  lemma DispatchConserves(w: World, s: State, f: Feature, input: Bindings)
    requires Conserved(s)
    ensures Conserved(Dispatch(w, s, f, input).0)
  {
    DispatchRecords(w, s, f, input);
    RecordsConserve(s, Dispatch(w, s, f, input).0, Dispatch(w, s, f, input).1);
  }

  lemma RecordsConserve(s: State, s': State, d: Dispatched)
    requires Conserved(s) && Records(s, s', d)
    ensures Conserved(s')
  {
    match d
    case Answered(o, l) => TallyExtends(s.transcript, Served(o, l));
    case NotAvailable => TallyExtends(s.transcript, Unavailable);
    case RejectedInput => TallyExtends(s.transcript, InputRejected);
    case InvalidInput(_) =>
  }

  lemma TallyExtends(t: seq<Outcome>, o: Outcome)
    ensures Tally(t + [o]) == CountOutcome(Tally(t), o)
  {
    assert (t + [o])[..|t + [o]| - 1] == t;
  }

  lemma CallConserves(w: World, s: State, c: Call)
    requires Conserved(s)
    ensures Conserved(RunCapability(w, s, c).0)
  {
    var ranked := RankBy(w.ranking, Providers(w, c.capability, c.vendor, c.version), s.counters);
    if ranked != [] {
      DispatchConserves(w, s, ranked[0], c.input);
    }
  }

  lemma {:induction false} StepsConserve(w: World, p: Progress<State>, steps: seq<Step>)
    requires Conserved(p.state)
    ensures Conserved(RunSteps(InvokerOf(w), p, steps).state)
    decreases |steps|
  {
    if steps != [] && p.error.None? {
      var q := RunStep(InvokerOf(w), p, steps[0]);
      var g := Gather(steps[0].inputs, p.ctx, map[]);
      if g.Built? {
        CallConserves(w, p.state, CallOf(steps[0], g.values));
        assert q.state == RunCapability(w, p.state, CallOf(steps[0], g.values)).0;
      }
      StepsConserve(w, q, steps[1..]);
    }
  }

  /** Every way a request reaches the store: a named feature, a capability, a composite. */
  datatype Request =
    | ToFeature(feature: Feature, input: Bindings)
    | ToCapability(call: Call)
    | ToComposite(composite: Composite, input: Bindings)

  function Serve(w: World, s: State, r: Request): (s': State)
  {
    match r
    case ToFeature(f, input) => Dispatch(w, s, f, input).0
    case ToCapability(call) => RunCapability(w, s, call).0
    case ToComposite(c, input) => Run(InvokerOf(w), s, c, input).0
  }

  function ServeAll(w: World, requests: seq<Request>): (s: State)
  {
    if requests == [] then State(map[], [])
    else Serve(w, ServeAll(w, requests[..|requests| - 1]), requests[|requests| - 1])
  }

  /** After any history of requests the store holds exactly the recorded outcomes of all calls
      ever made: nothing lost, nothing counted twice, whatever the features answered. */
  lemma {:induction false} StoreIsConserved(w: World, requests: seq<Request>)
    ensures Conserved(ServeAll(w, requests))
  {
    if requests != [] {
      var s := ServeAll(w, requests[..|requests| - 1]);
      StoreIsConserved(w, requests[..|requests| - 1]);
      match requests[|requests| - 1]
      case ToFeature(f, input) => DispatchConserves(w, s, f, input);
      case ToCapability(call) => CallConserves(w, s, call);
      case ToComposite(c, input) => StepsConserve(w, Start(s, input), c.steps);
    }
  }

  // ----- who served a composite's steps -----

  lemma ProvidersExactly(w: World, capability: string, vendor: Option<string>, version: Option<string>, f: Feature)
    ensures f in Providers(w, capability, vendor, version)
       <==> f in w.features && Admissible(f, capability, vendor, version)
  {
    var listed := ListByName(w.features);
    CandidatesMembers(listed, capability, vendor, version, f);
    SortPermutes(w.features, NameLe);
    assert f in listed <==> f in multiset(listed);
    assert f in w.features <==> f in multiset(w.features);
  }

  lemma RankedIsProvider(ranking: RankingPolicy, fs: seq<Feature>, c: Counters)
    requires RankBy(ranking, fs, c) != []
    ensures RankBy(ranking, fs, c)[0] in fs
  {
    var r := RankBy(ranking, fs, c);
    match ranking
    case Static => SortPermutes(fs, BaselineLe);
    case Learned(p) => SortPermutes(fs, RankLe(p, c, RankFeatures(fs)));
    assert r[0] in multiset(r);
  }

  /** The entry's output is what a feature that offers the step's capability and honours its pins
      answered to an input it does not object to. */
  ghost predicate ServedBy(w: World, step: Step, entry: Entry, f: Feature)
  {
    && f in w.features && Admissible(f, step.capability, step.vendor, step.version)
    && entry.step == step.name && entry.capability == step.capability
    && exists t, input, latency :: && w.schemaErrors(f.manifest, input) == []
                                   && w.service(t, f.manifest.name, input) == Served(entry.output, latency)
  }

  ghost predicate HonoursPins(w: World, step: Step, entry: Entry)
  {
    exists f :: ServedBy(w, step, entry, f)
  }

  lemma StepIsServed(w: World, p: Progress<State>, step: Step)
    requires p.error.None? && RunStep(InvokerOf(w), p, step).error.None?
    ensures var q := RunStep(InvokerOf(w), p, step);
            |q.trace| == |p.trace| + 1 && q.trace[..|p.trace|] == p.trace
            && HonoursPins(w, step, q.trace[|p.trace|])
  {
    var g := Gather(step.inputs, p.ctx, map[]);
    var c := CallOf(step, g.values);
    var f := ReplyIsServed(w, p.state, c);
    assert InvokerOf(w)(p.state, c) == RunCapability(w, p.state, c);
    var q := RunStep(InvokerOf(w), p, step);
    assert q.trace == p.trace + [Entry(step.name, step.capability, RunCapability(w, p.state, c).1.output.value)];
    assert ServedBy(w, step, q.trace[|p.trace|], f);
  }

  lemma ReplyIsServed(w: World, s: State, c: Call) returns (f: Feature)
    requires !Failed(RunCapability(w, s, c).1)
    ensures f in w.features && Admissible(f, c.capability, c.vendor, c.version)
    ensures w.schemaErrors(f.manifest, c.input) == []
    ensures var output := RunCapability(w, s, c).1.output.value;
            exists latency :: w.service(s.transcript, f.manifest.name, c.input) == Served(output, latency)
  {
    var fs := Providers(w, c.capability, c.vendor, c.version);
    var ranked := RankBy(w.ranking, fs, s.counters);
    assert ranked != [];
    f := ranked[0];
    RankedIsProvider(w.ranking, fs, s.counters);
    ProvidersExactly(w, c.capability, c.vendor, c.version, f);
    MessagesDiffer(Dispatch(w, s, f, c.input).1, c.capability);
    DispatchIsLocal(w, s, f, c.input, "");
    var o := w.service(s.transcript, f.manifest.name, c.input);
    assert o == Served(o.output, o.latency);
  }

  lemma {:induction false} StepsAreServed(w: World, p: Progress<State>, steps: seq<Step>, i: nat)
    requires p.error.None?
    requires var q := RunSteps(InvokerOf(w), p, steps); |p.trace| <= i < |q.trace|
    ensures var q := RunSteps(InvokerOf(w), p, steps);
            i - |p.trace| < |steps| && HonoursPins(w, steps[i - |p.trace|], q.trace[i])
    decreases |steps|
  {
    if steps != [] {
      var p1 := RunStep(InvokerOf(w), p, steps[0]);
      if p1.error.None? {
        StepIsServed(w, p, steps[0]);
        if i == |p.trace| {
          TraceOnlyGrows(w, p1, steps[1..]);
        } else {
          StepsAreServed(w, p1, steps[1..], i);
        }
      }
    }
  }

  lemma {:induction false} TraceOnlyGrows(w: World, p: Progress<State>, steps: seq<Step>)
    ensures p.trace <= RunSteps(InvokerOf(w), p, steps).trace
    decreases |steps|
  {
    if steps != [] && p.error.None? {
      TraceOnlyGrows(w, RunStep(InvokerOf(w), p, steps[0]), steps[1..]);
    }
  }

  /** Every traced step of a composite was served by a feature that its own pins admit. */
  lemma TracedStepsHonourPins(w: World, s: State, c: Composite, input: Bindings, i: nat)
    requires i < |Run(InvokerOf(w), s, c, input).1.trace|
    ensures i < |c.steps| && HonoursPins(w, c.steps[i], Run(InvokerOf(w), s, c, input).1.trace[i])
  {
    StepsAreServed(w, Start(s, input), c.steps, i);
  }

  // ----- the gateway's choice -----

  lemma {:induction false} TiesSorted<T(!new)>(s: seq<T>, k: T, le: (T, T) -> bool, order: (T, T) -> bool)
    requires Sorted(s, order)
    ensures Sorted(Ties(s, k, le), order) && forall x :: x in Ties(s, k, le) ==> x in s
  {
    if s != [] {
      var rest := Ties(s[1..], k, le);
      TiesSorted(s[1..], k, le, order);
      forall j | 0 <= j < |rest| ensures order(s[0], rest[j]) {
        assert rest[j] in rest && rest[j] in s[1..];
        var i :| 0 <= i < |s[1..]| && s[1..][i] == rest[j];
        assert s[1..][i] == s[i + 1];
      }
    }
  }

  /** Features the static ranking cannot tell apart come in the order of their names. */
  lemma StaticTiesByName(w: World, capability: string, vendor: Option<string>, version: Option<string>, k: Feature)
    ensures Sorted(Ties(RankFeatures(Providers(w, capability, vendor, version)), k, BaselineLe), NameLe)
  {
    var fs := Providers(w, capability, vendor, version);
    NameOrder();
    SortSorts(w.features, NameLe);
    CandidatesSorted(ListByName(w.features), capability, vendor, version);
    BaselineIsPreorder();
    SortIsStable(fs, k, BaselineLe);
    TiesSorted(fs, k, BaselineLe, NameLe);
  }

  lemma NameOrder()
    ensures TotalPreorder(NameLe)
  {
    forall f, g ensures NameLe(f, g) || NameLe(g, f) {
      LexTotal(Codes(f.manifest.name), Codes(g.manifest.name));
    }
    forall f, g, h | NameLe(f, g) && NameLe(g, h) ensures NameLe(f, h) {
      LexTransitive(Codes(f.manifest.name), Codes(g.manifest.name), Codes(h.manifest.name));
    }
  }

  lemma CandidatesSorted(fs: seq<Feature>, capability: string, vendor: Option<string>, version: Option<string>)
    requires Sorted(fs, NameLe)
    ensures Sorted(Candidates(fs, capability, vendor, version), NameLe)
  {
    var c0 := Filter(fs, Provides(capability));
    FilterSorted(fs, Provides(capability), NameLe);
    var c1 := c0;
    if Pinned(vendor) {
      FilterSorted(c0, SoldBy(vendor.value), NameLe);
      c1 := Filter(c0, SoldBy(vendor.value));
    }
    if Pinned(version) {
      FilterSorted(c1, InRange(version.value), NameLe);
    }
  }

  /** Under the static policy the gateway and the catalog's `resolve` pick features with equal
      keys, although they read differently ordered lists. */
  lemma StaticChoiceMatchesResolve(
    w: World, c: Counters, capability: string, vendor: Option<string>, version: Option<string>)
    ensures var ranked := RankBy(Static, Providers(w, capability, vendor, version), c);
            var r := ResolveFeature(w.features, capability, vendor, version);
            && (ranked != [] <==> r.Some?)
            && (ranked != [] ==> Admissible(ranked[0], capability, vendor, version) && SameKey(ranked[0], r.value))
            && (ranked != [] && DistinctKeys(w.features) ==> ranked[0] == r.value)
  {
    SortPermutes(w.features, NameLe);
    ResolveIgnoresListOrder(w.features, ListByName(w.features), capability, vendor, version);
    ResolvePicksBest(ListByName(w.features), capability, vendor, version);
    if ResolveFeature(w.features, capability, vendor, version).Some? {
      BaselineIsTotal(ResolveFeature(w.features, capability, vendor, version).value,
                      ResolveFeature(ListByName(w.features), capability, vendor, version).value);
    }
  }

  lemma UnavailableReply(w: World, s: State, c: Call)
    requires RunCapability(w, s, c).1.error == Some(UNAVAILABLE_MESSAGE)
    ensures var ranked := RankBy(w.ranking, Providers(w, c.capability, c.vendor, c.version), s.counters);
            && ranked != []
            && RunCapability(w, s, c).0.counters == Recorded(s.counters, FeatureId(ranked[0]), false, 0.0)
  {
    var ranked := RankBy(w.ranking, Providers(w, c.capability, c.vendor, c.version), s.counters);
    MessagesDiffer(NotAvailable, c.capability);
    if ranked != [] {
      MessagesDiffer(Dispatch(w, s, ranked[0], c.input).1, c.capability);
    }
  }

  /** A dispatch by capability that finds its provider unavailable is one step of the failover
      loop, so the bound on trying every provider applies to the gateway. */
  lemma UnavailableDispatchIsFailTop(w: World, s: State, c: Call)
    requires w.ranking == Learned(DEFAULT_POLICY) && RunCapability(w, s, c).1.error == Some(UNAVAILABLE_MESSAGE)
    ensures var fs := Providers(w, c.capability, c.vendor, c.version);
            fs != [] && RunCapability(w, s, c).0.counters == Failover.FailTop(fs, s.counters)
  {
    var fs := Providers(w, c.capability, c.vendor, c.version);
    UnavailableReply(w, s, c);
    SortPermutes(fs, RankLe(DEFAULT_POLICY, s.counters, RankFeatures(fs)));
  }

  function CallAll(inv: Invoker<State>, s: State, calls: seq<Call>): (r: State)
    decreases |calls|
  {
    if calls == [] then s else CallAll(inv, inv(s, calls[0]).0, calls[1..])
  }

  predicate FindsUnavailable(r: Reply) { r.error == Some(UNAVAILABLE_MESSAGE) }

  /** Each of the calls, made one after the other, finds its provider unavailable. */
  predicate KeepsFailing(inv: Invoker<State>, s: State, calls: seq<Call>)
    decreases |calls|
  {
    calls == [] ||
    (var (s', r) := inv(s, calls[0]);
     FindsUnavailable(r) && KeepsFailing(inv, s', calls[1..]))
  }

  /** Calls for the same capability under the same pins, with any inputs. */
  predicate AskFor(calls: seq<Call>, capability: string, vendor: Option<string>, version: Option<string>)
  {
    forall i :: 0 <= i < |calls| ==>
      calls[i].capability == capability && calls[i].vendor == vendor && calls[i].version == version
  }

  /** In every world, as long as the providers tried keep failing, repeated calls reach every
      provider within the budget the recorded successes allow. */
  lemma OutageReachesEveryProvider(
    w: World, s: State, capability: string, vendor: Option<string>, version: Option<string>,
    calls: seq<Call>, f: Feature)
    requires w.ranking == Learned(DEFAULT_POLICY) && PlausibleCounters(s.counters)
    requires AskFor(calls, capability, vendor, version) && KeepsFailing(InvokerOf(w), s, calls)
    requires var fs := Providers(w, capability, vendor, version);
             f in fs && |calls| >= Failover.Budget(fs, s.counters)
    ensures Failover.Tried(f, CallAll(InvokerOf(w), s, calls).counters)
  {
    var fs := Providers(w, capability, vendor, version);
    forall i, t | 0 <= i < |calls| && FindsUnavailable(InvokerOf(w)(t, calls[i]).1)
      ensures InvokerOf(w)(t, calls[i]).0.counters == Failover.FailTop(fs, t.counters)
    {
      UnavailableDispatchIsFailTop(w, t, calls[i]);
    }
    FailingCallsAreFailRun(InvokerOf(w), s, calls, fs);
    Failover.EveryProviderIsTried(fs, s.counters, |calls|, f);
  }

  /** An unavailable provider is recorded as the failover loop records it. */
  ghost predicate FailsOver(inv: Invoker<State>, calls: seq<Call>, fs: seq<Feature>)
    requires fs != []
  {
    forall i, t :: 0 <= i < |calls| && FindsUnavailable(inv(t, calls[i]).1) ==>
      inv(t, calls[i]).0.counters == Failover.FailTop(fs, t.counters)
  }

  lemma {:induction false} FailingCallsAreFailRun(inv: Invoker<State>, s: State, calls: seq<Call>, fs: seq<Feature>)
    requires KeepsFailing(inv, s, calls) && fs != [] && FailsOver(inv, calls, fs)
    ensures CallAll(inv, s, calls).counters == Failover.FailRun(fs, s.counters, |calls|)
    decreases |calls|
  {
    if calls != [] {
      var s' := inv(s, calls[0]).0;
      assert s'.counters == Failover.FailTop(fs, s.counters);
      assert forall i :: 0 <= i < |calls[1..]| ==> calls[1..][i] == calls[i + 1];
      FailingCallsAreFailRun(inv, s', calls[1..], fs);
      Failover.FailRunStep(fs, s.counters, |calls|);
    }
  }
}
