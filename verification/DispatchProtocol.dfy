/** Requests overlapping at their await points (gateway/main.py): a dispatch chooses its
    provider from the counters at hand, waits for the feature, and records when the answer
    comes, while other requests do the same in between. */
module DispatchProtocol {
  import opened Text
  import opened StableSort
  import opened Catalog
  import opened Ranking
  import opened Composer
  import opened Gateway
  import opened Bags

  /** A finished call: whose it was and how it ended. */
  datatype Done = Done(feature: Feature, outcome: Outcome)

  datatype Floor = Floor(counters: Counters, pending: map<nat, Feature>, done: seq<Done>)

  datatype Event =
    | Arrive(t: nat, call: Call)
    | ArriveAt(t: nat, feature: Feature, input: Bindings)
    | Answer(t: nat, outcome: Outcome)

  const QUIET := Floor(map[], map[], [])

  /** The provider a capability request settles on, given the counters at that moment. */
  function Choice(w: World, c: Counters, call: Call): (r: Option<Feature>)
  {
    var ranked := RankBy(w.ranking, Providers(w, call.capability, call.vendor, call.version), c);
    if ranked == [] then None else Some(ranked[0])
  }

  /** Valid input lets a request through to the feature. */
  function Admit(w: World, s: Floor, t: nat, f: Feature, input: Bindings): (r: Floor)
  {
    if t in s.pending || w.schemaErrors(f.manifest, input) != [] then s
    else s.(pending := s.pending[t := f])
  }

  function Settle(c: Counters, id: string, o: Outcome): (r: Counters)
  {
    match o
    case Served(_, latency) => Recorded(c, id, true, latency)
    case Unavailable => Recorded(c, id, false, 0.0)
    case InputRejected => c
  }

  function Handle(w: World, s: Floor, e: Event): (r: Floor)
  {
    match e
    case Arrive(t, call) =>
      (match Choice(w, s.counters, call) case None => s case Some(f) => Admit(w, s, t, f, call.input))
    case ArriveAt(t, f, input) => Admit(w, s, t, f, input)
    case Answer(t, outcome) =>
      if t !in s.pending then s
      else
        var f := s.pending[t];
        Floor(Settle(s.counters, FeatureId(f), outcome), s.pending - {t}, s.done + [Done(f, outcome)])
  }

  function Run(w: World, events: seq<Event>): (s: Floor)
  {
    if events == [] then QUIET
    else Handle(w, Run(w, events[..|events| - 1]), events[|events| - 1])
  }

  /** The counters one feature should have after the finished calls. */
  function TallyFor(done: seq<Done>, id: string): (m: FeatureMetrics)
  {
    if done == [] then NO_METRICS
    else
      var m := TallyFor(done[..|done| - 1], id);
      var last := done[|done| - 1];
      if FeatureId(last.feature) == id then CountOutcome(m, last.outcome) else m
  }

  lemma SettleMeaning(c: Counters, id: string, o: Outcome, other: string)
    ensures Lookup(Settle(c, id, o), other) == if other == id then CountOutcome(Lookup(c, id), o) else Lookup(c, other)
  {}

  lemma TallyExtends(done: seq<Done>, d: Done, id: string)
    ensures TallyFor(done + [d], id) ==
            if FeatureId(d.feature) == id then CountOutcome(TallyFor(done, id), d.outcome) else TallyFor(done, id)
  {
    assert (done + [d])[..|done + [d]| - 1] == done;
  }

  lemma StepKeepsTally(w: World, s: Floor, e: Event, id: string)
    requires Lookup(s.counters, id) == TallyFor(s.done, id)
    ensures Lookup(Handle(w, s, e).counters, id) == TallyFor(Handle(w, s, e).done, id)
  {
    if e.Answer? && e.t in s.pending {
      var f := s.pending[e.t];
      SettleMeaning(s.counters, FeatureId(f), e.outcome, id);
      TallyExtends(s.done, Done(f, e.outcome), id);
    } else {
      assert Handle(w, s, e).counters == s.counters && Handle(w, s, e).done == s.done;
    }
  }

  /** In every interleaving, at every moment, each feature's counters are exactly the outcomes
      of its finished calls: overlapping requests neither lose nor duplicate a record. */
  lemma {:induction false} CountersMatchFinishedCalls(w: World, events: seq<Event>, id: string)
    ensures Lookup(Run(w, events).counters, id) == TallyFor(Run(w, events).done, id)
  {
    if events != [] {
      CountersMatchFinishedCalls(w, events[..|events| - 1], id);
      StepKeepsTally(w, Run(w, events[..|events| - 1]), events[|events| - 1], id);
    }
  }

  function LetThrough(w: World, s: Floor, t: nat, f: Feature, input: Bindings): (r: multiset<Feature>)
  {
    if t !in s.pending && w.schemaErrors(f.manifest, input) == [] then multiset{f} else multiset{}
  }

  /** The feature an event lets a new request through to: one was chosen or named, and it has no
      objection to the input. */
  function Admission(w: World, s: Floor, e: Event): (r: multiset<Feature>)
  {
    match e
    case Answer(_, _) => multiset{}
    case ArriveAt(t, f, input) => LetThrough(w, s, t, f, input)
    case Arrive(t, call) =>
      match Choice(w, s.counters, call)
      case None => multiset{}
      case Some(f) => LetThrough(w, s, t, f, call.input)
  }

  function Admitted(w: World, events: seq<Event>): (r: multiset<Feature>)
  {
    if events == [] then multiset{}
    else
      var before := events[..|events| - 1];
      Admitted(w, before) + Admission(w, Run(w, before), events[|events| - 1])
  }

  /** The features of the finished calls. */
  function Finished(done: seq<Done>): (r: multiset<Feature>)
  {
    if done == [] then multiset{} else Finished(done[..|done| - 1]) + multiset{done[|done| - 1].feature}
  }

  lemma AdmitAccounts(w: World, s: Floor, t: nat, f: Feature, input: Bindings)
    ensures var s' := Admit(w, s, t, f, input);
            s'.done == s.done && Values(s'.pending) == Values(s.pending) + LetThrough(w, s, t, f, input)
  {
    if t !in s.pending {
      ValuesAdd(s.pending, t, f);
    }
  }

  lemma ArrivalAccounts(w: World, s: Floor, e: Event)
    requires !e.Answer?
    ensures var s' := Handle(w, s, e);
            s'.done == s.done && Values(s'.pending) == Values(s.pending) + Admission(w, s, e)
  {
    match e
    case Arrive(t, call) =>
      var choice := Choice(w, s.counters, call);
      if choice.Some? {
        AdmitAccounts(w, s, t, choice.value, call.input);
      }
    case ArriveAt(t, f, input) => AdmitAccounts(w, s, t, f, input);
  }

  lemma FinishedExtends(done: seq<Done>, d: Done)
    ensures Finished(done + [d]) == Finished(done) + multiset{d.feature}
  {
    assert (done + [d])[..|done + [d]| - 1] == done;
  }

  lemma Regroup(a: multiset<Feature>, f: Feature, b: multiset<Feature>)
    ensures (a + multiset{f}) + b == a + (multiset{f} + b)
  {}

  lemma AnswerAccounts(w: World, s: Floor, t: nat, outcome: Outcome)
    ensures var s' := Handle(w, s, Answer(t, outcome));
            Finished(s'.done) + Values(s'.pending) == Finished(s.done) + Values(s.pending)
  {
    if t in s.pending {
      ValuesPeel(s.pending, t);
      FinishedExtends(s.done, Done(s.pending[t], outcome));
      Regroup(Finished(s.done), s.pending[t], Values(s.pending - {t}));
    }
  }

  /** Every request let through is waiting or finished, and each exactly once, at its own feature:
      as multisets, the features admitted are those of the finished and of the waiting calls. */
  lemma {:induction false} EveryRequestIsAccountedFor(w: World, events: seq<Event>)
    ensures Admitted(w, events) == Finished(Run(w, events).done) + Values(Run(w, events).pending)
  {
    if events != [] {
      var before, e := events[..|events| - 1], events[|events| - 1];
      EveryRequestIsAccountedFor(w, before);
      match e
      case Answer(t, outcome) => AnswerAccounts(w, Run(w, before), t, outcome);
      case _ => ArrivalAccounts(w, Run(w, before), e);
    }
  }

  /** A request that gets through by capability waits for a provider that honours its pins and
      that no such provider outscores by the counters of its arrival. */
  lemma ArrivalChoosesBest(w: World, s: Floor, t: nat, call: Call, p: Policy)
    requires w.ranking == Learned(p) && t !in s.pending && t in Handle(w, s, Arrive(t, call)).pending
    ensures var f := Handle(w, s, Arrive(t, call)).pending[t];
            && f in w.features && Admissible(f, call.capability, call.vendor, call.version)
            && w.schemaErrors(f.manifest, call.input) == []
            && forall g :: g in w.features && Admissible(g, call.capability, call.vendor, call.version)
                 ==> Score(p, f, s.counters) >= Score(p, g, s.counters)
  {
    var fs := Providers(w, call.capability, call.vendor, call.version);
    var le := RankLe(p, s.counters, RankFeatures(fs));
    SortPermutes(fs, le);
    RankLeIsPreorder(p, s.counters, RankFeatures(fs));
    SortHeadIsMinimum(fs, le);
    forall g ensures g in fs <==> g in w.features && Admissible(g, call.capability, call.vendor, call.version) {
      ProvidersExactly(w, call.capability, call.vendor, call.version, g);
    }
  }

  // ----- the one-at-a-time gateway is a run of this protocol -----

  function OutcomesOf(done: seq<Done>): (r: seq<Outcome>)
    ensures |r| == |done|
  {
    seq(|done|, i requires 0 <= i < |done| => done[i].outcome)
  }

  /** The events lead to the gateway's state, with no request left open. */
  ghost predicate Tracks(w: World, events: seq<Event>, s: State)
  {
    var r := Run(w, events);
    r.counters == s.counters && r.pending == map[] && OutcomesOf(r.done) == s.transcript
  }

  lemma RunTwo(w: World, events: seq<Event>, a: Event, b: Event)
    ensures Run(w, events + [a, b]) == Handle(w, Handle(w, Run(w, events), a), b)
  {
    var all := events + [a, b];
    assert all[..|all| - 1] == events + [a] && (events + [a])[..|events|] == events;
  }

  /** A dispatch that gets past the schema check is an arrival followed by its answer. */
  lemma DispatchIsArriveAnswer(w: World, s: State, fl: Floor, t: nat, f: Feature, input: Bindings)
    requires t !in fl.pending && fl.counters == s.counters && w.schemaErrors(f.manifest, input) == []
    ensures var o := w.service(s.transcript, f.manifest.name, input);
            Handle(w, Handle(w, fl, ArriveAt(t, f, input)), Answer(t, o))
            == Floor(Dispatch(w, s, f, input).0.counters, fl.pending, fl.done + [Done(f, o)])
  {
    assert fl.pending[t := f] - {t} == fl.pending;
  }

  lemma AnswerTracks(w: World, events: seq<Event>, s: State, a: Event, f: Feature, input: Bindings)
    returns (longer: seq<Event>)
    requires Tracks(w, events, s) && w.schemaErrors(f.manifest, input) == []
    requires Handle(w, Run(w, events), a) == Handle(w, Run(w, events), ArriveAt(0, f, input))
    ensures Tracks(w, longer, Dispatch(w, s, f, input).0)
  {
    var o := w.service(s.transcript, f.manifest.name, input);
    var fl := Run(w, events);
    longer := events + [a, Answer(0, o)];
    RunTwo(w, events, a, Answer(0, o));
    DispatchIsArriveAnswer(w, s, fl, 0, f, input);
    DispatchIsLocal(w, s, f, input, "");
    assert OutcomesOf(fl.done + [Done(f, o)]) == OutcomesOf(fl.done) + [o];
  }

  lemma DispatchTracks(w: World, events: seq<Event>, s: State, f: Feature, input: Bindings)
    returns (longer: seq<Event>)
    requires Tracks(w, events, s)
    ensures Tracks(w, longer, Dispatch(w, s, f, input).0)
  {
    if w.schemaErrors(f.manifest, input) == [] {
      longer := AnswerTracks(w, events, s, ArriveAt(0, f, input), f, input);
    } else {
      longer := events;
    }
  }

  lemma CallTracks(w: World, events: seq<Event>, s: State, c: Call) returns (longer: seq<Event>)
    requires Tracks(w, events, s)
    ensures Tracks(w, longer, RunCapability(w, s, c).0)
  {
    var choice := Choice(w, s.counters, c);
    if choice.Some? && w.schemaErrors(choice.value.manifest, c.input) == [] {
      longer := AnswerTracks(w, events, s, Arrive(0, c), choice.value, c.input);
    } else {
      longer := events;
    }
  }

  lemma {:induction false} StepsTrack(w: World, events: seq<Event>, p: Progress<State>, steps: seq<Step>)
    returns (longer: seq<Event>)
    requires Tracks(w, events, p.state)
    ensures Tracks(w, longer, RunSteps(InvokerOf(w), p, steps).state)
    decreases |steps|
  {
    longer := events;
    if steps != [] && p.error.None? {
      var q := RunStep(InvokerOf(w), p, steps[0]);
      var g := Gather(steps[0].inputs, p.ctx, map[]);
      if g.Built? {
        longer := CallTracks(w, events, p.state, CallOf(steps[0], g.values));
        assert q.state == RunCapability(w, p.state, CallOf(steps[0], g.values)).0;
      }
      longer := StepsTrack(w, longer, q, steps[1..]);
    }
  }

  lemma {:induction false} HistoryIsRun(w: World, requests: seq<Request>) returns (events: seq<Event>)
    ensures Tracks(w, events, ServeAll(w, requests))
  {
    if requests == [] {
      events := [];
    } else {
      var s := ServeAll(w, requests[..|requests| - 1]);
      events := HistoryIsRun(w, requests[..|requests| - 1]);
      match requests[|requests| - 1]
      case ToFeature(f, input) => events := DispatchTracks(w, events, s, f, input);
      case ToCapability(call) => events := CallTracks(w, events, s, call);
      case ToComposite(c, input) => events := StepsTrack(w, events, Start(s, input), c.steps);
    }
  }

  /** After any history of requests one at a time, each feature's counters are exactly the
      outcomes of the calls made to it. */
  lemma HistoryCountsPerFeature(w: World, requests: seq<Request>)
    ensures exists done :: && OutcomesOf(done) == ServeAll(w, requests).transcript
                           && forall id :: Lookup(ServeAll(w, requests).counters, id) == TallyFor(done, id)
  {
    var events := HistoryIsRun(w, requests);
    var done := Run(w, events).done;
    forall id ensures Lookup(ServeAll(w, requests).counters, id) == TallyFor(done, id) {
      CountersMatchFinishedCalls(w, events, id);
    }
  }
}
