/** Composites: pipelines of capability calls wired by dotted references
    (gateway/composer.py). */
module Composer {
  import opened Text

  /** JSON data: a dictionary, or anything a reference cannot descend into. */
  datatype Value = Atom(text: string) | Dict(fields: map<string, Value>)

  type Bindings = map<string, Value>

  /** An insertion-ordered dictionary of references. */
  type Wiring = seq<(string, string)>

  datatype Step = Step(
    name: string, capability: string, vendor: Option<string>, version: Option<string>, inputs: Wiring)

  /** The input schema an agent declares: property types in order, and the required ones. */
  datatype Schema = Schema(properties: Wiring, required: seq<string>)

  datatype Composite = Composite(
    name: string, capability: string, description: string, schema: Schema, steps: seq<Step>, output: Wiring)

  // ----- references -----

  function Walk(v: Value, path: seq<string>): (r: Option<Value>)
    decreases |path|
  {
    if path == [] then Some(v)
    else if v.Dict? && path[0] in v.fields then Walk(v.fields[path[0]], path[1..])
    else None
  }

  function ResolveRef(ref: string, ctx: Bindings): (r: Option<Value>)
  {
    Walk(Dict(ctx), Split(ref, '.'))
  }

  function RefHead(ref: string): (h: string) { Split(ref, '.')[0] }

  method ComputeRef(ref: string, ctx: Bindings) returns (r: Option<Value>)
    ensures r == ResolveRef(ref, ctx)
  {
    var parts := Split(ref, '.');
    var cur := Dict(ctx);
    for i := 0 to |parts|
      invariant Walk(cur, parts[i..]) == ResolveRef(ref, ctx)
    {
      assert parts[i..][0] == parts[i] && parts[i..][1..] == parts[i + 1..];
      if cur.Dict? && parts[i] in cur.fields {
        cur := cur.fields[parts[i]];
      } else {
        return None;
      }
    }
    assert parts[|parts|..] == [];
    r := Some(cur);
  }

  /** chain[i + 1] is the field of chain[i] that the i-th part of a path names. */
  ghost predicate Follows(chain: seq<Value>, path: seq<string>, n: nat)
    requires n <= |path|
  {
    && |chain| == n + 1
    && forall i :: 0 <= i < n ==>
         chain[i].Dict? && path[i] in chain[i].fields && chain[i + 1] == chain[i].fields[path[i]]
  }

  /** The first n parts lead from v to u. */
  ghost predicate Leads(v: Value, path: seq<string>, n: nat, u: Value)
    requires n <= |path|
  {
    exists chain: seq<Value> :: Follows(chain, path, n) && chain[0] == v && chain[n] == u
  }

  /** After n parts the path stands at a value that has no field of the next name. */
  ghost predicate Stuck(v: Value, path: seq<string>, n: nat)
  {
    n < |path| && exists u :: Leads(v, path, n, u) && !(u.Dict? && path[n] in u.fields)
  }

  lemma FollowsTail(chain: seq<Value>, path: seq<string>, n: nat)
    requires 0 < n <= |path| && Follows(chain, path, n)
    ensures Follows(chain[1..], path[1..], n - 1)
  {
    var rest := chain[1..];
    forall i | 0 <= i < n - 1
      ensures rest[i].Dict? && path[1..][i] in rest[i].fields && rest[i + 1] == rest[i].fields[path[1..][i]]
    {
      assert rest[i] == chain[i + 1] && path[1..][i] == path[i + 1];
    }
  }

  lemma FollowsCons(v: Value, rest: seq<Value>, path: seq<string>, n: nat)
    requires 0 < n <= |path| && Follows(rest, path[1..], n - 1)
    requires v.Dict? && path[0] in v.fields && rest[0] == v.fields[path[0]]
    ensures Follows([v] + rest, path, n)
  {
    var chain := [v] + rest;
    forall i | 0 <= i < n
      ensures chain[i].Dict? && path[i] in chain[i].fields && chain[i + 1] == chain[i].fields[path[i]]
    {
      if i > 0 {
        assert chain[i] == rest[i - 1] && path[i] == path[1..][i - 1];
      }
    }
  }

  lemma LeadsStep(v: Value, path: seq<string>, n: nat, u: Value)
    requires 0 < n <= |path|
    ensures Leads(v, path, n, u)
       <==> v.Dict? && path[0] in v.fields && Leads(v.fields[path[0]], path[1..], n - 1, u)
  {
    if Leads(v, path, n, u) {
      var chain: seq<Value> :| Follows(chain, path, n) && chain[0] == v && chain[n] == u;
      FollowsTail(chain, path, n);
      assert chain[1] == chain[0].fields[path[0]] && chain[1..][0] == chain[1] && chain[1..][n - 1] == u;
    }
    if v.Dict? && path[0] in v.fields && Leads(v.fields[path[0]], path[1..], n - 1, u) {
      var rest: seq<Value> :| Follows(rest, path[1..], n - 1) && rest[0] == v.fields[path[0]] && rest[n - 1] == u;
      FollowsCons(v, rest, path, n);
      assert ([v] + rest)[n] == u;
    }
  }

  lemma LeadsNowhere(v: Value, path: seq<string>, u: Value)
    ensures Leads(v, path, 0, u) <==> u == v
  {
    if u == v {
      assert Follows([v], path, 0);
    }
  }

  lemma {:induction false} WalkExactly(v: Value, path: seq<string>, u: Value)
    ensures Walk(v, path) == Some(u) <==> Leads(v, path, |path|, u)
    decreases |path|
  {
    if path == [] {
      LeadsNowhere(v, path, u);
    } else {
      LeadsStep(v, path, |path|, u);
      if v.Dict? && path[0] in v.fields {
        WalkExactly(v.fields[path[0]], path[1..], u);
      }
    }
  }

  lemma {:induction false} WalkFailsExactly(v: Value, path: seq<string>)
    ensures Walk(v, path) == None <==> exists n: nat :: Stuck(v, path, n)
    decreases |path|
  {
    if path != [] {
      LeadsNowhere(v, path, v);
      if v.Dict? && path[0] in v.fields {
        var w := v.fields[path[0]];
        WalkFailsExactly(w, path[1..]);
        if n: nat :| Stuck(w, path[1..], n) {
          var u :| Leads(w, path[1..], n, u) && !(u.Dict? && path[1..][n] in u.fields);
          LeadsStep(v, path, n + 1, u);
          assert Stuck(v, path, n + 1);
        }
        if n: nat :| Stuck(v, path, n) {
          var u :| Leads(v, path, n, u) && !(u.Dict? && path[n] in u.fields);
          LeadsNowhere(v, path, u);
          LeadsStep(v, path, n, u);
          assert path[n] == path[1..][n - 1];
          assert Stuck(w, path[1..], n - 1);
        }
      } else {
        assert Stuck(v, path, 0);
      }
    }
  }

  /** A reference denotes v exactly when its dotted parts lead, field by field, from the context
      to v; it fails exactly when some part meets a value that is no dictionary or lacks it. */
  lemma ResolvesExactly(parts: seq<string>, ctx: Bindings, v: Value)
    requires parts != [] && forall i :: 0 <= i < |parts| ==> '.' !in parts[i]
    ensures var ref := JoinWith(parts, ".");
            && (ResolveRef(ref, ctx) == Some(v) <==> Leads(Dict(ctx), parts, |parts|, v))
            && (ResolveRef(ref, ctx) == None <==> exists n: nat :: Stuck(Dict(ctx), parts, n))
  {
    SplitJoin(parts, '.');
    WalkExactly(Dict(ctx), parts, v);
    WalkFailsExactly(Dict(ctx), parts);
  }

  datatype Gathered = Built(values: Bindings) | Unresolved(ref: string)

  /** Resolves the references of a wiring in order, stopping at the first that fails. */
  function Gather(w: Wiring, ctx: Bindings, acc: Bindings): (r: Gathered)
  {
    if w == [] then Built(acc)
    else match ResolveRef(w[0].1, ctx)
      case None => Unresolved(w[0].1)
      case Some(v) => Gather(w[1..], ctx, acc[w[0].0 := v])
  }

  method ComputeGather(w: Wiring, ctx: Bindings) returns (r: Gathered)
    ensures r == Gather(w, ctx, map[])
  {
    var values: Bindings := map[];
    for i := 0 to |w|
      invariant Gather(w[i..], ctx, values) == Gather(w, ctx, map[])
    {
      assert w[i..][0] == w[i] && w[i..][1..] == w[i + 1..];
      var v := ComputeRef(w[i].1, ctx);
      if v.None? {
        return Unresolved(w[i].1);
      }
      values := values[w[i].0 := v.value];
    }
    assert w[|w|..] == [];
    r := Built(values);
  }

  // ----- runs -----

  datatype Call = Call(capability: string, input: Bindings, vendor: Option<string>, version: Option<string>)

  datatype Reply = Reply(output: Option<Bindings>, error: Option<string>)

  /** A capability invoker with its own state S (the metrics store and the outside world). */
  type Invoker<!S> = (S, Call) -> (S, Reply)

  predicate Failed(r: Reply)
  {
    (r.error.Some? && r.error.value != "") || r.output.None?
  }

  function Message(r: Reply): (m: string)
  {
    if r.error.Some? && r.error.value != "" then r.error.value else "no output"
  }

  datatype RunError = BadReference(step: Option<string>, ref: string) | StepFailed(name: string, message: string)

  datatype Entry = Entry(step: string, capability: string, output: Bindings)

  datatype Progress<S> = Progress(state: S, ctx: Bindings, trace: seq<Entry>, error: Option<RunError>)

  datatype Result = Result(composite: string, output: Bindings, trace: seq<Entry>, error: Option<RunError>)

  function CallOf(step: Step, input: Bindings): (c: Call)
  {
    Call(step.capability, input, step.vendor, step.version)
  }

  function RunStep<S>(inv: Invoker<S>, p: Progress<S>, step: Step): (r: Progress<S>)
  {
    match Gather(step.inputs, p.ctx, map[])
    case Unresolved(ref) => p.(error := Some(BadReference(Some(step.name), ref)))
    case Built(input) =>
      var (s, reply) := inv(p.state, CallOf(step, input));
      if Failed(reply) then p.(state := s, error := Some(StepFailed(step.name, Message(reply))))
      else Progress(s, p.ctx[step.name := Dict(reply.output.value)],
                    p.trace + [Entry(step.name, step.capability, reply.output.value)], None)
  }

  function RunSteps<S>(inv: Invoker<S>, p: Progress<S>, steps: seq<Step>): (r: Progress<S>)
    decreases |steps|
  {
    if steps == [] || p.error.Some? then p
    else RunSteps(inv, RunStep(inv, p, steps[0]), steps[1..])
  }

  function Finish<S>(c: Composite, p: Progress<S>): (r: Result)
  {
    if p.error.Some? then Result(c.name, map[], p.trace, p.error)
    else match Gather(c.output, p.ctx, map[])
      case Unresolved(ref) => Result(c.name, map[], p.trace, Some(BadReference(None, ref)))
      case Built(out) => Result(c.name, out, p.trace, None)
  }

  function Start<S>(s: S, input: Bindings): (p: Progress<S>)
  {
    Progress(s, map["input" := Dict(input)], [], None)
  }

  function Run<S>(inv: Invoker<S>, s: S, c: Composite, input: Bindings): (r: (S, Result))
  {
    var p := RunSteps(inv, Start(s, input), c.steps);
    (p.state, Finish(c, p))
  }

  lemma {:induction false} RunStepsAppend<S>(inv: Invoker<S>, p: Progress<S>, a: seq<Step>, b: seq<Step>)
    ensures RunSteps(inv, p, a + b) == RunSteps(inv, RunSteps(inv, p, a), b)
    decreases |a|
  {
    if a == [] {
      assert a + b == b;
    } else if p.error.None? {
      assert (a + b)[0] == a[0] && (a + b)[1..] == a[1..] + b;
      RunStepsAppend(inv, RunStep(inv, p, a[0]), a[1..], b);
    }
  }

  // ----- the trace -----

  ghost predicate TraceNames(trace: seq<Entry>, steps: seq<Step>)
  {
    && |trace| <= |steps|
    && forall i :: 0 <= i < |trace| ==> trace[i].step == steps[i].name && trace[i].capability == steps[i].capability
  }

  lemma {:induction false} TraceGrowsAlongSteps<S>(inv: Invoker<S>, p: Progress<S>, done: seq<Step>, steps: seq<Step>)
    requires p.error.None? && |p.trace| == |done| && TraceNames(p.trace, done)
    ensures var q := RunSteps(inv, p, steps);
            TraceNames(q.trace, done + steps) && (q.error.None? <==> |q.trace| == |done + steps|)
    decreases |steps|
  {
    if steps == [] {
      assert done + steps == done;
    } else {
      var q := RunStep(inv, p, steps[0]);
      if q.error.None? {
        assert (done + [steps[0]]) + steps[1..] == done + steps;
        TraceGrowsAlongSteps(inv, q, done + [steps[0]], steps[1..]);
      }
    }
  }

  /** The trace names a prefix of the steps; the output is empty whenever the error is set;
      without an error every step is in the trace. */
  lemma TraceIsPrefix<S>(inv: Invoker<S>, s: S, c: Composite, input: Bindings)
    ensures var r := Run(inv, s, c, input).1;
            && TraceNames(r.trace, c.steps)
            && (r.error.Some? ==> r.output == map[])
            && (r.error.None? ==> |r.trace| == |c.steps|)
  {
    assert [] + c.steps == c.steps;
    TraceGrowsAlongSteps(inv, Start(s, input), [], c.steps);
  }

  /** A failed invocation belongs to the first step that is missing from the trace. */
  lemma FailedStepFollowsTrace<S>(inv: Invoker<S>, s: S, c: Composite, input: Bindings)
    ensures var r := Run(inv, s, c, input).1;
            r.error.Some? && r.error.value.StepFailed? ==>
              |r.trace| < |c.steps| && c.steps[|r.trace|].name == r.error.value.name
  {
    FailureNamesStep(inv, Start(s, input), c.steps);
  }

  /** Without an error the output holds exactly the wired keys, each with what its reference
      resolves to in the final context. */
  lemma OutputIsWired<S>(inv: Invoker<S>, s: S, c: Composite, input: Bindings)
    ensures var p := RunSteps(inv, Start(s, input), c.steps);
            var r := Finish(c, p);
            r.error.None? ==>
              forall k :: && (k in r.output <==> LastRef(c.output, k).Some?)
                          && (k in r.output ==> Some(r.output[k]) == ResolveRef(LastRef(c.output, k).value, p.ctx))
  {
    var p := RunSteps(inv, Start(s, input), c.steps);
    GatherMeaning(c.output, p.ctx, map[]);
  }

  /** The reference the dictionary holds for a key. */
  function LastRef(w: Wiring, key: string): (r: Option<string>)
  {
    if w == [] then None
    else if LastRef(w[1..], key).Some? then LastRef(w[1..], key)
    else if w[0].0 == key then Some(w[0].1) else None
  }

  /** A successful gathering holds, for every wired key, the value its reference resolves to. */
  lemma {:induction false} GatherMeaning(w: Wiring, ctx: Bindings, acc: Bindings)
    ensures var r := Gather(w, ctx, acc);
            r.Built? ==>
              forall k :: && (k in r.values <==> k in acc || LastRef(w, k).Some?)
                          && (LastRef(w, k).Some? ==> Some(r.values[k]) == ResolveRef(LastRef(w, k).value, ctx))
                          && (LastRef(w, k).None? && k in acc ==> r.values[k] == acc[k])
  {
    if w != [] && ResolveRef(w[0].1, ctx).Some? {
      GatherMeaning(w[1..], ctx, acc[w[0].0 := ResolveRef(w[0].1, ctx).value]);
    }
  }

  lemma {:induction false} FailureNamesStep<S>(inv: Invoker<S>, p: Progress<S>, steps: seq<Step>)
    requires p.error.None?
    ensures var q := RunSteps(inv, p, steps);
            |p.trace| <= |q.trace| <= |p.trace| + |steps|
            && (q.error.Some? && q.error.value.StepFailed? ==>
                |q.trace| - |p.trace| < |steps| && steps[|q.trace| - |p.trace|].name == q.error.value.name)
    decreases |steps|
  {
    if steps != [] {
      var q := RunStep(inv, p, steps[0]);
      if q.error.None? {
        FailureNamesStep(inv, q, steps[1..]);
      }
    }
  }

  // ----- references that always resolve -----

  function LastNamed(steps: seq<Step>, name: string): (r: Option<Step>)
  {
    if steps == [] then None
    else if steps[|steps| - 1].name == name then Some(steps[|steps| - 1])
    else LastNamed(steps[..|steps| - 1], name)
  }

  /** The reference resolves in the caller's input, or in every output that the latest
      earlier step of that name can return. */
  ghost predicate Provided<S(!new)>(inv: Invoker<S>, input: Bindings, before: seq<Step>, ref: string)
  {
    var path := Split(ref, '.');
    match LastNamed(before, path[0])
    case None => path[0] == "input" && Walk(Dict(input), path[1..]).Some?
    case Some(step) =>
      forall s: S, arg: Bindings ::
        var reply := inv(s, CallOf(step, arg)).1;
        !Failed(reply) ==> Walk(Dict(reply.output.value), path[1..]).Some?
  }

  ghost predicate AllProvided<S(!new)>(inv: Invoker<S>, input: Bindings, before: seq<Step>, w: Wiring)
  {
    forall i :: 0 <= i < |w| ==> Provided(inv, input, before, w[i].1)
  }

  ghost predicate Returned<S(!new)>(inv: Invoker<S>, step: Step, v: Value)
  {
    exists s: S, arg: Bindings ::
      var reply := inv(s, CallOf(step, arg)).1;
      !Failed(reply) && v == Dict(reply.output.value)
  }

  /** Each context entry is the input or something its latest step returned. */
  ghost predicate ContextFrom<S(!new)>(inv: Invoker<S>, input: Bindings, before: seq<Step>, ctx: Bindings)
  {
    forall n :: match LastNamed(before, n)
      case None => n == "input" ==> n in ctx && ctx[n] == Dict(input)
      case Some(step) => n in ctx && Returned(inv, step, ctx[n])
  }

  lemma ProvidedResolves<S(!new)>(inv: Invoker<S>, input: Bindings, before: seq<Step>, ctx: Bindings, ref: string)
    requires ContextFrom(inv, input, before, ctx) && Provided(inv, input, before, ref)
    ensures ResolveRef(ref, ctx).Some?
  {
    var path := Split(ref, '.');
    match LastNamed(before, path[0])
    case None =>
    case Some(step) =>
      var s, arg :| var reply := inv(s, CallOf(step, arg)).1;
                    !Failed(reply) && ctx[path[0]] == Dict(reply.output.value);
  }

  lemma {:induction false} ProvidedGathers<S(!new)>(
    inv: Invoker<S>, input: Bindings, before: seq<Step>, ctx: Bindings, w: Wiring, acc: Bindings)
    requires ContextFrom(inv, input, before, ctx) && AllProvided(inv, input, before, w)
    ensures Gather(w, ctx, acc).Built?
  {
    if w != [] {
      assert Provided(inv, input, before, w[0].1);
      ProvidedResolves(inv, input, before, ctx, w[0].1);
      assert forall i :: 0 <= i < |w[1..]| ==> w[1..][i] == w[i + 1];
      ProvidedGathers(inv, input, before, ctx, w[1..], acc[w[0].0 := ResolveRef(w[0].1, ctx).value]);
    }
  }

  lemma {:induction false} ProvidedRuns<S(!new)>(
    inv: Invoker<S>, input: Bindings, p: Progress<S>, done: seq<Step>, steps: seq<Step>)
    requires p.error.None? && ContextFrom(inv, input, done, p.ctx)
    requires forall i :: 0 <= i < |steps| ==> AllProvided(inv, input, done + steps[..i], steps[i].inputs)
    ensures var q := RunSteps(inv, p, steps);
            (q.error.Some? ==> q.error.value.StepFailed?)
            && (q.error.None? ==> ContextFrom(inv, input, done + steps, q.ctx))
    decreases |steps|
  {
    if steps == [] {
      assert done + steps == done;
    } else {
      var step := steps[0];
      assert done + steps[..0] == done;
      ProvidedGathers(inv, input, done, p.ctx, step.inputs, map[]);
      var q := RunStep(inv, p, step);
      if q.error.None? {
        var done' := done + [step];
        assert done'[..|done'| - 1] == done;
        forall n ensures match LastNamed(done', n)
          case None => n == "input" ==> n in q.ctx && q.ctx[n] == Dict(input)
          case Some(st) => n in q.ctx && Returned(inv, st, q.ctx[n]) {
        }
        forall i | 0 <= i < |steps[1..]|
          ensures AllProvided(inv, input, done' + steps[1..][..i], steps[1..][i].inputs)
        {
          assert done' + steps[1..][..i] == done + steps[..i + 1];
        }
        assert done' + steps[1..] == done + steps;
        ProvidedRuns(inv, input, q, done', steps[1..]);
      }
    }
  }

  /** If every reference exists in the input or in whatever an earlier step can return, the
      only errors left are those of invocations. */
  lemma OnlyInvocationsFail<S(!new)>(inv: Invoker<S>, s: S, c: Composite, input: Bindings)
    requires forall i :: 0 <= i < |c.steps| ==> AllProvided(inv, input, c.steps[..i], c.steps[i].inputs)
    requires AllProvided(inv, input, c.steps, c.output)
    ensures var r := Run(inv, s, c, input).1; r.error.Some? ==> r.error.value.StepFailed?
  {
    var p := Start(s, input);
    assert ContextFrom(inv, input, [], p.ctx);
    forall i | 0 <= i < |c.steps| ensures AllProvided(inv, input, [] + c.steps[..i], c.steps[i].inputs) {
      assert [] + c.steps[..i] == c.steps[..i];
    }
    ProvidedRuns(inv, input, p, [], c.steps);
    assert [] + c.steps == c.steps;
    var q := RunSteps(inv, p, c.steps);
    if q.error.None? {
      ProvidedGathers(inv, input, c.steps, q.ctx, c.output, map[]);
    }
  }

  // ----- meaning-preserving changes to a pipeline -----

  /** An invoker whose reply depends on nothing but the call. */
  function Pure(f: Call -> Reply): (inv: Invoker<()>)
  {
    (s: (), c: Call) => (s, f(c))
  }

  predicate NotHeadedBy(w: Wiring, name: string)
  {
    forall i :: 0 <= i < |w| ==> RefHead(w[i].1) != name
  }

  ghost predicate AgreeExcept(a: Bindings, b: Bindings, name: string)
  {
    forall n :: n != name ==> (n in a <==> n in b) && (n in a ==> a[n] == b[n])
  }

  /** A reference reads nothing of the context but its head. */
  lemma {:induction false} GatherReadsHeads(w: Wiring, a: Bindings, b: Bindings, name: string, acc: Bindings)
    requires AgreeExcept(a, b, name) && NotHeadedBy(w, name)
    ensures Gather(w, a, acc) == Gather(w, b, acc)
  {
    if w != [] {
      assert RefHead(w[0].1) != name;
      assert ResolveRef(w[0].1, a) == ResolveRef(w[0].1, b);
      if ResolveRef(w[0].1, a).Some? {
        GatherReadsHeads(w[1..], a, b, name, acc[w[0].0 := ResolveRef(w[0].1, a).value]);
      }
    }
  }

  /** Runs from contexts that agree where it matters fail alike and keep agreeing. */
  lemma {:induction false} RunsAgree<S>(inv: Invoker<S>, p: Progress<S>, q: Progress<S>, steps: seq<Step>, name: string)
    requires p.error.None? && q.error.None? && p.state == q.state && AgreeExcept(p.ctx, q.ctx, name)
    requires forall i :: 0 <= i < |steps| ==> NotHeadedBy(steps[i].inputs, name)
    ensures var p', q' := RunSteps(inv, p, steps), RunSteps(inv, q, steps);
            p'.error == q'.error && p'.state == q'.state && AgreeExcept(p'.ctx, q'.ctx, name)
    decreases |steps|
  {
    if steps != [] {
      assert NotHeadedBy(steps[0].inputs, name);
      GatherReadsHeads(steps[0].inputs, p.ctx, q.ctx, name, map[]);
      var p1, q1 := RunStep(inv, p, steps[0]), RunStep(inv, q, steps[0]);
      if p1.error.None? {
        RunsAgree(inv, p1, q1, steps[1..], name);
      }
    }
  }

  /** From one context the trace so far has no influence on what follows. */
  lemma {:induction false} TraceDoesNotMatter<S>(inv: Invoker<S>, p: Progress<S>, q: Progress<S>, steps: seq<Step>)
    requires p.error.None? && q.error.None? && p.state == q.state && p.ctx == q.ctx
    ensures var p', q' := RunSteps(inv, p, steps), RunSteps(inv, q, steps);
            p'.error == q'.error && p'.state == q'.state && p'.ctx == q'.ctx
    decreases |steps|
  {
    if steps != [] {
      var p1, q1 := RunStep(inv, p, steps[0]), RunStep(inv, q, steps[0]);
      if p1.error.None? {
        TraceDoesNotMatter(inv, p1, q1, steps[1..]);
      }
    }
  }

  /** What a step returns from a context, if neither its references nor its call fail. */
  function StepOutput(f: Call -> Reply, ctx: Bindings, step: Step): (r: Option<Bindings>)
  {
    match Gather(step.inputs, ctx, map[])
    case Unresolved(_) => None
    case Built(input) => if Failed(f(CallOf(step, input))) then None else f(CallOf(step, input)).output
  }

  lemma StepMeaning(f: Call -> Reply, p: Progress<()>, x: Step)
    requires p.error.None?
    ensures var q := RunStep(Pure(f), p, x);
            && (q.error.None? <==> StepOutput(f, p.ctx, x).Some?)
            && (q.error.None? ==> q.ctx == p.ctx[x.name := Dict(StepOutput(f, p.ctx, x).value)])
  {}

  lemma TwoStepsMeaning(f: Call -> Reply, p: Progress<()>, x: Step, y: Step)
    requires p.error.None? && NotHeadedBy(y.inputs, x.name)
    ensures var q := RunSteps(Pure(f), p, [x] + [y]);
            var ox, oy := StepOutput(f, p.ctx, x), StepOutput(f, p.ctx, y);
            && (q.error.None? <==> ox.Some? && oy.Some?)
            && (q.error.None? ==> q.ctx == p.ctx[x.name := Dict(ox.value)][y.name := Dict(oy.value)])
  {
    var px := RunStep(Pure(f), p, x);
    RunStepsAppend(Pure(f), p, [x], [y]);
    SingleStep(Pure(f), p, x);
    SingleStep(Pure(f), px, y);
    StepMeaning(f, p, x);
    if px.error.None? {
      StepMeaning(f, px, y);
      GatherReadsHeads(y.inputs, p.ctx, px.ctx, x.name, map[]);
    }
  }

  lemma SwapTwo(f: Call -> Reply, p: Progress<()>, x: Step, y: Step)
    requires p.error.None? && x.name != y.name
    requires NotHeadedBy(x.inputs, y.name) && NotHeadedBy(y.inputs, x.name)
    ensures var a := RunSteps(Pure(f), p, [x] + [y]);
            var b := RunSteps(Pure(f), p, [y] + [x]);
            (a.error.Some? <==> b.error.Some?) && (a.error.None? ==> a.ctx == b.ctx)
  {
    TwoStepsMeaning(f, p, x, y);
    TwoStepsMeaning(f, p, y, x);
  }

  lemma SingleStep<S>(inv: Invoker<S>, p: Progress<S>, x: Step)
    ensures RunSteps(inv, p, [x]) == if p.error.None? then RunStep(inv, p, x) else p
  {
    assert [x][1..] == [];
  }

  /** Adjacent steps with different names that do not read each other may be swapped: the run
      fails or succeeds as before, with the same output. */
  lemma SwapPreservesMeaning(
    f: Call -> Reply, c: Composite, pre: seq<Step>, x: Step, y: Step, post: seq<Step>, input: Bindings)
    requires x.name != y.name && NotHeadedBy(x.inputs, y.name) && NotHeadedBy(y.inputs, x.name)
    ensures var a := Run(Pure(f), (), c.(steps := pre + ([x] + [y]) + post), input).1;
            var b := Run(Pure(f), (), c.(steps := pre + ([y] + [x]) + post), input).1;
            (a.error.Some? <==> b.error.Some?) && a.output == b.output
  {
    var inv := Pure(f);
    var p := Start((), input);
    var q := RunSteps(inv, p, pre);
    RunAround(inv, p, pre, [x] + [y], post);
    RunAround(inv, p, pre, [y] + [x], post);
    if q.error.None? {
      SwapTwo(f, q, x, y);
      var a, b := RunSteps(inv, q, [x] + [y]), RunSteps(inv, q, [y] + [x]);
      SameEnding(f, c, a, b, post);
    }
  }

  lemma RunAround<S>(inv: Invoker<S>, p: Progress<S>, pre: seq<Step>, mid: seq<Step>, post: seq<Step>)
    ensures RunSteps(inv, p, pre + mid + post) == RunSteps(inv, RunSteps(inv, RunSteps(inv, p, pre), mid), post)
  {
    RunStepsAppend(inv, p, pre + mid, post);
    RunStepsAppend(inv, p, pre, mid);
  }

  lemma SameEnding(f: Call -> Reply, c: Composite, a: Progress<()>, b: Progress<()>, post: seq<Step>)
    requires (a.error.Some? <==> b.error.Some?) && (a.error.None? ==> a.ctx == b.ctx)
    ensures var r, s := Finish(c, RunSteps(Pure(f), a, post)), Finish(c, RunSteps(Pure(f), b, post));
            (r.error.Some? <==> s.error.Some?) && r.output == s.output
  {
    if a.error.None? {
      assert a.state == () && b.state == ();
      TraceDoesNotMatter(Pure(f), a, b, post);
    }
  }

  /** A step that succeeds and heads no later reference may be deleted. */
  lemma DeletePreservesMeaning(
    f: Call -> Reply, c: Composite, pre: seq<Step>, x: Step, post: seq<Step>, input: Bindings)
    requires RunSteps(Pure(f), Start((), input), pre + [x]).error.None?
    requires forall i :: 0 <= i < |post| ==> NotHeadedBy(post[i].inputs, x.name)
    requires NotHeadedBy(c.output, x.name)
    ensures var a := Run(Pure(f), (), c.(steps := pre + [x] + post), input).1;
            var b := Run(Pure(f), (), c.(steps := pre + post), input).1;
            a.error == b.error && a.output == b.output
  {
    var inv := Pure(f);
    var p := Start((), input);
    var q := RunSteps(inv, p, pre);
    RunAround(inv, p, pre, [x], post);
    RunStepsAppend(inv, p, pre, post);
    RunStepsAppend(inv, p, pre, [x]);
    StepTouchesItsName(f, q, x);
    SameEndingExcept(f, c, RunSteps(inv, q, [x]), q, post, x.name);
  }

  lemma StepTouchesItsName(f: Call -> Reply, q: Progress<()>, x: Step)
    requires RunSteps(Pure(f), q, [x]).error.None?
    ensures q.error.None? && AgreeExcept(RunSteps(Pure(f), q, [x]).ctx, q.ctx, x.name)
  {
    SingleStep(Pure(f), q, x);
  }

  lemma SameEndingExcept(
    f: Call -> Reply, c: Composite, a: Progress<()>, b: Progress<()>, post: seq<Step>, name: string)
    requires a.error.None? && b.error.None? && AgreeExcept(a.ctx, b.ctx, name) && NotHeadedBy(c.output, name)
    requires forall i :: 0 <= i < |post| ==> NotHeadedBy(post[i].inputs, name)
    ensures var r, s := Finish(c, RunSteps(Pure(f), a, post)), Finish(c, RunSteps(Pure(f), b, post));
            r.error == s.error && r.output == s.output
  {
    assert a.state == () && b.state == ();
    RunsAgree(Pure(f), a, b, post, name);
    var a', b' := RunSteps(Pure(f), a, post), RunSteps(Pure(f), b, post);
    if a'.error.None? {
      GatherReadsHeads(c.output, a'.ctx, b'.ctx, name, map[]);
    }
  }
}
