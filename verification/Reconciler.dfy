/** The Feature reconciler (operator/internal/controller/feature_controller.go): the objects
    it writes, the condition upsert, and reconciles as steps that interleave with edits,
    replica changes, errors and lost status writes. */
module Reconciler {
  import opened Text

  datatype Key = Key(namespace: string, name: string)

  datatype Spec = Spec(
    image: string, protocol: string, port: nat, minReplicas: Option<nat>,
    limits: map<string, string>, accelerator: string)

  datatype Phase = Unset | Pending | Provisioning | Ready | Failed

  datatype Condition = Condition(ctype: string, status: bool, reason: string, message: string, transition: int)

  datatype Status = Status(phase: Phase, endpoint: string, observedGeneration: nat, conditions: seq<Condition>)

  datatype Feature = Feature(key: Key, generation: nat, version: nat, spec: Spec, status: Status)

  datatype Container = Container(image: string, port: nat, portName: string, limits: map<string, string>)

  type Labels = map<string, string>

  datatype Deployment = Deployment(
    labels: Labels, replicas: nat, selector: Labels, podLabels: Labels, container: Container, available: nat)

  datatype Service = Service(labels: Labels, selector: Labels, portName: string, port: nat, targetPort: nat)

  // ----- helpers of the controller -----

  const FEATURE_LABEL := "agentfeatures.io/feature"

  function LabelsFor(name: string): (l: Labels)
  {
    map["app.kubernetes.io/managed-by" := "agent-features-operator", FEATURE_LABEL := name]
  }

  function Replicas(s: Spec): (n: nat) { if s.minReplicas.Some? then s.minReplicas.value else 1 }

  function ProtocolOrDefault(s: Spec): (p: string) { if s.protocol == "" then "grpc" else s.protocol }

  function WithAccelerator(s: Spec): (l: map<string, string>)
  {
    if s.accelerator != "" then s.limits[s.accelerator := "1"] else s.limits
  }

  function DesiredService(f: Feature): (s: Service)
  {
    Service(LabelsFor(f.key.name), LabelsFor(f.key.name), ProtocolOrDefault(f.spec), f.spec.port, f.spec.port)
  }

  /** The Deployment the mutation leaves behind; the available count belongs to the cluster. */
  function DesiredDeployment(f: Feature, available: nat): (d: Deployment)
  {
    Deployment(LabelsFor(f.key.name), Replicas(f.spec), LabelsFor(f.key.name), LabelsFor(f.key.name),
               Container(f.spec.image, f.spec.port, ProtocolOrDefault(f.spec), WithAccelerator(f.spec)), available)
  }

  function Endpoint(f: Feature): (s: string)
  {
    f.key.name + "." + f.key.namespace + ".svc.cluster.local:" + Decimal(f.spec.port)
  }

  // ----- conditions -----

  const AVAILABLE := "Available"

  /** Upsert by type, keeping the transition time when the status is unchanged. */
  function Upsert(cs: seq<Condition>, c: Condition): (r: seq<Condition>)
  {
    if cs == [] then [c]
    else if cs[0].ctype == c.ctype then
      [if cs[0].status == c.status then c.(transition := cs[0].transition) else c] + cs[1..]
    else [cs[0]] + Upsert(cs[1..], c)
  }

  function Find(cs: seq<Condition>, ctype: string): (r: Option<Condition>)
  {
    if cs == [] then None else if cs[0].ctype == ctype then Some(cs[0]) else Find(cs[1..], ctype)
  }

  function Count(cs: seq<Condition>, ctype: string): (n: nat)
  {
    if cs == [] then 0 else (if cs[0].ctype == ctype then 1 else 0) + Count(cs[1..], ctype)
  }

  /** One round of the upsert's search: a condition of another type is passed over. */
  lemma UpsertPasses(cs: seq<Condition>, c: Condition, i: nat)
    requires i < |cs| && cs[i].ctype != c.ctype
    ensures cs[..i] + Upsert(cs[i..], c) == cs[..i + 1] + Upsert(cs[i + 1..], c)
  {
    var rest := Upsert(cs[i + 1..], c);
    assert cs[i..][0] == cs[i] && cs[i..][1..] == cs[i + 1..];
    MoveOver(cs, i, rest);
  }

  lemma MoveOver<T>(s: seq<T>, i: nat, rest: seq<T>)
    requires i < |s|
    ensures s[..i] + ([s[i]] + rest) == s[..i + 1] + rest
  {
    assert s[..i + 1] == s[..i] + [s[i]];
  }

  lemma ReplaceOne<T>(s: seq<T>, i: nat, x: T)
    requires i < |s|
    ensures s[..i] + ([x] + s[i + 1..]) == s[i := x]
  {}

  /** One of the same type is replaced, and the search ends. */
  lemma UpsertMatches(cs: seq<Condition>, c: Condition, i: nat)
    requires i < |cs| && cs[i].ctype == c.ctype
    ensures cs[..i] + Upsert(cs[i..], c)
         == cs[i := if cs[i].status == c.status then c.(transition := cs[i].transition) else c]
  {
    assert cs[i..][0] == cs[i] && cs[i..][1..] == cs[i + 1..];
    ReplaceOne(cs, i, if cs[i].status == c.status then c.(transition := cs[i].transition) else c);
  }

  /** What an upsert does to each type: its own is replaced, everything else stays. */
  lemma {:induction false} UpsertEffect(cs: seq<Condition>, c: Condition, ctype: string)
    ensures Count(Upsert(cs, c), ctype) == if ctype == c.ctype && Count(cs, ctype) == 0 then 1 else Count(cs, ctype)
    ensures Find(Upsert(cs, c), ctype) ==
            if ctype != c.ctype then Find(cs, ctype)
            else match Find(cs, ctype)
              case Some(was) => Some(if was.status == c.status then c.(transition := was.transition) else c)
              case None => Some(c)
  {
    if cs != [] && cs[0].ctype != c.ctype {
      UpsertEffect(cs[1..], c, ctype);
    }
  }

  /** Repeating an upsert at a later time changes nothing, timestamps included. */
  lemma {:induction false} UpsertIdempotent(cs: seq<Condition>, c: Condition, later: int)
    ensures Upsert(Upsert(cs, c), c.(transition := later)) == Upsert(cs, c)
  {
    if cs != [] && cs[0].ctype != c.ctype {
      UpsertIdempotent(cs[1..], c, later);
    }
  }

  // ----- the status a reconcile derives -----

  datatype Verdict = Errored(reason: string, message: string) | Observed(available: nat)

  function PhaseOf(v: Verdict): (p: Phase)
  {
    match v case Errored(_, _) => Failed case Observed(n) => if n > 0 then Ready else Provisioning
  }

  function PhaseName(p: Phase): (s: string)
  {
    match p
    case Unset => "" case Pending => "Pending" case Provisioning => "Provisioning"
    case Ready => "Ready" case Failed => "Failed"
  }

  function ConditionFor(f: Feature, v: Verdict, now: int): (c: Condition)
  {
    match v
    case Errored(reason, message) => Condition(AVAILABLE, false, reason, message, now)
    case Observed(n) =>
      Condition(AVAILABLE, PhaseOf(v) == Ready, PhaseName(PhaseOf(v)),
                Decimal(n) + "/" + Decimal(Replicas(f.spec)) + " replicas available", now)
  }

  function StatusAfter(f: Feature, v: Verdict, now: int): (s: Status)
  {
    var conditions := Upsert(f.status.conditions, ConditionFor(f, v, now));
    match v
    case Errored(_, _) => f.status.(phase := Failed, conditions := conditions)
    case Observed(_) => Status(PhaseOf(v), Endpoint(f), f.generation, conditions)
  }

  /** The reconciler's local copy of a Feature, whose status it assigns field by field. */
  class LocalFeature {
    const f: Feature
    var status: Status

    constructor (f: Feature)
      ensures this.f == f && status == f.status
    {
      this.f := f;
      status := f.status;
    }

    method SetCondition(c: Condition)
      modifies this
      ensures status == old(status).(conditions := Upsert(old(status.conditions), c))
    {
      var cs := status.conditions;
      for i := 0 to |cs|
        invariant cs == old(status.conditions) && status == old(status)
        invariant cs[..i] + Upsert(cs[i..], c) == Upsert(cs, c)
      {
        if cs[i].ctype == c.ctype {
          UpsertMatches(cs, c, i);
          var c' := if cs[i].status == c.status then c.(transition := cs[i].transition) else c;
          status := status.(conditions := cs[i := c']);
          return;
        }
        UpsertPasses(cs, c, i);
      }
      assert cs[|cs|..] == [] && cs[..|cs|] == cs;
      status := status.(conditions := cs + [c]);
    }

    method Conclude(v: Verdict, now: int)
      requires status == f.status
      modifies this
      ensures status == StatusAfter(f, v, now)
    {
      match v {
        case Errored(reason, message) =>
          status := status.(phase := Failed);
          SetCondition(Condition(AVAILABLE, false, reason, message, now));
        case Observed(n) =>
          var phase := Provisioning;
          if n > 0 {
            phase := Ready;
          }
          status := status.(phase := phase, endpoint := Endpoint(f), observedGeneration := f.generation);
          SetCondition(Condition(AVAILABLE, phase == Ready, PhaseName(phase),
                                 Decimal(n) + "/" + Decimal(Replicas(f.spec)) + " replicas available", now));
      }
    }
  }

  // ----- the cluster and interleaved reconciles -----

  datatype Stage = AtService | AtDeployment | AtWrite(verdict: Verdict, now: int)

  datatype Job = Job(snapshot: Feature, stage: Stage)

  /** One accepted status write: the replica count it reports, none after an error, and the time
      it carried. */
  datatype Write = Write(seen: Option<nat>, stamp: int)

  function SeenBy(v: Verdict): (n: Option<nat>)
  {
    match v case Errored(_, _) => None case Observed(n) => Some(n)
  }

  datatype Cluster = Cluster(
    features: map<Key, Feature>, deployments: map<Key, Deployment>, services: map<Key, Service>,
    jobs: map<nat, Job>, nextVersion: nat, writes: map<Key, seq<Write>>)

  const EMPTY_CLUSTER := Cluster(map[], map[], map[], map[], 0, map[])

  datatype Event =
    | Create(key: Key, spec: Spec)
    | Edit(key: Key, spec: Spec)
    | Delete(key: Key)
    | ForeignCondition(key: Key, condition: Condition)
    | Scale(key: Key, available: nat)
    | Begin(worker: nat, key: Key)
    | ServiceStep(worker: nat, error: Option<string>, now: int)
    | DeploymentStep(worker: nat, error: Option<string>, now: int)
    | WriteStep(worker: nat, lost: bool)

  /** Stores a changed object under a fresh version; an unchanged one keeps its version. */
  function Store(c: Cluster, f: Feature): (r: Cluster)
  {
    if f.key in c.features && c.features[f.key] == f then c
    else c.(features := c.features[f.key := f.(version := c.nextVersion)], nextVersion := c.nextVersion + 1)
  }

  function AvailableIn(c: Cluster, k: Key): (n: nat)
  {
    if k in c.deployments then c.deployments[k].available else 0
  }

  function WritesOf(c: Cluster, k: Key): (w: seq<Write>)
  {
    if k in c.writes then c.writes[k] else []
  }

  /** A status write succeeds only against the version it was computed from. */
  function FinishWrite(c: Cluster, job: Job, lost: bool): (r: Cluster)
    requires job.stage.AtWrite?
  {
    var k := job.snapshot.key;
    if lost || k !in c.features || c.features[k].version != job.snapshot.version then c
    else
      Store(c, c.features[k].(status := StatusAfter(job.snapshot, job.stage.verdict, job.stage.now)))
      .(writes := c.writes[k := WritesOf(c, k) + [Write(SeenBy(job.stage.verdict), job.stage.now)]])
  }

  function OnCreate(c: Cluster, k: Key, spec: Spec): (r: Cluster)
  {
    if k in c.features then c
    else Store(c.(writes := c.writes - {k}), Feature(k, 1, 0, spec, Status(Unset, "", 0, [])))
  }

  function OnEdit(c: Cluster, k: Key, spec: Spec): (r: Cluster)
  {
    if k !in c.features || c.features[k].spec == spec then c
    else Store(c, c.features[k].(spec := spec, generation := c.features[k].generation + 1))
  }

  /** Owned objects are garbage-collected with their Feature. */
  function OnDelete(c: Cluster, k: Key): (r: Cluster)
  {
    c.(features := c.features - {k}, deployments := c.deployments - {k}, services := c.services - {k})
  }

  function OnForeign(c: Cluster, k: Key, condition: Condition): (r: Cluster)
  {
    if k !in c.features || condition.ctype == AVAILABLE then c
    else
      var f := c.features[k];
      Store(c, f.(status := f.status.(conditions := Upsert(f.status.conditions, condition))))
  }

  function OnScale(c: Cluster, k: Key, n: nat): (r: Cluster)
  {
    if k in c.deployments then c.(deployments := c.deployments[k := c.deployments[k].(available := n)]) else c
  }

  /** Reading the Feature; a Feature that is gone ends the reconcile at once. */
  function OnBegin(c: Cluster, w: nat, k: Key): (r: Cluster)
  {
    if k in c.features then c.(jobs := c.jobs[w := Job(c.features[k], AtService)]) else c
  }

  function OnService(c: Cluster, w: nat, error: Option<string>, now: int): (r: Cluster)
  {
    if w !in c.jobs || !c.jobs[w].stage.AtService? then c
    else
      var job := c.jobs[w];
      match error
      case Some(message) => c.(jobs := c.jobs[w := job.(stage := AtWrite(Errored("ServiceError", message), now))])
      case None => c.(services := c.services[job.snapshot.key := DesiredService(job.snapshot)],
                      jobs := c.jobs[w := job.(stage := AtDeployment)])
  }

  function OnDeployment(c: Cluster, w: nat, error: Option<string>, now: int): (r: Cluster)
  {
    if w !in c.jobs || !c.jobs[w].stage.AtDeployment? then c
    else
      var job := c.jobs[w];
      var n := AvailableIn(c, job.snapshot.key);
      match error
      case Some(message) => c.(jobs := c.jobs[w := job.(stage := AtWrite(Errored("DeploymentError", message), now))])
      case None => c.(deployments := c.deployments[job.snapshot.key := DesiredDeployment(job.snapshot, n)],
                      jobs := c.jobs[w := job.(stage := AtWrite(Observed(n), now))])
  }

  function OnWrite(c: Cluster, w: nat, lost: bool): (r: Cluster)
  {
    if w !in c.jobs || !c.jobs[w].stage.AtWrite? then c
    else FinishWrite(c.(jobs := c.jobs - {w}), c.jobs[w], lost)
  }

  function Step(c: Cluster, e: Event): (r: Cluster)
  {
    match e
    case Create(k, spec) => OnCreate(c, k, spec)
    case Edit(k, spec) => OnEdit(c, k, spec)
    case Delete(k) => OnDelete(c, k)
    case ForeignCondition(k, condition) => OnForeign(c, k, condition)
    case Scale(k, n) => OnScale(c, k, n)
    case Begin(w, k) => OnBegin(c, w, k)
    case ServiceStep(w, error, now) => OnService(c, w, error, now)
    case DeploymentStep(w, error, now) => OnDeployment(c, w, error, now)
    case WriteStep(w, lost) => OnWrite(c, w, lost)
  }

  function RunFrom(c: Cluster, events: seq<Event>): (r: Cluster)
    decreases |events|
  {
    if events == [] then c else RunFrom(Step(c, events[0]), events[1..])
  }

  // ----- what every reachable cluster satisfies -----

  /** The write reports at least one available replica. */
  predicate Up(w: Write) { w.seen.Some? && w.seen.value > 0 }

  /** j is the first write of the current stretch of equal status. */
  ghost predicate StretchStart(ws: seq<Write>, j: int)
  {
    && 0 <= j < |ws|
    && (forall i :: j <= i < |ws| ==> (Up(ws[i]) <==> Up(ws[|ws| - 1])))
    && (j > 0 ==> Up(ws[j - 1]) != Up(ws[j]))
  }

  /** The phase says what the last write saw: replicas, none of them, or an error. */
  ghost predicate PhaseFits(p: Phase, ws: seq<Write>)
  {
    && (p == Unset <==> ws == [])
    && (p == Ready <==> ws != [] && Up(ws[|ws| - 1]))
    && (p == Provisioning <==> ws != [] && ws[|ws| - 1].seen == Some(0))
    && (p == Failed <==> ws != [] && ws[|ws| - 1].seen == None)
  }

  ghost predicate StatusOk(f: Feature, ws: seq<Write>)
  {
    var available := Find(f.status.conditions, AVAILABLE);
    && Count(f.status.conditions, AVAILABLE) <= 1
    && PhaseFits(f.status.phase, ws)
    && f.status.observedGeneration <= f.generation
    && (available.Some? <==> ws != [])
    && (ws != [] ==> (available.value.status <==> Up(ws[|ws| - 1]))
                     && exists j :: StretchStart(ws, j) && available.value.transition == ws[j].stamp)
  }

  ghost predicate LabelsOk(c: Cluster)
  {
    && (forall k :: k in c.deployments ==>
          c.deployments[k].selector == LabelsFor(k.name) && c.deployments[k].podLabels == LabelsFor(k.name))
    && (forall k :: k in c.services ==> c.services[k].selector == LabelsFor(k.name))
  }

  /** A snapshot whose version is still current is the current object. */
  ghost predicate SnapshotsOk(c: Cluster)
  {
    && (forall k :: k in c.features ==> c.features[k].key == k && c.features[k].version < c.nextVersion)
    && (forall w :: w in c.jobs ==> c.jobs[w].snapshot.version < c.nextVersion)
    && (forall w :: w in c.jobs && c.jobs[w].snapshot.key in c.features
          && c.features[c.jobs[w].snapshot.key].version == c.jobs[w].snapshot.version
          ==> c.features[c.jobs[w].snapshot.key] == c.jobs[w].snapshot)
  }

  ghost predicate StatusesOk(c: Cluster)
  {
    forall k :: k in c.features ==> StatusOk(c.features[k], WritesOf(c, k))
  }

  ghost predicate Inv(c: Cluster)
  {
    SnapshotsOk(c) && StatusesOk(c) && LabelsOk(c)
  }

  /** Extending the history by one write either continues the stretch or starts a new one. */
  lemma StretchExtends(ws: seq<Write>, w: Write, j: int)
    requires ws != [] ==> StretchStart(ws, j)
    ensures var start := if ws != [] && Up(ws[|ws| - 1]) == Up(w) then j else |ws|;
            StretchStart(ws + [w], start)
  {}

  lemma WriteKeepsStatusOk(f: Feature, ws: seq<Write>, v: Verdict, now: int)
    requires StatusOk(f, ws)
    ensures StatusOk(f.(status := StatusAfter(f, v, now)), ws + [Write(SeenBy(v), now)])
  {
    var c := ConditionFor(f, v, now);
    var cs := f.status.conditions;
    UpsertEffect(cs, c, AVAILABLE);
    var w := Write(SeenBy(v), now);
    var j :| ws != [] ==> StretchStart(ws, j) && Find(cs, AVAILABLE).value.transition == ws[j].stamp;
    StretchExtends(ws, w, j);
    var start := if ws != [] && Up(ws[|ws| - 1]) == Up(w) then j else |ws|;
    assert StretchStart(ws + [w], start);
    assert Find(Upsert(cs, c), AVAILABLE).value.transition == (ws + [w])[start].stamp;
  }

  lemma StoreKeepsSnapshots(c: Cluster, f: Feature)
    requires SnapshotsOk(c)
    ensures SnapshotsOk(Store(c, f))
  {}

  lemma StoreKeepsStatuses(c: Cluster, f: Feature, ws: map<Key, seq<Write>>)
    requires StatusesOk(c)
    requires forall k :: k in c.features && k != f.key ==>
               (k in ws <==> k in c.writes) && (k in ws ==> ws[k] == c.writes[k])
    requires StatusOk(f, if f.key in ws then ws[f.key] else [])
    ensures StatusesOk(Store(c, f).(writes := ws))
  {
    var c' := Store(c, f).(writes := ws);
    forall k | k in c'.features ensures StatusOk(c'.features[k], WritesOf(c', k)) {
      StoredFeature(c, f, k);
      if k != f.key {
        assert StatusOk(c.features[k], WritesOf(c, k));
      } else {
        StatusIgnoresVersion(f, c.nextVersion, WritesOf(c', k));
      }
    }
  }

  lemma StoredFeature(c: Cluster, f: Feature, k: Key)
    requires k in Store(c, f).features
    ensures k != f.key ==> k in c.features && Store(c, f).features[k] == c.features[k]
    ensures k == f.key ==> Store(c, f).features[k] == f || Store(c, f).features[k] == f.(version := c.nextVersion)
  {}

  lemma StatusIgnoresVersion(f: Feature, version: nat, ws: seq<Write>)
    requires StatusOk(f, ws)
    ensures StatusOk(f.(version := version), ws)
  {}

  // ----- each event keeps the invariant -----

  lemma StoreKeepsInv(c: Cluster, f: Feature, ws: map<Key, seq<Write>>)
    requires Inv(c)
    requires forall k :: k in c.features && k != f.key ==>
               (k in ws <==> k in c.writes) && (k in ws ==> ws[k] == c.writes[k])
    requires StatusOk(f, if f.key in ws then ws[f.key] else [])
    ensures Inv(Store(c, f).(writes := ws))
  {
    StoreKeepsSnapshots(c, f);
    StoreKeepsStatuses(c, f, ws);
  }

  lemma CreateKeepsInv(c: Cluster, k: Key, spec: Spec)
    requires Inv(c)
    ensures Inv(OnCreate(c, k, spec))
  {
    if k !in c.features {
      var f := Feature(k, 1, 0, spec, Status(Unset, "", 0, []));
      var ws := c.writes - {k};
      StoreKeepsInv(c, f, ws);
      assert OnCreate(c, k, spec) == Store(c, f).(writes := ws);
    }
  }

  lemma EditKeepsInv(c: Cluster, k: Key, spec: Spec)
    requires Inv(c)
    ensures Inv(OnEdit(c, k, spec))
  {
    if k in c.features && c.features[k].spec != spec {
      assert StatusOk(c.features[k], WritesOf(c, k)) && c.features[k].key == k;
      var f := c.features[k].(spec := spec, generation := c.features[k].generation + 1);
      EditKeepsStatusOk(c.features[k], f, WritesOf(c, k));
      StoreKeepsInv(c, f, c.writes);
      EditIsStore(c, k, spec);
    }
  }

  lemma EditIsStore(c: Cluster, k: Key, spec: Spec)
    requires k in c.features && c.features[k].spec != spec
    ensures var f := c.features[k].(spec := spec, generation := c.features[k].generation + 1);
            OnEdit(c, k, spec) == Store(c, f).(writes := c.writes)
  {}

  lemma EditKeepsStatusOk(f: Feature, g: Feature, ws: seq<Write>)
    requires StatusOk(f, ws) && g.status == f.status && g.generation >= f.generation
    ensures StatusOk(g, ws)
  {}

  lemma ForeignKeepsInv(c: Cluster, k: Key, condition: Condition)
    requires Inv(c)
    ensures Inv(OnForeign(c, k, condition))
  {
    if k in c.features && condition.ctype != AVAILABLE {
      var f := c.features[k];
      assert StatusOk(f, WritesOf(c, k));
      UpsertEffect(f.status.conditions, condition, AVAILABLE);
      StoreKeepsInv(c, f.(status := f.status.(conditions := Upsert(f.status.conditions, condition))), c.writes);
    }
  }

  lemma FewerFeaturesKeepStatuses(c: Cluster, c': Cluster)
    requires StatusesOk(c) && c'.writes == c.writes
    requires forall k :: k in c'.features ==> k in c.features && c'.features[k] == c.features[k]
    ensures StatusesOk(c')
  {
    forall k | k in c'.features ensures StatusOk(c'.features[k], WritesOf(c', k)) {
      assert StatusOk(c.features[k], WritesOf(c, k));
    }
  }

  lemma DeleteKeepsInv(c: Cluster, k: Key)
    requires Inv(c)
    ensures Inv(OnDelete(c, k))
  {
    FewerFeaturesKeepStatuses(c, OnDelete(c, k));
  }

  lemma ScaleKeepsInv(c: Cluster, k: Key, n: nat)
    requires Inv(c)
    ensures Inv(OnScale(c, k, n))
  {
    FewerFeaturesKeepStatuses(c, OnScale(c, k, n));
  }

  /** A job may be added or moved on as long as its snapshot is an honest one. */
  lemma JobKeepsSnapshots(c: Cluster, w: nat, job: Job)
    requires SnapshotsOk(c) && job.snapshot.version < c.nextVersion
    requires job.snapshot.key in c.features && c.features[job.snapshot.key].version == job.snapshot.version
             ==> c.features[job.snapshot.key] == job.snapshot
    ensures SnapshotsOk(c.(jobs := c.jobs[w := job]))
  {}

  lemma BeginKeepsInv(c: Cluster, w: nat, k: Key)
    requires Inv(c)
    ensures Inv(OnBegin(c, w, k))
  {
    if k in c.features {
      JobKeepsSnapshots(c, w, Job(c.features[k], AtService));
      FewerFeaturesKeepStatuses(c, OnBegin(c, w, k));
    }
  }

  lemma ServiceKeepsInv(c: Cluster, w: nat, error: Option<string>, now: int)
    requires Inv(c)
    ensures Inv(OnService(c, w, error, now))
  {
    var c' := OnService(c, w, error, now);
    if w in c.jobs && c.jobs[w].stage.AtService? {
      JobKeepsSnapshots(c, w, c'.jobs[w]);
      FewerFeaturesKeepStatuses(c, c');
    }
  }

  lemma DeploymentKeepsInv(c: Cluster, w: nat, error: Option<string>, now: int)
    requires Inv(c)
    ensures Inv(OnDeployment(c, w, error, now))
  {
    var c' := OnDeployment(c, w, error, now);
    if w in c.jobs && c.jobs[w].stage.AtDeployment? {
      JobKeepsSnapshots(c, w, c'.jobs[w]);
      FewerFeaturesKeepStatuses(c, c');
    }
  }

  lemma WriteKeepsInv(c: Cluster, w: nat, lost: bool)
    requires Inv(c)
    ensures Inv(OnWrite(c, w, lost))
  {
    if w in c.jobs && c.jobs[w].stage.AtWrite? {
      var c0 := c.(jobs := c.jobs - {w});
      FewerFeaturesKeepStatuses(c, c0);
      FinishKeepsInv(c0, c.jobs[w], lost);
    }
  }

  lemma FinishKeepsInv(c: Cluster, job: Job, lost: bool)
    requires Inv(c) && job.stage.AtWrite?
    requires job.snapshot.key in c.features && c.features[job.snapshot.key].version == job.snapshot.version
             ==> c.features[job.snapshot.key] == job.snapshot
    ensures Inv(FinishWrite(c, job, lost))
  {
    var f, v, now := job.snapshot, job.stage.verdict, job.stage.now;
    if !lost && f.key in c.features && c.features[f.key].version == f.version {
      var ws := c.writes[f.key := WritesOf(c, f.key) + [Write(SeenBy(v), now)]];
      assert StatusOk(f, WritesOf(c, f.key));
      WriteKeepsStatusOk(f, WritesOf(c, f.key), v, now);
      StoreKeepsInv(c, f.(status := StatusAfter(f, v, now)), ws);
    }
  }

  lemma StepKeepsInv(c: Cluster, e: Event)
    requires Inv(c)
    ensures Inv(Step(c, e))
  {
    match e
    case Create(k, spec) => CreateKeepsInv(c, k, spec);
    case Edit(k, spec) => EditKeepsInv(c, k, spec);
    case Delete(k) => DeleteKeepsInv(c, k);
    case ForeignCondition(k, condition) => ForeignKeepsInv(c, k, condition);
    case Scale(k, n) => ScaleKeepsInv(c, k, n);
    case Begin(w, k) => BeginKeepsInv(c, w, k);
    case ServiceStep(w, error, now) => ServiceKeepsInv(c, w, error, now);
    case DeploymentStep(w, error, now) => DeploymentKeepsInv(c, w, error, now);
    case WriteStep(w, lost) => WriteKeepsInv(c, w, lost);
  }

  lemma {:induction false} RunKeepsInv(c: Cluster, events: seq<Event>)
    requires Inv(c)
    ensures Inv(RunFrom(c, events))
    decreases |events|
  {
    if events != [] {
      StepKeepsInv(c, events[0]);
      RunKeepsInv(Step(c, events[0]), events[1..]);
    }
  }

  /** In every run: the phase is Ready, Provisioning or Failed exactly as the last write saw
      replicas, none, or an error; there is at most one Available condition, True exactly when
      that write saw replicas, with the time of the first write in the current stretch of equal
      status; observedGeneration never exceeds generation. */
  lemma StatusIsCoherent(events: seq<Event>, k: Key)
    requires k in RunFrom(EMPTY_CLUSTER, events).features
    ensures var c := RunFrom(EMPTY_CLUSTER, events);
            StatusOk(c.features[k], WritesOf(c, k))
  {
    RunKeepsInv(EMPTY_CLUSTER, events);
  }

  // ----- nothing is reported that was not there -----

  /** A claim about replica counts. */
  type Claim = (Key, nat) -> bool

  /** Every replica count a worker is about to report or has reported satisfies p. */
  ghost predicate Justified(c: Cluster, p: Claim)
  {
    && (forall w :: w in c.jobs && c.jobs[w].stage.AtWrite? && c.jobs[w].stage.verdict.Observed? ==>
          p(c.jobs[w].snapshot.key, c.jobs[w].stage.verdict.available))
    && (forall k, i :: k in c.writes && 0 <= i < |c.writes[k]| && c.writes[k][i].seen.Some? ==>
          p(k, c.writes[k][i].seen.value))
  }

  lemma FinishKeepsJustified(c: Cluster, job: Job, lost: bool, p: Claim)
    requires Justified(c, p) && job.stage.AtWrite?
    requires job.stage.verdict.Observed? ==> p(job.snapshot.key, job.stage.verdict.available)
    ensures Justified(FinishWrite(c, job, lost), p)
  {}

  lemma WriteKeepsJustified(c: Cluster, w: nat, lost: bool, p: Claim)
    requires Justified(c, p)
    ensures Justified(OnWrite(c, w, lost), p)
  {
    if w in c.jobs && c.jobs[w].stage.AtWrite? {
      FinishKeepsJustified(c.(jobs := c.jobs - {w}), c.jobs[w], lost, p);
    }
  }

  lemma DeploymentKeepsJustified(c: Cluster, w: nat, error: Option<string>, now: int, p: Claim)
    requires Justified(c, p) && forall k :: p(k, AvailableIn(c, k))
    ensures Justified(OnDeployment(c, w, error, now), p)
  {
    if w in c.jobs {
      assert p(c.jobs[w].snapshot.key, AvailableIn(c, c.jobs[w].snapshot.key));
    }
  }

  lemma ServiceKeepsJustified(c: Cluster, w: nat, error: Option<string>, now: int, p: Claim)
    requires Justified(c, p)
    ensures Justified(OnService(c, w, error, now), p)
  {}

  /** Events outside a worker's service, deployment and write steps report nothing. */
  lemma OthersKeepJustified(c: Cluster, e: Event, p: Claim)
    requires Justified(c, p) && !e.ServiceStep? && !e.DeploymentStep? && !e.WriteStep?
    ensures Justified(Step(c, e), p)
  {}

  lemma StepKeepsJustified(c: Cluster, e: Event, p: Claim)
    requires Justified(c, p) && forall k :: p(k, AvailableIn(c, k))
    ensures Justified(Step(c, e), p)
  {
    match e
    case ServiceStep(w, error, now) => ServiceKeepsJustified(c, w, error, now, p);
    case DeploymentStep(w, error, now) => DeploymentKeepsJustified(c, w, error, now, p);
    case WriteStep(w, lost) => WriteKeepsJustified(c, w, lost, p);
    case _ => OthersKeepJustified(c, e, p);
  }

  lemma {:induction false} RunSnoc(c: Cluster, events: seq<Event>, e: Event)
    ensures RunFrom(c, events + [e]) == Step(RunFrom(c, events), e)
    decreases |events|
  {
    if events == [] {
      assert events + [e] == [e] && [e][1..] == [];
    } else {
      assert (events + [e])[1..] == events[1..] + [e];
      RunSnoc(Step(c, events[0]), events[1..], e);
    }
  }

  /** At some moment of the run k's Deployment had n available replicas. */
  ghost predicate WasAvailable(events: seq<Event>, k: Key, n: nat)
  {
    exists m :: 0 <= m <= |events| && AvailableIn(RunFrom(EMPTY_CLUSTER, events[..m]), k) == n
  }

  lemma WasAvailableGrows(events: seq<Event>, e: Event, k: Key, n: nat)
    requires WasAvailable(events, k, n)
    ensures WasAvailable(events + [e], k, n)
  {
    var m :| 0 <= m <= |events| && AvailableIn(RunFrom(EMPTY_CLUSTER, events[..m]), k) == n;
    assert (events + [e])[..m] == events[..m];
  }

  lemma JustifiedWeakens(c: Cluster, p: Claim, q: Claim)
    requires Justified(c, p) && forall k, n :: p(k, n) ==> q(k, n)
    ensures Justified(c, q)
  {}

  ghost function WasAvailableIn(events: seq<Event>): (p: Claim)
  {
    (k: Key, n: nat) => WasAvailable(events, k, n)
  }

  lemma {:induction false} RunIsJustified(events: seq<Event>)
    ensures Justified(RunFrom(EMPTY_CLUSTER, events), WasAvailableIn(events))
    decreases |events|
  {
    if events != [] {
      var before, e := events[..|events| - 1], events[|events| - 1];
      var c := RunFrom(EMPTY_CLUSTER, before);
      assert events == before + [e];
      RunIsJustified(before);
      forall k, n | WasAvailable(before, k, n) ensures WasAvailable(events, k, n) {
        WasAvailableGrows(before, e, k, n);
      }
      JustifiedWeakens(c, WasAvailableIn(before), WasAvailableIn(events));
      forall k ensures WasAvailable(events, k, AvailableIn(c, k)) {
        assert events[..|before|] == before;
      }
      StepKeepsJustified(c, e, WasAvailableIn(events));
      RunSnoc(EMPTY_CLUSTER, before, e);
    }
  }

  /** In every run a Feature is Ready only if at some moment its Deployment existed and had
      available replicas. */
  lemma ReadyWasObserved(events: seq<Event>, k: Key)
    requires var c := RunFrom(EMPTY_CLUSTER, events); k in c.features && c.features[k].status.phase == Ready
    ensures exists m :: 0 <= m <= |events| && Deployed(RunFrom(EMPTY_CLUSTER, events[..m]), k)
  {
    var n := ReadyCount(events, k);
    var m := WhenAvailable(events, k, n);
  }

  lemma ReadyCount(events: seq<Event>, k: Key) returns (n: nat)
    requires var c := RunFrom(EMPTY_CLUSTER, events); k in c.features && c.features[k].status.phase == Ready
    ensures n > 0 && WasAvailableIn(events)(k, n)
  {
    RunKeepsInv(EMPTY_CLUSTER, events);
    RunIsJustified(events);
    n := ReadySaw(RunFrom(EMPTY_CLUSTER, events), k, WasAvailableIn(events));
  }

  lemma WhenAvailable(events: seq<Event>, k: Key, n: nat) returns (m: nat)
    requires WasAvailableIn(events)(k, n) && n > 0
    ensures m <= |events| && Deployed(RunFrom(EMPTY_CLUSTER, events[..m]), k)
  {
    m :| 0 <= m <= |events| && AvailableIn(RunFrom(EMPTY_CLUSTER, events[..m]), k) == n;
  }

  /** k's Deployment exists and has available replicas. */
  predicate Deployed(c: Cluster, k: Key)
  {
    k in c.deployments && c.deployments[k].available > 0
  }

  lemma ReadySaw(c: Cluster, k: Key, p: Claim) returns (n: nat)
    requires Inv(c) && Justified(c, p) && k in c.features && c.features[k].status.phase == Ready
    ensures n > 0 && p(k, n)
  {
    var ws := WritesOf(c, k);
    assert StatusOk(c.features[k], ws);
    n := ws[|ws| - 1].seen.value;
  }

  /** No event lowers a Feature's observedGeneration, whatever the interleaving before it. */
  lemma ObservedGenerationNeverDecreases(events: seq<Event>, e: Event, k: Key)
    requires var c := RunFrom(EMPTY_CLUSTER, events); k in c.features && k in Step(c, e).features
    ensures var c := RunFrom(EMPTY_CLUSTER, events);
            Step(c, e).features[k].status.observedGeneration >= c.features[k].status.observedGeneration
  {
    RunKeepsInv(EMPTY_CLUSTER, events);
    StepRaisesObserved(RunFrom(EMPTY_CLUSTER, events), e, k);
  }

  /** The observed generation of k has not fallen, if k is still there. */
  ghost predicate KeepsObserved(c: Cluster, c': Cluster, k: Key)
    requires k in c.features
  {
    k in c'.features ==> c'.features[k].status.observedGeneration >= c.features[k].status.observedGeneration
  }

  lemma StepRaisesObserved(c: Cluster, e: Event, k: Key)
    requires Inv(c) && k in c.features
    ensures KeepsObserved(c, Step(c, e), k)
  {
    match e
    case Create(j, spec) => CreateKeepsObserved(c, j, spec, k);
    case Edit(j, spec) => EditKeepsObserved(c, j, spec, k);
    case ForeignCondition(j, condition) => ForeignKeepsObserved(c, j, condition, k);
    case WriteStep(w, lost) => WriteRaisesObserved(c, w, lost, k);
    case Delete(j) => assert OnDelete(c, j).features == c.features - {j};
    case _ => OtherEventsKeepFeatures(c, e);
  }

  lemma OtherEventsKeepFeatures(c: Cluster, e: Event)
    requires e.Scale? || e.Begin? || e.ServiceStep? || e.DeploymentStep?
    ensures Step(c, e).features == c.features
  {}

  lemma CreateKeepsObserved(c: Cluster, j: Key, spec: Spec, k: Key)
    requires k in c.features
    ensures KeepsObserved(c, OnCreate(c, j, spec), k)
  {}

  lemma EditKeepsObserved(c: Cluster, j: Key, spec: Spec, k: Key)
    requires Inv(c) && k in c.features
    ensures KeepsObserved(c, OnEdit(c, j, spec), k)
  {
    if j in c.features {
      assert c.features[j].key == j;
    }
  }

  lemma ForeignKeepsObserved(c: Cluster, j: Key, condition: Condition, k: Key)
    requires Inv(c) && k in c.features
    ensures KeepsObserved(c, OnForeign(c, j, condition), k)
  {
    if j in c.features {
      assert c.features[j].key == j;
    }
  }

  lemma WriteRaisesObserved(c: Cluster, w: nat, lost: bool, k: Key)
    requires Inv(c) && k in c.features
    ensures KeepsObserved(c, OnWrite(c, w, lost), k)
  {
    if w in c.jobs && c.jobs[w].stage.AtWrite? {
      assert StatusOk(c.features[k], WritesOf(c, k));
      FinishRaisesObserved(c.(jobs := c.jobs - {w}), c.jobs[w], lost, k);
    }
  }

  lemma FinishRaisesObserved(c: Cluster, job: Job, lost: bool, k: Key)
    requires job.stage.AtWrite? && k in c.features
    requires c.features[k].status.observedGeneration <= c.features[k].generation
    requires job.snapshot.key == k && c.features[k].version == job.snapshot.version ==> c.features[k] == job.snapshot
    requires job.snapshot.key in c.features ==> c.features[job.snapshot.key].key == job.snapshot.key
    ensures FinishWrite(c, job, lost).features[k].status.observedGeneration >= c.features[k].status.observedGeneration
  {}

  // ----- labels and selectors -----

  predicate Selects(selector: Labels, labels: Labels)
  {
    forall l :: l in selector ==> l in labels && labels[l] == selector[l]
  }

  /** A Deployment's selector never changes while it exists. */
  lemma SelectorNeverChanges(events: seq<Event>, e: Event, k: Key)
    requires var c := RunFrom(EMPTY_CLUSTER, events); k in c.deployments && k in Step(c, e).deployments
    ensures var c := RunFrom(EMPTY_CLUSTER, events);
            Step(c, e).deployments[k].selector == c.deployments[k].selector
  {
    RunKeepsInv(EMPTY_CLUSTER, events);
    StepKeepsInv(RunFrom(EMPTY_CLUSTER, events), e);
  }

  /** Within a namespace a Service selects the pods of its own feature and of no other. */
  lemma ServiceSelectsOwnPods(events: seq<Event>, s: Key, d: Key)
    requires var c := RunFrom(EMPTY_CLUSTER, events); s in c.services && d in c.deployments
    requires s.namespace == d.namespace
    ensures var c := RunFrom(EMPTY_CLUSTER, events);
            Selects(c.services[s].selector, c.deployments[d].podLabels) <==> s == d
  {
    RunKeepsInv(EMPTY_CLUSTER, events);
    assert FEATURE_LABEL in LabelsFor(s.name) && LabelsFor(s.name)[FEATURE_LABEL] == s.name;
    assert LabelsFor(d.name)[FEATURE_LABEL] == d.name;
  }

  // ----- undisturbed reconciles -----

  /** How the calls of one reconcile end: the two upserts and the status write. */
  datatype Calls = Calls(serviceError: Option<string>, deploymentError: Option<string>, lost: bool)

  /** A reconcile of worker w that nothing interferes with. */
  function Reconcile(c: Cluster, w: nat, k: Key, calls: Calls, now: int): (r: Cluster)
  {
    var c1 := OnService(OnBegin(c, w, k), w, calls.serviceError, now);
    OnWrite(OnDeployment(c1, w, calls.deploymentError, now), w, calls.lost)
  }

  function VerdictOf(c: Cluster, k: Key, calls: Calls): (v: Verdict)
  {
    match calls.serviceError
    case Some(message) => Errored("ServiceError", message)
    case None =>
      match calls.deploymentError
      case Some(message) => Errored("DeploymentError", message)
      case None => Observed(AvailableIn(c, k))
  }

  /** Service and Deployment as the spec asks, whatever they were before. */
  function Prepared(c: Cluster, f: Feature, calls: Calls, v: Verdict): (r: Cluster)
  {
    var c1 := if calls.serviceError.None? then c.(services := c.services[f.key := DesiredService(f)]) else c;
    if v.Observed? then c1.(deployments := c1.deployments[f.key := DesiredDeployment(f, v.available)]) else c1
  }

  /** The objects a reconcile leaves behind, with the status its verdict implies. */
  function Reconciled(c: Cluster, k: Key, calls: Calls, now: int): (r: Cluster)
    requires k in c.features
  {
    var f := c.features[k];
    var v := VerdictOf(c, k, calls);
    FinishWrite(Prepared(c, f, calls, v), Job(f, AtWrite(v, now)), calls.lost)
  }

  lemma ServiceThenDeployment(c: Cluster, w: nat, f: Feature, calls: Calls, now: int)
    requires w in c.jobs && c.jobs[w] == Job(f, AtService)
    ensures var v := VerdictOf(c, f.key, calls);
            var c' := OnDeployment(OnService(c, w, calls.serviceError, now), w, calls.deploymentError, now);
            c' == Prepared(c, f, calls, v).(jobs := c.jobs[w := Job(f, AtWrite(v, now))])
  {
    var c2 := OnService(c, w, calls.serviceError, now);
    match calls.serviceError
    case Some(message) => assert c2.jobs[w].stage.AtWrite?;
    case None =>
      assert c2.jobs[w] == Job(f, AtDeployment) && AvailableIn(c2, f.key) == AvailableIn(c, f.key);
      assert c2.jobs == c.jobs[w := Job(f, AtDeployment)];
  }

  /** The four steps of an undisturbed reconcile, as one change of the cluster. */
  lemma ReconcileMeaning(c: Cluster, w: nat, k: Key, calls: Calls, now: int)
    requires w !in c.jobs && k in c.features && c.features[k].key == k
    ensures Reconcile(c, w, k, calls, now) == Reconciled(c, k, calls, now)
  {
    var f := c.features[k];
    var v := VerdictOf(c, k, calls);
    var job := Job(f, AtWrite(v, now));
    var base := Prepared(c, f, calls, v);
    var c1 := OnBegin(c, w, k);
    ServiceThenDeployment(c1, w, f, calls, now);
    assert VerdictOf(c1, k, calls) == v;
    PreparedIgnoresJobs(c, c1.jobs, f, calls, v);
    assert c1.jobs[w := job] == base.jobs[w := job];
    WriteEndsJob(base, w, job, calls.lost);
  }

  lemma PreparedIgnoresJobs(c: Cluster, jobs: map<nat, Job>, f: Feature, calls: Calls, v: Verdict)
    ensures Prepared(c.(jobs := jobs), f, calls, v) == Prepared(c, f, calls, v).(jobs := jobs)
    ensures Prepared(c, f, calls, v).jobs == c.jobs
  {}

  /** A Feature that is gone is left alone. */
  lemma ReconcileOfMissing(c: Cluster, w: nat, k: Key, calls: Calls, now: int)
    requires w !in c.jobs && k !in c.features
    ensures Reconcile(c, w, k, calls, now) == c
  {}

  lemma WriteEndsJob(c: Cluster, w: nat, job: Job, lost: bool)
    requires w !in c.jobs && job.stage.AtWrite?
    ensures OnWrite(c.(jobs := c.jobs[w := job]), w, lost) == FinishWrite(c, job, lost)
  {
    assert c.jobs[w := job] - {w} == c.jobs;
  }

  /** The controller: one uninterrupted call of Reconcile against the API objects. */
  class FeatureReconciler {
    var cluster: Cluster

    method Run(w: nat, k: Key, calls: Calls, now: int)
      requires w !in cluster.jobs && (k in cluster.features ==> cluster.features[k].key == k)
      modifies this
      ensures cluster == Reconcile(old(cluster), w, k, calls, now)
    {
      if k !in cluster.features {
        ReconcileOfMissing(cluster, w, k, calls, now);
        return;
      }
      ReconcileMeaning(cluster, w, k, calls, now);
      ghost var before := cluster;
      var f := cluster.features[k];
      var local := new LocalFeature(f);
      var verdict := Errored("ServiceError", "");
      if calls.serviceError.Some? {
        verdict := Errored("ServiceError", calls.serviceError.value);
      } else {
        cluster := cluster.(services := cluster.services[k := DesiredService(f)]);
        if calls.deploymentError.Some? {
          verdict := Errored("DeploymentError", calls.deploymentError.value);
        } else {
          var n := AvailableIn(cluster, k);
          cluster := cluster.(deployments := cluster.deployments[k := DesiredDeployment(f, n)]);
          verdict := Observed(n);
        }
      }
      local.Conclude(verdict, now);
      if !calls.lost {
        var writes := cluster.writes[k := WritesOf(cluster, k) + [Write(SeenBy(verdict), now)]];
        cluster := Store(cluster, f.(status := local.status)).(writes := writes);
      }
      assert verdict == VerdictOf(before, k, calls);
    }
  }

  lemma StatusAfterIsIdempotent(f: Feature, v: Verdict, now: int, later: int)
    ensures var g := f.(status := StatusAfter(f, v, now)); StatusAfter(g, v, later) == g.status
  {
    UpsertIdempotent(f.status.conditions, ConditionFor(f, v, now), later);
    var g := f.(status := StatusAfter(f, v, now));
    assert ConditionFor(g, v, later) == ConditionFor(f, v, now).(transition := later);
  }

  /** What an accepted or lost write leaves of the Feature. */
  lemma WrittenFeature(c: Cluster, f: Feature, v: Verdict, now: int, lost: bool)
    requires f.key in c.features && c.features[f.key] == f
    ensures var r := FinishWrite(c, Job(f, AtWrite(v, now)), lost);
            && r.jobs == c.jobs && r.services == c.services && r.deployments == c.deployments
            && f.key in r.features
            && r.features[f.key].(version := f.version) == (if lost then f else f.(status := StatusAfter(f, v, now)))
            && (lost || StatusAfter(f, v, now) == f.status ==> r.features == c.features)
  {
    var status := StatusAfter(f, v, now);
    if !lost && status == f.status {
      assert f.(status := status) == f;
    }
  }

  /** What an undisturbed reconcile whose write arrives reports: Failed exactly when a call erred,
      Ready exactly when the Deployment it found had available replicas. */
  lemma ReconcileReports(c: Cluster, w: nat, k: Key, calls: Calls, now: int)
    requires w !in c.jobs && k in c.features && c.features[k].key == k && !calls.lost
    ensures var r := Reconcile(c, w, k, calls, now);
            && k in r.features
            && var s, erred := r.features[k].status, calls.serviceError.Some? || calls.deploymentError.Some?;
               var up := Deployed(c, k);
               var available := Find(s.conditions, AVAILABLE);
               && (s.phase == Failed <==> erred)
               && (s.phase == Ready <==> !erred && up)
               && (s.phase == Provisioning <==> !erred && !up)
               && available.Some? && (available.value.status <==> !erred && up)
               && Explains(available.value, calls, if k in c.deployments then c.deployments[k].available else 0,
                           Replicas(c.features[k].spec))
               && (!erred ==> s.observedGeneration == c.features[k].generation)
               && (erred ==> s.observedGeneration == c.features[k].status.observedGeneration
                             && s.endpoint == c.features[k].status.endpoint)
  {
    ReconciledStatus(c, w, k, calls, now);
    VerdictReports(c.features[k], VerdictOf(c, k, calls), now);
  }

  lemma ReconciledStatus(c: Cluster, w: nat, k: Key, calls: Calls, now: int)
    requires w !in c.jobs && k in c.features && c.features[k].key == k && !calls.lost
    ensures var r := Reconcile(c, w, k, calls, now);
            k in r.features && r.features[k].status == StatusAfter(c.features[k], VerdictOf(c, k, calls), now)
  {
    var f, v := c.features[k], VerdictOf(c, k, calls);
    ReconcileMeaning(c, w, k, calls, now);
    WrittenFeature(Prepared(c, f, calls, v), f, v, now, false);
  }

  /** The condition's reason and message: the failed call and its error, or the phase and n of the
      wanted replicas. */
  predicate Explains(c: Condition, calls: Calls, n: nat, wanted: nat)
  {
    match calls
    case Calls(Some(message), _, _) => c.reason == "ServiceError" && c.message == message
    case Calls(None, Some(message), _) => c.reason == "DeploymentError" && c.message == message
    case Calls(None, None, _) =>
      && c.reason == (if n > 0 then "Ready" else "Provisioning")
      && c.message == Decimal(n) + "/" + Decimal(wanted) + " replicas available"
  }

  lemma VerdictReports(f: Feature, v: Verdict, now: int)
    ensures var s := StatusAfter(f, v, now);
            var available := Find(s.conditions, AVAILABLE);
            && (s.phase == Failed <==> v.Errored?)
            && (s.phase == Ready <==> v.Observed? && v.available > 0)
            && (s.phase == Provisioning <==> v == Observed(0))
            && available.Some? && (available.value.status <==> v.Observed? && v.available > 0)
            && available.value.reason == ConditionFor(f, v, now).reason
            && available.value.message == ConditionFor(f, v, now).message
            && s.observedGeneration == (if v.Observed? then f.generation else f.status.observedGeneration)
            && (v.Errored? ==> s.endpoint == f.status.endpoint)
  {
    UpsertEffect(f.status.conditions, ConditionFor(f, v, now), AVAILABLE);
  }

  /** Field by field, the workloads and the endpoint that an undisturbed reconcile without errors
      leaves behind. */
  lemma ReconcileBuilds(c: Cluster, w: nat, k: Key, now: int)
    requires w !in c.jobs && k in c.features && c.features[k].key == k
    ensures var r := Reconcile(c, w, k, Calls(None, None, false), now);
            var spec := c.features[k].spec;
            && k in r.services && k in r.deployments && k in r.features
            && var s, d := r.services[k], r.deployments[k];
               var portName := if spec.protocol == "" then "grpc" else spec.protocol;
               && s.port == spec.port && s.targetPort == d.container.port == spec.port
               && s.portName == d.container.portName == portName
               && d.container.image == spec.image
               && d.replicas == (if spec.minReplicas.Some? then spec.minReplicas.value else 1)
               && d.available == (if k in c.deployments then c.deployments[k].available else 0)
               && LimitsFit(d.container.limits, spec)
               && r.features[k].status.endpoint
                  == k.name + "." + k.namespace + ".svc.cluster.local:" + Decimal(spec.port)
  {
    var f, calls := c.features[k], Calls(None, None, false);
    var v := VerdictOf(c, k, calls);
    ReconcileMeaning(c, w, k, calls, now);
    WrittenFeature(Prepared(c, f, calls, v), f, v, now, false);
  }

  /** The declared limits, with one unit of the accelerator if one is named. */
  ghost predicate LimitsFit(limits: map<string, string>, spec: Spec)
  {
    && limits.Keys == spec.limits.Keys + (if spec.accelerator == "" then {} else {spec.accelerator})
    && (forall l :: l in spec.limits && l != spec.accelerator ==> limits[l] == spec.limits[l])
    && (spec.accelerator != "" ==> limits[spec.accelerator] == "1")
    && (spec.accelerator == "" ==> limits == spec.limits)
  }

  /** Reconciling again with unchanged spec, generation and replicas, and calls that end the
      same way, is a no-op on every object: timestamps and versions included. */
  lemma ReconcileIsIdempotent(c: Cluster, w: nat, k: Key, calls: Calls, now: int, later: int)
    requires w !in c.jobs && k in c.features && c.features[k].key == k
    ensures var r := Reconcile(c, w, k, calls, now);
            var r2 := Reconcile(r, w, k, calls, later);
            r2.features == r.features && r2.deployments == r.deployments && r2.services == r.services
  {
    var f, v := c.features[k], VerdictOf(c, k, calls);
    ReconcileMeaning(c, w, k, calls, now);
    var r := ReconcileSettles(c, k, calls, now, later);
    ReconcileMeaning(r, w, k, calls, later);
    WrittenFeature(r, r.features[k], v, later, calls.lost);
  }

  /** After a reconcile the workloads are as desired and the status would not change again. */
  lemma ReconcileSettles(c: Cluster, k: Key, calls: Calls, now: int, later: int) returns (r: Cluster)
    requires k in c.features && c.features[k].key == k
    ensures r == Reconciled(c, k, calls, now)
    ensures k in r.features && r.features[k].key == k && r.jobs == c.jobs
    ensures var v := VerdictOf(c, k, calls);
            && VerdictOf(r, k, calls) == v && Prepared(r, r.features[k], calls, v) == r
            && (calls.lost || StatusAfter(r.features[k], v, later) == r.features[k].status)
  {
    var f, v := c.features[k], VerdictOf(c, k, calls);
    r := Reconciled(c, k, calls, now);
    WrittenFeature(Prepared(c, f, calls, v), f, v, now, calls.lost);
    WorkloadsSettle(c, r, f, r.features[k], calls, v);
    if !calls.lost {
      StatusSettles(f, r.features[k], v, now, later);
    }
  }

  lemma WorkloadsSettle(c: Cluster, r: Cluster, f: Feature, g: Feature, calls: Calls, v: Verdict)
    requires v == VerdictOf(c, f.key, calls) && g.key == f.key && g.spec == f.spec
    requires var p := Prepared(c, f, calls, v); r.services == p.services && r.deployments == p.deployments
    ensures VerdictOf(r, f.key, calls) == v && Prepared(r, g, calls, v) == r
  {
    assert DesiredService(g) == DesiredService(f);
    assert v.Observed? ==> DesiredDeployment(g, v.available) == DesiredDeployment(f, v.available);
    assert AvailableIn(r, f.key) == AvailableIn(c, f.key);
  }

  lemma StatusSettles(f: Feature, g: Feature, v: Verdict, now: int, later: int)
    requires g.(version := f.version) == f.(status := StatusAfter(f, v, now))
    ensures StatusAfter(g, v, later) == g.status
  {
    StatusAfterIsIdempotent(f, v, now, later);
    VersionDoesNotMatter(f.(status := StatusAfter(f, v, now)), g, v, later);
  }

  lemma VersionDoesNotMatter(f: Feature, g: Feature, v: Verdict, now: int)
    requires g.(version := f.version) == f
    ensures StatusAfter(f, v, now) == StatusAfter(g, v, now)
  {
    assert ConditionFor(f, v, now) == ConditionFor(g, v, now);
  }
}
