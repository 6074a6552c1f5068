# Agent Features: a verified model of the marketplace engine

Agent Features is a marketplace for agent capabilities: vendors publish features, a gateway
ranks the vendors of a capability by what it has observed of them, calls the best one and
records the outcome; pipelines of such calls are published as composites, written down in the
agent.next language and turned into client stubs; an operator turns each Feature resource into
a Deployment and a Service and reports its status. This project models that engine in Dafny
and proves what it is for.

| file | models |
|---|---|
| `Text.dfy`, `StableSort.dfy` | Python string operations and `sorted`, which everything else is built on |
| `Versions.dfy`, `Catalog.dfy` | version ranges, static ranking, resolution, capability summaries |
| `Ranking.dfy`, `Failover.dfy` | outcome counters, scores, the learned ranking and its feedback loop |
| `MetricsProtocol.dfy` | the metrics store under concurrent writers and lock-free readers |
| `Composer.dfy`, `Gateway.dfy` | composite pipelines, dispatch, accounting and conservation |
| `DispatchProtocol.dfy`, `Bags.dfy` | requests that overlap at their await points, and the multiset of what a table of open calls holds |
| `AgentDsl.dfy`, `AgentGrammar.dfy`, `AgentMeaning.dfy`, `AgentRoundTrip.dfy`, `AgentEdits.dfy`, `AgentClosure.dfy` | the agent.next parser and its properties |
| `Substitution.dfy`, `Codegen.dfy` | template expansion and the stubs of the six target languages |
| `Reconciler.dfy` | the Feature reconciler and its status machine |

How the model reads the source:

- Imperative parts stay imperative: `MetricsStore`, `GatewayApp`, `LocalFeature` and
  `FeatureReconciler` are classes whose methods are proved equal to functions on values, and
  the source's loops are loops. Theorems are about those functions.
- Scores and latencies are exact reals. Versions are read over ASCII digits. White space and
  line breaks are Python's, beyond ASCII.
- Equal `Feature` values stand for the same catalog object, since the ranking keys its
  positions by object identity.
- The outside world is a parameter: what a feature answers may depend on all earlier answers
  (`Gateway.World.service`), and the schema check is an arbitrary function.
- Concurrency is a schedule: a run of the metrics store or of the operator is any finite
  sequence of actions of any number of threads or workers, and theorems hold for all of them.
- A status write of the operator succeeds only against the resource version it was computed
  from, as the API server demands; workers, edits, deletions, replica changes and the
  conditions of other controllers interleave freely.

Where the source and its documentation disagree, the model follows the code:

- `=x` is documented as a comparator but read as a bare version. It means "equal to x" exactly
  when the major component of x is 0 (`Versions.EqualsSignMeaning`).
- "Newest first" fails exactly when one version key is a proper prefix of the other and the
  remaining components are not all 0, so `1` outranks `1.2` (`Catalog.MisorderedExactly`).
- "A 10%+ success-rate gap overrides the trust prior" holds exactly for gaps above 0.10
  (`Ranking.LeadBeatsTrustExactly`).
- Re-declared input fields stay in the required list, so a parsed agent is reproduced by its
  own rendering exactly when that list names each required field once, in declaration order
  (`AgentClosure.AcceptedRoundTrips`).
- A stub is not always its template with the placeholders filled in: a value that spells a later
  placeholder is rewritten, so the stub of an agent named `__DESC__` carries its description
  instead of its name. `Codegen.GeneratedIsExpansion` and `Codegen.StubIsExpansionExactly` say
  exactly when this does not happen.
- A composite step never resolves to another composite, although the module comment says so.

## Model

| member | source | states |
|---|---|---|
| StableSort.AnyStableSortIsSort | gateway/catalog.py:117-124 | any ordered, tie-preserving rearrangement of a list is the one `sorted` returns: the sort is fixed by its contract |
| StableSort.SortIsStable | gateway/catalog.py:117-124 | elements that compare equal keep their list order |
| Versions.ComputeSemverKey | gateway/catalog.py:46-53 | the appending loop yields the components in front of the first `-` |
| Versions.ShowRoundTrip | gateway/catalog.py:56-60 | printing any triple and parsing it gives the triple back |
| Versions.ComparatorMeaning | gateway/catalog.py:94-105 | each comparator in front of a printed triple is the numeric comparison with it |
| Versions.CaretIsInterval | gateway/catalog.py:78-86 | a caret spec accepts exactly what `>=` and `<` on its printed bounds accept, i.e. versions at least the base that agree through its left-most non-zero component |
| Versions.TildeIsInterval | gateway/catalog.py:88-92 | the same for tilde, whose width depends on the number of dotted parts written |
| Versions.EqualsSignMeaning | gateway/catalog.py:63-107 | `=x` accepts exactly the versions equal to x if and only if the major component of x is 0 |
| Versions.BareIsExact | gateway/catalog.py:107 | a printed triple, white space around it or not, is a spec for exactly that version |
| Versions.WildcardsMatchAll | gateway/catalog.py:73-75 | the empty spec, `*`, `latest`, `x` and `X` accept every version |
| Versions.KeyOfDotted | gateway/catalog.py:46-60 | a dotted version of any length has its components as key, whatever `-` suffix follows, and missing components of the triple are 0 |
| Catalog.IdIsInjective | gateway/catalog.py:41-43 | equal ids mean equal vendor, name and version when vendors hold no `/` and names no `@` |
| Catalog.IdIsSharedExactly | gateway/catalog.py:41-43 | another vendor, name and version share a feature's id if and only if the id string holds more than one pair of a `/` and a later `@` |
| Catalog.IdCollides | gateway/catalog.py:41-43 | an instance: name `c` of vendor `a/b` and name `b/c` of vendor `a` share the id `a/b/c@1` |
| Catalog.BaselineIgnoresInputOrder | gateway/catalog.py:110-124 | with distinct keys the static ranking is independent of the input order |
| Catalog.MisorderedExactly | gateway/catalog.py:121 | an older version precedes a newer one exactly when its key is a proper prefix and the rest is not all 0 |
| Catalog.NewestFirstForEqualCounts | gateway/catalog.py:117-124 | with equal component counts and trust, no newer version comes later |
| Catalog.RankedAhead | gateway/catalog.py:110-124 | in every ranked list the more trusted comes first, and with equal trust and version components the alphabetically smaller vendor |
| Catalog.ResolvePicksBest | gateway/catalog.py:127-142 | resolution fails exactly when nothing meets capability and pins, and otherwise returns a qualifying feature that none beats |
| Catalog.ResolveIgnoresListOrder | gateway/catalog.py:127-142 | differently ordered lists resolve to equal keys, and to the same feature when keys are distinct |
| Catalog.GroupByCapability | gateway/catalog.py:148-150 | the grouping loop gives each capability its features in list order |
| Catalog.SummarizeCapabilities | gateway/catalog.py:145-164 | one summary per capability in ascending order, `preferred` is the pick of resolution without pins, counts sum to the list length |
| Catalog.GroupsPartition | gateway/catalog.py:148-150 | groups by distinct covering capabilities partition any feature list |
| Ranking.MetricsStore.Record | gateway/ranking.py:52-58 | one record changes its own feature's counters as specified and no other, and keeps them plausible |
| Ranking.RankOrder | gateway/ranking.py:102-105 | the ranking is a permutation, non-increasing in score, with ties in baseline order |
| Ranking.ColdStartIsBaseline | gateway/ranking.py:92-105 | with nothing recorded for distinct features the ranking is the static one, for every default prior |
| Ranking.RankIgnoresInputOrder | gateway/ranking.py:102-105 | with distinct keys the ranking is independent of the input order |
| Ranking.LeadBeatsTrustExactly | gateway/ranking.py:92-100 | at equal penalty a success-rate lead beats every trust difference if and only if it exceeds 0.10 |
| Ranking.LeadOutranks | gateway/ranking.py:92-105 | a lead above 0.10 with no larger latency penalty is ranked ahead whatever the trust tiers |
| Ranking.ScoreGap | gateway/ranking.py:92-100 | the difference of two observed scores is that of the success rates plus that of the trust priors minus that of the mean latencies in seconds times the weight, all from the raw counters |
| Ranking.TrustIsWorth | gateway/ranking.py:26-27 | each trust tier is worth exactly 0.05, whatever was observed |
| Ranking.FasterScoresHigher | gateway/ranking.py:92-100 | at equal trust and success rate a higher score means exactly a smaller mean latency; by default a millisecond is worth 0.0001 |
| Ranking.FasterRanksFirst | gateway/ranking.py:92-105 | of two such providers the faster one is ranked first |
| Ranking.PenaltyIsMonotone | gateway/ranking.py:96 | with a positive weight penalties compare exactly as mean latencies do |
| Ranking.RecordIsLocal | gateway/ranking.py:52-58 | recording for one feature leaves every other feature's counters and score alone |
| Ranking.FailureRaisesExactly | gateway/ranking.py:92-100 | a recorded failure raises a score only for a never-invoked feature under a negative default prior |
| Failover.ConsecutiveFailuresSink | gateway/ranking.py:88-100 | after floor(2s/3)+1 failures a provider with s successes scores below every never-invoked one |
| Failover.ThresholdIsExact | gateway/ranking.py:88-100 | that bound is met with equality by an official provider without latency against a community newcomer |
| Failover.EveryProviderIsTried | gateway/main.py:224-233 | if every dispatch ends unavailable, each provider has been called within the budget of the starting counters |
| Failover.BudgetBound | gateway/main.py:224-233 | that budget is at most one dispatch per provider plus two thirds of the recorded successes |
| MetricsProtocol.ReadersSeePlausibleValues | gateway/ranking.py:36-61 | in every interleaving no reader divides by zero, observed rates lie in [0, 1], and an observed average lies between 0 and any bound on the latencies actually stored for its feature: those of successful calls that have completed or whose writer is about to release the lock |
| MetricsProtocol.EveryCallIsAccountedFor | gateway/ranking.py:52-58 | at every moment the calls made are, as multisets, the completed ones and those of threads still inside `record` |
| MetricsProtocol.QuiescentCountersAreExact | gateway/ranking.py:52-58 | when no writer is under way the completed calls are all the calls made, and the counters are those of running them one after the other |
| MetricsProtocol.MutualExclusion | gateway/ranking.py:53-58 | at most one thread is inside the locked section |
| MetricsProtocol.StepKeepsInv | gateway/ranking.py:36-61 | every atomic step of every thread keeps the invariant that links counters, lock, log, loaded values and what readers rely on |
| MetricsProtocol.UndisturbedRecord | gateway/ranking.py:52-58 | the micro-steps of one undisturbed thread add up to the sequential record |
| MetricsProtocol.UndisturbedScore | gateway/ranking.py:92-98 | the field reads of one undisturbed reader yield the stored rate and average |
| Composer.ComputeRef | gateway/composer.py:73-82 | the loop over path parts finds the value the path denotes |
| Composer.ResolvesExactly | gateway/composer.py:73-82 | a reference denotes v if and only if its dotted parts lead field by field from the context to v, and fails if and only if some part meets a value that is no dictionary or lacks it |
| Text.SplitJoin | gateway/composer.py:77 | splitting gives back the parts that were joined by the separator |
| Text.JoinSplit | gateway/composer.py:77 | every string is the join of its parts, none of which holds the separator |
| Composer.TraceIsPrefix | gateway/composer.py:96-126 | the trace names a prefix of the steps, errors leave the output empty, no error means a full trace |
| Composer.FailedStepFollowsTrace | gateway/composer.py:114-116 | a failed invocation belongs to the first step missing from the trace |
| Composer.OutputIsWired | gateway/composer.py:120-126 | the output holds exactly the wired keys, each with what its reference resolves to |
| Composer.OnlyInvocationsFail | gateway/composer.py:99-126 | if every reference exists in the input or in whatever its latest earlier step can return, only invocations can fail |
| Composer.SwapPreservesMeaning | gateway/composer.py:107-126 | swapping adjacent steps that do not read each other preserves failure and output |
| Composer.DeletePreservesMeaning | gateway/composer.py:107-126 | deleting a succeeding step that heads no later reference preserves error and output |
| Gateway.GatewayApp.Invoke | gateway/main.py:138-172 | validate, call, record: the new store and the answer of one dispatch |
| Gateway.GatewayApp.Call | gateway/main.py:237-267 | filter, rank, dispatch to the best provider, and the caller-facing message |
| Gateway.GatewayApp.InvokeComposite | gateway/composer.py:96-126 | the pipeline loop over the shared gateway equals the specified run, store included |
| Gateway.DispatchRecords | gateway/main.py:144-165 | a dispatch moves the grand total by one success, one failure or nothing, by outcome |
| Gateway.DispatchIsLocal | gateway/main.py:138-172 | without a call nothing changes, otherwise exactly the counters under the called feature's id do, field by field by its outcome; input is refused if and only if the schema check objects |
| Gateway.CallReplies | gateway/main.py:237-267 | the output or message a capability call returns in each case |
| Gateway.TracedStepsHonourPins | gateway/main.py:237-267 | the output of every traced step is what a catalog feature admitted by that step's own capability and pins answered |
| Gateway.CompositeRunAccounts | gateway/main.py:249-267 | a run adds one success per trace entry, one more invocation exactly when it ended unavailable, and the latency of the traced calls |
| Gateway.StoreIsConserved | gateway/main.py:138-267 | after any history of requests the store's totals are the tally of all outcomes |
| Gateway.StaticChoiceMatchesResolve | gateway/main.py:90-96 | under the static policy gateway and catalog pick equal keys, hence the same feature when keys are distinct |
| Gateway.ProvidersExactly | gateway/main.py:90-97 | the providers are exactly the catalog features of the capability that satisfy the pins, an empty pin being none |
| Gateway.StaticTiesByName | gateway/main.py:90-97 | providers the static ranking cannot tell apart come in the order of their names |
| Gateway.UnavailableDispatchIsFailTop | gateway/main.py:249-265 | a dispatch that finds its provider unavailable is one step of the failover loop |
| Gateway.OutageReachesEveryProvider | gateway/main.py:224-233 | in every world, as long as calls for a capability under the same pins keep finding their provider unavailable, every provider is reached within the budget |
| DispatchProtocol.CountersMatchFinishedCalls | gateway/main.py:138-267 | with requests overlapping at their await points each feature's counters are at every moment exactly the outcomes of its finished calls |
| DispatchProtocol.EveryRequestIsAccountedFor | gateway/main.py:138-267 | as multisets, the features requests were let through to are those of the finished and of the waiting calls: each request is in one place, once, at its own feature |
| DispatchProtocol.ArrivalChoosesBest | gateway/main.py:249-258 | a request waits for a provider that honours its pins and that none outscores by the counters of its arrival |
| DispatchProtocol.DispatchIsArriveAnswer | gateway/main.py:138-172 | a dispatch past the schema check is an arrival followed by its answer |
| DispatchProtocol.HistoryIsRun | gateway/main.py:138-267 | every history of requests served one at a time is a run of the overlapping protocol with the same counters and outcomes |
| DispatchProtocol.HistoryCountsPerFeature | gateway/main.py:138-267 | after any such history each feature's counters are exactly the outcomes of the calls made to it |
| AgentDsl.Parse | gateway/agentdsl.py:42-112 | the loop over lines computes the specified composite and errors; a composite comes back exactly when there are none |
| AgentDsl.ErrorsAreOrdered | gateway/agentdsl.py:53-103 | for every text line-numbered errors come first, strictly increasing and in range |
| AgentMeaning.LinesExactly | gateway/agentdsl.py:53 | a line ends at its first line break, where carriage return and line feed are one |
| AgentMeaning.CodeExactly | gateway/agentdsl.py:54 | the code of a line is what stands between white space in front of the first `#` |
| AgentMeaning.NameCharacters | gateway/agentdsl.py:31-32 | exactly which characters names and references start with and go on with |
| AgentMeaning.ReadExactly | gateway/agentdsl.py:58-96 | a statement is read out of a line if and only if the line has its form, with its groups |
| AgentMeaning.SaysOrBlames | gateway/agentdsl.py:58-96 | every line has one of the forms or is at fault, never both |
| AgentMeaning.ReportsExactly | gateway/agentdsl.py:53-96 | an error is reported for a line if and only if its code is at fault for that kind of problem, with the quoted text |
| AgentMeaning.AcceptsExactly | gateway/agentdsl.py:98-103 | a composite comes back if and only if every line has one of the forms, an agent is declared and there is a step; likewise for the two reports without a line number |
| AgentMeaning.AcceptedMeaning | gateway/agentdsl.py:42-112 | an accepted text denotes the last name and description, all steps and required fields in order, the last type of each field and the last reference of each output |
| AgentMeaning.TypeNamesDeclare | gateway/agentdsl.py:34-39 | each of the nine type names declares its JSON type |
| AgentGrammar.InputExactly | gateway/agentdsl.py:67 | the input scanner returns its groups on exactly the strings of its regular expression |
| AgentGrammar.OutputExactly | gateway/agentdsl.py:89 | the same for outputs |
| AgentGrammar.CallExactly | gateway/agentdsl.py:80 | the same for the call part of a step with its optional vendor pin |
| AgentGrammar.ArgExactly | gateway/agentdsl.py:33 | the same for one argument of a call |
| AgentGrammar.StepComplete | gateway/agentdsl.py:80-86 | every text of the step grammar is read with its groups |
| AgentGrammar.StepSound | gateway/agentdsl.py:80-86 | everything read as a step has the form of the step grammar |
| AgentRoundTrip.ParseRender | gateway/agentdsl.py:42-112 | parsing the canonical rendering of a well-formed composite returns exactly that composite |
| AgentRoundTrip.ParseRenderNormal | gateway/agentdsl.py:75-77 | for every expressible composite the rendering parses to its normal form |
| AgentClosure.AcceptedRoundTrips | gateway/agentdsl.py:42-112 | every accepted text denotes an expressible composite, reproduced by its rendering exactly when its required list is in normal form |
| AgentEdits.DecorationPreservesComposite | gateway/agentdsl.py:53-56 | two texts whose lines differ by comments, blank lines and indentation parse alike, if the first parses; whatever their line breaks |
| AgentEdits.EditsPreserveComposite | gateway/agentdsl.py:53-56 | any sequence of indenting, commenting and inserting blank or comment lines leaves the meaning of a source that parses unchanged |
| AgentEdits.IndentationIsIgnored | gateway/agentdsl.py:54 | leading white space never changes a line's statement |
| AgentEdits.CommentIsIgnored | gateway/agentdsl.py:54 | an appended comment never changes a line's statement |
| AgentEdits.SwapPreservesComposite | gateway/agentdsl.py:58-93 | swapping adjacent lines with statements of different kinds changes nothing in a source that parses |
| Substitution.ReplaceAll | gateway/agentdsl.py:187-190 | the replacement loop over the substitution table |
| Substitution.SequentialSettles | gateway/agentdsl.py:187-190 | for every table and all values, replacing one placeholder after the other gives the expansion in which each value has been rewritten by the later entries |
| Substitution.ReplaceKeepsExactly | gateway/agentdsl.py:189 | a replacement leaves a text unchanged if and only if the text lacks the token or the value is the token |
| Substitution.SequentialIsSimultaneousExactly | gateway/agentdsl.py:187-190 | after every entry the text is the simultaneous expansion so far if and only if no entry finds its own placeholder in a value placed before |
| Substitution.OutcomeIsExpansionExactly | gateway/agentdsl.py:187-190 | whatever the fixed text, the outcome is the simultaneous expansion if and only if the later entries give each used value back unchanged |
| Substitution.LeftBehindExactly | gateway/agentdsl.py:187-190 | a placeholder is left in the outcome if and only if what became of a placeholder of the template holds it |
| Substitution.ExpansionHoldsExactly | gateway/agentdsl.py:187-190 | a placeholder occurs in a covering simultaneous expansion if and only if a used value holds it |
| Codegen.Generate | gateway/agentdsl.py:143-190 | the stub is the settled expansion, the simultaneous one when the table is harmless, and free of the table's placeholders when no string the stub uses holds one |
| Codegen.GeneratedIsExpansion | gateway/agentdsl.py:143-190 | for every composite and language the stub is the settled expansion; it is simultaneous expansion entry by entry if and only if no entry finds its placeholder in an earlier used value |
| Codegen.StubIsExpansionExactly | gateway/agentdsl.py:143-190 | for every composite and language, stubs are simultaneous expansions for all template texts if and only if the later entries give each used value back unchanged |
| Codegen.LeftInStubExactly | gateway/agentdsl.py:143-190 | a placeholder is left in a harmless stub if and only if a string of the composite that the stub uses holds it |
| Codegen.StubIsComplete | gateway/agentdsl.py:143-190 | if no string the stub uses holds a placeholder of the table (`a__b` and `__init__` do not), the stub is the simultaneous expansion and none is left |
| Codegen.ValueHoldsExactly | gateway/agentdsl.py:148-181 | a table value holds a placeholder if and only if a string of the composite that goes into it verbatim does |
| Codegen.MisnamedStubDiffers | gateway/agentdsl.py:143-190 | the parser accepts an agent named `__DESC__`, and in no language is its stub the simultaneous expansion |
| Codegen.StubNamesAgent | gateway/agentdsl.py:143-190 | every harmless stub contains the agent's name and description verbatim |
| Codegen.StylesHoldNoMark | gateway/agentdsl.py:117-131 | for every name, camel, Pascal and snake forms hold no placeholder |
| Codegen.StylesOfName | gateway/agentdsl.py:117-131 | for a name given by its parts, the values of the three identifier placeholders letter by letter |
| Codegen.StylesOfSeparators | gateway/agentdsl.py:117-131 | a name of separators only is left as it is |
| Codegen.ListEntries | gateway/agentdsl.py:148-156 | description, input names and output names in the table, and the words for none |
| Codegen.FieldEntry | gateway/agentdsl.py:158-181 | the language's own entry has one line per declared field, in order, in the language's form |
| Codegen.TypesOfFields | gateway/agentdsl.py:134-136 | the target type of each declared type |
| Reconciler.LocalFeature.SetCondition | operator/internal/controller/feature_controller.go:187-198 | the in-place search updates the first condition of the type or appends, keeping the transition time on equal status |
| Reconciler.LocalFeature.Conclude | operator/internal/controller/feature_controller.go:56-73 | the field assignments of the success and failure paths yield the specified status |
| Reconciler.UpsertEffect | operator/internal/controller/feature_controller.go:187-198 | an upsert replaces its own type and leaves every other type's condition and count alone |
| Reconciler.FeatureReconciler.Run | operator/internal/controller/feature_controller.go:36-80 | an uninterrupted reconcile, with any errors or a lost write, is the specified change of the cluster |
| Reconciler.ReconcileMeaning | operator/internal/controller/feature_controller.go:36-131 | the steps of a reconcile bring Service and Deployment to what the spec asks, whatever they were, and the status to its verdict |
| Reconciler.ReconcileReports | operator/internal/controller/feature_controller.go:45-76 | an undisturbed reconcile whose write arrives is Failed exactly when a call erred and Ready exactly when the Deployment it found had available replicas; with the condition's status, reason and message |
| Reconciler.ReconcileBuilds | operator/internal/controller/feature_controller.go:55-117 | the ports, image, replicas, limits and endpoint such a reconcile leaves behind, field by field from the spec |
| Reconciler.StepKeepsInv | operator/internal/controller/feature_controller.go:36-131 | every event in any interleaving keeps the invariant over snapshots, statuses and labels |
| Reconciler.StatusIsCoherent | operator/internal/controller/feature_controller.go:56-76 | in every run the phase is Ready, Provisioning or Failed exactly as the last write saw replicas, none or an error; at most one Available condition, True exactly when it saw replicas, stamped by the first write of the current stretch; observedGeneration at most generation |
| Reconciler.ReadyWasObserved | operator/internal/controller/feature_controller.go:56-60 | in every run a Feature is Ready only if at some moment its Deployment existed and had available replicas |
| Reconciler.ObservedGenerationNeverDecreases | operator/internal/controller/feature_controller.go:63-65 | no event lowers observedGeneration |
| Reconciler.ReconcileIsIdempotent | operator/internal/controller/feature_controller.go:36-131 | reconciling again with nothing changed is a no-op on every object, timestamps and versions included |
| Reconciler.SelectorNeverChanges | operator/internal/controller/feature_controller.go:82-101 | a Deployment's selector never changes while it exists |
| Reconciler.ServiceSelectsOwnPods | operator/internal/controller/feature_controller.go:144-149 | within a namespace a Service selects the pods of its own feature and of no other |

## Left out

- FastAPI routing, HTTP status codes, streaming and the dashboard: input and output only.
- gRPC transport, protobuf marshalling and the Kubernetes client: a call is an arbitrary outcome of served, input rejected or unavailable.
- JSON Schema validation: an arbitrary function of manifest and payload.
- The MCP endpoint: it dispatches without touching the metrics store, so nothing of it enters the accounting.
- Manifest signing: a digest over the canonical JSON of a manifest, verified by an external tool on request; ranking and dispatch do not depend on it.
- The sample features: independent services behind the gateway, each an arbitrary answer here.
- The catalog's list filters: keeping the features that carry all given tags and match a search text; resolution and dispatch list without them.
- The mapping from custom resources: field copying, except that the version always takes its default.
- Floating-point rounding of scores and latencies, and the rounding in the ranking report.
- Codegen.StubIsExpansionExactly: is about all texts around the placeholders together; for one given text, values changed by later entries may add up to the same stub by coincidence.
- Codegen.GeneratedIsExpansion: quantifies over the fixed text between the placeholders of each language instead of reproducing the six templates; it needs that text to hold no `__`, not to begin or end with `_` next to a placeholder and not to consist of capitals only. Language aliases and the reply for an unsupported language are not modelled; letter case is ASCII.
- Versions.ComputeSemverKey: digits are ASCII; other Unicode digits that Python's `isdigit` accepts are not modelled.
- Gateway.CompositeRunAccounts: attributes store changes to one run at a time; for requests that overlap with it DispatchProtocol.CountersMatchFinishedCalls states the balance per feature.
- Reconciler.FeatureReconciler.Run: owner references and resource requests are not modelled; an object that somebody else created under the same name counts as an error of the call.
- Deployment, infrastructure, KCL and observability files: configuration.
