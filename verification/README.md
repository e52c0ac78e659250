# senro: a verified model of its hard cores

senro runs pipelines of steps. This project models, in Dafny, the parts of senro whose correctness is not
obvious from reading one function, and proves what those parts promise:

- **The graph compiler** (`senro.go`): workflows are resolved away, so a barrier between workflows becomes
  entry-to-exit step edges, per-unit pairing becomes ordinary edges, and a three-colour search refuses
  workflow cycles. Modules `Graphs`, `Pipelines`, `Lowering`, `Barriers`, `WorkflowChecks`, `Builds`,
  `PerUnitPairing`, `HandlerTrees`.
- **The event fold** (`api/fold.go`): the state machine every client runs over a run's events. Modules
  `Events`, `Fold` (the fold as a function), `RunStates` (the class that updates itself in place and
  meets that function), and the whole-run theorems in `FoldReplay`, `FoldWellFormed`, `FoldLocality`,
  `FoldTests`, `CheckAnnotations`, and, for what every field
  shows, in `FoldLaws` and `FoldRunLaws`.
- **The dispatcher's protocol** (`contrib/dispatcher/main.go`): any number of deliveries in any number of
  processes over one exclusive lock, as interleaved atomic actions. Module `Dispatcher`.
- **The notifier** (`notify/`): bounded queues that drop, retries, outcomes that are themselves reported,
  and a ledger that seals, as interleaved actions with conservation laws. Modules `Notifier`,
  `Deliveries`, and `Backoffs` for the waiting times.
- **The retry predicate language** (`retry/`): a printer and a recursive parser with nested quoting.
  Modules `RetryPredicates`, `Json`, `Text`.
- **Orders and headers**: Semantic Versioning 2.0.0 precedence (`trigger/`, module `Semver`) and the
  W3C Trace Context traceparent (`api/trace.go`, module `TraceParents`).
- **Closures and restores**: `serviceClosure`, `selectFrom` (module `Closures`) and nested workspace
  restores (module `Restores`).

An edge `(a, b)` always reads "a needs b". `dafny verify dfyconfig.toml` checks everything.

## Where code and documentation differ

The model follows the code, and states exactly when it meets the documentation.

- `selectFrom` is described as the ancestors and descendants of a step. Its loop closes under both directions
  from every member, so it returns the weakly connected component (`Closures.SelectFrom`,
  `Closures.SelectionIsLeast`). The two agree exactly when no edge leads out of the step's ancestors and
  descendants (`Closures.SelectsConeExactlyWhen`); `Closures.SiblingIsSelected` is a plan where they differ.
- `Backoff.Delay` documents the window `min(Max, Base*Factor^(attempt-1))`. With a factor below one, a base at
  or above the cap and at least one growth, the loop stops at the cap instead
  (`Backoffs.WindowExactlyWhen`, `Backoffs.ShrinkingWindowDiffers`).
- Numeric prerelease identifiers of 2^64 or more are compared as text. The order stays total, and agrees with
  section 11 of Semantic Versioning 2.0.0 on two versions exactly when their cores differ, one is a release, or
  the first identifiers in which their prereleases differ are not misordered, which takes an oversized one
  (`Semver.CompareAgreesExactlyWhen`); `Semver.LargeNumbersMisordered` is a pair on which they differ. An
  identifier below 2^64 is safe against every other such identifier and every alphanumeric one, an oversized one
  is not (`Semver.AgreesExactlyWhen`).
- A client that folds only the events mentioning a step renders that step as a full client does exactly when
  every new handler ever attached to the step is attached to it by the handler's first event
  (`FoldLocality.LocalityExactly`); handlers that never change parent are the case one expects
  (`FoldLocality.Locality`), and `FoldLocality.MovedHandlerBreaksLocality` is a stream on which it fails.
- The notifier's interval is documented as the base doubled once per attempt, capped at five seconds. The first
  attempt is not capped, and from a base of 2^62 ns on doubling overflows. `Backoffs.IntervalExactlyWhen` says
  exactly when the loop computes the documented interval and when it stays within the cap;
  `Backoffs.FirstIntervalUncapped` (a base of ten seconds) and `Backoffs.LargeBaseWraps` are inputs where it does
  not.
- A test is documented as recovered when it failed on an earlier attempt and then passed on a later one, until it
  fails again. The fold agrees exactly when no attempt since the failure skipped the test (`FoldTests.RecoveredExactlyWhen`); failed,
  skipped, passed is folded to passed (`FoldTests.SkipHidesRecovery`).
- With `-cancel-in-progress` a delivery is to displace a run in progress. It stops that run exactly when it belongs
  to the same process and has registered its handle and not yet cleared it; it merely waits for any other
  (`Dispatcher.HandleFoundExactlyWhen`).

One documented rule has a consequence worth knowing: a workflow without steps satisfies a barrier at once, and
so swallows the barrier of whoever it needs. `Barriers.BarrierReach` says how far orderings carry between
workflows, and `Barriers.EmptyWorkflowBreaksTheChain` gives a pipeline Build accepts in which one is lost.

## Model

| member | source | states |
|---|---|---|
| `Lowering.EntrySteps` | senro.go:1298-1316 | The ids of the steps none of whose needs is a step of the same workflow, in declaration order. |
| `Lowering.EntriesAreSinks` | senro.go:1298-1316 | The entries are exactly the steps with no edge to a step of their own workflow. |
| `Lowering.ExitSteps` | senro.go:1318-1339 | The ids of the steps no step of the same workflow needs, in declaration order. |
| `Lowering.ExitsAreSources` | senro.go:1318-1347 | The exits are exactly the steps no internal edge points to. |
| `Lowering.LowerWorkflowNeeds` | senro.go:1258-1296 | In-place lowering: every entry node gains the exits of every needed workflow, in order and once per need, and no other node changes. |
| `Barriers.LoweredEdges` | senro.go:1269-1296 | The lowered plan's edges are the declared edges plus entry-to-exit edges along workflow needs, and nothing else. |
| `Barriers.ReachesAnEntry` | senro.go:1258-1268 | In an internally acyclic workflow every step is an entry or transitively needs one. |
| `Barriers.ReachedFromAnExit` | senro.go:1258-1268 | Every step is an exit or is transitively needed by one. |
| `Barriers.BarrierEdgeWaits` | senro.go:386-397 | Every step of a workflow transitively waits, in the lowered graph, for every step of each workflow it needs. |
| `Barriers.LoweringPreservesBarrier` | senro.go:1258-1296 | Meaning preserved: the lowered graph and the graph with an edge for every pair of steps have the same transitive closure. |
| `Barriers.WalkStaysOrClimbs` | senro.go:1165-1296 | Any walk of the lowered graph either stays inside one workflow's own edges or climbs the workflow order. |
| `Barriers.LoweredAcyclic` | senro.go:1165-1296 | If the workflows are acyclic among themselves and each on its own, and cross-workflow step needs follow the workflow order, the flat step graph has no cycle. |
| `Barriers.BarrierReach` | senro.go:386-397 | Between two workflows: reaching through workflows that have steps orders all their steps; any ordering follows such barriers and cross-workflow step needs; and without such step needs the first is an if-and-only-if. |
| `Barriers.EmptyWorkflowBreaksTheChain` | senro.go:386-397 | A pipeline Build accepts in which a workflow without steps loses the ordering between its neighbours. |
| `WorkflowChecks.ClaimSteps` | senro.go:1147-1156 | Claims the step ids of one workflow exactly when they are distinct and none was claimed before. |
| `WorkflowChecks.CheckWorkflowNames` | senro.go:1127-1159 | Accepts if and only if workflow names are non-empty and distinct and no step id is declared twice anywhere. |
| `WorkflowChecks.CycleSearch.CloseCycle` | senro.go:1202-1211 | The reported path, cut at the first occurrence of the repeated name, is a closed walk of needs edges. |
| `WorkflowChecks.CycleSearch.Visit` | senro.go:1197-1223 | The three-colour search keeps grey names a path and black names topologically ordered, finishes the visited name or returns a real cycle, and terminates because uncoloured names run out. |
| `WorkflowChecks.FindCycle` | senro.go:1188-1233 | Finds nothing if and only if the graph is acyclic; what it finds is a cycle. |
| `WorkflowChecks.CheckWorkflowNeeds` | senro.go:1165-1183 | Accepts if and only if all needs are declared and the workflow graph is acyclic; a reported cycle is real and a reported name is undeclared. |
| `Builds.BuildLayer` | senro.go:1050-1105 | Succeeds exactly on well-named pipelines with acyclic workflow needs; the plan orders exactly what whole barriers order, and is acyclic under the stated conditions on step needs. |
| `Builds.Build` | senro.go:1022-1055 | Said of the builders: every accepted plan has a node for each builder, keeping its needs, and for no other; children wait for the builders they are paired with; every builder waits for every builder of each workflow its own needs; and acceptance is exactly pairable expansions, good names and acyclic workflow needs. |
| `PerUnitPairing.PairedExactly` | senro.go:960-994 | A child whose units are all covered waits for exactly the upstream children sharing one of them, once each; any other child waits for all; no upstream child covering one of its units is ever left out. |
| `PerUnitPairing.MatchChild` | senro.go:974-992 | One child's edges, computed from the owner index, are those of the pairing rule. |
| `PerUnitPairing.PairEach` | senro.go:960-994 | In place, every downstream child's needs grow by exactly the pairing rule's edges. |
| `PerUnitPairing.LowerNeedsEach` | senro.go:926-958 | Refuses exactly the NeedsEach that names itself, nothing or two expansions; otherwise every child keeps its needs and gains exactly the ids of the children, of the expansions its own expansion names, that share a unit with it, or all of an expansion that leaves one of its units uncovered. |
| `PerUnitPairing.GainsExactly` | senro.go:926-994 | The edges collected target by target are exactly those pairs of builders. |
| `HandlerTrees.CycleNeverUnfolds` | senro.go:1374-1386 | A builder on a cycle of handlers describes no finite node tree. |
| `HandlerTrees.ToNode` | senro.go:1382-1487 | Terminates on every heap of builders and leaves the shared path set as found; fails exactly when a chain of handlers reaches a broken builder or returns to one it passed, the error saying which and whose; otherwise returns the tree the builder describes. |
| `HandlerTrees.StepNode` | senro.go:1382-1391 | A step is converted from an empty path, with the same outcome. |
| `HandlerTrees.FaultyNeverUnfolds` | senro.go:1374-1399 | A builder with such a chain describes no finite node tree. |
| `HandlerTrees.UnfoldsUnique` | senro.go:1382-1487 | The tree a builder describes is unique, so the plan is determined by the builders. |
| `HandlerTrees.TreeShows` | senro.go:1399-1484 | The tree shows the id of each builder and its failure and always handlers apart, each in order. |
| `RunStates.RunState.Step` | api/fold.go:361-380 | Returns the step's record, appending a fresh one to the order on first mention; an empty id is stored nowhere. |
| `RunStates.RunState.HandlerRecord` | api/fold.go:382-404 | Returns the handler's record, linking it to its parent step on first mention only. |
| `RunStates.RunState.ApplyTest` | api/fold.go:199-237 | Folding one test report meets the verdict rule, at the position the test already holds. |
| `RunStates.RunState.ApplyToStep` | api/fold.go:122-279 | Every step event changes its step in place as the functional fold does, whose whole-run laws are below. |
| `RunStates.RunState.ApplyControlEvent` | api/fold.go:281-315 | A control operation pauses, resumes or releases as the functional fold says; a partial release leaves a step held for another reason. |
| `RunStates.RunState.Apply` | api/fold.go:19-359 | The whole in-place update refines the functional fold, whose whole-run laws are below; its error is out-of-order, bad payload or none in exactly the stated cases. |
| `RunStates.RunState.Test` | api/runstate.go:236-247 | Finds the first result with the suite and the name. |
| `FoldLaws.EndingLaw` | api/fold.go:137-197 | After a whole stream, state, exit code, error and end are those of the last finish, and blank if the step started or was retried since. |
| `FoldLaws.RestartLaw` | api/fold.go:137-279 | Usage is that of the last finish unless retried since, the start that of the last start unless retried since, the service as last reported ready unless retried since. |
| `FoldLaws.CreationLaw` | api/fold.go:122-135 | The last step.created fixes kind, needs and service flag. |
| `FoldLaws.GroupLaw` | api/fold.go:86-135 | The group is the one last given, by an expansion to its children or by a step.created that names one. |
| `FoldLaws.CachedLaw` | api/fold.go:152-254 | Cached holds if and only if some cache hit or cached finish of the step occurred. |
| `FoldLaws.HoldLaw` | api/fold.go:256-315 | Held and paused come from the last hit, start, finish, retry or full release; a cleared breakpoint releases exactly a hit without a reason. |
| `FoldLaws.LogLaw` | api/fold.go:239-251 | A stream's byte mark is the furthest end reported since the last retry. |
| `FoldLaws.PresenceLaw` | api/fold.go:361-404 | A step has a record if and only if an event of its own, an expansion, or the first event of a handler under it occurred. |
| `FoldLaws.AttemptLaw` | api/fold.go:137-356 | The attempt is the highest told since the last retry, or the one it was retried to. |
| `FoldRunLaws.RunLaw` | api/fold.go:54-84 | Pipeline, engine, start and digest, status, end and cleanup, and paused, each come from the last event that decides it. |
| `FoldRunLaws.RunIdLaw` | api/fold.go:44-58 | A stream of one run has that run's id. |
| `FoldRunLaws.SeqLaw` | api/fold.go:34-43 | The sequence number is that of the last event. |
| `FoldRunLaws.HandlerLaw` | api/fold.go:317-342 | A handler's start, state, end, error and kind each come from its last event that decides it. |
| `FoldRunLaws.HandlerPresence` | api/fold.go:382-404 | A handler is there if and only if some event named it, under the parent its first event named. |
| `FoldRunLaws.ExpansionLaw` | api/fold.go:86-121 | An expansion is recorded as its last event tells it. |
| `FoldRunLaws.OrderLaw` | api/fold.go:369-380 | Steps are listed in the order they first appeared, from any state on. |
| `FoldRunLaws.HandlerOrderLaw` | api/fold.go:390-404 | A step lists its handlers in the order they were first attached. |
| `FoldRunLaws.TestDetailsLaw` | api/fold.go:199-237 | What a test shows comes from its last report, or from a failure that only better verdicts of the same attempt follow. |
| `Fold.TestIndex` | api/runstate.go:236-247 | The first position whose suite and name both match, or the end. |
| `FoldReplay.ReportTwice` | api/fold.go:199-237 | Reporting a test twice from the same attempt is reporting it once. |
| `FoldReplay.ExpansionTwice` | api/fold.go:86-121 | Materialising the same children twice is materialising them once. |
| `FoldReplay.ControlTwice` | api/fold.go:281-315 | A control operation applied twice, partial breakpoint release included, is applied once. |
| `FoldReplay.HandlerTwice` | api/fold.go:317-342 | A handler event folded twice is folded once and links once. |
| `FoldReplay.ReplayIdempotent` | api/fold.go:34-43 | For every state and every accepted event of every type, folding it again at once is accepted and changes nothing. |
| `FoldWellFormed.ReportKeepsUnique` | api/fold.go:199-237 | A step never lists one test twice. |
| `FoldWellFormed.PutKeeps` | api/fold.go:369-380 | Storing a step's record keeps order, steps, handlers and links consistent. |
| `FoldWellFormed.HandlerKeeps` | api/fold.go:390-404 | Each step lists exactly the handlers that name it as parent, once each, after every handler event. |
| `FoldWellFormed.NextKeeps` | api/fold.go:19-359 | Every event keeps the well-formed shape. |
| `FoldWellFormed.ReachableWellFormed` | api/fold.go:19-404 | Every state any stream folds to is well formed: the order is duplicate-free and lists exactly the steps, no empty id, test keys unique, handler lists exact, held implies paused. |
| `FoldLocality.NextRecord` | api/fold.go:19-359 | What an event does to one step's record depends only on that record and on whether the event's handler is already known. |
| `FoldLocality.Locality` | api/fold.go:19-404 | In particular slicing preserves the record when every handler id always names the same parent. |
| `FoldLocality.LocalityExactly` | api/fold.go:19-404 | Over a whole stream from any snapshot, slicing by step preserves the record of a step if and only if every new handler attached to it is attached to it by its first event. |
| `FoldLocality.RunLinks` | api/fold.go:390-404 | A run lists a new handler under a step once if its first event names that step, and never otherwise. |
| `FoldLocality.RunHandlers` | api/fold.go:390-404 | The handlers a run knows are those it started with and those some event names. |
| `FoldLocality.MovedHandlerBreaksLocality` | api/fold.go:390-404 | A stream in which a handler changes parent, on which slice and whole run differ. |
| `FoldTests.FoldedExactly` | api/fold.go:199-237 | The verdict automaton holds failed exactly when the last reporting attempt failed in any position, and recovered exactly when later attempts only passed. |
| `FoldTests.RunFoldsReports` | api/fold.go:199-237 | What a run's state holds for a test is that automaton run over the test's reports alone, whatever else the stream contains. |
| `FoldTests.TestVerdictExact` | api/fold.go:199-237 | Over a whole run, failed and recovered each hold if and only if the reports across retries say so. |
| `FoldTests.RecoveredExactlyWhen` | api/fold.go:217-227 | Over a whole run, a test is recovered if and only if it failed, passed on a later attempt, has not failed since and was not skipped since; so the documented rule holds exactly without such a skip. |
| `FoldTests.SkipHidesRecovery` | api/fold.go:217-227 | Failed, skipped, passed on three attempts is folded to passed. |
| `CheckAnnotations.GitHubChecks.Annotations` | notify/githubchecks.go:375-419 | Sends a prefix of the full list within the budget and counts the rest as dropped, dropping only when the budget is spent. |
| `CheckAnnotations.WalkConserves` | notify/githubchecks.go:383-419 | Walking a duplicate-free order places every recorded failure once, on its step or at the end. |
| `CheckAnnotations.StepPlaced` | notify/githubchecks.go:395-410 | Each step of the walk adds its failed tests ahead of its own failures. |
| `CheckAnnotations.FailedInOrder` | notify/githubchecks.go:397-404 | Only tests the fold left failed are annotated, in the order the step lists them. |
| `CheckAnnotations.AnnotationsConserved` | notify/githubchecks.go:383-419 | On every reachable state, sent plus dropped is the number of distinct failed tests plus recorded step failures, and at most 50 are sent. |
| `Dispatcher.InvStep` | contrib/dispatcher/main.go:261-351 | Every atomic action keeps the lock, handle, stop and release invariants. |
| `Dispatcher.OnePipeline` | contrib/dispatcher/main.go:302-351 | In every interleaving at most one pipeline executes, over all processes. |
| `Dispatcher.HandleIsHolders` | contrib/dispatcher/main.go:323-330 | The running handle is set only while the run that set it holds the lock, in at most one process. |
| `Dispatcher.DeferredActsOnOwn` | contrib/dispatcher/main.go:302-334 | Clearing the handle clears the run's own, registering overwrites none, and by the time the lock is released no handle is left. |
| `Dispatcher.StopHitsTheHolder` | contrib/dispatcher/main.go:279-285 | A displacing delivery cancels only the run that held the lock when it read the handle. |
| `Dispatcher.StopIsDelivered` | contrib/dispatcher/main.go:279-285 | In every interleaving, once a delivery has read the handle of a run of its own process that held the lock, its stop cancels that run for good. |
| `Dispatcher.StoppedExactly` | contrib/dispatcher/main.go:279-285 | A delivery stopped a run if and only if it read the run's handle as the run held the lock, in the same process, and then called it. |
| `Dispatcher.CancelledOnlyFor` | contrib/dispatcher/main.go:279-330 | Nothing is ever cancelled but by its own timeout, its own end or such a stop. |
| `Dispatcher.TimeoutAndEndCancel` | contrib/dispatcher/main.go:321-330 | A timeout and a run's own end each cancel its context for good. |
| `Dispatcher.HandleFoundExactlyWhen` | contrib/dispatcher/main.go:279-285 | It gets hold of the run holding the lock if and only if that run is of its own process and between registering and clearing its handle; it never gets hold of another. |
| `Dispatcher.LockReleasedOnce` | contrib/dispatcher/main.go:302-320 | On every path a lock is acquired at most once per delivery and released exactly once when the run ends; a rejected delivery never held it. |
| `Dispatcher.ConflictOnlyWithoutDisplacing` | contrib/dispatcher/main.go:214-239 | Only a process that rejects answers 409; only one that displaces ever reads, stops or polls. |
| `Notifier.EmitInline` | notify/notify.go:178-198 | The one-pass loop that detects a drop by the queue's counter makes the same state as the step the run laws below are about. |
| `Notifier.EveryWantedIsOffered` | notify/notify.go:178-190 | In every run, what a destination was offered is exactly the engine's events of the types it wants, the three notify types aside, and the emitted count is the number of such events. |
| `Notifier.FirstInFirstOut` | internal/sink/sink.go:226-270 | What a worker picked up, then what is queued, is in order what found the queue open with fewer than 4096 events; what was dropped is exactly what found it full. |
| `Notifier.CountedByActions` | notify/notify.go:378-404 | Deliveries, failures, ledger entries and shutdown lines are as many as the settlements and recordings that made them. |
| `Notifier.OwnEventsNeverWanted` | notify/notify.go:178-181 | In every run, though outcomes are emitted back like any event, no destination is ever offered one. |
| `Notifier.EveryEventSettles` | notify/notify.go:178-284 | Once a destination has drained, every event it wanted has exactly one fate, and its loss count is the number dropped. |
| `Notifier.EveryOutcomeAccounted` | notify/notify.go:378-404 | Once reports have drained, every outcome is in exactly one place, and the outcomes are exactly the deliveries, failures and drops of the destinations. |
| `Notifier.NoFeedback` | notify/notify.go:178-198 | E events and D destinations produce, and so append, at most E times D outcomes in any interleaving. |
| `Notifier.OrderlyFlush` | notify/notify.go:228-255 | When flushing starts after the stream is sealed, no event ever meets a closed queue. |
| `Notifier.PatientFlush` | notify/notify.go:255-284 | When no destination is abandoned, no outcome ever meets a closed report queue. |
| `Notifier.CleanShutdown` | notify/notify.go:228-284 | Then every wanted event is exactly one of skipped, delivered, failed or dropped, and every outcome exactly one of appended, kept for the report or counted lost. |
| `Deliveries.Send` | notify/destination.go:203-265 | The result is that of the first attempt that does not go on; nothing to say is a skip, and a panic or an unusable request is a failure with no attempts. |
| `Deliveries.DeliveredExactly` | notify/destination.go:203-265 | Delivered if and only if some attempt in the budget is answered 2xx after nothing but retryable answers; the deciding attempt is unique. |
| `Deliveries.StatusDecides` | notify/destination.go:248-263 | A 2xx delivers; no answer, 429 and 5xx go on while budget and time last; any other status, every other 4xx among them, ends in failure with that status. |
| `Backoffs.GrownIsPower` | retry/retry.go:304-305 | The repeated growth is the documented power. |
| `Backoffs.GrowWindow` | retry/retry.go:322-332 | The loop in place computes its functional form: the documented window, or in the one named corner the cap; with the exact condition for the first. |
| `Backoffs.Delay` | retry/retry.go:300-339 | Over the reals, with defaults for non-positive fields: the delay lies between the documented window and the lesser of the cap and twice the window if and only if the backoff is outside the corner or the cap is within twice the window; in the corner it is the cap. |
| `Backoffs.Defaults` | retry/retry.go:311-320 | Half a second, doubling, up to thirty seconds, for each field that is not positive. |
| `Backoffs.DelayMonotone` | retry/retry.go:310-339 | For the same draw and any fields, defaults included, a later attempt waits no less when the factor is at least one, and no more when it is below one. |
| `Backoffs.WindowExactlyWhen` | retry/retry.go:322-332 | Loop and documented formula agree if and only if the factor is at least one, the base is below the cap, nothing has grown, or the formula reaches the cap. |
| `Backoffs.ShrinkingWindowDiffers` | retry/retry.go:322-332 | A concrete backoff in the corner: the documented window is 4, the loop computes 8. |
| `Backoffs.DoubleInterval` | notify/destination.go:376-387 | Doubling in 64-bit arithmetic gives, for every positive base, the cap once a wrapped doubling reaches it and else the last wrapped doubling. |
| `Backoffs.IntervalExactlyWhen` | notify/destination.go:372-387 | The computed interval is the documented capped power if and only if the base is within the cap, or it is a later attempt and the base is below 2^62 or some wrapped doubling reaches the cap; it exceeds the cap exactly on a first attempt with a base above it. |
| `Backoffs.FirstIntervalUncapped` | notify/destination.go:372-387 | At a base of ten seconds the first interval is ten seconds, twice the documented cap. |
| `Backoffs.LargeBaseWraps` | notify/destination.go:376-387 | From a base of 2^62 on the second interval is negative. |
| `Backoffs.NotifyBackoff` | notify/destination.go:372-393 | For every base, attempt and draw the wait lies in the upper half of the computed interval and never reaches it, or is the interval when that cannot be halved; a base up to the cap never waits longer than the cap. |
| `Json.ListRoundTrip` | retry/retry.go:211-218 | Decoding the encoding of any list of strings gives the list back, and every string is shorter than the text. |
| `Json.EncodedForms` | retry/retry.go:211-218 | The encoding spelled out on lists, quotes, backslashes and HTML characters. |
| `RetryPredicates.BuildExitCode` | retry/retry.go:125-152 | The loops build the predicate of the non-zero codes, stored sorted and without repeats. |
| `RetryPredicates.SortedCodesAre` | retry/retry.go:125-152 | The stored codes are strictly ascending and exactly the non-zero ones. |
| `RetryPredicates.ExitCodeRoundTrip` | retry/retry.go:234-246 | A stored exit-code predicate parses to itself. |
| `RetryPredicates.NamedRoundTrip` | retry/named.go:140-178 | A stored named predicate parses to itself, with or without parameters. |
| `RetryPredicates.AnyRoundTrip` | retry/retry.go:170-215 | A composite whose parts survive storing survives storing. |
| `RetryPredicates.ParseRoundTrips` | retry/retry.go:217-276 | Every storable predicate a pipeline can write, at any nesting, parses back with the same stored form and the same decision on every attempt. |
| `RetryPredicates.ParsedDecides` | retry/retry.go:88-276 | What is read back asks for a retry exactly when what the author wrote does: infrastructure, a listed non-zero code, the pattern, the registered or bare function, or some part of a composite. |
| `RetryPredicates.AnyIsDisjunction` | retry/retry.go:170-192 | A composite of nothing matches nothing, and a composite is the disjunction of any way to cut it in two. |
| `RetryPredicates.ExitCodeDecides` | retry/retry.go:118-152 | Exit codes decide by membership, and exit 0 is never retried. |
| `RetryPredicates.StoredForms` | retry/retry.go:88-218 | The stored forms of infra, named, log and composite predicates, spelled out, and which predicates have none. |
| `RetryPredicates.StoredExitCodes` | retry/retry.go:125-152 | The stored forms of exit codes, spelled out: sorted, without repeats or zero. |
| `RetryPredicates.Refused` | retry/retry.go:229-276 | What is refused, and as what. |
| `RetryPredicates.ExitCodeSerials` | retry/retry.go:125-152 | Two exit-code predicates are stored alike if and only if their non-zero code sets are equal. |
| `Semver.ParseNumericId` | trigger/semver.go:66-80 | A number is digits without a leading zero that fit 64 bits; anything else is none. |
| `Semver.ValidDotSeparated` | trigger/semver.go:82-110 | The loop decides exactly the dotted identifier grammar, with the leading-zero rule for prereleases only. |
| `Semver.ParseTag` | trigger/semver.go:22-62 | The imperative parse computes the functional one, build metadata cut first. |
| `Semver.ParsedWellFormed` | trigger/semver.go:22-62 | Whatever is accepted has 64-bit numbers and legal prerelease identifiers. |
| `Semver.AcceptedExactly` | trigger/semver.go:22-62 | A tag parses to a version if and only if, trimmed and without its v, it is that well-formed version written out, alone or followed by valid build metadata. |
| `Semver.ParseRendered` | trigger/semver.go:22-62 | Every well-formed version, written out with or without a leading v, parses back to itself. |
| `Semver.TagExample` | trigger/semver.go:22-62 | 1.2.3 is major 1, minor 2, patch 3, with or without its v. |
| `Semver.ComparePreLoop` | trigger/semver.go:131-148 | The index loop computes the lexicographic comparison, shorter first on a tie. |
| `Semver.CompareOrder` | trigger/semver.go:115-187 | Comparison is antisymmetric and zero exactly on equal versions. |
| `Semver.CompareTransitive` | trigger/semver.go:115-187 | Comparison is transitive, so with antisymmetry a total order, oversized identifiers included. |
| `Semver.CompareAgrees` | trigger/semver.go:111-165 | It is the precedence of section 11 of Semantic Versioning 2.0.0 when numeric identifiers fit 64 bits. |
| `Semver.SectionElevenExamples` | trigger/semver.go:111-187 | The order of the examples in section 11 of Semantic Versioning 2.0.0. |
| `Semver.AgreesExactlyWhen` | trigger/semver.go:150-165 | An identifier is ordered as the standard says against all ordinary ones if and only if it is below 2^64. |
| `Semver.CompareAgreesExactlyWhen` | trigger/semver.go:111-165 | Two versions are ordered as section 11 says if and only if their cores differ, one is a release, or the first differing identifiers of their prereleases are not misordered. |
| `Semver.LargeNumbersMisordered` | trigger/semver.go:150-165 | A prerelease of twenty nines is ordered after ten to the twentieth, and before it by the standard. |
| `Semver.AcceptsConvex` | trigger/matcher.go:266-283 | Without a not-equal, a constraint list accepts everything between two versions it accepts. |
| `Semver.AcceptsUnordered` | trigger/matcher.go:284-287 | Acceptance does not depend on the order of the comparisons. |
| `Semver.OperatorsMean` | trigger/matcher.go:266-283 | Of two versions in order, which one each operator accepts against the other and against itself. |
| `Semver.ReadOperators` | trigger/matcher.go:295-313 | Each operator, written in front of a version, is read as itself; none and two equals signs mean equality. |
| `Semver.FieldFirst` | trigger/matcher.go:288-291 | A field ends exactly at a separator or at the end of the text. |
| `Semver.SkipSeparator` | trigger/matcher.go:288-291 | A comma, space, tab or newline in front of a text changes no field. |
| `Semver.FieldsSolid` | trigger/matcher.go:288-291 | Every field is non-empty and holds no comma, space, tab or newline. |
| `Semver.ParseConstraints` | trigger/matcher.go:284-316 | Succeeds with one well-formed comparison per field in order; fails only on no field or a field that is no comparison. |
| `Semver.ConstraintRoundTrip` | trigger/matcher.go:288-316 | A written comparison parses as the comparison written, whichever of its operators it starts with. |
| `TraceParents.ValidHexId` | api/trace.go:82-97 | The one-pass loop accepts exactly the lowercase hexadecimal ids of that length that are not all zero. |
| `TraceParents.CheckLowerHex` | api/trace.go:208-220 | The loop accepts exactly the texts of lowercase hexadecimal digits. |
| `TraceParents.ParseHeader` | api/trace.go:159-187 | The checks in order decide and read exactly what the round-trip lemmas are about. |
| `TraceParents.FlagsRoundTrip` | api/trace.go:189-206 | All eight flag bits survive formatting and parsing. |
| `TraceParents.ParseRendered` | api/trace.go:120-187 | Parsing the rendering of a valid value gives the value back. |
| `TraceParents.RenderParsed` | api/trace.go:135-187 | Whatever is accepted is valid and re-renders as a valid version-00 header; an accepted version-00 header is, trimmed, exactly that rendering. |
| `TraceParents.InvalidRendersEmpty` | api/trace.go:120-133 | An invalid value renders as the empty text, which parses as no trace. |
| `TraceParents.RenderedText` | api/trace.go:120-133 | A header is version, trace, parent and flags, in that order. |
| `TraceParents.FlagsSpelled` | api/trace.go:189-206 | The flags byte spelled out, high digit first. |
| `TraceParents.Refused` | api/trace.go:135-187 | What is refused: too few parts, a bad or reserved version, a version 00 with more than four parts, and identifiers or flags of the wrong length, alphabet or value. |
| `Closures.Expand` | run.go:1241-1252 | The growing worklist terminates, and has seen exactly what the start transitively needs. |
| `Closures.ServiceClosure` | run.go:1227-1258 | Sorted, exactly the services and what they transitively need; an error exactly when there is no service. |
| `Closures.SelectFrom` | cmd/senro/cmd_rerun.go:220-266 | Sorted, exactly the steps connected to the one asked for; an error exactly when the plan has no such step. |
| `Closures.SelectionIsLeast` | cmd/senro/cmd_rerun.go:232-258 | The selection is the least set with the step that is closed under needs and dependents. |
| `Closures.SelectsConeExactlyWhen` | cmd/senro/cmd_rerun.go:208-266 | The selection is the step with its ancestors and descendants, as documented, if and only if every ancestor needs only those and every descendant is needed only by those. |
| `Closures.SiblingIsSelected` | cmd/senro/cmd_rerun.go:232-258 | A plan in which a step neither above nor below the one asked for is selected. |
| `Restores.SortedLastIsLongest` | cmd/senro/shell_offline.go:281-283 | After the stable sort the last mount enclosing a path is the longest one, the later in the plan among equals. |
| `Restores.DeepestMountWins` | cmd/senro/shell_offline.go:267-298 | With distinct mount paths every path holds what the deepest enclosing mount holds, in whatever order the plan lists them; other paths are untouched. |
| `Restores.RestoredIs` | cmd/senro/shell_offline.go:267-298 | The same with repeated paths: the later mount of the deepest path wins. |
| `Restores.RestoreMounts` | cmd/senro/shell_offline.go:281-298 | The loop succeeds exactly when every snapshot is usable, and leaves the sorted restores' result. |
| `Restores.EnclosesMeans` | cmd/senro/shell_offline.go:267-298 | A directory encloses itself and what continues it with a slash, and nothing that merely shares its beginning. |
| `Restores.RestoredBelow` | cmd/senro/shell_offline.go:284-298 | Below a mount there is what its snapshot holds under the rest of the path and nothing else; elsewhere nothing changes. |
| `Restores.SiblingLeftAlone` | cmd/senro/shell_offline.go:267-298 | A workspace at /work leaves /workspace alone. |

## Left out

- The engine, scheduler, storage, executors, plan validation and unit partitioning under `internal/` are not part of this model; only the bounded queue of `internal/sink` is used, as `Notifier` describes it.
- `Builds.Build`: starts from resolved expansions; node conversion is modelled apart from it, in `HandlerTrees`; executor targets, conditions, declarations, handler id clashes and `plan.Validate` are not modelled.
- `PerUnitPairing.PairEach`: takes the children as pairwise different builders, which is how expansions create them; unit graphs themselves are not modelled.
- `HandlerTrees.ToNode`: the builders are a map from identities to values, since a conversion only reads them; the path set is an object shared by the descent. The fields copied besides the id and the handlers are left out, and everything refused about a builder itself is one kind of broken.
- `RunStates.RunState.Apply`: a step's and a handler's record is held by value and written back where the source writes through a pointer; payloads arrive decoded, with one event standing for a payload that does not decode; absent maps read as empty; byte counters do not wrap.
- `CheckAnnotations.GitHubChecks.Annotations`: scans the recorded failures per step where the source keeps an index of them; annotation texts are opaque.
- `Dispatcher.OnePipeline`: safety only, over a lock taken as exclusive; that a displaced run stops in time, the 30-second deadline and the check-run reporting are not modelled.
- `Notifier.CleanShutdown`: grace periods and timers are arbitrary interleavings; whether a destination drains in time is not modelled, only what follows when it does.
- `Deliveries.Send`: requests, rendering and the wait between attempts are parameters; durations and error texts are left out.
- `Backoffs.Delay`: over the reals, before truncation to nanoseconds; floating-point rounding is not modelled.
- `RetryPredicates.ParseRoundTrips`: regular expressions, JSON validity of parameters, the registry and bare functions are parameters; canonicalising parameters is left out, so a recorded parameter text is taken as canonical.
- `Json.ListRoundTrip`: text is a sequence of Unicode scalar values, so the replacement of invalid UTF-8 is not modelled.
- `Restores.RestoreMounts`: the file tree is a function from paths to contents, updated functionally; cleaning and joining mount paths, the temporary directory and the choice of working directory are left out.
- `api/state_enum.go`, `RunState.Group` and `TestCounts`: flags and counters in one loop, which would only add easy members.
- Command-line parsing, webhook payload parsers, HTTP, TLS, signatures, terminals, remote caches, manifests and the builder options: plumbing with shallow branches.
