# Verified model of the Jueying task graph core and its legacy runtime

This Dafny project models the parts of the repository that decide what may run, when, and what is written back,
and proves what they promise on all inputs, all runs and all interleavings.

- **Task graphs.** `Records` holds the contract records, `Dependency` the dependency relation as a graph of walks,
  `Rounds` the rounds in which such a graph can be worked off. `CycleSearch` is the recursive three-colour search
  with its mutable colours and trail, `Structure` the structural checks, `EdgeTables` and `Kahn` the planner's
  tables and its layered loop, `Planner` the planner and what its plans mean, `Contract` the validation of a graph,
  `Ordering` the order of ids and sorting.
- **From graph to execution.** `Projection` is the checked projection to the legacy stage chain, `Executor` the
  gateway's run of a chain with repairs, reports with retries and the completion callback, `EndToEnd` the theorem
  that joins the two, `DispatchGuard` the guard against two runs of one workflow.
- **Bridge and write-back.** `Writeback` is the policy over arbitrary JSON payloads, `FieldRecords` the records
  around a graph, `Bridge` the gate with its payloads, `Fixtures` the second validator with its own rules, and
  `Agreement` the proof that the two agree.
- **Stateful services.** `AuditBuffer` (bounded buffer with overlapping flushes), `Migrations` (any number of runs
  against one table), `DeviceStore` (device lists by user), `LoginLimiter` (lockout times; `Powers` has the powers
  of two) and `EnvFile` (saving and loading the `.env` file).

What a program changes in place is a class or a method with loops here, proved against a specification function
or predicate; the lemmas then say what that specification means. Protocols with several actors are state machines
over events, with invariants over every sequence of events.

`dafny verify dfyconfig.toml` checks the whole project.

## Conventions

- An id is its text. Ids are ordered by Unicode scalar values, which is the byte order of UTF-8.
- `wellFormed` stands for the checks of a record's own characters: id pattern, non-empty texts, timestamps, and the
  membership checks of the management and sales records.
- A hash map built from records by id is `Records.LastById` (the last record wins), a search with `find` is
  `Records.FirstById`.
- Executors, the workflow service, the database and the clock are parameters: functions that give the outcome of
  each attempt, events of a state machine, or times.
- A number of repairs is a real number, because the gateway takes whatever number is stored.

## What the code does differently from what one might expect

- A task may be called "complete", which is also the word that ends a chain. `Projection.ProjectionVisitsEveryTask`
  gives the condition on the graph under which following `on_success` still visits every task, and
  `Projection.TaskCalledCompleteCutsWalk` a graph for which it does not.
- The projection stores zero repairs for all owners but workers, and the gateway reads a stored zero as absent, so
  every projected stage gets one repair.
- A fractional maximum of repairs is rounded up.
- `manual_only` is never computed by the policy: its last branch is unreachable. Two checks of an intent (high risk,
  status update) are implied by the comparison with the policy.
- A quoted value of the `.env` file doubles its backslashes on each round of saving and loading, except right before
  a single quote. `EnvFile.SaveThenLoad` gives the exact condition under which a map comes back.
- An audit entry can be delivered more than once: an insert can commit while its reply is lost, and then the fallback
  logs the batch too (`AuditBuffer.LostReplyRepeats`), or a flush can fail after its insert and put the batch back.
  `AuditBuffer.NothingIsLost` gives the exact condition for deliveries. The table ignores an id that it already has,
  so for its rows a second insert does no harm (`AuditBuffer.SecondInsertKeepsOneRow`), and `AuditBuffer.NoRowIsLost`
  gives the exact condition there, with ids that are fresh.
- The fixture validator does not look for repeated ids of gaps, evidence and intents, and the bridge does:
  `Agreement.ValidatorsAgree` has distinct ids in its condition, and `Agreement.DuplicateGapDivides` shows why.
- The planner's unknown-dependency return, its final length guard and the planner error of the checked projection
  are unreachable.

## Model

| member | source | states |
|---|---|---|
| `CycleSearch.DependencyCycleIssues` | jueying-mainline/rust/crates/jueying-core/src/graph.rs:9-61 | On every task list, with unknown dependencies ignored and the last task of an id counting, there is no report exactly when the dependency relation has no cycle, every reported trail is a dependency walk whose last id already occurs in it, and every cycle contains a step that closes a reported trail. |
| `CycleSearch.BrokenIsAcyclic` | jueying-mainline/rust/crates/jueying-core/src/graph.rs:23-45 | Taking the last step of every reported trail out of the relation leaves no cycle. |
| `CycleSearch.Search.Visit` | jueying-mainline/rust/crates/jueying-core/src/graph.rs:15-46 | What one visit keeps and does: trail and colours are restored, reports only grow, a task on the trail is reported with exactly the trail that closes the loop, a known or finished task changes nothing, any other ends up visited; the ghost list of finished tasks stays in dependencies-first order apart from reported steps. |
| `CycleSearch.Search.VisitDependencies` | jueying-mainline/rust/crates/jueying-core/src/graph.rs:40-42 | The loop over the dependencies keeps the same invariant and leaves every known dependency visited or the step to it reported. |
| `Dependency.OrderedIsAcyclic` | jueying-mainline/rust/crates/jueying-core/src/graph.rs:43-45 | A complete list in which dependencies come first rules out every closed walk. |
| `Dependency.StuckSetHasCycle` | jueying-mainline/rust/crates/jueying-core/src/graph.rs:164-184 | If every member of a non-empty set depends on a member of it, there is a cycle (by the pigeonhole principle on a long walk). |
| `Structure.TaskDependencyIssues` | jueying-mainline/rust/crates/jueying-core/src/graph.rs:203-223 | The complaints about one task are exactly its unknown, own and repeated dependencies. |
| `Structure.DependencyStructuralIssues` | jueying-mainline/rust/crates/jueying-core/src/graph.rs:193-227 | The structural complaints are exactly the true ones, and there are none exactly in a list with distinct ids and distinct, known, foreign dependencies. |
| `EdgeTables.BuildTables` | jueying-mainline/rust/crates/jueying-core/src/graph.rs:120-148 | The counts, dependents and blockers are those of the dependency graph, and the unknown-dependency return is taken exactly when a dependency is unknown. |
| `Kahn.Release` | jueying-mainline/rust/crates/jueying-core/src/graph.rs:169-175 | Marking one task done keeps every count equal to the number of dependencies still to do, never takes one below zero, and collects exactly the tasks that became free. |
| `Kahn.WorkOffLayer` | jueying-mainline/rust/crates/jueying-core/src/graph.rs:165-176 | Working off layer k leaves the counts of k + 1 rounds and collects layer k + 1, each task once. |
| `Kahn.FirstReady` | jueying-mainline/rust/crates/jueying-core/src/graph.rs:157-160 | The first queue is the sorted list of the tasks without dependencies. |
| `Kahn.Drain` | jueying-mainline/rust/crates/jueying-core/src/graph.rs:157-180 | Whether or not there are cycles, the loop ends and yields the non-empty sorted layers of the graph one by one until the next layer is empty; the order is their concatenation. |
| `Rounds.LayerIsOneAfterDependencies` | jueying-mainline/rust/crates/jueying-core/src/graph.rs:164-180 | A task is in layer 0 when it has no dependency and otherwise in the layer one after the last of its dependencies. |
| `Rounds.ExhaustedIffAcyclic` | jueying-mainline/rust/crates/jueying-core/src/graph.rs:164-184 | Rounds that stop have covered every task if and only if there is no cycle. |
| `Planner.PlanTaskGraph` | jueying-mainline/rust/crates/jueying-core/src/graph.rs:109-191 | A list plans exactly when it is structurally sound and acyclic; the result is then the plan of its dependency graph, and otherwise the complaints are true. The late unknown-dependency return and the final length guard never fire. |
| `Planner.DrainsAllIffAcyclic` | jueying-mainline/rust/crates/jueying-core/src/graph.rs:115-184 | The two cycle detectors agree: the Kahn loop lists as many tasks as there are exactly when no closed walk exists, which is when the search reports nothing. |
| `Planner.PlanIsTopological` | jueying-mainline/rust/crates/jueying-core/src/graph.rs:161-189 | The order lists every task id once, and every dependency strictly before the tasks that need it. |
| `Planner.PlanLayersFollowDependencies` | jueying-mainline/rust/crates/jueying-core/src/graph.rs:164-180 | A task of layer k has all dependencies in earlier layers and, unless k is 0, one in layer k - 1. |
| `Planner.PlanLayersPartition` | jueying-mainline/rust/crates/jueying-core/src/graph.rs:164-180 | Each task is in exactly one layer. |
| `Planner.PlanIsOptimal` | jueying-mainline/rust/crates/jueying-core/src/graph.rs:157-180 | No assignment of tasks to rounds that respects the dependencies runs a task before its layer, no dependency walk is longer than the number of layers, and one is as long. |
| `Planner.PlanIsUnique` | jueying-mainline/rust/crates/jueying-core/src/graph.rs:103-107 | A dependency graph has only one plan: order, layers and blockers are determined. |
| `Planner.PlanIgnoresInputOrder` | jueying-mainline/rust/crates/jueying-core/src/graph.rs:120-190 | Permuting the tasks or any dependency list changes neither whether the list plans nor order, layers or blockers. |
| `Ordering.BelowIsLexicographic` | jueying-mainline/rust/crates/jueying-core/src/graph.rs:120-178 | The order of ids in the sorted maps and sets is the first-difference order of their text. |
| `Ordering.SortIsSorted` | jueying-mainline/rust/crates/jueying-core/src/graph.rs:150-177 | Sorting distinct ids gives a strictly increasing list. |
| `Contract.DependencyStatusIssues` | jueying-mainline/rust/crates/jueying-core/src/graph.rs:63-100 | There is one complaint for each active or accepted task with unresolved dependencies, listing exactly these, and no other. |
| `Contract.StatusFaultsAreUnready` | jueying-mainline/rust/crates/jueying-core/src/graph.rs:87-95 | Status by status: the reported tasks are those not pending, blocked, rejected, waived or cancelled with a known dependency neither accepted nor waived, and exactly these dependencies are named. |
| `Contract.UnresolvedInOrder` | jueying-mainline/rust/crates/jueying-core/src/graph.rs:68-85 | The named dependencies keep the order of the list, each as often as it is listed. |
| `Contract.TaskIssues` | jueying-mainline/rust/crates/jueying-core/src/contract.rs:387-437 | The complaints about a task by itself are exactly the true ones. |
| `Contract.UnknownDependencyIssues` | jueying-mainline/rust/crates/jueying-core/src/contract.rs:441-450 | Exactly the dependencies outside the given ids are complained about. |
| `Contract.ValidateTaskGraph` | jueying-mainline/rust/crates/jueying-core/src/contract.rs:375-456 | Every complaint is true, every fault that is not a cycle is complained about, a cycle is reported exactly when there is one, and nothing is found exactly in a conforming graph. Every active or accepted task that depends on a known task neither accepted nor waived is reported with exactly these dependencies, and no other task is. |
| `Contract.ConformsWithoutFault` | jueying-mainline/rust/crates/jueying-core/src/contract.rs:375-456 | A graph conforms exactly when nothing but cycles could be complained about and there is none. |
| `Contract.AcceptedUntilWaived` | jueying-mainline/rust/crates/jueying-core/src/graph.rs:229-243 | On every dependency path from an active or accepted task of a validated graph, the tasks are accepted up to the first waived one. |
| `Projection.CheckedProjection` | jueying-mainline/rust/crates/jueying-core/src/adapter.rs:465-483 | A graph is projected exactly when it conforms; otherwise the issues are true faults and include every fault that is not a cycle. The error of the planner is never seen. |
| `Projection.ProjectionFollowsPlan` | jueying-mainline/rust/crates/jueying-core/src/adapter.rs:494-528 | The chain has one stage per task in an order that lists every id once with dependencies first, and each stage names the next one, the last one "complete". |
| `Projection.StagesDescribeTasks` | jueying-mainline/rust/crates/jueying-core/src/adapter.rs:530-580 | Stage i carries position i, the title of its task, approval exactly for human owners, retrieval exactly for needed evidence or gaps otherwise, the executor that belongs to the type, and a stored repair exactly for workers. |
| `Projection.ProjectionIsUnique` | jueying-mainline/rust/crates/jueying-core/src/adapter.rs:494-528 | A graph has one projection. |
| `Projection.ProjectionIgnoresInputOrder` | jueying-mainline/rust/crates/jueying-core/src/adapter.rs:465-587 | Rearranging the tasks or any dependency list changes neither whether the graph conforms nor its projection, stage by stage. |
| `Projection.WalkAlongChain` | jueying-mainline/rust/crates/jueying-core/src/adapter.rs:568 | Following on_success from the first stage gives the listed order, cut before a later task called "complete", and no other path. |
| `Projection.ProjectionVisitsEveryTask` | jueying-mainline/rust/crates/jueying-core/src/adapter.rs:494-580 | Following on_success through a projection visits every task once in planned order if and only if no task of the graph is called "complete", or that task needs nothing and its id is below those of all others that need nothing. |
| `Projection.PlanStartsWithLeast` | jueying-mainline/rust/crates/jueying-core/src/graph.rs:157-180 | The planned order starts with the least of the tasks that need nothing. |
| `Projection.CompleteOnlyInFront` | jueying-mainline/rust/crates/jueying-core/src/adapter.rs:568 | The id that ends a chain stands behind the first place of the planned order exactly when that condition on the graph fails. |
| `Projection.TaskCalledCompleteCutsWalk` | jueying-mainline/rust/crates/jueying-core/src/adapter.rs:568 | A conforming graph of two tasks whose walk ends after the first one. |
| `Executor.PostWithRetry` | jueying-mainline/legacy/jueying-v1/agent-harness/services/executor-gateway/src/index.ts:23-48 | It succeeds exactly when the first reply that is not worth a retry, within the attempts, accepts; the status is that reply's, or 0 when all attempts were used up; the waits add up to 1000 (2^(tries-1) - 1) milliseconds. |
| `Executor.RunStage` | jueying-mainline/legacy/jueying-v1/agent-harness/services/executor-gateway/src/index.ts:326-400 | A stage ends as its executor said unless that is a failure; then the first repair that throws or succeeds decides, and without one it stays failed after all allowed repairs. |
| `Executor.StageEndsOneWay` | jueying-mainline/legacy/jueying-v1/agent-harness/services/executor-gateway/src/index.ts:326-400 | The environment determines how a stage ends and how many repairs were made. |
| `Executor.RepairsWithinMaximum` | jueying-mainline/legacy/jueying-v1/agent-harness/services/executor-gateway/src/index.ts:336-341 | Repairs never exceed the computed maximum if and only if that maximum is whole or not positive; a fractional one is rounded up. |
| `Executor.StoredMaximumIsKept` | jueying-mainline/legacy/jueying-v1/agent-harness/services/executor-gateway/src/index.ts:335-336 | A stored positive whole number is the limit and can be used up; a stored zero means one repair with "repair_or_fail" and none otherwise. |
| `Executor.WithoutStoredMaximum` | jueying-mainline/legacy/jueying-v1/agent-harness/services/executor-gateway/src/index.ts:336 | Without a stored number a stage gets one repair with "repair_or_fail" and none otherwise. |
| `Executor.FirstGoodRepairMends` | jueying-mainline/legacy/jueying-v1/agent-harness/services/executor-gateway/src/index.ts:341-393 | A failed stage ends completed exactly when a repair within the limit, the last one made, ends completed or succeeded and no earlier one did or threw. |
| `Executor.GoesOnWhenReportedCompleted` | jueying-mainline/legacy/jueying-v1/agent-harness/services/executor-gateway/src/index.ts:406-447 | The chain goes on exactly after a status that was reported as completed, and stopping statuses are reported as they are. |
| `Executor.RunAndReport` | jueying-mainline/legacy/jueying-v1/agent-harness/services/executor-gateway/src/index.ts:318-437 | A stage is acknowledged exactly when its executor returned and its report was accepted within five attempts. |
| `Executor.AutoExecute` | jueying-mainline/legacy/jueying-v1/agent-harness/services/executor-gateway/src/index.ts:279-475 | The stages that are running, pending or without a status run in order and no others, each only after the one before it was acknowledged (within five attempts) with a non-stopping status; completion is attempted exactly when there are stages and every such stage passed. |
| `Executor.RunsOpenStages` | jueying-mainline/legacy/jueying-v1/agent-harness/services/executor-gateway/src/index.ts:309-315 | Status by status: only running, pending and status-less stages are executed, each at most once and in order, none is skipped, and all were executed when completion is attempted. |
| `Executor.PassedByStatus` | jueying-mainline/legacy/jueying-v1/agent-harness/services/executor-gateway/src/index.ts:418-447 | The chain goes on after a stage exactly when its report was acknowledged and it did not end failed, waiting for the user or blocked. |
| `Executor.RunIsDetermined` | jueying-mainline/legacy/jueying-v1/agent-harness/services/executor-gateway/src/index.ts:309-475 | The environment determines the whole run, so the description of a run leaves nothing open. |
| `EndToEnd.NoTaskBeforeItsDependencies` | jueying-mainline/legacy/jueying-v1/agent-harness/services/executor-gateway/src/index.ts:309-448 | Running the projection of a conforming graph, whatever executors and service do: when a task is executed, every task it needs, directly or not, was executed before and its report was acknowledged with a non-stopping status. |
| `EndToEnd.CompletionMeansEveryTaskPassed` | jueying-mainline/legacy/jueying-v1/agent-harness/services/executor-gateway/src/index.ts:450-463 | Completion is attempted exactly when every task of the graph was executed and passed. |
| `EndToEnd.EveryProjectedStageGetsOneRepair` | jueying-mainline/rust/crates/jueying-core/src/adapter.rs:560-569 | Every projected stage is granted exactly one repair, although the projection stores 0 for all owners but workers. |
| `DispatchGuard.AlwaysConsistent` | jueying-mainline/legacy/jueying-v1/agent-harness/services/executor-gateway/src/index.ts:127-143 | Over every sequence of dispatches, endings and removals the map holds exactly the runs that are live or not yet removed. |
| `DispatchGuard.AtMostOneLiveRun` | jueying-mainline/legacy/jueying-v1/agent-harness/services/executor-gateway/src/index.ts:127-143 | A workflow has at most one live run, and a dispatch for it meanwhile changes nothing. |
| `DispatchGuard.DispatchStarts` | jueying-mainline/legacy/jueying-v1/agent-harness/services/executor-gateway/src/index.ts:127-135 | A dispatch starts a run exactly when none of that workflow is live or waiting to be removed. |
| `DispatchGuard.StartsAgainAfterEnd` | jueying-mainline/legacy/jueying-v1/agent-harness/services/executor-gateway/src/index.ts:127-143 | After any events, once a live run has settled and its entry is removed, the next dispatch of its workflow starts a run. |
| `DispatchGuard.Gateway.HandleDispatch` | jueying-mainline/legacy/jueying-v1/agent-harness/services/executor-gateway/src/index.ts:127-135 | The in-place handler takes the step of the specification and says whether a run was started. |
| `DispatchGuard.Gateway.RemoveFinished` | jueying-mainline/legacy/jueying-v1/agent-harness/services/executor-gateway/src/index.ts:141-143 | Removing the entry of a settled run takes the step of the specification. |
| `DispatchGuard.Gateway.FinishRun` | jueying-mainline/legacy/jueying-v1/agent-harness/services/executor-gateway/src/index.ts:136-143 | A run that ends takes the two steps of settling and of removing its entry. |
| `Writeback.FlattenPayloadKeys` | jueying-mainline/rust/crates/jueying-core/src/writeback.rs:97-112 | The loops collect the keys of the specification function, in order. |
| `Writeback.KeysAtAnyDepth` | jueying-mainline/rust/crates/jueying-core/src/writeback.rs:97-112 | These keys are exactly the object keys that can be reached by a path through objects and arrays. |
| `Writeback.DecideWritebackPolicy` | jueying-mainline/rust/crates/jueying-core/src/writeback.rs:14-75 | Automatic execution is decided exactly for low risk, an operation that only adds and no risky key anywhere; everything else needs confirmation, and the one reason given is true, naming exactly the risky keys. |
| `Writeback.RiskyKeysNeedConfirmation` | jueying-mainline/rust/crates/jueying-core/src/writeback.rs:31-56 | Each of the ten keys by name, wherever it occurs in the payload, needs confirmation. |
| `Writeback.AutomaticExactlyWhenHarmless` | jueying-mainline/rust/crates/jueying-core/src/writeback.rs:17-75 | Automatic execution is decided exactly for a low-risk note, task, comment or link without any of the ten keys; field and status updates always need confirmation. |
| `Writeback.RiskyKeysJoin` | jueying-mainline/rust/crates/jueying-core/src/writeback.rs:31-50 | The risky keys named in the reason keep the order of the payload, each as often as it occurs. |
| `Writeback.AllowsTable` | jueying-mainline/rust/crates/jueying-core/src/writeback.rs:77-91 | All sixteen pairs of a stored and a required decision. |
| `Writeback.PolicyIsMonotone` | jueying-mainline/rust/crates/jueying-core/src/writeback.rs:14-91 | Raising the risk or enlarging the payload never makes the decision more permissive. |
| `Writeback.ValidateIntent` | jueying-mainline/rust/crates/jueying-core/src/contract.rs:594-656 | An intent passes exactly when it is well formed and its stored decision is no more permissive than the policy; each of the four complaints is made exactly when it is true, and the two extra checks never refuse anything else. |
| `Bridge.BuildPreview` | jueying-mainline/rust/crates/jueying-core/src/adapter.rs:48-388 | The bridge is ok exactly when all records are sound together; any complaint means no payload at all, and an accepted input yields the projection, the open gaps, every evidence and a sound audit event per intent. |
| `Bridge.CheckGaps` | jueying-mainline/rust/crates/jueying-core/src/adapter.rs:90-115 | No complaint exactly when gap ids are distinct and each gap names a known task and fitting known evidence. |
| `Bridge.CheckAllEvidence` | jueying-mainline/rust/crates/jueying-core/src/adapter.rs:116-163 | No complaint exactly when evidence ids are distinct and each item names a known task and gap that belong together. |
| `Bridge.CheckIntents` | jueying-mainline/rust/crates/jueying-core/src/adapter.rs:164-227 | No complaint exactly when intent ids are distinct and each intent conforms and is supported by its evidence. |
| `Bridge.CheckTasks` | jueying-mainline/rust/crates/jueying-core/src/adapter.rs:228-278 | No complaint exactly when each task uses only known evidence and gaps that are its own and of the same opportunity. |
| `Bridge.CheckDecisions` | jueying-mainline/rust/crates/jueying-core/src/adapter.rs:279-319 | No complaint exactly when the decisions have distinct known ids, every intent has one, recommendations are the computed ones and final decisions are permissive neither of policy nor of stored decision. |
| `Bridge.AuditEvents` | jueying-mainline/rust/crates/jueying-core/src/adapter.rs:352-365 | Each event carries the final decision if there is one and else the stored one, is never more permissive than the stored decision or the policy, and is a failure exactly when rejected. |
| `Bridge.ToAuditEvent` | jueying-mainline/rust/crates/jueying-core/src/adapter.rs:670-698 | The event takes the stricter of the stored and the required decision. |
| `Bridge.OpenGaps` | jueying-mainline/rust/crates/jueying-core/src/adapter.rs:333-342 | Exactly the gaps that are neither closed nor waived become tasks. |
| `Bridge.OneTaskPerOpenGap` | jueying-mainline/rust/crates/jueying-core/src/adapter.rs:333-342 | An ok answer asks for one task per gap neither closed nor waived, in the order of the gaps and none twice. |
| `Bridge.DecisionsMatchIntents` | jueying-mainline/rust/crates/jueying-core/src/adapter.rs:279-319 | Accepted decisions are in bijection with the intents. |
| `Bridge.DecisionOrderIsIrrelevant` | jueying-mainline/rust/crates/jueying-core/src/adapter.rs:279-387 | Permuting the decisions changes nothing in the answer but possibly the complaints of a refusal: verdict, workflow, tasks, facts and audit events stay the same. |
| `Fixtures.FixtureReferences` | jueying-mainline/rust/crates/jueying-core/src/fixtures.rs:106-386 | No complaint exactly when every reference rule holds. |
| `Fixtures.ValidateFixtureState` | jueying-mainline/rust/crates/jueying-core/src/fixtures.rs:56-95 | The fixture state passes exactly when every rule about every record holds. |
| `Agreement.ValidatorsAgree` | jueying-mainline/rust/crates/jueying-core/src/fixtures.rs:106-449 | On the records both read, the fixture rules with distinct ids hold if and only if the bridge accepts the records with the computed recommendations and no final decision. |
| `Agreement.ValidFixtureIsBridged` | jueying-mainline/rust/crates/jueying-cli/src/main.rs:86-135 | A fixture state that passes with distinct gap, evidence and intent ids is accepted by the bridge. |
| `Agreement.DuplicateGapDivides` | jueying-mainline/rust/crates/jueying-core/src/fixtures.rs:56-95 | Without distinct ids the two differ: listing a gap twice keeps a passing fixture state passing, and the bridge refuses it. |
| `Agreement.Recommendations` | jueying-mainline/rust/crates/jueying-cli/src/main.rs:102-116 | The report recommends for each intent what the policy computes and decides nothing finally. |
| `Agreement.BuildReport` | jueying-mainline/rust/crates/jueying-cli/src/main.rs:86-135 | There is a report exactly when the graph plans, with that plan; its two verdicts are never apart on the shared records while ids are distinct. |
| `Records.LastIsFirst` | jueying-mainline/rust/crates/jueying-core/src/adapter.rs:71-78 | Without repeated ids, the last-wins map and the first-match search find the same record. |
| `AuditBuffer.NothingIsLost` | jueying-mainline/legacy/jueying-v1/agent-harness/libs/audit/src/writer.ts:130-192 | Over every interleaving of writes and overlapping flushes each accepted entry waits, was inserted, logged or discarded, and this as often as it was accepted if and only if every flush that ended was clean: it inserted its batch, or logged it, or gave it back untouched. |
| `AuditBuffer.NoRowIsLost` | jueying-mainline/legacy/jueying-v1/agent-harness/libs/audit/src/writer.ts:175-246 | The same for the rows of the table, where a second insert of an id does nothing: with fresh ids no accepted entry is lost, the rows are exactly the entries ever inserted, and each entry is found as often as it was accepted if and only if no flush logged what it inserted or gave back and all that was inserted was in the end inserted by a flush that did not give it back. |
| `AuditBuffer.InsertedRows` | jueying-mainline/legacy/jueying-v1/agent-harness/libs/audit/src/writer.ts:229-234 | An insert never changes a row that is there and adds rows for entries of its batch only. |
| `AuditBuffer.LostReplyRepeats` | jueying-mainline/legacy/jueying-v1/agent-harness/libs/audit/src/writer.ts:238-245 | A concrete run that is not balanced: an insert commits, its reply is lost, and the fallback logs the entry as well. |
| `AuditBuffer.SecondInsertKeepsOneRow` | jueying-mainline/legacy/jueying-v1/agent-harness/libs/audit/src/writer.ts:186-234 | A concrete run with two deliveries of one entry and one row, balanced for the table. |
| `AuditBuffer.CleanRepeatsNothing` | jueying-mainline/legacy/jueying-v1/agent-harness/libs/audit/src/writer.ts:175-191 | A flush delivers or gives back every entry of its batch, and repeats none exactly when it ends one way only. |
| `AuditBuffer.EveryWriteIsCounted` | jueying-mainline/legacy/jueying-v1/agent-harness/libs/audit/src/writer.ts:138-148 | Every write is accepted or counted as dropped. |
| `AuditBuffer.WriteByLength` | jueying-mainline/legacy/jueying-v1/agent-harness/libs/audit/src/writer.ts:138-156 | A write is dropped exactly when 10000 entries wait; otherwise it is accepted, and it starts a flush of everything exactly when the buffer then holds 100 entries or more. |
| `AuditBuffer.TickTakesAll` | jueying-mainline/legacy/jueying-v1/agent-harness/libs/audit/src/writer.ts:119-128 | The timer flushes the whole buffer, and does nothing when it is empty. |
| `AuditBuffer.FailedFlushKeepsOrder` | jueying-mainline/legacy/jueying-v1/agent-harness/libs/audit/src/writer.ts:188-190 | A failed batch goes back in front of what was written meanwhile, so the order is kept if no other flush starts in between. |
| `AuditBuffer.BufferIsBounded` | jueying-mainline/legacy/jueying-v1/agent-harness/libs/audit/src/writer.ts:138-190 | The buffer never exceeds 10000 entries. |
| `AuditBuffer.SmallBatchesWithoutFailure` | jueying-mainline/legacy/jueying-v1/agent-harness/libs/audit/src/writer.ts:138-192 | Without a failed flush every batch has 1 to 100 entries and nothing is dropped or discarded. |
| `AuditBuffer.BuildInsert` | jueying-mainline/legacy/jueying-v1/agent-harness/libs/audit/src/writer.ts:207-227 | Placeholder 12 i + j + 1 stands in row i for column j of entry i. |
| `AuditBuffer.InsertColumns` | jueying-mainline/legacy/jueying-v1/agent-harness/libs/audit/src/writer.ts:211-224 | The twelve cells of a row by field name, with null for an organisation, workflow or trace that is not given. |
| `AuditBuffer.AuditWriter.WriteEntry` | jueying-mainline/legacy/jueying-v1/agent-harness/libs/audit/src/writer.ts:130-157 | Writing in place takes the step of the specification, and starts a flush with exactly the buffer when it is full. |
| `AuditBuffer.AuditWriter.BeginFlush` | jueying-mainline/legacy/jueying-v1/agent-harness/libs/audit/src/writer.ts:169-173 | A flush takes the whole buffer. |
| `AuditBuffer.AuditWriter.FinishFlush` | jueying-mainline/legacy/jueying-v1/agent-harness/libs/audit/src/writer.ts:175-191 | The end of a flush takes the step of the specification: a failed batch is put back in front or discarded. |
| `Migrations.CommitsArePrefixOfPending` | jueying-mainline/legacy/jueying-v1/agent-harness/scripts/apply-sql-migrations.js:77-105 | Over every interleaving of runs, failures and restarts the commits are a first part of the initially pending list in order, so no file commits twice and every earlier listed file is in the table when one commits. |
| `Migrations.RunCommitsItsPrefix` | jueying-mainline/legacy/jueying-v1/agent-harness/scripts/apply-sql-migrations.js:62-105 | At every moment, also after a failure, a run has committed exactly the first files of its own pending list. |
| `Migrations.FinishedMeansAllApplied` | jueying-mainline/legacy/jueying-v1/agent-harness/scripts/apply-sql-migrations.js:93-105 | When some run has finished, every listed file is in the table. |
| `Migrations.StartLists` | jueying-mainline/legacy/jueying-v1/agent-harness/scripts/apply-sql-migrations.js:85-92 | A run lists the files that are not in the table, and has finished at once when there are none. |
| `Migrations.NextFileCanCommit` | jueying-mainline/legacy/jueying-v1/agent-harness/scripts/apply-sql-migrations.js:62-75 | A run whose next file is neither applied nor held by another run can open, insert and commit it, with or without learning of the commit. |
| `Migrations.SecondInsertIsRefused` | jueying-mainline/legacy/jueying-v1/agent-harness/scripts/apply-sql-migrations.js:69 | A file that is applied or held by another run cannot be inserted. |
| `Migrations.RunCanFail` | jueying-mainline/legacy/jueying-v1/agent-harness/scripts/apply-sql-migrations.js:71-74 | A run can fail at any moment before its end, which leaves the table as it is. |
| `Migrations.MigrationTable.ApplyPending` | jueying-mainline/legacy/jueying-v1/agent-harness/scripts/apply-sql-migrations.js:85-99 | A run by itself adds exactly the pending files before the first script that fails. |
| `DeviceStore.StoreRefinesRegistry` | jueying-mainline/legacy/jueying-v1/agent-harness/apps/mobile-app/src/index.ts:186-257 | Over any sequence of calls the store refines a plain map from token to registration: each token occurs at most once in all lists, under the user named in its record. |
| `DeviceStore.RegisterRefines` | jueying-mainline/legacy/jueying-v1/agent-harness/apps/mobile-app/src/index.ts:186-213 | Registering maps the token to the new record, which keeps its first time only for the same user, and leaves every other token alone. |
| `DeviceStore.UnregisterRefines` | jueying-mainline/legacy/jueying-v1/agent-harness/apps/mobile-app/src/index.ts:242-257 | Unregistering removes the token and leaves every other alone. |
| `DeviceStore.RemovedOnce` | jueying-mainline/legacy/jueying-v1/agent-harness/apps/mobile-app/src/index.ts:243-253 | Cutting out the first match removes the token everywhere. |
| `DeviceStore.DeviceService.RegisterDevice` | jueying-mainline/legacy/jueying-v1/agent-harness/apps/mobile-app/src/index.ts:186-213 | The in-place registration has the effect of the specification and returns the stored record. |
| `DeviceStore.DeviceService.RemoveFromOthers` | jueying-mainline/legacy/jueying-v1/agent-harness/apps/mobile-app/src/index.ts:190-198 | The token is taken from every other user, whatever the order of the users. |
| `DeviceStore.DeviceService.UnregisterDevice` | jueying-mainline/legacy/jueying-v1/agent-harness/apps/mobile-app/src/index.ts:242-247 | Stopping at the first user with the token has the effect of removing it everywhere, and the result says whether anyone had it. |
| `LoginLimiter.LockoutsGrow` | jueying-mainline/legacy/jueying-v1/agent-harness/apps/web-portal/src/index.ts:662-667 | Lockouts never shrink, never exceed 900000 ms and are that from the tenth failure on. |
| `LoginLimiter.AnswersByNumber` | jueying-mainline/legacy/jueying-v1/agent-harness/apps/web-portal/src/index.ts:650-677 | The first four failures are answered freely, the fifth with 30000 ms, then doubled up to 900000 ms from the tenth on. |
| `LoginLimiter.ForgottenByAge` | jueying-mainline/legacy/jueying-v1/agent-harness/apps/web-portal/src/index.ts:621-629 | Cleaning up forgets an identifier exactly when it was never locked or its lock ended more than 300000 ms ago. |
| `LoginLimiter.AlwaysSound` | jueying-mainline/legacy/jueying-v1/agent-harness/apps/web-portal/src/index.ts:621-681 | Whatever happens, lockedUntil is 0 exactly when fewer than five failures are counted. |
| `LoginLimiter.CleanupKeepsAnswers` | jueying-mainline/legacy/jueying-v1/agent-harness/apps/web-portal/src/index.ts:621-632 | Cleaning up never changes the answer of a check at that time or later. |
| `LoginLimiter.RunIsSpaced` | jueying-mainline/legacy/jueying-v1/agent-harness/apps/web-portal/src/index.ts:631-677 | Checking before recording, each counted failure after the fifth comes at least the last lockout after the one before it, and the entry tracks count and lock. |
| `LoginLimiter.FailuresTakeTime` | jueying-mainline/legacy/jueying-v1/agent-harness/apps/web-portal/src/index.ts:631-677 | In every sequential run, the n-th counted failure, from the tenth on, comes at least 930000 + 900000 (n - 10) ms after the fifth. |
| `LoginLimiter.BoundIsTight` | jueying-mainline/legacy/jueying-v1/agent-harness/apps/web-portal/src/index.ts:631-677 | For every such n some run reaches this bound exactly. |
| `LoginLimiter.Limiter.CleanupLoginAttempts` | jueying-mainline/legacy/jueying-v1/agent-harness/apps/web-portal/src/index.ts:621-629 | The loop removes exactly the stale entries. |
| `LoginLimiter.Limiter.CheckLoginRateLimit` | jueying-mainline/legacy/jueying-v1/agent-harness/apps/web-portal/src/index.ts:631-648 | The answer is that of the entries before the call, whether or not the call cleans up. |
| `LoginLimiter.Limiter.RecordLoginFailure` | jueying-mainline/legacy/jueying-v1/agent-harness/apps/web-portal/src/index.ts:650-677 | Recording takes the step of the specification; a lockout it returns is what a check at once would answer. |
| `LoginLimiter.Limiter.ClearLoginAttempts` | jueying-mainline/legacy/jueying-v1/agent-harness/apps/web-portal/src/index.ts:679-681 | A success forgets the identifier. |
| `EnvFile.SaveThenLoad` | jueying-mainline/legacy/jueying-v1/agent-harness/apps/web-portal/src/index.ts:1255-1291 | Saving and loading gives back the same map if and only if every key and every value is good; good is a condition on characters that can be checked before saving. |
| `EnvFile.PlainSettingsSurvive` | jueying-mainline/legacy/jueying-v1/agent-harness/apps/web-portal/src/index.ts:1255-1291 | Keys without white space, = and leading #, and values without backslash or control character whose only white space is the plain space, always survive. |
| `EnvFile.QuotedComesBack` | jueying-mainline/legacy/jueying-v1/agent-harness/apps/web-portal/src/index.ts:1264-1269 | A quoted value comes back unchanged exactly when it has no control character and each backslash stands right before a single quote; it never comes back shorter. |
| `EnvFile.ValueComesBack` | jueying-mainline/legacy/jueying-v1/agent-harness/apps/web-portal/src/index.ts:1280-1288 | The value of one setting comes back exactly when it is good, quoted or not. |
| `EnvFile.BackslashesDouble` | jueying-mainline/legacy/jueying-v1/agent-harness/apps/web-portal/src/index.ts:1266-1284 | Without single quotes, a quoted value comes back with every backslash doubled. |
| `EnvFile.BackslashDoesNotSurvive` | jueying-mainline/legacy/jueying-v1/agent-harness/apps/web-portal/src/index.ts:1266-1284 | A concrete setting that does not survive. |
| `EnvFile.LoadEnvFile` | jueying-mainline/legacy/jueying-v1/agent-harness/apps/web-portal/src/index.ts:1255-1274 | The loop fills the map as the specification says, and a missing file gives the empty map. |
| `EnvFile.LoadedKeysAreGood` | jueying-mainline/legacy/jueying-v1/agent-harness/apps/web-portal/src/index.ts:1260-1270 | Whatever the file holds, only good keys are loaded. |
| `EnvFile.LineSetsSomething` | jueying-mainline/legacy/jueying-v1/agent-harness/apps/web-portal/src/index.ts:1260-1263 | A line sets something exactly when, trimmed, it holds an equals sign, does not start with one and is no comment. |
| `EnvFile.LineParts` | jueying-mainline/legacy/jueying-v1/agent-harness/apps/web-portal/src/index.ts:1262-1270 | The name stands before the first equals sign and the value behind it, both trimmed. |
| `EnvFile.LaterLineWins` | jueying-mainline/legacy/jueying-v1/agent-harness/apps/web-portal/src/index.ts:1259-1271 | Of lines that set the same name the last one counts, and a line that sets nothing changes nothing. |
| `EnvFile.QuotedLineLoads` | jueying-mainline/legacy/jueying-v1/agent-harness/apps/web-portal/src/index.ts:1266-1268 | A value between equal quotes of either kind loads without them, and between different ones with all of its characters. |
| `EnvFile.TrimmedAway` | jueying-mainline/legacy/jueying-v1/agent-harness/apps/web-portal/src/index.ts:1260 | What is trimmed: the white space and line terminators of the language, character by character. |
| `EnvFile.QuotedWhen` | jueying-mainline/legacy/jueying-v1/agent-harness/apps/web-portal/src/index.ts:1279-1288 | Exactly when a value is printed as a string literal, condition by condition. |
| `EnvFile.StringifyReadsBack` | jueying-mainline/legacy/jueying-v1/agent-harness/apps/web-portal/src/index.ts:1283-1286 | The literal printed for a value reads back to the value by section 7 of RFC 8259. |

## Left out

- Servers, routing, fetch, Postgres, Redis and chat services: they appear only as outcomes of steps or as an atomic table.
- The wording of issues, and the JSON text of payloads: payloads keep the fields that the properties are about.
- The order of issues in a list and how often an equal one is listed: the contracts say which issues are listed.
- Bridge.BuildPreview: keeps which gaps, evidence and intents get a payload, not the texts of prompts and facts, and not which complaints are listed.
- Bridge.CheckGaps: states when there is a complaint, not which complaints are listed.
- Bridge.CheckAllEvidence: states when there is a complaint, not which complaints are listed.
- Bridge.CheckIntents: states when there is a complaint, not which complaints are listed.
- Bridge.CheckTasks: states when there is a complaint, not which complaints are listed.
- Bridge.CheckDecisions: states when there is a complaint, not which complaints are listed.
- Fixtures.FixtureReferences: states when there is a complaint, not which complaints are listed.
- Fixtures.ValidateFixtureState: states when there is a complaint, not which complaints are listed.
- Agreement.BuildReport: leaves out the sales model, whose findings join the issues and whose evaluation can end the report with an error, and the view models.
- Executor.RunStage: takes `max_repairs` as a finite number; strings that JavaScript turns into no number or into infinity are not modelled.
- Executor.AutoExecute: how a stage without an id is named after the clock, and the texts passed on to the repair executor, are not modelled.
- EndToEnd.NoTaskBeforeItsDependencies: assumes that the workflow service hands the projected chain to the gateway unchanged with all stages pending; that service is not part of this model.
- Migrations.CommitsArePrefixOfPending: takes the files in the order in which they are listed, and does not model the order by UTF-16 code units that lists them; files added or removed between runs are not modelled either.
- Migrations.MigrationTable.ApplyPending: the script of a file is an outcome, its own effect on the database is not modelled.
- DeviceStore.DeviceService.RegisterDevice: the lists are values held in a map, so the sharing of a list between the map and a caller is not captured; the mirror table in the database is not modelled (on a transfer it keeps the old first time, unlike the store).
- DeviceStore.DeviceService.UnregisterDevice: the deletion from the mirror table is not modelled; it is sent without waiting for its end.
- Notification history of the mobile service: reading it sorts the stored list in place, so what is kept depends on reads.
- AuditBuffer.FailedFlushKeepsOrder: nothing is claimed about order when flushes overlap, because requeued batches can change places.
- AuditBuffer.BuildInsert: the database's limit on the number of parameters is not modelled, so a batch of thousands of requeued entries counts as one insert.
- AuditBuffer.NoRowIsLost: takes ids to be fresh, as random UUIDs are, and no other writer of the table.
- LoginLimiter.FailuresTakeTime: is about logins of one identifier one after the other; logins that are checked concurrently can be counted without waiting.
- EnvFile.SaveThenLoad: lone surrogates, the property name `__proto__` and the reordering of integer-like property names by JavaScript are not modelled.
- The unchecked projection: it keeps the input order, so no ordering theorem applies to it.
- The per-record validators of management, sales and context records: independent one-line checks.
- User interface, cryptography, password hashing, signatures, language models and file parsing.
