# Agent orchestration core: verified models

Dafny models of the parts of the agent orchestration service whose correctness rests on an algorithm
or a protocol, with proofs of what those parts promise over every input, every run and every schedule.

| files | what they model |
|---|---|
| `FlowGraph`, `GraphCompiler`, `CompilerVerdict`, `LoopNaming` | compiling a published flow graph into an execution plan, what each of its checks refuses, and when its loop check is exact |
| `FlowRuntime`, `FlowStep`, `FlowWorkflow`, `FlowHistory`, `FlowActivities` | the in-process engine, what one node step does, the durable workflow, its replayed history and the database writes of its activities |
| `FlowBounds`, `FlowTightness`, `FlowDurable`, `FlowTurn`, `FlowEquivalence`, `FlowRetries` | step bounds of both engines and their tightness, the durable engine from its steps to the stored row, whole turns from prepare to finalize, the equivalence of the engines, and when dead attempts and the graph-state cache cannot be seen |
| `PlanCache` | resolving plans through the Redis cache |
| `SeedSweep`, `SeedScript`, `SeedExport`, `SqlText` | the demo-seed exporter: the sweep, the SQL script, both together, and the text |
| `PaymentsLedger`, `PaymentsMoves` | the payments API of the examples: what its books keep, and what each request moves |
| `LatencyHistogram`, `EventStream` | the measurements and the event-stream reader of the stress driver |
| `AppCache`, `StartOnce` | the MCP application cache and the double-checked start of lifespans and of the Temporal client |
| `PdfWriter` | the one-page PDF writer of the examples |

Loops and in-place updates of the source are methods and classes here, each proved equal to a function
on values; the main results are lemmas about those functions. Concurrency (the event loop, Temporal
workers, Redis) appears as transition systems whose steps interleave freely.

## What the proofs found

- The compiler's loop check accepts only graphs in which every cycle has a LOOP edge, but it also
  refuses some of those, depending on how nodes are named, although a test promises independence of
  node identifiers. It is exact under every naming if and only if such graphs have no walk without
  repetitions from the start that a NORMAL edge closes (`LoopNaming.ExactUnderEveryNamingIff`). Which
  names there are does not matter: with as many names as nodes, whatever they are, giving them out
  differently decides (`LoopNaming.RefusedAmongIff`).
- LOOP edges are counted when they are evaluated, not when they are followed.
- The durable engine does what the in-process one does for node executors that do not read the
  previous node's raw output or the fallback entries of the metadata, which the durable engine never
  stores; it loses them exactly when there are any (`FlowEquivalence.ContextLostExactly`), and an
  executor that reads them can make the engines disagree (`FlowEquivalence.EnginesCanDisagree`).
- MAX_STEPS_EXCEEDED is reached only after as many LOOP edges as the loop limit allows for one key, and at least one,
  and a run about to execute its terminal node can be cut there (`FlowTightness.LimitCanCutAtTerminal`).
- The seed script fails on a row that sets a column with two foreign keys to later tables, because
  its update assigns the column twice (`SeedScript.TwoLaterParentsAreRejected`). References within a
  table load when they lead to the row itself or to an earlier row.
- Four exported tables (`agent_delegation`, `agent_run_event`, `agent_run_artifact`, `agent_run_message`)
  have foreign keys to `agent_run`, which is excluded from the export. The first two carry the tenant, so
  one such row of the demo tenant is collected without its parent and makes the whole script fail on empty
  tables (`SeedExport.ExcludedParentIsRejected`).
- A node that died after saving its state is executed again on that state: the retry is invisible if
  and only if the node then gives an answer with the same effect (`FlowRetries.RetryInvisibleIff`), and
  one that adds to its memory adds twice. An execute_node that fails for good leaves its run without a
  finalization (`FlowHistory.FailedExecutionIsNeverFinalized`).
- The cache in front of the graph state shows a step the state before last when the delete after a
  save failed (`FlowRetries.NextLoadIsCurrentIff`). An attempt that dies between save and delete does no
  harm by that: a retry that still finds the older state cached makes the same step
  (`FlowRetries.RetryThroughCacheIff`).
- A payout is paid whatever the balance (`PaymentsMoves.PayoutExact`); the balance then reads zero available.
- A histogram percentile is within 5% of the exact one exactly when the exact sample lies in the range
  of the buckets (`LatencyHistogram.Latencies.Percentile`).
- An MCP application served from the cache can be stale: its key leaves out prompt titles and slugs,
  tool descriptions and the tenant (`AppCache.CachedIsFreshIff`).
- A lifespan that fails to start keeps the lock until its waiting caller is cancelled
  (`StartOnce.FailedStartBlocksForEver`), and cancelling a caller that waits for a lifespan lets a second
  one start for the same application (`StartOnce.CancelledStartsTwice`). A connection is lost with its
  cancelled caller, so the Temporal client is never connected twice (`StartOnce.OneConnection`).
- The PDF writer's lines read back unchanged exactly when none contains a carriage return.

## Model

| member | source | states |
|---|---|---|
| `LoopValidation.LoopValidator.Dfs` | src/domain/execution/services/graph_runtime/graph_compiler.py:137-161 | the recursive search with its visiting and visited sets raises exactly when the functional search refuses, and otherwise restores its stack and extends its finishing order as that search does |
| `LoopValidation.AcceptedOrder` | src/domain/execution/services/graph_runtime/graph_compiler.py:137-161 | an accepted search lists every node reachable from the start once, in a postorder of the NORMAL edges closed under all edges |
| `LoopValidation.AcceptedIsNormalAcyclic` | src/domain/execution/services/graph_runtime/graph_compiler.py:137-161 | when every vertex is reachable, acceptance means that no cycle avoids LOOP edges |
| `LoopValidation.RefusedHasUnmarkedCycle` | src/domain/execution/services/graph_runtime/graph_compiler.py:146-158 | a refusal exhibits a path from the start that a NORMAL edge closes into a cycle |
| `LoopValidation.ExactWhenLoopsReturn` | src/domain/execution/services/graph_runtime/graph_compiler.py:137-161 | a sufficient condition on single edges: when LOOP edges return to dominators of their sources, the check accepts in every order if and only if every cycle goes through a LOOP edge |
| `GraphCompiler.Sort` | src/domain/execution/services/graph_runtime/graph_compiler.py:61-70 | the edges in order of source, target and condition, as a permutation of the given ones |
| `GraphCompiler.ReachabilitySearch.Dfs` | src/domain/execution/services/graph_runtime/graph_compiler.py:109-135 | the search only adds reachable nodes and leaves every added node's successors visited |
| `GraphCompiler.ClosedIsReachable` | src/domain/execution/services/graph_runtime/graph_compiler.py:109-135 | a visited set closed under edges contains every node with a path from the start |
| `GraphCompiler.Compile` | src/domain/execution/services/graph_runtime/graph_compiler.py:23-107 | the plan or the first failing check in the source's order, decided by path reachability rather than by search; every plan returned is sound |
| `GraphCompiler.CompiledIsSound` | src/domain/execution/services/graph_runtime/graph_compiler.py:23-107 | a compiled plan's nodes are exactly those reachable from its start, and a listing of them exists along which NORMAL edges only lead backwards |
| `GraphCompiler.CompiledIsNormalAcyclic` | src/domain/execution/services/graph_runtime/graph_compiler.py:137-161 | no compiled plan whose edges all start at its nodes has a cycle without a LOOP edge |
| `CompilerVerdict.OutcomeExact` | src/domain/execution/services/graph_runtime/graph_compiler.py:23-107 | each error has its exact condition on the snapshot, in the order of the checks and whatever the order of its edges; a compiled plan has the snapshot's start, nodes and hash and exactly its edges, compiled and in order |
| `LoopNaming.FollowedIsRefused` | src/domain/execution/services/graph_runtime/graph_compiler.py:146-158 | edges in an order that leads along a walk to the NORMAL edge that closes it are refused |
| `LoopNaming.RefusedUnderSomeOrderIff` | src/domain/execution/services/graph_runtime/graph_compiler.py:137-161 | a graph is refused under some order of its edges if and only if a walk without repetitions from the start is closed by a NORMAL edge |
| `LoopNaming.RenamedChecked` | src/domain/execution/services/graph_runtime/graph_compiler.py:23-107 | the checks before the loop check do not depend on how nodes are named |
| `LoopNaming.RefusedUnderSomeNamingIff` | src/domain/execution/services/graph_runtime/graph_compiler.py:61-70 | since names decide the order of edges, a snapshot that passes the other checks is refused under some naming of its nodes if and only if a walk without repetitions from the start is closed by a NORMAL edge |
| `LoopNaming.ExactUnderEveryNamingIff` | src/domain/execution/services/graph_runtime/graph_compiler.py:137-161 | the compiler decides by whether every cycle goes through a LOOP edge, under every naming, if and only if a graph without other cycles has no such walk |
| `LoopNaming.RefusedAmongIff` | src/domain/execution/services/graph_runtime/graph_compiler.py:61-70 | the same for any given distinct non-empty names, as many as the snapshot has identifiers: some way of giving them out is refused if and only if there is such a walk |
| `LoopNaming.ExactAmongIff` | src/domain/execution/services/graph_runtime/graph_compiler.py:137-161 | the compiler is exact under every way of giving out the names if and only if a graph without other cycles has no such walk |
| `LoopNaming.AcceptanceDependsOnNames` | tests/unit/runtime/test_graph_compiler_loop_validation.py:63-70 | graphs over any three names that compile as they are and are refused when the same three names are exchanged among the nodes, without a cycle of NORMAL edges either way |
| `FlowWorkflow.FlowRunWorkflow.Run` | src/adapters/temporal/workflow.py:91-144 | over any recorded results the loop's step index, current node, counters and outcome are those of the replay function, and it returns exactly the replay's ending |
| `FlowWorkflow.FlowRunWorkflow.Tally` | src/adapters/temporal/workflow.py:110-120 | the counting loop stops at the first counter over the limit with the counters counted so far |
| `FlowWorkflow.RunningCounters` | src/adapters/temporal/workflow.py:91-140 | while a run goes on, the step index is the number of completed executions, every counter is the number of reports of its key, and none is over the limit |
| `FlowWorkflow.CountIsExact` | src/adapters/temporal/workflow.py:110-113 | counting without exceeding adds each key's multiplicity |
| `FlowWorkflow.CountExceedsIff` | src/adapters/temporal/workflow.py:110-120 | counting exceeds if and only if the total of some counted key passes the limit, whatever the counters were |
| `FlowWorkflow.LoopFailureIff` | src/adapters/temporal/workflow.py:110-120 | the last step fails the run for looping if and only if some key has been reported more often than the limit in the whole run |
| `FlowWorkflow.EndingReported` | src/adapters/temporal/workflow.py:110-144 | for any recorded results: when the walk goes on and to which node, and when it ends, with which outcome, reason, node and node run, by the last result and the reports of all |
| `FlowWorkflow.ReplayStops` | src/adapters/temporal/workflow.py:114-144 | results recorded after an ending change nothing |
| `FlowHistory.CrashesAreInvisible` | src/adapters/temporal/workflow.py:53-58 | whatever crashes happen and wherever, the scheduled activities are those of one uninterrupted replay of the results, and memory is the state that replay rebuilds |
| `FlowHistory.SameResultsSameRun` | src/adapters/temporal/workflow.py:87-144 | two executions with the same results have the same requests and the same state, whatever their crashes |
| `FlowHistory.RequestsExtend` | src/adapters/temporal/workflow.py:87-144 | the requests of a prefix of a history are a prefix of its requests |
| `FlowHistory.WalkingIsReplay` | src/adapters/temporal/workflow.py:70-108 | a running execution is in the state of the workflow machine after the results recorded since prepare, started at the payload's node or else the plan's |
| `FlowHistory.RequestShape` | src/adapters/temporal/workflow.py:70-144 | every history's requests are one prepare, executions numbered from zero, and then at most one finalize; an execution broken by a failed activity stops somewhere in this |
| `FlowHistory.ReturnedFinalizedOnce` | src/adapters/temporal/workflow.py:146-180 | an execution that returned finalized exactly once, as its last activity, with the outcome and step count it returns |
| `FlowHistory.FailedExecutionIsNeverFinalized` | src/adapters/temporal/workflow.py:91-107 | after an execute_node that failed for good the execution is broken and asks for no finalization, whatever is recorded later |
| `FlowHistory.ExecutionsRebuild` | src/adapters/temporal/workflow.py:87-144 | the history of a prepare and any step results rebuilds to the walk those results replay to |
| `FlowHistory.RequestsFollowResults` | src/adapters/temporal/workflow.py:87-140 | every execution is asked for at the payload's start node or else the plan's, and then where the result before it leads |
| `FlowHistory.FailedPrepareIsFinalized` | src/adapters/temporal/workflow.py:74-85 | a run whose prepare failed for good is finalized as failed with STRUCTURAL_ERROR and executes nothing |
| `FlowActivities.ReasonRoundTrip` | src/adapters/temporal/activities.py:480-486 | every failure reason written as text is read back as itself |
| `FlowActivities.ParseReasonIff` | src/adapters/temporal/activities.py:480-486 | each reason is read from its own text only, except that unknown and missing texts are read as STRUCTURAL_ERROR |
| `FlowActivities.WritesForget` | src/adapters/temporal/activities.py:89-113 | two databases that differ only where a list of writes goes become equal |
| `FlowActivities.DyingThenRedoing` | src/adapters/temporal/activities.py:247-288 | dying anywhere in a list of writes and then making all of them is, apart from events, making them once |
| `FlowActivities.PrepareRetriesLeaveNoTrace` | src/adapters/temporal/activities.py:89-113 | any number of prepare attempts that die anywhere, then one that succeeds, leave the database of one clean attempt |
| `FlowActivities.PreparedExactly` | src/adapters/temporal/activities.py:89-113 | however often prepare dies, an existing graph state is kept and otherwise the seed is stored, the run is RUNNING, and nothing else has changed |
| `FlowActivities.FinalizedExactly` | src/adapters/temporal/activities.py:247-288 | however often finalize dies, a completed or waiting run has the output recorded under its last node run in its row and, with that node run, in its interaction; other runs keep both; status, error and released key are those of the outcome, and nothing else has changed |
| `FlowActivities.FinalizeRetriesOnlyRepeatEvents` | src/adapters/temporal/activities.py:247-288 | the same for finalize on the run row, graph state, interaction result and released key; only its event is repeated, at most once per dead attempt, and waiting runs append none |
| `FlowActivities.FinalizeAppendsOneToFive` | src/adapters/temporal/workflow.py:155-174 | with five attempts a successful COMPLETED or FAILED finalize appends one to five copies of its event |
| `FlowRuntime.EvaluateEdges` | src/domain/execution/services/graph_runtime/node_step_runner.py:433-466 | the loop over outgoing edges gives the matching edges, reported keys and counters of the recursive definition, or raises where it does |
| `FlowRuntime.EvaluationExact` | src/domain/execution/services/graph_runtime/node_step_runner.py:433-466 | evaluation raises if and only if a condition cannot be evaluated or counting all LOOP edges passes the limit; otherwise it reports every LOOP edge and matches exactly the edges that hold |
| `FlowRuntime.Traverse` | src/domain/execution/services/graph_runtime/executor.py:146-201 | the bounded loop ends as the recursive walk does: same ending, steps, node, output, path and LOOP hops |
| `FlowRuntime.Execute` | src/domain/execution/services/graph_runtime/executor.py:139-201 | the engine's loop with the step limit computed from the plan is the in-process run |
| `FlowStep.HoldingIff` | src/domain/execution/services/graph_runtime/node_step_runner.py:443-466 | the list of matching edges is empty, or longer than one, if and only if no edge of the plan out of the node holds, or two do, by position |
| `FlowStep.OverloopsIff` | src/domain/execution/services/graph_runtime/node_step_runner.py:448-453 | counting fails if and only if for some target the counter and the number of LOOP edges to it together pass the limit |
| `FlowStep.StepExact` | src/domain/execution/services/graph_runtime/node_step_runner.py:83-307 | from the node's answer and the plan's edges alone: when a step fails with each reason, waits, ends or advances and along which edge; that it saves the answer's state, or else the context's, with the answer's data entered for this node, and the answer's memory or else the old one; what it counts and reports; and that the next node is given exactly what was saved |
| `FlowBounds.StepFollowsPlan` | src/domain/execution/services/graph_runtime/node_step_runner.py:83-307 | a node step either follows an edge of the plan out of its node or stops, never with MAX_STEPS_EXCEEDED |
| `FlowBounds.SoundRunsAreBounded` | src/domain/execution/services/graph_runtime/executor.py:139-201 | on a sound plan, any step runner that follows edges takes at most B(T+1)+1 steps and at most N(T+1), for T LOOP hops and N nodes of which B have outgoing edges |
| `FlowBounds.StepLimitCovers` | src/domain/execution/services/graph_runtime/executor.py:139-145 | the step limit exceeds the allowance of any number of LOOP hops below the loop limit, and of none even when the limit is zero |
| `FlowBounds.RunsAreBounded` | src/domain/execution/services/graph_runtime/executor.py:139-201 | every run of a compiled plan keeps both bounds, and ends in MAX_STEPS_EXCEEDED only after at least loop_limit LOOP hops, and at least one |
| `FlowTightness.RetryCompiles` | src/domain/execution/services/graph_runtime/graph_compiler.py:23-107 | the retry loops that show tightness are compiled plans, for any names in the right order |
| `FlowTightness.LimitCanCutAtTerminal` | src/domain/execution/services/graph_runtime/executor.py:139-145 | for every loop limit from 3 on, a compiled plan and a run of exactly that many LOOP hops that fails with MAX_STEPS_EXCEEDED before its terminal node |
| `FlowDurable.DurableRunsAreBounded` | src/adapters/temporal/workflow.py:91-144 | the same bounds and the same condition for MAX_STEPS_EXCEEDED for every durable run of a compiled plan |
| `FlowDurable.LastStepDecides` | src/adapters/temporal/activities.py:209-244 | a terminal step always completes the run and a step that needs input always leaves it waiting, never a loop failure; only failed or advancing steps can fail it |
| `FlowDurable.StepsCompleteRun` | src/adapters/temporal/workflow.py:91-144 | the durable engine's walk and database are those of the steps it executes, each run on the node the replay had reached and on what the steps before it had recorded |
| `FlowDurable.CompleteRunDecided` | src/adapters/temporal/workflow.py:110-144 | the last executed step decides the outcome, and a failure's reason is a LOOP key reported too often in the whole run, else the reason that step gave, else MAX_STEPS_EXCEEDED |
| `FlowDurable.HistoryReturns` | src/adapters/temporal/workflow.py:70-180 | the history of prepare, the executed steps and finalize rebuilds to a returned workflow with the walk's step count and ending |
| `FlowDurable.StoredRow` | src/adapters/temporal/activities.py:247-324 | however often finalize dies, the row of a complete run holds the status its last step decides, a failure's reason and, if it completed or waits, that step's output, as does the interaction |
| `FlowDurable.StoredAsDecided` | src/adapters/temporal/workflow.py:110-180 | end to end: the workflow returns with the ending of the durable run, and status, error and output of the stored row and the interaction are those its last executed step and the reports of all steps decide |
| `FlowTurn.NodesSeeEarlierOutputs` | src/domain/execution/services/graph_runtime/node_step_runner.py:192-218 | at every point of a turn the stored state holds what each node last answered, in this turn or else in an earlier one, for executors that leave the outputs of other nodes in the state they give |
| `FlowTurn.TurnStored` | src/adapters/temporal/activities.py:89-288 | a turn, whichever activities die: the first node is executed on the graph state of an earlier turn or else on the seed, the workflow returns the ending, and a turn that completes or waits stores what its last node answered |
| `FlowEquivalence.EvaluationsAgree` | src/domain/execution/services/graph_runtime/node_step_runner.py:433-466 | counting LOOP edges across steps while evaluating, and counting within the step with the workflow counting across steps, agree on matches, reports and failures |
| `FlowEquivalence.StepsMirror` | src/adapters/temporal/activities.py:138-244 | a step on the in-process context and counters and one on the reloaded context with empty counters mirror each other |
| `FlowEquivalence.EnginesMirrorFrom` | src/adapters/temporal/workflow.py:91-144 | from any corresponding states on, both engines execute the same nodes and end alike |
| `FlowEquivalence.DurableMirrorsInProcess` | src/adapters/temporal/workflow.py:44-51 | for executors that read only what both engines show, the durable run has the in-process run's path, steps, outcome and node, and its finalize makes exactly the in-process engine's terminal writes |
| `FlowEquivalence.ContextLostExactly` | src/adapters/temporal/activities.py:138-208 | a step's next node sees the same context in both engines if and only if the step had no output data and the next node is not a human fallback |
| `FlowEquivalence.EnginesCanDisagree` | src/adapters/temporal/activities.py:138-208 | a plan and an executor reading the previous output for which the in-process run completes and the durable one fails |
| `FlowRetries.RetryInvisibleIff` | src/adapters/temporal/activities.py:138-207 | a retry of an execute_node that died after saving has the same effect if and only if the node, executed on what was saved, gives an answer with the same effect |
| `FlowRetries.AppendingIsVisible` | src/domain/execution/services/graph_runtime/node_step_runner.py:192-218 | a node that adds to the memory it is given adds twice when it is retried |
| `FlowRetries.RetryThroughCacheIff` | src/domain/execution/repositories/execution_repository.py:2044-2135 | behind the cache that retry has the same effect if and only if it still finds the state cached before the save, or the node gives such an answer on what was saved |
| `FlowRetries.TriesAreInvisible` | src/adapters/temporal/workflow.py:91-108 | when the steps that had dead attempts are repeatable and the attempts that do not die delete the cached entry (or nothing is cached), a run with dead attempts anywhere, each dying before its save, between save and delete, or after, has the path, ending and database of one without attempts or cache |
| `FlowRetries.TriedMirrorsInProcess` | src/adapters/temporal/workflow.py:44-51 | the equivalence with the in-process engine, path included, under dead attempts and behind the cache, for executors that settle |
| `FlowRetries.NextLoadIsCurrentIff` | src/domain/execution/repositories/execution_repository.py:2044-2076 | the load after a step finds what the step left if and only if nothing was cached, the entry was deleted or expired, or the step saved nothing new |
| `PlanCache.EveryScheduleIsFreshIff` | src/adapters/temporal/activities.py:436-463 | given that plans survive serialization, all schedules of resolutions, expiries and failing calls give every run its freshly compiled plan if and only if runs with one hash compile to one plan |
| `PlanCache.RunStaysFresh` | src/adapters/cache/redis_adapter.py:33-47 | from any store of dumped plans, no schedule of steps and absorbed or raised failures leads to a stale plan, a wrong refusal or a wrong not-found |
| `PlanCache.StoreKept` | src/adapters/cache/redis_adapter.py:71-78 | every step leaves under each hash only what was dumped from the plan of a run with that hash |
| `PlanCache.StaleSchedule` | src/adapters/temporal/activities.py:453-463 | two runs sharing a hash but not a plan have a schedule in which the second is served the first one's plan |
| `SeedSweep.BelongsGrows` | resources/scripts/seeds/demo/export_sql.py:120-169 | a row that belongs under the index of some rows belongs under the index of more rows |
| `SeedSweep.SelectGrows` | resources/scripts/seeds/demo/export_sql.py:120-169 | a selection never shrinks as rows are collected |
| `SeedSweep.SelectStaysInside` | resources/scripts/seeds/demo/export_sql.py:120-169 | what is selected from within a closed set lies in it |
| `SeedSweep.ParentCollectedIff` | resources/scripts/seeds/demo/export_sql.py:120-187 | once the sweep has settled, a row that a collected row refers to is collected if and only if it is not another tenant's |
| `SeedSweep.Exporter.RecordCollected` | resources/scripts/seeds/demo/export_sql.py:172-187 | the index gains exactly the values the rows contribute, as own columns and as references |
| `SeedSweep.Exporter.Keep` | resources/scripts/seeds/demo/export_sql.py:265-275 | replacing a table's rows by a larger selection keeps the index that of all rows |
| `SeedSweep.Exporter.Visit` | resources/scripts/seeds/demo/export_sql.py:260-275 | one table of a pass: comparing row counts detects every change, and an unchanged table is exactly its current selection |
| `SeedSweep.ChildCollectedIff` | resources/scripts/seeds/demo/export_sql.py:140-148 | once the sweep has settled, a row that refers to a collected row outside the catalogues is collected if and only if it is not another tenant's |
| `SeedSweep.CollectedIff` | resources/scripts/seeds/demo/export_sql.py:120-169 | once the sweep has settled, a row is collected if and only if it is in a catalogue, carries the tenant, or carries none and refers to a collected row outside the catalogues or is referred to by primary key by a collected row |
| `SeedSweep.ReachedIsClosed` | resources/scripts/seeds/demo/export_sql.py:120-187 | the rows at the end of a chain of relatives from a catalogue row or a row of the tenant are closed under selection |
| `SeedSweep.ReachedIsLeast` | resources/scripts/seeds/demo/export_sql.py:120-187 | they lie in every closed set |
| `SeedSweep.Exporter.Sweep` | resources/scripts/seeds/demo/export_sql.py:253-276 | the collected rows are at ends of such chains and lie in every closed set; when the sweep stops by adding nothing they are exactly the ends of such chains, the least closed set |
| `SeedScript.BuildScript` | resources/scripts/seeds/demo/export_sql.py:278-303 | the nested loops write all inserts in table order and then the gathered updates |
| `SeedScript.DeferredColumns` | resources/scripts/seeds/demo/export_sql.py:196-210 | a column is deferred if and only if it is nullable and has a foreign key to a later table |
| `SeedScript.ScriptLoadsExactly` | resources/scripts/seeds/demo/export_sql.py:213-244 | on empty tables with foreign keys checked after every statement the script succeeds if and only if it is loadable, and then leaves exactly the exported rows |
| `SeedScript.ScriptIsIdempotent` | resources/scripts/seeds/demo/export_sql.py:224-244 | a loadable script run on what it left behind changes nothing |
| `SeedScript.OrderedExportLoads` | resources/scripts/seeds/demo/export_sql.py:278-303 | when set references lead to exported rows of other tables, later ones from nullable columns, and no column is deferred twice, the exporter's script loads exactly its rows, twice over |
| `SeedScript.LoadableIff` | resources/scripts/seeds/demo/export_sql.py:213-244 | a file is loadable if and only if no row's update assigns a column twice and every reference leads to a row of the file, one already written unless its column is deferred |
| `SeedScript.PresentDistinctIff` | resources/scripts/seeds/demo/export_sql.py:196-221 | a row's update assigns no column twice if and only if no column it sets has two foreign keys to later tables |
| `SeedScript.TwoLaterParentsAreRejected` | resources/scripts/seeds/demo/export_sql.py:196-221 | any row that sets a column with two foreign keys to later tables makes the script fail |
| `SeedScript.OrderedReferencesCanFail` | resources/scripts/seeds/demo/export_sql.py:196-221 | a family of three-row exports with ordered references whose scripts are rejected for a column deferred twice |
| `SeedExport.OwnParentIff` | resources/scripts/seeds/demo/export_sql.py:120-187 | in a settled sweep a reference has a parent that is not another tenant's if and only if it has a collected one |
| `SeedExport.ReferenceOkIff` | resources/scripts/seeds/demo/export_sql.py:278-303 | a reference of a row of a settled sweep loads if and only if it has a parent that is not another tenant's and is set by an update, or after the parent's table, or after the parent in its own table |
| `SeedExport.SweptExportLoadsIff` | resources/scripts/seeds/demo/export_sql.py:253-303 | however tables and rows are ordered and whichever tables are excluded, the script of a settled sweep loads exactly the collected rows if every reference loads so and no row sets a column with two foreign keys to later tables, and is rejected otherwise |
| `SeedExport.ArrangedExportLoadsIff` | resources/scripts/seeds/demo/export_sql.py:253-303 | without references within a table and with references to later tables from nullable columns only, each column deferred once, only the parents decide |
| `SeedExport.ExcludedParentIsRejected` | resources/scripts/seeds/demo/export_sql.py:49-72 | one row of the tenant, or one collected row, that refers to an excluded table makes the script fail |
| `SqlText.ScanReadsQuoted` | resources/scripts/seeds/demo/export_sql.py:83-95 | a quoted literal or identifier is read back whole, whatever its text, and nothing after it is touched |
| `SqlText.ValuesReadBack` | resources/scripts/seeds/demo/export_sql.py:83-111 | every list of NULL, boolean, number, text and cast cells printed as a VALUES row is read back exactly |
| `Payments.PaymentsLedger.CreatePayment` | examples/api/payments_api.py:342-367 | a known key answers with its payment; otherwise a new payment, declined, captured or authorized, is entered under its key |
| `Payments.PaymentsLedger.Capture` | examples/api/payments_api.py:398-414 | captures an authorized payment up to its amount, or answers the matching error with the books unchanged |
| `Payments.PaymentsLedger.RefundPayment` | examples/api/payments_api.py:446-480 | refunds up to what is left of the captured amount and records the refund, or answers the matching error with the books unchanged |
| `Payments.PaymentsLedger.PayOut` | examples/api/payments_api.py:594-604 | records the payout |
| `Payments.PaymentsLedger.Balance` | examples/api/payments_api.py:635-648 | the net less the payouts but not below zero, and the payouts, of one currency |
| `Payments.PaymentsApi.Arrive` | examples/api/payments_api.py:185-197 | a request up to its await: counted, and failed at once or suspended, as one event of the system |
| `Payments.PaymentsApi.Resume` | examples/api/payments_api.py:338-648 | a suspended request from its await to its answer, whichever handler it is for, as one event of the system |
| `Payments.PaymentsApi.FailNextCalls` | examples/api/payments_api.py:689-691 | arming failures is one event of the system |
| `Payments.PaymentsApi.Reset` | examples/api/payments_api.py:693-694 | clearing the ledger is one event of the system |
| `Payments.HandleKeeps` | examples/api/payments_api.py:342-480 | every handler's atomic half keeps amounts, statuses, refund sums and keys in order, and moves payments only forward |
| `Payments.BalanceAddsUp` | examples/api/payments_api.py:635-648 | per currency the net is all captures less all recorded refunds, never negative, and available plus pending is the larger of net and payouts |
| `Payments.StepKeeps` | examples/api/payments_api.py:185-197 | arrivals, resumptions, failure switches and resets keep the whole system in order |
| `Payments.EveryRunKeepsTheBooks` | examples/api/payments_api.py:185-197 | under every interleaving of requests split at their await, refunded is at most captured is at most amount, status agrees, refunds add up and keys stand for one payment each |
| `Payments.RunsOnlyAdvance` | examples/api/payments_api.py:398-480 | between resets no payment disappears, no total shrinks, no status moves back and no key changes its payment |
| `Payments.KeysAreIdempotent` | examples/api/payments_api.py:342-367 | since the last reset two answers to keyed charges name the same payment if and only if their keys are equal, and at most one of them created it |
| `PaymentsMoves.ChargeExact` | examples/api/payments_api.py:342-367 | a known key is answered with its payment and moves nothing; otherwise one payment with the requested amount, currency and method is entered, declined exactly for cards from the threshold on, captured in full exactly when asked and not declined, and the captured total of its currency grows by exactly that |
| `PaymentsMoves.CaptureExact` | examples/api/payments_api.py:398-414 | each error by its exact condition; otherwise the requested amount, or all of it, is captured, the captured total of the currency grows by exactly that, and nothing else changes |
| `PaymentsMoves.RefundExact` | examples/api/payments_api.py:446-480 | each error by its exact condition; otherwise the requested amount, or the rest, is refunded and entered, the payment is refunded exactly when nothing is left, and only the refund total of the currency grows |
| `PaymentsMoves.PayoutExact` | examples/api/payments_api.py:594-604 | the payout is entered and only the paid-out total of its currency grows, whatever the balance |
| `PaymentsMoves.BalanceExact` | examples/api/payments_api.py:635-648 | pending is what has been paid out, available is what has been captured and neither refunded nor paid out, but not below zero |
| `PaymentsMoves.BooksAreAnswers` | examples/api/payments_api.py:338-648 | under every interleaving the captured, refunded and paid-out totals are the sums of what the answers since the last reset said |
| `PaymentsMoves.FailuresHitTheNext` | examples/api/payments_api.py:161-197 | after failures are armed exactly the next so many requests to arrive fail, whatever resumes in between, and move nothing; a timeout only delays them |
| `LatencyHistogram.BucketBounds` | resources/scripts/stress/stress_driver.py:88-101 | a sample lies between its bucket's lower edge and 1.05 times that edge if and only if it is in range |
| `LatencyHistogram.IndexMonotone` | resources/scripts/stress/stress_driver.py:93-98 | larger samples never go into lower buckets |
| `LatencyHistogram.KthExists` | resources/scripts/stress/stress_driver.py:103-112 | every rank from one to the number of samples has its exact order statistic |
| `LatencyHistogram.ReachesExactBucket` | resources/scripts/stress/stress_driver.py:103-112 | the first bucket whose cumulative count reaches the target is the bucket of the exact order statistic |
| `LatencyHistogram.PercentilesMonotone` | resources/scripts/stress/stress_driver.py:103-112 | percentiles grow with the fraction |
| `LatencyHistogram.Latencies.Record` | resources/scripts/stress/stress_driver.py:88-98 | every bucket counts exactly its samples, and count, total, low and high are those of the samples |
| `LatencyHistogram.Latencies.FirstBucket` | resources/scripts/stress/stress_driver.py:106-112 | the cumulative loop stops at the first bucket that reaches the target, or runs out |
| `LatencyHistogram.Latencies.Percentile` | resources/scripts/stress/stress_driver.py:103-112 | zero without samples, the maximum beyond fraction one, and otherwise v with v <= x < 1.05 v for the exact ceil(fraction * count)-th smallest sample x if and only if x is in range |
| `EventStream.ReadEvents` | resources/scripts/stress/stress_driver.py:556-578 | the line loop yields, for any lines, exactly the events of the stream read block by block, decoded |
| `EventStream.Partition` | resources/scripts/stress/stress_driver.py:573 | the text before the first colon and after it, or the whole line and nothing |
| `EventStream.StreamedConcat` | resources/scripts/stress/stress_driver.py:556-578 | parsing a stream appended to complete blocks is appending its parse |
| `EventStream.NothingUnterminated` | resources/scripts/stress/stress_driver.py:562-572 | a block without its blank line yields nothing |
| `EventStream.CommentsChangeNothing` | resources/scripts/stress/stress_driver.py:560-578 | a comment, or a line of any other field, inserted anywhere changes nothing |
| `EventStream.PrintedIsReadBack` | resources/scripts/stress/stress_driver.py:556-578 | events printed with at least one data line each, with or without a space after the colon, are read back with their names, or as messages, and their joined data |
| `EventStream.JoinedSplitsBack` | resources/scripts/stress/stress_driver.py:562-570 | joined data, cut at line feeds, are the data lines |
| `EventStream.TextIsReadBack` | resources/scripts/stress/stress_driver.py:556-578 | the same from the text, for names and data without line breaks |
| `RecentKeys.OrderedByLastUse` | src/adapters/mcp/tenant_mcp_gateway.py:360-369 | the order a move-to-end dictionary keeps is that of last uses |
| `RecentKeys.LatestExtends` | src/adapters/mcp/tenant_mcp_gateway.py:360-369 | one more use of a kept key moves it to the end; of another key, appends it and drops the oldest beyond the limit |
| `RecentKeys.KeptIffReusedSoon` | src/adapters/mcp/tenant_mcp_gateway.py:360-369 | a requested key is still cached if and only if fewer distinct keys than the limit were requested since |
| `AppCache.Cache.Get` | src/adapters/mcp/tenant_mcp_gateway.py:360-369 | after any requests the cache holds exactly the 64 most recently requested distinct keys in order of last use, a hit returns what is cached and a miss a fresh build, and the application was built from a requested spec with the same key |
| `AppCache.Cache.Insert` | src/adapters/mcp/tenant_mcp_gateway.py:366-368 | the eviction loop keeps the newest entries up to the limit with their applications |
| `AppCache.Cache.Clear` | src/adapters/mcp/tenant_mcp_gateway.py:372-373 | the cache is as if nothing had been requested |
| `AppCache.KeysEqualIff` | src/adapters/mcp/tenant_mcp_gateway.py:79-103 | when the digests tell the contents and schemas of two specs apart, these have one key if and only if they agree on server, stores, snapshot, deployment, secret, tool configurations, names and schemas, and prompt ids and contents |
| `AppCache.CachedIsFreshIff` | src/adapters/mcp/tenant_mcp_gateway.py:79-103 | for equal keys the cached application is a fresh build if and only if the specs agree on tenant, descriptions, absence of response schemas, slugs and titles |
| `AppCache.RetitledPromptIsStale` | src/adapters/mcp/tenant_mcp_gateway.py:79-103 | giving the first prompt another title keeps the key and changes the application |
| `StartOnce.StepKeeps` | src/adapters/mcp/tenant_mcp_gateway.py:386-405 | every step of every caller and task keeps one lock holder, recorded tasks ready, and each task recorded, awaited by the holder, a lifespan abandoned by a cancelled caller, or a lost connection |
| `StartOnce.EveryScheduleStartsOnce` | src/adapters/mcp/tenant_mcp_gateway.py:386-405 | for any callers and schedule at most one task per application is neither failed nor abandoned, no caller returns before its task is ready, and callers of one application see one task |
| `StartOnce.UncancelledStartsOnce` | src/adapters/mcp/tenant_mcp_gateway.py:386-405 | without cancellations at most one task per application does not fail |
| `StartOnce.OneConnection` | src/adapters/temporal/engine.py:43-49 | for any callers, cancellations and schedule at most one connection is not lost |
| `StartOnce.CancelledStartsTwice` | src/adapters/mcp/tenant_mcp_gateway.py:391-405 | for any two callers of one application, a schedule that cancels the first while it waits for its lifespan and ends with two ready lifespans |
| `StartOnce.EveryScheduleFinishes` | src/adapters/temporal/engine.py:43-49 | every schedule has at most six steps a caller, and one in which nothing but a cancellation can happen has finished every caller if and only if no failed start holds the lock |
| `StartOnce.FailedIsStuck` | src/adapters/mcp/tenant_mcp_gateway.py:394-405 | in any reachable state, a lifespan that failed and whose caller was not cancelled still has a waiting caller that holds the lock |
| `StartOnce.FailedStartBlocksForEver` | src/adapters/mcp/tenant_mcp_gateway.py:394-405 | after a failed startup, unless its waiting caller is cancelled, no schedule records a task or returns a caller for an application that is not running |
| `PdfStrings.EscapedHead` | examples/documents/_pdf.py:18 | the three replacements in their order escape each character on its own |
| `PdfStrings.EscapedReads` | examples/documents/_pdf.py:18-19 | an escaped line read as a literal string is the line with its ends of line normalized, and what follows is untouched |
| `PdfStrings.NormalizedIff` | examples/documents/_pdf.py:18-19 | a line is unchanged by that if and only if it has no carriage return |
| `Decimals.PaddedReads` | examples/documents/_pdf.py:42 | a zero-padded number reads back, and has exactly its width if and only if it fits |
| `PdfWriter.BuildPdf` | examples/documents/_pdf.py:15-46 | the file for the content of the lines, or the encoding error exactly when the content is not Latin-1 |
| `PdfWriter.Assemble` | examples/documents/_pdf.py:33-46 | the loops that append objects, keep offsets and print the table write the file of those objects |
| `PdfWriter.EncodedIff` | examples/documents/_pdf.py:21 | the content can be encoded if and only if every line can |
| `PdfWriter.EntryWidth` | examples/documents/_pdf.py:42 | a table entry has 20 bytes if and only if its offset is below 10^10, and then reads back |
| `PdfWriter.ObjectInPlace` | examples/documents/_pdf.py:34-37 | the offset kept for an object is where its heading stands |
| `PdfWriter.TableIsFound` | examples/documents/_pdf.py:39-46 | the number after startxref is the position of the table |
| `PdfWriter.EveryObjectIsFound` | examples/documents/_pdf.py:33-46 | for any objects whose offsets have ten digits, following startxref and the table leads to each object's heading and body |
| `PdfWriter.StreamIsFound` | examples/documents/_pdf.py:29 | /Length is the size of the stream between its keywords |
| `PdfWriter.OffsetsFit` | examples/documents/_pdf.py:23-36 | every offset of every written file has ten digits |
| `PdfWriter.WrittenIsReadBack` | examples/documents/_pdf.py:15-46 | for all lines, following the file's table to its page content and undoing the escapes gives the lines back normalized, unchanged if and only if none has a carriage return |

## Left out

- Node executors, the node registry, the condition evaluator and the fallback reason resolver are parameters of the flow models, arbitrary apart from the stated requirement on what executors read.
- FlowActivities.FinalizeAppendsOneToFive: models the branch without a terminal hook; with a hook the event is handed to it.
- Retry timing, backoff, activity timeouts and overlapping attempts: an activity is attempted until it succeeds, and dies between any two of its writes. The node-run rows and events of dead execute_node attempts are not modelled, and attempts at one step share one executor.
- The loop limit arrives as a number; reading it from the runtime configuration is not modelled.
- Cancellation of a workflow run, progress queries, and the runtime-configuration handle that the engines merge into the initial state.
- Event payload details, error detail texts, timestamps, traces, usage records and node-run rows other than a node run's output.
- Reading edge kinds and conditions from raw snapshot dictionaries; snapshots arrive parsed, with the compiled condition of an edge present or missing.
- JSON, SHA-256 and UUIDs: schemas and contents stand as texts, digests as functions, fresh identifiers as parameters required to be unused.
- PlanCache.EveryScheduleIsFreshIff: assumes that a plan survives dumping and loading, and that nothing else writes under graph hashes.
- LatencyHistogram.Latencies.Percentile: states the value before rounding to two decimals; edges and samples are exact reals and the logarithm is the exact one.
- SeedScript.ScriptLoadsExactly: unique constraints other than primary keys, column types and triggers are not modelled.
- SeedSweep.Exporter.Sweep: rows are a set, so the order of rows within a table is that of the later script model's input.
- SqlText.ValuesReadBack: how UUIDs, dates, JSON and vectors become text, and floats that do not print as numbers, are not modelled.
- Payments: authorization headers, list and lookup endpoints, descriptions and customer references, and what a dropped connection has sent.
- FlowRetries.TriesAreInvisible: loads by other readers that cache an older state after a save are not modelled.
- EventStream.ReadEvents: lines arrive cut; JSON decoding is a parameter. Cutting text into lines is modelled for the round trip only.
- AppCache.CachedIsFreshIff: digests are arbitrary functions that may collide on other specs; an application is what its spec registers, in order; how the MCP library merges equal names is not modelled.
- StartOnce.EveryScheduleStartsOnce: excludes shutting lifespans down.
- PDF rendering, fonts and page layout; the reader of the PDF model takes object 5 for the content stream instead of following the fixed references from the trailer.
- REST controllers, dependency injection, observability, prompt resolution, retrieval, provisioning and scenario scripts: plumbing, or behaviour that rests on libraries.
