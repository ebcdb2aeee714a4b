# Penelope: verified model of the saga engine and its durable contracts

Penelope runs long-lived business processes ("sagas") as a deterministic
engine over a durable log. This project models that core in Dafny and proves
what it promises:

- the **linear saga engine**: its transitions, the reachable states, the
  compensation stack, how long a run can last, when retries run, and replay;
- **process graphs**: exact validation (references, unique edges, reachability)
  and execution as bounded walks;
- the **outcome log, atomic commits and replay pages**, and that what the
  engines plan is what these validators accept and what the log tells later;
- **claimed lease batches** and their fast duplicate search;
- **timer and outbox delivery** over ports that fail, lie, repeat and interleave;
- the **canonical byte encodings** and the stable timer input identity;
- two script algorithms: the **publish order** of a workspace and the **static
  stack bound** of a binary (call graph, stack-pointer tracking, worst chain).

Code of the source that computes expressions is modelled by functions; its
loops over arrays, worklists, counters and buffers are methods with loops,
proved against those functions; `OutcomeLog`, the two delivery hosts and the
stack analyser are classes whose methods update their fields.

## Files

| file | models |
|---|---|
| `Domain.dfy`, `Wrappers.dfy`, `TextOrder.dfy`, `Identifiers.dfy` | records and bounded integers; `Result`/`Option`; identifier order, sorting, searching; identifier texts |
| `SagaDefinition.dfy` | linear definitions, their validation, retry timing |
| `LinearEngine.dfy`, `LinearReplay.dfy` | linear transitions; replay and live runs |
| `LinearInvariants.dfy`, `LinearMoves.dfy`, `LinearDecisions.dfy`, `LinearCompensation.dfy`, `LinearTermination.dfy`, `LinearProgress.dfy`, `LinearManualRetry.dfy`, `LinearTiming.dfy`, `LinearKeys.dfy`, `LinearHandKeys.dfy` | facts about all linear runs |
| `GraphDefinition.dfy`, `GraphPaths.dfy`, `GraphEngine.dfy`, `GraphDecisions.dfy`, `GraphReplay.dfy`, `GraphRuns.dfy`, `GraphLimits.dfy` | process graphs: validation, execution, replay, and which paths are runs |
| `OutcomeLog.dfy`, `ReplayPages.dfy`, `ProcessCommit.dfy`, `SagaOutcomes.dfy`, `EndToEnd.dfy`, `CommitChains.dfy`, `ForeignScopes.dfy`, `RunRecords.dfy`, `LogReadBack.dfy` | the log, its pages, commits, outcome plans, and how they fit together |
| `LeaseBatches.dfy`, `OutboxDispatch.dfy`, `TimerInputs.dfy`, `TimerDelivery.dfy`, `TimerStoreRules.dfy`, `TimerClaims.dfy`, `TimerDrain.dfy` | leases and delivery |
| `Encoding.dfy`, `EncodingLayout.dfy` | canonical bytes |
| `PublishOrder.dfy`, `StackFrames.dfy`, `StackBound.dfy`, `CallGraphs.dfy` | the scripts |

## Where the code and its stated intent part

Each of these is the code's behaviour, kept as it is, with the exact condition proved.

- **Delay shifting drops bits.** `retry_due_at` is documented to double the
  delay and cap it. `checked_shl` refuses only shifts of 64 or more and loses
  high bits below that. `SagaDefinition.DelayIsDocumentedIff` says exactly when
  the delay is the documented one; `LinearTiming.LastRetryMayBeDueAtOnce` reaches
  a delay of zero with base 4 and 64 attempts.
- **A retryable compensation failure can be refused by every path.** With a
  backoff and attempts left, both the plain result and the scheduled retry are
  errors. `LinearProgress.SomeRunBlocksIff` says exactly which definitions can get there.
- **A manual retry keeps the attempt count.** It may resume a step beyond that
  step's own limit; `LinearManualRetry.ManualRetryExceedsIff` says exactly which
  definitions have such a run, and `ReachBeyondLimit` gives it.
- **The retry deadline limits the due time, not the firing.**
  `LinearTiming.LateFiringRuns` is a run that retries after its deadline;
  `LinearTiming.DeadlineIsNotChecked` says exactly when a firing is in time.
- **Effect keys can repeat within a run**, and a store that keeps them unique
  (crates/penelope-sqlite/src/schema.rs:188) refuses the repeating commit. How
  depends on how escalated cases may be resolved. By cancelling at most: when a
  compensation, or a step's own timer action, looks like another action of the
  step (`LinearKeys.KeysRepeatIff`). By compensating too: whenever a step before
  the last has a compensation (`LinearHandKeys.KeysRepeatByHandIff`). By retrying:
  always (`LinearHandKeys.ManualRetryRepeatsKey`). A retry timer is planned only if
  its due time is representable, which holds for every policy whose base delay and
  jitter cannot overflow together (`LinearKeys.FittingPoliciesRetryLater`). Graph
  runs never repeat a key (`GraphLimits.GraphKeysNeverRepeat`).
- **A graph run can outgrow its replay.** Live execution is bounded by
  `max_step_visits`, replay by 4096 events. `GraphReplay.ReplayAgreesIff` says when
  the two agree, `GraphRuns.SomeRunOutgrowsReplayIff` which graphs have a run that
  no longer replays; a run that fits its outcome log does (`GraphLimits.FittingRunReplays`).
- **The linear outcome builder does not compare tenant and process**, so its
  batches commit exactly when the caller does (`EndToEnd.LinearBatchCommitsIff`).
  A batch built for a foreign process is refused while an action is planned and
  committed once the saga has stopped (`ForeignScopes.ForeignBatchCommitsIff`).
- **Redelivery is not unlimited.** Every claim counts, also one whose drain
  stops, and the 65th is refused. `TimerDelivery.StoppedDrainsExhaust` reaches a
  timer no run can lease again; `TimerDelivery.RedeliveryCompletesIff` says
  exactly when one more drain delivers.
- **One exhausted timer refuses its whole claim**, so the timers selected with it
  wait too (`TimerClaims.ClaimSucceedsIff`, `TimerClaims.ExhaustedTimerBlocksItsBatch`).
- **`validate_order` never reports a crate that depends on itself**, although
  `order` raises for it (`PublishOrder.NothingViolatedIff`,
  `PublishOrder.SelfDependencyIsAccepted`).

## Model

| member | source | states |
|---|---|---|
| `SagaDefinition.DelayIsDocumentedIff` | crates/penelope-executor/src/engine.rs:156-182 | the implemented delay equals "double per retry, then cap" exactly when the shift is 64 or more, loses no bits, or leaves a remainder at or above the cap |
| `SagaDefinition.ShiftedOutDelayIsZero` | crates/penelope-executor/src/engine.rs:174-179 | base 4 at retry ordinal 62 has delay zero for every cap, where the documentation promises the cap |
| `SagaDefinition.DelayGrows` | crates/penelope-executor/src/engine.rs:156-179 | delays never shrink with the ordinal while no bits are lost, and double exactly below the cap |
| `SagaDefinition.RetryDueAtIsBounded` | crates/penelope-executor/src/engine.rs:165-209 | while no bits are lost, the due time is now plus the documented delay plus the mixed seed's remainder by the jitter bound, and the error arises exactly when that sum exceeds 64 bits |
| `SagaDefinition.DeterministicJitter` | crates/penelope-executor/src/engine.rs:192-209 | the jitter is below the policy's bound |
| `SagaDefinition.LargeLinearStepsHaveDuplicateIds` | crates/penelope-executor/src/engine.rs:1123-1152 | descent check, then in-place sort and neighbour scan: reports a duplicate exactly when two steps share an identifier |
| `SagaDefinition.NeighboursDecideDuplicates` | crates/penelope-executor/src/engine.rs:1123-1152 | in any sorted rearrangement, equal neighbours exist exactly when two steps share an identifier |
| `SagaDefinition.StrictDescentIsUnique` | crates/penelope-executor/src/engine.rs:1123-1152 | strictly descending identifiers are pairwise distinct |
| `SagaDefinition.ValidationOf` | crates/penelope-executor/src/engine.rs:1155-1181 | success exactly for 1 to 128 uniquely named steps whose policies stay within 64 attempts |
| `SagaDefinition.ValidationSays` | crates/penelope-executor/src/engine.rs:1155-1181 | each error is reported exactly when the definition is to blame for it: no steps, more than 128, two with one identifier, a policy beyond 64 attempts, in this order |
| `SagaDefinition.Validate` | crates/penelope-executor/src/engine.rs:1155-1181 | the scan for small and the sort for large definitions report the same first error |
| `LinearInvariants.DecideIsSound` | crates/penelope-executor/src/engine.rs:1194-1586 | from a consistent decision every input leads to a consistent decision or to an error that blames the input |
| `LinearInvariants.RunsStayConsistent` | crates/penelope-executor/src/engine.rs:1194-1586 | every reachable decision, manual resolutions included: active action exactly while working and last of the distinct issued ids, timer only while running, index equal to the step count exactly when completed, increasing compensation stack below it, attempt below 64, action as planned |
| `LinearInvariants.RunsNeverFailInternally` | crates/penelope-executor/src/engine.rs:1813-1857 | invalid projection, attempt overflow and definition mismatch never arise on a projection the engine produced |
| `LinearMoves.EveryInputIsAMove` | crates/penelope-executor/src/engine.rs:1307-1826 | every accepted input after the start is one of fourteen moves with these exact changes of step, attempt, timer, stack and status |
| `LinearDecisions.MoveIsDetermined` | crates/penelope-executor/src/engine.rs:1307-1826 | an accepted input makes exactly the one move that status, result or resolution, policy, attempt, stack and deadline call for: cancelling cancels with the stack kept, escalating changes nothing, a retryable failure with attempts left and no backoff is retried at once, a due time past the deadline begins undoing exactly with a non-empty stack |
| `LinearDecisions.AcceptedIff` | crates/penelope-executor/src/engine.rs:1307-1857 | an input is accepted exactly when it answers the active action or due timer, calls for a move, and offers a new identity if that move plans an action; the identities, due time and projection it leaves |
| `LinearDecisions.RefusalsBlame` | crates/penelope-executor/src/engine.rs:1307-1857 | every refusal names something that is so of the input and the state |
| `LinearDecisions.PlannedActionIs` | crates/penelope-executor/src/engine.rs:1813-1847 | a working saga plans exactly the step's own effect, its retry timer, or the top compensation, under the process's scope and the counted attempt |
| `LinearDecisions.StartIff` | crates/penelope-executor/src/engine.rs:1270-1306 | a saga starts exactly for valid definitions, at its first step and attempt |
| `LinearReplay.Replay` | crates/penelope-executor/src/engine.rs:1877-1997 | the loop over decision and accepted-id set returns what folding the log gives, the first failure included |
| `LinearReplay.ReplayOrdered` | crates/penelope-executor/src/engine.rs:1999-2017 | accepts exactly logs numbered 0, 1, 2, ... whose events replay, and reports numbering first |
| `LinearReplay.ReplayEqualsLive` | crates/penelope-executor/src/engine.rs:726-777 | for inputs with distinct ids, replaying their events gives the live result, decision or corresponding error |
| `LinearReplay.AcceptedLogsAreRuns` | crates/penelope-executor/src/engine.rs:1877-1997 | every accepted log is the record of a live run of distinct inputs with the same decision |
| `LinearReplay.AcceptedLogsHaveDistinctInputs` | crates/penelope-executor/src/engine.rs:1877-1897 | a log with a repeated input id never replays |
| `LinearReplay.ReplayIsIncremental` | crates/penelope-executor/src/engine.rs:1877-1997 | accepted logs are prefix-closed and one more event is one step from the earlier decision |
| `LinearReplay.RecordedIff` | crates/penelope-executor/src/engine.rs:1877-1997 | the log of a run replays to its decision exactly when the run is accepted live and its input ids differ |
| `LinearReplay.LiveIgnoresIds` | crates/penelope-executor/src/engine.rs:1194-1267 | renaming input ids changes no live result, so every live run can be recorded under any ids that differ (`RecordedAs`) |
| `LinearReplay.DecideIsReplayStep` | crates/penelope-executor/src/engine.rs:1194-1267 | live dispatch and replay dispatch agree on each single input |
| `LinearCompensation.StackIsPushesLessPops` | crates/penelope-executor/src/engine.rs:1597-1632 | in every run the stack is the compensable successes pushed less the compensation successes popped, each step on it or undone, once |
| `LinearCompensation.UndoneInReverse` | crates/penelope-executor/src/engine.rs:1689-1766 | without manual resolutions steps are undone from the latest backwards, and none is pushed after undoing begins |
| `LinearCompensation.CompensatedMeansAllUndoneInReverse` | crates/penelope-executor/src/engine.rs:1728-1766 | a manual-free run ends Compensated only after undoing every compensable completed step in exact reverse order |
| `LinearCompensation.CompensationTargetsLatestStep` | crates/penelope-executor/src/engine.rs:1813-1826 | while compensating, the planned action is the declared compensation of the latest step not yet undone |
| `LinearTermination.MoveSpends` | crates/penelope-executor/src/engine.rs:1307-1811 | every move that is not manual strictly lowers the remaining budget |
| `LinearTermination.RunsSpendTheirBudget` | crates/penelope-executor/src/engine.rs:1307-1811 | inputs accepted plus inputs still acceptable never exceed one plus the definition's budget |
| `LinearTermination.AcceptedLogsAreBounded` | crates/penelope-executor/src/engine.rs:1877-1997 | an accepted log without manual resolutions has at most one plus the budget, so at most 24449 events |
| `LinearTermination.ManualRunsAreUnbounded` | crates/penelope-executor/src/engine.rs:1507-1586 | with manual resolutions the definition fixes no bound: any two or more distinct input ids are those of some accepted log |
| `LinearProgress.ResultAcceptedOneWayIff` | crates/penelope-executor/src/engine.rs:1307-1441 | in any reachable working state without a timer, a well-offered result is never accepted both ways and is accepted one way exactly when it is not a delayed compensation retry |
| `LinearProgress.BlockedResultIsAlwaysRefused` | crates/penelope-executor/src/engine.rs:1767-1785 | in such a state no input that reports the retryable failure is accepted, whatever comes with it |
| `LinearProgress.SomeRunBlocksIff` | crates/penelope-executor/src/engine.rs:1767-1785 | a valid definition has an accepted log in such a state exactly when a compensation before the last step has a backoff and more than one attempt |
| `LinearProgress.StepIsReached` | crates/penelope-executor/src/engine.rs:1597-1632 | every step of a valid definition is reached by an accepted log of successes |
| `LinearProgress.CompensationIsReached` | crates/penelope-executor/src/engine.rs:1689-1727 | every compensation before the last step is reached by an accepted log |
| `LinearManualRetry.CountsAreExplained` | crates/penelope-executor/src/engine.rs:1529-1542 | in every run, manual resolutions included, the attempt count of a running or escalated saga is below its step's limit or was left by an earlier step's compensation that retries at once |
| `LinearManualRetry.ReachBeyondLimit` | crates/penelope-executor/src/engine.rs:1767-1785 | for each step and each such earlier compensation with a higher limit, an accepted log that plans the step at or beyond its own limit |
| `LinearManualRetry.ManualRetryExceedsIff` | crates/penelope-executor/src/engine.rs:1529-1542 | some accepted log of a valid definition plans an attempt at or beyond the step's limit exactly when an earlier step has a compensation without backoff whose limit is higher |
| `LinearTiming.PendingTimerWasJustScheduled` | crates/penelope-executor/src/engine.rs:1366-1441 | a timer is pending only right after the input that scheduled it, due as that input asked and within its deadline |
| `LinearTiming.RetryRunsIffTimerIsDue` | crates/penelope-executor/src/engine.rs:1450-1500 | the retry effect runs exactly when its own timer fires at or after the due time with a fresh id, never before observation plus delay |
| `LinearTiming.DeadlineIsNotChecked` | crates/penelope-executor/src/engine.rs:1450-1500 | the due time is within the deadline, a firing is accepted exactly from the due time on, its decision is the same whenever it comes, and a late firing is accepted exactly if a time after the deadline exists |
| `LinearTiming.LateFiringRuns` | crates/penelope-executor/src/engine.rs:1450-1500 | an accepted log whose retry was scheduled with its due time as deadline and fires after it |
| `LinearTiming.AttemptIsReached` | crates/penelope-executor/src/engine.rs:1402-1492 | every attempt a delayed policy permits is reached by an accepted log |
| `LinearTiming.LastRetryMayBeDueAtOnce` | crates/penelope-executor/src/engine.rs:156-190 | an accepted log in which the lost shift makes a retry due the moment it is observed |
| `LinearKeys.KeysRepeatIff` | crates/penelope-executor/src/engine.rs:2019-2074 | for every valid definition: an accepted log whose manual resolutions only cancel or keep escalated plans two actions under one effect key exactly if some step is a timer action that may wait for a retry or, before the last step, has a compensation with its own kind and payload, or one that looks like its retry timer and may be attempted twice at once |
| `LinearHandKeys.KeysRepeatByHandIff` | crates/penelope-executor/src/engine.rs:1529-1570 | when cases may also be sent to compensation by hand, exactly if some step is such a timer action or any step before the last has a compensation |
| `LinearHandKeys.ManualRetryRepeatsKey` | crates/penelope-executor/src/engine.rs:1529-1542 | when cases may be retried by hand, always: every step of every valid definition has an accepted log that loses its outcome and plans it again under the same effect key |
| `GraphDefinition.Verdict` | crates/penelope-executor/src/engine.rs:337-422 | the verdict is success exactly for valid graphs: 1 to 128 uniquely named steps, at most 512 edges, declared entry and ends, no two edges with one step and outcome, a destination on every retryable failure and no other demand for one, every step on a path from the entry |
| `GraphDefinition.VerdictSays` | crates/penelope-executor/src/engine.rs:337-422 | each error is reported exactly when the graph is to blame for it, edge errors for the first edge that is not fine |
| `GraphDefinition.Validate` | crates/penelope-executor/src/engine.rs:337-422 | sorting, binary search, seen-masks and worklist together report exactly that verdict |
| `GraphDefinition.SortedStepIds` | crates/penelope-executor/src/engine.rs:337-361 | the sorted table lists each declared step once, or a duplicate exists |
| `GraphDefinition.CheckTransitions` | crates/penelope-executor/src/engine.rs:361-386 | the scan with per-step outcome masks finds the first faulty edge |
| `GraphDefinition.MarkReachable` | crates/penelope-executor/src/engine.rs:386-421 | the worklist terminates and marks exactly the steps some path from the entry reaches |
| `GraphEngine.RunsAreWalks` | crates/penelope-executor/src/graph.rs:215-370 | every reachable projection is consistent, and the visited steps form a walk along edges labelled success, retryable failure or terminal failure as the observed results were, one per issued id |
| `GraphDecisions.AcceptedIff` | crates/penelope-executor/src/graph.rs:269-370 | an input is accepted exactly when it reports the active action and an edge leads on with a visit left and a new identity, or the run completes, or it escalates; it then does just that and plans the step's declared kind and payload |
| `GraphDecisions.StoppedRunEndsIff` | crates/penelope-executor/src/graph.rs:299-362 | a stopped run is completed exactly when its last result is a success whose edge from the last visited step has no destination, and escalated exactly when that result is unknown or a failure with such an edge |
| `GraphDecisions.RefusalsBlame` | crates/penelope-executor/src/graph.rs:269-370 | every refusal names something that is so of the input and the state |
| `GraphDecisions.StartIff` | crates/penelope-executor/src/graph.rs:215-260 | a graph starts exactly when it is valid, at its entry and first visit |
| `GraphEngine.WalkIsPath` | crates/penelope-executor/src/graph.rs:269-370 | such a walk is a path of the validated graph |
| `GraphEngine.GraphRunsAreBounded` | crates/penelope-executor/src/graph.rs:269-370 | visits equal issued ids and never exceed the bound, accepted inputs are at most one more, and a stopped graph accepts nothing |
| `GraphEngine.EdgeOrderIsImmaterial` | crates/penelope-executor/src/graph.rs:269-330 | permuting the transitions of a valid graph changes no decision |
| `GraphEngine.EdgeOrderKeepsRuns` | crates/penelope-executor/src/graph.rs:215-370 | nor any run, its failures included |
| `GraphReplay.ReplayGraph` | crates/penelope-executor/src/graph.rs:372-438 | the replay loop returns what folding the log gives |
| `GraphReplay.ReplayGraphOrdered` | crates/penelope-executor/src/graph.rs:441-459 | the size bound, then the numbering, then the events decide |
| `GraphReplay.ReplayAgreesIff` | crates/penelope-executor/src/graph.rs:372-438 | for inputs with distinct ids the replay gives the live projection or the live failure exactly for 1 to 4096 inputs; an input misplaced with regard to the start is always called a second start |
| `GraphRuns.PathIsRun` | crates/penelope-executor/src/graph.rs:269-370 | every path from the entry within the visit bound is walked by an accepted run of distinct inputs |
| `GraphRuns.SomeRunOutgrowsReplayIff` | crates/penelope-executor/src/graph.rs:372-380 | a valid graph has an accepted run of distinct inputs that replay refuses as too long exactly when it has a cycle and permits 4096 visits |
| `GraphLimits.SelfLoopOutgrowsReplay` | crates/penelope-executor/src/graph.rs:372-380 | the one-step graph that succeeds into itself has such a run of 4097 inputs |
| `GraphLimits.FittingRunReplays` | crates/penelope-executor/src/graph.rs:372-438 | a graph run whose commits all fit its outcome log always replays to its projection |
| `GraphLimits.SomeRunMissesIff` | crates/penelope-executor/src/graph.rs:316-330 | some run's next result finds no transition exactly when a step within the visit bound lacks an edge for some outcome |
| `GraphLimits.SomeRunIsCutIff` | crates/penelope-executor/src/graph.rs:330-370 | some run is cut off by the visit bound exactly when a path is one step longer than the bound; with as many visits as steps or more, exactly when the graph has a cycle |
| `GraphLimits.GraphKeysNeverRepeat` | crates/penelope-executor/src/graph.rs:332-370 | no graph run plans two actions under one effect key |
| `GraphPaths.LongPathIffCycle` | crates/penelope-executor/src/engine.rs:386-421 | a valid graph has a path longer than it has steps exactly when it has a cycle, and then of every length |
| `GraphReplay.MisplacedIsNamed` | crates/penelope-executor/src/graph.rs:215-286 | the live run stopped by such an input names an invalid definition, a first result "already started" and a second start "not running" |
| `GraphReplay.EdgeOrderKeepsReplay` | crates/penelope-executor/src/graph.rs:372-438 | a log replays to the same result in whatever order a valid graph lists its transitions |
| `GraphReplay.AcceptedGraphLogsAreBounded` | crates/penelope-executor/src/graph.rs:372-438 | an accepted log is a bounded walk from the entry to the current step with at most one event more than visits |
| `OutcomeLogs.OutcomeLog.Append` | crates/penelope-ports/src/implementation.rs:2037-2080 | all or nothing: the batch is appended or the first fault is returned and nothing changes |
| `OutcomeLogs.OutcomeLog.AppendOne` | crates/penelope-ports/src/implementation.rs:2083-2103 | the singleton path has the result and the error of the general one |
| `OutcomeLogs.FromOrdered` | crates/penelope-ports/src/implementation.rs:2019-2035 | rebuilds a log exactly from well-formed outcomes |
| `OutcomeLogs.AppendsIffWellFormed` | crates/penelope-ports/src/implementation.rs:2037-2080 | appending succeeds exactly when the result keeps one scope, sequence i at position i, distinct ids and at most 4096 outcomes |
| `OutcomeLogs.AppendFaultSays` | crates/penelope-ports/src/implementation.rs:2037-2080 | each error is reported exactly when the first entry that cannot follow is to blame for it, or the batch is too long |
| `OutcomeLogs.AppendSplits` | crates/penelope-ports/src/implementation.rs:2037-2080 | appending two batches at once succeeds exactly when appending them in turn does, with the same log |
| `ReplayPages.ValidatePage` | crates/penelope-ports/src/implementation.rs:1911-1945 | the loop reports the first fault of the page |
| `ReplayPages.PageIsValidIff` | crates/penelope-ports/src/implementation.rs:1911-1945 | what an accepted page holds, as one condition |
| `ReplayPages.PageFaultSays` | crates/penelope-ports/src/implementation.rs:1911-1955 | each error is reported exactly when the page's size, its first outcome out of place, or its continuation is to blame |
| `ReplayPages.ChainIsNumbered` | crates/penelope-ports/src/implementation.rs:1911-1945 | chained pages carry one contiguous run of one scope |
| `ReplayPages.ChainRebuildsLogIff` | crates/penelope-ports/src/implementation.rs:1911-2035 | a chain from zero rebuilds a log exactly when its ids are distinct and fit the bound |
| `ReplayPages.CutIsChained` | crates/penelope-ports/src/implementation.rs:1911-1945 | cutting a log into pages of any permitted size gives valid chained pages that concatenate to it |
| `ProcessCommit.SameEffectKeyIsKeyEquality` | crates/penelope-ports/src/implementation.rs:2114-2138 | the field-by-field comparison is equality of effect keys |
| `ProcessCommit.ValidateCommit` | crates/penelope-ports/src/implementation.rs:2177-2267 | the validator's loops report the first violation in source order |
| `ProcessCommit.CommitAcceptedIff` | crates/penelope-ports/src/implementation.rs:2177-2267 | acceptance means ordered outcomes of one scope with a representable successor, distinct in-scope actions by id and effect, an input of the process that caused an outcome, and a canonical source only with a canonical-event input |
| `ProcessCommit.CommitFaultSays` | crates/penelope-ports/src/implementation.rs:2177-2267 | each of the fourteen errors is reported exactly when the commit is to blame for it, in the order they take precedence |
| `ProcessCommit.AcceptedCommitAppendsIff` | crates/penelope-ports/src/implementation.rs:2037-2267 | an accepted commit appends to its log exactly when its outcome ids are new and there is room |
| `ProcessCommit.ReceiptNamesLastOutcome` | crates/penelope-ports/src/implementation.rs:2300-2317 | a receipt matches exactly when it names the last outcome's own sequence and reports a duplicate only for an input |
| `EndToEnd.LinearBatchCommitsIff` | crates/penelope-executor/src/engine.rs:971-1015 | facts accepted for a reachable linear decision form a commit that validates exactly when ids differ, the successor is representable and tenant, process and input fit |
| `EndToEnd.LinearReceiptNamesLastFact` | crates/penelope-ports/src/implementation.rs:2300-2317 | the matching receipt of such a commit names the last planned fact |
| `EndToEnd.GraphBatchCommitsIff` | crates/penelope-executor/src/graph_outcomes.rs:57-95 | the same for graph decisions, whose builder compares the whole scope |
| `EndToEnd.RunLogIsNumbered` | crates/penelope-executor/src/engine.rs:971-1015 | the batches of a whole run are numbered through, three or four outcomes per input |
| `EndToEnd.RunFitsLogIff` | crates/penelope-ports/src/implementation.rs:2037-2080 | the outcomes of a whole linear run fit one log exactly when ids are distinct across commits and the total is within 4096; up to 1024 inputs always fit |
| `CommitChains.AllInTurnIff` | crates/penelope-ports/src/implementation.rs:2037-2317 | planned commits are each accepted at the log's length, acknowledged by their last sequence and appended, one after the other, exactly when together they make one well-formed log and every input belongs to the process |
| `CommitChains.RunCommitsInTurnIff` | crates/penelope-ports/src/implementation.rs:2037-2317 | every commit of a linear run is accepted, receipted and appended in turn exactly when outcome ids differ across the run, the total is within 4096 and every input belongs to the process |
| `CommitChains.RunCommitsMakeTheLog` | crates/penelope-executor/src/engine.rs:971-1015 | the commits of a linear run append exactly the run's outcomes |
| `CommitChains.GraphCommitsInTurnIff` | crates/penelope-executor/src/graph_outcomes.rs:57-95 | the same for every graph run, which commits exactly three outcomes per input |
| `ForeignScopes.ForeignBatchCommitsIff` | crates/penelope-executor/src/engine.rs:971-1015 | in every reachable state a batch built for another tenant or process, with an input of theirs, is refused for its action's scope exactly while the saga plans an action, and accepted once it plans none |
| `ForeignScopes.ForeignBatchIsBuilt` | crates/penelope-executor/src/engine.rs:971-1015 | the builder makes such a batch for every reachable decision and every scope that runs the definition |
| `ForeignScopes.ForeignScopesAreRefusedOrCommitted` | crates/penelope-executor/src/engine.rs:971-1015 | for every valid definition, foreign scope and sequence, an accepted log whose batch is built and refused and one whose batch is built and committed |
| `RunRecords.DecideIssues` | crates/penelope-executor/src/engine.rs:1848-1865 | every accepted input issues the identity of the action it plans, and nothing else |
| `RunRecords.LogTellsTheRun` | crates/penelope-executor/src/engine.rs:814-930 | the committed log of any run ends with a kind that determines the status, shows whether a timer is pending, and holds one plan per identity ever issued |
| `LogReadBack.LinearFactsAcceptedIff` | crates/penelope-executor/src/engine.rs:814-1015 | the linear builder takes exactly the facts whose kinds read as the input and the reachable decision: accepted, what was observed, a waiting retry, what the run has come to |
| `LogReadBack.GraphFactsAcceptedIff` | crates/penelope-executor/src/graph_outcomes.rs:57-95 | the same for the graph builder |
| `LogReadBack.LinearLogReads` | crates/penelope-executor/src/engine.rs:814-930 | in a committed run every batch's second outcome tells exactly what its input reported, and its last one the status |
| `LogReadBack.LinearLogCounts` | crates/penelope-executor/src/engine.rs:814-850 | the log holds as many success, failure, unknown, firing and resolution outcomes as the run has inputs that report them |
| `LogReadBack.GraphLogReads` | crates/penelope-executor/src/graph_outcomes.rs:14-56 | the same for every batch of a graph run |
| `LogReadBack.GraphLogCounts` | crates/penelope-executor/src/graph_outcomes.rs:14-56 | the same counts for graph runs |
| `LeaseBatches.FirstDuplicateIndex` | crates/penelope-executor/src/lease_batch_index.rs:4-53 | sorted search and quadratic scan alike return the least position that shares action or token with a later one |
| `LeaseBatches.FirstActionDuplicate` | crates/penelope-executor/src/lease_batch_index.rs:25-41 | the minimum over equal neighbours of the sorted names is the first position whose action recurs |
| `LeaseBatches.FirstTokenDuplicate` | crates/penelope-executor/src/lease_batch_index.rs:42-51 | the scan of copied tokens finds the first position whose token recurs |
| `LeaseBatches.ValidateBatch` | crates/penelope-executor/src/lease_batch_index.rs:58-84 | for every batch size the first error of the quadratic loop, a lease's own fault before a clash at its position |
| `LeaseBatches.BatchAcceptedIff` | crates/penelope-executor/src/lease_batch_index.rs:58-84 | acceptance means every lease is valid and all actions and tokens differ |
| `LeaseBatches.TimerLeaseFaultSays` | crates/penelope-ports/src/implementation.rs:1585-1611 | each refusal of a timer lease is given exactly for its own reason |
| `OutboxDispatch.ValidateClaim` | crates/penelope-executor/src/services.rs:56-82 | small and large batches give the same first fault although they test acknowledged records at different places |
| `OutboxDispatch.ClaimAcceptedIff` | crates/penelope-ports/src/implementation.rs:818-875 | a claim is accepted exactly when every record is pending, in scope, held by the requester, unexpired and within its attempts, and no two share an action id or a token |
| `OutboxDispatch.OutboxLeaseFaultSays` | crates/penelope-ports/src/implementation.rs:818-875 | each refusal of an outbox lease is given exactly for its own reason |
| `OutboxDispatch.DispatchHost.DispatchOutbox` | crates/penelope-executor/src/services.rs:320-372 | over failing and interleaved ports: delivered is acknowledged or one more, delivered leases were live, receipted for their own action and accepted downstream, duplicates are the receipts that say so, acknowledged ones are recorded, success means the whole batch |
| `OutboxDispatch.DispatchHost.DispatchOne` | crates/penelope-executor/src/services.rs:341-371 | one lease is acknowledged only after a live check and a receipt for its own action |
| `TimerInputs.BuildTimerInput` | crates/penelope-executor/src/timer_input.rs:8-44 | the result is a function of the schedule alone, not of lease, token or time |
| `TimerInputs.IdentityIsValid` | crates/penelope-executor/src/timer_input.rs:27-41 | the 74-byte identity is always a valid input identifier |
| `TimerInputs.TimerInputFailsIff` | crates/penelope-executor/src/timer_input.rs:8-44 | building fails exactly when encoding the record fails |
| `TimerInputs.HexIsInjective` | crates/penelope-executor/src/timer_input.rs:27-32 | equal hexadecimal text means equal digests |
| `TimerInputs.HexSpells` | crates/penelope-executor/src/timer_input.rs:27-32 | each byte is spelt by two lower-case digits, the high half first |
| `TimerInputs.TimerInputIs` | crates/penelope-executor/src/timer_input.rs:8-44 | the input is a fired timer of the timer's process, named by the prefix and the digits of the key's digest, with its own payload's digest |
| `TimerInputs.TimerKeysCoincideIff` | crates/penelope-executor/src/timer_input.rs:12-26 | the hashed keys are equal exactly for one effect key under one action id |
| `TimerInputs.InputIdentityIff` | crates/penelope-executor/src/timer_input.rs:12-41 | unless the digest collides on the two keys, two timers share an input id exactly when they are one effect under one action id |
| `TimerStoreRules.ScheduleSays` | crates/penelope-sqlite/src/leases.rs:235-261 | scheduling takes a timer action that is new or the same again, which changes nothing |
| `TimerStoreRules.CancelSays` | crates/penelope-sqlite/src/leases.rs:262-292 | cancelling takes exactly the timer as scheduled |
| `TimerStoreRules.GrantSays` | crates/penelope-sqlite/src/leases.rs:296-337 | a lease is granted exactly on a waiting, due timer no live lease holds, leased fewer than 64 times, under a new token, and counts as one attempt |
| `TimerStoreRules.AcknowledgeSays` | crates/penelope-sqlite/src/leases.rs:340-366 | exactly the lease on record, up to and at its expiry and unless cancelled, acknowledges |
| `TimerStoreRules.PutSays` | crates/penelope-sqlite/src/payloads.rs:14-96 | content is stored exactly under its own digest and never replaced by other content |
| `TimerStoreRules.AcceptSays` | crates/penelope-sqlite/src/process.rs:462-495 | an input is admitted once, the same again changes nothing, another under its identity is refused |
| `TimerStoreRules.LeasesDoNotOverlap` | crates/penelope-sqlite/src/leases.rs:296-337 | the leases of one timer never overlap: a new one begins after the old one expired and fences it for good |
| `TimerDelivery.RunStaysSound` | crates/penelope-executor/src/services.rs:254-283 | the delivery invariant holds over any interleaving of drains, stops, regrants and other users, and nothing stored is lost |
| `TimerDelivery.AcknowledgedMeansDeliveredOnce` | crates/penelope-executor/src/services.rs:254-283 | every acknowledged timer has its payload stored and its input admitted to the inbox exactly once |
| `TimerDelivery.AcknowledgedRecordsNameTheirLease` | crates/penelope-sqlite/src/leases.rs:340-363 | a timer marked acknowledged was acknowledged by the lease on its record |
| `TimerDelivery.AdmissionsAreNotShared` | crates/penelope-executor/src/timer_input.rs:12-41 | two delivered timers never share one admitted input, unless the digest collides |
| `TimerDelivery.StaleLeasesNeverAcknowledge` | crates/penelope-sqlite/src/leases.rs:84-114 | a superseded lease can never acknowledge again |
| `TimerDelivery.RedeliveryCompletesIff` | crates/penelope-executor/src/services.rs:187-285 | one more drain of a claimable timer with a new token, in a store `Unobstructed` by other content under the timer's payload and input, delivers it exactly when fewer than 64 leases were granted on it, whatever stopped before |
| `TimerDelivery.StaysExhausted` | crates/penelope-sqlite/src/leases.rs:296-337 | no run lowers the count of a timer that has had its 64 leases |
| `TimerDelivery.StoppedDrainsExhaust` | crates/penelope-sqlite/src/leases.rs:296-337 | 64 drains that take a timer up and stop reach a state in which it waits without a live lease and is never leased again, in any run |
| `TimerClaims.ClaimSucceedsIff` | crates/penelope-sqlite/src/leases.rs:296-337 | a claim of any reachable store succeeds exactly when no selected timer has had its 64 leases, and then leases exactly the selected timers |
| `TimerClaims.ExhaustedTimerBlocksItsBatch` | crates/penelope-sqlite/src/leases.rs:306-329 | one exhausted timer refuses every claim that selects it, in every later state |
| `TimerClaims.ExhaustedTimerBlocksItsScope` | crates/penelope-sqlite/src/leases.rs:306-329 | an exhausted timer whose last lease lapsed refuses every later claim of its scope until it is no longer waiting or enough claimable timers come before it to fill the claim |
| `TimerClaims.NeighbourIsBlocked` | crates/penelope-sqlite/src/leases.rs:306-329 | a reachable state in which an exhausted timer and one never leased are selected together and every such claim is refused |
| `TimerClaims.ClaimIsARun` | crates/penelope-sqlite/src/leases.rs:296-337 | a claim is a run of single grants of the transition system |
| `TimerDrain.ValidateClaim` | crates/penelope-executor/src/services.rs:230-253 | the small scan and the indexed validation give one first fault |
| `TimerDrain.AcceptedClaimsAreValid` | crates/penelope-executor/src/services.rs:230-253 | an accepted claim holds due timers of the requested process under the requester's unexpired leases, with distinct actions and tokens |
| `TimerDrain.ClaimAcceptedIff` | crates/penelope-executor/src/services.rs:230-253 | and under a request within its bound, only such claims, and all of them, are accepted |
| `TimerDrain.TimerHost.DrainTimers` | crates/penelope-executor/src/services.rs:187-285 | every run of the drain stays within the transition system; the counted leases are acknowledged and were due and rightly held, duplicate inputs are the receipts that say so, success means all of them, and a failed acknowledgement follows a completed delivery |
| `TimerDrain.TimerHost.Deliver` | crates/penelope-executor/src/services.rs:254-283 | the loop counts leases from the front and reports exact partial progress |
| `TimerDrain.TimerHost.DeliverOne` | crates/penelope-executor/src/services.rs:255-282 | payload, then input, then acknowledgement, each only after the previous answer checks out |
| `Identifiers.KindsAreDisjoint` | crates/penelope-domain/src/implementation.rs:158-165 | no text is a valid identifier of two kinds |
| `Encoding.ScopeBytes` | crates/penelope-domain/src/implementation.rs:705-722 | the length is 40 plus the four identifier lengths |
| `Encoding.EffectKeyBytes` | crates/penelope-domain/src/implementation.rs:800-829 | the length is 79 plus the five identifier lengths |
| `Encoding.ScopeCanonicalBytes` | crates/penelope-domain/src/implementation.rs:705-722 | filling the buffer gives the scope's bytes |
| `Encoding.EffectKeyCanonicalBytes` | crates/penelope-domain/src/implementation.rs:800-829 | filling the buffer gives the effect key's bytes |
| `Encoding.DefinitionCanonicalBytes` | crates/penelope-domain/src/implementation.rs:985-996 | the loop over steps gives the definition's bytes |
| `Encoding.ScopeRoundTrip` | crates/penelope-domain/src/implementation.rs:705-722 | scope bytes followed by anything decode to the scope and leave what followed |
| `Encoding.EffectKeyRoundTrip` | crates/penelope-domain/src/implementation.rs:800-829 | so do effect-key bytes, also with an action id behind them |
| `Encoding.DefinitionRoundTrip` | crates/penelope-domain/src/implementation.rs:985-996 | so do definition bytes, with identity, version and every step |
| `Encoding.EffectKeyDecodesExactly` | crates/penelope-domain/src/implementation.rs:800-829 | the decoder accepts nothing but encodings |
| `Encoding.ScopeBytesInjective` | crates/penelope-domain/src/implementation.rs:705-722 | equal scope bytes exactly for equal scopes |
| `Encoding.EffectKeyBytesInjective` | crates/penelope-domain/src/implementation.rs:783-829 | equal effect-key bytes, with any suffixes, exactly for equal keys and suffixes |
| `Encoding.DefinitionBytesInjective` | crates/penelope-domain/src/implementation.rs:985-996 | equal definition bytes exactly for equal identity, version and steps |
| `EncodingLayout.ScopeLayout` | crates/penelope-domain/src/implementation.rs:705-722 | where the four length-prefixed texts and the digest of a scope stand |
| `EncodingLayout.EffectKeyLayout` | crates/penelope-domain/src/implementation.rs:800-829 | after the scope the step, the big-endian attempt, the kind's byte 0 to 3 and the payload digest |
| `EncodingLayout.DefinitionLayout` | crates/penelope-domain/src/implementation.rs:985-996 | identity, version, big-endian step count, and every step in order |
| `PublishOrder.Order` | scripts/publish-order.py:62-82 | raises exactly when dependencies have a cycle, self-dependencies included; otherwise returns an order that comes lexicographically before every other |
| `PublishOrder.GreedyIsLeast` | scripts/publish-order.py:70-79 | taking the least available node each time gives the least order |
| `PublishOrder.StuckHasCycle` | scripts/publish-order.py:80-81 | nodes that all wait for one another contain a cycle |
| `PublishOrder.OrderedHasNoCycle` | scripts/publish-order.py:62-82 | an order exists only without a cycle |
| `PublishOrder.Release` | scripts/publish-order.py:73-79 | decrementing the counters of dependents keeps counters and heap equal to what is still missing |
| `PublishOrder.Dependents` | scripts/publish-order.py:63-67 | the reversed edges are exactly the dependents |
| `PublishOrder.ValidateOrder` | scripts/publish-order.py:85-106 | reports exactly the violations there are |
| `PublishOrder.NothingViolatedIff` | scripts/publish-order.py:85-106 | nothing is reported exactly for orders of the graph without self-dependencies |
| `PublishOrder.OrderedIsAccepted` | scripts/publish-order.py:62-106 | the computed order passes the validation |
| `PublishOrder.SelfDependencyIsAccepted` | scripts/publish-order.py:101-105 | a self-dependent crate has no order, yet validation accepts one |
| `StackFrames.DisassembledFrame` | scripts/analyze-riscv-stack.py:105-145 | over the machine's own flow (a branch to its target or on, a jump to its target, a return nowhere, all else on): returns a bound exactly when every reached row executes at one aligned depth in range, attained, with balanced returns; raises exactly when some reached row is at fault, and for what the error says |
| `StackFrames.VisitSays` | scripts/analyze-riscv-stack.py:119-144 | executing a row fails exactly when something is wrong with it, and is otherwise followed by exactly where the machine may go |
| `StackFrames.BoundIsUnique` | scripts/analyze-riscv-stack.py:105-145 | the bound is determined by the control flow |
| `StackFrames.FlowIsRecorded` | scripts/analyze-riscv-stack.py:112-145 | when the worklist is empty every path ends at a recorded depth |
| `StackFrames.NewPointRecords` | scripts/analyze-riscv-stack.py:121-144 | recording a row and queueing its successors keeps the exploration sound |
| `StackBound.CallAnalysis.Bound` | scripts/analyze-riscv-stack.py:171-184 | memoised recursion terminates, keeps every remembered total worst with an attaining chain through the first worst child, and raises only on re-entry |
| `StackBound.StackBoundOf` | scripts/analyze-riscv-stack.py:167-190 | raises exactly when a chain from the entry repeats a function; otherwise the total is the largest sum of any chain and the recorded chain attains it |
| `StackBound.WorstOfCallees` | scripts/analyze-riscv-stack.py:176-182 | the worst chain of a function from the worst of its callees |
| `StackBound.NoRepeatFrom` | scripts/analyze-riscv-stack.py:171-184 | a function whose callees are bounded without it is never re-entered |
| `StackBound.ChainsAreShort` | scripts/analyze-riscv-stack.py:171-184 | without recursion no chain is longer than the graph is large |
| `CallGraphs.BuildIndex` | scripts/analyze-riscv-stack.py:66-73 | fails exactly when two rows share an address, and otherwise knows the owner and start of every address |
| `CallGraphs.CalleeSays` | scripts/analyze-riscv-stack.py:82-101 | under the index a row's callee, and its refusal, are what the rows themselves say: a call, jump or branch to the first row of another function |
| `CallGraphs.Children` | scripts/analyze-riscv-stack.py:82-101 | the scan of one function refuses it exactly when a row is refused, and otherwise lists its callees once, in order |
| `CallGraphs.CallGraph` | scripts/analyze-riscv-stack.py:65-102 | the graph holds exactly the functions reached from the entry, none refused, and is closed; failure is a reached function that is refused for what the error says |
| `CallGraphs.WorstBoundsUsage` | scripts/analyze-riscv-stack.py:148-190 | over every run of the binary as a stack of active functions, each at a row of its own control flow, their depths (a compiled function's whole frame) together never exceed the reported total |
| `CallGraphs.Analyze` | scripts/analyze-riscv-stack.py:148-190 | the reported total and chain are worst over the real call graph and frames, the total bounds the stack of every run, overlap is reported exactly when there is one, and each other failure says what some reached row or chain is at fault for |

## Left out

- Task controller, task projection, timeline and process runtime: locks, processes and kernel calls.
- The SQLite store: modelled only as the contract of its ports (leases with their delivery-attempt limit, inbox, payloads, timers); that a scheduled timer's action was committed before, storage quotas, record checksums and the database itself are not.
- Authorization policy, clocks and adapter failures: arbitrary answers of the ports. Diagnostic, quota, review and canonical-command validators are not modelled.
- `manual_review_request` and `validate_required_outcomes`: single comparisons already contained in the builders.
- Record validators that always succeed are omitted, and so are the schema constructors.
- SHA-256, the jitter mixing and the JSON record bytes are arbitrary functions; collision freedom is assumed only where a statement names it.
- Identifiers are byte texts of at most 128 bytes; that a text passes its kind's validator is stated for the timer identity and for the numbered input, action and outcome identities of constructed runs, and not required of identities a caller supplies.
- The five scope coordinates of source records are held as one scope value; equality is the same.
- The validator's bit masks are held as sets of outcomes, and the heap of `order` as the set of its contents with its least element taken.
- Capacity hints, cloning and borrowing are not modelled.
- The outcome log's sequence-overflow branch is unreachable below 4096 entries and is not repeated there.
- Text input: parsing of disassembly, `.su` files, order lines and cargo metadata is left out. Functions, rows, frames, nodes and edges are parameters.
- The conflict rules between several compiler frames of one symbol name are left out; a function's compiler frame is a parameter.
- `disassembled_frame` does not check the stack at a jump that leaves the function; the bound says nothing about such a jump beyond its depth.
- `TimerDrain.TimerHost.DrainTimers`: the error values of failing ports are not tied to the store, because the source passes them through.
- `PublishOrder.ValidateOrder`: states which violations are reported, not the order in which edges are visited, which follows dictionary order.
- `LinearTermination.AcceptedLogsAreBounded`: holds without manual resolutions, because with them the definition fixes no bound (`ManualRunsAreUnbounded`); the number of distinct input ids still does.
