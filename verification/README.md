# Ariadna self-healing operator: verified model

A Dafny model of the four stateful cores of the operator, with proofs about whole runs of them.
`dafny verify dfyconfig.toml` checks everything.

| part | modules | what it models |
|---|---|---|
| keys | `Types` | the keys that isolate all per-resource state |
| actions | `Actions` | copying, sorting, publishing, extracting and running action lists |
| task queue | `Tasks`, `TaskQueue`, `ClaimExclusivity`, `TaskLifecycle`, `NameReuse`, `Executions`, `Worker`, `Janitor`, `Naming`, `StampedNames`, `Endings` | RemediationTask objects, the API server, and the publish / claim / execute / report / expire / delete protocol |
| detection | `Detection`, `DetectionEngine` | threshold windows, one-shot emission and expiry of detection state |
| remediation | `Remediation`, `RemediationController` | cooldown, retry budget, one-shot escalation and forgetting |
| end to end | `Pipeline`, `FailingRuns` | one leader's controller publishing into the task queue, and its runs that break a promise |
| cache | `CacheModel`, `CacheProperties`, `CacheReads`, `CacheInclusion`, `BoundedCache` | the bounded cache with LRU or FIFO eviction |
| helpers | `Sequences`, `Maps`, `Arithmetic` | facts about sequences, maps and products that several parts use |

## How the parts are modelled

**Time** is a number of nanoseconds; the zero value is Go's zero time. Status timestamps are written
with whole seconds (section 5.6 of RFC 3339), so reading one back loses up to a second.

**The task queue** is a state machine (`TaskQueue.Exec`). Each step is one API call or one executor
call of one actor, so every interleaving of any number of goroutines, duplicate watch loops and
janitors is a run. The server is a map from names to objects with one version counter: a create fails
if the name exists, a status update succeeds only if the version it was computed from is still the
stored one and replaces only the status, a delete names an object and nothing else. A watch may
deliver any version ever committed, and any number of times. An attempt is one goroutine started for
one watch event, not a worker identity. The executor's answers are arbitrary. `log` records what was
committed and run, in order. A step that is not enabled changes nothing.

`Worker.ClaimAndExecute` is the goroutine's code in the source's own form: it rewrites the object's
status fields in place, sorts a slice in place, loops over the actions and calls the server, while
everybody else takes arbitrary steps before each of its calls. Every status object it sends must be the
one that the corresponding step of the machine writes, so the theorems about runs hold for the code.

**Detection and remediation** are given twice: as pure steps over a map of states, on which the
theorems are proved, and as classes that mutate shared state cells in place (`DetectionEngine.Engine`,
`RemediationController.Controller`), whose methods are proved to take exactly those steps and to
send, publish and run exactly what the steps say. Handling one match, processing one result, and one cleanup are atomic steps of a run. In `Pipeline` processing one
result is split into its decision, its create call and its state update, with arbitrary queue steps
in between; cleanups of the controller fall between two results.

**The cache** is likewise a sequence of entries (`CacheModel`) and a class with a map and a list that
share their elements (`BoundedCache.BoundedCache`), every method of which refines the sequence. All
eviction loops terminate for at least one allowed entry.

## Where comments and code differ

The model follows the code.

- The documented retry from Failed to Pending (api/v1alpha1/remediationtask_types.go:9-10) is
  implemented nowhere: `PendingOnlyAtBirth` shows that no write ever returns a task to Pending.
- Terminal phases are not final: a worker that reports late overwrites Expired, because the re-read
  object's phase is not checked (internal/taskqueue/worker.go:321-352). `ExpiredCanBeOverwritten` is such
  a run of the whole pipeline for every configuration, `ReportOverwritesExpiredIff` the exact condition,
  and `PhasesMoveForward` says which changes are possible.
- A late report may even hit another task of the same name (`ReportCanHitUnclaimed`), and a janitor's
  delete a Pending one (`DeleteCanHitPending`). `ReportHitsOwnTaskIff` gives the exact condition for
  reports; for deletes `DeleteOfListedIsTerminal` says that a hit on the listed task itself is safe.
  Both are runs of the whole pipeline in which two resources of one name, in two namespaces, get tasks
  of one name, which the cooldown allows because their keys differ. Names end in the millisecond of
  publishing, and `StampedNames.GeneratedNamesAreFresh` shows that no name is reused if tasks are
  retained for a second and the longest create call; `NamesAreFreshIff` shows that this bound is exact
  where there is no trailing retention. The theorems of `TaskLifecycle` assume no more than fresh names
  (`FreshNames`); those of `ClaimExclusivity`, `Executions`, `Worker` and `Pipeline` do not even assume
  them.
- A janitor's pass can make older tasks due: expiring a stuck task moves the reference instant of the
  trailing retention, so the next pass deletes tasks this one kept (`SweepCanUnsettle`).
  `TrailingSweepSettlesIff` says exactly when it does not.
- The separator of state keys may occur in namespaces and names, which telemetry supplies as free
  text (internal/monitor/otel_receiver.go:140-185): "c" in "a/b" and "b/c" in "a" share their state.
  `StateKeyEqualIff` and `NamespacesCollideIff` are the exact conditions. Scenario identifiers, an "S" and a
  number (internal/crdloader/loader.go:182), never contain it.
- `sort.Slice` is not stable, although api/v1alpha1/remediationtask_types.go:83-84 promises list order
  for equal orders. Theorems rely only on a sorted permutation (`Actions.SortedFrom`).
- A task name shows neither the kind nor the namespace of the resource (internal/taskqueue/publisher.go:64-68):
  `SameNameIff` says exactly which publications share a name, and the second of them is refused.
- Sanitizing does not collapse dashes (internal/taskqueue/publisher.go:52) and its result need not be a
  valid name: a dot may end up at the border of a label (section 2.1 of RFC 1123), as it does for every
  resource whose name ends in one.
  `TaskNameValidIff` says exactly when a name is accepted.
- The anchored window is not "count within a sliding window" (internal/detection/engine.go:229-235).
  `SlidingWindowGuarantee` and `SlidingWindowTight` bound the difference exactly.
- The cache's byte limit is not an invariant: updating a present key never evicts
  (internal/cache/cache.go:321-346). `ByteLimitIff` says exactly which runs keep it.
- Matches carry the time of their input, cleanups use the wall clock (internal/detection/engine.go:240,
  490): late timestamps shorten the debounce by their lag. `ReportedOnceIff` is the exact condition, and
  `LateFailureReportedAgain` the runs beyond it.
- The remediation count is never reset by a success; only forgetting the state resets it.

## Model

| member | source | states |
|---|---|---|
| Types.StateKeyInjective | internal/types/types.go:503-508 | two (scenario, resource) pairs share a state key if and only if they agree on scenario, kind, namespace and name, when the first three contain no separator |
| Types.StateKeyEqualIff | internal/types/types.go:503-508 | for separator-free scenario identifiers and kinds, keys are equal if and only if those agree and the joined namespace and name agree |
| Types.NamespacesCollideIff | internal/types/types.go:73-75 | resources in two different namespaces can share a key if and only if one namespace extends the other by a separator |
| Types.StateKeyCollision | internal/types/types.go:503-508 | in every scenario, "c" in "a/b" and "b/c" in "a" share one key |
| Actions.SortSlice | internal/taskqueue/worker.go:209-211 | the in-place sort leaves a permutation of the slice, nondecreasing in order |
| Actions.PublishExtractRoundTrip | internal/taskqueue/publisher.go:78-89 | reading a published action list back gives the same actions in the same sequence with the same type and order, their parameters printed |
| Actions.WorkerRunsRecommended | internal/taskqueue/worker.go:205-211 | whatever permutations the publisher's and the worker's sorts produce, the list the worker runs along is an order-sorted permutation of the recommended actions, printed |
| Actions.PublishActions | internal/taskqueue/publisher.go:71-89 | what is published is the conversion of some order-sorted permutation of the recommended actions, and the caller's slice keeps its contents |
| Actions.ExtractActions | internal/taskqueue/worker.go:283-308 | the loop yields, entry by entry, the actions of the raw list, skipping entries that are not objects |
| Actions.ExtractReads | internal/taskqueue/worker.go:283-308 | what is read from a stored list is one action per object entry, in sequence, each with the stored type, order and parameters, a missing or mistyped part being empty or zero |
| Actions.SuccessCount | internal/taskqueue/worker.go:230-246 | the number of successes equals the number of actions run if and only if none failed |
| Actions.FailedRunCount | internal/taskqueue/worker.go:230-246 | a sequence stopped by a failure ran exactly one action more than it completed, and the last one failed |
| Tasks.TaskObject.MarkClaimed | internal/taskqueue/worker.go:182-185 | the in-place claim changes phase, claimedBy and claimedAt and nothing else |
| Tasks.TaskObject.MarkOutcome | internal/taskqueue/worker.go:327-350 | the in-place report writes the verdict in phase and result, completedAt, actionsCompleted, the last message, and the executor's error before the result's, and keeps the claim fields |
| Tasks.TaskObject.MarkExpired | internal/taskqueue/janitor.go:209-214 | the in-place expiry writes phase, completedAt and result and keeps the claim fields |
| ClaimExclusivity.AtMostOneClaim | internal/taskqueue/worker.go:177-206 | in every run at most one claim is committed per task, whatever the workers, duplicate watches, stale events and reused names |
| ClaimExclusivity.PendingOnlyAtBirth | internal/taskqueue/worker.go:149-159 | the only Pending version of a task is the one it was created with: no committed write returns it to Pending |
| ClaimExclusivity.OneRunnerPerTask | internal/taskqueue/worker.go:204-246 | no executor call precedes the committed claim of its own attempt, and all calls for a task are made by one attempt |
| Executions.RunsOnceInOrder | internal/taskqueue/worker.go:205-246 | at every moment, whatever the phase and with names reused, what was ever executed for a task is a prefix of one order-sorted permutation of its action list, run once, by one attempt, up to the first call that returned an error or the status "failed" |
| Executions.RecommendedRunInOrder | internal/taskqueue/worker.go:205-246 | for a task published from a detection that is a prefix of an order-sorted permutation of the recommended actions |
| Executions.OnlySuccessGoesOn | internal/taskqueue/worker.go:234-246 | in every run an executor call that is followed by another of its attempt or for its task returned no error and did not have the status "failed" |
| TaskLifecycle.PhaseSafety | internal/taskqueue/janitor.go:155-239 | every committed report is by the unique claimer and moves Running or Expired to Completed or Failed; every expiry ends Running only, more than ActiveDeadline - 1s after the claim; every delete removes a terminal task |
| TaskLifecycle.PhasesMoveForward | internal/taskqueue/worker.go:321-352 | over all versions a task ever had its phase only moves from unset to Running, from there to a terminal phase, and from Expired to Completed or Failed, which are never left |
| TaskLifecycle.ExpiredAndReportedOnce | internal/taskqueue/janitor.go:205-224 | a task expires at most once and is reported at most once |
| TaskLifecycle.ClaimFieldsWrittenOnce | internal/taskqueue/worker.go:181-185 | a Pending version has no claim fields, and all later versions name the worker and the second of one committed claim |
| TaskLifecycle.OutcomesAreTrue | internal/taskqueue/worker.go:205-249 | Completed means the claimer ran every action in order, no call returned an error or the status "failed", and actionsCompleted is their number; Failed means exactly actionsCompleted + 1 were run, only the last of which did; the result tells which, with the last call's message and error; also when the write landed over Expired |
| NameReuse.ReportHitsOwnTaskIff | internal/taskqueue/worker.go:312-358 | when names are reused, a committed report is for a task its attempt claimed if and only if the object re-read by name has the uid of the claimed one |
| NameReuse.ReportOverwritesExpiredIff | internal/taskqueue/worker.go:321-352 | a committed report overwrites Expired if and only if the object as re-read was Expired |
| NameReuse.DeleteOfListedIsTerminal | internal/taskqueue/janitor.go:227-239 | a delete that removes the very task the janitor listed removes a terminal task |
| FailingRuns.DeleteCanHitPending | internal/taskqueue/janitor.go:227-239 | without trailing retention, for every scene of two resources and every time after the retention of the first task: a reachable run of the pipeline in which a janitor deletes the second resource's Pending task, which took the name it had listed |
| FailingRuns.ReportCanHitUnclaimed | internal/taskqueue/worker.go:321-352 | without trailing retention, a reachable run of the pipeline in which a late report completes a second resource's task that nobody claimed |
| FailingRuns.ExpiredCanBeOverwritten | internal/taskqueue/worker.go:321-352 | for every configuration, every published action that runs and succeeds and every delay beyond the deadline, a reachable run of the pipeline in which a report turns Expired into Completed |
| StampedNames.GeneratedNamesAreFresh | internal/taskqueue/publisher.go:64-68 | if retention is at least a second and the longest create call, no generated name is used twice in any run, every committed write is lawful and every final status true |
| FailingRuns.NamesAreFreshIff | internal/taskqueue/janitor.go:170-189 | without trailing retention, no generated name is used twice in any run of the pipeline with create calls of bounded length if and only if retention plus a nanosecond is at least a second and that bound |
| FailingRuns.ShortRetentionReusesNames | internal/taskqueue/publisher.go:64-68 | with a shorter retention there is a reachable run of the pipeline whose generated names repeat |
| StampedNames.DefaultsAreFresh | internal/config/config.go:516-518 | the default retention allows create calls of 59 minutes |
| StampedNames.DeletedIsOld | internal/taskqueue/janitor.go:170-189 | a janitor deletes no task younger than the retention, up to the second its creation is rounded to |
| Endings.EndingsAreTrue | internal/taskqueue/worker.go:327-350 | in every run, names reused or not, a Completed version says success and a Failed or Expired one failure, each dated by a logged report or expiry of its task; no other version has a result |
| Endings.FinishedIsRetained | internal/taskqueue/janitor.go:170-189 | under fresh names no task is deleted before the retention is over, counted from a logged report or expiry of it, up to the second that stamps round off |
| Worker.ClaimAndExecute | internal/taskqueue/worker.go:177-262 | under arbitrary interference the goroutine takes only steps of the queue machine, and ends either without the claim or having run the sorted action list up to its first failure |
| Worker.ClaimTask | internal/taskqueue/worker.go:181-211 | the claim is a versioned status update of the watch event's object, and only its success leads to execution |
| Worker.RunActions | internal/taskqueue/worker.go:213-246 | the loop makes the executor calls in order and stops after the first that returns an error or the status "failed"; overallOK says that none did, completed how many came before |
| Worker.UpdateTaskStatus | internal/taskqueue/worker.go:312-358 | the run grows by the read of the task by name and, if it is there, by one status update, at a time between the two calls; what is sent is the object as re-read with the verdict, the count, the time, the last message and the error as its status; if it is gone nothing is sent |
| Worker.SendReport | internal/taskqueue/worker.go:321-358 | the one update sent is the re-read object with its status rewritten, and the store becomes what the server makes of that update |
| Janitor.FindLastTerminal | internal/taskqueue/janitor.go:70-90 | the first loop computes the newest terminal instant of the listing, or zero without trailing retention |
| Janitor.LastTerminalIsMax | internal/taskqueue/janitor.go:70-90 | that instant bounds every terminal task of the listing and is attained |
| Janitor.ExpireTask | internal/taskqueue/janitor.go:205-214 | the expiry request keeps the listed object's version and claim fields |
| Janitor.Sweep | internal/taskqueue/janitor.go:92-144 | the second loop requests exactly the due expiries and deletions in list order, the five gauges are the phase counts afterwards, and gauges plus deletions equal the listed tasks of a known phase |
| Janitor.TrailingWindow | internal/taskqueue/janitor.go:170-179 | with trailing retention the terminal tasks kept are exactly those within it of the newest, and a newest one is kept |
| Janitor.RetentionWindow | internal/taskqueue/janitor.go:181-189 | without trailing retention the terminal tasks kept are exactly those that ended, or without a time of completion were created, at most the retention period ago |
| Janitor.ExpiresIff | internal/taskqueue/janitor.go:108-114 | a name is among the expiries if and only if a listed task of it is Running and was claimed, as far as stamps tell, more than ActiveDeadline ago |
| Janitor.GaugesCountRemainder | internal/taskqueue/janitor.go:92-144 | the five gauges are the numbers of tasks in each phase in the listing as the pass leaves it |
| Janitor.TrailingSweepSettlesIff | internal/taskqueue/janitor.go:92-144 | after a pass, its expiries included, the next pass deletes nothing if and only if every expiry is stamped within the retention of everything terminal that was left |
| Janitor.TrailingSweepSettles | internal/taskqueue/janitor.go:92-144 | a pass over a listing without stuck tasks leaves nothing for the next pass to delete, and without running tasks nothing to expire |
| Janitor.SweepCanUnsettle | internal/taskqueue/janitor.go:108-114 | a pass that keeps one task and expires another, after which the next pass deletes the one it kept |
| Janitor.ExpiriesAreSteps | internal/taskqueue/janitor.go:108-114 | a requested expiry is the queue's Expire step, which does nothing for any other listed task |
| Janitor.DeletionsAreSteps | internal/taskqueue/janitor.go:115-137 | a requested deletion is the queue's DeleteTask step, which does nothing for any other listed task, whatever reference it is given |
| Janitor.DeletionsAreTheRest | internal/taskqueue/janitor.go:115-137 | a listed task survives if and only if its name is not among the deletions |
| Janitor.ReferenceIsLastTerminal | internal/taskqueue/janitor.go:70-90 | the instant does not depend on the order in which the server lists the tasks |
| Naming.SanitizeShape | internal/taskqueue/publisher.go:46-58 | a sanitized text is nonempty, has only lower-case letters, digits, dots and dashes, and no dash at either end |
| Naming.SanitizeIdempotent | internal/taskqueue/publisher.go:50-58 | sanitizing twice is sanitizing once |
| Naming.SanitizeKeeps | internal/taskqueue/publisher.go:50-58 | a sanitized text is a stretch of the original, lower-cased with every other character replaced by a dash, between runs of characters that become dashes; "unknown" if nothing is left |
| Naming.SanitizeFixes | internal/taskqueue/publisher.go:50-58 | an allowed, nonempty text without dashes at its ends is its own sanitized form |
| Naming.SameNameIff | internal/taskqueue/publisher.go:64-68 | two generated task names are equal if and only if they carry the same millisecond and the same joined sanitized scenario and resource |
| Naming.DecimalInjective | internal/taskqueue/publisher.go:64-68 | different numbers are printed differently |
| Naming.DecimalReadsBack | internal/taskqueue/publisher.go:64-68 | the printed digits read back as the number |
| Naming.TaskNameValidIff | internal/taskqueue/publisher.go:48-68 | a generated name is a valid subdomain name if and only if it has at most 253 characters and every dot of the two parts stands between letters or digits |
| Naming.SanitizedNameCanBeInvalid | internal/taskqueue/publisher.go:48-58 | every task for a resource whose name ends in a dot gets an invalid name, whatever the scenario and the time |
| Detection.EmissionSound | internal/detection/engine.go:242-297 | every emission counts exactly the threshold, carries the window's start, and is witnessed by that many distinct matches of its key, the last being the emitting one, all inside the window; it names the scenario and resource of that match and recommends the scenario's actions |
| Detection.CounterWitnessed | internal/detection/engine.go:242-268 | while the threshold is not met the counter is below it and counts distinct matches of the key inside the window |
| Detection.Debounce | internal/detection/engine.go:252-257 | between two emissions for one key there is a cleanup that found it last detected before the expiration |
| Detection.CleanupForgets | internal/detection/engine.go:486-501 | a cleanup keeps exactly the keys whose latest match is not before the expiration, their threshold met or not |
| Detection.PersistentFailureReportedOnce | internal/detection/engine.go:253-257 | a failure that keeps matching with pauses up to the expiration, less the lag of its timestamps, is reported once |
| Detection.LateFailureReportedAgain | internal/detection/engine.go:486-494 | for every lag, expiration and threshold, and every gap beyond the expiration less the lag, a run with that lag and those gaps in which the failure is reported twice |
| Detection.ReportedOnceIff | internal/detection/engine.go:253-257 | in all runs with that lag and those gaps the failure is reported at most once if and only if the gap is at most the expiration less the lag |
| Detection.SlidingWindowGuarantee | internal/detection/engine.go:236-300 | max(count, 2 * count - 2) matches of a key not yet met within one window length force an emission by the last of them |
| Detection.SlidingWindowTight | internal/detection/engine.go:259-266 | for every count of at least 3 there is a run with 2 * count - 3 such matches and no emission |
| Detection.NonInterference | internal/detection/engine.go:236-240 | dropping the matches of other keys from an interleaved run changes neither a key's state nor what its next match emits |
| Detection.KeyView | internal/detection/engine.go:451-501 | a key's stored state is the fold of its own matches and the cleanups |
| DetectionEngine.Engine.HandleMatch | internal/detection/engine.go:236-300 | mutating the shared state in place equals the pure step, and sends exactly the result it emits, with the scenario's name, severity and actions and the input's resource |
| DetectionEngine.Engine.ProcessInput | internal/detection/engine.go:152-183 | an input is the sequence of the matches of the scenarios that match it, errors being skipped, and sends exactly the results those matches emit, in that order |
| DetectionEngine.SentIsEmitted | internal/detection/engine.go:279-297 | over a run what is sent is, event by event, what the detection theorems call emitted |
| DetectionEngine.Engine.Cleanup | internal/detection/engine.go:486-501 | the loop deletes exactly the states last detected before the expiration and returns their number |
| DetectionEngine.OneMatchPerKey | internal/detection/engine.go:160-182 | at most one scenario of an input touches a key, and it sees the key as it was before the input |
| DetectionEngine.IterationOrderIrrelevant | internal/detection/engine.go:160-169 | the order in which the scenario map is iterated matters neither to the states left behind nor to the multiset of results sent |
| Remediation.CooldownHolds | internal/remediation/controller.go:139-177 | two remediations of one key are a cooldown apart, from the end of one to the start of the next, whatever cleanups forgot in between |
| Remediation.RemediationRate | internal/remediation/controller.go:173-177 | any interval of length L contains at most 1 + L / cooldown starts for one key |
| Remediation.RateIsMet | internal/remediation/controller.go:139-177 | the bound is met: for every configuration and every number of remediations up to DefaultMaxRetries, a run with as many starts as the bound allows |
| Remediation.CountIsExact | internal/remediation/controller.go:150-177 | the stored count is the number of remediations since the key was last forgotten, at most the maximum |
| Remediation.RetryBudget | internal/remediation/controller.go:151-164 | no stored count ever exceeds DefaultMaxRetries |
| Remediation.OnlyCovered | internal/remediation/controller.go:114-125 | only a covered result is remediated, escalated or skipped for a cooldown, and an uncovered one changes no state |
| Remediation.LatestIsStored | internal/remediation/controller.go:173-177 | a state remembers the time, the status and the end of the cooldown of the latest remediation since the key was forgotten |
| Remediation.CleanupForgets | internal/remediation/controller.go:488-504 | a cleanup keeps exactly the keys remediated within half an hour or still cooling |
| Remediation.BudgetForcesPause | internal/remediation/controller.go:488-504 | among any DefaultMaxRetries + 1 remediations of a key two successive ones are more than 30 minutes apart |
| Remediation.EscalatesAfterBudget | internal/remediation/controller.go:151-161 | an escalation follows exactly DefaultMaxRetries remediations since the key was last forgotten |
| Remediation.EscalationIsReached | internal/remediation/controller.go:151-161 | for every configuration a run of DefaultMaxRetries + 1 results of one key, each as its cooldown ends, the last of which escalates |
| Remediation.EscalatesOnce | internal/remediation/controller.go:151-164 | after an escalation there is neither another one nor a remediation until a cleanup forgets the key |
| RemediationController.Controller.ProcessResult | internal/remediation/controller.go:106-178 | an uncovered result changes nothing and sends, publishes and runs nothing; for a covered one the in-place update equals the pure step, and what is published, run, sent and recorded as status is what the decision calls for |
| RemediationController.Controller.ProcessKey | internal/remediation/controller.go:127-178 | a leader publishes a result with actions, a standalone controller runs the sorted actions to the first failure and sends a notice for each, cooling and escalating send their one notice, and an exhausted key nothing |
| RemediationController.Controller.PublishTask | internal/remediation/controller.go:191-228 | a result without actions publishes nothing, and only a failed create marks the state |
| RemediationController.Controller.ExecuteActions | internal/remediation/controller.go:231-262 | the shared slice is sorted in place keeping its multiset, run up to the first failure, and the state keeps the last status |
| RemediationController.Controller.Cleanup | internal/remediation/controller.go:488-504 | the loop deletes exactly the forgettable states and returns their number |
| Pipeline.CreationsAreSpaced | internal/remediation/controller.go:166-177 | tasks created for one (scenario, detected resource) key are at least a cooldown apart in every interleaving |
| Pipeline.ExecutionRate | internal/remediation/controller.go:166-177 | the action sequences ever started for the tasks one key got within a span L number at most 1 + L / cooldown |
| Pipeline.RecommendedActionsRun | internal/taskqueue/publisher.go:70-89 | what is ever executed for a task is a prefix of one order-sorted permutation of the actions its detection recommended, run once, by one goroutine, up to the first failure, under any interference |
| Pipeline.TasksStemFromDetections | internal/taskqueue/publisher.go:60-128 | every task stems from a covered detection and a later create call under its name, and stores that detection's scenario, that call's target and a sorted permutation of the recommended actions under the detection's key |
| Pipeline.QueueRun | internal/remediation/controller.go:215-221 | what the queue sees of a composed run is a run of the queue machine, so all queue theorems apply |
| CacheProperties.EntryLimit | internal/cache/cache.go:411-427 | in every reachable state the keys are distinct and the entries at most MaxEntries |
| CacheProperties.InsertionEvictsMinimally | internal/cache/cache.go:411-457 | an insertion evicts the shortest end of the list that makes both limits fit, and counts it |
| CacheProperties.KeepCountIsMaximal | internal/cache/cache.go:411-427 | one entry more than eviction leaves would break a limit |
| CacheProperties.InsertionByteLimit | internal/cache/cache.go:348-382 | after an insertion the bytes are within MaxSize, or the new entry is alone |
| CacheProperties.ReduceByteLimit | internal/cache/cache.go:670-688 | shrinking by 0 to 100 percent ends within the new limit |
| CacheProperties.ReduceTakesPercent | internal/cache/cache.go:670-688 | shrinking takes the given hundredths off the limit, truncated toward zero, and evicts the fewest entries that then fit |
| CacheReads.ReadsLastWrite | internal/cache/cache.go:244-297 | after any run, under either policy, a read gives a value if and only if the key is present and not older than MaxAge, counts as a hit exactly then and as a miss otherwise, and gives the value last written |
| CacheReads.StoredIsLastWritten | internal/cache/cache.go:312-383 | in every run an item has the value and size last written to its key, and its age counts from the write that created it, since when the key was always present |
| CacheReads.SetThenGet | internal/cache/cache.go:244-383 | a read right after a write gives the value written if and only if the item has not expired |
| CacheReads.StepItems | internal/cache/cache.go:244-713 | only expiry, deletion, clearing, eviction for a new key and shrinking lose an item, and only a write of its key changes it |
| CacheReads.StepCounts | internal/cache/cache.go:244-713 | only reads count hits and misses, only insertions and shrinking count evictions, and clearing keeps the statistics |
| CacheProperties.StepWithinLimitIff | internal/cache/cache.go:312-383 | one operation keeps a cache within its byte limit if and only if it is not a Set that does not fit |
| CacheProperties.ByteLimitIff | internal/cache/cache.go:312-383 | a run keeps the byte limit throughout if and only if each of its Sets fits when called |
| CacheProperties.UpdateCanExceedLimit | internal/cache/cache.go:321-346 | a run of two Sets of one key that ends over the byte limit |
| CacheProperties.EntriesConserved | internal/cache/cache.go:411-489 | new-key insertions equal the entries present plus evictions, deletions, expiries and cleared entries |
| CacheProperties.UnexpiredKeeps | internal/cache/cache.go:504-540 | Cleanup keeps exactly the entries not older than MaxAge |
| CacheProperties.UnexpiredInOrder | internal/cache/cache.go:504-540 | and keeps them in their order |
| CacheProperties.ListIsInOrder | internal/cache/cache.go:283-292 | under a monotone clock the LRU list is sorted by last use, the FIFO list by creation |
| CacheProperties.InsertionEvictsLeastRecent | internal/cache/cache.go:434-457 | every entry an insertion evicts is at most as recently used, or at least as old, as every entry it keeps |
| CacheInclusion.LruInclusion | internal/cache/cache.go:244-457 | on the same trace, without expiry or byte pressure, a smaller LRU cache holds a subset of a larger one's items in the same relative order, at most n - m fewer, and never has more hits |
| CacheInclusion.FifoNotIncluded | internal/cache/cache.go:436-446 | FIFO has no such property: a trace after which the smaller cache holds a key the larger has lost |
| CacheInclusion.LruBytesNotIncluded | internal/cache/cache.go:411-427 | nor has LRU once the byte limit binds: a trace after which only the smaller cache holds a key |
| CacheInclusion.LruAgeNotIncluded | internal/cache/cache.go:321-346 | nor with expiring entries, whatever the maximum age: an update keeps the creation time, so the larger cache can lose a key that the smaller one created anew |
| BoundedCache.BoundedCache.Get | internal/cache/cache.go:244-297 | map and list in place refine the sequence: a miss, an expiry or a hit with the entry moved to the front under LRU; the value of the present, unexpired element is returned |
| BoundedCache.BoundedCache.Set | internal/cache/cache.go:312-383 | refines the sequence's Set, for a present and for a new key |
| BoundedCache.BoundedCache.Overwrite | internal/cache/cache.go:321-346 | an update changes value, size and access time of the present entry, moves it under LRU, and evicts nothing |
| BoundedCache.BoundedCache.EvictIfNeeded | internal/cache/cache.go:411-427 | the two loops together keep exactly the specified end of the list and end |
| BoundedCache.BoundedCache.EvictOne | internal/cache/cache.go:434-457 | removes the last entry under LRU, the first under FIFO, and counts it; does nothing on an empty list |
| BoundedCache.BoundedCache.RemoveElement | internal/cache/cache.go:471-489 | one element leaves the map, the list and the size sum together |
| BoundedCache.BoundedCache.Delete | internal/cache/cache.go:389-398 | refines the sequence's removal of one key |
| BoundedCache.BoundedCache.Cleanup | internal/cache/cache.go:504-540 | the traversal that removes while walking keeps exactly the unexpired entries and returns how many it removed |
| BoundedCache.BoundedCache.ReduceSize | internal/cache/cache.go:670-688 | refines the sequence's shrinking, with the quotient truncated toward zero |
| BoundedCache.BoundedCache.Clear | internal/cache/cache.go:696-713 | empties map and list and keeps the counters |
| BoundedCache.BoundedCache.Size | internal/cache/cache.go:550-555 | the running size is the sum of the sizes stored |
| BoundedCache.BoundedCache.Len | internal/cache/cache.go:563-571 | the map has as many keys as the list has elements |
| BoundedCache.Rotate | internal/cache/cache.go:283-292 | moving an element to the front keeps map and list linked |
| BoundedCache.Unlink | internal/cache/cache.go:471-489 | taking one element out of both keeps map and list linked |

## Left out

- Leader election: one leader per run is assumed; its in-memory state is lost on failover, so nothing is claimed across leaders.
- Clocks: one shared monotone clock; skew between pods is not modelled.
- Ambiguous errors of the API server: only the publisher's create may take effect with its answer lost; for the other calls an error means no effect.
- The worker's watch loop: reconnecting, back-off and shutdown are not modelled; a watch may deliver any committed version at any time.
- The spec's timeout and cancelled contexts: they only change what the executor answers, and its answers are arbitrary.
- A task list that is published with fields this model drops (severity, scenario name, detection id, maxRetries, conditions of an action): they are not read by the worker.
- The printed form of a parameter value, and Unicode lower-casing: parameters of the model.
- Action handlers, the executor and its rollback, and owner resolution: the executor is an oracle and the resolved target an arbitrary part of the spec.
- CEL matching and scenario loading: whether a scenario matches an input is an arbitrary verdict.
- Policy checking: a boolean per result.
- Mutexes: a match, a result, a cleanup and a cache operation are atomic.
- Delivery on full channels: sending is modelled as the attempt to send.
- Generated result identifiers, log lines, events, metrics other than the janitor's gauges.
- 64-bit overflow of durations, sizes and counters.
- Fewer than one allowed cache entry: the source's count loop does not end then, so every cache statement is about MaxEntries of at least 1.
- HitRate and UsagePercent of the cache: floating-point presentation of two counters.
- TaskLifecycle.PhaseSafety: assumes that no task name is used twice, because without it the property is false, as `NameReuse` shows; `StampedNames` gives the retention under which generated names meet it.
- Requests of the janitor that the server refuses: the statements about its next pass assume that they were granted.
- Worker.ClaimAndExecute: says which steps are taken, not that the server accepts the report, which another writer can prevent.
