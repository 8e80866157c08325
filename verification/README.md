# Verified model of the scheduler, the ledger client and the deployment checks

This project models five parts of the Money Flow repository in Dafny and proves properties of them over every
input, every run and every interleaving. `dafny verify dfyconfig.toml` checks all of it.

**Concurrent ownership in the end-to-end scheduler.** `ActiveJob` is the job a worker capsule runs and the race
between activating it and asking it to stop. `AdaptiveWorkerPool` starts cold reserve workers before their capacity is
exposed and wakes the workers that wait. `AdaptiveCapacity` is the controller whose counters summarise its own
decision log. `BrowserPool` owns the browser engines of a capsule. Each is a class whose methods are proved against
functions on its state, and a machine whose steps are the lock-held pieces of those methods; a run is any sequence of
steps, and a step that cannot happen yet leaves the machine alone, so nothing is assumed about the schedule.

**Fail-closed aggregation.** `Reports` is the reporter's tree of suites and the order in which both parsers go through
it. `StrictReport` is the parser of one job's report, `LenientReport` the benchmark's parser and the proof of how the
first refines the second. `Aggregation` holds the parity checks of a run, `Publication` the payload with its counts, and
`Staging` what happens to the staged publications on every path, and `PublicationTransaction` the commit of several of
them with its rollback. `BenchmarkAcceptance` decides on benchmark runs. `Walks`, `Sorting` and `Counting` are the
general theories these use: walking a list until a step fails, stable sorting, and counting places in lists of lists.

**One-time WebSocket tickets.** `WsTickets` is the used-ticket table with its purge, first with the clock read and the
transaction as one step, then as two.

**Client state and text.** `LedgerRefresh` (overlapping refreshes), `ApiClient` (retry with one shared session refresh),
`LedgerPages` (pagination), `LedgerOrder` (the ledger comparator), `DecimalInput` (grouped numbers and the caret),
`TossDuplicates` (duplicate candidates).

**Deployment files.** `EnvFile` (parse, write and merge environment files) and `SmtpRoute` (validate and normalise the
mail route).

## Where the code and the expectation part

Each is kept as the code has it; a lemma gives a failing case and another says exactly when the code is right.

- The strict report parser lets a test's duration be an explicit null, and the benchmark parser does not. So not every
  report the first accepts is accepted by the second: it is exactly when no duration is null
  (`LenientReport.NullDurationSplitsTheParsers`, `LenientReport.StrictRefinesLenient`).
- Preparing the screenshots drops its stage on an `OSError` only, so a refused payload leaves a stage behind
  (`Staging.PreparedAloneItLeaks`, `Staging.LeaksExactly`). After the checks of the aggregation that happens exactly when
  the screenshots were staged and copied and some project with a test has no job or its jobs declare two profiles
  (`Staging.CheckedLeaksExactly`): it does for a manifest whose job lists a test under another project
  (`Staging.CheckedRunLeaks`), and never for a manifest whose ids stand for records (`Staging.WellFormedNeverLeaks`).
- A used-ticket row is purged by its expiry, so a validation that reads the clock in time but commits late can accept a
  ticket a second time (`WsTickets.LateCommitAcceptsTwice`). It happens exactly when a commit that purges the row falls
  between an acceptance and a later commit of the ticket (`WsTickets.AcceptedTwiceExactly`), and so never when
  validations commit before their ticket expires (`WsTickets.PromptCommitsAcceptOnce`).
- The ledger comparator is not transitive when the collation ties two different date texts, and in either direction it is a
  preorder exactly when it ties none (`LedgerOrder.TiedDatesAreIntransitive`, `LedgerOrder.PreorderExactlyWhenStrict`).
- A logout during a refresh leaves the loading counter too low until no non-silent refresh is unfinished; when another
  refresh has started in between, the flag is down while that one runs (`LedgerRefresh.LogoutInterrupts`). In every run the
  counter is exact exactly when each such logout was followed by a moment without an unfinished non-silent refresh
  (`LedgerRefresh.ExactExactly`, `LedgerRefresh.ExactUnlessLogoutInterrupts`, `LedgerRefresh.IdleIsExact`).
- Values parsed from an environment file need not survive being written and parsed again
  (`EnvFile.ParsedValuesCanBeUnstable`, `EnvFile.RoundTripExactly`).
- In production a blocked host is recognised by its name, alone or with a port; a listed address with colons only alone.
  So the loopback address in brackets with a port counts as an external host (`SmtpRoute.BracketedLoopbackIsExternal`,
  `SmtpRoute.BlockedExactly`).

Three checks never decide:

- the benchmark's check for two consecutive green runs, because every run has to be green
  (`BenchmarkAcceptance.JudgedByDurations`);
- the test parity of a whole run, which for a covered manifest follows from the parity of its jobs
  (`Aggregation.ParityFollows`, `Aggregation.CheckedExactly`);
- the check for comment lines in an environment file, because no key starts with `#` (`EnvFile.LineDefinesExactly`).

## Model

| member | source | states |
|---|---|---|
| `ActiveJob.ActiveJobController.Activate` | scripts/e2e_scheduler/active_job.py:36-42 | refuses exactly when a job is active, changing nothing; otherwise the job becomes active and is asked to stop if a stop was requested |
| `ActiveJob.ActiveJobController.Deactivate` | scripts/e2e_scheduler/active_job.py:44-47 | only the active process itself is released |
| `ActiveJob.ActiveJobController.RequestStop` | scripts/e2e_scheduler/active_job.py:49-53 | the event is set and the active process, if any, has been asked |
| `ActiveJob.RunInv` | scripts/e2e_scheduler/active_job.py:36-53 | invariant of every interleaving in which the event may be set between the two effects of an activation |
| `ActiveJob.UnaskedActive` | scripts/e2e_scheduler/active_job.py:36-53 | an active process nobody asked to stop: no stop was requested, or a request is between event and lock, or the process is just being activated |
| `ActiveJob.ReturnedStopReachesEveryProcess` | scripts/e2e_scheduler/active_job.py:36-53 | once one stop request has returned, every process active then or later has been asked to stop when its activation ends |
| `ActiveJob.OwnedUntilDeactivated` | scripts/e2e_scheduler/active_job.py:36-47 | an activated process stays the active one until its own deactivation |
| `ActiveJob.NoOverlap` | scripts/e2e_scheduler/active_job.py:36-47 | between two activations the first process was deactivated |
| `ActiveJob.ActiveExactly` | scripts/e2e_scheduler/active_job.py:36-47 | a process is active exactly when it was activated and has not been deactivated since |
| `ActiveJob.RefusedExactly` | scripts/e2e_scheduler/active_job.py:36-42 | with the lock free an activation is refused exactly when some process activated earlier has not been deactivated since; otherwise its process is active |
| `ActiveJob.DeactivateReleases` | scripts/e2e_scheduler/active_job.py:44-47 | a deactivation releases its own process and no other |
| `ActiveJob.CheckingExactly` | scripts/e2e_scheduler/active_job.py:36-42 | the lock is held exactly from an activation to its check of the event |
| `ActiveJob.AskedExactly` | scripts/e2e_scheduler/active_job.py:36-53 | a process has been asked to stop exactly by the end of its activation after a stop request, or by a stop request that found it active |
| `ActiveJob.CallsExactly` | scripts/e2e_scheduler/active_job.py:49-53 | a stop request has set the event exactly after its first step, and has returned exactly after its second step with the lock free |
| `AdaptiveWorkerPool.AdaptiveWorkerPool.AssignmentCapacity` | scripts/e2e_scheduler/adaptive_worker_pool.py:49-79 | the loop starts reserves in capacity order until the demand is met, none is left or one fails; it terminates, and says what it started, woke and returns |
| `AdaptiveWorkerPool.AdaptiveWorkerPool.StopWaiters` | scripts/e2e_scheduler/adaptive_worker_pool.py:101-104 | stops the pool and wakes the waiters, and nothing else |
| `AdaptiveWorkerPool.AdaptiveWorkerPool.WorkerIsEnabled` | scripts/e2e_scheduler/adaptive_worker_pool.py:81-84 | a worker is enabled when it is active and among the first of the capacity order |
| `AdaptiveWorkerPool.RunnerLayout` | scripts/e2e_scheduler/worker_affinity.py:71-82 | the order built from distinct warm and reserve workers is distinct and its tail is the reserves |
| `AdaptiveWorkerPool.WarmWorkersLead` | scripts/e2e_scheduler/worker_affinity.py:71-82 | the leading workers of that order are exactly the warm ones |
| `AdaptiveWorkerPool.GrowthIsPrefix` | scripts/e2e_scheduler/adaptive_worker_pool.py:49-79 | one call from an active prefix ends at a prefix and started exactly the workers in between, in order |
| `AdaptiveWorkerPool.ReachStopsAtFailure` | scripts/e2e_scheduler/adaptive_worker_pool.py:52-76 | growth stops short of the demand only at a worker that fails to start |
| `AdaptiveWorkerPool.RunAtPrefix` | scripts/e2e_scheduler/adaptive_worker_pool.py:49-104 | in every run the active set is a prefix of the order and the starts are its reserves, each once and in order |
| `AdaptiveWorkerPool.PoolGrows` | scripts/e2e_scheduler/adaptive_worker_pool.py:49-104 | the active set and the list of starts only grow |
| `AdaptiveWorkerPool.CapacityCallOutcome` | scripts/e2e_scheduler/adaptive_worker_pool.py:49-79 | a call raises exactly when a worker it needed fails; otherwise it returns min(demand, workers), all backed by active workers |
| `AdaptiveWorkerPool.ReturnedCapacityIsBacked` | scripts/e2e_scheduler/adaptive_worker_pool.py:79-84 | whatever happens after a call returned c, the workers that `worker_is_enabled` accepts at c are exactly the first c |
| `AdaptiveWorkerPool.WaitersSound` | scripts/e2e_scheduler/adaptive_worker_pool.py:95-104 | a blocked waiter that was not notified has an inactive worker and a running pool; a waiter that returned told the truth |
| `AdaptiveWorkerPool.NoLostWakeup` | scripts/e2e_scheduler/adaptive_worker_pool.py:95-104 | a waiter whose worker is active or whose pool is stopped has been notified and returns when it runs |
| `AdaptiveWorkerPool.WaitersExactly` | scripts/e2e_scheduler/adaptive_worker_pool.py:49-104 | what every step of every run does to every wait: who looks, who returns with what, who is notified, and when the pool is stopped |
| `AdaptiveWorkerPool.LeadingExactly` | scripts/e2e_scheduler/adaptive_worker_pool.py:83 | which workers a slice of the capacity order holds, also for a negative bound |
| `AdaptiveCapacity.CreateController` | scripts/e2e_scheduler/adaptive.py:33-62 | which configurations are refused and why, and the initial state otherwise |
| `AdaptiveCapacity.AdaptiveCapacityController.AssignmentCapacity` | scripts/e2e_scheduler/adaptive.py:75-129 | the state after a call: not due, sampled, sampler error or other exception |
| `AdaptiveCapacity.AdaptiveCapacityController.Record` | scripts/e2e_scheduler/adaptive.py:156-174 | one entry is appended and the sampling time moves |
| `AdaptiveCapacity.AdaptiveCapacityController.RecordWorkerCrash` | scripts/e2e_scheduler/adaptive.py:146-149 | one more pending crash, and expansion is blocked |
| `AdaptiveCapacity.AdaptiveCapacityController.RecordUnexpectedFailure` | scripts/e2e_scheduler/adaptive.py:151-154 | one more pending failure, and expansion is blocked |
| `AdaptiveCapacity.RunInv` | scripts/e2e_scheduler/adaptive.py:54-174 | after any run every log entry follows from the entries before it, and the controller's fields are functions of the log |
| `AdaptiveCapacity.LogShape` | scripts/e2e_scheduler/adaptive.py:75-129 | entries chain, stay in bounds, move by at most one, lie an interval apart; at most one streak is nonzero |
| `AdaptiveCapacity.ExpansionIsEarned` | scripts/e2e_scheduler/adaptive.py:99-116 | the capacity grows only after three healthy samples in a row, a full cooldown after the last change, with no crash ever logged |
| `AdaptiveCapacity.GrowthDemandsAt` | scripts/e2e_scheduler/resources.py:77-120 | what the policy asked of any entry that raised the capacity |
| `AdaptiveCapacity.CapacityRule` | scripts/e2e_scheduler/resources.py:77-120 | every sample of every run gives up one worker, takes one more or changes nothing, and says why, exactly as thresholds, streaks, crashes and times in the log demand |
| `AdaptiveCapacity.CallLogs` | scripts/e2e_scheduler/adaptive.py:75-129 | which calls add an entry to the log, and the time, previous capacity and merged sample it holds |
| `AdaptiveCapacity.BlockedForGood` | scripts/e2e_scheduler/adaptive.py:99-100 | a blocked expansion stays blocked and the capacity never grows after it |
| `AdaptiveCapacity.CrashStopsGrowth` | scripts/e2e_scheduler/adaptive.py:146-154 | from the first recorded crash or failure on the capacity never grows |
| `AdaptiveCapacity.ReportsConserved` | scripts/e2e_scheduler/adaptive.py:85-128 | every crash or failure is counted in exactly one logged sample or still pending, also across sampler errors |
| `BrowserPool.BrowserServerPool.Retire` | scripts/e2e_scheduler/browser_pool.py:120-148 | the loop shared by `_retire_except` and `close`: what stays, what was closed and attempted in which order, which failure is reported |
| `BrowserPool.BrowserServerPool.RetireExcept` | scripts/e2e_scheduler/browser_pool.py:120-134 | all but one engine are retired |
| `BrowserPool.BrowserServerPool.Close` | scripts/e2e_scheduler/browser_pool.py:136-148 | all engines are closed |
| `BrowserPool.BrowserServerPool.EndpointFor` | scripts/e2e_scheduler/browser_pool.py:91-114 | reuse, start or failure, after retiring if asked |
| `BrowserPool.KeptExactly` | scripts/e2e_scheduler/browser_pool.py:120-148 | an engine is left exactly when it is the retained one or its close failed |
| `BrowserPool.KeptInOrder` | scripts/e2e_scheduler/browser_pool.py:120-148 | what is left keeps its acquisition order |
| `BrowserPool.RetiredExactly` | scripts/e2e_scheduler/browser_pool.py:120-148 | every engine but the retained one is tried, latest first; those whose close works leave, the rest stay in order, and the first failure met is reported |
| `BrowserPool.EndpointExactly` | scripts/e2e_scheduler/browser_pool.py:91-114 | a running engine is reused, any other is started and comes last, and a failed start or retirement starts nothing |
| `BrowserPool.RetiringEndpointLeavesOne` | scripts/e2e_scheduler/browser_pool.py:91-114 | a successful call with retiring leaves exactly its own engine, with the handle returned |
| `BrowserPool.CloseLeavesFailing` | scripts/e2e_scheduler/browser_pool.py:136-148 | `close` leaves exactly the failing engines and raises the failure of the latest acquired of them |
| `BrowserPool.CloseAttemptsAll` | scripts/e2e_scheduler/browser_pool.py:136-148 | `close` attempts every handle, latest first |
| `BrowserPool.OwnershipKept` | scripts/e2e_scheduler/browser_pool.py:91-148 | every operation keeps ownership exact |
| `BrowserPool.StartedHeldOrClosed` | scripts/e2e_scheduler/browser_pool.py:91-148 | in every run a started handle is in the pool or closed, never both, and closed at most once |
| `Reports.ForestVisited` | scripts/e2e_scheduler/aggregate_report.py:158-219 | the traversal reaches a spec exactly when it is nested somewhere in the tree |
| `Reports.Traversed` | scripts/e2e_scheduler/aggregate_report.py:158-219 | the traversal reaches every spec exactly once, a suite before its children and children in order, with the titles of the suites on the way |
| `StrictReport.OneTest` | scripts/e2e_scheduler/aggregate_report.py:182-236 | a test is taken exactly when it is of the job's project and a clean pass or skip, and its id goes to the list of all, and to that of the skipped, the timed or the unmeasured ones |
| `StrictReport.Collector.CollectTests` | scripts/e2e_scheduler/aggregate_report.py:158-219 | the recursion that appends to four lists ends where the walk over the specs of the tree ends, or with its error |
| `StrictReport.Collector.CollectSpec` | scripts/e2e_scheduler/aggregate_report.py:171-206 | the part of the recursion for one spec |
| `StrictReport.ParseJobReport` | scripts/e2e_scheduler/aggregate_report.py:100-147 | the parser computes its specification, errors included |
| `StrictReport.AcceptedExactly` | scripts/e2e_scheduler/aggregate_report.py:100-236 | a report is accepted exactly when it is valid and every test at any depth is in the job's file and project, clean, and reported as often as expected |
| `StrictReport.AcceptedContents` | scripts/e2e_scheduler/aggregate_report.py:123-147 | the ids in traversal order, the skipped ones, and every other test timed, with its seconds, or missing; complete exactly when none is missing |
| `StrictReport.CleanExactly` | scripts/e2e_scheduler/aggregate_report.py:222-236 | which tests are clean: one attempt that passed as expected, or skipped as expected with at most one |
| `StrictReport.TimedExactly` | scripts/e2e_scheduler/aggregate_report.py:194-206 | a clean pass is timed exactly when its attempt has a positive duration, and missing otherwise |
| `StrictReport.ValidExactly` | scripts/e2e_scheduler/aggregate_report.py:29-82 | which documents are valid: no retries, one attempt at most, durations absent, null or not negative |
| `StrictReport.RefusedFor` | scripts/e2e_scheduler/aggregate_report.py:100-236 | a refusal names the first check that fails; in the tree that of the first entry and test |
| `StrictReport.SkippedAreReported` | scripts/e2e_scheduler/aggregate_report.py:191-206 | skipped ids are among the reported ones, with repetitions, and the reported are the expected |
| `StrictReport.OneTestAccepted` | scripts/e2e_scheduler/aggregate_report.py:47-50 | a report with one passed test is accepted, also with a null duration |
| `LenientReport.Collector.Collect` | scripts/e2e_scheduler/benchmark_report.py:144-192 | the recursion that appends to five lists ends where its walk ends |
| `LenientReport.ParsePlaywrightInventory` | scripts/e2e_scheduler/benchmark_report.py:91-141 | the parser computes its specification, errors included |
| `LenientReport.AcceptedExactly` | scripts/e2e_scheduler/benchmark_report.py:91-141 | when a report is accepted, and otherwise the first check that fails |
| `LenientReport.ValidExactly` | scripts/e2e_scheduler/benchmark_report.py:18-67 | which documents are valid: retries of attempts are, null durations are not |
| `LenientReport.ClassifyExactly` | scripts/e2e_scheduler/benchmark_report.py:195-210 | which tests passed, were skipped or interrupted; all others failed |
| `LenientReport.InventoryTells` | scripts/e2e_scheduler/benchmark_report.py:91-141 | the sorted ids, the skipped ones, projects and times are those of all tests of the report, and the counts are those of the four classes |
| `LenientReport.OutcomesAddUp` | scripts/e2e_scheduler/benchmark_report.py:137-140 | passed, failed, skipped and interrupted add up to the tests |
| `LenientReport.StrictRefinesLenient` | scripts/e2e_scheduler/benchmark_report.py:32-35 | a strictly accepted report is accepted exactly when no duration is null, and then with the same ids and skipped ids up to order, none failed or interrupted, passed and skipped adding up |
| `LenientReport.NullDurationSplitsTheParsers` | scripts/e2e_scheduler/aggregate_report.py:47-50 | one passed test with a null duration is accepted strictly and refused leniently |
| `Walks.Simulation` | scripts/e2e_scheduler/benchmark_report.py:144-192 | a walk that can follow every step of another follows the whole walk |
| `Aggregation.ExpectedProfile` | scripts/e2e_scheduler/aggregate_report.py:150-155 | the one profile all tests of a job share |
| `Aggregation.JobAcceptedExactly` | scripts/e2e_scheduler/aggregate.py:225-276 | exactly when one job's result is taken |
| `Aggregation.ParsedJobIsSound` | scripts/e2e_scheduler/aggregate.py:225-266 | what a taken job is known to satisfy: ids, skipped ids, evidence, profile |
| `Aggregation.ParsedJobCarries` | scripts/e2e_scheduler/aggregate.py:225-276 | a taken job holds the ids and skipped ids of its report, its screenshots, and as many evidence names as files and as expected |
| `Aggregation.JobRefusedFor` | scripts/e2e_scheduler/aggregate.py:225-276 | a refused result is refused for the first check it fails |
| `Aggregation.ArtifactsRefusedFor` | scripts/e2e_scheduler/aggregate.py:245-276 | among the artifacts the first of screenshots and evidence that is missing, empty or not as expected |
| `Aggregation.ParsedJobsAreSound` | scripts/e2e_scheduler/aggregate.py:140-143 | the parsed jobs answer the results one by one, from jobs of the manifest |
| `Aggregation.CheckedCarries` | scripts/e2e_scheduler/aggregate.py:115-149 | the jobs a checked run hands on answer the results and hold what these and their reports hold |
| `Aggregation.CheckedRefusedFor` | scripts/e2e_scheduler/aggregate.py:115-161 | a refused run is refused for the first check that fails, or the first result not taken |
| `Aggregation.SameRecords` | scripts/e2e_scheduler/model.py:118-137 | lists of records with the same ids hold the same records when ids stand for records |
| `Aggregation.ExactlyOnce` | scripts/e2e_scheduler/aggregate.py:115-149 | when the checks pass every job is reported once and every test of the manifest exactly once |
| `Aggregation.ParityFollows` | scripts/e2e_scheduler/aggregate.py:144-149 | with a covered manifest the parity of the whole run follows from that of its jobs |
| `Aggregation.CheckedExactly` | scripts/e2e_scheduler/aggregate.py:115-161 | exactly when a run passes the checks |
| `Aggregation.SmallRunPasses` | scripts/e2e_scheduler/aggregate.py:115-161 | a run of one job with one test does, also when the job has its own record of the test |
| `Publication.BuildLegacyPayload` | scripts/e2e_scheduler/aggregate_publish.py:84-223 | the loop over the projects computes the rows, the totals and the id lists |
| `Publication.PayloadTells` | scripts/e2e_scheduler/aggregate_publish.py:84-223 | in the totals and in every row, each count is the number of ids or names at their places in the jobs, passed is the rest of the skipped, and the id lists hold every id of every job |
| `Publication.PayloadBlames` | scripts/e2e_scheduler/aggregate_publish.py:101-102 | a refusal names the first project whose profiles are not settled |
| `Publication.PublishedAsReported` | scripts/e2e_scheduler/aggregate.py:279-299 | after the checks the published jobs answer the results, with the ids of their reports, their names, profile and screenshots |
| `Publication.PayloadExactly` | scripts/e2e_scheduler/aggregate_publish.py:90-102 | the payload is refused exactly when some project has not one expected and one actual profile among its jobs |
| `Publication.SettledExactly` | scripts/e2e_scheduler/aggregate_publish.py:90-102 | once the results answer the jobs, that is decided by the manifest: a job for every project, and one declared profile |
| `Publication.CheckedPayloadExactly` | scripts/e2e_scheduler/aggregate.py:115-174 | after the checks of a run the payload exists exactly for such a manifest |
| `Publication.PayloadExists` | scripts/e2e_scheduler/aggregate_publish.py:101-102 | after the checks, with a well-formed manifest, that cannot happen |
| `Publication.TotalsBalance` | scripts/e2e_scheduler/aggregate_publish.py:177-200 | in the totals expected = actual = passed + skipped, and the evidence counts agree |
| `Publication.RowBalances` | scripts/e2e_scheduler/aggregate_publish.py:105-138 | the same in the row of every project |
| `Publication.RowsAddUp` | scripts/e2e_scheduler/aggregate_publish.py:89-138 | the rows add up to the totals, field by field, when every test and job is of a listed project |
| `Publication.IdListsAgree` | scripts/e2e_scheduler/aggregate_publish.py:201-213 | the sorted lists of expected and actual ids are the same list, and the skipped ids are among them |
| `Publication.CheckedRunBalances` | scripts/e2e_scheduler/aggregate.py:115-174 | a run that passes the checks publishes a payload with all of that |
| `Staging.StageStore.CopyScreenshots` | scripts/e2e_scheduler/aggregate_publish.py:71-73 | the stage holds the copies up to the first that fails |
| `Staging.StageStore.PrepareRun` | scripts/e2e_scheduler/aggregate_publish.py:52-81 | what staging the screenshots returns and leaves behind, for every failure: every screenshot of every job under its own name and nothing else, and the sorted names; refused for a collision exactly when two names are the same |
| `Staging.StageStore.PrepareUiuxEvidence` | scripts/e2e_scheduler/uiux_evidence_publication.py:65-97 | what staging the UI evidence returns and leaves behind |
| `Staging.StageStore.PrepareAggregation` | scripts/e2e_scheduler/aggregate.py:162-203 | both stages, or the first dropped again |
| `Staging.StageStore.CommitAll` | scripts/e2e_scheduler/aggregate.py:101-112 | both publications go through the transaction, and their stages are discarded unless it commits |
| `Staging.StageStore.AggregateRun` | scripts/e2e_scheduler/aggregate.py:96-112 | the whole run: checks, stages, the commit through the transaction, and the summary on success, with what was staged, listed and counted told by the results; both targets are replaced or none unless rolling back fails, and for a well-formed manifest no stage stays live |
| `Staging.CollisionCheck` | scripts/e2e_scheduler/aggregate_publish.py:59-66 | the check on the names passes exactly when all are different |
| `Staging.EveryCopyIsHeld` | scripts/e2e_scheduler/aggregate_publish.py:59-73 | no screenshot overwrites another in the stage |
| `Staging.OnlyCopiesAreHeld` | scripts/e2e_scheduler/aggregate_publish.py:71-73 | the stage holds no other screenshot |
| `Staging.CopiesTell` | scripts/e2e_scheduler/aggregate_publish.py:59-73 | unless two names are the same, the stage holds every screenshot of every job under its literal name with its source, and nothing else; the listed names are all of them in order |
| `Staging.RunTells` | scripts/e2e_scheduler/aggregate.py:162-222 | the same for a checked run, told by its results, with the evidence files behind the screenshots |
| `Staging.SummaryTells` | scripts/e2e_scheduler/aggregate.py:204-222 | the summary holds the ids of the manifest, the reported and the skipped ids, and counts every expected evidence name and every file found |
| `Staging.StagesAfterRun` | scripts/e2e_scheduler/aggregate.py:96-195 | every stage ends committed or discarded on every path, except the screenshot stage of a refused payload; committed exactly when the transaction commits |
| `PublicationTransaction.SwapAll` | scripts/e2e_scheduler/publication_transaction.py:114-122 | the swap stops at the first failing publication: which places it leaves, and how many swaps have begun |
| `PublicationTransaction.CreateRecoveries` | scripts/e2e_scheduler/publication_transaction.py:220-246 | recovery copies of the previous targets up to the first that fails; no backup is touched |
| `PublicationTransaction.RemoveBackups` | scripts/e2e_scheduler/publication_transaction.py:124-128 | the backups are removed up to the first that cannot be, with every previous content in its recovery copy |
| `PublicationTransaction.RollbackOne` | scripts/e2e_scheduler/publication_transaction.py:258-312 | exactly when rolling one publication back fails; otherwise it is restored, and its previous content is kept in any case |
| `PublicationTransaction.Rollback` | scripts/e2e_scheduler/publication_transaction.py:249-255 | the same for all publications whose swap has begun |
| `PublicationTransaction.UndoFailsExactly` | scripts/e2e_scheduler/publication_transaction.py:249-312 | rolling an interrupted commit back fails exactly under a condition on the publications and the failing operations |
| `PublicationTransaction.FailedSwap` | scripts/e2e_scheduler/publication_transaction.py:114-158 | after a failed swap rolling back works exactly when what was installed can be removed and what was set aside can be moved back |
| `PublicationTransaction.FailedCopy` | scripts/e2e_scheduler/publication_transaction.py:123-158 | after a failed recovery copy also the backups beside the copies already made have to go |
| `PublicationTransaction.FailedRemoval` | scripts/e2e_scheduler/publication_transaction.py:124-158 | after a failed removal the backups that are left have to go |
| `PublicationTransaction.CommitPublications` | scripts/e2e_scheduler/publication_transaction.py:107-158 | refused, committed (with its warnings), rolled back or failed in rolling back, as what was prepared and what fails decide; a commit installs every stage and leaves nothing but counted recovery copies, otherwise all is as before unless rolling back failed, no previous content is ever lost, and no stage stays that could be removed |
| `PublicationTransaction.CommitsExactly` | scripts/e2e_scheduler/publication_transaction.py:107-158 | refused exactly when something is not prepared, committed exactly when all is and every operation works, with a warning for every recovery copy that stays |
| `PublicationTransaction.SettledExactly` | scripts/e2e_scheduler/publication_transaction.py:114-158 | a commit leaves the stage in the target, and otherwise only a recovery copy that could not be removed |
| `Staging.LeaksExactly` | scripts/e2e_scheduler/aggregate_publish.py:70-81 | exactly when preparing the screenshots leaves a stage behind |
| `Staging.CheckedLeaksExactly` | scripts/e2e_scheduler/aggregate.py:162-195 | after the checks of a run, the same as a condition on the manifest |
| `Staging.PreparedAloneItLeaks` | scripts/e2e_scheduler/aggregate_publish.py:70-81 | a manifest with a test, prepared with no job, does |
| `Staging.CheckedRunLeaks` | scripts/e2e_scheduler/aggregate.py:115-195 | so does a checked run of a covered manifest whose job lists its test under another project |
| `Staging.WellFormedNeverLeaks` | scripts/e2e_scheduler/aggregate.py:129-195 | after the checks, with a well-formed manifest, it does not |
| `Staging.NoStageOutlivesTheRun` | scripts/e2e_scheduler/aggregate.py:96-195 | every outcome of the run leaves live exactly the stages that were live before |
| `Staging.SummaryAgrees` | scripts/e2e_scheduler/aggregate.py:204-222 | in the summary found ids are the expected ones, skipped ids are among them, and the evidence totals agree |
| `BenchmarkAcceptance.Worst` | scripts/e2e_scheduler/benchmark.py:155 | the greatest dynamic duration |
| `BenchmarkAcceptance.GreenStreaks` | scripts/e2e_scheduler/benchmark.py:237-249 | the loop lists the lengths of the maximal green blocks in order |
| `BenchmarkAcceptance.LeadingGreen` | scripts/e2e_scheduler/benchmark.py:237-249 | a block is as long as possible |
| `BenchmarkAcceptance.BlocksExactly` | scripts/e2e_scheduler/benchmark.py:237-249 | the streaks are the lengths of all maximal green blocks, each once and in order |
| `BenchmarkAcceptance.MedianSplits` | scripts/e2e_scheduler/benchmark.py:147-148 | at least half of the values are at most the median |
| `BenchmarkAcceptance.MedianExactly` | scripts/e2e_scheduler/benchmark.py:147-148 | the median is the middle value in order, or the mean of the two middle ones |
| `BenchmarkAcceptance.RankUnique` | scripts/e2e_scheduler/benchmark.py:147-148 | there is only one value at a place in order |
| `BenchmarkAcceptance.OfModeExactly` | scripts/e2e_scheduler/benchmark.py:162-163 | the runs of a mode are those given, each as often |
| `BenchmarkAcceptance.GreenExactly` | scripts/e2e_scheduler/benchmark.py:37-116 | which runs are green |
| `BenchmarkAcceptance.ConcurrencyExactly` | scripts/e2e_scheduler/benchmark.py:213-234 | which concurrency a dynamic run may have |
| `BenchmarkAcceptance.MetadataExactly` | scripts/e2e_scheduler/benchmark.py:161-182 | the checks before the durations pass exactly when the runs are comparable |
| `BenchmarkAcceptance.JudgedByDurations` | scripts/e2e_scheduler/benchmark.py:183-203 | comparable runs are judged by two medians and the worst duration alone |
| `BenchmarkAcceptance.JudgementExactly` | scripts/e2e_scheduler/benchmark.py:142-203 | the summary of comparable runs, or the first limit they miss |
| `BenchmarkAcceptance.IncomparableFor` | scripts/e2e_scheduler/benchmark.py:161-182 | other runs are refused for the first check that fails |
| `BenchmarkAcceptance.AcceptedExactly` | scripts/e2e_scheduler/benchmark.py:161-210 | acceptance is exactly comparability and the three limits on the durations |
| `BenchmarkAcceptance.OrderDoesNotMatter` | scripts/e2e_scheduler/benchmark.py:161-210 | permuting the runs changes neither acceptance nor the summary |
| `BenchmarkAcceptance.AcceptedIsFast` | scripts/e2e_scheduler/benchmark.py:187-192 | an accepted benchmark is twice as fast at the median, half its dynamic runs took at most 1500 s, all at most 1800 s |
| `WsTickets.UsedTickets.ValidateWsTicket` | backend/app/main.py:177-207 | one validation: refuse, or purge and insert, rolling both back on a duplicate |
| `WsTickets.RowsWereAccepted` | backend/app/main.py:191-205 | every row is an accepted ticket with its own expiry |
| `WsTickets.AcceptedHaveRows` | backend/app/main.py:191-205 | an accepted ticket that has not expired still has its row |
| `WsTickets.AcceptedExactlyOnce` | backend/app/main.py:177-207 | with nondecreasing time a ticket is accepted exactly when it is of the household, has an id, has not expired and was never accepted before, over any run |
| `WsTickets.WaitingExactly` | backend/app/main.py:177-205 | with clock read and transaction apart, a validation waits exactly from a clock read for the right household, with an id and before the expiry, to its commit |
| `WsTickets.RowsExactly` | backend/app/main.py:186-205 | with clock read and transaction apart, a ticket has a row exactly when it was accepted and no commit purged the row since |
| `WsTickets.AcceptedExactlyWhenCleared` | backend/app/main.py:186-205 | a waiting validation is accepted exactly when every earlier acceptance of its ticket was followed by such a purge, in every interleaving |
| `WsTickets.AcceptedTwiceExactly` | backend/app/main.py:186-205 | a ticket is accepted twice exactly when a purge of its row falls between an acceptance and a later commit of it |
| `WsTickets.AcceptOnceExactly` | backend/app/main.py:186-205 | no ticket is accepted twice exactly when that happens to none |
| `WsTickets.PromptCommitsAcceptOnce` | backend/app/main.py:186-205 | with clock read and transaction apart, no ticket is accepted twice if each validation commits before its ticket expires |
| `WsTickets.LateCommitAcceptsTwice` | backend/app/main.py:186-205 | without that, any ticket can be accepted twice |
| `LedgerRefresh.Dashboard.StartRefresh` | frontend/src/App.jsx:5108-5124 | a refresh up to its first wait |
| `LedgerRefresh.Dashboard.FinishRefresh` | frontend/src/App.jsx:5192-5222 | a refresh from its responses to its end |
| `LedgerRefresh.Dashboard.BeginTransactionLedgerRequest` | frontend/src/App.jsx:4987-4993 | a new request id, one higher |
| `LedgerRefresh.Dashboard.Logout` | frontend/src/App.jsx:8190-8235 | the counter, the flag and the filter are reset |
| `LedgerRefresh.LatestRequestWins` | frontend/src/App.jsx:4987-5137 | only the response of the latest ledger request is applied, and only under its own filter; applied ids strictly increase |
| `LedgerRefresh.LatestRequestIsApplied` | frontend/src/App.jsx:4995-5137 | and that one is applied when it arrives |
| `LedgerRefresh.AppliedExactly` | frontend/src/App.jsx:4987-5137 | a response is put on screen exactly when it arrived well, no ledger request was made since its own, and the filter in force is the one its refresh was started for |
| `LedgerRefresh.WaitsAsStarted` | frontend/src/App.jsx:5108-5124 | a refresh waits with the query and the request id it was started with |
| `LedgerRefresh.OnlyStartedWait` | frontend/src/App.jsx:5108-5145 | only a refresh that was started and has not finished waits |
| `LedgerRefresh.FilterInForce` | frontend/src/App.jsx:4987-5137 | the filter in force is that of the last change or logout |
| `LedgerRefresh.LoadingBounded` | frontend/src/App.jsx:5111-5145 | in every run the flag is up exactly while the counter is positive, and the counter is at most the number of unfinished non-silent refreshes |
| `LedgerRefresh.ExactUnlessLogoutInterrupts` | frontend/src/App.jsx:5111-5145 | the counter is that number throughout exactly in the runs where no logout interrupts a refresh |
| `LedgerRefresh.LogoutInterrupts` | frontend/src/App.jsx:8190-8235 | a logout during a refresh makes the counter wrong, and with a second refresh it stays wrong after the first one has finished |
| `LedgerRefresh.ExactExactly` | frontend/src/App.jsx:5111-5145 | in every run the counter is exact exactly when each logout during a refresh was followed by a moment at which no non-silent refresh was unfinished |
| `LedgerRefresh.IdleIsExact` | frontend/src/App.jsx:5138-5145 | in every run the counter is exact and the flag down once no non-silent refresh is unfinished |
| `LedgerRefresh.NoLogoutIsQuiet` | frontend/src/App.jsx:5111-5145 | in particular in runs without a logout |
| `ApiClient.Api.Request` | frontend/src/App.jsx:446-468 | a call up to its first request |
| `ApiClient.Api.OnResponse` | frontend/src/App.jsx:481-529 | what a response leads to: retry without the household, wait for the shared refresh, or the end |
| `ApiClient.Api.OnRefreshSettled` | frontend/src/App.jsx:509-511 | the shared promise is cleared |
| `ApiClient.Api.OnRefreshed` | frontend/src/App.jsx:513-519 | a retry after a successful refresh, otherwise the end |
| `ApiClient.SingleFlight` | frontend/src/App.jsx:495-512 | at most one refresh is on the wire, over any number of concurrent calls |
| `ApiClient.RunCalls` | frontend/src/App.jsx:446-534 | invariant of every call: counts against the permissions left, and why each request was sent |
| `ApiClient.BoundedRetries` | frontend/src/App.jsx:446-534 | at most three requests and one refresh a call; a request other than GET or HEAD at most twice, and again only after a 401 and a successful refresh |
| `ApiClient.CallDetermined` | frontend/src/App.jsx:446-534 | in every run the log of a call is determined by how it was opened and what was answered: the request is repeated after every successful refresh, a 401 leads to a refresh and a 403 for the household to a retry exactly when still permitted, and the call is done exactly when nothing may follow |
| `ApiClient.WaitsForSharedRefresh` | frontend/src/App.jsx:495-513 | a call that comes to wait waits for the refresh on the wire, starting one only if there is none, and goes on with its outcome |
| `ApiClient.AnswersAreTaken` | frontend/src/App.jsx:446-534 | every answer is taken, and every settled refresh lets its calls go on |
| `ApiClient.SettledAsAnswered` | frontend/src/App.jsx:495-511 | a refresh on the wire settles as it is answered, and the wire is free again |
| `ApiClient.CallTerminates` | frontend/src/App.jsx:446-534 | every step of a call uses up its rank of at most eight |
| `ApiClient.NeverStuck` | frontend/src/App.jsx:446-534 | an unfinished call can go on as soon as the network answers |
| `DecimalInput.RestoreDecimalInputCaret` | frontend/src/App.jsx:984-1010 | the loop finds the position right after the n-th plain character |
| `DecimalInput.HandleGroupedDecimalInput` | frontend/src/App.jsx:1012-1033 | the text left of the caret, without commas, is the sanitized text left of the cursor |
| `DecimalInput.SanitizePrefix` | frontend/src/App.jsx:955-967 | sanitizing a prefix gives a prefix |
| `DecimalInput.SanitizedHasNoComma` | frontend/src/App.jsx:955-967 | sanitized text has digits and at most one dot, never first |
| `DecimalInput.SanitizeInteger` | frontend/src/App.jsx:955-967 | text without a dot is sanitized to its digits |
| `DecimalInput.SanitizeDecimal` | frontend/src/App.jsx:955-967 | otherwise to the digits before the first dot or a zero, the dot, and the digits behind it |
| `DecimalInput.UnformatFormatted` | frontend/src/App.jsx:973-982 | removing the commas gives back the sanitized text |
| `DecimalInput.FormatIdempotent` | frontend/src/App.jsx:973-982 | formatting formatted text changes nothing |
| `DecimalInput.GroupsOfThree` | frontend/src/App.jsx:980 | the last three digits of a longer number stand alone behind a comma |
| `DecimalInput.ShortUngrouped` | frontend/src/App.jsx:980 | up to three digits get no comma |
| `DecimalInput.CommasExactly` | frontend/src/App.jsx:973-982 | in formatted text every fourth character left of the dot is a comma, and no other is |
| `DecimalInput.CaretKeepsPlace` | frontend/src/App.jsx:984-1033 | for every text and cursor the caret keeps its place and never rests behind a comma |
| `LedgerOrder.LedgerOrderIsPreorder` | frontend/src/App.jsx:1351-1368 | a total preorder in both directions when the collation tells texts apart |
| `LedgerOrder.LedgerLeExactly` | frontend/src/App.jsx:1341-1368 | the order spelled out: date in the direction, then order key, creation time and id |
| `LedgerOrder.TiedDatesAreIntransitive` | frontend/src/App.jsx:1351-1368 | two different dates that tie give three items the wrong way round, in both directions |
| `LedgerOrder.PreorderExactlyWhenStrict` | frontend/src/App.jsx:1351-1368 | in either direction a total preorder exactly when the collation ties no two different texts |
| `LedgerOrder.TiesShareId` | frontend/src/App.jsx:1351-1368 | items with different ids never tie |
| `LedgerOrder.DaysDetermine` | frontend/src/App.jsx:2563-2567 | a ledger sorted by date is determined by the sequences of its days |
| `LedgerOrder.DescendingReversesDays` | frontend/src/App.jsx:2563-2567 | the descending ledger is the ascending one with its days reversed and each day unchanged |
| `Sorting.SortSorts` | frontend/src/App.jsx:2566 | sorting sorts |
| `Sorting.SortPermutes` | frontend/src/App.jsx:2566 | sorting permutes |
| `Sorting.SortFilter` | frontend/src/App.jsx:2566 | sorting is stable: any choice of elements comes out as sorting it alone would give |
| `TossDuplicates.KeyIdentifies` | frontend/src/tossImportUtils.js:23-34 | when a key is nonempty, and that equal keys mean equal parts as long as no part contains the separator |
| `TossDuplicates.PartsExactly` | frontend/src/tossImportUtils.js:1-34 | what the five parts of a key are |
| `TossDuplicates.TrimExactly` | frontend/src/tossImportUtils.js:23-26 | trimming leaves what is between the outer spaces |
| `TossDuplicates.CollapseSplits` | frontend/src/tossImportUtils.js:26 | every gap becomes one space and the rest stays |
| `TossDuplicates.CollapseNothing` | frontend/src/tossImportUtils.js:26 | a text without spaces stays |
| `TossDuplicates.CollectKeys` | frontend/src/tossImportUtils.js:36-44 | the first loop: keys by first appearance with their counts |
| `TossDuplicates.NumberGroups` | frontend/src/tossImportUtils.js:46-54 | the second loop: repeated keys numbered from one |
| `TossDuplicates.RecomputeTossDuplicateRows` | frontend/src/tossImportUtils.js:36-73 | the rows after the recomputation |
| `TossDuplicates.GroupedExactlyWhenShared` | frontend/src/tossImportUtils.js:36-73 | a row is grouped exactly when another row shares its nonempty key |
| `TossDuplicates.SameGroupExactlyWhenSameKey` | frontend/src/tossImportUtils.js:36-73 | two rows share a group exactly when their keys are equal and nonempty |
| `TossDuplicates.NumberedByFirstAppearance` | frontend/src/tossImportUtils.js:46-54 | groups are numbered by first appearance |
| `TossDuplicates.EveryNumberUsed` | frontend/src/tossImportUtils.js:46-54 | without gaps |
| `TossDuplicates.RecomputeIdempotent` | frontend/src/tossImportUtils.js:36-73 | recomputing again changes nothing |
| `TossDuplicates.RowExactly` | frontend/src/tossImportUtils.js:56-72 | what becomes of a row in a group and of one outside |
| `TossDuplicates.NeverIncludes` | frontend/src/tossImportUtils.js:56-72 | an excluded row is never included, and rows that leave their group keep their choice |
| `LedgerPages.AppendPage` | frontend/src/App.jsx:5087-5099 | the inner loop appends the rows not seen yet |
| `LedgerPages.LoadPages` | frontend/src/App.jsx:5077-5106 | the outer loop computes the pages, for any limits |
| `LedgerPages.LoadTransactionLedgerItems` | frontend/src/App.jsx:5077-5106 | the same with the limits of the source |
| `LedgerPages.AnyServerNoRepeats` | frontend/src/App.jsx:5077-5106 | at most 60 requests and no nonempty id twice, also when the list changes between pages |
| `LedgerPages.AnyServerLoaded` | frontend/src/App.jsx:5077-5106 | for any server: which answers are asked for at which offsets, when loading stops or fails, and that the result is the rows of all pages in order without those whose nonempty id came before |
| `LedgerPages.PagesLoad` | frontend/src/App.jsx:5081-5104 | from any position the remaining pages load the rest as far as they reach |
| `LedgerPages.StableListLoaded` | frontend/src/App.jsx:5077-5106 | on a stable list of n rows the first min(n, 60000) rows in order, and how many requests that takes |
| `EnvFile.LineDefinesExactly` | scripts/deploy/validate_smtp_route.py:59-66 | a line defines a key exactly when, stripped, it is an identifier and a value around its first equals sign |
| `EnvFile.SplitExactly` | scripts/deploy/validate_smtp_route.py:58 | a text is split at every break, a carriage return and a line feed being one |
| `EnvFile.StrippedExactly` | scripts/deploy/validate_smtp_route.py:59-66 | stripping leaves what is between the characters that it drops on both sides |
| `EnvFile.LastDefinitionWins` | scripts/deploy/validate_smtp_route.py:56-67 | a key has the value of the last line that defines it, and only such keys are there |
| `EnvFile.ParseOwnLine` | scripts/deploy/validate_smtp_route.py:59-66 | the line written for a key defines that key, with the unquoted value |
| `EnvFile.ParseEnvText` | scripts/deploy/validate_smtp_route.py:56-67 | the loop over the lines, later definitions winning |
| `EnvFile.SortedKeys` | scripts/deploy/validate_smtp_route.py:75 | the keys, each once, in the order of code points |
| `EnvFile.WriteEnvFile` | scripts/deploy/validate_smtp_route.py:74-77 | one line a key, in the order of code points |
| `EnvFile.OneOrder` | scripts/deploy/validate_smtp_route.py:75 | there is only one such order, so the written text is determined |
| `EnvFile.MergeEnvFiles` | scripts/deploy/validate_smtp_route.py:80-86 | for every key where its value comes from: the source label, the listed SMTP keys from the overlay alone, all others from the base |
| `EnvFile.ParsingYields` | scripts/deploy/validate_smtp_route.py:56-67 | whatever the text, keys are identifiers and values have one line |
| `EnvFile.UnquotedExactly` | scripts/deploy/validate_smtp_route.py:66 | which values stripping leaves alone |
| `EnvFile.Reparsed` | scripts/deploy/validate_smtp_route.py:56-77 | what a written file parses to |
| `EnvFile.RoundTripExactly` | scripts/deploy/validate_smtp_route.py:56-77 | exactly which maps survive writing and parsing |
| `EnvFile.ParsedValuesCanBeUnstable` | scripts/deploy/validate_smtp_route.py:66 | a parsed value that does not |
| `SmtpRoute.ValidateRoute` | scripts/deploy/validate_smtp_route.py:149-258 | the checks in order, the errors each once, and the normalised route |
| `SmtpRoute.UniqueItems` | scripts/deploy/validate_smtp_route.py:217-221 | the loop that names each wrong item once |
| `SmtpRoute.ExternalExactly` | scripts/deploy/validate_smtp_route.py:118-126 | in production a host is external exactly when it is not blocked |
| `SmtpRoute.ClassExactly` | scripts/deploy/validate_smtp_route.py:118-126 | how a host is classified by its key |
| `SmtpRoute.BlockedExactly` | scripts/deploy/validate_smtp_route.py:109-126 | exactly which spellings of a host are blocked in production |
| `SmtpRoute.BracketedLoopbackIsExternal` | scripts/deploy/validate_smtp_route.py:109-126 | the loopback address in brackets with a port is not |
| `SmtpRoute.InvalidNamesOnce` | scripts/deploy/validate_smtp_route.py:217-222 | a refusal for wrong values names each wrong item once |
| `SmtpRoute.WrongExactly` | scripts/deploy/validate_smtp_route.py:167-222 | which items a refusal names: for every variable, for TLS and for the host exactly when it is wrong |
| `SmtpRoute.MissingExactly` | scripts/deploy/validate_smtp_route.py:129-132 | a route is refused for missing variables exactly when a required one is not set, and all of these are named in order |
| `SmtpRoute.RequiredExactly` | scripts/deploy/validate_smtp_route.py:162-165 | which variables are required |
| `SmtpRoute.TargetExactly` | scripts/deploy/validate_smtp_route.py:156-159 | which target environments there are |
| `SmtpRoute.ProblemExactly` | scripts/deploy/validate_smtp_route.py:162-222 | a route is accepted exactly when everything required is there and settings, transport and security are right |
| `SmtpRoute.AcceptedExactly` | scripts/deploy/validate_smtp_route.py:149-258 | the same for a call with its target environment |
| `SmtpRoute.SummaryExactly` | scripts/deploy/validate_smtp_route.py:246-257 | what the summary of an accepted route says |
| `SmtpRoute.MaskedExactly` | scripts/deploy/validate_smtp_route.py:97-106 | of an address only two characters of a longer local part and the domain stay readable |
| `SmtpRoute.StarsExactly` | scripts/deploy/validate_smtp_route.py:102-105 | the rest is as many stars |
| `SmtpRoute.NormalizedHas` | scripts/deploy/validate_smtp_route.py:224-244 | normalising fixes the listed variables and no others |
| `SmtpRoute.ValidatingAgainChangesNothing` | scripts/deploy/validate_smtp_route.py:149-258 | an accepted route is accepted again after normalising, with the same values and summary |

## Left out

- Process spawning, port probing, HTTP, mail and Git clients, React rendering and file contents: operations that may fail
  are parameters of the calls that use them.
- Starting a capsule, closing a browser server and sampling resources: abstract operations that succeed, fail or raise.
- Timing between a waiter's wakeups and `wait_timeout_seconds`: a waiter may run at any time.
- `AdaptiveCapacity.RunInv`: crash and failure counts are natural numbers, times and percentages are reals.
- JSON and most of the validation of reports: a report starts as a typed tree; of the validators only the ranges, the number
  of attempts and null durations are kept, which is where the two parsers differ.
- Path resolution and the text of test ids: functions of the world the parsers are given.
- `Aggregation.ExactlyOnce`: assumes that a test a job lists is the manifest's own record; the manifest's own validation
  compares ids, projects and files only.
- Artifact listings arrive in sorted order; the check of artifact roots is a parameter.
- `Staging.StagesAfterRun`: discarding a stage outside the transaction succeeds. Interrupts inside `prepare_run` are not
  modelled.
- `Staging.StageStore.CopyScreenshots`: a copy that fails leaves no part of its own in the stage, which is dropped at once.
- `PublicationTransaction.CommitPublications`: the checks of paths, links, kinds and colliding targets are a parameter, and
  an interrupt between two operations is not modelled; a failure of any operation is.
- The per-job summaries, the timestamp and the playwright arguments of the payload: they copy their inputs.
- `BenchmarkAcceptance.AcceptedExactly`: durations are reals, without rounding.
- `WsTickets.AcceptedExactlyOnce`: decoding the ticket is not modelled, and each ticket id has one expiry; rows removed with
  their household are not modelled.
- `LedgerRefresh.Dashboard.Logout`: clearing what is on screen and the other state of a logout.
- Holdings, price status and collaboration responses: they have no request of their own to be ordered by.
- `DecimalInput.CaretKeepsPlace`: text is a sequence of characters rather than of UTF-16 units; digits and separators are the same.
- `LedgerOrder.LedgerOrderIsPreorder`: the collation is an abstract preorder of texts.
- `TossDuplicates.RecomputeTossDuplicateRows`: the group id `dup-n` is the number n, and lower-casing is a parameter.
- `SmtpRoute.ValidateRoute`: lower-casing, number parsing and URL quoting are parameters; lower-casing is taken to be idempotent.
- `render_summary` and the command line of the route validator: they only print.
