# Verified model of an online judge

This project models the parts of a programming-contest platform where its guarantees are made,
and proves those guarantees with Dafny 4.11. Run `dafny verify dfyconfig.toml`.

The platform has an API service that accepts submissions, a control plane that queues jobs and
leases them to workers, workers that run the code and report verdicts, and generated drivers
that carry values between JSON and the user's function.

| component | files | form |
|---|---|---|
| job leases of the control plane | `JobTable`, `LeaseProtocol`, `JobRepository` | statements as atomic steps on tables, theorems over all runs, a class whose methods refine the steps |
| level-order tree codecs of the drivers | `TreeCodec`, `TreeHeap` | functions on trees, methods on mutable nodes proved against them |
| character diff of the web client | `CharDiff` | the dynamic-programming loops on a table, against longest common subsequences |
| verdicts of runners and executors | `Verdicts` | the loops, against declarative predicates |
| test selection and result enrichment | `TestCases` | in-place array loops, against functions on sequences |
| submission statuses | `Submissions`, `Reconciliation`, `SubmissionStore`, `Overlap`, `EndToEnd` | one state machine for API, message queue and control plane, with every API call cut into its statements |
| request limiter | `RateLimit`, `LimiterMap` | in-place compaction of a backing array; interleavings of look-ups, requests and the two steps of the idle sweep |
| worker capacity | `WorkerCapacity` | interleavings of poll loop, finishing jobs and heartbeats |
| Docker log frames | `DockerFrames` | a consuming loop on bytes |
| Go import merging | `Text`, `GoImports`, `GoImportLines` | the line scanner and the merger as loops, against folds over lines |
| email verification | `EmailVerification` | concurrent calls cut into repository calls that can fail before or after they take effect |

`Prelude` holds `Option` and `Result`.

## Reading the model

- A *run* is a sequence of steps; each module has a function that gives the state after it. A
  theorem about runs holds for every run and therefore for every reachable state.
- Time is an integer. Where the database clock matters, a run is legal only if its readings never
  decrease. Ids that the database generates are never reused.
- A flag such as `ok` or `fault` on a step is the outside world's choice: whether a write or a
  remote call succeeded. JSON values are taken as decoded, and comparison of decoded outputs and
  the stderr pattern search are function parameters.

Where code and comments disagree, the model follows the code:

- internal/controlplane/repository/job_repo.go:55-58 speaks of `retry_pending`; the sweep at lines
  316-333 goes straight to `queued` or `failed`, and no step ever enters `retry_pending`
  (`LeaseProtocol.ReachableOk`).
- internal/worker/executor.go:28-30 says a failed renewal cancels execution;
  internal/worker/worker.go:361-364 logs and goes on, so a worker may report after it lost its
  lease. Runs allow that, and `LeaseProtocol.ReportEffect` says what such a report does.
- internal/api/submissions/driver/golang.go:215-217 promises several imports on one line; the scanner
  keeps the first quoted path of a line and drops aliases.

Four laws one might expect do not hold of the code as such. Each has members that show an input
or run that breaks it, and an if-and-only-if that says when it holds:

- *A terminal submission status never changes.* Two kinds of call can write an open status over it:
  a `GetSubmission` that read the job earlier (`Overlap.OverlapRevertsStatus`) and a `create` that has
  published but not yet written `queued` (`Overlap.CreateRevertsStatus`). In every run the status
  survives exactly if no such stale write follows (`Reconciliation.StepRevertsIff`,
  `Reconciliation.TerminalSurvivesIff`); none follows if the calls on that one submission do not overlap
  (`Reconciliation.TerminalStatusIsFinal`). Two terminal statuses of one submission never differ
  (`Reconciliation.TerminalStatusesAgree`), and the next undisturbed read puts the status back
  (`SubmissionStore.StatusHeals`).
- *Every interval of window length holds at most `limit` admissions.* The clock is read before the lock
  is taken. After every history in order that ends at `last`, the reading `now` is safe exactly if
  `last <= now`, the limit is at most one, or the window is empty (`RateLimit.SafeReadingIff`,
  `RateLimit.OutOfOrderBreaksLimit`, `RateLimit.LimitOneInAnyOrder`); `RateLimit.DecidesAsHistoryIff` gives
  the same for the decision itself. Per key the sweep adds two races: a
  request on a window that is out of the map (`LimiterMap.OrphanBreaksKeyLimit`) and one on a window
  between its idle check and its deletion (`LimiterMap.LateAskBreaksKeyLimit`). A request can be continued
  to a break of its key's limit without further races exactly if it is one of the two
  (`LimiterMap.RaceIff`); without races the limit holds per key (`LimiterMap.LimitHoldsPerKey`), and in any
  run it holds for each window the key has had (`LimiterMap.LimitPerWindowOfKey`).
- *A worker never runs more jobs at once than its capacity.* It holds in all runs exactly if the capacity
  is at most one (`WorkerCapacity.RunsAlwaysFitIff`); one is the default
  (internal/worker/config.go:30). Above that, a job handed out again while a run of it is going on shares
  its entry of the map, and the runs have no bound (`WorkerCapacity.RepeatsAreNotBounded`); without such
  repeats they fit (`WorkerCapacity.RunsWithinCapacity`). The map itself is bounded always.
- *The Go runner judges a run on its own answer.* A run that exits with code 0 without writing the result
  file is judged on what an earlier run left there (`Verdicts.StaleAnswerIsAccepted`). Its verdict is
  independent of earlier runs exactly if it does not end well, or writes, or every answer to the test is
  judged alike (`Verdicts.OwnVerdictIff`).

## Model

| member | source | states |
|---|---|---|
| `LeaseProtocol.ReachableOk` | internal/controlplane/repository/job_repo.go:79-333 | every reachable table is consistent: leases exactly on held rows, a worker exactly on held or completed rows, the retry budget spent exactly on failed rows, results exactly for completed rows, never `retry_pending` |
| `LeaseProtocol.ApplyKeepsOk` | internal/controlplane/repository/job_repo.go:172-333 | each single statement keeps that consistency, whoever issues it |
| `LeaseProtocol.SweepRow` | internal/controlplane/repository/job_repo.go:316-333 | field by field: an assigned or running row past its lease gets one retry more, no worker and no lease, and is queued, or failed with a reason if that was the last retry; every other row is untouched |
| `LeaseProtocol.SweepLeavesNoExpired` | internal/controlplane/repository/job_repo.go:330-332 | in every run, right after a sweep no job is held past its lease |
| `LeaseProtocol.TerminalIsAbsorbing` | internal/controlplane/repository/job_repo.go:258-333 | a completed or failed row, and its result, never changes again in any continuation of the run |
| `LeaseProtocol.ResultWriter` | internal/controlplane/repository/job_repo.go:258-306 | every result row was written by a report of the worker that held the job at that moment, and equals that report |
| `LeaseProtocol.ExactlyOnceResult` | internal/controlplane/repository/job_repo.go:258-306 | a job has a result row if and only if it is completed, the row is one accepted report, and it never changes |
| `LeaseProtocol.ReportEffect` | internal/controlplane/repository/job_repo.go:258-306 | a report changes anything if and only if it comes from the current holder with distinct test case ids |
| `LeaseProtocol.PotentialDecreases` | internal/controlplane/repository/job_repo.go:316-333 | a measure that starts at three times `max_retries` strictly falls with each change of a job's state and is otherwise untouched |
| `LeaseProtocol.AttemptAccounting` | internal/controlplane/repository/job_repo.go:316-333 | assignments so far equal `retry_count` plus one if held or completed; the budget is spent exactly when failed; at most `3 * max_retries` state changes in any run |
| `LeaseProtocol.LeaseExclusivity` | internal/controlplane/repository/job_repo.go:186-191 | every expiry promised by assignment or renewal is strictly earlier than the next assignment of that job |
| `LeaseProtocol.HolderKeepsJob` | internal/controlplane/repository/job_repo.go:237-252 | a holder loses its job only by its own report or by a sweep later than every expiry promised for the job |
| `LeaseProtocol.RenewingInTimeKeepsJob` | internal/controlplane/repository/job_repo.go:315-333 | a worker for which some promise is still live at every sweep keeps the job through the whole run |
| `LeaseProtocol.WaitingSpendsElders` | internal/controlplane/repository/job_repo.go:176-193 | while a job waits, each successful poll for its language spends one remaining attempt of a job no younger than it |
| `LeaseProtocol.BoundedWaiting` | internal/controlplane/repository/job_repo.go:176-193 | while a job stays queued, successful polls for its language are at most the retries left to the other jobs no younger than it, although requeued jobs keep their place in front |
| `JobRepository.JobRepository.Create` | internal/controlplane/repository/job_repo.go:79-119 | inserts exactly one queued row with the request's data and its retries, or 3; the object stays the end of a legal run |
| `JobRepository.JobRepository.AssignNext` | internal/controlplane/repository/job_repo.go:172-215 | gives an oldest queued row in one of the languages to the worker with a lease from now, and changes nothing else; reports none exactly when there is none |
| `JobRepository.JobRepository.MarkRunning` | internal/controlplane/repository/job_repo.go:217-235 | succeeds exactly for the worker that was assigned the job and has not started it; the row is then running from now and otherwise as before |
| `JobRepository.JobRepository.RenewLease` | internal/controlplane/repository/job_repo.go:237-256 | succeeds exactly for the current holder, expired lease or not; the row then expires one lease from now and is otherwise as before |
| `JobRepository.JobRepository.Complete` | internal/controlplane/repository/job_repo.go:258-313 | all or nothing: for the holder of the job and a report without repeated ids the row is completed and the result has the report's fields and rows; otherwise every table is as before |
| `JobRepository.InsertRows` | internal/controlplane/repository/job_repo.go:292-306 | the per-test inserts succeed exactly when no test case id repeats, and store one row each |
| `JobRepository.JobRepository.RequeueExpiredLeases` | internal/controlplane/repository/job_repo.go:315-344 | every row is swept, no job is held past its lease afterwards, and the count is the number of rows that changed |
| `JobRepository.JobRepository.GetResult` | internal/controlplane/repository/job_repo.go:346-399 | finds a result exactly for completed jobs |
| `TreeCodec.TreeRoundTrip` | internal/api/submissions/driver/golang.go:27-82 | deserializing a serialized tree gives the same tree, for every tree and all three drivers |
| `TreeCodec.ArrayRoundTrip` | internal/api/submissions/driver/javascript.go:24-61 | serializing a deserialized array restores it if and only if it is empty, or starts and ends with a value and never starves the reader's queue |
| `TreeCodec.SerializeIsCanonical` | internal/api/submissions/driver/javascript.go:45-61 | every serialized tree is such an array |
| `TreeCodec.SerializeIsLevels` | internal/api/submissions/driver/golang.go:65-82 | the array is the levels of the tree from top to bottom, each from left to right, with trailing nulls trimmed |
| `TreeCodec.DriversAgree` | internal/api/submissions/driver/python.go:25-41 | the Python reader builds what the Go and JavaScript readers build if and only if the array does not start with null |
| `TreeCodec.ReadLevelOrder` | internal/api/submissions/driver/golang.go:42-65 | reading the untrimmed dump of any queue of subtrees gives those subtrees back |
| `TreeCodec.ReadTrimmed` | internal/api/submissions/driver/golang.go:78-81 | trimming trailing nulls never changes what is read |
| `TreeCodec.WriteWhatWasRead` | internal/api/submissions/driver/javascript.go:24-61 | dumping what was read from an array that feeds the queue gives the array, padded with nulls |
| `TreeHeap.SerializeTree` | internal/api/submissions/driver/golang.go:65-82 | the queue loop over heap nodes computes the level-order array of the tree they represent |
| `TreeHeap.DeserializeTreeGo` | internal/api/submissions/driver/golang.go:27-63 | the queue loop builds fresh nodes that represent the deserialized tree |
| `TreeHeap.DeserializeTreeJavaScript` | internal/api/submissions/driver/javascript.go:24-43 | the same for the JavaScript loop |
| `TreeHeap.DeserializeTreePython` | internal/api/submissions/driver/python.go:25-41 | the same for the Python loop, whose root may carry no value |
| `TreeHeap.ReadBelow` | internal/api/submissions/driver/golang.go:42-63 | from any root, the loop leaves below it exactly the subtrees that the rest of the array describes |
| `CharDiff.LcsIsLongest` | web/src/components/ProblemWorkspace.tsx:270-282 | the last cell is the length of a longest common subsequence: one of that length exists and none is longer |
| `CharDiff.CellIsUpperBound` | web/src/components/ProblemWorkspace.tsx:274-282 | no matching of two prefixes is longer than their cell |
| `CharDiff.CellIsReached` | web/src/components/ProblemWorkspace.tsx:274-282 | some matching of two prefixes is as long as their cell |
| `CharDiff.NoDiffKeepsMore` | web/src/components/ProblemWorkspace.tsx:263-311 | no diff of the two strings, by whatever method, keeps more characters than that |
| `CharDiff.FillTable` | web/src/components/ProblemWorkspace.tsx:270-282 | the nested loops fill every cell with its value |
| `CharDiff.WalkBack` | web/src/components/ProblemWorkspace.tsx:291-306 | the loop pushes exactly the walk that the table's values lead to |
| `CharDiff.WalkSpells` | web/src/components/ProblemWorkspace.tsx:294-306 | from every position, the greedy walk's single characters spell both prefixes and keep exactly as many as the cell says |
| `CharDiff.MergeStack` | web/src/components/ProblemWorkspace.tsx:284-309 | the loop pushes the whole stack, top first, onto the segments |
| `CharDiff.FusedIsDiff` | web/src/components/ProblemWorkspace.tsx:284-309 | merging a stack that spells two strings gives a diff of them that keeps as much, with no empty segment and no equal neighbours |
| `CharDiff.DiffChars` | web/src/components/ProblemWorkspace.tsx:263-311 | the result is a diff of the two strings, merged, that keeps a longest common subsequence, with deletions before additions wherever the two meet |
| `CharDiff.WalkAddsFirst` | web/src/components/ProblemWorkspace.tsx:299-305 | on ties the greedy walk never pushes an addition right after a deletion |
| `Verdicts.RunPython` | internal/worker/runners/python.py:20-66 | nothing is printed exactly when the solution leaves through an exception that is not caught, such as `SystemExit`; otherwise one result per test in order, whose verdict, time and texts follow from what running that test did, each verdict in an if-and-only-if |
| `Verdicts.FailAll` | internal/worker/runners/python.py:22-28 | when nothing could be run, every test gets one compilation error with the same text |
| `Verdicts.RunGo` | internal/worker/runners/go.py:13-62 | one result per test in order, whose verdict, time and texts follow from how its run ended and what is read back, each verdict in an if-and-only-if |
| `Verdicts.ReadBackIsLatest` | internal/worker/runners/go.py:39-43 | what is read back is what the latest run that wrote the result file left, or the empty string if none did |
| `Verdicts.OwnVerdictIff` | internal/worker/runners/go.py:37-49 | a run's verdict does not depend on the runs before it if and only if it did not end well, wrote an answer, or all answers to its test are judged alike |
| `Verdicts.StaleAnswerIsAccepted` | internal/worker/runners/go.py:37-49 | two tests with one expected answer: the first run writes it, the second exits with code 0 and writes nothing, and both are accepted |
| `Verdicts.FirstMatchMeansEscape` | internal/worker/docker_executor.go:450-452 | a pattern is found if and only if some stderr matches one |
| `Verdicts.FirstMatchIsFirst` | internal/worker/docker_executor.go:450-452 | the pattern reported is that of the first stderr that matches |
| `Verdicts.TotalIsSum` | internal/worker/docker_executor.go:453 | times add up over any two parts of the output |
| `Verdicts.ParseDocker` | internal/worker/docker_executor.go:424-484 | one row per result with its id, verdict, time, answer and output; the verdict and compiler output are those of the first failure and the time is the sum, unless some stderr matches an escape pattern |
| `Verdicts.FoldIsOverall` | internal/worker/docker_executor.go:439-449 | the running verdict and compiler output are those of the first result that is not accepted |
| `Verdicts.ParseFirecracker` | internal/worker/firecracker_executor.go:225-276 | the same fold without the pattern search |
| `Verdicts.AcceptedReport` | internal/worker/docker_executor.go:439-483 | an accepted report of a runner has exactly one row per test, in order, each accepted on an answer that compares equal |
| `Verdicts.NothingRunIsAccepted` | internal/worker/docker_executor.go:430-437 | the fold over no results is accepted, so the list of tests must not be empty |
| `Verdicts.ExecuteAndReport` | internal/worker/worker.go:318-342 | an executor error or unreadable output is reported as an internal error without rows; otherwise the report has the rows, verdict, note and time of the results, so a faithful runner accounts for every report |
| `TestCases.VisibleIsExactly` | internal/api/submissions/service/submissions.go:112-120 | the filter keeps exactly the visible tests, each once and in table order |
| `TestCases.KeepVisible` | internal/api/submissions/service/submissions.go:112-120 | the in-place filter leaves those tests at the front of its array |
| `TestCases.SelectTests` | internal/api/submissions/service/submissions.go:108-135 | nothing is published exactly when no row is wanted; otherwise test k has the external id, input and expected data of the k-th wanted row, all rows being wanted for a submission and the visible ones for a run |
| `TestCases.PublishedSelects` | internal/api/submissions/service/submissions.go:172-179 | the same by positions: strictly increasing, exactly the wanted rows, each test with its own row's data |
| `TestCases.IndexTests` | internal/api/submissions/service/submissions.go:349-352 | the map holds for each id the last test with it |
| `TestCases.LookupIsLast` | internal/api/submissions/service/submissions.go:349-352 | a found test is the last with its id; none is found only if there is none |
| `TestCases.EnrichResult` | internal/api/submissions/service/submissions.go:342-365 | the in-place loop enriches every entry, and leaves all alone when the test cases cannot be read |
| `TestCases.OutputsShownIffVisible` | internal/api/submissions/service/submissions.go:353-362 | if the last test with an entry's id is visible the entry gets that test's input and expected data, otherwise it loses its outputs; nothing else changes |
| `TestCases.HiddenDataIsIndependent` | internal/api/submissions/service/submissions.go:342-365 | tables that differ only in hidden data give the same enriched result and the same published run |
| `Submissions.VerdictIsShown` | internal/api/submissions/service/submissions.go:296-315 | each status goes with its own verdict, in an if-and-only-if per status |
| `Submissions.VerdictsStayApart` | internal/api/submissions/service/submissions.go:296-315 | every verdict maps to a terminal status and only internal errors share one |
| `Submissions.StepKeepsInv` | internal/api/submissions/service/submissions.go:79-260 | each statement of each call, in any interleaving, keeps the joint invariant of both databases, the queue and the calls in flight |
| `Reconciliation.TerminalStatusIsJustified` | internal/api/submissions/service/submissions.go:209-260 | in every interleaving a terminal status is blocked, unpublished, the mapped verdict of the completed job, or `internal_error` of a job that failed for good; a saved result is that of the job |
| `Reconciliation.StatusSaysVerdict` | internal/api/submissions/service/submissions.go:236-260 | in every run the terminal status of a submission with a completed job is the one that goes with the stored verdict, and the saved result has every field of the stored one |
| `Reconciliation.TerminalStatusesAgree` | internal/api/submissions/service/submissions.go:209-260 | in every interleaving two terminal statuses of one submission are equal |
| `Reconciliation.StepRevertsIff` | internal/api/submissions/service/submissions.go:193-232 | in every reachable state a step changes a terminal status if and only if it is the successful write of an open status by a call on that submission |
| `Reconciliation.TerminalSurvivesIff` | internal/api/submissions/service/submissions.go:193-260 | in every run, whatever overlaps, a terminal status survives all later steps if and only if none of them is such a stale write |
| `Reconciliation.RefusedIsFinal` | internal/api/submissions/service/submissions.go:151-191 | the terminal status of a request that was blocked or could not be published never changes, whatever overlaps |
| `Reconciliation.TerminalStatusIsFinal` | internal/api/submissions/service/submissions.go:209-260 | if the calls on one submission do not overlap, its terminal status never changes, whatever other calls and the control plane do |
| `Overlap.OverlapRevertsStatus` | internal/api/submissions/service/submissions.go:222-234 | a run of two overlapping reads in which an accepted submission goes back to running |
| `Overlap.CreateRevertsStatus` | internal/api/submissions/service/submissions.go:179-193 | a run in which `create` writes `queued` over an accepted status |
| `SubmissionStore.CallStepsReconcile` | internal/api/submissions/service/submissions.go:199-260 | the steps of one uninterrupted call have exactly the effect that the method is specified by |
| `SubmissionStore.StatusHeals` | internal/api/submissions/service/submissions.go:209-260 | in every run, once a submission with a job has shown a terminal status, an undisturbed read whose calls succeed leaves it with that status again |
| `SubmissionStore.SubmissionStore.Create` | internal/api/submissions/repository/submissions.go:49-76 | a new submission is pending |
| `SubmissionStore.SubmissionStore.UpdateStatus` | internal/api/submissions/repository/submissions.go:156-160 | sets the status of one existing row and nothing else |
| `SubmissionStore.SubmissionStore.SaveResult` | internal/api/submissions/repository/submissions.go:162-195 | result and status together or not at all; an existing result is kept |
| `SubmissionStore.SubmissionStore.GetSubmission` | internal/api/submissions/service/submissions.go:199-260 | which status is shown for each job state, verdict or missing answer; that status and the result are what is stored when the writes succeed, and no other submission changes |
| `LeaseProtocol.ByIdContents` | internal/controlplane/repository/job_repo.go:292-306 | rows with distinct ids are all stored, each under its id, and nothing else is |
| `EndToEnd.StoredCoversTests` | internal/controlplane/repository/job_repo.go:258-306 | an accepted report, once stored, has one accepted row for each test and no other row |
| `EndToEnd.AcceptedMeansAllTestsPassed` | internal/api/submissions/service/submissions.go:121-188 | with faithful runners, a submission that is accepted had a non-empty list of published tests, chosen by its request, and each got exactly one row, accepted on an answer that compares equal |
| `EndToEnd.AcceptedMeansTablePassed` | internal/api/submissions/service/submissions.go:108-188 | with faithful runners, every wanted row of the test table that an accepted submission was created from has a stored result, accepted on an answer equal to that row's expected data |
| `EndToEnd.FailingStatusIsFirstFailure` | internal/worker/docker_executor.go:439-449 | with faithful runners, a failing status is the verdict of the first published test that was not accepted |
| `EndToEnd.EntriesAreRunners` | internal/api/submissions/service/submissions.go:317-340 | with faithful runners, the saved entry of each published test has the runner's own verdict, time, answer and output |
| `RateLimit.SlidingWindow.Prune` | internal/api/middleware/ratelimit.go:26-33 | compaction within the array that is being read keeps exactly the live entries in order |
| `RateLimit.SlidingWindow.Allow` | internal/api/middleware/ratelimit.go:19-40 | the new list and the decision, which is to admit exactly when fewer than `limit` entries are live |
| `RateLimit.ListIsPruned` | internal/api/middleware/ratelimit.go:26-33 | after a request the list holds nothing that has expired and everything that has not |
| `RateLimit.PrunedDecidesAsHistory` | internal/api/middleware/ratelimit.go:19-40 | with readings in order, the pruned list admits exactly what the full history would, and every interval of window length holds at most `limit` admissions |
| `RateLimit.DecidesAsHistoryIff` | internal/api/middleware/ratelimit.go:19-40 | after every history in order that ends at `last` the pruned list decides about `now` as all admissions would if and only if `last <= now`, the limit is at most one, or an empty window leaves nothing live |
| `RateLimit.SafeReadingIff` | internal/api/middleware/ratelimit.go:19-40 | after every history in order that ends at `last` the bound survives the reading `now` if and only if `last <= now`, the limit is at most one, or the window is empty |
| `RateLimit.OutOfOrderBreaksLimit` | internal/api/middleware/ratelimit.go:20-24 | for every limit of at least two and every reading before the last one there is a history in order after which it breaks the limit |
| `RateLimit.LimitOneInAnyOrder` | internal/api/middleware/ratelimit.go:19-40 | with a limit of one the bound holds for readings in any order |
| `LimiterMap.RunIsOk` | internal/api/middleware/ratelimit.go:42-62 | over every run of look-ups, requests whose readings take each window's lock in order, sweep checks and deletions, every window ever made obeys the limit |
| `LimiterMap.SweepDropsUsedIff` | internal/api/middleware/ratelimit.go:49-58 | with a limit of at least one, the window about to be deleted has admitted a request if and only if it was asked after the sweep's check |
| `LimiterMap.SweepKeepsUsedWindows` | internal/api/middleware/ratelimit.go:49-58 | a check followed at once by its deletion drops exactly the windows that never admitted |
| `LimiterMap.LimitHoldsPerKey` | internal/api/middleware/ratelimit.go:78-81 | if no request uses a window that is out of the map or between its sweep check and its deletion, each key is admitted at most `limit` times per interval |
| `LimiterMap.RaceIff` | internal/api/middleware/ratelimit.go:49-81 | in a run without races, a request at the latest reading can be continued without further races to a break of its key's limit if and only if it is a race itself |
| `LimiterMap.LimitPerWindowOfKey` | internal/api/middleware/ratelimit.go:78-81 | in every run, whatever the sweep removes, a key is admitted per interval at most `limit` times the number of windows it has had |
| `LimiterMap.OrphanBreaksKeyLimit` | internal/api/middleware/ratelimit.go:49-58 | a run in which the sweep deletes a window between look-up and request, so that one key has two admissions with limit one |
| `LimiterMap.LateAskBreaksKeyLimit` | internal/api/middleware/ratelimit.go:52-57 | a run with the same outcome in which every window is in the map when it is asked: the request comes between the idle check and the deletion |
| `WorkerCapacity.CapacityHolds` | internal/worker/worker.go:173-232 | in every interleaving the active map and every reported count stay within the capacity, although check and insert are separate |
| `WorkerCapacity.EntriesAreRuns` | internal/worker/worker.go:248-256 | every entry of the map belongs to a run of that job that is still going on |
| `WorkerCapacity.RunsAlwaysFitIff` | internal/worker/worker.go:173-232 | the runs going on stay within the capacity in all interleavings if and only if the capacity is at most one |
| `WorkerCapacity.RunsWithinCapacity` | internal/worker/worker.go:217-232 | for any capacity, if no job is handed out while a run of it is going on, the runs going on stay within it |
| `WorkerCapacity.RepeatsAreNotBounded` | internal/worker/worker.go:217-232 | for every capacity of at least two, any number of runs can go on behind a single entry |
| `WorkerCapacity.ActiveJobs.HasRoom` | internal/worker/worker.go:173-185 | when it says yes, a place stays free until the answer of that poll is registered, whatever steps come in between |
| `WorkerCapacity.ActiveJobs.Add` | internal/worker/worker.go:220-223 | registering what a poll brought, under a new handle, never takes the map over the capacity |
| `WorkerCapacity.ActiveJobs.Remove` | internal/worker/worker.go:248-256 | the cleanup of a run frees its job's entry; every entry left belongs to a run going on, within the capacity |
| `WorkerCapacity.ActiveJobs.Count` | internal/worker/worker.go:128-140 | a heartbeat reports the number of active jobs, which is no more than the capacity, nor than the runs going on |
| `DockerFrames.StripDockerHeaders` | internal/worker/docker_executor.go:512-524 | the consuming loop computes the stripped bytes of any input |
| `DockerFrames.FramesRoundTrip` | internal/worker/docker_executor.go:512-524 | stripping the stream of any frames with payloads under 2^32 bytes gives the payloads in order |
| `DockerFrames.StripOfTruncation` | internal/worker/docker_executor.go:514-522 | stripping the first k bytes of a stream gives exactly the payload bytes among them |
| `DockerFrames.TruncationIsPrefix` | internal/worker/docker_executor.go:517-519 | so any truncation gives a prefix of the payloads |
| `DockerFrames.EveryInputIsATruncation` | internal/worker/docker_executor.go:512-524 | every byte string is a truncation of some framed stream, so this covers all inputs |
| `GoImports.ExtractQuoted` | internal/api/submissions/driver/golang.go:277-288 | a non-empty result stands between the first quote of the line and the next |
| `GoImports.ExtractGoImports` | internal/api/submissions/driver/golang.go:218-273 | the scanning loop with its `seen` set computes the fold over lines |
| `GoImportLines.ImportsFoundIff` | internal/api/submissions/driver/golang.go:232-268 | for every source, a path is found if and only if some line declares it: a line with content in an open block, or a single import outside, whose first quoted part is that path; a block is open from an opening line to the next closing line |
| `GoImportLines.ImportsInOrder` | internal/api/submissions/driver/golang.go:219-227 | paths come in the order in which lines first declare them |
| `GoImportLines.KeptIsExactly` | internal/api/submissions/driver/golang.go:250-272 | the cleaned source is exactly the lines outside every block that are neither a package clause nor an import, unchanged and in order |
| `GoImports.ExtractedOk` | internal/api/submissions/driver/golang.go:218-273 | for every source the paths found are trimmed, non-empty, quotable and distinct, and the lines kept are plain |
| `GoImports.ExtractTwice` | internal/api/submissions/driver/golang.go:218-273 | extracting from the cleaned source finds no imports and leaves it unchanged |
| `GoImports.UnchangedIffPlain` | internal/api/submissions/driver/golang.go:228-272 | a source comes back unchanged if and only if no line of it is a package clause or an import |
| `GoImports.InjectGoImports` | internal/api/submissions/driver/golang.go:292-321 | the merging loop computes the header with the missing paths written before the block's end |
| `GoImports.NoBlockNoChange` | internal/api/submissions/driver/golang.go:293-303 | a header without a closed import block, or with nothing to add, stays as it is |
| `GoImports.ContainsIffPath` | internal/api/submissions/driver/golang.go:307-311 | the search for a quoted path in the block's text succeeds if and only if the block lists that path |
| `GoImports.MergeIsHeader` | internal/api/submissions/driver/golang.go:292-321 | merging into a header gives the header that lists the new paths after its own |
| `GoImports.MergedHeaderPaths` | internal/api/submissions/driver/golang.go:292-321 | extracting from the merged header lists the header's paths and then each new user path, every path once |
| `GoImports.DriverPathsOk` | internal/api/submissions/driver/golang.go:8-14 | the driver's own three imports meet what those lemmas ask of a header |
| `GoImports.Wrap` | internal/api/submissions/driver/generator.go:35-38 | the assembled program |
| `GoImports.ProgramImportsOnce` | internal/api/submissions/driver/generator.go:35-38 | the program has one import block with every path once, and outside it only the lines of header, cleaned source and footer, in order |
| `GoImportLines.ProgramImportsIff` | internal/api/submissions/driver/generator.go:35-38 | the program declares a path if and only if the header or the user's source does |
| `Text.SplitOfJoin` | internal/api/submissions/driver/golang.go:229-272 | splitting joined lines gives the lines back |
| `Text.TrimIsMiddle` | internal/api/submissions/driver/golang.go:235 | trimming leaves a middle part and takes away white space only |
| `Text.JoinOfSplit` | internal/api/submissions/driver/golang.go:229-272 | joining split text gives the text back |
| `EmailVerification.AuthStore.VerifyEmail` | internal/api/auth/service/auth.go:336-404 | a call that nothing interrupts does what its steps do one after the other |
| `EmailVerification.AuthStore.DeleteTokenById` | internal/api/auth/repository/email_verification.go:55-69 | removes the row if present and reports whether there was one |
| `EmailVerification.LiveLinkVerifies` | internal/api/auth/service/auth.go:381-403 | alone, a link at most 48 hours old uses up its token and sets its user's flag |
| `EmailVerification.ExpiredLinkIsReplaced` | internal/api/auth/service/auth.go:349-378 | alone, a link more than 48 hours old is replaced by a new token of that user and sets no flag |
| `EmailVerification.LinkWorksOnce` | internal/api/auth/service/auth.go:340-347 | the same link a second time is refused as invalid |
| `EmailVerification.StepKeepsInv` | internal/api/auth/service/auth.go:336-404 | each repository call of each concurrent call, failing or not, keeps the joint invariant |
| `EmailVerification.EachTokenIsUsedOnce` | internal/api/auth/repository/email_verification.go:55-69 | under every interleaving each row is deleted by at most one call and each call deletes at most one row |
| `EmailVerification.OutcomeMeansTokenUsed` | internal/api/auth/service/auth.go:336-404 | only a call that deleted a row returns an outcome: resent if the row was more than 48 hours old by a clock reading of that call, else verified, with the flag set |
| `EmailVerification.OneOutcomePerLink` | internal/api/auth/service/auth.go:336-404 | of all calls given the same link at most one returns an outcome |
| `EmailVerification.FlagMeansTokenUsed` | internal/api/auth/service/auth.go:393-401 | a verified flag is set only after deleting a token of that user that was at most 48 hours old by a clock reading of the deleting call |
| `EmailVerification.NothingIsUndone` | internal/api/auth/service/auth.go:393-401 | verified flags never go back and deletions are never undone |
| `EmailVerification.UsedTokenVerifies` | internal/api/auth/service/auth.go:393-401 | a used live token has verified its user, unless its call has yet to write the flag or returned an error |

## Left out

- The Java driver: its serializer queues nulls in a deque that rejects them, so the round trip is not a law there.
- The linked-list codecs, the input decoding and the rest of the generated drivers: they would only add easy members.
- `CreateJob` validation and the worker checks of `PollJob` and `ReportResult` (internal/controlplane/service/service.go:120-350): guards in front of the modelled statements; polls in a run are not limited by them.
- The recorded `active_jobs` counter: best effort, overwritten by heartbeats.
- Columns that no modelled statement reads: source text and reference, time and memory limits, memory and wall time of results.
- The order in which `GetResult` returns test case rows: rows are a map by test case id.
- Postgres row locks and isolation: each statement, and the `Complete` transaction, is one step.
- HTTP, message queue internals, SMTP, JWT, password hashing, the Docker and Firecracker SDKs, AI validation and JSON encoding. A publish that returns an error is taken as not delivered.
- The stub executor, which reports Accepted without running anything: `EndToEnd.AcceptedMeansAllTestsPassed` is about the real runners.
- TreeCodec.TreeRoundTrip: slots are integers decoded exactly; the Go driver decodes JSON numbers as 64-bit floats, so values beyond 2^53 can change on the way.
- `trimToJSON` and the truncation of captured output to 500 or 2000 characters.
- LimiterMap.RunIsOk: one limit and window length for all keys; in the source each route has its own pair, and keys of different routes differ.
- GoImports.ProgramImportsOnce: source text is a sequence of Unicode characters, so invalid UTF-8 is not modelled; the header after its block and the footer are any lines without package or import clauses, not the driver's own text.
- EmailVerification.OneOutcomePerLink: random tokens are taken never to repeat; registration, apart from creating users and tokens, and the other columns that `UpdateUser` writes are not modelled.
- Problem, tag, language and role management, statistics and the rest of the web client.
