/**
  The control plane's tables and the effect of each SQL statement on them.

  Every statement (and the Complete transaction) is one atomic step.  `Apply` gives its
  effect as a function of the tables, the statement and the database clock.
 */
module JobTable {
  import opened Prelude

  type JobId = nat
  type SubmissionId = nat
  type WorkerId = string
  type Time = int

  datatype JobState = Queued | Assigned | Running | Completed | Failed | RetryPending

  /** The one reason a statement ever writes into failure_reason. */
  datatype FailureReason = RetriesExhausted

  datatype TestCase = TestCase(id: string, input: string, expected: string)

  datatype CreateJobRequest = CreateJobRequest(
    submissionId: SubmissionId, language: string, testCases: seq<TestCase>, maxRetries: int)

  /** A row of `jobs`, without the source and limits that no statement looks at. */
  datatype Job = Job(
    submissionId: SubmissionId, language: string, testCases: seq<TestCase>,
    state: JobState, workerId: Option<WorkerId>, leaseExpiresAt: Option<Time>,
    retryCount: int, maxRetries: int, failureReason: Option<FailureReason>,
    queuedAt: Time, assignedAt: Option<Time>, startedAt: Option<Time>, finishedAt: Option<Time>)

  /** The verdict strings the services agree on; any other string is `Other`. */
  datatype Verdict =
    | Accepted | WrongAnswer | TimeLimitExceeded | MemoryLimitExceeded
    | RuntimeError | CompilationError | SandboxViolation | InternalError
    | Other(text: string)

  datatype TestcaseResult = TestcaseResult(
    testcaseId: string, verdict: Verdict, timeMs: Option<int>,
    actualOutput: Option<string>, stdoutRef: Option<string>)

  /** What a worker reports when a job finishes. */
  datatype Report = Report(
    overallVerdict: Verdict, totalTimeMs: Option<int>, compilerOutput: Option<string>,
    testcaseResults: seq<TestcaseResult>)

  /** A row of `job_results` with its `job_tc_results` rows, keyed by test case id. */
  datatype JobResult = JobResult(
    overallVerdict: Verdict, totalTimeMs: Option<int>, compilerOutput: Option<string>,
    testcases: map<string, TestcaseResult>)

  datatype Db = Db(jobs: map<JobId, Job>, results: map<JobId, JobResult>)

  datatype JobError = NoJobAvailable | LeaseMismatch | JobNotFound | ConstraintViolation

  const DEFAULT_MAX_RETRIES := 3

  predicate Active(job: Job) {
    job.state == Assigned || job.state == Running
  }

  predicate Terminal(job: Job) {
    job.state == Completed || job.state == Failed
  }

  predicate Holds(job: Job, worker: WorkerId) {
    Active(job) && job.workerId == Some(worker)
  }

  // ---------------------------------------------------------------------------
  // The effect of each statement on one row
  // ---------------------------------------------------------------------------

  function NewJob(req: CreateJobRequest, now: Time): Job {
    Job(req.submissionId, req.language, req.testCases, Queued, None, None,
        0, if req.maxRetries > 0 then req.maxRetries else DEFAULT_MAX_RETRIES, None,
        now, None, None, None)
  }

  function AssignTo(job: Job, worker: WorkerId, lease: nat, now: Time): Job {
    job.(state := Assigned, workerId := Some(worker), leaseExpiresAt := Some(now + lease),
         assignedAt := Some(now))
  }

  function Start(job: Job, now: Time): Job {
    job.(state := Running, startedAt := Some(now))
  }

  function Extend(job: Job, lease: nat, now: Time): Job {
    job.(leaseExpiresAt := Some(now + lease))
  }

  function Finish(job: Job, now: Time): Job {
    job.(state := Completed, finishedAt := Some(now), leaseExpiresAt := None)
  }

  predicate LeaseExpired(job: Job, now: Time) {
    Active(job) && job.leaseExpiresAt.Some? && job.leaseExpiresAt.value < now
  }

  /** The sweep's CASE expressions read the old retry_count on every right-hand side. */
  function Reclaim(job: Job): Job {
    var again := job.retryCount + 1 < job.maxRetries;
    job.(state := if again then Queued else Failed,
         retryCount := job.retryCount + 1, workerId := None, leaseExpiresAt := None,
         failureReason := if again then None else Some(RetriesExhausted))
  }

  function SweepJob(job: Job, now: Time): Job {
    if LeaseExpired(job, now) then Reclaim(job) else job
  }

  // ---------------------------------------------------------------------------
  // Statements
  // ---------------------------------------------------------------------------

  datatype Statement =
    | Create(job: JobId, req: CreateJobRequest)
    | Assign(job: JobId, worker: WorkerId, languages: set<string>)
    | AssignNone(worker: WorkerId, languages: set<string>)
    | MarkRunning(job: JobId, worker: WorkerId)
    | Renew(job: JobId, worker: WorkerId)
    | Complete(job: JobId, worker: WorkerId, report: Report)
    | Sweep

  /** The queued rows that a poll with these languages can claim. */
  function Claimable(jobs: map<JobId, Job>, languages: set<string>): set<JobId> {
    set j | j in jobs && jobs[j].state == Queued && jobs[j].language in languages
  }

  predicate IsOldest(jobs: map<JobId, Job>, languages: set<string>, j: JobId) {
    && j in Claimable(jobs, languages)
    && forall k :: k in Claimable(jobs, languages) ==> jobs[j].queuedAt <= jobs[k].queuedAt
  }

  predicate DistinctIds(rows: seq<TestcaseResult>) {
    forall i, k :: 0 <= i < k < |rows| ==> rows[i].testcaseId != rows[k].testcaseId
  }

  function ById(rows: seq<TestcaseResult>): map<string, TestcaseResult> {
    if rows == [] then map[]
    else ById(rows[..|rows| - 1])[rows[|rows| - 1].testcaseId := rows[|rows| - 1]]
  }

  function Stored(report: Report): JobResult {
    JobResult(report.overallVerdict, report.totalTimeMs, report.compilerOutput,
              ById(report.testcaseResults))
  }

  /** A report is stored only for the holder, once, and with one row per test case id. */
  predicate Accepts(db: Db, j: JobId, worker: WorkerId, report: Report) {
    && j in db.jobs && Holds(db.jobs[j], worker)
    && j !in db.results && DistinctIds(report.testcaseResults)
  }

  /** What the database's nondeterminism allows: fresh keys, and any oldest claimable row. */
  predicate Enabled(db: Db, s: Statement) {
    match s
    case Create(j, _) => j !in db.jobs
    case Assign(j, _, languages) => IsOldest(db.jobs, languages, j)
    case AssignNone(_, languages) => Claimable(db.jobs, languages) == {}
    case _ => true
  }

  function Apply(db: Db, s: Statement, now: Time, lease: nat): Db {
    match s
    case Create(j, req) => db.(jobs := db.jobs[j := NewJob(req, now)])
    case Assign(j, w, _) =>
      if j in db.jobs then db.(jobs := db.jobs[j := AssignTo(db.jobs[j], w, lease, now)]) else db
    case AssignNone(_, _) => db
    case MarkRunning(j, w) =>
      if j in db.jobs && db.jobs[j].workerId == Some(w) && db.jobs[j].state == Assigned
      then db.(jobs := db.jobs[j := Start(db.jobs[j], now)]) else db
    case Renew(j, w) =>
      if j in db.jobs && Holds(db.jobs[j], w)
      then db.(jobs := db.jobs[j := Extend(db.jobs[j], lease, now)]) else db
    case Complete(j, w, report) =>
      if Accepts(db, j, w, report)
      then Db(db.jobs[j := Finish(db.jobs[j], now)], db.results[j := Stored(report)]) else db
    case Sweep => db.(jobs := map j | j in db.jobs :: SweepJob(db.jobs[j], now))
  }
}
