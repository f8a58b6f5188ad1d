/**
  Submission reconciliation: the API mirrors the control plane's job state into a status.

  `System` joins both databases, the message queue between them and the API calls in flight.
  Every database statement and remote call is one step, so calls interleave freely with each
  other and with the control plane.
 */
module Submissions {
  import opened Prelude
  import opened JobTable
  import opened LeaseProtocol
  import opened TestCases

  type CallId = nat

  datatype Status =
    | Pending | InQueue | InProgress
    | Accepted | WrongAnswer | TimeLimitExceeded | MemoryLimitExceeded
    | RuntimeError | CompilationError | InternalError | Blocked

  predicate IsTerminal(st: Status) {
    st != Pending && st != InQueue && st != InProgress
  }

  function JobStateToStatus(state: JobState): Status {
    match state
    case Queued => InQueue
    case Assigned => InProgress
    case Running => InProgress
    case Completed => InProgress
    case Failed => Status.InternalError
    case RetryPending => Status.InternalError
  }

  function VerdictToStatus(verdict: Verdict): Status {
    match verdict
    case Accepted => Status.Accepted
    case WrongAnswer => Status.WrongAnswer
    case TimeLimitExceeded => Status.TimeLimitExceeded
    case MemoryLimitExceeded => Status.MemoryLimitExceeded
    case RuntimeError => Status.RuntimeError
    case CompilationError => Status.CompilationError
    case SandboxViolation => Blocked
    case InternalError => Status.InternalError
    case Other(_) => Status.InternalError
  }

  /** Which status goes with which verdict. */
  predicate ShowsVerdict(st: Status, v: Verdict) {
    && (st == Status.Accepted <==> v == Verdict.Accepted)
    && (st == Status.WrongAnswer <==> v == Verdict.WrongAnswer)
    && (st == Status.TimeLimitExceeded <==> v == Verdict.TimeLimitExceeded)
    && (st == Status.MemoryLimitExceeded <==> v == Verdict.MemoryLimitExceeded)
    && (st == Status.RuntimeError <==> v == Verdict.RuntimeError)
    && (st == Status.CompilationError <==> v == Verdict.CompilationError)
    && (st == Blocked <==> v == SandboxViolation)
    && (st == Status.InternalError <==> v == Verdict.InternalError || v.Other?)
    && st != Pending && st != InQueue && st != InProgress
  }

  lemma VerdictIsShown(v: Verdict)
    ensures ShowsVerdict(VerdictToStatus(v), v)
  {
  }

  /** Every verdict ends a submission, and only those shown as internal errors share a status. */
  lemma VerdictsStayApart(v: Verdict, w: Verdict)
    ensures IsTerminal(VerdictToStatus(v))
    ensures VerdictToStatus(v) == VerdictToStatus(w) ==> v == w || VerdictToStatus(v) == Status.InternalError
    ensures VerdictToStatus(v) == Status.InternalError <==> v == Verdict.InternalError || v.Other?
  {
  }

  /** A row of `submission_results`. */
  datatype SubmissionResult = SubmissionResult(
    overallVerdict: Verdict, totalTimeMs: Option<int>, compilerOutput: Option<string>,
    entries: map<string, Entry>)

  function AsEntry(tc: TestcaseResult): Entry {
    Entry(tc.testcaseId, tc.verdict, tc.timeMs, tc.actualOutput, tc.stdoutRef, None, None)
  }

  function AsSubmissionResult(r: JobResult): SubmissionResult {
    SubmissionResult(r.overallVerdict, r.totalTimeMs, r.compilerOutput,
                     map id | id in r.testcases :: AsEntry(r.testcases[id]))
  }

  // ---------------------------------------------------------------------------
  // The system
  // ---------------------------------------------------------------------------

  /** Where an API call stands between two of its steps. */
  datatype Call =
    | Creating(sub: SubmissionId, tests: seq<TestCase>)              // row inserted, not yet published
    | Reading(sub: SubmissionId)                                     // GetSubmission has begun
    | SawOpen(sub: SubmissionId, seen: Status)                       // read a non-terminal status
    | Writing(sub: SubmissionId, next: Status, fetch: Option<JobId>) // a status write is due
    | Fetching(sub: SubmissionId, job: JobId)                        // the job has ended; get its result
    | Saving(sub: SubmissionId, job: JobId, result: JobResult)       // result and status write due

  /** The control plane's tables and what has become of each request. */
  datatype Facts = Facts(
    db: Db,                                       // control plane tables
    published: map<SubmissionId, seq<TestCase>>,  // requests accepted by the message queue
    jobOf: map<SubmissionId, JobId>,              // the job created for a request
    blocked: set<SubmissionId>,                   // refused by code validation
    unpublished: set<SubmissionId>)               // refused by the message queue

  datatype System = System(
    f: Facts,
    outbox: map<SubmissionId, seq<TestCase>>,     // published requests without a job yet
    status: map<SubmissionId, Status>,            // submissions.status
    saved: map<SubmissionId, SubmissionResult>,   // submission_results
    calls: map<CallId, Call>)                     // API calls in flight

  const START := System(Facts(EMPTY, map[], map[], {}, {}), map[], map[], map[], map[])

  /** Flags say whether a write or remote call whose error the code ignores succeeded. */
  datatype Action =
    | ControlPlane(stmt: Statement, now: Time)
    | StartCreate(call: CallId, sub: SubmissionId, kind: Kind, table: seq<ProblemTestCase>)
    | Refuse(call: CallId)
    | Publish(call: CallId, ok: bool)
    | StartGet(call: CallId, sub: SubmissionId)
    | ReadStatus(call: CallId)
    | ReadJob(call: CallId, found: Option<JobId>)
    | Write(call: CallId, ok: bool)
    | ReadResult(call: CallId, ok: bool)
    | Save(call: CallId, ok: bool)
    | Abort(call: CallId)

  predicate JobOf(db: Db, sub: SubmissionId, j: JobId) {
    j in db.jobs && db.jobs[j].submissionId == sub
  }

  predicate InPhase(call: Call, a: Action) {
    match a
    case Refuse(_) => call.Creating?
    case Publish(_, _) => call.Creating?
    case ReadStatus(_) => call.Reading?
    case ReadJob(_, _) => call.SawOpen?
    case Write(_, _) => call.Writing?
    case ReadResult(_, _) => call.Fetching?
    case Save(_, _) => call.Saving?
    case _ => true
  }

  /** One job per submission: the control plane creates a job only from a waiting request. */
  predicate FromOutbox(s: System, stmt: Statement) {
    stmt.Create? ==>
      stmt.req.submissionId in s.outbox && stmt.req.testCases == s.outbox[stmt.req.submissionId]
  }

  predicate Possible(s: System, a: Action) {
    match a
    case ControlPlane(stmt, _) => Enabled(s.f.db, stmt) && FromOutbox(s, stmt)
    case StartCreate(c, sub, kind, table) =>
      c !in s.calls && sub !in s.status && Published(kind, table) != []
    case StartGet(c, _) => c !in s.calls
    case ReadJob(c, found) =>
      c in s.calls && s.calls[c].SawOpen? && (found.Some? ==> JobOf(s.f.db, s.calls[c].sub, found.value))
    case _ => a.call in s.calls && InPhase(s.calls[a.call], a)
  }

  // ---------------------------------------------------------------------------
  // The effect of each step
  // ---------------------------------------------------------------------------

  function Done(s: System, c: CallId): System {
    s.(calls := s.calls - {c})
  }

  function Goto(s: System, c: CallId, call: Call): System {
    s.(calls := s.calls[c := call])
  }

  function DoControlPlane(s: System, stmt: Statement, now: Time, lease: nat): System {
    var db := Apply(s.f.db, stmt, now, lease);
    if stmt.Create? then
      var sub := stmt.req.submissionId;
      s.(f := s.f.(db := db, jobOf := s.f.jobOf[sub := stmt.job]), outbox := s.outbox - {sub})
    else s.(f := s.f.(db := db))
  }

  function DoStartCreate(s: System, c: CallId, sub: SubmissionId, tests: seq<TestCase>): System {
    s.(status := s.status[sub := Pending], calls := s.calls[c := Creating(sub, tests)])
  }

  function DoRefuse(s: System, c: CallId, sub: SubmissionId): System {
    s.(f := s.f.(blocked := s.f.blocked + {sub}), calls := s.calls[c := Writing(sub, Blocked, None)])
  }

  function DoPublish(s: System, c: CallId, sub: SubmissionId, tests: seq<TestCase>, ok: bool): System {
    if ok then
      s.(f := s.f.(published := s.f.published[sub := tests]), outbox := s.outbox[sub := tests],
         calls := s.calls[c := Writing(sub, InQueue, None)])
    else
      s.(f := s.f.(unpublished := s.f.unpublished + {sub}),
         calls := s.calls[c := Writing(sub, Status.InternalError, None)])
  }

  function DoReadStatus(s: System, c: CallId, sub: SubmissionId): System {
    if sub !in s.status || IsTerminal(s.status[sub]) then Done(s, c)
    else Goto(s, c, SawOpen(sub, s.status[sub]))
  }

  /** The next phase of a call that has read the job row, if it goes on. */
  function AfterJob(sub: SubmissionId, seen: Status, j: JobId, state: JobState): Option<Call> {
    var next := JobStateToStatus(state);
    var fetch := if state == Completed || state == Failed then Some(j) else None;
    if next != seen then Some(Writing(sub, next, fetch))
    else if fetch.Some? then Some(Fetching(sub, j))
    else None
  }

  function DoReadJob(s: System, c: CallId, found: Option<JobId>): System
    requires Possible(s, ReadJob(c, found))
  {
    if found.None? then Done(s, c)
    else
      var next := AfterJob(s.calls[c].sub, s.calls[c].seen, found.value, s.f.db.jobs[found.value].state);
      if next.None? then Done(s, c) else Goto(s, c, next.value)
  }

  function DoWrite(s: System, c: CallId, call: Call, ok: bool): System
    requires call.Writing?
  {
    s.(status := if ok then s.status[call.sub := call.next] else s.status,
       calls := if call.fetch.Some? then s.calls[c := Fetching(call.sub, call.fetch.value)] else s.calls - {c})
  }

  function DoReadResult(s: System, c: CallId, sub: SubmissionId, j: JobId, ok: bool): System {
    if ok && j in s.f.db.results then Goto(s, c, Saving(sub, j, s.f.db.results[j])) else Done(s, c)
  }

  /** SaveResult: ON CONFLICT DO NOTHING on the result row, then the status, in one transaction. */
  function DoSave(s: System, c: CallId, call: Call, ok: bool): System
    requires call.Saving?
  {
    if !ok then Done(s, c)
    else s.(status := s.status[call.sub := VerdictToStatus(call.result.overallVerdict)],
            saved := if call.sub in s.saved then s.saved
                     else s.saved[call.sub := AsSubmissionResult(call.result)],
            calls := s.calls - {c})
  }

  function Next(s: System, a: Action, lease: nat): System
    requires Possible(s, a)
  {
    match a
    case ControlPlane(stmt, now) => DoControlPlane(s, stmt, now, lease)
    case StartCreate(c, sub, kind, table) => DoStartCreate(s, c, sub, Published(kind, table))
    case Refuse(c) => DoRefuse(s, c, s.calls[c].sub)
    case Publish(c, ok) => DoPublish(s, c, s.calls[c].sub, s.calls[c].tests, ok)
    case StartGet(c, sub) => Goto(s, c, Reading(sub))
    case ReadStatus(c) => DoReadStatus(s, c, s.calls[c].sub)
    case ReadJob(c, found) => DoReadJob(s, c, found)
    case Write(c, ok) => DoWrite(s, c, s.calls[c], ok)
    case ReadResult(c, ok) => DoReadResult(s, c, s.calls[c].sub, s.calls[c].job, ok)
    case Save(c, ok) => DoSave(s, c, s.calls[c], ok)
    case Abort(c) => Done(s, c)
  }

  // ---------------------------------------------------------------------------
  // What a terminal status stands for, and the invariant
  // ---------------------------------------------------------------------------

  predicate FinalJob(f: Facts, sub: SubmissionId, j: JobId) {
    sub in f.jobOf && f.jobOf[sub] == j && j in f.db.jobs && Terminal(f.db.jobs[j])
  }

  predicate CompletedJob(f: Facts, sub: SubmissionId, j: JobId) {
    FinalJob(f, sub, j) && f.db.jobs[j].state == Completed && j in f.db.results
  }

  /** The status that a job that has ended stands for. */
  predicate Derived(f: Facts, sub: SubmissionId, st: Status) {
    && sub in f.jobOf && FinalJob(f, sub, f.jobOf[sub])
    && var j := f.jobOf[sub];
       if f.db.jobs[j].state == Failed then st == Status.InternalError
       else j in f.db.results && st == VerdictToStatus(f.db.results[j].overallVerdict)
  }

  predicate Justified(f: Facts, sub: SubmissionId, st: Status) {
    || Derived(f, sub, st)
    || (sub in f.blocked && st == Blocked)
    || (sub in f.unpublished && st == Status.InternalError)
  }

  predicate SavedOk(f: Facts, sub: SubmissionId, row: SubmissionResult) {
    && sub in f.jobOf && CompletedJob(f, sub, f.jobOf[sub])
    && row == AsSubmissionResult(f.db.results[f.jobOf[sub]])
  }

  predicate Settled(f: Facts, sub: SubmissionId) {
    sub in f.published || sub in f.blocked || sub in f.unpublished
  }

  predicate CallOk(f: Facts, known: set<SubmissionId>, call: Call) {
    match call
    case Creating(sub, tests) => tests != [] && sub in known && !Settled(f, sub)
    case Reading(_) => true
    case SawOpen(sub, seen) => sub in known && !IsTerminal(seen)
    case Writing(sub, next, fetch) =>
      && sub in known && (IsTerminal(next) ==> Justified(f, sub, next))
      && (fetch.Some? ==> FinalJob(f, sub, fetch.value))
      && (fetch.Some? && f.db.jobs[fetch.value].state == Completed ==> !IsTerminal(next))
      && (!IsTerminal(next) ==> sub in f.published)
    case Fetching(sub, j) => sub in known && FinalJob(f, sub, j)
    case Saving(sub, j, result) =>
      sub in known && CompletedJob(f, sub, j) && f.db.results[j] == result
  }

  predicate BothCreate(a: Call, b: Call) {
    a.Creating? && b.Creating? && a.sub == b.sub
  }

  ghost predicate CallsOk(f: Facts, known: set<SubmissionId>, calls: map<CallId, Call>) {
    && (forall c :: c in calls ==> CallOk(f, known, calls[c]))
    && (forall c, d :: c in calls && d in calls && BothCreate(calls[c], calls[d]) ==> c == d)
  }

  ghost predicate QueueOk(f: Facts, outbox: map<SubmissionId, seq<TestCase>>) {
    && (forall sub :: sub in outbox ==>
          sub in f.published && outbox[sub] == f.published[sub] && sub !in f.jobOf)
    && (forall sub :: sub in f.jobOf ==> sub in f.published && JobOf(f.db, sub, f.jobOf[sub]))
    && (forall j :: j in f.db.jobs ==>
          var sub := f.db.jobs[j].submissionId;
          sub in f.jobOf && f.jobOf[sub] == j && f.db.jobs[j].testCases == f.published[sub])
  }

  ghost predicate FateOk(f: Facts, known: set<SubmissionId>) {
    && f.published.Keys + f.blocked + f.unpublished <= known
    && f.blocked !! f.unpublished && f.published.Keys !! (f.blocked + f.unpublished)
    && (forall sub :: sub in f.published ==> f.published[sub] != [])
  }

  ghost predicate StatusOk(f: Facts, status: map<SubmissionId, Status>, saved: map<SubmissionId, SubmissionResult>) {
    && (forall sub :: sub in status && IsTerminal(status[sub]) ==> Justified(f, sub, status[sub]))
    && (forall sub :: sub in saved ==> sub in status && SavedOk(f, sub, saved[sub]))
  }

  ghost predicate Inv(s: System) {
    && DbOk(s.f.db) && QueueOk(s.f, s.outbox) && FateOk(s.f, s.status.Keys)
    && CallsOk(s.f, s.status.Keys, s.calls) && StatusOk(s.f, s.status, s.saved)
  }

  // ---------------------------------------------------------------------------
  // What no step takes back
  // ---------------------------------------------------------------------------

  predicate RowKept(db: Db, db': Db, j: JobId)
    requires j in db.jobs
  {
    && j in db'.jobs && db'.jobs[j].submissionId == db.jobs[j].submissionId
    && db'.jobs[j].testCases == db.jobs[j].testCases
    && (Terminal(db.jobs[j]) ==> db'.jobs[j] == db.jobs[j])
    && (j in db.results ==> j in db'.results && db'.results[j] == db.results[j])
  }

  /** Identities, ended jobs, results and refusals stay. */
  ghost predicate Grows(f: Facts, f': Facts) {
    && (forall j :: j in f.db.jobs ==> RowKept(f.db, f'.db, j))
    && (forall sub :: sub in f.jobOf ==> sub in f'.jobOf && f'.jobOf[sub] == f.jobOf[sub])
    && f.blocked <= f'.blocked && f.unpublished <= f'.unpublished && f.published.Keys <= f'.published.Keys
  }

  lemma StatementKeepsRow(db: Db, stmt: Statement, now: Time, lease: nat, j: JobId)
    requires DbOk(db) && Enabled(db, stmt) && j in db.jobs
    ensures RowKept(db, Apply(db, stmt, now, lease), j)
  {
    if Terminal(db.jobs[j]) {
      TerminalStep(db, stmt, now, lease, j);
    }
  }

  lemma ControlPlaneGrows(s: System, stmt: Statement, now: Time, lease: nat)
    requires DbOk(s.f.db) && QueueOk(s.f, s.outbox) && Enabled(s.f.db, stmt) && FromOutbox(s, stmt)
    ensures Grows(s.f, DoControlPlane(s, stmt, now, lease).f)
  {
    forall j | j in s.f.db.jobs
      ensures RowKept(s.f.db, Apply(s.f.db, stmt, now, lease), j)
    {
      StatementKeepsRow(s.f.db, stmt, now, lease, j);
    }
  }

  lemma JustifiedGrows(f: Facts, f': Facts, sub: SubmissionId, st: Status)
    requires Grows(f, f') && Justified(f, sub, st)
    ensures Justified(f', sub, st)
  {
  }

  lemma StatusGrows(f: Facts, f': Facts, status: map<SubmissionId, Status>, saved: map<SubmissionId, SubmissionResult>)
    requires Grows(f, f') && StatusOk(f, status, saved)
    ensures StatusOk(f', status, saved)
  {
    forall sub | sub in status && IsTerminal(status[sub])
      ensures Justified(f', sub, status[sub])
    {
      JustifiedGrows(f, f', sub, status[sub]);
    }
  }

  lemma CallGrows(f: Facts, f': Facts, known: set<SubmissionId>, call: Call)
    requires Grows(f, f') && CallOk(f, known, call)
    requires call.Creating? ==> !Settled(f', call.sub)
    ensures CallOk(f', known, call)
  {
    if call.Writing? && IsTerminal(call.next) {
      JustifiedGrows(f, f', call.sub, call.next);
    }
  }

  /** Facts that settle no open request keep every call consistent. */
  lemma CallsGrow(f: Facts, f': Facts, known: set<SubmissionId>, calls: map<CallId, Call>)
    requires Grows(f, f') && CallsOk(f, known, calls)
    requires forall c :: c in calls && calls[c].Creating? ==> !Settled(f', calls[c].sub)
    ensures CallsOk(f', known, calls)
  {
    forall c | c in calls
      ensures CallOk(f', known, calls[c])
    {
      CallGrows(f, f', known, calls[c]);
    }
  }

  // ---------------------------------------------------------------------------
  // Every step keeps the invariant
  // ---------------------------------------------------------------------------

  lemma EndCall(f: Facts, known: set<SubmissionId>, calls: map<CallId, Call>, c: CallId)
    requires CallsOk(f, known, calls)
    ensures CallsOk(f, known, calls - {c})
  {
  }

  lemma MoveCall(f: Facts, known: set<SubmissionId>, calls: map<CallId, Call>, c: CallId, call: Call)
    requires CallsOk(f, known, calls) && CallOk(f, known, call) && !call.Creating?
    ensures CallsOk(f, known, calls[c := call])
  {
  }

  lemma NewRowIsCreated(db: Db, stmt: Statement, now: Time, lease: nat, j: JobId)
    requires j !in db.jobs && j in Apply(db, stmt, now, lease).jobs
    ensures stmt.Create? && stmt.job == j && Apply(db, stmt, now, lease).jobs[j] == NewJob(stmt.req, now)
  {
  }

  lemma ControlPlaneKeepsQueue(s: System, stmt: Statement, now: Time, lease: nat)
    requires DbOk(s.f.db) && QueueOk(s.f, s.outbox) && Enabled(s.f.db, stmt) && FromOutbox(s, stmt)
    ensures var s' := DoControlPlane(s, stmt, now, lease); QueueOk(s'.f, s'.outbox)
  {
    var s' := DoControlPlane(s, stmt, now, lease);
    ControlPlaneGrows(s, stmt, now, lease);
    forall j | j in s'.f.db.jobs
      ensures var sub := s'.f.db.jobs[j].submissionId;
              && sub in s'.f.jobOf && s'.f.jobOf[sub] == j
              && sub in s.f.published && s'.f.db.jobs[j].testCases == s.f.published[sub]
    {
      if j in s.f.db.jobs {
        assert RowKept(s.f.db, s'.f.db, j);
      } else {
        NewRowIsCreated(s.f.db, stmt, now, lease, j);
      }
    }
    forall sub | sub in s'.f.jobOf
      ensures sub in s.f.published && JobOf(s'.f.db, sub, s'.f.jobOf[sub])
    {
      if sub in s.f.jobOf {
        assert JobOf(s.f.db, sub, s.f.jobOf[sub]);
        assert RowKept(s.f.db, s'.f.db, s.f.jobOf[sub]);
      }
    }
  }

  lemma ControlPlaneKeepsInv(s: System, stmt: Statement, now: Time, lease: nat)
    requires Inv(s) && Enabled(s.f.db, stmt) && FromOutbox(s, stmt)
    ensures Inv(DoControlPlane(s, stmt, now, lease))
  {
    var s' := DoControlPlane(s, stmt, now, lease);
    ApplyKeepsOk(s.f.db, stmt, now, lease);
    ControlPlaneGrows(s, stmt, now, lease);
    ControlPlaneKeepsQueue(s, stmt, now, lease);
    StatusGrows(s.f, s'.f, s.status, s.saved);
    CallsGrow(s.f, s'.f, s.status.Keys, s.calls);
  }

  lemma StartCreateKeepsInv(s: System, c: CallId, sub: SubmissionId, tests: seq<TestCase>)
    requires Inv(s) && c !in s.calls && sub !in s.status && tests != []
    ensures Inv(DoStartCreate(s, c, sub, tests))
  {
    var s' := DoStartCreate(s, c, sub, tests);
    forall d | d in s.calls
      ensures CallOk(s.f, s'.status.Keys, s.calls[d]) && !BothCreate(s.calls[d], Creating(sub, tests))
    {
      assert CallOk(s.f, s.status.Keys, s.calls[d]);
    }
  }

  /** The creating call settles its request: refused, published or not published. */
  lemma SettleCalls(f: Facts, f': Facts, known: set<SubmissionId>, calls: map<CallId, Call>, c: CallId, call: Call)
    requires CallsOk(f, known, calls) && Grows(f, f') && c in calls && calls[c].Creating?
    requires forall sub :: Settled(f', sub) ==> Settled(f, sub) || sub == calls[c].sub
    requires CallOk(f', known, call) && !call.Creating?
    ensures CallsOk(f', known, calls[c := call])
  {
    var others := calls - {c};
    EndCall(f, known, calls, c);
    forall d | d in others && others[d].Creating?
      ensures !Settled(f', others[d].sub)
    {
      assert CallOk(f, known, calls[d]);
      assert !BothCreate(calls[d], calls[c]);
    }
    CallsGrow(f, f', known, others);
    MoveCall(f', known, others, c, call);
    assert others[c := call] == calls[c := call];
  }

  lemma RefuseKeepsInv(s: System, c: CallId)
    requires Inv(s) && c in s.calls && s.calls[c].Creating?
    ensures Inv(DoRefuse(s, c, s.calls[c].sub))
  {
    var sub := s.calls[c].sub;
    var s' := DoRefuse(s, c, sub);
    assert CallOk(s.f, s.status.Keys, s.calls[c]);
    SettleCalls(s.f, s'.f, s.status.Keys, s.calls, c, Writing(sub, Blocked, None));
    StatusGrows(s.f, s'.f, s.status, s.saved);
  }

  lemma PublishedKeepsInv(s: System, c: CallId)
    requires Inv(s) && c in s.calls && s.calls[c].Creating?
    ensures Inv(DoPublish(s, c, s.calls[c].sub, s.calls[c].tests, true))
  {
    var sub := s.calls[c].sub;
    var f' := s.f.(published := s.f.published[sub := s.calls[c].tests]);
    assert CallOk(s.f, s.status.Keys, s.calls[c]);
    assert Grows(s.f, f');
    SettleCalls(s.f, f', s.status.Keys, s.calls, c, Writing(sub, InQueue, None));
    StatusGrows(s.f, f', s.status, s.saved);
    assert FateOk(f', s.status.Keys);
  }

  lemma PublishFailedKeepsInv(s: System, c: CallId)
    requires Inv(s) && c in s.calls && s.calls[c].Creating?
    ensures Inv(DoPublish(s, c, s.calls[c].sub, s.calls[c].tests, false))
  {
    var sub := s.calls[c].sub;
    var f' := s.f.(unpublished := s.f.unpublished + {sub});
    assert CallOk(s.f, s.status.Keys, s.calls[c]);
    SettleCalls(s.f, f', s.status.Keys, s.calls, c, Writing(sub, Status.InternalError, None));
    StatusGrows(s.f, f', s.status, s.saved);
  }

  /** What a call goes on to do after reading the job row is what the job stands for. */
  lemma AfterJobIsOk(f: Facts, outbox: map<SubmissionId, seq<TestCase>>, known: set<SubmissionId>, call: Call, j: JobId)
    requires DbOk(f.db) && QueueOk(f, outbox) && CallOk(f, known, call) && call.SawOpen? && JobOf(f.db, call.sub, j)
    ensures var next := AfterJob(call.sub, call.seen, j, f.db.jobs[j].state);
            next.Some? ==> CallOk(f, known, next.value) && !next.value.Creating?
  {
    assert RowOk(f.db.jobs[j]);
    if f.db.jobs[j].state == Failed {
      assert Derived(f, call.sub, Status.InternalError);
    }
  }

  lemma ReadJobKeepsInv(s: System, c: CallId, found: Option<JobId>)
    requires Inv(s) && Possible(s, ReadJob(c, found))
    ensures Inv(DoReadJob(s, c, found))
  {
    var call := s.calls[c];
    assert CallOk(s.f, s.status.Keys, call);
    EndCall(s.f, s.status.Keys, s.calls, c);
    if found.Some? {
      var next := AfterJob(call.sub, call.seen, found.value, s.f.db.jobs[found.value].state);
      AfterJobIsOk(s.f, s.outbox, s.status.Keys, call, found.value);
      if next.Some? {
        MoveCall(s.f, s.status.Keys, s.calls, c, next.value);
      }
    }
  }

  lemma ReadResultKeepsInv(s: System, c: CallId, ok: bool)
    requires Inv(s) && c in s.calls && s.calls[c].Fetching?
    ensures Inv(DoReadResult(s, c, s.calls[c].sub, s.calls[c].job, ok))
  {
    var call := s.calls[c];
    assert CallOk(s.f, s.status.Keys, call);
    EndCall(s.f, s.status.Keys, s.calls, c);
    if ok && call.job in s.f.db.results {
      MoveCall(s.f, s.status.Keys, s.calls, c, Saving(call.sub, call.job, s.f.db.results[call.job]));
    }
  }

  /** Overwriting one status keeps the keys, and a terminal one must be justified. */
  lemma Overwrite(
    f: Facts, status: map<SubmissionId, Status>, saved: map<SubmissionId, SubmissionResult>,
    sub: SubmissionId, st: Status)
    requires StatusOk(f, status, saved) && sub in status && (IsTerminal(st) ==> Justified(f, sub, st))
    ensures StatusOk(f, status[sub := st], saved) && status[sub := st].Keys == status.Keys
  {
  }

  lemma SaveRow(
    f: Facts, status: map<SubmissionId, Status>, saved: map<SubmissionId, SubmissionResult>,
    sub: SubmissionId, st: Status, row: SubmissionResult)
    requires StatusOk(f, status, saved) && sub in status && Justified(f, sub, st) && SavedOk(f, sub, row)
    ensures StatusOk(f, status[sub := st], if sub in saved then saved else saved[sub := row])
    ensures status[sub := st].Keys == status.Keys
  {
    Overwrite(f, status, saved, sub, st);
  }

  lemma WriteKeepsInv(s: System, c: CallId, ok: bool)
    requires Inv(s) && c in s.calls && s.calls[c].Writing?
    ensures Inv(DoWrite(s, c, s.calls[c], ok))
  {
    var call := s.calls[c];
    assert CallOk(s.f, s.status.Keys, call);
    Overwrite(s.f, s.status, s.saved, call.sub, call.next);
    EndCall(s.f, s.status.Keys, s.calls, c);
    if call.fetch.Some? {
      MoveCall(s.f, s.status.Keys, s.calls, c, Fetching(call.sub, call.fetch.value));
    }
  }

  lemma SaveKeepsInv(s: System, c: CallId, ok: bool)
    requires Inv(s) && c in s.calls && s.calls[c].Saving?
    ensures Inv(DoSave(s, c, s.calls[c], ok))
  {
    var call := s.calls[c];
    var st := VerdictToStatus(call.result.overallVerdict);
    assert CallOk(s.f, s.status.Keys, call);
    assert Derived(s.f, call.sub, st);
    SaveRow(s.f, s.status, s.saved, call.sub, st, AsSubmissionResult(call.result));
    EndCall(s.f, s.status.Keys, s.calls, c);
  }

  lemma StepKeepsInv(s: System, a: Action, lease: nat)
    requires Inv(s) && Possible(s, a)
    ensures Inv(Next(s, a, lease))
  {
    match a
    case ControlPlane(stmt, now) => ControlPlaneKeepsInv(s, stmt, now, lease);
    case StartCreate(c, sub, kind, table) => StartCreateKeepsInv(s, c, sub, Published(kind, table));
    case Refuse(c) => RefuseKeepsInv(s, c);
    case Publish(c, ok) =>
      if ok {
        PublishedKeepsInv(s, c);
      } else {
        PublishFailedKeepsInv(s, c);
      }
    case StartGet(c, sub) => MoveCall(s.f, s.status.Keys, s.calls, c, Reading(sub));
    case ReadStatus(c) =>
      EndCall(s.f, s.status.Keys, s.calls, c);
      var sub := s.calls[c].sub;
      if sub in s.status && !IsTerminal(s.status[sub]) {
        MoveCall(s.f, s.status.Keys, s.calls, c, SawOpen(sub, s.status[sub]));
      }
    case ReadJob(c, found) => ReadJobKeepsInv(s, c, found);
    case Write(c, ok) => WriteKeepsInv(s, c, ok);
    case ReadResult(c, ok) => ReadResultKeepsInv(s, c, ok);
    case Save(c, ok) => SaveKeepsInv(s, c, ok);
    case Abort(c) => EndCall(s.f, s.status.Keys, s.calls, c);
  }
}
