/**
  The job lease protocol over whole runs.

  A run is any sequence of statements with clock readings.  The statements come from
  nondeterministic clients: workers may crash, stall, report late or never poll again.
 */
module LeaseProtocol {
  import opened Prelude
  import opened JobTable

  datatype Step = Step(stmt: Statement, now: Time)

  type Run = seq<Step>

  function Last(run: Run): Step
    requires run != []
  {
    run[|run| - 1]
  }

  function Init(run: Run): Run
    requires run != []
  {
    run[..|run| - 1]
  }

  const EMPTY := Db(map[], map[])

  /** The tables after a run. */
  function After(run: Run, lease: nat): Db {
    if run == [] then EMPTY else Apply(After(Init(run), lease), Last(run).stmt, Last(run).now, lease)
  }

  /** The clock never goes back and every statement was possible when it ran. */
  predicate Legal(run: Run, lease: nat) {
    run != [] ==>
      && Legal(Init(run), lease)
      && Enabled(After(Init(run), lease), Last(run).stmt)
      && (|run| > 1 ==> Last(Init(run)).now <= Last(run).now)
  }

  lemma {:induction false} PrefixIsLegal(run: Run, lease: nat, i: nat)
    requires Legal(run, lease) && i <= |run|
    ensures Legal(run[..i], lease)
    decreases |run|
  {
    if i == |run| {
      assert run[..i] == run;
    } else {
      assert Init(run)[..i] == run[..i];
      PrefixIsLegal(Init(run), lease, i);
    }
  }

  lemma {:induction false} ClockIsMonotone(run: Run, lease: nat, i: nat)
    requires Legal(run, lease) && i < |run|
    ensures run[i].now <= Last(run).now
    decreases |run|
  {
    if i < |run| - 1 {
      ClockIsMonotone(Init(run), lease, i);
    }
  }

  // ---------------------------------------------------------------------------
  // The invariant of every reachable table
  // ---------------------------------------------------------------------------

  predicate RowOk(job: Job) {
    && 1 <= job.maxRetries && 0 <= job.retryCount <= job.maxRetries
    && job.state != RetryPending
    && (job.state == Failed <==> job.retryCount == job.maxRetries)
    && (Active(job) <==> job.leaseExpiresAt.Some?)
    && (Active(job) || job.state == Completed <==> job.workerId.Some?)
  }

  ghost predicate DbOk(db: Db) {
    && (forall j :: j in db.jobs ==> RowOk(db.jobs[j]))
    && (forall j :: j in db.results <==> j in db.jobs && db.jobs[j].state == Completed)
  }

  /** A job has a result row exactly when it is completed. */
  predicate ResultsMatch(db: Db, j: JobId) {
    j in db.results <==> j in db.jobs && db.jobs[j].state == Completed
  }

  lemma ApplyKeepsOk(db: Db, s: Statement, now: Time, lease: nat)
    requires DbOk(db) && Enabled(db, s)
    ensures DbOk(Apply(db, s, now, lease))
  {
    forall j | j in Apply(db, s, now, lease).jobs
      ensures RowOk(Apply(db, s, now, lease).jobs[j])
    {
      RowStaysOk(db, s, now, lease, j);
    }
    var db' := Apply(db, s, now, lease);
    forall j
      ensures j in db'.results <==> j in db'.jobs && db'.jobs[j].state == Completed
    {
      assert ResultsMatch(db, j);
      ResultsStayMatched(db, s, now, lease, j);
    }
  }

  lemma RowStaysOk(db: Db, s: Statement, now: Time, lease: nat, j: JobId)
    requires Enabled(db, s) && j in Apply(db, s, now, lease).jobs && (j in db.jobs ==> RowOk(db.jobs[j]))
    ensures RowOk(Apply(db, s, now, lease).jobs[j])
  {
  }

  lemma ResultsStayMatched(db: Db, s: Statement, now: Time, lease: nat, j: JobId)
    requires Enabled(db, s) && ResultsMatch(db, j)
    ensures ResultsMatch(Apply(db, s, now, lease), j)
  {
  }

  lemma {:induction false} ReachableOk(run: Run, lease: nat)
    requires Legal(run, lease)
    ensures DbOk(After(run, lease))
  {
    if run != [] {
      ReachableOk(Init(run), lease);
      ApplyKeepsOk(After(Init(run), lease), Last(run).stmt, Last(run).now, lease);
    }
  }

  // ---------------------------------------------------------------------------
  // What a sweep does
  // ---------------------------------------------------------------------------

  /** A held row past its lease is taken back, with one retry more; any other row is left alone. */
  predicate Swept(job: Job, job': Job, now: Time) {
    if && (job.state == Assigned || job.state == Running)
       && job.leaseExpiresAt.Some? && job.leaseExpiresAt.value < now
    then
      job' == job.(state := job'.state, retryCount := job.retryCount + 1, workerId := None, leaseExpiresAt := None,
                   failureReason := job'.failureReason)
      && (if job.retryCount + 1 < job.maxRetries then job'.state == Queued && job'.failureReason == None
          else job'.state == Failed && job'.failureReason == Some(RetriesExhausted))
    else job' == job
  }

  lemma SweepRow(db: Db, now: Time, lease: nat, j: JobId)
    requires j in db.jobs
    ensures var db' := Apply(db, Sweep, now, lease);
            j in db'.jobs && Swept(db.jobs[j], db'.jobs[j], now)
  {
  }

  lemma SweepIsThorough(db: Db, now: Time, lease: nat)
    requires DbOk(db)
    ensures var db' := Apply(db, Sweep, now, lease);
            forall j :: j in db'.jobs && (db'.jobs[j].state == Assigned || db'.jobs[j].state == Running) ==>
              db'.jobs[j].leaseExpiresAt.Some? && now <= db'.jobs[j].leaseExpiresAt.value
  {
    var db' := Apply(db, Sweep, now, lease);
    forall j | j in db'.jobs && (db'.jobs[j].state == Assigned || db'.jobs[j].state == Running)
      ensures db'.jobs[j].leaseExpiresAt.Some? && now <= db'.jobs[j].leaseExpiresAt.value
    {
      assert RowOk(db.jobs[j]);
      SweepRow(db, now, lease, j);
    }
  }

  /** Right after a sweep no job is held past its lease, in whatever state it was held. */
  lemma SweepLeavesNoExpired(run: Run, lease: nat)
    requires Legal(run, lease) && run != [] && Last(run).stmt.Sweep?
    ensures var db := After(run, lease);
            forall j :: j in db.jobs && (db.jobs[j].state == Assigned || db.jobs[j].state == Running) ==>
              db.jobs[j].leaseExpiresAt.Some? && Last(run).now <= db.jobs[j].leaseExpiresAt.value
  {
    ReachableOk(Init(run), lease);
    SweepIsThorough(After(Init(run), lease), Last(run).now, lease);
  }

  // ---------------------------------------------------------------------------
  // Exactly-once results
  // ---------------------------------------------------------------------------

  lemma TerminalStep(db: Db, s: Statement, now: Time, lease: nat, j: JobId)
    requires DbOk(db) && Enabled(db, s) && j in db.jobs && Terminal(db.jobs[j])
    ensures var db' := Apply(db, s, now, lease);
            && j in db'.jobs && db'.jobs[j] == db.jobs[j]
            && (j in db'.results <==> j in db.results)
            && (j in db.results ==> db'.results[j] == db.results[j])
  {
  }

  /** A row that reached completed or failed never changes again, nor does its result. */
  lemma {:induction false} TerminalIsAbsorbing(run: Run, lease: nat, i: nat, j: JobId)
    requires Legal(run, lease) && i <= |run|
    requires var db := After(run[..i], lease); j in db.jobs && Terminal(db.jobs[j])
    ensures var early, late := After(run[..i], lease), After(run, lease);
            && j in late.jobs && late.jobs[j] == early.jobs[j]
            && (j in late.results <==> j in early.results)
            && (j in early.results ==> late.results[j] == early.results[j])
    decreases |run|
  {
    if i == |run| {
      assert run[..i] == run;
    } else {
      assert Init(run)[..i] == run[..i];
      TerminalIsAbsorbing(Init(run), lease, i, j);
      ReachableOk(Init(run), lease);
      TerminalStep(After(Init(run), lease), Last(run).stmt, Last(run).now, lease, j);
    }
  }

  /** A result row exists exactly for completed jobs, and the holder of the moment wrote it. */
  lemma {:induction false} ResultWriter(run: Run, lease: nat, j: JobId) returns (i: nat, w: WorkerId, report: Report)
    requires Legal(run, lease) && j in After(run, lease).results
    ensures i < |run| && run[i].stmt == Complete(j, w, report)
    ensures var db := After(run[..i], lease);
            j in db.jobs && Holds(db.jobs[j], w) && j !in db.results
    ensures After(run, lease).results[j] == Stored(report) && DistinctIds(report.testcaseResults)
    decreases |run|
  {
    var before := After(Init(run), lease);
    if j in before.results {
      i, w, report := ResultWriter(Init(run), lease, j);
      assert Init(run)[..i] == run[..i];
      ReachableOk(Init(run), lease);
      TerminalStep(before, Last(run).stmt, Last(run).now, lease, j);
    } else {
      var s := Last(run).stmt;
      i, w, report := |run| - 1, s.worker, s.report;
    }
  }

  /**
    In every reachable state a job has a result row exactly when it is completed; the row
    equals the one report its holder got accepted, and no later step changes it.
   */
  lemma ExactlyOnceResult(run: Run, lease: nat, i: nat, j: JobId)
    requires Legal(run, lease) && i <= |run|
    ensures var late := After(run, lease);
            j in late.results <==> j in late.jobs && late.jobs[j].state == Completed
    ensures var early, late := After(run[..i], lease), After(run, lease);
            j in early.results ==> j in late.results && late.results[j] == early.results[j]
    ensures j in After(run, lease).results ==>
              exists k, w, report ::
                && 0 <= k < |run| && run[k].stmt == Complete(j, w, report)
                && Accepts(After(run[..k], lease), j, w, report)
                && After(run, lease).results[j] == Stored(report)
  {
    ReachableOk(run, lease);
    PrefixIsLegal(run, lease, i);
    ReachableOk(run[..i], lease);
    if j in After(run[..i], lease).results {
      TerminalIsAbsorbing(run, lease, i, j);
    }
    if j in After(run, lease).results {
      var k, w, report := ResultWriter(run, lease, j);
      assert Accepts(After(run[..k], lease), j, w, report);
    }
  }

  /** A report changes the tables exactly when it comes from the current holder with unique ids. */
  lemma ReportEffect(run: Run, lease: nat, j: JobId, w: WorkerId, report: Report, now: Time)
    requires Legal(run, lease)
    ensures var db := After(run, lease);
            Apply(db, Complete(j, w, report), now, lease) != db
            <==> j in db.jobs && Holds(db.jobs[j], w) && DistinctIds(report.testcaseResults)
  {
    ReachableOk(run, lease);
    var db := After(run, lease);
    if Accepts(db, j, w, report) {
      assert Apply(db, Complete(j, w, report), now, lease).jobs[j].state == Completed;
    }
  }

  // ---------------------------------------------------------------------------
  // Stored rows
  // ---------------------------------------------------------------------------

  predicate HasId(rows: seq<TestcaseResult>, id: string) {
    exists k :: 0 <= k < |rows| && rows[k].testcaseId == id
  }

  lemma {:induction false} ByIdKeys(rows: seq<TestcaseResult>, id: string)
    ensures id in ById(rows) ==> HasId(rows, id)
    decreases |rows|
  {
    if rows != [] && id in ById(rows) {
      var init, n := rows[..|rows| - 1], |rows| - 1;
      if rows[n].testcaseId != id {
        ByIdKeys(init, id);
        var k :| 0 <= k < |init| && init[k].testcaseId == id;
        assert rows[k].testcaseId == id;
      }
    }
  }

  lemma {:induction false} ByIdContents(rows: seq<TestcaseResult>)
    requires DistinctIds(rows)
    ensures |ById(rows)| == |rows|
    ensures forall k :: 0 <= k < |rows| ==>
              rows[k].testcaseId in ById(rows) && ById(rows)[rows[k].testcaseId] == rows[k]
    decreases |rows|
  {
    if rows != [] {
      var init, last := rows[..|rows| - 1], rows[|rows| - 1];
      ByIdContents(init);
      ByIdKeys(init, last.testcaseId);
      assert last.testcaseId !in ById(init);
      assert ById(rows) == ById(init)[last.testcaseId := last];
    }
  }

  // ---------------------------------------------------------------------------
  // Attempt accounting
  // ---------------------------------------------------------------------------

  /** How often a job has been assigned. */
  function Assignments(run: Run, j: JobId): nat {
    if run == [] then 0
    else Assignments(Init(run), j)
         + if Last(run).stmt.Assign? && Last(run).stmt.job == j then 1 else 0
  }

  /** How often a job's state has changed. */
  function StateChanges(run: Run, lease: nat, j: JobId): nat {
    if run == [] then 0
    else
      var before, after := After(Init(run), lease), After(run, lease);
      StateChanges(Init(run), lease, j)
      + if j in before.jobs && j in after.jobs && before.jobs[j].state != after.jobs[j].state
        then 1 else 0
  }

  /** An upper bound on the state changes still to come. */
  function Potential(job: Job): int {
    if Terminal(job) then 0
    else 3 * (job.maxRetries - job.retryCount)
         - if job.state == Assigned then 1 else if job.state == Running then 2 else 0
  }

  /** Every change of state spends potential; nothing else touches it. */
  lemma PotentialDecreases(db: Db, s: Statement, now: Time, lease: nat, j: JobId)
    requires DbOk(db) && Enabled(db, s) && j in db.jobs
    ensures var job, job' := db.jobs[j], Apply(db, s, now, lease).jobs[j];
            && job'.maxRetries == job.maxRetries
            && (if job'.state == job.state then Potential(job') == Potential(job)
                else 0 <= Potential(job') < Potential(job))
  {
    assert RowOk(db.jobs[j]);
  }

  /** The attempts a row accounts for: spent ones, plus one that is held or has succeeded. */
  function Attempts(job: Job): int {
    job.retryCount + if Active(job) || job.state == Completed then 1 else 0
  }

  lemma AttemptsStep(db: Db, s: Statement, now: Time, lease: nat, j: JobId)
    requires DbOk(db) && Enabled(db, s) && j in db.jobs
    ensures var job, job' := db.jobs[j], Apply(db, s, now, lease).jobs[j];
            Attempts(job') == Attempts(job) + if s.Assign? && s.job == j then 1 else 0
  {
  }

  /** A job's first row starts both accounts at zero. */
  lemma FreshRow(db: Db, s: Statement, now: Time, lease: nat, j: JobId)
    requires Enabled(db, s) && j !in db.jobs
    ensures var db' := Apply(db, s, now, lease);
            && (j in db'.jobs ==>
                  Attempts(db'.jobs[j]) == 0 && Potential(db'.jobs[j]) == 3 * db'.jobs[j].maxRetries)
            && !(s.Assign? && s.job == j)
  {
  }

  /**
    A job has been assigned once per retry and once more if an attempt is held or has
    succeeded; the budget is spent exactly when the job has failed; and a run changes a
    job's state at most 3 * max_retries times.
   */
  lemma {:induction false} AttemptAccounting(run: Run, lease: nat, j: JobId)
    requires Legal(run, lease)
    ensures var db := After(run, lease);
            if j in db.jobs then
              var job := db.jobs[j];
              && Assignments(run, j) == Attempts(job)
              && (job.retryCount == job.maxRetries <==> job.state == Failed)
              && job.retryCount <= job.maxRetries
              && StateChanges(run, lease, j) + Potential(job) <= 3 * job.maxRetries
              && StateChanges(run, lease, j) <= 3 * job.maxRetries
            else Assignments(run, j) == 0 && StateChanges(run, lease, j) == 0
  {
    ReachableOk(run, lease);
    if run != [] {
      AttemptAccounting(Init(run), lease, j);
      ReachableOk(Init(run), lease);
      var before := After(Init(run), lease);
      if j in before.jobs {
        PotentialDecreases(before, Last(run).stmt, Last(run).now, lease, j);
        AttemptsStep(before, Last(run).stmt, Last(run).now, lease, j);
      } else {
        FreshRow(before, Last(run).stmt, Last(run).now, lease, j);
      }
    }
  }

  // ---------------------------------------------------------------------------
  // Lease exclusivity over time
  // ---------------------------------------------------------------------------

  /** Step `i` assigned job `j` or renewed its lease, and so promised an expiry. */
  predicate Promises(run: Run, lease: nat, i: nat, j: JobId)
    requires i < |run|
  {
    var db := After(run[..i], lease);
    match run[i].stmt
    case Assign(k, _, _) => k == j
    case Renew(k, w) => k == j && j in db.jobs && Holds(db.jobs[j], w)
    case _ => false
  }

  function PromisedExpiry(run: Run, lease: nat, i: nat): Time
    requires i < |run|
  {
    run[i].now + lease
  }

  /** While a job is held no promise outlasts its lease; otherwise every promise is past. */
  predicate Covered(db: Db, j: JobId, promise: Time, clock: Time) {
    && j in db.jobs
    && (Active(db.jobs[j]) ==>
          db.jobs[j].leaseExpiresAt.Some? && promise <= db.jobs[j].leaseExpiresAt.value)
    && (db.jobs[j].state == Queued || db.jobs[j].state == Failed ==> promise < clock)
  }

  lemma CoveredStep(db: Db, s: Statement, now: Time, lease: nat, j: JobId, made: Time, clock: Time)
    requires DbOk(db) && Enabled(db, s) && made <= clock <= now
    requires Covered(db, j, made + lease, clock)
    ensures Covered(Apply(db, s, now, lease), j, made + lease, now)
  {
    assert RowOk(db.jobs[j]);
  }

  lemma {:induction false} PromisesAreCovered(run: Run, lease: nat, i: nat, j: JobId)
    requires Legal(run, lease) && i < |run| && Promises(run, lease, i, j)
    ensures Covered(After(run, lease), j, PromisedExpiry(run, lease, i), Last(run).now)
    decreases |run|
  {
    var before := After(Init(run), lease);
    if i < |run| - 1 {
      assert Init(run)[..i] == run[..i];
      PromisesAreCovered(Init(run), lease, i, j);
      ReachableOk(Init(run), lease);
      ClockIsMonotone(Init(run), lease, i);
      CoveredStep(before, Last(run).stmt, Last(run).now, lease, j, run[i].now, Last(Init(run)).now);
    } else {
      assert run[..i] == Init(run);
    }
  }

  /** Whatever was promised to one holder has lapsed before the job goes to the next. */
  lemma LeaseExclusivity(run: Run, lease: nat, i: nat, k: nat, j: JobId)
    requires Legal(run, lease) && i < k < |run|
    requires Promises(run, lease, i, j)
    requires run[k].stmt.Assign? && run[k].stmt.job == j
    ensures PromisedExpiry(run, lease, i) < run[k].now
  {
    var early := run[..k];
    PrefixIsLegal(run, lease, k + 1);
    var upto := run[..k + 1];
    assert Init(upto) == early && early[..i] == run[..i];
    PromisesAreCovered(early, lease, i, j);
  }

  /**
    A holder loses its job in one of two ways: by having its own report accepted, or by a
    sweep later than every expiry promised for that job.  So one that renews in time keeps it.
   */
  lemma HolderKeepsJob(run: Run, lease: nat, j: JobId, w: WorkerId)
    requires Legal(run, lease) && run != []
    requires var before := After(Init(run), lease); j in before.jobs && Holds(before.jobs[j], w)
    requires var after := After(run, lease); !(j in after.jobs && Holds(after.jobs[j], w))
    ensures || (exists report :: Last(run).stmt == Complete(j, w, report))
            || (&& Last(run).stmt.Sweep?
                && forall i :: 0 <= i < |run| - 1 && Promises(run, lease, i, j)
                     ==> PromisedExpiry(run, lease, i) < Last(run).now)
  {
    var before := After(Init(run), lease);
    ReachableOk(Init(run), lease);
    var s := Last(run).stmt;
    if s.Sweep? {
      forall i | 0 <= i < |run| - 1 && Promises(run, lease, i, j)
        ensures PromisedExpiry(run, lease, i) < Last(run).now
      {
        assert Init(run)[..i] == run[..i];
        PromisesAreCovered(Init(run), lease, i, j);
      }
    } else {
      assert s == Complete(j, w, s.report);
    }
  }

  /** At every sweep from step `from` on, some promise made for `j` has not lapsed. */
  predicate RenewedInTime(run: Run, lease: nat, from: nat, j: JobId) {
    forall k :: from <= k < |run| && run[k].stmt.Sweep? ==>
      exists i :: 0 <= i < k && Promises(run, lease, i, j) && run[k].now <= PromisedExpiry(run, lease, i)
  }

  predicate NeverReports(run: Run, from: nat, j: JobId, w: WorkerId) {
    forall k :: from <= k < |run| && run[k].stmt.Complete? ==> !(run[k].stmt.job == j && run[k].stmt.worker == w)
  }

  /** A worker that renews in time still holds its job, however long the run. */
  lemma {:induction false} RenewingInTimeKeepsJob(run: Run, lease: nat, from: nat, j: JobId, w: WorkerId)
    requires Legal(run, lease) && from <= |run|
    requires var db := After(run[..from], lease); j in db.jobs && Holds(db.jobs[j], w)
    requires RenewedInTime(run, lease, from, j) && NeverReports(run, from, j, w)
    ensures var db := After(run, lease); j in db.jobs && Holds(db.jobs[j], w)
    decreases |run|
  {
    if from == |run| {
      assert run[..from] == run;
    } else {
      var prev := Init(run);
      assert forall i :: 0 <= i <= |prev| ==> prev[..i] == run[..i];
      assert RenewedInTime(prev, lease, from, j) by {
        forall k | from <= k < |prev| && prev[k].stmt.Sweep?
          ensures exists i :: 0 <= i < k && Promises(prev, lease, i, j) && prev[k].now <= PromisedExpiry(prev, lease, i)
        {
          var i :| 0 <= i < k && Promises(run, lease, i, j) && run[k].now <= PromisedExpiry(run, lease, i);
          assert Promises(prev, lease, i, j);
        }
      }
      RenewingInTimeKeepsJob(prev, lease, from, j, w);
      var after := After(run, lease);
      if !(j in after.jobs && Holds(after.jobs[j], w)) {
        HolderKeepsJob(run, lease, j, w);
        assert false;
      }
    }
  }

  // ---------------------------------------------------------------------------
  // Bounded waiting
  // ---------------------------------------------------------------------------

  /** How often a job can still be assigned. */
  function Remaining(job: Job): int {
    job.maxRetries - job.retryCount - if Active(job) || job.state == Completed then 1 else 0
  }

  /** The other jobs that are no younger than `j`. */
  function Elders(db: Db, j: JobId): set<JobId>
    requires j in db.jobs
  {
    set k | k in db.jobs && k != j && db.jobs[k].queuedAt <= db.jobs[j].queuedAt
  }

  ghost function SumRemaining(db: Db, s: set<JobId>): int
    requires forall k :: k in s ==> k in db.jobs
  {
    if s == {} then 0 else var k :| k in s; Remaining(db.jobs[k]) + SumRemaining(db, s - {k})
  }

  ghost function SumBudget(db: Db, s: set<JobId>): int
    requires forall k :: k in s ==> k in db.jobs
  {
    if s == {} then 0
    else var k :| k in s; db.jobs[k].maxRetries - db.jobs[k].retryCount + SumBudget(db, s - {k})
  }

  lemma {:induction false} SumRemainingSplit(db: Db, s: set<JobId>, k: JobId)
    requires k in s && forall x :: x in s ==> x in db.jobs
    ensures SumRemaining(db, s) == Remaining(db.jobs[k]) + SumRemaining(db, s - {k})
    decreases s
  {
    var x :| x in s && SumRemaining(db, s) == Remaining(db.jobs[x]) + SumRemaining(db, s - {x});
    if x != k {
      SumRemainingSplit(db, s - {x}, k);
      SumRemainingSplit(db, s - {k}, x);
      assert s - {x} - {k} == s - {k} - {x};
    }
  }

  lemma {:induction false} SumRemainingIsMonotone(db: Db, db': Db, s: set<JobId>)
    requires forall k :: k in s ==> k in db.jobs && k in db'.jobs && Remaining(db'.jobs[k]) <= Remaining(db.jobs[k])
    ensures SumRemaining(db', s) <= SumRemaining(db, s)
    decreases s
  {
    if s != {} {
      var k :| k in s && SumRemaining(db, s) == Remaining(db.jobs[k]) + SumRemaining(db, s - {k});
      SumRemainingSplit(db', s, k);
      SumRemainingIsMonotone(db, db', s - {k});
    }
  }

  lemma {:induction false} SumWithinBudget(db: Db, s: set<JobId>)
    requires DbOk(db) && forall k :: k in s ==> k in db.jobs
    ensures 0 <= SumRemaining(db, s) <= SumBudget(db, s)
    decreases s
  {
    if s != {} {
      var k :| k in s && SumBudget(db, s) == db.jobs[k].maxRetries - db.jobs[k].retryCount + SumBudget(db, s - {k});
      SumRemainingSplit(db, s, k);
      SumWithinBudget(db, s - {k});
      assert RowOk(db.jobs[k]);
    }
  }

  /** Successful polls for `language` from step `from` on. */
  function Polls(run: Run, from: nat, language: string): nat {
    if |run| <= from then 0
    else Polls(Init(run), from, language)
         + if Last(run).stmt.Assign? && language in Last(run).stmt.languages then 1 else 0
  }

  /** Nothing refills what a job can still be assigned, and an assignment spends one. */
  lemma RemainingNeverGrows(db: Db, s: Statement, now: Time, lease: nat, k: JobId)
    requires DbOk(db) && Enabled(db, s) && k in db.jobs
    ensures var job, job' := db.jobs[k], Apply(db, s, now, lease).jobs[k];
            && job'.queuedAt == job.queuedAt && job'.language == job.language
            && Remaining(job') == Remaining(job) - if s.Assign? && s.job == k then 1 else 0
  {
    assert RowOk(db.jobs[k]);
  }

  /** One step while `j` stays queued: its elders stay the same and each relevant poll costs them one. */
  lemma WaitingStep(db: Db, s: Statement, now: Time, lease: nat, j: JobId)
    requires DbOk(db) && Enabled(db, s) && j in db.jobs
    requires s.Create? ==> db.jobs[j].queuedAt < now
    requires db.jobs[j].state == Queued && Apply(db, s, now, lease).jobs[j].state == Queued
    ensures var db' := Apply(db, s, now, lease);
            && Elders(db', j) == Elders(db, j)
            && SumRemaining(db', Elders(db, j))
               + (if s.Assign? && db.jobs[j].language in s.languages then 1 else 0)
               <= SumRemaining(db, Elders(db, j))
  {
    var db' := Apply(db, s, now, lease);
    forall k | k in db.jobs
      ensures db'.jobs[k].queuedAt == db.jobs[k].queuedAt
      ensures Remaining(db'.jobs[k]) == Remaining(db.jobs[k]) - if s.Assign? && s.job == k then 1 else 0
    {
      RemainingNeverGrows(db, s, now, lease, k);
    }
    var elders := Elders(db, j);
    assert Elders(db', j) == elders;
    if s.Assign? && db.jobs[j].language in s.languages {
      assert j in Claimable(db.jobs, s.languages);
      SumRemainingDrops(db, db', elders, s.job);
    } else {
      SumRemainingIsMonotone(db, db', elders);
    }
  }

  lemma SumRemainingDrops(db: Db, db': Db, s: set<JobId>, j: JobId)
    requires forall k :: k in s ==> k in db.jobs && k in db'.jobs && Remaining(db'.jobs[k]) <= Remaining(db.jobs[k])
    requires j in s && Remaining(db'.jobs[j]) < Remaining(db.jobs[j])
    ensures SumRemaining(db', s) + 1 <= SumRemaining(db, s)
  {
    SumRemainingSplit(db, s, j);
    SumRemainingSplit(db', s, j);
    SumRemainingIsMonotone(db, db', s - {j});
  }

  /** Job `j` is queued after every step from `from` on. */
  predicate StaysQueued(run: Run, lease: nat, from: nat, j: JobId)
    requires from <= |run|
  {
    forall i :: from <= i <= |run| ==>
      var db := After(run[..i], lease); j in db.jobs && db.jobs[j].state == Queued
  }

  /** Jobs created from step `from` on carry a later queued_at than `at`. */
  predicate CreatesLater(run: Run, from: nat, at: Time) {
    forall i :: from <= i < |run| && run[i].stmt.Create? ==> at < run[i].now
  }

  lemma {:induction false} WaitingSpendsElders(run: Run, lease: nat, from: nat, j: JobId)
    requires Legal(run, lease) && from <= |run| && StaysQueued(run, lease, from, j)
    requires CreatesLater(run, from, After(run[..from], lease).jobs[j].queuedAt)
    ensures var first, last := After(run[..from], lease), After(run, lease);
            && j in first.jobs && j in last.jobs
            && last.jobs[j].queuedAt == first.jobs[j].queuedAt
            && last.jobs[j].language == first.jobs[j].language
            && Elders(last, j) == Elders(first, j)
            && Polls(run, from, first.jobs[j].language) + SumRemaining(last, Elders(first, j))
               <= SumRemaining(first, Elders(first, j))
    decreases |run|
  {
    assert run[..|run|] == run;
    if from < |run| {
      var prev := Init(run);
      assert forall i :: 0 <= i <= |prev| ==> prev[..i] == run[..i];
      WaitingSpendsElders(prev, lease, from, j);
      ReachableOk(prev, lease);
      assert prev == run[..|run| - 1];
      RemainingNeverGrows(After(prev, lease), Last(run).stmt, Last(run).now, lease, j);
      WaitingStep(After(prev, lease), Last(run).stmt, Last(run).now, lease, j);
    }
  }

  /**
    While a job stays queued, at most as many polls for its language succeed as its elders
    have retries left, even though a requeued elder keeps its place in front.
   */
  lemma BoundedWaiting(run: Run, lease: nat, from: nat, j: JobId)
    requires Legal(run, lease) && from <= |run| && StaysQueued(run, lease, from, j)
    requires CreatesLater(run, from, After(run[..from], lease).jobs[j].queuedAt)
    ensures var first := After(run[..from], lease);
            Polls(run, from, first.jobs[j].language) <= SumBudget(first, Elders(first, j))
  {
    var first, last := After(run[..from], lease), After(run, lease);
    WaitingSpendsElders(run, lease, from, j);
    PrefixIsLegal(run, lease, from);
    ReachableOk(run[..from], lease);
    ReachableOk(run, lease);
    SumWithinBudget(first, Elders(first, j));
    SumWithinBudget(last, Elders(first, j));
  }
}
