/**
  The control plane's job repository: each method runs one statement against the tables.

  A ghost log records the statements, so every state of the object is the end of a legal run
  and the theorems of LeaseProtocol apply to it.
 */
module JobRepository {
  import opened Prelude
  import opened JobTable
  import opened LeaseProtocol

  /** One more test case row keeps a report insertable exactly if its id is new. */
  lemma {:induction false} NextRow(rows: seq<TestcaseResult>, n: nat)
    requires n < |rows|
    ensures rows[..n + 1][..n] == rows[..n]
    ensures ById(rows[..n + 1]) == ById(rows[..n])[rows[n].testcaseId := rows[n]]
    ensures ById(rows[..n]).Keys == set k | 0 <= k < n :: rows[k].testcaseId
    decreases n
  {
    assert rows[..n + 1][..n] == rows[..n];
    if n > 0 {
      NextRow(rows, n - 1);
    }
  }

  /** The per-testcase inserts: the (job, test case) key rejects a repeated id. */
  method InsertRows(all: seq<TestcaseResult>) returns (r: Option<map<string, TestcaseResult>>)
    ensures r == if DistinctIds(all) then Some(ById(all)) else None
  {
    var rows: map<string, TestcaseResult> := map[];
    for n := 0 to |all|
      invariant rows == ById(all[..n]) && DistinctIds(all[..n])
    {
      NextRow(all, n);
      var tc := all[n];
      if tc.testcaseId in rows {
        return None;
      }
      rows := rows[tc.testcaseId := tc];
      assert all[..n + 1] == all[..n] + [tc];
    }
    assert all[..|all|] == all;
    return Some(rows);
  }

  predicate RepeatsId(rows: seq<TestcaseResult>) {
    exists i, k :: 0 <= i < k < |rows| && rows[i].testcaseId == rows[k].testcaseId
  }

  /** The stored result has the report's own fields and, under its id, each of its rows. */
  ghost predicate Records(r: JobResult, report: Report) {
    && r.overallVerdict == report.overallVerdict && r.totalTimeMs == report.totalTimeMs
    && r.compilerOutput == report.compilerOutput && |r.testcases| == |report.testcaseResults|
    && forall k :: 0 <= k < |report.testcaseResults| ==>
         var row := report.testcaseResults[k]; row.testcaseId in r.testcases && r.testcases[row.testcaseId] == row
  }

  lemma StoredRecords(report: Report)
    requires DistinctIds(report.testcaseResults)
    ensures Records(Stored(report), report)
  {
    ByIdContents(report.testcaseResults);
  }

  /** The rows that a sweep's WHERE clause selects are the rows it changes. */
  lemma SweepTouches(db: Db, now: Time, lease: nat)
    ensures var jobs' := Apply(db, Sweep, now, lease).jobs;
            && jobs'.Keys == db.jobs.Keys
            && (forall j :: j in jobs' ==> Swept(db.jobs[j], jobs'[j], now))
            && (forall j :: j in db.jobs ==> (LeaseExpired(db.jobs[j], now) <==> jobs'[j] != db.jobs[j]))
  {
    var jobs' := Apply(db, Sweep, now, lease).jobs;
    forall j | j in jobs'
      ensures Swept(db.jobs[j], jobs'[j], now)
    {
      SweepRow(db, now, lease, j);
    }
  }

  class JobRepository {
    var jobs: map<JobId, Job>
    var results: map<JobId, JobResult>

    /** Lease length, fixed by the service's configuration. */
    const lease: nat

    ghost var log: Run

    ghost function Tables(): Db
      reads this
    {
      Db(jobs, results)
    }

    ghost predicate Valid()
      reads this
    {
      Legal(log, lease) && Tables() == After(log, lease)
    }

    /** The database clock does not run backwards. */
    ghost predicate NotBefore(now: Time)
      reads this
    {
      log != [] ==> Last(log).now <= now
    }

    constructor (lease: nat)
      ensures Valid() && log == [] && this.lease == lease
    {
      this.lease := lease;
      jobs, results, log := map[], map[], [];
    }

    /** Records one statement; used by every method once the tables reflect it. */
    ghost method Record(s: Statement, now: Time, before: Db)
      requires Legal(log, lease) && before == After(log, lease) && NotBefore(now)
      requires Enabled(before, s) && Tables() == Apply(before, s, now, lease)
      modifies this`log
      ensures Valid() && log == old(log) + [Step(s, now)]
    {
      var log' := log + [Step(s, now)];
      assert LeaseProtocol.Init(log') == log && LeaseProtocol.Last(log') == Step(s, now);
      log := log';
    }

    /** INSERT a queued row under a generated key. */
    method Create(id: JobId, req: CreateJobRequest, now: Time)
      requires Valid() && NotBefore(now) && id !in jobs
      modifies this
      ensures Valid() && log == old(log) + [Step(JobTable.Create(id, req), now)]
      ensures jobs == old(jobs)[id := Job(req.submissionId, req.language, req.testCases, Queued, None, None,
                                          0, if req.maxRetries > 0 then req.maxRetries else 3, None,
                                          now, None, None, None)]
      ensures results == old(results)
    {
      ghost var before := Tables();
      var maxRetries := 3;
      if req.maxRetries > 0 {
        maxRetries := req.maxRetries;
      }
      var row := Job(req.submissionId, req.language, req.testCases, Queued, None, None,
                     0, maxRetries, None, now, None, None, None);
      jobs := jobs[id := row];
      Record(JobTable.Create(id, req), now, before);
    }

    /** Claim an oldest queued row in one of the languages. */
    method AssignNext(worker: WorkerId, languages: set<string>, now: Time) returns (r: Result<JobId, JobError>)
      requires Valid() && NotBefore(now)
      modifies this
      ensures Valid()
      ensures match r
              case Ok(j) =>
                && j in old(jobs) && old(jobs)[j].state == Queued && old(jobs)[j].language in languages
                && (forall k :: k in old(jobs) && old(jobs)[k].state == Queued && old(jobs)[k].language in languages ==>
                      old(jobs)[j].queuedAt <= old(jobs)[k].queuedAt)
                && log == old(log) + [Step(Assign(j, worker, languages), now)] && results == old(results)
                && jobs == old(jobs)[j := old(jobs)[j].(state := Assigned, workerId := Some(worker),
                                                        leaseExpiresAt := Some(now + lease), assignedAt := Some(now))]
              case Err(e) =>
                && e == NoJobAvailable
                && (forall k :: k in old(jobs) ==> old(jobs)[k].state != Queued || old(jobs)[k].language !in languages)
                && log == old(log) + [Step(AssignNone(worker, languages), now)] && Tables() == old(Tables())
    {
      ghost var before := Tables();
      var candidates := Claimable(jobs, languages);
      assert forall k :: k in candidates <==> k in jobs && jobs[k].state == Queued && jobs[k].language in languages;
      if candidates == {} {
        Record(AssignNone(worker, languages), now, before);
        return Err(NoJobAvailable);
      }
      var next :| next in candidates;
      var rest := candidates - {next};
      while rest != {}
        invariant rest <= candidates && next in candidates
        invariant forall k :: k in candidates && k !in rest ==> jobs[next].queuedAt <= jobs[k].queuedAt
        decreases rest
      {
        var k :| k in rest;
        rest := rest - {k};
        if jobs[k].queuedAt < jobs[next].queuedAt {
          next := k;
        }
      }
      var row := jobs[next];
      jobs := jobs[next := row.(state := Assigned, workerId := Some(worker),
                                leaseExpiresAt := Some(now + lease), assignedAt := Some(now))];
      Record(Assign(next, worker, languages), now, before);
      return Ok(next);
    }

    method MarkRunning(id: JobId, worker: WorkerId, now: Time) returns (r: Result<(), JobError>)
      requires Valid() && NotBefore(now)
      modifies this
      ensures Valid() && log == old(log) + [Step(JobTable.MarkRunning(id, worker), now)]
      ensures r.Ok? <==> id in old(jobs) && old(jobs)[id].workerId == Some(worker) && old(jobs)[id].state == Assigned
      ensures r.Ok? ==> jobs == old(jobs)[id := old(jobs)[id].(state := Running, startedAt := Some(now))]
      ensures results == old(results) && (r.Err? ==> r.error == LeaseMismatch && jobs == old(jobs))
    {
      ghost var before := Tables();
      r := Err(LeaseMismatch);
      if id in jobs && jobs[id].workerId == Some(worker) && jobs[id].state == Assigned {
        jobs := jobs[id := jobs[id].(state := Running, startedAt := Some(now))];
        r := Ok(());
      }
      Record(JobTable.MarkRunning(id, worker), now, before);
    }

    method RenewLease(id: JobId, worker: WorkerId, now: Time) returns (r: Result<(), JobError>)
      requires Valid() && NotBefore(now)
      modifies this
      ensures Valid() && log == old(log) + [Step(Renew(id, worker), now)]
      ensures r.Ok? <==> id in old(jobs) && old(jobs)[id].workerId == Some(worker)
                         && (old(jobs)[id].state == Assigned || old(jobs)[id].state == Running)
      ensures r.Ok? ==> jobs == old(jobs)[id := old(jobs)[id].(leaseExpiresAt := Some(now + lease))]
      ensures results == old(results) && (r.Err? ==> r.error == LeaseMismatch && jobs == old(jobs))
    {
      ghost var before := Tables();
      r := Err(LeaseMismatch);
      if id in jobs && jobs[id].workerId == Some(worker) && (jobs[id].state == Assigned || jobs[id].state == Running) {
        jobs := jobs[id := jobs[id].(leaseExpiresAt := Some(now + lease))];
        r := Ok(());
      }
      Record(Renew(id, worker), now, before);
    }

    /** The transaction: nothing is visible unless every row can be inserted. */
    method Complete(id: JobId, worker: WorkerId, report: Report, now: Time) returns (r: Result<(), JobError>)
      requires Valid() && NotBefore(now)
      modifies this
      ensures Valid() && log == old(log) + [Step(JobTable.Complete(id, worker, report), now)]
      ensures r == Err(LeaseMismatch) <==>
                !(id in old(jobs) && old(jobs)[id].workerId == Some(worker)
                  && (old(jobs)[id].state == Assigned || old(jobs)[id].state == Running))
      ensures r == Err(ConstraintViolation) <==> r != Err(LeaseMismatch) && RepeatsId(report.testcaseResults)
      ensures r.Err? ==> Tables() == old(Tables())
      ensures r.Ok? ==>
                && jobs == old(jobs)[id := old(jobs)[id].(state := Completed, finishedAt := Some(now),
                                                          leaseExpiresAt := None)]
                && id in results && results == old(results)[id := results[id]] && Records(results[id], report)
    {
      ghost var before := Tables();
      ReachableOk(log, lease);
      if id !in jobs || jobs[id].workerId != Some(worker)
         || (jobs[id].state != Assigned && jobs[id].state != Running)
      {
        Record(JobTable.Complete(id, worker, report), now, before);
        return Err(LeaseMismatch);
      }
      // A held job has no result row yet, so only the test case rows can clash.
      var jobs' := jobs[id := jobs[id].(state := Completed, finishedAt := Some(now), leaseExpiresAt := None)];
      var rows := InsertRows(report.testcaseResults);
      if rows.None? {
        Record(JobTable.Complete(id, worker, report), now, before);
        return Err(ConstraintViolation);
      }
      StoredRecords(report);
      jobs := jobs';
      results := results[id := JobResult(report.overallVerdict, report.totalTimeMs, report.compilerOutput, rows.value)];
      Record(JobTable.Complete(id, worker, report), now, before);
      return Ok(());
    }

    /** One UPDATE over every expired row; returns how many rows it touched. */
    method RequeueExpiredLeases(now: Time) returns (n: nat)
      requires Valid() && NotBefore(now)
      modifies this
      ensures Valid() && log == old(log) + [Step(Sweep, now)]
      ensures jobs.Keys == old(jobs).Keys && results == old(results)
      ensures forall j :: j in jobs ==> Swept(old(jobs)[j], jobs[j], now)
      ensures forall j :: j in jobs && (jobs[j].state == Assigned || jobs[j].state == Running) ==>
                jobs[j].leaseExpiresAt.Some? && now <= jobs[j].leaseExpiresAt.value
      ensures n == |set j | j in old(jobs) && jobs[j] != old(jobs)[j]|
    {
      ghost var before := Tables();
      ReachableOk(log, lease);
      SweepTouches(before, now, lease);
      SweepIsThorough(before, now, lease);
      var expired := set j | j in jobs && LeaseExpired(jobs[j], now);
      n := |expired|;
      jobs := map j | j in jobs :: SweepJob(jobs[j], now);
      assert expired == set j | j in old(jobs) && jobs[j] != old(jobs)[j];
      Record(Sweep, now, before);
    }

    method GetResult(id: JobId) returns (r: Result<JobResult, JobError>)
      requires Valid()
      ensures r.Ok? <==> id in jobs && jobs[id].state == Completed
      ensures r.Ok? ==> id in results && r.value == results[id]
      ensures r.Err? ==> r.error == JobNotFound
    {
      ReachableOk(log, lease);
      if id in results {
        return Ok(results[id]);
      }
      return Err(JobNotFound);
    }
  }
}
