/**
  What "accepted" means, from the published test cases to the status.
 */
module EndToEnd {
  import opened Prelude
  import opened JobTable
  import opened LeaseProtocol
  import opened Verdicts
  import opened TestCases
  import opened Submissions
  import opened Reconciliation

  // ---------------------------------------------------------------------------
  // Stored rows
  // ---------------------------------------------------------------------------

  /** Test `k` has exactly one stored row, judged Accepted on an answer that compares equal. */
  ghost predicate TestPassed(test: TestCase, rows: map<string, TestcaseResult>, same: Compare) {
    && test.id in rows && rows[test.id].verdict == Verdict.Accepted
    && rows[test.id].actualOutput.Some? && same(rows[test.id].actualOutput.value, test.expected)
  }

  /** An accepted result covers every test, with one row each and no other rows. */
  ghost predicate CoversTests(tests: seq<TestCase>, r: JobResult, same: Compare) {
    && |r.testcases| == |tests|
    && (forall k :: 0 <= k < |tests| ==> TestPassed(tests[k], r.testcases, same))
    && (forall i, k :: 0 <= i < k < |tests| ==> tests[i].id != tests[k].id)
  }

  lemma StoredCoversTests(tests: seq<TestCase>, report: Report, same: Compare)
    requires FromRunner(tests, report, same) && DistinctIds(report.testcaseResults)
    requires report.overallVerdict == Verdict.Accepted
    ensures CoversTests(tests, Stored(report), same)
  {
    var rows := report.testcaseResults;
    AcceptedReport(tests, report, same);
    ByIdContents(rows);
    forall k | 0 <= k < |tests|
      ensures TestPassed(tests[k], Stored(report).testcases, same)
    {
      assert Passed(tests, rows, k, same);
    }
    forall i, k | 0 <= i < k < |tests|
      ensures tests[i].id != tests[k].id
    {
      assert Passed(tests, rows, i, same) && Passed(tests, rows, k, same);
    }
  }

  // ---------------------------------------------------------------------------
  // Every accepted submission passed every published test
  // ---------------------------------------------------------------------------

  /** The report of this step, if it is one, comes from a real runner on the job's own tests. */
  ghost predicate Genuine(s: System, a: Action, same: Compare) {
    a.ControlPlane? && a.stmt.Complete? && a.stmt.job in s.f.db.jobs ==>
      FromRunner(s.f.db.jobs[a.stmt.job].testCases, a.stmt.report, same)
  }

  ghost predicate GenuineTrace(t: Trace, lease: nat, same: Compare) {
    t != [] ==>
      GenuineTrace(InitTrace(t), lease, same) && Genuine(End(InitTrace(t), lease), LastAction(t), same)
  }

  /** The stored result is a report that a real runner can give for these tests. */
  ghost predicate StoredFrom(tests: seq<TestCase>, r: JobResult, same: Compare) {
    exists report :: FromRunner(tests, report, same) && DistinctIds(report.testcaseResults) && r == Stored(report)
  }

  ghost predicate ResultsGenuine(db: Db, same: Compare) {
    forall j :: j in db.results && j in db.jobs ==> StoredFrom(db.jobs[j].testCases, db.results[j], same)
  }

  lemma StatementKeepsGenuine(db: Db, stmt: Statement, now: Time, lease: nat, same: Compare)
    requires DbOk(db) && Enabled(db, stmt) && ResultsGenuine(db, same)
    requires stmt.Complete? && stmt.job in db.jobs ==> FromRunner(db.jobs[stmt.job].testCases, stmt.report, same)
    ensures ResultsGenuine(Apply(db, stmt, now, lease), same)
  {
    var db' := Apply(db, stmt, now, lease);
    forall j | j in db'.results && j in db'.jobs
      ensures StoredFrom(db'.jobs[j].testCases, db'.results[j], same)
    {
      if j in db.results {
        StatementKeepsRow(db, stmt, now, lease, j);
      } else {
        assert stmt.Complete? && stmt.job == j && db'.results[j] == Stored(stmt.report);
      }
    }
  }

  lemma ApiKeepsTables(s: System, a: Action, lease: nat)
    requires Possible(s, a) && !a.ControlPlane?
    ensures Next(s, a, lease).f.db == s.f.db
  {
  }

  lemma {:induction false} TraceIsGenuine(t: Trace, lease: nat, same: Compare)
    requires GenuineTrace(t, lease, same)
    ensures ResultsGenuine(End(t, lease).f.db, same)
  {
    if t != [] {
      var s, a := End(InitTrace(t), lease), LastAction(t);
      TraceIsGenuine(InitTrace(t), lease, same);
      EndIsOk(InitTrace(t), lease);
      if Possible(s, a) {
        if a.ControlPlane? {
          StatementKeepsGenuine(s.f.db, a.stmt, a.now, lease, same);
        } else {
          ApiKeepsTables(s, a, lease);
        }
      }
    }
  }

  /** The request of `sub` carries the tests that its `create` call selected. */
  ghost predicate Selected(t: Trace, sub: SubmissionId, tests: seq<TestCase>) {
    exists i :: SelectedAt(t, i, sub, tests)
  }

  predicate SelectedAt(t: Trace, i: int, sub: SubmissionId, tests: seq<TestCase>) {
    0 <= i < |t| && t[i].StartCreate? && t[i].sub == sub && tests == Published(t[i].kind, t[i].table)
  }

  lemma SelectedGrows(t: Trace, sub: SubmissionId, tests: seq<TestCase>)
    requires t != [] && Selected(InitTrace(t), sub, tests)
    ensures Selected(t, sub, tests)
  {
    var i :| SelectedAt(InitTrace(t), i, sub, tests);
    assert SelectedAt(t, i, sub, tests);
  }

  /** Where a step can find the tests it publishes or holds. */
  lemma TestsComeFrom(s: System, a: Action, lease: nat)
    requires Possible(s, a)
    ensures var s' := Next(s, a, lease);
            && (forall sub :: sub in s'.f.published ==>
                  || (sub in s.f.published && s'.f.published[sub] == s.f.published[sub])
                  || (&& a.Publish? && s.calls[a.call].Creating? && s.calls[a.call].sub == sub
                      && s'.f.published[sub] == s.calls[a.call].tests))
            && (forall c :: c in s'.calls && s'.calls[c].Creating? ==>
                  || (c in s.calls && s'.calls[c] == s.calls[c])
                  || (a.StartCreate? && s'.calls[c] == Creating(a.sub, Published(a.kind, a.table))))
  {
  }

  ghost predicate AllSelected(t: Trace, s: System) {
    && (forall sub :: sub in s.f.published ==> Selected(t, sub, s.f.published[sub]))
    && (forall c :: c in s.calls && s.calls[c].Creating? ==> Selected(t, s.calls[c].sub, s.calls[c].tests))
  }

  lemma AllSelectedGrows(t: Trace, s: System)
    requires t != [] && AllSelected(InitTrace(t), s)
    ensures AllSelected(t, s)
  {
    forall sub | sub in s.f.published
      ensures Selected(t, sub, s.f.published[sub])
    {
      SelectedGrows(t, sub, s.f.published[sub]);
    }
    forall c | c in s.calls && s.calls[c].Creating?
      ensures Selected(t, s.calls[c].sub, s.calls[c].tests)
    {
      SelectedGrows(t, s.calls[c].sub, s.calls[c].tests);
    }
  }

  lemma StepKeepsSelected(t: Trace, s: System, lease: nat)
    requires t != [] && AllSelected(t, s) && Possible(s, LastAction(t))
    ensures AllSelected(t, Next(s, LastAction(t), lease))
  {
    var a := LastAction(t);
    TestsComeFrom(s, a, lease);
    if a.StartCreate? {
      assert SelectedAt(t, |t| - 1, a.sub, Published(a.kind, a.table));
    }
  }

  lemma {:induction false} RequestsAreSelected(t: Trace, lease: nat)
    ensures AllSelected(t, End(t, lease))
  {
    if t != [] {
      var s := End(InitTrace(t), lease);
      RequestsAreSelected(InitTrace(t), lease);
      AllSelectedGrows(t, s);
      if Possible(s, LastAction(t)) {
        StepKeepsSelected(t, s, lease);
      }
    }
  }

  /** The status accepted leads to a completed job, its accepted result and its published tests. */
  lemma AcceptedFacts(s: System, sub: SubmissionId)
    requires Inv(s) && sub in s.status && s.status[sub] == Status.Accepted
    ensures sub in s.f.published && s.f.published[sub] != []
    ensures sub in s.f.jobOf && s.f.jobOf[sub] in s.f.db.jobs && s.f.jobOf[sub] in s.f.db.results
    ensures s.f.db.jobs[s.f.jobOf[sub]].testCases == s.f.published[sub]
    ensures s.f.db.results[s.f.jobOf[sub]].overallVerdict == Verdict.Accepted
  {
    assert Justified(s.f, sub, Status.Accepted);
    assert JobOf(s.f.db, sub, s.f.jobOf[sub]);
  }

  lemma AcceptedState(t: Trace, s: System, sub: SubmissionId, same: Compare)
    requires Inv(s) && ResultsGenuine(s.f.db, same) && AllSelected(t, s)
    requires sub in s.status && s.status[sub] == Status.Accepted
    ensures sub in s.f.published && s.f.published[sub] != [] && Selected(t, sub, s.f.published[sub])
    ensures sub in s.f.jobOf && s.f.jobOf[sub] in s.f.db.results
    ensures CoversTests(s.f.published[sub], s.f.db.results[s.f.jobOf[sub]], same)
  {
    AcceptedFacts(s, sub);
    GenuineCovers(s.f.published[sub], s.f.db.results[s.f.jobOf[sub]], same);
  }

  lemma GenuineCovers(tests: seq<TestCase>, r: JobResult, same: Compare)
    requires StoredFrom(tests, r, same) && r.overallVerdict == Verdict.Accepted
    ensures CoversTests(tests, r, same)
  {
    var report :| FromRunner(tests, report, same) && DistinctIds(report.testcaseResults) && r == Stored(report);
    StoredCoversTests(tests, report, same);
  }

  /**
    With a faithful runner, an accepted submission had a non-empty list of published tests,
    the ones its request selected, and each of them got exactly one row: Accepted, on an
    answer that compares equal to the expected one.
   */
  lemma AcceptedMeansAllTestsPassed(t: Trace, lease: nat, sub: SubmissionId, same: Compare)
    requires GenuineTrace(t, lease, same)
    requires var s := End(t, lease); sub in s.status && s.status[sub] == Status.Accepted
    ensures var s := End(t, lease);
            && sub in s.f.published && s.f.published[sub] != []
            && Selected(t, sub, s.f.published[sub])
            && sub in s.f.jobOf && s.f.jobOf[sub] in s.f.db.results
            && CoversTests(s.f.published[sub], s.f.db.results[s.f.jobOf[sub]], same)
  {
    EndIsOk(t, lease);
    TraceIsGenuine(t, lease, same);
    RequestsAreSelected(t, lease);
    AcceptedState(t, End(t, lease), sub, same);
  }

  // ---------------------------------------------------------------------------
  // The same, over the problem's own table
  // ---------------------------------------------------------------------------

  /** A row of the table has a stored result: Accepted, on an answer equal to its expected data. */
  ghost predicate RowPassed(row: ProblemTestCase, rows: map<string, TestcaseResult>, same: Compare) {
    && row.externalId in rows && rows[row.externalId].verdict == Verdict.Accepted
    && rows[row.externalId].actualOutput.Some?
    && same(rows[row.externalId].actualOutput.value, row.expectedData)
  }

  lemma WantedRowPassed(kind: Kind, table: seq<ProblemTestCase>, r: JobResult, same: Compare, i: nat)
    requires CoversTests(Published(kind, table), r, same) && i < |table| && Wanted(kind, table[i])
    ensures RowPassed(table[i], r.testcases, same)
  {
    var tests, idx := Published(kind, table), Chosen(kind, table);
    PublishedSelects(kind, table);
    assert i in idx;
    var k :| 0 <= k < |idx| && idx[k] == i;
    assert CarriesRow(tests[k], table[idx[k]]) && TestPassed(tests[k], r.testcases, same);
  }

  /**
    With a faithful runner, an accepted submission was created from a table with something to
    run, and every row of that table, or every visible row for a run, has a stored result that is
    Accepted on an answer equal to that row's expected data.
   */
  lemma AcceptedMeansTablePassed(t: Trace, lease: nat, sub: SubmissionId, same: Compare) returns (i: nat)
    requires GenuineTrace(t, lease, same)
    requires var s := End(t, lease); sub in s.status && s.status[sub] == Status.Accepted
    ensures i < |t| && t[i].StartCreate? && t[i].sub == sub && AnyWanted(t[i].kind, t[i].table)
    ensures var s := End(t, lease);
            && sub in s.f.jobOf && s.f.jobOf[sub] in s.f.db.results
            && forall k :: 0 <= k < |t[i].table| && Wanted(t[i].kind, t[i].table[k]) ==>
                 RowPassed(t[i].table[k], s.f.db.results[s.f.jobOf[sub]].testcases, same)
  {
    AcceptedMeansAllTestsPassed(t, lease, sub, same);
    var s := End(t, lease);
    var tests, r := s.f.published[sub], s.f.db.results[s.f.jobOf[sub]];
    i :| SelectedAt(t, i, sub, tests);
    SomethingPublished(t[i].kind, t[i].table);
    TablePassed(t[i].kind, t[i].table, r, same);
  }

  lemma TablePassed(kind: Kind, table: seq<ProblemTestCase>, r: JobResult, same: Compare)
    requires CoversTests(Published(kind, table), r, same)
    ensures forall k :: 0 <= k < |table| && Wanted(kind, table[k]) ==> RowPassed(table[k], r.testcases, same)
  {
    forall k | 0 <= k < |table| && Wanted(kind, table[k])
      ensures RowPassed(table[k], r.testcases, same)
    {
      WantedRowPassed(kind, table, r, same, k);
    }
  }

  // ---------------------------------------------------------------------------
  // A failing status is that of the first test that failed
  // ---------------------------------------------------------------------------

  /** Test `k` is the first whose stored row is not accepted, and `v` is that row's verdict. */
  ghost predicate FailsFirst(tests: seq<TestCase>, rows: map<string, TestcaseResult>, k: int, v: Verdict) {
    && 0 <= k < |tests| && tests[k].id in rows && rows[tests[k].id].verdict == v && v != Verdict.Accepted
    && forall i :: 0 <= i < k ==> tests[i].id in rows && rows[tests[i].id].verdict == Verdict.Accepted
  }

  /** The stored rows are the results of a faithful run, each under the id of its test. */
  ghost predicate RowsFrom(tests: seq<TestCase>, rows: map<string, TestcaseResult>, raw: seq<RunnerResult>) {
    && |raw| == |tests| && |rows| == |tests|
    && forall k :: 0 <= k < |tests| ==> tests[k].id in rows && RowTells(rows[tests[k].id], raw[k])
  }

  lemma StoredRowsFrom(tests: seq<TestCase>, raw: seq<RunnerResult>, report: Report, same: Compare)
    requires Faithful(tests, raw, same) && IsRows(raw, report.testcaseResults) && DistinctIds(report.testcaseResults)
    ensures RowsFrom(tests, Stored(report).testcases, raw)
  {
    var rows := report.testcaseResults;
    ByIdContents(rows);
    forall k | 0 <= k < |tests|
      ensures tests[k].id in Stored(report).testcases && RowTells(Stored(report).testcases[tests[k].id], raw[k])
    {
      assert RowTells(rows[k], raw[k]) && raw[k].id == tests[k].id;
    }
  }

  /** A result that is not an internal error holds the rows of a faithful run. */
  lemma GenuineRows(tests: seq<TestCase>, r: JobResult, same: Compare) returns (raw: seq<RunnerResult>)
    requires StoredFrom(tests, r, same) && r.overallVerdict != Verdict.InternalError
    ensures Faithful(tests, raw, same) && RowsFrom(tests, r.testcases, raw)
    ensures IsOverall(raw, r.overallVerdict) || r.overallVerdict == SandboxViolation
  {
    var report :| FromRunner(tests, report, same) && DistinctIds(report.testcaseResults) && r == Stored(report);
    raw :| Faithful(tests, raw, same) && Reports(raw, report);
    StoredRowsFrom(tests, raw, report, same);
  }

  lemma OverallFailsFirst(tests: seq<TestCase>, rows: map<string, TestcaseResult>, raw: seq<RunnerResult>, v: Verdict)
    returns (k: nat)
    requires RowsFrom(tests, rows, raw) && IsOverall(raw, v) && v != Verdict.Accepted
    ensures FailsFirst(tests, rows, k, v)
  {
    k :| FirstFailure(raw, k) && raw[k].verdict == v;
    assert RowTells(rows[tests[k].id], raw[k]);
    forall i | 0 <= i < k
      ensures tests[i].id in rows && rows[tests[i].id].verdict == Verdict.Accepted
    {
      assert RowTells(rows[tests[i].id], raw[i]);
    }
  }

  /** The statuses that say that some test failed. */
  predicate SaysFailed(st: Status) {
    || st == Status.WrongAnswer || st == Status.TimeLimitExceeded || st == Status.MemoryLimitExceeded
    || st == Status.RuntimeError || st == Status.CompilationError
  }

  /**
    With faithful runners, a submission with a failing status has a published test whose row
    carries exactly the verdict of that status, and every test before it was accepted.
   */
  lemma FailingStatusIsFirstFailure(t: Trace, lease: nat, sub: SubmissionId, same: Compare) returns (k: nat, v: Verdict)
    requires GenuineTrace(t, lease, same)
    requires var s := End(t, lease); sub in s.status && SaysFailed(s.status[sub])
    ensures var s := End(t, lease);
            && sub in s.f.published && sub in s.f.jobOf && s.f.jobOf[sub] in s.f.db.results
            && ShowsVerdict(s.status[sub], v)
            && FailsFirst(s.f.published[sub], s.f.db.results[s.f.jobOf[sub]].testcases, k, v)
  {
    var s := End(t, lease);
    EndIsOk(t, lease);
    TraceIsGenuine(t, lease, same);
    FailingFacts(s, sub);
    var tests, r := s.f.published[sub], s.f.db.results[s.f.jobOf[sub]];
    v := r.overallVerdict;
    var raw := GenuineRows(tests, r, same);
    k := OverallFailsFirst(tests, r.testcases, raw, v);
  }

  lemma FailingFacts(s: System, sub: SubmissionId)
    requires Inv(s) && sub in s.status && SaysFailed(s.status[sub])
    ensures sub in s.f.published && sub in s.f.jobOf
    ensures s.f.jobOf[sub] in s.f.db.jobs && s.f.jobOf[sub] in s.f.db.results
    ensures s.f.db.jobs[s.f.jobOf[sub]].testCases == s.f.published[sub]
    ensures ShowsVerdict(s.status[sub], s.f.db.results[s.f.jobOf[sub]].overallVerdict)
  {
    assert Justified(s.f, sub, s.status[sub]);
    assert JobOf(s.f.db, sub, s.f.jobOf[sub]);
    CompletedShows(s, sub);
  }

  /**
    With faithful runners, the entries saved for a submission carry the runner's own verdict,
    time, answer and output for each published test.
   */
  lemma EntriesAreRunners(t: Trace, lease: nat, sub: SubmissionId, same: Compare) returns (raw: seq<RunnerResult>)
    requires GenuineTrace(t, lease, same)
    requires var s := End(t, lease); sub in s.saved && s.saved[sub].overallVerdict != Verdict.InternalError
    ensures var s := End(t, lease);
            && sub in s.f.published && Faithful(s.f.published[sub], raw, same)
            && |s.saved[sub].entries| == |raw|
            && forall k :: 0 <= k < |raw| ==> EntryOf(s.saved[sub].entries, raw[k])
  {
    var s := End(t, lease);
    EndIsOk(t, lease);
    TraceIsGenuine(t, lease, same);
    SavedFacts(s, sub);
    var tests, r := s.f.published[sub], s.f.db.results[s.f.jobOf[sub]];
    raw := GenuineRows(tests, r, same);
    EntriesFrom(tests, s.saved[sub], r, raw, same);
  }

  /** The entry under a result's id has that result's verdict, time, answer and output. */
  predicate EntryOf(entries: map<string, Entry>, r: RunnerResult) {
    && r.id in entries && entries[r.id].testcaseId == r.id && entries[r.id].verdict == r.verdict
    && entries[r.id].timeMs == Some(r.timeMs)
    && entries[r.id].actualOutput == Some(r.actual) && entries[r.id].stdoutOutput == Some(r.stdout)
  }

  lemma EntriesFrom(tests: seq<TestCase>, saved: SubmissionResult, r: JobResult, raw: seq<RunnerResult>, same: Compare)
    requires SavedTells(saved, r) && RowsFrom(tests, r.testcases, raw) && Faithful(tests, raw, same)
    ensures |saved.entries| == |raw| && forall k :: 0 <= k < |raw| ==> EntryOf(saved.entries, raw[k])
  {
    assert |saved.entries| == |saved.entries.Keys| == |r.testcases.Keys| == |r.testcases|;
    forall k | 0 <= k < |raw|
      ensures EntryOf(saved.entries, raw[k])
    {
      var id := tests[k].id;
      assert raw[k].id == id && RowTells(r.testcases[id], raw[k]) && EntryTells(saved.entries[id], r.testcases[id]);
    }
  }

  lemma SavedFacts(s: System, sub: SubmissionId)
    requires Inv(s) && sub in s.saved
    ensures sub in s.f.published && sub in s.f.jobOf
    ensures s.f.jobOf[sub] in s.f.db.jobs && s.f.jobOf[sub] in s.f.db.results
    ensures s.f.db.jobs[s.f.jobOf[sub]].testCases == s.f.published[sub]
    ensures SavedTells(s.saved[sub], s.f.db.results[s.f.jobOf[sub]])
  {
    assert SavedOk(s.f, sub, s.saved[sub]);
    assert JobOf(s.f.db, sub, s.f.jobOf[sub]);
    CompletedShows(s, sub);
  }
}
