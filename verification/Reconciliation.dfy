/**
  What a submission's status means, over every run of the API and the control plane.
 */
module Reconciliation {
  import opened Prelude
  import opened JobTable
  import opened LeaseProtocol
  import opened TestCases
  import opened Submissions

  type Trace = seq<Action>

  function LastAction(t: Trace): Action
    requires t != []
  {
    t[|t| - 1]
  }

  function InitTrace(t: Trace): Trace
    requires t != []
  {
    t[..|t| - 1]
  }

  /** An action that is not possible does nothing, so every sequence of actions is a run. */
  function Take(s: System, a: Action, lease: nat): System {
    if Possible(s, a) then Next(s, a, lease) else s
  }

  function End(t: Trace, lease: nat): System {
    if t == [] then Submissions.START else Take(End(InitTrace(t), lease), LastAction(t), lease)
  }

  lemma {:induction false} EndIsOk(t: Trace, lease: nat)
    ensures Inv(End(t, lease))
  {
    if t != [] {
      var s := End(InitTrace(t), lease);
      EndIsOk(InitTrace(t), lease);
      if Possible(s, LastAction(t)) {
        StepKeepsInv(s, LastAction(t), lease);
      }
    }
  }

  // ---------------------------------------------------------------------------
  // Statuses are justified, whatever overlaps
  // ---------------------------------------------------------------------------

  /**
    In every run a terminal status was set by refusing or failing to publish the request, or
    it is the mapped verdict of its completed job, or internal_error for a job that has
    failed for good; and a saved result is that of the completed job.
   */
  lemma TerminalStatusIsJustified(t: Trace, lease: nat, sub: SubmissionId)
    ensures var s := End(t, lease);
            sub in s.status && IsTerminal(s.status[sub]) ==>
              var st := s.status[sub];
              if sub in s.f.blocked then st == Blocked
              else if sub in s.f.unpublished then st == Status.InternalError
              else
                && sub in s.f.jobOf && s.f.jobOf[sub] in s.f.db.jobs
                && var j := s.f.jobOf[sub];
                   || (s.f.db.jobs[j].state == Failed && st == Status.InternalError)
                   || (&& s.f.db.jobs[j].state == Completed && j in s.f.db.results
                       && st == VerdictToStatus(s.f.db.results[j].overallVerdict))
    ensures var s := End(t, lease);
            sub in s.saved ==>
              && sub in s.f.jobOf && s.f.jobOf[sub] in s.f.db.results
              && s.saved[sub] == AsSubmissionResult(s.f.db.results[s.f.jobOf[sub]])
  {
    EndIsOk(t, lease);
  }

  /**
    In every run the terminal status of a submission whose job has completed is the one that goes
    with the stored verdict, and its saved result has the fields and rows of the stored one.
   */
  lemma StatusSaysVerdict(t: Trace, lease: nat, sub: SubmissionId)
    requires var s := End(t, lease);
             && sub in s.f.jobOf && s.f.jobOf[sub] in s.f.db.jobs && s.f.db.jobs[s.f.jobOf[sub]].state == Completed
    ensures var s := End(t, lease);
            && s.f.jobOf[sub] in s.f.db.results
            && (sub in s.status && IsTerminal(s.status[sub]) ==>
                  ShowsVerdict(s.status[sub], s.f.db.results[s.f.jobOf[sub]].overallVerdict))
            && (sub in s.saved ==> SavedTells(s.saved[sub], s.f.db.results[s.f.jobOf[sub]]))
  {
    var s := End(t, lease);
    EndIsOk(t, lease);
    CompletedShows(s, sub);
  }

  /** Every field of a saved result, and of each of its entries, is that of the stored result. */
  ghost predicate SavedTells(saved: SubmissionResult, r: JobResult) {
    && saved.overallVerdict == r.overallVerdict && saved.totalTimeMs == r.totalTimeMs
    && saved.compilerOutput == r.compilerOutput && saved.entries.Keys == r.testcases.Keys
    && forall id :: id in r.testcases ==> EntryTells(saved.entries[id], r.testcases[id])
  }

  predicate EntryTells(e: Entry, row: TestcaseResult) {
    && e.testcaseId == row.testcaseId && e.verdict == row.verdict && e.timeMs == row.timeMs
    && e.actualOutput == row.actualOutput && e.stdoutOutput == row.stdoutRef
    && e.inputData == None && e.expectedData == None
  }

  lemma CompletedShows(s: System, sub: SubmissionId)
    requires Inv(s) && sub in s.f.jobOf
    requires s.f.jobOf[sub] in s.f.db.jobs && s.f.db.jobs[s.f.jobOf[sub]].state == Completed
    ensures s.f.jobOf[sub] in s.f.db.results
    ensures sub in s.status && IsTerminal(s.status[sub]) ==>
              ShowsVerdict(s.status[sub], s.f.db.results[s.f.jobOf[sub]].overallVerdict)
    ensures sub in s.saved ==> SavedTells(s.saved[sub], s.f.db.results[s.f.jobOf[sub]])
  {
    VerdictIsShown(s.f.db.results[s.f.jobOf[sub]].overallVerdict);
    assert sub in s.f.published;
  }

  lemma SameTablesGrow(f: Facts, f': Facts)
    requires f'.db == f.db && f'.jobOf == f.jobOf
    requires f.blocked <= f'.blocked && f.unpublished <= f'.unpublished && f.published.Keys <= f'.published.Keys
    ensures Grows(f, f')
  {
  }

  lemma StepGrows(s: System, a: Action, lease: nat)
    requires Inv(s) && Possible(s, a)
    ensures Grows(s.f, Next(s, a, lease).f)
  {
    match a
    case ControlPlane(stmt, now) => ControlPlaneGrows(s, stmt, now, lease);
    case Refuse(c) => SameTablesGrow(s.f, DoRefuse(s, c, s.calls[c].sub).f);
    case Publish(c, ok) => SameTablesGrow(s.f, DoPublish(s, c, s.calls[c].sub, s.calls[c].tests, ok).f);
    case _ =>
      assert Next(s, a, lease).f == s.f;
      SameTablesGrow(s.f, s.f);
  }

  lemma {:induction false} JustifiedStays(t: Trace, lease: nat, i: nat, sub: SubmissionId, st: Status)
    requires i <= |t| && Justified(End(t[..i], lease).f, sub, st)
    ensures Justified(End(t, lease).f, sub, st)
    decreases |t|
  {
    if i == |t| {
      assert t[..i] == t;
    } else {
      var s := End(InitTrace(t), lease);
      assert InitTrace(t)[..i] == t[..i];
      JustifiedStays(InitTrace(t), lease, i, sub, st);
      EndIsOk(InitTrace(t), lease);
      if Possible(s, LastAction(t)) {
        StepGrows(s, LastAction(t), lease);
        JustifiedGrows(s.f, Next(s, LastAction(t), lease).f, sub, st);
      }
    }
  }

  /** A request has one fate, so at most one terminal status is ever justified. */
  lemma JustifiedIsUnique(s: System, sub: SubmissionId, a: Status, b: Status)
    requires Inv(s) && Justified(s.f, sub, a) && Justified(s.f, sub, b)
    ensures a == b
  {
  }

  /** However calls overlap, a submission never shows two different terminal statuses. */
  lemma TerminalStatusesAgree(t: Trace, lease: nat, i: nat, sub: SubmissionId)
    requires i <= |t|
    requires var s := End(t[..i], lease); sub in s.status && IsTerminal(s.status[sub])
    requires var s := End(t, lease); sub in s.status && IsTerminal(s.status[sub])
    ensures End(t, lease).status[sub] == End(t[..i], lease).status[sub]
  {
    EndIsOk(t[..i], lease);
    EndIsOk(t, lease);
    JustifiedStays(t, lease, i, sub, End(t[..i], lease).status[sub]);
    JustifiedIsUnique(End(t, lease), sub, End(t[..i], lease).status[sub], End(t, lease).status[sub]);
  }

  // ---------------------------------------------------------------------------
  // When a terminal status is reverted
  // ---------------------------------------------------------------------------

  /**
    A call writes a status that was open when the call derived it. Two kinds of call do this:
    `GetSubmission`, with the state of a job it has read, and `create`, with `queued` once it has
    published the request.
   */
  predicate StaleWrite(s: System, a: Action, sub: SubmissionId) {
    && Possible(s, a) && a.Write? && a.ok
    && s.calls[a.call].sub == sub && !IsTerminal(s.calls[a.call].next)
  }

  lemma WriteReverts(s: System, c: CallId, ok: bool, sub: SubmissionId)
    requires Inv(s) && c in s.calls && s.calls[c].Writing? && sub in s.status && IsTerminal(s.status[sub])
    ensures var s' := DoWrite(s, c, s.calls[c], ok);
            && sub in s'.status
            && (s'.status[sub] != s.status[sub] <==> ok && s.calls[c].sub == sub && !IsTerminal(s.calls[c].next))
  {
    assert CallOk(s.f, s.status.Keys, s.calls[c]);
    if s.calls[c].sub == sub && IsTerminal(s.calls[c].next) {
      JustifiedIsUnique(s, sub, s.status[sub], s.calls[c].next);
    }
  }

  lemma SaveAgrees(s: System, c: CallId, ok: bool, sub: SubmissionId)
    requires Inv(s) && c in s.calls && s.calls[c].Saving? && sub in s.status && IsTerminal(s.status[sub])
    ensures var s' := DoSave(s, c, s.calls[c], ok); sub in s'.status && s'.status[sub] == s.status[sub]
  {
    var call := s.calls[c];
    var st := VerdictToStatus(call.result.overallVerdict);
    assert CallOk(s.f, s.status.Keys, call);
    if call.sub == sub {
      assert Derived(s.f, sub, st);
      JustifiedIsUnique(s, sub, s.status[sub], st);
    }
  }

  /** One step reverts a terminal status exactly if it is a stale write. */
  lemma StepRevertsIff(s: System, a: Action, lease: nat, sub: SubmissionId)
    requires Inv(s) && Possible(s, a) && sub in s.status && IsTerminal(s.status[sub])
    ensures sub in Next(s, a, lease).status
    ensures Next(s, a, lease).status[sub] != s.status[sub] <==> StaleWrite(s, a, sub)
  {
    match a
    case Write(c, ok) => WriteReverts(s, c, ok, sub);
    case Save(c, ok) => SaveAgrees(s, c, ok, sub);
    case _ => OthersKeepStatus(s, a, lease, sub);
  }

  lemma OthersKeepStatus(s: System, a: Action, lease: nat, sub: SubmissionId)
    requires Possible(s, a) && !a.Write? && !a.Save? && sub in s.status
    ensures sub in Next(s, a, lease).status && Next(s, a, lease).status[sub] == s.status[sub]
  {
  }

  predicate StaleWriteAt(t: Trace, lease: nat, k: nat, sub: SubmissionId) {
    k < |t| && StaleWrite(End(t[..k], lease), t[k], sub)
  }

  /** After `k` actions the submission shows the status it showed after `i`. */
  predicate SameStatus(t: Trace, lease: nat, i: nat, k: nat, sub: SubmissionId) {
    && i <= |t| && k <= |t| && sub in End(t[..i], lease).status && sub in End(t[..k], lease).status
    && End(t[..k], lease).status[sub] == End(t[..i], lease).status[sub]
  }

  lemma EndNext(t: Trace, lease: nat, k: nat)
    requires k < |t|
    ensures End(t[..k + 1], lease) == Take(End(t[..k], lease), t[k], lease)
  {
    assert InitTrace(t[..k + 1]) == t[..k] && LastAction(t[..k + 1]) == t[k];
  }

  /** One action keeps the status exactly if it is not a stale write. */
  lemma NextSameIff(t: Trace, lease: nat, i: nat, k: nat, sub: SubmissionId)
    requires i <= k < |t| && SameStatus(t, lease, i, k, sub) && IsTerminal(End(t[..i], lease).status[sub])
    ensures SameStatus(t, lease, i, k + 1, sub) <==> !StaleWriteAt(t, lease, k, sub)
  {
    EndIsOk(t[..k], lease);
    EndNext(t, lease, k);
    if Possible(End(t[..k], lease), t[k]) {
      StepRevertsIff(End(t[..k], lease), t[k], lease, sub);
    }
  }

  lemma {:induction false} SurvivesWithoutStale(t: Trace, lease: nat, i: nat, k: nat, sub: SubmissionId)
    requires i <= k <= |t| && SameStatus(t, lease, i, i, sub) && IsTerminal(End(t[..i], lease).status[sub])
    requires forall n :: i <= n < k ==> !StaleWriteAt(t, lease, n, sub)
    ensures SameStatus(t, lease, i, k, sub)
    decreases k
  {
    if i < k {
      SurvivesWithoutStale(t, lease, i, k - 1, sub);
      NextSameIff(t, lease, i, k - 1, sub);
    }
  }

  /**
    In every run, whatever overlaps, a terminal status survives every later action exactly if
    none of them is a stale write.
   */
  lemma TerminalSurvivesIff(t: Trace, lease: nat, i: nat, sub: SubmissionId)
    requires i <= |t| && sub in End(t[..i], lease).status && IsTerminal(End(t[..i], lease).status[sub])
    ensures (forall k :: i <= k <= |t| ==> SameStatus(t, lease, i, k, sub))
       <==> (forall k :: i <= k < |t| ==> !StaleWriteAt(t, lease, k, sub))
  {
    if forall k :: i <= k < |t| ==> !StaleWriteAt(t, lease, k, sub) {
      forall k | i <= k <= |t|
        ensures SameStatus(t, lease, i, k, sub)
      {
        SurvivesWithoutStale(t, lease, i, k, sub);
      }
    } else {
      var k :| i <= k < |t| && StaleWriteAt(t, lease, k, sub);
      if SameStatus(t, lease, i, k, sub) {
        NextSameIff(t, lease, i, k, sub);
        assert !SameStatus(t, lease, i, k + 1, sub);
      }
    }
  }

  /** A request that was refused or not delivered has no stale writer: its status is final. */
  lemma RefusedIsFinal(t: Trace, lease: nat, i: nat, sub: SubmissionId)
    requires i <= |t| && sub in End(t[..i], lease).status && IsTerminal(End(t[..i], lease).status[sub])
    requires sub in End(t[..i], lease).f.blocked || sub in End(t[..i], lease).f.unpublished
    ensures SameStatus(t, lease, i, |t|, sub)
  {
    forall k | i <= k < |t|
      ensures !StaleWriteAt(t, lease, k, sub)
    {
      RefusedStays(t, lease, i, k, sub);
      EndIsOk(t[..k], lease);
      NoStaleWriter(End(t[..k], lease), t[k], sub);
    }
    SurvivesWithoutStale(t, lease, i, |t|, sub);
  }

  lemma NoStaleWriter(s: System, a: Action, sub: SubmissionId)
    requires Inv(s) && (sub in s.f.blocked || sub in s.f.unpublished)
    ensures !StaleWrite(s, a, sub)
  {
    if Possible(s, a) && a.Write? {
      assert CallOk(s.f, s.status.Keys, s.calls[a.call]);
    }
  }

  lemma {:induction false} RefusedStays(t: Trace, lease: nat, i: nat, k: nat, sub: SubmissionId)
    requires i <= k <= |t| && (sub in End(t[..i], lease).f.blocked || sub in End(t[..i], lease).f.unpublished)
    ensures sub in End(t[..k], lease).f.blocked || sub in End(t[..k], lease).f.unpublished
    decreases k
  {
    if i < k {
      RefusedStays(t, lease, i, k - 1, sub);
      EndIsOk(t[..k - 1], lease);
      EndNext(t, lease, k - 1);
      if Possible(End(t[..k - 1], lease), t[k - 1]) {
        StepGrows(End(t[..k - 1], lease), t[k - 1], lease);
      }
    }
  }

  // ---------------------------------------------------------------------------
  // One call at a time for a submission: its terminal status is final
  // ---------------------------------------------------------------------------

  predicate StartsCallOn(a: Action, sub: SubmissionId) {
    (a.StartGet? || a.StartCreate?) && a.sub == sub
  }

  /** Calls on `sub` do not overlap; all other steps may come at any moment. */
  predicate SerialOn(t: Trace, lease: nat, sub: SubmissionId) {
    t != [] ==>
      && SerialOn(InitTrace(t), lease, sub)
      && (StartsCallOn(LastAction(t), sub) ==> NoCallOn(End(InitTrace(t), lease).calls, sub))
  }

  predicate NoCallOn(calls: map<CallId, Call>, sub: SubmissionId) {
    forall c :: c in calls ==> calls[c].sub != sub
  }

  /** The call in flight has not yet overtaken its submission's status. */
  predicate Ahead(s: System, call: Call) {
    match call
    case Reading(_) => true
    case Fetching(sub, j) =>
      sub in s.status && j in s.f.db.jobs && (s.f.db.jobs[j].state == Completed ==> !IsTerminal(s.status[sub]))
    case _ => call.sub in s.status && !IsTerminal(s.status[call.sub])
  }

  ghost predicate OneAhead(s: System, sub: SubmissionId) {
    && (forall c, d :: c in s.calls && d in s.calls && s.calls[c].sub == sub && s.calls[d].sub == sub ==> c == d)
    && (forall c :: c in s.calls && s.calls[c].sub == sub ==> Ahead(s, s.calls[c]))
  }

  /** One call moves on; the status of `sub` and the job rows are as before. */
  lemma MoveIsSerial(s: System, s': System, c: CallId, call: Call, sub: SubmissionId)
    requires OneAhead(s, sub) && s'.f.db == s.f.db && s'.calls == s.calls[c := call]
    requires sub in s.status ==> sub in s'.status && s'.status[sub] == s.status[sub]
    requires c in s.calls ==> s.calls[c].sub == call.sub
    requires c !in s.calls && call.sub == sub ==> NoCallOn(s.calls, sub)
    requires call.sub == sub ==> Ahead(s', call)
    ensures OneAhead(s', sub)
  {
  }

  /** One call ends; only its own submission may have got another status. */
  lemma EndIsSerial(s: System, s': System, c: CallId, sub: SubmissionId)
    requires OneAhead(s, sub) && c in s.calls && s'.f.db == s.f.db && s'.calls == s.calls - {c}
    requires s.calls[c].sub != sub && sub in s.status ==> sub in s'.status && s'.status[sub] == s.status[sub]
    ensures OneAhead(s', sub)
  {
  }

  lemma ControlPlaneIsSerial(s: System, stmt: Statement, now: Time, lease: nat, sub: SubmissionId)
    requires Inv(s) && OneAhead(s, sub) && Enabled(s.f.db, stmt) && FromOutbox(s, stmt)
    ensures OneAhead(DoControlPlane(s, stmt, now, lease), sub)
  {
    var s' := DoControlPlane(s, stmt, now, lease);
    ControlPlaneGrows(s, stmt, now, lease);
    forall c | c in s'.calls && s'.calls[c].sub == sub
      ensures Ahead(s', s'.calls[c])
    {
      assert CallOk(s.f, s.status.Keys, s.calls[c]) && Ahead(s, s.calls[c]);
      if s.calls[c].Fetching? {
        assert RowKept(s.f.db, s'.f.db, s.calls[c].job);
      }
    }
  }

  lemma CreateIsSerial(s: System, c: CallId, ok: bool, sub: SubmissionId)
    requires OneAhead(s, sub) && c in s.calls && s.calls[c].Creating?
    ensures OneAhead(DoRefuse(s, c, s.calls[c].sub), sub)
    ensures OneAhead(DoPublish(s, c, s.calls[c].sub, s.calls[c].tests, ok), sub)
  {
    var own, tests := s.calls[c].sub, s.calls[c].tests;
    var next := if ok then InQueue else Status.InternalError;
    MoveIsSerial(s, DoRefuse(s, c, own), c, Writing(own, Blocked, None), sub);
    MoveIsSerial(s, DoPublish(s, c, own, tests, ok), c, Writing(own, next, None), sub);
  }

  lemma ReadJobIsSerial(s: System, c: CallId, found: Option<JobId>, sub: SubmissionId)
    requires OneAhead(s, sub) && Possible(s, ReadJob(c, found))
    ensures OneAhead(DoReadJob(s, c, found), sub)
  {
    var call := s.calls[c];
    EndIsSerial(s, Done(s, c), c, sub);
    if found.Some? {
      var next := AfterJob(call.sub, call.seen, found.value, s.f.db.jobs[found.value].state);
      if next.Some? {
        MoveIsSerial(s, Goto(s, c, next.value), c, next.value, sub);
      }
    }
  }

  lemma ReadResultIsSerial(s: System, c: CallId, ok: bool, sub: SubmissionId)
    requires DbOk(s.f.db) && OneAhead(s, sub) && c in s.calls && s.calls[c].Fetching?
    ensures OneAhead(DoReadResult(s, c, s.calls[c].sub, s.calls[c].job, ok), sub)
  {
    var call := s.calls[c];
    EndIsSerial(s, Done(s, c), c, sub);
    if ok && call.job in s.f.db.results {
      var next := Saving(call.sub, call.job, s.f.db.results[call.job]);
      MoveIsSerial(s, Goto(s, c, next), c, next, sub);
    }
  }

  lemma WriteIsSerial(s: System, c: CallId, ok: bool, sub: SubmissionId)
    requires OneAhead(s, sub) && c in s.calls && s.calls[c].Writing? && CallOk(s.f, s.status.Keys, s.calls[c])
    ensures OneAhead(DoWrite(s, c, s.calls[c], ok), sub)
  {
    var call, s' := s.calls[c], DoWrite(s, c, s.calls[c], ok);
    if call.fetch.None? {
      EndIsSerial(s, s', c, sub);
    } else if call.sub == sub {
      assert forall d :: d in s'.calls && s'.calls[d].sub == sub ==> d == c;
    } else {
      MoveIsSerial(s, s', c, Fetching(call.sub, call.fetch.value), sub);
    }
  }

  lemma ReadStatusIsSerial(s: System, c: CallId, sub: SubmissionId)
    requires OneAhead(s, sub) && c in s.calls && s.calls[c].Reading?
    ensures OneAhead(DoReadStatus(s, c, s.calls[c].sub), sub)
  {
    var own := s.calls[c].sub;
    EndIsSerial(s, Done(s, c), c, sub);
    if own in s.status && !IsTerminal(s.status[own]) {
      MoveIsSerial(s, Goto(s, c, SawOpen(own, s.status[own])), c, SawOpen(own, s.status[own]), sub);
    }
  }

  lemma StepIsSerial(s: System, a: Action, lease: nat, sub: SubmissionId)
    requires Inv(s) && OneAhead(s, sub) && Possible(s, a) && (StartsCallOn(a, sub) ==> NoCallOn(s.calls, sub))
    ensures OneAhead(Next(s, a, lease), sub)
  {
    match a
    case ControlPlane(stmt, now) => ControlPlaneIsSerial(s, stmt, now, lease, sub);
    case StartCreate(c, own, kind, table) =>
      MoveIsSerial(s, Next(s, a, lease), c, Creating(own, Published(kind, table)), sub);
    case StartGet(c, own) => MoveIsSerial(s, Next(s, a, lease), c, Reading(own), sub);
    case Refuse(c) => CreateIsSerial(s, c, true, sub);
    case Publish(c, ok) => CreateIsSerial(s, c, ok, sub);
    case ReadStatus(c) => ReadStatusIsSerial(s, c, sub);
    case ReadJob(c, found) => ReadJobIsSerial(s, c, found, sub);
    case Write(c, ok) =>
      assert CallOk(s.f, s.status.Keys, s.calls[c]);
      WriteIsSerial(s, c, ok, sub);
    case ReadResult(c, ok) => ReadResultIsSerial(s, c, ok, sub);
    case Save(c, ok) => EndIsSerial(s, Next(s, a, lease), c, sub);
    case Abort(c) => EndIsSerial(s, Next(s, a, lease), c, sub);
  }

  lemma {:induction false} SerialStaysAhead(t: Trace, lease: nat, sub: SubmissionId)
    requires SerialOn(t, lease, sub)
    ensures OneAhead(End(t, lease), sub)
  {
    if t != [] {
      var s := End(InitTrace(t), lease);
      SerialStaysAhead(InitTrace(t), lease, sub);
      EndIsOk(InitTrace(t), lease);
      if Possible(s, LastAction(t)) {
        StepIsSerial(s, LastAction(t), lease, sub);
      }
    }
  }

  lemma {:induction false} PrefixIsSerial(t: Trace, lease: nat, sub: SubmissionId, k: nat)
    requires SerialOn(t, lease, sub) && k <= |t|
    ensures SerialOn(t[..k], lease, sub)
    decreases |t|
  {
    if k == |t| {
      assert t[..k] == t;
    } else {
      assert InitTrace(t)[..k] == t[..k];
      PrefixIsSerial(InitTrace(t), lease, sub, k);
    }
  }

  /** With calls on one submission taken one at a time its terminal status never changes. */
  lemma {:induction false} TerminalStatusIsFinal(t: Trace, lease: nat, i: nat, k: nat, sub: SubmissionId)
    requires i <= k <= |t| && SerialOn(t, lease, sub)
    requires sub in End(t[..i], lease).status && IsTerminal(End(t[..i], lease).status[sub])
    ensures SameStatus(t, lease, i, k, sub)
    decreases k
  {
    if i < k {
      TerminalStatusIsFinal(t, lease, i, k - 1, sub);
      PrefixIsSerial(t, lease, sub, k - 1);
      SerialStaysAhead(t[..k - 1], lease, sub);
      AheadIsNotStale(End(t[..k - 1], lease), t[k - 1], sub);
      NextSameIff(t, lease, i, k - 1, sub);
    }
  }

  lemma AheadIsNotStale(s: System, a: Action, sub: SubmissionId)
    requires OneAhead(s, sub) && sub in s.status && IsTerminal(s.status[sub])
    ensures !StaleWrite(s, a, sub)
  {
  }
}
