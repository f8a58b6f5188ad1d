/**
  The API's submission tables and `GetSubmission` as the service runs it, tied to the steps
  of the joint system.
 */
module SubmissionStore {
  import opened Prelude
  import opened JobTable
  import opened LeaseProtocol
  import opened Submissions
  import opened Reconciliation

  /** What the client for the control plane returned for a submission's job. */
  datatype JobRead = JobRead(id: JobId, state: JobState)

  /** The steps of one GetSubmission call up to the status write. */
  ghost function FirstHalf(s: System, c: CallId, sub: SubmissionId, found: Option<JobId>, updateOk: bool): System
    requires found.Some? ==> JobOf(s.f.db, sub, found.value)
  {
    var a := DoReadStatus(Goto(s, c, Reading(sub)), c, sub);
    if c !in a.calls then a
    else
      var b := DoReadJob(a, c, found);
      if c in b.calls && b.calls[c].Writing? then DoWrite(b, c, b.calls[c], updateOk) else b
  }

  /** Its steps from the result read on, if it gets there. */
  ghost function SecondHalf(d: System, c: CallId, fetchOk: bool, saveOk: bool): System {
    if c !in d.calls || !d.calls[c].Fetching? then d
    else
      var e := DoReadResult(d, c, d.calls[c].sub, d.calls[c].job, fetchOk);
      if c !in e.calls || !e.calls[c].Saving? then e else DoSave(e, c, e.calls[c], saveOk)
  }

  /** A whole call that no other call overlaps; the facts have moved on to `f'` in between. */
  ghost function CallSteps(s: System, c: CallId, sub: SubmissionId, found: Option<JobId>,
                           updateOk: bool, f': Facts, fetchOk: bool, saveOk: bool): System
    requires found.Some? ==> JobOf(s.f.db, sub, found.value)
  {
    SecondHalf(FirstHalf(s, c, sub, found, updateOk).(f := f'), c, fetchOk, saveOk)
  }

  datatype Tables = Tables(status: map<SubmissionId, Status>, saved: map<SubmissionId, SubmissionResult>)

  function Mirror(t: Tables, sub: SubmissionId, state: JobState, ok: bool): Tables
    requires sub in t.status
  {
    var next := JobStateToStatus(state);
    if ok && next != t.status[sub] then t.(status := t.status[sub := next]) else t
  }

  function Settle(t: Tables, sub: SubmissionId, result: JobResult, ok: bool): Tables {
    if !ok then t
    else Tables(t.status[sub := VerdictToStatus(result.overallVerdict)],
                if sub in t.saved then t.saved else t.saved[sub := AsSubmissionResult(result)])
  }

  /** What one call does to the tables, given what it read. */
  function Reconciled(t: Tables, sub: SubmissionId, job: Option<JobRead>, result: Option<JobResult>,
                      updateOk: bool, saveOk: bool): Tables
  {
    if sub !in t.status || IsTerminal(t.status[sub]) || job.None? then t
    else
      var m := Mirror(t, sub, job.value.state, updateOk);
      if Ended(job.value.state) && result.Some?
      then Settle(m, sub, result.value, saveOk) else m
  }

  /** The facts and reads that a call's parameters stand for. */
  predicate ReadsFrom(s: System, f': Facts, sub: SubmissionId, job: Option<JobRead>, result: Option<JobResult>) {
    && (job.Some? ==> JobOf(s.f.db, sub, job.value.id) && s.f.db.jobs[job.value.id].state == job.value.state)
    && (job.Some? && result.Some? ==>
          job.value.id in f'.db.results && f'.db.results[job.value.id] == result.value)
  }

  function IdOf(job: Option<JobRead>): Option<JobId> {
    if job.Some? then Some(job.value.id) else None
  }

  predicate Ended(state: JobState) {
    state == Completed || state == Failed
  }

  lemma FirstHalfMirrors(s: System, c: CallId, sub: SubmissionId, j: JobId, updateOk: bool)
    requires c !in s.calls && JobOf(s.f.db, sub, j) && sub in s.status && !IsTerminal(s.status[sub])
    ensures var d := FirstHalf(s, c, sub, Some(j), updateOk);
            var state := s.f.db.jobs[j].state;
            && Tables(d.status, d.saved) == Mirror(Tables(s.status, s.saved), sub, state, updateOk)
            && (if Ended(state) then c in d.calls && d.calls[c] == Fetching(sub, j) else c !in d.calls)
  {
    var a := DoReadStatus(Goto(s, c, Reading(sub)), c, sub);
    assert a.calls[c] == SawOpen(sub, s.status[sub]);
    var b := DoReadJob(a, c, Some(j));
    var next := AfterJob(sub, s.status[sub], j, s.f.db.jobs[j].state);
    assert next.Some? ==> b.calls[c] == next.value;
  }

  lemma SecondHalfSettles(d: System, c: CallId, sub: SubmissionId, j: JobId, result: Option<JobResult>, saveOk: bool)
    requires c in d.calls && d.calls[c] == Fetching(sub, j)
    requires result.Some? ==> j in d.f.db.results && d.f.db.results[j] == result.value
    ensures var s' := SecondHalf(d, c, result.Some?, saveOk);
            Tables(s'.status, s'.saved)
            == if result.Some? then Settle(Tables(d.status, d.saved), sub, result.value, saveOk)
               else Tables(d.status, d.saved)
  {
  }

  /** Taken one at a time, a call's steps have exactly that effect. */
  lemma CallStepsReconcile(s: System, c: CallId, f': Facts, sub: SubmissionId, job: Option<JobRead>,
                                              result: Option<JobResult>, updateOk: bool, saveOk: bool)
    requires c !in s.calls && ReadsFrom(s, f', sub, job, result)
    ensures var s' := CallSteps(s, c, sub, IdOf(job), updateOk, f', result.Some?, saveOk);
            Tables(s'.status, s'.saved)
            == Reconciled(Tables(s.status, s.saved), sub, job, result, updateOk, saveOk)
  {
    if sub in s.status && !IsTerminal(s.status[sub]) && job.Some? {
      FirstHalfMirrors(s, c, sub, job.value.id, updateOk);
      var d := FirstHalf(s, c, sub, IdOf(job), updateOk).(f := f');
      if Ended(job.value.state) {
        SecondHalfSettles(d, c, sub, job.value.id, result, saveOk);
      }
    }
  }

  /** What the control plane answers now about a submission's job. */
  function JobNow(f: Facts, sub: SubmissionId): JobRead
    requires sub in f.jobOf && f.jobOf[sub] in f.db.jobs
  {
    JobRead(f.jobOf[sub], f.db.jobs[f.jobOf[sub]].state)
  }

  function ResultNow(f: Facts, sub: SubmissionId): Option<JobResult>
    requires sub in f.jobOf
  {
    if f.jobOf[sub] in f.db.results then Some(f.db.results[f.jobOf[sub]]) else None
  }

  /** One call with good reads and writes brings the status that an ended job stands for. */
  lemma ReconciledIsDerived(s: System, sub: SubmissionId, st: Status)
    requires Inv(s) && sub in s.status && Derived(s.f, sub, st)
    ensures sub in s.f.jobOf && s.f.jobOf[sub] in s.f.db.jobs
    ensures var t := Tables(s.status, s.saved);
            var healed := Reconciled(t, sub, Some(JobNow(s.f, sub)), ResultNow(s.f, sub), true, true);
            sub in healed.status && healed.status[sub] == st
  {
    if IsTerminal(s.status[sub]) {
      JustifiedIsUnique(s, sub, s.status[sub], st);
    } else {
      OpenIsDerived(Tables(s.status, s.saved), s.f, sub, st);
    }
  }

  lemma OpenIsDerived(t: Tables, f: Facts, sub: SubmissionId, st: Status)
    requires DbOk(f.db) && Derived(f, sub, st) && sub in t.status && !IsTerminal(t.status[sub])
    ensures var healed := Reconciled(t, sub, Some(JobNow(f, sub)), ResultNow(f, sub), true, true);
            sub in healed.status && healed.status[sub] == st
  {
  }

  /**
    A stale write heals. Once a submission with a job has shown a terminal status, an
    uninterrupted call with good reads and writes leaves it with that status again.
   */
  lemma StatusHeals(t: Trace, lease: nat, i: nat, sub: SubmissionId, c: CallId)
    requires i <= |t| && c !in End(t, lease).calls
    requires sub in End(t[..i], lease).status && IsTerminal(End(t[..i], lease).status[sub])
    requires sub in End(t, lease).f.jobOf
    ensures var s := End(t, lease);
            && JobOf(s.f.db, sub, s.f.jobOf[sub])
            && var found := s.f.jobOf[sub] in s.f.db.results;
               var s' := CallSteps(s, c, sub, Some(s.f.jobOf[sub]), true, s.f, found, true);
               sub in s'.status && s'.status[sub] == End(t[..i], lease).status[sub]
  {
    var s, st := End(t, lease), End(t[..i], lease).status[sub];
    EndIsOk(t[..i], lease);
    EndIsOk(t, lease);
    JustifiedStays(t, lease, i, sub, st);
    HealingCall(s, c, sub, st);
  }

  lemma HealingCall(s: System, c: CallId, sub: SubmissionId, st: Status)
    requires Inv(s) && c !in s.calls && sub in s.f.jobOf && Justified(s.f, sub, st)
    ensures JobOf(s.f.db, sub, s.f.jobOf[sub])
    ensures var found := s.f.jobOf[sub] in s.f.db.results;
            var s' := CallSteps(s, c, sub, Some(s.f.jobOf[sub]), true, s.f, found, true);
            sub in s'.status && s'.status[sub] == st
  {
    assert JobOf(s.f.db, sub, s.f.jobOf[sub]);
    JobMeansDerived(s, sub, st);
    ReconciledIsDerived(s, sub, st);
    CallStepsReconcile(s, c, s.f, sub, Some(JobNow(s.f, sub)), ResultNow(s.f, sub), true, true);
  }

  /** A request with a job was neither refused nor lost, so its status comes from the job. */
  lemma JobMeansDerived(s: System, sub: SubmissionId, st: Status)
    requires Inv(s) && sub in s.f.jobOf && Justified(s.f, sub, st)
    ensures Derived(s.f, sub, st) && sub in s.status
  {
    assert sub in s.f.published;
  }

  /** Which status a call shows, given the stored one and what it read. */
  ghost predicate Shows(was: Status, shown: Status, job: Option<JobRead>, result: Option<JobResult>) {
    if IsTerminal(was) || job.None? then shown == was
    else
      match job.value.state
      case Queued => shown == InQueue
      case Assigned => shown == InProgress
      case Running => shown == InProgress
      case Completed => if result.None? then shown == InProgress else ShowsVerdict(shown, result.value.overallVerdict)
      case Failed =>
        if result.None? then shown == Status.InternalError else ShowsVerdict(shown, result.value.overallVerdict)
      case RetryPending => shown == Status.InternalError
  }

  class SubmissionStore {
    var status: map<SubmissionId, Status>
    var saved: map<SubmissionId, SubmissionResult>

    constructor ()
      ensures status == map[] && saved == map[]
    {
      status, saved := map[], map[];
    }

    /** INSERT with status 'pending'. */
    method Create(sub: SubmissionId)
      requires sub !in status
      modifies this`status
      ensures status == old(status)[sub := Pending]
    {
      status := status[sub := Pending];
    }

    /** UPDATE of one row; an id without a row updates nothing. */
    method UpdateStatus(sub: SubmissionId, st: Status, ok: bool)
      modifies this`status
      ensures status == if ok && sub in old(status) then old(status)[sub := st] else old(status)
    {
      if ok && sub in status {
        status := status[sub := st];
      }
    }

    /** Result row and status in one transaction; an existing result row is kept. */
    method SaveResult(sub: SubmissionId, row: SubmissionResult, st: Status, ok: bool)
      requires sub in status
      modifies this
      ensures status == if ok then old(status)[sub := st] else old(status)
      ensures saved == if ok && sub !in old(saved) then old(saved)[sub := row] else old(saved)
    {
      if ok {
        if sub !in saved {
          saved := saved[sub := row];
        }
        status := status[sub := st];
      }
    }

    /**
      `job` and `result` are what the control plane returned at two moments, None for an
      error.  A terminal status is shown only if it was stored or follows from what was read.
     */
    method GetSubmission(sub: SubmissionId, job: Option<JobRead>, result: Option<JobResult>,
                         updateOk: bool, saveOk: bool)
      returns (shown: Option<Status>)
      modifies this
      ensures Tables(status, saved)
           == Reconciled(Tables(old(status), old(saved)), sub, job, result, updateOk, saveOk)
      ensures shown.None? <==> sub !in old(status)
      ensures shown.Some? ==> Shows(old(status)[sub], shown.value, job, result)
      ensures shown.Some? && updateOk && saveOk ==> status == old(status)[sub := shown.value]
      ensures if && sub in old(status) && !IsTerminal(old(status)[sub]) && sub !in old(saved) && saveOk
                 && job.Some? && (job.value.state == Completed || job.value.state == Failed) && result.Some?
              then sub in saved && SavedTells(saved[sub], result.value)
              else saved == old(saved)
      ensures forall other :: other != sub ==>
                && (other in status <==> other in old(status)) && (other in saved <==> other in old(saved))
                && (other in status ==> status[other] == old(status)[other])
                && (other in saved ==> saved[other] == old(saved)[other])
    {
      if sub !in status {
        return None;
      }
      var current := status[sub];
      if IsTerminal(current) {
        return Some(current);
      }
      if job.None? {
        return Some(current);
      }
      var next := JobStateToStatus(job.value.state);
      if next != current {
        UpdateStatus(sub, next, updateOk);
        current := next;
      }
      if job.value.state == Completed || job.value.state == Failed {
        if result.None? {
          return Some(current);
        }
        current := VerdictToStatus(result.value.overallVerdict);
        VerdictIsShown(result.value.overallVerdict);
        SaveResult(sub, AsSubmissionResult(result.value), current, saveOk);
      }
      return Some(current);
    }
  }
}
