/**
  Why a terminal status is final only when the calls on a submission do not overlap. A
  GetSubmission that read the job early, or a create that has yet to write `queued`, writes its
  stale status after another call has saved the verdict.
 */
module Overlap {
  import opened Prelude
  import opened JobTable
  import opened LeaseProtocol
  import opened TestCases
  import opened Submissions
  import opened Reconciliation

  /** One more possible action. */
  lemma Play(t: Trace, a: Action, lease: nat) returns (t': Trace)
    requires Possible(End(t, lease), a)
    ensures t' == t + [a] && |t'| == |t| + 1 && t'[..|t|] == t
    ensures End(t', lease) == Next(End(t, lease), a, lease)
  {
    t' := t + [a];
    assert InitTrace(t') == t && LastAction(t') == a;
  }

  const WORKER := "w"

  const TESTS := [ProblemTestCase("t", "", "", false)]

  const REPORT := Report(Verdict.Accepted, None, None,
                         [TestcaseResult("t", Verdict.Accepted, None, Some(""), None)])

  function Request(): CreateJobRequest {
    CreateJobRequest(0, "go", Published(SubmitKind, TESTS), 0)
  }

  /** Job 0 of submission 0 is held by the worker and has no result. */
  predicate Held(s: System) {
    0 in s.f.db.jobs && s.f.db.jobs[0].submissionId == 0 && Holds(s.f.db.jobs[0], WORKER) && 0 !in s.f.db.results
  }

  lemma Submitted(lease: nat) returns (t: Trace)
    ensures var s := End(t, lease);
            && s.calls == map[] && s.status == map[0 := InQueue] && s.f.db == EMPTY
            && s.outbox == map[0 := Published(SubmitKind, TESTS)]
  {
    var tests := Published(SubmitKind, TESTS);
    t := Play([], StartCreate(0, 0, SubmitKind, TESTS), lease);
    assert End(t, lease).calls == map[0 := Creating(0, tests)];
    t := Play(t, Publish(0, true), lease);
    assert End(t, lease).calls == map[0 := Writing(0, InQueue, None)];
    t := Play(t, Write(0, true), lease);
  }

  lemma Started(lease: nat) returns (t: Trace)
    ensures var s := End(t, lease); s.calls == map[] && s.status == map[0 := InQueue] && Held(s)
  {
    t := Submitted(lease);
    t := Play(t, ControlPlane(Create(0, Request()), 0), lease);
    assert End(t, lease).f.db.jobs == map[0 := NewJob(Request(), 0)];
    assert Claimable(End(t, lease).f.db.jobs, {"go"}) == {0};
    t := Play(t, ControlPlane(Assign(0, WORKER, {"go"}), 0), lease);
  }

  /** The first call has seen the job running and is about to write that. */
  lemma StaleCall(lease: nat) returns (t: Trace)
    ensures var s := End(t, lease);
            s.calls == map[1 := Writing(0, InProgress, None)] && s.status == map[0 := InQueue] && Held(s)
  {
    t := Started(lease);
    t := Play(t, StartGet(1, 0), lease);
    assert End(t, lease).calls == map[1 := Reading(0)];
    t := Play(t, ReadStatus(1), lease);
    assert End(t, lease).calls == map[1 := SawOpen(0, InQueue)];
    t := Play(t, ReadJob(1, Some(0)), lease);
  }

  /** The job completes behind its back. */
  lemma Reported(lease: nat) returns (t: Trace)
    ensures var s := End(t, lease);
            && s.calls == map[1 := Writing(0, InProgress, None)] && s.status == map[0 := InQueue]
            && JobOf(s.f.db, 0, 0) && s.f.db.jobs[0].state == Completed
            && 0 in s.f.db.results && s.f.db.results[0].overallVerdict == Verdict.Accepted
  {
    t := StaleCall(lease);
    t := Play(t, ControlPlane(Complete(0, WORKER, REPORT), 0), lease);
  }

  /** A second call reads the submission before anything is written. */
  lemma SecondStart(lease: nat) returns (t: Trace)
    ensures var s := End(t, lease);
            && s.calls == map[1 := Writing(0, InProgress, None), 2 := SawOpen(0, InQueue)]
            && s.status == map[0 := InQueue]
            && JobOf(s.f.db, 0, 0) && s.f.db.jobs[0].state == Completed
            && 0 in s.f.db.results && s.f.db.results[0].overallVerdict == Verdict.Accepted
  {
    t := Reported(lease);
    t := Play(t, StartGet(2, 0), lease);
    assert End(t, lease).calls[2] == Reading(0);
    t := Play(t, ReadStatus(2), lease);
  }

  /** It then reads that the job has completed. */
  lemma SecondCall(lease: nat) returns (t: Trace)
    ensures var s := End(t, lease);
            && s.calls == map[1 := Writing(0, InProgress, None), 2 := Writing(0, InProgress, Some(0))]
            && s.status == map[0 := InQueue]
            && 0 in s.f.db.results && s.f.db.results[0].overallVerdict == Verdict.Accepted
  {
    t := SecondStart(lease);
    t := Play(t, ReadJob(2, Some(0)), lease);
  }

  /** It fetches the result and saves it. */
  lemma SecondSaved(lease: nat) returns (t: Trace)
    ensures var s := End(t, lease);
            1 in s.calls && s.calls[1] == Writing(0, InProgress, None) && s.status == map[0 := Status.Accepted]
  {
    t := SecondCall(lease);
    t := Play(t, Write(2, true), lease);
    assert End(t, lease).calls[2] == Fetching(0, 0);
    t := Play(t, ReadResult(2, true), lease);
    assert End(t, lease).calls[2].Saving?;
    t := Play(t, Save(2, true), lease);
  }

  /** A run in which an accepted submission goes back to running. */
  lemma OverlapRevertsStatus(lease: nat) returns (t: Trace, i: nat)
    ensures i <= |t| && 0 in End(t[..i], lease).status && 0 in End(t, lease).status
    ensures End(t[..i], lease).status[0] == Status.Accepted
    ensures End(t, lease).status[0] == InProgress
  {
    t := SecondSaved(lease);
    i := |t|;
    t := Play(t, Write(1, true), lease);
  }

  // ---------------------------------------------------------------------------
  // The other stale writer: create, which has published but not yet written `queued`
  // ---------------------------------------------------------------------------

  /** The job is assigned while its `create` call is still to write. */
  lemma CreatorWaits(lease: nat) returns (t: Trace)
    ensures var s := End(t, lease);
            s.calls == map[0 := Writing(0, InQueue, None)] && s.status == map[0 := Pending] && Held(s)
  {
    var tests := Published(SubmitKind, TESTS);
    t := Play([], StartCreate(0, 0, SubmitKind, TESTS), lease);
    assert End(t, lease).calls == map[0 := Creating(0, tests)];
    t := Play(t, Publish(0, true), lease);
    t := Play(t, ControlPlane(Create(0, Request()), 0), lease);
    assert End(t, lease).f.db.jobs == map[0 := NewJob(Request(), 0)];
    assert Claimable(End(t, lease).f.db.jobs, {"go"}) == {0};
    t := Play(t, ControlPlane(Assign(0, WORKER, {"go"}), 0), lease);
  }

  lemma CreatorMissesResult(lease: nat) returns (t: Trace)
    ensures var s := End(t, lease);
            && s.calls == map[0 := Writing(0, InQueue, None)] && s.status == map[0 := Pending]
            && JobOf(s.f.db, 0, 0) && s.f.db.jobs[0].state == Completed
            && 0 in s.f.db.results && s.f.db.results[0].overallVerdict == Verdict.Accepted
  {
    t := CreatorWaits(lease);
    t := Play(t, ControlPlane(Complete(0, WORKER, REPORT), 0), lease);
  }

  lemma ReaderSeesPending(lease: nat) returns (t: Trace)
    ensures var s := End(t, lease);
            && s.calls == map[0 := Writing(0, InQueue, None), 2 := Writing(0, InProgress, Some(0))]
            && s.status == map[0 := Pending]
            && 0 in s.f.db.results && s.f.db.results[0].overallVerdict == Verdict.Accepted
  {
    t := CreatorMissesResult(lease);
    t := Play(t, StartGet(2, 0), lease);
    assert End(t, lease).calls[2] == Reading(0);
    t := Play(t, ReadStatus(2), lease);
    assert End(t, lease).calls[2] == SawOpen(0, Pending);
    t := Play(t, ReadJob(2, Some(0)), lease);
  }

  lemma ReaderSaves(lease: nat) returns (t: Trace)
    ensures var s := End(t, lease);
            0 in s.calls && s.calls[0] == Writing(0, InQueue, None) && s.status == map[0 := Status.Accepted]
  {
    t := ReaderSeesPending(lease);
    t := Play(t, Write(2, true), lease);
    assert End(t, lease).calls[2] == Fetching(0, 0);
    t := Play(t, ReadResult(2, true), lease);
    assert End(t, lease).calls[2].Saving?;
    t := Play(t, Save(2, true), lease);
  }

  /** A run in which an accepted submission goes back to queued. */
  lemma CreateRevertsStatus(lease: nat) returns (t: Trace, i: nat)
    ensures i <= |t| && 0 in End(t[..i], lease).status && 0 in End(t, lease).status
    ensures End(t[..i], lease).status[0] == Status.Accepted
    ensures End(t, lease).status[0] == InQueue
  {
    t := ReaderSaves(lease);
    i := |t|;
    t := Play(t, Write(0, true), lease);
  }
}
