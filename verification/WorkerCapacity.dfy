/**
  The worker's capacity discipline. One poll loop checks the number of active jobs, asks the
  control plane for work and registers what it gets, in separate critical sections; job runs
  finish and heartbeats are sent at any moment in between.
 */
module WorkerCapacity {
  import opened Prelude
  import JobTable

  type JobId = JobTable.JobId
  /** Names one run of a job; the map of active jobs keeps the run's cancel function. */
  type Handle = nat

  /** Where the poll loop stands. */
  datatype Loop = Idle | Polling | Received(job: JobId)

  datatype Worker = Worker(
    active: map<JobId, Handle>,
    runs: map<Handle, JobId>,
    started: nat,
    loop: Loop,
    reported: seq<nat>)

  datatype Event =
    | Check
    | Reply(assignment: Option<JobId>)
    | Register
    | Finish(run: Handle)
    | Heartbeat

  const INITIAL := Worker(map[], map[], 0, Idle, [])

  predicate Enabled(w: Worker, e: Event) {
    match e
    case Check => w.loop.Idle?
    case Reply(_) => w.loop.Polling?
    case Register => w.loop.Received?
    case Finish(run) => run in w.runs
    case Heartbeat => true
  }

  function Happen(w: Worker, e: Event, capacity: int): Worker
    requires Enabled(w, e)
  {
    match e
    case Check => if |w.active| >= capacity then w else w.(loop := Polling)
    case Reply(assignment) => w.(loop := if assignment.Some? then Received(assignment.value) else Idle)
    case Register =>
      w.(active := w.active[w.loop.job := w.started],
         runs := w.runs[w.started := w.loop.job],
         started := w.started + 1,
         loop := Idle)
    case Finish(run) => w.(active := w.active - {w.runs[run]}, runs := w.runs - {run})
    case Heartbeat => w.(reported := w.reported + [|w.active|])
  }

  function After(run: seq<Event>, capacity: int): (w: Worker) {
    if run == [] then INITIAL
    else
      var before, e := After(run[..|run| - 1], capacity), run[|run| - 1];
      if Enabled(before, e) then Happen(before, e, capacity) else before
  }

  // ---------------------------------------------------------------------------
  // The map never exceeds the capacity
  // ---------------------------------------------------------------------------

  function Room(capacity: int): nat {
    if capacity > 0 then capacity else 0
  }

  /** Between the check and the registration one place is spoken for. */
  function Reserved(l: Loop): nat {
    if l.Idle? then 0 else 1
  }

  ghost predicate CapacityOk(w: Worker, capacity: int) {
    && |w.active| + Reserved(w.loop) <= Room(capacity)
    && (forall n :: n in w.reported ==> n <= Room(capacity))
  }

  lemma PutSize<K, V>(m: map<K, V>, k: K, v: V)
    ensures |m[k := v]| == if k in m then |m| else |m| + 1
  {
    assert |m| == |m.Keys| && |m[k := v]| == |m[k := v].Keys|;
    assert m[k := v].Keys == m.Keys + {k};
  }

  lemma RemoveSize<K, V>(m: map<K, V>, k: K)
    ensures |m - {k}| == if k in m then |m| - 1 else |m|
  {
    assert |m| == |m.Keys| && |m - {k}| == |(m - {k}).Keys|;
    assert (m - {k}).Keys == m.Keys - {k};
  }

  lemma StepKeepsCapacity(w: Worker, e: Event, capacity: int)
    requires CapacityOk(w, capacity) && Enabled(w, e)
    ensures CapacityOk(Happen(w, e, capacity), capacity)
  {
    if e.Register? {
      PutSize(w.active, w.loop.job, w.started);
    } else if e.Finish? {
      RemoveSize(w.active, w.runs[e.run]);
    }
  }

  /** In every interleaving the map, and so every heartbeat's count, stays within the capacity. */
  lemma {:induction false} CapacityHolds(run: seq<Event>, capacity: int)
    ensures CapacityOk(After(run, capacity), capacity)
    decreases |run|
  {
    if run != [] {
      var init, e := run[..|run| - 1], run[|run| - 1];
      CapacityHolds(init, capacity);
      if Enabled(After(init, capacity), e) {
        StepKeepsCapacity(After(init, capacity), e, capacity);
      }
    }
  }

  // ---------------------------------------------------------------------------
  // What the map says about the runs that are going on
  // ---------------------------------------------------------------------------

  /** Every entry belongs to a run of that job that is still going on. */
  ghost predicate EntriesRun(w: Worker) {
    && (forall job :: job in w.active ==> w.active[job] in w.runs && w.runs[w.active[job]] == job)
    && (forall h :: h in w.runs ==> h < w.started)
  }

  lemma {:induction false} EntriesAreRuns(run: seq<Event>, capacity: int)
    ensures EntriesRun(After(run, capacity))
    decreases |run|
  {
    if run != [] {
      EntriesAreRuns(run[..|run| - 1], capacity);
    }
  }

  /** No job is handed out while an earlier run of it is still going on. */
  predicate NoRepeats(run: seq<Event>, capacity: int) {
    run != [] ==>
      var before := After(run[..|run| - 1], capacity);
      && NoRepeats(run[..|run| - 1], capacity)
      && (run[|run| - 1].Register? && before.loop.Received? ==> before.loop.job !in before.runs.Values)
  }

  ghost predicate RunsListed(w: Worker) {
    && |w.runs| == |w.active|
    && (forall h :: h in w.runs ==> w.runs[h] in w.active && w.active[w.runs[h]] == h)
  }

  lemma RegisterKeepsListed(w: Worker, capacity: int)
    requires RunsListed(w) && EntriesRun(w) && w.loop.Received? && w.loop.job !in w.runs.Values
    ensures RunsListed(Happen(w, Register, capacity))
  {
    assert w.loop.job !in w.active;
    PutSize(w.active, w.loop.job, w.started);
    PutSize(w.runs, w.started, w.loop.job);
    assert forall h :: h in w.runs ==> w.runs[h] in w.runs.Values;
  }

  lemma FinishKeepsListed(w: Worker, run: Handle, capacity: int)
    requires RunsListed(w) && run in w.runs
    ensures RunsListed(Happen(w, Finish(run), capacity))
  {
    var job := w.runs[run];
    RemoveSize(w.active, job);
    RemoveSize(w.runs, run);
    forall h | h in w.runs && h != run
      ensures w.runs[h] != job
    {
      assert w.active[w.runs[h]] == h;
    }
  }

  lemma {:induction false} RunsAreListed(run: seq<Event>, capacity: int)
    requires NoRepeats(run, capacity)
    ensures RunsListed(After(run, capacity))
    decreases |run|
  {
    if run != [] {
      var init, e := run[..|run| - 1], run[|run| - 1];
      RunsAreListed(init, capacity);
      EntriesAreRuns(init, capacity);
      if Enabled(After(init, capacity), e) {
        if e.Register? {
          RegisterKeepsListed(After(init, capacity), capacity);
        } else if e.Finish? {
          FinishKeepsListed(After(init, capacity), e.run, capacity);
        }
      }
    }
  }

  /** Without repeats the number of runs going on is within the capacity as well. */
  lemma RunsWithinCapacity(run: seq<Event>, capacity: int)
    requires NoRepeats(run, capacity)
    ensures |After(run, capacity).runs| <= Room(capacity)
  {
    RunsAreListed(run, capacity);
    CapacityHolds(run, capacity);
  }

  /** The same job received `n` times over. */
  function Repeated(job: JobId, n: nat): seq<Event> {
    if n == 0 then [] else Repeated(job, n - 1) + [Check] + [Reply(Some(job))] + [Register]
  }

  lemma AfterNext(run: seq<Event>, e: Event, capacity: int)
    requires Enabled(After(run, capacity), e)
    ensures After(run + [e], capacity) == Happen(After(run, capacity), e, capacity)
  {
    assert (run + [e])[..|run|] == run;
  }

  /**
    With repeats it has no bound: a worker with room for two or more that is given one job again
    and again starts a run each time, while its map shows a single active job.
   */
  lemma {:induction false} RepeatsAreNotBounded(job: JobId, n: nat, capacity: int)
    requires capacity >= 2
    ensures var w := After(Repeated(job, n), capacity);
            && |w.runs| == n && w.loop.Idle? && w.active.Keys <= {job}
            && (forall h :: h in w.runs ==> h < w.started)
  {
    if n > 0 {
      RepeatsAreNotBounded(job, n - 1, capacity);
      var run := Repeated(job, n - 1);
      var w := After(run, capacity);
      assert |w.active| == |w.active.Keys| && |w.active.Keys| <= 1 by {
        if w.active.Keys != {} {
          assert w.active.Keys == {job};
        }
      }
      AfterNext(run, Check, capacity);
      AfterNext(run + [Check], Reply(Some(job)), capacity);
      AfterNext(run + [Check] + [Reply(Some(job))], Register, capacity);
      PutSize(w.runs, w.started, job);
    }
  }

  /** With room for one, nothing is running when work is asked for. */
  ghost predicate OneAtATime(w: Worker) {
    RunsListed(w) && EntriesRun(w) && (!w.loop.Idle? ==> w.runs == map[])
  }

  lemma OneStep(w: Worker, e: Event, capacity: int)
    requires capacity <= 1 && OneAtATime(w) && Enabled(w, e)
    ensures OneAtATime(Happen(w, e, capacity)) && (e.Register? ==> w.loop.job !in w.runs.Values)
  {
    if e.Register? {
      RegisterKeepsListed(w, capacity);
    } else if e.Finish? {
      FinishKeepsListed(w, e.run, capacity);
    }
  }

  lemma {:induction false} RoomForOneHasNoRepeats(run: seq<Event>, capacity: int)
    requires capacity <= 1
    ensures OneAtATime(After(run, capacity)) && NoRepeats(run, capacity)
    decreases |run|
  {
    if run != [] {
      var init, e := run[..|run| - 1], run[|run| - 1];
      RoomForOneHasNoRepeats(init, capacity);
      if Enabled(After(init, capacity), e) {
        OneStep(After(init, capacity), e, capacity);
      }
    }
  }

  /** A capacity for which the runs going on never exceed it, whatever jobs are handed out. */
  ghost predicate RunsAlwaysFit(capacity: int) {
    forall run :: |After(run, capacity).runs| <= Room(capacity)
  }

  /** The capacities for which that is so: one, which is the default, or less. */
  lemma RunsAlwaysFitIff(capacity: int)
    ensures RunsAlwaysFit(capacity) <==> capacity <= 1
  {
    if capacity <= 1 {
      forall run
        ensures |After(run, capacity).runs| <= Room(capacity)
      {
        RoomForOneHasNoRepeats(run, capacity);
        RunsWithinCapacity(run, capacity);
      }
    } else {
      RepeatsAreNotBounded(0, capacity + 1, capacity);
      assert |After(Repeated(0, capacity + 1), capacity).runs| > Room(capacity);
    }
  }

  // ---------------------------------------------------------------------------
  // The worker's critical sections
  // ---------------------------------------------------------------------------

  /**
    The map of active jobs. A ghost log records every step of the worker, so each state of the
    object is the end of a run and the theorems above apply to it.
   */
  class ActiveJobs {
    var jobs: map<JobId, Handle>
    var started: nat
    const capacity: int
    ghost var log: seq<Event>

    ghost function View(): Worker
      reads this
    {
      After(log, capacity)
    }

    ghost predicate Valid()
      reads this
    {
      jobs == View().active && started == View().started
    }

    constructor (capacity: int)
      ensures Valid() && log == [] && this.capacity == capacity
    {
      jobs, started, log := map[], 0, [];
      this.capacity := capacity;
    }

    ghost method Record(e: Event)
      requires Enabled(View(), e)
      modifies this`log
      ensures log == old(log) + [e] && View() == Happen(old(View()), e, capacity)
    {
      AfterNext(log, e, capacity);
      log := log + [e];
    }

    /**
      The check that opens a poll. Its lock is released before the control plane is asked, and
      still a place stays free for the answer: until it is registered, whatever else happens.
     */
    method HasRoom() returns (room: bool)
      requires Valid() && View().loop.Idle?
      modifies this`log
      ensures Valid() && log == old(log) + [Check] && (room <==> View().loop.Polling?)
      ensures room ==>
                forall more :: !After(log + more, capacity).loop.Idle? ==>
                  |After(log + more, capacity).active| < capacity
    {
      var count := |jobs|;
      room := !(count >= capacity);
      Record(Check);
      forall more | !After(log + more, capacity).loop.Idle?
        ensures room ==> |After(log + more, capacity).active| < capacity
      {
        CapacityHolds(log + more, capacity);
      }
    }

    /** The answer of the control plane: an assignment, or none on an error or an empty queue. */
    ghost method Receive(assignment: Option<JobId>)
      requires Valid() && View().loop.Polling?
      modifies this`log
      ensures Valid() && log == old(log) + [Reply(assignment)]
      ensures assignment.Some? ==> View().loop == Received(assignment.value)
    {
      Record(Reply(assignment));
    }

    /** Registering an assignment never takes the map over the capacity. */
    method Add(job: JobId) returns (run: Handle)
      requires Valid() && View().loop == Received(job)
      modifies this
      ensures Valid() && log == old(log) + [Register]
      ensures jobs == old(jobs)[job := run] && View().runs == old(View()).runs[run := job]
      ensures run !in old(View()).runs && |jobs| <= Room(capacity)
    {
      EntriesAreRuns(log, capacity);
      run := started;
      jobs := jobs[job := run];
      started := started + 1;
      Record(Register);
      CapacityHolds(log, capacity);
    }

    /** The cleanup of a run frees the entry of its job, also one that a later run has made. */
    method Remove(job: JobId, run: Handle)
      requires Valid() && run in View().runs && View().runs[run] == job
      modifies this
      ensures Valid() && log == old(log) + [Finish(run)]
      ensures jobs == old(jobs) - {job} && View().runs == old(View()).runs - {run}
      ensures |jobs| <= Room(capacity) && forall j :: j in jobs ==> jobs[j] in View().runs
    {
      jobs := jobs - {job};
      Record(Finish(run));
      CapacityHolds(log, capacity);
      EntriesAreRuns(log, capacity);
    }

    /** A heartbeat never reports more jobs than the capacity, nor more than are running. */
    method Count() returns (n: nat)
      requires Valid()
      modifies this`log
      ensures Valid() && log == old(log) + [Heartbeat] && View().reported == old(View()).reported + [n]
      ensures n == |jobs| && n <= Room(capacity) && n <= |View().runs|
    {
      n := |jobs|;
      CapacityHolds(log, capacity);
      EntriesFewerThanRuns(log, capacity);
      Record(Heartbeat);
    }
  }

  /** The map shows at most as many jobs as there are runs. */
  lemma EntriesFewerThanRuns(run: seq<Event>, capacity: int)
    ensures |After(run, capacity).active| <= |After(run, capacity).runs|
  {
    EntriesAreRuns(run, capacity);
    var w := After(run, capacity);
    FewerKeys(w.active, w.runs);
  }

  lemma {:induction false} FewerKeys(active: map<JobId, Handle>, runs: map<Handle, JobId>)
    requires forall job :: job in active ==> active[job] in runs && runs[active[job]] == job
    ensures |active| <= |runs|
    decreases |active|
  {
    if active.Keys != {} {
      var job :| job in active;
      RemoveSize(active, job);
      RemoveSize(runs, active[job]);
      FewerKeys(active - {job}, runs - {active[job]});
    } else {
      assert |active| == |active.Keys|;
    }
  }
}
