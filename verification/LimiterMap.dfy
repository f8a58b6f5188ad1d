/**
  The shared map of limiter windows. A request looks its window up and asks it in two steps;
  the idle sweep checks a window under its lock and deletes its key after releasing the lock.
  All of these steps interleave.
 */
module LimiterMap {
  import opened Prelude
  import opened RateLimit

  type Key = string

  datatype Event =
    | Lookup(key: Key)
    | Ask(id: nat, now: Time)
    | SweepCheck(key: Key)
    | SweepDelete

  /** Windows in the order they were made, each with its key; `marked` awaits its deletion. */
  datatype Registry = Registry(byKey: map<Key, nat>, keys: seq<Key>, windows: seq<Window>, marked: Option<Key>)

  const EMPTY := Registry(map[], [], [], None)

  predicate Registered(r: Registry, id: nat) {
    id < |r.keys| && r.keys[id] in r.byKey && r.byKey[r.keys[id]] == id
  }

  /** Readings on one window come in lock order; one sweep at a time visits keys of the map. */
  predicate CanHappen(r: Registry, e: Event) {
    match e
    case Lookup(_) => true
    case Ask(id, now) => id < |r.windows| && (r.windows[id].last.Some? ==> r.windows[id].last.value <= now)
    case SweepCheck(key) => r.marked.None? && key in r.byKey
    case SweepDelete => r.marked.Some?
  }

  function Happen(r: Registry, e: Event, limit: int, window: int): Registry {
    match e
    case Lookup(key) =>
      if key in r.byKey then r
      else r.(byKey := r.byKey[key := |r.windows|], keys := r.keys + [key], windows := r.windows + [FRESH])
    case Ask(id, now) =>
      if id < |r.windows| then r.(windows := r.windows[id := Request(r.windows[id], limit, window, now)]) else r
    case SweepCheck(key) =>
      if key in r.byKey && r.byKey[key] < |r.windows| && r.windows[r.byKey[key]].timestamps == []
      then r.(marked := Some(key)) else r
    case SweepDelete =>
      if r.marked.Some? then r.(byKey := r.byKey - {r.marked.value}, marked := None) else r
  }

  function After(run: seq<Event>, limit: int, window: int): Registry {
    if run == [] then EMPTY
    else
      var before, e := After(run[..|run| - 1], limit, window), run[|run| - 1];
      if CanHappen(before, e) then Happen(before, e, limit, window) else before
  }

  lemma AfterNext(run: seq<Event>, e: Event, limit: int, window: int)
    requires CanHappen(After(run, limit, window), e)
    ensures After(run + [e], limit, window) == Happen(After(run, limit, window), e, limit, window)
  {
    assert (run + [e])[..|run|] == run;
  }

  // ---------------------------------------------------------------------------
  // What every step keeps
  // ---------------------------------------------------------------------------

  /** A window that was asked has admitted, and nothing after its last reading. */
  ghost predicate Tidy(w: Window, limit: int) {
    && (w.last.None? ==> w == FRESH)
    && (w.last.Some? && limit >= 1 ==> w.admitted != [])
    && (w.last.Some? ==> forall t :: t in w.admitted ==> t <= w.last.value)
  }

  ghost predicate MapOk(r: Registry) {
    && |r.keys| == |r.windows|
    && (forall key :: key in r.byKey ==> r.byKey[key] < |r.windows| && r.keys[r.byKey[key]] == key)
    && (r.marked.Some? ==> r.marked.value in r.byKey)
  }

  ghost predicate WindowsOk(ws: seq<Window>, limit: int, window: int) {
    forall id :: 0 <= id < |ws| ==> WindowOk(ws[id], limit, window) && Tidy(ws[id], limit)
  }

  lemma RequestKeepsTidy(w: Window, limit: int, window: int, now: Time)
    requires Tidy(w, limit) && (w.last.Some? ==> w.last.value <= now)
    ensures Tidy(Request(w, limit, window, now), limit)
  {
  }

  lemma HappenKeepsOk(r: Registry, e: Event, limit: int, window: int)
    requires MapOk(r) && WindowsOk(r.windows, limit, window) && CanHappen(r, e)
    ensures var r' := Happen(r, e, limit, window); MapOk(r') && WindowsOk(r'.windows, limit, window)
  {
    NothingIsBounded(limit, window);
    if e.Ask? {
      RequestKeepsOk(r.windows[e.id], limit, window, e.now);
      RequestKeepsTidy(r.windows[e.id], limit, window, e.now);
    }
  }

  /** Over every run, every window ever made obeys the limit. */
  lemma {:induction false} RunIsOk(run: seq<Event>, limit: int, window: int)
    ensures var r := After(run, limit, window); MapOk(r) && WindowsOk(r.windows, limit, window)
    decreases |run|
  {
    if run != [] {
      var before := After(run[..|run| - 1], limit, window);
      RunIsOk(run[..|run| - 1], limit, window);
      if CanHappen(before, run[|run| - 1]) {
        HappenKeepsOk(before, run[|run| - 1], limit, window);
      }
    }
  }

  // ---------------------------------------------------------------------------
  // What the sweep deletes
  // ---------------------------------------------------------------------------

  /** The admissions of the window that a key has now. */
  function Current(r: Registry, key: Key): seq<Time> {
    if key in r.byKey && r.byKey[key] < |r.windows| then r.windows[r.byKey[key]].admitted else []
  }

  /** The window marked for deletion has been asked after the sweep's check. */
  predicate AskedSinceCheck(run: seq<Event>, limit: int, window: int) {
    if run == [] then false
    else
      var init, e := run[..|run| - 1], run[|run| - 1];
      var r := After(init, limit, window);
      if !CanHappen(r, e) then AskedSinceCheck(init, limit, window)
      else
        match e
        case Lookup(_) => AskedSinceCheck(init, limit, window)
        case Ask(id, _) => AskedSinceCheck(init, limit, window) || (Registered(r, id) && r.marked == Some(r.keys[id]))
        case SweepCheck(_) => false
        case SweepDelete => false
  }

  /** The sweep deletes a window that has admitted exactly when it was asked after the check. */
  lemma {:induction false} SweepDropsUsedIff(run: seq<Event>, limit: int, window: int)
    requires limit >= 1
    ensures var r := After(run, limit, window);
            r.marked.Some? ==> (Current(r, r.marked.value) != [] <==> AskedSinceCheck(run, limit, window))
    decreases |run|
  {
    if run != [] {
      var init, e := run[..|run| - 1], run[|run| - 1];
      var r := After(init, limit, window);
      SweepDropsUsedIff(init, limit, window);
      RunIsOk(init, limit, window);
      if CanHappen(r, e) {
        MarkedStep(r, e, limit, window);
      }
    }
  }

  /** A check marks unused windows only; a request on the marked window makes it used. */
  lemma MarkedStep(r: Registry, e: Event, limit: int, window: int)
    requires limit >= 1 && MapOk(r) && WindowsOk(r.windows, limit, window) && CanHappen(r, e)
    ensures var r' := Happen(r, e, limit, window);
            r'.marked.Some? ==>
              var key := r'.marked.value;
              && (e.SweepCheck? ==> Current(r', key) == [])
              && (e.Lookup? ==> r.marked == r'.marked && Current(r', key) == Current(r, key))
              && (e.Ask? ==> r.marked == r'.marked)
              && (e.Ask? ==>
                    (Current(r', key) != [] <==> Current(r, key) != [] || (Registered(r, e.id) && r.keys[e.id] == key)))
  {
    if e.Ask? {
      RequestKeepsTidy(r.windows[e.id], limit, window, e.now);
    } else if e.SweepCheck? {
      assert WindowOk(r.windows[r.byKey[e.key]], limit, window);
    }
  }

  /** So a check followed at once by its deletion never drops a window that has admitted. */
  lemma SweepKeepsUsedWindows(run: seq<Event>, limit: int, window: int, key: Key)
    requires limit >= 1 && CanHappen(After(run, limit, window), SweepCheck(key))
    ensures var r := After(run, limit, window);
            var swept := Happen(Happen(r, SweepCheck(key), limit, window), SweepDelete, limit, window);
            if Current(r, key) == [] then swept.byKey == r.byKey - {key} else swept == r
  {
    RunIsOk(run, limit, window);
    var r := After(run, limit, window);
    assert WindowOk(r.windows[r.byKey[key]], limit, window) && Tidy(r.windows[r.byKey[key]], limit);
  }

  // ---------------------------------------------------------------------------
  // The limit per key
  // ---------------------------------------------------------------------------

  /** What an event admits for a key. */
  function Added(r: Registry, e: Event, limit: int, window: int, key: Key): seq<Time> {
    if && CanHappen(r, e) && e.Ask? && e.id < |r.keys| && r.keys[e.id] == key
       && |Live(r.windows[e.id].timestamps, e.now - window)| < limit
    then [e.now] else []
  }

  /** All admissions made for a key, through whatever window. */
  function AdmittedFor(run: seq<Event>, limit: int, window: int, key: Key): seq<Time> {
    if run == [] then []
    else
      var init, e := run[..|run| - 1], run[|run| - 1];
      AdmittedFor(init, limit, window, key) + Added(After(init, limit, window), e, limit, window, key)
  }

  lemma AdmittedNext(run: seq<Event>, e: Event, limit: int, window: int, key: Key)
    ensures AdmittedFor(run + [e], limit, window, key)
            == AdmittedFor(run, limit, window, key) + Added(After(run, limit, window), e, limit, window, key)
  {
    assert (run + [e])[..|run|] == run;
  }

  /** A request on a window that is out of the map, or between its check and its deletion. */
  predicate Raced(r: Registry, e: Event) {
    CanHappen(r, e) && e.Ask? && (!Registered(r, e.id) || r.marked == Some(r.keys[e.id]))
  }

  predicate NoRaces(run: seq<Event>, limit: int, window: int) {
    run != [] ==>
      && NoRaces(run[..|run| - 1], limit, window)
      && !Raced(After(run[..|run| - 1], limit, window), run[|run| - 1])
  }

  /** Without races, a window that is out of the map or marked was never asked. */
  ghost predicate Quiet(r: Registry) {
    && (forall id :: 0 <= id < |r.windows| && !Registered(r, id) ==> r.windows[id] == FRESH)
    && (r.marked.Some? && r.marked.value in r.byKey && r.byKey[r.marked.value] < |r.windows| ==>
          r.windows[r.byKey[r.marked.value]] == FRESH)
  }

  lemma QuietStep(r: Registry, e: Event, limit: int, window: int)
    requires limit >= 1 && MapOk(r) && WindowsOk(r.windows, limit, window) && Quiet(r)
    requires CanHappen(r, e) && !Raced(r, e)
    ensures Quiet(Happen(r, e, limit, window))
  {
    if e.SweepCheck? {
      var w := r.windows[r.byKey[e.key]];
      assert WindowOk(w, limit, window) && Tidy(w, limit);
    }
  }

  lemma {:induction false} NoRacesIsQuiet(run: seq<Event>, limit: int, window: int)
    requires limit >= 1 && NoRaces(run, limit, window)
    ensures Quiet(After(run, limit, window))
    decreases |run|
  {
    if run != [] {
      var init, e := run[..|run| - 1], run[|run| - 1];
      NoRacesIsQuiet(init, limit, window);
      RunIsOk(init, limit, window);
      if CanHappen(After(init, limit, window), e) {
        QuietStep(After(init, limit, window), e, limit, window);
      }
    }
  }

  /** What one event adds to the admissions of its window is what it adds to those of its key. */
  lemma CurrentFollows(r: Registry, e: Event, limit: int, window: int, key: Key)
    requires MapOk(r) && Quiet(r) && CanHappen(r, e) && !Raced(r, e)
    ensures Current(Happen(r, e, limit, window), key) == Current(r, key) + Added(r, e, limit, window, key)
  {
  }

  lemma {:induction false} KeyFollowsWindow(run: seq<Event>, limit: int, window: int, key: Key)
    requires limit >= 1 && NoRaces(run, limit, window)
    ensures AdmittedFor(run, limit, window, key) == Current(After(run, limit, window), key)
    decreases |run|
  {
    if run != [] {
      var init, e := run[..|run| - 1], run[|run| - 1];
      KeyFollowsWindow(init, limit, window, key);
      RunIsOk(init, limit, window);
      NoRacesIsQuiet(init, limit, window);
      if CanHappen(After(init, limit, window), e) {
        CurrentFollows(After(init, limit, window), e, limit, window, key);
      }
    }
  }

  /** Without races each key is admitted at most `limit` times per interval. */
  lemma LimitHoldsPerKey(run: seq<Event>, limit: int, window: int, key: Key)
    requires limit >= 1 && NoRaces(run, limit, window)
    ensures Bounded(AdmittedFor(run, limit, window, key), limit, window)
  {
    var r := After(run, limit, window);
    RunIsOk(run, limit, window);
    KeyFollowsWindow(run, limit, window, key);
    NothingIsBounded(limit, window);
    if key in r.byKey {
      assert WindowOk(r.windows[r.byKey[key]], limit, window);
    }
  }

  // ---------------------------------------------------------------------------
  // What holds per key whatever the sweep does
  // ---------------------------------------------------------------------------

  /** How many windows a key has ever had. */
  function WindowsOf(keys: seq<Key>, key: Key): nat {
    if keys == [] then 0 else WindowsOf(keys[..|keys| - 1], key) + if keys[|keys| - 1] == key then 1 else 0
  }

  /** The admissions of all windows of a key within one interval. */
  function Together(keys: seq<Key>, ws: seq<Window>, key: Key, window: int, x: Time): nat
    requires |keys| == |ws|
  {
    if keys == [] then 0
    else
      var n := |keys| - 1;
      Together(keys[..n], ws[..n], key, window, x) + if keys[n] == key then InWindow(ws[n].admitted, window, x) else 0
  }

  lemma {:induction false} TogetherUpdate(
    keys: seq<Key>, ws: seq<Window>, id: nat, w: Window, key: Key, window: int, x: Time)
    requires |keys| == |ws| && id < |ws|
    ensures Together(keys, ws[id := w], key, window, x)
            == Together(keys, ws, key, window, x)
               + if keys[id] == key then InWindow(w.admitted, window, x) - InWindow(ws[id].admitted, window, x) else 0
    decreases |ws|
  {
    var n := |ws| - 1;
    if id < n {
      TogetherUpdate(keys[..n], ws[..n], id, w, key, window, x);
      assert ws[id := w][..n] == ws[..n][id := w];
    } else {
      assert ws[id := w][..n] == ws[..n];
    }
  }

  lemma {:induction false} TogetherIsBounded(
    keys: seq<Key>, ws: seq<Window>, key: Key, limit: int, window: int, x: Time)
    requires |keys| == |ws| && limit >= 0
    requires forall id :: 0 <= id < |ws| ==> Bounded(ws[id].admitted, limit, window)
    ensures Together(keys, ws, key, window, x) <= limit * WindowsOf(keys, key)
    decreases |ws|
  {
    if keys != [] {
      var n := |keys| - 1;
      TogetherIsBounded(keys[..n], ws[..n], key, limit, window, x);
      assert Bounded(ws[n].admitted, limit, window);
      assert limit * (WindowsOf(keys[..n], key) + 1) == limit * WindowsOf(keys[..n], key) + limit;
    }
  }

  lemma InWindowOne(t: Time, window: int, x: Time)
    ensures InWindow([t], window, x) == (if x - window < t <= x then 1 else 0) && InWindow([], window, x) == 0
  {
    WithinAppend([], t, x - window, x);
    assert [] + [t] == [t];
  }

  /** The admissions of two runs one after the other, the second at most one request long. */
  lemma InWindowBoth(a: seq<Time>, b: seq<Time>, window: int, x: Time)
    requires |b| <= 1
    ensures InWindow(a + b, window, x) == InWindow(a, window, x) + InWindow(b, window, x)
  {
    if b == [] {
      assert a + b == a;
    } else {
      WithinAppend(a, b[0], x - window, x);
      InWindowOne(b[0], window, x);
    }
  }

  lemma TogetherNew(keys: seq<Key>, ws: seq<Window>, k: Key, key: Key, window: int, x: Time)
    requires |keys| == |ws|
    ensures Together(keys + [k], ws + [FRESH], key, window, x) == Together(keys, ws, key, window, x)
  {
    assert (keys + [k])[..|keys|] == keys && (ws + [FRESH])[..|ws|] == ws;
    InWindowOne(x, window, x);
  }

  /** What a request adds to its window. */
  function Admission(w: Window, limit: int, window: int, now: Time): seq<Time> {
    if |Live(w.timestamps, now - window)| < limit then [now] else []
  }

  lemma TogetherAsk(keys: seq<Key>, ws: seq<Window>, id: nat, now: Time, limit: int, window: int, key: Key, x: Time)
    requires |keys| == |ws| && id < |ws|
    ensures Together(keys, ws[id := Request(ws[id], limit, window, now)], key, window, x)
            == Together(keys, ws, key, window, x)
               + if keys[id] == key then InWindow(Admission(ws[id], limit, window, now), window, x) else 0
  {
    var w, more := ws[id], Admission(ws[id], limit, window, now);
    TogetherUpdate(keys, ws, id, Request(w, limit, window, now), key, window, x);
    InWindowBoth(w.admitted, more, window, x);
    assert more == [] ==> w.admitted + more == w.admitted;
  }

  /** An event adds to the admissions of a key's windows what it admits for the key. */
  lemma TogetherFollows(r: Registry, e: Event, limit: int, window: int, key: Key, x: Time)
    requires |r.keys| == |r.windows| && CanHappen(r, e)
    ensures var r' := Happen(r, e, limit, window);
            && |r'.keys| == |r'.windows|
            && Together(r'.keys, r'.windows, key, window, x)
               == Together(r.keys, r.windows, key, window, x) + InWindow(Added(r, e, limit, window, key), window, x)
  {
    InWindowOne(x, window, x);
    match e
    case Lookup(k) => TogetherNew(r.keys, r.windows, k, key, window, x);
    case Ask(id, now) => TogetherAsk(r.keys, r.windows, id, now, limit, window, key, x);
    case SweepCheck(_) =>
    case SweepDelete =>
  }

  lemma {:induction false} AdmissionsAreTogether(run: seq<Event>, limit: int, window: int, key: Key, x: Time)
    ensures var r := After(run, limit, window);
            && |r.keys| == |r.windows|
            && InWindow(AdmittedFor(run, limit, window, key), window, x) == Together(r.keys, r.windows, key, window, x)
    decreases |run|
  {
    InWindowOne(x, window, x);
    if run != [] {
      var init, e := run[..|run| - 1], run[|run| - 1];
      var before := After(init, limit, window);
      AdmissionsAreTogether(init, limit, window, key, x);
      InWindowBoth(AdmittedFor(init, limit, window, key), Added(before, e, limit, window, key), window, x);
      if CanHappen(before, e) {
        TogetherFollows(before, e, limit, window, key, x);
      }
    }
  }

  /** In every run a key is admitted at most `limit` times per interval and window it has had. */
  lemma LimitPerWindowOfKey(run: seq<Event>, limit: int, window: int, key: Key, x: Time)
    requires limit >= 0
    ensures InWindow(AdmittedFor(run, limit, window, key), window, x)
            <= limit * WindowsOf(After(run, limit, window).keys, key)
  {
    var r := After(run, limit, window);
    AdmissionsAreTogether(run, limit, window, key, x);
    RunIsOk(run, limit, window);
    forall id | 0 <= id < |r.windows|
      ensures Bounded(r.windows[id].admitted, limit, window)
    {
      assert WindowOk(r.windows[id], limit, window);
    }
    TogetherIsBounded(r.keys, r.windows, key, limit, window, x);
  }

  // ---------------------------------------------------------------------------
  // A race is exactly what lets the limit per key be broken
  // ---------------------------------------------------------------------------

  /** No event of `more`, coming after `run`, is a race. */
  predicate RaceFreeAfter(run: seq<Event>, more: seq<Event>, limit: int, window: int) {
    more != [] ==>
      && RaceFreeAfter(run, more[..|more| - 1], limit, window)
      && !Raced(After(run + more[..|more| - 1], limit, window), more[|more| - 1])
  }

  lemma RaceFreeNext(run: seq<Event>, more: seq<Event>, e: Event, limit: int, window: int)
    requires RaceFreeAfter(run, more, limit, window) && !Raced(After(run + more, limit, window), e)
    ensures RaceFreeAfter(run, more + [e], limit, window)
  {
    assert (more + [e])[..|more|] == more;
  }

  lemma {:induction false} NoRacesTogether(run: seq<Event>, more: seq<Event>, limit: int, window: int)
    requires NoRaces(run, limit, window) && RaceFreeAfter(run, more, limit, window)
    ensures NoRaces(run + more, limit, window)
    decreases |more|
  {
    if more == [] {
      assert run + more == run;
    } else {
      var init := more[..|more| - 1];
      NoRacesTogether(run, init, limit, window);
      assert (run + more)[..|run + more| - 1] == run + init;
    }
  }

  /** A window after `n` more requests at one reading. */
  function AskMany(w: Window, limit: int, window: int, now: Time, n: nat): Window {
    if n == 0 then w else Request(AskMany(w, limit, window, now, n - 1), limit, window, now)
  }

  function Asks(id: nat, now: Time, n: nat): seq<Event> {
    if n == 0 then [] else Asks(id, now, n - 1) + [Ask(id, now)]
  }

  /** A window that can be asked at `now`. */
  ghost predicate Ready(w: Window, limit: int, window: int, now: Time) {
    WindowOk(w, limit, window) && Tidy(w, limit) && (w.last.Some? ==> w.last.value <= now)
  }

  lemma AskKeepsReady(w: Window, limit: int, window: int, now: Time)
    requires Ready(w, limit, window, now)
    ensures Ready(Request(w, limit, window, now), limit, window, now)
  {
    RequestKeepsOk(w, limit, window, now);
    RequestKeepsTidy(w, limit, window, now);
  }

  /** A request adds a live entry unless `limit` are live already. */
  lemma AskFills(w: Window, limit: int, window: int, now: Time, n: nat)
    requires window >= 1 && Ready(w, limit, window, now) && n < limit && |Live(w.admitted, now - window)| >= n
    ensures |Live(Request(w, limit, window, now).admitted, now - window)| >= n + 1
  {
    RequestDecides(w, limit, window, now);
    LiveAppend(w.admitted, now, now - window);
  }

  /** Asking often enough fills the interval that ends at the reading. */
  lemma {:induction false} AskManyFills(w: Window, limit: int, window: int, now: Time, n: nat)
    requires window >= 1 && Ready(w, limit, window, now) && n <= limit
    ensures Ready(AskMany(w, limit, window, now, n), limit, window, now)
    ensures |Live(AskMany(w, limit, window, now, n).admitted, now - window)| >= n
  {
    if n > 0 {
      AskManyFills(w, limit, window, now, n - 1);
      AskKeepsReady(AskMany(w, limit, window, now, n - 1), limit, window, now);
      AskFills(AskMany(w, limit, window, now, n - 1), limit, window, now, n - 1);
    }
  }

  /** What is live at a reading that none is later than lies in the interval that ends there. */
  lemma {:induction false} LiveIsWithin(ts: seq<Time>, window: int, now: Time)
    requires forall i :: 0 <= i < |ts| ==> ts[i] <= now
    ensures InWindow(ts, window, now) == |Live(ts, now - window)|
    decreases |ts|
  {
    if ts != [] {
      LiveIsWithin(ts[..|ts| - 1], window, now);
    }
  }

  function Replace(r: Registry, id: nat, w: Window): Registry
    requires id < |r.windows|
  {
    r.(windows := r.windows[id := w])
  }

  lemma AskReplaced(r: Registry, id: nat, w: Window, now: Time, limit: int, window: int)
    requires id < |r.windows| && (w.last.Some? ==> w.last.value <= now)
    requires Registered(r, id) && r.marked.None?
    ensures CanHappen(Replace(r, id, w), Ask(id, now)) && !Raced(Replace(r, id, w), Ask(id, now))
    ensures Happen(Replace(r, id, w), Ask(id, now), limit, window) == Replace(r, id, Request(w, limit, window, now))
  {
    assert r.windows[id := w][id := Request(w, limit, window, now)] == r.windows[id := Request(w, limit, window, now)];
  }

  lemma AddEvent(run: seq<Event>, more: seq<Event>, e: Event, limit: int, window: int)
    requires RaceFreeAfter(run, more, limit, window)
    requires CanHappen(After(run + more, limit, window), e) && !Raced(After(run + more, limit, window), e)
    ensures RaceFreeAfter(run, more + [e], limit, window)
    ensures After(run + (more + [e]), limit, window) == Happen(After(run + more, limit, window), e, limit, window)
  {
    RaceFreeNext(run, more, e, limit, window);
    AfterNext(run + more, e, limit, window);
    assert run + (more + [e]) == run + more + [e];
  }

  lemma AskManyLast(w: Window, limit: int, window: int, now: Time, n: nat)
    requires w.last.Some? ==> w.last.value <= now
    ensures var last := AskMany(w, limit, window, now, n).last; last.Some? ==> last.value <= now
  {
  }

  /** The requests of `Asks` reach their window, and on a registered, unmarked one do not race. */
  lemma {:induction false} AfterAsks(
    run: seq<Event>, more: seq<Event>, r: Registry, id: nat, now: Time, n: nat, limit: int, window: int)
    requires RaceFreeAfter(run, more, limit, window) && After(run + more, limit, window) == r
    requires id < |r.windows| && (r.windows[id].last.Some? ==> r.windows[id].last.value <= now)
    requires Registered(r, id) && r.marked.None?
    ensures RaceFreeAfter(run, more + Asks(id, now, n), limit, window)
    ensures After(run + (more + Asks(id, now, n)), limit, window)
            == Replace(r, id, AskMany(r.windows[id], limit, window, now, n))
  {
    if n == 0 {
      assert more + [] == more && Replace(r, id, r.windows[id]) == r;
    } else {
      var w, sofar := AskMany(r.windows[id], limit, window, now, n - 1), more + Asks(id, now, n - 1);
      AfterAsks(run, more, r, id, now, n - 1, limit, window);
      AskManyLast(r.windows[id], limit, window, now, n - 1);
      AfterAsk(run, sofar, r, id, w, now, limit, window);
      MoreAsks(more, id, now, n);
    }
  }

  lemma AfterAsk(
    run: seq<Event>, more: seq<Event>, r: Registry, id: nat, w: Window, now: Time, limit: int, window: int)
    requires id < |r.windows| && Registered(r, id) && r.marked.None? && (w.last.Some? ==> w.last.value <= now)
    requires RaceFreeAfter(run, more, limit, window) && After(run + more, limit, window) == Replace(r, id, w)
    ensures RaceFreeAfter(run, more + [Ask(id, now)], limit, window)
    ensures After(run + (more + [Ask(id, now)]), limit, window) == Replace(r, id, Request(w, limit, window, now))
  {
    AskReplaced(r, id, w, now, limit, window);
    AddEvent(run, more, Ask(id, now), limit, window);
  }

  lemma MoreAsks(more: seq<Event>, id: nat, now: Time, n: nat)
    requires n > 0
    ensures more + Asks(id, now, n) == more + Asks(id, now, n - 1) + [Ask(id, now)]
  {
  }

  /** Two windows of a key count together. */
  lemma {:induction false} TogetherOne(keys: seq<Key>, ws: seq<Window>, i: nat, key: Key, window: int, x: Time)
    requires |keys| == |ws| && i < |ws| && keys[i] == key
    ensures Together(keys, ws, key, window, x) >= InWindow(ws[i].admitted, window, x)
    decreases |ws|
  {
    var n := |ws| - 1;
    if i < n {
      TogetherOne(keys[..n], ws[..n], i, key, window, x);
    }
  }

  lemma {:induction false} TogetherTwo(keys: seq<Key>, ws: seq<Window>, i: nat, k: nat, key: Key, window: int, x: Time)
    requires |keys| == |ws| && i < k < |ws| && keys[i] == key && keys[k] == key
    ensures Together(keys, ws, key, window, x)
            >= InWindow(ws[i].admitted, window, x) + InWindow(ws[k].admitted, window, x)
    decreases |ws|
  {
    var n := |ws| - 1;
    if k < n {
      TogetherTwo(keys[..n], ws[..n], i, k, key, window, x);
    } else {
      TogetherOne(keys[..n], ws[..n], i, key, window, x);
    }
  }

  /** No window of the key has been asked at a later reading. */
  predicate Latest(r: Registry, key: Key, now: Time) {
    forall id :: 0 <= id < |r.windows| && id < |r.keys| && r.keys[id] == key && r.windows[id].last.Some? ==>
      r.windows[id].last.value <= now
  }

  /** Some other window of the key is in the map, and nothing is marked. */
  ghost predicate HasOther(r: Registry, r': Registry, id: nat, key: Key, now: Time, other: nat) {
    && Registered(r', other) && r'.keys[other] == key && other != id && r'.marked.None?
    && id < |r.windows| && id < |r'.windows| && id < |r'.keys| && r'.windows[id] == r.windows[id] && r'.keys[id] == key
    && Latest(r', key, now)
  }

  lemma LookedUp(r: Registry, id: nat, key: Key, now: Time, limit: int, window: int) returns (other: nat)
    requires MapOk(r) && id < |r.windows| && r.keys[id] == key && r.marked.None? && !Registered(r, id)
    requires Latest(r, key, now)
    ensures HasOther(r, Happen(r, Lookup(key), limit, window), id, key, now, other)
  {
    other := Happen(r, Lookup(key), limit, window).byKey[key];
  }

  /** The registry once a pending deletion has been done. */
  function Finished(r: Registry): Registry {
    if r.marked.Some? then r.(byKey := r.byKey - {r.marked.value}, marked := None) else r
  }

  lemma FinishSweep(run: seq<Event>, limit: int, window: int) returns (more: seq<Event>)
    ensures RaceFreeAfter(run, more, limit, window)
    ensures After(run + more, limit, window) == Finished(After(run, limit, window))
  {
    assert run + [] == run;
    if After(run, limit, window).marked.Some? {
      AddEvent(run, [], SweepDelete, limit, window);
      more := [] + [SweepDelete];
    } else {
      more := [];
    }
  }

  lemma FinishedUnregisters(r: Registry, id: nat, key: Key)
    requires MapOk(r) && id < |r.windows| && r.keys[id] == key && (!Registered(r, id) || r.marked == Some(key))
    ensures MapOk(Finished(r)) && !Registered(Finished(r), id)
  {
  }

  /** After a race the sweep finishes and the key is looked up: it now has another window. */
  lemma AnotherWindow(run: seq<Event>, r: Registry, id: nat, key: Key, now: Time, limit: int, window: int)
    returns (more: seq<Event>, other: nat)
    requires After(run, limit, window) == r && MapOk(r) && id < |r.windows| && r.keys[id] == key && Latest(r, key, now)
    requires !Registered(r, id) || r.marked == Some(key)
    ensures RaceFreeAfter(run, more, limit, window)
    ensures HasOther(r, After(run + more, limit, window), id, key, now, other)
  {
    var finish := FinishSweep(run, limit, window);
    FinishedUnregisters(r, id, key);
    other := LookedUp(Finished(r), id, key, now, limit, window);
    AddEvent(run, finish, Lookup(key), limit, window);
    more := finish + [Lookup(key)];
  }

  /** What a race has admitted and a full window besides it are one too many. */
  lemma TwoWindowsBreak(run: seq<Event>, id: nat, other: nat, now: Time, key: Key, limit: int, window: int)
    requires var r := After(run, limit, window);
             && |r.keys| == |r.windows| && id < |r.keys| && other < |r.keys| && id != other
             && r.keys[id] == key && r.keys[other] == key
             && InWindow(r.windows[id].admitted, window, now) >= 1
             && InWindow(r.windows[other].admitted, window, now) >= limit >= 0
    ensures !Bounded(AdmittedFor(run, limit, window, key), limit, window)
  {
    var r := After(run, limit, window);
    AdmissionsAreTogether(run, limit, window, key, now);
    if id < other {
      TogetherTwo(r.keys, r.windows, id, other, key, window, now);
    } else {
      TogetherTwo(r.keys, r.windows, other, id, key, window, now);
    }
    assert InWindow(AdmittedFor(run, limit, window, key), window, now) > limit;
  }

  lemma RaceBreaks(run: seq<Event>, id: nat, now: Time, key: Key, limit: int, window: int)
    returns (more: seq<Event>)
    requires limit >= 1 && window >= 1
    requires var r := After(run, limit, window);
             && id < |r.windows| && id < |r.keys| && r.keys[id] == key && Latest(r, key, now)
             && (!Registered(r, id) || r.marked == Some(key))
             && InWindow(r.windows[id].admitted, window, now) >= 1
    ensures RaceFreeAfter(run, more, limit, window)
    ensures !Bounded(AdmittedFor(run + more, limit, window, key), limit, window)
  {
    RunIsOk(run, limit, window);
    var start, other := AnotherWindow(run, After(run, limit, window), id, key, now, limit, window);
    RunIsOk(run + start, limit, window);
    var r := After(run + start, limit, window);
    var w := r.windows[other];
    assert Ready(w, limit, window, now);
    AfterAsks(run, start, r, other, now, limit, limit, window);
    more := start + Asks(other, now, limit);
    AskManyFills(w, limit, window, now, limit);
    ReadyIsWithin(AskMany(w, limit, window, now, limit), limit, window, now);
    TwoWindowsBreak(run + more, id, other, now, key, limit, window);
  }

  lemma ReadyIsWithin(w: Window, limit: int, window: int, now: Time)
    requires Ready(w, limit, window, now)
    ensures InWindow(w.admitted, window, now) == |Live(w.admitted, now - window)|
  {
    forall i | 0 <= i < |w.admitted|
      ensures w.admitted[i] <= now
    {
      assert w.admitted[i] in w.admitted;
    }
    LiveIsWithin(w.admitted, window, now);
  }

  /** The race itself is admitted, at the reading of the request. */
  lemma RaceAdmits(run: seq<Event>, id: nat, now: Time, key: Key, limit: int, window: int)
    requires limit >= 1 && window >= 1 && NoRaces(run, limit, window)
    requires var r := After(run, limit, window);
             Raced(r, Ask(id, now)) && id < |r.keys| && r.keys[id] == key && Latest(r, key, now)
    ensures var r' := After(run + [Ask(id, now)], limit, window);
            && id < |r'.windows| && id < |r'.keys| && r'.keys[id] == key && Latest(r', key, now)
            && (!Registered(r', id) || r'.marked == Some(key))
            && InWindow(r'.windows[id].admitted, window, now) >= 1
  {
    var r := After(run, limit, window);
    RunIsOk(run, limit, window);
    NoRacesIsQuiet(run, limit, window);
    assert r.windows[id] == FRESH;
    AfterNext(run, Ask(id, now), limit, window);
    RequestAdmits(FRESH, limit, window, now, []);
    assert [] + [now] == [now];
    InWindowOne(now, window, now);
  }

  /** A continuation without further races can break the limit of the key. */
  ghost predicate CanBreak(run: seq<Event>, key: Key, limit: int, window: int) {
    exists more ::
      RaceFreeAfter(run, more, limit, window) && !Bounded(AdmittedFor(run + more, limit, window, key), limit, window)
  }

  /**
    What a race is: in a run without races so far, a request that reads the latest clock opens
    the way to breaking its key's limit, with no other race, exactly if it is one.
   */
  lemma RaceIff(run: seq<Event>, id: nat, now: Time, key: Key, limit: int, window: int)
    requires limit >= 1 && window >= 1 && NoRaces(run, limit, window)
    requires var r := After(run, limit, window);
             CanHappen(r, Ask(id, now)) && id < |r.keys| && r.keys[id] == key && Latest(r, key, now)
    ensures Raced(After(run, limit, window), Ask(id, now)) <==> CanBreak(run + [Ask(id, now)], key, limit, window)
  {
    var run' := run + [Ask(id, now)];
    if Raced(After(run, limit, window), Ask(id, now)) {
      RaceAdmits(run, id, now, key, limit, window);
      var more := RaceBreaks(run', id, now, key, limit, window);
    } else {
      assert run'[..|run|] == run;
      assert NoRaces(run', limit, window);
      forall more | RaceFreeAfter(run', more, limit, window)
        ensures Bounded(AdmittedFor(run' + more, limit, window, key), limit, window)
      {
        NoRacesTogether(run', more, limit, window);
        LimitHoldsPerKey(run' + more, limit, window, key);
      }
    }
  }

  // ---------------------------------------------------------------------------
  // The two kinds of race, at a limit of one
  // ---------------------------------------------------------------------------

  /** One more event, from a known registry and known admissions of the key. */
  lemma Play(run: seq<Event>, r: Registry, admitted: seq<Time>, e: Event, key: Key, window: int)
    returns (run': seq<Event>)
    requires After(run, 1, window) == r && AdmittedFor(run, 1, window, key) == admitted && CanHappen(r, e)
    ensures run' == run + [e] && |run'| == |run| + 1 && run'[..|run|] == run
    ensures After(run', 1, window) == Happen(r, e, 1, window)
    ensures AdmittedFor(run', 1, window, key) == admitted + Added(r, e, 1, window, key)
  {
    run' := run + [e];
    AfterNext(run, e, 1, window);
    AdmittedNext(run, e, 1, window, key);
  }

  /** A first request on a fresh window is admitted. */
  lemma AskFresh(r: Registry, id: nat, t: Time, key: Key, window: int)
    requires |r.keys| == |r.windows| && id < |r.windows| && r.windows[id] == FRESH && r.keys[id] == key
    ensures CanHappen(r, Ask(id, t)) && Added(r, Ask(id, t), 1, window, key) == [t]
    ensures Happen(r, Ask(id, t), 1, window) == Replace(r, id, Window([t], [t], Some(t)))
  {
    RequestAdmits(FRESH, 1, window, t, []);
    assert [] + [t] == [t];
  }

  lemma Marked(key: Key, window: int) returns (run: seq<Event>)
    ensures run == [Lookup(key)] + [SweepCheck(key)]
    ensures After(run, 1, window) == Registry(map[key := 0], [key], [FRESH], Some(key))
    ensures AdmittedFor(run, 1, window, key) == []
  {
    run := Play([], EMPTY, [], Lookup(key), key, window);
    assert run == [Lookup(key)];
    run := Play(run, Registry(map[key := 0], [key], [FRESH], None), [], SweepCheck(key), key, window);
  }

  lemma TwiceWithin(t: Time, window: int)
    requires window >= 1
    ensures InWindow([t] + [t], window, t) == 2
  {
    WithinAppend([t], t, t - window, t);
    InWindowOne(t, window, t);
  }

  lemma Orphaned(key: Key, window: int) returns (run: seq<Event>)
    ensures run == [Lookup(key)] + [SweepCheck(key)] + [SweepDelete] + [Lookup(key)]
    ensures After(run, 1, window) == Registry(map[key := 1], [key, key], [FRESH, FRESH], None)
    ensures AdmittedFor(run, 1, window, key) == []
  {
    run := Marked(key, window);
    run := Play(run, Registry(map[key := 0], [key], [FRESH], Some(key)), [], SweepDelete, key, window);
    assert After(run, 1, window) == Registry(map[], [key], [FRESH], None);
    run := Play(run, Registry(map[], [key], [FRESH], None), [], Lookup(key), key, window);
  }

  /** A request keeps the window it has looked up when the sweep takes it out of the map. */
  lemma OrphanBreaksKeyLimit(key: Key, t: Time, window: int) returns (run: seq<Event>)
    requires window >= 1
    ensures run == [Lookup(key)] + [SweepCheck(key)] + [SweepDelete] + [Lookup(key)] + [Ask(0, t)] + [Ask(1, t)]
    ensures InWindow(AdmittedFor(run, 1, window, key), window, t) == 2
  {
    var r := Registry(map[key := 1], [key, key], [FRESH, FRESH], None);
    var used := Window([t], [t], Some(t));
    run := Orphaned(key, window);
    AskFresh(r, 0, t, key, window);
    run := Play(run, r, [], Ask(0, t), key, window);
    assert [] + [t] == [t];
    AskFresh(Replace(r, 0, used), 1, t, key, window);
    run := Play(run, Replace(r, 0, used), [t], Ask(1, t), key, window);
    TwiceWithin(t, window);
  }

  /** The sweep has checked the window, a request is admitted by it, and then it is deleted. */
  lemma UsedThenDeleted(key: Key, t: Time, window: int) returns (run: seq<Event>)
    ensures run == [Lookup(key)] + [SweepCheck(key)] + [Ask(0, t)] + [SweepDelete]
    ensures After(run, 1, window) == Registry(map[], [key], [Window([t], [t], Some(t))], None)
    ensures AdmittedFor(run, 1, window, key) == [t]
  {
    var r := Registry(map[key := 0], [key], [FRESH], Some(key));
    var used := Window([t], [t], Some(t));
    run := Marked(key, window);
    AskFresh(r, 0, t, key, window);
    run := Play(run, r, [], Ask(0, t), key, window);
    assert [] + [t] == [t] && Replace(r, 0, used) == Registry(map[key := 0], [key], [used], Some(key));
    run := Play(run, Replace(r, 0, used), [t], SweepDelete, key, window);
  }

  /** A request is admitted by a window of the map that the sweep has already checked. */
  lemma LateAskBreaksKeyLimit(key: Key, t: Time, window: int) returns (run: seq<Event>)
    requires window >= 1
    ensures run == [Lookup(key)] + [SweepCheck(key)] + [Ask(0, t)] + [SweepDelete] + [Lookup(key)] + [Ask(1, t)]
    ensures Registered(After([Lookup(key)] + [SweepCheck(key)], 1, window), 0)
    ensures |run| == 6 && Registered(After(run[..5], 1, window), 1)
    ensures InWindow(AdmittedFor(run, 1, window, key), window, t) == 2
  {
    var used := Window([t], [t], Some(t));
    var r := Registry(map[key := 1], [key, key], [used, FRESH], None);
    var checked := Marked(key, window);
    var start := UsedThenDeleted(key, t, window);
    var looked := Play(start, Registry(map[], [key], [used], None), [t], Lookup(key), key, window);
    assert After(looked, 1, window) == r;
    AskFresh(r, 1, t, key, window);
    run := Play(looked, r, [t], Ask(1, t), key, window);
    TwiceWithin(t, window);
  }
}
