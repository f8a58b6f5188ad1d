/**
  The sliding-window limiter: a list of admission times pruned in place on every request, and
  a shared map of such windows from which an idle sweep removes entries.
 */
module RateLimit {
  import opened Prelude

  type Time = int

  // ---------------------------------------------------------------------------
  // One window
  // ---------------------------------------------------------------------------

  /** The entries strictly after `cutoff`, in order. */
  function Live(ts: seq<Time>, cutoff: Time): seq<Time> {
    if ts == [] then []
    else Live(ts[..|ts| - 1], cutoff) + if ts[|ts| - 1] > cutoff then [ts[|ts| - 1]] else []
  }

  /** How many entries lie in the half-open interval (lo, hi]. */
  function Within(ts: seq<Time>, lo: Time, hi: Time): nat {
    if ts == [] then 0
    else Within(ts[..|ts| - 1], lo, hi) + if lo < ts[|ts| - 1] <= hi then 1 else 0
  }

  /** The pruned list, every admission ever made, and the last clock reading. */
  datatype Window = Window(timestamps: seq<Time>, admitted: seq<Time>, last: Option<Time>)

  const FRESH := Window([], [], None)

  /** What a limiter that never forgets anything would decide. */
  predicate Admits(admitted: seq<Time>, limit: int, window: int, now: Time) {
    |Live(admitted, now - window)| < limit
  }

  function Request(w: Window, limit: int, window: int, now: Time): Window {
    var kept := Live(w.timestamps, now - window);
    if |kept| < limit then Window(kept + [now], w.admitted + [now], Some(now))
    else Window(kept, w.admitted, Some(now))
  }

  /**
    The list lives in a backing array. Pruning overwrites its front while the loop is still
    reading the rest, and an append that finds the array full moves to a larger one.
   */
  class SlidingWindow {
    var buffer: array<Time>
    var len: nat
    ghost var admitted: seq<Time>
    ghost var last: Option<Time>

    ghost predicate Valid()
      reads this
    {
      len <= buffer.Length
    }

    ghost function View(): Window
      reads this, buffer
      requires Valid()
    {
      Window(buffer[..len], admitted, last)
    }

    constructor ()
      ensures Valid() && fresh(buffer) && View() == FRESH
    {
      buffer, len, admitted, last := new Time[0], 0, [], None;
    }

    method Prune(cutoff: Time)
      requires Valid()
      modifies this`len, buffer
      ensures Valid() && buffer[..len] == Live(old(buffer[..len]), cutoff)
    {
      ghost var was := buffer[..len];
      var kept := 0;
      for i := 0 to len
        invariant kept <= i && len == old(len) && Valid()
        invariant buffer[..kept] == Live(was[..i], cutoff)
        invariant forall k :: i <= k < len ==> buffer[k] == was[k]
      {
        assert was[..i + 1][..i] == was[..i];
        if buffer[i] > cutoff {
          buffer[kept] := buffer[i];
          kept := kept + 1;
        }
      }
      assert was[..len] == was;
      len := kept;
    }

    method Append(now: Time)
      requires Valid()
      modifies this`len, this`buffer, buffer
      ensures Valid() && (buffer == old(buffer) || fresh(buffer))
      ensures buffer[..len] == old(buffer[..len]) + [now]
    {
      if len == buffer.Length {
        var larger := new Time[2 * len + 1];
        for i := 0 to len
          invariant buffer == old(buffer) && buffer[..] == old(buffer[..]) && len == old(len)
          invariant forall k :: 0 <= k < i ==> larger[k] == buffer[k]
        {
          larger[i] := buffer[i];
        }
        buffer := larger;
      }
      buffer[len] := now;
      len := len + 1;
    }

    method Allow(limit: int, window: int, now: Time) returns (ok: bool)
      requires Valid()
      modifies this, buffer
      ensures Valid() && (buffer == old(buffer) || fresh(buffer))
      ensures View() == Request(old(View()), limit, window, now)
      ensures ok <==> View().admitted == old(View()).admitted + [now]
      ensures !ok <==> View().admitted == old(View()).admitted
    {
      Prune(now - window);
      last := Some(now);
      if len >= limit {
        return false;
      }
      Append(now);
      admitted := admitted + [now];
      return true;
    }
  }

  // ---------------------------------------------------------------------------
  // Facts about pruning
  // ---------------------------------------------------------------------------

  lemma LiveAppend(ts: seq<Time>, t: Time, cutoff: Time)
    ensures Live(ts + [t], cutoff) == Live(ts, cutoff) + if t > cutoff then [t] else []
  {
    assert (ts + [t])[..|ts|] == ts;
  }

  /** Pruning at an earlier cutoff first makes no difference. */
  lemma {:induction false} LiveTwice(ts: seq<Time>, early: Time, late: Time)
    requires early <= late
    ensures Live(Live(ts, early), late) == Live(ts, late)
    decreases |ts|
  {
    if ts != [] {
      var init, t := ts[..|ts| - 1], ts[|ts| - 1];
      LiveTwice(init, early, late);
      LiveAppend(Live(init, early), t, late);
      assert Live(init, late) + [] == Live(init, late) && Live(init, early) + [] == Live(init, early);
    }
  }

  lemma WithinAppend(ts: seq<Time>, t: Time, lo: Time, hi: Time)
    ensures Within(ts + [t], lo, hi) == Within(ts, lo, hi) + if lo < t <= hi then 1 else 0
  {
    assert (ts + [t])[..|ts|] == ts;
  }

  lemma {:induction false} WithinIsLive(ts: seq<Time>, lo: Time, hi: Time, cutoff: Time)
    requires cutoff <= lo
    ensures Within(ts, lo, hi) <= |Live(ts, cutoff)|
    decreases |ts|
  {
    if ts != [] {
      WithinIsLive(ts[..|ts| - 1], lo, hi, cutoff);
    }
  }

  /** How many entries lie in the interval of length `window` that ends at `x`. */
  function InWindow(ts: seq<Time>, window: int, x: Time): nat {
    Within(ts, x - window, x)
  }

  /** No interval of length `window`, wherever it ends, holds more than `limit` entries. */
  ghost predicate Bounded(ts: seq<Time>, limit: int, window: int) {
    forall x :: InWindow(ts, window, x) <= if limit > 0 then limit else 0
  }

  // ---------------------------------------------------------------------------
  // The pruned list decides as the full history would
  // ---------------------------------------------------------------------------

  /** At `cutoff`, and so from there on, the pruned list and the full history show the same. */
  predicate Agree(ts: seq<Time>, all: seq<Time>, cutoff: Time) {
    Live(ts, cutoff) == Live(all, cutoff)
  }

  ghost predicate WindowOk(w: Window, limit: int, window: int) {
    && (w.last.None? ==> w.timestamps == [] && w.admitted == [])
    && (w.last.Some? ==> Agree(w.timestamps, w.admitted, w.last.value - window))
    && Bounded(w.admitted, limit, window)
    && (limit >= 1 && w.admitted != [] ==> w.timestamps != [])
  }

  lemma AgreeLater(ts: seq<Time>, all: seq<Time>, early: Time, late: Time)
    requires early <= late && Agree(ts, all, early)
    ensures Agree(ts, all, late)
  {
    LiveTwice(ts, early, late);
    LiveTwice(all, early, late);
  }

  lemma PruneKeepsView(ts: seq<Time>, all: seq<Time>, cutoff: Time, now: Time)
    requires Agree(ts, all, cutoff)
    ensures Agree(Live(ts, cutoff), all, cutoff)
    ensures Agree(Live(ts, cutoff) + [now], all + [now], cutoff)
  {
    LiveTwice(ts, cutoff, cutoff);
    LiveAppend(Live(ts, cutoff), now, cutoff);
    LiveAppend(all, now, cutoff);
  }

  lemma WindowAgrees(w: Window, limit: int, window: int, now: Time)
    requires WindowOk(w, limit, window) && (w.last.Some? ==> w.last.value <= now)
    ensures Agree(w.timestamps, w.admitted, now - window)
  {
    if w.last.Some? {
      AgreeLater(w.timestamps, w.admitted, w.last.value - window, now - window);
    }
  }

  lemma AppendIsBounded(ts: seq<Time>, limit: int, window: int, now: Time, x: Time)
    requires InWindow(ts, window, x) <= limit && |Live(ts, now - window)| < limit
    ensures InWindow(ts + [now], window, x) <= limit
  {
    WithinAppend(ts, now, x - window, x);
    if now <= x {
      WithinIsLive(ts, x - window, x, now - window);
    }
  }

  lemma NothingIsBounded(limit: int, window: int)
    ensures Bounded([], limit, window) && WindowOk(FRESH, limit, window)
  {
  }

  lemma AppendKeepsBound(ts: seq<Time>, limit: int, window: int, now: Time)
    requires Bounded(ts, limit, window) && |Live(ts, now - window)| < limit
    ensures Bounded(ts + [now], limit, window)
  {
    var next := ts + [now];
    forall x
      ensures InWindow(next, window, x) <= limit
    {
      AppendIsBounded(ts, limit, window, now, x);
    }
  }

  lemma RequestKeepsOk(w: Window, limit: int, window: int, now: Time)
    requires WindowOk(w, limit, window) && (w.last.Some? ==> w.last.value <= now)
    ensures WindowOk(Request(w, limit, window, now), limit, window)
  {
    WindowAgrees(w, limit, window, now);
    PruneKeepsView(w.timestamps, w.admitted, now - window, now);
    if |Live(w.admitted, now - window)| < limit {
      AppendKeepsBound(w.admitted, limit, window, now);
    }
  }

  /** After a request the list holds nothing that has expired, and everything that has not. */
  lemma {:induction false} ListIsPruned(w: Window, limit: int, window: int, now: Time)
    requires window >= 1
    ensures var w' := Request(w, limit, window, now);
            && Live(w'.timestamps, now - window) == w'.timestamps
            && Live(w.timestamps, now - window) <= w'.timestamps
  {
    PruneIsFixed(w.timestamps, now - window, now);
  }

  lemma {:induction false} PruneIsFixed(ts: seq<Time>, cutoff: Time, now: Time)
    requires cutoff < now
    ensures Live(Live(ts, cutoff), cutoff) == Live(ts, cutoff)
    ensures Live(Live(ts, cutoff) + [now], cutoff) == Live(ts, cutoff) + [now]
  {
    LiveTwice(ts, cutoff, cutoff);
    LiveAppend(Live(ts, cutoff), now, cutoff);
  }

  /** A window after a sequence of requests. */
  function Serve(nows: seq<Time>, limit: int, window: int): Window {
    if nows == [] then FRESH
    else Request(Serve(nows[..|nows| - 1], limit, window), limit, window, nows[|nows| - 1])
  }

  /** The admissions of a limiter that keeps its whole history. */
  function ServeAll(nows: seq<Time>, limit: int, window: int): seq<Time> {
    if nows == [] then []
    else
      var before, now := ServeAll(nows[..|nows| - 1], limit, window), nows[|nows| - 1];
      if Admits(before, limit, window, now) then before + [now] else before
  }

  predicate NonDecreasing(nows: seq<Time>) {
    forall i, k :: 0 <= i < k < |nows| ==> nows[i] <= nows[k]
  }

  /**
    With readings in order, the pruned list admits exactly what the full history would, and
    every interval of window length holds at most `limit` admissions.
   */
  lemma {:induction false} PrunedDecidesAsHistory(nows: seq<Time>, limit: int, window: int)
    requires NonDecreasing(nows)
    ensures Serve(nows, limit, window).admitted == ServeAll(nows, limit, window)
    ensures WindowOk(Serve(nows, limit, window), limit, window)
    ensures nows != [] ==> Serve(nows, limit, window).last == Some(nows[|nows| - 1])
    ensures Bounded(ServeAll(nows, limit, window), limit, window)
    decreases |nows|
  {
    if nows == [] {
      NothingIsBounded(limit, window);
    } else {
      var init, now := nows[..|nows| - 1], nows[|nows| - 1];
      PrunedDecidesAsHistory(init, limit, window);
      var w := Serve(init, limit, window);
      assert w.last.Some? ==> w.last.value <= now;
      RequestDecides(w, limit, window, now);
      RequestKeepsOk(w, limit, window, now);
    }
  }

  lemma RequestDecides(w: Window, limit: int, window: int, now: Time)
    requires WindowOk(w, limit, window) && (w.last.Some? ==> w.last.value <= now)
    ensures Request(w, limit, window, now).admitted
            == if Admits(w.admitted, limit, window, now) then w.admitted + [now] else w.admitted
    ensures Request(w, limit, window, now).last == Some(now)
  {
    WindowAgrees(w, limit, window, now);
  }

  // ---------------------------------------------------------------------------
  // Readings out of order
  // ---------------------------------------------------------------------------

  lemma LiveOne(t: Time, cutoff: Time)
    ensures Live([t], cutoff) == if t > cutoff then [t] else []
  {
    LiveAppend([], t, cutoff);
    assert [] + [t] == [t];
  }

  lemma ServeNext(nows: seq<Time>, now: Time, limit: int, window: int)
    ensures Serve(nows + [now], limit, window) == Request(Serve(nows, limit, window), limit, window, now)
  {
    assert (nows + [now])[..|nows|] == nows;
  }

  /** A request that finds `kept` still live and fewer than `limit` of them. */
  lemma RequestAdmits(w: Window, limit: int, window: int, now: Time, kept: seq<Time>)
    requires Live(w.timestamps, now - window) == kept && |kept| < limit
    ensures Request(w, limit, window, now) == Window(kept + [now], w.admitted + [now], Some(now))
  {
  }

  /** Each entry comes at least `window` after the one before it. */
  predicate Spaced(ts: seq<Time>, window: int) {
    forall i, k :: 0 <= i < k < |ts| ==> ts[i] + window <= ts[k]
  }

  lemma {:induction false} WithinNone(ts: seq<Time>, lo: Time, hi: Time)
    requires forall i :: 0 <= i < |ts| ==> ts[i] <= lo
    ensures Within(ts, lo, hi) == 0
    decreases |ts|
  {
    if ts != [] {
      WithinNone(ts[..|ts| - 1], lo, hi);
    }
  }

  lemma {:induction false} SpacedIsBounded(ts: seq<Time>, window: int, x: Time)
    requires Spaced(ts, window)
    ensures InWindow(ts, window, x) <= 1
    decreases |ts|
  {
    if ts != [] {
      SpacedIsBounded(ts[..|ts| - 1], window, x);
      if ts[|ts| - 1] <= x {
        WithinNone(ts[..|ts| - 1], x - window, x);
      }
    }
  }

  /** With a limit of one the list is the latest admission, which no later reading forgets. */
  ghost predicate KeepsLatest(w: Window, window: int) {
    && (w.admitted == [] ==> w.timestamps == [])
    && (w.admitted != [] ==> w.timestamps == [w.admitted[|w.admitted| - 1]])
    && Spaced(w.admitted, window)
  }

  lemma SpacedNext(ts: seq<Time>, window: int, now: Time)
    requires Spaced(ts, window) && window >= 0 && (ts != [] ==> ts[|ts| - 1] + window <= now)
    ensures Spaced(ts + [now], window)
  {
  }

  lemma LimitOneStep(w: Window, window: int, now: Time)
    requires window >= 1 && KeepsLatest(w, window)
    ensures KeepsLatest(Request(w, 1, window, now), window)
  {
    assert [] + [now] == [now];
    if w.admitted == [] {
      RequestAdmits(w, 1, window, now, []);
      SpacedNext(w.admitted, window, now);
    } else {
      var latest := w.admitted[|w.admitted| - 1];
      LiveOne(latest, now - window);
      if latest <= now - window {
        RequestAdmits(w, 1, window, now, []);
        SpacedNext(w.admitted, window, now);
      }
    }
  }

  lemma {:induction false} LimitOneKeepsLatest(nows: seq<Time>, window: int)
    requires window >= 1
    ensures KeepsLatest(Serve(nows, 1, window), window)
    decreases |nows|
  {
    if nows != [] {
      LimitOneKeepsLatest(nows[..|nows| - 1], window);
      LimitOneStep(Serve(nows[..|nows| - 1], 1, window), window, nows[|nows| - 1]);
    }
  }

  /** With a limit of one the order of the readings does not matter. */
  lemma LimitOneInAnyOrder(nows: seq<Time>, window: int)
    requires window >= 1
    ensures Bounded(Serve(nows, 1, window).admitted, 1, window)
  {
    LimitOneKeepsLatest(nows, window);
    forall x
      ensures InWindow(Serve(nows, 1, window).admitted, window, x) <= 1
    {
      SpacedIsBounded(Serve(nows, 1, window).admitted, window, x);
    }
  }

  function Repeat(t: Time, n: nat): seq<Time> {
    if n == 0 then [] else Repeat(t, n - 1) + [t]
  }

  lemma {:induction false} RepeatIs(t: Time, n: nat)
    ensures |Repeat(t, n)| == n && forall i :: 0 <= i < n ==> Repeat(t, n)[i] == t
  {
    if n > 0 {
      RepeatIs(t, n - 1);
    }
  }

  lemma {:induction false} LiveRepeat(t: Time, n: nat, cutoff: Time)
    ensures Live(Repeat(t, n), cutoff) == if t > cutoff then Repeat(t, n) else []
  {
    if n > 0 {
      var init := Repeat(t, n - 1);
      LiveRepeat(t, n - 1, cutoff);
      LiveAppend(init, t, cutoff);
      assert Repeat(t, n) == init + [t];
    }
  }

  lemma {:induction false} WithinRepeat(t: Time, n: nat, lo: Time, hi: Time)
    requires lo < t <= hi
    ensures Within(Repeat(t, n), lo, hi) == n
  {
    if n > 0 {
      WithinRepeat(t, n - 1, lo, hi);
      WithinAppend(Repeat(t, n - 1), t, lo, hi);
    }
  }

  lemma RepeatStep(t: Time, n: nat, last: Option<Time>, limit: int, window: int)
    requires n < limit && window >= 1
    ensures Request(Window(Repeat(t, n), Repeat(t, n), last), limit, window, t)
            == Window(Repeat(t, n + 1), Repeat(t, n + 1), Some(t))
  {
    LiveRepeat(t, n, t - window);
    RepeatIs(t, n);
    RequestAdmits(Window(Repeat(t, n), Repeat(t, n), last), limit, window, t, Repeat(t, n));
  }

  /** Up to `limit` requests at one reading are all admitted. */
  lemma {:induction false} ServeRepeat(t: Time, n: nat, limit: int, window: int)
    requires n <= limit && window >= 1
    ensures Serve(Repeat(t, n), limit, window)
            == Window(Repeat(t, n), Repeat(t, n), if n == 0 then None else Some(t))
  {
    if n > 0 {
      ServeRepeat(t, n - 1, limit, window);
      ServeNext(Repeat(t, n - 1), t, limit, window);
      RepeatStep(t, n - 1, if n == 1 then None else Some(t), limit, window);
    }
  }

  /** A reading a window later forgets them all. */
  lemma LateStep(t: Time, n: nat, last: Option<Time>, late: Time, limit: int, window: int)
    requires limit >= 1 && t <= late - window
    ensures Request(Window(Repeat(t, n), Repeat(t, n), last), limit, window, late)
            == Window([late], Repeat(t, n) + [late], Some(late))
  {
    LiveRepeat(t, n, late - window);
    RequestAdmits(Window(Repeat(t, n), Repeat(t, n), last), limit, window, late, []);
    assert [] + [late] == [late];
  }

  /** An earlier reading then finds only the later one. */
  lemma StaleStep(admitted: seq<Time>, last: Time, now: Time, limit: int, window: int)
    requires limit >= 2 && window >= 1 && now < last
    ensures Request(Window([last], admitted, Some(last)), limit, window, now).admitted == admitted + [now]
  {
    LiveOne(last, now - window);
    RequestAdmits(Window([last], admitted, Some(last)), limit, window, now, [last]);
  }

  lemma StaleCount(t: Time, n: nat, last: Time, now: Time, window: int)
    requires window >= 1 && now - window < t <= now < last
    ensures InWindow(Repeat(t, n) + [last] + [now], window, now) == n + 1
  {
    WithinRepeat(t, n, now - window, now);
    WithinAppend(Repeat(t, n), last, now - window, now);
    WithinAppend(Repeat(t, n) + [last], now, now - window, now);
  }

  lemma ServeStale(t: Time, last: Time, now: Time, limit: int, window: int)
    requires limit >= 2 && window >= 1 && now < last && t <= last - window
    ensures Serve(Repeat(t, limit) + [last] + [now], limit, window).admitted == Repeat(t, limit) + [last] + [now]
  {
    ServeLate(t, last, limit, window);
    ServeNext(Repeat(t, limit) + [last], now, limit, window);
    StaleStep(Repeat(t, limit) + [last], last, now, limit, window);
  }

  /**
    For every limit of at least two and every reading `now` before `last` there is a history in
    order, ending at `last`, after which `now` breaks the limit.
   */
  lemma OutOfOrderBreaksLimit(last: Time, now: Time, limit: int, window: int) returns (nows: seq<Time>)
    requires limit >= 2 && window >= 1 && now < last
    ensures EndsAt(nows, last) && !Bounded(Serve(nows + [now], limit, window).admitted, limit, window)
  {
    var t := if now <= last - window then now else last - window;
    nows := Repeat(t, limit) + [last];
    RepeatIs(t, limit);
    ServeStale(t, last, now, limit, window);
    StaleCount(t, limit, last, now, window);
  }

  /** A history in lock order whose latest reading is `last`. */
  predicate EndsAt(nows: seq<Time>, last: Time) {
    NonDecreasing(nows) && nows != [] && nows[|nows| - 1] == last
  }

  ghost predicate AlwaysBounded(last: Time, now: Time, limit: int, window: int) {
    forall nows :: EndsAt(nows, last) ==> Bounded(Serve(nows + [now], limit, window).admitted, limit, window)
  }

  lemma {:induction false} NoLimitAdmitsNothing(nows: seq<Time>, limit: int, window: int)
    requires limit <= 0
    ensures Serve(nows, limit, window).admitted == []
    decreases |nows|
  {
    if nows != [] {
      NoLimitAdmitsNothing(nows[..|nows| - 1], limit, window);
    }
  }

  lemma EmptyInterval(ts: seq<Time>, limit: int, window: int)
    requires window <= 0
    ensures Bounded(ts, limit, window)
  {
    forall x
      ensures InWindow(ts, window, x) == 0
    {
      WithinEmpty(ts, x - window, x);
    }
  }

  lemma {:induction false} WithinEmpty(ts: seq<Time>, lo: Time, hi: Time)
    requires hi <= lo
    ensures Within(ts, lo, hi) == 0
    decreases |ts|
  {
    if ts != [] {
      WithinEmpty(ts[..|ts| - 1], lo, hi);
    }
  }

  lemma InOrderStaysBounded(nows: seq<Time>, now: Time, limit: int, window: int)
    requires NonDecreasing(nows + [now])
    ensures Bounded(Serve(nows + [now], limit, window).admitted, limit, window)
  {
    PrunedDecidesAsHistory(nows + [now], limit, window);
  }

  /**
    When one more reading is safe: after every history in order that ends at `last` the bound
    survives the reading `now` exactly if `now` is in order too, or the limit is at most one.
   */
  lemma SafeReadingIff(last: Time, now: Time, limit: int, window: int)
    ensures AlwaysBounded(last, now, limit, window) <==> limit <= 1 || window <= 0 || last <= now
  {
    if limit <= 1 || window <= 0 || last <= now {
      forall nows | EndsAt(nows, last)
        ensures Bounded(Serve(nows + [now], limit, window).admitted, limit, window)
      {
        if window <= 0 {
          EmptyInterval(Serve(nows + [now], limit, window).admitted, limit, window);
        } else if last <= now {
          InOrderStaysBounded(nows, now, limit, window);
        } else if limit == 1 {
          LimitOneInAnyOrder(nows + [now], window);
        } else {
          NoLimitAdmitsNothing(nows + [now], limit, window);
          NothingIsBounded(limit, window);
        }
      }
    } else {
      var nows := OutOfOrderBreaksLimit(last, now, limit, window);
      assert EndsAt(nows, last);
    }
  }

  // ---------------------------------------------------------------------------
  // When the pruned list decides as the full history
  // ---------------------------------------------------------------------------

  /** The pruned list and all admissions decide alike about `now`. */
  predicate SameDecision(w: Window, now: Time, limit: int, window: int) {
    |Live(w.timestamps, now - window)| < limit <==> |Live(w.admitted, now - window)| < limit
  }

  ghost predicate AlwaysSameDecision(last: Time, now: Time, limit: int, window: int) {
    forall nows :: EndsAt(nows, last) ==> SameDecision(Serve(nows, limit, window), now, limit, window)
  }

  /** Nothing in the list is later than `last`. */
  predicate UpTo(ts: seq<Time>, last: Time) {
    forall i :: 0 <= i < |ts| ==> ts[i] <= last
  }

  lemma {:induction false} LiveUpTo(ts: seq<Time>, cutoff: Time, last: Time)
    requires UpTo(ts, last)
    ensures UpTo(Live(ts, cutoff), last) && (last <= cutoff ==> Live(ts, cutoff) == [])
    decreases |ts|
  {
    if ts != [] {
      LiveUpTo(ts[..|ts| - 1], cutoff, last);
    }
  }

  lemma RequestUpTo(w: Window, limit: int, window: int, last: Time, now: Time)
    requires UpTo(w.timestamps, last) && UpTo(w.admitted, last) && last <= now
    ensures var w' := Request(w, limit, window, now); UpTo(w'.timestamps, now) && UpTo(w'.admitted, now)
  {
    LiveUpTo(w.timestamps, now - window, last);
  }

  lemma {:induction false} ServeUpTo(nows: seq<Time>, limit: int, window: int)
    requires NonDecreasing(nows) && nows != []
    ensures var w := Serve(nows, limit, window);
            UpTo(w.timestamps, nows[|nows| - 1]) && UpTo(w.admitted, nows[|nows| - 1])
    decreases |nows|
  {
    var init, now := nows[..|nows| - 1], nows[|nows| - 1];
    if init == [] {
      RequestUpTo(FRESH, limit, window, now, now);
    } else {
      ServeUpTo(init, limit, window);
      RequestUpTo(Serve(init, limit, window), limit, window, init[|init| - 1], now);
    }
  }

  /** With a limit of one the list is the latest admission, and no admission is later. */
  predicate OnlyLatest(w: Window) {
    && (w.admitted == [] ==> w.timestamps == [])
    && (w.admitted != [] ==>
          w.timestamps == [w.admitted[|w.admitted| - 1]] && UpTo(w.admitted, w.admitted[|w.admitted| - 1]))
  }

  lemma OnlyLatestStep(w: Window, window: int, now: Time)
    requires OnlyLatest(w) && UpTo(w.admitted, now)
    ensures OnlyLatest(Request(w, 1, window, now))
  {
    assert [] + [now] == [now];
    if w.admitted == [] {
      RequestAdmits(w, 1, window, now, []);
    } else {
      var latest := w.admitted[|w.admitted| - 1];
      LiveOne(latest, now - window);
      if latest <= now - window {
        RequestAdmits(w, 1, window, now, []);
      }
    }
  }

  lemma {:induction false} ServeOnlyLatest(nows: seq<Time>, window: int)
    requires NonDecreasing(nows)
    ensures OnlyLatest(Serve(nows, 1, window))
    decreases |nows|
  {
    if nows != [] {
      var init, now := nows[..|nows| - 1], nows[|nows| - 1];
      ServeOnlyLatest(init, window);
      if init != [] {
        ServeUpTo(init, 1, window);
      }
      OnlyLatestStep(Serve(init, 1, window), window, now);
    }
  }

  /** Something is live exactly if the latest entry is. */
  lemma LatestDecides(ts: seq<Time>, cutoff: Time)
    requires ts != [] && UpTo(ts, ts[|ts| - 1])
    ensures Live(ts, cutoff) == [] <==> ts[|ts| - 1] <= cutoff
  {
    if ts[|ts| - 1] <= cutoff {
      LiveUpTo(ts, cutoff, ts[|ts| - 1]);
    }
  }

  lemma {:induction false} OnlyLatestDecides(w: Window, now: Time, window: int)
    requires OnlyLatest(w)
    ensures SameDecision(w, now, 1, window)
  {
    if w.admitted != [] {
      LatestDecides(w.admitted, now - window);
      LiveOne(w.admitted[|w.admitted| - 1], now - window);
    }
  }

  lemma {:induction false} LimitOneDecides(nows: seq<Time>, now: Time, window: int)
    requires NonDecreasing(nows)
    ensures SameDecision(Serve(nows, 1, window), now, 1, window)
  {
    ServeOnlyLatest(nows, window);
    OnlyLatestDecides(Serve(nows, 1, window), now, window);
  }

  lemma {:induction false} LatestReadingDecides(w: Window, now: Time, limit: int, window: int)
    requires WindowOk(w, limit, window) && (w.last.Some? ==> w.last.value <= now)
    ensures SameDecision(w, now, limit, window)
  {
    WindowAgrees(w, limit, window, now);
  }

  lemma {:induction false} NothingLiveDecides(w: Window, last: Time, now: Time, limit: int, window: int)
    requires UpTo(w.timestamps, last) && UpTo(w.admitted, last) && last <= now - window
    ensures SameDecision(w, now, limit, window)
  {
    LiveUpTo(w.timestamps, now - window, last);
    LiveUpTo(w.admitted, now - window, last);
  }

  lemma {:induction false} InOrderDecides(nows: seq<Time>, last: Time, now: Time, limit: int, window: int)
    requires EndsAt(nows, last) && (last <= now || last <= now - window)
    ensures SameDecision(Serve(nows, limit, window), now, limit, window)
  {
    if last <= now {
      PrunedDecidesAsHistory(nows, limit, window);
      LatestReadingDecides(Serve(nows, limit, window), now, limit, window);
    } else {
      ServeUpTo(nows, limit, window);
      NothingLiveDecides(Serve(nows, limit, window), last, now, limit, window);
    }
  }

  /** With an empty window each request forgets all others. */
  lemma ForgetStep(before: seq<Time>, admitted: seq<Time>, last: Option<Time>, t: Time, limit: int, window: int)
    requires limit >= 1 && window <= 0 && (before == [] || before == [t])
    ensures Request(Window(before, admitted, last), limit, window, t) == Window([t], admitted + [t], Some(t))
  {
    LiveOne(t, t - window);
    RequestAdmits(Window(before, admitted, last), limit, window, t, []);
    assert [] + [t] == [t];
  }

  lemma {:induction false} ServeForgets(t: Time, n: nat, limit: int, window: int)
    requires limit >= 1 && window <= 0 && n >= 1
    ensures Serve(Repeat(t, n), limit, window) == Window([t], Repeat(t, n), Some(t))
  {
    ServeNext(Repeat(t, n - 1), t, limit, window);
    if n == 1 {
      ForgetStep([], [], None, t, limit, window);
    } else {
      ServeForgets(t, n - 1, limit, window);
      ForgetStep([t], Repeat(t, n - 1), Some(t), t, limit, window);
    }
  }

  /** The pruned list shows at most one live entry where all admissions show `limit` of them. */
  lemma {:induction false} SplitDecision(last: Time, admitted: seq<Time>, now: Time, limit: int, window: int)
    requires limit >= 2 && |Live(admitted, now - window)| >= limit
    ensures !SameDecision(Window([last], admitted, Some(last)), now, limit, window)
  {
    LiveOne(last, now - window);
  }

  lemma {:induction false} RepeatThenLast(t: Time, n: nat, last: Time)
    requires t <= last
    ensures EndsAt(Repeat(t, n) + [last], last)
  {
    RepeatIs(t, n);
  }

  lemma {:induction false} AllLive(t: Time, n: nat, cutoff: Time)
    requires t > cutoff
    ensures |Live(Repeat(t, n), cutoff)| == n
  {
    LiveRepeat(t, n, cutoff);
    RepeatIs(t, n);
  }

  lemma {:induction false} ManyLive(t: Time, n: nat, last: Time, cutoff: Time)
    requires t > cutoff
    ensures |Live(Repeat(t, n) + [last], cutoff)| >= n
  {
    AllLive(t, n, cutoff);
    LiveAppend(Repeat(t, n), last, cutoff);
  }

  /** After `nows` the list holds only the latest admission, while `limit` of them are live at `now`. */
  ghost predicate Pruned(nows: seq<Time>, last: Time, now: Time, limit: int, window: int) {
    && EndsAt(nows, last)
    && Serve(nows, limit, window) == Window([last], nows, Some(last))
    && |Live(nows, now - window)| >= limit
  }

  lemma {:induction false} IsPruned(nows: seq<Time>, last: Time, now: Time, limit: int, window: int)
    requires EndsAt(nows, last) && |Live(nows, now - window)| >= limit
    requires Serve(nows, limit, window) == Window([last], nows, Some(last))
    ensures Pruned(nows, last, now, limit, window)
  {
  }

  lemma {:induction false} ServeForgetsLate(t: Time, last: Time, limit: int, window: int)
    requires limit >= 1 && window <= 0 && t <= last
    ensures Serve(Repeat(t, limit) + [last], limit, window) == Window([last], Repeat(t, limit) + [last], Some(last))
  {
    ServeForgets(t, limit, limit, window);
    ServeNext(Repeat(t, limit), last, limit, window);
    LiveOne(t, last - window);
    RequestAdmits(Window([t], Repeat(t, limit), Some(t)), limit, window, last, []);
    assert [] + [last] == [last];
  }

  lemma {:induction false} PrunedByLast(nows: seq<Time>, t: Time, last: Time, now: Time, limit: int, window: int)
    requires limit >= 2 && now - window < t <= last - window && t <= last && nows == Repeat(t, limit) + [last]
    ensures Pruned(nows, last, now, limit, window)
  {
    RepeatThenLast(t, limit, last);
    if window <= 0 {
      ServeForgetsLate(t, last, limit, window);
    } else {
      ServeLate(t, last, limit, window);
    }
    ManyLive(t, limit, last, now - window);
    IsPruned(nows, last, now, limit, window);
  }

  lemma {:induction false} PrunedHistory(last: Time, now: Time, limit: int, window: int) returns (nows: seq<Time>)
    requires limit >= 2 && last > now && last > now - window
    ensures Pruned(nows, last, now, limit, window)
  {
    var t := if window <= 0 then last else if now <= last - window then now else last - window;
    nows := Repeat(t, limit) + [last];
    PrunedByLast(nows, t, last, now, limit, window);
  }

  /** Outside the condition below some history makes the two decide differently. */
  lemma {:induction false} PruningDiffers(last: Time, now: Time, limit: int, window: int) returns (nows: seq<Time>)
    requires limit >= 2 && last > now && last > now - window
    ensures EndsAt(nows, last) && !SameDecision(Serve(nows, limit, window), now, limit, window)
  {
    nows := PrunedHistory(last, now, limit, window);
    SplitDecision(last, nows, now, limit, window);
  }

  lemma ServeLate(t: Time, last: Time, limit: int, window: int)
    requires limit >= 1 && window >= 1 && t <= last - window
    ensures Serve(Repeat(t, limit) + [last], limit, window) == Window([last], Repeat(t, limit) + [last], Some(last))
  {
    ServeRepeat(t, limit, limit, window);
    ServeNext(Repeat(t, limit), last, limit, window);
    LateStep(t, limit, Some(t), last, limit, window);
  }

  /**
    Pruning is invisible exactly then: after every history in order that ends at `last` the
    pruned list decides about `now` as all admissions would if and only if `now` is in order, or
    the limit is at most one, or an empty window leaves nothing to see.
   */
  lemma DecidesAsHistoryIff(last: Time, now: Time, limit: int, window: int)
    ensures AlwaysSameDecision(last, now, limit, window) <==> limit <= 1 || last <= now || last <= now - window
  {
    if limit <= 1 || last <= now || last <= now - window {
      forall nows | EndsAt(nows, last)
        ensures SameDecision(Serve(nows, limit, window), now, limit, window)
      {
        if limit == 1 {
          LimitOneDecides(nows, now, window);
        } else if limit > 1 {
          InOrderDecides(nows, last, now, limit, window);
        }
      }
    } else {
      var nows := PruningDiffers(last, now, limit, window);
      assert EndsAt(nows, last);
    }
  }
}
