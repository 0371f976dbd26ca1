/** The open-model pacing loop: when a segment's ticks are intended, and when they happen.
    Times are nanoseconds. */
module Pacing {
  import opened Arithmetic

  /** A tick: the target it was scheduled for and the instant it was dispatched. */
  datatype Tick = Tick(intended: int, actual: int) {
    function Lag(): int { actual - intended }
  }

  datatype Window = Window(start: int, end: int, interval: int)

  /** A late tick pushes the schedule back, so that no burst of overdue ticks follows it. */
  function NextTarget(t: Tick, interval: int): int {
    if t.Lag() > interval then t.actual + interval else t.intended + interval
  }

  function Due(w: Window, ticks: seq<Tick>): int {
    if ticks == [] then w.start else NextTarget(ticks[|ticks| - 1], w.interval)
  }

  /** The tick logs the pacing loop can produce under a clock that never runs backwards and
      whose timers never fire early. */
  ghost predicate Paced(w: Window, ticks: seq<Tick>) {
    && (forall k :: 0 <= k < |ticks| ==> ticks[k].intended <= ticks[k].actual < w.end)
    && (forall k {:trigger ticks[..k]} :: 0 <= k < |ticks| ==> ticks[k].intended == Due(w, ticks[..k]))
  }

  function CeilDiv(a: int, b: int): nat
    requires b > 0
  {
    if a <= 0 then 0 else (a + b - 1) / b
  }

  /** `CeilDiv(a, b)` is the least `q` with `a <= q * b`. */
  lemma CeilDivLeast(a: int, b: int, q: nat)
    requires b > 0
    ensures CeilDiv(a, b) <= q <==> a <= q * b
  {
    if a > 0 {
      var c := (a + b - 1) / b;
      assert a <= c * b < a + b;
      if c <= q {
        MulMonotone(c, q, b);
      } else {
        MulMonotone(q + 1, c, b);
        MulStep(q, b);
      }
    } else {
      MulMonotone(0, q, b);
    }
  }

  lemma DivBound(n: int, c: int, length: nat)
    requires c > 0 && n * c <= length
    ensures n <= length / c
  {
    var q := length / c;
    assert length < q * c + c;
    if q + 1 <= n {
      MulStep(q, c);
      MulMonotone(q + 1, n, c);
    }
  }

  /** The most ticks a window can hold. */
  function Capacity(w: Window): nat
    requires w.interval > 0
  {
    CeilDiv(w.end - w.start, w.interval)
  }

  function CapacityTotal(windows: seq<Window>): nat
    requires forall s :: 0 <= s < |windows| ==> windows[s].interval > 0
  {
    if windows == [] then 0
    else CapacityTotal(windows[..|windows| - 1]) + Capacity(windows[|windows| - 1])
  }

  lemma PacedExtend(w: Window, ticks: seq<Tick>, t: Tick)
    requires Paced(w, ticks) && t.intended == Due(w, ticks) && t.intended <= t.actual < w.end
    ensures Paced(w, ticks + [t])
  {
    var longer := ticks + [t];
    forall k | 0 <= k < |longer|
      ensures longer[k].intended == Due(w, longer[..k]) && longer[k].intended <= longer[k].actual < w.end
    {
      assert longer[..k] == ticks[..k];
      assert ticks[..|ticks|] == ticks;
    }
  }

  /** No target precedes the dispatch before it, and consecutive targets are at least one
      interval apart. */
  lemma NoCatchUp(w: Window, ticks: seq<Tick>, k: nat)
    requires Paced(w, ticks) && w.interval > 0 && 0 < k < |ticks|
    ensures ticks[k - 1].actual <= ticks[k].intended
    ensures ticks[k].intended - ticks[k - 1].intended >= w.interval
    ensures ticks[k - 1].actual <= ticks[k].actual
  {
    assert ticks[..k][k - 1] == ticks[k - 1];
  }

  lemma {:induction false} TargetsSpread(w: Window, ticks: seq<Tick>, i: nat, j: nat)
    requires Paced(w, ticks) && w.interval > 0 && i <= j < |ticks|
    ensures ticks[j].intended >= ticks[i].intended + (j - i) * w.interval
    decreases j - i
  {
    if i < j {
      var n := j - 1 - i;
      TargetsSpread(w, ticks, i, j - 1);
      NoCatchUp(w, ticks, j);
      MulStep(n, w.interval);
      assert j - i == n + 1;
    }
  }

  /** Every target lies in its segment, `k` intervals or more after the start. */
  lemma TargetsInWindow(w: Window, ticks: seq<Tick>, k: nat)
    requires Paced(w, ticks) && w.interval > 0 && k < |ticks|
    ensures w.start + k * w.interval <= ticks[k].intended < w.end
  {
    TargetsSpread(w, ticks, 0, k);
    assert ticks[..0] == [];
  }

  /** A segment plans at most its duration divided by its interval, rounded up. */
  lemma PlannedBounded(w: Window, ticks: seq<Tick>)
    requires Paced(w, ticks) && w.interval > 0
    ensures |ticks| <= Capacity(w)
  {
    if |ticks| > 0 {
      TargetsInWindow(w, ticks, |ticks| - 1);
      CeilDivLeast(w.end - w.start, w.interval, |ticks| - 1);
    }
  }

  /** Any span of `length` nanoseconds sees at most `length / interval + 2` dispatches. */
  lemma BurstBounded(w: Window, ticks: seq<Tick>, i: nat, j: nat, length: nat)
    requires Paced(w, ticks) && w.interval > 0
    requires i <= j < |ticks| && ticks[j].actual - ticks[i].actual <= length
    ensures j - i + 1 <= length / w.interval + 2
  {
    var n := if i < j then j - i - 1 else 0;
    SpanFits(w, ticks, i, j, n);
    DivBound(n, w.interval, length);
  }

  lemma SpanFits(w: Window, ticks: seq<Tick>, i: nat, j: nat, n: nat)
    requires Paced(w, ticks) && w.interval > 0 && i <= j < |ticks|
    requires n == if i < j then j - i - 1 else 0
    ensures n * w.interval <= ticks[j].actual - ticks[i].actual
  {
    if i < j {
      NoCatchUp(w, ticks, i + 1);
      TargetsSpread(w, ticks, i + 1, j);
    }
  }

  /** The `k`-th point of the undisturbed schedule. */
  function Grid(w: Window, k: int): int {
    w.start + k * w.interval
  }

  ghost predicate OnGrid(w: Window, ticks: seq<Tick>, n: nat)
    requires n <= |ticks|
  {
    forall k :: 0 <= k < n ==> ticks[k].intended == Grid(w, k)
  }

  ghost predicate Prompt(w: Window, ticks: seq<Tick>, n: int)
    requires n <= |ticks|
  {
    forall k :: 0 <= k < n ==> ticks[k].Lag() <= w.interval
  }

  /** Lag never accumulates: the first `n` targets are exact multiples of the interval if
      and only if no earlier tick was later than one interval. */
  lemma {:induction false} NoDrift(w: Window, ticks: seq<Tick>, n: nat)
    requires Paced(w, ticks) && w.interval > 0 && n <= |ticks|
    ensures OnGrid(w, ticks, n) <==> Prompt(w, ticks, n - 1)
    decreases n
  {
    if n > 1 {
      NoDrift(w, ticks, n - 1);
      if OnGrid(w, ticks, n - 1) {
        DriftStep(w, ticks, n - 1);
      }
    } else if n == 1 {
      assert ticks[..0] == [];
    }
  }

  lemma DriftStep(w: Window, ticks: seq<Tick>, k: nat)
    requires Paced(w, ticks) && w.interval > 0 && 0 < k < |ticks|
    requires ticks[k - 1].intended == Grid(w, k - 1)
    ensures ticks[k].intended == Grid(w, k) <==> ticks[k - 1].Lag() <= w.interval
  {
    assert ticks[..k][k - 1] == ticks[k - 1];
    MulStep(k - 1, w.interval);
  }

  // -- An ideal clock ------------------------------------------------------------

  function Later(a: int, b: int): int { if a < b then b else a }

  /** The log of a segment entered at `entry` when timers fire exactly on time and the work
      between them takes no time: it goes on until the next tick would fall past the end. */
  ghost predicate IdealLog(w: Window, entry: int, ticks: seq<Tick>) {
    && Paced(w, ticks)
    && (forall k :: 0 <= k < |ticks| ==> ticks[k].actual == Later(ticks[k].intended, entry))
    && Later(Due(w, ticks), entry) >= w.end
  }

  /** When the segment is left: the loop sleeps to the next target even if it lies past
      the end of the segment. */
  function IdealExit(w: Window, entry: int, ticks: seq<Tick>): int {
    if entry >= w.end then entry else Later(Due(w, ticks), entry)
  }

  lemma TicksBeforeEnd(w: Window, entry: int, ticks: seq<Tick>)
    requires IdealLog(w, entry, ticks) && |ticks| > 0
    ensures entry < w.end
    ensures ticks[0] == Tick(w.start, Later(w.start, entry))
  {
    assert ticks[..0] == [];
    assert ticks[0].actual >= entry;
  }

  /** An ideal segment reaches its full count if and only if it is entered before its end
      and at most one interval late. */
  lemma IdealCount(w: Window, entry: int, ticks: seq<Tick>)
    requires w.interval > 0 && w.start < w.end && IdealLog(w, entry, ticks)
    ensures |ticks| == Capacity(w) <==> entry < w.end && entry - w.start <= w.interval
  {
    CeilDivLeast(w.end - w.start, w.interval, 0);
    if |ticks| > 0 {
      TicksBeforeEnd(w, entry, ticks);
      if entry - w.start <= w.interval {
        PromptEntryFills(w, entry, ticks);
      } else {
        LateEntryLoses(w, entry, ticks);
      }
    }
  }

  lemma PromptEntryFills(w: Window, entry: int, ticks: seq<Tick>)
    requires w.interval > 0 && IdealLog(w, entry, ticks) && |ticks| > 0
    requires entry - w.start <= w.interval
    ensures |ticks| == Capacity(w)
  {
    var n := |ticks|;
    TicksBeforeEnd(w, entry, ticks);
    forall k | 0 < k < n ensures ticks[k].Lag() == 0 {
      NoCatchUp(w, ticks, k);
      NoCatchUpFrom(w, ticks, k);
    }
    NoDrift(w, ticks, n);
    assert ticks[n - 1].intended == Grid(w, n - 1);
    MulStep(n - 1, w.interval);
    assert Due(w, ticks) == Grid(w, n);
    NoCatchUpFrom(w, ticks, n - 1);
    CeilDivLeast(w.end - w.start, w.interval, n);
    PlannedBounded(w, ticks);
  }

  /** A segment entered promptly is left at the first point of its schedule past its end. */
  lemma PromptExit(w: Window, entry: int, ticks: seq<Tick>)
    requires w.interval > 0 && w.start < w.end && IdealLog(w, entry, ticks)
    requires entry < w.end && entry - w.start <= w.interval
    ensures |ticks| == Capacity(w) > 0 && IdealExit(w, entry, ticks) == Grid(w, Capacity(w))
  {
    CeilDivLeast(w.end - w.start, w.interval, 0);
    IdealCount(w, entry, ticks);
    var n := |ticks|;
    TicksBeforeEnd(w, entry, ticks);
    forall k | 0 < k < n ensures ticks[k].Lag() == 0 {
      NoCatchUp(w, ticks, k);
      NoCatchUpFrom(w, ticks, k);
    }
    NoDrift(w, ticks, n);
    assert ticks[n - 1].intended == Grid(w, n - 1);
    MulStep(n - 1, w.interval);
  }

  lemma {:induction false} NoCatchUpFrom(w: Window, ticks: seq<Tick>, k: nat)
    requires Paced(w, ticks) && w.interval > 0 && k < |ticks|
    ensures ticks[0].actual <= ticks[k].actual
    ensures k > 0 ==> ticks[0].actual <= ticks[k].intended
  {
    if k > 0 {
      NoCatchUpFrom(w, ticks, k - 1);
      NoCatchUp(w, ticks, k);
    }
  }

  lemma LateEntryLoses(w: Window, entry: int, ticks: seq<Tick>)
    requires w.interval > 0 && IdealLog(w, entry, ticks) && |ticks| > 0
    requires entry - w.start > w.interval
    ensures |ticks| < Capacity(w)
  {
    var last := |ticks| - 1;
    TicksBeforeEnd(w, entry, ticks);
    if last > 0 {
      NoCatchUp(w, ticks, 1);
      assert ticks[..1][0] == ticks[0];
      assert ticks[1].intended == entry + w.interval;
      TargetsSpread(w, ticks, 1, last);
      MulStep(last - 1, w.interval);
      MulStep(last, w.interval);
    } else {
      MulStep(0, w.interval);
    }
    CeilDivLeast(w.end - w.start, w.interval, last + 1);
  }

  lemma SameNextTick(w: Window, entry: int, a: seq<Tick>, b: seq<Tick>, k: nat)
    requires IdealLog(w, entry, a) && IdealLog(w, entry, b) && k < |a| && k <= |b| && a[..k] == b[..k]
    ensures k < |b| && a[k] == b[k]
  {
    assert b == b[..|b|];
  }

  /** An ideal clock leaves no choice: a segment entered at a given time has one log. */
  lemma {:induction false} IdealLogUnique(w: Window, entry: int, a: seq<Tick>, b: seq<Tick>, n: nat)
    requires IdealLog(w, entry, a) && IdealLog(w, entry, b) && n <= |a|
    ensures n <= |b| && a[..n] == b[..n]
  {
    if n > 0 {
      IdealLogUnique(w, entry, a, b, n - 1);
      SameNextTick(w, entry, a, b, n - 1);
    }
  }

  /** A slow segment overshoots its own end and starves the next one. Read the numbers as
      seconds: one tick an hour for a minute, then one a second for a minute; the second
      segment, which has room for 60, plans none. */
  lemma SlowSegmentStarvesNext()
    ensures var slow, fast := Window(0, 60, 3600), Window(60, 120, 1);
            && IdealLog(slow, 0, [Tick(0, 0)]) && IdealExit(slow, 0, [Tick(0, 0)]) == 3600
            && IdealLog(fast, 3600, []) && Capacity(fast) == 60
  {
    OneTickLog(Window(0, 60, 3600), Tick(0, 0));
    NoTickLog(Window(60, 120, 1), 3600);
  }

  lemma OneTickLog(w: Window, t: Tick)
    requires t == Tick(w.start, w.start) && w.start < w.end <= w.start + w.interval
    ensures IdealLog(w, w.start, [t]) && IdealExit(w, w.start, [t]) == w.start + w.interval
  {
    var none: seq<Tick> := [];
    PacedExtend(w, none, t);
    assert none + [t] == [t];
  }

  lemma NoTickLog(w: Window, entry: int)
    requires entry >= w.end
    ensures IdealLog(w, entry, [])
  {
  }

  // -- The loop ------------------------------------------------------------------

  /** The clock and the cancellation signal a scheduler observes. Everything it cannot see
      is chosen freely; an ideal environment is exact and never cancels. `dispatched` is
      history: the instants at which ticks were dispatched. */
  class Environment {
    const ideal: bool
    var now: int
    var cancelled: bool
    ghost var dispatched: seq<int>

    constructor (ideal: bool, now: int)
      ensures this.ideal == ideal && this.now == now && !cancelled && dispatched == []
    {
      this.ideal := ideal;
      this.now := now;
      this.cancelled := false;
      this.dispatched := [];
    }

    method Elapse(atLeast: nat)
      modifies this`now, this`cancelled
      ensures now >= old(now) + atLeast && (ideal ==> now == old(now) + atLeast)
      ensures old(cancelled) ==> cancelled
      ensures ideal ==> cancelled == old(cancelled)
    {
      var extra: nat :| extra >= 0;
      var stop: bool := *;
      now := now + atLeast + (if ideal then 0 else extra);
      cancelled := cancelled || (!ideal && stop);
    }

    /** Reads the clock. */
    method Now() returns (t: int)
      modifies this`now, this`cancelled
      ensures t == now && now >= old(now) && (ideal ==> now == old(now))
      ensures old(cancelled) ==> cancelled
      ensures ideal ==> cancelled == old(cancelled)
    {
      Elapse(0);
      t := now;
    }

    /** Waits on a timer or on cancellation, whichever comes first. */
    method Wait(d: nat) returns (fired: bool)
      modifies this`now, this`cancelled
      ensures now >= old(now) && (fired ==> now >= old(now) + d) && (!fired ==> cancelled)
      ensures old(cancelled) ==> cancelled
      ensures ideal ==> cancelled == old(cancelled)
      ensures ideal && !old(cancelled) ==> fired && now == old(now) + d
    {
      var early: bool := *;
      if cancelled || (!ideal && early) {
        if !ideal { cancelled := true; }
        fired := false;
      } else {
        Elapse(d);
        fired := true;
      }
    }

    /** Reads the in-flight counter, which workers may lower at any moment: the instant at
        which a tick is dispatched. */
    method InFlight() returns (n: nat)
      modifies this`dispatched
      ensures dispatched == old(dispatched) + [now]
    {
      dispatched := dispatched + [now];
      n :| n >= 0;
    }
  }

  /** A lag in milliseconds, at microsecond resolution. */
  function LagMs(t: Tick): real {
    if t.Lag() > 0 then (t.Lag() / 1000) as real / 1000.0 else 0.0
  }

  function MaxLagMs(ticks: seq<Tick>): (ms: real)
    ensures ms >= 0.0
    ensures forall k :: 0 <= k < |ticks| ==> LagMs(ticks[k]) <= ms
    ensures ms == 0.0 || exists k :: 0 <= k < |ticks| && LagMs(ticks[k]) == ms
  {
    if ticks == [] then 0.0
    else
      var front, last := MaxLagMs(ticks[..|ticks| - 1]), ticks[|ticks| - 1];
      if LagMs(last) > front then LagMs(last) else front
  }

  /** The dispatcher's book of one segment. */
  class SegmentBook {
    var planned: nat
    var scheduled: nat
    var dropped: nat
    var lagMaxMs: real

    constructor ()
      ensures Holds([])
    {
      planned, scheduled, dropped, lagMaxMs := 0, 0, 0, 0.0;
    }

    /** The book accounts for exactly these ticks. */
    ghost predicate Holds(ticks: seq<Tick>)
      reads this
    {
      planned == |ticks| == scheduled + dropped && lagMaxMs == MaxLagMs(ticks)
    }

    method Enter(ghost ticks: seq<Tick>, t: Tick, saturated: bool)
      requires Holds(ticks)
      modifies this
      ensures Holds(ticks + [t])
      ensures scheduled == old(scheduled) + if saturated then 0 else 1
    {
      assert (ticks + [t])[..|ticks|] == ticks;
      if t.Lag() > 0 && LagMs(t) > lagMaxMs {
        lagMaxMs := LagMs(t);
      }
      planned := planned + 1;
      if saturated {
        dropped := dropped + 1;
      } else {
        scheduled := scheduled + 1;
      }
    }
  }

  /** The part of an ideal run seen so far. */
  ghost predicate IdealSoFar(entry: int, now: int, ticks: seq<Tick>) {
    && (forall k :: 0 <= k < |ticks| ==> ticks[k].actual == Later(ticks[k].intended, entry))
    && now == if ticks == [] then entry else ticks[|ticks| - 1].actual
  }

  lemma IdealExtend(w: Window, entry: int, now: int, ticks: seq<Tick>, t: Tick)
    requires Paced(w, ticks) && w.interval > 0 && IdealSoFar(entry, now, ticks)
    requires t == Tick(Due(w, ticks), Later(Due(w, ticks), now))
    ensures t.actual == Later(t.intended, entry)
    ensures IdealSoFar(entry, t.actual, ticks + [t])
  {
  }

  lemma IdealDone(w: Window, entry: int, now: int, ticks: seq<Tick>)
    requires Paced(w, ticks) && w.interval > 0 && IdealSoFar(entry, now, ticks)
    requires Later(Due(w, ticks), now) >= w.end
    ensures IdealLog(w, entry, ticks)
    ensures IdealExit(w, entry, ticks) == if now >= w.end then now else Later(Due(w, ticks), now)
  {
    if ticks != [] { assert ticks[|ticks| - 1].actual < w.end; }
  }

  datatype Awaited = Over | Stopped | Reached(actual: int)

  /** Waits for one target: the segment ends first, the run is canceled first, or the
      target is reached. */
  method AwaitTarget(env: Environment, w: Window, target: int) returns (r: Awaited)
    modifies env`now, env`cancelled
    ensures env.now >= old(env.now) && (env.ideal ==> env.cancelled == old(env.cancelled))
    ensures match r
            case Over => env.now >= w.end
            case Stopped => env.cancelled
            case Reached(actual) => target <= actual < w.end && actual == env.now
    ensures env.ideal && !old(env.cancelled) ==>
      && !r.Stopped?
      && (r.Over? <==> Later(target, old(env.now)) >= w.end || old(env.now) >= w.end)
      && env.now == if old(env.now) >= w.end then old(env.now) else Later(target, old(env.now))
  {
    var now := env.Now();
    if now >= w.end { return Over; }
    if env.cancelled { return Stopped; }
    if target - now > 0 {
      var fired := env.Wait(target - now);
      if !fired { return Stopped; }
    }
    var actual := env.Now();
    r := if actual >= w.end then Over else Reached(actual);
  }

  /** When the ticks of a log were dispatched. */
  function Instants(ticks: seq<Tick>): (r: seq<int>)
    ensures |r| == |ticks|
  {
    seq(|ticks|, k requires 0 <= k < |ticks| => ticks[k].actual)
  }

  lemma InstantsExtend(before: seq<int>, ticks: seq<Tick>, t: Tick)
    ensures (before + Instants(ticks)) + [t.actual] == before + Instants(ticks + [t])
  {
  }

  /** Paces one segment. Whatever the clock does, the ticks dispatched form a paced log that
      the book holds, each of them scheduled or dropped, and the loop ends. */
  method ScheduleSegment(env: Environment, w: Window, maxInFlight: nat, book: SegmentBook)
    returns (stopped: bool, ticks: seq<Tick>)
    requires w.interval > 0 && book.Holds([])
    modifies env, book
    ensures Paced(w, ticks) && book.Holds(ticks)
    ensures env.dispatched == old(env.dispatched) + Instants(ticks)
    ensures env.now >= old(env.now)
    ensures if stopped then env.cancelled else env.now >= w.end
    ensures env.ideal && !old(env.cancelled) ==>
      !stopped && IdealLog(w, old(env.now), ticks) && env.now == IdealExit(w, old(env.now), ticks)
  {
    ticks := [];
    ghost var entry := env.now;
    var nextTarget := w.start;
    while true
      invariant Paced(w, ticks) && nextTarget == Due(w, ticks) && book.Holds(ticks)
      invariant env.dispatched == old(env.dispatched) + Instants(ticks)
      invariant env.now >= entry
      invariant env.ideal ==> env.cancelled == old(env.cancelled)
      invariant env.ideal && !old(env.cancelled) ==> IdealSoFar(entry, env.now, ticks)
      decreases w.end + w.interval - nextTarget
    {
      ghost var before := env.now;
      ghost var ideal := env.ideal && !old(env.cancelled);
      var awaited := AwaitTarget(env, w, nextTarget);
      if awaited.Over? {
        if ideal { IdealDone(w, entry, before, ticks); }
        return false, ticks;
      }
      if awaited.Stopped? { return true, ticks; }
      var tick := Tick(nextTarget, awaited.actual);
      PacedExtend(w, ticks, tick);
      if ideal { IdealExtend(w, entry, before, ticks, tick); }
      nextTarget := if tick.Lag() > w.interval then tick.actual + w.interval else nextTarget + w.interval;
      var inFlight := env.InFlight();
      book.Enter(ticks, tick, inFlight >= maxInFlight);
      InstantsExtend(old(env.dispatched), ticks, tick);
      ticks := ticks + [tick];
    }
  }
}
