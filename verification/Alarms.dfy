/** What a controllable clock does, without its heap: pending alarms, and the firings that
    moving the clock to a target time causes. */
module Alarms {
  import opened Arithmetic
  import opened Results

  /** An alarm due at `due`, and every `step` after that unless `step` is zero. */
  datatype Alarm = Alarm(due: int, step: nat) {
    predicate FiresAt(t: int) {
      t == due || (step > 0 && t > due && (t - due) % step == 0)
    }
  }

  /** A firing; firings are ordered by time and, at the same time, by identifier. */
  datatype Firing = Firing(time: int, id: nat) {
    predicate Before(other: Firing) {
      time < other.time || (time == other.time && id < other.id)
    }
  }

  type Alarms = map<nat, Alarm>
  type Channels = map<nat, Option<int>>

  /** Everything that fires up to the target time. */
  ghost function Pending(m: Alarms, target: int): set<Firing> {
    set id, t | id in m && m[id].due <= t <= target && m[id].FiresAt(t) :: Firing(t, id)
  }

  /** The first firing of a repeating alarm after the target time. */
  function NextAfter(a: Alarm, target: int): int
    requires a.step > 0
  {
    if a.due > target then a.due else a.due + ((target - a.due) / a.step + 1) * a.step
  }

  /** The alarms left when everything up to the target time has fired. */
  ghost function Settled(m: Alarms, target: int): Alarms {
    map id | id in m && (m[id].due > target || m[id].step > 0) ::
      if m[id].step > 0 then Alarm(NextAfter(m[id], target), m[id].step) else m[id]
  }

  /** The channels, each holding at most one time, after everything up to the target time
      has fired: a full channel keeps what it holds, an empty one gets the first firing. */
  ghost function Filled(channels: Channels, m: Alarms, target: int): Channels {
    map id | id in channels ::
      if channels[id].None? && id in m && m[id].due <= target then Some(m[id].due) else channels[id]
  }

  ghost predicate Ascending(log: seq<Firing>) {
    forall i, j :: 0 <= i < j < |log| ==> log[i].Before(log[j])
  }

  /** A log of exactly the pending firings, in order. */
  ghost predicate IsLog(log: seq<Firing>, m: Alarms, target: int) {
    Ascending(log) && forall f :: f in log <==> f in Pending(m, target)
  }

  /** There is only one such log. */
  lemma {:induction false} LogUnique(a: seq<Firing>, b: seq<Firing>)
    requires Ascending(a) && Ascending(b) && (forall f :: f in a <==> f in b)
    ensures a == b
  {
    if a != [] { assert a[0] in b; }
    if b != [] { assert b[0] in a; }
    if a != [] {
      assert a[0] == b[0];
      forall f ensures f in a[1..] <==> f in b[1..] {
        assert f in a[1..] <==> f in a && f != a[0];
        assert f in b[1..] <==> f in b && f != b[0];
      }
      LogUnique(a[1..], b[1..]);
    }
  }

  // -- One firing --------------------------------------------------------------------

  /** The alarms after one of them has fired. */
  ghost function Fired(m: Alarms, id: nat): Alarms
    requires id in m
  {
    if m[id].step > 0 then m[id := Alarm(m[id].due + m[id].step, m[id].step)] else m - {id}
  }

  /** Puts an alarm that fired at `t` back, if it repeats. */
  ghost function Again(rest: Alarms, id: nat, t: int, step: nat): Alarms {
    if step > 0 then rest[id := Alarm(t + step, step)] else rest
  }

  /** Firing takes the alarm away and, if it repeats, puts it back one step later. */
  lemma FiredIsRearmed(m: Alarms, id: nat, step: nat, t: int)
    requires id in m && m[id] == Alarm(t, step)
    ensures Again(m - {id}, id, t, step) == Fired(m, id)
  {
  }

  ghost function Deliver(channels: Channels, id: nat, t: int): Channels
    requires id in channels
  {
    if channels[id].None? then channels[id := Some(t)] else channels
  }

  /** The alarm that is first in firing order. */
  ghost predicate First(m: Alarms, id: nat) {
    id in m && forall other :: other in m && other != id ==> Firing(m[id].due, id).Before(Firing(m[other].due, other))
  }

  /** A repeating alarm fires when it is due and then as the alarm that is due a step later. */
  lemma FiresAgain(a: Alarm, t: int)
    requires a.step > 0
    ensures t >= a.due && a.FiresAt(t) <==>
      t == a.due || (t >= a.due + a.step && Alarm(a.due + a.step, a.step).FiresAt(t))
  {
    DivModShift(t - a.due, a.step);
    if a.due < t < a.due + a.step { DivModUnique(t - a.due, a.step, 0, t - a.due); }
  }

  lemma FiredAlarm(m: Alarms, id: nat, other: nat, t: int)
    requires id in m && m[id].due <= t
    requires other in m
    ensures other in Fired(m, id) && Fired(m, id)[other].due <= t && Fired(m, id)[other].FiresAt(t)
      <==> m[other].due <= t && m[other].FiresAt(t) && !(other == id && t == m[id].due)
  {
    if other == id && m[id].step > 0 { FiresAgain(m[id], t); }
  }

  /** Firing the first alarm takes one firing, the least, off the pending ones. */
  lemma FirePending(m: Alarms, id: nat, target: int)
    requires First(m, id) && m[id].due <= target
    ensures var f := Firing(m[id].due, id);
            && f in Pending(m, target) && f !in Pending(Fired(m, id), target)
            && Pending(m, target) == {f} + Pending(Fired(m, id), target)
            && forall g :: g in Pending(Fired(m, id), target) ==> f.Before(g)
  {
    var f := Firing(m[id].due, id);
    forall g: Firing
      ensures g in Pending(Fired(m, id), target) <==> g in Pending(m, target) && g != f
      ensures g in Pending(Fired(m, id), target) ==> f.Before(g)
    {
      PendingMember(m, target, g);
      PendingMember(Fired(m, id), target, g);
      if g.id in m && m[id].due <= g.time { FiredAlarm(m, id, g.id, g.time); }
    }
    PendingMember(m, target, f);
  }

  lemma PendingMember(m: Alarms, target: int, f: Firing)
    ensures f in Pending(m, target) <==> f.id in m && m[f.id].due <= f.time <= target && m[f.id].FiresAt(f.time)
  {
    if f.id in m && m[f.id].due <= f.time <= target && m[f.id].FiresAt(f.time) {
      assert Firing(f.time, f.id) == f;
    }
  }

  lemma NextAfterStep(a: Alarm, target: int)
    requires a.step > 0 && a.due <= target
    ensures NextAfter(Alarm(a.due + a.step, a.step), target) == NextAfter(a, target)
  {
    var d := target - a.due;
    if d >= a.step {
      DivModShift(d, a.step);
      MulStep(d / a.step, a.step);
    } else {
      DivModUnique(d, a.step, 0, d);
    }
  }

  /** Firing one due alarm does not change what is left in the end. */
  lemma FireSettled(m: Alarms, id: nat, target: int)
    requires id in m && m[id].due <= target
    ensures Settled(Fired(m, id), target) == Settled(m, target)
  {
    if m[id].step > 0 { NextAfterStep(m[id], target); }
  }

  lemma FireFilled(channels: Channels, m: Alarms, id: nat, target: int)
    requires id in m && id in channels && m[id].due <= target
    ensures Filled(Deliver(channels, id, m[id].due), Fired(m, id), target) == Filled(channels, m, target)
  {
  }

  /** With nothing due there is nothing to do. */
  lemma NothingDue(channels: Channels, m: Alarms, target: int)
    requires forall id :: id in m ==> m[id].due > target
    ensures Pending(m, target) == {} && Settled(m, target) == m && Filled(channels, m, target) == channels
  {
    forall f: Firing ensures f !in Pending(m, target) { PendingMember(m, target, f); }
  }

  /** The log while `m` is what is left of `before`. */
  ghost predicate LogSoFar(log: seq<Firing>, before: Alarms, m: Alarms, target: int) {
    && Ascending(log)
    && (forall f :: f in Pending(before, target) <==> f in log || f in Pending(m, target))
    && (forall f, g :: f in log && g in Pending(m, target) ==> f.Before(g))
  }

  /** Where an advance to the target time is, having started from `before` and `open`: what
      has fired, what is left, and what the channels hold. */
  ghost predicate Underway(log: seq<Firing>, before: Alarms, open: Channels, m: Alarms, channels: Channels, target: int) {
    && LogSoFar(log, before, m, target)
    && Settled(m, target) == Settled(before, target)
    && Filled(channels, m, target) == Filled(open, before, target)
  }

  lemma AdvanceStarts(m: Alarms, channels: Channels, target: int)
    ensures Underway([], m, channels, m, channels, target)
  {
  }

  /** Each firing extends the log, and leaves less to fire. */
  lemma AdvanceSteps(log: seq<Firing>, before: Alarms, open: Channels, m: Alarms, channels: Channels, id: nat, target: int)
    requires Underway(log, before, open, m, channels, target)
    requires First(m, id) && id in channels && m[id].due <= target
    ensures Underway(log + [Firing(m[id].due, id)], before, open, Fired(m, id), Deliver(channels, id, m[id].due), target)
    ensures |Pending(Fired(m, id), target)| < |Pending(m, target)|
  {
    LogGrows(log, before, m, id, target);
    FireSettled(m, id, target);
    FireFilled(channels, m, id, target);
  }

  /** Once nothing is due, all that was pending has fired. */
  lemma AdvanceEnds(log: seq<Firing>, before: Alarms, open: Channels, m: Alarms, channels: Channels, target: int)
    requires Underway(log, before, open, m, channels, target) && forall id :: id in m ==> m[id].due > target
    ensures IsLog(log, before, target) && m == Settled(before, target) && channels == Filled(open, before, target)
  {
    NothingDue(channels, m, target);
  }

  lemma LogGrows(log: seq<Firing>, before: Alarms, m: Alarms, id: nat, target: int)
    requires LogSoFar(log, before, m, target) && First(m, id) && m[id].due <= target
    ensures LogSoFar(log + [Firing(m[id].due, id)], before, Fired(m, id), target)
    ensures |Pending(Fired(m, id), target)| < |Pending(m, target)|
  {
    var f := Firing(m[id].due, id);
    FirePending(m, id, target);
    forall i, j | 0 <= i < j < |log + [f]|
      ensures (log + [f])[i].Before((log + [f])[j])
    {
      assert i < |log| && log[i] in log;
    }
    FewerMembers(Pending(Fired(m, id), target), Pending(m, target), f);
  }

  lemma FewerMembers(a: set<Firing>, b: set<Firing>, f: Firing)
    requires f !in a && b == {f} + a
    ensures |a| < |b|
  {
  }

  // -- Advancing in two steps ----------------------------------------------------------

  /** What is left is due strictly after the target. */
  lemma SettledLater(m: Alarms, target: int, id: nat)
    requires id in Settled(m, target)
    ensures Settled(m, target)[id].due > target && Settled(m, target)[id].step == m[id].step
  {
    if m[id].step > 0 { NextAfterBounds(m[id], target); }
  }

  /** The next firing is the first one on the alarm's schedule after the target. */
  lemma NextAfterBounds(a: Alarm, target: int)
    requires a.step > 0
    ensures NextAfter(a, target) > target && a.FiresAt(NextAfter(a, target))
    ensures a.due <= target ==> NextAfter(a, target) <= target + a.step
    ensures NextAfter(a, target) >= a.due
  {
    if a.due <= target {
      var d := target - a.due;
      var q := d / a.step;
      MulStep(q, a.step);
      DivModUnique((q + 1) * a.step, a.step, q + 1, 0);
    }
  }

  /** After settling, an alarm fires at exactly the times it would have fired anyway. */
  lemma SettledFires(a: Alarm, target: int, t: int)
    requires a.step > 0 && a.due <= target < t
    ensures NextAfter(a, target) <= t && Alarm(NextAfter(a, target), a.step).FiresAt(t) <==> a.FiresAt(t)
  {
    var step, x := a.step, t - a.due;
    var k := (target - a.due) / step + 1;
    NextAfterBounds(a, target);
    ModOfDifference(x, k, step);
    if t < NextAfter(a, target) {
      assert (k - 1) * step <= target - a.due < x < k * step by { MulStep(k - 1, step); }
      DivModUnique(x, step, k - 1, x - (k - 1) * step);
    }
  }

  lemma ModOfDifference(x: int, k: int, c: int)
    requires c > 0
    ensures (x - k * c) % c == x % c
  {
    var q, r := x / c, x % c;
    assert x - k * c == (q - k) * c + r;
    DivModUnique(x - k * c, c, q - k, r);
  }

  /** The firings up to a later time are those up to an earlier one, and then those of what
      the earlier one left. */
  lemma PendingSplits(m: Alarms, t1: int, t2: int, f: Firing)
    requires t1 <= t2
    ensures f in Pending(m, t2) <==> f in Pending(m, t1) || f in Pending(Settled(m, t1), t2)
    ensures f in Pending(m, t1) ==> f.time <= t1
    ensures f in Pending(Settled(m, t1), t2) ==> f.time > t1
  {
    PendingMember(m, t2, f);
    PendingMember(m, t1, f);
    PendingMember(Settled(m, t1), t2, f);
    if f.id in m {
      var a := m[f.id];
      if a.step > 0 {
        NextAfterBounds(a, t1);
        if a.due <= t1 < f.time { SettledFires(a, t1, f.time); }
      }
    }
  }

  /** Logs of consecutive advances join into the log of one advance. */
  lemma LogsJoin(first: seq<Firing>, second: seq<Firing>, m: Alarms, t1: int, t2: int)
    requires t1 <= t2 && IsLog(first, m, t1) && IsLog(second, Settled(m, t1), t2)
    ensures IsLog(first + second, m, t2)
  {
    forall f ensures f in first + second <==> f in Pending(m, t2) {
      PendingSplits(m, t1, t2, f);
    }
    forall i, j | 0 <= i < j < |first + second|
      ensures (first + second)[i].Before((first + second)[j])
    {
      if i < |first| <= j {
        PendingSplits(m, t1, t2, first[i]);
        PendingSplits(m, t1, t2, second[j - |first|]);
        assert first[i] in first && second[j - |first|] in second;
      }
    }
  }

  lemma NextAfterTwice(a: Alarm, t1: int, t2: int)
    requires a.step > 0 && t1 <= t2
    ensures NextAfter(Alarm(NextAfter(a, t1), a.step), t2) == NextAfter(a, t2)
  {
    if a.due <= t1 {
      var step, k := a.step, (t1 - a.due) / a.step + 1;
      var next := a.due + k * step;
      NextAfterBounds(a, t1);
      if next <= t2 {
        var q, r := (t2 - a.due) / step, (t2 - a.due) % step;
        assert t2 - next == (q - k) * step + r;
        DivModUnique(t2 - next, step, q - k, r);
        assert (q - k + 1) * step + k * step == (q + 1) * step;
      } else {
        assert (k - 1) * step <= t1 - a.due <= t2 - a.due < k * step;
        MulStep(k - 1, step);
        DivModUnique(t2 - a.due, step, k - 1, t2 - a.due - (k - 1) * step);
      }
    }
  }

  /** Advancing in two steps leaves the same alarms and fills the same channels as advancing
      at once. */
  lemma SettledTwice(m: Alarms, t1: int, t2: int)
    requires t1 <= t2
    ensures Settled(Settled(m, t1), t2) == Settled(m, t2)
  {
    forall id | id in m && m[id].step > 0
      ensures NextAfter(Alarm(NextAfter(m[id], t1), m[id].step), t2) == NextAfter(m[id], t2)
    {
      NextAfterTwice(m[id], t1, t2);
    }
  }

  lemma FilledTwice(channels: Channels, m: Alarms, t1: int, t2: int)
    requires t1 <= t2
    ensures Filled(Filled(channels, m, t1), Settled(m, t1), t2) == Filled(channels, m, t2)
  {
  }

  // -- Schedules and time --------------------------------------------------------------

  /** The `k`-th firing of a repeating alarm. */
  function Nth(a: Alarm, k: nat): int {
    a.due + k * a.step
  }

  /** A repeating alarm fires at its due time and at every whole number of steps after it,
      and at no other time. */
  lemma FiresAtSteps(a: Alarm, t: int, k: nat)
    requires a.step > 0
    ensures a.FiresAt(Nth(a, k)) && Nth(a, k) >= a.due
    ensures t >= a.due && a.FiresAt(t) ==> t == Nth(a, (t - a.due) / a.step)
  {
    DivModUnique(k * a.step, a.step, k, 0);
    if t >= a.due { DivModUnique(t - a.due, a.step, (t - a.due) / a.step, (t - a.due) % a.step); }
  }

  ghost predicate NoneOverdue(m: Alarms, now: int) {
    forall id :: id in m ==> m[id].due >= now
  }

  /** Unless an alarm was created in the past, time never runs backwards while firing. */
  lemma TimeRunsForward(log: seq<Firing>, m: Alarms, now: int, target: int)
    requires now <= target && NoneOverdue(m, now) && IsLog(log, m, target)
    ensures forall i :: 0 <= i < |log| ==> now <= log[i].time <= target
    ensures forall i, j :: 0 <= i < j < |log| ==> log[i].time <= log[j].time
    ensures NoneOverdue(Settled(m, target), target)
  {
    forall i | 0 <= i < |log| ensures now <= log[i].time <= target {
      assert log[i] in log;
      PendingMember(m, target, log[i]);
    }
    forall id | id in Settled(m, target) ensures Settled(m, target)[id].due >= target {
      SettledLater(m, target, id);
    }
  }

  /** What a run keeps whose durations are never negative: everything fired in order and not
      after now, and nothing pending is overdue. */
  ghost predicate Forward(fired: seq<Firing>, m: Alarms, now: int) {
    && NoneOverdue(m, now)
    && (forall i :: 0 <= i < |fired| ==> fired[i].time <= now)
    && (forall i, j :: 0 <= i < j < |fired| ==> fired[i].time <= fired[j].time)
  }

  lemma ForwardAdvances(fired: seq<Firing>, log: seq<Firing>, m: Alarms, now: int, target: int)
    requires now <= target && Forward(fired, m, now) && IsLog(log, m, target)
    ensures Forward(fired + log, Settled(m, target), target)
  {
    TimeRunsForward(log, m, now, target);
  }
}
