/** The controllable clock: timers and tickers in virtual time. */
module MockClock {
  import opened Results
  import opened Alarms
  import opened History
  import opened HeapOrder
  import opened EntryHeap

  /** Only a ticker with a positive period repeats. */
  function StepOf(ticker: bool, period: int): nat {
    if ticker && period > 0 then period else 0
  }

  /** The ghost fields are the clock's abstract value: every entry ever created, the alarms
      the heap stands for, what the entries' channels hold, and what has fired so far. */
  class ControllableClock {
    var now: int
    const heap: EntryHeap
    var nextID: nat
    ghost var repr: set<Entry>
    ghost var registry: map<nat, Entry>
    ghost var alarms: Alarms
    ghost var channels: Channels
    ghost var fired: seq<Firing>

    /** The heap holds exactly the entries with a pending alarm, the others have no position;
        identifiers are unique, and no stopped entry is in the heap. */
    ghost predicate Valid()
      reads `nextID, `repr, `registry, `alarms, `channels, heap, repr
    {
      && heap.members <= repr
      && heap.Valid()
      && alarms.Keys <= registry.Keys == channels.Keys
      && (forall id :: id in registry ==> registry[id] in repr && registry[id].id == id)
      && (forall e {:trigger e in repr} :: e in repr ==>
            && e.id in registry && registry[e.id] == e
            && 0 < e.id <= nextID && channels[e.id] == e.ch
            && (e in heap.members <==> e.id in alarms)
            && (if e.id in alarms then !e.stopped && alarms[e.id] == Alarm(e.triggerAt, StepOf(e.ticker, e.period))
                else e.index == -1))
    }

    constructor (initialTime: int)
      ensures Valid() && now == initialTime && alarms == map[] && channels == map[] && registry == map[] && fired == []
      ensures fresh(heap)
    {
      now := initialTime;
      heap := new EntryHeap();
      nextID := 0;
      repr, registry, alarms, channels, fired := {}, map[], map[], map[], [];
    }

    /** Registers a new entry, which has no alarm yet. */
    method Register(ticker: bool, triggerAt: int, period: int) returns (e: Entry)
      requires Valid()
      modifies this`nextID, this`repr, this`registry, this`channels
      ensures Valid() && fresh(e) && repr == old(repr) + {e}
      ensures e.id == nextID == old(nextID) + 1 && e.id !in old(registry)
      ensures e.ticker == ticker && e.triggerAt == triggerAt && e.period == period && !e.stopped
      ensures registry == old(registry)[e.id := e] && channels == old(channels)[e.id := None]
    {
      e := new Entry(nextID + 1, ticker, triggerAt, period);
      nextID, repr, registry, channels := e.id, repr + {e}, registry[e.id := e], channels[e.id := None];
    }

    /** Puts a registered entry into the heap. */
    method Arm(e: Entry)
      requires Valid() && e in repr && e.id !in alarms && !e.stopped
      modifies this`alarms, heap, heap.members`index, e`index
      ensures Valid() && alarms == old(alarms)[e.id := Alarm(e.triggerAt, StepOf(e.ticker, e.period))]
    {
      heap.Push(e);
      alarms := alarms[e.id := Alarm(e.triggerAt, StepOf(e.ticker, e.period))];
    }

    /** The bounds guard on an entry's index is exactly membership in the heap. */
    lemma GuardIsMembership(e: Entry)
      requires Valid() && e in repr
      ensures 0 <= e.index < |heap.items| <==> e.id in alarms
      ensures e.id in alarms ==> e in heap.members && heap.items[e.index] == e
    {
    }

    /** The entry at the root of the heap is the first in firing order. */
    lemma RootIsFirst()
      requires Valid() && heap.items != []
      ensures heap.items[0] in repr && First(alarms, heap.items[0].id)
      ensures alarms[heap.items[0].id].due == heap.items[0].triggerAt
    {
      var e := heap.items[0];
      assert e in heap.members;
      forall other | other in alarms && other != e.id
        ensures Firing(alarms[e.id].due, e.id).Before(Firing(alarms[other].due, other))
      {
        GuardIsMembership(registry[other]);
        RootFirst(heap.keys, |heap.items|, registry[other].index);
      }
    }

    /** Takes an entry out of the heap. */
    method Disarm(e: Entry)
      requires Valid() && e in repr && e.id in alarms
      modifies this`alarms, heap, heap.members`index
      ensures Valid() && alarms == old(alarms) - {e.id}
    {
      GuardIsMembership(e);
      var _ := heap.Remove(e.index);
      alarms := alarms - {e.id};
    }

    /** Takes the first entry in firing order out of the heap. */
    method DisarmFirst() returns (e: Entry)
      requires Valid() && heap.items != []
      modifies this`alarms, heap, heap.members`index
      ensures Valid() && e in repr && e == old(heap.items[0]) && !e.stopped
      ensures old(First(alarms, heap.items[0].id))
      ensures old(alarms)[e.id] == Alarm(e.triggerAt, StepOf(e.ticker, e.period))
      ensures alarms == old(alarms) - {e.id}
    {
      RootIsFirst();
      e := heap.PopMin();
      alarms := alarms - {e.id};
    }

    /** Restores the heap after the schedule of an entry in it has changed. */
    method Rearm(e: Entry, triggerAt: int, period: int)
      requires Valid() && e in repr && e.id in alarms
      modifies this`alarms, heap, heap.members`index, e`triggerAt, e`period
      ensures Valid() && e.triggerAt == triggerAt && e.period == period
      ensures alarms == old(alarms)[e.id := Alarm(triggerAt, StepOf(e.ticker, period))]
    {
      heap.Retime(e, triggerAt, period);
      alarms := alarms[e.id := Alarm(triggerAt, StepOf(e.ticker, period))];
    }

    /** Offers a time to an entry's channel, which holds at most one. */
    method Offer(e: Entry, t: int)
      requires Valid() && e in repr
      modifies this`channels, this`fired, e`ch
      ensures Valid() && channels == Deliver(old(channels), e.id, t)
      ensures fired == old(fired) + [Firing(t, e.id)]
    {
      fired := fired + [Firing(t, e.id)];
      if e.ch.None? {
        e.ch := Some(t);
        channels := channels[e.id := Some(t)];
      }
    }

    // -- Timers and tickers ------------------------------------------------------------

    method NewTimer(d: int) returns (e: Entry)
      requires Valid()
      modifies this`nextID, this`repr, this`registry, this`alarms, this`channels, heap, heap.members`index
      ensures Valid() && now == old(now) && fresh(e) && repr == old(repr) + {e}
      ensures e.id == old(nextID) + 1 == nextID && !e.ticker && e.id !in old(registry)
      ensures registry == old(registry)[e.id := e]
      ensures alarms == old(alarms)[e.id := Alarm(now + d, 0)]
      ensures channels == old(channels)[e.id := None]
      ensures old(Forward(fired, alarms, now)) && d >= 0 ==> Forward(fired, alarms, now)
    {
      e := Register(false, now + d, d);
      Arm(e);
    }

    method NewTicker(d: int) returns (e: Entry)
      requires Valid()
      modifies this`nextID, this`repr, this`registry, this`alarms, this`channels, heap, heap.members`index
      ensures Valid() && now == old(now) && fresh(e) && repr == old(repr) + {e}
      ensures e.id == old(nextID) + 1 == nextID && e.ticker && e.id !in old(registry)
      ensures registry == old(registry)[e.id := e]
      ensures alarms == old(alarms)[e.id := Alarm(now + d, if d > 0 then d else 0)]
      ensures channels == old(channels)[e.id := None]
      ensures old(Forward(fired, alarms, now)) && d >= 0 ==> Forward(fired, alarms, now)
    {
      e := Register(true, now + d, d);
      Arm(e);
    }

    /** Stops a timer: nothing of it stays pending. The result says only that it had not
        been stopped before. */
    method StopTimer(e: Entry) returns (stopped: bool)
      requires Valid() && e in repr
      modifies this`alarms, heap, heap.members`index, e`stopped
      ensures Valid() && alarms == old(alarms) - {e.id} && e.stopped && stopped == !old(e.stopped)
      ensures old(Forward(fired, alarms, now)) ==> Forward(fired, alarms, now)
    {
      if e.stopped { return false; }
      TakeOut(e);
      e.stopped := true;
      stopped := true;
    }

    method StopTicker(e: Entry)
      requires Valid() && e in repr
      modifies this`alarms, heap, heap.members`index, e`stopped
      ensures Valid() && alarms == old(alarms) - {e.id} && e.stopped
      ensures old(Forward(fired, alarms, now)) ==> Forward(fired, alarms, now)
    {
      TakeOut(e);
      e.stopped := true;
    }

    /** Removes an entry from the heap if its index says it is there. */
    method TakeOut(e: Entry)
      requires Valid() && e in repr
      modifies this`alarms, heap, heap.members`index
      ensures Valid() && alarms == old(alarms) - {e.id}
    {
      GuardIsMembership(e);
      if 0 <= e.index < |heap.items| {
        Disarm(e);
      }
    }

    /** Puts an entry that is not pending into the heap again. */
    method Restart(e: Entry, triggerAt: int, period: int)
      requires Valid() && e in repr && e.id !in alarms
      modifies this`alarms, heap, heap.members`index, e`stopped, e`triggerAt, e`period, e`index
      ensures Valid() && !e.stopped
      ensures alarms == old(alarms)[e.id := Alarm(triggerAt, StepOf(e.ticker, period))]
    {
      e.stopped, e.triggerAt, e.period := false, triggerAt, period;
      Arm(e);
    }

    /** Schedules a timer or ticker anew, stopped or not, pending or not. */
    method Reset(e: Entry, d: int) returns (wasActive: bool)
      requires Valid() && e in repr
      modifies this`alarms, heap, heap.members`index, e`stopped, e`triggerAt, e`period, e`index
      ensures Valid() && !e.stopped && wasActive == !old(e.stopped)
      ensures alarms == old(alarms)[e.id := Alarm(now + d, StepOf(e.ticker, d))]
      ensures old(Forward(fired, alarms, now)) && d >= 0 ==> Forward(fired, alarms, now)
    {
      wasActive := !e.stopped;
      GuardIsMembership(e);
      if 0 <= e.index < |heap.items| {
        Rearm(e, now + d, d);
      } else {
        Restart(e, now + d, d);
      }
    }

    // -- Time ----------------------------------------------------------------------------

    /** Arms a ticker that has just fired one period after its last firing. */
    method Repeat(e: Entry)
      requires Valid() && e in repr && e.id !in alarms && !e.stopped && e.ticker && e.period > 0
      modifies this`alarms, heap, heap.members`index, e`index, e`triggerAt
      ensures Valid() && alarms == old(alarms)[e.id := Alarm(old(e.triggerAt) + e.period, e.period)]
    {
      e.triggerAt := e.triggerAt + e.period;
      Arm(e);
    }

    /** What firing an entry does once it is out of the heap: its channel is offered the
        time, and a ticker is armed again. */
    method Fire(e: Entry, t: int)
      requires Valid() && e in repr && e.id !in alarms && !e.stopped && e.triggerAt == t
      modifies this`alarms, this`channels, this`fired, heap, heap.members`index, e`index, e`triggerAt, e`ch
      ensures Valid() && channels == Deliver(old(channels), e.id, t) && fired == old(fired) + [Firing(t, e.id)]
      ensures alarms == Again(old(alarms), e.id, t, old(StepOf(e.ticker, e.period)))
    {
      Offer(e, t);
      if e.ticker && e.period > 0 {
        Repeat(e);
      }
    }

    /** Pops the first entry in firing order and fires it. */
    method FireFirst()
      requires Valid() && heap.items != []
      modifies this`now, this`alarms, this`channels, this`fired, heap, repr`index, repr`triggerAt, repr`ch
      ensures Valid() && old(heap.items[0].id in alarms)
      ensures now == old(heap.items[0].triggerAt)
      ensures alarms == Fired(old(alarms), old(heap.items[0].id))
      ensures channels == Deliver(old(channels), old(heap.items[0].id), now)
      ensures fired == old(fired) + [Firing(now, old(heap.items[0].id))]
    {
      now := heap.items[0].triggerAt;
      var entry := DisarmFirst();
      ghost var step := StepOf(entry.ticker, entry.period);
      ghost var rest := alarms;
      if !entry.stopped {
        Fire(entry, now);
      }
      assert alarms == Again(rest, entry.id, now, step);
      FiredIsRearmed(old(alarms), entry.id, step, now);
    }

    /** Fires everything due up to the target time. */
    method FireDue(targetTime: int)
      requires Valid()
      modifies this`now, this`alarms, this`channels, this`fired, heap, repr`index, repr`triggerAt, repr`ch
      ensures Valid() && old(fired) <= fired && IsLog(Since(old(fired), fired), old(alarms), targetTime)
      ensures alarms == Settled(old(alarms), targetTime)
      ensures channels == Filled(old(channels), old(alarms), targetTime)
    {
      AdvanceStarts(alarms, channels, targetTime);
      while |heap.items| > 0
        invariant Valid() && old(fired) <= fired
        invariant Underway(Since(old(fired), fired), old(alarms), old(channels), alarms, channels, targetTime)
        decreases |Pending(alarms, targetTime)|
      {
        RootIsFirst();
        var earliest := heap.items[0];
        if earliest.triggerAt > targetTime { break; }
        ghost var log := Since(old(fired), fired);
        SinceExtends(old(fired), fired, [Firing(earliest.triggerAt, earliest.id)]);
        AdvanceSteps(log, old(alarms), old(channels), alarms, channels, earliest.id, targetTime);
        FireFirst();
      }
      NoneDue(targetTime);
      AdvanceEnds(Since(old(fired), fired), old(alarms), old(channels), alarms, channels, targetTime);
    }

    /** Moves virtual time forward and fires everything due on the way. What fires is
        exactly what was pending up to the new time, in order. */
    method Advance(d: int)
      requires Valid()
      modifies this`now, this`alarms, this`channels, this`fired, heap, repr`index, repr`triggerAt, repr`ch
      ensures Valid() && now == old(now) + d
      ensures old(fired) <= fired && IsLog(Since(old(fired), fired), old(alarms), now)
      ensures alarms == Settled(old(alarms), now)
      ensures channels == Filled(old(channels), old(alarms), now)
      ensures old(Forward(fired, alarms, now)) && d >= 0 ==> Forward(fired, alarms, now)
    {
      var targetTime := now + d;
      FireDue(targetTime);
      now := targetTime;
      SinceRest(old(fired), fired);
      if d >= 0 && old(Forward(fired, alarms, now)) {
        ForwardAdvances(old(fired), Since(old(fired), fired), old(alarms), old(now), now);
      }
    }

    lemma NoneDue(target: int)
      requires Valid() && (heap.items != [] ==> heap.items[0].triggerAt > target)
      ensures forall id :: id in alarms ==> alarms[id].due > target
    {
      if heap.items != [] {
        RootIsFirst();
      } else {
        forall id | id in alarms ensures false { GuardIsMembership(registry[id]); }
      }
    }
  }
}
