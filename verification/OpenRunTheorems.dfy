/** The main results about open runs: every schedule of dispatcher and worker steps, of any
    length, keeps the books in balance, never blocks the pacer, and drains. */
module OpenRunTheorems {
  import opened Results
  import opened Arithmetic
  import opened Books
  import opened Pacing
  import opened OpenRun
  import opened OpenRunLaws

  // -- Every reachable state -----------------------------------------------------

  lemma {:induction false} SumNatZero(xs: seq<nat>)
    requires forall i :: 0 <= i < |xs| ==> xs[i] == 0
    ensures SumNat(xs) == 0
  {
    if xs != [] {
      SumNatZero(xs[..|xs| - 1]);
    }
  }

  lemma {:induction false} SegmentTotalZero(st: State, m: Metric, n: nat)
    requires n <= |st.dispatched| == |st.collected| == |st.failures| == |st.ticks|
    requires forall s: nat :: s < n ==> Book(st, Only(s), m) == 0
    ensures SegmentTotal(st, m, n) == 0
  {
    if n > 0 {
      SegmentTotalZero(st, m, n - 1);
    }
  }

  lemma InitialBooks(c: Config, start: int, scope: Scope, m: Metric)
    requires c.Valid() && Covers(Initial(c, start), scope)
    ensures Book(Initial(c, start), scope, m) == 0
  {
    ReadingOfZero(m);
    SumZero(Initial(c, start).workers, Booked(scope, m));
  }

  lemma InvInitial(c: Config, start: int)
    requires c.Valid()
    ensures WellSized(c, Initial(c, start)) && Inv(c, Initial(c, start))
  {
    var st := Initial(c, start);
    SumZero(st.workers, Busy);
    SumNatZero(st.failures);
    forall scope | Covers(st, scope) ensures Conserved(st, scope) {
      forall m ensures Book(st, scope, m) == 0 { InitialBooks(c, start, scope, m); }
      SumZero(st.workers, Unstarted(scope));
      SumZero(st.workers, Held(scope));
    }
    forall m ensures Book(st, Whole, m) == SegmentTotal(st, m, |c.windows|) {
      InitialBooks(c, start, Whole, m);
      forall s: nat | s < |c.windows| ensures Book(st, Only(s), m) == 0 { InitialBooks(c, start, Only(s), m); }
      SegmentTotalZero(st, m, |c.windows|);
    }
    forall s: nat | s < |c.windows| ensures Book(st, Only(s), Planned) == 0 { InitialBooks(c, start, Only(s), Planned); }
  }

  lemma InvStep(c: Config, st: State, next: State, e: Event)
    requires c.Valid() && WellSized(c, st) && Inv(c, st) && Apply(c, st, e) == Some(next)
    ensures WellSized(c, next) && Inv(c, next)
  {
    ApplyKeepsSizes(c, st, e);
    forall scope | Covers(next, scope) ensures Conserved(next, scope) {
      assert Covers(st, scope);
      PlannedStep(c, st, next, e, scope);
      ScheduledStep(c, st, next, e, scope);
      StartedStep(c, st, next, e, scope);
      OutcomesStep(c, st, next, e, scope);
      CanceledStep(c, st, next, e, scope);
    }
    ReconciledStep(c, st, next, e);
    CountedStep(c, st, next, e);
    DrainedStep(c, st, next, e);
    TickingStep(c, st, next, e);
  }

  lemma {:induction false} InvRun(c: Config, st: State, schedule: seq<Event>)
    requires c.Valid() && WellSized(c, st) && Inv(c, st) && Run(c, st, schedule).Some?
    ensures Inv(c, Run(c, st, schedule).value)
    decreases |schedule|
  {
    if schedule != [] {
      var front := schedule[..|schedule| - 1];
      InvRun(c, st, front);
      InvStep(c, Run(c, st, front).value, Run(c, st, schedule).value, schedule[|schedule| - 1]);
    }
  }

  /** The invariant holds in every state any schedule can reach. */
  lemma ReachableInv(c: Config, st: State)
    requires c.Valid() && Reachable(c, st)
    ensures WellSized(c, st) && Inv(c, st)
  {
    var start, schedule :| WellSized(c, Initial(c, start)) && Run(c, Initial(c, start), schedule) == Some(st);
    InvInitial(c, start);
    InvRun(c, Initial(c, start), schedule);
  }

  // -- In flight -----------------------------------------------------------------

  /** Workers that neither hold nor execute a job. */
  function Spare(ws: seq<Worker>): nat {
    if ws == [] then 0 else Spare(ws[..|ws| - 1]) + 1 - Weigh(ws[|ws| - 1], Busy)
  }

  lemma {:induction false} SpareComplement(ws: seq<Worker>)
    ensures Spare(ws) + Sum(ws, Busy) == |ws|
  {
    if ws != [] {
      SpareComplement(ws[..|ws| - 1]);
    }
  }

  /** The in-flight counter counts exactly the jobs between admission and reply, never
      exceeds the limit, and leaves a spare worker for every queued job. */
  lemma InFlightBounded(c: Config, st: State)
    requires c.Valid() && Reachable(c, st)
    ensures WellSized(c, st)
    ensures st.inFlight == |st.queue| + Sum(st.workers, Busy)
                         + Count(st.dispatcher.Raised? || st.dispatcher.Sending?)
    ensures 0 <= st.inFlight <= c.maxInFlight && st.peak <= c.maxInFlight
    ensures |st.queue| <= Spare(st.workers)
  {
    ReachableInv(c, st);
    SpareComplement(st.workers);
  }

  /** The pacer's send always finds room in the channel. */
  lemma SendNeverBlocks(c: Config, st: State)
    requires c.Valid() && Reachable(c, st) && st.dispatcher.Sending?
    ensures WellSized(c, st) && Dispatch(c, st, Send).Some?
  {
    ReachableInv(c, st);
  }

  // -- Conservation --------------------------------------------------------------

  /** At every moment, for the whole run and for each segment: planned work is scheduled or
      dropped, scheduled work is started or still on its way, started work is settled or
      held by a worker; and canceled are the canceled outcomes and the replies without a
      result. */
  lemma AlwaysConserved(c: Config, st: State, scope: Scope)
    requires c.Valid() && Reachable(c, st)
    ensures WellSized(c, st)
    ensures Covers(st, scope) ==> Conserved(st, scope)
  {
    ReachableInv(c, st);
  }

  ghost predicate AllExited(st: State) {
    forall w :: 0 <= w < |st.workers| ==> st.workers[w].phase.Exited?
  }

  /** When every worker has exited, nothing is in flight and each scope's planned requests
      are its completed, canceled and dropped ones; the twelve outcome counts miss only
      replies without a result, and those are the canceled requests beyond the canceled
      outcomes. */
  lemma FinalCounts(c: Config, st: State, scope: Scope)
    requires c.Valid() && Reachable(c, st) && AllExited(st)
    ensures WellSized(c, st) && st.dispatcher == Closed && st.queue == [] && st.inFlight == 0
    ensures Covers(st, scope) ==>
      && Book(st, scope, Planned)
         == Book(st, scope, Completed) + Book(st, scope, CanceledCount) + Book(st, scope, DroppedCount)
      && Book(st, scope, AllOutcomes) + FailuresIn(st, scope) == Book(st, scope, Planned)
      && Book(st, scope, CanceledCount) == Book(st, scope, OutcomeCount(Canceled)) + FailuresIn(st, scope)
  {
    ReachableInv(c, st);
    assert st.workers[0].phase.Exited?;
    SumZero(st.workers, Busy);
    SumZero(st.workers, Unstarted(scope));
    SumZero(st.workers, Held(scope));
  }

  // -- Reconciliation ------------------------------------------------------------

  function Overalls(ws: seq<Worker>): seq<Counts> {
    seq(|ws|, i requires 0 <= i < |ws| => ws[i].overall)
  }

  /** The root result of a run: the dispatcher's book merged with every worker's. */
  function RootBook(st: State): Counts {
    Plus(st.root, Total(Overalls(st.workers)))
  }

  /** The result of one segment: its dispatcher book merged with its collector accumulator. */
  function SegmentBooks(st: State): (r: seq<Counts>)
    requires |st.dispatched| == |st.collected|
    ensures |r| == |st.dispatched|
  {
    seq(|st.dispatched|, s requires 0 <= s < |st.dispatched| => Plus(st.dispatched[s], st.collected[s]))
  }

  lemma {:induction false} TotalOfOveralls(ws: seq<Worker>, m: Metric)
    ensures Reading(Total(Overalls(ws)), m) == Sum(ws, Booked(Whole, m))
  {
    ReadingOfZero(m);
    if ws != [] {
      var front := ws[..|ws| - 1];
      TotalOfOveralls(front, m);
      OverallsLast(ws);
      ReadingOfPlus(Total(Overalls(front)), ws[|ws| - 1].overall, m);
    }
  }

  lemma {:induction false} OverallsLast(ws: seq<Worker>)
    requires ws != []
    ensures Total(Overalls(ws)) == Plus(Total(Overalls(ws[..|ws| - 1])), ws[|ws| - 1].overall)
  {
    assert Overalls(ws)[..|ws| - 1] == Overalls(ws[..|ws| - 1]);
  }

  lemma SegmentReading(st: State, m: Metric, s: nat)
    requires Covers(st, Only(s))
    requires forall w :: w in st.workers ==> w.segment.None?
    ensures Reading(Plus(st.dispatched[s], st.collected[s]), m) == Book(st, Only(s), m)
  {
    ReadingOfPlus(st.dispatched[s], st.collected[s], m);
    SumZero(st.workers, Booked(Only(s), m));
  }

  lemma {:induction false} TotalOfSegments(st: State, books: seq<Counts>, m: Metric, n: nat)
    requires Covers(st, Whole) && books == SegmentBooks(st) && n <= |books|
    requires forall w :: w in st.workers ==> w.segment.None?
    ensures Reading(Total(books[..n]), m) == SegmentTotal(st, m, n)
  {
    if n == 0 {
      ReadingOfZero(m);
    } else {
      TotalOfSegments(st, books, m, n - 1);
      SegmentReading(st, m, n - 1);
      TotalOfPrefix(books, n);
      ReadingOfPlus(Total(books[..n - 1]), books[n - 1], m);
    }
  }

  lemma TotalOfPrefix(cs: seq<Counts>, n: nat)
    requires 0 < n <= |cs|
    ensures Total(cs[..n]) == Plus(Total(cs[..n - 1]), cs[n - 1])
  {
    assert cs[..n][..n - 1] == cs[..n - 1];
  }

  /** Every accumulator is flushed exactly once: the final segment results add up to the
      root result in every counter, outcome, status code, byte total and latency. */
  lemma SegmentsReconcile(c: Config, st: State)
    requires c.Valid() && Reachable(c, st) && AllExited(st)
    ensures WellSized(c, st) && Total(SegmentBooks(st)) == RootBook(st)
  {
    ReachableInv(c, st);
    forall m ensures Reading(Total(SegmentBooks(st)), m) == Reading(RootBook(st), m) {
      assert SegmentBooks(st)[..|c.windows|] == SegmentBooks(st);
      TotalOfSegments(st, SegmentBooks(st), m, |c.windows|);
      TotalOfOveralls(st.workers, m);
      ReadingOfPlus(st.root, Total(Overalls(st.workers)), m);
    }
    ReadingsDetermine(Total(SegmentBooks(st)), RootBook(st));
  }

  // -- Volume --------------------------------------------------------------------

  lemma {:induction false} SegmentTotalBounded(c: Config, st: State, n: nat)
    requires c.Valid() && WellSized(c, st) && Ticking(c, st) && n <= |c.windows|
    ensures SegmentTotal(st, Planned, n) <= CapacityTotal(c.windows[..n])
  {
    if n > 0 {
      SegmentTotalBounded(c, st, n - 1);
      assert c.windows[..n][..n - 1] == c.windows[..n - 1];
      PlannedBounded(c.windows[n - 1], st.ticks[n - 1]);
    }
  }

  /** A run never plans more than its segments' durations allow at their intervals, and no
      request count exceeds the planned one. */
  lemma PlannedWithinCapacity(c: Config, st: State)
    requires c.Valid() && Reachable(c, st)
    ensures WellSized(c, st) && Book(st, Whole, Planned) <= CapacityTotal(c.windows)
    ensures forall m :: m in {Scheduled, Started, Completed, CanceledCount, DroppedCount} ==>
      Book(st, Whole, m) <= Book(st, Whole, Planned)
  {
    ReachableInv(c, st);
    PlannedFits(c, st);
    assert Conserved(st, Whole);
  }

  lemma PlannedFits(c: Config, st: State)
    requires c.Valid() && WellSized(c, st) && Inv(c, st)
    ensures Book(st, Whole, Planned) <= CapacityTotal(c.windows)
  {
    SegmentTotalBounded(c, st, |c.windows|);
    assert c.windows[..|c.windows|] == c.windows;
    assert Book(st, Whole, Planned) == SegmentTotal(st, Planned, |st.dispatched|);
  }

  /** No request counter of the whole run exceeds `limit`. */
  ghost predicate CountsWithin(c: Config, st: State, limit: int) {
    WellSized(c, st) && forall m :: m in {Planned, Scheduled, Started, Completed, CanceledCount, DroppedCount} ==>
      Book(st, Whole, m) <= limit
  }

  lemma CountsBounded(c: Config, st: State, limit: int)
    requires c.Valid() && Reachable(c, st) && CapacityTotal(c.windows) <= limit
    ensures CountsWithin(c, st, limit)
  {
    PlannedWithinCapacity(c, st);
  }

  // -- Progress ------------------------------------------------------------------

  /** What a worker does next. */
  function NextAction(worker: Worker, queue: seq<Job>): Action {
    match worker.phase
    case Idle => if queue == [] then LeaveLoop else Receive
    case Holding(job) => if worker.segment == Some(job.segment) then Start else SwitchSegment
    case Executing(_) => Finish(Failed)
    case Replied(_, _) => Record
    case _ => Exit
  }

  lemma WorkerNeverStuck(worker: Worker, queue: seq<Job>)
    requires !worker.phase.Exited?
    ensures Act(worker, queue, true, NextAction(worker, queue)).Some?
  {
  }

  /** What the dispatcher does next. */
  function NextStep(c: Config, st: State): Step
    requires WellSized(c, st)
  {
    match st.dispatcher
    case Waiting(s) =>
      var at := Later(st.now, Due(c.windows[s], st.ticks[s]));
      if at < c.windows[s].end then TickAt(at) else NextSegment(at)
    case Ticked(_) => if st.inFlight >= c.maxInFlight then Drop else Admit
    case Admitted(_) => Raise
    case Raised(_) => UpdatePeak
    case Sending(_) => Send
    case _ => Close
  }

  /** No reachable state is stuck: until the last worker has exited some step other than
      an outside cancellation is possible. */
  lemma NoDeadlock(c: Config, st: State)
    requires c.Valid() && Reachable(c, st) && !AllExited(st)
    ensures WellSized(c, st) && exists e: Event :: e != Cancel && Apply(c, st, e).Some?
  {
    ReachableInv(c, st);
    StepPossible(c, st);
  }

  lemma StepPossible(c: Config, st: State)
    requires c.Valid() && WellSized(c, st) && Inv(c, st) && !AllExited(st)
    ensures exists e: Event :: e != Cancel && Apply(c, st, e).Some?
  {
    if st.dispatcher == Closed {
      var w: nat :| w < |st.workers| && !st.workers[w].phase.Exited?;
      WorkerNeverStuck(st.workers[w], st.queue);
      assert Apply(c, st, ByWorker(w, NextAction(st.workers[w], st.queue))).Some?;
    } else {
      assert Dispatch(c, st, NextStep(c, st)).Some?;
      assert Apply(c, st, ByDispatcher(NextStep(c, st))).Some?;
    }
  }

  /** An upper bound on the steps a closed run can still take. */
  function Remaining(st: State): nat {
    5 * |st.queue| + Sum(st.workers, StepsLeft)
  }

  lemma WorkerSpends(c: Config, st: State, next: State, w: nat, action: Action)
    requires c.Valid() && WellSized(c, st) && Apply(c, st, ByWorker(w, action)) == Some(next)
    ensures Remaining(next) < Remaining(st) && next.dispatcher == st.dispatcher
  {
    ActWeights(st.workers[w], st.queue, st.dispatcher.Closed?, action, Whole);
    SumUpdate(st.workers, w, next.workers[w], StepsLeft);
  }

  /** Once the channel is closed every step other than a cancellation uses up one of the
      remaining steps, so every run drains. */
  lemma DrainDecreases(c: Config, st: State, next: State, e: Event)
    requires c.Valid() && WellSized(c, st) && st.dispatcher == Closed
    requires e != Cancel && Apply(c, st, e) == Some(next)
    ensures Remaining(next) < Remaining(st) && next.dispatcher == Closed
  {
    if e.ByWorker? {
      WorkerSpends(c, st, next, e.w, e.action);
    }
  }

  lemma {:induction false} StepsLeftBounded(ws: seq<Worker>)
    ensures Sum(ws, StepsLeft) <= 6 * |ws|
  {
    if ws != [] {
      StepsLeftBounded(ws[..|ws| - 1]);
    }
  }

  /** From any reachable closed state, no schedule takes more than `11 * maxInFlight`
      further steps. */
  lemma {:induction false} DrainBounded(c: Config, st: State, schedule: seq<Event>)
    requires c.Valid() && Reachable(c, st) && st.dispatcher == Closed
    requires Cancel !in schedule
    requires WellSized(c, st) && Run(c, st, schedule).Some?
    ensures |schedule| + Remaining(Run(c, st, schedule).value) <= Remaining(st) <= 11 * c.maxInFlight
    ensures Run(c, st, schedule).value.dispatcher == Closed
    decreases |schedule|
  {
    ReachableInv(c, st);
    StepsLeftBounded(st.workers);
    if schedule != [] {
      var front := schedule[..|schedule| - 1];
      DrainBounded(c, st, front);
      DrainDecreases(c, Run(c, st, front).value, Run(c, st, schedule).value, schedule[|schedule| - 1]);
    }
  }

  // -- Whole runs ----------------------------------------------------------------

  /** Dispatcher steps still ahead besides further ticks, a sent job counted with the worker
      steps it causes. */
  function PhaseWeight(n: nat, d: Dispatcher): int {
    match d
    case Waiting(s) => n - s + 1
    case Ticked(job) => n - job.segment + 10
    case Admitted(job) => n - job.segment + 9
    case Raised(job) => n - job.segment + 8
    case Sending(job) => n - job.segment + 7
    case Leaving => 1
    case Closed => 0
  }

  /** An upper bound on the steps a run can still take: ten for each request the profile has
      room for beyond the planned ones, and what is under way. */
  function Budget(c: Config, st: State): int
    requires c.Valid() && Covers(st, Whole)
  {
    10 * (CapacityTotal(c.windows) - Book(st, Whole, Planned)) + PhaseWeight(|c.windows|, st.dispatcher) + Remaining(st)
  }

  lemma DispatchSpends(c: Config, st: State, next: State, step: Step)
    requires c.Valid() && WellSized(c, st) && Dispatch(c, st, step) == Some(next)
    ensures next.workers == st.workers
    ensures PhaseWeight(|c.windows|, next.dispatcher) + 5 * |next.queue| + 1
         <= PhaseWeight(|c.windows|, st.dispatcher) + 5 * |st.queue| + 10 * Count(step.TickAt?)
  {
  }

  /** Every step other than a cancellation spends some of the budget. */
  lemma BudgetDecreases(c: Config, st: State, next: State, e: Event)
    requires c.Valid() && WellSized(c, st) && Apply(c, st, e) == Some(next)
    ensures Covers(next, Whole) && Budget(c, next) + Count(e != Cancel) <= Budget(c, st)
  {
    BookStep(c, st, next, e, Whole, Planned);
    match e
    case Cancel => ReadingOfZero(Planned);
    case ByDispatcher(step) =>
      AddedReadings(st, e, Planned);
      DispatchSpends(c, st, next, step);
    case ByWorker(w, action) =>
      AddedReadings(st, e, Planned);
      WorkerSpends(c, st, next, w, action);
  }

  /** The events of a schedule other than cancellations. */
  function Steps(schedule: seq<Event>): nat {
    if schedule == [] then 0 else Steps(schedule[..|schedule| - 1]) + Count(schedule[|schedule| - 1] != Cancel)
  }

  lemma {:induction false} StepsWithinBudget(c: Config, st: State, schedule: seq<Event>)
    requires c.Valid() && WellSized(c, st) && Run(c, st, schedule).Some?
    ensures Steps(schedule) + Budget(c, Run(c, st, schedule).value) <= Budget(c, st)
    decreases |schedule|
  {
    if schedule != [] {
      var front := schedule[..|schedule| - 1];
      StepsWithinBudget(c, st, front);
      BudgetDecreases(c, Run(c, st, front).value, Run(c, st, schedule).value, schedule[|schedule| - 1]);
    }
  }

  lemma BudgetNeverNegative(c: Config, st: State)
    requires c.Valid() && WellSized(c, st) && Inv(c, st)
    ensures Budget(c, st) >= 0
  {
    PlannedFits(c, st);
  }

  lemma {:induction false} IdleSteps(ws: seq<Worker>)
    requires forall w :: w in ws ==> w.phase.Idle?
    ensures Sum(ws, StepsLeft) == 2 * |ws|
  {
    if ws != [] {
      IdleSteps(ws[..|ws| - 1]);
    }
  }

  /** Every run ends: from any reachable state no schedule takes more steps than the budget,
      from the start no more than ten for each request the profile has room for, two for each
      worker and one for each segment, and one; and where no step is possible any more,
      every worker has left. */
  lemma RunsEnd(c: Config, st: State, schedule: seq<Event>)
    requires c.Valid() && Reachable(c, st) && WellSized(c, st) && Run(c, st, schedule).Some?
    ensures Steps(schedule) <= Budget(c, st)
    ensures forall start :: st == Initial(c, start) ==>
      Budget(c, st) == 10 * CapacityTotal(c.windows) + 2 * c.maxInFlight + |c.windows| + 1
    ensures var last := Run(c, st, schedule).value;
            (forall e: Event :: e != Cancel ==> Apply(c, last, e).None?) ==> AllExited(last)
  {
    var last := Run(c, st, schedule).value;
    ReachableInv(c, st);
    StepsWithinBudget(c, st, schedule);
    InvRun(c, st, schedule);
    BudgetNeverNegative(c, last);
    if !AllExited(last) { StepPossible(c, last); }
    forall start | st == Initial(c, start)
      ensures Budget(c, st) == 10 * CapacityTotal(c.windows) + 2 * c.maxInFlight + |c.windows| + 1
    {
      InitialBooks(c, start, Whole, Planned);
      IdleSteps(st.workers);
    }
  }
}
