/** What holds in every reachable state of every open run. */
module OpenRunLaws {
  import opened Results
  import opened Arithmetic
  import opened Books
  import opened Pacing
  import opened OpenRun

  // -- Accounts ------------------------------------------------------------------

  /** The whole run, or one profile segment of it. */
  datatype Scope = Whole | Only(segment: nat) {
    predicate Has(s: nat) {
      Whole? || segment == s
    }
  }

  /** What is added up over the workers. */
  datatype Weight =
    | Busy
    | Unstarted(scope: Scope)
    | Held(scope: Scope)
    | Booked(scope: Scope, metric: Metric)
    | StepsLeft

  function Weigh(w: Worker, k: Weight): nat {
    match k
    case Busy => if w.phase.Holding? || w.phase.Executing? then 1 else 0
    case Unstarted(scope) => if w.phase.Holding? && scope.Has(w.phase.job.segment) then 1 else 0
    case Held(scope) =>
      if (w.phase.Executing? || w.phase.Replied?) && scope.Has(w.phase.job.segment) then 1 else 0
    case Booked(scope, m) =>
      if scope == Whole then Reading(w.overall, m)
      else if w.segment == Some(scope.segment) then Reading(w.current, m)
      else 0
    case StepsLeft =>
      match w.phase
      case Holding(job) => if w.segment == Some(job.segment) then 5 else 6
      case Executing(_) => 4
      case Replied(_, _) => 3
      case Idle => 2
      case Exiting => 1
      case Exited => 0
  }

  function Sum(ws: seq<Worker>, k: Weight): nat {
    if ws == [] then 0 else Sum(ws[..|ws| - 1], k) + Weigh(ws[|ws| - 1], k)
  }

  function Queued(queue: seq<Job>, scope: Scope): nat {
    if queue == [] then 0
    else CountIn(scope, Some(queue[0])) + Queued(queue[1..], scope)
  }

  function SumNat(xs: seq<nat>): nat {
    if xs == [] then 0 else SumNat(xs[..|xs| - 1]) + xs[|xs| - 1]
  }

  /** The job the dispatcher has scheduled and not yet sent. */
  function Outgoing(d: Dispatcher): Option<Job> {
    if d.Ticked? then None else JobOf(d)
  }

  /** The job planned and neither dropped nor scheduled yet. */
  function Unchecked(d: Dispatcher): Option<Job> {
    if d.Ticked? then Some(d.job) else None
  }

  function CountIn(scope: Scope, job: Option<Job>): nat {
    if job.Some? && scope.Has(job.value.segment) then 1 else 0
  }

  predicate Covers(st: State, scope: Scope) {
    && |st.dispatched| == |st.collected| == |st.failures| == |st.ticks|
    && (scope.Only? ==> scope.segment < |st.dispatched|)
  }

  /** A reading of the books of a scope: for the whole run the dispatcher's and the workers'
      root books, for a segment its dispatcher book, its collector accumulator and the
      accumulators still private to workers. */
  function Book(st: State, scope: Scope, m: Metric): nat
    requires Covers(st, scope)
  {
    (match scope
     case Whole => Reading(st.root, m)
     case Only(s) => Reading(st.dispatched[s], m) + Reading(st.collected[s], m))
    + Sum(st.workers, Booked(scope, m))
  }

  function FailuresIn(st: State, scope: Scope): nat
    requires Covers(st, scope)
  {
    match scope
    case Whole => SumNat(st.failures)
    case Only(s) => st.failures[s]
  }

  ghost predicate PlannedSplit(st: State, scope: Scope)
    requires Covers(st, scope)
  {
    Book(st, scope, Planned)
    == Book(st, scope, Scheduled) + Book(st, scope, DroppedCount)
     + CountIn(scope, Unchecked(st.dispatcher))
  }

  ghost predicate ScheduledSplit(st: State, scope: Scope)
    requires Covers(st, scope)
  {
    Book(st, scope, Scheduled)
    == Book(st, scope, Started)
     + CountIn(scope, Outgoing(st.dispatcher))
     + Queued(st.queue, scope) + Sum(st.workers, Unstarted(scope))
  }

  ghost predicate StartedSplit(st: State, scope: Scope)
    requires Covers(st, scope)
  {
    Book(st, scope, Started)
    == Book(st, scope, Completed) + Book(st, scope, CanceledCount) + Sum(st.workers, Held(scope))
  }

  ghost predicate OutcomesSplit(st: State, scope: Scope)
    requires Covers(st, scope)
  {
    Book(st, scope, AllOutcomes) + FailuresIn(st, scope)
    == Book(st, scope, Completed) + Book(st, scope, CanceledCount) + Book(st, scope, DroppedCount)
  }

  /** What is counted as canceled: canceled outcomes and replies without a result. */
  ghost predicate CanceledSplit(st: State, scope: Scope)
    requires Covers(st, scope)
  {
    Book(st, scope, CanceledCount) == Book(st, scope, OutcomeCount(Canceled)) + FailuresIn(st, scope)
  }

  /** The request-count equations of a scope at any moment. */
  ghost predicate Conserved(st: State, scope: Scope)
    requires Covers(st, scope)
  {
    && PlannedSplit(st, scope)
    && ScheduledSplit(st, scope)
    && StartedSplit(st, scope)
    && OutcomesSplit(st, scope)
    && CanceledSplit(st, scope)
  }

  /** The in-flight counter is the number of jobs queued, executing or being handed over. */
  ghost predicate Counted(c: Config, st: State) {
    && st.inFlight == |st.queue| + Sum(st.workers, Busy)
                    + Count(st.dispatcher.Raised? || st.dispatcher.Sending?)
    && st.inFlight <= c.maxInFlight
    && (st.dispatcher.Admitted? ==> st.inFlight < c.maxInFlight)
    && 0 <= st.peak <= c.maxInFlight
  }

  ghost predicate Drained(st: State) {
    forall w :: 0 <= w < |st.workers| && (st.workers[w].phase.Exiting? || st.workers[w].phase.Exited?) ==>
      && st.dispatcher == Closed
      && st.queue == []
      && (st.workers[w].phase.Exited? ==> st.workers[w].segment.None?)
  }

  /** Every segment's ticks are paced, and each was planned once. */
  ghost predicate Ticking(c: Config, st: State)
    requires WellSized(c, st)
  {
    forall s: nat :: s < |c.windows| ==>
      Paced(c.windows[s], st.ticks[s]) && Book(st, Only(s), Planned) == |st.ticks[s]|
  }

  function SegmentTotal(st: State, m: Metric, n: nat): nat
    requires n <= |st.dispatched| == |st.collected| == |st.failures| == |st.ticks|
  {
    if n == 0 then 0 else SegmentTotal(st, m, n - 1) + Book(st, Only(n - 1), m)
  }

  /** The root books and the books of all segments agree on every reading. */
  ghost predicate Reconciled(st: State)
    requires Covers(st, Whole)
  {
    forall m :: Book(st, Whole, m) == SegmentTotal(st, m, |st.dispatched|)
  }

  ghost predicate Inv(c: Config, st: State)
    requires WellSized(c, st)
  {
    && (forall scope :: Covers(st, scope) ==> Conserved(st, scope))
    && Reconciled(st)
    && Counted(c, st)
    && Drained(st)
    && Ticking(c, st)
  }

  // -- Sums ----------------------------------------------------------------------

  lemma {:induction false} SumUpdate(ws: seq<Worker>, i: nat, w: Worker, k: Weight)
    requires i < |ws|
    ensures Sum(ws[i := w], k) + Weigh(ws[i], k) == Sum(ws, k) + Weigh(w, k)
  {
    var front, next := ws[..|ws| - 1], ws[i := w];
    if i == |ws| - 1 {
      assert next[..|ws| - 1] == front;
    } else {
      assert next[..|ws| - 1] == front[i := w];
      SumUpdate(front, i, w, k);
    }
  }

  lemma {:induction false} SumZero(ws: seq<Worker>, k: Weight)
    requires forall w :: w in ws ==> Weigh(w, k) == 0
    ensures Sum(ws, k) == 0
  {
    if ws != [] {
      SumZero(ws[..|ws| - 1], k);
    }
  }

  lemma {:induction false} SumBusyAtMost(ws: seq<Worker>)
    ensures Sum(ws, Busy) <= |ws|
    ensures Sum(ws, Busy) == |ws| ==> forall w :: w in ws ==> Weigh(w, Busy) == 1
  {
    if ws != [] {
      SumBusyAtMost(ws[..|ws| - 1]);
      assert forall w :: w in ws ==> w in ws[..|ws| - 1] || w == ws[|ws| - 1];
    }
  }

  lemma {:induction false} QueuedAppend(queue: seq<Job>, job: Job, scope: Scope)
    ensures Queued(queue + [job], scope) == Queued(queue, scope) + CountIn(scope, Some(job))
  {
    if queue != [] {
      QueuedAppend(queue[1..], job, scope);
      assert (queue + [job])[1..] == queue[1..] + [job];
    }
  }

  lemma {:induction false} SumNatUpdate(xs: seq<nat>, i: nat, x: nat)
    requires i < |xs|
    ensures SumNat(xs[i := x]) + xs[i] == SumNat(xs) + x
  {
    var front, next := xs[..|xs| - 1], xs[i := x];
    if i == |xs| - 1 {
      assert next[..|xs| - 1] == front;
    } else {
      assert next[..|xs| - 1] == front[i := x];
      SumNatUpdate(front, i, x);
    }
  }

  // -- Books ---------------------------------------------------------------------

  /** What a dispatcher step adds to the books, and for which job. */
  function StepAdds(step: Step): Counts {
    match step
    case TickAt(_) => PLANNED
    case Drop => DROPPED
    case Admit => SCHEDULED
    case _ => ZERO
  }

  /** What a worker action adds to the books. */
  function ActionAdds(worker: Worker, action: Action): Counts {
    match action
    case Start => STARTED
    case Record => if worker.phase.Replied? then Settled(worker.phase.reply) else ZERO
    case _ => ZERO
  }

  function Added(st: State, e: Event): Counts {
    match e
    case Cancel => ZERO
    case ByDispatcher(step) => StepAdds(step)
    case ByWorker(w, action) => if w < |st.workers| then ActionAdds(st.workers[w], action) else ZERO
  }

  /** The segment whose books an event touches. */
  function SegmentOf(st: State, e: Event): nat {
    match e
    case Cancel => 0
    case ByDispatcher(_) =>
      if st.dispatcher.Waiting? then st.dispatcher.segment
      else if st.dispatcher.Ticked? then st.dispatcher.job.segment
      else 0
    case ByWorker(w, _) =>
      if w < |st.workers| && st.workers[w].segment.Some? then st.workers[w].segment.value else 0
  }

  function InScope(scope: Scope, s: nat, c: Counts, m: Metric): nat {
    if scope.Has(s) then Reading(c, m) else 0
  }

  lemma ReadingOfZero(m: Metric)
    ensures Reading(ZERO, m) == 0
  {
  }

  /** What an event does to a reading of a scope's books. */
  ghost predicate Moved(st: State, next: State, e: Event, scope: Scope, m: Metric)
    requires Covers(st, scope)
  {
    Covers(next, scope) && Book(next, scope, m) == Book(st, scope, m) + InScope(scope, SegmentOf(st, e), Added(st, e), m)
  }

  lemma DispatcherBookStep(c: Config, st: State, next: State, step: Step, scope: Scope, m: Metric)
    requires c.Valid() && WellSized(c, st) && Covers(st, scope) && Dispatch(c, st, step) == Some(next)
    ensures Moved(st, next, ByDispatcher(step), scope, m)
  {
    ReadingOfZero(m);
    if step.TickAt? || step.Drop? || step.Admit? {
      var s := SegmentOf(st, ByDispatcher(step));
      ReadingOfPlus(st.root, StepAdds(step), m);
      ReadingOfPlus(st.dispatched[s], StepAdds(step), m);
    }
  }

  /** The readings a worker action takes out of the private accumulator, and puts into both
      books of the worker. */
  ghost predicate BooksKept(w: Worker, move: Move, delta: Counts, scope: Scope, m: Metric) {
    Weigh(move.worker, Booked(scope, m))
     + (if move.flushed && scope.Only? && w.segment == Some(scope.segment) then Reading(w.current, m) else 0)
    == Weigh(w, Booked(scope, m))
     + (if w.segment.Some? then InScope(scope, w.segment.value, delta, m) else 0)
  }

  lemma EntryKeepsBooks(w: Worker, delta: Counts, phase: Phase, failed: bool, scope: Scope, m: Metric)
    requires w.segment.Some?
    ensures BooksKept(w, Quiet(Entered(w, delta, phase)).(failed := failed), delta, scope, m)
  {
    ReadingOfPlus(w.current, delta, m);
    ReadingOfPlus(w.overall, delta, m);
  }

  /** A flush moves readings between books without losing or repeating any; every other
      action adds the same to the private and to the root book. */
  lemma ActKeepsBooks(n: nat, w: Worker, queue: seq<Job>, closed: bool, action: Action, scope: Scope, m: Metric)
    requires WorkerSized(n, w) && Act(w, queue, closed, action).Some?
    ensures BooksKept(w, Act(w, queue, closed, action).value, ActionAdds(w, action), scope, m)
  {
    ReadingOfZero(m);
    match action
    case Start => StartedInSegment(n, w); EntryKeepsBooks(w, STARTED, Executing(w.phase.job), false, scope, m);
    case Record => EntryKeepsBooks(w, Settled(w.phase.reply), Idle, w.phase.reply.Failed?, scope, m);
    case _ =>
  }

  lemma StartedInSegment(n: nat, w: Worker)
    requires WorkerSized(n, w) && w.phase.Holding? && w.segment == Some(w.phase.job.segment)
    ensures w.segment.Some?
  {
  }

  lemma {:induction false} WorkerBookStep(c: Config, st: State, w: nat, action: Action, scope: Scope, m: Metric)
    requires c.Valid() && WellSized(c, st) && Covers(st, scope) && MoveOf(c, st, w, action).Some?
    ensures Moved(st, Perform(c, st, w, MoveOf(c, st, w, action).value), ByWorker(w, action), scope, m)
  {
    var worker, move := st.workers[w], MoveOf(c, st, w, action).value;
    ActKeepsBooks(|c.windows|, worker, st.queue, st.dispatcher.Closed?, action, scope, m);
    ReadingOfZero(m);
    PerformBooks(c, st, w, move, ActionAdds(worker, action), scope, m);
  }

  lemma {:induction false} PerformBooks(c: Config, st: State, w: nat, move: Move, delta: Counts, scope: Scope, m: Metric)
    requires WellSized(c, st) && Covers(st, scope) && w < |st.workers| && (move.received ==> st.queue != [])
    requires BooksKept(st.workers[w], move, delta, scope, m)
    ensures var next, worker := Perform(c, st, w, move), st.workers[w];
            && Covers(next, scope)
            && Book(next, scope, m) == Book(st, scope, m)
                 + if worker.segment.Some? then InScope(scope, worker.segment.value, delta, m) else 0
  {
    SumUpdate(st.workers, w, move.worker, Booked(scope, m));
    if scope.Only? { DepositReading(st.collected, st.workers[w], scope.segment, m); }
  }

  lemma {:induction false} DepositReading(collected: seq<Counts>, w: Worker, s: nat, m: Metric)
    requires s < |collected| && (w.segment.Some? ==> w.segment.value < |collected|)
    ensures |Deposit(collected, w)| == |collected|
    ensures Reading(Deposit(collected, w)[s], m)
         == Reading(collected[s], m) + if w.segment == Some(s) then Reading(w.current, m) else 0
  {
    if w.segment == Some(s) { ReadingOfPlus(collected[s], w.current, m); }
  }

  /** Every event changes the books of every scope by exactly what it adds. */
  lemma BookStep(c: Config, st: State, next: State, e: Event, scope: Scope, m: Metric)
    requires c.Valid() && WellSized(c, st) && Covers(st, scope) && Apply(c, st, e) == Some(next)
    ensures Moved(st, next, e, scope, m)
  {
    match e
    case Cancel => ReadingOfZero(m);
    case ByDispatcher(step) => DispatcherBookStep(c, st, next, step, scope, m);
    case ByWorker(w, action) => WorkerBookStep(c, st, w, action, scope, m);
  }

  // -- What events add -----------------------------------------------------------

  lemma RecordedReadings(r: Response, m: Metric)
    ensures m == AllOutcomes ==> Reading(Recorded(r), m) == 1
    ensures m in {Planned, Scheduled, Started, Completed, CanceledCount, DroppedCount} ==> Reading(Recorded(r), m) == 0
  {
  }

  /** A reply adds one completion or one cancellation, and one outcome if it has a result. */
  lemma SettledReadings(r: Reply, m: Metric)
    ensures m == Completed ==> Reading(Settled(r), m) == Count(r.Answer? && r.response.outcome != Canceled)
    ensures m == CanceledCount ==> Reading(Settled(r), m) == Count(r.Failed? || r.response.outcome == Canceled)
    ensures m == AllOutcomes ==> Reading(Settled(r), m) == Count(r.Answer?)
    ensures m in {Planned, Scheduled, Started, DroppedCount} ==> Reading(Settled(r), m) == 0
  {
    if r.Answer? {
      var base := if r.response.outcome == Canceled then ZERO.(canceled := 1) else ZERO.(completed := 1);
      RecordedReadings(r.response, m);
      ReadingOfPlus(base, Recorded(r.response), m);
    }
  }

  predicate Starts(e: Event) {
    e.ByWorker? && e.action.Start?
  }

  predicate Records(st: State, e: Event) {
    e.ByWorker? && e.action.Record? && e.w < |st.workers| && st.workers[e.w].phase.Replied?
  }

  predicate Fails(st: State, e: Event) {
    Records(st, e) && st.workers[e.w].phase.reply.Failed?
  }

  predicate Takes(e: Event, step: Step) {
    e == ByDispatcher(step)
  }

  predicate Ticks(e: Event) {
    e.ByDispatcher? && e.step.TickAt?
  }

  predicate Receives(e: Event) {
    e.ByWorker? && e.action.Receive?
  }

  /** The request-count readings each event adds. */
  lemma {:induction false} AddedReadings(st: State, e: Event, m: Metric)
    requires e.ByWorker? ==> e.w < |st.workers|
    ensures m == Planned ==> Reading(Added(st, e), m) == Count(Ticks(e))
    ensures m == Scheduled ==> Reading(Added(st, e), m) == Count(Takes(e, Admit))
    ensures m == DroppedCount ==> Reading(Added(st, e), m) == Count(Takes(e, Drop))
    ensures m == Started ==> Reading(Added(st, e), m) == Count(Starts(e))
    ensures m == AllOutcomes && !Records(st, e) ==> Reading(Added(st, e), m) == Count(Takes(e, Drop))
    ensures m in {Completed, CanceledCount} && !Records(st, e) ==> Reading(Added(st, e), m) == 0
  {
    match e
    case Cancel => ReadingOfZero(m);
    case ByDispatcher(step) => StepReadings(step, m);
    case ByWorker(w, action) => ActionReadings(st.workers[w], action, m);
  }

  lemma {:induction false} StepReadings(step: Step, m: Metric)
    ensures m == Planned ==> Reading(StepAdds(step), m) == Count(step.TickAt?)
    ensures m == Scheduled ==> Reading(StepAdds(step), m) == Count(step.Admit?)
    ensures m in {DroppedCount, AllOutcomes} ==> Reading(StepAdds(step), m) == Count(step.Drop?)
    ensures m in {Started, Completed, CanceledCount} ==> Reading(StepAdds(step), m) == 0
  {
  }

  lemma {:induction false} ActionReadings(worker: Worker, action: Action, m: Metric)
    ensures m in {Planned, Scheduled, DroppedCount} ==> Reading(ActionAdds(worker, action), m) == 0
    ensures m == Started ==> Reading(ActionAdds(worker, action), m) == Count(action.Start?)
    ensures m in {AllOutcomes, Completed, CanceledCount} && !(action.Record? && worker.phase.Replied?) ==>
      Reading(ActionAdds(worker, action), m) == 0
  {
    ReadingOfZero(m);
    if action.Record? && worker.phase.Replied? { SettledReadings(worker.phase.reply, m); }
  }

  lemma AddedBalance(st: State, e: Event)
    requires e.ByWorker? ==> e.w < |st.workers|
    ensures Reading(Added(st, e), Completed) + Reading(Added(st, e), CanceledCount) == Count(Records(st, e))
    ensures Reading(Added(st, e), AllOutcomes) + Count(Fails(st, e))
         == Reading(Added(st, e), Completed) + Reading(Added(st, e), CanceledCount)
          + Reading(Added(st, e), DroppedCount)
  {
    if Records(st, e) {
      var reply := st.workers[e.w].phase.reply;
      SettledReadings(reply, AllOutcomes);
      SettledReadings(reply, Completed);
      SettledReadings(reply, CanceledCount);
      SettledReadings(reply, DroppedCount);
    } else {
      AddedReadings(st, e, AllOutcomes);
      AddedReadings(st, e, Completed);
      AddedReadings(st, e, CanceledCount);
      AddedReadings(st, e, DroppedCount);
    }
  }

  lemma RecordedCanceled(r: Response)
    ensures Reading(Recorded(r), OutcomeCount(Canceled)) == Count(r.outcome == Canceled)
  {
  }

  lemma SettledCanceled(r: Reply)
    ensures Reading(Settled(r), CanceledCount) == Reading(Settled(r), OutcomeCount(Canceled)) + Count(r.Failed?)
  {
    SettledReadings(r, CanceledCount);
    if r.Answer? {
      var base := if r.response.outcome == Canceled then ZERO.(canceled := 1) else ZERO.(completed := 1);
      RecordedCanceled(r.response);
      ReadingOfPlus(base, Recorded(r.response), OutcomeCount(Canceled));
    }
  }

  lemma StepCanceled(step: Step)
    ensures Reading(StepAdds(step), CanceledCount) == Reading(StepAdds(step), OutcomeCount(Canceled)) == 0
  {
  }

  lemma ActionCanceled(worker: Worker, action: Action)
    ensures Reading(ActionAdds(worker, action), CanceledCount)
         == Reading(ActionAdds(worker, action), OutcomeCount(Canceled))
          + Count(action.Record? && worker.phase.Replied? && worker.phase.reply.Failed?)
  {
    if action.Record? && worker.phase.Replied? {
      SettledCanceled(worker.phase.reply);
    }
  }

  lemma AddedCanceled(st: State, e: Event)
    requires e.ByWorker? ==> e.w < |st.workers|
    ensures Reading(Added(st, e), CanceledCount)
         == Reading(Added(st, e), OutcomeCount(Canceled)) + Count(Fails(st, e))
  {
    match e
    case Cancel =>
    case ByDispatcher(step) => StepCanceled(step);
    case ByWorker(w, action) => ActionCanceled(st.workers[w], action);
  }

  // -- What events move ----------------------------------------------------------

  function Now(scope: Scope, st: State, e: Event, b: bool): nat {
    Count(b && scope.Has(SegmentOf(st, e)))
  }

  lemma DispatchMoves(c: Config, st: State, next: State, step: Step, scope: Scope)
    requires c.Valid() && WellSized(c, st) && Dispatch(c, st, step) == Some(next)
    ensures var e := ByDispatcher(step);
            && CountIn(scope, Unchecked(next.dispatcher))
                + Now(scope, st, e, step.Drop?) + Now(scope, st, e, step.Admit?)
               == CountIn(scope, Unchecked(st.dispatcher)) + Now(scope, st, e, step.TickAt?)
            && CountIn(scope, Outgoing(next.dispatcher)) + Queued(next.queue, scope)
               == CountIn(scope, Outgoing(st.dispatcher)) + Queued(st.queue, scope) + Now(scope, st, e, step.Admit?)
  {
    if step.Send? { QueuedAppend(st.queue, st.dispatcher.job, scope); }
  }

  lemma DispatcherMoves(c: Config, st: State, next: State, e: Event, scope: Scope)
    requires c.Valid() && WellSized(c, st) && Apply(c, st, e) == Some(next)
    ensures Receives(e) ==> st.queue != []
    ensures CountIn(scope, Unchecked(next.dispatcher))
             + Now(scope, st, e, Takes(e, Drop)) + Now(scope, st, e, Takes(e, Admit))
         == CountIn(scope, Unchecked(st.dispatcher)) + Now(scope, st, e, Ticks(e))
    ensures CountIn(scope, Outgoing(next.dispatcher)) + Queued(next.queue, scope)
             + (if Receives(e) then CountIn(scope, Some(st.queue[0])) else 0)
         == CountIn(scope, Outgoing(st.dispatcher)) + Queued(st.queue, scope) + Now(scope, st, e, Takes(e, Admit))
  {
    match e
    case Cancel =>
    case ByDispatcher(step) => DispatchMoves(c, st, next, step, scope);
    case ByWorker(w, action) => ActWeights(st.workers[w], st.queue, st.dispatcher.Closed?, action, scope);
  }

  lemma ActWeights(w: Worker, queue: seq<Job>, closed: bool, action: Action, scope: Scope)
    requires Act(w, queue, closed, action).Some?
    requires w.phase.Executing? || w.phase.Replied? ==> w.segment == Some(w.phase.job.segment)
    ensures var move := Act(w, queue, closed, action).value;
            var here := w.segment.Some? && scope.Has(w.segment.value);
            && (move.received ==> queue != [])
            && (action.Start? || action.Record? ==> w.segment.Some?)
            && (action.Record? <==> w.phase.Replied? && action.Record?)
            && (move.received <==> action.Receive?)
            && Weigh(move.worker, Busy) + Count(move.finished) == Weigh(w, Busy) + Count(move.received)
            && Weigh(move.worker, Unstarted(scope)) + Count(action.Start? && here)
               == Weigh(w, Unstarted(scope)) + (if move.received then CountIn(scope, Some(queue[0])) else 0)
            && Weigh(move.worker, Held(scope)) + Count(action.Record? && here)
               == Weigh(w, Held(scope)) + Count(action.Start? && here)
            && Weigh(move.worker, StepsLeft) + 1
               <= Weigh(w, StepsLeft) + if move.received then 5 else 0
  {
  }

  lemma DispatchFrame(c: Config, st: State, next: State, step: Step)
    requires c.Valid() && WellSized(c, st) && Dispatch(c, st, step) == Some(next)
    ensures next.workers == st.workers && next.collected == st.collected && next.failures == st.failures
    ensures next.cancelled == st.cancelled
  {
  }

  lemma {:induction false} PerformUnstarted(c: Config, st: State, next: State, w: nat, action: Action, scope: Scope)
    requires c.Valid() && WellSized(c, st) && MoveOf(c, st, w, action).Some?
    requires next.workers == st.workers[w := MoveOf(c, st, w, action).value.worker]
    ensures var e := ByWorker(w, action);
            Sum(next.workers, Unstarted(scope)) + Now(scope, st, e, Starts(e))
            == Sum(st.workers, Unstarted(scope)) + if Receives(e) then CountIn(scope, Some(st.queue[0])) else 0
  {
    ActWeights(st.workers[w], st.queue, st.dispatcher.Closed?, action, scope);
    SumUpdate(st.workers, w, next.workers[w], Unstarted(scope));
  }

  lemma NowHere(st: State, w: nat, action: Action, scope: Scope, b: bool)
    requires w < |st.workers| && (b ==> st.workers[w].segment.Some?)
    ensures Now(scope, st, ByWorker(w, action), b) == Count(b && scope.Has(st.workers[w].segment.value))
  {
  }

  lemma {:induction false} PerformHeld(c: Config, st: State, next: State, w: nat, action: Action, scope: Scope)
    requires c.Valid() && WellSized(c, st) && MoveOf(c, st, w, action).Some?
    requires next.workers == st.workers[w := MoveOf(c, st, w, action).value.worker]
    ensures var e := ByWorker(w, action);
            Sum(next.workers, Held(scope)) + Now(scope, st, e, Records(st, e))
            == Sum(st.workers, Held(scope)) + Now(scope, st, e, Starts(e))
  {
    ActWeights(st.workers[w], st.queue, st.dispatcher.Closed?, action, scope);
    SumUpdate(st.workers, w, next.workers[w], Held(scope));
    NowHere(st, w, action, scope, action.Record?);
    NowHere(st, w, action, scope, action.Start?);
  }

  lemma WorkersMove(c: Config, st: State, next: State, e: Event, scope: Scope)
    requires c.Valid() && WellSized(c, st) && Apply(c, st, e) == Some(next)
    ensures e.ByWorker? ==> e.w < |st.workers|
    ensures Sum(next.workers, Unstarted(scope)) + Now(scope, st, e, Starts(e))
         == Sum(st.workers, Unstarted(scope)) + if Receives(e) then CountIn(scope, Some(st.queue[0])) else 0
    ensures Sum(next.workers, Held(scope)) + Now(scope, st, e, Records(st, e))
         == Sum(st.workers, Held(scope)) + Now(scope, st, e, Starts(e))
  {
    match e
    case Cancel =>
    case ByDispatcher(step) => DispatchFrame(c, st, next, step);
    case ByWorker(w, action) =>
      ActWeights(st.workers[w], st.queue, st.dispatcher.Closed?, action, scope);
      PerformUnstarted(c, st, next, w, action, scope);
      PerformHeld(c, st, next, w, action, scope);
  }

  lemma ActFailures(n: nat, w: Worker, queue: seq<Job>, closed: bool, action: Action)
    requires WorkerSized(n, w) && Act(w, queue, closed, action).Some?
    ensures Act(w, queue, closed, action).value.failed <==>
            action.Record? && w.phase.Replied? && w.phase.reply.Failed?
    ensures action.Record? ==> w.phase.Replied? && w.segment.Some? && w.segment.value < n
  {
  }

  lemma {:induction false} TallyMoves(failures: seq<nat>, w: Worker, s: nat)
    requires w.segment == Some(s) && s < |failures|
    ensures SumNat(Tally(failures, w)) == SumNat(failures) + 1
  {
    var tallied := failures[s := failures[s] + 1];
    SumNatUpdate(failures, s, failures[s] + 1);
    assert Tally(failures, w) == tallied;
  }

  lemma FailuresMove(c: Config, st: State, next: State, e: Event, scope: Scope)
    requires c.Valid() && WellSized(c, st) && Covers(st, scope) && Apply(c, st, e) == Some(next)
    ensures FailuresInBoth(st, next, e, scope)
  {
    match e
    case Cancel =>
    case ByDispatcher(step) => DispatchFrame(c, st, next, step);
    case ByWorker(w, action) => PerformFailures(c, st, next, w, action, scope);
  }

  ghost predicate FailuresInBoth(st: State, next: State, e: Event, scope: Scope)
    requires Covers(st, scope)
  {
    && |next.failures| == |st.failures|
    && (if scope.Whole? then SumNat(next.failures) else next.failures[scope.segment])
       == FailuresIn(st, scope) + Now(scope, st, e, Fails(st, e))
  }

  lemma PerformFailures(c: Config, st: State, next: State, w: nat, action: Action, scope: Scope)
    requires c.Valid() && WellSized(c, st) && Covers(st, scope) && MoveOf(c, st, w, action).Some?
    requires next.failures == if MoveOf(c, st, w, action).value.failed then Tally(st.failures, st.workers[w])
                              else st.failures
    ensures FailuresInBoth(st, next, ByWorker(w, action), scope)
  {
    ActFailures(|c.windows|, st.workers[w], st.queue, st.dispatcher.Closed?, action);
    if MoveOf(c, st, w, action).value.failed { TallyMoves(st.failures, st.workers[w], st.workers[w].segment.value); }
  }

  // -- Preservation --------------------------------------------------------------

  lemma PlannedStep(c: Config, st: State, next: State, e: Event, scope: Scope)
    requires c.Valid() && WellSized(c, st) && Covers(st, scope) && Apply(c, st, e) == Some(next)
    requires PlannedSplit(st, scope)
    ensures Covers(next, scope) && PlannedSplit(next, scope)
  {
    BookStep(c, st, next, e, scope, Planned);
    BookStep(c, st, next, e, scope, Scheduled);
    BookStep(c, st, next, e, scope, DroppedCount);
    DispatcherMoves(c, st, next, e, scope);
    AddedReadings(st, e, Planned);
    AddedReadings(st, e, Scheduled);
    AddedReadings(st, e, DroppedCount);
  }

  lemma ScheduledStep(c: Config, st: State, next: State, e: Event, scope: Scope)
    requires c.Valid() && WellSized(c, st) && Covers(st, scope) && Apply(c, st, e) == Some(next)
    requires ScheduledSplit(st, scope)
    ensures Covers(next, scope) && ScheduledSplit(next, scope)
  {
    BookStep(c, st, next, e, scope, Scheduled);
    BookStep(c, st, next, e, scope, Started);
    DispatcherMoves(c, st, next, e, scope);
    WorkersMove(c, st, next, e, scope);
    AddedReadings(st, e, Scheduled);
    AddedReadings(st, e, Started);
  }

  lemma StartedStep(c: Config, st: State, next: State, e: Event, scope: Scope)
    requires c.Valid() && WellSized(c, st) && Covers(st, scope) && Apply(c, st, e) == Some(next)
    requires StartedSplit(st, scope)
    ensures Covers(next, scope) && StartedSplit(next, scope)
  {
    BookStep(c, st, next, e, scope, Started);
    BookStep(c, st, next, e, scope, Completed);
    BookStep(c, st, next, e, scope, CanceledCount);
    WorkersMove(c, st, next, e, scope);
    AddedReadings(st, e, Started);
    AddedBalance(st, e);
  }

  lemma OutcomesStep(c: Config, st: State, next: State, e: Event, scope: Scope)
    requires c.Valid() && WellSized(c, st) && Covers(st, scope) && Apply(c, st, e) == Some(next)
    requires OutcomesSplit(st, scope)
    ensures Covers(next, scope) && OutcomesSplit(next, scope)
  {
    BookStep(c, st, next, e, scope, AllOutcomes);
    BookStep(c, st, next, e, scope, Completed);
    BookStep(c, st, next, e, scope, CanceledCount);
    BookStep(c, st, next, e, scope, DroppedCount);
    FailuresMove(c, st, next, e, scope);
    AddedBalance(st, e);
  }

  lemma CanceledStep(c: Config, st: State, next: State, e: Event, scope: Scope)
    requires c.Valid() && WellSized(c, st) && Covers(st, scope) && Apply(c, st, e) == Some(next)
    requires CanceledSplit(st, scope)
    ensures Covers(next, scope) && CanceledSplit(next, scope)
  {
    BookStep(c, st, next, e, scope, CanceledCount);
    BookStep(c, st, next, e, scope, OutcomeCount(Canceled));
    FailuresMove(c, st, next, e, scope);
    AddedCanceled(st, e);
  }

  lemma {:induction false} SegmentTotalStep(st: State, next: State, e: Event, m: Metric, n: nat)
    requires Covers(st, Whole) && Covers(next, Whole) && n <= |st.dispatched| == |next.dispatched|
    requires forall s :: 0 <= s < n ==> Moved(st, next, e, Only(s), m)
    ensures SegmentTotal(next, m, n)
         == SegmentTotal(st, m, n) + if SegmentOf(st, e) < n then Reading(Added(st, e), m) else 0
  {
    if n > 0 {
      SegmentTotalStep(st, next, e, m, n - 1);
      assert Moved(st, next, e, Only(n - 1), m);
    }
  }

  lemma ReconciledStep(c: Config, st: State, next: State, e: Event)
    requires c.Valid() && WellSized(c, st) && Apply(c, st, e) == Some(next) && Reconciled(st)
    ensures Covers(next, Whole) && Reconciled(next)
  {
    ApplyKeepsSizes(c, st, e);
    assert SegmentOf(st, e) < |c.windows|;
    forall m ensures Book(next, Whole, m) == SegmentTotal(next, m, |next.dispatched|) {
      BookStep(c, st, next, e, Whole, m);
      forall s | 0 <= s < |c.windows| ensures Moved(st, next, e, Only(s), m) {
        BookStep(c, st, next, e, Only(s), m);
      }
      SegmentTotalStep(st, next, e, m, |c.windows|);
      assert Book(st, Whole, m) == SegmentTotal(st, m, |st.dispatched|);
    }
  }

  lemma PerformCounted(c: Config, st: State, w: nat, m: Move)
    requires WellSized(c, st) && w < |st.workers| && (m.received ==> st.queue != []) && Counted(c, st)
    requires Weigh(m.worker, Busy) + Count(m.finished) == Weigh(st.workers[w], Busy) + Count(m.received)
    ensures Counted(c, Perform(c, st, w, m))
  {
    SumUpdate(st.workers, w, m.worker, Busy);
  }

  lemma CountedStep(c: Config, st: State, next: State, e: Event)
    requires c.Valid() && WellSized(c, st) && Apply(c, st, e) == Some(next) && Counted(c, st)
    ensures Counted(c, next)
  {
    match e
    case Cancel =>
    case ByDispatcher(step) => DispatchFrame(c, st, next, step);
    case ByWorker(w, action) =>
      ActWeights(st.workers[w], st.queue, st.dispatcher.Closed?, action, Whole);
      PerformCounted(c, st, w, MoveOf(c, st, w, action).value);
  }

  lemma DrainedStep(c: Config, st: State, next: State, e: Event)
    requires c.Valid() && WellSized(c, st) && Apply(c, st, e) == Some(next) && Drained(st)
    ensures Drained(next)
  {
  }

  lemma TickingStep(c: Config, st: State, next: State, e: Event)
    requires c.Valid() && WellSized(c, st) && Apply(c, st, e) == Some(next) && Ticking(c, st)
    ensures WellSized(c, next) && Ticking(c, next)
  {
    ApplyKeepsSizes(c, st, e);
    forall s: nat | s < |c.windows|
      ensures Paced(c.windows[s], next.ticks[s]) && Book(next, Only(s), Planned) == |next.ticks[s]|
    {
      TickingSegmentStep(c, st, next, e, s);
    }
  }

  lemma TicksStep(c: Config, st: State, next: State, e: Event, s: nat)
    requires c.Valid() && WellSized(c, st) && Apply(c, st, e) == Some(next) && s < |c.windows|
    ensures |next.ticks| == |st.ticks|
    ensures if Ticks(e) && st.dispatcher.segment == s
            then var t := Tick(Due(c.windows[s], st.ticks[s]), e.step.at);
                 next.ticks[s] == st.ticks[s] + [t] && t.intended <= t.actual < c.windows[s].end
            else next.ticks[s] == st.ticks[s]
  {
  }

  lemma TickingSegmentStep(c: Config, st: State, next: State, e: Event, s: nat)
    requires c.Valid() && WellSized(c, st) && Apply(c, st, e) == Some(next) && s < |c.windows|
    requires Paced(c.windows[s], st.ticks[s]) && Book(st, Only(s), Planned) == |st.ticks[s]|
    ensures Covers(next, Only(s))
    ensures Paced(c.windows[s], next.ticks[s]) && Book(next, Only(s), Planned) == |next.ticks[s]|
  {
    BookStep(c, st, next, e, Only(s), Planned);
    AddedReadings(st, e, Planned);
    TicksStep(c, st, next, e, s);
    if Ticks(e) && st.dispatcher.segment == s {
      PacedExtend(c.windows[s], st.ticks[s], Tick(Due(c.windows[s], st.ticks[s]), e.step.at));
    }
  }
}
