/** The open-model scheduler as interleaved atomic steps of one dispatcher, the bounded job
    channel and `maxInFlight` workers. A run is any schedule of events the guards allow. */
module OpenRun {
  import opened Results
  import opened Books
  import opened Pacing

  datatype Config = Config(maxInFlight: nat, windows: seq<Window>) {
    ghost predicate Valid() {
      && maxInFlight > 0
      && windows != []
      && forall s :: 0 <= s < |windows| ==> windows[s].interval > 0
    }
  }

  datatype Job = Job(segment: nat, offset: int)

  /** What a worker gets back from the executor. */
  datatype Reply = Answer(response: Response) | Failed

  datatype Phase =
    | Idle                             // blocked on the channel
    | Holding(job: Job)                // received, not started
    | Executing(job: Job)
    | Replied(job: Job, reply: Reply)  // in-flight counter lowered, result not yet recorded
    | Exiting                          // left the loop, last flush pending
    | Exited

  /** `segment` and `current` are the private accumulator, `overall` the worker's root book. */
  datatype Worker = Worker(phase: Phase, segment: Option<nat>, current: Counts, overall: Counts)

  datatype Dispatcher =
    | Waiting(segment: nat)            // in the pacing loop of a segment
    | Ticked(job: Job)                 // planned, saturation not checked
    | Admitted(job: Job)               // scheduled, counter not yet raised
    | Raised(job: Job)                 // counter raised, peak not yet updated
    | Sending(job: Job)
    | Leaving                          // segments done or abandoned
    | Closed                           // channel closed

  /** `failures` and `ticks` are history: replies without a result, and the tick log of
      each segment, whose last entry decides the next target. */
  datatype State = State(
    dispatcher: Dispatcher,
    now: int,
    cancelled: bool,
    queue: seq<Job>,
    inFlight: int,
    peak: int,
    workers: seq<Worker>,
    root: Counts,
    dispatched: seq<Counts>,
    collected: seq<Counts>,
    failures: seq<nat>,
    ticks: seq<seq<Tick>>)

  datatype Step =
    | TickAt(at: int)
    | Drop
    | Admit
    | Raise
    | UpdatePeak
    | Send
    | NextSegment(at: int)
    | Abandon
    | Close

  datatype Action =
    | Receive
    | SwitchSegment
    | Start
    | Finish(reply: Reply)
    | Record
    | LeaveLoop
    | Exit

  datatype Event = Cancel | ByDispatcher(step: Step) | ByWorker(w: nat, action: Action)

  function Initial(c: Config, start: int): State {
    var n := |c.windows|;
    State(Waiting(0), start, false, [], 0, 0,
          seq(c.maxInFlight, i => Worker(Idle, None, ZERO, ZERO)), ZERO,
          seq(n, i => ZERO), seq(n, i => ZERO), seq(n, i => 0), seq(n, i => []))
  }

  const PLANNED := ZERO.(planned := 1)
  const SCHEDULED := ZERO.(scheduled := 1)
  const DROPPED := ZERO.(dropped := 1, outcomes := multiset{Dropped})
  const STARTED := ZERO.(started := 1)

  /** What a reply adds to the books. */
  function Settled(r: Reply): Counts {
    match r
    case Answer(response) =>
      if response.outcome == Canceled
      then Plus(ZERO.(canceled := 1), Recorded(response))
      else Plus(ZERO.(completed := 1), Recorded(response))
    case Failed => ZERO.(canceled := 1)
  }

  function Bump(books: seq<Counts>, s: nat, delta: Counts): seq<Counts>
    requires s < |books|
  {
    books[s := Plus(books[s], delta)]
  }

  /** The job the dispatcher is busy with. */
  function JobOf(d: Dispatcher): Option<Job> {
    match d
    case Ticked(job) => Some(job)
    case Admitted(job) => Some(job)
    case Raised(job) => Some(job)
    case Sending(job) => Some(job)
    case _ => None
  }

  predicate WellSized(c: Config, st: State) {
    && |st.workers| == c.maxInFlight
    && |st.dispatched| == |st.collected| == |st.failures| == |st.ticks| == |c.windows|
    && (st.dispatcher.Waiting? ==> st.dispatcher.segment < |c.windows|)
    && (JobOf(st.dispatcher).Some? ==> JobOf(st.dispatcher).value.segment < |c.windows|)
    && (forall i :: 0 <= i < |st.queue| ==> st.queue[i].segment < |c.windows|)
    && (forall w :: 0 <= w < |st.workers| ==> WorkerSized(|c.windows|, st.workers[w]))
  }

  predicate WorkerSized(n: nat, w: Worker) {
    && (w.segment.Some? ==> w.segment.value < n)
    && (w.segment.None? ==> w.current == ZERO)
    && (match w.phase
        case Holding(job) => job.segment < n
        case Executing(job) => w.segment == Some(job.segment)
        case Replied(job, _) => w.segment == Some(job.segment)
        case _ => true)
  }

  // -- The dispatcher ------------------------------------------------------------

  /** One dispatcher step, or None where the code could not take it. */
  function Dispatch(c: Config, st: State, step: Step): Option<State>
    requires c.Valid() && WellSized(c, st)
  {
    match step
    case TickAt(at) => // the timer for the next target has fired and the segment has not ended
      if !st.dispatcher.Waiting? then None
      else
        var s := st.dispatcher.segment;
        var due := Due(c.windows[s], st.ticks[s]);
        if at < st.now || at < due || at >= c.windows[s].end then None
        else
          Some(st.(dispatcher := Ticked(Job(s, due)), now := at,
                   root := Plus(st.root, PLANNED),
                   dispatched := Bump(st.dispatched, s, PLANNED),
                   ticks := st.ticks[s := st.ticks[s] + [Tick(due, at)]]))
    case Drop =>
      if st.dispatcher.Ticked? && st.inFlight >= c.maxInFlight
      then Some(st.(dispatcher := Waiting(st.dispatcher.job.segment),
                    root := Plus(st.root, DROPPED),
                    dispatched := Bump(st.dispatched, st.dispatcher.job.segment, DROPPED)))
      else None
    case Admit =>
      if st.dispatcher.Ticked? && st.inFlight < c.maxInFlight
      then Some(st.(dispatcher := Admitted(st.dispatcher.job),
                    root := Plus(st.root, SCHEDULED),
                    dispatched := Bump(st.dispatched, st.dispatcher.job.segment, SCHEDULED)))
      else None
    case Raise =>
      if st.dispatcher.Admitted?
      then Some(st.(dispatcher := Raised(st.dispatcher.job), inFlight := st.inFlight + 1))
      else None
    case UpdatePeak =>
      if st.dispatcher.Raised?
      then Some(st.(dispatcher := Sending(st.dispatcher.job), peak := Later(st.peak, st.inFlight)))
      else None
    case Send =>
      if st.dispatcher.Sending? && |st.queue| < |st.workers|
      then Some(st.(dispatcher := Waiting(st.dispatcher.job.segment), queue := st.queue + [st.dispatcher.job]))
      else None
    case NextSegment(at) =>
      if st.dispatcher.Waiting? && at >= st.now && at >= c.windows[st.dispatcher.segment].end
      then Some(st.(now := at, dispatcher := if st.dispatcher.segment + 1 < |c.windows|
                                             then Waiting(st.dispatcher.segment + 1) else Leaving))
      else None
    case Abandon =>
      if st.dispatcher.Waiting? && st.cancelled then Some(st.(dispatcher := Leaving)) else None
    case Close =>
      if st.dispatcher.Leaving? then Some(st.(dispatcher := Closed)) else None
  }

  // -- The workers ---------------------------------------------------------------

  /** A worker's next local state, and what the action does to the shared state. */
  datatype Move = Move(worker: Worker, received: bool, finished: bool, flushed: bool, failed: bool)

  function Quiet(w: Worker): Move {
    Move(w, false, false, false, false)
  }

  /** Adds to both books of a worker and moves it on. */
  function Entered(worker: Worker, delta: Counts, phase: Phase): Worker {
    worker.(phase := phase, current := Plus(worker.current, delta), overall := Plus(worker.overall, delta))
  }

  /** One worker action, or None where the code could not take it. */
  function Act(worker: Worker, queue: seq<Job>, closed: bool, action: Action): Option<Move> {
    var phase := worker.phase;
    match action
    case Receive =>
      if phase.Idle? && queue != []
      then Some(Quiet(worker.(phase := Holding(queue[0]))).(received := true))
      else None
    case SwitchSegment =>
      if phase.Holding? && worker.segment != Some(phase.job.segment)
      then Some(Quiet(worker.(segment := Some(phase.job.segment), current := ZERO)).(flushed := true))
      else None
    case Start =>
      if phase.Holding? && worker.segment == Some(phase.job.segment)
      then Some(Quiet(Entered(worker, STARTED, Executing(phase.job))))
      else None
    case Finish(reply) =>
      if phase.Executing?
      then Some(Quiet(worker.(phase := Replied(phase.job, reply))).(finished := true))
      else None
    case Record =>
      if phase.Replied?
      then Some(Quiet(Entered(worker, Settled(phase.reply), Idle)).(failed := phase.reply.Failed?))
      else None
    case LeaveLoop =>
      if phase.Idle? && closed && queue == [] then Some(Quiet(worker.(phase := Exiting))) else None
    case Exit =>
      if phase.Exiting?
      then Some(Quiet(worker.(phase := Exited, segment := None, current := ZERO)).(flushed := true))
      else None
  }

  /** Hands a worker's private accumulator to the collector. */
  function Deposit(collected: seq<Counts>, w: Worker): seq<Counts>
    requires w.segment.Some? ==> w.segment.value < |collected|
  {
    if w.segment.None? then collected else Bump(collected, w.segment.value, w.current)
  }

  function Tally(failures: seq<nat>, w: Worker): seq<nat>
    requires w.segment.Some? ==> w.segment.value < |failures|
  {
    if w.segment.None? then failures
    else failures[w.segment.value := failures[w.segment.value] + 1]
  }

  function Perform(c: Config, st: State, w: nat, m: Move): State
    requires WellSized(c, st) && w < |st.workers| && (m.received ==> st.queue != [])
  {
    st.(workers := st.workers[w := m.worker],
        queue := if m.received then st.queue[1..] else st.queue,
        inFlight := if m.finished then st.inFlight - 1 else st.inFlight,
        collected := if m.flushed then Deposit(st.collected, st.workers[w]) else st.collected,
        failures := if m.failed then Tally(st.failures, st.workers[w]) else st.failures)
  }

  function MoveOf(c: Config, st: State, w: nat, action: Action): Option<Move>
  {
    if w < |st.workers| then Act(st.workers[w], st.queue, st.dispatcher.Closed?, action) else None
  }

  // -- Runs ----------------------------------------------------------------------

  function Apply(c: Config, st: State, e: Event): Option<State>
    requires c.Valid() && WellSized(c, st)
  {
    match e
    case Cancel => Some(st.(cancelled := true))
    case ByDispatcher(step) => Dispatch(c, st, step)
    case ByWorker(w, action) =>
      match MoveOf(c, st, w, action)
      case None => None
      case Some(m) => Some(Perform(c, st, w, m))
  }

  lemma DispatchKeepsSizes(c: Config, st: State, step: Step)
    requires c.Valid() && WellSized(c, st) && Dispatch(c, st, step).Some?
    ensures WellSized(c, Dispatch(c, st, step).value)
  {
  }

  lemma ActKeepsSizes(n: nat, w: Worker, queue: seq<Job>, closed: bool, action: Action)
    requires WorkerSized(n, w) && (forall i :: 0 <= i < |queue| ==> queue[i].segment < n)
    requires Act(w, queue, closed, action).Some?
    ensures WorkerSized(n, Act(w, queue, closed, action).value.worker)
  {
  }

  lemma PerformKeepsSizes(c: Config, st: State, w: nat, m: Move)
    requires WellSized(c, st) && w < |st.workers| && (m.received ==> st.queue != [])
    requires WorkerSized(|c.windows|, m.worker)
    ensures WellSized(c, Perform(c, st, w, m))
  {
  }

  lemma ApplyKeepsSizes(c: Config, st: State, e: Event)
    requires c.Valid() && WellSized(c, st) && Apply(c, st, e).Some?
    ensures WellSized(c, Apply(c, st, e).value)
  {
    match e
    case Cancel =>
    case ByDispatcher(step) => DispatchKeepsSizes(c, st, step);
    case ByWorker(w, action) => 
      ActKeepsSizes(|c.windows|, st.workers[w], st.queue, st.dispatcher.Closed?, action);
      PerformKeepsSizes(c, st, w, MoveOf(c, st, w, action).value);
  }

  /** The state after a schedule of events; None if some event could not happen. */
  function Run(c: Config, st: State, schedule: seq<Event>): (r: Option<State>)
    requires c.Valid() && WellSized(c, st)
    ensures r.Some? ==> WellSized(c, r.value)
    decreases |schedule|
  {
    if schedule == [] then Some(st)
    else
      var before := Run(c, st, schedule[..|schedule| - 1]);
      if before.None? then None
      else
        var e := schedule[|schedule| - 1];
        var after := Apply(c, before.value, e);
        if after.None? then None
        else
          ApplyKeepsSizes(c, before.value, e);
          after
  }

  ghost predicate Reachable(c: Config, st: State)
    requires c.Valid()
  {
    exists start: int, schedule: seq<Event> ::
      WellSized(c, Initial(c, start)) && Run(c, Initial(c, start), schedule) == Some(st)
  }
}
