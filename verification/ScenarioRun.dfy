/** Scenario mode of the closed workload: iterations of steps, and the books a virtual user
    keeps of them. The executor and the context are oracles. */
module ScenarioRun {
  import opened Results
  import opened Books
  import opened History
  import opened Sampling

  datatype OnFailure = Stop | AbortVu | Continue

  datatype ScenarioStep = ScenarioStep(name: string, onFailure: OnFailure, thinkTime: int)

  /** What a step that ran reports. A report without a response counts as canceled. */
  datatype StepResult = StepResult(succeeded: bool, response: Option<Response>)

  /** Why an iteration ended: it went through all steps, a failed step stopped it or
      aborted the virtual user, or the context or the executor broke it off. */
  datatype Ending = RanThrough | StoppedBy(step: nat) | AbortedBy(step: nat) | BrokenOff

  /** A step the executor ran, and its report. */
  datatype Execution = Execution(step: ScenarioStep, result: StepResult)

  /** What a virtual user observes. The stop signal may come at any moment, and stays. The
      ghost fields are history: how many iterations the user had started when the signal
      came, and what the executor has run. */
  class World {
    const book: UserBook
    var stopped: bool
    ghost var startedWhenStopped: nat
    ghost var executed: seq<Execution>

    constructor (book: UserBook)
      ensures this.book == book && !stopped && executed == []
    {
      this.book := book;
      stopped, startedWhenStopped, executed := false, 0, [];
    }

    /** What can have happened to the stop signal since an earlier moment. */
    twostate predicate Later()
      reads this, book
    {
      && (old(stopped) ==> stopped && startedWhenStopped == old(startedWhenStopped))
      && (!old(stopped) && stopped ==> old(book.iterations.started) <= startedWhenStopped <= book.iterations.started)
    }

    method Elapse()
      modifies this`stopped, this`startedWhenStopped
      ensures Later()
    {
      var now: bool := *;
      if now && !stopped {
        stopped, startedWhenStopped := true, book.iterations.started;
      }
    }

    /** Whether the context is done. */
    method Done() returns (done: bool)
      modifies this`stopped, this`startedWhenStopped
      ensures Later()
    {
      Elapse();
      done := *;
    }

    /** Whether the stop signal or the end of the context is seen; the signal cannot be missed. */
    method StopSeen() returns (seen: bool)
      modifies this`stopped, this`startedWhenStopped
      ensures Later() && (stopped ==> seen)
    {
      Elapse();
      var done: bool := *;
      seen := stopped || done;
    }

    /** Runs a step; `None` is an error of the executor itself. */
    method ExecuteStep(step: ScenarioStep) returns (r: Option<StepResult>)
      modifies this
      ensures Later()
      ensures executed == old(executed) + if r.Some? then [Execution(step, r.value)] else []
    {
      Elapse();
      r := *;
      if r.Some? { executed := executed + [Execution(step, r.value)]; }
    }

    /** Waits; `false` when the wait was broken off. */
    method Think(d: int) returns (elapsed: bool)
      modifies this`stopped, this`startedWhenStopped
      ensures Later()
    {
      Elapse();
      elapsed := *;
    }
  }

  // -- Iterations ----------------------------------------------------------------------

  /** Whether an iteration goes on after a step. */
  predicate GoesOn(step: ScenarioStep, r: StepResult) {
    r.succeeded || step.onFailure == Continue
  }

  /** What ran is a prefix of the steps, in order, and no report but the last one forbade
      going on. */
  ghost predicate IsPrefix(steps: seq<ScenarioStep>, ran: seq<Execution>) {
    && |ran| <= |steps|
    && (forall k :: 0 <= k < |ran| ==> ran[k].step == steps[k])
    && (forall k :: 0 <= k < |ran| - 1 ==> GoesOn(ran[k].step, ran[k].result))
  }

  ghost predicate AllSucceeded(ran: seq<Execution>) {
    forall k :: 0 <= k < |ran| ==> ran[k].result.succeeded
  }

  /** A prefix after which the iteration goes on. */
  ghost predicate Continuing(steps: seq<ScenarioStep>, ran: seq<Execution>) {
    IsPrefix(steps, ran) && (ran != [] ==> GoesOn(ran[|ran| - 1].step, ran[|ran| - 1].result))
  }

  lemma RanExtends(steps: seq<ScenarioStep>, ran: seq<Execution>, e: Execution)
    requires |ran| < |steps| && Continuing(steps, ran) && e.step == steps[|ran|]
    ensures IsPrefix(steps, ran + [e])
    ensures Continuing(steps, ran + [e]) <==> GoesOn(e.step, e.result)
    ensures AllSucceeded(ran + [e]) <==> AllSucceeded(ran) && e.result.succeeded
  {
    var longer := ran + [e];
    assert longer[|ran|] == e;
    assert forall k :: 0 <= k < |ran| ==> longer[k] == ran[k];
    if AllSucceeded(longer) {
      forall k | 0 <= k < |ran| ensures ran[k].result.succeeded { assert longer[k].result.succeeded; }
    }
  }

  /** Why an iteration that ran these steps can have ended. */
  ghost predicate EndsWith(steps: seq<ScenarioStep>, ran: seq<Execution>, ending: Ending)
    requires IsPrefix(steps, ran)
  {
    var n := |ran|;
    match ending
    case RanThrough => n == |steps| && Continuing(steps, ran)
    case StoppedBy(k) => n == k + 1 && !ran[k].result.succeeded && ran[k].step.onFailure == Stop
    case AbortedBy(k) => n == k + 1 && !ran[k].result.succeeded && ran[k].step.onFailure == AbortVu
    case BrokenOff => n < |steps| && Continuing(steps, ran)
  }

  /** Runs one step and records it, unless the context is done or the executor fails. */
  method RunStep(world: World, step: ScenarioStep, book: UserBook) returns (r: Option<StepResult>)
    requires book.Valid() && world.book == book
    modifies book, world
    ensures book.Valid() && book.iterations == old(book.iterations) && world.Later()
    ensures var ran := if r.Some? then [Execution(step, r.value)] else [];
            world.executed == old(world.executed) + ran && book.log == old(book.log) + Entries(ran)
  {
    var done := world.Done();
    if done { return None; }
    r := world.ExecuteStep(step);
    if r.Some? { book.StepDone(step.name, r.value.response); }
  }

  /** A whole iteration: what ran is a prefix that ends at the first failure whose policy is
      not to continue, and it succeeds exactly when every step ran and succeeded. */
  ghost predicate Iterated(steps: seq<ScenarioStep>, ran: seq<Execution>, success: bool, ending: Ending) {
    && IsPrefix(steps, ran) && EndsWith(steps, ran, ending)
    && (success <==> |ran| == |steps| && AllSucceeded(ran))
  }

  lemma EntriesConcat(a: seq<Execution>, b: seq<Execution>)
    ensures Entries(a + b) == Entries(a) + Entries(b)
  {
  }

  /** What has been run and recorded since the executor had run `before` and the log was `log`. */
  ghost predicate RecordedSince(world: World, book: UserBook, before: seq<Execution>, log: seq<Entry>)
    reads world, book
  {
    && book.Valid()
    && before <= world.executed
    && book.log == log + Entries(Since(before, world.executed))
  }

  lemma RecordedExtends(world: World, book: UserBook, before: seq<Execution>, log: seq<Entry>,
                        executed: seq<Execution>, more: seq<Execution>)
    requires book.Valid() && before <= executed && world.executed == executed + more
    requires book.log == (log + Entries(Since(before, executed))) + Entries(more)
    ensures RecordedSince(world, book, before, log)
    ensures Since(before, world.executed) == Since(before, executed) + more
  {
    SinceExtends(before, executed, more);
    EntriesConcat(Since(before, executed), more);
    AppendTwice(log, Entries(Since(before, executed)), Entries(more));
  }

  /** Why an iteration of `n` steps can end with a step that ran, if it does. */
  predicate Decided(step: ScenarioStep, stepIdx: nat, n: nat, succeeded: bool, ending: Option<Ending>) {
    match ending
    case None => succeeded || step.onFailure == Continue
    case Some(StoppedBy(k)) => k == stepIdx && !succeeded && step.onFailure == Stop
    case Some(AbortedBy(k)) => k == stepIdx && !succeeded && step.onFailure == AbortVu
    case Some(BrokenOff) => succeeded && stepIdx + 1 < n
    case Some(RanThrough) => false
  }

  method Decide(world: World, step: ScenarioStep, stepIdx: nat, n: nat, succeeded: bool)
    returns (ending: Option<Ending>)
    modifies world`stopped, world`startedWhenStopped
    ensures world.Later() && Decided(step, stepIdx, n, succeeded, ending)
  {
    if !succeeded {
      if step.onFailure == Stop { return Some(StoppedBy(stepIdx)); }
      if step.onFailure == AbortVu { return Some(AbortedBy(stepIdx)); }
    }
    if succeeded && step.thinkTime > 0 && stepIdx < n - 1 {
      var elapsed := world.Think(step.thinkTime);
      if !elapsed { return Some(BrokenOff); }
    }
    ending := None;
  }

  /** The iteration after one more round: it has ended, or goes on. */
  ghost predicate Round(steps: seq<ScenarioStep>, was: seq<Execution>, ran: seq<Execution>,
                        succeeded: bool, ending: Option<Ending>) {
    if ending.Some? then Iterated(steps, ran, false, ending.value)
    else |ran| == |was| + 1 && Continuing(steps, ran) && (AllSucceeded(ran) <==> AllSucceeded(was) && succeeded)
  }

  lemma StepDecides(steps: seq<ScenarioStep>, was: seq<Execution>, e: Execution, ending: Option<Ending>)
    requires |was| < |steps| && Continuing(steps, was) && e.step == steps[|was|]
    requires Decided(e.step, |was|, |steps|, e.result.succeeded, ending)
    ensures Round(steps, was, was + [e], e.result.succeeded, ending)
  {
    RanExtends(steps, was, e);
  }

  lemma BreaksOff(steps: seq<ScenarioStep>, was: seq<Execution>)
    requires |was| < |steps| && Continuing(steps, was)
    ensures Round(steps, was, was, false, Some(BrokenOff))
  {
  }

  /** Runs a step and records it, after what has been recorded so far. */
  method RunNext(world: World, step: ScenarioStep, book: UserBook, ghost before: seq<Execution>, ghost log: seq<Entry>)
    returns (r: Option<StepResult>)
    requires world.book == book && RecordedSince(world, book, before, log)
    modifies book, world
    ensures RecordedSince(world, book, before, log) && book.iterations == old(book.iterations) && world.Later()
    ensures var was, ran := old(Since(before, world.executed)), Since(before, world.executed);
            ran == if r.Some? then was + [Execution(step, r.value)] else was
  {
    ghost var executed, was := world.executed, Since(before, world.executed);
    r := RunStep(world, step, book);
    ghost var ran := if r.Some? then [Execution(step, r.value)] else [];
    RecordedExtends(world, book, before, log, executed, ran);
    assert was + [] == was;
  }

  /** Runs the next step, and says why the iteration ends with it, if it does. */
  method RunAt(world: World, steps: seq<ScenarioStep>, stepIdx: nat, book: UserBook,
               ghost before: seq<Execution>, ghost log: seq<Entry>)
    returns (succeeded: bool, ending: Option<Ending>)
    requires world.book == book && RecordedSince(world, book, before, log)
    requires |Since(before, world.executed)| == stepIdx < |steps| && Continuing(steps, Since(before, world.executed))
    modifies book, world
    ensures RecordedSince(world, book, before, log) && book.iterations == old(book.iterations) && world.Later()
    ensures Round(steps, old(Since(before, world.executed)), Since(before, world.executed), succeeded, ending)
  {
    ghost var was := Since(before, world.executed);
    var step := steps[stepIdx];
    var r := RunNext(world, step, book, before, log);
    if r.None? {
      BreaksOff(steps, was);
      return false, Some(BrokenOff);
    }
    succeeded := r.value.succeeded;
    ending := Decide(world, step, stepIdx, |steps|, succeeded);
    StepDecides(steps, was, Execution(step, r.value), ending);
  }

  /** Runs the steps in order. What the executor ran is a prefix that ends at the first
      failure whose policy is not to continue; the iteration succeeds exactly when every
      step ran and succeeded; everything that ran was recorded once, in order. */
  method ExecuteIteration(world: World, steps: seq<ScenarioStep>, book: UserBook)
    returns (success: bool, ending: Ending)
    requires book.Valid() && world.book == book
    modifies book, world
    ensures book.Valid() && book.iterations == old(book.iterations) && world.Later()
    ensures old(world.executed) <= world.executed
    ensures Iterated(steps, Since(old(world.executed), world.executed), success, ending)
    ensures book.log == old(book.log) + Entries(Since(old(world.executed), world.executed))
  {
    ghost var before, log := world.executed, book.log;
    assert log + [] == log;
    if |steps| == 0 { return true, RanThrough; }
    var iterationSuccess := true;
    for stepIdx := 0 to |steps|
      invariant RecordedSince(world, book, before, log) && book.iterations == old(book.iterations) && world.Later()
      invariant |Since(before, world.executed)| == stepIdx && Continuing(steps, Since(before, world.executed))
      invariant iterationSuccess <==> AllSucceeded(Since(before, world.executed))
    {
      var succeeded, ended := RunAt(world, steps, stepIdx, book, before, log);
      if ended.Some? { return false, ended.value; }
      iterationSuccess := iterationSuccess && succeeded;
    }
    success, ending := iterationSuccess, RanThrough;
  }

  // -- Books ---------------------------------------------------------------------------

  datatype Iterations = Iterations(planned: nat, started: nat, completed: nat, failed: nat)

  /** One step that ran. */
  datatype Entry = Entry(name: string, response: Option<Response>)

  function Entries(ran: seq<Execution>): (r: seq<Entry>)
    ensures |r| == |ran|
  {
    seq(|ran|, k requires 0 <= k < |ran| => Entry(ran[k].step.name, ran[k].result.response))
  }

  /** A book after one step that ran: planned and started, then completed and recorded, or
      canceled. */
  function Entered(book: Counts, response: Option<Response>): Counts {
    var begun := book.(planned := book.planned + 1, started := book.started + 1);
    match response
    case Some(r) => Plus(begun.(completed := begun.completed + 1), Recorded(r))
    case None => begun.(canceled := begun.canceled + 1)
  }

  /** The root book of a user, and its books by step name. */
  datatype Totals = Totals(root: Counts, steps: map<string, Counts>)

  function StepBook(t: Totals, name: string): Counts {
    if name in t.steps then t.steps[name] else ZERO
  }

  function Enter(t: Totals, e: Entry): Totals {
    Totals(Entered(t.root, e.response), t.steps[e.name := Entered(StepBook(t, e.name), e.response)])
  }

  /** The books after a history of steps. */
  function Played(log: seq<Entry>): Totals {
    if log == [] then Totals(ZERO, map[]) else Enter(Played(log[..|log| - 1]), log[|log| - 1])
  }

  lemma PlayedExtends(log: seq<Entry>, e: Entry)
    ensures Played(log + [e]) == Enter(Played(log), e)
  {
    assert (log + [e])[..|log|] == log;
  }

  /** The books of one virtual user; `log` is history. */
  class UserBook {
    var books: Totals
    var iterations: Iterations
    ghost var log: seq<Entry>

    ghost predicate Valid()
      reads this
    {
      books == Played(log)
    }

    constructor ()
      ensures Valid() && log == [] && iterations == Iterations(0, 0, 0, 0)
    {
      books, iterations, log := Totals(ZERO, map[]), Iterations(0, 0, 0, 0), [];
    }

    /** Records one step that ran, in the root book and in the book of its name. */
    method StepDone(name: string, response: Option<Response>)
      requires Valid()
      modifies this
      ensures Valid() && iterations == old(iterations)
      ensures log == old(log) + [Entry(name, response)]
    {
      var stepBook := StepBook(books, name);
      var root := BookStep(books.root, response);
      stepBook := BookStep(stepBook, response);
      PlayedExtends(log, Entry(name, response));
      books, log := Totals(root, books.steps[name := stepBook]), log + [Entry(name, response)];
    }
  }

  /** Books one step that ran. */
  method BookStep(book: Counts, response: Option<Response>) returns (r: Counts)
    ensures r == Entered(book, response)
  {
    r := book.(planned := book.planned + 1);
    r := r.(started := r.started + 1);
    if response.Some? {
      r := r.(completed := r.completed + 1);
      r := Plus(r, Recorded(response.value));
    } else {
      r := r.(canceled := r.canceled + 1);
    }
  }

  // -- Virtual users -------------------------------------------------------------------

  datatype Exit = SawStop | Aborted | StillRunning

  /** The last step that ran failed, and its policy aborts the virtual user. */
  predicate AbortedLast(executed: seq<Execution>) {
    && executed != []
    && var last := executed[|executed| - 1];
       !last.result.succeeded && last.step.onFailure == AbortVu
  }

  lemma AbortShows(steps: seq<ScenarioStep>, before: seq<Execution>, executed: seq<Execution>, ending: Ending)
    requires before <= executed && IsPrefix(steps, Since(before, executed))
    requires ending.AbortedBy? && EndsWith(steps, Since(before, executed), ending)
    ensures AbortedLast(executed)
  {
    var ran := Since(before, executed);
    assert executed[|executed| - 1] == ran[|ran| - 1];
  }

  /** Starts one iteration and books how it went: as completed exactly when every step ran
      and succeeded, otherwise as failed. */
  method RunIteration(world: World, steps: seq<ScenarioStep>, book: UserBook) returns (ending: Ending)
    requires book.Valid() && world.book == book && Settled(book.iterations)
    modifies world, book
    ensures book.Valid() && Settled(book.iterations)
    ensures book.iterations.started == old(book.iterations.started) + 1
    ensures old(world.executed) <= world.executed && world.Later()
    ensures var completed := book.iterations.completed - old(book.iterations.completed);
            && 0 <= completed <= 1
            && Iterated(steps, Since(old(world.executed), world.executed), completed == 1, ending)
    ensures book.log == old(book.log) + Entries(Since(old(world.executed), world.executed))
  {
    var it := book.iterations;
    book.iterations := it.(planned := it.planned + 1, started := it.started + 1);
    var success;
    success, ending := ExecuteIteration(world, steps, book);
    it := book.iterations;
    if success {
      book.iterations := it.(completed := it.completed + 1);
    } else {
      book.iterations := it.(failed := it.failed + 1);
    }
  }

  /** Runs iterations until the stop signal is seen or a step aborts the user, watching at
      most `horizon` iterations. Every started iteration completes or fails, and at most
      one starts after the stop signal. */
  method RunUser(world: World, steps: seq<ScenarioStep>, thinkTime: int, book: UserBook, horizon: nat)
    returns (exit: Exit)
    requires book.Valid() && world.book == book && !world.stopped
    requires book.iterations == Iterations(0, 0, 0, 0)
    modifies world, book
    ensures book.Valid() && Settled(book.iterations)
    ensures world.stopped ==> book.iterations.started <= world.startedWhenStopped + 1
    ensures exit == StillRunning ==> book.iterations.started == horizon
    ensures exit == Aborted ==> AbortedLast(world.executed)
  {
    var i := 0;
    while i < horizon
      invariant i <= horizon && book.Valid() && Settled(book.iterations) && book.iterations.started == i
      invariant world.stopped ==> i <= world.startedWhenStopped + 1
    {
      var stop := world.StopSeen();
      if stop { return SawStop; }
      world.Elapse();
      ghost var before := world.executed;
      var ending := RunIteration(world, steps, book);
      if ending.AbortedBy? {
        AbortShows(steps, before, world.executed, ending);
        return Aborted;
      }
      stop := world.StopSeen();
      if stop { return SawStop; }
      if thinkTime > 0 {
        var elapsed := world.Think(thinkTime);
        if !elapsed { return SawStop; }
      }
      i := i + 1;
    }
    exit := StillRunning;
  }

  /** Between iterations, every one that was started has completed or failed. */
  predicate Settled(it: Iterations) {
    it.planned == it.started == it.completed + it.failed
  }

  // -- Laws ----------------------------------------------------------------------------

  lemma EnteredReading(book: Counts, response: Option<Response>, m: Metric)
    ensures Reading(Entered(book, response), m) == Reading(book, m) + Reading(Entered(ZERO, response), m)
  {
    if response.Some? {
      var b := book.(planned := book.planned + 1, started := book.started + 1, completed := book.completed + 1);
      var z := ZERO.(planned := 1, started := 1, completed := 1);
      ReadingOfPlus(b, Recorded(response.value), m);
      ReadingOfPlus(z, Recorded(response.value), m);
    }
  }

  /** A reading summed over the books of the given step names. */
  function SumOver(names: seq<string>, t: Totals, m: Metric): nat {
    if names == [] then 0
    else SumOver(names[..|names| - 1], t, m) + Reading(StepBook(t, names[|names| - 1]), m)
  }

  lemma StepReading(t: Totals, e: Entry, name: string, m: Metric)
    ensures Reading(StepBook(Enter(t, e), name), m)
         == Reading(StepBook(t, name), m) + if name == e.name then Reading(Entered(ZERO, e.response), m) else 0
  {
    if name == e.name { EnteredReading(StepBook(t, e.name), e.response, m); }
  }

  /** A step that ran adds to the sum over the books once, whatever the order of names. */
  lemma {:induction false} SumOverEnter(names: seq<string>, t: Totals, e: Entry, m: Metric)
    requires Distinct(names)
    ensures SumOver(names, Enter(t, e), m)
         == SumOver(names, t, m) + if e.name in names then Reading(Entered(ZERO, e.response), m) else 0
  {
    if names != [] {
      var front, last := names[..|names| - 1], names[|names| - 1];
      SumOverEnter(front, t, e, m);
      StepReading(t, e, last, m);
      DistinctLast(names, e.name);
    }
  }

  lemma DistinctLast(names: seq<string>, name: string)
    requires names != [] && Distinct(names)
    ensures name in names <==> name in names[..|names| - 1] || name == names[|names| - 1]
    ensures name in names[..|names| - 1] ==> name != names[|names| - 1]
  {
    assert names == names[..|names| - 1] + [names[|names| - 1]];
  }

  lemma {:induction false} SumOverNothing(names: seq<string>, m: Metric)
    ensures SumOver(names, Totals(ZERO, map[]), m) == 0
  {
    if names != [] { SumOverNothing(names[..|names| - 1], m); }
  }

  /** Every reading of the root book is the sum of that reading over the step books, in
      whatever order the step names are gone through. */
  lemma {:induction false} RootIsSum(log: seq<Entry>, names: seq<string>, m: Metric)
    requires Distinct(names) && forall k :: 0 <= k < |log| ==> log[k].name in names
    ensures SumOver(names, Played(log), m) == Reading(Played(log).root, m)
  {
    if log == [] {
      SumOverNothing(names, m);
    } else {
      var front, last := log[..|log| - 1], log[|log| - 1];
      RootIsSum(front, names, m);
      SumOverEnter(names, Played(front), last, m);
      EnteredReading(Played(front).root, last.response, m);
    }
  }

  /** The step books are those of exactly the steps that ran. */
  lemma {:induction false} StepsOfLog(log: seq<Entry>, name: string)
    ensures name in Played(log).steps <==> exists k :: 0 <= k < |log| && log[k].name == name
  {
    if log != [] {
      var front, last := log[..|log| - 1], log[|log| - 1];
      StepsOfLog(front, name);
      assert log == front + [last];
    }
  }

  /** In the root book and in every step book, what was planned was started, and everything
      started is completed or canceled, each completion with one outcome. */
  predicate Balanced(c: Counts) {
    c.planned == c.started == c.completed + c.canceled && |c.outcomes| == c.completed
  }

  lemma {:induction false} EnteredBalanced(book: Counts, response: Option<Response>)
    requires Balanced(book)
    ensures Balanced(Entered(book, response))
  {
    EnteredReading(book, response, AllOutcomes);
  }

  predicate AllBalanced(t: Totals) {
    Balanced(t.root) && forall name :: name in t.steps ==> Balanced(t.steps[name])
  }

  lemma {:induction false} BalancedUpdate(t: Totals, root: Counts, name: string, book: Counts)
    requires AllBalanced(t) && Balanced(root) && Balanced(book)
    ensures AllBalanced(Totals(root, t.steps[name := book]))
  {
  }

  lemma {:induction false} EnterBalanced(t: Totals, e: Entry)
    requires AllBalanced(t)
    ensures AllBalanced(Enter(t, e))
  {
    assert Balanced(StepBook(t, e.name));
    EnteredBalanced(t.root, e.response);
    EnteredBalanced(StepBook(t, e.name), e.response);
    BalancedUpdate(t, Entered(t.root, e.response), e.name, Entered(StepBook(t, e.name), e.response));
  }

  lemma {:induction false} PlayedBalanced(log: seq<Entry>)
    ensures AllBalanced(Played(log))
  {
    if log != [] {
      PlayedBalanced(log[..|log| - 1]);
      EnterBalanced(Played(log[..|log| - 1]), log[|log| - 1]);
    }
  }

  // -- Merging users -------------------------------------------------------------------

  /** The step names any user has a book for. */
  function StepNames(users: seq<Totals>): set<string> {
    if users == [] then {} else StepNames(users[..|users| - 1]) + users[|users| - 1].steps.Keys
  }

  /** The books of one step, over the users that have one. */
  function MergedStep(users: seq<Totals>, name: string): Counts {
    if users == [] then ZERO
    else
      var front, last := MergedStep(users[..|users| - 1], name), users[|users| - 1];
      if name in last.steps then Plus(front, last.steps[name]) else front
  }

  function MergedRoot(users: seq<Totals>): Counts {
    if users == [] then ZERO else Plus(MergedRoot(users[..|users| - 1]), users[|users| - 1].root)
  }

  /** Merges the step books of all users, step by step. */
  method MergeStepWorkers(users: seq<Totals>) returns (r: map<string, Counts>)
    ensures r.Keys == StepNames(users)
    ensures forall name :: name in r ==> r[name] == MergedStep(users, name)
  {
    var stepNames: set<string> := {};
    assert users[..|users|] == users;
    for i := 0 to |users|
      invariant stepNames == StepNames(users[..i])
    {
      assert users[..i + 1][..i] == users[..i];
      stepNames := stepNames + users[i].steps.Keys;
    }
    r := map[];
    var left := stepNames;
    while left != {}
      invariant left <= stepNames && r.Keys == stepNames - left
      invariant forall name :: name in r ==> r[name] == MergedStep(users, name)
      decreases |left|
    {
      var name :| name in left;
      var merged := MergeStep(users, name);
      r := r[name := merged];
      left := left - {name};
    }
  }

  method MergeStep(users: seq<Totals>, name: string) returns (c: Counts)
    ensures c == MergedStep(users, name)
  {
    c := ZERO;
    assert users[..|users|] == users;
    for i := 0 to |users|
      invariant c == MergedStep(users[..i], name)
    {
      assert users[..i + 1][..i] == users[..i];
      if name in users[i].steps {
        c := Plus(c, users[i].steps[name]);
      }
    }
  }

  function PlayedAll(logs: seq<seq<Entry>>): (r: seq<Totals>)
    ensures |r| == |logs|
  {
    if logs == [] then [] else PlayedAll(logs[..|logs| - 1]) + [Played(logs[|logs| - 1])]
  }

  function SumOfMerged(names: seq<string>, users: seq<Totals>, m: Metric): nat {
    if names == [] then 0
    else SumOfMerged(names[..|names| - 1], users, m) + Reading(MergedStep(users, names[|names| - 1]), m)
  }

  lemma {:induction false} SumOfMergedNobody(names: seq<string>, m: Metric)
    ensures SumOfMerged(names, [], m) == 0
  {
    if names != [] { SumOfMergedNobody(names[..|names| - 1], m); }
  }

  lemma {:induction false} SumOfMergedNext(names: seq<string>, users: seq<Totals>, t: Totals, m: Metric)
    ensures SumOfMerged(names, users + [t], m) == SumOfMerged(names, users, m) + SumOver(names, t, m)
  {
    if names != [] {
      var last := names[|names| - 1];
      SumOfMergedNext(names[..|names| - 1], users, t, m);
      assert (users + [t])[..|users|] == users;
      if last in t.steps { ReadingOfPlus(MergedStep(users, last), t.steps[last], m); }
    }
  }

  /** After merging all users, every reading of the root books is still the sum of that
      reading over the merged step books. */
  lemma {:induction false} MergedRootIsSum(logs: seq<seq<Entry>>, names: seq<string>, m: Metric)
    requires Distinct(names)
    requires forall i, k :: 0 <= i < |logs| && 0 <= k < |logs[i]| ==> logs[i][k].name in names
    ensures SumOfMerged(names, PlayedAll(logs), m) == Reading(MergedRoot(PlayedAll(logs)), m)
  {
    if logs == [] {
      SumOfMergedNobody(names, m);
    } else {
      var front, last := logs[..|logs| - 1], logs[|logs| - 1];
      MergedRootIsSum(front, names, m);
      SumOfMergedNext(names, PlayedAll(front), Played(last), m);
      assert forall k :: 0 <= k < |last| ==> last[k].name in names;
      RootIsSum(last, names, m);
      assert PlayedAll(logs)[..|front|] == PlayedAll(front);
      ReadingOfPlus(MergedRoot(PlayedAll(front)), Played(last).root, m);
    }
  }
}
