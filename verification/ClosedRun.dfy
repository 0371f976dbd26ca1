/** The closed workload in request mode: virtual users as interleaved atomic steps. A run is
    any schedule of events the guards allow. */
module ClosedRun {
  import opened Results
  import opened Arithmetic
  import opened Books

  datatype Reply = Answer(response: Response) | Failed

  datatype Phase =
    | Checking               // about to look for the stop signal
    | Cleared                // saw none, request not yet accounted for
    | Begun                  // accounted for, counter not yet raised
    | Executing
    | Lowering(reply: Reply) // executed, counter not yet lowered
    | Replied(reply: Reply)  // not yet recorded
    | Rechecking             // recorded
    | Thinking
    | Exited

  /** `late` and `failures` are history: requests accounted for after the stop signal, and
      recorded replies without a result. */
  datatype User = User(phase: Phase, book: Counts, late: nat, failures: nat)

  datatype State = State(stopped: bool, canceled: bool, inFlight: int, users: seq<User>)

  datatype Action = Check | Begin | Raise | Finish(reply: Reply) | Lower | Record | Recheck | Wake | Quit

  datatype Event = StopSignal | Cancel | ByUser(u: nat, action: Action)

  const STARTED := ZERO.(planned := 1, started := 1)

  /** What a reply adds to the books: any result completes the request, also a canceled one. */
  function Settled(r: Reply): Counts {
    match r
    case Answer(response) => Plus(ZERO.(completed := 1), Recorded(response))
    case Failed => ZERO.(canceled := 1)
  }

  const FRESH := User(Checking, ZERO, 0, 0)

  function Initial(users: nat): State {
    State(false, false, 0, Freshmen(users))
  }

  function Freshmen(users: nat): (r: seq<User>)
    ensures |r| == users && forall u :: 0 <= u < users ==> r[u] == FRESH
  {
    if users == 0 then [] else Freshmen(users - 1) + [FRESH]
  }

  /** What one user does next; `over` says that the stop signal or the end of the context
      can be seen. */
  function Act(user: User, stopped: bool, over: bool, thinks: bool, action: Action): Option<User> {
    match action
    case Check =>
      if user.phase.Checking? then Some(user.(phase := if over then Exited else Cleared)) else None
    case Begin =>
      if user.phase.Cleared?
      then Some(user.(phase := Begun, book := Plus(user.book, STARTED), late := user.late + Count(stopped)))
      else None
    case Raise =>
      if user.phase.Begun? then Some(user.(phase := Executing)) else None
    case Finish(reply) =>
      if user.phase.Executing? then Some(user.(phase := Lowering(reply))) else None
    case Lower =>
      if user.phase.Lowering? then Some(user.(phase := Replied(user.phase.reply))) else None
    case Record =>
      if user.phase.Replied?
      then Some(user.(phase := Rechecking, book := Plus(user.book, Settled(user.phase.reply)),
                      failures := user.failures + Count(user.phase.reply.Failed?)))
      else None
    case Recheck =>
      if user.phase.Rechecking?
      then Some(user.(phase := if over then Exited else if thinks then Thinking else Checking))
      else None
    case Wake =>
      if user.phase.Thinking? then Some(user.(phase := Checking)) else None
    case Quit =>
      if user.phase.Thinking? && over then Some(user.(phase := Exited)) else None
  }

  function Apply(thinks: bool, st: State, e: Event): Option<State> {
    match e
    case StopSignal => Some(st.(stopped := true))
    case Cancel => Some(st.(canceled := true))
    case ByUser(u, action) =>
      if u >= |st.users| then None
      else
        var next := Act(st.users[u], st.stopped, st.stopped || st.canceled, thinks, action);
        if next.None? then None
        else Some(st.(users := st.users[u := next.value],
                      inFlight := st.inFlight + (if action.Raise? then 1 else 0) - (if action.Lower? then 1 else 0)))
  }

  function Run(thinks: bool, st: State, schedule: seq<Event>): Option<State> {
    if schedule == [] then Some(st)
    else
      var before := Run(thinks, st, schedule[..|schedule| - 1]);
      if before.None? then None else Apply(thinks, before.value, schedule[|schedule| - 1])
  }

  /** The states a run with the given number of users can be in. */
  ghost predicate Reachable(users: nat, thinks: bool, st: State) {
    exists schedule :: Run(thinks, Initial(users), schedule) == Some(st)
  }

  // -- Invariant -----------------------------------------------------------------------

  /** A request counts as in flight between raising and lowering the counter. */
  function Flying(user: User): nat {
    Count(user.phase.Executing? || user.phase.Lowering?)
  }

  predicate Open(user: User) {
    user.phase.Begun? || user.phase.Executing? || user.phase.Lowering? || user.phase.Replied?
  }

  /** A user's books: what was planned was started; what was started is settled or open; each
      completion has one outcome; and canceled are the replies without a result. */
  predicate Balanced(user: User) {
    && user.book.planned == user.book.started == user.book.completed + user.book.canceled + Count(Open(user))
    && |user.book.outcomes| == user.book.completed
    && user.book.canceled == user.failures
  }

  /** A user that started a request after the stop signal can only finish it and leave. */
  predicate Punctual(user: User, stopped: bool) {
    && user.late <= 1
    && (user.late == 1 ==> stopped && (Open(user) || user.phase.Rechecking? || user.phase.Exited?))
  }

  function InFlightOf(users: seq<User>): nat {
    if users == [] then 0 else InFlightOf(users[..|users| - 1]) + Flying(users[|users| - 1])
  }

  ghost predicate Inv(users: nat, st: State) {
    && |st.users| == users
    && st.inFlight == InFlightOf(st.users)
    && forall u :: 0 <= u < users ==> Balanced(st.users[u]) && Punctual(st.users[u], st.stopped)
  }

  lemma {:induction false} InFlightUpdate(users: seq<User>, u: nat, user: User)
    requires u < |users|
    ensures InFlightOf(users[u := user]) + Flying(users[u]) == InFlightOf(users) + Flying(user)
  {
    var front, next := users[..|users| - 1], users[u := user];
    if u == |users| - 1 {
      assert next[..|users| - 1] == front;
    } else {
      assert next[..|users| - 1] == front[u := user];
      InFlightUpdate(front, u, user);
    }
  }

  lemma SettledReadings(r: Reply)
    ensures var c := Settled(r);
            && c.planned == 0 && c.started == 0 && c.completed + c.canceled == 1
            && |c.outcomes| == c.completed && c.canceled == Count(r.Failed?)
  {
  }

  lemma OutcomesAdd(a: Counts, b: Counts)
    ensures |Plus(a, b).outcomes| == |a.outcomes| + |b.outcomes|
  {
  }

  lemma BeginKeeps(user: User)
    requires Balanced(user) && !Open(user)
    ensures var book := Plus(user.book, STARTED);
            && book.planned == book.started == book.completed + book.canceled + 1
            && |book.outcomes| == book.completed && book.canceled == user.failures
  {
    OutcomesAdd(user.book, STARTED);
    assert STARTED.outcomes == multiset{};
  }

  /** What a step keeps of one user. */
  predicate Kept(user: User, next: User, stopped: bool, action: Action) {
    && Balanced(next) && Punctual(next, stopped)
    && Flying(next) == Flying(user) + Count(action.Raise?) - Count(action.Lower?)
  }

  lemma BeginningKeeps(user: User, next: User, stopped: bool, over: bool, thinks: bool)
    requires Act(user, stopped, over, thinks, Begin) == Some(next)
    requires Balanced(user) && Punctual(user, stopped)
    ensures Kept(user, next, stopped, Begin)
  {
    BeginKeeps(user);
  }

  /** The readings of a user's books once its open request is settled. */
  predicate SettledBook(book: Counts, failures: nat) {
    && book.planned == book.started == book.completed + book.canceled
    && |book.outcomes| == book.completed && book.canceled == failures
  }

  lemma BookSettled(user: User, reply: Reply, book: Counts)
    requires Balanced(user) && Open(user) && book == Plus(user.book, Settled(reply))
    ensures SettledBook(book, user.failures + Count(reply.Failed?))
  {
    SettledReadings(reply);
    OutcomesAdd(user.book, Settled(reply));
  }

  lemma SettledKeeps(user: User, next: User, stopped: bool)
    requires user.phase.Replied? && Punctual(user, stopped)
    requires next.phase.Rechecking? && next.late == user.late && SettledBook(next.book, next.failures)
    ensures Kept(user, next, stopped, Record)
  {
  }

  lemma RecordingKeeps(user: User, next: User, stopped: bool, over: bool, thinks: bool)
    requires Act(user, stopped, over, thinks, Record) == Some(next)
    requires Balanced(user) && Punctual(user, stopped)
    ensures Kept(user, next, stopped, Record)
  {
    BookSettled(user, user.phase.reply, next.book);
    SettledKeeps(user, next, stopped);
  }

  lemma MovingKeeps(user: User, next: User, stopped: bool, over: bool, thinks: bool, action: Action)
    requires Act(user, stopped, over, thinks, action) == Some(next) && (stopped ==> over)
    requires !action.Begin? && !action.Record?
    requires Balanced(user) && Punctual(user, stopped)
    ensures Kept(user, next, stopped, action)
  {
    assert next == user.(phase := next.phase) && Open(next) == Open(user);
  }

  lemma ActKeeps(user: User, next: User, stopped: bool, over: bool, thinks: bool, action: Action)
    requires Act(user, stopped, over, thinks, action) == Some(next) && (stopped ==> over)
    requires Balanced(user) && Punctual(user, stopped)
    ensures Kept(user, next, stopped, action)
  {
    if action.Begin? {
      BeginningKeeps(user, next, stopped, over, thinks);
    } else if action.Record? {
      RecordingKeeps(user, next, stopped, over, thinks);
    } else {
      MovingKeeps(user, next, stopped, over, thinks, action);
    }
  }

  lemma InvStep(users: nat, thinks: bool, st: State, next: State, e: Event)
    requires Inv(users, st) && Apply(thinks, st, e) == Some(next)
    ensures Inv(users, next)
  {
    match e
    case StopSignal =>
    case Cancel =>
    case ByUser(u, action) =>
      ActKeeps(st.users[u], next.users[u], st.stopped, st.stopped || st.canceled, thinks, action);
      InFlightUpdate(st.users, u, next.users[u]);
  }

  lemma {:induction false} InvInitial(users: nat)
    ensures Inv(users, Initial(users))
  {
    forall u | 0 <= u < users
      ensures Balanced(Freshmen(users)[u]) && Punctual(Freshmen(users)[u], false)
      ensures Flying(Freshmen(users)[u]) == 0
    {
      FreshBalanced(Freshmen(users)[u]);
    }
    NobodyFlies(Freshmen(users));
  }

  lemma FreshBalanced(user: User)
    requires user == FRESH
    ensures Balanced(user) && Punctual(user, false) && Flying(user) == 0
  {
    assert user.book.outcomes == multiset{};
  }

  lemma {:induction false} NobodyFlies(users: seq<User>)
    requires forall u :: 0 <= u < |users| ==> Flying(users[u]) == 0
    ensures InFlightOf(users) == 0
  {
    if users != [] { NobodyFlies(users[..|users| - 1]); }
  }

  lemma {:induction false} InvRun(users: nat, thinks: bool, schedule: seq<Event>)
    requires Run(thinks, Initial(users), schedule).Some?
    ensures Inv(users, Run(thinks, Initial(users), schedule).value)
  {
    if schedule == [] {
      InvInitial(users);
    } else {
      var front := schedule[..|schedule| - 1];
      InvRun(users, thinks, front);
      var before := Run(thinks, Initial(users), front).value;
      InvStep(users, thinks, before, Apply(thinks, before, schedule[|schedule| - 1]).value, schedule[|schedule| - 1]);
    }
  }

  lemma ReachableInv(users: nat, thinks: bool, st: State)
    requires Reachable(users, thinks, st)
    ensures Inv(users, st)
  {
    var schedule :| Run(thinks, Initial(users), schedule) == Some(st);
    InvRun(users, thinks, schedule);
  }

  // -- Theorems ------------------------------------------------------------------------

  lemma {:induction false} InFlightAtMost(users: seq<User>)
    ensures InFlightOf(users) <= |users|
  {
    if users != [] { InFlightAtMost(users[..|users| - 1]); }
  }

  /** In flight is exactly what users are executing, never more than there are users; every
      user's books balance; and no user starts more than one request after the stop signal. */
  lemma AlwaysBalanced(users: nat, thinks: bool, st: State)
    requires Reachable(users, thinks, st)
    ensures |st.users| == users && 0 <= st.inFlight == InFlightOf(st.users) <= users
    ensures forall u :: 0 <= u < users ==> Balanced(st.users[u]) && st.users[u].late <= 1
  {
    ReachableInv(users, thinks, st);
    InFlightAtMost(st.users);
  }

  function Merged(users: seq<User>): Counts {
    if users == [] then ZERO else Plus(Merged(users[..|users| - 1]), users[|users| - 1].book)
  }

  function FailuresOf(users: seq<User>): nat {
    if users == [] then 0 else FailuresOf(users[..|users| - 1]) + users[|users| - 1].failures
  }

  /** When all users have left, nothing is in flight, and in the merged books everything
      planned was started and everything started completed or was canceled. Each completion
      has one outcome, also a canceled one, and canceled are exactly the replies without a
      result. So completed and canceled requests are told apart as in an open run if and
      only if no response was canceled. */
  lemma FinalCounts(users: nat, thinks: bool, st: State)
    requires Reachable(users, thinks, st) && forall u :: 0 <= u < |st.users| ==> st.users[u].phase.Exited?
    ensures st.inFlight == 0
    ensures Final(st.users)
    ensures var c := Merged(st.users);
            && (c.completed == |c.outcomes| - c.outcomes[Canceled] <==> Canceled !in c.outcomes)
            && (c.canceled == c.outcomes[Canceled] + FailuresOf(st.users) <==> Canceled !in c.outcomes)
  {
    ReachableInv(users, thinks, st);
    NobodyFlies(st.users);
    MergedBalanced(st.users);
  }

  predicate Final(users: seq<User>) {
    var c := Merged(users);
    && c.planned == c.started == c.completed + c.canceled
    && |c.outcomes| == c.completed && c.canceled == FailuresOf(users)
  }

  lemma {:induction false} MergedBalanced(users: seq<User>)
    requires forall u :: 0 <= u < |users| ==> Balanced(users[u]) && !Open(users[u])
    ensures Final(users)
  {
    if users != [] {
      var front, last := users[..|users| - 1], users[|users| - 1];
      MergedBalanced(front);
      assert Balanced(last) && !Open(last);
      OutcomesAdd(Merged(front), last.book);
    }
  }

  /** A reachable state of a run of one user in the given phase, with no stop signal. */
  ghost predicate AloneIn(st: State, phase: Phase) {
    Reachable(1, false, st) && |st.users| == 1 && !st.stopped && !st.canceled && st.users[0].phase == phase
  }

  lemma AloneStarts() returns (st: State)
    ensures AloneIn(st, Checking)
  {
    st := Initial(1);
    assert Run(false, Initial(1), []) == Some(st);
  }

  lemma AloneActs(st: State, action: Action) returns (next: State)
    requires st.users != [] && AloneIn(st, st.users[0].phase) && Act(st.users[0], false, false, false, action).Some?
    ensures AloneIn(next, Act(st.users[0], false, false, false, action).value.phase)
  {
    next := Apply(false, st, ByUser(0, action)).value;
    var schedule :| Run(false, Initial(1), schedule) == Some(st);
    assert (schedule + [ByUser(0, action)])[..|schedule|] == schedule;
    assert Run(false, Initial(1), schedule + [ByUser(0, action)]) == Some(next);
  }

  /** Any response, a canceled one too, can be waiting to be recorded. */
  lemma AnyAnswerReachable(response: Response) returns (st: State)
    ensures AloneIn(st, Replied(Answer(response)))
  {
    st := AloneStarts();
    st := AloneActs(st, Check);
    st := AloneActs(st, Begin);
    st := AloneActs(st, Raise);
    st := AloneActs(st, Finish(Answer(response)));
    st := AloneActs(st, Lower);
  }

  /** Recording it counts a completion and no cancellation, whatever its outcome. */
  lemma CanceledCompletes(thinks: bool, st: State, next: State, u: nat, response: Response)
    requires u < |st.users| && st.users[u].phase == Replied(Answer(response)) && response.outcome == Canceled
    requires Apply(thinks, st, ByUser(u, Record)) == Some(next)
    ensures next.users[u].book.completed == st.users[u].book.completed + 1
    ensures next.users[u].book.canceled == st.users[u].book.canceled
    ensures next.users[u].book.outcomes[Canceled] == st.users[u].book.outcomes[Canceled] + 1
  {
    SettledReadings(Answer(response));
  }

  // -- Draining ------------------------------------------------------------------------

  /** Steps a user can still take once the stop signal is given. */
  function StepsLeft(user: User): nat {
    match user.phase
    case Cleared => 7
    case Begun => 6
    case Executing => 5
    case Lowering(_) => 4
    case Replied(_) => 3
    case Rechecking => 2
    case Thinking => 2
    case Checking => 1
    case Exited => 0
  }

  function Remaining(users: seq<User>): nat {
    if users == [] then 0 else Remaining(users[..|users| - 1]) + StepsLeft(users[|users| - 1])
  }

  lemma {:induction false} RemainingUpdate(users: seq<User>, u: nat, user: User)
    requires u < |users|
    ensures Remaining(users[u := user]) + StepsLeft(users[u]) == Remaining(users) + StepsLeft(user)
  {
    var front, next := users[..|users| - 1], users[u := user];
    if u == |users| - 1 {
      assert next[..|users| - 1] == front;
    } else {
      assert next[..|users| - 1] == front[u := user];
      RemainingUpdate(front, u, user);
    }
  }

  /** After the stop signal every step of a user brings the end nearer. */
  lemma DrainDecreases(thinks: bool, st: State, next: State, e: Event)
    requires st.stopped && e.ByUser? && Apply(thinks, st, e) == Some(next)
    ensures Remaining(next.users) < Remaining(st.users) && next.stopped
  {
    RemainingUpdate(st.users, e.u, next.users[e.u]);
  }

  /** What a user that has not left does next. */
  function NextAction(user: User, over: bool): Action
    requires !user.phase.Exited?
  {
    match user.phase
    case Checking => Check
    case Cleared => Begin
    case Begun => Raise
    case Executing => Finish(Failed)
    case Lowering(_) => Lower
    case Replied(_) => Record
    case Rechecking => Recheck
    case Thinking => if over then Quit else Wake
  }

  /** No user is ever stuck: while one has not left, it can take a step. */
  lemma NeverStuck(thinks: bool, st: State, u: nat)
    requires u < |st.users| && !st.users[u].phase.Exited?
    ensures Apply(thinks, st, ByUser(u, NextAction(st.users[u], st.stopped || st.canceled))).Some?
  {
  }

  lemma {:induction false} RemainingAtMost(users: seq<User>)
    ensures Remaining(users) <= 7 * |users|
  {
    if users != [] { RemainingAtMost(users[..|users| - 1]); }
  }

  /** So a drain takes at most seven steps per user, whatever the interleaving. */
  lemma {:induction false} DrainBounded(thinks: bool, st: State, schedule: seq<Event>)
    requires st.stopped && (forall e :: e in schedule ==> e.ByUser?) && Run(thinks, st, schedule).Some?
    ensures Run(thinks, st, schedule).value.stopped
    ensures |schedule| + Remaining(Run(thinks, st, schedule).value.users) <= Remaining(st.users) <= 7 * |st.users|
  {
    RemainingAtMost(st.users);
    if schedule != [] {
      var front, last := schedule[..|schedule| - 1], schedule[|schedule| - 1];
      DrainBounded(thinks, st, front);
      DrainDecreases(thinks, Run(thinks, st, front).value, Run(thinks, st, schedule).value, last);
    }
  }
}
