/** The run lifecycle: its legal transitions, and the path an open run takes through it. */
module Lifecycle {
  import opened Results
  import Profile
  import Validation

  datatype LifecycleState = Initialized | Warmup | Running | Cooldown | GracefulStop | Canceled | Completed {
    predicate CanTransitionTo(next: LifecycleState) {
      match this
      case Initialized => next == Warmup || next == Running || next == Canceled
      case Warmup => next == Running || next == GracefulStop || next == Canceled
      case Running => next == Cooldown || next == GracefulStop || next == Canceled || next == Completed
      case Cooldown => next == GracefulStop || next == Canceled
      case GracefulStop => next == Completed || next == Canceled
      case Canceled => next == Completed
      case Completed => false
    }

    function Rank(): (r: nat)
      ensures r <= 6
    {
      match this
      case Initialized => 0
      case Warmup => 1
      case Running => 2
      case Cooldown => 3
      case GracefulStop => 4
      case Canceled => 5
      case Completed => 6
    }
  }

  /** A transition is legal exactly when it goes up in rank, does not leave the initial or
      the warmup state for one that needs measuring first, and does not complete a run that
      was neither stopped nor canceled outside Running. */
  lemma LegalIffUpward(a: LifecycleState, b: LifecycleState)
    ensures a.CanTransitionTo(b) <==>
      && a.Rank() < b.Rank()
      && !(a.Initialized? && (b.Cooldown? || b.GracefulStop? || b.Completed?))
      && !(a.Warmup? && (b.Cooldown? || b.Completed?))
      && !(a.Cooldown? && b.Completed?)
  {
  }

  // -- Histories ---------------------------------------------------------------------

  ghost predicate LegalHistory(h: seq<LifecycleState>) {
    forall k :: 0 < k < |h| ==> h[k - 1].CanTransitionTo(h[k])
  }

  /** Along any legal history the rank strictly increases, so no state is visited twice,
      and a history has at most seven states. */
  lemma {:induction false} NoRevisit(h: seq<LifecycleState>, i: nat, j: nat)
    requires LegalHistory(h) && i < j < |h|
    ensures h[i].Rank() + (j - i) <= h[j].Rank()
    ensures h[i] != h[j] && j - i <= 6
  {
    if i < j - 1 { NoRevisit(h, i, j - 1); }
    assert h[j - 1].CanTransitionTo(h[j]);
  }

  class LifecycleStateMachine {
    var current: LifecycleState
    ghost var history: seq<LifecycleState>

    ghost predicate Valid()
      reads this
    {
      history != [] && history[0] == Initialized && history[|history| - 1] == current && LegalHistory(history)
    }

    constructor ()
      ensures Valid() && current == Initialized && history == [Initialized]
    {
      current := Initialized;
      history := [Initialized];
    }

    /** Moves only along legal transitions; an illegal one is refused and changes nothing. */
    method TransitionTo(next: LifecycleState) returns (moved: bool)
      requires Valid()
      modifies this
      ensures Valid()
      ensures moved <==> old(current).CanTransitionTo(next)
      ensures current == (if moved then next else old(current))
      ensures history == (if moved then old(history) + [next] else old(history))
    {
      if !current.CanTransitionTo(next) { return false; }
      current := next;
      history := history + [next];
      moved := true;
    }

    /** Enters the state of a profile stage. */
    method EnterStage(stage: string) returns (entered: bool)
      requires Valid()
      modifies this
      ensures Valid()
      ensures entered <==> Entered(old(current), stage).Some?
      ensures current == (if entered then Entered(old(current), stage).value else old(current))
      ensures old(history) <= history && (!entered ==> history == old(history))
    {
      if stage == Profile.WARMUP {
        entered := TransitionTo(Warmup);
      } else if stage == Profile.MEASURED {
        entered := TransitionTo(Running);
      } else if stage == Profile.COOLDOWN {
        entered := TransitionTo(Cooldown);
      } else {
        entered := false;
      }
    }

    /** The lifecycle of one run over segments with the given stages: `stop` is the segment
        whose scheduling is canceled, if any, and `drain` how the wait for workers ends. */
    method Run(stages: seq<string>, stop: Option<nat>, drain: Drain) returns (outcome: RunOutcome)
      requires Valid() && stages != []
      modifies this
      ensures Valid() && old(history) <= history
      ensures outcome == StartRefused <==> Entered(old(current), stages[0]).None?
      ensures outcome == StartRefused ==> current == old(current) && history == old(history)
      ensures outcome == Finished <==> Through(old(current), stages, Visited(stages, stop)).Some?
      ensures outcome == Finished ==> current == Completed
      ensures outcome.StageRefused? ==>
        && 0 < outcome.segment < Visited(stages, stop)
        && Through(old(current), stages, outcome.segment) == Some(current)
        && Through(old(current), stages, outcome.segment + 1) == None
    {
      var started := EnterStage(stages[0]);
      if !started {
        ThroughNeedsEarlier(old(current), stages, 1, Visited(stages, stop));
        return StartRefused;
      }
      var hardCanceled, previousStage, i := false, stages[0], 0;
      while i < |stages| && !hardCanceled
        invariant Valid() && old(history) <= history
        invariant i <= Visited(stages, stop) && (hardCanceled ==> i == Visited(stages, stop))
        invariant i < |stages| && !hardCanceled ==> i < Visited(stages, stop)
        invariant Through(old(current), stages, if i == 0 then 1 else i) == Some(current)
        invariant previousStage == stages[if i == 0 then 0 else i - 1]
      {
        if stages[i] != previousStage {
          var entered := EnterStage(stages[i]);
          if !entered {
            ThroughNeedsEarlier(old(current), stages, i + 1, Visited(stages, stop));
            return StageRefused(i);
          }
          previousStage := stages[i];
        }
        hardCanceled := stop == Some(i);
        i := i + 1;
      }
      ThroughIsActive(old(current), stages, i);
      Finish(hardCanceled, drain);
      outcome := Finished;
    }

    /** The lifecycle of a closed run, which has one stage. */
    method RunClosed(hardCanceled: bool, drain: Drain) returns (started: bool)
      requires Valid()
      modifies this
      ensures Valid() && old(history) <= history
      ensures started <==> old(current) in {Initialized, Warmup}
      ensures if started then current == Completed else current == old(current) && history == old(history)
    {
      started := TransitionTo(Running);
      if started { Finish(hardCanceled, drain); }
    }

    /** The end of a run: graceful or canceled, it completes. */
    method Finish(hardCanceled: bool, drain: Drain)
      requires Valid() && current in {Warmup, Running, Cooldown}
      modifies this
      ensures Valid() && current == Completed
      ensures history == old(history)
        + (if hardCanceled then [] else [GracefulStop])
        + (if hardCanceled || drain == Interrupted then [Canceled] else [])
        + [Completed]
    {
      if hardCanceled {
        var _ := TransitionTo(Canceled);
      } else {
        var _ := TransitionTo(GracefulStop);
        if drain == Interrupted {
          var _ := TransitionTo(Canceled);
        }
      }
      var _ := TransitionTo(Completed);
    }
  }

  // -- Stages ------------------------------------------------------------------------

  /** How the wait for the workers ends: they finish, the grace period expires, or the
      context is canceled meanwhile. */
  datatype Drain = WorkersDone | GraceExpired | Interrupted

  datatype RunOutcome = StartRefused | StageRefused(segment: nat) | Finished

  function StateOf(stage: string): Option<LifecycleState> {
    if stage == Profile.WARMUP then Some(Warmup)
    else if stage == Profile.MEASURED then Some(Running)
    else if stage == Profile.COOLDOWN then Some(Cooldown)
    else None
  }

  function Entered(state: LifecycleState, stage: string): Option<LifecycleState> {
    var next := StateOf(stage);
    if next.Some? && state.CanTransitionTo(next.value) then next else None
  }

  /** The state after the first `n` segments: only a change of stage enters a state. */
  function Through(state: LifecycleState, stages: seq<string>, n: nat): Option<LifecycleState>
    requires n <= |stages|
  {
    if n == 0 then Some(state)
    else
      var before := Through(state, stages, n - 1);
      if before.None? then None
      else if n > 1 && stages[n - 1] == stages[n - 2] then before
      else Entered(before.value, stages[n - 1])
  }

  /** Segments reached before a run is canceled at segment `stop`. */
  function Visited(stages: seq<string>, stop: Option<nat>): nat {
    if stop.Some? && stop.value < |stages| then stop.value + 1 else |stages|
  }

  lemma {:induction false} ThroughNeedsEarlier(state: LifecycleState, stages: seq<string>, m: nat, n: nat)
    requires m <= n <= |stages| && Through(state, stages, m).None?
    ensures Through(state, stages, n).None?
  {
    if m < n { ThroughNeedsEarlier(state, stages, m, n - 1); }
  }

  lemma {:induction false} ThroughIsActive(state: LifecycleState, stages: seq<string>, n: nat)
    requires 0 < n <= |stages| && Through(state, stages, n).Some?
    ensures Through(state, stages, n) == StateOf(stages[n - 1])
    ensures Through(state, stages, n).value in {Warmup, Running, Cooldown}
  {
    if n > 1 { ThroughIsActive(state, stages, n - 1); }
  }

  /** Stage lists a fresh run gets through: they start with warmup or measured, and change
      only from warmup to measured and from measured to cooldown. */
  ghost predicate Enterable(stages: seq<string>, n: nat)
    requires 0 < n <= |stages|
  {
    && (stages[0] == Profile.WARMUP || stages[0] == Profile.MEASURED)
    && forall k :: 0 < k < n ==>
      || stages[k] == stages[k - 1]
      || (stages[k - 1] == Profile.WARMUP && stages[k] == Profile.MEASURED)
      || (stages[k - 1] == Profile.MEASURED && stages[k] == Profile.COOLDOWN)
  }

  /** A fresh scheduler gets through its segments exactly when the stages are enterable. */
  lemma {:induction false} ThroughIffEnterable(stages: seq<string>, n: nat)
    requires 0 < n <= |stages|
    ensures Through(Initialized, stages, n).Some? <==> Enterable(stages, n)
  {
    if n > 1 {
      ThroughIffEnterable(stages, n - 1);
      if Through(Initialized, stages, n - 1).Some? { ThroughIsActive(Initialized, stages, n - 1); }
    } else {
      assert Through(Initialized, stages, 0) == Some(Initialized);
    }
  }

  // -- Validation makes the machine error-free -------------------------------------------

  function Stages(segments: seq<Profile.Segment>): (r: seq<string>)
    ensures |r| == |segments|
  {
    seq(|segments|, k requires 0 <= k < |segments| => segments[k].stage)
  }

  ghost predicate Ascending(stages: seq<string>) {
    && (forall k :: 0 <= k < |stages| ==> Profile.Rank(stages[k]) >= 0)
    && (forall j, k :: 0 <= j < k < |stages| ==> Profile.Rank(stages[j]) <= Profile.Rank(stages[k]))
  }

  /** Ascending stages with a measured one among them start early and skip nothing. */
  lemma AscendingEnterable(stages: seq<string>, m: nat, n: nat)
    requires Ascending(stages) && m < |stages| && stages[m] == Profile.MEASURED && 0 < n <= |stages|
    ensures Enterable(stages, n)
  {
    forall k | 0 < k < n
      ensures Profile.Rank(stages[k]) <= Profile.Rank(stages[k - 1]) + 1
    {
      if k <= m {
        assert Profile.Rank(stages[k]) <= 1;
      } else {
        assert Profile.Rank(stages[k - 1]) >= 1;
      }
    }
    assert Profile.Rank(stages[0]) <= 1;
  }

  /** Whatever validates and compiles is enterable, up to any segment. */
  lemma ValidatedEnterable(source: seq<Profile.SourceSegment>, timeUnit: int, n: nat)
    requires Validation.Admissible(source) && timeUnit > 0
    requires 0 < n <= Profile.Cut(source, |source|)
    ensures Enterable(Stages(Profile.Compiled(source, |source|, timeUnit).segments), n)
  {
    var stages := Stages(Profile.Compiled(source, |source|, timeUnit).segments);
    var m := MeasuredPosition(source, timeUnit);
    forall j, k | 0 <= j <= k < |stages|
      ensures 0 <= Profile.Rank(stages[j]) <= Profile.Rank(stages[k])
    {
      Profile.CompiledStagesAscend(source, timeUnit, j, k);
    }
    AscendingEnterable(stages, m, n);
  }

  lemma MeasuredPosition(source: seq<Profile.SourceSegment>, timeUnit: int) returns (m: nat)
    requires Validation.Admissible(source) && timeUnit > 0
    ensures m < Profile.Cut(source, |source|)
    ensures Profile.Compiled(source, |source|, timeUnit).segments[m].stage == Profile.MEASURED
  {
    var i :| 0 <= i < |source| && source[i].stage == Profile.MEASURED;
    assert Validation.IsConstant(source[i]) || Validation.IsRamp(source[i]);
    Profile.CompiledAt(source, |source|, timeUnit, i, 0);
    m := Profile.Cut(source, i);
  }

  /** A fresh scheduler built from a validated profile gets through its stages wherever it
      is canceled, so its run finishes; afterwards a second run is refused. */
  lemma ValidatedRunFinishes(source: seq<Profile.SourceSegment>, timeUnit: int, stop: Option<nat>)
    requires Validation.Admissible(source) && timeUnit > 0
    ensures var stages := Stages(Profile.Compiled(source, |source|, timeUnit).segments);
            && stages != []
            && Through(Initialized, stages, Visited(stages, stop)).Some?
            && Entered(Completed, stages[0]).None?
  {
    var stages := Stages(Profile.Compiled(source, |source|, timeUnit).segments);
    var _ := MeasuredPosition(source, timeUnit);
    ValidatedEnterable(source, timeUnit, Visited(stages, stop));
    EnterableFinishes(stages, stop);
  }

  lemma EnterableFinishes(stages: seq<string>, stop: Option<nat>)
    requires stages != [] && Enterable(stages, Visited(stages, stop))
    ensures Through(Initialized, stages, Visited(stages, stop)).Some? && Entered(Completed, stages[0]).None?
  {
    ThroughIffEnterable(stages, Visited(stages, stop));
  }
}
