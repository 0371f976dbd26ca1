/** The hard ceilings a load must respect, and what they imply for a whole open run. */
module Preflight {
  import opened Arithmetic
  import opened Results
  import opened Decimal
  import opened Profile
  import opened Pacing
  import Validation
  import Lifecycle
  import OpenRun
  import Theorems = OpenRunTheorems

  const MAX_ALLOWED_DURATION := 86_400 * NS_PER_SECOND
  const MAX_ALLOWED_RATE := 1_000_000.0
  const MAX_ALLOWED_USERS := 100_000
  const MAX_ALLOWED_IN_FLIGHT := 100_000

  datatype LoadConfig = LoadConfig(
    rate: real, timeUnit: Int64, maxInFlight: Int64, duration: Int64, users: Int64, segments: seq<SourceSegment>)

  datatype Refusal =
    | NotCompilable(error: ProfileError)
    | DurationTooLong
    | RateTooHigh
    | TooManyUsers
    | TooManyInFlight

  /** The source segments of a load; a plain load is one measured segment. */
  function SourceOf(load: LoadConfig): seq<SourceSegment> {
    if load.segments == [] then [SourceSegment("measured", MEASURED, load.duration, load.rate, 0.0, 0.0, 0)]
    else load.segments
  }

  ghost predicate DurationPermitted(load: LoadConfig)
    requires load.segments != [] ==> load.timeUnit > 0
  {
    (if load.segments == [] then load.duration
     else Compiled(load.segments, |load.segments|, load.timeUnit).totalDuration) <= MAX_ALLOWED_DURATION
  }

  /** Of a profile, it is each compiled segment's rate that must be within the ceiling. */
  ghost predicate RatesPermitted(load: LoadConfig)
    requires load.segments != [] ==> load.timeUnit > 0
  {
    if load.segments == [] then
      (if load.timeUnit > 0 then TargetRps(load.rate, load.timeUnit) else load.rate) <= MAX_ALLOWED_RATE
    else
      var segments := Compiled(load.segments, |load.segments|, load.timeUnit).segments;
      forall k :: 0 <= k < |segments| ==> segments[k].targetRps <= MAX_ALLOWED_RATE
  }

  ghost predicate Compilable(load: LoadConfig) {
    load.segments != [] ==> Compiles(load.segments, load.timeUnit)
  }

  /** Within every ceiling. */
  ghost predicate Permitted(load: LoadConfig) {
    && Compilable(load)
    && DurationPermitted(load) && RatesPermitted(load)
    && load.users <= MAX_ALLOWED_USERS
    && load.maxInFlight <= MAX_ALLOWED_IN_FLIGHT
  }

  /** What a refusal says: the ceiling it names is the first one that is exceeded. */
  ghost predicate Justified(refusal: Refusal, load: LoadConfig) {
    match refusal
    case NotCompilable(error) => load.segments != [] && Explains(error, load.segments, load.timeUnit)
    case DurationTooLong => Compilable(load) && !DurationPermitted(load)
    case RateTooHigh => Compilable(load) && DurationPermitted(load) && !RatesPermitted(load)
    case TooManyUsers =>
      Compilable(load) && DurationPermitted(load) && RatesPermitted(load) && load.users > MAX_ALLOWED_USERS
    case TooManyInFlight =>
      && Compilable(load) && DurationPermitted(load) && RatesPermitted(load) && load.users <= MAX_ALLOWED_USERS
      && load.maxInFlight > MAX_ALLOWED_IN_FLIGHT
  }

  /** Accepts exactly the permitted loads, and refuses others for the first reason. */
  method CheckCeilings(load: LoadConfig) returns (refusal: Option<Refusal>)
    ensures refusal.None? <==> Permitted(load)
    ensures refusal.Some? ==> Justified(refusal.value, load)
  {
    var effectiveDuration, peak := load.duration, load.rate;
    if load.timeUnit > 0 {
      peak := TargetRps(load.rate, load.timeUnit);
    }
    if |load.segments| > 0 {
      var compiled := Compile(load.segments, load.timeUnit);
      if compiled.Failure? { return Some(NotCompilable(compiled.error)); }
      effectiveDuration, peak := compiled.value.totalDuration, compiled.value.peakTargetRps;
    }
    if effectiveDuration > MAX_ALLOWED_DURATION { return Some(DurationTooLong); }
    if peak > MAX_ALLOWED_RATE { return Some(RateTooHigh); }
    if load.users > MAX_ALLOWED_USERS { return Some(TooManyUsers); }
    if load.maxInFlight > MAX_ALLOWED_IN_FLIGHT { return Some(TooManyInFlight); }
    refusal := None;
  }

  ghost predicate PermittedProfile(c: Compilation) {
    && c.totalDuration <= MAX_ALLOWED_DURATION
    && forall k :: 0 <= k < |c.segments| ==> c.segments[k].targetRps <= MAX_ALLOWED_RATE
  }

  // -- What the ceilings imply -----------------------------------------------------------

  /** A rate within the ceiling leaves at least a microsecond between requests. */
  lemma IntervalFloor(rate: real, timeUnit: int)
    requires rate > 0.0 && timeUnit > 0 && TargetRps(rate, timeUnit) <= MAX_ALLOWED_RATE
    ensures Interval(rate, timeUnit) >= 1000
  {
    var unit, perSecond := timeUnit as real, NS_PER_SECOND as real;
    var seconds := unit / perSecond;
    assert seconds * perSecond == unit;
    assert rate <= MAX_ALLOWED_RATE * seconds by { DivideTimes(rate, seconds); }
    assert 1000.0 * rate <= unit;
    DivideAtLeast(unit, rate, 1000.0);
  }

  lemma DivideTimes(p: real, q: real)
    requires q > 0.0
    ensures p / q * q == p
  {
  }

  lemma DivideAtLeast(p: real, q: real, bound: real)
    requires q > 0.0 && bound * q <= p
    ensures p / q >= bound
  {
    DivideTimes(p, q);
    if p / q < bound { TimesLess(p / q, bound, q); }
  }

  lemma TimesLess(a: real, b: real, q: real)
    requires a < b && q > 0.0
    ensures a * q < b * q
  {
    assert (b - a) * q > 0.0;
  }

  /** The window a segment is paced in. */
  function WindowOf(s: Segment, timeUnit: int, start: int): Window {
    Window(start + s.startOffset, start + s.endOffset, if s.rate > 0.0 then Interval(s.rate, timeUnit) else 0)
  }

  function Windows(segments: seq<Segment>, timeUnit: int, start: int): (r: seq<Window>)
    ensures |r| == |segments|
    ensures forall k :: 0 <= k < |segments| ==> r[k] == WindowOf(segments[k], timeUnit, start)
  {
    seq(|segments|, k requires 0 <= k < |segments| => WindowOf(segments[k], timeUnit, start))
  }

  lemma CapacityOfMicroseconds(w: Window)
    requires w.interval >= 1000 && w.start < w.end
    ensures 1000 * Capacity(w) <= w.end - w.start + 999
  {
    var d := w.end - w.start;
    var q := (d + 999) / 1000;
    MulMonotone(1000, w.interval, q);
    CeilDivLeast(d, w.interval, q);
  }

  /** Contiguous segments of at most one request a microsecond have room for one request
      per microsecond of the profile, and one more per segment. */
  lemma {:induction false} CapacityBounded(segments: seq<Segment>, total: int, timeUnit: int, start: int)
    requires timeUnit > 0 && Contiguous(segments, total, timeUnit)
    requires forall k :: 0 <= k < |segments| ==> segments[k].targetRps <= MAX_ALLOWED_RATE
    ensures forall k :: 0 <= k < |segments| ==> Windows(segments, timeUnit, start)[k].interval >= 1000
    ensures 1000 * CapacityTotal(Windows(segments, timeUnit, start)) <= total + 999 * |segments|
  {
    if segments != [] {
      var last := segments[|segments| - 1];
      var front := segments[..|segments| - 1];
      assert Contiguous(front, last.startOffset, timeUnit);
      CapacityBounded(front, last.startOffset, timeUnit, start);
      CapacityGrows(front, last, timeUnit, start);
      assert front + [last] == segments;
    }
  }

  lemma CapacityGrows(front: seq<Segment>, last: Segment, timeUnit: int, start: int)
    requires timeUnit > 0 && WellPlaced(last, |front|, timeUnit) && last.targetRps <= MAX_ALLOWED_RATE
    requires forall k :: 0 <= k < |front| ==> Windows(front, timeUnit, start)[k].interval >= 1000
    ensures forall k :: 0 <= k <= |front| ==> Windows(front + [last], timeUnit, start)[k].interval >= 1000
    ensures 1000 * CapacityTotal(Windows(front + [last], timeUnit, start))
         <= 1000 * CapacityTotal(Windows(front, timeUnit, start)) + last.duration + 999
  {
    IntervalFloor(last.rate, timeUnit);
    CapacityOfMicroseconds(WindowOf(last, timeUnit, start));
    var windows := Windows(front + [last], timeUnit, start);
    assert windows == Windows(front, timeUnit, start) + [WindowOf(last, timeUnit, start)];
    assert windows[..|front|] == Windows(front, timeUnit, start);
  }

  /** No more segments compile than the maximum. */
  lemma {:induction false} CutBounded(source: seq<SourceSegment>, timeUnit: int, n: nat)
    requires timeUnit > 0 && n <= |source|
    requires forall i :: 0 <= i < n ==> SegmentCompiles(source, timeUnit, i)
    ensures Cut(source, n) <= MAX_COMPILED_SEGMENTS
  {
    if n > 0 {
      CutBounded(source, timeUnit, n - 1);
      assert SegmentCompiles(source, timeUnit, n - 1);
    }
  }

  const MAX_PLANNED := 86_400_000_000 + MAX_COMPILED_SEGMENTS

  /** Every window of a permitted compilation has an interval of at least a microsecond,
      and all of them together have room for at most `MAX_PLANNED` requests. */
  lemma PermittedCapacity(source: seq<SourceSegment>, timeUnit: int, start: int)
    requires Compiles(source, timeUnit) && PermittedProfile(Compiled(source, |source|, timeUnit))
    ensures var c := Compiled(source, |source|, timeUnit);
            && Contiguous(c.segments, c.totalDuration, timeUnit)
            && (forall k :: 0 <= k < |c.segments| ==> WindowOf(c.segments[k], timeUnit, start).interval >= 1000)
            && CapacityTotal(Windows(c.segments, timeUnit, start)) <= MAX_PLANNED
  {
    var c := Compiled(source, |source|, timeUnit);
    CompiledWellFormed(source, |source|, timeUnit);
    CutBounded(source, timeUnit, |source|);
    CapacityBounded(c.segments, c.totalDuration, timeUnit, start);
    forall k | 0 <= k < |c.segments|
      ensures WindowOf(c.segments[k], timeUnit, start).interval >= 1000
    {
      assert WellPlaced(c.segments[k], k, timeUnit);
      IntervalFloor(c.segments[k].rate, timeUnit);
    }
  }

  /** A load that passed validation: plain, or a profile with admissible segments. */
  ghost predicate Validated(load: LoadConfig) {
    && load.maxInFlight > 0
    && (load.segments == [] || Validation.Admissible(load.segments))
    && Compiles(SourceOf(load), load.timeUnit)
  }

  lemma PermittedCompiled(load: LoadConfig)
    requires Validated(load) && Permitted(load)
    ensures PermittedProfile(Compiled(SourceOf(load), |SourceOf(load)|, load.timeUnit))
  {
    if load.segments == [] {
      var source := SourceOf(load);
      assert SegmentCompiles(source, load.timeUnit, 0);
      assert StepDuration(source[0], 0) == load.duration;
      assert Emitted(source[0]) == 1;
      CompiledAt(source, 1, load.timeUnit, 0, 0);
      CompiledOffset(source, 1, load.timeUnit);
      assert Compiled(source, 1, load.timeUnit).segments[0] == Piece(source[0], 0, 0, 0, load.timeUnit);
    }
  }

  lemma SomethingCompiled(load: LoadConfig)
    requires Validated(load)
    ensures Cut(SourceOf(load), |SourceOf(load)|) > 0
  {
    if load.segments == [] {
      var source := SourceOf(load);
      assert Emitted(source[0]) == 1;
      assert Cut(source, 1) == Cut(source, 0) + Emitted(source[0]);
    } else {
      var _ := Lifecycle.MeasuredPosition(load.segments, load.timeUnit);
    }
  }

  /** Whether an open run that starts at `start` runs the given load. */
  ghost predicate Runs(c: OpenRun.Config, load: LoadConfig, start: int) {
    var source := SourceOf(load);
    && load.timeUnit > 0
    && c.maxInFlight == load.maxInFlight
    && c.windows == Windows(Compiled(source, |source|, load.timeUnit).segments, load.timeUnit, start)
  }

  lemma RunPermitted(c: OpenRun.Config, load: LoadConfig, start: int)
    requires Validated(load) && Permitted(load) && Runs(c, load, start)
    ensures c.Valid() && CapacityTotal(c.windows) <= MAX_PLANNED && c.maxInFlight <= MAX_ALLOWED_IN_FLIGHT
  {
    PermittedCompiled(load);
    SomethingCompiled(load);
    PermittedCapacity(SourceOf(load), load.timeUnit, start);
  }

  /** From validation and preflight to any moment of any open run: at most `MAX_PLANNED`
      requests are planned, so no request counter leaves the 64-bit range, and no more than
      the in-flight ceiling is ever in flight. */
  lemma EndToEnd(c: OpenRun.Config, st: OpenRun.State, load: LoadConfig, start: int)
    requires c.Valid() && OpenRun.Reachable(c, st)
    requires Validated(load) && Permitted(load) && Runs(c, load, start)
    ensures 0 <= st.inFlight <= MAX_ALLOWED_IN_FLIGHT
    ensures Theorems.CountsWithin(c, st, MAX_PLANNED) && MAX_PLANNED <= MAX_INT64
  {
    RunPermitted(c, load, start);
    Theorems.CountsBounded(c, st, MAX_PLANNED);
    Theorems.InFlightBounded(c, st);
  }
}
