/** Load profiles: source segments, their validation, and their compilation into
    constant-rate segments. Durations and offsets are 64-bit nanoseconds, rates are reals. */
module Profile {
  import opened Results
  import opened Decimal

  const WARMUP := "warmup"
  const MEASURED := "measured"
  const COOLDOWN := "cooldown"
  const MAX_SOURCE_SEGMENTS := 64
  const MAX_COMPILED_SEGMENTS := 256
  const MAX_NAME_LENGTH := 64
  const NS_PER_SECOND := 1_000_000_000

  datatype SourceSegment = SourceSegment(
    name: string, stage: string, duration: Int64, rate: real, startRate: real, endRate: real, steps: Int64)

  datatype Segment = Segment(
    index: nat, name: string, stage: string, startOffset: int, endOffset: int, duration: int,
    rate: real, targetRps: real, includedMeasured: bool)

  datatype Compilation = Compilation(segments: seq<Segment>, totalDuration: int, peakTargetRps: real)

  datatype ProfileError =
    | BadSourceCount
    | BadTimeUnit
    | TooManySegments
    | InvalidRate(name: string)
    | ZeroInterval(name: string)
    | InvalidDuration(name: string)

  // -- One source segment ----------------------------------------------------------

  /** Steps as compiled: zero means one; a negative count compiles to nothing. */
  function StepsOf(s: SourceSegment): int {
    if s.steps == 0 then 1 else s.steps
  }

  function Emitted(s: SourceSegment): nat {
    if StepsOf(s) > 0 then StepsOf(s) else 0
  }

  /** Integer division that truncates toward zero. */
  function Quotient(a: int, b: int): int
    requires b > 0
  {
    if a >= 0 then a / b else -((-a) / b)
  }

  function Remainder(a: int, b: int): int
    requires b > 0
  {
    a - Quotient(a, b) * b
  }

  /** The duration of one step: the remainder is spread over the first steps. */
  function StepDuration(s: SourceSegment, step: nat): int
    requires StepsOf(s) > 0
  {
    Quotient(s.duration, StepsOf(s)) + if step < Remainder(s.duration, StepsOf(s)) then 1 else 0
  }

  /** The part of `slope` reached at `x` of `last`. */
  function Share(slope: real, x: real, last: real): real
    requires last != 0.0
  {
    slope * x / last
  }

  function StepRate(s: SourceSegment, step: nat): real {
    if StepsOf(s) > 1
    then s.startRate + Share(s.endRate - s.startRate, step as real, (StepsOf(s) - 1) as real)
    else s.rate
  }

  function StepName(s: SourceSegment, step: nat): string {
    if StepsOf(s) > 1 then s.name + "-" + Itoa(step + 1) else s.name
  }

  function TargetRps(rate: real, timeUnit: int): real
    requires timeUnit > 0
  {
    rate / (timeUnit as real / NS_PER_SECOND as real)
  }

  /** Nanoseconds between requests. */
  function Interval(rate: real, timeUnit: int): int
    requires rate > 0.0
  {
    (timeUnit as real / rate).Floor
  }

  /** The time the first `step` steps take. */
  function Elapsed(s: SourceSegment, step: nat): int
    requires StepsOf(s) > 0
  {
    if step == 0 then 0 else Elapsed(s, step - 1) + StepDuration(s, step - 1)
  }

  /** The total time a source segment occupies once compiled. */
  function Span(s: SourceSegment): int {
    if StepsOf(s) > 0 then Elapsed(s, StepsOf(s)) else 0
  }

  function Piece(s: SourceSegment, step: nat, index: nat, start: int, timeUnit: int): Segment
    requires StepsOf(s) > 0 && timeUnit > 0
  {
    var rate := StepRate(s, step);
    Segment(index, StepName(s, step), s.stage, start, start + StepDuration(s, step), StepDuration(s, step),
            rate, TargetRps(rate, timeUnit), s.stage == MEASURED)
  }

  // -- Whole profiles --------------------------------------------------------------

  /** Compiled segments that the first `n` source segments become. */
  function Cut(source: seq<SourceSegment>, n: nat): nat
    requires n <= |source|
  {
    if n == 0 then 0 else Cut(source, n - 1) + Emitted(source[n - 1])
  }

  function OffsetAt(source: seq<SourceSegment>, n: nat): int
    requires n <= |source|
  {
    if n == 0 then 0 else OffsetAt(source, n - 1) + Span(source[n - 1])
  }

  predicate StepCompiles(source: seq<SourceSegment>, timeUnit: int, i: nat, step: nat)
    requires i < |source| && timeUnit > 0 && StepsOf(source[i]) > 0
  {
    var rate := StepRate(source[i], step);
    && rate > 0.0
    && Interval(rate, timeUnit) > 0
    && StepDuration(source[i], step) > 0
    && OffsetAt(source, i) + Elapsed(source[i], step) + StepDuration(source[i], step) <= MAX_INT64
  }

  predicate SegmentCompiles(source: seq<SourceSegment>, timeUnit: int, i: nat)
    requires i < |source| && timeUnit > 0
  {
    && Cut(source, i) + StepsOf(source[i]) <= MAX_COMPILED_SEGMENTS
    && forall step :: 0 <= step < Emitted(source[i]) ==> StepCompiles(source, timeUnit, i, step)
  }

  /** Exactly the inputs that compile. */
  predicate Compiles(source: seq<SourceSegment>, timeUnit: int) {
    && 0 < |source| <= MAX_SOURCE_SEGMENTS
    && timeUnit > 0
    && (forall i :: 0 <= i < |source| ==> SegmentCompiles(source, timeUnit, i))
  }

  /** Records one more segment. */
  function Append(c: Compilation, s: Segment): Compilation {
    Compilation(c.segments + [s], s.endOffset, if s.targetRps > c.peakTargetRps then s.targetRps else c.peakTargetRps)
  }

  /** A compilation after the first `k` steps of one more source segment. */
  function Grown(s: SourceSegment, k: nat, timeUnit: int, before: Compilation): (r: Compilation)
    requires timeUnit > 0 && k <= Emitted(s)
    ensures |r.segments| == |before.segments| + k
  {
    if k == 0 then before
    else
      var c := Grown(s, k - 1, timeUnit, before);
      Append(c, Piece(s, k - 1, |c.segments|, c.totalDuration, timeUnit))
  }

  lemma {:induction false} GrownOffset(s: SourceSegment, k: nat, timeUnit: int, before: Compilation)
    requires timeUnit > 0 && k <= Emitted(s) && StepsOf(s) > 0
    ensures Grown(s, k, timeUnit, before).totalDuration == before.totalDuration + Elapsed(s, k)
  {
    if k > 0 { GrownOffset(s, k - 1, timeUnit, before); }
  }

  /** What the first `n` source segments compile to. */
  function Compiled(source: seq<SourceSegment>, n: nat, timeUnit: int): (r: Compilation)
    requires timeUnit > 0 && n <= |source|
    ensures |r.segments| == Cut(source, n)
  {
    if n == 0 then Compilation([], 0, 0.0)
    else Grown(source[n - 1], Emitted(source[n - 1]), timeUnit, Compiled(source, n - 1, timeUnit))
  }

  lemma {:induction false} CompiledOffset(source: seq<SourceSegment>, n: nat, timeUnit: int)
    requires timeUnit > 0 && n <= |source|
    ensures Compiled(source, n, timeUnit).totalDuration == OffsetAt(source, n)
  {
    if n > 0 {
      CompiledOffset(source, n - 1, timeUnit);
      if StepsOf(source[n - 1]) > 0 {
        GrownOffset(source[n - 1], Emitted(source[n - 1]), timeUnit, Compiled(source, n - 1, timeUnit));
      }
    }
  }

  /** Segments numbered by position that follow each other without gap or overlap from
      offset zero to `total`, inside the 64-bit range, each with a positive interval. */
  ghost predicate Contiguous(segments: seq<Segment>, total: int, timeUnit: int)
    requires timeUnit > 0
  {
    && total == (if segments == [] then 0 else segments[|segments| - 1].endOffset)
    && (forall k :: 0 <= k < |segments| ==> WellPlaced(segments[k], k, timeUnit))
    && (forall k :: 0 < k < |segments| ==> segments[k].startOffset == segments[k - 1].endOffset)
    && (segments != [] ==> segments[0].startOffset == 0)
  }

  ghost predicate WellPlaced(s: Segment, k: nat, timeUnit: int)
    requires timeUnit > 0
  {
    && s.index == k
    && 0 < s.duration == s.endOffset - s.startOffset
    && 0 <= s.startOffset && s.endOffset <= MAX_INT64
    && s.rate > 0.0 && Interval(s.rate, timeUnit) > 0
    && s.targetRps == TargetRps(s.rate, timeUnit)
    && (s.includedMeasured <==> s.stage == MEASURED)
  }

  lemma ContiguousExtends(segments: seq<Segment>, total: int, timeUnit: int, s: Segment)
    requires timeUnit > 0 && Contiguous(segments, total, timeUnit)
    requires WellPlaced(s, |segments|, timeUnit) && s.startOffset == total
    ensures Contiguous(segments + [s], s.endOffset, timeUnit)
  {
  }

  /** The peak is the largest target rate, or zero without segments. */
  ghost predicate IsPeak(peak: real, segments: seq<Segment>) {
    && (forall k :: 0 <= k < |segments| ==> segments[k].targetRps <= peak)
    && (peak == 0.0 || exists k :: 0 <= k < |segments| && segments[k].targetRps == peak)
  }

  /** What an error about one step says of it. */
  predicate ExplainsStep(e: ProfileError, source: seq<SourceSegment>, timeUnit: int, i: nat, step: nat)
    requires timeUnit > 0 && i < |source| && step < Emitted(source[i])
  {
    var s := source[i];
    match e
    case InvalidRate(name) => name == s.name && StepRate(s, step) <= 0.0
    case ZeroInterval(name) => name == s.name && StepRate(s, step) > 0.0 && Interval(StepRate(s, step), timeUnit) <= 0
    case InvalidDuration(name) =>
      && name == s.name
      && (|| StepDuration(s, step) <= 0
          || OffsetAt(source, i) + Elapsed(s, step) + StepDuration(s, step) > MAX_INT64)
    case _ => false
  }

  ghost predicate ExplainsSegment(e: ProfileError, source: seq<SourceSegment>, timeUnit: int, i: nat)
    requires timeUnit > 0 && i < |source|
  {
    || (e == TooManySegments && Cut(source, i) + StepsOf(source[i]) > MAX_COMPILED_SEGMENTS)
    || (exists step :: 0 <= step < Emitted(source[i]) && ExplainsStep(e, source, timeUnit, i, step))
  }

  /** What an error says about the input. */
  ghost predicate Explains(e: ProfileError, source: seq<SourceSegment>, timeUnit: int) {
    match e
    case BadSourceCount => |source| == 0 || |source| > MAX_SOURCE_SEGMENTS
    case BadTimeUnit => timeUnit <= 0
    case _ => timeUnit > 0 && exists i :: 0 <= i < |source| && ExplainsSegment(e, source, timeUnit, i)
  }

  lemma PeakExtends(peak: real, segments: seq<Segment>, s: Segment)
    requires IsPeak(peak, segments)
    ensures IsPeak(if s.targetRps > peak then s.targetRps else peak, segments + [s])
  {
    var longer := segments + [s];
    assert longer[|segments|] == s;
    assert forall k :: 0 <= k < |segments| ==> longer[k] == segments[k];
  }

  /** Compiles one step at a given offset. */
  method CompileStep(source: seq<SourceSegment>, timeUnit: int, i: nat, step: nat, offset: int, index: nat)
    returns (r: Result<Segment, ProfileError>)
    requires i < |source| && timeUnit > 0 && step < Emitted(source[i])
    requires offset == OffsetAt(source, i) + Elapsed(source[i], step)
    ensures r.Success? <==> StepCompiles(source, timeUnit, i, step)
    ensures r.Success? ==> r.value == Piece(source[i], step, index, offset, timeUnit)
    ensures r.Failure? ==> ExplainsStep(r.error, source, timeUnit, i, step)
  {
    var segment := source[i];
    var steps := StepsOf(segment);
    var duration := Quotient(segment.duration, steps);
    if step < Remainder(segment.duration, steps) {
      duration := duration + 1;
    }
    var rate := StepRate(segment, step);
    if rate <= 0.0 { return Failure(InvalidRate(segment.name)); }
    var target := TargetRps(rate, timeUnit);
    if Interval(rate, timeUnit) <= 0 { return Failure(ZeroInterval(segment.name)); }
    if duration <= 0 || offset > MAX_INT64 - duration { return Failure(InvalidDuration(segment.name)); }
    r := Success(Segment(index, StepName(segment, step), segment.stage, offset, offset + duration, duration,
                         rate, target, segment.stage == MEASURED));
  }

  /** Compiles the steps of one source segment after what is already compiled. */
  method CompileSegment(source: seq<SourceSegment>, timeUnit: int, i: nat, before: Compilation)
    returns (r: Result<Compilation, ProfileError>)
    requires i < |source| && timeUnit > 0
    requires |before.segments| == Cut(source, i) && before.totalDuration == OffsetAt(source, i)
    ensures r.Success? <==> SegmentCompiles(source, timeUnit, i)
    ensures r.Success? ==> r.value == Grown(source[i], Emitted(source[i]), timeUnit, before)
    ensures r.Failure? ==> ExplainsSegment(r.error, source, timeUnit, i)
  {
    var steps := StepsOf(source[i]);
    if |before.segments| + steps > MAX_COMPILED_SEGMENTS { return Failure(TooManySegments); }
    var c := before;
    var step := 0;
    while step < steps
      invariant 0 <= step <= Emitted(source[i])
      invariant c == Grown(source[i], step, timeUnit, before)
      invariant forall j :: 0 <= j < step ==> StepCompiles(source, timeUnit, i, j)
    {
      GrownOffset(source[i], step, timeUnit, before);
      var piece := CompileStep(source, timeUnit, i, step, c.totalDuration, |c.segments|);
      if piece.Failure? { return Failure(piece.error); }
      c := Append(c, piece.value);
      step := step + 1;
    }
    r := Success(c);
  }

  /** Expands source segments into constant-rate segments. It succeeds exactly on inputs
      that compile, and an error names what is wrong. */
  method Compile(source: seq<SourceSegment>, timeUnit: int) returns (r: Result<Compilation, ProfileError>)
    ensures r.Success? <==> Compiles(source, timeUnit)
    ensures r.Success? ==> r.value == Compiled(source, |source|, timeUnit) && WellFormed(r.value, timeUnit)
    ensures r.Failure? ==> Explains(r.error, source, timeUnit)
  {
    if |source| == 0 || |source| > MAX_SOURCE_SEGMENTS { return Failure(BadSourceCount); }
    if timeUnit <= 0 { return Failure(BadTimeUnit); }
    var c := Compilation([], 0, 0.0);
    for i := 0 to |source|
      invariant c == Compiled(source, i, timeUnit)
      invariant forall j :: 0 <= j < i ==> SegmentCompiles(source, timeUnit, j)
    {
      CompiledOffset(source, i, timeUnit);
      var next := CompileSegment(source, timeUnit, i, c);
      if next.Failure? {
        Blamed(next.error, source, timeUnit, i);
        return Failure(next.error);
      }
      c := next.value;
    }
    CompiledWellFormed(source, |source|, timeUnit);
    r := Success(c);
  }

  lemma Blamed(e: ProfileError, source: seq<SourceSegment>, timeUnit: int, i: nat)
    requires 0 < |source| <= MAX_SOURCE_SEGMENTS && timeUnit > 0 && i < |source|
    requires ExplainsSegment(e, source, timeUnit, i)
    ensures Explains(e, source, timeUnit)
  {
  }

  /** An error is never reported of an input that compiles. */
  lemma ExplainedNeverCompiles(e: ProfileError, source: seq<SourceSegment>, timeUnit: int)
    requires Explains(e, source, timeUnit)
    ensures !Compiles(source, timeUnit)
  {
    if timeUnit > 0 && 0 < |source| <= MAX_SOURCE_SEGMENTS {
      var i :| 0 <= i < |source| && ExplainsSegment(e, source, timeUnit, i);
      if e != TooManySegments {
        var step :| 0 <= step < Emitted(source[i]) && ExplainsStep(e, source, timeUnit, i, step);
        ExplainedStepFails(e, source, timeUnit, i, step);
      }
      assert !SegmentCompiles(source, timeUnit, i);
    }
  }

  lemma ExplainedStepFails(e: ProfileError, source: seq<SourceSegment>, timeUnit: int, i: nat, step: nat)
    requires timeUnit > 0 && i < |source| && step < Emitted(source[i])
    requires ExplainsStep(e, source, timeUnit, i, step)
    ensures !StepCompiles(source, timeUnit, i, step)
  {
  }

  // -- What a compilation guarantees -------------------------------------------------

  /** The layout of a compilation: contiguous segments from offset zero to the total
      duration, and a peak that is the largest target rate. */
  ghost predicate WellFormed(c: Compilation, timeUnit: int)
    requires timeUnit > 0
  {
    && Contiguous(c.segments, c.totalDuration, timeUnit)
    && 0 <= c.totalDuration <= MAX_INT64
    && IsPeak(c.peakTargetRps, c.segments)
  }

  lemma AppendWellFormed(c: Compilation, s: Segment, timeUnit: int)
    requires timeUnit > 0 && WellFormed(c, timeUnit)
    requires WellPlaced(s, |c.segments|, timeUnit) && s.startOffset == c.totalDuration
    ensures WellFormed(Append(c, s), timeUnit)
  {
    ContiguousExtends(c.segments, c.totalDuration, timeUnit, s);
    PeakExtends(c.peakTargetRps, c.segments, s);
  }

  lemma PieceWellPlaced(source: seq<SourceSegment>, timeUnit: int, i: nat, step: nat, index: nat)
    requires i < |source| && timeUnit > 0 && StepsOf(source[i]) > 0 && StepCompiles(source, timeUnit, i, step)
    requires 0 <= OffsetAt(source, i) + Elapsed(source[i], step)
    ensures WellPlaced(Piece(source[i], step, index, OffsetAt(source, i) + Elapsed(source[i], step), timeUnit),
                       index, timeUnit)
  {
  }

  lemma {:induction false} GrownWellFormed(source: seq<SourceSegment>, i: nat, k: nat, timeUnit: int, before: Compilation)
    requires timeUnit > 0 && i < |source| && k <= Emitted(source[i])
    requires forall step :: 0 <= step < k ==> StepCompiles(source, timeUnit, i, step)
    requires WellFormed(before, timeUnit) && before.totalDuration == OffsetAt(source, i)
    ensures WellFormed(Grown(source[i], k, timeUnit, before), timeUnit)
  {
    if k > 0 {
      GrownWellFormed(source, i, k - 1, timeUnit, before);
      GrownOffset(source[i], k - 1, timeUnit, before);
      var c := Grown(source[i], k - 1, timeUnit, before);
      PieceWellPlaced(source, timeUnit, i, k - 1, |c.segments|);
      AppendWellFormed(c, Piece(source[i], k - 1, |c.segments|, c.totalDuration, timeUnit), timeUnit);
    }
  }

  /** Everything that compiles is well formed. */
  lemma {:induction false} CompiledWellFormed(source: seq<SourceSegment>, n: nat, timeUnit: int)
    requires timeUnit > 0 && n <= |source|
    requires forall j :: 0 <= j < n ==> SegmentCompiles(source, timeUnit, j)
    ensures WellFormed(Compiled(source, n, timeUnit), timeUnit)
  {
    if n > 0 {
      CompiledWellFormed(source, n - 1, timeUnit);
      CompiledOffset(source, n - 1, timeUnit);
      assert SegmentCompiles(source, timeUnit, n - 1);
      GrownWellFormed(source, n - 1, Emitted(source[n - 1]), timeUnit, Compiled(source, n - 1, timeUnit));
    }
  }

  /** An exact partition: the first `step` steps take `step` base durations and one
      nanosecond for each step that carries part of the remainder. */
  lemma {:induction false} ElapsedClosed(s: SourceSegment, step: nat)
    requires StepsOf(s) > 0 && s.duration >= 0 && step <= StepsOf(s)
    ensures var r := Remainder(s.duration, StepsOf(s));
            && 0 <= r < StepsOf(s)
            && Elapsed(s, step) == step * Quotient(s.duration, StepsOf(s)) + if step < r then step else r
  {
    if step > 0 {
      ElapsedClosed(s, step - 1);
      var q := Quotient(s.duration, StepsOf(s));
      assert step * q == (step - 1) * q + q;
    }
  }

  /** A source segment's steps add up to exactly its duration unless its step count is
      negative, and their durations differ by at most a nanosecond. */
  lemma PartitionExact(s: SourceSegment, a: nat, b: nat)
    requires s.duration >= 0
    ensures Span(s) == s.duration <==> s.steps >= 0 || s.duration == 0
    ensures a < Emitted(s) && b < Emitted(s) ==> -1 <= StepDuration(s, a) - StepDuration(s, b) <= 1
  {
    if StepsOf(s) > 0 {
      ElapsedClosed(s, StepsOf(s));
    }
  }

  function TotalOf(source: seq<SourceSegment>): int {
    if source == [] then 0 else TotalOf(source[..|source| - 1]) + source[|source| - 1].duration
  }

  /** A profile lasts exactly as long as its source segments if and only if none of those that
      last has a negative step count. */
  lemma {:induction false} OffsetsAddUp(source: seq<SourceSegment>, n: nat)
    requires n <= |source| && forall i :: 0 <= i < |source| ==> source[i].duration >= 0
    ensures OffsetAt(source, n) <= TotalOf(source[..n])
    ensures OffsetAt(source, n) == TotalOf(source[..n])
       <==> forall i :: 0 <= i < n ==> source[i].steps >= 0 || source[i].duration == 0
  {
    if n > 0 {
      OffsetsAddUp(source, n - 1);
      assert source[..n][..n - 1] == source[..n - 1];
      PartitionExact(source[n - 1], 0, 0);
    }
  }

  /** The input that shows it: a negative step count compiles, to no segment at all and no
      time, whatever the duration. */
  lemma NegativeStepsCompile(name: string, duration: Int64)
    ensures var source := [SourceSegment(name, MEASURED, duration, 1.0, 0.0, 0.0, -1)];
            Compiles(source, 1) && Compiled(source, 1, 1) == Compilation([], 0, 0.0)
  {
    var source := [SourceSegment(name, MEASURED, duration, 1.0, 0.0, 0.0, -1)];
    assert Cut(source, 0) == 0 && Emitted(source[0]) == 0;
    assert SegmentCompiles(source, 1, 0);
    assert Compiled(source, 0, 1) == Compilation([], 0, 0.0);
  }

  /** The time one step of a source segment starts. */
  function StartOf(source: seq<SourceSegment>, i: nat, step: nat): int
    requires i < |source| && step < Emitted(source[i])
  {
    OffsetAt(source, i) + Elapsed(source[i], step)
  }

  /** Where each step of each source segment lands: its position is the number of steps
      before it, its start the time they take. */
  lemma {:induction false} CompiledAt(source: seq<SourceSegment>, n: nat, timeUnit: int, i: nat, step: nat)
    requires timeUnit > 0 && i < n <= |source| && step < Emitted(source[i])
    ensures Cut(source, i) + step < Cut(source, n)
    ensures Compiled(source, n, timeUnit).segments[Cut(source, i) + step]
         == Piece(source[i], step, Cut(source, i) + step, StartOf(source, i, step), timeUnit)
  {
    if i == n - 1 {
      LastAt(source, i, timeUnit, step);
    } else {
      CompiledAt(source, n - 1, timeUnit, i, step);
      KeptAt(source, n, timeUnit, Cut(source, i) + step);
    }
  }

  lemma LastAt(source: seq<SourceSegment>, i: nat, timeUnit: int, step: nat)
    requires timeUnit > 0 && i < |source| && step < Emitted(source[i])
    ensures Cut(source, i) + step < Cut(source, i + 1)
    ensures Compiled(source, i + 1, timeUnit).segments[Cut(source, i) + step]
         == Piece(source[i], step, Cut(source, i) + step, StartOf(source, i, step), timeUnit)
  {
    CompiledOffset(source, i, timeUnit);
    var before := Compiled(source, i, timeUnit);
    GrownAt(source[i], Emitted(source[i]), step, timeUnit, before);
    assert Compiled(source, i + 1, timeUnit) == Grown(source[i], Emitted(source[i]), timeUnit, before);
  }

  lemma KeptAt(source: seq<SourceSegment>, n: nat, timeUnit: int, k: nat)
    requires timeUnit > 0 && 0 < n <= |source| && k < Cut(source, n - 1)
    ensures k < Cut(source, n)
    ensures Compiled(source, n, timeUnit).segments[k] == Compiled(source, n - 1, timeUnit).segments[k]
  {
    GrownKeeps(source[n - 1], Emitted(source[n - 1]), timeUnit, Compiled(source, n - 1, timeUnit));
  }

  lemma {:induction false} GrownKeeps(s: SourceSegment, k: nat, timeUnit: int, before: Compilation)
    requires timeUnit > 0 && k <= Emitted(s)
    ensures before.segments <= Grown(s, k, timeUnit, before).segments
  {
    if k > 0 { GrownKeeps(s, k - 1, timeUnit, before); }
  }

  lemma {:induction false} GrownAt(s: SourceSegment, k: nat, step: nat, timeUnit: int, before: Compilation)
    requires timeUnit > 0 && step < k <= Emitted(s)
    ensures Grown(s, k, timeUnit, before).segments[|before.segments| + step]
         == Piece(s, step, |before.segments| + step, before.totalDuration + Elapsed(s, step), timeUnit)
  {
    GrownOffset(s, k - 1, timeUnit, before);
    if step < k - 1 { GrownAt(s, k - 1, step, timeUnit, before); }
  }

  /** Position in the order warmup, measured, cooldown; negative for any other stage. */
  function Rank(stage: string): int {
    if stage == WARMUP then 0
    else if stage == MEASURED then 1
    else if stage == COOLDOWN then 2
    else -1
  }

  ghost predicate StagesAscend(source: seq<SourceSegment>) {
    && (forall i :: 0 <= i < |source| ==> Rank(source[i].stage) >= 0)
    && (forall i, j :: 0 <= i < j < |source| ==> Rank(source[i].stage) <= Rank(source[j].stage))
  }

  /** Compilation keeps the order of stages. */
  lemma CompiledStagesAscend(source: seq<SourceSegment>, timeUnit: int, a: nat, b: nat)
    requires timeUnit > 0 && StagesAscend(source) && a <= b < Cut(source, |source|)
    ensures var segments := Compiled(source, |source|, timeUnit).segments;
            0 <= Rank(segments[a].stage) <= Rank(segments[b].stage)
  {
    var i := StageAt(source, |source|, timeUnit, a);
    var j := StageAt(source, |source|, timeUnit, b);
    if j < i { CutMonotone(source, j + 1, i); }
  }

  /** The stage of a compiled segment is that of the source segment it came from. */
  lemma {:induction false} StageAt(source: seq<SourceSegment>, n: nat, timeUnit: int, k: nat) returns (i: nat)
    requires timeUnit > 0 && n <= |source| && k < Cut(source, n)
    ensures i < n && Cut(source, i) <= k < Cut(source, i + 1)
    ensures Compiled(source, n, timeUnit).segments[k].stage == source[i].stage
  {
    if k >= Cut(source, n - 1) {
      i := n - 1;
      CompiledAt(source, n, timeUnit, i, k - Cut(source, i));
    } else {
      i := StageAt(source, n - 1, timeUnit, k);
      KeptAt(source, n, timeUnit, k);
    }
  }

  lemma {:induction false} CutMonotone(source: seq<SourceSegment>, m: nat, n: nat)
    requires m <= n <= |source|
    ensures Cut(source, m) <= Cut(source, n)
  {
    if m < n { CutMonotone(source, m, n - 1); }
  }

  /** A ramp runs from its start rate to its end rate without turning back. */
  lemma RampMonotone(s: SourceSegment, a: nat, b: nat)
    requires s.steps > 1 && a <= b < s.steps
    ensures StepRate(s, 0) == s.startRate && StepRate(s, s.steps - 1) == s.endRate
    ensures s.startRate <= s.endRate ==> s.startRate <= StepRate(s, a) <= StepRate(s, b) <= s.endRate
    ensures s.startRate >= s.endRate ==> s.startRate >= StepRate(s, a) >= StepRate(s, b) >= s.endRate
  {
    var slope, last := s.endRate - s.startRate, (s.steps - 1) as real;
    ShareEnds(slope, last);
    ShareMonotone(slope, 0.0, a as real, last);
    ShareMonotone(slope, a as real, b as real, last);
    ShareMonotone(slope, b as real, last, last);
  }

  lemma ShareEnds(slope: real, last: real)
    requires last > 0.0
    ensures Share(slope, 0.0, last) == 0.0 && Share(slope, last, last) == slope
  {
  }

  lemma ShareMonotone(slope: real, x: real, y: real, last: real)
    requires x <= y && last > 0.0
    ensures slope >= 0.0 ==> Share(slope, x, last) <= Share(slope, y, last)
    ensures slope <= 0.0 ==> Share(slope, x, last) >= Share(slope, y, last)
  {
    var p, q := slope * x, slope * y;
    assert q == p + slope * (y - x);
    if slope >= 0.0 { DivideMonotone(p, q, last); }
    if slope <= 0.0 { DivideMonotone(q, p, last); }
  }

  lemma DivideMonotone(p: real, q: real, last: real)
    requires p <= q && last > 0.0
    ensures p / last <= q / last
  {
  }
}
