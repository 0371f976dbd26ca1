/** The value a metric accumulator stands for, and the algebra of merging such values. */
module Summaries {
  import opened Results
  import opened Books
  import opened Sampling
  import opened Headers

  datatype Summary = Summary(
    counts: Counts,
    retryAfter: seq<string>,
    limits: seq<LimitSample>,
    headers: HeaderMap,
    lagMaxMs: real,
    firstThrottle: int)

  const EMPTY := Summary(ZERO, [], [], map[], 0.0, -1)

  function MaxLag(a: real, b: real): real {
    if b > a then b else a
  }

  /** The earlier of two throttle offsets; a negative offset means none was seen. */
  function FirstThrottle(a: int, b: int): int {
    if b >= 0 && (a < 0 || b < a) then b else a
  }

  function Merge(a: Summary, b: Summary): Summary {
    Summary(
      Plus(a.counts, b.counts),
      Absorb(a.retryAfter, b.retryAfter, MAX_SAMPLES),
      Absorb(a.limits, b.limits, MAX_SAMPLES),
      MergeHeaders(a.headers, b.headers),
      MaxLag(a.lagMaxMs, b.lagMaxMs),
      FirstThrottle(a.firstThrottle, b.firstThrottle))
  }

  function MergeAll(ss: seq<Summary>): Summary {
    if ss == [] then EMPTY else Merge(MergeAll(ss[..|ss| - 1]), ss[|ss| - 1])
  }

  function OfferAll<T(==)>(kept: seq<T>, x: Option<T>): seq<T> {
    match x
    case None => kept
    case Some(v) => Offer(kept, v, MAX_SAMPLES)
  }

  function WithInfo(s: Summary, rateLimit: Option<RateLimitInfo>): Summary {
    match rateLimit
    case None => s
    case Some(info) =>
      s.(retryAfter := OfferAll(s.retryAfter, info.retryAfter),
         limits := OfferAll(s.limits, info.limits),
         headers := RecordAll(s.headers, info.observations))
  }

  /** The effect of recording one response. */
  function Recording(s: Summary, r: Response): Summary {
    WithInfo(s.(counts := Plus(s.counts, Recorded(r))), r.rateLimit)
  }

  /** What every accumulator satisfies: capped distinct samples, header entries that
      describe some stream of observations, and sane bounds. */
  ghost predicate Canonical(s: Summary) {
    && Distinct(s.retryAfter) && |s.retryAfter| <= MAX_SAMPLES
    && Distinct(s.limits) && |s.limits| <= MAX_SAMPLES
    && (exists os :: Describes(s.headers, os))
    && s.lagMaxMs >= 0.0
    && s.firstThrottle >= -1
  }

  lemma EmptyCanonical()
    ensures Canonical(EMPTY)
  {
    assert Describes(map[], []);
  }

  lemma RecordingCanonical(s: Summary, r: Response)
    requires Canonical(s)
    ensures Canonical(Recording(s, r))
  {
    var os :| Describes(s.headers, os);
    if r.rateLimit.Some? {
      RecordingExact(s.headers, os, r.rateLimit.value.observations);
    }
  }

  lemma MergeCanonical(a: Summary, b: Summary)
    requires Canonical(a) && Canonical(b)
    ensures Canonical(Merge(a, b))
  {
    var xs :| Describes(a.headers, xs);
    var ys :| Describes(b.headers, ys);
    MergingExact(a.headers, b.headers, xs, ys);
    AbsorbKeeps(a.retryAfter, b.retryAfter, MAX_SAMPLES);
    AbsorbKeeps(a.limits, b.limits, MAX_SAMPLES);
  }

  lemma SamplesAssociative<T>(a: seq<T>, b: seq<T>, c: seq<T>)
    requires Distinct(a) && |a| <= MAX_SAMPLES && Distinct(b) && |b| <= MAX_SAMPLES
    ensures Absorb(Absorb(a, b, MAX_SAMPLES), c, MAX_SAMPLES) == Absorb(a, Absorb(b, c, MAX_SAMPLES), MAX_SAMPLES)
  {
    RetainedIsFixed(b, MAX_SAMPLES);
    AbsorbAppend([], b, c, MAX_SAMPLES);
    AbsorbAppend(a, b, c, MAX_SAMPLES);
    AbsorbRetained(a, b + c, MAX_SAMPLES);
  }

  lemma HeadersAssociative(a: HeaderMap, b: HeaderMap, c: HeaderMap)
    requires exists os :: Describes(a, os)
    requires exists os :: Describes(b, os)
    requires exists os :: Describes(c, os)
    ensures MergeHeaders(MergeHeaders(a, b), c) == MergeHeaders(a, MergeHeaders(b, c))
  {
    var xs :| Describes(a, xs);
    var ys :| Describes(b, ys);
    var zs :| Describes(c, zs);
    MergingExact(a, b, xs, ys);
    MergingExact(b, c, ys, zs);
    MergingExact(MergeHeaders(a, b), c, xs + ys, zs);
    MergingExact(a, MergeHeaders(b, c), xs, ys + zs);
    assert xs + ys + zs == xs + (ys + zs);
    DescriptionUnique(MergeHeaders(MergeHeaders(a, b), c), MergeHeaders(a, MergeHeaders(b, c)), xs + ys + zs);
  }

  lemma MergeAssociative(a: Summary, b: Summary, c: Summary)
    requires Canonical(a) && Canonical(b) && Canonical(c)
    ensures Merge(Merge(a, b), c) == Merge(a, Merge(b, c))
  {
    PlusAssociative(a.counts, b.counts, c.counts);
    SamplesAssociative(a.retryAfter, b.retryAfter, c.retryAfter);
    SamplesAssociative(a.limits, b.limits, c.limits);
    HeadersAssociative(a.headers, b.headers, c.headers);
  }

  lemma MergeUnit(s: Summary)
    requires Canonical(s)
    ensures Merge(EMPTY, s) == s && Merge(s, EMPTY) == s
  {
    var os :| Describes(s.headers, os);
    PlusUnit(s.counts);
    RetainedIsFixed(s.retryAfter, MAX_SAMPLES);
    RetainedIsFixed(s.limits, MAX_SAMPLES);
    assert Describes(map[], []);
    MergingExact(map[], s.headers, [], os);
    MergingExact(s.headers, map[], os, []);
    assert [] + os == os && os + [] == os;
    DescriptionUnique(MergeHeaders(map[], s.headers), s.headers, os);
    DescriptionUnique(MergeHeaders(s.headers, map[]), s.headers, os);
  }

  ghost predicate AllCanonical(ss: seq<Summary>) {
    forall i :: 0 <= i < |ss| ==> Canonical(ss[i])
  }

  lemma {:induction false} MergeAllCanonical(ss: seq<Summary>)
    requires AllCanonical(ss)
    ensures Canonical(MergeAll(ss))
    decreases |ss|
  {
    EmptyCanonical();
    if ss != [] {
      MergeAllCanonical(ss[..|ss| - 1]);
      MergeCanonical(MergeAll(ss[..|ss| - 1]), ss[|ss| - 1]);
    }
  }

  lemma MergeAllLast(ss: seq<Summary>, s: Summary)
    ensures MergeAll(ss + [s]) == Merge(MergeAll(ss), s)
  {
    assert (ss + [s])[..|ss|] == ss;
  }

  lemma {:induction false} MergeAllAppend(xs: seq<Summary>, ys: seq<Summary>)
    requires AllCanonical(xs) && AllCanonical(ys)
    ensures MergeAll(xs + ys) == Merge(MergeAll(xs), MergeAll(ys))
    decreases |ys|
  {
    MergeAllCanonical(xs);
    if ys == [] {
      assert xs + ys == xs;
      MergeUnit(MergeAll(xs));
    } else {
      var front, last := ys[..|ys| - 1], ys[|ys| - 1];
      assert xs + ys == (xs + front) + [last];
      MergeAllLast(xs + front, last);
      MergeAllAppend(xs, front);
      MergeAllCanonical(front);
      MergeAssociative(MergeAll(xs), MergeAll(front), last);
    }
  }

  function Flatten(parts: seq<seq<Summary>>): seq<Summary> {
    if parts == [] then [] else Flatten(parts[..|parts| - 1]) + parts[|parts| - 1]
  }

  function MergeEach(parts: seq<seq<Summary>>): (r: seq<Summary>)
    ensures |r| == |parts|
  {
    seq(|parts|, i requires 0 <= i < |parts| => MergeAll(parts[i]))
  }

  ghost predicate PartsCanonical(parts: seq<seq<Summary>>) {
    forall i :: 0 <= i < |parts| ==> AllCanonical(parts[i])
  }

  lemma {:induction false} FlattenCanonical(parts: seq<seq<Summary>>)
    requires PartsCanonical(parts)
    ensures AllCanonical(Flatten(parts))
    decreases |parts|
  {
    if parts != [] {
      FlattenCanonical(parts[..|parts| - 1]);
      assert AllCanonical(parts[|parts| - 1]);
    }
  }

  lemma MergeEachLast(parts: seq<seq<Summary>>)
    requires parts != []
    ensures MergeAll(MergeEach(parts))
         == Merge(MergeAll(MergeEach(parts[..|parts| - 1])), MergeAll(parts[|parts| - 1]))
  {
    assert MergeEach(parts)[..|parts| - 1] == MergeEach(parts[..|parts| - 1]);
  }

  /** Merging does not depend on the grouping: merging the merges of any ordered partition
      of accumulators equals merging them all at once, in every field. */
  lemma {:induction false} GroupingIndependent(parts: seq<seq<Summary>>)
    requires PartsCanonical(parts)
    ensures MergeAll(MergeEach(parts)) == MergeAll(Flatten(parts))
    decreases |parts|
  {
    if parts != [] {
      var front, last := parts[..|parts| - 1], parts[|parts| - 1];
      GroupingIndependent(front);
      FlattenCanonical(front);
      assert AllCanonical(last);
      MergeAllAppend(Flatten(front), last);
      MergeEachLast(parts);
    }
  }
}
