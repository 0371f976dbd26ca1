/** The results an open run reports: one per segment, and one over the measured segments. */
module OpenResults {
  import opened Results
  import opened Summaries
  import opened ErrorSamples
  import opened Metrics

  /** The accumulators behind the measured result, grouped by segment. */
  ghost function MeasuredParts(dispatchers: seq<WorkerMetrics>, collected: seq<WorkerMetrics>, included: seq<bool>)
    : seq<seq<Summary>>
    requires |dispatchers| == |collected| == |included|
    reads dispatchers, collected
  {
    if included == [] then []
    else
      var n := |included| - 1;
      var front := MeasuredParts(dispatchers[..n], collected[..n], included[..n]);
      if included[n] then front + [[dispatchers[n].View(), collected[n].View()]] else front
  }

  /** The error lists behind the measured result, one per measured segment. */
  ghost function MeasuredErrors(dispatchers: seq<WorkerMetrics>, collected: seq<WorkerMetrics>, included: seq<bool>)
    : seq<seq<ErrorSample>>
    requires |dispatchers| == |collected| == |included|
    reads dispatchers, collected
  {
    if included == [] then []
    else
      var n := |included| - 1;
      var front := MeasuredErrors(dispatchers[..n], collected[..n], included[..n]);
      if included[n] then front + [dispatchers[n].errors + collected[n].errors] else front
  }

  lemma TwoViews(a: WorkerMetrics, b: WorkerMetrics)
    ensures Views([a, b]) == [a.View(), b.View()]
    ensures AllErrors([a, b]) == a.errors + b.errors
  {
    assert [a, b][..1] == [a];
    assert [a][..0] == [];
    assert Views([a][..0]) == [] && AllErrors([a][..0]) == [];
    assert Views([a]) == [a.View()];
    assert AllErrors([a]) == a.errors;
  }

  lemma MeasuredPartsNext(
    dispatchers: seq<WorkerMetrics>, collected: seq<WorkerMetrics>, included: seq<bool>, i: nat)
    requires |dispatchers| == |collected| == |included| && i < |included|
    ensures var front := MeasuredParts(dispatchers[..i], collected[..i], included[..i]);
            MeasuredParts(dispatchers[..i + 1], collected[..i + 1], included[..i + 1])
            == if included[i] then front + [[dispatchers[i].View(), collected[i].View()]] else front
    ensures var front := MeasuredErrors(dispatchers[..i], collected[..i], included[..i]);
            MeasuredErrors(dispatchers[..i + 1], collected[..i + 1], included[..i + 1])
            == if included[i] then front + [dispatchers[i].errors + collected[i].errors] else front
  {
    assert dispatchers[..i + 1][..i] == dispatchers[..i];
    assert collected[..i + 1][..i] == collected[..i];
    assert included[..i + 1][..i] == included[..i];
  }

  lemma MergeEachNext(parts: seq<seq<Summary>>, part: seq<Summary>)
    ensures MergeEach(parts + [part]) == MergeEach(parts) + [MergeAll(part)]
  {
  }

  lemma {:induction false} AllPresent(inputs: seq<Option<Aggregate>>, sources: seq<Summary>)
    requires |inputs| == |sources|
    requires forall i :: 0 <= i < |inputs| ==> inputs[i].Some?
    ensures Present(inputs, sources) == sources
  {
    if inputs != [] {
      var n := |inputs| - 1;
      AllPresent(inputs[..n], sources[..n]);
      assert sources[..n] + [sources[n]] == sources;
    }
  }

  /** The summary of one segment: its dispatcher book and its collector accumulator. */
  ghost function SegmentSummary(dispatcher: WorkerMetrics, collected: WorkerMetrics): Summary
    reads dispatcher, collected
  {
    MergeAll([dispatcher.View(), collected.View()])
  }

  ghost function SegmentErrors(dispatcher: WorkerMetrics, collected: WorkerMetrics): seq<ErrorSample>
    reads dispatcher, collected
  {
    AddAll([], dispatcher.errors + collected.errors)
  }

  /** What is published of one segment. */
  ghost function SegmentValue(dispatcher: WorkerMetrics, collected: WorkerMetrics): Aggregate
    reads dispatcher, collected
  {
    Published(SegmentSummary(dispatcher, collected), SegmentErrors(dispatcher, collected))
  }

  method SegmentResult(dispatcher: WorkerMetrics, collected: WorkerMetrics) returns (r: Aggregate)
    ensures r == SegmentValue(dispatcher, collected)
  {
    r := MergeWorkers([dispatcher, collected]);
    TwoViews(dispatcher, collected);
  }

  /** The inputs are published from the sources, and their error lists are the summaries of
      the given ones. */
  ghost predicate InputsDenote(
    inputs: seq<Option<Aggregate>>, sources: seq<Summary>, errors: seq<seq<ErrorSample>>)
  {
    && |inputs| == |sources|
    && (forall i :: 0 <= i < |inputs| ==> inputs[i].Some? && Denotes(inputs[i].value, sources[i]))
    && PresentErrors(inputs) == ErrorSamples.Summaries(errors)
  }

  lemma InputsNext(
    inputs: seq<Option<Aggregate>>, sources: seq<Summary>, errors: seq<seq<ErrorSample>>,
    a: Aggregate, s: Summary, more: seq<ErrorSample>)
    requires InputsDenote(inputs, sources, errors) && a == Published(s, AddAll([], more))
    ensures InputsDenote(inputs + [Some(a)], sources + [s], errors + [more])
  {
    assert (inputs + [Some(a)])[..|inputs|] == inputs;
    assert (errors + [more])[..|errors|] == errors;
  }

  /** The inputs stand for the measured segments. */
  ghost predicate MeasuredInputs(
    inputs: seq<Option<Aggregate>>, dispatchers: seq<WorkerMetrics>, collected: seq<WorkerMetrics>, included: seq<bool>)
    requires |dispatchers| == |collected| == |included|
    reads dispatchers, collected
  {
    InputsDenote(inputs, MergeEach(MeasuredParts(dispatchers, collected, included)),
                 MeasuredErrors(dispatchers, collected, included))
  }

  lemma MeasuredInputsNext(
    inputs: seq<Option<Aggregate>>, dispatchers: seq<WorkerMetrics>, collected: seq<WorkerMetrics>,
    included: seq<bool>, i: nat)
    requires |dispatchers| == |collected| == |included| && i < |included|
    requires MeasuredInputs(inputs, dispatchers[..i], collected[..i], included[..i])
    ensures MeasuredInputs(if included[i] then inputs + [Some(SegmentValue(dispatchers[i], collected[i]))] else inputs,
                           dispatchers[..i + 1], collected[..i + 1], included[..i + 1])
  {
    MeasuredPartsNext(dispatchers, collected, included, i);
    if included[i] {
      var parts := MeasuredParts(dispatchers[..i], collected[..i], included[..i]);
      var errors := MeasuredErrors(dispatchers[..i], collected[..i], included[..i]);
      var part := [dispatchers[i].View(), collected[i].View()];
      var more := dispatchers[i].errors + collected[i].errors;
      MergeEachNext(parts, part);
      InputsNext(inputs, MergeEach(parts), errors, SegmentValue(dispatchers[i], collected[i]), MergeAll(part), more);
    }
  }

  ghost predicate AllSound(dispatchers: seq<WorkerMetrics>, collected: seq<WorkerMetrics>)
    reads dispatchers, collected
  {
    && (forall w :: w in dispatchers ==> w.Sound() && w.errors == [])
    && (forall w :: w in collected ==> w.Sound())
  }

  lemma TwoCanonical(a: Summary, b: Summary)
    requires Canonical(a) && Canonical(b)
    ensures AllCanonical([a, b])
  {
  }

  lemma PartsNext(parts: seq<seq<Summary>>, part: seq<Summary>, errors: seq<seq<ErrorSample>>, more: seq<ErrorSample>)
    requires PartsCanonical(parts) && AllCanonical(part)
    requires SmallParts(errors) && |KeySet(more)| <= MAX_ERRORS
    ensures PartsCanonical(parts + [part]) && SmallParts(errors + [more])
  {
  }

  lemma SoundPart(dispatcher: WorkerMetrics, collected: WorkerMetrics)
    requires dispatcher.Sound() && dispatcher.errors == [] && collected.Sound()
    ensures AllCanonical([dispatcher.View(), collected.View()])
    ensures |KeySet(dispatcher.errors + collected.errors)| <= MAX_ERRORS
  {
    TwoCanonical(dispatcher.View(), collected.View());
    assert dispatcher.errors + collected.errors == collected.errors;
    FewKeys(collected.errors);
  }

  lemma {:induction false} SoundParts(
    dispatchers: seq<WorkerMetrics>, collected: seq<WorkerMetrics>, included: seq<bool>, n: nat)
    requires n <= |dispatchers| == |collected| == |included| && AllSound(dispatchers, collected)
    ensures PartsCanonical(MeasuredParts(dispatchers[..n], collected[..n], included[..n]))
    ensures SmallParts(MeasuredErrors(dispatchers[..n], collected[..n], included[..n]))
  {
    if n > 0 {
      SoundParts(dispatchers, collected, included, n - 1);
      var d, c := dispatchers[n - 1], collected[n - 1];
      SoundPart(d, c);
      MeasuredPartsNext(dispatchers, collected, included, n - 1);
      PartsNext(MeasuredParts(dispatchers[..n - 1], collected[..n - 1], included[..n - 1]), [d.View(), c.View()],
                MeasuredErrors(dispatchers[..n - 1], collected[..n - 1], included[..n - 1]), d.errors + c.errors);
    }
  }

  lemma {:induction false} FewKeys(list: seq<ErrorSample>)
    ensures |KeySet(list)| <= |list|
    decreases |list|
  {
    if list != [] {
      var n := |list| - 1;
      FewKeys(list[..n]);
      assert list == list[..n] + [list[n]];
      KeysAppend(list[..n], [list[n]]);
      assert KeySet(list) == KeySet(list[..n]) + {list[n].key};
    }
  }

  /** The results of the first segments. */
  ghost predicate ResultsOf(segments: seq<Aggregate>, dispatchers: seq<WorkerMetrics>, collected: seq<WorkerMetrics>)
    requires |segments| <= |dispatchers| == |collected|
    reads dispatchers, collected
  {
    forall i :: 0 <= i < |segments| ==> segments[i] == SegmentValue(dispatchers[i], collected[i])
  }

  /** The first segments are done: their results are there, and those of the measured ones. */
  ghost predicate Progress(
    segments: seq<Aggregate>, inputs: seq<Option<Aggregate>>,
    dispatchers: seq<WorkerMetrics>, collected: seq<WorkerMetrics>, included: seq<bool>)
    requires |segments| <= |dispatchers| == |collected| == |included|
    reads dispatchers, collected
  {
    && ResultsOf(segments, dispatchers, collected)
    && var n := |segments|;
       MeasuredInputs(inputs, dispatchers[..n], collected[..n], included[..n])
  }

  lemma ResultsNext(
    segments: seq<Aggregate>, dispatchers: seq<WorkerMetrics>, collected: seq<WorkerMetrics>, a: Aggregate)
    requires |segments| < |dispatchers| == |collected| && ResultsOf(segments, dispatchers, collected)
    requires a == SegmentValue(dispatchers[|segments|], collected[|segments|])
    ensures ResultsOf(segments + [a], dispatchers, collected)
  {
  }

  lemma ProgressNext(
    segments: seq<Aggregate>, inputs: seq<Option<Aggregate>>,
    dispatchers: seq<WorkerMetrics>, collected: seq<WorkerMetrics>, included: seq<bool>, a: Aggregate)
    requires |segments| < |dispatchers| == |collected| == |included|
    requires Progress(segments, inputs, dispatchers, collected, included)
    requires a == SegmentValue(dispatchers[|segments|], collected[|segments|])
    ensures Progress(segments + [a], if included[|segments|] then inputs + [Some(a)] else inputs,
                     dispatchers, collected, included)
  {
    ResultsNext(segments, dispatchers, collected, a);
    MeasuredInputsNext(inputs, dispatchers, collected, included, |segments|);
  }

  lemma ProgressEnd(
    segments: seq<Aggregate>, inputs: seq<Option<Aggregate>>,
    dispatchers: seq<WorkerMetrics>, collected: seq<WorkerMetrics>, included: seq<bool>)
    requires |segments| == |dispatchers| == |collected| == |included|
    requires Progress(segments, inputs, dispatchers, collected, included)
    ensures MeasuredInputs(inputs, dispatchers, collected, included)
  {
    var n := |segments|;
    assert dispatchers[..n] == dispatchers && collected[..n] == collected && included[..n] == included;
  }

  lemma SoundMeasured(dispatchers: seq<WorkerMetrics>, collected: seq<WorkerMetrics>, included: seq<bool>)
    requires |dispatchers| == |collected| == |included| && AllSound(dispatchers, collected)
    ensures PartsCanonical(MeasuredParts(dispatchers, collected, included))
    ensures Staged(MeasuredErrors(dispatchers, collected, included))
         == Direct(MeasuredErrors(dispatchers, collected, included))
  {
    var n := |included|;
    assert dispatchers[..n] == dispatchers && collected[..n] == collected && included[..n] == included;
    SoundParts(dispatchers, collected, included, n);
    SmallPartsExact(MeasuredErrors(dispatchers, collected, included));
  }

  /** Merges the two accumulators of every segment. */
  method EachSegment(dispatchers: seq<WorkerMetrics>, collected: seq<WorkerMetrics>, included: seq<bool>)
    returns (segments: seq<Aggregate>, inputs: seq<Option<Aggregate>>)
    requires |dispatchers| == |collected| == |included|
    ensures |segments| == |included| && Progress(segments, inputs, dispatchers, collected, included)
  {
    segments, inputs := [], [];
    for i := 0 to |included|
      invariant |segments| == i && Progress(segments, inputs, dispatchers, collected, included)
    {
      var segment := SegmentResult(dispatchers[i], collected[i]);
      ProgressNext(segments, inputs, dispatchers, collected, included, segment);
      segments, inputs := segments + [segment], if included[i] then inputs + [Some(segment)] else inputs;
    }
  }

  /** What merging all measured accumulators at once publishes. */
  ghost function MeasuredValue(dispatchers: seq<WorkerMetrics>, collected: seq<WorkerMetrics>, included: seq<bool>)
    : Aggregate
    requires |dispatchers| == |collected| == |included|
    reads dispatchers, collected
  {
    Published(MergeAll(Flatten(MeasuredParts(dispatchers, collected, included))),
              Direct(MeasuredErrors(dispatchers, collected, included)))
  }

  method MergedMeasured(
    inputs: seq<Option<Aggregate>>, ghost parts: seq<seq<Summary>>, ghost errors: seq<seq<ErrorSample>>)
    returns (r: Result<Aggregate, string>)
    requires InputsDenote(inputs, MergeEach(parts), errors)
    ensures PartsCanonical(parts) ==> r == Success(Published(MergeAll(Flatten(parts)), Staged(errors)))
  {
    r := MergeAggregates(inputs, MergeEach(parts));
    AllPresent(inputs, MergeEach(parts));
    assert AllDenote(inputs, MergeEach(parts));
    if PartsCanonical(parts) {
      GroupingIndependent(parts);
    }
  }

  method MeasuredResult(
    inputs: seq<Option<Aggregate>>,
    ghost dispatchers: seq<WorkerMetrics>, ghost collected: seq<WorkerMetrics>, ghost included: seq<bool>)
    returns (r: Result<Aggregate, string>)
    requires |dispatchers| == |collected| == |included|
    requires MeasuredInputs(inputs, dispatchers, collected, included)
    ensures AllSound(dispatchers, collected) ==> r == Success(MeasuredValue(dispatchers, collected, included))
  {
    ghost var parts := MeasuredParts(dispatchers, collected, included);
    ghost var errors := MeasuredErrors(dispatchers, collected, included);
    if AllSound(dispatchers, collected) {
      SoundMeasured(dispatchers, collected, included);
    }
    r := MergedMeasured(inputs, parts, errors);
  }

  /** Merges every segment's dispatcher and worker accumulators, then the results of the
      measured segments. The measured result, errors included, is what merging all measured
      accumulators at once would give: dispatchers meet no errors, so no part holds more
      than ten. */
  method SegmentResults(dispatchers: seq<WorkerMetrics>, collected: seq<WorkerMetrics>, included: seq<bool>)
    returns (segments: seq<Aggregate>, measured: Result<Aggregate, string>)
    requires |dispatchers| == |collected| == |included|
    ensures |segments| == |included|
    ensures ResultsOf(segments, dispatchers, collected)
    ensures AllSound(dispatchers, collected) ==>
      measured == Success(MeasuredValue(dispatchers, collected, included))
  {
    var inputs: seq<Option<Aggregate>>;
    segments, inputs := EachSegment(dispatchers, collected, included);
    ProgressEnd(segments, inputs, dispatchers, collected, included);
    measured := MeasuredResult(inputs, dispatchers, collected, included);
  }
}
