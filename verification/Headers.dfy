/** Agreement of parsed rate-limit headers: a counter, a parse-error counter, a flag and a
    capped sample list per header name, recorded by workers and merged afterwards. */
module Headers {
  import opened Books
  import opened Sampling

  const MAX_SAMPLES: nat := 10

  datatype Consistency = Consistency(observed: nat, parseErrors: nat, agree: bool, samples: seq<string>)

  /** What reading a missing map entry yields. */
  const NOTHING := Consistency(0, 0, false, [])

  type HeaderMap = map<string, Consistency>

  function Lookup(m: HeaderMap, name: string): Consistency {
    if name in m then m[name] else NOTHING
  }

  /** Compares a parsed value with the first retained one and offers it as a sample. */
  function Sampled(c: Consistency, value: string): Consistency {
    c.(agree := c.agree && (c.samples == [] || c.samples[0] == value),
       samples := Offer(c.samples, value, MAX_SAMPLES))
  }

  function SampledAll(c: Consistency, values: seq<string>): Consistency {
    if values == [] then c
    else Sampled(SampledAll(c, values[..|values| - 1]), values[|values| - 1])
  }

  function Observed(c: Consistency, o: HeaderObservation): Consistency {
    var seen := c.(observed := c.observed + 1, agree := c.observed == 0 || c.agree);
    if !o.valid then seen.(parseErrors := c.parseErrors + 1)
    else if o.value != "" then Sampled(seen, o.value)
    else seen
  }

  function RecordOne(m: HeaderMap, o: HeaderObservation): HeaderMap {
    if o.present then m[o.name := Observed(Lookup(m, o.name), o)] else m
  }

  function RecordAll(m: HeaderMap, os: seq<HeaderObservation>): HeaderMap {
    if os == [] then m else RecordOne(RecordAll(m, os[..|os| - 1]), os[|os| - 1])
  }

  /** What a join starts from before it absorbs the incoming samples. */
  function Joining(current: Consistency, incoming: Consistency): Consistency {
    current.(observed := current.observed + incoming.observed,
             parseErrors := current.parseErrors + incoming.parseErrors,
             agree := (current.observed == 0 || current.agree) && incoming.agree)
  }

  function Join(current: Consistency, incoming: Consistency): Consistency {
    SampledAll(Joining(current, incoming), incoming.samples)
  }

  function MergeHeaders(destination: HeaderMap, source: HeaderMap): HeaderMap {
    map name | name in destination.Keys + source.Keys ::
      if name in source then Join(Lookup(destination, name), source[name]) else destination[name]
  }

  // -- What the summary of a stream should be --------------------------------------

  predicate Mentions(o: HeaderObservation, name: string) {
    o.present && o.name == name
  }

  predicate Parsed(o: HeaderObservation, name: string) {
    Mentions(o, name) && o.valid && o.value != ""
  }

  function Occurrences(os: seq<HeaderObservation>, name: string): nat {
    if os == [] then 0
    else
      var rest := Occurrences(os[..|os| - 1], name);
      if Mentions(os[|os| - 1], name) then rest + 1 else rest
  }

  function Unparsed(os: seq<HeaderObservation>, name: string): nat {
    if os == [] then 0
    else
      var rest := Unparsed(os[..|os| - 1], name);
      if Mentions(os[|os| - 1], name) && !os[|os| - 1].valid then rest + 1 else rest
  }

  /** The values of a header that parsed to something, in stream order. */
  function Values(os: seq<HeaderObservation>, name: string): seq<string> {
    if os == [] then []
    else
      var rest := Values(os[..|os| - 1], name);
      if Parsed(os[|os| - 1], name) then rest + [os[|os| - 1].value] else rest
  }

  ghost predicate AllAre(values: seq<string>, v: string) {
    forall i :: 0 <= i < |values| ==> values[i] == v
  }

  ghost predicate AllEqual(values: seq<string>) {
    values != [] ==> AllAre(values, values[0])
  }

  /** An entry is exact for a stream: counts are totals, the flag says whether all parsed
      values are equal, and the samples are the first ten distinct ones. */
  ghost predicate Exact(c: Consistency, os: seq<HeaderObservation>, name: string) {
    && c.observed == Occurrences(os, name)
    && c.parseErrors == Unparsed(os, name)
    && (c.agree <==> AllEqual(Values(os, name)))
    && c.samples == FirstDistinct(Values(os, name), MAX_SAMPLES)
  }

  /** A header map holds exact entries for exactly the headers that occur in a stream. */
  ghost predicate Describes(m: HeaderMap, os: seq<HeaderObservation>) {
    forall name :: (name in m <==> Occurrences(os, name) > 0) && (name in m ==> Exact(m[name], os, name))
  }

  // -- Exactness -------------------------------------------------------------------

  lemma FirstSample(values: seq<string>)
    ensures FirstDistinct(values, MAX_SAMPLES) == [] <==> values == []
    ensures values != [] ==> FirstDistinct(values, MAX_SAMPLES)[0] == values[0]
    decreases |values|
  {
    AbsorbKeeps<string>([], values, MAX_SAMPLES);
    if |values| > 1 {
      FirstSample(values[..|values| - 1]);
    }
  }

  lemma NoOccurrences(os: seq<HeaderObservation>, name: string)
    requires Occurrences(os, name) == 0
    ensures Values(os, name) == [] && Unparsed(os, name) == 0
    decreases |os|
  {
  }

  lemma AppendOne(os: seq<HeaderObservation>, o: HeaderObservation, name: string)
    ensures Occurrences(os + [o], name) == Occurrences(os, name) + if Mentions(o, name) then 1 else 0
    ensures Unparsed(os + [o], name) == Unparsed(os, name) + if Mentions(o, name) && !o.valid then 1 else 0
    ensures Values(os + [o], name) == if Parsed(o, name) then Values(os, name) + [o.value] else Values(os, name)
  {
    assert (os + [o])[..|os|] == os;
  }

  lemma SampledExact(c: Consistency, values: seq<string>, value: string)
    requires (c.agree <==> AllEqual(values)) && c.samples == FirstDistinct(values, MAX_SAMPLES)
    ensures Sampled(c, value).agree <==> AllEqual(values + [value])
    ensures Sampled(c, value).samples == FirstDistinct(values + [value], MAX_SAMPLES)
  {
    FirstSample(values);
    AbsorbOne([], values, value, MAX_SAMPLES);
    var longer := values + [value];
    if values != [] {
      assert longer[0] == values[0] && longer[|values|] == value;
      assert AllAre(values, values[0]) ==> forall i :: 0 <= i < |values| ==> longer[i] == values[0];
      assert AllAre(longer, values[0]) ==> forall i :: 0 <= i < |values| ==> values[i] == longer[i];
    }
  }

  lemma ObservedExact(c: Consistency, os: seq<HeaderObservation>, o: HeaderObservation)
    requires o.present
    requires if Occurrences(os, o.name) == 0 then c == NOTHING else Exact(c, os, o.name)
    ensures Exact(Observed(c, o), os + [o], o.name)
  {
    var values := Values(os, o.name);
    AppendOne(os, o, o.name);
    if Occurrences(os, o.name) == 0 { NoOccurrences(os, o.name); }
    var seen := c.(observed := c.observed + 1, agree := c.observed == 0 || c.agree);
    if o.valid && o.value != "" {
      SampledExact(seen, values, o.value);
    }
  }

  lemma RecordOneExact(m: HeaderMap, os: seq<HeaderObservation>, o: HeaderObservation)
    requires Describes(m, os)
    ensures Describes(RecordOne(m, o), os + [o])
  {
    forall name
      ensures var r := RecordOne(m, o);
              (name in r <==> Occurrences(os + [o], name) > 0) && (name in r ==> Exact(r[name], os + [o], name))
    {
      AppendOne(os, o, name);
      if o.present && o.name == name {
        ObservedExact(Lookup(m, name), os, o);
      }
    }
  }

  /** Recording is exact: a worker's map describes the stream it has observed. */
  lemma {:induction false} RecordingExact(m: HeaderMap, before: seq<HeaderObservation>, os: seq<HeaderObservation>)
    requires Describes(m, before)
    ensures Describes(RecordAll(m, os), before + os)
    decreases |os|
  {
    if os == [] {
      assert before + os == before;
    } else {
      var front := os[..|os| - 1];
      RecordingExact(m, before, front);
      RecordOneExact(RecordAll(m, front), before + front, os[|os| - 1]);
      assert before + os == before + front + [os[|os| - 1]];
    }
  }

  lemma {:induction false} StreamsAppend(xs: seq<HeaderObservation>, ys: seq<HeaderObservation>, name: string)
    ensures Occurrences(xs + ys, name) == Occurrences(xs, name) + Occurrences(ys, name)
    ensures Unparsed(xs + ys, name) == Unparsed(xs, name) + Unparsed(ys, name)
    ensures Values(xs + ys, name) == Values(xs, name) + Values(ys, name)
    decreases |ys|
  {
    if ys == [] {
      assert xs + ys == xs;
    } else {
      var front, last := ys[..|ys| - 1], ys[|ys| - 1];
      StreamsAppend(xs, front, name);
      assert xs + ys == (xs + front) + [last] && ys == front + [last];
      AppendOne(xs + front, last, name);
      AppendOne(front, last, name);
    }
  }

  lemma {:induction false} SampledAllKeeps(c: Consistency, values: seq<string>)
    ensures var r := SampledAll(c, values);
            && r.observed == c.observed && r.parseErrors == c.parseErrors
            && r.samples == Absorb(c.samples, values, MAX_SAMPLES)
            && (c.samples != [] ==> r.samples != [] && r.samples[0] == c.samples[0])
            && (c.samples == [] && values != [] ==> r.samples != [] && r.samples[0] == values[0])
    decreases |values|
  {
    if values != [] {
      SampledAllKeeps(c, values[..|values| - 1]);
    }
  }

  function Reference(samples: seq<string>, values: seq<string>): string {
    if samples != [] then samples[0] else if values != [] then values[0] else ""
  }

  /** The flag survives absorbing samples exactly when they all equal the first retained
      value, or each other if nothing was retained. */
  lemma {:induction false} SampledAllAgree(c: Consistency, values: seq<string>)
    ensures SampledAll(c, values).agree <==> c.agree && AllAre(values, Reference(c.samples, values))
    decreases |values|
  {
    if values != [] {
      var front, last := values[..|values| - 1], values[|values| - 1];
      SampledAllAgree(c, front);
      SampledAllKeeps(c, front);
      assert forall i :: 0 <= i < |front| ==> front[i] == values[i];
    }
  }

  lemma SomeDiffer(values: seq<string>, v: string)
    requires Distinct(values) && |values| > 1
    ensures !AllAre(values, v)
  {
    assert values[0] != values[1];
  }

  /** A list whose retained samples are all one value consists of that value. */
  lemma RetainedAll(values: seq<string>, v: string)
    ensures AllAre(FirstDistinct(values, MAX_SAMPLES), v) <==> AllAre(values, v)
  {
    var retained := FirstDistinct(values, MAX_SAMPLES);
    AbsorbKeeps<string>([], values, MAX_SAMPLES);
    if AllAre(values, v) {
      forall i | 0 <= i < |retained| ensures retained[i] == v { assert retained[i] in values; }
    }
    if AllAre(retained, v) {
      if |retained| > 1 { SomeDiffer(retained, v); }
      forall i | 0 <= i < |values| ensures values[i] == v { assert values[i] in values && values[i] in retained; }
    }
  }

  lemma AllAreAppend(xs: seq<string>, ys: seq<string>, v: string)
    ensures AllAre(xs + ys, v) <==> AllAre(xs, v) && AllAre(ys, v)
  {
    assert forall i :: 0 <= i < |xs| ==> (xs + ys)[i] == xs[i];
    assert forall i :: 0 <= i < |ys| ==> (xs + ys)[|xs| + i] == ys[i];
  }

  /** The flag of a join is exact although it only sees retained samples: a stream that
      lost samples to the cap already disagrees with itself. */
  lemma JoinAgree(start: Consistency, incoming: seq<string>, xs: seq<string>, ys: seq<string>)
    requires start.agree <==> AllEqual(xs) && AllEqual(ys)
    requires start.samples == FirstDistinct(xs, MAX_SAMPLES) && incoming == FirstDistinct(ys, MAX_SAMPLES)
    ensures SampledAll(start, incoming).agree <==> AllEqual(xs + ys)
  {
    FirstSample(xs);
    FirstSample(ys);
    SampledAllAgree(start, incoming);
    var v := Reference(start.samples, incoming);
    RetainedAll(ys, v);
    AllAreAppend(xs, ys, v);
    if xs == [] {
      assert xs + ys == ys;
    } else {
      assert (xs + ys)[0] == xs[0] == v;
      if ys != [] && AllAre(ys, v) { assert ys[0] == v; }
    }
  }

  lemma JoinSummary(current: Consistency, incoming: Consistency, xs: seq<string>, ys: seq<string>)
    requires current.observed == 0 ==> current == NOTHING && xs == []
    requires current.observed > 0 ==> (current.agree <==> AllEqual(xs)) && current.samples == FirstDistinct(xs, MAX_SAMPLES)
    requires (incoming.agree <==> AllEqual(ys)) && incoming.samples == FirstDistinct(ys, MAX_SAMPLES)
    ensures var r := Join(current, incoming);
            && r.observed == current.observed + incoming.observed
            && r.parseErrors == current.parseErrors + incoming.parseErrors
            && (r.agree <==> AllEqual(xs + ys))
            && r.samples == FirstDistinct(xs + ys, MAX_SAMPLES)
  {
    var start := Joining(current, incoming);
    SampledAllKeeps(start, incoming.samples);
    FirstDistinctOfParts(xs, ys, MAX_SAMPLES);
    JoinAgree(start, incoming.samples, xs, ys);
  }

  lemma JoinExact(
    current: Consistency, incoming: Consistency, xs: seq<HeaderObservation>, ys: seq<HeaderObservation>, name: string)
    requires if Occurrences(xs, name) == 0 then current == NOTHING else Exact(current, xs, name)
    requires Exact(incoming, ys, name)
    ensures Exact(Join(current, incoming), xs + ys, name)
  {
    var left, right := Values(xs, name), Values(ys, name);
    if Occurrences(xs, name) == 0 { NoOccurrences(xs, name); }
    JoinSummary(current, incoming, left, right);
    StreamsAppend(xs, ys, name);
  }

  /** Merging is exact: the merge of two descriptions describes the concatenated stream. */
  lemma MergingExact(a: HeaderMap, b: HeaderMap, xs: seq<HeaderObservation>, ys: seq<HeaderObservation>)
    requires Describes(a, xs) && Describes(b, ys)
    ensures Describes(MergeHeaders(a, b), xs + ys)
  {
    var merged := MergeHeaders(a, b);
    forall name
      ensures name in merged <==> Occurrences(xs + ys, name) > 0
      ensures name in merged ==> Exact(merged[name], xs + ys, name)
    {
      StreamsAppend(xs, ys, name);
      if name in b {
        JoinExact(Lookup(a, name), b[name], xs, ys, name);
      } else {
        NoOccurrences(ys, name);
        assert Values(xs, name) + Values(ys, name) == Values(xs, name);
      }
    }
  }

  /** A stream has one description. */
  lemma DescriptionUnique(a: HeaderMap, b: HeaderMap, os: seq<HeaderObservation>)
    requires Describes(a, os) && Describes(b, os)
    ensures a == b
  {
    assert a.Keys == b.Keys;
    forall name | name in a ensures a[name] == b[name] {
      assert Exact(a[name], os, name) && Exact(b[name], os, name);
    }
  }

  // -- Any split and any grouping ---------------------------------------------------

  /** Streams recorded by workers and merged pairwise in any shape. */
  datatype Grouping = Stream(os: seq<HeaderObservation>) | Merged(left: Grouping, right: Grouping)

  function Computed(g: Grouping): HeaderMap {
    match g
    case Stream(os) => RecordAll(map[], os)
    case Merged(left, right) => MergeHeaders(Computed(left), Computed(right))
  }

  function Everything(g: Grouping): seq<HeaderObservation> {
    match g
    case Stream(os) => os
    case Merged(left, right) => Everything(left) + Everything(right)
  }

  /** However a stream of observations is split over workers and merged, the counts are
      exact and the agreement flag holds exactly when all parsed values are equal. */
  lemma {:induction false} AgreementExact(g: Grouping)
    ensures Describes(Computed(g), Everything(g))
  {
    match g
    case Stream(os) =>
      RecordingExact(map[], [], os);
      assert [] + os == os;
    case Merged(left, right) =>
      AgreementExact(left);
      AgreementExact(right);
      MergingExact(Computed(left), Computed(right), Everything(left), Everything(right));
  }
}
