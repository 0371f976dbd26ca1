/** Worker accumulators, the per-segment collector and the merges that produce results. */
module Metrics {
  import opened Results
  import opened Decimal
  import opened Books
  import opened Sampling
  import opened Headers
  import opened Summaries
  import opened ErrorSamples
  import opened StoredErrors

  function OutcomeName(o: Outcome): string {
    match o
    case Succeeded => "success"
    case UnexpectedStatus => "unexpected_status"
    case RateLimited => "rate_limited"
    case Timeout => "timeout"
    case DnsError => "dns_error"
    case ConnectError => "connect_error"
    case TlsError => "tls_error"
    case RequestBuildError => "request_build_error"
    case ResponseBodyError => "response_body_error"
    case Canceled => "canceled"
    case OtherTransportError => "other_transport_error"
    case Dropped => "dropped"
  }

  /** The error sample of a response, if it has one. */
  function ErrorOf(r: Response): Option<ErrorSample> {
    match r.error
    case Some(message) => Some(ErrorEntry(message, OutcomeName(r.outcome)))
    case None =>
      if r.outcome == UnexpectedStatus
      then Some(ErrorEntry("unexpected HTTP status code " + Itoa(r.statusCode), OutcomeName(r.outcome)))
      else None
  }

  function WithErrorOf(errors: seq<ErrorSample>, r: Response): seq<ErrorSample> {
    match ErrorOf(r)
    case None => errors
    case Some(s) => AddWithin(errors, s, MAX_ERRORS)
  }

  /** A value and an error list as accumulators hold them. */
  ghost predicate SoundValue(s: Summary, errors: seq<ErrorSample>) {
    Canonical(s) && Storable(errors)
  }

  lemma RecordingSound(s: Summary, errors: seq<ErrorSample>, r: Response)
    ensures SoundValue(s, errors) ==> SoundValue(Recording(s, r), WithErrorOf(errors, r))
  {
    if SoundValue(s, errors) {
      RecordingCanonical(s, r);
      if ErrorOf(r).Some? {
        NormalizedTwice(if r.error.Some? then r.error.value else "unexpected HTTP status code " + Itoa(r.statusCode));
        AddingStorable(errors, ErrorOf(r).value);
      }
    }
  }

  lemma MergeSound(a: Summary, errors: seq<ErrorSample>, b: Summary, more: seq<ErrorSample>)
    ensures SoundValue(a, errors) && SoundValue(b, more) ==> SoundValue(Merge(a, b), Reentered(errors, more))
  {
    if SoundValue(a, errors) && SoundValue(b, more) {
      MergeCanonical(a, b);
      ReenteringStorable(errors, more);
    }
  }

  function CodeKeys(codes: multiset<Int64>): set<string> {
    set code | code in codes :: Itoa(code)
  }

  function CodeCount(codes: multiset<Int64>, text: string): nat {
    match Atoi(text)
    case Some(code) => codes[code]
    case None => 0
  }

  /** Status counts keyed by text, as results report them. */
  function TextCodes(codes: multiset<Int64>): map<string, nat> {
    map text | text in CodeKeys(codes) :: CodeCount(codes, text)
  }

  lemma TextCodesAt(codes: multiset<Int64>, code: Int64)
    ensures Itoa(code) in TextCodes(codes) <==> code in codes
    ensures code in codes ==> TextCodes(codes)[Itoa(code)] == codes[code]
  {
    AtoiOfItoa(code);
    if Itoa(code) in TextCodes(codes) {
      var other :| other in codes && Itoa(other) == Itoa(code);
      ItoaInjective(other, code);
    }
  }

  /** Sum in microseconds, and number, of the positive times to first byte. */
  datatype FirstBytes = FirstBytes(sum: int, count: nat)

  function Timed(f: FirstBytes, r: Response): FirstBytes {
    if r.firstByteNs > 0 then FirstBytes(f.sum + Microseconds(r.firstByteNs), f.count + 1) else f
  }

  /** A worker-local accumulator; `counts` groups its additive fields. First-byte times are
      recorded but take no part in merging. */
  class WorkerMetrics {
    const workerId: int
    var counts: Counts
    var retryAfter: seq<string>
    var limits: seq<LimitSample>
    var headers: HeaderMap
    var errors: seq<ErrorSample>
    var lagMaxMs: real
    var firstThrottle: int
    var firstBytes: FirstBytes

    constructor (workerId: int)
      ensures View() == EMPTY && errors == [] && firstBytes == FirstBytes(0, 0)
      ensures Sound()
    {
      this.workerId := workerId;
      counts := ZERO;
      retryAfter, limits, headers, errors := [], [], map[], [];
      lagMaxMs, firstThrottle, firstBytes := 0.0, -1, FirstBytes(0, 0);
      new;
      EmptyCanonical();
    }

    /** The form the merge laws need; construction, recording and merging keep it. */
    ghost predicate Sound()
      reads this
    {
      SoundValue(View(), errors)
    }

    function View(): Summary
      reads this`counts, this`retryAfter, this`limits, this`headers, this`lagMaxMs, this`firstThrottle
    {
      Summary(counts, retryAfter, limits, headers, lagMaxMs, firstThrottle)
    }

    method RecordError(message: string, class_: string)
      modifies this`errors
      ensures errors == AddWithin(old(errors), ErrorEntry(message, class_), MAX_ERRORS)
    {
      var key := ErrorEntry(message, class_).key;
      var i := 0;
      while i < |errors|
        invariant 0 <= i <= |errors| && errors == old(errors)
        invariant forall j :: 0 <= j < i ==> errors[j].key != key
      {
        if errors[i].key == key {
          AddAtIndex(errors, ErrorEntry(message, class_), MAX_ERRORS, i);
          errors := errors[i := ErrorSample(key, errors[i].count + 1)];
          return;
        }
        i := i + 1;
      }
      AddAtEnd(errors, ErrorEntry(message, class_), MAX_ERRORS);
      if |errors| < MAX_ERRORS {
        errors := errors + [ErrorSample(key, 1)];
      }
    }

    method RecordHeaders(os: seq<HeaderObservation>)
      modifies this`headers
      ensures headers == RecordAll(old(headers), os)
    {
      for i := 0 to |os|
        invariant headers == RecordAll(old(headers), os[..i])
      {
        assert os[..i + 1][..i] == os[..i];
        var o := os[i];
        if o.present {
          var c := if o.name in headers then headers[o.name] else NOTHING;
          if c.observed == 0 {
            c := c.(agree := true);
          }
          c := c.(observed := c.observed + 1);
          if !o.valid {
            c := c.(parseErrors := c.parseErrors + 1);
          } else if o.value != "" {
            if |c.samples| > 0 && c.samples[0] != o.value {
              c := c.(agree := false);
            }
            if |c.samples| < MAX_SAMPLES && o.value !in c.samples {
              c := c.(samples := c.samples + [o.value]);
            }
          }
          headers := headers[o.name := c];
        }
      }
      assert os[..|os|] == os;
    }

    method RecordCounts(r: Response)
      modifies this`counts
      ensures counts == Plus(old(counts), Recorded(r))
    {
      var c := counts;
      c := c.(outcomes := c.outcomes + multiset{r.outcome});
      if r.statusCode > 0 {
        c := c.(statusCodes := c.statusCodes + multiset{r.statusCode});
      }
      var latency := Clamped(Microseconds(r.latencyNs));
      c := c.(allLatency := c.allLatency + multiset{latency});
      if r.outcome == Succeeded {
        c := c.(successLatency := c.successLatency + multiset{latency});
      }
      c := c.(bytesSent := c.bytesSent + r.bytesSent, bytesReceived := c.bytesReceived + r.bytesReceived);
      if r.statusCode == TOO_MANY_REQUESTS || r.outcome == RateLimited {
        c := c.(throttled := c.throttled + 1);
      }
      counts := c;
    }

    method RecordRateLimit(info: RateLimitInfo)
      modifies this`retryAfter, this`limits, this`headers
      ensures retryAfter == OfferAll(old(retryAfter), info.retryAfter)
      ensures limits == OfferAll(old(limits), info.limits)
      ensures headers == RecordAll(old(headers), info.observations)
    {
      if |retryAfter| < MAX_SAMPLES && info.retryAfter.Some? && info.retryAfter.value !in retryAfter {
        retryAfter := retryAfter + [info.retryAfter.value];
      }
      if |limits| < MAX_SAMPLES && info.limits.Some? && info.limits.value !in limits {
        limits := limits + [info.limits.value];
      }
      RecordHeaders(info.observations);
    }

    method RecordFirstByte(r: Response)
      modifies this`firstBytes
      ensures firstBytes == Timed(old(firstBytes), r)
    {
      if r.firstByteNs > 0 {
        firstBytes := FirstBytes(firstBytes.sum + r.firstByteNs / 1000, firstBytes.count + 1);
      }
    }

    method RecordInfo(rateLimit: Option<RateLimitInfo>)
      modifies this`retryAfter, this`limits, this`headers
      ensures View() == WithInfo(old(View()), rateLimit)
    {
      if rateLimit.Some? {
        RecordRateLimit(rateLimit.value);
      }
    }

    method RecordErrorOf(r: Response)
      modifies this`errors
      ensures errors == WithErrorOf(old(errors), r)
    {
      if r.error.Some? {
        RecordError(r.error.value, OutcomeName(r.outcome));
      } else if r.outcome == UnexpectedStatus {
        RecordError("unexpected HTTP status code " + Itoa(r.statusCode), OutcomeName(r.outcome));
      }
    }

    /** Records the outcome, status, latency, bytes and diagnostics of one response. */
    method RecordResult(r: Response)
      modifies this
      ensures View() == Recording(old(View()), r) && firstBytes == Timed(old(firstBytes), r)
      ensures errors == WithErrorOf(old(errors), r)
      ensures old(Sound()) ==> Sound()
    {
      ghost var before := View();
      RecordCounts(r);
      ghost var counted := View();
      assert counted == before.(counts := Plus(before.counts, Recorded(r)));
      RecordFirstByte(r);
      RecordErrorOf(r);
      RecordInfo(r.rateLimit);
      assert View() == WithInfo(counted, r.rateLimit);
      RecordingSound(before, old(errors), r);
    }

    /** Adds another accumulator to this one; stored errors are recorded again, once each. */
    method MergeFrom(source: WorkerMetrics)
      requires source != this
      modifies this
      ensures View() == Merge(old(View()), source.View()) && firstBytes == old(firstBytes)
      ensures errors == Reentered(old(errors), source.errors)
      ensures old(Sound()) && source.Sound() ==> Sound()
    {
      ghost var before := View();
      var sum := Summed(counts, source.counts);
      var joined := JoinedHeaders(headers, source.headers);
      var retries := Absorbed(retryAfter, source.retryAfter);
      var samples := Absorbed(limits, source.limits);
      ReenterErrors(source.errors);
      MergeSound(before, old(errors), source.View(), source.errors);
      counts, headers, retryAfter, limits := sum, joined, retries, samples;
      NoteLag(source.lagMaxMs);
      if source.firstThrottle >= 0 {
        NoteThrottle(source.firstThrottle);
      }
    }

    /** Keeps the largest dispatch lag. */
    method NoteLag(lagMs: real)
      modifies this`lagMaxMs
      ensures lagMaxMs == MaxLag(old(lagMaxMs), lagMs)
      ensures old(Sound()) ==> Sound()
    {
      if lagMs > lagMaxMs {
        lagMaxMs := lagMs;
      }
    }

    /** Keeps the earliest planned offset of a throttled request. */
    method NoteThrottle(plannedOffset: int)
      requires plannedOffset >= 0
      modifies this`firstThrottle
      ensures firstThrottle == FirstThrottle(old(firstThrottle), plannedOffset)
      ensures old(Sound()) ==> Sound()
    {
      if firstThrottle < 0 || plannedOffset < firstThrottle {
        firstThrottle := plannedOffset;
      }
    }

    method ReenterErrors(xs: seq<ErrorSample>)
      modifies this`errors
      ensures errors == Reentered(old(errors), xs)
    {
      for i := 0 to |xs|
        invariant errors == Reentered(old(errors), xs[..i])
      {
        assert xs[..i + 1][..i] == xs[..i];
        RecordError(xs[i].key.message, xs[i].key.class_);
      }
      assert xs[..|xs|] == xs;
    }

    /** An independent copy. */
    method Snapshot() returns (copy: WorkerMetrics)
      ensures fresh(copy) && copy.View() == View() && copy.errors == errors && copy.firstBytes == firstBytes
    {
      copy := new WorkerMetrics(workerId);
      copy.counts := counts;
      copy.retryAfter, copy.limits, copy.headers, copy.errors := retryAfter, limits, headers, errors;
      copy.lagMaxMs, copy.firstThrottle, copy.firstBytes := lagMaxMs, firstThrottle, firstBytes;
    }
  }

  /** Field-by-field addition, as every merge in the code spells it out. */
  method Summed(a: Counts, b: Counts) returns (c: Counts)
    ensures c == Plus(a, b)
  {
    c := a;
    c := c.(planned := c.planned + b.planned, scheduled := c.scheduled + b.scheduled,
            started := c.started + b.started, completed := c.completed + b.completed,
            canceled := c.canceled + b.canceled, dropped := c.dropped + b.dropped);
    c := c.(outcomes := c.outcomes + b.outcomes, statusCodes := c.statusCodes + b.statusCodes);
    c := c.(allLatency := c.allLatency + b.allLatency, successLatency := c.successLatency + b.successLatency);
    c := c.(bytesSent := c.bytesSent + b.bytesSent, bytesReceived := c.bytesReceived + b.bytesReceived,
            throttled := c.throttled + b.throttled);
  }

  lemma {:induction false} AddAtIndex(list: seq<ErrorSample>, s: ErrorSample, room: nat, i: nat)
    requires i < |list| && list[i].key == s.key
    requires forall j :: 0 <= j < i ==> list[j].key != s.key
    ensures AddWithin(list, s, room) == list[i := ErrorSample(s.key, list[i].count + s.count)]
  {
    if i > 0 {
      AddAtIndex(list[1..], s, if room > 0 then room - 1 else 0, i - 1);
      assert list == [list[0]] + list[1..];
    }
  }

  lemma {:induction false} AddAtEnd(list: seq<ErrorSample>, s: ErrorSample, room: nat)
    requires forall j :: 0 <= j < |list| ==> list[j].key != s.key
    ensures AddWithin(list, s, room) == if |list| < room then list + [s] else list
    decreases |list|
  {
    if list != [] {
      AddAtEnd(list[1..], s, if room > 0 then room - 1 else 0);
      assert list == [list[0]] + list[1..];
    }
  }

  /** Appends the samples of `xs` that are new while there is room. */
  method Absorbed<T(==)>(kept: seq<T>, xs: seq<T>) returns (r: seq<T>)
    ensures r == Absorb(kept, xs, MAX_SAMPLES)
  {
    r := kept;
    for i := 0 to |xs|
      invariant r == Absorb(kept, xs[..i], MAX_SAMPLES)
    {
      assert xs[..i + 1][..i] == xs[..i];
      if |r| < MAX_SAMPLES && xs[i] !in r {
        r := r + [xs[i]];
      }
    }
    assert xs[..|xs|] == xs;
  }

  method JoinedEntry(current: Consistency, incoming: Consistency) returns (c: Consistency)
    ensures c == Join(current, incoming)
  {
    c := current;
    if c.observed == 0 {
      c := c.(agree := true);
    }
    if !incoming.agree {
      c := c.(agree := false);
    }
    c := c.(observed := c.observed + incoming.observed, parseErrors := c.parseErrors + incoming.parseErrors);
    ghost var start := c;
    for i := 0 to |incoming.samples|
      invariant c == SampledAll(start, incoming.samples[..i])
    {
      assert incoming.samples[..i + 1][..i] == incoming.samples[..i];
      var sample := incoming.samples[i];
      if |c.samples| > 0 && c.samples[0] != sample {
        c := c.(agree := false);
      }
      if |c.samples| < MAX_SAMPLES && sample !in c.samples {
        c := c.(samples := c.samples + [sample]);
      }
    }
    assert incoming.samples[..|incoming.samples|] == incoming.samples;
  }

  method JoinedHeaders(destination: HeaderMap, source: HeaderMap) returns (r: HeaderMap)
    ensures r == MergeHeaders(destination, source)
  {
    r := destination;
    var rest := source.Keys;
    while rest != {}
      invariant rest <= source.Keys
      invariant r.Keys == destination.Keys + (source.Keys - rest)
      invariant forall name :: name in r ==>
        r[name] == if name in source && name !in rest then Join(Lookup(destination, name), source[name])
                   else destination[name]
    {
      var name :| name in rest;
      var joined := JoinedEntry(if name in r then r[name] else NOTHING, source[name]);
      r := r[name := joined];
      rest := rest - {name};
    }
  }

  // -- Results ---------------------------------------------------------------------

  /** A merged result. Its counts leave `statusCodes` empty, since results key status
      counts by text. */
  datatype Aggregate = Aggregate(
    counts: Counts,
    statusText: map<string, nat>,
    retryAfter: seq<string>,
    limits: seq<LimitSample>,
    headers: HeaderMap,
    errors: seq<ErrorSample>,
    lagMaxMs: real,
    firstThrottle: int)

  function Published(s: Summary, errors: seq<ErrorSample>): Aggregate {
    Aggregate(s.counts.(statusCodes := multiset{}), TextCodes(s.counts.statusCodes),
              s.retryAfter, s.limits, s.headers, errors, s.lagMaxMs, s.firstThrottle)
  }

  ghost function Views(workers: seq<WorkerMetrics?>): seq<Summary>
    reads set w | w in workers
  {
    if workers == [] then []
    else
      var front, last := Views(workers[..|workers| - 1]), workers[|workers| - 1];
      if last == null then front else front + [last.View()]
  }

  ghost function AllErrors(workers: seq<WorkerMetrics?>): seq<ErrorSample>
    reads set w | w in workers
  {
    if workers == [] then []
    else
      var front, last := AllErrors(workers[..|workers| - 1]), workers[|workers| - 1];
      if last == null then front else front + last.errors
  }

  lemma TextCodesPlus(a: multiset<Int64>, b: multiset<Int64>, text: string)
    ensures text in TextCodes(a + b) <==> text in TextCodes(a) || text in TextCodes(b)
    ensures text in TextCodes(a + b) ==>
      TextCodes(a + b)[text] == TextCount(TextCodes(a), text) + TextCount(TextCodes(b), text)
  {
    forall code: Int64 | code in a + b ensures code in a || code in b { }
    if text in TextCodes(a + b) {
      var code: Int64 :| code in a + b && Itoa(code) == text;
      TextCodesAt(a, code);
      TextCodesAt(b, code);
      TextCodesAt(a + b, code);
    }
  }

  function TextCount(t: map<string, nat>, text: string): nat {
    if text in t then t[text] else 0
  }

  function Repeated(code: Int64, n: nat): multiset<Int64> {
    multiset{}[code := n]
  }

  method AddedCode(t: map<string, nat>, ghost all: multiset<Int64>, code: Int64, n: nat) returns (r: map<string, nat>)
    requires t == TextCodes(all) && n > 0
    ensures r == TextCodes(all + Repeated(code, n))
  {
    OneMoreCode(t, all, code, n);
    r := t[Itoa(code) := TextCount(t, Itoa(code)) + n];
  }

  /** Adds a worker's status counts to counts keyed by text. */
  method AddedCodes(t: map<string, nat>, ghost before: multiset<Int64>, codes: multiset<Int64>)
    returns (r: map<string, nat>)
    requires t == TextCodes(before)
    ensures r == TextCodes(before + codes)
  {
    r := t;
    var rest: multiset<Int64> := codes;
    ghost var all: multiset<Int64> := before;
    while |rest| > 0
      invariant all + rest == before + codes
      invariant r == TextCodes(all)
      decreases |rest|
    {
      var code: Int64 :| code in rest;
      TakeOut(all, rest, code);
      r := AddedCode(r, all, code, rest[code]);
      all, rest := all + Repeated(code, rest[code]), rest[code := 0];
    }
    assert all == all + rest;
  }

  lemma TakeOut(all: multiset<Int64>, rest: multiset<Int64>, code: Int64)
    requires code in rest
    ensures all + Repeated(code, rest[code]) + rest[code := 0] == all + rest
    ensures |rest[code := 0]| < |rest|
  {
    var one := Repeated(code, rest[code]);
    assert rest == one + rest[code := 0];
    assert one[code] > 0;
    assert |one| > 0;
  }

  lemma TextCodesOfOne(code: Int64, n: nat, text: string)
    requires n > 0
    ensures text in TextCodes(Repeated(code, n)) <==> text == Itoa(code)
    ensures TextCount(TextCodes(Repeated(code, n)), Itoa(code)) == n
  {
    TextCodesAt(Repeated(code, n), code);
  }

  /** At one key, `next` is `t` with `n` more under `key`. */
  ghost predicate AddsAt(t: map<string, nat>, next: map<string, nat>, key: string, n: nat, text: string) {
    && (text in next <==> text in t || text == key)
    && (text in next ==> next[text] == TextCount(t, text) + if text == key then n else 0)
  }

  lemma CodeAddsAt(codes: multiset<Int64>, code: Int64, n: nat, text: string)
    requires n > 0
    ensures AddsAt(TextCodes(codes), TextCodes(codes + Repeated(code, n)), Itoa(code), n, text)
  {
    TextCodesPlus(codes, Repeated(code, n), text);
    TextCodesOfOne(code, n, text);
  }

  /** Two different maps differ at some key. */
  lemma Difference(a: map<string, nat>, b: map<string, nat>) returns (text: string)
    requires a != b
    ensures text in a && text in b ==> a[text] != b[text]
    ensures text in a || text in b
  {
    if a.Keys == b.Keys {
      text :| text in a && a[text] != b[text];
    } else if x :| x in a.Keys && x !in b.Keys {
      text := x;
    } else {
      text :| text in b.Keys && text !in a.Keys;
    }
  }

  lemma OneMoreCode(t: map<string, nat>, codes: multiset<Int64>, code: Int64, n: nat)
    requires t == TextCodes(codes) && n > 0
    ensures t[Itoa(code) := TextCount(t, Itoa(code)) + n] == TextCodes(codes + Repeated(code, n))
  {
    var added, next := t[Itoa(code) := TextCount(t, Itoa(code)) + n], TextCodes(codes + Repeated(code, n));
    if added != next {
      var text := Difference(added, next);
      CodeAddsAt(codes, code, n, text);
    }
  }

  method AddedErrors(list: seq<ErrorSample>, xs: seq<ErrorSample>) returns (r: seq<ErrorSample>)
    ensures r == AddAll(list, xs)
  {
    r := list;
    for i := 0 to |xs|
      invariant r == AddAll(list, xs[..i])
    {
      assert xs[..i + 1][..i] == xs[..i];
      r := AddedError(r, xs[i]);
    }
    assert xs[..|xs|] == xs;
  }

  method AddedError(list: seq<ErrorSample>, s: ErrorSample) returns (r: seq<ErrorSample>)
    ensures r == AddWithin(list, s, MAX_ERRORS)
  {
    var i := 0;
    while i < |list|
      invariant 0 <= i <= |list|
      invariant forall j :: 0 <= j < i ==> list[j].key != s.key
    {
      if list[i].key == s.key {
        AddAtIndex(list, s, MAX_ERRORS, i);
        return list[i := ErrorSample(s.key, list[i].count + s.count)];
      }
      i := i + 1;
    }
    AddAtEnd(list, s, MAX_ERRORS);
    r := if |list| < MAX_ERRORS then list + [s] else list;
  }

  /** One round of the merge loop. */
  method MergedOne(result: Aggregate, ghost s: Summary, w: WorkerMetrics) returns (r: Aggregate)
    requires result == Published(s, result.errors)
    ensures r == Published(Merge(s, w.View()), AddAll(result.errors, w.errors))
  {
    var counts := Summed(result.counts, w.counts.(statusCodes := multiset{}));
    var text := AddedCodes(result.statusText, s.counts.statusCodes, w.counts.statusCodes);
    var retryAfter := Absorbed(result.retryAfter, w.retryAfter);
    var headers := JoinedHeaders(result.headers, w.headers);
    var limits := Absorbed(result.limits, w.limits);
    var lagMaxMs := if w.lagMaxMs > result.lagMaxMs then w.lagMaxMs else result.lagMaxMs;
    var firstThrottle := result.firstThrottle;
    if w.firstThrottle >= 0 && (firstThrottle < 0 || w.firstThrottle < firstThrottle) {
      firstThrottle := w.firstThrottle;
    }
    var errors := AddedErrors(result.errors, w.errors);
    r := Aggregate(counts, text, retryAfter, limits, headers, errors, lagMaxMs, firstThrottle);
  }

  /** Merges worker accumulators into one result; missing workers are skipped. */
  method MergeWorkers(workers: seq<WorkerMetrics?>) returns (r: Aggregate)
    ensures r == Published(MergeAll(Views(workers)), AddAll([], AllErrors(workers)))
  {
    r := Aggregate(ZERO, map[], [], [], map[], [], 0.0, -1);
    for i := 0 to |workers|
      invariant r == Published(MergeAll(Views(workers[..i])), AddAll([], AllErrors(workers[..i])))
    {
      assert workers[..i + 1][..i] == workers[..i];
      if workers[i] != null {
        MergeAllLast(Views(workers[..i]), workers[i].View());
        AddAllAppend([], AllErrors(workers[..i]), workers[i].errors);
        r := MergedOne(r, MergeAll(Views(workers[..i])), workers[i]);
      }
    }
    assert workers[..|workers|] == workers;
  }

  // -- Merging results ---------------------------------------------------------------

  /** Whether an aggregate is the published form of a summary, errors aside. */
  ghost predicate Denotes(a: Aggregate, s: Summary) {
    a == Published(s, a.errors)
  }

  predicate Parses(t: map<string, nat>) {
    forall text :: text in t ==> Atoi(text).Some?
  }

  lemma TextCodesParse(codes: multiset<Int64>)
    ensures Parses(TextCodes(codes))
  {
    forall text | text in TextCodes(codes) ensures Atoi(text).Some? {
      var code: Int64 :| code in codes && Itoa(code) == text;
      AtoiOfItoa(code);
    }
  }

  /** The keys of `t` outside `rest` have been read back into `parsed`. */
  ghost predicate ParsedSoFar(t: map<string, nat>, codes: multiset<Int64>, parsed: multiset<Int64>, rest: set<string>) {
    forall code: Int64 :: parsed[code] == if Itoa(code) in t && Itoa(code) !in rest then codes[code] else 0
  }

  lemma ParsedOne(
    t: map<string, nat>, codes: multiset<Int64>, parsed: multiset<Int64>, rest: set<string>, text: string, code: Int64)
    requires t == TextCodes(codes) && text in t && Atoi(text) == Some(code) && text in rest
    requires ParsedSoFar(t, codes, parsed, rest)
    ensures ParsedSoFar(t, codes, parsed[code := t[text]], rest - {text})
  {
    TextCodesAt(codes, code);
    var source: Int64 :| source in codes && Itoa(source) == text;
    AtoiOfItoa(source);
    forall other: Int64 | other != code ensures Itoa(other) != text {
      if Itoa(other) == text { ItoaInjective(other, code); }
    }
  }

  lemma ParsedAll(t: map<string, nat>, codes: multiset<Int64>, parsed: multiset<Int64>)
    requires t == TextCodes(codes) && ParsedSoFar(t, codes, parsed, {})
    ensures parsed == codes
  {
    forall code: Int64 ensures parsed[code] == codes[code] { TextCodesAt(codes, code); }
  }

  /** Reads textual status counts back; fails exactly when some key is no integer, and
      inverts `TextCodes`. */
  method ParseCodes(t: map<string, nat>, ghost codes: multiset<Int64>) returns (r: Result<multiset<Int64>, string>)
    ensures r.Success? <==> Parses(t)
    ensures t == TextCodes(codes) ==> r == Success(codes)
  {
    var parsed: multiset<Int64> := multiset{};
    var rest := t.Keys;
    TextCodesParse(codes);
    ghost var published := t == TextCodes(codes);
    while rest != {}
      invariant rest <= t.Keys
      invariant forall text :: text in t && text !in rest ==> Atoi(text).Some?
      invariant published ==> ParsedSoFar(t, codes, parsed, rest)
    {
      var text :| text in rest;
      var code := Atoi(text);
      if code.None? { return Failure(text); }
      if published { ParsedOne(t, codes, parsed, rest, text, code.value); }
      parsed := parsed[code.value := t[text]];
      rest := rest - {text};
    }
    if published { ParsedAll(t, codes, parsed); }
    r := Success(parsed);
  }

  ghost function Present(inputs: seq<Option<Aggregate>>, sources: seq<Summary>): seq<Summary>
    requires |inputs| == |sources|
  {
    if inputs == [] then []
    else
      var n := |inputs| - 1;
      var front := Present(inputs[..n], sources[..n]);
      if inputs[n].None? then front else front + [sources[n]]
  }

  ghost function PresentErrors(inputs: seq<Option<Aggregate>>): seq<ErrorSample> {
    if inputs == [] then []
    else
      var n := |inputs| - 1;
      var front := PresentErrors(inputs[..n]);
      if inputs[n].None? then front else front + inputs[n].value.errors
  }

  ghost predicate AllDenote(inputs: seq<Option<Aggregate>>, sources: seq<Summary>)
    requires |inputs| == |sources|
  {
    forall i :: 0 <= i < |inputs| && inputs[i].Some? ==> Denotes(inputs[i].value, sources[i])
  }

  /** Turns a result back into an accumulator. */
  method Rebuilt(index: int, a: Aggregate, codes: multiset<Int64>, ghost s: Summary) returns (w: WorkerMetrics)
    ensures fresh(w) && w.errors == a.errors
    ensures Denotes(a, s) && s.counts.statusCodes == codes ==> w.View() == s
  {
    w := new WorkerMetrics(index);
    w.counts := a.counts.(statusCodes := codes);
    w.retryAfter, w.limits, w.headers, w.errors := a.retryAfter, a.limits, a.headers, a.errors;
    w.lagMaxMs, w.firstThrottle := a.lagMaxMs, a.firstThrottle;
  }

  lemma PresentNext(inputs: seq<Option<Aggregate>>, sources: seq<Summary>, i: nat)
    requires |inputs| == |sources| && i < |inputs|
    ensures var front := Present(inputs[..i], sources[..i]);
            Present(inputs[..i + 1], sources[..i + 1]) == if inputs[i].None? then front else front + [sources[i]]
    ensures var front := PresentErrors(inputs[..i]);
            PresentErrors(inputs[..i + 1]) == if inputs[i].None? then front else front + inputs[i].value.errors
  {
    assert inputs[..i + 1][..i] == inputs[..i] && sources[..i + 1][..i] == sources[..i];
  }

  lemma WorkersNext(workers: seq<WorkerMetrics?>, w: WorkerMetrics)
    ensures Views(workers + [w]) == Views(workers) + [w.View()]
    ensures AllErrors(workers + [w]) == AllErrors(workers) + w.errors
  {
    assert (workers + [w])[..|workers|] == workers;
  }

  method Appended(workers: seq<WorkerMetrics?>, index: int, a: Aggregate, ghost s: Summary)
    returns (r: Result<seq<WorkerMetrics?>, string>)
    ensures r.Success? <==> Parses(a.statusText)
    ensures r.Success? ==> AllErrors(r.value) == AllErrors(workers) + a.errors
    ensures r.Success? && Denotes(a, s) ==> Views(r.value) == Views(workers) + [s]
  {
    var codes := ParseCodes(a.statusText, s.counts.statusCodes);
    if codes.Failure? { return Failure(codes.error); }
    var w := Rebuilt(index, a, codes.value, s);
    WorkersNext(workers, w);
    r := Success(workers + [w]);
  }

  /** The status keys of the first `n` inputs are all integers. */
  predicate AllParse(inputs: seq<Option<Aggregate>>, n: nat)
    requires n <= |inputs|
  {
    n == 0 || (AllParse(inputs, n - 1) && (inputs[n - 1].Some? ==> Parses(inputs[n - 1].value.statusText)))
  }

  lemma {:induction false} AllParseUpTo(inputs: seq<Option<Aggregate>>, m: nat, n: nat)
    requires m <= n <= |inputs| && !AllParse(inputs, m)
    ensures !AllParse(inputs, n)
  {
    if m < n { AllParseUpTo(inputs, m, n - 1); }
  }

  /** The accumulators rebuilt from the first `n` inputs. */
  ghost predicate RebuiltFrom(
    workers: seq<WorkerMetrics?>, inputs: seq<Option<Aggregate>>, sources: seq<Summary>, n: nat)
    requires n <= |inputs| == |sources|
    reads set w | w in workers
  {
    && AllErrors(workers) == PresentErrors(inputs[..n])
    && (AllDenote(inputs, sources) ==> Views(workers) == Present(inputs[..n], sources[..n]))
  }

  method RebuiltNext(workers: seq<WorkerMetrics?>, inputs: seq<Option<Aggregate>>, ghost sources: seq<Summary>, i: nat)
    returns (r: Result<seq<WorkerMetrics?>, string>)
    requires i < |inputs| == |sources| && RebuiltFrom(workers, inputs, sources, i)
    ensures r.Success? <==> (inputs[i].Some? ==> Parses(inputs[i].value.statusText))
    ensures r.Success? ==> RebuiltFrom(r.value, inputs, sources, i + 1)
  {
    PresentNext(inputs, sources, i);
    if inputs[i].None? { return Success(workers); }
    r := Appended(workers, i, inputs[i].value, sources[i]);
  }

  /** Accumulators for all inputs that are present. */
  method RebuiltAll(inputs: seq<Option<Aggregate>>, ghost sources: seq<Summary>)
    returns (r: Result<seq<WorkerMetrics?>, string>)
    requires |inputs| == |sources|
    ensures r.Success? <==> AllParse(inputs, |inputs|)
    ensures r.Success? ==> AllErrors(r.value) == PresentErrors(inputs)
    ensures r.Success? && AllDenote(inputs, sources) ==> Views(r.value) == Present(inputs, sources)
  {
    var workers: seq<WorkerMetrics?> := [];
    for i := 0 to |inputs|
      invariant AllParse(inputs, i)
      invariant RebuiltFrom(workers, inputs, sources, i)
    {
      var more := RebuiltNext(workers, inputs, sources, i);
      if more.Failure? {
        AllParseUpTo(inputs, i + 1, |inputs|);
        return Failure(more.error);
      }
      workers := more.value;
    }
    assert inputs[..|inputs|] == inputs && sources[..|sources|] == sources;
    r := Success(workers);
  }

  /** Merges results by turning them back into accumulators and merging those. It fails
      exactly when a status key is no integer; on published results it is the merge of
      the summaries they were published from. */
  method MergeAggregates(inputs: seq<Option<Aggregate>>, ghost sources: seq<Summary>)
    returns (r: Result<Aggregate, string>)
    requires |inputs| == |sources|
    ensures r.Success? <==> AllParse(inputs, |inputs|)
    ensures AllDenote(inputs, sources) ==>
      r == Success(Published(MergeAll(Present(inputs, sources)), AddAll([], PresentErrors(inputs))))
  {
    var workers := RebuiltAll(inputs, sources);
    if workers.Failure? {
      if AllDenote(inputs, sources) { DenotedParse(inputs, sources, |inputs|); }
      return Failure(workers.error);
    }
    var merged := MergeWorkers(workers.value);
    r := Success(merged);
  }

  lemma {:induction false} DenotedParse(inputs: seq<Option<Aggregate>>, sources: seq<Summary>, n: nat)
    requires n <= |inputs| == |sources| && AllDenote(inputs, sources)
    ensures AllParse(inputs, n)
  {
    if n > 0 {
      DenotedParse(inputs, sources, n - 1);
      if inputs[n - 1].Some? { TextCodesParse(sources[n - 1].counts.statusCodes); }
    }
  }

  // -- Segments ----------------------------------------------------------------------

  /** Receives worker accumulators, one merge target per segment. `received` is the history
      of the error lists that came with them. */
  class SegmentCollector {
    const accumulators: seq<WorkerMetrics>
    var err: Option<int>
    ghost var received: seq<seq<seq<ErrorSample>>>

    ghost predicate Valid()
      reads this, accumulators
    {
      && (forall i, j :: 0 <= i < j < |accumulators| ==> accumulators[i] != accumulators[j])
      && |received| == |accumulators|
      && (forall i :: 0 <= i < |accumulators| ==> accumulators[i].errors == FlushAll(received[i]))
    }

    ghost predicate AllSound()
      reads accumulators
    {
      forall i :: 0 <= i < |accumulators| ==> accumulators[i].Sound()
    }

    constructor (segments: nat)
      ensures Valid() && |accumulators| == segments && err == None
      ensures forall i :: 0 <= i < segments ==>
        fresh(accumulators[i]) && accumulators[i].View() == EMPTY && accumulators[i].errors == []
      ensures AllSound()
    {
      var fresh_: seq<WorkerMetrics> := [];
      for i := 0 to segments
        invariant |fresh_| == i
        invariant forall j :: 0 <= j < i ==>
          fresh(fresh_[j]) && fresh_[j].View() == EMPTY && fresh_[j].errors == [] && fresh_[j].Sound()
        invariant forall j, k :: 0 <= j < k < i ==> fresh_[j] != fresh_[k]
      {
        var w := new WorkerMetrics(i);
        fresh_ := fresh_ + [w];
      }
      accumulators := fresh_;
      err := None;
      received := seq(segments, _ => []);
    }

    /** Merges an accumulator into its segment. The first index out of range is kept as an
        error, after which nothing is merged any more. */
    method Flush(segment: int, source: WorkerMetrics?)
      requires Valid() && (source != null ==> source !in accumulators)
      modifies this`err, this`received, accumulators
      ensures Valid()
      ensures var accepted := source != null && old(err).None? && 0 <= segment < |accumulators|;
              && (forall j :: 0 <= j < |accumulators| ==>
                   accumulators[j].View() == if accepted && j == segment
                                             then Merge(old(accumulators[j].View()), source.View())
                                             else old(accumulators[j].View()))
              && (forall j :: 0 <= j < |accumulators| ==>
                   accumulators[j].errors == if accepted && j == segment
                                             then Reentered(old(accumulators[j].errors), source.errors)
                                             else old(accumulators[j].errors))
              && err == (if source != null && old(err).None? && !accepted then Some(segment) else old(err))
              && received == if accepted then old(received)[segment := old(received)[segment] + [source.errors]]
                             else old(received)
      ensures old(AllSound()) && (source != null ==> source.Sound()) ==> AllSound()
    {
      if source == null || err.Some? { return; }
      if segment < 0 || segment >= |accumulators| {
        err := Some(segment);
        return;
      }
      FlushAllLast(received[segment], source.errors);
      accumulators[segment].MergeFrom(source);
      received := received[segment := received[segment] + [source.errors]];
    }

    /** Independent copies of all accumulators, or the recorded error. */
    method Snapshots() returns (r: Result<seq<WorkerMetrics>, int>)
      requires Valid()
      ensures r.Failure? <==> err.Some?
      ensures r.Failure? ==> Some(r.error) == err
      ensures r.Success? ==>
        && |r.value| == |accumulators|
        && forall i :: 0 <= i < |accumulators| ==>
             fresh(r.value[i]) && r.value[i].View() == accumulators[i].View() && r.value[i].errors == accumulators[i].errors
    {
      if err.Some? { return Failure(err.value); }
      var copies: seq<WorkerMetrics> := [];
      for i := 0 to |accumulators|
        invariant |copies| == i
        invariant forall j :: 0 <= j < i ==>
          fresh(copies[j]) && copies[j].View() == accumulators[j].View() && copies[j].errors == accumulators[j].errors
      {
        var copy := accumulators[i].Snapshot();
        copies := copies + [copy];
      }
      r := Success(copies);
    }
  }
}
