/** Request outcomes, execution results and the additive part of a metric accumulator. */
module Books {
  import opened Results
  import opened Decimal

  /** The twelve canonical terminal classifications of a request. */
  datatype Outcome =
    | Succeeded
    | UnexpectedStatus
    | RateLimited
    | Timeout
    | DnsError
    | ConnectError
    | TlsError
    | RequestBuildError
    | ResponseBodyError
    | Canceled
    | OtherTransportError
    | Dropped

  const TOO_MANY_REQUESTS := 429
  const MIN_LATENCY_US := 1
  const MAX_LATENCY_US := 3_600_000_000

  /** One rate-limit header as the executor saw and parsed it. */
  datatype HeaderObservation = HeaderObservation(name: string, present: bool, valid: bool, value: string)

  datatype LimitSample = LimitSample(limit: string, remaining: string, reset: string, policy: string)

  /** Rate-limit evidence of one response; the samples are already formatted as text. */
  datatype RateLimitInfo = RateLimitInfo(
    retryAfter: Option<string>,
    limits: Option<LimitSample>,
    observations: seq<HeaderObservation>)

  /** What one HTTP execution reports back to the worker that ran it. */
  datatype Response = Response(
    outcome: Outcome,
    statusCode: Int64,
    latencyNs: int,
    firstByteNs: int,
    bytesSent: nat,
    bytesReceived: nat,
    rateLimit: Option<RateLimitInfo>,
    error: Option<string>)

  /** Everything in an accumulator that merges by addition. Counter maps whose entries only
      ever grow are multisets; a latency histogram is the multiset of its clamped values. */
  datatype Counts = Counts(
    planned: nat,
    scheduled: nat,
    started: nat,
    completed: nat,
    canceled: nat,
    dropped: nat,
    outcomes: multiset<Outcome>,
    statusCodes: multiset<Int64>,
    bytesSent: nat,
    bytesReceived: nat,
    throttled: nat,
    allLatency: multiset<int>,
    successLatency: multiset<int>)

  const ZERO: Counts :=
    Counts(0, 0, 0, 0, 0, 0, multiset{}, multiset{}, 0, 0, 0, multiset{}, multiset{})

  function Plus(a: Counts, b: Counts): Counts {
    Counts(
      a.planned + b.planned, a.scheduled + b.scheduled, a.started + b.started,
      a.completed + b.completed, a.canceled + b.canceled, a.dropped + b.dropped,
      a.outcomes + b.outcomes, a.statusCodes + b.statusCodes,
      a.bytesSent + b.bytesSent, a.bytesReceived + b.bytesReceived, a.throttled + b.throttled,
      a.allLatency + b.allLatency, a.successLatency + b.successLatency)
  }

  function Clamped(microseconds: int): int {
    if microseconds < MIN_LATENCY_US then MIN_LATENCY_US
    else if microseconds > MAX_LATENCY_US then MAX_LATENCY_US
    else microseconds
  }

  /** Whole microseconds of a duration; negative durations count as zero. */
  function Microseconds(ns: int): nat {
    if ns < 0 then 0 else ns / 1000
  }

  /** What recording one response adds to an accumulator. */
  function Recorded(r: Response): Counts {
    var latency := Clamped(Microseconds(r.latencyNs));
    ZERO.(outcomes := multiset{r.outcome},
          statusCodes := if r.statusCode > 0 then multiset{r.statusCode} else multiset{},
          bytesSent := r.bytesSent,
          bytesReceived := r.bytesReceived,
          throttled := if r.statusCode == TOO_MANY_REQUESTS || r.outcome == RateLimited then 1 else 0,
          allLatency := multiset{latency},
          successLatency := if r.outcome == Succeeded then multiset{latency} else multiset{})
  }

  /** One number that can be read off an accumulator. */
  datatype Metric =
    | Planned | Scheduled | Started | Completed | CanceledCount | DroppedCount
    | OutcomeCount(outcome: Outcome)
    | StatusCount(code: Int64)
    | BytesSent | BytesReceived | Throttled
    | LatencyCount(value: int)
    | SuccessLatencyCount(value: int)
    | AllOutcomes

  function Reading(c: Counts, m: Metric): nat {
    match m
    case Planned => c.planned
    case Scheduled => c.scheduled
    case Started => c.started
    case Completed => c.completed
    case CanceledCount => c.canceled
    case DroppedCount => c.dropped
    case OutcomeCount(o) => c.outcomes[o]
    case StatusCount(code) => c.statusCodes[code]
    case BytesSent => c.bytesSent
    case BytesReceived => c.bytesReceived
    case Throttled => c.throttled
    case LatencyCount(v) => c.allLatency[v]
    case SuccessLatencyCount(v) => c.successLatency[v]
    case AllOutcomes => |c.outcomes|
  }

  lemma ReadingOfPlus(a: Counts, b: Counts, m: Metric)
    ensures Reading(Plus(a, b), m) == Reading(a, m) + Reading(b, m)
  {
  }

  /** Accumulators that agree on every reading are equal. */
  lemma ReadingsDetermine(a: Counts, b: Counts)
    requires forall m :: Reading(a, m) == Reading(b, m)
    ensures a == b
  {
    assert Reading(a, Planned) == Reading(b, Planned);
    assert Reading(a, Scheduled) == Reading(b, Scheduled);
    assert Reading(a, Started) == Reading(b, Started);
    assert Reading(a, Completed) == Reading(b, Completed);
    assert Reading(a, CanceledCount) == Reading(b, CanceledCount);
    assert Reading(a, DroppedCount) == Reading(b, DroppedCount);
    assert Reading(a, BytesSent) == Reading(b, BytesSent);
    assert Reading(a, BytesReceived) == Reading(b, BytesReceived);
    assert Reading(a, Throttled) == Reading(b, Throttled);
    assert a.outcomes == b.outcomes by {
      forall o ensures a.outcomes[o] == b.outcomes[o] {
        assert Reading(a, OutcomeCount(o)) == Reading(b, OutcomeCount(o));
      }
    }
    assert a.statusCodes == b.statusCodes by {
      forall k: Int64 ensures a.statusCodes[k] == b.statusCodes[k] {
        assert Reading(a, StatusCount(k)) == Reading(b, StatusCount(k));
      }
    }
    assert a.allLatency == b.allLatency by {
      forall v ensures a.allLatency[v] == b.allLatency[v] {
        assert Reading(a, LatencyCount(v)) == Reading(b, LatencyCount(v));
      }
    }
    assert a.successLatency == b.successLatency by {
      forall v ensures a.successLatency[v] == b.successLatency[v] {
        assert Reading(a, SuccessLatencyCount(v)) == Reading(b, SuccessLatencyCount(v));
      }
    }
  }

  lemma PlusUnit(a: Counts)
    ensures Plus(a, ZERO) == a && Plus(ZERO, a) == a
  {
  }

  lemma PlusAssociative(a: Counts, b: Counts, c: Counts)
    ensures Plus(Plus(a, b), c) == Plus(a, Plus(b, c))
  {
    var left, right := Plus(Plus(a, b), c), Plus(a, Plus(b, c));
    forall m ensures Reading(left, m) == Reading(right, m) {
      ReadingOfPlus(a, b, m);
      ReadingOfPlus(b, c, m);
      ReadingOfPlus(Plus(a, b), c, m);
      ReadingOfPlus(a, Plus(b, c), m);
    }
    ReadingsDetermine(left, right);
  }

  function Total(cs: seq<Counts>): Counts {
    if cs == [] then ZERO else Plus(Total(cs[..|cs| - 1]), cs[|cs| - 1])
  }
}
