# Verified models of the load generator's core

This project models the parts of daegsa that decide how much load is generated and what the
reported numbers mean, and proves what those parts rely on:

- the **open-model scheduler** as interleaved atomic steps of one dispatcher, a bounded job
  channel and `max_in_flight` workers (`OpenRun`, `OpenRunLaws`, `OpenRunTheorems`), and its
  pacing loop as a method over an arbitrary monotone clock (`Pacing`, `IdealRuns`);
- the **metric accumulators**, and merging them in any grouping (`Books`, `Sampling`,
  `Headers`, `Summaries`, `ErrorSamples`, `StoredErrors`, `Metrics`, `OpenResults`);
- the **controllable clock**, a heap of shared mutable entries, against a plain description of
  what fires when (`Alarms`, `HeapOrder`, `EntryHeap`, `MockClock`);
- **load profiles** from validation over compilation to preflight, and the run lifecycle
  (`Profile`, `Validation`, `Lifecycle`, `Preflight`);
- the two **template scanners** and the **JSON path** parser (`Templates`, `EnvExpansion`,
  `Substitution`, `JsonPath`, with `Text` and `Decimal` underneath);
- the **closed workload** in request mode (`ClosedRun`) and in scenario mode (`ScenarioRun`).

`Arithmetic`, `Results` and `History` are shared helpers.

Code that updates state step by step is modelled by methods and classes that are proved against
specification functions; the laws are lemmas about those functions. Go integers are unbounded
here except where the code checks their width (`Int64`), rates are reals, and everything outside
the modelled code (the HTTP executor, contexts, clocks, scheduling of goroutines) is an oracle
that may answer anything. What they did, and what the clock fired, is kept in ghost fields that
only their own methods extend (`World.executed`, `Environment.dispatched`,
`ControllableClock.fired`); contracts speak of these histories. `dafny verify dfyconfig.toml`
checks the whole project.

## Where the code does less than one might expect

Each of these is stated as a lemma beside the exact condition under which the expected law holds.

- A pacing loop sleeps to its next target even when that lies past the end of the segment. With
  an ideal clock a segment plans its full count exactly when it is entered before its end and at
  most one interval late (`Pacing.IdealCount`), and a whole profile exactly when that holds of
  the first segment and every segment's overshoot fits the one after it (`IdealRuns.IdealTotal`);
  a slow segment can leave the next one with no requests at all
  (`Pacing.SlowSegmentStarvesNext`).
- A flush into a segment records each stored error once, whatever its count. It keeps the first
  ten distinct errors (`StoredErrors.FlushEffect`), and their counts exactly when every sample
  that stays occurred once (`StoredErrors.FlushKeepsCounts`); a timeout seen five times arrives
  as one (`StoredErrors.CountLostInFlush`). After all flushes a segment counts, for each error,
  the accumulators that held it (`StoredErrors.FlushAllEffect`).
- Merging error samples in two stages keeps the same messages in any grouping
  (`ErrorSamples.KeysGroupingIndependent`), but the same counts exactly when no full part met an
  error that the overall list keeps (`ErrorSamples.CountsGroupingIndependent`,
  `ErrorSamples.CountsLostToCap`). With at most ten distinct errors in each part the counts are
  the same (`ErrorSamples.SmallPartsExact`), and so they are for the measured result of an open
  run, the only place that merges results (`OpenResults.SegmentResults`).
- A source segment with a negative step count compiles, to no segment and no time
  (`Profile.NegativeStepsCompile`); a profile lasts as long as its source segments exactly when
  none that lasts has one (`Profile.PartitionExact`, `Profile.OffsetsAddUp`), which validation
  ensures (`Validation.ValidatedDuration`).
- The closed workload counts a canceled response as completed (`ClosedRun.CanceledCompletes`, for
  any response, `ClosedRun.AnyAnswerReachable`): its canceled requests are exactly the replies
  without a result, and completed and canceled requests are told apart as in the open workload
  exactly when no response was canceled (`ClosedRun.FinalCounts`). In the open workload canceled
  requests are the canceled outcomes and the replies without a result
  (`OpenRunTheorems.FinalCounts`).
- Doubling every dollar sign protects a text from environment expansion exactly when each `${`
  in it opens a closed identifier (`EnvExpansion.DoublingRoundTrip`); escaping for variable
  substitution protects it exactly when each `${` is closed before another opens
  (`Substitution.EscapeRoundTrip`).

## Model

| member | source | states |
|---|---|---|
| OpenRunTheorems.ReachableInv | internal/scheduler/open.go:205-307 | every state reachable by any interleaving of dispatcher, workers and cancellation satisfies the joint invariant of counter, channel, books, ticks and phases |
| OpenRunTheorems.InFlightBounded | internal/scheduler/open.go:248-288 | the in-flight counter equals queued plus executing work plus the admitted job not yet sent, never exceeds the limit, nor does the recorded peak, and spare workers cover the queue |
| OpenRunTheorems.SendNeverBlocks | internal/scheduler/open.go:258-265 | whenever the dispatcher is about to send, the channel has room, so pacing is never blocked by workers |
| OpenRunTheorems.AlwaysConserved | internal/scheduler/open.go:246-305 | at every moment, for the whole run and for each segment: planned = scheduled + dropped + undecided, scheduled = started + on its way, started = completed + canceled + held by workers, canceled = canceled outcomes + replies without a result |
| OpenRunTheorems.FinalCounts | internal/scheduler/open.go:135-165 | once all workers have left, nothing is in flight or queued, planned = completed + canceled + dropped, the outcome counts miss only replies without a result, and canceled = canceled outcomes + those replies |
| OpenRunTheorems.SegmentsReconcile | internal/scheduler/open.go:178-197 | the segment results add up to the root result in every counter, outcome, status code, byte total and latency: each private accumulator is flushed exactly once |
| OpenRunTheorems.PlannedWithinCapacity | internal/scheduler/open.go:205-267 | a run never plans more than the sum over segments of duration divided by interval rounded up, and no other request count exceeds the planned one |
| OpenRunTheorems.CountsBounded | internal/scheduler/open.go:205-267 | a bound on the windows' capacity bounds every request counter in every reachable state |
| OpenRunTheorems.NoDeadlock | internal/scheduler/open.go:205-307 | until the last worker has left, some step other than an outside cancellation is possible |
| OpenRunTheorems.DrainDecreases | internal/scheduler/open.go:135-163 | once the channel is closed every step uses up one of a bounded number of remaining steps |
| OpenRunTheorems.DrainBounded | internal/scheduler/open.go:135-163 | from any reachable closed state no schedule takes more than eleven further steps per worker |
| OpenRunTheorems.BudgetDecreases | internal/scheduler/open.go:205-307 | from any state every step other than an outside cancellation uses up some of a budget: ten for each request there is still room for, and what is under way |
| OpenRunTheorems.RunsEnd | internal/scheduler/open.go:205-307 | every run ends: no schedule from a reachable state takes more steps than the budget, from the start ten per request the profile has room for, two per worker, one per segment and one; and a run that can take no further step has lost all its workers |
| OpenRunLaws.BookStep | internal/scheduler/open.go:246-305 | every event changes every reading of every scope's books by exactly what that event adds, flushes included |
| OpenRunLaws.ActKeepsBooks | internal/scheduler/open.go:273-306 | a flush moves readings from a worker's private accumulator to the collector without losing or repeating any; every other action adds equally to the private and the root book |
| Pacing.ScheduleSegment | internal/scheduler/open.go:205-267 | for any clock that is monotone and whose timers do not fire early: the instants at which ticks were handed over are those of a paced log, the segment's book accounts for exactly those ticks and their largest lag, the loop ends; for an ideal clock the log is the ideal one |
| Pacing.AwaitTarget | internal/scheduler/open.go:211-231 | a target is either reached inside the segment and not early, or the segment is over, or the run was canceled |
| Pacing.SegmentBook.Enter | internal/scheduler/open.go:232-257 | each tick is planned once and either scheduled or dropped, and the largest lag is kept |
| Pacing.NoCatchUp | internal/scheduler/open.go:241-245 | the next target never lies before the last dispatch and is at least one interval after the last target, however late that dispatch was |
| Pacing.TargetsSpread | internal/scheduler/open.go:241-245 | any two targets are as many intervals apart as there are ticks between them |
| Pacing.TargetsInWindow | internal/scheduler/open.go:206-231 | every target lies inside its segment, the k-th at least k intervals after the start |
| Pacing.PlannedBounded | internal/scheduler/open.go:206-247 | a segment plans at most its duration divided by the interval, rounded up |
| Pacing.BurstBounded | internal/scheduler/open.go:210-247 | any stretch of length L contains at most L divided by the interval plus two dispatches |
| Pacing.NoDrift | internal/scheduler/open.go:241-245 | the first n targets are exact multiples of the interval if and only if no earlier tick was late by more than one interval |
| Pacing.IdealCount | internal/scheduler/open.go:210-247 | with an ideal clock the planned count is the full one if and only if the segment is entered before its end and at most one interval late |
| Pacing.PromptExit | internal/scheduler/open.go:210-231 | with an ideal clock a segment entered punctually plans its full count and is left at the first point of its schedule at or past its end |
| IdealRuns.PlannedAtMost | internal/scheduler/open.go:119-134 | segments paced one after the other with an ideal clock plan at most what they have room for |
| IdealRuns.IdealTotal | internal/scheduler/open.go:119-134 | and exactly that if and only if the first is entered punctually and every segment's overshoot still enters the next one punctually |
| Pacing.IdealLogUnique | internal/scheduler/open.go:210-247 | an ideal clock leaves no choice: a segment entered at a given time has exactly one tick log |
| Pacing.SlowSegmentStarvesNext | internal/scheduler/open.go:211-231 | concrete segments for which the wait past the segment end leaves the next segment without a single request |
| Sampling.AbsorbRetained | internal/metrics/aggregate.go:138-148 | offering only the retained samples of a stream has the same effect as offering the whole stream, despite the cap |
| Sampling.FirstDistinctOfParts | internal/metrics/aggregate.go:138-148 | the first N distinct samples of a concatenation are those of the parts' own first N distinct lists |
| Sampling.AbsorbKeeps | internal/metrics/worker.go:200-243 | a sample list stays distinct and capped, only grows, and a sample is lost only when the list is full |
| Headers.RecordingExact | internal/metrics/ratelimit.go:12-37 | recording keeps an entry exact for its stream: counts are totals, samples the first ten distinct values, and the flag says whether all parsed values are equal |
| Headers.MergingExact | internal/metrics/ratelimit.go:39-60 | merging two exact maps gives the exact map of the concatenated stream, although only capped samples are seen |
| Headers.AgreementExact | internal/metrics/ratelimit.go:12-60 | for streams split over workers and merged in any nested grouping, counts, samples and the agreement flag are exact for the whole stream |
| Headers.DescriptionUnique | internal/metrics/ratelimit.go:5-10 | a stream has only one exact map |
| Summaries.MergeAssociative | internal/metrics/aggregate.go:94-171 | merging accumulators is associative in every field, including capped samples, the agreement flag, largest lag and earliest throttle |
| Summaries.GroupingIndependent | internal/metrics/segment.go:128-163 | merging the merges of any ordered partition of accumulators equals merging all of them at once |
| Summaries.RecordingCanonical | internal/metrics/worker.go:117-168 | recording keeps an accumulator in the form the merge laws need |
| Summaries.MergeCanonical | internal/metrics/segment.go:80-126 | merging keeps it in that form |
| ErrorSamples.AddAllEffect | internal/metrics/aggregate.go:157-170 | the kept errors are the first ten distinct ones, each with its full count |
| ErrorSamples.KeysGroupingIndependent | internal/metrics/aggregate.go:157-170 | which errors are kept, and in which order, does not depend on the grouping |
| ErrorSamples.CountsGroupingIndependent | internal/metrics/aggregate.go:157-170 | the counts do not depend on the grouping if and only if no part forgot an error the overall list keeps |
| ErrorSamples.StagedUndercounts | internal/metrics/aggregate.go:157-170 | staged merging loses exactly what full parts forgot and never invents occurrences |
| ErrorSamples.CountsLostToCap | internal/metrics/aggregate.go:157-170 | a concrete grouping whose counts differ; it needs a part with more than ten distinct errors |
| ErrorSamples.SmallPartsExact | internal/metrics/aggregate.go:157-170 | if each part has at most ten distinct errors, merging in two stages equals merging at once, counts included |
| StoredErrors.NormalizedTwice | internal/metrics/worker.go:170-176 | storing a stored message again leaves it unchanged, truncated ones included |
| StoredErrors.FlushEffect | internal/metrics/segment.go:116-118 | a flush keeps the first ten distinct errors of what was there and what comes, and adds one to each that comes |
| StoredErrors.FlushKeepsCounts | internal/metrics/segment.go:116-118 | a flush keeps the counts if and only if every sample that stays occurred once |
| StoredErrors.CountLostInFlush | internal/metrics/segment.go:116-118 | a concrete flush that loses counts: five timeouts become one |
| StoredErrors.FlushAllEffect | internal/metrics/segment.go:51-65 | after all its flushes a segment lists the first ten distinct errors of them, each counted once per accumulator that held it |
| Metrics.WorkerMetrics.RecordResult | internal/metrics/worker.go:117-168 | recording a response has exactly the specified effect on counts, samples, header entries, first-byte times and error samples, and keeps the accumulator in the form the merge laws need |
| Metrics.WorkerMetrics.RecordCounts | internal/metrics/worker.go:122-163 | outcome, status code, clamped latency, bytes and throttling are added once each |
| Metrics.WorkerMetrics.RecordError | internal/metrics/worker.go:170-193 | an error message is trimmed, truncated and counted under its message and class, or appended while there is room |
| Metrics.WorkerMetrics.RecordHeaders | internal/metrics/ratelimit.go:12-37 | the loop over observations updates the header map as recording one after the other does |
| Metrics.WorkerMetrics.RecordRateLimit | internal/metrics/worker.go:195-244 | retry and limit samples are offered to their capped lists |
| Metrics.WorkerMetrics.MergeFrom | internal/metrics/segment.go:80-126 | merging in place yields the merged value, enters the error samples again one by one, leaves first-byte times alone, and keeps the form the merge laws need |
| Metrics.WorkerMetrics.NoteLag | internal/scheduler/open.go:233-240 | the largest lag is kept, and the form the merge laws need |
| Metrics.WorkerMetrics.NoteThrottle | internal/scheduler/open.go:299-301 | the earliest planned offset of a throttled request is kept, and the form the merge laws need |
| Metrics.WorkerMetrics.ReenterErrors | internal/metrics/segment.go:116-118 | each error sample of the source is recorded once, under its own message and class, which are stored unchanged |
| Metrics.WorkerMetrics.Snapshot | internal/metrics/worker.go:264-300 | a snapshot is a new accumulator with the same value |
| Metrics.MergeWorkers | internal/metrics/aggregate.go:94-171 | merging a list of accumulators, absent ones skipped, publishes the merge of their values and of their errors |
| Metrics.MergeAggregates | internal/metrics/segment.go:128-163 | results turned back into accumulators and merged: fails exactly when some status key is no integer, and on published results gives the published merge of what they were published from |
| Metrics.ParseCodes | internal/metrics/segment.go:145-151 | reading status keys back inverts writing them, and fails exactly on a key that is no integer |
| Metrics.SegmentCollector.Flush | internal/metrics/segment.go:51-65 | a flush merges values and error samples into its own segment only, so that each segment's errors are those of all its flushes; the first bad index is kept as an error and stops all later merging |
| Metrics.SegmentCollector.Snapshots | internal/metrics/segment.go:67-78 | independent copies of all segments, or the recorded error |
| OpenResults.SegmentResults | internal/scheduler/open.go:178-194 | each segment result is what merging its dispatcher and worker accumulators publishes, errors included; and for accumulators as construction, recording and merging leave them the measured result is what merging all measured accumulators at once publishes, error counts included |
| Decimal.AtoiOfItoa | internal/metrics/segment.go:145-151 | printing then parsing gives every 64-bit integer back |
| Alarms.FirePending | internal/clock/mock.go:150-171 | firing the first alarm takes exactly one firing, the least in (time, id) order, off the pending ones |
| Alarms.AdvanceSteps | internal/clock/mock.go:150-171 | each firing extends the log, keeps what the end state will be, and strictly reduces what is left to fire |
| Alarms.LogUnique | internal/clock/mock.go:28-34 | there is only one log of given firings in (time, id) order |
| Alarms.SettledLater | internal/clock/mock.go:150-173 | what remains after advancing is due strictly later |
| Alarms.FiresAtSteps | internal/clock/mock.go:166-169 | a repeating alarm fires at its due time plus every whole number of periods, and at no other time |
| Alarms.LogsJoin | internal/clock/mock.go:144-174 | the logs of two consecutive advances join into the log of one advance over the total time |
| Alarms.SettledTwice | internal/clock/mock.go:144-174 | two advances leave the same alarms as one over the total time |
| Alarms.FilledTwice | internal/clock/mock.go:160-164 | two advances without a reader in between leave the same channel contents as one |
| Alarms.TimeRunsForward | internal/clock/mock.go:157-173 | unless an alarm was created in the past, the firing times of an advance never decrease and stay between the old and the new time |
| Alarms.ForwardAdvances | internal/clock/mock.go:157-173 | if nothing is overdue and all firing times so far ascend to the present, the same holds after an advance; creating, resetting and stopping timers and tickers with durations that are not negative keep it as well |
| HeapOrder.ExchangeDown | internal/clock/mock.go:28-39 | moving an entry below the lesser of its children leaves the heap loose only there, and only downward |
| HeapOrder.ExchangeUp | internal/clock/mock.go:28-39 | moving an entry above its parent leaves the heap loose only there, and only upward |
| HeapOrder.RootFirst | internal/clock/mock.go:28-34 | in an ordered heap nothing is before the root |
| EntryHeap.EntryHeap.Swap | internal/clock/mock.go:35-39 | two entries exchange positions and both know their new ones |
| EntryHeap.EntryHeap.Up | internal/clock/mock.go:26-39 | sifting up restores heap order and keeps the members and their indices |
| EntryHeap.EntryHeap.Down | internal/clock/mock.go:26-39 | sifting down restores heap order, or changes nothing and leaves only the way up open |
| EntryHeap.EntryHeap.Push | internal/clock/mock.go:40-45 | pushing adds exactly the entry, at a position it knows |
| EntryHeap.EntryHeap.PopMin | internal/clock/mock.go:46-54 | popping takes out exactly the root and clears its index |
| EntryHeap.EntryHeap.Remove | internal/clock/mock.go:254-256 | removing takes out exactly the entry at the position |
| EntryHeap.EntryHeap.Fix | internal/clock/mock.go:269-270 | after one key has changed, order is restored and the members stay |
| MockClock.ControllableClock.NewTimer | internal/clock/mock.go:105-122 | a timer gets the next identifier, an empty channel and one pending alarm; nothing else changes; time still runs forward |
| MockClock.ControllableClock.NewTicker | internal/clock/mock.go:124-141 | a ticker gets a repeating alarm, a single one if its period is not positive; time still runs forward |
| MockClock.ControllableClock.Advance | internal/clock/mock.go:143-174 | what fires, in the order in which it fires, is exactly what was pending up to the new time, in (time, id) order; the alarms left and the channels are the closed forms of that; time still runs forward; the loop ends |
| MockClock.ControllableClock.FireFirst | internal/clock/mock.go:156-170 | one round pops the first entry, fires it once at its time, offers that time to its channel and arms a ticker again |
| MockClock.ControllableClock.StopTimer | internal/clock/mock.go:246-258 | a stopped timer has nothing pending, and the result says it had not been stopped before |
| MockClock.ControllableClock.StopTicker | internal/clock/mock.go:287-295 | a stopped ticker has nothing pending |
| MockClock.ControllableClock.Reset | internal/clock/mock.go:260-310 | resetting schedules the entry anew whether it was pending, fired or stopped |
| MockClock.ControllableClock.GuardIsMembership | internal/clock/mock.go:254-273 | the bounds guard on an entry's index holds exactly for entries in the heap, and then the index is that of the entry |
| MockClock.ControllableClock.RootIsFirst | internal/clock/mock.go:150-158 | the entry at the root is the first alarm in (time, id) order |
| Profile.Compile | internal/profile/compiler.go:13-80 | compilation succeeds exactly on the inputs that compile, yields the specified segments, contiguous from offset zero inside 64 bits with positive intervals and the true peak rate, and an error names what is wrong |
| Profile.CompileSegment | internal/profile/compiler.go:24-78 | one source segment compiles exactly when its count, rates, intervals and durations allow |
| Profile.CompileStep | internal/profile/compiler.go:35-72 | one step compiles exactly when its rate, interval and end offset allow, and the error says which did not |
| Profile.ExplainedNeverCompiles | internal/profile/compiler.go:13-80 | no error is reported of an input that compiles |
| Profile.CompiledAt | internal/profile/compiler.go:59-72 | where each step of each source segment lands: its position, name, offsets, duration and rate |
| Profile.PartitionExact | internal/profile/compiler.go:32-38 | a source segment's steps add up to exactly its duration unless its step count is negative, and differ by at most one nanosecond |
| Profile.NegativeStepsCompile | internal/profile/compiler.go:24-37 | a concrete source segment with a negative step count compiles, to nothing |
| Profile.ElapsedClosed | internal/profile/compiler.go:32-38 | the closed form of the time the first steps take |
| Profile.OffsetsAddUp | internal/profile/compiler.go:51-73 | the total duration is at most the sum of the source durations, and equal to it if and only if no source segment that lasts has a negative step count |
| Profile.CompiledStagesAscend | internal/profile/compiler.go:59-72 | compilation keeps the order of stages |
| Profile.RampMonotone | internal/profile/compiler.go:39-42 | a ramp runs from its start rate to its end rate without turning back |
| Validation.ValidateSegments | internal/config/validate.go:276-312 | validation accepts exactly the admissible profiles and otherwise reports the first segment with a problem |
| Validation.CleanAscends | internal/config/validate.go:294-298 | checking each segment against the one before orders all stages |
| Validation.ValidatedDuration | internal/config/validate.go:299-306 | a validated profile compiles to exactly the sum of its source durations |
| Lifecycle.LegalIffUpward | internal/core/lifecycle.go:56-75 | a transition is legal if and only if it goes up in rank and is none of six named shortcuts |
| Lifecycle.NoRevisit | internal/core/lifecycle.go:56-75 | along any legal history the rank strictly increases, so no state is visited twice |
| Lifecycle.LifecycleStateMachine.TransitionTo | internal/core/lifecycle.go:97-109 | only legal transitions move; a refused one changes nothing |
| Lifecycle.LifecycleStateMachine.EnterStage | internal/scheduler/open.go:309-320 | a stage enters its state exactly when that is legal; an unknown stage is refused |
| Lifecycle.LifecycleStateMachine.Run | internal/scheduler/open.go:95-165 | a run is refused exactly when its first stage cannot be entered, finishes exactly when it gets through the stages it visits, and then ends in Completed wherever it was canceled and however it drained |
| Lifecycle.LifecycleStateMachine.RunClosed | internal/scheduler/closed.go:111-188 | a closed run starts exactly from a state before Running, and then ends in Completed however it stops and drains |
| Lifecycle.ThroughIffEnterable | internal/scheduler/open.go:118-134 | a fresh scheduler gets through its stages if and only if they start early and skip nothing |
| Lifecycle.ValidatedEnterable | internal/config/validate.go:280-311 | whatever validates and compiles has such stages, up to any segment |
| Lifecycle.ValidatedRunFinishes | internal/scheduler/open.go:95-165 | no stage of a validated profile is ever refused, and a second run is |
| Preflight.CheckCeilings | internal/safety/preflight.go:119-148 | preflight accepts exactly the loads within every ceiling, where of a profile each compiled segment must be, and a refusal names the first ceiling exceeded |
| Preflight.IntervalFloor | internal/profile/compiler.go:43-50 | a rate within the ceiling leaves at least a microsecond between requests |
| Preflight.CapacityBounded | internal/scheduler/open.go:205-247 | contiguous segments within the ceiling have room for one request a microsecond and one more per segment |
| Preflight.PermittedCapacity | internal/safety/preflight.go:119-140 | a permitted profile has intervals of at least a microsecond and room for at most 86,400,000,256 requests |
| Preflight.EndToEnd | internal/safety/preflight.go:119-148 | in every state of every open run of a validated load that preflight accepts, at most 86,400,000,256 requests are planned, no request counter leaves 64 bits, and at most 100,000 are in flight |
| EnvExpansion.ExpandEnvWithLookup | internal/config/env.go:52-125 | the index-driven scan computes the token-by-token expansion, with the same first error |
| EnvExpansion.ExpandToken | internal/config/env.go:62-121 | one round of the scan reads one token and expands it |
| EnvExpansion.TokensLossless | internal/config/env.go:61-122 | the tokens of a text are the text |
| EnvExpansion.ExpandRenders | internal/config/env.go:52-125 | expansion succeeds exactly on texts that tokenize with all variables bound, and is the tokens' expansions in order, so inserted values are never read again |
| EnvExpansion.DoublingRoundTrip | internal/config/env.go:64-88 | doubling every dollar sign and expanding gives the text back, for any variables, if and only if every `${` opens a closed identifier |
| Substitution.SubstituteVariables | internal/scenario/substitute.go:20-65 | the scan computes the piece-by-piece substitution, with the same first error |
| Substitution.ReadPiece | internal/scenario/substitute.go:31-61 | one round of the scan reads one piece |
| Substitution.PiecesLossless | internal/scenario/substitute.go:30-62 | the pieces of a text are the text |
| Substitution.SubstituteRenders | internal/scenario/substitute.go:17-65 | substitution succeeds exactly when every scanned variable is bound, is the pieces' values in order, and otherwise reports the first unbound variable |
| Substitution.PlainUnchanged | internal/scenario/substitute.go:21-23 | a text without a dollar sign is its own substitution |
| Substitution.EscapeRoundTrip | internal/scenario/substitute.go:32-42 | an escaped text looks nothing up, and comes back if and only if every `${` is closed before another opens |
| Substitution.TwoStageLiteral | internal/scenario/substitute.go:17-65 | any well-formed text, escaped and then doubled, survives expansion and substitution unchanged for any variables |
| Substitution.TwoStagePlaceholder | internal/config/env.go:21-24 | across both stages `$${x}` ends as the value of x and `$$$${x}` as the text `${x}` |
| JsonPath.ParseJsonPath | internal/scenario/extract.go:110-162 | the parsing loops compute the specified steps or the first error, and end |
| JsonPath.ParsePart | internal/scenario/extract.go:130-158 | the bracket loop computes the steps of one part |
| JsonPath.ParseAfterPrint | internal/scenario/extract.go:110-162 | printing a list of plain keys and 64-bit indices and parsing it gives the list back |
| JsonPath.Walk | internal/scenario/extract.go:74-98 | the walk reaches the value the path leads to or the first step that leads nowhere |
| JsonPath.PrintedPathReaches | internal/scenario/extract.go:69-98 | a printed path, parsed again, leads through objects and arrays to the value put at its end |
| JsonPath.WalkConcat | internal/scenario/extract.go:74-98 | walking a joined path is walking its parts in turn, and fails as they do |
| ClosedRun.AlwaysBalanced | internal/scheduler/closed.go:285-333 | in every reachable state in-flight is what users are executing and at most the number of users, every user's books balance with canceled the replies without a result, and no user starts more than one request after the stop signal |
| ClosedRun.FinalCounts | internal/scheduler/closed.go:144-191 | after draining nothing is in flight and planned = started = completed + canceled, with one outcome per completion and canceled exactly the replies without a result; completed is the number of outcomes that are not canceled if and only if there is no canceled outcome |
| ClosedRun.CanceledCompletes | internal/scheduler/closed.go:304-309 | recording a canceled response counts one more completion and no cancellation |
| ClosedRun.AnyAnswerReachable | internal/scheduler/closed.go:285-309 | any response, a canceled one too, can be the one a user is about to record |
| ClosedRun.NeverStuck | internal/scheduler/closed.go:285-333 | a user that has not left can always take a step |
| ClosedRun.DrainDecreases | internal/scheduler/closed.go:285-333 | after the stop signal every step of a user brings the end nearer |
| ClosedRun.DrainBounded | internal/scheduler/closed.go:169-186 | so a drain takes at most seven steps per user in any interleaving |
| ScenarioRun.ExecuteIteration | internal/scenario/executor.go:353-410 | what the executor ran is a prefix of the steps ending at the first failure whose policy is not to continue; success holds exactly when every step ran and succeeded; each step that ran is recorded once, in order |
| ScenarioRun.Decide | internal/scenario/executor.go:381-406 | after a failed step its policy ends the iteration or lets it go on, and after a successful one that is not the last a think time that is broken off ends it |
| ScenarioRun.RunIteration | internal/scheduler/closed.go:228-256 | an iteration is counted as started, and as completed exactly when every step ran and succeeded, otherwise as failed |
| ScenarioRun.RunUser | internal/scheduler/closed.go:216-282 | every started iteration completes or fails; at most one more iteration is started than had been when the stop signal came; a user aborts only after a failed step whose policy says so |
| ScenarioRun.UserBook.StepDone | internal/scheduler/closed.go:232-247 | a step is booked once in the root book and once in the book of its name |
| ScenarioRun.RootIsSum | internal/scheduler/closed.go:232-247 | every reading of a user's root book is the sum over its step books, in whatever order the names are gone through |
| ScenarioRun.StepsOfLog | internal/metrics/worker.go:102-113 | step books exist for exactly the steps that ran |
| ScenarioRun.PlayedBalanced | internal/scheduler/closed.go:232-247 | in the root book and in every step book planned = started = completed + canceled, with one outcome per completion |
| ScenarioRun.MergeStepWorkers | internal/metrics/aggregate.go:236-271 | the merged books are those of exactly the step names of any user, each the sum over the users that have it |
| ScenarioRun.MergedRootIsSum | internal/metrics/aggregate.go:202-206 | after merging all users the root readings are still the sums over the merged step books |

## Left out

- HTTP execution, transport, cookies, DNS, TLS, redaction, YAML and JSON decoding, thresholds, reports, CLI and GUI: I/O or library plumbing. `ExecuteRequest` and `ExecuteStep` are oracles; that a request has a result is a history variable of the open run, not an assumption.
- Floating point: rates, intervals and lags are exact reals with the interval rounded down; NaN, infinities, underflow of a rate, and intervals beyond 64 bits do not occur in the model.
- 64-bit wrap-around of counters, identifiers and clock times: unbounded here. For request counters of open runs `Preflight.EndToEnd` shows it cannot happen; the sum of compiled and requested steps in compilation is not wrapped either.
- Histograms are multisets of clamped microsecond values; HdrHistogram's buckets, percentiles, means and its merge errors are not modelled. Rates, ratios, calibration are single formulas over the modelled numbers.
- Counter maps whose entries only grow are multisets, and Go's random map iteration order is the order of the model's choice; sharing of maps and slices between a merged result and its sources is not modelled.
- Lengths count characters where the code counts bytes; error truncation and name limits agree on ASCII.
- Metrics.MergeAggregates: status keys that parse but were not written by the program, such as `+200`, are covered only by its success condition, because two such keys could name one code and the last one read would win.
- Metrics.WorkerMetrics.MergeFrom: step accumulators and iteration counts are not part of this merge in the code either; histogram merge errors are not modelled.
- Metrics.WorkerMetrics.Snapshot: step accumulators and iteration counts are not fields of the model's accumulator; those of the closed workload are in `ScenarioRun`.
- Metrics.MergeWorkers: for the same reason the step results and iteration counts of the merged result are left out, and so are its percentiles and rates.
- MockClock.ControllableClock.NewTimer: the notification of goroutines that wait for a number of timers is not part of this model.
- MockClock.ControllableClock.NewTicker: likewise.
- Pacing.ScheduleSegment: no time passes between the reading that decides a tick and its hand-over.
- ClosedRun.FinalCounts: a reply has a result or an error; the code would count one that has neither as neither completed nor canceled.
- OpenRunTheorems.InFlightBounded: the recorded peak may lie below the true one, since workers can lower the counter before it is read; only the upper bound is stated.
- Scheduler lag and first-throttle offsets of an open run are merged per segment (`Summaries`) but are not in the books of the step system, which hold what adds up.
- The grace timer of a run and its cancellation of workers are any cancellation at any moment; executing requests answer it as oracles.
- MockClock.ControllableClock.StopTimer: a timer that has fired is not marked stopped, so its result does not mean the timer was pending; `Set`, `Sleep`, waiters and `BlockUntilTimers` are not part of this model.
- MockClock.ControllableClock.Reset: one method for timers and tickers, whose code differs only in the order of assignments and the result; `Stop` takes an entry out of the heap before it marks it, where the code marks it first.
- ScenarioRun.RunUser: the loop has no bound in the code; here a horizon limits how many iterations are watched, and what is stated holds for every horizon. A failure policy other than the three named ones continues, as in the code.
- ScenarioRun.MergeStepWorkers: the additive part of the step results only; samples and header entries of steps merge as in `Summaries`.
- Extraction from headers, cookies and regular expressions, and the text form of an extracted JSON value.
