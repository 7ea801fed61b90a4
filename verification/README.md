# Verified models of zerobench

zerobench is a load generator: workers record samples while a ticker drains them for a dashboard, the merged
statistics go into reports that are compared statistically, requests are built from templates, and small
self-checks, parsers and a stub server surround it. This project models the parts of it that hide state, loops or
arithmetic behind a small interface, and proves what they promise. Each file starts with what it covers:

- **Live metrics pipeline.** `MachineInts`, `Metrics`, `LiveSnapshot`, `Stats`, `Recorder` are the shared
  building blocks and the classes that the code updates in place. `LivePipeline` is a state machine whose steps are
  the individual atomic accesses of any number of workers and the individual swaps of the ticker, in any
  interleaving and with any assignment of threads to shards; `QuietPass` and `EndToEnd` relate it to the
  uninterrupted snapshot and to the merged summary, `MergeLaws` and `FirstBytes` say what each merge adds and follow
  the time to first byte through a run. `Dashboard` is the bounded ring with its caches.
- **Statistics.** `Ecdf` (Kolmogorov-Smirnov and Anderson-Darling), `AdVariance`, `Holm`, `Bootstrap`; `Reals`
  holds the floating-point helpers.
- **Templates and printers.** `Template`, `Decimal`, `Calendar`, `Timestamp`, with `Text` and `Division` beneath.
- **WebSocket.** `WebSocket`: decoder, encoder and echo loop of the stub server; `Fragments`: the loop against
  fragmented messages.
- **Self-check.** `SelfCheck`: the open-loop schedule under an adversarial clock.
- **Canonical JSON and small parsers.** `CanonicalJson`, `Durations`, `JsonScan`.

Conventions. A histogram is the multiset of the buckets of its samples; which bucket a value falls into, and which
value a percentile reports, are parameters. Machine integers are written out: `u64` counters wrap, `i32` casts keep the
low bits, saturating operations saturate. A plain `+=` on a `u64` is that of a build without overflow checks;
`Durations` covers both kinds of build. `f64` is an exact real. Text buffers are strings whose characters stand for
bytes (for code points in `Durations`). Clocks, random draws, environment lookups, socket reads and their failures are
parameters, so that every statement holds for all of them.

## Where the code and its promises differ

- The regression gate (`zerobench-report/src/compare.rs:224-261`, `350-360`) does not trip, whatever side B does, when the
  baseline of side A is below the machine epsilon. A clean baseline is the common case: three runs without an error
  against three runs of errors only differ significantly and pass every threshold, with or without an interval
  (`Bootstrap.CleanBaselineNeverTrips`), although `error_rate:+0.01%` is an advertised setting
  (`zerobench-cli/src/verbs/diff.rs:46`). For a baseline that is not negative, as no metric is, the gate follows its
  documented rule at every threshold exactly when the baseline reaches the epsilon or nothing got worse
  (`Bootstrap.GateIsDocumentedIff`).
- Beyond 100000 samples the Anderson-Darling variance is replaced by `4/3 (1 - 1.34/N)`, documented as accurate to about
  one per cent whatever the split (`zerobench-report/src/compare.rs:775-785`). It is more than 1.8 times the variance for
  every number of samples it is used for and every split (`AdVariance.AsymptoticIsTooLarge`), so the promise is never met.
- `find_json_u64_field` documents that floats give nothing (`zerobench-runtime/src/json_scan.rs:27-28`); it returns the
  digits before the point or exponent, and gives nothing exactly for a negative number and for digits that do not fit 64
  bits (`JsonScan.FloatReadsItsIntegerPart`; `JsonScan.OneAndAHalf` for `1.5` and `-1.5`).
- A build without overflow checks, such as the release profile, takes some durations for others: exactly those with a
  piece whose minutes or hours do not fit 64 bits of seconds (`Durations.WrappingIsExactIff`). It takes
  `307445734561825861m` for 44 seconds (`Durations.MinutesWrap`); a build with checks stops.
- The scheduler jitter of the self-check is documented as `|actual_start - intended_start|`
  (`zerobench-runtime/src/calibrate.rs:269-272`); early starts are recorded as on time. The two agree exactly when no request
  starts more than a nanosecond early (`SelfCheck.JitterIsDistanceIff`); `SelfCheck.EarlyStart` has a request that does.
- The echo loop ignores the final bit (`zerobench-stub/src/main.rs:637-639`), against section 5.4 of RFC 6455. Answering
  frames is answering messages exactly when every data frame the loop reaches is final, save for a fragmented message
  whose later fragments are all empty and behind which nothing is to be answered (`Fragments.FramesAreMessagesIff`);
  otherwise a first fragment is echoed as if it were the whole message and its continuation ends the connection
  (`Fragments.FragmentsAreCut`).
- `Summary::merge` takes the number of scenarios from the first element, so that the order of the workers matters exactly
  when their scenario counts differ in front (`Stats.SummaryOrder`).
- The delta baseline of the dashboard is documented as "10 ticks back" (`zerobench-tui/src/state.rs:46-49`); the code takes
  history index n - 10, nine ticks before the newest one. For an arbitrary function of the histogram in the place of
  the percentile the two agree exactly before the tenth tick, and from the eleventh on when the tick that has entered the
  five-tick window in between has the same latencies as the one that has left it (`Dashboard.BaselineIsTenBackIff`;
  `Dashboard.BaselineIsNineBack` has eleven ticks for which they differ).

## Model

| member | source | states |
|---|---|---|
| LiveAggregator.LiveSnapshot.Record | zerobench-runtime/src/live_snapshot.rs:241-250 | three fetch_adds and one clamped sample reach the aggregate, in that order |
| LiveAggregator.LiveSnapshot.RecordScenario | zerobench-runtime/src/live_snapshot.rs:260-276 | the same four accesses reach the scenario's slot, or none when the slot is missing |
| LiveAggregator.LiveSnapshot.RecordError | zerobench-runtime/src/live_snapshot.rs:253-255 | one increment of the kind's aggregate counter |
| LiveAggregator.LiveSnapshot.RecordScenarioError | zerobench-runtime/src/live_snapshot.rs:279-283 | one increment in the scenario's slot, or none when the slot is missing |
| LiveAggregator.LiveSnapshot.MergeShards | zerobench-runtime/src/live_snapshot.rs:380-392 | the sum of all sixteen shards is returned and every shard is left empty, counters untouched |
| LiveAggregator.LiveSnapshot.SwapAndSnapshot | zerobench-runtime/src/live_snapshot.rs:288-315 | uninterrupted, a tick reports every group in full and leaves every slot blank |
| Metrics.ErrorCounters.Incr | zerobench-core/src/stats.rs:108-119 | exactly the kind's counter moves, by one, wrapping |
| Metrics.ErrorCounters.Merge | zerobench-core/src/stats.rs:65-74 | every kind's counter is the wrapped sum of the two |
| Stats.TaskStats.Record | zerobench-core/src/stats.rs:365-390 | both histograms, three counters and the scenario slot, when there is one, move by one sample |
| Stats.TaskStats.RecordError | zerobench-core/src/stats.rs:394-399 | the kind moves in the totals and in the scenario slot, when there is one |
| Stats.TaskStats.Merge | zerobench-core/src/stats.rs:405-417 | field-wise sum; scenario slots merge by index and surplus ones are dropped |
| Stats.MergeScenarioSlots | zerobench-core/src/stats.rs:479-483 | slots merge by index, whatever the two lengths |
| Stats.MergeSummary | zerobench-core/src/stats.rs:455-487 | the two nested loops compute the fold of all workers into a summary sized by the first |
| Stats.SummaryOrder | zerobench-core/src/stats.rs:455-487 | for any permutation of the workers the summary is the same exactly when the first worker has as many scenarios as before |
| Stats.ScenarioMergesCommute | zerobench-core/src/stats.rs:302-316 | two merges into one scenario slot commute, protocol extras included |
| Stats.MergesCommute | zerobench-core/src/stats.rs:405-417 | two merges into the same totals commute |
| MergeLaws.ScenarioHistsAdd | zerobench-core/src/stats.rs:302-316 | every histogram of a scenario, those of either protocol included, is the sum of the two; absent extras count as empty |
| MergeLaws.ScenarioCountersAdd | zerobench-core/src/stats.rs:302-316 | every counter of a scenario is the sum modulo 2^64 |
| MergeLaws.MergeAdds | zerobench-core/src/stats.rs:405-417 | both histograms and every counter of the totals are the sums; slots of the same index merge and surplus ones stay or are dropped |
| MergeLaws.SummaryAddsSlots | zerobench-core/src/stats.rs:455-487 | slot i of a summary holds, for each of its seven histograms, the samples of slot i of all workers, and the low sixteen bits of i as its identity |
| Recording.Recorder.Record | zerobench-runtime/src/recorder.rs:61-76 | each sink that is present moves by exactly this call, aggregate before scenario |
| Recording.Recorder.RecordNs | zerobench-runtime/src/recorder.rs:82-96 | the same for a latency given in nanoseconds |
| Recording.Recorder.RecordError | zerobench-runtime/src/recorder.rs:101-109 | the same for an error |
| LivePipeline.EveryRunConserves | zerobench-runtime/src/live_snapshot.rs:241-315 | after every event of every interleaving: emitted ticks, plus values swapped out but not emitted, plus live slots are exactly what was executed, for each counter (up to whole wraps) and histogram of each group |
| LivePipeline.WorkConserves | zerobench-runtime/src/live_snapshot.rs:241-283 | one access of one worker keeps that balance |
| LivePipeline.TickConserves | zerobench-runtime/src/live_snapshot.rs:288-315 | one swap of the ticker, or the emission, keeps that balance |
| QuietPass.QuietPassIsSnapshot | zerobench-runtime/src/live_snapshot.rs:288-315 | while no worker is active, a pass of single swaps emits the uninterrupted snapshot and leaves every slot blank |
| EndToEnd.RequestsAheadOfSamples | zerobench-runtime/src/live_snapshot.rs:241-250 | in every reachable state, requests minus samples of a group is the number of workers between the two accesses |
| EndToEnd.CallMovesLive | zerobench-runtime/src/recorder.rs:61-109 | the accesses of a call amount to one request, its bytes and its bucket for the aggregate and its scenario; the two clamps agree |
| EndToEnd.CallMovesHists | zerobench-core/src/stats.rs:365-390 | the persistent side moves by the same bucket |
| EndToEnd.RunMatches | zerobench-runtime/src/recorder.rs:61-109 | throughout every run a worker's own statistics match the accesses it has made or still owes |
| EndToEnd.FinalSwapEmpties | zerobench-runtime/src/live_snapshot.rs:288-315 | a pass over idle workers leaves nothing live or undelivered |
| EndToEnd.SummaryEqualsTicks | zerobench-core/src/stats.rs:455-487 | after idling and one final swap, the summary merged in any order of the workers and the sum of all ticks agree on every shared counter and every histogram, per scenario and in total |
| EndToEnd.NoWrapIsExact | zerobench-runtime/src/live_snapshot.rs:288-315 | totals below 2^64 are conserved exactly, without wraps |
| FirstBytes.CallMovesTtfb | zerobench-core/src/stats.rs:365-390 | a call adds to the time to first byte the bucket of its own, held between 1 and 60000000000, that of 1 when only a latency is given, and nothing for an error |
| FirstBytes.RunKeepsTtfb | zerobench-runtime/src/recorder.rs:61-109 | throughout every run, a worker holds exactly those buckets of the calls it has begun |
| FirstBytes.SummaryKeepsTtfb | zerobench-core/src/stats.rs:455-487 | a summary in any order holds those of all workers |
| QuietPass.CallRunsThrough | zerobench-runtime/src/recorder.rs:61-109 | a call whose accesses meet no other step leaves the slots as the uninterrupted call does |
| Dashboard.DashboardState.Ingest | zerobench-tui/src/state.rs:458-513 | the ring is the last min(n, 300) records, totals cover the whole history, every cached percentile is that of its own five-tick window, the baseline is the one of index n - 10, the extremes cover the ticks since the reset |
| Dashboard.DashboardState.ResetPeaks | zerobench-tui/src/state.rs:517-520 | only the extremes start over; everything else keeps its meaning |
| Dashboard.DashboardState.ComputeRolling | zerobench-tui/src/state.rs:525-539 | the percentile of the merged last five ticks, zero without samples |
| Dashboard.DashboardState.RollingP999 | zerobench-tui/src/state.rs:631-633 | the cached value is what recomputing from the full history gives |
| Dashboard.DashboardState.RollingLatency | zerobench-tui/src/state.rs:610-624 | nothing before any sample, else the merged histogram of the latest five ticks of the history |
| Dashboard.RecordAt | zerobench-tui/src/state.rs:491-501 | a record depends only on the history up to its own tick, whatever came later |
| Dashboard.TickShows | zerobench-tui/src/state.rs:491-501 | record i, rate i and latency i are those of tick i of the history |
| Dashboard.TotalsAreSums | zerobench-tui/src/state.rs:458-463 | every counter of the totals is the sum over all ticks, modulo 2^64 |
| Dashboard.ScenarioRequestsAreSums | zerobench-tui/src/state.rs:478-489 | the requests of a scenario are the sum over the ticks that report it |
| Dashboard.ScenarioErrorsAreSums | zerobench-tui/src/state.rs:478-489 | so are its errors, kind by kind |
| Dashboard.PeakIsMaximum | zerobench-tui/src/state.rs:464-468 | the peak is the largest rate since the reset, and attained |
| Dashboard.TroughIsLeastBusy | zerobench-tui/src/state.rs:469-476 | the minimum is the smallest non-zero rate, and absent exactly while every tick is idle |
| Dashboard.BaselineInRing | zerobench-tui/src/state.rs:503-512 | the tenth record from the end of the ring is history index n - 10, even after evictions |
| Dashboard.BaselineIsTenBackIff | zerobench-tui/src/state.rs:46-49 | the baseline is the value of ten ticks back, for an arbitrary function of the histogram, exactly before the tenth tick, and from the eleventh on when the tick entering the window equals the one leaving it |
| Dashboard.BaselineIsNineBack | zerobench-tui/src/state.rs:46-49 | eleven concrete ticks for which it is not |
| Ecdf.AdvancePast | zerobench-report/src/compare.rs:556-565 | the inner loop passes the bucket at the step value, if any, and counts it in full |
| Ecdf.KsStatistic | zerobench-report/src/compare.rs:524-576 | the merge-walk returns the maximum of the distance of the two distributions over all values, recorded or not, and it is attained |
| Ecdf.KsIsUnique | zerobench-report/src/compare.rs:524-576 | that maximum determines the statistic |
| Ecdf.KsIsSymmetric | zerobench-report/src/compare.rs:524-576 | swapping the histograms does not change D |
| Ecdf.KsInUnit | zerobench-report/src/compare.rs:463-464 | D lies between 0 and 1 |
| Ecdf.KsZeroIff | zerobench-report/src/compare.rs:524-576 | D is zero exactly when the distributions coincide |
| Ecdf.AdSteps | zerobench-report/src/compare.rs:661-702 | every distinct recorded value is visited once, in increasing order, with its own count and the counts at or below it |
| Ecdf.DenominatorPositive | zerobench-report/src/compare.rs:707-714 | before the last value the denominator is positive, so the guard is never taken |
| Ecdf.AdSum | zerobench-report/src/compare.rs:706-717 | the sum over all steps but the last is the sum over every value, recorded or not |
| Ecdf.AdSquared | zerobench-report/src/compare.rs:643-718 | A squared as AdIsDiscrepancies spells it out through the distributions, and zero for an empty side |
| Ecdf.AdIsDiscrepancies | zerobench-report/src/compare.rs:704-718 | A squared is (N-1)nm/N times the sum, over the values v with pooled count 0 < C(v) < N, of C(v) - C(v-1) times the squared difference of the distributions over C(v)(N - C(v)) |
| Ecdf.OneAgainstOne | zerobench-report/src/compare.rs:704-718 | one sample against a larger one: A squared is 0.5 and D is 1 |
| Ecdf.AdNonNegative | zerobench-report/src/compare.rs:704-718 | A squared is not negative |
| Ecdf.AdSymmetric | zerobench-report/src/compare.rs:704-718 | swapping the histograms does not change A squared |
| Ecdf.AdZeroIff | zerobench-report/src/compare.rs:704-718 | A squared is zero exactly when the distributions coincide |
| Ecdf.KsZeroIffAdZero | zerobench-report/src/compare.rs:524-718 | D and A squared vanish together |
| AdVariance.LoopComputesG | zerobench-report/src/compare.rs:794-804 | the single loop over harmonic differences computes the documented double sum, for every number of samples |
| AdVariance.InnerIsHarmonic | zerobench-report/src/compare.rs:796-800 | an inner sum is a difference of harmonic numbers over the outer factor |
| AdVariance.SpecialisedToTwoSamples | zerobench-report/src/compare.rs:757-774 | the coefficients in the code are those of equation (8) of Scholz and Stephens at k = 2 |
| AdVariance.HarmonicTable | zerobench-report/src/compare.rs:788-792 | the table holds the harmonic numbers |
| AdVariance.HarmonicAndG | zerobench-report/src/compare.rs:787-804 | h is the last harmonic number and g the double sum |
| AdVariance.ClosedG | zerobench-report/src/compare.rs:723-726 | the documented double sum is the sum of the reciprocal squares below N, less 2 H(N-1) / N |
| AdVariance.SigmaSquared | zerobench-report/src/compare.rs:780-814 | up to 100000 samples the cubic over (N-1)(N-2)(N-3) with that h and g, at least the epsilon; beyond, a value more than 1.8 times that variance |
| AdVariance.SmallVariances | zerobench-report/src/compare.rs:757-774 | for 2+2, 1+3, 2+3 and 3+3 samples the cubic is 2/9, 16/81, 1429/5184 and 143/450, the variances over all arrangements of such samples |
| AdVariance.AsymptoticIsTooLarge | zerobench-report/src/compare.rs:775-785 | the value used beyond 100000 samples exceeds 1.8 times the variance for every number of samples and every split, against the promised one per cent |
| Holm.AdjustAlong | zerobench-report/src/compare.rs:893-904 | for any ascending order the sort may return, every adjusted value is the greatest corrected value among hypotheses with no larger p-value |
| Holm.HolmBonferroni | zerobench-report/src/compare.rs:879-904 | the same for the whole function, in the order of the input |
| Holm.AdjustedDecidesRejection | zerobench-report/src/compare.rs:872-878 | adjusted < alpha exactly when the step-down procedure rejects, for every alpha in (0, 1] and every ascending order |
| Holm.AdjustedIsUnique | zerobench-report/src/compare.rs:885-903 | the way ties are broken does not show in the result |
| Holm.AdjustedKeepsOrder | zerobench-report/src/compare.rs:898-901 | adjusted values are ordered like the raw ones |
| Holm.AdjustedBounds | zerobench-report/src/compare.rs:876-878 | for p-values in [0, 1], raw <= adjusted <= min(1, m p) |
| Holm.AdjustedUnderPermutation | zerobench-report/src/compare.rs:872-874 | the correction commutes with permuting the hypotheses |
| Bootstrap.MeanResample | zerobench-report/src/compare.rs:432-440 | the mean of the values the draws pick |
| Bootstrap.PicksFollowDraws | zerobench-report/src/compare.rs:432-440 | a draw picks the value whose index it leaves as remainder, each position by its own draw |
| Bootstrap.PercentileInterval | zerobench-report/src/compare.rs:396-402 | the two bounds are elements of the sorted differences at the rounded, capped indices |
| Bootstrap.CompareBootstrap | zerobench-report/src/compare.rs:366-422 | means, difference, ratio, interval and verdict of the bootstrap for any draws |
| Bootstrap.CompareMetric | zerobench-report/src/compare.rs:274-285 | bootstrap with at least three runs on both sides, the raw difference otherwise |
| Bootstrap.SignificantIff | zerobench-report/src/compare.rs:402-410 | a difference is significant exactly when the interval excludes zero |
| Bootstrap.PctDeltaMeans | zerobench-report/src/compare.rs:350-360 | times the baseline the ratio is the difference; below the epsilon there is none, but zero for no difference |
| Bootstrap.IndicesInOrder | zerobench-report/src/compare.rs:398-400 | the low index does not exceed the high one |
| Bootstrap.DeltaFromDraws | zerobench-report/src/compare.rs:366-395 | resample r draws for A and then for B; its difference is that of the means of the values picked |
| Bootstrap.IndicesAreQuantiles | zerobench-report/src/compare.rs:396-400 | the two indices are (1 - c)n/2 and (1 + c)n/2, rounded to the nearest and up from the middle |
| Bootstrap.IntervalBounds | zerobench-report/src/compare.rs:366-422 | for any draws lo <= hi, and both lie in [min B - max A, max B - min A] |
| Bootstrap.GateOutcome | zerobench-report/src/compare.rs:224-261 | for any result of either path: a baseline below the epsilon never trips, otherwise the bad end of the interval, or the raw difference, over the baseline decides |
| Bootstrap.RateGatesDrops | zerobench-report/src/compare.rs:84-86 | on the rate, a drop beyond the threshold trips from a baseline of the epsilon on, and no rise ever does |
| Bootstrap.OthersGateRises | zerobench-report/src/compare.rs:84-86 | on each latency metric and the error rate, a rise beyond the threshold trips from a baseline of the epsilon on, and no drop ever does |
| Bootstrap.RawGatesLikewise | zerobench-report/src/compare.rs:304-322 | without an interval, the same directions decide, with the exact condition |
| Bootstrap.DoubledLatencyTrips | zerobench-report/src/compare.rs:224-261 | p99 runs of 10 ms against 20 ms trip a gate of five per cent |
| Bootstrap.GateIsGuarded | zerobench-report/src/compare.rs:224-261 | the gate is the documented rule (worse than threshold times baseline) and a baseline of at least the epsilon |
| Bootstrap.GateIsDocumentedIff | zerobench-report/src/compare.rs:210-223 | the gate follows that rule at every threshold exactly when the baseline reaches the epsilon or nothing got worse |
| Bootstrap.SeparatedRunsTrip | zerobench-report/src/compare.rs:224-261 | A runs, zero included, separated by more than the threshold trip the gate exactly when the mean of A is at least the epsilon |
| Bootstrap.SeparatedLatenciesTrip | zerobench-report/src/compare.rs:224-261 | runs of at least 1, such as latencies in nanoseconds, always trip it |
| Bootstrap.ImprovedRunsNeverTrip | zerobench-report/src/compare.rs:224-261 | runs separated in the good direction, or touching, never trip it at any threshold |
| Bootstrap.RawGateOutcome | zerobench-report/src/compare.rs:304-322 | without an interval the raw difference is gated, again only from a baseline of the epsilon on |
| Bootstrap.CleanBaselineNeverTrips | zerobench-report/src/compare.rs:350-360 | the concrete input of three clean runs against three of errors only: significant, and no threshold trips on either path |
| Bootstrap.TinyBaselineNeverTrips | zerobench-report/src/compare.rs:350-360 | the same, through the bootstrap, for three runs at half the epsilon |
| Template.FindDoubleClose | zerobench-core/src/template.rs:425-434 | the first closer, or none |
| Template.FirstCloseIsFirst | zerobench-core/src/template.rs:425-434 | no closer stands before the one found, and none is there when none is found |
| Template.CoalesceLiterals | zerobench-core/src/template.rs:438-452 | the loop folds each literal into a literal before it |
| Template.Compile | zerobench-core/src/template.rs:336-421 | the buffered loop computes the compilation that the lemmas below interpret |
| Template.CompileExpression | zerobench-core/src/template.rs:363-382 | an expression flushes the literal, adds its part and continues behind the closer, or fails at its own position |
| Template.CompilePreservesMeaning | zerobench-core/src/template.rs:336-452 | expanding the compiled parts is interpreting the source in one pass, with the same failures, from every state of the counters |
| Template.CompiledIsNormal | zerobench-core/src/template.rs:407-409 | no two literals are adjacent in a compiled template |
| Template.CoalescedKeepsMeaning | zerobench-core/src/template.rs:438-452 | folding literals changes neither the output nor the counters |
| Template.StaticIsOneLiteral | zerobench-core/src/template.rs:145-151 | a static compiled template is at most one literal and expands to it in every state |
| Template.EscapedMeansItself | zerobench-core/src/template.rs:353-397 | a text with every pair of braces doubled means itself at any position |
| Template.EscapedRoundTrip | zerobench-core/src/template.rs:336-421 | compiling such a text and expanding it gives the text back |
| Template.SourceMeans | zerobench-core/src/template.rs:336-421 | a source of texts and expressions means its texts unchanged and what its expressions put out, one behind the other with threaded counters, up to the first expression that fails |
| Template.UnclosedFails | zerobench-core/src/template.rs:363-368 | an opener without a closer fails at its position |
| Template.CounterThreads | zerobench-core/src/template.rs:614-618 | the per-worker counter moves by the number of its parts modulo 2^64 and by nothing else |
| Template.CounterPrints | zerobench-core/src/template.rs:614-618 | a counter part behind n others prints the starting value plus n modulo 2^64 |
| Template.OthersThread | zerobench-core/src/template.rs:579-649 | the process-wide counter likewise, and every part that asks the outside asks anew |
| Template.ClockPrints | zerobench-core/src/template.rs:596-608 | the clock in nanoseconds and in whole milliseconds reads back |
| Template.NowIsoReads | zerobench-core/src/template.rs:609-611 | a clock reading expands to the timestamp of its own second and millisecond |
| Template.NowIsoKeepsOrder | zerobench-core/src/template.rs:609-611 | two readings of the clock expand in their order, down to the millisecond |
| Template.RandIntStaysBetween | zerobench-core/src/template.rs:624-632 | a random integer expands to the digits of one between its bounds |
| Template.Context.ExpandPart | zerobench-core/src/template.rs:579-649 | a part appends its output (clock readings and integers through the printers below) and moves the counters by its own step |
| Template.Context.ExpandInto | zerobench-core/src/template.rs:170-175 | parts are expanded left to right, each seeing the counters the previous one left |
| Decimal.FillBuffer | zerobench-core/src/template.rs:655-670 | filling the buffer from its end leaves exactly the decimal digits, without running out of room |
| Decimal.WriteU128 | zerobench-core/src/template.rs:655-670 | the decimal digits of any u128 are appended |
| Decimal.WriteU64 | zerobench-core/src/template.rs:672-674 | the decimal digits of any u64 are appended |
| Decimal.WriteI64 | zerobench-core/src/template.rs:676-684 | sign and digits of any i64, the least one included |
| Decimal.WritePadded | zerobench-core/src/template.rs:722-743 | the number behind enough zeros; zero is nothing but padding |
| Decimal.DigitsRoundTrip | zerobench-core/src/template.rs:655-670 | the digits stand for the number |
| Decimal.NoLeadingZero | zerobench-core/src/template.rs:655-670 | a positive number is printed without leading zeros |
| Decimal.DigitCount | zerobench-core/src/template.rs:656-657 | at most k digits exactly below the k-th power of ten |
| Decimal.SignedDigitsAreInjective | zerobench-core/src/template.rs:676-684 | different integers print differently |
| Decimal.PaddedRoundTrip | zerobench-core/src/template.rs:722-743 | a number that fits is printed in exactly the width and reads back |
| Decimal.PaddedOrder | zerobench-core/src/template.rs:722-743 | at a fixed width, byte order is numeric order |
| Calendar.Epoch | zerobench-core/src/template.rs:745-759 | day 0 is 1970-01-01 |
| Calendar.YearContains | zerobench-core/src/template.rs:751 | the year formula finds the year of the era that contains the day |
| Calendar.MonthContains | zerobench-core/src/template.rs:754 | the month formula finds the month that contains the day of the year |
| Calendar.CivilNext | zerobench-core/src/template.rs:747-759 | every day number gives a valid Gregorian date and the next number gives the next day, by the 28/29/30/31-day and 4/100/400 rules |
| Calendar.CivilIsMonotone | zerobench-core/src/template.rs:747-759 | dates come in the order of their day numbers |
| Calendar.CivilIsInjective | zerobench-core/src/template.rs:747-759 | no two day numbers share a date |
| Calendar.ExportIsCivil | zerobench-tui/src/export.rs:196-208 | nothing wraps in the copy with 32-bit intermediates |
| Calendar.CopiesAgree | zerobench-tui/src/export.rs:196-208 | the copies agree on month and day always, and on the year exactly when it fits 32 bits |
| Timestamp.WriteIso | zerobench-core/src/template.rs:690-720 | the seven fields and their separators are appended in order |
| Timestamp.FourDigitYears | zerobench-core/src/template.rs:686-689 | the years 1970 to 9999 are exactly the first 253402300800 seconds |
| Timestamp.IsoLength | zerobench-core/src/template.rs:686-689 | in those years a timestamp has 24 bytes |
| Timestamp.IsoOrder | zerobench-core/src/template.rs:690-720 | in those years byte-wise order is exactly chronological order, down to the millisecond |
| Timestamp.IsoReads | zerobench-core/src/template.rs:690-720 | in those years the printed text reads back: date, a proper hour, minute and second that add up to the second of the day, milliseconds, and the separators in their places |
| Timestamp.EpochPrints | zerobench-core/src/template.rs:690-720 | the epoch is 1970-01-01T00:00:00.000Z |
| WebSocket.UnmaskInPlace | zerobench-stub/src/main.rs:676-686 | byte i is combined with mask byte i mod 4, in place |
| WebSocket.TryDecode | zerobench-stub/src/main.rs:632-693 | the verdict on a buffer that the lemmas below characterise |
| WebSocket.FrameDecodes | zerobench-stub/src/main.rs:632-693 | any masked frame, in any of the three length forms up to 64 MiB and followed by anything, decodes to its opcode, payload and length |
| WebSocket.CompleteIsFrame | zerobench-stub/src/main.rs:632-693 | whatever decodes completely starts with a masked frame of that opcode and payload |
| WebSocket.PrefixNeedsMore | zerobench-stub/src/main.rs:632-693 | every proper prefix of a masked frame needs more |
| WebSocket.DecodeIsStable | zerobench-stub/src/main.rs:632-693 | a verdict other than NeedMore does not change when more bytes arrive |
| WebSocket.MaskedTwice | zerobench-stub/src/main.rs:676-686 | masking twice gives the payload back |
| WebSocket.XorSetsDifferingBits | zerobench-stub/src/main.rs:685 | each bit of a masked byte is set exactly when the bits of the payload and the mask differ |
| WebSocket.HelloDecodes | zerobench-stub/src/main.rs:632-693 | the masked frame of section 5.7 of RFC 6455 decodes to Hello |
| WebSocket.LongestPayload | zerobench-stub/src/main.rs:645-668 | lengths are in network byte order; 64 MiB is accepted and one byte more is not |
| WebSocket.EncodeServerFrame | zerobench-stub/src/main.rs:696-722 | the final bit, the opcode, the length and the payload, unmasked |
| WebSocket.ServerFrameReads | zerobench-stub/src/main.rs:696-722 | a receiver reads back opcode and payload, and the length is in its shortest form |
| WebSocket.Respond | zerobench-stub/src/main.rs:581-601 | text and binary are echoed, a ping is answered, a close is echoed and ends, a pong is ignored, anything else ends |
| WebSocket.EchoLoop | zerobench-stub/src/main.rs:570-619 | the frames sent are a function of the bytes received, cut off at the first send that fails |
| WebSocket.SplitStreamArrives | zerobench-stub/src/main.rs:603-615 | however the bytes are split into reads, the same stream arrives |
| WebSocket.EmptyReadEnds | zerobench-stub/src/main.rs:603-615 | an empty read ends the stream: nothing behind it arrives |
| WebSocket.FramesAreAnswered | zerobench-stub/src/main.rs:570-619 | frames are answered one by one and in order with their payloads, up to the first close or unknown frame |
| Fragments.FragmentsJoin | zerobench-stub/src/main.rs:570-619 | the reference endpoint of section 5.4 of RFC 6455 echoes a message as one, however it is cut into fragments |
| Fragments.FramesAreMessagesIff | zerobench-stub/src/main.rs:570-619 | for every stream of frames the loop sends what that endpoint sends exactly when every data frame reached is final, or the first open fragment is the whole message (empty continuations and pongs follow) and nothing behind it is to be answered, as the frames themselves show |
| Fragments.UnansweredIff | zerobench-stub/src/main.rs:570-619 | nothing is to be answered exactly for pongs and a message that stays unfinished, up to a frame out of place |
| Fragments.ExtendedFragmentDiffers | zerobench-stub/src/main.rs:637-639 | a non-final data frame, reached anywhere and with any reserved bits, followed by a non-empty continuation is answered wrongly |
| Fragments.FragmentsAreCut | zerobench-stub/src/main.rs:637-639 | a first fragment is echoed as a whole message and its continuation ends the connection, whatever the reserved bits |
| Fragments.LaterFramesTell | zerobench-stub/src/main.rs:570-619 | while a client conforms and has not closed: all later final frames are answered as messages exactly when all data frames so far were final |
| SelfCheck.WaitUntil | zerobench-runtime/src/calibrate.rs:376-387 | a request starts at most a microsecond early, and after its sleep when it is due later |
| SelfCheck.Check | zerobench-runtime/src/calibrate.rs:357-415 | under any clock: each request starts exactly when the clock and its intended time say, on its connection in turn; the samples are its lateness and the time it took, in range; the run ends at the first failure, when the duration is over, or with the turns |
| SelfCheck.IntendedIsMultiple | zerobench-runtime/src/calibrate.rs:414 | request k is meant to start at k intervals, saturating, whatever happened before |
| SelfCheck.JitterIsDistanceIff | zerobench-runtime/src/calibrate.rs:269-272 | the samples are the documented distances exactly when no request starts more than a nanosecond early |
| SelfCheck.EarlyStart | zerobench-runtime/src/calibrate.rs:269-272 | a concrete run with a start 1000 ns early whose sample is 1 |
| SelfCheck.PacingBound | zerobench-runtime/src/calibrate.rs:357-415 | (completed - 2) intervals stay below the duration plus a microsecond |
| CanonicalJson.Canonicalise | zerobench-runtime/src/fingerprint.rs:61-83 | the recursion with its sorted map computes the canonical value |
| CanonicalJson.CanonicalDecidesEquivalence | zerobench-runtime/src/fingerprint.rs:61-83 | two values have the same canonical form exactly when they are equal up to the order of members at every depth |
| CanonicalJson.CanonicalIsSorted | zerobench-runtime/src/fingerprint.rs:47-48 | every object in the result is sorted by key, and well-formed |
| CanonicalJson.CanonicalIsIdempotent | zerobench-runtime/src/fingerprint.rs:61-83 | canonicalising again changes nothing |
| CanonicalJson.CanonicalIsEquivalent | zerobench-runtime/src/fingerprint.rs:61-83 | the canonical value is the given one up to the order of members |
| CanonicalJson.SortAddresses | zerobench-runtime/src/fingerprint.rs:203-208 | the printed addresses, in ascending order, none lost or added |
| CanonicalJson.AscendingIsUnique | zerobench-runtime/src/fingerprint.rs:203-208 | the sorted list depends on the addresses and their number only |
| Durations.ParseDuration | zerobench-cli/src/cli_args.rs:487-524 | the nested loops compute, for a build with overflow checks and for one without, the parse that the next lemmas characterise |
| Durations.PiecesParse | zerobench-cli/src/cli_args.rs:487-524 | any list of digit runs with units (leading zeros, blanks around a unit, no unit at the end) parses to its sum; unknown units and numbers beyond 64 bits are rejected, anything else fails by overflow only |
| Durations.EveryTextParses | zerobench-cli/src/cli_args.rs:487-524 | every text is nothing but blanks, or has no digit in front and is rejected, or is such a list and parses to its sum |
| Durations.UnitParses | zerobench-cli/src/cli_args.rs:511-519 | each unit by its length, no unit at the end as seconds, any other as a rejection |
| Durations.TrimTakes | zerobench-cli/src/cli_args.rs:488 | trimming leaves the part between the outermost characters that are not blank |
| Durations.WrappingIsExactIff | zerobench-cli/src/cli_args.rs:516-517 | without overflow checks the duration returned is the one meant exactly when no minutes or hours wrap; with checks the others stop |
| Durations.MinutesWrap | zerobench-cli/src/cli_args.rs:516 | minutes that do not fit keep the low 64 bits of their seconds, with a concrete text |
| Durations.ParseInvertsFormat | zerobench-cli/src/main.rs:198-213 | parsing a printed duration gives its whole seconds, or whole milliseconds below a second, without overflow in any build |
| Durations.SurvivesIffWhole | zerobench-cli/src/main.rs:198-213 | a duration survives printing and parsing exactly when it is whole |
| JsonScan.FindU64Field | zerobench-runtime/src/json_scan.rs:29-60 | the scanner computes the number that the lemmas below characterise |
| JsonScan.ReadDigits | zerobench-runtime/src/json_scan.rs:48-59 | the checked accumulation gives the value of the maximal run of digits, unless there is none or it does not fit |
| JsonScan.FirstFromIsFirst | zerobench-runtime/src/json_scan.rs:30-34 | the first occurrence of the quoted name |
| JsonScan.ShapeScans | zerobench-runtime/src/json_scan.rs:36-59 | behind the name: spaces, a colon, spaces and digits of value V give V exactly when V < 2^64, whatever follows |
| JsonScan.ScannedHasShape | zerobench-runtime/src/json_scan.rs:36-59 | nothing but the number of such a shape is returned |
| JsonScan.PrintedNumberScans | zerobench-runtime/src/json_scan.rs:29-60 | a printed u64 before a non-digit is read back |
| JsonScan.FloatReadsItsIntegerPart | zerobench-runtime/src/json_scan.rs:27-28 | digits followed by a point or an exponent are returned, and nothing exactly for a negative number and for digits beyond 64 bits, against the documentation |
| JsonScan.OneAndAHalf | zerobench-runtime/src/json_scan.rs:27-28 | the payload with 1.5 gives 1, the one with -1.5 gives nothing |

## Left out

- LivePipeline.EveryRunConserves: interleaves the accesses in one order that all threads see; relaxed orderings between different atomics are not modelled, and the statement is about totals, which need only the order of each atomic by itself.
- EndToEnd.SummaryEqualsTicks: counters as u64 totals, up to whole wraps; NoWrapIsExact says when they are exact. It does not attribute mixed-protocol dispatch to scenarios.
- LiveAggregator.LiveSnapshot.SwapAndSnapshot: does not model the elapsed time of a tick.
- Stats.TaskStats.Record: does not model the saturation of bucket counts in the histogram library.
- Dashboard.DashboardState.Ingest: does not model the other cached percentiles of a record, the log, tabs and elapsed time.
- Ecdf.AdSquared: exact arithmetic, and stops at the statistic; p-values by exponentials and logarithms are left out, as is the standardised statistic.
- Ecdf.KsStatistic: exact arithmetic; both sides non-empty, as its caller makes sure.
- AdVariance.SigmaSquared: exact arithmetic.
- Holm.HolmBonferroni: exact p-values, so no NaN to compare.
- Bootstrap.CompareBootstrap: needs at least one resample when there are enough runs, without which the code indexes an empty list; the generator is any sequence of draws, and the metric's value in each run is given.
- Template.Compile: the parser of an expression is a parameter; its table of names, its trimming and its environment and file lookups are left out, as is the size estimate.
- Template.Context.ExpandPart: clock readings (zero for a clock before the epoch) and random numbers are parameters that the printers turn into text; identifiers, random characters and lines are given as text; the process-wide counter is seen by one worker at a time.
- Timestamp.WriteIso: the clock reading is a parameter, at or after the epoch.
- WebSocket.EchoLoop: a failed read counts as the end of the stream; what a failing send leaves on the wire is not modelled.
- SelfCheck.Check: runs for as many turns as the environment gives; connecting, the socket helpers, the achieved rate and the verdict are left out.
- Durations.ParseDuration: reports a stop at an overflow as such; what happens to the process after it is not modelled.
- CanonicalJson.Canonicalise: stops at the value; printing it and its SHA-256 digest are left out, and numbers are compared by their text.
- Sockets, TLS, DNS, the archive, machine fingerprinting, command-line and script registration, terminal drawing, report rendering: input and output, or one-branch facts.
- The protocol backends: not part of this model; only the merging of their extra statistics is.
