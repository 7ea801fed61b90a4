/**
 The dashboard state: a bounded ring of ticks with a rolling p99.9 cached on each record,
 run-long totals, rate extremes, and the baseline of the delta indicator.

 The percentile of a histogram is a parameter. The ghost history holds every tick ever ingested;
 Valid() says what every stored figure has to be, recomputed from that history.
 */
module Dashboard {
  import opened MachineInts
  import opened Metrics
  import opened Outcome
  import opened LiveSlots
  import opened Stats

  const MAX_TICKS: nat := 300
  const ROLLING_WINDOW: nat := 5
  const DELTA_LOOKBACK: nat := 10

  /** What a tick keeps in the ring; the other cached percentiles are plain projections. */
  datatype TickRecord = TickRecord(requests: u64, errors: ErrorCounters, latency: Hist, rollingP999: u64)

  /** A tick as swap_and_snapshot hands it over: the aggregate and one entry per scenario. */
  datatype LiveTick = LiveTick(total: Drained, perScenario: seq<Drained>)

  /** Every tick ingested so far, the latest one outermost. */
  datatype History = Start | Then(before: History, tick: LiveTick)

  // --- recomputation from the full history ---

  ghost function Count(h: History): nat {
    if h.Start? then 0 else Count(h.before) + 1
  }

  /** The history as it was after its first n ticks. */
  ghost function Prefix(h: History, n: nat): History
    requires n <= Count(h)
  {
    if n == Count(h) then h else Prefix(h.before, n)
  }

  /** The latencies of all ticks, oldest first. */
  ghost function Latencies(h: History): (r: seq<Hist>)
    ensures |r| == Count(h)
  {
    if h.Start? then [] else Latencies(h.before) + [h.tick.total.latency]
  }

  /** The last n elements, or all of them. */
  ghost function Last<T>(xs: seq<T>, n: nat): seq<T> {
    if |xs| <= n then xs else xs[|xs| - n..]
  }

  /** The merged latencies of the (up to) n latest ticks. */
  ghost function Window(h: History, n: nat): Hist {
    SumHists(Last(Latencies(h), n))
  }

  /** The p99.9 over the (up to) five latest ticks; zero without samples. */
  ghost function Rolling(p999: Hist -> u64, h: History): u64 {
    var window := Window(h, ROLLING_WINDOW);
    if |window| == 0 then 0 else p999(window)
  }

  ghost function LatestRecord(p999: Hist -> u64, h: History): TickRecord
    requires h.Then?
  {
    TickRecord(h.tick.total.counts.requests, h.tick.total.counts.errors, h.tick.total.latency, Rolling(p999, h))
  }

  /** The records of all ticks, oldest first, each with the rolling p99.9 of its own moment. */
  ghost function Records(p999: Hist -> u64, h: History): (r: seq<TickRecord>)
    ensures |r| == Count(h)
  {
    if h.Start? then [] else Records(p999, h.before) + [LatestRecord(p999, h)]
  }

  /** u64 totals over the whole history. */
  ghost function TotalCounts(h: History): Counters {
    if h.Start? then NO_COUNTS else TotalCounts(h.before).Merge(h.tick.total.counts)
  }

  /** Per-scenario totals for n named scenarios; a tick counts for the scenarios it has. */
  function AddRequests(sums: seq<u64>, tick: LiveTick): (r: seq<u64>)
    ensures |r| == |sums|
  {
    seq(|sums|, i requires 0 <= i < |sums| =>
      if i < |tick.perScenario| then Add64(sums[i], tick.perScenario[i].counts.requests) else sums[i])
  }

  function AddErrors(sums: seq<ErrorCounters>, tick: LiveTick): (r: seq<ErrorCounters>)
    ensures |r| == |sums|
  {
    seq(|sums|, i requires 0 <= i < |sums| =>
      if i < |tick.perScenario| then sums[i].Merge(tick.perScenario[i].counts.errors) else sums[i])
  }

  ghost function ScenarioRequests(h: History, n: nat): (r: seq<u64>)
    ensures |r| == n
  {
    if h.Start? then seq(n, _ => 0) else AddRequests(ScenarioRequests(h.before, n), h.tick)
  }

  ghost function ScenarioErrors(h: History, n: nat): (r: seq<ErrorCounters>)
    ensures |r| == n
  {
    if h.Start? then seq(n, _ => NO_ERRORS) else AddErrors(ScenarioErrors(h.before, n), h.tick)
  }

  function Rps(tick: LiveTick): nat {
    tick.total.counts.requests
  }

  ghost function Rates(h: History): (r: seq<nat>)
    ensures |r| == Count(h)
  {
    if h.Start? then [] else Rates(h.before) + [Rps(h.tick)]
  }

  ghost function Peak(h: History): nat {
    if h.Start? then 0
    else if Rps(h.tick) > Peak(h.before) then Rps(h.tick) else Peak(h.before)
  }

  ghost function Trough(h: History): Option<nat> {
    if h.Start? then None
    else if Rps(h.tick) == 0 then Trough(h.before)
    else if Trough(h.before).Some? && Trough(h.before).value < Rps(h.tick) then Trough(h.before)
    else Some(Rps(h.tick))
  }

  /** The delta baseline: the rolling p99.9 of history index n - 10, once there is one. */
  ghost function Baseline(p999: Hist -> u64, h: History): Option<u64> {
    if Count(h) < DELTA_LOOKBACK then None else Some(Rolling(p999, Prefix(h, Count(h) - DELTA_LOOKBACK + 1)))
  }

  // --- what the histories hold, tick by tick ---

  ghost function TickAt(h: History, i: nat): LiveTick
    requires i < Count(h)
  {
    if i + 1 == Count(h) then h.tick else TickAt(h.before, i)
  }

  // Record and rate i are those of tick i.
  lemma {:induction false} TickShows(p999: Hist -> u64, h: History, i: nat)
    requires i < Count(h)
    ensures var t, r := TickAt(h, i).total, Records(p999, h)[i];
      r.requests == t.counts.requests && r.errors == t.counts.errors && r.latency == t.latency
    ensures Latencies(h)[i] == TickAt(h, i).total.latency && Rates(h)[i] == TickAt(h, i).total.counts.requests
  {
    if i + 1 < Count(h) {
      TickShows(p999, h.before, i);
    }
  }

  ghost function SumOver(h: History, reading: LiveTick -> nat): nat {
    if h.Start? then 0 else SumOver(h.before, reading) + reading(h.tick)
  }

  ghost function CountsOf(f: Field): LiveTick -> nat {
    (t: LiveTick) => t.total.counts.Get(f)
  }

  // A run-long total is the sum over all ticks, evicted ones included, modulo 2^64.
  lemma {:induction false} TotalsAreSums(h: History, f: Field)
    ensures TotalCounts(h).Get(f) == SumOver(h, CountsOf(f)) % 0x1_0000_0000_0000_0000
  {
    if h.Start? {
      NothingCounted(f);
    } else {
      TotalsAreSums(h.before, f);
      MergeToSum(TotalCounts(h.before), h.tick.total.counts, f, SumOver(h.before, CountsOf(f)));
    }
  }

  lemma NothingCounted(f: Field)
    ensures NO_COUNTS.Get(f) == 0
  {}

  lemma MergeToSum(total: Counters, c: Counters, f: Field, sum: nat)
    requires total.Get(f) == sum % 0x1_0000_0000_0000_0000
    ensures total.Merge(c).Get(f) == (sum + c.Get(f)) % 0x1_0000_0000_0000_0000
  {
    AddToSum(sum, total.Get(f), c.Get(f));
  }

  lemma AddToSum(sum: nat, total: u64, n: u64)
    requires total == sum % 0x1_0000_0000_0000_0000
    ensures Add64(total, n) == (sum + n) % 0x1_0000_0000_0000_0000
  {}

  // So is a scenario's, over the ticks that report the scenario.
  ghost function RequestsOf(i: nat): LiveTick -> nat {
    (t: LiveTick) => if i < |t.perScenario| then t.perScenario[i].counts.requests else 0
  }

  ghost function ErrorsOf(i: nat, kind: ErrorKind): LiveTick -> nat {
    (t: LiveTick) => if i < |t.perScenario| then t.perScenario[i].counts.errors.Get(kind) else 0
  }

  lemma {:induction false} ScenarioRequestsAreSums(h: History, n: nat, i: nat)
    requires i < n
    ensures ScenarioRequests(h, n)[i] == SumOver(h, RequestsOf(i)) % 0x1_0000_0000_0000_0000
  {
    if h.Then? {
      ScenarioRequestsAreSums(h.before, n, i);
      AddToSum(SumOver(h.before, RequestsOf(i)), ScenarioRequests(h.before, n)[i], RequestsOf(i)(h.tick));
    }
  }

  lemma {:induction false} ScenarioErrorsAreSums(h: History, n: nat, i: nat, kind: ErrorKind)
    requires i < n
    ensures ScenarioErrors(h, n)[i].Get(kind) == SumOver(h, ErrorsOf(i, kind)) % 0x1_0000_0000_0000_0000
  {
    if h.Then? {
      ScenarioErrorsAreSums(h.before, n, i, kind);
      AddToSum(SumOver(h.before, ErrorsOf(i, kind)), ScenarioErrors(h.before, n)[i].Get(kind),
               ErrorsOf(i, kind)(h.tick));
      ErrorsAdded(ScenarioErrors(h.before, n), h.tick, i, kind);
    }
  }

  lemma ErrorsAdded(sums: seq<ErrorCounters>, tick: LiveTick, i: nat, kind: ErrorKind)
    requires i < |sums|
    ensures AddErrors(sums, tick)[i].Get(kind) == Add64(sums[i].Get(kind), ErrorsOf(i, kind)(tick))
  {}

  // The windows in numbers: five ticks for the percentile, 300 in the ring.
  lemma WindowsInTicks(p999: Hist -> u64, h: History)
    ensures Window(h, ROLLING_WINDOW) == SumHists(Latencies(h)[if Count(h) < 5 then 0 else Count(h) - 5..])
    ensures |Last(Records(p999, h), MAX_TICKS)| == if Count(h) < 300 then Count(h) else 300
  {
    assert Latencies(h)[0..] == Latencies(h);
  }

  // Record i is recomputed from the history up to and including tick i, whatever came later.
  lemma {:induction false} RecordAt(p999: Hist -> u64, h: History, i: nat)
    requires i < Count(h)
    ensures Prefix(h, i + 1).Then? && Records(p999, h)[i] == LatestRecord(p999, Prefix(h, i + 1))
  {
    if i + 1 < Count(h) {
      RecordAt(p999, h.before, i);
    }
  }

  // The peak is the largest rate seen.
  lemma {:induction false} PeakIsMaximum(h: History)
    ensures forall i :: 0 <= i < Count(h) ==> Rates(h)[i] <= Peak(h)
    ensures Peak(h) == 0 || exists i :: 0 <= i < Count(h) && Rates(h)[i] == Peak(h)
  {
    if h.Then? {
      PeakIsMaximum(h.before);
      var n := Count(h) - 1;
      assert Rates(h)[n] == Rps(h.tick);
      if Rps(h.tick) <= Peak(h.before) && Peak(h) != 0 {
        var i :| 0 <= i < n && Rates(h.before)[i] == Peak(h);
        assert Rates(h)[i] == Peak(h);
      }
    }
  }

  // The minimum ignores idle ticks: it is the smallest non-zero rate, and absent while all are idle.
  lemma {:induction false} TroughIsLeastBusy(h: History)
    ensures Trough(h).None? ==> forall i :: 0 <= i < Count(h) ==> Rates(h)[i] == 0
    ensures Trough(h).Some? ==>
      && Trough(h).value > 0
      && (forall i :: 0 <= i < Count(h) && Rates(h)[i] > 0 ==> Trough(h).value <= Rates(h)[i])
      && exists i :: 0 <= i < Count(h) && Rates(h)[i] == Trough(h).value
  {
    if h.Then? {
      TroughIsLeastBusy(h.before);
      var n := Count(h) - 1;
      assert forall i :: 0 <= i < n ==> Rates(h)[i] == Rates(h.before)[i];
      if Trough(h).Some? && Rates(h)[n] != Trough(h).value {
        var i :| 0 <= i < n && Rates(h.before)[i] == Trough(h).value;
        assert Rates(h)[i] == Trough(h).value;
      }
    }
  }

  // --- what "10s ago" means for the baseline ---

  /** The rolling p99.9 as it was ten ticks before the newest one, once there is such a tick. */
  ghost function TenTicksBack(p999: Hist -> u64, h: History): Option<u64> {
    if Count(h) <= DELTA_LOOKBACK then None else Some(Rolling(p999, Prefix(h, Count(h) - DELTA_LOOKBACK)))
  }

  lemma {:induction false} PrefixLatencies(h: History, n: nat)
    requires n <= Count(h)
    ensures Count(Prefix(h, n)) == n && Latencies(Prefix(h, n)) == Latencies(h)[..n]
  {
    if n == Count(h) {
      assert Latencies(h)[..n] == Latencies(h);
    } else {
      PrefixLatencies(h.before, n);
      assert Latencies(h)[..n] == Latencies(h.before)[..n];
    }
  }

  // Moving a window of n by one tick adds the tick that enters and drops the one that leaves.
  lemma WindowMoves(xs: seq<Hist>, k: nat, n: nat)
    requires k < |xs| && n > 0
    ensures SumHists(Last(xs[..k + 1], n)) + (if k >= n then xs[k - n] else multiset{})
      == SumHists(Last(xs[..k], n)) + xs[k]
  {
    var was, moved := Last(xs[..k], n), Last(xs[..k + 1], n);
    if k >= n {
      assert [xs[k - n]] + moved == was + [xs[k]];
      SumHistsCons(xs[k - n], moved);
    } else {
      assert moved == was + [xs[k]];
    }
    assert (was + [xs[k]])[..|was|] == was;
  }

  lemma {:induction false} SumHistsCons(x: Hist, xs: seq<Hist>)
    ensures SumHists([x] + xs) == x + SumHists(xs)
  {
    if xs == [] {
      assert [x] + xs == [x];
      assert [x][..0] == [];
    } else {
      var n := |xs| - 1;
      assert ([x] + xs)[..n + 1] == [x] + xs[..n];
      SumHistsCons(x, xs[..n]);
    }
  }

  lemma CancelSame(a: Hist, b: Hist, x: Hist, y: Hist)
    requires a + x == b + y
    ensures a == b <==> x == y
  {
    assert (a + x) - a == x && (b + y) - b == y;
    assert (a + x) - x == a && (b + y) - y == b;
  }

  // A function that tells two histograms apart.
  lemma FunctionTells(a: Hist, b: Hist)
    requires a != b
    ensures exists p: Hist -> u64 :: (if |a| == 0 then 0 else p(a)) != (if |b| == 0 then 0 else p(b))
  {
    var p: Hist -> u64 := h => if h == a then 1 else 2;
    assert (if |a| == 0 then 0 else p(a)) != (if |b| == 0 then 0 else p(b));
  }

  // The baseline is the value of ten ticks back, for an arbitrary function of the histogram in the place of
  // the percentile.
  ghost predicate BaselineIsTenBack(h: History) {
    forall p: Hist -> u64 :: Baseline(p, h) == TenTicksBack(p, h)
  }

  // No baseline yet, or the tick that has entered the window since equals the one that has left.
  ghost predicate LagIsHidden(h: History) {
    Count(h) < DELTA_LOOKBACK || (Count(h) > DELTA_LOOKBACK && WindowStays(h, Count(h) - DELTA_LOOKBACK))
  }

  lemma {:induction false} FirstBaseline(h: History, p999: Hist -> u64)
    requires Count(h) == DELTA_LOOKBACK
    ensures Baseline(p999, h) != TenTicksBack(p999, h)
  {}

  lemma {:induction false} LaterBaselineIff(h: History, k: nat)
    requires Count(h) == k + DELTA_LOOKBACK && k > 0
    ensures BaselineIsTenBack(h) <==> LagIsHidden(h)
  {
    WindowStaysIff(h, k);
    if WindowStays(h, k) {
      forall p: Hist -> u64
        ensures Baseline(p, h) == TenTicksBack(p, h)
      {
        BaselineAgrees(p, h, k);
      }
    } else {
      var p: Hist -> u64 :| Rolling(p, Prefix(h, k + 1)) != Rolling(p, Prefix(h, k));
      BaselineAgrees(p, h, k);
    }
  }

  lemma BaselineAgrees(p999: Hist -> u64, h: History, k: nat)
    requires Count(h) == k + DELTA_LOOKBACK && k > 0
    ensures Baseline(p999, h) == TenTicksBack(p999, h)
      <==> Rolling(p999, Prefix(h, k + 1)) == Rolling(p999, Prefix(h, k))
  {}

  // Tick k enters the window as an equal one leaves it, or empty while none leaves.
  ghost predicate WindowStays(h: History, k: nat)
    requires k < Count(h)
  {
    var xs := Latencies(h);
    xs[k] == if k >= ROLLING_WINDOW then xs[k - ROLLING_WINDOW] else multiset{}
  }

  lemma {:induction false} WindowStaysIff(h: History, k: nat)
    requires k < Count(h)
    ensures (forall p: Hist -> u64 :: Rolling(p, Prefix(h, k + 1)) == Rolling(p, Prefix(h, k))) <==> WindowStays(h, k)
  {
    var xs := Latencies(h);
    PrefixLatencies(h, k);
    PrefixLatencies(h, k + 1);
    var now, before := Window(Prefix(h, k + 1), ROLLING_WINDOW), Window(Prefix(h, k), ROLLING_WINDOW);
    WindowMoves(xs, k, ROLLING_WINDOW);
    CancelSame(now, before, if k >= ROLLING_WINDOW then xs[k - ROLLING_WINDOW] else multiset{}, xs[k]);
    if now != before {
      FunctionTells(now, before);
      var p: Hist -> u64 :| (if |now| == 0 then 0 else p(now)) != (if |before| == 0 then 0 else p(before));
      assert Rolling(p, Prefix(h, k + 1)) != Rolling(p, Prefix(h, k));
    }
  }

  lemma {:induction false} EarlyBaselineIff(h: History)
    requires Count(h) <= DELTA_LOOKBACK
    ensures BaselineIsTenBack(h) <==> LagIsHidden(h)
  {
    if Count(h) == DELTA_LOOKBACK {
      FirstBaseline(h, _ => 0);
    }
  }

  // The baseline is nine ticks old, not ten, and that shows except when the lag is hidden; with ten ticks
  // there is a baseline already, but no tick ten back.
  lemma {:induction false} BaselineIsTenBackIff(h: History)
    ensures BaselineIsTenBack(h) <==> LagIsHidden(h)
  {
    if Count(h) > DELTA_LOOKBACK {
      LaterBaselineIff(h, Count(h) - DELTA_LOOKBACK);
    } else {
      EarlyBaselineIff(h);
    }
  }

  function IdleTick(): LiveTick {
    LiveTick(NOTHING_DRAINED, [])
  }

  function IdleTicks(h: History, n: nat): History {
    if n == 0 then h else Then(IdleTicks(h, n - 1), IdleTick())
  }

  lemma {:induction false} IdleTicksExtend(h: History, n: nat, k: nat)
    requires k <= Count(h)
    ensures Count(IdleTicks(h, n)) == Count(h) + n && Prefix(IdleTicks(h, n), k) == Prefix(h, k)
  {
    if n > 0 {
      IdleTicksExtend(h, n - 1, k);
    }
  }

  // Eleven ticks of which only the second has a sample: the value of ten ticks back is that of the
  // first tick alone, zero, but the baseline is that of the sample.
  lemma {:induction false} BaselineIsNineBack(p999: Hist -> u64, busy: LiveTick)
    requires |busy.total.latency| > 0 && p999(busy.total.latency) != 0
    ensures var h := IdleTicks(Then(IdleTicks(Start, 1), busy), 9);
      Count(h) == 11 && TenTicksBack(p999, h) == Some(0) && Baseline(p999, h) == Some(p999(busy.total.latency))
  {
    var first := IdleTicks(Start, 1);
    var second := Then(first, busy);
    IdleTicksExtend(Start, 1, 0);
    IdleTicksExtend(second, 9, 1);
    IdleTicksExtend(second, 9, 2);
    assert IdleTicks(Start, 0) == Start && Latencies(Start) == [];
    assert Latencies(first) == [] + [multiset{}];
    assert Latencies(second) == Latencies(first) + [busy.total.latency];
    SumOfTwo(multiset{}, busy.total.latency);
    assert multiset{} + busy.total.latency == busy.total.latency;
    assert Latencies(second) == [multiset{}, busy.total.latency];
  }

  lemma SumOfTwo(a: Hist, b: Hist)
    ensures SumHists([a]) == a && SumHists([a, b]) == a + b
  {
    assert [a][..0] == [] && [a, b][..1] == [a];
  }

  class DashboardState {
    var ticks: seq<TickRecord>
    var totalRequests: u64
    var totalErrors: ErrorCounters
    var bytesSent: u64
    var bytesRecv: u64
    var peakRps: nat
    var minRps: Option<nat>
    var prevP999: Option<u64>
    var scenarioRequests: seq<u64>
    var scenarioErrors: seq<ErrorCounters>
    const p999: Hist -> u64
    const scenarios: nat

    ghost var history: History
    ghost var sinceReset: History  // the ticks since the extremes were last reset

    // The ring is the last min(n, 300) records, each with its rolling percentile of the full history.
    ghost predicate RingFor(h: History)
      reads this`ticks
    {
      ticks == Last(Records(p999, h), MAX_TICKS)
    }

    // The totals cover the whole history, including evicted ticks.
    ghost predicate TotalsFor(h: History)
      reads this`totalRequests, this`bytesSent, this`bytesRecv, this`totalErrors
      reads this`scenarioRequests, this`scenarioErrors
    {
      && Counters(totalRequests, bytesSent, bytesRecv, totalErrors) == TotalCounts(h)
      && scenarioRequests == ScenarioRequests(h, scenarios)
      && scenarioErrors == ScenarioErrors(h, scenarios)
    }

    // The extremes cover the ticks since the last reset.
    ghost predicate ExtremesFor(since: History)
      reads this`peakRps, this`minRps
    {
      peakRps == Peak(since) && minRps == Trough(since)
    }

    ghost predicate Valid()
      reads this
    {
      RingFor(history) && TotalsFor(history) && ExtremesFor(sinceReset) && prevP999 == Baseline(p999, history)
    }

    constructor (p999: Hist -> u64, scenarios: nat)
      ensures Valid() && history == sinceReset == Start && this.p999 == p999 && this.scenarios == scenarios
    {
      this.p999, this.scenarios := p999, scenarios;
      ticks, totalRequests, totalErrors, bytesSent, bytesRecv := [], 0, NO_ERRORS, 0, 0;
      peakRps, minRps, prevP999 := 0, None, None;
      scenarioRequests := seq(scenarios, _ => 0);
      scenarioErrors := seq(scenarios, _ => NO_ERRORS);
      history, sinceReset := Start, Start;
    }

    /** Fold one tick into the state. */
    method Ingest(tick: LiveTick)
      requires Valid()
      modifies this
      ensures Valid() && history == Then(old(history), tick) && sinceReset == Then(old(sinceReset), tick)
    {
      AddTotals(tick);
      TrackExtremes(tick);
      PushTick(tick);
      history := Then(history, tick);
      sinceReset := Then(sinceReset, tick);
    }

    /** Push a tick and look up the new baseline. */
    method PushTick(tick: LiveTick)
      requires RingFor(history) && prevP999 == Baseline(p999, history)
      modifies this`ticks, this`prevP999
      ensures RingFor(Then(history, tick)) && prevP999 == Baseline(p999, Then(history, tick))
    {
      ExtendRing(tick);
      RefreshBaseline(Then(history, tick));
    }

    method AddTotals(tick: LiveTick)
      requires TotalsFor(history)
      modifies this`totalRequests, this`totalErrors, this`bytesSent, this`bytesRecv
      modifies this`scenarioRequests, this`scenarioErrors
      ensures TotalsFor(Then(history, tick))
    {
      AddCounts(tick.total.counts);
      AddScenarios(tick);
    }

    method AddCounts(c: Counters)
      modifies this`totalRequests, this`totalErrors, this`bytesSent, this`bytesRecv
      ensures Counters(totalRequests, bytesSent, bytesRecv, totalErrors)
           == old(Counters(totalRequests, bytesSent, bytesRecv, totalErrors)).Merge(c)
    {
      totalRequests := Add64(totalRequests, c.requests);
      totalErrors := totalErrors.Merge(c.errors);
      bytesSent := Add64(bytesSent, c.bytesSent);
      bytesRecv := Add64(bytesRecv, c.bytesRecv);
    }

    method TrackExtremes(tick: LiveTick)
      requires ExtremesFor(sinceReset)
      modifies this`peakRps, this`minRps
      ensures ExtremesFor(Then(sinceReset, tick))
    {
      var rps := Rps(tick);
      if rps > peakRps {
        peakRps := rps;
      }
      if rps > 0 {
        match minRps {
          case Some(prev) => minRps := Some(if prev < rps then prev else rps);
          case None => minRps := Some(rps);
        }
      }
    }

    method AddScenarios(tick: LiveTick)
      requires |scenarioErrors| == |scenarioRequests|
      modifies this`scenarioRequests, this`scenarioErrors
      ensures scenarioRequests == AddRequests(old(scenarioRequests), tick)
      ensures scenarioErrors == AddErrors(old(scenarioErrors), tick)
    {
      for i := 0 to |tick.perScenario|
        invariant |scenarioErrors| == |scenarioRequests| == |old(scenarioRequests)|
        invariant forall j :: 0 <= j < |scenarioRequests| ==>
          scenarioRequests[j] == if j < i then AddRequests(old(scenarioRequests), tick)[j] else old(scenarioRequests)[j]
        invariant forall j :: 0 <= j < |scenarioErrors| ==>
          scenarioErrors[j] == if j < i then AddErrors(old(scenarioErrors), tick)[j] else old(scenarioErrors)[j]
      {
        if i < |scenarioRequests| {
          scenarioRequests := scenarioRequests[i := Add64(scenarioRequests[i], tick.perScenario[i].counts.requests)];
          scenarioErrors := scenarioErrors[i := scenarioErrors[i].Merge(tick.perScenario[i].counts.errors)];
        }
      }
    }

    /** Append a tick to the ring, evict the oldest ones, and cache the rolling percentile on it. */
    method ExtendRing(tick: LiveTick)
      requires RingFor(history)
      modifies this`ticks
      ensures RingFor(Then(history, tick))
    {
      var t := tick.total;
      var rec := TickRecord(t.counts.requests, t.counts.errors, t.latency, 0);
      Append(rec);
      PushedRing(p999, old(ticks), Then(history, tick), rec);
      var rolling := ComputeRolling();
      ticks := ticks[|ticks| - 1 := ticks[|ticks| - 1].(rollingP999 := rolling)];
    }

    method Append(rec: TickRecord)
      modifies this`ticks
      ensures ticks == Last(old(ticks) + [rec], MAX_TICKS)
    {
      ticks := ticks + [rec];
      ghost var pushed := ticks;
      while |ticks| > MAX_TICKS
        invariant |ticks| <= |pushed| && ticks == Last(pushed, |ticks|)
        invariant |ticks| >= MAX_TICKS || ticks == pushed
      {
        ticks := ticks[1..];
      }
    }

    /** The percentile of the merged last five ticks of the ring. */
    method ComputeRolling() returns (v: u64)
      ensures var window := SumHists(Last(LatenciesOf(ticks), ROLLING_WINDOW));
        v == if |window| == 0 then 0 else p999(window)
    {
      if |ticks| == 0 {
        return 0;
      }
      var hist := MergeWindow();
      v := if |hist| == 0 then 0 else p999(hist);
    }

    method MergeWindow() returns (hist: Hist)
      ensures hist == SumHists(Last(LatenciesOf(ticks), ROLLING_WINDOW))
    {
      hist := multiset{};
      var start := if |ticks| < ROLLING_WINDOW then 0 else |ticks| - ROLLING_WINDOW;
      ghost var window := Last(LatenciesOf(ticks), ROLLING_WINDOW);
      WindowOf(ticks, start, window);
      for i := start to |ticks|
        invariant hist == SumHists(window[..i - start])
      {
        SumHistsNext(window, i - start);
        hist := hist + ticks[i].latency;
      }
      assert window[..|window|] == window;
    }

    method RefreshBaseline(ghost h: History)
      requires RingFor(h)
      requires Count(h) < DELTA_LOOKBACK ==> prevP999 == None
      modifies this`prevP999
      ensures prevP999 == Baseline(p999, h)
    {
      BaselineInRing(p999, ticks, h);
      if |ticks| >= DELTA_LOOKBACK {
        prevP999 := Some(ticks[|ticks| - DELTA_LOOKBACK].rollingP999);
      }
    }

    /** Re-arm the extremes. */
    method ResetPeaks()
      requires Valid()
      modifies this`peakRps, this`minRps, this`sinceReset
      ensures Valid() && sinceReset == Start
    {
      peakRps := 0;
      minRps := None;
      sinceReset := Start;
    }

    /** The cached value is what merging the window again would give. */
    method RollingP999() returns (v: u64)
      requires Valid()
      ensures v == Rolling(p999, history)
    {
      v := if |ticks| == 0 then 0 else ticks[|ticks| - 1].rollingP999;
    }

    /** None before any sample; otherwise the merged histogram of the up to five latest ticks. */
    method RollingLatency() returns (r: Option<Hist>)
      requires Valid()
      ensures r == if |Window(history, ROLLING_WINDOW)| == 0 then None else Some(Window(history, ROLLING_WINDOW))
    {
      WindowInRing(p999, history, ticks, ROLLING_WINDOW);
      if |ticks| == 0 {
        return None;
      }
      var hist := MergeWindow();
      r := if |hist| == 0 then None else Some(hist);
    }
  }

  function LatencyOf(rec: TickRecord): Hist {
    rec.latency
  }

  ghost function Map<T, U>(f: T -> U, xs: seq<T>): (r: seq<U>)
    ensures |r| == |xs| && forall i :: 0 <= i < |r| ==> r[i] == f(xs[i])
  {
    seq(|xs|, i requires 0 <= i < |xs| => f(xs[i]))
  }

  ghost function LatenciesOf(ticks: seq<TickRecord>): seq<Hist> {
    Map(LatencyOf, ticks)
  }

  lemma WindowOf(ticks: seq<TickRecord>, start: nat, window: seq<Hist>)
    requires start == if |ticks| < ROLLING_WINDOW then 0 else |ticks| - ROLLING_WINDOW
    requires window == Last(LatenciesOf(ticks), ROLLING_WINDOW)
    ensures |window| == |ticks| - start && forall i :: start <= i < |ticks| ==> window[i - start] == ticks[i].latency
  {}

  lemma MapLast<T, U>(f: T -> U, xs: seq<T>, n: nat)
    ensures Map(f, Last(xs, n)) == Last(Map(f, xs), n)
  {}

  lemma MapSnoc<T, U>(f: T -> U, xs: seq<T>, x: T)
    ensures Map(f, xs + [x]) == Map(f, xs) + [f(x)]
  {}

  lemma MapUpdate<T, U>(f: T -> U, xs: seq<T>, i: nat, x: T)
    requires i < |xs| && f(x) == f(xs[i])
    ensures Map(f, xs[i := x]) == Map(f, xs)
  {}

  lemma LastOfLast<T>(xs: seq<T>, n: nat, m: nat)
    requires n <= m
    ensures Last(Last(xs, m), n) == Last(xs, n)
  {}

  lemma {:induction false} LatenciesOfRecords(p999: Hist -> u64, h: History)
    ensures LatenciesOf(Records(p999, h)) == Latencies(h)
  {
    if h.Then? {
      LatenciesOfRecords(p999, h.before);
      MapSnoc(LatencyOf, Records(p999, h.before), LatestRecord(p999, h));
    }
  }

  // The ring still shows the latest latencies.
  lemma {:induction false} WindowInRing(p999: Hist -> u64, h: History, ticks: seq<TickRecord>, n: nat)
    requires ticks == Last(Records(p999, h), MAX_TICKS) && n <= MAX_TICKS
    ensures Last(LatenciesOf(ticks), n) == Last(Latencies(h), n)
  {
    MapLast(LatencyOf, Records(p999, h), MAX_TICKS);
    LatenciesOfRecords(p999, h);
    LastOfLast(Latencies(h), n, MAX_TICKS);
  }

  // After a push and the evictions, the ring still shows the window, and only the newest record's
  // percentile differs from what it has to be.
  lemma {:induction false} PushedRing(p999: Hist -> u64, ticks: seq<TickRecord>, h: History, rec: TickRecord)
    requires h.Then? && ticks == Last(Records(p999, h.before), MAX_TICKS)
    requires rec == LatestRecord(p999, h).(rollingP999 := 0)
    ensures var ring := Last(ticks + [rec], MAX_TICKS);
      && Last(LatenciesOf(ring), ROLLING_WINDOW) == Last(Latencies(h), ROLLING_WINDOW) && |ring| > 0
      && Last(Records(p999, h), MAX_TICKS) == ring[|ring| - 1 := LatestRecord(p999, h)]
  {
    var latest := LatestRecord(p999, h);
    RingStep(Records(p999, h.before), ticks, rec, latest, MAX_TICKS);
    var ring := Last(ticks + [rec], MAX_TICKS);
    WindowInRing(p999, h, ring[|ring| - 1 := latest], ROLLING_WINDOW);
    MapUpdate(LatencyOf, ring, |ring| - 1, latest);
  }

  lemma RingStep<T>(all: seq<T>, ticks: seq<T>, rec: T, latest: T, n: nat)
    requires n > 0 && ticks == Last(all, n)
    ensures var ring := Last(ticks + [rec], n);
      && |ring| > 0 && Last(all + [latest], n) == ring[|ring| - 1 := latest]
  {}

  // The tenth record from the end of the ring is the one at history index n - 10.
  lemma {:induction false} BaselineInRing(p999: Hist -> u64, ticks: seq<TickRecord>, h: History)
    requires ticks == Last(Records(p999, h), MAX_TICKS)
    ensures Baseline(p999, h) == RingBaseline(ticks)
  {
    if Count(h) >= DELTA_LOOKBACK {
      LastAt(Records(p999, h), MAX_TICKS, DELTA_LOOKBACK);
      RecordAt(p999, h, Count(h) - DELTA_LOOKBACK);
    }
  }

  function RingBaseline(ticks: seq<TickRecord>): Option<u64> {
    if |ticks| < DELTA_LOOKBACK then None else Some(ticks[|ticks| - DELTA_LOOKBACK].rollingP999)
  }

  lemma LastAt<T>(xs: seq<T>, n: nat, k: nat)
    requires 0 < k <= n && k <= |xs|
    ensures |Last(xs, n)| >= k && Last(xs, n)[|Last(xs, n)| - k] == xs[|xs| - k]
  {}
}
