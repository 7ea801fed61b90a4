/**
 The time to first byte, which only the persistent statistics keep: what every call adds to it, in every
 worker throughout every run and in the merged summary.
 */
module FirstBytes {
  import opened Metrics
  import opened Stats
  import opened Recording
  import opened LivePipeline
  import opened EndToEnd
  import opened MergeLaws

  /** A call's time to first byte, held between a nanosecond and a minute; a bare latency has none. */
  ghost function CallTtfb(bucket: nat -> nat, call: Call): Hist {
    match call
    case Record(_, _, ttfb, _, _) =>
      multiset{bucket(if ttfb < 1 then 1 else if ttfb > 60_000_000_000 then 60_000_000_000 else ttfb)}
    case RecordNs(_, _, _, _) => multiset{bucket(1)}
    case RecordError(_, _) => multiset{}
  }

  lemma CallMovesTtfb(bucket: nat -> nat, stats: Totals, call: Call)
    ensures StatsAfter(bucket, stats, call).ttfb == stats.ttfb + CallTtfb(bucket, call)
  {
    if call.RecordError? {
      NothingAdded(stats.ttfb, multiset{});
    }
  }

  /** The calls that worker w has begun, in order; a busy worker begins none. */
  ghost function CallsOf(setup: Setup, workers: nat, events: seq<Event>, w: nat): seq<Call>
    requires w < workers
    decreases |events|
  {
    if events == [] then []
    else
      var n := |events| - 1;
      var before := CallsOf(setup, workers, events[..n], w);
      var me := Run(setup, Init(setup, workers), events[..n]).workers[w];
      if events[n].Begin? && events[n].worker == w && me.pending == []
      then before + [events[n].call]
      else before
  }

  ghost function CallTtfbs(bucket: nat -> nat, calls: seq<Call>): Hist {
    if calls == [] then multiset{} else CallTtfbs(bucket, calls[..|calls| - 1]) + CallTtfb(bucket, calls[|calls| - 1])
  }

  // Throughout every run, a worker's histogram holds exactly the times of the calls it has begun.
  lemma {:induction false} RunKeepsTtfb(setup: Setup, workers: nat, events: seq<Event>, w: nat)
    requires w < workers && setup.keepsStats(w)
    ensures Run(setup, Init(setup, workers), events).workers[w].stats.ttfb
      == CallTtfbs(setup.bucket, CallsOf(setup, workers, events, w))
    decreases |events|
  {
    if events != [] {
      var n := |events| - 1;
      RunKeepsTtfb(setup, workers, events[..n], w);
      var s := Run(setup, Init(setup, workers), events[..n]);
      NextWorker(setup, s, events[n], w);
      TtfbAfter(setup, w, s.workers[w], events[n], CallsOf(setup, workers, events[..n], w));
    }
  }

  lemma {:induction false} TtfbAfter(setup: Setup, w: nat, me: Worker, e: Event, calls: seq<Call>)
    requires setup.keepsStats(w) && me.stats.ttfb == CallTtfbs(setup.bucket, calls)
    ensures WorkerAfter(setup, w, me, e).stats.ttfb == CallTtfbs(setup.bucket,
      if e.Begin? && e.worker == w && me.pending == [] then calls + [e.call] else calls)
  {
    if e.Begin? && e.worker == w && me.pending == [] {
      CallMovesTtfb(setup.bucket, me.stats, e.call);
      assert (calls + [e.call])[..|calls|] == calls;
    }
  }

  // And the summary, merged in any order, those of all workers.
  lemma {:induction false} SummaryKeepsTtfb(setup: Setup, workers: nat, events: seq<Event>, order: seq<Totals>)
    requires workers > 0 && forall w :: 0 <= w < workers ==> setup.keepsStats(w)
    requires multiset(order) == multiset(StatsOf(Run(setup, Init(setup, workers), events).workers))
    ensures Summarise(order).ttfb == SumHists(
      seq(workers, w requires 0 <= w < workers => CallTtfbs(setup.bucket, CallsOf(setup, workers, events, w))))
  {
    var stats := StatsOf(Run(setup, Init(setup, workers), events).workers);
    forall w | 0 <= w < workers
      ensures |stats[w].perScenario| == setup.scenarios
      ensures stats[w].ttfb == CallTtfbs(setup.bucket, CallsOf(setup, workers, events, w))
    {
      RunMatches(setup, workers, events, w, 0, Field.Requests);
      RunKeepsTtfb(setup, workers, events, w);
    }
    OrderDoesNotMatter(stats, order, setup.scenarios);
    SummaryAddsTtfb(stats);
    assert Ttfbs(stats)
      == seq(workers, w requires 0 <= w < workers => CallTtfbs(setup.bucket, CallsOf(setup, workers, events, w)));
  }
}
