/**
 What the pipeline guarantees from end to end: how far the request counter can run ahead of the
 latency samples, and that the merged persistent statistics agree with the emitted ticks.
 */
module EndToEnd {
  import opened MachineInts
  import opened Metrics
  import opened LiveSlots
  import opened Stats
  import opened Recording
  import opened LivePipeline

  // --- lists of accesses ---

  lemma {:induction false} CountConcat(a: seq<Op>, b: seq<Op>, g: nat, f: Field)
    ensures CountOf(a + b, g, f) == CountOf(a, g, f) + CountOf(b, g, f)
    ensures HistOf(a + b, g) == HistOf(a, g) + HistOf(b, g)
    decreases |b|
  {
    if b == [] {
      assert a + b == a;
    } else {
      var n := |b| - 1;
      assert a + b == (a + b[..n]) + [b[n]];
      CountPush(a + b[..n], b[n], g, f);
      CountConcat(a, b[..n], g, f);
      HistsAssociate(HistOf(a, g), HistOf(b[..n], g), Samples(b[n], g));
    }
  }

  lemma HistsAssociate(a: Hist, b: Hist, c: Hist)
    ensures (a + b) + c == a + (b + c)
  {}

  /** What one recorded sample contributes to a counter of its group. */
  ghost function Share(f: Field, sent: u64, recv: u64): u64 {
    match f
    case Requests => 1
    case BytesSent => sent
    case BytesRecv => recv
    case Errors(_) => 0
  }

  lemma {:induction false} RecordContributes(groups: nat, h: nat, ns: u64, sent: u64, recv: u64, shard: nat,
      bucket: nat -> nat, g: nat, f: Field)
    requires shard < LATENCY_SHARDS && g < groups
    ensures CountOf(RecordOps(groups, h, ns, sent, recv, shard, bucket), g, f)
      == if g == h then Share(f, sent, recv) else 0
    ensures HistOf(RecordOps(groups, h, ns, sent, recv, shard, bucket), g)
      == if g == h then multiset{bucket(ClampNs(ns))} else multiset{}
  {
    if h < groups {
      var ops := RecordOps(groups, h, ns, sent, recv, shard, bucket);
      FourCounts(ops[0], ops[1], ops[2], ops[3], g, f);
      FourHists(ops[0], ops[1], ops[2], ops[3], g);
    }
  }

  lemma {:induction false} FourCounts(a: Op, b: Op, c: Op, d: Op, g: nat, f: Field)
    ensures CountOf([a, b, c, d], g, f) == Amount(a, g, f) + Amount(b, g, f) + Amount(c, g, f) + Amount(d, g, f)
  {
    CountPush([], a, g, f);
    CountPush([] + [a], b, g, f);
    CountPush([] + [a] + [b], c, g, f);
    CountPush([] + [a] + [b] + [c], d, g, f);
    assert [a, b, c, d] == [] + [a] + [b] + [c] + [d];
  }

  lemma {:induction false} FourHists(a: Op, b: Op, c: Op, d: Op, g: nat)
    requires a.FetchAdd? && b.FetchAdd? && c.FetchAdd?
    ensures HistOf([a, b, c, d], g) == Samples(d, g)
  {
    CountPush([], a, g, Requests);
    CountPush([] + [a], b, g, Requests);
    CountPush([] + [a] + [b], c, g, Requests);
    CountPush([] + [a] + [b] + [c], d, g, Requests);
    assert [a, b, c, d] == [] + [a] + [b] + [c] + [d];
  }

  lemma {:induction false} CountPush(ops: seq<Op>, op: Op, g: nat, f: Field)
    ensures CountOf(ops + [op], g, f) == CountOf(ops, g, f) + Amount(op, g, f)
    ensures HistOf(ops + [op], g) == HistOf(ops, g) + Samples(op, g)
  {
    assert (ops + [op])[..|ops|] == ops;
  }

  lemma {:induction false} ErrorContributes(groups: nat, h: nat, kind: ErrorKind, g: nat, f: Field)
    requires g < groups
    ensures CountOf(ErrorOps(groups, h, kind), g, f) == if g == h && f == Errors(kind) then 1 else 0
    ensures HistOf(ErrorOps(groups, h, kind), g) == multiset{}
  {
    if h < groups {
      CountPush([], ErrorOps(groups, h, kind)[0], g, f);
      assert ErrorOps(groups, h, kind) == [] + [ErrorOps(groups, h, kind)[0]];
    }
  }

  // --- requests run ahead of samples by exactly the workers between the two accesses ---

  /** The next request-or-sample access to group g is the sample: its request is already counted. */
  ghost predicate MidRecord(pending: seq<Op>, g: nat)
    decreases |pending|
  {
    pending != [] &&
    if pending[0].group == g && pending[0].Sample? then true
    else if pending[0].group == g && pending[0].FetchAdd? && pending[0].field == Requests then false
    else MidRecord(pending[1..], g)
  }

  // Every request count is followed by its own sample before anything else touches that pair.
  ghost predicate Paired(pending: seq<Op>, g: nat)
    decreases |pending|
  {
    pending != [] ==>
      && Paired(pending[1..], g)
      && (pending[0].group == g && pending[0].FetchAdd? && pending[0].field == Requests ==>
            pending[0].amount == 1 && MidRecord(pending[1..], g))
      && (pending[0].group == g && pending[0].Sample? ==> !MidRecord(pending[1..], g))
  }

  // A list that never touches the request counter or the samples of g can be put in front.
  ghost predicate Ignores(op: Op, g: nat) {
    op.group != g || (op.FetchAdd? && op.field != Requests)
  }

  lemma {:induction false} PairedCons(op: Op, rest: seq<Op>, g: nat)
    requires Paired(rest, g)
    requires Ignores(op, g)
      || (op.FetchAdd? && op.field == Requests && op.amount == 1 && MidRecord(rest, g))
      || (op.Sample? && !MidRecord(rest, g))
    ensures Paired([op] + rest, g)
    ensures MidRecord([op] + rest, g) ==
      if Ignores(op, g) then MidRecord(rest, g) else op.Sample?
  {
    assert ([op] + rest)[1..] == rest;
  }

  lemma {:induction false} RecordPaired(groups: nat, h: nat, ns: u64, sent: u64, recv: u64, shard: nat,
      bucket: nat -> nat, rest: seq<Op>, g: nat)
    requires shard < LATENCY_SHARDS
    requires Paired(rest, g) && !MidRecord(rest, g)
    ensures Paired(RecordOps(groups, h, ns, sent, recv, shard, bucket) + rest, g)
    ensures !MidRecord(RecordOps(groups, h, ns, sent, recv, shard, bucket) + rest, g)
  {
    var ops := RecordOps(groups, h, ns, sent, recv, shard, bucket);
    if h < groups {
      FourPaired(ops[0], ops[1], ops[2], ops[3], rest, g);
      assert ops == [ops[0], ops[1], ops[2], ops[3]];
    } else {
      assert ops + rest == rest;
    }
  }

  lemma {:induction false} FourPaired(a: Op, b: Op, c: Op, d: Op, rest: seq<Op>, g: nat)
    requires Paired(rest, g) && !MidRecord(rest, g) && Ignores(b, g) && Ignores(c, g)
    requires a.FetchAdd? && a.field == Requests && a.amount == 1 && d.Sample? && a.group == d.group
    ensures Paired([a, b, c, d] + rest, g) && !MidRecord([a, b, c, d] + rest, g)
  {
    var r3 := [d] + rest;
    var r2 := [c] + r3;
    var r1 := [b] + r2;
    PairedCons(d, rest, g);
    PairedCons(c, r3, g);
    PairedCons(b, r2, g);
    PairedCons(a, r1, g);
    assert [a, b, c, d] + rest == [a] + r1;
  }

  lemma {:induction false} ErrorPaired(groups: nat, h: nat, kind: ErrorKind, rest: seq<Op>, g: nat)
    requires Paired(rest, g) && !MidRecord(rest, g)
    ensures Paired(ErrorOps(groups, h, kind) + rest, g) && !MidRecord(ErrorOps(groups, h, kind) + rest, g)
  {
    var ops := ErrorOps(groups, h, kind);
    if h < groups {
      PairedCons(ops[0], rest, g);
    } else {
      assert ops + rest == rest;
    }
  }

  lemma {:induction false} CallPaired(groups: nat, hash: nat, bucket: nat -> nat, call: Call, g: nat)
    ensures Paired(LiveOps(groups, hash, bucket, call), g) && !MidRecord(LiveOps(groups, hash, bucket, call), g)
  {
    var shard := PickShard(hash);
    match call
    case Record(sid, latency, _, sent, recv) =>
      var ns := DurationToHistNs(latency);
      var second := RecordOps(groups, 1 + sid, ns, sent, recv, shard, bucket);
      RecordPaired(groups, 1 + sid, ns, sent, recv, shard, bucket, [], g);
      assert second + [] == second;
      RecordPaired(groups, 0, ns, sent, recv, shard, bucket, second, g);
    case RecordNs(sid, ns, sent, recv) =>
      var second := RecordOps(groups, 1 + sid, ns, sent, recv, shard, bucket);
      RecordPaired(groups, 1 + sid, ns, sent, recv, shard, bucket, [], g);
      assert second + [] == second;
      RecordPaired(groups, 0, ns, sent, recv, shard, bucket, second, g);
    case RecordError(sid, kind) =>
      var second := ErrorOps(groups, 1 + sid, kind);
      ErrorPaired(groups, 1 + sid, kind, [], g);
      assert second + [] == second;
      ErrorPaired(groups, 0, kind, second, g);
  }

  ghost function Mid(pending: seq<Op>, g: nat): nat {
    if MidRecord(pending, g) then 1 else 0
  }

  // The same ledger inside one worker.
  ghost predicate Ahead(me: Worker, g: nat) {
    CountOf(me.executed, g, Requests) == |HistOf(me.executed, g)| + Mid(me.pending, g)
  }

  ghost function MidRecords(workers: seq<Worker>, g: nat): seq<nat> {
    seq(|workers|, w requires 0 <= w < |workers| => Mid(workers[w].pending, g))
  }

  lemma {:induction false} WorkAhead(me: Worker, g: nat)
    requires me.pending != [] && Paired(me.pending, g) && Ahead(me, g)
    ensures var next := me.(pending := me.pending[1..], executed := me.executed + [me.pending[0]]);
      Paired(next.pending, g) && Ahead(next, g)
  {
    CountPush(me.executed, me.pending[0], g, Requests);
  }

  lemma {:induction false} AfterAhead(setup: Setup, w: nat, me: Worker, e: Event, g: nat)
    requires Paired(me.pending, g) && Ahead(me, g)
    ensures Paired(WorkerAfter(setup, w, me, e).pending, g) && Ahead(WorkerAfter(setup, w, me, e), g)
  {
    match e
    case Begin(v, call) =>
      CallPaired(setup.Groups(), setup.threadHash(w), setup.bucket, call, g);
    case Work(v) =>
      if v == w && me.pending != [] {
        WorkAhead(me, g);
      }
    case Tick =>
  }

  lemma {:induction false} RunAhead(setup: Setup, workers: nat, events: seq<Event>, w: nat, g: nat)
    requires w < workers
    ensures var me := Run(setup, Init(setup, workers), events).workers[w];
      Paired(me.pending, g) && Ahead(me, g)
    decreases |events|
  {
    if events != [] {
      var n := |events| - 1;
      RunAhead(setup, workers, events[..n], w, g);
      var s := Run(setup, Init(setup, workers), events[..n]);
      AfterAhead(setup, w, s.workers[w], events[n], g);
      NextWorker(setup, s, events[n], w);
    }
  }

  lemma {:induction false} SumsAhead(counts: seq<nat>, hists: seq<Hist>, mids: seq<nat>)
    requires |counts| == |hists| == |mids|
    requires forall w :: 0 <= w < |counts| ==> counts[w] == |hists[w]| + mids[w]
    ensures SumNats(counts) == |SumHists(hists)| + SumNats(mids)
  {
    if counts != [] {
      var n := |counts| - 1;
      SumsAhead(counts[..n], hists[..n], mids[..n]);
    }
  }

  lemma {:induction false} ExecutedAhead(setup: Setup, workers: nat, events: seq<Event>, g: nat)
    ensures var s := Run(setup, Init(setup, workers), events);
      ExecutedCount(s, g, Requests) == |ExecutedHist(s, g)| + SumNats(MidRecords(s.workers, g))
  {
    var s := Run(setup, Init(setup, workers), events);
    var counts, hists := ExecutedCounts(s.workers, g, Requests), ExecutedHists(s.workers, g);
    var mids := MidRecords(s.workers, g);
    forall w | 0 <= w < workers ensures counts[w] == |hists[w]| + mids[w] {
      RunAhead(setup, workers, events, w, g);
    }
    SumsAhead(counts, hists, mids);
  }

  // What the pipeline holds for group g shows one request more than samples for each worker
  // that is between its request count and its sample, up to wraps of the counter.
  ghost predicate RequestsTrackSamples(setup: Setup, s: State, g: nat)
    requires Shape(setup, s) && g < setup.Groups()
  {
    WrapsTo(|HeldHist(setup, s, g)| + SumNats(MidRecords(s.workers, g)), HeldCount(setup, s, g, Requests))
  }

  lemma BalancedTrack(setup: Setup, s: State, g: nat)
    requires Shape(setup, s) && g < setup.Groups()
    requires CountsBalance(setup, s, g, Requests) && HistsBalance(setup, s, g)
    requires ExecutedCount(s, g, Requests) == |ExecutedHist(s, g)| + SumNats(MidRecords(s.workers, g))
    ensures RequestsTrackSamples(setup, s, g)
  {}

  // This holds at every moment of every run.
  lemma {:induction false} RequestsAheadOfSamples(setup: Setup, workers: nat, events: seq<Event>, g: nat)
    requires g < setup.Groups()
    ensures RequestsTrackSamples(setup, Run(setup, Init(setup, workers), events), g)
  {
    EveryRunConserves(setup, workers, events, g, Requests);
    ExecutedAhead(setup, workers, events, g);
    BalancedTrack(setup, Run(setup, Init(setup, workers), events), g);
  }

  // --- the persistent sink ---

  /** Group 0 keeps every counter; a scenario's statistics keep its requests and errors. */
  ghost predicate Kept(g: nat, f: Field) {
    g == 0 || f == Requests || f.Errors?
  }

  ghost function StatCount(stats: Totals, g: nat, f: Field): u64
    requires g <= |stats.perScenario|
  {
    if g == 0 then stats.counts.Get(f)
    else match f
      case Requests => stats.perScenario[g - 1].requests
      case Errors(kind) => stats.perScenario[g - 1].errors.Get(kind)
      case _ => 0
  }

  ghost function StatHist(stats: Totals, g: nat): Hist
    requires g <= |stats.perScenario|
  {
    if g == 0 then stats.latency else stats.perScenario[g - 1].latency
  }

  /** What a call adds to a counter, and to the histogram, of group g. */
  ghost function CallCount(call: Call, g: nat, f: Field): u64 {
    if g != 0 && g != 1 + call.scenario then 0
    else match call
      case Record(_, _, _, sent, recv) => Share(f, sent, recv)
      case RecordNs(_, _, sent, recv) => Share(f, sent, recv)
      case RecordError(_, kind) => if f == Errors(kind) then 1 else 0
  }

  ghost function CallHist(call: Call, bucket: nat -> nat, g: nat): Hist {
    if g != 0 && g != 1 + call.scenario then multiset{}
    else match call
      case Record(_, latency, _, _, _) => multiset{bucket(DurationToHistNs(latency))}
      case RecordNs(_, ns, _, _) => multiset{bucket(DurationToHistNs(ns))}
      case RecordError(_, _) => multiset{}
  }

  // The live sink receives exactly that; this is where the two clamps have to agree.
  lemma {:induction false} CallMovesLive(groups: nat, hash: nat, bucket: nat -> nat, call: Call, g: nat, f: Field)
    requires g < groups
    ensures CountOf(LiveOps(groups, hash, bucket, call), g, f) == CallCount(call, g, f)
    ensures HistOf(LiveOps(groups, hash, bucket, call), g) == CallHist(call, bucket, g)
  {
    match call
    case Record(_, _, _, _, _) => RecordMovesLive(groups, hash, bucket, call, g, f);
    case RecordNs(_, _, _, _) => RecordNsMovesLive(groups, hash, bucket, call, g, f);
    case RecordError(_, _) => ErrorMovesLive(groups, hash, bucket, call, g, f);
  }

  lemma {:induction false} RecordMovesLive(groups: nat, hash: nat, bucket: nat -> nat, call: Call, g: nat, f: Field)
    requires g < groups && call.Record?
    ensures CountOf(LiveOps(groups, hash, bucket, call), g, f) == CallCount(call, g, f)
    ensures HistOf(LiveOps(groups, hash, bucket, call), g) == CallHist(call, bucket, g)
  {
    TwoRecords(groups, 1 + call.scenario, DurationToHistNs(call.latencyNs), call.sent, call.recv, PickShard(hash),
               bucket, g, f);
  }

  lemma {:induction false} RecordNsMovesLive(groups: nat, hash: nat, bucket: nat -> nat, call: Call, g: nat, f: Field)
    requires g < groups && call.RecordNs?
    ensures CountOf(LiveOps(groups, hash, bucket, call), g, f) == CallCount(call, g, f)
    ensures HistOf(LiveOps(groups, hash, bucket, call), g) == CallHist(call, bucket, g)
  {
    TwoRecords(groups, 1 + call.scenario, call.ns, call.sent, call.recv, PickShard(hash), bucket, g, f);
  }

  lemma {:induction false} ErrorMovesLive(groups: nat, hash: nat, bucket: nat -> nat, call: Call, g: nat, f: Field)
    requires g < groups && call.RecordError?
    ensures CountOf(LiveOps(groups, hash, bucket, call), g, f) == CallCount(call, g, f)
    ensures HistOf(LiveOps(groups, hash, bucket, call), g) == CallHist(call, bucket, g)
  {
    TwoErrors(groups, 1 + call.scenario, call.kind, g, f);
  }

  lemma {:induction false} TwoErrors(groups: nat, h: nat, kind: ErrorKind, g: nat, f: Field)
    requires g < groups && h != 0
    ensures CountOf(ErrorOps(groups, 0, kind) + ErrorOps(groups, h, kind), g, f)
      == if (g == 0 || g == h) && f == Errors(kind) then 1 else 0
    ensures HistOf(ErrorOps(groups, 0, kind) + ErrorOps(groups, h, kind), g) == multiset{}
  {
    CountConcat(ErrorOps(groups, 0, kind), ErrorOps(groups, h, kind), g, f);
    ErrorContributes(groups, 0, kind, g, f);
    ErrorContributes(groups, h, kind, g, f);
  }

  lemma {:induction false} TwoRecords(groups: nat, h: nat, ns: u64, sent: u64, recv: u64, shard: nat,
      bucket: nat -> nat, g: nat, f: Field)
    requires shard < LATENCY_SHARDS && g < groups && h != 0
    ensures var ops := RecordOps(groups, 0, ns, sent, recv, shard, bucket)
                     + RecordOps(groups, h, ns, sent, recv, shard, bucket);
      && CountOf(ops, g, f) == (if g == 0 || g == h then Share(f, sent, recv) else 0)
      && HistOf(ops, g) == if g == 0 || g == h then multiset{bucket(ClampNs(ns))} else multiset{}
  {
    CountConcat(RecordOps(groups, 0, ns, sent, recv, shard, bucket),
                RecordOps(groups, h, ns, sent, recv, shard, bucket), g, f);
    RecordContributes(groups, 0, ns, sent, recv, shard, bucket, g, f);
    RecordContributes(groups, h, ns, sent, recv, shard, bucket, g, f);
  }

  // The persistent sink receives the same.
  lemma {:induction false} CallMovesCounts(bucket: nat -> nat, stats: Totals, call: Call, g: nat, f: Field)
    requires g <= |stats.perScenario| && Kept(g, f)
    ensures StatCount(StatsAfter(bucket, stats, call), g, f) == Add64(StatCount(stats, g, f), CallCount(call, g, f))
  {}

  lemma {:induction false} CallMovesHists(bucket: nat -> nat, stats: Totals, call: Call, g: nat)
    requires g <= |stats.perScenario|
    ensures StatHist(StatsAfter(bucket, stats, call), g) == StatHist(stats, g) + CallHist(call, bucket, g)
  {
    if call.RecordError? || (g != 0 && g != 1 + call.scenario) {
      AddNothing(StatHist(stats, g));
      assert CallHist(call, bucket, g) == multiset{};
    } else if g == 0 {
      assert StatsAfter(bucket, stats, call).latency == stats.latency + CallHist(call, bucket, g);
    }
  }

  lemma AddNothing(h: Hist)
    ensures h + multiset{} == h
  {}

  // A worker's statistics amount to what its calls so far execute or will execute.
  ghost predicate CountsMatch(scenarios: nat, me: Worker, g: nat, f: Field)
    requires g <= scenarios
  {
    |me.stats.perScenario| == scenarios && WrapsTo(CountOf(me.executed + me.pending, g, f), StatCount(me.stats, g, f))
  }

  ghost predicate HistsMatch(scenarios: nat, me: Worker, g: nat)
    requires g <= scenarios
  {
    |me.stats.perScenario| == scenarios && StatHist(me.stats, g) == HistOf(me.executed + me.pending, g)
  }

  lemma {:induction false} BeginMatches(groups: nat, bucket: nat -> nat, me: Worker, next: Worker, hash: nat,
      call: Call, g: nat, f: Field)
    requires g < groups && Kept(g, f) && me.pending == []
    requires CountsMatch(groups - 1, me, g, f) && HistsMatch(groups - 1, me, g)
    requires next == Worker(LiveOps(groups, hash, bucket, call), me.executed, StatsAfter(bucket, me.stats, call))
    ensures CountsMatch(groups - 1, next, g, f) && HistsMatch(groups - 1, next, g)
  {
    assert me.executed + me.pending == me.executed;
    CountConcat(me.executed, next.pending, g, f);
    CallMovesLive(groups, hash, bucket, call, g, f);
    CallMovesCounts(bucket, me.stats, call, g, f);
    CallMovesHists(bucket, me.stats, call, g);
    CountsStep(groups - 1, me, next, CallCount(call, g, f), g, f);
  }

  lemma {:induction false} CountsStep(scenarios: nat, me: Worker, next: Worker, n: u64, g: nat, f: Field)
    requires g <= scenarios && |next.stats.perScenario| == scenarios && CountsMatch(scenarios, me, g, f)
    requires CountOf(next.executed + next.pending, g, f) == CountOf(me.executed + me.pending, g, f) + n
    requires StatCount(next.stats, g, f) == Add64(StatCount(me.stats, g, f), n)
    ensures CountsMatch(scenarios, next, g, f)
  {
    WrapsSum(CountOf(me.executed + me.pending, g, f), StatCount(me.stats, g, f), n, n);
  }

  lemma {:induction false} AfterMatches(setup: Setup, w: nat, me: Worker, e: Event, g: nat, f: Field)
    requires g < setup.Groups() && Kept(g, f) && setup.keepsStats(w)
    requires CountsMatch(setup.scenarios, me, g, f) && HistsMatch(setup.scenarios, me, g)
    ensures var next := WorkerAfter(setup, w, me, e);
      CountsMatch(setup.scenarios, next, g, f) && HistsMatch(setup.scenarios, next, g)
  {
    var next := WorkerAfter(setup, w, me, e);
    match e
    case Begin(v, call) =>
      if v == w && me.pending == [] {
        BeginMatches(setup.Groups(), setup.bucket, me, next, setup.threadHash(w), call, g, f);
      }
    case Work(v) =>
      assert next.executed + next.pending == me.executed + me.pending;
    case Tick =>
  }

  lemma {:induction false} RunMatches(setup: Setup, workers: nat, events: seq<Event>, w: nat, g: nat, f: Field)
    requires w < workers && g < setup.Groups() && Kept(g, f) && setup.keepsStats(w)
    ensures var me := Run(setup, Init(setup, workers), events).workers[w];
      CountsMatch(setup.scenarios, me, g, f) && HistsMatch(setup.scenarios, me, g)
    decreases |events|
  {
    if events == [] {
      var me := Init(setup, workers).workers[w];
      assert me.executed + me.pending == [] && StatCount(me.stats, g, f) == 0;
    } else {
      var n := |events| - 1;
      RunMatches(setup, workers, events[..n], w, g, f);
      var s := Run(setup, Init(setup, workers), events[..n]);
      AfterMatches(setup, w, s.workers[w], events[n], g, f);
      NextWorker(setup, s, events[n], w);
    }
  }

  // --- the summary of the workers' statistics ---

  ghost function StatsOf(workers: seq<Worker>): seq<Totals> {
    seq(|workers|, w requires 0 <= w < |workers| => workers[w].stats)
  }

  ghost predicate Idle(s: State) {
    forall w :: 0 <= w < |s.workers| ==> s.workers[w].pending == []
  }

  // Folding statistics that match their workers' totals one by one matches the sum of the totals.
  lemma {:induction false} FoldCounts(out: Totals, counts: seq<nat>, stats: seq<Totals>, g: nat, f: Field)
    requires g <= |out.perScenario| && StatCount(out, g, f) == 0 && |counts| == |stats|
    requires forall w :: 0 <= w < |stats| ==>
      |stats[w].perScenario| == |out.perScenario| && WrapsTo(counts[w], StatCount(stats[w], g, f))
    ensures WrapsTo(SumNats(counts), StatCount(FoldInto(out, stats), g, f))
    decreases |stats|
  {
    if stats != [] {
      var n := |stats| - 1;
      FoldCounts(out, counts[..n], stats[..n], g, f);
      var part := FoldInto(out, stats[..n]);
      MergeCounts(part, stats[n], FoldInto(out, stats), g, f, SumNats(counts[..n]), counts[n], SumNats(counts));
    }
  }

  lemma {:induction false} MergeCounts(a: Totals, b: Totals, merged: Totals, g: nat, f: Field, x: nat, y: nat, sum: nat)
    requires |a.perScenario| == |b.perScenario| && g <= |a.perScenario| && merged == a.Merge(b) && sum == x + y
    requires WrapsTo(x, StatCount(a, g, f)) && WrapsTo(y, StatCount(b, g, f))
    ensures WrapsTo(sum, StatCount(merged, g, f))
  {
    MergeReads(a, b, g, f);
    WrapsSum(x, StatCount(a, g, f), y, StatCount(b, g, f));
  }

  lemma {:induction false} FoldHists(scenarios: nat, hists: seq<Hist>, stats: seq<Totals>, g: nat)
    requires g <= scenarios && |hists| == |stats|
    requires forall w :: 0 <= w < |stats| ==>
      |stats[w].perScenario| == scenarios && StatHist(stats[w], g) == hists[w]
    ensures StatHist(FoldInto(NewTotals(scenarios), stats), g) == SumHists(hists)
    decreases |stats|
  {
    if stats != [] {
      var n := |stats| - 1;
      FoldHists(scenarios, hists[..n], stats[..n], g);
      MergeHists(FoldInto(NewTotals(scenarios), stats[..n]), stats[n], g, SumHists(hists[..n]), hists[n]);
    }
  }

  lemma MergeHists(a: Totals, b: Totals, g: nat, x: Hist, y: Hist)
    requires |a.perScenario| == |b.perScenario| && g <= |a.perScenario| && StatHist(a, g) == x && StatHist(b, g) == y
    ensures StatHist(a.Merge(b), g) == x + y
  {
    MergeReads(a, b, g, Requests);
  }

  lemma {:induction false} MergeReads(a: Totals, b: Totals, g: nat, f: Field)
    requires |a.perScenario| == |b.perScenario| && g <= |a.perScenario|
    ensures StatCount(a.Merge(b), g, f) == Add64(StatCount(a, g, f), StatCount(b, g, f))
    ensures StatHist(a.Merge(b), g) == StatHist(a, g) + StatHist(b, g)
  {
    if g > 0 {
      assert a.Merge(b).perScenario[g - 1] == a.perScenario[g - 1].Merge(b.perScenario[g - 1]);
    }
  }

  // --- the final swap ---

  ghost function Ticks(n: nat): seq<Event> {
    seq(n, _ => Tick)
  }

  ghost function FullPass(setup: Setup): seq<Event> {
    Ticks(27 * setup.Groups() + 1)
  }

  // Every stop before position p reads zero.
  ghost predicate Swept(setup: Setup, s: State, p: nat)
    requires Shape(setup, s)
  {
    && (forall g, f :: 0 <= g < setup.Groups() && 27 * g + FieldIndex(f) < p ==> s.slots[g].counts.Get(f) == 0)
    && forall g, k :: 0 <= g < setup.Groups() && 0 <= k < LATENCY_SHARDS && 27 * g + FIELDS + k < p ==>
         s.slots[g].shards[k] == multiset{}
  }

  lemma {:induction false} TickSweeps(setup: Setup, s: State)
    requires Shape(setup, s) && s.pc < 27 * setup.Groups() && Swept(setup, s, s.pc)
    ensures Swept(setup, TickStep(setup, s), s.pc + 1)
  {
    var r := TickStep(setup, s);
    forall g, f | 0 <= g < setup.Groups() && 27 * g + FieldIndex(f) < s.pc + 1 ensures r.slots[g].counts.Get(f) == 0 {
      if 27 * g + FieldIndex(f) == s.pc {
        FieldIndexInjective(FieldAt(s.pc % 27), f);
      }
    }
  }

  ghost predicate Quiet(setup: Setup, workers: seq<Worker>, s: State, p: nat)
    requires Shape(setup, s)
  {
    s.pc == p && s.workers == workers && Swept(setup, s, p)
  }

  lemma {:induction false} QuietTick(setup: Setup, workers: seq<Worker>, s: State, p: nat)
    requires Shape(setup, s) && Quiet(setup, workers, s, p) && p < 27 * setup.Groups()
    ensures Quiet(setup, workers, TickStep(setup, s), p + 1)
  {
    TickSweeps(setup, s);
  }

  // With the workers idle, the ticker leaves a zero behind at every stop it has passed.
  lemma {:induction false} QuietTicks(setup: Setup, s0: State, events: seq<Event>, p: nat)
    requires Shape(setup, s0) && Run(setup, s0, events).pc == 0 && p <= 27 * setup.Groups()
    ensures Quiet(setup, Run(setup, s0, events).workers, Run(setup, s0, events + Ticks(p)), p)
    decreases p
  {
    var workers := Run(setup, s0, events).workers;
    if p == 0 {
      assert events + Ticks(p) == events;
    } else {
      QuietTicks(setup, s0, events, p - 1);
      QuietTick(setup, workers, Run(setup, s0, events + Ticks(p - 1)), p - 1);
      TickLast(setup, s0, events, p);
    }
  }

  lemma {:induction false} TickLast(setup: Setup, s0: State, events: seq<Event>, p: nat)
    requires Shape(setup, s0) && p > 0
    ensures Run(setup, s0, events + Ticks(p)) == TickStep(setup, Run(setup, s0, events + Ticks(p - 1)))
  {
    var all := events + Ticks(p);
    assert all[..|all| - 1] == events + Ticks(p - 1) && all[|all| - 1] == Tick;
    var before := Run(setup, s0, events + Ticks(p - 1));
    assert Run(setup, s0, all) == Next(setup, before, Tick) by {
      assert all != [];
    }
  }

  // A pass over idle workers leaves the live side empty and everything in the emitted ticks.
  lemma {:induction false} FinalSwapEmpties(setup: Setup, s0: State, events: seq<Event>, g: nat, f: Field)
    requires Shape(setup, s0) && Run(setup, s0, events).pc == 0 && g < setup.Groups()
    ensures var r := Run(setup, s0, events + FullPass(setup));
      && r.workers == Run(setup, s0, events).workers
      && HeldCount(setup, r, g, f) == SumNats(EmittedCounts(r.ticks, g, f))
      && HeldHist(setup, r, g) == SumHists(EmittedHists(r.ticks, g))
  {
    var n := 27 * setup.Groups();
    QuietTicks(setup, s0, events, n);
    TickLast(setup, s0, events, n + 1);
    var before, r := Run(setup, s0, events + Ticks(n)), Run(setup, s0, events + FullPass(setup));
    assert r.slots == before.slots && r.drained[g] == NOTHING_DRAINED;
    NothingDrained(f);
    assert 27 * g + FieldIndex(f) < n && r.slots[g].counts.Get(f) == 0;
    SumHistsEmpty(r.slots[g].shards);
  }

  lemma NothingDrained(f: Field)
    ensures NO_COUNTS.Get(f) == 0
  {}

  lemma {:induction false} SummaryInOrderEqualsTicks(setup: Setup, workers: nat, events: seq<Event>, g: nat, f: Field)
    requires g < setup.Groups() && Kept(g, f) && workers > 0
    requires forall w :: 0 <= w < workers ==> setup.keepsStats(w)
    requires var s := Run(setup, Init(setup, workers), events); s.pc == 0 && Idle(s)
    ensures var r := Run(setup, Init(setup, workers), events + FullPass(setup));
      var summary := Summarise(StatsOf(r.workers));
      && |summary.perScenario| == setup.scenarios
      && WrapsTo(SumNats(EmittedCounts(r.ticks, g, f)), StatCount(summary, g, f))
      && SumHists(EmittedHists(r.ticks, g)) == StatHist(summary, g)
  {
    var s := Run(setup, Init(setup, workers), events);
    var r := Run(setup, Init(setup, workers), events + FullPass(setup));
    EveryRunConserves(setup, workers, events + FullPass(setup), g, f);
    FinalSwapEmpties(setup, Init(setup, workers), events, g, f);
    SummaryOfIdle(setup, workers, events, g, f);
    WrapsChain(ExecutedCount(r, g, f), SumNats(EmittedCounts(r.ticks, g, f)),
               StatCount(Summarise(StatsOf(r.workers)), g, f));
  }

  // Every worker's statistics have the same number of scenarios, so that any order gives one summary.
  lemma {:induction false} OrderDoesNotMatter(stats: seq<Totals>, order: seq<Totals>, scenarios: nat)
    requires multiset(order) == multiset(stats) && stats != []
    requires forall w :: 0 <= w < |stats| ==> |stats[w].perScenario| == scenarios
    ensures Summarise(order) == Summarise(stats)
  {
    SameSize(order, stats);
    assert order[0] in multiset(stats);
    var w :| 0 <= w < |stats| && stats[w] == order[0];
    assert |stats[0].perScenario| == scenarios;
    SummaryOrder(order, stats);
  }

  // End to end: once the workers are done and one final swap has run, the persistent statistics,
  // merged in any order of the workers, and the emitted ticks agree on every counter both sinks keep
  // (as u64 totals) and on every histogram, for each scenario and for the aggregate.
  lemma {:induction false} SummaryEqualsTicks(setup: Setup, workers: nat, events: seq<Event>, r: State,
      order: seq<Totals>, g: nat, f: Field)
    requires g < setup.Groups() && Kept(g, f) && workers > 0
    requires forall w :: 0 <= w < workers ==> setup.keepsStats(w)
    requires var s := Run(setup, Init(setup, workers), events); s.pc == 0 && Idle(s)
    requires r == Run(setup, Init(setup, workers), events + FullPass(setup))
    requires multiset(order) == multiset(StatsOf(r.workers))
    ensures |Summarise(order).perScenario| == setup.scenarios
    ensures WrapsTo(SumNats(EmittedCounts(r.ticks, g, f)), StatCount(Summarise(order), g, f))
    ensures SumHists(EmittedHists(r.ticks, g)) == StatHist(Summarise(order), g)
  {
    SummaryInOrderEqualsTicks(setup, workers, events, g, f);
    forall w | 0 <= w < workers
      ensures |StatsOf(r.workers)[w].perScenario| == setup.scenarios
    {
      RunMatches(setup, workers, events + FullPass(setup), w, g, f);
    }
    OrderDoesNotMatter(StatsOf(r.workers), order, setup.scenarios);
  }

  lemma {:induction false} SummaryOfIdle(setup: Setup, workers: nat, events: seq<Event>, g: nat, f: Field)
    requires g < setup.Groups() && Kept(g, f) && workers > 0
    requires forall w :: 0 <= w < workers ==> setup.keepsStats(w)
    requires Idle(Run(setup, Init(setup, workers), events))
    ensures var s := Run(setup, Init(setup, workers), events);
      var summary := Summarise(StatsOf(s.workers));
      && |summary.perScenario| == setup.scenarios
      && WrapsTo(ExecutedCount(s, g, f), StatCount(summary, g, f))
      && StatHist(summary, g) == ExecutedHist(s, g)
  {
    var s := Run(setup, Init(setup, workers), events);
    var counts, hists, stats := ExecutedCounts(s.workers, g, f), ExecutedHists(s.workers, g), StatsOf(s.workers);
    forall w | 0 <= w < workers
      ensures |stats[w].perScenario| == setup.scenarios
      ensures WrapsTo(counts[w], StatCount(stats[w], g, f)) && StatHist(stats[w], g) == hists[w]
    {
      RunMatches(setup, workers, events, w, g, f);
      assert s.workers[w].executed + s.workers[w].pending == s.workers[w].executed;
    }
    FoldCounts(NewTotals(setup.scenarios), counts, stats, g, f);
    FoldHists(setup.scenarios, hists, stats, g);
  }

  // Totals that fit a u64 are exact: no wrap can hide in the equality.
  lemma {:induction false} NoWrapIsExact(setup: Setup, workers: nat, events: seq<Event>, g: nat, f: Field)
    requires g < setup.Groups()
    requires ExecutedCount(Run(setup, Init(setup, workers), events), g, f) < 0x1_0000_0000_0000_0000
    ensures var s := Run(setup, Init(setup, workers), events);
      HeldCount(setup, s, g, f) == ExecutedCount(s, g, f)
  {
    EveryRunConserves(setup, workers, events, g, f);
  }
}
