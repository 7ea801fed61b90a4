/**
 The persistent statistics: one TaskStats per worker, merged into one summary when the run
 ends. The value types say what every update computes; the class performs the updates in place.
 */
module Stats {
  import opened MachineInts
  import opened Metrics
  import opened Outcome

  datatype SseExtras = SseExtras(
    ttfb: Hist, chunkGap: Hist, broadcastRtt: Hist,
    chunks: u64, streamsCompleted: u64, bytesReceived: u64)
  {
    function Merge(o: SseExtras): SseExtras {
      SseExtras(ttfb + o.ttfb, chunkGap + o.chunkGap, broadcastRtt + o.broadcastRtt,
                Add64(chunks, o.chunks), Add64(streamsCompleted, o.streamsCompleted),
                Add64(bytesReceived, o.bytesReceived))
    }
  }

  datatype WsExtras = WsExtras(
    handshake: Hist, rtt: Hist, broadcastRtt: Hist,
    messagesSent: u64, messagesRecv: u64, bytesSent: u64, bytesRecv: u64)
  {
    function Merge(o: WsExtras): WsExtras {
      WsExtras(handshake + o.handshake, rtt + o.rtt, broadcastRtt + o.broadcastRtt,
               Add64(messagesSent, o.messagesSent), Add64(messagesRecv, o.messagesRecv),
               Add64(bytesSent, o.bytesSent), Add64(bytesRecv, o.bytesRecv))
    }
  }

  const NO_SSE := SseExtras(multiset{}, multiset{}, multiset{}, 0, 0, 0)
  const NO_WS := WsExtras(multiset{}, multiset{}, multiset{}, 0, 0, 0, 0)

  function MergeSse(a: Option<SseExtras>, b: Option<SseExtras>): Option<SseExtras> {
    if b.None? then a else Some((if a.None? then NO_SSE else a.value).Merge(b.value))
  }

  function MergeWs(a: Option<WsExtras>, b: Option<WsExtras>): Option<WsExtras> {
    if b.None? then a else Some((if a.None? then NO_WS else a.value).Merge(b.value))
  }

  /** One scenario's slice; the merge keeps the identity of the receiver. */
  datatype ScenarioStats = ScenarioStats(
    id: nat, requests: u64, latency: Hist, errors: ErrorCounters,
    sse: Option<SseExtras>, ws: Option<WsExtras>)
  {
    function Merge(o: ScenarioStats): ScenarioStats {
      ScenarioStats(id, Add64(requests, o.requests), latency + o.latency, errors.Merge(o.errors),
                    MergeSse(sse, o.sse), MergeWs(ws, o.ws))
    }
  }

  // Scenario ids are u16, so the index is truncated.
  function NewScenario(i: nat): ScenarioStats {
    ScenarioStats(i % 0x1_0000, 0, multiset{}, NO_ERRORS, None, None)
  }

  function NewScenarios(n: nat): (r: seq<ScenarioStats>)
    ensures |r| == n
  {
    seq(n, i requires 0 <= i < n => NewScenario(i))
  }

  /** The value of a TaskStats or of a Summary. */
  datatype Totals = Totals(latency: Hist, ttfb: Hist, counts: Counters, perScenario: seq<ScenarioStats>)
  {
    function Record(bucket: nat -> nat, scenario: nat, latencyNs: nat, ttfbNs: nat, sent: u64, recv: u64): (r: Totals)
      ensures |r.perScenario| == |perScenario|
    {
      var b := bucket(DurationToHistNs(latencyNs));
      Totals(
        latency + multiset{b},
        ttfb + multiset{bucket(DurationToHistNs(ttfbNs))},
        Counters(Add64(counts.requests, 1), Add64(counts.bytesSent, sent), Add64(counts.bytesRecv, recv),
                 counts.errors),
        if scenario < |perScenario| then
          perScenario[scenario := perScenario[scenario].(
            requests := Add64(perScenario[scenario].requests, 1),
            latency := perScenario[scenario].latency + multiset{b})]
        else perScenario)
    }

    function RecordError(scenario: nat, kind: ErrorKind): (r: Totals)
      ensures |r.perScenario| == |perScenario|
    {
      this.(
        counts := counts.(errors := counts.errors.Incr(kind)),
        perScenario := if scenario < |perScenario| then
          perScenario[scenario := perScenario[scenario].(errors := perScenario[scenario].errors.Incr(kind))]
        else perScenario)
    }

    function Merge(o: Totals): (r: Totals)
      ensures |r.perScenario| == |perScenario|
    {
      Totals(latency + o.latency, ttfb + o.ttfb, counts.Merge(o.counts), MergeScenarios(perScenario, o.perScenario))
    }
  }

  /** Scenario slots merge by index; slots the receiver does not have are dropped. */
  function MergeScenarios(a: seq<ScenarioStats>, b: seq<ScenarioStats>): (r: seq<ScenarioStats>)
    ensures |r| == |a|
  {
    seq(|a|, i requires 0 <= i < |a| => if i < |b| then a[i].Merge(b[i]) else a[i])
  }

  function NewTotals(scenarios: nat): Totals {
    Totals(multiset{}, multiset{}, NO_COUNTS, NewScenarios(scenarios))
  }

  /** The scenario pass of both merges: slots merge by index, surplus ones are dropped. */
  method MergeScenarioSlots(slots: seq<ScenarioStats>, other: seq<ScenarioStats>) returns (out: seq<ScenarioStats>)
    ensures out == MergeScenarios(slots, other)
  {
    out := slots;
    for i := 0 to |other|
      invariant |out| == |slots|
      invariant forall j :: 0 <= j < |out| ==> out[j] == if j < i then slots[j].Merge(other[j]) else slots[j]
    {
      if i < |out| {
        out := out[i := out[i].Merge(other[i])];
      }
    }
  }

  class TaskStats {
    var latency: Hist
    var ttfb: Hist
    var requests: u64
    var bytesSent: u64
    var bytesRecv: u64
    var errors: ErrorCounters
    var perScenario: seq<ScenarioStats>
    const bucket: nat -> nat

    ghost function Value(): Totals
      reads this
    {
      Totals(latency, ttfb, Counters(requests, bytesSent, bytesRecv, errors), perScenario)
    }

    constructor (scenarios: nat, bucket: nat -> nat)
      ensures Value() == NewTotals(scenarios) && this.bucket == bucket
    {
      latency, ttfb := multiset{}, multiset{};
      requests, bytesSent, bytesRecv, errors := 0, 0, 0, NO_ERRORS;
      perScenario := NewScenarios(scenarios);
      this.bucket := bucket;
    }

    method Record(scenario: nat, latencyNs: nat, ttfbNs: nat, sent: u64, recv: u64)
      modifies this
      ensures Value() == old(Value()).Record(bucket, scenario, latencyNs, ttfbNs, sent, recv)
    {
      var lat := DurationToHistNs(latencyNs);
      latency := latency + multiset{bucket(lat)};
      ttfb := ttfb + multiset{bucket(DurationToHistNs(ttfbNs))};
      requests := Add64(requests, 1);
      bytesSent := Add64(bytesSent, sent);
      bytesRecv := Add64(bytesRecv, recv);
      if scenario < |perScenario| {
        var s := perScenario[scenario];
        s := s.(requests := Add64(s.requests, 1));
        s := s.(latency := s.latency + multiset{bucket(lat)});
        perScenario := perScenario[scenario := s];
      }
    }

    method RecordError(scenario: nat, kind: ErrorKind)
      modifies this
      ensures Value() == old(Value()).RecordError(scenario, kind)
    {
      errors := errors.Incr(kind);
      if scenario < |perScenario| {
        var s := perScenario[scenario];
        perScenario := perScenario[scenario := s.(errors := s.errors.Incr(kind))];
      }
    }

    method Merge(other: TaskStats)
      requires other != this
      modifies this
      ensures Value() == old(Value()).Merge(other.Value())
    {
      latency := latency + other.latency;
      ttfb := ttfb + other.ttfb;
      requests := Add64(requests, other.requests);
      bytesSent := Add64(bytesSent, other.bytesSent);
      bytesRecv := Add64(bytesRecv, other.bytesRecv);
      errors := errors.Merge(other.errors);
      perScenario := MergeScenarioSlots(perScenario, other.perScenario);
    }
  }

  /** The scenario count of a summary is that of the first worker's stats. */
  function ScenarioCount(stats: seq<Totals>): nat {
    if stats == [] then 0 else |stats[0].perScenario|
  }

  function FoldInto(out: Totals, stats: seq<Totals>): (r: Totals)
    ensures |r.perScenario| == |out.perScenario|
    decreases |stats|
  {
    if stats == [] then out else FoldInto(out, stats[..|stats| - 1]).Merge(stats[|stats| - 1])
  }

  function Summarise(stats: seq<Totals>): Totals {
    FoldInto(NewTotals(ScenarioCount(stats)), stats)
  }

  /** Summary::merge: one pass over the workers, one inner pass over each one's scenarios. */
  method MergeSummary(stats: seq<Totals>) returns (out: Totals)
    ensures out == Summarise(stats)
  {
    var n := if |stats| > 0 then |stats[0].perScenario| else 0;
    out := Totals(multiset{}, multiset{}, NO_COUNTS, NewScenarios(n));
    for w := 0 to |stats|
      invariant out == FoldInto(NewTotals(ScenarioCount(stats)), stats[..w])
    {
      var s := stats[w];
      var slots := MergeScenarioSlots(out.perScenario, s.perScenario);
      out := Totals(out.latency + s.latency, out.ttfb + s.ttfb, out.counts.Merge(s.counts), slots);
      assert stats[..w + 1][..w] == stats[..w];
    }
    assert stats[..|stats|] == stats;
  }

  // Two merges into the same receiver commute, field by field.
  lemma ScenarioMergesCommute(o: ScenarioStats, a: ScenarioStats, b: ScenarioStats)
    ensures o.Merge(a).Merge(b) == o.Merge(b).Merge(a)
  {
    AddsCommute(o.requests, a.requests, b.requests);
    HistSumsCommute(o.latency, a.latency, b.latency);
    ErrorMergesCommute(o.errors, a.errors, b.errors);
    SseMergesCommute(o.sse, a.sse, b.sse);
    WsMergesCommute(o.ws, a.ws, b.ws);
  }

  lemma HistSumsCommute(o: Hist, a: Hist, b: Hist)
    ensures o + a + b == o + b + a
  {}

  lemma SseMergesCommute(o: Option<SseExtras>, a: Option<SseExtras>, b: Option<SseExtras>)
    ensures MergeSse(MergeSse(o, a), b) == MergeSse(MergeSse(o, b), a)
  {
    if a.Some? && b.Some? {
      var x, y, z := if o.None? then NO_SSE else o.value, a.value, b.value;
      HistSumsCommute(x.ttfb, y.ttfb, z.ttfb);
      HistSumsCommute(x.chunkGap, y.chunkGap, z.chunkGap);
      HistSumsCommute(x.broadcastRtt, y.broadcastRtt, z.broadcastRtt);
      AddsCommute(x.chunks, y.chunks, z.chunks);
      AddsCommute(x.streamsCompleted, y.streamsCompleted, z.streamsCompleted);
      AddsCommute(x.bytesReceived, y.bytesReceived, z.bytesReceived);
      assert x.Merge(y).Merge(z) == x.Merge(z).Merge(y);
    }
  }

  lemma WsMergesCommute(o: Option<WsExtras>, a: Option<WsExtras>, b: Option<WsExtras>)
    ensures MergeWs(MergeWs(o, a), b) == MergeWs(MergeWs(o, b), a)
  {
    if a.Some? && b.Some? {
      var x, y, z := if o.None? then NO_WS else o.value, a.value, b.value;
      HistSumsCommute(x.handshake, y.handshake, z.handshake);
      HistSumsCommute(x.rtt, y.rtt, z.rtt);
      HistSumsCommute(x.broadcastRtt, y.broadcastRtt, z.broadcastRtt);
      AddsCommute(x.messagesSent, y.messagesSent, z.messagesSent);
      AddsCommute(x.messagesRecv, y.messagesRecv, z.messagesRecv);
      AddsCommute(x.bytesSent, y.bytesSent, z.bytesSent);
      AddsCommute(x.bytesRecv, y.bytesRecv, z.bytesRecv);
      assert x.Merge(y).Merge(z) == x.Merge(z).Merge(y);
    }
  }

  lemma ErrorMergesCommute(o: ErrorCounters, a: ErrorCounters, b: ErrorCounters)
    ensures o.Merge(a).Merge(b) == o.Merge(b).Merge(a)
  {
    AddsCommute(o.connect, a.connect, b.connect);
    AddsCommute(o.read, a.read, b.read);
    AddsCommute(o.write, a.write, b.write);
    AddsCommute(o.timeout, a.timeout, b.timeout);
    AddsCommute(o.keepup, a.keepup, b.keepup);
    AddsCommute(o.status4xx, a.status4xx, b.status4xx);
    AddsCommute(o.status5xx, a.status5xx, b.status5xx);
    AddsCommute(o.assertionFailed, a.assertionFailed, b.assertionFailed);
  }

  lemma AddsCommute(o: u64, a: u64, b: u64)
    ensures Add64(Add64(o, a), b) == Add64(Add64(o, b), a)
  {}

  lemma MergesCommute(o: Totals, a: Totals, b: Totals)
    ensures o.Merge(a).Merge(b) == o.Merge(b).Merge(a)
  {
    HistSumsCommute(o.latency, a.latency, b.latency);
    HistSumsCommute(o.ttfb, a.ttfb, b.ttfb);
    CountMergesCommute(o.counts, a.counts, b.counts);
    ScenarioListsCommute(o.perScenario, a.perScenario, b.perScenario);
  }

  lemma CountMergesCommute(o: Counters, a: Counters, b: Counters)
    ensures o.Merge(a).Merge(b) == o.Merge(b).Merge(a)
  {
    AddsCommute(o.requests, a.requests, b.requests);
    AddsCommute(o.bytesSent, a.bytesSent, b.bytesSent);
    AddsCommute(o.bytesRecv, a.bytesRecv, b.bytesRecv);
    ErrorMergesCommute(o.errors, a.errors, b.errors);
  }

  lemma ScenarioListsCommute(o: seq<ScenarioStats>, a: seq<ScenarioStats>, b: seq<ScenarioStats>)
    ensures MergeScenarios(MergeScenarios(o, a), b) == MergeScenarios(MergeScenarios(o, b), a)
  {
    var x, y := MergeScenarios(MergeScenarios(o, a), b), MergeScenarios(MergeScenarios(o, b), a);
    forall i | 0 <= i < |o| ensures x[i] == y[i] {
      if i < |a| && i < |b| {
        ScenarioMergesCommute(o[i], a[i], b[i]);
      }
    }
  }

  /** A left fold; the order of the list does not matter when the steps commute. */
  ghost function Fold<A, T>(step: (A, T) -> A, out: A, xs: seq<T>): A {
    if xs == [] then out else step(Fold(step, out, xs[..|xs| - 1]), xs[|xs| - 1])
  }

  ghost predicate StepsCommute<A(!new), T(!new)>(step: (A, T) -> A) {
    forall o, a, b :: step(step(o, a), b) == step(step(o, b), a)
  }

  // Any element can be moved to the end of the fold.
  lemma {:induction false} FoldMoveLast<A(!new), T(!new)>(step: (A, T) -> A, out: A, xs: seq<T>, k: nat)
    requires StepsCommute(step) && k < |xs|
    ensures Fold(step, out, xs) == step(Fold(step, out, xs[..k] + xs[k + 1..]), xs[k])
    decreases |xs|
  {
    var n := |xs| - 1;
    var rest := xs[..k] + xs[k + 1..];
    if k == n {
      assert rest == xs[..n];
    } else {
      var front := xs[..n];
      FoldMoveLast(step, out, front, k);
      assert rest[..n - 1] == front[..k] + front[k + 1..] && rest[n - 1] == xs[n];
    }
  }

  lemma {:induction false} FoldPermutes<A(!new), T(!new)>(step: (A, T) -> A, out: A, xs: seq<T>, ys: seq<T>)
    requires StepsCommute(step) && multiset(xs) == multiset(ys)
    ensures Fold(step, out, xs) == Fold(step, out, ys)
    decreases |xs|
  {
    if xs == [] {
      SameSize(xs, ys);
    } else {
      var n := |xs| - 1;
      var k := FindLast(xs, ys);
      FoldMoveLast(step, out, ys, k);
      FoldPermutes(step, out, xs[..n], ys[..k] + ys[k + 1..]);
    }
  }

  lemma {:induction false} FoldIntoIsFold(out: Totals, stats: seq<Totals>)
    ensures FoldInto(out, stats) == Fold((a: Totals, b: Totals) => a.Merge(b), out, stats)
    decreases |stats|
  {
    if stats != [] {
      FoldIntoIsFold(out, stats[..|stats| - 1]);
    }
  }

  lemma SameSize<T>(xs: seq<T>, ys: seq<T>)
    requires multiset(xs) == multiset(ys)
    ensures |xs| == |ys|
  {
    assert |xs| == |multiset(xs)| && |ys| == |multiset(ys)|;
  }

  // The last element of xs occurs in the permutation ys; taking it out of both keeps them permutations.
  lemma FindLast<T>(xs: seq<T>, ys: seq<T>) returns (k: nat)
    requires multiset(xs) == multiset(ys) && xs != []
    ensures k < |ys| && ys[k] == xs[|xs| - 1]
    ensures multiset(xs[..|xs| - 1]) == multiset(ys[..k] + ys[k + 1..])
  {
    var n := |xs| - 1;
    WithoutOne(xs, n);
    assert xs[..n] + xs[n + 1..] == xs[..n];
    assert xs[n] in multiset(ys);
    k :| 0 <= k < |ys| && ys[k] == xs[n];
    WithoutOne(ys, k);
  }

  lemma WithoutOne<T>(xs: seq<T>, k: nat)
    requires k < |xs|
    ensures multiset(xs[..k] + xs[k + 1..]) == multiset(xs) - multiset{xs[k]}
  {
    assert xs == xs[..k] + [xs[k]] + xs[k + 1..];
  }

  // The summary does not depend on the order of the workers, exactly as long as the reordering
  // puts a worker with the same number of scenarios first.
  lemma SummaryOrder(xs: seq<Totals>, ys: seq<Totals>)
    requires multiset(xs) == multiset(ys)
    ensures Summarise(xs) == Summarise(ys) <==> ScenarioCount(xs) == ScenarioCount(ys)
  {
    if ScenarioCount(xs) == ScenarioCount(ys) {
      var step, out := (a: Totals, b: Totals) => a.Merge(b), NewTotals(ScenarioCount(xs));
      forall o, a, b ensures step(step(o, a), b) == step(step(o, b), a) {
        MergesCommute(o, a, b);
      }
      FoldPermutes(step, out, xs, ys);
      FoldIntoIsFold(out, xs);
      FoldIntoIsFold(out, ys);
    } else {
      assert |Summarise(xs).perScenario| != |Summarise(ys).perScenario|;
    }
  }
}
