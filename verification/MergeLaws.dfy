/**
 What the merges of the persistent statistics add up: every histogram and every counter of a worker, of
 a scenario and of a scenario's protocol extras, read field by field.
 */
module MergeLaws {
  import opened MachineInts
  import opened Metrics
  import opened Outcome
  import opened Stats

  /** What a u64 keeps of a sum. */
  function Wrapped(n: nat): u64 {
    n % 0x1_0000_0000_0000_0000
  }

  // Every histogram of a scenario, protocol extras included; extras that are absent hold nothing.
  datatype HistName = Latency | SseTtfb | SseChunkGap | SseRtt | WsHandshake | WsRtt | WsBroadcastRtt

  ghost function HistNamed(s: ScenarioStats, k: HistName): Hist {
    match k
    case Latency => s.latency
    case SseTtfb => if s.sse.Some? then s.sse.value.ttfb else multiset{}
    case SseChunkGap => if s.sse.Some? then s.sse.value.chunkGap else multiset{}
    case SseRtt => if s.sse.Some? then s.sse.value.broadcastRtt else multiset{}
    case WsHandshake => if s.ws.Some? then s.ws.value.handshake else multiset{}
    case WsRtt => if s.ws.Some? then s.ws.value.rtt else multiset{}
    case WsBroadcastRtt => if s.ws.Some? then s.ws.value.broadcastRtt else multiset{}
  }

  // Every counter of a scenario.
  datatype CounterName =
    | Served | Failed(kind: ErrorKind)
    | SseChunks | SseStreams | SseBytes
    | WsSent | WsReceived | WsBytesSent | WsBytesReceived

  ghost function CounterNamed(s: ScenarioStats, k: CounterName): u64 {
    match k
    case Served => s.requests
    case Failed(kind) => s.errors.Get(kind)
    case SseChunks => if s.sse.Some? then s.sse.value.chunks else 0
    case SseStreams => if s.sse.Some? then s.sse.value.streamsCompleted else 0
    case SseBytes => if s.sse.Some? then s.sse.value.bytesReceived else 0
    case WsSent => if s.ws.Some? then s.ws.value.messagesSent else 0
    case WsReceived => if s.ws.Some? then s.ws.value.messagesRecv else 0
    case WsBytesSent => if s.ws.Some? then s.ws.value.bytesSent else 0
    case WsBytesReceived => if s.ws.Some? then s.ws.value.bytesRecv else 0
  }

  // A merge adds every histogram and, modulo 2^64, every counter; it keeps the identity of the receiver
  // and has the extras of either side.
  lemma ScenarioHistsAdd(a: ScenarioStats, b: ScenarioStats, k: HistName)
    ensures HistNamed(a.Merge(b), k) == HistNamed(a, k) + HistNamed(b, k)
  {
    NothingAdded(HistNamed(a, k), HistNamed(b, k));
  }

  lemma ScenarioCountersAdd(a: ScenarioStats, b: ScenarioStats, k: CounterName)
    ensures CounterNamed(a.Merge(b), k) == Wrapped(CounterNamed(a, k) + CounterNamed(b, k))
  {
    Add64IsModular(CounterNamed(a, k), CounterNamed(b, k));
  }

  lemma ScenarioMergeKeeps(a: ScenarioStats, b: ScenarioStats)
    ensures a.Merge(b).id == a.id
    ensures a.Merge(b).sse.Some? <==> a.sse.Some? || b.sse.Some?
    ensures a.Merge(b).ws.Some? <==> a.ws.Some? || b.ws.Some?
  {}

  lemma NothingAdded(a: Hist, b: Hist)
    ensures a + multiset{} == a && multiset{} + b == b
  {}

  // The totals are added likewise, and each slot with the slot of the same index; slots that only one
  // side has are kept on the receiver and dropped from the other side.
  lemma MergeAdds(a: Totals, b: Totals)
    ensures a.Merge(b).latency == a.latency + b.latency && a.Merge(b).ttfb == a.ttfb + b.ttfb
    ensures forall f :: a.Merge(b).counts.Get(f) == Wrapped(a.counts.Get(f) + b.counts.Get(f))
    ensures |a.Merge(b).perScenario| == |a.perScenario|
    ensures forall i :: 0 <= i < |a.perScenario| && i < |b.perScenario| ==>
      a.Merge(b).perScenario[i] == a.perScenario[i].Merge(b.perScenario[i])
    ensures forall i :: |b.perScenario| <= i < |a.perScenario| ==> a.Merge(b).perScenario[i] == a.perScenario[i]
  {
    forall f
      ensures a.Merge(b).counts.Get(f) == Wrapped(a.counts.Get(f) + b.counts.Get(f))
    {
      Add64IsModular(a.counts.Get(f), b.counts.Get(f));
    }
  }

  // The time to first byte of a summary is that of all workers together.
  ghost function Ttfbs(stats: seq<Totals>): seq<Hist> {
    seq(|stats|, w requires 0 <= w < |stats| => stats[w].ttfb)
  }

  lemma {:induction false} FoldAddsTtfb(out: Totals, stats: seq<Totals>)
    ensures FoldInto(out, stats).ttfb == out.ttfb + SumHists(Ttfbs(stats))
    decreases |stats|
  {
    if stats == [] {
      NothingAdded(out.ttfb, multiset{});
    } else {
      var n := |stats| - 1;
      FoldAddsTtfb(out, stats[..n]);
      assert Ttfbs(stats)[..n] == Ttfbs(stats[..n]);
      AddInAnyGrouping(out.ttfb, SumHists(Ttfbs(stats[..n])), stats[n].ttfb);
    }
  }

  lemma AddInAnyGrouping(a: Hist, b: Hist, c: Hist)
    ensures a + b + c == a + (b + c)
  {}

  lemma SummaryAddsTtfb(stats: seq<Totals>)
    ensures Summarise(stats).ttfb == SumHists(Ttfbs(stats))
  {
    FoldAddsTtfb(NewTotals(ScenarioCount(stats)), stats);
    NothingAdded(multiset{}, SumHists(Ttfbs(stats)));
  }

  // A new slot is empty and takes the low sixteen bits of its index for its identity.
  lemma NewSlot(i: nat, k: HistName, c: CounterName)
    ensures NewScenario(i).id < 65_536 && NewScenario(i).id + 65_536 * (i / 65_536) == i
    ensures HistNamed(NewScenario(i), k) == multiset{} && CounterNamed(NewScenario(i), c) == 0
    ensures NewScenario(i).sse.None? && NewScenario(i).ws.None?
  {}

  // What every worker contributes to slot i; one without that slot contributes nothing.
  ghost function SlotHist(t: Totals, i: nat, k: HistName): Hist {
    if i < |t.perScenario| then HistNamed(t.perScenario[i], k) else multiset{}
  }

  ghost function SlotHists(stats: seq<Totals>, i: nat, k: HistName): seq<Hist> {
    seq(|stats|, w requires 0 <= w < |stats| => SlotHist(stats[w], i, k))
  }

  lemma MergeAddsSlot(a: Totals, b: Totals, i: nat, k: HistName)
    requires i < |a.perScenario|
    ensures SlotHist(a.Merge(b), i, k) == SlotHist(a, i, k) + SlotHist(b, i, k)
    ensures a.Merge(b).perScenario[i].id == a.perScenario[i].id
  {
    MergeAdds(a, b);
    if i < |b.perScenario| {
      ScenarioHistsAdd(a.perScenario[i], b.perScenario[i], k);
    } else {
      NothingAdded(SlotHist(a, i, k), multiset{});
    }
  }

  // Slot i of a summary keeps its identity and holds every histogram of slot i of all workers together.
  lemma {:induction false} FoldAddsSlots(out: Totals, stats: seq<Totals>, i: nat, k: HistName)
    requires i < |out.perScenario|
    ensures FoldInto(out, stats).perScenario[i].id == out.perScenario[i].id
    ensures SlotHist(FoldInto(out, stats), i, k) == SlotHist(out, i, k) + SumHists(SlotHists(stats, i, k))
    decreases |stats|
  {
    if stats == [] {
      NothingAdded(SlotHist(out, i, k), multiset{});
    } else {
      var n := |stats| - 1;
      FoldAddsSlots(out, stats[..n], i, k);
      assert SlotHists(stats, i, k)[..n] == SlotHists(stats[..n], i, k);
      MergeAddsSlot(FoldInto(out, stats[..n]), stats[n], i, k);
      AddInAnyGrouping(SlotHist(out, i, k), SumHists(SlotHists(stats[..n], i, k)), SlotHist(stats[n], i, k));
    }
  }

  lemma SummaryAddsSlots(stats: seq<Totals>, i: nat, k: HistName)
    requires stats != [] && i < |stats[0].perScenario|
    ensures Summarise(stats).perScenario[i].id + 65_536 * (i / 65_536) == i
    ensures SlotHist(Summarise(stats), i, k) == SumHists(SlotHists(stats, i, k))
  {
    FoldAddsSlots(NewTotals(ScenarioCount(stats)), stats, i, k);
    NewSlot(i, k, Served);
    NothingAdded(multiset{}, SumHists(SlotHists(stats, i, k)));
  }
}
