/**
 The shared live aggregator: group 0 holds the aggregate counters and group 1 + i those of
 scenario i. Every shared access is one atomic step, an Op for a worker and a swap for the
 ticker; LivePipeline interleaves these steps. The class below runs them uninterrupted, in the
 order the code performs them.
 */
module LiveSlots {
  import opened MachineInts
  import opened Metrics

  const LATENCY_SHARDS: nat := 16

  /** The shard of a thread: the low bits of the hash of its id. */
  function PickShard(threadHash: nat): nat {
    threadHash % LATENCY_SHARDS
  }

  lemma ShardIsLowBits(threadHash: nat)
    ensures PickShard(threadHash) < 16 && threadHash == threadHash / 16 * 16 + PickShard(threadHash)
  {}

  datatype Slot = Slot(counts: Counters, shards: seq<Hist>) {
    ghost predicate Valid() {
      |shards| == LATENCY_SHARDS
    }
  }

  const EMPTY_SLOT := Slot(NO_COUNTS, seq(LATENCY_SHARDS, _ => multiset{}))

  /** What a tick reports for one group. */
  datatype Drained = Drained(counts: Counters, latency: Hist)

  const NOTHING_DRAINED := Drained(NO_COUNTS, multiset{})

  /** What one pass over the slots reports while no worker is active. */
  function Snapshot(slots: seq<Slot>): (tick: seq<Drained>)
    ensures |tick| == |slots|
  {
    seq(|slots|, g requires 0 <= g < |slots| => Drained(slots[g].counts, SumHists(slots[g].shards)))
  }

  ghost predicate ValidSlots(slots: seq<Slot>) {
    forall g :: 0 <= g < |slots| ==> slots[g].Valid()
  }

  /** One atomic access of a worker: a fetch_add, or one sample under its shard's lock. */
  datatype Op =
    | FetchAdd(group: nat, field: Field, amount: u64)
    | Sample(group: nat, shard: nat, bucket: nat)

  predicate ValidOp(op: Op, groups: nat) {
    op.group < groups && (op.Sample? ==> op.shard < LATENCY_SHARDS)
  }

  predicate ValidOps(ops: seq<Op>, groups: nat) {
    forall i :: 0 <= i < |ops| ==> ValidOp(ops[i], groups)
  }

  function Apply(slots: seq<Slot>, op: Op): (r: seq<Slot>)
    requires ValidSlots(slots) && ValidOp(op, |slots|)
    ensures ValidSlots(r) && |r| == |slots|
  {
    var slot := slots[op.group];
    match op
    case FetchAdd(g, f, n) => slots[g := slot.(counts := slot.counts.Set(f, Add64(slot.counts.Get(f), n)))]
    case Sample(g, k, b) => slots[g := slot.(shards := slot.shards[k := slot.shards[k] + multiset{b}])]
  }

  function ApplyAll(slots: seq<Slot>, ops: seq<Op>): (r: seq<Slot>)
    requires ValidSlots(slots) && ValidOps(ops, |slots|)
    ensures ValidSlots(r) && |r| == |slots|
    decreases |ops|
  {
    if ops == [] then slots else ApplyAll(Apply(slots, ops[0]), ops[1..])
  }

  // Running a list one access at a time.
  lemma ApplyCons(slots: seq<Slot>, op: Op, rest: seq<Op>)
    requires ValidSlots(slots) && ValidOp(op, |slots|) && ValidOps(rest, |slots|)
    ensures ValidOps([op] + rest, |slots|)
    ensures ApplyAll(slots, [op] + rest) == ApplyAll(Apply(slots, op), rest)
  {
    assert ([op] + rest)[1..] == rest;
  }

  /** The accesses of one completed sample, in program order; none when the group is missing. */
  function RecordOps(groups: nat, g: nat, ns: u64, sent: u64, recv: u64, shard: nat, bucket: nat -> nat): (ops: seq<Op>)
    requires shard < LATENCY_SHARDS
    ensures ValidOps(ops, groups)
  {
    if g >= groups then []
    else [FetchAdd(g, Requests, 1), FetchAdd(g, BytesSent, sent), FetchAdd(g, BytesRecv, recv),
          Sample(g, shard, bucket(ClampNs(ns)))]
  }

  function ErrorOps(groups: nat, g: nat, kind: ErrorKind): (ops: seq<Op>)
    ensures ValidOps(ops, groups)
  {
    if g >= groups then [] else [FetchAdd(g, Errors(kind), 1)]
  }
}

module LiveAggregator {
  import opened MachineInts
  import opened Metrics
  import opened LiveSlots

  class LiveSnapshot {
    var slots: seq<Slot>
    const bucket: nat -> nat

    ghost predicate Valid()
      reads this
    {
      |slots| >= 1 && ValidSlots(slots)
    }

    constructor (scenarios: nat, bucket: nat -> nat)
      ensures Valid()
      ensures |slots| == 1 + scenarios && forall g :: 0 <= g < |slots| ==> slots[g] == EMPTY_SLOT
    {
      this.bucket := bucket;
      slots := seq(1 + scenarios, _ => EMPTY_SLOT);
    }

    method FetchAdd(g: nat, f: Field, amount: u64)
      requires Valid() && g < |slots|
      modifies this`slots
      ensures Valid() && slots == Apply(old(slots), Op.FetchAdd(g, f, amount))
    {
      var slot := slots[g];
      slots := slots[g := slot.(counts := slot.counts.Set(f, Add64(slot.counts.Get(f), amount)))];
    }

    method AddSample(g: nat, shard: nat, ns: u64)
      requires Valid() && g < |slots| && shard < LATENCY_SHARDS
      modifies this`slots
      ensures Valid() && slots == Apply(old(slots), Op.Sample(g, shard, bucket(ns)))
    {
      var slot := slots[g];
      slots := slots[g := slot.(shards := slot.shards[shard := slot.shards[shard] + multiset{bucket(ns)}])];
    }

    method Record(threadHash: nat, ns: u64, sent: u64, recv: u64)
      requires Valid()
      modifies this`slots
      ensures Valid()
      ensures slots == ApplyAll(old(slots), RecordOps(|old(slots)|, 0, ns, sent, recv, PickShard(threadHash), bucket))
    {
      RecordInto(0, threadHash, ns, sent, recv);
    }

    method RecordScenario(threadHash: nat, scenario: nat, ns: u64, sent: u64, recv: u64)
      requires Valid()
      modifies this`slots
      ensures Valid()
      ensures slots == ApplyAll(old(slots),
        RecordOps(|old(slots)|, 1 + scenario, ns, sent, recv, PickShard(threadHash), bucket))
    {
      if 1 + scenario < |slots| {
        RecordInto(1 + scenario, threadHash, ns, sent, recv);
      }
    }

    method RecordInto(g: nat, threadHash: nat, ns: u64, sent: u64, recv: u64)
      requires Valid() && g < |slots|
      modifies this`slots
      ensures Valid()
      ensures slots == ApplyAll(old(slots), RecordOps(|old(slots)|, g, ns, sent, recv, PickShard(threadHash), bucket))
    {
      FetchAdd(g, Requests, 1);
      FetchAdd(g, BytesSent, sent);
      FetchAdd(g, BytesRecv, recv);
      AddSample(g, PickShard(threadHash), ClampNs(ns));
      ghost var ops := RecordOps(|old(slots)|, g, ns, sent, recv, PickShard(threadHash), bucket);
      ghost var s1 := Apply(old(slots), ops[0]);
      ghost var s2 := Apply(s1, ops[1]);
      ghost var s3 := Apply(s2, ops[2]);
      ApplyCons(s3, ops[3], []);
      ApplyCons(s2, ops[2], [ops[3]]);
      ApplyCons(s1, ops[1], [ops[2], ops[3]]);
      ApplyCons(old(slots), ops[0], [ops[1], ops[2], ops[3]]);
      assert [ops[2]] + [ops[3]] == [ops[2], ops[3]];
      assert [ops[1]] + [ops[2], ops[3]] == [ops[1], ops[2], ops[3]];
      assert [ops[0]] + [ops[1], ops[2], ops[3]] == ops;
    }

    method RecordError(kind: ErrorKind)
      requires Valid()
      modifies this`slots
      ensures Valid()
      ensures slots == ApplyAll(old(slots), ErrorOps(|old(slots)|, 0, kind))
    {
      slots := slots[0 := slots[0].(counts := slots[0].counts.(errors := slots[0].counts.errors.Incr(kind)))];
      SameCounters(slots[0].counts, Apply(old(slots), Op.FetchAdd(0, Errors(kind), 1))[0].counts);
    }

    method RecordScenarioError(scenario: nat, kind: ErrorKind)
      requires Valid()
      modifies this`slots
      ensures Valid()
      ensures slots == ApplyAll(old(slots), ErrorOps(|old(slots)|, 1 + scenario, kind))
    {
      var g := 1 + scenario;
      if g < |slots| {
        slots := slots[g := slots[g].(counts := slots[g].counts.(errors := slots[g].counts.errors.Incr(kind)))];
        SameCounters(slots[g].counts, Apply(old(slots), Op.FetchAdd(g, Errors(kind), 1))[g].counts);
      }
    }

    /** Replace every shard of one group by an empty histogram and add up what was there. */
    method MergeShards(g: nat) returns (merged: Hist)
      requires Valid() && g < |slots|
      modifies this`slots
      ensures Valid() && merged == SumHists(old(slots)[g].shards)
      ensures slots == old(slots)[g := EMPTY_SLOT.(counts := old(slots)[g].counts)]
    {
      merged := multiset{};
      ghost var was := slots[g].shards;
      for k := 0 to LATENCY_SHARDS
        invariant Valid() && |slots| == |old(slots)|
        invariant slots == old(slots)[g := slots[g]] && slots[g].counts == old(slots)[g].counts
        invariant forall j :: 0 <= j < k ==> slots[g].shards[j] == multiset{}
        invariant forall j :: k <= j < LATENCY_SHARDS ==> slots[g].shards[j] == was[j]
        invariant merged == SumHists(was[..k])
      {
        var prev := slots[g].shards[k];
        slots := slots[g := slots[g].(shards := slots[g].shards[k := multiset{}])];
        merged := merged + prev;
        assert was[..k + 1][..k] == was[..k];
      }
      assert was[..LATENCY_SHARDS] == was;
      assert slots[g].shards == EMPTY_SLOT.shards;
    }

    /** One tick with no concurrent worker: it reports everything and leaves nothing behind. */
    method SwapAndSnapshot() returns (tick: seq<Drained>)
      requires Valid()
      modifies this`slots
      ensures Valid() && |slots| == |old(slots)| && tick == Snapshot(old(slots))
      ensures forall g :: 0 <= g < |slots| ==> slots[g] == EMPTY_SLOT
    {
      tick := [];
      for g := 0 to |slots|
        invariant Valid() && |slots| == |old(slots)| && |tick| == g
        invariant forall j :: 0 <= j < g ==>
          tick[j] == Drained(old(slots)[j].counts, SumHists(old(slots)[j].shards)) && slots[j] == EMPTY_SLOT
        invariant forall j :: g <= j < |slots| ==> slots[j] == old(slots)[j]
      {
        var counts := slots[g].counts;
        slots := slots[g := slots[g].(counts := NO_COUNTS)];
        var latency := MergeShards(g);
        tick := tick + [Drained(counts, latency)];
      }
    }
  }
}
