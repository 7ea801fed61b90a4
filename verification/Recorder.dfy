/**
 The recorder fans one completed operation out to both sinks: the worker's own TaskStats and
 the shared live snapshot, aggregate first and scenario second.
 */
module Recording {
  import opened MachineInts
  import opened Metrics
  import opened LiveSlots
  import opened LiveAggregator
  import opened Stats

  datatype Call =
    | Record(scenario: nat, latencyNs: nat, ttfbNs: nat, sent: u64, recv: u64)
    | RecordNs(scenario: nat, ns: u64, sent: u64, recv: u64)
    | RecordError(scenario: nat, kind: ErrorKind)

  /** The accesses of a call to the live sink, in program order. */
  function LiveOps(groups: nat, threadHash: nat, bucket: nat -> nat, call: Call): (ops: seq<Op>)
    ensures ValidOps(ops, groups)
  {
    var shard := PickShard(threadHash);
    match call
    case Record(sid, latency, _, sent, recv) =>
      var ns := DurationToHistNs(latency);
      RecordOps(groups, 0, ns, sent, recv, shard, bucket) + RecordOps(groups, 1 + sid, ns, sent, recv, shard, bucket)
    case RecordNs(sid, ns, sent, recv) =>
      RecordOps(groups, 0, ns, sent, recv, shard, bucket) + RecordOps(groups, 1 + sid, ns, sent, recv, shard, bucket)
    case RecordError(sid, kind) =>
      ErrorOps(groups, 0, kind) + ErrorOps(groups, 1 + sid, kind)
  }

  /** The effect of a call on the worker's own statistics. */
  function StatsAfter(bucket: nat -> nat, stats: Totals, call: Call): (r: Totals)
    ensures |r.perScenario| == |stats.perScenario|
  {
    match call
    case Record(sid, latency, ttfb, sent, recv) => stats.Record(bucket, sid, latency, ttfb, sent, recv)
    case RecordNs(sid, ns, sent, recv) => stats.Record(bucket, sid, ns, 0, sent, recv)
    case RecordError(sid, kind) => stats.RecordError(sid, kind)
  }

  lemma {:induction false} ApplyConcat(slots: seq<Slot>, a: seq<Op>, b: seq<Op>)
    requires ValidSlots(slots) && ValidOps(a, |slots|) && ValidOps(b, |slots|)
    ensures ValidOps(a + b, |slots|)
    ensures ApplyAll(slots, a + b) == ApplyAll(ApplyAll(slots, a), b)
    decreases |a|
  {
    if a == [] {
      assert a + b == b;
    } else {
      assert (a + b)[1..] == a[1..] + b;
      ApplyConcat(Apply(slots, a[0]), a[1..], b);
    }
  }

  class Recorder {
    const taskStats: TaskStats?
    const live: LiveSnapshot?
    const threadHash: nat

    constructor (taskStats: TaskStats?, live: LiveSnapshot?, threadHash: nat)
      ensures this.taskStats == taskStats && this.live == live && this.threadHash == threadHash
    {
      this.taskStats, this.live, this.threadHash := taskStats, live, threadHash;
    }

    ghost predicate Valid()
      reads this, live
    {
      live != null ==> live.Valid()
    }

    // Both sinks, when present, have moved by exactly one call.
    twostate predicate Did(call: Call)
      reads this, live, taskStats
    {
      && (taskStats != null ==>
        taskStats.Value() == StatsAfter(taskStats.bucket, old(taskStats.Value()), call))
      && (live != null ==>
        && ValidSlots(old(live.slots))
        && live.slots == ApplyAll(old(live.slots), LiveOps(|old(live.slots)|, threadHash, live.bucket, call)))
    }

    method Record(sid: nat, latencyNs: nat, ttfbNs: nat, sent: u64, recv: u64)
      requires Valid()
      modifies taskStats, live
      ensures Valid() && Did(Call.Record(sid, latencyNs, ttfbNs, sent, recv))
    {
      if taskStats != null {
        taskStats.Record(sid, latencyNs, ttfbNs, sent, recv);
      }
      if live != null {
        var ns := DurationToHistNs(latencyNs);
        RecordLive(sid, ns, sent, recv);
      }
    }

    method RecordNs(sid: nat, ns: u64, sent: u64, recv: u64)
      requires Valid()
      modifies taskStats, live
      ensures Valid() && Did(Call.RecordNs(sid, ns, sent, recv))
    {
      if taskStats != null {
        taskStats.Record(sid, ns, 0, sent, recv);
      }
      if live != null {
        RecordLive(sid, ns, sent, recv);
      }
    }

    method RecordLive(sid: nat, ns: u64, sent: u64, recv: u64)
      requires Valid() && live != null
      modifies live
      ensures Valid()
      ensures live.slots == ApplyAll(old(live.slots),
        LiveOps(|old(live.slots)|, threadHash, live.bucket, Call.RecordNs(sid, ns, sent, recv)))
    {
      ghost var was, n := live.slots, |live.slots|;
      live.Record(threadHash, ns, sent, recv);
      live.RecordScenario(threadHash, sid, ns, sent, recv);
      ApplyConcat(was,
        RecordOps(n, 0, ns, sent, recv, PickShard(threadHash), live.bucket),
        RecordOps(n, 1 + sid, ns, sent, recv, PickShard(threadHash), live.bucket));
    }

    method RecordError(sid: nat, kind: ErrorKind)
      requires Valid()
      modifies taskStats, live
      ensures Valid() && Did(Call.RecordError(sid, kind))
    {
      if taskStats != null {
        taskStats.RecordError(sid, kind);
      }
      if live != null {
        ghost var was, n := live.slots, |live.slots|;
        live.RecordError(kind);
        live.RecordScenarioError(sid, kind);
        ApplyConcat(was, ErrorOps(n, 0, kind), ErrorOps(n, 1 + sid, kind));
      }
    }
  }
}
