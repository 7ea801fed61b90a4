/**
 The open-loop schedule of the client self-check, driven by an adversarial clock: time never goes
 back, a sleep lasts at least as long as asked, and everything else may take any time at all.
 Times are nanoseconds since the origin of the run.
 */
module SelfCheck {
  import opened Division
  import opened MachineInts
  import opened Metrics
  import opened Outcome

  /** One turn of the environment: how much time passes before each reading of the clock and beyond
      the end of a sleep, and whether the exchange on the loopback connection succeeds. */
  datatype Turn = Turn(beforeNow: nat, overSleep: nat, beforeStart: nat, sendOk: bool, receiveOk: bool, beforeDone: nat)

  const MAX64: u64 := 0xFFFF_FFFF_FFFF_FFFF

  function SaturatingAdd(a: u64, b: u64): u64 {
    if a + b <= MAX64 then a + b else MAX64
  }

  function SaturatingSub(a: nat, b: nat): nat {
    if a < b then 0 else a - b
  }

  /** A cast of a u128 to u64 keeps the low 64 bits. */
  function Cast64(n: nat): u64 {
    if n <= MAX64 then n else n % 0x1_0000_0000_0000_0000
  }

  lemma CastIsModular(n: nat)
    ensures Cast64(n) == n % 0x1_0000_0000_0000_0000
  {}

  /** When request k is meant to start. */
  ghost function Intended(interval: u64, k: nat): u64 {
    if k == 0 then 0 else SaturatingAdd(Intended(interval, k - 1), interval)
  }

  // Requests are meant to start one interval apart, whatever happens to the ones before.
  lemma {:induction false} IntendedIsMultiple(interval: u64, k: nat)
    ensures Intended(interval, k) == if k * interval <= MAX64 then k * interval else MAX64
  {
    if k > 0 {
      IntendedIsMultiple(interval, k - 1);
      assert k * interval == (k - 1) * interval + interval;
    }
  }

  function PoolSize(asked: Option<nat>): (n: nat)
    ensures n > 0
  {
    var size := if asked.Some? then asked.value else 8;
    if size < 1 then 1 else size
  }

  lemma PoolSizes(n: nat)
    ensures PoolSize(None) == 8 && PoolSize(Some(0)) == 1 && (n > 0 ==> PoolSize(Some(n)) == n)
  {}

  /** What one run leaves behind. */
  datatype Run = Run(completed: nat, jitter: seq<u64>, latency: seq<u64>)

  /** When a request started, and on which connection of the pool. */
  datatype Request = Request(start: nat, conn: nat)

  // No request starts more than a microsecond before its intended time.
  ghost predicate Paced(interval: u64, requests: seq<Request>) {
    forall k :: 0 <= k < |requests| ==> requests[k].start + 1000 >= Intended(interval, k)
  }

  ghost predicate RoundRobin(poolSize: nat, requests: seq<Request>)
    requires poolSize > 0
  {
    forall k :: 0 <= k < |requests| ==> requests[k].conn == k % poolSize
  }

  // Each request's lateness, clamped to the range of the histogram.
  ghost predicate JitterIsLateness(interval: u64, requests: seq<Request>, jitter: seq<u64>) {
    && |jitter| == |requests|
    && forall k :: 0 <= k < |jitter| ==>
         jitter[k] == ClampNs(Cast64(SaturatingSub(requests[k].start, Intended(interval, k))))
  }

  ghost predicate InRange(samples: seq<u64>) {
    forall k :: 0 <= k < |samples| ==> HIST_LO_NS <= samples[k] <= HIST_HI_NS
  }

  // All requests but the last were meant to start before the end, give or take a microsecond.
  ghost predicate EndsInTime(interval: u64, duration: nat, requests: seq<Request>) {
    |requests| >= 2 ==> Intended(interval, |requests| - 2) < duration + 1000
  }

  // When the last exchange is over.
  ghost function FreeAt(turns: seq<Turn>, requests: seq<Request>): nat
    requires |requests| <= |turns|
  {
    if requests == [] then 0 else requests[|requests| - 1].start + turns[|requests| - 1].beforeDone
  }

  // Request k, after an exchange that was over at time free: it is seen before the end, and starts after
  // its sleep, or at once when it is due within a microsecond.
  ghost predicate StartsAt(interval: u64, duration: nat, turn: Turn, free: nat, k: nat, start: nat) {
    var now := free + turn.beforeNow;
    && now < duration
    && start == turn.beforeStart
              + if Intended(interval, k) > now + 1000 then Intended(interval, k) + turn.overSleep else now
  }

  ghost predicate StartsOnTime(interval: u64, duration: nat, turns: seq<Turn>, requests: seq<Request>)
    decreases |requests|
  {
    |requests| <= |turns| &&
    (requests != [] ==>
      var n := |requests| - 1;
      && StartsOnTime(interval, duration, turns, requests[..n])
      && StartsAt(interval, duration, turns[n], FreeAt(turns, requests[..n]), n, requests[n].start))
  }

  // The run ends with the last turn, with the end of its time, or with an exchange that fails; until then
  // every exchange succeeds and is recorded.
  ghost predicate EndsFor(duration: nat, turns: seq<Turn>, requests: seq<Request>, completed: nat) {
    && completed <= |requests| <= |turns| && AllSucceed(turns, completed)
    && if completed < |requests| then
         completed + 1 == |requests| && !(turns[completed].sendOk && turns[completed].receiveOk)
       else completed < |turns| ==> FreeAt(turns, requests) + turns[completed].beforeNow >= duration
  }

  ghost predicate AllSucceed(turns: seq<Turn>, n: nat)
    requires n <= |turns|
  {
    forall k :: 0 <= k < n ==> turns[k].sendOk && turns[k].receiveOk
  }

  // The latency of an exchange is the time it took, held to the range of the histogram.
  ghost predicate LatencyIsDuration(turns: seq<Turn>, latency: seq<u64>) {
    && |latency| <= |turns|
    && forall k :: 0 <= k < |latency| ==> latency[k] == ClampNs(Cast64(turns[k].beforeDone))
  }

  /** The clock at the start of a request: after a sleep, unless the request is due within a microsecond. */
  method WaitUntil(now: nat, intended: u64, turn: Turn) returns (start: nat)
    ensures start >= now && start + 1000 >= intended
    ensures intended > now + 1000 ==> start == intended + turn.overSleep + turn.beforeStart
    ensures intended <= now + 1000 ==> start == now + turn.beforeStart
  {
    var t := now;
    if intended > now {
      var sleepFor := intended - now;
      if sleepFor > 1000 {
        t := now + sleepFor + turn.overSleep;
      }
    }
    start := t + turn.beforeStart;
  }

  ghost predicate Scheduled(interval: u64, duration: nat, poolSize: nat, requests: seq<Request>, jitter: seq<u64>)
    requires poolSize > 0
  {
    && Paced(interval, requests) && RoundRobin(poolSize, requests) && EndsInTime(interval, duration, requests)
    && JitterIsLateness(interval, requests, jitter) && InRange(jitter)
  }

  // One more request, seen at time now before the end.
  lemma {:induction false} ScheduleNext(interval: u64, duration: nat, poolSize: nat, requests: seq<Request>,
      jitter: seq<u64>, now: nat, next: Request, sample: u64)
    requires poolSize > 0 && Scheduled(interval, duration, poolSize, requests, jitter)
    requires |requests| > 0 ==> requests[|requests| - 1].start <= now
    requires now < duration && next.start + 1000 >= Intended(interval, |requests|) && next.conn == |requests| % poolSize
    requires sample == ClampNs(Cast64(SaturatingSub(next.start, Intended(interval, |requests|))))
    ensures Scheduled(interval, duration, poolSize, requests + [next], jitter + [sample])
  {
    var n := |requests|;
    if n > 0 {
      assert requests[n - 1].start + 1000 >= Intended(interval, n - 1);
    }
  }

  // What holds once a request has started, and once its exchange is over.
  ghost predicate Started(interval: u64, duration: nat, poolSize: nat, turns: seq<Turn>, requests: seq<Request>,
      jitter: seq<u64>)
    requires poolSize > 0
  {
    Scheduled(interval, duration, poolSize, requests, jitter) && StartsOnTime(interval, duration, turns, requests)
  }

  ghost predicate Done(turns: seq<Turn>, requests: seq<Request>, latency: seq<u64>, clock: nat) {
    && |latency| == |requests| <= |turns| && clock == FreeAt(turns, requests)
    && InRange(latency) && LatencyIsDuration(turns, latency) && AllSucceed(turns, |latency|)
  }

  lemma {:induction false} StartNext(interval: u64, duration: nat, poolSize: nat, turns: seq<Turn>,
      requests: seq<Request>, jitter: seq<u64>, next: Request, sample: u64)
    requires poolSize > 0 && Started(interval, duration, poolSize, turns, requests, jitter) && |requests| < |turns|
    requires StartsAt(interval, duration, turns[|requests|], FreeAt(turns, requests), |requests|, next.start)
    requires next.conn == |requests| % poolSize
    requires sample == ClampNs(Cast64(SaturatingSub(next.start, Intended(interval, |requests|))))
    ensures Started(interval, duration, poolSize, turns, requests + [next], jitter + [sample])
  {
    assert (requests + [next])[..|requests|] == requests;
    ScheduleNext(interval, duration, poolSize, requests, jitter,
                 FreeAt(turns, requests) + turns[|requests|].beforeNow, next, sample);
  }

  lemma {:induction false} DoneNext(turns: seq<Turn>, requests: seq<Request>, latency: seq<u64>, clock: nat,
      next: Request, sample: u64)
    requires Done(turns, requests, latency, clock) && |requests| < |turns|
    requires turns[|requests|].sendOk && turns[|requests|].receiveOk
    requires sample == ClampNs(Cast64(turns[|requests|].beforeDone))
    ensures Done(turns, requests + [next], latency + [sample], next.start + turns[|requests|].beforeDone)
  {}

  /** The scheduling loop, for as many turns as the environment gives. */
  method Check(interval: u64, duration: nat, pool: Option<nat>, turns: seq<Turn>)
    returns (r: Run, ghost requests: seq<Request>)
    requires duration > 0
    ensures Paced(interval, requests) && RoundRobin(PoolSize(pool), requests)
    ensures EndsInTime(interval, duration, requests)
    ensures JitterIsLateness(interval, requests, r.jitter)
    ensures InRange(r.jitter) && InRange(r.latency)
    ensures |r.latency| == r.completed <= |r.jitter| <= r.completed + 1
    ensures StartsOnTime(interval, duration, turns, requests) && LatencyIsDuration(turns, r.latency)
    ensures EndsFor(duration, turns, requests, r.completed)
  {
    r, requests := RunTurns(interval, duration, PoolSize(pool), turns);
  }

  method RunTurns(interval: u64, duration: nat, poolSize: nat, turns: seq<Turn>)
    returns (r: Run, ghost requests: seq<Request>)
    requires duration > 0 && poolSize > 0
    ensures Started(interval, duration, poolSize, turns, requests, r.jitter)
    ensures InRange(r.latency) && LatencyIsDuration(turns, r.latency)
    ensures |r.latency| == r.completed && EndsFor(duration, turns, requests, r.completed)
  {
    var clock: nat, completed: nat, intended: u64, poolIdx: nat := 0, 0, 0, 0;
    var jitter: seq<u64>, latency: seq<u64> := [], [];
    requests := [];
    for k := 0 to |turns|
      invariant completed == |requests| == k && IsNextConn(poolSize, requests, poolIdx)
      invariant intended == Intended(interval, completed)
      invariant Started(interval, duration, poolSize, turns, requests, jitter)
      invariant Done(turns, requests, latency, clock)
    {
      var turn := turns[k];
      var now := clock + turn.beforeNow;
      if now >= duration {
        return Run(completed, jitter, latency), requests;
      }
      var start := WaitUntil(now, intended, turn);
      var sample := ClampNs(Cast64(SaturatingSub(start, intended)));
      StartNext(interval, duration, poolSize, turns, requests, jitter, Request(start, poolIdx), sample);
      ghost var before := requests;
      jitter := jitter + [sample];
      requests := requests + [Request(start, poolIdx)];
      poolIdx := NextIndex(poolIdx, poolSize, before, requests);
      if !turn.sendOk {
        return Run(completed, jitter, latency), requests;
      }
      if !turn.receiveOk {
        return Run(completed, jitter, latency), requests;
      }
      clock := start + turn.beforeDone;
      var took := ClampNs(Cast64(clock - start));
      DoneNext(turns, before, latency, FreeAt(turns, before), requests[k], took);
      latency := latency + [took];
      completed := completed + 1;
      intended := SaturatingAdd(intended, interval);
    }
    r := Run(completed, jitter, latency);
  }

  ghost predicate IsNextConn(poolSize: nat, requests: seq<Request>, poolIdx: nat)
    requires poolSize > 0
  {
    poolIdx == |requests| % poolSize
  }

  method NextIndex(poolIdx: nat, poolSize: nat, ghost before: seq<Request>, ghost requests: seq<Request>)
    returns (next: nat)
    requires poolSize > 0 && IsNextConn(poolSize, before, poolIdx) && |requests| == |before| + 1
    ensures IsNextConn(poolSize, requests, next)
  {
    next := (poolIdx + 1) % poolSize;
    ModuloNext(|before|, poolSize);
  }

  lemma ModuloNext(k: nat, n: nat)
    requires n > 0
    ensures (k % n + 1) % n == (k + 1) % n
  {
    Remainder(k % n + 1, n, k / n);
    assert k + 1 == k % n + 1 + n * (k / n);
  }

  // --- the documented jitter ---

  function Distance(a: nat, b: nat): nat {
    if a < b then b - a else a - b
  }

  // The jitter is documented as the distance between actual and intended start, in either direction.
  ghost predicate JitterIsDistance(interval: u64, requests: seq<Request>, jitter: seq<u64>) {
    && |jitter| == |requests|
    && forall k :: 0 <= k < |jitter| ==>
         jitter[k] == ClampNs(Cast64(Distance(requests[k].start, Intended(interval, k))))
  }

  // It is, exactly when no request starts more than a nanosecond early; an early one counts as on time.
  lemma {:induction false} JitterIsDistanceIff(interval: u64, requests: seq<Request>, jitter: seq<u64>)
    requires Paced(interval, requests) && JitterIsLateness(interval, requests, jitter)
    ensures JitterIsDistance(interval, requests, jitter)
      <==> forall k :: 0 <= k < |requests| ==> requests[k].start + 1 >= Intended(interval, k)
  {
    forall k | 0 <= k < |requests|
      ensures jitter[k] == ClampNs(Cast64(Distance(requests[k].start, Intended(interval, k))))
        <==> requests[k].start + 1 >= Intended(interval, k)
    {
      EarlyIsOne(requests[k].start, Intended(interval, k));
    }
  }

  lemma {:induction false} EarlyIsOne(start: nat, intended: u64)
    requires start + 1000 >= intended
    ensures ClampNs(Cast64(SaturatingSub(start, intended))) == ClampNs(Cast64(Distance(start, intended)))
      <==> start + 1 >= intended
  {}

  // A request that is due within a microsecond is not waited for: with an interval of a microsecond and
  // exchanges that take no time, the second starts 1000 ns early, and its sample is 1.
  lemma {:induction false} EarlyStart(jitter: seq<u64>)
    requires JitterIsLateness(1000, [Request(0, 0), Request(0, 1)], jitter)
    ensures Paced(1000, [Request(0, 0), Request(0, 1)])
    ensures Distance(0, Intended(1000, 1)) == 1000 && jitter[1] == 1
  {
    assert Intended(1000, 0) == 0;
  }

  // In the units of the caller: all but two of the requests completed fit the duration.
  lemma {:induction false} PacingBound(interval: u64, duration: nat, requests: seq<Request>, completed: nat)
    requires EndsInTime(interval, duration, requests) && 2 <= completed <= |requests| && duration + 1000 <= MAX64
    ensures (completed - 2) * interval < duration + 1000
  {
    IntendedIsMultiple(interval, |requests| - 2);
    assert (completed - 2) * interval <= (|requests| - 2) * interval;
  }
}
