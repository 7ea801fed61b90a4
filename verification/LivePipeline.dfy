/**
 The live pipeline under arbitrary interleaving. Any number of workers run recorder calls one
 atomic access at a time; one ticker swaps out one field or one shard at a time and emits a tick
 after a full pass. Events of different parties interleave freely, and the thread hash that
 picks a worker's shard is arbitrary.
 */
module LivePipeline {
  import opened MachineInts
  import opened Metrics
  import opened LiveSlots
  import opened Stats
  import opened Recording

  datatype Setup = Setup(
    scenarios: nat, bucket: nat -> nat, threadHash: nat -> nat, keepsStats: nat -> bool)
  {
    function Groups(): nat { 1 + scenarios }
  }

  /** A worker: the accesses its current call still has to make, those already made, its stats. */
  datatype Worker = Worker(pending: seq<Op>, executed: seq<Op>, stats: Totals)

  /** The ticker is at position pc of its pass; drained is what the current pass swapped out. */
  datatype State = State(
    slots: seq<Slot>, workers: seq<Worker>, pc: nat, drained: seq<Drained>, ticks: seq<seq<Drained>>)

  datatype Event = Begin(worker: nat, call: Call) | Work(worker: nat) | Tick

  // --- the ticker's pass: per group, eleven counters and then sixteen shards ---

  const FIELDS: nat := 11

  function FieldAt(k: nat): (f: Field)
    requires k < FIELDS
    ensures FieldIndex(f) == k
  {
    match k
    case 0 => Requests
    case 1 => BytesSent
    case 2 => BytesRecv
    case 3 => Errors(Connect)
    case 4 => Errors(Read)
    case 5 => Errors(Write)
    case 6 => Errors(Timeout)
    case 7 => Errors(Keepup)
    case 8 => Errors(Status4xx)
    case 9 => Errors(Status5xx)
    case _ => Errors(AssertionFailed)
  }

  function FieldIndex(f: Field): (k: nat)
    ensures k < FIELDS
  {
    match f
    case Requests => 0
    case BytesSent => 1
    case BytesRecv => 2
    case Errors(Connect) => 3
    case Errors(Read) => 4
    case Errors(Write) => 5
    case Errors(Timeout) => 6
    case Errors(Keepup) => 7
    case Errors(Status4xx) => 8
    case Errors(Status5xx) => 9
    case Errors(AssertionFailed) => 10
  }

  lemma FieldIndexInjective(f: Field, g: Field)
    requires FieldIndex(f) == FieldIndex(g)
    ensures f == g
  {}

  // --- transitions ---

  ghost predicate Shape(setup: Setup, s: State) {
    && |s.slots| == |s.drained| == setup.Groups()
    && ValidSlots(s.slots)
    && s.pc <= 27 * setup.Groups()
    && (forall t :: 0 <= t < |s.ticks| ==> |s.ticks[t]| == setup.Groups())
    && (forall w :: 0 <= w < |s.workers| ==> ValidOps(s.workers[w].pending, setup.Groups()))
  }

  ghost function Init(setup: Setup, workers: nat): (s: State)
    ensures Shape(setup, s)
  {
    State(
      seq(setup.Groups(), _ => EMPTY_SLOT),
      seq(workers, _ => Worker([], [], NewTotals(setup.scenarios))),
      0,
      seq(setup.Groups(), _ => NOTHING_DRAINED),
      [])
  }

  /** A worker starts a call: its own statistics move at once, its live accesses are queued. */
  ghost function BeginStep(setup: Setup, s: State, w: nat, call: Call): (r: State)
    requires Shape(setup, s) && w < |s.workers|
    ensures Shape(setup, r)
  {
    var me := s.workers[w];
    s.(workers := s.workers[w := Worker(
      LiveOps(setup.Groups(), setup.threadHash(w), setup.bucket, call),
      me.executed,
      if setup.keepsStats(w) then StatsAfter(setup.bucket, me.stats, call) else me.stats)])
  }

  ghost function WorkStep(setup: Setup, s: State, w: nat): (r: State)
    requires Shape(setup, s) && w < |s.workers| && s.workers[w].pending != []
    ensures Shape(setup, r)
  {
    var me := s.workers[w];
    var op := me.pending[0];
    s.(slots := Apply(s.slots, op),
       workers := s.workers[w := me.(pending := me.pending[1..], executed := me.executed + [op])])
  }

  ghost function TickStep(setup: Setup, s: State): (r: State)
    requires Shape(setup, s)
    ensures Shape(setup, r)
  {
    if s.pc == 27 * setup.Groups() then
      s.(pc := 0, drained := seq(setup.Groups(), _ => NOTHING_DRAINED), ticks := s.ticks + [s.drained])
    else
      var g, k := s.pc / 27, s.pc % 27;
      var slot, mine := s.slots[g], s.drained[g];
      if k < FIELDS then
        var f := FieldAt(k);
        s.(pc := s.pc + 1,
           slots := s.slots[g := slot.(counts := slot.counts.Set(f, 0))],
           drained := s.drained[g := mine.(counts := mine.counts.Set(f, slot.counts.Get(f)))])
      else
        s.(pc := s.pc + 1,
           slots := s.slots[g := slot.(shards := slot.shards[k - FIELDS := multiset{}])],
           drained := s.drained[g := mine.(latency := mine.latency + slot.shards[k - FIELDS])])
  }

  /** Events that are not enabled change nothing. */
  ghost function Next(setup: Setup, s: State, e: Event): (r: State)
    requires Shape(setup, s)
    ensures Shape(setup, r) && |r.workers| == |s.workers|
  {
    match e
    case Begin(w, call) => if w < |s.workers| && s.workers[w].pending == [] then BeginStep(setup, s, w, call) else s
    case Work(w) => if w < |s.workers| && s.workers[w].pending != [] then WorkStep(setup, s, w) else s
    case Tick => TickStep(setup, s)
  }

  /** What an event does to worker w alone. */
  ghost function WorkerAfter(setup: Setup, w: nat, me: Worker, e: Event): Worker {
    match e
    case Begin(v, call) =>
      if v == w && me.pending == [] then
        Worker(LiveOps(setup.Groups(), setup.threadHash(w), setup.bucket, call), me.executed,
               if setup.keepsStats(w) then StatsAfter(setup.bucket, me.stats, call) else me.stats)
      else me
    case Work(v) =>
      if v == w && me.pending != []
      then me.(pending := me.pending[1..], executed := me.executed + [me.pending[0]])
      else me
    case Tick => me
  }

  lemma NextWorker(setup: Setup, s: State, e: Event, w: nat)
    requires Shape(setup, s) && w < |s.workers|
    ensures Next(setup, s, e).workers[w] == WorkerAfter(setup, w, s.workers[w], e)
  {}

  ghost function Run(setup: Setup, s: State, events: seq<Event>): (r: State)
    requires Shape(setup, s)
    ensures Shape(setup, r) && |r.workers| == |s.workers|
    decreases |events|
  {
    if events == [] then s else Next(setup, Run(setup, s, events[..|events| - 1]), events[|events| - 1])
  }

  // --- accounting ---

  ghost function SumNats(xs: seq<nat>): nat {
    if xs == [] then 0 else SumNats(xs[..|xs| - 1]) + xs[|xs| - 1]
  }

  lemma {:induction false} SumNatsUpdate(xs: seq<nat>, k: nat, x: nat)
    requires k < |xs|
    ensures SumNats(xs[k := x]) + xs[k] == SumNats(xs) + x
  {
    var n := |xs| - 1;
    if k == n {
      assert xs[k := x][..n] == xs[..n];
    } else {
      assert xs[k := x][..n] == xs[..n][k := x];
      SumNatsUpdate(xs[..n], k, x);
    }
  }

  /** What one access contributes to a counter, and to a group's histogram. */
  ghost function Amount(op: Op, g: nat, f: Field): u64 {
    if op.FetchAdd? && op.group == g && op.field == f then op.amount else 0
  }

  ghost function Samples(op: Op, g: nat): Hist {
    if op.Sample? && op.group == g then multiset{op.bucket} else multiset{}
  }

  ghost function CountOf(ops: seq<Op>, g: nat, f: Field): nat {
    if ops == [] then 0 else CountOf(ops[..|ops| - 1], g, f) + Amount(ops[|ops| - 1], g, f)
  }

  ghost function HistOf(ops: seq<Op>, g: nat): Hist {
    if ops == [] then multiset{} else HistOf(ops[..|ops| - 1], g) + Samples(ops[|ops| - 1], g)
  }

  ghost function ExecutedCounts(workers: seq<Worker>, g: nat, f: Field): seq<nat> {
    seq(|workers|, w requires 0 <= w < |workers| => CountOf(workers[w].executed, g, f))
  }

  ghost function ExecutedHists(workers: seq<Worker>, g: nat): seq<Hist> {
    seq(|workers|, w requires 0 <= w < |workers| => HistOf(workers[w].executed, g))
  }

  ghost function EmittedCounts(ticks: seq<seq<Drained>>, g: nat, f: Field): seq<nat>
    requires forall t :: 0 <= t < |ticks| ==> g < |ticks[t]|
  {
    seq(|ticks|, t requires 0 <= t < |ticks| => ticks[t][g].counts.Get(f))
  }

  ghost function EmittedHists(ticks: seq<seq<Drained>>, g: nat): seq<Hist>
    requires forall t :: 0 <= t < |ticks| ==> g < |ticks[t]|
  {
    seq(|ticks|, t requires 0 <= t < |ticks| => ticks[t][g].latency)
  }

  // Everything the pipeline still knows of: emitted ticks, the pass in progress, the live slot.
  ghost function HeldCount(setup: Setup, s: State, g: nat, f: Field): nat
    requires Shape(setup, s) && g < setup.Groups()
  {
    SumNats(EmittedCounts(s.ticks, g, f)) + s.drained[g].counts.Get(f) + s.slots[g].counts.Get(f)
  }

  ghost function HeldHist(setup: Setup, s: State, g: nat): Hist
    requires Shape(setup, s) && g < setup.Groups()
  {
    SumHists(EmittedHists(s.ticks, g)) + s.drained[g].latency + SumHists(s.slots[g].shards)
  }

  ghost function ExecutedCount(s: State, g: nat, f: Field): nat {
    SumNats(ExecutedCounts(s.workers, g, f))
  }

  ghost function ExecutedHist(s: State, g: nat): Hist {
    SumHists(ExecutedHists(s.workers, g))
  }

  ghost predicate CountsBalance(setup: Setup, s: State, g: nat, f: Field)
    requires Shape(setup, s) && g < setup.Groups()
  {
    WrapsTo(ExecutedCount(s, g, f), HeldCount(setup, s, g, f))
  }

  ghost predicate HistsBalance(setup: Setup, s: State, g: nat)
    requires Shape(setup, s) && g < setup.Groups()
  {
    HeldHist(setup, s, g) == ExecutedHist(s, g)
  }

  // For one counter and one group: nothing is lost and nothing is counted twice, except for whole
  // wraps of a u64; and a counter that the current pass has not reached is blank in its result.
  ghost predicate Conserved(setup: Setup, s: State, g: nat, f: Field)
    requires Shape(setup, s) && g < setup.Groups()
  {
    && CountsBalance(setup, s, g, f)
    && HistsBalance(setup, s, g)
    && (s.pc <= 27 * g + FieldIndex(f) ==> s.drained[g].counts.Get(f) == 0)
  }

  lemma UpdateExecuted(workers: seq<Worker>, w: nat, me: Worker, g: nat, f: Field)
    requires w < |workers|
    ensures SumNats(ExecutedCounts(workers[w := me], g, f)) + CountOf(workers[w].executed, g, f)
         == SumNats(ExecutedCounts(workers, g, f)) + CountOf(me.executed, g, f)
    ensures SumHists(ExecutedHists(workers[w := me], g)) + HistOf(workers[w].executed, g)
         == SumHists(ExecutedHists(workers, g)) + HistOf(me.executed, g)
  {
    assert ExecutedCounts(workers[w := me], g, f) == ExecutedCounts(workers, g, f)[w := CountOf(me.executed, g, f)];
    SumNatsUpdate(ExecutedCounts(workers, g, f), w, CountOf(me.executed, g, f));
    assert ExecutedHists(workers[w := me], g) == ExecutedHists(workers, g)[w := HistOf(me.executed, g)];
    SumHistsUpdate(ExecutedHists(workers, g), w, HistOf(me.executed, g));
  }

  lemma CancelHist(a: Hist, b: Hist, c: Hist)
    requires a + c == b + c
    ensures a == b
  {
    assert a == (a + c) - c && b == (b + c) - c;
  }

  // Starting a call moves nothing in the shared state.
  lemma BeginExecutesNothing(workers: seq<Worker>, w: nat, me: Worker, g: nat, f: Field)
    requires w < |workers| && me.executed == workers[w].executed
    ensures SumNats(ExecutedCounts(workers[w := me], g, f)) == SumNats(ExecutedCounts(workers, g, f))
    ensures SumHists(ExecutedHists(workers[w := me], g)) == SumHists(ExecutedHists(workers, g))
  {
    UpdateExecuted(workers, w, me, g, f);
    CancelHist(SumHists(ExecutedHists(workers[w := me], g)), SumHists(ExecutedHists(workers, g)),
               HistOf(me.executed, g));
  }

  // Executing an access adds exactly its contribution.
  lemma WorkExecutes(workers: seq<Worker>, w: nat, me: Worker, op: Op, g: nat, f: Field)
    requires w < |workers| && me.executed == workers[w].executed + [op]
    ensures SumNats(ExecutedCounts(workers[w := me], g, f)) == SumNats(ExecutedCounts(workers, g, f)) + Amount(op, g, f)
    ensures SumHists(ExecutedHists(workers[w := me], g)) == SumHists(ExecutedHists(workers, g)) + Samples(op, g)
  {
    var done := workers[w].executed;
    assert me.executed[..|done|] == done;
    UpdateExecuted(workers, w, me, g, f);
    var a, b := SumHists(ExecutedHists(workers[w := me], g)), SumHists(ExecutedHists(workers, g));
    assert b + (HistOf(done, g) + Samples(op, g)) == (b + Samples(op, g)) + HistOf(done, g);
    CancelHist(a, b + Samples(op, g), HistOf(done, g));
  }

  lemma ApplyMoves(slots: seq<Slot>, op: Op, g: nat, f: Field)
    requires ValidSlots(slots) && ValidOp(op, |slots|) && g < |slots|
    ensures Apply(slots, op)[g].counts.Get(f) == Add64(slots[g].counts.Get(f), Amount(op, g, f))
    ensures SumHists(Apply(slots, op)[g].shards) == SumHists(slots[g].shards) + Samples(op, g)
  {
    if op.Sample? && op.group == g {
      var shards := slots[g].shards;
      SumHistsUpdate(shards, op.shard, shards[op.shard] + multiset{op.bucket});
      CancelHist(SumHists(Apply(slots, op)[g].shards), SumHists(shards) + multiset{op.bucket}, shards[op.shard]);
    }
  }

  lemma HistStep(emitted: Hist, drained: Hist, live: Hist, h: Hist)
    ensures emitted + drained + (live + h) == emitted + drained + live + h
  {}

  // A step that executes n and adds it to the live counter keeps the counts balanced.
  lemma {:induction false} LiveStepCounts(setup: Setup, s: State, r: State, n: u64, g: nat, f: Field)
    requires Shape(setup, s) && Shape(setup, r) && g < setup.Groups()
    requires CountsBalance(setup, s, g, f)
    requires r.ticks == s.ticks && r.drained == s.drained
    requires r.slots[g].counts.Get(f) == Add64(s.slots[g].counts.Get(f), n)
    requires ExecutedCount(r, g, f) == ExecutedCount(s, g, f) + n
    ensures CountsBalance(setup, r, g, f)
  {
    var elsewhere := SumNats(EmittedCounts(s.ticks, g, f)) + s.drained[g].counts.Get(f);
    CountStep(ExecutedCount(s, g, f), ExecutedCount(r, g, f), elsewhere,
              s.slots[g].counts.Get(f), r.slots[g].counts.Get(f), n);
  }

  lemma CountStep(executed: nat, executed': nat, elsewhere: nat, live: u64, live': u64, n: u64)
    requires WrapsTo(executed, elsewhere + live)
    requires executed' == executed + n && live' == Add64(live, n)
    ensures WrapsTo(executed', elsewhere + live')
  {
    WrapsAdd64(executed, elsewhere, live, n);
  }

  // Likewise for the samples h of the step.
  lemma {:induction false} LiveStepHists(setup: Setup, s: State, r: State, h: Hist, g: nat)
    requires Shape(setup, s) && Shape(setup, r) && g < setup.Groups()
    requires HistsBalance(setup, s, g)
    requires r.ticks == s.ticks && r.drained == s.drained
    requires SumHists(r.slots[g].shards) == SumHists(s.slots[g].shards) + h
    requires ExecutedHist(r, g) == ExecutedHist(s, g) + h
    ensures HistsBalance(setup, r, g)
  {
    HistStep(SumHists(EmittedHists(s.ticks, g)), s.drained[g].latency, SumHists(s.slots[g].shards), h);
  }

  lemma {:induction false} WorkConserves(setup: Setup, s: State, w: nat, g: nat, f: Field)
    requires Shape(setup, s) && w < |s.workers| && s.workers[w].pending != [] && g < setup.Groups()
    requires Conserved(setup, s, g, f)
    ensures Conserved(setup, WorkStep(setup, s, w), g, f)
  {
    var r, op := WorkStep(setup, s, w), s.workers[w].pending[0];
    WorkExecutes(s.workers, w, r.workers[w], op, g, f);
    ApplyMoves(s.slots, op, g, f);
    LiveStepCounts(setup, s, r, Amount(op, g, f), g, f);
    LiveStepHists(setup, s, r, Samples(op, g), g);
  }

  // Emitting a tick moves the finished pass to the emitted side.
  lemma {:induction false} EmitMoves(setup: Setup, s: State, g: nat, f: Field)
    requires Shape(setup, s) && g < setup.Groups() && s.pc == 27 * setup.Groups()
    ensures HeldCount(setup, TickStep(setup, s), g, f) == HeldCount(setup, s, g, f)
    ensures HeldHist(setup, TickStep(setup, s), g) == HeldHist(setup, s, g)
  {
    var r := TickStep(setup, s);
    assert EmittedCounts(r.ticks, g, f)[..|s.ticks|] == EmittedCounts(s.ticks, g, f);
    assert EmittedHists(r.ticks, g)[..|s.ticks|] == EmittedHists(s.ticks, g);
    assert r.drained[g] == NOTHING_DRAINED;
  }

  // Swapping out a counter moves its value into the pass, provided the pass has none yet.
  lemma {:induction false} SwapCounterMoves(setup: Setup, s: State, g: nat, f: Field)
    requires Shape(setup, s) && g < setup.Groups() && s.pc < 27 * setup.Groups() && s.pc % 27 < FIELDS
    requires s.pc <= 27 * g + FieldIndex(f) ==> s.drained[g].counts.Get(f) == 0
    ensures HeldCount(setup, TickStep(setup, s), g, f) == HeldCount(setup, s, g, f)
    ensures HeldHist(setup, TickStep(setup, s), g) == HeldHist(setup, s, g)
  {
    var r, here := TickStep(setup, s), FieldAt(s.pc % 27);
    if s.pc / 27 == g && here == f {
      assert s.pc == 27 * g + FieldIndex(f);
      assert r.slots[g].counts.Get(f) == 0 && r.drained[g].counts.Get(f) == s.slots[g].counts.Get(f);
    } else {
      assert r.slots[g].counts.Get(f) == s.slots[g].counts.Get(f);
      assert r.drained[g].counts.Get(f) == s.drained[g].counts.Get(f);
    }
    assert r.slots[g].shards == s.slots[g].shards && r.drained[g].latency == s.drained[g].latency;
  }

  // Swapping out a shard moves its samples into the merged histogram of the pass.
  lemma {:induction false} SwapShardMoves(setup: Setup, s: State, g: nat, f: Field)
    requires Shape(setup, s) && g < setup.Groups() && s.pc < 27 * setup.Groups() && FIELDS <= s.pc % 27
    ensures HeldCount(setup, TickStep(setup, s), g, f) == HeldCount(setup, s, g, f)
    ensures HeldHist(setup, TickStep(setup, s), g) == HeldHist(setup, s, g)
  {
    var r, k := TickStep(setup, s), s.pc % 27 - FIELDS;
    assert r.slots[g].counts == s.slots[g].counts && r.drained[g].counts == s.drained[g].counts;
    if s.pc / 27 == g {
      var shards := s.slots[g].shards;
      SumHistsUpdate(shards, k, multiset{});
      ThreeWay(SumHists(EmittedHists(s.ticks, g)), s.drained[g].latency, shards[k],
               SumHists(r.slots[g].shards), SumHists(shards));
    }
  }

  lemma ThreeWay(emitted: Hist, drained: Hist, h: Hist, rest: Hist, sum: Hist)
    requires rest + h == sum + multiset{}
    ensures emitted + (drained + h) + rest == emitted + drained + sum
  {
    assert emitted + (drained + h) + rest == emitted + drained + (rest + h);
    assert sum + multiset{} == sum;
  }

  lemma {:induction false} TickConserves(setup: Setup, s: State, g: nat, f: Field)
    requires Shape(setup, s) && g < setup.Groups()
    requires Conserved(setup, s, g, f)
    ensures Conserved(setup, TickStep(setup, s), g, f)
  {
    if s.pc == 27 * setup.Groups() {
      EmitMoves(setup, s, g, f);
    } else if s.pc % 27 < FIELDS {
      SwapCounterMoves(setup, s, g, f);
    } else {
      SwapShardMoves(setup, s, g, f);
    }
    TickKeepsFresh(setup, s, g, f);
  }

  // The pass never writes a counter it has not reached.
  lemma {:induction false} TickKeepsFresh(setup: Setup, s: State, g: nat, f: Field)
    requires Shape(setup, s) && g < setup.Groups()
    requires s.pc <= 27 * g + FieldIndex(f) ==> s.drained[g].counts.Get(f) == 0
    ensures var r := TickStep(setup, s); r.pc <= 27 * g + FieldIndex(f) ==> r.drained[g].counts.Get(f) == 0
  {
    if s.pc < 27 * setup.Groups() && s.pc % 27 < FIELDS && s.pc / 27 == g && FieldAt(s.pc % 27) == f {
      assert s.pc == 27 * g + FieldIndex(f);
    }
  }

  // Whatever the interleaving: after every event, all that was executed is accounted for.
  lemma {:induction false} EveryRunConserves(setup: Setup, workers: nat, events: seq<Event>, g: nat, f: Field)
    requires g < setup.Groups()
    ensures Conserved(setup, Run(setup, Init(setup, workers), events), g, f)
    decreases |events|
  {
    if events == [] {
      InitConserves(setup, workers, g, f);
    } else {
      var n := |events| - 1;
      EveryRunConserves(setup, workers, events[..n], g, f);
      NextConserves(setup, Run(setup, Init(setup, workers), events[..n]), events[n], g, f);
    }
  }

  lemma {:induction false} BeginConserves(setup: Setup, s: State, w: nat, call: Call, g: nat, f: Field)
    requires Shape(setup, s) && w < |s.workers| && g < setup.Groups()
    requires Conserved(setup, s, g, f)
    ensures Conserved(setup, BeginStep(setup, s, w, call), g, f)
  {
    var r := BeginStep(setup, s, w, call);
    var me := r.workers[w];
    assert r.workers == s.workers[w := me];
    BeginExecutesNothing(s.workers, w, me, g, f);
    assert ExecutedCount(r, g, f) == ExecutedCount(s, g, f) && ExecutedHist(r, g) == ExecutedHist(s, g);
    assert HeldCount(setup, r, g, f) == HeldCount(setup, s, g, f) && HeldHist(setup, r, g) == HeldHist(setup, s, g);
  }

  lemma {:induction false} NextConserves(setup: Setup, s: State, e: Event, g: nat, f: Field)
    requires Shape(setup, s) && g < setup.Groups()
    requires Conserved(setup, s, g, f)
    ensures Conserved(setup, Next(setup, s, e), g, f)
  {
    match e
    case Begin(w, call) =>
      if w < |s.workers| && s.workers[w].pending == [] {
        BeginConserves(setup, s, w, call, g, f);
      }
    case Work(w) =>
      if w < |s.workers| && s.workers[w].pending != [] {
        WorkConserves(setup, s, w, g, f);
      }
    case Tick =>
      TickConserves(setup, s, g, f);
  }

  lemma {:induction false} InitConserves(setup: Setup, workers: nat, g: nat, f: Field)
    requires g < setup.Groups()
    ensures Conserved(setup, Init(setup, workers), g, f)
  {
    InitCounts(setup, workers, g, f);
    InitHists(setup, workers, g);
  }

  lemma {:induction false} InitCounts(setup: Setup, workers: nat, g: nat, f: Field)
    requires g < setup.Groups()
    ensures var s := Init(setup, workers);
      ExecutedCount(s, g, f) == HeldCount(setup, s, g, f) == 0 && s.drained[g].counts.Get(f) == 0
  {
    var s := Init(setup, workers);
    SumNatsZero(ExecutedCounts(s.workers, g, f));
  }

  lemma {:induction false} InitHists(setup: Setup, workers: nat, g: nat)
    requires g < setup.Groups()
    ensures var s := Init(setup, workers);
      HeldHist(setup, s, g) == ExecutedHist(s, g) == multiset{}
  {
    var s := Init(setup, workers);
    SumHistsEmpty(ExecutedHists(s.workers, g));
    SumHistsEmpty(s.slots[g].shards);
  }

  lemma {:induction false} SumNatsZero(xs: seq<nat>)
    requires forall k :: 0 <= k < |xs| ==> xs[k] == 0
    ensures SumNats(xs) == 0
  {
    if xs != [] {
      SumNatsZero(xs[..|xs| - 1]);
    }
  }
}
