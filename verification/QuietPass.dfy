/**
 The state machine against the uninterrupted operations: while no worker is active, one pass of single
 swaps reports and leaves behind what swap_and_snapshot does; and the single accesses of one call, with
 nothing in between, do what the recorder does.
 */
module QuietPass {
  import opened MachineInts
  import opened Metrics
  import opened LiveSlots
  import opened LivePipeline
  import opened EndToEnd
  import opened Recording

  // A counter of group g is reported once the pass has gone by, and zero until then; the live counter
  // the other way round.
  ghost predicate CounterAt(setup: Setup, start: seq<Slot>, s: State, g: nat, f: Field)
    requires Shape(setup, s) && g < setup.Groups() && |start| == setup.Groups()
  {
    var passed, n := 27 * g + FieldIndex(f) < s.pc, start[g].counts.Get(f);
    && s.drained[g].counts.Get(f) == (if passed then n else 0)
    && s.slots[g].counts.Get(f) == (if passed then 0 else n)
  }

  /** How many shards of group g a pass at position pc has swapped out. */
  ghost function ShardsPassed(pc: nat, g: nat): (n: nat)
    ensures n <= LATENCY_SHARDS
  {
    if pc < 27 * g + FIELDS then 0
    else if pc < 27 * g + 27 then pc - 27 * g - FIELDS
    else LATENCY_SHARDS
  }

  ghost predicate ShardsAt(setup: Setup, start: seq<Slot>, s: State, g: nat)
    requires Shape(setup, s) && g < setup.Groups() && |start| == setup.Groups() && ValidSlots(start)
  {
    var n := ShardsPassed(s.pc, g);
    && s.drained[g].latency == SumHists(start[g].shards[..n])
    && forall k :: 0 <= k < LATENCY_SHARDS ==> s.slots[g].shards[k] == if k < n then multiset{} else start[g].shards[k]
  }

  lemma {:induction false} CounterStep(setup: Setup, start: seq<Slot>, s: State, g: nat, f: Field)
    requires Shape(setup, s) && s.pc < 27 * setup.Groups() && g < setup.Groups() && |start| == setup.Groups()
    requires CounterAt(setup, start, s, g, f)
    ensures CounterAt(setup, start, TickStep(setup, s), g, f)
  {
    var h, k := s.pc / 27, s.pc % 27;
    if h == g && k < FIELDS && FieldAt(k) != f {
      if FieldIndex(f) == k {
        FieldIndexInjective(f, FieldAt(k));
      }
    }
  }

  // One step of the ticker, seen from the shards of group g.
  lemma {:induction false} ShardsAfter(setup: Setup, s: State, g: nat)
    requires Shape(setup, s) && s.pc < 27 * setup.Groups() && g < setup.Groups()
    ensures var r, k := TickStep(setup, s), s.pc % 27;
      if s.pc / 27 == g && k >= FIELDS then
        && r.drained[g].latency == s.drained[g].latency + s.slots[g].shards[k - FIELDS]
        && r.slots[g].shards == s.slots[g].shards[k - FIELDS := multiset{}]
      else r.drained[g].latency == s.drained[g].latency && r.slots[g].shards == s.slots[g].shards
  {}

  lemma PassedNext(pc: nat, g: nat)
    ensures ShardsPassed(pc + 1, g)
      == if pc / 27 == g && pc % 27 >= FIELDS then ShardsPassed(pc, g) + 1 else ShardsPassed(pc, g)
    ensures pc / 27 == g && pc % 27 >= FIELDS ==> ShardsPassed(pc, g) == pc % 27 - FIELDS
  {}

  lemma {:induction false} ShardsStep(setup: Setup, start: seq<Slot>, s: State, g: nat)
    requires Shape(setup, s) && s.pc < 27 * setup.Groups() && g < setup.Groups()
    requires |start| == setup.Groups() && ValidSlots(start) && ShardsAt(setup, start, s, g)
    ensures ShardsAt(setup, start, TickStep(setup, s), g)
  {
    ShardsAfter(setup, s, g);
    PassedNext(s.pc, g);
    if s.pc / 27 == g && s.pc % 27 >= FIELDS {
      SumHistsNext(start[g].shards, s.pc % 27 - FIELDS);
    }
  }

  lemma {:induction false} OneMoreTick(setup: Setup, s: State, p: nat)
    requires Shape(setup, s)
    ensures Run(setup, s, Ticks(p + 1)) == TickStep(setup, Run(setup, s, Ticks(p)))
  {
    assert Ticks(p + 1)[..p] == Ticks(p);
  }

  // Position p of a pass, for the ticker, for one counter and for the shards of one group.
  lemma {:induction false} PassPosition(setup: Setup, s: State, p: nat)
    requires Shape(setup, s) && s.pc == 0 && p <= 27 * setup.Groups()
    ensures Run(setup, s, Ticks(p)).pc == p && Run(setup, s, Ticks(p)).ticks == s.ticks
  {
    if p > 0 {
      PassPosition(setup, s, p - 1);
      OneMoreTick(setup, s, p - 1);
    }
  }

  lemma {:induction false} CounterPass(setup: Setup, s: State, p: nat, g: nat, f: Field)
    requires Shape(setup, s) && s.pc == 0 && p <= 27 * setup.Groups() && g < setup.Groups()
    requires s.drained[g] == NOTHING_DRAINED
    ensures CounterAt(setup, s.slots, Run(setup, s, Ticks(p)), g, f)
  {
    if p == 0 {
      NothingDrained(f);
    } else {
      CounterPass(setup, s, p - 1, g, f);
      PassPosition(setup, s, p - 1);
      OneMoreTick(setup, s, p - 1);
      CounterStep(setup, s.slots, Run(setup, s, Ticks(p - 1)), g, f);
    }
  }

  lemma {:induction false} ShardsPass(setup: Setup, s: State, p: nat, g: nat)
    requires Shape(setup, s) && s.pc == 0 && p <= 27 * setup.Groups() && g < setup.Groups()
    requires s.drained[g] == NOTHING_DRAINED
    ensures ShardsAt(setup, s.slots, Run(setup, s, Ticks(p)), g)
  {
    if p > 0 {
      ShardsPass(setup, s, p - 1, g);
      PassPosition(setup, s, p - 1);
      OneMoreTick(setup, s, p - 1);
      ShardsStep(setup, s.slots, Run(setup, s, Ticks(p - 1)), g);
    }
  }

  // After all swaps, group g is reported in full and reads empty.
  lemma {:induction false} GroupReported(setup: Setup, s: State, g: nat)
    requires Shape(setup, s) && s.pc == 0 && g < setup.Groups() && s.drained[g] == NOTHING_DRAINED
    ensures var r := Run(setup, s, Ticks(27 * setup.Groups()));
      && r.pc == 27 * setup.Groups() && r.ticks == s.ticks
      && r.drained[g] == Snapshot(s.slots)[g] && IsEmpty(r.slots[g])
  {
    var n := 27 * setup.Groups();
    var r := Run(setup, s, Ticks(n));
    PassPosition(setup, s, n);
    forall f: Field
      ensures r.drained[g].counts.Get(f) == s.slots[g].counts.Get(f)
      ensures r.slots[g].counts.Get(f) == 0 == NO_COUNTS.Get(f)
    {
      CounterPass(setup, s, n, g, f);
      NothingDrained(f);
    }
    ShardsPass(setup, s, n, g);
    SameCounters(r.drained[g].counts, s.slots[g].counts);
    SameCounters(r.slots[g].counts, NO_COUNTS);
    assert s.slots[g].shards[..LATENCY_SHARDS] == s.slots[g].shards;
  }

  // The pass that started in s has ended in r.
  ghost predicate Reported(setup: Setup, s: State, r: State) {
    && r.ticks == s.ticks + [Snapshot(s.slots)] && r.workers == s.workers && r.pc == 0
    && |r.slots| == |r.drained| == setup.Groups() && AllEmpty(r.slots) && NoneDrained(r.drained)
  }

  ghost predicate AllEmpty(slots: seq<Slot>) {
    forall g :: 0 <= g < |slots| ==> IsEmpty(slots[g])
  }

  ghost predicate IsEmpty(slot: Slot) {
    slot.Valid() && slot.counts == NO_COUNTS && forall k :: 0 <= k < LATENCY_SHARDS ==> slot.shards[k] == multiset{}
  }

  ghost predicate NoneDrained(drained: seq<Drained>) {
    forall g :: 0 <= g < |drained| ==> drained[g] == NOTHING_DRAINED
  }

  // One pass of single swaps over idle slots, and the step that emits it, report the snapshot and leave
  // every slot empty.
  lemma {:induction false} QuietPassIsSnapshot(setup: Setup, s: State, swapped: State)
    requires Shape(setup, s) && s.pc == 0 && NoneDrained(s.drained)
    requires swapped == Run(setup, s, Ticks(27 * setup.Groups()))
    ensures Reported(setup, s, Next(setup, swapped, Tick))
  {
    AllReported(setup, s);
    WorkersIdle(setup, s, 27 * setup.Groups());
  }

  lemma {:induction false} AllReported(setup: Setup, s: State)
    requires Shape(setup, s) && s.pc == 0 && NoneDrained(s.drained)
    ensures var r := Run(setup, s, Ticks(27 * setup.Groups()));
      && r.pc == 27 * setup.Groups() && r.ticks == s.ticks && r.drained == Snapshot(s.slots)
      && AllEmpty(r.slots)
  {
    var r := Run(setup, s, Ticks(27 * setup.Groups()));
    GroupReported(setup, s, 0);
    forall g | 0 <= g < setup.Groups()
      ensures r.drained[g] == Snapshot(s.slots)[g] && IsEmpty(r.slots[g])
    {
      GroupReported(setup, s, g);
    }
    assert |r.drained| == |Snapshot(s.slots)|;
  }

  lemma {:induction false} WorkersIdle(setup: Setup, s: State, p: nat)
    requires Shape(setup, s)
    ensures Run(setup, s, Ticks(p)).workers == s.workers
  {
    if p > 0 {
      WorkersIdle(setup, s, p - 1);
      OneMoreTick(setup, s, p - 1);
    }
  }

  // --- one call without interruption ---

  ghost function Works(w: nat, n: nat): seq<Event> {
    seq(n, _ => Work(w))
  }

  lemma {:induction false} ApplySnoc(slots: seq<Slot>, ops: seq<Op>, op: Op)
    requires ValidSlots(slots) && ValidOps(ops, |slots|) && ValidOp(op, |slots|)
    ensures ValidOps(ops + [op], |slots|) && ApplyAll(slots, ops + [op]) == Apply(ApplyAll(slots, ops), op)
    decreases |ops|
  {
    if ops == [] {
      assert [op][1..] == [];
      assert ApplyAll(slots, [op]) == ApplyAll(Apply(slots, op), []);
    } else {
      assert (ops + [op])[1..] == ops[1..] + [op];
      ApplySnoc(Apply(slots, ops[0]), ops[1..], op);
    }
  }

  // After k accesses of worker w alone.
  ghost predicate HasWorked(setup: Setup, s: State, r: State, w: nat, k: nat)
    requires Shape(setup, s) && w < |s.workers| == |r.workers| && k <= |s.workers[w].pending|
  {
    var ops := s.workers[w].pending;
    && r.slots == ApplyAll(s.slots, ops[..k]) && r.workers[w].pending == ops[k..]
    && r.workers[w].executed == s.workers[w].executed + ops[..k]
    && r.ticks == s.ticks && r.drained == s.drained && r.pc == s.pc
  }

  lemma {:induction false} WorkDrains(setup: Setup, s: State, r: State, w: nat, k: nat)
    requires Shape(setup, s) && Shape(setup, r) && w < |s.workers| == |r.workers| && k < |s.workers[w].pending|
    requires HasWorked(setup, s, r, w, k)
    ensures HasWorked(setup, s, Next(setup, r, Work(w)), w, k + 1)
  {
    var ops := s.workers[w].pending;
    assert ops[k..][0] == ops[k] && ops[k..][1..] == ops[k + 1..] && ops[..k + 1] == ops[..k] + [ops[k]];
    ApplySnoc(s.slots, ops[..k], ops[k]);
    Regrouped(s.workers[w].executed, ops[..k], [ops[k]]);
  }

  lemma Regrouped(a: seq<Op>, b: seq<Op>, c: seq<Op>)
    ensures a + b + c == a + (b + c)
  {}

  lemma {:induction false} WorksDrain(setup: Setup, s: State, w: nat, k: nat)
    requires Shape(setup, s) && w < |s.workers| && k <= |s.workers[w].pending|
    ensures HasWorked(setup, s, Run(setup, s, Works(w, k)), w, k)
  {
    if k == 0 {
      assert s.workers[w].executed + s.workers[w].pending[..0] == s.workers[w].executed;
    } else {
      WorksDrain(setup, s, w, k - 1);
      assert Works(w, k)[..k - 1] == Works(w, k - 1);
      WorkDrains(setup, s, Run(setup, s, Works(w, k - 1)), w, k - 1);
    }
  }

  // A call that nothing interrupts leaves the slots as the recorder's accesses in a row do, and the worker
  // free for the next one.
  lemma {:induction false} CallRunsThrough(setup: Setup, s: State, w: nat, call: Call, ops: seq<Op>)
    requires Shape(setup, s) && w < |s.workers| && s.workers[w].pending == []
    requires ops == LiveOps(setup.Groups(), setup.threadHash(w), setup.bucket, call)
    ensures var begun := Next(setup, s, Begin(w, call));
      var r := Run(setup, begun, Works(w, |ops|));
      r.slots == ApplyAll(s.slots, ops) && r.workers[w].pending == []
  {
    var begun := Next(setup, s, Begin(w, call));
    WorksDrain(setup, begun, w, |ops|);
    assert ops[..|ops|] == ops && ops[|ops|..] == [];
  }
}
