/** The workload generator (workload.cpp). Floating-point decisions and random draws are an
    oracle: a record of draws per step, so what holds for every oracle holds for every seed. */
module Workload {
  import opened Bits
  import opened Traces

  datatype AlignmentDist = Natural | FixedSet | UniformPow2
  datatype FreeOrder = Fifo | Lifo | Random | ByLifetime

  /** The settings that only the oracle draws depend on, and the ratio that decides whether it may free early. */
  datatype Tuning = Tuning(
    minSize: u64, maxSize: u64, warmup: real, cooldown: real, reallocFraction: real, allocFreeRatio: real,
    burstiness: real, coldClasses: u32, hotClasses: u32)

  function Clamp(x: real, hi: real): real { if x < 0.0 then 0.0 else if x > hi then hi else x }

  function SanitizeTuning(t: Tuning): Tuning
  {
    var min := if t.minSize == 0 then 1 else t.minSize;
    // max_size is compared with the min_size of the input
    var max := if t.maxSize < t.minSize then t.minSize else t.maxSize;
    var wf, cf := Clamp(t.warmup, 1.0), Clamp(t.cooldown, 1.0);
    Tuning(min, max,
           if wf + cf > 1.0 && wf >= cf then 1.0 - cf else wf,
           if wf + cf > 1.0 && wf < cf then 1.0 - wf else cf,
           Clamp(t.reallocFraction, 0.9), Clamp(t.allocFreeRatio, 4.0), Clamp(t.burstiness, 1.0),
           if t.coldClasses == 0 then 4 else t.coldClasses, if t.hotClasses == 0 then 8 else t.hotClasses)
  }

  /** Phases fit into the run, and fractions into their ranges. */
  predicate Tuned(t: Tuning)
  {
    && 1 <= t.minSize && 0.0 <= t.warmup && 0.0 <= t.cooldown && t.warmup + t.cooldown <= 1.0
    && 0.0 <= t.reallocFraction <= 0.9 && 0.0 <= t.allocFreeRatio <= 4.0 && 0.0 <= t.burstiness <= 1.0
    && t.coldClasses > 0 && t.hotClasses > 0
  }

  datatype Config = Config(
    name: Text, operations: u64, liveTarget: u64,
    alignmentDist: AlignmentDist, alignments: seq<u64>,
    tuning: Tuning, reuseIds: bool, domain: u16, threads: u32,
    freeOrder: FreeOrder, releaseToZero: bool, seed: u64)

  /** sanitize_workload_config, on the fields that steer the trace. */
  function Sanitize(c: Config): Config
  {
    var ops := if c.operations == 0 then 1 else c.operations;
    var target := if c.liveTarget == 0 then (if ops < 256 then ops else 256)
                  else if c.liveTarget > ops then ops else c.liveTarget;
    var threads := if c.threads == 0 then 1 else if c.threads > 4096 then 4096 else c.threads;
    c.(operations := ops, liveTarget := target, threads := threads, tuning := SanitizeTuning(c.tuning))
  }

  predicate Sane(c: Config) { 1 <= c.operations && 1 <= c.liveTarget <= c.operations && 1 <= c.threads <= 4096 }

  datatype Mix = MixReallocate | MixAllocate | MixFree

  /** Everything one step may draw. */
  datatype Draw = Draw(
    target: nat,       // the phase target before it is capped
    freeBelow: bool,   // free although below the target
    mix: Mix,          // the action at the target
    size: u64, alignPick: nat, worker: nat, cls: bool, reuse: bool, lifetime: u64,
    pick: nat,         // random index into the live set
    keepSize: bool)    // do not shrink on reallocate

  type Oracle = nat -> Draw

  datatype Live = Live(id: u64, size: u64, alignment: u64, worker: u32, cls: u32, freeStep: u64)

  datatype Gen = Gen(live: seq<Live>, pool: seq<u64>, nextId: nat, out: seq<Entry>)

  const POW2_CHOICES: seq<u64> := [8, 16, 32, 64, 128, 256, 512, 4096]

  function ChooseAlignment(c: Config, pick: nat, size: u64): u64
  {
    match c.alignmentDist
    case Natural => 0
    case FixedSet => if c.alignments == [] then 0 else c.alignments[pick % |c.alignments|]
    case UniformPow2 =>
      var a := POW2_CHOICES[pick % 8];
      if a > size && size > 0 then 0 else a
  }

  function Action(c: Config, live: nat, d: Draw): u16
  {
    var t := if d.target < c.liveTarget then d.target else c.liveTarget;
    if live == 0 then ALLOCATE
    else if live < t then (if c.tuning.allocFreeRatio <= 0.5 && d.freeBelow then FREE else ALLOCATE)
    else if live > t then FREE
    else match d.mix
      case MixReallocate => REALLOCATE
      case MixAllocate => ALLOCATE
      case MixFree => FREE
  }

  /** The first index whose lifetime ends soonest. */
  function Soonest(live: seq<Live>, n: nat): nat
    requires 1 <= n <= |live|
    ensures Soonest(live, n) < n
    ensures forall j :: 0 <= j < n ==> live[Soonest(live, n)].freeStep <= live[j].freeStep
    ensures forall j :: 0 <= j < Soonest(live, n) ==> live[Soonest(live, n)].freeStep < live[j].freeStep
  {
    if n == 1 then 0
    else
      var best := Soonest(live, n - 1);
      if live[n - 1].freeStep < live[best].freeStep then n - 1 else best
  }

  function Victim(c: Config, live: seq<Live>, d: Draw): nat
    requires live != []
    ensures Victim(c, live, d) < |live|
  {
    match c.freeOrder
    case Lifo => |live| - 1
    case Random => d.pick % |live|
    case ByLifetime => Soonest(live, |live|)
    case Fifo => 0
  }

  function EntryFor(c: Config, n: nat, step: u64, op: u16, l: Live): Entry
  {
    Entry.Entry(n % WORD, step, op, l.id, l.size, l.alignment, c.domain, l.worker, l.cls, false, false, 0)
  }

  function StepAllocate(c: Config, step: u64, d: Draw, g: Gen): Gen
    requires c.threads >= 1 && g.nextId < WORD
  {
    var alignment := ChooseAlignment(c, d.alignPick, d.size);
    var fromPool := c.reuseIds && d.reuse && g.pool != [];
    var id: u64 := if fromPool then g.pool[|g.pool| - 1] else g.nextId;
    var l := Live(id, d.size, alignment, d.worker % c.threads, if d.cls then 1 else 0, (step + d.lifetime) % WORD);
    Gen(g.live + [l],
        if fromPool then g.pool[..|g.pool| - 1] else g.pool,
        if fromPool then g.nextId else g.nextId + 1,
        g.out + [EntryFor(c, |g.out|, step, ALLOCATE, l)])
  }

  function StepFree(c: Config, step: u64, idx: nat, g: Gen): Gen
    requires idx < |g.live|
  {
    var l := g.live[idx];
    g.(live := SwapRemove(g.live, idx), pool := g.pool + [l.id],
       out := g.out + [EntryFor(c, |g.out|, step, FREE, l)])
  }

  function StepReallocate(c: Config, step: u64, d: Draw, g: Gen): Gen
    requires g.live != []
  {
    var idx := d.pick % |g.live|;
    var l := g.live[idx];
    var size := if d.keepSize && d.size < l.size then l.size else d.size;
    var l' := l.(size := size, alignment := ChooseAlignment(c, d.alignPick, size));
    g.(live := g.live[idx := l'], out := g.out + [EntryFor(c, |g.out|, step, REALLOCATE, l')])
  }

  function GenStep(c: Config, step: u64, d: Draw, g: Gen): Gen
    requires c.threads >= 1 && g.nextId < WORD
  {
    var op := Action(c, |g.live|, d);
    if op == ALLOCATE then StepAllocate(c, step, d, g)
    else if g.live == [] then g
    else if op == FREE then StepFree(c, step, Victim(c, g.live, d), g)
    else StepReallocate(c, step, d, g)
  }

  /** The main loop after n steps. */
  function GenRun(c: Config, oracle: Oracle, n: nat): (g: Gen)
    requires c.threads >= 1 && n < WORD
    ensures g.nextId <= n + 1
  {
    if n == 0 then Gen([], [], 1, []) else GenStep(c, n - 1, oracle(n - 1), GenRun(c, oracle, n - 1))
  }

  /** Releasing everything that is still live, newest first. */
  function Drain(c: Config, g: Gen): Gen
    decreases |g.live|
  {
    if g.live == [] then g
    else
      var l := g.live[|g.live| - 1];
      Drain(c, g.(live := g.live[..|g.live| - 1],
                  out := g.out + [EntryFor(c, |g.out|, c.operations, FREE, l)]))
  }

  function Finish(c: Config, oracle: Oracle): Gen
    requires Sane(c)
  {
    var g := GenRun(c, oracle, c.operations);
    if c.releaseToZero then Drain(c, g) else g
  }

  function Generated(config: Config, oracle: Oracle): Trace
  {
    var c := Sanitize(config);
    Trace(TRACE_VERSION, c.seed, c.name, Finish(c, oracle).out)
  }

  // ---- the generator as the source runs it ----

  method FindSoonest(live: seq<Live>) returns (idx: nat)
    requires live != []
    ensures idx == Soonest(live, |live|) < |live|
    ensures forall j :: 0 <= j < |live| ==> live[idx].freeStep <= live[j].freeStep
    ensures forall j :: 0 <= j < idx ==> live[idx].freeStep < live[j].freeStep
  {
    idx := 0;
    for j := 1 to |live|
      invariant idx == Soonest(live, j) < j
      invariant forall k :: 0 <= k < j ==> live[idx].freeStep <= live[k].freeStep
      invariant forall k :: 0 <= k < idx ==> live[idx].freeStep < live[k].freeStep
    {
      if live[j].freeStep < live[idx].freeStep { idx := j; }
    }
  }

  method ChooseVictim(c: Config, live: seq<Live>, d: Draw) returns (idx: nat)
    requires live != []
    ensures idx == Victim(c, live, d) < |live|
    ensures c.freeOrder.Lifo? ==> idx == |live| - 1
    ensures c.freeOrder.Fifo? ==> idx == 0
    ensures c.freeOrder.Random? ==> idx == d.pick % |live|
    ensures c.freeOrder.ByLifetime? ==>
              && (forall j :: 0 <= j < |live| ==> live[idx].freeStep <= live[j].freeStep)
              && (forall j :: 0 <= j < idx ==> live[idx].freeStep < live[j].freeStep)
  {
    idx := 0;
    match c.freeOrder {
      case Lifo => idx := |live| - 1;
      case Random => idx := d.pick % |live|;
      case ByLifetime => idx := FindSoonest(live);
      case Fifo =>
    }
  }

  method ReleaseAll(c: Config, g: Gen) returns (out: seq<Entry>)
    ensures out == Drain(c, g).out
  {
    var live := g.live;
    out := g.out;
    while live != []
      invariant Drain(c, g.(live := live, out := out)) == Drain(c, g)
      decreases |live|
    {
      var victim := live[|live| - 1];
      live := live[..|live| - 1];
      out := out + [EntryFor(c, |out|, c.operations, FREE, victim)];
    }
  }

  lemma GenRunStart(c: Config, oracle: Oracle)
    requires c.threads >= 1
    ensures GenRun(c, oracle, 0) == Gen([], [], 1, [])
  {
  }

  lemma GenRunNext(c: Config, oracle: Oracle, n: nat)
    requires c.threads >= 1 && n + 1 < WORD
    ensures GenRun(c, oracle, n).nextId < WORD
    ensures GenRun(c, oracle, n + 1) == GenStep(c, n, oracle(n), GenRun(c, oracle, n))
  {
  }

  lemma FinishIs(c: Config, oracle: Oracle)
    requires Sane(c)
    ensures Finish(c, oracle) == var g := GenRun(c, oracle, c.operations); if c.releaseToZero then Drain(c, g) else g
  {
  }

  method GenerateWorkload(config: Config, oracle: Oracle) returns (t: Trace, r: Verdict)
    ensures t == Generated(config, oracle) && r == CheckTrace(t)
  {
    hide ChooseAlignment, EntryFor, Victim, SwapRemove, Drain, CheckTrace, Action, Sanitize, GenRun, Finish;
    SanitizeSane(config);
    var c := Sanitize(config);
    GenRunStart(c, oracle);
    var live: seq<Live>, pool: seq<u64>, nextId: nat, out: seq<Entry> := [], [], 1, [];
    var step: nat := 0;
    while step < c.operations
      invariant step <= c.operations
      invariant Gen(live, pool, nextId, out) == GenRun(c, oracle, step)
    {
      GenRunNext(c, oracle, step);
      var d := oracle(step);
      var op := Action(c, |live|, d);
      if op == ALLOCATE {
        var alignment := ChooseAlignment(c, d.alignPick, d.size);
        var id: u64;
        if c.reuseIds && d.reuse && |pool| > 0 {
          id := pool[|pool| - 1];
          pool := pool[..|pool| - 1];
        } else {
          id := nextId;
          nextId := nextId + 1;
        }
        var l := Live(id, d.size, alignment, d.worker % c.threads, if d.cls then 1 else 0, (step + d.lifetime) % WORD);
        live := live + [l];
        out := out + [EntryFor(c, |out|, step, ALLOCATE, l)];
      } else if live == [] {
      } else if op == FREE {
        var idx := ChooseVictim(c, live, d);
        var victim := live[idx];
        live := SwapRemove(live, idx);
        pool := pool + [victim.id];
        out := out + [EntryFor(c, |out|, step, FREE, victim)];
      } else {
        var idx := d.pick % |live|;
        var l := live[idx];
        var size := d.size;
        if d.keepSize && size < l.size { size := l.size; }
        l := l.(size := size, alignment := ChooseAlignment(c, d.alignPick, size));
        live := live[idx := l];
        out := out + [EntryFor(c, |out|, step, REALLOCATE, l)];
      }
      step := step + 1;
    }
    FinishIs(c, oracle);
    if c.releaseToZero { out := ReleaseAll(c, Gen(live, pool, nextId, out)); }
    t := Trace(TRACE_VERSION, c.seed, c.name, out);
    r := ValidateTrace(t);
  }

  // ---- what every generated trace satisfies ----

  /** The live vector agrees with the validator's live map and the owner map of the output. */
  ghost predicate Mirrors(live: seq<Live>, m: map<u64, u64>, o: map<u64, u32>)
  {
    && (forall i, j :: 0 <= i < j < |live| ==> live[i].id != live[j].id)
    && (forall i :: 0 <= i < |live| ==> live[i].id in m && live[i].id in o && o[live[i].id] == live[i].worker)
    && (forall k :: k in m ==> exists i :: 0 <= i < |live| && live[i].id == k)
    && m.Keys == o.Keys
  }

  ghost predicate PoolFresh(live: seq<Live>, pool: seq<u64>, nextId: nat)
  {
    && Distinct(pool)
    && (forall i :: 0 <= i < |pool| ==> 0 < pool[i] < nextId)
    && (forall i :: 0 <= i < |live| ==> 0 < live[i].id < nextId)
    && (forall i, j {:trigger live[i], pool[j]} :: 0 <= i < |live| && 0 <= j < |pool| ==> live[i].id != pool[j])
  }

  function CountOp(es: seq<Entry>, op: u16): nat
  {
    if es == [] then 0 else CountOp(es[..|es| - 1], op) + (if es[|es| - 1].op == op then 1 else 0)
  }

  lemma CountSnoc(es: seq<Entry>, e: Entry, op: u16)
    ensures CountOp(es + [e], op) == CountOp(es, op) + (if e.op == op then 1 else 0)
  {
    assert (es + [e])[..|es|] == es;
  }

  predicate AlignmentOk(a: u64) { a == 0 || IsPowerOfTwo(a) }

  /** The config can only produce well-formed domains and alignments. */
  predicate ConfigOk(c: Config)
  {
    c.domain <= MAPPED
    && (c.alignmentDist.FixedSet? ==> forall i :: 0 <= i < |c.alignments| ==> AlignmentOk(c.alignments[i]))
  }

  /** What the output so far and the generator's vectors guarantee. */
  ghost predicate Good(c: Config, g: Gen)
  {
    && CheckFrom(map[], g.out) == Accepted && OwnedFrom(map[], g.out)
    && Mirrors(g.live, LiveAfter(map[], g.out), OwnerAfter(map[], g.out))
    && PoolFresh(g.live, g.pool, g.nextId)
    && CountOp(g.out, ALLOCATE) == CountOp(g.out, FREE) + |g.live|
    && (forall i :: 0 <= i < |g.out| ==> g.out[i].seqNo == i % WORD)
    && (forall i :: 0 <= i < |g.out| ==> g.out[i].op == ALLOCATE || g.out[i].op == FREE || g.out[i].op == REALLOCATE)
  }

  lemma Choices(pick: nat)
    ensures AlignmentOk(POW2_CHOICES[pick % 8])
  {
    hide IsPowerOfTwo;
    PowerPasses(3);
    PowerPasses(4);
    PowerPasses(5);
    PowerPasses(6);
    PowerPasses(7);
    PowerPasses(8);
    PowerPasses(9);
    PowerPasses(12);
    assert Pow2(3) == 8 && Pow2(6) == 64 && Pow2(9) == 512 && Pow2(12) == 4096;
  }

  lemma AlignmentsAccepted(c: Config, pick: nat, size: u64)
    requires ConfigOk(c)
    ensures AlignmentOk(ChooseAlignment(c, pick, size))
  {
    hide IsPowerOfTwo;
    Choices(pick);
  }

  lemma MirrorsAppend(live: seq<Live>, m: map<u64, u64>, o: map<u64, u32>, l: Live)
    requires Mirrors(live, m, o) && l.id !in m
    ensures Mirrors(live + [l], m[l.id := l.size], o[l.id := l.worker])
  {
    var live', m' := live + [l], m[l.id := l.size];
    forall k | k in m' ensures exists i :: 0 <= i < |live'| && live'[i].id == k {
      if k == l.id { assert live'[|live|].id == k; }
      else {
        var i :| 0 <= i < |live| && live[i].id == k;
        assert live'[i].id == k;
      }
    }
  }

  lemma MirrorsRemove(live: seq<Live>, m: map<u64, u64>, o: map<u64, u32>, idx: nat)
    requires Mirrors(live, m, o) && idx < |live|
    ensures Mirrors(SwapRemove(live, idx), m - {live[idx].id}, o - {live[idx].id})
  {
    var live', m' := SwapRemove(live, idx), m - {live[idx].id};
    forall k | k in m' ensures exists i :: 0 <= i < |live'| && live'[i].id == k {
      var i :| 0 <= i < |live| && live[i].id == k;
      if i == |live| - 1 { assert live'[idx].id == k; } else { assert live'[i].id == k; }
    }
  }

  lemma MirrorsAt(live: seq<Live>, m: map<u64, u64>, o: map<u64, u32>, idx: nat)
    requires Mirrors(live, m, o) && idx < |live|
    ensures live[idx].id in m && live[idx].id in o && o[live[idx].id] == live[idx].worker
  {
  }

  lemma MirrorsUpdate(live: seq<Live>, m: map<u64, u64>, o: map<u64, u32>, idx: nat, l: Live)
    requires Mirrors(live, m, o) && idx < |live| && l.id == live[idx].id && l.worker == live[idx].worker
    ensures Mirrors(live[idx := l], m[l.id := l.size], o)
  {
    var live' := live[idx := l];
    forall k | k in m ensures exists i :: 0 <= i < |live'| && live'[i].id == k {
      var i :| 0 <= i < |live| && live[i].id == k;
      assert live'[i].id == k;
    }
  }

  /** Appending one well-formed entry that agrees with the live vector. */
  lemma Emit(c: Config, out: seq<Entry>, e: Entry)
    requires CheckFrom(map[], out) == Accepted && OwnedFrom(map[], out)
    requires Check(LiveAfter(map[], out), e) == Accepted && OwnerOk(OwnerAfter(map[], out), e)
    ensures CheckFrom(map[], out + [e]) == Accepted && OwnedFrom(map[], out + [e])
    ensures LiveAfter(map[], out + [e]) == Next(LiveAfter(map[], out), e)
    ensures OwnerAfter(map[], out + [e]) == NextOwner(OwnerAfter(map[], out), e)
    ensures forall op :: CountOp(out + [e], op) == CountOp(out, op) + (if e.op == op then 1 else 0)
  {
    CheckSnoc(map[], out, e);
    OwnedSnoc(map[], out, e);
    forall op: u16 ensures CountOp(out + [e], op) == CountOp(out, op) + (if e.op == op then 1 else 0) {
      CountSnoc(out, e, op);
    }
  }

  lemma AllocateGood(c: Config, step: u64, d: Draw, g: Gen)
    requires ConfigOk(c) && c.threads >= 1 && 1 <= g.nextId < WORD && Good(c, g)
    ensures Good(c, StepAllocate(c, step, d, g))
  {
    hide CheckFrom, LiveAfter, OwnedFrom, OwnerAfter, CountOp, ChooseAlignment, Mirrors, IsPowerOfTwo, ConfigOk;
    AlignmentsAccepted(c, d.alignPick, d.size);
    var g' := StepAllocate(c, step, d, g);
    var l := g'.live[|g.live|];
    var e := EntryFor(c, |g.out|, step, ALLOCATE, l);
    var m, o := LiveAfter(map[], g.out), OwnerAfter(map[], g.out);
    assert c.domain <= MAPPED by { DomainOk(c); }
    NewId(g, m, o, l.id);
    Emit(c, g.out, e);
    MirrorsAppend(g.live, m, o, l);
  }

  lemma DomainOk(c: Config)
    requires ConfigOk(c)
    ensures c.domain <= MAPPED
  {
  }

  lemma NewId(g: Gen, m: map<u64, u64>, o: map<u64, u32>, id: u64)
    requires Mirrors(g.live, m, o) && PoolFresh(g.live, g.pool, g.nextId)
    requires id == g.nextId || (g.pool != [] && id == g.pool[|g.pool| - 1])
    ensures id !in m
  {
    if g.pool != [] {
      var last := g.pool[|g.pool| - 1];
      assert forall i :: 0 <= i < |g.live| ==> g.live[i].id != last;
    }
  }

  lemma FreeGood(c: Config, step: u64, idx: nat, g: Gen)
    requires ConfigOk(c) && idx < |g.live| && Good(c, g)
    ensures Good(c, StepFree(c, step, idx, g))
  {
    hide CheckFrom, LiveAfter, OwnedFrom, OwnerAfter, CountOp, ConfigOk, IsPowerOfTwo;
    var l := g.live[idx];
    var e := EntryFor(c, |g.out|, step, FREE, l);
    DomainOk(c);
    Emit(c, g.out, e);
    MirrorsRemove(g.live, LiveAfter(map[], g.out), OwnerAfter(map[], g.out), idx);
    PoolReturn(g.live, g.pool, g.nextId, idx);
  }

  lemma PoolReturn(live: seq<Live>, pool: seq<u64>, nextId: nat, idx: nat)
    requires idx < |live| && PoolFresh(live, pool, nextId)
    requires forall i, j :: 0 <= i < j < |live| ==> live[i].id != live[j].id
    ensures PoolFresh(SwapRemove(live, idx), pool + [live[idx].id], nextId)
  {
  }

  lemma ReallocateGood(c: Config, step: u64, d: Draw, g: Gen)
    requires ConfigOk(c) && g.live != [] && Good(c, g)
    ensures Good(c, StepReallocate(c, step, d, g))
  {
    hide CheckFrom, LiveAfter, OwnedFrom, OwnerAfter, CountOp, ChooseAlignment, ConfigOk, IsPowerOfTwo, Mirrors;
    var g' := StepReallocate(c, step, d, g);
    var idx := d.pick % |g.live|;
    var l := g'.live[idx];
    var e := EntryFor(c, |g.out|, step, REALLOCATE, l);
    MirrorsAt(g.live, LiveAfter(map[], g.out), OwnerAfter(map[], g.out), idx);
    AlignmentsAccepted(c, d.alignPick, l.size);
    DomainOk(c);
    Emit(c, g.out, e);
    MirrorsUpdate(g.live, LiveAfter(map[], g.out), OwnerAfter(map[], g.out), idx, l);
  }

  /** After n steps: accepted so far, exactly n entries, at most live_target + 1 live. */
  lemma {:induction false} RunGood(c: Config, oracle: Oracle, n: nat)
    requires ConfigOk(c) && Sane(c) && n < WORD
    ensures var g := GenRun(c, oracle, n);
            Good(c, g) && |g.out| == n && |g.live| <= c.liveTarget + 1 && g.nextId >= 1
    decreases n
  {
    hide Good, ConfigOk, StepAllocate, StepFree, StepReallocate, Victim;
    if n == 0 {
      EmptyGood(c);
    } else {
      RunGood(c, oracle, n - 1);
      var d, g := oracle(n - 1), GenRun(c, oracle, n - 1);
      var op := Action(c, |g.live|, d);
      if op == ALLOCATE { AllocateGood(c, n - 1, d, g); }
      else if op == FREE { FreeGood(c, n - 1, Victim(c, g.live, d), g); }
      else { ReallocateGood(c, n - 1, d, g); }
      StepSizes(c, n - 1, d, g);
    }
  }

  lemma EmptyGood(c: Config)
    ensures Good(c, Gen([], [], 1, []))
  {
  }

  lemma StepSizes(c: Config, step: u64, d: Draw, g: Gen)
    requires Sane(c) && 1 <= g.nextId < WORD && |g.live| <= c.liveTarget + 1
    ensures var g' := GenStep(c, step, d, g);
            |g'.out| == |g.out| + 1 && |g'.live| <= c.liveTarget + 1 && g'.nextId >= 1
  {
    hide ChooseAlignment, Soonest;
  }

  lemma {:induction false} DrainGood(c: Config, g: Gen)
    requires ConfigOk(c) && Good(c, g)
    ensures Good(c, Drain(c, g).(pool := [])) && Drain(c, g).live == []
    decreases |g.live|
  {
    hide CheckFrom, LiveAfter, OwnedFrom, OwnerAfter, CountOp, ConfigOk, IsPowerOfTwo, Good, StepFree;
    ForgetPool(c, g);
    if g.live != [] {
      var last := |g.live| - 1;
      var g0 := g.(pool := []);
      FreeGood(c, c.operations, last, g0);
      var g1 := g.(live := g.live[..last], out := g.out + [EntryFor(c, |g.out|, c.operations, FREE, g.live[last])]);
      DrainStep(c, g0, g1);
      ForgetPool(c, StepFree(c, c.operations, last, g0));
      DrainPool(c, g1);
      DrainGood(c, g1.(pool := []));
    }
  }

  lemma DrainStep(c: Config, g0: Gen, g1: Gen)
    requires g0.live != []
    requires g1.nextId == g0.nextId && g1.live == g0.live[..|g0.live| - 1]
    requires g1.out == g0.out + [EntryFor(c, |g0.out|, c.operations, FREE, g0.live[|g0.live| - 1])]
    ensures StepFree(c, c.operations, |g0.live| - 1, g0).(pool := []) == g1.(pool := [])
  {
    assert SwapRemove(g0.live, |g0.live| - 1) == g0.live[..|g0.live| - 1];
  }

  // The drain neither reads nor writes the id pool.
  lemma {:induction false} DrainPool(c: Config, g: Gen)
    ensures Drain(c, g.(pool := [])) == Drain(c, g).(pool := [])
    decreases |g.live|
  {
    if g.live != [] {
      var last := |g.live| - 1;
      DrainPool(c, g.(live := g.live[..last], out := g.out + [EntryFor(c, |g.out|, c.operations, FREE, g.live[last])]));
    }
  }

  lemma ForgetPool(c: Config, g: Gen)
    requires Good(c, g)
    ensures Good(c, g.(pool := []))
  {
    hide CheckFrom, LiveAfter, OwnedFrom, OwnerAfter, CountOp;
  }

  lemma SanitizeSane(c: Config)
    ensures Sane(Sanitize(c)) && (ConfigOk(c) <==> ConfigOk(Sanitize(c))) && Tuned(Sanitize(c).tuning)
  {
    hide IsPowerOfTwo;
  }

  /** Settings that are in range stay as they are; the others go to the nearest end of their range, except that a
      target of zero means 256 and zero class counts mean 4 and 8. */
  lemma SanitizeMeaning(c: Config)
    ensures var s, t, u := Sanitize(c), Sanitize(c).tuning, c.tuning;
            && s.operations == (if c.operations == 0 then 1 else c.operations)
            && (if c.liveTarget == 0 then (s.liveTarget == 256 && s.operations >= 256)
                                          || (s.liveTarget == s.operations && s.operations < 256)
                else (s.liveTarget == c.liveTarget && c.liveTarget <= s.operations)
                     || (s.liveTarget == s.operations && c.liveTarget > s.operations))
            && (1 <= c.threads <= 4096 ==> s.threads == c.threads)
            && (c.threads == 0 ==> s.threads == 1) && (c.threads > 4096 ==> s.threads == 4096)
            && (u.minSize >= 1 ==> t.minSize == u.minSize) && (u.minSize == 0 ==> t.minSize == 1)
            && (u.minSize <= u.maxSize ==> t.maxSize == u.maxSize)
            && (u.maxSize < u.minSize ==> t.maxSize == t.minSize)
            && (0.0 <= u.reallocFraction <= 0.9 ==> t.reallocFraction == u.reallocFraction)
            && (u.reallocFraction > 0.9 ==> t.reallocFraction == 0.9)
            && (u.reallocFraction < 0.0 ==> t.reallocFraction == 0.0)
            && (0.0 <= u.allocFreeRatio <= 4.0 ==> t.allocFreeRatio == u.allocFreeRatio)
            && (u.allocFreeRatio > 4.0 ==> t.allocFreeRatio == 4.0)
            && (u.allocFreeRatio < 0.0 ==> t.allocFreeRatio == 0.0)
            && (0.0 <= u.burstiness <= 1.0 ==> t.burstiness == u.burstiness)
            && (0.0 <= u.warmup && 0.0 <= u.cooldown && u.warmup + u.cooldown <= 1.0 ==>
                  t.warmup == u.warmup && t.cooldown == u.cooldown)
            && (u.coldClasses > 0 ==> t.coldClasses == u.coldClasses) && (u.coldClasses == 0 ==> t.coldClasses == 4)
            && (u.hotClasses > 0 ==> t.hotClasses == u.hotClasses) && (u.hotClasses == 0 ==> t.hotClasses == 8)
            && s == c.(operations := s.operations, liveTarget := s.liveTarget, threads := s.threads, tuning := t)
  {
  }

  /** Sanitizing again changes nothing, unless both ends of the size range were zero. */
  lemma SanitizeTwice(c: Config)
    ensures Sanitize(Sanitize(c)) == Sanitize(c) <==> !(c.tuning.minSize == 0 && c.tuning.maxSize == 0)
  {
  }

  /** The size range is in order after sanitizing unless both ends were zero: the zero minimum is raised to 1,
      but the maximum is compared with the minimum as it was. */
  lemma SizesOrdered(c: Config)
    ensures var t := Sanitize(c).tuning;
            t.minSize <= t.maxSize <==> !(c.tuning.minSize == 0 && c.tuning.maxSize == 0)
  {
  }

  /** Everything a generated trace satisfies, for every config with legal alignments and
      domain and every sequence of draws. */
  lemma GeneratedTrace(config: Config, oracle: Oracle)
    requires ConfigOk(config)
    ensures var t, c := Generated(config, oracle), Sanitize(config);
            && Valid(t) && WorkerConsistent(t)
            && |t.entries| == c.operations + (if c.releaseToZero then |GenRun(c, oracle, c.operations).live| else 0)
            && (forall i :: 0 <= i < |t.entries| ==> t.entries[i].seqNo == i % WORD)
            && (forall i :: 0 <= i < |t.entries| ==>
                  t.entries[i].op == ALLOCATE || t.entries[i].op == FREE || t.entries[i].op == REALLOCATE)
            && (c.releaseToZero ==> Balanced(t))
            && (c.releaseToZero ==> CountOp(t.entries, ALLOCATE) == CountOp(t.entries, FREE))
  {
    hide CheckFrom, LiveAfter, OwnedFrom, OwnerAfter, CountOp, GenRun, Drain, ConfigOk;
    var c := Sanitize(config);
    SanitizeSane(config);
    RunGood(c, oracle, c.operations);
    var g := GenRun(c, oracle, c.operations);
    if c.releaseToZero {
      DrainGood(c, g);
      DrainGrows(c, g);
      var m := LiveAfter(map[], Drain(c, g).out);
      assert m.Keys == {};
    }
  }

  lemma {:induction false} DrainGrows(c: Config, g: Gen)
    ensures |Drain(c, g).out| == |g.out| + |g.live|
    decreases |g.live|
  {
    if g.live != [] {
      var last := |g.live| - 1;
      DrainGrows(c, g.(live := g.live[..last],
          out := g.out + [EntryFor(c, |g.out|, c.operations, FREE, g.live[last])]));
    }
  }

  // ---- the exact condition on the config ----

  function FirstDraw(pick: nat): Draw
  {
    Draw(0, false, MixAllocate, 0, pick, 0, false, false, 0, 0, false)
  }

  lemma FirstEntry(c: Config, oracle: Oracle, n: nat)
    requires Sane(c) && 1 <= n < WORD
    ensures var out := GenRun(c, oracle, n).out;
            && |out| >= 1 && out[0].op == ALLOCATE && out[0].id == 1 && out[0].domain == c.domain
            && out[0].alignment == ChooseAlignment(c, oracle(0).alignPick, oracle(0).size)
  {
    hide ChooseAlignment, Soonest;
    if n == 1 {
      assert GenRun(c, oracle, 0) == Gen([], [], 1, []);
    } else {
      FirstEntry(c, oracle, n - 1);
    }
  }

  lemma {:induction false} DrainPrefix(c: Config, g: Gen)
    requires g.out != []
    ensures |Drain(c, g).out| >= 1 && Drain(c, g).out[0] == g.out[0]
    decreases |g.live|
  {
    if g.live != [] {
      var last := |g.live| - 1;
      DrainPrefix(c, g.(live := g.live[..last],
          out := g.out + [EntryFor(c, |g.out|, c.operations, FREE, g.live[last])]));
    }
  }

  function FixedOracle(pick: nat): Oracle { k => FirstDraw(pick) }

  lemma PickIndex(c: Config, pick: nat)
    requires c.alignmentDist.FixedSet? && pick < |c.alignments|
    ensures ChooseAlignment(c, pick, 0) == c.alignments[pick]
  {
    ModUnique(pick, |c.alignments|, 0, pick);
  }

  lemma BadHead(es: seq<Entry>)
    requires es != [] && es[0].op == ALLOCATE && (es[0].domain > MAPPED || !AlignmentOk(es[0].alignment))
    ensures CheckFrom(map[], es) != Accepted
  {
  }

  lemma BadConfigRejected(config: Config) returns (pick: nat)
    requires !ConfigOk(config)
    ensures !Valid(Generated(config, FixedOracle(pick)))
  {
    hide AlignmentOk, GenRun, Drain, ChooseAlignment, CheckFrom;
    var c := Sanitize(config);
    SanitizeSane(config);
    pick := 0;
    if c.domain <= MAPPED {
      pick :| 0 <= pick < |c.alignments| && !AlignmentOk(c.alignments[pick]);
      PickIndex(c, pick);
    }
    var oracle := FixedOracle(pick);
    assert oracle(0) == FirstDraw(pick);
    FirstEntry(c, oracle, c.operations);
    DrainPrefix(c, GenRun(c, oracle, c.operations));
    BadHead(Finish(c, oracle).out);
  }

  /** The generator meets the validator for every draw sequence exactly when the config's
      domain is a domain and its fixed alignments are zero or powers of two. */
  lemma GeneratorMeetsValidator(config: Config)
    ensures ConfigOk(config) <==> forall oracle: Oracle :: Valid(Generated(config, oracle))
  {
    hide Generated, ConfigOk, Valid;
    if ConfigOk(config) {
      forall oracle: Oracle ensures Valid(Generated(config, oracle)) { GeneratedTrace(config, oracle); }
    } else {
      var pick := BadConfigRejected(config);
      assert !Valid(Generated(config, FixedOracle(pick)));
    }
  }
}
