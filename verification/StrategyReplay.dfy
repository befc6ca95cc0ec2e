/** Concurrent replay over any of the four allocators: generate, split into worker queues, and run them in any
    interleaving. */
module StrategyReplay {
  import opened AllocTypes
  import opened Traces
  import opened Replay
  import opened ReplaySafety
  import opened StrategyContracts
  import BC = BuddyContract
  import BM = BuddyModel
  import BB = BuddyBlocks
  import FL = FreeListModel
  import FB = FreeListBlocks
  import SG = SegregatedModel
  import SL = SlabModel
  import Bits
  import Requests
  import ReplayBalance
  import Workload

  /** The allocator under test, in its current state. */
  datatype Strategy =
    | OnBuddy(b: BM.Buddy) | OnFreeList(f: FL.FreeList) | OnSegregated(g: SG.Segregated) | OnSlab(l: SL.SlabState)

  ghost predicate Good(a: Strategy)
  {
    match a
    case OnBuddy(b) => BM.Inv(b)
    case OnFreeList(f) => FL.Inv(f)
    case OnSegregated(g) => SG.Inv(g)
    case OnSlab(l) => SL.Inv(l)
  }

  function Regions(a: Strategy): View
  {
    match a
    case OnBuddy(b) => BC.ViewOf(b)
    case OnFreeList(f) => FreeListView(f)
    case OnSegregated(g) => SegregatedView(g)
    case OnSlab(l) => SlabView(l)
  }

  /** What a call gets from its surroundings: memory to grow with, and what stale memory held. */
  datatype Env = Env(mem: Requests.Memory, junk: nat)

  ghost predicate EnvOk(a: Strategy, size: nat, env: Env)
    requires Good(a)
  {
    match a
    case OnBuddy(_) => true
    case OnFreeList(f) => FL.Answers(f, FL.Need(size), env.mem)
    case OnSegregated(g) => SG.Answers(g, SG.Need(size), env.mem)
    case OnSlab(l) => SL.Answers(l, env.mem)
  }

  // ---- the calls ----

  ghost function AllocateOn(a: Strategy, size: nat, alignment: nat, env: Env): (Strategy, Reply)
    requires Good(a)
  {
    match a
    case OnBuddy(b) => var (b', r) := BM.Allocate(b, size, alignment); (OnBuddy(b'), BC.ReplyOf(r))
    case OnFreeList(f) =>
      var (f', r) := FL.Allocate(f, size, alignment, env.mem, env.junk); (OnFreeList(f'), BC.ReplyOf(r))
    case OnSegregated(g) =>
      SG.InvParts(g);
      var (g', r) := SG.Allocate(g, size, alignment, env.mem); (OnSegregated(g'), BC.ReplyOf(r))
    case OnSlab(l) => var (l', r) := SL.Allocate(l, size, alignment, env.mem); (OnSlab(l'), BC.ReplyOf(r))
  }

  function Answer(r: Status): Reply { if r == Status.Ok then Succeeds else Fails }

  /** Free-list frees that would read behind a superblock have no defined outcome. */
  ghost predicate FreeDefined(a: Strategy, h: nat)
    requires Good(a)
  {
    match a
    case OnFreeList(f) => FL.LiveInBlocks(f); FL.Free(f, h).1 != FL.Undefined
    case _ => true
  }

  ghost function FreeOn(a: Strategy, h: nat): (Strategy, Reply)
    requires Good(a)
  {
    match a
    case OnBuddy(b) => var (b', r) := BM.Free(b, h); (OnBuddy(b'), Answer(r))
    case OnFreeList(f) =>
      FL.LiveInBlocks(f);
      var (f', r) := FL.Free(f, h); (OnFreeList(f'), if r == FL.Released then Succeeds else Fails)
    case OnSegregated(g) =>
      SG.InvParts(g);
      var (g', r) := SG.Free(g, h); (OnSegregated(g'), Answer(r))
    case OnSlab(l) => var (l', r) := SL.Free(l, h); (OnSlab(l'), Answer(r))
  }

  /** The buddy and the segregated allocator do not support trim; the free list only counts it. */
  ghost function TrimOn(a: Strategy): (Strategy, Reply)
  {
    match a
    case OnFreeList(f) => (a, Succeeds)
    case OnSlab(l) => (OnSlab(SL.Trim(l)), Succeeds)
    case _ => (a, Fails)
  }

  function ResetOn(a: Strategy): Strategy
  {
    match a
    case OnBuddy(b) => OnBuddy(BM.Reset(b))
    case OnFreeList(f) => OnFreeList(FL.Reset(f))
    case OnSegregated(g) => OnSegregated(SG.Reset(g))
    case OnSlab(l) => OnSlab(SL.Reset(l))
  }

  // ---- the contract ----

  lemma AllocateMeets(a: Strategy, size: nat, alignment: nat, env: Env)
    requires Good(a) && EnvOk(a, size, env)
    ensures var (a', reply) := AllocateOn(a, size, alignment, env);
            Good(a') && Contract(Regions(a), CallAllocate, reply, Regions(a'))
  {
    hide Contract, BM.Inv, BM.Allocate, FL.Allocate, SG.Allocate, SL.Allocate, FL.Geometry, FL.Books, SG.Tiled,
        SG.Binned, SL.Inv,
      FL.Answers, SG.Answers, SL.Answers, BM.Balance, BM.Partition, BM.GrantedWell;
    match a
    case OnBuddy(b) => BM.AllocateKeeps(b, size, alignment); BC.AllocateContract(b, size, alignment);
    case OnFreeList(f) => FreeListAllocate(f, size, alignment, env.mem, env.junk);
    case OnSegregated(g) => SegregatedAllocate(g, size, alignment, env.mem);
    case OnSlab(l) => SlabAllocate(l, size, alignment, env.mem);
  }

  /** A free keeps the contract, and accepts every live handle. */
  lemma FreeMeets(a: Strategy, h: nat)
    requires Good(a) && FreeDefined(a, h)
    ensures var (a', reply) := FreeOn(a, h);
            && Good(a') && Contract(Regions(a), CallFree(h), reply, Regions(a'))
            && (h in Regions(a) ==> !reply.Fails?)
  {
    hide Contract, BM.Inv, FL.Inv, SG.Inv, SL.Inv, BM.Free, FL.Free, SG.Free, SL.Free, BM.Balance, BM.Partition;
    match a
    case OnBuddy(b) => BM.FreeKeeps(b, h); BC.FreeContract(b, h);
    case OnFreeList(f) => FreeListFree(f, h);
    case OnSegregated(g) => SegregatedFree(g, h);
    case OnSlab(l) => SlabFree(l, h);
  }

  lemma TrimMeets(a: Strategy)
    requires Good(a)
    ensures var (a', reply) := TrimOn(a); Good(a') && Contract(Regions(a), CallTrim, reply, Regions(a'))
  {
    hide BM.Inv, FL.Inv, SG.Inv, SL.Inv, SL.Trim;
    match a
    case OnSlab(l) => SlabTrim(l);
    case _ =>
  }

  lemma ResetMeets(a: Strategy)
    requires Good(a)
    ensures Good(ResetOn(a)) && Contract(Regions(a), CallReset, Succeeds, Regions(ResetOn(a)))
  {
    hide BM.Inv, FL.Inv, SG.Inv, SL.Inv;
    match a
    case OnBuddy(b) => BM.ResetKeeps(b);
    case OnFreeList(f) => FL.ResetKeeps(f);
    case OnSegregated(g) => SG.ResetKeeps(g);
    case OnSlab(l) => SL.ResetKeeps(l);
  }

  lemma RegionsApart(a: Strategy)
    requires Good(a)
    ensures RegionsDisjoint(Regions(a))
  {
    hide RegionsDisjoint, BM.Inv, FL.Inv, SG.Inv, SL.Inv;
    match a
    case OnBuddy(b) => BC.ViewDisjoint(b);
    case OnFreeList(f) => FreeListDisjoint(f);
    case OnSegregated(g) => SegregatedDisjoint(g);
    case OnSlab(l) => SlabDisjoint(l);
  }

  // ---- handles ----

  /** The last handle given out; handles count up from 1. */
  function LastId(a: Strategy): nat
  {
    match a
    case OnBuddy(b) => b.nextId
    case OnFreeList(f) => f.nextId
    case OnSegregated(g) => g.nextId
    case OnSlab(l) => l.nextId
  }

  predicate IsId(h: nat, last: nat) { 0 < h <= last }

  function Issued(a: Strategy): set<nat> { set h: nat | h <= LastId(a) && IsId(h, LastId(a)) }

  lemma LiveIssued(a: Strategy)
    requires Good(a)
    ensures Regions(a).Keys <= Issued(a)
  {
    hide FL.Geometry, SG.Tiled, SG.Binned, SL.SlabsOk, SL.Fits, BM.PartitionOf;
    forall h | h in Regions(a) ensures h in Issued(a) {
      assert IsId(h, LastId(a));
    }
  }

  lemma Numbers(a: Strategy, a': Strategy)
    ensures LastId(a) <= LastId(a') ==> Issued(a) <= Issued(a')
    ensures forall h :: h in Issued(a) <==> 0 < h <= LastId(a)
  {
    hide LastId;
    forall h: nat ensures h in Issued(a) <==> 0 < h <= LastId(a) { assert IsId(h, LastId(a)) <==> 0 < h <= LastId(a); }
    forall h | h in Issued(a) && LastId(a) <= LastId(a') ensures h in Issued(a') { assert IsId(h, LastId(a')); }
  }

  lemma FailedIds(a: Strategy, size: nat, alignment: nat, env: Env)
    requires Good(a) && !AllocateOn(a, size, alignment, env).1.Grants?
    ensures LastId(AllocateOn(a, size, alignment, env).0) == LastId(a)
  {
    hide BM.Inv, FL.Geometry, FL.Books, SG.Tiled, SG.Binned, SL.Inv, BM.SearchHit, BM.Grant, FB.FirstFit,
        FL.Serve, FL.Need,
        SG.Search, SG.Probes, SG.Take, SG.Need, SL.FirstFree, SL.AllSlots, SL.Pop, Requests.GrowSize,
            Requests.LegalAlignment,
        BM.OrderFor, Bits.IsPowerOfTwo;
  }

  /** A granted handle is the next number. */
  lemma GrantedIds(a: Strategy, size: nat, alignment: nat, env: Env)
    requires Good(a) && EnvOk(a, size, env) && AllocateOn(a, size, alignment, env).1.Grants?
    ensures AllocateOn(a, size, alignment, env).1.handle == LastId(a) + 1
        == LastId(AllocateOn(a, size, alignment, env).0)
  {
    hide BM.Inv, BM.Allocate, FL.Allocate, SG.Allocate, SL.Allocate, FL.Geometry, FL.Books, SG.Tiled, SG.Binned,
        SL.Inv,
        FL.Answers, SG.Answers, SL.Answers, BM.Balance, BM.Partition, SG.Balance, SG.Refines, SL.Balance, SL.Housed,
            FB.Apart, SG.Apart;
    match a
    case OnBuddy(b) => BM.AllocateKeeps(b, size, alignment);
    case OnFreeList(f) => FL.AllocateKeeps(f, size, alignment, env.mem, env.junk);
    case OnSegregated(g) => SG.AllocateKeeps(g, size, alignment, env.mem);
    case OnSlab(l) => SL.AllocateKeeps(l, size, alignment, env.mem);
  }

  lemma FreeIds(a: Strategy, h: nat)
    requires Good(a)
    ensures LastId(FreeOn(a, h).0) == LastId(a) == LastId(TrimOn(a).0) == LastId(ResetOn(a))
  {
    hide BM.Inv, FL.Inv, SG.Inv, SL.Inv, FL.Coalesce, SL.Kept, SL.Bytes;
  }

  // ---- replay ----

  datatype ASys = ASys(a: Strategy, mem: Memory, workers: seq<Worker>)

  datatype AMove = AMove(worker: nat, env: Env)

  function Abs(s: ASys): Sys { Sys(Regions(s.a), s.mem, s.workers, Issued(s.a)) }

  predicate Frees(w: Worker) { w.pc.Calling? && w.pc.e.op == FREE && w.pc.e.id in w.pending }

  predicate Next(w: Worker, op: Bits.u16) { w.pc == Idle && w.todo != [] && w.todo[0].op == op }

  /** What the allocator answers to the worker's next call. No allocator overrides reallocate, which fails. */
  ghost function Respond(a: Strategy, w: Worker, env: Env): (Strategy, Reply)
    requires Good(a)
  {
    if Next(w, ALLOCATE) then AllocateOn(a, w.todo[0].size, w.todo[0].alignment, env)
    else if Next(w, RESET) then (ResetOn(a), Succeeds)
    else if Next(w, TRIM) then TrimOn(a)
    else if Frees(w) then FreeOn(a, w.pending[w.pc.e.id].handle)
    else (a, Fails)
  }

  /** The call has a defined outcome, and its surroundings answer sensibly. */
  ghost predicate Possible(a: Strategy, w: Worker, env: Env)
    requires Good(a)
  {
    && (Next(w, ALLOCATE) ==> EnvOk(a, w.todo[0].size, env))
    && (Frees(w) ==> FreeDefined(a, w.pending[w.pc.e.id].handle))
  }

  /** A step writes one payload byte, or nothing, or only outside the payloads it may not touch. A reset gives
      all memory up. */
  ghost predicate MemoryMoves(a: Strategy, m: Memory, w: Worker, m': Memory)
  {
    if w.pc.Writing? then
      if w.pc.i < w.pc.region.size then SetByte(m, m', w.pc.region.addr + w.pc.i, PatternByte(w.pc.id, w.pc.i))
      else m' == m
    else if Next(w, RESET) then true
    else if w.pc.Calling? || Next(w, ALLOCATE) || Next(w, TRIM) then
      Spares(if Frees(w) then Regions(a) - {w.pending[w.pc.e.id].handle} else Regions(a), m, m')
    else m' == m
  }

  ghost predicate AStep(s: ASys, move: AMove, s': ASys)
  {
    Good(s.a) ==>
      && move.worker < |s.workers| && CanMove(s.workers[move.worker])
      && (var w := s.workers[move.worker];
          && Possible(s.a, w, move.env)
          && s'.a == Respond(s.a, w, move.env).0
          && MemoryMoves(s.a, s.mem, w, s'.mem)
          && s'.workers == s.workers[move.worker := NextWorker(w, s.mem, Respond(s.a, w, move.env).1)])
  }

  ghost function MoveOf(s: ASys, move: AMove): Move
  {
    Move(move.worker,
        if Good(s.a) && move.worker < |s.workers| then Respond(s.a, s.workers[move.worker], move.env).1 else Fails)
  }

  /** What the reply to a worker's call says about handles. */
  lemma RespondFresh(a: Strategy, w: Worker, env: Env)
    requires Good(a) && Possible(a, w, env)
    ensures var (a', reply) := Respond(a, w, env);
            && Good(a') && LastId(a) <= LastId(a')
            && (Next(w, ALLOCATE) && reply.Grants? ==> reply.handle == LastId(a) + 1 == LastId(a'))
  {
    hide Good, Regions, EnvOk, AllocateOn, FreeOn, TrimOn, ResetOn, Contract, LastId;
    if Next(w, ALLOCATE) {
      var size, alignment: nat := w.todo[0].size, w.todo[0].alignment;
      AllocateMeets(a, size, alignment, env);
      if AllocateOn(a, size, alignment, env).1.Grants? { GrantedIds(a, size, alignment, env); }
      else { FailedIds(a, size, alignment, env); }
    } else {
      TrimMeets(a);
      ResetMeets(a);
      FreeIds(a, 0);
      if Frees(w) {
        FreeMeets(a, w.pending[w.pc.e.id].handle);
        FreeIds(a, w.pending[w.pc.e.id].handle);
      }
    }
  }

  lemma BeginRefines(a: Strategy, m: Memory, w: Worker, env: Env, m': Memory)
    requires Good(a) && w.pc == Idle && w.todo != [] && Possible(a, w, env) && MemoryMoves(a, m, w, m')
    ensures var (a', reply) := Respond(a, w, env);
            Begins(Regions(a), m, w, reply, Regions(a'), m', NextWorker(w, m, reply))
  {
    hide Good, Regions, EnvOk, AllocateOn, FreeOn, TrimOn, ResetOn, Contract, PatternByte;
    var e := w.todo[0];
    if e.op == ALLOCATE { AllocateMeets(a, e.size, e.alignment, env); }
    else if e.op == RESET { ResetMeets(a); }
    else if e.op == TRIM { TrimMeets(a); }
  }

  lemma FinishRefines(a: Strategy, m: Memory, w: Worker, env: Env, m': Memory)
    requires Good(a) && w.pc.Calling? && w.pc.e.id in w.pending && Possible(a, w, env) && MemoryMoves(a, m, w, m')
    ensures var (a', reply) := Respond(a, w, env);
            && Finishes(Regions(a), m, w, reply, Regions(a'), m', NextWorker(w, m, reply))
            && (w.pc.e.op == FREE && w.pending[w.pc.e.id].handle in Regions(a) ==> !reply.Fails?)
  {
    hide Good, Regions, EnvOk, AllocateOn, FreeOn, TrimOn, ResetOn, PatternByte;
    var h := w.pending[w.pc.e.id].handle;
    if w.pc.e.op == FREE {
      FreeMeets(a, h);
      if FreeOn(a, h).1.Fails? { assert Regions(a) - {h} == Regions(a); }
    }
  }

  /** Only an allocation brings a region, under the handle that it grants. */
  lemma NewRegions(v: View, m: Memory, w: Worker, reply: Reply, v': View, m': Memory, w': Worker, h: nat)
    requires WorkerStep(v, m, w, reply, v', m', w') && h in v' && h !in v
    ensures Next(w, ALLOCATE) && reply == Grants(h, reply.region)
  {
    hide PatternByte, Spares, SetByte;
  }

  /** Every step over one of the allocators is a step of the abstract replay. */
  lemma StepRefines(s: ASys, move: AMove, s': ASys)
    requires Good(s.a) && AStep(s, move, s')
    ensures Good(s'.a) && Replay.Step(Abs(s), MoveOf(s, move), Abs(s'))
  {
    hide Good, Regions, AllocateOn, FreeOn, TrimOn, ResetOn, Contract, Spares, SetByte, PatternByte, EnvOk,
        Begins, Finishes, LastId;
    var w, reply := s.workers[move.worker], Respond(s.a, s.workers[move.worker], move.env).1;
    RespondFresh(s.a, w, move.env);
    if w.pc == Idle {
      BeginRefines(s.a, s.mem, w, move.env, s'.mem);
    } else if w.pc.Calling? {
      FinishRefines(s.a, s.mem, w, move.env, s'.mem);
    }
    LiveIssued(s'.a);
    Numbers(s.a, s'.a);
    forall h | h in Regions(s'.a) && h !in Regions(s.a) ensures h !in Issued(s.a) {
      NewRegions(Regions(s.a), s.mem, w, reply, Regions(s'.a), s'.mem, s'.workers[move.worker], h);
    }
  }

  // ---- whole runs ----

  ghost predicate AExecution(states: seq<ASys>, moves: seq<AMove>)
  {
    && |states| == |moves| + 1
    && forall i :: 0 <= i < |moves| ==> AStep(states[i], moves[i], states[i + 1])
  }

  ghost predicate AInitial(s: ASys, streams: seq<seq<Entry>>)
  {
    && Good(s.a) && |s.workers| == |streams|
    && forall w :: 0 <= w < |streams| ==> s.workers[w] == Worker(streams[w], map[], Idle, 0, 0, 0, false)
  }

  ghost function AbsAll(states: seq<ASys>): (r: seq<Sys>)
    ensures |r| == |states| && forall i :: 0 <= i < |states| ==> r[i] == Abs(states[i])
  {
    seq(|states|, i requires 0 <= i < |states| => Abs(states[i]))
  }

  ghost function MovesOf(states: seq<ASys>, moves: seq<AMove>): (r: seq<Move>)
    requires |states| == |moves| + 1
    ensures |r| == |moves| && forall i :: 0 <= i < |moves| ==> r[i] == MoveOf(states[i], moves[i])
  {
    seq(|moves|, i requires 0 <= i < |moves| => MoveOf(states[i], moves[i]))
  }

  lemma {:induction false} GoodThroughout(states: seq<ASys>, moves: seq<AMove>, i: nat)
    requires AExecution(states, moves) && Good(states[0].a) && i < |states|
    ensures Good(states[i].a)
    decreases i
  {
    hide Good, AStep, Replay.Step;
    if i > 0 {
      GoodThroughout(states, moves, i - 1);
      assert AStep(states[i - 1], moves[i - 1], states[i]);
      StepRefines(states[i - 1], moves[i - 1], states[i]);
    }
  }

  lemma ExecutionRefines(states: seq<ASys>, moves: seq<AMove>)
    requires AExecution(states, moves) && Good(states[0].a)
    ensures Execution(AbsAll(states), MovesOf(states, moves))
  {
    hide Good, AStep, Replay.Step, MoveOf, Abs;
    var abs, ms := AbsAll(states), MovesOf(states, moves);
    forall i | 0 <= i < |ms| ensures Replay.Step(abs[i], ms[i], abs[i + 1]) {
      GoodThroughout(states, moves, i);
      assert AStep(states[i], moves[i], states[i + 1]);
      StepRefines(states[i], moves[i], states[i + 1]);
    }
  }

  lemma InitialRefines(s: ASys, streams: seq<seq<Entry>>)
    requires AInitial(s, streams)
    ensures Initial(Abs(s), streams)
  {
    hide Good, Regions, Issued;
    LiveIssued(s.a);
    RegionsApart(s.a);
  }

  /** Over each of the allocators, safe streams never fail a pattern check, whatever the interleaving. */
  lemma Integrity(states: seq<ASys>, moves: seq<AMove>, streams: seq<seq<Entry>>, i: nat)
    requires AExecution(states, moves) && AInitial(states[0], streams) && i < |states| && Safe(streams)
    ensures Good(states[i].a) && |states[i].workers| == |streams| && Shape(Abs(states[i]))
    ensures forall w :: 0 <= w < |streams| ==> !states[i].workers[w].invariantFailed
  {
    hide Good, AStep, Execution, Shape, Safe, Initial;
    GoodThroughout(states, moves, i);
    ExecutionRefines(states, moves);
    InitialRefines(states[0], streams);
    PayloadIntegrity(AbsAll(states), MovesOf(states, moves), streams, i);
  }

  /** Without a reset, what the workers hold stays live. */
  lemma SoundThroughout(states: seq<ASys>, moves: seq<AMove>, streams: seq<seq<Entry>>, i: nat)
    requires AExecution(states, moves) && AInitial(states[0], streams) && i < |states|
    requires forall w :: 0 <= w < |streams| ==> NoReset(streams[w])
    ensures Good(states[i].a) && Sound(Abs(states[i]))
  {
    hide Good, AStep, Execution, Sound, NoReset, Initial;
    GoodThroughout(states, moves, i);
    ExecutionRefines(states, moves);
    InitialRefines(states[0], streams);
    AlwaysSound(AbsAll(states), MovesOf(states, moves), streams, i);
  }

  /** The handles that replay frees are live, so the free is accepted. */
  lemma FreesAccepted(s: ASys, move: AMove, s': ASys)
    requires Good(s.a) && Sound(Abs(s)) && AStep(s, move, s')
    ensures ReplayBalance.FreeAccepted(Abs(s), MoveOf(s, move))
  {
    hide Good, Regions, AllocateOn, FreeOn, TrimOn, ResetOn, PatternByte, EnvOk, SetByte, Finishes;
    var w := s.workers[move.worker];
    if w.pc.Calling? && w.pc.e.op == FREE {
      assert WorkerSound(Abs(s).view, s.mem, Abs(s).workers[move.worker]);
      assert Holds(Regions(s.a), s.mem, w, w.pc.e.id);
      FinishRefines(s.a, s.mem, w, move.env, s'.mem);
    }
  }

  lemma FreesThroughout(states: seq<ASys>, moves: seq<AMove>, streams: seq<seq<Entry>>)
    requires AExecution(states, moves) && AInitial(states[0], streams)
    requires forall w :: 0 <= w < |streams| ==> NoReset(streams[w])
    ensures var abs, ms := AbsAll(states), MovesOf(states, moves);
            forall i :: 0 <= i < |ms| ==> ReplayBalance.FreeAccepted(abs[i], ms[i])
  {
    hide Good, Sound, NoReset, AStep, MoveOf, Abs, ReplayBalance.FreeAccepted;
    forall i | 0 <= i < |moves| ensures ReplayBalance.FreeAccepted(Abs(states[i]), MoveOf(states[i], moves[i])) {
      SoundThroughout(states, moves, streams, i);
      assert AStep(states[i], moves[i], states[i + 1]);
      FreesAccepted(states[i], moves[i], states[i + 1]);
    }
  }

  lemma {:induction false} StreamSubset(es: seq<Entry>, threads: nat, w: nat)
    requires threads > 0
    ensures forall e :: e in Stream(es, threads, w) ==> e in es
    decreases |es|
  {
    if es != [] { StreamSubset(es[1..], threads, w); }
  }

  lemma CleanStream(config: Workload.Config, oracle: Workload.Oracle, threads: nat, w: nat)
    requires Workload.ConfigOk(config) && config.releaseToZero && threads > 0
    ensures var s := Stream(Workload.Generated(config, oracle).entries, threads, w);
            && NoReset(s) && ReplayBalance.NoTrimReset(s)
            && CheckFrom(map[], s) == Accepted && LiveAfter(map[], s) == map[]
  {
    hide Workload.Generated, Workload.ConfigOk, CheckFrom, LiveAfter, Stream;
    Workload.GeneratedTrace(config, oracle);
    var t := Workload.Generated(config, oracle);
    assert Workload.Sanitize(config).releaseToZero;
    WorkerStreamsValid(t, threads, w);
    StreamSubset(t.entries, threads, w);
    var s := Stream(t.entries, threads, w);
    forall i | 0 <= i < |s| ensures s[i].op != RESET && s[i].op != TRIM {
      assert s[i] in s && s[i] in t.entries;
    }
  }

  /** A generated workload, split over any number of threads and replayed in any interleaving over
      any of the four allocators: no pattern check fails, every entry counts once, and at the end
      exactly the regions that were live before are live again. */
  lemma GeneratedReplayClean(
    config: Workload.Config, oracle: Workload.Oracle, threads: nat,
    streams: seq<seq<Entry>>, states: seq<ASys>, moves: seq<AMove>)
    requires Workload.ConfigOk(config) && config.releaseToZero && threads > 0
    requires |streams| == threads
    requires forall w :: 0 <= w < threads ==>
        streams[w] == Stream(Workload.Generated(config, oracle).entries, threads, w)
    requires AExecution(states, moves) && AInitial(states[0], streams)
    requires Finished(Abs(states[|moves|]))
    ensures forall i, w :: 0 <= i < |states| && 0 <= w < threads && w < |states[i].workers| ==>
              !states[i].workers[w].invariantFailed
    ensures |states[|moves|].workers| == threads
    ensures forall w :: 0 <= w < threads ==>
              var u := states[|moves|].workers[w];
              u.successes + u.failures == ReplayBalance.CountMain(streams[w])
    ensures Good(states[|moves|].a) && Regions(states[|moves|].a) == Regions(states[0].a)
  {
    hide Workload.Generated, Workload.ConfigOk, Good, Sound, Execution, AStep, Stream, CheckFrom, LiveAfter, Finished,
      ReplayBalance.CountMain, ReplayBalance.FreeAccepted, Regions, MoveOf;
    forall w | 0 <= w < threads
      ensures NoReset(streams[w]) && ReplayBalance.NoTrimReset(streams[w])
      ensures CheckFrom(map[], streams[w]) == Accepted && LiveAfter(map[], streams[w]) == map[]
    {
      CleanStream(config, oracle, threads, w);
    }
    NoResetSafe(streams);
    forall i | 0 <= i < |states|
      ensures forall w :: 0 <= w < threads && w < |states[i].workers| ==> !states[i].workers[w].invariantFailed
    {
      Integrity(states, moves, streams, i);
    }
    GoodThroughout(states, moves, |moves|);
    ExecutionRefines(states, moves);
    InitialRefines(states[0], streams);
    FreesThroughout(states, moves, streams);
    var abs, ms := AbsAll(states), MovesOf(states, moves);
    ReplayBalance.EveryEntryCounted(abs, ms, streams);
    ReplayBalance.NoLeak(abs, ms, streams);
  }

  /** A slab allocator with nothing live gives every page back when trimmed. */
  lemma IdleSlabTrims(l: SL.SlabState)
    requires SL.Inv(l) && l.live == map[]
    ensures SL.Trim(l).slabs == [] && SL.Trim(l).total == 0
  {
    hide SL.Fits, SL.SlabsOk, Injective, SL.Balance, SL.Slots;
    SL.TrimKeeps(l);
    SL.KeptIs(l.l, l.slabs);
    var kept := SL.Trim(l).slabs;
    FirstIn(kept);
  }

  lemma FirstIn(slabs: seq<SL.Slab>)
    ensures slabs == [] || slabs[0] in slabs
  {
  }

  /** Started on an idle slab allocator, such a replay followed by a trim leaves no page behind. */
  lemma GeneratedReplayReturnsPages(
    config: Workload.Config, oracle: Workload.Oracle, threads: nat,
    streams: seq<seq<Entry>>, states: seq<ASys>, moves: seq<AMove>)
    requires Workload.ConfigOk(config) && config.releaseToZero && threads > 0
    requires |streams| == threads
    requires forall w :: 0 <= w < threads ==>
        streams[w] == Stream(Workload.Generated(config, oracle).entries, threads, w)
    requires AExecution(states, moves) && AInitial(states[0], streams)
    requires Regions(states[0].a) == map[] && states[|moves|].a.OnSlab?
    requires Finished(Abs(states[|moves|]))
    ensures SL.Trim(states[|moves|].a.l).slabs == [] && SL.Trim(states[|moves|].a.l).total == 0
  {
    hide Workload.Generated, Workload.ConfigOk, SL.Inv, AStep, AInitial, Stream, Finished, SL.Trim;
    GeneratedReplayClean(config, oracle, threads, streams, states, moves);
    var l := states[|moves|].a.l;
    assert SlabView(l).Keys == l.live.Keys == {};
    IdleSlabTrims(l);
  }

  // ---- the buddy arena ----

  ghost predicate Whole(a: Strategy) { a.OnBuddy? && BM.Partition(a.b) && a.b.arena }

  /** A buddy with an arena keeps it partitioned. */
  lemma StepWhole(s: ASys, move: AMove, s': ASys)
    requires Good(s.a) && Whole(s.a) && AStep(s, move, s')
    ensures Whole(s'.a)
  {
    hide BM.Inv, BM.Partition, BM.Allocate, BM.Free, BM.Reset, BM.Balance, BM.GrantedWell, MemoryMoves,
        NextWorker, Possible;
    var w, b := s.workers[move.worker], s.a.b;
    if Next(w, ALLOCATE) {
      BM.AllocateKeeps(b, w.todo[0].size, w.todo[0].alignment);
      SameArena(b, w.todo[0].size, w.todo[0].alignment, 0);
    } else if Next(w, RESET) {
      BM.ResetKeeps(b);
      SameArena(b, 0, 0, 0);
    } else if Frees(w) {
      BM.FreeKeeps(b, w.pending[w.pc.e.id].handle);
      SameArena(b, 0, 0, w.pending[w.pc.e.id].handle);
    }
  }

  lemma SameArena(b: BM.Buddy, size: nat, alignment: nat, h: nat)
    ensures BM.Allocate(b, size, alignment).0.arena == b.arena
    ensures BM.Free(b, h).0.arena == b.arena == BM.Reset(b).arena
  {
    hide BM.OrderFor, Bits.IsPowerOfTwo, BB.SplitDown, BM.Pick, BB.Coalesce, BB.Merges;
  }

  lemma {:induction false} WholeThroughout(states: seq<ASys>, moves: seq<AMove>, i: nat)
    requires AExecution(states, moves) && Good(states[0].a) && Whole(states[0].a) && i < |states|
    ensures Whole(states[i].a)
    decreases i
  {
    hide Good, Whole, AStep;
    if i > 0 {
      WholeThroughout(states, moves, i - 1);
      GoodThroughout(states, moves, i - 1);
      assert AStep(states[i - 1], moves[i - 1], states[i]);
      StepWhole(states[i - 1], moves[i - 1], states[i]);
    }
  }

  /** Started on an idle buddy allocator, the replay ends with the arena in one free block. */
  lemma GeneratedReplayRestoresArena(
    config: Workload.Config, oracle: Workload.Oracle, threads: nat,
    streams: seq<seq<Entry>>, states: seq<ASys>, moves: seq<AMove>)
    requires Workload.ConfigOk(config) && config.releaseToZero && threads > 0
    requires |streams| == threads
    requires forall w :: 0 <= w < threads ==>
        streams[w] == Stream(Workload.Generated(config, oracle).entries, threads, w)
    requires AExecution(states, moves) && AInitial(states[0], streams)
    requires Whole(states[0].a) && states[0].a.b.live == map[]
    requires Finished(Abs(states[|moves|]))
    ensures states[|moves|].a.OnBuddy? && states[|moves|].a.b.live == map[]
    ensures states[|moves|].a.b.free == {BB.Blk(0, states[|moves|].a.b.max)}
  {
    hide Workload.Generated, Workload.ConfigOk, BM.Inv, BM.Partition, AStep, Stream, Finished, BC.Payload;
    GeneratedReplayClean(config, oracle, threads, streams, states, moves);
    WholeThroughout(states, moves, |moves|);
    var b := states[|moves|].a.b;
    assert BC.ViewOf(b).Keys == b.live.Keys == {};
    BM.IdleIsWhole(b);
  }

  // ---- progress ----

  /** A worker that is not finished can move, unless its call is a free that would read behind a free-list
      superblock. */
  lemma StrategyProgress(s: ASys, k: nat) returns (move: AMove, s': ASys)
    requires Good(s.a) && Shape(Abs(s)) && k < |s.workers| && !Done(s.workers[k])
    requires Frees(s.workers[k]) ==> FreeDefined(s.a, s.workers[k].pending[s.workers[k].pc.e.id].handle)
    ensures move.worker == k && AStep(s, move, s')
  {
    hide PatternByte, Good, Regions, Shape, AllocateOn, FreeOn, TrimOn, ResetOn, FreeDefined, EnvOk, Issued;
    var w := s.workers[k];
    ShapeMoves(Abs(s), k);
    var m := s.mem;
    if w.pc.Writing? && w.pc.i < w.pc.region.size {
      m := (x: nat) => if x == w.pc.region.addr + w.pc.i then PatternByte(w.pc.id, w.pc.i) else s.mem(x);
    }
    move := AMove(k, Env(Requests.NoMemory, 0));
    if Next(w, ALLOCATE) { NoMemoryOk(s.a, w.todo[0].size, 0); }
    var (a', reply) := Respond(s.a, w, move.env);
    s' := ASys(a', m, s.workers[k := NextWorker(w, s.mem, reply)]);
  }

  lemma NoMemoryOk(a: Strategy, size: nat, junk: nat)
    requires Good(a)
    ensures EnvOk(a, size, Env(Requests.NoMemory, junk))
  {
    hide FL.Geometry, FL.Books, SG.Tiled, SG.Binned, SL.Inv, BM.Inv, FL.Need, SG.Need;
  }
}
