/** Concurrent replay (experiment.cpp): worker streams run apply_entry against one shared
    allocator. Every allocator call is one atomic step and every payload byte is written or
    checked in a step of its own, so the theorems cover all interleavings. */
module Replay {
  import opened Bits
  import opened Traces

  // ---- payload patterns ----

  function PatternState(id: nat, i: nat): u64
  {
    if i == 0 then (id * 0x9E3779B97F4A7C15 + 0x12345678) % WORD
    else (PatternState(id, i - 1) * 6364136223846793005 + 1442695040888963407) % WORD
  }

  /** The i-th byte that write_pattern stores for a trace id: the top byte of the state. */
  function PatternByte(id: nat, i: nat): byte
  {
    PatternState(id, i + 1) / 0x100_0000_0000_0000
  }

  // ---- the allocator as seen by replay ----

  datatype Region = Region(addr: nat, size: nat)
  {
    predicate Covers(x: int) { addr <= x < addr + size }
    predicate Disjoint(r: Region) { addr + size <= r.addr || r.addr + r.size <= addr }
  }

  // The payload regions of the live handles.
  type View = map<nat, Region>

  datatype Call = CallAllocate | CallFree(handle: nat) | CallReallocate(handle: nat) | CallTrim | CallReset
  datatype Reply = Fails | Succeeds | Grants(handle: nat, region: Region)

  ghost predicate RegionsDisjoint(v: View)
  {
    forall g, h {:trigger v[g], v[h]} :: g in v && h in v && g != h ==> v[g].Disjoint(v[h])
  }

  /** The strategy contract of allocator.hpp: a failing call changes nothing; a granted region
      is new and disjoint from the others; a successful reallocation keeps its handle. */
  ghost predicate Contract(v: View, call: Call, reply: Reply, v': View)
  {
    if reply.Fails? then v' == v
    else match call
      case CallAllocate =>
        && reply.Grants? && reply.handle !in v && v' == v[reply.handle := reply.region]
        && (forall h :: h in v ==> v[h].Disjoint(reply.region))
      case CallFree(h) => reply.Succeeds? && h in v && v' == v - {h}
      case CallReallocate(h) =>
        && reply.Grants? && reply.handle == h && h in v && v' == v[h := reply.region]
        && (forall g :: g in v && g != h ==> v[g].Disjoint(reply.region))
      case CallTrim => reply.Succeeds? && v' == v
      case CallReset => reply.Succeeds? && v' == map[]
  }

  type Memory = nat -> byte

  /** The payload bytes of every region in v are the same in m and m'. */
  ghost predicate Spares(v: View, m: Memory, m': Memory)
  {
    forall h, x: nat {:trigger v[h].Covers(x)} :: h in v && v[h].Covers(x) ==> m'(x) == m(x)
  }

  // The regions that a call must leave alone. After a reset their memory may be gone.
  function Bystanders(v: View, call: Call): View
  {
    match call
    case CallFree(h) => v - {h}
    case CallReallocate(h) => v - {h}
    case CallReset => map[]
    case _ => v
  }

  ghost predicate Calls(v: View, m: Memory, call: Call, reply: Reply, v': View, m': Memory)
  {
    && Contract(v, call, reply, v')
    && Spares(Bystanders(v, call), m, m')
    && (reply.Fails? ==> Spares(v, m, m'))
  }

  // ---- workers ----

  datatype Pending = Pending(handle: nat, region: Region)

  // Where a worker stands inside apply_entry.
  datatype Pc =
    | Idle
    | Writing(id: u64, region: Region, i: nat)
    | Verifying(e: Entry, i: nat)
    | Calling(e: Entry)

  /** StreamState, the rest of the stream, and the program counter. */
  datatype Worker = Worker(
    todo: seq<Entry>, pending: map<u64, Pending>, pc: Pc,
    ops: nat, successes: nat, failures: nat, invariantFailed: bool)

  /** `used` covers every handle that was ever given out. */
  datatype Sys = Sys(view: View, mem: Memory, workers: seq<Worker>, used: set<nat>)

  function AfterAllocate(w: Worker, e: Entry, reply: Reply): Worker
  {
    if reply.Grants? then
      w.(pending := w.pending[e.id := Pending(reply.handle, reply.region)],
         successes := w.successes + 1, pc := Writing(e.id, reply.region, 0))
    else w.(failures := w.failures + 1)
  }

  // The entry leaves the table whether or not the allocator accepts the free.
  function AfterFree(w: Worker, e: Entry, reply: Reply): Worker
  {
    var w1 := if reply.Fails? then w.(failures := w.failures + 1) else w.(successes := w.successes + 1);
    w1.(pending := w.pending - {e.id}, pc := Idle)
  }

  function AfterReallocate(w: Worker, e: Entry, reply: Reply): Worker
    requires e.id in w.pending
  {
    if reply.Grants? then
      w.(pending := w.pending[e.id := Pending(w.pending[e.id].handle, reply.region)],
         successes := w.successes + 1, pc := Writing(e.id, reply.region, 0))
    else w.(failures := w.failures + 1, pc := Idle)
  }

  ghost predicate SetByte(m: Memory, m': Memory, a: nat, b: byte)
  {
    forall x {:trigger m'(x)} :: m'(x) == if x == a then b else m(x)
  }

  /** Take the next entry: allocate at once, or prepare the check before a free or reallocate. */
  ghost predicate Begins(v: View, m: Memory, w: Worker, reply: Reply, v': View, m': Memory, w': Worker)
    requires w.todo != []
  {
    var e := w.todo[0];
    var w1 := w.(todo := w.todo[1..], ops := w.ops + 1);
    if e.op == ALLOCATE then
      Calls(v, m, CallAllocate, reply, v', m') && w' == AfterAllocate(w1, e, reply)
    else if e.op == FREE || e.op == REALLOCATE then
      && v' == v && m' == m
      && w' == if e.id !in w.pending then w1.(failures := w.failures + 1)
               else if e.op == FREE && e.size == 0 then w1.(pc := Calling(e))
               else w1.(pc := Verifying(e, 0))
    else if e.op == TRIM || e.op == RESET then
      && Calls(v, m, if e.op == TRIM then CallTrim else CallReset, reply, v', m')
      && w' == if reply.Fails? then w1.(failures := w.failures + 1) else w1
    else v' == v && m' == m && w' == w1
  }

  ghost predicate Writes(v: View, m: Memory, w: Worker, v': View, m': Memory, w': Worker)
    requires w.pc.Writing?
  {
    var r, i := w.pc.region, w.pc.i;
    && v' == v
    && if i < r.size then SetByte(m, m', r.addr + i, PatternByte(w.pc.id, i))
        && w' == w.(pc := Writing(w.pc.id, r, i + 1))
       else m' == m && w' == w.(pc := Idle)
  }

  ghost predicate Verifies(v: View, m: Memory, w: Worker, v': View, m': Memory, w': Worker)
    requires w.pc.Verifying? && w.pc.e.id in w.pending
  {
    var r, e, i := w.pending[w.pc.e.id].region, w.pc.e, w.pc.i;
    && v' == v && m' == m
    && w' == if i >= r.size then w.(pc := Calling(e))
             else if m(r.addr + i) != PatternByte(e.id, i) then w.(pc := Calling(e), invariantFailed := true)
             else w.(pc := Verifying(e, i + 1))
  }

  ghost predicate Finishes(v: View, m: Memory, w: Worker, reply: Reply, v': View, m': Memory, w': Worker)
    requires w.pc.Calling? && w.pc.e.id in w.pending
  {
    var e := w.pc.e;
    var h := w.pending[e.id].handle;
    if e.op == FREE then Calls(v, m, CallFree(h), reply, v', m') && w' == AfterFree(w, e, reply)
    else Calls(v, m, CallReallocate(h), reply, v', m') && w' == AfterReallocate(w, e, reply)
  }

  ghost predicate WorkerStep(v: View, m: Memory, w: Worker, reply: Reply, v': View, m': Memory, w': Worker)
  {
    match w.pc
    case Idle => w.todo != [] && Begins(v, m, w, reply, v', m', w')
    case Writing(_, _, _) => Writes(v, m, w, v', m', w')
    case Verifying(e, _) => e.id in w.pending && Verifies(v, m, w, v', m', w')
    case Calling(e) => e.id in w.pending && Finishes(v, m, w, reply, v', m', w')
  }

  datatype Move = Move(worker: nat, reply: Reply)

  /** Handles are not given out twice, so a stale handle never comes to mean another allocation. */
  ghost predicate Fresh(v: View, used: set<nat>, v': View, used': set<nat>)
  {
    && used <= used' && v'.Keys <= used'
    && forall h :: h in v' && h !in v ==> h !in used
  }

  /** One step of one worker; the others stand still. */
  ghost predicate Step(s: Sys, move: Move, s': Sys)
  {
    && Fresh(s.view, s.used, s'.view, s'.used)
    && move.worker < |s.workers| && |s'.workers| == |s.workers|
    && WorkerStep(s.view, s.mem, s.workers[move.worker], move.reply, s'.view, s'.mem, s'.workers[move.worker])
    && s'.workers == s.workers[move.worker := s'.workers[move.worker]]
  }

  ghost predicate Execution(states: seq<Sys>, moves: seq<Move>)
  {
    && |states| == |moves| + 1
    && forall i :: 0 <= i < |moves| ==> Step(states[i], moves[i], states[i + 1])
  }

  /** All streams at their start, over an allocator that may already hold live regions. */
  ghost predicate Initial(s: Sys, streams: seq<seq<Entry>>)
  {
    && RegionsDisjoint(s.view) && s.view.Keys <= s.used && |s.workers| == |streams|
    && forall w :: 0 <= w < |streams| ==> s.workers[w] == Worker(streams[w], map[], Idle, 0, 0, 0, false)
  }

  predicate Done(w: Worker) { w.todo == [] && w.pc == Idle }

  predicate Finished(s: Sys) { forall w :: 0 <= w < |s.workers| ==> Done(s.workers[w]) }

  // ---- what every run keeps ----

  /** A table entry's handle was given out; while it is live, its region is the recorded one. */
  predicate Known(v: View, used: set<nat>, p: Pending)
  {
    p.handle in used && (p.handle in v ==> v[p.handle] == p.region)
  }

  ghost predicate WorkerShape(v: View, used: set<nat>, w: Worker)
  {
    && (w.pc.Writing? ==>
        w.pc.id in w.pending && w.pending[w.pc.id].region == w.pc.region && w.pc.i <= w.pc.region.size)
    && (w.pc.Verifying? ==> w.pc.e.id in w.pending)
    && (w.pc.Calling? ==> w.pc.e.id in w.pending)
    && (forall id {:trigger w.pending[id]} :: id in w.pending ==> Known(v, used, w.pending[id]))
    && (forall i, j {:trigger w.pending[i], w.pending[j]} ::
          i in w.pending && j in w.pending && i != j ==> w.pending[i].handle != w.pending[j].handle)
  }

  ghost predicate Apart(w: Worker, u: Worker)
  {
    forall i, j {:trigger w.pending[i], u.pending[j]} ::
      i in w.pending && j in u.pending ==> w.pending[i].handle != u.pending[j].handle
  }

  /** Live regions are disjoint, the tables agree with them, and no two table entries share a handle. */
  ghost predicate Shape(s: Sys)
  {
    && RegionsDisjoint(s.view) && s.view.Keys <= s.used
    && (forall w :: 0 <= w < |s.workers| ==> WorkerShape(s.view, s.used, s.workers[w]))
    && (forall w, u :: 0 <= w < |s.workers| && 0 <= u < |s.workers| && w != u ==>
          Apart(s.workers[w], s.workers[u]))
  }

  ghost predicate Mine(w: Worker, h: nat)
  {
    exists id :: id in w.pending && w.pending[id].handle == h
  }

  /** A worker's step changes no region of another that stays live; what it holds afterwards it held
      before, or is new. */
  ghost predicate Effect(v: View, used: set<nat>, w: Worker, v': View, w': Worker)
  {
    && RegionsDisjoint(v')
    && (forall h {:trigger v'[h]} :: h in v' && h in v && !Mine(w, h) ==> v'[h] == v[h])
    && (forall id {:trigger w'.pending[id]} :: id in w'.pending ==>
          Mine(w, w'.pending[id].handle) || w'.pending[id].handle !in used)
  }

  /** Every call that meets the contract keeps the live regions disjoint. */
  lemma StayDisjoint(v: View, call: Call, reply: Reply, v': View)
    requires RegionsDisjoint(v) && Contract(v, call, reply, v')
    ensures RegionsDisjoint(v')
  {
    forall g, h | g in v' && h in v' && g != h ensures v'[g].Disjoint(v'[h]) {
      assert g in v && h in v ==> v[g].Disjoint(v[h]);
    }
  }

  lemma AllocateShape(v: View, m: Memory, used: set<nat>, w: Worker, e: Entry, reply: Reply, v': View, m': Memory,
                      used': set<nat>)
    requires RegionsDisjoint(v) && v.Keys <= used && WorkerShape(v, used, w) && w.pc == Idle
    requires Calls(v, m, CallAllocate, reply, v', m') && Fresh(v, used, v', used')
    ensures var w' := AfterAllocate(w, e, reply);
            WorkerShape(v', used', w') && Effect(v, used, w, v', w')
  {
    hide PatternByte, RegionsDisjoint, Spares;
    var w' := AfterAllocate(w, e, reply);
    StayDisjoint(v, CallAllocate, reply, v');
    forall id | id in w'.pending
      ensures Known(v', used', w'.pending[id])
      ensures Mine(w, w'.pending[id].handle) || w'.pending[id].handle !in used
    {
      assert id in w.pending && w'.pending[id] == w.pending[id] ==> Known(v, used, w.pending[id]);
    }
  }

  /** The table stays, and regions at most go. */
  lemma SameTable(v: View, used: set<nat>, w: Worker, v': View, used': set<nat>, w': Worker)
    requires WorkerShape(v, used, w) && w.pc == Idle && w'.pending == w.pending && !w'.pc.Writing?
    requires w'.pc.Verifying? ==> w'.pc.e.id in w.pending
    requires w'.pc.Calling? ==> w'.pc.e.id in w.pending
    requires used <= used' && RegionsDisjoint(v') && forall h :: h in v' ==> h in v && v'[h] == v[h]
    ensures WorkerShape(v', used', w') && Effect(v, used, w, v', w')
  {
    hide RegionsDisjoint;
    forall id | id in w'.pending ensures Known(v', used', w'.pending[id]) && Mine(w, w'.pending[id].handle) {
      assert Known(v, used, w.pending[id]);
    }
  }

  lemma BeginShape(v: View, m: Memory, used: set<nat>, w: Worker, reply: Reply, v': View, m': Memory,
                   used': set<nat>, w': Worker)
    requires RegionsDisjoint(v) && v.Keys <= used && WorkerShape(v, used, w) && w.pc == Idle && w.todo != []
    requires Begins(v, m, w, reply, v', m', w') && Fresh(v, used, v', used')
    ensures WorkerShape(v', used', w') && Effect(v, used, w, v', w')
  {
    hide PatternByte, RegionsDisjoint, Spares, WorkerShape, Effect;
    var e := w.todo[0];
    var w1 := w.(todo := w.todo[1..], ops := w.ops + 1);
    SameTable(v, used, w, v, used, w1);
    if e.op == ALLOCATE {
      AllocateShape(v, m, used, w1, e, reply, v', m', used');
      EffectShift(v, used, w, w1, v', w');
    } else {
      if e.op == TRIM { StayDisjoint(v, CallTrim, reply, v'); }
      if e.op == RESET { StayDisjoint(v, CallReset, reply, v'); }
      SameTable(v, used, w, v', used', w');
    }
  }

  lemma EffectShift(v: View, used: set<nat>, w: Worker, w1: Worker, v': View, w': Worker)
    requires w1.pending == w.pending && Effect(v, used, w1, v', w')
    ensures Effect(v, used, w, v', w')
  {
    assert forall h :: Mine(w, h) <==> Mine(w1, h);
  }

  lemma FinishShape(v: View, m: Memory, used: set<nat>, w: Worker, reply: Reply, v': View, m': Memory,
                    used': set<nat>, w': Worker)
    requires RegionsDisjoint(v) && v.Keys <= used && WorkerShape(v, used, w) && w.pc.Calling?
    requires Finishes(v, m, w, reply, v', m', w') && Fresh(v, used, v', used')
    ensures WorkerShape(v', used', w') && Effect(v, used, w, v', w')
  {
    hide PatternByte, RegionsDisjoint, Spares;
    var e := w.pc.e;
    var h := w.pending[e.id].handle;
    assert Mine(w, h);
    StayDisjoint(v, if e.op == FREE then CallFree(h) else CallReallocate(h), reply, v');
    forall id | id in w'.pending
      ensures Known(v', used', w'.pending[id]) && Mine(w, w'.pending[id].handle)
    {
      assert Known(v, used, w.pending[id]);
      assert w'.pending[id].handle == w.pending[id].handle;
      assert id != e.id ==> w.pending[id].handle != h;
    }
    forall i, j | i in w'.pending && j in w'.pending && i != j
      ensures w'.pending[i].handle != w'.pending[j].handle
    {
      assert w.pending[i].handle != w.pending[j].handle;
    }
  }

  /** What a worker's own step keeps and does. */
  lemma ActShape(v: View, m: Memory, used: set<nat>, w: Worker, reply: Reply, v': View, m': Memory,
                 used': set<nat>, w': Worker)
    requires RegionsDisjoint(v) && v.Keys <= used && WorkerShape(v, used, w)
    requires WorkerStep(v, m, w, reply, v', m', w') && Fresh(v, used, v', used')
    ensures WorkerShape(v', used', w') && Effect(v, used, w, v', w')
  {
    hide PatternByte, RegionsDisjoint, Begins, Finishes, SetByte;
    if w.pc == Idle {
      BeginShape(v, m, used, w, reply, v', m', used', w');
    } else if w.pc.Calling? {
      FinishShape(v, m, used, w, reply, v', m', used', w');
    } else {
      forall id | id in w'.pending ensures Known(v', used', w'.pending[id]) && Mine(w, w'.pending[id].handle) {
        assert Known(v, used, w.pending[id]);
      }
    }
  }

  lemma OthersShape(v: View, used: set<nat>, w: Worker, v': View, used': set<nat>, w': Worker, u: Worker)
    requires Effect(v, used, w, v', w') && Fresh(v, used, v', used')
    requires WorkerShape(v, used, u) && Apart(w, u) && Apart(u, w)
    ensures WorkerShape(v', used', u) && Apart(w', u) && Apart(u, w')
  {
    forall id | id in u.pending ensures Known(v', used', u.pending[id]) && !Mine(w, u.pending[id].handle) {
      assert Known(v, used, u.pending[id]);
    }
  }

  /** Every step of every worker keeps the shape. */
  lemma StepShape(s: Sys, move: Move, s': Sys)
    requires Shape(s) && Step(s, move, s')
    ensures Shape(s') && s'.view.Keys <= s'.used
    ensures Effect(s.view, s.used, s.workers[move.worker], s'.view, s'.workers[move.worker])
  {
    hide WorkerShape, WorkerStep, RegionsDisjoint, Apart;
    var k := move.worker;
    var w, w' := s.workers[k], s'.workers[k];
    ActShape(s.view, s.mem, s.used, w, move.reply, s'.view, s'.mem, s'.used, w');
    EffectDisjoint(s.view, s.used, w, s'.view, w');
    forall u | 0 <= u < |s.workers| && u != k
      ensures WorkerShape(s'.view, s'.used, s'.workers[u]) && Apart(w', s'.workers[u]) && Apart(s'.workers[u], w')
    {
      assert s'.workers[u] == s.workers[u];
      OthersShape(s.view, s.used, w, s'.view, s'.used, w', s.workers[u]);
    }
    forall a, b | 0 <= a < |s'.workers| && 0 <= b < |s'.workers| && a != b
      ensures Apart(s'.workers[a], s'.workers[b])
    {
      assert a != k ==> s'.workers[a] == s.workers[a];
      assert b != k ==> s'.workers[b] == s.workers[b];
    }
  }

  lemma EffectDisjoint(v: View, used: set<nat>, w: Worker, v': View, w': Worker)
    requires Effect(v, used, w, v', w')
    ensures RegionsDisjoint(v')
  {
  }

  // ---- who keeps whose bytes ----

  // How many leading bytes of the region of `id` hold the pattern.
  function Written(w: Worker, id: u64): nat
    requires id in w.pending
  {
    if w.pc.Writing? && w.pc.id == id then w.pc.i else w.pending[id].region.size
  }

  /** The entry is live and its region holds the pattern, as far as it is written. */
  ghost predicate Holds(v: View, m: Memory, w: Worker, id: u64)
    requires id in w.pending
  {
    var p := w.pending[id];
    && p.handle in v && v[p.handle] == p.region && Written(w, id) <= p.region.size
    && forall k: nat {:trigger PatternByte(id, k)} :: k < Written(w, id) ==>
         m(p.region.addr + k) == PatternByte(id, k)
  }

  predicate Resets(w: Worker) { w.pc == Idle && w.todo != [] && w.todo[0].op == RESET }

  /** Writing a pattern into a region that a reset has taken away meanwhile. */
  predicate Stale(v: View, w: Worker)
  {
    w.pc.Writing? && w.pc.id in w.pending && w.pending[w.pc.id].handle !in v
  }

  lemma KeptBytes(v: View, m: Memory, call: Call, reply: Reply, v': View, m': Memory, g: nat)
    requires Calls(v, m, call, reply, v', m') && g in v && !call.CallReset?
    requires call.CallFree? || call.CallReallocate? ==> g != call.handle || reply.Fails?
    ensures g in v' && v'[g] == v[g] && forall x: nat :: v[g].Covers(x) ==> m'(x) == m(x)
  {
    var b := Bystanders(v, call);
    forall x: nat | v[g].Covers(x) ensures m'(x) == m(x) {
      if !reply.Fails? { assert g in b && b[g].Covers(x); }
    }
  }

  /** A step that neither resets nor writes stale bytes leaves the regions of others alone. */
  lemma Bystander(v: View, m: Memory, used: set<nat>, w: Worker, reply: Reply, v': View, m': Memory, w': Worker,
      h: nat)
    requires RegionsDisjoint(v) && WorkerShape(v, used, w) && WorkerStep(v, m, w, reply, v', m', w')
    requires !Resets(w) && !Stale(v, w) && h in v && !Mine(w, h)
    ensures h in v' && v'[h] == v[h] && forall x: nat :: v[h].Covers(x) ==> m'(x) == m(x)
  {
    hide PatternByte, Spares;
    if w.pc == Idle {
      if w.todo[0].op == ALLOCATE { KeptBytes(v, m, CallAllocate, reply, v', m', h); }
      if w.todo[0].op == TRIM { KeptBytes(v, m, CallTrim, reply, v', m', h); }
    } else if w.pc.Calling? {
      var g := w.pending[w.pc.e.id].handle;
      assert Mine(w, g);
      KeptBytes(v, m, if w.pc.e.op == FREE then CallFree(g) else CallReallocate(g), reply, v', m', h);
    } else if w.pc.Writing? {
      var g := w.pending[w.pc.id].handle;
      assert Mine(w, g) && Known(v, used, w.pending[w.pc.id]);
      assert v[h].Disjoint(v[g]);
    }
  }

  /** A held region whose view entry and bytes are kept still holds its pattern. */
  lemma SameHolds(v: View, m: Memory, w: Worker, v': View, m': Memory, w': Worker, id: u64)
    requires id in w.pending && id in w'.pending && w'.pending[id] == w.pending[id]
    requires Holds(v, m, w, id) && Written(w', id) <= Written(w, id)
    requires var h := w.pending[id].handle;
             h in v' && v'[h] == v[h] && forall x: nat :: v[h].Covers(x) ==> m'(x) == m(x)
    ensures Holds(v', m', w', id)
  {
    hide PatternByte;
    var r := w.pending[id].region;
    forall k: nat | k < Written(w', id) ensures m'(r.addr + k) == PatternByte(id, k) {
      assert m(r.addr + k) == PatternByte(id, k);
      assert r.Covers(r.addr + k);
    }
  }

  /** ... and their patterns. */
  lemma OthersHold(v: View, m: Memory, used: set<nat>, w: Worker, reply: Reply, v': View, m': Memory, w': Worker,
                   u: Worker, id: u64)
    requires RegionsDisjoint(v) && WorkerShape(v, used, w) && WorkerStep(v, m, w, reply, v', m', w')
    requires !Resets(w) && !Stale(v, w) && Apart(w, u) && id in u.pending && Holds(v, m, u, id)
    ensures Holds(v', m', u, id)
  {
    hide PatternByte, WorkerShape, WorkerStep, RegionsDisjoint;
    Bystander(v, m, used, w, reply, v', m', w', u.pending[id].handle);
    SameHolds(v, m, u, v', m', u, id);
  }

  /** A table entry that the step leaves as it was. */
  predicate Kept(w: Worker, w': Worker, id: u64)
  {
    id in w.pending && id in w'.pending && w'.pending[id] == w.pending[id]
  }

  lemma AllocateHolds(v: View, m: Memory, w: Worker, e: Entry, reply: Reply, v': View, m': Memory, id: u64)
    requires w.pc == Idle && Calls(v, m, CallAllocate, reply, v', m') && id in AfterAllocate(w, e, reply).pending
    ensures Kept(w, AfterAllocate(w, e, reply), id) && Holds(v, m, w, id) ==>
              Holds(v', m', AfterAllocate(w, e, reply), id)
    ensures !Kept(w, AfterAllocate(w, e, reply), id) ==> Holds(v', m', AfterAllocate(w, e, reply), id)
  {
    hide PatternByte, Spares, Contract;
    var w' := AfterAllocate(w, e, reply);
    if Kept(w, w', id) && Holds(v, m, w, id) {
      KeptBytes(v, m, CallAllocate, reply, v', m', w.pending[id].handle);
      SameHolds(v, m, w, v', m', w', id);
    } else if !Kept(w, w', id) {
      NewRegion(v, reply, v');
    }
  }

  lemma NewRegion(v: View, reply: Reply, v': View)
    requires Contract(v, CallAllocate, reply, v') && reply.Grants?
    ensures reply.handle in v' && v'[reply.handle] == reply.region
  {
  }

  lemma WriteHolds(v: View, m: Memory, used: set<nat>, w: Worker, v': View, m': Memory, w': Worker, id: u64)
    requires RegionsDisjoint(v) && WorkerShape(v, used, w) && w.pc.Writing? && Writes(v, m, w, v', m', w')
    requires !Stale(v, w) && id in w'.pending && Holds(v, m, w, id)
    ensures Holds(v', m', w', id)
  {
    hide PatternByte;
    var r, i := w.pc.region, w.pc.i;
    var g := w.pending[w.pc.id].handle;
    assert Known(v, used, w.pending[w.pc.id]);
    if id != w.pc.id {
      assert w.pending[id].handle != g && v[w.pending[id].handle].Disjoint(v[g]);
      SameHolds(v, m, w, v', m', w', id);
    } else if i < r.size {
      OneMoreByte(m, m', r, id, i);
    }
  }

  lemma OneMoreByte(m: Memory, m': Memory, r: Region, id: u64, i: nat)
    requires i < r.size && SetByte(m, m', r.addr + i, PatternByte(id, i))
    requires forall k: nat {:trigger PatternByte(id, k)} :: k < i ==> m(r.addr + k) == PatternByte(id, k)
    ensures forall k: nat {:trigger PatternByte(id, k)} :: k < i + 1 ==> m'(r.addr + k) == PatternByte(id, k)
  {
    hide PatternByte;
  }

  lemma FinishHolds(v: View, m: Memory, used: set<nat>, w: Worker, reply: Reply, v': View, m': Memory,
      w': Worker, id: u64)
    requires WorkerShape(v, used, w) && w.pc.Calling? && Finishes(v, m, w, reply, v', m', w') && id in w'.pending
    ensures Kept(w, w', id) && Holds(v, m, w, id) ==> Holds(v', m', w', id)
    ensures !Kept(w, w', id) ==> Holds(v', m', w', id)
  {
    hide PatternByte, Spares;
    var e := w.pc.e;
    var h := w.pending[e.id].handle;
    var call := if e.op == FREE then CallFree(h) else CallReallocate(h);
    if Kept(w, w', id) && Holds(v, m, w, id) {
      if id != e.id || reply.Fails? {
        assert id != e.id ==> w.pending[id].handle != h;
        KeptBytes(v, m, call, reply, v', m', w.pending[id].handle);
        SameHolds(v, m, w, v', m', w', id);
      }
    }
  }

  /** A step of the worker keeps the patterns it held, and what it gains holds its pattern so far. */
  lemma OwnHold(v: View, m: Memory, used: set<nat>, w: Worker, reply: Reply, v': View, m': Memory, w': Worker,
      id: u64)
    requires RegionsDisjoint(v) && WorkerShape(v, used, w) && WorkerStep(v, m, w, reply, v', m', w')
    requires !Resets(w) && !Stale(v, w) && id in w'.pending
    ensures Kept(w, w', id) && Holds(v, m, w, id) ==> Holds(v', m', w', id)
    ensures !Kept(w, w', id) ==> Holds(v', m', w', id)
  {
    hide PatternByte, RegionsDisjoint, Holds, WorkerShape, Calls, SetByte;
    if w.pc == Idle {
      BeginHolds(v, m, w, reply, v', m', w', id);
    } else if w.pc.Writing? {
      if Holds(v, m, w, id) { WriteHolds(v, m, used, w, v', m', w', id); }
    } else if w.pc.Verifying? {
      if Holds(v, m, w, id) { QuietHolds(v, m, w, w', id); }
    } else {
      FinishHolds(v, m, used, w, reply, v', m', w', id);
    }
  }

  /** A step that only moves the worker's own bookkeeping. */
  lemma QuietHolds(v: View, m: Memory, w: Worker, w': Worker, id: u64)
    requires Kept(w, w', id) && Holds(v, m, w, id) && !w.pc.Writing? && !w'.pc.Writing?
    ensures Holds(v, m, w', id)
  {
    hide PatternByte;
  }

  lemma BeginHolds(v: View, m: Memory, w: Worker, reply: Reply, v': View, m': Memory, w': Worker, id: u64)
    requires w.pc == Idle && w.todo != [] && w.todo[0].op != RESET && Begins(v, m, w, reply, v', m', w')
    requires id in w'.pending
    ensures Kept(w, w', id) && Holds(v, m, w, id) ==> Holds(v', m', w', id)
    ensures !Kept(w, w', id) ==> Holds(v', m', w', id)
  {
    hide PatternByte, Holds, Calls;
    var e := w.todo[0];
    var w1 := w.(todo := w.todo[1..], ops := w.ops + 1);
    if Kept(w, w', id) && Holds(v, m, w, id) { QuietHolds(v, m, w, w1, id); }
    if e.op == ALLOCATE {
      AllocateHolds(v, m, w1, e, reply, v', m', id);
    } else if e.op == TRIM {
      if Kept(w, w', id) && Holds(v, m, w, id) { TrimHolds(v, m, w1, reply, v', m', w', id); }
    } else {
      if Kept(w, w', id) && Holds(v, m, w, id) { QuietHolds(v, m, w, w', id); }
    }
  }

  lemma TrimHolds(v: View, m: Memory, w: Worker, reply: Reply, v': View, m': Memory, w': Worker, id: u64)
    requires Calls(v, m, CallTrim, reply, v', m') && w.pc == Idle == w'.pc && Kept(w, w', id) && Holds(v, m, w, id)
    ensures Holds(v', m', w', id)
  {
    hide PatternByte, Calls;
    KeptBytes(v, m, CallTrim, reply, v', m', w.pending[id].handle);
    SameHolds(v, m, w, v', m', w', id);
  }

  /** The check of a region that holds its pattern finds no wrong byte. */
  lemma VerifySound(v: View, m: Memory, w: Worker, v': View, m': Memory, w': Worker)
    requires w.pc.Verifying? && w.pc.e.id in w.pending && Verifies(v, m, w, v', m', w') && Holds(v, m, w, w.pc.e.id)
    ensures w'.invariantFailed == w.invariantFailed
  {
    hide PatternByte;
    var e, i := w.pc.e, w.pc.i;
    if i < w.pending[e.id].region.size {
      assert m(w.pending[e.id].region.addr + i) == PatternByte(e.id, i);
    }
  }

  // ---- streams without a reset ----

  predicate NoReset(es: seq<Entry>) { forall i :: 0 <= i < |es| ==> es[i].op != RESET }

  ghost predicate WorkerSound(v: View, m: Memory, w: Worker)
  {
    && !w.invariantFailed && NoReset(w.todo)
    && forall id {:trigger w.pending[id]} :: id in w.pending ==> Holds(v, m, w, id)
  }

  /** Without a reset, every table entry stays live and holds its pattern. */
  ghost predicate Sound(s: Sys)
  {
    Shape(s) && forall w :: 0 <= w < |s.workers| ==> WorkerSound(s.view, s.mem, s.workers[w])
  }

  lemma ActSound(v: View, m: Memory, used: set<nat>, w: Worker, reply: Reply, v': View, m': Memory, w': Worker)
    requires RegionsDisjoint(v) && WorkerShape(v, used, w) && WorkerSound(v, m, w)
    requires WorkerStep(v, m, w, reply, v', m', w')
    ensures !Resets(w) && !Stale(v, w) && WorkerSound(v', m', w')
  {
    hide PatternByte, RegionsDisjoint, Holds, Calls, SetByte;
    assert !Stale(v, w) by { if w.pc.Writing? { HoldsLive(v, m, w, w.pc.id); } }
    forall id | id in w'.pending ensures Holds(v', m', w', id) {
      OwnHold(v, m, used, w, reply, v', m', w', id);
    }
    if w.pc.Verifying? { VerifySound(v, m, w, v', m', w'); }
  }

  lemma HoldsLive(v: View, m: Memory, w: Worker, id: u64)
    requires id in w.pending && Holds(v, m, w, id)
    ensures w.pending[id].handle in v
  {
  }

  lemma StepSound(s: Sys, move: Move, s': Sys)
    requires Sound(s) && Step(s, move, s')
    ensures Sound(s')
  {
    hide WorkerStep, RegionsDisjoint, Apart, WorkerShape, Holds, NoReset, Fresh;
    StepShape(s, move, s');
    var k := move.worker;
    var w, w' := s.workers[k], s'.workers[k];
    ActSound(s.view, s.mem, s.used, w, move.reply, s'.view, s'.mem, w');
    forall u | 0 <= u < |s.workers| && u != k ensures WorkerSound(s'.view, s'.mem, s'.workers[u]) {
      assert s'.workers[u] == s.workers[u];
      forall id | id in s.workers[u].pending ensures Holds(s'.view, s'.mem, s.workers[u], id) {
        OthersHold(s.view, s.mem, s.used, w, move.reply, s'.view, s'.mem, w', s.workers[u], id);
      }
    }
  }

  lemma {:induction false} AlwaysSound(states: seq<Sys>, moves: seq<Move>, streams: seq<seq<Entry>>, k: nat)
    requires Execution(states, moves) && Initial(states[0], streams) && k < |states|
    requires forall w :: 0 <= w < |streams| ==> NoReset(streams[w])
    ensures Sound(states[k]) && |states[k].workers| == |streams|
    decreases k
  {
    hide Step, WorkerSound, RegionsDisjoint, NoReset;
    if k == 0 {
      InitialSound(states[0], streams);
    } else {
      AlwaysSound(states, moves, streams, k - 1);
      assert Step(states[k - 1], moves[k - 1], states[k]);
      StepSound(states[k - 1], moves[k - 1], states[k]);
      SameWorkers(states[k - 1], moves[k - 1], states[k]);
    }
  }

  lemma InitialSound(s: Sys, streams: seq<seq<Entry>>)
    requires Initial(s, streams)
    ensures Shape(s)
    ensures (forall w :: 0 <= w < |streams| ==> NoReset(streams[w])) ==> Sound(s)
  {
    hide RegionsDisjoint, NoReset;
  }

  lemma SameWorkers(s: Sys, move: Move, s': Sys)
    requires Step(s, move, s')
    ensures |s'.workers| == |s.workers| && move.worker < |s.workers|
    ensures forall u :: 0 <= u < |s.workers| && u != move.worker ==> s'.workers[u] == s.workers[u]
  {
    hide WorkerStep, Fresh;
  }

  // ---- progress ----

  /** The worker's own transition, given the allocator's reply. */
  ghost function NextWorker(w: Worker, m: Memory, reply: Reply): Worker
    requires w.pc == Idle ==> w.todo != []
    requires w.pc.Verifying? ==> w.pc.e.id in w.pending
    requires w.pc.Calling? ==> w.pc.e.id in w.pending
  {
    match w.pc
    case Idle =>
      var e, w1 := w.todo[0], w.(todo := w.todo[1..], ops := w.ops + 1);
      if e.op == ALLOCATE then AfterAllocate(w1, e, reply)
      else if e.op == FREE || e.op == REALLOCATE then
        if e.id !in w.pending then w1.(failures := w.failures + 1)
        else if e.op == FREE && e.size == 0 then w1.(pc := Calling(e))
        else w1.(pc := Verifying(e, 0))
      else if e.op == TRIM || e.op == RESET then
        if reply.Fails? then w1.(failures := w.failures + 1) else w1
      else w1
    case Writing(id, r, i) => w.(pc := if i < r.size then Writing(id, r, i + 1) else Idle)
    case Verifying(e, i) =>
      var r := w.pending[e.id].region;
      if i >= r.size then w.(pc := Calling(e))
      else if m(r.addr + i) != PatternByte(e.id, i) then w.(pc := Calling(e), invariantFailed := true)
      else w.(pc := Verifying(e, i + 1))
    case Calling(e) => if e.op == FREE then AfterFree(w, e, reply) else AfterReallocate(w, e, reply)
  }

  predicate CanMove(w: Worker)
  {
    match w.pc
    case Idle => w.todo != []
    case Writing(_, _, _) => true
    case Verifying(e, _) => e.id in w.pending
    case Calling(e) => e.id in w.pending
  }

  /** A run is not stuck before it is finished: every worker that is not done can move. */
  lemma Progress(s: Sys, k: nat) returns (move: Move, s': Sys)
    requires Shape(s) && k < |s.workers| && !Done(s.workers[k])
    ensures move.worker == k && Step(s, move, s')
  {
    hide PatternByte, RegionsDisjoint, Contract, Spares;
    var w := s.workers[k];
    ShapeMoves(s, k);
    var m := s.mem;
    if w.pc.Writing? && w.pc.i < w.pc.region.size {
      m := (x: nat) => if x == w.pc.region.addr + w.pc.i then PatternByte(w.pc.id, w.pc.i) else s.mem(x);
    }
    move := Move(k, Fails);
    s' := s.(workers := s.workers[k := NextWorker(w, s.mem, Fails)], mem := m);
    CanStep(s.view, s.mem, w, m);
  }

  lemma ShapeMoves(s: Sys, k: nat)
    requires Shape(s) && k < |s.workers| && !Done(s.workers[k])
    ensures CanMove(s.workers[k]) && s.view.Keys <= s.used
  {
    hide RegionsDisjoint, Apart;
    assert WorkerShape(s.view, s.used, s.workers[k]);
  }

  /** With every call failing, the worker's transition is a step. */
  lemma CanStep(v: View, m: Memory, w: Worker, m': Memory)
    requires CanMove(w)
    requires if w.pc.Writing? && w.pc.i < w.pc.region.size
             then SetByte(m, m', w.pc.region.addr + w.pc.i, PatternByte(w.pc.id, w.pc.i)) else m' == m
    ensures WorkerStep(v, m, w, Fails, v, m', NextWorker(w, m, Fails))
  {
    hide PatternByte;
  }
}
