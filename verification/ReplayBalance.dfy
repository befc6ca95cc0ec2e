/** What a completed replay leaves behind: nothing but what was live before, with every
    allocate, free and reallocate entry counted exactly once. */
module ReplayBalance {
  import opened Bits
  import opened Traces
  import opened Replay

  // The entries a worker has not completed, including the one it is checking or calling for.
  function Rest(w: Worker): seq<Entry>
  {
    match w.pc
    case Verifying(e, _) => [e] + w.todo
    case Calling(e) => [e] + w.todo
    case _ => w.todo
  }

  // ---- counting ----

  predicate Main(e: Entry) { e.op == ALLOCATE || e.op == FREE || e.op == REALLOCATE }

  function CountMain(es: seq<Entry>): nat
  {
    if es == [] then 0 else (if Main(es[0]) then 1 else 0) + CountMain(es[1..])
  }

  predicate NoTrimReset(es: seq<Entry>)
  {
    forall i :: 0 <= i < |es| ==> es[i].op != TRIM && es[i].op != RESET
  }

  ghost predicate Counted(w: Worker, total: nat)
  {
    && NoTrimReset(w.todo)
    && (w.pc.Verifying? || w.pc.Calling? ==> w.pc.e.op == FREE || w.pc.e.op == REALLOCATE)
    && w.successes + w.failures + CountMain(Rest(w)) == total
  }

  lemma CountStep(v: View, m: Memory, w: Worker, reply: Reply, v': View, m': Memory, w': Worker, total: nat)
    requires Counted(w, total) && WorkerStep(v, m, w, reply, v', m', w')
    ensures Counted(w', total)
  {
    hide PatternByte, Calls, SetByte, CountMain, Begins;
    match w.pc {
      case Idle => CountBegin(v, m, w, reply, v', m', w', total);
      case Writing(_, _, _) =>
      case Verifying(e, _) => HeadCount(e, w.todo);
      case Calling(e) => HeadCount(e, w.todo);
    }
  }

  lemma HeadCount(e: Entry, es: seq<Entry>)
    ensures CountMain([e] + es) == (if Main(e) then 1 else 0) + CountMain(es)
  {
    assert ([e] + es)[1..] == es;
  }

  lemma CountBegin(v: View, m: Memory, w: Worker, reply: Reply, v': View, m': Memory, w': Worker, total: nat)
    requires Counted(w, total) && w.pc == Idle && w.todo != [] && Begins(v, m, w, reply, v', m', w')
    ensures Counted(w', total)
  {
    hide PatternByte, Calls, CountMain;
    var e := w.todo[0];
    assert [e] + w.todo[1..] == w.todo;
    HeadCount(e, w.todo[1..]);
  }

  /** Each allocate, free and reallocate entry of a finished stream counted as exactly one
      success or one failure. */
  lemma EveryEntryCounted(states: seq<Sys>, moves: seq<Move>, streams: seq<seq<Entry>>)
    requires Execution(states, moves) && Initial(states[0], streams)
    requires forall w :: 0 <= w < |streams| ==> NoTrimReset(streams[w])
    requires Finished(states[|moves|])
    ensures |states[|moves|].workers| == |streams|
    ensures forall w :: 0 <= w < |streams| ==>
              var u := states[|moves|].workers[w];
              u.successes + u.failures == CountMain(streams[w])
  {
    AllCounted(states, moves, streams, |moves|);
  }

  lemma {:induction false} AllCounted(states: seq<Sys>, moves: seq<Move>, streams: seq<seq<Entry>>, k: nat)
    requires Execution(states, moves) && Initial(states[0], streams) && k < |states|
    requires forall w :: 0 <= w < |streams| ==> NoTrimReset(streams[w])
    ensures |states[k].workers| == |streams|
    ensures forall w :: 0 <= w < |streams| ==> Counted(states[k].workers[w], CountMain(streams[w]))
    decreases k
  {
    hide PatternByte, Calls, WorkerStep, CountMain;
    if k > 0 {
      AllCounted(states, moves, streams, k - 1);
      var s, s', mv := states[k - 1], states[k], moves[k - 1];
      assert Step(s, mv, s');
      forall w | 0 <= w < |streams| ensures Counted(s'.workers[w], CountMain(streams[w])) {
        if w == mv.worker {
          CountStep(s.view, s.mem, s.workers[w], mv.reply, s'.view, s'.mem, s'.workers[w], CountMain(streams[w]));
        } else {
          assert s'.workers[w] == s.workers[w];
        }
      }
    }
  }

  // ---- no leak ----

  /** `live` is the validator's state at this point of the worker's stream: the rest of the
      stream is valid from it and empties it, and it covers the worker's table. */
  ghost predicate Follows(w: Worker, live: map<u64, u64>)
  {
    && CheckFrom(live, Rest(w)) == Accepted && LiveAfter(live, Rest(w)) == map[]
    && w.pending.Keys <= live.Keys
    && (w.pc.Verifying? || w.pc.Calling? ==> w.pc.e.op == FREE || w.pc.e.op == REALLOCATE)
  }

  ghost predicate OnTrack(w: Worker) { exists live :: Follows(w, live) }

  lemma PopTrack(live: map<u64, u64>, e: Entry, es: seq<Entry>)
    requires CheckFrom(live, [e] + es) == Accepted && LiveAfter(live, [e] + es) == map[]
    ensures Check(live, e) == Accepted
    ensures CheckFrom(Next(live, e), es) == Accepted && LiveAfter(Next(live, e), es) == map[]
  {
    assert ([e] + es)[1..] == es;
  }

  lemma TrackBegin(v: View, m: Memory, w: Worker, reply: Reply, v': View, m': Memory, w': Worker)
    requires OnTrack(w) && w.pc == Idle && w.todo != [] && Begins(v, m, w, reply, v', m', w')
    ensures OnTrack(w') && (w.todo[0].op == ALLOCATE ==> w.todo[0].id !in w.pending)
  {
    hide PatternByte, Calls, IsPowerOfTwo, CheckFrom, LiveAfter;
    var e := w.todo[0];
    var live :| Follows(w, live);
    assert [e] + w.todo[1..] == w.todo;
    PopTrack(live, e, w.todo[1..]);
    if w'.pc.Verifying? || w'.pc.Calling? {
      assert Follows(w', live);
    } else {
      assert Follows(w', Next(live, e));
    }
  }

  lemma TrackStep(v: View, m: Memory, w: Worker, reply: Reply, v': View, m': Memory, w': Worker)
    requires OnTrack(w) && WorkerStep(v, m, w, reply, v', m', w')
    ensures OnTrack(w')
  {
    hide PatternByte, Calls, SetByte, Check, Begins, CheckFrom, LiveAfter;
    if w.pc == Idle {
      TrackBegin(v, m, w, reply, v', m', w');
    } else {
      var live :| Follows(w, live);
      if w.pc.Calling? {
        PopTrack(live, w.pc.e, w.todo);
        assert Follows(w', Next(live, w.pc.e));
      } else {
        assert Follows(w', live);
      }
    }
  }

  /** The proviso: the allocator accepts the free of a live handle. */
  ghost predicate FreeAccepted(s: Sys, move: Move)
  {
    move.worker < |s.workers| ==>
      var w := s.workers[move.worker];
      w.pc.Calling? && w.pc.e.op == FREE ==> !move.reply.Fails?
  }

  /** After a step every live region was live and not the worker's, or is the worker's now. */
  lemma NothingLost(v: View, m: Memory, used: set<nat>, w: Worker, reply: Reply, v': View, m': Memory,
      w': Worker, h: nat)
    requires WorkerShape(v, used, w) && WorkerSound(v, m, w) && OnTrack(w) && WorkerStep(v, m, w, reply, v', m', w')
    requires w.pc.Calling? && w.pc.e.op == FREE ==> !reply.Fails?
    requires h in v'
    ensures (h in v && !Mine(w, h)) || Mine(w', h)
  {
    hide PatternByte, Holds, SetByte, Spares, CheckFrom, LiveAfter;
    if w.pc == Idle {
      BeginKeepsMine(v, m, w, reply, v', m', w', h);
    } else if w.pc.Calling? {
      FinishKeepsMine(v, m, used, w, reply, v', m', w', h);
    } else if Mine(w, h) {
      var id :| id in w.pending && w.pending[id].handle == h;
      assert id in w'.pending && w'.pending[id].handle == h;
    }
  }

  lemma BeginKeepsMine(v: View, m: Memory, w: Worker, reply: Reply, v': View, m': Memory, w': Worker, h: nat)
    requires WorkerSound(v, m, w) && OnTrack(w) && w.pc == Idle && w.todo != []
    requires Begins(v, m, w, reply, v', m', w') && h in v'
    ensures (h in v && !Mine(w, h)) || Mine(w', h)
  {
    hide PatternByte, Holds, SetByte, Spares, CheckFrom, LiveAfter, OnTrack;
    TrackBegin(v, m, w, reply, v', m', w');
    var e := w.todo[0];
    if Mine(w, h) {
      var id :| id in w.pending && w.pending[id].handle == h;
      assert id in w'.pending && w'.pending[id].handle == h;
    } else if h !in v {
      assert e.op == ALLOCATE && reply.Grants?
          && w'.pending[e.id].handle == h by { BeginGrows(v, m, w, reply, v', m', w', h); }
    }
  }

  lemma BeginGrows(v: View, m: Memory, w: Worker, reply: Reply, v': View, m': Memory, w': Worker, h: nat)
    requires w.todo != [] && Begins(v, m, w, reply, v', m', w') && h in v' && h !in v
    ensures w.todo[0].op == ALLOCATE && reply.Grants? && reply.handle == h
  {
    hide PatternByte, Spares;
  }

  lemma FinishKeepsMine(v: View, m: Memory, used: set<nat>, w: Worker, reply: Reply, v': View, m': Memory,
      w': Worker, h: nat)
    requires WorkerShape(v, used, w) && w.pc.Calling? && Finishes(v, m, w, reply, v', m', w') && h in v'
    requires w.pc.e.op == FREE ==> !reply.Fails?
    ensures (h in v && !Mine(w, h)) || Mine(w', h)
  {
    hide PatternByte, Holds, SetByte, Spares;
    var e := w.pc.e;
    var g := w.pending[e.id].handle;
    assert h in v;
    if Mine(w, h) {
      var id :| id in w.pending && w.pending[id].handle == h;
      if e.op == FREE { assert h != g && id != e.id; }
      assert id in w'.pending && w'.pending[id].handle == h;
    }
  }

  ghost predicate Owned(s: Sys, h: nat)
  {
    exists w :: 0 <= w < |s.workers| && Mine(s.workers[w], h)
  }

  /** The allocator's live set is the initial one plus what the workers' tables hold. */
  ghost predicate Accounted(s: Sys, v0: View)
  {
    && (forall h :: h in v0 ==> h in s.view && s.view[h] == v0[h] && !Owned(s, h))
    && (forall h :: h in s.view ==> h in v0 || Owned(s, h))
    && (forall w :: 0 <= w < |s.workers| ==> OnTrack(s.workers[w]))
  }

  lemma StepAccounted(s: Sys, move: Move, s': Sys, v0: View)
    requires Sound(s) && Accounted(s, v0) && Step(s, move, s') && FreeAccepted(s, move)
    ensures Accounted(s', v0)
  {
    hide PatternByte, WorkerStep, WorkerSound, WorkerShape, OnTrack, Mine, Apart, RegionsDisjoint, Fresh;
    var k := move.worker;
    var w, w' := s.workers[k], s'.workers[k];
    StepShape(s, move, s');
    SameWorkers(s, move, s');
    TrackStep(s.view, s.mem, w, move.reply, s'.view, s'.mem, w');
    forall h | h in v0 ensures h in s'.view && s'.view[h] == v0[h] && !Owned(s', h) {
      assert !Mine(w, h);
      ActSound(s.view, s.mem, s.used, w, move.reply, s'.view, s'.mem, w');
      Bystander(s.view, s.mem, s.used, w, move.reply, s'.view, s'.mem, w', h);
      assert !Mine(w', h) by { NewlyMine(s.view, s.used, w, s'.view, w', h); }
    }
    forall h | h in s'.view ensures h in v0 || Owned(s', h) {
      NothingLost(s.view, s.mem, s.used, w, move.reply, s'.view, s'.mem, w', h);
      if !Mine(w', h) && h !in v0 {
        var u :| 0 <= u < |s.workers| && Mine(s.workers[u], h);
        assert s'.workers[u] == s.workers[u];
      }
    }
    forall u | 0 <= u < |s'.workers| ensures OnTrack(s'.workers[u]) {
      assert u != k ==> s'.workers[u] == s.workers[u];
    }
  }

  lemma NewlyMine(v: View, used: set<nat>, w: Worker, v': View, w': Worker, h: nat)
    requires Effect(v, used, w, v', w') && h in used && !Mine(w, h)
    ensures !Mine(w', h)
  {
  }

  lemma {:induction false} AlwaysAccounted(states: seq<Sys>, moves: seq<Move>, streams: seq<seq<Entry>>, k: nat)
    requires Execution(states, moves) && Initial(states[0], streams) && k < |states|
    requires forall w :: 0 <= w < |streams| ==>
               NoReset(streams[w]) && CheckFrom(map[], streams[w]) == Accepted
                   && LiveAfter(map[], streams[w]) == map[]
    requires forall i :: 0 <= i < |moves| ==> FreeAccepted(states[i], moves[i])
    ensures |states[k].workers| == |streams| && Accounted(states[k], states[0].view)
    decreases k
  {
    hide PatternByte, WorkerStep, WorkerSound, CheckFrom, LiveAfter, NoReset, RegionsDisjoint;
    if k == 0 {
      forall w | 0 <= w < |streams| ensures OnTrack(states[0].workers[w]) {
        assert Follows(states[0].workers[w], map[]);
      }
    } else {
      AlwaysAccounted(states, moves, streams, k - 1);
      AlwaysSound(states, moves, streams, k - 1);
      assert Step(states[k - 1], moves[k - 1], states[k]) && FreeAccepted(states[k - 1], moves[k - 1]);
      StepAccounted(states[k - 1], moves[k - 1], states[k], states[0].view);
    }
  }

  /** No leak: once valid, balanced, reset-free streams have run to the end, in whatever
      interleaving and however many allocations failed, the allocator's live regions are
      exactly those from before, provided it accepted every free of a live handle. */
  lemma NoLeak(states: seq<Sys>, moves: seq<Move>, streams: seq<seq<Entry>>)
    requires Execution(states, moves) && Initial(states[0], streams)
    requires forall w :: 0 <= w < |streams| ==>
               NoReset(streams[w]) && CheckFrom(map[], streams[w]) == Accepted
                   && LiveAfter(map[], streams[w]) == map[]
    requires forall i :: 0 <= i < |moves| ==> FreeAccepted(states[i], moves[i])
    requires Finished(states[|moves|])
    ensures states[|moves|].view == states[0].view
  {
    hide PatternByte, CheckFrom, NoReset, RegionsDisjoint, WorkerStep;
    AlwaysAccounted(states, moves, streams, |moves|);
    var s := states[|moves|];
    forall h ensures !Owned(s, h) {
      forall w | 0 <= w < |s.workers| ensures !Mine(s.workers[w], h) {
        assert OnTrack(s.workers[w]);
        DoneHoldsNothing(s.workers[w]);
      }
    }
  }

  lemma DoneHoldsNothing(w: Worker)
    requires OnTrack(w) && w.todo == [] && w.pc == Idle
    ensures w.pending == map[]
  {
    var live :| Follows(w, live);
    assert live == map[];
    assert w.pending.Keys == {};
  }
}
