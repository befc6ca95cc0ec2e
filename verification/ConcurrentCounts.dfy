/** What the success and failure counts of a concurrent replay mean, in terms of the allocator's replies. */
module ConcurrentCounts {
  import opened Bits
  import opened Traces
  import opened Replay
  import opened ReplayBalance
  import opened ReplayCounts


  /** What a move of a worker is to the counts: an allocation granted, a free or a reallocation accepted, a call
      refused, a free or reallocation of an id that is not in the table, or nothing that counts. */
  datatype Kind = Grant | AcceptedFree | AcceptedReallocate | Refusal | Unmatched | Silent

  function KindOf(w: Worker, reply: Reply): Kind
  {
    match w.pc
    case Idle =>
      if w.todo == [] then Silent
      else
        var e := w.todo[0];
        if e.op == ALLOCATE then if reply.Fails? then Refusal else Grant
        else if e.op == FREE || e.op == REALLOCATE then if e.id in w.pending then Silent else Unmatched
        else if (e.op == TRIM || e.op == RESET) && reply.Fails? then Refusal
        else Silent
    case Calling(e) => if reply.Fails? then Refusal else if e.op == FREE then AcceptedFree else AcceptedReallocate
    case _ => Silent
  }

  /** How many of the first k moves were worker u's and of a kind. */
  ghost function Tally(states: seq<Sys>, moves: seq<Move>, u: nat, kind: Kind, k: nat): nat
    requires k <= |moves| && k <= |states|
  {
    if k == 0 then 0
    else
      var ws, mv := states[k - 1].workers, moves[k - 1];
      Tally(states, moves, u, kind, k - 1)
      + if mv.worker == u < |ws| && KindOf(ws[u], mv.reply) == kind then 1 else 0
  }

  /** An allocation or reallocation that does not fail is granted. */
  lemma Replies(v: View, m: Memory, call: Call, reply: Reply, v': View, m': Memory)
    requires Calls(v, m, call, reply, v', m') && (call.CallAllocate? || call.CallReallocate?)
    ensures reply.Fails? || reply.Grants?
  {
    hide Spares;
  }

  ghost predicate Counts(w: Worker, reply: Reply, w': Worker)
  {
    && w'.successes ==
       w.successes + (if KindOf(w, reply) in {Grant, AcceptedFree, AcceptedReallocate} then 1 else 0)
    && w'.failures == w.failures + (if KindOf(w, reply) in {Refusal, Unmatched} then 1 else 0)
    && w'.ops + |w'.todo| == w.ops + |w.todo|
  }

  lemma BeginKind(v: View, m: Memory, w: Worker, reply: Reply, v': View, m': Memory, w': Worker)
    requires w.pc == Idle && w.todo != [] && Begins(v, m, w, reply, v', m', w')
    ensures w'.pc.Calling? || w'.pc.Verifying? ==> w'.pc.e.op == FREE || w'.pc.e.op == REALLOCATE
    ensures Counts(w, reply, w')
  {
    hide Calls;
    if w.todo[0].op == ALLOCATE { Replies(v, m, CallAllocate, reply, v', m'); }
  }

  lemma FinishKind(v: View, m: Memory, w: Worker, reply: Reply, v': View, m': Memory, w': Worker)
    requires w.pc.Calling? && w.pc.e.id in w.pending && Finishes(v, m, w, reply, v', m', w')
    requires w.pc.e.op == FREE || w.pc.e.op == REALLOCATE
    ensures !w'.pc.Calling? && !w'.pc.Verifying? && Counts(w, reply, w')
  {
    hide Calls;
    if w.pc.e.op == REALLOCATE { Replies(v, m, CallReallocate(w.pending[w.pc.e.id].handle), reply, v', m'); }
  }

  lemma StepKind(v: View, m: Memory, w: Worker, reply: Reply, v': View, m': Memory, w': Worker)
    requires WorkerStep(v, m, w, reply, v', m', w') && AtWork(w)
    ensures AtWork(w') && Counts(w, reply, w')
  {
    hide PatternByte, SetByte, Begins, Finishes;
    if w.pc.Idle? { BeginKind(v, m, w, reply, v', m', w'); }
    if w.pc.Calling? { FinishKind(v, m, w, reply, v', m', w'); }
  }

  ghost predicate AtWork(w: Worker)
  {
    w.pc.Calling? || w.pc.Verifying? ==> w.pc.e.op == FREE || w.pc.e.op == REALLOCATE
  }

  /** In every interleaving a worker's operations are the entries it has begun, its successes its granted allocations
      and accepted frees and reallocations, and its failures the refused calls and the entries whose id is not in its
      table. */
  lemma {:induction false} ConcurrentMeaning(
    states: seq<Sys>, moves: seq<Move>, streams: seq<seq<Entry>>, u: nat, k: nat)
    requires Execution(states, moves) && Initial(states[0], streams) && u < |streams| && k < |states|
    ensures u < |states[k].workers| && AtWork(states[k].workers[u])
    ensures states[k].workers[u].ops + |states[k].workers[u].todo| == |streams[u]|
    ensures states[k].workers[u].successes ==
            Tally(states, moves, u, Grant, k) + Tally(states, moves, u, AcceptedFree, k)
            + Tally(states, moves, u, AcceptedReallocate, k)
    ensures states[k].workers[u].failures == Tally(states, moves, u, Refusal, k) + Tally(states, moves, u, Unmatched, k)
    decreases k
  {
    hide WorkerStep, Fresh, KindOf, RegionsDisjoint;
    if k > 0 {
      ConcurrentMeaning(states, moves, streams, u, k - 1);
      var s, s', mv := states[k - 1], states[k], moves[k - 1];
      StepAt(states, moves, k - 1);
      if mv.worker == u { StepKind(s.view, s.mem, s.workers[u], mv.reply, s'.view, s'.mem, s'.workers[u]); }
    }
  }

  lemma StepAt(states: seq<Sys>, moves: seq<Move>, i: nat)
    requires Execution(states, moves) && i < |moves|
    ensures Step(states[i], moves[i], states[i + 1])
  {
    hide Step;
  }

  // ---- balanced streams ----

  /** One step of a plain worker changes its table by its granted allocations and finished frees. */
  lemma StepTable(v: View, m: Memory, w: Worker, reply: Reply, v': View, m': Memory, w': Worker)
    requires WorkerStep(v, m, w, reply, v', m', w') && OnTrack(w) && AtWork(w) && Plain(Rest(w))
    requires w.pc.Calling? && w.pc.e.op == FREE ==> !reply.Fails?
    ensures |w'.pending| == |w.pending| + (if KindOf(w, reply) == Grant then 1 else 0)
                                        - (if KindOf(w, reply) == AcceptedFree then 1 else 0)
    ensures KindOf(w, reply) != AcceptedReallocate && Plain(Rest(w'))
  {
    hide PatternByte, SetByte, Begins, Finishes, OnTrack, Calls, CheckFrom, LiveAfter;
    if w.pc.Idle? { BeginTable(v, m, w, reply, v', m', w'); }
    if w.pc.Calling? { FinishTable(v, m, w, reply, v', m', w'); }
  }

  lemma BeginTable(v: View, m: Memory, w: Worker, reply: Reply, v': View, m': Memory, w': Worker)
    requires w.pc == Idle && w.todo != [] && Begins(v, m, w, reply, v', m', w') && OnTrack(w) && Plain(w.todo)
    ensures |w'.pending| == |w.pending| + (if KindOf(w, reply) == Grant then 1 else 0)
    ensures KindOf(w, reply) != AcceptedReallocate && KindOf(w, reply) != AcceptedFree && Plain(Rest(w'))
  {
    hide Calls, OnTrack, Plain, Rest;
    TrackBegin(v, m, w, reply, v', m', w');
    BeginPlain(v, m, w, reply, v', m', w');
    if w.todo[0].op == ALLOCATE {
      Replies(v, m, CallAllocate, reply, v', m');
      if reply.Grants? { TableAdd(w.pending, w.todo[0].id, Pending(reply.handle, reply.region)); }
    }
  }

  lemma TableAdd(table: map<u64, Pending>, id: u64, p: Pending)
    requires id !in table
    ensures |table[id := p]| == |table| + 1
  {
    assert table[id := p].Keys == table.Keys + {id};
    assert |table.Keys| == |table| && |table[id := p].Keys| == |table[id := p]|;
  }

  lemma BeginPlain(v: View, m: Memory, w: Worker, reply: Reply, v': View, m': Memory, w': Worker)
    requires w.pc == Idle && w.todo != [] && Begins(v, m, w, reply, v', m', w') && Plain(w.todo)
    ensures Plain(Rest(w'))
  {
    hide Calls;
    assert [w.todo[0]] + w.todo[1..] == w.todo;
  }

  lemma FinishTable(v: View, m: Memory, w: Worker, reply: Reply, v': View, m': Memory, w': Worker)
    requires w.pc.Calling? && w.pc.e.id in w.pending && Finishes(v, m, w, reply, v', m', w') && Plain(Rest(w))
    requires w.pc.e.op == FREE || w.pc.e.op == REALLOCATE
    ensures |w'.pending| == |w.pending| - 1 && w.pc.e.op == FREE && Plain(Rest(w'))
  {
    hide Calls;
    assert Rest(w)[0] == w.pc.e && Rest(w)[1..] == w.todo;
    assert w'.pending.Keys == w.pending.Keys - {w.pc.e.id};
    assert |w.pending.Keys| == |w.pending| && |w'.pending.Keys| == |w'.pending|;
  }

  ghost predicate TableTallied(states: seq<Sys>, moves: seq<Move>, u: nat, k: nat)
    requires k <= |moves| && k < |states| && u < |states[k].workers|
  {
    var w := states[k].workers[u];
    && |w.pending| == Tally(states, moves, u, Grant, k) - Tally(states, moves, u, AcceptedFree, k)
    && Tally(states, moves, u, AcceptedReallocate, k) == 0 && Plain(Rest(w))
  }

  lemma {:induction false} AllTallied(states: seq<Sys>, moves: seq<Move>, streams: seq<seq<Entry>>, u: nat, k: nat)
    requires Execution(states, moves) && Initial(states[0], streams) && u < |streams| && k < |states|
    requires forall w :: 0 <= w < |streams| ==>
               Plain(streams[w]) && CheckFrom(map[], streams[w]) == Accepted
                   && LiveAfter(map[], streams[w]) == map[]
    requires forall i :: 0 <= i < |moves| ==> FreeAccepted(states[i], moves[i])
    ensures |states[k].workers| == |streams| && TableTallied(states, moves, u, k)
    decreases k
  {
    hide WorkerStep, Fresh, KindOf, RegionsDisjoint, Plain, CheckFrom, LiveAfter, OnTrack, Rest, AtWork;
    hide Step, Accounted, FreeAccepted;
    PlainStreams(streams);
    AlwaysAccounted(states, moves, streams, k);
    if k == 0 {
      assert Rest(states[0].workers[u]) == streams[u] by { RestAtStart(streams[u]); }
    } else {
      AllTallied(states, moves, streams, u, k - 1);
      AlwaysAccounted(states, moves, streams, k - 1);
      ConcurrentMeaning(states, moves, streams, u, k - 1);
      StepAt(states, moves, k - 1);
      assert FreeAccepted(states[k - 1], moves[k - 1]);
      TrackAt(states[k - 1], states[0].view, u);
      StepTallied(states, moves, u, k);
    }
  }

  lemma TrackAt(s: Sys, v0: View, u: nat)
    requires Accounted(s, v0) && u < |s.workers|
    ensures OnTrack(s.workers[u])
  {
    hide OnTrack, Owned;
  }

  lemma StepTallied(states: seq<Sys>, moves: seq<Move>, u: nat, k: nat)
    requires 0 < k <= |moves| && k < |states| && u < |states[k - 1].workers| && u < |states[k].workers|
    requires TableTallied(states, moves, u, k - 1) && Step(states[k - 1], moves[k - 1], states[k])
    requires OnTrack(states[k - 1].workers[u]) && AtWork(states[k - 1].workers[u])
    requires FreeAccepted(states[k - 1], moves[k - 1])
    ensures TableTallied(states, moves, u, k)
  {
    hide WorkerStep, Fresh, KindOf, Plain, OnTrack, Rest, AtWork;
    var s, s', mv := states[k - 1], states[k], moves[k - 1];
    if mv.worker == u {
      StepTable(s.view, s.mem, s.workers[u], mv.reply, s'.view, s'.mem, s'.workers[u]);
    }
  }

  lemma RestAtStart(es: seq<Entry>)
    ensures Rest(Worker(es, map[], Idle, 0, 0, 0, false)) == es
  {
  }

  lemma PlainStreams(streams: seq<seq<Entry>>)
    requires forall w :: 0 <= w < |streams| ==> Plain(streams[w])
    ensures forall w :: 0 <= w < |streams| ==> NoReset(streams[w])
  {
  }

  /** Once valid and balanced streams of allocations and frees have run to the end, in whatever interleaving, each
      granted allocation of a worker is one success and its free another, each refused one is one failure and its
      free another; provided the allocator accepts the free of a live handle. */
  lemma FinishedCounts(states: seq<Sys>, moves: seq<Move>, streams: seq<seq<Entry>>, u: nat)
    requires Execution(states, moves) && Initial(states[0], streams) && u < |streams|
    requires forall w :: 0 <= w < |streams| ==>
               Plain(streams[w]) && CheckFrom(map[], streams[w]) == Accepted
                   && LiveAfter(map[], streams[w]) == map[]
    requires forall i :: 0 <= i < |moves| ==> FreeAccepted(states[i], moves[i])
    requires Finished(states[|moves|])
    ensures |states[|moves|].workers| == |streams|
    ensures var w, grants := states[|moves|].workers[u], Tally(states, moves, u, Grant, |moves|);
            && w.successes == 2 * grants && w.failures == 2 * (Count(streams[u], ALLOCATE) - grants)
            && (w.failures == 0 <==> grants == Count(streams[u], ALLOCATE))
  {
    hide WorkerStep, Step, Fresh, RegionsDisjoint, CheckFrom, LiveAfter, OnTrack, Rest, AtWork, Tally, CountMain, Count;
    var n := |moves|;
    PlainStreams(streams);
    PlainCounted(streams);
    EveryEntryCounted(states, moves, streams);
    ConcurrentMeaning(states, moves, streams, u, n);
    AllTallied(states, moves, streams, u, n);
    AlwaysAccounted(states, moves, streams, n);
    assert OnTrack(states[n].workers[u]);
    DoneHoldsNothing(states[n].workers[u]);
    PlainCounts(map[], streams[u]);
  }

  lemma PlainCounted(streams: seq<seq<Entry>>)
    requires forall w :: 0 <= w < |streams| ==> Plain(streams[w])
    ensures forall w :: 0 <= w < |streams| ==> NoTrimReset(streams[w])
  {
  }
}
