/** Payload integrity of concurrent replay, the other half: streams that are not safe fail a pattern check
    over some allocator that meets its contract, in some interleaving. */
module ReplayUnsafe {
  import opened Bits
  import opened Traces
  import opened Replay
  import opened ReplaySafety
  import Patterns

  // ---- reaching one state from another ----

  ghost predicate Path(states: seq<Sys>, moves: seq<Move>, s: Sys, t: Sys)
  {
    Execution(states, moves) && states[0] == s && states[|moves|] == t
  }

  ghost predicate Reach(s: Sys, t: Sys) { exists states, moves :: Path(states, moves, s, t) }

  lemma ReachSelf(s: Sys)
    ensures Reach(s, s)
  {
    assert Path([s], [], s, s);
  }

  lemma ReachStep(s: Sys, move: Move, t: Sys)
    requires Step(s, move, t)
    ensures Reach(s, t)
  {
    hide Step;
    assert Path([s, t], [move], s, t);
  }

  lemma ReachTrans(s: Sys, t: Sys, u: Sys)
    requires Reach(s, t) && Reach(t, u)
    ensures Reach(s, u)
  {
    hide Step;
    var st1, mv1 :| Path(st1, mv1, s, t);
    var st2, mv2 :| Path(st2, mv2, t, u);
    var st, mv := st1 + st2[1..], mv1 + mv2;
    forall i | 0 <= i < |mv| ensures Step(st[i], mv[i], st[i + 1]) {
      if i < |mv1| {
        assert Step(st1[i], mv1[i], st1[i + 1]);
      } else {
        assert Step(st2[i - |mv1|], mv2[i - |mv1|], st2[i - |mv1| + 1]);
        assert st[i] == st2[i - |mv1|];
      }
    }
    assert Path(st, mv, s, u);
  }

  // ---- an adversary ----

  ghost predicate Within(r: Region, lo: nat, n: nat) { lo <= r.addr && 1 <= r.size && r.addr + r.size <= n }

  /** Live regions lie between lo and n, and everything given out so far, handles and memory, is below n. */
  ghost predicate Bounded(s: Sys, lo: nat, n: nat)
  {
    && Shape(s)
    && (forall h :: h in s.used ==> h < n)
    && (forall h :: h in s.view ==> Within(s.view[h], lo, n))
    && (forall w, id :: 0 <= w < |s.workers| && id in s.workers[w].pending ==>
        Within(s.workers[w].pending[id].region, 0, n))
  }

  /** Some byte of the region is not the pattern's. */
  ghost predicate Bad(m: Memory, r: Region, id: u64)
  {
    exists i: nat {:trigger PatternByte(id, i)} :: i < r.size && m(r.addr + i) != PatternByte(id, i)
  }

  /** Worker k is between two entries of its stream. */
  predicate Between(s: Sys, k: nat) { k < |s.workers| && s.workers[k].pc == Idle }

  predicate Ready(s: Sys, k: nat) { Between(s, k) && s.workers[k].todo != [] }

  predicate OthersSame(s: Sys, s': Sys, k: nat)
  {
    |s'.workers| == |s.workers| && forall u :: 0 <= u < |s.workers| && u != k ==> s'.workers[u] == s.workers[u]
  }

  /** Worker k has done its next entry. */
  predicate DidEntry(s: Sys, s': Sys, k: nat)
    requires Ready(s, k)
  {
    && OthersSame(s, s', k) && Between(s', k) && s'.workers[k].todo == s.workers[k].todo[1..]
    && (s.workers[k].invariantFailed ==> s'.workers[k].invariantFailed)
  }

  function Put(s: Sys, k: nat, w': Worker): Sys
    requires k < |s.workers|
  {
    s.(workers := s.workers[k := w'])
  }

  lemma BoundedLater(s: Sys, lo: nat, n: nat, n': nat)
    requires Bounded(s, lo, n) && n <= n'
    ensures Bounded(s, lo, n')
  {
    hide Shape;
  }

  /** A step that changes only worker k, memory, and takes regions away. */
  lemma QuietStep(s: Sys, move: Move, s': Sys, lo: nat, n: nat)
    requires Bounded(s, lo, n) && Step(s, move, s') && s'.used == s.used
    requires forall h :: h in s'.view ==> h in s.view && s'.view[h] == s.view[h]
    requires var w, w' := s.workers[move.worker], s'.workers[move.worker];
             forall id :: id in w'.pending ==> id in w.pending && w'.pending[id] == w.pending[id]
    ensures Bounded(s', lo, n) && OthersSame(s, s', move.worker) && Reach(s, s')
  {
    hide WorkerStep, Fresh, Shape, Within;
    StepShape(s, move, s');
    SameWorkers(s, move, s');
    ReachStep(s, move, s');
    forall u, id | 0 <= u < |s'.workers| && id in s'.workers[u].pending
      ensures Within(s'.workers[u].pending[id].region, 0, n)
    {
      assert id in s.workers[u].pending && s'.workers[u].pending[id] == s.workers[u].pending[id];
    }
  }

  /** Writing the pattern to its end. */
  lemma {:induction false} WriteAll(s: Sys, k: nat, lo: nat, n: nat) returns (s': Sys)
    requires Bounded(s, lo, n) && k < |s.workers| && s.workers[k].pc.Writing?
    ensures Bounded(s', lo, n) && OthersSame(s, s', k) && Reach(s, s') && s'.view == s.view && s'.used == s.used
    ensures var w := s.workers[k];
            && s'.workers[k] == w.(pc := Idle)
            && forall x: nat {:trigger s'.mem(x)} ::
                 s'.mem(x) == if w.pc.region.addr + w.pc.i <= x < w.pc.region.addr + w.pc.region.size
                              then PatternByte(w.pc.id, x - w.pc.region.addr) else s.mem(x)
    decreases s.workers[k].pc.region.size - s.workers[k].pc.i
  {
    hide PatternByte, Shape, WorkerShape, Within;
    var w := s.workers[k];
    var r, i, id := w.pc.region, w.pc.i, w.pc.id;
    WritingIn(s, k);
    if i == r.size {
      s' := Put(s, k, w.(pc := Idle));
      SkipStep(s, k, s', lo, n);
    } else {
      var m: Memory := x => if x == r.addr + i then PatternByte(id, i) else s.mem(x);
      var t := Put(s, k, w.(pc := Writing(id, r, i + 1))).(mem := m);
      SkipStep(s, k, t, lo, n);
      s' := WriteAll(t, k, lo, n);
      ReachTrans(s, t, s');
    }
  }

  lemma WritingIn(s: Sys, k: nat)
    requires Shape(s) && k < |s.workers| && s.workers[k].pc.Writing?
    ensures s.workers[k].pc.i <= s.workers[k].pc.region.size
  {
    hide RegionsDisjoint, Known;
    assert WorkerShape(s.view, s.used, s.workers[k]);
  }

  /** A step of worker k that calls nobody. */
  lemma SkipStep(s: Sys, k: nat, s': Sys, lo: nat, n: nat)
    requires Bounded(s, lo, n) && k < |s.workers| && |s'.workers| == |s.workers| && s'.view == s.view
        && s'.used == s.used
    requires s'.workers == s.workers[k := s'.workers[k]] && s'.workers[k].pending == s.workers[k].pending
    requires WorkerStep(s.view, s.mem, s.workers[k], Fails, s'.view, s'.mem, s'.workers[k])
    ensures Bounded(s', lo, n) && OthersSame(s, s', k) && Reach(s, s')
  {
    hide WorkerStep, Within, RegionsDisjoint, WorkerShape;
    assert Step(s, Move(k, Fails), s');
    QuietStep(s, Move(k, Fails), s', lo, n);
  }

  /** Checking the pattern up to the call; a wrong byte is found. */
  lemma {:induction false} VerifyAll(s: Sys, k: nat, lo: nat, n: nat) returns (s': Sys)
    requires Bounded(s, lo, n) && k < |s.workers| && s.workers[k].pc.Verifying?
    requires s.workers[k].pc.e.id in s.workers[k].pending
    ensures Bounded(s', lo, n) && OthersSame(s, s', k) && Reach(s, s') && s'.view == s.view && s'.used == s.used
    ensures s'.mem == s.mem
    ensures var w, w' := s.workers[k], s'.workers[k];
            && w' == w.(pc := Calling(w.pc.e), invariantFailed := w'.invariantFailed)
            && (w.invariantFailed ==> w'.invariantFailed)
            && ((exists j: nat {:trigger PatternByte(w.pc.e.id, j)} :: w.pc.i <= j < w.pending[w.pc.e.id].region.size
                   && s.mem(w.pending[w.pc.e.id].region.addr + j) != PatternByte(w.pc.e.id, j)) ==> w'.invariantFailed)
    decreases s.workers[k].pending[s.workers[k].pc.e.id].region.size - s.workers[k].pc.i
  {
    hide PatternByte, Bounded;
    var w := s.workers[k];
    var e, i := w.pc.e, w.pc.i;
    var r := w.pending[e.id].region;
    if i >= r.size {
      s' := Put(s, k, w.(pc := Calling(e)));
      SkipStep(s, k, s', lo, n);
    } else if s.mem(r.addr + i) != PatternByte(e.id, i) {
      s' := Put(s, k, w.(pc := Calling(e), invariantFailed := true));
      SkipStep(s, k, s', lo, n);
    } else {
      var t := Put(s, k, w.(pc := Verifying(e, i + 1)));
      SkipStep(s, k, t, lo, n);
      s' := VerifyAll(t, k, lo, n);
      ReachTrans(s, t, s');
    }
  }

  // ---- one entry ----

  /** The worker as it takes its next entry. */
  function Taken(w: Worker): Worker
    requires w.todo != []
  {
    w.(todo := w.todo[1..], ops := w.ops + 1)
  }

  lemma GrantStep(s: Sys, k: nat, lo: nat, n: nat, r: Region, n': nat) returns (t: Sys)
    requires Bounded(s, lo, n) && Ready(s, k) && s.workers[k].todo[0].op == ALLOCATE
    requires s.workers[k].todo[0].id !in s.workers[k].pending
    requires Within(r, 0, n') && n < n' && forall h :: h in s.view ==> s.view[h].Disjoint(r)
    ensures t == s.(view := s.view[n := r], used := s.used + {n},
                    workers := s.workers[k := AfterAllocate(Taken(s.workers[k]), s.workers[k].todo[0], Grants(n, r))])
    ensures Shape(t) && Reach(s, t) && OthersSame(s, t, k)
    ensures lo <= r.addr ==> Bounded(t, lo, n')
  {
    hide PatternByte, Shape;
    var w, e, reply := s.workers[k], s.workers[k].todo[0], Grants(n, r);
    ShapeUsed(s);
    t := s.(view := s.view[n := r], used := s.used + {n},
            workers := s.workers[k := AfterAllocate(Taken(w), e, reply)]);
    assert Begins(s.view, s.mem, w, reply, t.view, t.mem, t.workers[k]);
    assert Step(s, Move(k, reply), t);
    StepShape(s, Move(k, reply), t);
    ReachStep(s, Move(k, reply), t);
  }

  lemma ShapeUsed(s: Sys)
    requires Shape(s)
    ensures s.view.Keys <= s.used
  {
    hide RegionsDisjoint, WorkerShape;
  }

  /** An allocation, granted the region r and filled with its pattern. */
  lemma DriveAllocate(s: Sys, k: nat, lo: nat, n: nat, r: Region, n': nat) returns (s': Sys)
    requires Bounded(s, lo, n) && Ready(s, k) && s.workers[k].todo[0].op == ALLOCATE
    requires s.workers[k].todo[0].id !in s.workers[k].pending
    requires Within(r, lo, n') && n < n' && forall h :: h in s.view ==> s.view[h].Disjoint(r)
    ensures Bounded(s', lo, n') && DidEntry(s, s', k) && Reach(s, s')
    ensures s'.workers[k].pending == s.workers[k].pending[s.workers[k].todo[0].id := Pending(n, r)]
    ensures forall x: nat {:trigger s'.mem(x)} ::
              s'.mem(x) == if r.addr <= x < r.addr + r.size
                  then PatternByte(s.workers[k].todo[0].id, x - r.addr) else s.mem(x)
  {
    hide PatternByte, Shape, Step;
    var t := GrantStep(s, k, lo, n, r, n');
    s' := WriteAll(t, k, lo, n');
    ReachTrans(s, t, s');
  }

  /** Entries that neither reset nor touch the table: failed allocations, trims, markers, and frees and
      reallocations of ids that are not in it. */
  predicate Idles(w: Worker)
    requires w.todo != []
  {
    var e := w.todo[0];
    && e.op != RESET
    && (e.op == ALLOCATE ==> e.id in w.pending)
    && (e.op == FREE || e.op == REALLOCATE ==> e.id !in w.pending)
  }

  lemma DriveIdle(s: Sys, k: nat, lo: nat, n: nat) returns (s': Sys)
    requires Bounded(s, lo, n) && Ready(s, k) && Idles(s.workers[k])
    ensures Bounded(s', lo, n) && DidEntry(s, s', k) && Reach(s, s')
    ensures s'.view == s.view && s'.mem == s.mem && s'.workers[k].pending == s.workers[k].pending
  {
    hide Shape, Within;
    var w := s.workers[k];
    var e, w1 := w.todo[0], Taken(w);
    var counted := e.op == ALLOCATE || e.op == FREE || e.op == REALLOCATE || e.op == TRIM;
    s' := Put(s, k, if counted then w1.(failures := w.failures + 1) else w1);
    assert Begins(s.view, s.mem, w, Fails, s'.view, s'.mem, s'.workers[k]);
    SkipStep(s, k, s', lo, n);
  }

  /** A reset that leaves the same byte everywhere. */
  lemma DriveReset(s: Sys, k: nat, lo: nat, n: nat, c: byte) returns (s': Sys)
    requires Bounded(s, lo, n) && Ready(s, k) && s.workers[k].todo[0].op == RESET
    ensures Bounded(s', lo, n) && DidEntry(s, s', k) && Reach(s, s')
    ensures s'.view == map[] && (forall x {:trigger s'.mem(x)} :: s'.mem(x) == c)
    ensures s'.workers[k].pending == s.workers[k].pending
  {
    hide Shape, Within;
    var w := s.workers[k];
    s' := Put(s, k, Taken(w)).(view := map[], mem := x => c);
    assert Begins(s.view, s.mem, w, Succeeds, s'.view, s'.mem, s'.workers[k]);
    assert Step(s, Move(k, Succeeds), s');
    QuietStep(s, Move(k, Succeeds), s', lo, n);
  }

  lemma FreeCall(v: View, h: nat)
    ensures Contract(v, CallFree(h), if h in v then Succeeds else Fails, v - {h})
  {
    if h !in v {
      assert forall g :: g in v ==> g in v - {h};
      assert v - {h} == v;
    }
  }

  /** The call of a free or a reallocation; reallocations fail. */
  lemma FinishEntry(s: Sys, k: nat, lo: nat, n: nat) returns (s': Sys)
    requires Bounded(s, lo, n) && k < |s.workers| && s.workers[k].pc.Calling?
        && s.workers[k].pc.e.id in s.workers[k].pending
    ensures Bounded(s', lo, n) && OthersSame(s, s', k) && Between(s', k) && Reach(s, s') && s'.mem == s.mem
    ensures var w, w' := s.workers[k], s'.workers[k];
            && w'.todo == w.todo && w'.invariantFailed == w.invariantFailed
            && w'.pending == if w.pc.e.op == FREE then w.pending - {w.pc.e.id} else w.pending
  {
    hide Shape, Within;
    var w := s.workers[k];
    var e := w.pc.e;
    var h := w.pending[e.id].handle;
    if e.op == FREE {
      var reply := if h in s.view then Succeeds else Fails;
      s' := Put(s, k, AfterFree(w, e, reply)).(view := s.view - {h});
      FreeCall(s.view, h);
      ShapeUsed(s);
      assert Finishes(s.view, s.mem, w, reply, s'.view, s'.mem, s'.workers[k]);
      assert Step(s, Move(k, reply), s');
      QuietStep(s, Move(k, reply), s', lo, n);
    } else {
      s' := Put(s, k, AfterReallocate(w, e, Fails));
      assert Finishes(s.view, s.mem, w, Fails, s'.view, s'.mem, s'.workers[k]);
      SkipStep(s, k, s', lo, n);
    }
  }

  /** A free or reallocation of an id in the table. */
  lemma DriveCall(s: Sys, k: nat, lo: nat, n: nat) returns (s': Sys)
    requires Bounded(s, lo, n) && Ready(s, k)
    requires var e := s.workers[k].todo[0]; (e.op == FREE || e.op == REALLOCATE) && e.id in s.workers[k].pending
    ensures Bounded(s', lo, n) && DidEntry(s, s', k) && Reach(s, s') && s'.mem == s.mem
    ensures var w, w', e := s.workers[k], s'.workers[k], s.workers[k].todo[0];
            && w'.pending == (if e.op == FREE then w.pending - {e.id} else w.pending)
            && (IsCheck(e) && Bad(s.mem, w.pending[e.id].region, e.id) ==> w'.invariantFailed)
  {
    hide PatternByte, Shape, Within, Step, Reach;
    var w := s.workers[k];
    var e := w.todo[0];
    var t := Put(s, k, Taken(w).(pc := if IsCheck(e) then Verifying(e, 0) else Calling(e)));
    assert Begins(s.view, s.mem, w, Fails, t.view, t.mem, t.workers[k]);
    SkipStep(s, k, t, lo, n);
    var u := t;
    if IsCheck(e) {
      u := VerifyAll(t, k, lo, n);
      ReachTrans(s, t, u);
    }
    s' := FinishEntry(u, k, lo, n);
    ReachTrans(s, u, s');
  }

  // ---- what an entry does, driven so that memory below n changes only at a reset ----

  ghost predicate Drove(s: Sys, s': Sys, k: nat, lo: nat, n: nat, c: byte)
    requires Ready(s, k)
  {
    && Bounded(s', lo, n + 1) && DidEntry(s, s', k) && Reach(s, s')
    && var w, w', e := s.workers[k], s'.workers[k], s.workers[k].todo[0];
    && w'.pending.Keys == Table(w.pending.Keys, e)
    && (forall id :: id in w.pending && id in w'.pending ==> w'.pending[id] == w.pending[id])
    && (forall x: nat {:trigger s'.mem(x)} :: x < n ==> s'.mem(x) == if e.op == RESET then c else s.mem(x))
    && (e.op == RESET ==> s'.view == map[])
    && (IsCheck(e) && e.id in w.pending && Bad(s.mem, w.pending[e.id].region, e.id) ==> w'.invariantFailed)
  }

  lemma DriveEntry(s: Sys, k: nat, lo: nat, n: nat, c: byte) returns (s': Sys)
    requires Bounded(s, lo, n) && Ready(s, k) && lo <= n
    ensures Drove(s, s', k, lo, n, c)
  {
    hide PatternByte, Shape, Bad, Reach;
    var w, e := s.workers[k], s.workers[k].todo[0];
    if Idles(w) {
      s' := DriveIdle(s, k, lo, n);
      BoundedLater(s', lo, n, n + 1);
    } else if e.op == RESET {
      s' := DriveReset(s, k, lo, n, c);
      BoundedLater(s', lo, n, n + 1);
    } else if e.op == ALLOCATE {
      s' := DriveAllocate(s, k, lo, n, Region(n, 1), n + 1);
    } else {
      s' := DriveCall(s, k, lo, n);
      BoundedLater(s', lo, n, n + 1);
    }
  }

  // ---- a table entry that has lost its pattern ----

  /** The entry's memory is spoiled, and a reset to c would spoil it again. */
  ghost predicate Doomed(s: Sys, k: nat, id: u64, c: byte)
  {
    && k < |s.workers| && id in s.workers[k].pending
    && Bad(s.mem, s.workers[k].pending[id].region, id) && c != PatternByte(id, 0)
  }

  ghost predicate EndsFailed(s: Sys, t: Sys, k: nat)
  {
    Reach(s, t) && |t.workers| == |s.workers| && k < |t.workers| && t.workers[k].invariantFailed
  }

  lemma Spoiled(m: Memory, r: Region, id: u64, c: byte)
    requires r.size >= 1 && m(r.addr) == c && c != PatternByte(id, 0)
    ensures Bad(m, r, id)
  {
    hide PatternByte;
    assert m(r.addr + 0) != PatternByte(id, 0);
  }

  lemma BadStays(m: Memory, m': Memory, r: Region, id: u64)
    requires Bad(m, r, id) && forall x: nat {:trigger m'(x)} :: r.addr <= x < r.addr + r.size ==> m'(x) == m(x)
    ensures Bad(m', r, id)
  {
    hide PatternByte;
    var i: nat :| i < r.size && m(r.addr + i) != PatternByte(id, i);
    assert m'(r.addr + i) != PatternByte(id, i);
  }

  /** An entry driven by any worker leaves it spoiled, unless it frees it. */
  lemma DoomedStays(s: Sys, s': Sys, j: nat, lo: nat, n: nat, c: byte, k: nat, id: u64)
    requires Bounded(s, lo, n) && Ready(s, j) && Drove(s, s', j, lo, n, c) && Doomed(s, k, id, c)
    requires j == k ==> !(s.workers[k].todo[0].op == FREE && s.workers[k].todo[0].id == id)
    ensures Doomed(s', k, id, c)
  {
    hide PatternByte, Shape, Bad, Reach;
    var p := s.workers[k].pending[id];
    assert Within(p.region, 0, n);
    if j == k {
      assert id in s.workers[k].pending.Keys && id in Table(s.workers[k].pending.Keys, s.workers[k].todo[0]);
      assert id in s'.workers[k].pending;
    }
    assert id in s'.workers[k].pending && s'.workers[k].pending[id] == p;
    if s.workers[j].todo[0].op == RESET { Spoiled(s'.mem, p.region, id, c); }
    else { BadStays(s.mem, s'.mem, p.region, id); }
  }

  /** A spoiled entry that will be checked fails its check. */
  lemma {:induction false} DoomedRuns(s: Sys, k: nat, id: u64, lo: nat, n: nat, c: byte) returns (t: Sys)
    requires Bounded(s, lo, n) && lo <= n && Between(s, k) && Doomed(s, k, id, c) && CheckOf(s.workers[k].todo, {id})
    ensures EndsFailed(s, t, k)
    decreases |s.workers[k].todo|
  {
    hide PatternByte, Bounded, Bad, Reach;
    var w := s.workers[k];
    var e := w.todo[0];
    t := DriveEntry(s, k, lo, n, c);
    if !(IsCheck(e) && e.id == id) {
      FreedUnchecked(w.todo, id);
      var u := t;
      DoomedStays(s, u, k, lo, n, c, k, id);
      t := DoomedRuns(u, k, id, lo, n + 1, c);
      ReachTrans(s, u, t);
    }
  }

  lemma FreedUnchecked(es: seq<Entry>, id: u64)
    requires CheckOf(es, {id}) && !(IsCheck(es[0]) && es[0].id == id)
    ensures !(es[0].op == FREE && es[0].id == id) && CheckOf(es[1..], {id})
  {
    if es[0].op == FREE && es[0].id == id {
      assert Left({id}, es[0]) == {};
      NothingChecked(es[1..]);
    } else {
      assert Left({id}, es[0]) == {id};
    }
  }

  lemma {:induction false} NothingChecked(es: seq<Entry>)
    ensures !CheckOf(es, {})
    decreases |es|
  {
    if es != [] {
      var none: set<u64> := {};
      assert Left(none, es[0]) == none;
      NothingChecked(es[1..]);
    }
  }

  lemma {:induction false} CheckOfOne(es: seq<Entry>, ids: set<u64>) returns (id: u64)
    requires CheckOf(es, ids)
    ensures id in ids && CheckOf(es, {id})
    decreases |es|
  {
    if IsCheck(es[0]) && es[0].id in ids {
      id := es[0].id;
    } else {
      id := CheckOfOne(es[1..], Left(ids, es[0]));
      assert Left({id}, es[0]) == {id};
      assert CheckOf(es[1..], Left({id}, es[0]));
    }
  }

  lemma OtherByte(v: byte) returns (c: byte)
    ensures c != v
  {
    c := if v == 0 then 1 else 0;
  }

  // ---- an id checked across a reset of its own stream ----

  lemma {:induction false} StaleRuns(s: Sys, k: nat, lo: nat, n: nat) returns (t: Sys)
    requires Bounded(s, lo, n) && lo <= n && Between(s, k) && StaleCheck(s.workers[k].todo, s.workers[k].pending.Keys)
    ensures EndsFailed(s, t, k)
    decreases |s.workers[k].todo|
  {
    hide PatternByte, Shape, Bad, Reach;
    var w := s.workers[k];
    var c: byte := 0;
    var u;
    if w.todo[0].op == RESET && CheckOf(w.todo[1..], w.pending.Keys) {
      var id := CheckOfOne(w.todo[1..], w.pending.Keys);
      c := OtherByte(PatternByte(id, 0));
      u := DriveEntry(s, k, lo, n, c);
      assert Within(w.pending[id].region, 0, n) && id in u.workers[k].pending.Keys;
      Spoiled(u.mem, w.pending[id].region, id, c);
      t := DoomedRuns(u, k, id, lo, n + 1, c);
    } else {
      u := DriveEntry(s, k, lo, n, c);
      t := StaleRuns(u, k, lo, n + 1);
    }
    ReachTrans(s, u, t);
  }

  // ---- another stream checks ----

  /** Up to where an id that will be checked is in the table. */
  lemma {:induction false} ChecksFind(s: Sys, k: nat, lo: nat, n: nat) returns (t: Sys, n': nat, id: u64)
    requires Bounded(s, lo, n) && lo <= n && Between(s, k) && Checks(s.workers[k].todo, s.workers[k].pending.Keys)
    ensures n <= n' && Bounded(t, lo, n') && Between(t, k) && OthersSame(s, t, k) && Reach(s, t)
    ensures id in t.workers[k].pending && CheckOf(t.workers[k].todo, {id})
    decreases |s.workers[k].todo|
  {
    hide PatternByte, Bounded, Bad, Reach;
    var w := s.workers[k];
    var e := w.todo[0];
    if IsCheck(e) && e.id in w.pending {
      t, n', id := s, n, e.id;
      ReachSelf(s);
    } else {
      var u := DriveEntry(s, k, lo, n, 0);
      t, n', id := ChecksFind(u, k, lo, n + 1);
      ReachTrans(s, u, t);
    }
  }

  /** Through the next reset of worker k. */
  lemma {:induction false} ResetNext(s: Sys, k: nat, lo: nat, n: nat, c: byte) returns (t: Sys, n': nat)
    requires Bounded(s, lo, n) && lo <= n && Between(s, k) && HasReset(s.workers[k].todo)
    ensures n <= n' && Bounded(t, lo, n') && Between(t, k) && OthersSame(s, t, k) && Reach(s, t)
    ensures t.view == map[] && forall x: nat {:trigger t.mem(x)} :: x < n ==> t.mem(x) == c
    ensures LateCheck(s.workers[k].todo, s.workers[k].pending.Keys) ==>
        Checks(t.workers[k].todo, t.workers[k].pending.Keys)
    ensures !StaleCheck(s.workers[k].todo, s.workers[k].pending.Keys) ==>
        !CheckOf(t.workers[k].todo, t.workers[k].pending.Keys)
    decreases |s.workers[k].todo|
  {
    hide PatternByte, Bounded, Bad, Reach, Checks, CheckOf;
    var w := s.workers[k];
    var u := DriveEntry(s, k, lo, n, c);
    if w.todo[0].op == RESET {
      t, n' := u, n + 1;
    } else {
      var i :| 0 <= i < |w.todo| && w.todo[i].op == RESET;
      assert u.workers[k].todo[i - 1].op == RESET;
      t, n' := ResetNext(u, k, lo, n + 1, c);
      ReachTrans(s, u, t);
    }
  }

  lemma OtherChecks(s: Sys, a: nat, k: nat, lo: nat, n: nat) returns (t: Sys)
    requires Bounded(s, lo, n) && lo <= n && Between(s, a) && Between(s, k) && a != k
    requires HasReset(s.workers[a].todo) && Checks(s.workers[k].todo, s.workers[k].pending.Keys)
    ensures EndsFailed(s, t, k)
  {
    hide PatternByte, Shape, Bad, Reach, Checks, CheckOf, HasReset, LateCheck, StaleCheck;
    var u, n1, id := ChecksFind(s, k, lo, n);
    var c := OtherByte(PatternByte(id, 0));
    var v, n2 := ResetNext(u, a, lo, n1, c);
    assert Within(u.workers[k].pending[id].region, 0, n1);
    Spoiled(v.mem, v.workers[k].pending[id].region, id, c);
    t := DoomedRuns(v, k, id, lo, n2, c);
    ReachTrans(s, u, v);
    ReachTrans(s, v, t);
  }

  // ---- another stream is still writing ----

  lemma {:induction false} FirstAllocate(s: Sys, k: nat, lo: nat, n: nat) returns (t: Sys, n': nat)
    requires Bounded(s, lo, n) && lo <= n && Between(s, k) && HasAllocate(s.workers[k].todo)
        && s.workers[k].pending == map[]
    ensures n <= n' && Bounded(t, lo, n') && OthersSame(s, t, k) && Reach(s, t)
    ensures Ready(t, k) && t.workers[k].todo[0].op == ALLOCATE && t.workers[k].pending == map[]
    decreases |s.workers[k].todo|
  {
    hide PatternByte, Bounded, Bad, Reach;
    var w := s.workers[k];
    if w.todo[0].op == ALLOCATE {
      t, n' := s, n;
      ReachSelf(s);
    } else {
      var u := DriveEntry(s, k, lo, n, 0);
      var i :| 0 <= i < |w.todo| && w.todo[i].op == ALLOCATE;
      assert u.workers[k].todo[i - 1].op == ALLOCATE;
      assert u.workers[k].pending.Keys == {};
      t, n' := FirstAllocate(u, k, lo, n + 1);
      ReachTrans(s, u, t);
    }
  }

  /** Up to an allocation whose id will be checked, when nothing in the table will be. */
  lemma {:induction false} LateFind(s: Sys, k: nat, lo: nat, n: nat) returns (t: Sys, n': nat)
    requires Bounded(s, lo, n) && lo <= n && Between(s, k)
    requires Checks(s.workers[k].todo, s.workers[k].pending.Keys)
        && !CheckOf(s.workers[k].todo, s.workers[k].pending.Keys)
    ensures n <= n' && Bounded(t, lo, n') && Ready(t, k) && OthersSame(s, t, k) && Reach(s, t)
    ensures var e := t.workers[k].todo[0];
            e.op == ALLOCATE && e.id !in t.workers[k].pending && CheckOf(t.workers[k].todo[1..], {e.id})
    decreases |s.workers[k].todo|
  {
    hide PatternByte, Bounded, Bad, Reach;
    var w := s.workers[k];
    var e := w.todo[0];
    if e.op == ALLOCATE && e.id !in w.pending && CheckOf(w.todo[1..], {e.id}) {
      t, n' := s, n;
      ReachSelf(s);
    } else {
      StillUnchecked(w.todo, w.pending.Keys);
      var u := DriveEntry(s, k, lo, n, 0);
      t, n' := LateFind(u, k, lo, n + 1);
      ReachTrans(s, u, t);
    }
  }

  lemma StillUnchecked(es: seq<Entry>, table: set<u64>)
    requires Checks(es, table) && !CheckOf(es, table)
    requires es[0].op == ALLOCATE && es[0].id !in table ==> !CheckOf(es[1..], {es[0].id})
    ensures Checks(es[1..], Table(table, es[0])) && !CheckOf(es[1..], Table(table, es[0]))
  {
    var e := es[0];
    if e.op == ALLOCATE && CheckOf(es[1..], Table(table, e)) {
      var id := CheckOfOne(es[1..], Table(table, e));
      if id in table { CheckOfMono(es[1..], {id}, table); }
    } else if e.op != ALLOCATE {
      assert Left(table, e) == Table(table, e);
    }
  }

  lemma NewBounds(s: Sys, lo: nat, n: nat, lo': nat)
    requires Bounded(s, lo, n) && (s.view == map[] || lo' <= lo)
    ensures Bounded(s, lo', n)
  {
    hide Shape;
  }

  /** The first byte of a write, late. */
  lemma LateByte(s: Sys, b: nat, lo: nat, n: nat) returns (t: Sys)
    requires Bounded(s, lo, n) && b < |s.workers| && s.workers[b].pc.Writing? && s.workers[b].pc.i == 0
    requires s.workers[b].pc.region.size == 1
    ensures Bounded(t, lo, n) && OthersSame(s, t, b) && Reach(s, t)
    ensures forall x: nat {:trigger t.mem(x)} ::
              t.mem(x) == if x == s.workers[b].pc.region.addr then PatternByte(s.workers[b].pc.id, 0) else s.mem(x)
  {
    hide PatternByte, Bounded;
    var pc := s.workers[b].pc;
    var m: Memory := x => if x == pc.region.addr then PatternByte(pc.id, 0) else s.mem(x);
    t := Put(s, b, s.workers[b].(pc := Writing(pc.id, pc.region, 1))).(mem := m);
    SkipStep(s, b, t, lo, n);
  }

  /** Worker b is given a byte and does not write it; worker a resets, is given memory that ends with
      that byte, and writes its pattern; then b writes. */
  lemma LateWrite(s: Sys, a: nat, b: nat, lo: nat, n: nat) returns (t: Sys)
    requires Bounded(s, lo, n) && lo <= n && Between(s, a) && Between(s, b) && a != b && s.workers[b].pending == map[]
    requires HasReset(s.workers[a].todo) && HasAllocate(s.workers[b].todo)
    requires LateCheck(s.workers[a].todo, s.workers[a].pending.Keys)
    requires !StaleCheck(s.workers[a].todo, s.workers[a].pending.Keys)
    ensures EndsFailed(s, t, a)
  {
    hide PatternByte, Bounded, Bad, Reach, Checks, CheckOf, HasReset, LateCheck, StaleCheck, HasAllocate;
    var s1, n1 := FirstAllocate(s, b, lo, n);
    var x := n1 + Patterns.LAST;
    Granted(s1, lo, n1, x);
    var s2 := GrantStep(s1, b, lo, n1, Region(x, 1), x + 1);
    LoUp(s1, s2, lo, n1, x);
    ReachTrans(s, s1, s2);
    var s3, n3 := ResetNext(s2, a, lo, x + 1, 0);
    ReachTrans(s, s2, s3);
    NewBounds(s3, lo, n3, x + 1);
    var s4, n4 := LateFind(s3, a, x + 1, n3);
    ReachTrans(s, s3, s4);
    assert s4.workers[b].pc == Writing(s1.workers[b].todo[0].id, Region(x, 1), 0);
    t := LateFails(s4, a, b, x, n4);
    ReachTrans(s, s4, t);
  }

  lemma Granted(s: Sys, lo: nat, n: nat, x: nat)
    requires Bounded(s, lo, n) && n <= x
    ensures forall h :: h in s.view ==> s.view[h].Disjoint(Region(x, 1))
  {
    hide Shape;
    forall h | h in s.view ensures s.view[h].Disjoint(Region(x, 1)) { assert Within(s.view[h], lo, n); }
  }

  lemma LoUp(s: Sys, t: Sys, lo: nat, n: nat, x: nat)
    requires Bounded(s, lo, n) && lo <= n <= x && (lo <= Region(x, 1).addr ==> Bounded(t, lo, x + 1))
    ensures Bounded(t, lo, x + 1)
  {
    hide Bounded;
  }

  lemma LateFails(s: Sys, a: nat, b: nat, x: nat, n: nat) returns (t: Sys)
    requires Bounded(s, x + 1, n) && x + 1 <= n && x >= Patterns.LAST && Ready(s, a) && b < |s.workers| && a != b
    requires s.workers[b].pc.Writing? && s.workers[b].pc.region == Region(x, 1) && s.workers[b].pc.i == 0
    requires var e := s.workers[a].todo[0];
             e.op == ALLOCATE && e.id !in s.workers[a].pending && CheckOf(s.workers[a].todo[1..], {e.id})
    ensures EndsFailed(s, t, a)
  {
    hide PatternByte, Bounded, Bad, Reach, CheckOf;
    var id := s.workers[a].todo[0].id;
    var v := PatternByte(s.workers[b].pc.id, 0);
    var k := Patterns.NotConstant(id, v);
    var r := Region(x - k, k + 1);
    BelowAll(s, x, n, r);
    NewBounds(s, x + 1, n, 0);
    var s1 := DriveAllocate(s, a, 0, n, r, n + 1);
    var s2 := LateByte(s1, b, 0, n + 1);
    ReachTrans(s, s1, s2);
    assert s2.workers[a] == s1.workers[a] && s2.workers[a].pending[id].region == r;
    LastByteBad(s2.mem, r, id, k, v);
    var c := OtherByte(PatternByte(id, 0));
    t := DoomedRuns(s2, a, id, 0, n + 1, c);
    ReachTrans(s, s2, t);
  }

  lemma BelowAll(s: Sys, x: nat, n: nat, r: Region)
    requires Bounded(s, x + 1, n) && r.addr + r.size == x + 1
    ensures forall h :: h in s.view ==> s.view[h].Disjoint(r)
  {
    hide Shape;
    forall h | h in s.view ensures s.view[h].Disjoint(r) { assert Within(s.view[h], x + 1, n); }
  }

  lemma LastByteBad(m: Memory, r: Region, id: u64, k: nat, v: byte)
    requires r.size == k + 1 && m(r.addr + k) == v && PatternByte(id, k) != v
    ensures Bad(m, r, id)
  {
    hide PatternByte;
  }

  // ---- the theorem ----

  function Start(streams: seq<seq<Entry>>): Sys
  {
    Sys(map[], x => 0,
        seq(|streams|, w requires 0 <= w < |streams| => Worker(streams[w], map[], Idle, 0, 0, 0, false)), {})
  }

  lemma StartBounded(streams: seq<seq<Entry>>)
    ensures Initial(Start(streams), streams) && Bounded(Start(streams), 0, 0)
    ensures |Start(streams).workers| == |streams|
    ensures forall w :: 0 <= w < |streams| ==>
              var u := Start(streams).workers[w];
              Between(Start(streams), w) && u.todo == streams[w] && u.pending == map[] && u.pending.Keys == {}
  {
    InitialSound(Start(streams), streams);
  }

  lemma UnsafeFails(streams: seq<seq<Entry>>) returns (states: seq<Sys>, moves: seq<Move>, w: nat)
    requires !Safe(streams)
    ensures Execution(states, moves) && Initial(states[0], streams)
    ensures w < |streams| == |states[|moves|].workers| && states[|moves|].workers[w].invariantFailed
  {
    hide PatternByte, Bounded, Reach, Checks, HasReset, LateCheck, StaleCheck, HasAllocate, Execution, Initial;
    var s := Start(streams);
    StartBounded(streams);
    var a :| 0 <= a < |streams| && HasReset(streams[a]) &&
      !(&& (forall c :: 0 <= c < |streams| && c != a ==> !Checks(streams[c], {}))
        && !StaleCheck(streams[a], {})
        && ((exists b :: 0 <= b < |streams| && b != a && HasAllocate(streams[b])) ==> !LateCheck(streams[a], {})));
    var t;
    if c :| 0 <= c < |streams| && c != a && Checks(streams[c], {}) {
      w := c;
      t := OtherChecks(s, a, c, 0, 0);
    } else {
      w := a;
      if StaleCheck(streams[a], {}) {
        t := StaleRuns(s, a, 0, 0);
      } else {
        var b :| 0 <= b < |streams| && b != a && HasAllocate(streams[b]);
        t := LateWrite(s, a, b, 0, 0);
      }
    }
    states, moves := AlongPath(s, t);
  }

  lemma AlongPath(s: Sys, t: Sys) returns (states: seq<Sys>, moves: seq<Move>)
    requires Reach(s, t)
    ensures Execution(states, moves) && |states| == |moves| + 1 && states[0] == s && states[|moves|] == t
  {
    hide Step;
    states, moves :| Path(states, moves, s, t);
  }

  /** No check fails in any state of any run of these streams. */
  ghost predicate NeverFails(streams: seq<seq<Entry>>)
  {
    forall states: seq<Sys>, moves: seq<Move> :: Execution(states, moves) && Initial(states[0], streams) ==>
      forall k, w :: 0 <= k < |states| && 0 <= w < |streams| && w < |states[k].workers| ==>
        !states[k].workers[w].invariantFailed
  }

  /** Exactly the safe streams never fail a pattern check: over every allocator that meets its contract, in
      every interleaving, in every state. */
  lemma SafeIff(streams: seq<seq<Entry>>)
    ensures NeverFails(streams) <==> Safe(streams)
  {
    hide Step, Initial, Safe;
    if Safe(streams) {
      forall states: seq<Sys>, moves: seq<Move> | Execution(states, moves) && Initial(states[0], streams)
        ensures forall k, w :: 0 <= k < |states| && 0 <= w < |streams| && w < |states[k].workers| ==>
                  !states[k].workers[w].invariantFailed
      {
        forall k | 0 <= k < |states|
          ensures forall w :: 0 <= w < |streams| && w < |states[k].workers| ==> !states[k].workers[w].invariantFailed
        {
          PayloadIntegrity(states, moves, streams, k);
        }
      }
    } else {
      var states, moves, w := UnsafeFails(streams);
      Lengths(states, moves);
      assert !states[|moves|].workers[w].invariantFailed ==> false;
    }
  }

  lemma Lengths(states: seq<Sys>, moves: seq<Move>)
    requires Execution(states, moves)
    ensures |states| == |moves| + 1
  {
  }

  // ---- a concrete run ----

  function Plain(op: u16, id: u64): Entry { Entry.Entry(0, 0, op, id, 1, 0, 0, 0, 0, false, false, 0) }

  /** Allocate 1; Reset; Allocate 2; Free 1. */
  const RESET_TRACE: Trace :=
    Trace(TRACE_VERSION, 0, [], [Plain(ALLOCATE, 1), Plain(RESET, 1), Plain(ALLOCATE, 2), Plain(FREE, 1)])

  function Bytes(b: byte): Memory { x => b }

  /** Both allocations are given the same byte. */
  function ResetStates(): seq<Sys>
  {
    var es, r := RESET_TRACE.entries, Region(0, 1);
    var p1, p2 := Pending(1, r), Pending(2, r);
    var one, both := map[1 := p1], map[1 := p1, 2 := p2];
    var m0, m1, m2 := Bytes(0), (x: nat) => (if x == 0 then PatternByte(1, 0) else 0),
        (x: nat) => (if x == 0 then PatternByte(2, 0) else 0);
    [ Sys(map[], m0, [Worker(es, map[], Idle, 0, 0, 0, false)], {}),
      Sys(map[1 := r], m0, [Worker(es[1..], one, Writing(1, r, 0), 1, 1, 0, false)], {1}),
      Sys(map[1 := r], m1, [Worker(es[1..], one, Writing(1, r, 1), 1, 1, 0, false)], {1}),
      Sys(map[1 := r], m1, [Worker(es[1..], one, Idle, 1, 1, 0, false)], {1}),
      Sys(map[], m1, [Worker(es[2..], one, Idle, 2, 1, 0, false)], {1}),
      Sys(map[2 := r], m1, [Worker(es[3..], both, Writing(2, r, 0), 3, 2, 0, false)], {1, 2}),
      Sys(map[2 := r], m2, [Worker(es[3..], both, Writing(2, r, 1), 3, 2, 0, false)], {1, 2}),
      Sys(map[2 := r], m2, [Worker(es[3..], both, Idle, 3, 2, 0, false)], {1, 2}),
      Sys(map[2 := r], m2, [Worker([], both, Verifying(es[3], 0), 4, 2, 0, false)], {1, 2}),
      Sys(map[2 := r], m2, [Worker([], both, Calling(es[3]), 4, 2, 0, true)], {1, 2}) ]
  }

  function ResetMoves(): seq<Move>
  {
    var r := Region(0, 1);
    [ Move(0, Grants(1, r)), Move(0, Fails), Move(0, Fails), Move(0, Succeeds), Move(0, Grants(2, r)),
      Move(0, Fails), Move(0, Fails), Move(0, Fails), Move(0, Fails) ]
  }

  /** The validator accepts the trace, and its replay fails the check of id 1: the reset gave its memory to id 2. */
  lemma ResetRun()
    ensures Valid(RESET_TRACE) && StaleCheck(RESET_TRACE.entries, {})
    ensures Execution(ResetStates(), ResetMoves()) && Initial(ResetStates()[0], [RESET_TRACE.entries])
    ensures ResetStates()[9].workers[0].invariantFailed
  {
    hide PatternByte, Step;
    ResetTraceValid();
    FirstBytes();
    var st, mv := ResetStates(), ResetMoves();
    forall i | 0 <= i < |mv| ensures Step(st[i], mv[i], st[i + 1]) {
      if i < 4 { EarlySteps(i); } else { LateSteps(i); }
    }
  }

  lemma FirstBytes()
    ensures PatternByte(1, 0) == 227 && PatternByte(2, 0) == 252
  {
    StateIs(1, 0x9e3779b9917ed28d, 3933252495477097170, 0xe3f2ac66dd377718);
    StateIs(2, 0x3c6ef37310c94ea2, 1502368767002031314, 0xfcd81f09a516b1c9);
  }

  // The first state by its quotient.
  lemma StateIs(id: nat, s0: u64, q: nat, s1: u64)
    requires PatternState(id, 0) == s0 && s0 * Patterns.MUL + Patterns.INC == 0x1_0000_0000_0000_0000 * q + s1
    ensures PatternByte(id, 0) == s1 / 0x100_0000_0000_0000
  {
    hide PatternState;
    var q0 := Patterns.StateStep(id, 0);
    SameWord(PatternState(id, 1), s1, q - q0);
  }

  lemma SameWord(x: u64, y: u64, d: int)
    requires x == y + 0x1_0000_0000_0000_0000 * d
    ensures x == y
  {
  }

  lemma ResetTraceValid()
    ensures Valid(RESET_TRACE) && StaleCheck(RESET_TRACE.entries, {})
  {
    var es := RESET_TRACE.entries;
    assert es[1..] == [es[1], es[2], es[3]] && es[1..][1..] == [es[2], es[3]] && es[1..][1..][1..] == [es[3]];
    assert [es[3]][1..] == [];
    var none: set<u64> := {};
    assert Table(none, es[0]) == {1};
    assert Left({1}, es[2]) == {1};
    assert CheckOf([es[3]], {1});
    assert CheckOf([es[2], es[3]], {1});
    assert StaleCheck(es[1..], {1});
    CheckValid(es);
  }

  lemma CheckValid(es: seq<Entry>)
    requires es == RESET_TRACE.entries
    ensures CheckFrom(map[], es) == Accepted
  {
    var l1: map<u64, u64> := map[1 := 1];
    var l2 := l1[2 := 1];
    assert es[1..] == [es[1], es[2], es[3]] && [es[1], es[2], es[3]][1..] == [es[2], es[3]];
    assert [es[2], es[3]][1..] == [es[3]] && [es[3]][1..] == [];
    assert CheckFrom(l2, [es[3]]) == Accepted;
    assert CheckFrom(l1, [es[2], es[3]]) == CheckFrom(l2, [es[3]]);
    assert CheckFrom(l1, [es[1], es[2], es[3]]) == CheckFrom(l1, [es[2], es[3]]);
    assert Traces.Next(map[], es[0]) == l1;
  }

  lemma EarlySteps(i: nat)
    requires i < 4
    ensures Step(ResetStates()[i], ResetMoves()[i], ResetStates()[i + 1])
  {
    hide PatternByte;
  }

  lemma LateSteps(i: nat)
    requires 4 <= i < 9
    ensures Step(ResetStates()[i], ResetMoves()[i], ResetStates()[i + 1])
  {
    hide PatternByte;
    FirstBytes();
  }

  /** One worker allocates; another resets, allocates and frees. Neither checks an id across a reset, and still
      the second worker's check can fail: the first may be writing its pattern when the reset comes. */
  function LateStreams(): seq<seq<Entry>>
  {
    [[Plain(ALLOCATE, 1)], [Plain(RESET, 1), Plain(ALLOCATE, 2), Plain(FREE, 2)]]
  }

  lemma LateWriterFails()
    ensures (forall w :: 0 <= w < 2 ==> !StaleCheck(LateStreams()[w], {})) && !NeverFails(LateStreams())
  {
    hide NeverFails;
    var es, fs := LateStreams()[0], LateStreams()[1];
    var none: set<u64> := {};
    assert es[1..] == [] && fs[1..] == [fs[1], fs[2]] && fs[1..][1..] == [fs[2]] && [fs[2]][1..] == [];
    assert Table(none, fs[0]) == none && Table(none, fs[1]) == {2};
    NothingChecked(fs[1..]);
    assert Checks([fs[2]], {2});
    assert Checks(fs[1..], none);
    assert LateCheck(fs, none);
    assert HasReset(fs) by { assert fs[0].op == RESET; }
    assert HasAllocate(es) by { assert es[0].op == ALLOCATE; }
    assert !StaleCheck(fs, none) by { NoLaterReset(fs); }
    SafeIff(LateStreams());
  }

  lemma NoLaterReset(fs: seq<Entry>)
    requires fs == LateStreams()[1]
    ensures !StaleCheck(fs, {})
  {
    var none: set<u64> := {};
    NothingChecked(fs[1..]);
    assert fs[1..] == [fs[1], fs[2]] && fs[1..][1..] == [fs[2]] && [fs[2]][1..] == [];
    assert Table(none, fs[0]) == none && Table(none, fs[1]) == {2};
    assert !StaleCheck([fs[2]], {2});
    assert !StaleCheck([fs[1], fs[2]], none);
  }
}
