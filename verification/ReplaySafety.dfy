/** Payload integrity of concurrent replay with resets: which streams never see a failed pattern check,
    whatever the interleaving and whatever the allocator. */
module ReplaySafety {
  import opened Bits
  import opened Traces
  import opened Replay

  // ---- what a stream can still check ----

  predicate HasReset(es: seq<Entry>) { exists i :: 0 <= i < |es| && es[i].op == RESET }

  predicate HasAllocate(es: seq<Entry>) { exists i :: 0 <= i < |es| && es[i].op == ALLOCATE }

  /** Entries that verify a pattern, if their id is in the table. */
  predicate IsCheck(e: Entry) { e.op == REALLOCATE || (e.op == FREE && e.size != 0) }

  /** The ids that can be in the table after an entry. */
  function Table(table: set<u64>, e: Entry): set<u64>
  {
    if e.op == ALLOCATE then table + {e.id} else if e.op == FREE then table - {e.id} else table
  }

  /** Some entry checks an id that can be in the table. */
  predicate Checks(es: seq<Entry>, table: set<u64>)
    decreases |es|
  {
    es != [] && ((IsCheck(es[0]) && es[0].id in table) || Checks(es[1..], Table(table, es[0])))
  }

  function Left(ids: set<u64>, e: Entry): set<u64> { if e.op == FREE then ids - {e.id} else ids }

  /** One of the ids is checked before it is freed. */
  predicate CheckOf(es: seq<Entry>, ids: set<u64>)
    decreases |es|
  {
    es != [] && ((IsCheck(es[0]) && es[0].id in ids) || CheckOf(es[1..], Left(ids, es[0])))
  }

  /** Some id is checked after a reset that its allocation precedes. */
  predicate StaleCheck(es: seq<Entry>, table: set<u64>)
    decreases |es|
  {
    es != [] && ((es[0].op == RESET && CheckOf(es[1..], table)) || StaleCheck(es[1..], Table(table, es[0])))
  }

  /** Some id is checked after the first reset. */
  predicate LateCheck(es: seq<Entry>, table: set<u64>)
    decreases |es|
  {
    es != [] && if es[0].op == RESET then Checks(es[1..], table) else LateCheck(es[1..], Table(table, es[0]))
  }

  /** The condition on the streams. For each stream with a reset: no other stream checks anything; it does
      not itself check an id across a reset; and if another stream allocates, so that a pattern may still be
      being written when the reset comes, it checks nothing after its first reset. */
  predicate Safe(streams: seq<seq<Entry>>)
  {
    forall a :: 0 <= a < |streams| && HasReset(streams[a]) ==>
      && (forall c :: 0 <= c < |streams| && c != a ==> !Checks(streams[c], {}))
      && !StaleCheck(streams[a], {})
      && ((exists b :: 0 <= b < |streams| && b != a && HasAllocate(streams[b])) ==> !LateCheck(streams[a], {}))
  }

  lemma {:induction false} ChecksMono(es: seq<Entry>, p: set<u64>, q: set<u64>)
    requires p <= q && Checks(es, p)
    ensures Checks(es, q)
    decreases |es|
  {
    if !(IsCheck(es[0]) && es[0].id in p) { ChecksMono(es[1..], Table(p, es[0]), Table(q, es[0])); }
  }

  lemma {:induction false} CheckOfMono(es: seq<Entry>, p: set<u64>, q: set<u64>)
    requires p <= q && CheckOf(es, p)
    ensures CheckOf(es, q)
    decreases |es|
  {
    if !(IsCheck(es[0]) && es[0].id in p) { CheckOfMono(es[1..], Left(p, es[0]), Left(q, es[0])); }
  }

  lemma {:induction false} StaleMono(es: seq<Entry>, p: set<u64>, q: set<u64>)
    requires p <= q && StaleCheck(es, p)
    ensures StaleCheck(es, q)
    decreases |es|
  {
    if es[0].op == RESET && CheckOf(es[1..], p) { CheckOfMono(es[1..], p, q); }
    else { StaleMono(es[1..], Table(p, es[0]), Table(q, es[0])); }
  }

  lemma {:induction false} LateMono(es: seq<Entry>, p: set<u64>, q: set<u64>)
    requires p <= q && LateCheck(es, p)
    ensures LateCheck(es, q)
    decreases |es|
  {
    if es[0].op == RESET { ChecksMono(es[1..], p, q); } else { LateMono(es[1..], Table(p, es[0]), Table(q, es[0])); }
  }

  lemma {:induction false} CheckOfChecks(es: seq<Entry>, ids: set<u64>, table: set<u64>)
    requires ids <= table && CheckOf(es, ids)
    ensures Checks(es, table)
    decreases |es|
  {
    if !(IsCheck(es[0]) && es[0].id in ids) { CheckOfChecks(es[1..], Left(ids, es[0]), Table(table, es[0])); }
  }

  // ---- the conditions by position ----

  predicate NotFreed(es: seq<Entry>, i: nat, j: nat, id: u64)
  {
    forall k :: i <= k < j && k < |es| ==> !(es[k].op == FREE && es[k].id == id)
  }

  /** The id can be in the table before entry q: it was there at the start, or an earlier entry allocated it,
      and nothing freed it since. */
  predicate InTable(es: seq<Entry>, q: nat, table: set<u64>, id: u64)
  {
    && q <= |es|
    && ((id in table && NotFreed(es, 0, q, id))
        || exists p :: 0 <= p < q && es[p].op == ALLOCATE && es[p].id == id && NotFreed(es, p, q, id))
  }

  lemma InTableShift(es: seq<Entry>, q: nat, table: set<u64>, id: u64)
    requires es != []
    ensures InTable(es[1..], q, Table(table, es[0]), id) <==> InTable(es, q + 1, table, id)
  {
    var rest, t := es[1..], Table(table, es[0]);
    if InTable(rest, q, t, id) {
      if p :| 0 <= p < q && rest[p].op == ALLOCATE && rest[p].id == id && NotFreed(rest, p, q, id) {
        forall k | p + 1 <= k < q + 1 ensures !(es[k].op == FREE && es[k].id == id) { assert es[k] == rest[k - 1]; }
        assert es[p + 1].op == ALLOCATE;
      } else {
        forall k | 1 <= k < q + 1 ensures !(es[k].op == FREE && es[k].id == id) { assert es[k] == rest[k - 1]; }
        assert id in table ==> NotFreed(es, 0, q + 1, id);
        assert id !in table ==> es[0].op == ALLOCATE && es[0].id == id && NotFreed(es, 0, q + 1, id);
      }
    }
    if InTable(es, q + 1, table, id) {
      if p :| 0 < p < q + 1 && es[p].op == ALLOCATE && es[p].id == id && NotFreed(es, p, q + 1, id) {
        forall k | p - 1 <= k < q ensures !(rest[k].op == FREE && rest[k].id == id) { assert es[k + 1] == rest[k]; }
        assert rest[p - 1].op == ALLOCATE;
      } else {
        forall k | 0 <= k < q ensures !(rest[k].op == FREE && rest[k].id == id) { assert es[k + 1] == rest[k]; }
      }
    }
  }

  /** Checks, by position: some entry checks an id that can be in the table there. */
  lemma {:induction false} ChecksMeaning(es: seq<Entry>, table: set<u64>)
    ensures Checks(es, table) <==>
              exists q: nat {:trigger es[q]} :: q < |es| && IsCheck(es[q]) && InTable(es, q, table, es[q].id)
    decreases |es|
  {
    hide InTable, IsCheck, Table;
    if es != [] {
      var rest, t := es[1..], Table(table, es[0]);
      ChecksMeaning(rest, t);
      AtStart(es, table, es[0].id);
      if q: nat :| q < |rest| && IsCheck(rest[q]) && InTable(rest, q, t, rest[q].id) {
        InTableShift(es, q, table, rest[q].id);
        assert es[q + 1] == rest[q];
      }
      if q: nat :| q < |es| && IsCheck(es[q]) && InTable(es, q, table, es[q].id) {
        if q > 0 {
          InTableShift(es, q - 1, table, es[q].id);
          assert rest[q - 1] == es[q];
        }
      }
    }
  }

  lemma AtStart(es: seq<Entry>, table: set<u64>, id: u64)
    ensures InTable(es, 0, table, id) <==> id in table
  {
  }

  /** CheckOf, by position. */
  lemma {:induction false} CheckOfMeaning(es: seq<Entry>, ids: set<u64>)
    ensures CheckOf(es, ids) <==>
              exists q: nat {:trigger es[q]} :: q < |es| && IsCheck(es[q]) && es[q].id in ids
                  && NotFreed(es, 0, q, es[q].id)
    decreases |es|
  {
    hide IsCheck;
    if es != [] {
      var rest, left := es[1..], Left(ids, es[0]);
      CheckOfMeaning(rest, left);
      if q: nat :| q < |rest| && IsCheck(rest[q]) && rest[q].id in left && NotFreed(rest, 0, q, rest[q].id) {
        assert es[q + 1] == rest[q];
        forall k | 0 <= k < q + 1 ensures !(es[k].op == FREE && es[k].id == rest[q].id) {
          assert k > 0 ==> es[k] == rest[k - 1];
        }
      }
      if q: nat :| q < |es| && IsCheck(es[q]) && es[q].id in ids && NotFreed(es, 0, q, es[q].id) {
        if q > 0 {
          assert rest[q - 1] == es[q];
          forall k | 0 <= k < q - 1 ensures !(rest[k].op == FREE && rest[k].id == es[q].id)
              { assert rest[k] == es[k + 1]; }
        }
      }
    }
  }

  /** A reset at r and a check at q of an id that can be in the table at r and is not freed between. */
  predicate Across(es: seq<Entry>, r: nat, q: nat, table: set<u64>)
  {
    && r < q < |es| && es[r].op == RESET && IsCheck(es[q])
    && InTable(es, r, table, es[q].id) && NotFreed(es, r, q, es[q].id)
  }

  /** StaleCheck, by position. */
  lemma {:induction false} StaleMeaning(es: seq<Entry>, table: set<u64>)
    ensures StaleCheck(es, table) <==> exists r: nat, q: nat :: Across(es, r, q, table)
    decreases |es|
  {
    hide IsCheck, InTable, CheckOf, NotFreed, Table;
    if es != [] {
      var rest, t := es[1..], Table(table, es[0]);
      StaleMeaning(rest, t);
      CheckOfMeaning(rest, table);
      if es[0].op == RESET && CheckOf(rest, table) {
        var q: nat :| q < |rest| && IsCheck(rest[q]) && rest[q].id in table && NotFreed(rest, 0, q, rest[q].id);
        AtStart(es, table, rest[q].id);
        FreedShift(es, 0, q, rest[q].id);
        assert es[q + 1] == rest[q] && Across(es, 0, q + 1, table);
      }
      if r: nat, q: nat :| Across(rest, r, q, t) {
        InTableShift(es, r, table, rest[q].id);
        FreedShift(es, r, q, rest[q].id);
        assert es[q + 1] == rest[q] && es[r + 1] == rest[r] && Across(es, r + 1, q + 1, table);
      }
      if r: nat, q: nat :| Across(es, r, q, table) {
        assert rest[q - 1] == es[q];
        if r == 0 {
          AtStart(es, table, es[q].id);
          FreedShift(es, 0, q - 1, es[q].id);
        } else {
          InTableShift(es, r - 1, table, es[q].id);
          FreedShift(es, r - 1, q - 1, es[q].id);
          assert rest[r - 1] == es[r] && Across(rest, r - 1, q - 1, t);
        }
      }
    }
  }

  /** A check at q, after a reset at r, of an id that can be in the table there. */
  predicate AfterReset(es: seq<Entry>, r: nat, q: nat, table: set<u64>)
  {
    r < q < |es| && es[r].op == RESET && IsCheck(es[q]) && InTable(es, q, table, es[q].id)
  }

  /** LateCheck, by position. */
  lemma {:induction false} LateMeaning(es: seq<Entry>, table: set<u64>)
    ensures LateCheck(es, table) <==> exists r: nat, q: nat :: AfterReset(es, r, q, table)
    decreases |es|
  {
    hide IsCheck, InTable, Checks, Table;
    if es != [] {
      var rest, t := es[1..], Table(table, es[0]);
      LateMeaning(rest, t);
      ChecksMeaning(rest, t);
      if es[0].op == RESET {
        ResetTable(table, es[0]);
        if q: nat :| q < |rest| && IsCheck(rest[q]) && InTable(rest, q, t, rest[q].id) {
          InTableShift(es, q, table, rest[q].id);
          assert es[q + 1] == rest[q] && AfterReset(es, 0, q + 1, table);
        }
      }
      if r: nat, q: nat :| AfterReset(rest, r, q, t) {
        InTableShift(es, q, table, rest[q].id);
        assert es[q + 1] == rest[q] && es[r + 1] == rest[r] && AfterReset(es, r + 1, q + 1, table);
      }
      if r: nat, q: nat :| AfterReset(es, r, q, table) {
        InTableShift(es, q - 1, table, es[q].id);
        assert rest[q - 1] == es[q];
        if r > 0 { assert rest[r - 1] == es[r] && AfterReset(rest, r - 1, q - 1, t); }
      }
    }
  }

  lemma FreedShift(es: seq<Entry>, i: nat, j: nat, id: u64)
    requires es != []
    ensures NotFreed(es, i + 1, j + 1, id) <==> NotFreed(es[1..], i, j, id)
    ensures es[0].op == RESET ==> (NotFreed(es, 0, j + 1, id) <==> NotFreed(es[1..], 0, j, id))
  {
    var rest := es[1..];
    if NotFreed(rest, i, j, id) {
      forall k | i + 1 <= k < j + 1 && k < |es| ensures !(es[k].op == FREE && es[k].id == id)
          { assert es[k] == rest[k - 1]; }
    }
    if NotFreed(es, i + 1, j + 1, id) {
      forall k | i <= k < j && k < |rest| ensures !(rest[k].op == FREE && rest[k].id == id)
          { assert rest[k] == es[k + 1]; }
    }
    if NotFreed(rest, 0, j, id) {
      forall k | 1 <= k < j + 1 && k < |es| ensures !(es[k].op == FREE && es[k].id == id)
          { assert es[k] == rest[k - 1]; }
    }
    if NotFreed(es, 0, j + 1, id) {
      forall k | 0 <= k < j && k < |rest| ensures !(rest[k].op == FREE && rest[k].id == id)
          { assert rest[k] == es[k + 1]; }
    }
  }

  // ---- what a worker can still check ----

  /** The ids in the table once the entry at hand is done. */
  function After(w: Worker): set<u64>
  {
    if (w.pc.Verifying? || w.pc.Calling?) && w.pc.e.op == FREE then w.pending.Keys - {w.pc.e.id} else w.pending.Keys
  }

  predicate FutureCheck(w: Worker)
  {
    w.pc.Verifying? || (w.pc.Calling? && w.pc.e.op != FREE) || Checks(w.todo, After(w))
  }

  predicate CanWrite(w: Worker) { w.pc.Writing? || HasAllocate(w.todo) }

  /** The table entry is being checked or will be. */
  predicate Matters(w: Worker, id: u64)
  {
    id in w.pending && ((w.pc.Verifying? && w.pc.e.id == id) || (id in After(w) && CheckOf(w.todo, {id})))
  }

  lemma MattersChecks(w: Worker, id: u64)
    requires Matters(w, id)
    ensures FutureCheck(w)
  {
    if !w.pc.Verifying? { CheckOfChecks(w.todo, {id}, After(w)); }
  }

  /** The rest of a stream after a step of its worker. */
  lemma RestStep(v: View, m: Memory, w: Worker, reply: Reply, v': View, m': Memory, w': Worker)
    requires WorkerStep(v, m, w, reply, v', m', w')
    ensures w.pc == Idle ==> w.todo != [] && w'.todo == w.todo[1..] && After(w') <= Table(After(w), w.todo[0])
    ensures w.pc != Idle ==> w'.todo == w.todo && After(w') <= After(w)
    ensures w'.pc.Verifying? ==> w.pc.Verifying? || (w.pc == Idle && IsCheck(w.todo[0]) && w.todo[0].id in After(w))
    ensures w'.pc.Verifying? && w.pc.Verifying? ==> w'.pc.e == w.pc.e
    ensures w'.pc.Verifying? && w.pc == Idle ==> w'.pc.e == w.todo[0]
    ensures w'.pc.Calling? && w'.pc.e.op != FREE ==> w.pc.Verifying?
    ensures w'.pc.Writing? ==>
              w.pc.Writing? || (w.pc == Idle && w.todo[0].op == ALLOCATE) || (w.pc.Calling? && w.pc.e.op != FREE)
    ensures w.invariantFailed ==> w'.invariantFailed
    ensures w'.invariantFailed ==> w.invariantFailed || w.pc.Verifying?
  {
    hide PatternByte, Calls, SetByte;
  }

  lemma StepFuture(v: View, m: Memory, w: Worker, reply: Reply, v': View, m': Memory, w': Worker)
    requires WorkerStep(v, m, w, reply, v', m', w')
    ensures FutureCheck(w') ==> FutureCheck(w)
    ensures HasReset(w'.todo) ==> HasReset(w.todo)
    ensures CanWrite(w') ==> CanWrite(w) || FutureCheck(w)
  {
    hide WorkerStep, After, Table, IsCheck, Checks;
    RestStep(v, m, w, reply, v', m', w');
    if w.pc == Idle {
      Unfold(w.todo, After(w));
      if HasAllocate(w'.todo) { var i :| 0 <= i < |w'.todo| && w'.todo[i].op == ALLOCATE;
          assert w.todo[i + 1] == w'.todo[i]; }
      if HasReset(w'.todo) { var i :| 0 <= i < |w'.todo| && w'.todo[i].op == RESET;
          assert w.todo[i + 1] == w'.todo[i]; }
      if Checks(w'.todo, After(w')) { ChecksMono(w'.todo, After(w'), Table(After(w), w.todo[0])); }
    } else if Checks(w'.todo, After(w')) {
      ChecksMono(w'.todo, After(w'), After(w));
    }
  }

  lemma Unfold(es: seq<Entry>, table: set<u64>)
    requires es != []
    ensures Checks(es, table) <==> (IsCheck(es[0]) && es[0].id in table) || Checks(es[1..], Table(table, es[0]))
    ensures es[0].op == ALLOCATE ==> HasAllocate(es)
    ensures es[0].op == RESET ==> HasReset(es)
  {
  }

  lemma StepStale(v: View, m: Memory, w: Worker, reply: Reply, v': View, m': Memory, w': Worker)
    requires WorkerStep(v, m, w, reply, v', m', w')
    ensures StaleCheck(w'.todo, After(w')) ==> StaleCheck(w.todo, After(w))
    ensures LateCheck(w'.todo, After(w')) ==> LateCheck(w.todo, After(w))
  {
    hide WorkerStep, After, Table, IsCheck, Checks, CheckOf;
    RestStep(v, m, w, reply, v', m', w');
    var p := if w.pc == Idle then Table(After(w), w.todo[0]) else After(w);
    if StaleCheck(w'.todo, After(w')) { StaleMono(w'.todo, After(w'), p); }
    if LateCheck(w'.todo, After(w')) {
      LateMono(w'.todo, After(w'), p);
      if Resets(w) { LateChecks(w'.todo, p); ResetTable(After(w), w.todo[0]); }
    }
  }

  lemma ResetTable(table: set<u64>, e: Entry)
    requires e.op == RESET
    ensures Table(table, e) == table
  {
  }

  lemma {:induction false} LateChecks(es: seq<Entry>, table: set<u64>)
    requires LateCheck(es, table)
    ensures Checks(es, table)
    decreases |es|
  {
    if es[0].op != RESET { LateChecks(es[1..], Table(table, es[0])); }
  }

  /** What a step does to the entries that matter. */
  lemma StepMatters(v: View, m: Memory, w: Worker, reply: Reply, v': View, m': Memory, w': Worker, id: u64)
    requires WorkerStep(v, m, w, reply, v', m', w') && Matters(w', id)
    ensures Kept(w, w', id) ==> Matters(w, id)
    ensures Resets(w) ==> StaleCheck(w.todo, After(w))
  {
    hide WorkerStep;
    RestStep(v, m, w, reply, v', m', w');
    if w.pc == Idle && id in After(w') && CheckOf(w'.todo, {id}) {
      var e := w.todo[0];
      if Resets(w) { CheckOfMono(w'.todo, {id}, After(w)); }
      if e.op == FREE && e.id == id { FreedLeaves(v, m, w, reply, v', m', w'); }
      else { assert Left({id}, e) == {id}; }
    }
  }

  lemma FreedLeaves(v: View, m: Memory, w: Worker, reply: Reply, v': View, m': Memory, w': Worker)
    requires WorkerStep(v, m, w, reply, v', m', w') && w.pc == Idle && w.todo[0].op == FREE
    ensures w.todo[0].id !in After(w')
  {
    hide PatternByte, Calls;
  }

  // ---- the invariant ----

  /** The condition on what the workers have still to do. */
  predicate SafeRest(ws: seq<Worker>)
  {
    forall a :: 0 <= a < |ws| && HasReset(ws[a].todo) ==>
      && (forall c :: 0 <= c < |ws| && c != a ==> !FutureCheck(ws[c]))
      && !StaleCheck(ws[a].todo, After(ws[a]))
      && ((exists b :: 0 <= b < |ws| && b != a && CanWrite(ws[b])) ==> !LateCheck(ws[a].todo, After(ws[a])))
  }

  /** While a stale pattern is being written, nobody has anything left to check. */
  ghost predicate StaleQuiet(s: Sys)
  {
    (exists b :: 0 <= b < |s.workers| && Stale(s.view, s.workers[b])) ==>
      forall w :: 0 <= w < |s.workers| ==> !FutureCheck(s.workers[w])
  }

  /** What matters is live and holds its pattern. */
  ghost predicate Kempt(s: Sys)
  {
    forall w, id :: 0 <= w < |s.workers| && id in s.workers[w].pending && Matters(s.workers[w], id) ==>
      Holds(s.view, s.mem, s.workers[w], id)
  }

  ghost predicate Guarded(s: Sys)
  {
    && Shape(s) && SafeRest(s.workers) && StaleQuiet(s) && Kempt(s)
    && forall w :: 0 <= w < |s.workers| ==> !s.workers[w].invariantFailed
  }

  lemma StepRest(s: Sys, move: Move, s': Sys)
    requires SafeRest(s.workers) && Step(s, move, s')
    ensures SafeRest(s'.workers)
  {
    hide WorkerStep, Fresh, FutureCheck, HasReset, StaleCheck, LateCheck, CanWrite, After;
    var k := move.worker;
    var ws, ws' := s.workers, s'.workers;
    StepFuture(s.view, s.mem, ws[k], move.reply, s'.view, s'.mem, ws'[k]);
    StepStale(s.view, s.mem, ws[k], move.reply, s'.view, s'.mem, ws'[k]);
    SameWorkers(s, move, s');
    forall a | 0 <= a < |ws'| && HasReset(ws'[a].todo)
      ensures forall c :: 0 <= c < |ws'| && c != a ==> !FutureCheck(ws'[c])
      ensures !StaleCheck(ws'[a].todo, After(ws'[a]))
      ensures (exists b :: 0 <= b < |ws'| && b != a && CanWrite(ws'[b])) ==> !LateCheck(ws'[a].todo, After(ws'[a]))
    {
      assert HasReset(ws[a].todo);
      forall c | 0 <= c < |ws'| && c != a ensures !FutureCheck(ws'[c]) { assert !FutureCheck(ws[c]); }
      if b :| 0 <= b < |ws'| && b != a && CanWrite(ws'[b]) {
        assert !FutureCheck(ws[b]) && CanWrite(ws[b]);
        assert !LateCheck(ws[a].todo, After(ws[a]));
      }
    }
  }

  /** Only a reset makes a write stale. */
  lemma StaleComes(s: Sys, move: Move, s': Sys, b: nat)
    requires Shape(s) && Step(s, move, s') && b < |s.workers| && Stale(s'.view, s'.workers[b])
        && !Stale(s.view, s.workers[b])
    ensures b != move.worker && s'.workers[b] == s.workers[b] && s.workers[b].pc.Writing?
    ensures Resets(s.workers[move.worker])
  {
    hide RegionsDisjoint, SetByte, Spares, PatternByte;
    SameWorkers(s, move, s');
    var k := move.worker;
    var w, w' := s.workers[k], s'.workers[k];
    if b == k {
      WriterLive(s.view, s.mem, s.used, w, move.reply, s'.view, s'.mem, w');
    } else if !Resets(w) {
      var u := s.workers[b];
      assert WorkerShape(s.view, s.used, w) && WorkerShape(s.view, s.used, u) && Apart(w, u);
      StaysLive(s.view, s.mem, s.used, w, move.reply, s'.view, s'.mem, w', u.pending[u.pc.id].handle);
    }
  }

  lemma WriterLive(v: View, m: Memory, used: set<nat>, w: Worker, reply: Reply, v': View, m': Memory, w': Worker)
    requires WorkerShape(v, used, w) && WorkerStep(v, m, w, reply, v', m', w') && Stale(v', w')
    ensures Stale(v, w)
  {
    hide PatternByte, Spares, SetByte;
  }

  lemma StaysLive(v: View, m: Memory, used: set<nat>, w: Worker, reply: Reply, v': View, m': Memory, w': Worker,
      h: nat)
    requires WorkerShape(v, used, w) && WorkerStep(v, m, w, reply, v', m', w') && !Resets(w) && h in v && !Mine(w, h)
    ensures h in v'
  {
    hide PatternByte, Spares, SetByte;
    if w.pc.Calling? { assert Mine(w, w.pending[w.pc.e.id].handle); }
  }

  lemma StepQuiet(s: Sys, move: Move, s': Sys)
    requires Shape(s) && SafeRest(s.workers) && StaleQuiet(s) && Step(s, move, s')
    ensures StaleQuiet(s')
  {
    hide WorkerStep, Fresh, FutureCheck, StaleCheck, WorkerShape, Stale;
    SameWorkers(s, move, s');
    var k := move.worker;
    var w, w' := s.workers[k], s'.workers[k];
    StepFuture(s.view, s.mem, w, move.reply, s'.view, s'.mem, w');
    if b :| 0 <= b < |s'.workers| && Stale(s'.view, s'.workers[b]) {
      if !Stale(s.view, s.workers[b]) {
        StaleComes(s, move, s', b);
        ResetQuiet(s, move, s', b);
      }
    }
  }

  /** A reset that comes into another worker's write leaves nothing to check. */
  lemma ResetQuiet(s: Sys, move: Move, s': Sys, b: nat)
    requires SafeRest(s.workers) && Step(s, move, s') && Resets(s.workers[move.worker])
    requires b < |s.workers| && b != move.worker && s.workers[b].pc.Writing?
    ensures forall u :: 0 <= u < |s'.workers| ==> !FutureCheck(s'.workers[u])
  {
    hide WorkerStep, Fresh, StaleCheck, LateCheck, FutureCheck;
    SameWorkers(s, move, s');
    var k := move.worker;
    var w, w' := s.workers[k], s'.workers[k];
    assert HasReset(w.todo) && CanWrite(s.workers[b]);
    assert !LateCheck(w.todo, After(w));
    if FutureCheck(w') { ResetLeaves(s.view, s.mem, w, move.reply, s'.view, s'.mem, w'); }
  }

  lemma ResetLeaves(v: View, m: Memory, w: Worker, reply: Reply, v': View, m': Memory, w': Worker)
    requires WorkerStep(v, m, w, reply, v', m', w') && Resets(w) && FutureCheck(w')
    ensures LateCheck(w.todo, After(w))
  {
    hide WorkerStep, Checks;
    RestStep(v, m, w, reply, v', m', w');
    ResetTable(After(w), w.todo[0]);
    if Checks(w'.todo, After(w')) { ChecksMono(w'.todo, After(w'), After(w)); }
  }

  lemma StepKempt(s: Sys, move: Move, s': Sys)
    requires Shape(s) && SafeRest(s.workers) && StaleQuiet(s) && Kempt(s) && Step(s, move, s')
    ensures Kempt(s')
  {
    hide WorkerStep, Fresh, FutureCheck, StaleCheck, WorkerShape, Holds, Matters, RegionsDisjoint, Apart;
    SameWorkers(s, move, s');
    var k := move.worker;
    var w, w' := s.workers[k], s'.workers[k];
    forall u, id | 0 <= u < |s'.workers| && id in s'.workers[u].pending && Matters(s'.workers[u], id)
      ensures Holds(s'.view, s'.mem, s'.workers[u], id)
    {
      MattersChecks(s'.workers[u], id);
      if u == k {
        StepFuture(s.view, s.mem, w, move.reply, s'.view, s'.mem, w');
        StepMatters(s.view, s.mem, w, move.reply, s'.view, s'.mem, w', id);
      }
      assert FutureCheck(s.workers[u]);
      assert !Stale(s.view, w);
      if Resets(w) { ResetRest(s.workers, k, u); }
      if u == k {
        OwnHold(s.view, s.mem, s.used, w, move.reply, s'.view, s'.mem, w', id);
      } else {
        OthersHold(s.view, s.mem, s.used, w, move.reply, s'.view, s'.mem, w', s.workers[u], id);
      }
    }
  }

  lemma ResetRest(ws: seq<Worker>, k: nat, u: nat)
    requires SafeRest(ws) && k < |ws| && u < |ws| && Resets(ws[k])
    ensures !StaleCheck(ws[k].todo, After(ws[k])) && (u != k ==> !FutureCheck(ws[u]))
  {
    hide StaleCheck, FutureCheck;
    assert HasReset(ws[k].todo);
  }

  lemma StepGuarded(s: Sys, move: Move, s': Sys)
    requires Guarded(s) && Step(s, move, s')
    ensures Guarded(s')
  {
    hide WorkerStep, Fresh, Shape, SafeRest, StaleQuiet, Holds;
    StepShape(s, move, s');
    StepRest(s, move, s');
    StepQuiet(s, move, s');
    StepKempt(s, move, s');
    SameWorkers(s, move, s');
    StepUnfailed(s, move, s');
  }

  lemma StepUnfailed(s: Sys, move: Move, s': Sys)
    requires Kempt(s) && Step(s, move, s') && move.worker < |s.workers| && |s'.workers| == |s.workers|
    requires !s.workers[move.worker].invariantFailed
    ensures !s'.workers[move.worker].invariantFailed
  {
    hide Holds, Begins, Finishes, Writes, Verifies;
    var w, w' := s.workers[move.worker], s'.workers[move.worker];
    RestStep(s.view, s.mem, w, move.reply, s'.view, s'.mem, w');
    if w.pc.Verifying? {
      assert Matters(w, w.pc.e.id);
      VerifySound(s.view, s.mem, w, s'.view, s'.mem, w');
    }
  }

  lemma InitialGuarded(s: Sys, streams: seq<seq<Entry>>)
    requires Initial(s, streams) && Safe(streams)
    ensures Guarded(s)
  {
    hide RegionsDisjoint, Checks, StaleCheck, LateCheck, CheckOf, Holds;
    InitialSound(s, streams);
    forall w | 0 <= w < |streams| ensures After(s.workers[w]) == {} && s.workers[w].todo == streams[w] {
    }
  }

  /** Payload integrity: over every allocator that meets its contract, in every interleaving of safe
      streams, every pattern check passes and `invariant_failed` stays false. */
  lemma {:induction false} PayloadIntegrity(states: seq<Sys>, moves: seq<Move>, streams: seq<seq<Entry>>, k: nat)
    requires Execution(states, moves) && Initial(states[0], streams) && Safe(streams) && k < |states|
    ensures Shape(states[k]) && |states[k].workers| == |streams|
    ensures forall w :: 0 <= w < |streams| ==> !states[k].workers[w].invariantFailed
  {
    hide Step, Initial, Safe, SafeRest, StaleQuiet, Kempt, Shape;
    GuardedThroughout(states, moves, streams, k);
  }

  lemma {:induction false} GuardedThroughout(states: seq<Sys>, moves: seq<Move>, streams: seq<seq<Entry>>, k: nat)
    requires Execution(states, moves) && Initial(states[0], streams) && Safe(streams) && k < |states|
    ensures Guarded(states[k]) && |states[k].workers| == |streams|
    decreases k
  {
    hide Step, Safe, Guarded;
    if k == 0 {
      InitialGuarded(states[0], streams);
    } else {
      GuardedThroughout(states, moves, streams, k - 1);
      assert Step(states[k - 1], moves[k - 1], states[k]);
      StepGuarded(states[k - 1], moves[k - 1], states[k]);
      SameWorkers(states[k - 1], moves[k - 1], states[k]);
    }
  }

  // ---- when streams are safe ----

  /** Streams without a reset. */
  lemma NoResetSafe(streams: seq<seq<Entry>>)
    requires forall w :: 0 <= w < |streams| ==> NoReset(streams[w])
    ensures Safe(streams)
  {
    hide Checks, StaleCheck, LateCheck;
  }

  /** A single stream: no id is checked across a reset. */
  lemma OneStreamSafe(es: seq<Entry>)
    ensures Safe([es]) <==> !StaleCheck(es, {})
  {
    hide Checks, CheckOf, LateCheck, StaleCheck, HasReset;
    if StaleCheck(es, {}) { StaleResets(es, {}); }
    assert [es][0] == es;
  }

  lemma {:induction false} StaleResets(es: seq<Entry>, table: set<u64>)
    requires StaleCheck(es, table)
    ensures HasReset(es)
    decreases |es|
  {
    hide CheckOf;
    if es[0].op != RESET {
      StaleResets(es[1..], Table(table, es[0]));
      var i :| 0 <= i < |es[1..]| && es[1..][i].op == RESET;
      assert es[i + 1].op == RESET;
    }
  }
}
