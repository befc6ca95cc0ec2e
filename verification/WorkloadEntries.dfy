/** What each entry of a generated trace carries, by its position: the draws of its own step, and for the entries
    that name a live allocation, what that allocation was made with. */
module WorkloadEntries {
  import opened Bits
  import opened Traces
  import opened Workload

  /** The entry at j is the last one before position k of the id; it made or resized the allocation. */
  ghost predicate LastOf(es: seq<Entry>, k: nat, id: u64, j: nat)
    requires k <= |es|
  {
    && j < k && es[j].id == id && (es[j].op == ALLOCATE || es[j].op == REALLOCATE)
    && forall i :: j < i < k ==> es[i].id != id
  }

  /** The entry at a allocated the id last before position k. */
  ghost predicate BornAt(es: seq<Entry>, k: nat, id: u64, a: nat)
    requires k <= |es|
  {
    && a < k && es[a].id == id && es[a].op == ALLOCATE
    && forall i :: a < i < k && es[i].id == id ==> es[i].op == REALLOCATE
  }

  /** A live allocation, in terms of the entries so far. */
  ghost predicate Told(oracle: Oracle, es: seq<Entry>, l: Live, j: nat, a: nat)
  {
    && LastOf(es, |es|, l.id, j) && es[j].size == l.size && es[j].alignment == l.alignment
    && es[j].worker == l.worker && es[j].tag == l.cls
    && BornAt(es, |es|, l.id, a) && l.freeStep == (a + oracle(a).lifetime) % WORD
  }

  /** The live vector holds each live allocation once, with what the entries say about it. */
  ghost predicate AllTold(oracle: Oracle, es: seq<Entry>, live: seq<Live>)
  {
    && Apart(live) && (forall i :: 0 <= i < |live| ==> Known(oracle, es, live[i]))
    && forall id, b: nat :: BornAt(es, |es|, id, b) ==> Holds(live, id)
  }

  ghost predicate Apart(live: seq<Live>) { forall i, j :: 0 <= i < j < |live| ==> live[i].id != live[j].id }

  ghost predicate Holds(live: seq<Live>, id: u64) { exists i :: 0 <= i < |live| && live[i].id == id }

  ghost predicate Known(oracle: Oracle, es: seq<Entry>, l: Live) { exists j: nat, a: nat :: Told(oracle, es, l, j, a) }

  /** A free or reallocate carries the worker and tag of its allocation; a free its size and alignment as well. */
  ghost predicate Matches(es: seq<Entry>, k: nat)
    requires k < |es|
  {
    es[k].op == FREE || es[k].op == REALLOCATE ==>
      exists j: nat ::
        && LastOf(es, k, es[k].id, j) && es[k].worker == es[j].worker && es[k].tag == es[j].tag
        && (es[k].op == FREE ==> es[k].size == es[j].size && es[k].alignment == es[j].alignment)
  }

  /** The live allocations after the first k entries. */
  function LiveCount(es: seq<Entry>, k: nat): int
    requires k <= |es|
  {
    CountOp(es[..k], ALLOCATE) - CountOp(es[..k], FREE)
  }

  /** Which operation a step emits, from the live count and the draw. */
  ghost predicate OpWell(c: Config, d: Draw, n: int, op: u16)
  {
    var t := if d.target < c.liveTarget then d.target else c.liveTarget;
    && (n == 0 ==> op == ALLOCATE)
    && (0 < n < t ==> op == if c.tuning.allocFreeRatio <= 0.5 && d.freeBelow then FREE else ALLOCATE)
    && (n > t && n > 0 ==> op == FREE)
    && (n == t && n > 0 ==>
          op == if d.mix.MixReallocate? then REALLOCATE else if d.mix.MixAllocate? then ALLOCATE else FREE)
  }

  /** What the entry of step k carries from the draws of that step. */
  ghost predicate DrawWell(c: Config, d: Draw, es: seq<Entry>, k: nat)
    requires k < |es| && c.threads >= 1
  {
    var e := es[k];
    && e.step == k && OpWell(c, d, LiveCount(es, k), e.op)
    && (e.op == ALLOCATE ==>
          && e.size == d.size && e.alignment == ChooseAlignment(c, d.alignPick, d.size)
          && e.worker == d.worker % c.threads && e.tag == if d.cls then 1 else 0)
    && (e.op == REALLOCATE ==> ResizeWell(c, d, es, k))
  }

  /** A reallocation carries the drawn size, or the old one if that is to be kept and larger. */
  ghost predicate ResizeWell(c: Config, d: Draw, es: seq<Entry>, k: nat)
    requires k < |es|
  {
    && es[k].alignment == ChooseAlignment(c, d.alignPick, es[k].size)
    && exists j: nat ::
         && LastOf(es, k, es[k].id, j)
         && es[k].size == if d.keepSize && d.size < es[j].size then es[j].size else d.size
  }

  /** The entry frees, of the live allocations, the one whose lifetime ends soonest. */
  ghost predicate FreesSoonest(oracle: Oracle, es: seq<Entry>, k: nat)
    requires k < |es|
  {
    exists a: nat ::
      && BornAt(es, k, es[k].id, a)
      && forall b: nat, id :: BornAt(es, k, id, b) ==>
           (a + oracle(a).lifetime) % WORD <= (b + oracle(b).lifetime) % WORD
  }

  /** Nothing about an entry depends on the later ones. */
  lemma Prefix(es: seq<Entry>, e: Entry, k: nat)
    requires k < |es|
    ensures Matches(es, k) ==> Matches(es + [e], k)
    ensures LiveCount(es + [e], k) == LiveCount(es, k)
    ensures forall id, j: nat :: LastOf(es + [e], k, id, j) <==> LastOf(es, k, id, j)
    ensures forall id, a: nat :: BornAt(es + [e], k, id, a) <==> BornAt(es, k, id, a)
  {
    var fs := es + [e];
    assert fs[..k] == es[..k];
    assert forall i :: 0 <= i < |es| ==> fs[i] == es[i];
    if Matches(es, k) && (es[k].op == FREE || es[k].op == REALLOCATE) {
      var j: nat :| LastOf(es, k, es[k].id, j) && es[k].worker == es[j].worker && es[k].tag == es[j].tag
                    && (es[k].op == FREE ==> es[k].size == es[j].size && es[k].alignment == es[j].alignment);
      assert LastOf(fs, k, fs[k].id, j);
    }
    forall id, j: nat ensures LastOf(fs, k, id, j) <==> LastOf(es, k, id, j) { }
    forall id, a: nat ensures BornAt(fs, k, id, a) <==> BornAt(es, k, id, a) { }
  }

  /** Told stays true when an entry of another id comes. */
  lemma ToldNext(oracle: Oracle, es: seq<Entry>, e: Entry, l: Live, j: nat, a: nat)
    requires Told(oracle, es, l, j, a) && e.id != l.id
    ensures Told(oracle, es + [e], l, j, a)
  {
    var fs := es + [e];
    assert fs[|es|] == e && forall i :: 0 <= i < |es| ==> fs[i] == es[i];
    assert LastOf(fs, |fs|, l.id, j);
    assert BornAt(fs, |fs|, l.id, a);
  }

  lemma KnownNext(oracle: Oracle, es: seq<Entry>, e: Entry, l: Live)
    requires Known(oracle, es, l) && e.id != l.id
    ensures Known(oracle, es + [e], l)
  {
    hide Told;
    var j: nat, a: nat :| Told(oracle, es, l, j, a);
    ToldNext(oracle, es, e, l, j, a);
  }

  lemma BornBefore(es: seq<Entry>, e: Entry, id: u64, b: nat)
    requires BornAt(es + [e], |es| + 1, id, b) && !(e.op == ALLOCATE && e.id == id)
    ensures BornAt(es, |es|, id, b) && (e.id == id ==> e.op == REALLOCATE)
  {
    var fs := es + [e];
    assert fs[|es|] == e && forall i :: 0 <= i < |es| ==> fs[i] == es[i];
  }

  /** A new allocation. */
  lemma EmitAllocate(oracle: Oracle, es: seq<Entry>, live: seq<Live>, l: Live, e: Entry)
    requires AllTold(oracle, es, live) && !Holds(live, l.id)
    requires e.op == ALLOCATE && e.id == l.id && e.size == l.size && e.alignment == l.alignment
    requires e.worker == l.worker && e.tag == l.cls && l.freeStep == (|es| + oracle(|es|).lifetime) % WORD
    ensures AllTold(oracle, es + [e], live + [l]) && Matches(es + [e], |es|)
  {
    hide Told, Known;
    var fs, live' := es + [e], live + [l];
    assert Known(oracle, fs, l) by { NewTold(oracle, es, l, e); }
    forall i | 0 <= i < |live'| ensures Known(oracle, fs, live'[i]) {
      if i < |live| { KnownNext(oracle, es, e, live[i]); }
    }
    forall id, b: nat | BornAt(fs, |fs|, id, b) ensures Holds(live', id) {
      if id == l.id { assert live'[|live|].id == id; }
      else {
        BornBefore(es, e, id, b);
        var i :| 0 <= i < |live| && live[i].id == id;
        assert live'[i].id == id;
      }
    }
  }

  lemma NewTold(oracle: Oracle, es: seq<Entry>, l: Live, e: Entry)
    requires e.op == ALLOCATE && e.id == l.id && e.size == l.size && e.alignment == l.alignment
    requires e.worker == l.worker && e.tag == l.cls && l.freeStep == (|es| + oracle(|es|).lifetime) % WORD
    ensures Known(oracle, es + [e], l)
  {
    assert (es + [e])[|es|] == e;
    assert Told(oracle, es + [e], l, |es|, |es|);
  }

  lemma KnownMatches(oracle: Oracle, es: seq<Entry>, l: Live, e: Entry) returns (j: nat)
    requires Known(oracle, es, l) && e.id == l.id && e.worker == l.worker && e.tag == l.cls
    requires e.op == FREE ==> e.size == l.size && e.alignment == l.alignment
    ensures Matches(es + [e], |es|) && LastOf(es + [e], |es|, e.id, j) && es[j].size == l.size
    ensures LastOf(es, |es|, e.id, j)
  {
    var k: nat, a: nat :| Told(oracle, es, l, k, a);
    j := k;
    var fs := es + [e];
    assert fs[|es|] == e && forall i :: 0 <= i < |es| ==> fs[i] == es[i];
    assert LastOf(fs, |es|, e.id, j);
  }

  /** The allocation at idx is freed; what is left of the vector may be reordered. */
  lemma EmitFree(oracle: Oracle, es: seq<Entry>, live: seq<Live>, idx: nat, live': seq<Live>, e: Entry)
    requires AllTold(oracle, es, live) && idx < |live| && e.op == FREE && e.id == live[idx].id
    requires e.size == live[idx].size && e.alignment == live[idx].alignment
    requires e.worker == live[idx].worker && e.tag == live[idx].cls && Apart(live')
    requires forall l :: l in live' <==> l in live && l != live[idx]
    ensures AllTold(oracle, es + [e], live') && Matches(es + [e], |es|)
  {
    hide Told, Known;
    var fs := es + [e];
    var j := KnownMatches(oracle, es, live[idx], e);
    forall i | 0 <= i < |live'| ensures Known(oracle, fs, live'[i]) {
      assert live'[i] in live;
      var k :| 0 <= k < |live| && live[k] == live'[i];
      KnownNext(oracle, es, e, live'[i]);
    }
    forall id, b: nat | BornAt(fs, |fs|, id, b) ensures Holds(live', id) {
      BornBefore(es, e, id, b);
      var i :| 0 <= i < |live| && live[i].id == id;
      assert live[i] in live';
    }
  }

  /** The allocation at idx is resized. */
  lemma EmitReallocate(oracle: Oracle, es: seq<Entry>, live: seq<Live>, idx: nat, l: Live, e: Entry)
    requires AllTold(oracle, es, live) && idx < |live| && e.op == REALLOCATE && e.id == live[idx].id == l.id
    requires e.size == l.size && e.alignment == l.alignment && e.worker == l.worker == live[idx].worker
    requires e.tag == l.cls == live[idx].cls && l.freeStep == live[idx].freeStep
    ensures AllTold(oracle, es + [e], live[idx := l]) && Matches(es + [e], |es|)
  {
    hide Told, Known;
    var fs, live' := es + [e], live[idx := l];
    var j := KnownMatches(oracle, es, live[idx], e);
    Resized(oracle, es, live[idx], l, e);
    forall i | 0 <= i < |live'| ensures Known(oracle, fs, live'[i]) {
      if i != idx { KnownNext(oracle, es, e, live[i]); }
    }
    forall id, b: nat | BornAt(fs, |fs|, id, b) ensures Holds(live', id) {
      BornBefore(es, e, id, b);
      var i :| 0 <= i < |live| && live[i].id == id;
      assert live'[i].id == id;
    }
  }

  lemma Resized(oracle: Oracle, es: seq<Entry>, was: Live, l: Live, e: Entry)
    requires Known(oracle, es, was) && e.op == REALLOCATE && e.id == was.id == l.id
    requires e.size == l.size && e.alignment == l.alignment && e.worker == l.worker && e.tag == l.cls
    requires l.freeStep == was.freeStep
    ensures Known(oracle, es + [e], l)
  {
    var j: nat, a: nat :| Told(oracle, es, was, j, a);
    var fs := es + [e];
    assert fs[|es|] == e && forall i :: 0 <= i < |es| ==> fs[i] == es[i];
    assert BornAt(fs, |fs|, l.id, a);
    assert Told(oracle, fs, l, |es|, a);
  }

  // ---- the steps ----

  /** What holds of the entry at k, whatever comes behind it. */
  ghost predicate EntryWell(c: Config, oracle: Oracle, es: seq<Entry>, k: nat)
    requires k < |es| && c.threads >= 1
  {
    && Matches(es, k) && es[k].seqNo == k % WORD && es[k].domain == c.domain && !es[k].hasStatus
    && (if k < c.operations then
          && DrawWell(c, oracle(k), es, k)
          && (c.freeOrder.ByLifetime? && es[k].op == FREE ==> FreesSoonest(oracle, es, k))
        else es[k].step == c.operations && es[k].op == FREE)
  }

  lemma EntryWellNext(c: Config, oracle: Oracle, es: seq<Entry>, e: Entry, k: nat)
    requires k < |es| && c.threads >= 1 && EntryWell(c, oracle, es, k)
    ensures EntryWell(c, oracle, es + [e], k)
  {
    hide Matches, BornAt, LastOf, OpWell, LiveCount, ChooseAlignment, ResizeWell, FreesSoonest;
    Prefix(es, e, k);
    assert (es + [e])[k] == es[k];
    if k < c.operations && es[k].op == REALLOCATE { ResizeNext(c, oracle(k), es, e, k); }
    if k < c.operations && c.freeOrder.ByLifetime? && es[k].op == FREE { SoonestNext(oracle, es, e, k); }
  }

  lemma ResizeNext(c: Config, d: Draw, es: seq<Entry>, e: Entry, k: nat)
    requires k < |es| && ResizeWell(c, d, es, k)
    ensures ResizeWell(c, d, es + [e], k)
  {
    hide Matches, ChooseAlignment;
    Prefix(es, e, k);
    var j: nat :| LastOf(es, k, es[k].id, j)
                  && es[k].size == if d.keepSize && d.size < es[j].size then es[j].size else d.size;
    assert LastOf(es + [e], k, es[k].id, j) && (es + [e])[j] == es[j];
  }

  lemma SoonestNext(oracle: Oracle, es: seq<Entry>, e: Entry, k: nat)
    requires k < |es| && FreesSoonest(oracle, es, k)
    ensures FreesSoonest(oracle, es + [e], k)
  {
    hide BornAt, Matches;
    Prefix(es, e, k);
    var a: nat :| BornAt(es, k, es[k].id, a)
                  && forall b: nat, id :: BornAt(es, k, id, b) ==>
                       (a + oracle(a).lifetime) % WORD <= (b + oracle(b).lifetime) % WORD;
    assert BornAt(es + [e], k, (es + [e])[k].id, a);
  }

  /** The state of the main loop after n steps, in terms of the entries. */
  ghost predicate Traced(c: Config, oracle: Oracle, g: Gen)
    requires c.threads >= 1
  {
    AllTold(oracle, g.out, g.live) && forall k :: 0 <= k < |g.out| ==> EntryWell(c, oracle, g.out, k)
  }

  lemma TracedNext(c: Config, oracle: Oracle, g: Gen, g': Gen, e: Entry)
    requires c.threads >= 1 && Traced(c, oracle, g) && g'.out == g.out + [e] && AllTold(oracle, g'.out, g'.live)
    requires EntryWell(c, oracle, g'.out, |g.out|)
    ensures Traced(c, oracle, g')
  {
    hide EntryWell, AllTold;
    forall k | 0 <= k < |g'.out| ensures EntryWell(c, oracle, g'.out, k) {
      if k < |g.out| { EntryWellNext(c, oracle, g.out, e, k); }
    }
  }

  lemma LiveNow(c: Config, g: Gen, e: Entry)
    requires Good(c, g)
    ensures LiveCount(g.out + [e], |g.out|) == |g.live| && Apart(g.live)
  {
    hide CheckFrom, LiveAfter, OwnedFrom, OwnerAfter, CountOp;
    assert (g.out + [e])[..|g.out|] == g.out;
  }

  lemma ActionWell(c: Config, d: Draw, n: nat)
    ensures OpWell(c, d, n, Action(c, n, d))
  {
  }

  lemma AllocateWell(c: Config, oracle: Oracle, g: Gen)
    requires Sane(c) && Good(c, g) && Traced(c, oracle, g) && |g.out| < c.operations && 1 <= g.nextId < WORD
    requires Action(c, |g.live|, oracle(|g.out|)) == ALLOCATE
    ensures Traced(c, oracle, StepAllocate(c, |g.out|, oracle(|g.out|), g))
  {
    hide Matches, OpWell, LiveCount, ChooseAlignment, AllTold, Good, EntryWell, Action;
    var n, d := |g.out|, oracle(|g.out|);
    var g' := StepAllocate(c, n, d, g);
    var l := g'.live[|g.live|];
    var e := EntryFor(c, n, n, ALLOCATE, l);
    NotHeld(c, g, l.id);
    LiveNow(c, g, e);
    ActionWell(c, d, |g.live|);
    EmitAllocate(oracle, g.out, g.live, l, e);
    AllocateEntryWell(c, oracle, g.out, e, d);
    TracedNext(c, oracle, g, g', e);
  }

  lemma AllocateEntryWell(c: Config, oracle: Oracle, es: seq<Entry>, e: Entry, d: Draw)
    requires Sane(c) && |es| < c.operations && d == oracle(|es|) && Matches(es + [e], |es|)
    requires OpWell(c, d, LiveCount(es + [e], |es|), ALLOCATE) && e.op == ALLOCATE && e.step == |es|
    requires e.size == d.size && e.alignment == ChooseAlignment(c, d.alignPick, d.size)
    requires e.worker == d.worker % c.threads && e.tag == (if d.cls then 1 else 0)
    requires e.seqNo == |es| % WORD && e.domain == c.domain && !e.hasStatus
    ensures EntryWell(c, oracle, es + [e], |es|)
  {
    hide Matches, OpWell, LiveCount, ChooseAlignment;
    assert (es + [e])[|es|] == e;
  }

  lemma NotHeld(c: Config, g: Gen, id: u64)
    requires Good(c, g) && (id == g.nextId || (g.pool != [] && id == g.pool[|g.pool| - 1]))
    ensures !Holds(g.live, id)
  {
    hide CheckFrom, LiveAfter, OwnedFrom, OwnerAfter, CountOp;
    if g.pool != [] { var last := g.pool[|g.pool| - 1]; }
  }

  lemma FreeWell(c: Config, oracle: Oracle, g: Gen)
    requires Sane(c) && Good(c, g) && Traced(c, oracle, g) && |g.out| < c.operations && g.live != []
    requires Action(c, |g.live|, oracle(|g.out|)) == FREE
    ensures Traced(c, oracle, StepFree(c, |g.out|, Victim(c, g.live, oracle(|g.out|)), g))
  {
    hide Matches, OpWell, LiveCount, AllTold, Good, EntryWell, Action, Victim, SwapRemove, FreesSoonest;
    var n, d := |g.out|, oracle(|g.out|);
    var idx := Victim(c, g.live, d);
    var g' := StepFree(c, n, idx, g);
    var e := EntryFor(c, n, n, FREE, g.live[idx]);
    LiveNow(c, g, e);
    ActionWell(c, d, |g.live|);
    Swapped(g.live, idx);
    EmitFree(oracle, g.out, g.live, idx, g'.live, e);
    if c.freeOrder.ByLifetime? {
      SoonestVictim(c, g.live, d);
      VictimSoonest(oracle, g.out, g.live, idx, e);
    }
    FreeEntryWell(c, oracle, g.out, e, d);
    TracedNext(c, oracle, g, g', e);
  }

  lemma SoonestVictim(c: Config, live: seq<Live>, d: Draw)
    requires live != [] && c.freeOrder.ByLifetime?
    ensures forall j :: 0 <= j < |live| ==> live[Victim(c, live, d)].freeStep <= live[j].freeStep
  {
  }

  lemma Swapped(live: seq<Live>, idx: nat)
    requires Apart(live) && idx < |live|
    ensures Apart(SwapRemove(live, idx)) && forall l :: l in SwapRemove(live, idx) <==> l in live && l != live[idx]
  {
    assert Distinct(live);
    SwapRemoveSet(live, idx);
  }

  lemma BornOnce(es: seq<Entry>, k: nat, id: u64, a: nat, b: nat)
    requires k <= |es| && BornAt(es, k, id, a) && BornAt(es, k, id, b)
    ensures a == b
  {
  }

  lemma VictimSoonest(oracle: Oracle, es: seq<Entry>, live: seq<Live>, idx: nat, e: Entry)
    requires AllTold(oracle, es, live) && idx < |live| && e.id == live[idx].id
    requires forall j :: 0 <= j < |live| ==> live[idx].freeStep <= live[j].freeStep
    ensures FreesSoonest(oracle, es + [e], |es|)
  {
    hide LastOf, BornAt, Known;
    var n, fs := |es|, es + [e];
    var a := Birth(oracle, es, live[idx]);
    BornSame(es, e);
    assert BornAt(fs, n, fs[n].id, a);
    forall b: nat, id | BornAt(fs, n, id, b)
      ensures (a + oracle(a).lifetime) % WORD <= (b + oracle(b).lifetime) % WORD
    {
      assert BornAt(es, |es|, id, b);
      var i :| 0 <= i < |live| && live[i].id == id;
      var b' := Birth(oracle, es, live[i]);
      BornOnce(es, |es|, id, b, b');
    }
  }

  lemma Birth(oracle: Oracle, es: seq<Entry>, l: Live) returns (a: nat)
    requires Known(oracle, es, l)
    ensures BornAt(es, |es|, l.id, a) && l.freeStep == (a + oracle(a).lifetime) % WORD
  {
    var j: nat, x: nat :| Told(oracle, es, l, j, x);
    a := x;
  }

  lemma BornSame(es: seq<Entry>, e: Entry)
    ensures forall id, b: nat :: BornAt(es + [e], |es|, id, b) <==> BornAt(es, |es|, id, b)
  {
    var fs := es + [e];
    assert forall i :: 0 <= i < |es| ==> fs[i] == es[i];
    forall id, b: nat ensures BornAt(fs, |es|, id, b) <==> BornAt(es, |es|, id, b) { }
  }

  lemma FreeEntryWell(c: Config, oracle: Oracle, es: seq<Entry>, e: Entry, d: Draw)
    requires Sane(c) && |es| < c.operations && d == oracle(|es|) && Matches(es + [e], |es|)
    requires OpWell(c, d, LiveCount(es + [e], |es|), FREE) && e.op == FREE && e.step == |es|
    requires e.seqNo == |es| % WORD && e.domain == c.domain && !e.hasStatus
    requires c.freeOrder.ByLifetime? ==> FreesSoonest(oracle, es + [e], |es|)
    ensures EntryWell(c, oracle, es + [e], |es|)
  {
    hide Matches, OpWell, LiveCount, FreesSoonest;
    assert (es + [e])[|es|] == e;
  }

  lemma ReallocateWell(c: Config, oracle: Oracle, g: Gen)
    requires Sane(c) && Good(c, g) && Traced(c, oracle, g) && |g.out| < c.operations && g.live != []
    requires Action(c, |g.live|, oracle(|g.out|)) == REALLOCATE
    ensures Traced(c, oracle, StepReallocate(c, |g.out|, oracle(|g.out|), g))
  {
    hide Matches, OpWell, LiveCount, AllTold, Good, EntryWell, Action, ChooseAlignment, ResizeWell;
    var n, d := |g.out|, oracle(|g.out|);
    var g' := StepReallocate(c, n, d, g);
    var idx := d.pick % |g.live|;
    var l := g'.live[idx];
    var e := EntryFor(c, n, n, REALLOCATE, l);
    LiveNow(c, g, e);
    ActionWell(c, d, |g.live|);
    EmitReallocate(oracle, g.out, g.live, idx, l, e);
    Resizes(c, d, oracle, g.out, g.live, idx, e);
    ReallocateEntryWell(c, oracle, g.out, e, d);
    TracedNext(c, oracle, g, g', e);
  }

  lemma Resizes(c: Config, d: Draw, oracle: Oracle, es: seq<Entry>, live: seq<Live>, idx: nat, e: Entry)
    requires AllTold(oracle, es, live) && idx < |live| && e.op == REALLOCATE && e.id == live[idx].id
    requires e.worker == live[idx].worker && e.tag == live[idx].cls
    requires e.size == if d.keepSize && d.size < live[idx].size then live[idx].size else d.size
    requires e.alignment == ChooseAlignment(c, d.alignPick, e.size)
    ensures ResizeWell(c, d, es + [e], |es|)
  {
    hide Matches, Known, ChooseAlignment;
    var j := KnownMatches(oracle, es, live[idx], e);
    assert (es + [e])[|es|] == e && (es + [e])[j] == es[j];
  }

  lemma ReallocateEntryWell(c: Config, oracle: Oracle, es: seq<Entry>, e: Entry, d: Draw)
    requires Sane(c) && |es| < c.operations && d == oracle(|es|) && Matches(es + [e], |es|)
    requires OpWell(c, d, LiveCount(es + [e], |es|), REALLOCATE) && e.op == REALLOCATE && e.step == |es|
    requires e.seqNo == |es| % WORD && e.domain == c.domain && !e.hasStatus && ResizeWell(c, d, es + [e], |es|)
    ensures EntryWell(c, oracle, es + [e], |es|)
  {
    hide Matches, OpWell, LiveCount, ResizeWell;
    assert (es + [e])[|es|] == e;
  }

  // ---- the whole trace ----

  lemma {:induction false} RunTraced(c: Config, oracle: Oracle, n: nat)
    requires ConfigOk(c) && Sane(c) && n <= c.operations
    ensures Traced(c, oracle, GenRun(c, oracle, n)) && |GenRun(c, oracle, n).out| == n
    decreases n
  {
    hide Good, ConfigOk, StepAllocate, StepFree, StepReallocate, Victim, Traced, Action;
    RunGood(c, oracle, n);
    if n == 0 {
      StartTraced(c, oracle);
    } else {
      RunTraced(c, oracle, n - 1);
      RunGood(c, oracle, n - 1);
      var d, g := oracle(n - 1), GenRun(c, oracle, n - 1);
      ActionLive(c, |g.live|, d);
      var op := Action(c, |g.live|, d);
      if op == ALLOCATE { AllocateWell(c, oracle, g); }
      else if op == FREE { FreeWell(c, oracle, g); }
      else { ReallocateWell(c, oracle, g); }
    }
  }

  lemma ActionLive(c: Config, n: nat, d: Draw)
    ensures Action(c, n, d) in {ALLOCATE, FREE, REALLOCATE} && (n == 0 ==> Action(c, n, d) == ALLOCATE)
  {
  }

  lemma StartTraced(c: Config, oracle: Oracle)
    requires c.threads >= 1
    ensures Traced(c, oracle, GenRun(c, oracle, 0))
  {
    assert GenRun(c, oracle, 0) == Gen([], [], 1, []);
  }

  lemma {:induction false} DrainTraced(c: Config, oracle: Oracle, g: Gen)
    requires Sane(c) && Traced(c, oracle, g) && |g.out| >= c.operations
    ensures Traced(c, oracle, Drain(c, g))
    decreases |g.live|
  {
    hide Matches, EntryWell, Known, BornAt;
    if g.live != [] {
      var last := |g.live| - 1;
      var e := EntryFor(c, |g.out|, c.operations, FREE, g.live[last]);
      var g' := g.(live := g.live[..last], out := g.out + [e]);
      Chopped(g.live);
      EmitFree(oracle, g.out, g.live, last, g'.live, e);
      DrainEntryWell(c, oracle, g.out, e);
      TracedNext(c, oracle, g, g', e);
      DrainTraced(c, oracle, g');
    }
  }

  lemma Chopped(live: seq<Live>)
    requires Apart(live) && live != []
    ensures Apart(live[..|live| - 1])
    ensures forall l :: l in live[..|live| - 1] <==> l in live && l != live[|live| - 1]
  {
  }

  lemma DrainEntryWell(c: Config, oracle: Oracle, es: seq<Entry>, e: Entry)
    requires Sane(c) && |es| >= c.operations && Matches(es + [e], |es|) && e.op == FREE && e.step == c.operations
    requires e.seqNo == |es| % WORD && e.domain == c.domain && !e.hasStatus
    ensures EntryWell(c, oracle, es + [e], |es|)
  {
    hide Matches;
    assert (es + [e])[|es|] == e;
  }

  /** What every entry of a generated trace carries. An entry of the main loop has its own step, the operation that
      the live count calls for, and the drawn values of its step; a drain entry is a free with step `operations`;
      a free carries the size, alignment, worker and tag of the last allocate or reallocate of its id. */
  lemma EveryEntryWell(config: Config, oracle: Oracle, k: nat)
    requires ConfigOk(config) && k < |Generated(config, oracle).entries|
    ensures Sane(Sanitize(config))
    ensures EntryWell(Sanitize(config), oracle, Generated(config, oracle).entries, k)
  {
    hide ConfigOk, EntryWell, AllTold, GenRun, Drain;
    var c := Sanitize(config);
    SanitizeSane(config);
    RunTraced(c, oracle, c.operations);
    if c.releaseToZero { DrainTraced(c, oracle, GenRun(c, oracle, c.operations)); }
  }

  lemma {:induction false} LiveSnoc(live: map<u64, u64>, es: seq<Entry>, e: Entry)
    ensures LiveAfter(live, es + [e]) == Traces.Next(LiveAfter(live, es), e)
    decreases |es|
  {
    if es == [] {
      assert es + [e] == [e] && [e][1..] == [];
    } else {
      assert (es + [e])[1..] == es[1..] + [e] && (es + [e])[0] == es[0];
      LiveSnoc(Traces.Next(live, es[0]), es[1..], e);
    }
  }

  /** The validator's size of an id is that of its last allocate or reallocate. */
  lemma {:induction false} LiveSize(es: seq<Entry>, k: nat, id: u64, j: nat)
    requires k <= |es| && LastOf(es, k, id, j)
    ensures id in LiveAfter(map[], es[..k]) && LiveAfter(map[], es[..k])[id] == es[j].size
    decreases k
  {
    assert es[..k] == es[..k - 1] + [es[k - 1]];
    LiveSnoc(map[], es[..k - 1], es[k - 1]);
    if j < k - 1 { LiveSize(es, k - 1, id, j); }
  }

  /** So each free has the size that the validator has for its id. */
  lemma FreeSizes(config: Config, oracle: Oracle, k: nat)
    requires ConfigOk(config) && k < |Generated(config, oracle).entries|
    requires Generated(config, oracle).entries[k].op == FREE
    ensures var es := Generated(config, oracle).entries;
            && es[k].id in LiveAfter(map[], es[..k]) && es[k].size == LiveAfter(map[], es[..k])[es[k].id]
  {
    hide Generated, LiveAfter, ConfigOk, DrawWell, FreesSoonest;
    var es := Generated(config, oracle).entries;
    EveryEntryWell(config, oracle, k);
    var j: nat :| LastOf(es, k, es[k].id, j) && es[k].worker == es[j].worker && es[k].tag == es[j].tag
                  && es[k].size == es[j].size && es[k].alignment == es[j].alignment;
    LiveSize(es, k, es[k].id, j);
  }

  // ---- the draws ----

  /** A drawn alignment: none, one of the configured ones, or a power of two that is not above the size. */
  lemma AlignmentMeaning(c: Config, pick: nat, size: u64)
    ensures var a := ChooseAlignment(c, pick, size);
            && (c.alignmentDist.Natural? ==> a == 0)
            && (c.alignmentDist.FixedSet? && c.alignments == [] ==> a == 0)
            && (c.alignmentDist.FixedSet? && c.alignments != [] ==> a == c.alignments[pick % |c.alignments|])
            && (c.alignmentDist.UniformPow2? ==>
                  var p := [8, 16, 32, 64, 128, 256, 512, 4096][pick % 8];
                  a == if p > size && size > 0 then 0 else p)
  {
  }

  /** Fifo is first in, first out only once: a free fills the gap at the front with the newest allocation, which is
      then the next to go. */
  lemma FifoTakesNewest(c: Config, step: u64, d: Draw, g: Gen)
    requires c.freeOrder.Fifo? && |g.live| >= 2
    ensures var g' := StepFree(c, step, Victim(c, g.live, d), g);
            && g'.out[|g.out|].id == g.live[0].id
            && g'.live != [] && g'.live[Victim(c, g'.live, d)] == g.live[|g.live| - 1]
  {
  }
}
