/** Laws of the free-list allocator over runs: header walks, maximal coalescing and exactly when
    it is lost, reads behind a superblock, idleness and undoing. */
module FreeListRuns {
  import opened Bits
  import opened AllocTypes
  import opened Requests
  import opened FreeListBlocks
  import opened Sequences
  import opened FreeListModel

  // ---- walking the headers ----

  /** Following the sizes in the headers from `a` lands exactly on `end`, inside one superblock. */
  ghost predicate Walk(m: Blocks, a: nat, end: nat, base: nat)
    decreases end - a
  {
    a == end || (a < end && a in m && m[a].base == base && m[a].size > 0 && a + m[a].size <= end
                 && Walk(m, a + m[a].size, end, base))
  }

  ghost function Visited(m: Blocks, a: nat, end: nat): set<nat>
    decreases end - a
  {
    if a < end && a in m && m[a].size > 0 then {a} + Visited(m, a + m[a].size, end) else {}
  }

  lemma {:induction false} WalkFrom(supers: map<nat, nat>, m: Blocks, a: nat, base: nat)
    requires Tiled(supers, m) && base in supers
    requires a == base + supers[base] || (a in m && m[a].base == base)
    ensures Walk(m, a, base + supers[base], base)
    ensures forall x :: x in Visited(m, a, base + supers[base]) <==> x in m && m[x].base == base && a <= x
    decreases base + supers[base] - a
  {
    hide HasLeft;
    var end := base + supers[base];
    if a == end {
      assert forall x :: x in m ==> Within(supers, x, m[x]);
    } else {
      assert Within(supers, a, m[a]) && HasRight(supers, m, a);
      var next := a + m[a].size;
      WalkFrom(supers, m, next, base);
      forall x ensures x in Visited(m, a, end) <==> x in m && m[x].base == base && a <= x {
        assert Apart(m, a, x);
      }
    }
  }

  /** Each superblock is tiled exactly by the blocks its headers chain. */
  lemma SuperblocksWalk(s: FreeList, base: nat)
    requires Inv(s) && base in s.supers
    ensures Walk(s.blocks, base, base + s.supers[base], base)
    ensures forall x :: x in Visited(s.blocks, base, base + s.supers[base]) <==>
        x in s.blocks && s.blocks[x].base == base
  {
    hide Books, SupersApart;
    WalkFrom(s.supers, s.blocks, base, base);
    assert forall x :: x in s.blocks ==> Within(s.supers, x, s.blocks[x]);
  }

  // ---- maximal coalescing ----

  /** No two neighbours are both free. */
  ghost predicate Maximal(m: Blocks, f: set<nat>)
  {
    forall a, c :: Neighbours(m, a, c) ==> !(a in f && c in f)
  }

  ghost predicate NoFreeRight(m: Blocks, f: set<nat>, a: nat) { forall c: nat :: Neighbours(m, a, c) ==> c !in f }
  ghost predicate NoFreeLeft(m: Blocks, f: set<nat>, a: nat) { forall p: nat :: Neighbours(m, p, a) ==> p !in f }

  lemma RightJoinMaximal(supers: map<nat, nat>, m: Blocks, f: set<nat>, a: nat, c: nat)
    requires Tiled(supers, m) && Maximal(m, f) && a !in f && c in f && Neighbours(m, a, c)
    ensures Maximal(Join(m, a, c), f - {c}) && NoFreeRight(Join(m, a, c), f - {c}, a)
  {
    var m' := Join(m, a, c);
    forall y: nat | Neighbours(m', a, y) ensures y !in f { assert Neighbours(m, c, y); }
    forall x, y | Neighbours(m', x, y) ensures !(x in f - {c} && y in f - {c}) {
      if x != a { assert Neighbours(m, x, y); }
    }
  }

  lemma LeftJoinMaximal(supers: map<nat, nat>, m: Blocks, f: set<nat>, p: nat, a: nat)
    requires Tiled(supers, m) && Maximal(m, f) && a !in f && p in f && Neighbours(m, p, a)
    ensures Maximal(Join(m, p, a), f) <==> NoFreeRight(m, f, a)
  {
    var m' := Join(m, p, a);
    assert Within(supers, a, m[a]) && Within(supers, p, m[p]);
    forall y: nat ensures Neighbours(m', p, y) <==> Neighbours(m, a, y) {
      assert Apart(m, a, y) && Apart(m, p, y);
    }
    if NoFreeRight(m, f, a) {
      forall x, y | Neighbours(m', x, y) ensures !(x in f && y in f) {
        if x != p { assert Neighbours(m, x, y); }
      }
    }
  }

  lemma NoJoinMaximal(m: Blocks, f: set<nat>, a: nat)
    requires Maximal(m, f) && NoFreeLeft(m, f, a) && a in m && m[a].size > 0
    ensures Maximal(m, f + {a}) <==> NoFreeRight(m, f, a)
  {
    if NoFreeRight(m, f, a) {
      forall x, y | Neighbours(m, x, y) ensures !(x in f + {a} && y in f + {a}) { }
    }
  }

  /** Coalescing leaves two free neighbours exactly when the right neighbour was free and the
      range check on arena_total excluded it. */
  ghost predicate Misses(m: Blocks, free: seq<nat>, a: nat)
    requires a in m
  {
    !Guard(m, a) && a + m[a].size in free && Neighbours(m, a, a + m[a].size)
  }

  lemma RightStepMaximal(supers: map<nat, nat>, m: Blocks, free: seq<nat>, busy: set<nat>, a: nat)
    requires Geometry(supers, m, free, busy) && a in busy && a in m && !(Guard(m, a) && Last(supers, a, m[a]))
    requires Maximal(m, Elems(free))
    ensures var m1, f1 := RightBlocks(m, free, a), Elems(RightFree(m, free, a));
            Maximal(m1, f1) && (NoFreeRight(m1, f1, a) <==> !Misses(m, free, a))
  {
    hide Tiled, SupersApart, Guard, Last, Neighbours, Maximal;
    if JoinsRight(m, free, a) {
      var c := a + m[a].size;
      RightNeighbour(supers, m, a);
      assert c in Elems(free);
      RemoveElems(free, c);
      RightJoinMaximal(supers, m, Elems(free), a, c);
    } else {
      OnlyRight(m, a);
      assert forall x :: x in free <==> x in Elems(free);
    }
  }

  lemma OnlyRight(m: Blocks, a: nat)
    requires a in m
    ensures forall c :: Neighbours(m, a, c) ==> c == a + m[a].size && c in m
  {
  }

  lemma LeftStepMaximal(supers: map<nat, nat>, m: Blocks, free: seq<nat>, busy: set<nat>, a: nat)
    requires Geometry(supers, m, free, busy) && a in busy && a in m && Maximal(m, Elems(free))
    ensures var (m', free') := CoalesceLeft(m, free, a);
            Maximal(m', Elems(free')) <==> NoFreeRight(m, Elems(free), a)
  {
    hide Tiled, SupersApart, Neighbours, Maximal;
    if JoinsLeft(m, free, a) {
      var p := Left(m, free, a);
      assert p in Elems(free);
      RemoveElems(free, p);
      PushElems(Remove(free, p), p);
      assert Elems([p] + Remove(free, p)) == Elems(free);
      LeftJoinMaximal(supers, m, Elems(free), p, a);
    } else {
      PushElems(free, a);
      BlockSize(supers, m, a);
      NoJoinMaximal(m, Elems(free), a);
    }
  }

  lemma BlockSize(supers: map<nat, nat>, m: Blocks, a: nat)
    requires Tiled(supers, m) && a in m
    ensures m[a].size > 0
  {
    assert Within(supers, a, m[a]);
  }

  ghost predicate Coalesced(s: FreeList) { Maximal(s.blocks, Elems(s.free)) }

  /** The exact condition: a free keeps free blocks maximal if and only if it is not the case that
      the right neighbour is free and arena_total keeps it out of range. */
  lemma FreeMaximal(s: FreeList, id: nat)
    requires Inv(s) && Coalesced(s) && id in s.live
    ensures s.live[id] in s.blocks
    ensures Free(s, id).1 == Released ==>
              (Coalesced(Free(s, id).0) <==> !Misses(s.blocks, s.free, s.live[id]))
  {
    hide Books, Guard, Last, Maximal, Geometry;
    LiveInBlocks(s);
    var a := s.live[id];
    assert a in s.live.Values;
    if !Wild(s, a) {
      RightStep(s.supers, s.blocks, s.free, s.live.Values, a);
      RightStepMaximal(s.supers, s.blocks, s.free, s.live.Values, a);
      LeftStepMaximal(s.supers, RightBlocks(s.blocks, s.free, a), RightFree(s.blocks, s.free, a), s.live.Values, a);
    }
  }

  // ---- true totals ----

  /** Every header's arena_total is the size of its superblock. */
  ghost predicate TrueTotals(s: FreeList)
  {
    forall a :: a in s.blocks ==> s.blocks[a].base in s.supers && s.blocks[a].total == s.supers[s.blocks[a].base]
  }

  lemma TrueGuardIs(supers: map<nat, nat>, m: Blocks, a: nat)
    requires Tiled(supers, m) && SupersApart(supers) && a in m
    requires m[a].base in supers && m[a].total == supers[m[a].base]
    ensures Guard(m, a) <==> !Last(supers, a, m[a])
  {
    hide Tiled, HasLeft, Apart;
    var b := m[a];
    BlockWithin(supers, m, a);
    assert b.base + b.total < WORD;
  }

  lemma BlockWithin(supers: map<nat, nat>, m: Blocks, a: nat)
    requires Tiled(supers, m) && a in m
    ensures Within(supers, a, m[a])
  {
  }

  /** The last block of a superblock has no right neighbour, every other block has one. */
  lemma LastIs(supers: map<nat, nat>, m: Blocks, a: nat)
    requires Tiled(supers, m) && a in m
    ensures Last(supers, a, m[a]) <==> !Neighbours(m, a, a + m[a].size)
  {
    hide Tiled, SupersApart;
    if !Last(supers, a, m[a]) { RightNeighbour(supers, m, a); }
    BlockWithin(supers, m, a);
    var c := a + m[a].size;
    if c in m { BlockWithin(supers, m, c); }
  }

  /** With true totals the range check is exact: it admits every right neighbour and nothing else. */
  lemma TrueGuard(s: FreeList, a: nat)
    requires Inv(s) && TrueTotals(s) && a in s.blocks
    ensures Guard(s.blocks, a) <==> Neighbours(s.blocks, a, a + s.blocks[a].size)
    ensures !Wild(s, a) && !Misses(s.blocks, s.free, a)
  {
    hide Books, Tiled, SupersApart, Guard, Last, Neighbours;
    TrueGuardIs(s.supers, s.blocks, a);
    LastIs(s.supers, s.blocks, a);
  }

  // ---- allocation keeps free blocks maximal ----

  lemma CutMaximal(supers: map<nat, nat>, m: Blocks, f: set<nat>, a: nat, need: nat, junk: nat)
    requires Tiled(supers, m) && Maximal(m, f) && a in f && a in m
    requires OVERHEAD <= need && need + OVERHEAD <= m[a].size
    ensures Maximal(Cut(m, a, need, junk), f - {a} + {a + need})
  {
    var m', r := Cut(m, a, need, junk), a + need;
    CutApart(supers, m, a, need, junk);
    forall x, y | Neighbours(m', x, y) ensures !(x in f - {a} + {r} && y in f - {a} + {r}) {
      if x == r { assert Neighbours(m, a, y); }
      else if x != a { assert y != r ==> Neighbours(m, x, y); assert Apart(m, x, a) && Apart(m, a, x); }
    }
  }

  lemma FewerMaximal(m: Blocks, f: set<nat>, a: nat)
    requires Maximal(m, f)
    ensures Maximal(m, f - {a})
  {
  }

  lemma AddMaximal(supers: map<nat, nat>, m: Blocks, f: set<nat>, base: nat, size: nat)
    requires Tiled(supers, m) && Maximal(m, f) && base !in m && base !in supers && size > 0
    ensures Maximal(m[base := Block(size, base, size)], f + {base})
  {
    var m' := m[base := Block(size, base, size)];
    forall x, y | Neighbours(m', x, y) ensures !(x in f + {base} && y in f + {base}) {
      if x in m { assert Within(supers, x, m[x]); }
      if y in m { assert Within(supers, y, m[y]); }
      assert Neighbours(m, x, y);
    }
  }

  lemma ServeMaximal(s: FreeList, i: nat, need: nat, size: nat, junk: nat)
    requires Inv(s) && Coalesced(s) && i < |s.free| && s.free[i] in s.blocks && 80 <= need <= s.blocks[s.free[i]].size
    ensures Coalesced(Serve(s, i, need, size, junk))
  {
    hide Books, Tiled, SupersApart, Maximal;
    var a := s.free[i];
    assert a in Elems(s.free);
    if Splits(s.blocks, a, need) {
      CutNew(s.supers, s.blocks, a, need, junk);
      assert a + need !in Elems(s.free);
      ReplaceElems(s.free, i, a + need);
      CutMaximal(s.supers, s.blocks, Elems(s.free), a, need, junk);
    } else {
      RemoveAtElems(s.free, i);
      FewerMaximal(s.blocks, Elems(s.free), a);
    }
  }

  lemma GrowMaximal(s: FreeList, base: nat, size: nat)
    requires Inv(s) && Coalesced(s) && FreshBlock(s.supers, base, size) && OVERHEAD <= size
    ensures Coalesced(Grow(s, size, base))
  {
    hide Books, Tiled, SupersApart, Maximal, FreshBlock;
    AddTiled(s.supers, s.blocks, base, size);
    assert base !in Elems(s.free);
    PushElems(s.free, base);
    AddMaximal(s.supers, s.blocks, Elems(s.free), base, size);
  }

  lemma FindMaximal(s: FreeList, need: nat, size: nat, align: nat, junk: nat)
    requires Inv(s) && Coalesced(s) && 80 <= need
    ensures Coalesced(Find(s, need, size, align, junk).0)
  {
    hide Inv, Serve, Maximal, FirstFit;
    var i := FirstFit(s.blocks, s.free, need);
    if i < |s.free| {
      ScanKeeps(s, i + 1);
      ServeMaximal(Scanned(s, i + 1), i, need, size, junk);
    }
  }

  lemma AllocateMaximal(s: FreeList, size: nat, alignment: nat, mem: Memory, junk: nat)
    requires Inv(s) && Coalesced(s) && Answers(s, Need(size), mem)
    ensures Coalesced(Allocate(s, size, alignment, mem, junk).0)
  {
    hide Geometry, Books, Maximal, FirstFit, Need, Find, FreshBlock, LegalAlignment, GrowSize, Grow;
    var need := Need(size);
    NeedBounds(size);
    var i := FirstFit(s.blocks, s.free, need);
    FindMaximal(s, need, size, Effective(alignment), junk);
    ScanKeeps(s, i);
    if i == |s.free| && Grows(s, need, mem) {
      var t, grown := Scanned(s, i), GrowSize(s.granule, need);
      GrowSizeBounds(s.granule, need);
      GrowKeeps(t, need, mem);
      GrowMaximal(t, mem.base, grown);
      FindMaximal(Grow(t, grown, mem.base), need, size, Effective(alignment), junk);
    }
  }

  // ---- runs ----

  datatype Op =
    | OpAllocate(size: nat, alignment: nat, mem: Memory, junk: nat)
    | OpFree(id: nat)
    | OpReset

  ghost predicate Possible(s: FreeList, op: Op)
  {
    s.granule >= 1 && (op.OpAllocate? ==> Answers(s, Need(op.size), op.mem))
  }

  ghost predicate Reads(s: FreeList, op: Op)
  {
    op.OpFree? && op.id in s.live && s.live[op.id] in s.blocks && Wild(s, s.live[op.id])
  }

  ghost function Step(s: FreeList, op: Op): FreeList
    requires Inv(s)
  {
    LiveInBlocks(s);
    match op
    case OpAllocate(size, alignment, mem, junk) => Allocate(s, size, alignment, mem, junk).0
    case OpFree(id) => Free(s, id).0
    case OpReset => Reset(s)
  }

  lemma StepKeeps(s: FreeList, op: Op)
    requires Inv(s) && Possible(s, op)
    ensures Inv(Step(s, op))
  {
    hide Inv, Allocate, Free, Answers;
    match op
    case OpAllocate(size, alignment, mem, junk) => AllocateKeeps(s, size, alignment, mem, junk);
    case OpFree(id) => FreeKeeps(s, id);
    case OpReset => ResetKeeps(s);
  }

  /** A run: the states it passes through, one for each operation and the first. */
  ghost predicate Runs(states: seq<FreeList>, ops: seq<Op>)
  {
    && |states| == |ops| + 1
    && Inv(states[0])
    && forall i :: 0 <= i < |ops| ==> Takes(states[i], ops[i], states[i + 1])
  }

  /** One step of a run. Once an operation would read behind a superblock the run is over. */
  ghost predicate Takes(s: FreeList, op: Op, s': FreeList)
  {
    Inv(s) ==> Possible(s, op) && !Reads(s, op) && s' == Step(s, op)
  }

  /** Every state of every run has the invariant. */
  lemma {:induction false} RunKeepsInv(states: seq<FreeList>, ops: seq<Op>, i: nat)
    requires Runs(states, ops) && i < |states|
    ensures Inv(states[i])
  {
    hide Inv, Step, Possible, Reads;
    if i > 0 {
      RunKeepsInv(states, ops, i - 1);
      assert Takes(states[i - 1], ops[i - 1], states[i]);
      StepKeeps(states[i - 1], ops[i - 1]);
    }
  }

  lemma StepMaximal(s: FreeList, op: Op)
    requires Inv(s) && Possible(s, op) && Coalesced(s) && TrueTotals(s)
    ensures !Reads(s, op) && Coalesced(Step(s, op))
  {
    hide Geometry, Books, Allocate, Maximal, Answers, Guard, Last, Misses;
    LiveInBlocks(s);
    if op.OpFree? && op.id in s.live {
      TrueGuard(s, s.live[op.id]);
      FreeMaximal(s, op.id);
    }
    if op.OpAllocate? { AllocateMaximal(s, op.size, op.alignment, op.mem, op.junk); }
    if op.OpReset? { NothingMaximal(); }
  }

  lemma NothingMaximal()
    ensures Maximal(map[], Elems([]))
  {
    var m: Blocks := map[];
    assert forall a, c :: !Neighbours(m, a, c);
  }

  // The free of the operation, if it is one of a live block, misses a free right neighbour.
  ghost predicate MissesAt(s: FreeList, op: Op)
  {
    op.OpFree? && op.id in s.live && s.live[op.id] in s.blocks && Misses(s.blocks, s.free, s.live[op.id])
  }

  lemma StepMaximalIff(s: FreeList, op: Op)
    requires Inv(s) && Possible(s, op) && !Reads(s, op) && Coalesced(s)
    ensures Coalesced(Step(s, op)) <==> !MissesAt(s, op)
  {
    hide Geometry, Books, Allocate, Maximal, Answers, Guard, Last, Misses;
    LiveInBlocks(s);
    if op.OpFree? && op.id in s.live { FreeMaximal(s, op.id); }
    if op.OpAllocate? { AllocateMaximal(s, op.size, op.alignment, op.mem, op.junk); }
    if op.OpReset? { NothingMaximal(); }
  }

  /** Over a run from a coalesced state: no two neighbours are ever both free, in any state, exactly when no
      free in the run misses its free right neighbour. */
  lemma {:induction false} RunMaximalIff(states: seq<FreeList>, ops: seq<Op>, n: nat)
    requires Runs(states, ops) && Coalesced(states[0]) && n < |states|
    ensures (forall i :: 0 <= i <= n ==> Coalesced(states[i])) <==>
              forall i :: 0 <= i < n ==> !MissesAt(states[i], ops[i])
    decreases n
  {
    hide Inv, Step, Possible, Reads, Coalesced, MissesAt;
    if n > 0 {
      RunMaximalIff(states, ops, n - 1);
      RunKeepsInv(states, ops, n - 1);
      assert Takes(states[n - 1], ops[n - 1], states[n]);
      if Coalesced(states[n - 1]) { StepMaximalIff(states[n - 1], ops[n - 1]); }
    }
  }

  /** While every remainder header happens to hold its superblock's size, no two neighbours are
      ever both free and no operation reads behind a superblock. */
  lemma {:induction false} RunMaximal(states: seq<FreeList>, ops: seq<Op>, i: nat)
    requires Runs(states, ops) && Coalesced(states[0]) && i < |states|
    requires forall j :: 0 <= j < |states| ==> TrueTotals(states[j])
    ensures Coalesced(states[i])
    ensures forall op :: Possible(states[i], op) ==> !Reads(states[i], op)
  {
    hide Inv, Step, Possible, Reads, Coalesced, TrueTotals;
    if i > 0 {
      RunMaximal(states, ops, i - 1);
      RunKeepsInv(states, ops, i - 1);
      assert Takes(states[i - 1], ops[i - 1], states[i]);
      StepMaximal(states[i - 1], ops[i - 1]);
    }
    RunKeepsInv(states, ops, i);
    forall op | Possible(states[i], op) ensures !Reads(states[i], op) { StepMaximal(states[i], op); }
  }

  /** Cutting a block keeps totals true exactly when the remainder's memory holds the right value. */
  lemma CutTotals(s: FreeList, i: nat, need: nat, size: nat, junk: nat)
    requires Inv(s) && TrueTotals(s) && i < |s.free| && s.free[i] in s.blocks
        && 80 <= need <= s.blocks[s.free[i]].size
    ensures var a := s.free[i];
            TrueTotals(Serve(s, i, need, size, junk)) <==>
                (Splits(s.blocks, a, need) ==> junk == s.supers[s.blocks[a].base])
  {
    hide Geometry, Books;
    var a, s' := s.free[i], Serve(s, i, need, size, junk);
    if Splits(s.blocks, a, need) {
      assert a + need in s'.blocks;
      CutAt(s.supers, s.blocks, a, need, junk);
    }
  }

  lemma CutAt(supers: map<nat, nat>, m: Blocks, a: nat, need: nat, junk: nat)
    requires a in m && 80 <= need <= m[a].size
    ensures Cut(m, a, need, junk)[a + need] == Block(m[a].size - need, m[a].base, junk)
    ensures Cut(m, a, need, junk)[a] == m[a].(size := need)
  {
  }

  /** Merging keeps true totals: a merged block keeps the header of its left part. */
  lemma FreeTotals(s: FreeList, id: nat)
    requires Inv(s) && TrueTotals(s) && id in s.live
    ensures s.live[id] in s.blocks && TrueTotals(Free(s, id).0)
  {
    hide Geometry, Books;
    LiveInBlocks(s);
    assert s.live[id] in s.blocks;
  }

  // ---- idleness and undoing ----

  lemma OnlyBlock(s: FreeList, a: nat)
    requires Inv(s) && Coalesced(s) && s.live == map[] && a in s.blocks
    ensures a == s.blocks[a].base && a in s.supers && s.blocks[a].size == s.supers[a]
  {
    hide Books, SupersApart;
    var m := s.blocks;
    assert Elems(s.free) == m.Keys;
    assert Within(s.supers, a, m[a]) && HasRight(s.supers, m, a) && HasLeft(m, a);
    if p: nat :| Neighbours(m, p, a) { assert false; }
  }

  /** With nothing live and free blocks maximal, every superblock is one free block again. */
  lemma IdleIsWhole(s: FreeList)
    requires Inv(s) && Coalesced(s) && s.live == map[]
    ensures s.blocks.Keys == s.supers.Keys == Elems(s.free) && |s.free| == |s.supers|
    ensures forall a :: a in s.supers ==> s.blocks[a].size == s.supers[a]
  {
    hide Books, SupersApart, Maximal;
    assert s.live.Values == {};
    forall a | a in s.blocks ensures a in s.supers && s.blocks[a].size == s.supers[a] { OnlyBlock(s, a); }
    assert forall a :: a in s.supers ==> a in s.blocks;
    assert s.blocks.Keys == s.supers.Keys;
    ElemsCount(s.free);
  }

  lemma JoinUndoesCut(m: Blocks, a: nat, need: nat, junk: nat)
    requires a in m && 0 < need <= m[a].size && a + need !in m
    ensures Join(Cut(m, a, need, junk), a, a + need) == m
  {
    assert (Cut(m, a, need, junk) - {a + need})[a := m[a]] == m;
  }

  // The block's own header has its superblock's size.
  predicate TrueTotal(s: FreeList, a: nat)
  {
    a in s.blocks && s.blocks[a].base in s.supers && s.blocks[a].total == s.supers[s.blocks[a].base]
  }

  lemma UndoCut(supers: map<nat, nat>, m: Blocks, free: seq<nat>, busy: set<nat>, i: nat, need: nat, junk: nat)
    requires Geometry(supers, m, free, busy) && i < |free| && free[i] in m && 80 <= need <= m[free[i]].size
    requires m[free[i]].base in supers && m[free[i]].total == supers[m[free[i]].base] && Splits(m, free[i], need)
    ensures var a, m1, free1 := free[i], Cut(m, free[i], need, junk), free[i := free[i] + need];
            && a in m1 && !Last(supers, a, m1[a])
            && RightBlocks(m1, free1, a) == m
            && NoDup(RightFree(m1, free1, a)) && Elems(RightFree(m1, free1, a)) == Elems(free) - {a}
  {
    hide Tiled, Apart;
    var a := free[i];
    BlockWithin(supers, m, a);
    CutNew(supers, m, a, need, junk);
    assert a + need !in Elems(free);
    ReplaceElems(free, i, a + need);
    RemoveElems(free[i := a + need], a + need);
    JoinUndoesCut(m, a, need, junk);
    assert free[i := a + need][i] == a + need;
    assert m[a].base + m[a].total < WORD;
  }

  lemma UndoWhole(supers: map<nat, nat>, m: Blocks, free: seq<nat>, busy: set<nat>, i: nat)
    requires Geometry(supers, m, free, busy) && i < |free| && free[i] in m && Maximal(m, Elems(free))
    requires m[free[i]].base in supers && m[free[i]].total == supers[m[free[i]].base]
    ensures var a, free1 := free[i], RemoveAt(free, i);
            && !(Guard(m, a) && Last(supers, a, m[a]))
            && RightBlocks(m, free1, a) == m && RightFree(m, free1, a) == free1
            && NoDup(free1) && Elems(free1) == Elems(free) - {a}
  {
    hide Tiled, Apart, SupersApart, Guard, Last, Neighbours;
    var a := free[i];
    TrueGuardIs(supers, m, a);
    RemoveAtElems(free, i);
    assert a in Elems(free);
    var c := a + m[a].size;
    assert c in RemoveAt(free, i) ==> c in Elems(RemoveAt(free, i));
    if !Last(supers, a, m[a]) {
      RightNeighbour(supers, m, a);
      assert Neighbours(m, a, c);
    }
  }

  lemma UndoLeft(m: Blocks, free: seq<nat>, free1: seq<nat>, a: nat)
    requires Maximal(m, Elems(free)) && a in free && NoDup(free1) && Elems(free1) == Elems(free) - {a}
    ensures CoalesceLeft(m, free1, a) == (m, [a] + free1) && Elems([a] + free1) == Elems(free)
  {
    assert a in Elems(free);
    assert a !in Elems(free1);
    PushElems(free1, a);
    forall p: nat | Neighbours(m, p, a) ensures p !in free1 { assert p in free1 ==> p in Elems(free1); }
  }

  /** Freeing a block served from the chain restores every block and the set of free blocks, when
      free blocks were maximal and the block's own header has its superblock's size. */
  lemma FreeUndoesServe(s: FreeList, i: nat, need: nat, size: nat, junk: nat)
    requires Inv(s) && Coalesced(s) && i < |s.free| && TrueTotal(s, s.free[i])
        && 80 <= need <= s.blocks[s.free[i]].size
    ensures var s1 := Serve(s, i, need, size, junk);
            && s1.nextId in s1.live && s1.live[s1.nextId] in s1.blocks && Free(s1, s1.nextId).1 == Released
            && Free(s1, s1.nextId).0.blocks == s.blocks && Elems(Free(s1, s1.nextId).0.free) == Elems(s.free)
            && Free(s1, s1.nextId).0.live == s.live
  {
    hide Geometry, Books, Guard, Last, Maximal, RightBlocks, RightFree, CoalesceLeft;
    var a, s1 := s.free[i], Serve(s, i, need, size, junk);
    FreeFacts(s, i);
    assert s1.live - {s1.nextId} == s.live;
    if Splits(s.blocks, a, need) {
      UndoCut(s.supers, s.blocks, s.free, s.live.Values, i, need, junk);
    } else {
      UndoWhole(s.supers, s.blocks, s.free, s.live.Values, i);
    }
    UndoLeft(s.blocks, s.free, RightFree(s1.blocks, s1.free, a), a);
  }

  /** The same on the growth path, where the header's total is always the true one: freeing what was served
      from a new superblock leaves that superblock whole. */
  lemma FreeUndoesGrowth(s: FreeList, need: nat, size: nat, mem: Memory, junk: nat)
    requires Inv(s) && Coalesced(s) && Answers(s, need, mem) && Grows(s, need, mem) && 80 <= need
    ensures var t := Grow(s, GrowSize(s.granule, need), mem.base);
            && t.free[0] in t.blocks && need <= t.blocks[t.free[0]].size
            && var s1 := Serve(t, 0, need, size, junk);
            && s1.nextId in s1.live && s1.live[s1.nextId] in s1.blocks && Free(s1, s1.nextId).1 == Released
            && Free(s1, s1.nextId).0.blocks == t.blocks && Elems(Free(s1, s1.nextId).0.free) == Elems(t.free)
            && Free(s1, s1.nextId).0.live == s.live
  {
    hide Geometry, Books, Guard, Last, Maximal, Serve, Free, GrowSize, FreshBlock;
    GrowSizeBounds(s.granule, need);
    GrowKeeps(s, need, mem);
    GrowMaximal(s, mem.base, GrowSize(s.granule, need));
    FreeUndoesServe(Grow(s, GrowSize(s.granule, need), mem.base), 0, need, size, junk);
  }

  // ---- conservation ----

  function ChainBytes(m: Blocks, free: seq<nat>): nat
  {
    if free == [] then 0 else SizeOf(m, free[0]) + ChainBytes(m, free[1..])
  }

  lemma {:induction false} ChainSum(m: Blocks, free: seq<nat>)
    requires NoDup(free)
    ensures ChainBytes(m, free) == Sum(Elems(free), m)
  {
    hide Sum, SizeOf;
    if free == [] {
      assert Elems(free) == {} && Sum({}, m) == 0 by { EmptySum(m); }
    } else {
      ChainSum(m, free[1..]);
      assert free == [free[0]] + free[1..];
      PushElems(free[1..], free[0]);
      assert free[0] !in Elems(free[1..]);
      SumAdd(Elems(free[1..]), m, free[0]);
    }
  }

  lemma EmptySum(m: Blocks)
    ensures Sum({}, m) == 0
  {
  }

  /** The sizes on the chain, the live payload bytes and 64 bytes for each live block add up to
      the bytes obtained from the system. */
  lemma BytesConserved(s: FreeList)
    requires Inv(s)
    ensures ChainBytes(s.blocks, s.free) + s.n.liveBytes + 64 * s.n.liveCount == s.total
  {
    hide Tiled, SupersApart, Sum;
    ChainSum(s.blocks, s.free);
    SumUnion(Elems(s.free), s.live.Values, s.blocks);
  }

  // ---- what a remainder header can do ----

  const BASE: nat := 0x1000

  // After one allocation of 16 bytes from a fresh superblock of 4096 ...
  function One(junk: nat): FreeList
  {
    Find(Grow(Init(4096, WORD - 1), 4096, BASE), 80, 16, 16, junk).0
  }

  // ... and after a second one served from its remainder.
  function Two(junk: nat, need: nat, size: nat): FreeList
    requires need >= 80
  {
    Find(One(junk), need, size, 16, 0).0
  }

  lemma Fresh4096()
    ensures var s := Grow(Init(4096, WORD - 1), 4096, BASE);
            && Inv(s) && Coalesced(s) && s.blocks == map[0x1000 := Block(4096, 0x1000, 4096)] && s.free == [0x1000]
            && s.supers == map[0x1000 := 4096] && s.live == map[] && s.nextId == 0
  {
    hide Geometry, Books, Maximal, Tiled, SupersApart;
    var s0 := Init(4096, WORD - 1);
    InitInv(4096, WORD - 1);
    NothingMaximal();
    GrowKeeps(s0, 80, Fresh(BASE));
    GrowMaximal(s0, BASE, 4096);
  }

  lemma ServeOnly(s: FreeList, need: nat, size: nat, junk: nat)
    requires |s.free| == 1 && s.free[0] in s.blocks && 80 <= need <= s.blocks[s.free[0]].size
    ensures var s' := Find(s, need, size, 16, junk).0;
            && s'.blocks == Served(s.blocks, s.free[0], need, junk) && s'.supers == s.supers
            && s'.free == (if Splits(s.blocks, s.free[0], need) then [s.free[0] + need] else [])
            && s'.live == s.live[s.nextId + 1 := s.free[0]] && s'.nextId == s.nextId + 1
  {
    hide Served;
    assert FirstFit(s.blocks, s.free, need) == 0;
  }

  lemma OneIs(junk: nat)
    ensures One(junk).blocks == map[0x1000 := Block(80, 0x1000, 4096), 0x1050 := Block(4016, 0x1000, junk)]
    ensures One(junk).free == [0x1050] && One(junk).live == map[1 := 0x1000] && One(junk).nextId == 1
    ensures Inv(One(junk)) && Coalesced(One(junk)) && One(junk).supers == map[0x1000 := 4096]
  {
    hide Inv, Coalesced, Find, Grow, Init, GrantedWell, FirstFit;
    var s := Grow(Init(4096, WORD - 1), 4096, BASE);
    Fresh4096();
    FindKeeps(s, 80, 16, 16, junk);
    FindMaximal(s, 80, 16, 16, junk);
    ServeOnly(s, 80, 16, junk);
  }

  lemma SecondServe(s: FreeList, need: nat, size: nat)
    requires 80 <= need <= 4016 && need % 16 == 0 && size + OVERHEAD <= need && Inv(s) && Coalesced(s)
    requires s.free == [0x1050] && 0x1050 in s.blocks && s.blocks[0x1050].size == 4016
    ensures var t := Find(s, need, size, 16, 0).0;
            && Inv(t) && Coalesced(t) && t.supers == s.supers && t.live == s.live[s.nextId + 1 := 0x1050]
            && t.blocks == Served(s.blocks, 0x1050, need, 0)
            && t.free == (if need + MIN_BLOCK <= 4016 then [0x1050 + need] else [])
  {
    hide Inv, Coalesced, Find, Served, GrantedWell, FirstFit;
    FindKeeps(s, need, size, 16, 0);
    FindMaximal(s, need, size, 16, 0);
    ServeOnly(s, need, size, 0);
  }

  lemma TwoIs(junk: nat, need: nat, size: nat)
    requires 80 <= need <= 4016 && need % 16 == 0 && size + OVERHEAD <= need
    ensures 0x1050 in One(junk).blocks && One(junk).blocks[0x1050].size == 4016
    ensures var s := Two(junk, need, size);
            && Inv(s) && Coalesced(s) && s.supers == map[0x1000 := 4096] && s.live == map[1 := 0x1000, 2 := 0x1050]
            && s.blocks == Served(One(junk).blocks, 0x1050, need, 0)
            && s.free == (if need + MIN_BLOCK <= 4016 then [0x1050 + need] else [])
  {
    hide Inv, Coalesced, Find, One, Served;
    OneIs(junk);
    SecondServe(One(junk), need, size);
  }

  /** A remainder over zeroed memory has arena_total 0. Allocating it in two parts and freeing the
      first leaves two free neighbours. */
  lemma ZeroedRemainder()
    ensures var s := Two(0, 80, 16);
            && Inv(s) && Coalesced(s) && 2 in s.live && s.live[2] in s.blocks
            && Free(s, 2).1 == Released && !Coalesced(Free(s, 2).0)
  {
    hide Inv, Coalesced, Two, One, Free;
    var s := Two(0, 80, 16);
    OneIs(0);
    TwoIs(0, 80, 16);
    assert s.blocks[0x1050] == Block(80, 0x1000, 0) && s.blocks[0x10A0] == Block(3936, 0x1000, 0);
    assert s.free[0] == 0x10A0;
    assert Misses(s.blocks, s.free, 0x1050);
    FreeMaximal(s, 2);
    FreeKeeps(s, 2);
  }

  /** A remainder over memory that reads 8192 ends, by its header, behind the superblock. Freeing it
      looks at memory there. */
  lemma StaleRemainder()
    ensures var s := Two(8192, 4016, 3952);
            Inv(s) && 2 in s.live && s.live[2] in s.blocks && Free(s, 2).1 == Undefined
  {
    hide Inv, Coalesced, Two, One, Free;
    var s := Two(8192, 4016, 3952);
    OneIs(8192);
    TwoIs(8192, 4016, 3952);
    assert s.blocks[0x1050] == Block(4016, 0x1000, 8192);
    FreeKeeps(s, 2);
  }
}
