/** What the free-list allocator answers and counts, in terms of its calls: which block serves a request and how
    much of it, the order of the chain, the limit on its bytes, and its statistics over runs. */
module FreeListHistory {
  import opened Bits
  import opened AllocTypes
  import opened Requests
  import opened FreeListBlocks
  import opened Sequences
  import opened FreeListModel
  import opened FreeListRuns
  import H = Histories

  // ---- the block that serves a request ----

  /** A block of `whole` bytes at `a` serves a request: 72 bytes or more left over are cut off as a free block
      behind it, less stay with it. */
  ghost predicate CutToFit(a: nat, whole: nat, size: nat, s': FreeList, r: Outcome)
    requires r.Granted?
  {
    && r.addr == a + 48 && Need(size) <= whole && a in s'.blocks
    && r.size + 64 == (if whole - Need(size) >= 72 then Need(size) else whole)
    && (whole - Need(size) >= 72 ==>
          a + Need(size) in s'.blocks && s'.blocks[a + Need(size)].size == whole - Need(size)
          && s'.blocks[a + Need(size)].base == s'.blocks[a].base)
  }

  /** The remainder, if any, takes the block's place in the chain. */
  function Remainder(a: nat, whole: nat, need: nat): seq<nat>
  {
    if whole >= need + 72 then [a + need] else []
  }

  lemma ServeExactly(s: FreeList, i: nat, size: nat, align: nat, junk: nat)
    requires i < |s.free| && s.free[i] in s.blocks && s.blocks[s.free[i]].size >= Need(size) >= 80
    requires i == FirstFit(s.blocks, s.free, Need(size))
    ensures var (s', r) := Find(s, Need(size), size, align, junk);
            var a := s.free[i];
            && r.Granted? && CutToFit(a, s.blocks[a].size, size, s', r)
            && s'.free == s.free[..i] + Remainder(a, s.blocks[a].size, Need(size)) + s.free[i + 1..]
            && s'.supers == s.supers && s'.total == s.total && s'.n.scanned == s.n.scanned + i + 1
  {
    hide Need;
  }

  lemma ServeHit(s: FreeList, i: nat, size: nat, align: nat, mem: Memory, junk: nat)
    requires Inv(s) && i == FirstFit(s.blocks, s.free, Need(size)) && i < |s.free| && Need(size) >= 80
    ensures var (s', r) := Obtain(s, Need(size), size, align, mem, junk);
            var a := s.free[i];
            && r.Granted? && a in s.blocks && CutToFit(a, s.blocks[a].size, size, s', r)
            && s'.free == s.free[..i] + Remainder(a, s.blocks[a].size, Need(size)) + s.free[i + 1..]
            && s'.supers == s.supers && s'.total == s.total && s'.n.scanned == s.n.scanned + i + 1
  {
    hide Geometry, Books, Need, Find, CutToFit, Remainder, Grow;
    FreeFacts(s, i);
    ServeExactly(s, i, size, align, junk);
  }

  lemma ServeGrown(s: FreeList, size: nat, align: nat, mem: Memory, junk: nat)
    requires Inv(s) && |s.free| == FirstFit(s.blocks, s.free, Need(size)) && Need(size) >= 80
    requires Answers(s, Need(size), mem) && Obtain(s, Need(size), size, align, mem, junk).1.Granted?
    ensures var (s', r) := Obtain(s, Need(size), size, align, mem, junk);
            var whole := GrowSize(s.granule, Need(size));
            && mem.Fresh? && CutToFit(mem.base, whole, size, s', r)
            && s'.free == Remainder(mem.base, whole, Need(size)) + s.free
            && s'.supers == s.supers[mem.base := whole] && s'.total == s.total + whole <= s.maxBytes
            && s'.n.scanned == s.n.scanned + |s.free| + 1
  {
    hide Geometry, Books, Need, Find, CutToFit, Remainder, Answers, GrowSize, Grow, FirstFit, Wrap64, Scanned;
    ScannedSame(s, |s.free|);
    GrowSizeBounds(s.granule, Need(size));
    var i, whole := |s.free|, GrowSize(s.granule, Need(size));
    if mem.Fresh? {
      NoWrap(s, Need(size), mem);
      GrownHit(Scanned(s, i), Need(size), mem.base, whole);
      GrownFirst(Scanned(s, i), whole, mem.base);
      ServeExactly(Grow(Scanned(s, i), whole, mem.base), 0, size, align, junk);
    }
  }

  lemma ScannedSame(s: FreeList, steps: nat)
    ensures var t := Scanned(s, steps);
            && t.free == s.free && t.blocks == s.blocks && t.supers == s.supers && t.total == s.total
            && t.n.scanned == s.n.scanned + steps
  {
  }

  lemma GrownFirst(s: FreeList, size: nat, base: nat)
    ensures var t := Grow(s, size, base);
            && t.free[..0] == [] && t.free[1..] == s.free && t.free[0] == base && t.blocks[base].size == size
            && base in t.blocks && t.total == s.total + size && t.supers == s.supers[base := size]
            && t.free == [base] + s.free && t.n.scanned == s.n.scanned
  {
  }

  /** A request is served from the first block of the chain that is large enough, or, when no block is, from the
      new superblock; and the caller gets what it needs and less than 72 bytes more. */
  lemma AllocateExactly(s: FreeList, size: nat, alignment: nat, mem: Memory, junk: nat)
    requires Inv(s) && Answers(s, Need(size), mem) && Allocate(s, size, alignment, mem, junk).1.Granted?
    ensures var (s', r) := Allocate(s, size, alignment, mem, junk);
            var i := FirstFit(s.blocks, s.free, Need(size));
            && Need(size) <= r.size + 64 < Need(size) + 72 && r.alignment == (if alignment == 0 then 16 else alignment)
            && if i < |s.free| then
                 var a := s.free[i];
                 && a in s.blocks && CutToFit(a, s.blocks[a].size, size, s', r)
                 && s'.free == s.free[..i] + Remainder(a, s.blocks[a].size, Need(size)) + s.free[i + 1..]
                 && s'.supers == s.supers && s'.total == s.total && s'.n.scanned == s.n.scanned + i + 1
               else
                 var whole := GrowSize(s.granule, Need(size));
                 && mem.Fresh? && CutToFit(mem.base, whole, size, s', r)
                 && s'.free == Remainder(mem.base, whole, Need(size)) + s.free
                 && s'.supers == s.supers[mem.base := whole] && s'.total == s.total + whole <= s.maxBytes
                 && s'.n.scanned == s.n.scanned + |s.free| + 1
  {
    hide Inv, Need, Obtain, Answers, LegalAlignment, GrowSize, Remainder;
    NeedBounds(size);
    var i := FirstFit(s.blocks, s.free, Need(size));
    AllocateKeeps(s, size, alignment, mem, junk);
    if i < |s.free| { ServeHit(s, i, size, Effective(alignment), mem, junk); }
    else { ServeGrown(s, size, Effective(alignment), mem, junk); }
  }

  /** Which requests are refused outright, and that a refused request changes nothing but counters. */
  lemma Refusals(s: FreeList, size: nat, alignment: nat, mem: Memory, junk: nat)
    requires Inv(s) && Answers(s, Need(size), mem)
    ensures var (s', r) := Allocate(s, size, alignment, mem, junk);
            && (r == Failed(SizeTooLarge) <==> size > 0x2_0000_0000)
            && (r == Failed(AlignmentUnsupported) <==> size <= 0x2_0000_0000 && alignment !in {0, 1, 2, 4, 8, 16})
            && (r == Failed(SizeTooLarge) || r == Failed(AlignmentUnsupported) ==> s' == s)
            && (r.Failed? && s' != s ==> r == Failed(CapacityExceeded))
            && (r == Failed(CapacityExceeded) ==>
                  s' == s.(n := s.n.(scanned := s.n.scanned + |s.free|, failures := s.n.failures + 1)))
  {
    hide Inv, Need, Answers, LegalAlignment, Obtain;
    NeedBounds(size);
    LegalAlignments(alignment);
    if size <= MAX_SIZE && LegalAlignment(alignment) {
      ObtainRefuses(s, Need(size), size, Effective(alignment), mem, junk);
    }
  }

  lemma ObtainRefuses(s: FreeList, need: nat, size: nat, align: nat, mem: Memory, junk: nat)
    requires Inv(s) && Answers(s, need, mem) && need >= 80
    ensures var (s', r) := Obtain(s, need, size, align, mem, junk);
            && (r.Failed? ==> r.error == CapacityExceeded)
            && (r.Failed? ==>
                  s' == s.(n := s.n.(scanned := s.n.scanned + |s.free|, failures := s.n.failures + 1)))
  {
    hide Geometry, Books, Answers, Serve, GrowSize, Grow;
    var i := FirstFit(s.blocks, s.free, need);
    if i == |s.free| && mem.Fresh? {
      GrowSizeBounds(s.granule, need);
      GrownHit(Scanned(s, i), need, mem.base, GrowSize(s.granule, need));
      ChainNotEmpty(Scanned(s, i), GrowSize(s.granule, need), mem.base);
    }
  }

  // ---- the order of the chain after a free ----

  lemma RestInOrder(m: Blocks, free: seq<nat>, a: nat)
    requires a in m && NoDup(free)
    ensures var f := Coalesce(m, free, a).1;
            f != [] && f[1..] == Keep(free, Elems(f[1..]))
  {
    hide JoinsRight, JoinsLeft, RightBlocks, RightFree, CoalesceLeft;
    var m1, f1 := RightBlocks(m, free, a), RightFree(m, free, a);
    RightOrder(m, free, a);
    LeftOrder(m1, f1, a);
    var rest := CoalesceLeft(m1, f1, a).1[1..];
    if a + m[a].size !in Elems(rest) { KeepRemove(free, a + m[a].size, Elems(rest)); }
  }

  lemma RightOrder(m: Blocks, free: seq<nat>, a: nat)
    requires a in m && NoDup(free)
    ensures var f1 := RightFree(m, free, a);
            && NoDup(f1) && (f1 == free || (f1 == Remove(free, a + m[a].size) && a + m[a].size !in Elems(f1)))
  {
    hide JoinsRight;
    RemoveElems(free, a + m[a].size);
  }

  lemma LeftOrder(m: Blocks, free: seq<nat>, a: nat)
    requires NoDup(free)
    ensures var f := CoalesceLeft(m, free, a).1;
            f != [] && f[1..] == Keep(free, Elems(f[1..])) && Elems(f[1..]) <= Elems(free)
  {
    hide JoinsLeft;
    var rest := CoalesceLeft(m, free, a).1[1..];
    KeepAll(rest, Elems(rest));
    if JoinsLeft(m, free, a) {
      var p := Left(m, free, a);
      RemoveElems(free, p);
      KeepRemove(free, p, Elems(rest));
    }
  }

  /** The freed block, with what it merged with, is the head of the chain; the rest of the chain keeps its order. */
  lemma FreeChain(s: FreeList, id: nat)
    requires Inv(s) && id in s.live
    ensures s.live[id] in s.blocks
    ensures var (s', r) := Free(s, id);
            r == Released ==>
              && s'.free != [] && s'.free[1..] == Keep(s.free, Elems(s'.free[1..]))
              && s'.free[0] in s'.blocks && s'.free[0] <= s.live[id]
              && s.live[id] + s.blocks[s.live[id]].size <= s'.free[0] + s'.blocks[s'.free[0]].size
  {
    hide Geometry, Books, Coalesce, Wild;
    LiveInBlocks(s);
    InvOrder(s);
    RestInOrder(s.blocks, s.free, s.live[id]);
    HeadHolds(s.blocks, s.free, s.live[id]);
  }

  lemma InvOrder(s: FreeList)
    requires Inv(s)
    ensures NoDup(s.free)
  {
    hide Books, Tiled, SupersApart, NoDup;
  }

  /** What an accepted free does to the counters. */
  lemma ReturnCounts(s: FreeList, id: nat)
    requires Inv(s) && id in s.live && s.live[id] in s.blocks && Free(s, id).1 == Released
    ensures var n, n' := s.n, Free(s, id).0.n;
            && n' == n.(freed := n'.freed, coalesced := n'.coalesced, liveCount := n'.liveCount,
                        liveBytes := n'.liveBytes)
            && n'.freed == n.freed + 1 && n'.coalesced == n.coalesced + 1 && n'.liveCount == n.liveCount - 1
            && n'.liveBytes == n.liveBytes - (s.blocks[s.live[id]].size - 64)
  {
    hide Inv, Release, Wild;
    LiveAtLeast(s, id);
    ReleaseCounts(s, id);
  }

  lemma ReleaseCounts(s: FreeList, id: nat)
    requires id in s.live && s.live[id] in s.blocks && s.n.liveCount >= 1
    requires s.n.liveBytes + 64 >= s.blocks[s.live[id]].size >= 64
    ensures Release(s, id).n ==
            s.n.(freed := s.n.freed + 1, coalesced := s.n.coalesced + 1, liveCount := s.n.liveCount - 1,
                 liveBytes := s.n.liveBytes - (s.blocks[s.live[id]].size - 64))
  {
    hide Coalesce;
  }

  /** The payload of a live block is part of the live bytes. */
  lemma LiveAtLeast(s: FreeList, id: nat)
    requires Inv(s) && id in s.live && s.live[id] in s.blocks
    ensures s.n.liveCount == |s.live| >= 1
    ensures s.n.liveBytes + 64 >= s.blocks[s.live[id]].size >= 64
  {
    hide Geometry, Sum, Injective;
    LivePayload(s, id);
    assert s.live != map[];
  }

  lemma HeadHolds(m: Blocks, free: seq<nat>, a: nat)
    requires a in m
    ensures var (m', f) := Coalesce(m, free, a);
            f != [] && f[0] in m' && f[0] <= a && a + m[a].size <= f[0] + m'[f[0]].size
  {
  }

  // ---- the calls of a run ----

  /** A call with its answer. */
  ghost function EventOf(s: FreeList, op: Op): H.Event
    requires Inv(s)
  {
    LiveInBlocks(s);
    match op
    case OpAllocate(size, alignment, mem, junk) => H.Asked(size, Allocate(s, size, alignment, mem, junk).1)
    case OpFree(id) => H.Returned(id, Free(s, id).1 == Released)
    case OpReset => H.Emptied
  }

  /** The first n calls of a run. */
  ghost function History(states: seq<FreeList>, ops: seq<Op>, n: nat): seq<H.Event>
    requires Runs(states, ops) && n < |states|
  {
    if n == 0 then []
    else
      hide Inv, Step, Possible, Reads;
      RunKeepsInv(states, ops, n - 1);
      History(states, ops, n - 1) + [EventOf(states[n - 1], ops[n - 1])]
  }

  function StatisticsOf(n: Counters): H.Statistics
  {
    H.Statistics(n.success, n.failures, n.freed, n.requested, n.granted, n.liveCount, n.liveBytes, n.peakCount,
                 n.peakBytes)
  }

  /** The live handles with the bytes they were granted. */
  ghost function GrantedSizes(s: FreeList): map<nat, int> { map id | id in s.live :: SizeOf(s.blocks, s.live[id]) - 64 }

  /** The call changes the statistics and the live handles as its answer says; and what is counted beside them:
      handles count the grants, coalescing the accepted frees. */
  ghost predicate Follows(s: FreeList, e: H.Event, s': FreeList)
  {
    && H.Sound(GrantedSizes(s), e) && StatisticsOf(s'.n) == H.Next(StatisticsOf(s.n), GrantedSizes(s), e)
    && GrantedSizes(s') == H.NextLive(GrantedSizes(s), e)
    && s'.nextId - s.nextId == s'.n.success - s.n.success && s'.n.coalesced - s.n.coalesced == s'.n.freed - s.n.freed
  }

  lemma ServeCounts(s: FreeList, size: nat, align: nat, junk: nat)
    requires Inv(s) && Need(size) >= 80 && Find(s, Need(size), size, align, junk).1.Granted?
    ensures var (s', r) := Find(s, Need(size), size, align, junk);
            && StatisticsOf(s'.n) == H.Next(StatisticsOf(s.n), GrantedSizes(s), H.Asked(size, r))
            && s'.nextId == s.nextId + 1 && s'.n.coalesced == s.n.coalesced && r.reused == (s.n.freed > 0)
            && s'.n.growth == s.n.growth && s'.n.peakTotal == s.n.peakTotal && s'.maxBytes == s.maxBytes
  {
    hide Inv, Need, GrantedSizes;
  }

  lemma GrowCounts(s: FreeList, steps: nat, size: nat, base: nat)
    ensures var t := Grow(Scanned(s, steps), size, base);
            && StatisticsOf(t.n) == StatisticsOf(s.n) && t.nextId == s.nextId && t.n.coalesced == s.n.coalesced
            && t.n.growth == s.n.growth + 1 && t.n.peakTotal == Max(s.n.peakTotal, t.total)
            && t.maxBytes == s.maxBytes
  {
  }

  lemma ObtainCounts(s: FreeList, size: nat, align: nat, mem: Memory, junk: nat)
    requires Inv(s) && Answers(s, Need(size), mem) && Need(size) >= 80 && Need(size) % 16 == 0
    requires Obtain(s, Need(size), size, align, mem, junk).1.Granted?
    ensures var (s', r) := Obtain(s, Need(size), size, align, mem, junk);
            && StatisticsOf(s'.n) == H.Next(StatisticsOf(s.n), GrantedSizes(s), H.Asked(size, r))
            && s'.nextId == s.nextId + 1 && s'.n.coalesced == s.n.coalesced && r.reused == (s.n.freed > 0)
            && s'.maxBytes == s.maxBytes
            && s'.n.growth == s.n.growth + (if s'.total == s.total then 0 else 1)
            && s'.n.peakTotal == if s'.total == s.total then s.n.peakTotal else Max(s.n.peakTotal, s'.total)
  {
    hide Geometry, Books, Need, Find, GrowSize, Grow, Answers, StatisticsOf, GrantedSizes, H.Next;
    var i, whole := FirstFit(s.blocks, s.free, Need(size)), GrowSize(s.granule, Need(size));
    if i < |s.free| {
      FindTotal(s, Need(size), size, align, junk);
      ServeCounts(s, size, align, junk);
    } else {
      var t := Grow(Scanned(s, i), whole, mem.base);
      GrowSizeBounds(s.granule, Need(size));
      GrowCounts(s, i, whole, mem.base);
      ScanKeeps(s, i);
      NoWrap(s, Need(size), mem);
      ScanGrows(s, i, Need(size), mem);
      GrowKeeps(Scanned(s, i), Need(size), mem);
      FindTotal(t, Need(size), size, align, junk);
      ServeCounts(t, size, align, junk);
      GrownFirst(Scanned(s, i), whole, mem.base);
      NextSame(s, t, H.Asked(size, Obtain(s, Need(size), size, align, mem, junk).1));
    }
  }

  lemma NextSame(s: FreeList, t: FreeList, e: H.Event)
    requires StatisticsOf(s.n) == StatisticsOf(t.n) && H.IsGrant(e)
    ensures H.Next(StatisticsOf(s.n), GrantedSizes(s), e) == H.Next(StatisticsOf(t.n), GrantedSizes(t), e)
    ensures s.n.freed == t.n.freed
  {
  }

  lemma ScanGrows(s: FreeList, steps: nat, need: nat, mem: Memory)
    requires s.granule >= 1
    ensures Answers(Scanned(s, steps), need, mem) == Answers(s, need, mem)
    ensures Grows(Scanned(s, steps), need, mem) == Grows(s, need, mem)
  {
  }

  lemma FindTotal(s: FreeList, need: nat, size: nat, align: nat, junk: nat)
    requires need >= 80
    ensures Find(s, need, size, align, junk).0.total == s.total
  {
  }

  lemma SizesAdd(s: FreeList, size: nat, align: nat, s': FreeList, r: Outcome)
    requires r.Granted? && GrantedWell(s, size, align, s', r)
    ensures r.id !in GrantedSizes(s) && GrantedSizes(s') == GrantedSizes(s)[r.id := r.size]
  {
    hide Apart;
  }

  lemma SizesSame(s: FreeList, s': FreeList)
    requires s'.live == s.live && s'.blocks == s.blocks
    ensures GrantedSizes(s') == GrantedSizes(s)
  {
  }

  lemma RefusalCounts(s: FreeList, s': FreeList, e: H.Event)
    requires e.Asked? && e.answer.Failed? && e.answer.error != OutOfMemory
    requires s' == s || e.answer.error == CapacityExceeded
    requires e.answer.error == CapacityExceeded ==>
               s' == s.(n := s.n.(scanned := s.n.scanned + |s.free|, failures := s.n.failures + 1))
    ensures StatisticsOf(s'.n) == H.Next(StatisticsOf(s.n), GrantedSizes(s), e)
  {
    hide GrantedSizes;
  }

  lemma CountsOf(s: FreeList, t: FreeList)
    ensures StatisticsOf(s.n).success == s.n.success && StatisticsOf(t.n).success == t.n.success
    ensures StatisticsOf(s.n).returned == s.n.freed && StatisticsOf(t.n).returned == t.n.freed
  {
  }

  lemma AllocateFollows(s: FreeList, size: nat, alignment: nat, mem: Memory, junk: nat)
    requires Inv(s) && Answers(s, Need(size), mem)
    ensures var (s', r) := Allocate(s, size, alignment, mem, junk); Follows(s, H.Asked(size, r), s')
  {
    hide Geometry, Books, Need, Obtain, Answers, GrantedSizes, StatisticsOf, LegalAlignment, GrantedWell;
    var (s', r) := Allocate(s, size, alignment, mem, junk);
    NeedBounds(size);
    AllocateKeeps(s, size, alignment, mem, junk);
    CountsOf(s, s');
    if r.Granted? {
      ObtainCounts(s, size, Effective(alignment), mem, junk);
      SizesAdd(s, size, Effective(alignment), s', r);
      NewHandle(s, size, Effective(alignment), s', r);
    } else {
      Refusals(s, size, alignment, mem, junk);
      RefusalCounts(s, s', H.Asked(size, r));
      SizesSame(s, s');
    }
  }

  lemma NewHandle(s: FreeList, size: nat, align: nat, s': FreeList, r: Outcome)
    requires r.Granted? && GrantedWell(s, size, align, s', r)
    ensures s'.nextId == s.nextId + 1
  {
    hide Apart;
  }

  lemma SizesDrop(s: FreeList, s': FreeList, id: nat)
    requires id in s.live && s'.live == s.live - {id} && SameOthers(s.blocks, s'.blocks, s'.live.Values)
    ensures id in GrantedSizes(s) && GrantedSizes(s)[id] == SizeOf(s.blocks, s.live[id]) - 64
    ensures GrantedSizes(s') == GrantedSizes(s) - {id}
  {
    hide Sum;
    forall k | k in s'.live ensures SizeOf(s.blocks, s.live[k]) == SizeOf(s'.blocks, s'.live[k]) {
      assert s'.live[k] in s'.live.Values;
    }
  }

  lemma FreeFollows(s: FreeList, id: nat)
    requires Inv(s)
    ensures id in s.live ==> s.live[id] in s.blocks
    ensures var (s', r) := Free(s, id);
            r != Undefined ==> Follows(s, H.Returned(id, r == Released), s')
  {
    hide Inv, Release, Wild, GrantedSizes, StatisticsOf, SameOthers;
    FreeKeeps(s, id);
    var (s', r) := Free(s, id);
    CountsOf(s, s');
    if r == Released {
      ReturnCounts(s, id);
      LiveAtLeast(s, id);
      SizesDrop(s, s', id);
      ReturnStatistics(s.n, s'.n, GrantedSizes(s), id);
    }
  }

  lemma ReturnStatistics(n: Counters, n': Counters, sizes: map<nat, int>, id: nat)
    requires n' == n.(freed := n'.freed, coalesced := n'.coalesced, liveCount := n'.liveCount,
                      liveBytes := n'.liveBytes)
    requires n'.freed == n.freed + 1 && n'.liveCount == n.liveCount - 1 && id in sizes
    requires n'.liveBytes == n.liveBytes - sizes[id]
    ensures StatisticsOf(n') == H.Next(StatisticsOf(n), sizes, H.Returned(id, true))
  {
  }

  lemma ResetFollows(s: FreeList)
    ensures Follows(s, H.Emptied, Reset(s))
  {
  }

  lemma StepFollows(s: FreeList, op: Op)
    requires Inv(s) && Possible(s, op) && !Reads(s, op)
    ensures Follows(s, EventOf(s, op), Step(s, op))
  {
    hide Inv, Allocate, Free, Follows, Answers, Wild;
    match op
    case OpAllocate(size, alignment, mem, junk) => AllocateFollows(s, size, alignment, mem, junk);
    case OpFree(id) => FreeFollows(s, id); FreeKeeps(s, id);
    case OpReset => ResetFollows(s);
  }

  // ---- the limit on the bytes ----

  /** Held bytes stay within the limit, and each superblock obtained is counted. */
  ghost predicate Limited(s: FreeList) { s.total <= s.n.peakTotal <= s.maxBytes && |s.supers| <= s.n.growth }

  lemma AllocateLimited(s: FreeList, size: nat, alignment: nat, mem: Memory, junk: nat)
    requires Inv(s) && Answers(s, Need(size), mem) && Limited(s)
    ensures var s' := Allocate(s, size, alignment, mem, junk).0;
            && Limited(s') && s'.maxBytes == s.maxBytes && s'.n.growth - |s'.supers| == s.n.growth - |s.supers|
            && s'.n.peakTotal == Max(s.n.peakTotal, s'.total)
  {
    hide Geometry, Books, Need, Obtain, Answers, StatisticsOf, GrantedSizes, LegalAlignment, GrowSize, H.Next;
    hide CutToFit, Remainder;
    NeedBounds(size);
    var (s', r) := Allocate(s, size, alignment, mem, junk);
    if r.Granted? {
      ObtainCounts(s, size, Effective(alignment), mem, junk);
      AllocateExactly(s, size, alignment, mem, junk);
      GrowSizeBounds(s.granule, Need(size));
      if mem.Fresh? { NewSuper(s, Need(size), mem); }
    } else {
      Refusals(s, size, alignment, mem, junk);
    }
  }

  lemma NewSuper(s: FreeList, need: nat, mem: Memory)
    requires Inv(s) && Answers(s, need, mem) && mem.Fresh? && need >= 80
    ensures |s.supers[mem.base := GrowSize(s.granule, need)]| == |s.supers| + 1
  {
    hide SupersApart, GrowSize, Books, FreshBlock;
    GrowSizeBounds(s.granule, need);
    AddTiled(s.supers, s.blocks, mem.base, GrowSize(s.granule, need));
    assert mem.base !in s.supers;
    var t := s.supers[mem.base := GrowSize(s.granule, need)];
    assert t.Keys == s.supers.Keys + {mem.base} && |t.Keys| == |t| && |s.supers.Keys| == |s.supers|;
  }

  lemma FreeLimited(s: FreeList, id: nat)
    requires Inv(s)
    ensures id in s.live ==> s.live[id] in s.blocks
    ensures var s' := Free(s, id).0;
            && s'.maxBytes == s.maxBytes && s'.supers == s.supers && s'.total == s.total
            && s'.n.growth == s.n.growth && s'.n.peakTotal == s.n.peakTotal
  {
    hide Inv, Wild, Coalesce;
    FreeKeeps(s, id);
  }

  lemma StepLimited(s: FreeList, op: Op)
    requires Inv(s) && Possible(s, op) && Limited(s)
    ensures var s' := Step(s, op);
            && Limited(s') && s'.maxBytes == s.maxBytes && s'.n.peakTotal == Max(s.n.peakTotal, s'.total)
            && (!op.OpReset? ==> s'.n.growth - |s'.supers| == s.n.growth - |s.supers|)
  {
    hide Inv, Allocate, Free, Answers;
    match op
    case OpAllocate(size, alignment, mem, junk) => AllocateLimited(s, size, alignment, mem, junk);
    case OpFree(id) => FreeLimited(s, id);
    case OpReset =>
  }

  // ---- runs ----

  ghost predicate FromStart(granule: nat, maxBytes: nat, states: seq<FreeList>, ops: seq<Op>)
  {
    Runs(states, ops) && states[0] == Init(granule, maxBytes)
  }

  /** In every state of every run from the start the allocator holds at most max_bytes; the peak is the most it
      ever held; and growth counts the superblocks it holds, as long as none was given back. */
  lemma {:induction false} RunLimited(granule: nat, maxBytes: nat, states: seq<FreeList>, ops: seq<Op>, n: nat)
    requires FromStart(granule, maxBytes, states, ops) && n < |states|
    ensures states[n].maxBytes == maxBytes && states[n].total <= maxBytes && Limited(states[n])
    ensures forall i :: 0 <= i <= n ==> states[i].total <= states[n].n.peakTotal
    ensures exists i :: 0 <= i <= n && states[n].n.peakTotal == states[i].total
    ensures (forall i :: 0 <= i < n ==> !ops[i].OpReset?) ==> states[n].n.growth == |states[n].supers|
    decreases n
  {
    hide Inv, Step, Possible, Reads;
    if n > 0 {
      RunLimited(granule, maxBytes, states, ops, n - 1);
      RunKeepsInv(states, ops, n - 1);
      assert Takes(states[n - 1], ops[n - 1], states[n]);
      StepLimited(states[n - 1], ops[n - 1]);
      var i :| 0 <= i <= n - 1 && states[n - 1].n.peakTotal == states[i].total;
      assert states[n].n.peakTotal == states[if states[n].total > states[i].total then n else i].total;
    }
  }

  lemma {:induction false} RunTold(granule: nat, maxBytes: nat, states: seq<FreeList>, ops: seq<Op>, n: nat)
    requires FromStart(granule, maxBytes, states, ops) && n < |states|
    ensures var s := states[n];
            && H.Told(StatisticsOf(s.n), GrantedSizes(s), History(states, ops, n))
            && s.nextId == s.n.success && s.n.coalesced == s.n.freed
    decreases n
  {
    hide Inv, Step, Possible, Reads, H.Told, GrantedSizes, StatisticsOf, EventOf;
    if n == 0 {
      StartTold(granule, maxBytes);
    } else {
      RunTold(granule, maxBytes, states, ops, n - 1);
      RunKeepsInv(states, ops, n - 1);
      var s, op := states[n - 1], ops[n - 1];
      assert Takes(s, op, states[n]);
      StepFollows(s, op);
      CountsOf(s, states[n]);
      H.StepTold(StatisticsOf(s.n), GrantedSizes(s), History(states, ops, n - 1), EventOf(s, op));
    }
  }

  lemma StartTold(granule: nat, maxBytes: nat)
    ensures var s := Init(granule, maxBytes);
            && H.Told(StatisticsOf(s.n), GrantedSizes(s), []) && s.nextId == s.n.success && s.n.coalesced == s.n.freed
  {
    H.NothingTold();
    assert GrantedSizes(Init(granule, maxBytes)) == map[];
  }

  /** In every state of every run from the start the statistics are those of the calls and answers: grants,
      refusals for want of memory, accepted frees, bytes asked for and given, what is live and the most that ever
      was. Handles count the grants, and without reset every grant is freed or live. */
  lemma Accounting(granule: nat, maxBytes: nat, states: seq<FreeList>, ops: seq<Op>, n: nat)
    requires FromStart(granule, maxBytes, states, ops) && n < |states|
    ensures var s, h := states[n], History(states, ops, n);
            && StatisticsOf(s.n) == H.StatisticsOf(h) && s.nextId == s.n.success && s.n.coalesced == s.n.freed
            && H.Live(h) == GrantedSizes(s)
    ensures (forall i :: 0 <= i < n ==> !ops[i].OpReset?) ==>
              states[n].n.success == states[n].n.freed + |states[n].live|
  {
    hide Inv, Step, Possible, Reads, History, GrantedSizes;
    RunTold(granule, maxBytes, states, ops, n);
    SizesCount(states[n]);
    if forall i :: 0 <= i < n ==> !ops[i].OpReset? { OpenIf(states, ops, n); }
  }

  lemma SizesCount(s: FreeList)
    ensures |GrantedSizes(s)| == |s.live|
  {
    assert GrantedSizes(s).Keys == s.live.Keys;
    assert |GrantedSizes(s).Keys| == |GrantedSizes(s)| && |s.live.Keys| == |s.live|;
  }

  lemma {:induction false} OpenIf(states: seq<FreeList>, ops: seq<Op>, n: nat)
    requires Runs(states, ops) && n < |states| && forall i :: 0 <= i < n ==> !ops[i].OpReset?
    ensures H.Open(History(states, ops, n))
    decreases n
  {
    hide Inv, Allocate, Free, Takes;
    if n > 0 {
      RunKeepsInv(states, ops, n - 1);
      OpenIf(states, ops, n - 1);
      H.SnocOpen(History(states, ops, n - 1), EventOf(states[n - 1], ops[n - 1]));
    }
  }

  /** A grant reports reuse exactly when some earlier call of the run freed a live handle. */
  lemma ReuseMeaning(granule: nat, maxBytes: nat, states: seq<FreeList>, ops: seq<Op>, n: nat, op: Op)
    requires FromStart(granule, maxBytes, states, ops) && n < |states|
    requires op.OpAllocate? && Possible(states[n], op)
    ensures Inv(states[n])
    ensures var h, e := History(states, ops, n), EventOf(states[n], op);
            H.IsGrant(e) ==> (e.answer.reused <==> exists i :: 0 <= i < |h| && H.IsReturn(h[i]))
  {
    hide Geometry, Books, Runs, History, GrantedSizes, Need, Obtain, Answers, LegalAlignment;
    RunKeepsInv(states, ops, n);
    RunTold(granule, maxBytes, states, ops, n);
    var h := History(states, ops, n);
    H.ReturnsMeaning(h);
    CountsOf(states[n], states[n]);
    NeedBounds(op.size);
    if H.IsGrant(EventOf(states[n], op)) {
      ObtainCounts(states[n], op.size, Effective(op.alignment), op.mem, op.junk);
    }
  }
}
