/** What the slab allocator answers and counts, in terms of its calls: which slot serves a request, what trim and
    free do to the pages, the limit on its bytes, and its statistics over runs. */
module SlabHistory {
  import opened Bits
  import opened AllocTypes
  import opened Requests
  import opened Sequences
  import opened SlabModel
  import H = Histories

  // ---- the layout ----

  /** Slots are as close as steps of 16 allow, and a page has as many as fit. */
  lemma LayoutTight(l: Layout, base: nat)
    requires Fits(l)
    ensures Stride(l) < (if l.objectSize > 16 then l.objectSize else 16) + 16
    ensures Slot(l, base, PerSlab(l)) + Stride(l) > base + Page(l)
  {
    hide Pow2, AlignUp;
    StrideBounds(l);
    StrideTight(l);
    DivTight(Page(l) - 64, Stride(l));
  }

  lemma StrideTight(l: Layout)
    ensures Stride(l) < (if l.objectSize > 16 then l.objectSize else 16) + 16
  {
    var v := if l.objectSize > 16 then l.objectSize else 16;
    Pow2Word();
    AlignUpPow2(v, 4);
  }

  lemma DivTight(x: nat, d: nat)
    requires 1 <= d <= x
    ensures Div(x, d) * d + d > x && Div(x, d) >= 1
  {
    assert x == d * (x / d) + x % d;
  }

  // ---- one call ----

  /** A request is served with the slot freed last in the first page with a free slot, or, when no page has one, with
      the last slot of the new page; every other page stays as it is. */
  lemma AllocateExactly(s: SlabState, size: nat, alignment: nat, mem: Memory)
    requires Inv(s) && Answers(s, mem) && Allocate(s, size, alignment, mem).1.Granted?
    ensures var i := FirstFree(s.slabs);
            var (s', r) := Allocate(s, size, alignment, mem);
            && r.size == s.l.objectSize && r.alignment == 16
            && if i < |s.slabs| then
                 && |s'.slabs| == |s.slabs| && s.slabs[i].free == s'.slabs[i].free + [r.addr]
                 && s'.slabs == s.slabs[i := Slab(s.slabs[i].base, s'.slabs[i].free)]
                 && s'.total == s.total
               else
                 && mem.Fresh? && s'.total == s.total + Page(s.l) <= s.maxBytes
                 && r.addr == mem.base + 64 + (PerSlab(s.l) - 1) * Stride(s.l)
                 && |s'.slabs| == |s.slabs| + 1 && s'.slabs[..|s.slabs|] == s.slabs
                 && s'.slabs[|s.slabs|].base == mem.base && |s'.slabs[|s.slabs|].free| == PerSlab(s.l) - 1
                 && forall j :: 0 <= j < PerSlab(s.l) - 1 ==>
                      s'.slabs[|s.slabs|].free[j] == mem.base + 64 + j * Stride(s.l)
  {
    hide Inv, Aligned, LegalAlignment, FirstFree, PerSlab, Page, Stride, Wrap64, Grow, Serve;
    var i := FirstFree(s.slabs);
    if i < |s.slabs| {
      ServeHit(s, i, size);
    } else if mem.Fresh? {
      SmallWrap(s.total + Page(s.l));
      ServeGrown(s, mem.base, size);
    }
  }

  lemma ServeHit(s: SlabState, i: nat, size: nat)
    requires i < |s.slabs| && s.slabs[i].free != []
    ensures var (s', r) := Serve(s, i, size);
            && r.Granted? && r.size == s.l.objectSize && r.alignment == 16 && s'.total == s.total
            && |s'.slabs| == |s.slabs| && s.slabs[i].free == s'.slabs[i].free + [r.addr]
            && s'.slabs == s.slabs[i := Slab(s.slabs[i].base, s'.slabs[i].free)]
  {
    hide PerSlab;
  }

  lemma ServeGrown(s: SlabState, base: nat, size: nat)
    ensures |Grow(s, base).slabs| == |s.slabs| + 1 && |Grow(s, base).slabs[|s.slabs|].free| == PerSlab(s.l)
    ensures var (s', r) := Serve(Grow(s, base), |s.slabs|, size);
            && r.Granted? && r.size == s.l.objectSize && r.alignment == 16 && s'.total == s.total + Page(s.l)
            && r.addr == base + 64 + (PerSlab(s.l) - 1) * Stride(s.l)
            && |s'.slabs| == |s.slabs| + 1 && s'.slabs[..|s.slabs|] == s.slabs
            && s'.slabs[|s.slabs|].base == base && |s'.slabs[|s.slabs|].free| == PerSlab(s.l) - 1
            && forall j :: 0 <= j < PerSlab(s.l) - 1 ==>
                 s'.slabs[|s.slabs|].free[j] == base + 64 + j * Stride(s.l)
  {
    hide Page, Stride, AllSlots;
    var t := Grow(s, base);
    assert t.slabs[|s.slabs|].free == AllSlots(s.l, base, PerSlab(s.l));
    assert PerSlab(s.l) >= 1;
    ServeHit(t, |s.slabs|, size);
    var f := Serve(t, |s.slabs|, size).0.slabs[|s.slabs|].free;
    assert forall j :: 0 <= j < |f| ==> f[j] == Slot(s.l, base, j);
  }

  /** Which requests are refused, and that a refusal changes nothing but a counter. */
  lemma Refusals(s: SlabState, size: nat, alignment: nat, mem: Memory)
    ensures var (s', r) := Allocate(s, size, alignment, mem);
            && (r == Failed(SizeTooLarge) <==> size > s.l.objectSize)
            && (r == Failed(AlignmentUnsupported) <==> size <= s.l.objectSize && alignment !in {0, 1, 2, 4, 8, 16})
            && (r.Failed? ==>
                  r.error in {SizeTooLarge, AlignmentUnsupported, CapacityExceeded}
                  && s' == s.(n := s.n.(failures := s.n.failures + if r.error == CapacityExceeded then 1 else 0)))
  {
    hide LegalAlignment, FirstFree, Page, PerSlab, Stride, Wrap64;
    LegalAlignments(alignment);
  }

  /** A freed slot goes behind the other free slots of its page, and every other page stays as it is. */
  lemma FreeExactly(s: SlabState, id: nat)
    requires Inv(s) && id in s.live
    ensures var s' := Free(s, id).0;
            exists i ::
              && 0 <= i < |s.slabs| && s.live[id] in Slots(s.l, s.slabs[i].base)
              && s'.slabs == s.slabs[i := Slab(s.slabs[i].base, s.slabs[i].free + [s.live[id]])]
  {
    hide Inv, Slots, PageOf, SlabOf;
    assert s.live[id] in s.live.Values;
    HomeFound(s, s.live[id]);
  }

  /** Trim keeps the order of the pages that stay. */
  lemma {:induction false} TrimOrder(l: Layout, slabs: seq<Slab>, i: nat, j: nat)
    requires i < j < |Kept(l, slabs)|
    ensures exists p, q :: 0 <= p < q < |slabs| && slabs[p] == Kept(l, slabs)[i] && slabs[q] == Kept(l, slabs)[j]
  {
    hide Kept;
    KeptStep(l, slabs);
    var rest := slabs[1..];
    if Kept(l, slabs) == Kept(l, rest) {
      TrimOrder(l, rest, i, j);
      var p, q :| 0 <= p < q < |rest| && rest[p] == Kept(l, rest)[i] && rest[q] == Kept(l, rest)[j];
      assert slabs[p + 1] == rest[p] && slabs[q + 1] == rest[q];
    } else if i > 0 {
      TrimOrder(l, rest, i - 1, j - 1);
      var p, q :| 0 <= p < q < |rest| && rest[p] == Kept(l, rest)[i - 1] && rest[q] == Kept(l, rest)[j - 1];
      assert slabs[p + 1] == rest[p] && slabs[q + 1] == rest[q];
    } else {
      KeptIs(l, rest);
      assert Kept(l, rest)[j - 1] in rest;
      var q :| 0 <= q < |rest| && rest[q] == Kept(l, rest)[j - 1];
      assert slabs[q + 1] == rest[q];
    }
  }

  lemma KeptStep(l: Layout, slabs: seq<Slab>)
    ensures slabs == [] ==> Kept(l, slabs) == []
    ensures slabs != [] ==>
              Kept(l, slabs) == Kept(l, slabs[1..]) || Kept(l, slabs) == [slabs[0]] + Kept(l, slabs[1..])
  {
    hide PerSlab;
  }

  // ---- the calls of a run ----

  /** A call with its answer. */
  ghost function EventOf(s: SlabState, op: Op): H.Event
  {
    match op
    case OpAllocate(size, alignment, mem) => H.Asked(size, Allocate(s, size, alignment, mem).1)
    case OpFree(id) => H.Returned(id, Free(s, id).1 == Ok)
    case OpTrim => H.Trimmed
    case OpReset => H.Emptied
  }

  /** The first n calls of a run. */
  ghost function History(states: seq<SlabState>, ops: seq<Op>, n: nat): seq<H.Event>
    requires n <= |ops| && n <= |states|
  {
    if n == 0 then [] else History(states, ops, n - 1) + [EventOf(states[n - 1], ops[n - 1])]
  }

  /** same_size_reuse counts both grants and frees. */
  function StatisticsOf(n: Counters): H.Statistics
  {
    H.Statistics(n.success, n.failures, n.sameSize - n.success, n.requested, n.granted, n.liveCount, n.liveBytes,
                 n.peakCount, n.peakBytes)
  }

  /** The live handles with the bytes they were granted. */
  ghost function GrantedSizes(s: SlabState): map<nat, int> { map id | id in s.live :: s.l.objectSize }

  function Trims(h: seq<H.Event>): nat
  {
    if h == [] then 0 else Trims(H.Before(h)) + if H.Last(h).Trimmed? then 1 else 0
  }

  /** The call changes the statistics and the live handles as its answer says; and what is counted beside them:
      handles count the grants, each grant is a reuse and a hit of the pool, and trims are counted. */
  ghost predicate Follows(s: SlabState, e: H.Event, s': SlabState)
  {
    && H.Sound(GrantedSizes(s), e) && StatisticsOf(s'.n) == H.Next(StatisticsOf(s.n), GrantedSizes(s), e)
    && GrantedSizes(s') == H.NextLive(GrantedSizes(s), e)
    && s'.nextId - s.nextId == s'.n.success - s.n.success && s'.n.reuse - s.n.reuse == s'.n.success - s.n.success
    && s'.n.trims == s.n.trims + if e.Trimmed? then 1 else 0
  }

  lemma AllocateCounts(s: SlabState, size: nat, alignment: nat, mem: Memory)
    requires Inv(s) && Answers(s, mem) && Allocate(s, size, alignment, mem).1.Granted?
    ensures var (s', r) := Allocate(s, size, alignment, mem);
            && StatisticsOf(s'.n) == H.Next(StatisticsOf(s.n), GrantedSizes(s), H.Asked(size, r))
            && s'.nextId == s.nextId + 1 && s'.maxBytes == s.maxBytes && s'.l == s.l
            && s'.n.reuse == s.n.reuse + 1 && s'.n.trims == s.n.trims && s'.n.recovered == s.n.recovered
            && s'.n.growth == s.n.growth + (if s'.total == s.total then 0 else 1)
            && s'.n.peakTotal == if s'.total == s.total then s.n.peakTotal else Max(s.n.peakTotal, s'.total)
  {
    hide Inv, Answers, LegalAlignment, FirstFree, Wrap64, Grow, GrantedSizes, StatisticsOf, H.Next, Serve, Balance;
    hide Housed, Page;
    AllocateKeeps(s, size, alignment, mem);
    var i := FirstFree(s.slabs);
    if i < |s.slabs| {
      ServeKeeps(s, i, size);
      ServeCounts(s, i, size);
    } else {
      PagePositive(s.l);
      AnswersFresh(s, mem);
      GrownInv(s, mem.base);
      GrowCounts(s, mem.base);
      ServeKeeps(Grow(s, mem.base), |s.slabs|, size);
      ServeCounts(Grow(s, mem.base), |s.slabs|, size);
      NextSame(s, Grow(s, mem.base), H.Asked(size, Allocate(s, size, alignment, mem).1));
    }
  }

  lemma PagePositive(l: Layout)
    ensures Page(l) >= 1
  {
  }

  lemma AnswersFresh(s: SlabState, mem: Memory)
    requires Answers(s, mem) && mem.Fresh?
    ensures Aligned(mem.base, s.l.pageLog) && forall i :: 0 <= i < |s.slabs| ==> s.slabs[i].base != mem.base
  {
    hide Aligned, Page;
  }

  lemma ServeCounts(s: SlabState, i: nat, size: nat)
    requires i < |s.slabs| && s.slabs[i].free != [] && Serve(s, i, size).1.reused
    ensures var (s', r) := Serve(s, i, size);
            && StatisticsOf(s'.n) == H.Next(StatisticsOf(s.n), GrantedSizes(s), H.Asked(size, r))
            && s'.nextId == s.nextId + 1 && s'.maxBytes == s.maxBytes && s'.l == s.l && s'.total == s.total
            && s'.n.reuse == s.n.reuse + 1 && s'.n.trims == s.n.trims && s'.n.recovered == s.n.recovered
            && s'.n.growth == s.n.growth && s'.n.peakTotal == s.n.peakTotal
  {
    hide GrantedSizes, PerSlab;
  }

  lemma GrowCounts(s: SlabState, base: nat)
    ensures var t := Grow(s, base);
            && StatisticsOf(t.n) == StatisticsOf(s.n) && t.nextId == s.nextId && t.maxBytes == s.maxBytes
            && t.n.growth == s.n.growth + 1 && t.n.peakTotal == Max(s.n.peakTotal, t.total)
            && t.total == s.total + Page(s.l) && t.l == s.l && t.n.reuse == s.n.reuse && t.n.trims == s.n.trims
            && t.n.recovered == s.n.recovered
  {
    hide Page, PerSlab, AllSlots;
  }

  lemma NextSame(s: SlabState, t: SlabState, e: H.Event)
    requires StatisticsOf(s.n) == StatisticsOf(t.n) && H.IsGrant(e)
    ensures H.Next(StatisticsOf(s.n), GrantedSizes(s), e) == H.Next(StatisticsOf(t.n), GrantedSizes(t), e)
  {
  }

  lemma CountsOf(s: SlabState, t: SlabState)
    ensures StatisticsOf(s.n).success == s.n.success && StatisticsOf(t.n).success == t.n.success
    ensures StatisticsOf(s.n).returned == s.n.sameSize - s.n.success
    ensures t.live == s.live && t.l == s.l ==> GrantedSizes(s) == GrantedSizes(t)
    ensures t.n == s.n.(trims := t.n.trims, recovered := t.n.recovered) ==> StatisticsOf(t.n) == StatisticsOf(s.n)
  {
  }

  lemma SizesAdd(s: SlabState, s': SlabState, r: Outcome)
    requires r.Granted? && r.id !in s.live && s'.live == s.live[r.id := r.addr] && s'.l == s.l
    requires r.size == s.l.objectSize
    ensures r.id !in GrantedSizes(s) && GrantedSizes(s') == GrantedSizes(s)[r.id := r.size]
  {
  }

  lemma RefusalCounts(s: SlabState, s': SlabState, e: H.Event)
    requires e.Asked? && e.answer.Failed? && e.answer.error != OutOfMemory
    requires s' == s.(n := s.n.(failures := s.n.failures + if e.answer.error == CapacityExceeded then 1 else 0))
    ensures StatisticsOf(s'.n) == H.Next(StatisticsOf(s.n), GrantedSizes(s), e)
  {
    hide GrantedSizes;
  }

  lemma NewHandle(s: SlabState, s': SlabState, r: Outcome)
    requires AllocatedWell(s, s', r) && r.Granted?
    ensures r.id !in s.live && s'.live == s.live[r.id := r.addr] && r.size == s.l.objectSize
  {
    hide Inv, Balance, Housed;
  }

  lemma AllocateFollows(s: SlabState, size: nat, alignment: nat, mem: Memory)
    requires Inv(s) && Answers(s, mem)
    ensures var (s', r) := Allocate(s, size, alignment, mem); Follows(s, H.Asked(size, r), s')
  {
    hide Inv, Answers, Allocate, GrantedSizes, StatisticsOf, AllocatedWell;
    var (s', r) := Allocate(s, size, alignment, mem);
    AllocateKeeps(s, size, alignment, mem);
    CountsOf(s, s');
    if r.Granted? {
      AllocateCounts(s, size, alignment, mem);
      NewHandle(s, s', r);
      SizesAdd(s, s', r);
    } else {
      Refusals(s, size, alignment, mem);
      RefusalCounts(s, s', H.Asked(size, r));
    }
  }

  lemma FreeFollows(s: SlabState, id: nat)
    requires Inv(s) && Booked(s)
    ensures var (s', r) := Free(s, id); Follows(s, H.Returned(id, r == Ok), s')
  {
    hide Inv, Booked, Free, GrantedSizes, StatisticsOf;
    FreeKeeps(s, id);
    var (s', r) := Free(s, id);
    CountsOf(s, s');
    if r == Ok {
      FreeCounts(s, id);
      SizesDrop(s, s', id);
    }
  }

  lemma FreeCounts(s: SlabState, id: nat)
    requires Inv(s) && Booked(s) && id in s.live
    ensures var s' := Free(s, id).0;
            && s'.n == s.n.(sameSize := s.n.sameSize + 1, liveCount := s'.n.liveCount, liveBytes := s'.n.liveBytes)
            && s'.n.liveCount == s.n.liveCount - 1 && s'.n.liveBytes == s.n.liveBytes - s.l.objectSize
            && s'.nextId == s.nextId && s'.l == s.l && s'.total == s.total && s'.maxBytes == s.maxBytes
            && StatisticsOf(s'.n) == H.Next(StatisticsOf(s.n), GrantedSizes(s), H.Returned(id, true))
  {
    hide Fits, SlabsOk, Injective, Bytes, SlabOf, PageOf, Push, Objects;
    assert s.live[id] in s.live.Values;
    HomeFound(s, s.live[id]);
    LiveLess(s.live, id);
    ObjectsAdd(s.l, |s.live| - 1);
  }

  lemma SizesDrop(s: SlabState, s': SlabState, id: nat)
    requires id in s.live && s'.live == s.live - {id} && s'.l == s.l
    ensures id in GrantedSizes(s) && GrantedSizes(s)[id] == s.l.objectSize
    ensures GrantedSizes(s') == GrantedSizes(s) - {id}
  {
  }

  lemma TrimFollows(s: SlabState)
    ensures Follows(s, H.Trimmed, Trim(s))
  {
    hide Kept, Bytes;
  }

  lemma ResetFollows(s: SlabState)
    ensures Follows(s, H.Emptied, Reset(s))
  {
  }

  lemma StepFollows(s: SlabState, op: Op, s': SlabState)
    requires Inv(s) && Booked(s) && Takes(s, op, s')
    ensures Follows(s, EventOf(s, op), s')
  {
    hide Inv, Booked, Allocate, Free, Trim, Follows, Answers;
    match op
    case OpAllocate(size, alignment, mem) => AllocateFollows(s, size, alignment, mem);
    case OpFree(id) => FreeFollows(s, id);
    case OpTrim => TrimFollows(s);
    case OpReset => ResetFollows(s);
  }

  // ---- the limit on the bytes ----

  /** Held bytes stay within the limit. */
  ghost predicate Limited(s: SlabState) { s.total <= s.n.peakTotal <= s.maxBytes }

  lemma StepLimited(s: SlabState, op: Op, s': SlabState)
    requires Inv(s) && Booked(s) && Takes(s, op, s') && Limited(s)
    ensures Limited(s') && s'.maxBytes == s.maxBytes && s'.n.peakTotal == Max(s.n.peakTotal, s'.total)
  {
    hide Inv, Booked, Allocate, Free, Answers, Page, Kept;
    match op
    case OpAllocate(size, alignment, mem) =>
      if Allocate(s, size, alignment, mem).1.Granted? {
        AllocateCounts(s, size, alignment, mem);
        AllocateExactly(s, size, alignment, mem);
      } else {
        Refusals(s, size, alignment, mem);
      }
    case OpFree(id) =>
      FreeKeeps(s, id);
      if id in s.live { FreeCounts(s, id); }
    case OpTrim =>
    case OpReset =>
  }

  // ---- runs ----

  ghost predicate FromStart(l: Layout, maxBytes: nat, states: seq<SlabState>, ops: seq<Op>)
  {
    Fits(l) && Runs(states, ops) && states[0] == Init(l, maxBytes)
  }

  /** In every state of every run from the start the allocator holds at most max_bytes; and the peak is the most it
      ever held. */
  lemma {:induction false} RunLimited(l: Layout, maxBytes: nat, states: seq<SlabState>, ops: seq<Op>, n: nat)
    requires FromStart(l, maxBytes, states, ops) && n < |states|
    ensures states[n].maxBytes == maxBytes && states[n].total <= maxBytes && Limited(states[n])
    ensures forall i :: 0 <= i <= n ==> states[i].total <= states[n].n.peakTotal
    ensures exists i :: 0 <= i <= n && states[n].n.peakTotal == states[i].total
    decreases n
  {
    hide Inv, Step, Booked, Takes, Fits;
    if n > 0 {
      RunLimited(l, maxBytes, states, ops, n - 1);
      RunKnown(l, maxBytes, states, ops, n - 1);
      assert Takes(states[n - 1], ops[n - 1], states[n]);
      StepLimited(states[n - 1], ops[n - 1], states[n]);
      var i :| 0 <= i <= n - 1 && states[n - 1].n.peakTotal == states[i].total;
      assert states[n].n.peakTotal == states[if states[n].total > states[i].total then n else i].total;
    }
  }

  lemma RunKnown(l: Layout, maxBytes: nat, states: seq<SlabState>, ops: seq<Op>, n: nat)
    requires FromStart(l, maxBytes, states, ops) && n < |states|
    ensures Inv(states[n]) && Booked(states[n])
  {
    hide Inv, Step, Booked, Takes, Fits, Init;
    InitInv(l, maxBytes);
    RunKeepsInv(states, ops, n);
    RunBooked(l, maxBytes, states, ops, n);
  }

  lemma {:induction false} RunTold(l: Layout, maxBytes: nat, states: seq<SlabState>, ops: seq<Op>, n: nat)
    requires FromStart(l, maxBytes, states, ops) && n < |states|
    ensures var s, h := states[n], History(states, ops, n);
            && H.Told(StatisticsOf(s.n), GrantedSizes(s), h) && s.nextId == s.n.success
            && s.n.reuse == s.n.success && s.n.trims == Trims(h)
    decreases n
  {
    hide Inv, Booked, Takes, H.Told, GrantedSizes, StatisticsOf, EventOf, Init, Fits, Trims;
    if n == 0 {
      StartTold(l, maxBytes);
    } else {
      RunTold(l, maxBytes, states, ops, n - 1);
      RunKnown(l, maxBytes, states, ops, n - 1);
      var s, op, h := states[n - 1], ops[n - 1], History(states, ops, n - 1);
      assert Takes(s, op, states[n]);
      StepFollows(s, op, states[n]);
      CountsOf(s, states[n]);
      SnocTrims(h, EventOf(s, op));
      H.StepTold(StatisticsOf(s.n), GrantedSizes(s), h, EventOf(s, op));
    }
  }

  lemma SnocTrims(h: seq<H.Event>, e: H.Event)
    ensures Trims(h + [e]) == Trims(h) + if e.Trimmed? then 1 else 0
  {
    H.Snoc(h, e);
  }

  lemma StartTold(l: Layout, maxBytes: nat)
    ensures var s := Init(l, maxBytes);
            && H.Told(StatisticsOf(s.n), GrantedSizes(s), []) && s.nextId == s.n.success
            && s.n.reuse == s.n.success && s.n.trims == Trims([])
  {
    hide H.Told, GrantedSizes, StatisticsOf;
    H.NothingTold();
    StartCounts(l, maxBytes);
  }

  lemma StartCounts(l: Layout, maxBytes: nat)
    ensures StatisticsOf(Init(l, maxBytes).n) == H.Statistics(0, 0, 0, 0, 0, 0, 0, 0, 0)
    ensures GrantedSizes(Init(l, maxBytes)) == map[]
  {
  }

  /** In every state of every run from the start the statistics are those of the calls and answers: grants,
      refusals for want of memory, bytes asked for and given, what is live and the most that ever was. Each grant
      counts as a reuse, same-size reuse counts grants and accepted frees, and without reset every grant is freed
      or live. */
  lemma Accounting(l: Layout, maxBytes: nat, states: seq<SlabState>, ops: seq<Op>, n: nat)
    requires FromStart(l, maxBytes, states, ops) && n < |states|
    ensures var s, h := states[n], History(states, ops, n);
            && StatisticsOf(s.n) == H.StatisticsOf(h) && s.nextId == s.n.success
            && s.n.sameSize == H.Grants(h) + H.Returns(h) && s.n.reuse == H.Grants(h) && s.n.trims == Trims(h)
            && H.Live(h) == GrantedSizes(s)
    ensures (forall i :: 0 <= i < n ==> !ops[i].OpReset?) ==>
              H.Grants(History(states, ops, n)) == H.Returns(History(states, ops, n)) + |states[n].live|
  {
    hide Inv, Takes, Init, Fits, Trims, History, GrantedSizes;
    RunTold(l, maxBytes, states, ops, n);
    SizesCount(states[n]);
    if forall i :: 0 <= i < n ==> !ops[i].OpReset? { OpenIf(states, ops, n); }
  }

  lemma SizesCount(s: SlabState)
    ensures |GrantedSizes(s)| == |s.live|
  {
    assert GrantedSizes(s).Keys == s.live.Keys;
    assert |GrantedSizes(s).Keys| == |GrantedSizes(s)| && |s.live.Keys| == |s.live|;
  }

  lemma {:induction false} OpenIf(states: seq<SlabState>, ops: seq<Op>, n: nat)
    requires n <= |ops| && n <= |states| && forall i :: 0 <= i < n ==> !ops[i].OpReset?
    ensures H.Open(History(states, ops, n))
    decreases n
  {
    hide Allocate, Free;
    if n > 0 {
      OpenIf(states, ops, n - 1);
      H.SnocOpen(History(states, ops, n - 1), EventOf(states[n - 1], ops[n - 1]));
    }
  }
}
