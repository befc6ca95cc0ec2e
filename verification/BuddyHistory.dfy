/** What the buddy allocator answers and counts, in terms of its calls: which block serves a request and how much
    of it, and its statistics over runs. */
module BuddyHistory {
  import opened Bits
  import opened BuddyBlocks
  import opened BuddyModel
  import opened AllocTypes
  import Requests
  import H = Histories

  // ---- one request ----

  /** The grant is the least power of two that holds 16 bytes of header and the request, less the header. It is the
      low end of the lowest block among the smallest that are large enough. */
  lemma AllocateExactly(s: Buddy, size: nat, alignment: nat)
    requires Inv(s) && Allocate(s, size, alignment).1.Granted?
    ensures var (s', r) := Allocate(s, size, alignment);
            && Need(size) <= r.size + 16 < 2 * Need(size) && r.alignment == 16
            && r.id in s'.live && r.size + 16 == Pow2(s'.live[r.id].order)
            && exists b ::
                 && b in s.free && b.order >= s'.live[r.id].order
                 && (forall c :: c in s.free && c.order >= s'.live[r.id].order ==>
                       b.order < c.order || (b.order == c.order && b.off <= c.off))
                 && r.addr == b.off + 16 && s'.live[r.id].off == b.off
                 && s'.n.splits == s.n.splits + b.order - s'.live[r.id].order
  {
    hide Inv, OrderFor, IsPowerOfTwo, SplitDown, Pick, BestFit, Need;
    NeedBounds(size);
    LeastOrder(size);
    PickBest(s.free, OrderFor(size));
  }

  lemma PickBest(free: set<Blk>, k: nat)
    requires SearchHit(free, k)
    ensures var b := Pick(free, k);
            && b in free && b.order >= k
            && forall c :: c in free && c.order >= k ==> b.order < c.order || (b.order == c.order && b.off <= c.off)
  {
    var w :| w in free && w.order >= k;
    BestFitExists(free, k, w);
  }

  lemma LeastOrder(size: nat)
    ensures Need(size) <= Pow2(OrderFor(size)) < 2 * Need(size)
  {
    hide Need;
    NeedBounds(size);
    CeilLogIs(Need(size));
    var k := OrderFor(size);
    assert Pow2(k) == 2 * Pow2(k - 1);
  }

  /** Which requests are refused outright, and that a refused request changes nothing but a counter. */
  lemma Refusals(s: Buddy, size: nat, alignment: nat)
    ensures var (s', r) := Allocate(s, size, alignment);
            && (r == Failed(InitFailed) <==> !s.arena)
            && (r == Failed(SizeTooLarge) <==> s.arena && size + 16 > Pow2(s.max))
            && (r == Failed(AlignmentUnsupported) <==>
                  s.arena && size + 16 <= Pow2(s.max) && alignment !in {0, 1, 2, 4, 8, 16})
            && (r.Failed? ==>
                  r.error != OutOfMemory
                  && s' == s.(n := s.n.(failures := s.n.failures + if r.error == CapacityExceeded then 1 else 0)))
  {
    hide OrderFor, SplitDown, Pick, IsPowerOfTwo, Requests.LegalAlignment;
    Requests.LegalAlignments(alignment);
    LegalIs(alignment);
  }

  lemma LegalIs(alignment: nat)
    ensures Requests.LegalAlignment(alignment) <==> alignment == 0 || (IsPowerOfTwo(alignment) && alignment <= 16)
  {
  }

  // ---- the calls of a run ----

  /** A call with its answer. */
  ghost function EventOf(s: Buddy, op: Op): H.Event
  {
    match op
    case OpAllocate(size, alignment) => H.Asked(size, Allocate(s, size, alignment).1)
    case OpFree(h) => H.Returned(h, Free(s, h).1 == Status.Ok)
    case OpReset => H.Emptied
    case OpShutdown => H.Emptied
  }

  ghost function History(s: Buddy, ops: seq<Op>): seq<H.Event>
    decreases |ops|
  {
    if ops == [] then [] else [EventOf(s, ops[0])] + History(Step(s, ops[0]), ops[1..])
  }

  function StatisticsOf(n: Counters): H.Statistics
  {
    H.Statistics(n.success, n.failures, n.freed, n.requested, n.granted, n.liveCount, n.liveBytes, n.peakCount,
                 n.peakBytes)
  }

  /** The live handles with the bytes they were granted. */
  ghost function GrantedSizes(s: Buddy): map<nat, int> { map id | id in s.live :: s.live[id].Size() - 16 }

  /** The call changes the statistics and the live handles as its answer says. */
  ghost predicate Follows(s: Buddy, e: H.Event, s': Buddy)
  {
    && H.Sound(GrantedSizes(s), e) && StatisticsOf(s'.n) == H.Next(StatisticsOf(s.n), GrantedSizes(s), e)
    && GrantedSizes(s') == H.NextLive(GrantedSizes(s), e) && s'.nextId - s.nextId == s'.n.success - s.n.success
  }

  lemma GrantCounts(s: Buddy, size: nat, alignment: nat)
    requires Allocate(s, size, alignment).1.Granted?
    ensures var (s', r) := Allocate(s, size, alignment);
            && StatisticsOf(s'.n) == H.Next(StatisticsOf(s.n), GrantedSizes(s), H.Asked(size, r))
            && s'.nextId == s.nextId + 1 && s'.n.merges == s.n.merges && r.reused == (s.n.freed > 0)
  {
    hide OrderFor, IsPowerOfTwo, SplitDown, Pick;
  }

  lemma AllocateFollows(s: Buddy, size: nat, alignment: nat)
    requires Inv(s)
    ensures Follows(s, H.Asked(size, Allocate(s, size, alignment).1), Allocate(s, size, alignment).0)
  {
    hide Inv, Allocate, GrantedSizes, StatisticsOf;
    var (s', r) := Allocate(s, size, alignment);
    AllocateKeeps(s, size, alignment);
    CountsOf(s, s');
    if r.Granted? { GrantCounts(s, size, alignment); SizesAdd(s, s', r); }
    else { Refusals(s, size, alignment); RefusalCounts(s, s', H.Asked(size, r)); }
  }

  lemma SizesAdd(s: Buddy, s': Buddy, r: Outcome)
    requires r.Granted? && r.id !in s.live && r.id in s'.live && s'.live == s.live[r.id := s'.live[r.id]]
    requires r.size == s'.live[r.id].Size() - 16
    ensures r.id !in GrantedSizes(s) && GrantedSizes(s') == GrantedSizes(s)[r.id := r.size]
  {
    hide Blk.Size;
  }

  lemma RefusalCounts(s: Buddy, s': Buddy, e: H.Event)
    requires e.Asked? && e.answer.Failed? && e.answer.error != OutOfMemory
    requires s' == s.(n := s.n.(failures := s.n.failures + if e.answer.error == CapacityExceeded then 1 else 0))
    ensures StatisticsOf(s'.n) == H.Next(StatisticsOf(s.n), GrantedSizes(s), e) && GrantedSizes(s') == GrantedSizes(s)
  {
    hide Blk.Size;
  }

  lemma SizesDrop(s: Buddy, s': Buddy, id: nat)
    requires id in s.live && s'.live == s.live - {id}
    ensures id in GrantedSizes(s) && GrantedSizes(s)[id] == s.live[id].Size() - 16
    ensures GrantedSizes(s') == GrantedSizes(s) - {id}
  {
    hide Blk.Size;
  }

  lemma CountsOf(s: Buddy, t: Buddy)
    ensures StatisticsOf(s.n).success == s.n.success && StatisticsOf(t.n).success == t.n.success
    ensures s == t ==> GrantedSizes(s) == GrantedSizes(t)
  {
  }

  lemma ReleaseCounts(s: Buddy, handle: nat)
    requires handle in s.live && s.n.liveCount >= 1 && s.n.liveBytes >= s.live[handle].Size() - 16 >= 0
    ensures StatisticsOf(Release(s, handle).n) ==
            H.Next(StatisticsOf(s.n), GrantedSizes(s), H.Returned(handle, true))
    ensures Release(s, handle).nextId == s.nextId && Release(s, handle).n.splits == s.n.splits
  {
    hide Coalesce, Merges, Blk.Size;
  }

  /** The payload of a live block is part of the live bytes. */
  lemma LiveAtLeast(s: Buddy, handle: nat)
    requires Inv(s) && handle in s.live
    ensures s.n.liveCount >= 1 && s.n.liveBytes >= s.live[handle].Size() - 16 >= 0
  {
    hide PartitionOf, Total;
    var rest := s.live - {handle};
    LiveRemove(s.live, handle);
    TotalRemove(s.Busy(), s.live[handle]);
    LivePayload(s.(live := rest));
    OrderSize(s.live[handle]);
    assert s.live != map[];
  }

  lemma OrderSize(b: Blk)
    requires b.order >= 5
    ensures b.Size() >= 32
  {
    Pow2Mono(5, b.order);
    Pow2Word();
  }

  lemma FreeFollows(s: Buddy, handle: nat)
    requires Inv(s)
    ensures Follows(s, H.Returned(handle, Free(s, handle).1 == Status.Ok), Free(s, handle).0)
  {
    hide Inv, Release, Blk.Size, GrantedSizes, StatisticsOf;
    FreeLive(s, handle);
    var s' := Free(s, handle).0;
    CountsOf(s, s');
    if handle in s.live {
      LiveAtLeast(s, handle);
      ReleaseCounts(s, handle);
      SizesDrop(s, s', handle);
    }
  }

  lemma FreeLive(s: Buddy, handle: nat)
    ensures var (s', r) := Free(s, handle);
            && (r == Status.Ok <==> handle in s.live) && (r != Status.Ok ==> s' == s)
            && s'.live == s.live - {handle} && s'.nextId == s.nextId
  {
    hide Coalesce, Merges, Blk.Size;
  }

  lemma StepFollows(s: Buddy, op: Op)
    requires Inv(s)
    ensures Follows(s, EventOf(s, op), Step(s, op))
  {
    hide Inv, Allocate, Free, Blk.Size;
    match op
    case OpAllocate(size, alignment) => AllocateFollows(s, size, alignment);
    case OpFree(handle) => FreeFollows(s, handle);
    case OpReset =>
    case OpShutdown =>
  }

  // ---- runs ----

  lemma {:induction false} RunTold(s: Buddy, h: seq<H.Event>, ops: seq<Op>)
    requires Inv(s) && H.Told(StatisticsOf(s.n), GrantedSizes(s), h) && s.nextId == s.n.success
    ensures var t := Run(s, ops);
            H.Told(StatisticsOf(t.n), GrantedSizes(t), h + History(s, ops)) && t.nextId == t.n.success
    decreases |ops|
  {
    hide Inv, H.Told, Step, EventOf, StatisticsOf, GrantedSizes;
    if ops == [] {
      assert h + [] == h;
    } else {
      var e, t := EventOf(s, ops[0]), Step(s, ops[0]);
      StepFollows(s, ops[0]);
      CountsOf(s, t);
      H.StepTold(StatisticsOf(s.n), GrantedSizes(s), h, e);
      RunKeepsInv(s, ops[..1]);
      OneStep(s, ops[0], ops);
      RunTold(t, h + [e], ops[1..]);
      assert h + [e] + History(t, ops[1..]) == h + History(s, ops);
    }
  }

  lemma OneStep(s: Buddy, op: Op, ops: seq<Op>)
    requires ops != [] && ops[0] == op
    ensures Run(s, ops[..1]) == Step(s, op)
  {
    hide Step;
    assert ops[..1] == [op] && [op][1..] == [];
  }

  /** In every run from construction the statistics are those of the calls and answers: grants, refusals for
      want of memory, accepted frees, bytes asked for and given, what is live and the most that ever was. Handles
      count the grants, and without reset and shutdown every grant is freed or live. */
  lemma Accounting(max: Order, arena: bool, ops: seq<Op>)
    ensures var s, h := Run(Init(max, arena), ops), History(Init(max, arena), ops);
            && StatisticsOf(s.n) == H.StatisticsOf(h) && s.nextId == s.n.success
            && H.Live(h) == GrantedSizes(s)
    ensures (forall i :: 0 <= i < |ops| ==> ops[i].OpAllocate? || ops[i].OpFree?) ==>
              var s := Run(Init(max, arena), ops); s.n.success == s.n.freed + |s.live|
  {
    hide Inv, Step, EventOf, History, GrantedSizes, Init, Run;
    var s, h := Run(Init(max, arena), ops), History(Init(max, arena), ops);
    StartTold(max, arena);
    RunTold(Init(max, arena), [], ops);
    assert [] + h == h;
    SizesCount(s);
    if forall i :: 0 <= i < |ops| ==> ops[i].OpAllocate? || ops[i].OpFree? { OpenIf(Init(max, arena), ops); }
  }

  lemma StartTold(max: Order, arena: bool)
    ensures var s := Init(max, arena);
            Inv(s) && H.Told(StatisticsOf(s.n), GrantedSizes(s), []) && s.nextId == s.n.success
  {
    InitInv(max, arena);
    H.NothingTold();
    assert GrantedSizes(Init(max, arena)) == map[];
  }

  lemma SizesCount(s: Buddy)
    ensures |GrantedSizes(s)| == |s.live|
  {
    assert GrantedSizes(s).Keys == s.live.Keys;
    assert |GrantedSizes(s).Keys| == |GrantedSizes(s)| && |s.live.Keys| == |s.live|;
  }

  lemma {:induction false} OpenIf(s: Buddy, ops: seq<Op>)
    requires forall i :: 0 <= i < |ops| ==> ops[i].OpAllocate? || ops[i].OpFree?
    ensures H.Open(History(s, ops))
    decreases |ops|
  {
    hide Allocate, Free;
    if ops != [] { OpenIf(Step(s, ops[0]), ops[1..]); }
  }

  /** A grant reports reuse exactly when some earlier call of the run freed a live handle. */
  lemma ReuseMeaning(max: Order, arena: bool, ops: seq<Op>, size: nat, alignment: nat)
    ensures var s, h := Run(Init(max, arena), ops), History(Init(max, arena), ops);
            var r := Allocate(s, size, alignment).1;
            r.Granted? ==> (r.reused <==> exists i :: 0 <= i < |h| && H.IsReturn(h[i]))
  {
    hide Inv, Step, EventOf, Allocate;
    Accounting(max, arena, ops);
    var s, h := Run(Init(max, arena), ops), History(Init(max, arena), ops);
    H.ReturnsMeaning(h);
    if Allocate(s, size, alignment).1.Granted? { GrantCounts(s, size, alignment); }
  }

  /** Splits are counted by allocate and merges by free: each call changes the number of blocks by its own. */
  lemma SplitsAndMerges(s: Buddy, op: Op)
    requires Inv(s) && Partition(s) && (op.OpAllocate? || op.OpFree?)
    ensures var s' := Step(s, op);
            && (op.OpAllocate? ==>
                  s'.n.merges == s.n.merges && s'.BlockCount() - s.BlockCount() == s'.n.splits - s.n.splits)
            && (op.OpFree? ==>
                  s'.n.splits == s.n.splits && s.BlockCount() - s'.BlockCount() == s'.n.merges - s.n.merges)
  {
    hide Inv, Partition, Allocate, Release, Blk.Size;
    match op
    case OpAllocate(size, alignment) =>
      AllocateKeeps(s, size, alignment);
      if Allocate(s, size, alignment).1.Granted? { GrantCounts(s, size, alignment); }
      else { Refusals(s, size, alignment); }
    case OpFree(handle) =>
      FreeKeeps(s, handle);
      if handle in s.live { LiveAtLeast(s, handle); ReleaseCounts(s, handle); }
  }
}
