/** What the segregated-fit allocator answers and counts, in terms of its calls: which block serves a request and
    how much of it, the order of the bins, the limit on its bytes, and its statistics over runs. */
module SegregatedHistory {
  import opened Bits
  import opened AllocTypes
  import opened Requests
  import opened Sequences
  import opened SegregatedModel
  import Sums
  import B = SegregatedBytes
  import H = Histories

  // ---- the bins ----

  /** A block's bin is the least logarithm that covers its size, or the last one. */
  lemma BinMeaning(size: nat, maxBin: nat)
    ensures var b := BinOf(size, maxBin);
            && b <= maxBin && (b == maxBin || size <= Pow2(b)) && (b > 0 ==> size > Pow2(b - 1))
  {
    CeilLogIs(size);
    if CeilLog(size) > maxBin && maxBin > 0 { Pow2Mono(maxBin - 1, CeilLog(size) - 1); }
  }

  /** The blocks in the bins from b up to, not including, c. */
  function Held(bins: Bins, b: nat, c: nat): nat
    requires c <= |bins|
    decreases c - b
  {
    if b >= c then 0 else |bins[b]| + Held(bins, b + 1, c)
  }

  /** The search looks at each block of each bin until it finds one that is large enough. */
  lemma {:induction false} ProbesIs(bins: Bins, m: Blocks, need: nat, b: nat)
    ensures var r := Search(bins, m, need, b);
            Probes(bins, m, need, b) == if r.Spot? then Held(bins, b, r.bin) + r.pos + 1 else Held(bins, b, |bins|)
    decreases |bins| - b
  {
    if b < |bins| { ProbesIs(bins, m, need, b + 1); }
  }

  // ---- the block that serves a request ----

  /** A block of `whole` bytes at `a` serves a request: 24 bytes or more left over are cut off as a free block
      behind it, less stay with it. */
  ghost predicate CutToFit(s: Segregated, a: nat, whole: nat, size: nat, s': Segregated, r: Outcome)
    requires r.Granted?
  {
    && r.addr == a + 16 && Need(size) <= whole && a in s'.blocks
    && r.size + 16 == (if whole - Need(size) >= 24 then Need(size) else whole)
    && s'.n.splits == s.n.splits + (if whole - Need(size) >= 24 then 1 else 0)
    && (whole - Need(size) >= 24 ==> a + Need(size) in s'.blocks && s'.blocks[a + Need(size)] == whole - Need(size))
  }

  /** What one bin holds once the block at a spot is gone and the block `rest`, if any, is added. */
  function BinAfter(bins: Bins, at: Spot, b: nat): seq<nat>
    requires b < |bins| && at.Spot? && at.bin < |bins| && at.pos < |bins[at.bin]|
  {
    if b == at.bin then bins[b][..at.pos] + bins[b][at.pos + 1..] else bins[b]
  }

  /** The rest of a cut block goes behind the other blocks of its bin. */
  function Rest(s: Segregated, b: nat, a: nat, whole: nat, need: nat): seq<nat>
  {
    if whole >= need + 24 && b == BinOf(whole - need, s.maxBin) then [a + need] else []
  }

  lemma FindExactly(s: Segregated, size: nat, align: nat)
    requires |s.bins| == s.maxBin + 1 && Need(size) >= 32
    requires Search(s.bins, s.blocks, Need(size), CeilLog(Need(size))).Spot?
    ensures var at := Search(s.bins, s.blocks, Need(size), CeilLog(Need(size)));
            var a := s.bins[at.bin][at.pos];
            var (s', r) := Find(s, Need(size), size, align);
            && r.Granted? && a in s.blocks && CutToFit(s, a, s.blocks[a], size, s', r) && r.alignment == align
            && |s'.bins| == |s.bins| && s'.maxBin == s.maxBin
            && (forall b :: 0 <= b < |s.bins| ==>
                  s'.bins[b] == BinAfter(s.bins, at, b) + Rest(s, b, a, s.blocks[a], Need(size)))
            && s'.supers == s.supers && s'.total == s.total
            && s'.n.depth == s.n.depth + 1 + Probes(s.bins, s.blocks, Need(size), CeilLog(Need(size)))
  {
    hide Need, Search, Probes, CeilLog, BinOf;
    var at := Search(s.bins, s.blocks, Need(size), CeilLog(Need(size)));
    var a := s.bins[at.bin][at.pos];
    BinInRange(s.blocks[a] - Need(size), s.maxBin);
    forall b | 0 <= b < |s.bins| ensures Erase(s.bins, at.bin, at.pos)[b] == BinAfter(s.bins, at, b) { }
  }

  /** In the grown state the search finds the new block. */
  lemma GrownSpot(s: Segregated, need: nat, base: nat, size: nat)
    requires Inv(s) && Search(s.bins, s.blocks, need, CeilLog(need)).Nowhere? && |s.bins| == s.maxBin + 1
    requires base !in s.blocks && need > 0
    ensures var t := Grow(s, size, base);
            var at := Search(t.bins, t.blocks, need, CeilLog(need));
            at.Spot? ==> at.bin < |t.bins| && at.pos < |t.bins[at.bin]| && t.bins[at.bin][at.pos] == base
                         && at == Spot(BinOf(size, s.maxBin), |s.bins[BinOf(size, s.maxBin)]|)
  {
    hide Tiled, CeilLog, BinOf, Search, Injective;
    BinInRange(size, s.maxBin);
    var t := Grow(s, size, base);
    var at := Search(t.bins, t.blocks, need, CeilLog(need));
    if at.Spot? {
      if at.pos < |s.bins[at.bin]| { OldTooSmall(s, need, base, size, at); }
      OnlyThere(s, base, BinOf(size, s.maxBin), at);
    }
  }

  lemma OldTooSmall(s: Segregated, need: nat, base: nat, size: nat, at: Spot)
    requires Inv(s) && Search(s.bins, s.blocks, need, CeilLog(need)).Nowhere? && base !in s.blocks
    requires at.Spot? && CeilLog(need) <= at.bin < |s.bins| && at.pos < |s.bins[at.bin]| && |s.bins| == s.maxBin + 1
    ensures var t := Grow(s, size, base);
            at.bin < |t.bins| && at.pos < |t.bins[at.bin]| && SizeOf(t.blocks, t.bins[at.bin][at.pos]) < need
  {
    hide Tiled, CeilLog, BinOf, Search, Injective;
    BinInRange(size, s.maxBin);
  }

  lemma OnlyThere(s: Segregated, base: nat, b: nat, at: Spot)
    requires Inv(s) && base !in s.blocks && b < |s.bins| && at.Spot? && at.bin < |s.bins|
    requires at.pos < |Insert(s.bins, b, base)[at.bin]| && Insert(s.bins, b, base)[at.bin][at.pos] == base
    ensures at == Spot(b, |s.bins[b]|)
  {
    hide Tiled, BinOf, Injective;
  }

  /** Taking the block that was just inserted leaves the bins as they were. */
  lemma TakenBack(bins: Bins, k: nat, base: nat)
    requires k < |bins|
    ensures var at := Spot(k, |bins[k]|);
            && |Insert(bins, k, base)| == |bins| && at.pos < |Insert(bins, k, base)[k]|
            && forall b :: 0 <= b < |bins| ==> BinAfter(Insert(bins, k, base), at, b) == bins[b]
  {
  }

  lemma GrownParts(s: Segregated, steps: nat, size: nat, base: nat)
    requires |s.bins| == s.maxBin + 1
    ensures var t := Grow(Deepen(s, steps), size, base);
            && BinOf(size, s.maxBin) < |s.bins| && t.bins == Insert(s.bins, BinOf(size, s.maxBin), base)
            && t.maxBin == s.maxBin && |t.bins| == t.maxBin + 1
            && base in t.blocks && t.blocks[base] == size && t.total == s.total + size && t.n.splits == s.n.splits
            && t.supers == s.supers[base := size]
            && Deepen(s, steps).bins == s.bins && Deepen(s, steps).blocks == s.blocks
            && Deepen(s, steps).maxBin == s.maxBin
  {
    hide CeilLog;
    BinInRange(size, s.maxBin);
  }

  lemma ServeGrown(s: Segregated, size: nat, align: nat, mem: Memory)
    requires Inv(s) && Answers(s, Need(size), mem) && |s.bins| == s.maxBin + 1 && Need(size) >= 32
    requires Search(s.bins, s.blocks, Need(size), CeilLog(Need(size))).Nowhere?
    requires Grows(s, Need(size), mem)
    ensures var need, whole := Need(size), GrowSize(s.granule, Need(size));
            var steps := 1 + Probes(s.bins, s.blocks, need, CeilLog(need));
            var t := Grow(Deepen(s, steps), whole, mem.base);
            && |t.bins| == t.maxBin + 1
            && var (s', r) := Find(t, need, size, align);
               r.Granted? ==>
                 && CutToFit(s, mem.base, whole, size, s', r) && |s'.bins| == |s.bins| && r.alignment == align
                 && (forall b :: 0 <= b < |s.bins| ==> s'.bins[b] == s.bins[b] + Rest(s, b, mem.base, whole, need))
                 && s'.supers == s.supers[mem.base := whole] && s'.total == s.total + whole <= s.maxBytes
  {
    hide Tiled, Binned, Injective, Need, Search, Probes, CeilLog, BinOf, Answers, GrowSize, Grow, Deepen, Find;
    hide Rest, CutToFit, BinAfter, Insert;
    var need, whole := Need(size), GrowSize(s.granule, Need(size));
    var steps := 1 + Probes(s.bins, s.blocks, need, CeilLog(need));
    GrownParts(s, steps, whole, mem.base);
    var d := Deepen(s, steps);
    var t := Grow(d, whole, mem.base);
    NoWrap(s, need, mem);
    DeepenKeeps(s, steps);
    NewBase(s, need, mem);
    GrownSpot(d, need, mem.base, whole);
    if Search(t.bins, t.blocks, need, CeilLog(need)).Spot? {
      FindExactly(t, size, align);
      TakenBack(s.bins, BinOf(whole, s.maxBin), mem.base);
      SameFit(s, t, mem.base, whole, size, Find(t, need, size, align).0, Find(t, need, size, align).1);
    } else {
      FindMisses(t, need, size, align);
    }
  }

  lemma FindMisses(s: Segregated, need: nat, size: nat, align: nat)
    requires |s.bins| == s.maxBin + 1 && need >= 32 && Search(s.bins, s.blocks, need, CeilLog(need)).Nowhere?
    ensures Find(s, need, size, align).1 == Failed(OutOfMemory)
  {
    hide Search, Probes, CeilLog, Take, Record;
  }

  lemma SameFit(s: Segregated, t: Segregated, a: nat, whole: nat, size: nat, s': Segregated, r: Outcome)
    requires r.Granted? && t.n.splits == s.n.splits && t.maxBin == s.maxBin
    ensures CutToFit(t, a, whole, size, s', r) == CutToFit(s, a, whole, size, s', r)
    ensures forall b: nat :: Rest(t, b, a, whole, Need(size)) == Rest(s, b, a, whole, Need(size))
  {
    hide BinOf, Need;
  }

  lemma FitBounds(s: Segregated, a: nat, whole: nat, size: nat, s': Segregated, r: Outcome)
    requires r.Granted? && CutToFit(s, a, whole, size, s', r)
    ensures Need(size) <= r.size + 16 < Need(size) + 24
  {
    hide Need;
  }

  lemma NewBase(s: Segregated, need: nat, mem: Memory)
    requires Inv(s) && Answers(s, need, mem) && mem.Fresh? && need > 0
    ensures mem.base !in s.blocks
  {
    hide GrowSize, FreshBlock, Tiled, Binned, Injective;
    GrowSizeBounds(s.granule, need);
    AddTiled(s.supers, s.blocks, mem.base, GrowSize(s.granule, need));
  }

  /** A request is served from the first large enough block of the bins from its own upwards, or, when there is none,
      from the new superblock; and the caller gets what it needs and less than 24 bytes more. */
  lemma AllocateExactly(s: Segregated, size: nat, alignment: nat, mem: Memory)
    requires Inv(s) && Answers(s, Need(size), mem) && |s.bins| == s.maxBin + 1
    requires Allocate(s, size, alignment, mem).1.Granted?
    ensures var at := Search(s.bins, s.blocks, Need(size), CeilLog(Need(size)));
            var (s', r) := Allocate(s, size, alignment, mem);
            && Need(size) <= r.size + 16 < Need(size) + 24 && |s'.bins| == |s.bins|
            && r.alignment == (if alignment == 0 then 16 else alignment)
            && if at.Spot? then
                 var a := s.bins[at.bin][at.pos];
                 && a in s.blocks && CutToFit(s, a, s.blocks[a], size, s', r)
                 && (forall b :: 0 <= b < |s.bins| ==>
                       s'.bins[b] == BinAfter(s.bins, at, b) + Rest(s, b, a, s.blocks[a], Need(size)))
                 && s'.supers == s.supers && s'.total == s.total
               else
                 var whole := GrowSize(s.granule, Need(size));
                 && mem.Fresh? && CutToFit(s, mem.base, whole, size, s', r)
                 && (forall b :: 0 <= b < |s.bins| ==>
                       s'.bins[b] == s.bins[b] + Rest(s, b, mem.base, whole, Need(size)))
                 && s'.supers == s.supers[mem.base := whole] && s'.total == s.total + whole <= s.maxBytes
  {
    hide Tiled, Binned, Injective, Need, Find, Answers, Search, LegalAlignment, GrowSize, CutToFit, CeilLog;
    NeedBounds(size);
    var at := Search(s.bins, s.blocks, Need(size), CeilLog(Need(size)));
    var (s', r) := Allocate(s, size, alignment, mem);
    if at.Spot? {
      FindExactly(s, size, Effective(alignment));
      FitBounds(s, s.bins[at.bin][at.pos], s.blocks[s.bins[at.bin][at.pos]], size, s', r);
    } else {
      ServeGrown(s, size, Effective(alignment), mem);
      FitBounds(s, mem.base, GrowSize(s.granule, Need(size)), size, s', r);
    }
  }

  /** Which requests are refused outright, and that a refused request changes nothing but counters, unless a new
      superblock came that the search does not find. */
  lemma Refusals(s: Segregated, size: nat, alignment: nat, mem: Memory)
    requires Inv(s) && |s.bins| == s.maxBin + 1
    ensures var (s', r) := Allocate(s, size, alignment, mem);
            && (r == Failed(SizeTooLarge) <==> size > 0x2_0000_0000)
            && (r == Failed(AlignmentUnsupported) <==> size <= 0x2_0000_0000 && alignment !in {0, 1, 2, 4, 8, 16})
            && (r == Failed(SizeTooLarge) || r == Failed(AlignmentUnsupported) ==> s' == s)
            && (r.Failed? && s' != s ==> r.error == CapacityExceeded || r.error == OutOfMemory)
            && (r == Failed(CapacityExceeded) ==>
                  s' == s.(n := s.n.(depth := s'.n.depth, failures := s.n.failures + 1)))
            && (r == Failed(OutOfMemory) ==>
                  && s'.live == s.live && s'.nextId == s.nextId
                  && s'.n == s.n.(depth := s'.n.depth, growth := s'.n.growth, peakTotal := s'.n.peakTotal,
                                  failures := s.n.failures + 1))
  {
    hide Tiled, Binned, Injective, Need, Search, Probes, CeilLog, LegalAlignment, GrowSize, Find, Grow;
    NeedBounds(size);
    LegalAlignments(alignment);
    var need := Need(size);
    var steps, whole := 1 + Probes(s.bins, s.blocks, need, CeilLog(need)), GrowSize(s.granule, need);
    if Search(s.bins, s.blocks, need, CeilLog(need)).Nowhere? && mem.Fresh? {
      GrowCounts(s, steps, whole, mem.base);
      FindMissCounts(Grow(Deepen(s, steps), whole, mem.base), need, size, Effective(alignment));
    }
    FindMissCounts(s, need, size, Effective(alignment));
  }

  lemma FindMissCounts(s: Segregated, need: nat, size: nat, align: nat)
    requires |s.bins| == s.maxBin + 1 && need >= 32
    ensures var (s', r) := Find(s, need, size, align);
            && (r.Granted? <==> Search(s.bins, s.blocks, need, CeilLog(need)).Spot?)
            && (r.Failed? ==> r == Failed(OutOfMemory) && s' == Failing(Deepen(s, s'.n.depth - s.n.depth))
                              && s'.n.depth >= s.n.depth)
  {
    hide Search, Probes, CeilLog, Take, Record;
  }

  // ---- the calls of a run ----

  /** A call with its answer. */
  ghost function EventOf(s: Segregated, op: Op): H.Event
    requires |s.bins| == s.maxBin + 1 && s.granule >= 1
  {
    match op
    case OpAllocate(size, alignment, mem) => H.Asked(size, Allocate(s, size, alignment, mem).1)
    case OpFree(id) => H.Returned(id, Free(s, id).1 == Ok)
    case OpReset => H.Emptied
  }

  /** The first n calls of a run. */
  ghost function History(states: seq<Segregated>, ops: seq<Op>, n: nat): seq<H.Event>
    requires Runs(states, ops) && n < |states|
  {
    if n == 0 then []
    else
      assert Takes(states[n - 1], ops[n - 1], states[n]);
      History(states, ops, n - 1) + [EventOf(states[n - 1], ops[n - 1])]
  }

  function StatisticsOf(n: Counters): H.Statistics
  {
    H.Statistics(n.success, n.failures, n.freed, n.requested, n.granted, n.liveCount, n.liveBytes, n.peakCount,
                 n.peakBytes)
  }

  /** The live handles with the bytes they were granted. */
  ghost function GrantedSizes(s: Segregated): map<nat, int>
  {
    map id | id in s.live :: SizeOf(s.blocks, s.live[id]) - 16
  }

  /** The call changes the statistics and the live handles as its answer says. */
  ghost predicate Follows(s: Segregated, e: H.Event, s': Segregated)
  {
    && H.Sound(GrantedSizes(s), e) && StatisticsOf(s'.n) == H.Next(StatisticsOf(s.n), GrantedSizes(s), e)
    && GrantedSizes(s') == H.NextLive(GrantedSizes(s), e)
    && s'.nextId - s.nextId == s'.n.success - s.n.success
  }

  /** What finding a block and recording it do to the counters. */
  lemma FindCounts(s: Segregated, size: nat, align: nat)
    requires |s.bins| == s.maxBin + 1 && Need(size) >= 32 && Find(s, Need(size), size, align).1.Granted?
    ensures var (s', r) := Find(s, Need(size), size, align);
            && StatisticsOf(s'.n) == H.Next(StatisticsOf(s.n), GrantedSizes(s), H.Asked(size, r))
            && s'.nextId == s.nextId + 1 && r.reused == (s.n.freed > 0) && s'.maxBytes == s.maxBytes
            && s'.n.growth == s.n.growth && s'.n.peakTotal == s.n.peakTotal
  {
    hide Need, Search, Probes, CeilLog, GrantedSizes, BinOf, Cut, Insert, Erase;
  }

  lemma GrowCounts(s: Segregated, steps: nat, size: nat, base: nat)
    requires |s.bins| == s.maxBin + 1
    ensures var t := Grow(Deepen(s, steps), size, base);
            && |t.bins| == t.maxBin + 1 && t.maxBytes == s.maxBytes && t.total == s.total + size
            && StatisticsOf(t.n) == StatisticsOf(s.n) && t.nextId == s.nextId
            && t.n.growth == s.n.growth + 1 && t.n.peakTotal == Max(s.n.peakTotal, t.total)
            && t.n.freed == s.n.freed && t.live == s.live
            && t.n == s.n.(depth := t.n.depth, growth := t.n.growth, peakTotal := t.n.peakTotal)
  {
    hide BinOf, CeilLog;
    BinInRange(size, s.maxBin);
  }

  lemma AllocateCounts(s: Segregated, size: nat, alignment: nat, mem: Memory)
    requires Inv(s) && Answers(s, Need(size), mem) && |s.bins| == s.maxBin + 1
    requires Allocate(s, size, alignment, mem).1.Granted?
    ensures var (s', r) := Allocate(s, size, alignment, mem);
            && StatisticsOf(s'.n) == H.Next(StatisticsOf(s.n), GrantedSizes(s), H.Asked(size, r))
            && s'.nextId == s.nextId + 1 && r.reused == (s.n.freed > 0) && s'.maxBytes == s.maxBytes
            && s'.n.growth == s.n.growth + (if s'.total == s.total then 0 else 1)
            && s'.n.peakTotal == if s'.total == s.total then s.n.peakTotal else Max(s.n.peakTotal, s'.total)
  {
    hide Tiled, Binned, Injective, Need, Find, Answers, Search, Probes, LegalAlignment, GrowSize, CeilLog, Grow;
    hide GrantedSizes, H.Next, StatisticsOf, Rest, BinAfter, CutToFit;
    NeedBounds(size);
    AllocateExactly(s, size, alignment, mem);
    var need := Need(size);
    if Search(s.bins, s.blocks, need, CeilLog(need)).Spot? {
      FindCounts(s, size, Effective(alignment));
    } else {
      var steps, whole := 1 + Probes(s.bins, s.blocks, need, CeilLog(need)), GrowSize(s.granule, need);
      GrowSizeBounds(s.granule, need);
      GrowCounts(s, steps, whole, mem.base);
      FindCounts(Grow(Deepen(s, steps), whole, mem.base), size, Effective(alignment));
      NextSame(s, Grow(Deepen(s, steps), whole, mem.base), H.Asked(size, Allocate(s, size, alignment, mem).1));
    }
  }

  lemma NextSame(s: Segregated, t: Segregated, e: H.Event)
    requires StatisticsOf(s.n) == StatisticsOf(t.n) && H.IsGrant(e)
    ensures H.Next(StatisticsOf(s.n), GrantedSizes(s), e) == H.Next(StatisticsOf(t.n), GrantedSizes(t), e)
  {
  }

  lemma CountsOf(s: Segregated, t: Segregated)
    ensures StatisticsOf(s.n).success == s.n.success && StatisticsOf(t.n).success == t.n.success
    ensures StatisticsOf(s.n).returned == s.n.freed && StatisticsOf(t.n).returned == t.n.freed
    ensures s == t ==> GrantedSizes(s) == GrantedSizes(t)
  {
  }

  lemma SizesAdd(s: Segregated, size: nat, align: nat, s': Segregated, r: Outcome)
    requires r.Granted? && GrantedWell(s, size, align, s', r)
    ensures r.id !in GrantedSizes(s) && GrantedSizes(s') == GrantedSizes(s)[r.id := r.size]
    ensures s'.nextId == s.nextId + 1
  {
    hide Apart;
  }

  lemma SizesSame(s: Segregated, s': Segregated)
    requires Inv(s) && s'.live == s.live && BlocksStay(s.blocks, s'.blocks)
    ensures GrantedSizes(s') == GrantedSizes(s)
  {
    hide Tiled, Binned, Injective;
    forall id | id in s.live ensures SizeOf(s.blocks, s.live[id]) == SizeOf(s'.blocks, s.live[id]) {
      assert s.live[id] in s.live.Values;
    }
  }

  lemma RefusalCounts(n: Counters, n': Counters, sizes: map<nat, int>, e: H.Event)
    requires e.Asked? && e.answer.Failed?
    requires n' == n || H.IsFailure(e)
    requires H.IsFailure(e) ==> n' == n.(depth := n'.depth, growth := n'.growth, peakTotal := n'.peakTotal,
                                         failures := n.failures + 1)
    ensures StatisticsOf(n') == H.Next(StatisticsOf(n), sizes, e)
  {
  }

  lemma AllocateFollows(s: Segregated, size: nat, alignment: nat, mem: Memory)
    requires Inv(s) && Answers(s, Need(size), mem) && |s.bins| == s.maxBin + 1
    ensures var (s', r) := Allocate(s, size, alignment, mem); Follows(s, H.Asked(size, r), s')
  {
    hide Tiled, Binned, Injective, Need, Allocate, Answers, GrantedSizes, StatisticsOf;
    hide GrantedWell, Refines, BlocksStay;
    var (s', r) := Allocate(s, size, alignment, mem);
    AllocateKeeps(s, size, alignment, mem);
    CountsOf(s, s');
    if r.Granted? {
      AllocateCounts(s, size, alignment, mem);
      SizesAdd(s, size, Effective(alignment), s', r);
    } else {
      Refusals(s, size, alignment, mem);
      RefusalCounts(s.n, s'.n, GrantedSizes(s), H.Asked(size, r));
      SizesSame(s, s');
      RefusedId(s, size, alignment, mem);
    }
  }

  lemma RefusedId(s: Segregated, size: nat, alignment: nat, mem: Memory)
    requires Inv(s) && |s.bins| == s.maxBin + 1 && Allocate(s, size, alignment, mem).1.Failed?
    ensures Allocate(s, size, alignment, mem).0.nextId == s.nextId
  {
    hide Allocate, Inv;
    Refusals(s, size, alignment, mem);
  }

  // ---- free ----

  /** A freed block goes behind the other blocks of its bin, and every other bin stays as it is. */
  lemma FreeExactly(s: Segregated, id: nat)
    requires Inv(s) && id in s.live && |s.bins| == s.maxBin + 1
    ensures var s' := Free(s, id).0;
            && |s'.bins| == |s.bins| && s.live[id] in s.blocks
            && forall b :: 0 <= b < |s.bins| ==>
                 s'.bins[b] == s.bins[b] + if b == BinOf(s.blocks[s.live[id]], s.maxBin) then [s.live[id]] else []
  {
    hide Tiled, Binned, Injective, BinOf;
    assert s.live[id] in s.live.Values;
    BinInRange(SizeOf(s.blocks, s.live[id]), s.maxBin);
  }

  /** The payload of a live block is part of the live bytes. */
  lemma LiveAtLeast(s: Segregated, id: nat)
    requires Inv(s) && B.Booked(s) && id in s.live
    ensures s.n.liveCount >= 1 && s.live[id] in s.blocks
    ensures s.n.liveBytes + 16 >= SizeOf(s.blocks, s.live[id]) >= 16
  {
    hide Tiled, Binned, Sums.Sum;
    B.LiveKnown(s);
    B.LiveLess(s.blocks, s.live, id);
    assert s.live != map[];
  }

  lemma ReleaseCounts(s: Segregated, id: nat)
    requires id in s.live && |s.bins| == s.maxBin + 1 && s.n.liveCount >= 1
    requires s.n.liveBytes + 16 >= SizeOf(s.blocks, s.live[id]) >= 16
    ensures var s' := Release(s, id);
            && StatisticsOf(s'.n) == H.Next(StatisticsOf(s.n), GrantedSizes(s), H.Returned(id, true))
            && s'.nextId == s.nextId && s'.maxBytes == s.maxBytes && s'.total == s.total
            && s'.n.growth == s.n.growth && s'.n.peakTotal == s.n.peakTotal && s'.n.splits == s.n.splits
  {
    hide BinOf, Insert, SizeOf;
    BinInRange(SizeOf(s.blocks, s.live[id]), s.maxBin);
  }

  lemma SizesDrop(s: Segregated, s': Segregated, id: nat)
    requires id in s.live && s'.live == s.live - {id} && s'.blocks == s.blocks
    ensures id in GrantedSizes(s) && GrantedSizes(s)[id] == SizeOf(s.blocks, s.live[id]) - 16
    ensures GrantedSizes(s') == GrantedSizes(s) - {id}
  {
  }

  lemma FreeFollows(s: Segregated, id: nat)
    requires Inv(s) && B.Booked(s) && |s.bins| == s.maxBin + 1
    ensures var (s', r) := Free(s, id); Follows(s, H.Returned(id, r == Ok), s')
  {
    hide Inv, B.Booked, Release, GrantedSizes, StatisticsOf, SizeOf;
    FreeKeeps(s, id);
    var (s', r) := Free(s, id);
    CountsOf(s, s');
    if r == Ok {
      LiveAtLeast(s, id);
      ReleaseCounts(s, id);
      SizesDrop(s, s', id);
    }
  }

  lemma ResetFollows(s: Segregated)
    ensures Follows(s, H.Emptied, Reset(s))
  {
  }

  lemma StepFollows(s: Segregated, op: Op, s': Segregated)
    requires Inv(s) && B.Booked(s) && Takes(s, op, s')
    ensures Follows(s, EventOf(s, op), s')
  {
    hide Inv, B.Booked, Allocate, Free, Follows, Answers;
    match op
    case OpAllocate(size, alignment, mem) => AllocateFollows(s, size, alignment, mem);
    case OpFree(id) => FreeFollows(s, id);
    case OpReset => ResetFollows(s);
  }

  // ---- the limit on the bytes ----

  /** Held bytes stay within the limit, and each superblock obtained is counted. */
  ghost predicate Limited(s: Segregated) { s.total <= s.n.peakTotal <= s.maxBytes && |s.supers| <= s.n.growth }

  /** What one call does to them. */
  ghost predicate Within(s: Segregated, s': Segregated)
  {
    && s'.maxBytes == s.maxBytes && s'.n.peakTotal == Max(s.n.peakTotal, s'.total) && s'.total <= s'.maxBytes
    && s'.n.growth - |s'.supers| == s.n.growth - |s.supers|
  }

  lemma GrownWithin(s: Segregated, steps: nat, need: nat, mem: Memory)
    requires Inv(s) && Answers(s, need, mem) && |s.bins| == s.maxBin + 1 && need >= 32 && Grows(s, need, mem)
    requires Limited(s)
    ensures Within(s, Grow(Deepen(s, steps), GrowSize(s.granule, need), mem.base))
  {
    hide Inv, Answers, GrowSize;
    InvParts(s);
    NewSuper(s, need, mem);
    NoWrap(s, need, mem);
    GrowCounts(s, steps, GrowSize(s.granule, need), mem.base);
  }

  lemma NewSuper(s: Segregated, need: nat, mem: Memory)
    requires s.granule >= 1 && Answers(s, need, mem) && mem.Fresh?
    ensures |s.supers[mem.base := GrowSize(s.granule, need)]| == |s.supers| + 1
  {
    hide GrowSize, FreshBlock;
    MapGrows(s.supers, mem.base, GrowSize(s.granule, need));
  }

  lemma FindWithin(s: Segregated, need: nat, size: nat, align: nat)
    requires |s.bins| == s.maxBin + 1 && need >= 32
    ensures var s' := Find(s, need, size, align).0;
            && s'.maxBytes == s.maxBytes && s'.n.peakTotal == s.n.peakTotal && s'.total == s.total
            && s'.n.growth == s.n.growth && s'.supers == s.supers
  {
    hide Search, Probes, CeilLog, BinOf, Insert, Erase, Cut;
  }

  lemma AllocateWithin(s: Segregated, size: nat, alignment: nat, mem: Memory)
    requires Inv(s) && Answers(s, Need(size), mem) && |s.bins| == s.maxBin + 1 && Limited(s)
    ensures Within(s, Allocate(s, size, alignment, mem).0)
  {
    hide Tiled, Binned, Injective, Need, Find, Answers, Search, Probes, LegalAlignment, GrowSize, CeilLog, Grow;
    hide Wrap64;
    NeedBounds(size);
    var need := Need(size);
    var steps, whole := 1 + Probes(s.bins, s.blocks, need, CeilLog(need)), GrowSize(s.granule, need);
    FindWithin(s, need, size, Effective(alignment));
    if Grows(s, need, mem) {
      GrownWithin(s, steps, need, mem);
      GrowCounts(s, steps, whole, mem.base);
      FindWithin(Grow(Deepen(s, steps), whole, mem.base), need, size, Effective(alignment));
    }
  }

  lemma StepLimited(s: Segregated, op: Op, s': Segregated)
    requires Inv(s) && B.Booked(s) && Takes(s, op, s') && Limited(s)
    ensures Limited(s') && s'.maxBytes == s.maxBytes && s'.n.peakTotal == Max(s.n.peakTotal, s'.total)
    ensures !op.OpReset? ==> s'.n.growth - |s'.supers| == s.n.growth - |s.supers|
  {
    hide Inv, B.Booked, Allocate, Free, Answers;
    match op
    case OpAllocate(size, alignment, mem) => AllocateWithin(s, size, alignment, mem);
    case OpFree(id) => FreeWithin(s, id);
    case OpReset =>
  }

  lemma FreeWithin(s: Segregated, id: nat)
    requires Inv(s) && B.Booked(s) && |s.bins| == s.maxBin + 1 && Limited(s)
    ensures Within(s, Free(s, id).0)
  {
    hide Inv, B.Booked, Release, SizeOf;
    FreeKeeps(s, id);
    if id in s.live {
      LiveAtLeast(s, id);
      ReleaseCounts(s, id);
    }
  }

  // ---- runs ----

  ghost predicate FromStart(granule: Granule, maxBytes: nat, states: seq<Segregated>, ops: seq<Op>)
  {
    Runs(states, ops) && states[0] == Init(granule, maxBytes)
  }

  /** In every state of every run from the start the allocator holds at most max_bytes; the peak is the most it
      ever held; and growth counts the superblocks it holds, as long as none was given back. */
  lemma {:induction false} RunLimited(
    granule: Granule, maxBytes: nat, states: seq<Segregated>, ops: seq<Op>, n: nat)
    requires FromStart(granule, maxBytes, states, ops) && n < |states|
    ensures states[n].maxBytes == maxBytes && states[n].total <= maxBytes && Limited(states[n])
    ensures forall i :: 0 <= i <= n ==> states[i].total <= states[n].n.peakTotal
    ensures exists i :: 0 <= i <= n && states[n].n.peakTotal == states[i].total
    ensures (forall i :: 0 <= i < n ==> !ops[i].OpReset?) ==> states[n].n.growth == |states[n].supers|
    decreases n
  {
    hide Inv, Step, Possible, B.Booked, CeilLog, EmptyBins, B.Unaccounted, Takes;
    if n > 0 {
      RunLimited(granule, maxBytes, states, ops, n - 1);
      B.RunBooked(granule, maxBytes, states, ops, n - 1);
      assert Takes(states[n - 1], ops[n - 1], states[n]);
      StepLimited(states[n - 1], ops[n - 1], states[n]);
      var i :| 0 <= i <= n - 1 && states[n - 1].n.peakTotal == states[i].total;
      assert states[n].n.peakTotal == states[if states[n].total > states[i].total then n else i].total;
    }
  }

  lemma {:induction false} RunTold(granule: Granule, maxBytes: nat, states: seq<Segregated>, ops: seq<Op>, n: nat)
    requires FromStart(granule, maxBytes, states, ops) && n < |states|
    ensures var s := states[n];
            H.Told(StatisticsOf(s.n), GrantedSizes(s), History(states, ops, n)) && s.nextId == s.n.success
    decreases n
  {
    hide Inv, B.Booked, B.Unaccounted, Step, Possible, H.Told, GrantedSizes, StatisticsOf, EventOf, Init;
    if n == 0 {
      StartTold(granule, maxBytes);
    } else {
      RunTold(granule, maxBytes, states, ops, n - 1);
      B.RunBooked(granule, maxBytes, states, ops, n - 1);
      var s, op := states[n - 1], ops[n - 1];
      assert Takes(s, op, states[n]);
      InvParts(s);
      StepFollows(s, op, states[n]);
      CountsOf(s, states[n]);
      H.StepTold(StatisticsOf(s.n), GrantedSizes(s), History(states, ops, n - 1), EventOf(s, op));
    }
  }

  lemma StartTold(granule: Granule, maxBytes: nat)
    ensures var s := Init(granule, maxBytes);
            H.Told(StatisticsOf(s.n), GrantedSizes(s), []) && s.nextId == s.n.success
  {
    hide CeilLog, EmptyBins;
    H.NothingTold();
    assert GrantedSizes(Init(granule, maxBytes)) == map[];
  }

  /** In every state of every run from the start the statistics are those of the calls and answers: grants,
      refusals for want of memory, accepted frees, bytes asked for and given, what is live and the most that ever
      was. Handles count the grants. */
  lemma Accounting(granule: Granule, maxBytes: nat, states: seq<Segregated>, ops: seq<Op>, n: nat)
    requires FromStart(granule, maxBytes, states, ops) && n < |states|
    ensures var s, h := states[n], History(states, ops, n);
            && StatisticsOf(s.n) == H.StatisticsOf(h) && s.nextId == s.n.success
            && H.Live(h) == GrantedSizes(s)
  {
    hide Inv, Takes, History, GrantedSizes, Init;
    RunTold(granule, maxBytes, states, ops, n);
  }

  /** A grant reports reuse exactly when some earlier call of the run freed a live handle. */
  lemma ReuseMeaning(granule: Granule, maxBytes: nat, states: seq<Segregated>, ops: seq<Op>, n: nat, op: Op)
    requires FromStart(granule, maxBytes, states, ops) && n < |states|
    requires op.OpAllocate? && Possible(states[n], op) && |states[n].bins| == states[n].maxBin + 1
    ensures var h, e := History(states, ops, n), EventOf(states[n], op);
            H.IsGrant(e) ==> (e.answer.reused <==> exists i :: 0 <= i < |h| && H.IsReturn(h[i]))
  {
    hide Inv, B.Booked, B.Unaccounted, Takes, History, GrantedSizes, Need, Allocate, Answers, Init;
    B.RunBooked(granule, maxBytes, states, ops, n);
    RunTold(granule, maxBytes, states, ops, n);
    var h := History(states, ops, n);
    H.ReturnsMeaning(h);
    CountsOf(states[n], states[n]);
    if H.IsGrant(EventOf(states[n], op)) { AllocateCounts(states[n], op.size, op.alignment, op.mem); }
  }
}
