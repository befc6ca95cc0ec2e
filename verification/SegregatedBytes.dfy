/** The bytes of the segregated-fit allocator: what its counters say about the blocks, over every run. */
module SegregatedBytes {
  import opened Bits
  import opened Sums
  import opened AllocTypes
  import opened Requests
  import opened SegregatedModel

  // ---- sums of block sizes ----

  function Sizes(m: Blocks): nat -> nat { (a: nat) => SizeOf(m, a) }

  /** A cut moves bytes from one block to a new one. */
  lemma CutSum(m: Blocks, a: nat, need: nat)
    requires a in m && need <= m[a] && a + need !in m
    ensures Sum(Cut(m, a, need).Keys, Sizes(Cut(m, a, need))) == Sum(m.Keys, Sizes(m))
  {
    hide Sum;
    var m' := Cut(m, a, need);
    var rest: nat := a + need;
    assert m'.Keys == m.Keys + {rest};
    SumAdd(m.Keys, Sizes(m'), rest);
    SumRemove(m.Keys, Sizes(m'), a);
    SumRemove(m.Keys, Sizes(m), a);
    SumFrame(m.Keys - {a}, Sizes(m), Sizes(m'));
  }

  // ---- the books ----

  /** The counters that count bytes and calls, in terms of the blocks. */
  ghost predicate Booked(s: Segregated)
  {
    && (forall a :: a in s.blocks ==> s.blocks[a] >= MIN_BLOCK)
    && Sum(s.blocks.Keys, Sizes(s.blocks)) == s.total
    && Sum(s.live.Values, Sizes(s.blocks)) == s.n.liveBytes + 16 * |s.live|
    && s.n.liveCount <= s.n.peakCount && 0 <= s.n.liveBytes <= s.n.peakBytes
    && s.n.requested <= s.n.granted && s.nextId == s.n.success && s.total <= s.n.peakTotal
  }

  /** Grants minus frees minus live allocations. */
  ghost function Unaccounted(s: Segregated): int { s.n.success - s.n.freed - |s.live| }

  /** The books after taking a block, before it is recorded: its bytes are not yet live. */
  lemma TakeBooked(s: Segregated, at: Spot, need: nat, a: nat)
    requires Inv(s) && Booked(s) && at.Spot? && at.bin < |s.bins| && at.pos < |s.bins[at.bin]|
        && |s.bins| == s.maxBin + 1
    requires a == s.bins[at.bin][at.pos] && a in s.blocks && 32 <= need <= s.blocks[a] && a !in s.live.Values
    ensures Booked(Take(s, at, need))
  {
    hide Inv, Sum, BinOf, Insert, Erase;
    if Splits(s.blocks[a], need) {
      CutNew(s, a, need);
      LiveKnown(s);
      CutSum(s.blocks, a, need);
      SumFrame(s.live.Values, Sizes(s.blocks), Sizes(Cut(s.blocks, a, need)));
    }
  }

  lemma LiveKnown(s: Segregated)
    requires Inv(s)
    ensures s.live.Values <= s.blocks.Keys && Injective(s.live) && s.n.liveCount == |s.live|
        && s.nextId + 1 !in s.live
  {
    hide Tiled, Binned, Pow2;
  }

  lemma LiveSum(m: Blocks, live: map<nat, nat>, id: nat, a: nat)
    requires Injective(live) && id !in live && a !in live.Values && a in m
    ensures SizeOf(m, a) == m[a] && |live[id := a]| == |live| + 1
    ensures Sum(live[id := a].Values, Sizes(m)) == Sum(live.Values, Sizes(m)) + m[a]
  {
    hide Sum;
    LiveAdd(live, id, a);
    SumAdd(live.Values, Sizes(m), a);
  }

  lemma RecordBooked(s: Segregated, a: nat, size: nat)
    requires Booked(s) && Injective(s.live) && s.nextId + 1 !in s.live && s.n.liveCount == |s.live|
    requires a in s.blocks && a !in s.live.Values && size + HEADER <= s.blocks[a]
    ensures Booked(Record(s, a, size)) && Unaccounted(Record(s, a, size)) == Unaccounted(s)
  {
    hide Sum, SizeOf, Injective;
    LiveSum(s.blocks, s.live, s.nextId + 1, a);
  }

  lemma CountersBooked(s: Segregated, steps: nat)
    requires Booked(s)
    ensures Booked(Deepen(s, steps)) && Booked(Failing(Deepen(s, steps)))
    ensures Unaccounted(Failing(Deepen(s, steps))) == Unaccounted(s) == Unaccounted(Deepen(s, steps))
  {
    hide Sum;
  }

  lemma FindBooked(s: Segregated, need: nat, size: nat, align: nat)
    requires Inv(s) && Booked(s) && need >= 32 && need % 16 == 0 && size + HEADER <= need
    ensures |s.bins| == s.maxBin + 1
    ensures var s' := Find(s, need, size, align).0; Booked(s') && Unaccounted(s') == Unaccounted(s)
  {
    hide Inv, Booked, Search, Probes, CeilLog, Take, Record, Deepen, Unaccounted;
    InvParts(s);
    var at := Search(s.bins, s.blocks, need, CeilLog(need));
    var steps := 1 + Probes(s.bins, s.blocks, need, CeilLog(need));
    var s1 := Deepen(s, steps);
    CountersBooked(s, steps);
    if at.Spot? {
      SpotFacts(s, at, need);
      DeepenKeeps(s, steps);
      DeepenSame(s, steps);
      TookBooked(s1, at, need, s.bins[at.bin][at.pos], size);
    }
  }

  lemma TookBooked(s: Segregated, at: Spot, need: nat, a: nat, size: nat)
    requires Inv(s) && Booked(s) && at.Spot? && at.bin < |s.bins| && at.pos < |s.bins[at.bin]|
        && |s.bins| == s.maxBin + 1
    requires a == s.bins[at.bin][at.pos] && a in s.blocks && 32 <= need <= s.blocks[a] && a !in s.live.Values
    requires size + HEADER <= need
    ensures var s' := Record(Take(s, at, need), a, size); Booked(s') && Unaccounted(s') == Unaccounted(s)
  {
    hide Inv, Booked, Take, Record, Unaccounted;
    TakeBooked(s, at, need, a);
    TakenSame(s, at, need, a);
    TakenCounts(s, at, need);
    LiveKnown(s);
    RecordBooked(Take(s, at, need), a, size);
  }

  lemma DeepenSame(s: Segregated, steps: nat)
    ensures var t := Deepen(s, steps);
            t.bins == s.bins && t.blocks == s.blocks && t.live == s.live && t.maxBin == s.maxBin
                && t.nextId == s.nextId
  {
  }

  lemma TakenCounts(s: Segregated, at: Spot, need: nat)
    requires at.Spot? && at.bin < |s.bins| && at.pos < |s.bins[at.bin]| && |s.bins| == s.maxBin + 1
    requires s.bins[at.bin][at.pos] in s.blocks && 0 < need <= s.blocks[s.bins[at.bin][at.pos]]
    ensures Unaccounted(Take(s, at, need)) == Unaccounted(s)
  {
    hide BinOf, Insert, Erase, Cut;
  }

  lemma GrowSums(m: Blocks, live: set<nat>, size: nat, base: nat)
    requires base !in m && live <= m.Keys
    ensures var m' := m[base := size];
            && Sum(m'.Keys, Sizes(m')) == Sum(m.Keys, Sizes(m)) + size
            && Sum(live, Sizes(m')) == Sum(live, Sizes(m))
  {
    hide Sum;
    var m' := m[base := size];
    assert m'.Keys == m.Keys + {base};
    SumAdd(m.Keys, Sizes(m'), base);
    SumFrame(m.Keys, Sizes(m), Sizes(m'));
    SumFrame(live, Sizes(m), Sizes(m'));
  }

  lemma GrowBooked(s: Segregated, size: nat, base: nat)
    requires Booked(s) && base !in s.blocks && s.live.Values <= s.blocks.Keys && |s.bins| == s.maxBin + 1
        && size >= MIN_BLOCK
    ensures Booked(Grow(s, size, base)) && Unaccounted(Grow(s, size, base)) == Unaccounted(s)
  {
    hide Sum, BinOf, Insert;
    GrowSums(s.blocks, s.live.Values, size, base);
  }

  lemma AllocateBooked(s: Segregated, size: nat, alignment: nat, mem: Memory)
    requires Inv(s) && Booked(s) && Answers(s, Need(size), mem)
    ensures |s.bins| == s.maxBin + 1
    ensures var s' := Allocate(s, size, alignment, mem).0; Booked(s') && Unaccounted(s') == Unaccounted(s)
  {
    hide Inv, Booked, Unaccounted, Find, Search, Probes, CeilLog, Deepen, Grow, Answers, FreshBlock, GrowSize, Need,
      LegalAlignment, Wrap64;
    InvParts(s);
    NeedBounds(size);
    var need := Need(size);
    var steps := 1 + Probes(s.bins, s.blocks, need, CeilLog(need));
    CountersBooked(s, steps);
    if size <= MAX_SIZE && LegalAlignment(alignment) {
      if Search(s.bins, s.blocks, need, CeilLog(need)).Spot? {
        FindBooked(s, need, size, Effective(alignment));
      } else if Grows(s, need, mem) {
        var s1 := Deepen(s, steps);
        DeepenKeeps(s, steps);
        GrowthBooked(s, s1, need, mem, steps);
        FindBooked(Grow(s1, GrowSize(s.granule, need), mem.base), need, size, Effective(alignment));
      }
    }
  }

  lemma GrowthBooked(s: Segregated, s1: Segregated, need: nat, mem: Memory, steps: nat)
    requires Inv(s) && s1 == Deepen(s, steps) && Inv(s1) && Booked(s1) && Unaccounted(s1) == Unaccounted(s)
    requires s.granule >= 1 && Answers(s, need, mem) && Grows(s, need, mem) && need >= 32
    ensures |s1.bins| == s1.maxBin + 1
    ensures var t := Grow(s1, GrowSize(s.granule, need), mem.base);
            Inv(t) && Booked(t) && Unaccounted(t) == Unaccounted(s)
  {
    hide Inv, Booked, Unaccounted, GrowSize, FreshBlock, Grow;
    InvParts(s1);
    GrowSizeBounds(s.granule, need);
    assert Answers(s1, need, mem) && Grows(s1, need, mem);
    GrowKeeps(s1, need, mem);
    GrowBooked(s1, GrowSize(s.granule, need), mem.base);
  }

  lemma LiveLess(m: Blocks, live: map<nat, nat>, id: nat)
    requires Injective(live) && id in live && live.Values <= m.Keys && forall a :: a in m ==> m[a] >= MIN_BLOCK
    ensures live[id] in m && |live - {id}| == |live| - 1
    ensures SizeOf(m, live[id]) == m[live[id]]
    ensures Sum(live.Values, Sizes(m)) == m[live[id]] + Sum((live - {id}).Values, Sizes(m))
    ensures Sum((live - {id}).Values, Sizes(m)) >= 16 * (|live| - 1)
  {
    hide Sum;
    assert live[id] in live.Values;
    LiveRemove(live, id);
    SumRemove(live.Values, Sizes(m), live[id]);
    InjectiveCount(live - {id});
    SumAtLeast((live - {id}).Values, Sizes(m), HEADER);
  }

  lemma FreeBooked(s: Segregated, id: nat)
    requires Inv(s) && Booked(s)
    ensures |s.bins| == s.maxBin + 1
    ensures var s' := Free(s, id).0; Booked(s') && Unaccounted(s') == Unaccounted(s)
  {
    hide Inv, Sum, Sizes, SizeOf, BinOf, Insert, Injective;
    InvParts(s);
    LiveKnown(s);
    if id in s.live { LiveLess(s.blocks, s.live, id); }
  }

  lemma ResetBooked(s: Segregated)
    requires Inv(s) && Booked(s)
    ensures Booked(Reset(s))
  {
    hide Inv, EmptyBins;
    var none: Blocks := map[];
    assert none.Values == {} && none.Keys == {};
  }

  // ---- runs ----

  lemma StepBooked(s: Segregated, op: Op, s': Segregated)
    requires Inv(s) && Booked(s) && Takes(s, op, s')
    ensures Booked(s') && (!op.OpReset? ==> Unaccounted(s') == Unaccounted(s))
  {
    hide Inv, Booked, Unaccounted, Allocate, Free, Reset, Answers;
    match op
    case OpAllocate(size, alignment, mem) => AllocateBooked(s, size, alignment, mem);
    case OpFree(id) => FreeBooked(s, id);
    case OpReset => ResetBooked(s);
  }

  /** The books hold in every state of every run from the start. */
  lemma {:induction false} RunBooked(granule: Granule, maxBytes: nat, states: seq<Segregated>, ops: seq<Op>, i: nat)
    requires Runs(states, ops) && states[0] == Init(granule, maxBytes) && i < |states|
    ensures Inv(states[i]) && Booked(states[i])
    ensures (forall k :: 0 <= k < i ==> !ops[k].OpReset?) ==> Unaccounted(states[i]) == 0
    decreases i
  {
    hide Inv, Booked, Takes, Unaccounted;
    InitInv(granule, maxBytes);
    if i == 0 {
      InitBooked(granule, maxBytes);
    } else {
      RunBooked(granule, maxBytes, states, ops, i - 1);
      RunKeepsInv(states, ops, i);
      assert Takes(states[i - 1], ops[i - 1], states[i]);
      StepBooked(states[i - 1], ops[i - 1], states[i]);
    }
  }

  lemma InitBooked(granule: Granule, maxBytes: nat)
    ensures Booked(Init(granule, maxBytes)) && Unaccounted(Init(granule, maxBytes)) == 0
  {
    hide CeilLog, EmptyBins;
    var none: Blocks := map[];
    assert none.Values == {} && none.Keys == {};
  }

  lemma FreeAndLive(m: Blocks, live: set<nat>)
    requires live <= m.Keys
    ensures Sum(m.Keys - live, Sizes(m)) + Sum(live, Sizes(m)) == Sum(m.Keys, Sizes(m))
  {
    hide Sum, Sizes;
    SumUnion(m.Keys - live, live, Sizes(m));
    assert m.Keys - live + live == m.Keys;
  }

  lemma BookedTotal(s: Segregated)
    requires Booked(s) && s.live.Values <= s.blocks.Keys
    ensures Sum(FreeOf(s), Sizes(s.blocks)) + s.n.liveBytes + 16 * |s.live| == s.total
  {
    hide Sum, Sizes;
    FreeAndLive(s.blocks, s.live.Values);
  }

  /** In every state of every run, the free blocks, the live payloads and a header for each live block add
      up to total_bytes_; without a reset, every grant is freed or live. */
  lemma BytesConserved(granule: Granule, maxBytes: nat, states: seq<Segregated>, ops: seq<Op>, i: nat)
    requires Runs(states, ops) && states[0] == Init(granule, maxBytes) && i < |states|
    ensures var s := states[i];
            && Sum(FreeOf(s), Sizes(s.blocks)) + s.n.liveBytes + 16 * s.n.liveCount == s.total
            && s.n.requested <= s.n.granted && 0 <= s.n.liveBytes <= s.n.peakBytes && s.n.liveCount <= s.n.peakCount
            && ((forall k :: 0 <= k < i ==> !ops[k].OpReset?) ==> s.n.success == s.n.freed + s.n.liveCount)
  {
    hide Inv, Takes, Sum, Sizes, FreeOf;
    RunBooked(granule, maxBytes, states, ops, i);
    LiveKnown(states[i]);
    BookedTotal(states[i]);
  }
}
