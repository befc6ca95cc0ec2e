/** The segregated-fit allocator as the source keeps it: bin vectors, the live table and block
    headers in memory, updated in place and proved to follow SegregatedModel. */
module SegregatedAllocator {
  import opened Bits
  import opened AllocTypes
  import opened Requests
  import opened SegregatedModel

  const MAGIC_FREE: nat := 0x5E6AFAF0
  const MAGIC_BUSY: nat := 0x5E6AFAF1

  datatype Header = Header(magic: nat, size: nat, busy: bool)
  type Headers = map<nat, Header>

  function HeaderFor(size: nat, busy: bool): Header { Header(if busy then MAGIC_BUSY else MAGIC_FREE, size, busy) }

  /** The flag of a block that is not live is clear. A live block's flag is its first payload byte, so it
      holds whatever the user wrote there; the code never reads it. */
  ghost predicate Describes(h: Header, size: nat, busy: bool)
  {
    h.magic == (if busy then MAGIC_BUSY else MAGIC_FREE) && h.size == size && (!busy ==> !h.busy)
  }

  /** Each block's header has its size and says whether it is busy. */
  ghost predicate HeadersOk(m: Blocks, busy: set<nat>, h: Headers)
  {
    forall a :: a in m ==> a in h && Describes(h[a], m[a], a in busy)
  }

  ghost predicate Changed(h: Headers, h': Headers, x: nat)
  {
    !(x in h <==> x in h') || (x in h && h[x] != h'[x])
  }

  /** No byte of a header written lies in a busy block. The header is 24 bytes long: its busy flag is the
      first byte of the payload. */
  ghost predicate Untouched(h: Headers, h': Headers, m: Blocks, busy: set<nat>)
  {
    forall a, x: nat :: a in busy && a in m && Changed(h, h', x) ==> x + 24 <= a || a + m[a] <= x
  }

  lemma UntouchedRefl(h: Headers, m: Blocks, busy: set<nat>)
    ensures Untouched(h, h, m, busy)
  {
  }

  lemma UntouchedTrans(h0: Headers, h1: Headers, h2: Headers, m: Blocks, m1: Blocks, busy: set<nat>)
    requires Untouched(h0, h1, m, busy) && Untouched(h1, h2, m1, busy)
    requires forall a :: a in busy && a in m ==> a in m1 && m1[a] == m[a]
    ensures Untouched(h0, h2, m, busy)
  {
    forall a, x: nat | a in busy && a in m && Changed(h0, h2, x) ensures x + 24 <= a || a + m[a] <= x {
      assert Changed(h0, h1, x) || Changed(h1, h2, x);
    }
  }

  // Room for a header, and a size for which the logarithm loop ends.
  ghost predicate Bounded(m: Blocks) { forall a :: a in m ==> MIN_BLOCK <= m[a] <= 0x8000_0000_0000_0000 }

  method CeilLog2(v: nat) returns (r: nat)
    requires v <= 0x8000_0000_0000_0000
    ensures r == CeilLog(v)
  {
    Pow2Word();
    r := CeilLogLoop(v);
  }

  /** Taking the block b at a spot leads from s to s'. */
  ghost predicate Took(s: Segregated, at: Spot, need: nat, b: nat, s': Segregated)
  {
    && at.Spot? && at.bin < |s.bins| && at.pos < |s.bins[at.bin]| && |s.bins| == s.maxBin + 1
    && b == s.bins[at.bin][at.pos] && b in s.blocks && 0 < need <= s.blocks[b]
    && s' == Take(s, at, need)
  }

  class SegregatedAllocator {
    const granule: Granule
    const maxBytes: nat
    const maxBin: nat
    var headers: Headers
    var bins: Bins
    var supers: map<nat, nat>
    var live: map<nat, nat>
    var nextId: nat
    var totalBytes: nat
    var n: Counters
    ghost var m: Blocks

    ghost function State(): Segregated
      reads this
    {
      Segregated(granule, maxBytes, maxBin, supers, m, bins, live, nextId, totalBytes, n)
    }

    ghost predicate Valid()
      reads this
    {
      Inv(State()) && HeadersOk(m, live.Values, headers) && Bounded(m)
    }

    lemma ValidInv()
      requires Valid()
      ensures Inv(State()) && HeadersOk(m, live.Values, headers) && Bounded(m) && |bins| == maxBin + 1
    {
      hide HeadersOk, Bounded;
      InvParts(State());
    }

    lemma IsValid()
      requires Inv(State()) && HeadersOk(m, live.Values, headers) && Bounded(m)
      ensures Valid()
    {
    }

    // State() field by field.
    ghost predicate Fields(s: Segregated, steps: nat)
      reads this
    {
      && granule == s.granule && maxBytes == s.maxBytes && maxBin == s.maxBin && supers == s.supers && m == s.blocks
      && bins == s.bins && live == s.live && nextId == s.nextId && totalBytes == s.total
      && n == s.n.(depth := s.n.depth + steps)
    }

    lemma FieldsOf()
      ensures Fields(State(), 0)
    {
    }

    lemma FieldsAre(s: Segregated, steps: nat)
      requires Fields(s, steps)
      ensures State() == Deepen(s, steps)
    {
    }

    constructor (superblockSize: Granule, maxBytes: nat)
      ensures Valid() && State() == Init(superblockSize, maxBytes)
    {
      granule, this.maxBytes := superblockSize, maxBytes;
      maxBin := CeilLog(superblockSize);
      headers, supers, live, m := map[], map[], map[], map[];
      bins := EmptyBins(CeilLog(superblockSize) + 1);
      nextId, totalBytes := 0, 0;
      n := Counters(0, 0, 0, 0, 0, 0, 0, 0, 0, 0, 0, 0, 0);
      new;
      hide Inv;
      InitInv(granule, maxBytes);
    }

    /** insert_bin. */
    method InsertBin(a: nat)
      requires a in headers && headers[a].size <= 0x8000_0000_0000_0000 && |bins| == maxBin + 1
      modifies this`bins
      ensures BinOf(headers[a].size, maxBin) <= maxBin
      ensures bins == Insert(old(bins), BinOf(headers[a].size, maxBin), a)
    {
      var bin := CeilLog2(headers[a].size);
      if bin > maxBin { bin := maxBin; }
      bins := bins[bin := bins[bin] + [a]];
    }

    // The part of find_block after a large enough block was found.
    method TakeAt(bin: nat, i: nat, need: nat, ghost busy: set<nat>)
      requires |bins| == maxBin + 1 && bin < |bins| && i < |bins[bin]| && 32 <= need && need % 16 == 0
      requires HeadersOk(m, busy, headers) && Bounded(m) && Tiled(supers, m)
      requires bins[bin][i] in m && bins[bin][i] !in busy && need <= m[bins[bin][i]] && busy <= m.Keys
      modifies this`headers, this`bins, this`m, this`n
      ensures Took(old(State()), Spot(bin, i), need, old(bins)[bin][i], State())
      ensures HeadersOk(m, busy + {old(bins)[bin][i]}, headers) && Bounded(m)
      ensures Untouched(old(headers), headers, old(m), busy)
    {
      hide Tiled, HeadersOk, Bounded, Untouched, BinOf;
      var b := bins[bin][i];
      HeaderOf(m, busy, headers, b);
      SizeBound(m, b);
      bins := bins[bin := bins[bin][..i] + bins[bin][i + 1..]];
      ghost var h0 := headers;
      if headers[b].size - need >= MIN_BLOCK {
        var rest := b + need;
        headers := headers[rest := HeaderFor(headers[b].size - need, false)];
        InsertBin(rest);
        headers := headers[b := headers[b].(size := need)];
        n := n.(splits := n.splits + 1);
        headers := headers[b := HeaderFor(headers[b].size, true)];
        CutHeaders(supers, m, busy, h0, headers, b, need);
        m := Cut(m, b, need);
      } else {
        headers := headers[b := HeaderFor(headers[b].size, true)];
        WholeHeaders(supers, m, busy, h0, headers, b);
      }
    }

    // The same, seen from the state at the start of the search.
    method TakeHit(bin: nat, i: nat, need: nat, ghost busy: set<nat>, ghost s: Segregated, ghost steps: nat)
      requires Fields(s, steps) && Inv(s) && busy == s.live.Values && HeadersOk(m, busy, headers) && Bounded(m)
      requires 32 <= need && need % 16 == 0 && |s.bins| == s.maxBin + 1 && bin < |s.bins| && i < |s.bins[bin]|
      requires SizeOf(s.blocks, s.bins[bin][i]) >= need
      modifies this`headers, this`bins, this`m, this`n
      ensures Took(Deepen(s, steps), Spot(bin, i), need, s.bins[bin][i], State())
      ensures HeadersOk(m, busy + {s.bins[bin][i]}, headers) && Bounded(m)
      ensures Untouched(old(headers), headers, s.blocks, busy)
    {
      hide Inv, Tiled, HeadersOk, Bounded, Untouched, Took, State, Deepen;
      InvParts(s);
      BinnedBlock(s, bin, i);
      FieldsAre(s, steps);
      TakeAt(bin, i, need, busy);
    }

    // The inner loop of find_block: one bin from its front.
    method ScanBin(bin: nat, need: nat, ghost busy: set<nat>, ghost s: Segregated, ghost steps: nat)
      returns (found: bool, b: nat)
      requires Fields(s, steps) && Inv(s) && busy == s.live.Values && HeadersOk(m, busy, headers) && Bounded(m)
      requires 32 <= need && need % 16 == 0 && bin < |s.bins| && |s.bins| == s.maxBin + 1
      modifies this`headers, this`bins, this`m, this`n
      ensures var k := FirstFrom(s.bins[bin], s.blocks, need, 0);
              && found == (k < |s.bins[bin]|)
              && (found ==> Took(Deepen(s, steps + k + 1), Spot(bin, k), need, b, State()))
              && (!found ==> headers == old(headers) && Fields(s, steps + k))
      ensures HeadersOk(m, if found then busy + {b} else busy, headers) && Bounded(m)
      ensures Untouched(old(headers), headers, s.blocks, busy)
    {
      hide Inv, Tiled, Binned, FreeOf, BinOf, HeadersOk, Bounded, Untouched, Took, FirstFrom, SizeOf, State, Deepen;
      UntouchedRefl(headers, m, busy);
      InvParts(s);
      var i := 0;
      b := 0;
      while i < |bins[bin]|
        invariant unchanged(`headers, `bins, `m) && i <= |s.bins[bin]| && Fields(s, steps + i)
        invariant FirstFrom(s.bins[bin], s.blocks, need, 0) == FirstFrom(s.bins[bin], s.blocks, need, i)
        decreases |bins[bin]| - i
      {
        FirstStep(bins[bin], m, need, i);
        n := n.(depth := n.depth + 1);
        b := bins[bin][i];
        BinnedBlock(s, bin, i);
        HeaderOf(m, busy, headers, b);
        if headers[b].size >= need {
          TakeHit(bin, i, need, busy, s, steps + i + 1);
          return true, b;
        }
        i := i + 1;
      }
      FirstEnd(bins[bin], m, need);
      found := false;
    }

    lemma Consts(s: Segregated, steps: nat)
      requires Fields(s, steps)
      ensures maxBin == s.maxBin && m == s.blocks && live == s.live
    {
    }

    /** find_block: the bins upwards from the request's own. */
    method FindBlock(need: nat, ghost busy: set<nat>) returns (found: bool, b: nat)
      requires Inv(State()) && busy == live.Values && HeadersOk(m, busy, headers) && Bounded(m)
      requires 32 <= need <= 0x8000_0000_0000_0000 && need % 16 == 0
      modifies this`headers, this`bins, this`m, this`n
      ensures var s, at := old(State()), Search(old(bins), old(m), need, CeilLog(need));
              var t := Deepen(s, 1 + Probes(old(bins), old(m), need, CeilLog(need)));
              && found == at.Spot?
              && (found ==> Took(t, at, need, b, State())) && (!found ==> State() == t)
      ensures HeadersOk(m, if found then busy + {b} else busy, headers) && Bounded(m)
      ensures Untouched(old(headers), headers, old(m), busy)
    {
      hide Inv, HeadersOk, Bounded, Untouched, CeilLog, Took, Search, FirstFrom, Probes, Deepen, State, Fields;
      ghost var s := State();
      FieldsOf();
      BinCount(s);
      StateParts();
      UntouchedRefl(headers, m, busy);
      var start := CeilLog2(need);
      CountCall(s);
      var bin := start;
      ghost var steps: nat := 1;
      found, b := false, 0;
      while bin <= maxBin
        invariant Search(s.bins, s.blocks, need, bin) == Search(s.bins, s.blocks, need, start)
        invariant steps + Probes(s.bins, s.blocks, need, bin) == 1 + Probes(s.bins, s.blocks, need, start)
        invariant headers == old(headers) && Fields(s, steps) && m == s.blocks
        invariant HeadersOk(m, busy, headers) && Bounded(m) && Untouched(old(headers), headers, s.blocks, busy)
        decreases maxBin + 1 - bin
      {
        SearchBin(s.bins, s.blocks, need, bin);
        ghost var k := FirstFrom(s.bins[bin], s.blocks, need, 0);
        assert k < |s.bins[bin]| ==> steps + k + 1 == 1 + Probes(s.bins, s.blocks, need, start);
        found, b := ScanBin(bin, need, busy, s, steps);
        if found { return; }
        steps := steps + k;
        bin := bin + 1;
        Consts(s, steps);
      }
      SearchEnd(s.bins, s.blocks, need, bin);
      FieldsAre(s, steps);
    }

    /** grow_superblock: a new superblock as one free block in its bin. */
    method GrowSuperblock(need: nat, mem: Memory) returns (ok: bool)
      requires Valid() && 32 <= need <= MAX_SIZE + 64 && Answers(State(), need, mem)
      modifies this
      ensures Valid() && |old(bins)| == maxBin + 1 && ok == Grows(old(State()), need, mem)
      ensures ok == (Wrap64(old(totalBytes) + GrowSize(granule, need)) <= maxBytes && mem.Fresh?)
      ensures State() == if ok then Grow(old(State()), GrowSize(granule, need), mem.base) else old(State())
      ensures Untouched(old(headers), headers, old(m), old(live.Values))
    {
      hide Valid, Inv, Untouched, GrowSize, FreshBlock, Grow, Wrap64, State, Pow2, Refines, Balance;
      ValidInv();
      ghost var s := State();
      StateParts();
      FieldsOf();
      var sz := GrowSize(granule, need);
      GrowSizeBounds(granule, need);
      UntouchedRefl(headers, m, live.Values);
      if Wrap64(totalBytes + sz) > maxBytes { return false; }
      if mem.NoMemory? { return false; }
      GrowKeeps(s, need, mem);
      Extend(mem.base, sz);
      ok := true;
    }

    method Extend(base: nat, sz: nat)
      requires Valid() && base !in m && FreshBlock(supers, base, sz) && 32 <= sz
      requires |bins| == maxBin + 1 && Inv(Grow(State(), sz, base)) && (sz == granule || sz <= 2 * MAX_SIZE + 128)
      modifies this
      ensures Valid() && State() == Grow(old(State()), sz, base)
      ensures Untouched(old(headers), headers, old(m), old(live.Values))
    {
      hide Inv, HeadersOk, Bounded, Untouched, FreshBlock, BinOf, Tiled, Binned;
      ValidInv();
      InvParts(State());
      headers := headers[base := HeaderFor(sz, false)];
      InsertBin(base);
      AddHeaders(supers, m, live.Values, old(headers), headers, base, sz);
      supers, m := supers[base := sz], m[base := sz];
      totalBytes := totalBytes + sz;
      n := n.(growth := n.growth + 1, peakTotal := Max(totalBytes, n.peakTotal));
      assert State() == Grow(old(State()), sz, base);
    }

    // One search and the bookkeeping of a grant.
    method Serve(need: nat, size: nat, align: nat) returns (found: bool, r: Outcome)
      requires Valid() && 32 <= need <= 0x8000_0000_0000_0000 && need % 16 == 0 && size + HEADER <= need
      modifies this
      ensures Valid() && |old(bins)| == maxBin + 1
      ensures found <==> Search(old(bins), old(m), need, CeilLog(need)).Spot?
      ensures found ==> (State(), r) == Find(old(State()), need, size, align)
      ensures !found ==> State() == Deepen(old(State()), 1 + Probes(old(bins), old(m), need, CeilLog(need)))
      ensures Untouched(old(headers), headers, old(m), old(live.Values))
    {
      hide Valid, Inv, HeadersOk, Bounded, Untouched, CeilLog, Search, Probes, Find, State, Took, GrantedWell,
          Balance, Refines;
      ValidInv();
      ghost var s := State();
      StateParts();
      FindKeeps(s, need, size, align);
      DeepenKeeps(s, 1 + Probes(bins, m, need, CeilLog(need)));
      var b;
      found, b := FindBlock(need, live.Values);
      r := Failed(OutOfMemory);
      if found {
        StateParts();
        TookParts(s, need, b, State());
        r := Publish(s, b, need, size, align);
      }
      IsValid();
    }

    // What allocate does with the block it was given.
    method Publish(ghost s: Segregated, b: nat, need: nat, size: nat, align: nat) returns (r: Outcome)
      requires Inv(s) && |s.bins| == s.maxBin + 1 && 32 <= need && need % 16 == 0
      requires var at := Search(s.bins, s.blocks, need, CeilLog(need));
               Took(Deepen(s, 1 + Probes(s.bins, s.blocks, need, CeilLog(need))), at, need, b, State())
      requires HeadersOk(m, s.live.Values + {b}, headers) && live == s.live && nextId == s.nextId
      modifies this`n, this`live, this`nextId
      ensures (State(), r) == Find(s, need, size, align)
      ensures HeadersOk(m, live.Values, headers)
    {
      hide Inv, HeadersOk, Untouched, CeilLog, Search, Probes, Take;
      ghost var t := State();
      TookParts(s, need, b, t);
      HeaderOf(m, s.live.Values + {b}, headers, b);
      LiveGrows(s, b);
      var granted := headers[b].size - 16;
      nextId := nextId + 1;
      live := live[nextId := b];
      r := Granted(nextId, b + 16, granted, align, n.freed > 0);
      n := n.(success := n.success + 1,
              liveCount := n.liveCount + 1, peakCount := Max(n.liveCount + 1, n.peakCount),
              liveBytes := n.liveBytes + granted, peakBytes := Max(n.liveBytes + granted, n.peakBytes),
              requested := n.requested + size, granted := n.granted + granted);
      assert State() == Record(t, b, size);
      FindIs(s, need, size, align, b, t);
    }

    // After a failed search: grow and search again.
    method Retry(need: nat, size: nat, align: nat, mem: Memory) returns (r: Outcome)
      requires Valid() && 32 <= need <= MAX_SIZE + 64 && need % 16 == 0 && size + HEADER <= need
          && Answers(State(), need, mem)
      modifies this
      ensures Valid() && |old(bins)| == maxBin + 1
      ensures (State(), r) == if !Grows(old(State()), need, mem) then (Failing(old(State())), Failed(CapacityExceeded))
                              else Find(Grow(old(State()), GrowSize(granule, need), mem.base), need, size, align)
      ensures Untouched(old(headers), headers, old(m), old(live.Values))
    {
      hide Valid, Inv, HeadersOk, Bounded, Untouched, GrowSize, FreshBlock, Grow, Find, Wrap64, CeilLog, Search,
          Probes, Refines,
           Balance, State, FreeOf;
      ValidInv();
      ghost var s, h0 := State(), headers;
      StateParts();
      DeepenKeeps(s, 0);
      GrowSizeBounds(granule, need);
      var grown := GrowSuperblock(need, mem);
      if !grown {
        Fail(s);
        return Failed(CapacityExceeded);
      }
      GrowKeeps(s, need, mem);
      ghost var h1, m1, t := headers, m, State();
      StateParts();
      ValidInv();
      GrownSame(s, need, mem);
      FindFailsAs(t, need, size, align);
      var found;
      found, r := Serve(need, size, align);
      if !found {
        r := Failed(OutOfMemory);
        Fail(Deepen(t, 1 + Probes(t.bins, t.blocks, need, CeilLog(need))));
      }
      UntouchedTrans(h0, h1, headers, s.blocks, m1, s.live.Values);
    }

    // `++failures_`.
    method Fail(ghost s: Segregated)
      requires Valid() && State() == s
      modifies this`n
      ensures Valid() && State() == Failing(s)
    {
      hide Inv, HeadersOk, Bounded;
      DeepenKeeps(s, 0);
      DeepenParts(s, 0, 0);
      n := n.(failures := n.failures + 1);
      assert State() == Failing(s);
    }

    method Allocate(size: u64, alignment: u64, mem: Memory) returns (r: Outcome)
      requires Valid() && Answers(State(), Need(size), mem)
      modifies this
      ensures Valid() && |old(bins)| == maxBin + 1
      ensures (State(), r) == SegregatedModel.Allocate(old(State()), size, alignment, mem)
      ensures Untouched(old(headers), headers, old(m), old(live.Values))
    {
      hide Valid, Inv, HeadersOk, Bounded, Untouched, GrowSize, FreshBlock, Grow, Find, Wrap64, CeilLog, Search,
          Probes, State,
           SegregatedModel.Allocate, Grows, Need, IsPowerOfTwo, Answers;
      ValidInv();
      ghost var s, h0 := State(), headers;
      StateParts();
      AllocateIs(s, size, alignment, mem);
      UntouchedRefl(headers, m, live.Values);
      if size > MAX_SIZE { return Failed(SizeTooLarge); }
      var align: nat := if alignment == 0 then 16 else alignment;
      LegalIs(alignment);
      if !IsPowerOfTwo(align) || align > 16 { return Failed(AlignmentUnsupported); }
      var need := Need(size);
      NeedBounds(size);
      var found;
      found, r := Serve(need, size, align);
      if !found {
        ghost var h1 := headers;
        StateParts();
        DeepenAnswers(s, 1 + Probes(s.bins, s.blocks, need, CeilLog(need)), need, mem);
        r := Retry(need, size, align, mem);
        UntouchedTrans(h0, h1, headers, s.blocks, s.blocks, s.live.Values);
      }
    }

    method Free(handle: nat) returns (r: Status)
      requires Valid()
      modifies this
      ensures Valid() && |old(bins)| == maxBin + 1
      ensures (State(), r) == SegregatedModel.Free(old(State()), handle)
      ensures Untouched(old(headers), headers, m, old((live - {handle}).Values)) && m == old(m)
    {
      hide Inv, HeadersOk, Bounded, Untouched, BinOf, FreeOf, Balance, Insert;
      ValidInv();
      ghost var s := State();
      FreeKeeps(s, handle);
      UntouchedRefl(headers, m, (s.live - {handle}).Values);
      if handle !in live { return Err(InvalidHandle); }
      var b := live[handle];
      BusyHeader(s, headers, handle);
      if headers[b].magic != MAGIC_BUSY { return Err(DoubleFree); }
      SizeBound(m, b);
      FreeHeaders(s, handle, headers, headers[b := HeaderFor(headers[b].size, false)]);
      headers := headers[b := HeaderFor(headers[b].size, false)];
      InsertBin(b);
      live := live - {handle};
      var bytes := headers[b].size - 16;
      n := n.(freed := n.freed + 1,
              liveCount := if n.liveCount > 0 then n.liveCount - 1 else 0,
              liveBytes := if n.liveBytes >= bytes then n.liveBytes - bytes else n.liveBytes);
      assert State() == Release(s, handle);
      r := Ok;
    }

    /** reset and shutdown. */
    method Reset()
      requires Valid()
      modifies this
      ensures Valid() && State() == SegregatedModel.Reset(old(State()))
    {
      hide Inv;
      ValidInv();
      ghost var s := State();
      ResetKeeps(s);
      supers, m, live := map[], map[], map[];
      bins := EmptyBins(|bins|);
      totalBytes := 0;
      n := n.(liveCount := 0, liveBytes := 0);
      assert State() == SegregatedModel.Reset(s);
    }

    method Query(handle: nat) returns (r: Status, addr: nat, size: nat)
      requires Valid()
      ensures r == Ok <==> handle in live
      ensures r == Ok ==> live[handle] in m && addr == live[handle] + 16 && size + 16 == m[live[handle]]
    {
      hide Valid, Inv, HeadersOk, Bounded;
      ValidInv();
      r, addr, size := Err(InvalidHandle), 0, 0;
      if handle in live {
        BusyHeader(State(), headers, handle);
        SizeBound(m, live[handle]);
        r, addr, size := Ok, live[handle] + 16, headers[live[handle]].size - 16;
      }
    }

    // `++search_depth_`.
    method CountCall(ghost s: Segregated)
      requires Fields(s, 0)
      modifies this`n
      ensures Fields(s, 1)
    {
      n := n.(depth := n.depth + 1);
    }

    lemma StateParts()
      ensures State().bins == bins && State().blocks == m && State().live == live && State().maxBin == maxBin
      ensures State().nextId == nextId && State().granule == granule && State().supers == supers
    {
    }
  }

  lemma DeepenParts(s: Segregated, i: nat, k: nat)
    ensures Deepen(s, i) == s.(n := s.n.(depth := s.n.depth + i))
    ensures Deepen(Deepen(s, i), k) == Deepen(s, i + k)
  {
  }

  // One round of the search, in terms of the specification.
  lemma SearchBin(bins: Bins, m: Blocks, need: nat, b: nat)
    requires b < |bins|
    ensures var k := FirstFrom(bins[b], m, need, 0);
            && Search(bins, m, need, b) == (if k < |bins[b]| then Spot(b, k) else Search(bins, m, need, b + 1))
            && Probes(bins, m, need, b) == (if k < |bins[b]| then k + 1 else k + Probes(bins, m, need, b + 1))
  {
    hide FirstFrom;
  }

  lemma SearchEnd(bins: Bins, m: Blocks, need: nat, b: nat)
    requires b >= |bins|
    ensures Search(bins, m, need, b) == Nowhere && Probes(bins, m, need, b) == 0
  {
  }

  lemma FirstStep(bin: seq<nat>, m: Blocks, need: nat, i: nat)
    requires i < |bin|
    ensures FirstFrom(bin, m, need, i) == if SizeOf(m, bin[i]) >= need then i else FirstFrom(bin, m, need, i + 1)
  {
    hide SizeOf;
  }

  lemma FirstEnd(bin: seq<nat>, m: Blocks, need: nat)
    ensures FirstFrom(bin, m, need, |bin|) == |bin|
  {
  }

  lemma HeaderOf(m: Blocks, busy: set<nat>, h: Headers, a: nat)
    requires HeadersOk(m, busy, h) && a in m
    ensures a in h && Describes(h[a], m[a], a in busy)
  {
  }

  lemma SizeBound(m: Blocks, a: nat)
    requires Bounded(m) && a in m
    ensures MIN_BLOCK <= m[a] <= 0x8000_0000_0000_0000
  {
  }

  lemma BinnedBlock(s: Segregated, b: nat, i: nat)
    requires Inv(s) && b < |s.bins| && i < |s.bins[b]|
    ensures s.bins[b][i] in s.blocks && s.bins[b][i] !in s.live.Values
    ensures Tiled(s.supers, s.blocks) && SizeOf(s.blocks, s.bins[b][i]) == s.blocks[s.bins[b][i]]
  {
    hide Tiled, Pow2, Injective, BinOf;
  }

  lemma AddHeaders(supers: map<nat, nat>, m: Blocks, busy: set<nat>, h: Headers, h': Headers, base: nat, size: nat)
    requires Tiled(supers, m) && FreshBlock(supers, base, size) && HeadersOk(m, busy, h) && Bounded(m) && base !in m
    requires 24 <= size <= 0x8000_0000_0000_0000 && busy <= m.Keys && h' == h[base := HeaderFor(size, false)]
    ensures HeadersOk(m[base := size], busy, h') && Bounded(m[base := size]) && Untouched(h, h', m, busy)
  {
    hide Tiled, FreshBlock;
    FreshApart(supers, m, base, size);
    forall a, x: nat | a in busy && a in m && Changed(h, h', x) ensures x + 24 <= a || a + m[a] <= x {
      assert x == base;
    }
  }

  lemma LiveGrows(s: Segregated, b: nat)
    requires Inv(s)
    ensures s.live[s.nextId + 1 := b].Values == s.live.Values + {b}
  {
    hide Tiled, Binned, Pow2, Injective;
    var live' := s.live[s.nextId + 1 := b];
    assert s.nextId + 1 !in s.live;
    assert live'[s.nextId + 1] == b;
    forall v | v in s.live.Values ensures v in live'.Values {
      var k :| k in s.live && s.live[k] == v;
      assert k in live' && live'[k] == v;
    }
  }

  lemma TookParts(s: Segregated, need: nat, b: nat, t: Segregated)
    requires |s.bins| == s.maxBin + 1 && 32 <= need
    requires var at := Search(s.bins, s.blocks, need, CeilLog(need));
             Took(Deepen(s, 1 + Probes(s.bins, s.blocks, need, CeilLog(need))), at, need, b, t)
    ensures b in t.blocks && t.blocks[b] >= need && t.n.freed == s.n.freed
  {
    hide CeilLog, Search, Probes;
  }

  lemma FindIs(s: Segregated, need: nat, size: nat, align: nat, b: nat, t: Segregated)
    requires |s.bins| == s.maxBin + 1 && 32 <= need
    requires var at := Search(s.bins, s.blocks, need, CeilLog(need));
             Took(Deepen(s, 1 + Probes(s.bins, s.blocks, need, CeilLog(need))), at, need, b, t)
    requires b in t.blocks && t.blocks[b] >= 16
    ensures Find(s, need, size, align)
         == (Record(t, b, size), Granted(Record(t, b, size).nextId, b + 16, t.blocks[b] - 16, align, s.n.freed > 0))
  {
    hide CeilLog, Search, Probes, Take;
  }

  lemma FreeHeaders(s: Segregated, id: nat, h: Headers, h': Headers)
    requires Inv(s) && HeadersOk(s.blocks, s.live.Values, h) && Bounded(s.blocks) && id in s.live
        && s.live[id] in s.blocks
    requires h' == h[s.live[id] := HeaderFor(s.blocks[s.live[id]], false)]
    ensures HeadersOk(s.blocks, (s.live - {id}).Values, h') && Untouched(h, h', s.blocks, (s.live - {id}).Values)
  {
    hide Tiled, Binned, Pow2;
    LiveRemove(s.live, id);
    BusyClear(s.supers, s.blocks, h, h', s.live.Values - {s.live[id]}, s.live[id]);
  }

  lemma BusyClear(supers: map<nat, nat>, m: Blocks, h: Headers, h': Headers, busy: set<nat>, b: nat)
    requires Tiled(supers, m) && Bounded(m) && b in m && b !in busy && forall x: nat :: Changed(h, h', x) ==> x == b
    ensures Untouched(h, h', m, busy)
  {
    hide Covered, Changed;
    forall a, x: nat | a in busy && a in m && Changed(h, h', x) ensures x + 24 <= a || a + m[a] <= x {
      assert Apart(m, b, a) && Apart(m, a, b);
    }
  }

  /** The branches of the specification. */
  lemma AllocateIs(s: Segregated, size: nat, alignment: nat, mem: Memory)
    requires s.granule >= 1 && |s.bins| == s.maxBin + 1
    ensures var need := Need(size);
            var t := Deepen(s, 1 + Probes(s.bins, s.blocks, need, CeilLog(need)));
            && need >= 32
            && SegregatedModel.Allocate(s, size, alignment, mem)
               == if size > MAX_SIZE then (s, Failed(SizeTooLarge))
                  else if !LegalAlignment(alignment) then (s, Failed(AlignmentUnsupported))
                  else if Search(s.bins, s.blocks, need, CeilLog(need)).Spot?
                      then Find(s, need, size, Effective(alignment))
                  else if !Grows(t, need, mem) then (Failing(t), Failed(CapacityExceeded))
                  else Find(Grow(t, GrowSize(s.granule, need), mem.base), need, size, Effective(alignment))
  {
    hide Find, Grow, GrowSize, CeilLog, Search, Probes, IsPowerOfTwo, Need, Wrap64, LegalAlignment;
    NeedBounds(size);
    GrowCount(Deepen(s, 1 + Probes(s.bins, s.blocks, Need(size), CeilLog(Need(size)))),
        GrowSize(s.granule, Need(size)), 0);
  }

  lemma DeepenAnswers(s: Segregated, steps: nat, need: nat, mem: Memory)
    requires s.granule >= 1 && Answers(s, need, mem)
    ensures Answers(Deepen(s, steps), need, mem) && Deepen(s, steps).blocks == s.blocks
        && Deepen(s, steps).live == s.live
    ensures Deepen(s, steps).granule == s.granule && Deepen(s, steps).bins == s.bins
  {
    hide FreshBlock, GrowSize;
  }

  lemma GrownSame(s: Segregated, need: nat, mem: Memory)
    requires Inv(s) && |s.bins| == s.maxBin + 1 && mem.Fresh? && mem.base !in s.blocks
    ensures var t := Grow(s, GrowSize(s.granule, need), mem.base);
            t.live == s.live && forall a :: a in s.blocks ==> a in t.blocks && t.blocks[a] == s.blocks[a]
  {
    hide Tiled, Binned, Pow2, Injective, BinOf, GrowSize;
  }

  lemma FindFailsAs(s: Segregated, need: nat, size: nat, align: nat)
    requires |s.bins| == s.maxBin + 1 && need >= 32
    ensures Search(s.bins, s.blocks, need, CeilLog(need)).Nowhere? ==>
              Find(s, need, size, align) ==
                  (Failing(Deepen(s, 1 + Probes(s.bins, s.blocks, need, CeilLog(need)))), Failed(OutOfMemory))
  {
    hide CeilLog, Search, Probes, Take, Record;
  }

  lemma BusyHeader(s: Segregated, h: Headers, id: nat)
    requires Inv(s) && HeadersOk(s.blocks, s.live.Values, h) && id in s.live
    ensures var b := s.live[id];
            b in s.blocks && b in h && Describes(h[b], s.blocks[b], true) && b in s.live.Values
  {
    hide Tiled, Binned, Pow2, Injective, HeadersOk;
    var b := s.live[id];
    assert b in s.live.Values;
    HeaderOf(s.blocks, s.live.Values, h, b);
  }

  lemma CutHeaders(supers: map<nat, nat>, m: Blocks, busy: set<nat>, h: Headers, h': Headers, b: nat, need: nat)
    requires Tiled(supers, m) && HeadersOk(m, busy, h) && Bounded(m) && b in m && b !in busy && busy <= m.Keys
    requires 32 <= need && need % 16 == 0 && need + MIN_BLOCK <= m[b]
    requires h' == h[b + need := HeaderFor(m[b] - need, false)][b := HeaderFor(need, true)]
    ensures HeadersOk(Cut(m, b, need), busy + {b}, h') && Bounded(Cut(m, b, need)) && Untouched(h, h', m, busy)
  {
    hide Tiled, Untouched;
    var m' := Cut(m, b, need);
    CutTiled(supers, m, b, need);
    forall a | a in m' ensures a in h' && Describes(h'[a], m'[a], a in busy + {b}) {
      if a != b && a != b + need { assert a in m; }
    }
    CutClear(supers, m, busy, h, h', b, need);
  }

  lemma CutClear(supers: map<nat, nat>, m: Blocks, busy: set<nat>, h: Headers, h': Headers, b: nat, need: nat)
    requires Tiled(supers, m) && b in m && b !in busy && 32 <= need && need % 16 == 0 && need + MIN_BLOCK <= m[b]
    requires forall x: nat :: Changed(h, h', x) ==> x == b || x == b + need
    ensures Untouched(h, h', m, busy)
  {
    hide Covered, Changed;
    forall a, x: nat | a in busy && a in m && Changed(h, h', x) ensures x + 24 <= a || a + m[a] <= x {
      assert Apart(m, b, a) && Apart(m, a, b);
    }
  }

  lemma WholeHeaders(supers: map<nat, nat>, m: Blocks, busy: set<nat>, h: Headers, h': Headers, b: nat)
    requires Tiled(supers, m) && HeadersOk(m, busy, h) && b in m && b !in busy && m[b] >= 32
    requires h' == h[b := HeaderFor(m[b], true)]
    ensures HeadersOk(m, busy + {b}, h') && Untouched(h, h', m, busy)
  {
    hide Covered;
    forall a, x: nat | a in busy && a in m && Changed(h, h', x) ensures x + 24 <= a || a + m[a] <= x {
      assert Apart(m, b, a) && Apart(m, a, b);
    }
  }
}
