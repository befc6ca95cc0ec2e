/** The slab allocator as the source keeps it: a vector of slabs with their free lists and the live
    table, updated in place and proved to follow SlabModel. */
module SlabAllocator {
  import opened Bits
  import opened AllocTypes
  import opened Requests
  import opened Sequences
  import opened SlabModel

  class SlabAllocator {
    const layout: Layout
    const maxBytes: nat
    var slabs: seq<Slab>
    var live: map<nat, nat>
    var nextId: nat
    var totalBytes: nat
    var n: Counters

    ghost function State(): SlabState
      reads this
    {
      SlabState(layout, maxBytes, slabs, live, nextId, totalBytes, n)
    }

    ghost predicate Valid()
      reads this
    {
      Inv(State())
    }

    constructor (layout: Layout, maxBytes: nat)
      requires Fits(layout)
      ensures Valid() && State() == Init(layout, maxBytes)
    {
      this.layout, this.maxBytes := layout, maxBytes;
      slabs, live, nextId, totalBytes := [], map[], 0, 0;
      n := Counters(0, 0, 0, 0, 0, 0, 0, 0, 0, 0, 0, 0, 0, 0, 0, 0);
      new;
      hide Inv;
      InitInv(layout, maxBytes);
    }

    /** find_slab_with_free. */
    method FindSlabWithFree() returns (i: nat)
      ensures i == FirstFree(slabs)
    {
      i := 0;
      while i < |slabs|
        invariant i <= |slabs| && FirstFree(slabs) == i + FirstFree(slabs[i..])
      {
        assert slabs[i..][1..] == slabs[i + 1..];
        if slabs[i].free != [] { return; }
        i := i + 1;
      }
    }

    /** slab_of: mask the address down to its page and look the page up. */
    method FindSlabOf(slot: nat) returns (i: nat)
      ensures i == SlabOf(slabs, PageOf(layout, slot))
    {
      hide PageOf;
      var base := PageOf(layout, slot);
      i := 0;
      while i < |slabs|
        invariant i <= |slabs| && SlabOf(slabs, base) == i + SlabOf(slabs[i..], base)
      {
        assert slabs[i..][1..] == slabs[i + 1..];
        if slabs[i].base == base { return; }
        i := i + 1;
      }
    }

    /** grow_slab: a new page with all its slots on the free list. */
    method GrowSlab(mem: Memory) returns (ok: bool)
      modifies this`slabs, this`totalBytes, this`n
      ensures ok == (Wrap64(old(totalBytes) + Page(layout)) <= maxBytes && mem.Fresh?)
      ensures ok ==> State() == Grow(old(State()), mem.base)
          .(n := Grow(old(State()), mem.base).n.(growth := old(n).growth))
      ensures !ok ==> State() == old(State())
    {
      hide Wrap64, Page, PerSlab, AllSlots, Stride;
      if Wrap64(totalBytes + Page(layout)) > maxBytes { return false; }
      if mem.NoMemory? { return false; }
      var free: seq<nat> := [];
      var p := mem.base + 64;
      AllSlotsStep(layout, mem.base, 0);
      for i := 0 to PerSlab(layout)
        invariant free == AllSlots(layout, mem.base, i) && unchanged(`slabs, `totalBytes, `n)
      {
        AllSlotsStep(layout, mem.base, i + 1);
        free := free + [p + i * Stride(layout)];
      }
      slabs := slabs + [Slab(mem.base, free)];
      totalBytes := totalBytes + Page(layout);
      n := n.(peakTotal := Max(totalBytes, n.peakTotal));
      ok := true;
    }

    method Allocate(size: u64, alignment: u64, mem: Memory) returns (r: Outcome)
      requires Valid() && Answers(State(), mem)
      modifies this
      ensures Valid()
      ensures (State(), r) == SlabModel.Allocate(old(State()), size, alignment, mem)
    {
      hide Inv, GrantedWell, Balance, Page, PerSlab, AllSlots, FirstFree, Wrap64, IsPowerOfTwo;
      ghost var s := State();
      AllocateKeeps(s, size, alignment, mem);
      LegalIs(alignment);
      if size > layout.objectSize { return Failed(SizeTooLarge); }
      var align: nat := if alignment == 0 then 16 else alignment;
      if !IsPowerOfTwo(align) || align > 16 { return Failed(AlignmentUnsupported); }
      var i := FindSlabWithFree();
      if i == |slabs| {
        var grown := GrowSlab(mem);
        if !grown {
          n := n.(failures := n.failures + 1);
          return Failed(CapacityExceeded);
        }
        i := |slabs| - 1;
        n := n.(growth := n.growth + 1);
        assert State() == Grow(s, mem.base);
        GrownInv(s, mem.base);
      }
      r := Take(i, size);
    }

    // The rest of allocate: the last free slot of slab i.
    method Take(i: nat, size: nat) returns (r: Outcome)
      requires i < |slabs| && slabs[i].free != []
      modifies this
      ensures (State(), r) == Serve(old(State()), i, size)
    {
      hide PerSlab;
      var free := slabs[i].free;
      var slot := free[|free| - 1];
      slabs := slabs[i := Slab(slabs[i].base, free[..|free| - 1])];
      var reused := |slabs[i].free| < PerSlab(layout);
      nextId := nextId + 1;
      live := live[nextId := slot];
      r := Granted(nextId, slot, layout.objectSize, 16, reused);
      n := n.(success := n.success + 1, liveCount := n.liveCount + 1, peakCount := Max(n.liveCount + 1, n.peakCount));
      n := n.(liveBytes := n.liveBytes + layout.objectSize,
          peakBytes := Max(n.liveBytes + layout.objectSize, n.peakBytes));
      n := n.(requested := n.requested + size, granted := n.granted + layout.objectSize);
      if reused {
        n := n.(poolHits := n.poolHits + 1, reuse := n.reuse + 1, sameSize := n.sameSize + 1);
      } else {
        n := n.(freshAllocs := n.freshAllocs + 1);
      }
    }

    method Free(handle: nat) returns (r: Status)
      requires Valid()
      modifies this
      ensures Valid()
      ensures (State(), r) == SlabModel.Free(old(State()), handle)
    {
      hide Inv, Balance, PageOf, SlabOf;
      ghost var s := State();
      FreeKeeps(s, handle);
      if handle !in live { return Err(InvalidHandle); }
      var slot := live[handle];
      var i := FindSlabOf(slot);
      if i == |slabs| { return Err(InvalidHandle); }
      slabs := slabs[i := Slab(slabs[i].base, slabs[i].free + [slot])];
      live := live - {handle};
      n := n.(sameSize := n.sameSize + 1,
              liveCount := if n.liveCount > 0 then n.liveCount - 1 else 0,
              liveBytes := if n.liveBytes >= layout.objectSize then n.liveBytes - layout.objectSize else n.liveBytes);
      r := Ok;
    }

    /** trim: erase every slab whose free list is full, giving its page back. */
    method Trim()
      requires Valid()
      modifies this
      ensures Valid() && State() == SlabModel.Trim(old(State()))
    {
      hide Inv, PerSlab, Bytes, Balance, Kept, Page;
      ghost var s := State();
      TrimKeeps(s);
      TotalIs(s);
      KeptFewer(layout, s.slabs);
      var i := 0;
      ghost var gone: nat := 0;
      BytesAdd(layout, 0, 0);
      assert s.slabs[..0] == [] && s.slabs[0..] == s.slabs;
      KeptEmpty(layout);
      while i < |slabs|
        invariant i <= |slabs| && gone + |slabs| == |s.slabs|
        invariant slabs[..i] == Kept(layout, s.slabs[..gone + i]) && slabs[i..] == s.slabs[gone + i..]
        invariant totalBytes == s.total - Bytes(layout, gone)
        invariant n == s.n.(recovered := s.n.recovered + Bytes(layout, gone))
        invariant live == s.live && nextId == s.nextId
        decreases |slabs| - i
      {
        ghost var k := gone + i;
        assert slabs[i] == slabs[i..][0] == s.slabs[k];
        assert s.slabs[..k + 1] == s.slabs[..k] + [s.slabs[k]];
        KeptSnoc(layout, s.slabs[..k], s.slabs[k]);
        if |slabs[i].free| == PerSlab(layout) {
          BytesAdd(layout, gone, 1);
          BytesAdd(layout, gone + 1, |s.slabs| - gone - 1);
          ghost var before := slabs;
          slabs := slabs[..i] + slabs[i + 1..];
          assert slabs[..i] == before[..i] && slabs[i..] == before[i..][1..];
          assert s.slabs[k..][1..] == s.slabs[k + 1..];
          n := n.(recovered := n.recovered + Page(layout));
          totalBytes := totalBytes - Page(layout);
          gone := gone + 1;
        } else {
          assert slabs[..i + 1] == slabs[..i] + [slabs[i]];
          assert slabs[i + 1..] == slabs[i..][1..];
          assert s.slabs[k..][1..] == s.slabs[k + 1..];
          i := i + 1;
        }
      }
      assert slabs[..i] == slabs && s.slabs[..gone + i] == s.slabs;
      BytesAdd(layout, gone, |s.slabs| - gone);
      n := n.(trims := n.trims + 1);
      assert State() == SlabModel.Trim(s);
    }

    /** reset and shutdown. */
    method Reset()
      requires Valid()
      modifies this
      ensures Valid() && State() == SlabModel.Reset(old(State()))
    {
      hide Inv;
      ResetKeeps(State());
      slabs, live, totalBytes := [], map[], 0;
      n := n.(liveCount := 0, liveBytes := 0);
    }

    method Query(handle: nat) returns (r: Status, addr: nat, size: nat)
      requires Valid()
      ensures r == Ok <==> handle in live
      ensures r == Ok ==> addr == live[handle] && size == layout.objectSize && Housed(layout, slabs, addr)
    {
      hide Fits, Slots, Aligned, Injective, Bytes, Housed;
      r, addr, size := Err(InvalidHandle), 0, 0;
      if handle in live {
        assert live[handle] in live.Values;
        r, addr, size := Ok, live[handle], layout.objectSize;
      }
    }
  }

  lemma AllSlotsStep(l: Layout, base: nat, n: nat)
    ensures AllSlots(l, base, 0) == []
    ensures n > 0 ==> AllSlots(l, base, n) == AllSlots(l, base, n - 1) + [base + 64 + (n - 1) * Stride(l)]
  {
    hide Stride;
  }

  lemma TotalIs(s: SlabState)
    requires Inv(s)
    ensures s.total == Bytes(s.l, |s.slabs|)
  {
  }

  lemma KeptEmpty(l: Layout)
    ensures Kept(l, []) == []
  {
  }

  lemma {:induction false} KeptSnoc(l: Layout, slabs: seq<Slab>, sl: Slab)
    ensures Kept(l, slabs + [sl]) == Kept(l, slabs) + if |sl.free| == PerSlab(l) then [] else [sl]
  {
    hide PerSlab;
    if slabs == [] {
      assert slabs + [sl] == [sl] && [sl][1..] == [];
    } else {
      KeptSnoc(l, slabs[1..], sl);
      assert (slabs + [sl])[1..] == slabs[1..] + [sl];
    }
  }
}
