/** The three growing allocators meet the strategy contract that replay relies on (allocator.hpp). */
module StrategyContracts {
  import opened AllocTypes
  import opened Replay
  import opened BuddyContract
  import Requests
  import BB = BuddyBlocks
  import BM = BuddyModel
  import FL = FreeListModel
  import FB = FreeListBlocks
  import FM = FreeListMemory
  import SG = SegregatedModel
  import SA = SegregatedAllocator
  import SL = SlabModel

  // ---- free list ----

  /** The payload between a block's header and its footer. */
  function FreeListPayload(m: FB.Blocks, a: nat): Region
  {
    Region(a + 48, if FB.SizeOf(m, a) >= 64 then FB.SizeOf(m, a) - 64 else 0)
  }

  function FreeListView(s: FL.FreeList): View { map id | id in s.live :: FreeListPayload(s.blocks, s.live[id]) }

  lemma FreeListApart(s: FL.FreeList, a: nat, c: nat)
    requires FB.Apart(s.blocks, a, c) && FB.Apart(s.blocks, c, a) && a != c && a in s.blocks && c in s.blocks
    requires s.blocks[a].size >= 64 && s.blocks[c].size >= 64
    ensures FreeListPayload(s.blocks, a).Disjoint(FreeListPayload(s.blocks, c))
  {
  }

  lemma FreeListLive(s: FL.FreeList, id: nat)
    requires FL.Inv(s) && id in s.live
    ensures s.live[id] in s.blocks && s.blocks[s.live[id]].size >= 64
  {
    hide FB.Sum;
    assert s.live[id] in s.live.Values;
  }

  lemma FreeListDisjoint(s: FL.FreeList)
    requires FL.Inv(s)
    ensures RegionsDisjoint(FreeListView(s))
  {
    hide FB.Apart, FL.Geometry, FreeListPayload, FB.Sum;
    FL.InvApart(s);
    forall g, h | g in s.live && h in s.live && g != h
      ensures FreeListView(s)[g].Disjoint(FreeListView(s)[h])
    {
      FreeListLive(s, g);
      FreeListLive(s, h);
      FreeListApart(s, s.live[g], s.live[h]);
    }
  }

  lemma FreeListAllocate(s: FL.FreeList, size: nat, alignment: nat, mem: Requests.Memory, junk: nat)
    requires FL.Inv(s) && FL.Answers(s, FL.Need(size), mem)
    ensures var (s', r) := FL.Allocate(s, size, alignment, mem, junk);
            FL.Inv(s') && Contract(FreeListView(s), CallAllocate, ReplyOf(r), FreeListView(s'))
  {
    hide FL.Geometry, FL.Books, FL.Allocate, FL.Answers, FL.Need, FL.GrantedWell;
    FL.AllocateKeeps(s, size, alignment, mem, junk);
    var (s', r) := FL.Allocate(s, size, alignment, mem, junk);
    if r.Granted? { FreeListGrant(s, size, Requests.Effective(alignment), s', r); }
  }

  lemma FreeListGrant(s: FL.FreeList, size: nat, align: nat, s': FL.FreeList, r: Outcome)
    requires FL.Inv(s) && FL.Inv(s') && r.Granted? && FL.GrantedWell(s, size, align, s', r)
    ensures Contract(FreeListView(s), CallAllocate, ReplyOf(r), FreeListView(s'))
  {
    hide FL.Inv, FB.Apart;
    var a := s'.live[r.id];
    forall id | id in s.live ensures FreeListView(s)[id].Disjoint(FreeListPayload(s'.blocks, a)) {
      FreeListLive(s', id);
      FreeListLive(s', r.id);
      LiveApart(s', id, r.id);
      FreeListApart(s', s.live[id], a);
    }
    assert FreeListView(s') == FreeListView(s)[r.id := FreeListPayload(s'.blocks, a)];
  }

  lemma LiveApart(s: FL.FreeList, g: nat, h: nat)
    requires FL.Inv(s) && g in s.live && h in s.live && g != h
    ensures s.live[g] != s.live[h]
  {
    hide FL.Geometry, FB.Sum;
  }

  /** A defined free: the handle's region goes, the others stay. */
  lemma FreeListFree(s: FL.FreeList, id: nat)
    requires FL.Inv(s)
    ensures id in s.live ==> s.live[id] in s.blocks
    ensures var (s', r) := FL.Free(s, id);
            && FL.Inv(s')
            && (r != FL.Undefined ==>
                  Contract(FreeListView(s), CallFree(id),
                      if r == FL.Released then Succeeds else Fails, FreeListView(s')))
            && (id in s.live && r != FL.Undefined ==> r == FL.Released)
  {
    hide FL.Inv, FL.Free, FreeListPayload;
    FL.FreeKeeps(s, id);
    var (s', r) := FL.Free(s, id);
    if r == FL.Released {
      forall g | g in s'.live ensures FreeListPayload(s'.blocks, s'.live[g]) == FreeListPayload(s.blocks, s.live[g]) {
        assert s'.live[g] in s'.live.Values;
        SamePayload(s.blocks, s'.blocks, s'.live[g]);
      }
      assert FreeListView(s') == FreeListView(s) - {id};
    }
  }

  lemma SamePayload(m: FB.Blocks, m': FB.Blocks, a: nat)
    requires a in m && a in m' && m[a] == m'[a]
    ensures FreeListPayload(m', a) == FreeListPayload(m, a)
  {
  }

  // ---- segregated fit ----

  /** The payload behind a block's header. */
  function SegregatedPayload(m: SG.Blocks, a: nat): Region
  {
    Region(a + 16, if SG.SizeOf(m, a) >= 16 then SG.SizeOf(m, a) - 16 else 0)
  }

  function SegregatedView(s: SG.Segregated): View { map id | id in s.live :: SegregatedPayload(s.blocks, s.live[id]) }

  lemma SegregatedApart(m: SG.Blocks, a: nat, c: nat)
    requires SG.Apart(m, a, c) && SG.Apart(m, c, a) && a != c && a in m && c in m
    ensures SegregatedPayload(m, a).Disjoint(SegregatedPayload(m, c))
  {
  }

  lemma SegregatedLive(s: SG.Segregated, g: nat, h: nat)
    requires SG.Inv(s) && g in s.live && h in s.live && g != h
    ensures s.live[g] in s.blocks && s.live[h] in s.blocks && s.live[g] != s.live[h]
  {
    hide SG.Tiled, SG.Binned, Bits.Pow2;
    assert s.live[g] in s.live.Values && s.live[h] in s.live.Values;
  }

  lemma SegregatedDisjoint(s: SG.Segregated)
    requires SG.Inv(s)
    ensures RegionsDisjoint(SegregatedView(s))
  {
    hide SG.Inv, SG.Apart, SG.Tiled, SG.Binned, SegregatedPayload;
    SG.InvParts(s);
    SG.TiledApart(s.supers, s.blocks);
    forall g, h | g in s.live && h in s.live && g != h
      ensures SegregatedView(s)[g].Disjoint(SegregatedView(s)[h])
    {
      SegregatedLive(s, g, h);
      SegregatedApart(s.blocks, s.live[g], s.live[h]);
    }
  }

  lemma SegregatedAllocate(s: SG.Segregated, size: nat, alignment: nat, mem: Requests.Memory)
    requires SG.Inv(s) && SG.Answers(s, SG.Need(size), mem)
    ensures |s.bins| == s.maxBin + 1
    ensures var (s', r) := SG.Allocate(s, size, alignment, mem);
            SG.Inv(s') && Contract(SegregatedView(s), CallAllocate, ReplyOf(r), SegregatedView(s'))
  {
    hide SG.Tiled, SG.Binned, Injective, Bits.Pow2, SG.Allocate, SG.Answers, SG.Need, SG.GrantedWell, SG.Refines,
        SG.Balance,
      SegregatedPayload;
    SG.AllocateKeeps(s, size, alignment, mem);
    var (s', r) := SG.Allocate(s, size, alignment, mem);
    if r.Granted? {
      SegregatedGrant(s, size, Requests.Effective(alignment), s', r);
    } else {
      forall id | id in s.live ensures SegregatedPayload(s'.blocks, s.live[id]) ==
          SegregatedPayload(s.blocks, s.live[id]) {
        SegregatedKnown(s, id);
        SameSegregated(s.blocks, s'.blocks, s.live[id]);
      }
      assert SegregatedView(s') == SegregatedView(s);
    }
  }

  lemma SegregatedKnown(s: SG.Segregated, id: nat)
    requires SG.Inv(s) && id in s.live
    ensures s.live[id] in s.blocks
  {
    hide SG.Tiled, SG.Binned, Bits.Pow2;
    assert s.live[id] in s.live.Values;
  }

  lemma SameSegregated(m: SG.Blocks, m': SG.Blocks, a: nat)
    requires SG.SameBlock(m, m', a)
    ensures SegregatedPayload(m', a) == SegregatedPayload(m, a)
  {
  }

  lemma SegregatedGrant(s: SG.Segregated, size: nat, align: nat, s': SG.Segregated, r: Outcome)
    requires SG.Inv(s) && SG.Inv(s') && r.Granted? && SG.GrantedWell(s, size, align, s', r)
    ensures Contract(SegregatedView(s), CallAllocate, ReplyOf(r), SegregatedView(s'))
  {
    hide SG.Inv, SG.Apart;
    var a := s'.live[r.id];
    forall id | id in s.live ensures SegregatedView(s)[id].Disjoint(SegregatedPayload(s'.blocks, a)) {
      SegregatedLive(s', id, r.id);
      SegregatedApart(s'.blocks, s.live[id], a);
    }
    assert SegregatedView(s') == SegregatedView(s)[r.id := SegregatedPayload(s'.blocks, a)];
  }

  lemma SegregatedFree(s: SG.Segregated, id: nat)
    requires SG.Inv(s)
    ensures |s.bins| == s.maxBin + 1
    ensures var (s', r) := SG.Free(s, id);
            && SG.Inv(s')
            && Contract(SegregatedView(s), CallFree(id), if r == Status.Ok then Succeeds else Fails, SegregatedView(s'))
            && (id in s.live ==> r == Status.Ok)
  {
    hide SG.Inv, SG.Free, SG.Balance, SegregatedPayload;
    SG.FreeKeeps(s, id);
  }

  // ---- slab ----

  function SlabView(s: SL.SlabState): View { map id | id in s.live :: Region(s.live[id], s.l.objectSize) }

  lemma SlabDisjoint(s: SL.SlabState)
    requires SL.Inv(s)
    ensures RegionsDisjoint(SlabView(s))
  {
    hide SL.Fits, SL.Slots, SL.Inv;
    forall g, h | g in s.live && h in s.live && g != h ensures SlabView(s)[g].Disjoint(SlabView(s)[h]) {
      SlabLive(s, g, h);
      SL.HomeFound(s, s.live[g]);
      SL.HomeFound(s, s.live[h]);
      var i, j := SL.SlabOf(s.slabs, SL.PageOf(s.l, s.live[g])), SL.SlabOf(s.slabs, SL.PageOf(s.l, s.live[h]));
      SL.SlotsDisjoint(s.l, s.slabs[i].base, s.slabs[j].base, s.live[g], s.live[h]);
    }
  }

  lemma SlabLive(s: SL.SlabState, g: nat, h: nat)
    requires SL.Inv(s) && g in s.live && h in s.live && g != h
    ensures s.live[g] != s.live[h] && s.live[g] in s.live.Values && s.live[h] in s.live.Values && SL.Fits(s.l)
    ensures forall i :: 0 <= i < |s.slabs| ==> Bits.Aligned(s.slabs[i].base, s.l.pageLog)
  {
    hide SL.Fits, SL.Slots, SL.Housed, Bits.Aligned;
    forall i | 0 <= i < |s.slabs| ensures Bits.Aligned(s.slabs[i].base, s.l.pageLog) {
      assert SL.SlabOk(s.l, s.slabs[i], s.live.Values);
    }
  }

  lemma SlabAllocate(s: SL.SlabState, size: nat, alignment: nat, mem: Requests.Memory)
    requires SL.Inv(s) && SL.Answers(s, mem)
    ensures var (s', r) := SL.Allocate(s, size, alignment, mem);
            SL.Inv(s') && Contract(SlabView(s), CallAllocate, ReplyOf(r), SlabView(s'))
  {
    hide SL.Inv, SL.Allocate, SL.Answers, SL.Balance, SL.Housed;
    SL.AllocateKeeps(s, size, alignment, mem);
    SameLayout(s, size, alignment, mem);
  }

  lemma SameLayout(s: SL.SlabState, size: nat, alignment: nat, mem: Requests.Memory)
    ensures SL.Allocate(s, size, alignment, mem).0.l == s.l
  {
    hide SL.FirstFree, SL.AllSlots, SL.Pop;
  }

  lemma SlabFree(s: SL.SlabState, id: nat)
    requires SL.Inv(s)
    ensures var (s', r) := SL.Free(s, id);
            && SL.Inv(s')
            && Contract(SlabView(s), CallFree(id), if r == Status.Ok then Succeeds else Fails, SlabView(s'))
            && (id in s.live ==> r == Status.Ok)
  {
    hide SL.Inv, SL.Balance, SL.SlabOf, SL.PageOf, SL.Push;
    SL.FreeKeeps(s, id);
  }

  lemma SlabTrim(s: SL.SlabState)
    requires SL.Inv(s)
    ensures SL.Inv(SL.Trim(s)) && Contract(SlabView(s), CallTrim, Succeeds, SlabView(SL.Trim(s)))
  {
    hide SL.Inv, SL.Balance, SL.Kept, SL.Bytes;
    SL.TrimKeeps(s);
  }

  // ---- the header writes, as bytes ----

  /** The header and footer writes of the free-list class spare the payloads it leaves alone. */
  lemma FreeListBytesSpare(m: FB.Blocks, live: map<nat, nat>, h: FM.Headers, h': FM.Headers, ft: FM.Footers,
      ft': FM.Footers, mem: Memory, mem': Memory)
    requires live.Values <= m.Keys && FM.Untouched(h, h', ft, ft', m, live.Values)
    requires forall x: nat {:trigger mem'(x)} :: mem'(x) != mem(x) ==>
               (exists y: nat :: FM.HeaderChanged(h, h', y) && y <= x < y + 48)
               || exists y: nat :: FM.FooterChanged(ft, ft', y) && y <= x < y + 16
    ensures Spares(map id | id in live :: FreeListPayload(m, live[id]), mem, mem')
  {
    forall id, x: nat | id in live && FreeListPayload(m, live[id]).Covers(x) ensures mem'(x) == mem(x) {
      assert live[id] in live.Values;
      assert FM.Spares(h, h', ft, ft', live[id], live[id] + m[live[id]].size);
    }
  }

  /** The header writes of the segregated class spare the payloads it leaves alone. */
  lemma SegregatedBytesSpare(m: SG.Blocks, live: map<nat, nat>, h: SA.Headers, h': SA.Headers, mem: Memory,
      mem': Memory)
    requires live.Values <= m.Keys && SA.Untouched(h, h', m, live.Values)
    requires forall x: nat {:trigger mem'(x)} :: mem'(x) != mem(x) ==>
               exists y: nat :: SA.Changed(h, h', y) && y <= x < y + 24
    ensures Spares(map id | id in live :: SegregatedPayload(m, live[id]), mem, mem')
  {
    forall id, x: nat | id in live && SegregatedPayload(m, live[id]).Covers(x) ensures mem'(x) == mem(x) {
      assert live[id] in live.Values;
    }
  }

  // ---- payload writes leave the allocators' own bytes alone ----

  /** No payload byte is in the header of any buddy block, free or live. */
  lemma BuddyTagsApart(b: BM.Buddy, id: nat, c: BB.Blk, x: int)
    requires BM.Inv(b) && id in b.live && c in b.free + b.Busy() && Payload(b.live[id]).Covers(x)
    ensures x < c.off || c.off + 16 <= x
  {
    hide BM.Books, BB.Maximal, BB.Total, Bits.Aligned;
    assert b.live[id] in b.Busy() && !BM.Down(b);
    assert BM.Partition(b);
    if c != b.live[id] { assert c.Disjoint(b.live[id]); }
  }

  /** No payload byte is in the header, with its link, or in the footer of any free-list block. */
  lemma FreeListTagsApart(s: FL.FreeList, id: nat, a: nat, x: int)
    requires FL.Inv(s) && id in s.live && a in s.blocks && FreeListPayload(s.blocks, s.live[id]).Covers(x)
    ensures x < a || a + 48 <= x
    ensures x < FM.FooterAt(s.blocks, a) || FM.FooterAt(s.blocks, a) + 16 <= x
  {
    hide FL.Geometry, FB.Sum, Injective;
    FreeListLive(s, id);
    FL.InvApart(s);
    BlockRoom(s, a);
    var l := s.live[id];
    assert FB.Apart(s.blocks, a, l) && FB.Apart(s.blocks, l, a);
  }

  lemma BlockRoom(s: FL.FreeList, a: nat)
    requires FL.Inv(s) && a in s.blocks
    ensures s.blocks[a].size >= 64
  {
    hide FB.Sum;
    assert FB.Within(s.supers, a, s.blocks[a]);
  }

  /** No payload byte is in the magic number or size of any segregated block, nor in the whole header of one
      that is not live. */
  lemma SegregatedTagsApart(s: SG.Segregated, id: nat, a: nat, x: int)
    requires SG.Inv(s) && id in s.live && a in s.blocks && SegregatedPayload(s.blocks, s.live[id]).Covers(x)
    requires s.blocks[a] >= 24
    ensures x < a || a + 16 <= x
    ensures a !in s.live.Values ==> x < a || a + 24 <= x
  {
    hide SG.Inv, SG.Tiled;
    SegregatedKnown(s, id);
    SG.InvParts(s);
    SG.TiledApart(s.supers, s.blocks);
    var l := s.live[id];
    assert SG.Apart(s.blocks, a, l) && SG.Apart(s.blocks, l, a);
  }
}
