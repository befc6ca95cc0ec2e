/** The buddy allocator as the source keeps it: per-order address sets, the live table and
    block headers in memory, updated in place and proved to follow BuddyModel. */
module BuddyAllocator {
  import opened Bits
  import Sums
  import opened BuddyBlocks
  import opened BuddyModel
  import opened AllocTypes

  const MAGIC_FREE: nat := 0xB0DDF0E0
  const MAGIC_BUSY: nat := 0xB0D0B0D0

  datatype Header = Header(magic: nat, order: nat, inUse: bool)
  datatype Entry = Entry(addr: nat, size: nat)

  /** The free blocks recorded in the per-order sets. */
  ghost function FreeOf(free: seq<set<nat>>): set<Blk>
  {
    set o: nat, x: nat | o < |free| && x in free[o] :: Blk(x, o)
  }

  /** The live blocks: the address from the table, the order from the header found there. */
  ghost function LiveOf(live: map<nat, Entry>, headers: map<nat, Header>): map<nat, Blk>
  {
    map id | id in live ::
      Blk(live[id].addr, if live[id].addr in headers then headers[live[id].addr].order else 0)
  }

  lemma InFreeOf(free: seq<set<nat>>, b: Blk)
    ensures b in FreeOf(free) <==> b.order < |free| && b.off in free[b.order]
  {
    if b.order < |free| && b.off in free[b.order] { assert Blk(b.off, b.order) == b; }
  }

  lemma FreeOfRemove(free: seq<set<nat>>, o: nat, x: nat)
    requires o < |free|
    ensures FreeOf(free[o := free[o] - {x}]) == FreeOf(free) - {Blk(x, o)}
  {
    hide FreeOf;
    forall b ensures b in FreeOf(free[o := free[o] - {x}]) <==> b in FreeOf(free) - {Blk(x, o)} {
      InFreeOf(free[o := free[o] - {x}], b);
      InFreeOf(free, b);
    }
  }

  lemma FreeOfAdd(free: seq<set<nat>>, o: nat, x: nat)
    requires o < |free|
    ensures FreeOf(free[o := free[o] + {x}]) == FreeOf(free) + {Blk(x, o)}
  {
    hide FreeOf;
    forall b ensures b in FreeOf(free[o := free[o] + {x}]) <==> b in FreeOf(free) + {Blk(x, o)} {
      InFreeOf(free[o := free[o] + {x}], b);
      InFreeOf(free, b);
    }
  }

  lemma EmptyFreeOf(free: seq<set<nat>>)
    requires forall o :: 0 <= o < |free| ==> free[o] == {}
    ensures FreeOf(free) == {}
  {
  }

  /** The first element in address order, `*set.begin()`. */
  method Lowest(s: set<nat>) returns (m: nat)
    requires s != {}
    ensures m in s && forall x :: x in s ==> m <= x
  {
    m :| m in s;
    var rest := s - {m};
    while rest != {}
      invariant rest <= s && m in s && forall x :: x in s && x !in rest ==> m <= x
      decreases rest
    {
      var x :| x in rest;
      rest := rest - {x};
      if x < m { m := x; }
    }
  }

  ghost predicate Changed(h: map<nat, Header>, h': map<nat, Header>, x: nat)
  {
    !(x in h <==> x in h') || (x in h && h[x] != h'[x])
  }

  /** Every header written between h and h' lies, with all its 16 bytes, outside the blocks in `busy`. */
  ghost predicate Untouched(h: map<nat, Header>, h': map<nat, Header>, busy: set<Blk>)
  {
    forall b, x: nat :: b in busy && Changed(h, h', x) ==> x + HEADER <= b.off || b.End() <= x
  }

  lemma UntouchedRefl(h: map<nat, Header>, busy: set<Blk>)
    ensures Untouched(h, h, busy)
  {
  }

  lemma UntouchedTrans(h0: map<nat, Header>, h1: map<nat, Header>, h2: map<nat, Header>, busy: set<Blk>)
    requires Untouched(h0, h1, busy) && Untouched(h1, h2, busy)
    ensures Untouched(h0, h2, busy)
  {
    forall b, x: nat | b in busy && Changed(h0, h2, x) ensures x + HEADER <= b.off || b.End() <= x {
      assert Changed(h0, h1, x) || Changed(h1, h2, x);
    }
  }

  ghost predicate FreeHeaders(free: set<Blk>, headers: map<nat, Header>)
  {
    forall b :: b in free ==> b.off in headers && headers[b.off] == Header(MAGIC_FREE, b.order, false)
  }

  ghost predicate LiveHeaders(live: map<nat, Entry>, headers: map<nat, Header>)
  {
    forall id :: id in live ==>
      var a := live[id].addr;
      && a in headers && headers[a] == Header(MAGIC_BUSY, headers[a].order, true)
      && live[id].size + 16 == Pow2(headers[a].order)
  }

  class BuddyAllocator {
    const max: Order
    const arena: bool
    var free: seq<set<nat>>
    var live: map<nat, Entry>
    var headers: map<nat, Header>
    var nextId: nat
    var n: Counters

    ghost function State(): Buddy
      reads this
    {
      Buddy(max, arena, FreeOf(free), LiveOf(live, headers), nextId, n)
    }

    ghost predicate Valid()
      reads this
    {
      && |free| == max + 1
      && Inv(State())
      && FreeHeaders(FreeOf(free), headers)
      && LiveHeaders(live, headers)
    }

    constructor (arenaLog2: Order, obtained: bool)
      ensures Valid() && max == arenaLog2 && arena == obtained && State() == Init(arenaLog2, obtained)
    {
      hide Inv, Total, FreeOf, LiveOf, FreeHeaders, LiveHeaders;
      max, arena := arenaLog2, obtained;
      var empty: seq<set<nat>> := seq(arenaLog2 + 1, i => {});
      free := if obtained then empty[arenaLog2 := empty[arenaLog2] + {0}] else empty;
      headers := if obtained then map[0 := Header(MAGIC_FREE, arenaLog2, false)] else map[];
      live, nextId := map[], 0;
      n := Counters(0, 0, 0, 0, 0, 0, 0, 0, 0, 0, 0);
      new;
      NoLive(headers);
      NoHeaders(headers);
      SoloHeader(headers, max, arena);
      InitInv(max, arena);
      EmptyFreeOf(empty);
      if arena { FreeOfAdd(empty, max, 0); }
      assert State() == Init(max, arena);
    }

    /** The split loop: halve the block until it has the requested order. */
    method Split(block: nat, from: nat, to: nat)
      requires |free| == max + 1 && 5 <= to <= from <= max && Blk(block, from) in FreeOf(free)
      requires Tiling(FreeOf(free) + State().Busy(), max) && FreeOf(free) !! State().Busy()
      requires FreeHeaders(FreeOf(free), headers)
      modifies this`free, this`headers, this`n
      ensures |free| == max + 1 && FreeOf(free) == SplitDown(old(FreeOf(free)), Blk(block, from), to)
      ensures FreeHeaders(FreeOf(free), headers)
      ensures Untouched(old(headers), headers, old(State().Busy()))
      ensures n == old(n).(splits := old(n).splits + (from - to))
    {
      hide Tiling, FreeOf, FreeHeaders, Untouched, SplitDown;
      var o := from;
      ghost var busy := State().Busy();
      UntouchedRefl(headers, busy);
      while o > to
        invariant to <= o <= from && |free| == max + 1
        invariant Blk(block, o) in FreeOf(free)
        invariant SplitDown(FreeOf(free), Blk(block, o), to) == SplitDown(old(FreeOf(free)), Blk(block, from), to)
        invariant Tiling(FreeOf(free) + busy, max) && FreeOf(free) !! busy
        invariant FreeHeaders(FreeOf(free), headers)
        invariant Untouched(old(headers), headers, busy)
        invariant n == old(n).(splits := old(n).splits + (from - o))
      {
        ghost var b := Blk(block, o);
        ghost var f0, h0 := FreeOf(free), headers;
        SplitOnce(f0, busy, b, max);
        SplitDownUnfold(f0, b, to);
        o := o - 1;
        FreeOfRemove(free, o + 1, block);
        free := free[o + 1 := free[o + 1] - {block}];
        var half := Pow2(o);
        headers := headers[block := Header(MAGIC_FREE, o, false)];
        FreeOfAdd(free, o, block);
        free := free[o := free[o] + {block}];
        var buddy := block + half;
        headers := headers[buddy := Header(MAGIC_FREE, o, false)];
        FreeOfAdd(free, o, buddy);
        free := free[o := free[o] + {buddy}];
        n := n.(splits := n.splits + 1);
        assert FreeOf(free) == f0 - {b} + {b.Low(), b.High()};
        SplitHeaders(f0, busy, b, max, h0, headers);
        UntouchedTrans(old(headers), h0, headers, busy);
      }
      SplitDownDone(FreeOf(free), Blk(block, to), to);
    }

    /** The merge loop: while the buddy is in the free set of its order, take it out and
        continue with the doubled block; then put the result back. */
    method Coalesce(block: nat, order: nat, ghost busy: set<Blk>)
      requires |free| == max + 1 && order >= 5
      requires Tiling(FreeOf(free) + {Blk(block, order)} + busy, max)
      requires Blk(block, order) !in FreeOf(free) && FreeOf(free) !! busy && Blk(block, order) !in busy
      requires FreeHeaders(FreeOf(free), headers)
      modifies this`free, this`headers, this`n
      ensures |free| == max + 1
      ensures FreeOf(free) == BuddyBlocks.Coalesce(old(FreeOf(free)), Blk(block, order), max)
      ensures FreeHeaders(FreeOf(free), headers)
      ensures Untouched(old(headers), headers, busy)
      ensures n == old(n).(merges := old(n).merges + Merges(old(FreeOf(free)), Blk(block, order), max))
    {
      hide Tiling, FreeOf, FreeHeaders, Untouched, BuddyBlocks.Coalesce, Merges;
      var o: nat, b: nat := order, block;
      BlockFits(FreeOf(free), busy, Blk(block, order), max);
      while o < max
        invariant 5 <= o <= max && |free| == max + 1
        invariant BuddyBlocks.Coalesce(FreeOf(free), Blk(b, o), max)
               == BuddyBlocks.Coalesce(old(FreeOf(free)), Blk(block, order), max)
        invariant n.merges + Merges(FreeOf(free), Blk(b, o), max)
               == old(n).merges + Merges(old(FreeOf(free)), Blk(block, order), max)
        invariant n == old(n).(merges := n.merges) && headers == old(headers)
        invariant Tiling(FreeOf(free) + {Blk(b, o)} + busy, max)
        invariant Blk(b, o) !in FreeOf(free) && FreeOf(free) !! busy && Blk(b, o) !in busy
        invariant FreeHeaders(FreeOf(free), headers)
      {
        var sz := Pow2(o);
        var boff := Xor(b, sz);
        ghost var c, f0 := Blk(b, o), FreeOf(free);
        BuddyInArena(f0, busy, c, max);
        if boff >= Pow2(max) { break; }
        InFreeOf(free, Blk(boff, o));
        if boff !in free[o] { break; }
        CoalesceUnfold(f0, c, max);
        CoalesceOnce(f0, busy, c, max);
        FreeOfRemove(free, o, boff);
        free := free[o := free[o] - {boff}];
        FewerHeaders(f0, FreeOf(free), headers);
        if boff < b { b := boff; }
        o := o + 1;
        n := n.(merges := n.merges + 1);
      }
      CoalesceDone(FreeOf(free), Blk(b, o), max);
      LastHeader(FreeOf(free), busy, Blk(b, o), max, headers);
      headers := headers[b := Header(MAGIC_FREE, o, false)];
      FreeOfAdd(free, o, b);
      free := free[o := free[o] + {b}];
    }

    method Allocate(size: u64, alignment: u64) returns (r: Outcome)
      requires Valid()
      modifies this
      ensures Valid()
      ensures (State(), r) == BuddyModel.Allocate(old(State()), size, alignment)
      ensures Untouched(old(headers), headers, old(State()).Busy())
    {
      hide Inv, FreeOf, LiveOf, FreeHeaders, LiveHeaders, Untouched, IsPowerOfTwo, OrderFor, Grant;
      hide BuddyModel.Allocate, Need, SearchHit, BestFit, GrantedWell, Partition, GrantedBytes, Balance, Pow2;
      ghost var s := State();
      UntouchedRefl(headers, s.Busy());
      AllocateCases(s, size, alignment);
      AllocateKeeps(s, size, alignment);
      if !arena { return Failed(InitFailed); }
      if size > Pow2(max) - HEADER { return Failed(SizeTooLarge); }
      if alignment != 0 && (!IsPowerOfTwo(alignment) || alignment > 16) { return Failed(AlignmentUnsupported); }
      NeedWithin(size, max);
      OrderForIs(size);
      var order := CeilLogLoop(Need(size));
      var block, found, hit := FindBlock(order);
      if !hit {
        n := n.(failures := n.failures + 1);
        return Failed(CapacityExceeded);
      }
      AllocateServes(s, size, alignment, Blk(block, found));
      r := Take(size, block, found, order);
    }

    /** The granting half of allocate: split the block, mark the piece busy and record it. */
    method Take(size: nat, block: nat, found: nat, order: nat) returns (r: Outcome)
      requires Valid() && Blk(block, found) in FreeOf(free) && order == OrderFor(size) && order <= found <= max
      modifies this
      ensures |free| == max + 1
      ensures FreeHeaders(FreeOf(free), headers) && LiveHeaders(live, headers)
      ensures State() == Grant(old(State()), size, Blk(block, found))
      ensures r == Granted(old(nextId) + 1, block + HEADER, GrantedBytes(size), 16, old(n).freed > 0)
      ensures Untouched(old(headers), headers, old(State()).Busy())
    {
      hide Inv, FreeOf, LiveOf, FreeHeaders, LiveHeaders, Untouched, OrderFor, Tiling, SplitDown;
      ghost var s, b := State(), Blk(block, found);
      GrantReady(s, b, order);
      NeedBounds(size);
      LiveOfKeys(live, headers);
      Split(block, found, order);
      ghost var h1 := headers;
      FreeOfRemove(free, order, block);
      free := free[order := free[order] - {block}];
      var granted := GrantedBytes(size);
      headers := headers[block := Header(MAGIC_BUSY, order, true)];
      TakenHeader(s, b, order, h1, headers);
      UntouchedTrans(old(headers), h1, headers, s.Busy());
      var id := nextId + 1;
      LiveOfAdd(live, old(headers), id, Entry(block, granted), headers);
      n := n.(success := n.success + 1,
              liveCount := n.liveCount + 1, peakCount := Max(n.liveCount + 1, n.peakCount),
              liveBytes := n.liveBytes + granted, peakBytes := Max(n.liveBytes + granted, n.peakBytes),
              requested := n.requested + size, granted := n.granted + granted);
      live := live[id := Entry(block, granted)];
      nextId := id;
      r := Granted(id, block + HEADER, granted, 16, n.freed > 0);
    }

    /** Look up a live id: its payload address and the size its header grants. */
    method Query(handle: nat) returns (r: Status, addr: nat, size: nat, granted: nat)
      requires Valid()
      ensures r == Ok <==> handle in State().live
      ensures r == Ok ==> addr == State().live[handle].off + HEADER
      ensures r == Ok ==> size == granted == State().live[handle].Size() - HEADER
    {
      hide Inv, FreeOf, FreeHeaders;
      LiveOfKeys(live, headers);
      r, addr, size, granted := Err(InvalidHandle), 0, 0, 0;
      if handle in live {
        LiveOfAt(live, headers, handle);
        var block := live[handle].addr;
        r, addr, size := Ok, block + HEADER, live[handle].size;
        granted := Pow2(headers[block].order) - HEADER;
      }
    }

    /** collect_fragmentation: free bytes, largest free span and span count over all orders. */
    method CollectFragmentation() returns (freeBytes: nat, largest: nat, count: nat)
      requires Valid()
      ensures freeBytes == Total(State().free) && count == |State().free|
      ensures State().free == {} ==> largest == 0
      ensures forall b :: b in State().free ==> b.Size() <= largest
      ensures State().free != {} ==> exists b :: b in State().free && b.Size() == largest
    {
      hide Inv, LiveOf, FreeHeaders, LiveHeaders, FreeOf, Total;
      freeBytes, largest, count := 0, 0, 0;
      var o := 0;
      NoneBelow(FreeOf(free));
      while o <= max
        invariant o <= max + 1
        invariant freeBytes == Total(Below(FreeOf(free), o)) && count == |Below(FreeOf(free), o)|
        invariant Below(FreeOf(free), o) == {} ==> largest == 0
        invariant forall b :: b in Below(FreeOf(free), o) ==> b.Size() <= largest
        invariant Below(FreeOf(free), o) != {} ==> exists b :: b in Below(FreeOf(free), o) && b.Size() == largest
      {
        var sz, k := Pow2(o), |free[o]|;
        BelowNext(free, o);
        freeBytes, count := freeBytes + sz * k, count + k;
        if k > 0 && sz > largest { largest := sz; }
        o := o + 1;
      }
      AllBelow(free);
    }

    /** Search the orders upwards for the first non-empty set and take its lowest address. */
    method FindBlock(order: nat) returns (block: nat, found: nat, hit: bool)
      requires |free| == max + 1
      ensures hit <==> SearchHit(FreeOf(free), order)
      ensures hit ==> found <= max && BestFit(FreeOf(free), order, Blk(block, found))
    {
      block, found, hit := 0, order, false;
      var o := order;
      while o <= max
        invariant o >= order
        invariant forall b :: b in FreeOf(free) && b.order >= order ==> b.order >= o
      {
        if free[o] != {} {
          block := Lowest(free[o]);
          found, hit := o, true;
          InFreeOf(free, Blk(block, o));
          forall c | c in FreeOf(free) && c.order >= order
            ensures o < c.order || (o == c.order && block <= c.off)
          {
            InFreeOf(free, c);
          }
          assert BestFit(FreeOf(free), order, Blk(block, o));
          return;
        }
        forall b | b in FreeOf(free) && b.order >= order ensures b.order >= o + 1 { InFreeOf(free, b); }
        o := o + 1;
      }
      forall b | b in FreeOf(free) ensures b.order < order { InFreeOf(free, b); }
    }

    method Free(handle: nat) returns (r: Status)
      requires Valid()
      modifies this
      ensures Valid()
      ensures (State(), r) == BuddyModel.Free(old(State()), handle)
      ensures Untouched(old(headers), headers, (old(State()).live - {handle}).Values)
    {
      hide Inv, FreeOf, LiveOf, FreeHeaders, LiveHeaders, Untouched, Release;
      ghost var s := State();
      LiveOfKeys(live, headers);
      UntouchedRefl(headers, (s.live - {handle}).Values);
      if handle !in live { return Err(InvalidHandle); }
      var e := live[handle];
      LiveOfAt(live, headers, handle);
      var h := headers[e.addr];
      if h.magic != MAGIC_BUSY { return Err(DoubleFree); }
      FreeKeeps(s, handle);
      Return(handle, e, h.order);
      r := Ok;
    }

    /** The releasing half of free: clear the header, drop the entry, coalesce. */
    method Return(handle: nat, e: Entry, order: nat)
      requires Valid() && handle in live && live[handle] == e && e.addr in headers && headers[e.addr].order == order
      modifies this
      ensures |free| == max + 1
      ensures FreeHeaders(FreeOf(free), headers) && LiveHeaders(live, headers)
      ensures handle in old(State()).live && State() == Release(old(State()), handle)
      ensures Untouched(old(headers), headers, (old(State()).live - {handle}).Values)
    {
      hide Inv, FreeOf, LiveOf, FreeHeaders, LiveHeaders, Untouched, Tiling, BuddyBlocks.Coalesce, Merges;
      ghost var s := State();
      LiveOfKeys(live, headers);
      LiveOfAt(live, headers, handle);
      ghost var b := s.live[handle];
      ghost var rest := s.Busy() - {b};
      FreeReady(s, handle);
      headers := headers[e.addr := Header(MAGIC_FREE, order, false)];
      ghost var h1 := headers;
      FreedHeader(s.free, rest, b, max, old(headers), h1);
      n := n.(freed := n.freed + 1);
      Coalesce(e.addr, order, rest);
      UntouchedTrans(old(headers), h1, headers, rest);
      LiveOfRemove(live, old(headers), handle, headers);
      live := live - {handle};
      n := n.(liveCount := if n.liveCount > 0 then n.liveCount - 1 else 0,
              liveBytes := if n.liveBytes >= e.size then n.liveBytes - e.size else n.liveBytes);
    }

    method Reset()
      requires Valid()
      modifies this
      ensures Valid() && State() == BuddyModel.Reset(old(State()))
    {
      hide Inv, FreeHeaders, LiveHeaders, FreeOf, LiveOf;
      ResetKeeps(State());
      NoLive(headers);
      var empty: seq<set<nat>> := seq(|free|, i => {});
      EmptyFreeOf(empty);
      free := empty;
      live := map[];
      n := n.(liveCount := 0, liveBytes := 0);
      if arena {
        headers := headers[0 := Header(MAGIC_FREE, max, false)];
        FreeOfAdd(empty, max, 0);
        free := free[max := free[max] + {0}];
      }
      assert FreeOf(free) == if arena then {Blk(0, max)} else {};
      assert FreeHeaders(FreeOf(free), headers) by { SoloHeader(headers, max, arena); }
      assert LiveHeaders(live, headers) by { NoHeaders(headers); }
      assert State() == BuddyModel.Reset(old(State()));
    }
  }

  // ---- the fragmentation sums ----

  ghost function Below(s: set<Blk>, o: nat): set<Blk> { set b | b in s && b.order < o }
  ghost function At(s: set<Blk>, o: nat): set<Blk> { set b | b in s && b.order == o }

  lemma NoneBelow(s: set<Blk>)
    ensures Below(s, 0) == {} && Total(Below(s, 0)) == 0
  {
  }

  lemma AllBelow(free: seq<set<nat>>)
    ensures Below(FreeOf(free), |free|) == FreeOf(free)
  {
  }

  /** A set of n equal-sized blocks counts n times that size. */
  lemma {:induction false} TotalUniform(s: set<Blk>, o: nat)
    requires forall b :: b in s ==> b.order == o
    ensures Total(s) == Pow2(o) * |s|
    decreases |s|
  {
    if s != {} {
      var b :| b in s;
      TotalRemove(s, b);
      TotalUniform(s - {b}, o);
      assert Pow2(o) * |s| == Pow2(o) * |s - {b}| + Pow2(o);
    }
  }

  lemma {:induction false} AtCount(xs: set<nat>, s: set<Blk>, o: nat)
    requires forall b :: b in s <==> b.order == o && b.off in xs
    ensures |s| == |xs|
    decreases |xs|
  {
    if x :| x in xs {
      assert Blk(x, o) in s;
      AtCount(xs - {x}, s - {Blk(x, o)}, o);
    } else {
      assert s == {};
    }
  }

  lemma BelowNext(free: seq<set<nat>>, o: nat)
    requires o < |free|
    ensures var s := FreeOf(free);
            && Below(s, o + 1) == Below(s, o) + At(s, o)
            && Total(Below(s, o + 1)) == Total(Below(s, o)) + Pow2(o) * |free[o]|
            && |Below(s, o + 1)| == |Below(s, o)| + |free[o]| && |At(s, o)| == |free[o]|
            && forall b :: b in At(s, o) ==> b.Size() == Pow2(o)
  {
    var s := FreeOf(free);
    assert Below(s, o + 1) == Below(s, o) + At(s, o);
    Sums.SumUnion(Below(s, o), At(s, o), Sizes());
    forall b ensures b in At(s, o) <==> b.order == o && b.off in free[o] { InFreeOf(free, b); }
    AtCount(free[o], At(s, o), o);
    TotalUniform(At(s, o), o);
  }

  // ---- steps of the proofs above ----

  lemma SplitDownUnfold(free: set<Blk>, b: Blk, k: nat)
    requires b.order > k
    ensures SplitDown(free, b, k) == SplitDown(free - {b} + {b.Low(), b.High()}, b.Low(), k)
  {
  }

  lemma SplitDownDone(free: set<Blk>, b: Blk, k: nat)
    requires b.order <= k
    ensures SplitDown(free, b, k) == free
  {
  }

  lemma CoalesceUnfold(free: set<Blk>, b: Blk, max: nat)
    requires b.order < max && b.Buddy() in free
    ensures BuddyBlocks.Coalesce(free, b, max) == BuddyBlocks.Coalesce(free - {b.Buddy()}, b.Parent(), max)
    ensures Merges(free, b, max) == 1 + Merges(free - {b.Buddy()}, b.Parent(), max)
  {
  }

  lemma CoalesceDone(free: set<Blk>, b: Blk, max: nat)
    requires b.order >= max || b.Buddy() !in free
    ensures BuddyBlocks.Coalesce(free, b, max) == free + {b} && Merges(free, b, max) == 0
  {
  }

  lemma BlockFits(free: set<Blk>, busy: set<Blk>, b: Blk, max: nat)
    requires Tiling(free + {b} + busy, max)
    ensures b.order <= max
  {
    assert Fits(b, max);
  }

  lemma BuddyInArena(free: set<Blk>, busy: set<Blk>, b: Blk, max: nat)
    requires Tiling(free + {b} + busy, max) && b.order < max
    ensures b.Buddy().off < Pow2(max)
  {
    assert Fits(b, max);
    ParentInArena(b, max);
  }

  lemma FewerHeaders(free: set<Blk>, free': set<Blk>, h: map<nat, Header>)
    requires FreeHeaders(free, h) && free' <= free
    ensures FreeHeaders(free', h)
  {
  }

  /** A header at the start of a block of 32 bytes or more stays clear of every disjoint block. */
  lemma HeaderInside(b: Blk, c: Blk)
    requires b.order >= 5 && c.Disjoint(b)
    ensures b.off + HEADER <= c.off || c.End() <= b.off
  {
    Pow2Word();
    Pow2Mono(5, b.order);
  }

  lemma LastHeader(free: set<Blk>, busy: set<Blk>, b: Blk, max: nat, h: map<nat, Header>)
    requires Tiling(free + {b} + busy, max) && b !in free && b !in busy && FreeHeaders(free, h) && b.order >= 5
    ensures var h' := h[b.off := Header(MAGIC_FREE, b.order, false)];
            FreeHeaders(free + {b}, h') && Untouched(h, h', busy)
  {
    var h' := h[b.off := Header(MAGIC_FREE, b.order, false)];
    forall c | c in free ensures c.off != b.off { assert c.Disjoint(b); }
    forall c, x: nat | c in busy && Changed(h, h', x) ensures x + HEADER <= c.off || c.End() <= x {
      assert x == b.off && c.Disjoint(b);
      HeaderInside(b, c);
    }
  }

  lemma SplitHeaders(free: set<Blk>, busy: set<Blk>, b: Blk, max: nat, h: map<nat, Header>, h': map<nat, Header>)
    requires Tiling(free + busy, max) && free !! busy && b in free && b.order > 5
    requires FreeHeaders(free, h)
    requires h' == h[b.off := Header(MAGIC_FREE, b.order - 1, false)]
        [b.High().off := Header(MAGIC_FREE, b.order - 1, false)]
    ensures FreeHeaders(free - {b} + {b.Low(), b.High()}, h')
    ensures Untouched(h, h', busy)
  {
    var l, g := b.Low(), b.High();
    assert b.End() == g.End();
    forall c | c in free && c != b ensures c.off != b.off && c.off != g.off { assert c.Disjoint(b); }
    forall c, x: nat | c in busy && Changed(h, h', x) ensures x + HEADER <= c.off || c.End() <= x {
      assert c.Disjoint(b);
      assert c.Disjoint(l) && c.Disjoint(g);
      assert x == l.off || x == g.off;
      HeaderInside(l, c);
      HeaderInside(g, c);
    }
  }

  lemma SoloHeader(h: map<nat, Header>, max: nat, arena: bool)
    ensures FreeHeaders({}, h)
    ensures 0 in h && h[0] == Header(MAGIC_FREE, max, false) ==> FreeHeaders({Blk(0, max)}, h)
  {
  }

  lemma NoLive(h: map<nat, Header>)
    ensures forall h': map<nat, Header> :: LiveOf(map[], h') == map[]
  {
  }

  lemma NoHeaders(h: map<nat, Header>)
    ensures LiveHeaders(map[], h)
  {
  }

  lemma OrderForIs(size: nat)
    ensures OrderFor(size) == CeilLog(Need(size))
  {
  }

  lemma NeedWithin(size: nat, max: Order)
    requires size <= Pow2(max) - HEADER
    ensures Need(size) <= Pow2(63)
  {
    Pow2Mono(max, 63);
    Pow2Mono(5, 63);
    if max >= 5 { NeedFits(size, max); } else { var q := NeedBlocks(size); Pow2Word(); }
  }

  /** The branches of the specification, for a request that is refused or finds no block. */
  lemma AllocateCases(s: Buddy, size: nat, alignment: nat)
    ensures !s.arena ==> Allocate(s, size, alignment) == (s, Failed(InitFailed))
    ensures s.arena && size > Pow2(s.max) - HEADER ==> Allocate(s, size, alignment) == (s, Failed(SizeTooLarge))
    ensures s.arena && size <= Pow2(s.max) - HEADER && alignment != 0 && (!IsPowerOfTwo(alignment) || alignment > 16)
            ==> Allocate(s, size, alignment) == (s, Failed(AlignmentUnsupported))
    ensures s.arena && Legal(s, size, alignment) && !SearchHit(s.free, OrderFor(size))
            ==> Allocate(s, size, alignment)
                == (s.(n := s.n.(failures := s.n.failures + 1)), Failed(CapacityExceeded))
  {
    hide OrderFor, IsPowerOfTwo, Grant, SearchHit;
  }

  lemma AllocateServes(s: Buddy, size: nat, alignment: nat, b: Blk)
    requires s.arena && Legal(s, size, alignment) && BestFit(s.free, OrderFor(size), b)
    ensures Allocate(s, size, alignment)
         == (Grant(s, size, b), Granted(s.nextId + 1, b.off + HEADER, GrantedBytes(size), 16, s.n.freed > 0))
    ensures b in s.free && b.order >= OrderFor(size)
  {
    hide OrderFor, IsPowerOfTwo, Grant;
    PickIs(s.free, OrderFor(size), b);
  }

  lemma PickIs(free: set<Blk>, k: nat, b: Blk)
    requires BestFit(free, k, b)
    ensures SearchHit(free, k) && Pick(free, k) == b
  {
  }

  lemma GrantReady(s: Buddy, b: Blk, k: nat)
    requires Inv(s) && b in s.free && b.order >= k
    ensures Tiling(s.free + s.Busy(), s.max) && s.free !! s.Busy()
    ensures s.nextId + 1 !in s.live
  {
    assert !Down(s);
  }

  lemma TakenHeader(s: Buddy, b: Blk, k: nat, h: map<nat, Header>, h': map<nat, Header>)
    requires Inv(s) && b in s.free && b.order >= k >= 5
    requires h' == h[b.off := Header(MAGIC_BUSY, k, true)]
    requires FreeHeaders(SplitDown(s.free, b, k), h)
    ensures FreeHeaders(SplitDown(s.free, b, k) - {Blk(b.off, k)}, h')
    ensures Untouched(h, h', s.Busy())
  {
    hide SplitDown, PartitionOf, Books;
    assert !Down(s);
    CutTiling(s.free, s.Busy(), b, k, s.max);
    PieceHeader(SplitDown(s.free, b, k), s.Busy(), Blk(b.off, k), s.max, h, h');
  }

  lemma CutTiling(free: set<Blk>, busy: set<Blk>, b: Blk, k: nat, max: nat)
    requires PartitionOf(free, busy, max) && b in free && b.order >= k
    ensures Tiling(SplitDown(free, b, k) + busy, max) && SplitDown(free, b, k) !! busy
    ensures Blk(b.off, k) in SplitDown(free, b, k)
  {
    SplitDownKeeps(free, busy, b, k, max);
  }

  lemma PieceHeader(free: set<Blk>, busy: set<Blk>, p: Blk, max: nat, h: map<nat, Header>, h': map<nat, Header>)
    requires Tiling(free + busy, max) && free !! busy && p in free && FreeHeaders(free, h) && p.order >= 5
    requires h' == h[p.off := Header(MAGIC_BUSY, p.order, true)]
    ensures FreeHeaders(free - {p}, h') && Untouched(h, h', busy)
  {
    forall c | c in free && c != p ensures c.off != p.off { assert c.Disjoint(p); }
    forall c, x: nat | c in busy && Changed(h, h', x) ensures x + HEADER <= c.off || c.End() <= x {
      assert x == p.off && c.Disjoint(p);
      HeaderInside(p, c);
    }
  }

  lemma FreeReady(s: Buddy, handle: nat)
    requires Inv(s) && handle in s.live
    ensures var b := s.live[handle];
            && Tiling(s.free + {b} + (s.Busy() - {b}), s.max)
            && b !in s.free && s.free !! s.Busy() - {b}
            && (s.live - {handle}).Values == s.Busy() - {b} && b.order >= 5
  {
    assert !Down(s);
    var b := s.live[handle];
    assert b in s.Busy();
    assert s.free + {b} + (s.Busy() - {b}) == s.free + s.Busy();
    LiveRemove(s.live, handle);
  }

  lemma FreedHeader(free: set<Blk>, busy: set<Blk>, b: Blk, max: nat, h: map<nat, Header>, h': map<nat, Header>)
    requires Tiling(free + {b} + busy, max) && b !in free && b !in busy && FreeHeaders(free, h) && b.order >= 5
    requires h' == h[b.off := Header(MAGIC_FREE, b.order, false)]
    ensures FreeHeaders(free, h') && Untouched(h, h', busy)
  {
    LastHeader(free, busy, b, max, h);
  }

  lemma LiveOfKeys(live: map<nat, Entry>, h: map<nat, Header>)
    ensures LiveOf(live, h).Keys == live.Keys
  {
  }

  lemma LiveOfAt(live: map<nat, Entry>, h: map<nat, Header>, id: nat)
    requires LiveHeaders(live, h) && id in live
    ensures live[id].addr in h && h[live[id].addr].magic == MAGIC_BUSY
    ensures LiveOf(live, h)[id] == Blk(live[id].addr, h[live[id].addr].order)
    ensures live[id].size + 16 == Pow2(h[live[id].addr].order)
    ensures LiveOf(live, h)[id] in LiveOf(live, h).Values
    ensures LiveOf(live, h)[id].Covers(live[id].addr)
  {
  }

  lemma LiveUnchanged(live: map<nat, Entry>, h: map<nat, Header>, h': map<nat, Header>, busy: set<Blk>, id: nat)
    requires LiveHeaders(live, h) && id in live && Untouched(h, h', busy) && LiveOf(live, h)[id] in busy
    ensures live[id].addr in h' && h'[live[id].addr] == h[live[id].addr]
  {
    LiveOfAt(live, h, id);
    assert Changed(h, h', live[id].addr) || (live[id].addr in h' && h'[live[id].addr] == h[live[id].addr]);
  }

  lemma LiveOfAdd(live: map<nat, Entry>, h: map<nat, Header>, id: nat, e: Entry, h': map<nat, Header>)
    requires LiveHeaders(live, h) && Untouched(h, h', LiveOf(live, h).Values) && id !in live
    requires e.addr in h' && h'[e.addr] == Header(MAGIC_BUSY, h'[e.addr].order, true)
    requires e.size + 16 == Pow2(h'[e.addr].order)
    ensures LiveHeaders(live[id := e], h')
    ensures LiveOf(live[id := e], h') == LiveOf(live, h)[id := Blk(e.addr, h'[e.addr].order)]
  {
    hide Pow2, Untouched;
    forall i | i in live ensures live[i].addr in h' && h'[live[i].addr] == h[live[i].addr] {
      LiveOfAt(live, h, i);
      LiveUnchanged(live, h, h', LiveOf(live, h).Values, i);
    }
  }

  lemma LiveOfRemove(live: map<nat, Entry>, h: map<nat, Header>, id: nat, h': map<nat, Header>)
    requires LiveHeaders(live, h) && id in live
    requires Untouched(h, h', (LiveOf(live, h) - {id}).Values)
    ensures LiveHeaders(live - {id}, h')
    ensures LiveOf(live - {id}, h') == LiveOf(live, h) - {id}
  {
    hide Pow2, Untouched;
    var rest := LiveOf(live, h) - {id};
    forall i | i in live && i != id ensures live[i].addr in h' && h'[live[i].addr] == h[live[i].addr] {
      LiveOfAt(live, h, i);
      assert i in rest && rest[i] in rest.Values;
      LiveUnchanged(live, h, h', rest.Values, i);
    }
  }
}
