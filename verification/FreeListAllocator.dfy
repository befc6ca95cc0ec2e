/** The free-list allocator as the source keeps it: headers, footers and an intrusive chain in
    memory, updated in place and proved to follow FreeListModel. */
module FreeListAllocator {
  import opened Bits
  import opened AllocTypes
  import opened Requests
  import opened FreeListBlocks
  import opened Sequences
  import opened FreeListModel
  import opened FreeListMemory
  import opened FreeListRuns

  class FreeListAllocator {
    const granule: nat
    const maxBytes: nat
    var headers: Headers
    var footers: Footers
    var superblocks: seq<nat>
    var live: map<nat, nat>
    var freeHead: nat
    var nextId: nat
    var totalBytes: nat
    var n: Counters
    var supers: map<nat, nat>      // the extents obtained from the system: what may be read
    ghost var m: Blocks
    ghost var free: seq<nat>

    ghost function State(): FreeList
      reads this
    {
      FreeList(granule, maxBytes, supers, m, free, live, nextId, totalBytes, n)
    }

    /** Headers, footers and chain record the blocks, with `f` free and `chain` linked. */
    ghost predicate Memory(f: set<nat>)
      reads `headers, `footers, `freeHead, `m, `free
    {
      HeadersOk(m, f, headers) && FootersOk(m, f, footers) && Linked(headers, freeHead, free)
    }

    ghost predicate Valid()
      reads this
    {
      Inv(State()) && Memory(Elems(free)) && Elems(superblocks) == supers.Keys
    }

    lemma ValidInv()
      requires Valid()
      ensures Inv(State()) && granule >= 1 && Memory(Elems(free)) && Elems(superblocks) == supers.Keys
      ensures Geometry(supers, m, free, live.Values)
    {
    }

    lemma IsValid()
      requires Inv(State()) && Memory(Elems(free)) && Elems(superblocks) == supers.Keys
      ensures Valid()
    {
    }

    lemma UnfoldMemory()
      requires Memory(Elems(free))
      ensures HeadersOk(m, Elems(free), headers) && FootersOk(m, Elems(free), footers)
          && Linked(headers, freeHead, free)
    {
    }

    constructor (superblockSize: nat, maxBytes: nat)
      requires superblockSize >= 1
      ensures Valid() && State() == Init(superblockSize, maxBytes)
    {
      granule, this.maxBytes := superblockSize, maxBytes;
      headers, footers, superblocks, live := map[], map[], [], map[];
      freeHead, nextId, totalBytes := 0, 0, 0;
      n := Counters(0, 0, 0, 0, 0, 0, 0, 0, 0, 0, 0, 0, 0);
      supers, m, free := map[], map[], [];
      new;
      InitInv(granule, maxBytes);
    }

    /** set_busy: the flag in the header, the flag and the size in the footer. */
    method SetBusy(b: nat, busy: bool)
      requires b in headers && b + headers[b].size >= 16
      modifies this`headers, this`footers
      ensures headers == old(headers)[b := old(headers)[b].(busy := busy)]
      ensures footers == old(footers)[(b + old(headers)[b].size - 16) as nat := Footer(old(headers)[b].size, busy)]
    {
      headers := headers[b := headers[b].(busy := busy)];
      footers := footers[b + headers[b].size - 16 := Footer(headers[b].size, busy)];
    }

    /** unlink: walk the links until one points to b, and let it point past b. */
    method Unlink(b: nat)
      requires Linked(headers, freeHead, free) && NoDup(free) && b > 0
      modifies this`headers, this`freeHead, this`free
      ensures free == Remove(old(free), b) && Linked(headers, freeHead, free)
      ensures SameButNext(old(headers), headers)
      ensures forall x: nat :: HeaderChanged(old(headers), headers, x) ==> x in old(free)
    {
      hide Linked, Remove, SameButNext, HeaderChanged, RemoveAt;
      var prev, cur := 0, freeHead;
      ghost var i := 0;
      HeadIs(headers, freeHead, free);
      RelinkKeeps(headers, 0, 0);
      while cur != 0 && cur != b
        invariant 0 <= i <= |free| && cur == At(free, i) && prev == (if i == 0 then 0 else free[i - 1])
        invariant forall k :: 0 <= k < i ==> free[k] != b
        invariant unchanged(`headers, `freeHead, `free)
        decreases |free| - i
      {
        LinkIs(headers, freeHead, free, i);
        prev, cur := cur, headers[cur].next;
        i := i + 1;
      }
      RemoveIs(free, b, i);
      if cur != 0 {
        ghost var h := headers;
        LinkIs(headers, freeHead, free, i);
        if i > 0 { LinkIs(headers, freeHead, free, i - 1); }
        RelinkKeeps(headers, prev, headers[b].next);
        Link(prev, headers[b].next);
        assert headers == Relink(h, prev, h[b].next);
        UnlinkLinked(h, old(freeHead), free, i, headers, freeHead);
        free := Remove(free, b);
      }
    }

    /** The part of find_and_split after a large enough block was found: take it off its link,
        give the link what is left, and mark the block busy. */
    method TakeAt(prev: nat, cur: nat, need: nat, junk: nat, ghost i: nat, ghost busy: set<nat>)
      requires Geometry(supers, m, free, busy) && Memory(Elems(free))
      requires i < |free| && cur == free[i] && prev == (if i == 0 then 0 else free[i - 1])
      requires cur in m && 80 <= need <= m[cur].size && need % 16 == 0
      modifies this`headers, this`footers, this`freeHead, this`m, this`free
      ensures m == Served(old(m), cur, need, junk)
      ensures free == if Splits(old(m), cur, need) then old(free)[i := cur + need] else RemoveAt(old(free), i)
      ensures Memory(Elems(free))
      ensures Untouched(old(headers), headers, old(footers), footers, old(m), busy)
    {
      hide Geometry, Linked, HeadersOk, FootersOk, Untouched, Wrote, Describes;
      ghost var h0, f0 := headers, footers;
      FreeHeader(m, free, headers, freeHead, i);
      TakeFacts(supers, m, free, busy, i, need);
      DescribedSize(headers[cur], m[cur], true);
      if headers[cur].size - need >= MIN_BLOCK {
        Carve(prev, cur, need, junk, i);
        CutMemory(supers, m, free, busy, h0, f0, old(freeHead), i, need, junk, headers, footers, freeHead);
        m, free := Cut(m, cur, need, junk), free[i := cur + need];
      } else {
        KeepWhole(prev, cur, i);
        WholeMemory(supers, m, free, busy, h0, f0, old(freeHead), i, headers, footers, freeHead);
        free := RemoveAt(free, i);
      }
    }

    // The writes of a split.
    method Carve(prev: nat, cur: nat, need: nat, junk: nat, ghost i: nat)
      requires i < |free| && cur == free[i] && prev == (if i == 0 then 0 else free[i - 1])
      requires cur in headers && cur in m && Describes(headers[cur], m[cur], true) && 80 <= need
          && Splits(m, cur, need)
      requires i > 0 ==> prev in headers && prev > 0 && prev != cur && prev != cur + need
      requires headers[cur].next == At(free, i + 1)
      modifies this`headers, this`footers, this`freeHead
      ensures Wrote(old(headers), headers, old(freeHead), freeHead, free, i, cur + need, {cur, cur + need})
      ensures cur in headers && Describes(headers[cur], m[cur].(size := need), false)
      ensures cur + need in headers && Describes(headers[cur + need],
          Block(m[cur].size - need, m[cur].base, junk), true)
      ensures headers[cur + need].next == At(free, i + 1)
      ensures footers == old(footers)[(cur + m[cur].size - 16) as nat := Footer(m[cur].size - need, false)]
                                     [(cur + need - 16) as nat := Footer(need, true)]
    {
      hide Wrote;
      ghost var h, head := headers, freeHead;
      var size, next := headers[cur].size, headers[cur].next;
      Link(prev, next);
      var rest := cur + need;
      headers := headers[rest := Header(MAGIC_FREE, size - need, false, next, headers[cur].base, junk)];
      footers := footers[cur + size - 16 := Footer(size - need, false)];
      Link(prev, rest);
      ghost var h1 := headers;
      assert h1 == Relink(h, prev, rest)[rest := h1[rest]];
      Shrink(cur, need);
      assert headers == Relink(h, prev, rest)[rest := h1[rest]][cur := headers[cur]];
      CarveWrote(h, headers, head, freeHead, free, i, rest, h1[rest], headers[cur]);
    }

    // The block at cur becomes a busy one of `need` bytes.
    method Shrink(cur: nat, need: nat)
      requires cur in headers && need >= 16
      modifies this`headers, this`footers
      ensures cur in headers
      ensures headers == old(headers)[cur := old(headers)[cur].(magic := MAGIC_BUSY, size := need, busy := true)]
      ensures footers == old(footers)[(cur + need - 16) as nat := Footer(need, true)]
    {
      headers := headers[cur := headers[cur].(size := need)];
      SetBusy(cur, true);
      headers := headers[cur := headers[cur].(magic := MAGIC_BUSY)];
    }

    // The writes when the whole block is taken.
    method KeepWhole(prev: nat, cur: nat, ghost i: nat)
      requires i < |free| && cur == free[i] && prev == (if i == 0 then 0 else free[i - 1])
      requires cur in headers && cur in m && Describes(headers[cur], m[cur], true) && m[cur].size >= 80
      requires i > 0 ==> prev in headers && prev > 0 && prev != cur
      requires headers[cur].next == At(free, i + 1)
      modifies this`headers, this`footers, this`freeHead
      ensures Wrote(old(headers), headers, old(freeHead), freeHead, free, i, At(free, i + 1), {cur})
      ensures cur in headers && Describes(headers[cur], m[cur], false)
      ensures footers == old(footers)[(cur + m[cur].size - 16) as nat := Footer(m[cur].size, true)]
    {
      Link(prev, headers[cur].next);
      SetBusy(cur, true);
      headers := headers[cur := headers[cur].(magic := MAGIC_BUSY)];
    }

    /** find_and_split: first fit along the chain. */
    method FindAndSplit(need: nat, junk: nat, ghost busy: set<nat>) returns (found: bool, cur: nat)
      requires Geometry(supers, m, free, busy) && Memory(Elems(free)) && 80 <= need && need % 16 == 0
      modifies this
      ensures found <==> FirstFit(old(m), old(free), need) < |old(free)|
      ensures var i := FirstFit(old(m), old(free), need);
              if found then
                && cur == old(free)[i] && cur in old(m)
                && m == Served(old(m), cur, need, junk)
                && free == (if Splits(old(m), cur, need) then old(free)[i := cur + need] else RemoveAt(old(free), i))
                && n == old(n).(scanned := old(n).scanned + i + 1)
              else m == old(m) && free == old(free) && n == old(n).(scanned := old(n).scanned + i)
      ensures Memory(Elems(free))
      ensures Untouched(old(headers), headers, old(footers), footers, old(m), busy)
      ensures supers == old(supers) && live == old(live) && nextId == old(nextId)
      ensures totalBytes == old(totalBytes) && superblocks == old(superblocks)
    {
      hide Geometry, HeadersOk, FootersOk, Linked, Untouched, FirstFit, Served, Splits, SizeOf, Cut, RemoveAt;
      var prev := 0;
      cur := freeHead;
      HeadIs(headers, freeHead, free);
      ghost var i := 0;
      UntouchedRefl(headers, footers, m, busy);
      while cur != 0
        invariant 0 <= i <= |free| && cur == At(free, i) && prev == (if i == 0 then 0 else free[i - 1])
        invariant forall k :: 0 <= k < i ==> SizeOf(m, free[k]) < need
        invariant n == old(n).(scanned := old(n).scanned + i)
        invariant unchanged(`headers, `footers, `freeHead, `m, `free, `supers, `live,
            `nextId, `totalBytes, `superblocks)
        decreases |free| - i
      {
        n := n.(scanned := n.scanned + 1);
        ChainStep(supers, m, free, busy, headers, freeHead, i);
        if headers[cur].size >= need {
          FirstFitIs(m, free, need, i);
          SizeIn(m, cur);
          TakeAt(prev, cur, need, junk, i, busy);
          return true, cur;
        }
        prev, cur := cur, headers[cur].next;
        i := i + 1;
      }
      FirstFitIs(m, free, need, i);
      found := false;
    }

    /** grow_superblock: a new superblock as one free block at the head of the chain. */
    method GrowSuperblock(need: nat, mem: Requests.Memory) returns (ok: bool)
      requires Valid() && OVERHEAD <= need && Answers(State(), need, mem)
      modifies this
      ensures Valid() && ok == Grows(old(State()), need, mem)
      ensures ok == (Wrap64(old(totalBytes) + GrowSize(granule, need)) <= maxBytes && mem.Fresh?)
      ensures State() == if ok then Grow(old(State()), GrowSize(granule, need), mem.base) else old(State())
      ensures Untouched(old(headers), headers, old(footers), footers, old(m), old(live.Values))
    {
      hide Valid, Inv, Untouched, GrowSize, FreshBlock, Grow, Wrap64;
      ValidInv();
      var sz := GrowSize(granule, need);
      GrowSizeBounds(granule, need);
      UntouchedRefl(headers, footers, m, live.Values);
      if Wrap64(totalBytes + sz) > maxBytes { return false; }
      if mem.NoMemory? { return false; }
      GrowKeeps(State(), need, mem);
      Extend(mem.base, sz);
      ok := true;
    }

    method Extend(base: nat, sz: nat)
      requires Valid() && FreshBlock(supers, base, sz) && OVERHEAD <= sz && Inv(Grow(State(), sz, base))
      modifies this
      ensures Valid() && State() == Grow(old(State()), sz, base)
      ensures Untouched(old(headers), headers, old(footers), footers, old(m), old(live.Values))
    {
      hide Memory, Inv, Untouched, FreshBlock, SupersApart, Tiled, Grow;
      GrowReady(State(), base, sz);
      AddSuperblock(base, sz);
      totalBytes := totalBytes + sz;
      n := n.(growth := n.growth + 1, peakTotal := Max(totalBytes, n.peakTotal));
      GrowIs(old(State()), sz, base, State());
    }

    // The writes of a growth.
    method AddSuperblock(b: nat, sz: nat)
      requires Memory(Elems(free)) && FreshBlock(supers, b, sz) && OVERHEAD <= sz
      requires SupersApart(supers) && Tiled(supers, m) && NoDup(free)
      requires b !in m && b !in free && b > 0 && b !in live.Values && Elems(superblocks) == supers.Keys
      modifies this`superblocks, this`headers, this`footers, this`freeHead, this`supers, this`m, this`free
      ensures supers == old(supers)[b := sz] && m == old(m)[b := Block(sz, b, sz)] && free == [b] + old(free)
      ensures Memory(Elems(free)) && Elems(superblocks) == supers.Keys
      ensures Untouched(old(headers), headers, old(footers), footers, old(m), live.Values)
    {
      hide Tiled, SupersApart, HeadersOk, FootersOk, Linked, Untouched, FreshBlock;
      superblocks := superblocks + [b];
      headers := headers[b := Header(MAGIC_FREE, sz, false, freeHead, b, sz)];
      SetBusy(b, false);
      GrowMemory(supers, m, free, live.Values, b, sz, old(headers), headers, old(footers), footers, freeHead);
      freeHead := b;
      AppendElems(old(superblocks), b);
      supers, m, free := supers[b := sz], m[b := Block(sz, b, sz)], [b] + free;
    }

    /** The right half of coalesce. `busy` holds the live blocks and b itself, whose header and
        footer already say free. */
    method MergeRight(b: nat, ghost busy: set<nat>)
      requires Geometry(supers, m, free, busy) && b in busy && b in m && Memory(Elems(free) + {b})
      requires !(Guard(m, b) && Last(supers, b, m[b]))
      modifies this`headers, this`footers, this`freeHead, this`m, this`free
      ensures m == RightBlocks(old(m), old(free), b) && free == RightFree(old(m), old(free), b)
      ensures Memory(Elems(free) + {b})
      ensures Untouched(old(headers), headers, old(footers), footers, old(m), busy - {b})
    {
      hide Geometry, HeadersOk, FootersOk, Linked, Untouched, Last, Guard, Wrap64, SameButNext, HeaderChanged, Elems;
      RightReadable(supers, m, free, busy, headers, b);
      UntouchedRefl(headers, footers, m, busy - {b});
      var right := b + headers[b].size;
      if InArena(headers[b], right) && headers[right].magic == MAGIC_FREE {
        ghost var h0, head0, free0 := headers, freeHead, free;
        Unlink(right);
        ghost var h1 := headers;
        UnlinkClear(supers, m, free0, busy, h0, h1, footers, right);
        NextKeeps(m, Elems(free0) + {b}, h0, h1);
        HeaderOf(m, Elems(free0) + {b}, h1, b);
        HeaderOf(m, Elems(free0) + {b}, h1, right);
        headers := headers[b := headers[b].(size := headers[b].size + headers[right].size)];
        SetBusy(b, false);
        JoinMemory(supers, m, free, Elems(free0) + {b}, busy - {b}, h1, headers, old(footers), footers,
            freeHead, b, right);
        UntouchedTrans(h0, h1, headers, old(footers), old(footers), footers, m, Join(m, b, right), busy - {b});
        m := Join(m, b, right);
      }
    }

    /** The left half of coalesce: the block that b has become part of. */
    method MergeLeft(b: nat, ghost busy: set<nat>) returns (x: nat)
      requires Geometry(supers, m, free, busy) && b in busy && b in m && Memory(Elems(free) + {b})
      modifies this`headers, this`footers, this`freeHead, this`m, this`free
      ensures if JoinsLeft(old(m), old(free), b)
              then x == Left(old(m), old(free), b) && m == Join(old(m), x, b) && free == Remove(old(free), x)
              else x == b && m == old(m) && free == old(free)
      ensures Geometry(supers, m, free, busy - {b} + {x}) && Memory(Elems(free) + {x})
      ensures Untouched(old(headers), headers, old(footers), footers, old(m), busy - {b})
    {
      hide Geometry, HeadersOk, FootersOk, Linked, Untouched, JoinsLeft, Left, Neighbours, Elems;
      LeftReadable(supers, m, free, busy, headers, footers, b);
      UntouchedRefl(headers, footers, m, busy - {b});
      assert busy - {b} + {b} == busy;
      x := b;
      if b > headers[b].base && !footers[b - 16].busy {
        var left := b - footers[b - 16].size;
        if headers[left].magic == MAGIC_FREE {
          JoinLeft(left, b, busy);
          x := left;
        }
      }
    }

    // The writes of a merge with the left neighbour.
    method JoinLeft(left: nat, b: nat, ghost busy: set<nat>)
      requires Geometry(supers, m, free, busy) && b in busy && b in m && Memory(Elems(free) + {b})
      requires left in free && Neighbours(m, left, b)
      modifies this`headers, this`footers, this`freeHead, this`m, this`free
      ensures m == Join(old(m), left, b) && free == Remove(old(free), left)
      ensures Geometry(supers, m, free, busy - {b} + {left}) && Memory(Elems(free) + {left})
      ensures Untouched(old(headers), headers, old(footers), footers, old(m), busy - {b})
    {
      hide Geometry, HeadersOk, FootersOk, Linked, Untouched, SameButNext, HeaderChanged, Elems;
      ghost var h0, free0, f := headers, free, Elems(free) + {b};
      JoinLeftReady(supers, m, free, busy, left, b);
      Unlink(left);
      ghost var h1 := headers;
      UnlinkClear(supers, m, free0, busy, h0, h1, footers, left);
      NextKeeps(m, f, h0, h1);
      HeaderOf(m, f, h1, b);
      HeaderOf(m, f, h1, left);
      headers := headers[left := headers[left].(size := headers[left].size + headers[b].size)];
      SetBusy(left, false);
      JoinMemory(supers, m, free, f, busy - {b}, h1, headers, old(footers), footers, freeHead, left, b);
      UntouchedTrans(h0, h1, headers, old(footers), old(footers), footers, m, Join(m, left, b), busy - {b});
      m := Join(m, left, b);
    }

    // The block goes to the head of the chain.
    method PushFront(x: nat, ghost others: set<nat>)
      requires Geometry(supers, m, free, others + {x}) && x in m && Memory(Elems(free) + {x}) && x !in others
      modifies this`headers, this`freeHead, this`free
      ensures free == [x] + old(free) && Memory(Elems(free))
      ensures Untouched(old(headers), headers, footers, footers, m, others)
    {
      hide Geometry, HeadersOk, FootersOk, Linked, Untouched;
      HeaderOf(m, Elems(free) + {x}, headers, x);
      headers := headers[x := headers[x].(magic := MAGIC_FREE, next := freeHead)];
      PushMemory(supers, m, free, others, old(headers), headers, footers, freeHead, x);
      freeHead := x;
      free := [x] + free;
    }

    /** coalesce. */
    method Coalesce(b: nat, ghost busy: set<nat>)
      requires Geometry(supers, m, free, busy) && b in busy && b in m && Memory(Elems(free) + {b})
      requires !(Guard(m, b) && Last(supers, b, m[b]))
      modifies this`headers, this`footers, this`freeHead, this`m, this`free, this`n
      ensures (m, free) == FreeListModel.Coalesce(old(m), old(free), b)
      ensures Memory(Elems(free))
      ensures n == old(n).(coalesced := old(n).coalesced + 1)
      ensures Untouched(old(headers), headers, old(footers), footers, old(m), busy - {b})
    {
      hide Geometry, Memory, Untouched, Last, Guard, RightBlocks, RightFree, Elems, SameOthers;
      ghost var m0, h0, f0 := m, headers, footers;
      RightStep(supers, m, free, busy, b);
      MergeRight(b, busy);
      ghost var m1, h1, f1 := m, headers, footers;
      LooseBlock(supers, m, free, busy, b);
      LeftStep(supers, m, free, busy, b);
      CoalesceKeeps(supers, m0, old(free), busy, b);
      var x := MergeLeft(b, busy);
      ghost var m2, h2, f2 := m, headers, footers;
      PushFront(x, busy - {b});
      n := n.(coalesced := n.coalesced + 1);
      SameKept(m0, m1, busy - {b});
      SameKept(m1, m, busy - {b});
      UntouchedTrans(h0, h1, h2, f0, f1, f2, m0, m1, busy - {b});
      UntouchedTrans(h0, h2, headers, f0, f2, footers, m0, m2, busy - {b});
    }

    // One search and the bookkeeping of a grant.
    method Serve(need: nat, size: nat, align: nat, junk: nat) returns (found: bool, r: Outcome)
      requires Valid() && 80 <= need && need % 16 == 0 && size + OVERHEAD <= need
      modifies this
      ensures Valid() && (found <==> FirstFit(old(m), old(free), need) < |old(free)|)
      ensures found ==> (State(), r) == Find(old(State()), need, size, align, junk)
      ensures !found ==> State() == Scanned(old(State()), |old(free)|)
      ensures Untouched(old(headers), headers, old(footers), footers, old(m), old(live.Values))
    {
      hide Valid, Inv, Geometry, HeadersOk, FootersOk, Linked, Untouched, FirstFit, Served, Splits, RemoveAt,
          Find, Elems, GrantedWell;
      ValidInv();
      ghost var s := State();
      FindKeeps(s, need, size, align, junk);
      ScanKeeps(s, |free|);
      var b;
      found, b := FindAndSplit(need, junk, live.Values);
      r := Failed(OutOfMemory);
      if found {
        HeaderSize(m, Elems(free), headers, s.blocks, b, need, junk);
        var granted := headers[b].size - 64;
        n := n.(success := n.success + 1,
                liveCount := n.liveCount + 1, peakCount := Max(n.liveCount + 1, n.peakCount),
                liveBytes := n.liveBytes + granted, peakBytes := Max(n.liveBytes + granted, n.peakBytes),
                requested := n.requested + size, granted := n.granted + granted);
        nextId := nextId + 1;
        live := live[nextId := b];
        r := Granted(nextId, b + 48, granted, align, n.freed > 0);
        FindIs(s, need, size, align, junk, State(), r);
      } else {
        NotFound(s, need, State());
      }
      IsValid();
    }

    // After a failed search: grow and search again.
    method Retry(need: nat, size: nat, align: nat, mem: Requests.Memory, junk: nat) returns (r: Outcome)
      requires Valid() && 80 <= need && need % 16 == 0 && size + OVERHEAD <= need && Answers(State(), need, mem)
      modifies this
      ensures Valid()
      ensures (State(), r) == if !Grows(old(State()), need, mem) then (Failing(old(State())), Failed(CapacityExceeded))
                              else Find(Grow(old(State()), GrowSize(granule, need), mem.base), need, size, align, junk)
      ensures Untouched(old(headers), headers, old(footers), footers, old(m), old(live.Values))
    {
      hide Valid, Inv, Memory, Untouched, Find, Grow, GrowSize, FirstFit, FreshBlock, Wrap64, Elems;
      ValidInv();
      ghost var s, h0, f0 := State(), headers, footers;
      FailingKeeps(s);
      var grown := GrowSuperblock(need, mem);
      ValidInv();
      if !grown {
        n := n.(failures := n.failures + 1);
        assert State() == Failing(s);
        IsValid();
        return Failed(CapacityExceeded);
      }
      ghost var h1, f1, m1 := headers, footers, m;
      GrowSizeBounds(granule, need);
      GrownHit(s, need, mem.base, GrowSize(granule, need));
      GrownSame(s, need, mem);
      var found;
      found, r := Serve(need, size, align, junk);
      assert found;  // the source's out_of_memory branch is dead
      UntouchedTrans(h0, h1, headers, f0, f1, footers, s.blocks, m1, s.live.Values);
    }

    method Allocate(size: u64, alignment: u64, mem: Requests.Memory, junk: nat) returns (r: Outcome)
      requires Valid() && Answers(State(), Need(size), mem)
      modifies this
      ensures Valid()
      ensures (State(), r) == FreeListModel.Allocate(old(State()), size, alignment, mem, junk)
      ensures Untouched(old(headers), headers, old(footers), footers, old(m), old(live.Values))
    {
      hide Valid, Inv, Untouched, Find, Grow, GrowSize, FirstFit, FreshBlock, IsPowerOfTwo, Need, Wrap64;
      hide FreeListModel.Allocate, Obtain, Grows;
      ValidInv();
      AllocateIs(State(), size, alignment, mem, junk);
      ghost var s, h0, f0 := State(), headers, footers;
      UntouchedRefl(headers, footers, m, live.Values);
      if size > MAX_SIZE { return Failed(SizeTooLarge); }
      var align: nat := if alignment == 0 then 16 else alignment;
      LegalIs(alignment);
      if !IsPowerOfTwo(align) || align > 16 { return Failed(AlignmentUnsupported); }
      var need := Need(size);
      NeedBounds(size);
      var found;
      found, r := Serve(need, size, align, junk);
      if !found {
        ghost var h1, f1 := headers, footers;
        r := Retry(need, size, align, mem, junk);
        UntouchedTrans(h0, h1, headers, f0, f1, footers, s.blocks, s.blocks, s.live.Values);
      }
    }

    method Free(handle: nat) returns (r: Freed)
      requires Valid()
      modifies this
      ensures Valid()
      ensures handle in old(live) ==> old(live)[handle] in old(m)
      ensures (State(), r) == FreeListModel.Free(old(State()), handle)
      ensures Untouched(old(headers), headers, old(footers), footers, old(m), old((live - {handle}).Values))
    {
      hide Valid, Inv, Geometry, Memory, Untouched, Guard, Last, Wrap64, Release, SameOthers, Injective;
      ValidInv();
      ghost var s := State();
      FreeKeeps(s, handle);
      UntouchedRefl(headers, footers, m, (s.live - {handle}).Values);
      if handle !in live { return Refused(InvalidHandle); }
      var b := live[handle];
      UnfoldMemory();
      BusyHeader(s, headers, footers, freeHead, handle);
      if headers[b].magic != MAGIC_BUSY { return Refused(DoubleFree); }
      var right := b + headers[b].size;
      var h := headers[b];
      WildIs(s, b, h);
      if InArena(h, right) && h.base in supers && right == h.base + supers[h.base] { return Undefined; }
      Return(handle, b);
      r := Released;
    }

    /** The releasing half of free. */
    method Return(handle: nat, b: nat)
      requires Valid() && handle in live && b == live[handle] && b in m && !Wild(State(), b)
      modifies this
      ensures Valid() && State() == Release(old(State()), handle)
      ensures Untouched(old(headers), headers, old(footers), footers, old(m), old((live - {handle}).Values))
    {
      hide Valid, Inv, Geometry, HeadersOk, FootersOk, Linked, Elems, Untouched, Guard, Last, Wrap64;
      hide FreeListModel.Coalesce, SameOthers, Release, Sum, Injective;
      ValidInv();
      ghost var s, h0, f0, busy := State(), headers, footers, live.Values;
      BusyHeader(s, headers, footers, freeHead, handle);
      LiveRemovedInv(s, handle);
      ReleaseKeeps(s, handle);
      var granted := headers[b].size - 64;
      Mark(handle, b);
      ghost var h1, f1 := headers, footers;
      live := live - {handle};
      Coalesce(b, busy);
      n := n.(freed := n.freed + 1,
              liveCount := if n.liveCount > 0 then n.liveCount - 1 else 0,
              liveBytes := if n.liveBytes >= granted then n.liveBytes - granted else n.liveBytes);
      ReleaseIs(s, handle, State());
      IsValid();
      UntouchedTrans(h0, h1, headers, f0, f1, footers, s.blocks, s.blocks, busy - {b});
    }

    // The header and the footer say free.
    method Mark(ghost handle: nat, b: nat)
      requires Valid() && handle in live && b == live[handle]
      modifies this`headers, this`footers
      ensures Memory(Elems(free) + {b})
      ensures Untouched(old(headers), headers, old(footers), footers, m, live.Values - {b})
    {
      hide Valid, Inv, Geometry, HeadersOk, FootersOk, Linked, Elems, Untouched;
      ValidInv();
      BusyHeader(State(), headers, footers, freeHead, handle);
      headers := headers[b := headers[b].(magic := MAGIC_FREE)];
      SetBusy(b, false);
      FreeMarked(State(), handle, old(headers), headers, old(footers), footers, freeHead);
    }

    /** reset and shutdown: give every superblock back. */
    method Reset()
      requires Valid()
      modifies this
      ensures Valid() && State() == FreeListModel.Reset(old(State()))
    {
      hide Valid, Inv, Geometry, HeadersOk, FootersOk, Linked, Elems;
      ValidInv();
      ghost var s := State();
      ResetKeeps(s);
      superblocks, live, freeHead := [], map[], 0;
      supers, m, free := map[], map[], [];
      totalBytes := 0;
      n := n.(liveCount := 0, liveBytes := 0);
      NoBlocks(headers, footers);
      assert State() == FreeListModel.Reset(s);
      IsValid();
    }

    method Query(handle: nat) returns (r: Status, addr: nat, size: nat)
      requires Valid()
      ensures r == Ok <==> handle in State().live
      ensures r == Ok ==> State().live[handle] in m && addr == State().live[handle] + 48
                          && size + OVERHEAD == m[State().live[handle]].size
    {
      hide Valid, Inv, Geometry, Memory;
      ValidInv();
      UnfoldMemory();
      r, addr, size := Err(InvalidHandle), 0, 0;
      if handle in live {
        BusyHeader(State(), headers, footers, freeHead, handle);
        r, addr, size := Ok, live[handle] + 48, headers[live[handle]].size - 64;
      }
    }

    /** collect_fragmentation: free bytes, largest free span and span count along the chain. */
    method CollectFragmentation() returns (freeBytes: nat, largest: nat, count: nat)
      requires Valid()
      ensures freeBytes == Sum(Elems(free), m) && count == |Elems(free)|
      ensures free == [] ==> largest == 0
      ensures forall a :: a in free ==> SizeOf(m, a) <= largest
      ensures free != [] ==> exists a :: a in free && SizeOf(m, a) == largest
    {
      hide Valid, Inv, Geometry, HeadersOk, FootersOk, Linked, SizeOf, Sum;
      ValidInv();
      freeBytes, largest, count := 0, 0, 0;
      var cur := freeHead;
      HeadIs(headers, freeHead, free);
      while cur != 0
        invariant count <= |free| && cur == At(free, count)
        invariant freeBytes == ChainBytes(m, free[..count])
        invariant count == 0 ==> largest == 0
        invariant forall k :: 0 <= k < count ==> SizeOf(m, free[k]) <= largest
        invariant count > 0 ==> exists k :: 0 <= k < count && SizeOf(m, free[k]) == largest
        decreases |free| - count
      {
        ChainStep(supers, m, free, live.Values, headers, freeHead, count);
        var s := headers[cur].size;
        ChainSnoc(m, free, count);
        assert SizeOf(m, free[count]) == s;
        freeBytes, count := freeBytes + s, count + 1;
        if s > largest { largest := s; }
        cur := headers[cur].next;
      }
      assert free[..count] == free;
      FreeSum(State());
    }

    // `*prev_link = target`.
    method Link(prev: nat, target: nat)
      requires prev == 0 || prev in headers
      modifies this`headers, this`freeHead
      ensures prev == 0 ==> freeHead == target && headers == old(headers)
      ensures prev != 0 ==>
          freeHead == old(freeHead) && headers == old(headers)[prev := old(headers)[prev].(next := target)]
    {
      if prev == 0 { freeHead := target; } else { headers := headers[prev := headers[prev].(next := target)]; }
    }
  }

  lemma ChainStep(supers: map<nat, nat>, m: Blocks, free: seq<nat>, busy: set<nat>, h: Headers, head: nat, i: nat)
    requires Geometry(supers, m, free, busy) && HeadersOk(m, Elems(free), h) && Linked(h, head, free) && i < |free|
    ensures free[i] in m && free[i] in h && h[free[i]].size == SizeOf(m, free[i])
        && h[free[i]].next == At(free, i + 1)
  {
    hide Geometry, HeadersOk, Linked;
    FreeApart(supers, m, free, busy, i);
    FreeHeader(m, free, h, head, i);
  }

  lemma SizeIn(m: Blocks, a: nat)
    requires a in m
    ensures SizeOf(m, a) == m[a].size
  {
  }

  lemma FirstFitIs(m: Blocks, free: seq<nat>, need: nat, i: nat)
    requires i <= |free| && (forall k :: 0 <= k < i ==> SizeOf(m, free[k]) < need)
    requires i < |free| ==> SizeOf(m, free[i]) >= need
    ensures FirstFit(m, free, need) == i
  {
    hide SizeOf;
  }

  lemma GrowReady(s: FreeList, base: nat, size: nat)
    requires Inv(s) && FreshBlock(s.supers, base, size) && OVERHEAD <= size
    ensures base !in s.blocks && base !in s.free && base > 0 && base !in s.live.Values
    ensures SupersApart(s.supers) && Tiled(s.supers, s.blocks) && NoDup(s.free)
  {
    hide Tiled, SupersApart, Books;
    NotYet(s, base, size);
    BasePositive(s.supers, base, size);
    assert forall x :: x in s.free ==> x in Elems(s.free);
  }

  lemma HeadersHere(m: Blocks, f: set<nat>, h: Headers)
    requires HeadersOk(m, f, h)
    ensures forall a :: a in m ==> a in h
  {
  }

  lemma GrowIs(s: FreeList, size: nat, base: nat, s': FreeList)
    requires s'.granule == s.granule && s'.maxBytes == s.maxBytes && s'.supers == s.supers[base := size]
    requires s'.blocks == s.blocks[base := Block(size, base, size)] && s'.free == [base] + s.free
    requires s'.live == s.live && s'.nextId == s.nextId && s'.total == s.total + size
    requires s'.n == s.n.(growth := s.n.growth + 1, peakTotal := Max(s.total + size, s.n.peakTotal))
    ensures s' == Grow(s, size, base)
  {
  }

  lemma BasePositive(supers: map<nat, nat>, base: nat, size: nat)
    requires FreshBlock(supers, base, size)
    ensures base > 0
  {
  }

  lemma GrowMemory(supers: map<nat, nat>, m: Blocks, free: seq<nat>, busy: set<nat>, b: nat, size: nat,
      h: Headers, h': Headers,
                   ft: Footers, ft': Footers, head: nat)
    requires HeadersOk(m, Elems(free), h) && FootersOk(m, Elems(free), ft) && Linked(h, head, free)
    requires Tiled(supers, m) && SupersApart(supers) && FreshBlock(supers, b, size) && OVERHEAD <= size
    requires b !in m && b !in free && b > 0 && b !in busy && NoDup(free)
    requires h' == h[b := Header(MAGIC_FREE, size, false, head, b, size)]
    requires ft' == ft[(b + size - 16) as nat := Footer(size, false)]
    ensures var m', free' := m[b := Block(size, b, size)], [b] + free;
            && HeadersOk(m', Elems(free'), h') && FootersOk(m', Elems(free'), ft') && Linked(h', b, free')
            && Untouched(h, h', ft, ft', m, busy)
  {
    hide Tiled, SupersApart, FreshBlock, HeadersOk, FootersOk, Linked, Untouched;
    var m', f' := m[b := Block(size, b, size)], Elems(free) + {b};
    PushElems(free, b);
    AddTiled(supers, m, b, size);
    HeadersHere(m, Elems(free), h);
    HeadersPut(m, Elems(free), h, m', f', h', {b});
    assert FooterOk(m', f', ft', b);
    forall y: nat | FooterChanged(ft, ft', y) ensures y == FooterAt(m', b) { }
    FootersPut(supers[b := size], m, Elems(free), ft, m', f', ft', {b});
    LinkedPush(h, head, free, b, h');
    WritesClear(supers[b := size], m', h, h', ft, ft', busy);
    OldUntouched(h, h', ft, ft', m, m', busy);
  }

  lemma OldUntouched(h: Headers, h': Headers, ft: Footers, ft': Footers, m: Blocks, m': Blocks, busy: set<nat>)
    requires Untouched(h, h', ft, ft', m', busy) && forall a :: a in m && a in busy ==>
        a in m' && m'[a].size == m[a].size
    ensures Untouched(h, h', ft, ft', m, busy)
  {
    hide Spares;
  }

  lemma HeaderSize(m: Blocks, f: set<nat>, h: Headers, m0: Blocks, b: nat, need: nat, junk: nat)
    requires HeadersOk(m, f, h) && b in m0 && 80 <= need && m == Served(m0, b, need, junk)
    ensures b in h && b in m && h[b].size == m[b].size
    ensures SizeOf(m0, b) >= need ==> m[b].size >= need
  {
    hide HeadersOk;
    HeaderOf(m, f, h, b);
  }

  lemma FindIs(s: FreeList, need: nat, size: nat, align: nat, junk: nat, s': FreeList, r: Outcome)
    requires var i := FirstFit(s.blocks, s.free, need);
             && 80 <= need && i < |s.free| && s.free[i] in s.blocks && s.free[i] in s'.blocks
             && s'.blocks == Served(s.blocks, s.free[i], need, junk) && s'.blocks[s.free[i]].size >= 64
             && s'.free == (if Splits(s.blocks, s.free[i], need) then s.free[i := s.free[i] + need]
                 else RemoveAt(s.free, i))
             && s'.live == s.live[s.nextId + 1 := s.free[i]]
             && (var granted: nat := s'.blocks[s.free[i]].size - 64;
                 && s'.n == s.n.(scanned := s.n.scanned + i + 1, success := s.n.success + 1,
                      liveCount := s.n.liveCount + 1, peakCount := Max(s.n.liveCount + 1, s.n.peakCount),
                      liveBytes := s.n.liveBytes + granted, peakBytes := Max(s.n.liveBytes + granted, s.n.peakBytes),
                      requested := s.n.requested + size, granted := s.n.granted + granted)
                 && r == Granted(s.nextId + 1, s.free[i] + 48, granted, align, s.n.freed > 0))
    requires s'.granule == s.granule && s'.maxBytes == s.maxBytes && s'.supers == s.supers
    requires s'.nextId == s.nextId + 1 && s'.total == s.total
    ensures (s', r) == Find(s, need, size, align, junk)
  {
    hide FirstFit, RemoveAt;
  }

  /** The branches of the specification. */
  lemma AllocateIs(s: FreeList, size: nat, alignment: nat, mem: Requests.Memory, junk: nat)
    requires s.granule >= 1
    ensures var i, need, t := FirstFit(s.blocks, s.free, Need(size)), Need(size), Scanned(s, |s.free|);
            && need >= 80
            && FreeListModel.Allocate(s, size, alignment, mem, junk)
               == if size > MAX_SIZE then (s, Failed(SizeTooLarge))
                  else if !LegalAlignment(alignment) then (s, Failed(AlignmentUnsupported))
                  else if i < |s.free| then Find(s, need, size, Effective(alignment), junk)
                  else if !Grows(t, need, mem) then (Failing(t), Failed(CapacityExceeded))
                  else Find(Grow(t, GrowSize(s.granule, need), mem.base), need, size, Effective(alignment), junk)
  {
    hide Find, Grow, GrowSize, FirstFit, IsPowerOfTwo, Need, Wrap64, LegalAlignment;
    NeedBounds(size);
  }

  lemma FailingKeeps(s: FreeList)
    requires Inv(s)
    ensures Inv(Failing(s))
  {
    hide Geometry, Sum, Injective;
  }

  lemma GrownSame(s: FreeList, need: nat, mem: Requests.Memory)
    requires Inv(s) && Answers(s, need, mem) && mem.Fresh? && OVERHEAD <= need
    ensures var s1 := Grow(s, GrowSize(s.granule, need), mem.base);
            && |s1.free| > 0 && s1.live == s.live
            && forall a :: a in s.blocks ==> a in s1.blocks && s1.blocks[a] == s.blocks[a]
  {
    hide Geometry, Books, GrowSize, FreshBlock;
    GrowSizeBounds(s.granule, need);
    NotYet(s, mem.base, GrowSize(s.granule, need));
  }

  lemma BusyHeader(s: FreeList, h: Headers, ft: Footers, head: nat, id: nat)
    requires Inv(s) && HeadersOk(s.blocks, Elems(s.free), h) && id in s.live
    ensures var b := s.live[id];
            && b in s.blocks && b in h && Describes(h[b], s.blocks[b], false) && h[b].size >= 64
            && b !in Elems(s.free) && b in s.live.Values
  {
    hide Tiled, SupersApart, HeadersOk, Books;
    var b := s.live[id];
    assert b in s.live.Values;
    HeaderOf(s.blocks, Elems(s.free), h, b);
    BlockSizePositive(s.supers, s.blocks, b);
  }

  lemma LiveRemovedInv(s: FreeList, id: nat)
    requires Inv(s) && id in s.live
    ensures (s.live - {id}).Values == s.live.Values - {s.live[id]}
  {
    hide Geometry, Sum, Injective;
    LiveRemoved(s, id);
  }

  /** The header and footer of a live block, rewritten as free. */
  lemma FreeMarked(s: FreeList, id: nat, h: Headers, h': Headers, ft: Footers, ft': Footers, head: nat)
    requires Inv(s) && id in s.live && s.live[id] in s.blocks && s.live[id] in h
    requires HeadersOk(s.blocks, Elems(s.free), h) && FootersOk(s.blocks, Elems(s.free), ft)
        && Linked(h, head, s.free)
    requires h' == h[s.live[id] := h[s.live[id]].(magic := MAGIC_FREE, busy := false)]
    requires s.live[id] + h[s.live[id]].size >= 16
    requires ft' == ft[(s.live[id] + h[s.live[id]].size - 16) as nat := Footer(h[s.live[id]].size, false)]
    ensures var b, f := s.live[id], Elems(s.free) + {s.live[id]};
            && HeadersOk(s.blocks, f, h') && FootersOk(s.blocks, f, ft') && Linked(h', head, s.free)
            && Untouched(h, h', ft, ft', s.blocks, s.live.Values - {b})
  {
    hide Tiled, SupersApart, HeadersOk, FootersOk, Linked, Untouched, Books;
    var b, f := s.live[id], Elems(s.free) + {s.live[id]};
    assert b in s.live.Values;
    HeaderOf(s.blocks, Elems(s.free), h, b);
    HeadersHere(s.blocks, Elems(s.free), h);
    HeadersPut(s.blocks, Elems(s.free), h, s.blocks, f, h', {b});
    BlockSizePositive(s.supers, s.blocks, b);
    assert FooterOk(s.blocks, f, ft', b);
    forall y: nat | FooterChanged(ft, ft', y) ensures y == FooterAt(s.blocks, b) { }
    FootersPut(s.supers, s.blocks, Elems(s.free), ft, s.blocks, f, ft', {b});
    LinkedKept(h, head, s.free, h');
    WritesClear(s.supers, s.blocks, h, h', ft, ft', s.live.Values - {b});
  }

  lemma ReleaseIs(s: FreeList, id: nat, s': FreeList)
    requires id in s.live && s.live[id] in s.blocks && s.blocks[s.live[id]].size >= 64
    requires (s'.blocks, s'.free) == FreeListModel.Coalesce(s.blocks, s.free, s.live[id])
    requires s'.granule == s.granule && s'.maxBytes == s.maxBytes && s'.supers == s.supers
    requires s'.live == s.live - {id} && s'.nextId == s.nextId && s'.total == s.total
    requires var granted: nat := s.blocks[s.live[id]].size - 64;
             s'.n == s.n.(coalesced := s.n.coalesced + 1, freed := s.n.freed + 1,
               liveCount := if s.n.liveCount > 0 then s.n.liveCount - 1 else 0,
               liveBytes := if s.n.liveBytes >= granted then s.n.liveBytes - granted else s.n.liveBytes)
    ensures s' == Release(s, id)
  {
    hide FreeListModel.Coalesce;
  }

  lemma ChainSnoc(m: Blocks, free: seq<nat>, i: nat)
    requires i < |free|
    ensures ChainBytes(m, free[..i + 1]) == ChainBytes(m, free[..i]) + SizeOf(m, free[i])
  {
    hide SizeOf;
    ChainAppend(m, free[..i], free[i]);
    assert free[..i + 1] == free[..i] + [free[i]];
  }

  lemma {:induction false} ChainAppend(m: Blocks, xs: seq<nat>, x: nat)
    ensures ChainBytes(m, xs + [x]) == ChainBytes(m, xs) + SizeOf(m, x)
  {
    hide SizeOf;
    if xs != [] {
      ChainAppend(m, xs[1..], x);
      assert (xs + [x])[1..] == xs[1..] + [x];
    }
  }

  lemma FreeSum(s: FreeList)
    requires Inv(s)
    ensures ChainBytes(s.blocks, s.free) == Sum(Elems(s.free), s.blocks) && |Elems(s.free)| == |s.free|
  {
    hide Tiled, SupersApart, Sum, Books;
    ChainSum(s.blocks, s.free);
    ElemsCount(s.free);
  }

  lemma WildIs(s: FreeList, b: nat, h: Header)
    requires b in s.blocks && Describes(h, s.blocks[b], false)
    ensures Wild(s, b) <==>
              InArena(h, b + h.size) && h.base in s.supers && b + h.size == h.base + s.supers[h.base]
  {
    hide Wrap64;
  }

  lemma NoBlocks(h: Headers, ft: Footers)
    ensures HeadersOk(map[], Elems([]), h) && FootersOk(map[], Elems([]), ft) && Linked(h, 0, []) && Elems([]) == {}
  {
  }

  lemma NotFound(s: FreeList, need: nat, s': FreeList)
    requires FirstFit(s.blocks, s.free, need) == |s.free|
    requires s' == s.(n := s.n.(scanned := s.n.scanned + |s.free|))
    ensures s' == Scanned(s, |s.free|)
  {
  }

  /** The footer before b is its left neighbour's, and says whether and where that is free. */
  lemma LeftReadable(supers: map<nat, nat>, m: Blocks, free: seq<nat>, busy: set<nat>, h: Headers, ft: Footers,
      b: nat)
    requires Geometry(supers, m, free, busy) && b in busy && b in m
    requires HeadersOk(m, Elems(free) + {b}, h) && FootersOk(m, Elems(free) + {b}, ft)
    ensures b in h && h[b].base == m[b].base && (b <= m[b].base ==> !JoinsLeft(m, free, b))
    ensures b > m[b].base ==>
              && b >= 16 && b - 16 in ft && b - ft[b - 16].size >= 0 && (b - ft[b - 16].size) in h
              && (var p: nat := b - ft[b - 16].size;
                  && Neighbours(m, p, b) && (JoinsLeft(m, free, b) ==> Left(m, free, b) == p)
                  && (JoinsLeft(m, free, b) <==> p in free)
                  && (!ft[b - 16].busy <==> p in free) && (h[p].magic == MAGIC_FREE <==> p in free))
  {
    hide Tiled, SupersApart, HeadersOk, FootersOk;
    HeaderOf(m, Elems(free) + {b}, h, b);
    if b > m[b].base {
      var p := LeftExists(supers, m, b);
      BlockSizePositive(supers, m, p);
      assert FooterOk(m, Elems(free) + {b}, ft, p) by { FooterHere(m, Elems(free) + {b}, ft, p); }
      HeaderOf(m, Elems(free) + {b}, h, p);
      assert p in free <==> p in Elems(free);
      OneLeft(supers, m, b, p);
    } else {
      NoLeft(supers, m, b);
    }
  }

  lemma FooterHere(m: Blocks, f: set<nat>, ft: Footers, a: nat)
    requires FootersOk(m, f, ft)
    ensures FooterOk(m, f, ft, a)
  {
  }

  lemma LeftExists(supers: map<nat, nat>, m: Blocks, b: nat) returns (p: nat)
    requires Tiled(supers, m) && b in m && b > m[b].base
    ensures Neighbours(m, p, b)
  {
    assert HasLeft(m, b);
    p :| Neighbours(m, p, b);
  }

  lemma OneLeft(supers: map<nat, nat>, m: Blocks, b: nat, p: nat)
    requires Tiled(supers, m) && Neighbours(m, p, b)
    ensures forall q: nat :: Neighbours(m, q, b) ==> q == p
  {
    forall q: nat | Neighbours(m, q, b) ensures q == p {
      assert Apart(m, p, q) && Apart(m, q, p) && Within(supers, p, m[p]) && Within(supers, q, m[q]);
    }
  }

  lemma NoLeft(supers: map<nat, nat>, m: Blocks, b: nat)
    requires Tiled(supers, m) && b in m && b <= m[b].base
    ensures forall q: nat :: !Neighbours(m, q, b)
  {
    forall q: nat ensures !Neighbours(m, q, b) {
      if q in m { assert Within(supers, q, m[q]); }
    }
  }

  lemma JoinLeftReady(supers: map<nat, nat>, m: Blocks, free: seq<nat>, busy: set<nat>, left: nat, b: nat)
    requires Geometry(supers, m, free, busy) && b in busy && left in free && Neighbours(m, left, b)
    ensures NoDup(free) && Tiled(supers, m) && left > 0 && left in Elems(free) && left !in busy && b !in free
    ensures m[b].size >= OVERHEAD && m[left].size >= OVERHEAD
    ensures Elems(Remove(free, left)) + {left} == Elems(free) + {b} - {b}
    ensures Geometry(supers, Join(m, left, b), Remove(free, left), busy - {b} + {left})
  {
    hide Tiled, SupersApart;
    assert left in Elems(free);
    BlockPositive(supers, m, left);
    BlockSizePositive(supers, m, b);
    BlockSizePositive(supers, m, left);
    JoinTiled(supers, m, left, b);
    JoinAt(m, left, b);
    RemoveElems(free, left);
    assert b !in Elems(free);
  }

  lemma LooseBlock(supers: map<nat, nat>, m: Blocks, free: seq<nat>, busy: set<nat>, b: nat)
    requires Geometry(supers, m, free, busy) && b in m
    ensures JoinsLeft(m, free, b) ==> Left(m, free, b) !in busy && Left(m, free, b) in m && Left(m, free, b) != b
  {
    hide Tiled, SupersApart;
    if JoinsLeft(m, free, b) {
      assert Left(m, free, b) in Elems(free);
      BlockSizePositive(supers, m, Left(m, free, b));
    }
  }

  lemma PushMemory(supers: map<nat, nat>, m: Blocks, free: seq<nat>, others: set<nat>, h: Headers, h': Headers,
                   ft: Footers, head: nat, x: nat)
    requires Geometry(supers, m, free, others + {x}) && x in m && x !in others
    requires HeadersOk(m, Elems(free) + {x}, h) && FootersOk(m, Elems(free) + {x}, ft) && Linked(h, head, free)
    requires x in h && h' == h[x := h[x].(magic := MAGIC_FREE, next := head)]
    ensures var free' := [x] + free;
            && HeadersOk(m, Elems(free'), h') && FootersOk(m, Elems(free'), ft) && Linked(h', x, free')
            && Untouched(h, h', ft, ft, m, others)
  {
    hide Tiled, SupersApart, HeadersOk, FootersOk, Linked, Untouched;
    assert x !in Elems(free);
    PushElems(free, x);
    HeaderOf(m, Elems(free) + {x}, h, x);
    assert SameButNext(h, h');
    NextKeeps(m, Elems(free) + {x}, h, h');
    BlockPositive(supers, m, x);
    LinkedPush(h, head, free, x, h');
    WritesClear(supers, m, h, h', ft, ft, others);
  }

  lemma SameKept(m: Blocks, m': Blocks, others: set<nat>)
    requires SameOthers(m, m', others)
    ensures forall a :: a in others && a in m ==> a in m' && m'[a] == m[a]
  {
  }

  // `right >= arena_start && right < arena_end`.
  predicate InArena(h: Header, right: nat) { h.base <= right < Wrap64(h.base + h.total) }

  lemma RightReadable(supers: map<nat, nat>, m: Blocks, free: seq<nat>, busy: set<nat>, h: Headers, b: nat)
    requires Geometry(supers, m, free, busy) && b in busy && b in m && HeadersOk(m, Elems(free) + {b}, h)
    requires !(Guard(m, b) && Last(supers, b, m[b]))
    ensures NoDup(free) && Tiled(supers, m) && m[b].size >= OVERHEAD && b !in free
    ensures Elems(Remove(free, b + m[b].size)) + {b} == Elems(free) + {b} - {b + m[b].size}
    ensures b in h && h[b].size == m[b].size && (InArena(h[b], b + h[b].size) <==> Guard(m, b))
    ensures Guard(m, b) ==>
              var right := b + m[b].size;
              && right > b && right in m && right in h && Neighbours(m, b, right)
                  && (h[right].magic == MAGIC_FREE <==> right in free)
              && h[right].size == m[right].size && (right in free ==> right in Elems(free) && right !in busy)
  {
    hide Tiled, SupersApart, Last;
    assert Describes(h[b], m[b], true);
    BlockSizePositive(supers, m, b);
    RemoveElems(free, b + m[b].size);
    assert b in free ==> b in Elems(free);
    if Guard(m, b) {
      var right := b + m[b].size;
      RightNeighbour(supers, m, b);
      BlockSizePositive(supers, m, b);
      assert Describes(h[right], m[right], right in Elems(free) + {b});
      assert right in free <==> right in Elems(free);
    }
  }

  lemma BlockSizePositive(supers: map<nat, nat>, m: Blocks, a: nat)
    requires Tiled(supers, m) && a in m
    ensures m[a].size >= OVERHEAD
  {
    assert Within(supers, a, m[a]);
  }

  lemma UnlinkClear(supers: map<nat, nat>, m: Blocks, free: seq<nat>, busy: set<nat>, h: Headers, h1: Headers,
      ft: Footers, b: nat)
    requires Geometry(supers, m, free, busy)
    requires forall x: nat :: HeaderChanged(h, h1, x) ==> x in free
    ensures forall others: set<nat> :: others <= busy ==> Untouched(h, h1, ft, ft, m, others)
  {
    hide Tiled, SupersApart, HeaderChanged, Untouched;
    forall others: set<nat> | others <= busy ensures Untouched(h, h1, ft, ft, m, others) {
      assert forall x :: x in free ==> x in Elems(free);
      WritesClear(supers, m, h, h1, ft, ft, others);
    }
  }

  /** Merging two free neighbours: the left one's header and the footer at the end. */
  lemma JoinMemory(supers: map<nat, nat>, m: Blocks, free: seq<nat>, f: set<nat>, others: set<nat>, h: Headers,
      h': Headers,
                   ft: Footers, ft': Footers, head: nat, a: nat, c: nat)
    requires Tiled(supers, m) && Neighbours(m, a, c) && a in f && c in f && a !in others && c !in others
    requires HeadersOk(m, f, h) && FootersOk(m, f, ft) && Linked(h, head, free)
    requires a in h && h' == h[a := h[a].(size := m[a].size + m[c].size, busy := false)]
    requires c + m[c].size >= 16 && ft' == ft[(c + m[c].size - 16) as nat := Footer(m[a].size + m[c].size, false)]
    ensures HeadersOk(Join(m, a, c), f - {c}, h') && FootersOk(Join(m, a, c), f - {c}, ft') && Linked(h', head, free)
    ensures Untouched(h, h', ft, ft', Join(m, a, c), others)
  {
    hide Tiled, HeadersOk, FootersOk, Linked, Untouched;
    var m', f' := Join(m, a, c), f - {c};
    JoinTiled(supers, m, a, c);
    HeadersHere(m, f, h);
    HeaderOf(m, f, h, a);
    BlockSizePositive(supers, m, a);
    JoinAt(m, a, c);
    HeadersPut(m, f, h, m', f', h', {a});
    assert FooterOk(m', f', ft', a);
    forall y: nat | FooterChanged(ft, ft', y) ensures y == FooterAt(m', a) { }
    FootersPut(supers, m, f, ft, m', f', ft', {a});
    LinkedKept(h, head, free, h');
    WritesClear(supers, m', h, h', ft, ft', others);
  }

  lemma JoinAt(m: Blocks, a: nat, c: nat)
    requires a in m && c in m && a != c
    ensures Join(m, a, c).Keys == m.Keys - {c} && Join(m, a, c)[a] == m[a].(size := m[a].size + m[c].size)
    ensures forall x :: x in Join(m, a, c) && x != a ==> x in m && Join(m, a, c)[x] == m[x]
  {
  }

  lemma HeaderOf(m: Blocks, f: set<nat>, h: Headers, a: nat)
    requires HeadersOk(m, f, h) && a in m
    ensures a in h && Describes(h[a], m[a], a in f)
  {
  }

  function Relink(h: Headers, prev: nat, target: nat): Headers
  {
    if prev in h && prev > 0 then h[prev := h[prev].(next := target)] else h
  }

  lemma RelinkKeeps(h: Headers, prev: nat, target: nat)
    ensures SameButNext(h, Relink(h, prev, target))
    ensures forall x: nat :: HeaderChanged(h, Relink(h, prev, target), x) ==> x == prev && prev > 0
  {
  }

  lemma LinkIs(h: Headers, head: nat, free: seq<nat>, i: nat)
    requires Linked(h, head, free) && i < |free|
    ensures free[i] in h && free[i] > 0 && h[free[i]].next == At(free, i + 1)
  {
  }

  lemma UnlinkLinked(h: Headers, head: nat, free: seq<nat>, i: nat, h': Headers, head': nat)
    requires Linked(h, head, free) && NoDup(free) && i < |free|
    requires h' == Relink(h, if i == 0 then 0 else free[i - 1], At(free, i + 1))
    requires head' == if i == 0 then At(free, 1) else head
    ensures Linked(h', head', RemoveAt(free, i))
  {
    LinkedRemove(h, head, free, i, h', head');
  }

  lemma CarveWrote(h: Headers, h': Headers, head: nat, head': nat, free: seq<nat>, i: nat, rest: nat, r: Header,
      c: Header)
    requires i < |free| && rest != free[i]
    requires i > 0 ==> free[i - 1] in h && free[i - 1] > 0 && free[i - 1] != free[i] && free[i - 1] != rest
    requires h' == Relink(h, if i == 0 then 0 else free[i - 1], rest)[rest := r][free[i] := c]
    requires if i == 0 then head' == rest else head' == head
    ensures Wrote(h, h', head, head', free, i, rest, {free[i], rest})
  {
  }

  lemma DescribedSize(h: Header, b: Block, isFree: bool)
    requires Describes(h, b, isFree)
    ensures h.size == b.size && h.base == b.base && h.total == b.total
    ensures h.magic == MAGIC_FREE <==> isFree
  {
  }

  lemma FreeHeader(m: Blocks, free: seq<nat>, h: Headers, head: nat, i: nat)
    requires HeadersOk(m, Elems(free), h) && Linked(h, head, free) && i < |free| && free[i] in m
    ensures free[i] in h && Describes(h[free[i]], m[free[i]], true) && h[free[i]].next == At(free, i + 1)
    ensures i > 0 ==> free[i - 1] in h && free[i - 1] > 0
  {
    assert free[i] in Elems(free);
    assert i > 0 ==> free[i - 1] in free;
  }

  // What TakeAt relies on: the places it writes are distinct.
  lemma TakeFacts(supers: map<nat, nat>, m: Blocks, free: seq<nat>, busy: set<nat>, i: nat, need: nat)
    requires Geometry(supers, m, free, busy) && i < |free| && free[i] in m && 80 <= need <= m[free[i]].size
    ensures free[i] !in busy && free[i] in Elems(free) && free[i] > 0
    ensures i > 0 ==> free[i - 1] != free[i] && free[i - 1] in m && free[i - 1] > 0
    ensures i > 0 ==> free[i - 1] !in busy && free[i - 1] in Elems(free)
    ensures Splits(m, free[i], need) ==>
        free[i] + need !in m && free[i] + need !in Elems(free) && free[i] + need !in busy
    ensures Splits(m, free[i], need) && i > 0 ==> free[i - 1] != free[i] + need
  {
    hide Tiled;
    assert free[i] in Elems(free);
    if i > 0 { assert free[i - 1] in Elems(free); BlockPositive(supers, m, free[i - 1]); }
    BlockPositive(supers, m, free[i]);
    CutNew(supers, m, free[i], need, 0);
  }

  lemma BlockPositive(supers: map<nat, nat>, m: Blocks, a: nat)
    requires Tiled(supers, m) && SupersApart(supers) && a in m
    ensures a > 0
  {
    assert Within(supers, a, m[a]);
  }

  /** Between h and h' the i-th link of the chain was redirected to `target` and the headers in
      `own` were written; nothing else changed. */
  ghost predicate Wrote(h: Headers, h': Headers, head: nat, head': nat, free: seq<nat>, i: nat, target: nat,
      own: set<nat>)
    requires i <= |free|
  {
    && LinkTo(h', head', free, i, target) && (i > 0 ==> head' == head)
    && (forall x: nat :: x in h && x !in own ==> x in h' && h'[x] == h[x].(next := h'[x].next))
    && (forall x: nat :: x in h && x !in own && (i == 0 || x != free[i - 1]) ==> x in h' && h'[x] == h[x])
    && (forall x: nat :: x in h' ==> x in h || x in own)
  }

  lemma WroteChanged(h: Headers, h': Headers, head: nat, head': nat, free: seq<nat>, i: nat, target: nat,
      own: set<nat>)
    requires i <= |free| && Wrote(h, h', head, head', free, i, target, own)
    ensures forall x: nat :: HeaderChanged(h, h', x) ==> x in own || (i > 0 && x == free[i - 1])
  {
  }

  lemma CutMemory(supers: map<nat, nat>, m: Blocks, free: seq<nat>, busy: set<nat>, h: Headers, ft: Footers,
      head: nat,
                  i: nat, need: nat, junk: nat, h': Headers, ft': Footers, head': nat)
    requires Geometry(supers, m, free, busy)
    requires HeadersOk(m, Elems(free), h) && FootersOk(m, Elems(free), ft) && Linked(h, head, free)
    requires i < |free| && free[i] in m && 80 <= need && Splits(m, free[i], need) && need % 16 == 0
    requires Wrote(h, h', head, head', free, i, free[i] + need, {free[i], free[i] + need})
    requires free[i] in h' && Describes(h'[free[i]], m[free[i]].(size := need), false)
    requires free[i] + need in h' && Describes(h'[free[i] + need],
        Block(m[free[i]].size - need, m[free[i]].base, junk), true)
    requires h'[free[i] + need].next == At(free, i + 1)
    requires ft' == ft[(free[i] + m[free[i]].size - 16) as nat := Footer(m[free[i]].size - need, false)]
                      [(free[i] + need - 16) as nat := Footer(need, true)]
    ensures var m', free' := Cut(m, free[i], need, junk), free[i := free[i] + need];
            && HeadersOk(m', Elems(free'), h') && FootersOk(m', Elems(free'), ft') && Linked(h', head', free')
            && Untouched(h, h', ft, ft', m, busy)
  {
    hide Tiled, SupersApart, Linked, HeadersOk, FootersOk, Untouched, HeaderChanged, FooterChanged, Wrote;
    var a, r := free[i], free[i] + need;
    TakeFacts(supers, m, free, busy, i, need);
    ReplaceElems(free, i, r);
    CutTiled(supers, m, a, need, junk);
    CutHeaders(m, Elems(free), h, h', a, need, junk, free, i, head, head');
    CutFooters(supers, m, Elems(free), ft, ft', a, need, junk);
    CutLinked(h, h', head, head', free, i, r);
    WroteChanged(h, h', head, head', free, i, r, {a, r});
    CutClear(supers, m, h, h', ft, ft', busy, a, need, junk, free, i);
  }

  lemma CutHeaders(m: Blocks, f: set<nat>, h: Headers, h': Headers, a: nat, need: nat, junk: nat,
                   free: seq<nat>, i: nat, head: nat, head': nat)
    requires HeadersOk(m, f, h) && a in m && need <= m[a].size && need > 0 && i < |free|
    requires Wrote(h, h', head, head', free, i, a + need, {a, a + need})
    requires a in h' && Describes(h'[a], m[a].(size := need), false)
    requires a + need in h' && Describes(h'[a + need], Block(m[a].size - need, m[a].base, junk), true)
    ensures HeadersOk(Cut(m, a, need, junk), f - {a} + {a + need}, h')
  {
    hide Describes, LinkTo;
    CutAt(m, a, need, junk);
    HeadersPut(m, f, h, Cut(m, a, need, junk), f - {a} + {a + need}, h', {a, a + need});
  }

  lemma CutAt(m: Blocks, a: nat, need: nat, junk: nat)
    requires a in m && 0 < need <= m[a].size
    ensures Cut(m, a, need, junk)[a + need] == Block(m[a].size - need, m[a].base, junk)
    ensures Cut(m, a, need, junk)[a] == m[a].(size := need)
    ensures Cut(m, a, need, junk).Keys == m.Keys + {a + need}
    ensures forall c :: c in m && c != a && c != a + need ==> Cut(m, a, need, junk)[c] == m[c]
  {
  }

  lemma CutFooters(supers: map<nat, nat>, m: Blocks, f: set<nat>, ft: Footers, ft': Footers, a: nat, need: nat,
      junk: nat)
    requires FootersOk(m, f, ft) && Tiled(supers, m) && a in m && 80 <= need && Splits(m, a, need) && a + need !in m
    requires ft' == ft[(a + m[a].size - 16) as nat := Footer(m[a].size - need, false)]
        [(a + need - 16) as nat := Footer(need, true)]
    ensures FootersOk(Cut(m, a, need, junk), f - {a} + {a + need}, ft')
  {
    hide Tiled, FootersOk;
    var m', f' := Cut(m, a, need, junk), f - {a} + {a + need};
    CutTiled(supers, m, a, need, junk);
    CutAt(m, a, need, junk);
    assert FooterOk(m', f', ft', a) && FooterOk(m', f', ft', a + need);
    forall y: nat | FooterChanged(ft, ft', y)
        ensures exists x :: x in {a, a + need} && x in m' && y == FooterAt(m', x) {
      assert y == FooterAt(m', a) || y == FooterAt(m', a + need);
    }
    FootersPut(supers, m, f, ft, m', f', ft', {a, a + need});
  }

  lemma CutLinked(h: Headers, h': Headers, head: nat, head': nat, free: seq<nat>, i: nat, r: nat)
    requires Linked(h, head, free) && NoDup(free) && i < |free| && r !in free && r > 0
    requires Wrote(h, h', head, head', free, i, r, {free[i], r}) && r in h' && h'[r].next == At(free, i + 1)
    ensures Linked(h', head', free[i := r])
  {
    LinkedReplace(h, head, free, i, r, h', head');
  }

  lemma CutClear(supers: map<nat, nat>, m: Blocks, h: Headers, h': Headers, ft: Footers, ft': Footers, busy: set<nat>,
                 a: nat, need: nat, junk: nat, free: seq<nat>, i: nat)
    requires Tiled(supers, m) && a in m && 80 <= need && Splits(m, a, need) && a + need !in m && i < |free|
    requires a !in busy && a + need !in busy && (i > 0 ==> free[i - 1] in m && free[i - 1] !in busy)
    requires forall x: nat :: HeaderChanged(h, h', x) ==> x in {a, a + need} || (i > 0 && x == free[i - 1])
    requires ft' == ft[(a + m[a].size - 16) as nat := Footer(m[a].size - need, false)]
        [(a + need - 16) as nat := Footer(need, true)]
    ensures Untouched(h, h', ft, ft', m, busy)
  {
    hide Tiled, HeaderChanged, Spares;
    var m' := Cut(m, a, need, junk);
    CutTiled(supers, m, a, need, junk);
    CutAt(m, a, need, junk);
    forall y: nat | FooterChanged(ft, ft', y) ensures exists x :: x in m' && x !in busy && y == FooterAt(m', x) {
      assert y == FooterAt(m', a) || y == FooterAt(m', a + need);
    }
    WritesClear(supers, m', h, h', ft, ft', busy);
  }

  lemma WholeMemory(supers: map<nat, nat>, m: Blocks, free: seq<nat>, busy: set<nat>, h: Headers, ft: Footers,
      head: nat,
                  i: nat, h': Headers, ft': Footers, head': nat)
    requires Geometry(supers, m, free, busy)
    requires HeadersOk(m, Elems(free), h) && FootersOk(m, Elems(free), ft) && Linked(h, head, free)
    requires i < |free| && free[i] in m && m[free[i]].size >= 80
    requires Wrote(h, h', head, head', free, i, At(free, i + 1), {free[i]})
    requires free[i] in h' && Describes(h'[free[i]], m[free[i]], false)
    requires ft' == ft[(free[i] + m[free[i]].size - 16) as nat := Footer(m[free[i]].size, true)]
    ensures var free' := RemoveAt(free, i);
            && HeadersOk(m, Elems(free'), h') && FootersOk(m, Elems(free'), ft') && Linked(h', head', free')
            && Untouched(h, h', ft, ft', m, busy)
  {
    hide Tiled, SupersApart, Linked, HeadersOk, FootersOk, Untouched, HeaderChanged, Wrote;
    var a := free[i];
    var f' := Elems(free) - {a};
    TakeFacts(supers, m, free, busy, i, 80);
    RemoveAtElems(free, i);
    WholeHeaders(m, Elems(free), h, h', a, free, i, head, head');
    assert FooterOk(m, f', ft', a);
    forall y: nat | FooterChanged(ft, ft', y) ensures y == FooterAt(m, a) { }
    FootersPut(supers, m, Elems(free), ft, m, f', ft', {a});
    WholeLinked(h, h', head, head', free, i);
    WroteChanged(h, h', head, head', free, i, At(free, i + 1), {a});
    WritesClear(supers, m, h, h', ft, ft', busy);
  }

  lemma WholeHeaders(m: Blocks, f: set<nat>, h: Headers, h': Headers, a: nat, free: seq<nat>, i: nat, head: nat,
      head': nat)
    requires HeadersOk(m, f, h) && a in m && i < |free| && Wrote(h, h', head, head', free, i, At(free, i + 1), {a})
    requires a in h' && Describes(h'[a], m[a], false)
    ensures HeadersOk(m, f - {a}, h')
  {
    hide Describes, LinkTo;
    HeadersPut(m, f, h, m, f - {a}, h', {a});
  }

  lemma WholeLinked(h: Headers, h': Headers, head: nat, head': nat, free: seq<nat>, i: nat)
    requires Linked(h, head, free) && NoDup(free) && i < |free|
        && Wrote(h, h', head, head', free, i, At(free, i + 1), {free[i]})
    ensures Linked(h', head', RemoveAt(free, i))
  {
    LinkedRemove(h, head, free, i, h', head');
  }
}
