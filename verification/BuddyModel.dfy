/** The buddy allocator as a state machine on values, and its laws over every run. */
module BuddyModel {
  import opened Bits
  import opened BuddyBlocks
  import opened AllocTypes

  const HEADER: nat := 16

  datatype Counters = Counters(
    liveCount: nat, liveBytes: int, peakCount: nat, peakBytes: int,
    requested: nat, granted: int, success: nat, failures: nat,
    splits: nat, merges: nat, freed: nat)

  /** log2 of the arena size: a 64-bit size that holds at least one header. */
  type Order = x: nat | 4 <= x <= 63 witness 4

  /** `free` holds the blocks of all per-order sets; `live` maps an id to its block. */
  datatype Buddy = Buddy(
    max: Order, arena: bool, free: set<Blk>, live: map<nat, Blk>, nextId: nat, n: Counters)
  {
    function Busy(): set<Blk> { live.Values }
    function BlockCount(): nat { |free| + |live| }
  }

  function Init(max: Order, arena: bool): Buddy
  {
    Buddy(max, arena, if arena then {Blk(0, max)} else {}, map[], 0,
          Counters(0, 0, 0, 0, 0, 0, 0, 0, 0, 0, 0))
  }

  // ---- sizes ----

  function Need(size: nat): nat { HEADER + AlignUp(if size == 0 then 1 else size, 16) }
  function OrderFor(size: nat): nat { CeilLog(Need(size)) }

  lemma RoundBounds(v: nat) returns (q: nat)
    requires v >= 1
    ensures AlignUp(v, 16) == 16 * q && v <= 16 * q < v + 16 && q >= 1
  {
    Pow2Word();
    AlignUpPow2(v, 4);
    q := AlignUp(v, 16) / 16;
  }

  lemma NeedBlocks(size: nat) returns (q: nat)
    ensures Need(size) == 16 + 16 * q && size <= 16 * q && q >= 1
    ensures size > 0 ==> 16 * q < size + 16
    ensures size == 0 ==> q == 1
  {
    q := RoundBounds(if size == 0 then 1 else size);
  }

  lemma OrderAtLeast5(need: nat, k: nat)
    requires 32 <= need <= Pow2(k)
    ensures k >= 5
  {
    Pow2Word();
    if k < 5 { Pow2Mono(k, 4); }
  }

  lemma NeedBounds(size: nat)
    ensures size + HEADER <= Need(size) && 32 <= Need(size) <= Pow2(OrderFor(size))
    ensures OrderFor(size) >= 5
  {
    var q := NeedBlocks(size);
    CeilLogIs(Need(size));
    OrderAtLeast5(Need(size), OrderFor(size));
  }

  lemma NeedExact(size: nat)
    ensures Need(size) % 16 == 0 && Need(size) < if size > 0 then size + 32 else 33
  {
    var q := NeedBlocks(size);
    assert Need(size) == 16 * (1 + q);
  }

  /** A size within the advertised maximum needs no more than the arena, once that has 32 bytes. */
  lemma NeedFits(size: nat, max: Order)
    requires size <= Pow2(max) - HEADER && max >= 5
    ensures Need(size) <= Pow2(max) && OrderFor(size) <= max
  {
    var q := NeedBlocks(size);
    WithinArena(size, q, max);
    OrderAtMost(Need(size), max);
  }

  lemma WithinArena(size: nat, q: nat, max: Order)
    requires size <= Pow2(max) - HEADER && max >= 5
    requires size > 0 ==> 16 * q < size + 16
    requires size == 0 ==> q == 1
    ensures 16 + 16 * q <= Pow2(max)
  {
    SixteenTimes(max - 4);
    Pow2Mono(1, max - 4);
    LastBlock(Pow2(max - 4), size, q);
  }

  lemma SixteenTimes(k: nat)
    ensures Pow2(k + 4) == 16 * Pow2(k)
  {
    assert Pow2(k + 2) == 4 * Pow2(k);
    assert Pow2(k + 4) == 4 * Pow2(k + 2);
  }

  lemma LastBlock(p: nat, size: nat, q: nat)
    requires p >= 2 && size + 16 <= 16 * p
    requires size > 0 ==> 16 * q < size + 16
    requires size == 0 ==> q == 1
    ensures 16 + 16 * q <= 16 * p
  {
  }

  lemma OrderAtMost(need: nat, max: nat)
    requires need <= Pow2(max)
    ensures CeilLog(need) <= max
  {
    CeilLogIs(need);
    if CeilLog(need) > max { Pow2Mono(max, CeilLog(need) - 1); }
  }

  // ---- the operations ----

  predicate Legal(s: Buddy, size: nat, alignment: nat)
  {
    size <= Pow2(s.max) - HEADER
    && (alignment == 0 || (IsPowerOfTwo(alignment) && alignment <= 16))
  }

  /** The block the search picks: the lowest address among the smallest sufficient order. */
  ghost predicate BestFit(free: set<Blk>, k: nat, b: Blk)
  {
    && b in free && b.order >= k
    && forall c :: c in free && c.order >= k ==>
         b.order < c.order || (b.order == c.order && b.off <= c.off)
  }

  ghost predicate SearchHit(free: set<Blk>, k: nat) { exists b :: b in free && b.order >= k }

  lemma {:induction false} BestFitExists(free: set<Blk>, k: nat, b: Blk)
    requires b in free && b.order >= k
    ensures exists m :: BestFit(free, k, m)
    decreases b.order, b.off
  {
    if c :| c in free && c.order >= k && (c.order < b.order || (c.order == b.order && c.off < b.off)) {
      BestFitExists(free, k, c);
    } else {
      assert BestFit(free, k, b);
    }
  }

  ghost function Pick(free: set<Blk>, k: nat): Blk
    requires SearchHit(free, k)
  {
    var w :| w in free && w.order >= k;
    BestFitExists(free, k, w);
    var b :| BestFit(free, k, b);
    b
  }

  function Max(a: int, b: int): int { if a >= b then a else b }

  /** Serving a request from the free block `b`: cut it down and hand out the low piece. */
  function Grant(s: Buddy, size: nat, b: Blk): Buddy
  {
    var k := OrderFor(size);
    var piece := Blk(b.off, k);
    var bytes := Pow2(k) - HEADER;
    var n := s.n.(success := s.n.success + 1,
                  liveCount := s.n.liveCount + 1, peakCount := Max(s.n.liveCount + 1, s.n.peakCount),
                  liveBytes := s.n.liveBytes + bytes, peakBytes := Max(s.n.liveBytes + bytes, s.n.peakBytes),
                  requested := s.n.requested + size, granted := s.n.granted + bytes,
                  splits := s.n.splits + Max(b.order - k, 0));
    s.(free := SplitDown(s.free, b, k) - {piece}, live := s.live[s.nextId + 1 := piece],
       nextId := s.nextId + 1, n := n)
  }

  function GrantedBytes(size: nat): nat
  {
    NeedBounds(size);
    Pow2(OrderFor(size)) - HEADER
  }

  ghost function Allocate(s: Buddy, size: nat, alignment: nat): (Buddy, Outcome)
  {
    if !s.arena then (s, Failed(InitFailed))
    else if size > Pow2(s.max) - HEADER then (s, Failed(SizeTooLarge))
    else if alignment != 0 && (!IsPowerOfTwo(alignment) || alignment > 16) then
      (s, Failed(AlignmentUnsupported))
    else if !SearchHit(s.free, OrderFor(size)) then
      (s.(n := s.n.(failures := s.n.failures + 1)), Failed(CapacityExceeded))
    else
      var b := Pick(s.free, OrderFor(size));
      (Grant(s, size, b), Granted(s.nextId + 1, b.off + HEADER, GrantedBytes(size), 16, s.n.freed > 0))
  }

  /** Returning the block of a live id and coalescing it. */
  function Release(s: Buddy, handle: nat): Buddy
    requires handle in s.live
  {
    var b := s.live[handle];
    var bytes := b.Size() - HEADER;
    var n := s.n.(freed := s.n.freed + 1,
                  merges := s.n.merges + Merges(s.free, b, s.max),
                  liveCount := if s.n.liveCount > 0 then s.n.liveCount - 1 else 0,
                  liveBytes := if s.n.liveBytes >= bytes then s.n.liveBytes - bytes else s.n.liveBytes);
    s.(free := Coalesce(s.free, b, s.max), live := s.live - {handle}, n := n)
  }

  function Free(s: Buddy, handle: nat): (Buddy, Status)
  {
    if handle in s.live then (Release(s, handle), Ok) else (s, Err(InvalidHandle))
  }

  function Reset(s: Buddy): Buddy
  {
    s.(free := if s.arena then {Blk(0, s.max)} else {}, live := map[],
       n := s.n.(liveCount := 0, liveBytes := 0))
  }

  function Shutdown(s: Buddy): Buddy
  {
    s.(free := {}, live := map[], n := s.n.(liveCount := 0, liveBytes := 0))
  }

  // ---- the invariant ----

  /** Free and busy blocks are aligned, disjoint, tile the arena, and no two buddies are free. */
  ghost predicate PartitionOf(free: set<Blk>, busy: set<Blk>, max: nat)
  {
    && free !! busy
    && Tiling(free + busy, max)
    && Maximal(free, max)
    && Total(free) + Total(busy) == Pow2(max)
  }

  ghost predicate Partition(s: Buddy) { PartitionOf(s.free, s.Busy(), s.max) }

  ghost predicate Books(s: Buddy)
  {
    && Injective(s.live)
    && (forall id :: id in s.live ==> 0 < id <= s.nextId && s.live[id].order >= 5)
    && s.n.liveCount == |s.live|
    && s.n.liveBytes + 16 * |s.live| == Total(s.Busy())
    && s.n.liveCount <= s.n.peakCount && 0 <= s.n.liveBytes <= s.n.peakBytes
    && s.n.requested <= s.n.granted
  }

  /** Without an arena, or after shutdown, nothing is free and nothing is live. */
  ghost predicate Down(s: Buddy) { s.free == {} && s.live == map[] }

  ghost predicate Inv(s: Buddy) { Books(s) && (Partition(s) || Down(s)) }

  lemma InitInv(max: Order, arena: bool)
    ensures Inv(Init(max, arena)) && (arena ==> Partition(Init(max, arena)))
  {
    assert Init(max, arena).Busy() == {};
    WholeIsPartition(max);
  }

  lemma WholeIsPartition(max: nat)
    ensures PartitionOf({Blk(0, max)}, {}, max)
  {
    WholeArenaTiling(max);
    assert {Blk(0, max)} + {} == {Blk(0, max)};
    TotalAdd({}, Blk(0, max));
    assert {} + {Blk(0, max)} == {Blk(0, max)};
  }

  // ---- allocate ----

  /** The block count changes by exactly the splits and merges of the step. */
  ghost function Balance(s: Buddy): int { s.BlockCount() - s.n.splits + s.n.merges }

  /** A granted allocation, in terms of the states around it. */
  ghost predicate GrantedWell(s: Buddy, size: nat, s': Buddy, r: Outcome)
    requires r.Granted?
  {
    && r.id !in s.live && r.id == s.nextId + 1 == s'.nextId
    && r.id in s'.live && s'.live == s.live[r.id := s'.live[r.id]]
    && (var b := s'.live[r.id];
        && Fits(b, s.max) && b.order == OrderFor(size)
        && r.addr == b.off + HEADER && r.size == b.Size() - HEADER && size <= r.size
        && forall id :: id in s.live ==> s.live[id].Disjoint(b))
  }

  /** Cutting a free block down to order k and handing out the piece. */
  lemma TakeKeeps(free: set<Blk>, busy: set<Blk>, b: Blk, k: nat, max: nat)
    requires PartitionOf(free, busy, max) && b in free && k <= b.order
    ensures var piece := Blk(b.off, k);
            var free' := SplitDown(free, b, k) - {piece};
            && PartitionOf(free', busy + {piece}, max)
            && piece !in busy && Fits(piece, max)
            && (forall c :: c in busy ==> c.Disjoint(piece))
            && |free'| + 1 == |free| + (b.order - k)
            && Total(busy + {piece}) == Total(busy) + piece.Size()
  {
    var piece := Blk(b.off, k);
    SplitDownKeeps(free, busy, b, k, max);
    var cut := SplitDown(free, b, k);
    TotalRemove(cut, piece);
    TotalAdd(busy, piece);
    TakePiece(cut, busy, piece, max);
  }

  lemma TakePiece(free: set<Blk>, busy: set<Blk>, piece: Blk, max: nat)
    requires Tiling(free + busy, max) && free !! busy && piece in free && MaximalExcept(free, piece, max)
    ensures free - {piece} !! busy + {piece}
    ensures Tiling((free - {piece}) + (busy + {piece}), max)
    ensures Maximal(free - {piece}, max) && Fits(piece, max)
    ensures forall b :: b in busy ==> b.Disjoint(piece)
  {
    assert (free - {piece}) + (busy + {piece}) == free + busy;
    assert forall b :: b in busy ==> b in free + busy;
  }

  /** Returning a busy block and coalescing it. */
  lemma GiveKeeps(free: set<Blk>, busy: set<Blk>, b: Blk, max: nat)
    requires PartitionOf(free, busy, max) && b in busy
    ensures PartitionOf(Coalesce(free, b, max), busy - {b}, max)
    ensures |Coalesce(free, b, max)| + Merges(free, b, max) == |free| + 1
    ensures Total(busy - {b}) + b.Size() == Total(busy)
  {
    assert free + {b} + (busy - {b}) == free + busy;
    CoalesceKeeps(free, busy - {b}, b, max);
    TotalRemove(busy, b);
  }

  lemma GrantPartition(s: Buddy, b: Blk, k: nat, s': Buddy)
    requires Partition(s) && Books(s) && b in s.free && k <= b.order && s'.max == s.max
    requires s'.free == SplitDown(s.free, b, k) - {Blk(b.off, k)}
    requires s'.live == s.live[s.nextId + 1 := Blk(b.off, k)]
    requires s'.n.splits == s.n.splits + (b.order - k) && s'.n.merges == s.n.merges
    ensures Partition(s') && Balance(s') == Balance(s)
  {
    TakeKeeps(s.free, s.Busy(), b, k, s.max);
    LiveAdd(s.live, s.nextId + 1, Blk(b.off, k));
    assert s'.Busy() == s.Busy() + {Blk(b.off, k)};
  }

  lemma GrantBooks(s: Buddy, size: nat, piece: Blk, s': Buddy)
    requires Books(s) && piece !in s.Busy() && piece.order == OrderFor(size)
    requires s'.live == s.live[s.nextId + 1 := piece] && s'.nextId == s.nextId + 1
    requires s'.n.liveCount == s.n.liveCount + 1 && s'.n.liveCount <= s'.n.peakCount
    requires s'.n.liveBytes == s.n.liveBytes + GrantedBytes(size) && s'.n.liveBytes <= s'.n.peakBytes
    requires s'.n.requested == s.n.requested + size && s'.n.granted == s.n.granted + GrantedBytes(size)
    ensures Books(s')
  {
    NeedBounds(size);
    LiveAdd(s.live, s.nextId + 1, piece);
    TotalAdd(s.Busy(), piece);
  }

  lemma GrantWell(s: Buddy, b: Blk, k: nat)
    requires Partition(s) && b in s.free && k <= b.order
    ensures var piece := Blk(b.off, k);
            Fits(piece, s.max) && piece !in s.Busy() && forall id :: id in s.live ==> s.live[id].Disjoint(piece)
  {
    TakeKeeps(s.free, s.Busy(), b, k, s.max);
    assert forall id :: id in s.live ==> s.live[id] in s.Busy();
  }

  lemma CountFailure(s: Buddy, s': Buddy)
    requires Inv(s) && s' == s.(n := s.n.(failures := s.n.failures + 1))
    ensures Inv(s') && (Partition(s) ==> Partition(s')) && Balance(s') == Balance(s)
  {
    hide PartitionOf;
  }

  lemma AllocateGrants(s: Buddy, size: nat, alignment: nat)
    requires Inv(s) && Allocate(s, size, alignment).1.Granted?
    ensures Partition(Allocate(s, size, alignment).0)
    ensures Balance(Allocate(s, size, alignment).0) == Balance(s)
  {
    hide PartitionOf, OrderFor, IsPowerOfTwo, GrantedBytes, SplitDown;
    assert !Down(s);
    var k := OrderFor(size);
    GrantPartition(s, Pick(s.free, k), k, Allocate(s, size, alignment).0);
  }

  lemma AllocateBooks(s: Buddy, size: nat, alignment: nat)
    requires Inv(s) && Allocate(s, size, alignment).1.Granted?
    ensures Books(Allocate(s, size, alignment).0)
  {
    hide PartitionOf, OrderFor, IsPowerOfTwo, SplitDown;
    assert !Down(s);
    var k := OrderFor(size);
    var b := Pick(s.free, k);
    GrantWell(s, b, k);
    GrantBooks(s, size, Blk(b.off, k), Allocate(s, size, alignment).0);
  }

  lemma AllocateWell(s: Buddy, size: nat, alignment: nat)
    requires Inv(s) && Allocate(s, size, alignment).1.Granted?
    ensures GrantedWell(s, size, Allocate(s, size, alignment).0, Allocate(s, size, alignment).1)
  {
    hide PartitionOf, OrderFor, IsPowerOfTwo, SplitDown;
    assert !Down(s);
    var k := OrderFor(size);
    NeedBounds(size);
    GrantWell(s, Pick(s.free, k), k);
    assert s.nextId + 1 !in s.live;
  }

  lemma AllocateFails(s: Buddy, size: nat, alignment: nat)
    requires Allocate(s, size, alignment).1.Failed?
    ensures var s' := Allocate(s, size, alignment).0;
            s' == s || s' == s.(n := s.n.(failures := s.n.failures + 1))
  {
  }

  /** Every allocation keeps the invariant; a granted one is aligned, large enough, new and
      disjoint from everything live; a failed one changes nothing but the failure count. */
  lemma AllocateKeeps(s: Buddy, size: nat, alignment: nat)
    requires Inv(s)
    ensures var (s', r) := Allocate(s, size, alignment);
            && Inv(s') && (Partition(s) ==> Partition(s'))
            && Balance(s') == Balance(s)
            && (r.Granted? ==> GrantedWell(s, size, s', r))
            && (r.Failed? ==> s'.free == s.free && s'.live == s.live && s'.nextId == s.nextId)
  {
    var (s', r) := Allocate(s, size, alignment);
    if r.Granted? {
      AllocateGrants(s, size, alignment);
      AllocateBooks(s, size, alignment);
      AllocateWell(s, size, alignment);
    } else {
      AllocateFails(s, size, alignment);
      if s' != s { CountFailure(s, s'); }
    }
  }

  /** Completeness: a legal request on a usable arena succeeds exactly when some aligned
      region of its order is disjoint from every live block. */
  lemma AllocateComplete(s: Buddy, size: nat, alignment: nat)
    requires Inv(s) && Partition(s) && s.arena && Legal(s, size, alignment)
    ensures Allocate(s, size, alignment).1.Granted? <==> RoomFor(s.Busy(), OrderFor(size), s.max)
    ensures Allocate(s, size, alignment).1.Failed? ==>
              Allocate(s, size, alignment).1 == Failed(CapacityExceeded)
  {
    SearchComplete(s.free, s.Busy(), OrderFor(size), s.max);
  }

  // ---- free ----

  lemma {:induction false} TotalAtLeast(s: set<Blk>)
    requires forall b :: b in s ==> b.order >= 5
    ensures Total(s) >= 16 * |s|
    decreases |s|
  {
    if s != {} {
      var b :| b in s;
      Pow2Mono(5, b.order);
      Pow2Word();
      TotalRemove(s, b);
      TotalAtLeast(s - {b});
    }
  }

  lemma ReleaseBooks(s: Buddy, handle: nat)
    requires Books(s) && handle in s.live
    ensures Books(Release(s, handle))
  {
    var b := s.live[handle];
    var s' := Release(s, handle);
    LiveRemove(s.live, handle);
    assert s'.Busy() == s.Busy() - {b};
    Pow2Mono(5, b.order);
    Pow2Word();
    TotalRemove(s.Busy(), b);
    LivePayload(s');
    assert s.n.liveBytes - (b.Size() - 16) == Total(s'.Busy()) - 16 * |s'.live|;
  }

  lemma LivePayload(s: Buddy)
    requires Injective(s.live) && forall id :: id in s.live ==> s.live[id].order >= 5
    ensures Total(s.Busy()) >= 16 * |s.live|
  {
    InjectiveCount(s.live);
    forall c | c in s.Busy() ensures c.order >= 5 { var id :| id in s.live && s.live[id] == c; }
    TotalAtLeast(s.Busy());
  }

  lemma ReleasePartition(s: Buddy, handle: nat)
    requires Partition(s) && Books(s) && handle in s.live
    ensures Partition(Release(s, handle)) && Balance(Release(s, handle)) == Balance(s)
  {
    LiveRemove(s.live, handle);
    GiveKeeps(s.free, s.Busy(), s.live[handle], s.max);
  }

  lemma FreeKeeps(s: Buddy, handle: nat)
    requires Inv(s)
    ensures var (s', r) := Free(s, handle);
            && Inv(s') && (Partition(s) ==> Partition(s'))
            && Balance(s') == Balance(s)
            && (r == Ok <==> handle in s.live) && s'.live == s.live - {handle}
            && (r != Ok ==> s' == s)
  {
    hide PartitionOf;
    if handle in s.live {
      assert !Down(s);
      ReleasePartition(s, handle);
      ReleaseBooks(s, handle);
    } else {
      assert s.live - {handle} == s.live;
    }
  }

  lemma {:induction false} CoalesceUndoesSplit(free: set<Blk>, b: Blk, k: nat, max: nat)
    requires b in free && b.Aligned() && k <= b.order <= max
    requires forall c :: c in free && c != b ==> c.Disjoint(b)
    ensures Coalesce(SplitDown(free, b, k) - {Blk(b.off, k)}, Blk(b.off, k), max)
         == Coalesce(free - {b}, b, max)
    decreases b.order
  {
    if k < b.order {
      var l, h := b.Low(), b.High();
      HalvesAligned(b);
      var cut := free - {b} + {l, h};
      forall c | c in cut && c != l ensures c.Disjoint(l) { }
      CoalesceUndoesSplit(cut, l, k, max);
      assert l in free ==> l.Disjoint(b);
      assert h in free ==> h.Disjoint(b);
      assert cut - {l} - {h} == free - {b};
    }
  }

  lemma UndoFree(free: set<Blk>, busy: set<Blk>, b: Blk, k: nat, max: nat)
    requires PartitionOf(free, busy, max) && b in free && k <= b.order
    ensures Coalesce(SplitDown(free, b, k) - {Blk(b.off, k)}, Blk(b.off, k), max) == free
  {
    assert Fits(b, max);
    assert forall c :: c in free && c != b ==> c in free + busy;
    CoalesceUndoesSplit(free, b, k, max);
    assert free - {b} + {b} == free;
  }

  lemma ReleaseUndoes(s: Buddy, b: Blk, k: nat, id: nat, s': Buddy)
    requires Partition(s) && b in s.free && k <= b.order && id !in s.live && s'.max == s.max
    requires s'.free == SplitDown(s.free, b, k) - {Blk(b.off, k)}
    requires s'.live == s.live[id := Blk(b.off, k)]
    ensures Release(s', id).free == s.free && Release(s', id).live == s.live
  {
    hide PartitionOf;
    UndoFree(s.free, s.Busy(), b, k, s.max);
    assert s'.live - {id} == s.live;
  }

  /** Freeing what was just allocated restores the free blocks and the live map. */
  lemma FreeUndoesAllocate(s: Buddy, size: nat, alignment: nat)
    requires Inv(s) && Allocate(s, size, alignment).1.Granted?
    ensures var (s', r) := Allocate(s, size, alignment);
            && Free(s', r.id).1 == Ok
            && Free(s', r.id).0.free == s.free && Free(s', r.id).0.live == s.live
  {
    hide PartitionOf, OrderFor, IsPowerOfTwo, GrantedBytes, SplitDown, Release;
    assert !Down(s);
    var k := OrderFor(size);
    ReleaseUndoes(s, Pick(s.free, k), k, s.nextId + 1, Allocate(s, size, alignment).0);
  }

  // ---- conservation and idleness ----

  /** Free bytes, live payload bytes and one header per live block add up to the arena. */
  lemma BytesConserved(s: Buddy)
    requires Inv(s) && Partition(s)
    ensures Total(s.free) + s.n.liveBytes + 16 * s.n.liveCount == Pow2(s.max)
  {
  }

  /** With nothing live, the free sets hold exactly the one whole-arena block. */
  lemma IdleIsWhole(s: Buddy)
    requires Inv(s) && Partition(s) && s.live == map[]
    ensures s.free == {Blk(0, s.max)}
  {
    assert s.Busy() == {};
    var whole := Blk(0, s.max);
    AlignedZero(s.max);
    assert Vacant(whole, s.Busy(), s.max);
    SearchComplete(s.free, s.Busy(), s.max, s.max);
    var f :| f in s.free && f.order >= s.max;
    assert Fits(f, s.max);
    assert f == whole;
    forall g | g in s.free ensures g == whole {
      assert Fits(g, s.max);
      assert g != whole ==> g.Disjoint(whole);
    }
  }

  // ---- runs ----

  datatype Op = OpAllocate(size: nat, alignment: nat) | OpFree(handle: nat) | OpReset | OpShutdown

  ghost function Step(s: Buddy, op: Op): Buddy
  {
    match op
    case OpAllocate(size, alignment) => Allocate(s, size, alignment).0
    case OpFree(h) => Free(s, h).0
    case OpReset => Reset(s)
    case OpShutdown => Shutdown(s)
  }

  ghost function Run(s: Buddy, ops: seq<Op>): Buddy
    decreases |ops|
  {
    if ops == [] then s else Run(Step(s, ops[0]), ops[1..])
  }

  lemma ResetKeeps(s: Buddy)
    requires Inv(s)
    ensures Inv(Reset(s)) && (s.arena ==> Partition(Reset(s)))
  {
    hide PartitionOf;
    assert Reset(s).Busy() == {};
    if s.arena { WholeIsPartition(s.max); }
  }

  lemma ShutdownKeeps(s: Buddy)
    requires Inv(s)
    ensures Inv(Shutdown(s))
  {
    hide PartitionOf;
    assert Shutdown(s).Busy() == {};
  }

  /** Every run of allocate, free, reset and shutdown keeps the invariant. */
  lemma {:induction false} RunKeepsInv(s: Buddy, ops: seq<Op>)
    requires Inv(s)
    ensures Inv(Run(s, ops))
    decreases |ops|
  {
    hide Inv, Allocate, Free;
    if ops != [] {
      match ops[0] {
        case OpAllocate(size, alignment) => AllocateKeeps(s, size, alignment);
        case OpFree(h) => FreeKeeps(s, h);
        case OpReset => ResetKeeps(s);
        case OpShutdown => ShutdownKeeps(s);
      }
      RunKeepsInv(Step(s, ops[0]), ops[1..]);
    }
  }

  /** Without reset or shutdown the arena stays partitioned, and the number of blocks is
      one plus the splits minus the merges. */
  lemma {:induction false} RunBlockCount(s: Buddy, ops: seq<Op>)
    requires Inv(s) && Partition(s)
    requires forall i :: 0 <= i < |ops| ==> ops[i].OpAllocate? || ops[i].OpFree?
    ensures Partition(Run(s, ops)) && Balance(Run(s, ops)) == Balance(s)
    decreases |ops|
  {
    hide Inv, Allocate, Free;
    if ops != [] {
      match ops[0] {
        case OpAllocate(size, alignment) => AllocateKeeps(s, size, alignment);
        case OpFree(h) => FreeKeeps(s, h);
      }
      RunBlockCount(Step(s, ops[0]), ops[1..]);
    }
  }

  lemma FreshRunBlockCount(max: Order, ops: seq<Op>)
    requires forall i :: 0 <= i < |ops| ==> ops[i].OpAllocate? || ops[i].OpFree?
    ensures var s := Run(Init(max, true), ops);
            Inv(s) && Partition(s) && s.BlockCount() + s.n.merges == 1 + s.n.splits
  {
    InitInv(max, true);
    RunBlockCount(Init(max, true), ops);
    RunKeepsInv(Init(max, true), ops);
  }
}
