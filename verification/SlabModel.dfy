/** The slab allocator as a state machine on values: pages of equal slots, a free list for each,
    and the pages given back by trim. */
module SlabModel {
  import opened Bits
  import opened AllocTypes
  import opened Requests
  import opened Sequences

  // ---- the page layout ----

  datatype Layout = Layout(objectSize: nat, pageLog: nat)

  function Page(l: Layout): nat { Pow2(l.pageLog) }

  function Stride(l: Layout): (s: nat)
    ensures s >= 1
  {
    var v := if l.objectSize > 16 then l.objectSize else 16;
    AlignUpBounds(v, 16);
    AlignUp(v, 16)
  }

  // `page_size_ - header_size`, which wraps around for a page below 64 bytes.
  function Room(l: Layout): nat { if Page(l) >= 64 then Page(l) - 64 else WORD - 64 + Page(l) }

  /** Slots of a page; a page too small for one is still given one. */
  function PerSlab(l: Layout): nat { if Div(Room(l), Stride(l)) == 0 then 1 else Div(Room(l), Stride(l)) }

  function Div(x: nat, d: nat): nat
    requires d >= 1
  {
    x / d
  }

  /** The page holds its header and at least one slot. */
  predicate Fits(l: Layout) { l.pageLog <= 62 && 64 + Stride(l) <= Page(l) }

  function Slot(l: Layout, base: nat, j: nat): nat { base + 64 + j * Stride(l) }

  function Slots(l: Layout, base: nat): set<nat> { set j: nat | j < PerSlab(l) :: Slot(l, base, j) }

  /** slab_of's mask: the address with the page offset cleared. */
  function PageOf(l: Layout, a: nat): nat
  {
    AndBound(a, Page(l) - 1);
    a - And(a, Page(l) - 1)
  }

  lemma StrideBounds(l: Layout)
    ensures Stride(l) >= l.objectSize && Stride(l) >= 16 && Stride(l) % 16 == 0
  {
    var v := if l.objectSize > 16 then l.objectSize else 16;
    Pow2Word();
    AlignUpPow2(v, 4);
  }

  lemma MulMono(j: nat, k: nat, s: nat)
    requires j <= k
    ensures j * s <= k * s && (j < k ==> j * s + s <= k * s)
  {
    assert k * s == j * s + (k - j) * s;
    if j < k { MulAtLeast(s, k - j); assert (k - j) * s == s * (k - j); }
  }

  lemma DivMul(x: nat, s: nat)
    requires s >= 1
    ensures (x / s) * s <= x && (s <= x ==> x / s >= 1)
  {
    assert x == s * (x / s) + x % s;
    assert x / s == 0 ==> x == x % s;
  }

  /** Slots lie behind the header and within the page ... */
  lemma SlotInPage(l: Layout, base: nat, j: nat)
    requires Fits(l) && j < PerSlab(l)
    ensures base + 64 <= Slot(l, base, j) && Slot(l, base, j) + Stride(l) <= base + Page(l)
  {
    var s, room := Stride(l), Page(l) - 64;
    DivMul(room, s);
    MulMono(j, PerSlab(l), s);
  }

  /** ... and do not overlap. */
  lemma SlotsApart(l: Layout, base: nat, j: nat, k: nat)
    requires j < k
    ensures Slot(l, base, j) + Stride(l) <= Slot(l, base, k)
  {
    MulMono(j, k, Stride(l));
  }

  lemma {:induction false} SlotCount(l: Layout, base: nat, n: nat)
    ensures |set j: nat | j < n :: Slot(l, base, j)| == n
    decreases n
  {
    var s := set j: nat | j < n :: Slot(l, base, j);
    if n == 0 {
      assert s == {};
    } else {
      SlotCount(l, base, n - 1);
      var s1 := set j: nat | j < n - 1 :: Slot(l, base, j);
      assert Slot(l, base, n - 1) !in s1 by {
        forall j: nat | j < n - 1 ensures Slot(l, base, j) != Slot(l, base, n - 1) { SlotsApart(l, base, j, n - 1); }
      }
      assert s == s1 + {Slot(l, base, n - 1)};
    }
  }

  /** Page masking maps every slot to its own slab. */
  lemma PageOfSlot(l: Layout, base: nat, a: nat)
    requires Fits(l) && Aligned(base, l.pageLog) && a in Slots(l, base)
    ensures PageOf(l, a) == base
  {
    var j: nat :| j < PerSlab(l) && a == Slot(l, base, j);
    SlotInPage(l, base, j);
    MaskIs(l.pageLog, base, a);
  }

  lemma MaskIs(k: nat, base: nat, a: nat)
    requires Aligned(base, k) && base <= a < base + Pow2(k)
    ensures a - And(a, Pow2(k) - 1) == base
  {
    AlignedMod(base, k);
    AndMask(a, k);
    RoundsDown(a, base, Pow2(k));
  }

  lemma RoundsDown(a: nat, base: nat, p: nat)
    requires p > 0 && base % p == 0 && base <= a < base + p
    ensures a - a % p == base
  {
    ModUnique(a, p, base / p, a - base);
  }

  /** A page that does not fit its header and a slot lets its only slot run past its end. */
  lemma SlotsFitIff(l: Layout, base: nat)
    requires l.pageLog <= 62
    ensures Fits(l) <==> forall j: nat :: j < PerSlab(l) ==> Slot(l, base, j) + Stride(l) <= base + Page(l)
  {
    if Fits(l) {
      forall j: nat | j < PerSlab(l) ensures Slot(l, base, j) + Stride(l) <= base + Page(l) { SlotInPage(l, base, j); }
    } else {
      assert Slot(l, base, 0) == base + 64;
      if Page(l) >= 64 { DivSmall(Page(l) - 64, Stride(l)); }
      assert 0 < PerSlab(l);
    }
  }

  lemma DivSmall(x: nat, s: nat)
    requires x < s
    ensures x / s == 0
  {
  }

  lemma SlotAligned(l: Layout, base: nat, a: nat)
    requires Fits(l) && Aligned(base, l.pageLog) && a in Slots(l, base)
    ensures a % 16 == 0
  {
    hide Aligned, Fits, Pow2, Stride, PerSlab;
    StrideBounds(l);
    var j: nat :| j < PerSlab(l) && a == Slot(l, base, j);
    MultipleTimes(j, Stride(l));
    PageMultiple(l, base);
    SumMultiple(base, j * Stride(l));
  }

  lemma SumMultiple(x: nat, y: nat)
    requires x % 16 == 0 && y % 16 == 0
    ensures (x + 64 + y) % 16 == 0
  {
  }

  lemma MultipleTimes(j: nat, s: nat)
    requires s % 16 == 0
    ensures (j * s) % 16 == 0
  {
    var q := s / 16;
    assert s == 16 * q;
    assert j * (16 * q) == 16 * (j * q);
    MultipleOf16(j * s, j * q);
  }

  lemma PageMultiple(l: Layout, base: nat)
    requires Fits(l) && Aligned(base, l.pageLog)
    ensures base % 16 == 0
  {
    Pow2Word();
    if l.pageLog < 4 { StrideBounds(l); Pow2Mono(l.pageLog, 4); }
    LowerAligned(base, l.pageLog, 4);
    AlignedMod(base, 4);
  }

  // ---- the state ----

  datatype Counters = Counters(
    liveCount: nat, liveBytes: nat, peakCount: nat, peakBytes: nat, requested: nat, granted: nat,
    poolHits: nat, freshAllocs: nat, reuse: nat, sameSize: nat, success: nat, failures: nat,
    growth: nat, trims: nat, recovered: nat, peakTotal: nat)

  datatype Slab = Slab(base: nat, free: seq<nat>)

  datatype SlabState = SlabState(
    l: Layout, maxBytes: nat, slabs: seq<Slab>, live: map<nat, nat>, nextId: nat, total: nat, n: Counters)

  function Init(l: Layout, maxBytes: nat): SlabState
  {
    SlabState(l, maxBytes, [], map[], 0, 0, Counters(0, 0, 0, 0, 0, 0, 0, 0, 0, 0, 0, 0, 0, 0, 0, 0))
  }

  // ---- the operations ----

  /** find_slab_with_free: the first slab with a free slot, or the number of slabs. */
  function FirstFree(slabs: seq<Slab>): (i: nat)
    ensures i <= |slabs| && (i < |slabs| ==> slabs[i].free != [])
    ensures forall j :: 0 <= j < i ==> slabs[j].free == []
  {
    if slabs == [] || slabs[0].free != [] then 0 else 1 + FirstFree(slabs[1..])
  }

  /** The free list of a new slab: its slots in address order. */
  function AllSlots(l: Layout, base: nat, n: nat): (r: seq<nat>)
    ensures |r| == n && forall j :: 0 <= j < n ==> r[j] == Slot(l, base, j)
  {
    if n == 0 then [] else AllSlots(l, base, n - 1) + [Slot(l, base, n - 1)]
  }

  function Pop(slabs: seq<Slab>, i: nat): seq<Slab>
    requires i < |slabs| && slabs[i].free != []
  {
    slabs[i := Slab(slabs[i].base, slabs[i].free[..|slabs[i].free| - 1])]
  }

  function LastOf(xs: seq<nat>): nat
    requires xs != []
  {
    xs[|xs| - 1]
  }

  /** Handing out the last free slot of slab i. The slot counts as reused when its slab, with the
      slot already taken, has fewer free slots than it has slots. */
  function Serve(s: SlabState, i: nat, size: nat): (SlabState, Outcome)
    requires i < |s.slabs| && s.slabs[i].free != []
  {
    var slot := LastOf(s.slabs[i].free);
    var reused := |s.slabs[i].free| - 1 < PerSlab(s.l);
    var hit := if reused then 1 else 0;
    (s.(slabs := Pop(s.slabs, i), live := s.live[s.nextId + 1 := slot], nextId := s.nextId + 1,
        n := s.n.(success := s.n.success + 1,
                  liveCount := s.n.liveCount + 1, peakCount := Max(s.n.liveCount + 1, s.n.peakCount),
                  liveBytes := s.n.liveBytes + s.l.objectSize,
                  peakBytes := Max(s.n.liveBytes + s.l.objectSize, s.n.peakBytes),
                  requested := s.n.requested + size, granted := s.n.granted + s.l.objectSize,
                  poolHits := s.n.poolHits + hit, reuse := s.n.reuse + hit, sameSize := s.n.sameSize + hit,
                  freshAllocs := s.n.freshAllocs + 1 - hit)),
     Granted(s.nextId + 1, slot, s.l.objectSize, 16, reused))
  }

  predicate Grows(s: SlabState, mem: Memory) { Wrap64(s.total + Page(s.l)) <= s.maxBytes && mem.Fresh? }

  /** The system allocator's answer: nothing, or a new page-aligned page. */
  ghost predicate Answers(s: SlabState, mem: Memory)
  {
    mem.Fresh? ==>
      && mem.base > 0 && Aligned(mem.base, s.l.pageLog) && mem.base + Page(s.l) < WORD
      && (forall i :: 0 <= i < |s.slabs| ==> s.slabs[i].base != mem.base)
      && s.total + Page(s.l) < WORD
  }

  function Grow(s: SlabState, base: nat): SlabState
  {
    s.(slabs := s.slabs + [Slab(base, AllSlots(s.l, base, PerSlab(s.l)))], total := s.total + Page(s.l),
       n := s.n.(growth := s.n.growth + 1, peakTotal := Max(s.total + Page(s.l), s.n.peakTotal)))
  }

  function Allocate(s: SlabState, size: nat, alignment: nat, mem: Memory): (SlabState, Outcome)
  {
    var i := FirstFree(s.slabs);
    if size > s.l.objectSize then (s, Failed(SizeTooLarge))
    else if !LegalAlignment(alignment) then (s, Failed(AlignmentUnsupported))
    else if i < |s.slabs| then Serve(s, i, size)
    else if !Grows(s, mem) then (s.(n := s.n.(failures := s.n.failures + 1)), Failed(CapacityExceeded))
    else
      assert |Grow(s, mem.base).slabs[|s.slabs|].free| == PerSlab(s.l) >= 1;
      Serve(Grow(s, mem.base), |s.slabs|, size)
  }

  /** slab_of: the first slab whose page the address lies in, or the number of slabs. */
  function SlabOf(slabs: seq<Slab>, page: nat): (i: nat)
    ensures i <= |slabs| && (i < |slabs| ==> slabs[i].base == page)
    ensures forall j :: 0 <= j < i ==> slabs[j].base != page
  {
    if slabs == [] || slabs[0].base == page then 0 else 1 + SlabOf(slabs[1..], page)
  }

  function Push(slabs: seq<Slab>, i: nat, a: nat): seq<Slab>
    requires i < |slabs|
  {
    slabs[i := Slab(slabs[i].base, slabs[i].free + [a])]
  }

  function Free(s: SlabState, id: nat): (SlabState, Status)
  {
    if id !in s.live then (s, Err(InvalidHandle))
    else
      var i := SlabOf(s.slabs, PageOf(s.l, s.live[id]));
      if i == |s.slabs| then (s, Err(InvalidHandle))
      else
        (s.(slabs := Push(s.slabs, i, s.live[id]), live := s.live - {id},
            n := s.n.(sameSize := s.n.sameSize + 1,
                      liveCount := if s.n.liveCount > 0 then s.n.liveCount - 1 else 0,
                      liveBytes := if s.n.liveBytes >= s.l.objectSize then s.n.liveBytes - s.l.objectSize
                          else s.n.liveBytes)), Ok)
  }

  /** release_empty_slabs: the slabs that stay. */
  function Kept(l: Layout, slabs: seq<Slab>): seq<Slab>
  {
    if slabs == [] then []
    else (if |slabs[0].free| == PerSlab(l) then [] else [slabs[0]]) + Kept(l, slabs[1..])
  }

  lemma {:induction false} KeptFewer(l: Layout, slabs: seq<Slab>)
    ensures |Kept(l, slabs)| <= |slabs|
  {
    if slabs != [] { KeptFewer(l, slabs[1..]); }
  }

  function Bytes(l: Layout, pages: nat): nat { pages * Page(l) }

  lemma BytesAdd(l: Layout, i: nat, j: nat)
    ensures Bytes(l, i + j) == Bytes(l, i) + Bytes(l, j) && Bytes(l, 1) == Page(l) && Bytes(l, 0) == 0
  {
    hide Page;
    assert (i + j) * Page(l) == i * Page(l) + j * Page(l);
  }

  function Trim(s: SlabState): SlabState
  {
    KeptFewer(s.l, s.slabs);
    var bytes := Bytes(s.l, |s.slabs| - |Kept(s.l, s.slabs)|);
    s.(slabs := Kept(s.l, s.slabs), total := if s.total >= bytes then s.total - bytes else 0,
       n := s.n.(trims := s.n.trims + 1, recovered := s.n.recovered + bytes))
  }

  /** reset and shutdown. */
  function Reset(s: SlabState): SlabState
  {
    s.(slabs := [], live := map[], total := 0, n := s.n.(liveCount := 0, liveBytes := 0))
  }

  // ---- the invariant ----

  /** A slab's free list holds exactly its slots that are not live, each once. */
  ghost predicate SlabOk(l: Layout, sl: Slab, busy: set<nat>)
  {
    Aligned(sl.base, l.pageLog) && NoDup(sl.free) && Elems(sl.free) == Slots(l, sl.base) - busy
  }

  ghost predicate Housed(l: Layout, slabs: seq<Slab>, a: nat)
  {
    exists i :: 0 <= i < |slabs| && a in Slots(l, slabs[i].base)
  }

  ghost predicate Apart(slabs: seq<Slab>)
  {
    forall i, j :: 0 <= i < j < |slabs| ==> slabs[i].base != slabs[j].base
  }

  ghost predicate SlabsOk(l: Layout, slabs: seq<Slab>, busy: set<nat>)
  {
    && Apart(slabs)
    && (forall i :: 0 <= i < |slabs| ==> SlabOk(l, slabs[i], busy))
    && (forall a :: a in busy ==> Housed(l, slabs, a))
  }

  ghost predicate Inv(s: SlabState)
  {
    && Fits(s.l) && SlabsOk(s.l, s.slabs, s.live.Values)
    && Injective(s.live) && (forall id :: id in s.live ==> 0 < id <= s.nextId)
    && s.n.liveCount == |s.live| && s.total == Bytes(s.l, |s.slabs|)
    && s.n.poolHits == s.n.success && s.n.freshAllocs == 0
  }

  lemma InitInv(l: Layout, maxBytes: nat)
    requires Fits(l)
    ensures Inv(Init(l, maxBytes))
  {
    hide Fits;
    var live: map<nat, nat> := map[];
    assert live.Values == {};
  }

  // ---- facts about slabs ----

  lemma OneHome(l: Layout, b1: nat, b2: nat, a: nat)
    requires Fits(l) && Aligned(b1, l.pageLog) && Aligned(b2, l.pageLog) && a in Slots(l, b1) && a in Slots(l, b2)
    ensures b1 == b2
  {
    PageOfSlot(l, b1, a);
    PageOfSlot(l, b2, a);
  }

  /** The free list is full exactly when no slot of the slab is live. */
  lemma FullIff(l: Layout, sl: Slab, busy: set<nat>)
    requires SlabOk(l, sl, busy)
    ensures |sl.free| <= PerSlab(l)
    ensures |sl.free| == PerSlab(l) <==> Slots(l, sl.base) !! busy
  {
    hide Aligned, PerSlab, Slot;
    ElemsCount(sl.free);
    var all := Slots(l, sl.base);
    SlotCount(l, sl.base, PerSlab(l));
    assert Elems(sl.free) <= all;
    SubsetSize(Elems(sl.free), all);
    if all !! busy { assert all - busy == all; }
  }

  lemma {:induction false} SubsetSize(a: set<nat>, b: set<nat>)
    requires a <= b
    ensures |a| <= |b| && (|a| == |b| <==> a == b)
    decreases |a|
  {
    if x :| x in a {
      SubsetSize(a - {x}, b - {x});
      assert a == (a - {x}) + {x} && b == (b - {x}) + {x};
    }
  }

  // ---- allocate ----

  /** Taking the last free slot of slab i. */
  lemma PopKeeps(l: Layout, slabs: seq<Slab>, busy: set<nat>, i: nat)
    requires Fits(l) && SlabsOk(l, slabs, busy) && i < |slabs| && slabs[i].free != []
    ensures var slot := LastOf(slabs[i].free);
            && slot !in busy && slot in Slots(l, slabs[i].base) && Aligned(slabs[i].base, l.pageLog)
            && SlabsOk(l, Pop(slabs, i), busy + {slot})
  {
    hide Fits, Aligned, Slots;
    var slot, free := LastOf(slabs[i].free), slabs[i].free;
    var slabs', busy' := Pop(slabs, i), busy + {slot};
    assert SlabOk(l, slabs[i], busy);
    assert slot in Elems(free);
    RemoveAtElems(free, |free| - 1);
    assert RemoveAt(free, |free| - 1) == free[..|free| - 1];
    forall j | 0 <= j < |slabs| ensures SlabOk(l, slabs'[j], busy') {
      assert SlabOk(l, slabs[j], busy);
      if j != i { NotHere(l, slabs[i].base, slabs[j].base, slot, busy); }
      else { assert Slots(l, slabs[i].base) - busy - {slot} == Slots(l, slabs[i].base) - busy'; }
    }
    forall a | a in busy' ensures Housed(l, slabs', a) {
      if a != slot {
        assert Housed(l, slabs, a);
        var k :| 0 <= k < |slabs| && a in Slots(l, slabs[k].base);
        assert a in Slots(l, slabs'[k].base);
      } else { assert slot in Slots(l, slabs'[i].base); }
    }
  }

  lemma NotHere(l: Layout, home: nat, other: nat, a: nat, busy: set<nat>)
    requires Fits(l) && Aligned(home, l.pageLog) && Aligned(other, l.pageLog) && home != other && a in Slots(l, home)
    ensures a !in Slots(l, other)
    ensures Slots(l, other) - busy == Slots(l, other) - (busy + {a})
    ensures Slots(l, other) - busy == Slots(l, other) - (busy - {a})
  {
    hide Slots, Aligned, Fits;
    if a in Slots(l, other) { OneHome(l, home, other, a); }
  }

  /** A new page adds a slab with every slot free. */
  lemma GrowKeeps(l: Layout, slabs: seq<Slab>, busy: set<nat>, base: nat)
    requires Fits(l) && SlabsOk(l, slabs, busy) && Aligned(base, l.pageLog)
    requires forall i :: 0 <= i < |slabs| ==> slabs[i].base != base
    ensures SlabsOk(l, slabs + [Slab(base, AllSlots(l, base, PerSlab(l)))], busy)
  {
    hide Fits, Aligned;
    var sl := Slab(base, AllSlots(l, base, PerSlab(l)));
    var slabs' := slabs + [sl];
    AllSlotsOnce(l, base);
    NoneBusy(l, slabs, busy, base);
    forall j | 0 <= j < |slabs'| ensures SlabOk(l, slabs'[j], busy) {
      if j < |slabs| { assert SlabOk(l, slabs[j], busy); }
    }
    forall a | a in busy ensures Housed(l, slabs', a) {
      assert Housed(l, slabs, a);
      var k :| 0 <= k < |slabs| && a in Slots(l, slabs[k].base);
      assert a in Slots(l, slabs'[k].base);
    }
  }

  lemma AllSlotsOnce(l: Layout, base: nat)
    ensures NoDup(AllSlots(l, base, PerSlab(l))) && Elems(AllSlots(l, base, PerSlab(l))) == Slots(l, base)
  {
    hide Slot, AllSlots, PerSlab, Stride;
    var xs := AllSlots(l, base, PerSlab(l));
    forall i, j | 0 <= i < j < |xs| ensures xs[i] != xs[j] { SlotsApart(l, base, i, j); }
    forall a ensures a in Elems(xs) <==> a in Slots(l, base) {
      if a in Slots(l, base) {
        var j: nat :| j < PerSlab(l) && a == Slot(l, base, j);
        assert xs[j] == a;
      }
      if a in xs { var j :| 0 <= j < |xs| && xs[j] == a; assert a == Slot(l, base, j); }
    }
  }

  lemma NoneBusy(l: Layout, slabs: seq<Slab>, busy: set<nat>, base: nat)
    requires Fits(l) && SlabsOk(l, slabs, busy) && Aligned(base, l.pageLog)
    requires forall i :: 0 <= i < |slabs| ==> slabs[i].base != base
    ensures Slots(l, base) - busy == Slots(l, base)
  {
    hide Fits, Aligned, Slots;
    forall a | a in busy ensures a !in Slots(l, base) {
      assert Housed(l, slabs, a);
      var k :| 0 <= k < |slabs| && a in Slots(l, slabs[k].base);
      assert SlabOk(l, slabs[k], busy);
      NotHere(l, slabs[k].base, base, a, busy);
    }
  }

  /** What a granted slot is: new, in a page the allocator holds, aligned, and apart from every live slot. */
  ghost predicate GrantedWell(s: SlabState, s': SlabState, r: Outcome)
    requires r.Granted?
  {
    && r.id == s.nextId + 1 == s'.nextId && r.id !in s.live && s'.live == s.live[r.id := r.addr]
    && r.addr !in s.live.Values && r.addr % 16 == 0 && r.size == s.l.objectSize && r.reused
    && Housed(s.l, s'.slabs, r.addr)
    && forall id :: id in s.live ==> r.addr + s.l.objectSize <= s.live[id] || s.live[id] + s.l.objectSize <= r.addr
  }

  lemma {:induction false} SlotsDisjoint(l: Layout, b1: nat, b2: nat, x: nat, y: nat)
    requires Fits(l) && Aligned(b1, l.pageLog) && Aligned(b2, l.pageLog) && x in Slots(l, b1)
        && y in Slots(l, b2) && x != y
    ensures x + l.objectSize <= y || y + l.objectSize <= x
  {
    hide Stride, PerSlab, Pow2, Aligned;
    StrideBounds(l);
    var j: nat :| j < PerSlab(l) && x == Slot(l, b1, j);
    var k: nat :| k < PerSlab(l) && y == Slot(l, b2, k);
    if b1 == b2 {
      if j < k { SlotsApart(l, b1, j, k); }
      if k < j { SlotsApart(l, b1, k, j); }
    } else {
      SlotInPage(l, b1, j);
      SlotInPage(l, b2, k);
      PagesApart(l, b1, b2);
    }
  }

  lemma PagesApart(l: Layout, b1: nat, b2: nat)
    requires Aligned(b1, l.pageLog) && Aligned(b2, l.pageLog) && b1 != b2
    ensures b1 + Page(l) <= b2 || b2 + Page(l) <= b1
  {
    AlignedLaminar(b1, l.pageLog, b2, l.pageLog);
  }

  lemma SlotApart(l: Layout, slabs: seq<Slab>, busy: set<nat>, base: nat, slot: nat, a: nat)
    requires Fits(l) && SlabsOk(l, slabs, busy) && a in busy && slot !in busy && Aligned(base, l.pageLog)
        && slot in Slots(l, base)
    ensures slot + l.objectSize <= a || a + l.objectSize <= slot
  {
    hide Fits, Aligned, Slots;
    assert Housed(l, slabs, a);
    var k :| 0 <= k < |slabs| && a in Slots(l, slabs[k].base);
    assert SlabOk(l, slabs[k], busy);
    SlotsDisjoint(l, base, slabs[k].base, slot, a);
  }

  lemma ServeInv(s: SlabState, i: nat, size: nat)
    requires Inv(s) && i < |s.slabs| && s.slabs[i].free != []
    ensures Inv(Serve(s, i, size).0) && Balance(Serve(s, i, size).0) == Balance(s) && Serve(s, i, size).1.reused
  {
    hide Fits, SlabsOk, Slots, Aligned, PerSlab, Page, Injective, Housed, Pop, Bytes;
    var slot := LastOf(s.slabs[i].free);
    PopKeeps(s.l, s.slabs, s.live.Values, i);
    PopCount(s.slabs, i);
    NotFull(s, i);
    assert s.nextId + 1 !in s.live;
    LiveAdd(s.live, s.nextId + 1, slot);
  }

  lemma PopCount(slabs: seq<Slab>, i: nat)
    requires i < |slabs| && slabs[i].free != []
    ensures |Pop(slabs, i)| == |slabs| && Pop(slabs, i)[i].base == slabs[i].base
  {
  }

  lemma ServeKeeps(s: SlabState, i: nat, size: nat)
    requires Inv(s) && i < |s.slabs| && s.slabs[i].free != []
    ensures var (s', r) := Serve(s, i, size);
            && Inv(s') && Balance(s') == Balance(s) && r.Granted? && GrantedWell(s, s', r)
  {
    hide Fits, SlabsOk, Slots, Aligned, PerSlab, Page, Injective, Housed, Balance, Bytes, Pop;
    var slot := LastOf(s.slabs[i].free);
    var (s', r) := Serve(s, i, size);
    ServeInv(s, i, size);
    PopKeeps(s.l, s.slabs, s.live.Values, i);
    PopCount(s.slabs, i);
    SlotAligned(s.l, s.slabs[i].base, slot);
    HousedIn(s.l, s'.slabs, i, slot);
    forall id | id in s.live ensures slot + s.l.objectSize <= s.live[id] || s.live[id] + s.l.objectSize <= slot {
      assert s.live[id] in s.live.Values;
      SlotApart(s.l, s.slabs, s.live.Values, s.slabs[i].base, slot, s.live[id]);
    }
  }

  lemma HousedIn(l: Layout, slabs: seq<Slab>, i: nat, a: nat)
    requires i < |slabs| && a in Slots(l, slabs[i].base)
    ensures Housed(l, slabs, a)
  {
  }

  lemma NotFull(s: SlabState, i: nat)
    requires Inv(s) && i < |s.slabs|
    ensures |s.slabs[i].free| <= PerSlab(s.l)
  {
    hide Fits, Slots, Aligned, PerSlab, Injective, Housed;
    FullIff(s.l, s.slabs[i], s.live.Values);
  }

  /** Bytes held plus bytes given back by trim minus the bytes of all pages ever added. */
  function Balance(s: SlabState): int { s.total + s.n.recovered - Bytes(s.l, s.n.growth) }

  lemma GrownInv(s: SlabState, base: nat)
    requires Inv(s) && Aligned(base, s.l.pageLog) && forall i :: 0 <= i < |s.slabs| ==> s.slabs[i].base != base
    ensures Inv(Grow(s, base)) && Balance(Grow(s, base)) == Balance(s)
    ensures |Grow(s, base).slabs| == |s.slabs| + 1 && Grow(s, base).slabs[|s.slabs|].free != []
  {
    hide Fits, SlabsOk, Slots, Aligned, Page, Injective, Bytes;
    GrowKeeps(s.l, s.slabs, s.live.Values, base);
    BytesAdd(s.l, |s.slabs|, 1);
    BytesAdd(s.l, s.n.growth, 1);
  }

  lemma GrownWell(s: SlabState, base: nat, s': SlabState, r: Outcome)
    requires r.Granted? && GrantedWell(Grow(s, base), s', r)
    ensures GrantedWell(s, s', r)
  {
    hide Housed;
  }

  /** What a request does and keeps, whatever its outcome. */
  ghost predicate AllocatedWell(s: SlabState, s': SlabState, r: Outcome)
  {
    Inv(s') && Balance(s') == Balance(s)
        && (if r.Granted? then GrantedWell(s, s', r) else s'.slabs == s.slabs && s'.live == s.live)
  }

  /** Every request keeps the invariant and the page balance. A granted slot is new, aligned, in a
      held page, apart from every live slot, and always reported as reused. */
  lemma AllocateKeeps(s: SlabState, size: nat, alignment: nat, mem: Memory)
    requires Inv(s) && Answers(s, mem)
    ensures AllocatedWell(s, Allocate(s, size, alignment, mem).0, Allocate(s, size, alignment, mem).1)
  {
    hide Fits, SlabsOk, Aligned, LegalAlignment, Serve, Grow, GrantedWell, FirstFree, Injective, Wrap64, Balance;
    var i := FirstFree(s.slabs);
    if size <= s.l.objectSize && LegalAlignment(alignment) {
      if i < |s.slabs| {
        ServeKeeps(s, i, size);
      } else if Grows(s, mem) {
        GrownInv(s, mem.base);
        ServeKeeps(Grow(s, mem.base), |s.slabs|, size);
        var (s', r) := Serve(Grow(s, mem.base), |s.slabs|, size);
        GrownWell(s, mem.base, s', r);
      } else {
        FailedKeeps(s);
      }
    }
  }

  lemma FailedKeeps(s: SlabState)
    requires Inv(s)
    ensures var s' := s.(n := s.n.(failures := s.n.failures + 1)); Inv(s') && Balance(s') == Balance(s)
  {
    hide Fits, SlabsOk, Injective, Bytes;
  }

  /** Completeness: a legal request is granted exactly when some slot of some page is not live, or another page
      stays within the limit and the system has memory. */
  lemma AllocateComplete(s: SlabState, size: nat, alignment: nat, mem: Memory)
    requires Inv(s) && Answers(s, mem) && size <= s.l.objectSize && LegalAlignment(alignment)
    ensures Allocate(s, size, alignment, mem).1.Granted? <==>
              (exists i, a: nat :: 0 <= i < |s.slabs| && a in Slots(s.l, s.slabs[i].base) && a !in s.live.Values)
                  || (s.total + Page(s.l) <= s.maxBytes && mem.Fresh?)
    ensures Allocate(s, size, alignment, mem).1.Failed? ==>
        Allocate(s, size, alignment, mem).1 == Failed(CapacityExceeded)
  {
    hide Fits, Slots, Aligned, LegalAlignment, Wrap64, Grow, Injective, FirstFree;
    if mem.Fresh? { SmallWrap(s.total + Page(s.l)); }
    var i := FirstFree(s.slabs);
    if i < |s.slabs| {
      var a := LastOf(s.slabs[i].free);
      assert SlabOk(s.l, s.slabs[i], s.live.Values);
      assert a in Elems(s.slabs[i].free);
    } else {
      forall k, a: nat | 0 <= k < |s.slabs| && a in Slots(s.l, s.slabs[k].base) ensures a in s.live.Values {
        assert SlabOk(s.l, s.slabs[k], s.live.Values);
        assert s.slabs[k].free == [];
        assert a !in Elems(s.slabs[k].free);
      }
    }
  }

  // ---- free ----

  /** Returning a live slot to its slab. */
  lemma PushKeeps(l: Layout, slabs: seq<Slab>, busy: set<nat>, i: nat, a: nat)
    requires Fits(l) && SlabsOk(l, slabs, busy) && i < |slabs| && a in busy && a in Slots(l, slabs[i].base)
    ensures SlabsOk(l, Push(slabs, i, a), busy - {a})
  {
    hide Fits, Aligned, Slots;
    var slabs', busy' := Push(slabs, i, a), busy - {a};
    assert SlabOk(l, slabs[i], busy);
    assert a !in Elems(slabs[i].free);
    AppendElems(slabs[i].free, a);
    forall j | 0 <= j < |slabs| ensures SlabOk(l, slabs'[j], busy') {
      assert SlabOk(l, slabs[j], busy);
      if j != i { NotHere(l, slabs[i].base, slabs[j].base, a, busy); }
      else { assert Slots(l, slabs[i].base) - busy + {a} == Slots(l, slabs[i].base) - busy'; }
    }
    forall c | c in busy' ensures Housed(l, slabs', c) {
      assert Housed(l, slabs, c);
      var k :| 0 <= k < |slabs| && c in Slots(l, slabs[k].base);
      assert c in Slots(l, slabs'[k].base);
    }
  }

  /** Masking finds the slab of every live slot. */
  lemma HomeFound(s: SlabState, a: nat)
    requires Inv(s) && a in s.live.Values
    ensures var i := SlabOf(s.slabs, PageOf(s.l, a)); i < |s.slabs| && a in Slots(s.l, s.slabs[i].base)
  {
    hide Fits, Aligned, Slots, Injective, PageOf;
    assert Housed(s.l, s.slabs, a);
    var k :| 0 <= k < |s.slabs| && a in Slots(s.l, s.slabs[k].base);
    assert SlabOk(s.l, s.slabs[k], s.live.Values);
    PageOfSlot(s.l, s.slabs[k].base, a);
    var i := SlabOf(s.slabs, PageOf(s.l, a));
    assert i <= k;
  }

  /** A live handle is always freed, its slot goes back to its own slab; an unknown one is refused. */
  lemma FreeKeeps(s: SlabState, id: nat)
    requires Inv(s)
    ensures var (s', r) := Free(s, id);
            && Inv(s') && Balance(s') == Balance(s) && (r == Ok <==> id in s.live) && s'.live == s.live - {id}
            && (r != Ok ==> s' == s) && s'.total == s.total
  {
    hide Fits, SlabsOk, Injective, PageOf, SlabOf, Push, Bytes;
    if id in s.live {
      var a := s.live[id];
      assert a in s.live.Values;
      HomeFound(s, a);
      PushKeeps(s.l, s.slabs, s.live.Values, SlabOf(s.slabs, PageOf(s.l, a)), a);
      LiveRemove(s.live, id);
      PushCount(s.slabs, SlabOf(s.slabs, PageOf(s.l, a)), a);
    } else {
      assert s.live - {id} == s.live;
    }
  }

  lemma PushCount(slabs: seq<Slab>, i: nat, a: nat)
    requires i < |slabs|
    ensures |Push(slabs, i, a)| == |slabs|
  {
  }

  // ---- trim ----

  lemma {:induction false} KeptIs(l: Layout, slabs: seq<Slab>)
    ensures forall sl :: sl in Kept(l, slabs) <==> sl in slabs && |sl.free| != PerSlab(l)
  {
    hide PerSlab;
    if slabs != [] {
      KeptIs(l, slabs[1..]);
      assert slabs == [slabs[0]] + slabs[1..];
    }
  }

  lemma {:induction false} KeptApart(l: Layout, slabs: seq<Slab>)
    requires Apart(slabs)
    ensures Apart(Kept(l, slabs))
  {
    hide PerSlab;
    if slabs != [] {
      KeptApart(l, slabs[1..]);
      KeptIs(l, slabs[1..]);
      var rest := Kept(l, slabs[1..]);
      forall j | 0 <= j < |rest| ensures rest[j].base != slabs[0].base {
        assert rest[j] in slabs[1..];
        var k :| 0 <= k < |slabs[1..]| && slabs[1..][k] == rest[j];
        assert slabs[k + 1] == rest[j];
      }
    }
  }

  lemma KeptOk(l: Layout, slabs: seq<Slab>, busy: set<nat>)
    requires SlabsOk(l, slabs, busy)
    ensures SlabsOk(l, Kept(l, slabs), busy)
  {
    hide Slots, PerSlab, Aligned;
    var kept := Kept(l, slabs);
    KeptIs(l, slabs);
    KeptApart(l, slabs);
    forall j | 0 <= j < |kept| ensures SlabOk(l, kept[j], busy) {
      assert kept[j] in slabs;
      var k :| 0 <= k < |slabs| && slabs[k] == kept[j];
    }
    forall a | a in busy ensures Housed(l, kept, a) {
      assert Housed(l, slabs, a);
      var k :| 0 <= k < |slabs| && a in Slots(l, slabs[k].base);
      FullIff(l, slabs[k], busy);
      assert slabs[k] in kept;
      var j :| 0 <= j < |kept| && kept[j] == slabs[k];
      assert a in Slots(l, kept[j].base);
    }
  }

  /** Trim releases exactly the slabs without a live slot, and keeps the page balance. */
  lemma TrimKeeps(s: SlabState)
    requires Inv(s)
    ensures Inv(Trim(s)) && Balance(Trim(s)) == Balance(s) && Trim(s).live == s.live
    ensures forall sl :: sl in s.slabs ==>
              (sl in Trim(s).slabs <==> exists a :: a in s.live.Values && a in Slots(s.l, sl.base))
  {
    hide Fits, SlabsOk, Slots, PerSlab, Kept, Injective, Bytes;
    KeptFewer(s.l, s.slabs);
    KeptOk(s.l, s.slabs, s.live.Values);
    KeptIs(s.l, s.slabs);
    BytesAdd(s.l, |Kept(s.l, s.slabs)|, |s.slabs| - |Kept(s.l, s.slabs)|);
    forall sl | sl in s.slabs
      ensures sl in Trim(s).slabs <==> exists a :: a in s.live.Values && a in Slots(s.l, sl.base)
    {
      AnyOk(s.l, s.slabs, s.live.Values, sl);
      FullIff(s.l, sl, s.live.Values);
    }
  }

  lemma AnyOk(l: Layout, slabs: seq<Slab>, busy: set<nat>, sl: Slab)
    requires SlabsOk(l, slabs, busy) && sl in slabs
    ensures SlabOk(l, sl, busy)
  {
    hide Slots, Aligned;
  }

  lemma ResetKeeps(s: SlabState)
    requires Inv(s)
    ensures Inv(Reset(s))
  {
    hide Fits;
    var live: map<nat, nat> := map[];
    assert live.Values == {};
    BytesAdd(s.l, 0, 0);
  }

  // ---- runs ----

  datatype Op = OpAllocate(size: nat, alignment: nat, mem: Memory) | OpFree(id: nat) | OpTrim | OpReset

  function Step(s: SlabState, op: Op): SlabState
  {
    match op
    case OpAllocate(size, alignment, mem) => Allocate(s, size, alignment, mem).0
    case OpFree(id) => Free(s, id).0
    case OpTrim => Trim(s)
    case OpReset => Reset(s)
  }

  ghost predicate Takes(s: SlabState, op: Op, s': SlabState)
  {
    (op.OpAllocate? ==> Answers(s, op.mem)) && s' == Step(s, op)
  }

  /** A run: the states it passes through, one for each operation and the first. */
  ghost predicate Runs(states: seq<SlabState>, ops: seq<Op>)
  {
    |states| == |ops| + 1 && forall i :: 0 <= i < |ops| ==> Takes(states[i], ops[i], states[i + 1])
  }

  lemma StepKeeps(s: SlabState, op: Op, s': SlabState)
    requires Inv(s) && Takes(s, op, s')
    ensures Inv(s') && (!op.OpReset? ==> Balance(s') == Balance(s))
  {
    hide Inv, Allocate, Free, Trim, Reset, Balance, Answers;
    match op
    case OpAllocate(size, alignment, mem) => AllocateKeeps(s, size, alignment, mem);
    case OpFree(id) => FreeKeeps(s, id);
    case OpTrim => TrimKeeps(s);
    case OpReset => ResetKeeps(s);
  }

  /** Every state of every run has the invariant: each slab's free list and the live slots in it
      partition its slots. */
  lemma {:induction false} RunKeepsInv(states: seq<SlabState>, ops: seq<Op>, i: nat)
    requires Runs(states, ops) && Inv(states[0]) && i < |states|
    ensures Inv(states[i])
  {
    hide Inv, Takes, Balance;
    if i > 0 {
      RunKeepsInv(states, ops, i - 1);
      assert Takes(states[i - 1], ops[i - 1], states[i]);
      StepKeeps(states[i - 1], ops[i - 1], states[i]);
    }
  }

  /** Without reset, the bytes held and the bytes recovered are those of all pages ever added. */
  lemma {:induction false} RunBalance(l: Layout, maxBytes: nat, states: seq<SlabState>, ops: seq<Op>, i: nat)
    requires Fits(l) && Runs(states, ops) && states[0] == Init(l, maxBytes) && i < |states|
    requires forall k :: 0 <= k < |ops| ==> !ops[k].OpReset?
    ensures states[i].total + states[i].n.recovered == Bytes(states[i].l, states[i].n.growth)
  {
    hide Inv, Takes, Fits, Bytes;
    InitInv(l, maxBytes);
    if i == 0 {
      BytesAdd(l, 0, 0);
    } else {
      RunBalance(l, maxBytes, states, ops, i - 1);
      RunKeepsInv(states, ops, i - 1);
      assert Takes(states[i - 1], ops[i - 1], states[i]);
      StepKeeps(states[i - 1], ops[i - 1], states[i]);
    }
  }

  // ---- the books ----

  /** The bytes of so many objects. */
  function Objects(l: Layout, k: nat): nat { k * l.objectSize }

  lemma ObjectsAdd(l: Layout, k: nat)
    ensures Objects(l, k + 1) == Objects(l, k) + l.objectSize && Objects(l, 0) == 0
  {
  }

  /** The counters of bytes and calls, in terms of the live objects. */
  ghost predicate Booked(s: SlabState)
  {
    && s.n.liveBytes == Objects(s.l, |s.live|) && s.n.granted == Objects(s.l, s.n.success)
    && s.n.requested <= s.n.granted && s.nextId == s.n.success
    && s.n.liveCount <= s.n.peakCount && s.n.liveBytes <= s.n.peakBytes && s.total <= s.n.peakTotal
  }

  lemma ServeBooked(s: SlabState, i: nat, size: nat)
    requires Inv(s) && Booked(s) && i < |s.slabs| && s.slabs[i].free != [] && size <= s.l.objectSize
    ensures Booked(Serve(s, i, size).0)
  {
    hide Objects, Fits, SlabsOk, Bytes, Pop, LastOf, Injective;
    ObjectsAdd(s.l, |s.live|);
    ObjectsAdd(s.l, s.n.success);
    assert s.nextId + 1 !in s.live;
  }

  lemma GrowBooked(s: SlabState, base: nat)
    requires Booked(s)
    ensures Booked(Grow(s, base))
  {
    hide Objects, AllSlots;
  }

  lemma AllocateBooked(s: SlabState, size: nat, alignment: nat, mem: Memory)
    requires Inv(s) && Booked(s) && Answers(s, mem)
    ensures Booked(Allocate(s, size, alignment, mem).0)
  {
    hide Inv, Booked, Serve, Grow, FirstFree, LegalAlignment, Aligned, Wrap64;
    var i := FirstFree(s.slabs);
    if size <= s.l.objectSize && LegalAlignment(alignment) {
      if i < |s.slabs| {
        ServeBooked(s, i, size);
      } else if Grows(s, mem) {
        GrownInv(s, mem.base);
        GrowBooked(s, mem.base);
        SameSize(s, mem.base);
        ServeBooked(Grow(s, mem.base), |s.slabs|, size);
      } else {
        FailedBooked(s);
      }
    }
  }

  lemma SameSize(s: SlabState, base: nat)
    ensures Grow(s, base).l == s.l
  {
  }

  lemma FailedBooked(s: SlabState)
    requires Booked(s)
    ensures Booked(s.(n := s.n.(failures := s.n.failures + 1)))
  {
    hide Objects;
  }

  lemma FreeBooked(s: SlabState, id: nat)
    requires Inv(s) && Booked(s)
    ensures Booked(Free(s, id).0)
  {
    hide Objects, Fits, SlabsOk, Bytes, SlabOf, PageOf, Push, Injective;
    if id in s.live {
      ObjectsAdd(s.l, |s.live| - 1);
      assert |s.live - {id}| == |s.live| - 1 by { LiveLess(s.live, id); }
    }
  }

  lemma LiveLess(live: map<nat, nat>, id: nat)
    requires id in live
    ensures |live - {id}| == |live| - 1
  {
    assert (live - {id}).Keys == live.Keys - {id};
    assert |live.Keys| == |live| && |(live - {id}).Keys| == |live - {id}|;
  }

  lemma TrimBooked(s: SlabState)
    requires Booked(s)
    ensures Booked(Trim(s))
  {
    hide Objects, Kept, Bytes;
  }

  lemma ResetBooked(s: SlabState)
    requires Booked(s)
    ensures Booked(Reset(s))
  {
    hide Objects;
    ObjectsAdd(s.l, 0);
  }

  /** In every state of every run from the start, live bytes are object size times live objects, granted
      bytes object size times grants, and requested bytes no more than granted ones. */
  lemma {:induction false} RunBooked(l: Layout, maxBytes: nat, states: seq<SlabState>, ops: seq<Op>, i: nat)
    requires Fits(l) && Runs(states, ops) && states[0] == Init(l, maxBytes) && i < |states|
    ensures Booked(states[i])
    decreases i
  {
    hide Inv, Booked, Allocate, Free, Trim, Reset, Fits, Answers;
    if i == 0 {
      StartBooked(l, maxBytes);
    } else {
      RunBooked(l, maxBytes, states, ops, i - 1);
      InitInv(l, maxBytes);
      RunKeepsInv(states, ops, i - 1);
      var s, op := states[i - 1], ops[i - 1];
      assert Takes(s, op, states[i]);
      match op
      case OpAllocate(size, alignment, mem) => AllocateBooked(s, size, alignment, mem);
      case OpFree(id) => FreeBooked(s, id);
      case OpTrim => TrimBooked(s);
      case OpReset => ResetBooked(s);
    }
  }

  lemma StartBooked(l: Layout, maxBytes: nat)
    ensures Booked(Init(l, maxBytes))
  {
    hide Objects;
    ObjectsAdd(l, 0);
  }
}
