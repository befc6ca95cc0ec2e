/** The boundary-tag free-list allocator as a state machine on values, and its laws over every run. */
module FreeListModel {
  import opened Bits
  import opened AllocTypes
  import opened Requests
  import opened FreeListBlocks
  import opened Sequences

  datatype Counters = Counters(
    liveCount: nat, liveBytes: nat, peakCount: nat, peakBytes: nat, requested: nat, granted: nat,
    success: nat, failures: nat, growth: nat, freed: nat, coalesced: nat, scanned: nat, peakTotal: nat)

  /** `supers` maps the address of each superblock to its size; `free` is the chain from its head. */
  datatype FreeList = FreeList(
    granule: nat, maxBytes: nat, supers: map<nat, nat>, blocks: Blocks, free: seq<nat>,
    live: map<nat, nat>, nextId: nat, total: nat, n: Counters)

  /** Undefined: the call reads memory behind the superblock, so nothing is said beyond it. */
  datatype Freed = Released | Refused(error: ErrorCode) | Undefined

  function Init(granule: nat, maxBytes: nat): FreeList
  {
    FreeList(granule, maxBytes, map[], map[], [], map[], 0, 0, Counters(0, 0, 0, 0, 0, 0, 0, 0, 0, 0, 0, 0, 0))
  }

  // ---- sizes ----

  function Need(size: nat): nat { 48 + Payload(size) + 16 }

  lemma NeedBounds(size: nat)
    ensures Need(size) >= 80 && Need(size) % 16 == 0
    ensures size + OVERHEAD <= Need(size) <= size + 80 && (size > 0 ==> Need(size) < size + 80)
  {
    hide Payload;
    PayloadBounds(size);
  }

  // ---- the operations ----

  predicate Splits(m: Blocks, a: nat, need: nat) { SizeOf(m, a) >= need + MIN_BLOCK }

  function Served(m: Blocks, a: nat, need: nat, junk: nat): Blocks
    requires a in m
  {
    if Splits(m, a, need) then Cut(m, a, need, junk) else m
  }

  /** Granting the block at position i of the chain: cut off what is not needed, which takes the
      block's place in the chain. */
  function Serve(s: FreeList, i: nat, need: nat, size: nat, junk: nat): FreeList
    requires i < |s.free| && s.free[i] in s.blocks && need <= s.blocks[s.free[i]].size && OVERHEAD <= need
  {
    var a := s.free[i];
    var split := Splits(s.blocks, a, need);
    var bytes := (if split then need else s.blocks[a].size) - OVERHEAD;
    s.(blocks := Served(s.blocks, a, need, junk),
       free := if split then s.free[i := a + need] else RemoveAt(s.free, i),
       live := s.live[s.nextId + 1 := a], nextId := s.nextId + 1,
       n := s.n.(success := s.n.success + 1,
                 liveCount := s.n.liveCount + 1, peakCount := Max(s.n.liveCount + 1, s.n.peakCount),
                 liveBytes := s.n.liveBytes + bytes, peakBytes := Max(s.n.liveBytes + bytes, s.n.peakBytes),
                 requested := s.n.requested + size, granted := s.n.granted + bytes))
  }

  function Scanned(s: FreeList, steps: nat): FreeList { s.(n := s.n.(scanned := s.n.scanned + steps)) }
  function Failing(s: FreeList): FreeList { s.(n := s.n.(failures := s.n.failures + 1)) }

  predicate Grows(s: FreeList, need: nat, mem: Memory)
    requires s.granule >= 1
  {
    Wrap64(s.total + GrowSize(s.granule, need)) <= s.maxBytes && mem.Fresh?
  }

  /** A new superblock, as one free block at the head of the chain. */
  function Grow(s: FreeList, size: nat, base: nat): FreeList
  {
    s.(supers := s.supers[base := size], blocks := s.blocks[base := Block(size, base, size)],
       free := [base] + s.free, total := s.total + size,
       n := s.n.(growth := s.n.growth + 1, peakTotal := Max(s.total + size, s.n.peakTotal)))
  }

  /** The system allocator's answer: nothing, or a new aligned address range of the size asked for. */
  ghost predicate Answers(s: FreeList, need: nat, mem: Memory)
    requires s.granule >= 1
  {
    mem.Fresh? ==>
      && FreshBlock(s.supers, mem.base, GrowSize(s.granule, need))
      && s.total + GrowSize(s.granule, need) < WORD
  }

  /** find_and_split, and what allocate does with its answer. */
  function Find(s: FreeList, need: nat, size: nat, align: nat, junk: nat): (r: (FreeList, Outcome))
    requires OVERHEAD <= need
  {
    var i := FirstFit(s.blocks, s.free, need);
    if i == |s.free| then (Failing(Scanned(s, i)), Failed(OutOfMemory))
    else
      var s' := Serve(Scanned(s, i + 1), i, need, size, junk);
      (s', Granted(s'.nextId, s.free[i] + 48, s'.blocks[s.free[i]].size - OVERHEAD, align, s.n.freed > 0))
  }

  /** A legal request for `need` bytes: search, and once more after growing. */
  function Obtain(s: FreeList, need: nat, size: nat, align: nat, mem: Memory, junk: nat): (FreeList, Outcome)
    requires s.granule >= 1 && OVERHEAD <= need
  {
    var i := FirstFit(s.blocks, s.free, need);
    if i < |s.free| then Find(s, need, size, align, junk)
    else if !Grows(s, need, mem) then (Failing(Scanned(s, i)), Failed(CapacityExceeded))
    else Find(Grow(Scanned(s, i), GrowSize(s.granule, need), mem.base), need, size, align, junk)
  }

  function Allocate(s: FreeList, size: nat, alignment: nat, mem: Memory, junk: nat): (FreeList, Outcome)
    requires s.granule >= 1
  {
    NeedBounds(size);
    if size > MAX_SIZE then (s, Failed(SizeTooLarge))
    else if !LegalAlignment(alignment) then (s, Failed(AlignmentUnsupported))
    else Obtain(s, Need(size), size, Effective(alignment), mem, junk)
  }

  /** The block behind `a`, as coalesce decides it: inside [arena_base, arena_base + arena_total),
      a pointer sum of 64 bits. */
  predicate Guard(m: Blocks, a: nat)
    requires a in m
  {
    m[a].base <= a + m[a].size < Wrap64(m[a].base + m[a].total)
  }

  /** Coalesce would look at memory behind the superblock. */
  predicate Wild(s: FreeList, a: nat)
    requires a in s.blocks
  {
    Guard(s.blocks, a) && Last(s.supers, a, s.blocks[a])
  }

  predicate JoinsRight(m: Blocks, free: seq<nat>, a: nat)
    requires a in m
  {
    Guard(m, a) && a + m[a].size in free && a + m[a].size in m
  }

  ghost predicate JoinsLeft(m: Blocks, free: seq<nat>, a: nat) { exists p: nat :: Neighbours(m, p, a) && p in free }

  function RightBlocks(m: Blocks, free: seq<nat>, a: nat): Blocks
    requires a in m
  {
    if JoinsRight(m, free, a) then Join(m, a, a + m[a].size) else m
  }

  function RightFree(m: Blocks, free: seq<nat>, a: nat): seq<nat>
    requires a in m
  {
    if JoinsRight(m, free, a) then Remove(free, a + m[a].size) else free
  }

  ghost function Left(m: Blocks, free: seq<nat>, a: nat): nat
    requires JoinsLeft(m, free, a)
  {
    var p: nat :| Neighbours(m, p, a) && p in free;
    p
  }

  /** Merge with the left neighbour if that is free, and put the result at the head of the chain. */
  ghost function CoalesceLeft(m: Blocks, free: seq<nat>, a: nat): (Blocks, seq<nat>)
  {
    if JoinsLeft(m, free, a) then
      var p := Left(m, free, a);
      (Join(m, p, a), [p] + Remove(free, p))
    else (m, [a] + free)
  }

  /** Coalesce: the right neighbour first, then the left one. */
  ghost function Coalesce(m: Blocks, free: seq<nat>, a: nat): (Blocks, seq<nat>)
    requires a in m
  {
    CoalesceLeft(RightBlocks(m, free, a), RightFree(m, free, a), a)
  }

  ghost function Release(s: FreeList, id: nat): FreeList
    requires id in s.live && s.live[id] in s.blocks
  {
    var a := s.live[id];
    var (m, free) := Coalesce(s.blocks, s.free, a);
    var bytes := SizeOf(s.blocks, a) - OVERHEAD;
    s.(blocks := m, free := free, live := s.live - {id},
       n := s.n.(freed := s.n.freed + 1, coalesced := s.n.coalesced + 1,
                 liveCount := if s.n.liveCount > 0 then s.n.liveCount - 1 else 0,
                 liveBytes := if s.n.liveBytes >= bytes then s.n.liveBytes - bytes else s.n.liveBytes))
  }

  ghost function Free(s: FreeList, id: nat): (FreeList, Freed)
    requires id in s.live ==> s.live[id] in s.blocks
  {
    if id !in s.live then (s, Refused(InvalidHandle))
    else if Wild(s, s.live[id]) then (s, Undefined)
    else (Release(s, id), Released)
  }

  /** reset and shutdown: every superblock goes back to the system. */
  function Reset(s: FreeList): FreeList
  {
    s.(supers := map[], blocks := map[], free := [], live := map[], total := 0,
       n := s.n.(liveCount := 0, liveBytes := 0))
  }

  // ---- the invariant ----

  /** The tiling, and the chain visits each free block once. */
  ghost predicate Geometry(supers: map<nat, nat>, m: Blocks, free: seq<nat>, busy: set<nat>)
  {
    && SupersApart(supers) && Tiled(supers, m) && NoDup(free)
    && Elems(free) !! busy && Elems(free) + busy == m.Keys
    && forall a :: a in m ==> a % 16 == 0
  }

  ghost predicate Books(s: FreeList)
  {
    && Injective(s.live) && (forall id :: id in s.live ==> 0 < id <= s.nextId)
    && s.n.liveCount == |s.live| && s.n.liveBytes + 64 * |s.live| == Sum(s.live.Values, s.blocks)
    && s.n.liveCount <= s.n.peakCount && s.n.liveBytes <= s.n.peakBytes
    && s.total == Sum(s.blocks.Keys, s.blocks) && s.total <= s.n.peakTotal
    && s.n.requested <= s.n.granted
  }

  ghost predicate Inv(s: FreeList)
  {
    s.granule >= 1 && Geometry(s.supers, s.blocks, s.free, s.live.Values) && Books(s)
  }

  lemma InitInv(granule: nat, maxBytes: nat)
    requires granule >= 1
    ensures Inv(Init(granule, maxBytes))
  {
    EmptyGeometry();
  }

  lemma EmptyGeometry()
    ensures Geometry(map[], map[], [], {}) && Sum({}, map[]) == 0
  {
    var m: Blocks := map[];
    var supers: map<nat, nat> := map[];
    assert forall a, c :: Apart(m, a, c);
    assert forall a :: HasRight(supers, m, a);
    assert forall a :: HasLeft(m, a);
    assert Elems([]) == {};
  }

  // ---- allocate ----

  lemma FreeApart(supers: map<nat, nat>, m: Blocks, free: seq<nat>, busy: set<nat>, i: nat)
    requires Geometry(supers, m, free, busy) && i < |free|
    ensures free[i] !in busy && free[i] in m && busy <= m.Keys && Tiled(supers, m)
  {
    hide Tiled, SupersApart;
    assert free[i] in Elems(free);
  }

  /** Handing out a free block, split or whole. */
  lemma ServeGeometry(supers: map<nat, nat>, m: Blocks, free: seq<nat>, busy: set<nat>, i: nat, need: nat, junk: nat)
    requires Geometry(supers, m, free, busy) && i < |free| && free[i] in m && 80 <= need <= m[free[i]].size
    requires need % 16 == 0
    ensures var a := free[i];
            var chain := if Splits(m, a, need) then free[i := a + need] else RemoveAt(free, i);
            Geometry(supers, Served(m, a, need, junk), chain, busy + {a})
  {
    hide Tiled, SupersApart;
    var a := free[i];
    assert a in Elems(free);
    if Splits(m, a, need) {
      CutApart(supers, m, a, need, junk);
      CutTiled(supers, m, a, need, junk);
      assert a + need !in Elems(free);
      ReplaceElems(free, i, a + need);
    } else {
      RemoveAtElems(free, i);
    }
  }

  lemma ServeSums(supers: map<nat, nat>, m: Blocks, busy: set<nat>, a: nat, need: nat, junk: nat)
    requires Tiled(supers, m) && a in m && a !in busy && 80 <= need <= m[a].size && busy <= m.Keys
    ensures var m' := Served(m, a, need, junk);
            && SizeOf(m', a) == (if Splits(m, a, need) then need else m[a].size)
            && Sum(m'.Keys, m') == Sum(m.Keys, m) && Sum(busy + {a}, m') == Sum(busy, m) + SizeOf(m', a)
  {
    hide Tiled, Sum;
    var m' := Served(m, a, need, junk);
    if Splits(m, a, need) {
      CutApart(supers, m, a, need, junk);
      CutSum(m, a, need, junk);
    }
    SumFrame(busy, m, m');
    SumAdd(busy, m', a);
  }

  lemma ServeBooks(s: FreeList, i: nat, need: nat, size: nat, junk: nat)
    requires Books(s) && i < |s.free| && s.free[i] in s.blocks && 80 <= need <= s.blocks[s.free[i]].size
    requires size + OVERHEAD <= need && s.free[i] !in s.live.Values
    requires var m' := Served(s.blocks, s.free[i], need, junk);
             && SizeOf(m', s.free[i]) == (if Splits(s.blocks, s.free[i], need) then need else s.blocks[s.free[i]].size)
             && Sum(m'.Keys, m') == Sum(s.blocks.Keys, s.blocks)
             && Sum(s.live.Values + {s.free[i]}, m') == Sum(s.live.Values, s.blocks) + SizeOf(m', s.free[i])
    ensures Books(Serve(s, i, need, size, junk))
  {
    hide Sum, Served, Injective, Splits;
    LiveAdd(s.live, s.nextId + 1, s.free[i]);
  }

  /** What a granted request means in terms of the states around it. */
  ghost predicate GrantedWell(s: FreeList, size: nat, align: nat, s': FreeList, r: Outcome)
    requires r.Granted?
  {
    && r.id == s.nextId + 1 == s'.nextId && r.id !in s.live && r.id in s'.live
    && s'.live == s.live[r.id := s'.live[r.id]]
    && (var a := s'.live[r.id];
        && a in s'.blocks && r.addr == a + 48 && r.size + OVERHEAD == s'.blocks[a].size && size <= r.size
        && r.addr % 16 == 0 && r.alignment == align
        && (forall id :: id in s.live ==>
            s.live[id] in s.blocks && s.live[id] in s'.blocks && s'.blocks[s.live[id]] == s.blocks[s.live[id]])
        && (forall id :: id in s.live ==> Apart(s'.blocks, a, s.live[id]) && Apart(s'.blocks, s.live[id], a)))
  }

  lemma ServeKeeps(s: FreeList, i: nat, need: nat, size: nat, junk: nat)
    requires Inv(s) && i < |s.free| && s.free[i] in s.blocks && 80 <= need <= s.blocks[s.free[i]].size
    requires need % 16 == 0 && size + OVERHEAD <= need
    ensures Inv(Serve(s, i, need, size, junk))
  {
    hide Geometry, Books, Served, Splits, RemoveAt, Serve;
    ServeParts(s, i, need, size, junk);
    FreeApart(s.supers, s.blocks, s.free, s.live.Values, i);
    ServeSums(s.supers, s.blocks, s.live.Values, s.free[i], need, junk);
    ServeBooks(s, i, need, size, junk);
    ServeGeometry(s.supers, s.blocks, s.free, s.live.Values, i, need, junk);
    ServeLive(s, s.free[i]);
  }

  lemma ServeParts(s: FreeList, i: nat, need: nat, size: nat, junk: nat)
    requires i < |s.free| && s.free[i] in s.blocks && 80 <= need <= s.blocks[s.free[i]].size
    ensures var a, t := s.free[i], Serve(s, i, need, size, junk);
            && t.granule == s.granule && t.supers == s.supers && t.blocks == Served(s.blocks, a, need, junk)
            && t.free == (if Splits(s.blocks, a, need) then s.free[i := a + need] else RemoveAt(s.free, i))
            && t.live == s.live[s.nextId + 1 := a]
  {
    hide Served, Splits, RemoveAt;
  }

  lemma ServeLive(s: FreeList, a: nat)
    requires Inv(s) && a in s.free
    ensures s.live[s.nextId + 1 := a].Values == s.live.Values + {a}
  {
    hide Tiled, SupersApart, Sum;
    assert a in Elems(s.free);
    LiveAdd(s.live, s.nextId + 1, a);
  }

  lemma GrowGeometry(supers: map<nat, nat>, m: Blocks, free: seq<nat>, busy: set<nat>, base: nat, size: nat)
    requires Geometry(supers, m, free, busy) && FreshBlock(supers, base, size) && OVERHEAD <= size
    ensures base !in m
    ensures Geometry(supers[base := size], m[base := Block(size, base, size)], [base] + free, busy)
  {
    hide Tiled, SupersApart, FreshBlock;
    AddTiled(supers, m, base, size);
    FreshMod(supers, base, size);
    assert base !in Elems(free);
    PushElems(free, base);
  }

  lemma GrowSums(m: Blocks, busy: set<nat>, base: nat, size: nat)
    requires base !in m && busy <= m.Keys
    ensures var m' := m[base := Block(size, base, size)];
            Sum(m'.Keys, m') == Sum(m.Keys, m) + size && Sum(busy, m') == Sum(busy, m)
  {
    hide Sum;
    var m' := m[base := Block(size, base, size)];
    SumFrame(busy, m, m');
    SumFrame(m.Keys, m, m');
    SumAdd(m.Keys, m', base);
    assert m'.Keys == m.Keys + {base};
  }

  lemma GrowBooks(s: FreeList, size: nat, base: nat)
    requires Books(s)
    requires var m' := s.blocks[base := Block(size, base, size)];
             Sum(m'.Keys, m') == Sum(s.blocks.Keys, s.blocks) + size
             && Sum(s.live.Values, m') == Sum(s.live.Values, s.blocks)
    ensures Books(Grow(s, size, base))
  {
    hide Sum, Injective;
  }

  lemma GrowKeeps(s: FreeList, need: nat, mem: Memory)
    requires Inv(s) && Answers(s, need, mem) && Grows(s, need, mem) && OVERHEAD <= need
    ensures Inv(Grow(s, GrowSize(s.granule, need), mem.base))
  {
    hide Books, Sum, GrowSize, FreshBlock, Tiled, SupersApart;
    GrowSizeBounds(s.granule, need);
    var size := GrowSize(s.granule, need);
    GrowGeometry(s.supers, s.blocks, s.free, s.live.Values, mem.base, size);
    GrowSums(s.blocks, s.live.Values, mem.base, size);
    GrowBooks(s, size, mem.base);
  }

  lemma FreshMod(supers: map<nat, nat>, base: nat, size: nat)
    requires FreshBlock(supers, base, size)
    ensures base % 16 == 0
  {
  }

  lemma ServedFrame(m: Blocks, a: nat, need: nat, junk: nat, c: nat)
    requires a in m && 80 <= need <= m[a].size && c in m && c != a && (Splits(m, a, need) ==> a + need !in m)
    ensures c in Served(m, a, need, junk) && Served(m, a, need, junk)[c] == m[c] && a in Served(m, a, need, junk)
  {
  }

  lemma ServedSize(m: Blocks, a: nat, need: nat, size: nat, junk: nat)
    requires a in m && 80 <= need <= m[a].size && size + OVERHEAD <= need
    ensures a in Served(m, a, need, junk) && size + OVERHEAD <= Served(m, a, need, junk)[a].size
  {
  }

  lemma FreeFacts(s: FreeList, i: nat)
    requires Inv(s) && i < |s.free|
    ensures s.free[i] in s.blocks && s.free[i] % 16 == 0 && s.nextId + 1 !in s.live && Tiled(s.supers, s.blocks)
    ensures forall id :: id in s.live ==> s.live[id] in s.blocks && s.live[id] != s.free[i]
  {
    hide Sum, SupersApart, Tiled, Injective;
    FreeApart(s.supers, s.blocks, s.free, s.live.Values, i);
    assert forall id :: id in s.live ==> s.live[id] in s.live.Values;
  }

  lemma InvApart(s: FreeList)
    requires Inv(s)
    ensures forall a, c :: Apart(s.blocks, a, c)
  {
    hide Tiled, SupersApart, Apart, Books;
    TiledApart(s.supers, s.blocks);
  }

  lemma ServeWell(s: FreeList, i: nat, need: nat, size: nat, align: nat, junk: nat, s': FreeList, r: Outcome)
    requires Inv(s) && i < |s.free| && s.free[i] in s.blocks && 80 <= need <= s.blocks[s.free[i]].size
    requires need % 16 == 0 && size + OVERHEAD <= need && s' == Serve(s, i, need, size, junk)
    requires r.Granted? && r.id == s'.nextId && r.addr == s.free[i] + 48 && r.alignment == align
    requires r.size + OVERHEAD == SizeOf(s'.blocks, s.free[i])
    ensures GrantedWell(s, size, align, s', r)
  {
    hide Inv, Tiled, Apart, Served, Splits;
    var a := s.free[i];
    FreeFacts(s, i);
    ServeKeeps(s, i, need, size, junk);
    InvApart(s');
    ServedSize(s.blocks, a, need, size, junk);
    CutNew(s.supers, s.blocks, a, need, junk);
    forall id | id in s.live
      ensures s.live[id] in s.blocks && s.live[id] in s'.blocks && s'.blocks[s.live[id]] == s.blocks[s.live[id]]
    {
      ServedFrame(s.blocks, a, need, junk, s.live[id]);
    }
  }

  lemma CutNew(supers: map<nat, nat>, m: Blocks, a: nat, need: nat, junk: nat)
    requires Tiled(supers, m) && a in m && OVERHEAD <= need
    ensures Splits(m, a, need) ==> a + need !in m
  {
    hide Tiled;
    if Splits(m, a, need) { CutApart(supers, m, a, need, junk); }
  }

  lemma TiledApart(supers: map<nat, nat>, m: Blocks)
    requires Tiled(supers, m)
    ensures forall a, c :: Apart(m, a, c)
  {
    hide Apart;
  }

  lemma FindKeeps(s: FreeList, need: nat, size: nat, align: nat, junk: nat)
    requires Inv(s) && 80 <= need && need % 16 == 0 && size + OVERHEAD <= need
    ensures var (s', r) := Find(s, need, size, align, junk);
            && Inv(s') && s'.supers == s.supers && s'.total == s.total
            && (r.Granted? ==> GrantedWell(s, size, align, s', r))
            && (r.Failed? ==> s' == Failing(Scanned(s, |s.free|)))
            && (r.Granted? <==> FirstFit(s.blocks, s.free, need) < |s.free|)
  {
    hide Geometry, Sum, Injective, FirstFit, GrantedWell;
    var i := FirstFit(s.blocks, s.free, need);
    if i < |s.free| {
      var t := Scanned(s, i + 1);
      ScanKeeps(s, i + 1);
      ServeKeeps(t, i, need, size, junk);
      var (s', r) := Find(s, need, size, align, junk);
      ServeWell(t, i, need, size, align, junk, s', r);
      SameWell(s, t, size, align, s', r);
    } else {
      ScanKeeps(s, i);
    }
  }

  lemma SameWell(s: FreeList, t: FreeList, size: nat, align: nat, s': FreeList, r: Outcome)
    requires r.Granted? && GrantedWell(t, size, align, s', r)
    requires t.nextId == s.nextId && t.live == s.live && t.blocks == s.blocks
    ensures GrantedWell(s, size, align, s', r)
  {
    hide Apart;
  }

  lemma ScanKeeps(s: FreeList, steps: nat)
    requires Inv(s)
    ensures Inv(Scanned(s, steps)) && Inv(Failing(Scanned(s, steps)))
  {
    hide Geometry, Sum, Injective;
  }

  /** After a growth the search finds the new block at once. */
  lemma GrownHit(s: FreeList, need: nat, base: nat, size: nat)
    requires need <= size
    ensures FirstFit(Grow(s, size, base).blocks, Grow(s, size, base).free, need) == 0
  {
  }

  lemma GrownWell(s: FreeList, need: nat, size: nat, align: nat, base: nat, grown: nat, s': FreeList, r: Outcome)
    requires Inv(s) && base !in s.blocks && r.Granted? && GrantedWell(Grow(s, grown, base), size, align, s', r)
    ensures GrantedWell(s, size, align, s', r)
  {
    hide Apart, Tiled, SupersApart, Books;
    assert forall id :: id in s.live ==> s.live[id] in s.live.Values;
  }

  lemma ObtainKeeps(s: FreeList, need: nat, size: nat, align: nat, mem: Memory, junk: nat)
    requires Inv(s) && Answers(s, need, mem) && 80 <= need && need % 16 == 0 && size + OVERHEAD <= need
    ensures var (s', r) := Obtain(s, need, size, align, mem, junk);
            && Inv(s') && (r.Granted? ==> GrantedWell(s, size, align, s', r))
            && (r.Failed? ==>
                s'.blocks == s.blocks && s'.free == s.free && s'.live == s.live && r.error == CapacityExceeded)
            && (r.Granted? <==> FirstFit(s.blocks, s.free, need) < |s.free| || Grows(s, need, mem))
  {
    hide Geometry, Books, FirstFit, GrantedWell, Find, GrowSize, FreshBlock, Grow;
    var i := FirstFit(s.blocks, s.free, need);
    FindKeeps(s, need, size, align, junk);
    ScanKeeps(s, i);
    if i == |s.free| && Grows(s, need, mem) {
      var t, grown := Scanned(s, i), GrowSize(s.granule, need);
      GrowKeeps(t, need, mem);
      GrowSizeBounds(s.granule, need);
      GrownHit(t, need, mem.base, grown);
      FindKeeps(Grow(t, grown, mem.base), need, size, align, junk);
      var (s', r) := Find(Grow(t, grown, mem.base), need, size, align, junk);
      ChainNotEmpty(t, grown, mem.base);
      NotYet(s, mem.base, grown);
      GrownWell(t, need, size, align, mem.base, grown, s', r);
      SameWell(s, t, size, align, s', r);
    }
  }

  lemma ChainNotEmpty(s: FreeList, size: nat, base: nat)
    ensures |Grow(s, size, base).free| > 0
  {
  }

  lemma NotYet(s: FreeList, base: nat, size: nat)
    requires Inv(s) && FreshBlock(s.supers, base, size) && OVERHEAD <= size
    ensures base !in s.blocks
  {
    hide Tiled, SupersApart, FreshBlock, Books;
    AddTiled(s.supers, s.blocks, base, size);
  }

  /** Every allocation keeps the invariant. A granted block is new, aligned, large enough and apart
      from everything live; the search after a successful growth never fails. */
  lemma AllocateKeeps(s: FreeList, size: nat, alignment: nat, mem: Memory, junk: nat)
    requires Inv(s) && Answers(s, Need(size), mem)
    ensures var (s', r) := Allocate(s, size, alignment, mem, junk);
            && Inv(s') && (r.Granted? ==> GrantedWell(s, size, Effective(alignment), s', r))
            && (r.Failed? ==> s'.blocks == s.blocks && s'.free == s.free && s'.live == s.live && r.error != OutOfMemory)
  {
    hide Inv, Need, FirstFit, GrantedWell, Obtain, Answers, LegalAlignment;
    NeedBounds(size);
    if size <= MAX_SIZE && LegalAlignment(alignment) {
      ObtainKeeps(s, Need(size), size, Effective(alignment), mem, junk);
    }
  }

  /** Completeness: a legal request is granted exactly when some free block is large enough, or a superblock for
      it stays within the limit and the system has memory. */
  lemma AllocateComplete(s: FreeList, size: nat, alignment: nat, mem: Memory, junk: nat)
    requires Inv(s) && Answers(s, Need(size), mem) && size <= MAX_SIZE && LegalAlignment(alignment)
    ensures var r := Allocate(s, size, alignment, mem, junk).1;
            && (r.Granted? <==>
                  (exists a :: a in s.blocks && a !in s.live.Values && s.blocks[a].size >= Need(size))
                  || (s.total + GrowSize(s.granule, Need(size)) <= s.maxBytes && mem.Fresh?))
            && (r.Failed? ==> r == Failed(CapacityExceeded))
  {
    hide Geometry, Books, Need, FirstFit, GrantedWell, Obtain, Answers, LegalAlignment, GrowSize;
    NeedBounds(size);
    ObtainKeeps(s, Need(size), size, Effective(alignment), mem, junk);
    SearchComplete(s, Need(size));
    if mem.Fresh? { NoWrap(s, Need(size), mem); }
  }

  lemma NoWrap(s: FreeList, need: nat, mem: Memory)
    requires s.granule >= 1 && Answers(s, need, mem) && mem.Fresh?
    ensures Wrap64(s.total + GrowSize(s.granule, need)) == s.total + GrowSize(s.granule, need)
  {
    hide GrowSize, FreshBlock;
    SmallWrap(s.total + GrowSize(s.granule, need));
  }

  lemma SearchComplete(s: FreeList, need: nat)
    requires Inv(s) && need > 0
    ensures FirstFit(s.blocks, s.free, need) < |s.free|
       <==> exists a :: a in s.blocks && a !in s.live.Values && s.blocks[a].size >= need
  {
    hide Tiled, SupersApart, Books;
    var i := FirstFit(s.blocks, s.free, need);
    if i < |s.free| { FreeApart(s.supers, s.blocks, s.free, s.live.Values, i); }
    if a :| a in s.blocks && a !in s.live.Values && s.blocks[a].size >= need {
      assert a in Elems(s.free);
      var k :| 0 <= k < |s.free| && s.free[k] == a;
      assert SizeOf(s.blocks, s.free[k]) >= need;
    }
  }

  // ---- free ----

  /** What stays the same when `a`, with a free neighbour or two, becomes part of a free block. */
  ghost predicate SameOthers(m: Blocks, m': Blocks, others: set<nat>)
  {
    && Sum(m'.Keys, m') == Sum(m.Keys, m)
    && forall c :: c in others ==> c in m && c in m' && m[c] == m'[c]
  }

  lemma RightJoin(supers: map<nat, nat>, m: Blocks, free: seq<nat>, busy: set<nat>, a: nat, c: nat)
    requires Geometry(supers, m, free, busy) && a in busy && c in free && Neighbours(m, a, c)
    ensures Geometry(supers, Join(m, a, c), Remove(free, c), busy)
    ensures SameOthers(m, Join(m, a, c), busy - {a})
  {
    hide Tiled, SupersApart, Sum;
    assert c in Elems(free);
    JoinTiled(supers, m, a, c);
    JoinSum(m, a, c);
    RemoveElems(free, c);
  }

  lemma LeftJoin(supers: map<nat, nat>, m: Blocks, free: seq<nat>, busy: set<nat>, p: nat, a: nat)
    requires Geometry(supers, m, free, busy) && a in busy && p in free && Neighbours(m, p, a)
    ensures Geometry(supers, Join(m, p, a), [p] + Remove(free, p), busy - {a})
    ensures SameOthers(m, Join(m, p, a), busy - {a})
  {
    hide Tiled, SupersApart, Sum;
    assert p in Elems(free);
    JoinTiled(supers, m, p, a);
    JoinSum(m, p, a);
    RemoveElems(free, p);
    assert p !in Elems(Remove(free, p));
    PushElems(Remove(free, p), p);
  }

  lemma NoJoin(supers: map<nat, nat>, m: Blocks, free: seq<nat>, busy: set<nat>, a: nat)
    requires Geometry(supers, m, free, busy) && a in busy
    ensures Geometry(supers, m, [a] + free, busy - {a}) && SameOthers(m, m, busy - {a})
  {
    hide Tiled, SupersApart, Sum;
    assert a !in Elems(free);
    PushElems(free, a);
  }

  lemma RightNeighbour(supers: map<nat, nat>, m: Blocks, a: nat)
    requires Tiled(supers, m) && a in m && !Last(supers, a, m[a])
    ensures Neighbours(m, a, a + m[a].size)
  {
    hide Last, Neighbours;
    assert HasRight(supers, m, a);
  }

  lemma RightStep(supers: map<nat, nat>, m: Blocks, free: seq<nat>, busy: set<nat>, a: nat)
    requires Geometry(supers, m, free, busy) && a in busy && a in m && !(Guard(m, a) && Last(supers, a, m[a]))
    ensures Geometry(supers, RightBlocks(m, free, a), RightFree(m, free, a), busy)
    ensures SameOthers(m, RightBlocks(m, free, a), busy - {a}) && a in RightBlocks(m, free, a)
  {
    hide Tiled, SupersApart, Sum, Guard, Last, Neighbours;
    if JoinsRight(m, free, a) {
      RightNeighbour(supers, m, a);
      RightJoin(supers, m, free, busy, a, a + m[a].size);
    }
  }

  lemma LeftStep(supers: map<nat, nat>, m: Blocks, free: seq<nat>, busy: set<nat>, a: nat)
    requires Geometry(supers, m, free, busy) && a in busy
    ensures var (m', free') := CoalesceLeft(m, free, a);
            Geometry(supers, m', free', busy - {a}) && SameOthers(m, m', busy - {a})
  {
    hide Geometry, SameOthers;
    if JoinsLeft(m, free, a) {
      LeftJoin(supers, m, free, busy, Left(m, free, a), a);
    } else {
      NoJoin(supers, m, free, busy, a);
    }
  }

  lemma CoalesceKeeps(supers: map<nat, nat>, m: Blocks, free: seq<nat>, busy: set<nat>, a: nat)
    requires Geometry(supers, m, free, busy) && a in busy && a in m && !(Guard(m, a) && Last(supers, a, m[a]))
    ensures var (m', free') := Coalesce(m, free, a);
            Geometry(supers, m', free', busy - {a}) && SameOthers(m, m', busy - {a})
  {
    hide Geometry, Sum, RightBlocks, RightFree, CoalesceLeft;
    RightStep(supers, m, free, busy, a);
    LeftStep(supers, RightBlocks(m, free, a), RightFree(m, free, a), busy, a);
  }

  lemma LivePayload(s: FreeList, id: nat)
    requires Inv(s) && id in s.live
    ensures var a := s.live[id];
            && a in s.live.Values && a in s.blocks && s.blocks[a].size >= OVERHEAD
            && Sum(s.live.Values, s.blocks) == s.blocks[a].size + Sum(s.live.Values - {a}, s.blocks)
            && Sum(s.live.Values - {a}, s.blocks) >= 64 * (|s.live| - 1)
  {
    hide SupersApart, Sum;
    var a := s.live[id];
    assert a in s.live.Values;
    forall c | c in s.live.Values ensures SizeOf(s.blocks, c) >= OVERHEAD {
      assert c in s.blocks && Within(s.supers, c, s.blocks[c]);
    }
    SumRemove(s.live.Values, s.blocks, a);
    SumAtLeast(s.live.Values - {a}, s.blocks);
    InjectiveCount(s.live);
  }

  lemma ReleaseBooks(s: FreeList, id: nat, m: Blocks)
    requires Books(s) && id in s.live && s.live[id] in s.live.Values && s.live[id] in s.blocks
    requires s.blocks[s.live[id]].size >= OVERHEAD
    requires Sum(s.live.Values, s.blocks) == s.blocks[s.live[id]].size + Sum(s.live.Values - {s.live[id]}, s.blocks)
    requires Sum(s.live.Values - {s.live[id]}, s.blocks) >= 64 * (|s.live| - 1)
    requires Coalesce(s.blocks, s.free, s.live[id]).0 == m
    requires Sum(m.Keys, m) == Sum(s.blocks.Keys, s.blocks)
    requires Sum(s.live.Values - {s.live[id]}, m) == Sum(s.live.Values - {s.live[id]}, s.blocks)
    ensures Books(Release(s, id))
  {
    hide Sum, Injective, Coalesce;
    LiveRemove(s.live, id);
  }

  lemma ReleaseKeeps(s: FreeList, id: nat)
    requires Inv(s) && id in s.live && s.live[id] in s.blocks && !Wild(s, s.live[id])
    ensures Inv(Release(s, id))
    ensures SameOthers(s.blocks, Release(s, id).blocks, (s.live - {id}).Values)
  {
    hide Geometry, Books, Sum, Coalesce, Guard, Last;
    var a := s.live[id];
    LivePayload(s, id);
    CoalesceKeeps(s.supers, s.blocks, s.free, s.live.Values, a);
    var (m, free) := Coalesce(s.blocks, s.free, a);
    SumFrame(s.live.Values - {a}, s.blocks, m);
    ReleaseBooks(s, id, m);
    assert (s.live - {id}).Values == s.live.Values - {a} by { LiveRemoved(s, id); }
  }

  lemma LiveRemoved(s: FreeList, id: nat)
    requires Books(s) && id in s.live
    ensures (s.live - {id}).Values == s.live.Values - {s.live[id]}
  {
    hide Sum, Injective;
    LiveRemove(s.live, id);
  }

  lemma LiveInBlocks(s: FreeList)
    requires Inv(s)
    ensures forall id :: id in s.live ==> s.live[id] in s.blocks
  {
    hide Books, Tiled, SupersApart;
    assert forall id :: id in s.live ==> s.live[id] in s.live.Values;
  }

  /** Freeing a live handle keeps the invariant and every other live block, unless coalesce would
      read behind the superblock; an unknown handle is refused and changes nothing. */
  lemma FreeKeeps(s: FreeList, id: nat)
    requires Inv(s)
    ensures id in s.live ==> s.live[id] in s.blocks
    ensures var (s', r) := Free(s, id);
            && Inv(s') && s'.supers == s.supers && s'.total == s.total && s'.nextId == s.nextId
            && (r.Refused? <==> id !in s.live) && (r.Refused? ==> r.error == InvalidHandle)
            && (r == Undefined <==> id in s.live && Wild(s, s.live[id]))
            && (r == Released ==> s'.live == s.live - {id} && SameOthers(s.blocks, s'.blocks, s'.live.Values))
            && (r != Released ==> s' == s)
  {
    hide Inv, Guard, Last, Release, SameOthers;
    LiveInBlocks(s);
    if id in s.live && !Wild(s, s.live[id]) {
      ReleaseKeeps(s, id);
      ReleaseLive(s, id);
    }
  }

  lemma ReleaseLive(s: FreeList, id: nat)
    requires id in s.live && s.live[id] in s.blocks
    ensures Release(s, id).live == s.live - {id} && Release(s, id).supers == s.supers
    ensures Release(s, id).total == s.total && Release(s, id).nextId == s.nextId
  {
    hide Coalesce;
  }

  lemma ResetKeeps(s: FreeList)
    requires Inv(s)
    ensures Inv(Reset(s))
  {
    EmptyGeometry();
  }
}
