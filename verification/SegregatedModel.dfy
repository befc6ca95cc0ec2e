/** The segregated-fit allocator as a state machine on values: blocks that tile superblocks and are
    only ever cut, kept in bins by the logarithm of their size. */
module SegregatedModel {
  import opened Bits
  import opened AllocTypes
  import opened Requests
  import opened Sequences

  const HEADER: nat := 16
  const MIN_BLOCK: nat := 24

  /** Block address to block size. */
  type Blocks = map<nat, nat>
  type Bins = seq<seq<nat>>

  datatype Counters = Counters(
    liveCount: nat, liveBytes: int, peakCount: nat, peakBytes: int, requested: nat, granted: int,
    success: nat, failures: nat, splits: nat, freed: nat, depth: nat, growth: nat, peakTotal: nat)

  datatype Segregated = Segregated(
    granule: nat, maxBytes: nat, maxBin: nat, supers: map<nat, nat>, blocks: Blocks, bins: Bins,
    live: map<nat, nat>, nextId: nat, total: nat, n: Counters)

  /** A superblock size for which the constructor's logarithm loop ends and memory can be obtained. */
  type Granule = x: nat | 1 <= x <= 0x8000_0000_0000_0000 witness 1

  function EmptyBins(n: nat): Bins { seq(n, i => []) }

  function Init(granule: Granule, maxBytes: nat): Segregated
  {
    Segregated(granule, maxBytes, CeilLog(granule), map[], map[], EmptyBins(CeilLog(granule) + 1), map[], 0, 0,
               Counters(0, 0, 0, 0, 0, 0, 0, 0, 0, 0, 0, 0, 0))
  }

  function SizeOf(m: Blocks, a: nat): nat { if a in m then m[a] else 0 }

  // ---- the bins ----

  /** insert_bin: the last bin takes everything too large for it. */
  function BinOf(size: nat, maxBin: nat): nat { if CeilLog(size) > maxBin then maxBin else CeilLog(size) }

  datatype Spot = Spot(bin: nat, pos: nat) | Nowhere

  /** The first position of a bin, from i on, that holds a large enough block. */
  function FirstFrom(bin: seq<nat>, m: Blocks, need: nat, i: nat): (k: nat)
    requires i <= |bin|
    ensures i <= k <= |bin| && (k < |bin| ==> SizeOf(m, bin[k]) >= need)
    ensures forall j :: i <= j < k ==> SizeOf(m, bin[j]) < need
    decreases |bin| - i
  {
    if i == |bin| || SizeOf(m, bin[i]) >= need then i else FirstFrom(bin, m, need, i + 1)
  }

  /** The search: bins upwards from b, each from its front. */
  function Search(bins: Bins, m: Blocks, need: nat, b: nat): (r: Spot)
    ensures r.Spot? ==> b <= r.bin < |bins| && r.pos < |bins[r.bin]| && SizeOf(m, bins[r.bin][r.pos]) >= need
    ensures r.Spot? ==>
              forall c, j :: b <= c < r.bin && 0 <= j < |bins[c]| ==> SizeOf(m, bins[c][j]) < need
    ensures r.Spot? ==> forall j :: 0 <= j < r.pos ==> SizeOf(m, bins[r.bin][j]) < need
    ensures r.Nowhere? ==>
              forall c, j :: b <= c < |bins| && 0 <= j < |bins[c]| ==> SizeOf(m, bins[c][j]) < need
    decreases |bins| - b
  {
    if b >= |bins| then Nowhere
    else
      var k := FirstFrom(bins[b], m, need, 0);
      if k < |bins[b]| then Spot(b, k) else Search(bins, m, need, b + 1)
  }

  /** How many blocks the search looks at. */
  function Probes(bins: Bins, m: Blocks, need: nat, b: nat): nat
    decreases |bins| - b
  {
    if b >= |bins| then 0
    else
      var k := FirstFrom(bins[b], m, need, 0);
      if k < |bins[b]| then k + 1 else k + Probes(bins, m, need, b + 1)
  }

  function Insert(bins: Bins, b: nat, a: nat): Bins
    requires b < |bins|
  {
    bins[b := bins[b] + [a]]
  }

  function Erase(bins: Bins, b: nat, i: nat): Bins
    requires b < |bins| && i < |bins[b]|
  {
    bins[b := RemoveAt(bins[b], i)]
  }

  /** Every free block is in the bin of its size, once, and nothing else is in any bin. */
  ghost predicate Binned(bins: Bins, m: Blocks, free: set<nat>, maxBin: nat)
  {
    && |bins| == maxBin + 1
    && (forall b, i :: 0 <= b < |bins| && 0 <= i < |bins[b]| ==>
        bins[b][i] in free && b == BinOf(SizeOf(m, bins[b][i]), maxBin))
    && (forall a :: a in free ==> a in bins[BinOf(SizeOf(m, a), maxBin)])
    && (forall b, i, j :: 0 <= b < |bins| && 0 <= i < j < |bins[b]| ==> bins[b][i] != bins[b][j])
  }

  lemma BinnedInsert(bins: Bins, m: Blocks, free: set<nat>, maxBin: nat, a: nat)
    requires Binned(bins, m, free, maxBin) && a !in free
    ensures Binned(Insert(bins, BinOf(SizeOf(m, a), maxBin), a), m, free + {a}, maxBin)
  {
    hide BinOf, SizeOf;
    BinInRange(SizeOf(m, a), maxBin);
    var t := BinOf(SizeOf(m, a), maxBin);
    var bins' := Insert(bins, t, a);
    forall c | c in free + {a} ensures BinOf(SizeOf(m, c), maxBin) <= maxBin &&
        c in bins'[BinOf(SizeOf(m, c), maxBin)] {
      BinInRange(SizeOf(m, c), maxBin);
      var b := BinOf(SizeOf(m, c), maxBin);
      if c == a { assert bins'[t][|bins[t]|] == a; }
      else { var k :| 0 <= k < |bins[b]| && bins[b][k] == c; assert bins'[b][k] == c; }
    }
  }

  lemma BinInRange(size: nat, maxBin: nat)
    ensures BinOf(size, maxBin) <= maxBin
  {
  }

  lemma BinnedErase(bins: Bins, m: Blocks, free: set<nat>, maxBin: nat, b: nat, i: nat)
    requires Binned(bins, m, free, maxBin) && b < |bins| && i < |bins[b]|
    ensures Binned(Erase(bins, b, i), m, free - {bins[b][i]}, maxBin)
  {
    hide BinOf, SizeOf;
    var a := bins[b][i];
    var bins' := Erase(bins, b, i);
    assert forall j :: 0 <= j < |bins'[b]| ==> bins'[b][j] == bins[b][if j < i then j else j + 1];
    forall c | c in free - {a} ensures BinOf(SizeOf(m, c), maxBin) <= maxBin &&
        c in bins'[BinOf(SizeOf(m, c), maxBin)] {
      BinInRange(SizeOf(m, c), maxBin);
      var t := BinOf(SizeOf(m, c), maxBin);
      var k :| 0 <= k < |bins[t]| && bins[t][k] == c;
      if t == b { assert bins'[b][if k < i then k else k - 1] == c; } else { assert bins'[t][k] == c; }
    }
  }

  /** Only the sizes of the free blocks matter. */
  lemma BinnedFrame(bins: Bins, m: Blocks, m': Blocks, free: set<nat>, maxBin: nat)
    requires Binned(bins, m, free, maxBin) && forall a :: a in free ==> SizeOf(m, a) == SizeOf(m', a)
    ensures Binned(bins, m', free, maxBin)
  {
    hide BinOf, SizeOf;
    forall a | a in free ensures BinOf(SizeOf(m', a), maxBin) <= maxBin && a in bins[BinOf(SizeOf(m', a), maxBin)] {
      BinInRange(SizeOf(m, a), maxBin);
    }
  }

  /** Starting at the bin of the request, the search misses nothing, provided there is such a bin. */
  lemma SearchComplete(bins: Bins, m: Blocks, free: set<nat>, maxBin: nat, need: nat)
    requires Binned(bins, m, free, maxBin)
    ensures Search(bins, m, need, CeilLog(need)).Spot? <==>
              CeilLog(need) <= maxBin && exists a :: a in free && SizeOf(m, a) >= need
  {
    hide CeilLog, SizeOf;
    var r := Search(bins, m, need, CeilLog(need));
    if r.Spot? { assert bins[r.bin][r.pos] in free; }
    if CeilLog(need) <= maxBin {
      forall a | a in free && SizeOf(m, a) >= need ensures r.Spot? {
        CeilLogMono(need, SizeOf(m, a));
        var b := BinOf(SizeOf(m, a), maxBin);
        var k :| 0 <= k < |bins[b]| && bins[b][k] == a;
      }
    }
  }

  lemma LogWithin(need: nat, maxBin: nat)
    ensures CeilLog(need) <= maxBin <==> need <= Pow2(maxBin)
  {
    CeilLogIs(need);
    if CeilLog(need) <= maxBin { Pow2Mono(CeilLog(need), maxBin); }
    if CeilLog(need) > maxBin { Pow2Mono(maxBin, CeilLog(need) - 1); }
  }

  // ---- tiling ----

  predicate Covers(m: Blocks, a: nat, x: nat) { a in m && a <= x < a + m[a] }

  predicate Apart(m: Blocks, a: nat, c: nat)
  {
    a in m && c in m && a < c ==> a + m[a] <= c
  }

  predicate InSuper(supers: map<nat, nat>, s: nat, x: nat) { s in supers && s <= x < s + supers[s] }

  ghost predicate Covered(supers: map<nat, nat>, m: Blocks, x: nat)
  {
    (exists s: nat :: InSuper(supers, s, x)) <==> (exists a: nat :: Covers(m, a, x))
  }

  /** Every byte of every superblock lies in exactly one block, and no byte of a block elsewhere. */
  ghost predicate Tiled(supers: map<nat, nat>, m: Blocks)
  {
    && (forall a :: a in m ==> m[a] > 0 && a % 16 == 0 && a > 0)
    && (forall a, c :: Apart(m, a, c))
    && (forall x: nat :: Covered(supers, m, x))
  }

  function Cut(m: Blocks, a: nat, need: nat): Blocks
    requires a in m && need <= m[a]
  {
    m[a := need][a + need := m[a] - need]
  }

  lemma CutApart(m: Blocks, a: nat, need: nat)
    requires (forall x, y :: Apart(m, x, y)) && (forall x :: x in m ==> m[x] > 0) && a in m && 0 < need < m[a]
    ensures a + need !in m && forall x, y :: Apart(Cut(m, a, need), x, y)
  {
    var m' := Cut(m, a, need);
    assert Apart(m, a, a + need);
    forall x, y ensures Apart(m', x, y) {
      assert Apart(m, x, y) && Apart(m, x, a) && Apart(m, a, x) && Apart(m, a, y);
    }
  }

  lemma CutCoverage(supers: map<nat, nat>, m: Blocks, a: nat, need: nat)
    requires (forall x: nat :: Covered(supers, m, x)) && a in m && 0 < need < m[a] && a + need !in m
    ensures forall x: nat :: Covered(supers, Cut(m, a, need), x)
  {
    hide Covers, InSuper, Cut;
    var m' := Cut(m, a, need);
    forall x: nat ensures Covered(supers, m', x) {
      assert Covered(supers, m, x);
      CutCovers(m, a, need, x);
    }
  }

  lemma CutTiled(supers: map<nat, nat>, m: Blocks, a: nat, need: nat)
    requires Tiled(supers, m) && a in m && 0 < need < m[a] && need % 16 == 0
    ensures a + need !in m && Tiled(supers, Cut(m, a, need))
  {
    hide Apart, Covered;
    CutApart(m, a, need);
    CutCoverage(supers, m, a, need);
  }

  lemma CutCovers(m: Blocks, a: nat, need: nat, x: nat)
    requires a in m && 0 < need < m[a] && a + need !in m
    ensures (exists c: nat :: Covers(m, c, x)) <==> (exists c: nat :: Covers(Cut(m, a, need), c, x))
  {
    var m' := Cut(m, a, need);
    if c: nat :| Covers(m, c, x) { assert Covers(m', if c == a && x >= a + need then a + need else c, x); }
    if c: nat :| Covers(m', c, x) { assert Covers(m, if c == a + need then a else c, x); }
  }

  ghost predicate FreshBlock(supers: map<nat, nat>, base: nat, size: nat)
  {
    && base > 0 && base % 16 == 0 && base + size < WORD
    && forall s :: s in supers ==> base + size <= s || s + supers[s] <= base
  }

  lemma AddTiled(supers: map<nat, nat>, m: Blocks, base: nat, size: nat)
    requires Tiled(supers, m) && FreshBlock(supers, base, size) && size > 0 && base !in supers
    ensures base !in m && Tiled(supers[base := size], m[base := size])
  {
    var supers', m' := supers[base := size], m[base := size];
    FreshApart(supers, m, base, size);
    forall x, y ensures Apart(m', x, y) { assert Apart(m, x, y); }
    forall x: nat ensures Covered(supers', m', x) {
      assert Covered(supers, m, x);
      if s: nat :| InSuper(supers', s, x) {
        if s == base { assert Covers(m', base, x); }
        else { assert InSuper(supers, s, x); var a: nat :| Covers(m, a, x); assert Covers(m', a, x); }
      }
      if a: nat :| Covers(m', a, x) {
        if a == base { assert InSuper(supers', base, x); }
        else { assert Covers(m, a, x); var s: nat :| InSuper(supers, s, x); assert InSuper(supers', s, x); }
      }
    }
  }

  lemma FreshApart(supers: map<nat, nat>, m: Blocks, base: nat, size: nat)
    requires Tiled(supers, m) && FreshBlock(supers, base, size) && size > 0
    ensures base !in m && forall a :: a in m ==> a + m[a] <= base || base + size <= a
  {
    forall a | a in m ensures a + m[a] <= base || base + size <= a {
      if a < base + size && base < a + m[a] {
        var x := if a < base then base else a;
        assert Covers(m, a, x) && Covered(supers, m, x);
      }
    }
  }

  // ---- refinement ----

  predicate InsideOrApart(m: Blocks, m': Blocks, a: nat, c: nat)
  {
    a in m && c in m' ==> (a <= c && c + m'[c] <= a + m[a]) || c + m'[c] <= a || a + m[a] <= c
  }

  /** No block of the later partition straddles a border of the earlier one. */
  ghost predicate Refines(m: Blocks, m': Blocks)
  {
    (forall a :: a in m ==> a in m') && forall a, c :: InsideOrApart(m, m', a, c)
  }

  lemma RefinesSelf(supers: map<nat, nat>, m: Blocks)
    requires Tiled(supers, m)
    ensures Refines(m, m)
  {
    forall a, c ensures InsideOrApart(m, m, a, c) { assert Apart(m, a, c) && Apart(m, c, a); }
  }

  lemma CutRefines(supers: map<nat, nat>, m: Blocks, a: nat, need: nat)
    requires Tiled(supers, m) && a in m && 0 < need < m[a]
    ensures Refines(m, Cut(m, a, need))
  {
    var m' := Cut(m, a, need);
    forall x, c ensures InsideOrApart(m, m', x, c) {
      assert Apart(m, x, c) && Apart(m, c, x) && Apart(m, a, x) && Apart(m, x, a);
    }
  }

  lemma AddRefines(supers: map<nat, nat>, m: Blocks, base: nat, size: nat)
    requires Tiled(supers, m) && FreshBlock(supers, base, size) && size > 0
    ensures Refines(m, m[base := size])
  {
    FreshApart(supers, m, base, size);
    var m' := m[base := size];
    forall a, c ensures InsideOrApart(m, m', a, c) { assert Apart(m, a, c) && Apart(m, c, a); }
  }

  /** Refinement carries over any number of steps, while the superblocks only grow. */
  lemma RefinesTrans(s1: map<nat, nat>, m: Blocks, s2: map<nat, nat>, m1: Blocks, s3: map<nat, nat>, m2: Blocks)
    requires Tiled(s1, m) && Tiled(s2, m1) && Tiled(s3, m2) && Refines(m, m1) && Refines(m1, m2)
    requires forall s :: s in s1 ==> s in s2 && s2[s] == s1[s]
    ensures Refines(m, m2)
  {
    forall a, c ensures InsideOrApart(m, m2, a, c) {
      if a in m && c in m2 && a < c + m2[c] && c < a + m[a] {
        var x := if a < c then c else a;
        assert Covers(m, a, x) && Covered(s1, m, x) && Covered(s2, m1, x);
        var s: nat :| InSuper(s1, s, x);
        assert InSuper(s2, s, x);
        var b: nat :| Covers(m1, b, x);
        assert InsideOrApart(m, m1, a, b) && InsideOrApart(m1, m2, b, c);
      }
    }
  }

  // ---- the operations ----

  function Need(size: nat): nat { 16 + Payload(size) }

  lemma NeedBounds(size: nat)
    ensures Need(size) >= 32 && Need(size) % 16 == 0 && size + HEADER <= Need(size) <= size + 32
    ensures size > 0 ==> Need(size) < size + 32
  {
    hide Payload;
    PayloadBounds(size);
  }

  predicate Splits(size: nat, need: nat) { size >= need + MIN_BLOCK }

  /** Taking the block at a spot: out of its bin, cut if enough is left, the rest into its own bin. */
  function Take(s: Segregated, at: Spot, need: nat): Segregated
    requires at.Spot? && at.bin < |s.bins| && at.pos < |s.bins[at.bin]| && |s.bins| == s.maxBin + 1
    requires s.bins[at.bin][at.pos] in s.blocks && 0 < need <= s.blocks[s.bins[at.bin][at.pos]]
  {
    var a := s.bins[at.bin][at.pos];
    var rest := s.blocks[a] - need;
    var out := Erase(s.bins, at.bin, at.pos);
    if Splits(s.blocks[a], need) then
      BinInRange(rest, s.maxBin);
      s.(blocks := Cut(s.blocks, a, need), bins := Insert(out, BinOf(rest, s.maxBin), a + need),
         n := s.n.(splits := s.n.splits + 1))
    else s.(bins := out)
  }

  function Deepen(s: Segregated, steps: nat): Segregated { s.(n := s.n.(depth := s.n.depth + steps)) }
  function Failing(s: Segregated): Segregated { s.(n := s.n.(failures := s.n.failures + 1)) }

  /** Recording the block as the newest live one. */
  function Record(s: Segregated, a: nat, size: nat): Segregated
  {
    var bytes := SizeOf(s.blocks, a) - HEADER;
    s.(live := s.live[s.nextId + 1 := a], nextId := s.nextId + 1,
       n := s.n.(success := s.n.success + 1,
                 liveCount := s.n.liveCount + 1, peakCount := Max(s.n.liveCount + 1, s.n.peakCount),
                 liveBytes := s.n.liveBytes + bytes, peakBytes := Max(s.n.liveBytes + bytes, s.n.peakBytes),
                 requested := s.n.requested + size, granted := s.n.granted + bytes))
  }

  /** find_block, and what allocate does with its answer. */
  function Find(s: Segregated, need: nat, size: nat, align: nat): (Segregated, Outcome)
    requires |s.bins| == s.maxBin + 1 && need >= 32
  {
    var at := Search(s.bins, s.blocks, need, CeilLog(need));
    var s1 := Deepen(s, 1 + Probes(s.bins, s.blocks, need, CeilLog(need)));
    if at.Nowhere? then (Failing(s1), Failed(OutOfMemory))
    else
      var a := s.bins[at.bin][at.pos];
      var s2 := Record(Take(s1, at, need), a, size);
      (s2, Granted(s2.nextId, a + HEADER, SizeOf(s2.blocks, a) - HEADER, align, s.n.freed > 0))
  }

  predicate Grows(s: Segregated, need: nat, mem: Memory)
    requires s.granule >= 1
  {
    Wrap64(s.total + GrowSize(s.granule, need)) <= s.maxBytes && mem.Fresh?
  }

  ghost predicate Answers(s: Segregated, need: nat, mem: Memory)
    requires s.granule >= 1
  {
    mem.Fresh? ==>
      && FreshBlock(s.supers, mem.base, GrowSize(s.granule, need)) && mem.base !in s.supers
      && s.total + GrowSize(s.granule, need) < WORD
  }

  /** A new superblock, as one free block in the bin of its size. */
  function Grow(s: Segregated, size: nat, base: nat): Segregated
    requires |s.bins| == s.maxBin + 1
  {
    BinInRange(size, s.maxBin);
    s.(supers := s.supers[base := size], blocks := s.blocks[base := size],
       bins := Insert(s.bins, BinOf(size, s.maxBin), base), total := s.total + size,
       n := s.n.(growth := s.n.growth + 1, peakTotal := Max(s.total + size, s.n.peakTotal)))
  }

  function Allocate(s: Segregated, size: nat, alignment: nat, mem: Memory): (Segregated, Outcome)
    requires s.granule >= 1 && |s.bins| == s.maxBin + 1
  {
    NeedBounds(size);
    var need, align := Need(size), Effective(alignment);
    if size > MAX_SIZE then (s, Failed(SizeTooLarge))
    else if !LegalAlignment(alignment) then (s, Failed(AlignmentUnsupported))
    else if Search(s.bins, s.blocks, need, CeilLog(need)).Spot? then Find(s, need, size, align)
    else
      var s1 := Deepen(s, 1 + Probes(s.bins, s.blocks, need, CeilLog(need)));
      if !Grows(s, need, mem) then (Failing(s1), Failed(CapacityExceeded))
      else Find(Grow(s1, GrowSize(s.granule, need), mem.base), need, size, align)
  }

  function Release(s: Segregated, id: nat): Segregated
    requires id in s.live && |s.bins| == s.maxBin + 1
  {
    var a := s.live[id];
    var bytes := SizeOf(s.blocks, a) - HEADER;
    BinInRange(SizeOf(s.blocks, a), s.maxBin);
    s.(bins := Insert(s.bins, BinOf(SizeOf(s.blocks, a), s.maxBin), a), live := s.live - {id},
       n := s.n.(freed := s.n.freed + 1,
                 liveCount := if s.n.liveCount > 0 then s.n.liveCount - 1 else 0,
                 liveBytes := if s.n.liveBytes >= bytes then s.n.liveBytes - bytes else s.n.liveBytes))
  }

  function Free(s: Segregated, id: nat): (Segregated, Status)
    requires |s.bins| == s.maxBin + 1
  {
    if id in s.live then (Release(s, id), Ok) else (s, Err(InvalidHandle))
  }

  /** reset and shutdown: every superblock goes back; the split counter stays. */
  function Reset(s: Segregated): Segregated
  {
    s.(supers := map[], blocks := map[], bins := EmptyBins(|s.bins|), live := map[], total := 0,
       n := s.n.(liveCount := 0, liveBytes := 0))
  }

  // ---- the invariant ----

  function FreeOf(s: Segregated): set<nat> { s.blocks.Keys - s.live.Values }

  ghost predicate Inv(s: Segregated)
  {
    && s.granule >= 1 && s.granule <= Pow2(s.maxBin)
    && Tiled(s.supers, s.blocks)
    && Injective(s.live) && s.live.Values <= s.blocks.Keys
    && (forall id :: id in s.live ==> 0 < id <= s.nextId)
    && Binned(s.bins, s.blocks, FreeOf(s), s.maxBin)
    && s.n.liveCount == |s.live|
  }

  /** Blocks minus superblocks minus splits. */
  function Balance(s: Segregated): int { |s.blocks| - |s.supers| - s.n.splits }

  lemma InitInv(granule: Granule, maxBytes: nat)
    ensures Inv(Init(granule, maxBytes)) && Balance(Init(granule, maxBytes)) == 0
  {
    CeilLogIs(granule);
    NothingTiled();
  }

  lemma NothingTiled()
    ensures Tiled(map[], map[])
  {
    var m: Blocks := map[];
    var supers: map<nat, nat> := map[];
    assert forall a, c :: Apart(m, a, c);
    forall x: nat ensures Covered(supers, m, x) {
      assert forall s: nat :: !InSuper(supers, s, x);
      assert forall a: nat :: !Covers(m, a, x);
    }
  }

  // ---- taking a block ----

  lemma TakeCut(bins: Bins, m: Blocks, free: set<nat>, maxBin: nat, b: nat, i: nat, a: nat, need: nat)
    requires Binned(bins, m, free, maxBin) && b < |bins| && i < |bins[b]| && a == bins[b][i]
    requires a in m && 0 < need < m[a] && a + need !in m && free <= m.Keys
        && BinOf(m[a] - need, maxBin) < |Erase(bins, b, i)|
    ensures Binned(Insert(Erase(bins, b, i), BinOf(m[a] - need, maxBin), a + need), Cut(m, a, need),
                   free - {a} + {a + need}, maxBin)
  {
    hide Binned, BinOf;
    BinnedErase(bins, m, free, maxBin, b, i);
    var m', f := Cut(m, a, need), free - {a};
    BinnedFrame(Erase(bins, b, i), m, m', f, maxBin);
    assert SizeOf(m', a + need) == m[a] - need;
    BinnedInsert(Erase(bins, b, i), m', f, maxBin, a + need);
  }

  /** The block at a spot of the search, in terms of the state. */
  lemma SpotFacts(s: Segregated, at: Spot, need: nat)
    requires Inv(s) && at == Search(s.bins, s.blocks, need, CeilLog(need)) && at.Spot? && need > 0
    ensures |s.bins| == s.maxBin + 1 && at.bin < |s.bins| && at.pos < |s.bins[at.bin]|
    ensures var a := s.bins[at.bin][at.pos];
            a in FreeOf(s) && a in s.blocks && need <= s.blocks[a] && a % 16 == 0 && s.nextId + 1 !in s.live
                && a !in s.live.Values
  {
  }

  predicate SameBlock(m: Blocks, m': Blocks, a: nat) { a in m && a in m' && m'[a] == m[a] }

  /** What a granted request means in terms of the states around it. */
  ghost predicate GrantedWell(s: Segregated, size: nat, align: nat, s': Segregated, r: Outcome)
    requires r.Granted?
  {
    && r.id == s.nextId + 1 == s'.nextId && r.id !in s.live && r.id in s'.live
    && s'.live == s.live[r.id := s'.live[r.id]]
    && (var a := s'.live[r.id];
        && a in s'.blocks && r.addr == a + 16 && r.size + 16 == s'.blocks[a] && size <= r.size
        && r.addr % 16 == 0 && r.alignment == align
        && (forall id :: id in s.live ==> SameBlock(s.blocks, s'.blocks, s.live[id]))
        && (forall id :: id in s.live ==> Apart(s'.blocks, a, s.live[id]) && Apart(s'.blocks, s.live[id], a)))
  }

  lemma RecordInv(s: Segregated, a: nat, s': Segregated)
    requires Inv(s) && a in s.blocks && a !in s.live.Values
    requires s'.granule == s.granule && s'.maxBin == s.maxBin && Tiled(s'.supers, s'.blocks)
    requires s'.live == s.live[s.nextId + 1 := a] && s'.nextId == s.nextId + 1 && s'.n.liveCount == s.n.liveCount + 1
    requires s.blocks.Keys <= s'.blocks.Keys
    requires Binned(s'.bins, s'.blocks, s'.blocks.Keys - s.live.Values - {a}, s.maxBin)
    ensures Inv(s')
  {
    hide Tiled, Binned;
    LiveAdd(s.live, s.nextId + 1, a);
    assert FreeOf(s') == s'.blocks.Keys - s.live.Values - {a};
  }

  /** What taking the block `a` keeps: s' has it out of the bins but not yet live. */
  ghost predicate TookWell(s: Segregated, a: nat, s': Segregated)
  {
    && Tiled(s'.supers, s'.blocks) && s.blocks.Keys <= s'.blocks.Keys
    && Refines(s.blocks, s'.blocks) && Balance(s') == Balance(s)
    && Binned(s'.bins, s'.blocks, s'.blocks.Keys - s.live.Values - {a}, s.maxBin)
  }

  lemma TakeKeepsCut(s: Segregated, at: Spot, need: nat, a: nat)
    requires Inv(s) && at.Spot? && at.bin < |s.bins| && at.pos < |s.bins[at.bin]| && |s.bins| == s.maxBin + 1
    requires a == s.bins[at.bin][at.pos] && a in s.blocks && Splits(s.blocks[a], need) && 0 < need && need % 16 == 0
    ensures TookWell(s, a, Take(s, at, need))
  {
    hide Inv, Tiled, Binned, BinOf, Refines, Erase, Insert;
    InvParts(s);
    BinInRange(s.blocks[a] - need, s.maxBin);
    CutTiled(s.supers, s.blocks, a, need);
    CutRefines(s.supers, s.blocks, a, need);
    EraseCount(s.bins, at.bin, at.pos);
    TakeCut(s.bins, s.blocks, FreeOf(s), s.maxBin, at.bin, at.pos, a, need);
    CutCount(s.blocks, a, need);
    CutFree(s.blocks, s.live.Values, a, need);
  }

  lemma CutFree(m: Blocks, busy: set<nat>, a: nat, need: nat)
    requires a in m && 0 < need <= m[a] && a + need !in m && busy <= m.Keys
    ensures Cut(m, a, need).Keys - busy - {a} == m.Keys - busy - {a} + {a + need}
    ensures m.Keys <= Cut(m, a, need).Keys
  {
    assert Cut(m, a, need).Keys == m.Keys + {a + need};
  }

  lemma EraseCount(bins: Bins, b: nat, i: nat)
    requires b < |bins| && i < |bins[b]|
    ensures |Erase(bins, b, i)| == |bins|
  {
  }

  lemma TakeKeepsWhole(s: Segregated, at: Spot, need: nat, a: nat)
    requires Inv(s) && at.Spot? && at.bin < |s.bins| && at.pos < |s.bins[at.bin]| && |s.bins| == s.maxBin + 1
    requires a == s.bins[at.bin][at.pos] && a in s.blocks && !Splits(s.blocks[a], need) && 0 < need <= s.blocks[a]
    ensures TookWell(s, a, Take(s, at, need))
  {
    hide Inv, Tiled, Binned, BinOf, Refines, Erase;
    InvParts(s);
    BinnedErase(s.bins, s.blocks, FreeOf(s), s.maxBin, at.bin, at.pos);
    RefinesSelf(s.supers, s.blocks);
    assert s.blocks.Keys - s.live.Values - {a} == FreeOf(s) - {a};
  }

  /** Taking a block that the search found. */
  lemma TakeKeeps(s: Segregated, at: Spot, need: nat)
    requires Inv(s) && at == Search(s.bins, s.blocks, need, CeilLog(need)) && at.Spot?
    requires need >= 32 && need % 16 == 0 && |s.bins| == s.maxBin + 1
    ensures s.bins[at.bin][at.pos] in s.blocks && need <= s.blocks[s.bins[at.bin][at.pos]]
    ensures TookWell(s, s.bins[at.bin][at.pos], Take(s, at, need))
  {
    hide Inv, TookWell, Search, CeilLog, Take;
    SpotFacts(s, at, need);
    var a := s.bins[at.bin][at.pos];
    if Splits(s.blocks[a], need) { TakeKeepsCut(s, at, need, a); } else { TakeKeepsWhole(s, at, need, a); }
  }

  lemma CutCount(m: Blocks, a: nat, need: nat)
    requires a in m && need <= m[a] && a + need !in m
    ensures |Cut(m, a, need)| == |m| + 1
  {
    var m1 := m[a := need];
    assert m1.Keys == m.Keys;
    assert |m1| == |m1.Keys| && |m| == |m.Keys|;
    assert Cut(m, a, need).Keys == m.Keys + {a + need};
  }

  lemma InvParts(s: Segregated)
    requires Inv(s)
    ensures Tiled(s.supers, s.blocks) && Binned(s.bins, s.blocks, FreeOf(s), s.maxBin) && |s.bins| == s.maxBin + 1
    ensures FreeOf(s) <= s.blocks.Keys && s.live.Values <= s.blocks.Keys && s.granule >= 1
    ensures forall id :: id in s.live ==> s.live[id] in s.live.Values
  {
  }

  lemma DeepenKeeps(s: Segregated, steps: nat)
    requires Inv(s)
    ensures Inv(Deepen(s, steps)) && Inv(Failing(Deepen(s, steps)))
        && Balance(Failing(Deepen(s, steps))) == Balance(s)
  {
    hide Tiled, Binned, Injective, Pow2;
  }

  lemma TakenSame(s: Segregated, at: Spot, need: nat, c: nat)
    requires at.Spot? && at.bin < |s.bins| && at.pos < |s.bins[at.bin]| && |s.bins| == s.maxBin + 1
    requires s.bins[at.bin][at.pos] in s.blocks && 32 <= need <= s.blocks[s.bins[at.bin][at.pos]]
    requires Inv(s)
    ensures var a, s' := s.bins[at.bin][at.pos], Take(s, at, need);
            && a in s'.blocks && need <= s'.blocks[a]
            && s'.live == s.live && s'.nextId == s.nextId && s'.granule == s.granule && s'.maxBin == s.maxBin
            && s'.n.liveCount == s.n.liveCount && s'.supers == s.supers && s'.total == s.total
            && (c in s.blocks && c != a ==> SameBlock(s.blocks, s'.blocks, c))
  {
    hide Tiled, Binned, BinOf, Injective;
    InvParts(s);
    var a := s.bins[at.bin][at.pos];
    if Splits(s.blocks[a], need) { CutNew(s, a, need); }
  }

  lemma CutNew(s: Segregated, a: nat, need: nat)
    requires Inv(s) && a in s.blocks && 0 < need < s.blocks[a]
    ensures a + need !in s.blocks
  {
    hide Binned, Injective;
    assert Apart(s.blocks, a, a + need);
  }

  lemma TiledApart(supers: map<nat, nat>, m: Blocks)
    requires Tiled(supers, m)
    ensures forall a, c :: Apart(m, a, c)
  {
    hide Apart;
  }

  /** Serving from a spot of the search: the invariant, the balance, and what the caller gets. */
  lemma ServeKeeps(s: Segregated, at: Spot, need: nat, size: nat, align: nat, s': Segregated, r: Outcome)
    requires Inv(s) && at == Search(s.bins, s.blocks, need, CeilLog(need)) && at.Spot?
    requires need >= 32 && need % 16 == 0 && |s.bins| == s.maxBin + 1 && size + HEADER <= need
    requires s.bins[at.bin][at.pos] in s.blocks && need <= s.blocks[s.bins[at.bin][at.pos]]
    requires s' == Record(Take(s, at, need), s.bins[at.bin][at.pos], size)
    requires r.Granted? && r.id == s'.nextId && r.addr == s.bins[at.bin][at.pos] + 16
    requires r.size + 16 == SizeOf(s'.blocks, s.bins[at.bin][at.pos]) && r.alignment == align
    ensures Inv(s') && Balance(s') == Balance(s) && s'.supers == s.supers && Refines(s.blocks, s'.blocks)
    ensures GrantedWell(s, size, align, s', r)
  {
    hide Inv, Tiled, Binned, Search, CeilLog, Take, Refines, Apart;
    var a, t := s.bins[at.bin][at.pos], Take(s, at, need);
    SpotFacts(s, at, need);
    InvParts(s);
    TakeKeeps(s, at, need);
    TakenSame(s, at, need, a);
    RecordInv(s, a, s');
    TiledApart(s'.supers, s'.blocks);
    forall id | id in s.live ensures SameBlock(s.blocks, s'.blocks, s.live[id]) {
      TakenSame(s, at, need, s.live[id]);
    }
  }

  lemma FindKeeps(s: Segregated, need: nat, size: nat, align: nat)
    requires Inv(s) && need >= 32 && need % 16 == 0 && size + HEADER <= need
    ensures |s.bins| == s.maxBin + 1
    ensures var (s', r) := Find(s, need, size, align);
            && Inv(s') && Balance(s') == Balance(s) && Refines(s.blocks, s'.blocks) && s'.supers == s.supers
            && (r.Granted? ==> GrantedWell(s, size, align, s', r))
            && (r.Granted? <==> Search(s.bins, s.blocks, need, CeilLog(need)).Spot?)
            && (r.Failed? ==> s'.blocks == s.blocks && s'.live == s.live && r.error == OutOfMemory)
  {
    hide Inv, Tiled, Search, Take, Probes, CeilLog, Refines, GrantedWell, Record;
    InvParts(s);
    var at := Search(s.bins, s.blocks, need, CeilLog(need));
    var steps := 1 + Probes(s.bins, s.blocks, need, CeilLog(need));
    DeepenKeeps(s, steps);
    if at.Spot? {
      var t := Deepen(s, steps);
      var (s', r) := Find(s, need, size, align);
      SpotFacts(t, at, need);
      TakenSame(t, at, need, 0);
      RecordId(Take(t, at, need), s.bins[at.bin][at.pos], size);
      ServeKeeps(t, at, need, size, align, s', r);
      SameWell(s, t, size, align, s', r);
    } else {
      RefinesSelf(s.supers, s.blocks);
    }
  }

  lemma RecordId(s: Segregated, a: nat, size: nat)
    ensures Record(s, a, size).nextId == s.nextId + 1 && Record(s, a, size).blocks == s.blocks
  {
  }

  lemma SameWell(s: Segregated, t: Segregated, size: nat, align: nat, s': Segregated, r: Outcome)
    requires r.Granted? && GrantedWell(t, size, align, s', r)
    requires t.nextId == s.nextId && t.live == s.live && t.blocks == s.blocks
    ensures GrantedWell(s, size, align, s', r)
  {
    hide Apart, SameBlock;
  }

  lemma GrowBins(bins: Bins, m: Blocks, free: set<nat>, maxBin: nat, base: nat, size: nat)
    requires Binned(bins, m, free, maxBin) && base !in m && free <= m.Keys
    ensures BinOf(size, maxBin) < |bins|
    ensures Binned(Insert(bins, BinOf(size, maxBin), base), m[base := size], free + {base}, maxBin)
  {
    hide BinOf;
    BinInRange(size, maxBin);
    var m' := m[base := size];
    BinnedFrame(bins, m, m', free, maxBin);
    assert SizeOf(m', base) == size;
    BinnedInsert(bins, m', free, maxBin, base);
  }

  lemma MapGrows(m: map<nat, nat>, k: nat, v: nat)
    requires k !in m
    ensures |m[k := v]| == |m| + 1 && m[k := v].Keys == m.Keys + {k}
  {
    assert m[k := v].Keys == m.Keys + {k};
    assert |m| == |m.Keys| && |m[k := v]| == |m[k := v].Keys|;
  }

  lemma GrowBalance(s: Segregated, size: nat, base: nat)
    requires |s.bins| == s.maxBin + 1 && base !in s.blocks && base !in s.supers
    ensures Balance(Grow(s, size, base)) == Balance(s)
    ensures Grow(s, size, base).blocks.Keys == s.blocks.Keys + {base}
  {
    hide BinOf, Insert;
    MapGrows(s.blocks, base, size);
    MapGrows(s.supers, base, size);
  }

  lemma GrownFree(s: Segregated, base: nat, s': Segregated)
    requires s.live.Values <= s.blocks.Keys && base !in s.blocks
    requires s'.blocks.Keys == s.blocks.Keys + {base} && s'.live == s.live
    ensures FreeOf(s') == FreeOf(s) + {base} && base in FreeOf(s') && s'.live.Values <= s'.blocks.Keys
  {
  }

  lemma GrownInv(s: Segregated, base: nat, s': Segregated)
    requires Inv(s) && s'.granule == s.granule && s'.maxBin == s.maxBin && Tiled(s'.supers, s'.blocks)
    requires s'.live == s.live && s'.nextId == s.nextId && s'.n.liveCount == s.n.liveCount
    requires s'.live.Values <= s'.blocks.Keys && Binned(s'.bins, s'.blocks, FreeOf(s'), s'.maxBin)
    ensures Inv(s')
  {
    hide Tiled, Binned, Injective, Pow2, FreeOf;
  }

  lemma GrowCount(s: Segregated, size: nat, base: nat)
    requires |s.bins| == s.maxBin + 1
    ensures |Grow(s, size, base).bins| == Grow(s, size, base).maxBin + 1
  {
  }

  lemma ExtendKeeps(s: Segregated, size: nat, base: nat)
    requires Inv(s) && FreshBlock(s.supers, base, size) && base !in s.supers && size > 0 && |s.bins| == s.maxBin + 1
    ensures var s' := Grow(s, size, base);
            && Inv(s') && Balance(s') == Balance(s) && Refines(s.blocks, s'.blocks) && base !in s.blocks
            && base in FreeOf(s')
  {
    hide Inv, Tiled, Binned, BinOf, FreshBlock, Refines, Insert, FreeOf, Balance;
    InvParts(s);
    AddTiled(s.supers, s.blocks, base, size);
    AddRefines(s.supers, s.blocks, base, size);
    GrowBins(s.bins, s.blocks, FreeOf(s), s.maxBin, base, size);
    var s' := Grow(s, size, base);
    GrowBalance(s, size, base);
    GrownFree(s, base, s');
    GrownInv(s, base, s');
  }

  lemma GrowKeeps(s: Segregated, need: nat, mem: Memory)
    requires Inv(s) && Answers(s, need, mem) && Grows(s, need, mem) && need > 0
    ensures |s.bins| == s.maxBin + 1
    ensures var s' := Grow(s, GrowSize(s.granule, need), mem.base);
            && Inv(s') && Balance(s') == Balance(s) && Refines(s.blocks, s'.blocks) && mem.base !in s.blocks
            && mem.base in FreeOf(s')
  {
    hide Inv, GrowSize, FreshBlock, Refines, Grow, Wrap64, Balance, FreeOf;
    InvParts(s);
    GrowSizeBounds(s.granule, need);
    ExtendKeeps(s, GrowSize(s.granule, need), mem.base);
  }

  /** After a growth the search finds a block exactly when the request has a bin at all. */
  lemma GrownSearch(s: Segregated, need: nat, base: nat)
    requires Inv(s) && base in FreeOf(s) && SizeOf(s.blocks, base) >= need
    ensures Search(s.bins, s.blocks, need, CeilLog(need)).Spot? <==> need <= Pow2(s.maxBin)
  {
    hide Inv, Tiled, Binned, Search, CeilLog;
    InvParts(s);
    SearchComplete(s.bins, s.blocks, FreeOf(s), s.maxBin, need);
    LogWithin(need, s.maxBin);
  }

  lemma GrownWell(s: Segregated, size: nat, align: nat, base: nat, grown: nat, s': Segregated, r: Outcome)
    requires Inv(s) && base !in s.blocks && |s.bins| == s.maxBin + 1 && r.Granted?
    requires GrantedWell(Grow(s, grown, base), size, align, s', r)
    ensures GrantedWell(s, size, align, s', r)
  {
    hide Apart, Tiled, Binned, BinOf, Injective;
    InvParts(s);
  }

  /** What a request does and keeps, whatever its outcome. */
  ghost predicate AllocatedWell(s: Segregated, size: nat, alignment: nat, s': Segregated, r: Outcome)
  {
    && Inv(s') && Balance(s') == Balance(s) && Refines(s.blocks, s'.blocks)
    && (forall b :: b in s.supers ==> b in s'.supers && s'.supers[b] == s.supers[b])
    && (r.Granted? ==> GrantedWell(s, size, Effective(alignment), s', r))
    && (r.Failed? ==> s'.live == s.live && BlocksStay(s.blocks, s'.blocks))
  }

  /** No block is cut; new ones may have come. */
  ghost predicate BlocksStay(m: Blocks, m': Blocks) { forall a :: a in m ==> SameBlock(m, m', a) }

  lemma RetryKeeps(s: Segregated, need: nat, size: nat, alignment: nat, mem: Memory)
    requires Inv(s) && Answers(s, need, mem) && Grows(s, need, mem) && need >= 32 && need % 16 == 0
        && size + HEADER <= need
    ensures |s.bins| == s.maxBin + 1
    ensures var (s', r) := Find(Grow(s, GrowSize(s.granule, need), mem.base), need, size, Effective(alignment));
            && AllocatedWell(s, size, alignment, s', r) && (r.Granted? <==> need <= Pow2(s.maxBin))
            && (r.Failed? ==> r.error == OutOfMemory && s'.total > s.total)
  {
    hide Inv, Find, GrowSize, FreshBlock, Search, CeilLog, Refines, Wrap64, GrantedWell, Pow2, BinOf, Insert;
    InvParts(s);
    GrowSizeBounds(s.granule, need);
    GrowKeeps(s, need, mem);
    var size1, t := GrowSize(s.granule, need), Grow(s, GrowSize(s.granule, need), mem.base);
    InvParts(t);
    GrownSearch(t, need, mem.base);
    FindKeeps(t, need, size, Effective(alignment));
    var (s', r) := Find(t, need, size, Effective(alignment));
    if r.Granted? { GrownWell(s, size, Effective(alignment), mem.base, size1, s', r); }
    else { FindFails(t, need, size, Effective(alignment)); }
    InvParts(s');
    RefinesTrans(s.supers, s.blocks, t.supers, t.blocks, s'.supers, s'.blocks);
  }

  lemma FindFails(s: Segregated, need: nat, size: nat, align: nat)
    requires |s.bins| == s.maxBin + 1 && need >= 32 && Find(s, need, size, align).1.Failed?
    ensures Find(s, need, size, align).0.total == s.total
  {
    hide Search, Probes, CeilLog, Take, Record;
  }

  lemma RefusedWell(s: Segregated, size: nat, alignment: nat, s': Segregated, e: ErrorCode)
    requires Inv(s) && Inv(s') && Balance(s') == Balance(s)
    requires s'.blocks == s.blocks && s'.supers == s.supers && s'.live == s.live
    ensures AllocatedWell(s, size, alignment, s', Failed(e))
  {
    hide Inv, Refines, Balance;
    InvParts(s);
    RefinesSelf(s.supers, s.blocks);
  }

  lemma FoundWell(s: Segregated, need: nat, size: nat, alignment: nat)
    requires Inv(s) && need >= 32 && need % 16 == 0 && size + HEADER <= need
    ensures |s.bins| == s.maxBin + 1
    ensures var (s', r) := Find(s, need, size, Effective(alignment));
            && (r.Granted? ==> AllocatedWell(s, size, alignment, s', r))
            && (r.Granted? <==> Search(s.bins, s.blocks, need, CeilLog(need)).Spot?)
  {
    hide Inv, Find, Search, CeilLog, Refines, GrantedWell, Balance;
    FindKeeps(s, need, size, Effective(alignment));
  }

  lemma AllocatedSame(s: Segregated, t: Segregated, size: nat, alignment: nat, s': Segregated, r: Outcome)
    requires AllocatedWell(t, size, alignment, s', r)
    requires t.nextId == s.nextId && t.live == s.live && t.blocks == s.blocks && t.supers == s.supers
        && Balance(t) == Balance(s)
    ensures AllocatedWell(s, size, alignment, s', r)
  {
    hide Inv, Refines, GrantedWell, Balance;
    if r.Granted? { SameWell(s, t, size, Effective(alignment), s', r); }
  }

  /** Every request keeps the invariant and only refines the partition. A granted block is new,
      aligned, large enough and apart from everything live. */
  lemma AllocateKeeps(s: Segregated, size: nat, alignment: nat, mem: Memory)
    requires Inv(s) && Answers(s, Need(size), mem)
    ensures |s.bins| == s.maxBin + 1
    ensures AllocatedWell(s, size, alignment, Allocate(s, size, alignment, mem).0, Allocate(s, size, alignment, mem).1)
  {
    hide Inv, AllocatedWell, Find, GrowSize, FreshBlock, Search, Probes, CeilLog, Wrap64, Grow, Need, LegalAlignment;
    InvParts(s);
    NeedBounds(size);
    var need := Need(size);
    var steps := 1 + Probes(s.bins, s.blocks, need, CeilLog(need));
    var t := Deepen(s, steps);
    DeepenKeeps(s, steps);
    FoundWell(s, need, size, alignment);
    RefusedWell(s, size, alignment, s, SizeTooLarge);
    RefusedWell(s, size, alignment, s, AlignmentUnsupported);
    RefusedWell(s, size, alignment, Failing(t), CapacityExceeded);
    if Grows(s, need, mem) {
      RetryKeeps(t, need, size, alignment, mem);
      GrowCount(t, GrowSize(s.granule, need), mem.base);
      var (s', r) := Find(Grow(t, GrowSize(s.granule, need), mem.base), need, size, Effective(alignment));
      AllocatedSame(s, t, size, alignment, s', r);
    }
  }

  /** Completeness, and where it ends: a legal request is granted exactly when it needs at most 2^max_bin bytes and
      some free block is large enough, or a superblock for it stays within the limit and the system has memory.
      Beyond 2^max_bin every attempt adds a superblock that it then does not find. */
  lemma AllocateComplete(s: Segregated, size: nat, alignment: nat, mem: Memory)
    requires Inv(s) && Answers(s, Need(size), mem) && size <= MAX_SIZE && LegalAlignment(alignment)
    ensures |s.bins| == s.maxBin + 1
    ensures Allocate(s, size, alignment, mem).1.Granted? <==>
              && Need(size) <= Pow2(s.maxBin)
              && ((exists a :: a in FreeOf(s) && SizeOf(s.blocks, a) >= Need(size))
                  || (s.total + GrowSize(s.granule, Need(size)) <= s.maxBytes && mem.Fresh?))
    ensures Need(size) > Pow2(s.maxBin) && s.total + GrowSize(s.granule, Need(size)) <= s.maxBytes && mem.Fresh? ==>
              Allocate(s, size, alignment, mem).1 == Failed(OutOfMemory)
                  && Allocate(s, size, alignment, mem).0.total > s.total
  {
    hide Inv, Answers, Allocate, FreeOf, SizeOf, GrowSize, Pow2, Need, Wrap64, LegalAlignment;
    InvParts(s);
    if mem.Fresh? { NoWrap(s, Need(size), mem); }
    AllocateGrants(s, size, alignment, mem);
  }

  lemma NoWrap(s: Segregated, need: nat, mem: Memory)
    requires s.granule >= 1 && Answers(s, need, mem) && mem.Fresh?
    ensures Wrap64(s.total + GrowSize(s.granule, need)) == s.total + GrowSize(s.granule, need)
  {
    hide GrowSize, FreshBlock;
    SmallWrap(s.total + GrowSize(s.granule, need));
  }

  lemma AllocateGrants(s: Segregated, size: nat, alignment: nat, mem: Memory)
    requires Inv(s) && Answers(s, Need(size), mem) && size <= MAX_SIZE && LegalAlignment(alignment)
    ensures |s.bins| == s.maxBin + 1
    ensures Allocate(s, size, alignment, mem).1.Granted? <==>
              && Need(size) <= Pow2(s.maxBin)
              && ((exists a :: a in FreeOf(s) && SizeOf(s.blocks, a) >= Need(size)) || Grows(s, Need(size), mem))
    ensures Need(size) > Pow2(s.maxBin) && Grows(s, Need(size), mem) ==>
              Allocate(s, size, alignment, mem).1 == Failed(OutOfMemory)
                  && Allocate(s, size, alignment, mem).0.total > s.total
  {
    hide Inv, Find, GrowSize, FreshBlock, Search, Probes, CeilLog, Refines, Wrap64, GrantedWell, Grow, Need,
        LegalAlignment,
         Tiled, Binned, Pow2, SizeOf, FreeOf;
    InvParts(s);
    NeedBounds(size);
    var need := Need(size);
    SearchComplete(s.bins, s.blocks, FreeOf(s), s.maxBin, need);
    LogWithin(need, s.maxBin);
    DeepenKeeps(s, 1 + Probes(s.bins, s.blocks, need, CeilLog(need)));
    FindKeeps(s, need, size, Effective(alignment));
    if Grows(s, need, mem) {
      RetryKeeps(Deepen(s, 1 + Probes(s.bins, s.blocks, need, CeilLog(need))), need, size, alignment, mem);
    }
  }

  // ---- free and reset ----

  /** A concrete case: superblocks of 4096 bytes, so the last bin is bin 12, and a first request for 8192
      bytes. Memory for it is obtained, is put into bin 12, and is not found. */
  lemma BeyondLastBin()
    ensures var (s, r) := Allocate(Init(4096, WORD - 1), 8192, 0, Fresh(0x1000));
            r == Failed(OutOfMemory) && s.total > 0 && s.live == map[]
  {
    hide Find, GrowSize, Search, Probes, CeilLog, Grow, Refines, GrantedWell, Balance, Pow2;
    var s := Init(4096, WORD - 1);
    InitInv(4096, WORD - 1);
    NeedBounds(8192);
    GrowSizeBounds(4096, Need(8192));
    BinTwelve();
    AllocateKeeps(s, 8192, 0, Fresh(0x1000));
    AllocateComplete(s, 8192, 0, Fresh(0x1000));
  }

  lemma BinTwelve()
    ensures CeilLog(4096) == 12 && Pow2(12) == 4096
  {
    assert Pow2(8) == 256;
    CeilLogIs(4096);
    Log2CeilUnique(4096, CeilLog(4096), 12);
  }

  lemma ReleaseBins(s: Segregated, id: nat)
    requires Inv(s) && id in s.live
    ensures |s.bins| == s.maxBin + 1 && FreeOf(Release(s, id)) == FreeOf(s) + {s.live[id]}
    ensures Binned(Release(s, id).bins, s.blocks, FreeOf(s) + {s.live[id]}, s.maxBin)
    ensures Injective(Release(s, id).live) && |Release(s, id).live| == |s.live| - 1
    ensures Release(s, id).live.Values <= s.live.Values && s.n.liveCount > 0
  {
    hide Tiled, Binned, BinOf, Pow2, SizeOf;
    var a := s.live[id];
    assert a in s.live.Values;
    BinInRange(SizeOf(s.blocks, a), s.maxBin);
    BinCount(s);
    LiveRemove(s.live, id);
    BinnedInsert(s.bins, s.blocks, FreeOf(s), s.maxBin, a);
  }

  lemma BinCount(s: Segregated)
    requires Inv(s)
    ensures |s.bins| == s.maxBin + 1
  {
  }

  lemma ReleasedInv(s: Segregated, s': Segregated)
    requires Inv(s) && s'.granule == s.granule && s'.maxBin == s.maxBin && s'.supers == s.supers
        && s'.blocks == s.blocks
    requires Injective(s'.live) && s'.live.Values <= s.live.Values && s'.live.Keys <= s.live.Keys
        && s'.nextId == s.nextId
    requires Binned(s'.bins, s'.blocks, FreeOf(s'), s'.maxBin) && s'.n.liveCount == |s'.live|
    ensures Inv(s')
  {
    hide Tiled, Binned, Injective, Pow2, FreeOf;
    forall id | id in s'.live ensures 0 < id <= s'.nextId { assert id in s.live.Keys; }
  }

  lemma ReleaseKeeps(s: Segregated, id: nat)
    requires Inv(s) && id in s.live
    ensures |s.bins| == s.maxBin + 1
    ensures var s' := Release(s, id);
            && Inv(s') && Balance(s') == Balance(s) && s'.blocks == s.blocks && s'.supers == s.supers
            && s'.live == s.live - {id} && FreeOf(s') == FreeOf(s) + {s.live[id]}
  {
    hide Inv, Binned, BinOf, Tiled, Injective, FreeOf, SizeOf, Insert;
    BinCount(s);
    ReleaseBins(s, id);
    LiveNumber(s);
    ReleasedInv(s, Release(s, id));
  }

  /** Freeing a live handle puts its block, whole, back into its bin; no other block changes. */
  lemma FreeKeeps(s: Segregated, id: nat)
    requires Inv(s)
    ensures |s.bins| == s.maxBin + 1
    ensures var (s', r) := Free(s, id);
            && Inv(s') && Balance(s') == Balance(s) && s'.blocks == s.blocks && s'.supers == s.supers
            && (r == Ok <==> id in s.live) && s'.live == s.live - {id} && (r != Ok ==> s' == s)
            && (r == Ok ==> FreeOf(s') == FreeOf(s) + {s.live[id]})
  {
    hide Inv, FreeOf, Release, Balance;
    BinCount(s);
    if id in s.live {
      ReleaseKeeps(s, id);
    } else {
      assert s.live - {id} == s.live;
    }
  }

  lemma LiveNumber(s: Segregated)
    requires Inv(s)
    ensures s.n.liveCount == |s.live|
  {
  }

  lemma ResetKeeps(s: Segregated)
    requires Inv(s)
    ensures Inv(Reset(s))
  {
    hide Pow2;
    NothingTiled();
  }

  // ---- runs ----

  datatype Op = OpAllocate(size: nat, alignment: nat, mem: Memory) | OpFree(id: nat) | OpReset

  ghost predicate Possible(s: Segregated, op: Op)
  {
    s.granule >= 1 && (op.OpAllocate? ==> Answers(s, Need(op.size), op.mem))
  }

  function Step(s: Segregated, op: Op): Segregated
    requires |s.bins| == s.maxBin + 1 && s.granule >= 1
  {
    match op
    case OpAllocate(size, alignment, mem) => Allocate(s, size, alignment, mem).0
    case OpFree(id) => Free(s, id).0
    case OpReset => Reset(s)
  }

  ghost predicate Takes(s: Segregated, op: Op, s': Segregated)
  {
    Possible(s, op) && |s.bins| == s.maxBin + 1 && s' == Step(s, op)
  }

  /** A run: the states it passes through, one for each operation and the first. */
  ghost predicate Runs(states: seq<Segregated>, ops: seq<Op>)
  {
    && |states| == |ops| + 1
    && forall i :: 0 <= i < |ops| ==> Takes(states[i], ops[i], states[i + 1])
  }

  lemma StepKeeps(s: Segregated, op: Op, s': Segregated)
    requires Inv(s) && Takes(s, op, s')
    ensures Inv(s')
    ensures !op.OpReset? ==>
              && Balance(s') == Balance(s) && Refines(s.blocks, s'.blocks)
              && forall b :: b in s.supers ==> b in s'.supers && s'.supers[b] == s.supers[b]
  {
    hide Inv, Allocate, Free, Answers, Refines, Balance;
    InvParts(s);
    match op
    case OpAllocate(size, alignment, mem) => AllocateKeeps(s, size, alignment, mem);
    case OpFree(id) => FreeKeeps(s, id); RefinesSelf(s.supers, s.blocks);
    case OpReset => ResetKeeps(s);
  }

  /** Every state of every run has the invariant: blocks tile the superblocks, every free block
      sits in the bin of its size and nowhere else. */
  lemma {:induction false} RunKeepsInv(states: seq<Segregated>, ops: seq<Op>, i: nat)
    requires Runs(states, ops) && Inv(states[0]) && i < |states|
    ensures Inv(states[i])
  {
    hide Inv, Takes, Refines, Balance;
    if i > 0 {
      RunKeepsInv(states, ops, i - 1);
      assert Takes(states[i - 1], ops[i - 1], states[i]);
      StepKeeps(states[i - 1], ops[i - 1], states[i]);
    }
  }

  /** Between resets each later partition refines each earlier one, and the number of blocks
      changes only with the superblocks and the splits. */
  lemma {:induction false} RunRefines(states: seq<Segregated>, ops: seq<Op>, i: nat, j: nat)
    requires Runs(states, ops) && Inv(states[0]) && i <= j < |states|
    requires forall k :: i <= k < j ==> !ops[k].OpReset?
    ensures Refines(states[i].blocks, states[j].blocks) && Balance(states[j]) == Balance(states[i])
    ensures forall b :: b in states[i].supers ==> b in states[j].supers && states[j].supers[b] == states[i].supers[b]
    decreases j - i
  {
    hide Inv, Takes, Refines, Balance, Tiled;
    RunKeepsInv(states, ops, i);
    InvParts(states[i]);
    if i == j {
      RefinesSelf(states[i].supers, states[i].blocks);
    } else {
      assert Takes(states[i], ops[i], states[i + 1]);
      StepKeeps(states[i], ops[i], states[i + 1]);
      RunRefines(states, ops, i + 1, j);
      RunKeepsInv(states, ops, j);
      InvParts(states[i + 1]);
      InvParts(states[j]);
      RefinesTrans(states[i].supers, states[i].blocks, states[i + 1].supers, states[i + 1].blocks,
                   states[j].supers, states[j].blocks);
    }
  }

  /** From the start and without reset: as many blocks as superblocks and splits. */
  lemma RunBlockCount(granule: Granule, maxBytes: nat, states: seq<Segregated>, ops: seq<Op>)
    requires Runs(states, ops) && states[0] == Init(granule, maxBytes)
    requires forall k :: 0 <= k < |ops| ==> !ops[k].OpReset?
    ensures var s := states[|ops|]; |s.blocks| == |s.supers| + s.n.splits
  {
    hide Inv, Takes, Refines, Init;
    InitInv(granule, maxBytes);
    RunRefines(states, ops, 0, |ops|);
  }
}
