/** Geometry of power-of-two blocks and the pure block bookkeeping of the buddy
    allocator: splitting, coalescing, and what they keep. */
module BuddyBlocks {
  import opened Bits
  import Sums

  datatype Blk = Blk(off: nat, order: nat)
  {
    function Size(): nat { Pow2(order) }
    function End(): nat { off + Pow2(order) }
    predicate Aligned() { Bits.Aligned(off, order) }
    predicate Covers(x: int) { off <= x < End() }
    predicate Disjoint(b: Blk) { End() <= b.off || b.End() <= off }
    predicate Inside(b: Blk) { b.off <= off && End() <= b.End() }

    // The other half of the enclosing block: the offset with bit `order` flipped.
    function Buddy(): Blk { Blk(Xor(off, Pow2(order)), order) }
    function Parent(): Blk { Blk(if Buddy().off < off then Buddy().off else off, order + 1) }
    function Low(): Blk requires order > 0 { Blk(off, order - 1) }
    function High(): Blk requires order > 0 { Blk(off + Pow2(order - 1), order - 1) }
  }

  // ---- geometry ----

  lemma HalvesAligned(b: Blk)
    requires b.Aligned() && b.order > 0
    ensures b.Low().Aligned() && b.High().Aligned()
    ensures b.Low().Buddy() == b.High() && b.High().Buddy() == b.Low()
    ensures b.Low().Parent() == b && b.High().Parent() == b
  {
    var o := b.order - 1;
    AlignedSplit(b.off, o);
    XorPow2(b.off, o);
    XorPow2(b.off + Pow2(o), o);
  }

  /** A block is one half of its parent and its buddy is the other. */
  lemma ParentAligned(b: Blk)
    requires b.Aligned()
    ensures b.Parent().Aligned()
    ensures (b == b.Parent().Low() && b.Buddy() == b.Parent().High())
         || (b == b.Parent().High() && b.Buddy() == b.Parent().Low())
  {
    AlignedJoin(b.off, b.order);
    XorPow2(b.off, b.order);
  }

  /** The buddy relation is symmetric, and buddies are aligned together. */
  lemma BuddySymmetric(b: Blk)
    requires b.Aligned()
    ensures b.Buddy().Aligned() && b.Buddy() != b && b.Buddy().Buddy() == b
  {
    ParentAligned(b);
    HalvesAligned(b.Parent());
  }

  lemma ParentInArena(b: Blk, max: nat)
    requires b.Aligned() && b.order < max && b.End() <= Pow2(max)
    ensures b.Parent().End() <= Pow2(max) && b.Buddy().End() <= Pow2(max)
  {
    ParentAligned(b);
    AlignedZero(max);
    AlignedLaminar(b.Parent().off, b.order + 1, 0, max);
  }

  // ---- tilings ----

  ghost predicate Fits(b: Blk, max: nat) { b.Aligned() && b.order <= max && b.End() <= Pow2(max) }

  /** The blocks are aligned, pairwise disjoint and cover the arena [0, 2^max). */
  ghost predicate Tiling(s: set<Blk>, max: nat)
  {
    && (forall b {:trigger Fits(b, max)} :: b in s ==> Fits(b, max))
    && (forall a, b {:trigger a.Disjoint(b)} :: a in s && b in s && a != b ==> a.Disjoint(b))
    && (forall x {:trigger Covered(s, x)} :: 0 <= x < Pow2(max) ==> Covered(s, x))
  }

  ghost predicate Covered(s: set<Blk>, x: int) { exists b :: b in s && b.Covers(x) }

  lemma WholeArenaTiling(max: nat)
    ensures Tiling({Blk(0, max)}, max)
  {
    var s := {Blk(0, max)};
    AlignedZero(max);
    forall x | 0 <= x < Pow2(max) ensures Covered(s, x) { assert Blk(0, max).Covers(x); }
  }

  lemma SplitTiling(s: set<Blk>, b: Blk, max: nat)
    requires Tiling(s, max) && b in s && b.order > 0
    ensures Tiling(s - {b} + {b.Low(), b.High()}, max)
    ensures b.Low() !in s && b.High() !in s
  {
    assert Fits(b, max);
    HalvesAligned(b);
    var l, h := b.Low(), b.High();
    var s' := s - {b} + {l, h};
    assert l in s ==> l.Disjoint(b);
    assert h in s ==> h.Disjoint(b);
    forall c | c in s' ensures Fits(c, max) {
      assert c in s ==> Fits(c, max);
    }
    forall c, d | c in s' && d in s' && c != d ensures c.Disjoint(d) {
      assert c in s && d in s ==> c.Disjoint(d);
      assert c in s && c != b ==> c.Disjoint(b);
      assert d in s && d != b ==> d.Disjoint(b);
    }
    forall x | 0 <= x < Pow2(max) ensures Covered(s', x) {
      assert Covered(s, x);
      var c :| c in s && c.Covers(x);
      if c == b {
        if x < b.High().off { assert b.Low().Covers(x); } else { assert b.High().Covers(x); }
      } else {
        assert c in s';
      }
    }
  }

  lemma MergeTiling(s: set<Blk>, p: Blk, max: nat)
    requires Tiling(s, max) && Fits(p, max) && p.order > 0 && p.Low() in s && p.High() in s
    ensures Tiling(s - {p.Low(), p.High()} + {p}, max)
    ensures p !in s
  {
    var l, h := p.Low(), p.High();
    var s' := s - {l, h} + {p};
    assert p.off == l.off && l.End() == h.off && h.End() == p.End();
    assert l.Covers(p.off);
    assert p !in s by { assert p != l && !p.Disjoint(l); }
    forall c | c in s && c != l && c != h ensures c.Disjoint(p) {
      assert c.Disjoint(l) && c.Disjoint(h);
    }
    forall x | 0 <= x < Pow2(max) ensures Covered(s', x) {
      assert Covered(s, x);
      var c :| c in s && c.Covers(x);
      if c == l || c == h { assert p.Covers(x); } else { assert c in s'; }
    }
  }

  // ---- total size ----

  function Sizes(): Blk -> nat { (b: Blk) => b.Size() }

  ghost function Total(s: set<Blk>): nat { Sums.Sum(s, Sizes()) }

  lemma TotalRemove(s: set<Blk>, b: Blk)
    requires b in s
    ensures Total(s) == b.Size() + Total(s - {b})
  {
    Sums.SumRemove(s, Sizes(), b);
  }

  lemma TotalAdd(s: set<Blk>, b: Blk)
    requires b !in s
    ensures Total(s + {b}) == Total(s) + b.Size()
  {
    Sums.SumAdd(s, Sizes(), b);
  }

  // ---- the split loop of allocate ----

  /** The free blocks after the source's split loop has cut `b` down to order `k`; the
      block kept for the caller is the lowest piece, Blk(b.off, k), still counted as free. */
  function SplitDown(free: set<Blk>, b: Blk, k: nat): set<Blk>
    decreases b.order
  {
    if b.order <= k then free else SplitDown(free - {b} + {b.Low(), b.High()}, b.Low(), k)
  }

  /** No two free blocks are buddies, except possibly `b` and its buddy. */
  ghost predicate MaximalExcept(free: set<Blk>, b: Blk, max: nat)
  {
    forall c {:trigger c.Buddy()} :: c in free && c.order < max && c != b && c.Buddy() != b ==> c.Buddy() !in free
  }

  ghost predicate Maximal(free: set<Blk>, max: nat)
  {
    forall c {:trigger c.Buddy()} :: c in free && c.order < max ==> c.Buddy() !in free
  }

  lemma SplitOnce(free: set<Blk>, busy: set<Blk>, b: Blk, max: nat)
    requires Tiling(free + busy, max) && free !! busy && b in free && b.order > 0
    ensures var free' := free - {b} + {b.Low(), b.High()};
            Tiling(free' + busy, max) && free' !! busy && b.Low() !in free && b.High() !in free
  {
    SplitTiling(free + busy, b, max);
    assert free - {b} + {b.Low(), b.High()} + busy == free + busy - {b} + {b.Low(), b.High()};
  }

  lemma TotalAddTwo(s: set<Blk>, l: Blk, h: Blk)
    requires l !in s && h !in s && l != h
    ensures Total(s + {l, h}) == Total(s) + l.Size() + h.Size()
    ensures |s + {l, h}| == |s| + 2
  {
    assert s + {l, h} == s + {l} + {h};
    TotalAdd(s, l);
    TotalAdd(s + {l}, h);
  }

  lemma TotalReplace(s: set<Blk>, b: Blk, l: Blk, h: Blk)
    requires b in s && l !in s && h !in s && l != h && b.Size() == l.Size() + h.Size()
    ensures Total(s - {b} + {l, h}) == Total(s) && |s - {b} + {l, h}| == |s| + 1
  {
    var rest := s - {b};
    TotalRemove(s, b);
    TotalAddTwo(rest, l, h);
    assert |rest| == |s| - 1;
  }

  lemma SplitOnceMaximal(free: set<Blk>, b: Blk, max: nat)
    requires forall c :: c in free ==> c.Aligned()
    requires b in free && b.order > 0 && b.Low() !in free && b.High() !in free
    requires MaximalExcept(free, b, max)
    ensures MaximalExcept(free - {b} + {b.Low(), b.High()}, b.Low(), max)
  {
    var l, h := b.Low(), b.High();
    var free' := free - {b} + {l, h};
    HalvesAligned(b);
    forall c | c in free' && c.order < max && c != l && c.Buddy() != l ensures c.Buddy() !in free' {
      if c != h {
        BuddySymmetric(c);
        assert c.Buddy() != h;
      }
    }
  }

  /** Splitting keeps the tiling and the free total, leaves only the kept piece's pair to
      be un-coalesced, and adds one block per split. */
  lemma {:induction false} SplitDownKeeps(free: set<Blk>, busy: set<Blk>, b: Blk, k: nat, max: nat)
    requires Tiling(free + busy, max) && free !! busy && b in free && k <= b.order
    requires MaximalExcept(free, b, max)
    ensures var free' := SplitDown(free, b, k);
            && Blk(b.off, k) in free'
            && Tiling(free' + busy, max) && free' !! busy
            && MaximalExcept(free', Blk(b.off, k), max)
            && |free'| == |free| + (b.order - k) && Total(free') == Total(free)
    decreases b.order
  {
    if k < b.order {
      SplitOnce(free, busy, b, max);
      TotalReplace(free, b, b.Low(), b.High());
      forall c | c in free ensures c.Aligned() { assert Fits(c, max); }
      SplitOnceMaximal(free, b, max);
      SplitDownKeeps(free - {b} + {b.Low(), b.High()}, busy, b.Low(), k, max);
    }
  }

  // ---- the coalescing loop of free ----

  /** The free blocks after the source's merge loop has returned `b` to them. */
  function Coalesce(free: set<Blk>, b: Blk, max: nat): set<Blk>
    decreases max - b.order
  {
    if b.order < max && b.Buddy() in free then Coalesce(free - {b.Buddy()}, b.Parent(), max)
    else free + {b}
  }

  function Merges(free: set<Blk>, b: Blk, max: nat): nat
    decreases max - b.order
  {
    if b.order < max && b.Buddy() in free then 1 + Merges(free - {b.Buddy()}, b.Parent(), max) else 0
  }

  lemma CoalesceOnce(free: set<Blk>, busy: set<Blk>, b: Blk, max: nat)
    requires Tiling(free + {b} + busy, max) && b !in free && free !! busy && b !in busy
    requires b.order < max && b.Buddy() in free
    ensures var free' := free - {b.Buddy()};
            && Tiling(free' + {b.Parent()} + busy, max)
            && b.Parent() !in free' && b.Parent() !in busy
  {
    var p := b.Parent();
    var s := free + {b} + busy;
    assert Fits(b, max);
    ParentAligned(b);
    ParentInArena(b, max);
    MergeTiling(s, p, max);
    BuddySymmetric(b);
    assert free - {b.Buddy()} + {p} + busy == s - {p.Low(), p.High()} + {p} by {
      assert {p.Low(), p.High()} == {b, b.Buddy()};
      assert b.Buddy() !in busy;
    }
  }

  lemma CoalesceTotal(free: set<Blk>, b: Blk)
    requires b.Buddy() in free
    ensures Total(free - {b.Buddy()}) + b.Parent().Size() == Total(free) + b.Size()
  {
    TotalRemove(free, b.Buddy());
  }

  /** Coalescing keeps the tiling, conserves the bytes, restores maximality and
      removes one block per merge. */
  lemma {:induction false} CoalesceKeeps(free: set<Blk>, busy: set<Blk>, b: Blk, max: nat)
    requires Tiling(free + {b} + busy, max) && b !in free && free !! busy && b !in busy
    requires Maximal(free, max)
    ensures var free' := Coalesce(free, b, max);
            && Tiling(free' + busy, max) && free' !! busy && Maximal(free', max)
            && |free'| + Merges(free, b, max) == |free| + 1
            && Total(free') == Total(free) + b.Size()
    decreases max - b.order
  {
    if b.order < max && b.Buddy() in free {
      CoalesceOnce(free, busy, b, max);
      CoalesceTotal(free, b);
      CoalesceKeeps(free - {b.Buddy()}, busy, b.Parent(), max);
    } else {
      TotalAdd(free, b);
      LastBlockMaximal(free, busy, b, max);
    }
  }

  lemma LastBlockMaximal(free: set<Blk>, busy: set<Blk>, b: Blk, max: nat)
    requires Tiling(free + {b} + busy, max) && Maximal(free, max)
    requires b.order < max ==> b.Buddy() !in free
    ensures Maximal(free + {b}, max)
  {
    forall c | c in free + {b} && c.order < max ensures c.Buddy() !in free + {b} {
      assert Fits(c, max);
      BuddySymmetric(c);
    }
  }

  // ---- completeness ----

  /** Some aligned region of the given order is disjoint from every busy block. */
  ghost predicate RoomFor(busy: set<Blk>, k: nat, max: nat)
  {
    exists r: Blk :: r.order == k && Vacant(r, busy, max)
  }

  ghost predicate Vacant(r: Blk, busy: set<Blk>, max: nat)
  {
    Fits(r, max) && forall b {:trigger b.Disjoint(r)} :: b in busy ==> b.Disjoint(r)
  }

  lemma BuddyInside(f: Blk, r: Blk)
    requires f.Aligned() && r.Aligned() && f.Inside(r) && f.order < r.order
    ensures f.Buddy().Inside(r)
  {
    ParentAligned(f);
    AlignedLaminar(f.Parent().off, f.order + 1, r.off, r.order);
  }

  lemma OverlapClash(f: Blk, c: Blk)
    requires f.Inside(c)
    ensures !f.Disjoint(c)
  {
  }

  /** In a tiling, the block that covers the start of f's buddy is the buddy or a smaller block. */
  lemma BuddyCover(s: set<Blk>, f: Blk, c: Blk, max: nat)
    requires Tiling(s, max) && f in s && c in s && c.Covers(f.Buddy().off) && c.order >= f.order
    ensures c == f.Buddy()
  {
    var q, p := f.Buddy(), f.Parent();
    assert Fits(f, max) && Fits(c, max);
    ParentAligned(f);
    BuddySymmetric(f);
    AlignedLaminar(q.off, q.order, c.off, c.order);
    if c.order > f.order {
      AlignedLaminar(p.off, p.order, c.off, c.order);
      OverlapClash(f, c);
      assert false;
    }
  }

  /** A vacant region that contains a smaller free block contains, or lies in, a free block of
      its own order or more: the smallest free block inside would have a free buddy. */
  lemma {:induction false} NoSmallFree(free: set<Blk>, busy: set<Blk>, r: Blk, f: Blk, max: nat)
    requires Tiling(free + busy, max) && Maximal(free, max) && Vacant(r, busy, max)
    requires f in free && f.Inside(r) && f.order < r.order
    ensures exists g :: g in free && g.order >= r.order
    decreases f.order
  {
    assert Fits(f, max);
    BuddyInside(f, r);
    ParentInArena(f, max);
    var q := f.Buddy();
    assert Covered(free + busy, q.off);
    var c :| c in free + busy && c.Covers(q.off);
    CoverIsFree(free, busy, r, c, q.off, max);
    if c.order >= f.order {
      BuddyCover(free + busy, f, c, max);
      assert false;
    } else {
      CoverInside(free, busy, r, c, q.off, max);
      NoSmallFree(free, busy, r, c, max);
    }
  }

  lemma CoverIsFree(free: set<Blk>, busy: set<Blk>, r: Blk, c: Blk, x: nat, max: nat)
    requires Vacant(r, busy, max) && c in free + busy && c.Covers(x) && r.Covers(x)
    ensures c in free
  {
    assert c in busy ==> c.Disjoint(r);
  }

  lemma CoverInside(free: set<Blk>, busy: set<Blk>, r: Blk, c: Blk, x: nat, max: nat)
    requires Tiling(free + busy, max) && Vacant(r, busy, max) && c in free
    requires c.Covers(x) && r.Covers(x) && c.order < r.order
    ensures c.Inside(r)
  {
    assert Fits(c, max);
    AlignedLaminar(c.off, c.order, r.off, r.order);
  }

  /** The search succeeds exactly when an aligned vacant region of the order exists. */
  lemma SearchComplete(free: set<Blk>, busy: set<Blk>, k: nat, max: nat)
    requires Tiling(free + busy, max) && free !! busy && Maximal(free, max)
    ensures (exists f :: f in free && f.order >= k) <==> RoomFor(busy, k, max)
  {
    if f :| f in free && f.order >= k {
      RoomInside(free, busy, f, k, max);
    }
    if r: Blk :| r.order == k && Vacant(r, busy, max) {
      assert Covered(free + busy, r.off);
      var c :| c in free + busy && c.Covers(r.off);
      CoverIsFree(free, busy, r, c, r.off, max);
      if c.order < k {
        CoverInside(free, busy, r, c, r.off, max);
        NoSmallFree(free, busy, r, c, max);
      }
    }
  }

  lemma RoomInside(free: set<Blk>, busy: set<Blk>, f: Blk, k: nat, max: nat)
    requires Tiling(free + busy, max) && free !! busy && f in free && f.order >= k
    ensures RoomFor(busy, k, max)
  {
    var r := Blk(f.off, k);
    AlignedLower(f.off, k, f.order);
    Pow2Mono(k, f.order);
    assert Fits(f, max);
    forall b | b in busy ensures b.Disjoint(r) { assert b.Disjoint(f); }
    assert Vacant(r, busy, max);
  }

  lemma {:induction false} AlignedLower(x: nat, k: nat, o: nat)
    requires Bits.Aligned(x, o) && k <= o
    ensures Bits.Aligned(x, k)
    decreases k
  {
    if k > 0 { AlignedLower(x / 2, k - 1, o - 1); }
  }
}
