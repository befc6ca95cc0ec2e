/** The geometry of the boundary-tag free list: blocks that tile superblocks, the sums of their
    sizes, and the chain of free blocks. */
module FreeListBlocks {
  import opened Bits
  import Sums

  const OVERHEAD: nat := 64        // header 48 + footer 16
  const MIN_BLOCK: nat := 72

  /** A block as its header describes it. `total` is the header's arena_total: the superblock's
      size in the first block of a superblock, whatever the memory held in a split remainder. */
  datatype Block = Block(size: nat, base: nat, total: nat)
  type Blocks = map<nat, Block>

  // ---- tiling, locally ----

  predicate Within(supers: map<nat, nat>, a: nat, b: Block)
  {
    b.base in supers && b.base <= a && a + b.size <= b.base + supers[b.base] && OVERHEAD <= b.size
  }

  predicate Last(supers: map<nat, nat>, a: nat, b: Block)
  {
    b.base in supers && a + b.size == b.base + supers[b.base]
  }

  predicate Apart(m: Blocks, a: nat, c: nat)
  {
    a in m && c in m && a < c ==> a + m[a].size <= c
  }

  /** `c` starts where `a` ends, in the same superblock. */
  predicate Neighbours(m: Blocks, a: nat, c: nat)
  {
    a in m && c in m && a + m[a].size == c && m[a].base == m[c].base
  }

  ghost predicate HasRight(supers: map<nat, nat>, m: Blocks, a: nat)
  {
    a in m ==> Last(supers, a, m[a]) || Neighbours(m, a, a + m[a].size)
  }

  ghost predicate HasLeft(m: Blocks, a: nat)
  {
    a in m ==> a == m[a].base || exists p :: Neighbours(m, p, a)
  }

  /** The blocks tile the superblocks: inside, disjoint, and each followed and preceded by
      another unless it ends or starts its superblock. */
  ghost predicate Tiled(supers: map<nat, nat>, m: Blocks)
  {
    && (forall a :: a in m ==> Within(supers, a, m[a]))
    && (forall a, c :: Apart(m, a, c))
    && (forall a :: HasRight(supers, m, a))
    && (forall a :: HasLeft(m, a))
    && (forall s :: s in supers ==> s in m && m[s].base == s)
  }

  ghost predicate SupersApart(supers: map<nat, nat>)
  {
    && (forall s :: s in supers ==> s > 0 && s % 16 == 0 && s + supers[s] < WORD)
    && (forall s, t :: s in supers && t in supers && s < t ==> s + supers[s] <= t)
  }

  function Cut(m: Blocks, a: nat, need: nat, junk: nat): Blocks
    requires a in m && need <= m[a].size
  {
    m[a := m[a].(size := need)][a + need := Block(m[a].size - need, m[a].base, junk)]
  }

  function Join(m: Blocks, a: nat, c: nat): Blocks
    requires a in m && c in m
  {
    (m - {c})[a := m[a].(size := m[a].size + m[c].size)]
  }

  lemma CutApart(supers: map<nat, nat>, m: Blocks, a: nat, need: nat, junk: nat)
    requires Tiled(supers, m) && a in m && OVERHEAD <= need && need + OVERHEAD <= m[a].size
    ensures a + need !in m
    ensures forall x, y :: Apart(Cut(m, a, need, junk), x, y)
  {
    assert Apart(m, a, a + need);
    var m' := Cut(m, a, need, junk);
    forall x, y ensures Apart(m', x, y) {
      assert Apart(m, x, y) && Apart(m, x, a) && Apart(m, a, x) && Apart(m, a, y);
    }
  }

  lemma CutLinks(supers: map<nat, nat>, m: Blocks, a: nat, need: nat, junk: nat)
    requires Tiled(supers, m) && a in m && OVERHEAD <= need && need + OVERHEAD <= m[a].size
    ensures forall x :: HasRight(supers, Cut(m, a, need, junk), x)
    ensures forall x :: HasLeft(Cut(m, a, need, junk), x)
  {
    CutApart(supers, m, a, need, junk);
    var m' := Cut(m, a, need, junk);
    var r := a + need;
    forall x ensures HasRight(supers, m', x) {
      if x in m' {
        assert HasRight(supers, m, if x == r then a else x);
        if x == a { assert Neighbours(m', a, r); }
      }
    }
    forall x ensures HasLeft(m', x) {
      if x in m' {
        if x == r {
          assert Neighbours(m', a, r);
        } else {
          assert HasLeft(m, x);
          if p: nat :| Neighbours(m, p, x) { assert Neighbours(m', if p == a then r else p, x); }
        }
      }
    }
  }

  /** Splitting a block keeps the tiling. */
  lemma CutTiled(supers: map<nat, nat>, m: Blocks, a: nat, need: nat, junk: nat)
    requires Tiled(supers, m) && a in m && OVERHEAD <= need && need + OVERHEAD <= m[a].size
    ensures Tiled(supers, Cut(m, a, need, junk))
  {
    CutApart(supers, m, a, need, junk);
    CutLinks(supers, m, a, need, junk);
    assert Within(supers, a, m[a]);
  }

  lemma JoinApart(supers: map<nat, nat>, m: Blocks, a: nat, c: nat)
    requires Tiled(supers, m) && Neighbours(m, a, c)
    ensures forall x, y :: Apart(Join(m, a, c), x, y)
  {
    var m' := Join(m, a, c);
    forall x, y ensures Apart(m', x, y) {
      assert Apart(m, x, y) && Apart(m, c, y) && Apart(m, a, y) && Apart(m, x, a);
      assert Within(supers, c, m[c]) && Within(supers, a, m[a]);
      if y in m { assert Within(supers, y, m[y]) && Apart(m, y, c); }
    }
  }

  lemma JoinLinks(supers: map<nat, nat>, m: Blocks, a: nat, c: nat)
    requires Tiled(supers, m) && Neighbours(m, a, c)
    ensures forall x :: HasRight(supers, Join(m, a, c), x)
    ensures forall x :: HasLeft(Join(m, a, c), x)
  {
    var m' := Join(m, a, c);
    assert Within(supers, c, m[c]) && Within(supers, a, m[a]);
    forall x ensures HasRight(supers, m', x) {
      if x in m' {
        assert HasRight(supers, m, if x == a then c else x);
        assert Apart(m, x, a) && Apart(m, a, x);
        assert Within(supers, x, m[x]);
      }
    }
    forall x ensures HasLeft(m', x) {
      if x in m' {
        assert HasLeft(m, x);
        if p: nat :| Neighbours(m, p, x) { assert Neighbours(m', if p == c then a else p, x); }
      }
    }
  }

  /** Merging two neighbours keeps the tiling. */
  lemma JoinTiled(supers: map<nat, nat>, m: Blocks, a: nat, c: nat)
    requires Tiled(supers, m) && Neighbours(m, a, c)
    ensures Tiled(supers, Join(m, a, c))
  {
    JoinApart(supers, m, a, c);
    JoinLinks(supers, m, a, c);
    assert Within(supers, c, m[c]) && Within(supers, a, m[a]);
  }

  ghost predicate FreshBlock(supers: map<nat, nat>, base: nat, size: nat)
  {
    && base > 0 && base % 16 == 0 && base + size < WORD
    && forall s :: s in supers ==> base + size <= s || s + supers[s] <= base
  }

  lemma FreshIsClear(supers: map<nat, nat>, m: Blocks, base: nat, size: nat)
    requires Tiled(supers, m) && FreshBlock(supers, base, size) && OVERHEAD <= size
    ensures base !in m && base !in supers
    ensures forall x :: x in m ==> x + m[x].size <= base || base + size <= x
    ensures forall s :: s in supers ==> s + supers[s] <= base || base + size <= s
  {
    forall x | x in m ensures x + m[x].size <= base || base + size <= x {
      assert Within(supers, x, m[x]);
    }
    forall x | x in m ensures x != base { assert Within(supers, x, m[x]); }
    forall s | s in supers ensures s != base { assert s in m; }
  }

  lemma AddLinks(supers: map<nat, nat>, m: Blocks, base: nat, size: nat)
    requires Tiled(supers, m) && base !in m && base !in supers
    ensures var supers', m' := supers[base := size], m[base := Block(size, base, size)];
            (forall x :: HasRight(supers', m', x)) && forall x :: HasLeft(m', x)
  {
    var supers', m' := supers[base := size], m[base := Block(size, base, size)];
    forall x ensures HasRight(supers', m', x) {
      assert HasRight(supers, m, x);
    }
    forall x ensures HasLeft(m', x) {
      assert HasLeft(m, x);
      if p: nat :| Neighbours(m, p, x) { assert Neighbours(m', p, x); }
    }
  }

  /** A fresh superblock that is one block extends the tiling. */
  lemma AddTiled(supers: map<nat, nat>, m: Blocks, base: nat, size: nat)
    requires Tiled(supers, m) && SupersApart(supers) && FreshBlock(supers, base, size) && OVERHEAD <= size
    ensures base !in m && base !in supers
    ensures Tiled(supers[base := size], m[base := Block(size, base, size)])
    ensures SupersApart(supers[base := size])
  {
    hide HasRight, HasLeft, Neighbours, Last;
    FreshIsClear(supers, m, base, size);
    AddLinks(supers, m, base, size);
    AddApart(supers, m, base, size);
    AddSuper(supers, base, size);
    assert forall x :: x in m ==> Within(supers, x, m[x]);
  }

  lemma AddApart(supers: map<nat, nat>, m: Blocks, base: nat, size: nat)
    requires Tiled(supers, m) && base !in m && forall x :: x in m ==> x + m[x].size <= base || base + size <= x
    ensures var m' := m[base := Block(size, base, size)]; forall x, y :: Apart(m', x, y)
  {
    hide HasRight, HasLeft, Neighbours, Last;
    var m' := m[base := Block(size, base, size)];
    forall x, y ensures Apart(m', x, y) { assert Apart(m, x, y); }
  }

  lemma AddSuper(supers: map<nat, nat>, base: nat, size: nat)
    requires SupersApart(supers) && FreshBlock(supers, base, size) && base !in supers
    requires forall s :: s in supers ==> s + supers[s] <= base || base + size <= s
    ensures SupersApart(supers[base := size])
  {
  }

  // ---- sums of block sizes ----

  function SizeOf(m: Blocks, a: nat): nat { if a in m then m[a].size else 0 }

  function Sizes(m: Blocks): nat -> nat { (a: nat) => SizeOf(m, a) }

  ghost function Sum(s: set<nat>, m: Blocks): nat { Sums.Sum(s, Sizes(m)) }

  lemma SumRemove(s: set<nat>, m: Blocks, x: nat)
    requires x in s
    ensures Sum(s, m) == SizeOf(m, x) + Sum(s - {x}, m)
  {
    Sums.SumRemove(s, Sizes(m), x);
  }

  lemma SumAdd(s: set<nat>, m: Blocks, x: nat)
    requires x !in s
    ensures Sum(s + {x}, m) == Sum(s, m) + SizeOf(m, x)
  {
    Sums.SumAdd(s, Sizes(m), x);
  }

  lemma SumFrame(s: set<nat>, m: Blocks, m': Blocks)
    requires forall a :: a in s ==> SizeOf(m, a) == SizeOf(m', a)
    ensures Sum(s, m) == Sum(s, m')
  {
    Sums.SumFrame(s, Sizes(m), Sizes(m'));
  }

  lemma SumAtLeast(s: set<nat>, m: Blocks)
    requires forall a :: a in s ==> SizeOf(m, a) >= OVERHEAD
    ensures Sum(s, m) >= 64 * |s|
  {
    Sums.SumAtLeast(s, Sizes(m), OVERHEAD);
  }

  lemma SumUnion(s: set<nat>, t: set<nat>, m: Blocks)
    requires s !! t
    ensures Sum(s + t, m) == Sum(s, m) + Sum(t, m)
  {
    Sums.SumUnion(s, t, Sizes(m));
  }

  lemma CutSum(m: Blocks, a: nat, need: nat, junk: nat)
    requires a in m && 0 < need <= m[a].size && a + need !in m
    ensures Sum(Cut(m, a, need, junk).Keys, Cut(m, a, need, junk)) == Sum(m.Keys, m)
  {
    hide Sum;
    var m' := Cut(m, a, need, junk);
    var rest := m.Keys - {a};
    SumRemove(m.Keys, m, a);
    SumFrame(rest, m, m');
    SumAdd(rest, m', a);
    SumAdd(rest + {a}, m', a + need);
    assert m'.Keys == rest + {a} + {a + need};
  }

  lemma JoinSum(m: Blocks, a: nat, c: nat)
    requires a in m && c in m && a != c
    ensures Sum(Join(m, a, c).Keys, Join(m, a, c)) == Sum(m.Keys, m)
  {
    hide Sum;
    var m' := Join(m, a, c);
    var rest := m.Keys - {c} - {a};
    SumRemove(m.Keys, m, c);
    SumRemove(m.Keys - {c}, m, a);
    SumFrame(rest, m, m');
    SumAdd(rest, m', a);
    assert m'.Keys == rest + {a};
  }

  // ---- the free chain ----

  /** The first position of the chain whose block is large enough, or its length. */
  function FirstFit(m: Blocks, free: seq<nat>, need: nat): (i: nat)
    ensures i <= |free|
    ensures forall j :: 0 <= j < i ==> SizeOf(m, free[j]) < need
    ensures i < |free| ==> SizeOf(m, free[i]) >= need
  {
    if free == [] || SizeOf(m, free[0]) >= need then 0 else 1 + FirstFit(m, free[1..], need)
  }
}
