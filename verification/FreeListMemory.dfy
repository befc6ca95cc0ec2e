/** Block headers, footers and the intrusive chain in memory, and how they record the blocks. */
module FreeListMemory {
  import opened Bits
  import opened FreeListBlocks
  import opened Sequences

  const MAGIC_FREE: nat := 0xF4E1F0F0
  const MAGIC_BUSY: nat := 0xB5A5B5A5

  datatype Header = Header(magic: nat, size: nat, busy: bool, next: nat, base: nat, total: nat)
  datatype Footer = Footer(size: nat, busy: bool)
  type Headers = map<nat, Header>
  type Footers = map<nat, Footer>

  function FooterAt(m: Blocks, a: nat): int
    requires a in m
  {
    a + m[a].size - 16
  }

  /** The header describes block b, free or busy. */
  ghost predicate Describes(h: Header, b: Block, isFree: bool)
  {
    && h.size == b.size && h.base == b.base && h.total == b.total
    && h.busy == !isFree && h.magic == (if isFree then MAGIC_FREE else MAGIC_BUSY)
  }

  /** Headers and footers agree with the blocks; `f` are the free ones. */
  ghost predicate HeadersOk(m: Blocks, f: set<nat>, h: Headers)
  {
    forall a :: a in m ==> a in h && Describes(h[a], m[a], a in f)
  }

  ghost predicate FooterOk(m: Blocks, f: set<nat>, ft: Footers, a: nat)
  {
    a in m ==> FooterAt(m, a) >= 0 && FooterAt(m, a) in ft && ft[FooterAt(m, a)] == Footer(m[a].size, a !in f)
  }

  ghost predicate FootersOk(m: Blocks, f: set<nat>, ft: Footers) { forall a :: FooterOk(m, f, ft, a) }

  function At(free: seq<nat>, i: nat): nat { if i < |free| then free[i] else 0 }

  /** The next pointers run through the chain from its head to null. */
  ghost predicate Linked(h: Headers, head: nat, free: seq<nat>)
  {
    && head == At(free, 0)
    && (forall i :: 0 <= i < |free| ==> free[i] > 0 && free[i] in h)
    && forall i {:trigger h[free[i]]} :: 0 <= i < |free| ==> h[free[i]].next == At(free, i + 1)
  }

  // ---- what is written ----

  ghost predicate HeaderChanged(h: Headers, h': Headers, x: nat)
  {
    !(x in h <==> x in h') || (x in h && h[x] != h'[x])
  }

  ghost predicate FooterChanged(ft: Footers, ft': Footers, x: nat)
  {
    !(x in ft <==> x in ft') || (x in ft && ft[x] != ft'[x])
  }

  /** No byte of a header (48) or footer (16) written lies in [a, e). */
  ghost predicate Spares(h: Headers, h': Headers, ft: Footers, ft': Footers, a: nat, e: nat)
  {
    && (forall x: nat :: HeaderChanged(h, h', x) ==> x + 48 <= a || e <= x)
    && (forall x: nat :: FooterChanged(ft, ft', x) ==> x + 16 <= a || e <= x)
  }

  /** Nothing written lies in a busy block. */
  ghost predicate Untouched(h: Headers, h': Headers, ft: Footers, ft': Footers, m: Blocks, busy: set<nat>)
  {
    forall a :: a in busy && a in m ==> Spares(h, h', ft, ft', a, a + m[a].size)
  }

  lemma UntouchedRefl(h: Headers, ft: Footers, m: Blocks, busy: set<nat>)
    ensures Untouched(h, h, ft, ft, m, busy)
  {
  }

  lemma SparesTrans(h0: Headers, h1: Headers, h2: Headers, f0: Footers, f1: Footers, f2: Footers, a: nat, e: nat)
    requires Spares(h0, h1, f0, f1, a, e) && Spares(h1, h2, f1, f2, a, e)
    ensures Spares(h0, h2, f0, f2, a, e)
  {
    forall x: nat | HeaderChanged(h0, h2, x) ensures x + 48 <= a || e <= x {
      assert HeaderChanged(h0, h1, x) || HeaderChanged(h1, h2, x);
    }
    forall x: nat | FooterChanged(f0, f2, x) ensures x + 16 <= a || e <= x {
      assert FooterChanged(f0, f1, x) || FooterChanged(f1, f2, x);
    }
  }

  /** Two steps, the second over blocks that kept every busy one. */
  lemma UntouchedTrans(h0: Headers, h1: Headers, h2: Headers, f0: Footers, f1: Footers, f2: Footers,
                       m: Blocks, m1: Blocks, busy: set<nat>)
    requires Untouched(h0, h1, f0, f1, m, busy) && Untouched(h1, h2, f1, f2, m1, busy)
    requires forall a :: a in busy && a in m ==> a in m1 && m1[a] == m[a]
    ensures Untouched(h0, h2, f0, f2, m, busy)
  {
    hide Spares;
    forall a | a in busy && a in m ensures Spares(h0, h2, f0, f2, a, a + m[a].size) {
      SparesTrans(h0, h1, h2, f0, f1, f2, a, a + m[a].size);
    }
  }

  /** Writing the header and footer of tiling blocks other than the busy ones touches none of these. */
  lemma WritesClear(supers: map<nat, nat>, m: Blocks, h: Headers, h': Headers, ft: Footers, ft': Footers,
      busy: set<nat>)
    requires Tiled(supers, m)
    requires forall x: nat :: HeaderChanged(h, h', x) ==> x in m && x !in busy
    requires forall y: nat :: FooterChanged(ft, ft', y) ==> exists x :: x in m && x !in busy && y == FooterAt(m, x)
    ensures Untouched(h, h', ft, ft', m, busy)
  {
    forall a | a in busy && a in m ensures Spares(h, h', ft, ft', a, a + m[a].size) {
      forall x: nat | HeaderChanged(h, h', x) ensures x + 48 <= a || a + m[a].size <= x {
        assert Apart(m, x, a) && Apart(m, a, x) && Within(supers, x, m[x]);
      }
      forall y: nat | FooterChanged(ft, ft', y) ensures y + 16 <= a || a + m[a].size <= y {
        var x :| x in m && x !in busy && y == FooterAt(m, x);
        assert Apart(m, x, a) && Apart(m, a, x) && Within(supers, x, m[x]);
      }
    }
  }

  // ---- headers ----

  /** Only next pointers differ. */
  ghost predicate SameButNext(h: Headers, h': Headers)
  {
    h.Keys == h'.Keys && forall x :: x in h ==> h'[x] == h[x].(next := h'[x].next)
  }

  lemma NextKeeps(m: Blocks, f: set<nat>, h: Headers, h': Headers)
    requires HeadersOk(m, f, h) && SameButNext(h, h')
    ensures HeadersOk(m, f, h')
  {
    forall a | a in m ensures a in h' && Describes(h'[a], m[a], a in f) {
      assert Describes(h[a], m[a], a in f);
    }
  }

  /** A header rewritten, all others as before up to their next pointers. */
  lemma HeadersPut(m: Blocks, f: set<nat>, h: Headers, m': Blocks, f': set<nat>, h': Headers, changed: set<nat>)
    requires HeadersOk(m, f, h)
    requires forall a :: a in m' && a !in changed ==>
               a in m && m'[a] == m[a] && (a in f' <==> a in f) && a in h' &&
                   (a in h ==> h'[a] == h[a].(next := h'[a].next))
    requires forall a :: a in m' && a in changed ==> a in h' && Describes(h'[a], m'[a], a in f')
    ensures HeadersOk(m', f', h')
  {
    forall a | a in m' ensures a in h' && Describes(h'[a], m'[a], a in f') {
      if a !in changed { assert Describes(h[a], m[a], a in f); }
    }
  }

  /** Footers of distinct blocks lie at distinct places. */
  lemma FooterApart(supers: map<nat, nat>, m: Blocks, a: nat, c: nat)
    requires Tiled(supers, m) && a in m && c in m && a != c
    ensures FooterAt(m, a) != FooterAt(m, c) && FooterAt(m, a) >= 0
  {
    assert Apart(m, a, c) && Apart(m, c, a) && Within(supers, a, m[a]) && Within(supers, c, m[c]);
  }

  /** Footers of the blocks in `changed` rewritten, and perhaps others that end no block. */
  lemma FootersPut(supers: map<nat, nat>, m: Blocks, f: set<nat>, ft: Footers,
                   m': Blocks, f': set<nat>, ft': Footers, changed: set<nat>)
    requires FootersOk(m, f, ft) && Tiled(supers, m')
    requires forall a :: a in m' && a !in changed ==> a in m && m'[a] == m[a] && (a in f' <==> a in f)
    requires forall a :: a in m' && a in changed ==> FooterOk(m', f', ft', a)
    requires forall y: nat :: FooterChanged(ft, ft', y) ==>
        exists x :: x in changed && x in m' && y == FooterAt(m', x)
    ensures FootersOk(m', f', ft')
  {
    forall a ensures FooterOk(m', f', ft', a) {
      if a in m' && a !in changed {
        assert FooterOk(m, f, ft, a);
        var y := FooterAt(m, a);
        if FooterChanged(ft, ft', y) {
          var x :| x in changed && x in m' && y == FooterAt(m', x);
          FooterApart(supers, m', a, x);
        }
      }
    }
  }

  // ---- the chain ----

  /** Next pointers off the changed places are as before. */
  ghost predicate NextKept(h: Headers, h': Headers, free: seq<nat>, except: set<nat>)
  {
    forall x :: x in free && x !in except && x in h ==> x in h' && h'[x].next == h[x].next
  }

  // *prev_link: the head for the first element, the predecessor's next field otherwise.
  ghost predicate LinkTo(h: Headers, head: nat, free: seq<nat>, i: nat, target: nat)
    requires i <= |free|
  {
    if i == 0 then head == target else free[i - 1] in h && h[free[i - 1]].next == target
  }

  lemma AtRemoved(free: seq<nat>, i: nat, k: nat)
    requires i < |free|
    ensures |RemoveAt(free, i)| == |free| - 1
    ensures At(RemoveAt(free, i), k) == At(free, if k < i then k else k + 1)
    ensures k < |free| - 1 ==> RemoveAt(free, i)[k] == free[if k < i then k else k + 1]
  {
  }

  lemma LinkedAt(h: Headers, head: nat, free: seq<nat>, k: nat)
    requires Linked(h, head, free) && k < |free|
    ensures free[k] > 0 && free[k] in h && h[free[k]].next == At(free, k + 1)
  {
  }

  // The links of the elements that keep theirs.
  lemma NextSame(h: Headers, head: nat, free: seq<nat>, h': Headers, except: set<nat>, k: nat)
    requires Linked(h, head, free) && NextKept(h, h', free, except) && k < |free| && free[k] !in except
    ensures free[k] > 0 && free[k] in h' && h'[free[k]].next == At(free, k + 1)
  {
    hide Linked;
    LinkedAt(h, head, free, k);
    assert free[k] in free;
  }

  lemma LinkedRemove(h: Headers, head: nat, free: seq<nat>, i: nat, h': Headers, head': nat)
    requires Linked(h, head, free) && NoDup(free) && i < |free|
    requires LinkTo(h', head', free, i, At(free, i + 1)) && (i > 0 ==> head' == head)
    requires NextKept(h, h', free, {free[i], if i == 0 then free[i] else free[i - 1]})
    ensures Linked(h', head', RemoveAt(free, i))
  {
    hide RemoveAt, At, NextKept;
    var g := RemoveAt(free, i);
    HeadIs(h, head, free);
    AtRemoved(free, i, 0);
    forall k | 0 <= k < |g| ensures g[k] > 0 && g[k] in h' && h'[g[k]].next == At(g, k + 1) {
      AtRemoved(free, i, k);
      AtRemoved(free, i, k + 1);
      if k + 1 == i { LinkedAt(h, head, free, k); }
      else { NextSame(h, head, free, h', {free[i], if i == 0 then free[i] else free[i - 1]},
          if k < i then k else k + 1); }
    }
  }

  lemma HeadIs(h: Headers, head: nat, free: seq<nat>)
    requires Linked(h, head, free)
    ensures head == At(free, 0) && forall i :: 0 <= i < |free| ==> free[i] > 0
  {
  }

  lemma LinkedReplace(h: Headers, head: nat, free: seq<nat>, i: nat, r: nat, h': Headers, head': nat)
    requires Linked(h, head, free) && NoDup(free) && i < |free| && r !in free && r > 0
    requires LinkTo(h', head', free, i, r) && (i > 0 ==> head' == head)
    requires r in h' && h'[r].next == At(free, i + 1)
    requires NextKept(h, h', free, {free[i], if i == 0 then free[i] else free[i - 1]})
    ensures Linked(h', head', free[i := r])
  {
    hide NextKept, LinkTo;
    var g := free[i := r];
    forall k | 0 <= k < |g| ensures g[k] > 0 && g[k] in h' && h'[g[k]].next == At(g, k + 1) {
      ReplacedAt(h, head, free, i, r, h', head', k);
    }
    ReplacedHead(h, head, free, i, r, h', head');
  }

  lemma ReplacedHead(h: Headers, head: nat, free: seq<nat>, i: nat, r: nat, h': Headers, head': nat)
    requires Linked(h, head, free) && i < |free| && LinkTo(h', head', free, i, r) && (i > 0 ==> head' == head)
    ensures head' == At(free[i := r], 0)
  {
  }

  lemma ReplacedAt(h: Headers, head: nat, free: seq<nat>, i: nat, r: nat, h': Headers, head': nat, k: nat)
    requires Linked(h, head, free) && NoDup(free) && i < |free| && r !in free && r > 0 && k < |free|
    requires LinkTo(h', head', free, i, r) && (i > 0 ==> head' == head)
    requires r in h' && h'[r].next == At(free, i + 1)
    requires NextKept(h, h', free, {free[i], if i == 0 then free[i] else free[i - 1]})
    ensures var g := free[i := r]; g[k] > 0 && g[k] in h' && h'[g[k]].next == At(g, k + 1)
  {
    hide NextKept, LinkTo, Linked, NoDup, At;
    AtReplaced(free, i, r, k + 1);
    if k == i {
    } else if k + 1 == i {
      LinkedBefore(h', head', free, i, r);
      LinkedNext(h, head, free, k);
    } else {
      LinkedNext(h, head, free, k);
      Different(free, i, k);
      StillNext(h, h', free, {free[i], if i == 0 then free[i] else free[i - 1]}, free[k]);
    }
  }

  lemma AtReplaced(free: seq<nat>, i: nat, r: nat, j: nat)
    requires i < |free|
    ensures At(free[i := r], j) == if j == i then r else At(free, j)
  {
  }

  lemma LinkedBefore(h: Headers, head: nat, free: seq<nat>, i: nat, target: nat)
    requires 0 < i <= |free| && LinkTo(h, head, free, i, target)
    ensures free[i - 1] in h && h[free[i - 1]].next == target
  {
  }

  lemma LinkedNext(h: Headers, head: nat, free: seq<nat>, k: nat)
    requires Linked(h, head, free) && k < |free|
    ensures free[k] > 0 && free[k] in h && h[free[k]].next == At(free, k + 1)
  {
  }

  lemma Different(free: seq<nat>, i: nat, k: nat)
    requires NoDup(free) && i < |free| && k < |free| && k != i && k + 1 != i
    ensures free[k] != free[i] && (i > 0 ==> free[k] != free[i - 1])
  {
  }

  lemma StillNext(h: Headers, h': Headers, free: seq<nat>, except: set<nat>, x: nat)
    requires NextKept(h, h', free, except) && x in free && x !in except && x in h
    ensures x in h' && h'[x].next == h[x].next
  {
  }

  lemma LinkedPush(h: Headers, head: nat, free: seq<nat>, b: nat, h': Headers)
    requires Linked(h, head, free) && b !in free && b > 0 && b in h' && h'[b].next == head
    requires NextKept(h, h', free, {b})
    ensures Linked(h', b, [b] + free)
  {
    var g := [b] + free;
    forall k | 0 <= k < |g| ensures g[k] > 0 && g[k] in h' && h'[g[k]].next == At(g, k + 1) {
      assert k > 0 ==> g[k] == free[k - 1];
    }
  }

  lemma LinkedKept(h: Headers, head: nat, free: seq<nat>, h': Headers)
    requires Linked(h, head, free) && NextKept(h, h', free, {})
    ensures Linked(h', head, free)
  {
  }
}
