/** Sequences without duplicates, and what removing, replacing and adding an element does to them. */
module Sequences {
  ghost function Elems(xs: seq<nat>): set<nat> { set x | x in xs }

  ghost predicate NoDup(xs: seq<nat>)
  {
    forall i, j :: 0 <= i < j < |xs| ==> xs[i] != xs[j]
  }

  /** The sequence without the first occurrence of x, if any. */
  function Remove(xs: seq<nat>, x: nat): seq<nat>
  {
    if xs == [] then [] else if xs[0] == x then xs[1..] else [xs[0]] + Remove(xs[1..], x)
  }

  function RemoveAt(xs: seq<nat>, i: nat): seq<nat>
    requires i < |xs|
  {
    xs[..i] + xs[i + 1..]
  }

  lemma {:induction false} RemoveIs(xs: seq<nat>, x: nat, i: nat)
    requires i <= |xs| && (forall k :: 0 <= k < i ==> xs[k] != x) && (i < |xs| ==> xs[i] == x)
    ensures Remove(xs, x) == if i < |xs| then RemoveAt(xs, i) else xs
  {
    if i > 0 {
      RemoveIs(xs[1..], x, i - 1);
      if i < |xs| { assert RemoveAt(xs, i) == [xs[0]] + RemoveAt(xs[1..], i - 1); }
      else { assert xs == [xs[0]] + xs[1..]; }
    }
  }

  lemma RemoveAtElems(xs: seq<nat>, i: nat)
    requires NoDup(xs) && i < |xs|
    ensures NoDup(RemoveAt(xs, i)) && Elems(RemoveAt(xs, i)) == Elems(xs) - {xs[i]}
  {
    var g := RemoveAt(xs, i);
    assert forall k :: 0 <= k < |g| ==> g[k] == if k < i then xs[k] else xs[k + 1];
    forall x ensures x in Elems(g) <==> x in Elems(xs) - {xs[i]} {
      if x in Elems(xs) - {xs[i]} {
        var k :| 0 <= k < |xs| && xs[k] == x;
        assert g[if k < i then k else k - 1] == x;
      }
    }
  }

  lemma RemoveElems(xs: seq<nat>, x: nat)
    requires NoDup(xs)
    ensures NoDup(Remove(xs, x)) && Elems(Remove(xs, x)) == Elems(xs) - {x}
  {
    if x in xs {
      var i :| 0 <= i < |xs| && xs[i] == x;
      RemoveIs(xs, x, i);
      RemoveAtElems(xs, i);
    } else {
      RemoveIs(xs, x, |xs|);
    }
  }

  lemma ReplaceElems(xs: seq<nat>, i: nat, y: nat)
    requires NoDup(xs) && i < |xs| && y !in xs
    ensures NoDup(xs[i := y]) && Elems(xs[i := y]) == Elems(xs) - {xs[i]} + {y}
  {
    var g := xs[i := y];
    forall x ensures x in Elems(g) <==> x in Elems(xs) - {xs[i]} + {y} {
      if x in Elems(xs) - {xs[i]} {
        var k :| 0 <= k < |xs| && xs[k] == x;
        assert g[k] == x;
      }
      if x == y { assert g[i] == y; }
    }
  }

  lemma PushElems(xs: seq<nat>, y: nat)
    requires NoDup(xs) && y !in xs
    ensures NoDup([y] + xs) && Elems([y] + xs) == Elems(xs) + {y}
  {
    var g := [y] + xs;
    forall x ensures x in Elems(g) <==> x in Elems(xs) + {y} {
      if x in Elems(xs) {
        var k :| 0 <= k < |xs| && xs[k] == x;
        assert g[k + 1] == x;
      }
      if x == y { assert g[0] == y; }
    }
  }

  lemma AppendElems(xs: seq<nat>, x: nat)
    ensures Elems(xs + [x]) == Elems(xs) + {x}
    ensures NoDup(xs) && x !in Elems(xs) ==> NoDup(xs + [x])
  {
    var ys := xs + [x];
    forall y ensures y in Elems(ys) <==> y in Elems(xs) + {x} {
      if y in xs {
        var k :| 0 <= k < |xs| && xs[k] == y;
        assert ys[k] == y;
      }
      assert ys[|xs|] == x;
    }
  }

  lemma {:induction false} ElemsCount(xs: seq<nat>)
    requires NoDup(xs)
    ensures |Elems(xs)| == |xs|
    decreases |xs|
  {
    if xs != [] {
      ElemsCount(xs[1..]);
      assert xs == [xs[0]] + xs[1..];
      PushElems(xs[1..], xs[0]);
    }
  }

  /** The elements of xs that are in `keep`, in their order. */
  function Keep(xs: seq<nat>, keep: set<nat>): seq<nat>
  {
    if xs == [] then [] else (if xs[0] in keep then [xs[0]] else []) + Keep(xs[1..], keep)
  }

  lemma {:induction false} KeepAll(xs: seq<nat>, keep: set<nat>)
    requires Elems(xs) <= keep
    ensures Keep(xs, keep) == xs
  {
    if xs != [] {
      assert xs == [xs[0]] + xs[1..];
      assert xs[0] in Elems(xs);
      forall x | x in xs[1..] ensures x in Elems(xs) { assert x in xs; }
      KeepAll(xs[1..], keep);
    }
  }

  /** Removing what is not kept anyway makes no difference. */
  lemma {:induction false} KeepRemove(xs: seq<nat>, x: nat, keep: set<nat>)
    requires x !in keep
    ensures Keep(Remove(xs, x), keep) == Keep(xs, keep)
  {
    if xs != [] && xs[0] != x { KeepRemove(xs[1..], x, keep); }
  }
}
