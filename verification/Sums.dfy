/** Sums over finite sets. */
module Sums {
  ghost function Sum<K>(s: set<K>, f: K -> nat): nat
    decreases |s|
  {
    if s == {} then 0
    else
      var a :| a in s;
      f(a) + Sum(s - {a}, f)
  }

  lemma {:induction false} SumRemove<K>(s: set<K>, f: K -> nat, x: K)
    requires x in s
    ensures Sum(s, f) == f(x) + Sum(s - {x}, f)
    decreases |s|
  {
    var a :| a in s && Sum(s, f) == f(a) + Sum(s - {a}, f);
    if a != x {
      SumRemove(s - {a}, f, x);
      SumRemove(s - {x}, f, a);
      assert s - {a} - {x} == s - {x} - {a};
    }
  }

  lemma SumAdd<K>(s: set<K>, f: K -> nat, x: K)
    requires x !in s
    ensures Sum(s + {x}, f) == Sum(s, f) + f(x)
  {
    SumRemove(s + {x}, f, x);
    assert s + {x} - {x} == s;
  }

  /** Only the values on the set matter. */
  lemma {:induction false} SumFrame<K>(s: set<K>, f: K -> nat, g: K -> nat)
    requires forall a :: a in s ==> f(a) == g(a)
    ensures Sum(s, f) == Sum(s, g)
    decreases |s|
  {
    if s != {} {
      var a :| a in s;
      SumRemove(s, f, a);
      SumRemove(s, g, a);
      SumFrame(s - {a}, f, g);
    }
  }

  lemma SumNone<K>(f: K -> nat)
    ensures Sum({}, f) == 0
  {
  }

  lemma {:induction false} SumAtLeast<K>(s: set<K>, f: K -> nat, k: nat)
    requires forall a :: a in s ==> f(a) >= k
    ensures Sum(s, f) >= k * |s|
    decreases |s|
  {
    hide Sum;
    if s == {} {
      SumNone(f);
    } else {
      var a :| a in s;
      SumRemove(s, f, a);
      SumAtLeast(s - {a}, f, k);
      OneMore(k, |s| - 1);
    }
  }

  lemma OneMore(k: nat, n: nat)
    ensures k * (n + 1) == k * n + k
  {
  }

  lemma {:induction false} SumUnion<K>(s: set<K>, t: set<K>, f: K -> nat)
    requires s !! t
    ensures Sum(s + t, f) == Sum(s, f) + Sum(t, f)
    decreases |t|
  {
    hide Sum;
    if t == {} {
      assert s + t == s;
      SumNone(f);
    } else {
      var a :| a in t;
      SumRemove(t, f, a);
      SumUnion(s, t - {a}, f);
      SumAdd(s + (t - {a}), f, a);
      assert s + (t - {a}) + {a} == s + t;
    }
  }
}
