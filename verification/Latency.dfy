/** The latency collector (metrics.hpp): a log2 histogram with a bounded number of raw samples,
    and what its percentiles mean for the samples of any tree of adds and merges. */
module Latency {
  import opened Bits

  // ---- counting samples ----

  function CountLess(s: seq<nat>, x: nat): nat
  {
    if s == [] then 0 else (if s[0] < x then 1 else 0) + CountLess(s[1..], x)
  }

  function CountAtMost(s: seq<nat>, x: nat): nat
  {
    if s == [] then 0 else (if s[0] <= x then 1 else 0) + CountAtMost(s[1..], x)
  }

  // Samples in buckets 0 to b - 1.
  function CountUpTo(s: seq<nat>, b: nat): nat
  {
    if s == [] then 0 else (if Bucket(s[0]) < b then 1 else 0) + CountUpTo(s[1..], b)
  }

  function CountIn(s: seq<nat>, b: nat): nat
  {
    if s == [] then 0 else (if Bucket(s[0]) == b then 1 else 0) + CountIn(s[1..], b)
  }

  /** x is the k-th smallest sample: fewer than k are smaller, at least k are no larger. */
  ghost predicate IsKth(s: seq<nat>, k: nat, x: nat) { x in s && CountLess(s, x) < k <= CountAtMost(s, x) }

  // ---- buckets ----

  /** The least b below 63 with x < 2^b, otherwise 63. */
  function Bucket(x: nat): (b: nat)
    ensures b <= 63
  {
    BucketFrom(x, 0)
  }

  function BucketFrom(x: nat, b: nat): (r: nat)
    requires b <= 63
    ensures b <= r <= 63
    decreases 63 - b
  {
    if b < 63 && Pow2(b) <= x then BucketFrom(x, b + 1) else b
  }

  lemma {:induction false} BucketFromIs(x: nat, b: nat)
    requires b <= 63 && (b > 0 ==> Pow2(b - 1) <= x)
    ensures var r := BucketFrom(x, b); (r > 0 ==> Pow2(r - 1) <= x) && (r < 63 ==> x < Pow2(r))
    decreases 63 - b
  {
    hide Pow2;
    if b < 63 && Pow2(b) <= x { BucketFromIs(x, b + 1); }
  }

  /** A bucket's samples lie between consecutive powers of two; the last one takes all the rest. */
  lemma BucketIs(x: nat)
    ensures Bucket(x) > 0 ==> Pow2(Bucket(x) - 1) <= x
    ensures Bucket(x) < 63 ==> x < Pow2(Bucket(x))
  {
    hide Pow2;
    BucketFromIs(x, 0);
  }

  lemma BucketMono(x: nat, y: nat)
    requires x <= y
    ensures Bucket(x) <= Bucket(y)
  {
    hide Pow2, Bucket;
    BucketIs(x);
    BucketIs(y);
    if Bucket(y) < Bucket(x) { Pow2Mono(Bucket(y), Bucket(x) - 1); }
  }

  /** bucket_for. */
  method BucketFor(ns: u64) returns (b: nat)
    ensures b == Bucket(ns)
  {
    b := 0;
    var bit: nat := 1;
    while b < 63 && bit <= ns
      invariant b <= 63 && bit == Pow2(b) && BucketFrom(ns, b) == Bucket(ns)
    {
      b := b + 1;
      bit := 2 * bit;
    }
  }

  // ---- laws of counting ----

  lemma {:induction false} CountAppend(s: seq<nat>, t: seq<nat>, b: nat)
    ensures CountIn(s + t, b) == CountIn(s, b) + CountIn(t, b)
  {
    hide Bucket;
    if s == [] { assert s + t == t; } else {
      CountAppend(s[1..], t, b);
      assert (s + t)[1..] == s[1..] + t;
    }
  }

  lemma {:induction false} CountStep(s: seq<nat>, b: nat)
    ensures CountUpTo(s, b + 1) == CountUpTo(s, b) + CountIn(s, b)
  {
    hide Bucket;
    if s != [] { CountStep(s[1..], b); }
  }

  lemma {:induction false} CountEnds(s: seq<nat>)
    ensures CountUpTo(s, 0) == 0 && CountUpTo(s, 64) == |s|
  {
    hide BucketFrom;
    if s != [] { CountEnds(s[1..]); }
  }

  lemma {:induction false} CountOrder(s: seq<nat>, x: nat)
    ensures CountLess(s, x) <= CountAtMost(s, x) <= |s|
    ensures x in s ==> CountLess(s, x) < CountAtMost(s, x)
  {
    if s != [] { CountOrder(s[1..], x); }
  }

  /** Samples no larger than x are in x's bucket or below; those in lower buckets are smaller than x. */
  lemma {:induction false} CountBuckets(s: seq<nat>, x: nat)
    ensures CountAtMost(s, x) <= CountUpTo(s, Bucket(x) + 1)
    ensures CountUpTo(s, Bucket(x)) <= CountLess(s, x)
  {
    hide Bucket;
    if s != [] {
      CountBuckets(s[1..], x);
      if s[0] <= x { BucketMono(s[0], x); }
      if x <= s[0] { BucketMono(x, s[0]); }
    }
  }

  lemma {:induction false} UpToMono(s: seq<nat>, a: nat, b: nat)
    requires a <= b
    ensures CountUpTo(s, a) <= CountUpTo(s, b)
  {
    hide Bucket;
    if s != [] { UpToMono(s[1..], a, b); }
  }

  /** The first bucket at which the running total reaches k is the bucket of the k-th smallest sample. */
  lemma RankBucket(s: seq<nat>, k: nat, x: nat, b: nat)
    requires IsKth(s, k, x) && CountUpTo(s, b) < k <= CountUpTo(s, b + 1)
    ensures Bucket(x) == b
  {
    hide Bucket, CountUpTo, CountLess, CountAtMost;
    CountBuckets(s, x);
    if Bucket(x) < b { UpToMono(s, Bucket(x) + 1, b); }
    if Bucket(x) > b { UpToMono(s, b + 1, Bucket(x)); }
  }

  /** The upper edge of the bucket of x is above x and at most twice x exactly for 1 <= x < 2^63. */
  lemma EdgeBound(x: u64)
    ensures x < Pow2(Bucket(x)) <= 2 * x <==> 1 <= x < Pow2(63)
  {
    hide Bucket, Pow2;
    BucketIs(x);
    PowStep(Bucket(x));
    if x >= Pow2(63) { Pow2Mono(Bucket(x), 63); }
  }

  lemma PowStep(b: nat)
    ensures b > 0 ==> Pow2(b) == 2 * Pow2(b - 1)
    ensures Pow2(0) == 1
  {
  }

  // ---- the k-th smallest exists and is unique ----

  lemma {:induction false} LessAtMost(s: seq<nat>, x: nat, y: nat)
    requires x < y
    ensures CountAtMost(s, x) <= CountLess(s, y)
  {
    if s != [] { LessAtMost(s[1..], x, y); }
  }

  lemma KthUnique(s: seq<nat>, k: nat, x: nat, y: nat)
    requires IsKth(s, k, x) && IsKth(s, k, y)
    ensures x == y
  {
    hide CountLess, CountAtMost;
    if x < y { LessAtMost(s, x, y); }
    if y < x { LessAtMost(s, y, x); }
  }

  predicate Sorted(s: seq<nat>) { forall i, j :: 0 <= i <= j < |s| ==> s[i] <= s[j] }

  lemma {:induction false} CountSplit(s: seq<nat>, i: nat, x: nat)
    requires i <= |s|
    ensures CountLess(s, x) == CountLess(s[..i], x) + CountLess(s[i..], x)
    ensures CountAtMost(s, x) == CountAtMost(s[..i], x) + CountAtMost(s[i..], x)
  {
    if i == 0 {
      assert s[..0] == [] && s[0..] == s;
    } else {
      CountSplit(s[1..], i - 1, x);
      assert s[..i][1..] == s[1..][..i - 1] && s[i..] == s[1..][i - 1..];
    }
  }

  lemma {:induction false} NoneLess(s: seq<nat>, x: nat)
    requires forall y :: y in s ==> x <= y
    ensures CountLess(s, x) == 0
  {
    if s != [] {
      assert s[0] in s && forall y :: y in s[1..] ==> y in s;
      NoneLess(s[1..], x);
    }
  }

  lemma {:induction false} AllAtMost(s: seq<nat>, x: nat)
    requires forall y :: y in s ==> y <= x
    ensures CountAtMost(s, x) == |s|
  {
    if s != [] {
      assert s[0] in s && forall y :: y in s[1..] ==> y in s;
      AllAtMost(s[1..], x);
    }
  }

  /** In sorted order the k-th smallest stands at position k - 1. */
  lemma SortedKth(s: seq<nat>, k: nat)
    requires Sorted(s) && 1 <= k <= |s|
    ensures IsKth(s, k, s[k - 1])
  {
    hide CountLess, CountAtMost;
    var x := s[k - 1];
    CountSplit(s, k - 1, x);
    CountSplit(s, k, x);
    var low, high := s[..k], s[k - 1..];
    forall y | y in high ensures x <= y { var i :| 0 <= i < |high| && high[i] == y; }
    NoneLess(high, x);
    CountOrder(s[..k - 1], x);
    forall y | y in low ensures y <= x { var i :| 0 <= i < |low| && low[i] == y; }
    AllAtMost(low, x);
  }

  lemma {:induction false} CountRemove(s: seq<nat>, i: nat, x: nat)
    requires i < |s|
    ensures CountLess(s, x) == CountLess(s[..i] + s[i + 1..], x) + (if s[i] < x then 1 else 0)
    ensures CountAtMost(s, x) == CountAtMost(s[..i] + s[i + 1..], x) + (if s[i] <= x then 1 else 0)
  {
    hide CountLess, CountAtMost;
    var t := s[..i] + s[i + 1..];
    CountSplit(s, i, x);
    CountSplit(s[i..], 1, x);
    CountSplit(t, i, x);
    assert t[..i] == s[..i] && t[i..] == s[i + 1..] && s[i..][..1] == [s[i]] && s[i..][1..] == s[i + 1..];
    CountOne(s[i], x);
  }

  lemma CountOne(y: nat, x: nat)
    ensures CountLess([y], x) == (if y < x then 1 else 0) && CountAtMost([y], x) == (if y <= x then 1 else 0)
  {
  }

  lemma TakeOut(t: seq<nat>, i: nat)
    requires i < |t|
    ensures multiset(t) == multiset{t[i]} + multiset(t[..i] + t[i + 1..])
  {
    assert t == t[..i] + [t[i]] + t[i + 1..];
  }

  lemma Cancel(x: nat, a: multiset<nat>, b: multiset<nat>)
    requires multiset{x} + a == multiset{x} + b
    ensures a == b
  {
    forall v ensures a[v] == b[v] { assert (multiset{x} + a)[v] == (multiset{x} + b)[v]; }
  }

  lemma CountHead(s: seq<nat>, x: nat)
    requires s != []
    ensures CountLess(s, x) == CountLess(s[1..], x) + (if s[0] < x then 1 else 0)
    ensures CountAtMost(s, x) == CountAtMost(s[1..], x) + (if s[0] <= x then 1 else 0)
    ensures multiset(s) == multiset{s[0]} + multiset(s[1..])
  {
    TakeOut(s, 0);
    assert s[..0] + s[1..] == s[1..];
  }

  lemma SameHead(s: seq<nat>, t: seq<nat>) returns (i: nat)
    requires s != [] && multiset(s) == multiset(t)
    ensures i < |t| && t[i] == s[0] && multiset(s[1..]) == multiset(t[..i] + t[i + 1..])
  {
    CountHead(s, 0);
    assert s[0] in multiset(t);
    i :| 0 <= i < |t| && t[i] == s[0];
    TakeOut(t, i);
    Cancel(s[0], multiset(s[1..]), multiset(t[..i] + t[i + 1..]));
  }

  /** Counting does not depend on the order of the samples. */
  lemma {:induction false} CountPermuted(s: seq<nat>, t: seq<nat>, x: nat)
    requires multiset(s) == multiset(t)
    ensures CountLess(s, x) == CountLess(t, x) && CountAtMost(s, x) == CountAtMost(t, x)
    decreases |s|
  {
    if s == [] {
      assert |t| == |multiset(t)| == 0;
    } else {
      hide CountLess, CountAtMost;
      var i := SameHead(s, t);
      CountHead(s, x);
      CountRemove(t, i, x);
      CountPermuted(s[1..], t[..i] + t[i + 1..], x);
    }
  }

  // ---- percentiles ----

  /** The rank of a percentile among n samples: ceil(p * n), at least 1. */
  function Rank(p: real, n: nat): (k: nat)
    requires 0.0 <= p <= 1.0
    ensures 1 <= k && (n > 0 ==> k <= n)
  {
    var c := -((-(p * n as real)).Floor);
    RankBounds(p, n);
    if c == 0 then 1 else c
  }

  lemma RankBounds(p: real, n: nat)
    requires 0.0 <= p <= 1.0
    ensures 0 <= -((-(p * n as real)).Floor) <= n
  {
    var x := p * n as real;
    assert 0.0 <= x <= n as real;
  }

  /** The rank is the least one, from 1 on, that is not below p times the number of samples. */
  lemma RankMeaning(p: real, n: nat)
    requires 0.0 <= p <= 1.0
    ensures var k := Rank(p, n); p * n as real <= k as real && (k == 1 || (k - 1) as real < p * n as real)
  {
    RankBounds(p, n);
    var x := p * n as real;
    assert -x - 1.0 < (-x).Floor as real <= -x;
  }

  lemma RankMono(p: real, q: real, n: nat)
    requires 0.0 <= p <= q <= 1.0
    ensures Rank(p, n) <= Rank(q, n)
  {
    RankBounds(p, n);
    RankBounds(q, n);
    PositionMono(p, q, n);
    FloorMono(-(q * n as real), -(p * n as real));
  }

  lemma FloorMono(x: real, y: real)
    requires x <= y
    ensures x.Floor <= y.Floor
  {
  }

  // The position of a percentile among the samples, counted from 0.
  function Place(s: seq<nat>, p: real): real { p * (|s| - 1) as real }

  /** sample_at: linear interpolation between neighbouring samples, over exact numbers. */
  function SampleAt(s: seq<nat>, p: real): real
    requires 0.0 <= p <= 1.0
  {
    if s == [] then 0.0
    else
      var idx := Place(s, p);
      PlaceBounds(s, p);
      var lo := idx.Floor;
      var hi := if lo + 1 <= |s| - 1 then lo + 1 else |s| - 1;
      s[lo] as real * (1.0 - (idx - lo as real)) + s[hi] as real * (idx - lo as real)
  }

  lemma PlaceBounds(s: seq<nat>, p: real)
    requires 0.0 <= p <= 1.0 && s != []
    ensures 0 <= Place(s, p).Floor <= |s| - 1
  {
    var r := (|s| - 1) as real;
    NotNegative(p, r);
    NotNegative(1.0 - p, r);
    assert (1.0 - p) * r == r - p * r;
  }

  lemma NotNegative(x: real, y: real)
    requires 0.0 <= x && 0.0 <= y
    ensures 0.0 <= x * y
  {
  }

  // Between a and b, at the fraction f.
  function Mix(a: real, b: real, f: real): real { a * (1.0 - f) + b * f }

  lemma MixBounds(a: real, b: real, f: real)
    requires a <= b && 0.0 <= f <= 1.0
    ensures a <= Mix(a, b, f) <= b
  {
    assert Mix(a, b, f) == a + (b - a) * f;
    Shrinks(b - a, f);
  }

  lemma Shrinks(d: real, f: real)
    requires 0.0 <= d && 0.0 <= f <= 1.0
    ensures 0.0 <= d * f <= d
  {
    assert d - d * f == d * (1.0 - f);
    assert 0.0 <= d * (1.0 - f);
  }

  lemma MixMono(a: real, b: real, f: real, g: real)
    requires a <= b && f <= g
    ensures Mix(a, b, f) <= Mix(a, b, g)
  {
    assert Mix(a, b, f) == a + (b - a) * f && Mix(a, b, g) == a + (b - a) * g;
    assert (b - a) * f <= (b - a) * g;
  }

  /** The interpolated value lies between the samples around its position. */
  lemma SampleBetween(s: seq<nat>, p: real)
    requires Sorted(s) && s != [] && 0.0 <= p <= 1.0
    ensures var lo := Place(s, p).Floor;
            && 0 <= lo < |s| && s[lo] as real <= SampleAt(s, p)
            && SampleAt(s, p) <= s[if lo + 1 < |s| then lo + 1 else lo] as real
  {
    PlaceBounds(s, p);
    var idx := Place(s, p);
    var lo := idx.Floor;
    var hi := if lo + 1 <= |s| - 1 then lo + 1 else |s| - 1;
    MixBounds(s[lo] as real, s[hi] as real, idx - lo as real);
  }

  /** The interpolated value is on the straight line between them. */
  lemma SampleOnLine(s: seq<nat>, p: real, i: nat)
    requires Sorted(s) && 0.0 <= p <= 1.0 && i < |s| && i as real <= p * (|s| - 1) as real < i as real + 1.0
    ensures i + 1 < |s| ==>
              SampleAt(s, p) == s[i] as real + (p * (|s| - 1) as real - i as real) * (s[i + 1] as real - s[i] as real)
    ensures i + 1 == |s| ==> SampleAt(s, p) == s[i] as real
  {
    PlaceBounds(s, p);
    var idx := Place(s, p);
    assert idx.Floor == i;
    var f := idx - i as real;
    if i + 1 < |s| { Blend(s[i] as real, s[i + 1] as real, f); } else { Blend(s[i] as real, s[i] as real, f); }
  }

  lemma Blend(a: real, b: real, f: real)
    ensures a * (1.0 - f) + b * f == a + f * (b - a)
  {
    assert a * (1.0 - f) == a - a * f;
    assert f * (b - a) == b * f - a * f;
  }

  /** Higher percentiles are not smaller, on the exact path. */
  lemma SampleMono(s: seq<nat>, p: real, q: real)
    requires Sorted(s) && 0.0 <= p <= q <= 1.0
    ensures SampleAt(s, p) <= SampleAt(s, q)
  {
    hide SampleAt, Mix, Place;
    if s == [] {
      SampleNone(p);
      SampleNone(q);
    } else {
      PlaceMono(s, p, q);
      PlaceBounds(s, p);
      PlaceBounds(s, q);
      var i, j := Place(s, p), Place(s, q);
      FloorMono(i, j);
      if i.Floor == j.Floor {
        SampleMix(s, p);
        SampleMix(s, q);
        var hi := if i.Floor + 1 <= |s| - 1 then i.Floor + 1 else |s| - 1;
        NextLarger(s, i.Floor);
        assert i - i.Floor as real <= j - j.Floor as real;
        MixMono(s[i.Floor] as real, s[hi] as real, i - i.Floor as real, j - j.Floor as real);
      } else {
        SampleBetween(s, p);
        SampleBetween(s, q);
        assert s[i.Floor + 1] <= s[j.Floor];
      }
    }
  }

  lemma PlaceMono(s: seq<nat>, p: real, q: real)
    requires p <= q && s != []
    ensures Place(s, p) <= Place(s, q)
  {
    var r := (|s| - 1) as real;
    assert 0.0 <= r && 0.0 <= (q - p) * r;
  }

  lemma NextLarger(s: seq<nat>, i: nat)
    requires Sorted(s) && i < |s|
    ensures s[i] as real <= s[if i + 1 <= |s| - 1 then i + 1 else |s| - 1] as real
  {
  }

  lemma SampleNone(p: real)
    requires 0.0 <= p <= 1.0
    ensures SampleAt([], p) == 0.0
  {
  }

  lemma SampleMix(s: seq<nat>, p: real)
    requires s != [] && 0.0 <= p <= 1.0
    ensures var idx := Place(s, p);
            && 0 <= idx.Floor < |s|
            && SampleAt(s, p) == Mix(s[idx.Floor] as real,
                 s[if idx.Floor + 1 <= |s| - 1 then idx.Floor + 1 else |s| - 1] as real, idx - idx.Floor as real)
  {
    PlaceBounds(s, p);
  }

  lemma PositionMono(p: real, q: real, m: nat)
    requires p <= q
    ensures p * m as real <= q * m as real
  {
  }

  // ---- the collector ----

  /** What std::sort makes of the raw samples. */
  ghost predicate SortOf(sorted: seq<nat>, raw: seq<nat>) { Sorted(sorted) && multiset(sorted) == multiset(raw) }

  /** One counter for each bucket. */
  ghost predicate Counts(h: seq<nat>, all: seq<nat>)
  {
    |h| == 64 && forall b :: 0 <= b < 64 ==> h[b] == CountIn(all, b)
  }

  ghost predicate Extremes(all: seq<nat>, min: nat, max: nat)
  {
    && (forall x :: x in all ==> min <= x <= max && x < WORD)
    && (all == [] ==> min == WORD - 1 && max == 0)
    && (all != [] ==> min in all && max in all)
  }

  /** e is the upper edge of the bucket that holds the k-th smallest sample. */
  ghost predicate Edge(all: seq<nat>, k: nat, e: real)
  {
    exists b: nat :: b < 64 && e == Pow2(b) as real && CountUpTo(all, b) < k <= CountUpTo(all, b + 1)
  }

  /** e answers for the fraction p: from all samples if they were kept, otherwise from the histogram. */
  ghost predicate Answers(all: seq<nat>, sorted: seq<nat>, exact: bool, p: real, e: real)
    requires 0.0 <= p <= 1.0
  {
    if exact then SortOf(sorted, all) && e == SampleAt(sorted, p) else Edge(all, Rank(p, |all|), e)
  }

  ghost predicate Sampled(raw: seq<nat>, all: seq<nat>) { multiset(raw) <= multiset(all) }

  function Total(s: seq<nat>): nat { if s == [] then 0 else s[0] + Total(s[1..]) }

  lemma {:induction false} TotalAppend(s: seq<nat>, t: seq<nat>)
    ensures Total(s + t) == Total(s) + Total(t)
    decreases |s|
  {
    if s == [] {
      assert s + t == t;
    } else {
      TotalAppend(s[1..], t);
      assert (s + t)[1..] == s[1..] + t;
    }
  }

  lemma TotalAdd(s: seq<nat>, x: nat)
    ensures Total(s + [x]) == Total(s) + x
  {
    TotalAppend(s, [x]);
    assert [x][1..] == [];
  }

  /** The total lies between count times minimum and count times maximum. */
  lemma {:induction false} TotalBounds(s: seq<nat>, lo: nat, hi: nat)
    requires forall x :: x in s ==> lo <= x <= hi
    ensures lo * |s| <= Total(s) <= hi * |s|
    decreases |s|
  {
    if s == [] {
      assert lo * |s| == 0 == hi * |s|;
    } else {
      forall x | x in s[1..] ensures lo <= x <= hi { assert x in s; }
      TotalBounds(s[1..], lo, hi);
      OneMore(lo, |s| - 1);
      OneMore(hi, |s| - 1);
      assert s[0] in s;
    }
  }

  lemma OneMore(k: nat, n: nat)
    ensures k * (n + 1) == k * n + k
  {
  }

  lemma MeanBounds(total: nat, n: nat, lo: nat, hi: nat)
    requires n > 0 && lo * n <= total <= hi * n
    ensures lo as real <= total as real / n as real <= hi as real
  {
    CastProduct(lo, n);
    CastProduct(hi, n);
    QuotientBounds(total as real, n as real, lo as real, hi as real);
  }

  lemma CastProduct(a: nat, b: nat)
    ensures (a * b) as real == a as real * b as real
  {
  }

  lemma QuotientBounds(x: real, r: real, lo: real, hi: real)
    requires r > 0.0 && lo * r <= x <= hi * r
    ensures lo <= x / r <= hi
  {
    var m := x / r;
    assert m * r == x;
    if m < lo { Scale(m, lo, r); }
    if m > hi { Scale(hi, m, r); }
  }

  lemma Scale(a: real, b: real, r: real)
    requires a < b && r > 0.0
    ensures a * r < b * r
  {
  }

  /** summary. */
  datatype Summary = Summary(
    n: nat, mean: real, min: real, max: real, p50: real, p90: real, p95: real, p99: real, p999: real)

  class LatencyCollector {
    const maxRaw: nat
    var n: nat
    var sum: real
    var min: nat
    var max: nat
    const hist: array<nat>
    var raw: seq<nat>
    ghost var all: seq<nat>      // every sample ever added, also through merges

    /** The histogram counts every sample, the raw samples are some of them, minimum and maximum
        are those of all. */
    ghost predicate Valid()
      reads this, hist
    {
      && n == |all| && hist.Length == 64 && Counts(hist[..], all) && Extremes(all, min, max)
      && Sampled(raw, all) && |raw| <= maxRaw && sum == Total(all) as real
    }

    constructor (maxRawSamples: nat)
      ensures Valid() && all == [] && raw == [] && maxRaw == maxRawSamples && fresh(hist)
    {
      maxRaw, n, sum, min, max, raw, all := maxRawSamples, 0, 0.0, WORD - 1, 0, [], [];
      hist := new nat[64](i => 0);
    }

    method Add(ns: u64)
      requires Valid()
      modifies this, hist
      ensures Valid() && all == old(all) + [ns]
      ensures raw == if |old(raw)| < maxRaw then old(raw) + [ns] else old(raw)
    {
      hide Bucket, Counts, Extremes, Sampled, Total;
      TotalAdd(all, ns);
      AddExtremes(all, min, max, ns);
      AddRaw(raw, all, ns);
      Tally(hist, ns, all);
      n := n + 1;
      sum := sum + ns as real;
      if ns < min { min := ns; }
      if ns > max { max := ns; }
      if |raw| < maxRaw { raw := raw + [ns]; }
      all := all + [ns];
    }

    /** merge; the other collector is another object. */
    method Merge(other: LatencyCollector)
      requires Valid() && other.Valid() && other != this && other.hist != hist
      modifies this, hist
      ensures Valid() && all == old(all) + other.all && other.Valid()
      ensures raw == var both := old(raw) + other.raw; if |both| > maxRaw then both[..maxRaw] else both
    {
      hide Counts, Extremes, Sampled, Total;
      n := n + other.n;
      sum := sum + other.sum;
      TotalAppend(all, other.all);
      MergeExtremes(all, min, max, other.all, other.min, other.max);
      if other.min < min { min := other.min; }
      if other.max > max { max := other.max; }
      MergeRaw(raw, all, other.raw, other.all, maxRaw);
      raw := raw + other.raw;
      if |raw| > maxRaw { raw := raw[..maxRaw]; }
      AddHistograms(hist, other.hist, all, other.all);
      all := all + other.all;
    }

    /** The histogram part of percentile, for a rank. */
    method HistogramAnswer(target: nat) returns (e: nat)
      requires Valid()
      ensures 1 <= target <= n ==> exists b: nat ::
                b < 64 && e == Pow2(b) && CountUpTo(all, b) < target <= CountUpTo(all, b + 1)
      ensures target > n ==> e == max
    {
      hide CountIn, CountUpTo, Pow2, Extremes;
      CountEnds(all);
      var cum := 0;
      var b: nat := 0;
      while b < 64
        invariant b <= 64 && cum == CountUpTo(all, b) && (target > 0 ==> cum < target)
      {
        CountStep(all, b);
        CountAt(hist[..], all, b);
        cum := cum + hist[b];
        if cum >= target {
          e := Pow2(b);
          UpToMono(all, b + 1, 64);
          assert target > 0 ==> b < 64 && CountUpTo(all, b) < target <= CountUpTo(all, b + 1);
          return;
        }
        b := b + 1;
      }
      e := max;
    }

    /** percentile: exact when every sample was kept, otherwise from the histogram. `sorted` is the
        sorted copy of the raw samples. */
    method Percentile(p: real, sorted: seq<nat>) returns (e: real, exact: bool)
      requires Valid() && 0.0 <= p <= 1.0 && SortOf(sorted, raw)
      ensures exact <==> |raw| >= n && raw != []
      ensures exact ==> SortOf(sorted, all) && e == SampleAt(sorted, p)
      ensures !exact && n > 0 ==> Edge(all, Rank(p, n), e)
    {
      hide CountIn, CountUpTo, Pow2, SampleAt, Rank, Sorted, Counts, Extremes;
      exact := |raw| >= n && |raw| > 0;
      if exact {
        FullMultiset(raw, all);
        e := SampleAt(sorted, p);
      } else {
        var k := HistogramAnswer(Rank(p, n));
        e := k as real;
      }
    }

    /** summary: the mean is the total over the count, between the least and the greatest sample, and the
        percentiles never decrease from the median to the 99.9th. */
    method Summarize(sorted: seq<nat>) returns (s: Summary)
      requires Valid() && SortOf(sorted, raw)
      ensures n == 0 ==> s == Summary(0, 0.0, 0.0, 0.0, 0.0, 0.0, 0.0, 0.0, 0.0)
      ensures n > 0 ==>
                && s.n == |all| && s.mean * s.n as real == Total(all) as real && s.min <= s.mean <= s.max
                && (exists x, y :: x in all && y in all && s.min == x as real && s.max == y as real)
                && forall x :: x in all ==> s.min <= x as real <= s.max
      ensures s.p50 <= s.p90 <= s.p95 <= s.p99 <= s.p999
      ensures n > 0 ==>
                && Answers(all, sorted, |raw| >= n, 0.5, s.p50) && Answers(all, sorted, |raw| >= n, 0.9, s.p90)
                && Answers(all, sorted, |raw| >= n, 0.95, s.p95) && Answers(all, sorted, |raw| >= n, 0.99, s.p99)
                && Answers(all, sorted, |raw| >= n, 0.999, s.p999)
    {
      hide Counts, Sampled, SortOf, Total, Answers;
      if n == 0 { return Summary(0, 0.0, 0.0, 0.0, 0.0, 0.0, 0.0, 0.0, 0.0); }
      var p50, p90, p95, p99, p999 := Percentiles(sorted);
      TotalBounds(all, min, max);
      MeanBounds(Total(all), n, min, max);
      s := Summary(n, sum / n as real, min as real, max as real, p50, p90, p95, p99, p999);
    }

    method Percentiles(sorted: seq<nat>) returns (p50: real, p90: real, p95: real, p99: real, p999: real)
      requires Valid() && SortOf(sorted, raw) && n > 0
      ensures p50 <= p90 <= p95 <= p99 <= p999
      ensures Answers(all, sorted, |raw| >= n, 0.5, p50) && Answers(all, sorted, |raw| >= n, 0.9, p90)
      ensures Answers(all, sorted, |raw| >= n, 0.95, p95) && Answers(all, sorted, |raw| >= n, 0.99, p99)
      ensures Answers(all, sorted, |raw| >= n, 0.999, p999)
    {
      hide Counts, Extremes, Sampled, Edge, SampleAt, SortOf, Rank, Total;
      var exact;
      p50, exact := Percentile(0.5, sorted);
      p90, exact := Percentile(0.9, sorted);
      p95, exact := Percentile(0.95, sorted);
      p99, exact := Percentile(0.99, sorted);
      p999, exact := Percentile(0.999, sorted);
      AnswersMono(all, sorted, 0.5, p50, 0.9, p90, exact);
      AnswersMono(all, sorted, 0.9, p90, 0.95, p95, exact);
      AnswersMono(all, sorted, 0.95, p95, 0.99, p99, exact);
      AnswersMono(all, sorted, 0.99, p99, 0.999, p999, exact);
    }
  }

  // `++hist_[bucket_for(ns)]`.
  method Tally(h: array<nat>, ns: u64, ghost all: seq<nat>)
    requires Counts(h[..], all)
    modifies h
    ensures Counts(h[..], all + [ns])
  {
    hide Bucket, CountIn;
    AddCounts(h[..], all, ns);
    var bucket := BucketFor(ns);
    h[bucket] := h[bucket] + 1;
    assert h[..] == old(h[..])[bucket := old(h[..])[bucket] + 1];
  }

  lemma CountAt(h: seq<nat>, all: seq<nat>, b: nat)
    requires Counts(h, all) && b < 64
    ensures h[b] == CountIn(all, b)
  {
  }

  lemma AddCounts(h: seq<nat>, all: seq<nat>, x: nat)
    requires Counts(h, all)
    ensures Counts(h[Bucket(x) := h[Bucket(x)] + 1], all + [x])
  {
    hide CountIn, Bucket;
    forall b: nat ensures CountIn(all + [x], b) == CountIn(all, b) + if b == Bucket(x) then 1 else 0 {
      CountAppend(all, [x], b);
      CountOneIn(x, b);
    }
  }

  lemma AddExtremes(all: seq<nat>, min: nat, max: nat, x: u64)
    requires Extremes(all, min, max)
    ensures Extremes(all + [x], if x < min then x else min, if x > max then x else max)
  {
    var t := all + [x];
    assert t[|all|] == x && x in t;
    forall y | y in all ensures y in t { var i :| 0 <= i < |all| && all[i] == y; assert t[i] == y; }
    forall y | y in t ensures y in all || y == x { }
  }

  lemma AddRaw(raw: seq<nat>, all: seq<nat>, x: nat)
    requires Sampled(raw, all)
    ensures Sampled(raw, all + [x]) && Sampled(raw + [x], all + [x])
  {
    assert multiset(all + [x]) == multiset(all) + multiset{x} && multiset(raw + [x]) == multiset(raw) + multiset{x};
  }

  lemma MergeExtremes(a: seq<nat>, min: nat, max: nat, b: seq<nat>, min': nat, max': nat)
    requires Extremes(a, min, max) && Extremes(b, min', max')
    ensures Extremes(a + b, if min' < min then min' else min, if max' > max then max' else max)
  {
    var t := a + b;
    forall y | y in a ensures y in t { var i :| 0 <= i < |a| && a[i] == y; assert t[i] == y; }
    forall y | y in b ensures y in t { var i :| 0 <= i < |b| && b[i] == y; assert t[|a| + i] == y; }
    forall y | y in t ensures y in a || y in b { }
  }

  lemma MergeRaw(raw: seq<nat>, all: seq<nat>, raw': seq<nat>, all': seq<nat>, cap: nat)
    requires Sampled(raw, all) && Sampled(raw', all')
    ensures Sampled(raw + raw', all + all')
    ensures |raw + raw'| > cap ==> Sampled((raw + raw')[..cap], all + all')
  {
    assert multiset(raw + raw') == multiset(raw) + multiset(raw');
    assert multiset(all + all') == multiset(all) + multiset(all');
    if |raw + raw'| > cap { MultisetPrefix(raw + raw', cap); }
  }

  // The loop of merge over the histograms.
  method AddHistograms(h: array<nat>, h': array<nat>, ghost all: seq<nat>, ghost all': seq<nat>)
    requires h != h' && Counts(h[..], all) && Counts(h'[..], all')
    modifies h
    ensures Counts(h[..], all + all')
  {
    hide CountIn;
    var i := 0;
    while i < 64
      invariant 0 <= i <= 64
      invariant forall b :: 0 <= b < i ==> h[b] == CountIn(all, b) + CountIn(all', b)
      invariant forall b :: i <= b < 64 ==> h[b] == CountIn(all, b)
      invariant h'[..] == old(h'[..])
    {
      h[i] := h[i] + h'[i];
      i := i + 1;
    }
    forall b: nat ensures CountIn(all + all', b) == CountIn(all, b) + CountIn(all', b) { CountAppend(all, all', b); }
  }

  lemma CountOneIn(x: nat, b: nat)
    ensures CountIn([x], b) == if b == Bucket(x) then 1 else 0
  {
    hide Bucket;
  }

  lemma MultisetPrefix(s: seq<nat>, k: nat)
    requires k <= |s|
    ensures multiset(s[..k]) <= multiset(s)
  {
    assert s == s[..k] + s[k..];
  }

  /** As many kept samples as samples: all were kept. */
  lemma FullMultiset(raw: seq<nat>, all: seq<nat>)
    requires Sampled(raw, all) && |raw| >= |all|
    ensures multiset(raw) == multiset(all)
  {
    var rest := multiset(all) - multiset(raw);
    assert multiset(all) == multiset(raw) + rest;
    assert |multiset(all)| == |multiset(raw)| + |rest|;
    assert |multiset(all)| == |all| && |multiset(raw)| == |raw|;
    assert rest == multiset{};
  }

  // ---- what the answers mean ----

  /** A histogram answer for rank k is the upper edge of the bucket of the true k-th smallest sample:
      above it and at most twice it, exactly when that sample is at least 1 and below 2^63. */
  lemma HistogramMeaning(all: seq<nat>, k: nat, b: nat, x: u64)
    requires IsKth(all, k, x) && CountUpTo(all, b) < k <= CountUpTo(all, b + 1)
    ensures x < Pow2(b) <= 2 * x <==> 1 <= x < Pow2(63)
  {
    hide CountUpTo, CountLess, CountAtMost, Bucket, Pow2;
    RankBucket(all, k, x, b);
    EdgeBound(x);
  }

  /** Histogram answers never decrease with the rank. */
  lemma HistogramMono(all: seq<nat>, k: nat, b: nat, k': nat, b': nat)
    requires CountUpTo(all, b) < k <= CountUpTo(all, b + 1) && CountUpTo(all, b') < k' <= CountUpTo(all, b' + 1)
    requires k <= k'
    ensures Pow2(b) <= Pow2(b')
  {
    hide CountUpTo, Pow2;
    if b' < b { UpToMono(all, b' + 1, b); }
    Pow2Mono(if b <= b' then b else b', b');
  }

  /** A larger percentile has no smaller answer, on either path. */
  lemma AnswersMono(all: seq<nat>, sorted: seq<nat>, p: real, e: real, q: real, e': real, exact: bool)
    requires 0.0 <= p <= q <= 1.0
    requires exact ==> SortOf(sorted, all) && e == SampleAt(sorted, p) && e' == SampleAt(sorted, q)
    requires !exact ==> Edge(all, Rank(p, |all|), e) && Edge(all, Rank(q, |all|), e')
    ensures e <= e'
  {
    hide SampleAt, Rank, CountUpTo, Pow2;
    if exact {
      SampleMono(sorted, p, q);
    } else {
      RankMono(p, q, |all|);
      var b: nat :| b < 64 && e == Pow2(b) as real && CountUpTo(all, b) < Rank(p, |all|) <= CountUpTo(all, b + 1);
      var b': nat :| b' < 64 && e' == Pow2(b') as real
          && CountUpTo(all, b') < Rank(q, |all|) <= CountUpTo(all, b' + 1);
      HistogramMono(all, Rank(p, |all|), b, Rank(q, |all|), b');
    }
  }

  /** On the exact path the answer lies between the two order statistics around its position. */
  lemma ExactMeaning(all: seq<nat>, sorted: seq<nat>, p: real)
    requires SortOf(sorted, all) && all != [] && 0.0 <= p <= 1.0
    ensures var lo := Place(sorted, p).Floor;
            && |sorted| == |all| && 0 <= lo < |all|
            && IsKth(all, lo + 1, sorted[lo])
            && sorted[lo] as real <= SampleAt(sorted, p) <= sorted[if lo + 1 < |all| then lo + 1 else lo] as real
  {
    hide SampleAt, CountLess, CountAtMost;
    assert |sorted| == |multiset(sorted)| == |all|;
    SampleBetween(sorted, p);
    var lo := Place(sorted, p).Floor;
    SortedKth(sorted, lo + 1);
    CountPermuted(sorted, all, sorted[lo]);
    assert sorted[lo] in multiset(sorted);
  }
}
