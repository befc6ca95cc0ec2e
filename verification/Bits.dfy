/** Machine words as naturals: powers of two, the bitwise operators of the source
    written out bit by bit, and the power-of-two helpers of config.hpp. */
module Bits {
  const WORD: nat := 0x1_0000_0000_0000_0000
  const WORD32: nat := 0x1_0000_0000
  const WORD16: nat := 0x1_0000

  type u64 = x: nat | x < WORD
  type u32 = x: nat | x < WORD32
  type u16 = x: nat | x < WORD16
  type byte = x: nat | x < 256

  // A C++ char and std::string: bytes.
  type Char = c: char | c as int < 256
  type Text = seq<Char>

  function Pow2(k: nat): (r: nat)
    ensures r >= 1
  {
    if k == 0 then 1 else 2 * Pow2(k - 1)
  }

  // The bitwise operators of C++ on unsigned words.
  function And(x: nat, y: nat): nat
    decreases x
  {
    if x == 0 then 0 else (if x % 2 == 1 && y % 2 == 1 then 1 else 0) + 2 * And(x / 2, y / 2)
  }

  function Or(x: nat, y: nat): nat
    decreases x + y
  {
    if x == 0 && y == 0 then 0
    else (if x % 2 == 1 || y % 2 == 1 then 1 else 0) + 2 * Or(x / 2, y / 2)
  }

  function Xor(x: nat, y: nat): nat
    decreases x + y
  {
    if x == 0 && y == 0 then 0
    else (if x % 2 != y % 2 then 1 else 0) + 2 * Xor(x / 2, y / 2)
  }

  function Shr(x: nat, k: nat): nat
    decreases k
  {
    if k == 0 then x else Shr(x / 2, k - 1)
  }

  function Bit(x: nat, i: nat): bool
    decreases i
  {
    if i == 0 then x % 2 == 1 else Bit(x / 2, i - 1)
  }

  // ---- powers of two ----

  lemma {:induction false} Pow2Add(a: nat, b: nat)
    ensures Pow2(a + b) == Pow2(a) * Pow2(b)
    decreases b
  {
    if b > 0 {
      Pow2Add(a, b - 1);
      assert Pow2(a + b) == 2 * Pow2(a + (b - 1));
    }
  }

  lemma {:induction false} Pow2Mono(a: nat, b: nat)
    requires a <= b
    ensures Pow2(a) <= Pow2(b)
    ensures a < b ==> 2 * Pow2(a) <= Pow2(b)
    decreases b
  {
    if a < b { Pow2Mono(a, b - 1); }
  }

  lemma Pow2Word()
    ensures Pow2(4) == 16 && Pow2(5) == 32 && Pow2(62) == 0x4000_0000_0000_0000
    ensures Pow2(63) == 0x8000_0000_0000_0000 && Pow2(64) == WORD
  {
    assert Pow2(4) == 16 && Pow2(5) == 32;
    Pow2High();
  }

  lemma Pow2High()
    ensures Pow2(62) == 0x4000_0000_0000_0000
    ensures Pow2(63) == 0x8000_0000_0000_0000 && Pow2(64) == WORD
  {
    var a, b, c := Pow2(8), Pow2(16), Pow2(32);
    assert a == 256;
    assert b == 0x1_0000 by { Pow2Add(8, 8); }
    assert c == 0x1_0000_0000 by { Pow2Add(16, 16); }
    assert Pow2(64) == c * c by { Pow2Add(32, 32); }
    assert Pow2(64) == 2 * Pow2(63) && Pow2(63) == 2 * Pow2(62);
  }

  // ---- bit-level facts ----

  lemma {:induction false} BitsZero(i: nat)
    ensures !Bit(0, i)
  {
    if i > 0 { BitsZero(i - 1); }
  }

  lemma OrStep(x: nat, y: nat)
    ensures Or(x, y) % 2 == 1 <==> x % 2 == 1 || y % 2 == 1
    ensures Or(x, y) / 2 == Or(x / 2, y / 2)
  {
  }

  lemma {:induction false} BitOr(x: nat, y: nat, i: nat)
    ensures Bit(Or(x, y), i) == (Bit(x, i) || Bit(y, i))
    decreases i
  {
    hide Or;
    OrStep(x, y);
    if i > 0 { BitOr(x / 2, y / 2, i - 1); }
  }

  lemma {:induction false} BitShr(x: nat, k: nat, i: nat)
    ensures Bit(Shr(x, k), i) == Bit(x, i + k)
    decreases k
  {
    if k > 0 { BitShr(x / 2, k - 1, i); }
  }

  /** Below 2^n there is no bit at n or above ... */
  lemma {:induction false} NoHighBit(x: nat, n: nat, i: nat)
    requires x < Pow2(n) && i >= n
    ensures !Bit(x, i)
    decreases n
  {
    if n == 0 { BitsZero(i); } else { NoHighBit(x / 2, n - 1, i - 1); }
  }

  /** ... and at 2^n or more there is one. */
  lemma {:induction false} HighBit(x: nat, n: nat) returns (i: nat)
    requires x >= Pow2(n)
    ensures i >= n && Bit(x, i)
    decreases x
  {
    if x == 1 {
      i := 0;
    } else {
      i := HighBit(x / 2, if n == 0 then 0 else n - 1);
      i := i + 1;
    }
  }

  /** A number whose n low bits are all one and that has no others is 2^n - 1. */
  lemma {:induction false} AllOnes(x: nat, n: nat)
    requires x < Pow2(n)
    requires forall i: nat :: i < n ==> Bit(x, i)
    ensures x == Pow2(n) - 1
    decreases n
  {
    if n > 0 {
      assert Bit(x, 0);
      forall i: nat | i < n - 1 ensures Bit(x / 2, i) { assert Bit(x, i + 1); }
      AllOnes(x / 2, n - 1);
    }
  }

  lemma {:induction false} TopBit(x: nat, n: nat)
    requires Pow2(n) <= x < Pow2(n + 1)
    ensures Bit(x, n)
    decreases n
  {
    if n > 0 { TopBit(x / 2, n - 1); }
  }

  // ---- masking ----

  lemma {:induction false} AndBound(x: nat, m: nat)
    ensures And(x, m) <= m && And(x, m) <= x
    decreases x
  {
    if x > 0 { AndBound(x / 2, m / 2); }
  }

  /** Masking with 2^k - 1 is the remainder modulo 2^k. */
  lemma {:induction false} AndMask(x: nat, k: nat)
    ensures And(x, Pow2(k) - 1) == x % Pow2(k)
    decreases k
  {
    if k == 0 {
      AndBound(x, 0);
    } else if x == 0 {
      ModUnique(0, Pow2(k), 0, 0);
    } else {
      var h := Pow2(k - 1);
      AndMask(x / 2, k - 1);
      AndOddMask(x, h);
      HalfMod(x, h);
    }
  }

  lemma AndOddMask(x: nat, h: nat)
    requires h > 0
    ensures And(x, 2 * h - 1) == x % 2 + 2 * And(x / 2, h - 1)
  {
    assert (2 * h - 1) / 2 == h - 1 && (2 * h - 1) % 2 == 1;
  }

  lemma HalfMod(x: nat, h: nat)
    requires h > 0
    ensures x % (2 * h) == x % 2 + 2 * ((x / 2) % h)
  {
    var q, r := (x / 2) / h, (x / 2) % h;
    assert x == 2 * (q * h + r) + x % 2;
    assert 2 * (q * h) == (2 * h) * q;
    ModUnique(x, 2 * h, q, x % 2 + 2 * r);
  }

  lemma QuotientUnique(m: nat, q: int, r: int, q': int, r': int)
    requires 0 <= r < m && 0 <= r' < m && m * q + r == m * q' + r'
    ensures q == q' && r == r'
  {
    if q < q' {
      assert m * q' == m * q + m * (q' - q);
      MulAtLeast(m, q' - q);
    } else if q' < q {
      assert m * q == m * q' + m * (q - q');
      MulAtLeast(m, q - q');
    }
  }

  lemma MulAtLeast(m: nat, d: nat)
    requires d >= 1
    ensures m * d >= m
  {
    assert m * d == m + m * (d - 1);
  }

  lemma ModUnique(x: int, m: nat, q: int, r: int)
    requires m > 0 && 0 <= r < m && x == m * q + r
    ensures x % m == r && x / m == q
  {
    QuotientUnique(m, q, r, x / m, x % m);
  }

  // ---- exclusive or ----

  lemma {:induction false} XorComm(x: nat, y: nat)
    ensures Xor(x, y) == Xor(y, x)
    decreases x + y
  {
    if x != 0 || y != 0 { XorComm(x / 2, y / 2); }
  }

  lemma {:induction false} XorZero(x: nat)
    ensures Xor(x, 0) == x && Xor(0, x) == x
  {
    if x != 0 { XorZero(x / 2); }
  }

  lemma {:induction false} XorSelf(x: nat)
    ensures Xor(x, x) == 0
  {
    if x != 0 { XorSelf(x / 2); }
  }

  lemma {:induction false} XorAssoc(x: nat, y: nat, z: nat)
    ensures Xor(Xor(x, y), z) == Xor(x, Xor(y, z))
    decreases x + y + z
  {
    if x != 0 || y != 0 || z != 0 {
      XorAssoc(x / 2, y / 2, z / 2);
      assert Xor(x, y) / 2 == Xor(x / 2, y / 2) && Xor(y, z) / 2 == Xor(y / 2, z / 2);
    }
  }

  lemma {:induction false} XorShr(x: nat, y: nat, k: nat)
    ensures Shr(Xor(x, y), k) == Xor(Shr(x, k), Shr(y, k))
    decreases k
  {
    if k > 0 {
      assert Xor(x, y) / 2 == Xor(x / 2, y / 2);
      XorShr(x / 2, y / 2, k - 1);
    }
  }

  lemma {:induction false} ShrShr(x: nat, j: nat, k: nat)
    ensures Shr(Shr(x, j), k) == Shr(x, j + k)
    decreases j
  {
    if j > 0 { ShrShr(x / 2, j - 1, k); }
  }

  lemma {:induction false} ShrZero(x: nat, k: nat)
    ensures x < Pow2(k) ==> Shr(x, k) == 0
    ensures Shr(x, k) <= x
    decreases k
  {
    if k > 0 { ShrZero(x / 2, k - 1); }
  }

  lemma {:induction false} XorBound(x: nat, y: nat, n: nat)
    requires x < Pow2(n) && y < Pow2(n)
    ensures Xor(x, y) < Pow2(n)
    decreases n
  {
    if n > 0 { XorBound(x / 2, y / 2, n - 1); }
  }

  /** Exclusive or with a power of two flips one bit: it adds or subtracts 2^o. */
  lemma {:induction false} XorPow2(x: nat, o: nat)
    ensures Bit(x, o) ==> Pow2(o) <= x && Xor(x, Pow2(o)) == x - Pow2(o)
    ensures !Bit(x, o) ==> Xor(x, Pow2(o)) == x + Pow2(o)
    decreases o
  {
    if o == 0 {
      XorZero(x / 2);
    } else {
      XorPow2(x / 2, o - 1);
      XorEven(x, Pow2(o - 1));
    }
  }

  lemma XorEven(x: nat, h: nat)
    requires h > 0
    ensures Xor(x, 2 * h) == x % 2 + 2 * Xor(x / 2, h)
  {
    assert (2 * h) / 2 == h;
  }

  // ---- alignment ----

  /** The low o bits of x are zero. */
  predicate Aligned(x: nat, o: nat)
    decreases o
  {
    o == 0 || (x % 2 == 0 && Aligned(x / 2, o - 1))
  }

  lemma {:induction false} AlignedMod(x: nat, o: nat)
    ensures Aligned(x, o) <==> x % Pow2(o) == 0
    decreases o
  {
    if o > 0 {
      AlignedMod(x / 2, o - 1);
      HalfMod(x, Pow2(o - 1));
    }
  }

  lemma {:induction false} AlignedZero(o: nat)
    ensures Aligned(0, o)
  {
    if o > 0 { AlignedZero(o - 1); }
  }

  lemma {:induction false} AlignedSplit(x: nat, o: nat)
    requires Aligned(x, o + 1)
    ensures Aligned(x, o) && !Bit(x, o)
    ensures Aligned(x + Pow2(o), o) && Bit(x + Pow2(o), o)
    decreases o
  {
    if o > 0 {
      AlignedSplit(x / 2, o - 1);
      assert (x + Pow2(o)) / 2 == x / 2 + Pow2(o - 1);
    }
  }

  lemma {:induction false} AlignedJoin(x: nat, o: nat)
    requires Aligned(x, o)
    ensures !Bit(x, o) ==> Aligned(x, o + 1)
    ensures Bit(x, o) ==> x >= Pow2(o) && Aligned(x - Pow2(o), o + 1)
    decreases o
  {
    if o > 0 {
      AlignedJoin(x / 2, o - 1);
      if Bit(x, o) { assert (x - Pow2(o)) / 2 == x / 2 - Pow2(o - 1); }
    }
  }

  lemma {:induction false} LowerAligned(x: nat, k: nat, j: nat)
    requires Aligned(x, k) && j <= k
    ensures Aligned(x, j)
    decreases k
  {
    if j < k {
      AlignedSplit(x, k - 1);
      LowerAligned(x, k - 1, j);
    }
  }

  /** Aligned power-of-two ranges are disjoint or nested. */
  lemma {:induction false} AlignedLaminar(x: nat, a: nat, y: nat, b: nat)
    requires a <= b && Aligned(x, a) && Aligned(y, b)
    ensures x + Pow2(a) <= y || y + Pow2(b) <= x || (y <= x && x + Pow2(a) <= y + Pow2(b))
    decreases a
  {
    if a > 0 { AlignedLaminar(x / 2, a - 1, y / 2, b - 1); }
  }

  // ---- config.hpp ----

  function IsPowerOfTwo(v: nat): bool { v != 0 && And(v, v - 1) == 0 }

  lemma {:induction false} AndSelf(x: nat)
    ensures And(x, x) == x
  {
    if x > 0 { AndSelf(x / 2); }
  }

  function FloorLog(v: nat): nat { if v <= 1 then 0 else 1 + FloorLog(v / 2) }

  lemma {:induction false} FloorLogBounds(v: nat)
    requires v >= 1
    ensures Pow2(FloorLog(v)) <= v < Pow2(FloorLog(v) + 1)
  {
    if v > 1 { FloorLogBounds(v / 2); }
  }

  lemma {:induction false} PowerPasses(k: nat)
    ensures IsPowerOfTwo(Pow2(k))
  {
    if k > 0 {
      PowerPasses(k - 1);
      var h := Pow2(k - 1);
      assert And(2 * h, 2 * h - 1) == 2 * And(h, h - 1) by {
        assert (2 * h) / 2 == h && (2 * h - 1) / 2 == h - 1 && (2 * h) % 2 == 0;
      }
    }
  }

  lemma OddTest(v: nat)
    requires v % 2 == 1
    ensures And(v, v - 1) == 2 * And(v / 2, v / 2)
  {
    assert (v - 1) / 2 == v / 2;
  }

  lemma {:induction false} OnlyPowersPass(v: nat)
    requires IsPowerOfTwo(v)
    ensures v == Pow2(FloorLog(v))
  {
    if v > 1 {
      if v % 2 == 1 {
        AndSelf(v / 2);
        OddTest(v);
        assert false;
      }
      assert (v - 1) / 2 == v / 2 - 1;
      OnlyPowersPass(v / 2);
    }
  }

  /** The `v & (v - 1)` test accepts exactly the powers of two. */
  lemma IsPowerOfTwoMeaning(v: nat)
    ensures IsPowerOfTwo(v) <==> exists k: nat :: v == Pow2(k)
  {
    if IsPowerOfTwo(v) { OnlyPowersPass(v); }
    if k: nat :| v == Pow2(k) { PowerPasses(k); }
  }

  /** The position of the highest set bit, found by halving as the source does. */
  method Log2Floor(v: u64) returns (r: nat)
    ensures v <= 1 ==> r == 0
    ensures v >= 1 ==> Pow2(r) <= v < Pow2(r + 1)
    ensures r < 64
  {
    r := 0;
    var w: nat := v;
    while w > 1
      invariant r + FloorLog(w) == FloorLog(v)
    {
      w := w / 2;
      r := r + 1;
    }
    if v >= 1 {
      FloorLogBounds(v);
      Pow2Word();
      Pow2Mono(64, if r < 64 then 64 else r);
    }
  }

  predicate IsLog2Ceil(v: nat, r: nat)
  {
    v <= Pow2(r) && (r > 0 ==> Pow2(r - 1) < v)
  }

  lemma Log2CeilUnique(v: nat, r: nat, r': nat)
    requires IsLog2Ceil(v, r) && IsLog2Ceil(v, r')
    ensures r == r'
  {
    if r < r' { Pow2Mono(r, r' - 1); }
    if r' < r { Pow2Mono(r', r - 1); }
  }

  /** The least exponent whose power of two reaches v. */
  function CeilLog(v: nat): nat { if v <= 1 then 0 else 1 + FloorLog(v - 1) }

  lemma CeilLogIs(v: nat)
    ensures IsLog2Ceil(v, CeilLog(v))
  {
    if v > 1 { FloorLogBounds(v - 1); }
  }

  lemma CeilLogMono(v: nat, w: nat)
    requires v <= w
    ensures CeilLog(v) <= CeilLog(w)
  {
    CeilLogIs(v);
    CeilLogIs(w);
    if CeilLog(v) > CeilLog(w) { Pow2Mono(CeilLog(w), CeilLog(v) - 1); }
  }

  /** The doubling loop `while (sz < v) { sz <<= 1; ++o; }` of the allocators. It ends for
      every v up to 2^63; beyond that the shifted word would become 0 and the loop would not end. */
  method CeilLogLoop(v: nat) returns (o: nat)
    requires v <= Pow2(63)
    ensures o == CeilLog(v) && o <= 63
  {
    o := 0;
    var sz: nat := 1;
    while sz < v
      invariant sz == Pow2(o) && o <= 63
      invariant o > 0 ==> Pow2(o - 1) < v
      decreases 63 - o
    {
      assert o < 63 by { Pow2Mono(if o > 63 then 63 else o, 63); }
      sz := 2 * sz;
      o := o + 1;
    }
    CeilLogIs(v);
    Log2CeilUnique(v, o, CeilLog(v));
  }

  /** align_up: `(v + a - 1) & ~(a - 1)`; clearing the bits of a mask m from x leaves x - (x & m). */
  function AlignUp(v: nat, a: nat): nat
    requires a >= 1
  {
    AndBound(v + a - 1, a - 1);
    (v + a - 1) - And(v + a - 1, a - 1)
  }

  /** Rounding never goes below v, whatever the granule. */
  lemma AlignUpBounds(v: nat, a: nat)
    requires a >= 1
    ensures v <= AlignUp(v, a) <= v + a - 1
  {
    AndBound(v + a - 1, a - 1);
  }

  /** For a power of two it is the least multiple that reaches v. */
  lemma AlignUpPow2(v: nat, k: nat)
    ensures AlignUp(v, Pow2(k)) % Pow2(k) == 0
    ensures v <= AlignUp(v, Pow2(k)) < v + Pow2(k)
  {
    var x := v + Pow2(k) - 1;
    AndMask(x, k);
    AlignUpBounds(v, Pow2(k));
    RoundDown(x, Pow2(k));
  }

  lemma RoundDown(x: nat, m: nat)
    requires m > 0
    ensures (x - x % m) % m == 0 && x - x % m >= 0
  {
    ModUnique(x - x % m, m, x / m, 0);
  }

  /** log2_ceil: the least exponent whose power of two reaches v. */
  method Log2Ceil(v: u64) returns (r: nat)
    ensures IsLog2Ceil(v, r)
    ensures forall k: nat :: v <= Pow2(k) ==> r <= k
  {
    if v <= 1 {
      r := 0;
    } else {
      var f := Log2Floor(v - 1);
      r := f + 1;
      forall k: nat | v <= Pow2(k) ensures r <= k {
        if k < r { Pow2Mono(k, r - 1); }
      }
    }
  }

  /** The t highest of the n bits of v are ones (all of them when t >= n). */
  ghost predicate TopOnes(v: nat, n: nat, t: nat)
  {
    v < Pow2(n) && forall i: nat :: i < n && n <= i + t ==> Bit(v, i)
  }

  /** One smearing step `v |= v >> t` doubles the run of leading ones. */
  lemma SmearStep(v: nat, n: nat, t: nat)
    requires TopOnes(v, n, t)
    ensures TopOnes(Or(v, Shr(v, t)), n, 2 * t)
  {
    var w := Or(v, Shr(v, t));
    if w >= Pow2(n) {
      var i := HighBit(w, n);
      BitOr(v, Shr(v, t), i);
      BitShr(v, t, i);
      NoHighBit(v, n, i);
      NoHighBit(v, n, i + t);
      assert false;
    }
    forall i: nat | i < n && n <= i + 2 * t ensures Bit(w, i) {
      BitOr(v, Shr(v, t), i);
      BitShr(v, t, i);
    }
  }

  /** The six steps of round_up_pow2 fill every bit below the highest one. */
  function Smear(v: nat): nat
  {
    var v1 := Or(v, Shr(v, 1));
    var v2 := Or(v1, Shr(v1, 2));
    var v3 := Or(v2, Shr(v2, 4));
    var v4 := Or(v3, Shr(v3, 8));
    var v5 := Or(v4, Shr(v4, 16));
    Or(v5, Shr(v5, 32))
  }

  lemma SmearFills(v: nat, n: nat)
    requires 1 <= n <= 64 && Pow2(n - 1) <= v < Pow2(n)
    ensures Smear(v) == Pow2(n) - 1
  {
    TopBit(v, n - 1);
    var v1 := Or(v, Shr(v, 1));
    var v2 := Or(v1, Shr(v1, 2));
    var v3 := Or(v2, Shr(v2, 4));
    var v4 := Or(v3, Shr(v3, 8));
    var v5 := Or(v4, Shr(v4, 16));
    SmearStep(v, n, 1);
    SmearStep(v1, n, 2);
    SmearStep(v2, n, 4);
    SmearStep(v3, n, 8);
    SmearStep(v4, n, 16);
    SmearStep(v5, n, 32);
    AllOnes(Smear(v), n);
  }

  lemma SmearWord(v: u64)
    requires v >= 2
    ensures Smear(v - 1) + 1 == Pow2(CeilLog(v)) && CeilLog(v) <= 64
    ensures v <= Pow2(63) <==> CeilLog(v) <= 63
  {
    var n := CeilLog(v);
    FloorLogBounds(v - 1);
    Pow2Word();
    if n > 64 { Pow2Mono(64, n - 1); }
    SmearFills(v - 1, n);
    if n <= 63 { Pow2Mono(n, 63); } else { Pow2Mono(63, n - 1); }
  }

  lemma WrapPow2(k: nat)
    requires k <= 64
    ensures Pow2(k) % WORD == if k == 64 then 0 else Pow2(k)
  {
    Pow2Word();
    if k < 64 { Pow2Mono(k, 64); }
  }

  /** round_up_pow2: smear the highest bit downwards, then add one. The result is
      2^ceil(log2 v), except that it wraps to 0 above 2^63. */
  method RoundUpPow2(v: u64) returns (r: u64)
    ensures v <= Pow2(63) ==> r == Pow2(CeilLog(v)) && IsLog2Ceil(v, CeilLog(v))
    ensures v > Pow2(63) ==> r == 0
  {
    CeilLogIs(v);
    if v <= 1 { return 1; }
    SmearWord(v);
    WrapPow2(CeilLog(v));
    r := (Smear(v - 1) + 1) % WORD;
  }

  /** 2^ceil(log2 v) is the least power of two that reaches v, and v itself exactly when v is one. */
  lemma Log2CeilLeast(v: nat, k: nat, j: nat)
    requires v >= 1 && IsLog2Ceil(v, k)
    ensures v <= Pow2(j) ==> Pow2(k) <= Pow2(j)
    ensures Pow2(k) == v <==> IsPowerOfTwo(v)
  {
    if j < k { Pow2Mono(j, k - 1); } else { Pow2Mono(k, j); }
    IsPowerOfTwoMeaning(v);
    if i: nat :| v == Pow2(i) {
      Log2CeilUnique(v, k, i) by { if i > 0 { Pow2Mono(i - 1, i); } }
    }
  }
}
