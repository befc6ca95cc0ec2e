/** The deterministic generator of detail/rng.hpp and its equidistribution. */
module SplitMix {
  import opened Bits

  const GAMMA: nat := 0x9E3779B97F4A7C15
  const MIX1: nat := 0xBF58476D1CE4E5B9
  const MIX2: nat := 0x94D049BB133111EB
  // Inverses of the three odd constants modulo 2^64.
  const GAMMA_INV: nat := 0xF1DE83E19937733D
  const MIX1_INV: nat := 0x96DE1B173F119089
  const MIX2_INV: nat := 0x319642B2D24D8EC3

  // x ^ (x >> k)
  function XorShift(x: nat, k: nat): nat { Xor(x, Shr(x, k)) }

  /** The output function of one draw, applied to the advanced state. */
  function Mix(z: nat): nat
  {
    XorShift((XorShift((XorShift(z, 30) * MIX1) % WORD, 27) * MIX2) % WORD, 31)
  }

  function Advance(s: nat): nat { (s + GAMMA) % WORD }

  class SplitMix64 {
    var state: u64

    constructor (seed: u64)
      ensures state == seed
    {
      state := seed;
    }

    method Next() returns (r: u64)
      modifies this
      ensures state == Advance(old(state)) && r == Mix(state)
    {
      state := (state + GAMMA) % WORD;
      var z: u64 := state;
      XorShiftWord(z, 30);
      z := (XorShift(z, 30) * MIX1) % WORD;
      XorShiftWord(z, 27);
      z := (XorShift(z, 27) * MIX2) % WORD;
      XorShiftWord(z, 31);
      r := XorShift(z, 31);
    }

    /** next(bound): below the bound, except that a zero bound yields 0 and draws nothing. */
    method NextBelow(bound: u64) returns (r: u64)
      modifies this
      ensures bound > 0 ==> r < bound && state == Advance(old(state)) && r == Mix(state) % bound
      ensures bound == 0 ==> r == 0 && state == old(state)
    {
      if bound == 0 {
        r := 0;
      } else {
        var x := Next();
        r := x % bound;
      }
    }

    /** next_in: within [lo, hi]. The width hi - lo + 1 wraps to 0 on the full
        range, where the draw degenerates to the constant lo. */
    method NextIn(lo: u64, hi: u64) returns (r: u64)
      requires lo <= hi
      modifies this
      ensures lo <= r <= hi
      ensures hi - lo < WORD - 1 ==> state == Advance(old(state)) && r == lo + Mix(state) % (hi - lo + 1)
      ensures hi - lo == WORD - 1 ==> r == 0 && state == old(state)
    {
      var width: nat := (hi - lo + 1) % WORD;
      assert width == if hi - lo == WORD - 1 then 0 else hi - lo + 1;
      var d := NextBelow(width);
      r := lo + d;
    }
  }

  // ---- every layer of the mix is invertible ----

  lemma XorShiftWord(x: nat, k: nat)
    requires x < WORD
    ensures XorShift(x, k) < WORD
  {
    Pow2Word();
    ShrZero(x, k);
    XorBound(x, Shr(x, k), 64);
  }

  /** Undoing a xor-shift takes further shifts by 2k and 4k, for shifts that reach 64 bits. */
  function UnXorShift(y: nat, k: nat): nat { XorShift(XorShift(y, k), 2 * k) }

  // The two xor-shifts by k and 2k compose, in either order, to a xor with x >> 4k.
  lemma XorShiftTwice(x: nat, k: nat)
    ensures XorShift(XorShift(x, k), k) == XorShift(x, 2 * k)
  {
    var a, b := Shr(x, k), Shr(x, 2 * k);
    XorShr(x, a, k);
    ShrShr(x, k, k);
    assert XorShift(XorShift(x, k), k) == Xor(Xor(x, a), Xor(a, b));
    XorAssoc(x, a, Xor(a, b));
    XorAssoc(a, a, b);
    XorSelf(a);
    XorZero(b);
  }

  lemma XorShiftCommute(x: nat, j: nat, k: nat)
    ensures XorShift(XorShift(x, j), k) == XorShift(XorShift(x, k), j)
  {
    var a, b, c := Shr(x, j), Shr(x, k), Shr(x, j + k);
    XorShr(x, a, k);
    ShrShr(x, j, k);
    XorShr(x, b, j);
    ShrShr(x, k, j);
    XorAssoc(x, a, Xor(b, c));
    XorAssoc(a, b, c);
    XorComm(a, b);
    XorAssoc(b, a, c);
    XorAssoc(x, b, Xor(a, c));
  }

  lemma UnXorShiftInverse(x: nat, k: nat)
    requires x < WORD && k >= 16
    ensures UnXorShift(XorShift(x, k), k) == x
    ensures XorShift(UnXorShift(x, k), k) == x
  {
    XorShiftTwice(x, k);
    XorShiftTwice(x, 2 * k);
    Pow2Word();
    Pow2Mono(64, 4 * k);
    ShrZero(x, 4 * k);
    XorZero(x);
    assert XorShift(x, 4 * k) == x;
    XorShiftCommute(XorShift(x, k), 2 * k, k);
  }

  /** Multiplication by c modulo 2^64 is undone by multiplication by its inverse. */
  lemma MulInverse(x: nat, c: nat, inv: nat)
    requires x < WORD && (c * inv) % WORD == 1
    ensures ((x * c) % WORD * inv) % WORD == x
  {
    var q, r, k := (x * c) / WORD, (x * c) % WORD, (c * inv) / WORD;
    assert r * inv == WORD * (x * k - q * inv) + x by {
      assert (x * c) * inv == (WORD * q + r) * inv;
      assert (x * c) * inv == x * (c * inv);
      assert x * (c * inv) == x * (WORD * k + 1);
    }
    ModUnique(r * inv, WORD, x * k - q * inv, x);
  }

  lemma Inverses()
    ensures (GAMMA * GAMMA_INV) % WORD == 1 && (GAMMA_INV * GAMMA) % WORD == 1
    ensures (MIX1 * MIX1_INV) % WORD == 1 && (MIX1_INV * MIX1) % WORD == 1
    ensures (MIX2 * MIX2_INV) % WORD == 1 && (MIX2_INV * MIX2) % WORD == 1
  {
  }

  function Unmix(y: nat): nat
  {
    UnXorShift((UnXorShift((UnXorShift(y, 31) * MIX2_INV) % WORD, 27) * MIX1_INV) % WORD, 30)
  }

  lemma UnXorShiftWord(y: nat, k: nat)
    requires y < WORD
    ensures UnXorShift(y, k) < WORD
  {
    XorShiftWord(y, k);
    XorShiftWord(XorShift(y, k), 2 * k);
  }

  /** The output mix is a bijection on 64-bit words, with Unmix as its inverse. */
  lemma MixBijective(z: nat)
    requires z < WORD
    ensures Mix(z) < WORD && Unmix(Mix(z)) == z
    ensures Unmix(z) < WORD && Mix(Unmix(z)) == z
  {
    Inverses();
    // Unmix after Mix
    var a := XorShift(z, 30);
    var b := (a * MIX1) % WORD;
    var c := XorShift(b, 27);
    var d := (c * MIX2) % WORD;
    XorShiftWord(z, 30);
    XorShiftWord(b, 27);
    XorShiftWord(d, 31);
    UnXorShiftInverse(d, 31);
    MulInverse(c, MIX2, MIX2_INV);
    UnXorShiftInverse(b, 27);
    MulInverse(a, MIX1, MIX1_INV);
    UnXorShiftInverse(z, 30);
    MixAfterUnmix(z);
  }

  lemma MixAfterUnmix(y: nat)
    requires y < WORD
    ensures Unmix(y) < WORD && Mix(Unmix(y)) == y
  {
    Inverses();
    var a := UnXorShift(y, 31);
    var b := (a * MIX2_INV) % WORD;
    var c := UnXorShift(b, 27);
    var d := (c * MIX1_INV) % WORD;
    UnXorShiftWord(y, 31);
    UnXorShiftWord(b, 27);
    UnXorShiftWord(d, 30);
    UnXorShiftInverse(d, 30);
    MulInverse(c, MIX1_INV, MIX1);
    UnXorShiftInverse(b, 27);
    MulInverse(a, MIX2_INV, MIX2);
    UnXorShiftInverse(y, 31);
  }

  // ---- the sequence of draws ----

  function StateAfter(s: nat, n: nat): nat
  {
    if n == 0 then s else Advance(StateAfter(s, n - 1))
  }

  /** The n-th draw (counting from 0) of a generator in state s. */
  function Draw(s: nat, n: nat): nat { Mix(StateAfter(s, n + 1)) }

  lemma {:induction false} StateAfterClosed(s: nat, n: nat)
    requires s < WORD
    ensures StateAfter(s, n) == (s + n * GAMMA) % WORD
  {
    if n > 0 {
      StateAfterClosed(s, n - 1);
      var t := s + (n - 1) * GAMMA;
      AddMod(t, GAMMA);
      assert t + GAMMA == s + n * GAMMA;
    }
  }

  lemma AddMod(t: nat, g: nat)
    ensures (t % WORD + g) % WORD == (t + g) % WORD
  {
    var q, q' := t / WORD, (t % WORD + g) / WORD;
    ModUnique(t + g, WORD, q + q', (t % WORD + g) % WORD);
  }

  /** The number of steps that leads from state s to state t, modulo 2^64. */
  function StepsTo(s: nat, t: nat): nat
    requires s < WORD && t < WORD
  {
    (((t + WORD - s) % WORD) * GAMMA_INV) % WORD
  }

  lemma StepsToCorrect(s: nat, n: nat, t: nat)
    requires s < WORD && t < WORD && n < WORD
    ensures StateAfter(s, n) == t <==> n == StepsTo(s, t)
  {
    StateAfterClosed(s, n);
    Inverses();
    var d := (t + WORD - s) % WORD;
    // (s + n g) mod W == t  iff  n g mod W == d
    var p := n * GAMMA;
    assert (s + p) % WORD == t <==> p % WORD == d by { Shift(s, p, t); }
    MulInverse(n, GAMMA, GAMMA_INV);
    MulInverse(d, GAMMA_INV, GAMMA);
  }

  lemma Shift(s: nat, p: nat, t: nat)
    requires s < WORD && t < WORD
    ensures (s + p) % WORD == t <==> p % WORD == (t + WORD - s) % WORD
  {
  }

  /** Full period: whatever the state, each 64-bit value is drawn exactly once in the next 2^64 draws. */
  lemma EachValueDrawnOnce(s: u64, v: u64)
    ensures exists n: nat :: n < WORD && Draw(s, n) == v
                             && forall m: nat :: m < WORD && Draw(s, m) == v ==> m == n
  {
    MixAfterUnmix(v);
    var s1 := StateAfter(s, 1);
    var n := StepsTo(s1, Unmix(v));
    DrawAt(s, n, v);
    forall m: nat | m < WORD && Draw(s, m) == v ensures m == n { DrawAt(s, m, v); }
  }

  lemma DrawAt(s: u64, n: nat, v: u64)
    requires n < WORD
    ensures Unmix(v) < WORD
    ensures Draw(s, n) == v <==> n == StepsTo(StateAfter(s, 1), Unmix(v))
  {
    MixAfterUnmix(v);
    var s1 := StateAfter(s, 1);
    StateShift(s, n);
    StateAfterClosed(s1, n);
    StepsToCorrect(s1, n, Unmix(v));
    MixBijective(StateAfter(s1, n));
  }

  lemma {:induction false} StateShift(s: u64, n: nat)
    ensures StateAfter(s, 1) < WORD
    ensures StateAfter(s, n + 1) == StateAfter(StateAfter(s, 1), n)
  {
    if n > 0 { StateShift(s, n - 1); }
  }
}
