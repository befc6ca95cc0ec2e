/** The payload patterns (experiment.cpp): no id's pattern is constant. */
module Patterns {
  import opened Bits
  import opened Replay

  const MUL: nat := 6364136223846793005
  const INC: nat := 1442695040888963407

  /** How far apart two of the numbers 1 and 2^61 + 1 apart the mismatch is found at the latest. */
  const LAST: nat := 0x2000_0000_0000_0001

  lemma Congruent(x: int, y: int, q: int)
    requires x == y + 0x1_0000_0000_0000_0000 * q
    ensures x % 0x1_0000_0000_0000_0000 == y % 0x1_0000_0000_0000_0000
  {
  }

  lemma Quotient(x: int) returns (q: int)
    ensures x == x % 0x1_0000_0000_0000_0000 + 0x1_0000_0000_0000_0000 * q
  {
    q := x / 0x1_0000_0000_0000_0000;
  }

  /** The difference of two successive states, as a word. */
  function Diff(id: nat, i: nat): u64
  {
    (PatternState(id, i + 1) - PatternState(id, i)) % 0x1_0000_0000_0000_0000
  }

  lemma StateStep(id: nat, i: nat) returns (q: int)
    ensures PatternState(id, i + 1) == PatternState(id, i) * MUL + INC - 0x1_0000_0000_0000_0000 * q
  {
    q := Quotient(PatternState(id, i) * MUL + INC);
  }

  lemma DiffStep(id: nat, i: nat)
    ensures Diff(id, i + 1) == (MUL * Diff(id, i)) % 0x1_0000_0000_0000_0000
  {
    hide PatternState;
    var s0, s1, s2 := PatternState(id, i), PatternState(id, i + 1), PatternState(id, i + 2);
    var q1 := StateStep(id, i);
    var q2 := StateStep(id, i + 1);
    var q3 := Quotient(s1 - s0);
    assert MUL * (s1 - s0) == s2 - s1 + 0x1_0000_0000_0000_0000 * (q2 - q1);
    Congruent(s2 - s1, MUL * Diff(id, i), MUL * q3 - (q2 - q1));
  }

  /** Every difference is odd. */
  lemma DiffOdd(id: nat, i: nat)
    ensures Diff(id, i) % 2 == 1
  {
    hide PatternState;
    var s0 := PatternState(id, i);
    var q := StateStep(id, i);
    var q1 := Quotient(PatternState(id, i + 1) - s0);
    var h := 3182068111923396502 * s0 + 721347520444481703 - 0x8000_0000_0000_0000 * (q + q1);
    assert Diff(id, i) == 2 * h + 1;
    OddForm(h);
  }

  lemma OddForm(h: int)
    ensures (2 * h + 1) % 2 == 1
  {
  }

  function PowA(n: nat): nat { if n == 0 then 1 else MUL * PowA(n - 1) }

  lemma {:induction false} PowAdd(a: nat, b: nat)
    ensures PowA(a + b) == PowA(a) * PowA(b)
    decreases a
  {
    if a > 0 {
      PowAdd(a - 1, b);
      MulAssoc(MUL, PowA(a - 1), PowA(b));
    }
  }

  lemma MulAssoc(a: int, b: int, c: int)
    ensures a * (b * c) == (a * b) * c
  {
  }

  lemma {:induction false} DiffPow(id: nat, i: nat, n: nat)
    ensures Diff(id, i + n) == (PowA(n) * Diff(id, i)) % 0x1_0000_0000_0000_0000
    decreases n
  {
    hide Diff;
    if n > 0 {
      DiffPow(id, i, n - 1);
      DiffStep(id, i + n - 1);
      var x := PowA(n - 1) * Diff(id, i);
      var q := Quotient(x);
      MulAssoc(MUL, PowA(n - 1), Diff(id, i));
      Spread(MUL, x % 0x1_0000_0000_0000_0000, q);
      Congruent(MUL * x, MUL * (x % 0x1_0000_0000_0000_0000), MUL * q);
    }
  }

  lemma Spread(a: int, r: int, q: int)
    ensures a * (r + 0x1_0000_0000_0000_0000 * q) == a * r + 0x1_0000_0000_0000_0000 * (a * q)
  {
  }

  /** The multiplier is 5 modulo 8, so its 2^m-th power is 1 plus an odd multiple of 2^(m+2). */
  lemma {:induction false} PowTower(m: nat) returns (u: nat)
    ensures u % 2 == 1 && PowA(Pow2(m)) == 1 + Pow2(m + 2) * u
  {
    hide Pow2;
    if m == 0 {
      u := 1591034055961698251;
      assert PowA(1) == MUL * PowA(0);
      Pow2Word();
      assert Pow2(0) == 1 && Pow2(2) == 4 by { SmallPowers(); }
    } else {
      var u0 := PowTower(m - 1);
      Doubles(m - 1);
      Doubles(m);
      Doubles(m + 1);
      PowAdd(Pow2(m - 1), Pow2(m - 1));
      var t := Pow2(m) * u0 * u0;
      u := u0 + t;
      Square(Pow2(m - 1), u0);
      OddPlus(u0, Pow2(m - 1) * u0 * u0, t);
    }
  }

  lemma SmallPowers()
    ensures Pow2(0) == 1 && Pow2(1) == 2 && Pow2(2) == 4
  {
  }

  lemma Doubles(m: nat)
    ensures Pow2(m + 1) == 2 * Pow2(m)
  {
  }

  lemma OddPlus(u: nat, h: nat, t: nat)
    requires u % 2 == 1 && t == 2 * h
    ensures (u + t) % 2 == 1
  {
  }

  // (1 + 4pu)^2 == 1 + 8p(u + 2pu^2)
  lemma Square(p: nat, u: nat)
    ensures (1 + 4 * p * u) * (1 + 4 * p * u) == 1 + 8 * p * (u + 2 * p * u * u)
    ensures 2 * p * u * u == 2 * (p * u * u)
  {
  }

  /** 2^61 steps change a difference by 2^63. */
  lemma FarDiff(id: nat, i: nat)
    ensures Diff(id, i + 0x2000_0000_0000_0000) ==
            (Diff(id, i) + 0x8000_0000_0000_0000) % 0x1_0000_0000_0000_0000
  {
    hide Diff, PowA;
    var u := PowTower(61);
    Sizes();
    DiffPow(id, i, 0x2000_0000_0000_0000);
    DiffOdd(id, i);
    var d: nat := Diff(id, i);
    OddTimes(u, d);
    var t := (u * d) / 2;
    assert u * d == 2 * t + 1;
    Expand(u, d);
    Congruent(PowA(0x2000_0000_0000_0000) * d, d + 0x8000_0000_0000_0000, t);
  }

  lemma Sizes()
    ensures Pow2(61) == 0x2000_0000_0000_0000 && Pow2(63) == 0x8000_0000_0000_0000
  {
    Pow2Word();
    Doubles(61);
  }

  lemma OddTimes(u: nat, d: nat)
    requires u % 2 == 1 && d % 2 == 1
    ensures (u * d) % 2 == 1
  {
    var a, b := u / 2, d / 2;
    assert u * d == 2 * (2 * a * b + a + b) + 1 by { assert u == 2 * a + 1 && d == 2 * b + 1; }
  }

  lemma Expand(u: nat, d: nat)
    ensures (1 + 0x8000_0000_0000_0000 * u) * d == d + 0x8000_0000_0000_0000 * (u * d)
  {
  }

  predicate Near(d: u64) { d < 0x100_0000_0000_0000 || d > 0xFF00_0000_0000_0000 }

  lemma SameByteNear(id: nat, i: nat)
    requires PatternByte(id, i) == PatternByte(id, i + 1)
    ensures Near(Diff(id, i + 1))
  {
    hide PatternState;
    CloseWords(PatternState(id, i + 1), PatternState(id, i + 2));
  }

  lemma CloseWords(x: u64, y: u64)
    requires x / 0x100_0000_0000_0000 == y / 0x100_0000_0000_0000
    ensures Near((y - x) % 0x1_0000_0000_0000_0000)
  {
    if y >= x { Congruent(y - x, y - x, 0); } else { Congruent(y - x + 0x1_0000_0000_0000_0000, y - x, 1); }
  }

  lemma FarFromNear(d: u64)
    requires Near(d)
    ensures !Near((d + 0x8000_0000_0000_0000) % 0x1_0000_0000_0000_0000)
  {
  }

  /** Two successive bytes, near the start or 2^61 later, differ; so each value is missed somewhere. */
  lemma NotConstant(id: nat, v: byte) returns (k: nat)
    ensures k <= LAST && PatternByte(id, k) != v
  {
    hide PatternByte, Diff, Near;
    var far: nat := 0x2000_0000_0000_0000;
    if PatternByte(id, 0) != v { return 0; }
    if PatternByte(id, 1) != v { return 1; }
    if PatternByte(id, far) != v { return far; }
    k := far + 1;
    if PatternByte(id, k) == v {
      SameByteNear(id, 0);
      SameByteNear(id, far);
      FarDiff(id, 1);
      FarFromNear(Diff(id, 1));
    }
  }

  /** The first bytes of the pattern of id 1. */
  lemma FirstBytes()
    ensures PatternByte(1, 0) == 227 && PatternByte(1, 1) == 25 && PatternByte(1, 2) == 34
  {
    assert PatternState(1, 1) == 16425380348771661592;
    assert PatternState(1, 2) == 1845025788134709383;
    assert PatternState(1, 3) == 2482540927132437002;
  }
}
