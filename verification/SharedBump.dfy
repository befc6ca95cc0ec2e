/** The cross-process bump protocol: any number of processes share one 64-bit field, read it,
    check their own bound, and reserve with a compare-exchange. */
module SharedBump {
  import opened Bits
  import opened AllocTypes
  import Requests

  const HEADER: nat := 32
  const HALF: int := 0x8000_0000_0000_0000

  type i64 = x: int | -HALF <= x < HALF witness 0

  // ---- one reservation ----

  /** A 64-bit pattern read as a signed number. */
  function Signed(x: int): (r: int)
    ensures -HALF <= r < HALF
  {
    var w := x % 0x1_0000_0000_0000_0000;
    if w < 0x8000_0000_0000_0000 then w else w - 0x1_0000_0000_0000_0000
  }

  /** Alignments the allocator accepts. */
  predicate Accepted(align: nat) { align == 0 || (IsPowerOfTwo(align) && align <= 4096) }

  function Granule(align: nat): (a: nat)
    ensures a >= 16
  {
    if align > 16 then align else 16
  }

  function Wanted(size: nat): nat { if size == 0 then 1 else size }

  /** The request rounded up to its granule, as a number. */
  function TrueSize(size: nat, align: nat): nat { AlignUp(Wanted(size), Granule(align)) }

  // The same as the code computes it, in an unsigned 64-bit word.
  function RoundedWord(size: nat, align: nat): nat
  {
    var x := (Wanted(size) + Granule(align) - 1) % 0x1_0000_0000_0000_0000;
    AndBound(x, Granule(align) - 1);
    x - And(x, Granule(align) - 1)
  }

  // `cur + (LONGLONG) aligned`, with the wrap-around of signed 64-bit addition.
  function Reserve(cur: int, size: nat, align: nat): i64 { Signed(cur + Signed(RoundedWord(size, align))) }

  predicate Passes(cur: int, size: nat, align: nat, total: nat) { Reserve(cur, size, align) <= Signed(total) }

  lemma SignedIs(x: int)
    ensures -HALF <= x < HALF ==> Signed(x) == x
    ensures HALF <= x < HALF + 0x1_0000_0000_0000_0000 ==> Signed(x) == x - 0x1_0000_0000_0000_0000
  {
  }

  lemma SignedAgain(x: int, y: int)
    ensures Signed(x + Signed(y)) == Signed(x + y)
  {
  }

  lemma GranuleIs(align: nat) returns (k: nat)
    requires Accepted(align)
    ensures 4 <= k <= 12 && Granule(align) == Pow2(k)
  {
    Pow2Word();
    if align > 16 {
      OnlyPowersPass(align);
      k := FloorLog(align);
      if k < 4 { Pow2Mono(k, 4); }
      if k > 12 { Pow2Mono(13, k); Thousands(); }
    } else {
      k := 4;
    }
  }

  lemma Thousands()
    ensures Pow2(13) == 8192 && Pow2(12) == 4096
  {
    assert Pow2(8) == 256;
  }

  /** The rounded size is the least multiple of the granule that holds the request; the word the
      code computes is that number modulo 2^64. */
  lemma TrueSizeIs(size: u64, align: nat)
    requires Accepted(align)
    ensures Wanted(size) <= TrueSize(size, align) < Wanted(size) + 4096 && TrueSize(size, align) % 16 == 0
    ensures var a := if align > 16 then align else 16;
            && TrueSize(size, align) % a == 0
            && (size > 0 ==> size <= TrueSize(size, align) < size + a) && (size == 0 ==> TrueSize(size, align) == a)
    ensures TrueSize(size, align) <= 0x1_0000_0000_0000_0000
    ensures RoundedWord(size, align) == TrueSize(size, align) % 0x1_0000_0000_0000_0000
  {
    hide Pow2, AlignUp, Aligned, And, Wanted;
    var k := GranuleIs(align);
    WantedWord(size);
    Thousands();
    Pow2Mono(k, 12);
    AlignUpPow2(Wanted(size), k);
    Sixteen(TrueSize(size, align), k);
    RoundedIs(Wanted(size), k);
    WantedIs(size);
    if size == 0 { OneGranule(TrueSize(size, align), Granule(align)); }
  }

  lemma WantedIs(size: nat)
    ensures Wanted(size) == if size > 0 then size else 1
  {
  }

  // The only multiple that holds one byte and is not larger than the granule.
  lemma OneGranule(x: nat, a: nat)
    requires a > 1 && x % a == 0 && 1 <= x < 1 + a
    ensures x == a
  {
    if x < a { SmallMod(x, a); }
  }

  lemma WantedWord(size: u64)
    ensures 1 <= Wanted(size) < 0x1_0000_0000_0000_0000
  {
  }

  lemma Sixteen(x: nat, k: nat)
    requires 4 <= k && x % Pow2(k) == 0
    ensures x % 16 == 0
  {
    MultipleOf(x, k, 4);
    Pow2Word();
  }

  lemma MultipleOf(x: nat, k: nat, j: nat)
    requires j <= k && x % Pow2(k) == 0
    ensures x % Pow2(j) == 0
  {
    hide Pow2, Aligned;
    AlignedMod(x, k);
    LowerAligned(x, k, j);
    AlignedMod(x, j);
  }

  // The mask of the word, with and without wrap-around of the sum.
  lemma RoundedIs(v: nat, k: nat)
    requires 1 <= v < 0x1_0000_0000_0000_0000 && k <= 12
    ensures var x := (v + Pow2(k) - 1) % 0x1_0000_0000_0000_0000;
            && AlignUp(v, Pow2(k)) <= 0x1_0000_0000_0000_0000
            && x - And(x, Pow2(k) - 1) == AlignUp(v, Pow2(k)) % 0x1_0000_0000_0000_0000
  {
    hide Pow2, And, AlignUp;
    Thousands();
    Pow2Mono(k, 12);
    var y := v + Pow2(k) - 1;
    AlignUpIs(v, k);
    AndMask(y % 0x1_0000_0000_0000_0000, k);
    WordMultiple(k);
    RoundWrap(y, Pow2(k), y % Pow2(k), (y % 0x1_0000_0000_0000_0000) % Pow2(k));
  }

  lemma AlignUpIs(v: nat, k: nat)
    ensures var y := v + Pow2(k) - 1; y % Pow2(k) <= y && AlignUp(v, Pow2(k)) == y - y % Pow2(k)
  {
    hide Pow2;
    AndMask(v + Pow2(k) - 1, k);
    AndBound(v + Pow2(k) - 1, Pow2(k) - 1);
  }

  lemma RoundWrap(y: nat, a: nat, my: nat, mx: nat)
    requires 1 <= a <= 4096 && y < 0x1_0000_0000_0000_0000 + a - 1 && 0x1_0000_0000_0000_0000 % a == 0
    requires my == y % a && mx == (y % 0x1_0000_0000_0000_0000) % a && my <= y
    ensures y - my <= 0x1_0000_0000_0000_0000
    ensures y % 0x1_0000_0000_0000_0000 - mx == (y - my) % 0x1_0000_0000_0000_0000
  {
    if y >= 0x1_0000_0000_0000_0000 {
      var x := y - 0x1_0000_0000_0000_0000;
      assert y % 0x1_0000_0000_0000_0000 == x;
      SmallMod(x, a);
      ShiftMod(x, a);
    }
  }

  lemma WordMultiple(k: nat)
    requires k <= 12
    ensures 0x1_0000_0000_0000_0000 % Pow2(k) == 0
  {
    hide Pow2;
    Pow2Add(k, 64 - k);
    Pow2Word();
    ModUnique(0x1_0000_0000_0000_0000, Pow2(k), Pow2(64 - k), 0);
  }

  lemma SmallMod(x: nat, a: nat)
    requires x < a
    ensures x % a == x
  {
  }

  lemma ShiftMod(x: nat, a: nat)
    requires x < a && 0x1_0000_0000_0000_0000 % a == 0
    ensures (x + 0x1_0000_0000_0000_0000) % a == x
  {
    var q := 0x1_0000_0000_0000_0000 / a;
    assert 0x1_0000_0000_0000_0000 == a * q;
    ModUnique(x + 0x1_0000_0000_0000_0000, a, q, x);
  }

  /** The reservation is cur plus the true size, wrapped into a signed word. */
  lemma ReserveIs(cur: int, size: u64, align: nat)
    requires Accepted(align)
    ensures Reserve(cur, size, align) == Signed(cur + TrueSize(size, align))
  {
    hide TrueSize, RoundedWord, Signed;
    TrueSizeIs(size, align);
    SignedAgain(cur, RoundedWord(size, align));
    SignedWrap(cur, TrueSize(size, align));
  }

  lemma SignedWrap(cur: int, x: nat)
    ensures Signed(cur + x % 0x1_0000_0000_0000_0000) == Signed(cur + x)
  {
    var q := x / 0x1_0000_0000_0000_0000;
    WholeWords(cur + x % 0x1_0000_0000_0000_0000, q);
  }

  lemma WholeWords(z: int, q: int)
    ensures Signed(z + 0x1_0000_0000_0000_0000 * q) == Signed(z)
  {
    assert (z + 0x1_0000_0000_0000_0000 * q) % 0x1_0000_0000_0000_0000 == z % 0x1_0000_0000_0000_0000;
  }

  /** The bound check lets a request through if it fits, and also if the sum leaves the signed range. */
  lemma PassesIff(cur: nat, size: u64, align: nat, total: nat)
    requires Accepted(align) && cur <= total < HALF
    ensures Passes(cur, size, align, total) <==>
              cur + TrueSize(size, align) <= total || cur + TrueSize(size, align) >= HALF
  {
    hide TrueSize, Signed, RoundedWord;
    ReserveIs(cur, size, align);
    TrueSizeIs(size, align);
    SignedIs(cur + TrueSize(size, align));
    SignedIs(total);
  }

  /** Exactly when a reservation is sound: the request gets its bytes behind cur and within the region
      if and only if its true size fits there. */
  lemma SoundIff(cur: nat, size: u64, align: nat, total: nat)
    requires Accepted(align) && cur <= total < HALF
    ensures Passes(cur, size, align, total) && cur + Wanted(size) <= Reserve(cur, size, align) <= total
       <==> cur + TrueSize(size, align) <= total
    ensures cur + TrueSize(size, align) >= HALF ==> Reserve(cur, size, align) <= cur
  {
    hide TrueSize, Signed, RoundedWord;
    PassesIff(cur, size, align, total);
    ReserveIs(cur, size, align);
    TrueSizeIs(size, align);
    SignedIs(cur + TrueSize(size, align));
  }

  // ---- the protocol ----

  /** Where a process is in its retry loop. `seen` counts the grants made when it read the field. */
  datatype Pc =
    | Idle
    | Wanting(size: u64, align: nat)
    | Ready(size: u64, align: nat, cur: int, seen: nat)

  datatype Grant = Grant(pid: nat, offset: int, bytes: int, size: nat, align: nat)

  /** The shared field, every process's place in the loop, and the grants and refusals so far. */
  datatype Shared = Shared(next: int, pcs: map<nat, Pc>, grants: seq<Grant>, refused: nat)

  datatype Step = Begin(pid: nat, size: u64, align: nat) | Read(pid: nat) | Exchange(pid: nat)

  function Created(): Shared { Shared(HEADER, map[], [], 0) }

  function PcOf(s: Shared, p: nat): Pc { if p in s.pcs then s.pcs[p] else Idle }

  /** One step of one process: start a request, read the field and check the bound, or try the
      exchange. A failed exchange goes back to reading. */
  function Next(s: Shared, total: nat, st: Step): Shared
  {
    match st
    case Begin(p, size, align) =>
      if PcOf(s, p).Idle? && Accepted(align) then s.(pcs := s.pcs[p := Wanting(size, align)]) else s
    case Read(p) =>
      (match PcOf(s, p)
       case Wanting(size, align) =>
         if Passes(s.next, size, align, total)
         then s.(pcs := s.pcs[p := Ready(size, align, s.next, |s.grants|)])
         else s.(pcs := s.pcs[p := Idle], refused := s.refused + 1)
       case _ => s)
    case Exchange(p) =>
      (match PcOf(s, p)
       case Ready(size, align, cur, _) =>
         var reserve := Reserve(cur, size, align);
         if s.next == cur
         then s.(next := reserve, grants := s.grants + [Grant(p, cur, reserve - cur, size, align)],
                 pcs := s.pcs[p := Idle])
         else s.(pcs := s.pcs[p := Wanting(size, align)])
       case _ => s)
  }

  function Run(s: Shared, total: nat, steps: seq<Step>): Shared
    decreases |steps|
  {
    if steps == [] then s else Run(Next(s, total, steps[0]), total, steps[1..])
  }

  /** Requests whose sum with any offset in the region stays a signed word. Every request within the
      advertised maximum, the region less its header, is one if the region is below 2^62 bytes. */
  predicate Modest(total: nat, size: u64, align: nat) { Accepted(align) && TrueSize(size, align) + total < HALF }

  lemma AdvertisedIsModest(total: nat, size: u64, align: nat)
    requires Accepted(align) && HEADER + 4096 <= total < 0x4000_0000_0000_0000 - 4096 && size <= total - HEADER
    ensures Modest(total, size, align)
  {
    hide TrueSize;
    TrueSizeIs(size, align);
  }

  /** Modest requests are exactly those for which a passing bound check is always sound, wherever in the
      region the field stands. */
  lemma ModestIff(total: nat, size: u64, align: nat)
    requires Accepted(align) && total < HALF
    ensures Modest(total, size, align) <==>
              forall cur: nat :: cur <= total && Passes(cur, size, align, total) ==>
                cur + Wanted(size) <= Reserve(cur, size, align) <= total
  {
    hide TrueSize, Passes, Reserve, Accepted;
    forall cur: nat | cur <= total && Passes(cur, size, align, total) && Modest(total, size, align)
      ensures cur + Wanted(size) <= Reserve(cur, size, align) <= total
    {
      PassesIff(cur, size, align, total);
      SoundIff(cur, size, align, total);
    }
    PassesIff(total, size, align, total);
    SoundIff(total, size, align, total);
    assert Wanted(size) >= 1;
  }

  predicate ModestStep(total: nat, st: Step) { st.Begin? ==> Modest(total, st.size, st.align) || !Accepted(st.align) }

  /** Where the first k grants end. */
  function EndAt(grants: seq<Grant>, k: nat): int
    requires k <= |grants|
  {
    if k == 0 then HEADER else grants[k - 1].offset + grants[k - 1].bytes
  }

  /** Each grant starts where the one before ended, and holds what was asked for. */
  ghost predicate Chained(grants: seq<Grant>) { forall i: nat :: i < |grants| ==> Link(grants, i) }

  predicate Link(grants: seq<Grant>, i: nat)
    requires i < |grants|
  {
    grants[i].offset == EndAt(grants, i) && grants[i].bytes >= Wanted(grants[i].size) && grants[i].bytes % 16 == 0
  }

  ghost predicate PcOk(s: Shared, total: nat, p: nat)
  {
    match PcOf(s, p)
    case Idle => true
    case Wanting(size, align) => Modest(total, size, align)
    case Ready(size, align, cur, seen) =>
      && Modest(total, size, align) && seen <= |s.grants| && cur == EndAt(s.grants, seen) && HEADER <= cur
      && cur + TrueSize(size, align) <= total
      && forall i :: seen <= i < |s.grants| ==> s.grants[i].pid != p
  }

  ghost predicate Inv(s: Shared, total: nat)
  {
    && total < HALF && HEADER <= s.next <= total
    && Chained(s.grants) && s.next == EndAt(s.grants, |s.grants|)
    && forall p: nat :: PcOk(s, total, p)
  }

  lemma CreatedInv(total: nat)
    requires HEADER <= total < HALF
    ensures Inv(Created(), total)
  {
  }

  lemma EndStep(grants: seq<Grant>, j: nat)
    requires Chained(grants) && j < |grants|
    ensures EndAt(grants, j) == grants[j].offset && EndAt(grants, j + 1) == grants[j].offset + grants[j].bytes
    ensures grants[j].bytes >= Wanted(grants[j].size) && grants[j].bytes > 0 && grants[j].bytes % 16 == 0
  {
    assert Link(grants, j);
  }

  lemma {:induction false} EndsGrow(grants: seq<Grant>, i: nat, j: nat)
    requires Chained(grants) && i <= j <= |grants|
    ensures EndAt(grants, i) <= EndAt(grants, j) && (i < j ==> EndAt(grants, i) < EndAt(grants, j))
    decreases j
  {
    hide Chained, EndAt;
    if i < j {
      EndsGrow(grants, i, j - 1);
      EndStep(grants, j - 1);
    }
  }

  lemma EndsKept(grants: seq<Grant>, g: Grant)
    requires Chained(grants) && g.offset == EndAt(grants, |grants|) && g.bytes >= Wanted(g.size) && g.bytes % 16 == 0
    ensures Chained(grants + [g])
    ensures forall k: nat :: k <= |grants| ==> EndAt(grants + [g], k) == EndAt(grants, k)
    ensures EndAt(grants + [g], |grants| + 1) == g.offset + g.bytes
  {
    var t := grants + [g];
    forall k: nat | k <= |grants| ensures EndAt(t, k) == EndAt(grants, k)
        { assert k > 0 ==> t[k - 1] == grants[k - 1]; }
    forall i: nat | i < |t| ensures Link(t, i) {
      if i < |grants| { assert Link(grants, i) && t[i] == grants[i]; }
    }
  }

  lemma ReadKeeps(s: Shared, total: nat, p: nat)
    requires Inv(s, total)
    ensures Inv(Next(s, total, Read(p)), total)
  {
    hide Passes, Accepted, TrueSize, Reserve, Chained;
    var s' := Next(s, total, Read(p));
    assert PcOk(s, total, p);
    if PcOf(s, p).Wanting? {
      PassesIff(s.next, PcOf(s, p).size, PcOf(s, p).align, total) by { assert Accepted(PcOf(s, p).align); }
    }
    forall q: nat ensures PcOk(s', total, q) { assert PcOk(s, total, q); }
  }

  /** The effect of an exchange that wins. */
  lemma WinKeeps(s: Shared, total: nat, p: nat)
    requires Inv(s, total) && PcOf(s, p).Ready? && s.next == PcOf(s, p).cur
    ensures var s' := Next(s, total, Exchange(p));
            && Inv(s', total) && s'.next > s.next && s'.grants == s.grants + [s'.grants[|s.grants|]]
            && s'.next == s.next + TrueSize(PcOf(s, p).size, PcOf(s, p).align)
  {
    hide Accepted, TrueSize, Reserve, Chained, Signed;
    assert PcOk(s, total, p);
    var size, align := PcOf(s, p).size, PcOf(s, p).align;
    TrueSizeIs(size, align);
    ReserveIs(s.next, size, align);
    SignedIs(s.next + TrueSize(size, align));
    var s' := Next(s, total, Exchange(p));
    var g := Grant(p, s.next, Reserve(s.next, size, align) - s.next, size, align);
    EndsKept(s.grants, g);
    forall q: nat ensures PcOk(s', total, q) {
      assert PcOk(s, total, q);
      if q != p && PcOf(s, q).Ready? {
        forall i | PcOf(s, q).seen <= i < |s'.grants| ensures s'.grants[i].pid != q { }
      }
    }
  }

  /** A failed exchange: since this process read the field, another one was granted space. */
  lemma LoseMeans(s: Shared, total: nat, p: nat)
    requires Inv(s, total) && PcOf(s, p).Ready? && s.next != PcOf(s, p).cur
    ensures Inv(Next(s, total, Exchange(p)), total)
    ensures var seen := PcOf(s, p).seen; seen < |s.grants| && s.grants[seen].pid != p && PcOf(s, p).cur < s.next
  {
    hide Accepted, TrueSize, Reserve, Passes, Chained, EndAt;
    assert PcOk(s, total, p);
    var s' := Next(s, total, Exchange(p));
    EndsGrow(s.grants, PcOf(s, p).seen, |s.grants|);
    forall q: nat ensures PcOk(s', total, q) { assert PcOk(s, total, q); }
  }

  /** Every step of every process keeps the invariant, and the shared field never decreases. */
  lemma StepKeeps(s: Shared, total: nat, st: Step)
    requires Inv(s, total) && ModestStep(total, st)
    ensures Inv(Next(s, total, st), total) && s.next <= Next(s, total, st).next
        && s.grants <= Next(s, total, st).grants
  {
    hide Accepted, TrueSize, Reserve, Passes, Chained;
    match st
    case Begin(p, size, align) =>
      var s' := Next(s, total, st);
      forall q: nat ensures PcOk(s', total, q) { assert PcOk(s, total, q); }
    case Read(p) => ReadKeeps(s, total, p);
    case Exchange(p) =>
      if PcOf(s, p).Ready? {
        if s.next == PcOf(s, p).cur { WinKeeps(s, total, p); } else { LoseMeans(s, total, p); }
      }
  }

  /** Every interleaving. */
  lemma {:induction false} RunKeeps(s: Shared, total: nat, steps: seq<Step>)
    requires Inv(s, total) && forall i :: 0 <= i < |steps| ==> ModestStep(total, steps[i])
    ensures Inv(Run(s, total, steps), total) && s.next <= Run(s, total, steps).next
        && s.grants <= Run(s, total, steps).grants
    decreases |steps|
  {
    hide Inv, Next, ModestStep;
    if steps != [] {
      StepKeeps(s, total, steps[0]);
      RunKeeps(Next(s, total, steps[0]), total, steps[1..]);
    }
  }

  /** Granted ranges tile the region from its header up to the shared field: each is large enough,
      inside the region, and disjoint from every other. */
  lemma GrantsSafe(s: Shared, total: nat, i: nat, j: nat)
    requires Inv(s, total) && i < j < |s.grants|
    ensures HEADER <= s.grants[i].offset && s.grants[j].offset + s.grants[j].bytes <= s.next <= total
    ensures s.grants[i].offset + s.grants[i].bytes <= s.grants[j].offset
    ensures Wanted(s.grants[i].size) <= s.grants[i].bytes
  {
    hide Wanted, Chained, PcOk;
    EndStep(s.grants, i);
    EndStep(s.grants, j);
    EndsGrow(s.grants, 0, i);
    EndsGrow(s.grants, i + 1, j);
    EndsGrow(s.grants, j + 1, |s.grants|);
    assert EndAt(s.grants, 0) == HEADER;
  }

  /** From creation on, whatever the processes do in whatever order. */
  lemma AllRunsSafe(total: nat, steps: seq<Step>)
    requires HEADER + 4096 <= total < HALF && forall i :: 0 <= i < |steps| ==> ModestStep(total, steps[i])
    ensures Inv(Run(Created(), total, steps), total)
  {
    hide Inv, ModestStep;
    CreatedInv(total);
    RunKeeps(Created(), total, steps);
  }

  /** A request is refused exactly when its rounded size does not fit behind the field. */
  lemma RefusedIff(s: Shared, total: nat, p: nat)
    requires Inv(s, total) && PcOf(s, p).Wanting?
    ensures Next(s, total, Read(p)).refused == s.refused + 1 <==>
              s.next + TrueSize(PcOf(s, p).size, PcOf(s, p).align) > total
  {
    hide Passes, Accepted, TrueSize, Chained;
    assert PcOk(s, total, p);
    PassesIff(s.next, PcOf(s, p).size, PcOf(s, p).align, total);
  }

  lemma RoundTo16(v: nat)
    ensures AlignUp(v, 16) == v + 15 - (v + 15) % 16
  {
    Pow2Word();
    AndMask(v + 15, 4);
  }

  /** A request far beyond the region is let through and moves the field backwards: with the field
      at 144, a request of 2^64 - 256 bytes would move it to -112. */
  lemma HugeRequest()
    ensures Passes(144, 0xFFFF_FFFF_FFFF_FF00, 16, 8192) && Reserve(144, 0xFFFF_FFFF_FFFF_FF00, 16) == -112
  {
    hide AlignUp, Signed, RoundedWord;
    assert Accepted(16) by { PowerPasses(4); Pow2Word(); }
    RoundTo16(0xFFFF_FFFF_FFFF_FF00);
    ReserveIs(144, 0xFFFF_FFFF_FFFF_FF00, 16);
    SignedIs(144 + 0xFFFF_FFFF_FFFF_FF00);
    SignedIs(8192);
  }

  // ---- alignment ----

  /** The field and every offset are multiples of 16, also where the field wrapped. */
  ghost predicate Sixteens(s: Shared)
  {
    && s.next % 16 == 0 && (forall i :: 0 <= i < |s.grants| ==> s.grants[i].offset % 16 == 0)
    && forall p: nat :: !PcOf(s, p).Idle? ==> Accepted(PcOf(s, p).align)
  }

  lemma SumSixteen(x: int, y: int)
    requires x % 16 == 0 && y % 16 == 0
    ensures (x + y) % 16 == 0 && Signed(x + y) % 16 == 0
  {
    hide Signed;
    SixteenTimes(x);
    SixteenTimes(y);
    var q := SignedLess(x + y);
    MultipleOfSixteen(x / 16 + y / 16);
    MultipleOfSixteen(x / 16 + y / 16 - 0x1000_0000_0000_0000 * q);
  }

  lemma SixteenTimes(x: int)
    requires x % 16 == 0
    ensures x == 16 * (x / 16)
  {
  }

  lemma MultipleOfSixteen(q: int)
    ensures (16 * q) % 16 == 0
  {
  }

  lemma SignedLess(x: int) returns (q: int)
    ensures Signed(x) == x - 16 * (0x1000_0000_0000_0000 * q)
  {
    q := x / 0x1_0000_0000_0000_0000;
    if x % 0x1_0000_0000_0000_0000 >= 0x8000_0000_0000_0000 { q := q + 1; }
  }

  lemma StepSixteens(s: Shared, total: nat, st: Step)
    requires Sixteens(s)
    ensures Sixteens(Next(s, total, st))
  {
    hide Accepted, Passes, Reserve, TrueSize;
    var s' := Next(s, total, st);
    forall p: nat | !PcOf(s', p).Idle? ensures Accepted(PcOf(s', p).align) {
      assert !PcOf(s, p).Idle? ==> Accepted(PcOf(s, p).align);
    }
    if st.Exchange? && PcOf(s, st.pid).Ready? {
      var pc := PcOf(s, st.pid);
      ReserveIs(pc.cur, pc.size, pc.align);
      TrueSizeIs(pc.size, pc.align);
      if s.next == pc.cur { SumSixteen(pc.cur, TrueSize(pc.size, pc.align)); }
    }
  }

  lemma {:induction false} RunSixteens(s: Shared, total: nat, steps: seq<Step>)
    requires Sixteens(s)
    ensures Sixteens(Run(s, total, steps))
    decreases |steps|
  {
    hide Sixteens, Next;
    if steps != [] {
      StepSixteens(s, total, steps[0]);
      RunSixteens(Next(s, total, steps[0]), total, steps[1..]);
    }
  }

  /** Every grant made for this alignment starts at a multiple of it. */
  ghost predicate Honoured(s: Shared, align: nat)
  {
    forall i :: 0 <= i < |s.grants| && s.grants[i].align == align ==>
      s.grants[i].offset % Requests.Effective(align) == 0
  }

  /** One process asks, reads and exchanges without interference. */
  function Asks(p: nat, size: u64, align: nat): seq<Step> { [Begin(p, size, align), Read(p), Exchange(p)] }

  lemma RunThree(s: Shared, total: nat, p: nat, size: u64, align: nat)
    ensures Run(s, total, Asks(p, size, align)) ==
            Next(Next(Next(s, total, Begin(p, size, align)), total, Read(p)), total, Exchange(p))
  {
    hide Next;
    var steps := Asks(p, size, align);
    var s1 := Next(s, total, steps[0]);
    var s2 := Next(s1, total, Read(p));
    assert steps[1..] == [Read(p), Exchange(p)] && steps[1..][1..] == [Exchange(p)] && [Exchange(p)][1..] == [];
    assert Run(s2, total, [Exchange(p)]) == Run(Next(s2, total, Exchange(p)), total, []);
    assert Run(s1, total, steps[1..]) == Run(s2, total, [Exchange(p)]);
  }

  /** An undisturbed request that fits is granted at the field. */
  lemma GrantedAt(s: Shared, total: nat, p: nat, size: u64, align: nat)
    requires PcOf(s, p).Idle? && Accepted(align) && 0 <= s.next && s.next + TrueSize(size, align) <= total < HALF
    ensures var s' := Run(s, total, Asks(p, size, align));
            && s'.next == s.next + TrueSize(size, align) && PcOf(s', p).Idle?
            && s'.grants == s.grants + [Grant(p, s.next, TrueSize(size, align), size, align)]
  {
    hide Accepted, TrueSize, Passes, Reserve, Signed, Run;
    RunThree(s, total, p, size, align);
    TrueSizeIs(size, align);
    PassesIff(s.next, size, align, total);
    ReserveIs(s.next, size, align);
    SignedIs(s.next + TrueSize(size, align));
  }

  lemma {:induction false} RunAppend(s: Shared, total: nat, steps: seq<Step>, more: seq<Step>)
    ensures Run(s, total, steps + more) == Run(Run(s, total, steps), total, more)
    decreases |steps|
  {
    hide Next;
    if steps == [] {
      assert steps + more == more;
    } else {
      RunAppend(Next(s, total, steps[0]), total, steps[1..], more);
      assert (steps + more)[1..] == steps[1..] + more;
    }
  }

  lemma OneByte(align: nat)
    requires Accepted(align)
    ensures TrueSize(1, align) == Granule(align) <= 4096
  {
    hide Pow2, And;
    var k := GranuleIs(align);
    AlignUpPow2(1, k);
    OnlyMultiple(AlignUp(1, Pow2(k)), Pow2(k));
    Thousands();
    Pow2Mono(k, 12);
  }

  lemma OnlyMultiple(x: nat, a: nat)
    requires a >= 1 && x % a == 0 && 1 <= x < 1 + a
    ensures x == a
  {
    if x < a { SmallMod(x, a); }
  }

  /** A run with a misaligned grant: the field starts behind the header, at 32; a request for 32 is met at 48
      after a request for 16, and any larger one at 32. */
  function Misaligned(align: nat): seq<Step>
  {
    if align == 32 then Asks(1, 1, 16) + Asks(1, 1, 32) else Asks(1, 1, align)
  }

  lemma MisalignedGrant(total: nat, align: nat)
    requires Accepted(align) && align > 16 && HEADER + 4096 <= total < HALF
    ensures !Honoured(Run(Created(), total, Misaligned(align)), align)
  {
    hide TrueSize, Run, Pow2, IsPowerOfTwo;
    assert Accepted(16) by { PowerPasses(4); Pow2Word(); }
    OneByte(16);
    OneByte(align);
    var s1 := Run(Created(), total, Asks(1, 1, 16));
    if align == 32 {
      GrantedAt(Created(), total, 1, 1, 16);
      GrantedAt(s1, total, 1, 1, 32);
      RunAppend(Created(), total, Asks(1, 1, 16), Asks(1, 1, 32));
      var s2 := Run(s1, total, Asks(1, 1, 32));
      assert s2.grants[1].align == 32 && s2.grants[1].offset == 48;
    } else {
      GrantedAt(Created(), total, 1, 1, align);
      var s2 := Run(Created(), total, Misaligned(align));
      assert s2.grants[0].align == align && s2.grants[0].offset == 32;
      LargerPower(align);
      SmallMod(32, align);
    }
  }

  lemma LargerPower(align: nat)
    requires Accepted(align) && align > 16 && align != 32
    ensures align > 32
  {
    hide IsPowerOfTwo;
    OnlyPowersPass(align);
    var k := FloorLog(align);
    Pow2Word();
    if k < 4 { Pow2Mono(k, 4); }
    if k > 5 { Pow2Mono(6, k); }
  }

  /** The requested alignment, which the answer reports as granted, is honoured by every grant of every run
      exactly when it is at most 16. */
  lemma AlignmentIff(total: nat, align: nat)
    requires Accepted(align) && HEADER + 4096 <= total < HALF
    ensures (forall steps: seq<Step> :: Honoured(Run(Created(), total, steps), align)) <==> align <= 16
  {
    hide Run, IsPowerOfTwo;
    if align <= 16 {
      forall steps: seq<Step> ensures Honoured(Run(Created(), total, steps), align) {
        assert Sixteens(Created());
        RunSixteens(Created(), total, steps);
        var s := Run(Created(), total, steps);
        forall i | 0 <= i < |s.grants| && s.grants[i].align == align
          ensures s.grants[i].offset % Requests.Effective(align) == 0
        {
          Requests.LegalDivides(align, s.grants[i].offset);
        }
      }
    } else {
      MisalignedGrant(total, align);
    }
  }

  /** In particular, a first request for page alignment is granted at offset 32. */
  lemma PageRequest()
    ensures var s := Run(Created(), 8192, [Begin(1, 1, 4096), Read(1), Exchange(1)]);
            s.grants == [Grant(1, 32, 4096, 1, 4096)] && 32 % 4096 != 0
  {
    hide TrueSize, Run;
    assert Accepted(4096) by { PowerPasses(12); Thousands(); }
    OneByte(4096);
    GrantedAt(Created(), 8192, 1, 1, 4096);
  }

  // ---- one process ----

  /** A signed word read as unsigned. */
  function Unsigned(x: i64): u64 { x % 0x1_0000_0000_0000_0000 }

  function Max(a: nat, b: nat): nat { if a >= b then a else b }

  datatype Live = Live(offset: u64, size: nat, align: nat)

  /** What the other processes make of the field during one round of the loop: its value when this
      process reads it, and its value when this process tries the exchange. */
  datatype Round = Round(atRead: i64, atExchange: i64)

  predicate Lost(r: Round, size: u64, align: nat, total: nat)
  {
    Passes(r.atRead, size, align, total) && r.atExchange != r.atRead
  }

  /** A round of the loop is a read step and an exchange step of the protocol, with steps of others between. */
  lemma RoundFollows(s: Shared, s1: Shared, total: nat, p: nat, r: Round, size: u64, align: nat)
    requires PcOf(s, p) == Wanting(size, align) && s.next == r.atRead
    requires PcOf(s1, p) == PcOf(Next(s, total, Read(p)), p) && s1.next == r.atExchange
    ensures Lost(r, size, align, total) ==> PcOf(Next(s1, total, Exchange(p)), p) == Wanting(size, align)
    ensures !Passes(r.atRead, size, align, total) ==>
        PcOf(s1, p) == Idle && Next(s, total, Read(p)).refused == s.refused + 1
    ensures Passes(r.atRead, size, align, total) && r.atExchange == r.atRead ==>
              Next(s1, total, Exchange(p)).next == Reserve(r.atRead, size, align)
                  && PcOf(Next(s1, total, Exchange(p)), p) == Idle
  {
    hide Passes, Reserve, Accepted;
  }

  class Region {
    var next: i64
    constructor () { next := HEADER; }
  }

  /** What a process keeps for itself; the region is shared. */
  datatype Books = Books(
    live: map<nat, Live>, nextId: nat, success: nat, failures: nat, liveCount: nat, peakLive: nat,
    liveBytes: nat, peakBytes: nat, requested: nat, granted: nat)

  /** The books after a grant at cur. */
  function Booked(b: Books, cur: i64, size: u64, align: nat): Books
  {
    var id, sz := b.nextId + 1, Wanted(size);
    Books(b.live[id := Live(Unsigned(cur), sz, align)], id, b.success + 1, b.failures,
          b.liveCount + 1, Max(b.liveCount + 1, b.peakLive), b.liveBytes + sz, Max(b.liveBytes + sz, b.peakBytes),
          b.requested + size, b.granted + sz)
  }

  /** A grant to this process: where, and what was asked for. */
  datatype Ask = Ask(cur: i64, size: u64, align: nat)

  /** The books after some grants. */
  function After(asks: seq<Ask>): Books
  {
    if asks == [] then Books(map[], 0, 0, 0, 0, 0, 0, 0, 0, 0)
    else
      var a := asks[|asks| - 1];
      Booked(After(asks[..|asks| - 1]), a.cur, a.size, a.align)
  }

  function Asked(asks: seq<Ask>): nat
  {
    if asks == [] then 0 else Asked(asks[..|asks| - 1]) + asks[|asks| - 1].size
  }

  function Zeros(asks: seq<Ask>): nat
  {
    if asks == [] then 0 else Zeros(asks[..|asks| - 1]) + if asks[|asks| - 1].size == 0 then 1 else 0
  }

  /** The books of a process are those of its grants: the ids count them, each is live with its offset, size and
      alignment, and the bytes are those asked for, where a request for nothing counts one byte as granted. */
  lemma {:induction false} BooksMeaning(asks: seq<Ask>)
    ensures var b := After(asks);
            && b.nextId == b.success == b.liveCount == b.peakLive == |asks| && b.failures == 0
            && b.requested == Asked(asks) && b.granted == Asked(asks) + Zeros(asks)
            && b.liveBytes == b.granted && b.peakBytes == b.granted
            && (forall id :: id in b.live <==> 1 <= id <= |asks|)
            && forall i :: 0 <= i < |asks| ==>
                 b.live[i + 1] ==
                 Live(Unsigned(asks[i].cur), if asks[i].size == 0 then 1 else asks[i].size, asks[i].align)
    decreases |asks|
  {
    if asks != [] {
      var less := asks[..|asks| - 1];
      BooksMeaning(less);
      assert forall i :: 0 <= i < |less| ==> less[i] == asks[i];
    }
  }

  class Process {
    const total: nat
    const initOk: bool
    var books: Books

    constructor (total: nat, initOk: bool)
      ensures this.total == total && this.initOk == initOk
      ensures books == Books(map[], 0, 0, 0, 0, 0, 0, 0, 0, 0)
    {
      this.total, this.initOk, books := total, initOk, Books(map[], 0, 0, 0, 0, 0, 0, 0, 0, 0);
    }

    /** The retry loop of allocate, against any behaviour of the other processes. It ends in the first
        round that is not lost: refused if the bound check fails there, granted otherwise. */
    method Allocate(region: Region, size: u64, alignment: nat, rounds: seq<Round>) returns (r: Outcome, used: nat)
      requires rounds != [] && !Lost(rounds[|rounds| - 1], size, Requests.Effective(alignment), total)
      modifies this, region
      ensures !initOk || !Accepted(alignment) ==>
                && r == Failed(if initOk then AlignmentUnsupported else InitFailed) && used == 0
                && region.next == old(region.next) && books == old(books)
      ensures initOk && Accepted(alignment) ==>
                used < |rounds| && !Lost(rounds[used], size, Requests.Effective(alignment), total)
      ensures forall i :: 0 <= i < used ==> Lost(rounds[i], size, Requests.Effective(alignment), total)
      ensures initOk && Accepted(alignment) ==>
                var cur, align := rounds[used].atRead, Requests.Effective(alignment);
                if Passes(cur, size, align, total) then
                  && r == Granted(old(books).nextId + 1, Unsigned(cur), size, align, false)
                  && region.next == Reserve(cur, size, align) && books == Booked(old(books), cur, size, align)
                else
                  && r == Failed(CapacityExceeded) && region.next == cur
                  && books == old(books).(failures := old(books).failures + 1)
    {
      hide Accepted, Passes, Reserve;
      used := 0;
      if !initOk { return Failed(InitFailed), 0; }
      if !Accepted(alignment) { return Failed(AlignmentUnsupported), 0; }
      var align := if alignment == 0 then 16 else alignment;
      var sz := Wanted(size);
      while true
        invariant used < |rounds| && forall i :: 0 <= i < used ==> Lost(rounds[i], size, align, total)
        invariant unchanged(this) && align == Requests.Effective(alignment)
        decreases |rounds| - used
      {
        region.next := rounds[used].atRead;
        var cur := region.next;
        if !Passes(cur, size, align, total) {
          books := books.(failures := books.failures + 1);
          return Failed(CapacityExceeded), used;
        }
        var reserve := Reserve(cur, size, align);
        region.next := rounds[used].atExchange;
        if region.next == cur {
          region.next := reserve;
          var offset := Unsigned(cur);
          var b := books;
          b := b.(nextId := b.nextId + 1);
          b := b.(live := b.live[b.nextId := Live(offset, sz, align)]);
          b := b.(success := b.success + 1, liveCount := b.liveCount + 1);
          if b.liveCount > b.peakLive { b := b.(peakLive := b.liveCount); }
          b := b.(liveBytes := b.liveBytes + sz);
          if b.liveBytes > b.peakBytes { b := b.(peakBytes := b.liveBytes); }
          books := b.(requested := b.requested + size, granted := b.granted + sz);
          return Granted(books.nextId, offset, size, align, false), used;
        }
        used := used + 1;
      }
    }
  }
}
