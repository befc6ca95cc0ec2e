/** What the superblock-backed allocators share: request sizes and alignments, and growth. */
module Requests {
  import opened Bits

  /** Bounds::max_allocation_size. */
  const MAX_SIZE: nat := 0x2_0000_0000

  /** What the system allocator answers: nothing, or a new address range. */
  datatype Memory = NoMemory | Fresh(base: nat)

  function Max(a: int, b: int): int { if a >= b then a else b }

  // A sum of two 64-bit words, as the machine keeps it.
  function Wrap64(x: nat): u64 { x % 0x1_0000_0000_0000_0000 }

  lemma SmallWrap(x: nat)
    requires x < WORD
    ensures Wrap64(x) == x
  {
  }

  /** The payload of a request: at least one byte, rounded up to 16. */
  function Payload(size: nat): nat { AlignUp(if size == 0 then 1 else size, 16) }

  lemma PayloadBounds(size: nat)
    ensures Payload(size) >= 16 && Payload(size) % 16 == 0 && size <= Payload(size) <= size + 16
    ensures size > 0 ==> Payload(size) < size + 16
  {
    hide Payload;
    var q := PayloadUnits(size);
    MultipleOf16(Payload(size), q);
  }

  lemma PayloadUnits(size: nat) returns (q: nat)
    ensures Payload(size) == 16 * q && q >= 1 && size <= 16 * q <= size + 16
    ensures size > 0 ==> 16 * q < size + 16
  {
    hide AlignUp;
    var v := if size == 0 then 1 else size;
    Pow2Word();
    AlignUpPow2(v, 4);
    q := AlignUp(v, 16) / 16;
  }

  lemma MultipleOf16(x: nat, q: nat)
    requires x == 16 * q
    ensures x % 16 == 0
  {
  }

  predicate LegalAlignment(alignment: nat) { alignment == 0 || (IsPowerOfTwo(alignment) && alignment <= 16) }

  function Effective(alignment: nat): nat { if alignment == 0 then 16 else alignment }

  lemma LegalIs(alignment: nat)
    ensures LegalAlignment(alignment) <==> IsPowerOfTwo(Effective(alignment)) && Effective(alignment) <= 16
  {
    PowerPasses(4);
    Pow2Word();
  }

  lemma SmallPower(k: nat)
    requires Pow2(k) <= 16
    ensures Pow2(k) in {1, 2, 4, 8, 16}
  {
    if k > 4 { Pow2Mono(5, k); }
  }

  lemma LegalAlignments(alignment: nat)
    ensures LegalAlignment(alignment) <==> alignment in {0, 1, 2, 4, 8, 16}
  {
    hide IsPowerOfTwo;
    if LegalAlignment(alignment) && alignment != 0 {
      OnlyPowersPass(alignment);
      SmallPower(FloorLog(alignment));
    }
    Pow2Word();
    PowerPasses(0); PowerPasses(1); PowerPasses(2); PowerPasses(3); PowerPasses(4);
  }

  /** An address that is a multiple of 16 honours every alignment that is accepted. */
  lemma LegalDivides(alignment: nat, addr: int)
    requires LegalAlignment(alignment) && addr % 16 == 0
    ensures addr % Effective(alignment) == 0
  {
    hide Pow2, FloorLog, IsPowerOfTwo;
    if alignment != 0 {
      OnlyPowersPass(alignment);
      SmallPower(FloorLog(alignment));
      SmallDivides(alignment, addr);
    }
  }

  lemma SmallDivides(d: nat, addr: int)
    requires d in {1, 2, 4, 8, 16} && addr % 16 == 0
    ensures addr % d == 0
  {
    if d == 2 { assert addr % 2 == 0; }
    else if d == 4 { assert addr % 4 == 0; }
    else if d == 8 { assert addr % 8 == 0; }
  }

  /** The size of the superblock that a failing search asks for. */
  function GrowSize(granule: nat, need: nat): nat
    requires granule >= 1
  {
    if granule > need then granule else AlignUp(need, granule)
  }

  /** Whatever the granule, the new superblock is large enough for the request. */
  lemma GrowSizeBounds(granule: nat, need: nat)
    requires granule >= 1
    ensures need <= GrowSize(granule, need) <= granule + need
    ensures GrowSize(granule, need) == granule || GrowSize(granule, need) <= 2 * need
  {
    AlignUpBounds(need, granule);
  }

  /** It is the granule, or, for a larger request and a granule that is a power of two, the least multiple of the
      granule that covers the request. */
  lemma GrowSizeExactly(k: nat, need: nat)
    ensures var g, size := Pow2(k), GrowSize(Pow2(k), need);
            && (need < g ==> size == g)
            && (need >= g ==> size % g == 0 && need <= size < need + g)
  {
    hide AlignUp;
    AlignUpPow2(need, k);
  }
}
