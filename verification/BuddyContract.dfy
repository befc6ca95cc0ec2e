/** The buddy allocator meets the strategy contract that replay relies on (allocator.hpp). */
module BuddyContract {
  import opened Bits
  import opened BuddyBlocks
  import opened BuddyModel
  import opened AllocTypes
  import opened Replay
  import BA = BuddyAllocator

  /** The payload behind a block's header. */
  function Payload(b: Blk): Region { Region(b.off + HEADER, if b.Size() >= HEADER then b.Size() - HEADER else 0) }

  function ViewOf(b: Buddy): View { map id | id in b.live :: Payload(b.live[id]) }

  function ReplyOf(r: Outcome): Reply
  {
    match r
    case Granted(id, addr, size, _, _) => Reply.Grants(id, Region(addr, size))
    case Failed(_) => Fails
  }

  /** The header writes of the verified class, seen as bytes, spare the payloads of the blocks it leaves alone. */
  lemma HeaderBytesSpare(h: map<nat, BA.Header>, h': map<nat, BA.Header>, live: map<nat, Blk>, m: Memory, m': Memory)
    requires BA.Untouched(h, h', live.Values)
    requires forall x: nat {:trigger m'(x)} :: m'(x) != m(x) ==>
               exists y: nat :: BA.Changed(h, h', y) && y <= x < y + HEADER
    ensures forall id, x: nat {:trigger live[id].Covers(x)} :: id in live && live[id].Covers(x) ==> m'(x) == m(x)
    ensures Spares(map id | id in live :: Payload(live[id]), m, m')
  {
    forall id, x: nat | id in live && live[id].Covers(x) ensures m'(x) == m(x) {
      assert live[id] in live.Values;
    }
    forall id, x: nat | id in live && Payload(live[id]).Covers(x) ensures m'(x) == m(x) {
      PayloadInside(live[id]);
      assert live[id].Covers(x);
    }
  }

  // ---- the buddy meets the contract ----

  lemma PayloadInside(b: Blk)
    ensures b.order >= 5 ==> Payload(b).addr + Payload(b).size == b.End()
    ensures forall x :: Payload(b).Covers(x) ==> b.Covers(x)
  {
    if b.order >= 5 { Pow2Mono(5, b.order); Pow2Word(); }
  }

  lemma PayloadsDisjoint(a: Blk, b: Blk)
    requires a.order >= 5 && b.order >= 5 && a.Disjoint(b)
    ensures Payload(a).Disjoint(Payload(b))
  {
    PayloadInside(a);
    PayloadInside(b);
  }

  lemma ViewDisjoint(b: Buddy)
    requires Inv(b)
    ensures RegionsDisjoint(ViewOf(b))
  {
    hide Tiling, Maximal, Total;
    forall g, h | g in b.live && h in b.live && g != h ensures ViewOf(b)[g].Disjoint(ViewOf(b)[h]) {
      LiveDisjoint(b, g, h);
      PayloadsDisjoint(b.live[g], b.live[h]);
    }
  }

  lemma LiveDisjoint(b: Buddy, g: nat, h: nat)
    requires Inv(b) && g in b.live && h in b.live && g != h
    ensures b.live[g].Disjoint(b.live[h])
  {
    assert !Down(b);
    assert b.live[g] in b.Busy() && b.live[h] in b.Busy();
  }

  lemma AllocateContract(b: Buddy, size: nat, alignment: nat)
    requires Inv(b)
    ensures var (b', r) := Allocate(b, size, alignment);
            Contract(ViewOf(b), CallAllocate, ReplyOf(r), ViewOf(b'))
  {
    hide Inv, Allocate, Partition, Balance;
    AllocateKeeps(b, size, alignment);
    var (b', r) := Allocate(b, size, alignment);
    if r.Granted? { GrantContract(b, size, b', r); }
  }

  lemma GrantContract(b: Buddy, size: nat, b': Buddy, r: Outcome)
    requires Inv(b) && r.Granted? && GrantedWell(b, size, b', r)
    ensures Contract(ViewOf(b), CallAllocate, ReplyOf(r), ViewOf(b'))
  {
    hide Inv, OrderFor, Fits, Payload;
    NeedBounds(size);
    var c := b'.live[r.id];
    GrantedPayload(c, r, size);
    forall id | id in b.live ensures ViewOf(b)[id].Disjoint(Payload(c)) {
      LiveOrder(b, id);
      PayloadsDisjoint(b.live[id], c);
    }
    assert ViewOf(b') == ViewOf(b)[r.id := Payload(c)];
  }

  lemma LiveOrder(b: Buddy, id: nat)
    requires Inv(b) && id in b.live
    ensures b.live[id].order >= 5
  {
  }

  lemma GrantedPayload(c: Blk, r: Outcome, size: nat)
    requires r.Granted? && r.addr == c.off + HEADER && r.size == c.Size() - HEADER
    ensures Payload(c) == Region(r.addr, r.size)
  {
  }

  lemma FreeContract(b: Buddy, handle: nat)
    requires Inv(b)
    ensures var (b', r) := Free(b, handle);
            Contract(ViewOf(b), CallFree(handle), if r == Status.Ok then Succeeds else Fails, ViewOf(b'))
  {
    hide Inv, Free, Partition, Balance, Pow2;
    FreeKeeps(b, handle);
  }
}
