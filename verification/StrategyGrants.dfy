/** What a grant is to the entry that asked for it, over any of the four allocators: its size and alignment. */
module StrategyGrants {
  import opened AllocTypes
  import opened Bits
  import opened Traces
  import opened Replay
  import opened StrategyReplay
  import BC = BuddyContract
  import BM = BuddyModel
  import BH = BuddyHistory
  import FL = FreeListModel
  import SG = SegregatedModel
  import SH = SegregatedHistory
  import SL = SlabModel
  import Requests

  /** The answer gives at least the size asked for, at an address that honours the alignment. */
  ghost predicate Serves(size: nat, alignment: nat, r: Outcome)
  {
    r.Granted? ==>
      && r.size >= size && alignment in {0, 1, 2, 4, 8, 16}
      && r.addr % (if alignment == 0 then 16 else alignment) == 0
  }

  lemma SixteenServes(size: nat, alignment: nat, r: Outcome)
    requires r.Granted? ==> r.size >= size && r.addr % 16 == 0 && alignment in {0, 1, 2, 4, 8, 16}
    ensures Serves(size, alignment, r)
  {
    if r.Granted? && alignment != 0 { Requests.SmallDivides(alignment, r.addr); }
  }

  lemma BuddyServes(b: BM.Buddy, size: nat, alignment: nat)
    requires BM.Inv(b)
    ensures Serves(size, alignment, BM.Allocate(b, size, alignment).1)
  {
    hide BM.Inv, BM.Allocate, BM.Partition, BM.Balance, Serves;
    var (b', r) := BM.Allocate(b, size, alignment);
    BM.AllocateKeeps(b, size, alignment);
    if r.Granted? {
      BuddyAccepts(b, size, alignment);
      BuddySixteen(b, size, b', r);
    }
    SixteenServes(size, alignment, r);
  }

  lemma BuddyAccepts(b: BM.Buddy, size: nat, alignment: nat)
    requires BM.Allocate(b, size, alignment).1.Granted?
    ensures alignment in {0, 1, 2, 4, 8, 16}
  {
    hide BM.OrderFor, BM.Pick, IsPowerOfTwo, Requests.LegalAlignment;
    Requests.LegalAlignments(alignment);
    BH.LegalIs(alignment);
  }

  lemma BuddySixteen(b: BM.Buddy, size: nat, b': BM.Buddy, r: Outcome)
    requires r.Granted? && BM.GrantedWell(b, size, b', r)
    ensures r.addr % 16 == 0
  {
    hide BM.OrderFor, Pow2;
    BM.NeedBounds(size);
    var blk := b'.live[r.id];
    LowerAligned(blk.off, blk.order, 4);
    AlignedMod(blk.off, 4);
    Pow2Word();
    assert Pow2(4) == 16;
  }

  lemma FreeListServes(f: FL.FreeList, size: nat, alignment: nat, env: Env)
    requires FL.Inv(f) && FL.Answers(f, FL.Need(size), env.mem)
    ensures Serves(size, alignment, FL.Allocate(f, size, alignment, env.mem, env.junk).1)
  {
    hide FL.Geometry, FL.Books, FL.Allocate, FL.Answers, FL.Need, Serves;
    FL.AllocateKeeps(f, size, alignment, env.mem, env.junk);
    if FL.Allocate(f, size, alignment, env.mem, env.junk).1.Granted? {
      FreeListAccepts(f, size, alignment, env);
    }
    SixteenServes(size, alignment, FL.Allocate(f, size, alignment, env.mem, env.junk).1);
  }

  lemma FreeListAccepts(f: FL.FreeList, size: nat, alignment: nat, env: Env)
    requires FL.Inv(f) && FL.Allocate(f, size, alignment, env.mem, env.junk).1.Granted?
    ensures alignment in {0, 1, 2, 4, 8, 16}
  {
    hide FL.Geometry, FL.Books, FL.Obtain, FL.Need, Requests.LegalAlignment;
    Requests.LegalAlignments(alignment);
  }

  lemma SegregatedServes(g: SG.Segregated, size: nat, alignment: nat, env: Env)
    requires SG.Inv(g) && SG.Answers(g, SG.Need(size), env.mem) && |g.bins| == g.maxBin + 1
    ensures Serves(size, alignment, SG.Allocate(g, size, alignment, env.mem).1)
  {
    hide SG.Tiled, SG.Binned, SG.Allocate, SG.Answers, SG.Need, SG.Refines, Serves;
    SG.AllocateKeeps(g, size, alignment, env.mem);
    SH.Refusals(g, size, alignment, env.mem);
    if SG.Allocate(g, size, alignment, env.mem).1.Granted? { SegregatedAccepts(g, size, alignment, env); }
    SixteenServes(size, alignment, SG.Allocate(g, size, alignment, env.mem).1);
  }

  lemma SegregatedAccepts(g: SG.Segregated, size: nat, alignment: nat, env: Env)
    requires SG.Inv(g) && |g.bins| == g.maxBin + 1 && SG.Allocate(g, size, alignment, env.mem).1.Granted?
    ensures alignment in {0, 1, 2, 4, 8, 16}
  {
    hide SG.Tiled, SG.Binned, SG.Find, SG.Search, SG.Need, SG.Grow, Requests.LegalAlignment;
    Requests.LegalAlignments(alignment);
  }

  lemma SlabServes(l: SL.SlabState, size: nat, alignment: nat, env: Env)
    requires SL.Inv(l) && SL.Answers(l, env.mem)
    ensures Serves(size, alignment, SL.Allocate(l, size, alignment, env.mem).1)
  {
    hide SL.Inv, SL.Allocate, SL.Answers, SL.Balance, SL.Housed, Serves;
    SL.AllocateKeeps(l, size, alignment, env.mem);
    if SL.Allocate(l, size, alignment, env.mem).1.Granted? { SlabAccepts(l, size, alignment, env); }
    SixteenServes(size, alignment, SL.Allocate(l, size, alignment, env.mem).1);
  }

  lemma SlabAccepts(l: SL.SlabState, size: nat, alignment: nat, env: Env)
    requires SL.Allocate(l, size, alignment, env.mem).1.Granted?
    ensures alignment in {0, 1, 2, 4, 8, 16} && size <= l.l.objectSize
  {
    hide SL.Serve, SL.Grow, SL.FirstFree, Requests.LegalAlignment;
    Requests.LegalAlignments(alignment);
  }

  /** Over any of the four allocators, when a step of a worker gets an allocation for its next entry, the table then
      holds, under the entry's id, a region of at least the entry's size at an address that honours its alignment. */
  lemma GrantFits(s: ASys, move: AMove, s': ASys)
    requires Good(s.a) && AStep(s, move, s')
    requires StrategyReplay.Next(s.workers[move.worker], ALLOCATE)
    requires Respond(s.a, s.workers[move.worker], move.env).1.Grants?
    ensures move.worker < |s'.workers|
    ensures var e, pending := s.workers[move.worker].todo[0], s'.workers[move.worker].pending;
            && e.id in pending && pending[e.id].region.size >= e.size && e.alignment in {0, 1, 2, 4, 8, 16}
            && pending[e.id].region.addr % (if e.alignment == 0 then 16 else e.alignment) == 0
  {
    hide BM.Inv, BM.Allocate, FL.Inv, FL.Allocate, SG.Inv, SG.Allocate, SL.Inv, SL.Allocate, PatternByte;
    hide FL.Answers, SG.Answers, SL.Answers;
    var e := s.workers[move.worker].todo[0];
    match s.a
    case OnBuddy(b) => BuddyServes(b, e.size, e.alignment);
    case OnFreeList(f) => FreeListServes(f, e.size, e.alignment, move.env);
    case OnSegregated(g) => SG.InvParts(g); SegregatedServes(g, e.size, e.alignment, move.env);
    case OnSlab(l) => SlabServes(l, e.size, e.alignment, move.env);
  }
}
