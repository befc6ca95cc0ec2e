/** What the success and failure counts of a sequential replay mean, in terms of the allocator's own counters. */
module ReplayCounts {
  import opened Bits
  import opened BuddyBlocks
  import opened BuddyModel
  import opened AllocTypes
  import opened Traces
  import opened Replay
  import opened ReplayBalance
  import opened SequentialReplay
  import BuddyHistory
  import Histories

  function Count(es: seq<Entry>, op: u16): nat
  {
    if es == [] then 0 else (if es[0].op == op then 1 else 0) + Count(es[1..], op)
  }

  // ---- sequential replay ----

  /** Grants and accepted frees, as the allocator counts them. */
  function Accepted(b: Buddy): int { b.n.success + b.n.freed }

  lemma AllocateCounted(b: Buddy, size: nat, alignment: nat)
    ensures var (b', r) := Allocate(b, size, alignment);
            Accepted(b') == Accepted(b) + if r.Granted? then 1 else 0
  {
    hide Allocate;
    if Allocate(b, size, alignment).1.Granted? { BuddyHistory.GrantCounts(b, size, alignment); }
    else { BuddyHistory.Refusals(b, size, alignment); }
  }

  lemma FreeCounted(b: Buddy, h: nat)
    ensures var (b', r) := Free(b, h); Accepted(b') == Accepted(b) + if r == Status.Ok then 1 else 0
  {
  }

  /** A replay counts as successes what the allocator counts as grants and accepted frees; every other allocate,
      free and reallocate entry, and every trim, is a failure. */
  lemma {:induction false} SequentialMeaning(b: Buddy, st: StreamState, es: seq<Entry>)
    ensures var (b', st') := ApplyAll(b, st, es);
            && st'.ops == st.ops + |es|
            && st'.successes - st.successes == Accepted(b') - Accepted(b)
            && st'.failures - st.failures == CountMain(es) + Count(es, TRIM) - (Accepted(b') - Accepted(b))
    decreases |es|
  {
    hide Allocate, Free, Accepted;
    if es != [] {
      var e := es[0];
      var (b', st') := Apply(b, st, e);
      if e.op == ALLOCATE { AllocateCounted(b, e.size, e.alignment); }
      if e.op == FREE && e.id in st.live { FreeCounted(b, st.live[e.id].handle); }
      if e.op == RESET { ResetCounted(b); }
      SequentialMeaning(b', st', es[1..]);
    }
  }

  lemma ResetCounted(b: Buddy)
    ensures Accepted(Reset(b)) == Accepted(b)
  {
  }

  /** The allocator calls of a replay: one for each allocate with the entry's size and alignment, one for each free
      of an id in the table with the handle recorded there, one for each reset, and no other. */
  ghost function CallsOf(b: Buddy, st: StreamState, es: seq<Entry>): seq<Op>
    decreases |es|
  {
    if es == [] then []
    else
      var e := es[0];
      var (b', st') := Apply(b, st, e);
      (if e.op == ALLOCATE then [OpAllocate(e.size, e.alignment)]
       else if e.op == FREE && e.id in st.live then [OpFree(st.live[e.id].handle)]
       else if e.op == RESET then [OpReset] else [])
      + CallsOf(b', st', es[1..])
  }

  /** The allocator ends as after those calls. */
  lemma {:induction false} ReplayCalls(b: Buddy, st: StreamState, es: seq<Entry>)
    ensures ApplyAll(b, st, es).0 == Run(b, CallsOf(b, st, es))
    decreases |es|
  {
    hide Allocate, Free, Reset;
    if es != [] {
      var (b', st') := Apply(b, st, es[0]);
      ReplayCalls(b', st', es[1..]);
      var ops, rest := CallsOf(b, st, es), CallsOf(b', st', es[1..]);
      assert ops == rest || ops[1..] == rest;
    }
  }

  // ---- balanced traces ----

  /** Only allocate and free entries and markers. */
  predicate Plain(es: seq<Entry>)
  {
    forall i :: 0 <= i < |es| ==> es[i].op != REALLOCATE && es[i].op != TRIM && es[i].op != RESET
  }

  lemma {:induction false} PlainCounts(live: map<u64, u64>, es: seq<Entry>)
    requires Plain(es) && CheckFrom(live, es) == Traces.Accepted
    ensures Count(es, TRIM) == 0 && CountMain(es) == Count(es, ALLOCATE) + Count(es, FREE)
    ensures |LiveAfter(live, es)| == |live| + Count(es, ALLOCATE) - Count(es, FREE)
    decreases |es|
  {
    hide IsPowerOfTwo;
    if es != [] {
      var e, live' := es[0], Next(live, es[0]);
      assert Check(live, e) == Traces.Accepted;
      PlainCounts(live', es[1..]);
      assert |live.Keys| == |live| && |live'.Keys| == |live'|;
      if e.op == ALLOCATE { assert live'.Keys == live.Keys + {e.id}; }
      if e.op == FREE { assert live'.Keys == live.Keys - {e.id}; }
    }
  }

  /** Grants minus accepted frees minus live blocks. */
  ghost function Open(b: Buddy): int { b.n.success - b.n.freed - |b.live| }

  lemma AllocateOpen(b: Buddy, size: nat, alignment: nat)
    requires Inv(b)
    ensures Inv(Allocate(b, size, alignment).0) && Open(Allocate(b, size, alignment).0) == Open(b)
  {
    hide Inv, Allocate, Partition, Balance, OrderFor, Fits, Blk.Size;
    AllocateKeeps(b, size, alignment);
    if Allocate(b, size, alignment).1.Granted? { BuddyHistory.GrantCounts(b, size, alignment); }
    else { BuddyHistory.Refusals(b, size, alignment); }
  }

  lemma FreeOpen(b: Buddy, h: nat)
    requires Inv(b)
    ensures Inv(Free(b, h).0) && Open(Free(b, h).0) == Open(b)
  {
    hide Inv, Partition, Balance, Coalesce, Merges, Blk.Size;
    FreeKeeps(b, h);
    if h in b.live {
      var live' := b.live - {h};
      assert live'.Keys == b.live.Keys - {h} && |live'.Keys| == |live'| && |b.live.Keys| == |b.live|;
    }
  }

  lemma {:induction false} AllOpen(b: Buddy, st: StreamState, es: seq<Entry>)
    requires Inv(b) && NoReset(es)
    ensures Open(ApplyAll(b, st, es).0) == Open(b)
    decreases |es|
  {
    hide Inv, Allocate, Free, Open;
    if es != [] {
      var e := es[0];
      var (b', st') := Apply(b, st, e);
      if e.op == ALLOCATE { AllocateOpen(b, e.size, e.alignment); }
      if e.op == FREE && e.id in st.live { FreeOpen(b, st.live[e.id].handle); }
      AllOpen(b', st', es[1..]);
    }
  }

  /** A valid and balanced trace of allocations and frees: each grant is one success and its free another, each
      refused allocation one failure and its free another. So there is no failure exactly when no allocation is
      refused. */
  lemma BalancedCounts(b: Buddy, es: seq<Entry>)
    requires Inv(b) && Plain(es) && CheckFrom(map[], es) == Traces.Accepted && LiveAfter(map[], es) == map[]
    ensures var (b', st') := ApplyAll(b, StreamState(map[], 0, 0, 0), es);
            var grants := b'.n.success - b.n.success;
            && b'.n.freed - b.n.freed == grants
            && st'.successes == 2 * grants && st'.failures == 2 * (Count(es, ALLOCATE) - grants)
            && (st'.failures == 0 <==> grants == Count(es, ALLOCATE))
  {
    hide Inv, ApplyAll, CheckFrom, LiveAfter, CountMain, Count;
    SequentialMeaning(b, StreamState(map[], 0, 0, 0), es);
    PlainCounts(map[], es);
    AllOpen(b, StreamState(map[], 0, 0, 0), es);
    SequentialNoLeak(b, es);
  }

  /** The table never holds an id that the validator does not have live, whatever the allocator refuses or a reset
      takes away; a balanced trace leaves it empty. */
  lemma {:induction false} TableWithin(b: Buddy, st: StreamState, live: map<u64, u64>, es: seq<Entry>)
    requires CheckFrom(live, es) == Traces.Accepted && st.live.Keys <= live.Keys
    ensures ApplyAll(b, st, es).1.live.Keys <= LiveAfter(live, es).Keys
    decreases |es|
  {
    hide Allocate, Free, Reset, IsPowerOfTwo;
    if es != [] {
      var (b', st') := Apply(b, st, es[0]);
      TableWithin(b', st', Next(live, es[0]), es[1..]);
    }
  }
}
