/** Sequential replay (experiment.cpp) as the source runs it, over the buddy allocator and the bytes
    of its arena: entries are applied one by one, patterns are written and checked in place. */
module SequentialReplay {
  import opened Bits
  import opened BuddyBlocks
  import opened BuddyModel
  import opened AllocTypes
  import opened Traces
  import opened Replay
  import opened ReplaySafety
  import opened BuddyContract
  import BA = BuddyAllocator
  import ReplayBalance

  /** StreamState without its latency collectors. */
  datatype StreamState = StreamState(live: map<u64, Pending>, ops: nat, successes: nat, failures: nat)

  /** apply_entry on values, when every pattern check passes. */
  ghost function Apply(b: Buddy, st: StreamState, e: Entry): (Buddy, StreamState)
  {
    var t := st.(ops := st.ops + 1);
    if e.op == ALLOCATE then
      var (b', r) := Allocate(b, e.size, e.alignment);
      if r.Granted? then
        (b', t.(live := t.live[e.id := Pending(r.id, Region(r.addr, r.size))], successes := t.successes + 1))
      else (b', t.(failures := t.failures + 1))
    else if e.op == FREE && e.id in t.live then
      var (b', r) := Free(b, t.live[e.id].handle);
      (b', if r == Status.Ok then t.(live := t.live - {e.id}, successes := t.successes + 1)
           else t.(live := t.live - {e.id}, failures := t.failures + 1))
    else if e.op == FREE || e.op == REALLOCATE || e.op == TRIM then (b, t.(failures := t.failures + 1))
    else if e.op == RESET then (Reset(b), t)
    else (b, t)
  }

  ghost function ApplyAll(b: Buddy, st: StreamState, es: seq<Entry>): (Buddy, StreamState)
    decreases |es|
  {
    if es == [] then (b, st)
    else
      var (b', st') := Apply(b, st, es[0]);
      ApplyAll(b', st', es[1..])
  }

  /** The bytes of a region hold the pattern of its trace id. */
  ghost predicate Patterned(bytes: seq<byte>, r: Region, id: u64)
  {
    r.addr + r.size <= |bytes|
    && forall k: nat {:trigger PatternByte(id, k)} :: k < r.size ==> bytes[r.addr + k] == PatternByte(id, k)
  }

  /** Every pending allocation whose handle is live is a live block that holds its pattern; the others were
      lost to a reset. */
  ghost predicate Holding(b: Buddy, live: map<u64, Pending>, bytes: seq<byte>)
  {
    && (forall id :: id in live ==> live[id].handle <= b.nextId)
    && (forall id :: id in live && live[id].handle in b.live ==>
        Held(b, live[id]) && Patterned(bytes, live[id].region, id))
    && (forall i, j :: i in live && j in live && i != j ==> live[i].handle != live[j].handle)
  }

  /** The rest of the stream checks nothing that a reset took or will take away. */
  ghost predicate SafeFrom(b: Buddy, live: map<u64, Pending>, es: seq<Entry>)
  {
    && !StaleCheck(es, live.Keys)
    && forall id :: id in live && live[id].handle !in b.live ==> !CheckOf(es, {id})
  }

  /** The entry checks an allocation that a reset took away. */
  predicate ChecksLost(b: Buddy, live: map<u64, Pending>, e: Entry)
  {
    IsCheck(e) && e.id in live && live[e.id].handle !in b.live
  }

  ghost predicate Held(b: Buddy, p: Pending)
  {
    p.handle in b.live && Payload(b.live[p.handle]) == p.region
  }

  predicate InBounds(live: map<u64, Pending>, size: nat)
  {
    forall id :: id in live ==> live[id].region.addr + live[id].region.size <= size
  }

  class SequentialReplay {
    const buddy: BA.BuddyAllocator
    const arena: array<byte>
    var live: map<u64, Pending>
    var ops: nat
    var successes: nat
    var failures: nat
    var invariantFailed: bool

    ghost function Current(): StreamState
      reads this
    {
      StreamState(live, ops, successes, failures)
    }

    ghost predicate Valid()
      reads this, buddy, arena
    {
      buddy.Valid() && arena.Length == Pow2(buddy.max) && InBounds(live, arena.Length)
    }

    ghost predicate Clean()
      reads this, buddy, arena
    {
      Holding(buddy.State(), live, arena[..])
    }

    constructor (buddy: BA.BuddyAllocator, arena: array<byte>)
      requires buddy.Valid() && arena.Length == Pow2(buddy.max)
      ensures Valid() && Clean() && !invariantFailed && Current() == StreamState(map[], 0, 0, 0)
      ensures this.buddy == buddy && this.arena == arena
    {
      hide Inv, Pow2, Patterned, Held;
      hide BA.FreeHeaders, BA.LiveHeaders, BA.FreeOf, BA.LiveOf;
      this.buddy, this.arena := buddy, arena;
      live, ops, successes, failures, invariantFailed := map[], 0, 0, 0, false;
    }

    /** write_pattern. */
    method WritePattern(addr: nat, size: nat, id: u64)
      requires addr + size <= arena.Length
      modifies arena
      ensures Patterned(arena[..], Region(addr, size), id)
      ensures forall x :: 0 <= x < arena.Length && !(addr <= x < addr + size) ==> arena[x] == old(arena[x])
    {
      hide PatternState;
      var s: nat := PatternState(id, 0);
      for i := 0 to size
        invariant s == PatternState(id, i)
        invariant forall k: nat {:trigger PatternByte(id, k)} :: k < i ==> arena[addr + k] == PatternByte(id, k)
        invariant forall x :: 0 <= x < arena.Length && !(addr <= x < addr + size) ==> arena[x] == old(arena[x])
      {
        s := NextState(id, i, s);
        arena[addr + i] := TopByte(s);
      }
    }

    /** verify_pattern. */
    method VerifyPattern(addr: nat, size: nat, id: u64) returns (ok: bool)
      requires addr + size <= arena.Length
      ensures ok <==> Patterned(arena[..], Region(addr, size), id)
    {
      hide PatternState;
      var s: nat := PatternState(id, 0);
      for i := 0 to size
        invariant s == PatternState(id, i)
        invariant forall k: nat {:trigger PatternByte(id, k)} :: k < i ==> arena[addr + k] == PatternByte(id, k)
      {
        s := NextState(id, i, s);
        if arena[addr + i] != TopByte(s) {
          assert arena[..][addr + i] != PatternByte(id, i);
          return false;
        }
      }
      ok := true;
    }

    /** apply_entry. The buddy allocator does not support trim and reallocate. */
    method ApplyEntry(e: Entry)
      requires Valid()
      modifies this, buddy, arena
      ensures Valid() && (buddy.State(), Current()) == Apply(old(buddy.State()), old(Current()), e)
      ensures old(Clean()) ==> Clean()
      ensures old(invariantFailed) ==> invariantFailed
      ensures old(Clean()) && invariantFailed ==>
                old(invariantFailed) || ChecksLost(old(buddy.State()), old(live), e)
    {
      hide Inv, Allocate, Free, Reset, Holding, InBounds, Patterned, Pow2;
      hide BA.FreeHeaders, BA.LiveHeaders, BA.Untouched, BA.FreeOf, BA.LiveOf;
      ops := ops + 1;
      if e.op == ALLOCATE {
        AllocateEntry(e);
      } else if e.op == FREE {
        FreeEntry(e);
      } else if e.op == REALLOCATE {
        if e.id in live {
          var p := live[e.id];
          BoundOf(live, arena.Length, e.id);
          var ok := VerifyPattern(p.region.addr, p.region.size, e.id);
          if old(Clean()) { HeldPattern(buddy.State(), live, arena[..], e.id); }
          if !ok { invariantFailed := true; }
        }
        failures := failures + 1;
      } else if e.op == TRIM {
        failures := failures + 1;
      } else if e.op == RESET {
        ghost var b := buddy.State();
        buddy.Reset();
        if old(Clean()) { ResetHolds(b, buddy.State(), live, arena[..]); }
      }
    }

    method AllocateEntry(e: Entry)
      requires Valid() && e.op == ALLOCATE
      modifies this`live, this`successes, this`failures, buddy, arena
      ensures Valid() && (buddy.State(), Current().(ops := ops + 1)) == Apply(old(buddy.State()), old(Current()), e)
      ensures old(Clean()) ==> Clean()
    {
      hide Inv, Allocate, Holding, InBounds, Patterned, Pow2, GrantedWell, Partition, Balance, Books;
      hide BA.FreeHeaders, BA.LiveHeaders, BA.Untouched, BA.FreeOf, BA.LiveOf;
      ghost var b := buddy.State();
      ghost var bytes := arena[..];
      AllocateKeeps(b, e.size, e.alignment);
      var r := buddy.Allocate(e.size, e.alignment);
      if r.Granted? {
        GrantedInArena(b, e.size, buddy.State(), r);
        live := live[e.id := Pending(r.id, Region(r.addr, r.size))];
        successes := successes + 1;
        BoundAdded(old(live), arena.Length, e.id, live[e.id]);
        WritePattern(r.addr, r.size, e.id);
        if old(Clean()) {
          GrantHolds(b, e.size, buddy.State(), r, old(live), bytes, arena[..], e.id);
        }
      } else {
        failures := failures + 1;
        if old(Clean()) { SameLive(b, buddy.State(), live, arena[..]); }
      }
    }

    method FreeEntry(e: Entry)
      requires Valid() && e.op == FREE
      modifies this`live, this`successes, this`failures, this`invariantFailed, buddy
      ensures Valid() && (buddy.State(), Current().(ops := ops + 1)) == Apply(old(buddy.State()), old(Current()), e)
      ensures old(Clean()) ==> Clean()
      ensures old(invariantFailed) ==> invariantFailed
      ensures old(Clean()) && invariantFailed ==>
                old(invariantFailed) || ChecksLost(old(buddy.State()), old(live), e)
    {
      hide Inv, Free, Holding, InBounds, Patterned, Pow2, Partition, Balance, Books;
      hide BA.FreeHeaders, BA.LiveHeaders, BA.Untouched, BA.FreeOf, BA.LiveOf;
      if e.id !in live {
        failures := failures + 1;
        return;
      }
      var p := live[e.id];
      ghost var b := buddy.State();
      BoundOf(live, arena.Length, e.id);
      if e.size != 0 {
        var ok := VerifyPattern(p.region.addr, p.region.size, e.id);
        if old(Clean()) { HeldPattern(b, live, arena[..], e.id); }
        if !ok { invariantFailed := true; }
      }
      FreeKeeps(b, p.handle);
      FreeNext(b, p.handle);
      var err := buddy.Free(p.handle);
      if err == Status.Ok { successes := successes + 1; } else { failures := failures + 1; }
      live := live - {e.id};
      BoundFewer(old(live), arena.Length, e.id);
      if old(Clean()) { FreeHolds(b, buddy.State(), old(live), arena[..], e.id); }
    }

    /** The loop of run_replay. No pattern check fails if the entries check nothing across a reset. */
    method RunReplay(entries: seq<Entry>)
      requires Valid()
      modifies this, buddy, arena
      ensures Valid() && (buddy.State(), Current()) == ApplyAll(old(buddy.State()), old(Current()), entries)
      ensures old(Clean()) ==> Clean()
      ensures old(Clean()) && SafeFrom(old(buddy.State()), old(live), entries) ==>
          invariantFailed == old(invariantFailed)
      ensures old(Clean()) && old(live) == map[] && !StaleCheck(entries, {}) ==>
          invariantFailed == old(invariantFailed)
    {
      hide Apply, Holding, Inv, InBounds, StaleCheck, CheckOf, SafeFrom, ChecksLost;
      ghost var safe := SafeFrom(buddy.State(), live, entries);
      ghost var b0, st0 := buddy.State(), Current();
      ghost var clean := Clean();
      if live == map[] && !StaleCheck(entries, {}) { FreshSafe(buddy.State(), live, entries); }
      assert entries[0..] == entries;
      var i := 0;
      while i < |entries|
        invariant i <= |entries| && Valid()
        invariant ApplyAll(buddy.State(), Current(), entries[i..]) == ApplyAll(b0, st0, entries)
        invariant clean ==> Clean()
        invariant clean && safe ==>
            SafeFrom(buddy.State(), live, entries[i..]) && invariantFailed == old(invariantFailed)
        invariant old(invariantFailed) ==> invariantFailed
      {
        assert entries[i..][1..] == entries[i + 1..] && entries[i..][0] == entries[i];
        ghost var b, st := buddy.State(), Current();
        if clean && safe {
          HandlesApart(b, live, arena[..]);
          SafeNext(b, st, entries[i..]);
          LostChecked(b, live, entries[i..]);
        }
        ApplyEntry(entries[i]);
        assert Current().live == live;
        i := i + 1;
      }
    }
  }

  lemma BoundOf(live: map<u64, Pending>, size: nat, id: u64)
    requires InBounds(live, size) && id in live
    ensures live[id].region.addr + live[id].region.size <= size
  {
  }

  lemma BoundAdded(live: map<u64, Pending>, size: nat, id: u64, p: Pending)
    requires InBounds(live, size) && p.region.addr + p.region.size <= size
    ensures InBounds(live[id := p], size)
  {
  }

  lemma BoundFewer(live: map<u64, Pending>, size: nat, id: u64)
    requires InBounds(live, size)
    ensures InBounds(live - {id}, size)
  {
  }

  /** A pending allocation that is live still has its pattern. */
  lemma HeldPattern(b: Buddy, live: map<u64, Pending>, bytes: seq<byte>, id: u64)
    requires id in live && Holding(b, live, bytes)
    ensures live[id].handle in b.live ==> Patterned(bytes, live[id].region, id)
  {
    hide Patterned, Held;
  }

  lemma FreshSafe(b: Buddy, live: map<u64, Pending>, es: seq<Entry>)
    requires live == map[] && !StaleCheck(es, {})
    ensures SafeFrom(b, live, es)
  {
    hide StaleCheck;
    assert live.Keys == {};
  }

  lemma HandlesApart(b: Buddy, live: map<u64, Pending>, bytes: seq<byte>)
    requires Holding(b, live, bytes)
    ensures forall i, j :: i in live && j in live && i != j ==> live[i].handle != live[j].handle
  {
    hide Patterned, Held;
  }

  lemma FreeNext(b: Buddy, h: nat)
    ensures Free(b, h).0.nextId == b.nextId
  {
    hide Coalesce, Merges;
  }

  lemma LostChecked(b: Buddy, live: map<u64, Pending>, es: seq<Entry>)
    requires es != [] && SafeFrom(b, live, es)
    ensures !ChecksLost(b, live, es[0])
  {
    hide StaleCheck;
  }

  /** What the rest of the stream may check stays safe. */
  lemma SafeNext(b: Buddy, st: StreamState, es: seq<Entry>)
    requires Inv(b) && es != [] && SafeFrom(b, st.live, es)
    requires forall i, j :: i in st.live && j in st.live && i != j ==> st.live[i].handle != st.live[j].handle
    ensures var (b', st') := Apply(b, st, es[0]); SafeFrom(b', st'.live, es[1..])
  {
    hide Inv, Allocate, Free, Partition, Balance, GrantedWell, StaleCheck, CheckOf, IsCheck, Books;
    var e, rest := es[0], es[1..];
    var (b', st') := Apply(b, st, e);
    if e.op == ALLOCATE {
      AllocateKeeps(b, e.size, e.alignment);
      AllocateLive(b, e.size, e.alignment);
    }
    if e.op == FREE && e.id in st.live { FreeKeeps(b, st.live[e.id].handle); }
    SafeUnfold(es, st.live.Keys);
    if StaleCheck(rest, st'.live.Keys) { StaleMono(rest, st'.live.Keys, Table(st.live.Keys, e)); }
    forall id | id in st'.live && st'.live[id].handle !in b'.live ensures !CheckOf(rest, {id}) {
      CheckUnfold(es, id);
      if CheckOf(rest, {id}) && e.op == RESET { CheckOfMono(rest, {id}, st.live.Keys); }
    }
  }

  lemma AllocateLive(b: Buddy, size: nat, alignment: nat)
    requires Inv(b)
    ensures var (b', r) := Allocate(b, size, alignment);
            && (r.Granted? ==> r.id in b'.live) && forall h :: h in b.live ==> h in b'.live
  {
    hide Inv, Allocate, Partition, Balance, OrderFor, Fits;
    AllocateKeeps(b, size, alignment);
    var (b', r) := Allocate(b, size, alignment);
    if r.Granted? { assert b'.live == b.live[r.id := b'.live[r.id]]; } else { assert b'.live == b.live; }
  }

  lemma SafeUnfold(es: seq<Entry>, table: set<u64>)
    requires es != [] && !StaleCheck(es, table)
    ensures !StaleCheck(es[1..], Table(table, es[0])) && (es[0].op == RESET ==> !CheckOf(es[1..], table))
  {
    hide CheckOf;
  }

  lemma CheckUnfold(es: seq<Entry>, id: u64)
    requires es != []
    ensures !(es[0].op == FREE && es[0].id == id) && CheckOf(es[1..], {id}) ==> CheckOf(es, {id})
  {
    if es[0].op != FREE || es[0].id != id { assert Left({id}, es[0]) == {id}; }
  }

  lemma ResetHolds(b: Buddy, b': Buddy, live: map<u64, Pending>, bytes: seq<byte>)
    requires Holding(b, live, bytes) && b' == Reset(b)
    ensures Holding(b', live, bytes)
  {
    hide Patterned, Payload;
  }

  lemma GrantedInArena(b: Buddy, size: nat, b': Buddy, r: Outcome)
    requires r.Granted? && GrantedWell(b, size, b', r)
    ensures r.addr + r.size <= Pow2(b.max)
  {
    hide OrderFor;
    assert Fits(b'.live[r.id], b.max);
  }

  lemma GrantHolds(b: Buddy, size: nat, b': Buddy, r: Outcome, live: map<u64, Pending>, bytes: seq<byte>,
      bytes': seq<byte>, id: u64)
    requires Inv(b) && r.Granted? && GrantedWell(b, size, b', r) && Holding(b, live, bytes) && |bytes'| == |bytes|
    requires forall x :: 0 <= x < |bytes| && !(r.addr <= x < r.addr + r.size) ==> bytes'[x] == bytes[x]
    requires Patterned(bytes', Region(r.addr, r.size), id)
    ensures Holding(b', live[id := Pending(r.id, Region(r.addr, r.size))], bytes')
  {
    hide Inv, OrderFor, Patterned, Payload, Fits;
    var live' := live[id := Pending(r.id, Region(r.addr, r.size))];
    GrantedPayload(b'.live[r.id], r, size);
    forall j | j in live' && live'[j].handle in b'.live
      ensures Held(b', live'[j]) && Patterned(bytes', live'[j].region, j)
    {
      if j != id { OtherHolds(b, size, b', r, live[j], bytes, bytes', j); }
    }
  }

  lemma OtherHolds(b: Buddy, size: nat, b': Buddy, r: Outcome, p: Pending, bytes: seq<byte>, bytes': seq<byte>,
      j: u64)
    requires Inv(b) && r.Granted? && GrantedWell(b, size, b', r) && |bytes'| == |bytes|
    requires Held(b, p) && Patterned(bytes, p.region, j)
    requires forall x :: 0 <= x < |bytes| && !(r.addr <= x < r.addr + r.size) ==> bytes'[x] == bytes[x]
    ensures Held(b', p) && Patterned(bytes', p.region, j)
  {
    hide Inv, OrderFor, Payload, Fits, PatternByte;
    LiveOrder(b, p.handle);
    NeedBounds(size);
    GrantedPayload(b'.live[r.id], r, size);
    PayloadsDisjoint(b.live[p.handle], b'.live[r.id]);
    assert p.region.Disjoint(Region(r.addr, r.size));
    forall k: nat | k < p.region.size ensures bytes'[p.region.addr + k] == PatternByte(j, k) {
      assert bytes[p.region.addr + k] == PatternByte(j, k);
    }
  }

  lemma SameLive(b: Buddy, b': Buddy, live: map<u64, Pending>, bytes: seq<byte>)
    requires Holding(b, live, bytes) && b'.live == b.live && b.nextId <= b'.nextId
    ensures Holding(b', live, bytes)
  {
    hide Patterned, Payload;
  }

  lemma FreeHolds(b: Buddy, b': Buddy, live: map<u64, Pending>, bytes: seq<byte>, id: u64)
    requires Holding(b, live, bytes) && id in live && b'.live == b.live - {live[id].handle} && b.nextId <= b'.nextId
    ensures Holding(b', live - {id}, bytes)
  {
    hide Patterned, Payload;
  }

  function TopByte(s: nat): byte
    requires s < WORD
  {
    s / 0x100_0000_0000_0000
  }

  // `s = s * 6364136223846793005 + 1442695040888963407`.
  method NextState(ghost id: u64, ghost i: nat, s: nat) returns (t: nat)
    requires s == PatternState(id, i)
    ensures t == PatternState(id, i + 1) && t < WORD && TopByte(t) == PatternByte(id, i)
  {
    t := (s * 6364136223846793005 + 1442695040888963407) % WORD;
  }

  // ---- the whole run ----

  /** The allocator's live blocks are those from before plus one for each pending allocation. */
  ghost predicate Ledger(before: map<nat, Blk>, now: map<nat, Blk>, pending: map<u64, Pending>)
  {
    && (forall h :: h in before ==> h in now && now[h] == before[h])
    && (forall id :: id in pending ==> pending[id].handle in now && pending[id].handle !in before)
    && (forall h :: h in now && h !in before ==> exists id :: id in pending && pending[id].handle == h)
    && (forall i, j :: i in pending && j in pending && i != j ==> pending[i].handle != pending[j].handle)
  }

  lemma LedgerAdd(before: map<nat, Blk>, now: map<nat, Blk>, pending: map<u64, Pending>, id: u64, p: Pending, c: Blk)
    requires Ledger(before, now, pending) && id !in pending && p.handle !in now
    ensures Ledger(before, now[p.handle := c], pending[id := p])
  {
    var pending' := pending[id := p];
    forall h | h in now[p.handle := c] && h !in before ensures exists i :: i in pending' && pending'[i].handle == h {
      if h == p.handle { assert pending'[id].handle == h; }
      else { var i :| i in pending && pending[i].handle == h; assert i in pending' && pending'[i].handle == h; }
    }
  }

  lemma LedgerRemove(before: map<nat, Blk>, now: map<nat, Blk>, pending: map<u64, Pending>, id: u64)
    requires Ledger(before, now, pending) && id in pending
    ensures Ledger(before, now - {pending[id].handle}, pending - {id})
  {
    var now', pending' := now - {pending[id].handle}, pending - {id};
    forall h | h in now' && h !in before ensures exists i :: i in pending' && pending'[i].handle == h {
      var i :| i in pending && pending[i].handle == h;
      assert i in pending' && pending'[i].handle == h;
    }
  }

  /** One valid entry keeps the ledger, and the table within the ids the validator has live. */
  lemma ApplyLedger(before: map<nat, Blk>, b: Buddy, st: StreamState, live: map<u64, u64>, e: Entry)
    requires Inv(b) && Ledger(before, b.live, st.live) && st.live.Keys <= live.Keys
    requires Check(live, e) == Accepted && e.op != RESET
    ensures var (b', st') := Apply(b, st, e);
            Inv(b') && Ledger(before, b'.live, st'.live) && st'.live.Keys <= Next(live, e).Keys
  {
    hide Inv, Allocate, Free, Ledger, Partition, Balance, IsPowerOfTwo, OrderFor, Fits;
    if e.op == ALLOCATE {
      AllocateKeeps(b, e.size, e.alignment);
      var (b', r) := Allocate(b, e.size, e.alignment);
      if r.Granted? {
        LedgerAdd(before, b.live, st.live, e.id, Pending(r.id, Region(r.addr, r.size)), b'.live[r.id]);
      }
    } else if e.op == FREE && e.id in st.live {
      FreeKeeps(b, st.live[e.id].handle);
      LedgerRemove(before, b.live, st.live, e.id);
    }
  }

  lemma {:induction false} AllLedger(before: map<nat, Blk>, b: Buddy, st: StreamState, live: map<u64, u64>,
      es: seq<Entry>)
    requires Inv(b) && Ledger(before, b.live, st.live) && st.live.Keys <= live.Keys
    requires CheckFrom(live, es) == Accepted && LiveAfter(live, es) == map[] && NoReset(es)
    ensures ApplyAll(b, st, es).0.live == before && ApplyAll(b, st, es).1.live == map[]
    decreases |es|
  {
    hide Inv, Apply, Ledger, Check, Next;
    if es == [] {
      assert st.live.Keys == {};
      LedgerEmpty(before, b.live, st.live);
    } else {
      ApplyLedger(before, b, st, live, es[0]);
      var (b', st') := Apply(b, st, es[0]);
      AllLedger(before, b', st', Next(live, es[0]), es[1..]);
    }
  }

  lemma LedgerEmpty(before: map<nat, Blk>, now: map<nat, Blk>, pending: map<u64, Pending>)
    requires Ledger(before, now, pending) && pending.Keys == {}
    ensures now == before && pending == map[]
  {
  }

  /** No leak: a valid, balanced, reset-free trace leaves exactly the blocks live that were live
      before, however many of its allocations failed. */
  lemma SequentialNoLeak(b: Buddy, es: seq<Entry>)
    requires Inv(b) && CheckFrom(map[], es) == Accepted && LiveAfter(map[], es) == map[] && NoReset(es)
    ensures ApplyAll(b, StreamState(map[], 0, 0, 0), es).0.live == b.live
        && ApplyAll(b, StreamState(map[], 0, 0, 0), es).1.live == map[]
  {
    hide Inv, CheckFrom, LiveAfter;
    AllLedger(b.live, b, StreamState(map[], 0, 0, 0), map[], es);
  }

  /** Every entry is one operation; every allocate, free and reallocate is one success or one failure. */
  lemma {:induction false} SequentialCounts(b: Buddy, st: StreamState, es: seq<Entry>)
    requires ReplayBalance.NoTrimReset(es)
    ensures var st' := ApplyAll(b, st, es).1;
            && st'.ops == st.ops + |es|
            && st'.successes + st'.failures == st.successes + st.failures + ReplayBalance.CountMain(es)
    decreases |es|
  {
    hide Allocate, Free, Reset;
    if es != [] {
      var (b', st') := Apply(b, st, es[0]);
      SequentialCounts(b', st', es[1..]);
    }
  }

  // ---- the partition of run_concurrent ----

  lemma {:induction false} StreamSnoc(es: seq<Entry>, e: Entry, threads: nat, w: nat)
    requires threads > 0
    ensures Traces.Stream(es + [e], threads, w)
         == Traces.Stream(es, threads, w) + if e.worker % threads == w then [e] else []
  {
    if es == [] {
      assert es + [e] == [e] && [e][1..] == [];
    } else {
      StreamSnoc(es[1..], e, threads, w);
      assert (es + [e])[1..] == es[1..] + [e];
    }
  }

  /** One queue for each worker thread, in trace order; no threads count as one. */
  method PartitionEntries(entries: seq<Entry>, threads: u32) returns (queues: seq<seq<Entry>>)
    ensures |queues| == if threads == 0 then 1 else threads
    ensures forall w :: 0 <= w < |queues| ==> queues[w] == Traces.Stream(entries, |queues|, w)
  {
    var n: nat := if threads == 0 then 1 else threads;
    queues := seq(n, i => []);
    var i := 0;
    while i < |entries|
      invariant i <= |entries| && |queues| == n
      invariant forall w :: 0 <= w < n ==> queues[w] == Traces.Stream(entries[..i], n, w)
    {
      var e := entries[i];
      var w := e.worker % n;
      assert entries[..i + 1] == entries[..i] + [e];
      forall k: nat | k < n ensures Traces.Stream(entries[..i + 1], n, k) ==
          queues[k] + if e.worker % n == k then [e] else [] {
        StreamSnoc(entries[..i], e, n, k);
      }
      queues := queues[w := queues[w] + [e]];
      i := i + 1;
    }
    assert entries[..i] == entries;
  }
}
