/** Allocation traces: the entry format, the validator of trace.cpp, and what it accepts. */
module Traces {
  import opened Bits

  const TRACE_VERSION: u32 := 1
  const TRACE_MAGIC: u32 := 0x414C5452

  // TraceOperationType: the enum is a 16-bit number, so out-of-range values exist.
  const ALLOCATE: u16 := 0
  const FREE: u16 := 1
  const REALLOCATE: u16 := 2
  const TRIM: u16 := 3
  const RESET: u16 := 4
  const PHASE_MARKER: u16 := 6
  // MemoryDomain::Mapped, the last domain.
  const MAPPED: u16 := 5

  datatype Entry = Entry(
    seqNo: u64, step: u64, op: u16, id: u64, size: u64, alignment: u64, domain: u16,
    worker: u32, tag: u32, hasStatus: bool, statusSuccess: bool, errorCode: u16)

  datatype Trace = Trace(version: u32, seed: u64, name: Text, entries: seq<Entry>)

  datatype Reason =
    | UnsupportedVersion | ReservedId | BadOp | BadDomain | BadAlignment
    | DuplicateLive | FreeOfNonLive | ReallocateOfNonLive | SizeRecordConflict
    | BadMagic | Truncated | OversizedName | TrailingBytes
    | NotAnObject | BadField

  datatype Verdict = Accepted | Malformed(why: Reason) | Rejected(why: Reason)

  /** The outcome of reading a serialized trace. */
  datatype Decoded = Ok(trace: Trace) | Error(why: Verdict)

  // ---- the set-based specification ----

  function Check(live: map<u64, u64>, e: Entry): Verdict
  {
    if e.id == 0 then Malformed(ReservedId)
    else if e.op > PHASE_MARKER then Malformed(BadOp)
    else if e.domain > MAPPED then Malformed(BadDomain)
    else if (e.op == ALLOCATE || e.op == REALLOCATE) && e.alignment != 0 && !IsPowerOfTwo(e.alignment) then
      Malformed(BadAlignment)
    else if e.op == ALLOCATE && e.id in live then Rejected(DuplicateLive)
    else if e.op == FREE && e.id !in live then Rejected(FreeOfNonLive)
    else if e.op == REALLOCATE && e.id !in live then Rejected(ReallocateOfNonLive)
    else Accepted
  }

  /** The live ids with their sizes after an accepted entry. */
  function Next(live: map<u64, u64>, e: Entry): map<u64, u64>
  {
    if e.op == ALLOCATE || e.op == REALLOCATE then live[e.id := e.size]
    else if e.op == FREE then live - {e.id}
    else live
  }

  function CheckFrom(live: map<u64, u64>, es: seq<Entry>): Verdict
    decreases |es|
  {
    if es == [] then Accepted
    else if Check(live, es[0]) != Accepted then Check(live, es[0])
    else CheckFrom(Next(live, es[0]), es[1..])
  }

  function LiveAfter(live: map<u64, u64>, es: seq<Entry>): map<u64, u64>
    decreases |es|
  {
    if es == [] then live else LiveAfter(Next(live, es[0]), es[1..])
  }

  function CheckTrace(t: Trace): Verdict
  {
    if t.version != TRACE_VERSION then Rejected(UnsupportedVersion) else CheckFrom(map[], t.entries)
  }

  predicate Valid(t: Trace) { CheckTrace(t) == Accepted }

  /** A trace that frees everything it allocates. */
  predicate Balanced(t: Trace) { LiveAfter(map[], t.entries) == map[] }

  // ---- the validator object ----

  class TraceReplayValidator {
    var liveIds: seq<u64>
    var live: nat
    var processed: nat

    ghost predicate Valid()
      reads this
    {
      live == |liveIds| && Distinct(liveIds)
    }

    ghost function Ids(): set<u64>
      reads this
    {
      set x | x in liveIds
    }

    constructor ()
      ensures Valid() && Ids() == {} && processed == 0
    {
      liveIds, live, processed := [], 0, 0;
    }

    method IsLive(id: u64) returns (found: bool)
      ensures found <==> id in Ids()
    {
      for i := 0 to |liveIds|
        invariant forall j :: 0 <= j < i ==> liveIds[j] != id
      {
        if liveIds[i] == id { return true; }
      }
      return false;
    }

    /** One entry: track the live ids in a vector that removes by swapping with the last. */
    method Validate(e: Entry) returns (r: Verdict)
      requires Valid()
      modifies this
      ensures Valid() && processed == old(processed) + 1
      ensures r == if e.op == ALLOCATE && e.id in old(Ids()) then Rejected(DuplicateLive)
                   else if e.op == FREE && e.id !in old(Ids()) then Rejected(FreeOfNonLive)
                   else if e.op == REALLOCATE && e.id !in old(Ids()) then Rejected(ReallocateOfNonLive)
                   else Accepted
      ensures Ids() == if r != Accepted then old(Ids())
                       else if e.op == ALLOCATE then old(Ids()) + {e.id}
                       else if e.op == FREE then old(Ids()) - {e.id}
                       else old(Ids())
    {
      processed := processed + 1;
      if e.op == ALLOCATE {
        var found := IsLive(e.id);
        if found { return Rejected(DuplicateLive); }
        liveIds := liveIds + [e.id];
        live := live + 1;
      } else if e.op == FREE {
        var found := IsLive(e.id);
        if !found { return Rejected(FreeOfNonLive); }
        RemoveId(e.id);
        live := live - 1;
      } else if e.op == REALLOCATE {
        var found := IsLive(e.id);
        if !found { return Rejected(ReallocateOfNonLive); }
      }
      r := Accepted;
    }

    method RemoveId(id: u64)
      requires Distinct(liveIds) && id in liveIds
      modifies this`liveIds
      ensures Distinct(liveIds) && |liveIds| == |old(liveIds)| - 1
      ensures (set x | x in liveIds) == (set x | x in old(liveIds)) - {id}
    {
      ghost var ids := liveIds;
      var i := 0;
      while liveIds[i] != id
        invariant 0 <= i < |liveIds| && id in liveIds[i..]
        decreases |liveIds| - i
      {
        i := i + 1;
      }
      SwapRemoveSet(liveIds, i);
      liveIds := SwapRemove(liveIds, i);
    }
  }

  ghost predicate Distinct<T>(s: seq<T>)
  {
    forall i, j :: 0 <= i < j < |s| ==> s[i] != s[j]
  }

  /** `v[i] = v.back(); v.pop_back();` */
  function SwapRemove<T>(s: seq<T>, i: nat): seq<T>
    requires i < |s|
  {
    s[i := s[|s| - 1]][..|s| - 1]
  }

  lemma SwapRemoveSet<T>(s: seq<T>, i: nat)
    requires i < |s| && Distinct(s)
    ensures Distinct(SwapRemove(s, i))
    ensures forall x :: x in SwapRemove(s, i) <==> x in s && x != s[i]
  {
    var r := SwapRemove(s, i);
    forall x | x in s && x != s[i] ensures x in r {
      var j :| 0 <= j < |s| && s[j] == x;
      if j == |s| - 1 { assert r[i] == x; } else { assert r[j] == x; }
    }
  }

  // ---- validate_trace ----

  datatype SizeRecord = SizeRecord(id: u64, size: u64)

  /** The vector of (id, size) pairs holds the map m, one pair per key. */
  ghost predicate Records(v: seq<SizeRecord>, m: map<u64, u64>)
  {
    && (forall i, j :: 0 <= i < j < |v| ==> v[i].id != v[j].id)
    && (forall i :: 0 <= i < |v| ==> v[i].id in m && m[v[i].id] == v[i].size)
    && (forall k :: k in m ==> exists i :: 0 <= i < |v| && v[i].id == k)
  }

  method FindRecord(v: seq<SizeRecord>, id: u64) returns (i: nat)
    ensures i <= |v| && (i < |v| ==> v[i].id == id)
    ensures i == |v| ==> forall j :: 0 <= j < |v| ==> v[j].id != id
  {
    i := 0;
    while i < |v| && v[i].id != id
      invariant i <= |v| && forall j :: 0 <= j < i ==> v[j].id != id
    {
      i := i + 1;
    }
  }

  lemma AppendRecord(v: seq<SizeRecord>, m: map<u64, u64>, id: u64, size: u64)
    requires Records(v, m) && id !in m
    ensures Records(v + [SizeRecord(id, size)], m[id := size])
  {
    var v' := v + [SizeRecord(id, size)];
    var m' := m[id := size];
    forall k | k in m' ensures exists i :: 0 <= i < |v'| && v'[i].id == k {
      if k == id { assert v'[|v|].id == k; }
      else {
        var i :| 0 <= i < |v| && v[i].id == k;
        assert v'[i].id == k;
      }
    }
  }

  lemma EraseRecord(v: seq<SizeRecord>, m: map<u64, u64>, i: nat)
    requires Records(v, m) && i < |v|
    ensures Records(v[..i] + v[i + 1..], m - {v[i].id})
  {
    var v', id := v[..i] + v[i + 1..], v[i].id;
    forall k | k in m - {id} ensures exists j :: 0 <= j < |v'| && v'[j].id == k {
      var j :| 0 <= j < |v| && v[j].id == k;
      if j < i { assert v'[j].id == k; } else { assert v'[j - 1].id == k; }
    }
  }

  lemma UpdateRecord(v: seq<SizeRecord>, m: map<u64, u64>, i: nat, size: u64)
    requires Records(v, m) && i < |v|
    ensures Records(v[i := SizeRecord(v[i].id, size)], m[v[i].id := size])
  {
    var v' := v[i := SizeRecord(v[i].id, size)];
    forall k | k in m ensures exists j :: 0 <= j < |v'| && v'[j].id == k {
      var j :| 0 <= j < |v| && v[j].id == k;
      assert v'[j].id == k;
    }
  }

  /** The separate size vector always mirrors the live set, so the `SizeRecordConflict`
      branch is unreachable and the loop decides exactly the set-based specification. */
  method ValidateTrace(t: Trace) returns (r: Verdict)
    ensures r == CheckTrace(t)
    ensures r != Malformed(SizeRecordConflict)
  {
    CheckNeverConflicts(map[], t.entries);
    if t.version != TRACE_VERSION { return Rejected(UnsupportedVersion); }
    if |t.entries| == 0 { return Accepted; }
    var v := new TraceReplayValidator();
    var sizes: seq<SizeRecord> := [];
    ghost var live: map<u64, u64> := map[];
    for i := 0 to |t.entries|
      invariant v.Valid() && fresh(v) && v.Ids() == live.Keys && Records(sizes, live)
      invariant CheckFrom(map[], t.entries) == CheckFrom(live, t.entries[i..])
    {
      var e := t.entries[i];
      assert t.entries[i..][0] == e && t.entries[i..][1..] == t.entries[i + 1..];
      if e.id == 0 { return Malformed(ReservedId); }
      if e.op > PHASE_MARKER { return Malformed(BadOp); }
      if e.domain > MAPPED { return Malformed(BadDomain); }
      if e.op == ALLOCATE || e.op == REALLOCATE {
        if e.alignment != 0 && !IsPowerOfTwo(e.alignment) { return Malformed(BadAlignment); }
      }
      var err := v.Validate(e);
      if err != Accepted { return err; }
      if e.op == ALLOCATE {
        var k := FindRecord(sizes, e.id);
        if k < |sizes| { return Malformed(SizeRecordConflict); }
        AppendRecord(sizes, live, e.id, e.size);
        sizes := sizes + [SizeRecord(e.id, e.size)];
      } else if e.op == FREE {
        var k := FindRecord(sizes, e.id);
        if k < |sizes| {
          EraseRecord(sizes, live, k);
          sizes := sizes[..k] + sizes[k + 1..];
        }
      } else if e.op == REALLOCATE {
        var k := FindRecord(sizes, e.id);
        if k < |sizes| {
          UpdateRecord(sizes, live, k, e.size);
          sizes := sizes[k := SizeRecord(sizes[k].id, e.size)];
        }
      }
      live := Next(live, e);
    }
    r := Accepted;
  }

  lemma {:induction false} CheckNeverConflicts(live: map<u64, u64>, es: seq<Entry>)
    ensures CheckFrom(live, es) != Malformed(SizeRecordConflict)
    decreases |es|
  {
    if es != [] { CheckNeverConflicts(Next(live, es[0]), es[1..]); }
  }

  // ---- acceptance, read off the whole trace ----

  /** Entry j allocated the id and no entry in (j, i) freed it. */
  ghost predicate AllocatedAt(es: seq<Entry>, i: nat, id: u64, j: nat)
    requires i <= |es|
  {
    j < i && es[j].op == ALLOCATE && es[j].id == id
    && forall k :: j < k < i ==> !(es[k].op == FREE && es[k].id == id)
  }

  ghost predicate LiveAt(es: seq<Entry>, i: nat, id: u64)
    requires i <= |es|
  {
    exists j: nat :: AllocatedAt(es, i, id, j)
  }

  predicate WellFormed(e: Entry)
  {
    && e.id != 0 && e.op <= PHASE_MARKER && e.domain <= MAPPED
    && ((e.op == ALLOCATE || e.op == REALLOCATE) && e.alignment != 0 ==> IsPowerOfTwo(e.alignment))
  }

  ghost predicate EntryOk(es: seq<Entry>, i: nat)
    requires i < |es|
  {
    && WellFormed(es[i])
    && (es[i].op == ALLOCATE ==> !LiveAt(es, i, es[i].id))
    && (es[i].op == FREE || es[i].op == REALLOCATE ==> LiveAt(es, i, es[i].id))
  }

  lemma {:induction false} CheckFromSplit(live: map<u64, u64>, es: seq<Entry>, i: nat)
    requires i <= |es|
    ensures CheckFrom(live, es[..i]) == Accepted ==>
              CheckFrom(live, es) == CheckFrom(LiveAfter(live, es[..i]), es[i..])
    ensures CheckFrom(live, es[..i]) != Accepted ==> CheckFrom(live, es) == CheckFrom(live, es[..i])
    decreases |es|
  {
    if i == 0 {
      assert es[..0] == [] && es[0..] == es;
    } else {
      assert es[..i][0] == es[0] && es[..i][1..] == es[1..][..i - 1] && es[1..][i - 1..] == es[i..];
      CheckFromSplit(Next(live, es[0]), es[1..], i - 1);
    }
  }

  lemma {:induction false} LiveAfterSplit(live: map<u64, u64>, es: seq<Entry>, i: nat)
    requires i <= |es|
    ensures LiveAfter(live, es) == LiveAfter(LiveAfter(live, es[..i]), es[i..])
    decreases |es|
  {
    if i == 0 {
      assert es[..0] == [] && es[0..] == es;
    } else {
      assert es[..i][0] == es[0] && es[..i][1..] == es[1..][..i - 1] && es[1..][i - 1..] == es[i..];
      LiveAfterSplit(Next(live, es[0]), es[1..], i - 1);
    }
  }

  lemma LiveStep(es: seq<Entry>, i: nat, id: u64)
    requires i < |es|
    ensures LiveAt(es, i + 1, id) <==>
              (es[i].op == ALLOCATE && es[i].id == id)
              || (LiveAt(es, i, id) && !(es[i].op == FREE && es[i].id == id))
  {
    if es[i].op == ALLOCATE && es[i].id == id { assert AllocatedAt(es, i + 1, id, i); }
    else if LiveAt(es, i, id) && !(es[i].op == FREE && es[i].id == id) {
      var j: nat :| AllocatedAt(es, i, id, j);
      assert AllocatedAt(es, i + 1, id, j);
    } else if LiveAt(es, i + 1, id) {
      var j: nat :| AllocatedAt(es, i + 1, id, j);
      assert AllocatedAt(es, i, id, j);
      assert false;
    }
  }

  /** After i accepted entries the live map holds exactly the ids allocated and not freed since. */
  lemma {:induction false} LiveAfterMeaning(es: seq<Entry>, i: nat)
    requires i <= |es|
    requires forall k :: 0 <= k < i ==> EntryOk(es, k)
    ensures CheckFrom(map[], es[..i]) == Accepted
    ensures forall id :: id in LiveAfter(map[], es[..i]) <==> LiveAt(es, i, id)
    decreases i
  {
    if i > 0 {
      LiveAfterMeaning(es, i - 1);
      assert EntryOk(es, i - 1);
      var pre := es[..i];
      assert pre[..i - 1] == es[..i - 1] && pre[i - 1..] == [es[i - 1]];
      CheckFromSplit(map[], pre, i - 1);
      LiveAfterSplit(map[], pre, i - 1);
      LastStep(LiveAfter(map[], es[..i - 1]), es[i - 1]);
      forall id ensures id in LiveAfter(map[], es[..i]) <==> LiveAt(es, i, id) { LiveStep(es, i - 1, id); }
    }
  }

  lemma LastStep(live: map<u64, u64>, e: Entry)
    ensures CheckFrom(live, [e]) == Check(live, e) && LiveAfter(live, [e]) == Next(live, e)
  {
    assert [e][1..] == [];
    assert CheckFrom(Next(live, e), []) == Accepted && LiveAfter(Next(live, e), []) == Next(live, e);
  }

  /** A trace is accepted exactly when its version is known and every entry is well formed,
      allocates an id that is not live, and frees or reallocates one that is. */
  lemma AcceptedMeaning(t: Trace)
    ensures Valid(t) <==> t.version == TRACE_VERSION && forall i :: 0 <= i < |t.entries| ==> EntryOk(t.entries, i)
  {
    var es := t.entries;
    if forall i :: 0 <= i < |es| ==> EntryOk(es, i) {
      LiveAfterMeaning(es, |es|);
      assert es[..|es|] == es;
    } else {
      var i := FirstBad(es);
      LiveAfterMeaning(es, i);
      CheckFromSplit(map[], es, i);
      assert es[i..][0] == es[i];
      assert !EntryOk(es, i);
    }
  }

  lemma FirstBad(es: seq<Entry>) returns (i: nat)
    requires exists k :: 0 <= k < |es| && !EntryOk(es, k)
    ensures i < |es| && !EntryOk(es, i) && forall k :: 0 <= k < i ==> EntryOk(es, k)
  {
    i := 0;
    while EntryOk(es, i)
      invariant i < |es| && forall k :: 0 <= k < i ==> EntryOk(es, k)
      decreases |es| - i
    {
      assert exists k :: i < k < |es| && !EntryOk(es, k);
      i := i + 1;
    }
  }

  /** What the validator says about the first entry that is not in order. */
  ghost predicate ReasonAt(es: seq<Entry>, i: nat, v: Verdict)
    requires i < |es|
  {
    var e := es[i];
    if e.id == 0 then v == Malformed(ReservedId)
    else if e.op > 6 then v == Malformed(BadOp)
    else if e.domain > 5 then v == Malformed(BadDomain)
    else if !WellFormed(e) then v == Malformed(BadAlignment) && (e.op == ALLOCATE || e.op == REALLOCATE)
    else
      || (v == Rejected(DuplicateLive) && e.op == ALLOCATE && LiveAt(es, i, e.id))
      || (v == Rejected(FreeOfNonLive) && e.op == FREE && !LiveAt(es, i, e.id))
      || (v == Rejected(ReallocateOfNonLive) && e.op == REALLOCATE && !LiveAt(es, i, e.id))
  }

  /** A refused trace is refused for its first entry that is not in order, with the reason that fits that entry. */
  lemma RefusedMeaning(t: Trace)
    requires t.version == 1 && !Valid(t)
    ensures exists i :: 0 <= i < |t.entries| && (forall k :: 0 <= k < i ==> EntryOk(t.entries, k))
                        && !EntryOk(t.entries, i) && ReasonAt(t.entries, i, CheckTrace(t))
  {
    hide ReasonAt, CheckFrom;
    AcceptedMeaning(t);
    var i := FirstBad(t.entries);
    ReasonFits(t.entries, i);
  }

  lemma ReasonFits(es: seq<Entry>, i: nat)
    requires i < |es| && (forall k :: 0 <= k < i ==> EntryOk(es, k)) && !EntryOk(es, i)
    ensures ReasonAt(es, i, CheckFrom(map[], es))
  {
    hide LiveAt, IsPowerOfTwo;
    LiveAfterMeaning(es, i);
    CheckFromSplit(map[], es, i);
    var live := LiveAfter(map[], es[..i]);
    assert es[i..][0] == es[i];
    assert es[i].id in live <==> LiveAt(es, i, es[i].id);
    assert Check(live, es[i]) != Accepted;
  }

  lemma {:induction false} CheckedRanges(live: map<u64, u64>, es: seq<Entry>)
    requires CheckFrom(live, es) == Accepted
    ensures forall i :: 0 <= i < |es| ==> es[i].op <= PHASE_MARKER && es[i].domain <= MAPPED
    decreases |es|
  {
    hide IsPowerOfTwo;
    if es != [] { CheckedRanges(Next(live, es[0]), es[1..]); }
  }

  // ---- worker projections ----

  /** Every Free and Reallocate carries the worker of the Allocate it refers to. */
  predicate OwnedFrom(owner: map<u64, u32>, es: seq<Entry>)
    decreases |es|
  {
    es == []
    || (OwnerOk(owner, es[0]) && OwnedFrom(NextOwner(owner, es[0]), es[1..]))
  }

  predicate OwnerOk(owner: map<u64, u32>, e: Entry)
  {
    (e.op == FREE || e.op == REALLOCATE) && e.id in owner ==> owner[e.id] == e.worker
  }

  function NextOwner(owner: map<u64, u32>, e: Entry): map<u64, u32>
  {
    if e.op == ALLOCATE then owner[e.id := e.worker]
    else if e.op == FREE then owner - {e.id}
    else owner
  }

  function OwnerAfter(owner: map<u64, u32>, es: seq<Entry>): map<u64, u32>
    decreases |es|
  {
    if es == [] then owner else OwnerAfter(NextOwner(owner, es[0]), es[1..])
  }

  lemma {:induction false} OwnedSnoc(owner: map<u64, u32>, es: seq<Entry>, e: Entry)
    ensures OwnedFrom(owner, es + [e]) <==> OwnedFrom(owner, es) && OwnerOk(OwnerAfter(owner, es), e)
    ensures OwnerAfter(owner, es + [e]) == NextOwner(OwnerAfter(owner, es), e)
    decreases |es|
  {
    var s := es + [e];
    if es == [] {
      assert s[1..] == [];
      assert OwnedFrom(NextOwner(owner, e), []) && OwnerAfter(NextOwner(owner, e), []) == NextOwner(owner, e);
    } else {
      assert s[0] == es[0] && s[1..] == es[1..] + [e];
      OwnedSnoc(NextOwner(owner, es[0]), es[1..], e);
    }
  }

  /** Appending one entry to an accepted sequence. */
  lemma CheckSnoc(live: map<u64, u64>, es: seq<Entry>, e: Entry)
    requires CheckFrom(live, es) == Accepted
    ensures CheckFrom(live, es + [e]) == Check(LiveAfter(live, es), e)
    ensures LiveAfter(live, es + [e]) == Next(LiveAfter(live, es), e)
  {
    var s := es + [e];
    assert s[..|es|] == es && s[|es|..] == [e];
    CheckFromSplit(live, s, |es|);
    LiveAfterSplit(live, s, |es|);
    LastStep(LiveAfter(live, es), e);
  }

  predicate WorkerConsistent(t: Trace) { OwnedFrom(map[], t.entries) }

  /** The entries that run_concurrent hands to worker stream w of `threads`. */
  function Stream(es: seq<Entry>, threads: nat, w: nat): seq<Entry>
    requires threads > 0
  {
    if es == [] then []
    else if es[0].worker % threads == w then [es[0]] + Stream(es[1..], threads, w)
    else Stream(es[1..], threads, w)
  }

  ghost function OwnedBy(live: map<u64, u64>, owner: map<u64, u32>, threads: nat, w: nat): map<u64, u64>
    requires threads > 0 && live.Keys == owner.Keys
  {
    map id | id in live && owner[id] % threads == w :: live[id]
  }

  /** Each worker's subsequence of a valid, worker-consistent trace is valid by itself, and
      leaves live exactly that worker's share of what the whole trace leaves live. */
  lemma {:induction false} StreamValid(live: map<u64, u64>, owner: map<u64, u32>, es: seq<Entry>, threads: nat,
      w: nat)
    requires threads > 0 && live.Keys == owner.Keys
    requires CheckFrom(live, es) == Accepted && OwnedFrom(owner, es)
    ensures CheckFrom(OwnedBy(live, owner, threads, w), Stream(es, threads, w)) == Accepted
    ensures LiveAfter(live, es) == map[] ==>
        LiveAfter(OwnedBy(live, owner, threads, w), Stream(es, threads, w)) == map[]
    decreases |es|
  {
    hide IsPowerOfTwo;
    var mine := OwnedBy(live, owner, threads, w);
    if es != [] {
      var e := es[0];
      var live', owner' := Next(live, e), NextOwner(owner, e);
      assert live'.Keys == owner'.Keys;
      StreamValid(live', owner', es[1..], threads, w);
      var mine' := OwnedBy(live', owner', threads, w);
      if e.worker % threads == w {
        assert Next(mine, e) == mine';
        var s := Stream(es, threads, w);
        assert s[0] == e && s[1..] == Stream(es[1..], threads, w);
        assert Check(mine, e) == Accepted;
      } else {
        assert mine' == mine;
      }
    }
  }

  lemma WorkerStreamsValid(t: Trace, threads: nat, w: nat)
    requires threads > 0 && Valid(t) && WorkerConsistent(t)
    ensures Valid(t.(entries := Stream(t.entries, threads, w)))
    ensures Balanced(t) ==> Balanced(t.(entries := Stream(t.entries, threads, w)))
  {
    assert OwnedBy(map[], map[], threads, w) == map[];
    StreamValid(map[], map[], t.entries, threads, w);
  }
}
