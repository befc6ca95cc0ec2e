/** What a sequence of allocator calls and answers adds up to, whatever the allocator: the reference for the
    statistics that the allocators keep (types.hpp, AllocatorStatistics). */
module Histories {
  import opened AllocTypes

  /** A call and its answer. */
  datatype Event =
    | Asked(size: nat, answer: Outcome)    // allocate
    | Returned(id: nat, accepted: bool)    // free
    | Emptied                              // reset or shutdown
    | Trimmed                              // trim

  predicate IsGrant(e: Event) { e.Asked? && e.answer.Granted? }

  /** Refusals for want of memory; refusals of the request itself are not counted. */
  predicate IsFailure(e: Event)
  {
    e.Asked? && e.answer.Failed? && (e.answer.error == CapacityExceeded || e.answer.error == OutOfMemory)
  }

  predicate IsReturn(e: Event) { e.Returned? && e.accepted }

  function Last(h: seq<Event>): Event
    requires h != []
  {
    h[|h| - 1]
  }

  function Before(h: seq<Event>): seq<Event>
    requires h != []
  {
    h[..|h| - 1]
  }

  function Grants(h: seq<Event>): nat { if h == [] then 0 else Grants(Before(h)) + if IsGrant(Last(h)) then 1 else 0 }

  function Failures(h: seq<Event>): nat
  {
    if h == [] then 0 else Failures(Before(h)) + if IsFailure(Last(h)) then 1 else 0
  }

  function Returns(h: seq<Event>): nat
  {
    if h == [] then 0 else Returns(Before(h)) + if IsReturn(Last(h)) then 1 else 0
  }

  /** Bytes asked for by the granted requests. */
  function Requested(h: seq<Event>): nat
  {
    if h == [] then 0 else Requested(Before(h)) + if IsGrant(Last(h)) then Last(h).size else 0
  }

  /** Bytes the grants answered with. */
  function Given(h: seq<Event>): nat
  {
    if h == [] then 0 else Given(Before(h)) + if IsGrant(Last(h)) then Last(h).answer.size else 0
  }

  /** The handles granted and not returned since, with the size they were granted. */
  function Live(h: seq<Event>): map<nat, int>
  {
    if h == [] then map[]
    else match Last(h)
      case Asked(_, r) => if r.Granted? then Live(Before(h))[r.id := r.size] else Live(Before(h))
      case Returned(id, ok) => if ok then Live(Before(h)) - {id} else Live(Before(h))
      case Emptied => map[]
      case Trimmed => Live(Before(h))
  }

  /** Their bytes. */
  function LiveBytes(h: seq<Event>): int
  {
    if h == [] then 0
    else match Last(h)
      case Asked(_, r) => LiveBytes(Before(h)) + if r.Granted? then r.size else 0
      case Returned(id, ok) => LiveBytes(Before(h)) - if ok && id in Live(Before(h)) then Live(Before(h))[id] else 0
      case Emptied => 0
      case Trimmed => LiveBytes(Before(h))
  }

  function Max(a: int, b: int): int { if a >= b then a else b }

  /** The most that was ever live. */
  function PeakCount(h: seq<Event>): int { if h == [] then 0 else Max(PeakCount(Before(h)), |Live(h)|) }

  function PeakBytes(h: seq<Event>): int { if h == [] then 0 else Max(PeakBytes(Before(h)), LiveBytes(h)) }

  /** The statistics that every allocator keeps. */
  datatype Statistics = Statistics(
    success: int, failures: int, returned: int, requested: int, granted: int, liveCount: int, liveBytes: int,
    peakCount: int, peakBytes: int)

  function StatisticsOf(h: seq<Event>): Statistics
  {
    Statistics(Grants(h), Failures(h), Returns(h), Requested(h), Given(h), |Live(h)|, LiveBytes(h), PeakCount(h),
               PeakBytes(h))
  }

  ghost predicate Open(h: seq<Event>) { forall i :: 0 <= i < |h| ==> !h[i].Emptied? }

  /** The statistics and the live handles with their sizes are those of the history; and while nothing was reset,
      every granted handle is returned or live. */
  ghost predicate Told(st: Statistics, live: map<nat, int>, h: seq<Event>)
  {
    && st == StatisticsOf(h) && live == Live(h)
    && st.liveCount <= st.peakCount && st.liveBytes <= st.peakBytes && st.peakCount >= 0 && st.peakBytes >= 0
    && (Open(h) ==> Grants(h) == Returns(h) + |live|)
  }

  /** One call more, as an allocator keeps its statistics. */
  function Next(st: Statistics, live: map<nat, int>, e: Event): Statistics
  {
    if IsGrant(e) then
      st.(success := st.success + 1, requested := st.requested + e.size, granted := st.granted + e.answer.size,
          liveCount := st.liveCount + 1, liveBytes := st.liveBytes + e.answer.size,
          peakCount := Max(st.liveCount + 1, st.peakCount),
          peakBytes := Max(st.liveBytes + e.answer.size, st.peakBytes))
    else if IsReturn(e) && e.id in live then
      st.(returned := st.returned + 1, liveCount := st.liveCount - 1, liveBytes := st.liveBytes - live[e.id])
    else if e.Emptied? then st.(liveCount := 0, liveBytes := 0)
    else if IsFailure(e) then st.(failures := st.failures + 1)
    else st
  }

  function NextLive(live: map<nat, int>, e: Event): map<nat, int>
  {
    if IsGrant(e) then live[e.answer.id := e.answer.size]
    else if IsReturn(e) then live - {e.id}
    else if e.Emptied? then map[]
    else live
  }

  /** A granted handle is new, and a free is accepted for a live handle with bytes to its name. */
  predicate Sound(live: map<nat, int>, e: Event)
  {
    (IsGrant(e) ==> e.answer.id !in live) && (IsReturn(e) ==> e.id in live && live[e.id] >= 0)
  }

  lemma Snoc(h: seq<Event>, e: Event)
    ensures Last(h + [e]) == e && Before(h + [e]) == h
    ensures var g := h + [e];
            && Grants(g) == Grants(h) + (if IsGrant(e) then 1 else 0)
            && Failures(g) == Failures(h) + (if IsFailure(e) then 1 else 0)
            && Returns(g) == Returns(h) + (if IsReturn(e) then 1 else 0)
            && Requested(g) == Requested(h) + (if IsGrant(e) then e.size else 0)
            && Given(g) == Given(h) + (if IsGrant(e) then e.answer.size else 0)
            && PeakCount(g) == Max(PeakCount(h), |Live(g)|) && PeakBytes(g) == Max(PeakBytes(h), LiveBytes(g))
  {
  }

  lemma SnocLive(h: seq<Event>, e: Event)
    ensures Live(h + [e]) == NextLive(Live(h), e)
    ensures LiveBytes(h + [e]) ==
            (if e.Emptied? then 0 else if IsGrant(e) then LiveBytes(h) + e.answer.size
             else if IsReturn(e) && e.id in Live(h) then LiveBytes(h) - Live(h)[e.id] else LiveBytes(h))
  {
    Snoc(h, e);
  }

  lemma LiveCount(live: map<nat, int>, e: Event)
    requires Sound(live, e)
    ensures |NextLive(live, e)| ==
            (if IsGrant(e) then |live| + 1 else if IsReturn(e) then |live| - 1 else if e.Emptied? then 0 else |live|)
  {
    var live' := NextLive(live, e);
    assert |live.Keys| == |live| && |live'.Keys| == |live'|;
    if IsGrant(e) { assert live'.Keys == live.Keys + {e.answer.id}; }
    else if IsReturn(e) { assert live'.Keys == live.Keys - {e.id}; }
  }

  lemma SnocOpen(h: seq<Event>, e: Event)
    ensures Open(h + [e]) <==> Open(h) && !e.Emptied?
  {
    assert forall i :: 0 <= i < |h| ==> (h + [e])[i] == h[i];
    if Open(h + [e]) { assert (h + [e])[|h|] == e; }
  }

  /** Statistics kept call by call are those of the whole history. */
  lemma StepTold(st: Statistics, live: map<nat, int>, h: seq<Event>, e: Event)
    requires Told(st, live, h) && Sound(live, e)
    ensures Told(Next(st, live, e), NextLive(live, e), h + [e])
  {
    hide Grants, Failures, Returns, Requested, Given, Live, LiveBytes, PeakCount, PeakBytes, Open;
    Snoc(h, e);
    SnocLive(h, e);
    SnocOpen(h, e);
    LiveCount(live, e);
  }

  /** Something was returned. */
  lemma {:induction false} ReturnsMeaning(h: seq<Event>)
    ensures Returns(h) > 0 <==> exists i :: 0 <= i < |h| && IsReturn(h[i])
  {
    if h != [] {
      ReturnsMeaning(Before(h));
      if i :| 0 <= i < |h| && IsReturn(h[i]) { assert i < |h| - 1 ==> Before(h)[i] == h[i]; }
      if i :| 0 <= i < |Before(h)| && IsReturn(Before(h)[i]) { assert h[i] == Before(h)[i]; }
    }
  }

  lemma NothingTold()
    ensures Told(Statistics(0, 0, 0, 0, 0, 0, 0, 0, 0), map[], [])
  {
  }
}
