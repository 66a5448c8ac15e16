/** The sweep as it runs: collect, sort and merge events, scan windows, then consume on a copy. */
module AdmissionSweep {
  import opened Results
  import opened Intervals
  import opened StepFunctions
  import opened SlackBlocks
  import opened BlockSequences
  import opened SlackTimelines
  import opened Domain
  import opened OrderedKeys
  import opened TimelineRebuild
  import opened Admission

  /** A timestamp with the change in demand it brings; base breakpoints bring none. */
  datatype DemandEvent = DemandEvent(timestamp: int, delta: int)

  /** Net demand change the events bring at `t`. */
  function DeltaAt(events: seq<DemandEvent>, t: int): int {
    if events == [] then 0
    else
      var n := |events| - 1;
      DeltaAt(events[..n], t) + if events[n].timestamp == t then events[n].delta else 0
  }

  predicate Mentions(events: seq<DemandEvent>, t: int) {
    exists i :: 0 <= i < |events| && events[i].timestamp == t
  }

  /** Stable insertion by timestamp. */
  function InsertEvent(sorted: seq<DemandEvent>, event: DemandEvent): seq<DemandEvent> {
    if sorted == [] || sorted[|sorted| - 1].timestamp <= event.timestamp then sorted + [event]
    else
      var n := |sorted| - 1;
      InsertEvent(sorted[..n], event) + [sorted[n]]
  }

  function SortEvents(events: seq<DemandEvent>): seq<DemandEvent> {
    if events == [] then []
    else InsertEvent(SortEvents(events[..|events| - 1]), events[|events| - 1])
  }

  ghost predicate TimeOrdered(events: seq<DemandEvent>) {
    forall i, j :: 0 <= i < j < |events| ==> events[i].timestamp <= events[j].timestamp
  }

  /** The two lists bring the same changes at the same timestamps. */
  ghost predicate SameEvents(a: seq<DemandEvent>, b: seq<DemandEvent>) {
    forall t :: DeltaAt(a, t) == DeltaAt(b, t) && (Mentions(a, t) <==> Mentions(b, t))
  }

  lemma EventPush(events: seq<DemandEvent>, event: DemandEvent)
    ensures forall t :: DeltaAt(events + [event], t)
                        == DeltaAt(events, t) + if event.timestamp == t then event.delta else 0
    ensures forall t :: Mentions(events + [event], t) <==> Mentions(events, t) || event.timestamp == t
  {
    var all := events + [event];
    assert all[..|events|] == events;
    forall t
      ensures Mentions(all, t) <==> Mentions(events, t) || event.timestamp == t
    {
      if Mentions(events, t) {
        var i :| 0 <= i < |events| && events[i].timestamp == t;
        assert all[i].timestamp == t;
      }
      assert all[|events|] == event;
    }
  }

  lemma SamePush(a: seq<DemandEvent>, b: seq<DemandEvent>, event: DemandEvent)
    requires SameEvents(a, b)
    ensures SameEvents(a + [event], b + [event])
  {
    hide DeltaAt;
    hide Mentions;
    EventPush(a, event);
    EventPush(b, event);
  }

  lemma SameReflexive(events: seq<DemandEvent>)
    ensures SameEvents(events, events)
  {
  }

  lemma SameTransitive(a: seq<DemandEvent>, b: seq<DemandEvent>, c: seq<DemandEvent>)
    requires SameEvents(a, b) && SameEvents(b, c)
    ensures SameEvents(a, c)
  {
    hide DeltaAt;
    hide Mentions;
  }

  lemma SameCollected(a: seq<DemandEvent>, b: seq<DemandEvent>, s: Sweep)
    requires SameEvents(a, b) && CollectedDemand(b, s)
    ensures CollectedDemand(a, s)
  {
    hide DeltaAt;
    hide Mentions;
    hide SweepTimes;
  }

  lemma SameSwap(a: seq<DemandEvent>, x: DemandEvent, y: DemandEvent)
    ensures SameEvents(a + [x] + [y], a + [y] + [x])
  {
    hide DeltaAt;
    hide Mentions;
    EventPush(a, x);
    EventPush(a + [x], y);
    EventPush(a, y);
    EventPush(a + [y], x);
  }

  lemma {:induction false} InsertedMembers(sorted: seq<DemandEvent>, event: DemandEvent)
    ensures forall e :: e in InsertEvent(sorted, event) ==> e == event || e in sorted
  {
    if sorted != [] && event.timestamp < sorted[|sorted| - 1].timestamp {
      InsertedMembers(sorted[..|sorted| - 1], event);
    }
  }

  lemma OrderedPush(events: seq<DemandEvent>, last: DemandEvent)
    requires TimeOrdered(events) && forall e :: e in events ==> e.timestamp <= last.timestamp
    ensures TimeOrdered(events + [last])
  {
    forall i | 0 <= i < |events|
      ensures events[i].timestamp <= last.timestamp
    {
      var e := events[i];
      assert e in events;
    }
  }

  lemma {:induction false} InsertEventCorrect(sorted: seq<DemandEvent>, event: DemandEvent)
    requires TimeOrdered(sorted)
    ensures TimeOrdered(InsertEvent(sorted, event))
    ensures SameEvents(InsertEvent(sorted, event), sorted + [event])
  {
    if sorted != [] && event.timestamp < sorted[|sorted| - 1].timestamp {
      var n := |sorted| - 1;
      var front, last := sorted[..n], sorted[n];
      InsertEventCorrect(front, event);
      InsertedMembers(front, event);
      forall e | e in front
        ensures e.timestamp <= last.timestamp
      {
        var j :| 0 <= j < |front| && front[j] == e;
        assert sorted[j].timestamp <= sorted[n].timestamp;
      }
      OrderedPush(InsertEvent(front, event), last);
      SamePush(InsertEvent(front, event), front + [event], last);
      SameSwap(front, event, last);
      assert sorted == front + [last];
    }
  }

  lemma {:induction false} SortEventsCorrect(events: seq<DemandEvent>)
    ensures TimeOrdered(SortEvents(events)) && SameEvents(SortEvents(events), events)
  {
    if events != [] {
      var n := |events| - 1;
      SortEventsCorrect(events[..n]);
      InsertEventCorrect(SortEvents(events[..n]), events[n]);
      EventPush(SortEvents(events[..n]), events[n]);
      EventPush(events[..n], events[n]);
      assert events == events[..n] + [events[n]];
    }
  }

  /** The collected list: claim edges and covered base breakpoints. */
  ghost predicate CollectedDemand(events: seq<DemandEvent>, s: Sweep) {
    forall t :: DeltaAt(events, t) == Started(s.claims, t) - Ended(s.claims, t)
                && (Mentions(events, t) <==> t in SweepTimes(s.claims, s.base))
  }

  /** One event per key, carrying the net change there. */
  ghost predicate Merged(events: seq<DemandEvent>, s: Sweep) {
    && |events| == |s.Keys()|
    && forall k :: 0 <= k < |events| ==>
         events[k] == DemandEvent(s.Keys()[k], Started(s.claims, s.Keys()[k]) - Ended(s.claims, s.Keys()[k]))
  }

  method CollectEvents(claims: seq<Claim>, points: seq<SlackPoint>, ghost s: Sweep)
    returns (events: seq<DemandEvent>)
    requires s.claims == claims && s.base == points
    ensures CollectedDemand(events, s)
  {
    events := [];
    for i := 0 to |claims|
      invariant forall t :: DeltaAt(events, t) == Started(claims[..i], t) - Ended(claims[..i], t)
      invariant forall t :: Mentions(events, t) <==>
                              exists j :: 0 <= j < i && (claims[j].interval.start == t || claims[j].interval.end == t)
    {
      var interval := claims[i].interval;
      var quantity := claims[i].quantity;
      assert claims[..i + 1][..i] == claims[..i];
      EventPush(events, DemandEvent(interval.start, quantity));
      events := events + [DemandEvent(interval.start, quantity)];
      EventPush(events, DemandEvent(interval.end, -quantity));
      events := events + [DemandEvent(interval.end, -quantity)];
    }
    assert claims[..|claims|] == claims;
    ghost var edges := events;
    for j := 0 to |points|
      invariant forall t :: DeltaAt(events, t) == Started(claims, t) - Ended(claims, t)
      invariant forall t :: Mentions(events, t) <==>
                              Mentions(edges, t)
                              || exists i :: 0 <= i < j && points[i].timestamp == t && Covered(claims, t)
    {
      if Covered(claims, points[j].timestamp) {
        EventPush(events, DemandEvent(points[j].timestamp, 0));
        events := events + [DemandEvent(points[j].timestamp, 0)];
      }
    }
  }

  /** Adds up the changes of equal timestamps in a sorted list. */
  method MergeEvents(sorted: seq<DemandEvent>, ghost s: Sweep) returns (normalized: seq<DemandEvent>)
    requires TimeOrdered(sorted) && CollectedDemand(sorted, s)
    ensures Merged(normalized, s)
  {
    normalized := [];
    assert sorted[..0] == normalized;
    hide DeltaAt;
    hide Mentions;
    hide SameEvents;
    hide CollectedDemand;
    SameReflexive(normalized);
    for i := 0 to |sorted|
      invariant SameEvents(normalized, sorted[..i])
      invariant StrictlyIncreasing(Times(normalized))
      invariant normalized != [] ==> i > 0 && normalized[|normalized| - 1].timestamp == sorted[i - 1].timestamp
      invariant normalized == [] ==> i == 0
    {
      var event := sorted[i];
      assert sorted[..i + 1] == sorted[..i] + [event];
      SamePush(normalized, sorted[..i], event);
      if normalized != [] && normalized[|normalized| - 1].timestamp == event.timestamp {
        var n := |normalized| - 1;
        var merged := DemandEvent(event.timestamp, normalized[n].delta + event.delta);
        MergeLast(normalized, event);
        SameTransitive(normalized[..n] + [merged], normalized + [event], sorted[..i + 1]);
        normalized := normalized[..n] + [merged];
      } else {
        TimesPush(normalized, event);
        normalized := normalized + [event];
      }
    }
    assert sorted[..|sorted|] == sorted;
    SameCollected(normalized, sorted, s);
    MergedKeys(normalized, s);
  }

  lemma TimesPush(events: seq<DemandEvent>, event: DemandEvent)
    requires StrictlyIncreasing(Times(events))
    requires events != [] ==> events[|events| - 1].timestamp < event.timestamp
    ensures StrictlyIncreasing(Times(events + [event]))
  {
    var times, all := Times(events), Times(events + [event]);
    forall i, j | 0 <= i < j < |all|
      ensures all[i] < all[j]
    {
      if j == |events| {
        assert times[i] <= times[|events| - 1];
      } else {
        assert times[i] < times[j];
      }
    }
  }

  function Times(events: seq<DemandEvent>): (times: seq<int>)
    ensures |times| == |events|
    ensures forall i :: 0 <= i < |events| ==> times[i] == events[i].timestamp
  {
    seq(|events|, i requires 0 <= i < |events| => events[i].timestamp)
  }

  lemma MergeLast(events: seq<DemandEvent>, event: DemandEvent)
    requires events != [] && events[|events| - 1].timestamp == event.timestamp
    ensures var n := |events| - 1;
            var merged := events[..n] + [DemandEvent(event.timestamp, events[n].delta + event.delta)];
            SameEvents(merged, events + [event]) && Times(merged) == Times(events)
  {
    var n := |events| - 1;
    assert events == events[..n] + [events[n]];
    EventPush(events[..n], events[n]);
    EventPush(events, event);
    EventPush(events[..n], DemandEvent(event.timestamp, events[n].delta + event.delta));
  }

  lemma {:induction false} DistinctDelta(events: seq<DemandEvent>, k: nat)
    requires StrictlyIncreasing(Times(events)) && k < |events|
    ensures DeltaAt(events, events[k].timestamp) == events[k].delta
  {
    var n := |events| - 1;
    var times := Times(events);
    assert forall i, j :: 0 <= i < j < |events| ==> times[i] < times[j];
    if k < n {
      assert times[k] < times[n];
      DistinctDelta(events[..n], k);
    } else {
      forall i | 0 <= i < n
        ensures events[i].timestamp != events[n].timestamp
      {
        assert times[i] < times[n];
      }
      UnmentionedDelta(events[..n], events[n].timestamp);
    }
  }

  lemma {:induction false} UnmentionedDelta(events: seq<DemandEvent>, t: int)
    requires forall i :: 0 <= i < |events| ==> events[i].timestamp != t
    ensures DeltaAt(events, t) == 0
  {
    if events != [] {
      UnmentionedDelta(events[..|events| - 1], t);
    }
  }

  lemma MergedKeys(events: seq<DemandEvent>, s: Sweep)
    requires StrictlyIncreasing(Times(events)) && CollectedDemand(events, s)
    ensures Merged(events, s)
  {
    var times := Times(events);
    forall t
      ensures t in times <==> t in s.Keys()
    {
      assert Mentions(events, t) <==> t in SweepTimes(s.claims, s.base);
      if t in times {
        var i :| 0 <= i < |times| && times[i] == t;
        assert events[i].timestamp == t;
      }
      if Mentions(events, t) {
        var i :| 0 <= i < |events| && events[i].timestamp == t;
        assert times[i] == t;
      }
    }
    IncreasingUnique(times, s.Keys());
    forall k | 0 <= k < |events|
      ensures events[k] == DemandEvent(s.Keys()[k], Started(s.claims, s.Keys()[k]) - Ended(s.claims, s.Keys()[k]))
    {
      DistinctDelta(events, k);
      assert times[k] == s.Keys()[k];
    }
  }

  // ---- Scanning windows ----

  /** Running demand moves to its value at the next key. */
  lemma NextDemand(s: Sweep, k: nat)
    requires s.Valid() && k < |s.Keys()|
    ensures var t := s.Keys()[k];
            var before := if k == 0 then 0 else s.Demand(s.Keys()[k - 1]);
            s.Demand(t) == before + Started(s.claims, t) - Ended(s.claims, t)
    ensures 0 <= s.Demand(s.Keys()[k])
  {
    hide SortedKeys;
    hide SweepTimes;
    var keys := s.Keys();
    var t := keys[k];
    DemandNonnegative(s.claims, t);
    var before := if k == 0 then t - 1 else keys[k - 1];
    if k == 0 {
      NoDemandBeforeKeys(s, t - 1);
    }
    forall u | before < u < t
      ensures Started(s.claims, u) == 0 && Ended(s.claims, u) == 0
    {
      NotAKey(keys, k - 1, u);
      forall i | 0 <= i < |s.claims|
        ensures s.claims[i].interval.start != u && s.claims[i].interval.end != u
      {
        ClaimKeys(s, i);
      }
      NoClaimEdge(s.claims, u);
    }
    UsageSteps(s.claims, before, t);
  }

  /** The timelines read by an evaluation, and the value-level sweep they stand for. */
  ghost predicate ReadsSweep(s: Sweep, base: SlackTimeline, floor: SlackTimeline?)
    reads base, floor
  {
    && base.Valid() && s.base == Canon(base.Points())
    && (floor != null ==> floor.Valid() && s.floor == Some(Canon(floor.Points())))
    && (floor == null ==> s.floor.None?)
  }

  method AllowedAt(t: int, floor: SlackTimeline?, ghost base: SlackTimeline, ghost s: Sweep) returns (allowed: int)
    requires ReadsSweep(s, base, floor)
    ensures allowed == s.Allowed(t)
  {
    if floor == null {
      return 0;
    }
    CanonCorrect(floor.Points());
    var slack := floor.SlackAt(t);
    allowed := Min(slack.value, 0);
  }

  method SlackUnder(t: int, base: SlackTimeline, ghost floor: SlackTimeline?, ghost s: Sweep) returns (slack: int)
    requires ReadsSweep(s, base, floor)
    ensures slack == s.Slack(t)
  {
    CanonCorrect(base.Points());
    var read := base.SlackAt(t);
    slack := read.value;
  }

  /** Evaluates each demanded window against base slack at its start. */
  method ScanWindows(events: seq<DemandEvent>, base: SlackTimeline, floor: SlackTimeline?, s: Sweep)
    returns (r: Result<(seq<AvailabilityConflict>, seq<Adjustment>), DomainError>)
    requires s.Valid() && Merged(events, s) && ReadsSweep(s, base, floor) && |s.Keys()| >= 2
    ensures r.Err? <==> s.Exceeds(s.Keys(), U64_MAX)
    ensures r.Err? ==> r.error == QuantityOverflow
    ensures r.Ok? ==> var n := |s.Keys()| - 1;
                      r.value == (s.Conflicts(s.Keys(), n), s.Adjustments(s.Keys(), n))
  {
    ghost var keys := s.Keys();
    var conflicts: seq<AvailabilityConflict> := [];
    var adjustments: seq<Adjustment> := [];
    var currentDemand := 0;
    hide SortedKeys;
    hide SweepTimes;
    hide Usage;
    hide Started;
    hide Ended;
    hide At;
    hide Holders;
    hide MergeConflict;
    for k := 0 to |events| - 1
      invariant currentDemand == if k == 0 then 0 else s.Demand(keys[k - 1])
      invariant conflicts == s.Conflicts(keys, k) && adjustments == s.Adjustments(keys, k)
      invariant forall j :: 0 <= j < k ==> s.Demand(keys[j]) <= U64_MAX
    {
      NextDemand(s, k);
      currentDemand := currentDemand + events[k].delta;
      if currentDemand > U64_MAX {
        return Err(QuantityOverflow);
      }
      if currentDemand == 0 {
        continue;
      }
      var interval := Interval(events[k].timestamp, events[k + 1].timestamp);
      var conflict := WindowConflict(interval, currentDemand, base, floor, s);
      if conflict.Some? {
        conflicts := MergeConflict(conflicts, conflict.value);
      }
      adjustments := adjustments + [Adjustment(interval, currentDemand)];
    }
    r := Ok((conflicts, adjustments));
  }

  /** The conflict of one demanded window, if its final slack would fall below what is allowed. */
  method WindowConflict(interval: Interval, demand: int, base: SlackTimeline, floor: SlackTimeline?, s: Sweep)
    returns (conflict: Option<AvailabilityConflict>)
    requires ReadsSweep(s, base, floor) && demand == s.Demand(interval.start)
    ensures conflict == if s.Blocked(interval.start) then Some(s.ConflictOver(interval)) else None
  {
    hide At;
    hide Holders;
    var slack := SlackUnder(interval.start, base, floor, s);
    var minimumAllowed := AllowedAt(interval.start, floor, base, s);
    var availableQuantity := if slack <= 0 then 0 else slack;
    if slack - demand < minimumAllowed {
      var conflictingIds := Holders(s.promises, s.poolId, interval);
      return Some(AvailabilityConflict(s.poolId, interval, demand, availableQuantity,
                                       demand - availableQuantity, conflictingIds));
    }
    conflict := None;
  }

  // ---- Consuming on a copy ----

  /** A window the sweep did not block can be subtracted from what is consumed so far. */
  lemma UnblockedAdmitted(s: Sweep, k: nat, points: seq<SlackPoint>, raw: seq<SlackPoint>)
    requires s.Valid() && k + 1 < |s.Keys()| && ConsumedUpTo(s, points, k)
    requires s.Demand(s.Keys()[k]) > 0 && !s.Blocked(s.Keys()[k])
    requires forall t :: At(0, raw, t) == At(0, points, t)
    ensures Admits(raw, Interval(s.Keys()[k], s.Keys()[k + 1]), -s.Demand(s.Keys()[k]))
  {
    hide SortedKeys;
    hide SweepTimes;
    hide At;
    hide Usage;
    var keys := s.Keys();
    var span := Interval(keys[k], keys[k + 1]);
    forall t | span.Contains(t)
      ensures FitsI64(At(0, raw, t) - s.Demand(keys[k]))
    {
      SlackConstant(s, k, t);
      SlackFits(s, t);
      FloorFits(s, keys[k]);
      assert DemandBefore(s, k, t) == 0;
    }
  }

  lemma FloorFits(s: Sweep, t: int)
    requires s.Valid()
    ensures FitsI64(s.Allowed(t))
  {
    if s.floor.Some? {
      var k := FindInForce(s.floor.value, t);
    }
  }

  lemma {:induction false} NoConflictsUnblocked(s: Sweep, keys: seq<int>, k: nat, j: nat)
    requires (k < |keys| || k == 0) && j < k && s.Conflicts(keys, k) == []
    ensures s.Demand(keys[j]) > 0 ==> !s.Blocked(keys[j])
  {
    if j < k - 1 {
      NoConflictsUnblocked(s, keys, k - 1, j);
    }
  }

  lemma {:induction false} AdjustmentsGrow(s: Sweep, keys: seq<int>, k: nat, n: nat)
    requires k <= n && (n < |keys| || n == 0)
    ensures s.Adjustments(keys, k) <= s.Adjustments(keys, n)
  {
    if k < n {
      AdjustmentsGrow(s, keys, k, n - 1);
    }
  }

  /** The next adjustment belongs to the next demanded window. */
  lemma {:induction false} NextAdjusted(s: Sweep, keys: seq<int>, k: nat, n: nat, i: nat) returns (k': nat)
    requires k <= n < |keys|
    requires i < |s.Adjustments(keys, n)| && s.Adjustments(keys, k) == s.Adjustments(keys, n)[..i]
    ensures k <= k' < n && s.Demand(keys[k']) != 0
    ensures s.Adjustments(keys, k') == s.Adjustments(keys, n)[..i]
    ensures s.Adjustments(keys, n)[i] == Adjustment(Interval(keys[k'], keys[k' + 1]), s.Demand(keys[k']))
    ensures s.Adjustments(keys, k' + 1) == s.Adjustments(keys, n)[..i + 1]
    decreases n - k
  {
    hide Usage;
    var all := s.Adjustments(keys, n);
    if k == n {
      assert false;
    }
    AdjustmentsGrow(s, keys, k + 1, n);
    if s.Demand(keys[k]) == 0 {
      k' := NextAdjusted(s, keys, k + 1, n, i);
    } else {
      k' := k;
      var next := s.Adjustments(keys, k + 1);
      assert next == all[..i] + [Adjustment(Interval(keys[k], keys[k + 1]), s.Demand(keys[k]))];
      assert all[..|next|] == next;
    }
  }

  /** The adjusted timeline's blocks, or the reasons for refusing. */
  datatype PoolOutcome =
    | Admitted(blocks: seq<Block>)
    | Rejected(conflicts: seq<AvailabilityConflict>)

  ghost predicate SoundOutcome(r: Result<PoolOutcome, DomainError>) {
    r.Ok? && r.value.Admitted? ==> ValidBlocks(r.value.blocks)
  }

  /** The outcome with the adjusted timeline read as its canonical points. */
  ghost function Meaning(r: Result<PoolOutcome, DomainError>): Result<PoolAdmission, DomainError> {
    match r
    case Err(error) => Err(error)
    case Ok(Admitted(blocks)) => Ok(Available(Canon(Flat(blocks))))
    case Ok(Rejected(conflicts)) => Ok(Unavailable(conflicts))
  }

  /** Applying the adjustments to a copy of the base never overflows and leaves base minus demand. */
  method ConsumeOnCopy(base: SlackTimeline, adjustments: seq<Adjustment>, ghost s: Sweep)
    returns (adjusted: seq<Block>)
    requires s.Valid() && Canonical(s.base) && base.Valid() && s.base == Canon(base.Points())
    requires |s.Keys()| >= 2 && adjustments == s.Adjustments(s.Keys(), |s.Keys()| - 1)
    requires s.Conflicts(s.Keys(), |s.Keys()| - 1) == []
    requires forall k :: 0 <= k < |s.Keys()| - 1 ==> s.Demand(s.Keys()[k]) <= I64_MAX
    ensures ValidBlocks(adjusted) && Canon(Flat(adjusted)) == Consume(s.base, adjustments)
  {
    hide SortedKeys;
    hide SweepTimes;
    hide Usage;
    hide At;
    hide Flat;
    hide AddOn;
    hide Canon;
    ghost var keys := s.Keys();
    ghost var n := |keys| - 1;
    ghost var k := 0;
    var timeline := new SlackTimeline(base.blocks);
    assert adjustments[..0] == [];
    for i := 0 to |adjustments|
      invariant timeline.Valid() && fresh(timeline)
      invariant 0 <= k <= n && s.Adjustments(keys, k) == adjustments[..i]
      invariant Canon(timeline.Points()) == Consume(s.base, adjustments[..i])
    {
      k := NextAdjusted(s, keys, k, n, i);
      ReadyToConsume(s, k, n, timeline.Points());
      var applied := timeline.ApplyDelta(adjustments[i].interval, -adjustments[i].demand);
      ConsumePush(s.base, adjustments[..i], adjustments[i]);
      assert adjustments[..i] + [adjustments[i]] == adjustments[..i + 1];
      k := k + 1;
    }
    assert adjustments[..|adjustments|] == adjustments;
    adjusted := timeline.blocks;
  }

  lemma ReadyToConsume(s: Sweep, k: nat, n: nat, raw: seq<SlackPoint>)
    requires s.Valid() && Canonical(s.base) && k < n < |s.Keys()| && s.Conflicts(s.Keys(), n) == []
    requires s.Demand(s.Keys()[k]) != 0 && Sorted(raw)
    requires Canon(raw) == Consume(s.base, s.Adjustments(s.Keys(), k))
    ensures Interval(s.Keys()[k], s.Keys()[k + 1]).Valid()
    ensures 0 < s.Demand(s.Keys()[k])
    ensures Admits(raw, Interval(s.Keys()[k], s.Keys()[k + 1]), -s.Demand(s.Keys()[k]))
  {
    hide SortedKeys;
    hide SweepTimes;
    hide Usage;
    hide At;
    hide Canon;
    var keys := s.Keys();
    DemandNonnegative(s.claims, keys[k]);
    NoConflictsUnblocked(s, keys, n, k);
    ConsumeCorrect(s, k);
    CanonCorrect(raw);
    UnblockedAdmitted(s, k, Canon(raw), raw);
  }

  // ---- The evaluation ----

  /** Evaluates claims of one pool against a base timeline that is read but never changed. */
  method EvaluatePoolOnTimeline(poolId: PoolId, promises: map<PromiseId, Promise>, claims: seq<Claim>,
                                base: SlackTimeline, floor: SlackTimeline?)
    returns (r: Result<PoolOutcome, DomainError>)
    requires claims != [] && ValidClaims(claims) && base.Valid() && (floor != null ==> floor.Valid())
    requires forall id :: id in promises ==> ValidClaims(promises[id].bundle)
    ensures SoundOutcome(r) && Meaning(r) == SweepOver(poolId, promises, claims, base, floor).Verdict()
  {
    hide At;
    hide Flat;
    var basePoints := base.EffectivePoints();
    var floorPoints := None;
    if floor != null {
      var read := floor.EffectivePoints();
      floorPoints := Some(read.value);
    }
    var s := Sweep(poolId, promises, claims, basePoints.value, floorPoints);
    SweepReady(s, base, floor);
    r := RunSweep(s, base, floor);
  }

  ghost function SweepOver(poolId: PoolId, promises: map<PromiseId, Promise>, claims: seq<Claim>,
                           base: SlackTimeline, floor: SlackTimeline?): Sweep
    requires base.Valid() && (floor != null ==> floor.Valid())
    reads base, floor
  {
    Sweep(poolId, promises, claims, Canon(base.Points()), if floor == null then None else Some(Canon(floor.Points())))
  }

  lemma SweepReady(s: Sweep, base: SlackTimeline, floor: SlackTimeline?)
    requires ReadsSweep(s, base, floor) && s.claims != [] && ValidClaims(s.claims)
    requires forall id :: id in s.promises ==> ValidClaims(s.promises[id].bundle)
    ensures s.Valid() && Canonical(s.base) && |s.Keys()| >= 2
  {
    hide Flat;
    hide At;
    hide SortedKeys;
    TimelineFits(base.blocks);
    CanonCorrect(base.Points());
    if floor != null {
      TimelineFits(floor.blocks);
      CanonCorrect(floor.Points());
    }
    assert s.claims[0].Valid();
    KeysNonempty(s);
  }

  lemma TimelineFits(blocks: seq<Block>)
    requires ValidBlocks(blocks)
    ensures AllFit(Flat(blocks))
  {
    FlatFits(blocks);
  }

  method RunSweep(s: Sweep, base: SlackTimeline, floor: SlackTimeline?) returns (r: Result<PoolOutcome, DomainError>)
    requires s.Valid() && Canonical(s.base) && |s.Keys()| >= 2 && ReadsSweep(s, base, floor)
    ensures SoundOutcome(r) && Meaning(r) == s.Verdict()
  {
    hide SortedKeys;
    hide SweepTimes;
    hide Usage;
    hide At;
    hide Flat;
    hide Consume;
    hide Canon;
    hide Sweep.Conflicts;
    hide Sweep.Adjustments;
    var demandEvents := CollectEvents(s.claims, s.base, s);
    SortEventsCorrect(demandEvents);
    SameCollected(SortEvents(demandEvents), demandEvents, s);
    var normalizedEvents := MergeEvents(SortEvents(demandEvents), s);
    var scanned := ScanWindows(normalizedEvents, base, floor, s);
    if scanned.Err? {
      return Err(scanned.error);
    }
    var (conflicts, adjustments) := scanned.value;
    if conflicts != [] {
      return Ok(Rejected(conflicts));
    }
    var tooLarge := exists i :: 0 <= i < |adjustments| && adjustments[i].demand > I64_MAX;
    AdjustmentsExceed(s);
    if tooLarge {
      return Err(IndexOverflow);
    }
    var adjusted := ConsumeOnCopy(base, adjustments, s);
    r := Ok(Admitted(adjusted));
  }

  /** Narrowing fails exactly when some window's demand exceeds 63 bits. */
  lemma AdjustmentsExceed(s: Sweep)
    requires |s.Keys()| >= 2
    ensures var adjustments := s.Adjustments(s.Keys(), |s.Keys()| - 1);
            (exists i :: 0 <= i < |adjustments| && adjustments[i].demand > I64_MAX) <==> s.Exceeds(s.Keys(), I64_MAX)
  {
    hide SortedKeys;
    hide SweepTimes;
    hide Usage;
    AdjustmentsExceedUpTo(s, s.Keys(), |s.Keys()| - 1);
  }

  lemma {:induction false} AdjustmentsExceedUpTo(s: Sweep, keys: seq<int>, k: nat)
    requires k < |keys| || k == 0
    ensures var adjustments := s.Adjustments(keys, k);
            (exists i :: 0 <= i < |adjustments| && adjustments[i].demand > I64_MAX)
            <==> (exists j :: 0 <= j < k && s.Demand(keys[j]) > I64_MAX)
  {
    if k > 0 {
      hide Usage;
      AdjustmentsExceedUpTo(s, keys, k - 1);
      var earlier, now := s.Adjustments(keys, k - 1), s.Adjustments(keys, k);
      assert forall i :: 0 <= i < |earlier| ==> now[i] == earlier[i];
      if s.Demand(keys[k - 1]) > I64_MAX {
        assert now[|earlier|].demand > I64_MAX;
      }
      if j :| 0 <= j < k - 1 && s.Demand(keys[j]) > I64_MAX {
        var i :| 0 <= i < |earlier| && earlier[i].demand > I64_MAX;
        assert now[i].demand > I64_MAX;
      }
    }
  }
}
