/** The slow availability check: usage recomputed from claims at every relevant boundary. */
module AvailabilityOracle {
  import opened Results
  import opened Intervals
  import opened StepFunctions
  import opened CapacityCurves
  import opened Domain
  import opened OrderedKeys
  import opened TimelineRebuild
  import opened Admission

  /** Active plus candidate usage stays within capacity wherever the candidates demand anything. */
  ghost predicate WithinCapacity(segments: seq<CapacitySegment>, active: seq<Claim>, candidates: seq<Claim>) {
    forall t :: Usage(candidates, t) > 0
                ==> Usage(active, t) + Usage(candidates, t) <= CapacityAt(segments, t)
  }

  predicate OverlapsAny(claim: Claim, candidates: seq<Claim>) {
    exists i :: 0 <= i < |candidates| && claim.interval.Overlaps(candidates[i].interval)
  }

  /** Active claims that share time with some candidate. */
  function Relevant(active: seq<Claim>, candidates: seq<Claim>): (relevant: seq<Claim>)
    ensures ValidClaims(active) ==> ValidClaims(relevant)
  {
    if active == [] then []
    else
      var n := |active| - 1;
      var earlier := Relevant(active[..n], candidates);
      if OverlapsAny(active[n], candidates) then earlier + [active[n]] else earlier
  }

  function Edges(claims: seq<Claim>): set<int> {
    (set i | 0 <= i < |claims| :: claims[i].interval.start) + (set i | 0 <= i < |claims| :: claims[i].interval.end)
  }

  function SegmentEdges(segments: seq<CapacitySegment>): set<int> {
    (set i | 0 <= i < |segments| :: segments[i].interval.start)
    + (set i | 0 <= i < |segments| :: segments[i].interval.end)
  }

  /** Wherever candidates demand something, irrelevant active claims are not in use. */
  lemma {:induction false} RelevantUsage(active: seq<Claim>, candidates: seq<Claim>, t: int)
    requires ValidClaims(active) && ValidClaims(candidates) && Covered(candidates, t)
    ensures Usage(Relevant(active, candidates), t) == Usage(active, t)
  {
    if active != [] {
      var n := |active| - 1;
      RelevantUsage(active[..n], candidates, t);
      var earlier := Relevant(active[..n], candidates);
      if OverlapsAny(active[n], candidates) {
        assert (earlier + [active[n]])[..|earlier|] == earlier;
      } else {
        var i :| 0 <= i < |candidates| && candidates[i].interval.Contains(t);
        assert !active[n].interval.Overlaps(candidates[i].interval);
      }
    }
  }

  lemma CapacityConstant(segments: seq<CapacitySegment>, keys: seq<int>, k: nat, t: int)
    requires ValidCurve(segments) && StrictlyIncreasing(keys) && InWindow(keys, k, t)
    requires forall u :: u in SegmentEdges(segments) ==> u in keys
    ensures CapacityAt(segments, t) == CapacityAt(segments, keys[k])
  {
    forall u | keys[k] < u <= t
      ensures CapacityEvent(segments, u).None?
    {
      NotAKey(keys, k, u);
      NoSegmentEdge(segments, u);
    }
    if keys[k] < t {
      CapacitySteps(segments, keys[k], t);
    }
  }

  lemma {:induction false} NoSegmentEdge(segments: seq<CapacitySegment>, u: int)
    requires u !in SegmentEdges(segments)
    ensures CapacityEvent(segments, u).None?
  {
    if segments != [] {
      var n := |segments| - 1;
      assert segments[n].interval.start in SegmentEdges(segments);
      assert segments[n].interval.end in SegmentEdges(segments);
      assert u !in SegmentEdges(segments[..n]);
      NoSegmentEdge(segments[..n], u);
    }
  }

  /** Sums the quantities in use at `t` with a checked 64-bit total. */
  method SumAt(claims: seq<Claim>, t: int) returns (r: Result<int, DomainError>)
    requires ValidClaims(claims)
    ensures r.Ok? ==> r.value == Usage(claims, t)
    ensures r.Err? ==> r.error == QuantityOverflow && Usage(claims, t) > U64_MAX
  {
    var total := 0;
    for i := 0 to |claims|
      invariant total == Usage(claims[..i], t)
    {
      assert claims[..i + 1][..i] == claims[..i];
      if claims[i].interval.Contains(t) {
        if total + claims[i].quantity > U64_MAX {
          PrefixUsage(claims, i + 1, t);
          return Err(QuantityOverflow);
        }
        total := total + claims[i].quantity;
      }
    }
    assert claims[..|claims|] == claims;
    r := Ok(total);
  }

  lemma {:induction false} PrefixUsage(claims: seq<Claim>, k: nat, t: int)
    requires ValidClaims(claims) && k <= |claims|
    ensures Usage(claims[..k], t) <= Usage(claims, t)
  {
    if k < |claims| {
      var n := |claims| - 1;
      assert claims[n].Valid();
      assert claims[..n][..k] == claims[..k];
      PrefixUsage(claims[..n], k, t);
    } else {
      assert claims[..k] == claims;
    }
  }

  /** Recomputes usage at each boundary. A definite answer is exact for every timestamp. */
  method CheckPoolAvailability(segments: seq<CapacitySegment>, active: seq<Claim>, candidates: seq<Claim>)
    returns (r: Result<bool, DomainError>)
    requires ValidCurve(segments) && ValidClaims(active) && ValidClaims(candidates)
    ensures r.Ok? ==> (r.value <==> WithinCapacity(segments, active, candidates))
    ensures r.Err? ==> r.error == QuantityOverflow
                       && exists t :: Usage(active, t) + Usage(candidates, t) > U64_MAX
  {
    var relevant := Relevant(active, candidates);
    var breakpoints := SortedKeys(Edges(candidates) + SegmentEdges(segments) + Edges(relevant));
    BreakpointsCover(segments, relevant, candidates, breakpoints);
    hide *;
    var k := 0;
    while k + 1 < |breakpoints|
      invariant WithinUpTo(segments, relevant, candidates, breakpoints, k)
    {
      var start := breakpoints[k];
      var within := CheckStart(segments, active, relevant, candidates, start);
      if within.Err? {
        return Err(within.error);
      }
      if !within.value {
        return Ok(false);
      }
      WithinPush(segments, relevant, candidates, breakpoints, k);
      k := k + 1;
    }
    WindowsSuffice(segments, active, candidates, breakpoints, k);
    r := Ok(true);
  }

  /** The recomputed usage is within capacity at one window start, or demands nothing there. */
  ghost predicate WithinAt(segments: seq<CapacitySegment>, relevant: seq<Claim>, candidates: seq<Claim>, t: int) {
    Usage(candidates, t) > 0 ==> Usage(relevant, t) + Usage(candidates, t) <= CapacityAt(segments, t)
  }

  ghost predicate WithinUpTo(segments: seq<CapacitySegment>, relevant: seq<Claim>, candidates: seq<Claim>,
                             keys: seq<int>, k: int)
  {
    forall j :: 0 <= j < k && j < |keys| ==> WithinAt(segments, relevant, candidates, keys[j])
  }

  lemma WithinPush(segments: seq<CapacitySegment>, relevant: seq<Claim>, candidates: seq<Claim>,
                   keys: seq<int>, k: nat)
    requires k < |keys| && WithinUpTo(segments, relevant, candidates, keys, k)
    requires WithinAt(segments, relevant, candidates, keys[k])
    ensures WithinUpTo(segments, relevant, candidates, keys, k + 1)
  {
    hide WithinAt;
  }

  /** One window start: recomputed sums against capacity. */
  method CheckStart(segments: seq<CapacitySegment>, ghost active: seq<Claim>, relevant: seq<Claim>,
                    candidates: seq<Claim>, start: int)
    returns (r: Result<bool, DomainError>)
    requires ValidCurve(segments) && ValidClaims(active) && ValidClaims(candidates)
    requires relevant == Relevant(active, candidates)
    ensures r.Ok? && r.value ==> WithinAt(segments, relevant, candidates, start)
    ensures r.Ok? && !r.value ==> !WithinCapacity(segments, active, candidates)
    ensures r.Err? ==> r.error == QuantityOverflow
                       && exists t :: Usage(active, t) + Usage(candidates, t) > U64_MAX
  {
    UsageOrder(active, candidates, start);
    RelevantAtStart(active, candidates, start);
    LookupCorrect(segments, start);
    hide Relevant;
    hide Usage;
    hide CapacityAt;
    hide LookupCapacity;
    var activeUsage := SumAt(relevant, start);
    if activeUsage.Err? {
      return Err(QuantityOverflow);
    }
    var candidateUsage := SumAt(candidates, start);
    if candidateUsage.Err? {
      return Err(QuantityOverflow);
    }
    if candidateUsage.value == 0 {
      return Ok(true);
    }
    var finalUsage := activeUsage.value + candidateUsage.value;
    if finalUsage > U64_MAX {
      return Err(QuantityOverflow);
    }
    r := Ok(finalUsage <= LookupCapacity(segments, start));
  }

  /** Relevant usage never exceeds active usage, and sums are nonnegative. */
  lemma {:induction false} UsageOrder(active: seq<Claim>, candidates: seq<Claim>, t: int)
    requires ValidClaims(active) && ValidClaims(candidates)
    ensures 0 <= Usage(Relevant(active, candidates), t) <= Usage(active, t)
    ensures 0 <= Usage(candidates, t)
  {
    DemandNonnegative(candidates, t);
    if active != [] {
      var n := |active| - 1;
      assert active[n].Valid();
      UsageOrder(active[..n], candidates, t);
      var earlier := Relevant(active[..n], candidates);
      assert (earlier + [active[n]])[..|earlier|] == earlier;
    }
  }

  lemma RelevantAtStart(active: seq<Claim>, candidates: seq<Claim>, t: int)
    requires ValidClaims(active) && ValidClaims(candidates)
    ensures Usage(candidates, t) > 0 ==> Usage(Relevant(active, candidates), t) == Usage(active, t)
  {
    DemandNonnegative(candidates, t);
    if Usage(candidates, t) > 0 {
      RelevantUsage(active, candidates, t);
    }
  }

  /** All edges are breakpoints. */
  ghost predicate Cover(segments: seq<CapacitySegment>, relevant: seq<Claim>, candidates: seq<Claim>, keys: seq<int>) {
    && StrictlyIncreasing(keys) && EdgesAmong(relevant, keys) && EdgesAmong(candidates, keys)
    && forall u :: u in SegmentEdges(segments) ==> u in keys
  }

  lemma BreakpointsCover(segments: seq<CapacitySegment>, relevant: seq<Claim>, candidates: seq<Claim>, keys: seq<int>)
    requires keys == SortedKeys(Edges(candidates) + SegmentEdges(segments) + Edges(relevant))
    ensures Cover(segments, relevant, candidates, keys)
  {
    hide SortedKeys;
  }

  /** Checking window starts decides every timestamp. */
  lemma WindowsSuffice(segments: seq<CapacitySegment>, active: seq<Claim>, candidates: seq<Claim>, keys: seq<int>,
                       n: int)
    requires ValidCurve(segments) && ValidClaims(active) && ValidClaims(candidates)
    requires Cover(segments, Relevant(active, candidates), candidates, keys)
    requires |keys| - 1 <= n && WithinUpTo(segments, Relevant(active, candidates), candidates, keys, n)
    ensures WithinCapacity(segments, active, candidates)
  {
    hide Relevant;
    hide Usage;
    hide CapacityAt;
    hide SegmentEdges;
    forall t | Usage(candidates, t) > 0
      ensures Usage(active, t) + Usage(candidates, t) <= CapacityAt(segments, t)
    {
      DemandNonnegative(candidates, t);
      var k := CoveredInWindow(candidates, keys, t);
      UsageConstant(candidates, keys, k, t);
      UsageConstant(Relevant(active, candidates), keys, k, t);
      CapacityConstant(segments, keys, k, t);
      RelevantUsage(active, candidates, t);
      assert WithinAt(segments, Relevant(active, candidates), candidates, keys[k]);
    }
  }

  lemma CoveredInWindow(claims: seq<Claim>, keys: seq<int>, t: int) returns (k: nat)
    requires Covered(claims, t) && StrictlyIncreasing(keys) && EdgesAmong(claims, keys)
    ensures InWindow(keys, k, t)
  {
    var i :| 0 <= i < |claims| && claims[i].interval.Contains(t);
    var start, end := claims[i].interval.start, claims[i].interval.end;
    assert start in keys && end in keys;
    hide PartitionPoint;
    var a :| 0 <= a < |keys| && keys[a] == start;
    var b :| 0 <= b < |keys| && keys[b] == end;
    var p := PartitionPoint(keys, t);
    assert p <= b;
    assert forall j :: p <= j < |keys| ==> t < keys[j];
    k := p - 1;
  }

  /**
   The indexed decision refines the slow one: over a base that denotes capacity minus active usage, and
   when the slow sums stay within 64 bits, both give the same answer.
   */
  lemma SweepRefinesOracle(s: Sweep, segments: seq<CapacitySegment>, active: seq<Claim>)
    requires s.Valid() && Canonical(s.base) && s.claims != [] && s.floor.None?
    requires ValidClaims(active) && DenotesSlack(s.base, segments, active)
    requires forall t :: Usage(active, t) + Usage(s.claims, t) <= U64_MAX
    ensures s.Verdict().Ok?
    ensures s.Verdict().value.Available? <==> WithinCapacity(segments, active, s.claims)
  {
    hide At;
    hide Usage;
    hide CapacityAt;
    hide Sweep.Verdict;
    forall t
      ensures s.Demand(t) <= U64_MAX
    {
      DemandNonnegative(active, t);
    }
    SweepExact(s);
    forall t
      ensures s.Demand(t) <= s.Slack(t) <==> Usage(active, t) + Usage(s.claims, t) <= CapacityAt(segments, t)
    {
      assert s.Slack(t) == SlackOf(segments, active, t);
    }
  }
}
