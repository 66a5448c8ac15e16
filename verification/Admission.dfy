/** The admission sweep: merged demand and slack breakpoints decide whether claims fit one pool. */
module Admission {
  import opened Results
  import opened Intervals
  import opened StepFunctions
  import opened Domain
  import opened OrderedKeys
  import opened TimelineRebuild

  /** The result of evaluating candidate claims against one resource pool. */
  datatype PoolAdmission =
    | Available(points: seq<SlackPoint>)
    | Unavailable(conflicts: seq<AvailabilityConflict>)

  /** Timestamps at which demand or the base slack under a claim may change. */
  function SweepTimes(claims: seq<Claim>, base: seq<SlackPoint>): set<int> {
    (set i | 0 <= i < |claims| :: claims[i].interval.start)
    + (set i | 0 <= i < |claims| :: claims[i].interval.end)
    + (set j | 0 <= j < |base| && Covered(claims, base[j].timestamp) :: base[j].timestamp)
  }

  predicate Covered(claims: seq<Claim>, t: int) {
    exists i :: 0 <= i < |claims| && claims[i].interval.Contains(t)
  }

  /** One evaluation: candidate claims against a base timeline, with an optional deficit floor. */
  datatype Sweep = Sweep(
    poolId: PoolId,
    promises: map<PromiseId, Promise>,
    claims: seq<Claim>,
    base: seq<SlackPoint>,
    floor: Option<seq<SlackPoint>>)
  {
    ghost predicate Valid() {
      && ValidClaims(claims) && Sorted(base) && AllFit(base)
      && (forall id :: id in promises ==> ValidClaims(promises[id].bundle))
      && (floor.Some? ==> Sorted(floor.value) && AllFit(floor.value))
    }

    function Keys(): seq<int> {
      SortedKeys(SweepTimes(claims, base))
    }

    function Demand(t: int): int {
      Usage(claims, t)
    }

    function Slack(t: int): int {
      At(0, base, t)
    }

    /** Lowest slack a demanded timestamp may end with. */
    function Allowed(t: int): int {
      if floor.None? then 0 else Min(0, At(0, floor.value, t))
    }

    predicate Blocked(t: int) {
      Slack(t) - Demand(t) < Allowed(t)
    }

    function ConflictOver(interval: Interval): AvailabilityConflict {
      var available := Max(0, Slack(interval.start));
      AvailabilityConflict(poolId, interval, Demand(interval.start), available,
                           Demand(interval.start) - available, Holders(promises, poolId, interval))
    }

    /** Conflicts of the first `k` windows between consecutive keys. */
    function Conflicts(keys: seq<int>, k: nat): seq<AvailabilityConflict>
      requires k < |keys| || k == 0
    {
      if k == 0 then []
      else NextConflicts(keys, k - 1, Conflicts(keys, k - 1))
    }

    /** Adds the conflict of window `k`, if it is demanded and blocked. */
    function NextConflicts(keys: seq<int>, k: nat, earlier: seq<AvailabilityConflict>): seq<AvailabilityConflict>
      requires k + 1 < |keys|
    {
      if Demand(keys[k]) > 0 && Blocked(keys[k])
      then MergeConflict(earlier, ConflictOver(Interval(keys[k], keys[k + 1])))
      else earlier
    }

    /** Demanded windows among the first `k`, with their demand. */
    function Adjustments(keys: seq<int>, k: nat): seq<Adjustment>
      requires k < |keys| || k == 0
    {
      if k == 0 then []
      else
        var earlier := Adjustments(keys, k - 1);
        var demand := Demand(keys[k - 1]);
        if demand == 0 then earlier else earlier + [Adjustment(Interval(keys[k - 1], keys[k]), demand)]
    }

    /** Some window start demands more than `bound`. */
    predicate Exceeds(keys: seq<int>, bound: int) {
      exists k :: 0 <= k < |keys| - 1 && Demand(keys[k]) > bound
    }

    function Verdict(): Result<PoolAdmission, DomainError> {
      var keys := Keys();
      var windows := if keys == [] then 0 else |keys| - 1;
      var conflicts := Conflicts(keys, windows);
      if Exceeds(keys, U64_MAX) then Err(QuantityOverflow)
      else if conflicts != [] then Ok(Unavailable(conflicts))
      else if Exceeds(keys, I64_MAX) then Err(IndexOverflow)
      else Ok(Available(Consume(base, Adjustments(keys, windows))))
    }
  }

  /** Demand to subtract over one interval. */
  datatype Adjustment = Adjustment(interval: Interval, demand: int)

  /** Canonical points after subtracting each adjustment in turn. */
  function Consume(points: seq<SlackPoint>, adjustments: seq<Adjustment>): seq<SlackPoint> {
    if adjustments == [] then points
    else
      var n := |adjustments| - 1;
      var last := adjustments[n];
      AddOn(Consume(points, adjustments[..n]), last.interval.start, last.interval.end, -last.demand)
  }

  /** Extends the previous conflict when the new one continues it with identical facts. */
  function MergeConflict(conflicts: seq<AvailabilityConflict>, conflict: AvailabilityConflict)
    : seq<AvailabilityConflict>
  {
    if conflicts != []
       && var previous := conflicts[|conflicts| - 1];
          && previous.interval.end == conflict.interval.start
          && previous.required == conflict.required
          && previous.available == conflict.available
          && previous.deficit == conflict.deficit
          && previous.promiseIds == conflict.promiseIds
    then
      var n := |conflicts| - 1;
      conflicts[..n] + [conflicts[n].(interval := Interval(conflicts[n].interval.start, conflict.interval.end))]
    else conflicts + [conflict]
  }

  // ---- Windows ----

  lemma ClaimKeys(s: Sweep, i: nat)
    requires i < |s.claims|
    ensures s.claims[i].interval.start in s.Keys() && s.claims[i].interval.end in s.Keys()
  {
  }

  lemma BaseKey(s: Sweep, j: nat)
    requires j < |s.base| && Covered(s.claims, s.base[j].timestamp)
    ensures s.base[j].timestamp in s.Keys()
  {
  }

  /** `t` lies in window `k`. */
  ghost predicate InWindow(keys: seq<int>, k: int, t: int) {
    0 <= k < |keys| - 1 && keys[k] <= t < keys[k + 1]
  }

  lemma {:induction false} DemandNonnegative(claims: seq<Claim>, t: int)
    requires ValidClaims(claims)
    ensures 0 <= Usage(claims, t)
    ensures Usage(claims, t) > 0 <==> Covered(claims, t)
  {
    if claims != [] {
      var n := |claims| - 1;
      assert claims[n].Valid();
      DemandNonnegative(claims[..n], t);
      if Covered(claims[..n], t) {
        var i :| 0 <= i < n && claims[..n][i].interval.Contains(t);
        assert claims[i].interval.Contains(t);
      }
      if Covered(claims, t) && !claims[n].interval.Contains(t) {
        var i :| 0 <= i < |claims| && claims[i].interval.Contains(t);
        assert claims[..n][i].interval.Contains(t);
      }
    }
  }

  lemma {:induction false} NoClaimEdge(claims: seq<Claim>, u: int)
    requires forall i :: 0 <= i < |claims| ==> claims[i].interval.start != u && claims[i].interval.end != u
    ensures Started(claims, u) == 0 && Ended(claims, u) == 0
  {
    if claims != [] {
      NoClaimEdge(claims[..|claims| - 1], u);
    }
  }

  lemma NotAKey(keys: seq<int>, k: nat, u: int)
    requires StrictlyIncreasing(keys) && k + 1 < |keys| && keys[k] < u < keys[k + 1]
    ensures u !in keys
  {
    QuietBetween(keys, k + 1, u);
  }

  /** Every edge of the claims is a key. */
  ghost predicate EdgesAmong(claims: seq<Claim>, keys: seq<int>) {
    forall i :: 0 <= i < |claims| ==> claims[i].interval.start in keys && claims[i].interval.end in keys
  }

  /** Usage does not change between consecutive keys that include all edges. */
  lemma UsageConstant(claims: seq<Claim>, keys: seq<int>, k: nat, t: int)
    requires ValidClaims(claims) && StrictlyIncreasing(keys) && EdgesAmong(claims, keys) && InWindow(keys, k, t)
    ensures Usage(claims, t) == Usage(claims, keys[k])
  {
    forall u | keys[k] < u <= t
      ensures Started(claims, u) == 0 && Ended(claims, u) == 0
    {
      NotAKey(keys, k, u);
      NoClaimEdge(claims, u);
    }
    if keys[k] < t {
      UsageSteps(claims, keys[k], t);
    }
  }

  /** Demand is constant on a window. */
  lemma DemandConstant(s: Sweep, k: nat, t: int)
    requires s.Valid() && InWindow(s.Keys(), k, t)
    ensures s.Demand(t) == s.Demand(s.Keys()[k])
  {
    forall i | 0 <= i < |s.claims|
      ensures s.claims[i].interval.start in s.Keys() && s.claims[i].interval.end in s.Keys()
    {
      ClaimKeys(s, i);
    }
    UsageConstant(s.claims, s.Keys(), k, t);
  }

  lemma SameBetween(points: seq<SlackPoint>, u: int, t: int)
    requires Sorted(points) && u <= t
    requires forall j :: 0 <= j < |points| ==> !(u < points[j].timestamp <= t)
    ensures At(0, points, u) == At(0, points, t)
  {
    hide At;
    var j := FindInForce(points, u);
    var k := FindInForce(points, t);
    assert j == k by {
      assert j < |points| - 1 ==> u < points[j + 1].timestamp;
      assert k < |points| - 1 ==> t < points[k + 1].timestamp;
      assert k >= 0 ==> points[k].timestamp <= t;
      assert j >= 0 ==> points[j].timestamp <= u;
    }
    assert At(0, points, u) == if j < 0 then 0 else points[j].slack;
    assert At(0, points, t) == if k < 0 then 0 else points[k].slack;
  }

  /** A demanded window is covered by one claim from end to end. */
  lemma WindowCovered(s: Sweep, k: nat, t: int)
    requires s.Valid() && InWindow(s.Keys(), k, t) && s.Demand(s.Keys()[k]) > 0
    ensures Covered(s.claims, t)
  {
    DemandConstant(s, k, t);
    DemandNonnegative(s.claims, t);
  }

  /** Base slack is constant on a demanded window. */
  lemma SlackConstant(s: Sweep, k: nat, t: int)
    requires s.Valid() && InWindow(s.Keys(), k, t) && s.Demand(s.Keys()[k]) > 0
    ensures s.Slack(t) == s.Slack(s.Keys()[k])
  {
    var keys := s.Keys();
    forall j | 0 <= j < |s.base|
      ensures !(keys[k] < s.base[j].timestamp <= t)
    {
      var u := s.base[j].timestamp;
      if keys[k] < u <= t {
        WindowCovered(s, k, u);
        BaseKey(s, j);
        NotAKey(keys, k, u);
        assert false;
      }
    }
    SameBetween(s.base, keys[k], t);
  }

  /** Every demanded timestamp lies in a window. */
  lemma DemandedInWindow(s: Sweep, t: int) returns (k: nat)
    requires s.Valid() && s.Demand(t) > 0
    ensures InWindow(s.Keys(), k, t)
  {
    hide SortedKeys;
    hide SweepTimes;
    DemandNonnegative(s.claims, t);
    var i :| 0 <= i < |s.claims| && s.claims[i].interval.Contains(t);
    ClaimKeys(s, i);
    var keys := s.Keys();
    var p := PartitionPoint(keys, t);
    var start, end := s.claims[i].interval.start, s.claims[i].interval.end;
    var a :| 0 <= a < |keys| && keys[a] == start;
    var b :| 0 <= b < |keys| && keys[b] == end;
    assert p <= b;
    assert forall j :: p <= j < |keys| ==> t < keys[j];
    k := p - 1;
  }

  // ---- Conflicts ----

  /** The sweep refuses `t`: the window holding it is demanded and blocked at its start. */
  ghost predicate Refused(s: Sweep, t: int) {
    exists k :: InWindow(s.Keys(), k, t) && s.Demand(s.Keys()[k]) > 0 && s.Blocked(s.Keys()[k])
  }

  /** The conflict's numbers hold at every timestamp it covers, and its holders are complete. */
  ghost predicate Exact(s: Sweep, c: AvailabilityConflict) {
    && c.interval.Valid() && c.poolId == s.poolId
    && c.promiseIds == Holders(s.promises, s.poolId, c.interval)
    && c.deficit == c.required - c.available
    && forall t :: c.interval.Contains(t) ==>
                     && c.required == s.Demand(t)
                     && c.available == Max(0, s.Slack(t))
                     && Refused(s, t)
  }

  ghost predicate InOrder(conflicts: seq<AvailabilityConflict>) {
    forall i, j :: 0 <= i < j < |conflicts| ==> conflicts[i].interval.end <= conflicts[j].interval.start
  }

  ghost predicate Covers(conflicts: seq<AvailabilityConflict>, t: int) {
    exists i :: 0 <= i < |conflicts| && conflicts[i].interval.Contains(t)
  }

  ghost predicate AllExact(s: Sweep, conflicts: seq<AvailabilityConflict>) {
    forall i :: 0 <= i < |conflicts| ==> Exact(s, conflicts[i])
  }

  lemma {:induction false} HoldersCongruent(promises: map<PromiseId, Promise>, keys: seq<PromiseId>, poolId: PoolId,
                                            a: Interval, b: Interval)
    requires forall i :: 0 <= i < |keys| ==> keys[i] in promises
    requires forall k :: k in keys && k in promises && promises[k].Active() ==>
                           (promises[k].Touches(poolId, a) <==> promises[k].Touches(poolId, b))
    ensures HoldersAmong(promises, keys, poolId, a) == HoldersAmong(promises, keys, poolId, b)
  {
    if keys != [] {
      var n := |keys| - 1;
      var last := keys[n];
      assert last in keys;
      HoldersCongruent(promises, keys[..n], poolId, a, b);
    }
  }

  lemma TouchesUnion(promise: Promise, poolId: PoolId, a: Interval, b: Interval)
    requires ValidClaims(promise.bundle) && a.Valid() && b.Valid() && a.end == b.start
    ensures promise.Touches(poolId, Interval(a.start, b.end))
            <==> promise.Touches(poolId, a) || promise.Touches(poolId, b)
  {
    var union := Interval(a.start, b.end);
    if promise.Touches(poolId, union) {
      var i :|
        0 <= i < |promise.bundle| && promise.bundle[i].poolId == poolId && promise.bundle[i].interval.Overlaps(union);
      assert promise.bundle[i].Valid();
      assert promise.bundle[i].interval.Overlaps(a) || promise.bundle[i].interval.Overlaps(b);
    }
    if promise.Touches(poolId, a) {
      var i :|
        0 <= i < |promise.bundle| && promise.bundle[i].poolId == poolId && promise.bundle[i].interval.Overlaps(a);
      assert promise.bundle[i].interval.Overlaps(union);
    }
    if promise.Touches(poolId, b) {
      var i :|
        0 <= i < |promise.bundle| && promise.bundle[i].poolId == poolId && promise.bundle[i].interval.Overlaps(b);
      assert promise.bundle[i].interval.Overlaps(union);
    }
  }

  /** Two touching intervals with the same holders have those holders together. */
  lemma HoldersUnion(promises: map<PromiseId, Promise>, poolId: PoolId, a: Interval, b: Interval)
    requires forall id :: id in promises ==> ValidClaims(promises[id].bundle)
    requires a.Valid() && b.Valid() && a.end == b.start
    requires Holders(promises, poolId, a) == Holders(promises, poolId, b)
    ensures Holders(promises, poolId, Interval(a.start, b.end)) == Holders(promises, poolId, a)
  {
    var keys := SortedKeys(promises.Keys);
    assert forall i :: 0 <= i < |keys| ==> keys[i] in keys;
    var union := Interval(a.start, b.end);
    forall k | k in keys && k in promises && promises[k].Active()
      ensures promises[k].Touches(poolId, a) <==> promises[k].Touches(poolId, union)
    {
      TouchesUnion(promises[k], poolId, a, b);
      assert k in HoldersAmong(promises, keys, poolId, a) <==> k in HoldersAmong(promises, keys, poolId, b);
    }
    HoldersCongruent(promises, keys, poolId, a, union);
  }

  /** A refused window yields an exact conflict. */
  lemma WindowConflictExact(s: Sweep, k: nat)
    requires s.Valid() && k + 1 < |s.Keys()|
    requires s.Demand(s.Keys()[k]) > 0 && s.Blocked(s.Keys()[k])
    ensures Exact(s, s.ConflictOver(Interval(s.Keys()[k], s.Keys()[k + 1])))
  {
    var keys := s.Keys();
    var c := s.ConflictOver(Interval(keys[k], keys[k + 1]));
    forall t | c.interval.Contains(t)
      ensures c.required == s.Demand(t) && c.available == Max(0, s.Slack(t)) && Refused(s, t)
    {
      assert InWindow(keys, k, t);
      DemandConstant(s, k, t);
      SlackConstant(s, k, t);
    }
  }

  /** Merging keeps conflicts exact and ordered, and covers both parts. */
  lemma MergeExact(s: Sweep, conflicts: seq<AvailabilityConflict>, c: AvailabilityConflict)
    requires s.Valid() && AllExact(s, conflicts) && InOrder(conflicts) && Exact(s, c)
    requires conflicts != [] ==> conflicts[|conflicts| - 1].interval.end <= c.interval.start
    ensures var merged := MergeConflict(conflicts, c);
            && AllExact(s, merged) && InOrder(merged)
            && merged != [] && merged[|merged| - 1].interval.end == c.interval.end
            && forall t :: Covers(merged, t) <==> Covers(conflicts, t) || c.interval.Contains(t)
  {
    hide Holders;
    hide Refused;
    hide Exact;
    var merged := MergeConflict(conflicts, c);
    var n := |conflicts| - 1;
    ExactValid(s, conflicts);
    ExactValid(s, [c]);
    assert [c][0] == c;
    if merged == conflicts + [c] {
      assert AllExact(s, merged);
      EarlierEnds(conflicts);
      CoversPush(conflicts, c);
    } else {
      var last := conflicts[n];
      var joined := last.(interval := Interval(last.interval.start, c.interval.end));
      JoinedExact(s, last, c);
      assert conflicts == conflicts[..n] + [last];
      EarlierEnds(conflicts);
      CoversPush(conflicts[..n], last);
      CoversPush(conflicts[..n], joined);
    }
  }

  lemma ExactValid(s: Sweep, conflicts: seq<AvailabilityConflict>)
    requires AllExact(s, conflicts)
    ensures forall i :: 0 <= i < |conflicts| ==> conflicts[i].interval.Valid() && conflicts[i].poolId == s.poolId
  {
    forall i | 0 <= i < |conflicts|
      ensures conflicts[i].interval.Valid() && conflicts[i].poolId == s.poolId
    {
      assert Exact(s, conflicts[i]);
    }
  }

  lemma JoinedExact(s: Sweep, last: AvailabilityConflict, c: AvailabilityConflict)
    requires s.Valid() && Exact(s, last) && Exact(s, c) && last.interval.end == c.interval.start
    requires last.(interval := c.interval) == c
    ensures Exact(s, last.(interval := Interval(last.interval.start, c.interval.end)))
  {
    HoldersUnion(s.promises, s.poolId, last.interval, c.interval);
    var joined := Interval(last.interval.start, c.interval.end);
    forall t | joined.Contains(t)
      ensures last.interval.Contains(t) || c.interval.Contains(t)
    {
    }
  }

  lemma EarlierEnds(conflicts: seq<AvailabilityConflict>)
    requires InOrder(conflicts) && forall i :: 0 <= i < |conflicts| ==> conflicts[i].interval.Valid()
    ensures forall i :: 0 <= i < |conflicts| ==> conflicts[i].interval.end <= conflicts[|conflicts| - 1].interval.end
  {
  }

  lemma CoversPush(conflicts: seq<AvailabilityConflict>, c: AvailabilityConflict)
    ensures forall t :: Covers(conflicts + [c], t) <==> Covers(conflicts, t) || c.interval.Contains(t)
  {
    var all := conflicts + [c];
    forall t
      ensures Covers(all, t) <==> Covers(conflicts, t) || c.interval.Contains(t)
    {
      if Covers(conflicts, t) {
        var i :| 0 <= i < |conflicts| && conflicts[i].interval.Contains(t);
        assert all[i].interval.Contains(t);
      }
      if c.interval.Contains(t) {
        assert all[|conflicts|].interval.Contains(t);
      }
    }
  }

  /** The conflicts cover every refused timestamp of the first `k` windows. */
  ghost predicate CoversRefused(s: Sweep, conflicts: seq<AvailabilityConflict>, k: int) {
    forall j, t :: 0 <= j < k && InWindow(s.Keys(), j, t) && s.Demand(s.Keys()[j]) > 0 && s.Blocked(s.Keys()[j])
                   ==> Covers(conflicts, t)
  }

  /** What the conflicts of the first `k` windows satisfy. */
  ghost predicate ConflictsUpTo(s: Sweep, conflicts: seq<AvailabilityConflict>, k: int) {
    && AllExact(s, conflicts) && InOrder(conflicts) && CoversRefused(s, conflicts, k)
    && (conflicts != [] ==> 0 <= k < |s.Keys()| && conflicts[|conflicts| - 1].interval.end <= s.Keys()[k])
  }

  lemma ConflictStep(s: Sweep, k: nat, earlier: seq<AvailabilityConflict>)
    requires s.Valid() && k + 1 < |s.Keys()| && ConflictsUpTo(s, earlier, k)
    ensures ConflictsUpTo(s, s.NextConflicts(s.Keys(), k, earlier), k + 1)
  {
    hide SortedKeys;
    hide SweepTimes;
    hide Exact;
    hide MergeConflict;
    var keys := s.Keys();
    assert keys[k] < keys[k + 1];
    if s.Demand(keys[k]) > 0 && s.Blocked(keys[k]) {
      WindowConflictExact(s, k);
      MergeExact(s, earlier, s.ConflictOver(Interval(keys[k], keys[k + 1])));
    }
  }

  /** The first `k` windows' conflicts are exact, ordered, and cover every refused time. */
  lemma {:induction false} ConflictsCorrect(s: Sweep, k: nat)
    requires s.Valid() && (k < |s.Keys()| || k == 0)
    ensures ConflictsUpTo(s, s.Conflicts(s.Keys(), k), k)
  {
    if k > 0 {
      hide ConflictsUpTo;
      ConflictsCorrect(s, k - 1);
      ConflictStep(s, k - 1, s.Conflicts(s.Keys(), k - 1));
    }
  }

  // ---- Consumption ----

  /** Demand counted by the first `k` windows. */
  function DemandBefore(s: Sweep, k: nat, t: int): int
    requires k < |s.Keys()| || k == 0
  {
    if k == 0 || s.Keys()[k] <= t then 0 else s.Demand(t)
  }

  lemma NoDemandBeforeKeys(s: Sweep, t: int)
    requires s.Valid() && (s.Keys() != [] ==> t < s.Keys()[0])
    ensures s.Demand(t) == 0
  {
    DemandNonnegative(s.claims, t);
    if s.Demand(t) > 0 {
      var k := DemandedInWindow(s, t);
      assert false;
    }
  }

  lemma NoDemandAfterKeys(s: Sweep, t: int)
    requires s.Valid() && s.Keys() != [] && s.Keys()[|s.Keys()| - 1] <= t
    ensures s.Demand(t) == 0
  {
    DemandNonnegative(s.claims, t);
    if s.Demand(t) > 0 {
      var k := DemandedInWindow(s, t);
      assert false;
    }
  }

  /** Window `k` adds its own demand to what earlier windows counted. */
  lemma DemandBeforeStep(s: Sweep, k: nat, t: int)
    requires s.Valid() && k + 1 < |s.Keys()|
    ensures DemandBefore(s, k + 1, t)
            == DemandBefore(s, k, t) - SpanDelta(s.Keys()[k], s.Keys()[k + 1], -s.Demand(s.Keys()[k]), t)
  {
    hide SortedKeys;
    hide SweepTimes;
    var keys := s.Keys();
    assert keys[k] < keys[k + 1];
    if keys[k] <= t < keys[k + 1] {
      DemandConstant(s, k, t);
    } else if k == 0 && t < keys[0] {
      NoDemandBeforeKeys(s, t);
    }
  }

  /** The points carry base slack minus the demand of the first `k` windows. */
  ghost predicate ConsumedUpTo(s: Sweep, points: seq<SlackPoint>, k: nat)
    requires k < |s.Keys()| || k == 0
  {
    Canonical(points) && forall t :: At(0, points, t) == s.Slack(t) - DemandBefore(s, k, t)
  }

  lemma ConsumeStep(s: Sweep, k: nat, points: seq<SlackPoint>)
    requires s.Valid() && k + 1 < |s.Keys()| && ConsumedUpTo(s, points, k)
    ensures var demand := s.Demand(s.Keys()[k]);
            ConsumedUpTo(s, if demand == 0 then points else AddOn(points, s.Keys()[k], s.Keys()[k + 1], -demand), k + 1)
  {
    hide SortedKeys;
    hide SweepTimes;
    hide At;
    hide AddOn;
    var keys := s.Keys();
    var demand := s.Demand(keys[k]);
    assert keys[k] < keys[k + 1];
    AddOnCorrect(points, keys[k], keys[k + 1], -demand);
    forall t
      ensures DemandBefore(s, k + 1, t)
              == DemandBefore(s, k, t) - SpanDelta(keys[k], keys[k + 1], -demand, t)
    {
      DemandBeforeStep(s, k, t);
    }
  }

  lemma ConsumePush(points: seq<SlackPoint>, adjustments: seq<Adjustment>, last: Adjustment)
    ensures Consume(points, adjustments + [last])
            == AddOn(Consume(points, adjustments), last.interval.start, last.interval.end, -last.demand)
  {
    assert (adjustments + [last])[..|adjustments|] == adjustments;
  }

  lemma ConsumeBase(s: Sweep)
    requires s.Valid() && Canonical(s.base)
    ensures ConsumedUpTo(s, Consume(s.base, s.Adjustments(s.Keys(), 0)), 0)
  {
  }

  lemma {:induction false} ConsumeCorrect(s: Sweep, k: nat)
    requires s.Valid() && Canonical(s.base) && (k < |s.Keys()| || k == 0)
    ensures ConsumedUpTo(s, Consume(s.base, s.Adjustments(s.Keys(), k)), k)
  {
    hide SortedKeys;
    hide SweepTimes;
    hide ConsumedUpTo;
    hide Consume;
    if k == 0 {
      ConsumeBase(s);
    } else {
      var keys := s.Keys();
      var earlier := s.Adjustments(keys, k - 1);
      ConsumeCorrect(s, k - 1);
      ConsumeStep(s, k - 1, Consume(s.base, earlier));
      ConsumePush(s.base, earlier, Adjustment(Interval(keys[k - 1], keys[k]), s.Demand(keys[k - 1])));
    }
  }

  /** All windows together consume exactly the demand, everywhere. */
  lemma ConsumedEverywhere(s: Sweep)
    requires s.Valid() && Canonical(s.base) && s.Keys() != []
    ensures var points := Consume(s.base, s.Adjustments(s.Keys(), |s.Keys()| - 1));
            BaseMinusDemand(s, points)
  {
    hide At;
    hide SortedKeys;
    hide SweepTimes;
    var n := |s.Keys()| - 1;
    ConsumeCorrect(s, n);
    forall t
      ensures DemandBefore(s, n, t) == s.Demand(t)
    {
      if s.Keys()[n] <= t {
        NoDemandAfterKeys(s, t);
      } else if n == 0 {
        NoDemandBeforeKeys(s, t);
      }
    }
  }

  lemma KeysNonempty(s: Sweep)
    requires s.claims != []
    ensures |s.Keys()| >= 2 || !s.claims[0].Valid()
  {
    ClaimKeys(s, 0);
    if s.claims[0].Valid() {
      var keys := s.Keys();
      var a :| 0 <= a < |keys| && keys[a] == s.claims[0].interval.start;
      var b :| 0 <= b < |keys| && keys[b] == s.claims[0].interval.end;
    }
  }

  // ---- The sweep is exact ----

  /** The candidate claims fit: wherever they demand anything, slack suffices. */
  ghost predicate Fits(s: Sweep) {
    forall t :: s.Demand(t) > 0 ==> s.Demand(t) <= s.Slack(t)
  }

  lemma RefusedExactly(s: Sweep, t: int)
    requires s.Valid() && s.floor.None?
    ensures Refused(s, t) <==> s.Demand(t) > 0 && s.Demand(t) > s.Slack(t)
  {
    hide SortedKeys;
    hide SweepTimes;
    if Refused(s, t) {
      var k :| InWindow(s.Keys(), k, t) && s.Demand(s.Keys()[k]) > 0 && s.Blocked(s.Keys()[k]);
      DemandConstant(s, k, t);
      SlackConstant(s, k, t);
    }
    if s.Demand(t) > 0 && s.Demand(t) > s.Slack(t) {
      var k := DemandedInWindow(s, t);
      DemandConstant(s, k, t);
      SlackConstant(s, k, t);
      assert s.Blocked(s.Keys()[k]);
    }
  }

  /** The sweep breaks where a claim starts or ends, and where slack changes under one. */
  ghost predicate BreakAt(s: Sweep, u: int) {
    || (exists i :: 0 <= i < |s.claims| && (s.claims[i].interval.start == u || s.claims[i].interval.end == u))
    || (s.Demand(u) > 0 && s.Slack(u - 1) != s.Slack(u))
  }

  /** The last break at or before `t`. */
  ghost predicate LastBreak(s: Sweep, u: int, t: int) {
    u <= t && BreakAt(s, u) && forall v :: u < v <= t ==> !BreakAt(s, v)
  }

  lemma KeysBreak(s: Sweep, u: int)
    requires s.Valid() && Canonical(s.base)
    ensures u in SweepTimes(s.claims, s.base) <==> BreakAt(s, u)
  {
    hide At, Usage;
    DemandNonnegative(s.claims, u);
    if j :| 0 <= j < |s.base| && Covered(s.claims, s.base[j].timestamp) && s.base[j].timestamp == u {
      AtIndex(0, s.base, j, u);
      if j == 0 {
        AtLater(0, s.base, u - 1);
      } else {
        AtIndex(0, s.base, j - 1, u - 1);
      }
    }
    if s.Demand(u) > 0 && s.Slack(u - 1) != s.Slack(u) {
      if forall j :: 0 <= j < |s.base| ==> !(u - 1 < s.base[j].timestamp <= u) {
        SameBetween(s.base, u - 1, u);
      }
      var j :| 0 <= j < |s.base| && u - 1 < s.base[j].timestamp <= u;
      assert s.base[j].timestamp == u;
    }
  }

  /** A window starts at the last break. */
  lemma WindowBreaks(s: Sweep, k: nat, t: int)
    requires s.Valid() && Canonical(s.base) && InWindow(s.Keys(), k, t)
    ensures LastBreak(s, s.Keys()[k], t)
  {
    hide SweepTimes, SortedKeys, BreakAt;
    var keys := s.Keys();
    var start := keys[k];
    assert start in keys;
    KeysBreak(s, start);
    forall v | start < v <= t
      ensures !BreakAt(s, v)
    {
      NotAKey(keys, k, v);
      KeysBreak(s, v);
    }
  }

  /**
   What a sweep refuses: demand that leaves slack below zero or, under a floor, below the lower of zero and
   the floor at the last break.
   */
  lemma RefusedAtBreak(s: Sweep, t: int)
    requires s.Valid() && Canonical(s.base)
    ensures Refused(s, t)
            <==> s.Demand(t) > 0
                 && exists u :: LastBreak(s, u, t)
                                && s.Slack(t) - s.Demand(t)
                                   < if s.floor.None? then 0 else Min(0, At(0, s.floor.value, u))
  {
    hide SortedKeys, SweepTimes, At, Usage, BreakAt;
    if Refused(s, t) {
      var k :| InWindow(s.Keys(), k, t) && s.Demand(s.Keys()[k]) > 0 && s.Blocked(s.Keys()[k]);
      DemandConstant(s, k, t);
      SlackConstant(s, k, t);
      WindowBreaks(s, k, t);
    }
    if s.Demand(t) > 0 {
      var k := DemandedInWindow(s, t);
      DemandConstant(s, k, t);
      SlackConstant(s, k, t);
      WindowBreaks(s, k, t);
      assert forall u :: LastBreak(s, u, t) ==> u == s.Keys()[k];
    }
  }

  /** The conflicts of a finished sweep cover exactly the refused timestamps. */
  lemma ConflictsCoverRefused(s: Sweep, t: int)
    requires s.Valid() && s.Keys() != []
    ensures var conflicts := s.Conflicts(s.Keys(), |s.Keys()| - 1);
            && AllExact(s, conflicts) && InOrder(conflicts)
            && (Covers(conflicts, t) <==> Refused(s, t))
  {
    hide SortedKeys;
    hide SweepTimes;
    var n := |s.Keys()| - 1;
    ConflictsCorrect(s, n);
    var conflicts := s.Conflicts(s.Keys(), n);
    if Covers(conflicts, t) {
      var i :| 0 <= i < |conflicts| && conflicts[i].interval.Contains(t);
      assert Exact(s, conflicts[i]);
    }
    if Refused(s, t) {
      var k :| InWindow(s.Keys(), k, t) && s.Demand(s.Keys()[k]) > 0 && s.Blocked(s.Keys()[k]);
      assert CoversRefused(s, conflicts, n);
    }
  }

  /** What an unavailable answer reports. */
  ghost predicate ExactConflicts(s: Sweep, conflicts: seq<AvailabilityConflict>) {
    && conflicts != [] && AllExact(s, conflicts) && InOrder(conflicts)
    && forall t :: Covers(conflicts, t) <==> Refused(s, t)
  }

  /** Canonical points of base slack minus demand. */
  ghost predicate BaseMinusDemand(s: Sweep, points: seq<SlackPoint>) {
    Canonical(points) && forall t :: At(0, points, t) == s.Slack(t) - s.Demand(t)
  }

  /** The answer read off a finished sweep. */
  lemma VerdictCases(s: Sweep)
    requires |s.Keys()| >= 2
    ensures var n := |s.Keys()| - 1;
            var conflicts := s.Conflicts(s.Keys(), n);
            match s.Verdict() {
              case Err(error) =>
                && s.Exceeds(s.Keys(), I64_MAX)
                && (error == QuantityOverflow ==> s.Exceeds(s.Keys(), U64_MAX))
              case Ok(Available(points)) =>
                conflicts == [] && points == Consume(s.base, s.Adjustments(s.Keys(), n))
              case Ok(Unavailable(found)) =>
                found == conflicts != []
            }
  {
    hide SortedKeys;
    hide SweepTimes;
    hide Consume;
    hide Sweep.Conflicts;
    hide Sweep.Adjustments;
    hide Usage;
  }

  /** Available exactly when nothing is refused; then demand is consumed pointwise. */
  lemma VerdictCorrect(s: Sweep)
    requires s.Valid() && Canonical(s.base) && s.claims != []
    ensures s.Verdict().Err? ==> exists t :: s.Demand(t) > I64_MAX
    ensures s.Verdict().Err? && s.Verdict().error == QuantityOverflow ==> exists t :: s.Demand(t) > U64_MAX
    ensures s.Verdict().Ok? && s.Verdict().value.Available? ==>
              (forall t :: !Refused(s, t)) && BaseMinusDemand(s, s.Verdict().value.points)
    ensures s.Verdict().Ok? && s.Verdict().value.Unavailable? ==> ExactConflicts(s, s.Verdict().value.conflicts)
  {
    assert s.claims[0].Valid();
    KeysNonempty(s);
    VerdictCases(s);
    ConsumedEverywhere(s);
    AllConflicts(s);
    hide *;
    var keys := s.Keys();
    var verdict := s.Verdict();
    if verdict.Ok? && verdict.value.Available? {
      NothingCovered(s);
    } else if verdict.Ok? {
      ConflictsExact(s);
    }
  }

  lemma NothingCovered(s: Sweep)
    requires s.Keys() != []
    requires var conflicts := s.Conflicts(s.Keys(), |s.Keys()| - 1);
             conflicts == [] && forall t :: Covers(conflicts, t) <==> Refused(s, t)
    ensures forall t :: !Refused(s, t)
  {
    hide Refused;
  }

  lemma ConflictsExact(s: Sweep)
    requires s.Keys() != []
    requires var conflicts := s.Conflicts(s.Keys(), |s.Keys()| - 1);
             && conflicts != [] && AllExact(s, conflicts) && InOrder(conflicts)
             && forall t :: Covers(conflicts, t) <==> Refused(s, t)
    ensures ExactConflicts(s, s.Conflicts(s.Keys(), |s.Keys()| - 1))
  {
    hide Refused;
    hide Exact;
  }

  lemma AllConflicts(s: Sweep)
    requires s.Valid() && s.Keys() != []
    ensures var conflicts := s.Conflicts(s.Keys(), |s.Keys()| - 1);
            && AllExact(s, conflicts) && InOrder(conflicts)
            && forall t :: Covers(conflicts, t) <==> Refused(s, t)
  {
    hide SortedKeys;
    hide SweepTimes;
    ConflictsCorrect(s, |s.Keys()| - 1);
    forall t
      ensures var conflicts := s.Conflicts(s.Keys(), |s.Keys()| - 1);
              Covers(conflicts, t) <==> Refused(s, t)
    {
      ConflictsCoverRefused(s, t);
    }
  }

  /** The first conflict witnesses a refused timestamp. */
  lemma ConflictWitness(s: Sweep, conflicts: seq<AvailabilityConflict>)
    requires ExactConflicts(s, conflicts)
    ensures exists t :: Refused(s, t)
  {
    var c := conflicts[0];
    assert Exact(s, c) && c.interval.Contains(c.interval.start);
    assert Refused(s, c.interval.start);
  }

  /**
   The admission sweep is exact. Without a deficit floor, and when demand fits 64 bits, it answers
   available exactly when slack covers demand at every demanded timestamp; the new timeline is base
   minus demand; otherwise the conflicts cover exactly the uncovered timestamps with exact numbers.
   */
  lemma SweepExact(s: Sweep)
    requires s.Valid() && Canonical(s.base) && s.claims != [] && s.floor.None?
    requires forall t :: s.Demand(t) <= U64_MAX
    ensures s.Verdict().Ok?
    ensures s.Verdict().value.Available? <==> Fits(s)
    ensures s.Verdict().value.Available? ==> BaseMinusDemand(s, s.Verdict().value.points)
    ensures s.Verdict().value.Unavailable? ==>
              var conflicts := s.Verdict().value.conflicts;
              && AllExact(s, conflicts) && InOrder(conflicts)
              && forall t :: Covers(conflicts, t) <==> s.Demand(t) > 0 && s.Demand(t) > s.Slack(t)
  {
    hide At;
    hide Exact;
    hide Usage;
    hide Refused;
    hide BaseMinusDemand;
    VerdictCorrect(s);
    RefusedMeansShort(s);
    FittingVerdict(s);
    var verdict := s.Verdict();
    hide Sweep.Verdict;
    if verdict.Ok? && verdict.value.Unavailable? {
      ConflictWitness(s, verdict.value.conflicts);
    }
  }

  lemma RefusedMeansShort(s: Sweep)
    requires s.Valid() && s.floor.None?
    ensures forall t :: Refused(s, t) <==> s.Demand(t) > 0 && s.Demand(t) > s.Slack(t)
  {
    forall t
      ensures Refused(s, t) <==> s.Demand(t) > 0 && s.Demand(t) > s.Slack(t)
    {
      RefusedExactly(s, t);
    }
  }

  /** With demand within 64 bits there is an answer: demand that fits slack fits 63 bits too. */
  lemma FittingVerdict(s: Sweep)
    requires s.Valid() && s.claims != [] && s.floor.None?
    requires forall t :: s.Demand(t) <= U64_MAX
    ensures s.Verdict().Ok?
  {
    hide At;
    hide Exact;
    hide SortedKeys;
    hide SweepTimes;
    assert s.claims[0].Valid();
    KeysNonempty(s);
    AllConflicts(s);
    var keys := s.Keys();
    var conflicts := s.Conflicts(keys, |keys| - 1);
    forall k | 0 <= k < |keys| - 1
      ensures conflicts == [] ==> s.Demand(keys[k]) <= I64_MAX
    {
      SlackFits(s, keys[k]);
      assert keys[k] < keys[k + 1];
      if s.Demand(keys[k]) > I64_MAX {
        assert InWindow(keys, k, keys[k]) && s.Blocked(keys[k]);
        assert Refused(s, keys[k]);
        assert Covers(conflicts, keys[k]);
      }
    }
  }

  lemma SlackFits(s: Sweep, t: int)
    requires s.Valid()
    ensures FitsI64(s.Slack(t))
  {
    var k := FindInForce(s.base, t);
  }

  // ---- Conflicts are merged ----

  ghost predicate SameFacts(a: AvailabilityConflict, b: AvailabilityConflict) {
    a.required == b.required && a.available == b.available && a.deficit == b.deficit && a.promiseIds == b.promiseIds
  }

  /** No conflict continues the one before it with the same facts. */
  ghost predicate Unrepeated(conflicts: seq<AvailabilityConflict>) {
    forall i :: 0 < i < |conflicts| ==>
                  !(conflicts[i - 1].interval.end == conflicts[i].interval.start
                    && SameFacts(conflicts[i - 1], conflicts[i]))
  }

  lemma MergeKeeps(conflicts: seq<AvailabilityConflict>, conflict: AvailabilityConflict)
    requires Unrepeated(conflicts)
    ensures Unrepeated(MergeConflict(conflicts, conflict))
  {
    var merged := MergeConflict(conflicts, conflict);
    forall i | 0 < i < |merged|
      ensures !(merged[i - 1].interval.end == merged[i].interval.start && SameFacts(merged[i - 1], merged[i]))
    {
      assert i < |conflicts| ==> !(conflicts[i - 1].interval.end == conflicts[i].interval.start
                                   && SameFacts(conflicts[i - 1], conflicts[i]));
    }
  }

  lemma {:induction false} ConflictsMerged(s: Sweep, keys: seq<int>, k: nat)
    requires k < |keys| || k == 0
    ensures Unrepeated(s.Conflicts(keys, k))
  {
    hide MergeConflict, At, Usage, Holders;
    if k > 0 {
      ConflictsMerged(s, keys, k - 1);
      MergeKeeps(s.Conflicts(keys, k - 1), s.ConflictOver(Interval(keys[k - 1], keys[k])));
    }
  }

  /** The conflicts of an unavailable sweep are in order, disjoint and merged. */
  lemma VerdictMerged(s: Sweep)
    requires s.Valid() && s.claims != [] && s.Verdict().Ok? && s.Verdict().value.Unavailable?
    ensures var conflicts := s.Verdict().value.conflicts;
            AllExact(s, conflicts) && InOrder(conflicts) && Unrepeated(conflicts)
  {
    assert s.claims[0].Valid();
    KeysNonempty(s);
    VerdictCases(s);
    AllConflicts(s);
    ConflictsMerged(s, s.Keys(), |s.Keys()| - 1);
  }

  // ---- The verdict, by demand and refusals ----

  ghost predicate DemandPasses(s: Sweep, bound: int) {
    exists t :: s.Demand(t) > bound
  }

  /** Some window passes a bound exactly when demand does at some time. */
  lemma ExceedsExactly(s: Sweep, bound: int)
    requires s.Valid() && bound >= 0
    ensures s.Exceeds(s.Keys(), bound) <==> DemandPasses(s, bound)
  {
    hide Usage, SortedKeys, SweepTimes;
    if t :| s.Demand(t) > bound {
      var k := DemandedInWindow(s, t);
      DemandConstant(s, k, t);
    }
  }

  /**
   The whole verdict: demand past 64 bits is an error; else any refusal makes the pool unavailable; else
   demand past 63 bits is an error; else the pool is available.
   */
  lemma VerdictExact(s: Sweep)
    requires s.Valid() && s.claims != []
    ensures match s.Verdict()
            case Err(error) =>
              if error == QuantityOverflow then DemandPasses(s, U64_MAX)
              else error == IndexOverflow && !DemandPasses(s, U64_MAX) && DemandPasses(s, I64_MAX)
                   && forall t :: !Refused(s, t)
            case Ok(Unavailable(_)) => !DemandPasses(s, U64_MAX) && exists t :: Refused(s, t)
            case Ok(Available(_)) => !DemandPasses(s, I64_MAX) && forall t :: !Refused(s, t)
  {
    hide At, Exact, Usage, Refused, SortedKeys, SweepTimes;
    assert s.claims[0].Valid();
    KeysNonempty(s);
    AllConflicts(s);
    ExceedsExactly(s, U64_MAX);
    ExceedsExactly(s, I64_MAX);
    var conflicts := s.Conflicts(s.Keys(), |s.Keys()| - 1);
    hide Sweep.Conflicts, Sweep.Exceeds, DemandPasses;
    if conflicts != [] {
      ConflictStarts(s, conflicts);
    }
  }

  lemma ConflictStarts(s: Sweep, conflicts: seq<AvailabilityConflict>)
    requires AllExact(s, conflicts) && conflicts != [] && forall t :: Covers(conflicts, t) <==> Refused(s, t)
    ensures exists t :: Refused(s, t)
  {
    hide Refused, Exact;
    ExactValid(s, conflicts);
    var start := conflicts[0].interval.start;
    assert conflicts[0].interval.Contains(start);
    assert Covers(conflicts, start);
    assert Refused(s, start);
  }

  // ---- The deficit floor ----

  /** The documented replacement rule: no demanded timestamp ends worse than it was. */
  ghost predicate NoWorse(s: Sweep) {
    forall t :: s.Demand(t) > 0 ==> s.Slack(t) - s.Demand(t) >= s.Allowed(t)
  }

  /** An accepted window keeps its whole stretch at or above the floor sampled at its start. */
  lemma FloorSampledAtStart(s: Sweep, t: int) returns (k: nat)
    requires s.Valid() && s.Demand(t) > 0 && !Refused(s, t)
    ensures InWindow(s.Keys(), k, t) && s.Slack(t) - s.Demand(t) >= s.Allowed(s.Keys()[k])
  {
    hide SortedKeys;
    hide SweepTimes;
    k := DemandedInWindow(s, t);
    DemandConstant(s, k, t);
    SlackConstant(s, k, t);
  }

  /** Without a deficit in the floor the floor changes nothing. */
  lemma DeficitFreeFloor(s: Sweep)
    requires s.floor.Some? && forall t :: At(0, s.floor.value, t) >= 0
    ensures s.Verdict() == s.(floor := None).Verdict()
  {
    var plain := s.(floor := None);
    forall t
      ensures s.Allowed(t) == plain.Allowed(t)
    {
    }
    var keys := s.Keys();
    assert keys == plain.Keys();
    SameConflicts(s, plain, keys, if keys == [] then 0 else |keys| - 1);
    SameAdjustments(s, plain, keys, if keys == [] then 0 else |keys| - 1);
    assert forall k :: 0 <= k < |keys| ==> s.Demand(keys[k]) == plain.Demand(keys[k]);
  }

  lemma {:induction false} SameConflicts(a: Sweep, b: Sweep, keys: seq<int>, k: nat)
    requires k < |keys| || k == 0
    requires b == a.(floor := b.floor) && forall t :: a.Allowed(t) == b.Allowed(t)
    ensures a.Conflicts(keys, k) == b.Conflicts(keys, k)
  {
    hide Sweep.NextConflicts, Sweep.Allowed;
    if k > 0 {
      SameConflicts(a, b, keys, k - 1);
      SameNext(a, b, keys, k - 1, a.Conflicts(keys, k - 1));
    }
  }

  lemma SameNext(a: Sweep, b: Sweep, keys: seq<int>, k: nat, earlier: seq<AvailabilityConflict>)
    requires k + 1 < |keys| && b == a.(floor := b.floor) && a.Allowed(keys[k]) == b.Allowed(keys[k])
    ensures a.NextConflicts(keys, k, earlier) == b.NextConflicts(keys, k, earlier)
  {
    hide At, Usage, Holders, MergeConflict, Sweep.Allowed;
  }

  lemma {:induction false} SameAdjustments(a: Sweep, b: Sweep, keys: seq<int>, k: nat)
    requires (k < |keys| || k == 0) && b == a.(floor := b.floor)
    ensures a.Adjustments(keys, k) == b.Adjustments(keys, k)
  {
    hide At, Usage;
    if k > 0 {
      SameAdjustments(a, b, keys, k - 1);
    }
  }

  /** Adds a redundant base point at every floor breakpoint. */
  function Refine(base: seq<SlackPoint>, breaks: seq<SlackPoint>): seq<SlackPoint> {
    if breaks == [] then base
    else
      var n := |breaks| - 1;
      WithBoundary(Refine(base, breaks[..n]), breaks[n].timestamp)
  }

  lemma RefineStep(base: seq<SlackPoint>, breaks: seq<SlackPoint>)
    ensures breaks == [] ==> Refine(base, breaks) == base
    ensures breaks != [] ==>
              Refine(base, breaks)
              == WithBoundary(Refine(base, breaks[..|breaks| - 1]), breaks[|breaks| - 1].timestamp)
  {
    hide WithBoundary;
  }

  lemma {:induction false} RefineCorrect(base: seq<SlackPoint>, breaks: seq<SlackPoint>)
    requires Sorted(base)
    ensures Sorted(Refine(base, breaks))
    ensures forall t :: At(0, Refine(base, breaks), t) == At(0, base, t)
    ensures forall j :: 0 <= j < |breaks| ==> HasPointAt(Refine(base, breaks), breaks[j].timestamp)
  {
    hide *;
    RefineStep(base, breaks);
    if breaks != [] {
      var n := |breaks| - 1;
      RefineCorrect(base, breaks[..n]);
      WithBoundaryCorrect(Refine(base, breaks[..n]), breaks[n].timestamp);
      forall j | 0 <= j < n
        ensures HasPointAt(Refine(base, breaks), breaks[j].timestamp)
      {
        assert breaks[..n][j] == breaks[j];
      }
    }
  }

  /** The sweep that also breaks at the floor's own points. */
  function Repaired(s: Sweep): Sweep
    requires s.floor.Some?
  {
    s.(base := Refine(s.base, s.floor.value))
  }

  lemma BoundaryFits(points: seq<SlackPoint>, t: int)
    requires Sorted(points) && AllFit(points)
    ensures AllFit(WithBoundary(points, t))
  {
    hide At;
    var k := FindInForce(points, t);
  }

  lemma {:induction false} RefineFits(base: seq<SlackPoint>, breaks: seq<SlackPoint>)
    requires Sorted(base) && AllFit(base)
    ensures AllFit(Refine(base, breaks))
  {
    if breaks != [] {
      hide AllFit;
      var n := |breaks| - 1;
      RefineFits(base, breaks[..n]);
      RefineCorrect(base, breaks[..n]);
      BoundaryFits(Refine(base, breaks[..n]), breaks[n].timestamp);
    }
  }

  lemma RepairedValid(s: Sweep)
    requires s.Valid() && s.floor.Some?
    ensures Repaired(s).Valid()
    ensures forall t :: Repaired(s).Slack(t) == s.Slack(t) && Repaired(s).Demand(t) == s.Demand(t)
  {
    hide At;
    hide Refine;
    RefineCorrect(s.base, s.floor.value);
    RefineFits(s.base, s.floor.value);
  }

  /** Sweeping over the floor's breakpoints as well refuses exactly what the documented rule forbids. */
  lemma RepairedSweepExact(s: Sweep, t: int)
    requires s.Valid() && s.floor.Some?
    ensures Refused(Repaired(s), t) <==> s.Demand(t) > 0 && s.Slack(t) - s.Demand(t) < s.Allowed(t)
  {
    hide SortedKeys;
    hide SweepTimes;
    hide At;
    RepairedValid(s);
    RefineCorrect(s.base, s.floor.value);
    var r := Repaired(s);
    if Refused(r, t) {
      var k :| InWindow(r.Keys(), k, t) && r.Demand(r.Keys()[k]) > 0 && r.Blocked(r.Keys()[k]);
      DemandConstant(r, k, t);
      SlackConstant(r, k, t);
      FloorConstant(r, k, t);
    }
    if s.Demand(t) > 0 && s.Slack(t) - s.Demand(t) < s.Allowed(t) {
      var k := DemandedInWindow(r, t);
      DemandConstant(r, k, t);
      SlackConstant(r, k, t);
      FloorConstant(r, k, t);
      assert r.Blocked(r.Keys()[k]);
    }
  }

  /** A sweep that finds an answer demands no more than 63 bits wherever it is available. */
  lemma AvailableBounded(s: Sweep, t: int)
    requires s.Valid() && s.Verdict().Ok? && s.Verdict().value.Available?
    ensures s.Demand(t) <= I64_MAX
  {
    hide SortedKeys;
    hide SweepTimes;
    hide Usage;
    hide Consume;
    if s.Demand(t) > I64_MAX {
      var k := DemandedInWindow(s, t);
      DemandConstant(s, k, t);
    }
  }

  /** With demand within 63 bits a sweep answers, and is available exactly when it refuses nothing. */
  lemma BoundedVerdict(s: Sweep)
    requires s.Valid() && s.claims != [] && forall t :: s.Demand(t) <= I64_MAX
    ensures s.Verdict().Ok?
    ensures s.Verdict().value.Available? <==> forall t :: !Refused(s, t)
  {
    hide At;
    hide Exact;
    hide SortedKeys;
    hide SweepTimes;
    hide Usage;
    hide Refused;
    assert s.claims[0].Valid();
    KeysNonempty(s);
    AllConflicts(s);
    VerdictCases(s);
    var conflicts := s.Conflicts(s.Keys(), |s.Keys()| - 1);
    hide Sweep.Verdict;
    hide Sweep.Conflicts;
    if conflicts != [] {
      assert Exact(s, conflicts[0]);
      ExactValid(s, conflicts);
      assert conflicts[0].interval.Contains(conflicts[0].interval.start);
      assert Covers(conflicts, conflicts[0].interval.start);
    }
  }

  /** The sweep answers that its demand fits. */
  ghost predicate Accepts(s: Sweep) {
    s.Verdict().Ok? && s.Verdict().value.Available?
  }

  /** What the sweep over the floor's breakpoints accepts, the original accepts. */
  lemma RepairedStricter(s: Sweep)
    requires s.Valid() && s.floor.Some? && s.claims != [] && Accepts(Repaired(s))
    ensures Accepts(s)
  {
    hide At, Usage, Refine, SortedKeys, SweepTimes;
    RepairedValid(s);
    forall t
      ensures s.Demand(t) <= I64_MAX
    {
      AvailableBounded(Repaired(s), t);
    }
    hide Sweep.Verdict;
    BoundedVerdict(s);
    BoundedVerdict(Repaired(s));
    forall t
      ensures !Refused(s, t)
    {
      if Refused(s, t) {
        var k :| InWindow(s.Keys(), k, t) && s.Demand(s.Keys()[k]) > 0 && s.Blocked(s.Keys()[k]);
        RepairedSweepExact(s, s.Keys()[k]);
      }
    }
  }

  lemma RepairedForbids(s: Sweep)
    requires s.Valid() && s.floor.Some?
    ensures NoWorse(s) <==> forall t :: !Refused(Repaired(s), t)
  {
    hide At, Usage, Refused, Repaired, Sweep.Valid;
    forall t
      ensures Refused(Repaired(s), t) <==> s.Demand(t) > 0 && s.Slack(t) - s.Demand(t) < s.Allowed(t)
    {
      RepairedSweepExact(s, t);
    }
  }

  /**
   A replacement is accepted and meets the documented rule exactly when the sweep that also breaks at
   the floor's own points accepts it.
   */
  lemma AcceptedNoWorseExactly(s: Sweep)
    requires s.Valid() && s.floor.Some? && s.claims != []
    ensures Accepts(s) && NoWorse(s) <==> Accepts(Repaired(s))
    ensures Accepts(s) ==> Repaired(s).Verdict().Ok?
  {
    hide Refused, Usage, At, NoWorse, Refine, Sweep.Verdict;
    RepairedValid(s);
    RepairedForbids(s);
    if Accepts(Repaired(s)) {
      RepairedStricter(s);
    }
    if Accepts(s) {
      forall t
        ensures Repaired(s).Demand(t) <= I64_MAX
      {
        AvailableBounded(s, t);
      }
      BoundedVerdict(Repaired(s));
    }
  }

  lemma FloorConstant(r: Sweep, k: nat, t: int)
    requires r.Valid() && r.floor.Some? && InWindow(r.Keys(), k, t) && r.Demand(r.Keys()[k]) > 0
    requires forall j :: 0 <= j < |r.floor.value| ==> HasPointAt(r.base, r.floor.value[j].timestamp)
    ensures At(0, r.floor.value, t) == At(0, r.floor.value, r.Keys()[k])
  {
    hide SortedKeys;
    hide SweepTimes;
    hide At;
    var keys := r.Keys();
    forall j | 0 <= j < |r.floor.value|
      ensures !(keys[k] < r.floor.value[j].timestamp <= t)
    {
      var u := r.floor.value[j].timestamp;
      if keys[k] < u <= t {
        WindowCovered(r, k, u);
        var i :| 0 <= i < |r.base| && r.base[i].timestamp == u;
        BaseKey(r, i);
        NotAKey(keys, k, u);
        assert false;
      }
    }
    SameBetween(r.floor.value, keys[k], t);
  }

  /**
   A floor sampled only where the sweep breaks: demand of 6 against restored slack 5 on [0, 20) is
   accepted because the floor is -3 at 0, whatever the floor is later.
   */
  lemma SampledFloorAccepts(s: Sweep)
    requires s.Valid() && s.claims == [Claim(s.poolId, Interval(0, 20), 6)]
    requires s.base == [SlackPoint(0, 5), SlackPoint(20, 0)]
    requires s.floor.Some? && At(0, s.floor.value, 0) == -3
    ensures Accepts(s)
  {
    hide Sweep.Verdict;
    AtIndex(0, s.base, 0, 0);
    forall t
      ensures s.Demand(t) == if 0 <= t < 20 then 6 else 0
    {
      SingleUsage(s.claims[0], t);
    }
    hide Usage, At;
    forall t
      ensures !Refused(s, t)
    {
      OnlyWindow(s, t);
    }
    hide Refused;
    BoundedVerdict(s);
  }

  lemma SingleUsage(claim: Claim, t: int)
    ensures Usage([claim], t) == if claim.interval.Contains(t) then claim.quantity else 0
  {
    assert [claim][..0] == [];
  }

  lemma OnlyKeys(s: Sweep, k: nat)
    requires |s.claims| == 1 && s.claims[0].interval == Interval(0, 20)
    requires |s.base| == 2 && s.base[0].timestamp == 0 && s.base[1].timestamp == 20
    requires k < |s.Keys()|
    ensures s.Keys()[k] == 0 || s.Keys()[k] == 20
  {
    hide SortedKeys;
    var keys := s.Keys();
    var key := keys[k];
    assert key in keys;
    assert key in SweepTimes(s.claims, s.base);
  }

  lemma OnlyWindow(s: Sweep, t: int)
    requires |s.claims| == 1 && s.claims[0].interval == Interval(0, 20)
    requires |s.base| == 2 && s.base[0].timestamp == 0 && s.base[1].timestamp == 20
    requires !s.Blocked(0) && s.Demand(20) == 0
    ensures !Refused(s, t)
  {
    hide SortedKeys;
    hide SweepTimes;
    hide At;
    hide Usage;
    forall k | 0 <= k < |s.Keys()|
      ensures s.Keys()[k] == 0 || s.Keys()[k] == 20
    {
      OnlyKeys(s, k);
    }
  }
}
