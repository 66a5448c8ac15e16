/** Building a pool's slack from its capacity curve and its active claims. */
module TimelineRebuild {
  import opened Results
  import opened Intervals
  import opened StepFunctions
  import opened SlackBlocks
  import opened BlockSequences
  import opened SlackTimelines
  import opened CapacityCurves
  import opened Domain
  import opened OrderedKeys

  /** Everything that changes at one timestamp. */
  datatype TimelineEvent = TimelineEvent(capacity: Option<int>, usageStarted: int, usageEnded: int)

  const NoEvent := TimelineEvent(None, 0, 0)

  function Started(claims: seq<Claim>, t: int): int {
    if claims == [] then 0
    else
      var n := |claims| - 1;
      Started(claims[..n], t) + if claims[n].interval.start == t then claims[n].quantity else 0
  }

  function Ended(claims: seq<Claim>, t: int): int {
    if claims == [] then 0
    else
      var n := |claims| - 1;
      Ended(claims[..n], t) + if claims[n].interval.end == t then claims[n].quantity else 0
  }

  /** Capacity written at `t` when each segment writes its start and then its end. */
  function CapacityEvent(segments: seq<CapacitySegment>, t: int): Option<int> {
    if segments == [] then None
    else
      var last := segments[|segments| - 1];
      if last.interval.end == t then Some(0)
      else if last.interval.start == t then Some(last.capacity)
      else CapacityEvent(segments[..|segments| - 1], t)
  }

  function EventAt(segments: seq<CapacitySegment>, claims: seq<Claim>, t: int): TimelineEvent {
    TimelineEvent(CapacityEvent(segments, t), Started(claims, t), Ended(claims, t))
  }

  function EventOr(events: map<int, TimelineEvent>, t: int): TimelineEvent {
    if t in events then events[t] else NoEvent
  }

  /** The map holds exactly the timestamps at which something changes. */
  ghost predicate Collected(events: map<int, TimelineEvent>, segments: seq<CapacitySegment>, claims: seq<Claim>) {
    forall t :: EventOr(events, t) == EventAt(segments, claims, t) && (t in events ==> events[t] != NoEvent)
  }

  /** Physical capacity minus active usage. */
  function SlackOf(segments: seq<CapacitySegment>, claims: seq<Claim>, t: int): int {
    CapacityAt(segments, t) - Usage(claims, t)
  }

  ghost predicate Representable(segments: seq<CapacitySegment>, claims: seq<Claim>) {
    forall t :: FitsI64(SlackOf(segments, claims, t))
  }

  // ---- Sums over claims ----

  lemma {:induction false} SumsNonnegative(claims: seq<Claim>, t: int)
    requires ValidClaims(claims)
    ensures 0 <= Started(claims, t) <= Usage(claims, t) && 0 <= Ended(claims, t) <= Usage(claims, t - 1)
  {
    if claims != [] {
      var n := |claims| - 1;
      assert claims[n].Valid();
      SumsNonnegative(claims[..n], t);
    }
  }

  /** A timestamp where no sum moves is no end of any claim. */
  lemma QuietLast(claims: seq<Claim>, u: int)
    requires ValidClaims(claims) && claims != []
    ensures Started(claims, u) == 0
            ==> Started(claims[..|claims| - 1], u) == 0 && claims[|claims| - 1].interval.start != u
    ensures Ended(claims, u) == 0 ==> Ended(claims[..|claims| - 1], u) == 0 && claims[|claims| - 1].interval.end != u
  {
    assert claims[|claims| - 1].Valid();
    SumsNonnegative(claims[..|claims| - 1], u);
  }

  /** No change in between: usage moves by what starts and ends at `t`. */
  lemma {:induction false} UsageSteps(claims: seq<Claim>, before: int, t: int)
    requires ValidClaims(claims) && before < t
    requires forall u :: before < u < t ==> Started(claims, u) == 0 && Ended(claims, u) == 0
    ensures Usage(claims, t) == Usage(claims, before) - Ended(claims, t) + Started(claims, t)
    ensures Ended(claims, t) <= Usage(claims, before)
  {
    if claims != [] {
      var n := |claims| - 1;
      forall u | before < u < t
        ensures Started(claims[..n], u) == 0 && Ended(claims[..n], u) == 0
      {
        QuietLast(claims, u);
      }
      var span := claims[n].interval;
      QuietLast(claims, span.start);
      QuietLast(claims, span.end);
      assert claims[n].Valid();
      assert !(before < span.start < t) && !(before < span.end < t);
      UsageSteps(claims[..n], before, t);
    }
  }

  /** Before the first change nothing is in use. */
  lemma {:induction false} UsageBeforeAll(claims: seq<Claim>, t: int)
    requires ValidClaims(claims)
    requires forall u :: u <= t ==> Started(claims, u) == 0
    ensures Usage(claims, t) == 0
  {
    if claims != [] {
      var n := |claims| - 1;
      forall u | u <= t
        ensures Started(claims[..n], u) == 0
      {
        QuietLast(claims, u);
      }
      QuietLast(claims, claims[n].interval.start);
      assert !(claims[n].interval.start <= t);
      UsageBeforeAll(claims[..n], t);
    }
  }

  // ---- Capacity between events ----

  lemma {:induction false} NoEventAfter(segments: seq<CapacitySegment>, t: int)
    requires WellTyped(segments)
    requires forall i :: 0 <= i < |segments| ==> segments[i].interval.end < t
    ensures CapacityEvent(segments, t).None? && CapacityAt(segments, t) == 0
  {
    if segments != [] {
      var n := |segments| - 1;
      assert segments[n].interval.end < t && segments[n].interval.start < t;
      NoEventAfter(segments[..n], t);
    }
  }

  lemma EarlierEndBefore(segments: seq<CapacitySegment>, t: int)
    requires WellTyped(segments) && Disjoint(segments) && segments != []
    requires segments[|segments| - 1].interval.start < t
    ensures CapacityEvent(segments[..|segments| - 1], t).None?
    ensures CapacityAt(segments[..|segments| - 1], t) == 0
  {
    var n := |segments| - 1;
    assert forall i :: 0 <= i < n ==> segments[i].interval.end <= segments[n].interval.start;
    NoEventAfter(segments[..n], t);
  }

  lemma NotBoundary(segments: seq<CapacitySegment>, u: int)
    requires segments != [] && CapacityEvent(segments, u).None?
    ensures var last := segments[|segments| - 1].interval;
            last.start != u && last.end != u && CapacityEvent(segments[..|segments| - 1], u).None?
  {
  }

  /** Capacity at `t` is what an event wrote there, or what was in force before. */
  lemma {:induction false} CapacitySteps(segments: seq<CapacitySegment>, before: int, t: int)
    requires WellTyped(segments) && Disjoint(segments) && before < t
    requires forall u :: before < u < t ==> CapacityEvent(segments, u).None?
    ensures CapacityAt(segments, t)
            == if CapacityEvent(segments, t).Some? then CapacityEvent(segments, t).value
               else CapacityAt(segments, before)
  {
    if segments != [] {
      var n := |segments| - 1;
      var last := segments[n].interval;
      forall u | before < u < t
        ensures CapacityEvent(segments[..n], u).None? && last.start != u && last.end != u
      {
        NotBoundary(segments, u);
      }
      assert last.Valid();
      assert CapacityEvent(segments, last.start).Some? && CapacityEvent(segments, last.end).Some?;
      CapacitySteps(segments[..n], before, t);
      if last.start < t {
        EarlierEndBefore(segments, t);
      }
      if last.start < before {
        EarlierEndBefore(segments, before);
      }
    }
  }

  lemma {:induction false} CapacityBeforeAll(segments: seq<CapacitySegment>, t: int)
    requires WellTyped(segments)
    requires forall u :: u <= t ==> CapacityEvent(segments, u).None?
    ensures CapacityAt(segments, t) == 0
  {
    if segments != [] {
      var n := |segments| - 1;
      forall u | u <= t
        ensures CapacityEvent(segments[..n], u).None?
      {
        NotBoundary(segments, u);
      }
      assert segments[n].interval.start <= t ==> CapacityEvent(segments, segments[n].interval.start).Some?;
      CapacityBeforeAll(segments[..n], t);
    }
  }

  // ---- The points of a rebuild ----

  /** One point per timestamp at which something changes. */
  function RawPoints(segments: seq<CapacitySegment>, claims: seq<Claim>, keys: seq<int>): (points: seq<SlackPoint>)
    ensures |points| == |keys|
    ensures forall i :: 0 <= i < |keys| ==> points[i] == SlackPoint(keys[i], SlackOf(segments, claims, keys[i]))
  {
    seq(|keys|, i requires 0 <= i < |keys| => SlackPoint(keys[i], SlackOf(segments, claims, keys[i])))
  }

  /** `keys` are exactly the timestamps at which something changes, in order. */
  ghost predicate EventKeys(keys: seq<int>, segments: seq<CapacitySegment>, claims: seq<Claim>) {
    && StrictlyIncreasing(keys)
    && forall t :: t !in keys ==> EventAt(segments, claims, t) == NoEvent
  }

  lemma QuietBetween(keys: seq<int>, k: nat, u: int)
    requires StrictlyIncreasing(keys) && k <= |keys|
    requires k > 0 ==> keys[k - 1] < u
    requires k < |keys| ==> u < keys[k]
    ensures u !in keys
  {
    forall i | 0 <= i < |keys|
      ensures keys[i] != u
    {
      if i < k {
        assert keys[i] <= keys[k - 1];
      } else {
        assert keys[k] <= keys[i];
      }
    }
  }

  /** The state the scan keeps, moved to the next key. */
  lemma ScanStep(segments: seq<CapacitySegment>, claims: seq<Claim>, keys: seq<int>, k: nat)
    requires WellTyped(segments) && Disjoint(segments) && ValidClaims(claims)
    requires EventKeys(keys, segments, claims) && k < |keys|
    ensures var t := keys[k];
            var capacity := if k == 0 then 0 else CapacityAt(segments, keys[k - 1]);
            var usage := if k == 0 then 0 else Usage(claims, keys[k - 1]);
            && CapacityAt(segments, t)
               == (if CapacityEvent(segments, t).Some? then CapacityEvent(segments, t).value else capacity)
            && Usage(claims, t) == usage - Ended(claims, t) + Started(claims, t)
            && 0 <= Ended(claims, t) <= usage && 0 <= Started(claims, t)
  {
    var t := keys[k];
    var before := if k == 0 then t - 1 else keys[k - 1];
    forall u | before < u < t || (k == 0 && u < t)
      ensures EventAt(segments, claims, u) == NoEvent
      ensures CapacityEvent(segments, u).None? && Started(claims, u) == 0 && Ended(claims, u) == 0
    {
      QuietBetween(keys, k, u);
      assert EventAt(segments, claims, u) == NoEvent;
    }
    if k == 0 {
      QuietUsage(segments, claims, t - 1);
    }
    CapacitySteps(segments, before, t);
    UsageSteps(claims, before, t);
    SumsNonnegative(claims, t);
  }

  lemma QuietUsage(segments: seq<CapacitySegment>, claims: seq<Claim>, t: int)
    requires WellTyped(segments) && ValidClaims(claims)
    requires forall u :: u <= t ==> EventAt(segments, claims, u) == NoEvent
    ensures CapacityAt(segments, t) == 0 && Usage(claims, t) == 0
  {
    forall u | u <= t
      ensures CapacityEvent(segments, u).None? && Started(claims, u) == 0
    {
      assert EventAt(segments, claims, u) == NoEvent;
    }
    CapacityBeforeAll(segments, t);
    UsageBeforeAll(claims, t);
  }

  /** The raw points denote capacity minus usage at every timestamp. */
  lemma RawPointsCorrect(segments: seq<CapacitySegment>, claims: seq<Claim>, keys: seq<int>, t: int)
    requires WellTyped(segments) && Disjoint(segments) && ValidClaims(claims)
    requires EventKeys(keys, segments, claims)
    ensures Sorted(RawPoints(segments, claims, keys))
    ensures At(0, RawPoints(segments, claims, keys), t) == SlackOf(segments, claims, t)
  {
    hide At;
    var points := RawPoints(segments, claims, keys);
    var k := FindInForce(points, t);
    assert At(0, points, t) == if k < 0 then 0 else points[k].slack;
    forall u | u <= t && (k < 0 || keys[k] < u)
      ensures EventAt(segments, claims, u) == NoEvent
      ensures CapacityEvent(segments, u).None? && Started(claims, u) == 0 && Ended(claims, u) == 0
    {
      assert k + 1 < |keys| ==> t < points[k + 1].timestamp;
      QuietBetween(keys, k + 1, u);
      assert EventAt(segments, claims, u) == NoEvent;
    }
    if k < 0 {
      QuietUsage(segments, claims, t);
    } else if keys[k] < t {
      CapacitySteps(segments, keys[k], t);
      UsageSteps(claims, keys[k], t);
      assert EventAt(segments, claims, t) == NoEvent;
    }
  }

  /** All values fit exactly when all points do. */
  lemma RawPointsFit(segments: seq<CapacitySegment>, claims: seq<Claim>, keys: seq<int>)
    requires WellTyped(segments) && Disjoint(segments) && ValidClaims(claims)
    requires EventKeys(keys, segments, claims)
    ensures Representable(segments, claims) <==> AllFit(RawPoints(segments, claims, keys))
  {
    hide At;
    var points := RawPoints(segments, claims, keys);
    if AllFit(points) {
      forall t
        ensures FitsI64(SlackOf(segments, claims, t))
      {
        RawPointsCorrect(segments, claims, keys, t);
        var k := FindInForce(points, t);
        assert At(0, points, t) == if k < 0 then 0 else points[k].slack;
      }
    }
  }

  /** A single sum beyond 128 bits already makes slack unrepresentable somewhere. */
  lemma HugeSumUnrepresentable(segments: seq<CapacitySegment>, claims: seq<Claim>, t: int)
    requires ValidClaims(claims) && WellTyped(segments) && InRange(segments)
    requires Started(claims, t) > U128_MAX || Ended(claims, t) > U128_MAX
    ensures !Representable(segments, claims)
  {
    SumsNonnegative(claims, t);
    CapacityBounded(segments, t);
    CapacityBounded(segments, t - 1);
    assert !FitsI64(SlackOf(segments, claims, t)) || !FitsI64(SlackOf(segments, claims, t - 1));
  }

  lemma {:induction false} CapacityBounded(segments: seq<CapacitySegment>, t: int)
    requires WellTyped(segments) && InRange(segments)
    ensures 0 <= CapacityAt(segments, t) <= MAX_QUANTITY
  {
    if segments != [] {
      CapacityBounded(segments[..|segments| - 1], t);
    }
  }

  // ---- Collecting events ----

  lemma CollectedKeys(events: map<int, TimelineEvent>, segments: seq<CapacitySegment>, claims: seq<Claim>)
    requires Collected(events, segments, claims)
    ensures EventKeys(SortedKeys(events.Keys), segments, claims)
    ensures forall t :: t in SortedKeys(events.Keys) <==> t in events
  {
    forall t | t !in SortedKeys(events.Keys)
      ensures EventAt(segments, claims, t) == NoEvent
    {
      assert t !in events;
      assert EventOr(events, t) == EventAt(segments, claims, t);
    }
  }

  lemma CollectedEvent(events: map<int, TimelineEvent>, segments: seq<CapacitySegment>, claims: seq<Claim>, t: int)
    requires Collected(events, segments, claims) && t in events
    ensures events[t] == EventAt(segments, claims, t)
  {
    assert EventOr(events, t) == EventAt(segments, claims, t);
  }

  /** Each segment writes its capacity at its start and zero at its end, in order. */
  method CollectCapacity(segments: seq<CapacitySegment>) returns (events: map<int, TimelineEvent>)
    requires WellTyped(segments)
    ensures Collected(events, segments, [])
  {
    events := map[];
    for i := 0 to |segments|
      invariant Collected(events, segments[..i], [])
    {
      var interval := segments[i].interval;
      assert interval.Valid();
      assert segments[..i + 1][..i] == segments[..i];
      events := events[interval.start := EventOr(events, interval.start).(capacity := Some(segments[i].capacity))];
      events := events[interval.end := EventOr(events, interval.end).(capacity := Some(0))];
    }
    assert segments[..|segments|] == segments;
  }

  /** Adds the usage changes of the active claims, with checked 128-bit sums. */
  method CollectClaims(initial: map<int, TimelineEvent>, segments: seq<CapacitySegment>, claims: seq<Claim>)
    returns (r: Result<map<int, TimelineEvent>, IndexError>)
    requires WellTyped(segments) && InRange(segments) && ValidClaims(claims) && Collected(initial, segments, [])
    ensures r.Ok? ==> Collected(r.value, segments, claims)
    ensures r.Err? ==> r.error == SlackOverflow && !Representable(segments, claims)
  {
    var events := initial;
    for i := 0 to |claims|
      invariant Collected(events, segments, claims[..i])
    {
      var claim := claims[i];
      assert claim.Valid();
      ClaimPush(segments, claims, i);
      var started := EventOr(events, claim.interval.start);
      assert started == EventAt(segments, claims[..i], claim.interval.start);
      if started.usageStarted + claim.quantity > U128_MAX {
        PrefixSumHuge(segments, claims, i + 1, claim.interval.start);
        return Err(SlackOverflow);
      }
      events := events[claim.interval.start := started.(usageStarted := started.usageStarted + claim.quantity)];
      var ended := EventOr(events, claim.interval.end);
      assert ended == EventAt(segments, claims[..i], claim.interval.end);
      if ended.usageEnded + claim.quantity > U128_MAX {
        PrefixSumHuge(segments, claims, i + 1, claim.interval.end);
        return Err(SlackOverflow);
      }
      events := events[claim.interval.end := ended.(usageEnded := ended.usageEnded + claim.quantity)];
    }
    assert claims[..|claims|] == claims;
    r := Ok(events);
  }

  /** One more claim changes the event at its start and at its end, and nowhere else. */
  lemma ClaimPush(segments: seq<CapacitySegment>, claims: seq<Claim>, i: nat)
    requires i < |claims| && ValidClaims(claims)
    ensures forall t :: 0 <= Started(claims[..i], t) && 0 <= Ended(claims[..i], t)
    ensures forall t :: Started(claims[..i + 1], t)
                        == Started(claims[..i], t) + if claims[i].interval.start == t then claims[i].quantity else 0
    ensures forall t :: Ended(claims[..i + 1], t)
                        == Ended(claims[..i], t) + if claims[i].interval.end == t then claims[i].quantity else 0
  {
    assert claims[..i + 1][..i] == claims[..i];
    forall t
      ensures 0 <= Started(claims[..i], t) && 0 <= Ended(claims[..i], t)
    {
      SumsNonnegative(claims[..i], t);
    }
  }

  lemma {:induction false} PrefixSums(claims: seq<Claim>, k: nat, t: int)
    requires ValidClaims(claims) && k <= |claims|
    ensures Started(claims[..k], t) <= Started(claims, t) && Ended(claims[..k], t) <= Ended(claims, t)
  {
    if k < |claims| {
      var n := |claims| - 1;
      assert claims[n].Valid();
      assert claims[..n][..k] == claims[..k];
      PrefixSums(claims[..n], k, t);
    } else {
      assert claims[..k] == claims;
    }
  }

  lemma PrefixSumHuge(segments: seq<CapacitySegment>, claims: seq<Claim>, k: nat, t: int)
    requires ValidClaims(claims) && k <= |claims| && WellTyped(segments) && InRange(segments)
    requires Started(claims[..k], t) > U128_MAX || Ended(claims[..k], t) > U128_MAX
    ensures !Representable(segments, claims)
  {
    PrefixSums(claims, k, t);
    HugeSumUnrepresentable(segments, claims, t);
  }

  // ---- The rebuild ----

  /** Canonical points of capacity minus usage, whatever the layout of the index. */
  ghost predicate DenotesSlack(points: seq<SlackPoint>, segments: seq<CapacitySegment>, claims: seq<Claim>) {
    Canonical(points) && forall t :: At(0, points, t) == SlackOf(segments, claims, t)
  }

  /** Scans the events in order, keeping running capacity and usage. */
  method ScanEvents(events: map<int, TimelineEvent>, segments: seq<CapacitySegment>, claims: seq<Claim>)
    returns (r: Result<seq<SlackPoint>, IndexError>)
    requires ValidCurve(segments) && ValidClaims(claims) && Collected(events, segments, claims)
    ensures r.Ok? <==> Representable(segments, claims)
    ensures r.Ok? ==> r.value == Dedup(RawPoints(segments, claims, SortedKeys(events.Keys)))
    ensures r.Err? ==> r.error == SlackOverflow
  {
    hide *;
    var keys := SortedKeys(events.Keys);
    ghost var raw := RawPoints(segments, claims, keys);
    ScanStart(events, segments, claims, keys);
    var capacity, usage := 0, 0;
    var points: seq<SlackPoint> := [];
    for k := 0 to |keys|
      invariant capacity == if k == 0 then 0 else CapacityAt(segments, keys[k - 1])
      invariant usage == if k == 0 then 0 else Usage(claims, keys[k - 1])
      invariant points == Dedup(raw[..k])
      invariant forall i :: 0 <= i < k ==> FitsI64(raw[i].slack)
    {
      var timestamp := keys[k];
      assert timestamp in keys;
      var event := events[timestamp];
      NextPoint(events, segments, claims, keys, k);
      if event.capacity.Some? {
        capacity := event.capacity.value;
      }
      if usage < event.usageEnded {
        // InconsistentUsage is reported here, and never is: claims end only where they were running.
        assert false;
      }
      usage := usage - event.usageEnded + event.usageStarted;
      var slack := capacity - usage;
      if usage > U128_MAX || !FitsI64(slack) {
        FitEach(raw, k);
        return Err(SlackOverflow);
      }
      if points == [] || points[|points| - 1].slack != slack {
        points := points + [SlackPoint(timestamp, slack)];
      }
    }
    FitEach(raw, |raw|);
    assert raw[..|raw|] == raw;
    r := Ok(points);
  }

  lemma ScanStart(events: map<int, TimelineEvent>, segments: seq<CapacitySegment>, claims: seq<Claim>, keys: seq<int>)
    requires ValidCurve(segments) && ValidClaims(claims) && Collected(events, segments, claims)
    requires keys == SortedKeys(events.Keys)
    ensures EventKeys(keys, segments, claims) && Dedup(RawPoints(segments, claims, keys)[..0]) == []
    ensures Representable(segments, claims) <==> AllFit(RawPoints(segments, claims, keys))
  {
    hide At;
    CollectedKeys(events, segments, claims);
    RawPointsFit(segments, claims, keys);
  }

  lemma FitEach(points: seq<SlackPoint>, k: nat)
    requires k <= |points|
    ensures k < |points| && !FitsI64(points[k].slack) ==> !AllFit(points)
    ensures k == |points| && (forall i :: 0 <= i < |points| ==> FitsI64(points[i].slack)) ==> AllFit(points)
  {
  }

  /** The next raw point, from the event and the values running before it, and what deduplication does with it. */
  lemma NextPoint(events: map<int, TimelineEvent>, segments: seq<CapacitySegment>, claims: seq<Claim>,
                  keys: seq<int>, k: nat)
    requires ValidCurve(segments) && ValidClaims(claims) && Collected(events, segments, claims)
    requires EventKeys(keys, segments, claims) && k < |keys| && keys[k] in events
    ensures var t, event, raw := keys[k], events[keys[k]], RawPoints(segments, claims, keys);
            var before := if k == 0 then 0 else CapacityAt(segments, keys[k - 1]);
            var usage := (if k == 0 then 0 else Usage(claims, keys[k - 1])) - event.usageEnded + event.usageStarted;
            var capacity := if event.capacity.Some? then event.capacity.value else before;
            && capacity == CapacityAt(segments, t) && usage == Usage(claims, t)
            && event.usageEnded <= (if k == 0 then 0 else Usage(claims, keys[k - 1]))
            && raw[k] == SlackPoint(t, capacity - usage) && (usage > U128_MAX ==> !FitsI64(capacity - usage))
            && Dedup(raw[..k + 1])
               == (var kept := Dedup(raw[..k]);
                   if kept == [] || kept[|kept| - 1].slack != capacity - usage then kept + [raw[k]] else kept)
  {
    hide At;
    hide Dedup;
    hide CapacityAt;
    hide Usage;
    hide Collected;
    hide EventKeys;
    hide ValidCurve;
    hide ValidClaims;
    NextEvent(events, segments, claims, keys, k);
    DedupPush(RawPoints(segments, claims, keys), k);
  }

  /** The collected event moves running capacity and usage to their values at the next key. */
  lemma NextEvent(events: map<int, TimelineEvent>, segments: seq<CapacitySegment>, claims: seq<Claim>,
                  keys: seq<int>, k: nat)
    requires ValidCurve(segments) && ValidClaims(claims) && Collected(events, segments, claims)
    requires EventKeys(keys, segments, claims) && k < |keys| && keys[k] in events
    ensures var t, event := keys[k], events[keys[k]];
            var capacity := if k == 0 then 0 else CapacityAt(segments, keys[k - 1]);
            var usage := if k == 0 then 0 else Usage(claims, keys[k - 1]);
            && CapacityAt(segments, t) == (if event.capacity.Some? then event.capacity.value else capacity)
            && Usage(claims, t) == usage - event.usageEnded + event.usageStarted
            && event.usageEnded <= usage
            && SlackOf(segments, claims, t) == CapacityAt(segments, t) - Usage(claims, t) <= I64_MAX - Usage(claims, t)
  {
    CollectedEvent(events, segments, claims, keys[k]);
    ScanStep(segments, claims, keys, k);
    CapacityBounded(segments, keys[k]);
  }

  /**
   Builds the timeline. It succeeds exactly when capacity minus usage is representable at every
   timestamp, and inconsistent usage is never reported.
   */
  method FromCapacityAndClaims(segments: seq<CapacitySegment>, claims: seq<Claim>)
    returns (r: Result<seq<Block>, IndexError>)
    requires ValidCurve(segments) && ValidClaims(claims)
    ensures r.Ok? <==> Representable(segments, claims)
    ensures r.Ok? ==> ValidBlocks(r.value) && DenotesSlack(Flat(r.value), segments, claims)
    ensures r.Err? ==> r.error == SlackOverflow
  {
    hide At;
    hide Flat;
    var events := CollectCapacity(segments);
    var collected := CollectClaims(events, segments, claims);
    if collected.Err? {
      return Err(collected.error);
    }
    var points := ScanEvents(collected.value, segments, claims);
    if points.Err? {
      return Err(points.error);
    }
    CollectedKeys(collected.value, segments, claims);
    ScannedPointsCorrect(segments, claims, SortedKeys(collected.value.Keys));
    r := BlocksFromSortedPoints(points.value);
  }

  lemma ScannedPointsCorrect(segments: seq<CapacitySegment>, claims: seq<Claim>, keys: seq<int>)
    requires ValidCurve(segments) && ValidClaims(claims) && EventKeys(keys, segments, claims)
    requires Representable(segments, claims)
    ensures var points := Dedup(RawPoints(segments, claims, keys));
            Sorted(points) && AllFit(points) && DenotesSlack(Canon(points), segments, claims)
  {
    hide At;
    hide Dedup;
    var raw := RawPoints(segments, claims, keys);
    RawPointsCorrect(segments, claims, keys, 0);
    RawPointsFit(segments, claims, keys);
    DedupShape(raw);
    DedupEquiv(raw);
    CanonCorrect(Dedup(raw));
    forall t
      ensures At(0, Canon(Dedup(raw)), t) == SlackOf(segments, claims, t)
    {
      RawPointsCorrect(segments, claims, keys, t);
    }
  }

  /** Rebuilding and incremental maintenance agree point for point once they agree in meaning. */
  lemma RebuildEqualsMaintenance(segments: seq<CapacitySegment>, claims: seq<Claim>,
                                 rebuilt: seq<SlackPoint>, maintained: seq<SlackPoint>)
    requires DenotesSlack(rebuilt, segments, claims)
    requires Sorted(maintained) && forall t :: At(0, maintained, t) == SlackOf(segments, claims, t)
    ensures Canon(maintained) == rebuilt
  {
    hide At;
    CanonCorrect(maintained);
    CanonicalUnique(Canon(maintained), rebuilt);
  }
}
