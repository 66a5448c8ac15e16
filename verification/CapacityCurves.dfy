/** Time-varying capacity: ordered, disjoint segments with zero capacity everywhere else. */
module CapacityCurves {
  import opened Results
  import opened Intervals
  import opened StepFunctions

  const MAX_QUANTITY: int := I64_MAX

  datatype CapacitySegment = CapacitySegment(interval: Interval, capacity: int)

  datatype CurveError =
    | QuantityOutOfRange
    | UnsortedCapacitySegments
    | OverlappingCapacitySegments

  /** What the segment and interval constructors hand to curve construction. */
  ghost predicate WellTyped(segments: seq<CapacitySegment>) {
    forall i :: 0 <= i < |segments| ==> segments[i].interval.Valid() && FitsU64(segments[i].capacity)
  }

  ghost predicate Disjoint(segments: seq<CapacitySegment>) {
    forall i, j :: 0 <= i < j < |segments| ==> segments[i].interval.end <= segments[j].interval.start
  }

  /** Touching neighbours differ in capacity. */
  ghost predicate Merged(segments: seq<CapacitySegment>) {
    forall i :: 0 < i < |segments| ==>
      segments[i - 1].interval.end == segments[i].interval.start
      ==> segments[i - 1].capacity != segments[i].capacity
  }

  predicate InRange(segments: seq<CapacitySegment>) {
    forall i :: 0 <= i < |segments| ==> segments[i].capacity <= MAX_QUANTITY
  }

  /** The invariant of every constructed curve. */
  ghost predicate ValidCurve(segments: seq<CapacitySegment>) {
    WellTyped(segments) && InRange(segments) && Disjoint(segments) && Merged(segments)
  }

  /** Capacity in force at `t`: that of the last segment containing it, or zero in a gap. */
  function CapacityAt(segments: seq<CapacitySegment>, t: int): int {
    if segments == [] then 0
    else
      var last := segments[|segments| - 1];
      if last.interval.Contains(t) then last.capacity else CapacityAt(segments[..|segments| - 1], t)
  }

  /** One step of normalization: reject disorder and overlap, merge equal neighbours. */
  function NormalizeStep(kept: seq<CapacitySegment>, previousStart: Option<int>, segment: CapacitySegment)
    : Result<seq<CapacitySegment>, CurveError>
  {
    if previousStart.Some? && segment.interval.start < previousStart.value then Err(UnsortedCapacitySegments)
    else if kept == [] then Ok(kept + [segment])
    else
      var n := |kept| - 1;
      var previous := kept[n];
      if previous.interval.Overlaps(segment.interval) then Err(OverlappingCapacitySegments)
      else if previous.interval.end == segment.interval.start && previous.capacity == segment.capacity then
        Ok(kept[..n] + [CapacitySegment(Interval(previous.interval.start, segment.interval.end), segment.capacity)])
      else Ok(kept + [segment])
  }

  function NormalizeSorted(segments: seq<CapacitySegment>): Result<seq<CapacitySegment>, CurveError> {
    if segments == [] then Ok([])
    else
      var n := |segments| - 1;
      var kept :- NormalizeSorted(segments[..n]);
      NormalizeStep(kept, if n == 0 then None else Some(segments[n - 1].interval.start), segments[n])
  }

  function FromSorted(segments: seq<CapacitySegment>): Result<seq<CapacitySegment>, CurveError> {
    if !InRange(segments) then Err(QuantityOutOfRange) else NormalizeSorted(segments)
  }

  /** The single merging pass, with the first fault it meets. */
  method NormalizeSegments(segments: seq<CapacitySegment>)
    returns (r: Result<seq<CapacitySegment>, CurveError>)
    ensures r == NormalizeSorted(segments)
  {
    var normalized: seq<CapacitySegment> := [];
    var previousStart: Option<int> := None;
    assert NormalizeSorted(segments[..0]) == Ok([]);
    hide NormalizeSorted;
    for i := 0 to |segments|
      invariant NormalizeSorted(segments[..i]) == Ok(normalized)
      invariant previousStart == if i == 0 then None else Some(segments[i - 1].interval.start)
    {
      var segment := segments[i];
      var interval := segment.interval;
      NormalizePush(segments, i);
      if previousStart.Some? && interval.start < previousStart.value {
        NormalizeFaultPersists(segments, i + 1);
        return Err(UnsortedCapacitySegments);
      }
      previousStart := Some(interval.start);
      if normalized != [] {
        var previous := normalized[|normalized| - 1];
        if previous.interval.Overlaps(interval) {
          NormalizeFaultPersists(segments, i + 1);
          return Err(OverlappingCapacitySegments);
        }
        if previous.interval.end == interval.start && previous.capacity == segment.capacity {
          var merged := CapacitySegment(Interval(previous.interval.start, interval.end), segment.capacity);
          normalized := normalized[..|normalized| - 1] + [merged];
          continue;
        }
      }
      normalized := normalized + [segment];
    }
    assert segments[..|segments|] == segments;
    r := Ok(normalized);
  }

  lemma NormalizePush(segments: seq<CapacitySegment>, i: nat)
    requires i < |segments| && NormalizeSorted(segments[..i]).Ok?
    ensures NormalizeSorted(segments[..i + 1])
            == NormalizeStep(NormalizeSorted(segments[..i]).value,
                             if i == 0 then None else Some(segments[i - 1].interval.start), segments[i])
  {
    assert segments[..i + 1][..i] == segments[..i];
  }

  lemma {:induction false} NormalizeFaultPersists(segments: seq<CapacitySegment>, k: nat)
    requires k <= |segments| && NormalizeSorted(segments[..k]).Err?
    ensures NormalizeSorted(segments) == NormalizeSorted(segments[..k])
  {
    if k < |segments| {
      assert segments[..|segments| - 1][..k] == segments[..k];
      NormalizeFaultPersists(segments[..|segments| - 1], k);
    } else {
      assert segments[..k] == segments;
    }
  }

  // ---- What normalization guarantees ----

  lemma CapacityPush(segments: seq<CapacitySegment>, segment: CapacitySegment, t: int)
    ensures CapacityAt(segments + [segment], t)
            == if segment.interval.Contains(t) then segment.capacity else CapacityAt(segments, t)
  {
    assert (segments + [segment])[..|segments|] == segments;
  }

  /** What normalizing a nonempty prefix has established. */
  ghost predicate Normalized(segments: seq<CapacitySegment>, kept: seq<CapacitySegment>) {
    && WellTyped(kept) && Disjoint(kept) && Merged(kept) && (InRange(segments) ==> InRange(kept))
    && (segments == [] ==> kept == [])
    && (segments != [] ==>
          && kept != []
          && var last, raw := kept[|kept| - 1].interval, segments[|segments| - 1].interval;
             last.end == raw.end && last.start <= raw.start)
    && (forall t :: CapacityAt(kept, t) == CapacityAt(segments, t))
  }

  lemma DisjointPush(segments: seq<CapacitySegment>, segment: CapacitySegment)
    requires WellTyped(segments) && Disjoint(segments)
    ensures Disjoint(segments + [segment])
            <==> segments == [] || segments[|segments| - 1].interval.end <= segment.interval.start
  {
    var all := segments + [segment];
    if segments != [] {
      var n := |segments| - 1;
      if segments[n].interval.end <= segment.interval.start {
        forall i | 0 <= i < n
          ensures segments[i].interval.end <= segment.interval.start
        {
          assert segments[i].interval.end <= segments[n].interval.start < segments[n].interval.end;
        }
      } else {
        assert all[n].interval.end > all[n + 1].interval.start;
      }
    }
  }

  /** The merging step accepts exactly the segments that start after the ones before. */
  lemma StepAccepts(segments: seq<CapacitySegment>, kept: seq<CapacitySegment>, segment: CapacitySegment)
    requires segment.interval.Valid() && WellTyped(segments) && Normalized(segments, kept)
    ensures var previous := if segments == [] then None else Some(segments[|segments| - 1].interval.start);
            NormalizeStep(kept, previous, segment).Ok?
            <==> segments == [] || segments[|segments| - 1].interval.end <= segment.interval.start
  {
    hide CapacityAt;
  }

  /** An accepted segment leaves a valid curve with the raw capacity. */
  lemma StepCorrect(segments: seq<CapacitySegment>, kept: seq<CapacitySegment>, segment: CapacitySegment)
    requires segment.interval.Valid() && FitsU64(segment.capacity)
    requires WellTyped(segments) && Normalized(segments, kept)
    requires segments != [] ==> segments[|segments| - 1].interval.end <= segment.interval.start
    ensures var previous := if segments == [] then None else Some(segments[|segments| - 1].interval.start);
            NormalizeStep(kept, previous, segment).Ok?
            && Normalized(segments + [segment], NormalizeStep(kept, previous, segment).value)
  {
    hide CapacityAt;
    var n := |kept| - 1;
    assert forall i :: 0 <= i < |segments| ==> (segments + [segment])[i] == segments[i];
    assert (segments + [segment])[|segments|] == segment;
    assert InRange(segments + [segment]) ==> InRange(segments) && segment.capacity <= MAX_QUANTITY by {
      if InRange(segments + [segment]) {
        forall i | 0 <= i < |segments|
          ensures segments[i].capacity <= MAX_QUANTITY
        {
          assert (segments + [segment])[i].capacity <= MAX_QUANTITY;
        }
      }
    }
    if kept != [] && kept[n].interval.end == segment.interval.start && kept[n].capacity == segment.capacity {
      MergedShape(kept, segment);
      forall t
        ensures CapacityAt(MergedInto(kept, segment), t) == CapacityAt(segments + [segment], t)
      {
        CapacityPush(segments, segment, t);
        MergedCapacity(kept, segment, t);
      }
    } else {
      DisjointPush(kept, segment);
      forall t
        ensures CapacityAt(kept + [segment], t) == CapacityAt(segments + [segment], t)
      {
        CapacityPush(segments, segment, t);
        CapacityPush(kept, segment, t);
      }
    }
  }

  function MergedInto(kept: seq<CapacitySegment>, segment: CapacitySegment): seq<CapacitySegment>
    requires kept != []
  {
    var n := |kept| - 1;
    kept[..n] + [CapacitySegment(Interval(kept[n].interval.start, segment.interval.end), segment.capacity)]
  }

  lemma MergedShape(kept: seq<CapacitySegment>, segment: CapacitySegment)
    requires WellTyped(kept) && Disjoint(kept) && Merged(kept) && kept != []
    requires segment.interval.Valid() && FitsU64(segment.capacity)
    requires kept[|kept| - 1].interval.end == segment.interval.start && kept[|kept| - 1].capacity == segment.capacity
    ensures var now := MergedInto(kept, segment);
            WellTyped(now) && Disjoint(now) && Merged(now)
  {
    var n := |kept| - 1;
    var now := MergedInto(kept, segment);
    assert forall i :: 0 <= i <= n ==> now[i].capacity == kept[i].capacity;
    assert forall i :: 0 <= i <= n ==> now[i].interval.start == kept[i].interval.start;
    assert forall i :: 0 <= i < n ==> now[i] == kept[i];
  }

  lemma MergedCapacity(kept: seq<CapacitySegment>, segment: CapacitySegment, t: int)
    requires kept != [] && WellTyped(kept) && segment.interval.Valid()
    requires kept[|kept| - 1].interval.end == segment.interval.start && kept[|kept| - 1].capacity == segment.capacity
    ensures CapacityAt(MergedInto(kept, segment), t)
            == if segment.interval.Contains(t) then segment.capacity else CapacityAt(kept, t)
  {
    var n := |kept| - 1;
    assert kept == kept[..n] + [kept[n]];
    CapacityPush(kept[..n], kept[n], t);
    CapacityPush(kept[..n], MergedInto(kept, segment)[n], t);
  }

  /** Accepted exactly when ordered without overlap; then a valid curve with the same capacity. */
  lemma {:induction false} NormalizeCorrect(segments: seq<CapacitySegment>)
    requires WellTyped(segments)
    ensures NormalizeSorted(segments).Ok? <==> Disjoint(segments)
    ensures NormalizeSorted(segments).Ok? ==> Normalized(segments, NormalizeSorted(segments).value)
  {
    if segments != [] {
      var n := |segments| - 1;
      NormalizeCorrect(segments[..n]);
      assert segments == segments[..n] + [segments[n]];
      if Disjoint(segments[..n]) {
        NormalizePush(segments, n);
        DisjointPush(segments[..n], segments[n]);
        StepAccepts(segments[..n], NormalizeSorted(segments[..n]).value, segments[n]);
        if Disjoint(segments) {
          StepCorrect(segments[..n], NormalizeSorted(segments[..n]).value, segments[n]);
        }
      } else {
        var i, j :| 0 <= i < j < n && segments[..n][i].interval.end > segments[..n][j].interval.start;
        assert segments[i].interval.end > segments[j].interval.start;
      }
    }
  }

  /** A segment that neither precedes, overlaps nor extends its neighbour is simply appended. */
  lemma StepAppends(kept: seq<CapacitySegment>, segment: CapacitySegment)
    requires WellTyped(kept + [segment]) && Disjoint(kept + [segment]) && Merged(kept + [segment])
    ensures NormalizeStep(kept, if kept == [] then None else Some(kept[|kept| - 1].interval.start), segment)
            == Ok(kept + [segment])
  {
    var all := kept + [segment];
    var n := |kept|;
    if n > 0 {
      assert all[n - 1] == kept[n - 1] && all[n] == segment;
      assert all[n - 1].interval.Valid() && all[n - 1].interval.end <= all[n].interval.start;
    }
  }

  /** Ordered, disjoint segments with no touching neighbours of equal capacity. */
  ghost predicate Normal(segments: seq<CapacitySegment>) {
    WellTyped(segments) && Disjoint(segments) && Merged(segments)
  }

  lemma NormalPrefix(segments: seq<CapacitySegment>)
    requires Normal(segments) && segments != []
    ensures Normal(segments[..|segments| - 1])
  {
  }

  lemma NormalAppends(segments: seq<CapacitySegment>)
    requires Normal(segments) && segments != []
    requires NormalizeSorted(segments[..|segments| - 1]) == Ok(segments[..|segments| - 1])
    ensures NormalizeSorted(segments) == Ok(segments)
  {
    hide NormalizeSorted;
    hide NormalizeStep;
    var n := |segments| - 1;
    NormalizePush(segments, n);
    assert segments[..n + 1] == segments == segments[..n] + [segments[n]];
    StepAppends(segments[..n], segments[n]);
  }

  /** A normalized curve passes through construction unchanged, which decoding relies on. */
  lemma {:induction false} NormalizeFixpoint(segments: seq<CapacitySegment>)
    requires Normal(segments)
    ensures NormalizeSorted(segments) == Ok(segments)
  {
    hide Normal;
    if segments != [] {
      NormalPrefix(segments);
      NormalizeFixpoint(segments[..|segments| - 1]);
      NormalAppends(segments);
    }
  }

  lemma FromSortedCorrect(segments: seq<CapacitySegment>)
    requires WellTyped(segments)
    ensures FromSorted(segments).Ok? <==> InRange(segments) && Disjoint(segments)
    ensures FromSorted(segments).Ok? ==>
              && ValidCurve(FromSorted(segments).value)
              && (forall t :: CapacityAt(FromSorted(segments).value, t) == CapacityAt(segments, t))
    ensures ValidCurve(segments) ==> FromSorted(segments) == Ok(segments)
  {
    NormalizeCorrect(segments);
    if ValidCurve(segments) {
      NormalizeFixpoint(segments);
    }
  }

  function Starts(segments: seq<CapacitySegment>): (keys: seq<int>)
    ensures |keys| == |segments|
    ensures forall i :: 0 <= i < |segments| ==> keys[i] == segments[i].interval.start
  {
    seq(|segments|, i requires 0 <= i < |segments| => segments[i].interval.start)
  }

  /** The searching lookup: only the last segment that has started can be in force. */
  function LookupCapacity(segments: seq<CapacitySegment>, t: int): int {
    var point := PartitionPoint(Starts(segments), t);
    if point == 0 then 0
    else if segments[point - 1].interval.Contains(t) then segments[point - 1].capacity
    else 0
  }

  lemma LookupCorrect(segments: seq<CapacitySegment>, t: int)
    requires ValidCurve(segments)
    ensures LookupCapacity(segments, t) == CapacityAt(segments, t)
  {
    OnlyLastStarted(segments, PartitionPoint(Starts(segments), t), t);
  }

  lemma {:induction false} OnlyLastStarted(segments: seq<CapacitySegment>, point: nat, t: int)
    requires WellTyped(segments) && Disjoint(segments) && point <= |segments|
    requires forall i :: 0 <= i < point ==> segments[i].interval.start <= t
    requires point < |segments| ==> t < segments[point].interval.start
    ensures CapacityAt(segments, t)
            == if point > 0 && segments[point - 1].interval.Contains(t) then segments[point - 1].capacity else 0
  {
    if segments != [] {
      var n := |segments| - 1;
      if point == n + 1 {
        if n > 0 {
          assert segments[n - 1].interval.end <= segments[n].interval.start;
          OnlyLastStarted(segments[..n], n, t);
        }
      } else {
        assert point < n ==> segments[point].interval.end <= segments[n].interval.start;
        OnlyLastStarted(segments[..n], point, t);
      }
    }
  }
}
