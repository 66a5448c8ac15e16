/** Building a curve from segments in any order: sorted first, so that only real overlaps are refused. */
module UnsortedCurves {
  import opened Results
  import opened Intervals
  import opened CapacityCurves

  // ---- The deterministic order ----

  predicate SegmentAtMost(a: CapacitySegment, b: CapacitySegment) {
    || a.interval.start < b.interval.start
    || (a.interval.start == b.interval.start
        && (a.interval.end < b.interval.end || (a.interval.end == b.interval.end && a.capacity <= b.capacity)))
  }

  function InsertSegment(sorted: seq<CapacitySegment>, segment: CapacitySegment): seq<CapacitySegment> {
    if sorted == [] || SegmentAtMost(sorted[|sorted| - 1], segment) then sorted + [segment]
    else
      var n := |sorted| - 1;
      InsertSegment(sorted[..n], segment) + [sorted[n]]
  }

  function SortSegments(segments: seq<CapacitySegment>): seq<CapacitySegment> {
    if segments == [] then []
    else InsertSegment(SortSegments(segments[..|segments| - 1]), segments[|segments| - 1])
  }

  ghost predicate InSegmentOrder(segments: seq<CapacitySegment>) {
    forall i, j :: 0 <= i < j < |segments| ==> SegmentAtMost(segments[i], segments[j])
  }

  lemma {:induction false} InsertSegmentCorrect(sorted: seq<CapacitySegment>, segment: CapacitySegment)
    requires InSegmentOrder(sorted)
    ensures InSegmentOrder(InsertSegment(sorted, segment))
    ensures multiset(InsertSegment(sorted, segment)) == multiset(sorted) + multiset{segment}
  {
    if !(sorted == [] || SegmentAtMost(sorted[|sorted| - 1], segment)) {
      InsertSegmentCorrect(sorted[..|sorted| - 1], segment);
      InsertedBefore(sorted, segment, InsertSegment(sorted[..|sorted| - 1], segment));
    }
  }

  /** Segments inserted before the greatest one. */
  lemma InsertedBefore(sorted: seq<CapacitySegment>, segment: CapacitySegment, inserted: seq<CapacitySegment>)
    requires InSegmentOrder(sorted) && sorted != [] && !SegmentAtMost(sorted[|sorted| - 1], segment)
             && InSegmentOrder(inserted)
    requires multiset(inserted) == multiset(sorted[..|sorted| - 1]) + multiset{segment}
    ensures InSegmentOrder(inserted + [sorted[|sorted| - 1]])
    ensures multiset(inserted + [sorted[|sorted| - 1]]) == multiset(sorted) + multiset{segment}
  {
    var n := |sorted| - 1;
    assert sorted == sorted[..n] + [sorted[n]];
    forall i | 0 <= i < |inserted|
      ensures SegmentAtMost(inserted[i], sorted[n])
    {
      assert inserted[i] in multiset(inserted);
      assert inserted[i] in multiset(sorted[..n]) || inserted[i] == segment;
    }
  }

  lemma {:induction false} SortSegmentsCorrect(segments: seq<CapacitySegment>)
    ensures InSegmentOrder(SortSegments(segments)) && multiset(SortSegments(segments)) == multiset(segments)
  {
    if segments != [] {
      var n := |segments| - 1;
      SortSegmentsCorrect(segments[..n]);
      InsertSegmentCorrect(SortSegments(segments[..n]), segments[n]);
      assert segments == segments[..n] + [segments[n]];
    }
  }

  lemma {:induction false} SegmentOrderUnique(a: seq<CapacitySegment>, b: seq<CapacitySegment>)
    requires InSegmentOrder(a) && InSegmentOrder(b) && multiset(a) == multiset(b)
    ensures a == b
  {
    hide *;
    SameLength(a, b);
    if a != [] {
      var n := |a| - 1;
      SameGreatest(a, b);
      WithoutGreatest(a);
      WithoutGreatest(b);
      SegmentOrderUnique(a[..n], b[..n]);
      assert a == a[..n] + [a[n]] && b == b[..n] + [b[n]];
    }
  }

  lemma SameLength(a: seq<CapacitySegment>, b: seq<CapacitySegment>)
    requires multiset(a) == multiset(b)
    ensures |a| == |b|
  {
    assert |multiset(a)| == |a| && |multiset(b)| == |b|;
  }

  lemma WithoutGreatest(a: seq<CapacitySegment>)
    requires InSegmentOrder(a) && a != []
    ensures InSegmentOrder(a[..|a| - 1]) && multiset(a[..|a| - 1]) == multiset(a) - multiset{a[|a| - 1]}
  {
    assert a == a[..|a| - 1] + [a[|a| - 1]];
  }

  lemma SameGreatest(a: seq<CapacitySegment>, b: seq<CapacitySegment>)
    requires InSegmentOrder(a) && InSegmentOrder(b) && multiset(a) == multiset(b) && |a| == |b| && a != []
    ensures a[|a| - 1] == b[|b| - 1]
  {
    var lastA, lastB := a[|a| - 1], b[|b| - 1];
    assert lastA in multiset(a) && lastB in multiset(b);
    assert lastA in b && lastB in a;
  }

  // ---- Construction ----

  function FromUnsorted(segments: seq<CapacitySegment>): Result<seq<CapacitySegment>, CurveError> {
    if !InRange(segments) then Err(QuantityOutOfRange) else FromSorted(SortSegments(segments))
  }

  /** No timestamp lies in two of the segments. */
  ghost predicate NoOverlaps(segments: seq<CapacitySegment>) {
    forall i, j :: 0 <= i < j < |segments| ==> !segments[i].interval.Overlaps(segments[j].interval)
  }

  /** The capacity declared for `t`: by the segment that contains it, or zero. */
  ghost predicate Declares(segments: seq<CapacitySegment>, t: int, capacity: int) {
    if exists i :: 0 <= i < |segments| && segments[i].interval.Contains(t)
    then exists i :: 0 <= i < |segments| && segments[i].interval.Contains(t) && segments[i].capacity == capacity
    else capacity == 0
  }

  lemma {:induction false} DeclaredInForce(segments: seq<CapacitySegment>, t: int)
    ensures Declares(segments, t, CapacityAt(segments, t))
  {
    if segments != [] {
      var n := |segments| - 1;
      DeclaredInForce(segments[..n], t);
      if !segments[n].interval.Contains(t) {
        if i :| 0 <= i < |segments| && segments[i].interval.Contains(t) {
          assert segments[..n][i].interval.Contains(t);
          var j :|
            0 <= j < n && segments[..n][j].interval.Contains(t)
            && segments[..n][j].capacity == CapacityAt(segments[..n], t);
          assert segments[j].interval.Contains(t);
        }
      }
    }
  }

  lemma SortedMembers(segments: seq<CapacitySegment>)
    ensures var sorted := SortSegments(segments);
            |sorted| == |segments| && forall s :: s in sorted <==> s in segments
  {
    hide SortSegments, InSegmentOrder;
    SortSegmentsCorrect(segments);
    var sorted := SortSegments(segments);
    SameLength(sorted, segments);
    forall s
      ensures s in sorted <==> s in segments
    {
      assert s in sorted <==> s in multiset(sorted);
      assert s in segments <==> s in multiset(segments);
    }
  }

  /** In start order, segments are disjoint exactly when no two overlap. */
  lemma OrderedDisjoint(sorted: seq<CapacitySegment>)
    requires WellTyped(sorted) && InSegmentOrder(sorted)
    ensures Disjoint(sorted) <==> NoOverlaps(sorted)
  {
    if Disjoint(sorted) {
      forall i, j | 0 <= i < j < |sorted|
        ensures !sorted[i].interval.Overlaps(sorted[j].interval)
      {
        assert sorted[i].interval.end <= sorted[j].interval.start;
      }
    }
    if NoOverlaps(sorted) {
      forall i, j | 0 <= i < j < |sorted|
        ensures sorted[i].interval.end <= sorted[j].interval.start
      {
        assert SegmentAtMost(sorted[i], sorted[j]) && !sorted[i].interval.Overlaps(sorted[j].interval);
      }
    }
  }

  /** Two overlapping or repeated segments in one order overlap in any other. */
  lemma NoOverlapsPermute(a: seq<CapacitySegment>, b: seq<CapacitySegment>)
    requires WellTyped(a) && WellTyped(b) && multiset(a) == multiset(b) && NoOverlaps(a)
    ensures NoOverlaps(b)
  {
    forall i, j | 0 <= i < j < |b|
      ensures !b[i].interval.Overlaps(b[j].interval)
    {
      if b[i] == b[j] {
        assert multiset(b)[b[i]] >= 2 by {
          assert b == b[..j] + [b[j]] + b[j + 1..];
          assert b[i] in multiset(b[..j]) by {
            assert b[..j][i] == b[i];
          }
        }
        Repeated(a, b[i]);
      } else {
        assert b[i] in multiset(a) && b[j] in multiset(a);
        var k :| 0 <= k < |a| && a[k] == b[i];
        var l :| 0 <= l < |a| && a[l] == b[j];
        assert k != l;
      }
    }
  }

  /** A segment that occurs twice overlaps itself. */
  lemma Repeated(a: seq<CapacitySegment>, s: CapacitySegment)
    requires WellTyped(a) && multiset(a)[s] >= 2
    ensures !NoOverlaps(a)
  {
    assert s in a;
    var k :| 0 <= k < |a| && a[k] == s;
    assert a == a[..k] + [a[k]] + a[k + 1..];
    assert multiset(a) == multiset(a[..k]) + multiset{s} + multiset(a[k + 1..]);
    if s in a[..k] {
      var l :| 0 <= l < k && a[l] == s;
      assert a[l].interval.Overlaps(a[k].interval);
    } else {
      assert s in a[k + 1..];
      var l :| 0 <= l < |a[k + 1..]| && a[k + 1..][l] == s;
      assert a[k + 1 + l] == s;
      assert a[k].interval.Overlaps(a[k + 1 + l].interval);
    }
  }

  /**
   Segments in any order are accepted exactly when they fit the capacity bound and no two overlap. The
   curve then has each segment's capacity and depends on nothing else; disorder is never the complaint.
   */
  lemma FromUnsortedExact(segments: seq<CapacitySegment>)
    requires WellTyped(segments)
    ensures FromUnsorted(segments).Ok? <==> InRange(segments) && NoOverlaps(segments)
    ensures FromUnsorted(segments).Ok? ==>
              && ValidCurve(FromUnsorted(segments).value)
              && forall t :: Declares(segments, t, CapacityAt(FromUnsorted(segments).value, t))
  {
    hide SortSegments, FromSorted, InSegmentOrder, Disjoint, NoOverlaps, ValidCurve, CapacityAt;
    var sorted := SortSegments(segments);
    SortSegmentsCorrect(segments);
    SortedMembers(segments);
    SameBounds(segments, sorted);
    FromSortedCorrect(sorted);
    OrderedDisjoint(sorted);
    if NoOverlaps(sorted) {
      NoOverlapsPermute(sorted, segments);
    }
    if NoOverlaps(segments) {
      NoOverlapsPermute(segments, sorted);
    }
    if FromUnsorted(segments).Ok? {
      forall t
        ensures Declares(segments, t, CapacityAt(FromUnsorted(segments).value, t))
      {
        DeclaredInForce(sorted, t);
        SameDeclared(sorted, segments, t, CapacityAt(sorted, t));
      }
    }
  }

  lemma SameBounds(a: seq<CapacitySegment>, b: seq<CapacitySegment>)
    requires WellTyped(a) && forall s :: s in b <==> s in a
    ensures WellTyped(b) && (InRange(a) <==> InRange(b))
  {
    forall i | 0 <= i < |b|
      ensures b[i].interval.Valid() && FitsU64(b[i].capacity) && (InRange(a) ==> b[i].capacity <= MAX_QUANTITY)
    {
      var s := b[i];
      assert s in b && s in a;
      var k :| 0 <= k < |a| && a[k] == s;
      assert a[k].interval.Valid();
    }
    if InRange(b) {
      forall i | 0 <= i < |a|
        ensures a[i].capacity <= MAX_QUANTITY
      {
        var s := a[i];
        assert s in a && s in b;
      }
    }
  }

  lemma SameDeclared(a: seq<CapacitySegment>, b: seq<CapacitySegment>, t: int, capacity: int)
    requires (forall s :: s in a <==> s in b) && Declares(a, t, capacity)
    ensures Declares(b, t, capacity)
  {
    SomeContains(b, a, t);
    if exists i :: 0 <= i < |a| && a[i].interval.Contains(t) {
      var i :| 0 <= i < |a| && a[i].interval.Contains(t) && a[i].capacity == capacity;
      var s := a[i];
      assert s in a && s in b;
      var k :| 0 <= k < |b| && b[k] == s;
      assert b[k].interval.Contains(t);
    }
  }

  lemma SomeContains(a: seq<CapacitySegment>, b: seq<CapacitySegment>, t: int)
    requires forall s :: s in a ==> s in b
    ensures (exists i :: 0 <= i < |a| && a[i].interval.Contains(t))
            ==> exists i :: 0 <= i < |b| && b[i].interval.Contains(t)
  {
    if i :| 0 <= i < |a| && a[i].interval.Contains(t) {
      var s := a[i];
      assert s in a && s in b;
      var k :| 0 <= k < |b| && b[k] == s;
      assert b[k].interval.Contains(t);
    }
  }

  /** The order segments are supplied in makes no difference. */
  lemma FromUnsortedPermutes(a: seq<CapacitySegment>, b: seq<CapacitySegment>)
    requires WellTyped(a) && multiset(a) == multiset(b)
    ensures FromUnsorted(a) == FromUnsorted(b)
  {
    hide SortSegments, FromSorted, InSegmentOrder;
    forall s
      ensures s in b <==> s in a
    {
      assert s in b <==> s in multiset(b);
      assert s in a <==> s in multiset(a);
    }
    SameBounds(a, b);
    SortSegmentsCorrect(a);
    SortSegmentsCorrect(b);
    SegmentOrderUnique(SortSegments(a), SortSegments(b));
  }
}
