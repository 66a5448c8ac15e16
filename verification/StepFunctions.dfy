/**
 A sequence of slack points read as a step function of time.

 `At` is a left fold: the last point at or before `t` decides, and `fallback` applies before the
 first point. Folding makes concatenation compositional without any ordering assumption.
 */
module StepFunctions {
  import opened Results

  /** A timestamp at which slack changes; the value applies until the next point. */
  datatype SlackPoint = SlackPoint(timestamp: int, slack: int)

  function At(fallback: int, points: seq<SlackPoint>, t: int): int {
    if points == [] then fallback
    else
      var last := points[|points| - 1];
      if last.timestamp <= t then last.slack else At(fallback, points[..|points| - 1], t)
  }

  ghost predicate Sorted(points: seq<SlackPoint>) {
    forall i, j :: 0 <= i < j < |points| ==> points[i].timestamp < points[j].timestamp
  }

  /** No two neighbours carry the same slack. */
  ghost predicate Varying(points: seq<SlackPoint>) {
    forall i :: 0 < i < |points| ==> points[i - 1].slack != points[i].slack
  }

  ghost predicate AllFit(points: seq<SlackPoint>) {
    forall i :: 0 <= i < |points| ==> FitsI64(points[i].slack)
  }

  /** Two point sequences denote the same step function in every context. */
  ghost predicate Equiv(a: seq<SlackPoint>, b: seq<SlackPoint>) {
    forall fallback, t :: At(fallback, a, t) == At(fallback, b, t)
  }

  /** The normal form: ordered, no repeated value, and no leading zero. */
  ghost predicate Canonical(points: seq<SlackPoint>) {
    Sorted(points) && Varying(points) && (points != [] ==> points[0].slack != 0)
  }

  function Timestamps(points: seq<SlackPoint>): (ts: seq<int>)
    ensures |ts| == |points|
    ensures forall i :: 0 <= i < |points| ==> ts[i] == points[i].timestamp
  {
    seq(|points|, i requires 0 <= i < |points| => points[i].timestamp)
  }

  function Shift(points: seq<SlackPoint>, delta: int): (shifted: seq<SlackPoint>)
    ensures |shifted| == |points|
    ensures forall i :: 0 <= i < |points| ==>
                          shifted[i] == SlackPoint(points[i].timestamp, points[i].slack + delta)
  {
    seq(|points|, i requires 0 <= i < |points| => SlackPoint(points[i].timestamp, points[i].slack + delta))
  }

  function DedupStep(kept: seq<SlackPoint>, point: SlackPoint): seq<SlackPoint> {
    if kept != [] && kept[|kept| - 1].slack == point.slack then kept else kept + [point]
  }

  /** Drops every point that repeats the value before it. */
  function Dedup(points: seq<SlackPoint>): seq<SlackPoint> {
    if points == [] then []
    else DedupStep(Dedup(points[..|points| - 1]), points[|points| - 1])
  }

  function StripLeadingZero(points: seq<SlackPoint>): seq<SlackPoint> {
    if points != [] && points[0].slack == 0 then points[1..] else points
  }

  function Canon(points: seq<SlackPoint>): seq<SlackPoint> {
    StripLeadingZero(Dedup(points))
  }

  /** Amount that adding `delta` on the half-open span contributes at `t`. */
  function SpanDelta(start: int, end: int, delta: int, t: int): int {
    if start <= t < end then delta else 0
  }

  function Bump(points: seq<SlackPoint>, start: int, end: int, delta: int): (bumped: seq<SlackPoint>)
    ensures |bumped| == |points|
    ensures forall i :: 0 <= i < |points| ==>
      bumped[i] == SlackPoint(points[i].timestamp,
                              points[i].slack + SpanDelta(start, end, delta, points[i].timestamp))
  {
    seq(|points|, i requires 0 <= i < |points| =>
      SlackPoint(points[i].timestamp, points[i].slack + SpanDelta(start, end, delta, points[i].timestamp)))
  }

  /** Index of the first key above `t`, as the standard library's partition search returns it. */
  function PartitionPoint(keys: seq<int>, t: int): (k: nat)
    ensures k <= |keys|
    ensures forall i :: 0 <= i < k ==> keys[i] <= t
    ensures k < |keys| ==> t < keys[k]
  {
    if keys == [] || t < keys[0] then 0 else 1 + PartitionPoint(keys[1..], t)
  }

  predicate HasPointAt(points: seq<SlackPoint>, t: int) {
    exists i :: 0 <= i < |points| && points[i].timestamp == t
  }

  /** Adds a redundant point at `t` carrying the value already in force there. */
  function WithBoundary(points: seq<SlackPoint>, t: int): seq<SlackPoint> {
    var k := PartitionPoint(Timestamps(points), t);
    if HasPointAt(points, t) then points
    else points[..k] + [SlackPoint(t, At(0, points, t))] + points[k..]
  }

  // ---- The fold ----

  lemma {:induction false} AtConcat(fallback: int, a: seq<SlackPoint>, b: seq<SlackPoint>, t: int)
    ensures At(fallback, a + b, t) == At(At(fallback, a, t), b, t)
  {
    if b == [] {
      assert a + b == a;
    } else {
      AtConcat(fallback, a, b[..|b| - 1], t);
      assert (a + b)[..|a + b| - 1] == a + b[..|b| - 1];
    }
  }

  lemma {:induction false} AtLater(fallback: int, points: seq<SlackPoint>, t: int)
    requires forall i :: 0 <= i < |points| ==> t < points[i].timestamp
    ensures At(fallback, points, t) == fallback
  {
    if points != [] {
      AtLater(fallback, points[..|points| - 1], t);
    }
  }

  /** The value in force at `t` is the value of the last point at or before `t`. */
  lemma AtIndex(fallback: int, points: seq<SlackPoint>, k: nat, t: int)
    requires k < |points| && points[k].timestamp <= t
    requires forall i :: k < i < |points| ==> t < points[i].timestamp
    ensures At(fallback, points, t) == points[k].slack
  {
    assert points == points[..k + 1] + points[k + 1..];
    AtConcat(fallback, points[..k + 1], points[k + 1..], t);
    AtLater(points[k].slack, points[k + 1..], t);
  }

  /** Either no point is at or before `t`, or the returned index is the one in force. */
  lemma FindInForce(points: seq<SlackPoint>, t: int) returns (k: int)
    requires Sorted(points)
    ensures -1 <= k < |points|
    ensures forall i :: 0 <= i <= k ==> points[i].timestamp <= t
    ensures forall i :: k < i < |points| ==> t < points[i].timestamp
    ensures forall fallback :: At(fallback, points, t) == if k < 0 then fallback else points[k].slack
  {
    k := PartitionPoint(Timestamps(points), t) - 1;
    forall fallback
      ensures At(fallback, points, t) == if k < 0 then fallback else points[k].slack
    {
      if k < 0 {
        AtLater(fallback, points, t);
      } else {
        AtIndex(fallback, points, k, t);
      }
    }
  }

  lemma EquivConcat(a: seq<SlackPoint>, a': seq<SlackPoint>, b: seq<SlackPoint>, b': seq<SlackPoint>)
    requires Equiv(a, a') && Equiv(b, b')
    ensures Equiv(a + b, a' + b')
  {
    forall fallback, t
      ensures At(fallback, a + b, t) == At(fallback, a' + b', t)
    {
      AtConcat(fallback, a, b, t);
      AtConcat(fallback, a', b', t);
    }
  }

  // ---- Dropping repeated values ----

  /** Deduplication keeps the first point, the last value, and only points of its input. */
  lemma {:induction false} DedupEnds(points: seq<SlackPoint>)
    requires points != []
    ensures var kept := Dedup(points);
            && 0 < |kept| <= |points| && kept[0] == points[0]
            && kept[|kept| - 1].slack == points[|points| - 1].slack
  {
    if |points| > 1 {
      DedupEnds(points[..|points| - 1]);
    } else {
      assert Dedup(points[..0]) == [];
    }
  }

  lemma {:induction false} DedupSubset(points: seq<SlackPoint>)
    ensures forall p :: p in Dedup(points) ==> p in points
  {
    if points != [] {
      DedupSubset(points[..|points| - 1]);
    }
  }

  lemma {:induction false} DedupSorted(points: seq<SlackPoint>)
    requires Sorted(points)
    ensures Sorted(Dedup(points)) && Varying(Dedup(points))
  {
    if points != [] {
      var n := |points| - 1;
      DedupSorted(points[..n]);
      DedupSubset(points[..n]);
      var kept := Dedup(points[..n]);
      forall i | 0 <= i < |kept|
        ensures kept[i].timestamp < points[n].timestamp
      {
        assert kept[i] in points[..n];
      }
    }
  }

  lemma DedupShape(points: seq<SlackPoint>)
    requires Sorted(points)
    ensures Sorted(Dedup(points)) && Varying(Dedup(points)) && |Dedup(points)| <= |points|
    ensures points != [] ==>
              && Dedup(points) != []
              && Dedup(points)[0] == points[0]
              && Dedup(points)[|Dedup(points)| - 1].slack == points[|points| - 1].slack
    ensures AllFit(points) ==> AllFit(Dedup(points))
  {
    DedupSorted(points);
    DedupSubset(points);
    if points != [] {
      DedupEnds(points);
    }
    if AllFit(points) {
      forall i | 0 <= i < |Dedup(points)|
        ensures FitsI64(Dedup(points)[i].slack)
      {
        assert Dedup(points)[i] in points;
      }
    }
  }

  lemma {:induction false} DedupAt(fallback: int, points: seq<SlackPoint>, t: int)
    requires Sorted(points)
    ensures At(fallback, Dedup(points), t) == At(fallback, points, t)
  {
    if points != [] {
      var n := |points| - 1;
      var kept := Dedup(points[..n]);
      DedupAt(fallback, points[..n], t);
      if kept != [] && kept[|kept| - 1].slack == points[n].slack {
        DedupEnds(points[..n]);
        if points[n].timestamp <= t {
          AtIndex(fallback, points[..n], n - 1, t);
        }
      } else {
        assert (kept + [points[n]])[..|kept|] == kept;
      }
    }
  }

  lemma DedupEquiv(points: seq<SlackPoint>)
    requires Sorted(points)
    ensures Equiv(Dedup(points), points)
  {
    forall fallback, t
      ensures At(fallback, Dedup(points), t) == At(fallback, points, t)
    {
      DedupAt(fallback, points, t);
    }
  }

  lemma StripEquiv(points: seq<SlackPoint>, t: int)
    ensures At(0, StripLeadingZero(points), t) == At(0, points, t)
  {
    if points != [] && points[0].slack == 0 {
      assert points == [points[0]] + points[1..];
      AtConcat(0, [points[0]], points[1..], t);
    }
  }

  /** Normalizing keeps the meaning and reaches the normal form. */
  lemma CanonCorrect(points: seq<SlackPoint>)
    requires Sorted(points)
    ensures Canonical(Canon(points))
    ensures forall t :: At(0, Canon(points), t) == At(0, points, t)
    ensures AllFit(points) ==> AllFit(Canon(points))
  {
    DedupShape(points);
    DedupEquiv(points);
    forall t
      ensures At(0, Canon(points), t) == At(0, points, t)
    {
      StripEquiv(Dedup(points), t);
    }
  }

  // ---- Uniqueness of the normal form ----

  lemma CanonicalPrefix(points: seq<SlackPoint>)
    requires Canonical(points) && points != []
    ensures Canonical(points[..|points| - 1])
  {
  }

  /** The last canonical point is a real change: the value just before it differs. */
  lemma LastPointChanges(points: seq<SlackPoint>)
    requires Canonical(points) && points != []
    ensures var p := points[|points| - 1];
            At(0, points, p.timestamp) == p.slack && At(0, points, p.timestamp - 1) != p.slack
  {
    var n := |points| - 1;
    var t := points[n].timestamp;
    AtIndex(0, points, n, t);
    if n > 0 {
      assert points[n - 1].timestamp < t;
      AtIndex(0, points, n - 1, t - 1);
    } else {
      AtLater(0, points, t - 1);
    }
  }

  lemma ConstantAfter(points: seq<SlackPoint>, t: int, u: int)
    requires Sorted(points) && t <= u
    requires forall i :: 0 <= i < |points| ==> points[i].timestamp <= t
    ensures At(0, points, t) == At(0, points, u)
  {
    if points != [] {
      AtIndex(0, points, |points| - 1, t);
      AtIndex(0, points, |points| - 1, u);
    }
  }

  lemma SortedWhenCanonical(points: seq<SlackPoint>)
    requires Canonical(points)
    ensures Sorted(points)
  {
  }

  /** Equal meaning forces equal normal forms. */
  lemma {:induction false} CanonicalUnique(a: seq<SlackPoint>, b: seq<SlackPoint>)
    requires Canonical(a) && Canonical(b)
    requires forall t :: At(0, a, t) == At(0, b, t)
    ensures a == b
    decreases |a| + |b|
  {
    if a != [] || b != [] {
      LastPointsAgree(a, b);
      var n, m := |a| - 1, |b| - 1;
      var last := a[n].timestamp;
      CanonicalPrefix(a);
      CanonicalPrefix(b);
      forall t
        ensures At(0, a[..n], t) == At(0, b[..m], t)
      {
        assert At(0, a, t) == At(0, b, t);
        assert At(0, a, last - 1) == At(0, b, last - 1);
        if last <= t {
          ConstantAfter(a[..n], last - 1, t);
          ConstantAfter(b[..m], last - 1, t);
        }
      }
      CanonicalUnique(a[..n], b[..m]);
      assert a == a[..n] + [a[n]] && b == b[..m] + [b[m]];
    }
  }

  /** A step function that changes at `a`'s last point has a point at least that late. */
  lemma LastPointReached(a: seq<SlackPoint>, b: seq<SlackPoint>)
    requires Canonical(a) && Canonical(b) && a != []
    requires forall t :: At(0, a, t) == At(0, b, t)
    ensures b != [] && a[|a| - 1].timestamp <= b[|b| - 1].timestamp
  {
    LastPointChanges(a);
    var t := a[|a| - 1].timestamp;
    assert At(0, b, t - 1) == At(0, a, t - 1);
    assert At(0, b, t) == At(0, a, t) != At(0, b, t - 1);
    if b == [] || b[|b| - 1].timestamp < t {
      ConstantAfter(b, t - 1, t);
      assert false;
    }
  }

  lemma LastPointsAgree(a: seq<SlackPoint>, b: seq<SlackPoint>)
    requires Canonical(a) && Canonical(b) && (a != [] || b != [])
    requires forall t :: At(0, a, t) == At(0, b, t)
    ensures a != [] && b != [] && a[|a| - 1] == b[|b| - 1]
  {
    if a != [] {
      LastPointReached(a, b);
    }
    if b != [] {
      LastPointReached(b, a);
    }
    LastPointChanges(a);
    LastPointChanges(b);
    assert At(0, a, a[|a| - 1].timestamp) == At(0, b, a[|a| - 1].timestamp);
  }

  // ---- Boundaries and range updates ----

  lemma WithBoundaryCorrect(points: seq<SlackPoint>, t: int)
    requires Sorted(points)
    ensures Sorted(WithBoundary(points, t))
    ensures HasPointAt(WithBoundary(points, t), t)
    ensures forall u :: HasPointAt(points, u) ==> HasPointAt(WithBoundary(points, t), u)
    ensures forall u :: At(0, WithBoundary(points, t), u) == At(0, points, u)
  {
    if !HasPointAt(points, t) {
      var k := PartitionPoint(Timestamps(points), t);
      var added := SlackPoint(t, At(0, points, t));
      assert forall i :: 0 <= i < k ==> points[i].timestamp < t;
      InsertedPoints(points, k, added);
      forall u
        ensures At(0, WithBoundary(points, t), u) == At(0, points, u)
      {
        BoundaryKeepsValue(points, k, added, u);
      }
    }
  }

  lemma InsertedPoints(points: seq<SlackPoint>, k: nat, added: SlackPoint)
    requires Sorted(points) && k <= |points|
    requires forall i :: 0 <= i < k ==> points[i].timestamp < added.timestamp
    requires forall i :: k <= i < |points| ==> added.timestamp < points[i].timestamp
    ensures Sorted(points[..k] + [added] + points[k..])
    ensures HasPointAt(points[..k] + [added] + points[k..], added.timestamp)
    ensures forall u :: HasPointAt(points, u) ==> HasPointAt(points[..k] + [added] + points[k..], u)
  {
    var result := points[..k] + [added] + points[k..];
    assert result[k] == added;
    forall u | HasPointAt(points, u)
      ensures HasPointAt(result, u)
    {
      var i :| 0 <= i < |points| && points[i].timestamp == u;
      assert result[if i < k then i else i + 1] == points[i];
    }
  }

  lemma BoundaryKeepsValue(points: seq<SlackPoint>, k: nat, added: SlackPoint, u: int)
    requires Sorted(points) && k <= |points|
    requires forall i :: 0 <= i < k ==> points[i].timestamp < added.timestamp
    requires forall i :: k <= i < |points| ==> added.timestamp < points[i].timestamp
    requires added.slack == At(0, points, added.timestamp)
    ensures At(0, points[..k] + [added] + points[k..], u) == At(0, points, u)
  {
    AtConcat(0, points[..k] + [added], points[k..], u);
    AtConcat(0, points[..k], points[k..], u);
    AtConcat(0, points[..k], points[k..], added.timestamp);
    assert points == points[..k] + points[k..];
    AtLater(At(0, points[..k], added.timestamp), points[k..], added.timestamp);
    assert (points[..k] + [added])[..k] == points[..k];
    if added.timestamp <= u {
      ConstantAfter(points[..k], added.timestamp, u);
    }
  }

  /** Bumping every point of the span adds `delta` on the span, when both ends are points. */
  lemma BumpCorrect(points: seq<SlackPoint>, start: int, end: int, delta: int, t: int)
    requires Sorted(points) && start < end
    requires HasPointAt(points, start) && HasPointAt(points, end)
    ensures Sorted(Bump(points, start, end, delta))
    ensures At(0, Bump(points, start, end, delta), t) == At(0, points, t) + SpanDelta(start, end, delta, t)
  {
    var bumped := Bump(points, start, end, delta);
    var k := FindInForce(points, t);
    if k < 0 {
      AtLater(0, bumped, t);
    } else {
      AtIndex(0, bumped, k, t);
    }
    var s :| 0 <= s < |points| && points[s].timestamp == start;
    var e :| 0 <= e < |points| && points[e].timestamp == end;
    assert At(0, points, t) == if k < 0 then 0 else points[k].slack;
    assert At(0, bumped, t) == if k < 0 then 0 else bumped[k].slack;
    assert start <= t ==> s <= k;
    assert end <= t ==> e <= k;
    assert t < end ==> k < e;
  }

  /** The canonical result of adding `delta` on `[start, end)`. */
  function AddOn(points: seq<SlackPoint>, start: int, end: int, delta: int): seq<SlackPoint> {
    Canon(Bump(WithBoundary(WithBoundary(points, end), start), start, end, delta))
  }

  lemma AddOnCorrect(points: seq<SlackPoint>, start: int, end: int, delta: int)
    requires Sorted(points) && start < end
    ensures Canonical(AddOn(points, start, end, delta))
    ensures forall t :: At(0, AddOn(points, start, end, delta), t)
                        == At(0, points, t) + SpanDelta(start, end, delta, t)
  {
    WithBoundaryCorrect(points, end);
    var once := WithBoundary(points, end);
    WithBoundaryCorrect(once, start);
    var twice := WithBoundary(once, start);
    BumpCorrect(twice, start, end, delta, start);
    CanonCorrect(Bump(twice, start, end, delta));
    forall t
      ensures At(0, AddOn(points, start, end, delta), t) == At(0, points, t) + SpanDelta(start, end, delta, t)
    {
      BumpCorrect(twice, start, end, delta, t);
      assert At(0, twice, t) == At(0, once, t) == At(0, points, t);
    }
  }

  /** Any points that gained `delta` on the span normalize to the same result. */
  lemma AddOnAgrees(before: seq<SlackPoint>, after: seq<SlackPoint>, start: int, end: int, delta: int)
    requires Sorted(before) && Sorted(after) && start < end
    requires forall t :: At(0, after, t) == At(0, before, t) + SpanDelta(start, end, delta, t)
    ensures Canon(after) == AddOn(Canon(before), start, end, delta)
  {
    hide At;
    CanonCorrect(before);
    CanonCorrect(after);
    AddOnCorrect(Canon(before), start, end, delta);
    CanonicalUnique(Canon(after), AddOn(Canon(before), start, end, delta));
  }
}
