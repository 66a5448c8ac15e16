/** Blocks of slack points with cached extremes and a lazily applied block-wide delta. */
module SlackBlocks {
  import opened Results
  import opened StepFunctions

  datatype IndexError =
    | UnsortedSlackPoints
    | DuplicateSlackTimestamp
    | SlackOverflow
    | InvalidPointRange
    | InconsistentUsage

  const MAX_POINTS_PER_BLOCK := 256

  /** A block as a timeline's vector owns it. `delta` is not yet added to the stored points. */
  datatype Block = Block(points: seq<SlackPoint>, minimum: Option<int>, maximum: Option<int>, delta: int) {
    function Effective(): seq<SlackPoint> {
      Shift(points, delta)
    }

    /** Everything but the cached extremes. */
    ghost predicate Representable() {
      Sorted(points) && FitsI64(delta) && AllFit(points) && AllFit(Effective())
    }

    ghost predicate Valid() {
      && Representable()
      && minimum == Lowest(Effective())
      && maximum == Highest(Effective())
    }
  }

  function LowerOf(bound: Option<int>, slack: int): Option<int> {
    Some(if bound.Some? then Min(bound.value, slack) else slack)
  }

  function HigherOf(bound: Option<int>, slack: int): Option<int> {
    Some(if bound.Some? then Max(bound.value, slack) else slack)
  }

  function Lowest(points: seq<SlackPoint>): Option<int> {
    if points == [] then None
    else LowerOf(Lowest(points[..|points| - 1]), points[|points| - 1].slack)
  }

  function Highest(points: seq<SlackPoint>): Option<int> {
    if points == [] then None
    else HigherOf(Highest(points[..|points| - 1]), points[|points| - 1].slack)
  }

  /** Adds `delta` to the points whose index lies in `[lo, hi)`. */
  function BumpIndices(points: seq<SlackPoint>, lo: int, hi: int, delta: int): (bumped: seq<SlackPoint>)
    ensures |bumped| == |points|
    ensures forall i :: 0 <= i < |points| ==>
      bumped[i] == SlackPoint(points[i].timestamp, points[i].slack + if lo <= i < hi then delta else 0)
  {
    seq(|points|, i requires 0 <= i < |points| =>
      SlackPoint(points[i].timestamp, points[i].slack + if lo <= i < hi then delta else 0))
  }

  /** What block construction keeps: each point is checked against the last point kept so far. */
  function Normalize(points: seq<SlackPoint>): Result<seq<SlackPoint>, IndexError> {
    if points == [] then Ok([])
    else
      var kept :- Normalize(points[..|points| - 1]);
      var point := points[|points| - 1];
      if kept == [] then Ok([point])
      else
        var previous := kept[|kept| - 1];
        if point.timestamp < previous.timestamp then Err(UnsortedSlackPoints)
        else if point.timestamp == previous.timestamp then Err(DuplicateSlackTimestamp)
        else Ok(DedupStep(kept, point))
  }

  // ---- Extremes ----

  lemma {:induction false} LowestCorrect(points: seq<SlackPoint>)
    ensures points == [] <==> Lowest(points).None?
    ensures points != [] ==>
              && (forall i :: 0 <= i < |points| ==> Lowest(points).value <= points[i].slack)
              && (exists i :: 0 <= i < |points| && points[i].slack == Lowest(points).value)
  {
    if points != [] {
      var n := |points| - 1;
      LowestCorrect(points[..n]);
      if n > 0 && Lowest(points[..n]).value <= points[n].slack {
        var i :| 0 <= i < n && points[..n][i].slack == Lowest(points[..n]).value;
        assert points[i].slack == Lowest(points).value;
      } else {
        assert points[n].slack == Lowest(points).value;
      }
      forall i | 0 <= i < |points|
        ensures Lowest(points).value <= points[i].slack
      {
        if i < n {
          assert points[..n][i] == points[i];
        }
      }
    }
  }

  lemma {:induction false} HighestCorrect(points: seq<SlackPoint>)
    ensures points == [] <==> Highest(points).None?
    ensures points != [] ==>
              && (forall i :: 0 <= i < |points| ==> points[i].slack <= Highest(points).value)
              && (exists i :: 0 <= i < |points| && points[i].slack == Highest(points).value)
  {
    if points != [] {
      var n := |points| - 1;
      HighestCorrect(points[..n]);
      if n > 0 && points[n].slack <= Highest(points[..n]).value {
        var i :| 0 <= i < n && points[..n][i].slack == Highest(points[..n]).value;
        assert points[i].slack == Highest(points).value;
      } else {
        assert points[n].slack == Highest(points).value;
      }
      forall i | 0 <= i < |points|
        ensures points[i].slack <= Highest(points).value
      {
        if i < n {
          assert points[..n][i] == points[i];
        }
      }
    }
  }

  lemma ShiftShift(points: seq<SlackPoint>, a: int, b: int)
    ensures Shift(Shift(points, a), b) == Shift(points, a + b)
    ensures Shift(points, 0) == points
  {
  }

  lemma {:induction false} ExtremesShift(points: seq<SlackPoint>, delta: int)
    requires points != []
    ensures Lowest(points).Some? && Lowest(Shift(points, delta)) == Some(Lowest(points).value + delta)
    ensures Highest(points).Some? && Highest(Shift(points, delta)) == Some(Highest(points).value + delta)
  {
    var n := |points| - 1;
    assert Shift(points, delta)[..n] == Shift(points[..n], delta);
    if n > 0 {
      ExtremesShift(points[..n], delta);
    }
  }

  /** A whole block can move by `delta` exactly when its two extremes can. */
  lemma ExtremesDecideFit(points: seq<SlackPoint>, delta: int)
    requires points != []
    ensures Lowest(points).Some? && Highest(points).Some?
    ensures AllFit(Shift(points, delta))
            <==> FitsI64(Lowest(points).value + delta) && FitsI64(Highest(points).value + delta)
  {
    LowestCorrect(points);
    HighestCorrect(points);
    var i :| 0 <= i < |points| && points[i].slack == Lowest(points).value;
    var j :| 0 <= j < |points| && points[j].slack == Highest(points).value;
    assert Shift(points, delta)[i].slack == Lowest(points).value + delta;
    assert Shift(points, delta)[j].slack == Highest(points).value + delta;
  }

  // ---- Construction ----

  /** Every point lies after the last point that deduplication kept before it. */
  ghost predicate AfterKept(points: seq<SlackPoint>) {
    forall i :: 0 < i < |points| ==> LastKept(points, i).timestamp < points[i].timestamp
  }

  ghost function LastKept(points: seq<SlackPoint>, i: int): SlackPoint
    requires 0 < i <= |points|
  {
    DedupEnds(points[..i]);
    Dedup(points[..i])[|Dedup(points[..i])| - 1]
  }

  lemma AfterKeptPush(points: seq<SlackPoint>, n: nat)
    requires 0 < n < |points|
    ensures AfterKept(points[..n + 1])
            <==> AfterKept(points[..n]) && LastKept(points, n).timestamp < points[n].timestamp
  {
    forall i | 0 < i <= n
      ensures LastKept(points, i) == LastKept(points[..n + 1], i)
      ensures i < n ==> LastKept(points, i) == LastKept(points[..n], i)
    {
      assert points[..n][..i] == points[..i] == points[..n + 1][..i];
    }
    if AfterKept(points[..n + 1]) {
      forall i | 0 < i < n
        ensures LastKept(points[..n], i).timestamp < points[..n][i].timestamp
      {
        assert LastKept(points[..n + 1], i).timestamp < points[..n + 1][i].timestamp;
      }
      assert LastKept(points[..n + 1], n).timestamp < points[..n + 1][n].timestamp;
    }
  }

  /** Construction compares with kept points only, and that is exactly what it accepts. */
  lemma {:induction false} NormalizeAccepts(points: seq<SlackPoint>)
    ensures Normalize(points).Ok? <==> AfterKept(points)
    ensures Normalize(points).Ok? ==> Normalize(points) == Ok(Dedup(points))
  {
    if points != [] {
      NormalizeAccepts(points[..|points| - 1]);
      NormalizeAcceptsLast(points);
    }
  }

  lemma NormalizeAcceptsLast(points: seq<SlackPoint>)
    requires points != []
    requires var earlier := points[..|points| - 1];
             && (Normalize(earlier).Ok? <==> AfterKept(earlier))
             && (Normalize(earlier).Ok? ==> Normalize(earlier) == Ok(Dedup(earlier)))
    ensures Normalize(points).Ok? <==> AfterKept(points)
    ensures Normalize(points).Ok? ==> Normalize(points) == Ok(Dedup(points))
  {
    var n := |points| - 1;
    if n > 0 {
      DedupEnds(points[..n]);
      AfterKeptPush(points, n);
      assert points[..n + 1] == points;
      hide AfterKept;
    } else {
      assert Dedup(points) == [points[0]];
    }
  }

  lemma DedupPush(points: seq<SlackPoint>, i: nat)
    requires i < |points|
    ensures Dedup(points[..i + 1]) == DedupStep(Dedup(points[..i]), points[i])
  {
    assert points[..i + 1][..i] == points[..i];
  }

  lemma ExtremesPush(points: seq<SlackPoint>, point: SlackPoint)
    ensures Lowest(points + [point]) == LowerOf(Lowest(points), point.slack)
    ensures Highest(points + [point]) == HigherOf(Highest(points), point.slack)
  {
    assert (points + [point])[..|points|] == points;
  }

  /** On ordered points construction succeeds and drops exactly the repeated values. */
  lemma NormalizeSorted(points: seq<SlackPoint>)
    requires Sorted(points)
    ensures Normalize(points) == Ok(Dedup(points))
  {
    NormalizeAccepts(points);
    forall i | 0 < i < |points|
      ensures LastKept(points, i).timestamp < points[i].timestamp
    {
      DedupSubset(points[..i]);
      assert LastKept(points, i) in points[..i];
    }
  }

  /** The documented rejection of decreasing timestamps misses points that follow a dropped one. */
  lemma NormalizeAcceptsUnsorted()
    ensures var points := [SlackPoint(1, 5), SlackPoint(3, 5), SlackPoint(2, 7)];
            !Sorted(points) && Normalize(points) == Ok([SlackPoint(1, 5), SlackPoint(2, 7)])
  {
    var p, q, r := SlackPoint(1, 5), SlackPoint(3, 5), SlackPoint(2, 7);
    assert [p, q, r][..2] == [p, q] && [p, q][..1] == [p] && [p][..0] == [];
    assert Normalize([p]) == Ok([p]);
    assert Normalize([p, q]) == Ok([p]);
    assert Normalize([p, q, r]) == Ok([p] + [r]) && [p] + [r] == [p, r];
    assert [p, q, r][1].timestamp > [p, q, r][2].timestamp;
  }

  /** The two cached extremes alone decide whether the block can move by `delta`. */
  lemma CachedExtremesDecideFit(block: Block, delta: int)
    requires block.Valid()
    ensures block.minimum.None? <==> block.points == []
    ensures block.maximum.None? <==> block.points == []
    ensures AllFit(Shift(block.Effective(), delta))
            <==> block.points == []
                 || (FitsI64(block.minimum.value + delta) && FitsI64(block.maximum.value + delta))
  {
    LowestCorrect(block.Effective());
    HighestCorrect(block.Effective());
    if block.points != [] {
      ExtremesDecideFit(block.Effective(), delta);
    }
  }

  /** Moving a block lazily keeps it valid while its extremes stay representable. */
  lemma LazyMoveValid(block: Block, delta: int)
    requires block.Valid() && block.points != [] && AllFit(Shift(block.Effective(), delta))
    requires FitsI64(block.delta + delta)
    ensures block.minimum.Some? && block.maximum.Some?
    ensures var moved := Block(block.points, Some(block.minimum.value + delta),
                               Some(block.maximum.value + delta), block.delta + delta);
            moved.Valid() && moved.Effective() == Shift(block.Effective(), delta)
  {
    ShiftShift(block.points, block.delta, delta);
    ExtremesShift(block.Effective(), delta);
  }

  lemma MaterializedValid(block: Block)
    requires block.Representable()
    ensures var flat := block.(points := block.Effective(), delta := 0);
            && flat.Representable() && flat.Effective() == block.Effective()
            && (block.Valid() ==> flat.Valid())
  {
    ShiftShift(block.points, block.delta, 0);
    ShiftShift(block.Effective(), 0, 0);
  }

  lemma BumpedBlockValid(block: Block, lo: int, hi: int, delta: int)
    requires block.Valid() && AllFit(BumpIndices(block.Effective(), lo, hi, delta))
    ensures var kept := Dedup(BumpIndices(block.Effective(), lo, hi, delta));
            Block(kept, Lowest(kept), Highest(kept), 0).Valid()
  {
    var target := BumpIndices(block.Effective(), lo, hi, delta);
    assert forall k :: 0 <= k < |target| ==> target[k].timestamp == block.points[k].timestamp;
    DedupShape(target);
    BuiltBlockValid(Dedup(target));
  }

  // ---- Inserting and splitting ----

  function PointIndex(points: seq<SlackPoint>, t: int): (k: nat)
    ensures k <= |points|
    ensures forall i :: 0 <= i < k ==> points[i].timestamp <= t
    ensures k < |points| ==> t < points[k].timestamp
  {
    PartitionPoint(Timestamps(points), t)
  }

  function Inserted(points: seq<SlackPoint>, t: int, slack: int): seq<SlackPoint> {
    var p := PointIndex(points, t);
    points[..p] + [SlackPoint(t, slack)] + points[p..]
  }

  lemma PartitionSame(points: seq<SlackPoint>, delta: int, t: int)
    ensures PointIndex(Shift(points, delta), t) == PointIndex(points, t)
  {
    assert Timestamps(Shift(points, delta)) == Timestamps(points);
  }

  /** A block with one redundant point inserted is still representable. */
  lemma InsertedRepresentable(points: seq<SlackPoint>, t: int, slack: int)
    requires Sorted(points) && AllFit(points) && FitsI64(slack) && !HasPointAt(points, t)
    ensures Block(Inserted(points, t, slack), None, None, 0).Representable()
    ensures Block(Inserted(points, t, slack), None, None, 0).Effective() == Inserted(points, t, slack)
  {
    var p := PointIndex(points, t);
    forall i | 0 <= i < p
      ensures points[i].timestamp < t
    {
      assert points[i].timestamp != t;
    }
    InsertedPoints(points, p, SlackPoint(t, slack));
    ShiftShift(Inserted(points, t, slack), 0, 0);
  }

  lemma SlicesRepresentable(points: seq<SlackPoint>, k: nat)
    requires k <= |points| && Sorted(points) && AllFit(points)
    ensures var left, right := points[..k], points[k..];
            && Block(left, None, None, 0).Representable()
            && Block(right, Lowest(right), Highest(right), 0).Valid()
            && Shift(left, 0) == left && Shift(right, 0) == right && left + right == points
  {
    ShiftShift(points[..k], 0, 0);
    BuiltBlockValid(points[k..]);
  }

  // ---- The mutable block ----

  /** A block borrowed for update: loaded from its vector slot and stored back as `Value()`. */
  class SlackBlock {
    var points: seq<SlackPoint>
    var minimumSlack: Option<int>
    var maximumSlack: Option<int>
    var slackDelta: int

    function Value(): Block
      reads this
    {
      Block(points, minimumSlack, maximumSlack, slackDelta)
    }

    constructor (block: Block)
      ensures Value() == block
    {
      points := block.points;
      minimumSlack := block.minimum;
      maximumSlack := block.maximum;
      slackDelta := block.delta;
    }

    /** Moves the whole block, or leaves it alone when an extreme would leave 64 bits. */
    method ApplyDelta(delta: int) returns (r: Result<(), IndexError>)
      requires Value().Valid() && FitsI64(delta)
      modifies this
      ensures Value().Valid()
      ensures r == if AllFit(Shift(old(Value().Effective()), delta)) then Ok(()) else Err(SlackOverflow)
      ensures r.Ok? ==> Value().Effective() == Shift(old(Value().Effective()), delta)
      ensures r.Err? ==> Value() == old(Value())
    {
      hide Lowest, Highest, AllFit;
      ghost var was := Value().Effective();
      CachedExtremesDecideFit(Value(), delta);
      if minimumSlack.None? || maximumSlack.None? {
        assert Shift(was, delta) == was;
        return Ok(());
      }
      var newMinimum := CheckedAddI64(minimumSlack.value, delta);
      if newMinimum.None? {
        return Err(SlackOverflow);
      }
      var newMaximum := CheckedAddI64(maximumSlack.value, delta);
      if newMaximum.None? {
        return Err(SlackOverflow);
      }
      var newDelta := CheckedAddI64(slackDelta, delta);
      if newDelta.None? {
        MaterializedValid(Value());
        var materialized := MaterializeDelta();
        newDelta := Some(delta);
      }
      LazyMoveValid(Value(), delta);
      slackDelta := newDelta.value;
      minimumSlack := newMinimum;
      maximumSlack := newMaximum;
      r := Ok(());
    }

    /** Writes the lazy delta into the stored points; no meaning and no extreme changes. */
    method MaterializeDelta() returns (r: Result<(), IndexError>)
      requires Value().Representable()
      modifies this
      ensures r.Ok? && Value().Representable()
      ensures Value() == old(Value()).(points := old(Value().Effective()), delta := 0)
      ensures Value().Effective() == old(Value().Effective())
    {
      MaterializedValid(Value());
      ShiftShift(points, slackDelta, 0);
      if slackDelta == 0 {
        return Ok(());
      }
      var materialized: seq<SlackPoint> := [];
      for i := 0 to |points|
        invariant materialized == Value().Effective()[..i]
      {
        assert Value().Effective()[i].slack == points[i].slack + slackDelta;
        var slack := CheckedAddI64(points[i].slack, slackDelta);
        if slack.None? {
          return Err(SlackOverflow);
        }
        materialized := materialized + [SlackPoint(points[i].timestamp, slack.value)];
      }
      points := materialized;
      slackDelta := 0;
      r := Ok(());
    }

    /** Moves a range of points by index and drops the repeated values this creates. */
    method ApplyDeltaToPointRange(lo: int, hi: int, delta: int) returns (r: Result<(), IndexError>)
      requires Value().Valid() && 0 <= lo && 0 <= hi && FitsI64(delta)
      modifies this
      ensures Value().Valid()
      ensures r == if lo > hi || hi > |old(points)| then Err(InvalidPointRange)
                   else if AllFit(BumpIndices(old(Value().Effective()), lo, hi, delta)) then Ok(())
                   else Err(SlackOverflow)
      ensures r.Ok? && lo < hi ==>
                && slackDelta == 0
                && points == Dedup(BumpIndices(old(Value().Effective()), lo, hi, delta))
      ensures r.Err? || lo == hi ==> Value() == old(Value())
    {
      if lo > hi || hi > |points| {
        return Err(InvalidPointRange);
      }
      if lo == hi {
        assert BumpIndices(Value().Effective(), lo, hi, delta) == Value().Effective();
        return Ok(());
      }
      var adjusted := AdjustedPoints(lo, hi, delta);
      if adjusted.Err? {
        return Err(adjusted.error);
      }
      BumpedBlockValid(Value(), lo, hi, delta);
      points := adjusted.value.points;
      minimumSlack := adjusted.value.minimum;
      maximumSlack := adjusted.value.maximum;
      slackDelta := 0;
      r := Ok(());
    }

    /** Prepares the adjusted points and extremes without touching the block. */
    method AdjustedPoints(lo: int, hi: int, delta: int) returns (r: Result<Block, IndexError>)
      requires Value().Valid()
      ensures var target := BumpIndices(Value().Effective(), lo, hi, delta);
              r == if AllFit(target) then Ok(Block(Dedup(target), Lowest(Dedup(target)), Highest(Dedup(target)), 0))
                   else Err(SlackOverflow)
    {
      ghost var target := BumpIndices(Value().Effective(), lo, hi, delta);
      var adjusted: seq<SlackPoint> := [];
      var minimum: Option<int> := None;
      var maximum: Option<int> := None;
      assert Dedup(target[..0]) == [] && Lowest([]) == None && Highest([]) == None;
      hide Dedup;
      hide Lowest;
      hide Highest;
      for i := 0 to |points|
        invariant adjusted == Dedup(target[..i])
        invariant minimum == Lowest(adjusted) && maximum == Highest(adjusted)
        invariant forall k :: 0 <= k < i ==> FitsI64(target[k].slack)
      {
        DedupPush(target, i);
        var adjustedSlack := EffectiveAfter(Value(), i, lo, hi, delta);
        if adjustedSlack.None? {
          assert !FitsI64(target[i].slack);
          return Err(SlackOverflow);
        }
        var slack := adjustedSlack.value;
        if adjusted != [] && adjusted[|adjusted| - 1].slack == slack {
          continue;
        }
        ExtremesPush(adjusted, target[i]);
        minimum := LowerOf(minimum, slack);
        maximum := HigherOf(maximum, slack);
        adjusted := adjusted + [SlackPoint(points[i].timestamp, slack)];
      }
      assert target[..|target|] == target;
      r := Ok(Block(adjusted, minimum, maximum, 0));
    }

    /** One point's slack after the update, `None` when either addition leaves 64 bits. */
    method EffectiveAfter(ghost block: Block, i: int, lo: int, hi: int, delta: int) returns (slack: Option<int>)
      requires block == Value() && block.Valid() && 0 <= i < |points|
      ensures var target := BumpIndices(block.Effective(), lo, hi, delta);
              slack == if FitsI64(target[i].slack) then Some(target[i].slack) else None
    {
      assert block.Effective()[i].slack == points[i].slack + slackDelta;
      var effective := CheckedAddI64(points[i].slack, slackDelta);
      if effective.None? {
        return None;
      }
      slack := if lo <= i < hi then CheckedAddI64(effective.value, delta) else effective;
    }

    /** Restores the cached extremes after points were inserted or removed. */
    method RecomputeAggregates() returns (r: Result<(), IndexError>)
      requires Value().Representable()
      modifies this
      ensures r.Ok? && Value().Valid()
      ensures points == old(points) && slackDelta == old(slackDelta)
    {
      var minimum: Option<int> := None;
      var maximum: Option<int> := None;
      ghost var effective := Value().Effective();
      for i := 0 to |points|
        invariant minimum == Lowest(effective[..i]) && maximum == Highest(effective[..i])
      {
        var slack := CheckedAddI64(points[i].slack, slackDelta);
        assert effective[i].slack == points[i].slack + slackDelta;
        if slack.None? {
          return Err(SlackOverflow);
        }
        minimum := LowerOf(minimum, slack.value);
        maximum := HigherOf(maximum, slack.value);
        assert effective[..i + 1][..i] == effective[..i];
      }
      assert effective[..|effective|] == effective;
      minimumSlack := minimum;
      maximumSlack := maximum;
      r := Ok(());
    }

    /** Inserts a point at a timestamp the block does not store yet. */
    method InsertPoint(timestamp: int, slack: int) returns (r: Result<(), IndexError>)
      requires Value().Valid() && FitsI64(slack) && !HasPointAt(Value().Effective(), timestamp)
      modifies this
      ensures r.Ok? && Value().Valid() && slackDelta == 0
      ensures points == Value().Effective() == Inserted(old(Value().Effective()), timestamp, slack)
    {
      r := MaterializeDelta();
      InsertedRepresentable(points, timestamp, slack);
      var pointIndex := PointIndex(points, timestamp);
      points := points[..pointIndex] + [SlackPoint(timestamp, slack)] + points[pointIndex..];
      r := RecomputeAggregates();
    }

    /** Drops the first point. */
    method RemoveFirst() returns (r: Result<(), IndexError>)
      requires Value().Valid() && points != []
      modifies this
      ensures r.Ok? && Value().Valid()
      ensures |points| == |old(points)| - 1
      ensures Value().Effective() == old(Value().Effective())[1..]
    {
      r := MaterializeDelta();
      SlicesRepresentable(points, 1);
      points := points[1..];
      r := RecomputeAggregates();
    }

    /** Keeps the first `splitIndex` points and returns the rest as a new block. */
    method SplitOff(splitIndex: nat) returns (right: Result<Block, IndexError>)
      requires Value().Valid() && splitIndex <= |points|
      modifies this
      ensures Value().Valid() && right.Ok? && right.value.Valid()
      ensures |points| == splitIndex && |right.value.points| == |old(points)| - splitIndex
      ensures Value().Effective() + right.value.Effective() == old(Value().Effective())
    {
      var materialized := MaterializeDelta();
      SlicesRepresentable(points, splitIndex);
      var rightPoints := points[splitIndex..];
      points := points[..splitIndex];
      var recomputed := RecomputeAggregates();
      right := FromSortedPointsPreservingBoundaries(rightPoints);
    }
  }

  /** Builds a block that keeps only the points where the value changes. */
  method FromSortedPoints(points: seq<SlackPoint>) returns (r: Result<Block, IndexError>)
    ensures Normalize(points).Err? ==> r == Err(Normalize(points).error)
    ensures Normalize(points).Ok? ==>
              var kept := Normalize(points).value;
              r == Ok(Block(kept, Lowest(kept), Highest(kept), 0))
  {
    if points == [] {
      return Ok(Block([], None, None, 0));
    }
    var normalized: seq<SlackPoint> := [];
    var minimum: Option<int> := None;
    var maximum: Option<int> := None;
    for i := 0 to |points|
      invariant Normalize(points[..i]) == Ok(normalized)
      invariant minimum == Lowest(normalized) && maximum == Highest(normalized)
    {
      var point := points[i];
      assert points[..i + 1][..i] == points[..i] && points[..i + 1][i] == point;
      if normalized != [] {
        var previous := normalized[|normalized| - 1];
        if point.timestamp < previous.timestamp {
          NormalizeErrorPersists(points, i + 1);
          return Err(UnsortedSlackPoints);
        }
        if point.timestamp == previous.timestamp {
          NormalizeErrorPersists(points, i + 1);
          return Err(DuplicateSlackTimestamp);
        }
        if point.slack == previous.slack {
          continue;
        }
      }
      ExtremesPush(normalized, point);
      minimum := LowerOf(minimum, point.slack);
      maximum := HigherOf(maximum, point.slack);
      normalized := normalized + [point];
    }
    assert points[..|points|] == points;
    r := Ok(Block(normalized, minimum, maximum, 0));
  }

  lemma {:induction false} NormalizeErrorPersists(points: seq<SlackPoint>, k: nat)
    requires k <= |points| && Normalize(points[..k]).Err?
    ensures Normalize(points) == Normalize(points[..k])
  {
    if k < |points| {
      assert points[..|points| - 1][..k] == points[..k];
      NormalizeErrorPersists(points[..|points| - 1], k);
    } else {
      assert points[..k] == points;
    }
  }

  /** Builds a block that keeps every point, accepting exactly the ordered inputs. */
  method FromSortedPointsPreservingBoundaries(points: seq<SlackPoint>) returns (r: Result<Block, IndexError>)
    ensures r.Ok? <==> Sorted(points)
    ensures r.Ok? ==> r.value == Block(points, Lowest(points), Highest(points), 0)
  {
    var previousTimestamp: Option<int> := None;
    var minimum: Option<int> := None;
    var maximum: Option<int> := None;
    for i := 0 to |points|
      invariant Sorted(points[..i])
      invariant previousTimestamp == if i == 0 then None else Some(points[i - 1].timestamp)
      invariant minimum == Lowest(points[..i]) && maximum == Highest(points[..i])
    {
      var point := points[i];
      if previousTimestamp.Some? && point.timestamp < previousTimestamp.value {
        return Err(UnsortedSlackPoints);
      }
      if previousTimestamp == Some(point.timestamp) {
        return Err(DuplicateSlackTimestamp);
      }
      previousTimestamp := Some(point.timestamp);
      minimum := LowerOf(minimum, point.slack);
      maximum := HigherOf(maximum, point.slack);
      assert points[..i + 1][..i] == points[..i];
      if i > 0 {
        SortedAppend(points[..i], point);
        assert points[..i + 1] == points[..i] + [point];
      }
    }
    assert points[..|points|] == points;
    r := Ok(Block(points, minimum, maximum, 0));
  }

  lemma SortedAppend(kept: seq<SlackPoint>, point: SlackPoint)
    requires kept != []
    ensures Sorted(kept + [point]) <==> Sorted(kept) && kept[|kept| - 1].timestamp < point.timestamp
  {
    var all := kept + [point];
    if Sorted(all) {
      forall i, j | 0 <= i < j < |kept|
        ensures kept[i].timestamp < kept[j].timestamp
      {
        assert all[i].timestamp < all[j].timestamp;
      }
      assert all[|kept| - 1].timestamp < all[|kept|].timestamp;
    }
  }

  /** A freshly built block over ordered, representable points is valid and means its points. */
  lemma BuiltBlockValid(points: seq<SlackPoint>)
    requires Sorted(points) && AllFit(points)
    ensures var b := Block(points, Lowest(points), Highest(points), 0);
            b.Valid() && b.Effective() == points
  {
    ShiftShift(points, 0, 0);
  }
}
