/** The blocked slack index of one resource pool. */
module SlackTimelines {
  import opened Results
  import opened StepFunctions
  import opened SlackBlocks
  import opened BlockSequences
  import opened Intervals

  /** What every published timeline satisfies. */
  ghost predicate ValidBlocks(blocks: seq<Block>) {
    Ordered(blocks) && Occupied(blocks)
  }

  /** Where a timestamp is stored, if it is. */
  function ExactPoint(blocks: seq<Block>, t: int): Option<(nat, nat)>
    requires Occupied(blocks)
  {
    var i := BlockIndex(blocks, t);
    if i < 0 then None
    else
      var p := PointIndex(blocks[i].points, t);
      if 0 < p && blocks[i].points[p - 1].timestamp == t then Some((i, p - 1)) else None
  }

  /** The two searches find the value in force. */
  lemma SearchedValue(blocks: seq<Block>, t: int)
    requires ValidBlocks(blocks)
    ensures var i := BlockIndex(blocks, t);
            if i < 0 then At(0, Flat(blocks), t) == 0
            else
              var p := PointIndex(blocks[i].points, t);
              0 < p && At(0, Flat(blocks), t) == blocks[i].points[p - 1].slack + blocks[i].delta
                    && FitsI64(At(0, Flat(blocks), t))
  {
    hide Flat;
    hide At;
    LocateFlat(blocks, t);
    AtPointIndex(0, Flat(blocks), t);
    var i := BlockIndex(blocks, t);
    if i >= 0 {
      var p := PointIndex(blocks[i].points, t);
      assert blocks[i].points[0].timestamp <= t;
      FlatAt(blocks, i, p - 1);
      assert FitsI64(blocks[i].Effective()[p - 1].slack);
    }
  }

  lemma ExactPointStored(blocks: seq<Block>, t: int)
    requires ValidBlocks(blocks) && ExactPoint(blocks, t).Some?
    ensures var (i, k) := ExactPoint(blocks, t).value;
            i < |blocks| && k < |blocks[i].points| && blocks[i].points[k].timestamp == t
    ensures HasPointAt(Flat(blocks), t)
  {
    var (i, k) := ExactPoint(blocks, t).value;
    FlatAt(blocks, i, k);
  }

  lemma ExactPointComplete(blocks: seq<Block>, t: int)
    requires ValidBlocks(blocks) && HasPointAt(Flat(blocks), t)
    ensures ExactPoint(blocks, t).Some?
  {
    hide Flat;
    hide PartitionPoint;
    StoredPlace(Flat(blocks), t);
    LocateFlat(blocks, t);
    var i := BlockIndex(blocks, t);
    assert i >= 0;
    var p := PointIndex(blocks[i].points, t);
    SearchNonempty(blocks[i].points, t);
    FlatAt(blocks, i, p - 1);
  }

  /** The search for a stored timestamp stops just past it. */
  lemma StoredPlace(points: seq<SlackPoint>, t: int)
    requires Sorted(points) && HasPointAt(points, t)
    ensures 0 < PointIndex(points, t) && points[PointIndex(points, t) - 1].timestamp == t
  {
    var k :| 0 <= k < |points| && points[k].timestamp == t;
    PartitionUnique(Timestamps(points), t, k + 1);
  }

  lemma SearchNonempty(points: seq<SlackPoint>, t: int)
    requires points != [] && points[0].timestamp <= t
    ensures 0 < PointIndex(points, t)
  {
  }

  // ---- Inserting a boundary ----

  /** Block that receives a missing timestamp. */
  function ReceivingBlock(blocks: seq<Block>, t: int): (i: nat)
    requires Occupied(blocks) && blocks != []
    ensures i < |blocks|
  {
    if BlockIndex(blocks, t) < 0 then 0 else BlockIndex(blocks, t)
  }

  /** Inserting into the receiving block inserts the redundant point into the whole timeline. */
  lemma InsertedFlat(blocks: seq<Block>, t: int, block: Block)
    requires ValidBlocks(blocks) && blocks != [] && !HasPointAt(Flat(blocks), t)
    requires var i := ReceivingBlock(blocks, t);
             block.Effective() == Inserted(blocks[i].Effective(), t, At(0, Flat(blocks), t))
    ensures Flat(blocks[ReceivingBlock(blocks, t) := block]) == WithBoundary(Flat(blocks), t)
  {
    hide Flat;
    hide At;
    var i := ReceivingBlock(blocks, t);
    var points := blocks[i].Effective();
    LocateFlat(blocks, t);
    FlatSplit(blocks, i);
    FlatUpdate(blocks, i, block);
    PartitionSame(blocks[i].points, blocks[i].delta, t);
    if BlockIndex(blocks, t) < 0 {
      EmptyPrefix(blocks);
    }
    InsertedConcat(Flat(blocks[..i]), points, Flat(blocks[i + 1..]), PointIndex(points, t),
                   SlackPoint(t, At(0, Flat(blocks), t)));
  }

  lemma EmptyPrefix(blocks: seq<Block>)
    ensures Flat(blocks[..0]) == []
  {
  }

  lemma InsertedConcat(a: seq<SlackPoint>, b: seq<SlackPoint>, c: seq<SlackPoint>, p: nat, added: SlackPoint)
    requires p <= |b|
    ensures var all := a + b + c;
            a + (b[..p] + [added] + b[p..]) + c == all[..|a| + p] + [added] + all[|a| + p..]
  {
  }

  lemma PointOfBlock(blocks: seq<Block>, i: nat, t: int)
    requires i < |blocks| && HasPointAt(blocks[i].Effective(), t)
    ensures HasPointAt(Flat(blocks), t)
  {
    var k :| 0 <= k < |blocks[i].Effective()| && blocks[i].Effective()[k].timestamp == t;
    FlatAt(blocks, i, k);
  }

  /** All blocks are valid and bounded, except that block `i` may hold one point too many. */
  ghost predicate ValidButOversized(blocks: seq<Block>, i: int) {
    && Sorted(Flat(blocks)) && Occupied(blocks)
    && forall j :: 0 <= j < |blocks| ==>
                     && blocks[j].Valid()
                     && |blocks[j].points| <= MAX_POINTS_PER_BLOCK + if j == i then 1 else 0
  }

  lemma UpdatedValid(blocks: seq<Block>, i: nat, block: Block)
    requires ValidBlocks(blocks) && i < |blocks| && Sorted(Flat(blocks[i := block]))
    requires block.Valid() && 0 < |block.points| <= MAX_POINTS_PER_BLOCK + 1
    ensures ValidButOversized(blocks[i := block], i)
  {
  }

  /** Splitting one block in two keeps the points and restores the bound. */
  lemma SplitFlat(blocks: seq<Block>, i: nat, left: Block, right: Block)
    requires i < |blocks| && left.Effective() + right.Effective() == blocks[i].Effective()
    requires ValidButOversized(blocks, i) && left.Valid() && right.Valid()
    requires 0 < |left.points| <= MAX_POINTS_PER_BLOCK && 0 < |right.points| <= MAX_POINTS_PER_BLOCK
    ensures var split := blocks[..i] + [left, right] + blocks[i + 1..];
            Flat(split) == Flat(blocks) && ValidBlocks(split)
  {
    hide Flat;
    FlatSplit(blocks, i);
    FlatReplace(blocks, i, i + 1, [left, right]);
    assert [left, right] == [left] + [right];
    FlatConcat([left], [right]);
    FlatSingle(left);
    FlatSingle(right);
  }

  // ---- Range updates ----

  /** Adding `delta` keeps every value on the span representable. */
  ghost predicate Admits(points: seq<SlackPoint>, span: Interval, delta: int) {
    forall t :: span.Contains(t) ==> FitsI64(At(0, points, t) + delta)
  }

  /** The two preflight bounds decide admissibility of the whole span. */
  lemma BoundsDecide(points: seq<SlackPoint>, span: Interval, low: int, high: int, delta: int)
    requires IsBound(Minimum, points, span, low) && IsBound(Maximum, points, span, high)
    ensures Admits(points, span, delta) <==> FitsI64(low + delta) && FitsI64(high + delta)
  {
    hide At;
    var t :| span.Contains(t) && At(0, points, t) == low;
    var u :| span.Contains(u) && At(0, points, u) == high;
    if FitsI64(low + delta) && FitsI64(high + delta) {
      forall v | span.Contains(v)
        ensures FitsI64(At(0, points, v) + delta)
      {
        assert Better(Minimum, low, At(0, points, v)) && Better(Maximum, high, At(0, points, v));
      }
    }
  }

  lemma ValueFits(blocks: seq<Block>, t: int)
    requires ValidBlocks(blocks)
    ensures FitsI64(At(0, Flat(blocks), t))
  {
    SearchedValue(blocks, t);
  }

  /** Block and point indices of a span's start and end. */
  datatype Ends = Ends(startBlock: nat, startPoint: nat, endBlock: nat, endPoint: nat)

  /** The stored places of a span's two ends. */
  ghost predicate SpanEnds(blocks: seq<Block>, span: Interval, ends: Ends) {
    && ends.startBlock < |blocks| && ends.endBlock < |blocks|
    && var start, end := blocks[ends.startBlock].points, blocks[ends.endBlock].points;
       && ends.startPoint < |start| && start[ends.startPoint].timestamp == span.start
       && ends.endPoint < |end| && end[ends.endPoint].timestamp == span.end
  }

  /** First point index of block `i` inside the span. */
  function RangeLow(blocks: seq<Block>, i: nat, ends: Ends): nat
    requires i < |blocks|
  {
    if i < ends.startBlock then |blocks[i].points| else if i == ends.startBlock then ends.startPoint else 0
  }

  /** First point index of block `i` past the span. */
  function RangeHigh(blocks: seq<Block>, i: nat, ends: Ends): nat
    requires i < |blocks|
  {
    if i < ends.endBlock then |blocks[i].points| else if i == ends.endBlock then ends.endPoint else 0
  }

  lemma PointInRange(blocks: seq<Block>, span: Interval, ends: Ends, i: nat, k: nat)
    requires ValidBlocks(blocks) && SpanEnds(blocks, span, ends)
    requires i < |blocks| && k < |blocks[i].points|
    ensures span.Contains(blocks[i].points[k].timestamp)
            <==> RangeLow(blocks, i, ends) <= k < RangeHigh(blocks, i, ends)
  {
    hide Flat;
    var Ends(sb, sp, eb, ep) := ends;
    if i < sb {
      BlocksApart(blocks, i, k, sb, sp);
    } else if sb < i {
      BlocksApart(blocks, sb, sp, i, k);
    }
    if i < eb {
      BlocksApart(blocks, i, k, eb, ep);
    } else if eb < i {
      BlocksApart(blocks, eb, ep, i, k);
    }
  }

  /** Within a block the span is an index range. */
  lemma RangeBump(blocks: seq<Block>, span: Interval, ends: Ends, i: nat, delta: int)
    requires ValidBlocks(blocks) && SpanEnds(blocks, span, ends) && i < |blocks|
    ensures Bump(blocks[i].Effective(), span.start, span.end, delta)
            == BumpIndices(blocks[i].Effective(), RangeLow(blocks, i, ends), RangeHigh(blocks, i, ends), delta)
  {
    hide Flat;
    forall k | 0 <= k < |blocks[i].points|
      ensures span.Contains(blocks[i].points[k].timestamp)
              <==> RangeLow(blocks, i, ends) <= k < RangeHigh(blocks, i, ends)
    {
      PointInRange(blocks, span, ends, i, k);
    }
  }

  lemma BumpFits(blocks: seq<Block>, span: Interval, i: nat, delta: int)
    requires ValidBlocks(blocks) && i < |blocks| && Admits(Flat(blocks), span, delta)
    ensures AllFit(Bump(blocks[i].Effective(), span.start, span.end, delta))
  {
    hide Flat;
    hide At;
    forall k | 0 <= k < |blocks[i].points|
      ensures FitsI64(Bump(blocks[i].Effective(), span.start, span.end, delta)[k].slack)
    {
      PointInForce(blocks, i, k);
      assert FitsI64(blocks[i].Effective()[k].slack);
    }
  }

  lemma SpanEndsOrdered(blocks: seq<Block>, span: Interval, ends: Ends)
    requires ValidBlocks(blocks) && SpanEnds(blocks, span, ends) && span.Valid()
    ensures ends.startBlock < ends.endBlock
            || (ends.startBlock == ends.endBlock && ends.startPoint < ends.endPoint)
  {
    hide Flat;
    if ends.endBlock < ends.startBlock {
      BlocksApart(blocks, ends.endBlock, ends.endPoint, ends.startBlock, ends.startPoint);
    }
  }

  // ---- Normalizing ----

  lemma {:induction false} RetainFlat(blocks: seq<Block>)
    ensures Flat(WithoutEmpty(blocks)) == Flat(blocks)
    ensures Occupied(WithoutEmpty(blocks)) && |WithoutEmpty(blocks)| <= |blocks|
    ensures forall b :: b in WithoutEmpty(blocks) ==> b in blocks
  {
    if blocks != [] {
      var n := |blocks| - 1;
      RetainFlat(blocks[..n]);
      if blocks[n].points != [] {
        FlatConcat(WithoutEmpty(blocks[..n]), [blocks[n]]);
        FlatSingle(blocks[n]);
      }
    }
  }

  function WithoutEmpty(blocks: seq<Block>): seq<Block> {
    if blocks == [] then []
    else
      var kept := WithoutEmpty(blocks[..|blocks| - 1]);
      if blocks[|blocks| - 1].points == [] then kept else kept + [blocks[|blocks| - 1]]
  }

  lemma RetainValid(blocks: seq<Block>)
    requires Ordered(blocks)
    ensures ValidBlocks(WithoutEmpty(blocks)) && Flat(WithoutEmpty(blocks)) == Flat(blocks)
  {
    RetainFlat(blocks);
    var kept := WithoutEmpty(blocks);
    forall i | 0 <= i < |kept|
      ensures kept[i].Valid() && |kept[i].points| <= MAX_POINTS_PER_BLOCK
    {
      assert kept[i] in blocks;
    }
  }

  /** Dropping the first point of a block drops one point of the timeline. */
  lemma TrimmedFlat(blocks: seq<Block>, i: nat, trimmed: Block)
    requires Ordered(blocks) && i < |blocks| && blocks[i].points != []
    requires trimmed.Valid() && |trimmed.points| < |blocks[i].points|
    requires trimmed.Effective() == blocks[i].Effective()[1..]
    ensures Flat(blocks[i := trimmed])
            == Flat(blocks[..i]) + blocks[i].Effective()[1..] + Flat(blocks[i + 1..])
    ensures |Flat(blocks[i := trimmed])| == |Flat(blocks)| - 1
    ensures Ordered(blocks[i := trimmed])
  {
    hide Flat;
    FlatSplit(blocks, i);
    FlatUpdate(blocks, i, trimmed);
    SortedTrim(Flat(blocks[..i]), blocks[i].Effective(), Flat(blocks[i + 1..]));
  }

  lemma SortedTrim(a: seq<SlackPoint>, b: seq<SlackPoint>, c: seq<SlackPoint>)
    requires Sorted(a + b + c) && b != []
    ensures Sorted(a + b[1..] + c)
  {
    var all, trimmed := a + b + c, a + b[1..] + c;
    forall i, j | 0 <= i < j < |trimmed|
      ensures trimmed[i].timestamp < trimmed[j].timestamp
    {
      assert trimmed[i] == all[if i < |a| then i else i + 1];
      assert trimmed[j] == all[if j < |a| then j else j + 1];
    }
  }

  /** A point that repeats the value before it can go. */
  lemma RepeatedPointEquiv(a: seq<SlackPoint>, b: seq<SlackPoint>, c: seq<SlackPoint>)
    requires Sorted(a + b + c) && a != [] && b != [] && a[|a| - 1].slack == b[0].slack
    ensures Equiv(a + b[1..] + c, a + b + c)
  {
    hide At;
    assert b == [b[0]] + b[1..];
    var head := a + [b[0]];
    assert (a + b + c)[|a| - 1].timestamp < (a + b + c)[|a|].timestamp;
    forall fallback, t
      ensures At(fallback, head, t) == At(fallback, a, t)
    {
      RepeatedLast(fallback, a, b[0], t, a + b + c);
    }
    EquivConcat(head, a, b[1..] + c, b[1..] + c);
    assert head + (b[1..] + c) == a + b + c;
    assert a + (b[1..] + c) == a + b[1..] + c;
  }

  lemma RepeatedLast(fallback: int, a: seq<SlackPoint>, p: SlackPoint, t: int, all: seq<SlackPoint>)
    requires a != [] && a[|a| - 1].slack == p.slack
    requires Sorted(all) && |a| < |all| && all[..|a|] == a && all[|a|] == p
    ensures At(fallback, a + [p], t) == At(fallback, a, t)
  {
    assert (a + [p])[..|a|] == a;
    assert all[|a| - 1].timestamp < all[|a|].timestamp;
  }

  /** Replacing two neighbours by their deduplicated union keeps order and meaning. */
  lemma MergedFlat(blocks: seq<Block>, i: nat, merged: Block)
    requires ValidBlocks(blocks) && i + 1 < |blocks|
    requires |blocks[i].points| + |blocks[i + 1].points| <= MAX_POINTS_PER_BLOCK
    requires merged.Valid() && merged.Effective() == Dedup(blocks[i].Effective() + blocks[i + 1].Effective())
    requires |merged.points| == |merged.Effective()|
    ensures var now := blocks[..i] + [merged] + blocks[i + 2..];
            && ValidBlocks(now) && |Flat(now)| <= |Flat(blocks)|
            && Equiv(Flat(now), Flat(blocks))
  {
    hide Flat;
    hide At;
    var a, m, c := Flat(blocks[..i]), blocks[i].Effective() + blocks[i + 1].Effective(), Flat(blocks[i + 2..]);
    PairFlat(blocks, i);
    FlatAround(blocks[..i], merged, blocks[i + 2..]);
    SortedParts(a + m, c);
    SortedParts(a, m);
    DedupShape(m);
    DedupThinned(m);
    DedupEquiv(m);
    ReplaceMiddle(a, m, Dedup(m), c);
  }

  lemma PairFlat(blocks: seq<Block>, i: nat)
    requires i + 1 < |blocks|
    ensures Flat(blocks) == Flat(blocks[..i]) + (blocks[i].Effective() + blocks[i + 1].Effective())
                            + Flat(blocks[i + 2..])
  {
    hide Flat;
    FlatSplit(blocks, i);
    FlatSplit(blocks[i + 1..], 0);
    assert blocks[i + 1..][0 + 1..] == blocks[i + 2..];
    assert blocks[i + 1..][..0] == blocks[..0];
    EmptyPrefix(blocks);
  }

  class SlackTimeline {
    var blocks: seq<Block>

    constructor (blocks: seq<Block>)
      ensures this.blocks == blocks
    {
      this.blocks := blocks;
    }

    ghost predicate Valid()
      reads this
    {
      ValidBlocks(blocks)
    }

    ghost function Points(): seq<SlackPoint>
      reads this
    {
      Flat(blocks)
    }

    /** The effective slack at `t`, found by two nested searches. */
    method SlackAt(t: int) returns (r: Result<int, IndexError>)
      requires Valid()
      ensures r == Ok(At(0, Points(), t))
    {
      hide Flat;
      hide At;
      SearchedValue(blocks, t);
      var blockIndex := BlockIndex(blocks, t) + 1;
      if blockIndex == 0 {
        return Ok(0);
      }
      var block := blocks[blockIndex - 1];
      var pointIndex := PointIndex(block.points, t);
      var slack := CheckedAddI64(block.points[pointIndex - 1].slack, block.delta);
      if slack.None? {
        return Err(SlackOverflow);
      }
      r := Ok(slack.value);
    }

    /** The minimum slack over the interval, using whole-block extremes where possible. */
    method MinimumSlack(interval: Interval) returns (r: Result<int, IndexError>)
      requires Valid() && interval.Valid()
      ensures r.Ok? && IsBound(Minimum, Points(), interval, r.value)
    {
      r := SlackBoundOn(interval, Minimum);
    }

    method MaximumSlack(interval: Interval) returns (r: Result<int, IndexError>)
      requires Valid() && interval.Valid()
      ensures r.Ok? && IsBound(Maximum, Points(), interval, r.value)
    {
      r := SlackBoundOn(interval, Maximum);
    }

    method SlackBoundOn(interval: Interval, kind: SlackBound) returns (r: Result<int, IndexError>)
      requires Valid() && interval.Valid()
      ensures r.Ok? && IsBound(kind, Points(), interval, r.value)
    {
      hide Flat;
      hide At;
      var atStart := SlackAt(interval.start);
      if atStart.Err? {
        return atStart;
      }
      var boundSlack := atStart.value;
      assert Reached(Points(), interval, boundSlack) by {
        assert interval.Contains(interval.start);
      }
      for i := 0 to |blocks|
        invariant Better(kind, boundSlack, atStart.value)
        invariant BoundedUpTo(kind, blocks, i, interval, boundSlack)
        invariant Reached(Points(), interval, boundSlack)
      {
        var tightened := TightenWithBlock(i, interval, kind, boundSlack);
        BoundedBetter(kind, blocks, i, interval, boundSlack, tightened);
        boundSlack := tightened;
      }
      BoundedFlat(kind, blocks, interval, boundSlack);
      BoundFromPoints(kind, Points(), interval, boundSlack);
      r := Ok(boundSlack);
    }

    /** One block's contribution: skipped, summarized by its cached extreme, or scanned. */
    method TightenWithBlock(i: nat, interval: Interval, kind: SlackBound, initial: int) returns (boundSlack: int)
      requires Valid() && i < |blocks| && interval.Valid()
      requires Better(kind, initial, At(0, Points(), interval.start)) && Reached(Points(), interval, initial)
      ensures Better(kind, boundSlack, initial) && Reached(Points(), interval, boundSlack)
      ensures BlockBounded(kind, blocks[i], |blocks[i].points|, interval, boundSlack)
    {
      hide Flat;
      hide At;
      boundSlack := initial;
      var block := blocks[i];
      var firstTimestamp := block.points[0].timestamp;
      var lastTimestamp := block.points[|block.points| - 1].timestamp;
      if lastTimestamp <= interval.start || firstTimestamp >= interval.end {
        OutsideBlockBounded(kind, blocks, i, interval, boundSlack);
      } else if firstTimestamp >= interval.start && lastTimestamp < interval.end {
        CachedExtremesDecideFit(block, 0);
        var blockBound := if kind.Minimum? then block.minimum.value else block.maximum.value;
        WholeBlockBounded(kind, blocks, i, interval, blockBound);
        boundSlack := Tighter(kind, boundSlack, blockBound);
        BlockBoundedBetter(kind, block, |block.points|, interval, blockBound, boundSlack);
      } else {
        boundSlack := PartialBlockBound(i, interval, kind, boundSlack);
      }
    }

    /** The point-by-point scan of a block that the interval only partly covers. */
    method PartialBlockBound(i: nat, interval: Interval, kind: SlackBound, initial: int) returns (boundSlack: int)
      requires Valid() && i < |blocks| && interval.Valid()
      requires Better(kind, initial, At(0, Points(), interval.start)) && Reached(Points(), interval, initial)
      ensures Better(kind, boundSlack, initial) && Reached(Points(), interval, boundSlack)
      ensures BlockBounded(kind, blocks[i], |blocks[i].points|, interval, boundSlack)
    {
      hide Flat;
      hide At;
      boundSlack := initial;
      var block := blocks[i];
      for k := 0 to |block.points|
        invariant Better(kind, boundSlack, initial)
        invariant BlockBounded(kind, block, k, interval, boundSlack)
        invariant Reached(Points(), interval, boundSlack)
      {
        var point := block.points[k];
        PointInForce(blocks, i, k);
        if point.timestamp <= interval.start || point.timestamp >= interval.end {
          continue;
        }
        assert block.Effective()[k].slack == point.slack + block.delta;
        var slack := point.slack + block.delta;
        BlockBoundedBetter(kind, block, k, interval, boundSlack, Tighter(kind, boundSlack, slack));
        boundSlack := Tighter(kind, boundSlack, slack);
      }
    }

    /** Makes `t` a stored point without changing any slack. */
    method EnsureBoundary(t: int) returns (r: Result<(), IndexError>)
      requires Valid()
      modifies this
      ensures r.Ok? && Valid()
      ensures Points() == WithBoundary(old(Points()), t)
    {
      hide Flat;
      hide At;
      WithBoundaryCorrect(Points(), t);
      if ExactPoint(blocks, t).Some? {
        ExactPointStored(blocks, t);
        return Ok(());
      }
      if HasPointAt(Points(), t) {
        ExactPointComplete(blocks, t);
        assert false;
      }
      SearchedValue(blocks, t);
      var slack := SlackAt(t);
      if blocks == [] {
        r := StartWith(t, slack.value);
        return;
      }
      var blockIndex := ReceivingBlock(blocks, t);
      r := InsertInto(blockIndex, t, slack.value);
      r := SplitOversizedBlock(blockIndex);
    }

    /** The first point of an empty timeline. */
    method StartWith(t: int, slack: int) returns (r: Result<(), IndexError>)
      requires blocks == [] && slack == At(0, Points(), t)
      modifies this
      ensures r.Ok? && Valid()
      ensures Points() == WithBoundary(old(Points()), t)
    {
      var block := FromSortedPointsPreservingBoundaries([SlackPoint(t, slack)]);
      BuiltBlockValid([SlackPoint(t, slack)]);
      FlatSingle(block.value);
      blocks := [block.value];
      r := Ok(());
    }

    /** Inserts a redundant point into the block that covers it. */
    method InsertInto(blockIndex: nat, t: int, slack: int) returns (r: Result<(), IndexError>)
      requires Valid() && blocks != [] && !HasPointAt(Points(), t)
      requires blockIndex == ReceivingBlock(blocks, t)
      requires slack == At(0, Points(), t) && FitsI64(slack)
      modifies this
      ensures r.Ok? && ValidButOversized(blocks, blockIndex) && blockIndex < |blocks|
      ensures Points() == WithBoundary(old(Points()), t)
    {
      hide Flat;
      hide At;
      WithBoundaryCorrect(Points(), t);
      if HasPointAt(blocks[blockIndex].Effective(), t) {
        PointOfBlock(blocks, blockIndex, t);
        assert false;
      }
      var block := new SlackBlock(blocks[blockIndex]);
      r := block.InsertPoint(t, slack);
      InsertedFlat(blocks, t, block.Value());
      UpdatedValid(blocks, blockIndex, block.Value());
      blocks := blocks[blockIndex := block.Value()];
    }

    /** Halves a block that has grown past the bound. */
    method SplitOversizedBlock(blockIndex: nat) returns (r: Result<(), IndexError>)
      requires blockIndex < |blocks| && ValidButOversized(blocks, blockIndex)
      modifies this
      ensures r.Ok? && Valid()
      ensures Points() == old(Points())
    {
      hide Flat;
      if |blocks[blockIndex].points| <= MAX_POINTS_PER_BLOCK {
        return Ok(());
      }
      var block := new SlackBlock(blocks[blockIndex]);
      var right := block.SplitOff(|block.points| / 2);
      SplitFlat(blocks, blockIndex, block.Value(), right.value);
      blocks := blocks[..blockIndex] + [block.Value(), right.value] + blocks[blockIndex + 1..];
      r := Ok(());
    }

    /** Adds `delta` on the interval, or reports overflow and changes nothing. */
    method ApplyDelta(interval: Interval, delta: int) returns (r: Result<(), IndexError>)
      requires Valid() && interval.Valid() && FitsI64(delta)
      modifies this
      ensures Valid()
      ensures r.Ok? <==> Admits(old(Points()), interval, delta)
      ensures r.Ok? ==> forall t :: At(0, Points(), t)
                                    == At(0, old(Points()), t) + SpanDelta(interval.start, interval.end, delta, t)
      ensures r.Ok? ==> Canon(Points()) == AddOn(Canon(old(Points())), interval.start, interval.end, delta)
      ensures r.Err? ==> r.error == SlackOverflow && blocks == old(blocks)
    {
      hide Flat;
      hide At;
      if delta == 0 {
        forall t | interval.Contains(t)
          ensures FitsI64(At(0, Points(), t))
        {
          ValueFits(blocks, t);
        }
        AddOnAgrees(Points(), Points(), interval.start, interval.end, delta);
        return Ok(());
      }
      var minimum := MinimumSlack(interval);
      var maximum := MaximumSlack(interval);
      BoundsDecide(Points(), interval, minimum.value, maximum.value, delta);
      if CheckedAddI64(minimum.value, delta).None? {
        return Err(SlackOverflow);
      }
      if CheckedAddI64(maximum.value, delta).None? {
        return Err(SlackOverflow);
      }
      ghost var before := Points();
      r := AddAdmitted(interval, delta);
      AddOnAgrees(before, Points(), interval.start, interval.end, delta);
    }

    /** The update proper: both boundaries, the range move, then normalization. */
    method AddAdmitted(interval: Interval, delta: int) returns (r: Result<(), IndexError>)
      requires Valid() && interval.Valid() && FitsI64(delta) && Admits(Points(), interval, delta)
      modifies this
      ensures r.Ok? && Valid()
      ensures forall t :: At(0, Points(), t)
                          == At(0, old(Points()), t) + SpanDelta(interval.start, interval.end, delta, t)
    {
      hide Flat;
      hide At;
      hide WithBoundary;
      ghost var original := Points();
      BoundariesReady(original, interval, delta);
      r := EnsureBoundary(interval.end);
      r := EnsureBoundary(interval.start);
      r := MoveSpan(interval, delta);
      ghost var moved := Points();
      r := NormalizeAndRebalance();
      AddedMeaning(original, moved, interval, delta);
    }

    /** Moves every point of the span: edge blocks by index range, interior blocks lazily. */
    method MoveSpan(interval: Interval, delta: int) returns (r: Result<(), IndexError>)
      requires Valid() && interval.Valid() && FitsI64(delta)
      requires HasPointAt(Points(), interval.start) && HasPointAt(Points(), interval.end)
      requires Admits(Points(), interval, delta)
      modifies this
      ensures r.Ok? && Valid()
      ensures Equiv(Points(), Bump(old(Points()), interval.start, interval.end, delta))
    {
      hide Flat;
      hide At;
      hide Moved;
      hide ExactPoint;
      hide Bump;
      ghost var was := blocks;
      ExactPointComplete(blocks, interval.start);
      ExactPointStored(blocks, interval.start);
      ExactPointComplete(blocks, interval.end);
      ExactPointStored(blocks, interval.end);
      var (startBlock, startPoint) := ExactPoint(blocks, interval.start).value;
      var (endBlock, endPoint) := ExactPoint(blocks, interval.end).value;
      ghost var ends := Ends(startBlock, startPoint, endBlock, endPoint);
      SpanEndsOrdered(blocks, interval, ends);
      OthersUntouched(blocks, interval, ends, delta);

      if startBlock == endBlock {
        MoveRange(startBlock, startPoint, endPoint, delta, interval, was, ends);
      } else {
        MoveAcross(startBlock, startPoint, endBlock, endPoint, delta, interval);
      }
      MovedFlat(was, blocks, interval, delta);
      MovedValid(was, blocks, interval, delta);
      r := Ok(());
    }

    /** A span over several blocks: start edge, interior, end edge. */
    method MoveAcross(startBlock: nat, startPoint: nat, endBlock: nat, endPoint: nat, delta: int,
                      ghost interval: Interval)
      requires Valid() && FitsI64(delta) && Admits(Points(), interval, delta)
      requires SpanEnds(blocks, interval, Ends(startBlock, startPoint, endBlock, endPoint))
      requires startBlock < endBlock
      modifies this
      ensures |blocks| == |old(blocks)|
      ensures forall j :: 0 <= j < |blocks| ==> Moved(old(blocks)[j], blocks[j], interval, delta)
    {
      hide Flat;
      hide At;
      hide Moved;
      ghost var was := blocks;
      ghost var ends := Ends(startBlock, startPoint, endBlock, endPoint);
      OthersUntouched(blocks, interval, ends, delta);
      var startLength := |blocks[startBlock].points|;
      if startPoint == 0 {
        MoveWhole(startBlock, delta, interval, was, ends);
      } else {
        MoveRange(startBlock, startPoint, startLength, delta, interval, was, ends);
      }
      for i := startBlock + 1 to endBlock
        invariant |blocks| == |was|
        invariant forall j :: startBlock <= j < i ==> Moved(was[j], blocks[j], interval, delta)
        invariant forall j :: 0 <= j < |was| && !(startBlock <= j < i) ==> blocks[j] == was[j]
      {
        MoveWhole(i, delta, interval, was, ends);
      }
      if endPoint > 0 {
        MoveRange(endBlock, 0, endPoint, delta, interval, was, ends);
      }
    }

    /** Adds `delta` to points `lo..hi` of one block. */
    method MoveRange(i: nat, lo: nat, hi: nat, delta: int, ghost interval: Interval, ghost was: seq<Block>,
                     ghost ends: Ends)
      requires ValidBlocks(was) && SpanEnds(was, interval, ends) && FitsI64(delta)
      requires Admits(Flat(was), interval, delta)
      requires |blocks| == |was| && i < |blocks| && blocks[i] == was[i]
      requires lo == RangeLow(was, i, ends) < RangeHigh(was, i, ends) == hi
      modifies this
      ensures |blocks| == |old(blocks)| && blocks == old(blocks)[i := blocks[i]]
      ensures Moved(was[i], blocks[i], interval, delta)
    {
      hide Flat;
      hide At;
      RangeBump(was, interval, ends, i, delta);
      BumpFits(was, interval, i, delta);
      var block := new SlackBlock(blocks[i]);
      var r := block.ApplyDeltaToPointRange(lo, hi, delta);
      DedupEnds(Bump(was[i].Effective(), interval.start, interval.end, delta));
      ShiftShift(block.points, 0, 0);
      blocks := blocks[i := block.Value()];
    }

    /** Adds `delta` lazily to a block that lies inside the span. */
    method MoveWhole(i: nat, delta: int, ghost interval: Interval, ghost was: seq<Block>,
                     ghost ends: Ends)
      requires ValidBlocks(was) && SpanEnds(was, interval, ends) && FitsI64(delta)
      requires Admits(Flat(was), interval, delta)
      requires |blocks| == |was| && i < |blocks| && blocks[i] == was[i]
      requires RangeLow(was, i, ends) == 0 && RangeHigh(was, i, ends) == |was[i].points|
      modifies this
      ensures |blocks| == |old(blocks)| && blocks == old(blocks)[i := blocks[i]]
      ensures Moved(was[i], blocks[i], interval, delta)
    {
      hide Flat;
      hide At;
      RangeBump(was, interval, ends, i, delta);
      BumpFits(was, interval, i, delta);
      assert Bump(was[i].Effective(), interval.start, interval.end, delta) == Shift(was[i].Effective(), delta);
      var block := new SlackBlock(blocks[i]);
      var r := block.ApplyDelta(delta);
      assert |block.points| == |block.Value().Effective()|;
      blocks := blocks[i := block.Value()];
    }

    /** Strips a leading zero, merges small neighbours and drops repeats across blocks. */
    method NormalizeAndRebalance() returns (r: Result<(), IndexError>)
      requires Valid()
      modifies this
      ensures r.Ok? && Valid()
      ensures forall t :: At(0, Points(), t) == At(0, old(Points()), t)
    {
      hide Flat;
      hide At;
      ghost var original := Points();
      RetainValid(blocks);
      blocks := WithoutEmpty(blocks);
      assert Points() == original;
      StripFirstPoint();
      RetainValid(blocks);
      ghost var stripped := Points();
      blocks := WithoutEmpty(blocks);
      assert Points() == stripped;

      var index := 0;
      while index + 1 < |blocks|
        invariant Valid()
        invariant forall t :: At(0, Points(), t) == At(0, original, t)
        decreases |Points()| + |blocks|, |blocks| - index
      {
        var combinedLength := |blocks[index].points| + |blocks[index + 1].points|;
        if combinedLength <= MAX_POINTS_PER_BLOCK {
          MergeWithNext(index);
          continue;
        }
        var left, right := blocks[index], blocks[index + 1];
        var leftSlack := left.points[|left.points| - 1].slack + left.delta;
        var rightSlack := right.points[0].slack + right.delta;
        if leftSlack == rightSlack {
          DropRepeatedFirst(index);
          continue;
        }
        index := index + 1;
      }
      r := Ok(());
    }

    method StripFirstPoint()
      requires Valid()
      modifies this
      ensures Ordered(blocks)
      ensures forall t :: At(0, Points(), t) == At(0, old(Points()), t)
    {
      hide Flat;
      hide At;
      if blocks == [] {
        return;
      }
      ghost var was := blocks;
      var block := new SlackBlock(blocks[0]);
      var r := block.MaterializeDelta();
      if block.points[0].slack == 0 {
        MaterializedValid(blocks[0]);
        r := block.RemoveFirst();
        StrippedFlat(was, block.Value());
      } else {
        MaterializedValid(blocks[0]);
        SameFlat(was, 0, block.Value());
      }
      blocks := blocks[0 := block.Value()];
    }

    method MergeWithNext(index: nat)
      requires Valid() && index + 1 < |blocks|
      requires |blocks[index].points| + |blocks[index + 1].points| <= MAX_POINTS_PER_BLOCK
      modifies this
      ensures Valid() && |blocks| == |old(blocks)| - 1 && |Points()| <= |old(Points())|
      ensures Equiv(Points(), old(Points()))
    {
      hide Flat;
      hide At;
      hide Dedup;
      ghost var was := blocks;
      var right := new SlackBlock(blocks[index + 1]);
      var left := new SlackBlock(blocks[index]);
      var r := left.MaterializeDelta();
      r := right.MaterializeDelta();
      var points := left.points + right.points;
      PairOrdered(was, index);
      NormalizeSorted(points);
      DedupShape(points);
      BuiltBlockValid(Dedup(points));
      var merged := FromSortedPoints(points);
      MergedFlat(was, index, merged.value);
      blocks := blocks[..index] + [merged.value] + blocks[index + 2..];
    }

    method DropRepeatedFirst(index: nat)
      requires Valid() && index + 1 < |blocks|
      requires var left, right := blocks[index].Effective(), blocks[index + 1].Effective();
               left[|left| - 1].slack == right[0].slack
      modifies this
      ensures Valid() && |blocks| <= |old(blocks)| && |Points()| == |old(Points())| - 1
      ensures Equiv(Points(), old(Points()))
    {
      hide Flat;
      hide At;
      ghost var was := blocks;
      var right := new SlackBlock(blocks[index + 1]);
      var r := right.RemoveFirst();
      TrimmedFlat(was, index + 1, right.Value());
      RepeatedTrimEquiv(was, index);
      blocks := blocks[index + 1 := right.Value()];
      if |right.points| == 0 {
        EmptyRemoved(blocks, index + 1);
        blocks := blocks[..index + 1] + blocks[index + 2..];
      }
    }

    /** The points in normal form, with every lazy delta applied. */
    method EffectivePoints() returns (r: Result<seq<SlackPoint>, IndexError>)
      requires Valid()
      ensures r == Ok(Canon(Points()))
      ensures Canonical(Canon(Points()))
    {
      hide At;
      CanonCorrect(Points());
      var points: seq<SlackPoint> := [];
      for i := 0 to |blocks|
        invariant points == Dedup(Flat(blocks[..i]))
      {
        FlatPush(blocks, i);
        points := AppendEffective(points, blocks[i], Flat(blocks[..i]));
      }
      assert blocks[..|blocks|] == blocks;
      if points != [] && points[0].slack == 0 {
        points := points[1..];
      }
      r := Ok(points);
    }

    /** Appends one block's effective points, skipping repeated values. */
    method AppendEffective(kept: seq<SlackPoint>, block: Block, ghost before: seq<SlackPoint>)
      returns (points: seq<SlackPoint>)
      requires kept == Dedup(before) && block.Valid()
      ensures points == Dedup(before + block.Effective())
    {
      hide Dedup;
      ghost var effective := block.Effective();
      points := kept;
      assert before + effective[..0] == before;
      for k := 0 to |block.points|
        invariant points == Dedup(before + effective[..k])
      {
        var slack := block.points[k].slack + block.delta;
        DedupPushTail(before, effective, k);
        if points == [] || points[|points| - 1].slack != slack {
          points := points + [SlackPoint(block.points[k].timestamp, slack)];
        }
      }
      assert effective[..|effective|] == effective;
    }

    /** Intervals of negative slack, in chronological order. */
    method DeficitIntervals() returns (r: Result<seq<SlackDeficit>, IndexError>)
      requires Valid()
      ensures r == Ok(Deficits(Canon(Points())))
    {
      hide Flat;
      hide At;
      hide Canon;
      var effective := EffectivePoints();
      var points := effective.value;
      var deficits: seq<SlackDeficit> := [];
      var i := 0;
      while i + 1 < |points|
        invariant i == 0 || i < |points|
        invariant points != [] ==> deficits == Deficits(points[..i + 1])
        invariant points == [] ==> deficits == []
      {
        var current, next := points[i], points[i + 1];
        assert points[..i + 2][..i + 1] == points[..i + 1];
        if current.slack < 0 {
          deficits := deficits + [SlackDeficit(Interval(current.timestamp, next.timestamp), -current.slack)];
        }
        i := i + 1;
      }
      assert points != [] ==> points[..i + 1] == points;
      r := Ok(deficits);
    }
  }

  lemma BoundariesReady(points: seq<SlackPoint>, span: Interval, delta: int)
    requires Sorted(points) && Admits(points, span, delta)
    ensures var ready := WithBoundary(WithBoundary(points, span.end), span.start);
            && Sorted(ready) && HasPointAt(ready, span.start) && HasPointAt(ready, span.end)
            && Admits(ready, span, delta)
  {
    hide At;
    WithBoundaryCorrect(points, span.end);
    WithBoundaryCorrect(WithBoundary(points, span.end), span.start);
  }

  lemma AddedMeaning(original: seq<SlackPoint>, moved: seq<SlackPoint>, span: Interval, delta: int)
    requires Sorted(original) && span.Valid()
    requires var ready := WithBoundary(WithBoundary(original, span.end), span.start);
             Equiv(moved, Bump(ready, span.start, span.end, delta))
    ensures forall t :: At(0, moved, t) == At(0, original, t) + SpanDelta(span.start, span.end, delta, t)
  {
    hide At;
    var once := WithBoundary(original, span.end);
    var ready := WithBoundary(once, span.start);
    WithBoundaryCorrect(original, span.end);
    WithBoundaryCorrect(once, span.start);
    forall t
      ensures At(0, moved, t) == At(0, original, t) + SpanDelta(span.start, span.end, delta, t)
    {
      BumpCorrect(ready, span.start, span.end, delta, t);
      assert At(0, ready, t) == At(0, once, t) == At(0, original, t);
    }
  }

  /** Lays ordered points out in blocks: normalized, without a leading zero, in bounded chunks. */
  method BlocksFromSortedPoints(points: seq<SlackPoint>) returns (r: Result<seq<Block>, IndexError>)
    requires Sorted(points) && AllFit(points)
    ensures r.Ok? && ValidBlocks(r.value) && Flat(r.value) == Canon(points)
  {
    hide Flat;
    hide At;
    NormalizeSorted(points);
    CanonCorrect(points);
    var normalized := FromSortedPoints(points);
    var kept := normalized.value.points;
    if kept != [] && kept[0].slack == 0 {
      kept := kept[1..];
    }
    var blocks := ChunkBlocks(kept);
    r := Ok(blocks);
  }

  /** One block per chunk of at most the block bound. */
  method ChunkBlocks(points: seq<SlackPoint>) returns (blocks: seq<Block>)
    requires Sorted(points) && Varying(points) && AllFit(points)
    ensures ValidBlocks(blocks) && Flat(blocks) == points
  {
    hide Flat;
    hide Normalize;
    hide Lowest;
    hide Highest;
    blocks := [];
    var offset := 0;
    FlatEmpty();
    while offset < |points|
      invariant offset <= |points|
      invariant Flat(blocks) == points[..offset]
      invariant forall i :: 0 <= i < |blocks| ==>
                              blocks[i].Valid() && 0 < |blocks[i].points| <= MAX_POINTS_PER_BLOCK
    {
      var next := if |points| - offset < MAX_POINTS_PER_BLOCK then |points| else offset + MAX_POINTS_PER_BLOCK;
      ChunkKeepsPoints(points, offset, next);
      var block := FromSortedPoints(points[offset..next]);
      FlatConcat(blocks, [block.value]);
      FlatSingle(block.value);
      assert points[..next] == points[..offset] + points[offset..next];
      blocks := blocks + [block.value];
      offset := next;
    }
    assert points[..|points|] == points;
  }

  lemma FlatEmpty()
    ensures Flat([]) == []
  {
  }

  /** A slice of a normal form is its own normal form as a block. */
  lemma ChunkKeepsPoints(points: seq<SlackPoint>, lo: nat, hi: nat)
    requires lo < hi <= |points| && Sorted(points) && Varying(points) && AllFit(points)
    ensures var chunk := points[lo..hi];
            && Normalize(chunk) == Ok(chunk)
            && Block(chunk, Lowest(chunk), Highest(chunk), 0).Valid()
            && Block(chunk, Lowest(chunk), Highest(chunk), 0).Effective() == chunk
  {
    var chunk := points[lo..hi];
    assert Varying(chunk) by {
      forall i | 0 < i < |chunk|
        ensures chunk[i - 1].slack != chunk[i].slack
      {
        assert points[lo + i - 1].slack != points[lo + i].slack;
      }
    }
    NormalizeSorted(chunk);
    DedupVarying(chunk);
    BuiltBlockValid(chunk);
  }

  lemma {:induction false} DedupVarying(points: seq<SlackPoint>)
    requires Varying(points)
    ensures Dedup(points) == points
  {
    if points != [] {
      var n := |points| - 1;
      DedupVarying(points[..n]);
      assert points == points[..n] + [points[n]];
    }
  }

  /** An interval over which effective slack is negative, with the missing amount. */
  datatype SlackDeficit = SlackDeficit(interval: Interval, amount: int)

  /** Each negative point reports the stretch up to the next point. */
  function Deficits(points: seq<SlackPoint>): seq<SlackDeficit> {
    if |points| < 2 then []
    else
      var n := |points| - 1;
      var earlier := Deficits(points[..n]);
      if points[n - 1].slack < 0
      then earlier + [SlackDeficit(Interval(points[n - 1].timestamp, points[n].timestamp), -points[n - 1].slack)]
      else earlier
  }

  /** A timestamp lies in a reported deficit of this amount. */
  ghost predicate Reported(deficits: seq<SlackDeficit>, t: int, amount: int) {
    exists i :: 0 <= i < |deficits| && deficits[i].interval.Contains(t) && deficits[i].amount == amount
  }

  /** Valid, positive, in order and disjoint. */
  ghost predicate DeficitsOrdered(deficits: seq<SlackDeficit>) {
    && (forall i :: 0 <= i < |deficits| ==> deficits[i].interval.Valid() && 0 < deficits[i].amount)
    && (forall i, j :: 0 <= i < j < |deficits| ==> deficits[i].interval.end <= deficits[j].interval.start)
  }

  lemma {:induction false} DeficitsInOrder(points: seq<SlackPoint>)
    requires Sorted(points)
    ensures DeficitsOrdered(Deficits(points))
    ensures forall i :: 0 <= i < |Deficits(points)| ==>
                          points != [] && Deficits(points)[i].interval.end <= points[|points| - 1].timestamp
  {
    if |points| >= 2 {
      DeficitsInOrder(points[..|points| - 1]);
    }
  }

  /** Every negative timestamp before the last point is reported with its exact amount. */
  lemma {:induction false} DeficitsComplete(points: seq<SlackPoint>, t: int)
    requires Sorted(points) && points != [] && t < points[|points| - 1].timestamp
    requires At(0, points, t) < 0
    ensures Reported(Deficits(points), t, -At(0, points, t))
  {
    var n := |points| - 1;
    if n == 0 {
      AtLater(0, points, t);
    } else if t < points[n - 1].timestamp {
      DeficitsComplete(points[..n], t);
      var i :| 0 <= i < |Deficits(points[..n])| && Deficits(points[..n])[i].interval.Contains(t)
               && Deficits(points[..n])[i].amount == -At(0, points, t);
      assert Deficits(points)[i] == Deficits(points[..n])[i];
    } else {
      AtIndex(0, points, n - 1, t);
      var i := |Deficits(points)| - 1;
      assert Deficits(points)[i]
             == SlackDeficit(Interval(points[n - 1].timestamp, points[n].timestamp), -points[n - 1].slack);
    }
  }

  /** Everything reported is negative, by exactly the reported amount. */
  lemma {:induction false} DeficitsSound(points: seq<SlackPoint>, i: nat, t: int)
    requires Sorted(points) && i < |Deficits(points)| && Deficits(points)[i].interval.Contains(t)
    ensures At(0, points, t) == -Deficits(points)[i].amount < 0
  {
    var n := |points| - 1;
    DeficitsInOrder(points);
    if i < |Deficits(points[..n])| {
      DeficitsInOrder(points[..n]);
      assert Deficits(points)[i] == Deficits(points[..n])[i];
      assert t < points[..n][n - 1].timestamp < points[n].timestamp;
      DeficitsSound(points[..n], i, t);
    } else {
      AtIndex(0, points, n - 1, t);
    }
  }

  /** When slack ends nonnegative, the reported intervals are exactly the negative timestamps. */
  lemma DeficitsExact(points: seq<SlackPoint>)
    requires Sorted(points) && (points != [] ==> points[|points| - 1].slack >= 0)
    ensures DeficitsOrdered(Deficits(points))
    ensures forall t, amount :: Reported(Deficits(points), t, amount) <==> At(0, points, t) == -amount < 0
  {
    hide At;
    DeficitsInOrder(points);
    forall t, amount
      ensures Reported(Deficits(points), t, amount) <==> At(0, points, t) == -amount < 0
    {
      if Reported(Deficits(points), t, amount) {
        var i :| 0 <= i < |Deficits(points)| && Deficits(points)[i].interval.Contains(t)
                 && Deficits(points)[i].amount == amount;
        DeficitsSound(points, i, t);
      }
      if At(0, points, t) == -amount < 0 {
        NegativeBeforeLast(points, t);
        DeficitsComplete(points, t);
      }
    }
  }

  lemma NegativeBeforeLast(points: seq<SlackPoint>, t: int)
    requires Sorted(points) && (points != [] ==> points[|points| - 1].slack >= 0)
    requires At(0, points, t) < 0
    ensures points != [] && t < points[|points| - 1].timestamp
  {
  }

  lemma DedupPushTail(before: seq<SlackPoint>, points: seq<SlackPoint>, k: nat)
    requires k < |points|
    ensures Dedup(before + points[..k + 1]) == DedupStep(Dedup(before + points[..k]), points[k])
  {
    hide Dedup;
    DedupPush(before + points, |before| + k);
    assert (before + points)[..|before| + k] == before + points[..k];
    assert (before + points)[..|before| + k + 1] == before + points[..k + 1];
  }

  lemma FlatPush(blocks: seq<Block>, i: nat)
    requires i < |blocks|
    ensures Flat(blocks[..i + 1]) == Flat(blocks[..i]) + blocks[i].Effective()
  {
    assert blocks[..i + 1][..i] == blocks[..i];
  }

  /** Blocks without a point in the span already satisfy the update. */
  lemma OthersUntouched(blocks: seq<Block>, span: Interval, ends: Ends, delta: int)
    requires ValidBlocks(blocks) && SpanEnds(blocks, span, ends)
    ensures forall i :: 0 <= i < |blocks| && RangeHigh(blocks, i, ends) <= RangeLow(blocks, i, ends)
                        ==> Moved(blocks[i], blocks[i], span, delta)
  {
    hide Flat;
    forall i | 0 <= i < |blocks| && RangeHigh(blocks, i, ends) <= RangeLow(blocks, i, ends)
      ensures Moved(blocks[i], blocks[i], span, delta)
    {
      RangeBump(blocks, span, ends, i, delta);
      assert Bump(blocks[i].Effective(), span.start, span.end, delta) == blocks[i].Effective();
    }
  }

  lemma MovedValid(was: seq<Block>, now: seq<Block>, span: Interval, delta: int)
    requires ValidBlocks(was) && |was| == |now| && Sorted(Flat(now))
    requires forall i :: 0 <= i < |was| ==> Moved(was[i], now[i], span, delta)
    ensures ValidBlocks(now)
  {
    hide Flat;
    forall i | 0 <= i < |now|
      ensures now[i].Valid() && 0 < |now[i].points| <= MAX_POINTS_PER_BLOCK
    {
      assert Moved(was[i], now[i], span, delta);
    }
  }

  lemma StrippedFlat(blocks: seq<Block>, trimmed: Block)
    requires ValidBlocks(blocks) && blocks != [] && trimmed.Valid()
    requires blocks[0].Effective()[0].slack == 0 && |trimmed.points| < |blocks[0].points|
    requires trimmed.Effective() == blocks[0].Effective()[1..]
    ensures Ordered(blocks[0 := trimmed])
    ensures forall t :: At(0, Flat(blocks[0 := trimmed]), t) == At(0, Flat(blocks), t)
  {
    hide Flat;
    hide At;
    EmptyPrefix(blocks);
    FlatSplit(blocks, 0);
    TrimmedFlat(blocks, 0, trimmed);
    assert Flat(blocks[0 := trimmed]) == StripLeadingZero(Flat(blocks));
    forall t
      ensures At(0, Flat(blocks[0 := trimmed]), t) == At(0, Flat(blocks), t)
    {
      StripEquiv(Flat(blocks), t);
    }
  }

  lemma SameFlat(blocks: seq<Block>, i: nat, block: Block)
    requires Ordered(blocks) && i < |blocks| && block.Valid() && |block.points| == |blocks[i].points|
    requires block.Effective() == blocks[i].Effective()
    ensures Ordered(blocks[i := block]) && Flat(blocks[i := block]) == Flat(blocks)
  {
    hide Flat;
    FlatSplit(blocks, i);
    FlatUpdate(blocks, i, block);
  }

  lemma PairOrdered(blocks: seq<Block>, i: nat)
    requires Ordered(blocks) && i + 1 < |blocks|
    ensures Sorted(blocks[i].Effective() + blocks[i + 1].Effective())
    ensures AllFit(blocks[i].Effective() + blocks[i + 1].Effective())
  {
    hide Flat;
    PairFlat(blocks, i);
    var pair := blocks[i].Effective() + blocks[i + 1].Effective();
    SortedParts(Flat(blocks[..i]) + pair, Flat(blocks[i + 2..]));
    SortedParts(Flat(blocks[..i]), pair);
  }

  lemma RepeatedTrimEquiv(blocks: seq<Block>, i: nat)
    requires ValidBlocks(blocks) && i + 1 < |blocks|
    requires var left, right := blocks[i].Effective(), blocks[i + 1].Effective();
             left[|left| - 1].slack == right[0].slack
    ensures Equiv(Flat(blocks[..i + 1]) + blocks[i + 1].Effective()[1..] + Flat(blocks[i + 2..]), Flat(blocks))
  {
    hide Flat;
    hide At;
    FlatSplit(blocks, i + 1);
    assert blocks[..i + 1] == blocks[..i] + [blocks[i]];
    FlatConcat(blocks[..i], [blocks[i]]);
    FlatSingle(blocks[i]);
    RepeatedPointEquiv(Flat(blocks[..i + 1]), blocks[i + 1].Effective(), Flat(blocks[i + 2..]));
  }

  lemma EmptyRemoved(blocks: seq<Block>, i: nat)
    requires Ordered(blocks) && i < |blocks| && blocks[i].points == []
    requires forall j :: 0 <= j < |blocks| && j != i ==> 0 < |blocks[j].points|
    ensures ValidBlocks(blocks[..i] + blocks[i + 1..])
    ensures Flat(blocks[..i] + blocks[i + 1..]) == Flat(blocks)
  {
    hide Flat;
    FlatSplit(blocks, i);
    FlatConcat(blocks[..i], blocks[i + 1..]);
    var now := blocks[..i] + blocks[i + 1..];
    assert blocks[i].Effective() == [];
    assert Flat(blocks[..i]) + [] + Flat(blocks[i + 1..]) == Flat(now);
    assert forall j :: 0 <= j < |now| ==> now[j] == blocks[if j < i then j else j + 1];
  }

  /** A block that ends by the start of the span, or begins at its end, adds no new value. */
  lemma OutsideBlockBounded(kind: SlackBound, blocks: seq<Block>, i: nat, span: Interval, bound: int)
    requires ValidBlocks(blocks) && i < |blocks| && span.Valid()
    requires var points := blocks[i].points;
             points[|points| - 1].timestamp <= span.start || span.end <= points[0].timestamp
    requires Better(kind, bound, At(0, Flat(blocks), span.start))
    ensures BlockBounded(kind, blocks[i], |blocks[i].points|, span, bound)
  {
    forall k | 0 <= k < |blocks[i].points| && span.Contains(blocks[i].points[k].timestamp)
      ensures Better(kind, bound, blocks[i].Effective()[k].slack)
    {
      var last := |blocks[i].points| - 1;
      assert blocks[i].points[k].timestamp <= blocks[i].points[last].timestamp;
      assert blocks[i].points[0].timestamp <= blocks[i].points[k].timestamp;
      PointInForce(blocks, i, k);
    }
  }

  /** A block inside the span is summarized by its cached extreme, which the span reaches. */
  lemma WholeBlockBounded(kind: SlackBound, blocks: seq<Block>, i: nat, span: Interval, blockBound: int)
    requires ValidBlocks(blocks) && i < |blocks|
    requires var points := blocks[i].points;
             span.start <= points[0].timestamp && points[|points| - 1].timestamp < span.end
    requires Some(blockBound) == if kind.Minimum? then blocks[i].minimum else blocks[i].maximum
    ensures BlockBounded(kind, blocks[i], |blocks[i].points|, span, blockBound)
    ensures Reached(Flat(blocks), span, blockBound)
  {
    var effective := blocks[i].Effective();
    LowestCorrect(effective);
    HighestCorrect(effective);
    var k :| 0 <= k < |effective| && effective[k].slack == blockBound;
    var points := blocks[i].points;
    assert points[0].timestamp <= points[k].timestamp <= points[|points| - 1].timestamp;
    PointInForce(blocks, i, k);
    assert span.Contains(points[k].timestamp);
  }
}
