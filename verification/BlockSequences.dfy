/** Consecutive slack blocks read as one point sequence: locating, bounding and moving. */
module BlockSequences {
  import opened Results
  import opened StepFunctions
  import opened SlackBlocks
  import opened Intervals

  datatype SlackBound = Minimum | Maximum

  /** All effective points of consecutive blocks. */
  function Flat(blocks: seq<Block>): seq<SlackPoint> {
    if blocks == [] then []
    else Flat(blocks[..|blocks| - 1]) + blocks[|blocks| - 1].Effective()
  }

  ghost predicate Occupied(blocks: seq<Block>) {
    forall i :: 0 <= i < |blocks| ==> 0 < |blocks[i].points|
  }

  /** Blocks are individually valid, bounded, and globally ordered; they may be empty. */
  ghost predicate Ordered(blocks: seq<Block>) {
    && Sorted(Flat(blocks))
    && forall i :: 0 <= i < |blocks| ==> blocks[i].Valid() && |blocks[i].points| <= MAX_POINTS_PER_BLOCK
  }

  function Firsts(blocks: seq<Block>): (keys: seq<int>)
    requires Occupied(blocks)
    ensures |keys| == |blocks|
    ensures forall i :: 0 <= i < |blocks| ==> keys[i] == blocks[i].points[0].timestamp
  {
    seq(|blocks|, i requires 0 <= i < |blocks| && 0 < |blocks[i].points| => blocks[i].points[0].timestamp)
  }

  // ---- Flattening ----

  lemma FlatLast(blocks: seq<Block>)
    requires blocks != []
    ensures Flat(blocks) == Flat(blocks[..|blocks| - 1]) + blocks[|blocks| - 1].Effective()
  {
  }

  lemma {:induction false} FlatConcat(a: seq<Block>, b: seq<Block>)
    ensures Flat(a + b) == Flat(a) + Flat(b)
  {
    if b == [] {
      assert a + b == a;
    } else {
      hide *;
      var n := |b| - 1;
      FlatConcat(a, b[..n]);
      assert (a + b)[..|a + b| - 1] == a + b[..n];
      FlatLast(a + b);
      FlatLast(b);
    }
  }

  lemma FlatSingle(block: Block)
    ensures Flat([block]) == block.Effective()
  {
    assert [block][..0] == [];
  }

  lemma FlatAround(before: seq<Block>, block: Block, after: seq<Block>)
    ensures Flat(before + [block] + after) == Flat(before) + block.Effective() + Flat(after)
  {
    FlatConcat(before + [block], after);
    FlatConcat(before, [block]);
    FlatSingle(block);
  }

  lemma FlatSplit(blocks: seq<Block>, i: nat)
    requires i < |blocks|
    ensures Flat(blocks) == Flat(blocks[..i]) + blocks[i].Effective() + Flat(blocks[i + 1..])
  {
    SplitAt(blocks, i);
    FlatAround(blocks[..i], blocks[i], blocks[i + 1..]);
  }

  lemma FlatUpdate(blocks: seq<Block>, i: nat, block: Block)
    requires i < |blocks|
    ensures Flat(blocks[i := block]) == Flat(blocks[..i]) + block.Effective() + Flat(blocks[i + 1..])
  {
    UpdateSplit(blocks, i, block);
    FlatAround(blocks[..i], block, blocks[i + 1..]);
  }

  lemma UpdateSplit<T>(items: seq<T>, i: nat, item: T)
    requires i < |items|
    ensures items[i := item] == items[..i] + [item] + items[i + 1..]
  {
  }

  lemma SplitAt<T>(items: seq<T>, i: nat)
    requires i < |items|
    ensures items == items[..i] + [items[i]] + items[i + 1..]
  {
  }

  /** Replacing the blocks from `i` up to `j` replaces the middle of the flattened points. */
  lemma FlatReplace(blocks: seq<Block>, i: nat, j: nat, middle: seq<Block>)
    requires i <= j <= |blocks|
    ensures Flat(blocks) == Flat(blocks[..i]) + Flat(blocks[i..j]) + Flat(blocks[j..])
    ensures Flat(blocks[..i] + middle + blocks[j..]) == Flat(blocks[..i]) + Flat(middle) + Flat(blocks[j..])
  {
    assert blocks == blocks[..i] + blocks[i..j] + blocks[j..];
    FlatConcat(blocks[..i] + blocks[i..j], blocks[j..]);
    FlatConcat(blocks[..i], blocks[i..j]);
    FlatConcat(blocks[..i] + middle, blocks[j..]);
    FlatConcat(blocks[..i], middle);
  }

  lemma FlatPrefixLength(blocks: seq<Block>, i: nat, j: nat)
    requires i < j <= |blocks|
    ensures |Flat(blocks[..i])| + |blocks[i].points| <= |Flat(blocks[..j])|
  {
    assert blocks[..j][..i] == blocks[..i];
    FlatSplit(blocks[..j], i);
  }

  /** Point `k` of block `i` sits at a known place of the flattened sequence. */
  lemma FlatAt(blocks: seq<Block>, i: nat, k: nat)
    requires i < |blocks| && k < |blocks[i].points|
    ensures |Flat(blocks[..i])| + k < |Flat(blocks)|
    ensures Flat(blocks)[|Flat(blocks[..i])| + k] == blocks[i].Effective()[k]
  {
    FlatSplit(blocks, i);
  }

  lemma BlocksApart(blocks: seq<Block>, i: nat, k: nat, j: nat, l: nat)
    requires Sorted(Flat(blocks))
    requires i < j < |blocks| && k < |blocks[i].points| && l < |blocks[j].points|
    ensures blocks[i].points[k].timestamp < blocks[j].points[l].timestamp
  {
    FlatAt(blocks, i, k);
    FlatAt(blocks, j, l);
    FlatPrefixLength(blocks, i, j);
  }

  lemma {:induction false} FlatAtMost(blocks: seq<Block>, t: int)
    requires forall i, k :: 0 <= i < |blocks| && 0 <= k < |blocks[i].points| ==> blocks[i].points[k].timestamp <= t
    ensures forall k :: 0 <= k < |Flat(blocks)| ==> Flat(blocks)[k].timestamp <= t
  {
    if blocks != [] {
      FlatAtMost(blocks[..|blocks| - 1], t);
    }
  }

  lemma {:induction false} FlatAbove(blocks: seq<Block>, t: int)
    requires forall i, k :: 0 <= i < |blocks| && 0 <= k < |blocks[i].points| ==> t < blocks[i].points[k].timestamp
    ensures forall k :: 0 <= k < |Flat(blocks)| ==> t < Flat(blocks)[k].timestamp
  {
    if blocks != [] {
      FlatAbove(blocks[..|blocks| - 1], t);
    }
  }

  lemma {:induction false} FlatFits(blocks: seq<Block>)
    requires forall i :: 0 <= i < |blocks| ==> AllFit(blocks[i].Effective())
    ensures AllFit(Flat(blocks))
  {
    if blocks != [] {
      FlatFits(blocks[..|blocks| - 1]);
    }
  }

  // ---- Locating a timestamp ----

  /** Block searched for `t`, as an index into the vector; `-1` when `t` precedes every block. */
  function BlockIndex(blocks: seq<Block>, t: int): (i: int)
    requires Occupied(blocks)
    ensures -1 <= i < |blocks|
  {
    PartitionPoint(Firsts(blocks), t) - 1
  }

  lemma {:induction false} PartitionUnique(keys: seq<int>, t: int, k: nat)
    requires k <= |keys|
    requires forall i :: 0 <= i < k ==> keys[i] <= t
    requires k < |keys| ==> t < keys[k]
    ensures PartitionPoint(keys, t) == k
  {
    if k > 0 {
      PartitionUnique(keys[1..], t, k - 1);
    }
  }

  lemma EarlierBlocksBelow(blocks: seq<Block>, i: nat, t: int)
    requires Sorted(Flat(blocks)) && i < |blocks| && 0 < |blocks[i].points|
    requires blocks[i].points[0].timestamp <= t
    ensures forall k :: 0 <= k < |Flat(blocks[..i])| ==> Flat(blocks[..i])[k].timestamp <= t
  {
    var before := blocks[..i];
    forall j, k | 0 <= j < |before| && 0 <= k < |before[j].points|
      ensures before[j].points[k].timestamp <= t
    {
      BlocksApart(blocks, j, k, i, 0);
    }
    FlatAtMost(before, t);
  }

  lemma LaterBlocksAbove(blocks: seq<Block>, i: nat, t: int)
    requires Sorted(Flat(blocks)) && i <= |blocks| && Occupied(blocks)
    requires forall j :: 0 <= j < |blocks| ==> Sorted(blocks[j].points)
    requires i < |blocks| ==> t < blocks[i].points[0].timestamp
    ensures forall k :: 0 <= k < |Flat(blocks[i..])| ==> t < Flat(blocks[i..])[k].timestamp
  {
    var after := blocks[i..];
    forall j, k | 0 <= j < |after| && 0 <= k < |after[j].points|
      ensures t < after[j].points[k].timestamp
    {
      assert after[j] == blocks[i + j];
      if j > 0 {
        BlocksApart(blocks, i, 0, i + j, k);
      }
    }
    FlatAbove(after, t);
  }

  /** Searching blocks first and points second finds the same place as searching all points. */
  lemma LocateFlat(blocks: seq<Block>, t: int)
    requires Ordered(blocks) && Occupied(blocks)
    ensures var i := BlockIndex(blocks, t);
            PointIndex(Flat(blocks), t)
            == if i < 0 then 0 else |Flat(blocks[..i])| + PointIndex(blocks[i].points, t)
  {
    hide PartitionPoint;
    hide Flat;
    var i := BlockIndex(blocks, t);
    LaterBlocksAbove(blocks, i + 1, t);
    if i < 0 {
      assert blocks[0..] == blocks;
      SearchSplit([], [], Flat(blocks), 0, t);
      assert [] + [] + Flat(blocks) == Flat(blocks);
    } else {
      EarlierBlocksBelow(blocks, i, t);
      FlatSplit(blocks, i);
      var p := PointIndex(blocks[i].points, t);
      SearchSplit(Flat(blocks[..i]), blocks[i].Effective(), Flat(blocks[i + 1..]), p, t);
    }
  }

  lemma SearchSplit(a: seq<SlackPoint>, b: seq<SlackPoint>, c: seq<SlackPoint>, p: nat, t: int)
    requires Sorted(a + b + c) && p <= |b|
    requires forall k :: 0 <= k < |a| ==> a[k].timestamp <= t
    requires forall k :: 0 <= k < p ==> b[k].timestamp <= t
    requires p < |b| ==> t < b[p].timestamp
    requires forall k :: 0 <= k < |c| ==> t < c[k].timestamp
    ensures PointIndex(a + b + c, t) == |a| + p
  {
    PartitionUnique(Timestamps(a + b + c), t, |a| + p);
  }

  lemma AtPointIndex(fallback: int, points: seq<SlackPoint>, t: int)
    requires Sorted(points)
    ensures var p := PointIndex(points, t);
            At(fallback, points, t) == if p == 0 then fallback else points[p - 1].slack
  {
    var p := PointIndex(points, t);
    if p == 0 {
      AtLater(fallback, points, t);
    } else {
      AtIndex(fallback, points, p - 1, t);
    }
  }

  /** Every stored point is in force at its own timestamp. */
  lemma PointInForce(blocks: seq<Block>, i: nat, k: nat)
    requires Sorted(Flat(blocks)) && i < |blocks| && k < |blocks[i].points|
    ensures At(0, Flat(blocks), blocks[i].points[k].timestamp) == blocks[i].Effective()[k].slack
  {
    FlatAt(blocks, i, k);
    AtIndex(0, Flat(blocks), |Flat(blocks[..i])| + k, blocks[i].points[k].timestamp);
  }

  // ---- Bounds over an interval ----

  predicate Better(kind: SlackBound, a: int, b: int) {
    if kind.Minimum? then a <= b else b <= a
  }

  function Tighter(kind: SlackBound, a: int, b: int): int {
    if kind.Minimum? then Min(a, b) else Max(a, b)
  }

  /** The span reaches `value` somewhere. */
  ghost predicate Reached(points: seq<SlackPoint>, span: Interval, value: int) {
    exists t :: span.Contains(t) && At(0, points, t) == value
  }

  /** `bound` is reached on the span and nothing on the span is beyond it. */
  ghost predicate IsBound(kind: SlackBound, points: seq<SlackPoint>, span: Interval, bound: int) {
    && (forall t :: span.Contains(t) ==> Better(kind, bound, At(0, points, t)))
    && Reached(points, span, bound)
  }

  /** It is enough to bound the value at the start and every point inside the span. */
  lemma BoundFromPoints(kind: SlackBound, points: seq<SlackPoint>, span: Interval, bound: int)
    requires Sorted(points) && span.Valid()
    requires Better(kind, bound, At(0, points, span.start))
    requires forall k :: 0 <= k < |points| && span.Contains(points[k].timestamp) ==>
                           Better(kind, bound, points[k].slack)
    requires Reached(points, span, bound)
    ensures IsBound(kind, points, span, bound)
  {
    forall t | span.Contains(t)
      ensures Better(kind, bound, At(0, points, t))
    {
      var k := FindInForce(points, t);
      var j := FindInForce(points, span.start);
      assert j <= k;
      assert At(0, points, t) == if k < 0 then 0 else points[k].slack;
      assert At(0, points, span.start) == if j < 0 then 0 else points[j].slack;
    }
  }

  /** The first `n` points of a block that lie in the span are bounded. */
  ghost predicate BlockBounded(kind: SlackBound, block: Block, n: nat, span: Interval, bound: int) {
    forall k :: 0 <= k < n && k < |block.points| && span.Contains(block.points[k].timestamp)
                ==> Better(kind, bound, block.Effective()[k].slack)
  }

  /** The points of blocks before `i` that lie in the span are bounded. */
  ghost predicate BoundedUpTo(kind: SlackBound, blocks: seq<Block>, i: int, span: Interval, bound: int)
    requires 0 <= i <= |blocks|
  {
    forall j :: 0 <= j < i ==> BlockBounded(kind, blocks[j], |blocks[j].points|, span, bound)
  }

  lemma BlockBoundedBetter(kind: SlackBound, block: Block, n: nat, span: Interval, bound: int, better: int)
    requires BlockBounded(kind, block, n, span, bound) && Better(kind, better, bound)
    ensures BlockBounded(kind, block, n, span, better)
  {
  }

  lemma BoundedBetter(kind: SlackBound, blocks: seq<Block>, i: nat, span: Interval, bound: int, better: int)
    requires i <= |blocks| && BoundedUpTo(kind, blocks, i, span, bound) && Better(kind, better, bound)
    ensures BoundedUpTo(kind, blocks, i, span, better)
  {
    forall j | 0 <= j < i
      ensures BlockBounded(kind, blocks[j], |blocks[j].points|, span, better)
    {
      BlockBoundedBetter(kind, blocks[j], |blocks[j].points|, span, bound, better);
    }
  }

  lemma {:induction false} BoundedFlat(kind: SlackBound, blocks: seq<Block>, span: Interval, bound: int)
    requires BoundedUpTo(kind, blocks, |blocks|, span, bound)
    ensures forall k :: 0 <= k < |Flat(blocks)| && span.Contains(Flat(blocks)[k].timestamp)
                        ==> Better(kind, bound, Flat(blocks)[k].slack)
  {
    if blocks != [] {
      var n := |blocks| - 1;
      BoundedFlat(kind, blocks[..n], span, bound);
      assert BlockBounded(kind, blocks[n], |blocks[n].points|, span, bound);
    }
  }

  // ---- Replacing a stretch of points ----

  /** Every timestamp of `a` is a timestamp of `b`. */
  ghost predicate Thinned(a: seq<SlackPoint>, b: seq<SlackPoint>) {
    forall i :: 0 <= i < |a| ==> HasPointAt(b, a[i].timestamp)
  }

  lemma DedupThinned(points: seq<SlackPoint>)
    ensures Thinned(Dedup(points), points)
  {
    DedupSubset(points);
    forall i | 0 <= i < |Dedup(points)|
      ensures HasPointAt(points, Dedup(points)[i].timestamp)
    {
      assert Dedup(points)[i] in points;
    }
  }

  lemma SortedParts(a: seq<SlackPoint>, b: seq<SlackPoint>)
    ensures Sorted(a + b) <==>
            (&& Sorted(a) && Sorted(b)
             && forall i, j :: 0 <= i < |a| && 0 <= j < |b| ==> a[i].timestamp < b[j].timestamp)
  {
    var all := a + b;
    if Sorted(all) {
      forall i, j | 0 <= i < j < |b|
        ensures b[i].timestamp < b[j].timestamp
      {
        assert all[|a| + i].timestamp < all[|a| + j].timestamp;
      }
      forall i, j | 0 <= i < j < |a|
        ensures a[i].timestamp < a[j].timestamp
      {
        assert all[i].timestamp < all[j].timestamp;
      }
      forall i, j | 0 <= i < |a| && 0 <= j < |b|
        ensures a[i].timestamp < b[j].timestamp
      {
        assert all[i].timestamp < all[|a| + j].timestamp;
      }
    }
  }

  lemma ThinnedConcat(a': seq<SlackPoint>, a: seq<SlackPoint>, b': seq<SlackPoint>, b: seq<SlackPoint>)
    requires Thinned(a', a) && Thinned(b', b)
    ensures Thinned(a' + b', a + b)
  {
    forall i | 0 <= i < |a' + b'|
      ensures HasPointAt(a + b, (a' + b')[i].timestamp)
    {
      if i < |a'| {
        var k :| 0 <= k < |a| && a[k].timestamp == a'[i].timestamp;
        assert (a + b)[k] == a[k];
      } else {
        var k :| 0 <= k < |b| && b[k].timestamp == b'[i - |a'|].timestamp;
        assert (a + b)[|a| + k] == b[k];
      }
    }
  }

  lemma ThinnedSorted(a': seq<SlackPoint>, a: seq<SlackPoint>, b': seq<SlackPoint>, b: seq<SlackPoint>)
    requires Thinned(a', a) && Thinned(b', b)
    requires Sorted(a + b) && Sorted(a') && Sorted(b')
    ensures Sorted(a' + b')
  {
    SortedParts(a, b);
    forall i, j | 0 <= i < |a'| && 0 <= j < |b'|
      ensures a'[i].timestamp < b'[j].timestamp
    {
      assert HasPointAt(a, a'[i].timestamp) && HasPointAt(b, b'[j].timestamp);
    }
    SortedParts(a', b');
  }

  /** Thinning the middle of ordered points to an equivalent stretch keeps order and meaning. */
  lemma ReplaceMiddle(a: seq<SlackPoint>, m: seq<SlackPoint>, m': seq<SlackPoint>, c: seq<SlackPoint>)
    requires Sorted(a + m + c) && Sorted(m') && Thinned(m', m) && Equiv(m', m)
    ensures Sorted(a + m' + c) && Equiv(a + m' + c, a + m + c)
  {
    SortedParts(a + m, c);
    SortedParts(a, m);
    ThinnedSelf(a);
    ThinnedSelf(c);
    ThinnedSorted(a, a, m', m);
    ThinnedConcat(a, a, m', m);
    ThinnedSorted(a + m', a + m, c, c);
    EquivConcat(a, a, m', m);
    EquivConcat(a + m', a + m, c, c);
  }

  lemma ThinnedSelf(points: seq<SlackPoint>)
    ensures Thinned(points, points)
  {
  }

  // ---- Moving a range ----

  /** One block after the range update: bumped, possibly without the repeats that created. */
  ghost predicate Moved(block: Block, moved: Block, span: Interval, delta: int) {
    var target := Bump(block.Effective(), span.start, span.end, delta);
    && moved.Valid()
    && 0 < |moved.points| <= |block.points|
    && (moved.Effective() == target || moved.Effective() == Dedup(target))
  }

  lemma MovedPoints(block: Block, moved: Block, span: Interval, delta: int)
    requires block.Valid() && Moved(block, moved, span, delta)
    ensures var target := Bump(block.Effective(), span.start, span.end, delta);
            && Sorted(moved.Effective())
            && Thinned(moved.Effective(), block.Effective())
            && Equiv(moved.Effective(), target)
  {
    var target := Bump(block.Effective(), span.start, span.end, delta);
    assert forall k :: 0 <= k < |target| ==> target[k].timestamp == block.Effective()[k].timestamp;
    DedupEquiv(target);
    DedupThinned(target);
    forall i | 0 <= i < |moved.Effective()|
      ensures HasPointAt(block.Effective(), moved.Effective()[i].timestamp)
    {
      ThinnedSelf(target);
      var k :| 0 <= k < |target| && target[k].timestamp == moved.Effective()[i].timestamp;
      assert block.Effective()[k].timestamp == target[k].timestamp;
    }
  }

  lemma MovedConcat(a: seq<SlackPoint>, a': seq<SlackPoint>, b: seq<SlackPoint>, b': seq<SlackPoint>,
                    span: Interval, delta: int)
    requires Sorted(a + b) && Sorted(a') && Sorted(b') && Thinned(a', a) && Thinned(b', b)
    requires Equiv(a', Bump(a, span.start, span.end, delta)) && Equiv(b', Bump(b, span.start, span.end, delta))
    ensures Sorted(a' + b') && Thinned(a' + b', a + b)
    ensures Equiv(a' + b', Bump(a + b, span.start, span.end, delta))
  {
    ThinnedSorted(a', a, b', b);
    ThinnedConcat(a', a, b', b);
    var bumpedA := Bump(a, span.start, span.end, delta);
    var bumpedB := Bump(b, span.start, span.end, delta);
    EquivConcat(a', bumpedA, b', bumpedB);
    assert Bump(a + b, span.start, span.end, delta) == bumpedA + bumpedB;
  }

  lemma {:induction false} MovedFlat(was: seq<Block>, now: seq<Block>, span: Interval, delta: int)
    requires |was| == |now| && Sorted(Flat(was))
    requires forall i :: 0 <= i < |was| ==> was[i].Valid() && Moved(was[i], now[i], span, delta)
    ensures Sorted(Flat(now)) && Thinned(Flat(now), Flat(was))
    ensures Equiv(Flat(now), Bump(Flat(was), span.start, span.end, delta))
  {
    if was != [] {
      var n := |was| - 1;
      SortedParts(Flat(was[..n]), was[n].Effective());
      MovedFlat(was[..n], now[..n], span, delta);
      MovedPoints(was[n], now[n], span, delta);
      MovedConcat(Flat(was[..n]), Flat(now[..n]), was[n].Effective(), now[n].Effective(), span, delta);
    }
  }
}
