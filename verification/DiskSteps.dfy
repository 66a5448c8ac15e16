/** What each file operation leaves on disk, and that opening recovers the log it holds. */
module DiskSteps {
  import opened Results
  import opened Bytes
  import opened WalRecords
  import opened WalStreams
  import opened Domain
  import opened OrderedKeys
  import opened Transitions
  import opened EngineInvariants
  import opened EngineSafety
  import opened EngineLedger
  import opened Batches
  import opened Replay
  import opened ReplayTheorems
  import opened Snapshots
  import opened Recovery
  import opened LogDisk

  // ---- Segment lists ----

  function LastOf(keys: seq<int>): int
    requires keys != []
  {
    keys[|keys| - 1]
  }

  /** The live segments depend on segment names and snapshot names only. */
  lemma SameLive(a: Disk, b: Disk)
    requires a.segments.Keys == b.segments.Keys && a.snapshots == b.snapshots
    ensures LiveSegments(a) == LiveSegments(b) && MinimumSequence(a) == MinimumSequence(b) && Base(a) == Base(b)
  {
    hide SortedKeys;
    hide Latest;
    var minimum := MinimumSequence(a);
    assert (set k | k in a.segments.Keys && k >= minimum) == (set k | k in b.segments.Keys && k >= minimum);
  }

  lemma LiveAre(disk: Disk, keys: seq<int>)
    requires StrictlyIncreasing(keys)
    requires forall k :: k in keys <==> k in disk.segments && k >= MinimumSequence(disk)
    ensures LiveSegments(disk) == keys
  {
    hide SortedKeys;
    hide MinimumSequence;
    IncreasingUnique(LiveSegments(disk), keys);
  }

  lemma HoldsFacts(f: Format, disk: Disk, base: Published, first: int, items: seq<Item>)
    requires Holds(f, disk, base, first, items)
    ensures Loggable(f, items, first) && SegmentStarts(LiveSegments(disk), first, first + |items|)
    ensures Base(disk) == Ok(Recovering(base, Some(first))) && MinimumSequence(disk) == first && !Exhausted(disk)
    ensures HoldsUpTo(f, disk.segments, items, LiveSegments(disk), first, |LiveSegments(disk)|)
    ensures forall i :: 0 <= i < |LiveSegments(disk)| ==> LiveSegments(disk)[i] in disk.segments
  {
    hide SegmentHolds;
    hide LiveSegments;
    hide Loggable;
    var keys := LiveSegments(disk);
    forall i | 0 <= i < |keys|
      ensures keys[i] in disk.segments
    {
      var k := keys[i];
      assert k in keys;
    }
  }

  // ---- Torn appends ----

  /** `disk` is `clean` with the first `cut` bytes of one more group behind the active segment. */
  ghost predicate TornFrom(f: Format, disk: Disk, clean: Disk, base: Published, first: int, items: seq<Item>,
                           group: seq<Item>, cut: nat)
  {
    && Holds(f, clean, base, first, items) && Loggable(f, group, first + |items|)
    && cut <= |GroupBytes(f, group, first + |items|)|
    && LiveSegments(clean) != []
    && var last := LastOf(LiveSegments(clean));
       && last in clean.segments && disk.snapshots == clean.snapshots
       && disk.segments == clean.segments[last := clean.segments[last] + GroupBytes(f, group, first + |items|)[..cut]]
  }

  /** The last segment's share, with `extra` items behind it. */
  function LastShare(items: seq<Item>, keys: seq<int>, first: int): seq<Item>
    requires keys != [] && first <= LastOf(keys) <= first + |items|
  {
    items[LastOf(keys) - first..]
  }

  lemma LastShareHeld(f: Format, segments: map<int, seq<byte>>, items: seq<Item>, keys: seq<int>, first: int)
    requires keys != [] && HoldsUpTo(f, segments, items, keys, first, |keys|)
    ensures first <= LastOf(keys) <= first + |items| && LastOf(keys) <= U64_MAX
    ensures Loggable(f, LastShare(items, keys, first), LastOf(keys)) && LastOf(keys) in segments
    ensures segments[LastOf(keys)] == GroupBytes(f, LastShare(items, keys, first), LastOf(keys))
  {
    hide GroupBytes;
    var i := |keys| - 1;
    StartsBounded(keys, first, first + |items|, i);
    LoggableSlice(f, items, first, keys[i] - first, |items|);
    assert SegmentHolds(f, segments, items, keys, first, i);
    assert items[keys[i] - first..|items|] == LastShare(items, keys, first);
  }

  /** Extending the log behind the last segment keeps earlier shares and extends the last. */
  lemma ExtendedHolds(f: Format, segments: map<int, seq<byte>>, items: seq<Item>, extra: seq<Item>, keys: seq<int>,
                      first: int)
    requires keys != [] && HoldsUpTo(f, segments, items, keys, first, |keys|)
    requires Loggable(f, items + extra, first)
    requires first <= LastOf(keys) <= first + |items|
    requires Loggable(f, LastShare(items, keys, first) + extra, LastOf(keys))
    ensures HoldsUpTo(f, segments[LastOf(keys) := GroupBytes(f, LastShare(items, keys, first) + extra, LastOf(keys))],
                      items + extra, keys, first, |keys|)
  {
    hide GroupBytes;
    var log := items + extra;
    var last := LastOf(keys);
    var extended := segments[last := GroupBytes(f, LastShare(items, keys, first) + extra, last)];
    forall i | 0 <= i < |keys|
      ensures SegmentHolds(f, extended, log, keys, first, i)
    {
      StartsBounded(keys, first, first + |log|, i);
      StartsBounded(keys, first, first + |items|, i);
      assert SegmentHolds(f, segments, items, keys, first, i);
      if i < |keys| - 1 {
        assert keys[i] < last;
        assert SegmentItems(log, keys, first, i) == SegmentItems(items, keys, first, i);
      } else {
        assert SegmentItems(log, keys, first, i) == LastShare(items, keys, first) + extra;
      }
    }
  }

  /** Feeding the sealed segments, then the last one with whatever of the group reached it. */
  lemma FeedTorn(f: Format, disk: Disk, clean: Disk, base: Published, first: int, items: seq<Item>, group: seq<Item>,
                 cut: nat)
    returns (m: nat)
    requires SoundHash(f.hash) && TornFrom(f, disk, clean, base, first, items, group, cut)
    requires InstallAll(base, f.digest, items + group).Ok?
    ensures m <= |group| && (cut == |GroupBytes(f, group, first + |items|)| ==> m == |group|)
    ensures Loggable(f, items + group[..m], first) && InstallAll(base, f.digest, items + group[..m]).Ok?
    ensures var keys := LiveSegments(clean);
            && first <= LastOf(keys) <= first + |items|
            && Loggable(f, LastShare(items, keys, first) + group[..m], LastOf(keys))
            && FeedSegments(f, Recovering(base, Some(first)), disk.segments, keys, |keys|)
               == Ok(Feeding(Recovering(InstallAll(base, f.digest, items + group[..m]).value,
                                        NextAfter(first, |items| + m)),
                             disk.segments[LastOf(keys) := GroupBytes(f, LastShare(items, keys, first) + group[..m],
                                                                      LastOf(keys))]))
  {
    hide InstallAll;
    hide FeedSegments;
    hide FeedSegment;
    hide GroupBytes;
    hide Holds;
    hide LiveSegments;
    hide Writable;
    HoldsFacts(f, clean, base, first, items);
    var keys := LiveSegments(clean);
    var last := LastOf(keys);
    LastShareHeld(f, clean.segments, items, keys, first);
    var part := LastShare(items, keys, first);
    SealedHeld(f, disk, clean, items, keys, first);
    LoggableConcat(f, items, group, first);
    InstallWhole(base, f.digest, items, group, last - first);
    FeedHeldSegments(f, disk.segments, keys, base, first, items, |keys| - 1);
    HeldBeforeLast(keys, first, items);
    var p := InstallAll(base, f.digest, items[..last - first]).value;
    m := FeedTornSegment(f, p, part, group, last, cut, disk.segments);
    FeedSegmentsLast(f, Recovering(base, NextAfter(first, 0)), disk.segments, keys, |keys|);
    LogPrefix(f, items, group, first, m);
    assert items[..last - first] + (part + group[..m]) == items + group[..m];
    InstallSplit(base, f.digest, items[..last - first], part + group[..m]);
  }

  lemma LogPrefix(f: Format, items: seq<Item>, group: seq<Item>, first: int, m: nat)
    requires Loggable(f, items + group, first) && m <= |group|
    ensures Loggable(f, items + group[..m], first)
  {
    hide Writable;
    assert items + group[..m] == (items + group)[..|items| + m];
    LoggablePrefix(f, items + group, first, |items| + m);
  }

  lemma HeldBeforeLast(keys: seq<int>, first: int, items: seq<Item>)
    requires SegmentStarts(keys, first, first + |items|)
    ensures HeldBy(keys, first, |items|, |keys| - 1) == LastOf(keys) - first
  {
  }

  /** Installing the log splits at the last segment's start. */
  lemma InstallWhole(base: Published, digest: Operation -> seq<int>, items: seq<Item>, group: seq<Item>, from: nat)
    requires from <= |items| && InstallAll(base, digest, items + group).Ok?
    ensures InstallAll(base, digest, items).Ok? && InstallAll(base, digest, items[..from]).Ok?
    ensures InstallAll(InstallAll(base, digest, items[..from]).value, digest, items[from..] + group).Ok?
  {
    hide InstallAll;
    InstallPrefix(base, digest, items + group, |items|);
    assert (items + group)[..|items|] == items;
    InstallPrefix(base, digest, items, from);
    assert items[..from] + (items[from..] + group) == items + group;
    InstallSplit(base, digest, items[..from], items[from..] + group);
  }

  lemma SealedHeld(f: Format, disk: Disk, clean: Disk, items: seq<Item>, keys: seq<int>, first: int)
    requires keys != [] && HoldsUpTo(f, clean.segments, items, keys, first, |keys|)
    requires forall k :: k in clean.segments && k != LastOf(keys) ==>
                           k in disk.segments && disk.segments[k] == clean.segments[k]
    ensures HoldsUpTo(f, disk.segments, items, keys, first, |keys| - 1)
  {
    hide GroupBytes;
    forall i | 0 <= i < |keys| - 1
      ensures SegmentHolds(f, disk.segments, items, keys, first, i)
    {
      assert SegmentHolds(f, clean.segments, items, keys, first, i);
      assert keys[i] < LastOf(keys);
    }
  }

  /** The disk after opening: only live segments, the last one repaired. */
  function Cleaned(disk: Disk, segments: map<int, seq<byte>>): Disk {
    disk.(segments := map k | k in segments && k >= MinimumSequence(disk) :: segments[k])
  }

  lemma CleanedHolds(f: Format, disk: Disk, segments: map<int, seq<byte>>, base: Published, first: int, log: seq<Item>)
    requires Base(disk) == Ok(Recovering(base, Some(first))) && MinimumSequence(disk) == first
    requires segments.Keys == disk.segments.Keys
    requires HoldsUpTo(f, segments, log, LiveSegments(disk), first, |LiveSegments(disk)|)
    ensures LiveSegments(Cleaned(disk, segments)) == LiveSegments(disk)
    ensures Holds(f, Cleaned(disk, segments), base, first, log)
  {
    hide SortedKeys;
    hide GroupBytes;
    hide Latest;
    hide Loggable;
    var after := Cleaned(disk, segments);
    assert MinimumSequence(after) == MinimumSequence(disk) && Base(after) == Base(disk);
    LiveAre(after, LiveSegments(disk));
    hide LiveSegments;
    var keys := LiveSegments(disk);
    forall i | 0 <= i < |keys|
      ensures SegmentHolds(f, after.segments, log, keys, first, i)
    {
      StartsBounded(keys, first, first + |log|, i);
      assert SegmentHolds(f, segments, log, keys, first, i);
    }
  }

  /**
   Opening after a crash that left any byte prefix of the last group: the recovered state is that of the
   log plus the group's complete items, the next sequence follows without a gap, and the repaired disk
   holds exactly that log.
   */
  lemma OpenTorn(f: Format, disk: Disk, clean: Disk, base: Published, first: int, items: seq<Item>, group: seq<Item>,
                 cut: nat)
    returns (m: nat, after: Disk)
    requires SoundHash(f.hash) && TornFrom(f, disk, clean, base, first, items, group, cut)
    requires InstallAll(base, f.digest, items + group).Ok?
    ensures m <= |group| && (cut == |GroupBytes(f, group, first + |items|)| ==> m == |group|)
    ensures var log := items + group[..m];
            && InstallAll(base, f.digest, log).Ok? && Holds(f, after, base, first, log)
            && LiveSegments(after) == LiveSegments(clean) != []
            && (Reindex(InstallAll(base, f.digest, log).value).Ok? ==>
                  Open(f, disk)
                  == Ok(Opened(Reindex(InstallAll(base, f.digest, log).value).value, NextAfter(first, |log|), after,
                               LastOf(LiveSegments(clean)))))
  {
    hide InstallAll;
    hide FeedSegments;
    hide GroupBytes;
    hide Holds;
    hide LiveSegments;
    hide MinimumSequence;
    hide Base;
    hide Reindex;
    hide Writable;
    HoldsFacts(f, clean, base, first, items);
    SameLive(disk, clean);
    var keys := LiveSegments(clean);
    LastShareHeld(f, clean.segments, items, keys, first);
    m := FeedTorn(f, disk, clean, base, first, items, group, cut);
    var log := items + group[..m];
    var repaired :=
      disk.segments[LastOf(keys) := GroupBytes(f, LastShare(items, keys, first) + group[..m], LastOf(keys))];
    ExtendedHolds(f, clean.segments, items, group[..m], keys, first);
    assert clean.segments[LastOf(keys) := GroupBytes(f, LastShare(items, keys, first) + group[..m], LastOf(keys))]
           == repaired;
    assert repaired.Keys == disk.segments.Keys;
    CleanedHolds(f, disk, repaired, base, first, log);
    after := Cleaned(disk, repaired);
    assert !Exhausted(disk);
  }

  // ---- Complete appends ----

  /** A completely written group extends the log. */
  lemma AppendedHolds(f: Format, disk: Disk, clean: Disk, base: Published, first: int, items: seq<Item>,
                      group: seq<Item>)
    requires Loggable(f, group, first + |items|)
    requires TornFrom(f, disk, clean, base, first, items, group, |GroupBytes(f, group, first + |items|)|)
    ensures Holds(f, disk, base, first, items + group) && LiveSegments(disk) == LiveSegments(clean)
  {
    hide GroupBytes;
    hide Holds;
    hide LiveSegments;
    hide MinimumSequence;
    hide Base;
    hide Writable;
    HoldsFacts(f, clean, base, first, items);
    SameLive(disk, clean);
    var keys := LiveSegments(clean);
    LastShareHeld(f, clean.segments, items, keys, first);
    var part := LastShare(items, keys, first);
    var bytes := GroupBytes(f, group, first + |items|);
    assert bytes[..|bytes|] == bytes;
    LoggableConcat(f, items, group, first);
    LoggableConcat(f, part, group, LastOf(keys));
    ExtendedHolds(f, clean.segments, items, group, keys, first);
    HoldsFrom(f, disk, base, first, items + group);
  }

  lemma HoldsFrom(f: Format, disk: Disk, base: Published, first: int, items: seq<Item>)
    requires Base(disk) == Ok(Recovering(base, Some(first))) && MinimumSequence(disk) == first
    requires HoldsUpTo(f, disk.segments, items, LiveSegments(disk), first, |LiveSegments(disk)|)
    ensures Holds(f, disk, base, first, items)
  {
    hide SegmentHolds;
    hide LiveSegments;
    hide Loggable;
  }

  // ---- Rotation ----

  /** An empty segment at the next sequence becomes the active one. */
  lemma RotatedHolds(f: Format, disk: Disk, base: Published, first: int, items: seq<Item>)
    requires Holds(f, disk, base, first, items) && first + |items| <= U64_MAX
    requires LiveSegments(disk) != [] && LastOf(LiveSegments(disk)) < first + |items|
    ensures var after := disk.(segments := disk.segments[first + |items| := []]);
            Holds(f, after, base, first, items) && LiveSegments(after) == LiveSegments(disk) + [first + |items|]
  {
    hide GroupBytes;
    hide Holds;
    hide SortedKeys;
    hide Latest;
    HoldsFacts(f, disk, base, first, items);
    var next := first + |items|;
    var after := disk.(segments := disk.segments[next := []]);
    var keys := LiveSegments(disk);
    assert MinimumSequence(after) == first && Base(after) == Base(disk);
    LiveAre(after, keys + [next]);
    hide LiveSegments;
    hide MinimumSequence;
    hide Base;
    var longer := keys + [next];
    forall i | 0 <= i < |longer|
      ensures SegmentHolds(f, after.segments, items, longer, first, i)
    {
      StartsBounded(longer, first, next, i);
      if i < |keys| {
        StartsBounded(keys, first, next, i);
        assert SegmentHolds(f, disk.segments, items, keys, first, i);
        assert SegmentItems(items, longer, first, i) == SegmentItems(items, keys, first, i);
        assert keys[i] < next;
      } else {
        assert SegmentItems(items, longer, first, i) == [];
        NoBytes(f, next);
      }
    }
    HoldsFrom(f, after, base, first, items);
  }

  lemma NoBytes(f: Format, first: int)
    requires 1 <= first <= U64_MAX + 1
    ensures Loggable(f, [], first) && GroupBytes(f, [], first) == []
  {
  }

  // ---- Snapshots ----

  lemma LatestIs(snapshots: map<int, EngineSnapshot>, watermark: int)
    requires watermark in snapshots && forall w :: w in snapshots ==> w <= watermark
    ensures Latest(snapshots) == Some(watermark)
  {
    hide SortedKeys;
    var keys := SortedKeys(snapshots.Keys);
    assert watermark in keys;
    var i :| 0 <= i < |keys| && keys[i] == watermark;
    var last := keys[|keys| - 1];
    assert last in keys && last in snapshots;
    if i < |keys| - 1 {
      assert false;
    }
  }

  lemma LatestBounds(snapshots: map<int, EngineSnapshot>, w: int)
    requires w in snapshots
    ensures Latest(snapshots).Some? && w <= Latest(snapshots).value
  {
    hide SortedKeys;
    var keys := SortedKeys(snapshots.Keys);
    assert w in keys;
    var i :| 0 <= i < |keys| && keys[i] == w;
    assert i < |keys| - 1 ==> keys[i] < keys[|keys| - 1];
  }

  /** No snapshot lies beyond the log's start. */
  lemma WatermarksBelow(disk: Disk, base: Published, first: int, w: int)
    requires Base(disk) == Ok(Recovering(base, Some(first))) && w in disk.snapshots
    ensures w < first
  {
    hide RestoreUnindexed;
    LatestBounds(disk.snapshots, w);
  }

  /**
   A snapshot at the end of the log, with the empty active segment behind it, holds the same state with an
   empty log.
   */
  lemma SnapshotHolds(f: Format, disk: Disk, base: Published, first: int, items: seq<Item>, p: Published)
    requires Holds(f, disk, base, first, items) && first + |items| <= U64_MAX
    requires LiveSegments(disk) != [] && LastOf(LiveSegments(disk)) == first + |items|
    requires RestoreUnindexed(Capture(p)) == Ok(Unindexed(p))
    ensures var next := first + |items|;
            var after := disk.(snapshots := disk.snapshots[next - 1 := Capture(p)]);
            Holds(f, after, Unindexed(p), next, []) && LiveSegments(after) == [next]
  {
    hide GroupBytes;
    hide Holds;
    hide SortedKeys;
    hide RestoreUnindexed;
    hide Capture;
    HoldsFacts(f, disk, base, first, items);
    var next := first + |items|;
    var after := disk.(snapshots := disk.snapshots[next - 1 := Capture(p)]);
    var keys := LiveSegments(disk);
    forall w | w in after.snapshots
      ensures w <= next - 1
    {
      if w in disk.snapshots {
        WatermarksBelow(disk, base, first, w);
      }
    }
    LatestIs(after.snapshots, next - 1);
    hide Latest;
    LastShareHeld(f, disk.segments, items, keys, first);
    forall k
      ensures k in [next] <==> k in after.segments && k >= next
    {
      OnlyLast(disk, keys, next, k);
    }
    LiveAre(after, [next]);
    assert LastShare(items, keys, first) == [];
    NoBytes(f, next);
    assert SegmentItems([], [next], next, 0) == [];
    assert SegmentHolds(f, after.segments, [], [next], next, 0);
    hide LiveSegments;
    HoldsFrom(f, after, Unindexed(p), next, []);
  }

  lemma OnlyLast(disk: Disk, keys: seq<int>, next: int, k: int)
    requires keys == LiveSegments(disk) && keys != [] && LastOf(keys) == next && MinimumSequence(disk) <= next
    ensures k == next <==> k in disk.segments && k >= next
  {
    hide MinimumSequence;
    hide SortedKeys;
    if k in disk.segments && k >= next {
      assert k in keys;
      var i :| 0 <= i < |keys| && keys[i] == k;
      assert i < |keys| - 1 ==> keys[i] < LastOf(keys);
    }
    assert LastOf(keys) in keys;
  }

  /** Deleting any covered segments and any older snapshots changes nothing that opening sees. */
  lemma CompactedHolds(f: Format, disk: Disk, after: Disk, base: Published, first: int, items: seq<Item>)
    requires Holds(f, disk, base, first, items)
    requires forall k :: k in after.segments ==> k in disk.segments && after.segments[k] == disk.segments[k]
    requires forall k :: k in disk.segments && k >= first ==> k in after.segments
    requires forall w :: w in after.snapshots ==> w in disk.snapshots && after.snapshots[w] == disk.snapshots[w]
    requires Latest(disk.snapshots).Some? ==> Latest(disk.snapshots).value in after.snapshots
    ensures Holds(f, after, base, first, items) && LiveSegments(after) == LiveSegments(disk)
  {
    hide GroupBytes;
    hide Holds;
    hide RestoreUnindexed;
    HoldsFacts(f, disk, base, first, items);
    SameLatest(disk, after);
    hide Latest;
    hide SortedKeys;
    assert Base(after) == Base(disk) && MinimumSequence(after) == first;
    LiveAre(after, LiveSegments(disk));
    hide LiveSegments;
    var keys := LiveSegments(disk);
    forall i | 0 <= i < |keys|
      ensures SegmentHolds(f, after.segments, items, keys, first, i)
    {
      StartsBounded(keys, first, first + |items|, i);
      assert SegmentHolds(f, disk.segments, items, keys, first, i);
    }
    HoldsFrom(f, after, base, first, items);
  }

  lemma SameLatest(disk: Disk, after: Disk)
    requires forall w :: w in after.snapshots ==> w in disk.snapshots && after.snapshots[w] == disk.snapshots[w]
    requires Latest(disk.snapshots).Some? ==> Latest(disk.snapshots).value in after.snapshots
    ensures Latest(after.snapshots) == Latest(disk.snapshots)
    ensures Latest(disk.snapshots).Some? ==> Latest(disk.snapshots).value in disk.snapshots
  {
    if Latest(disk.snapshots).Some? {
      var watermark := Latest(disk.snapshots).value;
      forall w | w in after.snapshots
        ensures w <= watermark
      {
        LatestBounds(disk.snapshots, w);
      }
      LatestIs(after.snapshots, watermark);
    } else {
      hide SortedKeys;
      NoSnapshots(disk.snapshots);
      forall w
        ensures w !in after.snapshots
      {
      }
      assert after.snapshots == map[];
      EmptyLatest();
    }
  }

  lemma NoSnapshots(snapshots: map<int, EngineSnapshot>)
    requires Latest(snapshots) == None
    ensures snapshots == map[]
  {
    if w :| w in snapshots {
      LatestBounds(snapshots, w);
      assert false;
    }
  }

  lemma EmptyLatest()
    ensures Latest(map[]) == None
  {
    var none: map<int, EngineSnapshot> := map[];
    assert none.Keys == {};
  }
}
