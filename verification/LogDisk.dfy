/**
 The files of a database as values: log segments by first record sequence and snapshots by watermark,
 and what opening them recovers.
 */
module LogDisk {
  import opened Results
  import opened Bytes
  import opened WalRecords
  import opened WalStreams
  import opened Domain
  import opened OrderedKeys
  import opened Transitions
  import opened EngineSafety
  import opened Batches
  import opened Replay
  import opened Snapshots
  import opened Recovery

  /** Segment contents behind their fixed headers, and decoded snapshot files. */
  datatype Disk = Disk(segments: map<int, seq<byte>>, snapshots: map<int, EngineSnapshot>)

  datatype FileError =
    | MissingSegments
    | InvalidSnapshot(error: InstallError)
    | SegmentSequence(expected: Option<int>, actual: int)
    | SegmentRecovery(segment: int, sealed: bool, source: RecoveryError)
    | SnapshotPoisoned
    | FileIo

  // ---- Opening ----

  function Latest(snapshots: map<int, EngineSnapshot>): Option<int> {
    var keys := SortedKeys(snapshots.Keys);
    if keys == [] then None else Some(keys[|keys| - 1])
  }

  /** State and next sequence before any segment is read. */
  ghost function Base(disk: Disk): Result<Recovering, FileError> {
    match Latest(disk.snapshots)
    case None => Ok(Recovering(Unindexed(Genesis), Some(1)))
    case Some(watermark) =>
      if watermark !in disk.snapshots then Err(MissingSegments)
      else
        match RestoreUnindexed(disk.snapshots[watermark])
        case Err(error) => Err(InvalidSnapshot(error))
        case Ok(p) => Ok(Recovering(p, SequenceAfter(watermark)))
  }

  /** The first sequence a segment must have to matter. */
  function MinimumSequence(disk: Disk): int {
    match Latest(disk.snapshots)
    case None => 1
    case Some(watermark) => if watermark >= U64_MAX then 1 else watermark + 1
  }

  function LiveSegments(disk: Disk): (keys: seq<int>)
    ensures StrictlyIncreasing(keys)
    ensures forall k :: k in keys <==> k in disk.segments && k >= MinimumSequence(disk)
  {
    SortedKeys(set k | k in disk.segments.Keys && k >= MinimumSequence(disk))
  }

  /** The latest snapshot already stands at the end of the sequence space. */
  predicate Exhausted(disk: Disk) {
    Latest(disk.snapshots).Some? && Latest(disk.snapshots).value >= U64_MAX
  }

  /** Recovery state and segments after the first `n` segments, with the last one repaired if it was torn. */
  datatype Feeding = Feeding(recovering: Recovering, segments: map<int, seq<byte>>)

  ghost function FeedSegments(f: Format, start: Recovering, segments: map<int, seq<byte>>, keys: seq<int>, n: nat)
    : Result<Feeding, FileError>
    requires n <= |keys|
  {
    if n == 0 then Ok(Feeding(start, segments))
    else
      var earlier :- FeedSegments(f, start, segments, keys, n - 1);
      FeedSegment(f, earlier, keys[n - 1], n < |keys|)
  }

  /** One segment: it must start at the expected sequence; only the last may end in a torn record. */
  ghost function FeedSegment(f: Format, earlier: Feeding, key: int, sealed: bool): Result<Feeding, FileError> {
    if earlier.recovering.next != Some(key) || key !in earlier.segments
    then Err(SegmentSequence(earlier.recovering.next, key))
    else
      var (recovering, result) := Feed(f, earlier.recovering, earlier.segments[key]);
      match result
      case Ok(_) => Ok(earlier.(recovering := recovering))
      case Err(error) =>
        if !sealed && error.StorageFailure? && error.source.PartialTail?
           && error.lastValidOffset <= |earlier.segments[key]|
        then Ok(Feeding(recovering, earlier.segments[key := earlier.segments[key][..error.lastValidOffset]]))
        else Err(SegmentRecovery(key, sealed, error))
  }

  /** An opened database: published state, next sequence, the cleaned disk and its active segment. */
  datatype Opened = Opened(published: Published, next: Option<int>, disk: Disk, active: int)

  ghost function Open(f: Format, disk: Disk): Result<Opened, FileError> {
    var start :- Base(disk);
    var keys := LiveSegments(disk);
    if keys == [] then Err(MissingSegments)
    else
      var feeding :- if Exhausted(disk) then Ok(Feeding(start, disk.segments))
                     else FeedSegments(f, start, disk.segments, keys, |keys|);
      match Reindex(feeding.recovering.published)
      case Err(error) => Err(SegmentRecovery(keys[|keys| - 1], false, InstallFailure(None, 0, error)))
      case Ok(p) =>
        Ok(Opened(p, feeding.recovering.next,
                  disk.(segments := map k | k in feeding.segments && k >= MinimumSequence(disk) :: feeding.segments[k]),
                  keys[|keys| - 1]))
  }

  // ---- A disk that holds a log ----

  /** Items of segment `i`: from its first sequence up to the next segment's. */
  function EndOf(keys: seq<int>, i: nat, end: int): int {
    if i + 1 < |keys| then keys[i + 1] else end
  }

  /** Segment starts: increasing from the record after the watermark to at most the end of the log. */
  ghost predicate SegmentStarts(keys: seq<int>, first: int, end: int) {
    && StrictlyIncreasing(keys) && keys != [] && keys[0] == first && keys[|keys| - 1] <= end
    && keys[|keys| - 1] <= U64_MAX
  }

  lemma StartsBounded(keys: seq<int>, first: int, end: int, i: nat)
    requires SegmentStarts(keys, first, end) && i < |keys|
    ensures first <= keys[i] <= EndOf(keys, i, end) <= end && keys[i] <= U64_MAX
  {
    assert i > 0 ==> keys[0] < keys[i];
    assert i < |keys| - 1 ==> keys[i] < keys[|keys| - 1];
    assert i + 1 < |keys| - 1 ==> keys[i + 1] < keys[|keys| - 1];
  }

  function SegmentItems(items: seq<Item>, keys: seq<int>, first: int, i: nat): (part: seq<Item>)
    requires i < |keys| && first <= keys[i] <= EndOf(keys, i, first + |items|) <= first + |items|
  {
    items[keys[i] - first..EndOf(keys, i, first + |items|) - first]
  }

  /** The items can be framed one after another from `first` within the sequence space. */
  ghost predicate Loggable(f: Format, items: seq<Item>, first: int) {
    Writable(f, items) && 1 <= first && first + |items| <= U64_MAX + 1
  }

  lemma LoggableFacts(f: Format, group: seq<Item>, first: int)
    requires Loggable(f, group, first)
    ensures Writable(f, group) && 1 <= first && first + |group| <= U64_MAX + 1
  {
  }

  lemma LoggableSlice(f: Format, items: seq<Item>, first: int, from: nat, to: nat)
    requires Loggable(f, items, first) && from <= to <= |items|
    ensures Loggable(f, items[from..to], first + from)
  {
  }

  /** The segment holds exactly its share of the log, framed. */
  ghost predicate SegmentHolds(f: Format, segments: map<int, seq<byte>>, items: seq<Item>, keys: seq<int>, first: int,
                               i: nat)
    requires Loggable(f, items, first) && SegmentStarts(keys, first, first + |items|) && i < |keys|
  {
    StartsBounded(keys, first, first + |items|, i);
    LoggableSlice(f, items, first, keys[i] - first, EndOf(keys, i, first + |items|) - first);
    keys[i] in segments && segments[keys[i]] == GroupBytes(f, SegmentItems(items, keys, first, i), keys[i])
  }

  /** The live segments hold the log after the latest snapshot, whose state is `base`. */
  ghost predicate Holds(f: Format, disk: Disk, base: Published, first: int, items: seq<Item>) {
    && Loggable(f, items, first)
    && Base(disk) == Ok(Recovering(base, Some(first))) && MinimumSequence(disk) == first
    && SegmentStarts(LiveSegments(disk), first, first + |items|)
    && forall i :: 0 <= i < |LiveSegments(disk)| ==> SegmentHolds(f, disk.segments, items, LiveSegments(disk), first, i)
  }

  // ---- Opening a disk that holds a log ----

  lemma {:induction false} InstallSplit(p: Published, digest: Operation -> seq<int>, a: seq<Item>, b: seq<Item>)
    ensures InstallAll(p, digest, a + b)
            == var earlier := InstallAll(p, digest, a);
               if earlier.Err? then earlier else InstallAll(earlier.value, digest, b)
  {
    hide Install;
    if b == [] {
      assert a + b == a;
    } else {
      var n := |b| - 1;
      assert (a + b)[..|a + b| - 1] == a + b[..n];
      InstallSplit(p, digest, a, b[..n]);
    }
  }

  lemma InstallPart(p: Published, digest: Operation -> seq<int>, items: seq<Item>, from: nat, to: nat)
    requires from <= to <= |items| && InstallAll(p, digest, items).Ok?
    ensures InstallAll(p, digest, items[..from]).Ok? && InstallAll(p, digest, items[..to]).Ok?
    ensures InstallAll(InstallAll(p, digest, items[..from]).value, digest, items[from..to])
            == InstallAll(p, digest, items[..to])
  {
    hide InstallAll;
    InstallPrefix(p, digest, items, from);
    InstallPrefix(p, digest, items, to);
    assert items[..from] + items[from..to] == items[..to];
    InstallSplit(p, digest, items[..from], items[from..to]);
  }

  /** Feeding a complete group installs all of it. */
  lemma FeedWhole(f: Format, p: Published, items: seq<Item>, first: int)
    requires SoundHash(f.hash) && Loggable(f, items, first) && InstallAll(p, f.digest, items).Ok?
    ensures FeedFrom(f, p, NextAfter(first, 0), GroupBytes(f, items, first), 0)
            == (Recovering(InstallAll(p, f.digest, items).value, NextAfter(first, |items|)),
                Ok(|GroupBytes(f, items, first)|))
  {
    hide FeedFrom;
    hide InstallAll;
    hide GroupBytes;
    var bytes := GroupBytes(f, items, first);
    var k := FeedGroupPrefix(f, p, items, first, |bytes|);
    WholeComplete(f, items, first, k);
    assert bytes[..|bytes|] == bytes;
    assert items[..k] == items;
  }

  /** How much of the log the first `n` segments hold. */
  function HeldBy(keys: seq<int>, first: int, count: nat, n: nat): int
    requires n <= |keys|
  {
    if n == 0 then 0 else EndOf(keys, n - 1, first + count) - first
  }

  /** Feeding the first `n` segments installs exactly their share of the log. */
  ghost predicate FedSegments(f: Format, segments: map<int, seq<byte>>, keys: seq<int>, base: Published, first: int,
                              items: seq<Item>, n: nat)
    requires n <= |keys|
  {
    var count := HeldBy(keys, first, |items|, n);
    && 0 <= count <= |items| && InstallAll(base, f.digest, items[..count]).Ok?
    && FeedSegments(f, Recovering(base, NextAfter(first, 0)), segments, keys, n)
       == Ok(Feeding(Recovering(InstallAll(base, f.digest, items[..count]).value, NextAfter(first, count)), segments))
  }

  lemma FedNone(f: Format, segments: map<int, seq<byte>>, keys: seq<int>, base: Published, first: int, items: seq<Item>)
    ensures FedSegments(f, segments, keys, base, first, items, 0)
  {
    assert items[..0] == [];
    NothingInstalled(base, f.digest);
  }

  lemma FeedSegmentsLast(f: Format, start: Recovering, segments: map<int, seq<byte>>, keys: seq<int>, n: nat)
    requires 0 < n <= |keys| && FeedSegments(f, start, segments, keys, n - 1).Ok?
    ensures FeedSegments(f, start, segments, keys, n)
            == FeedSegment(f, FeedSegments(f, start, segments, keys, n - 1).value, keys[n - 1], n < |keys|)
  {
    hide FeedSegment;
  }

  /** The first `n` segments hold their shares of the log. */
  ghost predicate HoldsUpTo(f: Format, segments: map<int, seq<byte>>, items: seq<Item>, keys: seq<int>, first: int,
                            n: nat)
    requires n <= |keys|
  {
    && Loggable(f, items, first) && SegmentStarts(keys, first, first + |items|)
    && forall i :: 0 <= i < n ==> SegmentHolds(f, segments, items, keys, first, i)
  }

  /** Each fed segment advances recovery by its share of the log. */
  lemma {:induction false} FeedHeldSegments(f: Format, segments: map<int, seq<byte>>, keys: seq<int>, base: Published,
                                            first: int, items: seq<Item>, n: nat)
    requires n <= |keys| && SoundHash(f.hash) && HoldsUpTo(f, segments, items, keys, first, n)
    requires InstallAll(base, f.digest, items).Ok?
    ensures FedSegments(f, segments, keys, base, first, items, n)
  {
    hide *;
    if n == 0 {
      FedNone(f, segments, keys, base, first, items);
    } else {
      HoldsFewer(f, segments, items, keys, first, n);
      FeedHeldSegments(f, segments, keys, base, first, items, n - 1);
      FedStep(f, segments, keys, base, first, items, n);
    }
  }

  lemma HoldsFewer(f: Format, segments: map<int, seq<byte>>, items: seq<Item>, keys: seq<int>, first: int, n: nat)
    requires 0 < n <= |keys| && HoldsUpTo(f, segments, items, keys, first, n)
    ensures HoldsUpTo(f, segments, items, keys, first, n - 1)
  {
    hide SegmentHolds;
  }

  lemma FedStep(f: Format, segments: map<int, seq<byte>>, keys: seq<int>, base: Published, first: int, items: seq<Item>,
                n: nat)
    requires 0 < n <= |keys| && SoundHash(f.hash) && HoldsUpTo(f, segments, items, keys, first, n)
    requires InstallAll(base, f.digest, items).Ok?
    requires FedSegments(f, segments, keys, base, first, items, n - 1)
    ensures FedSegments(f, segments, keys, base, first, items, n)
  {
    hide InstallAll;
    hide FeedSegments;
    hide FeedSegment;
    hide SegmentHolds;
    hide Loggable;
    FeedOneHeld(f, segments, keys, base, first, items, n - 1);
    FeedSegmentsLast(f, Recovering(base, NextAfter(first, 0)), segments, keys, n);
    assert keys[0] == first;
    assert HeldBy(keys, first, |items|, n - 1) == keys[n - 1] - first;
  }

  /** Feeding the segment takes recovery from the first `from` items of the log to the first `to`. */
  ghost predicate FedShare(f: Format, segments: map<int, seq<byte>>, key: int, sealed: bool, base: Published,
                           first: int, items: seq<Item>, from: nat, to: nat)
    requires from <= to <= |items|
  {
    var earlier, later := InstallAll(base, f.digest, items[..from]), InstallAll(base, f.digest, items[..to]);
    && earlier.Ok? && later.Ok?
    && FeedSegment(f, Feeding(Recovering(earlier.value, NextAfter(first, from)), segments), key, sealed)
       == Ok(Feeding(Recovering(later.value, NextAfter(first, to)), segments))
  }

  lemma FeedOneHeld(f: Format, segments: map<int, seq<byte>>, keys: seq<int>, base: Published, first: int,
                    items: seq<Item>, i: nat)
    requires i < |keys| && SoundHash(f.hash) && HoldsUpTo(f, segments, items, keys, first, i + 1)
    requires InstallAll(base, f.digest, items).Ok?
    ensures 0 <= keys[i] - first <= EndOf(keys, i, first + |items|) - first <= |items|
    ensures FedShare(f, segments, keys[i], i + 1 < |keys|, base, first, items, keys[i] - first,
                     EndOf(keys, i, first + |items|) - first)
  {
    hide InstallAll;
    hide GroupBytes;
    hide FeedFrom;
    StartsBounded(keys, first, first + |items|, i);
    var from, to := keys[i] - first, EndOf(keys, i, first + |items|) - first;
    InstallPart(base, f.digest, items, from, to);
    LoggableSlice(f, items, first, from, to);
    assert SegmentHolds(f, segments, items, keys, first, i);
    FeedWhole(f, InstallAll(base, f.digest, items[..from]).value, items[from..to], keys[i]);
  }

  // ---- Opening a disk with a torn tail ----

  lemma LoggableConcat(f: Format, a: seq<Item>, b: seq<Item>, first: int)
    requires Loggable(f, a, first) && Loggable(f, b, first + |a|)
    ensures Loggable(f, a + b, first)
    ensures GroupBytes(f, a + b, first) == GroupBytes(f, a, first) + GroupBytes(f, b, first + |a|)
  {
    hide Frames;
    hide LogRecord.Valid;
    RecordsConsecutive(f, a, first);
    RecordsConsecutive(f, b, first + |a|);
    RecordsConsecutive(f, a + b, first);
    assert RecordsFor(f.codec, a + b, first) == RecordsFor(f.codec, a, first) + RecordsFor(f.codec, b, first + |a|);
    FramesConcat(f.hash, RecordsFor(f.codec, a, first), RecordsFor(f.codec, b, first + |a|));
  }

  lemma LoggablePrefix(f: Format, items: seq<Item>, first: int, k: nat)
    requires Loggable(f, items, first) && k <= |items|
    ensures Loggable(f, items[..k], first)
    ensures GroupBytes(f, items[..k], first) <= GroupBytes(f, items, first)
  {
    hide GroupBytes;
    LoggableSlice(f, items, first, 0, k);
    LoggableSlice(f, items, first, k, |items|);
    assert items[0..k] == items[..k];
    assert items == items[..k] + items[k..];
    LoggableConcat(f, items[..k], items[k..], first);
  }

  /** With no byte cut off every item is complete. */
  lemma WholeComplete(f: Format, items: seq<Item>, first: int, k: nat)
    requires Loggable(f, items, first) && k <= |items|
    requires MaximalPrefix(f, items, first, |GroupBytes(f, items, first)|, k)
    ensures k == |items|
  {
    hide GroupBytes;
    if k < |items| {
      LoggablePrefix(f, items, first, k + 1);
      assert false;
    }
  }

  /** The last segment, with any byte prefix of one more group behind its share of the log. */
  lemma FeedTornSegment(f: Format, p: Published, part: seq<Item>, group: seq<Item>, key: int, cut: nat,
                        segments: map<int, seq<byte>>)
    returns (m: nat)
    requires SoundHash(f.hash) && Loggable(f, part, key) && Loggable(f, group, key + |part|) && key <= U64_MAX
    requires InstallAll(p, f.digest, part + group).Ok? && cut <= |GroupBytes(f, group, key + |part|)|
    requires key in segments && segments[key] == GroupBytes(f, part, key) + GroupBytes(f, group, key + |part|)[..cut]
    ensures m <= |group| && (cut == |GroupBytes(f, group, key + |part|)| ==> m == |group|)
    ensures Loggable(f, part + group[..m], key) && InstallAll(p, f.digest, part + group[..m]).Ok?
    ensures FeedSegment(f, Feeding(Recovering(p, Some(key)), segments), key, false)
            == Ok(Feeding(Recovering(InstallAll(p, f.digest, part + group[..m]).value, NextAfter(key, |part| + m)),
                          segments[key := GroupBytes(f, part + group[..m], key)]))
  {
    hide InstallAll;
    hide FeedFrom;
    hide GroupBytes;
    hide Writable;
    var all := part + group;
    LoggableConcat(f, part, group, key);
    var bytes := GroupBytes(f, all, key);
    var end := |GroupBytes(f, part, key)| + cut;
    assert segments[key] == bytes[..end];
    var k := FeedGroupPrefix(f, p, all, key, end);
    PartComplete(f, part, group, key, cut, k);
    m := k - |part|;
    assert all[..k] == part + group[..m];
    LoggablePrefix(f, all, key, k);
    var boundary := |GroupBytes(f, all[..k], key)|;
    assert bytes[..end][..boundary] == GroupBytes(f, all[..k], key);
    assert NextAfter(key, 0) == Some(key);
    if end == boundary {
      assert segments[key] == GroupBytes(f, all[..k], key);
      assert segments[key := segments[key]] == segments;
    } else {
      assert segments[key][..boundary] == GroupBytes(f, all[..k], key);
    }
  }

  /** The part written before the torn group is complete. */
  lemma PartComplete(f: Format, part: seq<Item>, group: seq<Item>, key: int, cut: nat, k: nat)
    requires Loggable(f, part, key) && Loggable(f, group, key + |part|) && Loggable(f, part + group, key)
    requires cut <= |GroupBytes(f, group, key + |part|)| && k <= |part + group|
    requires MaximalPrefix(f, part + group, key, |GroupBytes(f, part, key)| + cut, k)
    ensures |part| <= k
    ensures cut == |GroupBytes(f, group, key + |part|)| ==> k == |part + group|
  {
    hide GroupBytes;
    hide Writable;
    LoggableConcat(f, part, group, key);
    if cut == |GroupBytes(f, group, key + |part|)| {
      WholeComplete(f, part + group, key, k);
    }
    if k < |part| {
      assert part == (part + group)[..|part|];
      assert part[..k + 1] == (part + group)[..k + 1];
      LoggablePrefix(f, part, key, k + 1);
      assert false;
    }
  }
}
