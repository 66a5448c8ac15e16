/** Opening a file database: latest snapshot, live segments in order, tail repair, one index rebuild, cleanup. */
module Opening {
  import opened Results
  import opened Bytes
  import opened WalRecords
  import opened WalStreams
  import opened CapacityCurves
  import opened Domain
  import opened OrderedKeys
  import opened Transitions
  import opened ActiveUsage
  import opened EngineInvariants
  import opened EngineSafety
  import opened Batches
  import opened Replay
  import opened Snapshots
  import opened Recovery
  import opened Engines
  import opened LogDisk
  import opened DiskSteps
  import opened DatabaseRuns
  import opened EngineRecoveries
  import opened SegmentedLogs
  import opened FileDatabases

  /** File names are sequence numbers, and decoded snapshots hold well-formed values. */
  ghost predicate Readable(disk: Disk) {
    && (forall k :: k in disk.segments ==> 1 <= k <= U64_MAX)
    && (forall w :: w in disk.snapshots ==> 0 <= w <= U64_MAX && WellFormedSnapshot(disk.snapshots[w]))
  }

  ghost predicate WellFormedSnapshot(snapshot: EngineSnapshot) {
    && (forall i :: 0 <= i < |snapshot.pools| ==> ValidCurve(snapshot.pools[i].curve))
    && forall i :: 0 <= i < |snapshot.promises| ==> ValidBundle(snapshot.promises[i].bundle)
  }

  lemma RestoredWellFormed(snapshot: EngineSnapshot)
    requires WellFormedSnapshot(snapshot) && RestoreUnindexed(snapshot).Ok?
    ensures WellFormed(RestoreUnindexed(snapshot).value.state)
  {
    hide ValidBundle;
    hide ValidCurve;
    hide CheckEvents;
    hide RestoreRecords;
    InsertedPools(map[], snapshot.pools);
    var pools := InsertPools(map[], snapshot.pools).value;
    RestoredPromises(pools, snapshot.promises, snapshot.sequence);
  }

  lemma {:induction false} RestoredPromises(pools: map<PoolId, Pool>, promises: seq<Promise>, sequence: int)
    requires RestorePromises(pools, promises, sequence).Ok?
    ensures var after := RestorePromises(pools, promises, sequence).value;
            forall id :: id in after ==> after[id] in promises
  {
    if promises != [] {
      var n := |promises| - 1;
      RestoredPromises(pools, promises[..n], sequence);
      assert promises[n] in promises;
      assert forall c :: c in promises[..n] ==> c in promises;
    }
  }

  // ---- Sequence bounds ----

  /** Where the log stands after a stream: no earlier than before it, and later once any byte was accepted. */
  ghost predicate Advances(expected: Option<int>, next: Option<int>, accepted: bool) {
    next.Some?
    ==> expected.Some? && expected.value <= next.value <= U64_MAX && (accepted ==> expected.value < next.value)
  }

  lemma {:induction false} FeedAdvances(f: Format, p: Published, expected: Option<int>, bytes: seq<byte>, offset: nat)
    requires SoundHash(f.hash) && (expected.Some? ==> 1 <= expected.value <= U64_MAX)
    ensures var (after, result) := FeedFrom(f, p, expected, bytes, offset);
            && Advances(expected, after.next, false)
            && (result.Ok? ==> result.value == offset + |bytes| && Advances(expected, after.next, bytes != []))
            && (result.Err? && result.error.StorageFailure? ==>
                  offset <= result.error.lastValidOffset
                  && Advances(expected, after.next, result.error.lastValidOffset > offset))
    decreases |bytes|
  {
    hide ReadRecord;
    hide InstallRecord;
    var next := ReadRecord(f.hash, f.max, expected, bytes, offset);
    if next.Ok? && next.value.Some? {
      var (record, n) := next.value.value;
      RecordBounds(f, expected, bytes, offset, record, n);
      var installed := InstallRecord(f, p, record, offset);
      if installed.Ok? {
        FeedAdvances(f, installed.value, SequenceAfter(record.sequence), bytes[n..], offset + n);
      } else {
        InstallOffset(f, p, record, offset);
      }
    } else {
      EndRead(f, expected, bytes, offset);
    }
  }

  lemma RecordBounds(f: Format, expected: Option<int>, bytes: seq<byte>, offset: nat, record: LogRecord, n: nat)
    requires SoundHash(f.hash) && ReadRecord(f.hash, f.max, expected, bytes, offset) == Ok(Some((record, n)))
    ensures expected == Some(record.sequence) && 0 < n <= |bytes|
  {
    hide Frame;
    ReadExact(f.hash, f.max, expected, bytes, offset);
  }

  lemma EndRead(f: Format, expected: Option<int>, bytes: seq<byte>, offset: nat)
    ensures ReadRecord(f.hash, f.max, expected, bytes, offset) == Ok(None) ==> bytes == []
  {
  }

  lemma InstallOffset(f: Format, p: Published, record: LogRecord, offset: nat)
    requires InstallRecord(f, p, record, offset).Err?
    ensures var error := InstallRecord(f, p, record, offset).error;
            error.StorageFailure? ==> error.lastValidOffset == offset
  {
    hide Install;
  }

  /** After a segment is fed, the next record comes after every record the segment keeps. */
  lemma SegmentAdvances(f: Format, earlier: Feeding, key: int, sealed: bool)
    requires SoundHash(f.hash) && 1 <= key <= U64_MAX && FeedSegment(f, earlier, key, sealed).Ok?
    ensures var after := FeedSegment(f, earlier, key, sealed).value;
            key in after.segments && Advances(Some(key), after.recovering.next, after.segments[key] != [])
  {
    hide FeedFrom;
    var bytes := earlier.segments[key];
    FeedAdvances(f, earlier.recovering.published, Some(key), bytes, 0);
    var (recovering, result) := FeedFrom(f, earlier.recovering.published, Some(key), bytes, 0);
    assert Feed(f, earlier.recovering, bytes) == (recovering, result);
    if result.Err? {
      assert FeedSegment(f, earlier, key, sealed).value.segments[key] == bytes[..result.error.lastValidOffset];
    }
  }

  // ---- Opening ----

  /** The state before any segment is read: the latest snapshot's, or a new engine. */
  method LoadLatest(f: Format, disk: Disk) returns (r: Result<EngineRecovery, FileError>)
    requires Readable(disk)
    ensures match Base(disk)
            case Err(error) => r == Err(error)
            case Ok(start) => r.Ok? && fresh(r.value) && fresh(r.value.engine) && r.value.Value() == start
                              && r.value.engine.digest == f.digest && WellFormed(start.published.state)
                              && r.value.engine.timelines == map[]
  {
    hide RestoreUnindexed;
    hide WellFormed;
    var latest := Latest(disk.snapshots);
    hide Latest;
    if latest.None? {
      var engine := new Engine(f.digest);
      EffectiveEmpty();
      engine.timelines := map[];
      EmptyWellFormed();
      var recovery := new EngineRecovery(engine, Some(1));
      return Ok(recovery);
    }
    var watermark := latest.value;
    if watermark !in disk.snapshots {
      return Err(MissingSegments);
    }
    var restored := Engine.RestoreSnapshotUnindexed(f.digest, disk.snapshots[watermark]);
    if restored.Err? {
      return Err(InvalidSnapshot(restored.error));
    }
    RestoredWellFormed(disk.snapshots[watermark]);
    var recovery := new EngineRecovery(restored.value, SequenceAfter(watermark));
    r := Ok(recovery);
  }

  lemma EmptyWellFormed()
    ensures WellFormed(EmptyState) && EmptyState.timelines == map[]
  {
  }

  /** Feeds one segment, cutting a torn tail off the last one. */
  method FeedOne(f: Format, recovery: EngineRecovery, segments: map<int, seq<byte>>, key: int, sealed: bool)
    returns (r: Result<map<int, seq<byte>>, FileError>)
    requires SoundHash(f.hash) && SoundCodec(f.codec) && recovery.engine.digest == f.digest
    requires WellFormed(recovery.engine.Value())
    modifies recovery, recovery.engine
    ensures WellFormed(recovery.engine.Value()) && (r.Ok? ==> r.value.Keys == segments.Keys)
    ensures match FeedSegment(f, Feeding(old(recovery.Value()), segments), key, sealed)
            case Err(error) => r == Err(error)
            case Ok(after) => r == Ok(after.segments) && recovery.Value() == after.recovering
  {
    hide WellFormed;
    hide Recovery.Feed;
    if recovery.nextRecordSequence != Some(key) || key !in segments {
      return Err(SegmentSequence(recovery.nextRecordSequence, key));
    }
    var fed := recovery.Feed(f, segments[key]);
    if fed.Ok? {
      return Ok(segments);
    }
    var torn := !sealed && fed.error.StorageFailure? && fed.error.source.PartialTail?;
    if torn && fed.error.lastValidOffset <= |segments[key]| {
      return Ok(segments[key := segments[key][..fed.error.lastValidOffset]]);
    }
    r := Err(SegmentRecovery(key, sealed, fed.error));
  }

  /** Feeds every live segment in order. */
  method FeedAll(f: Format, recovery: EngineRecovery, segments: map<int, seq<byte>>, keys: seq<int>)
    returns (r: Result<map<int, seq<byte>>, FileError>)
    requires SoundHash(f.hash) && SoundCodec(f.codec) && recovery.engine.digest == f.digest
    requires WellFormed(recovery.engine.Value()) && keys != [] && forall k :: k in keys ==> 1 <= k <= U64_MAX
    modifies recovery, recovery.engine
    ensures WellFormed(recovery.engine.Value()) && (r.Ok? ==> r.value.Keys == segments.Keys)
    ensures match FeedSegments(f, old(recovery.Value()), segments, keys, |keys|)
            case Err(error) => r == Err(error)
            case Ok(after) =>
              && r == Ok(after.segments) && recovery.Value() == after.recovering && LastOf(keys) in after.segments
              && Advances(Some(LastOf(keys)), after.recovering.next, after.segments[LastOf(keys)] != [])
  {
    hide WellFormed;
    hide FeedSegment;
    hide FeedSegments;
    ghost var start := recovery.Value();
    var repaired := segments;
    FedNoSegments(f, start, segments, keys);
    for n := 0 to |keys|
      invariant WellFormed(recovery.engine.Value()) && repaired.Keys == segments.Keys
      invariant FeedSegments(f, start, segments, keys, n) == Ok(Feeding(recovery.Value(), repaired))
      invariant n == |keys| ==>
                  LastOf(keys) in repaired
                  && Advances(Some(LastOf(keys)), recovery.nextRecordSequence, repaired[LastOf(keys)] != [])
    {
      FeedSegmentsLast(f, start, segments, keys, n + 1);
      ghost var earlier := Feeding(recovery.Value(), repaired);
      var key := keys[n];
      assert key in keys;
      var fed := FeedOne(f, recovery, repaired, key, n + 1 != |keys|);
      if fed.Err? {
        FeedStops(f, start, segments, keys, n + 1, |keys|);
        return Err(fed.error);
      }
      SegmentAdvances(f, earlier, key, n + 1 != |keys|);
      repaired := fed.value;
    }
    r := Ok(repaired);
  }

  lemma FedNoSegments(f: Format, start: Recovering, segments: map<int, seq<byte>>, keys: seq<int>)
    ensures FeedSegments(f, start, segments, keys, 0) == Ok(Feeding(start, segments))
  {
  }

  lemma {:induction false} FeedStops(f: Format, start: Recovering, segments: map<int, seq<byte>>, keys: seq<int>,
                                     k: nat, n: nat)
    requires k <= n <= |keys| && FeedSegments(f, start, segments, keys, k).Err?
    ensures FeedSegments(f, start, segments, keys, n) == FeedSegments(f, start, segments, keys, k)
  {
    hide FeedSegment;
    if k < n {
      FeedStops(f, start, segments, keys, k, n - 1);
    }
  }

  /** The names of live segments in order, and those a snapshot covers. */
  method ReadSegments(disk: Disk) returns (live: seq<int>, obsolete: seq<int>)
    ensures live == LiveSegments(disk)
    ensures forall k :: k in obsolete <==> k in disk.segments && k < MinimumSequence(disk)
  {
    live := LiveSegments(disk);
    obsolete := SortedKeys(set k | k in disk.segments.Keys && k < MinimumSequence(disk));
  }

  /** No record follows a snapshot at the end of the sequence space. */
  lemma ExhaustedEnds(disk: Disk)
    ensures LogDisk.Exhausted(disk) && Base(disk).Ok? ==> Base(disk).value.next.None?
  {
    hide Latest;
    hide RestoreUnindexed;
  }

  /** Opens the files and recovers, repairs and cleans them. */
  method OpenDatabase(f: Format, target: nat, disk: Disk) returns (r: Result<Database, FileError>)
    requires SoundHash(f.hash) && SoundCodec(f.codec) && Readable(disk)
    ensures match Open(f, disk)
            case Err(error) => r == Err(error)
            case Ok(found) =>
              && r.Ok? && r.value.wal.target == target && r.value.format == f
              && r.value.Whole() == System(found.disk, Some(Live(found.published, found.next, found.active, false)))
              && (Coherent(found.published.state) ==> r.value.Valid())
  {
    hide WellFormed;
    hide Base;
    hide Latest;
    hide FeedSegments;
    hide LiveSegments;
    hide Reindex;
    hide Coherent;
    hide ValidTimelines;
    var loaded := LoadLatest(f, disk);
    if loaded.Err? {
      return Err(loaded.error);
    }
    var recovery := loaded.value;
    var keys, obsolete := ReadSegments(disk);
    if keys == [] {
      return Err(MissingSegments);
    }
    var last := keys[|keys| - 1];
    assert last in keys;
    var segments := disk.segments;
    ghost var start := recovery.Value();
    if !LogDisk.Exhausted(disk) {
      var fed := FeedAll(f, recovery, disk.segments, keys);
      if fed.Err? {
        return Err(fed.error);
      }
      segments := fed.value;
    }
    ExhaustedEnds(disk);
    r := FinishOpening(f, target, disk, recovery, segments, obsolete, last);
  }

  /** Rebuilds the index, removes obsolete segments and attaches to the active one. */
  method FinishOpening(f: Format, target: nat, disk: Disk, recovery: EngineRecovery, segments: map<int, seq<byte>>,
                       obsolete: seq<int>, last: int)
    returns (r: Result<Database, FileError>)
    requires SoundHash(f.hash) && recovery.engine.digest == f.digest && WellFormed(recovery.engine.Value())
    requires forall k :: k in obsolete ==> k < MinimumSequence(disk)
    requires forall k :: k in segments && k < MinimumSequence(disk) ==> k in obsolete
    requires last in segments && MinimumSequence(disk) <= last <= U64_MAX && 1 <= last
    requires Advances(Some(last), recovery.nextRecordSequence, segments[last] != [])
    modifies recovery.engine
    ensures match Reindex(old(recovery.Value()).published)
            case Err(error) => r == Err(SegmentRecovery(last, false, InstallFailure(None, 0, error)))
            case Ok(p) =>
              && r.Ok? && r.value.wal.target == target && r.value.format == f
              && r.value.Whole()
                 == System(Cleaned(disk, segments), Some(Live(p, recovery.nextRecordSequence, last, false)))
              && (Coherent(p.state) ==> r.value.Valid())
  {
    hide WellFormed;
    hide Latest;
    hide MinimumSequence;
    hide Reindex;
    hide Coherent;
    hide ValidTimelines;
    var finished := recovery.Finish(0);
    if finished.Err? {
      return Err(SegmentRecovery(last, false, finished.error));
    }
    var live := RemoveFiles(segments, obsolete);
    assert live == Cleaned(disk, segments).segments;
    var wal := new SegmentedWal(f.hash, f.max, target, disk.(segments := live), last, recovery.nextRecordSequence);
    var database := new Database(f, recovery.engine, wal, recovery.nextRecordSequence);
    r := Ok(database);
  }
}
