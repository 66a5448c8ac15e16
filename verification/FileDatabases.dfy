/** The file database: prepare, frame, persist, publish; snapshots; and opening. */
module FileDatabases {
  import opened Results
  import opened Bytes
  import opened WalRecords
  import opened WalStreams
  import opened CapacityCurves
  import opened Domain
  import opened OrderedKeys
  import opened Transitions
  import opened ActiveUsage
  import opened EngineInvariants
  import opened EngineSafety
  import opened EngineLedger
  import opened EventStamps
  import opened Batches
  import opened Replay
  import opened ReplayTheorems
  import opened Snapshots
  import opened Recovery
  import opened Engines
  import opened LogDisk
  import opened DiskSteps
  import opened CrashSafety
  import opened DatabaseRuns
  import opened EngineRecoveries
  import opened SegmentedLogs

  datatype DatabaseError =
    | Storage(error: StorageError)
    | Preparation(reason: PreparationError)
    | Indeterminate(cause: StorageError)
    | Poisoned
    | SequenceExhausted

  predicate Sequential(sequences: seq<int>, first: int) {
    forall i :: 0 <= i < |sequences| ==> sequences[i] == first + i
  }

  /** Items the codec reads back, stamped by their writer. */
  ghost predicate Recordable(f: Format, items: seq<Item>) {
    forall i :: 0 <= i < |items| ==>
                  FitsI64(items[i].timestamp) && TimestampsAgree(items[i]) && Faithful(f.codec, items[i].transition)
  }

  /** The codec reads back every item of the batch. */
  ghost predicate FaithfulGroup(f: Format, p: Published, requests: seq<Request>) {
    forall i :: 0 <= i < |Group(f, p, requests)| ==> Faithful(f.codec, Group(f, p, requests)[i].transition)
  }

  lemma RecordableWritable(f: Format, items: seq<Item>, first: int)
    requires Recordable(f, items) && Framed(f, items) && 1 <= first && first + |items| <= U64_MAX + 1
    ensures Writable(f, items) && Loggable(f, items, first)
  {
  }

  /** One more item framed behind the others. */
  lemma FramedOneMore(f: Format, items: seq<Item>, first: int, k: nat)
    requires Recordable(f, items) && k < |items| && Framed(f, items[..k + 1]) && 1 <= first
             && first + |items| <= U64_MAX + 1
    ensures Writable(f, items[..k]) && Writable(f, items[..k + 1]) && f.codec.encode(items[k].transition).Ok?
    ensures var record := LogRecord(first + k, items[k].timestamp, f.codec.encode(items[k].transition).value);
            record.Valid()
            && GroupBytes(f, items[..k + 1], first) == GroupBytes(f, items[..k], first) + Frame(f.hash, record)
  {
    hide Frame;
    hide Faithful;
    hide TimestampsAgree;
    hide Frameable;
    var all := items[..k + 1];
    var last := [items[k]];
    assert all == items[..k] + last;
    assert items[k] == all[k];
    assert Recordable(f, all) && Recordable(f, items[..k]) && Framed(f, items[..k]);
    RecordableWritable(f, items[..k], first);
    RecordableWritable(f, last, first + k);
    LoggableConcat(f, items[..k], last, first);
    var records := RecordsFor(f.codec, last, first + k);
    assert records[1..] == [];
    assert Frames(f.hash, records) == Frame(f.hash, records[0]) + Frames(f.hash, []);
  }

  /** The batch passes every check made before files are touched. */
  ghost predicate Accepts(f: Format, live: Live, requests: seq<Request>) {
    && !live.poisoned
    && (requests == [] || live.published.revision + |Group(f, live.published, requests)| <= U128_MAX)
    && var items := Group(f, live.published, requests);
       items == [] || (live.next.Some? && live.next.value + |items| <= U64_MAX + 1 && Framed(f, items))
  }

  /** What an error or a success means for the files, given what the file system did. */
  ghost predicate Explains(r: Result<seq<Response>, DatabaseError>, items: seq<Item>, outcome: BatchOutcome) {
    match r
    case Ok(responses) => outcome == if items == [] then Answered(responses) else BatchOutcome.Committed(responses)
    case Err(Indeterminate(_)) => outcome.Broken? || outcome.Unrotated?
    case Err(_) => outcome.Refused?
  }

  /** The candidate is the state after the whole batch, with its items and responses. */
  ghost predicate ReadyToPublish(f: Format, p: Published, requests: seq<Request>, prepared: PreparedBatch) {
    && prepared.items == Group(f, p, requests) && prepared.baseRevision == p.revision
    && prepared.responses == PrepareUpTo(p.state, f.digest, requests, |requests|).responses
    && prepared.candidate.Some?
    && ValidTimelines(prepared.candidate.value.timelines) && Coherent(prepared.candidate.value.Read())
    && Published(prepared.candidate.value.Read(), prepared.nextRevision)
       == PublishedAt(p, f.digest, requests, |requests|)
  }

  /** How an append leaves the files: complete, or broken in one of two ways. */
  ghost predicate AppendEnds(target: nat, before: Disk, active: int, first: int, bytes: seq<byte>, after: Disk,
                             segment: int, broken: Option<BatchOutcome>)
  {
    var (ready, last) := AppendTarget(target, before, active, first, |bytes|);
    match broken
    case None => after == AppendedTo(ready, last, bytes) && segment == last
    case Some(Broken(cut)) => cut <= |bytes| && after == AppendedTo(ready, last, bytes[..cut]) && segment == last
    case Some(Unrotated(created)) =>
      && Rotates(target, before, active, |bytes|) && segment == active
      && after == (if created then RotatedDisk(before, first) else before)
    case _ => false
  }

  /** What the file system does to one snapshot. */
  datatype SnapshotFault =
    | SnapshotWorks
    | RotationBreaks(created: bool)                 // opening the new segment fails, before or after its file exists
    | InstallBreaks                                 // encoding, writing or renaming the snapshot fails
    | CleanupBreaks(segments: nat, snapshots: nat)  // cleanup fails after that many removals

  datatype SnapshotReport = SnapshotReport(watermark: int, segmentsRemoved: int, snapshotsRemoved: int)

  /** Removes every file but one, in name order, failing after at most `limit` removals. */
  method RemoveOthers<V>(files: map<int, V>, kept: int, limit: Option<nat>) returns (left: map<int, V>, done: bool)
    requires kept in files
    ensures kept in left && forall k :: k in left ==> k in files && left[k] == files[k]
    ensures done ==> left.Keys == {kept}
    ensures limit.None? ==> done
  {
    var names := SortedKeys(files.Keys);
    hide SortedKeys;
    left, done := files, true;
    var removed := 0;
    for n := 0 to |names|
      invariant kept in left && forall k :: k in left ==> k in files && left[k] == files[k]
      invariant forall k :: k in left ==> k == kept || k in names[n..]
    {
      if names[n] != kept {
        if limit == Some(removed) {
          return left, false;
        }
        left, removed := left - {names[n]}, removed + 1;
      }
    }
    done := limit.None? || removed < limit.value;
  }

  lemma OneKey<V>(files: map<int, V>, kept: int)
    requires files.Keys == {kept}
    ensures |files| == 1
  {
    assert |files.Keys| == 1;
  }

  /** The active segment starts no later than the next record, and earlier if it has any. */
  ghost predicate Precedes(wal: SegmentedWal, next: Option<int>)
    reads wal
  {
    next.Some? ==> wal.active <= next.value && (wal.activeHasRecords ==> wal.active < next.value)
  }

  class Database {
    const format: Format
    const engine: Engine
    const wal: SegmentedWal
    var nextRecordSequence: Option<int>
    var poisoned: bool

    ghost function Current(): Live
      reads this, engine, wal
    {
      Live(Published(engine.Value(), engine.revision), nextRecordSequence, wal.active, poisoned)
    }

    ghost function Whole(): System
      reads this, engine, wal
    {
      System(wal.disk, Some(Current()))
    }

    /** The engine is sound and, while writes are enabled, the log stands where the next record goes. */
    ghost predicate Valid()
      reads this, engine, wal
    {
      && SoundHash(format.hash) && wal.hash == format.hash && wal.max == format.max && engine.digest == format.digest
      && engine.Valid()
      && (nextRecordSequence.Some? ==> 1 <= nextRecordSequence.value <= U64_MAX)
      && (!poisoned ==> wal.Valid() && wal.expectedSequence == nextRecordSequence && Precedes(wal, nextRecordSequence))
    }

    /** Attaches recovered state to its files. */
    constructor (format: Format, engine: Engine, wal: SegmentedWal, next: Option<int>)
      ensures this.format == format && this.engine == engine && this.wal == wal
      ensures nextRecordSequence == next && !poisoned
    {
      this.format, this.engine, this.wal := format, engine, wal;
      nextRecordSequence, poisoned := next, false;
    }

    /** One sequence per item, and the sequence after them. */
    method AssignSequences(count: nat) returns (r: Result<(seq<int>, Option<int>), DatabaseError>)
      requires nextRecordSequence.Some? ==> 1 <= nextRecordSequence.value <= U64_MAX
      ensures r.Err? <==> count > 0 && (nextRecordSequence.None? || nextRecordSequence.value + count > U64_MAX + 1)
      ensures r.Err? ==> r.error == SequenceExhausted
      ensures r.Ok? && count > 0 ==>
                var first := nextRecordSequence.value;
                |r.value.0| == count && Sequential(r.value.0, first) && r.value.1 == NextAfter(first, count)
    {
      var nextSequence := nextRecordSequence;
      var sequences: seq<int> := [];
      for i := 0 to count
        invariant |sequences| == i
        invariant i > 0 ==> nextRecordSequence.Some? && nextRecordSequence.value + i <= U64_MAX + 1
        invariant nextRecordSequence.Some? ==>
                    nextSequence == NextAfter(nextRecordSequence.value, i)
                    && Sequential(sequences, nextRecordSequence.value)
        invariant nextRecordSequence.None? ==> nextSequence.None?
      {
        if nextSequence.None? {
          return Err(SequenceExhausted);
        }
        sequences := sequences + [nextSequence.value];
        nextSequence := SequenceAfter(nextSequence.value);
      }
      r := Ok((sequences, nextSequence));
    }

    /** Frames every item in order, or reports the first that does not fit. */
    method FrameItems(items: seq<Item>, sequences: seq<int>) returns (r: Result<seq<byte>, StorageError>)
      requires SoundHash(format.hash) && Recordable(format, items) && items != []
      requires |sequences| == |items| && 1 <= sequences[0] && sequences[0] + |items| <= U64_MAX + 1
      requires Sequential(sequences, sequences[0])
      ensures r.Ok? <==> Framed(format, items)
      ensures r.Ok? ==> Loggable(format, items, sequences[0]) && r.value == GroupBytes(format, items, sequences[0])
    {
      hide Recordable;
      hide GroupBytes;
      hide Frameable;
      var first := sequences[0];
      var framed := new ByteBuffer();
      FramedNone(format, items, first);
      for k := 0 to |items|
        invariant fresh(framed) && Framed(format, items[..k]) && Writable(format, items[..k])
        invariant framed.bytes == GroupBytes(format, items[..k], first)
      {
        var encoded := format.codec.encode(items[k].transition);
        assert items[..k + 1][k] == items[k];
        var source :=
          if encoded.Ok? then PayloadSource(encoded.value, None) else PayloadSource([], Some(encoded.error));
        RecordableItem(format, items, k);
        assert LogRecord(sequences[k], items[k].timestamp, []).Valid();
        var pushed := framed.EncodePayloadInto(format.hash, sequences[k], items[k].timestamp, format.max, source);
        if pushed.Err? {
          assert !Framed(format, items);
          return Err(pushed.error);
        }
        FramedPushed(format, items, k);
        FramedOneMore(format, items, first, k);
      }
      assert items[..|items|] == items;
      RecordableWritable(format, items, first);
      r := Ok(framed.bytes);
    }

    /**
     Prepares the whole batch, frames it, persists it and only then publishes. Nothing is published that
     is not durable, and an uncertain write disables the database.
     */
    method ApplyBatch(requests: seq<Request>, fault: AppendFault)
      returns (r: Result<seq<Response>, DatabaseError>, ghost outcome: BatchOutcome)
      requires Valid() && ValidRequests(requests)
      requires forall k :: 0 <= k < |requests| ==> FitsI64(requests[k].now)
      requires FaithfulGroup(format, Current().published, requests)
      modifies this, engine, wal
      ensures Valid()
      ensures BatchFollows(format, wal.target, old(Whole()), requests, outcome, Whole())
      ensures Explains(r, Group(format, old(Current()).published, requests), outcome)
      ensures outcome.Refused? <==> !Accepts(format, old(Current()), requests)
      ensures old(poisoned) <==> r == Err(Poisoned)
      ensures fault.Works? && r.Err? && r.error.Indeterminate? ==> r.error.cause == SegmentLengthOverflow
    {
      hide Engine.Valid;
      hide Engine.Value;
      hide ValidRequests;
      hide FaithfulGroup;
      hide Recordable;
      hide Framed;
      hide Group;
      hide GroupBytes;
      hide Run;
      hide Responses;
      hide PublishedAt;
      hide ValidTimelines;
      hide Coherent;
      hide Rotates;
      hide PreparedFor;
      hide PrepareUpTo;
      hide NewIdentities;
      hide Loggable;
      hide BatchBytes;
      hide Appends;
      hide PublishedLive;
      hide BatchFollows;
      hide AppendEnds;
      ghost var s := Whole();
      EngineRecordable(format, engine, requests);
      RefusedFollows(format, wal.target, s, requests);
      if poisoned {
        return Err(Poisoned), Refused;
      }
      if requests == [] {
        NoRequests(format, Current().published);
        AnsweredFollows(format, wal.target, s, requests, []);
        return Ok([]), Answered([]);
      }
      var preparation := engine.PrepareBatch(requests);
      PreparedGroup(format, engine, requests, preparation);
      if preparation.Err? {
        return Err(Preparation(preparation.error)), Refused;
      }
      var prepared := preparation.value;
      if prepared.items == [] {
        AnsweredFollows(format, wal.target, s, requests, prepared.responses);
        return Ok(prepared.responses), Answered(prepared.responses);
      }
      var publishable := engine.CanPublish(prepared);
      assert publishable.Ok?;
      var assignment := AssignSequences(|prepared.items|);
      if assignment.Err? {
        return Err(assignment.error), Refused;
      }
      var (sequences, nextSequence) := assignment.value;
      var framed := FrameItems(prepared.items, sequences);
      if framed.Err? {
        return Err(Storage(framed.error)), Refused;
      }
      AcceptedAppends(format, s.live.value, requests);
      r, outcome := PersistAndPublish(prepared, framed.value, nextSequence, requests, fault);
    }

    /** Makes the framed batch durable, then publishes it; an uncertain write disables the database instead. */
    method PersistAndPublish(prepared: PreparedBatch, framed: seq<byte>, nextSequence: Option<int>,
                             ghost requests: seq<Request>, fault: AppendFault)
      returns (r: Result<seq<Response>, DatabaseError>, ghost outcome: BatchOutcome)
      requires Valid() && !poisoned && ReadyToPublish(format, Current().published, requests, prepared)
      requires Appends(format, Current(), requests) && framed == BatchBytes(format, Current(), requests)
      requires nextSequence == NextAfter(nextRecordSequence.value, |prepared.items|)
      modifies this, engine, wal
      ensures Valid()
      ensures BatchFollows(format, wal.target, old(Whole()), requests, outcome, Whole())
      ensures r.Ok? ==> outcome == BatchOutcome.Committed(r.value)
      ensures r.Err? ==> r.error.Indeterminate? && (outcome.Broken? || outcome.Unrotated?)
      ensures fault.Works? && r.Err? ==> r.error.cause == SegmentLengthOverflow
    {
      hide Engine.Valid;
      hide Engine.Value;
      hide Framed;
      hide Group;
      hide GroupBytes;
      hide PublishedAt;
      hide ValidTimelines;
      hide Coherent;
      hide BatchFollows;
      hide AppendEnds;
      hide Loggable;
      hide PrepareUpTo;
      ghost var s := Whole();
      var persisted, broken := Persist(framed, prepared.items, fault);
      if persisted.Err? {
        poisoned := true;
        BrokenFollows(format, wal.target, s, requests, broken, Whole());
        return Err(Indeterminate(persisted.error)), broken;
      }
      var responses := engine.PublishBatch(prepared);
      nextRecordSequence := nextSequence;
      CommittedFollows(format, wal.target, s, requests, responses, Whole());
      r, outcome := Ok(responses), BatchOutcome.Committed(responses);
    }

    /**
     Rotates onto an empty segment, installs a snapshot of the published state, then removes what it
     covers; a failure before the installation leaves the old files, one after it leaves some of them.
     */
    method CreateSnapshot(fault: SnapshotFault)
      returns (r: Result<SnapshotReport, FileError>, ghost result: SnapshotOutcome)
      requires Valid()
      modifies this, wal
      ensures Valid() && SnapshotFollows(old(Whole()), result, Whole())
      ensures result.Disabled? <==> old(poisoned)
      ensures r.Ok? ==>
                && result.Installed? && r.value.watermark == Watermark(nextRecordSequence)
                && wal.disk.segments.Keys == {wal.active} && wal.disk.snapshots.Keys == {r.value.watermark}
      ensures r.Err? && fault.SnapshotWorks? ==> result.Disabled?
    {
      hide Engine.Valid;
      hide Engine.Value;
      hide Capture;
      hide SnapshotFollows;
      hide Compacted;
      hide SnapshotTarget;
      hide SnapshotRotates;
      hide ValidTimelines;
      hide Coherent;
      ghost var s := Whole();
      EarlyFollows(s, s, Disabled);
      if poisoned {
        return Err(SnapshotPoisoned), Disabled;
      }
      var watermark := if nextRecordSequence.Some? then nextRecordSequence.value - 1 else U64_MAX;
      var emptied := MoveToEmptySegment(fault);
      if emptied.Err? {
        EarlyFollows(s, Whole(), RotationFailed(fault.created));
        return Err(emptied.error), RotationFailed(fault.created);
      }
      var snapshot := engine.CaptureSnapshot();
      if fault.InstallBreaks? {
        EarlyFollows(s, Whole(), NotInstalled);
        return Err(FileIo), NotInstalled;
      }
      wal.disk := wal.disk.(snapshots := wal.disk.snapshots[watermark := snapshot]);
      ghost var installed := wal.disk;
      var cleaned := Compact(watermark, fault);
      InstalledFollows(s, Whole(), installed);
      if cleaned.Err? {
        return Err(cleaned.error), Installed;
      }
      r, result := Ok(cleaned.value), Installed;
    }

    /** Rotates if the active segment has records, so that the snapshot covers every other segment. */
    method MoveToEmptySegment(fault: SnapshotFault) returns (r: Result<(), FileError>)
      requires Valid() && !poisoned
      modifies wal
      ensures Valid()
      ensures r.Ok? ==> (wal.disk, wal.active) == SnapshotTarget(old(wal.disk), old(Current()))
      ensures r.Err? ==>
                && fault.RotationBreaks? && SnapshotRotates(old(wal.disk), old(Current()))
                && wal.active == old(wal.active)
                && wal.disk
                   == (if fault.created then SnapshotTarget(old(wal.disk), old(Current())).0 else old(wal.disk))
    {
      hide Engine.Valid;
      hide Engine.Value;
      if nextRecordSequence.Some? && wal.activeHasRecords {
        var rotated :=
          wal.Rotate(nextRecordSequence.value, if fault.RotationBreaks? then CreateFails(fault.created) else Works);
        if rotated.Err? {
          return Err(FileIo);
        }
      }
      r := Ok(());
    }

    /** Removes every segment but the active one, then every snapshot but the given one. */
    method Compact(watermark: int, fault: SnapshotFault) returns (r: Result<SnapshotReport, FileError>)
      requires wal.Valid() && watermark in wal.disk.snapshots
      modifies wal`disk
      ensures wal.Valid() && Compacted(old(wal.disk), wal.disk, wal.active, watermark)
      ensures r.Ok? ==>
                && r.value.watermark == watermark
                && wal.disk.segments.Keys == {wal.active} && wal.disk.snapshots.Keys == {watermark}
                && r.value.segmentsRemoved == |old(wal.disk).segments| - 1
                && r.value.snapshotsRemoved == |old(wal.disk).snapshots| - 1
      ensures r.Err? ==> fault.CleanupBreaks?
    {
      var segments, segmentsDone :=
        RemoveOthers(wal.disk.segments, wal.active, if fault.CleanupBreaks? then Some(fault.segments) else None);
      var segmentsRemoved := |wal.disk.segments| - |segments|;
      wal.disk := wal.disk.(segments := segments);
      if !segmentsDone {
        return Err(FileIo);
      }
      var snapshots, snapshotsDone :=
        RemoveOthers(wal.disk.snapshots, watermark, if fault.CleanupBreaks? then Some(fault.snapshots) else None);
      var snapshotsRemoved := |wal.disk.snapshots| - |snapshots|;
      wal.disk := wal.disk.(snapshots := snapshots);
      if !snapshotsDone {
        return Err(FileIo);
      }
      OneKey(segments, wal.active);
      OneKey(snapshots, watermark);
      r := Ok(SnapshotReport(watermark, segmentsRemoved, snapshotsRemoved));
    }

    /** Appends the framed batch and synchronizes it. */
    method Persist(bytes: seq<byte>, ghost items: seq<Item>, fault: AppendFault)
      returns (r: Result<(), StorageError>, ghost broken: BatchOutcome)
      requires SoundHash(format.hash) && wal.hash == format.hash && wal.max == format.max
      requires wal.Valid() && nextRecordSequence.Some? && wal.expectedSequence == nextRecordSequence
      requires items != [] && Loggable(format, items, nextRecordSequence.value)
      requires bytes == GroupBytes(format, items, nextRecordSequence.value)
      modifies wal
      ensures r.Ok? ==>
                && AppendEnds(wal.target, old(wal.disk), old(wal.active), nextRecordSequence.value, bytes, wal.disk,
                              wal.active, None)
                && wal.Valid() && wal.expectedSequence == NextAfter(nextRecordSequence.value, |items|)
                && (wal.active == old(wal.active) || wal.active == nextRecordSequence.value)
      ensures r.Err? ==>
                && AppendEnds(wal.target, old(wal.disk), old(wal.active), nextRecordSequence.value, bytes, wal.disk,
                              wal.active, Some(broken))
                && (fault.Works? ==> r.error == SegmentLengthOverflow)
    {
      hide GroupBytes;
      hide Loggable;
      hide ReadAll;
      hide Rotates;
      hide AppendedTo;
      hide RotatedDisk;
      var first := nextRecordSequence.value;
      GroupReads(format, items, first);
      ghost var rotates := Rotates(wal.target, wal.disk, wal.active, |bytes|);
      ghost var overflows := wal.activeLen + |bytes| > U64_MAX;
      NothingAppended(wal.disk, wal.active);
      assert bytes[..0] == [] && bytes[..|bytes|] == bytes;
      r := wal.Append(bytes, fault);
      broken := if rotates && (overflows || fault.CreateFails?)
                then Unrotated(!overflows && fault.CreateFails? && fault.created)
                else if overflows then Broken(0)
                else if fault.WriteFails? then Broken(Min(fault.cut, |bytes|))
                else Broken(|bytes|);
      if r.Ok? && fault.SyncFails? {
        r := Err(Io);
      }
    }
  }

  lemma RefusedFollows(f: Format, target: nat, s: System, requests: seq<Request>)
    requires s.live.Some?
    ensures BatchFollows(f, target, s, requests, Refused, s)
  {
    hide Group;
  }

  lemma AnsweredFollows(f: Format, target: nat, s: System, requests: seq<Request>, responses: seq<Response>)
    requires s.live.Some? && !s.live.value.poisoned && Group(f, s.live.value.published, requests) == []
    requires responses == PrepareUpTo(s.live.value.published.state, f.digest, requests, |requests|).responses
    ensures BatchFollows(f, target, s, requests, Answered(responses), s)
  {
    hide Group;
    hide PrepareUpTo;
  }

  /** A batch that reached the files: accepted, with something to append. */
  ghost predicate Persisted(f: Format, target: nat, s: System, requests: seq<Request>, broken: Option<BatchOutcome>,
                            s': System)
  {
    && s.live.Some? && s'.live.Some?
    && var live := s.live.value;
       Appends(f, live, requests)
       && AppendEnds(target, s.disk, live.active, live.next.value, BatchBytes(f, live, requests), s'.disk,
                     s'.live.value.active, broken)
  }

  lemma AcceptedAppends(f: Format, live: Live, requests: seq<Request>)
    requires Accepts(f, live, requests) && Group(f, live.published, requests) != []
    requires Loggable(f, Group(f, live.published, requests), live.next.value)
    ensures Appends(f, live, requests)
    ensures BatchBytes(f, live, requests) == GroupBytes(f, Group(f, live.published, requests), live.next.value)
  {
    hide Group;
    hide GroupBytes;
    hide Framed;
    hide Loggable;
  }

  lemma BrokenFollows(f: Format, target: nat, s: System, requests: seq<Request>, broken: BatchOutcome, s': System)
    requires Persisted(f, target, s, requests, Some(broken), s')
    requires s'.live.value == s.live.value.(active := s'.live.value.active, poisoned := true)
    ensures BatchFollows(f, target, s, requests, broken, s') && (broken.Broken? || broken.Unrotated?)
  {
    hide Appends;
    hide Group;
    hide GroupBytes;
    hide AppendedTo;
    hide Rotates;
  }

  lemma CommittedFollows(f: Format, target: nat, s: System, requests: seq<Request>, responses: seq<Response>,
                         s': System)
    requires Persisted(f, target, s, requests, None, s')
    requires responses == PrepareUpTo(s.live.value.published.state, f.digest, requests, |requests|).responses
    requires s'.live.value == PublishedLive(f, s.live.value, requests, s'.live.value.active)
    ensures BatchFollows(f, target, s, requests, BatchOutcome.Committed(responses), s')
  {
    hide Appends;
    hide Group;
    hide GroupBytes;
    hide AppendedTo;
    hide Rotates;
    hide PrepareUpTo;
    hide PublishedLive;
  }

  /** How a snapshot ends before its file is renamed into place. */
  lemma EarlyFollows(s: System, s': System, result: SnapshotOutcome)
    requires s.live.Some? && s'.live.Some?
    ensures result.Disabled? && s.live.value.poisoned && s' == s ==> SnapshotFollows(s, result, s')
    ensures var (disk, active) := SnapshotTarget(s.disk, s.live.value);
            && (result.RotationFailed? && !s.live.value.poisoned && SnapshotRotates(s.disk, s.live.value)
                && s' == System(if result.created then disk else s.disk, s.live)
                ==> SnapshotFollows(s, result, s'))
            && (result.NotInstalled? && !s.live.value.poisoned
                && s' == System(disk, Some(s.live.value.(active := active)))
                ==> SnapshotFollows(s, result, s'))
  {
  }

  lemma InstalledFollows(s: System, s': System, installed: Disk)
    requires s.live.Some? && !s.live.value.poisoned && s'.live.Some?
    requires var (disk, active) := SnapshotTarget(s.disk, s.live.value);
             && s'.live == Some(s.live.value.(active := active))
             && installed
                == disk.(snapshots := disk.snapshots[Watermark(s.live.value.next) := Capture(s.live.value.published)])
    requires Compacted(installed, s'.disk, s'.live.value.active, Watermark(s.live.value.next))
    ensures SnapshotFollows(s, Installed, s')
  {
    hide Capture;
    hide Compacted;
  }

  lemma NothingAppended(disk: Disk, segment: int)
    ensures AppendedTo(disk, segment, []) == disk
  {
    if segment in disk.segments {
      assert disk.segments[segment] + [] == disk.segments[segment];
      assert disk.segments[segment := disk.segments[segment]] == disk.segments;
    }
  }

  /** A framed group reads back whole. */
  lemma GroupReads(f: Format, items: seq<Item>, first: int)
    requires SoundHash(f.hash) && Loggable(f, items, first) && items != []
    ensures var read := ReadAll(f.hash, f.max, Some(first), GroupBytes(f, items, first), 0);
            read.failure == None && read.records != [] && read.records[0].sequence == first
            && read.next == NextAfter(first, |items|)
  {
    hide ReadAll;
    hide Frames;
    hide LogRecord.Valid;
    RecordsConsecutive(f, items, first);
    StreamRoundTrip(f.hash, f.max, RecordsFor(f.codec, items, first), first);
  }

  /** What preparing a batch says about its group. */
  lemma PreparedGroup(f: Format, engine: Engine, requests: seq<Request>,
                      prepared: Result<PreparedBatch, PreparationError>)
    requires engine.Valid() && engine.digest == f.digest && ValidRequests(requests)
    requires prepared.Err? <==> engine.revision + |NewIdentities(engine.Value(), requests, |requests|)| > U128_MAX
    requires prepared.Ok?
             ==> PreparedFor(prepared.value, Published(engine.Value(), engine.revision), f.digest, requests)
    ensures var p := Published(engine.Value(), engine.revision);
            && (prepared.Err? <==> p.revision + |Group(f, p, requests)| > U128_MAX)
            && (prepared.Ok? ==> ReadyToPublish(f, p, requests, prepared.value))
  {
    hide Coherent;
    hide ValidTimelines;
    hide PrepareUpTo;
    hide NewIdentities;
    hide ValidRequests;
    hide Run;
    hide Responses;
    var p := Published(engine.Value(), engine.revision);
    ItemsCount(p, f.digest, requests, |requests|);
    if prepared.Ok? {
      PrepareRefinesApply(p, f.digest, requests);
    }
  }

  lemma GroupRecordable(f: Format, p: Published, requests: seq<Request>)
    requires ValidRequests(requests) && (forall k :: 0 <= k < |requests| ==> FitsI64(requests[k].now))
    requires Coherent(p.state) && FaithfulGroup(f, p, requests)
    ensures Recordable(f, Group(f, p, requests))
  {
    hide PrepareUpTo;
    hide Operation.Valid;
    hide Faithful;
    ItemsStamped(p.state, f.digest, requests, |requests|);
    var items := Group(f, p, requests);
    forall i | 0 <= i < |items|
      ensures FitsI64(items[i].timestamp) && TimestampsAgree(items[i])
    {
      assert ItemStamped(items[i], requests);
    }
  }

  lemma EngineRecordable(f: Format, engine: Engine, requests: seq<Request>)
    requires ValidRequests(requests) && (forall k :: 0 <= k < |requests| ==> FitsI64(requests[k].now))
    requires engine.Valid() && FaithfulGroup(f, Published(engine.Value(), engine.revision), requests)
    ensures Recordable(f, Group(f, Published(engine.Value(), engine.revision), requests))
  {
    hide Coherent;
    hide ValidTimelines;
    hide Recordable;
    hide FaithfulGroup;
    GroupRecordable(f, Published(engine.Value(), engine.revision), requests);
  }

  lemma NoRequests(f: Format, p: Published)
    ensures Group(f, p, []) == [] && PrepareUpTo(p.state, f.digest, [], 0).responses == []
  {
  }

  lemma FramedNone(f: Format, items: seq<Item>, first: int)
    requires 1 <= first <= U64_MAX + 1
    ensures Framed(f, items[..0]) && Writable(f, items[..0]) && GroupBytes(f, items[..0], first) == []
  {
    assert items[..0] == [];
    NoBytes(f, first);
  }

  lemma RecordableItem(f: Format, items: seq<Item>, k: nat)
    requires Recordable(f, items) && k < |items|
    ensures FitsI64(items[k].timestamp)
  {
  }

  lemma FramedPushed(f: Format, items: seq<Item>, k: nat)
    requires k < |items| && Framed(f, items[..k]) && f.codec.encode(items[k].transition).Ok?
    requires Frameable(|f.codec.encode(items[k].transition).value|, f.max)
    ensures Framed(f, items[..k + 1])
  {
    hide Frameable;
    assert items[..k + 1] == items[..k] + [items[k]];
  }
}
