/**
 What recovery accepts of arbitrary bytes: a stream is fed as far as its records read and install, and a
 database opens only on segments that are consecutive frames, with at most a partial tail behind the last.
 */
module RecoveryExact {
  import opened Results
  import opened Bytes
  import opened WalRecords
  import opened WalStreams
  import opened Domain
  import opened OrderedKeys
  import opened Transitions
  import opened EngineSafety
  import opened Batches
  import opened Replay
  import opened Snapshots
  import opened Recovery
  import opened LogDisk
  import opened DiskSteps
  import opened Payloads
  import opened TransitionPayloads

  // ---- One record ----

  /** The first event under another timestamp, if there is one. */
  lemma {:induction false} MismatchExact(events: seq<Event>, timestamp: int)
    ensures match MismatchedTimestamp(events, timestamp)
            case None => forall i :: 0 <= i < |events| ==> events[i].timestamp == timestamp
            case Some(found) =>
              exists i :: && 0 <= i < |events| && events[i].timestamp == found != timestamp
                          && forall j :: 0 <= j < i ==> events[j].timestamp == timestamp
  {
    if events != [] && events[0].timestamp == timestamp {
      MismatchExact(events[1..], timestamp);
      if MismatchedTimestamp(events[1..], timestamp).Some? {
        var found := MismatchedTimestamp(events[1..], timestamp).value;
        var i :| && 0 <= i < |events[1..]| && events[1..][i].timestamp == found != timestamp
                 && forall j :: 0 <= j < i ==> events[1..][j].timestamp == timestamp;
        assert events[i + 1].timestamp == found;
        forall j | 0 <= j < i + 1
          ensures events[j].timestamp == timestamp
        {
          assert j > 0 ==> events[1..][j - 1].timestamp == timestamp;
        }
      } else {
        forall i | 0 <= i < |events|
          ensures events[i].timestamp == timestamp
        {
          assert i > 0 ==> events[1..][i - 1].timestamp == timestamp;
        }
      }
    }
  }

  /** The record's payload decodes, every event carries the record's timestamp, and the transition installs. */
  ghost predicate RecordInstalls(f: Format, p: Published, record: LogRecord, after: Published) {
    && f.codec.decode(record.payload).Ok?
    && var t := f.codec.decode(record.payload).value;
       (forall i :: 0 <= i < |t.events| ==> t.events[i].timestamp == record.timestamp)
       && Install(p, f.digest, t) == Ok(after)
  }

  lemma InstallRecordExact(f: Format, p: Published, record: LogRecord, offset: nat, after: Published)
    ensures InstallRecord(f, p, record, offset) == Ok(after) <==> RecordInstalls(f, p, record, after)
  {
    hide Install, MismatchedTimestamp;
    if f.codec.decode(record.payload).Ok? {
      MismatchExact(f.codec.decode(record.payload).value.events, record.timestamp);
    }
  }

  // ---- A stream ----

  /** The records install one after another. */
  ghost predicate Installs(f: Format, p: Published, records: seq<LogRecord>, after: Published)
    decreases |records|
  {
    if records == [] then after == p
    else exists middle :: RecordInstalls(f, p, records[0], middle) && Installs(f, middle, records[1..], after)
  }

  /** The first `k` records install; then all are fed, or the next one does not install. */
  ghost predicate FedToAt(f: Format, p: Published, read: StreamRead, fed: Recovering,
                          result: Result<nat, RecoveryError>, k: nat)
  {
    && k <= |read.records| && Installs(f, p, read.records[..k], fed.published)
    && if k == |read.records|
       then fed.next == read.next
            && result == if read.failure.Some? then Err(StorageFailure(read.offset, read.failure.value))
                         else Ok(read.offset)
       else result.Err? && forall after :: !RecordInstalls(f, fed.published, read.records[k], after)
  }

  /** Where feeding stops: at the end, at bytes that do not read, or at a record that does not install. */
  ghost predicate FedTo(f: Format, p: Published, read: StreamRead, fed: Recovering,
                        result: Result<nat, RecoveryError>)
  {
    exists k: nat :: FedToAt(f, p, read, fed, result, k)
  }

  lemma FedAtOnce(f: Format, p: Published, read: StreamRead, fed: Recovering, result: Result<nat, RecoveryError>)
    requires fed.published == p
    requires if read.records == []
             then fed.next == read.next
                  && result == (if read.failure.Some? then Err(StorageFailure(read.offset, read.failure.value))
                                else Ok(read.offset))
             else result.Err? && forall after :: !RecordInstalls(f, p, read.records[0], after)
    ensures FedTo(f, p, read, fed, result)
  {
    hide RecordInstalls;
    assert read.records[..0] == [];
    assert Installs(f, p, [], p);
    assert FedToAt(f, p, read, fed, result, 0);
  }

  lemma FedAfterFirst(f: Format, p: Published, middle: Published, read: StreamRead, rest: StreamRead, fed: Recovering,
                      result: Result<nat, RecoveryError>)
    requires read.records != [] && rest == read.(records := read.records[1..])
    requires RecordInstalls(f, p, read.records[0], middle) && FedTo(f, middle, rest, fed, result)
    ensures FedTo(f, p, read, fed, result)
  {
    hide RecordInstalls;
    var k: nat :| FedToAt(f, middle, rest, fed, result, k);
    var first := read.records[..k + 1];
    assert first[0] == read.records[0] && first[1..] == rest.records[..k];
    assert Installs(f, p, first, fed.published);
    assert FedToAt(f, p, read, fed, result, k + 1);
  }

  /** Feeding any bytes installs the records that read, in order, until one does not install. */
  lemma {:induction false} FeedReads(f: Format, p: Published, expected: Option<int>, bytes: seq<byte>, offset: nat)
    ensures var (fed, result) := FeedFrom(f, p, expected, bytes, offset);
            FedTo(f, p, ReadAll(f.hash, f.max, expected, bytes, offset), fed, result)
    decreases |bytes|
  {
    hide Install, ReadRecord, FedTo, RecordInstalls, InstallRecord;
    var next := ReadRecord(f.hash, f.max, expected, bytes, offset);
    var read := ReadAll(f.hash, f.max, expected, bytes, offset);
    var (fed, result) := FeedFrom(f, p, expected, bytes, offset);
    if next.Ok? && next.value.Some? {
      var (record, n) := next.value.value;
      var installed := InstallRecord(f, p, record, offset);
      forall after
        ensures RecordInstalls(f, p, record, after) <==> installed == Ok(after)
      {
        InstallRecordExact(f, p, record, offset, after);
      }
      if installed.Ok? {
        FeedReads(f, installed.value, SequenceAfter(record.sequence), bytes[n..], offset + n);
        var rest := ReadAll(f.hash, f.max, SequenceAfter(record.sequence), bytes[n..], offset + n);
        FedAfterFirst(f, p, installed.value, read, rest, fed, result);
      } else {
        FedAtOnce(f, p, read, fed, result);
      }
    } else {
      FedAtOnce(f, p, read, fed, result);
    }
  }

  // ---- A segment ----

  /** The codec never mistakes a complete payload for a partial tail. */
  ghost predicate ReportsNoTail(codec: TransitionCodec) {
    forall bytes :: codec.decode(bytes).Err? ==> !codec.decode(bytes).error.PartialTail?
  }

  /** Valid records numbered from `first`. */
  ghost predicate NumberedFrom(records: seq<LogRecord>, first: int) {
    forall i :: 0 <= i < |records| ==> records[i].Valid() && records[i].sequence == first + i
  }

  lemma {:induction false} NextOf(hash: Hash, max: nat, expected: Option<int>, bytes: seq<byte>, offset: nat)
    ensures var read := ReadAll(hash, max, expected, bytes, offset);
            read.next == if read.records == [] then expected
                         else SequenceAfter(read.records[|read.records| - 1].sequence)
    decreases |bytes|
  {
    hide ReadRecord;
    var next := ReadRecord(hash, max, expected, bytes, offset);
    if next.Ok? && next.value.Some? {
      var (record, n) := next.value.value;
      NextOf(hash, max, SequenceAfter(record.sequence), bytes[n..], offset + n);
    }
  }

  /** A record that does not install is never reported as a partial tail. */
  lemma RefusedIsNoTail(f: Format, p: Published, record: LogRecord, offset: nat)
    requires ReportsNoTail(f.codec) && InstallRecord(f, p, record, offset).Err?
    ensures var error := InstallRecord(f, p, record, offset).error;
            !(error.StorageFailure? && error.source.PartialTail?)
  {
    hide Install, MismatchedTimestamp;
  }

  lemma {:induction false} TailIsUnread(f: Format, p: Published, expected: Option<int>, bytes: seq<byte>, offset: nat)
    requires ReportsNoTail(f.codec)
    requires var result := FeedFrom(f, p, expected, bytes, offset).1;
             result.Err? && result.error.StorageFailure? && result.error.source.PartialTail?
    ensures var (fed, result) := FeedFrom(f, p, expected, bytes, offset);
            var read := ReadAll(f.hash, f.max, expected, bytes, offset);
            && Installs(f, p, read.records, fed.published) && fed.next == read.next
            && read.failure == Some(result.error.source) && read.offset == result.error.lastValidOffset
    decreases |bytes|
  {
    hide Install, ReadRecord, RecordInstalls, InstallRecord, ReportsNoTail;
    var next := ReadRecord(f.hash, f.max, expected, bytes, offset);
    if next.Ok? && next.value.Some? {
      var (record, n) := next.value.value;
      var installed := InstallRecord(f, p, record, offset);
      if installed.Ok? {
        TailIsUnread(f, installed.value, SequenceAfter(record.sequence), bytes[n..], offset + n);
        InstallRecordExact(f, p, record, offset, installed.value);
        var read := ReadAll(f.hash, f.max, expected, bytes, offset);
        var rest := ReadAll(f.hash, f.max, SequenceAfter(record.sequence), bytes[n..], offset + n);
        assert read.records == [record] + rest.records;
        assert read.records[1..] == rest.records && read.records[0] == record;
      } else {
        RefusedIsNoTail(f, p, record, offset);
      }
    }
  }

  /** What a segment held: consecutive frames that install, and behind the last segment's perhaps a partial tail. */
  ghost predicate SegmentRead(f: Format, bytes: seq<byte>, sealed: bool, key: int, before: Published,
                              records: seq<LogRecord>, after: Published)
  {
    && NumberedFrom(records, key) && Installs(f, before, records, after)
    && var held := Frames(f.hash, records);
       && held <= bytes
       && (bytes != held ==>
             && !sealed
             && var read := ReadAll(f.hash, f.max, Some(key), bytes, 0);
                read.records == records && read.failure.Some? && read.failure.value.PartialTail?)
  }

  lemma SegmentSound(f: Format, earlier: Feeding, key: int, sealed: bool) returns (records: seq<LogRecord>)
    requires SoundHash(f.hash) && ReportsNoTail(f.codec) && FeedSegment(f, earlier, key, sealed).Ok?
    ensures earlier.recovering.next == Some(key) && key in earlier.segments
    ensures var fed := FeedSegment(f, earlier, key, sealed).value;
            && SegmentRead(f, earlier.segments[key], sealed, key, earlier.recovering.published, records,
                           fed.recovering.published)
            && fed.segments == earlier.segments[key := Frames(f.hash, records)]
            && (records != [] ==> fed.recovering.next == SequenceAfter(key + |records| - 1))
            && (records == [] ==> fed.recovering.next == Some(key))
  {
    hide FeedFrom, ReadAll, FedTo, Installs, Frames, ReportsNoTail;
    var p, bytes := earlier.recovering.published, earlier.segments[key];
    var read := ReadAll(f.hash, f.max, Some(key), bytes, 0);
    var (fed, result) := FeedFrom(f, p, Some(key), bytes, 0);
    records := read.records;
    ReadAllExact(f.hash, f.max, Some(key), bytes, 0);
    NextOf(f.hash, f.max, Some(key), bytes, 0);
    if result.Ok? {
      FeedReads(f, p, Some(key), bytes, 0);
      FedWhole(f, p, read, fed, result);
      assert bytes[..|bytes|] == bytes;
      assert earlier.segments[key := bytes] == earlier.segments;
    } else {
      TailIsUnread(f, p, Some(key), bytes, 0);
    }
  }

  lemma FedWhole(f: Format, p: Published, read: StreamRead, fed: Recovering, result: Result<nat, RecoveryError>)
    requires FedTo(f, p, read, fed, result) && result.Ok?
    ensures Installs(f, p, read.records, fed.published) && fed.next == read.next
    ensures read.failure == None && result == Ok(read.offset)
  {
    hide RecordInstalls, Installs;
    var k: nat :| FedToAt(f, p, read, fed, result, k);
    assert read.records[..k] == read.records;
  }

  // ---- Opening ----

  /** One segment: what it held, and what is left of it. */
  ghost predicate OneRead(f: Format, segments: map<int, seq<byte>>, left: map<int, seq<byte>>, sealed: bool, key: int,
                          before: Published, log: seq<LogRecord>, after: Published)
  {
    && key in segments && key in left && SegmentRead(f, segments[key], sealed, key, before, log, after)
    && left[key] == Frames(f.hash, log)
  }

  /** What each segment in turn held, and the states between them. */
  ghost predicate SegmentsRead(f: Format, start: Recovering, segments: map<int, seq<byte>>, keys: seq<int>, n: nat,
                               fed: Feeding, logs: seq<seq<LogRecord>>, states: seq<Published>)
    requires n <= |keys|
  {
    && |logs| == n && |states| == n + 1 && states[0] == start.published && states[n] == fed.recovering.published
    && (forall i :: 0 <= i < n ==>
                      OneRead(f, segments, fed.segments, i + 1 < |keys|, keys[i], states[i], logs[i], states[i + 1]))
    && (n > 0 ==> start.next == Some(keys[0]))
    && (forall i :: 0 < i < n ==> keys[i] == keys[i - 1] + |logs[i - 1]|)
    && (forall k :: k in segments && k !in keys[..n] ==> k in fed.segments && fed.segments[k] == segments[k])
    && fed.segments.Keys == segments.Keys
    && fed.recovering.next == if n == 0 then start.next
                              else if logs[n - 1] == [] then Some(keys[n - 1])
                              else SequenceAfter(keys[n - 1] + |logs[n - 1]| - 1)
  }

  lemma NoneRead(f: Format, start: Recovering, segments: map<int, seq<byte>>, keys: seq<int>)
    ensures SegmentsRead(f, start, segments, keys, 0, Feeding(start, segments), [], [start.published])
  {
  }

  lemma OneMoreRead(f: Format, start: Recovering, segments: map<int, seq<byte>>, keys: seq<int>, n: nat,
                    earlier: Feeding, logs: seq<seq<LogRecord>>, states: seq<Published>)
    returns (log: seq<LogRecord>)
    requires SoundHash(f.hash) && ReportsNoTail(f.codec) && StrictlyIncreasing(keys) && n < |keys|
    requires SegmentsRead(f, start, segments, keys, n, earlier, logs, states)
    requires FeedSegment(f, earlier, keys[n], n + 1 < |keys|).Ok?
    ensures var fed := FeedSegment(f, earlier, keys[n], n + 1 < |keys|).value;
            SegmentsRead(f, start, segments, keys, n + 1, fed, logs + [log], states + [fed.recovering.published])
  {
    hide FeedSegment, SegmentRead, Frames, ReportsNoTail, OneRead;
    var key := keys[n];
    log := SegmentSound(f, earlier, key, n + 1 < |keys|);
    var fed := FeedSegment(f, earlier, key, n + 1 < |keys|).value;
    NewKey(keys, n);
    LastRead(f, segments, earlier, fed, n + 1 < |keys|, key, states[n], log);
    var logs', states' := logs + [log], states + [fed.recovering.published];
    forall i | 0 <= i < n + 1
      ensures OneRead(f, segments, fed.segments, i + 1 < |keys|, keys[i], states'[i], logs'[i], states'[i + 1])
    {
      if i < n {
        ReadStays(f, segments, earlier.segments, fed.segments, i + 1 < |keys|, keys[i], states[i], logs[i],
                  states[i + 1]);
      }
    }
  }

  lemma NewKey(keys: seq<int>, n: nat)
    requires StrictlyIncreasing(keys) && n < |keys|
    ensures keys[..n + 1] == keys[..n] + [keys[n]] && keys[n] !in keys[..n]
    ensures forall i :: 0 <= i < n ==> keys[i] != keys[n]
  {
  }

  lemma ReadStays(f: Format, segments: map<int, seq<byte>>, left: map<int, seq<byte>>, after: map<int, seq<byte>>,
                  sealed: bool, key: int, before: Published, log: seq<LogRecord>, state: Published)
    requires OneRead(f, segments, left, sealed, key, before, log, state)
    requires key in left ==> key in after && after[key] == left[key]
    ensures OneRead(f, segments, after, sealed, key, before, log, state)
  {
    hide SegmentRead, Frames;
  }

  lemma LastRead(f: Format, segments: map<int, seq<byte>>, earlier: Feeding, fed: Feeding, sealed: bool, key: int,
                 before: Published, log: seq<LogRecord>)
    requires key in segments && key in earlier.segments && earlier.segments[key] == segments[key]
    requires SegmentRead(f, segments[key], sealed, key, before, log, fed.recovering.published)
    requires fed.segments == earlier.segments[key := Frames(f.hash, log)]
    ensures OneRead(f, segments, fed.segments, sealed, key, before, log, fed.recovering.published)
  {
    hide SegmentRead, Frames;
  }

  lemma {:induction false} SegmentsSound(f: Format, start: Recovering, segments: map<int, seq<byte>>, keys: seq<int>,
                                         n: nat)
    returns (logs: seq<seq<LogRecord>>, states: seq<Published>)
    requires SoundHash(f.hash) && ReportsNoTail(f.codec) && StrictlyIncreasing(keys) && n <= |keys|
    requires FeedSegments(f, start, segments, keys, n).Ok?
    ensures SegmentsRead(f, start, segments, keys, n, FeedSegments(f, start, segments, keys, n).value, logs, states)
  {
    hide FeedSegment, SegmentsRead, ReportsNoTail;
    if n == 0 {
      logs, states := [], [start.published];
      NoneRead(f, start, segments, keys);
    } else {
      logs, states := SegmentsSound(f, start, segments, keys, n - 1);
      var earlier := FeedSegments(f, start, segments, keys, n - 1).value;
      var log := OneMoreRead(f, start, segments, keys, n - 1, earlier, logs, states);
      logs, states := logs + [log],
                      states + [FeedSegment(f, earlier, keys[n - 1], n < |keys|).value.recovering.published];
    }
  }

  /** What opening makes of the segments: the state they lead to, and the files it leaves. */
  ghost predicate OpenedFrom(disk: Disk, keys: seq<int>, fed: Feeding, found: Opened) {
    && Reindex(fed.recovering.published) == Ok(found.published) && found.next == fed.recovering.next
    && found.disk.snapshots == disk.snapshots && keys != [] && found.active == LastOf(keys)
    && (forall k :: k in found.disk.segments <==> k in keys)
    && forall k :: k in keys ==>
                     k in fed.segments && k in found.disk.segments && found.disk.segments[k] == fed.segments[k]
  }

  /**
   Whatever bytes are on disk, a database that opens read its segments exactly: each is consecutive frames
   whose transitions install in order, the next segment starts where it ends, only the last may have had a
   partial tail, and that tail alone is cut off.
   */
  lemma OpenSound(f: Format, disk: Disk) returns (logs: seq<seq<LogRecord>>, states: seq<Published>, fed: Feeding)
    requires SoundHash(f.hash) && ReportsNoTail(f.codec) && Open(f, disk).Ok? && !Exhausted(disk)
    ensures Base(disk).Ok?
    ensures SegmentsRead(f, Base(disk).value, disk.segments, LiveSegments(disk), |LiveSegments(disk)|, fed, logs,
                         states)
    ensures OpenedFrom(disk, LiveSegments(disk), fed, Open(f, disk).value)
  {
    hide FeedSegments, SegmentsRead, Reindex, ReportsNoTail, Latest, MinimumSequence;
    var keys := LiveSegments(disk);
    logs, states := SegmentsSound(f, Base(disk).value, disk.segments, keys, |keys|);
    fed := FeedSegments(f, Base(disk).value, disk.segments, keys, |keys|).value;
    ReadFacts(f, Base(disk).value, disk.segments, keys, fed, logs, states);
  }

  lemma ReadFacts(f: Format, start: Recovering, segments: map<int, seq<byte>>, keys: seq<int>, fed: Feeding,
                  logs: seq<seq<LogRecord>>, states: seq<Published>)
    requires SegmentsRead(f, start, segments, keys, |keys|, fed, logs, states)
    ensures |states| == |keys| + 1 && states[|keys|] == fed.recovering.published
    ensures forall k :: k in keys ==> k in fed.segments
    ensures fed.segments.Keys == segments.Keys
  {
    hide SegmentRead, Frames;
    forall k | k in keys
      ensures k in fed.segments
    {
      var i :| 0 <= i < |keys| && keys[i] == k;
      assert OneRead(f, segments, fed.segments, i + 1 < |keys|, keys[i], states[i], logs[i], states[i + 1]);
    }
  }

  /** The transition payload codec is such a codec. */
  lemma PayloadsReportNoTail(text: Text)
    ensures ReportsNoTail(PayloadCodec(text))
  {
    hide DecodeTransition;
    forall bytes
      ensures NoTail(PayloadCodec(text).decode(bytes))
    {
      assert NoTail(DecodeTransition(text, bytes));
    }
  }
}
