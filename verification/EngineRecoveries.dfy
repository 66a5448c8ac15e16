/** Incremental recovery: streams are fed one by one into an engine without an index, which is rebuilt once. */
module EngineRecoveries {
  import opened Results
  import opened Bytes
  import opened WalRecords
  import opened WalStreams
  import opened CapacityCurves
  import opened Domain
  import opened Transitions
  import opened ActiveUsage
  import opened EngineInvariants
  import opened EngineSafety
  import opened Batches
  import opened Replay
  import opened Snapshots
  import opened Recovery
  import opened Engines
  import opened LogDisk

  /** Stored values satisfy their constructors' checks. */
  ghost predicate WellFormed(st: EngineState) {
    ValidBundles(st.promises) && forall pool :: pool in st.pools ==> ValidCurve(st.pools[pool].curve)
  }

  /** Installing well-formed effects keeps stored values well formed. */
  lemma InstallWellFormed(p: Published, digest: Operation -> seq<int>, t: DurableTransition)
    requires WellFormed(p.state) && WellFormedTransition(t) && Install(p, digest, t).Ok?
    ensures WellFormed(Install(p, digest, t).value.state)
  {
    hide ValidBundle;
    hide ValidCurve;
    hide CheckNumbers;
    hide EventsPlaced;
    hide PromisesPlaced;
    InsertedPools(p.state.pools, t.pools);
    InsertedPromises(p.state.promises, t.promises, t.finalSequence);
  }

  lemma {:induction false} InsertedPools(pools: map<PoolId, Pool>, changed: seq<Pool>)
    requires InsertPools(pools, changed).Ok?
    ensures var after := InsertPools(pools, changed).value;
            forall pool :: pool in after ==> (pool in pools && after[pool] == pools[pool]) || after[pool] in changed
  {
    if changed != [] {
      var n := |changed| - 1;
      InsertedPools(pools, changed[..n]);
      assert changed[n] in changed;
      assert forall c :: c in changed[..n] ==> c in changed;
    }
  }

  lemma {:induction false} InsertedPromises(promises: map<PromiseId, Promise>, changed: seq<Promise>, final: int)
    requires InsertPromises(promises, changed, final).Ok?
    ensures var after := InsertPromises(promises, changed, final).value;
            forall id :: id in after ==> (id in promises && after[id] == promises[id]) || after[id] in changed
  {
    if changed != [] {
      var n := |changed| - 1;
      InsertedPromises(promises, changed[..n], final);
      assert changed[n] in changed;
      assert forall c :: c in changed[..n] ==> c in changed;
    }
  }

  /** The first event timestamp that differs, searched in order. */
  method FindMismatch(events: seq<Event>, timestamp: int) returns (mismatch: Option<int>)
    ensures mismatch == MismatchedTimestamp(events, timestamp)
  {
    for k := 0 to |events|
      invariant MismatchedTimestamp(events, timestamp) == MismatchedTimestamp(events[k..], timestamp)
    {
      assert events[k..][1..] == events[k + 1..];
      if events[k].timestamp != timestamp {
        return Some(events[k].timestamp);
      }
    }
    mismatch := None;
  }

  class EngineRecovery {
    const engine: Engine
    var nextRecordSequence: Option<int>

    /** The engine and sequence so far. */
    ghost function Value(): Recovering
      reads this, engine
    {
      Recovering(Published(engine.Value(), engine.revision), nextRecordSequence)
    }

    /** Starts at an explicit sequence over supplied state, or nowhere when the sequence space is exhausted. */
    constructor (engine: Engine, expected: Option<int>)
      ensures this.engine == engine && nextRecordSequence == expected
    {
      this.engine, nextRecordSequence := engine, expected;
    }

    /** Decodes one record and installs its effects. */
    method InstallOne(f: Format, record: LogRecord, offset: nat) returns (r: Result<(), RecoveryError>)
      requires engine.digest == f.digest && SoundCodec(f.codec) && WellFormed(engine.Value())
      modifies engine
      ensures var spec := InstallRecord(f, Published(old(engine.Value()), old(engine.revision)), record, offset);
              if spec.Ok? then r == Ok(()) && Published(engine.Value(), engine.revision) == spec.value
              else r == Err(spec.error)
                   && Published(engine.Value(), engine.revision) == Published(old(engine.Value()), old(engine.revision))
      ensures WellFormed(engine.Value())
    {
      hide WellFormed;
      hide Install;
      hide WellFormedTransition;
      var decoded := f.codec.decode(record.payload);
      if decoded.Err? {
        return Err(StorageFailure(offset, decoded.error));
      }
      var t := decoded.value;
      var mismatch := FindMismatch(t.events, record.timestamp);
      if mismatch.Some? {
        return Err(TimestampMismatch(record.sequence, record.timestamp, mismatch.value, offset));
      }
      ghost var before := Published(engine.Value(), engine.revision);
      var installed := engine.InstallTransition(t);
      if installed.Err? {
        return Err(InstallFailure(Some(record.sequence), offset, installed.error));
      }
      InstallWellFormed(before, f.digest, t);
      r := Ok(());
    }

    /** Installs a complete stream record by record; effects before an error stay. */
    method Feed(f: Format, stream: seq<byte>) returns (r: Result<nat, RecoveryError>)
      requires SoundHash(f.hash) && engine.digest == f.digest && SoundCodec(f.codec) && WellFormed(engine.Value())
      modifies this, engine
      ensures (Value(), r) == Recovery.Feed(f, old(Value()), stream)
      ensures WellFormed(engine.Value())
    {
      hide WellFormed;
      hide ReadRecord;
      hide InstallRecord;
      if nextRecordSequence.None? {
        return Err(StorageFailure(0, CorruptRecord(0, Corruption.SequenceOverflow)));
      }
      var reader := new RecordReader(f.hash, f.max, stream, nextRecordSequence);
      ghost var whole := FeedFrom(f, Value().published, nextRecordSequence, stream, 0);
      var ended := false;
      while !ended
        invariant fresh(reader) && reader.position <= |stream|
        invariant reader.hash == f.hash && reader.max == f.max && reader.stream == stream
        invariant WellFormed(engine.Value()) && nextRecordSequence == reader.expectedSequence
        invariant !ended ==>
                    whole == FeedFrom(f, Value().published, nextRecordSequence, reader.Remaining(), reader.offset)
        invariant ended ==> whole == (Value(), Ok(reader.offset))
        decreases !ended, |reader.Remaining()|
      {
        var recordStart := reader.offset;
        var next := reader.ReadNext();
        if next.Err? {
          return Err(StorageFailure(recordStart, next.error));
        }
        if next.value.None? {
          ended := true;
        } else {
          nextRecordSequence := reader.expectedSequence;
          var installed := InstallOne(f, next.value.value, recordStart);
          if installed.Err? {
            return Err(installed.error);
          }
        }
      }
      r := Ok(reader.offset);
    }

    /** Rebuilds the index once, after every stream was accepted. */
    method Finish(lastValidOffset: nat) returns (r: Result<(), RecoveryError>)
      requires WellFormed(engine.Value())
      modifies engine
      ensures var spec := Reindex(old(Value()).published);
              if spec.Ok? then r == Ok(()) && Value().published == spec.value
              else r == Err(InstallFailure(None, lastValidOffset, spec.error))
      ensures r.Ok? ==> ValidTimelines(engine.timelines)
    {
      hide ValidBundles;
      hide ValidCurve;
      var rebuilt := engine.RebuildSlackTimelines();
      if rebuilt.Err? {
        return Err(InstallFailure(None, lastValidOffset, rebuilt.error));
      }
      r := Ok(());
    }
  }

  /** Recovers an engine from a complete log that begins at record one. */
  method RecoverEngine(f: Format, stream: seq<byte>) returns (r: Result<EngineRecovery, RecoveryError>)
    requires SoundHash(f.hash) && SoundCodec(f.codec)
    ensures var (fed, offset) := Recovery.Feed(f, Recovering(Genesis, Some(1)), stream);
            if offset.Err? then r == Err(offset.error)
            else if Reindex(fed.published).Err?
                    then r == Err(InstallFailure(None, offset.value, Reindex(fed.published).error))
            else r.Ok? && r.value.Value() == fed.(published := Reindex(fed.published).value)
  {
    var engine := new Engine(f.digest);
    var recovery := new EngineRecovery(engine, Some(1));
    hide Recovery.Feed;
    hide Reindex;
    var offset := recovery.Feed(f, stream);
    if offset.Err? {
      return Err(offset.error);
    }
    var finished := recovery.Finish(offset.value);
    if finished.Err? {
      return Err(finished.error);
    }
    r := Ok(recovery);
  }
}
