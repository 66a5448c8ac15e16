/** The validating loops of recovery: storing entities in identity order and checking event sequences. */
module Installation {
  import opened Results
  import opened Domain
  import opened IdentityOrder
  import opened Transitions
  import opened EngineInvariants
  import opened EngineLedger
  import opened Replay
  import opened Snapshots

  // ---- A failed prefix fails the whole ----

  lemma {:induction false} PoolsFail(pools: map<PoolId, Pool>, changed: seq<Pool>, k: nat)
    requires k <= |changed| && InsertPools(pools, changed[..k]).Err?
    ensures InsertPools(pools, changed) == InsertPools(pools, changed[..k])
  {
    if k == |changed| {
      assert changed[..k] == changed;
    } else {
      var n := |changed| - 1;
      assert changed[..n][..k] == changed[..k];
      PoolsFail(pools, changed[..n], k);
    }
  }

  lemma {:induction false} PromisesFail(promises: map<PromiseId, Promise>, changed: seq<Promise>, final: int, k: nat)
    requires k <= |changed| && InsertPromises(promises, changed[..k], final).Err?
    ensures InsertPromises(promises, changed, final) == InsertPromises(promises, changed[..k], final)
  {
    if k == |changed| {
      assert changed[..k] == changed;
    } else {
      var n := |changed| - 1;
      assert changed[..n][..k] == changed[..k];
      PromisesFail(promises, changed[..n], final, k);
    }
  }

  lemma {:induction false} ScanFails(current: int, events: seq<Event>, k: nat)
    requires k <= |events| && ScanNumbers(current, events[..k]).Err?
    ensures ScanNumbers(current, events) == ScanNumbers(current, events[..k])
  {
    if k == |events| {
      assert events[..k] == events;
    } else {
      var n := |events| - 1;
      assert events[..n][..k] == events[..k];
      ScanFails(current, events[..n], k);
    }
  }

  lemma {:induction false} RestoredPromisesFail(pools: map<PoolId, Pool>, promises: seq<Promise>, sequence: int, k: nat)
    requires k <= |promises| && RestorePromises(pools, promises[..k], sequence).Err?
    ensures RestorePromises(pools, promises, sequence) == RestorePromises(pools, promises[..k], sequence)
  {
    hide PoolsExist;
    if k == |promises| {
      assert promises[..k] == promises;
    } else {
      var n := |promises| - 1;
      assert promises[..n][..k] == promises[..k];
      RestoredPromisesFail(pools, promises[..n], sequence, k);
    }
  }

  lemma {:induction false} CheckedEventsFail(st: EngineState, events: seq<Event>, k: nat)
    requires k <= |events| && CheckEvents(st, events[..k]).Err?
    ensures CheckEvents(st, events) == CheckEvents(st, events[..k])
  {
    hide EventKnown;
    if k == |events| {
      assert events[..k] == events;
    } else {
      var n := |events| - 1;
      assert events[..n][..k] == events[..k];
      CheckedEventsFail(st, events[..n], k);
    }
  }

  lemma {:induction false} RestoredRecordsFail(st: EngineState, records: seq<SnapshotRecord>, k: nat)
    requires k <= |records| && RestoreRecords(st, records[..k]).Err?
    ensures RestoreRecords(st, records) == RestoreRecords(st, records[..k])
  {
    hide ResponseKnown;
    hide IdentityBefore;
    if k == |records| {
      assert records[..k] == records;
    } else {
      var n := |records| - 1;
      assert records[..n][..k] == records[..k];
      RestoredRecordsFail(st, records[..n], k);
    }
  }

  // ---- The loops ----

  /** Stores pools, requiring increasing identities. */
  method InsertPoolList(pools: map<PoolId, Pool>, changed: seq<Pool>)
    returns (r: Result<map<PoolId, Pool>, InstallError>)
    ensures r == InsertPools(pools, changed)
  {
    var stored := pools;
    var previousPool: Option<PoolId> := None;
    for k := 0 to |changed|
      invariant InsertPools(pools, changed[..k]) == Ok(stored)
      invariant previousPool == if k == 0 then None else Some(changed[k - 1].id)
    {
      assert changed[..k + 1][..k] == changed[..k];
      if previousPool.Some? && previousPool.value >= changed[k].id {
        PoolsFail(pools, changed, k + 1);
        return Err(EntityIdentity);
      }
      previousPool := Some(changed[k].id);
      stored := stored[changed[k].id := changed[k]];
    }
    assert changed[..|changed|] == changed;
    r := Ok(stored);
  }

  /** Stores promises, requiring increasing identities and sequences within the final one. */
  method InsertPromiseList(promises: map<PromiseId, Promise>, changed: seq<Promise>, final: int)
    returns (r: Result<map<PromiseId, Promise>, InstallError>)
    ensures r == InsertPromises(promises, changed, final)
  {
    var stored := promises;
    var previousPromise: Option<PromiseId> := None;
    for k := 0 to |changed|
      invariant InsertPromises(promises, changed[..k], final) == Ok(stored)
      invariant previousPromise == if k == 0 then None else Some(changed[k - 1].id)
    {
      assert changed[..k + 1][..k] == changed[..k];
      var p := changed[k];
      if || (previousPromise.Some? && previousPromise.value >= p.id)
         || p.createdSequence > p.updatedSequence || p.updatedSequence > final
      {
        PromisesFail(promises, changed, final, k + 1);
        return Err(DomainInvariant);
      }
      previousPromise := Some(p.id);
      stored := stored[p.id := p];
    }
    assert changed[..|changed|] == changed;
    r := Ok(stored);
  }

  /** Checks that the events continue the current sequence and end at the final one. */
  method ValidateNumbers(current: int, final: int, events: seq<Event>) returns (r: Result<(), InstallError>)
    ensures r == CheckNumbers(current, final, events)
  {
    if final < current {
      return Err(OutOfSequence);
    }
    if events == [] {
      if final != current {
        return Err(OutOfSequence);
      }
      return Ok(());
    }
    var previous := current;
    for k := 0 to |events|
      invariant ScanNumbers(current, events[..k]) == Ok(previous)
    {
      assert events[..k + 1][..k] == events[..k];
      var sequence := events[k].sequence;
      if sequence < previous {
        ScanFails(current, events, k + 1);
        return Err(OutOfSequence);
      }
      if sequence > previous {
        if previous >= U64_MAX || previous + 1 != sequence {
          ScanFails(current, events, k + 1);
          return Err(OutOfSequence);
        }
        previous := sequence;
      } else if previous == current {
        ScanFails(current, events, k + 1);
        return Err(OutOfSequence);
      }
    }
    assert events[..|events|] == events;
    if previous != final {
      return Err(OutOfSequence);
    }
    r := Ok(());
  }

  /** Checks that every event names known entities. */
  method ValidateIdentities(events: seq<Event>, pools: map<PoolId, Pool>, promises: map<PromiseId, Promise>)
    returns (valid: bool)
    ensures valid <==> EventsPlaced(events, pools, promises)
  {
    for k := 0 to |events|
      invariant EventsPlaced(events[..k], pools, promises)
    {
      if !EventPlaced(events[k], pools, promises) {
        return false;
      }
      assert events[..k + 1] == events[..k] + [events[k]];
    }
    assert events[..|events|] == events;
    valid := true;
  }

  /** Restores promises from a snapshot, in identity order and over known pools. */
  method RestorePromiseList(pools: map<PoolId, Pool>, promises: seq<Promise>, sequence: int)
    returns (r: Result<map<PromiseId, Promise>, InstallError>)
    ensures r == RestorePromises(pools, promises, sequence)
  {
    hide PoolsExist;
    var restored: map<PromiseId, Promise> := map[];
    var previousPromise: Option<PromiseId> := None;
    for k := 0 to |promises|
      invariant RestorePromises(pools, promises[..k], sequence) == Ok(restored)
      invariant previousPromise == if k == 0 then None else Some(promises[k - 1].id)
    {
      assert promises[..k + 1][..k] == promises[..k];
      var p := promises[k];
      if || (previousPromise.Some? && previousPromise.value >= p.id)
         || p.createdSequence == 0 || p.createdSequence > p.updatedSequence || p.updatedSequence > sequence
         || !PoolsExist(p.bundle, pools)
      {
        RestoredPromisesFail(pools, promises, sequence, k + 1);
        return Err(DomainInvariant);
      }
      previousPromise := Some(p.id);
      restored := restored[p.id := p];
    }
    assert promises[..|promises|] == promises;
    r := Ok(restored);
  }

  /** Checks a snapshot's events: ordered, within its sequence, and naming known entities. */
  method ValidateEvents(st: EngineState, events: seq<Event>) returns (r: Result<(), InstallError>)
    ensures r == CheckEvents(st, events)
  {
    hide EventKnown;
    var previousSequence: Option<int> := None;
    for k := 0 to |events|
      invariant CheckEvents(st, events[..k]) == Ok(())
      invariant previousSequence == if k == 0 then None else Some(events[k - 1].sequence)
    {
      assert events[..k + 1][..k] == events[..k];
      if events[k].sequence > st.sequence || (previousSequence.Some? && previousSequence.value > events[k].sequence) {
        CheckedEventsFail(st, events, k + 1);
        return Err(OutOfSequence);
      }
      previousSequence := Some(events[k].sequence);
      if !EventKnown(st, events[k]) {
        CheckedEventsFail(st, events, k + 1);
        return Err(EntityIdentity);
      }
    }
    assert events[..|events|] == events;
    r := Ok(());
  }

  /** Restores idempotency records, in identity order and with meaningful responses. */
  method RestoreRecordList(st: EngineState, records: seq<SnapshotRecord>)
    returns (r: Result<map<Identity, Record>, InstallError>)
    ensures r == RestoreRecords(st, records)
  {
    hide ResponseKnown;
    hide IdentityBefore;
    var restored: map<Identity, Record> := map[];
    var previousIdentity: Option<Identity> := None;
    for k := 0 to |records|
      invariant RestoreRecords(st, records[..k]) == Ok(restored)
      invariant previousIdentity == if k == 0 then None else Some(records[k - 1].identity)
    {
      assert records[..k + 1][..k] == records[..k];
      var record := records[k];
      if !ResponseKnown(st, record.response) {
        RestoredRecordsFail(st, records, k + 1);
        return Err(EntityIdentity);
      }
      if previousIdentity.Some? && !IdentityBefore(previousIdentity.value, record.identity) {
        RestoredRecordsFail(st, records, k + 1);
        return Err(DuplicateIdempotencyIdentity);
      }
      previousIdentity := Some(record.identity);
      restored := restored[record.identity := Record(record.digest, record.response)];
    }
    assert records[..|records|] == records;
    r := Ok(restored);
  }
}
