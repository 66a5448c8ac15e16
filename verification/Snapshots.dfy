/** Capturing authoritative state at a snapshot boundary, and restoring it with validation. */
module Snapshots {
  import opened Results
  import opened Intervals
  import opened Domain
  import opened OrderedKeys
  import opened IdentityOrder
  import opened Transitions
  import opened EngineInvariants
  import opened EngineLedger
  import opened Batches
  import opened Replay
  import opened ReplayRefinement
  import opened ReplayTheorems

  datatype SnapshotRecord = SnapshotRecord(identity: Identity, digest: seq<int>, response: Response)

  /** Authoritative state as a value; the derived index is not captured. */
  datatype EngineSnapshot = EngineSnapshot(
    pools: seq<Pool>,
    promises: seq<Promise>,
    events: seq<Event>,
    records: seq<SnapshotRecord>,
    sequence: int,
    revision: int,
    prunedThrough: int)

  function RecordsAmong(records: map<Identity, Record>, ids: seq<Identity>): seq<SnapshotRecord> {
    if ids == [] then []
    else
      var n := |ids| - 1;
      var earlier := RecordsAmong(records, ids[..n]);
      if ids[n] in records
      then earlier + [SnapshotRecord(ids[n], records[ids[n]].digest, records[ids[n]].response)] else earlier
  }

  /** Every entity in key order. */
  function Capture(p: Published): EngineSnapshot {
    EngineSnapshot(Changed(map[], p.state.pools), Changed(map[], p.state.promises), p.state.events,
                   RecordsAmong(p.state.records, SortedIdentities(p.state.records.Keys)), p.state.sequence,
                   p.revision, 0)
  }

  // ---- Restoring ----

  ghost function RestorePromises(pools: map<PoolId, Pool>, promises: seq<Promise>, sequence: int)
    : Result<map<PromiseId, Promise>, InstallError>
  {
    if promises == [] then Ok(map[])
    else
      var n := |promises| - 1;
      var p := promises[n];
      var earlier :- RestorePromises(pools, promises[..n], sequence);
      if || (n > 0 && promises[n - 1].id >= p.id)
         || p.createdSequence == 0 || p.createdSequence > p.updatedSequence || p.updatedSequence > sequence
         || !PoolsExist(p.bundle, pools)
      then Err(DomainInvariant)
      else Ok(earlier[p.id := p])
  }

  ghost function CheckEvents(st: EngineState, events: seq<Event>): Result<(), InstallError> {
    if events == [] then Ok(())
    else
      var n := |events| - 1;
      var _ :- CheckEvents(st, events[..n]);
      if events[n].sequence > st.sequence || (n > 0 && events[n - 1].sequence > events[n].sequence) then
        Err(OutOfSequence)
      else if !EventKnown(st, events[n]) then Err(EntityIdentity)
      else Ok(())
  }

  ghost function RestoreRecords(st: EngineState, records: seq<SnapshotRecord>)
    : Result<map<Identity, Record>, InstallError>
  {
    if records == [] then Ok(map[])
    else
      var n := |records| - 1;
      var earlier :- RestoreRecords(st, records[..n]);
      if !ResponseKnown(st, records[n].response) then Err(EntityIdentity)
      else if n > 0 && !IdentityBefore(records[n - 1].identity, records[n].identity) then
        Err(DuplicateIdempotencyIdentity)
      else Ok(earlier[records[n].identity := Record(records[n].digest, records[n].response)])
  }

  /** Validates a snapshot and restores it without its derived index. */
  ghost function RestoreUnindexed(snapshot: EngineSnapshot): Result<Published, InstallError> {
    if snapshot.prunedThrough != 0 then Err(DomainInvariant)
    else
      var pools :- InsertPools(map[], snapshot.pools);
      var promises :- RestorePromises(pools, snapshot.promises, snapshot.sequence);
      var st := EngineState(pools, map[], promises, snapshot.events, map[], snapshot.sequence);
      var _ :- CheckEvents(st, snapshot.events);
      var records :- RestoreRecords(st, snapshot.records);
      Ok(Published(st.(records := records), snapshot.revision))
  }

  // ---- Every captured snapshot restores ----

  lemma PoolsRestore(st: EngineState)
    requires SoundPools(st)
    ensures InsertPools(map[], Changed(map[], st.pools)) == Ok(st.pools)
  {
    hide SortedKeys;
    hide ChangedAmong;
    hide Overlay;
    hide InsertPools;
    var keys := SortedKeys(st.pools.Keys);
    var empty: map<PoolId, Pool> := map[];
    PoolsKeyed(st);
    ChangedAscending(empty, st.pools, keys, PoolKey);
    InsertPoolsOverlays(empty, Changed(empty, st.pools));
    var stored := Overlay(empty, Changed(empty, st.pools), PoolKey);
    forall k
      ensures k in stored.Keys <==> k in st.pools.Keys
      ensures k in st.pools ==> k in stored && stored[k] == st.pools[k]
    {
      OverlayChanged(empty, empty, st.pools, keys, PoolKey, k);
    }
    assert stored.Keys == st.pools.Keys;
    assert stored == st.pools;
  }

  lemma {:induction false} PromisesPass(pools: map<PoolId, Pool>, promises: seq<Promise>, sequence: int)
    requires Ascending(promises, PromiseKey)
    requires forall i :: 0 <= i < |promises| ==>
                           && PoolsExist(promises[i].bundle, pools)
                           && 1 <= promises[i].createdSequence <= promises[i].updatedSequence <= sequence
    ensures RestorePromises(pools, promises, sequence) == Ok(Overlay(map[], promises, PromiseKey))
  {
    hide PoolsExist;
    if promises != [] {
      var n := |promises| - 1;
      PromisesPass(pools, promises[..n], sequence);
      if n > 0 {
        assert PromiseKey(promises[n - 1]) < PromiseKey(promises[n]);
      }
    }
  }

  lemma PromisesRestore(st: EngineState)
    requires SoundPromises(st)
    ensures RestorePromises(st.pools, Changed(map[], st.promises), st.sequence) == Ok(st.promises)
  {
    hide SortedKeys;
    hide ChangedAmong;
    hide Overlay;
    hide RestorePromises;
    var keys := SortedKeys(st.promises.Keys);
    var empty: map<PromiseId, Promise> := map[];
    var changed := Changed(empty, st.promises);
    PromisesKeyed(st);
    ChangedAscending(empty, st.promises, keys, PromiseKey);
    forall i | 0 <= i < |changed|
      ensures PoolsExist(changed[i].bundle, st.pools)
      ensures 1 <= changed[i].createdSequence <= changed[i].updatedSequence <= st.sequence
    {
      var p := changed[i];
      assert p in changed;
      assert SoundPromise(st, st.promises[PromiseKey(p)]);
    }
    PromisesPass(st.pools, changed, st.sequence);
    var stored := Overlay(empty, changed, PromiseKey);
    forall k
      ensures k in stored.Keys <==> k in st.promises.Keys
      ensures k in st.promises ==> k in stored && stored[k] == st.promises[k]
    {
      OverlayChanged(empty, empty, st.promises, keys, PromiseKey, k);
    }
    assert stored.Keys == st.promises.Keys;
    assert stored == st.promises;
  }

  lemma {:induction false} EventsPass(st: EngineState, events: seq<Event>)
    requires forall i :: 0 <= i < |events| ==> EventKnown(st, events[i]) && events[i].sequence <= st.sequence
    requires forall i :: 0 < i < |events| ==> events[i - 1].sequence <= events[i].sequence
    ensures CheckEvents(st, events) == Ok(())
  {
    hide EventKnown;
    if events != [] {
      EventsPass(st, events[..|events| - 1]);
    }
  }

  /** Only the index and the records differ, so known entities stay known. */
  lemma SameReferences(a: EngineState, b: EngineState)
    requires a.pools == b.pools && a.promises == b.promises && a.sequence == b.sequence
    ensures forall event :: EventKnown(a, event) <==> EventKnown(b, event)
    ensures forall response :: ResponseKnown(a, response) <==> ResponseKnown(b, response)
  {
    forall response
      ensures ResponseKnown(a, response) <==> ResponseKnown(b, response)
    {
    }
  }

  /** Exactly the records of these identities. */
  ghost predicate RecordsOf(records: map<Identity, Record>, ids: seq<Identity>, restored: map<Identity, Record>) {
    && (forall identity :: identity in restored <==> identity in ids)
    && forall identity :: identity in restored ==> identity in records && restored[identity] == records[identity]
  }

  lemma RecordsOfPush(records: map<Identity, Record>, ids: seq<Identity>, last: Identity,
                      restored: map<Identity, Record>)
    requires RecordsOf(records, ids, restored) && last in records
    ensures RecordsOf(records, ids + [last], restored[last := records[last]])
  {
  }

  lemma {:induction false} RecordsShape(records: map<Identity, Record>, ids: seq<Identity>)
    requires forall i :: 0 <= i < |ids| ==> ids[i] in records
    ensures |RecordsAmong(records, ids)| == |ids|
    ensures forall i :: 0 <= i < |ids| ==> RecordsAmong(records, ids)[i].identity == ids[i]
  {
    if ids != [] {
      RecordsShape(records, ids[..|ids| - 1]);
    }
  }

  lemma {:induction false} RecordsPass(st: EngineState, records: map<Identity, Record>, ids: seq<Identity>)
    requires IdentitiesAscend(ids) && forall i :: 0 <= i < |ids| ==> ids[i] in records
    requires forall identity :: identity in records ==> ResponseKnown(st, records[identity].response)
    ensures RestoreRecords(st, RecordsAmong(records, ids)).Ok?
    ensures RecordsOf(records, ids, RestoreRecords(st, RecordsAmong(records, ids)).value)
  {
    hide ResponseKnown;
    hide IdentityBefore;
    hide RecordsOf;
    if ids == [] {
      NoRecords(st, records);
    } else {
      var n := |ids| - 1;
      var last := ids[n];
      assert ids == ids[..n] + [last];
      RecordsPass(st, records, ids[..n]);
      RecordsShape(records, ids[..n]);
      if n > 0 {
        assert IdentityBefore(ids[n - 1], ids[n]);
      }
      RestorePushed(st, RecordsAmong(records, ids[..n]),
                    SnapshotRecord(last, records[last].digest, records[last].response));
      RecordsOfPush(records, ids[..n], last, RestoreRecords(st, RecordsAmong(records, ids[..n])).value);
    }
  }

  lemma NoRecords(st: EngineState, records: map<Identity, Record>)
    ensures RestoreRecords(st, RecordsAmong(records, [])) == Ok(map[]) && RecordsOf(records, [], map[])
  {
  }

  lemma RestorePushed(st: EngineState, earlier: seq<SnapshotRecord>, last: SnapshotRecord)
    requires RestoreRecords(st, earlier).Ok? && ResponseKnown(st, last.response)
    requires earlier != [] ==> IdentityBefore(earlier[|earlier| - 1].identity, last.identity)
    ensures RestoreRecords(st, earlier + [last])
            == Ok(RestoreRecords(st, earlier).value[last.identity := Record(last.digest, last.response)])
  {
    hide ResponseKnown;
    hide IdentityBefore;
    assert (earlier + [last])[..|earlier|] == earlier;
  }

  /** Every captured snapshot passes restore validation and gives back the authoritative state. */
  lemma CaptureRestores(p: Published)
    requires Invariant(p)
    ensures RestoreUnindexed(Capture(p)) == Ok(Unindexed(p))
  {
    hide SortedIdentities;
    hide ChangedAmong;
    hide InsertPools;
    hide RestorePromises;
    hide CheckEvents;
    hide RestoreRecords;
    hide RecordsAmong;
    hide AllIndexed;
    hide Histories;
    hide EventKnown;
    hide ResponseKnown;
    var st := p.state;
    var bare := EngineState(st.pools, map[], st.promises, st.events, map[], st.sequence);
    PoolsRestore(st);
    PromisesRestore(st);
    SameReferences(st, bare);
    forall i | 0 <= i < |st.events|
      ensures EventKnown(bare, st.events[i]) && st.events[i].sequence <= st.sequence
    {
      NumberedUpTo(st.events, st.sequence, i, |st.events| - 1);
    }
    EventsPass(bare, st.events);
    var ids := SortedIdentities(st.records.Keys);
    assert forall i :: 0 <= i < |ids| ==> ids[i] in ids;
    RecordsPass(bare, st.records, ids);
    var restored := RestoreRecords(bare, RecordsAmong(st.records, ids)).value;
    forall identity
      ensures identity in restored.Keys <==> identity in st.records.Keys
    {
    }
    assert restored.Keys == st.records.Keys;
    assert restored == st.records;
  }

  /** Capturing, restoring and rebuilding the index gives the published state back. */
  lemma SnapshotRoundTrip(p: Published)
    requires Invariant(p)
    ensures RestoreUnindexed(Capture(p)).Ok? && Reindex(RestoreUnindexed(Capture(p)).value) == Ok(p)
  {
    hide Reindex;
    hide Coherent;
    hide Ledger;
    hide RecordsKnown;
    CaptureRestores(p);
    ReindexRecovers(p);
  }
}
