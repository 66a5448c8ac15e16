/**
 What recovery lets in. A transition is installed exactly when it continues the state, and changes exactly
 what it carries; a snapshot is restored exactly when it is well formed, and then capturing gives it back.
 */
module InstallChecks {
  import opened Results
  import opened Domain
  import opened OrderedKeys
  import opened IdentityOrder
  import opened Transitions
  import opened EngineInvariants
  import opened EngineLedger
  import opened Batches
  import opened Replay
  import opened Snapshots

  // ---- Event numbers ----

  /** The events start at the next sequence, repeat or follow one another, and end at the final one. */
  ghost predicate Continues(current: int, final: int, events: seq<Event>) {
    if events == [] then final == current
    else
      && events[0].sequence == current + 1 && events[|events| - 1].sequence == final
      && forall i :: 0 < i < |events| ==>
                       events[i - 1].sequence <= events[i].sequence <= events[i - 1].sequence + 1
  }

  /** A scan accepts steps of zero and one after a first step of one, and returns the last number. */
  lemma {:induction false} ScanExact(current: int, events: seq<Event>)
    requires events != [] && current <= U64_MAX
    requires forall i :: 0 <= i < |events| ==> events[i].sequence <= U64_MAX
    ensures Continues(current, events[|events| - 1].sequence, events)
            ==> ScanNumbers(current, events) == Ok(events[|events| - 1].sequence)
    ensures !Continues(current, events[|events| - 1].sequence, events)
            ==> ScanNumbers(current, events) == Err(OutOfSequence)
    ensures Continues(current, events[|events| - 1].sequence, events) ==> current < events[|events| - 1].sequence
  {
    var n := |events| - 1;
    var init := events[..n];
    if n == 0 {
      assert ScanNumbers(current, init) == Ok(current);
    } else {
      ScanExact(current, init);
      assert forall i :: 0 <= i < n ==> init[i] == events[i];
      assert Continues(current, events[n].sequence, events)
             <==> Continues(current, init[n - 1].sequence, init)
                  && init[n - 1].sequence <= events[n].sequence <= init[n - 1].sequence + 1;
    }
  }

  lemma NumbersExact(current: int, final: int, events: seq<Event>)
    requires 0 <= current <= U64_MAX && 0 <= final <= U64_MAX
    requires forall i :: 0 <= i < |events| ==> events[i].sequence <= U64_MAX
    ensures CheckNumbers(current, final, events) == if Continues(current, final, events) then Ok(())
            else Err(OutOfSequence)
  {
    hide ScanNumbers;
    if events != [] {
      ScanExact(current, events);
    }
  }

  // ---- Entities ----

  lemma {:induction false} PoolsExact(pools: map<PoolId, Pool>, changed: seq<Pool>)
    ensures InsertPools(pools, changed)
            == if Ascending(changed, PoolKey) then Ok(Overlay(pools, changed, PoolKey)) else Err(EntityIdentity)
  {
    if changed != [] {
      var n := |changed| - 1;
      PoolsExact(pools, changed[..n]);
      AscendingStep(changed, PoolKey);
    }
  }

  /** Keys ascend exactly when all but the last do and the last follows its predecessor. */
  lemma AscendingStep<V>(changed: seq<V>, key: V -> int)
    requires changed != []
    ensures var n := |changed| - 1;
            Ascending(changed, key)
            <==> Ascending(changed[..n], key) && (n > 0 ==> key(changed[n - 1]) < key(changed[n]))
  {
    var n := |changed| - 1;
    if Ascending(changed[..n], key) && (n > 0 ==> key(changed[n - 1]) < key(changed[n])) {
      forall i, j | 0 <= i < j < |changed|
        ensures key(changed[i]) < key(changed[j])
      {
        if j == n {
          assert i < n - 1 ==> key(changed[..n][i]) < key(changed[..n][n - 1]);
        } else {
          assert key(changed[..n][i]) < key(changed[..n][j]);
        }
      }
    }
    if Ascending(changed, key) {
      forall i, j | 0 <= i < j < n
        ensures key(changed[..n][i]) < key(changed[..n][j])
      {
      }
    }
  }

  ghost predicate SequencesFit(promises: seq<Promise>, final: int) {
    forall i :: 0 <= i < |promises| ==> promises[i].createdSequence <= promises[i].updatedSequence <= final
  }

  lemma {:induction false} PromisesExact(promises: map<PromiseId, Promise>, changed: seq<Promise>, final: int)
    ensures InsertPromises(promises, changed, final)
            == if Ascending(changed, PromiseKey) && SequencesFit(changed, final)
               then Ok(Overlay(promises, changed, PromiseKey)) else Err(DomainInvariant)
  {
    if changed != [] {
      var n := |changed| - 1;
      PromisesExact(promises, changed[..n], final);
      AscendingStep(changed, PromiseKey);
      assert SequencesFit(changed, final)
             <==> SequencesFit(changed[..n], final)
                  && changed[n].createdSequence <= changed[n].updatedSequence <= final;
    }
  }

  // ---- Installing ----

  /** Every claim is on a pool there is. */
  ghost predicate ClaimsPlaced(promises: map<PromiseId, Promise>, pools: map<PoolId, Pool>) {
    forall id, i :: id in promises && 0 <= i < |promises[id].bundle| ==> promises[id].bundle[i].poolId in pools
  }

  /** Every event is about a pool and promises there are. */
  ghost predicate EventsName(events: seq<Event>, pools: map<PoolId, Pool>, promises: map<PromiseId, Promise>) {
    forall i :: 0 <= i < |events| ==>
                  match events[i].data
                  case OnPool(pool) => pool in pools
                  case OnPromise(id, _) => id in promises
                  case OnDeficit(pool, _, _, ids) => pool in pools && forall id :: id in ids ==> id in promises
  }

  /** Why a transition is not installed, in the order it is noticed. */
  ghost predicate InstallRefused(p: Published, digest: Operation -> seq<int>, t: DurableTransition,
                                 error: InstallError)
  {
    var named := t.command.identity == t.identity;
    var hashed := digest(t.command.operation) == t.digest;
    var unrecorded := t.identity !in p.state.records;
    var continues := Continues(p.state.sequence, t.finalSequence, t.events);
    var pools := Ascending(t.pools, PoolKey);
    var promises := Ascending(t.promises, PromiseKey) && SequencesFit(t.promises, t.finalSequence);
    var after := Overlay(p.state.promises, t.promises, PromiseKey);
    var placed := ClaimsPlaced(after, Overlay(p.state.pools, t.pools, PoolKey));
    var room := p.revision < U128_MAX;
    match error
    case PublicationRevision => !room
    case CommandIdentity => room && !named
    case CommandHash => room && named && !hashed
    case DuplicateIdempotencyIdentity => room && named && hashed && !unrecorded
    case OutOfSequence => room && named && hashed && unrecorded && !continues
    case EntityIdentity =>
      && room && named && hashed && unrecorded && continues
      && (!pools || (promises && placed && !EventsName(t.events, Overlay(p.state.pools, t.pools, PoolKey), after)))
    case DomainInvariant => room && named && hashed && unrecorded && continues && pools && !(promises && placed)
    case IndexFailure(_) => false
  }

  /** Everything the transition carries is stored over what there was, and nothing else changes. */
  ghost predicate InstalledAs(p: Published, t: DurableTransition, after: Published) {
    && after.revision == p.revision + 1 && after.state.sequence == t.finalSequence
    && after.state.pools == Overlay(p.state.pools, t.pools, PoolKey)
    && after.state.promises == Overlay(p.state.promises, t.promises, PromiseKey)
    && after.state.events == p.state.events + t.events
    && after.state.records == p.state.records[t.identity := Record(t.digest, t.response)]
    && after.state.timelines == map[]
  }

  /** Storing entities replaces those they name, and keeps the others. */
  lemma {:induction false} OverlayExact<V>(before: map<int, V>, changed: seq<V>, key: V -> int, k: int)
    requires Ascending(changed, key)
    ensures var after := Overlay(before, changed, key);
            && (k in after <==> k in before || exists i :: 0 <= i < |changed| && key(changed[i]) == k)
            && (forall i :: 0 <= i < |changed| && key(changed[i]) == k ==> after[k] == changed[i])
            && (k in before && (forall i :: 0 <= i < |changed| ==> key(changed[i]) != k) ==> after[k] == before[k])
  {
    if changed != [] {
      var n := |changed| - 1;
      AscendingStep(changed, key);
      OverlayExact(before, changed[..n], key, k);
      assert forall i :: 0 <= i < n ==> changed[..n][i] == changed[i];
      if i :| 0 <= i < n && key(changed[i]) == k {
        assert key(changed[..n][i]) == k;
        assert key(changed[i]) < key(changed[n]);
      }
    }
  }

  lemma PlacedAgree(events: seq<Event>, promises: map<PromiseId, Promise>, pools: map<PoolId, Pool>)
    ensures PromisesPlaced(promises, pools) <==> ClaimsPlaced(promises, pools)
    ensures EventsPlaced(events, pools, promises) <==> EventsName(events, pools, promises)
  {
    if ClaimsPlaced(promises, pools) {
      forall id | id in promises
        ensures PoolsExist(promises[id].bundle, pools)
      {
      }
    }
    if EventsPlaced(events, pools, promises) {
      forall i | 0 <= i < |events|
        ensures match events[i].data
                case OnPool(pool) => pool in pools
                case OnPromise(id, _) => id in promises
                case OnDeficit(pool, _, _, ids) => pool in pools && forall id :: id in ids ==> id in promises
      {
        assert EventPlaced(events[i], pools, promises);
      }
    }
  }

  /** Sequences are 64-bit numbers. */
  ghost predicate Numbers64(current: int, t: DurableTransition) {
    && 0 <= current <= U64_MAX && 0 <= t.finalSequence <= U64_MAX
    && forall i :: 0 <= i < |t.events| ==> t.events[i].sequence <= U64_MAX
  }

  /** Installation accepts exactly a transition that nothing refuses, and stores exactly what it carries. */
  lemma InstallExact(p: Published, digest: Operation -> seq<int>, t: DurableTransition)
    requires Numbers64(p.state.sequence, t)
    ensures match Install(p, digest, t)
            case Ok(after) => InstalledAs(p, t, after) && forall error :: !InstallRefused(p, digest, t, error)
            case Err(error) => InstallRefused(p, digest, t, error)
  {
    hide CheckNumbers, InsertPools, InsertPromises, PromisesPlaced, EventsPlaced, ClaimsPlaced, EventsName, Overlay,
         Ascending, Continues, SequencesFit;
    NumbersExact(p.state.sequence, t.finalSequence, t.events);
    PoolsExact(p.state.pools, t.pools);
    PromisesExact(p.state.promises, t.promises, t.finalSequence);
    PlacedAgree(t.events, Overlay(p.state.promises, t.promises, PromiseKey), Overlay(p.state.pools, t.pools, PoolKey));
  }

  // ---- Restoring ----

  ghost predicate PromisesRestorable(pools: map<PoolId, Pool>, promises: seq<Promise>, sequence: int) {
    && Ascending(promises, PromiseKey)
    && forall i :: 0 <= i < |promises| ==>
                     && PoolsExist(promises[i].bundle, pools) && promises[i].createdSequence != 0
                     && promises[i].createdSequence <= promises[i].updatedSequence <= sequence
  }

  lemma {:induction false} RestorePromisesExact(pools: map<PoolId, Pool>, promises: seq<Promise>, sequence: int)
    ensures RestorePromises(pools, promises, sequence)
            == if PromisesRestorable(pools, promises, sequence) then Ok(Overlay(map[], promises, PromiseKey))
               else Err(DomainInvariant)
  {
    hide PoolsExist;
    if promises != [] {
      var n := |promises| - 1;
      RestorePromisesExact(pools, promises[..n], sequence);
      AscendingStep(promises, PromiseKey);
      assert forall i :: 0 <= i < n ==> promises[..n][i] == promises[i];
      var p := promises[n];
      assert PromisesRestorable(pools, promises, sequence)
             <==> PromisesRestorable(pools, promises[..n], sequence) && (n > 0 ==> promises[n - 1].id < p.id)
                  && PoolsExist(p.bundle, pools) && p.createdSequence != 0
                  && p.createdSequence <= p.updatedSequence <= sequence;
    }
  }

  /** Sequences never step back nor pass the snapshot's, and every event names known entities and versions. */
  ghost predicate EventsRestorable(st: EngineState, events: seq<Event>) {
    && (forall i :: 0 <= i < |events| ==> events[i].sequence <= st.sequence && EventKnown(st, events[i]))
    && forall i :: 0 < i < |events| ==> events[i - 1].sequence <= events[i].sequence
  }

  lemma {:induction false} CheckEventsExact(st: EngineState, events: seq<Event>)
    ensures CheckEvents(st, events).Ok? <==> EventsRestorable(st, events)
  {
    hide EventKnown;
    if events != [] {
      var n := |events| - 1;
      CheckEventsExact(st, events[..n]);
      assert forall i :: 0 <= i < n ==> events[..n][i] == events[i];
      assert EventsRestorable(st, events)
             <==> EventsRestorable(st, events[..n]) && events[n].sequence <= st.sequence && EventKnown(st, events[n])
                  && (n > 0 ==> events[n - 1].sequence <= events[n].sequence);
    }
  }

  function IdentitiesOf(records: seq<SnapshotRecord>): (ids: seq<Identity>)
    ensures |ids| == |records| && forall i :: 0 <= i < |records| ==> ids[i] == records[i].identity
  {
    seq(|records|, i requires 0 <= i < |records| => records[i].identity)
  }

  ghost predicate RecordsRestorable(st: EngineState, records: seq<SnapshotRecord>) {
    && IdentitiesAscend(IdentitiesOf(records))
    && forall i :: 0 <= i < |records| ==> ResponseKnown(st, records[i].response)
  }

  lemma IdentitiesStep(records: seq<SnapshotRecord>)
    requires records != []
    ensures var n := |records| - 1;
            IdentitiesAscend(IdentitiesOf(records))
            <==> IdentitiesAscend(IdentitiesOf(records[..n]))
                 && (n > 0 ==> IdentityBefore(records[n - 1].identity, records[n].identity))
  {
    hide IdentityBefore;
    var n := |records| - 1;
    var ids, init := IdentitiesOf(records), IdentitiesOf(records[..n]);
    assert forall i :: 0 <= i < n ==> init[i] == ids[i];
    if IdentitiesAscend(init) && (n > 0 ==> IdentityBefore(records[n - 1].identity, records[n].identity)) {
      forall i, j | 0 <= i < j < |ids|
        ensures IdentityBefore(ids[i], ids[j])
      {
        if j < n {
          assert IdentityBefore(init[i], init[j]);
        } else if i < n - 1 {
          assert IdentityBefore(init[i], init[n - 1]);
          IdentityTransitive(ids[i], ids[n - 1], ids[n]);
        }
      }
    }
    if IdentitiesAscend(ids) {
      forall i, j | 0 <= i < j < n
        ensures IdentityBefore(init[i], init[j])
      {
        assert IdentityBefore(ids[i], ids[j]);
      }
    }
  }

  lemma NoIdentities()
    ensures IdentitiesAscend(IdentitiesOf([]))
  {
  }

  lemma RestoreRecordsStep(st: EngineState, records: seq<SnapshotRecord>)
    requires records != []
    ensures var n := |records| - 1;
            var last, earlier := records[n], RestoreRecords(st, records[..n]);
            && (RestoreRecords(st, records).Ok?
                <==> earlier.Ok? && ResponseKnown(st, last.response)
                     && (n > 0 ==> IdentityBefore(records[n - 1].identity, last.identity)))
            && (RestoreRecords(st, records).Ok? ==>
                  RestoreRecords(st, records).value
                  == earlier.value[last.identity := Record(last.digest, last.response)])
  {
    hide ResponseKnown, IdentityBefore;
  }

  lemma {:induction false} RestoreRecordsAccepts(st: EngineState, records: seq<SnapshotRecord>)
    ensures RestoreRecords(st, records).Ok? <==> RecordsRestorable(st, records)
  {
    hide ResponseKnown, IdentityBefore, IdentitiesAscend, RestoreRecords;
    NoIdentities();
    if records != [] {
      var n := |records| - 1;
      RestoreRecordsAccepts(st, records[..n]);
      RestoreRecordsStep(st, records);
      IdentitiesStep(records);
      assert forall i :: 0 <= i < n ==> records[..n][i] == records[i];
      assert RecordsRestorable(st, records)
             <==> RecordsRestorable(st, records[..n]) && ResponseKnown(st, records[n].response)
                  && (n > 0 ==> IdentityBefore(records[n - 1].identity, records[n].identity));
    } else {
      NothingRestorable(st);
    }
  }

  lemma NothingRestorable(st: EngineState)
    ensures RestoreRecords(st, []) == Ok(map[])
  {
  }

  /** Exactly the listed records, each under its identity. */
  ghost predicate RecordsListed(records: seq<SnapshotRecord>, m: map<Identity, Record>) {
    && (forall identity :: identity in m <==> exists i :: 0 <= i < |records| && records[i].identity == identity)
    && forall i :: 0 <= i < |records| ==>
                     && records[i].identity in m
                     && m[records[i].identity] == Record(records[i].digest, records[i].response)
  }

  lemma ListedPush(earlier: seq<SnapshotRecord>, last: SnapshotRecord, m: map<Identity, Record>)
    requires RecordsListed(earlier, m) && forall i :: 0 <= i < |earlier| ==> earlier[i].identity != last.identity
    ensures RecordsListed(earlier + [last], m[last.identity := Record(last.digest, last.response)])
  {
    var all, after := earlier + [last], m[last.identity := Record(last.digest, last.response)];
    forall identity
      ensures identity in after <==> exists i :: 0 <= i < |all| && all[i].identity == identity
    {
      if identity in m {
        var i :| 0 <= i < |earlier| && earlier[i].identity == identity;
        assert all[i].identity == identity;
      }
      assert all[|earlier|] == last;
    }
  }

  lemma {:induction false} RestoreRecordsLists(st: EngineState, records: seq<SnapshotRecord>)
    requires RestoreRecords(st, records).Ok?
    ensures RecordsListed(records, RestoreRecords(st, records).value)
  {
    hide ResponseKnown, IdentityBefore, RestoreRecords, RecordsListed;
    if records != [] {
      var n := |records| - 1;
      RestoreRecordsStep(st, records);
      RestoreRecordsLists(st, records[..n]);
      RestoreRecordsAccepts(st, records);
      LastDiffers(records);
      ListedPush(records[..n], records[n], RestoreRecords(st, records[..n]).value);
      assert records == records[..n] + [records[n]];
    } else {
      NothingRestorable(st);
      NothingListed();
    }
  }

  lemma NothingListed()
    ensures RecordsListed([], map[])
  {
  }

  lemma LastDiffers(records: seq<SnapshotRecord>)
    requires records != [] && IdentitiesAscend(IdentitiesOf(records))
    ensures forall i :: 0 <= i < |records| - 1 ==> records[i].identity != records[|records| - 1].identity
  {
    var ids := IdentitiesOf(records);
    forall i | 0 <= i < |records| - 1
      ensures records[i].identity != records[|records| - 1].identity
    {
      assert IdentityBefore(ids[i], ids[|records| - 1]);
      IdentityTotal(ids[i], ids[|records| - 1]);
    }
  }

  /** A well-formed snapshot: entities in key order, sequences and references within what it holds. */
  ghost predicate Restorable(s: EngineSnapshot) {
    && s.prunedThrough == 0 && Ascending(s.pools, PoolKey)
    && var st := Bare(s);
       && PromisesRestorable(st.pools, s.promises, s.sequence)
       && EventsRestorable(st, s.events) && RecordsRestorable(st, s.records)
  }

  /** The entities of a snapshot, without records. */
  ghost function Bare(s: EngineSnapshot): EngineState {
    EngineState(Overlay(map[], s.pools, PoolKey), map[], Overlay(map[], s.promises, PromiseKey), s.events, map[],
                s.sequence)
  }

  lemma RestoreSteps(s: EngineSnapshot)
    ensures RestoreUnindexed(s).Ok? <==> Restorable(s)
    ensures RestoreUnindexed(s).Ok? ==>
              && RestoreRecords(Bare(s), s.records).Ok?
              && RestoreUnindexed(s).value
                 == Published(Bare(s).(records := RestoreRecords(Bare(s), s.records).value), s.revision)
  {
    hide InsertPools, RestorePromises, CheckEvents, RestoreRecords, Overlay, Ascending, PromisesRestorable,
         EventsRestorable, RecordsRestorable;
    PoolsExact(map[], s.pools);
    if Ascending(s.pools, PoolKey) {
      var pools := Overlay(map[], s.pools, PoolKey);
      RestorePromisesExact(pools, s.promises, s.sequence);
      CheckEventsExact(Bare(s), s.events);
      RestoreRecordsAccepts(Bare(s), s.records);
    }
  }

  lemma {:induction false} ChangedComplete<V>(base: map<int, V>, now: map<int, V>, keys: seq<int>, k: int)
    requires k in keys && Differs(base, now, k)
    ensures now[k] in ChangedAmong(base, now, keys)
  {
    var n := |keys| - 1;
    if keys[n] != k {
      assert k in keys[..n];
      ChangedComplete(base, now, keys[..n], k);
    }
  }

  lemma KeysApart<V>(a: seq<V>, key: V -> int, i: nat, j: nat)
    requires Ascending(a, key) && i < |a| && j < |a|
    ensures key(a[i]) == key(a[j]) ==> i == j
  {
  }

  lemma {:induction false} AscendingUnique<V>(a: seq<V>, b: seq<V>, key: V -> int)
    requires Ascending(a, key) && Ascending(b, key) && forall v :: v in a <==> v in b
    ensures a == b
  {
    var ka := seq(|a|, i requires 0 <= i < |a| => key(a[i]));
    var kb := seq(|b|, i requires 0 <= i < |b| => key(b[i]));
    forall k
      ensures k in ka <==> k in kb
    {
      if i :| 0 <= i < |ka| && ka[i] == k {
        var v := a[i];
        assert v in a;
        var j :| 0 <= j < |b| && b[j] == v;
        assert kb[j] == k;
      }
      if j :| 0 <= j < |kb| && kb[j] == k {
        var v := b[j];
        assert v in b;
        var i :| 0 <= i < |a| && a[i] == v;
        assert ka[i] == k;
      }
    }
    IncreasingUnique(ka, kb);
    assert |a| == |ka| && |b| == |kb|;
    forall i | 0 <= i < |a|
      ensures a[i] == b[i]
    {
      var v := a[i];
      assert v in a;
      var j :| 0 <= j < |b| && b[j] == v;
      assert key(b[j]) == ka[i] == kb[i] == key(b[i]);
      KeysApart(b, key, i, j);
    }
  }

  /** Entities stored from an ascending list come back as that list. */
  lemma ChangedOverlay<V>(listed: seq<V>, key: V -> int)
    requires Ascending(listed, key)
    ensures Changed(map[], Overlay(map[], listed, key)) == listed
  {
    hide Overlay, ChangedAmong, SortedKeys, Ascending;
    var empty: map<int, V> := map[];
    var m := Overlay(empty, listed, key);
    var keys := SortedKeys(m.Keys);
    forall k
      ensures k in m <==> exists i :: 0 <= i < |listed| && key(listed[i]) == k
      ensures forall i :: 0 <= i < |listed| && key(listed[i]) == k ==> m[k] == listed[i]
    {
      OverlayExact(empty, listed, key, k);
    }
    assert Keyed(m, key);
    ChangedAscending(empty, m, keys, key);
    var back := Changed(empty, m);
    forall v
      ensures v in back <==> v in listed
    {
      if v in listed {
        var i :| 0 <= i < |listed| && listed[i] == v;
        assert key(listed[i]) in m;
        assert key(v) in keys;
        ChangedComplete(empty, m, keys, key(v));
      }
    }
    AscendingUnique(back, listed, key);
  }

  lemma {:induction false} IdentitiesUnique(a: seq<Identity>, b: seq<Identity>)
    requires IdentitiesAscend(a) && IdentitiesAscend(b) && forall x :: x in a <==> x in b
    ensures a == b
    decreases |a|
  {
    hide IdentityBefore;
    if a == [] {
      assert b == [] by {
        assert forall i :: 0 <= i < |b| ==> b[i] in a;
      }
    } else {
      var x := a[0];
      assert x in a && x in b;
      var y := b[0];
      assert y in b && y in a;
      IdentityTotal(x, y);
      FirstsAgree(a, b);
      RestMembers(a, b);
      assert a == [a[0]] + a[1..] && b == [b[0]] + b[1..];
      IdentitiesUnique(a[1..], b[1..]);
    }
  }

  lemma FirstBefore(a: seq<Identity>, i: nat)
    requires IdentitiesAscend(a) && i < |a|
    ensures i > 0 ==> IdentityBefore(a[0], a[i])
  {
  }

  lemma FirstsAgree(a: seq<Identity>, b: seq<Identity>)
    requires IdentitiesAscend(a) && IdentitiesAscend(b) && a != [] && b != [] && a[0] in b && b[0] in a
    ensures a[0] == b[0]
  {
    hide IdentityBefore;
    var i :| 0 <= i < |a| && a[i] == b[0];
    var j :| 0 <= j < |b| && b[j] == a[0];
    IdentityTotal(a[0], b[0]);
    FirstBefore(a, i);
    FirstBefore(b, j);
  }

  lemma RestMembers(a: seq<Identity>, b: seq<Identity>)
    requires IdentitiesAscend(a) && IdentitiesAscend(b) && a != [] && b != [] && a[0] == b[0]
    requires forall x :: x in a <==> x in b
    ensures forall x :: x in a[1..] <==> x in b[1..]
  {
    hide IdentityBefore;
    RestOf(a);
    RestOf(b);
  }

  lemma RestOf(a: seq<Identity>)
    requires IdentitiesAscend(a) && a != []
    ensures forall x :: x in a[1..] <==> x in a && x != a[0]
  {
    hide IdentityBefore;
    forall x
      ensures x in a[1..] <==> x in a && x != a[0]
    {
      if x in a[1..] {
        var i :| 0 <= i < |a| - 1 && a[1..][i] == x;
        assert IdentityBefore(a[0], a[i + 1]);
        IdentityTotal(a[0], x);
      }
    }
  }

  lemma {:induction false} RecordsBack(m: map<Identity, Record>, records: seq<SnapshotRecord>)
    requires forall i :: 0 <= i < |records| ==>
                           && records[i].identity in m
                           && m[records[i].identity] == Record(records[i].digest, records[i].response)
    ensures RecordsAmong(m, IdentitiesOf(records)) == records
  {
    if records != [] {
      var n := |records| - 1;
      RecordsBack(m, records[..n]);
      assert IdentitiesOf(records)[..n] == IdentitiesOf(records[..n]);
      assert records == records[..n] + [records[n]];
    }
  }

  /**
   A snapshot is restored exactly when it is well formed, and the restored state captures to the very same
   snapshot: nothing is dropped, added or reordered.
   */
  lemma RestoreExact(s: EngineSnapshot)
    ensures RestoreUnindexed(s).Ok? <==> Restorable(s)
    ensures RestoreUnindexed(s).Ok? ==> Capture(RestoreUnindexed(s).value) == s
  {
    hide InsertPools, RestorePromises, CheckEvents, RestoreRecords, Overlay, EventsRestorable, RecordsAmong,
         RestoreUnindexed, SortedIdentities, ChangedAmong, ResponseKnown, PoolsExist, Ascending, IdentitiesAscend;
    RestoreSteps(s);
    if RestoreUnindexed(s).Ok? {
      ChangedOverlay(s.pools, PoolKey);
      ChangedOverlay(s.promises, PromiseKey);
      RestoreRecordsLists(Bare(s), s.records);
      var records := RestoreRecords(Bare(s), s.records).value;
      var ids := SortedIdentities(records.Keys);
      forall x
        ensures x in ids <==> x in IdentitiesOf(s.records)
      {
        if i :| 0 <= i < |s.records| && s.records[i].identity == x {
          assert IdentitiesOf(s.records)[i] == x;
        }
        if i :| 0 <= i < |IdentitiesOf(s.records)| && IdentitiesOf(s.records)[i] == x {
          assert s.records[i].identity == x;
        }
      }
      IdentitiesUnique(ids, IdentitiesOf(s.records));
      RecordsBack(records, s.records);
    }
  }
}
