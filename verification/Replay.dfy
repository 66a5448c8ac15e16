/** Installing durable effects during recovery, and what replay recovers. */
module Replay {
  import opened Results
  import opened Intervals
  import opened StepFunctions
  import opened CapacityCurves
  import opened Domain
  import opened OrderedKeys
  import opened TimelineRebuild
  import opened Admission
  import opened Transitions
  import opened ActiveUsage
  import opened EngineInvariants
  import opened EngineSteps
  import opened EngineSafety
  import opened EngineLedger
  import opened Batches

  datatype InstallError =
    | CommandIdentity
    | CommandHash
    | DuplicateIdempotencyIdentity
    | OutOfSequence
    | EntityIdentity
    | DomainInvariant
    | PublicationRevision
    | IndexFailure(error: DomainError)

  // ---- Installation checks ----

  /** Scans event sequences: each repeats the last one or takes the next, and the first takes the next. */
  function ScanNumbers(current: int, events: seq<Event>): Result<int, InstallError> {
    if events == [] then Ok(current)
    else
      var n := |events| - 1;
      var previous :- ScanNumbers(current, events[..n]);
      var sequence := events[n].sequence;
      if sequence < previous then Err(OutOfSequence)
      else if sequence > previous then
        if previous >= U64_MAX || previous + 1 != sequence then Err(OutOfSequence) else Ok(sequence)
      else if previous == current then Err(OutOfSequence)
      else Ok(previous)
  }

  function CheckNumbers(current: int, final: int, events: seq<Event>): Result<(), InstallError> {
    if final < current then Err(OutOfSequence)
    else if events == [] then if final != current then Err(OutOfSequence) else Ok(())
    else
      var last :- ScanNumbers(current, events);
      if last != final then Err(OutOfSequence) else Ok(())
  }

  /** Stores pools whose identities increase. */
  function InsertPools(pools: map<PoolId, Pool>, changed: seq<Pool>): Result<map<PoolId, Pool>, InstallError> {
    if changed == [] then Ok(pools)
    else
      var n := |changed| - 1;
      var earlier :- InsertPools(pools, changed[..n]);
      if n > 0 && changed[n - 1].id >= changed[n].id then Err(EntityIdentity)
      else Ok(earlier[changed[n].id := changed[n]])
  }

  /** Stores promises whose identities increase and whose sequences lie within the final one. */
  function InsertPromises(promises: map<PromiseId, Promise>, changed: seq<Promise>, final: int)
    : Result<map<PromiseId, Promise>, InstallError>
  {
    if changed == [] then Ok(promises)
    else
      var n := |changed| - 1;
      var p := changed[n];
      var earlier :- InsertPromises(promises, changed[..n], final);
      if (n > 0 && changed[n - 1].id >= p.id) || p.createdSequence > p.updatedSequence || p.updatedSequence > final
      then Err(DomainInvariant)
      else Ok(earlier[p.id := p])
  }

  predicate PromisesPlaced(promises: map<PromiseId, Promise>, pools: map<PoolId, Pool>) {
    forall id :: id in promises ==> PoolsExist(promises[id].bundle, pools)
  }

  predicate EventPlaced(event: Event, pools: map<PoolId, Pool>, promises: map<PromiseId, Promise>) {
    match event.data
    case OnPool(pool) => pool in pools
    case OnPromise(id, _) => id in promises
    case OnDeficit(pool, _, _, ids) => pool in pools && forall id :: id in ids ==> id in promises
  }

  predicate EventsPlaced(events: seq<Event>, pools: map<PoolId, Pool>, promises: map<PromiseId, Promise>) {
    forall i :: 0 <= i < |events| ==> EventPlaced(events[i], pools, promises)
  }

  /** Installs one transition's effects without running admission; the index is left cleared. */
  ghost function Install(p: Published, digest: Operation -> seq<int>, t: DurableTransition)
    : Result<Published, InstallError>
  {
    if p.revision >= U128_MAX then Err(PublicationRevision)
    else if t.command.identity != t.identity then Err(CommandIdentity)
    else if digest(t.command.operation) != t.digest then Err(CommandHash)
    else if t.identity in p.state.records then Err(DuplicateIdempotencyIdentity)
    else
      var _ :- CheckNumbers(p.state.sequence, t.finalSequence, t.events);
      var pools :- InsertPools(p.state.pools, t.pools);
      var promises :- InsertPromises(p.state.promises, t.promises, t.finalSequence);
      if !PromisesPlaced(promises, pools) then Err(DomainInvariant)
      else if !EventsPlaced(t.events, pools, promises) then Err(EntityIdentity)
      else
        Ok(Published(EngineState(pools, map[], promises, p.state.events + t.events,
                                 p.state.records[t.identity := Record(t.digest, t.response)], t.finalSequence),
                     p.revision + 1))
  }

  /** Installs items in order, stopping at the first failure. */
  ghost function InstallAll(p: Published, digest: Operation -> seq<int>, items: seq<Item>)
    : Result<Published, InstallError>
  {
    if items == [] then Ok(p)
    else
      var n := |items| - 1;
      var earlier :- InstallAll(p, digest, items[..n]);
      Install(earlier, digest, items[n].transition)
  }

  /** Published state without its derived index. */
  function Unindexed(p: Published): Published {
    p.(state := p.state.(timelines := map[]))
  }

  /** Every pool's timeline rebuilt from its curve and the active claims, or the first overflow. */
  ghost function Reindex(p: Published): Result<Published, InstallError> {
    if forall pool :: pool in p.state.pools ==>
                        Representable(p.state.pools[pool].curve, ActiveClaims(p.state.promises, pool))
    then
      Ok(p.(state := p.state.(timelines := map pool | pool in p.state.pools ::
                                             RebuiltPoints(p.state.pools[pool].curve,
                                                           ActiveClaims(p.state.promises, pool)))))
    else Err(IndexFailure(IndexOverflow))
  }

  // ---- Differences ----

  /** Entries stored over a map, by key. */
  function Overlay<V>(m: map<int, V>, changed: seq<V>, key: V -> int): map<int, V> {
    if changed == [] then m
    else
      var n := |changed| - 1;
      Overlay(m, changed[..n], key)[key(changed[n]) := changed[n]]
  }

  function PoolKey(pool: Pool): int {
    pool.id
  }

  function PromiseKey(p: Promise): int {
    p.id
  }

  /** Keys strictly increase. */
  ghost predicate Ascending<V>(changed: seq<V>, key: V -> int) {
    forall i, j :: 0 <= i < j < |changed| ==> key(changed[i]) < key(changed[j])
  }

  ghost predicate Keyed<V>(m: map<int, V>, key: V -> int) {
    forall k :: k in m ==> key(m[k]) == k
  }

  /** The changed entries come in key order, each from the current map. */
  lemma {:induction false} ChangedAscending<V>(base: map<int, V>, now: map<int, V>, keys: seq<int>, key: V -> int)
    requires StrictlyIncreasing(keys) && Keyed(now, key)
    ensures Ascending(ChangedAmong(base, now, keys), key)
    ensures forall v :: v in ChangedAmong(base, now, keys) ==> key(v) in keys && key(v) in now && now[key(v)] == v
  {
    if keys != [] {
      var n := |keys| - 1;
      var last := keys[n];
      assert last in keys;
      ChangedAscending(base, now, keys[..n], key);
      var earlier := ChangedAmong(base, now, keys[..n]);
      assert forall v :: v in earlier ==> key(v) in keys[..n];
      assert forall k :: k in keys[..n] ==> k in keys && k < last;
      forall i, j | 0 <= i < j < |ChangedAmong(base, now, keys)|
        ensures key(ChangedAmong(base, now, keys)[i]) < key(ChangedAmong(base, now, keys)[j])
      {
        if j == |earlier| {
          assert earlier[i] in earlier;
        }
      }
    }
  }

  lemma OverlayPush<V>(m: map<int, V>, changed: seq<V>, last: V, key: V -> int)
    ensures Overlay(m, changed + [last], key) == Overlay(m, changed, key)[key(last) := last]
  {
    assert (changed + [last])[..|changed|] == changed;
  }

  /** Storing the differences over any map replaces exactly the differing entries. */
  lemma {:induction false} OverlayChanged<V>(m: map<int, V>, base: map<int, V>, now: map<int, V>, keys: seq<int>,
                                             key: V -> int, k: int)
    requires Keyed(now, key)
    ensures var stored := Overlay(m, ChangedAmong(base, now, keys), key);
            && (k in stored <==> k in m || (k in keys && Differs(base, now, k)))
            && (k in stored ==> stored[k] == if k in keys && Differs(base, now, k) then now[k] else m[k])
  {
    if keys != [] {
      var n := |keys| - 1;
      assert keys == keys[..n] + [keys[n]];
      OverlayChanged(m, base, now, keys[..n], key, k);
      var last := keys[n];
      if Differs(base, now, last) {
        OverlayPush(m, ChangedAmong(base, now, keys[..n]), now[last], key);
        assert key(now[last]) == last;
      }
    }
  }

  lemma {:induction false} InsertPoolsOverlays(pools: map<PoolId, Pool>, changed: seq<Pool>)
    requires Ascending(changed, PoolKey)
    ensures InsertPools(pools, changed) == Ok(Overlay(pools, changed, PoolKey))
  {
    if changed != [] {
      var n := |changed| - 1;
      InsertPoolsOverlays(pools, changed[..n]);
      if n > 0 {
        assert PoolKey(changed[n - 1]) < PoolKey(changed[n]);
      }
    }
  }

  lemma {:induction false} InsertPromisesOverlays(promises: map<PromiseId, Promise>, changed: seq<Promise>, final: int)
    requires Ascending(changed, PromiseKey)
    requires forall i :: 0 <= i < |changed| ==> changed[i].createdSequence <= changed[i].updatedSequence <= final
    ensures InsertPromises(promises, changed, final) == Ok(Overlay(promises, changed, PromiseKey))
  {
    if changed != [] {
      var n := |changed| - 1;
      InsertPromisesOverlays(promises, changed[..n], final);
      if n > 0 {
        assert PromiseKey(changed[n - 1]) < PromiseKey(changed[n]);
      }
    }
  }

  // ---- Promises never return to an earlier value ----

  /** Every promise stayed as it was, or moved to a later version. */
  ghost predicate Advances(a: EngineState, b: EngineState) {
    forall id :: id in a.promises ==>
                   id in b.promises
                   && (a.promises[id] == b.promises[id] || a.promises[id].version < b.promises[id].version)
  }

  lemma AdvancesTransitive(a: EngineState, b: EngineState, c: EngineState)
    requires Advances(a, b) && Advances(b, c)
    ensures Advances(a, c)
  {
  }

  lemma EffectAdvances(st: EngineState, e: Effect)
    requires Permitted(st, e)
    ensures Advances(st, EngineInvariants.Perform(st, e))
  {
    hide At;
    hide Adjusts;
    hide DenotesSlack;
    hide DeficitEvents;
  }

  /** A promise that equals its base value now equalled it all along. */
  lemma PromiseUnchanged(base: EngineState, before: EngineState, after: EngineState, id: PromiseId)
    requires Advances(base, before) && Advances(before, after)
    requires id in base.promises && id in after.promises && base.promises[id] == after.promises[id]
    ensures id in before.promises && before.promises[id] == after.promises[id]
  {
  }
}
