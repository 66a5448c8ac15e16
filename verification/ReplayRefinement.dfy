/**
 Replay refines execution: installing a batch's durable items in order is always accepted, and recovers
 the executed state exactly when no pool returns to its value from before the batch.
 */
module ReplayRefinement {
  import opened Results
  import opened Intervals
  import opened StepFunctions
  import opened CapacityCurves
  import opened Domain
  import opened OrderedKeys
  import opened TimelineRebuild
  import opened Admission
  import opened Transitions
  import opened ActiveUsage
  import opened EngineInvariants
  import opened EngineSteps
  import opened Expiry
  import opened EngineSafety
  import opened EngineLedger
  import opened Batches
  import opened Replay

  // ---- What one operation does to the log and the promises ----

  /** Events logged on the way carry sequences after the old one. */
  ghost predicate FreshEvents(a: EngineState, b: EngineState) {
    a.events <= b.events && forall i :: |a.events| <= i < |b.events| ==> b.events[i].sequence > a.sequence
  }

  /** The state only moved on: entities accumulate, promises advance, new events are fresh. */
  ghost predicate Moved(a: EngineState, b: EngineState) {
    Extends(a, b) && Advances(a, b) && FreshEvents(a, b)
  }

  lemma MovedReflexive(st: EngineState)
    ensures Moved(st, st)
  {
  }

  lemma MovedTransitive(a: EngineState, b: EngineState, c: EngineState)
    requires Moved(a, b) && Moved(b, c)
    ensures Moved(a, c)
  {
    AdvancesTransitive(a, b, c);
    ExtendsTransitive(a, b, c);
  }

  lemma EffectMoves(st: EngineState, e: Effect)
    requires Permitted(st, e)
    ensures Moved(st, EngineInvariants.Perform(st, e))
  {
    hide Permitted;
    hide EngineInvariants.Perform;
    hide Extends;
    hide Advances;
    EffectExtends(st, e);
    EffectAdvances(st, e);
    LoggedAppended(st, e);
  }

  lemma {:induction false} RunMoves(st: EngineState, effects: seq<Effect>)
    requires PermittedRun(st, effects)
    ensures Moved(st, PerformAll(st, effects))
  {
    hide Permitted;
    hide EngineInvariants.Perform;
    hide Moved;
    if effects == [] {
      MovedReflexive(st);
    } else {
      var n := |effects| - 1;
      RunMoves(st, effects[..n]);
      EffectMoves(PerformAll(st, effects[..n]), effects[n]);
      MovedTransitive(st, PerformAll(st, effects[..n]), PerformAll(st, effects));
    }
  }

  lemma ApplyOnceMoves(st: EngineState, operation: Operation, now: int)
    requires Coherent(st) && operation.Valid()
    ensures Moved(st, ApplyOnce(st, operation, now).state)
  {
    hide Coherent;
    hide Moved;
    hide ApplyOnce;
    hide Operation.Valid;
    hide PermittedRun;
    hide PerformAll;
    hide CarefulRun;
    var effects := ApplyOnceExplained(st, operation, now);
    RunMoves(st, effects);
  }

  lemma RecordsMove(a: EngineState, b: EngineState, records: map<Identity, Record>)
    requires Moved(a, b)
    ensures Moved(a, b.(records := records))
  {
  }

  // ---- The checks of installation pass ----

  lemma {:induction false} ScanFollows(current: int, events: seq<Event>, final: int)
    requires events != [] && events[0].sequence == current + 1
    requires forall i :: 0 < i < |events| ==> events[i - 1].sequence <= events[i].sequence <= events[i - 1].sequence + 1
    requires forall i :: 0 <= i < |events| ==> current < events[i].sequence <= U64_MAX
    ensures ScanNumbers(current, events) == Ok(events[|events| - 1].sequence)
  {
    var n := |events| - 1;
    if n == 0 {
      assert ScanNumbers(current, events[..0]) == Ok(current);
    } else {
      ScanFollows(current, events[..n], final);
    }
  }

  lemma NumbersPass(a: EngineState, b: EngineState)
    requires Numbered(a.events, a.sequence) && Numbered(b.events, b.sequence) && FreshEvents(a, b)
    requires 0 <= a.sequence && b.sequence <= U64_MAX
    ensures CheckNumbers(a.sequence, b.sequence, EventsSince(a.events, b.events)) == Ok(())
  {
    hide ScanNumbers;
    var added := EventsSince(a.events, b.events);
    if added == [] {
      assert a.events == b.events;
    } else {
      assert added[|added| - 1] == b.events[|b.events| - 1];
      forall i | 0 <= i < |added|
        ensures a.sequence < added[i].sequence <= U64_MAX
      {
        NumberedUpTo(b.events, b.sequence, |a.events| + i, |b.events| - 1);
      }
      forall i | 0 < i < |added|
        ensures added[i - 1].sequence <= added[i].sequence <= added[i - 1].sequence + 1
      {
        assert added[i] == b.events[|a.events| + i] && added[i - 1] == b.events[|a.events| + i - 1];
      }
      FirstAdded(a, b);
      ScanFollows(a.sequence, added, b.sequence);
    }
  }

  lemma FirstAdded(a: EngineState, b: EngineState)
    requires Numbered(a.events, a.sequence) && Numbered(b.events, b.sequence) && FreshEvents(a, b)
    requires |a.events| < |b.events|
    ensures b.events[|a.events|].sequence == a.sequence + 1
  {
    var k := |a.events|;
    if k > 0 {
      assert b.events[k - 1] == a.events[k - 1];
    }
  }

  lemma PoolsKeyed(st: EngineState)
    requires SoundPools(st)
    ensures Keyed(st.pools, PoolKey)
  {
  }

  lemma PromisesKeyed(st: EngineState)
    requires SoundPromises(st)
    ensures Keyed(st.promises, PromiseKey)
  {
  }

  /** Replayed pools after storing the differences. */
  function StorePools(replayed: map<PoolId, Pool>, base: EngineState, after: EngineState): map<PoolId, Pool> {
    Overlay(replayed, Changed(base.pools, after.pools), PoolKey)
  }

  lemma StoredPool(replayed: map<PoolId, Pool>, base: EngineState, after: EngineState, k: PoolId)
    requires SoundPools(after)
    ensures var stored := StorePools(replayed, base, after);
            && (k in stored <==> k in replayed || Differs(base.pools, after.pools, k))
            && (k in stored ==>
                  stored[k] == if Differs(base.pools, after.pools, k) then after.pools[k] else replayed[k])
  {
    hide SortedKeys;
    hide Overlay;
    hide ChangedAmong;
    var keys := SortedKeys(after.pools.Keys);
    PoolsKeyed(after);
    OverlayChanged(replayed, base.pools, after.pools, keys, PoolKey, k);
    assert Differs(base.pools, after.pools, k) ==> k in keys;
  }

  lemma PoolsInserted(replayed: map<PoolId, Pool>, base: EngineState, after: EngineState)
    requires SoundPools(after) && replayed.Keys <= after.pools.Keys
    requires forall k :: k in after.pools && k !in replayed ==> k !in base.pools
    ensures InsertPools(replayed, Changed(base.pools, after.pools)) == Ok(StorePools(replayed, base, after))
    ensures StorePools(replayed, base, after).Keys == after.pools.Keys
  {
    hide SortedKeys;
    hide Overlay;
    hide ChangedAmong;
    hide InsertPools;
    PoolsKeyed(after);
    ChangedAscending(base.pools, after.pools, SortedKeys(after.pools.Keys), PoolKey);
    InsertPoolsOverlays(replayed, Changed(base.pools, after.pools));
    var stored := StorePools(replayed, base, after);
    forall k
      ensures k in stored <==> k in after.pools
    {
      StoredPool(replayed, base, after, k);
    }
    assert stored.Keys == after.pools.Keys;
  }

  /** Storing the promise differences recovers the promises: none has returned to its base value. */
  lemma PromisesInserted(base: EngineState, before: EngineState, after: EngineState)
    requires SoundPromises(after) && Advances(base, before) && Advances(before, after)
    ensures InsertPromises(before.promises, Changed(base.promises, after.promises), after.sequence)
            == Ok(after.promises)
  {
    hide SortedKeys;
    var keys := SortedKeys(after.promises.Keys);
    var changed := Changed(base.promises, after.promises);
    PromisesKeyed(after);
    ChangedAscending(base.promises, after.promises, keys, PromiseKey);
    forall i | 0 <= i < |changed|
      ensures changed[i].createdSequence <= changed[i].updatedSequence <= after.sequence
    {
      var p := changed[i];
      assert p in changed;
      assert SoundPromise(after, after.promises[PromiseKey(p)]);
    }
    InsertPromisesOverlays(before.promises, changed, after.sequence);
    hide Overlay;
    hide ChangedAmong;
    hide InsertPromises;
    var stored := Overlay(before.promises, changed, PromiseKey);
    forall k
      ensures k in stored <==> k in after.promises
      ensures k in after.promises ==> k in stored && stored[k] == after.promises[k]
    {
      OverlayChanged(before.promises, base.promises, after.promises, keys, PromiseKey, k);
      if k in after.promises && !Differs(base.promises, after.promises, k) {
        PromiseUnchanged(base, before, after, k);
      }
    }
    assert stored == after.promises;
  }

  lemma EverythingPlaced(st: EngineState, pools: map<PoolId, Pool>, added: seq<Event>)
    requires SoundPromises(st) && EventsKnown(st) && pools.Keys == st.pools.Keys
    requires forall e :: e in added ==> e in st.events
    ensures PromisesPlaced(st.promises, pools) && EventsPlaced(added, pools, st.promises)
  {
    forall id | id in st.promises
      ensures PoolsExist(st.promises[id].bundle, pools)
    {
      assert SoundPromise(st, st.promises[id]);
    }
    forall i | 0 <= i < |added|
      ensures EventPlaced(added[i], pools, st.promises)
    {
      var event := added[i];
      assert event in added;
      var j :| 0 <= j < |st.events| && st.events[j] == event;
      assert EventKnown(st, st.events[j]);
    }
  }

  // ---- One installed item ----

  /** State with replayed pools and no index. */
  function Recovered(st: EngineState, pools: map<PoolId, Pool>, revision: int): Published {
    Published(st.(pools := pools, timelines := map[]), revision)
  }

  /** Facts about one first-seen command inside a batch. */
  ghost predicate Executed(base: EngineState, before: EngineState, after: EngineState, command: Command, hash: seq<int>,
                           response: Response)
  {
    && Coherent(after) && Ledger(before) && Ledger(after) && Advances(base, before) && Moved(before, after)
    && base.pools.Keys <= before.pools.Keys && 0 <= before.sequence
    && command.identity !in before.records
    && after.records == before.records[command.identity := Record(hash, response)]
  }

  /** Installing a command's durable effects is accepted; only pools can differ from execution. */
  lemma InstallOne(base: EngineState, before: EngineState, after: EngineState, command: Command, response: Response,
                   digest: Operation -> seq<int>, replayed: map<PoolId, Pool>, revision: int)
    requires Executed(base, before, after, command, digest(command.operation), response)
    requires replayed.Keys == before.pools.Keys && revision < U128_MAX
    ensures var t := DurableOf(base, before, after, command, digest(command.operation), response);
            Install(Recovered(before, replayed, revision), digest, t)
            == Ok(Recovered(after, StorePools(replayed, base, after), revision + 1))
    ensures StorePools(replayed, base, after).Keys == after.pools.Keys
  {
    hide AllIndexed;
    hide Numbered;
    hide Histories;
    hide Overlay;
    hide ChangedAmong;
    hide InsertPools;
    hide InsertPromises;
    hide CheckNumbers;
    hide PromisesPlaced;
    hide EventsPlaced;
    NumbersPass(before, after);
    PoolsInserted(replayed, base, after);
    PromisesInserted(base, before, after);
    var added := EventsSince(before.events, after.events);
    assert before.events + added == after.events;
    EverythingPlaced(after, StorePools(replayed, base, after), added);
  }

  // ---- Batches ----

  /** The candidate state after the first `j` requests. */
  ghost function StateAt(base: EngineState, digest: Operation -> seq<int>, requests: seq<Request>, j: nat): EngineState
    requires j <= |requests|
  {
    PrepareUpTo(base, digest, requests, j).state
  }

  /** Request `j` is the first with its identity, so it is executed rather than answered from a record. */
  ghost predicate FirstSeen(base: EngineState, digest: Operation -> seq<int>, requests: seq<Request>, j: nat)
    requires j < |requests|
  {
    requests[j].command.identity !in StateAt(base, digest, requests, j).records
  }

  /** What every candidate state of a batch satisfies. */
  ghost predicate BatchState(base: EngineState, st: EngineState) {
    Coherent(st) && Ledger(st) && Moved(base, st)
  }

  lemma ExecutedStep(base: EngineState, digest: Operation -> seq<int>, preparing: Preparing, request: Request)
    requires BatchState(base, preparing.state) && request.command.operation.Valid()
    ensures var next := PrepareOne(base, digest, preparing, request);
            && BatchState(base, next.state) && Moved(preparing.state, next.state)
            && (request.command.identity in preparing.state.records ==>
                  next.state == preparing.state && next.items == preparing.items)
            && (request.command.identity !in preparing.state.records ==>
                  var response := ApplyOnce(preparing.state, request.command.operation, request.now).result;
                  var hash := digest(request.command.operation);
                  && Executed(base, preparing.state, next.state, request.command, hash, response)
                  && next.items == preparing.items
                                   + [Item(request.now,
                                           DurableOf(base, preparing.state, next.state, request.command, hash,
                                                     response))])
  {
    hide AllIndexed;
    hide SoundPromises;
    hide SoundPools;
    hide Ledger;
    hide ApplyOnce;
    hide DurableOf;
    hide Operation.Valid;
    var before := preparing.state;
    MovedReflexive(before);
    if request.command.identity !in before.records {
      var outcome := ApplyOnce(before, request.command.operation, request.now);
      var effects := ApplyOnceExplained(before, request.command.operation, request.now);
      StaysCoherent(before, effects, outcome.state, Forced(request.command.operation));
      ApplyOnceLedger(before, request.command.operation, request.now);
      ApplyOnceMoves(before, request.command.operation, request.now);
      var after := PrepareOne(base, digest, preparing, request).state;
      RecordsIrrelevant(outcome.state, after.records);
      SameEntities(outcome.state, after, outcome.result);
      RecordsMove(before, outcome.state, after.records);
      MovedTransitive(base, before, after);
      hide Explains;
    }
  }

  lemma {:induction false} BatchKeeps(base: EngineState, digest: Operation -> seq<int>, requests: seq<Request>, j: nat)
    requires j <= |requests| && Coherent(base) && Ledger(base) && ValidRequests(requests)
    ensures BatchState(base, StateAt(base, digest, requests, j))
  {
    hide BatchState;
    hide PrepareOne;
    hide Operation.Valid;
    if j == 0 {
      BaseState(base);
    } else {
      BatchKeeps(base, digest, requests, j - 1);
      ExecutedStep(base, digest, PrepareUpTo(base, digest, requests, j - 1), requests[j - 1]);
    }
  }

  lemma BaseState(base: EngineState)
    requires Coherent(base) && Ledger(base)
    ensures BatchState(base, base)
  {
    hide Coherent;
    hide Ledger;
    hide Moved;
    MovedReflexive(base);
  }

  /** The pools replay holds after the items of the first `j` requests. */
  ghost function ReplayedPools(base: EngineState, digest: Operation -> seq<int>, requests: seq<Request>, j: nat)
    : map<PoolId, Pool>
    requires j <= |requests|
  {
    if j == 0 then base.pools
    else if FirstSeen(base, digest, requests, j - 1)
    then StorePools(ReplayedPools(base, digest, requests, j - 1), base, StateAt(base, digest, requests, j))
    else ReplayedPools(base, digest, requests, j - 1)
  }

  lemma InstallPushed(p: Published, digest: Operation -> seq<int>, items: seq<Item>, last: Item, middle: Published)
    requires InstallAll(p, digest, items) == Ok(middle)
    ensures InstallAll(p, digest, items + [last]) == Install(middle, digest, last.transition)
  {
    hide Install;
    assert (items + [last])[..|items|] == items;
  }

  /** Installing the items of the first `j` requests is accepted, and only pools can differ from execution. */
  ghost predicate ReplaysTo(p: Published, digest: Operation -> seq<int>, requests: seq<Request>, j: nat)
    requires j <= |requests|
  {
    var preparing := PrepareUpTo(p.state, digest, requests, j);
    var pools := ReplayedPools(p.state, digest, requests, j);
    && pools.Keys == preparing.state.pools.Keys
    && InstallAll(Unindexed(p), digest, preparing.items)
       == Ok(Recovered(preparing.state, pools, p.revision + |preparing.items|))
  }

  lemma ReplayStep(p: Published, digest: Operation -> seq<int>, requests: seq<Request>, j: nat)
    requires j < |requests| && BatchState(p.state, StateAt(p.state, digest, requests, j))
    requires requests[j].command.operation.Valid() && ReplaysTo(p, digest, requests, j)
    requires p.revision + |PrepareUpTo(p.state, digest, requests, j + 1).items| <= U128_MAX
    ensures ReplaysTo(p, digest, requests, j + 1)
  {
    hide BatchState;
    hide PrepareOne;
    hide PrepareUpTo;
    hide Operation.Valid;
    hide Install;
    hide InstallAll;
    hide DurableOf;
    hide StorePools;
    hide ApplyOnce;
    var base := p.state;
    var preparing := PrepareUpTo(base, digest, requests, j);
    var next := PrepareUpTo(base, digest, requests, j + 1);
    PreparePushed(base, digest, requests, j);
    ExecutedStep(base, digest, preparing, requests[j]);
    if FirstSeen(base, digest, requests, j) {
      var replayed := ReplayedPools(base, digest, requests, j);
      var response := ApplyOnce(preparing.state, requests[j].command.operation, requests[j].now).result;
      InstallOne(base, preparing.state, next.state, requests[j].command, response, digest, replayed,
                 p.revision + |preparing.items|);
      InstallPushed(Unindexed(p), digest, preparing.items, next.items[|preparing.items|],
                    Recovered(preparing.state, replayed, p.revision + |preparing.items|));
    }
  }

  lemma {:induction false} ItemsGrow(base: EngineState, digest: Operation -> seq<int>, requests: seq<Request>, j: nat,
                                     n: nat)
    requires j <= n <= |requests|
    ensures |PrepareUpTo(base, digest, requests, j).items| <= |PrepareUpTo(base, digest, requests, n).items|
  {
    hide ApplyOnce;
    hide DurableOf;
    if j < n {
      ItemsGrow(base, digest, requests, j, n - 1);
    }
  }

  /** Replay of any batch is accepted, record by record. */
  lemma {:induction false} ReplayAccepted(p: Published, digest: Operation -> seq<int>, requests: seq<Request>, j: nat)
    requires j <= |requests| && Coherent(p.state) && Ledger(p.state) && ValidRequests(requests)
    requires p.revision + |PrepareUpTo(p.state, digest, requests, |requests|).items| <= U128_MAX
    ensures ReplaysTo(p, digest, requests, j)
  {
    hide Coherent;
    hide Ledger;
    hide ReplaysTo;
    hide BatchState;
    hide PrepareUpTo;
    hide Operation.Valid;
    if j == 0 {
      NothingReplayed(p, digest, requests);
    } else {
      ReplayAccepted(p, digest, requests, j - 1);
      BatchKeeps(p.state, digest, requests, j - 1);
      ItemsGrow(p.state, digest, requests, j, |requests|);
      ReplayStep(p, digest, requests, j - 1);
    }
  }

  lemma NothingReplayed(p: Published, digest: Operation -> seq<int>, requests: seq<Request>)
    ensures ReplaysTo(p, digest, requests, 0)
  {
  }

  // ---- Exactly when replay recovers the pools ----

  /** No pool that equals its base value after `j` requests held another value on the way. */
  ghost predicate NoReturn(base: EngineState, digest: Operation -> seq<int>, requests: seq<Request>, j: nat)
    requires j <= |requests|
  {
    forall pool, i :: pool in base.pools && 0 <= i <= j
                      && AtBase(base, StateAt(base, digest, requests, j), pool)
                      ==> AtBase(base, StateAt(base, digest, requests, i), pool)
  }

  ghost predicate AtBase(base: EngineState, st: EngineState, pool: PoolId) {
    pool in base.pools && pool in st.pools && st.pools[pool] == base.pools[pool]
  }

  /**
   One replayed pool: the current value where it differs from the base; away from the base otherwise only if
   it was.
   */
  lemma {:induction false} ReplayedPool(base: EngineState, digest: Operation -> seq<int>, requests: seq<Request>,
                                        j: nat, pool: PoolId)
    requires j <= |requests| && Coherent(base) && Ledger(base) && ValidRequests(requests)
    ensures var st := StateAt(base, digest, requests, j);
            var replayed := ReplayedPools(base, digest, requests, j);
            && (pool in replayed <==> pool in st.pools)
            && (pool in st.pools && !AtBase(base, st, pool) ==> replayed[pool] == st.pools[pool])
            && (AtBase(base, st, pool) ==>
                  (replayed[pool] == base.pools[pool]
                   <==> forall i :: 0 <= i <= j ==> AtBase(base, StateAt(base, digest, requests, i), pool)))
  {
    hide BatchState;
    hide PrepareUpTo;
    hide PrepareOne;
    hide StorePools;
    hide Operation.Valid;
    hide Coherent;
    hide Ledger;
    if j == 0 {
      NothingPreparedYet(base, digest, requests);
    } else {
      ReplayedPool(base, digest, requests, j - 1, pool);
      BatchKeeps(base, digest, requests, j - 1);
      BatchKeeps(base, digest, requests, j);
      PreparePushed(base, digest, requests, j - 1);
      ExecutedStep(base, digest, PrepareUpTo(base, digest, requests, j - 1), requests[j - 1]);
      NextReplayedPool(base, digest, requests, j, pool);
    }
  }

  lemma NothingPreparedYet(base: EngineState, digest: Operation -> seq<int>, requests: seq<Request>)
    ensures StateAt(base, digest, requests, 0) == base
  {
  }

  lemma NextReplayedPool(base: EngineState, digest: Operation -> seq<int>, requests: seq<Request>, j: nat, pool: PoolId)
    requires 0 < j <= |requests|
    requires BatchState(base, StateAt(base, digest, requests, j - 1))
    requires BatchState(base, StateAt(base, digest, requests, j))
    requires Moved(StateAt(base, digest, requests, j - 1), StateAt(base, digest, requests, j))
    requires !FirstSeen(base, digest, requests, j - 1)
             ==> StateAt(base, digest, requests, j) == StateAt(base, digest, requests, j - 1)
    requires var st := StateAt(base, digest, requests, j - 1);
             var replayed := ReplayedPools(base, digest, requests, j - 1);
             && (pool in replayed <==> pool in st.pools)
             && (pool in st.pools && !AtBase(base, st, pool) ==> replayed[pool] == st.pools[pool])
             && (AtBase(base, st, pool) ==>
                   (replayed[pool] == base.pools[pool]
                    <==> forall i :: 0 <= i <= j - 1 ==> AtBase(base, StateAt(base, digest, requests, i), pool)))
    ensures var st := StateAt(base, digest, requests, j);
            var replayed := ReplayedPools(base, digest, requests, j);
            && (pool in replayed <==> pool in st.pools)
            && (pool in st.pools && !AtBase(base, st, pool) ==> replayed[pool] == st.pools[pool])
            && (AtBase(base, st, pool) ==>
                  (replayed[pool] == base.pools[pool]
                   <==> forall i :: 0 <= i <= j ==> AtBase(base, StateAt(base, digest, requests, i), pool)))
  {
    hide StorePools;
    hide PrepareUpTo;
    hide Advances;
    hide FreshEvents;
    hide AllIndexed;
    hide SoundPromises;
    hide Ledger;
    var st := StateAt(base, digest, requests, j);
    var before := StateAt(base, digest, requests, j - 1);
    var earlier := ReplayedPools(base, digest, requests, j - 1);
    StoredPool(earlier, base, st, pool);
  }
}
