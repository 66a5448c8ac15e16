/**
 Coherence of engine state, and the elementary effects every transition is made of.

 A transition's state change is a run of effects: storing one promise, creating one pool, revising one
 pool. Each effect carries the facts its transition established, and keeps the engine coherent.
 */
module EngineInvariants {
  import opened Results
  import opened Intervals
  import opened StepFunctions
  import opened CapacityCurves
  import opened Domain
  import opened OrderedKeys
  import opened TimelineRebuild
  import opened Admission
  import opened Promises
  import opened Transitions
  import opened ActiveUsage

  // ---- Coherence ----

  predicate PoolsExist(claims: seq<Claim>, pools: map<PoolId, Pool>) {
    forall i :: 0 <= i < |claims| ==> claims[i].poolId in pools
  }

  ghost predicate SoundPromise(st: EngineState, p: Promise) {
    && ValidBundle(p.bundle) && PoolsExist(p.bundle, st.pools)
    && 1 <= p.version <= U64_MAX && 1 <= p.createdSequence <= p.updatedSequence <= st.sequence
  }

  /** The pool's timeline is canonical, fits 64 bits, and denotes capacity minus active usage. */
  ghost predicate Indexed(st: EngineState, pool: PoolId) {
    && pool in st.pools && pool in st.timelines && Wellformed(st.timelines[pool])
    && DenotesSlack(st.timelines[pool], st.pools[pool].curve, ActiveClaims(st.promises, pool))
  }

  ghost predicate SoundPools(st: EngineState) {
    && st.timelines.Keys == st.pools.Keys
    && forall pool :: pool in st.pools ==> st.pools[pool].id == pool && ValidCurve(st.pools[pool].curve)
  }

  ghost predicate SoundPromises(st: EngineState) {
    forall id :: id in st.promises ==> st.promises[id].id == id && SoundPromise(st, st.promises[id])
  }

  ghost predicate AllIndexed(st: EngineState) {
    forall pool :: pool in st.pools ==> Indexed(st, pool)
  }

  /** Pools and timelines share their keys, and every timeline equals capacity minus active usage. */
  ghost predicate Coherent(st: EngineState) {
    SoundPools(st) && SoundPromises(st) && AllIndexed(st) && 0 <= st.sequence <= U64_MAX
  }

  lemma EmptyCoherent()
    ensures Coherent(EmptyState)
  {
  }

  // ---- Effects ----

  datatype Effect =
    | Stored(promise: Promise, timelines: map<PoolId, seq<SlackPoint>>, now: int, kind: EventKind)
    | Created(pool: Pool, points: seq<SlackPoint>, now: int)
    | Revised(poolId: PoolId, curve: seq<CapacitySegment>, points: seq<SlackPoint>, changes: seq<Event>, now: int)

  /** Every effect takes the next sequence and logs at least one event under it. */
  function Perform(st: EngineState, e: Effect): EngineState {
    var sequence := st.sequence + 1;
    match e
    case Stored(p, timelines, now, kind) => Publish(st, p, timelines, sequence, now, kind)
    case Created(pool, points, now) =>
      st.(pools := st.pools[pool.id := pool],
          timelines := st.timelines[pool.id := points],
          sequence := sequence,
          events := st.events + [Event(sequence, now, ResourceCreated, OnPool(pool.id))])
    case Revised(pool, curve, points, changes, now) =>
      if pool !in st.pools then st
      else
        st.(pools := st.pools[pool := st.pools[pool].(curve := curve)],
            timelines := st.timelines[pool := points],
            sequence := sequence,
            events := st.events + [Event(sequence, now, CapacityChanged, OnPool(pool))] + changes)
  }

  /** What the stored promise held before, and what it holds now. */
  function Freed(st: EngineState, id: PromiseId): seq<Claim> {
    if id in st.promises && st.promises[id].Active() then st.promises[id].bundle else []
  }

  function Taken(p: Promise): seq<Claim> {
    if p.Active() then p.bundle else []
  }

  /** The timeline a pool has after `timelines` are stored. */
  function TimelineAfter(st: EngineState, timelines: map<PoolId, seq<SlackPoint>>, pool: PoolId): seq<SlackPoint>
    requires pool in st.timelines
  {
    if pool in timelines then timelines[pool] else st.timelines[pool]
  }

  ghost predicate AdjustsPool(st: EngineState, timelines: map<PoolId, seq<SlackPoint>>, freed: seq<Claim>,
                              taken: seq<Claim>, pool: PoolId)
    requires pool in st.timelines
  {
    && Wellformed(TimelineAfter(st, timelines, pool))
    && forall t :: At(0, TimelineAfter(st, timelines, pool), t)
                   == At(0, st.timelines[pool], t) + Usage(ClaimsOn(freed, pool), t) - Usage(ClaimsOn(taken, pool), t)
  }

  /** Slack gains what is freed and loses what is taken, in every pool at every timestamp. */
  ghost predicate Adjusts(st: EngineState, timelines: map<PoolId, seq<SlackPoint>>, freed: seq<Claim>,
                          taken: seq<Claim>)
  {
    && timelines.Keys <= st.timelines.Keys
    && forall pool :: pool in st.timelines ==> AdjustsPool(st, timelines, freed, taken, pool)
  }

  /** A first version, or the successor of the stored one. */
  ghost predicate Succeeds(st: EngineState, p: Promise) {
    && p.updatedSequence == st.sequence + 1
    && if p.id in st.promises
       then p.version == st.promises[p.id].version + 1 <= U64_MAX
            && p.createdSequence == st.promises[p.id].createdSequence
       else p.version == 1 && p.createdSequence == st.sequence + 1
  }

  /** Deficit events of this pool under one sequence, naming known promises. */
  ghost predicate DeficitEvents(st: EngineState, pool: PoolId, sequence: int, events: seq<Event>) {
    forall i :: 0 <= i < |events| ==>
                  && events[i].sequence == sequence && events[i].data.OnDeficit? && events[i].data.poolId == pool
                  && forall id :: id in events[i].data.promiseIds ==> id in st.promises
  }

  ghost predicate Permitted(st: EngineState, e: Effect) {
    && st.sequence < U64_MAX
    && match e
       case Stored(p, timelines, _, _) =>
         && Succeeds(st, p) && ValidBundle(p.bundle) && PoolsExist(p.bundle, st.pools)
         && Adjusts(st, timelines, Freed(st, p.id), Taken(p))
       case Created(pool, points, _) =>
         && pool.id !in st.pools && ValidCurve(pool.curve)
         && Wellformed(points) && DenotesSlack(points, pool.curve, [])
       case Revised(pool, curve, points, changes, _) =>
         && pool in st.pools && ValidCurve(curve)
         && Wellformed(points) && DenotesSlack(points, curve, ActiveClaims(st.promises, pool))
         && DeficitEvents(st, pool, st.sequence + 1, changes)
  }

  /** Effects performed one after another. */
  function PerformAll(st: EngineState, effects: seq<Effect>): EngineState {
    if effects == [] then st
    else Perform(PerformAll(st, effects[..|effects| - 1]), effects[|effects| - 1])
  }

  ghost predicate PermittedRun(st: EngineState, effects: seq<Effect>) {
    effects == []
    || (PermittedRun(st, effects[..|effects| - 1])
        && Permitted(PerformAll(st, effects[..|effects| - 1]), effects[|effects| - 1]))
  }

  lemma RunPush(st: EngineState, effects: seq<Effect>, e: Effect)
    ensures PerformAll(st, effects + [e]) == Perform(PerformAll(st, effects), e)
    ensures PermittedRun(st, effects + [e]) <==> PermittedRun(st, effects) && Permitted(PerformAll(st, effects), e)
  {
    assert (effects + [e])[..|effects|] == effects;
  }

  lemma {:induction false} RunConcat(st: EngineState, a: seq<Effect>, b: seq<Effect>)
    requires PermittedRun(st, a) && PermittedRun(PerformAll(st, a), b)
    ensures PermittedRun(st, a + b) && PerformAll(st, a + b) == PerformAll(PerformAll(st, a), b)
  {
    hide Perform;
    hide Permitted;
    if b == [] {
      assert a + b == a;
    } else {
      var n := |b| - 1;
      RunConcat(st, a, b[..n]);
      RunPush(st, a + b[..n], b[n]);
      assert a + b == a + b[..n] + [b[n]];
    }
  }

  // ---- Effects keep the engine coherent ----

  lemma BundlesValid(st: EngineState)
    requires SoundPromises(st)
    ensures ValidBundles(st.promises)
  {
  }

  lemma FreedUsage(st: EngineState, id: PromiseId, pool: PoolId, t: int)
    ensures Usage(ClaimsOn(Freed(st, id), pool), t) == Contribution(st.promises, id, pool, t)
  {
  }

  lemma StoredSlack(st: EngineState, e: Effect, pool: PoolId, t: int)
    requires Indexed(st, pool) && e.Stored?
    requires AdjustsPool(st, e.timelines, Freed(st, e.promise.id), Taken(e.promise), pool)
    ensures At(0, TimelineAfter(st, e.timelines, pool), t)
            == SlackOf(st.pools[pool].curve, ActiveClaims(st.promises[e.promise.id := e.promise], pool), t)
  {
    hide At;
    hide ActiveClaims;
    hide CapacityAt;
    var p := e.promise;
    var after := st.(promises := st.promises[p.id := p]);
    UsageStored(st.promises, p.id, p, pool, t);
    FreedUsage(st, p.id, pool, t);
    FreedUsage(after, p.id, pool, t);
    hide Usage;
    assert Freed(after, p.id) == Taken(p);
    assert At(0, st.timelines[pool], t) == SlackOf(st.pools[pool].curve, ActiveClaims(st.promises, pool), t);
  }

  lemma StoredIndexed(st: EngineState, e: Effect, pool: PoolId)
    requires Coherent(st) && Permitted(st, e) && e.Stored? && pool in st.pools
    ensures Indexed(Perform(st, e), pool)
  {
    hide At;
    hide ActiveClaims;
    hide Adjusts;
    hide AdjustsPool;
    hide SlackOf;
    hide Succeeds;
    hide Freed;
    hide Taken;
    assert Indexed(st, pool);
    AdjustedPool(st, e.timelines, Freed(st, e.promise.id), Taken(e.promise), pool);
    forall t
      ensures At(0, TimelineAfter(st, e.timelines, pool), t)
              == SlackOf(st.pools[pool].curve, ActiveClaims(st.promises[e.promise.id := e.promise], pool), t)
    {
      StoredSlack(st, e, pool, t);
    }
  }

  lemma AdjustedPool(st: EngineState, timelines: map<PoolId, seq<SlackPoint>>, freed: seq<Claim>, taken: seq<Claim>,
                     pool: PoolId)
    requires Adjusts(st, timelines, freed, taken) && pool in st.timelines
    ensures AdjustsPool(st, timelines, freed, taken, pool) && Wellformed(TimelineAfter(st, timelines, pool))
    ensures (st.timelines + timelines)[pool] == TimelineAfter(st, timelines, pool)
    ensures (st.timelines + timelines).Keys == st.timelines.Keys
  {
    hide At;
  }

  lemma {:induction false} NoActiveOn(promises: map<PromiseId, Promise>, keys: seq<PromiseId>, pools: map<PoolId, Pool>,
                                      pool: PoolId)
    requires forall id :: id in promises ==> PoolsExist(promises[id].bundle, pools)
    requires pool !in pools
    ensures ActiveAmong(promises, keys, pool) == []
  {
    if keys != [] {
      var last := keys[|keys| - 1];
      NoActiveOn(promises, keys[..|keys| - 1], pools, pool);
      if last in promises {
        var bundle := promises[last].bundle;
        assert PoolsExist(bundle, pools);
        NoClaimsOn(bundle, pool);
      }
    }
  }

  lemma PoolsAfter(st: EngineState, e: Effect)
    requires Coherent(st) && Permitted(st, e)
    ensures SoundPools(Perform(st, e)) && st.pools.Keys <= Perform(st, e).pools.Keys
  {
    hide At;
    hide AllIndexed;
    hide SoundPromises;
    hide DenotesSlack;
    if e.Stored? {
      assert (st.timelines + e.timelines).Keys == st.timelines.Keys;
    }
  }

  lemma PromisesAfter(st: EngineState, e: Effect)
    requires Coherent(st) && Permitted(st, e)
    ensures SoundPromises(Perform(st, e))
  {
    hide At;
    hide AllIndexed;
    hide Adjusts;
    hide DenotesSlack;
    PoolsAfter(st, e);
    var after := Perform(st, e);
    forall id | id in after.promises
      ensures after.promises[id].id == id && SoundPromise(after, after.promises[id])
    {
      if id in st.promises {
        assert SoundPromise(st, st.promises[id]);
      }
    }
  }

  /** Every permitted effect keeps the engine coherent. */
  lemma EffectCoherent(st: EngineState, e: Effect)
    requires Coherent(st) && Permitted(st, e)
    ensures Coherent(Perform(st, e))
  {
    PoolsAfter(st, e);
    PromisesAfter(st, e);
    if e.Created? {
      NoActiveOn(st.promises, SortedKeys(st.promises.Keys), st.pools, e.pool.id);
    }
    hide At;
    hide SlackOf;
    hide ActiveClaims;
    hide SoundPools;
    hide SoundPromises;
    var after := Perform(st, e);
    forall pool | pool in after.pools
      ensures Indexed(after, pool)
    {
      if e.Stored? {
        StoredIndexed(st, e, pool);
      } else if pool in st.pools {
        assert Indexed(st, pool);
      }
    }
  }

  lemma {:induction false} RunCoherent(st: EngineState, effects: seq<Effect>)
    requires Coherent(st) && PermittedRun(st, effects)
    ensures Coherent(PerformAll(st, effects))
  {
    if effects != [] {
      hide Coherent;
      hide Permitted;
      hide Perform;
      var n := |effects| - 1;
      RunCoherent(st, effects[..n]);
      EffectCoherent(PerformAll(st, effects[..n]), effects[n]);
    }
  }
}
