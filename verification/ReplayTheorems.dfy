/** When replay recovers execution, when it always does, and a batch for which it does not. */
module ReplayTheorems {
  import opened Results
  import opened Intervals
  import opened StepFunctions
  import opened SlackTimelines
  import opened CapacityCurves
  import opened Domain
  import opened OrderedKeys
  import opened TimelineRebuild
  import opened Admission
  import opened AvailabilityOracle
  import opened Promises
  import opened Transitions
  import opened ActiveUsage
  import opened EngineInvariants
  import opened BundleAdmissions
  import opened EngineSteps
  import opened Expiry
  import opened EngineSafety
  import opened EngineLedger
  import opened Batches
  import opened Replay
  import opened ReplayRefinement

  // ---- Rebuilding the index ----

  /** A coherent engine's timelines are exactly what a rebuild computes. */
  lemma TimelineIsRebuild(st: EngineState, pool: PoolId)
    requires Coherent(st) && pool in st.pools
    ensures pool in st.timelines
    ensures Representable(st.pools[pool].curve, ActiveClaims(st.promises, pool))
    ensures RebuiltPoints(st.pools[pool].curve, ActiveClaims(st.promises, pool)) == st.timelines[pool]
  {
    hide At;
    hide RebuiltPoints;
    hide SlackOf;
    hide ActiveAmong;
    hide SortedKeys;
    hide Canonical;
    assert Indexed(st, pool);
    var curve, claims, points := st.pools[pool].curve, ActiveClaims(st.promises, pool), st.timelines[pool];
    ValuesFit(points) by {
      SortedWhenCanonical(points);
    }
    forall t
      ensures FitsI64(SlackOf(curve, claims, t))
    {
      assert At(0, points, t) == SlackOf(curve, claims, t);
    }
    BundlesValid(st);
    ActiveValid(st.promises, SortedKeys(st.promises.Keys), pool);
    RebuildCorrect(curve, claims);
    CanonicalUnique(RebuiltPoints(curve, claims), points);
  }

  /** Rebuilding the index of a coherent engine that lost it gives the engine back. */
  lemma ReindexRecovers(p: Published)
    requires Coherent(p.state)
    ensures Reindex(Unindexed(p)) == Ok(p)
  {
    hide RebuiltPoints;
    hide Representable;
    hide ActiveClaims;
    hide AllIndexed;
    hide SoundPromises;
    var st := p.state;
    forall pool | pool in st.pools
      ensures pool in st.timelines && Representable(st.pools[pool].curve, ActiveClaims(st.promises, pool))
      ensures RebuiltPoints(st.pools[pool].curve, ActiveClaims(st.promises, pool)) == st.timelines[pool]
    {
      TimelineIsRebuild(st, pool);
    }
    assert (map pool | pool in st.pools :: RebuiltPoints(st.pools[pool].curve, ActiveClaims(st.promises, pool)))
           == st.timelines;
  }

  // ---- Exactly when replay is faithful ----

  /** The published value after the first `j` requests of a batch. */
  ghost function PublishedAt(p: Published, digest: Operation -> seq<int>, requests: seq<Request>, j: nat): Published
    requires j <= |requests|
  {
    var preparing := PrepareUpTo(p.state, digest, requests, j);
    Published(preparing.state, p.revision + |preparing.items|)
  }

  /**
   Installing the items of the first `j` requests recovers execution exactly when no pool returned to its
   base value.
   */
  lemma ReplayExact(p: Published, digest: Operation -> seq<int>, requests: seq<Request>, j: nat)
    requires j <= |requests| && Coherent(p.state) && Ledger(p.state) && ValidRequests(requests)
    requires p.revision + |PrepareUpTo(p.state, digest, requests, |requests|).items| <= U128_MAX
    ensures InstallAll(Unindexed(p), digest, PrepareUpTo(p.state, digest, requests, j).items)
            == Ok(Unindexed(PublishedAt(p, digest, requests, j)))
            <==> NoReturn(p.state, digest, requests, j)
  {
    hide Coherent;
    hide Ledger;
    hide PrepareUpTo;
    hide ReplayedPools;
    hide InstallAll;
    hide AtBase;
    hide Operation.Valid;
    ReplayAccepted(p, digest, requests, j);
    PoolsRecovered(p.state, digest, requests, j);
  }

  lemma PoolsRecovered(base: EngineState, digest: Operation -> seq<int>, requests: seq<Request>, j: nat)
    requires j <= |requests| && Coherent(base) && Ledger(base) && ValidRequests(requests)
    ensures ReplayedPools(base, digest, requests, j) == StateAt(base, digest, requests, j).pools
            <==> NoReturn(base, digest, requests, j)
  {
    hide Coherent;
    hide Ledger;
    hide StateAt;
    hide ReplayedPools;
    hide Operation.Valid;
    var st := StateAt(base, digest, requests, j);
    var replayed := ReplayedPools(base, digest, requests, j);
    forall pool
      ensures pool in replayed <==> pool in st.pools
      ensures pool in st.pools && !AtBase(base, st, pool) ==> replayed[pool] == st.pools[pool]
      ensures AtBase(base, st, pool) ==>
                (replayed[pool] == st.pools[pool]
                 <==> forall i :: 0 <= i <= j ==> AtBase(base, StateAt(base, digest, requests, i), pool))
    {
      ReplayedPool(base, digest, requests, j, pool);
    }
    if NoReturn(base, digest, requests, j) {
      forall pool | pool in st.pools
        ensures pool in replayed && replayed[pool] == st.pools[pool]
      {
        if AtBase(base, st, pool) {
          assert forall i :: 0 <= i <= j ==> AtBase(base, StateAt(base, digest, requests, i), pool);
        }
      }
      forall pool
        ensures pool in replayed.Keys <==> pool in st.pools.Keys
      {
        assert pool in replayed <==> pool in st.pools;
      }
      assert replayed.Keys == st.pools.Keys;
      assert replayed == st.pools;
    }
  }

  /**
   Replay refines execution: when no pool returned to its base value, installing the durable items of
   the first `j` requests and rebuilding the index once gives exactly the executed state, timelines,
   log, records, sequence and revision included.
   */
  lemma ReplayRefinesExecution(p: Published, digest: Operation -> seq<int>, requests: seq<Request>, j: nat)
    requires j <= |requests| && Coherent(p.state) && Ledger(p.state) && ValidRequests(requests)
    requires p.revision + |PrepareUpTo(p.state, digest, requests, |requests|).items| <= U128_MAX
    requires NoReturn(p.state, digest, requests, j)
    ensures var installed := InstallAll(Unindexed(p), digest, PrepareUpTo(p.state, digest, requests, j).items);
            installed.Ok? && Reindex(installed.value) == Ok(PublishedAt(p, digest, requests, j))
  {
    hide Ledger;
    hide Coherent;
    hide PrepareUpTo;
    hide InstallAll;
    hide NoReturn;
    hide Reindex;
    hide Operation.Valid;
    ReplayExact(p, digest, requests, j);
    BatchKeeps(p.state, digest, requests, j);
    ReindexRecovers(PublishedAt(p, digest, requests, j));
  }

  // ---- Batches that always replay faithfully ----

  /** A one-command batch has no room for a pool to leave and return. */
  lemma SingleCommandNeverReturns(base: EngineState, digest: Operation -> seq<int>, requests: seq<Request>, j: nat)
    requires j <= |requests| <= 1
    ensures NoReturn(base, digest, requests, j)
  {
    hide PrepareUpTo;
    NothingPreparedYet(base, digest, requests);
  }

  /** The operation revises this pool's capacity. */
  predicate Revises(operation: Operation, pool: PoolId) {
    operation.ReviseCapacity? && operation.poolId == pool
  }

  lemma {:induction false} ExpirationsKeepPools(st: EngineState, due: seq<PromiseId>, k: nat, now: int)
    requires k <= |due|
    ensures ExpireUpTo(st, due, k, now).state.pools == st.pools
  {
    hide RestoredTimelines;
    if k > 0 {
      ExpirationsKeepPools(st, due, k - 1, now);
    }
  }

  /** Only a revision of the pool changes it. */
  lemma PoolUntouched(st: EngineState, operation: Operation, now: int, pool: PoolId)
    requires pool in st.pools && !Revises(operation, pool)
    ensures pool in ApplyOnce(st, operation, now).state.pools
    ensures ApplyOnce(st, operation, now).state.pools[pool] == st.pools[pool]
  {
    hide ExpireUpTo;
    hide DueHolds;
    hide Requested;
    var expired := Expirations(st, now);
    ExpirationsKeepPools(st, DueHolds(st, now), |DueHolds(st, now)|, now);
    if expired.result.Ok? {
      RequestedUntouched(expired.state, operation, expired.result.value, now, pool);
    }
  }

  lemma RequestedUntouched(st: EngineState, operation: Operation, expired: int, now: int, pool: PoolId)
    requires pool in st.pools && !Revises(operation, pool)
    ensures pool in Requested(st, operation, expired, now).state.pools
    ensures Requested(st, operation, expired, now).state.pools[pool] == st.pools[pool]
  {
    hide EvaluateBundle;
    hide RestoredTimelines;
    hide ScanChoice;
    hide SearchSlots;
    hide Rebuild;
    hide ActiveClaims;
    hide PoolDeficits;
    hide ResolvedEvents;
    hide CurrentEvents;
    hide AffectedPromises;
  }

  /** Every existing pool is revised by at most one request. */
  ghost predicate RevisedOnce(requests: seq<Request>) {
    forall i, j, pool :: 0 <= i < j < |requests|
                         && Revises(requests[i].command.operation, pool)
                         ==> !Revises(requests[j].command.operation, pool)
  }

  /** Between two states without a revision of the pool in between, the pool keeps its value. */
  lemma {:induction false} PoolStays(base: EngineState, digest: Operation -> seq<int>, requests: seq<Request>, i: nat,
                                     j: nat, pool: PoolId)
    requires i <= j <= |requests| && pool in StateAt(base, digest, requests, i).pools
    requires forall k :: i <= k < j ==> !Revises(requests[k].command.operation, pool)
    ensures pool in StateAt(base, digest, requests, j).pools
    ensures StateAt(base, digest, requests, j).pools[pool] == StateAt(base, digest, requests, i).pools[pool]
  {
    hide PrepareUpTo;
    hide ApplyOnce;
    hide DurableOf;
    if i < j {
      PoolStays(base, digest, requests, i, j - 1, pool);
      PreparePushed(base, digest, requests, j - 1);
      PoolUntouched(StateAt(base, digest, requests, j - 1), requests[j - 1].command.operation, requests[j - 1].now,
                    pool);
    }
  }

  /** A batch that revises no pool twice always replays faithfully. */
  lemma RevisedOnceNeverReturns(base: EngineState, digest: Operation -> seq<int>, requests: seq<Request>, j: nat)
    requires j <= |requests| && RevisedOnce(requests)
    ensures NoReturn(base, digest, requests, j)
  {
    hide StateAt;
    forall pool, i | pool in base.pools && 0 <= i <= j && AtBase(base, StateAt(base, digest, requests, j), pool)
      ensures AtBase(base, StateAt(base, digest, requests, i), pool)
    {
      NothingPreparedYet(base, digest, requests);
      if k :| 0 <= k < i && Revises(requests[k].command.operation, pool) {
        PoolStays(base, digest, requests, 0, k, pool);
        RevisedAfter(base, digest, requests, k, i, j, pool);
      } else {
        PoolStays(base, digest, requests, 0, i, pool);
      }
    }
  }

  lemma RevisedAfter(base: EngineState, digest: Operation -> seq<int>, requests: seq<Request>, k: nat, i: nat, j: nat,
                     pool: PoolId)
    requires k < i <= j <= |requests| && RevisedOnce(requests) && Revises(requests[k].command.operation, pool)
    requires pool in StateAt(base, digest, requests, k).pools
    ensures pool in StateAt(base, digest, requests, i).pools && pool in StateAt(base, digest, requests, j).pools
    ensures StateAt(base, digest, requests, j).pools[pool] == StateAt(base, digest, requests, i).pools[pool]
  {
    hide StateAt;
    PoolKept(base, digest, requests, k, pool);
    forall m | k < m < j
      ensures !Revises(requests[m].command.operation, pool)
    {
    }
    PoolStays(base, digest, requests, k + 1, i, pool);
    PoolStays(base, digest, requests, i, j, pool);
  }

  /** A revision keeps the pool itself. */
  lemma PoolKept(base: EngineState, digest: Operation -> seq<int>, requests: seq<Request>, k: nat, pool: PoolId)
    requires k < |requests| && pool in StateAt(base, digest, requests, k).pools
    requires Revises(requests[k].command.operation, pool)
    ensures pool in StateAt(base, digest, requests, k + 1).pools
  {
    hide PrepareUpTo;
    hide DurableOf;
    hide ExpireUpTo;
    hide DueHolds;
    hide Rebuild;
    hide ActiveClaims;
    hide PoolDeficits;
    hide ResolvedEvents;
    hide CurrentEvents;
    hide AffectedPromises;
    PreparePushed(base, digest, requests, k);
    var st := StateAt(base, digest, requests, k);
    ExpirationsKeepPools(st, DueHolds(st, requests[k].now), |DueHolds(st, requests[k].now)|, requests[k].now);
  }

  // ---- A batch that does not replay faithfully ----

  const Narrow: seq<CapacitySegment> := []
  const Wide := [CapacitySegment(Interval(0, 10), 1)]

  function Revision(pool: PoolId, key: string, curve: seq<CapacitySegment>): Request {
    Request(Command(Identity("client", key), ReviseCapacity(pool, curve, Force)), 0)
  }

  function Creation(pool: PoolId): Request {
    Request(Command(Identity("client", "create"), CreateResourcePool(pool, "", Unit("unit", 1), Narrow)), 0)
  }

  /** The published engine after one command that creates the pool without capacity. */
  ghost function OnePool(pool: PoolId, digest: Operation -> seq<int>): Published {
    Run(Genesis, digest, [Creation(pool)])
  }

  lemma OnePoolFacts(pool: PoolId, digest: Operation -> seq<int>)
    ensures var p := OnePool(pool, digest);
            && Coherent(p.state) && Ledger(p.state) && p.revision == 1
            && p.state.pools == map[pool := Pool(pool, "", Unit("unit", 1), Narrow)] && pool in p.state.timelines
            && p.state.promises == map[] && p.state.sequence == 1
            && p.state.records.Keys == {Identity("client", "create")}
  {
    hide Coherent, Ledger, RecordsKnown, RebuiltPoints, Representable;
    CurvesValid();
    CurveRepresentable(Narrow);
    InvariantAlways(digest, [Creation(pool)]);
    var none: map<PromiseId, Promise> := map[];
    assert none.Keys == {} && SortedKeys({}) == [] && DueAmong(none, [], 0) == [];
    NothingDue(EmptyState, 0);
    assert [Creation(pool)][..0] == [];
  }

  function WidenThenNarrow(pool: PoolId): seq<Request> {
    [Revision(pool, "widen", Wide), Revision(pool, "narrow", Narrow)]
  }

  lemma WidenThenNarrowValid(pool: PoolId)
    ensures ValidRequests(WidenThenNarrow(pool))
  {
    CurvesValid();
  }

  lemma CurvesValid()
    ensures ValidCurve(Narrow) && ValidCurve(Wide)
  {
  }

  /** Without promises every revision of the pool to a valid curve succeeds. */
  lemma RevisionSucceeds(st: EngineState, pool: PoolId, curve: seq<CapacitySegment>)
    requires st.promises == map[] && pool in st.pools && pool in st.timelines && st.sequence < U64_MAX
    requires ValidCurve(curve)
    ensures var outcome := ApplyOnce(st, ReviseCapacity(pool, curve, Force), 0);
            && outcome.result.Ok? && outcome.state.promises == map[]
            && outcome.state.pools == st.pools[pool := st.pools[pool].(curve := curve)]
            && pool in outcome.state.timelines && outcome.state.sequence == st.sequence + 1
            && outcome.state.records == st.records
  {
    assert SortedKeys({}) == [];
    assert st.promises.Keys == {};
    assert DueAmong(st.promises, [], 0) == [];
    assert ActiveAmong(st.promises, [], pool) == [];
    NothingDue(st, 0);
    CurveRepresentable(curve);
    hide DueHolds;
    hide ExpireUpTo;
    hide RebuiltPoints;
    hide Representable;
    hide PoolDeficits;
    hide ResolvedEvents;
    hide CurrentEvents;
    hide AffectedPromises;
    hide Deficits;
  }

  /** Widening and narrowing again, command by command. */
  lemma WidenedAndNarrowed(pool: PoolId, digest: Operation -> seq<int>)
    ensures var base := OnePool(pool, digest).state;
            var requests := WidenThenNarrow(pool);
            && pool in base.pools && base.pools[pool].curve == Narrow
            && FirstSeen(base, digest, requests, 0) && FirstSeen(base, digest, requests, 1)
            && StateAt(base, digest, requests, 1).pools == base.pools[pool := base.pools[pool].(curve := Wide)]
            && StateAt(base, digest, requests, 2).pools == base.pools
            && !NoReturn(base, digest, requests, 2)
  {
    hide ApplyOnce, DurableOf, Coherent, Ledger, OnePool;
    var base := OnePool(pool, digest).state;
    var requests := WidenThenNarrow(pool);
    OnePoolFacts(pool, digest);
    CurvesValid();
    NothingPreparedYet(base, digest, requests);
    PreparePushed(base, digest, requests, 0);
    PreparePushed(base, digest, requests, 1);
    hide PrepareUpTo;
    RevisionSucceeds(base, pool, Wide);
    var middle := StateAt(base, digest, requests, 1);
    RevisionSucceeds(middle, pool, Narrow);
    assert |"widen"| != |"narrow"| && |"widen"| != |"create"| && "narrow"[0] != "create"[0];
    assert AtBase(base, StateAt(base, digest, requests, 2), pool) && !AtBase(base, middle, pool);
  }

  lemma WideReplayed(pool: PoolId, digest: Operation -> seq<int>)
    ensures var base := OnePool(pool, digest).state;
            var replayed := ReplayedPools(base, digest, WidenThenNarrow(pool), 2);
            pool in replayed && replayed[pool].curve == Wide
  {
    hide StateAt, StorePools, ReplayedPools, OnePool;
    var base := OnePool(pool, digest).state;
    var requests := WidenThenNarrow(pool);
    WidenedAndNarrowed(pool, digest);
    var middle, after := StateAt(base, digest, requests, 1), StateAt(base, digest, requests, 2);
    OnePoolKeyed(pool, digest);
    StoredDirectly(base.pools, base, middle, pool);
    StoredDirectly(StorePools(base.pools, base, middle), base, after, pool);
    ReplayedPushed(base, digest, requests, 0);
    ReplayedPushed(base, digest, requests, 1);
  }

  lemma {:induction false} ItemsBounded(base: EngineState, digest: Operation -> seq<int>, requests: seq<Request>,
                                        k: nat)
    requires k <= |requests|
    ensures |PrepareUpTo(base, digest, requests, k).items| <= k
  {
    hide ApplyOnce, DurableOf;
    if k > 0 {
      ItemsBounded(base, digest, requests, k - 1);
    }
  }

  lemma OnePoolKeyed(pool: PoolId, digest: Operation -> seq<int>)
    ensures Keyed(OnePool(pool, digest).state.pools, PoolKey)
    ensures Keyed(OnePool(pool, digest).state.pools[pool := Pool(pool, "", Unit("unit", 1), Wide)], PoolKey)
    ensures pool in OnePool(pool, digest).state.pools
    ensures OnePool(pool, digest).state.pools[pool] == Pool(pool, "", Unit("unit", 1), Narrow)
  {
    hide Coherent, Ledger, OnePool;
    OnePoolFacts(pool, digest);
  }

  /**
   A batch that widens a created pool and narrows it again returns the pool to its base value: the
   second record carries no pool, so installing the records and rebuilding the index leaves the wide
   curve although the published state has the narrow one.
   */
  lemma ReturnLosesRevision(pool: PoolId, digest: Operation -> seq<int>)
    ensures var p := OnePool(pool, digest);
            var requests := WidenThenNarrow(pool);
            var published := PublishedAt(p, digest, requests, 2);
            var installed := InstallAll(Unindexed(p), digest, PrepareUpTo(p.state, digest, requests, 2).items);
            && pool in published.state.pools && published.state.pools[pool].curve == Narrow
            && installed.Ok? && pool in installed.value.state.pools && installed.value.state.pools[pool].curve == Wide
            && Reindex(installed.value) != Ok(published) && !NoReturn(p.state, digest, requests, 2)
  {
    hide Coherent, Ledger, PrepareUpTo, ReplayedPools, InstallAll, Operation.Valid, RebuiltPoints, Representable,
         OnePool;
    var p := OnePool(pool, digest);
    var requests := WidenThenNarrow(pool);
    OnePoolFacts(pool, digest);
    CurvesValid();
    WidenThenNarrowValid(pool);
    ItemsBounded(p.state, digest, requests, 2);
    ReplayAccepted(p, digest, requests, 2);
    WidenedAndNarrowed(pool, digest);
    WideReplayed(pool, digest);
  }

  lemma ReplayedPushed(base: EngineState, digest: Operation -> seq<int>, requests: seq<Request>, j: nat)
    requires j < |requests| && FirstSeen(base, digest, requests, j)
    ensures ReplayedPools(base, digest, requests, 0) == base.pools
    ensures ReplayedPools(base, digest, requests, j + 1)
            == StorePools(ReplayedPools(base, digest, requests, j), base, StateAt(base, digest, requests, j + 1))
  {
    hide StorePools;
    hide StateAt;
  }

  lemma StoredDirectly(replayed: map<PoolId, Pool>, base: EngineState, after: EngineState, pool: PoolId)
    requires Keyed(after.pools, PoolKey)
    ensures var stored := StorePools(replayed, base, after);
            && (pool in stored <==> pool in replayed || Differs(base.pools, after.pools, pool))
            && (pool in stored ==>
                  stored[pool] == if Differs(base.pools, after.pools, pool) then after.pools[pool] else replayed[pool])
  {
    hide SortedKeys;
    hide Overlay;
    hide ChangedAmong;
    OverlayChanged(replayed, base.pools, after.pools, SortedKeys(after.pools.Keys), PoolKey, pool);
  }
}
