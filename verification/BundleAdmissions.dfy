/** What restoring a bundle and evaluating a bundle mean for the timelines of a coherent engine. */
module BundleAdmissions {
  import opened Results
  import opened Intervals
  import opened StepFunctions
  import opened CapacityCurves
  import opened Domain
  import opened OrderedKeys
  import opened TimelineRebuild
  import opened Admission
  import opened Transitions
  import opened ActiveUsage
  import opened EngineInvariants

  // ---- Restoring ----

  /** `restored` holds the timelines of these pools with the bundle's usage added. */
  ghost predicate RestoredOn(st: EngineState, bundle: Bundle, pools: seq<PoolId>,
                             restored: map<PoolId, seq<SlackPoint>>)
  {
    && (forall pool :: pool in restored <==> pool in pools)
    && forall pool :: pool in restored && pool in st.timelines ==> AdjustsPool(st, restored, bundle, [], pool)
  }

  /** The bundle's usage can be added everywhere without leaving 63 bits. */
  ghost predicate Returnable(st: EngineState, bundle: Bundle) {
    forall pool, t :: pool in st.timelines
                      ==> At(0, st.timelines[pool], t) + Usage(ClaimsOn(bundle, pool), t) <= I64_MAX
  }

  lemma RestoreStep(st: EngineState, bundle: Bundle, pools: seq<PoolId>, k: nat, earlier: map<PoolId, seq<SlackPoint>>)
    requires AllIndexed(st) && SoundPools(st) && ValidClaims(bundle) && Returnable(st, bundle)
    requires k < |pools| && pools[k] in st.pools && RestoredOn(st, bundle, pools[..k], earlier)
    ensures var given := GiveBack(st.timelines[pools[k]], ClaimsOn(bundle, pools[k]));
            given.Ok? && RestoredOn(st, bundle, pools[..k + 1], earlier[pools[k] := given.value])
  {
    hide At;
    hide GiveBack;
    hide DenotesSlack;
    hide ActiveClaims;
    hide RestoredOn;
    var pool := pools[k];
    assert Indexed(st, pool);
    GiveBackCorrect(st.timelines[pool], ClaimsOn(bundle, pool));
    RestoredPush(st, bundle, pools, k, earlier, GiveBack(st.timelines[pool], ClaimsOn(bundle, pool)).value);
  }

  lemma RestoredPush(st: EngineState, bundle: Bundle, pools: seq<PoolId>, k: nat, earlier: map<PoolId, seq<SlackPoint>>,
                     given: seq<SlackPoint>)
    requires k < |pools| && pools[k] in st.timelines && RestoredOn(st, bundle, pools[..k], earlier)
    requires Wellformed(given)
    requires forall t :: At(0, given, t) == At(0, st.timelines[pools[k]], t) + Usage(ClaimsOn(bundle, pools[k]), t)
    ensures RestoredOn(st, bundle, pools[..k + 1], earlier[pools[k] := given])
  {
    hide At;
    var pool := pools[k];
    var restored := earlier[pool := given];
    assert pools[..k + 1] == pools[..k] + [pool];
    forall other | other in restored && other in st.timelines
      ensures AdjustsPool(st, restored, bundle, [], other)
    {
      if other != pool {
        assert AdjustsPool(st, earlier, bundle, [], other);
      }
    }
  }

  lemma {:induction false} RestoredUpToCorrect(st: EngineState, bundle: Bundle, pools: seq<PoolId>, k: nat)
    requires AllIndexed(st) && SoundPools(st) && ValidClaims(bundle) && Returnable(st, bundle)
    requires k <= |pools| && forall i :: 0 <= i < |pools| ==> pools[i] in st.pools
    ensures RestoredUpTo(st, bundle, pools, k).Ok?
    ensures RestoredOn(st, bundle, pools[..k], RestoredUpTo(st, bundle, pools, k).value)
  {
    if k > 0 {
      hide RestoredOn;
      hide GiveBack;
      hide Returnable;
      RestoredUpToCorrect(st, bundle, pools, k - 1);
      RestoreStep(st, bundle, pools, k - 1, RestoredUpTo(st, bundle, pools, k - 1).value);
    }
  }

  /** What an active promise holds can be given back: capacity itself fits 63 bits. */
  lemma ActiveReturnable(st: EngineState, id: PromiseId)
    requires Coherent(st) && id in st.promises && st.promises[id].Active()
    ensures Returnable(st, st.promises[id].bundle)
  {
    hide At;
    hide ActiveClaims;
    hide CapacityAt;
    hide ClaimsOn;
    hide Usage;
    BundlesValid(st);
    forall pool, t | pool in st.timelines
      ensures At(0, st.timelines[pool], t) + Usage(ClaimsOn(st.promises[id].bundle, pool), t) <= I64_MAX
    {
      assert Indexed(st, pool);
      ContributionBounded(st.promises, id, pool, t);
      CapacityBounded(st.pools[pool].curve, t);
      assert At(0, st.timelines[pool], t) == SlackOf(st.pools[pool].curve, ActiveClaims(st.promises, pool), t);
    }
  }

  /** Restoring an active promise's bundle never fails, and adds exactly its usage. */
  lemma RestoredAdjusts(st: EngineState, id: PromiseId)
    requires Coherent(st) && id in st.promises && st.promises[id].Active()
    ensures RestoredTimelines(st, st.promises[id].bundle).Ok?
    ensures Adjusts(st, RestoredTimelines(st, st.promises[id].bundle).value, st.promises[id].bundle, [])
    ensures forall pool :: pool in RestoredTimelines(st, st.promises[id].bundle).value
                           <==> pool in PoolsOf(st.promises[id].bundle)
  {
    hide At;
    hide RestoredUpTo;
    hide RestoredOn;
    hide Adjusts;
    hide ActiveClaims;
    hide AllIndexed;
    hide Returnable;
    hide PoolsOf;
    hide SoundPools;
    var bundle := st.promises[id].bundle;
    var pools := PoolsOf(bundle);
    PromisePools(st, id);
    ActiveReturnable(st, id);
    forall i | 0 <= i < |pools|
      ensures pools[i] in st.pools
    {
      var pool := pools[i];
      assert pool in pools;
    }
    RestoredUpToCorrect(st, bundle, pools, |pools|);
    assert pools[..|pools|] == pools;
    RestoredEverywhere(st, bundle, pools, RestoredTimelines(st, bundle).value);
  }

  /** A stored promise's bundle is valid and names existing pools. */
  lemma PromisePools(st: EngineState, id: PromiseId)
    requires SoundPromises(st) && id in st.promises
    ensures ValidClaims(st.promises[id].bundle)
    ensures forall pool :: pool in PoolsOf(st.promises[id].bundle) ==> pool in st.pools
  {
    assert SoundPromise(st, st.promises[id]);
  }

  lemma RestoredEverywhere(st: EngineState, bundle: Bundle, pools: seq<PoolId>, restored: map<PoolId, seq<SlackPoint>>)
    requires AllIndexed(st) && SoundPools(st) && ValidClaims(bundle) && pools == PoolsOf(bundle)
    requires RestoredOn(st, bundle, pools, restored) && forall pool :: pool in pools ==> pool in st.pools
    ensures Adjusts(st, restored, bundle, []) && forall pool :: pool in restored <==> pool in pools
  {
    hide At;
    hide PoolsOf;
    hide AdjustsPool;
    hide ClaimsOn;
    forall pool | pool in restored
      ensures pool in st.timelines
    {
      assert pool in pools;
    }
    forall pool | pool in st.timelines
      ensures AdjustsPool(st, restored, bundle, [], pool)
    {
      if pool !in restored {
        PoolListed(bundle, pool);
        UntouchedPool(st, restored, bundle, pool);
      }
    }
  }

  /** A pool the claims do not mention keeps its timeline. */
  lemma UntouchedPool(st: EngineState, timelines: map<PoolId, seq<SlackPoint>>, freed: seq<Claim>, pool: PoolId)
    requires AllIndexed(st) && SoundPools(st) && pool in st.timelines && pool !in timelines
    requires ClaimsOn(freed, pool) == []
    ensures AdjustsPool(st, timelines, freed, [], pool)
  {
    assert Indexed(st, pool);
  }

  // ---- Evaluating ----

  /** The sweep of one pool of a bundle. */
  function SweepOn(st: EngineState, bundle: Bundle, overrides: map<PoolId, seq<SlackPoint>>, pool: PoolId): Sweep
    requires pool in st.timelines
  {
    Sweep(pool, st.promises, ClaimsOn(bundle, pool), TimelineAfter(st, overrides, pool),
          if pool in overrides then Some(st.timelines[pool]) else None)
  }

  lemma SweepUsed(st: EngineState, bundle: Bundle, overrides: map<PoolId, seq<SlackPoint>>, pool: PoolId)
    ensures var sweep := PoolSweep(st, pool, ClaimsOn(bundle, pool), overrides);
            if pool in st.timelines then sweep == Ok(SweepOn(st, bundle, overrides, pool))
            else sweep == Err(ResourcePoolNotFound)
  {
  }

  /** Override timelines are well formed. */
  ghost predicate SoundOverrides(st: EngineState, overrides: map<PoolId, seq<SlackPoint>>) {
    forall pool :: pool in overrides ==> Wellformed(overrides[pool])
  }

  lemma NoOverrides(st: EngineState)
    ensures SoundOverrides(st, map[])
  {
  }

  lemma SweepValid(st: EngineState, bundle: Bundle, overrides: map<PoolId, seq<SlackPoint>>, pool: PoolId)
    requires Coherent(st) && SoundOverrides(st, overrides) && ValidClaims(bundle)
    requires pool in st.timelines && pool in PoolsOf(bundle)
    ensures var s := SweepOn(st, bundle, overrides, pool);
            s.Valid() && Canonical(s.base) && s.claims != []
  {
    PoolListed(bundle, pool);
    hide PoolsOf;
    hide At;
    hide ActiveClaims;
    assert Indexed(st, pool);
    forall id | id in st.promises
      ensures ValidClaims(st.promises[id].bundle)
    {
      assert SoundPromise(st, st.promises[id]);
    }
  }

  /** Conflict-free means every pool so far was available; its timeline is kept. */
  ghost predicate AvailableOn(st: EngineState, bundle: Bundle, overrides: map<PoolId, seq<SlackPoint>>,
                              pools: seq<PoolId>, timelines: map<PoolId, seq<SlackPoint>>)
  {
    && (forall pool :: pool in timelines <==> pool in pools)
    && forall pool :: pool in timelines ==>
                        pool in st.timelines
                        && SweepOn(st, bundle, overrides, pool).Verdict() == Ok(Available(timelines[pool]))
  }

  lemma UnavailableNonempty(s: Sweep)
    ensures s.Verdict().Ok? && s.Verdict().value.Unavailable? ==> s.Verdict().value.conflicts != []
  {
    hide SortedKeys;
    hide Consume;
  }

  lemma AvailableStep(st: EngineState, bundle: Bundle, overrides: map<PoolId, seq<SlackPoint>>, pools: seq<PoolId>,
                      k: nat, earlier: map<PoolId, seq<SlackPoint>>, points: seq<SlackPoint>)
    requires k < |pools| && AvailableOn(st, bundle, overrides, pools[..k], earlier)
    requires pools[k] in st.timelines
    requires SweepOn(st, bundle, overrides, pools[k]).Verdict() == Ok(Available(points))
    ensures AvailableOn(st, bundle, overrides, pools[..k + 1], earlier[pools[k] := points])
  {
    hide Sweep.Verdict;
    hide SweepOn;
    assert pools[..k + 1] == pools[..k] + [pools[k]];
  }

  lemma NextAvailable(st: EngineState, bundle: Bundle, overrides: map<PoolId, seq<SlackPoint>>, pools: seq<PoolId>,
                      k: nat, earlier: Evaluated)
    requires k < |pools| && NextEvaluated(st, bundle, overrides, pools[k], earlier).Ok?
    requires earlier.conflicts == [] ==> AvailableOn(st, bundle, overrides, pools[..k], earlier.timelines)
    ensures var evaluated := NextEvaluated(st, bundle, overrides, pools[k], earlier).value;
            evaluated.conflicts == [] ==> AvailableOn(st, bundle, overrides, pools[..k + 1], evaluated.timelines)
  {
    hide Sweep.Verdict;
    hide AvailableOn;
    SweepUsed(st, bundle, overrides, pools[k]);
    hide SweepOn;
    hide PoolSweep;
    var s := SweepOn(st, bundle, overrides, pools[k]);
    UnavailableNonempty(s);
    if s.Verdict().value.Available? && earlier.conflicts == [] {
      AvailableStep(st, bundle, overrides, pools, k, earlier.timelines, s.Verdict().value.points);
    }
  }

  lemma EvaluatedLast(st: EngineState, bundle: Bundle, overrides: map<PoolId, seq<SlackPoint>>, pools: seq<PoolId>,
                      k: nat)
    requires 0 < k <= |pools|
    ensures var earlier := EvaluatedUpTo(st, bundle, overrides, pools, k - 1);
            EvaluatedUpTo(st, bundle, overrides, pools, k)
            == if earlier.Err? then Err(earlier.error)
               else NextEvaluated(st, bundle, overrides, pools[k - 1], earlier.value)
  {
    hide NextEvaluated;
  }

  lemma NothingEvaluated(st: EngineState, bundle: Bundle, overrides: map<PoolId, seq<SlackPoint>>, pools: seq<PoolId>)
    ensures EvaluatedUpTo(st, bundle, overrides, pools, 0) == Ok(Evaluated(map[], []))
    ensures AvailableOn(st, bundle, overrides, pools[..0], map[])
  {
  }

  lemma {:induction false} EvaluatedAvailable(st: EngineState, bundle: Bundle, overrides: map<PoolId, seq<SlackPoint>>,
                                              pools: seq<PoolId>, k: nat)
    requires k <= |pools| && EvaluatedUpTo(st, bundle, overrides, pools, k).Ok?
    ensures var evaluated := EvaluatedUpTo(st, bundle, overrides, pools, k).value;
            evaluated.conflicts == [] ==> AvailableOn(st, bundle, overrides, pools[..k], evaluated.timelines)
  {
    hide *;
    if k == 0 {
      NothingEvaluated(st, bundle, overrides, pools);
    } else {
      EvaluatedLast(st, bundle, overrides, pools, k);
      EvaluatedAvailable(st, bundle, overrides, pools, k - 1);
      NextAvailable(st, bundle, overrides, pools, k - 1, EvaluatedUpTo(st, bundle, overrides, pools, k - 1).value);
    }
  }

  lemma FitsAvailable(st: EngineState, bundle: Bundle, overrides: map<PoolId, seq<SlackPoint>>)
    requires EvaluateBundle(st, bundle, overrides).Ok? && EvaluateBundle(st, bundle, overrides).value.BundleFits?
    ensures AvailableOn(st, bundle, overrides, PoolsOf(bundle), EvaluateBundle(st, bundle, overrides).value.timelines)
  {
    hide AvailableOn;
    var pools := PoolsOf(bundle);
    EvaluatedAvailable(st, bundle, overrides, pools, |pools|);
    assert pools[..|pools|] == pools;
  }

  /** An accepted timeline fits 64 bits: the floor it was held to does. */
  lemma AvailableWellformed(s: Sweep)
    requires s.Valid() && Canonical(s.base) && s.claims != []
    requires s.Verdict().Ok? && s.Verdict().value.Available?
    ensures Wellformed(s.Verdict().value.points)
  {
    hide At;
    hide Refused;
    VerdictCorrect(s);
    hide Sweep.Verdict;
    var points := s.Verdict().value.points;
    forall t
      ensures FitsI64(At(0, points, t))
    {
      DemandNonnegative(s.claims, t);
      SlackFits(s, t);
      if s.Demand(t) > 0 {
        var k := FloorSampledAtStart(s, t);
        AllowedFits(s, s.Keys()[k]);
      }
    }
    ValuesFit(points);
  }

  lemma AllowedFits(s: Sweep, t: int)
    requires s.Valid()
    ensures FitsI64(s.Allowed(t))
  {
    if s.floor.Some? {
      ValuesFit(s.floor.value);
    }
  }

  /** Accepting a bundle over restored timelines frees what was restored and takes the bundle. */
  lemma AcceptedAdjusts(st: EngineState, bundle: Bundle, overrides: map<PoolId, seq<SlackPoint>>, freed: seq<Claim>)
    requires Coherent(st) && ValidClaims(bundle) && Adjusts(st, overrides, freed, [])
    requires EvaluateBundle(st, bundle, overrides).Ok? && EvaluateBundle(st, bundle, overrides).value.BundleFits?
    ensures Adjusts(st, overrides + EvaluateBundle(st, bundle, overrides).value.timelines, freed, bundle)
  {
    FitsAvailable(st, bundle, overrides);
    hide *;
    AvailableAdjusts(st, bundle, overrides, freed, EvaluateBundle(st, bundle, overrides).value.timelines);
  }

  lemma AvailableAdjusts(st: EngineState, bundle: Bundle, overrides: map<PoolId, seq<SlackPoint>>, freed: seq<Claim>,
                         timelines: map<PoolId, seq<SlackPoint>>)
    requires Coherent(st) && ValidClaims(bundle) && Adjusts(st, overrides, freed, [])
    requires AvailableOn(st, bundle, overrides, PoolsOf(bundle), timelines)
    ensures Adjusts(st, overrides + timelines, freed, bundle)
  {
    hide At;
    hide AdjustsPool;
    hide Coherent;
    hide Sweep.Verdict;
    hide SweepOn;
    hide PoolsOf;
    OverridesSound(st, overrides, freed);
    forall pool | pool in overrides + timelines
      ensures pool in st.timelines
    {
      assert pool in overrides || pool in timelines;
    }
    forall pool | pool in st.timelines
      ensures AdjustsPool(st, overrides + timelines, freed, bundle, pool)
    {
      assert AdjustsPool(st, overrides, freed, [], pool);
      if pool in timelines {
        AcceptedPool(st, bundle, overrides, freed, timelines, pool);
      } else {
        PoolListed(bundle, pool);
        UnclaimedPool(st, bundle, overrides, freed, timelines, pool);
      }
    }
  }

  lemma OverridesSound(st: EngineState, overrides: map<PoolId, seq<SlackPoint>>, freed: seq<Claim>)
    requires Adjusts(st, overrides, freed, [])
    ensures SoundOverrides(st, overrides)
  {
    hide At;
    forall pool | pool in overrides
      ensures Wellformed(overrides[pool])
    {
      assert AdjustsPool(st, overrides, freed, [], pool);
    }
  }

  lemma AcceptedPool(st: EngineState, bundle: Bundle, overrides: map<PoolId, seq<SlackPoint>>, freed: seq<Claim>,
                     timelines: map<PoolId, seq<SlackPoint>>, pool: PoolId)
    requires Coherent(st) && ValidClaims(bundle) && SoundOverrides(st, overrides)
    requires pool in st.timelines && AdjustsPool(st, overrides, freed, [], pool)
    requires AvailableOn(st, bundle, overrides, PoolsOf(bundle), timelines) && pool in timelines
    ensures AdjustsPool(st, overrides + timelines, freed, bundle, pool)
  {
    hide At;
    hide Usage;
    hide PoolsOf;
    hide Refused;
    SweepValid(st, bundle, overrides, pool);
    var s := SweepOn(st, bundle, overrides, pool);
    VerdictCorrect(s);
    AvailableWellformed(s);
    hide Sweep.Verdict;
    assert ClaimsOn([], pool) == [];
    forall t
      ensures Usage([], t) == 0
    {
      NoUsage(t);
    }
  }

  lemma NoUsage(t: int)
    ensures Usage([], t) == 0
  {
  }

  lemma UnclaimedPool(st: EngineState, bundle: Bundle, overrides: map<PoolId, seq<SlackPoint>>, freed: seq<Claim>,
                      timelines: map<PoolId, seq<SlackPoint>>, pool: PoolId)
    requires pool in st.timelines && AdjustsPool(st, overrides, freed, [], pool)
    requires pool !in timelines && ClaimsOn(bundle, pool) == []
    ensures AdjustsPool(st, overrides + timelines, freed, bundle, pool)
  {
    hide At;
    hide Usage;
    assert ClaimsOn([], pool) == [];
  }

  /** Where an accepted bundle demands anything, slack stays nonnegative or at the floor sampled at a window start. */
  lemma AcceptedFloor(st: EngineState, bundle: Bundle, overrides: map<PoolId, seq<SlackPoint>>, pool: PoolId, t: int)
    returns (sampled: int)
    requires Coherent(st) && ValidClaims(bundle) && SoundOverrides(st, overrides)
    requires EvaluateBundle(st, bundle, overrides).Ok? && EvaluateBundle(st, bundle, overrides).value.BundleFits?
    requires Usage(ClaimsOn(bundle, pool), t) > 0
    ensures var timelines := EvaluateBundle(st, bundle, overrides).value.timelines;
            && pool in timelines && pool in st.timelines && sampled <= t
            && At(0, timelines[pool], t) >= if pool in overrides then Min(0, At(0, st.timelines[pool], sampled)) else 0
    ensures InSweepWindow(SweepOn(st, bundle, overrides, pool), sampled, t)
  {
    hide At;
    hide Refused;
    DemandedPool(bundle, pool, t);
    FitsAvailable(st, bundle, overrides);
    hide EvaluateBundle;
    hide PoolsOf;
    var timelines := EvaluateBundle(st, bundle, overrides).value.timelines;
    SweepValid(st, bundle, overrides, pool);
    var s := SweepOn(st, bundle, overrides, pool);
    VerdictCorrect(s);
    hide Sweep.Verdict;
    assert s.Verdict().value.points == timelines[pool];
    var k := FloorSampledAtStart(s, t);
    sampled := s.Keys()[k];
  }

  /** `sampled` starts the sweep window that holds `t`. */
  ghost predicate InSweepWindow(s: Sweep, sampled: int, t: int) {
    exists k :: InWindow(s.Keys(), k, t) && s.Keys()[k] == sampled
  }

  lemma DemandedPool(bundle: Bundle, pool: PoolId, t: int)
    requires Usage(ClaimsOn(bundle, pool), t) > 0
    ensures pool in PoolsOf(bundle)
  {
    PoolListed(bundle, pool);
  }
}
