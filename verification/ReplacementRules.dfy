/**
 The documented replacement rule, that slack ends no worse than before or nonnegative, against what
 replacement does: the rule fails on a reachable state, and a condition on the current state decides it.
 */
module ReplacementRules {
  import opened Results
  import opened Intervals
  import opened StepFunctions
  import opened CapacityCurves
  import opened Domain
  import opened OrderedKeys
  import opened TimelineRebuild
  import opened Admission
  import opened AvailabilityOracle
  import opened Promises
  import opened Transitions
  import opened ActiveUsage
  import opened EngineInvariants
  import opened BundleAdmissions
  import opened BundleVerdicts
  import opened EngineSteps
  import opened Expiry
  import opened EngineSafety
  import opened EngineGuarantees

  // ---- When replacement keeps the rule ----

  /** Nowhere does the pool end below what it had, unless what it has is nonnegative. */
  ghost predicate PoolNeverWorsens(st: EngineState, after: EngineState, pool: PoolId) {
    && pool in st.timelines && pool in after.timelines
    && forall t :: At(0, after.timelines[pool], t) >= Min(0, At(0, st.timelines[pool], t))
  }

  ghost predicate NeverWorsens(st: EngineState, after: EngineState) {
    forall pool :: pool in st.timelines ==> PoolNeverWorsens(st, after, pool)
  }

  /** The restored timelines, each with a redundant point wherever the current timeline has one. */
  function RefinedOverrides(st: EngineState, restored: map<PoolId, seq<SlackPoint>>): map<PoolId, seq<SlackPoint>> {
    map pool | pool in restored ::
      if pool in st.timelines then Refine(restored[pool], st.timelines[pool]) else restored[pool]
  }

  /** The new bundle fits when evaluation also breaks at the current timelines' own points. */
  ghost predicate RefinedFits(st: EngineState, id: PromiseId, newBundle: Bundle) {
    && id in st.promises && RestoredTimelines(st, st.promises[id].bundle).Ok?
    && var restored := RestoredTimelines(st, st.promises[id].bundle).value;
       var evaluated := EvaluateBundle(st, newBundle, RefinedOverrides(st, restored));
       evaluated.Ok? && evaluated.value.BundleFits?
  }

  ghost predicate FitsWith(st: EngineState, bundle: Bundle, overrides: map<PoolId, seq<SlackPoint>>) {
    EvaluateBundle(st, bundle, overrides).Ok? && EvaluateBundle(st, bundle, overrides).value.BundleFits?
  }

  /** Slack a pool would end with, compared with what it had. */
  ghost predicate PoolRule(st: EngineState, freed: seq<Claim>, taken: seq<Claim>, pool: PoolId)
    requires pool in st.timelines
  {
    forall t :: At(0, st.timelines[pool], t) + Usage(ClaimsOn(freed, pool), t) - Usage(ClaimsOn(taken, pool), t)
                >= Min(0, At(0, st.timelines[pool], t))
  }

  /** One pool of the new bundle: accepted under the rule exactly when the refined sweep accepts. */
  lemma PoolRuleExactly(st: EngineState, newBundle: Bundle, restored: map<PoolId, seq<SlackPoint>>, freed: seq<Claim>,
                        pool: PoolId)
    requires Coherent(st) && ValidBundle(newBundle) && ValidClaims(freed) && Adjusts(st, restored, freed, [])
    requires pool in PoolsOf(newBundle) && pool in st.timelines
    ensures Accepts(SweepOn(st, newBundle, restored, pool)) && PoolRule(st, freed, newBundle, pool)
            <==> Accepts(SweepOn(st, newBundle, RefinedOverrides(st, restored), pool))
  {
    hide At, Usage, Coherent, Adjusts, SweepOn, Accepts, PoolsOf, ClaimsOn, PoolRule, NoWorse, Refine, Sweep.Valid,
         Sweep.Demand, Sweep.Slack, Canonical;
    var s := SweepOn(st, newBundle, restored, pool);
    OverridesSound(st, restored, freed);
    SweepValid(st, newBundle, restored, pool);
    RefinedSweep(st, newBundle, restored, pool);
    RuleMeaning(st, newBundle, restored, freed, pool);
    if s.floor.Some? {
      AcceptedNoWorseExactly(s);
    } else if Accepts(s) {
      UnflooredNoWorse(s);
    }
  }

  lemma RefinedSweep(st: EngineState, newBundle: Bundle, restored: map<PoolId, seq<SlackPoint>>, pool: PoolId)
    requires pool in st.timelines
    ensures var s := SweepOn(st, newBundle, restored, pool);
            && (s.floor.Some? <==> pool in restored)
            && SweepOn(st, newBundle, RefinedOverrides(st, restored), pool) == if s.floor.Some? then Repaired(s) else s
  {
    hide At, Refine, ClaimsOn;
  }

  /** Nothing undemanded worsens, so the pointwise rule is the sweep's. */
  lemma RuleMeaning(st: EngineState, newBundle: Bundle, restored: map<PoolId, seq<SlackPoint>>, freed: seq<Claim>,
                    pool: PoolId)
    requires ValidBundle(newBundle) && ValidClaims(freed) && Adjusts(st, restored, freed, []) && pool in st.timelines
    ensures var s := SweepOn(st, newBundle, restored, pool);
            && (s.floor.Some? ==> (NoWorse(s) <==> PoolRule(st, freed, newBundle, pool)))
            && (s.floor.None? && NoWorse(s) ==> PoolRule(st, freed, newBundle, pool))
  {
    hide At, Usage, ClaimsOn, Adjusts, SweepOn, Sweep.Demand, Sweep.Slack;
    var s := SweepOn(st, newBundle, restored, pool);
    SweepFacts(st, newBundle, restored, pool);
    RestoredSlack(st, newBundle, restored, freed, pool);
    forall t
      ensures s.Slack(t) - s.Demand(t)
              == At(0, st.timelines[pool], t) + Usage(ClaimsOn(freed, pool), t) - Usage(ClaimsOn(newBundle, pool), t)
      ensures s.Demand(t) >= 0 && s.Slack(t) >= At(0, st.timelines[pool], t)
    {
      DemandNonnegative(ClaimsOn(freed, pool), t);
      DemandNonnegative(ClaimsOn(newBundle, pool), t);
    }
    if NoWorse(s) {
      forall t
        ensures At(0, st.timelines[pool], t) + Usage(ClaimsOn(freed, pool), t) - Usage(ClaimsOn(newBundle, pool), t)
                >= Min(0, At(0, st.timelines[pool], t))
      {
        assert s.Demand(t) == Usage(ClaimsOn(newBundle, pool), t);
        assert s.Slack(t) >= At(0, st.timelines[pool], t);
      }
    }
    if s.floor.Some? && PoolRule(st, freed, newBundle, pool) {
      forall t | s.Demand(t) > 0
        ensures s.Slack(t) - s.Demand(t) >= s.Allowed(t)
      {
        assert s.Slack(t) - s.Demand(t)
               == At(0, st.timelines[pool], t) + Usage(ClaimsOn(freed, pool), t) - Usage(ClaimsOn(newBundle, pool), t);
      }
    }
  }

  /** Without a floor an accepted sweep leaves every demanded timestamp nonnegative. */
  lemma UnflooredNoWorse(s: Sweep)
    requires s.Valid() && s.claims != [] && s.floor.None? && Accepts(s)
    ensures NoWorse(s)
  {
    hide At, Usage, SortedKeys, SweepTimes;
    forall t
      ensures s.Demand(t) <= I64_MAX
    {
      AvailableBounded(s, t);
    }
    BoundedVerdict(s);
    RefusedMeansShort(s);
  }

  /** Replacing keeps the rule in every pool exactly when the refined evaluation accepts. */
  lemma FitsUnderRule(st: EngineState, newBundle: Bundle, restored: map<PoolId, seq<SlackPoint>>, freed: seq<Claim>)
    requires Coherent(st) && ValidBundle(newBundle) && ValidClaims(freed) && Adjusts(st, restored, freed, [])
    ensures FitsWith(st, newBundle, RefinedOverrides(st, restored))
            <==> FitsWith(st, newBundle, restored)
                 && forall pool :: pool in PoolsOf(newBundle) && pool in st.timelines ==>
                                     PoolRule(st, freed, newBundle, pool)
  {
    hide Coherent, Adjusts, SweepOn, Accepts, PoolsOf, PoolRule, RefinedOverrides, EvaluateBundle;
    FitsExactly(st, newBundle, restored);
    FitsExactly(st, newBundle, RefinedOverrides(st, restored));
    forall pool | pool in PoolsOf(newBundle) && pool in st.timelines
      ensures Accepts(SweepOn(st, newBundle, restored, pool)) && PoolRule(st, freed, newBundle, pool)
              <==> Accepts(SweepOn(st, newBundle, RefinedOverrides(st, restored), pool))
    {
      PoolRuleExactly(st, newBundle, restored, freed, pool);
    }
  }

  /** A pool the new bundle does not touch only gains slack. */
  lemma UntouchedPool(st: EngineState, freed: seq<Claim>, newBundle: Bundle, pool: PoolId)
    requires ValidClaims(freed) && pool in st.timelines && pool !in PoolsOf(newBundle)
    ensures PoolRule(st, freed, newBundle, pool)
  {
    hide At, Usage, PoolsOf;
    PoolListed(newBundle, pool);
    forall t
      ensures Usage(ClaimsOn(freed, pool), t) >= 0 && Usage(ClaimsOn(newBundle, pool), t) == 0
    {
      DemandNonnegative(ClaimsOn(freed, pool), t);
      NoUsage(t);
    }
  }

  lemma MovedNeverWorsens(st: EngineState, after: EngineState, freed: seq<Claim>, newBundle: Bundle)
    requires SlackMoved(st, after, freed, newBundle) && ValidClaims(freed)
    ensures NeverWorsens(st, after)
            <==> forall pool :: pool in PoolsOf(newBundle) && pool in st.timelines ==>
                                  PoolRule(st, freed, newBundle, pool)
  {
    hide At, Usage, PoolsOf, ClaimsOn;
    forall pool | pool in st.timelines
      ensures PoolNeverWorsens(st, after, pool) <==> PoolRule(st, freed, newBundle, pool)
      ensures pool !in PoolsOf(newBundle) ==> PoolRule(st, freed, newBundle, pool)
    {
      if pool !in PoolsOf(newBundle) {
        UntouchedPool(st, freed, newBundle, pool);
      }
      forall t
        ensures At(0, after.timelines[pool], t)
                == At(0, st.timelines[pool], t) + Usage(ClaimsOn(freed, pool), t) - Usage(ClaimsOn(newBundle, pool), t)
      {
      }
      PoolMoved(st, after, freed, newBundle, pool);
    }
  }

  lemma PoolMoved(st: EngineState, after: EngineState, freed: seq<Claim>, newBundle: Bundle, pool: PoolId)
    requires pool in st.timelines && pool in after.timelines
    requires forall t :: At(0, after.timelines[pool], t)
                         == At(0, st.timelines[pool], t) + Usage(ClaimsOn(freed, pool), t)
                            - Usage(ClaimsOn(newBundle, pool), t)
    ensures PoolNeverWorsens(st, after, pool) <==> PoolRule(st, freed, newBundle, pool)
  {
    hide At, Usage, ClaimsOn;
    if PoolRule(st, freed, newBundle, pool) {
      forall t
        ensures At(0, after.timelines[pool], t) >= Min(0, At(0, st.timelines[pool], t))
      {
      }
    }
    if PoolNeverWorsens(st, after, pool) {
      forall t
        ensures At(0, st.timelines[pool], t) + Usage(ClaimsOn(freed, pool), t) - Usage(ClaimsOn(newBundle, pool), t)
                >= Min(0, At(0, st.timelines[pool], t))
      {
        assert At(0, after.timelines[pool], t) >= Min(0, At(0, st.timelines[pool], t));
      }
    }
  }

  ghost predicate Replaced(result: Response) {
    result.Ok? && result.value.PromiseReplaced?
  }

  lemma ReplacedExactly(st: EngineState, id: PromiseId, expectedVersion: int, newBundle: Bundle,
                        newState: ReplacementState, now: int)
    requires Coherent(st)
    ensures Replaced(ReplacePromise(st, id, expectedVersion, newBundle, newState, now).result)
            <==> && Replaceable(st, id, expectedVersion, newState, now)
                 && RestoredTimelines(st, st.promises[id].bundle).Ok?
                 && FitsWith(st, newBundle, RestoredTimelines(st, st.promises[id].bundle).value)
  {
    hide Coherent, RestoredTimelines, EvaluateBundle, ForgetPromise;
  }

  lemma ReplacedMoves(st: EngineState, id: PromiseId, expectedVersion: int, newBundle: Bundle,
                      newState: ReplacementState, now: int)
    requires Coherent(st) && ValidBundle(newBundle)
    requires Replaced(ReplacePromise(st, id, expectedVersion, newBundle, newState, now).result)
    ensures id in st.promises
    ensures SlackMoved(st, ReplacePromise(st, id, expectedVersion, newBundle, newState, now).state,
                       st.promises[id].bundle, newBundle)
  {
    hide Coherent, RestoredTimelines, EvaluateBundle, FloorKept, DeficitFree, SlackMoved, ReplacePromise;
    ReplaceGuarantee(st, id, expectedVersion, newBundle, newState, now);
  }

  lemma ReplaceableFacts(st: EngineState, id: PromiseId, expectedVersion: int, newState: ReplacementState, now: int)
    requires Coherent(st) && Replaceable(st, id, expectedVersion, newState, now)
    ensures st.promises[id].Active() && ValidClaims(st.promises[id].bundle)
  {
    hide AllIndexed, SoundPools;
    assert SoundPromise(st, st.promises[id]);
  }

  /**
   A replacement that goes ahead keeps the documented rule in every pool at every time exactly when
   evaluation on the current state, breaking also at the current timelines' points, accepts the new
   bundle; a replacement the caller may make goes ahead whenever that evaluation accepts.
   */
  lemma ReplaceNeverWorsensExactly(st: EngineState, id: PromiseId, expectedVersion: int, newBundle: Bundle,
                                   newState: ReplacementState, now: int)
    requires Coherent(st) && ValidBundle(newBundle)
    ensures var replace := ReplacePromise(st, id, expectedVersion, newBundle, newState, now);
            && (Replaced(replace.result) ==> (NeverWorsens(st, replace.state) <==> RefinedFits(st, id, newBundle)))
            && (Replaceable(st, id, expectedVersion, newState, now) && RefinedFits(st, id, newBundle)
                ==> Replaced(replace.result))
  {
    hide *;
    ReplacedExactly(st, id, expectedVersion, newBundle, newState, now);
    if Replaceable(st, id, expectedVersion, newState, now) {
      ReplaceableKnown(st, id, expectedVersion, newState, now);
      ReplaceableFacts(st, id, expectedVersion, newState, now);
      var freed := st.promises[id].bundle;
      RestoredAdjusts(st, id);
      var restored := RestoredTimelines(st, freed).value;
      FitsUnderRule(st, newBundle, restored, freed);
      RefinedFitsMeaning(st, id, newBundle, restored);
      if Replaced(ReplacePromise(st, id, expectedVersion, newBundle, newState, now).result) {
        ReplacedMoves(st, id, expectedVersion, newBundle, newState, now);
        MovedNeverWorsens(st, ReplacePromise(st, id, expectedVersion, newBundle, newState, now).state, freed,
                          newBundle);
      }
    }
  }

  lemma ReplaceableKnown(st: EngineState, id: PromiseId, expectedVersion: int, newState: ReplacementState, now: int)
    requires Replaceable(st, id, expectedVersion, newState, now)
    ensures id in st.promises
  {
  }

  lemma RefinedFitsMeaning(st: EngineState, id: PromiseId, newBundle: Bundle, restored: map<PoolId, seq<SlackPoint>>)
    requires id in st.promises && RestoredTimelines(st, st.promises[id].bundle) == Ok(restored)
    ensures RefinedFits(st, id, newBundle) <==> FitsWith(st, newBundle, RefinedOverrides(st, restored))
  {
    hide RestoredTimelines, EvaluateBundle, RefinedOverrides;
  }
}
