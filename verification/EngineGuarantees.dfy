/** What holds, replacements and revisions guarantee about slack in any coherent engine. */
module EngineGuarantees {
  import opened Results
  import opened Intervals
  import opened StepFunctions
  import opened SlackTimelines
  import opened CapacityCurves
  import opened Domain
  import opened OrderedKeys
  import opened TimelineRebuild
  import opened Admission
  import opened Promises
  import opened Transitions
  import opened ActiveUsage
  import opened EngineInvariants
  import opened BundleAdmissions
  import opened BundleVerdicts
  import opened EngineSteps
  import opened EngineSafety

  // ---- Holds ----

  /** The bundle is held under `id`; slack drops by exactly its demand, and nowhere below zero under it. */
  ghost predicate HeldSafely(st: EngineState, after: EngineState, id: PromiseId, bundle: Bundle, expiresAt: int) {
    && id !in st.promises
    && after.promises
       == st.promises[id := Promise(id, Held(expiresAt), bundle, 1, st.sequence + 1, st.sequence + 1)]
    && after.pools == st.pools && after.records == st.records && after.sequence == st.sequence + 1
    && SlackMoved(st, after, [], bundle)
    && forall i, t :: 0 <= i < |bundle| && bundle[i].interval.Contains(t)
                      ==> bundle[i].poolId in after.timelines && At(0, after.timelines[bundle[i].poolId], t) >= 0
  }

  /** Every pool's slack gained what was freed and lost what was taken. */
  ghost predicate SlackMoved(st: EngineState, after: EngineState, freed: seq<Claim>, taken: seq<Claim>) {
    && after.timelines.Keys == st.timelines.Keys
    && forall pool, t :: pool in st.timelines ==>
                           At(0, after.timelines[pool], t)
                           == At(0, st.timelines[pool], t) + Usage(ClaimsOn(freed, pool), t)
                              - Usage(ClaimsOn(taken, pool), t)
  }

  lemma AdjustsMoves(st: EngineState, timelines: map<PoolId, seq<SlackPoint>>, freed: seq<Claim>, taken: seq<Claim>,
                     after: EngineState)
    requires Adjusts(st, timelines, freed, taken) && after.timelines == st.timelines + timelines
    ensures SlackMoved(st, after, freed, taken)
  {
    hide At;
    assert after.timelines.Keys == st.timelines.Keys;
    forall pool, t | pool in st.timelines
      ensures At(0, after.timelines[pool], t)
              == At(0, st.timelines[pool], t) + Usage(ClaimsOn(freed, pool), t) - Usage(ClaimsOn(taken, pool), t)
    {
      assert AdjustsPool(st, timelines, freed, taken, pool);
    }
  }

  lemma ClaimDemands(bundle: Bundle, i: nat, t: int)
    requires ValidClaims(bundle) && i < |bundle| && bundle[i].interval.Contains(t)
    ensures Usage(ClaimsOn(bundle, bundle[i].poolId), t) > 0
  {
    SomeClaimsOn(bundle, i);
    var on := ClaimsOn(bundle, bundle[i].poolId);
    var j :| 0 <= j < |on| && on[j] == bundle[i];
    DemandNonnegative(on, t);
    assert on[j].interval.Contains(t);
  }

  lemma AcceptedSafely(st: EngineState, id: PromiseId, bundle: Bundle, expiresAt: int, now: int)
    requires Coherent(st) && ValidBundle(bundle) && id !in st.promises
    requires EvaluateBundle(st, bundle, map[]).Ok? && EvaluateBundle(st, bundle, map[]).value.BundleFits?
    ensures var timelines := EvaluateBundle(st, bundle, map[]).value.timelines;
            var accepted := AcceptHold(st, id, bundle, expiresAt, now, timelines);
            if accepted.result.Ok? then HeldSafely(st, accepted.state, id, bundle, expiresAt) else accepted.state == st
  {
    hide At;
    hide AllIndexed;
    hide Adjusts;
    hide SlackMoved;
    hide Usage;
    hide EvaluateBundle;
    AcceptedFacts(st, bundle);
    var timelines := EvaluateBundle(st, bundle, map[]).value.timelines;
    var accepted := AcceptHold(st, id, bundle, expiresAt, now, timelines);
    if accepted.result.Ok? {
      AdjustsMoves(st, timelines, [], bundle, accepted.state);
      forall i, t | 0 <= i < |bundle| && bundle[i].interval.Contains(t)
        ensures bundle[i].poolId in timelines && At(0, timelines[bundle[i].poolId], t) >= 0
      {
        ClaimDemands(bundle, i, t);
        var sampled := AcceptedFloor(st, bundle, map[], bundle[i].poolId, t);
      }
    }
  }

  /** A bundle that does not fit the current timelines. */
  ghost predicate Blocked(st: EngineState, bundle: Bundle) {
    EvaluateBundle(st, bundle, map[]).Ok? && EvaluateBundle(st, bundle, map[]).value.BundleBlocked?
  }

  /** The conflicts are in canonical order, each exact, and cover exactly what the bundle's pools refuse. */
  ghost predicate ExactlyBlocked(st: EngineState, bundle: Bundle, conflicts: seq<AvailabilityConflict>) {
    && conflicts != [] && ConflictOrder(conflicts)
    && AllReportedExact(st, bundle, map[], conflicts) && CoverRefusals(st, bundle, map[], conflicts)
  }

  lemma BlockedExactly(st: EngineState, bundle: Bundle, conflicts: seq<AvailabilityConflict>)
    requires Coherent(st) && ValidBundle(bundle) && EvaluateBundle(st, bundle, map[]) == Ok(BundleBlocked(conflicts))
    ensures ExactlyBlocked(st, bundle, conflicts)
  {
    hide EvaluateBundle;
    hide Coherent;
    hide CoverRefusals;
    hide AllReportedExact;
    NoOverrides(st);
    BundleExact(st, bundle, map[]);
  }

  /**
   A hold leaves slack nonnegative under its claims; an unavailable one reports exact conflicts and changes
   nothing.
   */
  lemma HoldGuarantee(st: EngineState, id: PromiseId, bundle: Bundle, expiresAt: int, now: int)
    requires Coherent(st) && ValidBundle(bundle)
    ensures var hold := HoldBundle(st, id, bundle, expiresAt, now);
            if hold.result == Ok(HoldHeld(id)) then HeldSafely(st, hold.state, id, bundle, expiresAt)
            else hold.state == st
    ensures var hold := HoldBundle(st, id, bundle, expiresAt, now);
            hold.result.Ok? && hold.result.value.HoldUnavailable? ==>
              ExactlyBlocked(st, bundle, hold.result.value.conflicts)
  {
    hide Coherent;
    hide HeldSafely;
    hide EvaluateBundle;
    hide AcceptHold;
    hide ExactlyBlocked;
    var evaluated := EvaluateBundle(st, bundle, map[]);
    if HoldReady(st, id, expiresAt, now).Ok? && evaluated.Ok? {
      if evaluated.value.BundleFits? {
        AcceptedSafely(st, id, bundle, expiresAt, now);
      } else {
        BlockedExactly(st, bundle, evaluated.value.conflicts);
      }
    }
  }

  /** An ordered choice holds the first alternative that fits, or changes nothing. */
  lemma ChoiceGuarantee(st: EngineState, id: PromiseId, choice: seq<Bundle>, expiresAt: int, now: int)
    requires Coherent(st) && forall i :: 0 <= i < |choice| ==> ValidBundle(choice[i])
    ensures var hold := HoldChoice(st, id, choice, expiresAt, now);
            if hold.result.Ok? && hold.result.value.ChoiceHeld? then
              var chosen := hold.result.value.alternative;
              && 0 <= chosen < |choice| && HeldSafely(st, hold.state, id, choice[chosen], expiresAt)
              && forall i :: 0 <= i < chosen ==> Blocked(st, choice[i])
            else hold.state == st
    ensures var hold := HoldChoice(st, id, choice, expiresAt, now);
            hold.result.Ok? && hold.result.value.ChoiceUnavailable? ==>
              var reported := hold.result.value.alternatives;
              && |reported| == |choice|
              && forall i :: 0 <= i < |choice| ==>
                               reported[i].alternative == i && ExactlyBlocked(st, choice[i], reported[i].conflicts)
  {
    hide Coherent;
    hide HeldSafely;
    hide EvaluateBundle;
    hide AcceptHold;
    hide ScanChoice;
    hide ExactlyBlocked;
    var scan := ScanChoice(st, choice, |choice|);
    if HoldReady(st, id, expiresAt, now).Ok? && scan.Ok? {
      FirstFitMeaning(st, choice, |choice|);
      if scan.value.FirstFit? {
        AcceptedSafely(st, id, choice[scan.value.alternative], expiresAt, now);
      } else {
        forall i | 0 <= i < |choice|
          ensures ExactlyBlocked(st, choice[i], scan.value.conflicts[i].conflicts)
        {
          BlockedExactly(st, choice[i], scan.value.conflicts[i].conflicts);
        }
      }
    }
  }

  // ---- First slot ----

  /** The `m`-th candidate start. */
  function Candidate(start: int, step: int, m: nat): int {
    start + m * step
  }

  ghost predicate SlotBlocked(st: EngineState, relative: seq<RelativeClaim>, start: int) {
    Materialize(relative, start).Ok? && Blocked(st, Materialize(relative, start).value)
  }

  /** The search stops at the first candidate that fits, after trying every earlier one. */
  lemma {:induction false} SearchMeaning(st: EngineState, relative: seq<RelativeClaim>, start: int, latest: int,
                                         step: int, attempts: int)
    returns (tried: nat)
    requires 0 < step && start <= latest
    requires SearchFrom(st, relative, start, latest, step, attempts).Ok?
    ensures forall m :: 0 <= m < tried ==> SlotBlocked(st, relative, Candidate(start, step, m))
    ensures match SearchFrom(st, relative, start, latest, step, attempts).value
            case SlotFound(from, bundle, timelines) =>
              && from == Candidate(start, step, tried) <= latest && Materialize(relative, from) == Ok(bundle)
              && EvaluateBundle(st, bundle, map[]) == Ok(BundleFits(timelines))
            case NoSlot(total) =>
              && total == attempts + tried
              && (Candidate(start, step, tried) > latest || !FitsI64(Candidate(start, step, tried)))
    decreases latest - start
  {
    hide EvaluateBundle;
    hide Materialize;
    var admission := EvaluateBundle(st, Materialize(relative, start).value, map[]).value;
    if admission.BundleFits? {
      tried := 0;
      assert Candidate(start, step, 0) == start;
    } else if start == latest || !FitsI64(start + step) || start + step > latest {
      tried := 1;
      assert Candidate(start, step, 0) == start && Candidate(start, step, 1) == start + step;
    } else {
      var rest := SearchMeaning(st, relative, start + step, latest, step, attempts + 1);
      tried := rest + 1;
      forall m | 0 <= m < tried
        ensures SlotBlocked(st, relative, Candidate(start, step, m))
      {
        if m == 0 {
          assert Candidate(start, step, 0) == start;
        } else {
          assert Candidate(start + step, step, m - 1) == Candidate(start, step, m);
        }
      }
      assert Candidate(start + step, step, rest) == Candidate(start, step, tried);
    }
  }

  /** A slot hold takes the earliest feasible candidate, or changes nothing. */
  lemma SlotGuarantee(st: EngineState, id: PromiseId, relative: seq<RelativeClaim>, earliest: int, latest: int,
                      step: int, expiresAt: int, now: int)
    returns (tried: nat)
    requires Coherent(st) && relative != [] && forall i :: 0 <= i < |relative| ==> relative[i].Valid()
    ensures var hold := HoldSlot(st, id, relative, earliest, latest, step, expiresAt, now);
            if hold.result.Ok? && hold.result.value.SlotHeld? then
              var from := hold.result.value.start;
              && from == Candidate(earliest, step, tried) <= latest && Materialize(relative, from).Ok?
              && HeldSafely(st, hold.state, id, Materialize(relative, from).value, expiresAt)
              && forall m :: 0 <= m < tried ==> SlotBlocked(st, relative, Candidate(earliest, step, m))
            else hold.state == st
    ensures var hold := HoldSlot(st, id, relative, earliest, latest, step, expiresAt, now);
            hold.result.Ok? && hold.result.value.SlotUnavailable? ==>
              && hold.result.value.attempts == tried
              && (forall m :: 0 <= m < tried ==> SlotBlocked(st, relative, Candidate(earliest, step, m)))
              && (Candidate(earliest, step, tried) > latest || !FitsI64(Candidate(earliest, step, tried)))
  {
    hide Coherent;
    hide HeldSafely;
    hide SlotBlocked;
    hide Candidate;
    hide EvaluateBundle;
    hide AcceptHold;
    hide SearchFrom;
    hide Materialize;
    tried := 0;
    var search := SearchSlots(st, relative, earliest, latest, step);
    if HoldReady(st, id, expiresAt, now).Ok? && search.Ok? {
      tried := SearchMeaning(st, relative, earliest, latest, step, 0);
      if search.value.SlotFound? {
        MaterializedClaims(relative, search.value.start);
        AcceptedSafely(st, id, search.value.bundle, expiresAt, now);
      }
    }
  }

  // ---- Replacements ----

  /**
   What a caller needs besides room: a sequence number, a live promise of the expected version, and a
   deadline ahead.
   */
  predicate Replaceable(st: EngineState, id: PromiseId, expected: int, newState: ReplacementState, now: int) {
    && st.sequence < U64_MAX && id in st.promises
    && (LiveHold(st.promises[id], now) || st.promises[id].state.Committed?)
    && st.promises[id].version == expected < U64_MAX
    && (newState.ReplacedHeld? ==> now < newState.deadline)
  }

  lemma ReplacingIs(p: Promise, expected: int, newBundle: Bundle, newState: ReplacementState, now: int, sequence: int)
    ensures Replacing(p, expected, newBundle, newState, now, sequence)
            == if p.version != expected then Err(VersionConflict)
               else if p.state.Held? && p.state.expiresAt <= now then Err(HoldExpired)
               else if !p.state.Held? && !p.state.Committed? then Err(InvalidPromiseState)
               else if newState.ReplacedHeld? && newState.deadline <= now then Err(InvalidExpiration)
               else if p.version >= U64_MAX then Err(VersionOverflow)
               else Ok(Promise(p.id, if newState.ReplacedHeld? then Held(newState.deadline) else Committed, newBundle,
                               p.version + 1, p.createdSequence, sequence))
  {
  }

  /** The old bundle's usage is freed and the new one taken, in one step. */
  ghost predicate ReplacedAtomically(st: EngineState, after: EngineState, id: PromiseId, newBundle: Bundle,
                                     newState: ReplacementState)
  {
    && id in st.promises
    && var p := st.promises[id];
       && after.promises
          == st.promises[id := Promise(id, if newState.ReplacedHeld? then Held(newState.deadline) else Committed,
                                       newBundle, p.version + 1, p.createdSequence, st.sequence + 1)]
       && after.pools == st.pools && after.records == st.records && after.sequence == st.sequence + 1
       && SlackMoved(st, after, p.bundle, newBundle)
  }

  /**
   Under the new bundle slack ends at zero or above or, in a pool the old bundle touched, no lower than
   it was where the sweep's window starts.
   */
  ghost predicate FloorKept(st: EngineState, after: EngineState, id: PromiseId, newBundle: Bundle) {
    && id in st.promises && RestoredTimelines(st, st.promises[id].bundle).Ok?
    && var restored := RestoredTimelines(st, st.promises[id].bundle).value;
       forall pool, t :: pool in after.timelines && pool in st.timelines && Usage(ClaimsOn(newBundle, pool), t) > 0 ==>
                           if pool in restored
                           then exists sampled :: InSweepWindow(SweepOn(st, newBundle, restored, pool), sampled, t)
                                                  && At(0, after.timelines[pool], t)
                                                     >= Min(0, At(0, st.timelines[pool], sampled))
                           else At(0, after.timelines[pool], t) >= 0
  }

  /**
   Replacement is atomic: on success current slack plus the old bundle minus the new one, floored as
   sampled, and a deficit-free engine stays so; on every other result nothing changes.
   */
  lemma ReplaceGuarantee(st: EngineState, id: PromiseId, expectedVersion: int, newBundle: Bundle,
                         newState: ReplacementState, now: int)
    requires Coherent(st) && ValidBundle(newBundle)
    ensures var replace := ReplacePromise(st, id, expectedVersion, newBundle, newState, now);
            if replace.result.Ok? && replace.result.value.PromiseReplaced? then
              && ReplacedAtomically(st, replace.state, id, newBundle, newState)
              && FloorKept(st, replace.state, id, newBundle)
              && (DeficitFree(st) ==> DeficitFree(replace.state))
            else replace.state == st
  {
    hide AllIndexed;
    hide RestoredTimelines;
    hide EvaluateBundle;
    hide ReplacedAtomically;
    hide FloorKept;
    hide DeficitFree;
    if st.sequence < U64_MAX && id in st.promises && !st.promises[id].state.Expired? {
      var p := st.promises[id];
      var replacing := Replacing(p, expectedVersion, newBundle, newState, now, st.sequence + 1);
      if replacing.Ok? {
        RestoredAdjusts(st, id);
        var restored := RestoredTimelines(st, p.bundle).value;
        var evaluated := EvaluateBundle(st, newBundle, restored);
        if evaluated.Ok? && evaluated.value.BundleFits? {
          var after :=
            Publish(st, replacing.value, restored + evaluated.value.timelines, st.sequence + 1, now, HoldReplaced);
          ReplacedFacts(st, id, newBundle, newState, restored, after);
        }
      }
    }
  }

  lemma ReplacedFacts(st: EngineState, id: PromiseId, newBundle: Bundle, newState: ReplacementState,
                      restored: map<PoolId, seq<SlackPoint>>, after: EngineState)
    requires Coherent(st) && ValidBundle(newBundle) && id in st.promises && st.promises[id].Active()
    requires RestoredTimelines(st, st.promises[id].bundle) == Ok(restored)
    requires EvaluateBundle(st, newBundle, restored).Ok? && EvaluateBundle(st, newBundle, restored).value.BundleFits?
    requires after.timelines == st.timelines + (restored + EvaluateBundle(st, newBundle, restored).value.timelines)
    requires var p := st.promises[id];
             after.promises
             == st.promises[id := Promise(id, if newState.ReplacedHeld? then Held(newState.deadline) else Committed,
                                          newBundle, p.version + 1, p.createdSequence, st.sequence + 1)]
    requires after.pools == st.pools && after.records == st.records && after.sequence == st.sequence + 1
    ensures ReplacedAtomically(st, after, id, newBundle, newState)
    ensures FloorKept(st, after, id, newBundle)
    ensures DeficitFree(st) ==> DeficitFree(after)
  {
    hide At;
    hide AllIndexed;
    hide RestoredTimelines;
    hide EvaluateBundle;
    hide FloorKept;
    hide Adjusts;
    hide SlackMoved;
    hide DeficitFree;
    hide KeepsDeficitFree;
    var p := st.promises[id];
    var timelines := EvaluateBundle(st, newBundle, restored).value.timelines;
    assert SoundPromise(st, p);
    RestoredAdjusts(st, id);
    AcceptedAdjusts(st, newBundle, restored, p.bundle);
    AdjustsMoves(st, restored + timelines, p.bundle, newBundle, after);
    AcceptedKeepsDeficitFree(st, newBundle, restored, p.bundle);
    MergedDeficitFree(st, restored + timelines, after);
    OverridesSound(st, restored, p.bundle);
    FloorFacts(st, id, newBundle, restored, timelines, after);
  }

  lemma MergedDeficitFree(st: EngineState, timelines: map<PoolId, seq<SlackPoint>>, after: EngineState)
    requires KeepsDeficitFree(st, timelines) && after.timelines == st.timelines + timelines
    ensures DeficitFree(st) ==> DeficitFree(after)
  {
    hide At;
  }

  lemma FloorFacts(st: EngineState, id: PromiseId, newBundle: Bundle, restored: map<PoolId, seq<SlackPoint>>,
                   timelines: map<PoolId, seq<SlackPoint>>, after: EngineState)
    requires Coherent(st) && ValidBundle(newBundle) && id in st.promises && SoundOverrides(st, restored)
    requires RestoredTimelines(st, st.promises[id].bundle) == Ok(restored)
    requires EvaluateBundle(st, newBundle, restored) == Ok(BundleFits(timelines))
    requires after.timelines == st.timelines + (restored + timelines)
    ensures FloorKept(st, after, id, newBundle)
  {
    hide At;
    hide Coherent;
    hide EvaluateBundle;
    hide PoolsOf;
    hide RestoredTimelines;
    hide Usage;
    hide SweepOn;
    hide InSweepWindow;
    forall pool, t | pool in after.timelines && pool in st.timelines && Usage(ClaimsOn(newBundle, pool), t) > 0
      ensures if pool in restored
              then exists sampled :: InSweepWindow(SweepOn(st, newBundle, restored, pool), sampled, t)
                                     && At(0, after.timelines[pool], t)
                                                     >= Min(0, At(0, st.timelines[pool], sampled))
                           else At(0, after.timelines[pool], t) >= 0
    {
      var sampled := AcceptedFloor(st, newBundle, restored, pool, t);
      assert after.timelines[pool] == timelines[pool];
    }
  }

  /** The documented final-state rule: wherever the new bundle demands anything, restored slack suffices. */
  ghost predicate FitsFinalState(st: EngineState, freed: seq<Claim>, newBundle: Bundle) {
    forall pool, t :: pool in PoolsOf(newBundle) && pool in st.timelines && Usage(ClaimsOn(newBundle, pool), t) > 0 ==>
                        Usage(ClaimsOn(newBundle, pool), t)
                        <= At(0, st.timelines[pool], t) + Usage(ClaimsOn(freed, pool), t)
  }

  /** Every pool of the bundle exists, and its claims on any pool sum to at most 64 bits at any time. */
  ghost predicate Evaluable(st: EngineState, bundle: Bundle) {
    && PoolsExist(bundle, st.pools)
    && forall pool, t :: pool in PoolsOf(bundle) ==> Usage(ClaimsOn(bundle, pool), t) <= U64_MAX
  }

  /** A floor without a deficit plays no part: the sweep is available exactly when slack covers demand. */
  lemma DeficitFreeVerdict(s: Sweep)
    requires s.Valid() && Canonical(s.base) && s.claims != [] && forall t :: s.Demand(t) <= U64_MAX
    requires s.floor.Some? ==> forall t :: At(0, s.floor.value, t) >= 0
    ensures s.Verdict().Ok?
    ensures s.Verdict().value.Available? <==> forall t :: s.Demand(t) > 0 ==> s.Demand(t) <= s.Slack(t)
  {
    hide At, Usage, Sweep.Verdict, Exact, BaseMinusDemand, Wellformed;
    if s.floor.Some? {
      DeficitFreeFloor(s);
    }
    var plain := s.(floor := None);
    forall t
      ensures plain.Demand(t) == s.Demand(t) && plain.Slack(t) == s.Slack(t)
    {
    }
    SweepExact(plain);
  }

  lemma RestoredSlack(st: EngineState, newBundle: Bundle, restored: map<PoolId, seq<SlackPoint>>, freed: seq<Claim>,
                      pool: PoolId)
    requires pool in st.timelines && Adjusts(st, restored, freed, [])
    ensures forall t :: SweepOn(st, newBundle, restored, pool).Slack(t)
                        == At(0, st.timelines[pool], t) + Usage(ClaimsOn(freed, pool), t)
  {
    hide At, Usage, ClaimsOn, Wellformed;
    assert AdjustsPool(st, restored, freed, [], pool);
    NoUsageOn(pool);
  }

  lemma SweepFacts(st: EngineState, newBundle: Bundle, restored: map<PoolId, seq<SlackPoint>>, pool: PoolId)
    requires pool in st.timelines
    ensures var s := SweepOn(st, newBundle, restored, pool);
            && s.floor == (if pool in restored then Some(st.timelines[pool]) else None)
            && s.base == TimelineAfter(st, restored, pool)
            && forall t :: s.Demand(t) == Usage(ClaimsOn(newBundle, pool), t)
  {
    hide Usage, ClaimsOn;
  }

  lemma DeficitFreePool(st: EngineState, newBundle: Bundle, restored: map<PoolId, seq<SlackPoint>>, freed: seq<Claim>,
                        pool: PoolId)
    requires Coherent(st) && DeficitFree(st) && ValidBundle(newBundle) && Evaluable(st, newBundle)
    requires Adjusts(st, restored, freed, []) && pool in PoolsOf(newBundle)
    ensures pool in st.timelines && SweepOn(st, newBundle, restored, pool).Verdict().Ok?
    ensures SweepOn(st, newBundle, restored, pool).Verdict().value.Available?
            <==> forall t :: Usage(ClaimsOn(newBundle, pool), t) > 0
                             ==> Usage(ClaimsOn(newBundle, pool), t)
                                 <= At(0, st.timelines[pool], t) + Usage(ClaimsOn(freed, pool), t)
  {
    hide At, AllIndexed, SoundPromises, PoolsOf, ClaimsOn, Usage, Sweep.Verdict, Sweep.Demand, Sweep.Slack,
         Sweep.Valid, Adjusts, SweepOn;
    PoolIsKnown(st, newBundle, pool);
    PoolIndexed(st, pool);
    OverridesSound(st, restored, freed);
    SweepValid(st, newBundle, restored, pool);
    SweepFacts(st, newBundle, restored, pool);
    RestoredSlack(st, newBundle, restored, freed, pool);
    var s := SweepOn(st, newBundle, restored, pool);
    DeficitFreeVerdict(s);
    forall t
      ensures s.Demand(t) == Usage(ClaimsOn(newBundle, pool), t)
      ensures s.Slack(t) == At(0, st.timelines[pool], t) + Usage(ClaimsOn(freed, pool), t)
    {
    }
    if s.Verdict().value.Available? {
      forall t | Usage(ClaimsOn(newBundle, pool), t) > 0
        ensures Usage(ClaimsOn(newBundle, pool), t) <= At(0, st.timelines[pool], t) + Usage(ClaimsOn(freed, pool), t)
      {
        assert s.Demand(t) <= s.Slack(t);
      }
    } else {
      var t :| s.Demand(t) > 0 && s.Demand(t) > s.Slack(t);
      assert Usage(ClaimsOn(newBundle, pool), t) == s.Demand(t);
    }
  }

  lemma NoUsageOn(pool: PoolId)
    ensures forall t :: Usage(ClaimsOn([], pool), t) == 0
  {
  }

  /** In a deficit-free engine evaluation of a replacement answers, by the documented final-state rule. */
  lemma DeficitFreeEvaluates(st: EngineState, id: PromiseId, newBundle: Bundle)
    requires Coherent(st) && DeficitFree(st) && ValidBundle(newBundle) && id in st.promises && st.promises[id].Active()
    requires Evaluable(st, newBundle)
    ensures RestoredTimelines(st, st.promises[id].bundle).Ok?
    ensures var evaluated := EvaluateBundle(st, newBundle, RestoredTimelines(st, st.promises[id].bundle).value);
            evaluated.Ok? && (evaluated.value.BundleFits? <==> FitsFinalState(st, st.promises[id].bundle, newBundle))
  {
    hide At;
    hide Coherent;
    hide RestoredTimelines;
    hide EvaluateBundle;
    hide Adjusts;
    hide DeficitFree;
    hide Evaluable;
    hide PoolsOf;
    hide ClaimsOn;
    hide Usage;
    hide SweepOn;
    hide Sweep.Verdict;
    var freed := st.promises[id].bundle;
    RestoredAdjusts(st, id);
    var restored := RestoredTimelines(st, freed).value;
    forall pool | pool in PoolsOf(newBundle)
      ensures pool in st.timelines && SweepOn(st, newBundle, restored, pool).Verdict().Ok?
      ensures SweepOn(st, newBundle, restored, pool).Verdict().value.Available?
              <==> forall t :: Usage(ClaimsOn(newBundle, pool), t) > 0
                               ==> Usage(ClaimsOn(newBundle, pool), t)
                                   <= At(0, st.timelines[pool], t) + Usage(ClaimsOn(freed, pool), t)
    {
      DeficitFreePool(st, newBundle, restored, freed, pool);
    }
    BundleFitsExactly(st, newBundle, restored);
  }

  /**
   In a deficit-free engine a valid replacement of an active promise is carried out exactly when the
   documented final-state rule holds, and is otherwise answered as unavailable; it never fails.
   */
  lemma DeficitFreeReplaceExact(st: EngineState, id: PromiseId, expectedVersion: int, newBundle: Bundle,
                                newState: ReplacementState, now: int)
    requires Coherent(st) && DeficitFree(st) && ValidBundle(newBundle) && Evaluable(st, newBundle)
    requires Replaceable(st, id, expectedVersion, newState, now)
    ensures var result := ReplacePromise(st, id, expectedVersion, newBundle, newState, now).result;
            && result.Ok? && (result.value.PromiseReplaced? || result.value.ReplaceUnavailable?)
            && (result.value.PromiseReplaced? <==> FitsFinalState(st, st.promises[id].bundle, newBundle))
  {
    hide Coherent;
    hide RestoredTimelines;
    hide EvaluateBundle;
    hide DeficitFree;
    hide FitsFinalState;
    hide Evaluable;
    hide ForgetPromise;
    hide Replacing;
    ReplacingIs(st.promises[id], expectedVersion, newBundle, newState, now, st.sequence + 1);
    DeficitFreeEvaluates(st, id, newBundle);
  }

  // ---- Revisions ----

  /** Some reported deficit of exactly `amount` covers `t`. */
  ghost predicate DeficitAt(deficits: seq<CapacityDeficit>, t: int, amount: int) {
    exists i :: 0 <= i < |deficits| && deficits[i].interval.Contains(t) && deficits[i].quantity == amount
  }

  lemma PoolDeficitsReport(st: EngineState, pool: PoolId, deficits: seq<SlackDeficit>, t: int, amount: int)
    ensures DeficitAt(PoolDeficits(st, pool, deficits), t, amount) <==> Reported(deficits, t, amount)
  {
    var reported := PoolDeficits(st, pool, deficits);
    if Reported(deficits, t, amount) {
      var i :| 0 <= i < |deficits| && deficits[i].interval.Contains(t) && deficits[i].amount == amount;
      assert reported[i].interval.Contains(t);
    }
  }

  /**
   A revision reports exactly the timestamps where the new capacity falls short of active usage, and in
   strict mode it is refused exactly when there is one.
   */
  lemma RevisionExact(st: EngineState, pool: PoolId, curve: seq<CapacitySegment>, mode: RevisionMode, now: int)
    requires Coherent(st) && ValidCurve(curve) && pool in st.pools
    ensures var revision := RevisePool(st, pool, curve, mode, now);
            var claims := ActiveClaims(st.promises, pool);
            && (revision.result.Ok? ==>
                  && revision.result.value.CapacityRevised?
                  && (forall t, amount :: DeficitAt(revision.result.value.deficits, t, amount)
                                          <==> SlackOf(curve, claims, t) == -amount < 0)
                  && revision.state.timelines.Keys == st.timelines.Keys
                  && (forall t :: At(0, revision.state.timelines[pool], t) == SlackOf(curve, claims, t))
                  && (mode.Strict? ==> forall t :: SlackOf(curve, claims, t) >= 0))
            && (Representable(curve, claims) ==>
                  (revision.result == Err(CapacityRevisionCreatesDeficit)
                   <==> mode.Strict? && exists t :: SlackOf(curve, claims, t) < 0))
            && (revision.result.Err? ==> revision.state == st)
  {
    hide AllIndexed;
    hide SoundPools;
    hide ActiveAmong;
    hide RebuiltPoints;
    hide Deficits;
    hide At;
    hide SlackOf;
    hide ResolvedEvents;
    hide CurrentEvents;
    hide AffectedPromises;
    hide SortedKeys;
    assert pool in st.timelines by {
      PoolIndexed(st, pool);
    }
    var claims := ActiveClaims(st.promises, pool);
    if Representable(curve, claims) {
      BundlesValid(st);
      ActiveValid(st.promises, SortedKeys(st.promises.Keys), pool);
      RebuildCorrect(curve, claims);
      var points := RebuiltPoints(curve, claims);
      DeficitsOfSlack(points, curve, claims);
      var current := PoolDeficits(st, pool, Deficits(points));
      forall t, amount
        ensures DeficitAt(current, t, amount) <==> SlackOf(curve, claims, t) == -amount < 0
      {
        PoolDeficitsReport(st, pool, Deficits(points), t, amount);
      }
      DeficitsDecide(points, curve, claims);
    }
  }

  lemma PoolIndexed(st: EngineState, pool: PoolId)
    requires Coherent(st) && pool in st.pools
    ensures pool in st.timelines
  {
    assert Indexed(st, pool);
  }

  lemma DeficitsDecide(points: seq<SlackPoint>, curve: seq<CapacitySegment>, claims: seq<Claim>)
    requires DenotesSlack(points, curve, claims)
    ensures Deficits(points) == [] ==> forall t :: SlackOf(curve, claims, t) >= 0
    ensures Deficits(points) != [] ==> exists t :: SlackOf(curve, claims, t) < 0
  {
    hide At;
    hide SlackOf;
    hide Deficits;
    DeficitsOfSlack(points, curve, claims);
    if Deficits(points) == [] {
      forall t
        ensures SlackOf(curve, claims, t) >= 0
      {
        assert At(0, points, t) == SlackOf(curve, claims, t);
      }
    } else {
      var first := Deficits(points)[0];
      assert first.interval.Contains(first.interval.start);
      assert Reported(Deficits(points), first.interval.start, first.amount);
      assert SlackOf(curve, claims, first.interval.start) < 0;
    }
  }
}
