/** Every transition is a run of permitted effects, whatever its result. */
module EngineSteps {
  import opened Results
  import opened Intervals
  import opened StepFunctions
  import opened SlackTimelines
  import opened CapacityCurves
  import opened Domain
  import opened OrderedKeys
  import opened TimelineRebuild
  import opened Admission
  import opened Promises
  import opened Transitions
  import opened ActiveUsage
  import opened EngineInvariants
  import opened BundleAdmissions

  /** No pool is below zero anywhere. */
  ghost predicate DeficitFree(st: EngineState) {
    forall pool, t :: pool in st.timelines ==> At(0, st.timelines[pool], t) >= 0
  }

  ghost predicate Careful(st: EngineState, e: Effect) {
    DeficitFree(st) ==> DeficitFree(Perform(st, e))
  }

  /** No effect of the run creates a first deficit. */
  ghost predicate CarefulRun(st: EngineState, effects: seq<Effect>) {
    effects == []
    || (CarefulRun(st, effects[..|effects| - 1])
        && Careful(PerformAll(st, effects[..|effects| - 1]), effects[|effects| - 1]))
  }

  /** The run is permitted and ends in `after`; without force it creates no first deficit. */
  ghost predicate Explains(st: EngineState, effects: seq<Effect>, after: EngineState, forced: bool) {
    PermittedRun(st, effects) && PerformAll(st, effects) == after && (forced || CarefulRun(st, effects))
  }

  lemma NoEffect(st: EngineState, forced: bool)
    ensures Explains(st, [], st, forced)
  {
  }

  lemma OneEffect(st: EngineState, e: Effect, forced: bool)
    requires Permitted(st, e) && (forced || Careful(st, e))
    ensures Explains(st, [e], Perform(st, e), forced)
  {
    hide Permitted;
    hide Perform;
    hide Careful;
    RunPush(st, [], e);
    var single := [e];
    assert [] + single == single;
    assert single[..|single| - 1] == [] && single[|single| - 1] == e;
    assert CarefulRun(st, []);
  }

  lemma {:induction false} CarefulConcat(st: EngineState, a: seq<Effect>, b: seq<Effect>)
    requires PermittedRun(st, a) && PermittedRun(PerformAll(st, a), b)
    requires CarefulRun(st, a) && CarefulRun(PerformAll(st, a), b)
    ensures CarefulRun(st, a + b)
  {
    hide Perform;
    hide Permitted;
    hide Careful;
    if b == [] {
      assert a + b == a;
    } else {
      var n := |b| - 1;
      CarefulConcat(st, a, b[..n]);
      RunConcat(st, a, b[..n]);
      assert (a + b)[..|a + b| - 1] == a + b[..n];
    }
  }

  lemma Then(st: EngineState, a: seq<Effect>, middle: EngineState, b: seq<Effect>, after: EngineState, forced: bool)
    requires Explains(st, a, middle, false) && Explains(middle, b, after, forced)
    ensures Explains(st, a + b, after, forced)
  {
    hide PermittedRun;
    hide PerformAll;
    hide CarefulRun;
    RunConcat(st, a, b);
    if !forced {
      CarefulConcat(st, a, b);
    }
  }

  // ---- Storing one promise ----

  /** Facts that make storing a promise a permitted, careful effect. */
  lemma StoredEffect(st: EngineState, p: Promise, timelines: map<PoolId, seq<SlackPoint>>, now: int, kind: EventKind)
    returns (effects: seq<Effect>)
    requires st.sequence < U64_MAX && Succeeds(st, p) && ValidBundle(p.bundle) && PoolsExist(p.bundle, st.pools)
    requires Adjusts(st, timelines, Freed(st, p.id), Taken(p))
    requires KeepsDeficitFree(st, timelines)
    ensures Explains(st, effects, Publish(st, p, timelines, st.sequence + 1, now, kind), false)
  {
    var e := Stored(p, timelines, now, kind);
    CarefulStore(st, e);
    hide *;
    assert Permitted(st, e) by {
      ReadyToStore(st, e);
    }
    StoredResult(st, e);
    OneEffect(st, e, false);
    effects := [e];
  }

  lemma ReadyToStore(st: EngineState, e: Effect)
    requires e.Stored? && st.sequence < U64_MAX && Succeeds(st, e.promise)
    requires ValidBundle(e.promise.bundle) && PoolsExist(e.promise.bundle, st.pools)
    requires Adjusts(st, e.timelines, Freed(st, e.promise.id), Taken(e.promise))
    ensures Permitted(st, e)
  {
    hide Adjusts;
    hide Succeeds;
    hide Freed;
    hide Taken;
  }

  lemma StoredResult(st: EngineState, e: Effect)
    requires e.Stored?
    ensures Perform(st, e) == Publish(st, e.promise, e.timelines, st.sequence + 1, e.now, e.kind)
  {
    hide Publish;
  }

  /** Storing these timelines creates no first deficit. */
  ghost predicate KeepsDeficitFree(st: EngineState, timelines: map<PoolId, seq<SlackPoint>>) {
    DeficitFree(st) ==> forall pool, t :: pool in timelines ==> At(0, timelines[pool], t) >= 0
  }

  lemma CarefulStore(st: EngineState, e: Effect)
    requires e.Stored? && KeepsDeficitFree(st, e.timelines)
    ensures Careful(st, e)
  {
    hide At;
  }

  // ---- Expiring and releasing ----

  /** Giving back never hurts: restored slack is at least the slack before. */
  lemma RestoredKeepsDeficitFree(st: EngineState, bundle: Bundle, restored: map<PoolId, seq<SlackPoint>>)
    requires ValidClaims(bundle) && Adjusts(st, restored, bundle, [])
    ensures KeepsDeficitFree(st, restored)
  {
    hide At;
    if DeficitFree(st) {
      forall pool, t | pool in restored
        ensures At(0, restored[pool], t) >= 0
      {
        assert AdjustsPool(st, restored, bundle, [], pool);
        DemandNonnegative(ClaimsOn(bundle, pool), t);
        NoUsage(t);
      }
    }
  }

  /** A promise that stops being active gives its bundle back. */
  lemma Deactivated(st: EngineState, id: PromiseId, p: Promise, now: int, kind: EventKind)
    returns (effects: seq<Effect>)
    requires Coherent(st) && st.sequence < U64_MAX && id in st.promises && st.promises[id].Active()
    requires p.id == id && !p.Active() && p.bundle == st.promises[id].bundle && Succeeds(st, p)
    ensures RestoredTimelines(st, p.bundle).Ok?
    ensures var restored := RestoredTimelines(st, p.bundle).value;
            Explains(st, effects, Publish(st, p, restored, st.sequence + 1, now, kind), false)
  {
    RestoredAdjusts(st, id);
    assert SoundPromise(st, st.promises[id]);
    var restored := RestoredTimelines(st, p.bundle).value;
    RestoredKeepsDeficitFree(st, p.bundle, restored);
    hide At;
    hide Adjusts;
    hide RestoredTimelines;
    hide AllIndexed;
    hide Succeeds;
    hide Explains;
    effects := StoredEffect(st, p, restored, now, kind);
  }

  /** The successor a promise transition produces. */
  lemma AdvancedSucceeds(st: EngineState, p: Promise, next: Promise)
    requires p.id in st.promises && st.promises[p.id] == p
    requires next.id == p.id && next.version == p.version + 1 <= U64_MAX
    requires next.createdSequence == p.createdSequence && next.updatedSequence == st.sequence + 1
    ensures Succeeds(st, next)
  {
  }

  /** Expiring one hold: restoring can not fail, so only counters and the promise's state can refuse. */
  lemma ExpireOneExplained(st: EngineState, id: PromiseId, now: int) returns (effects: seq<Effect>)
    requires Coherent(st) && id in st.promises
    ensures Explains(st, effects, ExpireOne(st, id, now).state, false)
    ensures ExpireOne(st, id, now).result.Err? ==>
              ExpireOne(st, id, now).result.error
              in {SequenceOverflow, VersionOverflow, HoldNotExpired, InvalidPromiseState}
  {
    hide AllIndexed;
    hide Explains;
    hide RestoredTimelines;
    effects := [];
    NoEffect(st, false);
    if st.sequence < U64_MAX {
      var expiring := Expiring(st.promises[id], now, st.sequence + 1);
      if expiring.Ok? {
        AdvancedSucceeds(st, st.promises[id], expiring.value);
        effects := Deactivated(st, id, expiring.value, now, HoldExpiry);
      }
    }
  }

  lemma ReleaseExplained(st: EngineState, id: PromiseId, expectedVersion: int, now: int) returns (effects: seq<Effect>)
    requires Coherent(st)
    ensures Explains(st, effects, ReleasePromise(st, id, expectedVersion, now).state, false)
    ensures ReleasePromise(st, id, expectedVersion, now).result.Err? ==>
              ReleasePromise(st, id, expectedVersion, now).result.error
              in {SequenceOverflow, PromiseNotFound, HoldExpired, VersionConflict, InvalidPromiseState, VersionOverflow}
  {
    hide AllIndexed;
    hide Explains;
    hide RestoredTimelines;
    effects := [];
    NoEffect(st, false);
    if st.sequence < U64_MAX && id in st.promises && !st.promises[id].state.Expired? {
      var releasing := Releasing(st.promises[id], expectedVersion, now, st.sequence + 1);
      if releasing.Ok? {
        AdvancedSucceeds(st, st.promises[id], releasing.value);
        effects := Deactivated(st, id, releasing.value, now, HoldReleased);
      }
    }
  }

  // ---- Committing ----

  lemma NothingAdjusted(st: EngineState, bundle: seq<Claim>)
    requires Coherent(st)
    ensures Adjusts(st, map[], bundle, bundle) && KeepsDeficitFree(st, map[])
  {
    hide At;
    hide SoundPromises;
    forall pool | pool in st.timelines
      ensures AdjustsPool(st, map[], bundle, bundle, pool)
    {
      assert Indexed(st, pool);
    }
  }

  lemma CommitExplained(st: EngineState, id: PromiseId, expectedVersion: int, now: int) returns (effects: seq<Effect>)
    requires Coherent(st)
    ensures Explains(st, effects, CommitPromise(st, id, expectedVersion, now).state, false)
  {
    hide AllIndexed;
    hide Explains;
    hide Adjusts;
    hide KeepsDeficitFree;
    effects := [];
    NoEffect(st, false);
    if st.sequence < U64_MAX && id in st.promises && !st.promises[id].state.Expired? {
      var p := st.promises[id];
      var committing := Committing(p, expectedVersion, now, st.sequence + 1);
      if committing.Ok? {
        AdvancedSucceeds(st, p, committing.value);
        NothingAdjusted(st, p.bundle);
        assert SoundPromise(st, p);
        effects := StoredEffect(st, committing.value, map[], now, HoldCommitted);
      }
    }
  }

  // ---- Holding ----

  lemma AcceptedPoolsExist(st: EngineState, bundle: Bundle, overrides: map<PoolId, seq<SlackPoint>>)
    requires SoundPools(st)
    requires EvaluateBundle(st, bundle, overrides).Ok? && EvaluateBundle(st, bundle, overrides).value.BundleFits?
    ensures PoolsExist(bundle, st.pools)
  {
    FitsAvailable(st, bundle, overrides);
    hide EvaluateBundle;
    hide Sweep.Verdict;
    forall i | 0 <= i < |bundle|
      ensures bundle[i].poolId in st.pools
    {
      PoolListed(bundle, bundle[i].poolId);
    }
  }

  /** An accepted bundle creates no first deficit. */
  lemma AcceptedKeepsDeficitFree(st: EngineState, bundle: Bundle, overrides: map<PoolId, seq<SlackPoint>>,
                                 freed: seq<Claim>)
    requires Coherent(st) && ValidClaims(bundle) && ValidClaims(freed) && Adjusts(st, overrides, freed, [])
    requires EvaluateBundle(st, bundle, overrides).Ok? && EvaluateBundle(st, bundle, overrides).value.BundleFits?
    ensures KeepsDeficitFree(st, overrides + EvaluateBundle(st, bundle, overrides).value.timelines)
  {
    var timelines := EvaluateBundle(st, bundle, overrides).value.timelines;
    if DeficitFree(st) {
      AcceptedAdjusts(st, bundle, overrides, freed);
      OverridesSound(st, overrides, freed);
      hide *;
      forall pool, t | pool in overrides + timelines
        ensures At(0, (overrides + timelines)[pool], t) >= 0
      {
        AcceptedNonnegative(st, bundle, overrides, freed, pool, t);
      }
      NonnegativeKeeps(st, overrides + timelines);
    } else {
      DeficitKeeps(st, overrides + timelines);
    }
  }

  lemma NonnegativeKeeps(st: EngineState, timelines: map<PoolId, seq<SlackPoint>>)
    requires forall pool, t :: pool in timelines ==> At(0, timelines[pool], t) >= 0
    ensures KeepsDeficitFree(st, timelines)
  {
  }

  lemma DeficitKeeps(st: EngineState, timelines: map<PoolId, seq<SlackPoint>>)
    requires !DeficitFree(st)
    ensures KeepsDeficitFree(st, timelines)
  {
  }

  lemma AcceptedNonnegative(st: EngineState, bundle: Bundle, overrides: map<PoolId, seq<SlackPoint>>, freed: seq<Claim>,
                            pool: PoolId, t: int)
    requires Coherent(st) && ValidClaims(bundle) && ValidClaims(freed) && DeficitFree(st)
    requires SoundOverrides(st, overrides)
    requires EvaluateBundle(st, bundle, overrides).Ok? && EvaluateBundle(st, bundle, overrides).value.BundleFits?
    requires Adjusts(st, overrides + EvaluateBundle(st, bundle, overrides).value.timelines, freed, bundle)
    requires pool in overrides + EvaluateBundle(st, bundle, overrides).value.timelines
    ensures At(0, (overrides + EvaluateBundle(st, bundle, overrides).value.timelines)[pool], t) >= 0
  {
    hide At;
    hide AllIndexed;
    hide SoundPromises;
    hide Usage;
    hide EvaluateBundle;
    var timelines := EvaluateBundle(st, bundle, overrides).value.timelines;
    assert AdjustsPool(st, overrides + timelines, freed, bundle, pool);
    DemandNonnegative(ClaimsOn(bundle, pool), t);
    DemandNonnegative(ClaimsOn(freed, pool), t);
    if Usage(ClaimsOn(bundle, pool), t) > 0 {
      var sampled := AcceptedFloor(st, bundle, overrides, pool, t);
    }
  }

  lemma AcceptedFacts(st: EngineState, bundle: Bundle)
    requires Coherent(st) && ValidBundle(bundle)
    requires EvaluateBundle(st, bundle, map[]).Ok? && EvaluateBundle(st, bundle, map[]).value.BundleFits?
    ensures var timelines := EvaluateBundle(st, bundle, map[]).value.timelines;
            PoolsExist(bundle, st.pools) && Adjusts(st, timelines, [], bundle) && KeepsDeficitFree(st, timelines)
  {
    hide At;
    hide AllIndexed;
    hide Adjusts;
    hide KeepsDeficitFree;
    hide EvaluateBundle;
    NothingAdjusted(st, []);
    AcceptedAdjusts(st, bundle, map[], []);
    AcceptedKeepsDeficitFree(st, bundle, map[], []);
    AcceptedPoolsExist(st, bundle, map[]);
    var timelines := EvaluateBundle(st, bundle, map[]).value.timelines;
    assert map[] + timelines == timelines;
  }

  lemma AcceptExplained(st: EngineState, id: PromiseId, bundle: Bundle, expiresAt: int, now: int)
    returns (effects: seq<Effect>)
    requires Coherent(st) && ValidBundle(bundle) && id !in st.promises
    requires EvaluateBundle(st, bundle, map[]).Ok? && EvaluateBundle(st, bundle, map[]).value.BundleFits?
    ensures var timelines := EvaluateBundle(st, bundle, map[]).value.timelines;
            Explains(st, effects, AcceptHold(st, id, bundle, expiresAt, now, timelines).state, false)
  {
    hide *;
    AcceptedFacts(st, bundle);
    var timelines := EvaluateBundle(st, bundle, map[]).value.timelines;
    effects := TakenExplained(st, id, bundle, expiresAt, now, timelines);
  }

  lemma TakenExplained(st: EngineState, id: PromiseId, bundle: Bundle, expiresAt: int, now: int,
                       timelines: map<PoolId, seq<SlackPoint>>)
    returns (effects: seq<Effect>)
    requires Coherent(st) && ValidBundle(bundle) && id !in st.promises && PoolsExist(bundle, st.pools)
    requires Adjusts(st, timelines, [], bundle) && KeepsDeficitFree(st, timelines)
    ensures Explains(st, effects, AcceptHold(st, id, bundle, expiresAt, now, timelines).state, false)
  {
    hide At;
    hide AllIndexed;
    hide Explains;
    hide Adjusts;
    hide KeepsDeficitFree;
    effects := [];
    NoEffect(st, false);
    if st.sequence < U64_MAX && expiresAt > now {
      var sequence := st.sequence + 1;
      effects :=
        StoredEffect(st, Promise(id, Held(expiresAt), bundle, 1, sequence, sequence), timelines, now, HoldCreated);
    }
  }

  lemma HoldExplained(st: EngineState, id: PromiseId, bundle: Bundle, expiresAt: int, now: int)
    returns (effects: seq<Effect>)
    requires Coherent(st) && ValidBundle(bundle)
    ensures Explains(st, effects, HoldBundle(st, id, bundle, expiresAt, now).state, false)
  {
    hide Coherent;
    hide Explains;
    hide EvaluateBundle;
    hide AcceptHold;
    effects := [];
    NoEffect(st, false);
    var evaluated := EvaluateBundle(st, bundle, map[]);
    if HoldReady(st, id, expiresAt, now).Ok? && evaluated.Ok? && evaluated.value.BundleFits? {
      effects := AcceptExplained(st, id, bundle, expiresAt, now);
    }
  }

  /** The chosen alternative is the first that fits. */
  lemma {:induction false} FirstFitMeaning(st: EngineState, choice: seq<Bundle>, k: nat)
    requires k <= |choice| && ScanChoice(st, choice, k).Ok?
    ensures match ScanChoice(st, choice, k).value
            case FirstFit(alternative, timelines) =>
              && alternative < k
              && EvaluateBundle(st, choice[alternative], map[]) == Ok(BundleFits(timelines))
              && forall i :: 0 <= i < alternative ==>
                               EvaluateBundle(st, choice[i], map[]).Ok?
                               && EvaluateBundle(st, choice[i], map[]).value.BundleBlocked?
            case AllBlocked(conflicts) =>
              && |conflicts| == k
              && forall i :: 0 <= i < k ==>
                               EvaluateBundle(st, choice[i], map[]) == Ok(BundleBlocked(conflicts[i].conflicts))
                               && conflicts[i].alternative == i
  {
    hide EvaluateBundle;
    if k > 0 {
      FirstFitMeaning(st, choice, k - 1);
    }
  }

  lemma ChoiceExplained(st: EngineState, id: PromiseId, choice: seq<Bundle>, expiresAt: int, now: int)
    returns (effects: seq<Effect>)
    requires Coherent(st) && forall i :: 0 <= i < |choice| ==> ValidBundle(choice[i])
    ensures Explains(st, effects, HoldChoice(st, id, choice, expiresAt, now).state, false)
  {
    hide Coherent;
    hide Explains;
    hide EvaluateBundle;
    hide AcceptHold;
    hide ScanChoice;
    effects := [];
    NoEffect(st, false);
    var scan := ScanChoice(st, choice, |choice|);
    if HoldReady(st, id, expiresAt, now).Ok? && scan.Ok? && scan.value.FirstFit? {
      FirstFitMeaning(st, choice, |choice|);
      effects := AcceptExplained(st, id, choice[scan.value.alternative], expiresAt, now);
    }
  }

  lemma {:induction false} MaterializedClaims(relative: seq<RelativeClaim>, start: int)
    requires forall i :: 0 <= i < |relative| ==> relative[i].Valid()
    requires Materialize(relative, start).Ok?
    ensures var bundle := Materialize(relative, start).value;
            |bundle| == |relative| && ValidClaims(bundle)
  {
    if relative != [] {
      var n := |relative| - 1;
      MaterializedClaims(relative[..n], start);
      assert relative[n].Valid();
    }
  }

  lemma {:induction false} FoundSlot(st: EngineState, relative: seq<RelativeClaim>, start: int, latest: int, step: int,
                                     attempts: int)
    requires 0 < step
    requires SearchFrom(st, relative, start, latest, step, attempts).Ok?
    ensures match SearchFrom(st, relative, start, latest, step, attempts).value
            case SlotFound(from, bundle, timelines) =>
              && Materialize(relative, from) == Ok(bundle)
              && EvaluateBundle(st, bundle, map[]) == Ok(BundleFits(timelines))
            case NoSlot(_) => true
    decreases latest - start
  {
    hide EvaluateBundle;
    hide Materialize;
    var admission := EvaluateBundle(st, Materialize(relative, start).value, map[]).value;
    if !(admission.BundleFits? || start == latest || !FitsI64(start + step) || start + step > latest) {
      FoundSlot(st, relative, start + step, latest, step, attempts + 1);
    }
  }

  lemma SlotExplained(st: EngineState, id: PromiseId, relative: seq<RelativeClaim>, earliest: int, latest: int,
                      step: int, expiresAt: int, now: int)
    returns (effects: seq<Effect>)
    requires Coherent(st) && relative != [] && forall i :: 0 <= i < |relative| ==> relative[i].Valid()
    ensures Explains(st, effects, HoldSlot(st, id, relative, earliest, latest, step, expiresAt, now).state, false)
  {
    hide Coherent;
    hide Explains;
    hide EvaluateBundle;
    hide AcceptHold;
    hide SearchFrom;
    hide Materialize;
    effects := [];
    NoEffect(st, false);
    var search := SearchSlots(st, relative, earliest, latest, step);
    if HoldReady(st, id, expiresAt, now).Ok? && search.Ok? && search.value.SlotFound? {
      FoundSlot(st, relative, earliest, latest, step, 0);
      MaterializedClaims(relative, search.value.start);
      effects := AcceptExplained(st, id, search.value.bundle, expiresAt, now);
    }
  }

  // ---- Replacing ----

  lemma ReplaceExplained(st: EngineState, id: PromiseId, expectedVersion: int, newBundle: Bundle,
                         newState: ReplacementState, now: int)
    returns (effects: seq<Effect>)
    requires Coherent(st) && ValidBundle(newBundle)
    ensures Explains(st, effects, ReplacePromise(st, id, expectedVersion, newBundle, newState, now).state, false)
  {
    hide AllIndexed;
    hide Explains;
    hide RestoredTimelines;
    hide EvaluateBundle;
    effects := [];
    NoEffect(st, false);
    if st.sequence < U64_MAX && id in st.promises && !st.promises[id].state.Expired? {
      var p := st.promises[id];
      var replacing := Replacing(p, expectedVersion, newBundle, newState, now, st.sequence + 1);
      if replacing.Ok? {
        AdvancedSucceeds(st, p, replacing.value);
        effects := ReplacedExplained(st, id, replacing.value, now);
      }
    }
  }

  lemma ReplacedExplained(st: EngineState, id: PromiseId, p: Promise, now: int) returns (effects: seq<Effect>)
    requires Coherent(st) && st.sequence < U64_MAX && id in st.promises && st.promises[id].Active()
    requires p.id == id && p.Active() && ValidBundle(p.bundle) && Succeeds(st, p)
    ensures var restored := RestoredTimelines(st, st.promises[id].bundle);
            && restored.Ok?
            && var evaluated := EvaluateBundle(st, p.bundle, restored.value);
               if evaluated.Ok? && evaluated.value.BundleFits?
               then Explains(st, effects,
                             Publish(st, p, restored.value + evaluated.value.timelines, st.sequence + 1, now,
                                     HoldReplaced), false)
               else Explains(st, effects, st, false)
  {
    hide At;
    hide AllIndexed;
    hide Explains;
    hide Adjusts;
    hide KeepsDeficitFree;
    hide RestoredTimelines;
    hide EvaluateBundle;
    hide Succeeds;
    var previous := st.promises[id];
    assert SoundPromise(st, previous);
    RestoredAdjusts(st, id);
    var restored := RestoredTimelines(st, previous.bundle).value;
    var evaluated := EvaluateBundle(st, p.bundle, restored);
    effects := [];
    NoEffect(st, false);
    if evaluated.Ok? && evaluated.value.BundleFits? {
      AcceptedAdjusts(st, p.bundle, restored, previous.bundle);
      AcceptedKeepsDeficitFree(st, p.bundle, restored, previous.bundle);
      AcceptedPoolsExist(st, p.bundle, restored);
      effects := StoredEffect(st, p, restored + evaluated.value.timelines, now, HoldReplaced);
    }
  }
}
