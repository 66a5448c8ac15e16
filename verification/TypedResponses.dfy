/** Responses the engine gives always pass the checks that reading them back makes. */
module TypedResponses {
  import opened Results
  import opened Intervals
  import opened StepFunctions
  import opened SlackTimelines
  import opened CapacityCurves
  import opened Domain
  import opened OrderedKeys
  import opened TimelineRebuild
  import opened Admission
  import opened Promises
  import opened Transitions
  import opened ActiveUsage
  import opened EngineInvariants
  import opened BundleAdmissions
  import opened BundleVerdicts
  import opened EngineSteps
  import opened EngineSafety
  import opened Payloads
  import opened CommandPayloads
  import opened ResponsePayloads
  import opened EntityPayloads

  // ---- Typed state ----

  /** A promise whose values lie in their machine types. */
  predicate TypedPromise(p: Promise) {
    FitsId(p.id) && (p.state.Held? ==> FitsI64(p.state.expiresAt)) && FitsBundle(p.bundle)
  }

  ghost predicate TypedState(text: Text, st: EngineState) {
    && (forall pool :: pool in st.pools ==> FitsPool(text, st.pools[pool]))
    && forall id :: id in st.promises ==> TypedPromise(st.promises[id])
  }

  // ---- Holders ----

  lemma IncreasingFits(ids: seq<int>)
    requires StrictlyIncreasing(ids) && forall i :: 0 <= i < |ids| ==> FitsId(ids[i])
    ensures FitsIds(ids)
  {
  }

  lemma HoldersFit(promises: map<PromiseId, Promise>, pool: PoolId, interval: Interval)
    requires forall id :: id in promises ==> FitsId(id)
    ensures FitsIds(Holders(promises, pool, interval)) && StrictlyIncreasing(Holders(promises, pool, interval))
  {
    hide HoldersAmong, SortedKeys;
    var keys := SortedKeys(promises.Keys);
    forall i | 0 <= i < |keys|
      ensures keys[i] in promises
    {
      var id := keys[i];
      assert id in keys;
    }
    HoldersIncrease(promises, keys, pool, interval);
    var ids := Holders(promises, pool, interval);
    forall i | 0 <= i < |ids|
      ensures FitsId(ids[i])
    {
      var id := ids[i];
      assert id in ids;
    }
    IncreasingFits(ids);
  }

  // ---- Conflicts of one pool ----

  ghost predicate TypedSweep(s: Sweep) {
    && s.Valid() && FitsId(s.poolId) && (forall i :: 0 <= i < |s.claims| ==> FitsClaim(s.claims[i]))
    && forall id :: id in s.promises ==> FitsId(id)
  }

  /** Every sweep breakpoint lies at or inside a claim. */
  lemma KeysFit(s: Sweep, key: int)
    requires TypedSweep(s) && key in s.Keys()
    ensures FitsI64(key)
  {
    hide SortedKeys;
    if j :| 0 <= j < |s.base| && Covered(s.claims, s.base[j].timestamp) && s.base[j].timestamp == key {
      var i :| 0 <= i < |s.claims| && s.claims[i].interval.Contains(key);
      assert FitsClaim(s.claims[i]);
    } else if i :| 0 <= i < |s.claims| && (s.claims[i].interval.start == key || s.claims[i].interval.end == key) {
      assert FitsClaim(s.claims[i]);
    }
  }

  lemma WindowFits(s: Sweep, keys: seq<int>, k: nat)
    requires TypedSweep(s) && keys == s.Keys() && k + 1 < |keys| && s.Demand(keys[k]) <= U64_MAX
    requires s.Demand(keys[k]) > 0 && s.Blocked(keys[k])
    ensures FitsConflict(s.ConflictOver(Interval(keys[k], keys[k + 1])))
  {
    hide At, Holders, Usage, SortedKeys;
    var from, to := keys[k], keys[k + 1];
    assert from in keys && to in keys;
    KeysFit(s, from);
    KeysFit(s, to);
    ValuesFit(s.base);
    HoldersFit(s.promises, s.poolId, Interval(from, to));
  }

  lemma MergeFits(conflicts: seq<AvailabilityConflict>, conflict: AvailabilityConflict)
    requires FitsConflict(conflict) && forall i :: 0 <= i < |conflicts| ==> FitsConflict(conflicts[i])
    ensures forall i :: 0 <= i < |MergeConflict(conflicts, conflict)| ==>
                          FitsConflict(MergeConflict(conflicts, conflict)[i])
  {
    hide FitsIds;
    if conflicts != [] {
      assert FitsConflict(conflicts[|conflicts| - 1]);
    }
  }

  lemma {:induction false} SweepConflictsFit(s: Sweep, keys: seq<int>, k: nat)
    requires TypedSweep(s) && keys == s.Keys() && (k < |keys| || k == 0) && !s.Exceeds(keys, U64_MAX)
    ensures forall i :: 0 <= i < |s.Conflicts(keys, k)| ==> FitsConflict(s.Conflicts(keys, k)[i])
  {
    hide TypedSweep, FitsConflict, SortedKeys, Usage, MergeConflict;
    if k > 0 {
      SweepConflictsFit(s, keys, k - 1);
      if s.Demand(keys[k - 1]) > 0 && s.Blocked(keys[k - 1]) {
        assert s.Demand(keys[k - 1]) <= U64_MAX;
        WindowFits(s, keys, k - 1);
        MergeFits(s.Conflicts(keys, k - 1), s.ConflictOver(Interval(keys[k - 1], keys[k])));
      }
    }
  }

  // ---- Conflicts of a bundle ----

  lemma {:induction false} ClaimsOnFit(claims: seq<Claim>, pool: PoolId)
    requires forall i :: 0 <= i < |claims| ==> FitsClaim(claims[i])
    ensures forall i :: 0 <= i < |ClaimsOn(claims, pool)| ==> FitsClaim(ClaimsOn(claims, pool)[i])
  {
    if claims != [] {
      ClaimsOnFit(claims[..|claims| - 1], pool);
    }
  }

  lemma PromiseKeysFit(text: Text, st: EngineState)
    requires SoundPromises(st) && TypedState(text, st)
    ensures forall id :: id in st.promises ==> FitsId(id)
  {
    forall id | id in st.promises
      ensures FitsId(id)
    {
      assert TypedPromise(st.promises[id]) && st.promises[id].id == id;
    }
  }

  lemma FitsBundleValid(bundle: Bundle)
    requires FitsBundle(bundle)
    ensures ValidBundle(bundle)
  {
    forall i | 0 <= i < |bundle|
      ensures bundle[i].Valid()
    {
      assert FitsClaim(bundle[i]);
    }
  }

  lemma ReportedFits(text: Text, st: EngineState, bundle: Bundle, overrides: map<PoolId, seq<SlackPoint>>, pool: PoolId,
                     c: AvailabilityConflict)
    requires Coherent(st) && SoundOverrides(st, overrides) && TypedState(text, st) && FitsBundle(bundle)
    requires pool in PoolsOf(bundle) && ReportedOn(st, bundle, overrides, pool, c)
    ensures FitsConflict(c)
  {
    hide FitsConflict, AllIndexed, SortedKeys;
    FitsBundleValid(bundle);
    SweepValid(st, bundle, overrides, pool);
    PromiseKeysFit(text, st);
    ClaimsOnFit(bundle, pool);
    var i :| 0 <= i < |bundle| && bundle[i].poolId == pool;
    assert FitsClaim(bundle[i]);
    var s := SweepOn(st, bundle, overrides, pool);
    var keys := s.Keys();
    SweepConflictsFit(s, keys, if keys == [] then 0 else |keys| - 1);
  }

  lemma BlockedFits(text: Text, st: EngineState, bundle: Bundle, overrides: map<PoolId, seq<SlackPoint>>)
    requires Coherent(st) && SoundOverrides(st, overrides) && TypedState(text, st) && FitsBundle(bundle)
    requires EvaluateBundle(st, bundle, overrides).Ok? && EvaluateBundle(st, bundle, overrides).value.BundleBlocked?
    ensures FitsConflicts(EvaluateBundle(st, bundle, overrides).value.conflicts)
  {
    hide Coherent, EvaluateBundle, ReportedOn, PoolsOf, FitsConflict, ConflictOrder, TypedState, FitsBundle;
    AdmissionCollects(st, bundle, overrides);
    var conflicts := EvaluateBundle(st, bundle, overrides).value.conflicts;
    forall i | 0 <= i < |conflicts|
      ensures FitsConflict(conflicts[i])
    {
      var c := conflicts[i];
      assert c in conflicts;
      var pool :| pool in PoolsOf(bundle) && ReportedOn(st, bundle, overrides, pool, c);
      ReportedFits(text, st, bundle, overrides, pool, c);
    }
  }

  // ---- Outcomes of holds ----

  lemma HoldFits(text: Text, st: EngineState, id: PromiseId, bundle: Bundle, expiresAt: int, now: int)
    requires Coherent(st) && TypedState(text, st) && FitsBundle(bundle) && FitsId(id)
    ensures FitsResponse(HoldBundle(st, id, bundle, expiresAt, now).result)
  {
    hide Coherent, TypedState, FitsBundle, EvaluateBundle, FitsConflicts, AcceptHold;
    NoOverrides(st);
    var evaluated := EvaluateBundle(st, bundle, map[]);
    if evaluated.Ok? && evaluated.value.BundleBlocked? {
      BlockedFits(text, st, bundle, map[]);
    }
  }

  lemma ChoiceFits(text: Text, st: EngineState, id: PromiseId, choice: seq<Bundle>, expiresAt: int, now: int)
    requires Coherent(st) && TypedState(text, st) && FitsChoice(choice) && FitsId(id)
    ensures FitsResponse(HoldChoice(st, id, choice, expiresAt, now).result)
  {
    hide Coherent, TypedState, FitsBundle, EvaluateBundle, FitsConflicts, AcceptHold, ScanChoice;
    NoOverrides(st);
    var scan := ScanChoice(st, choice, |choice|);
    if scan.Ok? {
      FirstFitMeaning(st, choice, |choice|);
      if scan.value.AllBlocked? {
        forall i | 0 <= i < |choice|
          ensures scan.value.conflicts[i].alternative == i && FitsConflicts(scan.value.conflicts[i].conflicts)
        {
          BlockedFits(text, st, choice[i], map[]);
        }
      }
    }
  }

  /** A search tries at most one start per timestamp of its range. */
  lemma {:induction false} SearchBounded(st: EngineState, relative: seq<RelativeClaim>, start: int, latest: int,
                                         step: int, attempts: int)
    requires 0 < step && 0 <= attempts && start <= latest
    requires SearchFrom(st, relative, start, latest, step, attempts).Ok?
    ensures match SearchFrom(st, relative, start, latest, step, attempts).value
            case SlotFound(from, _, _) => start <= from <= latest
            case NoSlot(tried) => attempts < tried <= attempts + latest - start + 1
    decreases latest - start
  {
    hide EvaluateBundle, Materialize;
    var admission := EvaluateBundle(st, Materialize(relative, start).value, map[]).value;
    if !(admission.BundleFits? || start == latest || !FitsI64(start + step) || start + step > latest) {
      SearchBounded(st, relative, start + step, latest, step, attempts + 1);
    }
  }

  lemma SlotFits(st: EngineState, id: PromiseId, relative: seq<RelativeClaim>, earliest: int, latest: int, step: int,
                 expiresAt: int, now: int)
    requires FitsId(id) && FitsI64(earliest) && FitsI64(latest)
    ensures FitsResponse(HoldSlot(st, id, relative, earliest, latest, step, expiresAt, now).result)
  {
    hide SearchFrom, AcceptHold;
    var search := SearchSlots(st, relative, earliest, latest, step);
    if search.Ok? {
      SearchBounded(st, relative, earliest, latest, step, 0);
    }
  }

  // ---- Replacements ----

  lemma {:induction false} WithoutIncreases(ids: seq<int>, id: int)
    requires FitsIds(ids)
    ensures FitsIds(WithoutPromise(ids, id))
    ensures WithoutPromise(ids, id) != []
            ==> ids != [] && WithoutPromise(ids, id)[|WithoutPromise(ids, id)| - 1] <= ids[|ids| - 1]
  {
    if ids != [] {
      WithoutIncreases(ids[..|ids| - 1], id);
    }
  }

  lemma ForgottenFits(conflicts: seq<AvailabilityConflict>, id: PromiseId)
    requires FitsConflicts(conflicts)
    ensures FitsConflicts(ForgetPromise(conflicts, id))
  {
    hide FitsIds, WithoutPromise;
    forall i | 0 <= i < |conflicts|
      ensures FitsConflict(ForgetPromise(conflicts, id)[i])
    {
      assert FitsConflict(conflicts[i]);
      WithoutIncreases(conflicts[i].promiseIds, id);
    }
  }

  lemma ReplaceFits(text: Text, st: EngineState, id: PromiseId, expectedVersion: int, newBundle: Bundle,
                    newState: ReplacementState, now: int)
    requires Coherent(st) && TypedState(text, st) && FitsBundle(newBundle) && FitsId(id)
    ensures FitsResponse(ReplacePromise(st, id, expectedVersion, newBundle, newState, now).result)
  {
    hide AllIndexed, TypedState, FitsBundle, RestoredTimelines, EvaluateBundle, FitsConflicts, ForgetPromise,
         SoundOverrides;
    if st.sequence < U64_MAX && id in st.promises && !st.promises[id].state.Expired? {
      var p := st.promises[id];
      assert SoundPromise(st, p);
      var replacing := Replacing(p, expectedVersion, newBundle, newState, now, st.sequence + 1);
      if replacing.Ok? {
        RestoredAdjusts(st, id);
        var restored := RestoredTimelines(st, p.bundle).value;
        OverridesSound(st, restored, p.bundle);
        var evaluated := EvaluateBundle(st, newBundle, restored);
        if evaluated.Ok? && evaluated.value.BundleBlocked? {
          BlockedFits(text, st, newBundle, restored);
          ForgottenFits(evaluated.value.conflicts, id);
        }
      }
    }
  }

  // ---- Deficits ----

  lemma {:induction false} UsedClaim(claims: seq<Claim>, t: int) returns (i: nat)
    requires Usage(claims, t) > 0
    ensures i < |claims| && claims[i].interval.Contains(t)
  {
    var n := |claims| - 1;
    if claims[n].interval.Contains(t) {
      i := n;
    } else {
      i := UsedClaim(claims[..n], t);
    }
  }

  /** Where slack is negative some claim holds capacity. */
  lemma NegativeFits(points: seq<SlackPoint>, curve: seq<CapacitySegment>, claims: seq<Claim>, t: int)
    requires DenotesSlack(points, curve, claims) && WellTyped(curve) && InRange(curve) && At(0, points, t) < 0
    requires forall i :: 0 <= i < |claims| ==> FitsClaim(claims[i])
    ensures FitsI64(t) && FitsI64(t + 1)
  {
    hide At, CapacityAt;
    CapacityBounded(curve, t);
    var i := UsedClaim(claims, t);
    assert FitsClaim(claims[i]);
  }

  lemma SlackDeficitsFit(points: seq<SlackPoint>, curve: seq<CapacitySegment>, claims: seq<Claim>)
    requires DenotesSlack(points, curve, claims) && AllFit(points) && ValidCurve(curve)
    requires forall i :: 0 <= i < |claims| ==> FitsClaim(claims[i])
    ensures forall i :: 0 <= i < |Deficits(points)| ==>
                          FitsInterval(Deficits(points)[i].interval) && 0 < Deficits(points)[i].amount <= U64_MAX
  {
    hide At, SlackOf, Deficits;
    SortedWhenCanonical(points);
    DeficitsInOrder(points);
    ValuesFit(points);
    forall i | 0 <= i < |Deficits(points)|
      ensures FitsInterval(Deficits(points)[i].interval) && 0 < Deficits(points)[i].amount <= U64_MAX
    {
      var d := Deficits(points)[i];
      DeficitsSound(points, i, d.interval.start);
      DeficitsSound(points, i, d.interval.end - 1);
      NegativeFits(points, curve, claims, d.interval.start);
      NegativeFits(points, curve, claims, d.interval.end - 1);
    }
  }

  lemma {:induction false} ActiveFit(text: Text, st: EngineState, keys: seq<PromiseId>, pool: PoolId)
    requires TypedState(text, st)
    ensures forall i :: 0 <= i < |ActiveAmong(st.promises, keys, pool)| ==>
                          FitsClaim(ActiveAmong(st.promises, keys, pool)[i])
  {
    if keys != [] {
      hide FitsPool, FitsClaim;
      var id := keys[|keys| - 1];
      ActiveFit(text, st, keys[..|keys| - 1], pool);
      if id in st.promises {
        assert TypedPromise(st.promises[id]);
        ClaimsOnFit(st.promises[id].bundle, pool);
      }
    }
  }

  lemma PoolDeficitsFit(text: Text, st: EngineState, pool: PoolId, curve: seq<CapacitySegment>, points: seq<SlackPoint>)
    requires SoundPromises(st) && TypedState(text, st) && FitsId(pool) && ValidCurve(curve) && AllFit(points)
    requires DenotesSlack(points, curve, ActiveClaims(st.promises, pool))
    ensures FitsDeficits(PoolDeficits(st, pool, Deficits(points)))
    ensures forall i :: 0 <= i < |PoolDeficits(st, pool, Deficits(points))| ==>
                          StrictlyIncreasing(PoolDeficits(st, pool, Deficits(points))[i].promiseIds)
  {
    hide DenotesSlack, Deficits, ActiveAmong, SortedKeys, Holders, AllFit, FitsIds;
    ActiveFit(text, st, SortedKeys(st.promises.Keys), pool);
    PromiseKeysFit(text, st);
    SlackDeficitsFit(points, curve, ActiveClaims(st.promises, pool));
    var deficits := Deficits(points);
    forall i | 0 <= i < |deficits|
      ensures FitsDeficit(PoolDeficits(st, pool, deficits)[i])
      ensures StrictlyIncreasing(PoolDeficits(st, pool, deficits)[i].promiseIds)
    {
      HoldersFit(st.promises, pool, deficits[i].interval);
    }
  }

  lemma AffectedFit(deficits: seq<CapacityDeficit>)
    requires FitsDeficits(deficits)
    ensures FitsIds(AffectedPromises(deficits))
  {
    hide SortedKeys;
    var ids := AffectedPromises(deficits);
    forall k | 0 <= k < |ids|
      ensures FitsId(ids[k])
    {
      var id := ids[k];
      assert id in ids;
      var i, j :| 0 <= i < |deficits| && 0 <= j < |deficits[i].promiseIds| && deficits[i].promiseIds[j] == id;
      assert FitsDeficit(deficits[i]);
    }
    IncreasingFits(ids);
  }

  /** The deficits before and after a revision. */
  lemma RevisionDeficitsFit(text: Text, st: EngineState, pool: PoolId, curve: seq<CapacitySegment>)
    requires Coherent(st) && TypedState(text, st) && FitsId(pool) && ValidCurve(curve) && pool in st.pools
    ensures pool in st.timelines && FitsDeficits(PoolDeficits(st, pool, Deficits(st.timelines[pool])))
    ensures Representable(curve, ActiveClaims(st.promises, pool)) ==>
              FitsDeficits(PoolDeficits(st, pool, Deficits(RebuiltPoints(curve, ActiveClaims(st.promises, pool)))))
  {
    hide DenotesSlack, Deficits, ActiveAmong, SortedKeys, RebuiltPoints, PoolDeficits, FitsDeficits, TypedState;
    assert Indexed(st, pool);
    PoolDeficitsFit(text, st, pool, st.pools[pool].curve, st.timelines[pool]);
    var claims := ActiveClaims(st.promises, pool);
    if Representable(curve, claims) {
      BundlesValid(st);
      ActiveValid(st.promises, SortedKeys(st.promises.Keys), pool);
      RebuildCorrect(curve, claims);
      RebuiltFits(curve, claims);
      PoolDeficitsFit(text, st, pool, curve, RebuiltPoints(curve, claims));
    }
  }

  lemma RebuiltFits(curve: seq<CapacitySegment>, claims: seq<Claim>)
    requires DenotesSlack(RebuiltPoints(curve, claims), curve, claims) && Representable(curve, claims)
    ensures AllFit(RebuiltPoints(curve, claims))
  {
    hide RebuiltPoints, At, SlackOf;
    var points := RebuiltPoints(curve, claims);
    SortedWhenCanonical(points);
    forall t
      ensures FitsI64(At(0, points, t))
    {
      assert At(0, points, t) == SlackOf(curve, claims, t);
    }
    ValuesFit(points);
  }

  lemma ReviseFits(text: Text, st: EngineState, pool: PoolId, curve: seq<CapacitySegment>, mode: RevisionMode, now: int)
    requires Coherent(st) && TypedState(text, st) && FitsId(pool) && ValidCurve(curve)
    ensures FitsResponse(RevisePool(st, pool, curve, mode, now).result)
  {
    hide AllIndexed, SoundPools, SoundPromises, TypedState, ActiveAmong, RebuiltPoints, Deficits, PoolDeficits,
         FitsDeficits, FitsIds, ResolvedEvents, CurrentEvents, AffectedPromises, SortedKeys, Representable;
    if pool in st.pools {
      RevisionDeficitsFit(text, st, pool, curve);
      var claims := ActiveClaims(st.promises, pool);
      if Representable(curve, claims) {
        AffectedFit(PoolDeficits(st, pool, Deficits(RebuiltPoints(curve, claims))));
      }
    }
  }

  // ---- Every operation ----

  /** Whatever the operation answers, the answer reads back. */
  lemma RequestedFits(text: Text, st: EngineState, operation: Operation, expired: int, now: int)
    requires Coherent(st) && TypedState(text, st) && FitsOperation(text, operation) && FitsU64(expired)
    ensures FitsResponse(Requested(st, operation, expired, now).result)
  {
    hide TypedState, RevisePool, HoldBundle, HoldChoice, HoldSlot, ReplacePromise, RestoredTimelines, Rebuild,
         FitsCurve, FitsBundle, FitsChoice, FitsRelative, AllIndexed, SoundPools;
    match operation
    case ReviseCapacity(pool, curve, mode) => FitsCurveValid(curve); ReviseFits(text, st, pool, curve, mode, now);
    case Hold(id, bundle, expiresAt) => HoldFits(text, st, id, bundle, expiresAt, now);
    case HoldOneOf(id, choice, expiresAt) => ChoiceFits(text, st, id, choice, expiresAt, now);
    case HoldFirstSlot(id, relative, earliest, latest, step, expiresAt) =>
      SlotFits(st, id, relative, earliest, latest, step, expiresAt, now);
    case Replace(id, expectedVersion, newBundle, newState) =>
      ReplaceFits(text, st, id, expectedVersion, newBundle, newState, now);
    case Commit(id, _) =>
      if id in st.promises {
        assert SoundPromise(st, st.promises[id]);
      }
    case Release(id, _) =>
      if id in st.promises {
        assert SoundPromise(st, st.promises[id]);
      }
    case _ =>
  }

  lemma FitsCurveValid(curve: seq<CapacitySegment>)
    requires FitsCurve(curve)
    ensures ValidCurve(curve)
  {
  }
}
