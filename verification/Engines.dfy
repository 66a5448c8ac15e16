/** The engine: authoritative maps, one blocked timeline per pool, and transitions that update them. */
module Engines {
  import opened Results
  import opened Intervals
  import opened StepFunctions
  import opened SlackBlocks
  import opened BlockSequences
  import opened SlackTimelines
  import opened CapacityCurves
  import opened Domain
  import opened OrderedKeys
  import opened TimelineRebuild
  import opened Admission
  import opened AdmissionSweep
  import opened AvailabilityOracle
  import opened Promises
  import opened Transitions
  import opened ActiveUsage
  import opened EngineInvariants
  import opened BundleAdmissions
  import opened BundleVerdicts
  import opened EngineSteps
  import opened Expiry
  import opened EngineSafety
  import opened EngineLedger
  import opened IdentityOrder
  import opened Batches
  import opened Replay
  import opened Snapshots
  import opened Installation

  type Timelines = map<PoolId, seq<Block>>

  ghost predicate ValidTimelines(timelines: Timelines) {
    forall pool :: pool in timelines ==> ValidBlocks(timelines[pool])
  }

  /** Blocked timelines read as canonical points. */
  ghost function Effective(timelines: Timelines): map<PoolId, seq<SlackPoint>> {
    map pool | pool in timelines :: Canon(Flat(timelines[pool]))
  }

  lemma EffectiveStored(timelines: Timelines, pool: PoolId, blocks: seq<Block>)
    ensures ValidTimelines(timelines) && ValidBlocks(blocks) ==> ValidTimelines(timelines[pool := blocks])
    ensures Effective(timelines[pool := blocks]) == Effective(timelines)[pool := Canon(Flat(blocks))]
  {
    hide Canon;
    hide Flat;
    hide ValidBlocks;
  }

  lemma EffectiveMerged(a: Timelines, b: Timelines)
    ensures Effective(a + b) == Effective(a) + Effective(b)
    ensures ValidTimelines(a) && ValidTimelines(b) ==> ValidTimelines(a + b)
  {
    hide Canon;
    hide Flat;
    hide ValidBlocks;
  }

  // ---- Grouping claims ----

  /** The groups hold exactly the claims of each mentioned pool. */
  ghost predicate Grouped(groups: map<PoolId, seq<Claim>>, claims: seq<Claim>) {
    forall pool :: ClaimsOn(claims, pool) == if pool in groups then groups[pool] else []
  }

  /** Groups claims by pool, keeping their order within each pool. */
  method GroupByPool(claims: seq<Claim>) returns (groups: map<PoolId, seq<Claim>>)
    ensures SortedKeys(groups.Keys) == PoolsOf(claims)
    ensures forall pool :: pool in groups ==> groups[pool] == ClaimsOn(claims, pool)
  {
    groups := map[];
    for i := 0 to |claims|
      invariant Grouped(groups, claims[..i])
      invariant forall pool :: pool in groups ==> groups[pool] != []
    {
      assert claims[..i + 1][..i] == claims[..i];
      var pool := claims[i].poolId;
      groups := groups[pool := (if pool in groups then groups[pool] else []) + [claims[i]]];
    }
    assert claims[..|claims|] == claims;
    GroupKeys(groups, claims);
  }

  lemma GroupKeys(groups: map<PoolId, seq<Claim>>, claims: seq<Claim>)
    requires Grouped(groups, claims) && forall pool :: pool in groups ==> groups[pool] != []
    ensures SortedKeys(groups.Keys) == PoolsOf(claims)
  {
    forall pool
      ensures pool in groups <==> pool in PoolsOf(claims)
    {
      assert ClaimsOn(claims, pool) == if pool in groups then groups[pool] else [];
      PoolListed(claims, pool);
    }
    assert groups.Keys == set i | 0 <= i < |claims| :: claims[i].poolId;
  }

  // ---- Restoring on a copy ----

  lemma AdmitsCanon(points: seq<SlackPoint>, span: Interval, delta: int)
    requires Sorted(points)
    ensures Admits(points, span, delta) <==> Admits(Canon(points), span, delta)
  {
    hide At;
    CanonCorrect(points);
  }

  /** Adds each claim's quantity to a copy of the timeline. */
  method GiveBackOn(blocks: seq<Block>, claims: seq<Claim>) returns (r: Result<seq<Block>, DomainError>)
    requires ValidBlocks(blocks) && ValidClaims(claims)
    ensures r.Ok? ==> ValidBlocks(r.value)
    ensures match r
            case Ok(given) => GiveBack(Canon(Flat(blocks)), claims) == Ok(Canon(Flat(given)))
            case Err(error) => GiveBack(Canon(Flat(blocks)), claims) == Err(error)
  {
    hide At;
    hide Flat;
    hide Canon;
    hide AddOn;
    hide Admits;
    var timeline := new SlackTimeline(blocks);
    assert claims[..0] == [];
    for i := 0 to |claims|
      invariant timeline.Valid() && fresh(timeline)
      invariant GiveBack(Canon(Flat(blocks)), claims[..i]) == Ok(Canon(timeline.Points()))
    {
      assert claims[i].Valid();
      assert claims[..i + 1][..i] == claims[..i];
      AdmitsCanon(timeline.Points(), claims[i].interval, claims[i].quantity);
      var applied := timeline.ApplyDelta(claims[i].interval, claims[i].quantity);
      if applied.Err? {
        GiveBackFails(Canon(Flat(blocks)), claims, i + 1);
        return Err(IndexOverflow);
      }
    }
    assert claims[..|claims|] == claims;
    r := Ok(timeline.blocks);
  }

  lemma {:induction false} GiveBackFails(points: seq<SlackPoint>, claims: seq<Claim>, k: nat)
    requires k <= |claims| && GiveBack(points, claims[..k]) == Err(IndexOverflow)
    ensures GiveBack(points, claims) == Err(IndexOverflow)
  {
    hide AddOn;
    hide Admits;
    if k == |claims| {
      assert claims[..k] == claims;
    } else {
      var n := |claims| - 1;
      assert claims[..n][..k] == claims[..k];
      GiveBackFails(points, claims[..n], k);
    }
  }

  lemma {:induction false} RestoreFails(st: EngineState, bundle: Bundle, pools: seq<PoolId>, k: nat, n: nat)
    requires k <= n <= |pools| && RestoredUpTo(st, bundle, pools, k).Err?
    ensures RestoredUpTo(st, bundle, pools, n) == Err(RestoredUpTo(st, bundle, pools, k).error)
  {
    hide GiveBack;
    if k < n {
      RestoreFails(st, bundle, pools, k, n - 1);
    }
  }

  lemma {:induction false} EvaluationFails(st: EngineState, bundle: Bundle, overrides: map<PoolId, seq<SlackPoint>>,
                                           pools: seq<PoolId>, k: nat, n: nat)
    requires k <= n <= |pools| && EvaluatedUpTo(st, bundle, overrides, pools, k).Err?
    ensures EvaluatedUpTo(st, bundle, overrides, pools, n) == Err(EvaluatedUpTo(st, bundle, overrides, pools, k).error)
  {
    hide NextEvaluated;
    if k < n {
      EvaluationFails(st, bundle, overrides, pools, k, n - 1);
    }
  }

  /** The timelines a bundle's acceptance would store, or why it is refused. */
  datatype BundleOutcome =
    | Fitted(timelines: Timelines)
    | Conflicted(conflicts: seq<AvailabilityConflict>)

  ghost predicate SoundFit(r: Result<BundleOutcome, DomainError>) {
    r.Ok? && r.value.Fitted? ==> ValidTimelines(r.value.timelines)
  }

  ghost function FitMeaning(r: Result<BundleOutcome, DomainError>): Result<BundleAdmission, DomainError> {
    match r
    case Err(error) => Err(error)
    case Ok(Fitted(timelines)) => Ok(BundleFits(Effective(timelines)))
    case Ok(Conflicted(conflicts)) => Ok(BundleBlocked(conflicts))
  }

  lemma EffectiveEmpty()
    ensures Effective(map[]) == map[] && ValidTimelines(map[])
  {
  }

  /** Each listed pool has its nonempty group of the bundle's claims. */
  ghost predicate GroupsOf(bundle: Bundle, poolIds: seq<PoolId>, groups: map<PoolId, seq<Claim>>) {
    forall pool :: pool in poolIds ==> pool in groups && groups[pool] == ClaimsOn(bundle, pool) != []
  }

  lemma GroupUsed(bundle: Bundle, poolIds: seq<PoolId>, groups: map<PoolId, seq<Claim>>, k: nat)
    requires GroupsOf(bundle, poolIds, groups) && k < |poolIds| && ValidClaims(bundle)
    ensures poolIds[k] in groups && groups[poolIds[k]] == ClaimsOn(bundle, poolIds[k]) != []
    ensures ValidClaims(groups[poolIds[k]])
  {
    var pool := poolIds[k];
    assert pool in poolIds;
  }

  lemma GroupsListed(bundle: Bundle, groups: map<PoolId, seq<Claim>>)
    requires SortedKeys(groups.Keys) == PoolsOf(bundle)
    requires forall pool :: pool in groups ==> groups[pool] == ClaimsOn(bundle, pool)
    ensures GroupsOf(bundle, SortedKeys(groups.Keys), groups)
  {
    forall pool | pool in SortedKeys(groups.Keys)
      ensures pool in groups && groups[pool] == ClaimsOn(bundle, pool) != []
    {
      PoolListed(bundle, pool);
    }
  }

  lemma OutcomeBlocks(outcome: Result<PoolOutcome, DomainError>)
    requires SoundOutcome(outcome)
    ensures outcome.Ok? && outcome.value.Admitted? ==> ValidBlocks(outcome.value.blocks)
  {
  }

  /** Engine fields as a value. */
  datatype StoredState = StoredState(
    pools: map<PoolId, Pool>,
    timelines: Timelines,
    promises: map<PromiseId, Promise>,
    events: seq<Event>,
    records: map<Identity, Record>,
    sequence: int)
  {
    ghost function Read(): EngineState {
      EngineState(pools, Effective(timelines), promises, events, records, sequence)
    }
  }

  /** One group-commit candidate, prepared from a copy of published state. */
  datatype PreparedBatch = PreparedBatch(
    baseRevision: int,
    nextRevision: int,
    candidate: Option<StoredState>,
    responses: seq<Response>,
    items: seq<Item>)

  /** The batch holds exactly what applying the requests one by one would give. */
  ghost predicate PreparedFor(prepared: PreparedBatch, p: Published, digest: Operation -> seq<int>,
                              requests: seq<Request>)
  {
    && prepared.baseRevision == p.revision
    && prepared.candidate.Some? && ValidTimelines(prepared.candidate.value.timelines)
    && Coherent(prepared.candidate.value.Read())
    && Run(p, digest, requests).state == prepared.candidate.value.Read()
    && Run(p, digest, requests).revision == prepared.nextRevision
    && Responses(p, digest, requests) == prepared.responses
    && prepared.items == PrepareUpTo(p.state, digest, requests, |requests|).items
    && prepared.nextRevision == p.revision + |prepared.items|
  }

  /** A pool's blocks read as its canonical rebuild. */
  ghost predicate RebuiltAs(st: EngineState, pool: PoolId, blocks: seq<Block>) {
    && pool in st.pools && ValidBlocks(blocks)
    && Rebuild(st.pools[pool].curve, ActiveClaims(st.promises, pool)) == Ok(Canon(Flat(blocks)))
  }

  lemma RebuiltAll(st: EngineState, rebuilt: Timelines)
    requires forall pool :: pool in rebuilt <==> pool in st.pools
    requires forall pool :: pool in rebuilt ==> RebuiltAs(st, pool, rebuilt[pool])
    ensures ValidTimelines(rebuilt)
    ensures forall revision :: Reindex(Published(st, revision))
                               == Ok(Published(st.(timelines := Effective(rebuilt)), revision))
  {
    hide Canon;
    hide Flat;
    hide ValidBlocks;
    hide ActiveClaims;
    hide RebuiltPoints;
    hide Representable;
    forall pool | pool in st.pools
      ensures Representable(st.pools[pool].curve, ActiveClaims(st.promises, pool))
      ensures RebuiltPoints(st.pools[pool].curve, ActiveClaims(st.promises, pool)) == Effective(rebuilt)[pool]
    {
      assert RebuiltAs(st, pool, rebuilt[pool]);
    }
    assert (map pool | pool in st.pools :: RebuiltPoints(st.pools[pool].curve, ActiveClaims(st.promises, pool)))
           == Effective(rebuilt);
  }

  /** One pool's answer of the slow check. */
  ghost predicate PoolWithin(st: EngineState, bundle: Bundle, pool: PoolId) {
    && pool in st.pools
    && WithinCapacity(st.pools[pool].curve, ActiveClaims(st.promises, pool), ClaimsOn(bundle, pool))
  }

  /** Every promise is stored under its own identity. */
  ghost predicate KeyedByIdentity(promises: map<PromiseId, Promise>) {
    forall id :: id in promises ==> promises[id].id == id
  }

  /** The slot a search found, or how many candidates it tried. */
  datatype SlotResult =
    | Slot(start: int, bundle: Bundle, timelines: Timelines)
    | Exhausted(attempts: int)

  ghost function SlotMeaning(r: Result<SlotResult, DomainError>): Result<SlotSearch, DomainError> {
    match r
    case Err(error) => Err(error)
    case Ok(Slot(start, bundle, timelines)) => Ok(SlotFound(start, bundle, Effective(timelines)))
    case Ok(Exhausted(attempts)) => Ok(NoSlot(attempts))
  }

  lemma {:induction false} ScanStops(st: EngineState, choice: seq<Bundle>, k: nat, n: nat)
    requires k <= n <= |choice|
    requires ScanChoice(st, choice, k).Err? || ScanChoice(st, choice, k).value.FirstFit?
    ensures ScanChoice(st, choice, n) == ScanChoice(st, choice, k)
  {
    hide EvaluateBundle;
    if k < n {
      ScanStops(st, choice, k, n - 1);
    }
  }

  /** Translates relative claims to `start`, failing on the first endpoint out of 64 bits. */
  method MaterializeAt(relative: seq<RelativeClaim>, start: int) returns (r: Result<Bundle, DomainError>)
    ensures r == Materialize(relative, start)
  {
    var claims: seq<Claim> := [];
    for i := 0 to |relative|
      invariant Materialize(relative[..i], start) == Ok(claims)
    {
      assert relative[..i + 1][..i] == relative[..i];
      var claim := relative[i];
      var from := CheckedAddI64(start, claim.startOffset);
      var to := CheckedAddI64(start, claim.endOffset);
      if from.None? || to.None? {
        MaterializeStops(relative, start, i + 1);
        return Err(TimestampOverflow);
      }
      claims := claims + [Claim(claim.poolId, Interval(from.value, to.value), claim.quantity)];
    }
    assert relative[..|relative|] == relative;
    r := Ok(claims);
  }

  lemma {:induction false} MaterializeStops(relative: seq<RelativeClaim>, start: int, k: nat)
    requires k <= |relative| && Materialize(relative[..k], start).Err?
    ensures Materialize(relative, start) == Materialize(relative[..k], start)
  {
    if k == |relative| {
      assert relative[..k] == relative;
    } else {
      var n := |relative| - 1;
      assert relative[..n][..k] == relative[..k];
      MaterializeStops(relative[..n], start, k);
    }
  }

  /** A built timeline's points are the canonical rebuild. */
  lemma BuiltPoints(blocks: seq<Block>, curve: seq<CapacitySegment>, claims: seq<Claim>)
    requires ValidCurve(curve) && ValidClaims(claims) && Representable(curve, claims)
    requires DenotesSlack(Flat(blocks), curve, claims)
    ensures Canon(Flat(blocks)) == RebuiltPoints(curve, claims)
  {
    hide At;
    hide Flat;
    hide RebuiltPoints;
    hide SlackOf;
    RebuildCorrect(curve, claims);
    RebuildEqualsMaintenance(curve, claims, RebuiltPoints(curve, claims), Flat(blocks));
  }

  /** Events of a revision after the capacity change: resolved deficits, then new and changed ones. */
  method RevisionEvents(previous: seq<CapacityDeficit>, current: seq<CapacityDeficit>, sequence: int, now: int)
    returns (logged: seq<Event>)
    ensures logged == ResolvedEvents(previous, current, sequence, now) + CurrentEvents(previous, current, sequence, now)
  {
    var resolved: seq<Event> := [];
    for i := 0 to |previous|
      invariant resolved == ResolvedEvents(previous[..i], current, sequence, now)
    {
      assert previous[..i + 1][..i] == previous[..i];
      if !OverlapsDeficit(current, previous[i].interval) {
        resolved := resolved + [DeficitEvent(previous[i], sequence, now, DeficitResolved)];
      }
    }
    assert previous[..|previous|] == previous;
    var changed: seq<Event> := [];
    for i := 0 to |current|
      invariant changed == CurrentEvents(previous, current[..i], sequence, now)
    {
      assert current[..i + 1][..i] == current[..i];
      if !SameDeficit(previous, current[i]) {
        var kind := if OverlapsDeficit(previous, current[i].interval) then DeficitChanged else DeficitCreated;
        changed := changed + [DeficitEvent(current[i], sequence, now, kind)];
      }
    }
    assert current[..|current|] == current;
    logged := resolved + changed;
  }

  /** One pool's outcome added to an evaluation. */
  lemma OutcomeAdded(st: EngineState, bundle: Bundle, overrides: map<PoolId, seq<SlackPoint>>, pool: PoolId,
                     earlier: Evaluated, outcome: Result<PoolOutcome, DomainError>)
    requires var sweep := PoolSweep(st, pool, ClaimsOn(bundle, pool), overrides);
             Meaning(outcome) == if sweep.Err? then Err(sweep.error) else sweep.value.Verdict()
    ensures NextEvaluated(st, bundle, overrides, pool, earlier)
            == match outcome
               case Err(error) => Err(error)
               case Ok(Admitted(blocks)) =>
                 Ok(earlier.(timelines := earlier.timelines[pool := Canon(Flat(blocks))]))
               case Ok(Rejected(conflicts)) => Ok(earlier.(conflicts := earlier.conflicts + conflicts))
  {
    hide PoolSweep;
    hide Sweep.Verdict;
    hide Canon;
    hide Flat;
  }

  class Engine {
    var pools: map<PoolId, Pool>
    var timelines: Timelines
    var promises: map<PromiseId, Promise>
    var events: seq<Event>
    var records: map<Identity, Record>
    var sequence: int
    var revision: int
    const digest: Operation -> seq<int>

    ghost function Value(): EngineState
      reads this
    {
      EngineState(pools, Effective(timelines), promises, events, records, sequence)
    }

    /** Every stored timeline is well formed, and together they equal capacity minus active usage. */
    ghost predicate Valid()
      reads this
    {
      ValidTimelines(timelines) && Coherent(Value())
    }

    /** An empty engine; `digest` stands for the operation hash. */
    constructor (digest: Operation -> seq<int>)
      ensures Valid() && Value() == EmptyState && revision == 0 && this.digest == digest
    {
      pools, timelines, promises, events, records := map[], map[], map[], [], map[];
      sequence, revision := 0, 0;
      this.digest := digest;
      new;
      assert Effective(map[]) == map[];
      EmptyCoherent();
    }

    // ---- Admission ----

    /** Prepares timeline copies after the bundle's usage is given back; changes nothing. */
    method Restored(bundle: Bundle) returns (r: Result<Timelines, DomainError>)
      requires ValidTimelines(timelines) && ValidClaims(bundle)
      ensures r.Ok? ==> ValidTimelines(r.value)
      ensures match r
              case Ok(restored) => RestoredTimelines(Value(), bundle) == Ok(Effective(restored))
              case Err(error) => RestoredTimelines(Value(), bundle) == Err(error)
    {
      hide GiveBack;
      hide Canon;
      hide Flat;
      hide ValidBlocks;
      hide PoolsOf;
      var claimsByPool := GroupByPool(bundle);
      var poolIds := SortedKeys(claimsByPool.Keys);
      hide SortedKeys;
      var restored: Timelines := map[];
      assert Effective(restored) == map[];
      for k := 0 to |poolIds|
        invariant ValidTimelines(restored)
        invariant RestoredUpTo(Value(), bundle, poolIds, k) == Ok(Effective(restored))
      {
        var pool := poolIds[k];
        assert pool in poolIds;
        if pool !in timelines {
          RestoreFails(Value(), bundle, poolIds, k + 1, |poolIds|);
          return Err(ResourcePoolNotFound);
        }
        var given := GiveBackOn(timelines[pool], claimsByPool[pool]);
        if given.Err? {
          RestoreFails(Value(), bundle, poolIds, k + 1, |poolIds|);
          return Err(given.error);
        }
        EffectiveStored(restored, pool, given.value);
        restored := restored[pool := given.value];
      }
      r := Ok(restored);
    }

    /** Evaluates one pool; an override comes with the current timeline as its deficit floor. */
    method EvaluatePool(pool: PoolId, claims: seq<Claim>, overrides: Timelines)
      returns (r: Result<PoolOutcome, DomainError>)
      requires ValidTimelines(timelines) && ValidTimelines(overrides) && ValidBundles(promises)
      requires claims != [] && ValidClaims(claims)
      ensures SoundOutcome(r)
      ensures var sweep := PoolSweep(Value(), pool, claims, Effective(overrides));
              Meaning(r) == if sweep.Err? then Err(sweep.error) else sweep.value.Verdict()
    {
      hide Sweep.Verdict;
      hide Canon;
      hide Flat;
      hide ValidBlocks;
      if pool !in timelines {
        return Err(ResourcePoolNotFound);
      }
      var current := new SlackTimeline(timelines[pool]);
      if pool in overrides {
        var base := new SlackTimeline(overrides[pool]);
        r := EvaluatePoolOnTimeline(pool, promises, claims, base, current);
      } else {
        r := EvaluatePoolOnTimeline(pool, promises, claims, current, null);
      }
    }

    /** Evaluates the pools in order, collecting adjusted timelines and conflicts. */
    method EvaluatePools(bundle: Bundle, poolIds: seq<PoolId>, claimsByPool: map<PoolId, seq<Claim>>,
                         overrides: Timelines)
      returns (r: Result<(Timelines, seq<AvailabilityConflict>), DomainError>)
      requires ValidTimelines(timelines) && ValidTimelines(overrides) && ValidBundles(promises) && ValidClaims(bundle)
      requires GroupsOf(bundle, poolIds, claimsByPool)
      ensures r.Ok? ==> ValidTimelines(r.value.0)
      ensures EvaluatedUpTo(Value(), bundle, Effective(overrides), poolIds, |poolIds|)
              == if r.Err? then Err(r.error) else Ok(Evaluated(Effective(r.value.0), r.value.1))
    {
      hide *;
      ghost var st, over := Value(), Effective(overrides);
      var adjusted: Timelines := map[];
      var conflicts: seq<AvailabilityConflict> := [];
      EffectiveEmpty();
      NothingEvaluated(st, bundle, over, poolIds);
      for k := 0 to |poolIds|
        invariant ValidTimelines(adjusted)
        invariant EvaluatedUpTo(st, bundle, over, poolIds, k) == Ok(Evaluated(Effective(adjusted), conflicts))
      {
        var pool := poolIds[k];
        EvaluatedLast(st, bundle, over, poolIds, k + 1);
        GroupUsed(bundle, poolIds, claimsByPool, k);
        var outcome := EvaluatePool(pool, claimsByPool[pool], overrides);
        OutcomeAdded(st, bundle, over, pool, Evaluated(Effective(adjusted), conflicts), outcome);
        if outcome.Err? {
          EvaluationFails(st, bundle, over, poolIds, k + 1, |poolIds|);
          return Err(outcome.error);
        }
        OutcomeBlocks(outcome);
        match outcome.value
        case Admitted(blocks) =>
          EffectiveStored(adjusted, pool, blocks);
          adjusted := adjusted[pool := blocks];
        case Rejected(found) =>
          conflicts := conflicts + found;
      }
      r := Ok((adjusted, conflicts));
    }

    /** Evaluates every pool of a bundle, using an override where one is given. */
    method EvaluateBundleWithOverrides(bundle: Bundle, overrides: Timelines)
      returns (r: Result<BundleOutcome, DomainError>)
      requires ValidTimelines(timelines) && ValidTimelines(overrides) && ValidBundles(promises) && ValidClaims(bundle)
      ensures SoundFit(r) && FitMeaning(r) == EvaluateBundle(Value(), bundle, Effective(overrides))
    {
      hide Effective;
      hide ValidTimelines;
      hide SortConflicts;
      hide EvaluatedUpTo;
      hide SortedKeys;
      hide PoolsOf;
      var claimsByPool := GroupByPool(bundle);
      var poolIds := SortedKeys(claimsByPool.Keys);
      GroupsListed(bundle, claimsByPool);
      var evaluated :- EvaluatePools(bundle, poolIds, claimsByPool, overrides);
      var (adjusted, conflicts) := evaluated;
      if conflicts == [] {
        r := Ok(Fitted(adjusted));
      } else {
        r := Ok(Conflicted(SortConflicts(conflicts)));
      }
    }

    method EvaluateBundleAdmission(bundle: Bundle) returns (r: Result<BundleOutcome, DomainError>)
      requires ValidTimelines(timelines) && ValidBundles(promises) && ValidClaims(bundle)
      ensures SoundFit(r) && FitMeaning(r) == EvaluateBundle(Value(), bundle, map[])
    {
      assert Effective(map[]) == map[];
      r := EvaluateBundleWithOverrides(bundle, map[]);
    }

    /** The slow check: usage recomputed from promises, pool by pool. */
    method CheckAvailability(bundle: Bundle) returns (r: Result<bool, DomainError>)
      requires Valid() && ValidClaims(bundle)
      ensures r.Ok? ==> (r.value <==> WithinAllCapacity(Value(), bundle))
      ensures r.Err? ==> (r.error == ResourcePoolNotFound && !PoolsExist(bundle, pools))
                         || (r.error == QuantityOverflow && !SumsFit(Value(), bundle))
    {
      hide Effective;
      hide ValidTimelines;
      hide AllIndexed;
      hide WithinCapacity;
      hide ActiveAmong;
      hide SortedKeys;
      hide PoolsOf;
      BundlesValid(Value());
      var claimsByPool := GroupByPool(bundle);
      var poolIds := SortedKeys(claimsByPool.Keys);
      for k := 0 to |poolIds|
        invariant forall i :: 0 <= i < k ==> PoolWithin(Value(), bundle, poolIds[i])
      {
        var pool := poolIds[k];
        assert pool in poolIds;
        PoolListed(bundle, pool);
        if pool !in pools {
          return Err(ResourcePoolNotFound);
        }
        ActiveValid(promises, SortedKeys(promises.Keys), pool);
        var within := CheckPoolAvailability(pools[pool].curve, ActiveClaims(promises, pool), claimsByPool[pool]);
        if within.Err? {
          return Err(within.error);
        }
        if !within.value {
          return Ok(false);
        }
      }
      r := Ok(true);
    }

    // ---- Publishing ----

    /** Stores a promise and its timelines, takes the sequence and appends the event. */
    method PublishPromise(p: Promise, adjusted: Timelines, nextSequence: int, now: int, kind: EventKind)
      requires ValidTimelines(timelines) && ValidTimelines(adjusted)
      modifies this
      ensures ValidTimelines(timelines) && revision == old(revision)
      ensures Value() == Publish(old(Value()), p, Effective(adjusted), nextSequence, now, kind)
    {
      hide Effective;
      hide ValidTimelines;
      EffectiveMerged(timelines, adjusted);
      promises := promises[p.id := p];
      timelines := timelines + adjusted;
      sequence := nextSequence;
      events := events + [Event(nextSequence, now, kind, OnPromise(p.id, p.version))];
    }

    // ---- Expirations ----

    /** Expires one due hold and gives its bundle back. */
    method ExpireHold(id: PromiseId, now: int) returns (r: Result<(), DomainError>)
      requires Valid() && id in promises
      modifies this
      ensures Valid() && revision == old(revision)
      ensures Outcome(Value(), r) == ExpireOne(old(Value()), id, now)
    {
      hide Effective;
      hide RestoredTimelines;
      hide Explains;
      hide AllIndexed;
      hide Publish;
      hide ValidTimelines;
      ghost var effects := ExpireOneExplained(Value(), id, now);
      StaysCoherent(Value(), effects, ExpireOne(Value(), id, now).state, false);
      assert SoundPromise(Value(), promises[id]);
      var nextSequence :- NextSequenceNumber();
      var expired := new PromiseCell(promises[id]);
      var _ :- expired.Expire(now, nextSequence);
      var adjusted :- Restored(expired.bundle);
      PublishPromise(expired.Value(), adjusted, nextSequence, now, HoldExpiry);
      r := Ok(());
    }

    method NextSequenceNumber() returns (r: Result<int, DomainError>)
      ensures r == NextSequence(Value())
    {
      if sequence >= U64_MAX {
        return Err(SequenceOverflow);
      }
      r := Ok(sequence + 1);
    }

    /** Expires every due hold by deadline and identity. */
    method ProcessExpirations(now: int) returns (r: Result<int, DomainError>)
      requires Valid()
      modifies this
      ensures Valid() && revision == old(revision)
      ensures Outcome(Value(), r) == Expirations(old(Value()), now)
    {
      ghost var st := Value();
      var dueHolds := DueAmong(promises, SortedKeys(promises.Keys), now);
      DueHoldsExact(st, now);
      ScheduleRead(st, now);
      hide Coherent;
      hide Effective;
      hide ValidTimelines;
      hide Expirations;
      hide ExpireUpTo;
      hide ExpireOne;
      hide DueHolds;
      hide DueAmong;
      hide SortedKeys;
      ExpirationsUnfold(st, now);
      ExpireNone(st, dueHolds, now);
      var expiredCount := 0;
      for k := 0 to |dueHolds|
        invariant Valid() && revision == old(revision) && expiredCount == k
        invariant ExpireUpTo(st, dueHolds, k, now) == Outcome(Value(), Ok(k))
        invariant forall id :: id in dueHolds ==> id in promises
      {
        var id := dueHolds[k];
        assert id in dueHolds;
        ExpireLast(st, dueHolds, k + 1, now);
        ghost var before := Value();
        KeysKept(before, id, now);
        var one := ExpireHold(id, now);
        if one.Err? {
          ExpireStops(st, dueHolds, k + 1, |dueHolds|, now);
          return Err(one.error);
        }
        expiredCount := expiredCount + 1;
      }
      r := Ok(expiredCount);
    }

    // ---- Holding ----

    /** Publishes an accepted hold under a prepared identity. */
    method AcceptHeld(id: PromiseId, bundle: Bundle, expiresAt: int, now: int, adjusted: Timelines)
      returns (r: Result<(), DomainError>)
      requires ValidTimelines(timelines) && ValidTimelines(adjusted)
      modifies this
      ensures ValidTimelines(timelines) && revision == old(revision)
      ensures Outcome(Value(), r) == AcceptHold(old(Value()), id, bundle, expiresAt, now, Effective(adjusted))
    {
      hide Effective;
      hide ValidTimelines;
      var nextSequence :- NextSequenceNumber();
      if expiresAt <= now {
        return Err(InvalidExpiration);
      }
      var p := Promise(id, Held(expiresAt), bundle, 1, nextSequence, nextSequence);
      PublishPromise(p, adjusted, nextSequence, now, HoldCreated);
      r := Ok(());
    }

    method CheckHoldReady(id: PromiseId, expiresAt: int, now: int) returns (r: Result<(), DomainError>)
      ensures r == HoldReady(Value(), id, expiresAt, now)
    {
      if id in promises {
        return Err(PromiseAlreadyExists);
      }
      if expiresAt <= now {
        return Err(InvalidExpiration);
      }
      r := Ok(());
    }

    /** Holds one bundle, all or nothing. */
    method HoldWithId(id: PromiseId, bundle: Bundle, expiresAt: int, now: int)
      returns (r: Result<CommandResult, DomainError>)
      requires ValidTimelines(timelines) && ValidBundles(promises) && ValidClaims(bundle)
      modifies this
      ensures ValidTimelines(timelines) && revision == old(revision)
      ensures Outcome(Value(), r) == HoldBundle(old(Value()), id, bundle, expiresAt, now)
    {
      hide Effective;
      hide ValidTimelines;
      hide EvaluateBundle;
      hide AcceptHold;
      var _ :- CheckHoldReady(id, expiresAt, now);
      var admission :- EvaluateBundleAdmission(bundle);
      match admission
      case Fitted(adjusted) =>
        var _ :- AcceptHeld(id, bundle, expiresAt, now, adjusted);
        r := Ok(HoldHeld(id));
      case Conflicted(conflicts) =>
        r := Ok(HoldUnavailable(conflicts));
    }

    /** Tries the alternatives in order and holds the first that fits. */
    method HoldOneOfChoice(id: PromiseId, choice: seq<Bundle>, expiresAt: int, now: int)
      returns (r: Result<CommandResult, DomainError>)
      requires ValidTimelines(timelines) && ValidBundles(promises)
      requires forall i :: 0 <= i < |choice| ==> ValidClaims(choice[i])
      modifies this
      ensures ValidTimelines(timelines) && revision == old(revision)
      ensures Outcome(Value(), r) == HoldChoice(old(Value()), id, choice, expiresAt, now)
    {
      hide Effective;
      hide ValidTimelines;
      hide EvaluateBundle;
      hide AcceptHold;
      ghost var st := Value();
      var _ :- CheckHoldReady(id, expiresAt, now);
      var allConflicts: seq<ChoiceConflict> := [];
      for k := 0 to |choice|
        invariant unchanged(this) && ValidTimelines(timelines)
        invariant ScanChoice(st, choice, k) == Ok(AllBlocked(allConflicts))
      {
        var admission := EvaluateBundleAdmission(choice[k]);
        if admission.Err? {
          ScanStops(st, choice, k + 1, |choice|);
          return Err(admission.error);
        }
        match admission.value
        case Fitted(adjusted) =>
          ScanStops(st, choice, k + 1, |choice|);
          var _ :- AcceptHeld(id, choice[k], expiresAt, now, adjusted);
          return Ok(ChoiceHeld(id, k));
        case Conflicted(conflicts) =>
          allConflicts := allConflicts + [ChoiceConflict(k, conflicts)];
      }
      r := Ok(ChoiceUnavailable(allConflicts));
    }

    /** Tries candidate starts in order, stepping while the next is representable and in range. */
    method SearchCandidates(relative: seq<RelativeClaim>, earliest: int, latest: int, step: int)
      returns (r: Result<SlotResult, DomainError>)
      requires ValidTimelines(timelines) && ValidBundles(promises)
      requires forall i :: 0 <= i < |relative| ==> relative[i].Valid()
      ensures r.Ok? && r.value.Slot? ==> ValidTimelines(r.value.timelines)
      ensures SlotMeaning(r) == SearchSlots(Value(), relative, earliest, latest, step)
    {
      hide Effective;
      hide ValidTimelines;
      hide EvaluateBundle;
      hide Materialize;
      ghost var st := Value();
      if earliest > latest {
        return Err(InvalidSearchRange);
      }
      if step <= 0 {
        return Err(InvalidStep);
      }
      var start := earliest;
      var attempts := 0;
      while true
        invariant start <= latest
        invariant SearchFrom(st, relative, start, latest, step, attempts)
                  == SearchFrom(st, relative, earliest, latest, step, 0)
        decreases latest - start
      {
        var bundle :- MaterializeAt(relative, start);
        MaterializedClaims(relative, start);
        var admission :- EvaluateBundleAdmission(bundle);
        if admission.Fitted? {
          return Ok(Slot(start, bundle, admission.timelines));
        }
        if start == latest {
          return Ok(Exhausted(attempts + 1));
        }
        var next := CheckedAddI64(start, step);
        if next.None? {
          return Ok(Exhausted(attempts + 1));
        }
        if next.value > latest {
          return Ok(Exhausted(attempts + 1));
        }
        attempts := attempts + 1;
        start := next.value;
      }
    }

    /** Holds the first candidate start at which the relative bundle fits. */
    method HoldFirstSlotOf(id: PromiseId, relative: seq<RelativeClaim>, earliest: int, latest: int, step: int,
                           expiresAt: int, now: int)
      returns (r: Result<CommandResult, DomainError>)
      requires ValidTimelines(timelines) && ValidBundles(promises)
      requires forall i :: 0 <= i < |relative| ==> relative[i].Valid()
      modifies this
      ensures ValidTimelines(timelines) && revision == old(revision)
      ensures Outcome(Value(), r) == HoldSlot(old(Value()), id, relative, earliest, latest, step, expiresAt, now)
    {
      hide Effective;
      hide ValidTimelines;
      hide SearchFrom;
      hide AcceptHold;
      var _ :- CheckHoldReady(id, expiresAt, now);
      var search :- SearchCandidates(relative, earliest, latest, step);
      match search
      case Slot(start, bundle, adjusted) =>
        var _ :- AcceptHeld(id, bundle, expiresAt, now, adjusted);
        r := Ok(SlotHeld(id, start));
      case Exhausted(attempts) =>
        r := Ok(SlotUnavailable(attempts));
    }

    // ---- Commit, release, replace ----

    /** Looks a promise up; one that has already expired reports so. */
    method FindUnexpired(id: PromiseId) returns (r: Result<Promise, DomainError>)
      ensures r == Unexpired(Value(), id)
    {
      if id !in promises {
        return Err(PromiseNotFound);
      }
      if promises[id].state.Expired? {
        return Err(HoldExpired);
      }
      r := Ok(promises[id]);
    }

    method CommitHeld(id: PromiseId, expectedVersion: int, now: int) returns (r: Result<CommandResult, DomainError>)
      requires ValidTimelines(timelines) && KeyedByIdentity(promises)
      modifies this
      ensures ValidTimelines(timelines) && revision == old(revision)
      ensures Outcome(Value(), r) == CommitPromise(old(Value()), id, expectedVersion, now)
    {
      hide Effective;
      hide ValidTimelines;
      var nextSequence :- NextSequenceNumber();
      var found :- FindUnexpired(id);
      var p := new PromiseCell(found);
      var newVersion :- p.Commit(expectedVersion, now, nextSequence);
      EffectiveEmpty();
      PublishPromise(p.Value(), map[], nextSequence, now, HoldCommitted);
      r := Ok(PromiseCommitted(id, newVersion));
    }

    method ReleaseActive(id: PromiseId, expectedVersion: int, now: int) returns (r: Result<CommandResult, DomainError>)
      requires ValidTimelines(timelines) && ValidBundles(promises) && KeyedByIdentity(promises)
      modifies this
      ensures ValidTimelines(timelines) && revision == old(revision)
      ensures Outcome(Value(), r) == ReleasePromise(old(Value()), id, expectedVersion, now)
    {
      hide Effective;
      hide ValidTimelines;
      hide RestoredTimelines;
      var nextSequence :- NextSequenceNumber();
      var found :- FindUnexpired(id);
      assert ValidBundle(promises[id].bundle);
      var released := new PromiseCell(found);
      var newVersion :- released.Release(expectedVersion, now, nextSequence);
      var adjusted :- Restored(released.bundle);
      PublishPromise(released.Value(), adjusted, nextSequence, now, HoldReleased);
      r := Ok(PromiseReleased(id, newVersion));
    }

    /** Replaces a live promise's bundle and state in one step, judged against the final state. */
    method ReplaceLive(id: PromiseId, expectedVersion: int, newBundle: Bundle, newState: ReplacementState, now: int)
      returns (r: Result<CommandResult, DomainError>)
      requires ValidTimelines(timelines) && ValidBundles(promises) && KeyedByIdentity(promises)
               && ValidClaims(newBundle)
      modifies this
      ensures ValidTimelines(timelines) && revision == old(revision)
      ensures Outcome(Value(), r) == ReplacePromise(old(Value()), id, expectedVersion, newBundle, newState, now)
    {
      hide Effective;
      hide ValidTimelines;
      hide RestoredTimelines;
      hide EvaluateBundle;
      var found :- FindUnexpired(id);
      assert ValidBundle(promises[id].bundle);
      var replaced := new PromiseCell(found);
      var oldBundle := replaced.bundle;
      var nextSequence :- NextSequenceNumber();
      var newVersion :- replaced.Replace(expectedVersion, newBundle, newState, now, nextSequence);
      var finalTimelines :- Restored(oldBundle);
      var admission :- EvaluateBundleWithOverrides(newBundle, finalTimelines);
      match admission
      case Conflicted(conflicts) =>
        r := Ok(ReplaceUnavailable(ForgetPromise(conflicts, id)));
      case Fitted(adjusted) =>
        EffectiveMerged(finalTimelines, adjusted);
        PublishPromise(replaced.Value(), finalTimelines + adjusted, nextSequence, now, HoldReplaced);
        r := Ok(PromiseReplaced(id, newVersion));
    }

    // ---- Pools ----

    /** Builds a pool's timeline from its curve and the given claims. */
    method BuildTimeline(curve: seq<CapacitySegment>, claims: seq<Claim>) returns (r: Result<seq<Block>, DomainError>)
      requires ValidCurve(curve) && ValidClaims(claims)
      ensures r.Ok? ==> ValidBlocks(r.value)
      ensures Rebuild(curve, claims) == if r.Err? then Err(r.error) else Ok(Canon(Flat(r.value)))
    {
      hide Flat;
      hide RebuiltPoints;
      hide Representable;
      var built := FromCapacityAndClaims(curve, claims);
      if built.Err? {
        return Err(IndexOverflow);
      }
      BuiltPoints(built.value, curve, claims);
      r := Ok(built.value);
    }

    method CreateResourcePoolNow(pool: Pool, now: int) returns (r: Result<CommandResult, DomainError>)
      requires ValidTimelines(timelines) && ValidCurve(pool.curve)
      modifies this
      ensures ValidTimelines(timelines) && revision == old(revision)
      ensures Outcome(Value(), r) == CreatePool(old(Value()), pool, now)
    {
      hide Effective;
      hide ValidTimelines;
      hide Rebuild;
      if pool.id in pools {
        return Err(ResourcePoolAlreadyExists);
      }
      var built :- BuildTimeline(pool.curve, []);
      var nextSequence :- NextSequenceNumber();
      EffectiveStored(timelines, pool.id, built);
      pools := pools[pool.id := pool];
      timelines := timelines[pool.id := built];
      sequence := nextSequence;
      events := events + [Event(nextSequence, now, ResourceCreated, OnPool(pool.id))];
      r := Ok(ResourcePoolCreated(pool.id));
    }

    /** Negative slack of a timeline with the active promises that overlap it. */
    method CapacityDeficits(pool: PoolId, blocks: seq<Block>) returns (deficits: seq<CapacityDeficit>)
      requires ValidBlocks(blocks)
      ensures deficits == PoolDeficits(Value(), pool, Deficits(Canon(Flat(blocks))))
    {
      hide Canon;
      hide Flat;
      hide Deficits;
      hide Holders;
      var timeline := new SlackTimeline(blocks);
      var found := timeline.DeficitIntervals();
      deficits := [];
      for i := 0 to |found.value|
        invariant |deficits| == i
        invariant forall j :: 0 <= j < i ==> deficits[j] == PoolDeficits(Value(), pool, found.value)[j]
      {
        var interval := found.value[i].interval;
        deficits := deficits
          + [CapacityDeficit(pool, interval, found.value[i].amount, Holders(promises, pool, interval))];
      }
    }

    /** Replaces a pool's curve; strict mode refuses any resulting deficit. */
    method ReviseCapacityNow(pool: PoolId, curve: seq<CapacitySegment>, mode: RevisionMode, now: int)
      returns (r: Result<CommandResult, DomainError>)
      requires ValidTimelines(timelines) && ValidCurve(curve) && ValidClaims(ActiveClaims(promises, pool))
      modifies this
      ensures ValidTimelines(timelines) && revision == old(revision)
      ensures Outcome(Value(), r) == RevisePool(old(Value()), pool, curve, mode, now)
    {
      hide Canon;
      hide Flat;
      hide ValidBlocks;
      hide Rebuild;
      hide Deficits;
      hide ResolvedEvents;
      hide CurrentEvents;
      hide AffectedPromises;
      hide ActiveClaims;
      hide PoolDeficits;
      if pool !in pools || pool !in timelines {
        return Err(ResourcePoolNotFound);
      }
      var previousDeficits := CapacityDeficits(pool, timelines[pool]);
      var revised :- BuildTimeline(curve, ActiveClaims(promises, pool));
      var deficits := CapacityDeficits(pool, revised);
      if mode.Strict? && deficits != [] {
        return Err(CapacityRevisionCreatesDeficit);
      }
      var nextSequence :- NextSequenceNumber();
      EffectiveStored(timelines, pool, revised);
      var logged := RevisionEvents(previousDeficits, deficits, nextSequence, now);
      pools := pools[pool := pools[pool].(curve := curve)];
      timelines := timelines[pool := revised];
      sequence := nextSequence;
      var changed := Event(nextSequence, now, CapacityChanged, OnPool(pool));
      assert events + [changed] + (ResolvedEvents(previousDeficits, deficits, nextSequence, now)
                                   + CurrentEvents(previousDeficits, deficits, nextSequence, now))
             == events + [changed] + ResolvedEvents(previousDeficits, deficits, nextSequence, now)
                + CurrentEvents(previousDeficits, deficits, nextSequence, now);
      events := events + [changed] + logged;
      r := Ok(CapacityRevised(nextSequence, deficits, AffectedPromises(deficits)));
    }

    // ---- Commands ----

    /** Performs the requested operation after expirations. */
    method Perform(operation: Operation, expired: int, now: int) returns (r: Result<CommandResult, DomainError>)
      requires Valid() && operation.Valid()
      modifies this
      ensures Valid() && revision == old(revision)
      ensures Outcome(Value(), r) == Requested(old(Value()), operation, expired, now)
    {
      hide Effective;
      hide ValidTimelines;
      hide AllIndexed;
      hide CreatePool;
      hide RevisePool;
      hide HoldBundle;
      hide HoldChoice;
      hide HoldSlot;
      hide CommitPromise;
      hide ReleasePromise;
      hide ReplacePromise;
      hide Explains;
      hide ActiveAmong;
      hide SortedKeys;
      ghost var st := Value();
      ghost var effects := RequestedExplained(st, operation, expired, now);
      StaysCoherent(st, effects, Requested(st, operation, expired, now).state, Forced(operation));
      BundlesValid(st);
      match operation
      case CreateResourcePool(pool, displayName, unit, curve) =>
        r := CreateResourcePoolNow(Pool(pool, displayName, unit, curve), now);
      case ReviseCapacity(pool, curve, mode) =>
        ActiveValid(promises, SortedKeys(promises.Keys), pool);
        r := ReviseCapacityNow(pool, curve, mode, now);
      case Hold(id, bundle, expiresAt) =>
        r := HoldWithId(id, bundle, expiresAt, now);
      case HoldOneOf(id, choice, expiresAt) =>
        r := HoldOneOfChoice(id, choice, expiresAt, now);
      case HoldFirstSlot(id, relative, earliest, latest, step, expiresAt) =>
        r := HoldFirstSlotOf(id, relative, earliest, latest, step, expiresAt, now);
      case Commit(id, expectedVersion) =>
        r := CommitHeld(id, expectedVersion, now);
      case Release(id, expectedVersion) =>
        r := ReleaseActive(id, expectedVersion, now);
      case Replace(id, expectedVersion, newBundle, newState) =>
        r := ReplaceLive(id, expectedVersion, newBundle, newState, now);
      case ProcessExpirations =>
        r := Ok(ExpirationsProcessed(expired));
    }

    /** One first-seen operation: due expirations, then the operation itself. */
    method ApplyFirstSeen(operation: Operation, now: int) returns (r: Result<CommandResult, DomainError>)
      requires Valid() && operation.Valid()
      modifies this
      ensures Valid() && revision == old(revision)
      ensures Outcome(Value(), r) == ApplyOnce(old(Value()), operation, now)
    {
      hide Coherent;
      hide Effective;
      hide Expirations;
      hide Requested;
      hide Operation.Valid;
      var expired :- ProcessExpirations(now);
      r := Perform(operation, expired, now);
    }

    /** Applies a command: exact retries answer from their record, first-seen commands run once. */
    method ApplyCommand(command: Command, now: int) returns (response: Response)
      requires Valid() && command.operation.Valid()
      modifies this
      ensures Valid()
      ensures (Published(Value(), revision), response)
              == Apply(Published(old(Value()), old(revision)), digest, command, now)
    {
      hide Coherent;
      hide Effective;
      hide ApplyOnce;
      hide Operation.Valid;
      var hash := digest(command.operation);
      if command.identity in records {
        var record := records[command.identity];
        if record.digest != hash {
          return Err(IdempotencyConflict);
        }
        return record.response;
      }
      if revision >= U128_MAX {
        return Err(PublicationRevisionOverflow);
      }
      response := ApplyFirstSeen(command.operation, now);
      ghost var unrecorded := Value();
      records := records[command.identity := Record(hash, response)];
      revision := revision + 1;
      RecordsIrrelevant(unrecorded, records);
    }

    // ---- Group commit ----

    /** A copy that evolves on its own. */
    constructor Clone(e: Engine)
      ensures Value() == e.Value() && revision == e.revision && digest == e.digest && timelines == e.timelines
    {
      pools, timelines, promises, events, records := e.pools, e.timelines, e.promises, e.events, e.records;
      sequence, revision, digest := e.sequence, e.revision, e.digest;
    }

    /** Identities of the requests that published state has not answered, each once. */
    method CountNewIdentities(requests: seq<Request>) returns (count: nat)
      ensures count == |NewIdentities(Value(), requests, |requests|)|
    {
      var newIdentities: map<Identity, seq<int>> := map[];
      for k := 0 to |requests|
        invariant newIdentities.Keys == NewIdentities(Value(), requests, k)
      {
        var identity := requests[k].command.identity;
        IdentitiesPushed(Value(), requests, k);
        if identity !in records && identity !in newIdentities {
          newIdentities := newIdentities[identity := digest(requests[k].command.operation)];
        }
      }
      count := |newIdentities|;
      assert |newIdentities| == |newIdentities.Keys|;
    }

    /** Runs one request of a batch on this candidate, measuring effects against the batch base. */
    method PrepareRequest(basePools: map<PoolId, Pool>, basePromises: map<PromiseId, Promise>, request: Request)
      returns (response: Response, item: Option<Item>)
      requires Valid() && request.command.operation.Valid()
      modifies this
      ensures Valid()
      ensures forall base: EngineState, responses, items ::
                base.pools == basePools && base.promises == basePromises ==>
                  PrepareOne(base, digest, Preparing(old(Value()), responses, items), request)
                  == Preparing(Value(), responses + [response], if item.None? then items else items + [item.value])
    {
      hide Coherent;
      hide Effective;
      hide ApplyOnce;
      hide ChangedAmong;
      hide Operation.Valid;
      hide Extends;
      var command := request.command;
      var hash := digest(command.operation);
      if command.identity in records {
        var record := records[command.identity];
        return if record.digest == hash then record.response else Err(IdempotencyConflict), None;
      }
      ghost var before := Value();
      ApplyOnceKeepsRecords(before, command.operation, request.now);
      var priorEvents := events;
      response := ApplyFirstSeen(command.operation, request.now);
      ghost var unrecorded := Value();
      records := records[command.identity := Record(hash, response)];
      RecordsIrrelevant(unrecorded, records);
      item := Some(Item(request.now,
                        DurableTransition(command, command.identity, hash, response, Changed(basePools, pools),
                                          Changed(basePromises, promises), EventsSince(priorEvents, events),
                                          sequence)));
    }

    /** Prepares ordered commands against one copy of published state, which stays as it is. */
    method PrepareBatch(requests: seq<Request>) returns (r: Result<PreparedBatch, PreparationError>)
      requires Valid() && ValidRequests(requests)
      ensures requests == [] ==> r == Ok(PreparedBatch(revision, revision, None, [], []))
      ensures requests != [] ==>
                (r.Err? <==> revision + |NewIdentities(Value(), requests, |requests|)| > U128_MAX)
                && (r.Err? ==> r.error == RevisionOverflow)
      ensures requests != [] && r.Ok? ==> PreparedFor(r.value, Published(Value(), revision), digest, requests)
    {
      hide Coherent;
      hide Effective;
      hide ValidTimelines;
      hide PrepareOne;
      hide Run;
      hide Responses;
      hide NewIdentities;
      hide Operation.Valid;
      if requests == [] {
        return Ok(PreparedBatch(revision, revision, None, [], []));
      }
      var revisionDelta := CountNewIdentities(requests);
      if revision + revisionDelta > U128_MAX {
        return Err(RevisionOverflow);
      }
      var nextRevision := revision + revisionDelta;
      ghost var base := Value();
      var candidate := new Engine.Clone(this);
      var responses: seq<Response> := [];
      var items: seq<Item> := [];
      EmptyBatch(base, digest, requests);
      hide PrepareUpTo;
      for k := 0 to |requests|
        invariant candidate.Valid() && fresh(candidate) && candidate.digest == digest
        invariant PrepareUpTo(base, digest, requests, k) == Preparing(candidate.Value(), responses, items)
      {
        PreparePushed(base, digest, requests, k);
        var response, item := candidate.PrepareRequest(pools, promises, requests[k]);
        responses := responses + [response];
        if item.Some? {
          items := items + [item.value];
        }
      }
      PrepareRefinesApply(Published(base, revision), digest, requests);
      var state := candidate.Stored();
      r := Ok(PreparedBatch(revision, nextRevision, Some(state), responses, items));
    }

    /** The fields as a value, to be moved into a prepared batch. */
    method Stored() returns (state: StoredState)
      ensures state.Read() == Value() && state.timelines == timelines
    {
      state := StoredState(pools, timelines, promises, events, records, sequence);
    }

    /** A prepared batch with durable items only publishes over the revision it was prepared from. */
    method CanPublish(prepared: PreparedBatch) returns (r: Result<(), PreparationError>)
      ensures r.Err? <==> prepared.items != [] && prepared.baseRevision != revision
      ensures r.Err? ==> r.error == StaleRevision(prepared.baseRevision, revision)
    {
      if prepared.items != [] && prepared.baseRevision != revision {
        return Err(StaleRevision(prepared.baseRevision, revision));
      }
      r := Ok(());
    }

    /** Publishes a prepared batch without further validation. */
    method PublishBatch(prepared: PreparedBatch) returns (responses: seq<Response>)
      requires Valid()
      requires prepared.candidate.Some? ==>
                 ValidTimelines(prepared.candidate.value.timelines) && Coherent(prepared.candidate.value.Read())
      modifies this
      ensures Valid() && responses == prepared.responses
      ensures if prepared.items != [] && prepared.candidate.Some?
              then Published(Value(), revision) == Published(prepared.candidate.value.Read(), prepared.nextRevision)
              else Published(Value(), revision) == Published(old(Value()), old(revision))
    {
      hide Coherent;
      hide ValidTimelines;
      if prepared.items != [] && prepared.candidate.Some? {
        var state := prepared.candidate.value;
        pools, timelines, promises, events, records, sequence :=
          state.pools, state.timelines, state.promises, state.events, state.records, state.sequence;
        revision := prepared.nextRevision;
        assert Value() == state.Read();
      }
      responses := prepared.responses;
    }

    // ---- Recovery ----

    /** Installs durable effects without running admission; on failure nothing changes. */
    method InstallTransition(t: DurableTransition) returns (r: Result<(), InstallError>)
      modifies this
      ensures var spec := Install(Published(old(Value()), old(revision)), digest, t);
              if spec.Ok? then r == Ok(()) && Published(Value(), revision) == spec.value
              else r == Err(spec.error) && Published(Value(), revision) == Published(old(Value()), old(revision))
    {
      hide Effective;
      hide InsertPools;
      hide InsertPromises;
      hide CheckNumbers;
      hide PromisesPlaced;
      hide EventsPlaced;
      if revision >= U128_MAX {
        return Err(PublicationRevision);
      }
      if t.command.identity != t.identity {
        return Err(CommandIdentity);
      }
      if digest(t.command.operation) != t.digest {
        return Err(CommandHash);
      }
      if t.identity in records {
        return Err(DuplicateIdempotencyIdentity);
      }
      var _ :- ValidateNumbers(sequence, t.finalSequence, t.events);
      var candidatePools :- InsertPoolList(pools, t.pools);
      var candidatePromises :- InsertPromiseList(promises, t.promises, t.finalSequence);
      if !PromisesPlaced(candidatePromises, candidatePools) {
        return Err(DomainInvariant);
      }
      var identitiesValid := ValidateIdentities(t.events, candidatePools, candidatePromises);
      if !identitiesValid {
        return Err(EntityIdentity);
      }
      EffectiveEmpty();
      pools, timelines, promises := candidatePools, map[], candidatePromises;
      events, sequence := events + t.events, t.finalSequence;
      records := records[t.identity := Record(t.digest, t.response)];
      revision := revision + 1;
      r := Ok(());
    }

    /** Rebuilds every timeline from authoritative state; on failure nothing changes. */
    method RebuildSlackTimelines() returns (r: Result<(), InstallError>)
      requires ValidBundles(promises) && forall pool :: pool in pools ==> ValidCurve(pools[pool].curve)
      modifies this
      ensures r.Ok? ==> ValidTimelines(timelines)
      ensures var spec := Reindex(Published(old(Value()), old(revision)));
              if spec.Ok? then r == Ok(()) && Published(Value(), revision) == spec.value
              else r == Err(spec.error) && Published(Value(), revision) == Published(old(Value()), old(revision))
    {
      hide Canon;
      hide Flat;
      hide ValidBlocks;
      hide ActiveAmong;
      hide RebuiltPoints;
      hide Representable;
      ghost var st := Value();
      var poolIds := SortedKeys(pools.Keys);
      hide SortedKeys;
      var rebuilt: Timelines := map[];
      for k := 0 to |poolIds|
        invariant unchanged(this)
        invariant forall pool :: pool in rebuilt <==> pool in poolIds[..k]
        invariant forall pool :: pool in rebuilt ==> RebuiltAs(st, pool, rebuilt[pool])
      {
        var pool := poolIds[k];
        assert pool in poolIds;
        assert poolIds[..k + 1] == poolIds[..k] + [pool];
        ActiveValid(promises, SortedKeys(promises.Keys), pool);
        var timeline := BuildTimeline(pools[pool].curve, ActiveClaims(promises, pool));
        if timeline.Err? {
          return Err(IndexFailure(IndexOverflow));
        }
        rebuilt := rebuilt[pool := timeline.value];
      }
      assert poolIds[..|poolIds|] == poolIds;
      RebuiltAll(st, rebuilt);
      timelines := rebuilt;
      r := Ok(());
    }

    /** Captures authoritative state in key order. */
    method CaptureSnapshot() returns (snapshot: EngineSnapshot)
      ensures snapshot == Capture(Published(Value(), revision))
    {
      hide ChangedAmong;
      hide RecordsAmong;
      snapshot := EngineSnapshot(Changed(map[], pools), Changed(map[], promises), events,
                                 RecordsAmong(records, SortedIdentities(records.Keys)), sequence, revision, 0);
    }

    /** Validates a snapshot and restores it into an engine without an index. */
    static method RestoreSnapshotUnindexed(digest: Operation -> seq<int>, snapshot: EngineSnapshot)
      returns (r: Result<Engine, InstallError>)
      ensures r.Ok? ==> fresh(r.value) && r.value.digest == digest && r.value.timelines == map[]
      ensures match r
              case Ok(engine) => RestoreUnindexed(snapshot) == Ok(Published(engine.Value(), engine.revision))
              case Err(error) => RestoreUnindexed(snapshot) == Err(error)
    {
      hide InsertPools;
      hide RestorePromises;
      hide CheckEvents;
      hide RestoreRecords;
      hide Effective;
      if snapshot.prunedThrough != 0 {
        return Err(DomainInvariant);
      }
      var restoredPools :- InsertPoolList(map[], snapshot.pools);
      var restoredPromises :- RestorePromiseList(restoredPools, snapshot.promises, snapshot.sequence);
      var st := EngineState(restoredPools, map[], restoredPromises, snapshot.events, map[], snapshot.sequence);
      var _ :- ValidateEvents(st, snapshot.events);
      var restoredRecords :- RestoreRecordList(st, snapshot.records);
      var engine := new Engine(digest);
      EffectiveEmpty();
      engine.pools, engine.promises, engine.events := restoredPools, restoredPromises, snapshot.events;
      engine.records, engine.sequence, engine.revision := restoredRecords, snapshot.sequence, snapshot.revision;
      engine.timelines := map[];
      r := Ok(engine);
    }
  }

  lemma ScheduleRead(st: EngineState, now: int)
    ensures DueHolds(st, now) == DueAmong(st.promises, SortedKeys(st.promises.Keys), now)
  {
    hide DueAmong;
  }

  lemma ExpireNone(st: EngineState, due: seq<PromiseId>, now: int)
    ensures ExpireUpTo(st, due, 0, now) == Outcome(st, Ok(0))
  {
  }

  lemma ExpireLast(st: EngineState, due: seq<PromiseId>, k: nat, now: int)
    requires 0 < k <= |due| && ExpireUpTo(st, due, k - 1, now).result.Ok?
    ensures var one := ExpireOne(ExpireUpTo(st, due, k - 1, now).state, due[k - 1], now);
            ExpireUpTo(st, due, k, now) == Outcome(one.state, if one.result.Ok? then Ok(k) else Err(one.result.error))
  {
    hide ExpireOne;
  }

  lemma {:induction false} ExpireStops(st: EngineState, due: seq<PromiseId>, k: nat, n: nat, now: int)
    requires k <= n <= |due| && ExpireUpTo(st, due, k, now).result.Err?
    ensures ExpireUpTo(st, due, n, now) == ExpireUpTo(st, due, k, now)
  {
    hide ExpireOne;
    if k < n {
      ExpireStops(st, due, k, n - 1, now);
    }
  }

  lemma KeysKept(st: EngineState, id: PromiseId, now: int)
    ensures st.promises.Keys <= ExpireOne(st, id, now).state.promises.Keys
  {
    hide RestoredTimelines;
  }
}
