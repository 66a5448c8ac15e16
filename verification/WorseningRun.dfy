/**
 A run on which a replacement breaks the documented rule: capacity 8, all of it held on [0, 10), cut to
 5 by a forced revision, and the hold replaced by 6 on [0, 20). Slack on [10, 20) goes from 5 to -1.
 */
module WorseningRun {
  import opened Results
  import opened Intervals
  import opened StepFunctions
  import opened SlackTimelines
  import opened CapacityCurves
  import opened Domain
  import opened OrderedKeys
  import opened TimelineRebuild
  import opened Admission
  import opened AvailabilityOracle
  import opened Promises
  import opened Transitions
  import opened ActiveUsage
  import opened EngineInvariants
  import opened BundleAdmissions
  import opened BundleVerdicts
  import opened EngineSteps
  import opened Expiry
  import opened EngineSafety
  import opened EngineGuarantees
  import opened Batches
  import opened ReplacementRules

  // ---- The commands ----

  function Flat(capacity: int): seq<CapacitySegment> {
    [CapacitySegment(Interval(0, 20), capacity)]
  }

  function Taking(pool: PoolId, end: int, quantity: int): Bundle {
    [Claim(pool, Interval(0, end), quantity)]
  }

  function Asked(key: string, operation: Operation): Request {
    Request(Command(Identity("client", key), operation), 0)
  }

  function Commands(pool: PoolId, id: PromiseId): seq<Request> {
    [Asked("create", CreateResourcePool(pool, "", Unit("unit", 1), Flat(8))),
     Asked("hold", Hold(id, Taking(pool, 10, 8), 100)),
     Asked("revise", ReviseCapacity(pool, Flat(5), Force)),
     Asked("replace", Replace(id, 1, Taking(pool, 20, 6), ReplacedHeld(100)))]
  }

  function HeldEight(pool: PoolId, id: PromiseId): Promise {
    Promise(id, Held(100), Taking(pool, 10, 8), 1, 2, 2)
  }

  // ---- What the parts mean ----

  lemma FlatCurve(capacity: int, t: int)
    requires 0 < capacity <= 8
    ensures ValidCurve(Flat(capacity)) && CapacityAt(Flat(capacity), t) == if 0 <= t < 20 then capacity else 0
  {
    assert Flat(capacity)[..0] == [];
  }

  lemma TakingUsage(pool: PoolId, end: int, quantity: int, other: PoolId, t: int)
    requires 0 < end && 0 < quantity <= 8 && end <= 20
    ensures ValidBundle(Taking(pool, end, quantity)) && PoolsOf(Taking(pool, end, quantity)) == [pool]
    ensures ClaimsOn(Taking(pool, end, quantity), other) == if other == pool then Taking(pool, end, quantity) else []
    ensures Usage(ClaimsOn(Taking(pool, end, quantity), other), t)
            == if other == pool && 0 <= t < end then quantity else 0
  {
    hide SortedKeys;
    var bundle := Taking(pool, end, quantity);
    assert bundle[..0] == [];
    SingleUsage(bundle[0], t);
    NoUsage(t);
    IncreasingUnique(PoolsOf(bundle), [pool]);
  }

  lemma NobodyActive(pool: PoolId, t: int)
    ensures Usage(ActiveClaims(map[], pool), t) == 0
  {
    var none: map<PromiseId, Promise> := map[];
    assert none.Keys == {};
    NoUsage(t);
  }

  lemma OneActive(p: Promise, pool: PoolId)
    requires p.Active()
    ensures ActiveClaims(map[p.id := p], pool) == ClaimsOn(p.bundle, pool)
  {
    hide SortedKeys, ClaimsOn;
    var promises := map[p.id := p];
    assert promises.Keys == {p.id};
    IncreasingUnique(SortedKeys(promises.Keys), [p.id]);
    assert ActiveAmong(promises, [p.id][..0], pool) == [];
  }

  lemma NothingDueYet(st: EngineState)
    requires forall id :: id in st.promises ==> !Due(st.promises[id], 0)
    ensures DueHolds(st, 0) == []
  {
    hide DueHolds;
    DueHoldsExact(st, 0);
    FirstMember(DueHolds(st, 0));
  }

  lemma FirstMember(ids: seq<PromiseId>)
    ensures ids != [] ==> exists id :: id in ids
  {
    if ids != [] {
      var first := ids[0];
      assert first in ids;
    }
  }

  // ---- The run ----

  /** After `n` of the commands. */
  ghost predicate Reached(p: Published, pool: PoolId, capacity: int, promises: map<PromiseId, Promise>, n: nat,
                          keys: set<Identity>)
  {
    && Coherent(p.state) && pool in p.state.pools && p.state.pools[pool].curve == Flat(capacity)
    && p.state.promises == promises && p.state.sequence == n && p.revision == n && p.state.records.Keys == keys
  }

  /** A first-seen command with nothing due does what was requested. */
  lemma AppliedOnce(p: Published, digest: Operation -> seq<int>, request: Request)
    requires Coherent(p.state) && request.command.operation.Valid()
    requires request.command.identity !in p.state.records && p.revision < U128_MAX && request.now == 0
    requires forall id :: id in p.state.promises ==> !Due(p.state.promises[id], 0)
    ensures var outcome := Requested(p.state, request.command.operation, 0, 0);
            var (after, response) := Apply(p, digest, request.command, request.now);
            && response == outcome.result && after.revision == p.revision + 1 && Coherent(after.state)
            && after.state == outcome.state.(records := after.state.records)
            && after.state.records.Keys == outcome.state.records.Keys + {request.command.identity}
  {
    hide Coherent, DueHolds, Requested, Operation.Valid, DeficitFree;
    NothingDueYet(p.state);
    NothingDue(p.state, 0);
    ApplyKeeps(p, digest, request.command, request.now);
  }

  lemma CreateFirst(pool: PoolId)
    ensures var outcome := Requested(EmptyState, CreateResourcePool(pool, "", Unit("unit", 1), Flat(8)), 0, 0);
            && outcome.state.pools == map[pool := Pool(pool, "", Unit("unit", 1), Flat(8))]
            && outcome.state.promises == map[] && outcome.state.sequence == 1 && outcome.state.records == map[]
  {
    hide RebuiltPoints, Representable;
    FlatCurve(8, 0);
    CurveRepresentable(Flat(8));
  }

  lemma HoldFits(st: EngineState, pool: PoolId)
    requires Coherent(st) && pool in st.pools && st.pools[pool].curve == Flat(8) && st.promises == map[]
    ensures EvaluateBundle(st, Taking(pool, 10, 8), map[]).Ok?
    ensures EvaluateBundle(st, Taking(pool, 10, 8), map[]).value.BundleFits?
  {
    hide Coherent, EvaluateBundle, ClaimsOn, PoolsOf, ActiveClaims, Usage, Flat, Taking, CapacityAt;
    TakingUsage(pool, 10, 8, pool, 0);
    TakingKnown(st, pool, 10, 8);
    forall other, t
      ensures Usage(ActiveClaims(st.promises, other), t) == 0
      ensures Usage(ClaimsOn(Taking(pool, 10, 8), other), t) == if other == pool && 0 <= t < 10 then 8 else 0
      ensures CapacityAt(Flat(8), t) == if 0 <= t < 20 then 8 else 0
    {
      NobodyActive(other, t);
      TakingUsage(pool, 10, 8, other, t);
      FlatCurve(8, t);
    }
    assert SumsFit(st, Taking(pool, 10, 8)) by {
      forall other, t
        ensures Usage(ActiveClaims(st.promises, other), t) + Usage(ClaimsOn(Taking(pool, 10, 8), other), t) <= U64_MAX
      {
        NobodyActive(other, t);
        TakingUsage(pool, 10, 8, other, t);
      }
    }
    AdmissionRefinesOracle(st, Taking(pool, 10, 8));
  }

  lemma TakingKnown(st: EngineState, pool: PoolId, end: int, quantity: int)
    requires pool in st.pools
    ensures PoolsExist(Taking(pool, end, quantity), st.pools)
  {
  }

  lemma HoldNext(st: EngineState, pool: PoolId, id: PromiseId)
    requires Coherent(st) && pool in st.pools && st.pools[pool].curve == Flat(8) && st.promises == map[]
             && st.sequence == 1
    ensures var outcome := Requested(st, Hold(id, Taking(pool, 10, 8), 100), 0, 0);
            && outcome.state.pools == st.pools && outcome.state.promises == map[id := HeldEight(pool, id)]
            && outcome.state.sequence == 2 && outcome.state.records == st.records
  {
    hide Coherent, EvaluateBundle, Flat, Taking;
    HoldFits(st, pool);
  }

  lemma ReviseNext(st: EngineState, pool: PoolId, id: PromiseId)
    requires Coherent(st) && pool in st.pools && st.promises == map[id := HeldEight(pool, id)] && st.sequence == 2
    ensures var outcome := Requested(st, ReviseCapacity(pool, Flat(5), Force), 0, 0);
            && outcome.state.pools == st.pools[pool := st.pools[pool].(curve := Flat(5))]
            && outcome.state.promises == st.promises && outcome.state.sequence == 3
            && outcome.state.records == st.records
  {
    hide Coherent, PoolDeficits, ResolvedEvents, CurrentEvents, AffectedPromises, Deficits, ActiveClaims, RebuiltPoints,
         Flat, HeldEight, Representable;
    PoolIndexed(st, pool);
    ShrunkRepresentable(pool, id);
  }

  /** Slack after the revision: short by 3 while the hold lasts. */
  lemma ShrunkSlack(pool: PoolId, id: PromiseId, t: int)
    ensures SlackOf(Flat(5), ActiveClaims(map[id := HeldEight(pool, id)], pool), t)
            == if 0 <= t < 10 then -3 else if 10 <= t < 20 then 5 else 0
  {
    hide ActiveClaims, Usage, CapacityAt;
    OneActive(HeldEight(pool, id), pool);
    TakingUsage(pool, 10, 8, pool, t);
    FlatCurve(5, t);
  }

  lemma ShrunkRepresentable(pool: PoolId, id: PromiseId)
    ensures Representable(Flat(5), ActiveClaims(map[id := HeldEight(pool, id)], pool))
  {
    hide ActiveClaims, SlackOf, Flat, HeldEight;
    forall t
      ensures FitsI64(SlackOf(Flat(5), ActiveClaims(map[id := HeldEight(pool, id)], pool), t))
    {
      ShrunkSlack(pool, id, t);
    }
  }

  /** Before the replacement. */
  ghost predicate Shrunk(st: EngineState, pool: PoolId, id: PromiseId) {
    && Coherent(st) && pool in st.pools && st.pools[pool].curve == Flat(5)
    && st.promises == map[id := HeldEight(pool, id)]
    && st.sequence == 3
  }

  lemma ShrunkFacts(st: EngineState, pool: PoolId, id: PromiseId)
    requires Shrunk(st, pool, id)
    ensures pool in st.timelines
    ensures forall t :: At(0, st.timelines[pool], t) == if 0 <= t < 10 then -3 else if 10 <= t < 20 then 5 else 0
  {
    hide At, SlackOf, Flat, HeldEight, ActiveClaims;
    assert Indexed(st, pool);
    forall t
      ensures At(0, st.timelines[pool], t) == if 0 <= t < 10 then -3 else if 10 <= t < 20 then 5 else 0
    {
      ShrunkSlack(pool, id, t);
    }
  }

  /** With the hold given back the pool has 5 on [0, 20). */
  lemma RestoredFive(st: EngineState, pool: PoolId, id: PromiseId, restored: map<PoolId, seq<SlackPoint>>)
    requires Shrunk(st, pool, id) && Adjusts(st, restored, Taking(pool, 10, 8), []) && pool in restored
    ensures restored[pool] == [SlackPoint(0, 5), SlackPoint(20, 0)]
  {
    hide At, Coherent, Usage, ClaimsOn, Taking;
    ShrunkFacts(st, pool, id);
    assert AdjustsPool(st, restored, Taking(pool, 10, 8), [], pool);
    var five := [SlackPoint(0, 5), SlackPoint(20, 0)];
    NoUsageOn(pool);
    forall t
      ensures At(0, restored[pool], t) == At(0, five, t)
    {
      TakingUsage(pool, 10, 8, pool, t);
      FiveAt(t);
    }
    CanonicalUnique(restored[pool], five);
  }

  lemma FiveAt(t: int)
    ensures At(0, [SlackPoint(0, 5), SlackPoint(20, 0)], t) == if 0 <= t < 20 then 5 else 0
  {
    var five := [SlackPoint(0, 5), SlackPoint(20, 0)];
    if 20 <= t {
      AtIndex(0, five, 1, t);
    } else if 0 <= t {
      AtIndex(0, five, 0, t);
    } else {
      AtLater(0, five, t);
    }
  }

  lemma ReplacementSweep(st: EngineState, pool: PoolId, restored: map<PoolId, seq<SlackPoint>>)
    requires pool in st.timelines && pool in restored
    ensures var s := SweepOn(st, Taking(pool, 20, 6), restored, pool);
            && s.poolId == pool && s.claims == [Claim(pool, Interval(0, 20), 6)] && s.base == restored[pool]
            && s.floor == Some(st.timelines[pool])
  {
    TakingUsage(pool, 20, 6, pool, 0);
  }

  lemma ReplacementFits(st: EngineState, pool: PoolId, id: PromiseId, restored: map<PoolId, seq<SlackPoint>>)
    requires Shrunk(st, pool, id) && RestoredTimelines(st, Taking(pool, 10, 8)) == Ok(restored)
    ensures FitsWith(st, Taking(pool, 20, 6), restored)
  {
    hide At, Usage, EvaluateBundle, RestoredTimelines, PoolsOf, ClaimsOn, Taking, Flat, Coherent, Adjusts, Accepts,
         Sweep.Valid;
    TakingUsage(pool, 10, 8, pool, 0);
    TakingUsage(pool, 20, 6, pool, 0);
    assert st.promises[id].bundle == Taking(pool, 10, 8);
    RestoredAdjusts(st, id);
    OverridesSound(st, restored, Taking(pool, 10, 8));
    ShrunkFacts(st, pool, id);
    assert pool in [pool];
    RestoredFive(st, pool, id, restored);
    SweepValid(st, Taking(pool, 20, 6), restored, pool);
    ReplacementSweep(st, pool, restored);
    SampledFloorAccepts(SweepOn(st, Taking(pool, 20, 6), restored, pool));
    FitsExactly(st, Taking(pool, 20, 6), restored);
  }

  lemma ReplaceLast(st: EngineState, pool: PoolId, id: PromiseId)
    requires Shrunk(st, pool, id)
    ensures var outcome := Requested(st, Replace(id, 1, Taking(pool, 20, 6), ReplacedHeld(100)), 0, 0);
            && outcome.result == Ok(PromiseReplaced(id, 2)) && pool in outcome.state.timelines
            && forall t :: 10 <= t < 20 ==> At(0, outcome.state.timelines[pool], t) == -1
  {
    hide At, Coherent, Usage, ClaimsOn, PoolsOf, EvaluateBundle, RestoredTimelines, FloorKept, DeficitFree, Adjusts,
         Taking;
    assert st.promises[id].bundle == Taking(pool, 10, 8);
    TakingUsage(pool, 20, 6, pool, 0);
    RestoredAdjusts(st, id);
    ReplacementFits(st, pool, id, RestoredTimelines(st, Taking(pool, 10, 8)).value);
    ShrunkFacts(st, pool, id);
    ReplaceGuarantee(st, id, 1, Taking(pool, 20, 6), ReplacedHeld(100), 0);
    forall t
      ensures Usage(ClaimsOn(Taking(pool, 10, 8), pool), t) == if 0 <= t < 10 then 8 else 0
      ensures Usage(ClaimsOn(Taking(pool, 20, 6), pool), t) == if 0 <= t < 20 then 6 else 0
    {
      TakingUsage(pool, 10, 8, pool, t);
      TakingUsage(pool, 20, 6, pool, t);
    }
  }

  // ---- All four commands ----

  lemma PoolOperationsValid(pool: PoolId)
    ensures CreateResourcePool(pool, "", Unit("unit", 1), Flat(8)).Valid()
    ensures ReviseCapacity(pool, Flat(5), Force).Valid()
  {
    hide ValidCurve, Flat;
    FlatCurve(8, 0);
    FlatCurve(5, 0);
  }

  lemma HoldValid(pool: PoolId, id: PromiseId)
    ensures Hold(id, Taking(pool, 10, 8), 100).Valid()
  {
    hide ValidBundle, Taking, ClaimsOn, PoolsOf, Usage;
    TakingUsage(pool, 10, 8, pool, 0);
  }

  lemma ReplaceValid(pool: PoolId, id: PromiseId)
    ensures Replace(id, 1, Taking(pool, 20, 6), ReplacedHeld(100)).Valid()
  {
    hide ValidBundle, Taking, ClaimsOn, PoolsOf, Usage;
    TakingUsage(pool, 20, 6, pool, 0);
  }

  lemma RunCreated(pool: PoolId, id: PromiseId, digest: Operation -> seq<int>) returns (p: Published)
    ensures p == Run(Genesis, digest, Commands(pool, id)[..1])
    ensures Reached(p, pool, 8, map[], 1, {Identity("client", "create")})
  {
    hide Coherent, Apply, Requested, Operation.Valid, Flat;
    var requests := Commands(pool, id);
    RunPushed(Genesis, digest, requests, 0);
    p := Run(Genesis, digest, requests[..1]);
    EmptyCoherent();
    PoolOperationsValid(pool);
    CreateFirst(pool);
    AppliedOnce(Genesis, digest, requests[0]);
  }

  lemma RunHeld(pool: PoolId, id: PromiseId, digest: Operation -> seq<int>) returns (p: Published)
    ensures p == Run(Genesis, digest, Commands(pool, id)[..2])
    ensures Reached(p, pool, 8, map[id := HeldEight(pool, id)], 2,
                    {Identity("client", "create"), Identity("client", "hold")})
  {
    hide Coherent, Apply, Requested, Operation.Valid, Flat, Run, HeldEight, Taking;
    var requests := Commands(pool, id);
    RunPushed(Genesis, digest, requests, 1);
    var before := RunCreated(pool, id, digest);
    p := Run(Genesis, digest, requests[..2]);
    HoldValid(pool, id);
    HoldNext(before.state, pool, id);
    assert "hold"[0] != "create"[0];
    AppliedOnce(before, digest, requests[1]);
  }

  lemma RunShrunk(pool: PoolId, id: PromiseId, digest: Operation -> seq<int>) returns (p: Published)
    ensures p == Run(Genesis, digest, Commands(pool, id)[..3])
    ensures Reached(p, pool, 5, map[id := HeldEight(pool, id)], 3,
                    {Identity("client", "create"), Identity("client", "hold"), Identity("client", "revise")})
  {
    hide Coherent, Apply, Requested, Operation.Valid, Flat, Run, Taking;
    var requests := Commands(pool, id);
    RunPushed(Genesis, digest, requests, 2);
    var before := RunHeld(pool, id, digest);
    p := Run(Genesis, digest, requests[..3]);
    PoolOperationsValid(pool);
    ReviseNext(before.state, pool, id);
    assert "revise"[0] != "create"[0] && "revise"[0] != "hold"[0];
    AppliedOnce(before, digest, requests[2]);
  }

  /**
   The documented rule fails on a state the commands reach: the last of them replaces the hold, and
   slack on [10, 20) goes from 5 to -1.
   */
  lemma ReplacementWorsensSlack(pool: PoolId, id: PromiseId, digest: Operation -> seq<int>)
    ensures var requests := Commands(pool, id);
            var before := Run(Genesis, digest, requests[..3]);
            var (after, response) := Apply(before, digest, requests[3].command, requests[3].now);
            && after == Run(Genesis, digest, requests) && response == Ok(PromiseReplaced(id, 2))
            && pool in before.state.timelines && pool in after.state.timelines
            && (forall t :: 10 <= t < 20 ==> At(0, before.state.timelines[pool], t) == 5)
            && (forall t :: 10 <= t < 20 ==> At(0, after.state.timelines[pool], t) == -1)
            && !NeverWorsens(before.state, after.state)
  {
    hide Coherent, Apply, Requested, Operation.Valid, Flat, Run, Taking, At;
    var requests := Commands(pool, id);
    RunPushed(Genesis, digest, requests, 3);
    assert requests[..4] == requests;
    var before := RunShrunk(pool, id, digest);
    ReplaceValid(pool, id);
    ShrunkFacts(before.state, pool, id);
    ReplaceLast(before.state, pool, id);
    assert "replace"[0] != "create"[0] && "replace"[0] != "hold"[0] && |"replace"| != |"revise"|;
    AppliedOnce(before, digest, requests[3]);
    var after := Apply(before, digest, requests[3].command, requests[3].now).0;
    assert At(0, before.state.timelines[pool], 10) == 5 && At(0, after.state.timelines[pool], 10) == -1;
  }
}
