/** Safety over all runs: coherence always, and no overcommitment without force. */
module EngineSafety {
  import opened Results
  import opened Intervals
  import opened StepFunctions
  import opened SlackTimelines
  import opened CapacityCurves
  import opened Domain
  import opened OrderedKeys
  import opened TimelineRebuild
  import opened Admission
  import opened AvailabilityOracle
  import opened Promises
  import opened Transitions
  import opened ActiveUsage
  import opened EngineInvariants
  import opened BundleAdmissions
  import opened EngineSteps
  import opened Expiry

  // ---- Rebuilding ----

  lemma EdgeKeys(segments: seq<CapacitySegment>, claims: seq<Claim>)
    ensures EventKeys(SortedKeys(SegmentEdges(segments) + Edges(claims)), segments, claims)
  {
    hide SortedKeys;
    var edges := SegmentEdges(segments) + Edges(claims);
    forall t | t !in SortedKeys(edges)
      ensures EventAt(segments, claims, t) == NoEvent
    {
      NoSegmentEdge(segments, t);
      assert t !in Edges(claims);
      NoClaimEdge(claims, t);
    }
  }

  /** A rebuild denotes capacity minus usage. */
  lemma RebuildCorrect(segments: seq<CapacitySegment>, claims: seq<Claim>)
    requires ValidCurve(segments) && ValidClaims(claims) && Representable(segments, claims)
    ensures Wellformed(RebuiltPoints(segments, claims))
    ensures DenotesSlack(RebuiltPoints(segments, claims), segments, claims)
  {
    hide At;
    hide SortedKeys;
    hide Canon;
    hide SegmentEdges;
    hide Edges;
    var keys := SortedKeys(SegmentEdges(segments) + Edges(claims));
    var raw := RawPoints(segments, claims, keys);
    EdgeKeys(segments, claims);
    RawPointsCorrect(segments, claims, keys, 0);
    CanonCorrect(raw);
    forall t
      ensures At(0, Canon(raw), t) == SlackOf(segments, claims, t)
    {
      RawPointsCorrect(segments, claims, keys, t);
    }
    ValuesFit(Canon(raw));
  }

  lemma CurveRepresentable(segments: seq<CapacitySegment>)
    requires ValidCurve(segments)
    ensures Representable(segments, []) && forall t :: SlackOf(segments, [], t) >= 0
  {
    hide CapacityAt;
    forall t
      ensures FitsI64(SlackOf(segments, [], t)) && SlackOf(segments, [], t) >= 0
    {
      CapacityBounded(segments, t);
      NoUsage(t);
    }
  }

  // ---- Every timeline ends at zero ----

  lemma {:induction false} UsageEnds(claims: seq<Claim>) returns (last: int)
    ensures forall t :: t >= last ==> Usage(claims, t) == 0
  {
    last := 0;
    if claims != [] {
      var n := |claims| - 1;
      var earlier := UsageEnds(claims[..n]);
      last := Max(earlier, claims[n].interval.end);
    }
  }

  lemma {:induction false} CapacityEnds(segments: seq<CapacitySegment>) returns (last: int)
    ensures forall t :: t >= last ==> CapacityAt(segments, t) == 0
  {
    last := 0;
    if segments != [] {
      var n := |segments| - 1;
      var earlier := CapacityEnds(segments[..n]);
      last := Max(earlier, segments[n].interval.end);
    }
  }

  lemma EndsAtZero(points: seq<SlackPoint>, segments: seq<CapacitySegment>, claims: seq<Claim>)
    requires DenotesSlack(points, segments, claims)
    ensures points != [] ==> points[|points| - 1].slack == 0
  {
    hide CapacityAt;
    hide Usage;
    if points != [] {
      var usageEnd := UsageEnds(claims);
      var capacityEnd := CapacityEnds(segments);
      var late := Max(points[|points| - 1].timestamp, Max(usageEnd, capacityEnd));
      assert At(0, points, late) == points[|points| - 1].slack;
      assert At(0, points, late) == SlackOf(segments, claims, late);
    }
  }

  /** Reported deficits of a rebuilt or maintained timeline are exactly its negative timestamps. */
  lemma DeficitsOfSlack(points: seq<SlackPoint>, segments: seq<CapacitySegment>, claims: seq<Claim>)
    requires DenotesSlack(points, segments, claims)
    ensures DeficitsOrdered(Deficits(points))
    ensures forall t, amount :: Reported(Deficits(points), t, amount) <==> SlackOf(segments, claims, t) == -amount < 0
    ensures Deficits(points) == [] ==> forall t :: At(0, points, t) >= 0
    ensures (forall t :: At(0, points, t) >= 0) ==> Deficits(points) == []
  {
    hide CapacityAt;
    hide Usage;
    hide Deficits;
    EndsAtZero(points, segments, claims);
    DeficitsExact(points);
    hide At;
    if t :| At(0, points, t) < 0 {
      assert Reported(Deficits(points), t, -At(0, points, t));
    }
    if Deficits(points) != [] {
      var first := Deficits(points)[0];
      assert first.interval.Contains(first.interval.start);
      assert Reported(Deficits(points), first.interval.start, first.amount);
    }
  }

  // ---- Pools ----

  lemma CreateExplained(st: EngineState, pool: Pool, now: int) returns (effects: seq<Effect>)
    requires Coherent(st) && ValidCurve(pool.curve)
    ensures Explains(st, effects, CreatePool(st, pool, now).state, false)
    ensures CreatePool(st, pool, now).result.Err? ==>
              CreatePool(st, pool, now).result.error in {ResourcePoolAlreadyExists, SequenceOverflow}
  {
    hide AllIndexed;
    hide SoundPromises;
    hide SoundPools;
    hide RebuiltPoints;
    hide Explains;
    hide At;
    hide SlackOf;
    effects := [];
    NoEffect(st, false);
    CurveRepresentable(pool.curve);
    if pool.id !in st.pools && st.sequence < U64_MAX {
      RebuildCorrect(pool.curve, []);
      var e := Created(pool, RebuiltPoints(pool.curve, []), now);
      CarefulCreate(st, e);
      OneEffect(st, e, false);
      effects := [e];
    }
  }

  lemma CarefulCreate(st: EngineState, e: Effect)
    requires e.Created? && DenotesSlack(e.points, e.pool.curve, []) && ValidCurve(e.pool.curve)
    ensures Careful(st, e)
  {
    hide At;
    hide SlackOf;
    CurveRepresentable(e.pool.curve);
  }

  /** Deficits of this pool whose holders are known promises. */
  ghost predicate DeficitsOn(st: EngineState, pool: PoolId, deficits: seq<CapacityDeficit>) {
    forall i :: 0 <= i < |deficits| ==>
                  && deficits[i].poolId == pool
                  && forall id :: id in deficits[i].promiseIds ==> id in st.promises
  }

  lemma PoolDeficitsKnown(st: EngineState, pool: PoolId, deficits: seq<SlackDeficit>)
    ensures DeficitsOn(st, pool, PoolDeficits(st, pool, deficits))
  {
    hide SortedKeys;
  }

  lemma {:induction false} ResolvedShape(st: EngineState, pool: PoolId, previous: seq<CapacityDeficit>,
                                         current: seq<CapacityDeficit>, sequence: int, now: int)
    requires DeficitsOn(st, pool, previous)
    ensures DeficitEvents(st, pool, sequence, ResolvedEvents(previous, current, sequence, now))
  {
    if previous != [] {
      ResolvedShape(st, pool, previous[..|previous| - 1], current, sequence, now);
    }
  }

  lemma {:induction false} CurrentShape(st: EngineState, pool: PoolId, previous: seq<CapacityDeficit>,
                                        current: seq<CapacityDeficit>, sequence: int, now: int)
    requires DeficitsOn(st, pool, current)
    ensures DeficitEvents(st, pool, sequence, CurrentEvents(previous, current, sequence, now))
  {
    if current != [] {
      CurrentShape(st, pool, previous, current[..|current| - 1], sequence, now);
    }
  }

  /** The revision's effect, with the events it logs after the capacity change. */
  ghost function RevisionEffect(st: EngineState, pool: PoolId, curve: seq<CapacitySegment>, now: int): Effect
    requires pool in st.timelines
  {
    var points := RebuiltPoints(curve, ActiveClaims(st.promises, pool));
    var previous := PoolDeficits(st, pool, Deficits(st.timelines[pool]));
    var current := PoolDeficits(st, pool, Deficits(points));
    var sequence := st.sequence + 1;
    Revised(pool, curve, points,
            ResolvedEvents(previous, current, sequence, now) + CurrentEvents(previous, current, sequence, now), now)
  }

  /** A revision either leaves the state alone or performs its effect. */
  lemma RevisionResult(st: EngineState, pool: PoolId, curve: seq<CapacitySegment>, mode: RevisionMode, now: int)
    ensures var revision := RevisePool(st, pool, curve, mode, now);
            if revision.result.Ok? then
              && pool in st.pools && pool in st.timelines && st.sequence < U64_MAX
              && Representable(curve, ActiveClaims(st.promises, pool))
              && (mode.Strict? ==> Deficits(RebuiltPoints(curve, ActiveClaims(st.promises, pool))) == [])
              && revision.state == Perform(st, RevisionEffect(st, pool, curve, now))
            else revision.state == st
  {
    hide ActiveClaims;
    hide RebuiltPoints;
    hide Deficits;
    hide ResolvedEvents;
    hide CurrentEvents;
    hide AffectedPromises;
    if RevisePool(st, pool, curve, mode, now).result.Ok? {
      var previous := PoolDeficits(st, pool, Deficits(st.timelines[pool]));
      var current := PoolDeficits(st, pool, Deficits(RebuiltPoints(curve, ActiveClaims(st.promises, pool))));
      var sequence := st.sequence + 1;
      var resolved := ResolvedEvents(previous, current, sequence, now);
      var changed := CurrentEvents(previous, current, sequence, now);
      assert st.events + [Event(sequence, now, CapacityChanged, OnPool(pool))] + resolved + changed
             == st.events + [Event(sequence, now, CapacityChanged, OnPool(pool))] + (resolved + changed);
    }
  }

  lemma RevisionPermitted(st: EngineState, pool: PoolId, curve: seq<CapacitySegment>, now: int)
    requires Coherent(st) && ValidCurve(curve) && pool in st.pools && pool in st.timelines && st.sequence < U64_MAX
    requires Representable(curve, ActiveClaims(st.promises, pool))
    ensures Permitted(st, RevisionEffect(st, pool, curve, now))
  {
    hide AllIndexed;
    hide SoundPools;
    hide ActiveAmong;
    hide RebuiltPoints;
    hide Deficits;
    hide At;
    hide SlackOf;
    hide ResolvedEvents;
    hide CurrentEvents;
    BundlesValid(st);
    ActiveValid(st.promises, SortedKeys(st.promises.Keys), pool);
    RebuildCorrect(curve, ActiveClaims(st.promises, pool));
    var points := RebuiltPoints(curve, ActiveClaims(st.promises, pool));
    var previous := PoolDeficits(st, pool, Deficits(st.timelines[pool]));
    var current := PoolDeficits(st, pool, Deficits(points));
    PoolDeficitsKnown(st, pool, Deficits(st.timelines[pool]));
    PoolDeficitsKnown(st, pool, Deficits(points));
    ResolvedShape(st, pool, previous, current, st.sequence + 1, now);
    CurrentShape(st, pool, previous, current, st.sequence + 1, now);
  }

  lemma CarefulRevision(st: EngineState, e: Effect)
    requires e.Revised? && e.poolId in st.pools && DenotesSlack(e.points, e.curve, ActiveClaims(st.promises, e.poolId))
    requires Deficits(e.points) == []
    ensures Careful(st, e)
  {
    hide At;
    hide SlackOf;
    hide Deficits;
    DeficitsOfSlack(e.points, e.curve, ActiveClaims(st.promises, e.poolId));
  }

  lemma ReviseExplained(st: EngineState, pool: PoolId, curve: seq<CapacitySegment>, mode: RevisionMode, now: int)
    returns (effects: seq<Effect>)
    requires Coherent(st) && ValidCurve(curve)
    ensures Explains(st, effects, RevisePool(st, pool, curve, mode, now).state, mode.Force?)
  {
    RevisionResult(st, pool, curve, mode, now);
    hide RevisePool;
    hide Explains;
    hide AllIndexed;
    hide SoundPools;
    hide SoundPromises;
    hide Perform;
    hide Careful;
    hide Deficits;
    hide RebuiltPoints;
    hide ActiveClaims;
    effects := [];
    NoEffect(st, mode.Force?);
    if RevisePool(st, pool, curve, mode, now).result.Ok? {
      var e := RevisionEffect(st, pool, curve, now);
      RevisionPermitted(st, pool, curve, now);
      if mode.Strict? {
        CarefulRevision(st, e);
      }
      OneEffect(st, e, mode.Force?);
      effects := [e];
    }
  }

  // ---- Commands ----

  predicate Forced(operation: Operation) {
    operation.ReviseCapacity? && operation.mode.Force?
  }

  lemma RequestedExplained(st: EngineState, operation: Operation, expired: int, now: int) returns (effects: seq<Effect>)
    requires Coherent(st) && operation.Valid()
    ensures Explains(st, effects, Requested(st, operation, expired, now).state, Forced(operation))
  {
    hide Coherent;
    hide PermittedRun;
    hide PerformAll;
    hide CarefulRun;
    hide CreatePool;
    hide RevisePool;
    hide HoldBundle;
    hide HoldChoice;
    hide HoldSlot;
    hide CommitPromise;
    hide ReleasePromise;
    hide ReplacePromise;
    match operation
    case CreateResourcePool(pool, displayName, unit, curve) =>
      effects := CreateExplained(st, Pool(pool, displayName, unit, curve), now);
    case ReviseCapacity(pool, curve, mode) =>
      effects := ReviseExplained(st, pool, curve, mode, now);
    case Hold(id, bundle, expiresAt) =>
      effects := HoldExplained(st, id, bundle, expiresAt, now);
    case HoldOneOf(id, choice, expiresAt) =>
      effects := ChoiceExplained(st, id, choice, expiresAt, now);
    case HoldFirstSlot(id, relative, earliest, latest, step, expiresAt) =>
      effects := SlotExplained(st, id, relative, earliest, latest, step, expiresAt, now);
    case Commit(id, expectedVersion) =>
      effects := CommitExplained(st, id, expectedVersion, now);
    case Release(id, expectedVersion) =>
      effects := ReleaseExplained(st, id, expectedVersion, now);
    case Replace(id, expectedVersion, newBundle, newState) =>
      effects := ReplaceExplained(st, id, expectedVersion, newBundle, newState, now);
    case ProcessExpirations =>
      effects := [];
      NoEffect(st, Forced(operation));
  }

  /** Every operation, whatever its result, is a run of permitted effects. */
  lemma ApplyOnceExplained(st: EngineState, operation: Operation, now: int) returns (effects: seq<Effect>)
    requires Coherent(st) && operation.Valid()
    ensures Explains(st, effects, ApplyOnce(st, operation, now).state, Forced(operation))
  {
    hide Coherent;
    hide Explains;
    hide Expirations;
    hide Requested;
    hide Operation.Valid;
    var expired := Expirations(st, now);
    effects := ExpirationsExplained(st, now);
    Unforced(st, effects, expired.state, Forced(operation));
    if expired.result.Ok? {
      StaysCoherent(st, effects, expired.state, false);
      var rest := RequestedExplained(expired.state, operation, expired.result.value, now);
      Then(st, effects, expired.state, rest, Requested(expired.state, operation, expired.result.value, now).state,
           Forced(operation));
      effects := effects + rest;
    }
  }

  lemma Unforced(st: EngineState, effects: seq<Effect>, after: EngineState, forced: bool)
    requires Explains(st, effects, after, false)
    ensures Explains(st, effects, after, forced)
  {
    hide PermittedRun;
    hide PerformAll;
    hide CarefulRun;
  }

  // ---- Runs ----

  /** A command with its authoritative timestamp. */
  datatype Request = Request(command: Command, now: int)

  ghost predicate ValidRequests(requests: seq<Request>) {
    forall i :: 0 <= i < |requests| ==> requests[i].command.operation.Valid()
  }

  const Genesis := Published(EmptyState, 0)

  /** The published state after a sequence of commands. */
  ghost function Run(p: Published, digest: Operation -> seq<int>, requests: seq<Request>): Published {
    if requests == [] then p
    else
      var n := |requests| - 1;
      Apply(Run(p, digest, requests[..n]), digest, requests[n].command, requests[n].now).0
  }

  lemma RecordsIrrelevant(st: EngineState, records: map<Identity, Record>)
    ensures Coherent(st) ==> Coherent(st.(records := records))
    ensures DeficitFree(st) ==> DeficitFree(st.(records := records))
  {
    hide At;
    hide SlackOf;
    hide ActiveClaims;
    var after := st.(records := records);
    if Coherent(st) {
      forall pool | pool in st.pools
        ensures Indexed(after, pool)
      {
        assert Indexed(st, pool);
      }
      forall id | id in st.promises
        ensures SoundPromise(after, st.promises[id])
      {
        assert SoundPromise(st, st.promises[id]);
      }
    }
  }

  lemma {:induction false} CarefulEnds(st: EngineState, effects: seq<Effect>)
    requires CarefulRun(st, effects) && DeficitFree(st)
    ensures DeficitFree(PerformAll(st, effects))
  {
    hide DeficitFree;
    hide Perform;
    if effects != [] {
      CarefulEnds(st, effects[..|effects| - 1]);
    }
  }

  lemma ExplainedEnds(st: EngineState, effects: seq<Effect>, after: EngineState)
    requires Explains(st, effects, after, false) && DeficitFree(st)
    ensures DeficitFree(after)
  {
    hide DeficitFree;
    hide PermittedRun;
    hide PerformAll;
    hide CarefulRun;
    CarefulEnds(st, effects);
  }

  /** One command keeps the engine coherent, and free of deficits unless it forces one. */
  lemma ApplyKeeps(p: Published, digest: Operation -> seq<int>, command: Command, now: int)
    requires Coherent(p.state) && command.operation.Valid()
    ensures Coherent(Apply(p, digest, command, now).0.state)
    ensures DeficitFree(p.state) && !Forced(command.operation) ==> DeficitFree(Apply(p, digest, command, now).0.state)
  {
    hide Coherent;
    hide Explains;
    hide ApplyOnce;
    hide Operation.Valid;
    hide DeficitFree;
    if command.identity !in p.state.records && p.revision < U128_MAX {
      var outcome := ApplyOnce(p.state, command.operation, now);
      var effects := ApplyOnceExplained(p.state, command.operation, now);
      StaysCoherent(p.state, effects, outcome.state, Forced(command.operation));
      if DeficitFree(p.state) && !Forced(command.operation) {
        ExplainedEnds(p.state, effects, outcome.state);
      }
      RecordsIrrelevant(outcome.state, Apply(p, digest, command, now).0.state.records);
    }
  }

  /** Index coherence over all runs, whatever the results of the commands. */
  lemma {:induction false} CoherentAlways(digest: Operation -> seq<int>, requests: seq<Request>)
    requires ValidRequests(requests)
    ensures Coherent(Run(Genesis, digest, requests).state)
  {
    hide Coherent;
    hide Operation.Valid;
    hide Apply;
    if requests == [] {
      EmptyCoherent();
    } else {
      var n := |requests| - 1;
      CoherentAlways(digest, requests[..n]);
      ApplyKeeps(Run(Genesis, digest, requests[..n]), digest, requests[n].command, requests[n].now);
    }
  }

  lemma {:induction false} DeficitFreeAlways(digest: Operation -> seq<int>, requests: seq<Request>)
    requires ValidRequests(requests)
    requires forall i :: 0 <= i < |requests| ==> !Forced(requests[i].command.operation)
    ensures DeficitFree(Run(Genesis, digest, requests).state)
  {
    hide Coherent;
    hide Operation.Valid;
    hide Apply;
    hide Forced;
    if requests != [] {
      var n := |requests| - 1;
      DeficitFreeAlways(digest, requests[..n]);
      CoherentAlways(digest, requests[..n]);
      ApplyKeeps(Run(Genesis, digest, requests[..n]), digest, requests[n].command, requests[n].now);
    }
  }

  /** No overcommitment: without force, held and committed usage stays within capacity everywhere. */
  lemma NoOvercommit(digest: Operation -> seq<int>, requests: seq<Request>, pool: PoolId, t: int)
    requires ValidRequests(requests)
    requires forall i :: 0 <= i < |requests| ==> !Forced(requests[i].command.operation)
    requires pool in Run(Genesis, digest, requests).state.pools
    ensures var st := Run(Genesis, digest, requests).state;
            Usage(ActiveClaims(st.promises, pool), t) <= CapacityAt(st.pools[pool].curve, t)
  {
    hide Operation.Valid;
    hide Run;
    hide Forced;
    hide ActiveClaims;
    hide At;
    hide Usage;
    hide CapacityAt;
    hide SoundPromises;
    var st := Run(Genesis, digest, requests).state;
    CoherentAlways(digest, requests);
    DeficitFreeAlways(digest, requests);
    assert Indexed(st, pool);
    assert At(0, st.timelines[pool], t) == SlackOf(st.pools[pool].curve, ActiveClaims(st.promises, pool), t);
  }
}
