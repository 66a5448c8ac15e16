/**
 Every transition the engine prepares passes its payload's checks, so that a log written with the
 payload codec reads back without further assumptions.
 */
module PreparedPayloads {
  import opened Results
  import opened Intervals
  import opened StepFunctions
  import opened SlackTimelines
  import opened CapacityCurves
  import opened Domain
  import opened OrderedKeys
  import opened TimelineRebuild
  import opened Promises
  import opened Transitions
  import opened ActiveUsage
  import opened EngineInvariants
  import opened EngineSteps
  import opened Expiry
  import opened EngineSafety
  import opened EngineLedger
  import opened Batches
  import opened EventStamps
  import opened Replay
  import opened ReplayRefinement
  import opened Recovery
  import opened Payloads
  import opened CommandPayloads
  import opened ResponsePayloads
  import opened EntityPayloads
  import opened TransitionPayloads
  import opened TypedResponses

  // ---- Events and stored values ----

  predicate GoodEvent(event: Event) {
    FitsData(event.data) && Matches(event.kind, event.data)
  }

  /** State stays typed, and the events logged on the way carry data of their kind. */
  ghost predicate StaysTyped(text: Text, before: EngineState, after: EngineState) {
    && TypedState(text, after) && before.events <= after.events
    && forall i :: |before.events| <= i < |after.events| ==> GoodEvent(after.events[i])
  }

  lemma StaysTransitive(text: Text, a: EngineState, b: EngineState, c: EngineState)
    requires StaysTyped(text, a, b) && StaysTyped(text, b, c)
    ensures StaysTyped(text, a, c)
  {
    hide GoodEvent, TypedState;
  }

  lemma StaysReflexive(text: Text, st: EngineState)
    requires TypedState(text, st)
    ensures StaysTyped(text, st, st)
  {
    hide TypedState;
  }

  predicate PromiseKind(kind: EventKind) {
    kind in {HoldCreated, HoldCommitted, HoldReleased, HoldReplaced, HoldExpiry}
  }

  lemma PublishStays(text: Text, st: EngineState, p: Promise, timelines: map<PoolId, seq<SlackPoint>>, sequence: int,
                     now: int, kind: EventKind)
    requires TypedState(text, st) && TypedPromise(p) && FitsVersion(p.version) && PromiseKind(kind)
    ensures StaysTyped(text, st, Publish(st, p, timelines, sequence, now, kind))
  {
    hide FitsPool, FitsBundle;
  }

  // ---- Expirations ----

  lemma ExpireStays(text: Text, st: EngineState, id: PromiseId, now: int)
    requires Coherent(st) && TypedState(text, st)
    ensures StaysTyped(text, st, ExpireOne(st, id, now).state)
    ensures ExpireOne(st, id, now).result.Ok? ==> ExpireOne(st, id, now).state.sequence == st.sequence + 1 <= U64_MAX
  {
    hide AllIndexed, SoundPools, FitsPool, FitsBundle, RestoredTimelines, StaysTyped;
    StaysReflexive(text, st);
    if id in st.promises {
      var p := st.promises[id];
      assert SoundPromise(st, p) && TypedPromise(p);
      var expiring := Expiring(p, now, st.sequence + 1);
      if expiring.Ok? && RestoredTimelines(st, p.bundle).Ok? {
        PublishStays(text, st, expiring.value, RestoredTimelines(st, p.bundle).value, st.sequence + 1, now, HoldExpiry);
      }
    }
  }

  lemma {:induction false} ExpirationsStay(text: Text, st: EngineState, due: seq<PromiseId>, k: nat, now: int)
    requires Coherent(st) && TypedState(text, st) && k <= |due| && DueOrder(st.promises, due)
    requires forall i :: 0 <= i < |due| ==> due[i] in st.promises
    ensures var expired := ExpireUpTo(st, due, k, now);
            && StaysTyped(text, st, expired.state) && Coherent(expired.state)
            && (expired.result.Ok? ==> expired.result.value == k && expired.state.sequence == st.sequence + k)
  {
    hide Coherent, TypedState, StaysTyped, ExpireOne, DueOrder, Explains;
    if k == 0 {
      StaysReflexive(text, st);
    } else {
      ExpirationsStay(text, st, due, k - 1, now);
      var effects := ExpireUpToExplained(st, due, k, now);
      StaysCoherent(st, effects, ExpireUpTo(st, due, k, now).state, false);
      var earlier := ExpireUpTo(st, due, k - 1, now);
      StaysEnds(text, st, earlier.state);
      if earlier.result.Ok? {
        ExpireStays(text, earlier.state, due[k - 1], now);
        StaysTransitive(text, st, earlier.state, ExpireOne(earlier.state, due[k - 1], now).state);
      }
    }
  }

  lemma StaysEnds(text: Text, a: EngineState, b: EngineState)
    requires StaysTyped(text, a, b)
    ensures TypedState(text, b)
  {
    hide TypedState;
  }

  // ---- Requests ----

  lemma AcceptStays(text: Text, st: EngineState, id: PromiseId, bundle: Bundle, expiresAt: int, now: int,
                    timelines: map<PoolId, seq<SlackPoint>>)
    requires TypedState(text, st) && FitsId(id) && FitsBundle(bundle) && FitsI64(expiresAt)
    ensures StaysTyped(text, st, AcceptHold(st, id, bundle, expiresAt, now, timelines).state)
  {
    hide TypedState, StaysTyped, FitsBundle;
    StaysReflexive(text, st);
    if st.sequence < U64_MAX && expiresAt > now {
      var sequence := st.sequence + 1;
      PublishStays(text, st, Promise(id, PromiseState.Held(expiresAt), bundle, 1, sequence, sequence), timelines,
                   sequence, now, HoldCreated);
    }
  }

  lemma HoldStays(text: Text, st: EngineState, id: PromiseId, bundle: Bundle, expiresAt: int, now: int)
    requires TypedState(text, st) && FitsId(id) && FitsBundle(bundle) && FitsI64(expiresAt)
    ensures StaysTyped(text, st, HoldBundle(st, id, bundle, expiresAt, now).state)
  {
    hide TypedState, StaysTyped, FitsBundle, EvaluateBundle, AcceptHold;
    StaysReflexive(text, st);
    var evaluated := EvaluateBundle(st, bundle, map[]);
    if evaluated.Ok? && evaluated.value.BundleFits? {
      AcceptStays(text, st, id, bundle, expiresAt, now, evaluated.value.timelines);
    }
  }

  lemma ChoiceStays(text: Text, st: EngineState, id: PromiseId, choice: seq<Bundle>, expiresAt: int, now: int)
    requires TypedState(text, st) && FitsId(id) && FitsChoice(choice) && FitsI64(expiresAt)
    ensures StaysTyped(text, st, HoldChoice(st, id, choice, expiresAt, now).state)
  {
    hide TypedState, StaysTyped, FitsBundle, EvaluateBundle, AcceptHold, ScanChoice;
    StaysReflexive(text, st);
    var scan := ScanChoice(st, choice, |choice|);
    if scan.Ok? && scan.value.FirstFit? {
      FirstFitMeaning(st, choice, |choice|);
      AcceptStays(text, st, id, choice[scan.value.alternative], expiresAt, now, scan.value.timelines);
    }
  }

  lemma {:induction false} MaterializedFits(relative: seq<RelativeClaim>, start: int)
    requires forall i :: 0 <= i < |relative| ==> FitsId(relative[i].poolId) && relative[i].Valid()
    requires Materialize(relative, start).Ok?
    ensures var bundle := Materialize(relative, start).value;
            |bundle| == |relative| && forall i :: 0 <= i < |bundle| ==> FitsClaim(bundle[i])
  {
    if relative != [] {
      var n := |relative| - 1;
      MaterializedFits(relative[..n], start);
      assert relative[n].Valid();
    }
  }

  lemma SlotStays(text: Text, st: EngineState, id: PromiseId, relative: seq<RelativeClaim>, earliest: int, latest: int,
                  step: int, expiresAt: int, now: int)
    requires TypedState(text, st) && FitsId(id) && FitsRelative(relative) && FitsI64(expiresAt)
    ensures StaysTyped(text, st, HoldSlot(st, id, relative, earliest, latest, step, expiresAt, now).state)
  {
    hide TypedState, StaysTyped, SearchFrom, Materialize, AcceptHold, EvaluateBundle, FitsClaim;
    StaysReflexive(text, st);
    var search := SearchSlots(st, relative, earliest, latest, step);
    if search.Ok? && search.value.SlotFound? {
      FoundSlot(st, relative, earliest, latest, step, 0);
      MaterializedFits(relative, search.value.start);
      AcceptStays(text, st, id, search.value.bundle, expiresAt, now, search.value.timelines);
    }
  }

  lemma CommitStays(text: Text, st: EngineState, id: PromiseId, expectedVersion: int, now: int)
    requires Coherent(st) && TypedState(text, st)
    ensures StaysTyped(text, st, CommitPromise(st, id, expectedVersion, now).state)
  {
    hide AllIndexed, SoundPools, FitsPool, FitsBundle, StaysTyped;
    StaysReflexive(text, st);
    if id in st.promises && st.sequence < U64_MAX {
      var p := st.promises[id];
      assert SoundPromise(st, p) && TypedPromise(p) && p.id == id;
      var committing := Committing(p, expectedVersion, now, st.sequence + 1);
      if committing.Ok? {
        PublishStays(text, st, committing.value.(id := id), map[], st.sequence + 1, now, HoldCommitted);
      }
    }
  }

  lemma ReleaseStays(text: Text, st: EngineState, id: PromiseId, expectedVersion: int, now: int)
    requires Coherent(st) && TypedState(text, st)
    ensures StaysTyped(text, st, ReleasePromise(st, id, expectedVersion, now).state)
  {
    hide AllIndexed, SoundPools, FitsPool, FitsBundle, StaysTyped, RestoredTimelines;
    StaysReflexive(text, st);
    if id in st.promises && st.sequence < U64_MAX {
      var p := st.promises[id];
      assert SoundPromise(st, p) && TypedPromise(p) && p.id == id;
      var releasing := Releasing(p, expectedVersion, now, st.sequence + 1);
      if releasing.Ok? && RestoredTimelines(st, p.bundle).Ok? {
        PublishStays(text, st, releasing.value.(id := id), RestoredTimelines(st, p.bundle).value, st.sequence + 1, now,
                     HoldReleased);
      }
    }
  }

  lemma ReplaceStays(text: Text, st: EngineState, id: PromiseId, expectedVersion: int, newBundle: Bundle,
                     newState: ReplacementState, now: int)
    requires Coherent(st) && TypedState(text, st) && FitsBundle(newBundle)
    requires newState.ReplacedHeld? ==> FitsI64(newState.deadline)
    ensures StaysTyped(text, st, ReplacePromise(st, id, expectedVersion, newBundle, newState, now).state)
  {
    hide AllIndexed, SoundPools, FitsPool, FitsBundle, StaysTyped, RestoredTimelines, EvaluateBundle, ForgetPromise;
    StaysReflexive(text, st);
    if id in st.promises && st.sequence < U64_MAX {
      var p := st.promises[id];
      assert SoundPromise(st, p) && TypedPromise(p) && p.id == id;
      var replacing := Replacing(p, expectedVersion, newBundle, newState, now, st.sequence + 1);
      var restored := RestoredTimelines(st, p.bundle);
      if replacing.Ok? && restored.Ok? {
        var evaluated := EvaluateBundle(st, newBundle, restored.value);
        if evaluated.Ok? && evaluated.value.BundleFits? {
          PublishStays(text, st, replacing.value.(id := id), restored.value + evaluated.value.timelines,
                       st.sequence + 1, now, HoldReplaced);
        }
      }
    }
  }

  // ---- Pools ----

  lemma CreateStays(text: Text, st: EngineState, pool: Pool, now: int)
    requires TypedState(text, st) && FitsPool(text, pool)
    ensures StaysTyped(text, st, CreatePool(st, pool, now).state)
  {
    hide FitsUnit, FitsCurve, Rebuild, FitsBundle;
  }

  lemma {:induction false} ResolvedGood(previous: seq<CapacityDeficit>, current: seq<CapacityDeficit>, sequence: int,
                                        now: int)
    requires FitsDeficits(previous)
    ensures forall i :: 0 <= i < |ResolvedEvents(previous, current, sequence, now)| ==>
                          GoodEvent(ResolvedEvents(previous, current, sequence, now)[i])
  {
    hide FitsIds, FitsInterval;
    if previous != [] {
      ResolvedGood(previous[..|previous| - 1], current, sequence, now);
      assert FitsDeficit(previous[|previous| - 1]);
    }
  }

  lemma {:induction false} CurrentGood(previous: seq<CapacityDeficit>, current: seq<CapacityDeficit>, sequence: int,
                                       now: int)
    requires FitsDeficits(current)
    ensures forall i :: 0 <= i < |CurrentEvents(previous, current, sequence, now)| ==>
                          GoodEvent(CurrentEvents(previous, current, sequence, now)[i])
  {
    hide FitsIds, FitsInterval;
    if current != [] {
      CurrentGood(previous, current[..|current| - 1], sequence, now);
      assert FitsDeficit(current[|current| - 1]);
    }
  }

  lemma ReviseStays(text: Text, st: EngineState, pool: PoolId, curve: seq<CapacitySegment>, mode: RevisionMode,
                    now: int)
    requires Coherent(st) && TypedState(text, st) && FitsId(pool) && FitsCurve(curve)
    ensures StaysTyped(text, st, RevisePool(st, pool, curve, mode, now).state)
  {
    hide AllIndexed, SoundPromises, FitsUnit, FitsCurve, FitsBundle, ActiveAmong, RebuiltPoints, Deficits, PoolDeficits,
         FitsDeficits, ResolvedEvents, CurrentEvents, AffectedPromises, SortedKeys, Representable, GoodEvent;
    if pool in st.pools && RevisePool(st, pool, curve, mode, now).result.Ok? {
      FitsCurveValid(curve);
      RevisionDeficitsFit(text, st, pool, curve);
      var previous := PoolDeficits(st, pool, Deficits(st.timelines[pool]));
      var current := PoolDeficits(st, pool, Deficits(RebuiltPoints(curve, ActiveClaims(st.promises, pool))));
      ResolvedGood(previous, current, st.sequence + 1, now);
      CurrentGood(previous, current, st.sequence + 1, now);
      assert GoodEvent(Event(st.sequence + 1, now, CapacityChanged, OnPool(pool))) by {
        PoolEventGood(pool, st.sequence + 1, now);
      }
    }
  }

  lemma PoolEventGood(pool: PoolId, sequence: int, now: int)
    requires FitsId(pool)
    ensures GoodEvent(Event(sequence, now, CapacityChanged, OnPool(pool)))
  {
  }

  lemma RequestedStays(text: Text, st: EngineState, operation: Operation, expired: int, now: int)
    requires Coherent(st) && TypedState(text, st) && FitsOperation(text, operation)
    ensures StaysTyped(text, st, Requested(st, operation, expired, now).state)
  {
    hide Coherent, TypedState, StaysTyped, CreatePool, RevisePool, HoldBundle, HoldChoice, HoldSlot, CommitPromise,
         ReleasePromise, ReplacePromise, FitsUnit, FitsCurve, FitsBundle, FitsChoice, FitsRelative;
    StaysReflexive(text, st);
    match operation
    case CreateResourcePool(pool, displayName, unit, curve) =>
      CreateStays(text, st, Pool(pool, displayName, unit, curve), now);
    case ReviseCapacity(pool, curve, mode) => ReviseStays(text, st, pool, curve, mode, now);
    case Hold(id, bundle, expiresAt) => HoldStays(text, st, id, bundle, expiresAt, now);
    case HoldOneOf(id, choice, expiresAt) => ChoiceStays(text, st, id, choice, expiresAt, now);
    case HoldFirstSlot(id, relative, earliest, latest, step, expiresAt) =>
      SlotStays(text, st, id, relative, earliest, latest, step, expiresAt, now);
    case Commit(id, expectedVersion) => CommitStays(text, st, id, expectedVersion, now);
    case Release(id, expectedVersion) => ReleaseStays(text, st, id, expectedVersion, now);
    case Replace(id, expectedVersion, newBundle, newState) =>
      ReplaceStays(text, st, id, expectedVersion, newBundle, newState, now);
    case ProcessExpirations =>
  }

  // ---- One operation ----

  lemma FitsValid(text: Text, operation: Operation)
    requires FitsOperation(text, operation)
    ensures operation.Valid()
  {
    hide FitsClaim, ValidCurve;
    match operation
    case Hold(_, bundle, _) => FitsBundleValid(bundle);
    case HoldOneOf(_, choice, _) =>
      forall i | 0 <= i < |choice|
        ensures ValidBundle(choice[i])
      {
        FitsBundleValid(choice[i]);
      }
    case Replace(_, _, newBundle, _) => FitsBundleValid(newBundle);
    case _ =>
  }

  /** What one operation leaves behind and answers passes the readers' checks. */
  ghost predicate OnceFits(text: Text, st: EngineState, outcome: Outcome<CommandResult>) {
    StaysTyped(text, st, outcome.state) && FitsResponse(outcome.result)
  }

  lemma ApplyOnceFits(text: Text, st: EngineState, operation: Operation, now: int)
    requires Coherent(st) && TypedState(text, st) && FitsOperation(text, operation)
    ensures OnceFits(text, st, ApplyOnce(st, operation, now))
  {
    hide Coherent, TypedState, StaysTyped, Requested, ExpireUpTo, DueHolds, FitsOperation, FitsResult, DueOrder;
    var due := DueHolds(st, now);
    DueHoldsExact(st, now);
    assert forall i :: 0 <= i < |due| ==> due[i] in due;
    ExpirationsStay(text, st, due, |due|, now);
    ExpirationsUnfold(st, now);
    var expired := Expirations(st, now);
    if expired.result.Ok? {
      StaysEnds(text, st, expired.state);
      SequencesFit(st);
      SequencesFit(expired.state);
      RequestedStays(text, expired.state, operation, expired.result.value, now);
      RequestedFits(text, expired.state, operation, expired.result.value, now);
      StaysTransitive(text, st, expired.state, Requested(expired.state, operation, expired.result.value, now).state);
    }
  }

  lemma SequencesFit(st: EngineState)
    requires Coherent(st)
    ensures 0 <= st.sequence <= U64_MAX
  {
  }

  // ---- Logged events ----

  lemma LoggedFit(text: Text, before: EngineState, after: EngineState, now: int)
    requires StaysTyped(text, before, after) && Stamped(before, after, now) && FitsI64(now)
    requires Numbered(after.events, after.sequence) && after.sequence <= U64_MAX
    ensures FitsEvents(EventsSince(before.events, after.events))
  {
    hide TypedState, FitsData, Matches;
    var n := |before.events|;
    var events := EventsSince(before.events, after.events);
    forall i | 0 <= i < |events|
      ensures FitsEvent(events[i])
    {
      NumberedUpTo(after.events, after.sequence, 0, n + i);
      NumberedUpTo(after.events, after.sequence, n + i, |after.events| - 1);
      assert GoodEvent(after.events[n + i]);
    }
  }

  // ---- Changed entities ----

  lemma PoolsFit(text: Text, base: map<PoolId, Pool>, st: EngineState)
    requires SoundPools(st) && TypedState(text, st)
    ensures FitsPools(text, Changed(base, st.pools))
  {
    hide ChangedAmong, SortedKeys, FitsPool, FitsBundle;
    ChangedAscending(base, st.pools, SortedKeys(st.pools.Keys), PoolKey);
    var pools := Changed(base, st.pools);
    forall i | 0 <= i < |pools|
      ensures FitsPool(text, pools[i])
    {
      var pool := pools[i];
      assert pool in pools;
    }
    forall i | 0 < i < |pools|
      ensures PoolsAscend(pools[i - 1], pools[i])
    {
      assert PoolKey(pools[i - 1]) < PoolKey(pools[i]);
    }
  }

  lemma PromisesFit(text: Text, base: map<PromiseId, Promise>, st: EngineState)
    requires SoundPromises(st) && TypedState(text, st) && st.sequence <= U64_MAX
    ensures FitsPromises(Changed(base, st.promises))
  {
    hide ChangedAmong, SortedKeys, FitsPool, FitsBundle;
    ChangedAscending(base, st.promises, SortedKeys(st.promises.Keys), PromiseKey);
    var promises := Changed(base, st.promises);
    forall i | 0 <= i < |promises|
      ensures FitsPromise(promises[i])
    {
      var p := promises[i];
      assert p in promises;
      assert SoundPromise(st, st.promises[p.id]) && TypedPromise(st.promises[p.id]);
    }
    forall i | 0 < i < |promises|
      ensures PromisesAscend(promises[i - 1], promises[i])
    {
      assert PromiseKey(promises[i - 1]) < PromiseKey(promises[i]);
    }
  }

  // ---- Batches ----

  ghost predicate TypedRequests(text: Text, requests: seq<Request>) {
    forall r :: 0 <= r < |requests| ==> FitsOperation(text, requests[r].command.operation) && FitsI64(requests[r].now)
  }

  ghost predicate TypedDigest(digest: Operation -> seq<int>) {
    forall operation :: FitsDigest(digest(operation))
  }

  lemma TypedValid(text: Text, requests: seq<Request>)
    requires TypedRequests(text, requests)
    ensures ValidRequests(requests)
  {
    hide FitsOperation, Operation.Valid;
    forall r | 0 <= r < |requests|
      ensures requests[r].command.operation.Valid()
    {
      FitsValid(text, requests[r].command.operation);
    }
  }

  /** Typed so far, with every item readable. */
  ghost predicate TypedPreparing(text: Text, preparing: Preparing) {
    TypedState(text, preparing.state)
    && forall i :: 0 <= i < |preparing.items| ==> FitsTransition(text, preparing.items[i].transition)
  }

  lemma OnePrepared(text: Text, base: EngineState, digest: Operation -> seq<int>, preparing: Preparing,
                    request: Request)
    requires Coherent(preparing.state) && Ledger(preparing.state) && TypedPreparing(text, preparing)
    requires FitsOperation(text, request.command.operation) && FitsI64(request.now) && TypedDigest(digest)
    ensures TypedPreparing(text, PrepareOne(base, digest, preparing, request))
  {
    hide Coherent, Ledger, ApplyOnce, TypedState, FitsOperation, Operation.Valid, FitsTransition, ResponseKnown,
         FitsDigest, Changed, Explains;
    if request.command.identity !in preparing.state.records {
      var operation := request.command.operation;
      var outcome := ApplyOnce(preparing.state, operation, request.now);
      FitsValid(text, operation);
      ApplyOnceFits(text, preparing.state, operation, request.now);
      ApplyOnceLedger(preparing.state, operation, request.now);
      ApplyOnceStamped(preparing.state, operation, request.now);
      var effects := ApplyOnceExplained(preparing.state, operation, request.now);
      StaysCoherent(preparing.state, effects, outcome.state, Forced(operation));
      var record := Record(digest(operation), outcome.result);
      var after := outcome.state.(records := outcome.state.records[request.command.identity := record]);
      DurableFits(text, base, digest, preparing.state, outcome, after, request);
    }
  }

  /** The durable description of one first-seen command. */
  lemma DurableFits(text: Text, base: EngineState, digest: Operation -> seq<int>, before: EngineState,
                    outcome: Outcome<CommandResult>, after: EngineState, request: Request)
    requires OnceFits(text, before, outcome) && Stamped(before, outcome.state, request.now)
    requires Coherent(outcome.state) && Ledger(outcome.state) && after == outcome.state.(records := after.records)
    requires FitsOperation(text, request.command.operation) && FitsI64(request.now) && TypedDigest(digest)
    ensures TypedState(text, after)
    ensures FitsTransition(text,
                           DurableOf(base, before, after, request.command, digest(request.command.operation),
                                     outcome.result))
  {
    hide AllIndexed, FitsPool, FitsBundle, FitsOperation, FitsResult, Histories, EventsKnown, FitsEvent, FitsPromise,
         Numbered, Changed, GoodEvent, FitsDigest, SoundPromise, ValidCurve;
    LoggedFit(text, before, outcome.state, request.now);
    PoolsFit(text, base.pools, outcome.state);
    PromisesFit(text, base.promises, outcome.state);
  }

  /** Every item of a batch reads back. */
  lemma {:induction false} PreparedFits(text: Text, base: EngineState, digest: Operation -> seq<int>,
                                        requests: seq<Request>, j: nat)
    requires j <= |requests| && Coherent(base) && Ledger(base) && TypedState(text, base)
    requires TypedRequests(text, requests) && TypedDigest(digest)
    ensures TypedPreparing(text, PrepareUpTo(base, digest, requests, j))
  {
    hide Coherent, Ledger, TypedState, PrepareOne, PrepareUpTo, FitsOperation, TypedDigest, FitsTransition, BatchState,
         Operation.Valid;
    TypedValid(text, requests);
    if j == 0 {
      EmptyBatch(base, digest, requests);
    } else {
      PreparedFits(text, base, digest, requests, j - 1);
      BatchKeeps(base, digest, requests, j - 1);
      BatchFacts(base, StateAt(base, digest, requests, j - 1));
      PreparePushed(base, digest, requests, j - 1);
      OnePrepared(text, base, digest, PrepareUpTo(base, digest, requests, j - 1), requests[j - 1]);
    }
  }

  lemma BatchFacts(base: EngineState, st: EngineState)
    requires BatchState(base, st)
    ensures Coherent(st) && Ledger(st)
  {
    hide Coherent, Ledger;
  }
}
