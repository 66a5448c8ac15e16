/**
 What each command answers and leaves behind, told by the engine's state before it: when it goes ahead,
 the whole new state, the one event it logs, and the exact reason when it does not.
 */
module CommandOutcomes {
  import opened Results
  import opened Intervals
  import opened StepFunctions
  import opened CapacityCurves
  import opened Domain
  import opened OrderedKeys
  import opened TimelineRebuild
  import opened Admission
  import opened AvailabilityOracle
  import opened Promises
  import opened Transitions
  import opened ActiveUsage
  import opened EngineInvariants
  import opened BundleAdmissions
  import opened BundleVerdicts
  import opened EngineSteps
  import opened EngineSafety
  import opened EngineGuarantees
  import opened ConflictReports

  /** One event is logged under the next sequence, and no record is touched. */
  ghost predicate Logged(st: EngineState, after: EngineState, now: int, kind: EventKind, data: EventData) {
    && after.sequence == st.sequence + 1 && after.records == st.records
    && after.events == st.events + [Event(st.sequence + 1, now, kind, data)]
  }

  // ---- Commit and release ----

  /** The promise moves to `state` under the next version and sequence, and keeps everything else. */
  ghost predicate MovedTo(st: EngineState, after: EngineState, id: PromiseId, state: PromiseState, now: int,
                          kind: EventKind)
    requires id in st.promises
  {
    var p := st.promises[id];
    && after.promises
       == st.promises[id := Promise(id, state, p.bundle, p.version + 1, p.createdSequence, st.sequence + 1)]
    && after.pools == st.pools && Logged(st, after, now, kind, OnPromise(id, p.version + 1))
  }

  /** Each command runs its own operation. */
  lemma RequestedIs(st: EngineState, operation: Operation, expired: int, now: int)
    ensures Requested(st, operation, expired, now)
            == match operation
               case CreateResourcePool(pool, name, unit, curve) => CreatePool(st, Pool(pool, name, unit, curve), now)
               case ReviseCapacity(pool, curve, mode) => RevisePool(st, pool, curve, mode, now)
               case Hold(id, bundle, expiresAt) => HoldBundle(st, id, bundle, expiresAt, now)
               case HoldOneOf(id, choice, expiresAt) => HoldChoice(st, id, choice, expiresAt, now)
               case HoldFirstSlot(id, relative, earliest, latest, step, expiresAt) =>
                 HoldSlot(st, id, relative, earliest, latest, step, expiresAt, now)
               case Commit(id, expected) => CommitPromise(st, id, expected, now)
               case Release(id, expected) => ReleasePromise(st, id, expected, now)
               case Replace(id, expected, bundle, state) => ReplacePromise(st, id, expected, bundle, state, now)
               case ProcessExpirations => Outcome(st, Ok(ExpirationsProcessed(expired)))
  {
    hide CreatePool, RevisePool, HoldBundle, HoldChoice, HoldSlot, CommitPromise, ReleasePromise, ReplacePromise;
  }

  predicate CanCommit(st: EngineState, id: PromiseId, expected: int, now: int) {
    && id in st.promises && LiveHold(st.promises[id], now)
    && st.promises[id].version == expected < U64_MAX && st.sequence < U64_MAX
  }

  predicate CanRelease(st: EngineState, id: PromiseId, expected: int, now: int) {
    && id in st.promises && (LiveHold(st.promises[id], now) || st.promises[id].state.Committed?)
    && st.promises[id].version == expected < U64_MAX && st.sequence < U64_MAX
  }

  /** Why a commit or a release is refused, in the order it is noticed. */
  predicate MoveRefused(st: EngineState, id: PromiseId, expected: int, now: int, releasing: bool, error: DomainError) {
    match error
    case SequenceOverflow => st.sequence == U64_MAX
    case PromiseNotFound => st.sequence < U64_MAX && id !in st.promises
    case HoldExpired =>
      && st.sequence < U64_MAX && id in st.promises && DeadHold(st.promises[id], now)
      && (st.promises[id].state.Held? ==> st.promises[id].version == expected)
    case VersionConflict =>
      && st.sequence < U64_MAX && id in st.promises && !st.promises[id].state.Expired?
      && st.promises[id].version != expected
    case InvalidPromiseState =>
      && st.sequence < U64_MAX && id in st.promises && st.promises[id].version == expected
      && (st.promises[id].state.Released? || (st.promises[id].state.Committed? && !releasing))
    case VersionOverflow =>
      && st.sequence < U64_MAX && id in st.promises && st.promises[id].version == expected == U64_MAX
      && (LiveHold(st.promises[id], now) || (st.promises[id].state.Committed? && releasing))
    case _ => false
  }

  lemma CommittingIs(p: Promise, expected: int, now: int, sequence: int)
    ensures Committing(p, expected, now, sequence)
            == if p.version != expected then Err(VersionConflict)
               else if p.state.Held? && p.state.expiresAt <= now then Err(HoldExpired)
               else if !p.state.Held? then Err(InvalidPromiseState)
               else if p.version >= U64_MAX then Err(VersionOverflow)
               else Ok(Promise(p.id, Committed, p.bundle, p.version + 1, p.createdSequence, sequence))
  {
  }

  lemma ReleasingIs(p: Promise, expected: int, now: int, sequence: int)
    ensures Releasing(p, expected, now, sequence)
            == if p.version != expected then Err(VersionConflict)
               else if p.state.Held? && p.state.expiresAt <= now then Err(HoldExpired)
               else if !p.state.Held? && !p.state.Committed? then Err(InvalidPromiseState)
               else if p.version >= U64_MAX then Err(VersionOverflow)
               else Ok(Promise(p.id, Released, p.bundle, p.version + 1, p.createdSequence, sequence))
  {
  }

  lemma PromiseFacts(st: EngineState, id: PromiseId)
    requires Coherent(st)
    ensures 0 <= st.sequence <= U64_MAX
    ensures id in st.promises ==>
              && st.promises[id].id == id && 1 <= st.promises[id].version <= U64_MAX
                 && ValidBundle(st.promises[id].bundle)
  {
    hide AllIndexed, SoundPools, ValidBundle;
    if id in st.promises {
      assert SoundPromise(st, st.promises[id]);
    }
  }

  /** How a commit is answered, and what it leaves behind. */
  ghost predicate CommitAnswered(st: EngineState, id: PromiseId, expected: int, now: int,
                                 outcome: Outcome<CommandResult>)
  {
    if CanCommit(st, id, expected, now) then
      && outcome.result == Ok(PromiseCommitted(id, expected + 1))
      && MovedTo(st, outcome.state, id, Committed, now, HoldCommitted)
      && outcome.state.timelines == st.timelines
    else outcome.state == st && outcome.result.Err?
         && MoveRefused(st, id, expected, now, false, outcome.result.error)
  }

  /**
   A commit goes ahead exactly for a hold before its deadline, at the expected version, with both counters
   able to step. The hold is then committed and keeps its capacity.
   */
  lemma CommitOutcome(st: EngineState, id: PromiseId, expected: int, expired: int, now: int)
    requires Coherent(st)
    ensures CommitAnswered(st, id, expected, now, Requested(st, Commit(id, expected), expired, now))
  {
    hide Coherent, Requested, CommitPromise, CanCommit, MovedTo, MoveRefused;
    RequestedIs(st, Commit(id, expected), expired, now);
    if CanCommit(st, id, expected, now) {
      CommitGoesAhead(st, id, expected, now);
    } else {
      CommitRefused(st, id, expected, now);
    }
  }

  lemma CommitGoesAhead(st: EngineState, id: PromiseId, expected: int, now: int)
    requires Coherent(st) && CanCommit(st, id, expected, now)
    ensures id in st.promises
    ensures var outcome := CommitPromise(st, id, expected, now);
            && outcome.result == Ok(PromiseCommitted(id, expected + 1))
            && MovedTo(st, outcome.state, id, Committed, now, HoldCommitted) && outcome.state.timelines == st.timelines
  {
    hide Coherent, Committing;
    PromiseFacts(st, id);
    CommittingIs(st.promises[id], expected, now, st.sequence + 1);
  }

  lemma CommitRefused(st: EngineState, id: PromiseId, expected: int, now: int)
    requires Coherent(st) && !CanCommit(st, id, expected, now)
    ensures var outcome := CommitPromise(st, id, expected, now);
            && outcome.state == st && outcome.result.Err?
            && MoveRefused(st, id, expected, now, false, outcome.result.error)
  {
    hide Coherent, Committing;
    PromiseFacts(st, id);
    if id in st.promises {
      CommittingIs(st.promises[id], expected, now, st.sequence + 1);
    }
  }

  /** How a release is answered, and what it leaves behind. */
  ghost predicate ReleaseAnswered(st: EngineState, id: PromiseId, expected: int, now: int,
                                  outcome: Outcome<CommandResult>)
  {
    if CanRelease(st, id, expected, now) then
      && outcome.result == Ok(PromiseReleased(id, expected + 1))
      && MovedTo(st, outcome.state, id, Released, now, HoldReleased)
      && SlackMoved(st, outcome.state, st.promises[id].bundle, [])
    else outcome.state == st && outcome.result.Err?
         && MoveRefused(st, id, expected, now, true, outcome.result.error)
  }

  /**
   A release goes ahead exactly for a commitment, or a hold before its deadline, at the expected version,
   with both counters able to step. Every pool's slack then rises by exactly what the bundle held.
   */
  lemma ReleaseOutcome(st: EngineState, id: PromiseId, expected: int, expired: int, now: int)
    requires Coherent(st)
    ensures ReleaseAnswered(st, id, expected, now, Requested(st, Release(id, expected), expired, now))
  {
    hide Coherent, Requested, ReleasePromise, CanRelease, MovedTo, MoveRefused, SlackMoved;
    RequestedIs(st, Release(id, expected), expired, now);
    if CanRelease(st, id, expected, now) {
      ReleaseGoesAhead(st, id, expected, now);
    } else {
      ReleaseRefused(st, id, expected, now);
    }
  }

  lemma ReleaseGoesAhead(st: EngineState, id: PromiseId, expected: int, now: int)
    requires Coherent(st) && CanRelease(st, id, expected, now)
    ensures id in st.promises
    ensures var outcome := ReleasePromise(st, id, expected, now);
            && outcome.result == Ok(PromiseReleased(id, expected + 1))
            && MovedTo(st, outcome.state, id, Released, now, HoldReleased)
            && SlackMoved(st, outcome.state, st.promises[id].bundle, [])
  {
    hide Coherent, RestoredTimelines, Adjusts, SlackMoved, Releasing;
    PromiseFacts(st, id);
    RestoredAdjusts(st, id);
    ReleasingIs(st.promises[id], expected, now, st.sequence + 1);
    var after := ReleasePromise(st, id, expected, now).state;
    AdjustsMoves(st, RestoredTimelines(st, st.promises[id].bundle).value, st.promises[id].bundle, [], after);
  }

  lemma ReleaseRefused(st: EngineState, id: PromiseId, expected: int, now: int)
    requires Coherent(st) && !CanRelease(st, id, expected, now)
    ensures var outcome := ReleasePromise(st, id, expected, now);
            && outcome.state == st && outcome.result.Err?
            && MoveRefused(st, id, expected, now, true, outcome.result.error)
  {
    hide Coherent, RestoredTimelines, Releasing;
    PromiseFacts(st, id);
    if id in st.promises {
      ReleasingIs(st.promises[id], expected, now, st.sequence + 1);
    }
  }

  // ---- Pools ----

  /** How a creation is answered, and what it leaves behind. */
  ghost predicate CreateAnswered(st: EngineState, id: PoolId, name: string, unit: Unit, curve: seq<CapacitySegment>,
                                 now: int, outcome: Outcome<CommandResult>)
  {
    if id in st.pools then outcome == Outcome(st, Err(ResourcePoolAlreadyExists))
    else if st.sequence == U64_MAX then outcome == Outcome(st, Err(SequenceOverflow))
    else
      && outcome.result == Ok(ResourcePoolCreated(id))
      && outcome.state.pools == st.pools[id := Pool(id, name, unit, curve)]
      && outcome.state.promises == st.promises && id in outcome.state.timelines
      && outcome.state.timelines == st.timelines[id := outcome.state.timelines[id]]
      && (forall t :: At(0, outcome.state.timelines[id], t) == CapacityAt(curve, t))
      && Logged(st, outcome.state, now, ResourceCreated, OnPool(id))
  }

  /**
   A pool is created exactly when its identity is new and a sequence number is left. It is stored as
   requested, all of its capacity is free, and nothing else changes.
   */
  lemma CreateOutcome(st: EngineState, id: PoolId, name: string, unit: Unit, curve: seq<CapacitySegment>, expired: int,
                      now: int)
    requires Coherent(st) && ValidCurve(curve)
    ensures CreateAnswered(st, id, name, unit, curve, now,
                           Requested(st, CreateResourcePool(id, name, unit, curve), expired, now))
  {
    hide At, AllIndexed, SoundPromises, RebuiltPoints, Representable, CapacityAt, Canonical, AllFit, ValidCurve,
         Requested;
    RequestedIs(st, CreateResourcePool(id, name, unit, curve), expired, now);
    CurveRepresentable(curve);
    RebuildCorrect(curve, []);
    forall t
      ensures SlackOf(curve, [], t) == CapacityAt(curve, t)
    {
      NoUsage(t);
    }
  }

  // ---- Holds ----

  /** The bundle is held: its promise stored, its demand taken from slack, one event logged. */
  ghost predicate HeldNow(st: EngineState, after: EngineState, id: PromiseId, bundle: Bundle, expiresAt: int,
                          now: int)
  {
    && HeldSafely(st, after, id, bundle, expiresAt) && Logged(st, after, now, HoldCreated, OnPromise(id, 1))
  }

  predicate HoldAllowed(st: EngineState, id: PromiseId, expiresAt: int, now: int) {
    id !in st.promises && now < expiresAt
  }

  /** Every pool is known, and what is held and asked together stays within capacity at every time. */
  ghost predicate HasRoom(st: EngineState, bundle: Bundle) {
    PoolsExist(bundle, st.pools) && WithinAllCapacity(st, bundle)
  }

  /** The bundle can be evaluated, and passes capacity somewhere. */
  ghost predicate Short(st: EngineState, bundle: Bundle) {
    FaultFree(st, [], bundle) && !WithinAllCapacity(st, bundle)
  }

  /** With nothing given back, falling short is passing capacity. */
  lemma ShortIsOver(st: EngineState, bundle: Bundle, pool: PoolId, t: int)
    requires Coherent(st) && ValidBundle(bundle) && pool in PoolsOf(bundle) && pool in st.timelines
    ensures pool in st.pools
    ensures ShortAt(st, [], bundle, pool, t)
            <==> Usage(ClaimsOn(bundle, pool), t) > 0
                 && Usage(ActiveClaims(st.promises, pool), t) + Usage(ClaimsOn(bundle, pool), t)
                    > CapacityAt(st.pools[pool].curve, t)
  {
    hide At, Usage, PoolsOf, ClaimsOn, ShortAt, Admission.Refused, ActiveClaims, Canonical, AllFit, SoundPromises,
         CapacityAt, Sweep.Valid, Restores;
    NothingRestored(st);
    NoOverrides(st);
    assert Indexed(st, pool);
    SweepValid(st, bundle, map[], pool);
    ShortExactly(st, bundle, map[], [], pool, t);
    RefusedExactly(SweepOn(st, bundle, map[], pool), t);
    assert At(0, st.timelines[pool], t) == SlackOf(st.pools[pool].curve, ActiveClaims(st.promises, pool), t);
  }

  lemma RoomIsCapacity(st: EngineState, bundle: Bundle)
    requires Coherent(st) && ValidBundle(bundle) && FaultFree(st, [], bundle)
    ensures HasRoomFor(st, [], bundle) <==> HasRoom(st, bundle)
    ensures PoolsExist(bundle, st.pools)
  {
    hide Coherent, Usage, PoolsOf, ClaimsOn, ShortAt, ActiveClaims, CapacityAt, FaultFree, PoolsExist, ValidBundle;
    AllKnown(st, [], bundle);
    KnownPools(st);
    forall pool | pool in PoolsOf(bundle)
      ensures pool in st.pools && pool in st.timelines
    {
      PoolIsKnown(st, bundle, pool);
    }
    forall pool, t | pool in PoolsOf(bundle)
      ensures ShortAt(st, [], bundle, pool, t)
              <==> Usage(ClaimsOn(bundle, pool), t) > 0
                   && Usage(ActiveClaims(st.promises, pool), t) + Usage(ClaimsOn(bundle, pool), t)
                      > CapacityAt(st.pools[pool].curve, t)
    {
      ShortIsOver(st, bundle, pool, t);
    }
    OverCapacity(st, bundle);
  }

  /** Somewhere over capacity, pool by pool. */
  lemma OverCapacity(st: EngineState, bundle: Bundle)
    requires forall pool :: pool in PoolsOf(bundle) ==> pool in st.pools && pool in st.timelines
    requires forall pool, t :: pool in PoolsOf(bundle) ==>
                                 (ShortAt(st, [], bundle, pool, t)
                                  <==> Usage(ClaimsOn(bundle, pool), t) > 0
                                       && Usage(ActiveClaims(st.promises, pool), t) + Usage(ClaimsOn(bundle, pool), t)
                                          > CapacityAt(st.pools[pool].curve, t))
    requires PoolsExist(bundle, st.pools)
    ensures HasRoomFor(st, [], bundle) <==> HasRoom(st, bundle)
  {
    hide Usage, PoolsOf, ClaimsOn, ShortAt, ActiveClaims, CapacityAt, PoolsExist;
    if HasRoomFor(st, [], bundle) {
      forall pool | pool in PoolsOf(bundle)
        ensures WithinCapacity(st.pools[pool].curve, ActiveClaims(st.promises, pool), ClaimsOn(bundle, pool))
      {
        forall t | Usage(ClaimsOn(bundle, pool), t) > 0
          ensures Usage(ActiveClaims(st.promises, pool), t) + Usage(ClaimsOn(bundle, pool), t)
                  <= CapacityAt(st.pools[pool].curve, t)
        {
          assert !ShortAt(st, [], bundle, pool, t);
        }
      }
    }
    if HasRoom(st, bundle) {
      forall pool, t | pool in PoolsOf(bundle) && pool in st.timelines
        ensures !ShortAt(st, [], bundle, pool, t)
      {
        assert WithinCapacity(st.pools[pool].curve, ActiveClaims(st.promises, pool), ClaimsOn(bundle, pool));
      }
    }
  }

  lemma KnownPools(st: EngineState)
    requires Coherent(st)
    ensures forall pool :: pool in st.pools <==> pool in st.timelines
  {
    hide AllIndexed, SoundPromises;
  }

  /** Evaluation of a bundle: the first pool that cannot be evaluated, room, or exact conflicts. */
  lemma EvaluationOutcome(st: EngineState, bundle: Bundle)
    requires Coherent(st) && ValidBundle(bundle)
    ensures match EvaluateBundle(st, bundle, map[])
            case Err(error) => FirstFault(st, [], bundle, error)
            case Ok(BundleFits(_)) => HasRoom(st, bundle)
            case Ok(BundleBlocked(conflicts)) => Short(st, bundle) && ConflictsTold(st, [], bundle, conflicts)
  {
    hide Coherent, EvaluateBundle, WithinAllCapacity, ConflictsTold, PoolsExist, FaultFree, FirstFault, HasRoomFor,
         Restores, ValidBundle;
    NothingRestored(st);
    EvaluationTold(st, bundle, map[], []);
    if EvaluateBundle(st, bundle, map[]).Ok? {
      RoomIsCapacity(st, bundle);
    }
  }

  lemma AcceptOutcome(st: EngineState, id: PromiseId, bundle: Bundle, expiresAt: int, now: int,
                      timelines: map<PoolId, seq<SlackPoint>>)
    requires Coherent(st) && ValidBundle(bundle) && HoldAllowed(st, id, expiresAt, now)
    requires EvaluateBundle(st, bundle, map[]) == Ok(BundleFits(timelines))
    ensures var accepted := AcceptHold(st, id, bundle, expiresAt, now, timelines);
            if st.sequence == U64_MAX then accepted == Outcome(st, Err(SequenceOverflow))
            else accepted.result.Ok? && HeldNow(st, accepted.state, id, bundle, expiresAt, now)
  {
    hide AllIndexed, SoundPools, SoundPromises, EvaluateBundle, HeldSafely;
    AcceptedSafely(st, id, bundle, expiresAt, now);
  }

  /** Why a hold is refused, in the order it is noticed; `found` says whether a bundle to hold was found. */
  predicate HoldRefused(st: EngineState, id: PromiseId, expiresAt: int, now: int, found: bool, error: DomainError) {
    match error
    case PromiseAlreadyExists => id in st.promises
    case InvalidExpiration => id !in st.promises && expiresAt <= now
    case SequenceOverflow => HoldAllowed(st, id, expiresAt, now) && found && st.sequence == U64_MAX
    case _ => false
  }

  /** How a hold is answered, and what it leaves behind. */
  ghost predicate HoldAnswered(st: EngineState, id: PromiseId, bundle: Bundle, expiresAt: int, now: int,
                               outcome: Outcome<CommandResult>)
  {
    match outcome.result
    case Ok(HoldHeld(held)) =>
      && held == id && HoldAllowed(st, id, expiresAt, now) && HasRoom(st, bundle) && st.sequence < U64_MAX
      && HeldNow(st, outcome.state, id, bundle, expiresAt, now)
    case Ok(HoldUnavailable(conflicts)) =>
      && HoldAllowed(st, id, expiresAt, now) && Short(st, bundle) && outcome.state == st
      && ConflictsTold(st, [], bundle, conflicts)
    case Err(error) =>
      && outcome.state == st
      && (|| HoldRefused(st, id, expiresAt, now, HasRoom(st, bundle), error)
          || (HoldAllowed(st, id, expiresAt, now) && FirstFault(st, [], bundle, error)))
    case _ => false
  }

  /**
   A bundle is held exactly when its identity is new, its deadline lies ahead, its pools exist, there is
   room at every time, and a sequence number is left. It is unavailable, with exact conflicts, exactly when
   only room is missing. Otherwise nothing changes and the reason is named.
   */
  lemma HoldOutcome(st: EngineState, id: PromiseId, bundle: Bundle, expiresAt: int, expired: int, now: int)
    requires Coherent(st) && ValidBundle(bundle)
    ensures HoldAnswered(st, id, bundle, expiresAt, now, Requested(st, Hold(id, bundle, expiresAt), expired, now))
  {
    hide Coherent, EvaluateBundle, HasRoom, Short, ConflictsTold, PoolsExist, HeldNow, AcceptHold, Requested;
    RequestedIs(st, Hold(id, bundle, expiresAt), expired, now);
    SequenceBounded(st);
    if HoldAllowed(st, id, expiresAt, now) {
      EvaluationOutcome(st, bundle);
      var evaluated := EvaluateBundle(st, bundle, map[]);
      if evaluated.Ok? && evaluated.value.BundleFits? {
        AcceptOutcome(st, id, bundle, expiresAt, now, evaluated.value.timelines);
      }
    }
  }

  lemma SequenceBounded(st: EngineState)
    requires Coherent(st)
    ensures 0 <= st.sequence <= U64_MAX
  {
    hide AllIndexed, SoundPools, SoundPromises;
  }

  // ---- Ordered choices ----

  /** The first alternative with room; there is none where all before it are short. */
  ghost predicate FirstRoom(st: EngineState, choice: seq<Bundle>, k: int) {
    0 <= k < |choice| && HasRoom(st, choice[k]) && forall i :: 0 <= i < k ==> Short(st, choice[i])
  }

  /** The first alternative that cannot be evaluated, all before it being short. */
  ghost predicate FirstFaulty(st: EngineState, choice: seq<Bundle>, k: int, error: DomainError) {
    && 0 <= k < |choice| && FirstFault(st, [], choice[k], error)
    && forall i :: 0 <= i < k ==> Short(st, choice[i])
  }

  ghost predicate ChoiceFault(st: EngineState, choice: seq<Bundle>, error: DomainError) {
    exists k :: FirstFaulty(st, choice, k, error)
  }

  lemma {:induction false} ScanOutcome(st: EngineState, choice: seq<Bundle>, k: nat) returns (m: nat)
    requires Coherent(st) && k <= |choice|
    requires forall i :: 0 <= i < |choice| ==> ValidBundle(choice[i])
    ensures match ScanChoice(st, choice, k)
            case Err(error) => m < k && FirstFaulty(st, choice, m, error)
            case Ok(FirstFit(alternative, timelines)) =>
              && m == alternative < k && FirstRoom(st, choice, m)
              && EvaluateBundle(st, choice[m], map[]) == Ok(BundleFits(timelines))
            case Ok(AllBlocked(conflicts)) =>
              && m == k == |conflicts|
              && forall i :: 0 <= i < k ==>
                               && Short(st, choice[i]) && conflicts[i].alternative == i
                               && ConflictsTold(st, [], choice[i], conflicts[i].conflicts)
  {
    hide Coherent, EvaluateBundle, HasRoom, Short, ConflictsTold, PoolsExist, ValidBundle;
    m := 0;
    if k > 0 {
      m := ScanOutcome(st, choice, k - 1);
      var earlier := ScanChoice(st, choice, k - 1);
      if earlier.Ok? && earlier.value.AllBlocked? {
        EvaluationOutcome(st, choice[k - 1]);
        var evaluated := EvaluateBundle(st, choice[k - 1], map[]);
        m := if evaluated.Ok? && evaluated.value.BundleBlocked? then k else k - 1;
      }
    }
  }

  /** How an ordered choice is answered, and what it leaves behind. */
  ghost predicate ChoiceAnswered(st: EngineState, id: PromiseId, choice: seq<Bundle>, expiresAt: int, now: int,
                                 outcome: Outcome<CommandResult>)
  {
    match outcome.result
    case Ok(ChoiceHeld(held, k)) =>
      && held == id && HoldAllowed(st, id, expiresAt, now) && FirstRoom(st, choice, k) && st.sequence < U64_MAX
      && HeldNow(st, outcome.state, id, choice[k], expiresAt, now)
    case Ok(ChoiceUnavailable(reported)) =>
      && HoldAllowed(st, id, expiresAt, now) && outcome.state == st && |reported| == |choice|
      && forall i :: 0 <= i < |choice| ==>
                       && Short(st, choice[i]) && reported[i].alternative == i
                       && ConflictsTold(st, [], choice[i], reported[i].conflicts)
    case Err(error) =>
      && outcome.state == st
      && (|| HoldRefused(st, id, expiresAt, now, exists k :: FirstRoom(st, choice, k), error)
          || (HoldAllowed(st, id, expiresAt, now) && ChoiceFault(st, choice, error)))
    case _ => false
  }

  /**
   An ordered choice holds its first alternative with room whenever there is one and those
   before it can be evaluated, and is unavailable, with exact conflicts for each, exactly when all are short.
   */
  lemma ChoiceOutcome(st: EngineState, id: PromiseId, choice: seq<Bundle>, expiresAt: int, expired: int, now: int)
    requires Coherent(st) && forall i :: 0 <= i < |choice| ==> ValidBundle(choice[i])
    ensures ChoiceAnswered(st, id, choice, expiresAt, now,
                           Requested(st, HoldOneOf(id, choice, expiresAt), expired, now))
  {
    hide Coherent, EvaluateBundle, HasRoom, Short, ConflictsTold, PoolsExist, HeldNow, AcceptHold, Requested,
         ValidBundle, ScanChoice, FirstRoom, FirstFaulty;
    RequestedIs(st, HoldOneOf(id, choice, expiresAt), expired, now);
    SequenceBounded(st);
    if HoldAllowed(st, id, expiresAt, now) {
      var m := ScanOutcome(st, choice, |choice|);
      var scan := ScanChoice(st, choice, |choice|);
      if scan.Ok? && scan.value.FirstFit? {
        FirstRoomKnown(st, choice, m);
        AcceptOutcome(st, id, choice[m], expiresAt, now, scan.value.timelines);
      }
    }
  }

  lemma FirstRoomKnown(st: EngineState, choice: seq<Bundle>, k: int)
    requires FirstRoom(st, choice, k)
    ensures 0 <= k < |choice|
  {
  }

  // ---- First slot ----

  predicate EndsFit(relative: seq<RelativeClaim>, start: int) {
    forall i :: 0 <= i < |relative| ==>
                  FitsI64(start + relative[i].startOffset) && FitsI64(start + relative[i].endOffset)
  }

  /** The relative claims moved to `start`. */
  function Shifted(relative: seq<RelativeClaim>, start: int): Bundle {
    seq(|relative|, i requires 0 <= i < |relative| =>
      Claim(relative[i].poolId, Interval(start + relative[i].startOffset, start + relative[i].endOffset),
            relative[i].quantity))
  }

  /** A candidate is the relative claims moved to its start, if all their ends are representable. */
  lemma {:induction false} MaterializeExact(relative: seq<RelativeClaim>, start: int)
    ensures Materialize(relative, start)
            == if EndsFit(relative, start) then Ok(Shifted(relative, start)) else Err(TimestampOverflow)
  {
    if relative != [] {
      var n := |relative| - 1;
      MaterializeExact(relative[..n], start);
      if EndsFit(relative, start) {
        assert Shifted(relative, start) == Shifted(relative[..n], start) + [Shifted(relative, start)[n]];
      }
      assert EndsFit(relative, start)
             <==> EndsFit(relative[..n], start) && FitsI64(start + relative[n].startOffset)
                  && FitsI64(start + relative[n].endOffset);
    } else {
      assert Shifted(relative, start) == [];
    }
  }

  ghost predicate ValidRelative(relative: seq<RelativeClaim>) {
    relative != [] && forall i :: 0 <= i < |relative| ==> relative[i].Valid()
  }

  lemma ShiftedValid(relative: seq<RelativeClaim>, start: int)
    requires ValidRelative(relative)
    ensures ValidBundle(Shifted(relative, start))
  {
  }

  ghost predicate SlotRoom(st: EngineState, relative: seq<RelativeClaim>, start: int) {
    EndsFit(relative, start) && HasRoom(st, Shifted(relative, start))
  }

  ghost predicate SlotShort(st: EngineState, relative: seq<RelativeClaim>, start: int) {
    EndsFit(relative, start) && Short(st, Shifted(relative, start))
  }

  ghost predicate SlotFaulty(st: EngineState, relative: seq<RelativeClaim>, start: int, error: DomainError) {
    if EndsFit(relative, start) then FirstFault(st, [], Shifted(relative, start), error) else error == TimestampOverflow
  }

  lemma SlotFaultKinds(st: EngineState, relative: seq<RelativeClaim>, start: int, error: DomainError)
    requires SlotFaulty(st, relative, start, error)
    ensures error in {TimestampOverflow, ResourcePoolNotFound, QuantityOverflow, IndexOverflow}
  {
    hide EndsFit, Shifted, PoolsOf, ShortInPool, DemandAbove;
  }

  /** The first `m` candidates are short. */
  ghost predicate ShortBefore(st: EngineState, relative: seq<RelativeClaim>, earliest: int, step: int, m: int) {
    forall k: nat :: k < m ==> SlotShort(st, relative, Candidate(earliest, step, k))
  }

  ghost predicate CandidateEvaluates(st: EngineState, relative: seq<RelativeClaim>, start: int,
                                     evaluated: Result<BundleAdmission, DomainError>)
  {
    match evaluated
    case Err(error) => SlotFaulty(st, relative, start, error)
    case Ok(BundleFits(_)) => SlotRoom(st, relative, start)
    case Ok(BundleBlocked(_)) => SlotShort(st, relative, start)
  }

  /** One candidate: a fault, room, or none, for the very claims moved to its start. */
  ghost predicate CandidateTold(st: EngineState, relative: seq<RelativeClaim>, start: int,
                                materialized: Result<Bundle, DomainError>)
  {
    match materialized
    case Err(error) => SlotFaulty(st, relative, start, error)
    case Ok(bundle) =>
      && bundle == Shifted(relative, start) && ValidBundle(bundle)
      && CandidateEvaluates(st, relative, start, EvaluateBundle(st, bundle, map[]))
  }

  lemma CandidateOutcome(st: EngineState, relative: seq<RelativeClaim>, start: int)
    requires Coherent(st) && ValidRelative(relative)
    ensures CandidateTold(st, relative, start, Materialize(relative, start))
  {
    hide Coherent, EvaluateBundle, HasRoom, Short, ConflictsTold, PoolsExist, ValidBundle, Materialize,
         Shifted, EndsFit;
    MaterializeExact(relative, start);
    if EndsFit(relative, start) {
      ShiftedValid(relative, start);
      EvaluationOutcome(st, Shifted(relative, start));
    }
  }

  lemma {:induction false} SearchOutcome(st: EngineState, relative: seq<RelativeClaim>, start: int, latest: int,
                                         step: int, attempts: int)
    returns (tried: nat)
    requires Coherent(st) && ValidRelative(relative) && 0 < step && start <= latest && FitsI64(start) && FitsI64(latest)
    ensures ShortBefore(st, relative, start, step, tried)
    ensures match SearchFrom(st, relative, start, latest, step, attempts)
            case Ok(SlotFound(from, bundle, timelines)) =>
              && from == Candidate(start, step, tried) <= latest && SlotRoom(st, relative, from)
              && bundle == Shifted(relative, from) && EvaluateBundle(st, bundle, map[]) == Ok(BundleFits(timelines))
            case Ok(NoSlot(total)) =>
              && total == attempts + tried && 0 < tried
              && Candidate(start, step, tried - 1) <= latest < Candidate(start, step, tried)
            case Err(error) =>
              && Candidate(start, step, tried) <= latest
              && SlotFaulty(st, relative, Candidate(start, step, tried), error)
    decreases latest - start
  {
    hide Coherent, EvaluateBundle, Materialize, SlotRoom, SlotShort, SlotFaulty, ValidRelative, EndsFit,
         Shifted, ValidBundle;
    CandidateOutcome(st, relative, start);
    assert Candidate(start, step, 0) == start && Candidate(start, step, 1) == start + step;
    tried := 0;
    var bundle := Materialize(relative, start);
    if bundle.Ok? {
      var evaluated := EvaluateBundle(st, bundle.value, map[]);
      if evaluated.Ok? && evaluated.value.BundleBlocked? {
        if start == latest || !FitsI64(start + step) || start + step > latest {
          tried := 1;
        } else {
          var rest := SearchOutcome(st, relative, start + step, latest, step, attempts + 1);
          tried := rest + 1;
          NextCandidates(st, relative, start, step, rest);
        }
      }
    }
  }

  lemma NextCandidates(st: EngineState, relative: seq<RelativeClaim>, start: int, step: int, rest: nat)
    requires SlotShort(st, relative, start) && ShortBefore(st, relative, start + step, step, rest)
    ensures ShortBefore(st, relative, start, step, rest + 1)
    ensures Candidate(start, step, rest + 1) == Candidate(start + step, step, rest)
    ensures rest > 0 ==> Candidate(start, step, rest) == Candidate(start + step, step, rest - 1)
    ensures Candidate(start, step, 0) == start
  {
    hide SlotShort;
    forall k: nat | k < rest + 1
      ensures SlotShort(st, relative, Candidate(start, step, k))
    {
      if k == 0 {
        assert Candidate(start, step, 0) == start;
      } else {
        assert Candidate(start + step, step, k - 1) == Candidate(start, step, k);
      }
    }
  }

  /** The first candidate in range with room, all before it being short. */
  ghost predicate FirstSlot(st: EngineState, relative: seq<RelativeClaim>, earliest: int, latest: int, step: int,
                            from: int)
  {
    && from <= latest && SlotRoom(st, relative, from)
    && exists m: nat :: from == Candidate(earliest, step, m) && ShortBefore(st, relative, earliest, step, m)
  }

  /** The search stops at a candidate that cannot be evaluated, all before it being short. */
  ghost predicate SearchStops(st: EngineState, relative: seq<RelativeClaim>, earliest: int, latest: int, step: int,
                              error: DomainError)
  {
    exists m: nat :: && ShortBefore(st, relative, earliest, step, m) && Candidate(earliest, step, m) <= latest
                     && SlotFaulty(st, relative, Candidate(earliest, step, m), error)
  }

  /** How a slot hold is answered, and what it leaves behind. */
  ghost predicate SlotAnswered(st: EngineState, id: PromiseId, relative: seq<RelativeClaim>, earliest: int, latest: int,
                               step: int, expiresAt: int, now: int, outcome: Outcome<CommandResult>)
  {
    match outcome.result
    case Ok(SlotHeld(held, from)) =>
      && held == id && HoldAllowed(st, id, expiresAt, now) && earliest <= latest && 0 < step
      && FirstSlot(st, relative, earliest, latest, step, from) && st.sequence < U64_MAX
      && HeldNow(st, outcome.state, id, Shifted(relative, from), expiresAt, now)
    case Ok(SlotUnavailable(attempts)) =>
      && HoldAllowed(st, id, expiresAt, now) && 0 < step && outcome.state == st && 0 < attempts
      && Candidate(earliest, step, attempts - 1) <= latest < Candidate(earliest, step, attempts)
      && ShortBefore(st, relative, earliest, step, attempts)
    case Err(InvalidSearchRange) => HoldAllowed(st, id, expiresAt, now) && earliest > latest && outcome.state == st
    case Err(InvalidStep) =>
      HoldAllowed(st, id, expiresAt, now) && earliest <= latest && step <= 0 && outcome.state == st
    case Err(SequenceOverflow) =>
      && HoldAllowed(st, id, expiresAt, now) && earliest <= latest && 0 < step && outcome.state == st
      && st.sequence == U64_MAX && exists from :: FirstSlot(st, relative, earliest, latest, step, from)
    case Err(PromiseAlreadyExists) => id in st.promises && outcome.state == st
    case Err(InvalidExpiration) => id !in st.promises && expiresAt <= now && outcome.state == st
    case Err(error) =>
      && HoldAllowed(st, id, expiresAt, now) && earliest <= latest && 0 < step && outcome.state == st
      && SearchStops(st, relative, earliest, latest, step, error)
    case _ => false
  }

  lemma SlotSearched(st: EngineState, id: PromiseId, relative: seq<RelativeClaim>, earliest: int, latest: int,
                     step: int, expiresAt: int, now: int)
    requires HoldAllowed(st, id, expiresAt, now) && earliest <= latest && 0 < step
    ensures HoldSlot(st, id, relative, earliest, latest, step, expiresAt, now)
            == match SearchFrom(st, relative, earliest, latest, step, 0)
               case Err(error) => Outcome(st, Err(error))
               case Ok(NoSlot(attempts)) => Outcome(st, Ok(SlotUnavailable(attempts)))
               case Ok(SlotFound(from, bundle, timelines)) =>
                 var accepted := AcceptHold(st, id, bundle, expiresAt, now, timelines);
                 Outcome(accepted.state,
                         if accepted.result.Ok? then Ok(SlotHeld(id, from)) else Err(accepted.result.error))
  {
    hide AcceptHold, SearchFrom;
  }

  lemma SlotUnsearched(st: EngineState, id: PromiseId, relative: seq<RelativeClaim>, earliest: int, latest: int,
                       step: int, expiresAt: int, now: int)
    requires !(HoldAllowed(st, id, expiresAt, now) && earliest <= latest && 0 < step)
    ensures HoldSlot(st, id, relative, earliest, latest, step, expiresAt, now)
            == Outcome(st, Err(if id in st.promises then PromiseAlreadyExists
                               else if expiresAt <= now then InvalidExpiration
                               else if earliest > latest then InvalidSearchRange else InvalidStep))
  {
    hide AcceptHold, SearchFrom;
  }

  /**
   A slot hold takes the first candidate in range with room whenever there is one and those
   before it can be evaluated. It is unavailable, having tried every candidate in range, exactly when all are
   short. Otherwise nothing changes and the reason is named.
   */
  lemma SlotOutcome(st: EngineState, id: PromiseId, relative: seq<RelativeClaim>, earliest: int, latest: int, step: int,
                    expiresAt: int, expired: int, now: int)
    requires Coherent(st) && ValidRelative(relative) && FitsI64(earliest) && FitsI64(latest)
    ensures SlotAnswered(st, id, relative, earliest, latest, step, expiresAt, now,
                         Requested(st, HoldFirstSlot(id, relative, earliest, latest, step, expiresAt), expired, now))
  {
    hide Coherent, EvaluateBundle, SlotRoom, SlotShort, SlotFaulty, ValidRelative, EndsFit, Shifted, HoldSlot,
         SearchFrom, HeldNow, AcceptHold, Requested, ShortBefore, Candidate;
    RequestedIs(st, HoldFirstSlot(id, relative, earliest, latest, step, expiresAt), expired, now);
    SequenceBounded(st);
    if HoldAllowed(st, id, expiresAt, now) && earliest <= latest && 0 < step {
      SlotSearched(st, id, relative, earliest, latest, step, expiresAt, now);
      var tried := SearchOutcome(st, relative, earliest, latest, step, 0);
      var search := SearchFrom(st, relative, earliest, latest, step, 0);
      if search.Ok? && search.value.SlotFound? {
        ShiftedValid(relative, search.value.start);
        AcceptOutcome(st, id, search.value.bundle, expiresAt, now, search.value.timelines);
        assert FirstSlot(st, relative, earliest, latest, step, search.value.start);
      } else if search.Err? {
        SlotFaultKinds(st, relative, Candidate(earliest, step, tried), search.error);
        assert SearchStops(st, relative, earliest, latest, step, search.error);
      }
    } else {
      SlotUnsearched(st, id, relative, earliest, latest, step, expiresAt, now);
    }
  }
}
