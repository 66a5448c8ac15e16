/**
 Values of the state machine: claims, promises, pools, commands, responses and events.

 Identities are 16-byte values compared as big-endian numbers. Quantities, versions and sequence
 numbers are 64-bit; the publication revision is 128-bit.
 */
module Domain {
  import opened Results
  import opened Intervals
  import opened CapacityCurves
  import opened OrderedKeys

  type PoolId = int
  type PromiseId = int

  datatype DomainError =
    | InvalidInterval
    | UnsortedCapacitySegments
    | OverlappingCapacitySegments
    | InvalidUnitName
    | InvalidUnitScale
    | InvalidQuantity
    | QuantityOutOfRange
    | QuantityOverflow
    | IndexOverflow
    | InvalidExpiration
    | EmptyBundle
    | EmptyRelativeBundle
    | EmptyChoice
    | InvalidSearchRange
    | InvalidStep
    | TimestampOverflow
    | ResourcePoolAlreadyExists
    | ResourcePoolNotFound
    | CapacityExceeded
    | CapacityRevisionCreatesDeficit
    | PromiseAlreadyExists
    | PromiseNotFound
    | InvalidPromiseState
    | IdempotencyConflict
    | VersionConflict
    | VersionOverflow
    | SequenceOverflow
    | SystemTimeOutOfRange
    | HoldExpired
    | HoldNotExpired
    | InvalidPromiseHistory
    | PublicationRevisionOverflow

  // ---- Claims and bundles ----

  datatype Claim = Claim(poolId: PoolId, interval: Interval, quantity: int) {
    /** What the validating constructor accepts. */
    predicate Valid() {
      interval.Valid() && 1 <= quantity <= MAX_QUANTITY
    }
  }

  /** A bundle is a nonempty group of claims admitted or rejected together. */
  type Bundle = seq<Claim>

  ghost predicate ValidClaims(claims: seq<Claim>) {
    forall i :: 0 <= i < |claims| ==> claims[i].Valid()
  }

  ghost predicate ValidBundle(bundle: Bundle) {
    bundle != [] && ValidClaims(bundle)
  }

  datatype RelativeClaim = RelativeClaim(poolId: PoolId, startOffset: int, endOffset: int, quantity: int) {
    predicate Valid() {
      && FitsI64(startOffset) && FitsI64(endOffset) && startOffset < endOffset
      && 1 <= quantity <= MAX_QUANTITY
    }
  }

  /** Claims of one pool, in bundle order. */
  function ClaimsOn(claims: seq<Claim>, poolId: PoolId): (on: seq<Claim>)
    ensures ValidClaims(claims) ==> ValidClaims(on)
    ensures forall c :: c in on ==> c in claims && c.poolId == poolId
  {
    if claims == [] then []
    else
      var n := |claims| - 1;
      var earlier := ClaimsOn(claims[..n], poolId);
      if claims[n].poolId == poolId then earlier + [claims[n]] else earlier
  }

  /** Total quantity the claims hold at `t`. */
  function Usage(claims: seq<Claim>, t: int): int {
    if claims == [] then 0
    else
      var n := |claims| - 1;
      Usage(claims[..n], t) + if claims[n].interval.Contains(t) then claims[n].quantity else 0
  }

  // ---- Promises ----

  datatype PromiseState =
    | Held(expiresAt: int)
    | Committed
    | Released
    | Expired

  datatype ReplacementState =
    | ReplacedHeld(deadline: int)
    | ReplacedCommitted

  datatype Promise = Promise(
    id: PromiseId,
    state: PromiseState,
    bundle: Bundle,
    version: int,
    createdSequence: int,
    updatedSequence: int)
  {
    /** Held and committed promises consume capacity; released and expired ones do not. */
    predicate Active() {
      state.Held? || state.Committed?
    }

    predicate Touches(poolId: PoolId, interval: Interval) {
      exists i :: 0 <= i < |bundle| && bundle[i].poolId == poolId && bundle[i].interval.Overlaps(interval)
    }
  }

  /** A time-bounded reason why candidate claims cannot be admitted. */
  datatype AvailabilityConflict = AvailabilityConflict(
    poolId: PoolId,
    interval: Interval,
    required: int,
    available: int,
    deficit: int,
    promiseIds: seq<PromiseId>)

  /** Active promises on a pool that overlap an interval, in identity order. */
  function HoldersAmong(promises: map<PromiseId, Promise>, keys: seq<PromiseId>, poolId: PoolId, interval: Interval)
    : (ids: seq<PromiseId>)
    requires forall i :: 0 <= i < |keys| ==> keys[i] in promises
    ensures forall id :: id in ids <==>
                           id in keys && id in promises && promises[id].Active()
                           && promises[id].Touches(poolId, interval)
  {
    if keys == [] then []
    else
      var n := |keys| - 1;
      var earlier := HoldersAmong(promises, keys[..n], poolId, interval);
      if promises[keys[n]].Active() && promises[keys[n]].Touches(poolId, interval) then earlier + [keys[n]] else earlier
  }

  lemma {:induction false} HoldersIncrease(promises: map<PromiseId, Promise>, keys: seq<PromiseId>, pool: PoolId,
                                           interval: Interval)
    requires StrictlyIncreasing(keys) && forall i :: 0 <= i < |keys| ==> keys[i] in promises
    ensures StrictlyIncreasing(HoldersAmong(promises, keys, pool, interval))
  {
    if keys != [] {
      var n := |keys| - 1;
      HoldersIncrease(promises, keys[..n], pool, interval);
      var earlier := HoldersAmong(promises, keys[..n], pool, interval);
      forall i | 0 <= i < |earlier|
        ensures earlier[i] < keys[n]
      {
        var id := earlier[i];
        assert id in earlier && id in keys[..n];
      }
    }
  }

  function Holders(promises: map<PromiseId, Promise>, poolId: PoolId, interval: Interval): seq<PromiseId> {
    var keys := SortedKeys(promises.Keys);
    assert forall i :: 0 <= i < |keys| ==> keys[i] in keys;
    HoldersAmong(promises, keys, poolId, interval)
  }

  // ---- Pools ----

  datatype Unit = Unit(name: string, subunitsPerUnit: int)

  datatype Pool = Pool(id: PoolId, displayName: string, unit: Unit, curve: seq<CapacitySegment>)

  // ---- Commands ----

  datatype RevisionMode = Strict | Force

  datatype Operation =
    | CreateResourcePool(poolId: PoolId, displayName: string, unit: Unit, curve: seq<CapacitySegment>)
    | ReviseCapacity(poolId: PoolId, curve: seq<CapacitySegment>, mode: RevisionMode)
    | Hold(promiseId: PromiseId, bundle: Bundle, expiresAt: int)
    | HoldOneOf(promiseId: PromiseId, choice: seq<Bundle>, expiresAt: int)
    | HoldFirstSlot(promiseId: PromiseId, relative: seq<RelativeClaim>, earliest: int, latest: int, step: int,
                    expiresAt: int)
    | Commit(promiseId: PromiseId, expectedVersion: int)
    | Release(promiseId: PromiseId, expectedVersion: int)
    | Replace(promiseId: PromiseId, expectedVersion: int, newBundle: Bundle, newState: ReplacementState)
    | ProcessExpirations
  {
    /** What the validating constructors of the operation's parts accept. */
    ghost predicate Valid() {
      match this
      case CreateResourcePool(_, _, _, curve) => ValidCurve(curve)
      case ReviseCapacity(_, curve, _) => ValidCurve(curve)
      case Hold(_, bundle, _) => ValidBundle(bundle)
      case HoldOneOf(_, choice, _) => choice != [] && forall i :: 0 <= i < |choice| ==> ValidBundle(choice[i])
      case HoldFirstSlot(_, relative, earliest, latest, step, _) =>
        && relative != [] && (forall i :: 0 <= i < |relative| ==> relative[i].Valid())
        && FitsI64(earliest) && FitsI64(latest) && FitsI64(step)
      case Commit(_, _) => true
      case Release(_, _) => true
      case Replace(_, _, newBundle, _) => ValidBundle(newBundle)
      case ProcessExpirations => true
    }
  }

  /** A client's namespace and the key of one request within it. */
  datatype Identity = Identity(clientId: string, key: string)

  datatype Command = Command(identity: Identity, operation: Operation)

  // ---- Responses ----

  datatype CapacityDeficit = CapacityDeficit(
    poolId: PoolId,
    interval: Interval,
    quantity: int,
    promiseIds: seq<PromiseId>)

  datatype ChoiceConflict = ChoiceConflict(alternative: int, conflicts: seq<AvailabilityConflict>)

  datatype CommandResult =
    | ResourcePoolCreated(poolId: PoolId)
    | CapacityRevised(sequence: int, deficits: seq<CapacityDeficit>, promiseIds: seq<PromiseId>)
    | HoldHeld(promiseId: PromiseId)
    | HoldUnavailable(conflicts: seq<AvailabilityConflict>)
    | ChoiceHeld(promiseId: PromiseId, alternative: int)
    | ChoiceUnavailable(alternatives: seq<ChoiceConflict>)
    | SlotHeld(promiseId: PromiseId, start: int)
    | SlotUnavailable(attempts: int)
    | PromiseCommitted(promiseId: PromiseId, version: int)
    | PromiseReleased(promiseId: PromiseId, version: int)
    | PromiseReplaced(promiseId: PromiseId, version: int)
    | ReplaceUnavailable(conflicts: seq<AvailabilityConflict>)
    | ExpirationsProcessed(count: int)

  type Response = Result<CommandResult, DomainError>

  // ---- Events ----

  datatype EventKind =
    | ResourceCreated
    | CapacityChanged
    | HoldCreated
    | HoldCommitted
    | HoldReleased
    | HoldReplaced
    | HoldExpiry
    | DeficitCreated
    | DeficitChanged
    | DeficitResolved

  datatype EventData =
    | OnPool(poolId: PoolId)
    | OnPromise(promiseId: PromiseId, version: int)
    | OnDeficit(poolId: PoolId, interval: Interval, quantity: int, promiseIds: seq<PromiseId>)

  datatype Event = Event(sequence: int, timestamp: int, kind: EventKind, data: EventData)
}
