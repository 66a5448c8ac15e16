/**
 The deterministic transitions as functions on engine state. A transition returns the state it leaves
 behind together with its result: expirations processed before a rejection stay applied.
 */
module Transitions {
  import opened Results
  import opened Intervals
  import opened StepFunctions
  import opened SlackTimelines
  import opened CapacityCurves
  import opened Domain
  import opened OrderedKeys
  import opened TimelineRebuild
  import opened Admission
  import opened AvailabilityOracle
  import opened Promises

  /** The digest and response kept to answer exact retries. */
  datatype Record = Record(digest: seq<int>, response: Response)

  /** Authoritative state plus one derived timeline per pool, kept as its canonical points. */
  datatype EngineState = EngineState(
    pools: map<PoolId, Pool>,
    timelines: map<PoolId, seq<SlackPoint>>,
    promises: map<PromiseId, Promise>,
    events: seq<Event>,
    records: map<Identity, Record>,
    sequence: int)

  const EmptyState := EngineState(map[], map[], map[], [], map[], 0)

  /** A transition's final state and its result. */
  datatype Outcome<T> = Outcome(state: EngineState, result: Result<T, DomainError>)

  function NextSequence(st: EngineState): Result<int, DomainError> {
    if st.sequence >= U64_MAX then Err(SequenceOverflow) else Ok(st.sequence + 1)
  }

  // ---- Restoring a bundle's capacity ----

  function PoolsOf(claims: seq<Claim>): seq<PoolId> {
    SortedKeys(set i | 0 <= i < |claims| :: claims[i].poolId)
  }

  /** Gives back the claims one by one, with the index's overflow check. */
  ghost function GiveBack(points: seq<SlackPoint>, claims: seq<Claim>): Result<seq<SlackPoint>, DomainError> {
    if claims == [] then Ok(points)
    else
      var n := |claims| - 1;
      var earlier :- GiveBack(points, claims[..n]);
      if Admits(earlier, claims[n].interval, claims[n].quantity)
      then Ok(AddOn(earlier, claims[n].interval.start, claims[n].interval.end, claims[n].quantity))
      else Err(IndexOverflow)
  }

  /** Restored copies of the timelines of the first `k` pools. */
  ghost function RestoredUpTo(st: EngineState, bundle: Bundle, pools: seq<PoolId>, k: nat)
    : Result<map<PoolId, seq<SlackPoint>>, DomainError>
    requires k <= |pools|
  {
    if k == 0 then Ok(map[])
    else
      var earlier :- RestoredUpTo(st, bundle, pools, k - 1);
      var pool := pools[k - 1];
      if pool !in st.timelines then Err(ResourcePoolNotFound)
      else
        var points :- GiveBack(st.timelines[pool], ClaimsOn(bundle, pool));
        Ok(earlier[pool := points])
  }

  ghost function RestoredTimelines(st: EngineState, bundle: Bundle)
    : Result<map<PoolId, seq<SlackPoint>>, DomainError>
  {
    RestoredUpTo(st, bundle, PoolsOf(bundle), |PoolsOf(bundle)|)
  }

  // ---- Evaluating a bundle ----

  datatype BundleAdmission =
    | BundleFits(timelines: map<PoolId, seq<SlackPoint>>)
    | BundleBlocked(conflicts: seq<AvailabilityConflict>)

  /** Evaluation of one pool: overrides come with the current timeline as deficit floor. */
  function PoolSweep(st: EngineState, pool: PoolId, claims: seq<Claim>, overrides: map<PoolId, seq<SlackPoint>>)
    : Result<Sweep, DomainError>
  {
    if pool !in st.timelines then Err(ResourcePoolNotFound)
    else if pool in overrides then Ok(Sweep(pool, st.promises, claims, overrides[pool], Some(st.timelines[pool])))
    else Ok(Sweep(pool, st.promises, claims, st.timelines[pool], None))
  }

  /** Adjusted timelines and conflicts of the first `k` pools. */
  datatype Evaluated = Evaluated(timelines: map<PoolId, seq<SlackPoint>>, conflicts: seq<AvailabilityConflict>)

  function EvaluatedUpTo(st: EngineState, bundle: Bundle, overrides: map<PoolId, seq<SlackPoint>>,
                         pools: seq<PoolId>, k: nat): Result<Evaluated, DomainError>
    requires k <= |pools|
  {
    if k == 0 then Ok(Evaluated(map[], []))
    else
      var earlier :- EvaluatedUpTo(st, bundle, overrides, pools, k - 1);
      NextEvaluated(st, bundle, overrides, pools[k - 1], earlier)
  }

  /** Adds one pool's verdict. */
  function NextEvaluated(st: EngineState, bundle: Bundle, overrides: map<PoolId, seq<SlackPoint>>, pool: PoolId,
                         earlier: Evaluated): Result<Evaluated, DomainError>
  {
    var sweep :- PoolSweep(st, pool, ClaimsOn(bundle, pool), overrides);
    var verdict :- sweep.Verdict();
    match verdict
    case Available(points) => Ok(earlier.(timelines := earlier.timelines[pool := points]))
    case Unavailable(conflicts) => Ok(earlier.(conflicts := earlier.conflicts + conflicts))
  }

  /** Canonical conflict order: start, then pool, then end. */
  predicate ConflictBefore(a: AvailabilityConflict, b: AvailabilityConflict) {
    || a.interval.start < b.interval.start
    || (a.interval.start == b.interval.start && a.poolId < b.poolId)
    || (a.interval.start == b.interval.start && a.poolId == b.poolId && a.interval.end <= b.interval.end)
  }

  function InsertConflict(sorted: seq<AvailabilityConflict>, c: AvailabilityConflict): seq<AvailabilityConflict> {
    if sorted == [] || ConflictBefore(sorted[|sorted| - 1], c) then sorted + [c]
    else
      var n := |sorted| - 1;
      InsertConflict(sorted[..n], c) + [sorted[n]]
  }

  function SortConflicts(conflicts: seq<AvailabilityConflict>): seq<AvailabilityConflict> {
    if conflicts == [] then []
    else InsertConflict(SortConflicts(conflicts[..|conflicts| - 1]), conflicts[|conflicts| - 1])
  }

  function EvaluateBundle(st: EngineState, bundle: Bundle, overrides: map<PoolId, seq<SlackPoint>>)
    : Result<BundleAdmission, DomainError>
  {
    var pools := PoolsOf(bundle);
    var evaluated :- EvaluatedUpTo(st, bundle, overrides, pools, |pools|);
    if evaluated.conflicts == [] then Ok(BundleFits(evaluated.timelines))
    else Ok(BundleBlocked(SortConflicts(evaluated.conflicts)))
  }

  // ---- Publishing one promise transition ----

  /** Stores the promise and timelines, takes the sequence and appends its event. */
  function Publish(st: EngineState, p: Promise, timelines: map<PoolId, seq<SlackPoint>>, sequence: int, now: int,
                   kind: EventKind): EngineState
  {
    st.(promises := st.promises[p.id := p],
        timelines := st.timelines + timelines,
        sequence := sequence,
        events := st.events + [Event(sequence, now, kind, OnPromise(p.id, p.version))])
  }

  // ---- Expirations ----

  predicate Due(p: Promise, now: int) {
    p.state.Held? && p.state.expiresAt <= now
  }

  /** Stable insertion of a due hold by deadline. */
  function InsertDue(promises: map<PromiseId, Promise>, due: seq<PromiseId>, id: PromiseId): seq<PromiseId> {
    if due == [] || Deadline(promises, due[|due| - 1]) <= Deadline(promises, id) then due + [id]
    else
      var n := |due| - 1;
      InsertDue(promises, due[..n], id) + [due[n]]
  }

  function Deadline(promises: map<PromiseId, Promise>, id: PromiseId): int {
    if id in promises && promises[id].state.Held? then promises[id].state.expiresAt else 0
  }

  /** Due holds among the keys, by deadline and then identity. */
  function DueAmong(promises: map<PromiseId, Promise>, keys: seq<PromiseId>, now: int): seq<PromiseId> {
    if keys == [] then []
    else
      var n := |keys| - 1;
      var earlier := DueAmong(promises, keys[..n], now);
      if keys[n] in promises && Due(promises[keys[n]], now) then InsertDue(promises, earlier, keys[n]) else earlier
  }

  function DueHolds(st: EngineState, now: int): seq<PromiseId> {
    DueAmong(st.promises, SortedKeys(st.promises.Keys), now)
  }

  ghost function ExpireOne(st: EngineState, id: PromiseId, now: int): Outcome<()> {
    match NextSequence(st)
    case Err(error) => Outcome(st, Err(error))
    case Ok(sequence) =>
      if id !in st.promises then Outcome(st, Err(PromiseNotFound))
      else
        match Expiring(st.promises[id], now, sequence)
        case Err(error) => Outcome(st, Err(error))
        case Ok(expired) =>
          match RestoredTimelines(st, expired.bundle)
          case Err(error) => Outcome(st, Err(error))
          case Ok(timelines) => Outcome(Publish(st, expired, timelines, sequence, now, HoldExpiry), Ok(()))
  }

  /** Expires the first `k` due holds, stopping at the first failure. */
  ghost function ExpireUpTo(st: EngineState, due: seq<PromiseId>, k: nat, now: int): Outcome<int>
    requires k <= |due|
  {
    if k == 0 then Outcome(st, Ok(0))
    else
      var earlier := ExpireUpTo(st, due, k - 1, now);
      if earlier.result.Err? then earlier
      else
        var one := ExpireOne(earlier.state, due[k - 1], now);
        Outcome(one.state, if one.result.Ok? then Ok(k) else Err(one.result.error))
  }

  ghost function Expirations(st: EngineState, now: int): Outcome<int> {
    var due := DueHolds(st, now);
    ExpireUpTo(st, due, |due|, now)
  }

  // ---- Holding ----

  /** Publishes an accepted hold under a prepared identity. */
  function AcceptHold(st: EngineState, id: PromiseId, bundle: Bundle, expiresAt: int, now: int,
                      timelines: map<PoolId, seq<SlackPoint>>): Outcome<()>
  {
    match NextSequence(st)
    case Err(error) => Outcome(st, Err(error))
    case Ok(sequence) =>
      if expiresAt <= now then Outcome(st, Err(InvalidExpiration))
      else
        var p := Promise(id, Held(expiresAt), bundle, 1, sequence, sequence);
        Outcome(Publish(st, p, timelines, sequence, now, HoldCreated), Ok(()))
  }

  function HoldReady(st: EngineState, id: PromiseId, expiresAt: int, now: int): Result<(), DomainError> {
    if id in st.promises then Err(PromiseAlreadyExists)
    else if expiresAt <= now then Err(InvalidExpiration)
    else Ok(())
  }

  function HoldBundle(st: EngineState, id: PromiseId, bundle: Bundle, expiresAt: int, now: int)
    : Outcome<CommandResult>
  {
    match HoldReady(st, id, expiresAt, now)
    case Err(error) => Outcome(st, Err(error))
    case Ok(_) =>
      match EvaluateBundle(st, bundle, map[])
      case Err(error) => Outcome(st, Err(error))
      case Ok(BundleBlocked(conflicts)) => Outcome(st, Ok(HoldUnavailable(conflicts)))
      case Ok(BundleFits(timelines)) =>
        var accepted := AcceptHold(st, id, bundle, expiresAt, now, timelines);
        Outcome(accepted.state, if accepted.result.Ok? then Ok(HoldHeld(id)) else Err(accepted.result.error))
  }

  /** Conflicts of the first `k` alternatives, unless one of them fits or fails. */
  datatype ChoiceScan =
    | AllBlocked(conflicts: seq<ChoiceConflict>)
    | FirstFit(alternative: nat, timelines: map<PoolId, seq<SlackPoint>>)

  function ScanChoice(st: EngineState, choice: seq<Bundle>, k: nat): Result<ChoiceScan, DomainError>
    requires k <= |choice|
  {
    if k == 0 then Ok(AllBlocked([]))
    else
      var earlier :- ScanChoice(st, choice, k - 1);
      if earlier.FirstFit? then Ok(earlier)
      else
        var admission :- EvaluateBundle(st, choice[k - 1], map[]);
        match admission
        case BundleFits(timelines) => Ok(FirstFit(k - 1, timelines))
        case BundleBlocked(conflicts) => Ok(AllBlocked(earlier.conflicts + [ChoiceConflict(k - 1, conflicts)]))
  }

  lemma {:induction false} FirstFitBound(st: EngineState, choice: seq<Bundle>, k: nat)
    requires k <= |choice|
    ensures var scan := ScanChoice(st, choice, k);
            scan.Ok? && scan.value.FirstFit? ==> scan.value.alternative < k
  {
    if k > 0 {
      FirstFitBound(st, choice, k - 1);
    }
  }

  function HoldChoice(st: EngineState, id: PromiseId, choice: seq<Bundle>, expiresAt: int, now: int)
    : Outcome<CommandResult>
  {
    match HoldReady(st, id, expiresAt, now)
    case Err(error) => Outcome(st, Err(error))
    case Ok(_) =>
      FirstFitBound(st, choice, |choice|);
      match ScanChoice(st, choice, |choice|)
      case Err(error) => Outcome(st, Err(error))
      case Ok(AllBlocked(conflicts)) => Outcome(st, Ok(ChoiceUnavailable(conflicts)))
      case Ok(FirstFit(alternative, timelines)) =>
        var accepted := AcceptHold(st, id, choice[alternative], expiresAt, now, timelines);
        Outcome(accepted.state,
                if accepted.result.Ok? then Ok(ChoiceHeld(id, alternative)) else Err(accepted.result.error))
  }

  // ---- First-slot search ----

  /** Translates relative claims to a candidate start with checked 64-bit endpoints. */
  function Materialize(relative: seq<RelativeClaim>, start: int): Result<Bundle, DomainError> {
    if relative == [] then Ok([])
    else
      var n := |relative| - 1;
      var earlier :- Materialize(relative[..n], start);
      var from, to := start + relative[n].startOffset, start + relative[n].endOffset;
      if !FitsI64(from) || !FitsI64(to) then Err(TimestampOverflow)
      else Ok(earlier + [Claim(relative[n].poolId, Interval(from, to), relative[n].quantity)])
  }

  datatype SlotSearch =
    | SlotFound(start: int, bundle: Bundle, timelines: map<PoolId, seq<SlackPoint>>)
    | NoSlot(attempts: int)

  /** Tries `start`, then steps on while the next start is representable and within range. */
  function SearchFrom(st: EngineState, relative: seq<RelativeClaim>, start: int, latest: int, step: int, attempts: int)
    : Result<SlotSearch, DomainError>
    requires 0 < step
    decreases latest - start
  {
    var bundle :- Materialize(relative, start);
    var admission :- EvaluateBundle(st, bundle, map[]);
    if admission.BundleFits? then Ok(SlotFound(start, bundle, admission.timelines))
    else if start == latest || !FitsI64(start + step) || start + step > latest then Ok(NoSlot(attempts + 1))
    else SearchFrom(st, relative, start + step, latest, step, attempts + 1)
  }

  function SearchSlots(st: EngineState, relative: seq<RelativeClaim>, earliest: int, latest: int, step: int)
    : Result<SlotSearch, DomainError>
  {
    if earliest > latest then Err(InvalidSearchRange)
    else if step <= 0 then Err(InvalidStep)
    else SearchFrom(st, relative, earliest, latest, step, 0)
  }

  function HoldSlot(st: EngineState, id: PromiseId, relative: seq<RelativeClaim>, earliest: int, latest: int, step: int,
                    expiresAt: int, now: int): Outcome<CommandResult>
  {
    match HoldReady(st, id, expiresAt, now)
    case Err(error) => Outcome(st, Err(error))
    case Ok(_) =>
      match SearchSlots(st, relative, earliest, latest, step)
      case Err(error) => Outcome(st, Err(error))
      case Ok(NoSlot(attempts)) => Outcome(st, Ok(SlotUnavailable(attempts)))
      case Ok(SlotFound(start, bundle, timelines)) =>
        var accepted := AcceptHold(st, id, bundle, expiresAt, now, timelines);
        Outcome(accepted.state, if accepted.result.Ok? then Ok(SlotHeld(id, start)) else Err(accepted.result.error))
  }

  // ---- Commit, release, replace ----

  /** Looks up a promise that has not already expired. */
  function Unexpired(st: EngineState, id: PromiseId): Result<Promise, DomainError> {
    if id !in st.promises then Err(PromiseNotFound)
    else if st.promises[id].state.Expired? then Err(HoldExpired)
    else Ok(st.promises[id])
  }

  function CommitPromise(st: EngineState, id: PromiseId, expectedVersion: int, now: int): Outcome<CommandResult> {
    match NextSequence(st)
    case Err(error) => Outcome(st, Err(error))
    case Ok(sequence) =>
      match Unexpired(st, id)
      case Err(error) => Outcome(st, Err(error))
      case Ok(p) =>
        match Committing(p, expectedVersion, now, sequence)
        case Err(error) => Outcome(st, Err(error))
        case Ok(committed) =>
          Outcome(Publish(st, committed.(id := id), map[], sequence, now, HoldCommitted),
                  Ok(PromiseCommitted(id, committed.version)))
  }

  ghost function ReleasePromise(st: EngineState, id: PromiseId, expectedVersion: int, now: int)
    : Outcome<CommandResult>
  {
    match NextSequence(st)
    case Err(error) => Outcome(st, Err(error))
    case Ok(sequence) =>
      match Unexpired(st, id)
      case Err(error) => Outcome(st, Err(error))
      case Ok(p) =>
        match Releasing(p, expectedVersion, now, sequence)
        case Err(error) => Outcome(st, Err(error))
        case Ok(released) =>
          match RestoredTimelines(st, released.bundle)
          case Err(error) => Outcome(st, Err(error))
          case Ok(timelines) =>
            Outcome(Publish(st, released.(id := id), timelines, sequence, now, HoldReleased),
                    Ok(PromiseReleased(id, released.version)))
  }

  function WithoutPromise(ids: seq<PromiseId>, id: PromiseId): seq<PromiseId> {
    if ids == [] then []
    else
      var n := |ids| - 1;
      var earlier := WithoutPromise(ids[..n], id);
      if ids[n] == id then earlier else earlier + [ids[n]]
  }

  /** Removes the replaced promise from every conflict's holders. */
  function ForgetPromise(conflicts: seq<AvailabilityConflict>, id: PromiseId): (r: seq<AvailabilityConflict>)
    ensures |r| == |conflicts|
  {
    seq(|conflicts|, i requires 0 <= i < |conflicts| =>
      conflicts[i].(promiseIds := WithoutPromise(conflicts[i].promiseIds, id)))
  }

  ghost function ReplacePromise(st: EngineState, id: PromiseId, expectedVersion: int, newBundle: Bundle,
                                newState: ReplacementState, now: int): Outcome<CommandResult>
  {
    match Unexpired(st, id)
    case Err(error) => Outcome(st, Err(error))
    case Ok(p) =>
      match NextSequence(st)
      case Err(error) => Outcome(st, Err(error))
      case Ok(sequence) =>
        match Replacing(p, expectedVersion, newBundle, newState, now, sequence)
        case Err(error) => Outcome(st, Err(error))
        case Ok(replaced) =>
          match RestoredTimelines(st, p.bundle)
          case Err(error) => Outcome(st, Err(error))
          case Ok(restored) =>
            match EvaluateBundle(st, newBundle, restored)
            case Err(error) => Outcome(st, Err(error))
            case Ok(BundleBlocked(conflicts)) => Outcome(st, Ok(ReplaceUnavailable(ForgetPromise(conflicts, id))))
            case Ok(BundleFits(adjusted)) =>
              Outcome(Publish(st, replaced.(id := id), restored + adjusted, sequence, now, HoldReplaced),
                      Ok(PromiseReplaced(id, replaced.version)))
  }

  // ---- Pools ----

  /** Claims of active promises on a pool, in promise order. */
  function ActiveAmong(promises: map<PromiseId, Promise>, keys: seq<PromiseId>, pool: PoolId): seq<Claim> {
    if keys == [] then []
    else
      var n := |keys| - 1;
      var earlier := ActiveAmong(promises, keys[..n], pool);
      if keys[n] in promises && promises[keys[n]].Active()
      then earlier + ClaimsOn(promises[keys[n]].bundle, pool) else earlier
  }

  function ActiveClaims(promises: map<PromiseId, Promise>, pool: PoolId): seq<Claim> {
    ActiveAmong(promises, SortedKeys(promises.Keys), pool)
  }

  /** Canonical points of capacity minus usage. */
  function RebuiltPoints(segments: seq<CapacitySegment>, claims: seq<Claim>): seq<SlackPoint> {
    Canon(RawPoints(segments, claims, SortedKeys(SegmentEdges(segments) + Edges(claims))))
  }

  ghost function Rebuild(segments: seq<CapacitySegment>, claims: seq<Claim>): Result<seq<SlackPoint>, DomainError> {
    if Representable(segments, claims) then Ok(RebuiltPoints(segments, claims)) else Err(IndexOverflow)
  }

  ghost function CreatePool(st: EngineState, pool: Pool, now: int): Outcome<CommandResult> {
    if pool.id in st.pools then Outcome(st, Err(ResourcePoolAlreadyExists))
    else
      match Rebuild(pool.curve, [])
      case Err(error) => Outcome(st, Err(error))
      case Ok(points) =>
        match NextSequence(st)
        case Err(error) => Outcome(st, Err(error))
        case Ok(sequence) =>
          Outcome(st.(pools := st.pools[pool.id := pool],
                      timelines := st.timelines[pool.id := points],
                      sequence := sequence,
                      events := st.events + [Event(sequence, now, ResourceCreated, OnPool(pool.id))]),
                  Ok(ResourcePoolCreated(pool.id)))
  }

  /** Deficit intervals of a pool with the active promises overlapping each. */
  function PoolDeficits(st: EngineState, pool: PoolId, deficits: seq<SlackDeficit>): (r: seq<CapacityDeficit>)
    ensures |r| == |deficits|
  {
    seq(|deficits|, i requires 0 <= i < |deficits| =>
      CapacityDeficit(pool, deficits[i].interval, deficits[i].amount, Holders(st.promises, pool, deficits[i].interval)))
  }

  predicate OverlapsDeficit(deficits: seq<CapacityDeficit>, interval: Interval) {
    exists i :: 0 <= i < |deficits| && deficits[i].interval.Overlaps(interval)
  }

  predicate SameDeficit(deficits: seq<CapacityDeficit>, d: CapacityDeficit) {
    exists i :: 0 <= i < |deficits| && deficits[i].interval == d.interval && deficits[i].quantity == d.quantity
  }

  function DeficitEvent(d: CapacityDeficit, sequence: int, now: int, kind: EventKind): Event {
    Event(sequence, now, kind, OnDeficit(d.poolId, d.interval, d.quantity, d.promiseIds))
  }

  /** Former deficits that overlap no current one are resolved. */
  function ResolvedEvents(previous: seq<CapacityDeficit>, current: seq<CapacityDeficit>, sequence: int, now: int)
    : seq<Event>
  {
    if previous == [] then []
    else
      var n := |previous| - 1;
      var earlier := ResolvedEvents(previous[..n], current, sequence, now);
      if OverlapsDeficit(current, previous[n].interval) then earlier
      else earlier + [DeficitEvent(previous[n], sequence, now, DeficitResolved)]
  }

  /** Current deficits that are new or changed. */
  function CurrentEvents(previous: seq<CapacityDeficit>, current: seq<CapacityDeficit>, sequence: int, now: int)
    : seq<Event>
  {
    if current == [] then []
    else
      var n := |current| - 1;
      var d := current[n];
      var earlier := CurrentEvents(previous, current[..n], sequence, now);
      if SameDeficit(previous, d) then earlier
      else if OverlapsDeficit(previous, d.interval) then earlier + [DeficitEvent(d, sequence, now, DeficitChanged)]
      else earlier + [DeficitEvent(d, sequence, now, DeficitCreated)]
  }

  function AffectedPromises(deficits: seq<CapacityDeficit>): seq<PromiseId> {
    SortedKeys(set i, j | 0 <= i < |deficits| && 0 <= j < |deficits[i].promiseIds| :: deficits[i].promiseIds[j])
  }

  ghost function RevisePool(st: EngineState, pool: PoolId, curve: seq<CapacitySegment>, mode: RevisionMode, now: int)
    : Outcome<CommandResult>
  {
    if pool !in st.pools || pool !in st.timelines then Outcome(st, Err(ResourcePoolNotFound))
    else
      match Rebuild(curve, ActiveClaims(st.promises, pool))
      case Err(error) => Outcome(st, Err(error))
      case Ok(points) =>
        var previous := PoolDeficits(st, pool, Deficits(st.timelines[pool]));
        var current := PoolDeficits(st, pool, Deficits(points));
        if mode.Strict? && current != [] then Outcome(st, Err(CapacityRevisionCreatesDeficit))
        else
          match NextSequence(st)
          case Err(error) => Outcome(st, Err(error))
          case Ok(sequence) =>
            Outcome(st.(pools := st.pools[pool := st.pools[pool].(curve := curve)],
                        timelines := st.timelines[pool := points],
                        sequence := sequence,
                        events := st.events + [Event(sequence, now, CapacityChanged, OnPool(pool))]
                                  + ResolvedEvents(previous, current, sequence, now)
                                  + CurrentEvents(previous, current, sequence, now)),
                    Ok(CapacityRevised(sequence, current, AffectedPromises(current))))
  }

  // ---- Commands ----

  /** The requested operation, after due expirations have been processed. */
  ghost function Requested(st: EngineState, operation: Operation, expired: int, now: int): Outcome<CommandResult> {
    match operation
    case CreateResourcePool(pool, displayName, unit, curve) => CreatePool(st, Pool(pool, displayName, unit, curve), now)
    case ReviseCapacity(pool, curve, mode) => RevisePool(st, pool, curve, mode, now)
    case Hold(id, bundle, expiresAt) => HoldBundle(st, id, bundle, expiresAt, now)
    case HoldOneOf(id, choice, expiresAt) => HoldChoice(st, id, choice, expiresAt, now)
    case HoldFirstSlot(id, relative, earliest, latest, step, expiresAt) =>
      HoldSlot(st, id, relative, earliest, latest, step, expiresAt, now)
    case Commit(id, expectedVersion) => CommitPromise(st, id, expectedVersion, now)
    case Release(id, expectedVersion) => ReleasePromise(st, id, expectedVersion, now)
    case Replace(id, expectedVersion, newBundle, newState) =>
      ReplacePromise(st, id, expectedVersion, newBundle, newState, now)
    case ProcessExpirations => Outcome(st, Ok(ExpirationsProcessed(expired)))
  }

  /** One first-seen operation at an authoritative timestamp. */
  ghost function ApplyOnce(st: EngineState, operation: Operation, now: int): Outcome<CommandResult> {
    var expired := Expirations(st, now);
    match expired.result
    case Err(error) => Outcome(expired.state, Err(error))
    case Ok(count) => Requested(expired.state, operation, count, now)
  }

  /** Published state with its publication revision. */
  datatype Published = Published(state: EngineState, revision: int)

  /** Applies a command: exact retries answer from the record, first-seen commands run once. */
  ghost function Apply(p: Published, digest: Operation -> seq<int>, command: Command, now: int): (Published, Response) {
    var hash := digest(command.operation);
    if command.identity in p.state.records then
      var record := p.state.records[command.identity];
      if record.digest != hash then (p, Err(IdempotencyConflict)) else (p, record.response)
    else if p.revision >= U128_MAX then (p, Err(PublicationRevisionOverflow))
    else
      var outcome := ApplyOnce(p.state, command.operation, now);
      (Published(outcome.state.(records := outcome.state.records[command.identity := Record(hash, outcome.result)]),
                 p.revision + 1),
       outcome.result)
  }
}
