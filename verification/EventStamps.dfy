/** Every event an operation logs carries that operation's authoritative timestamp. */
module EventStamps {
  import opened Results
  import opened Intervals
  import opened StepFunctions
  import opened SlackTimelines
  import opened CapacityCurves
  import opened Domain
  import opened OrderedKeys
  import opened TimelineRebuild
  import opened Promises
  import opened Transitions
  import opened EngineSafety
  import opened Batches

  /** Events logged on the way carry this timestamp. */
  ghost predicate Stamped(before: EngineState, after: EngineState, now: int) {
    before.events <= after.events
    && forall i :: |before.events| <= i < |after.events| ==> after.events[i].timestamp == now
  }

  lemma StampedTransitive(a: EngineState, b: EngineState, c: EngineState, now: int)
    requires Stamped(a, b, now) && Stamped(b, c, now)
    ensures Stamped(a, c, now)
  {
  }

  lemma {:induction false} ExpirationsStamped(st: EngineState, due: seq<PromiseId>, k: nat, now: int)
    requires k <= |due|
    ensures Stamped(st, ExpireUpTo(st, due, k, now).state, now)
  {
    hide RestoredTimelines;
    hide Expiring;
    if k > 0 {
      ExpirationsStamped(st, due, k - 1, now);
    }
  }

  lemma {:induction false} ResolvedStamped(previous: seq<CapacityDeficit>, current: seq<CapacityDeficit>,
                                           sequence: int, now: int)
    ensures forall i :: 0 <= i < |ResolvedEvents(previous, current, sequence, now)| ==>
                          ResolvedEvents(previous, current, sequence, now)[i].timestamp == now
  {
    if previous != [] {
      ResolvedStamped(previous[..|previous| - 1], current, sequence, now);
    }
  }

  lemma {:induction false} CurrentStamped(previous: seq<CapacityDeficit>, current: seq<CapacityDeficit>, sequence: int,
                                          now: int)
    ensures forall i :: 0 <= i < |CurrentEvents(previous, current, sequence, now)| ==>
                          CurrentEvents(previous, current, sequence, now)[i].timestamp == now
  {
    if current != [] {
      CurrentStamped(previous, current[..|current| - 1], sequence, now);
    }
  }

  lemma RevisionStamped(st: EngineState, pool: PoolId, curve: seq<CapacitySegment>, mode: RevisionMode, now: int)
    ensures Stamped(st, RevisePool(st, pool, curve, mode, now).state, now)
  {
    hide ActiveClaims;
    hide RebuiltPoints;
    hide Deficits;
    hide ResolvedEvents;
    hide CurrentEvents;
    hide AffectedPromises;
    hide PoolDeficits;
    hide Representable;
    if RevisePool(st, pool, curve, mode, now).result.Ok? {
      var previous := PoolDeficits(st, pool, Deficits(st.timelines[pool]));
      var current := PoolDeficits(st, pool, Deficits(RebuiltPoints(curve, ActiveClaims(st.promises, pool))));
      ResolvedStamped(previous, current, st.sequence + 1, now);
      CurrentStamped(previous, current, st.sequence + 1, now);
    }
  }

  lemma RequestedStamped(st: EngineState, operation: Operation, expired: int, now: int)
    ensures Stamped(st, Requested(st, operation, expired, now).state, now)
  {
    hide EvaluateBundle;
    hide RestoredTimelines;
    hide ScanChoice;
    hide SearchSlots;
    hide Rebuild;
    hide RevisePool;
    if operation.ReviseCapacity? {
      RevisionStamped(st, operation.poolId, operation.curve, operation.mode, now);
    }
  }

  lemma ApplyOnceStamped(st: EngineState, operation: Operation, now: int)
    ensures Stamped(st, ApplyOnce(st, operation, now).state, now)
  {
    hide ExpireUpTo;
    hide DueHolds;
    hide Requested;
    var expired := Expirations(st, now);
    ExpirationsStamped(st, DueHolds(st, now), |DueHolds(st, now)|, now);
    if expired.result.Ok? {
      RequestedStamped(expired.state, operation, expired.result.value, now);
      StampedTransitive(st, expired.state, Requested(expired.state, operation, expired.result.value, now).state, now);
    }
  }

  /** The item's events carry its timestamp, which some request supplied. */
  ghost predicate ItemStamped(item: Item, requests: seq<Request>) {
    && (forall i :: 0 <= i < |item.transition.events| ==> item.transition.events[i].timestamp == item.timestamp)
    && exists r :: 0 <= r < |requests| && requests[r].now == item.timestamp
  }

  ghost predicate AllStamped(items: seq<Item>, requests: seq<Request>) {
    forall i :: 0 <= i < |items| ==> ItemStamped(items[i], requests)
  }

  lemma OneStamped(base: EngineState, digest: Operation -> seq<int>, preparing: Preparing, requests: seq<Request>,
                   r: nat)
    requires r < |requests| && AllStamped(preparing.items, requests)
    ensures AllStamped(PrepareOne(base, digest, preparing, requests[r]).items, requests)
  {
    hide ApplyOnce;
    hide ChangedAmong;
    ApplyOnceStamped(preparing.state, requests[r].command.operation, requests[r].now);
  }

  /** Every prepared item is stamped with its request's timestamp. */
  lemma {:induction false} ItemsStamped(base: EngineState, digest: Operation -> seq<int>, requests: seq<Request>,
                                        j: nat)
    requires j <= |requests|
    ensures AllStamped(PrepareUpTo(base, digest, requests, j).items, requests)
  {
    hide PrepareOne;
    hide ItemStamped;
    if j > 0 {
      ItemsStamped(base, digest, requests, j - 1);
      OneStamped(base, digest, PrepareUpTo(base, digest, requests, j - 1), requests, j - 1);
    }
  }
}
