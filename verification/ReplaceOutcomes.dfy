/**
 What a replacement answers and leaves behind, told by slack before it: with the old bundle given back,
 where the new one falls short, and by which floor.
 */
module ReplaceOutcomes {
  import opened Results
  import opened Intervals
  import opened StepFunctions
  import opened CapacityCurves
  import opened Domain
  import opened OrderedKeys
  import opened TimelineRebuild
  import opened Admission
  import opened Promises
  import opened Transitions
  import opened ActiveUsage
  import opened EngineInvariants
  import opened BundleAdmissions
  import opened BundleVerdicts
  import opened EngineSteps
  import opened EngineGuarantees
  import opened ReplacementRules
  import opened RevisionOutcomes
  import opened ConflictReports
  import opened CommandOutcomes

  // ---- Replacing ----

  /** The same conflicts with this promise left out of their holders. */
  ghost predicate LeavesOut(conflicts: seq<AvailabilityConflict>, reported: seq<AvailabilityConflict>, id: PromiseId) {
    && |reported| == |conflicts|
    && forall i :: 0 <= i < |conflicts| ==>
                     && reported[i] == conflicts[i].(promiseIds := reported[i].promiseIds)
                     && StrictlyIncreasing(reported[i].promiseIds)
                     && forall x :: x in reported[i].promiseIds <==> x in conflicts[i].promiseIds && x != id
  }

  lemma {:induction false} WithoutExact(ids: seq<PromiseId>, id: PromiseId)
    requires StrictlyIncreasing(ids)
    ensures StrictlyIncreasing(WithoutPromise(ids, id))
    ensures forall x :: x in WithoutPromise(ids, id) <==> x in ids && x != id
  {
    if ids != [] {
      var n := |ids| - 1;
      WithoutExact(ids[..n], id);
      var earlier := WithoutPromise(ids[..n], id);
      forall i | 0 <= i < |earlier|
        ensures earlier[i] < ids[n]
      {
        var x := earlier[i];
        assert x in earlier && x in ids[..n];
      }
    }
  }

  lemma ForgottenLeavesOut(st: EngineState, freed: seq<Claim>, taken: seq<Claim>, conflicts: seq<AvailabilityConflict>,
                           id: PromiseId)
    requires ConflictsTold(st, freed, taken, conflicts)
    ensures LeavesOut(conflicts, ForgetPromise(conflicts, id), id)
  {
    hide PoolsOf, ShortAt, FreedSlack, Separate, LiveHolder;
    forall i | 0 <= i < |conflicts|
      ensures StrictlyIncreasing(conflicts[i].promiseIds)
    {
      var c := conflicts[i];
      assert c in conflicts && ConflictTold(st, freed, taken, c);
    }
    forall i | 0 <= i < |conflicts|
      ensures var ids := ForgetPromise(conflicts, id)[i].promiseIds;
              StrictlyIncreasing(ids) && forall x :: x in ids <==> x in conflicts[i].promiseIds && x != id
    {
      WithoutExact(conflicts[i].promiseIds, id);
    }
  }

  /** Why a replacement is refused before it is evaluated, in the order it is noticed. */
  predicate ReplaceRefused(st: EngineState, id: PromiseId, expected: int, newState: ReplacementState, now: int,
                           error: DomainError)
  {
    match error
    case PromiseNotFound => id !in st.promises
    case HoldExpired =>
      && id in st.promises && DeadHold(st.promises[id], now)
      && (st.promises[id].state.Held? ==> st.sequence < U64_MAX && st.promises[id].version == expected)
    case SequenceOverflow => id in st.promises && !st.promises[id].state.Expired? && st.sequence == U64_MAX
    case VersionConflict =>
      && id in st.promises && !st.promises[id].state.Expired? && st.sequence < U64_MAX
      && st.promises[id].version != expected
    case InvalidPromiseState =>
      && id in st.promises && st.promises[id].state.Released? && st.sequence < U64_MAX
      && st.promises[id].version == expected
    case InvalidExpiration =>
      && id in st.promises && (LiveHold(st.promises[id], now) || st.promises[id].state.Committed?)
      && st.sequence < U64_MAX && st.promises[id].version == expected
      && newState.ReplacedHeld? && newState.deadline <= now
    case VersionOverflow =>
      && id in st.promises && (LiveHold(st.promises[id], now) || st.promises[id].state.Committed?)
      && st.sequence < U64_MAX && st.promises[id].version == expected == U64_MAX
      && (newState.ReplacedHeld? ==> now < newState.deadline)
    case _ => false
  }

  /** How a replacement is answered, and what it leaves behind. */
  ghost predicate ReplaceAnswered(st: EngineState, id: PromiseId, expected: int, newBundle: Bundle,
                                  newState: ReplacementState, now: int, outcome: Outcome<CommandResult>)
  {
    match outcome.result
    case Ok(PromiseReplaced(replaced, version)) =>
      && replaced == id && version == expected + 1 && Replaceable(st, id, expected, newState, now)
      && FaultFree(st, st.promises[id].bundle, newBundle) && HasRoomFor(st, st.promises[id].bundle, newBundle)
      && ReplacedAtomically(st, outcome.state, id, newBundle, newState)
      && Logged(st, outcome.state, now, HoldReplaced, OnPromise(id, expected + 1))
    case Ok(ReplaceUnavailable(reported)) =>
      && outcome.state == st && Replaceable(st, id, expected, newState, now)
      && FaultFree(st, st.promises[id].bundle, newBundle) && !HasRoomFor(st, st.promises[id].bundle, newBundle)
      && exists conflicts :: ConflictsTold(st, st.promises[id].bundle, newBundle, conflicts)
                             && LeavesOut(conflicts, reported, id)
    case Err(error) =>
      && outcome.state == st
      && (|| ReplaceRefused(st, id, expected, newState, now, error)
          || (Replaceable(st, id, expected, newState, now) && FirstFault(st, st.promises[id].bundle, newBundle, error)))
    case _ => false
  }

  lemma ReplacingRefused(st: EngineState, id: PromiseId, expected: int, newBundle: Bundle, newState: ReplacementState,
                         now: int)
    requires Coherent(st) && !Replaceable(st, id, expected, newState, now)
    ensures var outcome := ReplacePromise(st, id, expected, newBundle, newState, now);
            && outcome.state == st && outcome.result.Err?
            && ReplaceRefused(st, id, expected, newState, now, outcome.result.error)
  {
    hide Coherent, Replacing, RestoredTimelines, EvaluateBundle, ForgetPromise;
    PromiseFacts(st, id);
    if id in st.promises {
      ReplacingIs(st.promises[id], expected, newBundle, newState, now, st.sequence + 1);
    }
  }

  /** A replaceable promise: what its new bundle's evaluation answers. */
  lemma ReplacingEvaluates(st: EngineState, id: PromiseId, expected: int, newBundle: Bundle, newState: ReplacementState,
                           now: int)
    requires Coherent(st) && Replaceable(st, id, expected, newState, now)
    ensures RestoredTimelines(st, st.promises[id].bundle).Ok?
    ensures var restored := RestoredTimelines(st, st.promises[id].bundle).value;
            && Restores(st, restored, st.promises[id].bundle)
            && var outcome := ReplacePromise(st, id, expected, newBundle, newState, now);
               match EvaluateBundle(st, newBundle, restored)
               case Err(error) => outcome == Outcome(st, Err(error))
               case Ok(BundleBlocked(conflicts)) =>
                 outcome == Outcome(st, Ok(ReplaceUnavailable(ForgetPromise(conflicts, id))))
               case Ok(BundleFits(_)) =>
                 && outcome.result == Ok(PromiseReplaced(id, expected + 1))
                 && Logged(st, outcome.state, now, HoldReplaced, OnPromise(id, expected + 1))
  {
    hide Coherent, Replacing, RestoredTimelines, EvaluateBundle, ForgetPromise, Adjusts, PoolsOf;
    PromiseFacts(st, id);
    RestoredAdjusts(st, id);
    ReplacingIs(st.promises[id], expected, newBundle, newState, now, st.sequence + 1);
  }

  /**
   A replacement goes ahead exactly for a live promise at the expected version,
   with a deadline ahead and counters able to step, when with the old bundle given back no pool falls short.
   It is unavailable, with the conflicts told exactly, when only room is missing. Otherwise nothing changes
   and the reason is named.
   */
  lemma ReplaceOutcome(st: EngineState, id: PromiseId, expected: int, newBundle: Bundle, newState: ReplacementState,
                       expired: int, now: int)
    requires Coherent(st) && ValidBundle(newBundle)
    ensures ReplaceAnswered(st, id, expected, newBundle, newState, now,
                            Requested(st, Replace(id, expected, newBundle, newState), expired, now))
  {
    hide Coherent, Requested, ReplacePromise, RestoredTimelines, EvaluateBundle, ForgetPromise, Restores, HasRoomFor,
         ConflictsTold, LeavesOut, ReplacedAtomically, FloorKept, DeficitFree, FaultFree, FirstFault, Replaceable,
         Logged;
    RequestedIs(st, Replace(id, expected, newBundle, newState), expired, now);
    if Replaceable(st, id, expected, newState, now) {
      ReplaceableKnown(st, id, expected, newState, now);
      ReplacingEvaluates(st, id, expected, newBundle, newState, now);
      var freed := st.promises[id].bundle;
      var restored := RestoredTimelines(st, freed).value;
      EvaluationTold(st, newBundle, restored, freed);
      var evaluated := EvaluateBundle(st, newBundle, restored);
      if evaluated.Ok? && evaluated.value.BundleFits? {
        ReplaceGuarantee(st, id, expected, newBundle, newState, now);
      } else if evaluated.Ok? {
        ForgottenLeavesOut(st, freed, newBundle, evaluated.value.conflicts, id);
      }
    } else {
      ReplacingRefused(st, id, expected, newBundle, newState, now);
    }
  }
}
