/** Every command at once: due holds expire first, and then the command is answered as its outcome says. */
module CommandTheorems {
  import opened Results
  import opened CapacityCurves
  import opened Domain
  import opened Promises
  import opened Transitions
  import opened EngineInvariants
  import opened BundleVerdicts
  import opened EngineSteps
  import opened Expiry
  import opened EngineSafety
  import opened RevisionOutcomes
  import opened CommandOutcomes
  import opened ReplaceOutcomes
  import opened CommandLaws

  /** How the command is answered, and what it leaves behind, from the state it finds. */
  ghost predicate Answered(st: EngineState, operation: Operation, expired: int, now: int,
                           outcome: Outcome<CommandResult>)
  {
    match operation
    case CreateResourcePool(pool, name, unit, curve) => CreateAnswered(st, pool, name, unit, curve, now, outcome)
    case ReviseCapacity(pool, curve, mode) => RevisionAnswered(st, pool, curve, mode, now, outcome)
    case Hold(id, bundle, expiresAt) => HoldAnswered(st, id, bundle, expiresAt, now, outcome)
    case HoldOneOf(id, choice, expiresAt) => ChoiceAnswered(st, id, choice, expiresAt, now, outcome)
    case HoldFirstSlot(id, relative, earliest, latest, step, expiresAt) =>
      SlotAnswered(st, id, relative, earliest, latest, step, expiresAt, now, outcome)
    case Commit(id, expected) => CommitAnswered(st, id, expected, now, outcome)
    case Release(id, expected) => ReleaseAnswered(st, id, expected, now, outcome)
    case Replace(id, expected, newBundle, newState) =>
      ReplaceAnswered(st, id, expected, newBundle, newState, now, outcome)
    case ProcessExpirations => outcome == Outcome(st, Ok(ExpirationsProcessed(expired)))
  }

  lemma RequestAnswered(st: EngineState, operation: Operation, expired: int, now: int)
    requires Coherent(st) && operation.Valid()
    ensures Answered(st, operation, expired, now, Requested(st, operation, expired, now))
  {
    hide Coherent, Requested, ValidCurve, ValidBundle, CreateAnswered,
         RevisionAnswered, HoldAnswered, ChoiceAnswered, SlotAnswered, CommitAnswered, ReleaseAnswered, ReplaceAnswered;
    match operation {
      case CreateResourcePool(pool, name, unit, curve) => CreateOutcome(st, pool, name, unit, curve, expired, now);
      case ReviseCapacity(pool, curve, mode) => RevisionOutcome(st, pool, curve, mode, expired, now);
      case Hold(id, bundle, expiresAt) => HoldOutcome(st, id, bundle, expiresAt, expired, now);
      case HoldOneOf(id, choice, expiresAt) => ChoiceOutcome(st, id, choice, expiresAt, expired, now);
      case HoldFirstSlot(id, relative, earliest, latest, step, expiresAt) =>
        SlotOutcome(st, id, relative, earliest, latest, step, expiresAt, expired, now);
      case Commit(id, expected) => CommitOutcome(st, id, expected, expired, now);
      case Release(id, expected) => ReleaseOutcome(st, id, expected, expired, now);
      case Replace(id, expected, newBundle, newState) =>
        ReplaceOutcome(st, id, expected, newBundle, newState, expired, now);
      case ProcessExpirations => RequestedIs(st, operation, expired, now);
    }
  }

  lemma AppliedInTwo(st: EngineState, operation: Operation, now: int)
    ensures var expired := Expirations(st, now);
            ApplyOnce(st, operation, now)
            == if expired.result.Err? then Outcome(expired.state, Err(expired.result.error))
               else Requested(expired.state, operation, expired.result.value, now)
  {
    hide Expirations, Requested;
  }

  /**
   Whatever the command, in any coherent state: first the due holds expire, in order, each with its event;
   if a counter stops that, what expired stays and the command fails with that reason; otherwise the command
   finds the state so reached and is answered from it.
   */
  lemma CommandAnswered(st: EngineState, operation: Operation, now: int)
    returns (due: seq<PromiseId>, k: nat, found: EngineState)
    requires Coherent(st) && operation.Valid()
    ensures Schedule(st.promises, now, due) && Processed(st, due, k, now, found)
    ensures var outcome := ApplyOnce(st, operation, now);
            if k < |due| then outcome.state == found && outcome.result.Err?
                              && StoppedAt(st, due, k, |due|, Err(outcome.result.error))
            else Answered(found, operation, k, now, outcome)
  {
    hide Expirations, Requested, Processed, Schedule, ApplyOnce, Answered, Operation.Valid;
    due, k := ExpirationsOutcome(st, now);
    found := Expirations(st, now).state;
    AppliedInTwo(st, operation, now);
    ProcessedKeeps(st, due, k, now, found);
    if k == |due| {
      RequestAnswered(found, operation, k, now);
    }
  }

  lemma ProcessedKeeps(st: EngineState, due: seq<PromiseId>, k: nat, now: int, found: EngineState)
    requires Processed(st, due, k, now, found)
    ensures Coherent(found) && k <= |due|
  {
    hide Coherent;
  }
}
