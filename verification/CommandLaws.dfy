/**
 Laws across commands: what processing expirations does, that no command leaves a due hold behind, and
 that a repeated command is answered as it was the first time.
 */
module CommandLaws {
  import opened Results
  import opened Domain
  import opened OrderedKeys
  import opened Promises
  import opened Transitions
  import opened ActiveUsage
  import opened EngineInvariants
  import opened BundleAdmissions
  import opened EngineSteps
  import opened Expiry
  import opened EngineSafety
  import opened EngineLedger
  import opened EngineGuarantees
  import opened Batches
  import opened CommandOutcomes

  // ---- Expirations ----

  /** The held promises whose deadline has been reached, by deadline and then identity. */
  ghost predicate Schedule(promises: map<PromiseId, Promise>, now: int, due: seq<PromiseId>) {
    && (forall id :: id in due <==> id in promises && promises[id].state.Held? && promises[id].state.expiresAt <= now)
    && forall i, j :: 0 <= i < j < |due| && due[i] in promises && due[j] in promises
                      && promises[due[i]].state.Held? && promises[due[j]].state.Held? ==>
                        promises[due[i]].state.expiresAt < promises[due[j]].state.expiresAt
                        || (promises[due[i]].state.expiresAt == promises[due[j]].state.expiresAt && due[i] < due[j])
  }

  lemma DueIsSchedule(st: EngineState, now: int)
    ensures Schedule(st.promises, now, DueHolds(st, now))
  {
    hide DueHolds;
    DueHoldsExact(st, now);
    var due := DueHolds(st, now);
    forall i, j | 0 <= i < j < |due| && due[i] in st.promises && due[j] in st.promises
                  && st.promises[due[i]].state.Held? && st.promises[due[j]].state.Held?
      ensures st.promises[due[i]].state.expiresAt < st.promises[due[j]].state.expiresAt
              || (st.promises[due[i]].state.expiresAt == st.promises[due[j]].state.expiresAt && due[i] < due[j])
    {
      assert DueBefore(st.promises, due[i], due[j]);
    }
  }

  /** The event of the `i`-th expiration. */
  function ExpiryEvent(st: EngineState, id: PromiseId, i: nat, now: int): Event
    requires id in st.promises
  {
    Event(st.sequence + i + 1, now, HoldExpiry, OnPromise(id, st.promises[id].version + 1))
  }

  /** The first `k` scheduled holds are expired in order, each under its own sequence and with one event. */
  ghost predicate Processed(st: EngineState, due: seq<PromiseId>, k: nat, now: int, after: EngineState) {
    && k <= |due| && ExpiredFirst(st, due, k, after) && Coherent(after)
    && |after.events| == |st.events| + k && st.events <= after.events
    && forall i :: 0 <= i < k ==>
                     due[i] in st.promises && after.events[|st.events| + i] == ExpiryEvent(st, due[i], i, now)
  }

  /** One due hold: it expires, unless a counter cannot step. */
  lemma ExpireOneOutcome(st: EngineState, id: PromiseId, now: int)
    requires Coherent(st) && id in st.promises && st.promises[id].state.Held? && st.promises[id].state.expiresAt <= now
    ensures var one := ExpireOne(st, id, now);
            && Coherent(one.state)
            && if st.sequence == U64_MAX then one == Outcome(st, Err(SequenceOverflow))
               else if st.promises[id].version == U64_MAX then one == Outcome(st, Err(VersionOverflow))
               else
                 && one.result.Ok? && one.state.promises == st.promises[id := ExpiredAs(st, st.promises[id], 0)]
                 && one.state.pools == st.pools && one.state.records == st.records
                 && one.state.sequence == st.sequence + 1
                 && one.state.events == st.events + [ExpiryEvent(st, id, 0, now)]
  {
    hide Coherent, RestoredTimelines, Explains;
    PromiseFacts(st, id);
    RestoredAdjusts(st, id);
    var effects := ExpireOneExplained(st, id, now);
    StaysCoherent(st, effects, ExpireOne(st, id, now).state, false);
  }

  /** Processing `n` scheduled holds went through, or stopped at the `k`-th because a counter could not step. */
  ghost predicate StoppedAt(st: EngineState, due: seq<PromiseId>, k: nat, n: nat, result: Result<int, DomainError>) {
    match result
    case Ok(count) => k == n == count
    case Err(error) =>
      && k < n <= |due| && due[k] in st.promises
      && if st.sequence + k == U64_MAX then error == SequenceOverflow
         else error == VersionOverflow && st.promises[due[k]].version == U64_MAX
  }

  ghost predicate AllDue(st: EngineState, due: seq<PromiseId>, now: int) {
    && DueOrder(st.promises, due)
    && forall i :: 0 <= i < |due| ==>
                     && due[i] in st.promises && st.promises[due[i]].state.Held?
                     && st.promises[due[i]].state.expiresAt <= now
  }

  /** One more scheduled hold, after `k` went through. */
  lemma NextProcessed(st: EngineState, due: seq<PromiseId>, k: nat, now: int, middle: EngineState)
    requires AllDue(st, due, now) && k < |due| && Processed(st, due, k, now, middle)
    ensures var one := ExpireOne(middle, due[k], now);
            if one.result.Ok? then Processed(st, due, k + 1, now, one.state)
            else one.state == middle && StoppedAt(st, due, k, k + 1, Err(one.result.error))
  {
    hide Coherent, ExpireOne, DueOrder;
    NotYet(st, due, k, middle);
    ExpireOneOutcome(middle, due[k], now);
    var one := ExpireOne(middle, due[k], now);
    if one.result.Ok? {
      NextExpired(st, due, k, middle, one.state);
    }
  }

  lemma ExpireUpToIs(st: EngineState, due: seq<PromiseId>, n: nat, now: int)
    requires n <= |due|
    ensures n == 0 ==> ExpireUpTo(st, due, n, now) == Outcome(st, Ok(0))
    ensures n > 0 ==>
              ExpireUpTo(st, due, n, now)
              == var earlier := ExpireUpTo(st, due, n - 1, now);
                 if earlier.result.Err? then earlier
                 else
                   var one := ExpireOne(earlier.state, due[n - 1], now);
                   Outcome(one.state, if one.result.Ok? then Ok(n) else Err(one.result.error))
  {
    hide ExpireOne;
  }

  lemma NothingProcessed(st: EngineState, due: seq<PromiseId>, now: int)
    requires Coherent(st)
    ensures Processed(st, due, 0, now, st)
  {
    hide Coherent;
  }

  lemma StoppedLater(st: EngineState, due: seq<PromiseId>, k: nat, n: nat, result: Result<int, DomainError>)
    requires StoppedAt(st, due, k, n, result) && n < |due|
    ensures result.Ok? ==> k == n
    ensures result.Err? ==> StoppedAt(st, due, k, n + 1, result)
    ensures StoppedAt(st, due, n + 1, n + 1, Ok(n + 1))
  {
  }

  lemma {:induction false} ExpireSteps(st: EngineState, due: seq<PromiseId>, n: nat, now: int) returns (k: nat)
    requires Coherent(st) && AllDue(st, due, now) && n <= |due|
    ensures Processed(st, due, k, now, ExpireUpTo(st, due, n, now).state)
    ensures StoppedAt(st, due, k, n, ExpireUpTo(st, due, n, now).result)
  {
    hide *;
    ExpireUpToIs(st, due, n, now);
    if n == 0 {
      k := 0;
      NothingProcessed(st, due, now);
      NoneStopped(st, due);
    } else {
      k := ExpireSteps(st, due, n - 1, now);
      var earlier := ExpireUpTo(st, due, n - 1, now);
      StoppedLater(st, due, k, n - 1, earlier.result);
      if earlier.result.Ok? {
        NextProcessed(st, due, n - 1, now, earlier.state);
        k := if ExpireOne(earlier.state, due[n - 1], now).result.Ok? then n else n - 1;
      }
    }
  }

  lemma NoneStopped(st: EngineState, due: seq<PromiseId>)
    ensures StoppedAt(st, due, 0, 0, Ok(0))
  {
  }

  /** A later scheduled hold is still as it was. */
  lemma NotYet(st: EngineState, due: seq<PromiseId>, k: nat, after: EngineState)
    requires k < |due| && DueOrder(st.promises, due) && ExpiredFirst(st, due, k, after) && due[k] in st.promises
    ensures due[k] in after.promises && after.promises[due[k]] == st.promises[due[k]]
  {
    hide Deadline;
    forall i | 0 <= i < k
      ensures due[i] != due[k]
    {
      assert DueBefore(st.promises, due[i], due[k]);
    }
    var id := due[k];
    assert id !in due[..k];
  }

  /**
   Processing expires exactly the holds whose deadline has been reached, in order of deadline and identity,
   and counts them. It stops early only where the sequence or a promise's version cannot step, keeping what
   was expired before.
   */
  lemma ExpirationsOutcome(st: EngineState, now: int) returns (due: seq<PromiseId>, k: nat)
    requires Coherent(st)
    ensures Schedule(st.promises, now, due) && Processed(st, due, k, now, Expirations(st, now).state)
    ensures StoppedAt(st, due, k, |due|, Expirations(st, now).result)
  {
    hide Coherent, ExpireUpTo, DueHolds, Processed, StoppedAt;
    due := DueHolds(st, now);
    DueIsSchedule(st, now);
    DueHoldsExact(st, now);
    forall i | 0 <= i < |due|
      ensures due[i] in st.promises && st.promises[due[i]].state.Held? && st.promises[due[i]].state.expiresAt <= now
    {
      var id := due[i];
      assert id in due;
    }
    k := ExpireSteps(st, due, |due|, now);
  }

  /** The command that only processes expirations answers with their number. */
  lemma ProcessOutcome(st: EngineState, now: int) returns (due: seq<PromiseId>)
    requires Coherent(st)
    ensures Schedule(st.promises, now, due)
    ensures var outcome := ApplyOnce(st, ProcessExpirations, now);
            outcome.result.Ok? ==>
              outcome.result == Ok(ExpirationsProcessed(|due|)) && Processed(st, due, |due|, now, outcome.state)
  {
    hide Coherent, Expirations, Processed, Schedule, Requested;
    var k: nat;
    due, k := ExpirationsOutcome(st, now);
    if Expirations(st, now).result.Ok? {
      RequestedIs(Expirations(st, now).state, ProcessExpirations, |due|, now);
    }
  }

  // ---- No due hold is left ----

  /** No hold's deadline has been reached. */
  ghost predicate NoneDue(promises: map<PromiseId, Promise>, now: int) {
    forall id :: id in promises && promises[id].state.Held? ==> now < promises[id].state.expiresAt
  }

  lemma ProcessedNoneDue(st: EngineState, due: seq<PromiseId>, now: int, after: EngineState)
    requires Schedule(st.promises, now, due) && Processed(st, due, |due|, now, after)
    ensures NoneDue(after.promises, now)
  {
    hide Coherent;
    assert due[..|due|] == due;
    forall id | id in due
      ensures id in after.promises && after.promises[id].state.Expired?
    {
      var i :| 0 <= i < |due| && due[i] == id;
    }
  }

  /** A hold that a command stores has its deadline ahead. */
  lemma RequestedNoneDue(st: EngineState, operation: Operation, expired: int, now: int)
    requires NoneDue(st.promises, now)
    ensures NoneDue(Requested(st, operation, expired, now).state.promises, now)
  {
    hide EvaluateBundle, RestoredTimelines, ScanChoice, SearchSlots, Rebuild, ActiveClaims, PoolDeficits,
         ResolvedEvents, CurrentEvents, AffectedPromises, ForgetPromise;
  }

  /** After any first-seen command whose expirations went through, no hold is past its deadline. */
  lemma NoDueHoldLeft(st: EngineState, operation: Operation, now: int)
    requires Coherent(st) && Expirations(st, now).result.Ok?
    ensures NoneDue(ApplyOnce(st, operation, now).state.promises, now)
  {
    hide Coherent, Expirations, Processed, Schedule, Requested, NoneDue;
    var due, k := ExpirationsOutcome(st, now);
    ProcessedNoneDue(st, due, now, Expirations(st, now).state);
    RequestedNoneDue(Expirations(st, now).state, operation, |due|, now);
  }

  // ---- A repeated command ----

  /** Nothing recorded is forgotten or changed. */
  ghost predicate Remembers(p: Published, q: Published) {
    p.revision <= q.revision
    && forall identity :: identity in p.state.records ==>
                            identity in q.state.records && q.state.records[identity] == p.state.records[identity]
  }

  lemma ApplyRemembers(p: Published, digest: Operation -> seq<int>, command: Command, now: int)
    requires Coherent(p.state) && Ledger(p.state) && command.operation.Valid()
    ensures var (after, response) := Apply(p, digest, command, now);
            && Remembers(p, after)
            && (command.identity in p.state.records ==>
                  after == p && response == (if p.state.records[command.identity].digest == digest(command.operation)
                                             then p.state.records[command.identity].response
                                             else Err(IdempotencyConflict)))
            && (command.identity !in p.state.records && p.revision < U128_MAX ==>
                  var outcome := ApplyOnce(p.state, command.operation, now);
                  var record := Record(digest(command.operation), response);
                  && response == outcome.result && after.revision == p.revision + 1
                  && after.state == outcome.state.(records := p.state.records[command.identity := record]))
            && (command.identity !in p.state.records && p.revision >= U128_MAX ==>
                  after == p && response == Err(PublicationRevisionOverflow))
  {
    hide Coherent, Ledger, ApplyOnce, Operation.Valid, Extends, ResponseKnown;
    if command.identity !in p.state.records && p.revision < U128_MAX {
      ApplyOnceLedger(p.state, command.operation, now);
    }
  }

  /** Over a run nothing is forgotten, and at the end of the revisions nothing changes. */
  lemma {:induction false} RunRemembers(digest: Operation -> seq<int>, requests: seq<Request>, i: nat, j: nat)
    requires ValidRequests(requests) && i <= j <= |requests|
    ensures var p, q := Run(Genesis, digest, requests[..i]), Run(Genesis, digest, requests[..j]);
            Remembers(p, q) && (p.revision >= U128_MAX ==> q == p)
    decreases j
  {
    hide Apply, Operation.Valid, Remembers, Run;
    if i < j {
      RunRemembers(digest, requests, i, j - 1);
      RunPushed(Genesis, digest, requests, j - 1);
      InvariantOf(digest, requests, j - 1);
      var middle := Run(Genesis, digest, requests[..j - 1]);
      ApplyRemembers(middle, digest, requests[j - 1].command, requests[j - 1].now);
      RemembersThrough(Run(Genesis, digest, requests[..i]), middle, Run(Genesis, digest, requests[..j]));
    } else {
      RemembersItself(Run(Genesis, digest, requests[..i]));
    }
  }

  lemma InvariantOf(digest: Operation -> seq<int>, requests: seq<Request>, i: nat)
    requires ValidRequests(requests) && i <= |requests|
    ensures Coherent(Run(Genesis, digest, requests[..i]).state) && Ledger(Run(Genesis, digest, requests[..i]).state)
  {
    hide Coherent, Ledger, RecordsKnown, Run, Operation.Valid;
    InvariantAlways(digest, requests[..i]);
  }

  lemma RemembersThrough(p: Published, q: Published, r: Published)
    requires Remembers(p, q) && Remembers(q, r)
    ensures Remembers(p, r)
  {
  }

  lemma RemembersItself(p: Published)
    ensures Remembers(p, p)
  {
  }

  /**
   In any run a command repeated under its key, with an operation of the same digest, is answered exactly as
   before and changes nothing, whatever happened in between.
   */
  lemma AnswersStand(digest: Operation -> seq<int>, requests: seq<Request>, i: nat, j: nat)
    requires ValidRequests(requests) && i < j < |requests|
    requires requests[i].command.identity == requests[j].command.identity
    requires digest(requests[i].command.operation) == digest(requests[j].command.operation)
    ensures Apply(Run(Genesis, digest, requests[..j]), digest, requests[j].command, requests[j].now)
            == (Run(Genesis, digest, requests[..j]),
                Apply(Run(Genesis, digest, requests[..i]), digest, requests[i].command, requests[i].now).1)
  {
    hide Apply, Operation.Valid, Run, Coherent, Ledger;
    var p, q := Run(Genesis, digest, requests[..i]), Run(Genesis, digest, requests[..j]);
    InvariantOf(digest, requests, i);
    InvariantOf(digest, requests, j);
    RunPushed(Genesis, digest, requests, i);
    RunRemembers(digest, requests, i, j);
    RunRemembers(digest, requests, i + 1, j);
    ApplyRemembers(p, digest, requests[i].command, requests[i].now);
    ApplyRemembers(q, digest, requests[j].command, requests[j].now);
  }
}
