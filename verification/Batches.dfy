/**
 Group preparation: ordered commands run against one copy of the published state, and each first-seen
 command's effects are recorded as differences from the state before the batch.
 */
module Batches {
  import opened Results
  import opened Domain
  import opened OrderedKeys
  import opened Transitions
  import opened EngineInvariants
  import opened EngineSafety
  import opened EngineLedger

  /** A durable description of one first-seen command's effects. */
  datatype DurableTransition = DurableTransition(
    command: Command,
    identity: Identity,
    digest: seq<int>,
    response: Response,
    pools: seq<Pool>,
    promises: seq<Promise>,
    events: seq<Event>,
    finalSequence: int)

  /** A durable transition with its authoritative timestamp. */
  datatype Item = Item(timestamp: int, transition: DurableTransition)

  datatype PreparationError =
    | StaleRevision(expected: int, actual: int)
    | RevisionOverflow

  // ---- Differences from the batch base ----

  /** The entry is new or differs from the base. */
  predicate Differs<V(==)>(base: map<int, V>, now: map<int, V>, key: int) {
    key in now && !(key in base && base[key] == now[key])
  }

  /** Entries among the keys that differ from the base, in key order. */
  function ChangedAmong<V(==)>(base: map<int, V>, now: map<int, V>, keys: seq<int>): seq<V> {
    if keys == [] then []
    else
      var n := |keys| - 1;
      var earlier := ChangedAmong(base, now, keys[..n]);
      if Differs(base, now, keys[n]) then earlier + [now[keys[n]]] else earlier
  }

  function Changed<V(==)>(base: map<int, V>, now: map<int, V>): seq<V> {
    ChangedAmong(base, now, SortedKeys(now.Keys))
  }

  /** Events logged since `before`. */
  function EventsSince(before: seq<Event>, now: seq<Event>): seq<Event> {
    if |before| <= |now| then now[|before|..] else []
  }

  // ---- Preparation ----

  /** Candidate state, responses and durable items so far. */
  datatype Preparing = Preparing(state: EngineState, responses: seq<Response>, items: seq<Item>)

  /** What a first-seen command leaves durable, measured against the batch base. */
  function DurableOf(base: EngineState, before: EngineState, after: EngineState, command: Command, hash: seq<int>,
                     response: Response): DurableTransition
  {
    DurableTransition(command, command.identity, hash, response, Changed(base.pools, after.pools),
                      Changed(base.promises, after.promises), EventsSince(before.events, after.events),
                      after.sequence)
  }

  ghost function PrepareOne(base: EngineState, digest: Operation -> seq<int>, preparing: Preparing, request: Request)
    : Preparing
  {
    var command := request.command;
    var hash := digest(command.operation);
    if command.identity in preparing.state.records then
      var record := preparing.state.records[command.identity];
      preparing.(responses := preparing.responses
                              + [if record.digest == hash then record.response else Err(IdempotencyConflict)])
    else
      var outcome := ApplyOnce(preparing.state, command.operation, request.now);
      var after := outcome.state.(records := outcome.state.records[command.identity := Record(hash, outcome.result)]);
      Preparing(after, preparing.responses + [outcome.result],
                preparing.items
                + [Item(request.now, DurableOf(base, preparing.state, after, command, hash, outcome.result))])
  }

  ghost function PrepareUpTo(base: EngineState, digest: Operation -> seq<int>, requests: seq<Request>, k: nat)
    : Preparing
    requires k <= |requests|
  {
    if k == 0 then Preparing(base, [], [])
    else PrepareOne(base, digest, PrepareUpTo(base, digest, requests, k - 1), requests[k - 1])
  }

  /** Identities of the first `k` requests that published state has not answered. */
  function NewIdentities(st: EngineState, requests: seq<Request>, k: nat): set<Identity>
    requires k <= |requests|
  {
    set i | 0 <= i < k && requests[i].command.identity !in st.records :: requests[i].command.identity
  }

  // ---- Preparation refines one-by-one application ----

  /** The responses of applying the requests one by one. */
  ghost function Responses(p: Published, digest: Operation -> seq<int>, requests: seq<Request>): seq<Response> {
    if requests == [] then []
    else
      var n := |requests| - 1;
      Responses(p, digest, requests[..n])
      + [Apply(Run(p, digest, requests[..n]), digest, requests[n].command, requests[n].now).1]
  }

  /** Preparation agrees with application so far: same state, same responses, one item per revision. */
  ghost predicate Agrees(p: Published, digest: Operation -> seq<int>, requests: seq<Request>, k: nat)
    requires k <= |requests|
  {
    var preparing := PrepareUpTo(p.state, digest, requests, k);
    && Run(p, digest, requests[..k]).state == preparing.state
    && Run(p, digest, requests[..k]).revision == p.revision + |preparing.items|
    && Responses(p, digest, requests[..k]) == preparing.responses
    && preparing.state.records.Keys == p.state.records.Keys + NewIdentities(p.state, requests, k)
    && |preparing.items| == |NewIdentities(p.state, requests, k)|
  }

  lemma RunPushed(p: Published, digest: Operation -> seq<int>, requests: seq<Request>, k: nat)
    requires k < |requests|
    ensures var before := Run(p, digest, requests[..k]);
            var applied := Apply(before, digest, requests[k].command, requests[k].now);
            && Run(p, digest, requests[..k + 1]) == applied.0
            && Responses(p, digest, requests[..k + 1]) == Responses(p, digest, requests[..k]) + [applied.1]
  {
    hide Apply;
    assert requests[..k + 1][..k] == requests[..k];
  }

  lemma IdentitiesPushed(st: EngineState, requests: seq<Request>, k: nat)
    requires k < |requests|
    ensures NewIdentities(st, requests, k + 1)
            == NewIdentities(st, requests, k)
               + if requests[k].command.identity !in st.records then {requests[k].command.identity} else {}
  {
  }

  /** Applying one operation never touches the idempotency records. */
  lemma ApplyOnceKeepsRecords(st: EngineState, operation: Operation, now: int)
    requires Coherent(st) && operation.Valid()
    ensures ApplyOnce(st, operation, now).state.records == st.records
    ensures Extends(st, ApplyOnce(st, operation, now).state)
  {
    hide Coherent;
    hide Ledger;
    hide Extends;
    hide ApplyOnce;
    hide Operation.Valid;
    hide PermittedRun;
    hide PerformAll;
    var effects := ApplyOnceExplained(st, operation, now);
    RunLedger(st, effects);
  }

  /** One prepared request against one applied command. */
  lemma OneAgrees(base: EngineState, digest: Operation -> seq<int>, preparing: Preparing, request: Request,
                  before: Published)
    requires before.state == preparing.state && Coherent(before.state) && request.command.operation.Valid()
    requires request.command.identity in before.state.records || before.revision < U128_MAX
    ensures var next := PrepareOne(base, digest, preparing, request);
            var applied := Apply(before, digest, request.command, request.now);
            var first := request.command.identity !in before.state.records;
            && applied.0.state == next.state && applied.0.revision == before.revision + (if first then 1 else 0)
            && next.responses == preparing.responses + [applied.1]
            && |next.items| == |preparing.items| + (if first then 1 else 0)
            && next.state.records.Keys == preparing.state.records.Keys + {request.command.identity}
  {
    hide Coherent;
    hide ApplyOnce;
    hide DurableOf;
    hide Operation.Valid;
    hide Extends;
    ApplyOnceKeepsRecords(preparing.state, request.command.operation, request.now);
  }

  lemma AgreesStep(p: Published, digest: Operation -> seq<int>, requests: seq<Request>, k: nat)
    requires k < |requests| && Agrees(p, digest, requests, k)
    requires Coherent(Run(p, digest, requests[..k]).state) && requests[k].command.operation.Valid()
    requires p.revision + |NewIdentities(p.state, requests, k + 1)| <= U128_MAX
    ensures Agrees(p, digest, requests, k + 1)
  {
    hide Coherent;
    hide PrepareOne;
    hide PrepareUpTo;
    hide Apply;
    hide Operation.Valid;
    hide Run;
    hide Responses;
    hide NewIdentities;
    var preparing := PrepareUpTo(p.state, digest, requests, k);
    var identity := requests[k].command.identity;
    var known := NewIdentities(p.state, requests, k);
    RunPushed(p, digest, requests, k);
    IdentitiesPushed(p.state, requests, k);
    PreparePushed(p.state, digest, requests, k);
    IdentityCount(p.state, known, identity);
    var first := identity !in preparing.state.records;
    assert first <==> identity !in p.state.records && identity !in known;
    assert NewIdentities(p.state, requests, k + 1) == if first then known + {identity} else known;
    OneAgrees(p.state, digest, preparing, requests[k], Run(p, digest, requests[..k]));
  }

  lemma PreparePushed(base: EngineState, digest: Operation -> seq<int>, requests: seq<Request>, k: nat)
    requires k < |requests|
    ensures PrepareUpTo(base, digest, requests, k + 1)
            == PrepareOne(base, digest, PrepareUpTo(base, digest, requests, k), requests[k])
  {
    hide PrepareOne;
  }

  lemma IdentityCount(st: EngineState, earlier: set<Identity>, identity: Identity)
    ensures identity !in st.records && identity !in earlier ==> |earlier + {identity}| == |earlier| + 1
    ensures identity in earlier ==> earlier + {identity} == earlier
    ensures earlier + {} == earlier
  {
  }

  lemma {:induction false} PrepareAgrees(p: Published, digest: Operation -> seq<int>, requests: seq<Request>, k: nat)
    requires k <= |requests| && Coherent(p.state) && ValidRequests(requests)
    requires p.revision + |NewIdentities(p.state, requests, |requests|)| <= U128_MAX
    ensures Agrees(p, digest, requests, k)
    ensures Coherent(Run(p, digest, requests[..k]).state)
  {
    hide Coherent;
    hide Agrees;
    hide Apply;
    hide Operation.Valid;
    if k == 0 {
      NothingPrepared(p, digest, requests);
    } else {
      PrepareAgrees(p, digest, requests, k - 1);
      FewerIdentities(p.state, requests, k, |requests|);
      AgreesStep(p, digest, requests, k - 1);
      RunPushed(p, digest, requests, k - 1);
      ApplyKeeps(Run(p, digest, requests[..k - 1]), digest, requests[k - 1].command, requests[k - 1].now);
    }
  }

  lemma EmptyBatch(base: EngineState, digest: Operation -> seq<int>, requests: seq<Request>)
    ensures PrepareUpTo(base, digest, requests, 0) == Preparing(base, [], [])
  {
  }

  lemma NothingPrepared(p: Published, digest: Operation -> seq<int>, requests: seq<Request>)
    ensures Agrees(p, digest, requests, 0) && Run(p, digest, requests[..0]) == p
  {
    assert NewIdentities(p.state, requests, 0) == {};
  }

  lemma FewerIdentities(st: EngineState, requests: seq<Request>, k: nat, n: nat)
    requires k <= n <= |requests|
    ensures |NewIdentities(st, requests, k)| <= |NewIdentities(st, requests, n)|
  {
    var a, b := NewIdentities(st, requests, k), NewIdentities(st, requests, n);
    assert a <= b;
    SubsetSize(a, b);
  }

  lemma {:induction false} SubsetSize<T>(a: set<T>, b: set<T>)
    requires a <= b
    ensures |a| <= |b|
  {
    var rest := b - a;
    assert b == a + rest;
    assert |a + rest| == |a| + |rest|;
  }

  /**
   Group preparation refines one-by-one application: unless the revision overflows, the candidate is
   the state after applying every command in order, with the same responses, retries and conflicts
   within the batch included, and the revision advances by one per durable item.
   */
  lemma PrepareRefinesApply(p: Published, digest: Operation -> seq<int>, requests: seq<Request>)
    requires Coherent(p.state) && ValidRequests(requests)
    requires p.revision + |NewIdentities(p.state, requests, |requests|)| <= U128_MAX
    ensures var preparing := PrepareUpTo(p.state, digest, requests, |requests|);
            && Run(p, digest, requests) == Published(preparing.state, p.revision + |preparing.items|)
            && Responses(p, digest, requests) == preparing.responses
            && |preparing.items| == |NewIdentities(p.state, requests, |requests|)|
  {
    hide Coherent;
    hide Operation.Valid;
    PrepareAgrees(p, digest, requests, |requests|);
    assert requests[..|requests|] == requests;
  }
}
