/**
 The ledger over all runs: gap-free sequences, one event per promise version, and events and cached
 responses that only name entities the engine has.
 */
module EngineLedger {
  import opened Results
  import opened Intervals
  import opened StepFunctions
  import opened CapacityCurves
  import opened Domain
  import opened OrderedKeys
  import opened TimelineRebuild
  import opened Admission
  import opened SlackTimelines
  import opened Promises
  import opened Transitions
  import opened ActiveUsage
  import opened EngineInvariants
  import opened BundleAdmissions
  import opened BundleVerdicts
  import opened EngineSteps
  import opened Expiry
  import opened EngineSafety

  // ---- Numbering ----

  /** Sequences start at one, never step back, never skip, and end at the global sequence. */
  ghost predicate Numbered(events: seq<Event>, sequence: int) {
    && (events == [] ==> sequence == 0)
    && (events != [] ==> events[0].sequence == 1 && events[|events| - 1].sequence == sequence)
    && forall i :: 0 < i < |events| ==> events[i - 1].sequence <= events[i].sequence <= events[i - 1].sequence + 1
  }

  lemma NumberedAppend(events: seq<Event>, sequence: int, added: seq<Event>)
    requires Numbered(events, sequence) && added != []
    requires forall i :: 0 <= i < |added| ==> added[i].sequence == sequence + 1
    ensures Numbered(events + added, sequence + 1)
  {
    var all := events + added;
    forall i | 0 < i < |all|
      ensures all[i - 1].sequence <= all[i].sequence <= all[i - 1].sequence + 1
    {
      if i < |events| {
      } else if i == |events| {
        assert all[i - 1] == events[|events| - 1];
      }
    }
  }

  lemma {:induction false} NumberedUpTo(events: seq<Event>, sequence: int, i: nat, j: nat)
    requires Numbered(events, sequence) && i <= j < |events|
    ensures events[i].sequence <= events[j].sequence
    decreases j
  {
    if i < j {
      NumberedUpTo(events, sequence, i, j - 1);
    }
  }

  /** Every sequence from one to the current one has an event. */
  lemma {:induction false} EverySequenceLogged(events: seq<Event>, sequence: int, s: int) returns (i: nat)
    requires Numbered(events, sequence) && 1 <= s <= sequence
    ensures i < |events| && events[i].sequence == s
    decreases |events|
  {
    var n := |events| - 1;
    if events[n].sequence == s {
      i := n;
    } else {
      assert Numbered(events[..n], events[n - 1].sequence);
      i := EverySequenceLogged(events[..n], events[n - 1].sequence, s);
    }
  }

  // ---- One promise's events ----

  /** The events of one promise, in log order. */
  function EventsOf(events: seq<Event>, id: PromiseId): seq<Event> {
    if events == [] then []
    else
      var n := |events| - 1;
      var last := events[n];
      var earlier := EventsOf(events[..n], id);
      if last.data.OnPromise? && last.data.promiseId == id then earlier + [last] else earlier
  }

  lemma {:induction false} EventsOfConcat(a: seq<Event>, b: seq<Event>, id: PromiseId)
    ensures EventsOf(a + b, id) == EventsOf(a, id) + EventsOf(b, id)
  {
    if b == [] {
      assert a + b == a;
    } else {
      var n := |b| - 1;
      assert (a + b)[..|a + b| - 1] == a + b[..n];
      EventsOfConcat(a, b[..n], id);
    }
  }

  lemma {:induction false} NoEventsOf(events: seq<Event>, id: PromiseId)
    requires forall i :: 0 <= i < |events| ==> !(events[i].data.OnPromise? && events[i].data.promiseId == id)
    ensures EventsOf(events, id) == []
  {
    if events != [] {
      NoEventsOf(events[..|events| - 1], id);
    }
  }

  lemma SingleEventOf(event: Event, id: PromiseId)
    requires event.data.OnPromise? && event.data.promiseId == id
    ensures EventsOf([event], id) == [event]
  {
    assert [event][..0] == [];
  }

  /** The `k`-th event carries version `k`; first and last carry the creation and update sequence. */
  ghost predicate HistoryOf(id: PromiseId, p: Promise, history: seq<Event>) {
    && |history| == p.version && p.version >= 1
    && (forall k :: 0 <= k < |history| ==> history[k].data == OnPromise(id, k + 1))
    && history[0].sequence == p.createdSequence
    && history[|history| - 1].sequence == p.updatedSequence
  }

  /** Every promise's events are its history; nothing else is logged for promises. */
  ghost predicate Histories(st: EngineState) {
    forall id :: if id in st.promises then HistoryOf(id, st.promises[id], EventsOf(st.events, id))
                 else EventsOf(st.events, id) == []
  }

  // ---- References ----

  /** The event names entities the engine has. */
  predicate EventKnown(st: EngineState, event: Event) {
    match event.data
    case OnPool(pool) => pool in st.pools
    case OnPromise(id, version) => id in st.promises && version <= st.promises[id].version
    case OnDeficit(pool, _, _, ids) => pool in st.pools && forall id :: id in ids ==> id in st.promises
  }

  ghost predicate EventsKnown(st: EngineState) {
    forall i :: 0 <= i < |st.events| ==> EventKnown(st, st.events[i])
  }

  predicate ConflictsKnown(st: EngineState, conflicts: seq<AvailabilityConflict>) {
    forall c :: c in conflicts ==> c.poolId in st.pools && forall id :: id in c.promiseIds ==> id in st.promises
  }

  predicate VersionKnown(st: EngineState, id: PromiseId, version: int) {
    id in st.promises && version <= st.promises[id].version
  }

  /** The response names entities the engine has, at versions and sequences it has reached. */
  predicate ResponseKnown(st: EngineState, response: Response) {
    match response
    case Err(_) => true
    case Ok(ResourcePoolCreated(pool)) => pool in st.pools
    case Ok(CapacityRevised(sequence, deficits, ids)) =>
      && sequence <= st.sequence
      && (forall i :: 0 <= i < |deficits| ==>
                        && deficits[i].poolId in st.pools
                        && forall id :: id in deficits[i].promiseIds ==> id in st.promises)
      && forall id :: id in ids ==> id in st.promises
    case Ok(HoldHeld(id)) => id in st.promises
    case Ok(HoldUnavailable(conflicts)) => ConflictsKnown(st, conflicts)
    case Ok(ChoiceHeld(id, _)) => id in st.promises
    case Ok(ChoiceUnavailable(alternatives)) =>
      forall i :: 0 <= i < |alternatives| ==> ConflictsKnown(st, alternatives[i].conflicts)
    case Ok(SlotHeld(id, _)) => id in st.promises
    case Ok(SlotUnavailable(_)) => true
    case Ok(PromiseCommitted(id, version)) => VersionKnown(st, id, version)
    case Ok(PromiseReleased(id, version)) => VersionKnown(st, id, version)
    case Ok(PromiseReplaced(id, version)) => VersionKnown(st, id, version)
    case Ok(ReplaceUnavailable(conflicts)) => ConflictsKnown(st, conflicts)
    case Ok(ExpirationsProcessed(_)) => true
  }

  ghost predicate RecordsKnown(st: EngineState) {
    forall identity :: identity in st.records ==> ResponseKnown(st, st.records[identity].response)
  }

  /** Entities only accumulate: keys stay, versions, sequence and log grow. */
  ghost predicate Extends(a: EngineState, b: EngineState) {
    && a.pools.Keys <= b.pools.Keys && a.promises.Keys <= b.promises.Keys
    && (forall id :: id in a.promises ==>
                       && a.promises[id].version <= b.promises[id].version
                       && a.promises[id].createdSequence == b.promises[id].createdSequence)
    && a.sequence <= b.sequence && a.events <= b.events
  }

  lemma ExtendsTransitive(a: EngineState, b: EngineState, c: EngineState)
    requires Extends(a, b) && Extends(b, c)
    ensures Extends(a, c)
  {
  }

  lemma EventStaysKnown(a: EngineState, b: EngineState, event: Event)
    requires Extends(a, b) && EventKnown(a, event)
    ensures EventKnown(b, event)
  {
  }

  lemma ConflictsStayKnown(a: EngineState, b: EngineState, conflicts: seq<AvailabilityConflict>)
    requires Extends(a, b) && ConflictsKnown(a, conflicts)
    ensures ConflictsKnown(b, conflicts)
  {
  }

  /** A response stays meaningful as the engine moves on. */
  lemma ResponseStaysKnown(a: EngineState, b: EngineState, response: Response)
    requires Extends(a, b) && ResponseKnown(a, response)
    ensures ResponseKnown(b, response)
  {
    hide ConflictsKnown;
    match response
    case Ok(HoldUnavailable(conflicts)) => ConflictsStayKnown(a, b, conflicts);
    case Ok(ReplaceUnavailable(conflicts)) => ConflictsStayKnown(a, b, conflicts);
    case Ok(ChoiceUnavailable(alternatives)) =>
      forall i | 0 <= i < |alternatives|
        ensures ConflictsKnown(b, alternatives[i].conflicts)
      {
        ConflictsStayKnown(a, b, alternatives[i].conflicts);
      }
    case _ =>
  }

  // ---- The ledger invariant ----

  ghost predicate Ledger(st: EngineState) {
    Numbered(st.events, st.sequence) && Histories(st) && EventsKnown(st)
  }

  lemma EmptyLedger()
    ensures Ledger(EmptyState) && RecordsKnown(EmptyState)
  {
  }

  lemma EffectExtends(st: EngineState, e: Effect)
    requires Permitted(st, e)
    ensures Extends(st, Perform(st, e))
  {
    hide At;
    hide Adjusts;
    hide DenotesSlack;
    hide DeficitEvents;
  }

  /** The events an effect logs. */
  function Logged(st: EngineState, e: Effect): seq<Event> {
    var sequence := st.sequence + 1;
    match e
    case Stored(p, _, now, kind) => [Event(sequence, now, kind, OnPromise(p.id, p.version))]
    case Created(pool, _, now) => [Event(sequence, now, ResourceCreated, OnPool(pool.id))]
    case Revised(pool, _, _, changes, now) => [Event(sequence, now, CapacityChanged, OnPool(pool))] + changes
  }

  lemma LoggedAppended(st: EngineState, e: Effect)
    requires Permitted(st, e)
    ensures Perform(st, e).events == st.events + Logged(st, e) && Perform(st, e).sequence == st.sequence + 1
    ensures Perform(st, e).records == st.records
    ensures Logged(st, e) != [] && forall i :: 0 <= i < |Logged(st, e)| ==> Logged(st, e)[i].sequence == st.sequence + 1
  {
    hide At;
    hide Adjusts;
    hide DenotesSlack;
    if e.Revised? {
      assert st.events + [Event(st.sequence + 1, e.now, CapacityChanged, OnPool(e.poolId))] + e.changes
             == st.events + ([Event(st.sequence + 1, e.now, CapacityChanged, OnPool(e.poolId))] + e.changes);
    }
  }

  lemma LoggedKnown(st: EngineState, e: Effect, i: nat)
    requires Permitted(st, e) && i < |Logged(st, e)|
    ensures EventKnown(Perform(st, e), Logged(st, e)[i])
  {
    hide At;
    hide Adjusts;
    hide DenotesSlack;
    if e.Revised? && i > 0 {
      assert Logged(st, e)[i] == e.changes[i - 1];
    }
  }

  lemma HistoryGrows(st: EngineState, e: Effect, id: PromiseId)
    requires Permitted(st, e) && Histories(st)
    ensures var after := Perform(st, e);
            if id in after.promises then HistoryOf(id, after.promises[id], EventsOf(after.events, id))
            else EventsOf(after.events, id) == []
  {
    hide At;
    hide Adjusts;
    hide DenotesSlack;
    hide EventsOf;
    hide HistoryOf;
    var logged := Logged(st, e);
    LoggedAppended(st, e);
    EventsOfConcat(st.events, logged, id);
    assert if id in st.promises then HistoryOf(id, st.promises[id], EventsOf(st.events, id))
           else EventsOf(st.events, id) == [];
    if e.Stored? && e.promise.id == id {
      SingleEventOf(logged[0], id);
      StoredHistory(st, e, EventsOf(st.events, id), logged[0]);
    } else {
      OthersUnlogged(st, e, id);
      assert EventsOf(st.events, id) + [] == EventsOf(st.events, id);
    }
  }

  lemma OthersUnlogged(st: EngineState, e: Effect, id: PromiseId)
    requires Permitted(st, e) && !(e.Stored? && e.promise.id == id)
    ensures EventsOf(Logged(st, e), id) == []
    ensures var after := Perform(st, e);
            (id in after.promises <==> id in st.promises)
            && (id in st.promises ==> after.promises[id] == st.promises[id])
  {
    hide At;
    hide Adjusts;
    hide DenotesSlack;
    var logged := Logged(st, e);
    forall i | 0 <= i < |logged|
      ensures !(logged[i].data.OnPromise? && logged[i].data.promiseId == id)
    {
      if e.Revised? && i > 0 {
        assert logged[i] == e.changes[i - 1];
      }
    }
    NoEventsOf(logged, id);
  }

  lemma StoredHistory(st: EngineState, e: Effect, history: seq<Event>, event: Event)
    requires e.Stored? && Succeeds(st, e.promise)
    requires event == Event(st.sequence + 1, e.now, e.kind, OnPromise(e.promise.id, e.promise.version))
    requires if e.promise.id in st.promises then HistoryOf(e.promise.id, st.promises[e.promise.id], history)
             else history == []
    ensures HistoryOf(e.promise.id, e.promise, history + [event])
  {
  }

  /** Every permitted effect keeps the ledger. */
  lemma EffectLedger(st: EngineState, e: Effect)
    requires Permitted(st, e) && Ledger(st)
    ensures Ledger(Perform(st, e))
  {
    hide Permitted;
    hide EventsOf;
    hide EventKnown;
    hide HistoryOf;
    hide Numbered;
    hide Perform;
    var after := Perform(st, e);
    LoggedAppended(st, e);
    NumberedAppend(st.events, st.sequence, Logged(st, e));
    EffectExtends(st, e);
    forall i | 0 <= i < |after.events|
      ensures EventKnown(after, after.events[i])
    {
      if i < |st.events| {
        EventStaysKnown(st, after, st.events[i]);
      } else {
        LoggedKnown(st, e, i - |st.events|);
      }
    }
    forall id
      ensures if id in after.promises then HistoryOf(id, after.promises[id], EventsOf(after.events, id))
              else EventsOf(after.events, id) == []
    {
      HistoryGrows(st, e, id);
    }
  }

  lemma {:induction false} RunLedger(st: EngineState, effects: seq<Effect>)
    requires PermittedRun(st, effects)
    ensures Extends(st, PerformAll(st, effects)) && PerformAll(st, effects).records == st.records
    ensures Ledger(st) ==> Ledger(PerformAll(st, effects))
  {
    hide Permitted;
    hide Perform;
    hide Ledger;
    hide Extends;
    if effects == [] {
      ExtendsReflexive(st);
    } else {
      var n := |effects| - 1;
      var before := PerformAll(st, effects[..n]);
      RunLedger(st, effects[..n]);
      EffectExtends(before, effects[n]);
      LoggedAppended(before, effects[n]);
      ExtendsTransitive(st, before, Perform(before, effects[n]));
      if Ledger(st) {
        EffectLedger(before, effects[n]);
      }
    }
  }

  lemma ExtendsReflexive(st: EngineState)
    ensures Extends(st, st)
  {
  }

  // ---- Responses name known entities ----

  lemma BlockedKnown(st: EngineState, bundle: Bundle, overrides: map<PoolId, seq<SlackPoint>>)
    requires Coherent(st) && SoundOverrides(st, overrides) && ValidClaims(bundle)
    requires EvaluateBundle(st, bundle, overrides).Ok? && EvaluateBundle(st, bundle, overrides).value.BundleBlocked?
    ensures ConflictsKnown(st, EvaluateBundle(st, bundle, overrides).value.conflicts)
  {
    hide Refused;
    hide CoverRefusals;
    hide PoolsOf;
    hide AllIndexed;
    hide HoldersAmong;
    BundleExact(st, bundle, overrides);
    hide EvaluateBundle;
    var conflicts := EvaluateBundle(st, bundle, overrides).value.conflicts;
    forall c | c in conflicts
      ensures c.poolId in st.pools && forall id :: id in c.promiseIds ==> id in st.promises
    {
      assert Exact(SweepOn(st, bundle, overrides, c.poolId), c);
    }
  }

  lemma AcceptKnown(st: EngineState, id: PromiseId, bundle: Bundle, expiresAt: int, now: int,
                    timelines: map<PoolId, seq<SlackPoint>>)
    ensures var accepted := AcceptHold(st, id, bundle, expiresAt, now, timelines);
            accepted.result.Ok? ==> id in accepted.state.promises
  {
  }

  lemma HoldKnown(st: EngineState, id: PromiseId, bundle: Bundle, expiresAt: int, now: int)
    requires Coherent(st) && ValidBundle(bundle)
    ensures var hold := HoldBundle(st, id, bundle, expiresAt, now);
            ResponseKnown(hold.state, hold.result)
  {
    hide Coherent;
    hide EvaluateBundle;
    hide AcceptHold;
    hide ConflictsKnown;
    var evaluated := EvaluateBundle(st, bundle, map[]);
    NoOverrides(st);
    if evaluated.Ok? && evaluated.value.BundleBlocked? {
      BlockedKnown(st, bundle, map[]);
    } else if evaluated.Ok? {
      AcceptKnown(st, id, bundle, expiresAt, now, evaluated.value.timelines);
    }
  }

  lemma ChoiceKnown(st: EngineState, id: PromiseId, choice: seq<Bundle>, expiresAt: int, now: int)
    requires Coherent(st) && forall i :: 0 <= i < |choice| ==> ValidBundle(choice[i])
    ensures var hold := HoldChoice(st, id, choice, expiresAt, now);
            ResponseKnown(hold.state, hold.result)
  {
    hide Coherent;
    hide EvaluateBundle;
    hide AcceptHold;
    hide ScanChoice;
    hide ConflictsKnown;
    NoOverrides(st);
    var scan := ScanChoice(st, choice, |choice|);
    if scan.Ok? {
      FirstFitMeaning(st, choice, |choice|);
      if scan.value.AllBlocked? {
        forall i | 0 <= i < |choice|
          ensures ConflictsKnown(st, scan.value.conflicts[i].conflicts)
        {
          BlockedKnown(st, choice[i], map[]);
        }
      } else {
        AcceptKnown(st, id, choice[scan.value.alternative], expiresAt, now, scan.value.timelines);
      }
    }
  }

  lemma SlotKnown(st: EngineState, id: PromiseId, relative: seq<RelativeClaim>, earliest: int, latest: int, step: int,
                  expiresAt: int, now: int)
    ensures var hold := HoldSlot(st, id, relative, earliest, latest, step, expiresAt, now);
            ResponseKnown(hold.state, hold.result)
  {
    hide SearchFrom;
    hide AcceptHold;
    var search := SearchSlots(st, relative, earliest, latest, step);
    if search.Ok? && search.value.SlotFound? {
      AcceptKnown(st, id, search.value.bundle, expiresAt, now, search.value.timelines);
    }
  }

  lemma {:induction false} WithoutPromiseSubset(ids: seq<PromiseId>, id: PromiseId)
    ensures forall other :: other in WithoutPromise(ids, id) <==> other in ids && other != id
  {
    if ids != [] {
      var n := |ids| - 1;
      assert ids == ids[..n] + [ids[n]];
      WithoutPromiseSubset(ids[..n], id);
    }
  }

  lemma ForgottenKnown(st: EngineState, conflicts: seq<AvailabilityConflict>, id: PromiseId)
    requires ConflictsKnown(st, conflicts)
    ensures ConflictsKnown(st, ForgetPromise(conflicts, id))
  {
    var forgotten := ForgetPromise(conflicts, id);
    forall c | c in forgotten
      ensures c.poolId in st.pools && forall other :: other in c.promiseIds ==> other in st.promises
    {
      var i :| 0 <= i < |forgotten| && forgotten[i] == c;
      var original := conflicts[i];
      assert original in conflicts;
      WithoutPromiseSubset(original.promiseIds, id);
    }
  }

  lemma ReplaceKnown(st: EngineState, id: PromiseId, expectedVersion: int, newBundle: Bundle,
                     newState: ReplacementState, now: int)
    requires Coherent(st) && ValidBundle(newBundle)
    ensures var replace := ReplacePromise(st, id, expectedVersion, newBundle, newState, now);
            ResponseKnown(replace.state, replace.result)
  {
    hide AllIndexed;
    hide RestoredTimelines;
    hide EvaluateBundle;
    hide ConflictsKnown;
    hide ForgetPromise;
    hide SoundOverrides;
    if st.sequence < U64_MAX && id in st.promises && !st.promises[id].state.Expired? {
      var p := st.promises[id];
      var replacing := Replacing(p, expectedVersion, newBundle, newState, now, st.sequence + 1);
      if replacing.Ok? {
        RestoredAdjusts(st, id);
        var restored := RestoredTimelines(st, p.bundle).value;
        OverridesSound(st, restored, p.bundle);
        var evaluated := EvaluateBundle(st, newBundle, restored);
        if evaluated.Ok? && evaluated.value.BundleBlocked? {
          BlockedKnown(st, newBundle, restored);
          ForgottenKnown(st, evaluated.value.conflicts, id);
        }
      }
    }
  }

  lemma ReviseKnown(st: EngineState, pool: PoolId, curve: seq<CapacitySegment>, mode: RevisionMode, now: int)
    ensures var revision := RevisePool(st, pool, curve, mode, now);
            ResponseKnown(revision.state, revision.result)
  {
    hide ActiveClaims;
    hide RebuiltPoints;
    hide Deficits;
    hide ResolvedEvents;
    hide CurrentEvents;
    hide SortedKeys;
    hide Representable;
    if RevisePool(st, pool, curve, mode, now).result.Ok? {
      var deficits := Deficits(RebuiltPoints(curve, ActiveClaims(st.promises, pool)));
      PoolDeficitsKnown(st, pool, deficits);
    }
  }

  /** Every response names entities the engine has afterwards. */
  lemma RequestedKnown(st: EngineState, operation: Operation, expired: int, now: int)
    requires Coherent(st) && operation.Valid()
    ensures ResponseKnown(Requested(st, operation, expired, now).state, Requested(st, operation, expired, now).result)
  {
    hide Coherent;
    hide RevisePool;
    hide HoldBundle;
    hide HoldChoice;
    hide HoldSlot;
    hide ReplacePromise;
    hide RestoredTimelines;
    hide RebuiltPoints;
    hide Representable;
    hide ConflictsKnown;
    match operation
    case ReviseCapacity(pool, curve, mode) => ReviseKnown(st, pool, curve, mode, now);
    case Hold(id, bundle, expiresAt) => HoldKnown(st, id, bundle, expiresAt, now);
    case HoldOneOf(id, choice, expiresAt) => ChoiceKnown(st, id, choice, expiresAt, now);
    case HoldFirstSlot(id, relative, earliest, latest, step, expiresAt) =>
      SlotKnown(st, id, relative, earliest, latest, step, expiresAt, now);
    case Replace(id, expectedVersion, newBundle, newState) =>
      ReplaceKnown(st, id, expectedVersion, newBundle, newState, now);
    case _ =>
  }

  /** One operation keeps the ledger, extends the state, and answers with known entities. */
  lemma ApplyOnceLedger(st: EngineState, operation: Operation, now: int)
    requires Coherent(st) && Ledger(st) && operation.Valid()
    ensures var outcome := ApplyOnce(st, operation, now);
            && Ledger(outcome.state) && Extends(st, outcome.state) && ResponseKnown(outcome.state, outcome.result)
            && outcome.state.records == st.records
  {
    hide Coherent;
    hide Ledger;
    hide Extends;
    hide Expirations;
    hide Requested;
    hide Operation.Valid;
    hide PermittedRun;
    hide PerformAll;
    hide CarefulRun;
    var expired := Expirations(st, now);
    var all := ApplyOnceExplained(st, operation, now);
    RunLedger(st, all);
    if expired.result.Ok? {
      var first := ExpirationsExplained(st, now);
      StaysCoherent(st, first, expired.state, false);
      RequestedKnown(expired.state, operation, expired.result.value, now);
    }
  }

  // ---- Runs ----

  /** Everything published state satisfies between commands. */
  ghost predicate Invariant(p: Published) {
    && Coherent(p.state) && Ledger(p.state) && RecordsKnown(p.state)
    && p.revision == |p.state.records| && p.revision <= U128_MAX
  }

  lemma RecordsAppended(st: EngineState, outcome: EngineState, identity: Identity, record: Record)
    requires RecordsKnown(st) && Extends(st, outcome) && outcome.records == st.records && identity !in st.records
    requires ResponseKnown(outcome, record.response)
    ensures var after := outcome.(records := outcome.records[identity := record]);
            RecordsKnown(after) && |after.records| == |st.records| + 1
  {
    hide ResponseKnown;
    var after := outcome.(records := outcome.records[identity := record]);
    forall other | other in after.records
      ensures ResponseKnown(after, after.records[other].response)
    {
      SameEntities(outcome, after, after.records[other].response);
      if other != identity {
        ResponseStaysKnown(st, outcome, st.records[other].response);
      }
    }
    assert after.records.Keys == st.records.Keys + {identity};
    assert |after.records| == |after.records.Keys| && |st.records| == |st.records.Keys|;
  }

  lemma SameEntities(a: EngineState, b: EngineState, response: Response)
    requires b == a.(records := b.records)
    ensures ResponseKnown(a, response) <==> ResponseKnown(b, response)
    ensures Ledger(a) ==> Ledger(b)
  {
    hide Numbered;
    hide EventsOf;
    hide HistoryOf;
    if Ledger(a) {
      forall i | 0 <= i < |b.events|
        ensures EventKnown(b, b.events[i])
      {
        assert EventKnown(a, a.events[i]);
      }
    }
  }

  /** One command keeps the invariant. */
  lemma ApplyInvariant(p: Published, digest: Operation -> seq<int>, command: Command, now: int)
    requires Invariant(p) && command.operation.Valid()
    ensures Invariant(Apply(p, digest, command, now).0)
  {
    hide Coherent;
    hide Ledger;
    hide Extends;
    hide RecordsKnown;
    hide ResponseKnown;
    hide ApplyOnce;
    hide Operation.Valid;
    ApplyKeeps(p, digest, command, now);
    if command.identity !in p.state.records && p.revision < U128_MAX {
      var outcome := ApplyOnce(p.state, command.operation, now);
      ApplyOnceLedger(p.state, command.operation, now);
      var record := Record(digest(command.operation), outcome.result);
      RecordsAppended(p.state, outcome.state, command.identity, record);
      SameEntities(outcome.state, outcome.state.(records := outcome.state.records[command.identity := record]),
                   outcome.result);
    }
  }

  /**
   Over all runs, whatever the results of the commands: the index is coherent, sequences are gap-free,
   every promise has one event per version, cached responses stay meaningful, and the publication
   revision counts the idempotency records.
   */
  lemma {:induction false} InvariantAlways(digest: Operation -> seq<int>, requests: seq<Request>)
    requires ValidRequests(requests)
    ensures Invariant(Run(Genesis, digest, requests))
  {
    hide Operation.Valid;
    hide Apply;
    if requests == [] {
      EmptyCoherent();
      EmptyLedger();
    } else {
      hide Invariant;
      var n := |requests| - 1;
      InvariantAlways(digest, requests[..n]);
      ApplyInvariant(Run(Genesis, digest, requests[..n]), digest, requests[n].command, requests[n].now);
    }
  }
}
