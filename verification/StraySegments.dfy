/**
 Runs on which a failed rotation leaves a stray segment and the next acknowledged batch makes the files
 unopenable: for any two batches that fit one segment, and for two given commands.
 */
module StraySegments {
  import opened Results
  import opened Bytes
  import opened WalRecords
  import opened WalStreams
  import opened Domain
  import opened OrderedKeys
  import opened Transitions
  import opened ActiveUsage
  import opened EngineInvariants
  import opened Expiry
  import opened EngineSafety
  import opened EngineLedger
  import opened Batches
  import opened Replay
  import opened ReplayRefinement
  import opened ReplayTheorems
  import opened Recovery
  import opened LogDisk
  import opened DiskSteps
  import opened CrashSafety
  import opened DatabaseRuns
  import opened RunSafety
  import opened CrashTheorems
  import opened Payloads
  import opened CommandPayloads
  import opened ResponsePayloads
  import opened EntityPayloads
  import opened TransitionPayloads
  import opened TypedResponses
  import opened PreparedPayloads
  import opened TypedRuns

  // ---- Any two batches ----

  const Fresh := Live(Genesis, Some(1), 1, false)

  ghost function Answers(f: Format, p: Published, requests: seq<Request>): seq<Response> {
    PrepareUpTo(p.state, f.digest, requests, |requests|).responses
  }

  /** The batch appended whole to segment one, without rotating. */
  ghost function AppendedBatch(f: Format, s: System, live: Live, requests: seq<Request>): System
    requires Appends(f, live, requests)
  {
    System(AppendedTo(s.disk, 1, BatchBytes(f, live, requests)), Some(PublishedLive(f, live, requests, 1)))
  }

  /** The database after its first batch. */
  ghost function AfterFirst(f: Format, first: seq<Request>): Live
    requires Appends(f, Fresh, first)
  {
    PublishedLive(f, Fresh, first, 1)
  }

  /** Two batches a new database can take one after the other, within one segment. */
  ghost predicate TwoBatches(f: Format, target: nat, first: seq<Request>, second: seq<Request>) {
    && Appends(f, Fresh, first) && Replayable(f, Genesis, first)
    && Appends(f, AfterFirst(f, first), second) && Replayable(f, AfterFirst(f, first).published, second)
    && SEGMENT_HEADER_LEN + |BatchBytes(f, Fresh, first)| + |BatchBytes(f, AfterFirst(f, first), second)| <= target
  }

  /** The files and database after the first batch and after the failed rotation. */
  ghost function Rotating(f: Format, first: seq<Request>): (System, System)
    requires Appends(f, Fresh, first) && AfterFirst(f, first).next.Some?
  {
    var s := AppendedBatch(f, CrashTheorems.Created, Fresh, first);
    (s, System(RotatedDisk(s.disk, AfterFirst(f, first).next.value), s.live))
  }

  lemma FirstFollows(f: Format, target: nat, first: seq<Request>)
    requires Appends(f, Fresh, first) && Replayable(f, Genesis, first)
    ensures var step := Batch(first, BatchOutcome.Committed(Answers(f, Genesis, first)));
            var s := AppendedBatch(f, CrashTheorems.Created, Fresh, first);
            && Follows(f, target, CrashTheorems.Created, step, s) && Allowed(f, target, CrashTheorems.Created, step)
  {
    hide PrepareUpTo, GroupBytes, Replayable, LiveSegments, Framed, Loggable, PublishedAt, RotatesFirst;
    CreatedHolds(f);
  }

  /** The first batch holds bytes, so a snapshot must rotate. */
  lemma FirstRotates(f: Format, first: seq<Request>)
    requires SoundHash(f.hash) && Appends(f, Fresh, first) && AfterFirst(f, first).next.Some?
    ensures var (s, after) := Rotating(f, first);
            && SnapshotFollows(s, RotationFailed(true), after)
            && s.disk.segments == map[1 := BatchBytes(f, Fresh, first)] && BatchBytes(f, Fresh, first) != []
            && after.disk == Disk(map[1 := BatchBytes(f, Fresh, first), AfterFirst(f, first).next.value := []], map[])
            && 1 < AfterFirst(f, first).next.value
  {
    hide PrepareUpTo, GroupBytes, Framed, Loggable, PublishedAt;
    EmptyGroup(f, Group(f, Genesis, first), 1);
    var bytes := BatchBytes(f, Fresh, first);
    assert [] + bytes == bytes;
  }

  /** The rotated-to segment is behind the active one. */
  lemma FirstStrayed(f: Format, first: seq<Request>)
    requires SoundHash(f.hash) && Appends(f, Fresh, first) && AfterFirst(f, first).next.Some?
    ensures Strayed(Rotating(f, first).1)
  {
    hide PrepareUpTo, GroupBytes, Framed, Loggable, PublishedAt, Appends, SortedKeys;
    FirstRotates(f, first);
    EmptyLatest();
    var next := AfterFirst(f, first).next.value;
    LiveAre(Rotating(f, first).1.disk, [1, next]);
  }

  lemma SecondFollows(f: Format, target: nat, first: seq<Request>, second: seq<Request>)
    requires SoundHash(f.hash) && TwoBatches(f, target, first, second)
    ensures AfterFirst(f, first).next.Some?
    ensures var s := Rotating(f, first).1;
            var outcome := BatchOutcome.Committed(Answers(f, AfterFirst(f, first).published, second));
            && BatchFollows(f, target, s, second, outcome, AppendedBatch(f, s, AfterFirst(f, first), second))
            && !RotatesFirst(f, target, s, second)
  {
    hide PrepareUpTo, GroupBytes, Framed, Loggable, PublishedAt, Replayable;
    FirstRotates(f, first);
  }

  /**
   A new database commits any batch, fails to rotate for a snapshot, and commits any other batch that
   fits the same segment. Every step is one the database takes, and afterwards its files do not open.
   */
  lemma StrayRunFails(f: Format, target: nat, first: seq<Request>, second: seq<Request>)
    returns (states: seq<System>, steps: seq<Step>)
    requires SoundHash(f.hash) && TwoBatches(f, target, first, second)
    ensures |states| == 4 && |steps| == 3 && Runs(f, target, states[..3], steps[..2])
    ensures steps[0].Batch? && steps[0].requests == first && steps[0].outcome.Committed?
    ensures steps[1] == TakeSnapshot(RotationFailed(true))
    ensures steps[2].Batch? && steps[2].requests == second && steps[2].outcome.Committed?
    ensures Strayed(states[2]) && Follows(f, target, states[2], steps[2], states[3])
    ensures Open(f, states[3].disk).Err?
  {
    hide *;
    TwoFacts(f, target, first, second);
    SecondFollows(f, target, first, second);
    FirstFollows(f, target, first);
    FirstRotates(f, first);
    FirstStrayed(f, first);
    LeftOpen(f, first);
    var (s1, s2) := Rotating(f, first);
    var live := AfterFirst(f, first);
    var s3 := AppendedBatch(f, s2, live, second);
    var committed := Batch(first, BatchOutcome.Committed(Answers(f, Genesis, first)));
    var outcome := BatchOutcome.Committed(Answers(f, live.published, second));
    states := [CrashTheorems.Created, s1, s2, s3];
    steps := [committed, TakeSnapshot(RotationFailed(true)), Batch(second, outcome)];
    TakenSteps(f, target, s1, s2, second, outcome, s3);
    assert states[..3] == [CrashTheorems.Created, s1, s2]
           && steps[..2] == [committed, TakeSnapshot(RotationFailed(true))];
    TwoSteps(f, target, CrashTheorems.Created, committed, s1, TakeSnapshot(RotationFailed(true)), s2);
    var applied := EveryRunRecovers(f, target, states[..3], steps[..2]);
    LivePublishes(f, s2, Run(Genesis, f.digest, applied), live);
    var error := StrayedBatch(f, target, s2, live.published, second, outcome, s3);
  }

  lemma TwoFacts(f: Format, target: nat, first: seq<Request>, second: seq<Request>)
    requires TwoBatches(f, target, first, second)
    ensures Appends(f, Fresh, first) && Replayable(f, Genesis, first)
    ensures Appends(f, AfterFirst(f, first), second) && Replayable(f, AfterFirst(f, first).published, second)
    ensures AfterFirst(f, first).next.Some?
  {
    hide PrepareUpTo, GroupBytes, Framed, Loggable, PublishedAt, Replayable;
  }

  lemma LeftOpen(f: Format, first: seq<Request>)
    requires Appends(f, Fresh, first) && AfterFirst(f, first).next.Some?
    ensures var (s, after) := Rotating(f, first);
            && s == AppendedBatch(f, CrashTheorems.Created, Fresh, first)
            && after.live == Some(AfterFirst(f, first)) && !AfterFirst(f, first).poisoned
  {
    hide PrepareUpTo, GroupBytes, Framed, Loggable, PublishedAt, Appends;
  }

  lemma TakenSteps(f: Format, target: nat, s1: System, s2: System, second: seq<Request>, outcome: BatchOutcome,
                   s3: System)
    requires SnapshotFollows(s1, RotationFailed(true), s2) && BatchFollows(f, target, s2, second, outcome, s3)
    requires outcome.Committed?
    ensures Follows(f, target, s1, TakeSnapshot(RotationFailed(true)), s2)
    ensures Allowed(f, target, s1, TakeSnapshot(RotationFailed(true)))
    ensures Follows(f, target, s2, Batch(second, outcome), s3) && AppendsBytes(outcome)
  {
    hide SnapshotFollows, BatchFollows, Replayable, RotatesFirst, Strayed;
  }

  lemma TwoSteps(f: Format, target: nat, s0: System, a: Step, s1: System, b: Step, s2: System)
    requires s0 == CrashTheorems.Created && Follows(f, target, s0, a, s1) && Allowed(f, target, s0, a)
    requires Follows(f, target, s1, b, s2) && Allowed(f, target, s1, b)
    ensures Runs(f, target, [s0, s1, s2], [a, b])
  {
    hide Follows, Allowed;
  }

  lemma LivePublishes(f: Format, s: System, p: Published, live: Live)
    requires Good(f, s, p) && s.live == Some(live) && !live.poisoned
    ensures p == live.published
  {
    hide Invariant, Recoverable, LiveSegments;
  }

  // ---- Two given commands ----

  /** A request to process expirations when there is nothing to expire. */
  function Tick(key: string): Request {
    Request(Command(Identity("a", key), ProcessExpirations), 0)
  }

  function TickItem(f: Format, key: string): Item {
    Item(0, DurableTransition(Tick(key).command, Tick(key).command.identity, f.digest(ProcessExpirations),
                              Ok(ExpirationsProcessed(0)), [], [], [], 0))
  }

  /** An engine nothing has happened to but answered commands. */
  predicate Idle(st: EngineState) {
    st.pools == map[] && st.promises == map[] && st.events == [] && st.sequence == 0
  }

  lemma IdleExpires(st: EngineState)
    requires Idle(st)
    ensures ApplyOnce(st, ProcessExpirations, 0) == Outcome(st, Ok(ExpirationsProcessed(0)))
  {
    hide ExpireUpTo;
    assert st.promises.Keys == {} && SortedKeys({}) == [] && DueAmong(st.promises, [], 0) == [];
    NothingDue(st, 0);
  }

  lemma NothingChanges(before: EngineState, after: EngineState)
    requires Idle(before) && Idle(after)
    ensures Changed(before.pools, after.pools) == [] && Changed(before.promises, after.promises) == []
    ensures EventsSince(before.events, after.events) == []
  {
    assert after.pools.Keys == {} && after.promises.Keys == {} && SortedKeys({}) == [];
  }

  /** The command leaves one item, and the engine as idle as it was. */
  lemma TickPrepared(f: Format, st: EngineState, key: string)
    requires Idle(st) && Tick(key).command.identity !in st.records
    ensures var preparing := PrepareUpTo(st, f.digest, [Tick(key)], 1);
            && preparing.items == [TickItem(f, key)] && Idle(preparing.state)
            && preparing.state.records.Keys == st.records.Keys + {Tick(key).command.identity}
  {
    hide ApplyOnce, Changed, EventsSince;
    IdleExpires(st);
    var nothing := PrepareUpTo(st, f.digest, [Tick(key)], 0);
    PreparePushed(st, f.digest, [Tick(key)], 0);
    var hash := f.digest(ProcessExpirations);
    var after := st.(records := st.records[Tick(key).command.identity := Record(hash, Ok(ExpirationsProcessed(0)))]);
    NothingChanges(st, after);
  }

  /** Identity texts short enough for the two records to fit the limits below. */
  predicate ShortText(text: Text) {
    |text.encode("a")| <= 40 && |text.encode("b")| <= 40
  }

  lemma TickCommandShort(text: Text, key: string)
    requires ShortText(text) && (key == "a" || key == "b")
    ensures SizedCommand(text, Tick(key).command) && |CommandBytes(text, Tick(key).command)| <= 90
  {
  }

  lemma NoneListed(text: Text)
    ensures |PoolsBytes(text, [])| == 4 && |PromisesBytes([])| == 4 && |EventsBytes([])| == 4
  {
    hide U32Bytes;
    assert Flatten([]) == [];
  }

  lemma TickEncodes(text: Text, f: Format, key: string)
    requires PayloadFormat(text, f) && ShortText(text) && (key == "a" || key == "b")
    ensures f.codec.encode(TickItem(f, key).transition).Ok?
    ensures |f.codec.encode(TickItem(f, key).transition).value| <= 300
  {
    hide CommandBytes, SizedCommand, U32Bytes, U64Bytes, PoolsBytes, PromisesBytes, EventsBytes, Lossless;
    TickCommandShort(text, key);
    NoneListed(text);
    var t := TickItem(f, key).transition;
    assert |NestedBytes(text, t.command)| <= 94;
    assert |ResponseBytes(t.response)| <= 40;
    assert |ReplyBytes(text, t)| <= 160;
    assert |ChangeBytes(text, t)| == 20;
  }

  lemma TickFrames(f: Format, key: string, first: int)
    requires SoundHash(f.hash) && Loggable(f, [TickItem(f, key)], first)
    requires f.codec.encode(TickItem(f, key).transition).Ok?
    requires |f.codec.encode(TickItem(f, key).transition).value| <= 300
    ensures |GroupBytes(f, [TickItem(f, key)], first)| <= 400
  {
    var items := [TickItem(f, key)];
    RecordsConsecutive(f, items, first);
    var records := RecordsFor(f.codec, items, first);
    hide Frame, Writable;
    FrameLength(f.hash, records[0]);
    assert records[1..] == [] && Frames(f.hash, records[1..]) == [];
    assert GroupBytes(f, items, first) == Frame(f.hash, records[0]) + Frames(f.hash, records[1..]);
    assert RecordLen(|records[0].payload|) <= 400;
  }

  /** A database with an idle engine can take the command. */
  lemma TickAppends(text: Text, f: Format, live: Live, key: string)
    requires PayloadFormat(text, f) && ShortText(text) && (key == "a" || key == "b") && f.max >= 400
    requires Invariant(live.published) && Idle(live.published.state)
    requires Tick(key).command.identity !in live.published.state.records
    requires !live.poisoned && live.next == Some(live.published.revision + 1) && 0 <= live.published.revision < U64_MAX
    ensures Replayable(f, live.published, [Tick(key)]) && Appends(f, live, [Tick(key)])
    ensures |BatchBytes(f, live, [Tick(key)])| <= 400
    ensures Group(f, live.published, [Tick(key)]) == [TickItem(f, key)]
  {
    hide *;
    FormatSound(text, f);
    IdleTyped(text, live.published.state);
    TickTyped(text, f, live.published, key);
    TypedReplayable(text, f, live.published, [Tick(key)]);
    TickGroup(f, live.published, key);
    TickEncodes(text, f, key);
    TickFramed(f, live.published, key);
    GroupLoggable(f, live.published, [Tick(key)]);
    TickFrames(f, key, live.published.revision + 1);
    AppendsGroup(f, live, [Tick(key)]);
  }

  lemma IdleTyped(text: Text, st: EngineState)
    requires Idle(st)
    ensures TypedState(text, st)
  {
  }

  lemma TickTyped(text: Text, f: Format, p: Published, key: string)
    ensures TypedBatch(text, f, p, [Tick(key)])
  {
    hide NoReturn;
    forall j | 0 <= j <= 1
      ensures NoReturn(p.state, f.digest, [Tick(key)], j)
    {
      SingleCommandNeverReturns(p.state, f.digest, [Tick(key)], j);
    }
  }

  lemma TickGroup(f: Format, p: Published, key: string)
    requires Idle(p.state) && Tick(key).command.identity !in p.state.records
    ensures Group(f, p, [Tick(key)]) == [TickItem(f, key)]
  {
    hide PrepareUpTo;
    TickPrepared(f, p.state, key);
  }

  lemma TickFramed(f: Format, p: Published, key: string)
    requires Group(f, p, [Tick(key)]) == [TickItem(f, key)] && f.max >= 400
    requires f.codec.encode(TickItem(f, key).transition).Ok?
    requires |f.codec.encode(TickItem(f, key).transition).value| <= 300
    ensures Framed(f, Group(f, p, [Tick(key)]))
  {
    hide Group;
  }

  lemma AppendsGroup(f: Format, live: Live, requests: seq<Request>)
    requires !live.poisoned && live.next == Some(live.published.revision + 1)
    requires Group(f, live.published, requests) != [] && Framed(f, Group(f, live.published, requests))
    requires live.next.value + |Group(f, live.published, requests)| <= U64_MAX + 1
    requires Loggable(f, Group(f, live.published, requests), live.next.value)
    ensures Appends(f, live, requests)
    ensures BatchBytes(f, live, requests)
            == GroupBytes(f, Group(f, live.published, requests), live.published.revision + 1)
  {
    hide Group, GroupBytes, Framed, Loggable;
  }

  lemma TickLeavesIdle(f: Format, live: Live, key: string)
    requires Invariant(live.published) && Idle(live.published.state)
             && Tick(key).command.identity !in live.published.state.records
    requires Appends(f, live, [Tick(key)]) && Replayable(f, live.published, [Tick(key)]) && live.published.revision == 0
    requires Group(f, live.published, [Tick(key)]) == [TickItem(f, key)] && live.next == Some(1)
    ensures var after := PublishedLive(f, live, [Tick(key)], 1);
            && Invariant(after.published) && Idle(after.published.state) && after.published.revision == 1
            && after.published.state.records.Keys == live.published.state.records.Keys + {Tick(key).command.identity}
            && !after.poisoned && after.next == Some(2)
  {
    hide Invariant, Replayable, Framed, Loggable, PrepareUpTo, InstallAll, Reindex;
    TickPrepared(f, live.published.state, key);
    var j := GroupPrefixInstalls(f, live.published, [Tick(key)], 1);
  }

  lemma GenesisIdle(f: Format)
    ensures Invariant(Genesis) && Idle(Genesis.state) && Genesis.state.records.Keys == {} && Genesis.revision == 0
  {
    hide Invariant;
    InvariantAlways(f.digest, []);
  }

  /**
   Concretely: with any text, hash and digest of the database's own, two expiration passes around a
   failed rotation leave files that do not open, though both were acknowledged.
   */
  lemma TwoTicksFail(text: Text, f: Format, target: nat) returns (states: seq<System>, steps: seq<Step>)
    requires PayloadFormat(text, f) && ShortText(text) && f.max >= 400 && target >= 1000
    ensures |states| == 4 && |steps| == 3 && Runs(f, target, states[..3], steps[..2])
    ensures steps[0].Batch? && steps[0].requests == [Tick("a")] && steps[0].outcome.Committed?
    ensures steps[1] == TakeSnapshot(RotationFailed(true))
    ensures steps[2].Batch? && steps[2].requests == [Tick("b")] && steps[2].outcome.Committed?
    ensures Strayed(states[2]) && Follows(f, target, states[2], steps[2], states[3])
    ensures Open(f, states[3].disk).Err?
  {
    hide *;
    FormatSound(text, f);
    TicksFit(text, f, target);
    states, steps := StrayRunFails(f, target, [Tick("a")], [Tick("b")]);
  }

  lemma TicksFit(text: Text, f: Format, target: nat)
    requires PayloadFormat(text, f) && ShortText(text) && f.max >= 400 && target >= 1000
    ensures TwoBatches(f, target, [Tick("a")], [Tick("b")])
  {
    hide Appends, Replayable, Group, BatchBytes, Invariant, PublishedLive, PayloadFormat, ShortText, Idle, PrepareUpTo;
    GenesisIdle(f);
    TickAppends(text, f, Fresh, "a");
    TickLeavesIdle(f, Fresh, "a");
    assert Tick("b").command.identity != Tick("a").command.identity by {
      assert "b"[0] != "a"[0];
    }
    TickAppends(text, f, AfterFirst(f, [Tick("a")]), "b");
  }
}
