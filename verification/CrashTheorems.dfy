/** Crash safety over all runs of a file database from its creation, and where a failed snapshot rotation breaks it. */
module CrashTheorems {
  import opened Results
  import opened Bytes
  import opened WalRecords
  import opened WalStreams
  import opened Domain
  import opened OrderedKeys
  import opened Transitions
  import opened EngineInvariants
  import opened EngineSafety
  import opened EngineLedger
  import opened Batches
  import opened Replay
  import opened ReplayRefinement
  import opened ReplayTheorems
  import opened Snapshots
  import opened Recovery
  import opened LogDisk
  import opened DiskSteps
  import opened CrashSafety
  import opened DatabaseRuns
  import opened RunSafety

  // ---- Every step ----

  lemma SnapshotSafe(f: Format, s: System, p: Published, result: SnapshotOutcome, s': System)
    requires SoundHash(f.hash) && Good(f, s, p) && SnapshotFollows(s, result, s')
    ensures Good(f, s', p)
  {
    hide Good;
    match result {
      case Disabled =>
      case RotationFailed(created) => RotationFailedSafe(f, s, p, created, s');
      case NotInstalled => NotInstalledSafe(f, s, p, s');
      case Installed => InstalledSafe(f, s, p, s');
    }
  }

  lemma CrashSafe(f: Format, s: System, p: Published)
    requires SoundHash(f.hash) && Good(f, s, p)
    ensures Good(f, System(s.disk, None), p)
  {
    hide Opens;
    hide Invariant;
    hide LiveAgrees;
    GoodOpens(f, s, p);
  }

  /** One step: what reopening recovers grows by exactly the commands the step accounts for. */
  lemma StepSafe(f: Format, target: nat, s: System, step: Step, s': System, p: Published) returns (done: seq<Request>)
    requires SoundHash(f.hash) && Good(f, s, p) && Follows(f, target, s, step, s') && Allowed(f, target, s, step)
    ensures Accounts(step, done) && Good(f, s', Run(p, f.digest, done))
  {
    hide Good;
    hide Allowed;
    hide BatchFollows;
    hide SnapshotFollows;
    hide Open;
    hide PartlyCleaned;
    done := [];
    match step {
      case Batch(requests, outcome) => done := BatchSafe(f, target, s, p, requests, outcome, s');
      case TakeSnapshot(result) => SnapshotSafe(f, s, p, result, s');
      case Crash => CrashSafe(f, s, p);
      case Reopen => ReopenSafe(f, s, p, s');
      case Interrupted => InterruptedSafe(f, s, p, s');
    }
  }

  // ---- Every run ----

  /** A newly created database: one empty segment at sequence one. */
  const Created := System(Disk(map[1 := []], map[]), Some(Live(Genesis, Some(1), 1, false)))

  /** A run from creation. */
  ghost predicate Runs(f: Format, target: nat, states: seq<System>, steps: seq<Step>) {
    && |states| == |steps| + 1 && states[0] == Created
    && forall i :: 0 <= i < |steps| ==>
                     Follows(f, target, states[i], steps[i], states[i + 1]) && Allowed(f, target, states[i], steps[i])
  }

  /** The durable commands of a run, step by step. */
  ghost predicate Accounted(steps: seq<Step>, applied: seq<Request>) {
    if steps == [] then applied == []
    else exists k: nat :: && k <= |applied| && Accounted(steps[..|steps| - 1], applied[..k])
                          && Accounts(steps[|steps| - 1], applied[k..])
  }

  /**
   Crash safety: after any run, reopening the files recovers exactly the commands of all acknowledged
   batches, in order, with some first commands of each batch that broke between them; the next sequence
   follows the last record without a gap, and a database that is open and writable publishes the same state.
   */
  lemma {:induction false} EveryRunRecovers(f: Format, target: nat, states: seq<System>, steps: seq<Step>)
    returns (applied: seq<Request>)
    requires SoundHash(f.hash) && Runs(f, target, states, steps)
    ensures Accounted(steps, applied) && Good(f, states[|steps|], Run(Genesis, f.digest, applied))
    ensures Opens(f, states[|steps|].disk, Run(Genesis, f.digest, applied))
    decreases |steps|
  {
    hide Good;
    hide Follows;
    hide Allowed;
    hide Opens;
    if steps == [] {
      CreatedGood(f);
      applied := [];
    } else {
      var n := |steps| - 1;
      var earlier := EveryRunRecovers(f, target, states[..n + 1], steps[..n]);
      var done := StepSafe(f, target, states[n], steps[n], states[n + 1], Run(Genesis, f.digest, earlier));
      applied := earlier + done;
      assert applied[..|earlier|] == earlier && applied[|earlier|..] == done;
      RunConcatenates(Genesis, f.digest, earlier, done);
    }
    GoodOpens(f, states[|steps|], Run(Genesis, f.digest, applied));
  }

  lemma CreatedGood(f: Format)
    ensures Good(f, Created, Genesis)
  {
    hide *;
    GenesisRun(f);
    InvariantAlways(f.digest, []);
    CreatedHolds(f);
    CreatedAgrees(f);
  }

  lemma GenesisRun(f: Format)
    ensures Run(Genesis, f.digest, []) == Genesis
    ensures ValidRequests([])
    ensures Created.live == Some(Live(Genesis, Some(1), 1, false)) && Genesis.revision == 0
    ensures Invariant(Genesis) && LiveAgrees(f, Created.disk, Created.live.value, Genesis) ==> Good(f, Created, Genesis)
  {
    hide Invariant;
    hide LiveAgrees;
  }

  lemma CreatedHolds(f: Format)
    ensures LoggedAs(f, Created.disk, Genesis, Unindexed(Genesis), 1, [])
    ensures LiveSegments(Created.disk) == [1]
  {
    hide GroupBytes;
    var disk := Created.disk;
    EmptyLatest();
    hide Latest;
    hide SortedKeys;
    LiveAre(disk, [1]);
    NoBytes(f, 1);
    assert SegmentItems([], [1], 1, 0) == [];
    assert SegmentHolds(f, disk.segments, [], [1], 1, 0);
    hide LiveSegments;
    HoldsFrom(f, disk, Unindexed(Genesis), 1, []);
    NothingInstalled(Unindexed(Genesis), f.digest);
  }

  lemma CreatedAgrees(f: Format)
    requires LoggedAs(f, Created.disk, Genesis, Unindexed(Genesis), 1, []) && LiveSegments(Created.disk) == [1]
    ensures LiveAgrees(f, Created.disk, Created.live.value, Genesis)
  {
    hide LoggedAs;
    hide LiveSegments;
    hide Recoverable;
    LoggedRecoverable(f, Created.disk, Genesis, Unindexed(Genesis), 1, []);
  }

  // ---- A batch after a failed rotation ----

  /** Bytes appended to the segment before the stray one, all of a group's or only some. */
  lemma StrayedAppend(f: Format, disk: Disk, live: Live, p: Published, group: seq<Item>, cut: nat)
    requires SoundHash(f.hash) && Invariant(p) && LiveAgrees(f, disk, live, p)
             && live.active != LastOf(LiveSegments(disk))
    requires Loggable(f, group, p.revision + 1) && InstallAll(Unindexed(p), f.digest, group).Ok?
    requires 0 < cut <= |GroupBytes(f, group, p.revision + 1)|
    ensures var found := Open(f, AppendedTo(disk, live.active, GroupBytes(f, group, p.revision + 1)[..cut]));
            && found.Err?
            && (cut == |GroupBytes(f, group, p.revision + 1)| ==>
                  found.error == SegmentSequence(NextAfter(p.revision + 1, |group|), p.revision + 1))
  {
    hide *;
    var base, first, items := StrayedLogged(f, disk, live, p);
    var keys := LiveSegments(disk);
    LoggableFacts(f, group, p.revision + 1);
    UnindexedInstalled(p, f.digest, base, items, group);
    StrayedFeed(f, disk, live.active, base, first, items, group, cut);
    StrayedOpen(f, disk, live.active, base, first, items, group, cut, p);
  }

  lemma StrayedLogged(f: Format, disk: Disk, live: Live, p: Published)
    returns (base: Published, first: int, items: seq<Item>)
    requires LiveAgrees(f, disk, live, p) && live.active != LastOf(LiveSegments(disk))
    ensures Holds(f, disk, base, first, items) && InstallAll(base, f.digest, items) == Ok(Unindexed(p))
    ensures first + |items| == p.revision + 1 && StrayBehind(disk, live.active, p)
    ensures |LiveSegments(disk)| >= 2 && LiveSegments(disk)[|LiveSegments(disk)| - 2] == live.active
    ensures LastOf(LiveSegments(disk)) == p.revision + 1
  {
    hide LiveSegments;
    hide Holds;
    hide InstallAll;
    hide Recoverable;
    assert LastOf(LiveSegments(disk)) == p.revision + 1 <= U64_MAX;
    assert !AtEnd(f, disk, p);
    base, first, items := LoggedUnfold(f, disk, p);
  }

  /** The segments before the active one feed as before. */
  lemma StrayedEarlier(f: Format, disk: Disk, after: Disk, active: int, base: Published, first: int, items: seq<Item>)
    requires SoundHash(f.hash) && Holds(f, disk, base, first, items) && InstallAll(base, f.digest, items).Ok?
    requires |LiveSegments(disk)| >= 2 && LiveSegments(disk)[|LiveSegments(disk)| - 2] == active
    requires LastOf(LiveSegments(disk)) == first + |items|
    requires forall k :: k in disk.segments && k != active ==>
                           k in after.segments && after.segments[k] == disk.segments[k]
    ensures first <= active < first + |items| && InstallAll(base, f.digest, items[..active - first]).Ok?
    ensures FeedSegments(f, Recovering(base, Some(first)), after.segments, LiveSegments(disk), |LiveSegments(disk)| - 2)
            == Ok(Feeding(Recovering(InstallAll(base, f.digest, items[..active - first]).value, Some(active)),
                          after.segments))
    ensures active in disk.segments && Loggable(f, items[active - first..], active)
    ensures disk.segments[active] == GroupBytes(f, items[active - first..], active)
  {
    hide FeedSegments;
    hide GroupBytes;
    hide InstallAll;
    hide LiveSegments;
    hide Holds;
    hide Loggable;
    HoldsFacts(f, disk, base, first, items);
    var keys := LiveSegments(disk);
    EarlierHeld(f, disk.segments, after.segments, items, keys, first);
    FeedHeldSegments(f, after.segments, keys, base, first, items, |keys| - 2);
    assert keys[0] == first;
    assert HeldBy(keys, first, |items|, |keys| - 2) == active - first;
    PenultimateShare(f, disk.segments, items, keys, first);
  }

  /** Feeding stops at the stray segment, or before it: the records in front already reach beyond its name. */
  lemma StrayedFeed(f: Format, disk: Disk, active: int, base: Published, first: int, items: seq<Item>, group: seq<Item>,
                    cut: nat)
    requires SoundHash(f.hash) && Holds(f, disk, base, first, items)
    requires |LiveSegments(disk)| >= 2 && LiveSegments(disk)[|LiveSegments(disk)| - 2] == active
    requires LastOf(LiveSegments(disk)) == first + |items|
    requires Loggable(f, group, first + |items|) && InstallAll(base, f.digest, items + group).Ok?
    requires 0 < cut <= |GroupBytes(f, group, first + |items|)|
    ensures var after := AppendedTo(disk, active, GroupBytes(f, group, first + |items|)[..cut]);
            var fed :=
              FeedSegments(f, Recovering(base, Some(first)), after.segments, LiveSegments(disk), |LiveSegments(disk)|);
            && fed.Err?
            && (cut == |GroupBytes(f, group, first + |items|)| ==>
                  fed.error == SegmentSequence(NextAfter(first + |items|, |group|), first + |items|))
  {
    hide *;
    var keys := LiveSegments(disk);
    var end := first + |items|;
    LoggableFacts(f, group, end);
    var bytes := GroupBytes(f, group, end)[..cut];
    var after := AppendedTo(disk, active, bytes);
    InstallPrefix(base, f.digest, items + group, |items|);
    assert (items + group)[..|items|] == items;
    HeldActive(f, disk, base, first, items, active);
    AppendedOnly(disk, active, bytes);
    StrayedEarlier(f, disk, after, active, base, first, items);
    InstallWhole(base, f.digest, items, group, active - first);
    var p := InstallAll(base, f.digest, items[..active - first]).value;
    StrayedReach(f, Recovering(base, Some(first)), after, keys, active, p, items[active - first..], group, cut, end);
  }

  /** Feeding the active segment fails on a cut record or passes the stray segment's name. */
  lemma StrayedReach(f: Format, start: Recovering, after: Disk, keys: seq<int>, active: int, p: Published,
                     part: seq<Item>, group: seq<Item>, cut: nat, end: int)
    requires SoundHash(f.hash) && Loggable(f, part, active) && Loggable(f, group, end) && active <= U64_MAX
    requires active + |part| == end && InstallAll(p, f.digest, part + group).Ok?
    requires 0 < cut <= |GroupBytes(f, group, end)|
    requires active in after.segments
    requires after.segments[active] == GroupBytes(f, part, active) + GroupBytes(f, group, end)[..cut]
    requires |keys| >= 2 && keys[|keys| - 2] == active && LastOf(keys) == end
    requires FeedSegments(f, start, after.segments, keys, |keys| - 2)
             == Ok(Feeding(Recovering(p, Some(active)), after.segments))
    ensures var fed := FeedSegments(f, start, after.segments, keys, |keys|);
            && fed.Err?
            && (cut == |GroupBytes(f, group, end)| ==> fed.error == SegmentSequence(NextAfter(end, |group|), end))
  {
    hide *;
    FeedBeyond(f, p, part, group, active, cut, after.segments);
    var earlier := Feeding(Recovering(p, Some(active)), after.segments);
    FeedLastTwo(f, start, after.segments, keys, earlier);
    var reached := FeedSegment(f, earlier, active, true);
    if reached.Ok? {
      StrayUnexpected(f, reached.value, end);
    }
  }

  /**
   A sealed segment with some of a group behind its records: a cut record is fatal, complete ones move the
   sequence on.
   */
  lemma FeedBeyond(f: Format, p: Published, part: seq<Item>, group: seq<Item>, key: int, cut: nat,
                   segments: map<int, seq<byte>>)
    requires SoundHash(f.hash) && Loggable(f, part, key) && Loggable(f, group, key + |part|) && key <= U64_MAX
    requires InstallAll(p, f.digest, part + group).Ok? && 0 < cut <= |GroupBytes(f, group, key + |part|)|
    requires key in segments && segments[key] == GroupBytes(f, part, key) + GroupBytes(f, group, key + |part|)[..cut]
    ensures var fed := FeedSegment(f, Feeding(Recovering(p, Some(key)), segments), key, true);
            && (fed.Ok? ==> fed.value.recovering.next != Some(key + |part|))
            && (cut == |GroupBytes(f, group, key + |part|)| ==>
                  fed.Ok? && fed.value.recovering.next == NextAfter(key + |part|, |group|))
  {
    hide InstallAll, FeedFrom, GroupBytes, Writable;
    var all := part + group;
    LoggableConcat(f, part, group, key);
    var bytes := GroupBytes(f, all, key);
    var end := |GroupBytes(f, part, key)| + cut;
    assert segments[key] == bytes[..end];
    var k := FeedGroupPrefix(f, p, all, key, end);
    PartOnly(f, part, group, key);
    if cut == |GroupBytes(f, group, key + |part|)| {
      assert bytes[..end] == bytes;
      FeedWhole(f, p, all, key);
    }
  }

  lemma PartOnly(f: Format, part: seq<Item>, group: seq<Item>, key: int)
    requires Loggable(f, part, key) && Loggable(f, part + group, key)
    ensures (part + group)[..|part|] == part
    ensures forall k :: k == |part| ==> GroupBytes(f, (part + group)[..k], key) == GroupBytes(f, part, key)
  {
    hide GroupBytes;
    assert (part + group)[..|part|] == part;
  }

  lemma HeldActive(f: Format, disk: Disk, base: Published, first: int, items: seq<Item>, active: int)
    requires Holds(f, disk, base, first, items)
    requires |LiveSegments(disk)| >= 2 && LiveSegments(disk)[|LiveSegments(disk)| - 2] == active
    ensures active in disk.segments && active <= U64_MAX
  {
    hide LiveSegments;
    hide Holds;
    HoldsFacts(f, disk, base, first, items);
    StartsBounded(LiveSegments(disk), first, first + |items|, |LiveSegments(disk)| - 2);
  }

  lemma AppendedOnly(disk: Disk, segment: int, bytes: seq<byte>)
    requires segment in disk.segments
    ensures var after := AppendedTo(disk, segment, bytes);
            && segment in after.segments && after.segments[segment] == disk.segments[segment] + bytes
            && forall k :: k in disk.segments && k != segment ==>
                             k in after.segments && after.segments[k] == disk.segments[k]
  {
  }

  /** The last two segments fed in turn. */
  lemma FeedLastTwo(f: Format, start: Recovering, segments: map<int, seq<byte>>, keys: seq<int>, earlier: Feeding)
    requires |keys| >= 2 && FeedSegments(f, start, segments, keys, |keys| - 2) == Ok(earlier)
    ensures FeedSegments(f, start, segments, keys, |keys|)
            == var reached := FeedSegment(f, earlier, keys[|keys| - 2], true);
               if reached.Err? then Err(reached.error) else FeedSegment(f, reached.value, LastOf(keys), false)
  {
    hide FeedSegment;
    FeedSegmentsLast(f, start, segments, keys, |keys| - 1);
    if FeedSegments(f, start, segments, keys, |keys| - 1).Ok? {
      FeedSegmentsLast(f, start, segments, keys, |keys|);
    }
  }

  lemma EarlierHeld(f: Format, before: map<int, seq<byte>>, after: map<int, seq<byte>>, items: seq<Item>,
                    keys: seq<int>, first: int)
    requires |keys| >= 2 && HoldsUpTo(f, before, items, keys, first, |keys|)
    requires forall k :: k in before && k != keys[|keys| - 2] ==> k in after && after[k] == before[k]
    ensures HoldsUpTo(f, after, items, keys, first, |keys| - 2)
  {
    hide GroupBytes;
    forall i | 0 <= i < |keys| - 2
      ensures SegmentHolds(f, after, items, keys, first, i)
    {
      assert SegmentHolds(f, before, items, keys, first, i);
      assert keys[i] < keys[|keys| - 2];
    }
  }

  lemma PenultimateShare(f: Format, segments: map<int, seq<byte>>, items: seq<Item>, keys: seq<int>, first: int)
    requires |keys| >= 2 && HoldsUpTo(f, segments, items, keys, first, |keys|) && LastOf(keys) == first + |items|
    ensures var active := keys[|keys| - 2];
            && first <= active < LastOf(keys) && active in segments && Loggable(f, items[active - first..], active)
            && segments[active] == GroupBytes(f, items[active - first..], active)
  {
    hide GroupBytes;
    var i := |keys| - 2;
    StartsBounded(keys, first, first + |items|, i);
    LoggableSlice(f, items, first, keys[i] - first, |items|);
    assert SegmentHolds(f, segments, items, keys, first, i);
    assert items[keys[i] - first..|items|] == items[keys[i] - first..];
  }

  lemma StrayUnexpected(f: Format, reached: Feeding, stray: int)
    requires reached.recovering.next != Some(stray)
    ensures FeedSegment(f, reached, stray, false) == Err(SegmentSequence(reached.recovering.next, stray))
  {
    hide FeedFrom;
  }

  lemma StrayedOpen(f: Format, disk: Disk, active: int, base: Published, first: int, items: seq<Item>, group: seq<Item>,
                    cut: nat, p: Published)
    requires Holds(f, disk, base, first, items) && StrayBehind(disk, active, p) && first + |items| == p.revision + 1
    requires Loggable(f, group, first + |items|) && cut <= |GroupBytes(f, group, first + |items|)|
    requires FeedSegments(f, Recovering(base, Some(first)),
                          AppendedTo(disk, active, GroupBytes(f, group, first + |items|)[..cut]).segments,
                          LiveSegments(disk), |LiveSegments(disk)|).Err?
    ensures var after := AppendedTo(disk, active, GroupBytes(f, group, p.revision + 1)[..cut]);
            var fed :=
              FeedSegments(f, Recovering(base, Some(first)), after.segments, LiveSegments(disk), |LiveSegments(disk)|);
            Open(f, after) == Err(fed.error)
  {
    hide FeedSegments;
    hide GroupBytes;
    hide LiveSegments;
    hide Holds;
    hide Writable;
    hide Base;
    hide MinimumSequence;
    hide Latest;
    HoldsFacts(f, disk, base, first, items);
    SameLive(AppendedTo(disk, active, GroupBytes(f, group, p.revision + 1)[..cut]), disk);
  }

  lemma OpensOk(f: Format, disk: Disk, p: Published)
    requires Opens(f, disk, p)
    ensures Open(f, disk).Ok?
  {
    hide Open;
    hide Recoverable;
  }

  /**
   A failed rotation before a snapshot leaves an open, unpoisoned database that appends in front of the
   stray segment. Whatever becomes of a batch, acknowledged or broken, the files open afterwards exactly
   when there is no stray segment, the batch rotates onto it, or no byte of the batch was appended.
   */
  lemma BatchOpensExactly(f: Format, target: nat, s: System, p: Published, requests: seq<Request>,
                          outcome: BatchOutcome, s': System)
    requires SoundHash(f.hash) && Good(f, s, p) && s.live.Some? && !s.live.value.poisoned
    requires AppendsBytes(outcome) ==> Replayable(f, p, requests)
    requires BatchFollows(f, target, s, requests, outcome, s')
    ensures Open(f, s'.disk).Ok?
            <==> !Strayed(s) || RotatesFirst(f, target, s, requests) || !AppendsBytes(outcome)
  {
    hide *;
    if !Strayed(s) || RotatesFirst(f, target, s, requests) || !AppendsBytes(outcome) {
      AllowedBatch(f, target, s, p, requests, outcome);
      var done := BatchSafe(f, target, s, p, requests, outcome, s');
      GoodOpens(f, s', Run(p, f.digest, done));
      OpensOk(f, s'.disk, Run(p, f.digest, done));
    } else {
      var error := StrayedBatch(f, target, s, p, requests, outcome, s');
    }
  }

  lemma AllowedBatch(f: Format, target: nat, s: System, p: Published, requests: seq<Request>, outcome: BatchOutcome)
    requires Good(f, s, p) && s.live.Some? && !s.live.value.poisoned
             && (AppendsBytes(outcome) ==> Replayable(f, p, requests))
    requires !Strayed(s) || RotatesFirst(f, target, s, requests) || !AppendsBytes(outcome)
    ensures Allowed(f, target, s, Batch(requests, outcome))
  {
    hide Recoverable, LiveSegments, Invariant, Replayable, Strayed, RotatesFirst, AppendsBytes;
  }

  /** The files a batch leaves when it appends in front of a stray segment, and why they do not open. */
  lemma StrayedBatch(f: Format, target: nat, s: System, p: Published, requests: seq<Request>, outcome: BatchOutcome,
                     s': System)
    returns (error: FileError)
    requires SoundHash(f.hash) && Good(f, s, p) && s.live.Some? && !s.live.value.poisoned && Replayable(f, p, requests)
    requires BatchFollows(f, target, s, requests, outcome, s') && AppendsBytes(outcome)
    requires Strayed(s) && !RotatesFirst(f, target, s, requests)
    ensures Open(f, s'.disk) == Err(error)
    ensures outcome.Committed?
            ==> error == SegmentSequence(NextAfter(p.revision + 1, |Group(f, p, requests)|), p.revision + 1)
  {
    hide *;
    var group := Group(f, p, requests);
    var cut := StrayedFacts(f, target, s, p, requests, outcome, s');
    var j := GroupPrefixInstalls(f, p, requests, |group|);
    assert group[..|group|] == group;
    StrayedAppend(f, s.disk, s.live.value, p, group, cut);
    error := Open(f, s'.disk).error;
  }

  lemma StrayedFacts(f: Format, target: nat, s: System, p: Published, requests: seq<Request>, outcome: BatchOutcome,
                     s': System)
    returns (cut: nat)
    requires SoundHash(f.hash) && Good(f, s, p) && s.live.Some? && !s.live.value.poisoned
    requires BatchFollows(f, target, s, requests, outcome, s') && AppendsBytes(outcome)
    requires Strayed(s) && !RotatesFirst(f, target, s, requests)
    ensures Invariant(p) && LiveAgrees(f, s.disk, s.live.value, p)
            && s.live.value.active != LastOf(LiveSegments(s.disk))
    ensures Loggable(f, Group(f, p, requests), p.revision + 1)
    ensures p.revision + |Group(f, p, requests)| <= U64_MAX
    ensures 0 < cut <= |GroupBytes(f, Group(f, p, requests), p.revision + 1)|
    ensures outcome.Committed? ==> cut == |GroupBytes(f, Group(f, p, requests), p.revision + 1)|
    ensures s'.disk
            == AppendedTo(s.disk, s.live.value.active, GroupBytes(f, Group(f, p, requests), p.revision + 1)[..cut])
  {
    hide Good, LiveAgrees, Strayed, BatchFollows, RotatesFirst, GroupBytes, Group, AppendedTo, Loggable, Invariant,
         LiveSegments;
    StrayedState(f, s, p);
    cut := StrayedBytes(f, target, s, requests, outcome, s');
  }

  lemma StrayedState(f: Format, s: System, p: Published)
    requires Good(f, s, p) && s.live.Some? && !s.live.value.poisoned && Strayed(s)
    ensures Invariant(p) && LiveAgrees(f, s.disk, s.live.value, p)
    ensures s.live.value.active != LastOf(LiveSegments(s.disk))
    ensures s.live.value.published == p && s.live.value.next == Some(p.revision + 1)
  {
    hide Invariant, Recoverable, LiveSegments;
  }

  lemma StrayedBytes(f: Format, target: nat, s: System, requests: seq<Request>, outcome: BatchOutcome, s': System)
    returns (cut: nat)
    requires SoundHash(f.hash) && s.live.Some? && s.live.value.next.Some?
    requires BatchFollows(f, target, s, requests, outcome, s') && AppendsBytes(outcome)
    requires !RotatesFirst(f, target, s, requests)
    ensures var group, first := Group(f, s.live.value.published, requests), s.live.value.next.value;
            && Loggable(f, group, first) && first + |group| <= U64_MAX + 1 && 0 < cut <= |GroupBytes(f, group, first)|
            && (outcome.Committed? ==> cut == |GroupBytes(f, group, first)|)
            && s'.disk == AppendedTo(s.disk, s.live.value.active, GroupBytes(f, group, first)[..cut])
  {
    hide LiveSegments, GroupBytes, Group, AppendedTo, PublishedAt, Framed, Writable, PrepareUpTo;
    var group, first := Group(f, s.live.value.published, requests), s.live.value.next.value;
    var bytes := GroupBytes(f, group, first);
    EmptyGroup(f, group, first);
    cut := if outcome.Broken? then outcome.cut else |bytes|;
    assert bytes[..|bytes|] == bytes;
  }
}
