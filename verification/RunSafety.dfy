/**
 What every run of a file database keeps: whatever is appended, snapshotted, compacted, interrupted or
 crashed, reopening recovers every acknowledged batch plus some commands of the ones that broke.
 */
module RunSafety {
  import opened Results
  import opened Bytes
  import opened WalRecords
  import opened WalStreams
  import opened Domain
  import opened OrderedKeys
  import opened Transitions
  import opened EngineInvariants
  import opened EngineSafety
  import opened EngineLedger
  import opened Batches
  import opened Replay
  import opened ReplayRefinement
  import opened ReplayTheorems
  import opened Snapshots
  import opened Recovery
  import opened LogDisk
  import opened DiskSteps
  import opened CrashSafety
  import opened DatabaseRuns

  /**
   The commands a step makes durable: all of an acknowledged batch, some first ones of a broken one, none
   otherwise.
   */
  predicate Accounts(step: Step, done: seq<Request>) {
    if step.Batch? && step.outcome.Committed? then done == step.requests
    else if step.Batch? && step.outcome.Broken? then done <= step.requests
    else done == []
  }

  // ---- Batches ----

  /** Where a batch appends, the log ends: at the last segment, or at the stray one it rotates onto. */
  lemma BatchReady(f: Format, target: nat, s: System, p: Published, requests: seq<Request>)
    returns (base: Published, first: int, items: seq<Item>)
    requires SoundHash(f.hash) && s.live.Some? && LiveAgrees(f, s.disk, s.live.value, p)
    requires Appends(f, s.live.value, requests) && (Strayed(s) ==> RotatesFirst(f, target, s, requests))
    ensures var (disk, segment) := BatchTarget(f, target, s, s.live.value, requests);
            && ReadyAt(f, disk, p, base, first, items, segment)
            && s.live.value.next == Some(p.revision + 1) && s.live.value.published == p && p.revision + 1 <= U64_MAX
            && Loggable(f, Group(f, p, requests), p.revision + 1)
  {
    hide LiveSegments;
    hide ReadyAt;
    hide Recoverable;
    hide Loggable;
    hide Group;
    hide GroupBytes;
    hide Framed;
    hide AppendTarget;
    var live := s.live.value;
    if Strayed(s) {
      base, first, items := SnapshotReady(f, s.disk, live, p);
      RotatedTarget(f, target, s, requests);
    } else {
      base, first, items := ReadyLogged(f, s.disk, p, live);
      TargetReady(f, target, s.disk, p, base, first, items, live.active, |BatchBytes(f, live, requests)|);
    }
  }

  /** A rotating batch goes where a snapshot's rotation would. */
  lemma RotatedTarget(f: Format, target: nat, s: System, requests: seq<Request>)
    requires RotatesFirst(f, target, s, requests)
    ensures BatchTarget(f, target, s, s.live.value, requests) == SnapshotTarget(s.disk, s.live.value)
    ensures SnapshotTarget(s.disk, s.live.value)
            == (RotatedDisk(s.disk, s.live.value.next.value), s.live.value.next.value)
  {
    hide GroupBytes;
    hide Group;
    hide Framed;
    hide Loggable;
  }

  lemma ReadyAgrees(f: Format, disk: Disk, p: Published, base: Published, first: int, items: seq<Item>, segment: int)
    requires ReadyAt(f, disk, p, base, first, items, segment)
    ensures Recoverable(f, disk, p)
    ensures LiveAgrees(f, disk, Live(p, NextAfter(1, p.revision), segment, false), p)
  {
    hide LiveSegments;
    hide Recoverable;
    hide LoggedAs;
    LoggedRecoverable(f, disk, p, base, first, items);
  }

  lemma CommittedSafe(f: Format, target: nat, s: System, p: Published, requests: seq<Request>,
                      responses: seq<Response>, s': System)
    requires SoundHash(f.hash) && Good(f, s, p) && s.live.Some? && !s.live.value.poisoned
    requires Replayable(f, p, requests) && (Strayed(s) ==> RotatesFirst(f, target, s, requests))
    requires BatchFollows(f, target, s, requests, BatchOutcome.Committed(responses), s')
    ensures Good(f, s', Run(p, f.digest, requests))
  {
    hide ReadyAt;
    hide Recoverable;
    hide LiveSegments;
    hide Invariant;
    hide Replayable;
    hide Group;
    hide GroupBytes;
    hide PublishedAt;
    hide AppendTarget;
    hide AppendedTo;
    hide Strayed;
    hide RotatesFirst;
    hide LiveAgrees;
    hide Framed;
    hide Loggable;
    hide Run;
    var live := s.live.value;
    var base, first, items := BatchReady(f, target, s, p, requests);
    var (disk, segment) := BatchTarget(f, target, s, live, requests);
    CommittedReady(f, disk, p, base, first, items, segment, requests);
    ReadyAgrees(f, s'.disk, Run(p, f.digest, requests), base, first, items + Group(f, p, requests), segment);
  }

  lemma BrokenSafe(f: Format, target: nat, s: System, p: Published, requests: seq<Request>, cut: nat, s': System)
    returns (done: seq<Request>)
    requires SoundHash(f.hash) && Good(f, s, p) && s.live.Some? && !s.live.value.poisoned
    requires Replayable(f, p, requests) && (Strayed(s) ==> RotatesFirst(f, target, s, requests))
    requires BatchFollows(f, target, s, requests, Broken(cut), s')
    ensures done <= requests && Good(f, s', Run(p, f.digest, done))
  {
    hide ReadyAt;
    hide Recoverable;
    hide LiveSegments;
    hide Invariant;
    hide Replayable;
    hide Group;
    hide GroupBytes;
    hide PublishedAt;
    hide AppendTarget;
    hide AppendedTo;
    hide Strayed;
    hide RotatesFirst;
    hide Opens;
    var live := s.live.value;
    var base, first, items := BatchReady(f, target, s, p, requests);
    var (disk, segment) := BatchTarget(f, target, s, live, requests);
    var j := BrokenOpens(f, disk, p, base, first, items, segment, requests, cut);
    done := requests[..j];
    LoggableFacts(f, Group(f, p, requests), p.revision + 1);
  }

  /** The segment a batch would append to is in place, stray or not, and nothing has been appended. */
  lemma TargetRecoverable(f: Format, target: nat, s: System, p: Published, requests: seq<Request>)
    requires SoundHash(f.hash) && s.live.Some? && LiveAgrees(f, s.disk, s.live.value, p)
             && Appends(f, s.live.value, requests)
    ensures Recoverable(f, s.disk, p) && Recoverable(f, BatchTarget(f, target, s, s.live.value, requests).0, p)
    ensures RotatesFirst(f, target, s, requests)
            ==> BatchTarget(f, target, s, s.live.value, requests).0 == RotatedDisk(s.disk, s.live.value.next.value)
    ensures var (disk, segment) := BatchTarget(f, target, s, s.live.value, requests); segment in disk.segments
  {
    hide LiveSegments;
    hide ReadyAt;
    hide Recoverable;
    hide Group;
    hide GroupBytes;
    hide Framed;
    hide Strayed;
    hide Writable;
    var live := s.live.value;
    if RotatesFirst(f, target, s, requests) {
      var base, first, items := BatchReady(f, target, s, p, requests);
      var (disk, segment) := BatchTarget(f, target, s, live, requests);
      ReadyAgrees(f, disk, p, base, first, items, segment);
    }
  }

  /** A batch that appended nothing before it failed. */
  lemma NothingAppendedSafe(f: Format, target: nat, s: System, p: Published, requests: seq<Request>,
                            outcome: BatchOutcome, s': System)
    requires SoundHash(f.hash) && Good(f, s, p) && s.live.Some? && !s.live.value.poisoned
    requires BatchFollows(f, target, s, requests, outcome, s') && (outcome == Broken(0) || outcome.Unrotated?)
    ensures Good(f, s', p)
  {
    hide Recoverable;
    hide LiveSegments;
    hide Invariant;
    hide Group;
    hide GroupBytes;
    hide Opens;
    hide AppendTarget;
    hide Framed;
    hide Loggable;
    TargetRecoverable(f, target, s, p, requests);
    RecoverableOpens(f, s.disk, p);
    var (disk, segment) := BatchTarget(f, target, s, s.live.value, requests);
    RecoverableOpens(f, disk, p);
    NothingBehind(disk, segment, BatchBytes(f, s.live.value, requests));
  }

  lemma NothingBehind(disk: Disk, segment: int, bytes: seq<byte>)
    ensures AppendedTo(disk, segment, bytes[..0]) == disk
  {
    if segment in disk.segments {
      assert disk.segments[segment] + bytes[..0] == disk.segments[segment];
      assert disk.segments[segment := disk.segments[segment]] == disk.segments;
    }
  }

  lemma BatchSafe(f: Format, target: nat, s: System, p: Published, requests: seq<Request>, outcome: BatchOutcome,
                  s': System)
    returns (done: seq<Request>)
    requires SoundHash(f.hash) && Good(f, s, p) && Allowed(f, target, s, Batch(requests, outcome))
    requires BatchFollows(f, target, s, requests, outcome, s')
    ensures Accounts(Batch(requests, outcome), done) && Good(f, s', Run(p, f.digest, done))
  {
    hide LiveSegments;
    hide Invariant;
    hide Recoverable;
    hide Strayed;
    hide RotatesFirst;
    hide Replayable;
    hide Opens;
    hide Framed;
    hide Loggable;
    hide Group;
    done := [];
    match outcome {
      case Committed(responses) =>
        done := requests;
        CommittedSafe(f, target, s, p, requests, responses, s');
      case Broken(cut) =>
        if cut == 0 {
          NothingAppendedSafe(f, target, s, p, requests, outcome, s');
        } else {
          done := BrokenSafe(f, target, s, p, requests, cut, s');
        }
      case Unrotated(_) =>
        NothingAppendedSafe(f, target, s, p, requests, outcome, s');
      case Refused =>
      case Answered(_) =>
    }
  }

  // ---- Reopening ----

  /** Whatever state a run is in, its files open to `p`. */
  lemma GoodOpens(f: Format, s: System, p: Published)
    requires SoundHash(f.hash) && Good(f, s, p)
    ensures Opens(f, s.disk, p)
  {
    hide Opens;
    hide Recoverable;
    hide Invariant;
    if s.live.Some? && !s.live.value.poisoned {
      RecoverableOpens(f, s.disk, p);
    }
  }

  lemma ReopenSafe(f: Format, s: System, p: Published, s': System)
    requires SoundHash(f.hash) && Good(f, s, p) && Follows(f, 0, s, Reopen, s')
    ensures s'.live.Some? && Good(f, s', p)
  {
    hide Open;
    hide Recoverable;
    hide Invariant;
    hide LiveSegments;
    OpenedActive(f, s.disk);
    var found := Open(f, s.disk).value;
    assert found.active in found.disk.segments;
  }

  /** The active segment of an opened database exists. */
  lemma OpenedActive(f: Format, disk: Disk)
    requires Open(f, disk).Ok? && Open(f, disk).value.active in LiveSegments(Open(f, disk).value.disk)
    ensures Open(f, disk).value.active in Open(f, disk).value.disk.segments
  {
    hide Open;
    var found := Open(f, disk).value;
    var active := found.active;
    assert active in LiveSegments(found.disk);
  }

  /** An interrupted opening changes nothing that the next one recovers. */
  lemma InterruptedSafe(f: Format, s: System, p: Published, s': System)
    requires SoundHash(f.hash) && Good(f, s, p) && Follows(f, 0, s, Interrupted, s')
    ensures Good(f, s', p)
  {
    hide Recoverable;
    hide Invariant;
    hide LiveSegments;
    hide Open;
    OpenKeepsSnapshots(f, s.disk);
    PartlyRecoverable(f, Open(f, s.disk).value.disk, s'.disk, p);
    RecoverableOpens(f, s'.disk, p);
  }

  lemma OpenKeepsSnapshots(f: Format, disk: Disk)
    requires Open(f, disk).Ok?
    ensures var after := Open(f, disk).value.disk;
            after.snapshots == disk.snapshots && MinimumSequence(after) == MinimumSequence(disk)
  {
    hide FeedSegments;
    hide Reindex;
    hide LiveSegments;
    hide Latest;
  }

  lemma PartlyRecoverable(f: Format, clean: Disk, after: Disk, p: Published)
    requires Recoverable(f, clean, p) && clean.snapshots == after.snapshots
    requires forall k :: k in clean.segments ==> k in after.segments && after.segments[k] == clean.segments[k]
    requires forall k :: k in after.segments && k !in clean.segments ==> k < MinimumSequence(clean)
    ensures Recoverable(f, after, p)
  {
    hide LoggedAs;
    SameSnapshots(clean, after);
    SameLiveAbove(clean, after);
    hide LiveSegments;
    if !AtEnd(f, clean, p) {
      var base, first, items := LoggedUnfold(f, clean, p);
      PartlyLogged(f, clean, after, p, base, first, items);
    } else {
      assert AtEnd(f, after, p);
    }
  }

  lemma SameLiveAbove(clean: Disk, after: Disk)
    requires clean.snapshots == after.snapshots
    requires forall k :: k in clean.segments ==> k in after.segments && after.segments[k] == clean.segments[k]
    requires forall k :: k in after.segments && k !in clean.segments ==> k < MinimumSequence(clean)
    ensures LiveSegments(after) == LiveSegments(clean)
  {
    SameSnapshots(clean, after);
    hide MinimumSequence;
    hide SortedKeys;
    LiveAre(after, LiveSegments(clean));
  }

  lemma PartlyLogged(f: Format, clean: Disk, after: Disk, p: Published, base: Published, first: int, items: seq<Item>)
    requires LoggedAs(f, clean, p, base, first, items) && clean.snapshots == after.snapshots
    requires LiveSegments(after) == LiveSegments(clean)
    requires forall k :: k in clean.segments ==> k in after.segments && after.segments[k] == clean.segments[k]
    ensures LoggedAs(f, after, p, base, first, items)
  {
    hide LiveSegments;
    hide GroupBytes;
    hide InstallAll;
    hide MinimumSequence;
    hide Base;
    SameSnapshots(clean, after);
    HoldsFacts(f, clean, base, first, items);
    var keys := LiveSegments(after);
    forall i | 0 <= i < |keys|
      ensures SegmentHolds(f, after.segments, items, keys, first, i)
    {
      StartsBounded(keys, first, first + |items|, i);
      assert SegmentHolds(f, clean.segments, items, keys, first, i);
    }
    HoldsFrom(f, after, base, first, items);
  }

  // ---- Snapshots ----

  /**
   The segment after rotation is empty, last, and starts at the next sequence, even where a failed rotation
   left it behind.
   */
  lemma SnapshotReady(f: Format, disk: Disk, live: Live, p: Published)
    returns (base: Published, first: int, items: seq<Item>)
    requires SoundHash(f.hash) && LiveAgrees(f, disk, live, p) && live.next.Some?
    ensures var (disk', active) := SnapshotTarget(disk, live);
            && ReadyAt(f, disk', p, base, first, items, active) && active == p.revision + 1 <= U64_MAX
            && live.next == Some(active)
  {
    hide LiveSegments;
    hide Recoverable;
    hide LoggedAs;
    assert !AtEnd(f, disk, p);
    base, first, items := LoggedUnfold(f, disk, p);
    LoggedRevision(f, disk, p, base, first, items);
    LastEmpty(f, disk, base, first, items);
    if live.active == LastOf(LiveSegments(disk)) {
      if disk.segments[live.active] != [] {
        RotatedReady(f, disk, p, base, first, items, live.active);
      }
    } else {
      assert RotatedDisk(disk, p.revision + 1).segments == disk.segments;
    }
  }

  /** A rotation that failed after creating its segment leaves it behind the active one, if it was not there already. */
  lemma StrayAgrees(f: Format, disk: Disk, live: Live, p: Published)
    requires SoundHash(f.hash) && LiveAgrees(f, disk, live, p) && SnapshotRotates(disk, live)
    ensures LiveAgrees(f, RotatedDisk(disk, p.revision + 1), live, p) && live.next == Some(p.revision + 1)
  {
    hide LiveSegments;
    hide Recoverable;
    hide LoggedAs;
    assert !AtEnd(f, disk, p);
    var base, first, items := LoggedUnfold(f, disk, p);
    LoggedRevision(f, disk, p, base, first, items);
    LastEmpty(f, disk, base, first, items);
    if live.active == LastOf(LiveSegments(disk)) {
      StrayCreated(f, disk, live, p, base, first, items);
    } else {
      assert RotatedDisk(disk, p.revision + 1).segments == disk.segments;
    }
  }

  lemma StrayCreated(f: Format, disk: Disk, live: Live, p: Published, base: Published, first: int, items: seq<Item>)
    requires SoundHash(f.hash) && LiveAgrees(f, disk, live, p) && SnapshotRotates(disk, live)
    requires LoggedAs(f, disk, p, base, first, items) && live.active == LastOf(LiveSegments(disk)) < p.revision + 1
    ensures LiveAgrees(f, RotatedDisk(disk, p.revision + 1), live, p)
  {
    hide LiveSegments;
    hide Recoverable;
    hide Holds;
    hide InstallAll;
    RotatedReady(f, disk, p, base, first, items, live.active);
    RotatedHolds(f, disk, base, first, items);
    LoggedRecoverable(f, RotatedDisk(disk, p.revision + 1), p, base, first, items);
  }

  lemma RotationFailedSafe(f: Format, s: System, p: Published, created: bool, s': System)
    requires SoundHash(f.hash) && Good(f, s, p) && SnapshotFollows(s, RotationFailed(created), s')
    ensures Good(f, s', p)
  {
    hide LiveSegments;
    hide Recoverable;
    hide Invariant;
    StrayAgrees(f, s.disk, s.live.value, p);
  }

  /** At the end of the sequence space a snapshot needs no rotation. */
  lemma NoRotation(disk: Disk, live: Live)
    requires live.next.None?
    ensures SnapshotTarget(disk, live) == (disk, live.active)
  {
  }

  lemma NotInstalledSafe(f: Format, s: System, p: Published, s': System)
    requires SoundHash(f.hash) && Good(f, s, p) && SnapshotFollows(s, NotInstalled, s')
    ensures Good(f, s', p)
  {
    hide LiveSegments;
    hide Recoverable;
    hide Invariant;
    hide ReadyAt;
    hide StrayBehind;
    hide SnapshotTarget;
    var live := s.live.value;
    if live.next.Some? {
      var base, first, items := SnapshotReady(f, s.disk, live, p);
      ReadyAgrees(f, s'.disk, p, base, first, items, s'.live.value.active);
    } else {
      NoRotation(s.disk, live);
    }
  }

  /** A snapshot installed with sequences remaining: it holds the same state with an empty log, whatever was deleted. */
  lemma InstalledReady(f: Format, disk: Disk, after: Disk, p: Published, base: Published, first: int, items: seq<Item>,
                       active: int)
    requires ReadyAt(f, disk, p, base, first, items, active) && active == p.revision + 1 <= U64_MAX && Invariant(p)
    requires Compacted(disk.(snapshots := disk.snapshots[active - 1 := Capture(p)]), after, active, active - 1)
    ensures ReadyAt(f, after, p, Unindexed(p), active, [], active)
  {
    hide LiveSegments;
    hide Holds;
    hide InstallAll;
    hide Capture;
    hide RestoreUnindexed;
    hide Invariant;
    hide Latest;
    CaptureRestores(p);
    var installed := disk.(snapshots := disk.snapshots[active - 1 := Capture(p)]);
    SnapshotHolds(f, disk, base, first, items, p);
    OnlyActive(f, installed, Unindexed(p), active);
    NewestIs(f, installed, Unindexed(p), active, []);
    CompactedHolds(f, installed, after, Unindexed(p), active, []);
    NothingInstalled(Unindexed(p), f.digest);
  }

  lemma OnlyActive(f: Format, disk: Disk, base: Published, active: int)
    requires Holds(f, disk, base, active, []) && LiveSegments(disk) == [active]
    ensures forall k :: k in disk.segments && k >= active ==> k == active
  {
    hide SegmentHolds;
    hide Loggable;
    forall k | k in disk.segments && k >= active
      ensures k == active
    {
      assert k in LiveSegments(disk);
    }
  }

  /** The snapshot just installed is the latest. */
  lemma NewestIs(f: Format, disk: Disk, base: Published, first: int, items: seq<Item>)
    requires Holds(f, disk, base, first, items) && first - 1 in disk.snapshots
    ensures Latest(disk.snapshots) == Some(first - 1)
  {
    hide LiveSegments;
    hide SegmentHolds;
    hide Base;
    forall w | w in disk.snapshots
      ensures w <= first - 1
    {
      WatermarksBelow(disk, base, first, w);
    }
    LatestIs(disk.snapshots, first - 1);
  }

  // ---- Snapshots at the end of the sequence space ----

  /** Watermarks stay within the sequence space. */
  lemma WatermarksBounded(f: Format, disk: Disk, p: Published, w: int)
    requires Recoverable(f, disk, p) && p.revision == U64_MAX && w in disk.snapshots
    ensures w <= U64_MAX
  {
    hide LoggedAs;
    if AtEnd(f, disk, p) {
      LatestBounds(disk.snapshots, w);
    } else {
      var base, first, items := LoggedUnfold(f, disk, p);
      LoggedBase(f, disk, p, base, first, items);
      WatermarksBelow(disk, base, first, w);
    }
  }

  lemma LoggedBase(f: Format, disk: Disk, p: Published, base: Published, first: int, items: seq<Item>)
    requires LoggedAs(f, disk, p, base, first, items)
    ensures Base(disk) == Ok(Recovering(base, Some(first))) && first <= p.revision + 1
  {
    hide LiveSegments;
    hide SegmentHolds;
    hide Base;
  }

  /** The last live segment is the greatest of all. */
  lemma LastGreatest(disk: Disk, k: int)
    requires LiveSegments(disk) != [] && k in disk.segments
    ensures k <= LastOf(LiveSegments(disk)) && MinimumSequence(disk) <= LastOf(LiveSegments(disk))
  {
    hide MinimumSequence;
    var keys := LiveSegments(disk);
    var last := LastOf(keys);
    assert last in keys;
    if k >= MinimumSequence(disk) {
      assert k in keys;
      var i :| 0 <= i < |keys| && keys[i] == k;
      assert i < |keys| - 1 ==> keys[i] < last;
    }
  }

  lemma {:induction false} LastIs(disk: Disk, active: int)
    requires active in disk.segments && active >= MinimumSequence(disk)
    requires forall k :: k in disk.segments ==> k <= active
    ensures LiveSegments(disk) != [] && LastOf(LiveSegments(disk)) == active
  {
    hide MinimumSequence;
    hide SortedKeys;
    var keys := LiveSegments(disk);
    assert active in keys;
    LastGreatest(disk, active);
    var last := LastOf(keys);
    assert last in keys;
  }

  lemma MinimumPositive(f: Format, disk: Disk, p: Published)
    requires Recoverable(f, disk, p)
    ensures 1 <= MinimumSequence(disk)
  {
    hide LoggedAs;
    if !AtEnd(f, disk, p) {
      var base, first, items := LoggedUnfold(f, disk, p);
      LoggedMinimum(f, disk, p, base, first, items);
    }
  }

  lemma LoggedMinimum(f: Format, disk: Disk, p: Published, base: Published, first: int, items: seq<Item>)
    requires LoggedAs(f, disk, p, base, first, items)
    ensures 1 <= MinimumSequence(disk)
  {
    hide LiveSegments;
    hide SegmentHolds;
    hide MinimumSequence;
  }

  lemma InstalledAtEnd(f: Format, disk: Disk, after: Disk, p: Published, active: int)
    requires Recoverable(f, disk, p) && Invariant(p) && p.revision == U64_MAX
    requires LiveSegments(disk) != [] && active == LastOf(LiveSegments(disk)) && active in disk.segments
    requires Compacted(disk.(snapshots := disk.snapshots[U64_MAX := Capture(p)]), after, active, U64_MAX)
    ensures AtEnd(f, after, p) && LastOf(LiveSegments(after)) == active
  {
    hide LiveSegments;
    hide Invariant;
    hide Capture;
    hide RestoreUnindexed;
    hide Recoverable;
    CaptureRestores(p);
    forall w | w in after.snapshots
      ensures w <= U64_MAX
    {
      if w in disk.snapshots {
        WatermarksBounded(f, disk, p, w);
      }
    }
    LatestIs(after.snapshots, U64_MAX);
    MinimumPositive(f, disk, p);
    forall k | k in after.segments
      ensures k <= active
    {
      LastGreatest(disk, k);
    }
    LastGreatest(disk, active);
    LastIs(after, active);
    EndBase(after, p);
  }

  lemma EndBase(disk: Disk, p: Published)
    requires Latest(disk.snapshots) == Some(U64_MAX) && U64_MAX in disk.snapshots
             && disk.snapshots[U64_MAX] == Capture(p)
    requires RestoreUnindexed(Capture(p)) == Ok(Unindexed(p))
    ensures Base(disk) == Ok(Recovering(Unindexed(p), None))
  {
    hide Latest;
    hide Capture;
    hide RestoreUnindexed;
  }

  lemma InstalledSafe(f: Format, s: System, p: Published, s': System)
    requires SoundHash(f.hash) && Good(f, s, p) && SnapshotFollows(s, Installed, s')
    ensures Good(f, s', p)
  {
    hide LiveSegments;
    hide Recoverable;
    hide Invariant;
    hide ReadyAt;
    hide StrayBehind;
    hide SnapshotTarget;
    hide Compacted;
    hide Capture;
    hide AtEnd;
    var live := s.live.value;
    if live.next.Some? {
      var base, first, items := SnapshotReady(f, s.disk, live, p);
      var (disk, active) := SnapshotTarget(s.disk, live);
      InstalledReady(f, disk, s'.disk, p, base, first, items, active);
      ReadyAgrees(f, s'.disk, p, Unindexed(p), active, [], active);
    } else {
      NoRotation(s.disk, live);
      EndActive(f, s.disk, live, p);
      InstalledAtEnd(f, s.disk, s'.disk, p, live.active);
      EndAgrees(f, s'.disk, p, live.active);
      CompactedActive(s.disk, s'.disk, live, p);
    }
  }

  lemma EndActive(f: Format, disk: Disk, live: Live, p: Published)
    requires LiveAgrees(f, disk, live, p) && live.next.None? && 0 <= p.revision <= U64_MAX
    ensures p.revision == U64_MAX && live.active == LastOf(LiveSegments(disk))
  {
    hide LiveSegments;
    hide Recoverable;
  }

  lemma EndAgrees(f: Format, disk: Disk, p: Published, active: int)
    requires AtEnd(f, disk, p)
    ensures Recoverable(f, disk, p) && LiveSegments(disk) != []
  {
    hide LiveSegments;
    hide LoggedAs;
    hide Base;
  }

  lemma CompactedActive(disk: Disk, after: Disk, live: Live, p: Published)
    requires live.active in disk.segments
    requires Compacted(disk.(snapshots := disk.snapshots[U64_MAX := Capture(p)]), after, live.active, U64_MAX)
    ensures live.active in after.segments
  {
    hide Capture;
  }
}
