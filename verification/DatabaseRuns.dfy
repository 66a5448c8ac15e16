/**
 Runs of a file database: batches, snapshots, crashes and reopenings in any order, with any of their
 file operations failing, and what reopening recovers after each of them.
 */
module DatabaseRuns {
  import opened Results
  import opened Bytes
  import opened WalRecords
  import opened WalStreams
  import opened Domain
  import opened OrderedKeys
  import opened Transitions
  import opened EngineInvariants
  import opened EngineSafety
  import opened EngineLedger
  import opened Batches
  import opened Replay
  import opened ReplayRefinement
  import opened ReplayTheorems
  import opened Snapshots
  import opened Recovery
  import opened LogDisk
  import opened DiskSteps
  import opened CrashSafety

  const SEGMENT_HEADER_LEN := 64

  /** An open database: published state, next record sequence, active segment, and whether writes are disabled. */
  datatype Live = Live(published: Published, next: Option<int>, active: int, poisoned: bool)

  /** The files, and the process if one has them open. */
  datatype System = System(disk: Disk, live: Option<Live>)

  /** How a batch ends. */
  datatype BatchOutcome =
    | Refused                              // rejected before any file operation
    | Answered(answers: seq<Response>)     // every command was a retry
    | Committed(responses: seq<Response>)  // appended, synchronized and published
    | Unrotated(created: bool)             // the new segment could not be opened; it may exist
    | Broken(cut: nat)                     // append or synchronization failed: a byte prefix is on disk

  /** How a snapshot attempt ends. */
  datatype SnapshotOutcome =
    | Disabled                             // writes are poisoned
    | RotationFailed(created: bool)        // the new segment could not be opened; it may exist
    | NotInstalled                         // failed before the snapshot file was renamed into place
    | Installed                            // renamed into place; any covered files may remain

  datatype Step =
    | Batch(requests: seq<Request>, outcome: BatchOutcome)
    | TakeSnapshot(result: SnapshotOutcome)
    | Crash
    | Reopen
    | Interrupted                          // opening repaired the tail and removed some obsolete segments, then failed

  // ---- File operations ----

  /** Whether an append rotates first: the active segment has records and would outgrow the target. */
  predicate Rotates(target: nat, disk: Disk, active: int, length: nat) {
    && active in disk.segments && disk.segments[active] != []
    && SEGMENT_HEADER_LEN + |disk.segments[active]| + length > target
  }

  function RotatedDisk(disk: Disk, next: int): Disk {
    disk.(segments := disk.segments[next := []])
  }

  /** The disk with a byte string behind a segment. */
  function AppendedTo(disk: Disk, segment: int, bytes: seq<byte>): Disk {
    if segment in disk.segments
    then disk.(segments := disk.segments[segment := disk.segments[segment] + bytes])
    else disk
  }

  /** The segment an append goes to, and the disk with it in place. */
  function AppendTarget(target: nat, disk: Disk, active: int, next: int, length: nat): (Disk, int) {
    if Rotates(target, disk, active, length) then (RotatedDisk(disk, next), next) else (disk, active)
  }

  // ---- Steps ----

  /** The batch has items, they frame, and sequences remain for all of them. */
  ghost predicate Appends(f: Format, live: Live, requests: seq<Request>) {
    && !live.poisoned && live.next.Some? && Group(f, live.published, requests) != []
    && Framed(f, Group(f, live.published, requests))
    && live.next.value + |Group(f, live.published, requests)| <= U64_MAX + 1
    && Loggable(f, Group(f, live.published, requests), live.next.value)
  }

  /** The framed bytes of the batch. */
  ghost function BatchBytes(f: Format, live: Live, requests: seq<Request>): seq<byte>
    requires Appends(f, live, requests)
  {
    GroupBytes(f, Group(f, live.published, requests), live.next.value)
  }

  /** The segment the batch goes to, and the disk with it in place. */
  ghost function BatchTarget(f: Format, target: nat, s: System, live: Live, requests: seq<Request>): (Disk, int)
    requires Appends(f, live, requests)
  {
    AppendTarget(target, s.disk, live.active, live.next.value, |BatchBytes(f, live, requests)|)
  }

  /** The open database after the whole batch is durable. */
  ghost function PublishedLive(f: Format, live: Live, requests: seq<Request>, segment: int): Live
    requires Appends(f, live, requests)
  {
    Live(PublishedAt(live.published, f.digest, requests, |requests|),
         NextAfter(live.next.value, |Group(f, live.published, requests)|), segment, false)
  }

  ghost predicate BatchFollows(f: Format, target: nat, s: System, requests: seq<Request>, outcome: BatchOutcome,
                               s': System)
  {
    && s.live.Some?
    && var live := s.live.value;
       match outcome
       case Refused => s' == s
       case Answered(answers) =>
         && s' == s && !live.poisoned && Group(f, live.published, requests) == []
         && answers == PrepareUpTo(live.published.state, f.digest, requests, |requests|).responses
       case Committed(responses) =>
         && Appends(f, live, requests)
         && responses == PrepareUpTo(live.published.state, f.digest, requests, |requests|).responses
         && var (disk, segment) := BatchTarget(f, target, s, live, requests);
            s' == System(AppendedTo(disk, segment, BatchBytes(f, live, requests)),
                         Some(PublishedLive(f, live, requests, segment)))
       case Broken(cut) =>
         && Appends(f, live, requests) && cut <= |BatchBytes(f, live, requests)|
         && var (disk, segment) := BatchTarget(f, target, s, live, requests);
            s' == System(AppendedTo(disk, segment, BatchBytes(f, live, requests)[..cut]),
                         Some(live.(active := segment, poisoned := true)))
       case Unrotated(created) =>
         && Appends(f, live, requests) && Rotates(target, s.disk, live.active, |BatchBytes(f, live, requests)|)
         && s' == System(if created then RotatedDisk(s.disk, live.next.value) else s.disk,
                         Some(live.(poisoned := true)))
  }

  /** A snapshot first moves on to an empty segment. */
  predicate SnapshotRotates(disk: Disk, live: Live) {
    live.next.Some? && live.active in disk.segments && disk.segments[live.active] != []
  }

  function SnapshotTarget(disk: Disk, live: Live): (Disk, int) {
    if SnapshotRotates(disk, live) then (RotatedDisk(disk, live.next.value), live.next.value) else (disk, live.active)
  }

  function Watermark(next: Option<int>): int {
    if next.Some? then next.value - 1 else U64_MAX
  }

  /** Any covered segments and any older snapshots may have been deleted. */
  ghost predicate Compacted(before: Disk, after: Disk, active: int, watermark: int) {
    && (forall k :: k in after.segments ==> k in before.segments && after.segments[k] == before.segments[k])
    && (active in before.segments ==> active in after.segments)
    && (forall w :: w in after.snapshots ==> w in before.snapshots && after.snapshots[w] == before.snapshots[w])
    && (watermark in before.snapshots ==> watermark in after.snapshots)
  }

  ghost predicate SnapshotFollows(s: System, outcome: SnapshotOutcome, s': System) {
    && s.live.Some?
    && var live := s.live.value;
       var (disk, active) := SnapshotTarget(s.disk, live);
       match outcome
       case Disabled => live.poisoned && s' == s
       case RotationFailed(created) =>
         && !live.poisoned && SnapshotRotates(s.disk, live)
         && s' == System(if created then disk else s.disk, s.live)
       case NotInstalled => !live.poisoned && s' == System(disk, Some(live.(active := active)))
       case Installed =>
         && !live.poisoned && s'.live == Some(live.(active := active))
         && Compacted(disk.(snapshots := disk.snapshots[Watermark(live.next) := Capture(live.published)]), s'.disk,
                      active, Watermark(live.next))
  }

  /** Every live segment is as opening leaves it; obsolete ones may remain. */
  ghost predicate PartlyCleaned(before: Disk, clean: Disk, after: Disk) {
    && after.snapshots == before.snapshots
    && (forall k :: k in clean.segments ==> k in after.segments && after.segments[k] == clean.segments[k])
    && forall k :: k in after.segments && k !in clean.segments ==> k < MinimumSequence(before)
  }

  ghost predicate Follows(f: Format, target: nat, s: System, step: Step, s': System) {
    match step
    case Batch(requests, outcome) => BatchFollows(f, target, s, requests, outcome, s')
    case TakeSnapshot(outcome) => SnapshotFollows(s, outcome, s')
    case Crash => s' == System(s.disk, None)
    case Interrupted =>
      && s.live.None? && s'.live.None? && Open(f, s.disk).Ok?
      && PartlyCleaned(s.disk, Open(f, s.disk).value.disk, s'.disk)
    case Reopen =>
      && s.live.None?
      && match Open(f, s.disk)
         case Err(_) => s' == s
         case Ok(found) => s' == System(found.disk, Some(Live(found.published, found.next, found.active, false)))
  }

  /** A failed rotation left a segment behind that the open database does not write to. */
  predicate Strayed(s: System) {
    s.live.Some? && LiveSegments(s.disk) != [] && s.live.value.active != LastOf(LiveSegments(s.disk))
  }

  /** The batch puts bytes behind the records on disk. */
  predicate AppendsBytes(outcome: BatchOutcome) {
    outcome.Committed? || (outcome.Broken? && outcome.cut > 0)
  }

  /** The batch moves on to a new segment first. */
  ghost predicate RotatesFirst(f: Format, target: nat, s: System, requests: seq<Request>) {
    && s.live.Some? && Appends(f, s.live.value, requests)
    && Rotates(target, s.disk, s.live.value.active, |BatchBytes(f, s.live.value, requests)|)
  }

  /** A batch that appends is replayable, and does not append in front of a stray segment. */
  ghost predicate Allowed(f: Format, target: nat, s: System, step: Step) {
    step.Batch? && s.live.Some? && !s.live.value.poisoned && AppendsBytes(step.outcome) ==>
      && Replayable(f, s.live.value.published, step.requests)
      && (Strayed(s) ==> RotatesFirst(f, target, s, step.requests))
  }

  // ---- The invariant ----

  /** An empty segment that a failed rotation left stands behind the active one. */
  ghost predicate StrayBehind(disk: Disk, active: int, p: Published) {
    var keys := LiveSegments(disk);
    && |keys| >= 2 && keys[|keys| - 2] == active && LastOf(keys) == p.revision + 1 <= U64_MAX
    && active in disk.segments && disk.segments[active] != []
  }

  /** The open database agrees with its files, whose log ends where it will write next. */
  ghost predicate LiveAgrees(f: Format, disk: Disk, live: Live, p: Published) {
    && live.published == p && live.next == NextAfter(1, p.revision) && Recoverable(f, disk, p)
    && live.active in disk.segments && LiveSegments(disk) != []
    && (live.active == LastOf(LiveSegments(disk)) || StrayBehind(disk, live.active, p))
  }

  /** `p` is what reopening recovers, and what an undisturbed open database publishes. */
  ghost predicate Good(f: Format, s: System, p: Published) {
    && Invariant(p) && 0 <= p.revision <= U64_MAX
    && (s.live.None? || s.live.value.poisoned ==> Opens(f, s.disk, p))
    && (s.live.Some? && !s.live.value.poisoned ==> LiveAgrees(f, s.disk, s.live.value, p))
  }

  // ---- Segments and emptiness ----

  lemma EmptyGroup(f: Format, items: seq<Item>, first: int)
    requires SoundHash(f.hash) && Loggable(f, items, first)
    ensures GroupBytes(f, items, first) == [] <==> items == []
  {
    hide Frame;
    RecordsConsecutive(f, items, first);
    var records := RecordsFor(f.codec, items, first);
    if items != [] {
      assert records[0].Valid();
      FrameLength(f.hash, records[0]);
    }
  }

  /** The last segment is empty exactly when it starts at the next sequence. */
  lemma LastEmpty(f: Format, disk: Disk, base: Published, first: int, items: seq<Item>)
    requires SoundHash(f.hash) && Holds(f, disk, base, first, items)
    ensures LiveSegments(disk) != [] && LastOf(LiveSegments(disk)) in disk.segments
    ensures LastOf(LiveSegments(disk)) <= first + |items|
    ensures disk.segments[LastOf(LiveSegments(disk))] == [] <==> LastOf(LiveSegments(disk)) == first + |items|
  {
    hide GroupBytes;
    hide LiveSegments;
    hide Holds;
    hide Loggable;
    HoldsFacts(f, disk, base, first, items);
    var keys := LiveSegments(disk);
    LastShareHeld(f, disk.segments, items, keys, first);
    EmptyGroup(f, LastShare(items, keys, first), LastOf(keys));
  }

  // ---- Reopening ----

  lemma LoggedUnfold(f: Format, disk: Disk, p: Published) returns (base: Published, first: int, items: seq<Item>)
    requires Recoverable(f, disk, p) && !AtEnd(f, disk, p)
    ensures LoggedAs(f, disk, p, base, first, items)
  {
    hide LoggedAs;
    hide AtEnd;
    base, first, items :| LoggedAs(f, disk, p, base, first, items);
  }

  lemma LoggedRecoverable(f: Format, disk: Disk, p: Published, base: Published, first: int, items: seq<Item>)
    requires LoggedAs(f, disk, p, base, first, items)
    ensures Recoverable(f, disk, p)
  {
    hide LoggedAs;
    hide AtEnd;
  }

  /** A disk that recovers a state opens to that state. */
  lemma RecoverableOpens(f: Format, disk: Disk, p: Published)
    requires SoundHash(f.hash) && Recoverable(f, disk, p) && Invariant(p)
    ensures Opens(f, disk, p)
  {
    if AtEnd(f, disk, p) {
      EndOpens(f, disk, p);
    } else {
      var base, first, items := LoggedUnfold(f, disk, p);
      LoggedOpens(f, disk, p, base, first, items);
    }
  }

  /** Opening an untorn disk. */
  lemma UntornOpens(f: Format, disk: Disk, p: Published, base: Published, first: int, items: seq<Item>)
    returns (after: Disk)
    requires SoundHash(f.hash) && Holds(f, disk, base, first, items)
    requires InstallAll(base, f.digest, items) == Ok(Unindexed(p)) && Reindex(Unindexed(p)) == Ok(p)
    ensures Holds(f, after, base, first, items) && LiveSegments(after) == LiveSegments(disk) != []
    ensures Open(f, disk) == Ok(Opened(p, NextAfter(first, |items|), after, LastOf(LiveSegments(disk))))
  {
    hide *;
    LastHeld(f, disk, base, first, items);
    UntornIsTorn(f, disk, base, first, items);
    assert items + [] == items;
    var m: nat;
    m, after := OpenTorn(f, disk, disk, base, first, items, [], 0);
    var none: seq<Item> := [];
    assert none[..m] == [];
  }

  lemma LastHeld(f: Format, disk: Disk, base: Published, first: int, items: seq<Item>)
    requires Holds(f, disk, base, first, items)
    ensures LiveSegments(disk) != [] && LastOf(LiveSegments(disk)) in disk.segments
  {
    hide GroupBytes;
    hide LiveSegments;
    hide Holds;
    hide Loggable;
    HoldsFacts(f, disk, base, first, items);
    LastShareHeld(f, disk.segments, items, LiveSegments(disk), first);
  }

  lemma LoggedOpens(f: Format, disk: Disk, p: Published, base: Published, first: int, items: seq<Item>)
    requires SoundHash(f.hash) && LoggedAs(f, disk, p, base, first, items) && Invariant(p)
    ensures Opens(f, disk, p)
  {
    hide Holds;
    hide Coherent;
    hide Ledger;
    hide RecordsKnown;
    hide InstallAll;
    hide LiveSegments;
    hide Open;
    hide Reindex;
    hide Recoverable;
    ReindexRecovers(p);
    var after := UntornOpens(f, disk, p, base, first, items);
    LoggedRecoverable(f, after, p, base, first, items);
  }

  lemma UntornIsTorn(f: Format, disk: Disk, base: Published, first: int, items: seq<Item>)
    requires Holds(f, disk, base, first, items)
    requires LiveSegments(disk) != [] && LastOf(LiveSegments(disk)) in disk.segments
    ensures TornFrom(f, disk, disk, base, first, items, [], 0)
  {
    hide GroupBytes;
    hide LiveSegments;
    hide Writable;
    HoldsFacts(f, disk, base, first, items);
    NoBytes(f, first + |items|);
    var last := LastOf(LiveSegments(disk));
    var none: seq<byte> := [];
    assert none[..0] == [];
    assert disk.segments[last] + none == disk.segments[last];
    assert disk.segments[last := disk.segments[last]] == disk.segments;
  }

  lemma EndOpens(f: Format, disk: Disk, p: Published)
    requires AtEnd(f, disk, p) && Invariant(p)
    ensures Opens(f, disk, p)
  {
    hide Coherent;
    hide Ledger;
    hide RecordsKnown;
    hide Reindex;
    hide FeedSegments;
    hide Base;
    hide LoggedAs;
    ReindexRecovers(p);
    var found := Open(f, disk).value;
    SameSnapshots(disk, found.disk);
    LiveAre(found.disk, LiveSegments(disk));
    assert AtEnd(f, found.disk, p);
  }

  lemma SameSnapshots(a: Disk, b: Disk)
    requires a.snapshots == b.snapshots
    ensures Base(a) == Base(b) && MinimumSequence(a) == MinimumSequence(b) && (Exhausted(a) <==> Exhausted(b))
  {
    hide Latest;
  }

  // ---- Batches ----

  /** The disk holds the log that replays to `p`, and `segment` is where the next record goes. */
  ghost predicate ReadyAt(f: Format, disk: Disk, p: Published, base: Published, first: int, items: seq<Item>,
                          segment: int)
  {
    && LoggedAs(f, disk, p, base, first, items) && LiveSegments(disk) != [] && segment == LastOf(LiveSegments(disk))
    && segment in disk.segments
  }

  lemma ReadyLogged(f: Format, disk: Disk, p: Published, live: Live)
    returns (base: Published, first: int, items: seq<Item>)
    requires LiveAgrees(f, disk, live, p) && live.next.Some? && live.active == LastOf(LiveSegments(disk))
    ensures ReadyAt(f, disk, p, base, first, items, live.active) && live.next == Some(first + |items|)
  {
    hide LiveSegments;
    hide Recoverable;
    hide LoggedAs;
    assert !AtEnd(f, disk, p);
    base, first, items := LoggedUnfold(f, disk, p);
    LoggedRevision(f, disk, p, base, first, items);
  }

  lemma LoggedRevision(f: Format, disk: Disk, p: Published, base: Published, first: int, items: seq<Item>)
    requires LoggedAs(f, disk, p, base, first, items)
    ensures first + |items| == p.revision + 1 && Holds(f, disk, base, first, items) && Loggable(f, items, first)
  {
  }

  /** Rotating onto an empty segment keeps the log. */
  lemma RotatedReady(f: Format, disk: Disk, p: Published, base: Published, first: int, items: seq<Item>, segment: int)
    requires SoundHash(f.hash) && ReadyAt(f, disk, p, base, first, items, segment)
    requires disk.segments[segment] != [] && p.revision + 1 <= U64_MAX
    ensures ReadyAt(f, RotatedDisk(disk, p.revision + 1), p, base, first, items, p.revision + 1)
  {
    hide Holds;
    hide LiveSegments;
    hide InstallAll;
    LastEmpty(f, disk, base, first, items);
    RotatedHolds(f, disk, base, first, items);
  }

  /** Where a batch is appended, whether or not it rotates first. */
  lemma TargetReady(f: Format, target: nat, disk: Disk, p: Published, base: Published, first: int, items: seq<Item>,
                    segment: int, length: nat)
    requires SoundHash(f.hash) && ReadyAt(f, disk, p, base, first, items, segment) && p.revision + 1 <= U64_MAX
    ensures var (disk', segment') := AppendTarget(target, disk, segment, p.revision + 1, length);
            ReadyAt(f, disk', p, base, first, items, segment')
  {
    hide LoggedAs;
    hide LiveSegments;
    if Rotates(target, disk, segment, length) {
      RotatedReady(f, disk, p, base, first, items, segment);
    }
  }

  lemma PrefixTorn(f: Format, disk: Disk, p: Published, base: Published, first: int, items: seq<Item>, segment: int,
                   group: seq<Item>, cut: nat)
    requires ReadyAt(f, disk, p, base, first, items, segment) && Loggable(f, group, p.revision + 1)
    requires cut <= |GroupBytes(f, group, p.revision + 1)|
    ensures TornFrom(f, AppendedTo(disk, segment, GroupBytes(f, group, p.revision + 1)[..cut]), disk, base, first,
                     items, group, cut)
  {
    hide Holds;
    hide LiveSegments;
    hide GroupBytes;
    hide Loggable;
    hide InstallAll;
  }

  /** A completely appended batch: the log now replays to the state after all its commands. */
  lemma CommittedReady(f: Format, disk: Disk, p: Published, base: Published, first: int, items: seq<Item>, segment: int,
                       requests: seq<Request>)
    requires ReadyAt(f, disk, p, base, first, items, segment) && Invariant(p) && Replayable(f, p, requests)
    requires Loggable(f, Group(f, p, requests), p.revision + 1)
    ensures var p' := PublishedAt(p, f.digest, requests, |requests|);
            var after := AppendedTo(disk, segment, GroupBytes(f, Group(f, p, requests), p.revision + 1));
            && ReadyAt(f, after, p', base, first, items + Group(f, p, requests), segment) && Invariant(p')
            && p' == Run(p, f.digest, requests) && p'.revision == p.revision + |Group(f, p, requests)|
  {
    hide Holds;
    hide LiveSegments;
    hide GroupBytes;
    hide InstallAll;
    hide Group;
    hide Replayable;
    hide Invariant;
    hide TornFrom;
    hide PublishedAt;
    hide Writable;
    var group := Group(f, p, requests);
    var bytes := GroupBytes(f, group, p.revision + 1);
    assert bytes[..|bytes|] == bytes;
    PrefixTorn(f, disk, p, base, first, items, segment, group, |bytes|);
    AppendedHolds(f, AppendedTo(disk, segment, bytes), disk, base, first, items, group);
    var j := GroupPrefixInstalls(f, p, requests, |group|);
    assert group[..|group|] == group;
    assert requests[..|requests|] == requests;
    UnindexedInstalled(p, f.digest, base, items, group);
  }

  /** A batch of which some bytes were appended: opening recovers the state after some of its commands. */
  lemma BrokenOpens(f: Format, disk: Disk, p: Published, base: Published, first: int, items: seq<Item>, segment: int,
                    requests: seq<Request>, cut: nat) returns (j: nat)
    requires SoundHash(f.hash) && ReadyAt(f, disk, p, base, first, items, segment) && Invariant(p)
             && Replayable(f, p, requests)
    requires Loggable(f, Group(f, p, requests), p.revision + 1)
    requires cut <= |GroupBytes(f, Group(f, p, requests), p.revision + 1)|
    ensures j <= |requests|
    ensures cut == |GroupBytes(f, Group(f, p, requests), p.revision + 1)| ==> j == |requests|
    ensures var p' := PublishedAt(p, f.digest, requests, j);
            && Opens(f, AppendedTo(disk, segment, GroupBytes(f, Group(f, p, requests), p.revision + 1)[..cut]), p')
            && Invariant(p') && p' == Run(p, f.digest, requests[..j])
            && p.revision <= p'.revision <= p.revision + |Group(f, p, requests)|
  {
    hide *;
    ReadyFacts(f, disk, p, base, first, items, segment);
    LoggableFacts(f, Group(f, p, requests), p.revision + 1);
    var group := Group(f, p, requests);
    PrefixTorn(f, disk, p, base, first, items, segment, group, cut);
    var torn := AppendedTo(disk, segment, GroupBytes(f, group, p.revision + 1)[..cut]);
    GroupInstalls(f, p, base, items, requests);
    var m: nat, after: Disk;
    m, after := OpenTorn(f, torn, disk, base, first, items, group, cut);
    j := GroupPrefixInstalls(f, p, requests, m);
    UnindexedInstalled(p, f.digest, base, items, group[..m]);
    TornOpens(f, torn, after, PublishedAt(p, f.digest, requests, j), base, first, items + group[..m], segment);
  }

  lemma ReadyFacts(f: Format, disk: Disk, p: Published, base: Published, first: int, items: seq<Item>, segment: int)
    requires ReadyAt(f, disk, p, base, first, items, segment)
    ensures InstallAll(base, f.digest, items) == Ok(Unindexed(p)) && first + |items| == p.revision + 1
    ensures LiveSegments(disk) != [] && segment == LastOf(LiveSegments(disk))
  {
    hide Holds;
    hide LiveSegments;
    hide InstallAll;
  }

  /** The log a torn disk opens to replays to the recovered state. */
  lemma TornOpens(f: Format, torn: Disk, after: Disk, p: Published, base: Published, first: int, log: seq<Item>,
                  segment: int)
    requires InstallAll(base, f.digest, log) == Ok(Unindexed(p)) && Reindex(Unindexed(p)) == Ok(p)
    requires Holds(f, after, base, first, log) && first + |log| == p.revision + 1
    requires LiveSegments(after) != [] && segment == LastOf(LiveSegments(after))
    requires Open(f, torn) == Ok(Opened(p, NextAfter(first, |log|), after, segment))
    ensures Opens(f, torn, p)
  {
    hide Holds;
    hide LiveSegments;
    hide InstallAll;
    hide Recoverable;
    hide Open;
    hide Reindex;
    LoggedRecoverable(f, after, p, base, first, log);
  }

  lemma GroupInstalls(f: Format, p: Published, base: Published, items: seq<Item>, requests: seq<Request>)
    requires InstallAll(base, f.digest, items) == Ok(Unindexed(p)) && Invariant(p) && Replayable(f, p, requests)
    requires p.revision + |Group(f, p, requests)| <= U64_MAX
    ensures InstallAll(base, f.digest, items + Group(f, p, requests)).Ok?
  {
    hide InstallAll;
    hide Group;
    hide Replayable;
    hide Invariant;
    hide PublishedAt;
    hide Reindex;
    var group := Group(f, p, requests);
    var j := GroupPrefixInstalls(f, p, requests, |group|);
    assert group[..|group|] == group;
    UnindexedInstalled(p, f.digest, base, items, group);
  }
}
