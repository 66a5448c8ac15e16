/**
 Crash safety over all runs of a file database: whatever fails or crashes, reopening recovers every
 acknowledged batch plus some record prefix of the one in flight.
 */
module CrashSafety {
  import opened Results
  import opened Bytes
  import opened WalRecords
  import opened WalStreams
  import opened Intervals
  import opened StepFunctions
  import opened SlackTimelines
  import opened CapacityCurves
  import opened Domain
  import opened OrderedKeys
  import opened TimelineRebuild
  import opened Promises
  import opened Transitions
  import opened EngineInvariants
  import opened EngineSteps
  import opened Expiry
  import opened EngineSafety
  import opened EngineLedger
  import opened Batches
  import opened EventStamps
  import opened Replay
  import opened ReplayRefinement
  import opened ReplayTheorems
  import opened Snapshots
  import opened Recovery
  import opened LogDisk
  import opened DiskSteps

  // ---- Requests covered by a prefix of the items ----

  /** The shortest request prefix that produced the first `m` items. */
  lemma {:induction false} Covering(base: EngineState, digest: Operation -> seq<int>, requests: seq<Request>, n: nat,
                                    m: nat)
    returns (j: nat)
    requires n <= |requests| && m <= |PrepareUpTo(base, digest, requests, n).items|
    ensures j <= n && PrepareUpTo(base, digest, requests, j).items == PrepareUpTo(base, digest, requests, n).items[..m]
    decreases n
  {
    hide ApplyOnce;
    hide DurableOf;
    var items := PrepareUpTo(base, digest, requests, n).items;
    if m == |items| {
      j := n;
      assert items[..m] == items;
    } else {
      PreparePushed(base, digest, requests, n - 1);
      var earlier := PrepareUpTo(base, digest, requests, n - 1).items;
      j := Covering(base, digest, requests, n - 1, m);
      assert earlier[..m] == items[..m];
    }
  }

  lemma {:induction false} RunConcatenates(p: Published, digest: Operation -> seq<int>, a: seq<Request>,
                                           b: seq<Request>)
    ensures Run(p, digest, a + b) == Run(Run(p, digest, a), digest, b)
  {
    hide Apply;
    if b == [] {
      assert a + b == a;
    } else {
      var n := |b| - 1;
      assert (a + b)[..|a + b| - 1] == a + b[..n];
      RunConcatenates(p, digest, a, b[..n]);
    }
  }

  // ---- Disks that recover a state ----

  /** The disk holds a log whose replay is `p`, one record per publication revision. */
  ghost predicate LoggedAs(f: Format, disk: Disk, p: Published, base: Published, first: int, items: seq<Item>) {
    && Holds(f, disk, base, first, items) && InstallAll(base, f.digest, items) == Ok(Unindexed(p))
    && first + |items| == p.revision + 1
  }

  /** The disk's snapshot stands at the end of the sequence space and restores `p`. */
  ghost predicate AtEnd(f: Format, disk: Disk, p: Published) {
    && Latest(disk.snapshots) == Some(U64_MAX) && Base(disk) == Ok(Recovering(Unindexed(p), None))
    && LiveSegments(disk) != []
    && p.revision == U64_MAX
  }

  ghost predicate Recoverable(f: Format, disk: Disk, p: Published) {
    AtEnd(f, disk, p) || exists base, first, items :: LoggedAs(f, disk, p, base, first, items)
  }

  /** Opening gives `p`, the next sequence without a gap, and a disk that still recovers `p`. */
  ghost predicate Opens(f: Format, disk: Disk, p: Published) {
    && Open(f, disk).Ok?
    && var found := Open(f, disk).value;
       && found.published == p && found.next == NextAfter(1, p.revision) && Recoverable(f, found.disk, p)
       && LiveSegments(found.disk) != [] && found.active == LastOf(LiveSegments(found.disk))
  }

  /**
   What a batch must satisfy for its records to replay: well-formed input, no pool back at its base value, a
   lossless codec.
   */
  ghost predicate Replayable(f: Format, p: Published, requests: seq<Request>) {
    && ValidRequests(requests) && (forall r :: 0 <= r < |requests| ==> FitsI64(requests[r].now))
    && (forall j :: 0 <= j <= |requests| ==> NoReturn(p.state, f.digest, requests, j))
    && forall i :: 0 <= i < |Group(f, p, requests)| ==> Faithful(f.codec, Group(f, p, requests)[i].transition)
  }

  /** The batch's durable items. */
  ghost function Group(f: Format, p: Published, requests: seq<Request>): seq<Item> {
    PrepareUpTo(p.state, f.digest, requests, |requests|).items
  }

  /** Every item encodes and fits a record. */
  ghost predicate Framed(f: Format, items: seq<Item>) {
    forall i :: 0 <= i < |items| ==>
                  f.codec.encode(items[i].transition).Ok?
                  && Frameable(|f.codec.encode(items[i].transition).value|, f.max)
  }

  lemma GroupLoggable(f: Format, p: Published, requests: seq<Request>)
    requires Replayable(f, p, requests) && Framed(f, Group(f, p, requests))
    requires 0 <= p.revision && p.revision + |Group(f, p, requests)| <= U64_MAX
    ensures Loggable(f, Group(f, p, requests), p.revision + 1)
  {
    hide PrepareUpTo;
    hide Operation.Valid;
    hide NoReturn;
    hide Frameable;
    ItemsStamped(p.state, f.digest, requests, |requests|);
    var items := Group(f, p, requests);
    forall i | 0 <= i < |items|
      ensures FitsI64(items[i].timestamp) && TimestampsAgree(items[i])
    {
      assert ItemStamped(items[i], requests);
    }
  }

  lemma UnindexedInstalled(p: Published, digest: Operation -> seq<int>, base: Published, items: seq<Item>,
                           group: seq<Item>)
    requires InstallAll(base, digest, items) == Ok(Unindexed(p))
    ensures InstallAll(base, digest, items + group) == InstallAll(Unindexed(p), digest, group)
  {
    hide InstallAll;
    InstallSplit(base, digest, items, group);
  }

  /** The state after the requests that produced the first `m` items, recovered by installing those items. */
  lemma GroupPrefixInstalls(f: Format, p: Published, requests: seq<Request>, m: nat) returns (j: nat)
    requires Invariant(p) && Replayable(f, p, requests) && m <= |Group(f, p, requests)|
    requires p.revision + |Group(f, p, requests)| <= U64_MAX
    ensures j <= |requests| && (m == |Group(f, p, requests)| ==> j == |requests|)
    ensures InstallAll(Unindexed(p), f.digest, Group(f, p, requests)[..m])
            == Ok(Unindexed(PublishedAt(p, f.digest, requests, j)))
    ensures PublishedAt(p, f.digest, requests, j).revision == p.revision + m
    ensures Reindex(Unindexed(PublishedAt(p, f.digest, requests, j))) == Ok(PublishedAt(p, f.digest, requests, j))
    ensures PublishedAt(p, f.digest, requests, j) == Run(p, f.digest, requests[..j])
    ensures Invariant(PublishedAt(p, f.digest, requests, j))
  {
    hide Coherent;
    hide Ledger;
    hide RecordsKnown;
    hide PrepareUpTo;
    hide InstallAll;
    hide NoReturn;
    hide Reindex;
    hide Operation.Valid;
    var n := |requests|;
    if m == |Group(f, p, requests)| {
      j := n;
      assert Group(f, p, requests)[..m] == Group(f, p, requests);
    } else {
      j := Covering(p.state, f.digest, requests, n, m);
    }
    ReplayExact(p, f.digest, requests, j);
    BatchKeeps(p.state, f.digest, requests, j);
    ReindexRecovers(PublishedAt(p, f.digest, requests, j));
    PublishedIsRun(p, f.digest, requests, j);
    RunInvariant(p, f.digest, requests[..j]);
  }

  lemma PublishedIsRun(p: Published, digest: Operation -> seq<int>, requests: seq<Request>, j: nat)
    requires j <= |requests| && Coherent(p.state) && ValidRequests(requests)
    requires p.revision + |PrepareUpTo(p.state, digest, requests, |requests|).items| <= U128_MAX
    ensures PublishedAt(p, digest, requests, j) == Run(p, digest, requests[..j])
  {
    hide Coherent;
    hide PrepareUpTo;
    hide Apply;
    hide Operation.Valid;
    ItemsCount(p, digest, requests, |requests|);
    PrepareAgrees(p, digest, requests, j);
  }

  /** One item per new identity, whether or not the revision overflows. */
  lemma {:induction false} ItemsCount(p: Published, digest: Operation -> seq<int>, requests: seq<Request>, k: nat)
    requires k <= |requests| && Coherent(p.state) && ValidRequests(requests)
    ensures Counted(p.state, digest, requests, k)
  {
    hide *;
    if k == 0 {
      NothingCounted(p.state, digest, requests);
    } else {
      ItemsCount(p, digest, requests, k - 1);
      OneMoreCounted(p.state, digest, requests, k - 1);
    }
  }

  /** The first `k` requests leave a coherent state and one item per identity they newly record. */
  ghost predicate Counted(base: EngineState, digest: Operation -> seq<int>, requests: seq<Request>, k: nat)
    requires k <= |requests|
  {
    var preparing := PrepareUpTo(base, digest, requests, k);
    && Coherent(preparing.state)
    && preparing.state.records.Keys == base.records.Keys + NewIdentities(base, requests, k)
    && |preparing.items| == |NewIdentities(base, requests, k)|
  }

  lemma NothingCounted(base: EngineState, digest: Operation -> seq<int>, requests: seq<Request>)
    requires Coherent(base)
    ensures Counted(base, digest, requests, 0)
  {
    hide Coherent;
    EmptyBatch(base, digest, requests);
    NoIdentities(base, requests);
  }

  lemma OneMoreCounted(base: EngineState, digest: Operation -> seq<int>, requests: seq<Request>, k: nat)
    requires k < |requests| && ValidRequests(requests) && Counted(base, digest, requests, k)
    ensures Counted(base, digest, requests, k + 1)
  {
    hide Coherent;
    hide Operation.Valid;
    hide PrepareOne;
    hide PrepareUpTo;
    hide NewIdentities;
    PreparePushed(base, digest, requests, k);
    IdentitiesPushed(base, requests, k);
    OneCounted(base, digest, PrepareUpTo(base, digest, requests, k), requests[k]);
    KnownGrows(base.records.Keys, NewIdentities(base, requests, k), requests[k].command.identity);
  }

  lemma KnownGrows(recorded: set<Identity>, known: set<Identity>, identity: Identity)
    ensures var grown := known + if identity !in recorded then {identity} else {};
            && (recorded + known) + {identity} == recorded + grown
            && |grown| == |known| + if identity in recorded + known then 0 else 1
  {
    var grown := known + if identity !in recorded then {identity} else {};
    if identity in recorded {
      assert grown == known;
    } else if identity in known {
      assert grown == known;
    }
  }

  lemma NoIdentities(st: EngineState, requests: seq<Request>)
    ensures NewIdentities(st, requests, 0) == {}
  {
  }

  lemma OneCounted(base: EngineState, digest: Operation -> seq<int>, preparing: Preparing, request: Request)
    requires Coherent(preparing.state) && request.command.operation.Valid()
    ensures var next := PrepareOne(base, digest, preparing, request);
            var first := request.command.identity !in preparing.state.records;
            && Coherent(next.state) && |next.items| == |preparing.items| + (if first then 1 else 0)
            && next.state.records.Keys == preparing.state.records.Keys + {request.command.identity}
  {
    hide Coherent;
    var before := Published(preparing.state, 0);
    OneAgrees(base, digest, preparing, request, before);
    ApplyKeeps(before, digest, request.command, request.now);
    hide PrepareOne;
    hide Apply;
    hide Operation.Valid;
  }

  lemma {:induction false} RunInvariant(p: Published, digest: Operation -> seq<int>, requests: seq<Request>)
    requires Invariant(p) && ValidRequests(requests)
    ensures Invariant(Run(p, digest, requests))
  {
    hide Invariant;
    hide Apply;
    hide Operation.Valid;
    if requests != [] {
      var n := |requests| - 1;
      RunInvariant(p, digest, requests[..n]);
      ApplyInvariant(Run(p, digest, requests[..n]), digest, requests[n].command, requests[n].now);
    }
  }
}
