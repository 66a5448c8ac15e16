# PromiseDB in Dafny

PromiseDB is a durable reservation engine: it admits bundles of time-bounded claims against pools whose
capacity varies over time. This project models its slack index, its engine and its write-ahead log with
snapshots and recovery, and stacks their proofs. `dafny verify dfyconfig.toml` checks everything.

## How the model is laid out

- **Index.** `StepFunctions` reads a list of points as a function of time and gives the one-line
  specification of a range update. `SlackBlocks`, `BlockSequences` and `SlackTimelines` are the blocked
  index: blocks of at most 256 points with cached extremes and a lazy delta. `TimelineRebuild` builds it
  from capacity and claims. Only the canonical points of a timeline are unique; stored neighbours may
  repeat and a stored first point may be zero.
- **Admission and engine.** `Admission` states the sweep, `AdmissionSweep` runs it, `AvailabilityOracle`
  is the slow check. `Transitions` gives every operation as a function on engine state; `Engines` is the
  mutable engine whose methods equal those functions. `EngineInvariants`, `EngineSteps`, `Expiry` and
  `EngineSafety` show that each operation is a run of effects that keep slack equal to capacity minus
  active usage; `EngineGuarantees`, `ReplacementRules`, `WorseningRun` and `EngineLedger` say what callers
  get from that, and what they do not. `ConflictReports`, `CommandOutcomes`, `ReplaceOutcomes`,
  `RevisionOutcomes`, `CommandLaws` and `CommandTheorems` give each command's exact answer and new state from
  slack, capacity and promises alone.
- **Group commit and replay.** `Batches` (preparation), `Replay`, `ReplayRefinement`, `ReplayTheorems`
  (installation and when it recovers execution), `Snapshots`, `Installation`, `InstallChecks` (exactly what is
  let in).
- **Bytes.** `WalRecords` and `WalStreams` frame records; `Payloads`, `CommandPayloads`,
  `ResponsePayloads`, `EntityPayloads` and `TransitionPayloads` specify payloads, `PayloadWriters` and
  `PayloadReaders` produce and consume them; `TypedResponses` and `PreparedPayloads` show that whatever the
  engine prepares reads back. `CanonicalBytes` and `CommandDigests` cover idempotency digests.
- **Files.** `Recovery`, `EngineRecoveries`, `LogDisk` and `Opening` recover a log; `SegmentedLogs` and
  `FileDatabases` write it; `DiskSteps`, `CrashSafety`, `DatabaseRuns`, `RunSafety`, `CrashTheorems` and
  `TypedRuns` prove crash safety over all runs, `StraySegments` runs on which it fails, and `RecoveryExact`
  what recovery accepts of arbitrary bytes.

## Conventions

- An object updated through `&mut self` is a class; collections hold values. Borrowing an element mutably
  is loading a class from the stored value and storing its value back.
- The engine's map of timelines holds blocks; specifications read them as canonical points.
- Timestamps, quantities and sequences are integers; 64-bit checks, saturations and two's complement are
  written out where the code makes them. Scratch arithmetic the code does in 128 bits is unbounded except
  where a 128-bit bound is itself checked.
- Identities are numbers compared as their 16 big-endian bytes. Ordered maps are maps visited in key
  order. Library sorts are functions proved to be ordered permutations.
- BLAKE3 is a function of bytes, required only to return 32 of them. UTF-8 is a lossless pair of functions.
- The disk is a map from first sequence to the bytes behind each segment's header, and a map from
  watermark to snapshot value. A file operation takes what the file system does to it as a parameter; a
  broken append leaves any byte prefix.
- The payload cursors of `src/storage/codec.rs` and `src/storage/transition` are one class each way.
- A transition's result and final state are one outcome; the prefix that processes expirations is shared
  by all operations instead of being repeated in each.

## Where the code differs from its documentation

- docs/semantics.md:43 promises that a replacement never makes slack worse than before or than zero. The
  sweep samples the old slack at segment starts only and does not break at the old timeline's own points
  (src/engine.rs:1948-2013), so with a forced deficit the promise fails on a reachable state:
  `WorseningRun.ReplacementWorsensSlack`. `ReplacementRules.ReplaceNeverWorsensExactly` gives the exact
  condition, which a caller can evaluate on the current state: the new bundle also fits when the sweep breaks
  at the old timeline's points. In a deficit-free engine the promise always holds.
- The point constructor documents an error for decreasing timestamps but compares with the last kept point
  only, so it accepts some: `SlackBlocks.NormalizeAcceptsUnsorted`.
- Each record's pools are compared with the state before the batch, not before the command, so a pool that
  returns to its value within a batch replays wrongly: `ReplayTheorems.ReturnLosesRevision`, with the exact
  condition in `ReplayTheorems.ReplayExact`.
- A snapshot whose rotation fails after creating the segment leaves the database open and unpoisoned. A later
  batch that appends without rotating then goes in front of the stray segment, and the files no longer open,
  whether the batch was acknowledged or broke after its first byte: `CrashTheorems.BatchOpensExactly`, with
  runs that get there in `StraySegments`. The crash-safety theorems exclude exactly such batches.

## Model

| member | source | states |
|---|---|---|
| `StepFunctions.CanonicalUnique` | src/index/slack_timeline.rs:766-803 | two canonical point lists with the same slack at every timestamp are the same list, so the normal form of a timeline is unique |
| `StepFunctions.AddOnCorrect` | src/index/slack_timeline.rs:556-600 | the specification of a range update: slack moves by the delta inside `[start, end)` and nowhere else, and the points stay canonical |
| `StepFunctions.DedupEquiv` | src/index/slack_timeline.rs:709-756 | dropping points that repeat the value before them changes slack nowhere, whatever precedes the list |
| `SlackBlocks.CachedExtremesDecideFit` | src/index/slack_timeline.rs:191-215 | a block's two cached extremes alone decide whether a lazy move by a delta stays within 64 bits at every point |
| `SlackBlocks.SlackBlock.ApplyDelta` | src/index/slack_timeline.rs:191-215 | a whole-block move succeeds exactly when every effective point fits 64 bits, moves every point, and on overflow changes nothing |
| `SlackBlocks.SlackBlock.MaterializeDelta` | src/index/slack_timeline.rs:223-241 | writing the lazy delta into the points keeps the block's meaning and extremes |
| `SlackBlocks.SlackBlock.ApplyDeltaToPointRange` | src/index/slack_timeline.rs:251-300 | a partial move succeeds exactly when the moved points fit, moves exactly the indexed points, drops repeats and recomputes exact extremes; otherwise the block is untouched |
| `SlackBlocks.NormalizeAccepts` | src/index/slack_timeline.rs:114-150 | building a block accepts exactly the points that come after the last point kept before them, and drops exactly the repeated values |
| `SlackBlocks.NormalizeAcceptsUnsorted` | src/index/slack_timeline.rs:114-150 | a decreasing timestamp behind a dropped point is accepted, against the constructor's documented error |
| `SlackTimelines.SlackTimeline.SlackAt` | src/index/slack_timeline.rs:492-510 | slack at a timestamp is that of the last effective point at or before it, zero before all |
| `SlackTimelines.SlackTimeline.MinimumSlack` | src/index/slack_timeline.rs:516-523 | the block-aggregate minimum over an interval is the pointwise minimum and is attained in it |
| `SlackTimelines.SlackTimeline.EnsureBoundary` | src/index/slack_timeline.rs:648-678 | a boundary point is inserted, splitting a full block if need be, without changing slack anywhere |
| `SlackTimelines.SlackTimeline.SplitOversizedBlock` | src/index/slack_timeline.rs:695-707 | splitting a block of 257 points keeps the points, their order and exact aggregates in both halves |
| `SlackTimelines.SlackTimeline.ApplyDelta` | src/index/slack_timeline.rs:556-600 | a range update succeeds exactly when the interval's minimum and maximum plus the delta fit 64 bits; it then denotes the specified move, and on failure the meaning is unchanged; sorted, bounded, exactly aggregated blocks are kept and normalization terminates |
| `SlackTimelines.SlackTimeline.NormalizeAndRebalance` | src/index/slack_timeline.rs:709-756 | the normalizing loop terminates, keeps every block valid and changes slack nowhere |
| `SlackTimelines.SlackTimeline.EffectivePoints` | src/index/slack_timeline.rs:766-788 | the points read out are the canonical form of what the blocks denote, whatever their seams |
| `SlackTimelines.BoundsDecide` | src/index/slack_timeline.rs:556-575 | the pre-flight check on an interval's two extremes is equivalent to every timestamp of the interval fitting after the move |
| `SlackTimelines.SlackTimeline.DeficitIntervals` | src/index/slack_timeline.rs:529-544 | reported deficits are those of the canonical points |
| `SlackTimelines.DeficitsExact` | src/index/slack_timeline.rs:529-544 | on a timeline that ends nonnegative the reported deficits are in order and disjoint and cover exactly the negative timestamps with their exact amounts |
| `SlackTimelines.SlackTimeline.BlocksFromSortedPoints` | src/index/slack_timeline.rs:790-803 | chunking points into blocks keeps the points and gives valid blocks of at most 256 points |
| `EngineSafety.DeficitsOfSlack` | src/index/slack_timeline.rs:529-544 | for capacity minus usage, which ends at zero, the reported deficits are exactly the timestamps where usage exceeds capacity |
| `TimelineRebuild.FromCapacityAndClaims` | src/index/slack_timeline.rs:391-450 | rebuilding succeeds exactly when capacity minus usage fits 64 bits everywhere, denotes it at every timestamp, and never takes the inconsistent-usage exit |
| `TimelineRebuild.RebuildEqualsMaintenance` | src/index/slack_timeline.rs:391-450 | a rebuilt timeline and any timeline maintained to the same meaning have identical canonical points |
| `CapacityCurves.NormalizeSegments` | src/domain/capacity_curve.rs:105-139 | the merging pass as it loops, equal to its specification including which fault it reports |
| `CapacityCurves.NormalizeCorrect` | src/domain/capacity_curve.rs:105-139 | segments are accepted exactly when each ends before the next starts; the curve then has the same capacity at every timestamp and is merged |
| `CapacityCurves.FromSortedCorrect` | src/domain/capacity_curve.rs:66-70 | construction accepts exactly bounded disjoint segments, preserves capacity pointwise and is the identity on normalized curves |
| `CapacityCurves.LookupCorrect` | src/domain/capacity_curve.rs:150-163 | the partition-point lookup gives the capacity in force on every normalized curve |
| `UnsortedCurves.FromUnsortedExact` | src/domain/capacity_curve.rs:82-93 | segments in any order are accepted exactly when bounded and pairwise non-overlapping, and the curve declares exactly their capacities |
| `UnsortedCurves.FromUnsortedPermutes` | src/domain/capacity_curve.rs:82-93 | permuted segments build the same curve |
| `Promises.PromiseCell.Commit` | src/domain/promise.rs:224-247 | commit succeeds exactly for a hold before its deadline at the expected, steppable version; the promise is then committed under the next version and the given sequence, all else kept; otherwise nothing changes and the specified error is given |
| `Promises.PromiseCell.Release` | src/domain/promise.rs:257-279 | release succeeds exactly for a hold before its deadline or a commitment, at the expected, steppable version; the promise is then released under the next version and the given sequence, all else kept; otherwise nothing changes |
| `Promises.PromiseCell.Replace` | src/domain/promise.rs:289-331 | replace succeeds exactly for a live promise at the expected, steppable version with any new deadline ahead; bundle and state are then the new ones under the next version and sequence; otherwise nothing changes |
| `Promises.PromiseCell.Expire` | src/domain/promise.rs:343-361 | expire succeeds exactly for a hold whose deadline has been reached and whose version can step, and then expires it; otherwise nothing changes |
| `AdmissionSweep.EvaluatePoolOnTimeline` | src/engine.rs:1932-2076 | the sweep as it runs (collect, sort, merge, scan, consume on a copy) equals the sweep verdict |
| `Admission.SweepExact` | src/engine.rs:1932-2076 | without a floor and with demand in 64 bits a pool is available exactly when demand is at most slack wherever there is demand; the returned timeline is base minus demand; otherwise the conflicts are ordered, disjoint, exact and cover exactly the short timestamps |
| `Admission.VerdictCorrect` | src/engine.rs:1932-2076 | with or without a floor: refusals are reported exactly, acceptance returns base minus demand, and which overflow error is given when |
| `Admission.RefusedAtBreak` | src/engine.rs:1948-2013 | a sweep refuses exactly the demanded timestamps where slack would end below zero or, under a floor, below the lower of zero and the floor at the last break, a break being a claim edge or a change of slack under a claim |
| `Admission.VerdictMerged` | src/engine.rs:2015-2060 | the conflicts of one pool are exact, in order, disjoint and merged: none continues the one before it with the same numbers and holders |
| `Admission.VerdictExact` | src/engine.rs:1932-2076 | the whole verdict: demand past 64 bits is an overflow; else any refusal makes the pool unavailable; else demand past 63 bits is an index overflow; else the pool is available |
| `WorseningRun.ReplacementWorsensSlack` | src/engine.rs:1998-2006 | a run of four commands (create, hold, forced revision, replacement) ends in a replacement that takes slack from 5 to -1 on a stretch, against the pointwise rule of docs/semantics.md:43 |
| `Admission.AcceptedNoWorseExactly` | src/engine.rs:1948-2013 | a sweep accepts and leaves no demanded timestamp worse than it was or than zero exactly when the sweep that also breaks at the floor's own points accepts |
| `ReplacementRules.ReplaceNeverWorsensExactly` | src/engine.rs:1708-1770 | a replacement that goes ahead keeps the documented rule in every pool at every timestamp exactly when evaluating the new bundle on the current state, with the current timelines' own points as extra breaks, fits; and a replacement the caller may make goes ahead whenever that evaluation fits |
| `BundleVerdicts.BundleExact` | src/engine.rs:2087-2133 | a bundle fits exactly when no pool's sweep refuses any timestamp; otherwise its conflicts are canonically ordered, each exact, and cover exactly the refusals |
| `BundleVerdicts.SortConflictsCorrect` | src/engine.rs:2087-2133 | the final sort of conflicts is an ordered permutation |
| `ConflictReports.BlockedTold` | src/engine.rs:2087-2133 | what a blocked bundle reports, told by slack: each conflict once, in canonical order, apart and merged per pool, with exact numbers and exactly the live holders, together covering exactly where the bundle falls short |
| `ConflictReports.EvaluationTold` | src/engine.rs:2087-2133 | what evaluating a bundle answers, with or without an old bundle given back: the fault of the first pool that is unknown or cannot be summed, room, or its conflicts told exactly |
| `AvailabilityOracle.CheckPoolAvailability` | src/engine.rs:1824-1915 | the slow availability loop answers whether candidate and active usage stay within capacity at every timestamp |
| `Engines.Engine.CheckAvailability` | src/engine.rs:1799-1822 | the slow check over the bundle's pools decides capacity at every timestamp, and fails only on a missing pool or on sums beyond 64 bits |
| `AvailabilityOracle.SweepRefinesOracle` | src/engine.rs:1824-1915 | on a pool whose timeline denotes slack, the sweep and the slow check agree |
| `BundleVerdicts.AdmissionRefinesOracle` | src/engine.rs:1799-1822 | in every coherent state, for bundles whose pools exist and whose sums fit, the indexed decision and the slow check agree |
| `BundleAdmissions.RestoredAdjusts` | src/engine.rs:2187-2218 | giving back an active promise's bundle never fails and adds exactly its usage to every pool |
| `Engines.Engine.Restored` | src/engine.rs:2187-2218 | restored copies are prepared as specified and the engine itself is unchanged |
| `Engines.Engine.EvaluateBundleWithOverrides` | src/engine.rs:2087-2133 | bundle evaluation over blocked timelines equals its specification on canonical points |
| `EngineInvariants.EffectCoherent` | src/engine.rs:975-1186 | storing a promise, creating a pool or revising one keeps every timeline equal to capacity minus active usage |
| `EngineSafety.ApplyOnceExplained` | src/engine.rs:859-960 | the state after every operation, whatever it answers, comes from the state before by a run of permitted effects, none of which turns slack negative unless the operation forces a revision |
| `EngineSafety.CoherentAlways` | src/engine.rs:859-960 | over every run, after every command and every rejection, pools and timelines have the same keys and slack is capacity minus held and committed usage at every timestamp |
| `EngineSafety.NoOvercommit` | src/engine.rs:1094-1186 | in every run without a force revision, usage never exceeds capacity in any pool at any timestamp |
| `CommandTheorems.CommandAnswered` | src/engine.rs:859-960 | every command in every coherent state: first the due holds expire in order, each with its event; if a counter stops that, what expired stays and the command fails with that reason; otherwise it is answered from the state so reached exactly as the outcome of its operation says |
| `CommandOutcomes.CommitOutcome` | src/engine.rs:1582-1615 | a commit goes ahead exactly for a stored hold before its deadline at the expected version with both counters able to step; it is then committed, keeps its capacity and logs one event; otherwise nothing changes and the exact error is given |
| `CommandOutcomes.ReleaseOutcome` | src/engine.rs:1641-1684 | a release goes ahead exactly for a stored commitment or hold before its deadline at the expected version with both counters able to step; every pool's slack then rises by exactly the bundle's usage and one event is logged; otherwise nothing changes and the exact error is given |
| `CommandOutcomes.CreateOutcome` | src/engine.rs:1032-1068 | a pool is created exactly when its identity is new and a sequence is left; it is stored as requested with slack equal to its curve everywhere, one event is logged and nothing else changes; otherwise the exact error is given |
| `CommandOutcomes.HoldOutcome` | src/engine.rs:1432-1466 | a bundle is held exactly when its identity is new, its deadline ahead, its pools known, what is held and asked together stays within capacity at every timestamp and a sequence is left; it is unavailable, with its conflicts told exactly, exactly when only capacity is missing; otherwise nothing changes and the exact error is given, the first faulty pool's among them |
| `CommandOutcomes.ChoiceOutcome` | src/engine.rs:1468-1506 | a choice holds its first alternative with room whenever those before it can be evaluated, is unavailable exactly when all are short, and otherwise gives the exact error |
| `CommandOutcomes.SlotOutcome` | src/engine.rs:1349-1382 | a slot hold takes the first candidate in range with room whenever those before it can be evaluated, is unavailable after trying every candidate exactly when all are short, and otherwise gives the exact error |
| `CommandOutcomes.MaterializeExact` | src/domain/relative_bundle.rs:36-46 | a candidate is the relative claims moved to its start when every end is representable, and a timestamp overflow otherwise |
| `ReplaceOutcomes.ReplaceOutcome` | src/engine.rs:1708-1770 | a replacement goes ahead exactly for a live promise at the expected version, with any new deadline ahead and counters able to step, when with the old bundle given back no pool falls short; it is unavailable, with conflicts told exactly and the replaced promise left out of the holders, when only room is missing; otherwise the exact error is given |
| `RevisionOutcomes.RevisionOutcome` | src/engine.rs:1094-1186 | a revision goes ahead exactly when nothing refuses it, with the exact error otherwise; its answer lists each maximal deficit with its holders and exactly the promises holding short capacity, and after the revision's own event it logs in order exactly one event per deficit resolved, created or changed |
| `RevisionOutcomes.DeficitsArePieces` | src/engine.rs:2145-2166 | the deficits read from a timeline are exactly its maximal stretches of one negative value |
| `RevisionOutcomes.HoldersExact` | src/engine.rs:2145-2166 | the promises named with an interval are, in identity order, exactly the held or committed ones with a claim on the pool at some time of it |
| `Expiry.DueHoldsExact` | src/engine.rs:975-1020 | the expiration schedule lists exactly the due holds, by deadline and then identity |
| `Expiry.ExpirationsExplained` | src/engine.rs:975-1020 | processing expires due holds in schedule order, each under its own sequence, and can fail only on counter overflow or a state fault |
| `Expiry.ExpirationsIdempotent` | src/engine.rs:975-1020 | after success nothing is due, and processing again at the same time changes nothing |
| `CommandLaws.ExpirationsOutcome` | src/engine.rs:975-1020 | processing expires exactly the holds whose deadline is reached, by deadline and identity, each under its own sequence with one event, and counts them; it stops early only where the sequence or a version cannot step, with that error, keeping what expired |
| `CommandLaws.ProcessOutcome` | src/engine.rs:859-960 | the command that only processes expirations answers with the number of due holds |
| `CommandLaws.NoDueHoldLeft` | src/engine.rs:859-960 | after any first-seen command whose expirations went through no hold is past its deadline |
| `Engines.Engine.ProcessExpirations` | src/engine.rs:975-1020 | the loop equals its specification, keeping the first holds expired when a later one fails |
| `EngineGuarantees.HoldGuarantee` | src/engine.rs:1432-1466 | a hold answered as held stores the claims and leaves slack nonnegative wherever they apply; one answered as unavailable reports conflicts that are ordered, exact and cover exactly what its pools refuse; on every answer but held nothing changes |
| `EngineGuarantees.ChoiceGuarantee` | src/engine.rs:1468-1506 | the alternative answered as held is the first whose evaluation fits; an unavailable choice reports, for every alternative in order, exact conflicts; on every answer but held nothing changes |
| `EngineGuarantees.SlotGuarantee` | src/engine.rs:1349-1382 | the slot answered as held is a candidate that fits with every candidate before it blocked; an unavailable search tried every candidate in range; on every answer but held nothing changes |
| `EngineGuarantees.ReplaceGuarantee` | src/engine.rs:1708-1770 | on success every pool's slack becomes current plus old bundle minus new bundle pointwise, each demand segment ends no lower than the floor sampled at its start, and a deficit-free engine stays deficit-free; unavailable changes nothing |
| `EngineGuarantees.DeficitFreeReplaceExact` | src/engine.rs:1708-1770 | in a deficit-free engine a replacement of a live promise at the expected version, whose pools exist and whose demand fits 64 bits, never fails: it is carried out exactly when the final state stays within capacity, and answered as unavailable otherwise |
| `EngineGuarantees.RevisionExact` | src/engine.rs:1094-1186 | a revision reports exactly the timestamps where the new capacity falls short, and strict mode is refused exactly when there is one |
| `Engines.Engine.HoldOneOfChoice` | src/engine.rs:1468-1506 | the ordered-choice loop equals its specification |
| `Engines.Engine.SearchCandidates` | src/engine.rs:1297-1347 | the slot search loop equals its specification, with checked candidate arithmetic |
| `Engines.Engine.ReplaceLive` | src/engine.rs:1708-1770 | replacement on the mutable engine equals its specification |
| `Engines.Engine.ReviseCapacityNow` | src/engine.rs:1094-1186 | capacity revision on the mutable engine equals its specification, whose answer and events `RevisionOutcomes.RevisionOutcome` gives |
| `Engines.Engine.ApplyCommand` | src/engine.rs:695-725 | the command interpreter equals the specified application: retries answer from the record, first-seen commands run once and are recorded |
| `EngineLedger.EverySequenceLogged` | src/event.rs:74-117 | event sequences never step back and cover every number from one to the current one |
| `EngineLedger.ApplyInvariant` | src/engine.rs:695-725 | one command keeps the ledger: gap-free numbering, k-th event carries version k, first and last events match created and updated sequence, references known, revision equals record count |
| `EngineLedger.InvariantAlways` | src/engine.rs:695-725 | the ledger invariant holds over every run |
| `CommandLaws.AnswersStand` | src/engine.rs:695-725 | in any run a command repeated under its key, with an operation of the same digest, gets exactly its first answer and changes nothing, whatever happened in between |
| `Batches.PrepareRefinesApply` | src/engine.rs:728-857 | absent revision overflow, preparing a group gives the state, revision and responses of applying its commands one by one, with one item per newly recorded identity |
| `Engines.Engine.PrepareBatch` | src/engine.rs:728-835 | group preparation works on one copy, leaves the published engine as it was, and fails only on revision overflow |
| `Engines.Engine.PublishBatch` | src/engine.rs:849-857 | publishing moves the prepared state and revision in |
| `Engines.Engine.InstallTransition` | src/engine.rs:545-665 | installation validates and stores effects as specified; on failure nothing changes |
| `Engines.Engine.RebuildSlackTimelines` | src/engine.rs:667-693 | the index is rebuilt from curves and active claims, all pools or none |
| `ReplayRefinement.ReplayAccepted` | src/engine.rs:545-665 | installing a batch's items in order is always accepted |
| `InstallChecks.InstallExact` | src/engine.rs:545-665 | a transition is installed exactly when nothing refuses it, with the exact error otherwise, and then stores exactly what it carries over what there was |
| `ReplayTheorems.ReindexRecovers` | src/engine.rs:667-693 | rebuilding the index of a coherent engine gives back identical timelines |
| `ReplayTheorems.ReplayExact` | src/engine.rs:545-683 | installing a batch's items recovers execution exactly when no pool returns to its value from before the batch after changing |
| `ReplayTheorems.ReplayRefinesExecution` | src/engine.rs:545-683 | under that condition replay and rebuild give the published state, index included |
| `ReplayTheorems.SingleCommandNeverReturns` | src/engine.rs:794-807 | one-command batches always meet the condition |
| `ReplayTheorems.RevisedOnceNeverReturns` | src/engine.rs:794-807 | so do batches that revise each pool at most once |
| `ReplayTheorems.ReturnLosesRevision` | src/engine.rs:794-807 | after a run that creates a pool, a batch revising it from A to B and back to A: installing the batch's records and rebuilding the index leaves B, while the published state has A |
| `Snapshots.CaptureRestores` | src/engine.rs:379-503 | every snapshot captured in a run passes restore validation and restores the captured state |
| `Snapshots.SnapshotRoundTrip` | src/engine.rs:379-503 | capture, restore and rebuild is the identity on every state a run reaches |
| `InstallChecks.RestoreExact` | src/engine.rs:404-503 | a snapshot is restored exactly when it is well formed, and the restored state captures to the very same snapshot |
| `Engines.Engine.RestoreSnapshotUnindexed` | src/engine.rs:404-503 | the validating restore loops equal their specification, errors included |
| `WalStreams.ByteBuffer.EncodePayloadInto` | src/storage/record.rs:223-303 | framing appends exactly the record's bytes, succeeds exactly when payload and limits allow, and otherwise restores the buffer |
| `WalRecords.ReadFrame` | src/storage/record.rs:354-437 | a framed record reads back, whatever follows it |
| `WalRecords.ReadCutFrame` | src/storage/record.rs:354-437 | a record cut anywhere inside is a partial tail, never corruption |
| `WalRecords.ReadExact` | src/storage/record.rs:439-526 | whatever is accepted is exactly one framed record of the expected sequence: no other bytes parse |
| `WalRecords.FrameLayout` | docs/storage.md:11-35 | the published record layout: every header field read back at its offset, payload, zero padding to eight bytes and the first half of the digest |
| `WalStreams.RecordReader.ReadNext` | src/storage/record.rs:354-437 | one read equals the specified read of the remaining bytes; offset and sequence advance only on success |
| `WalStreams.RecoverRecords` | src/storage/recovery.rs:176-183 | reading a whole stream gives all its records or the first failure |
| `WalStreams.StreamRoundTrip` | src/storage/record.rs:354-526 | a concatenation of consecutively framed records reads back exactly and ends cleanly |
| `WalStreams.StreamPrefix` | src/storage/record.rs:354-526 | any byte prefix reads back exactly the records complete before the cut, then a clean end at a boundary or a partial tail at that boundary's offset |
| `WalStreams.ReadAllExact` | src/storage/record.rs:354-526 | for arbitrary bytes, what was consumed is exactly the frames of the records returned, with consecutive sequences |
| `Recovery.FeedGroupPrefix` | src/storage/recovery.rs:227-275 | feeding any byte prefix of a framed group installs exactly its complete items and stops at their end |
| `RecoveryExact.FeedReads` | src/storage/recovery.rs:227-275 | feeding any bytes installs, in order, the records that read, as long as each decodes, carries its timestamp on every event and installs, and stops there |
| `RecoveryExact.OpenSound` | src/storage/file/mod.rs:697-797 | whatever is on disk, a database that opens read its segments exactly: consecutive frames whose transitions install in order, each segment starting where the last ended, and only a partial tail behind the last one cut off |
| `RecoveryExact.PayloadsReportNoTail` | src/storage/transition/reader.rs:22-92 | the payload codec never reports a complete payload as a partial tail |
| `EngineRecoveries.EngineRecovery.Feed` | src/storage/recovery.rs:227-275 | the feed loop equals its specification: effects before an error stay, and the next sequence is kept |
| `EngineRecoveries.EngineRecovery.Finish` | src/storage/recovery.rs:278-292 | the index is rebuilt once, with the last valid offset in the error |
| `EngineRecoveries.RecoverEngine` | src/storage/recovery.rs:301-308 | recovering a whole log from record one equals feeding it and rebuilding the index once, errors included |
| `DiskSteps.OpenTorn` | src/storage/file/mod.rs:697-797 | opening after any byte prefix of the last group recovers the log plus the group's complete items, repairs the tail to exactly that log and continues without a gap |
| `DiskSteps.RotatedHolds` | src/storage/file/mod.rs:507-523 | rotating onto an empty segment changes nothing that opening recovers |
| `DiskSteps.SnapshotHolds` | src/storage/file/mod.rs:836-880 | installing a snapshot at the log's end holds the same state with an empty log |
| `DiskSteps.CompactedHolds` | src/storage/file/mod.rs:882-925 | deleting any covered segments and older snapshots changes nothing that opening recovers |
| `SegmentedLogs.SegmentedWal.InspectBatch` | src/storage/file/mod.rs:487-505 | a batch is accepted exactly when it reads back whole from the expected sequence |
| `SegmentedLogs.SegmentedWal.Append` | src/storage/file/mod.rs:526-560 | what an append leaves on disk and in the cached fields for every way it can fail |
| `FileDatabases.Database.ApplyBatch` | src/storage/database.rs:226-275 | prepare, number, frame, persist, then publish: refusals happen exactly when a check fails and touch no file, nothing is published that is not durable, and an uncertain write poisons the database |
| `FileDatabases.Database.CreateSnapshot` | src/storage/file/mod.rs:800-932 | rotation, installation and cleanup follow the snapshot protocol for every way they can fail |
| `Opening.OpenDatabase` | src/storage/file/mod.rs:647-797 | the opening procedure equals the specified opening of the files, and the reopened database is ready to write |
| `RunSafety.BatchSafe` | src/storage/database.rs:226-275 | a batch adds to what reopening recovers all of its commands if acknowledged, some first ones if it broke, none if it was refused, answered, could not rotate or appended nothing; only a batch that appends must replay, and must not append in front of a stray segment |
| `RunSafety.InstalledSafe` | src/storage/file/mod.rs:800-932 | a snapshot installed with any covered files left behind recovers the same state and next sequence |
| `RunSafety.InterruptedSafe` | src/storage/file/mod.rs:697-797 | opening can fail after the repair and any part of the cleanup without changing what the next opening recovers |
| `CrashTheorems.EveryRunRecovers` | src/storage/file/mod.rs:526-932 | over every run of batches, snapshots, crashes and reopenings, each operation failing anywhere, in which no batch appends in front of a stray segment, reopening recovers every acknowledged batch and some first commands of each broken one, in order and once, with no gap in the sequence |
| `CrashTheorems.BatchOpensExactly` | src/storage/file/mod.rs:800-823 | whatever becomes of a batch, the files open afterwards exactly when no failed snapshot rotation left a stray segment, or the batch rotates onto it, or none of its bytes was appended |
| `StraySegments.StrayRunFails` | src/storage/file/mod.rs:800-823 | a new database that commits any batch, fails to rotate for a snapshot and commits any other batch that fits the segment has files that do not open, though both batches were acknowledged |
| `StraySegments.TwoTicksFail` | src/storage/file/mod.rs:800-823 | the same for two given commands over the concrete payload codec, so such a run exists |
| `TypedRuns.TypedRunRecovers` | src/storage/database.rs:226-275 | the same over the concrete payload codec: of a batch that appends it asks typed commands, the no-return condition, and that it does not append in front of a stray segment |
| `TypedRuns.DatabaseFormatFits` | src/storage/database.rs:226-275 | the database's own format, transition payloads and canonical digests, meets every assumption the run theorems make of a format |
| `CommandPayloads.CommandRoundTrip` | src/storage/codec.rs:50-86 | every command whose lengths fit decodes to itself |
| `CommandPayloads.CommandPrefixTruncated` | src/storage/codec.rs:70-86 | every strict prefix of an encoded command decodes to a truncated payload, wherever it is cut |
| `CommandPayloads.ExpirationsLayout` | src/storage/codec.rs:553-591 | the exact bytes of a whole command: version, client and key behind four-byte lengths, and the tag |
| `CommandPayloads.IntegersLittleEndian` | src/storage/codec.rs:594-608 | fixed-width integers are written least significant byte first |
| `TransitionPayloads.TransitionRoundTrip` | src/storage/transition/writer.rs:30-74 | every transition that passes its readers' checks decodes to itself |
| `TransitionPayloads.TransitionPrefixTruncated` | src/storage/transition/reader.rs:22-92 | every strict prefix of an encoded transition is a truncated payload |
| `TransitionPayloads.PayloadSound` | src/storage/transition/reader.rs:22-92 | whatever bytes are decoded, accepted curves and bundles satisfy their constructors |
| `PreparedPayloads.PreparedFits` | src/engine.rs:728-835 | every transition the engine prepares from typed commands passes every check its reader makes |
| `TypedResponses.RequestedFits` | src/engine.rs:859-960 | every response passes its restore checks: nonempty exact conflicts, positive deficits, sorted identities, positive attempts and versions |
| `PayloadReaders.DecodeTransitionBytes` | src/storage/transition/reader.rs:22-92 | the cursor-based reader with its counting loops equals the specified decoding, errors included |
| `PayloadReaders.DecodeCommandBytes` | src/storage/codec.rs:70-86 | the command reader equals the specified decoding, trailing bytes rejected |
| `PayloadWriters.PayloadWriter.EncodeTransitionInto` | src/storage/transition/writer.rs:30-74 | the writer with its patched command length appends exactly the specified payload, or restores the destination |
| `PayloadWriters.PayloadWriter.OneCommand` | src/storage/codec.rs:50-62 | the command writer appends exactly the specified payload, or reports an oversized field |
| `CanonicalBytes.CanonicalExactly` | src/idempotency.rs:297-378 | two operations write the same canonical bytes exactly when they are equal up to the order of claims inside each bundle |
| `CanonicalBytes.SortIdentifies` | src/idempotency.rs:151-199 | canonical claim order identifies exactly the permutations |
| `CommandDigests.CommandHasher.WriteCanonicalOperation` | src/idempotency.rs:297-378 | streaming an operation into the hasher writes exactly its canonical bytes |
| `CommandDigests.HashStreamed` | src/idempotency.rs:278-283 | the streamed digest is the hash of the domain prefix and the canonical bytes |
| `CommandDigests.RetryIgnoresClaimOrder` | src/engine.rs:695-725 | a retry listing its claims in another order gets the recorded answer and changes nothing |
| `CommandDigests.RetryExactly` | src/engine.rs:695-725 | for digests that do not collide, a reused key is a retry exactly when the operations agree up to claim order, and conflicts otherwise |

## Left out

- File handles, locks, paths, manifest and segment header bytes, file-name parsing, temporary files, display and error texts.
- Snapshot file bytes: a snapshot is a value, so its encoding limits are not modelled.
- Durability policies other than synchronizing every append: the weaker ones promise less after a crash.
- Clocks, identity generation and the convenience methods that read them; memory reservation failures.
- BLAKE3 and UTF-8 themselves, and any claim about collisions.
- Event watching, the at-risk listing, unavailability explanations and the advisory slot search: read-only queries over what is proved here.
- Maximum-slack queries as a public operation: the shared bound search is proved for both directions where updates use it.
- Field names and lengths inside payload length errors: an oversized field is one error.
- Directory listings come in name order; removing files in another order leaves one of the partial cleanups the protocol already allows.
- Opening that fails after repairing a tail is modelled as its own step; the opening procedure itself is given no file-system failures.
- EngineGuarantees.HoldGuarantee: says nothing of when a hold succeeds; CommandOutcomes.HoldOutcome does.
- EngineGuarantees.ChoiceGuarantee: says nothing of when a choice is held; CommandOutcomes.ChoiceOutcome does.
- EngineGuarantees.SlotGuarantee: says nothing of when a slot is held; CommandOutcomes.SlotOutcome does.
- EngineSafety.ApplyOnceExplained: says which effects are possible, not which one; CommandTheorems.CommandAnswered does.
- RecoveryExact.OpenSound: is about databases whose latest snapshot is not at the end of the sequence space; there no segment is read.
- DiskSteps.OpenTorn: assumes that the group's items install, which the engine's own batches are shown to do.
- CrashTheorems.EveryRunRecovers: assumes that each batch that appends replays, that its items decode, and that it does not append in front of a stray segment; TypedRuns.TypedRunRecovers discharges the second for the concrete codec, the first is exactly the no-return condition, and without the third the files do not open.
