/**
 Crash safety with the payload codec itself: typed commands are all it takes for every record to read
 back, so a run needs no assumption about encoding.
 */
module TypedRuns {
  import opened Results
  import opened Bytes
  import opened WalRecords
  import opened Domain
  import opened Transitions
  import opened EngineInvariants
  import opened EngineSafety
  import opened EngineLedger
  import opened Batches
  import opened Replay
  import opened ReplayRefinement
  import opened ReplayTheorems
  import opened Recovery
  import opened LogDisk
  import opened DiskSteps
  import opened CrashSafety
  import opened DatabaseRuns
  import opened RunSafety
  import opened CrashTheorems
  import opened Payloads
  import opened CommandPayloads
  import opened ResponsePayloads
  import opened EntityPayloads
  import opened TransitionPayloads
  import opened TypedResponses
  import opened PreparedPayloads
  import opened CanonicalBytes
  import opened CommandDigests

  /** The format of a database's files: records framed around transition payloads. */
  ghost predicate PayloadFormat(text: Text, f: Format) {
    SoundHash(f.hash) && Lossless(text) && f.codec == PayloadCodec(text) && TypedDigest(f.digest)
  }

  /** A database with transition payloads and canonical operation digests. */
  function DatabaseFormat(text: Text, hash: Hash, max: nat): Format {
    Format(hash, max, PayloadCodec(text), Digest(text, hash))
  }

  lemma DatabaseFormatFits(text: Text, hash: Hash, max: nat)
    requires SoundHash(hash) && Lossless(text)
    ensures PayloadFormat(text, DatabaseFormat(text, hash, max)) && SoundCodec(DatabaseFormat(text, hash, max).codec)
  {
    hide PayloadCodec, SoundCodec, CanonicalOperation, Lossless;
    PayloadSound(text);
    forall operation
      ensures FitsDigest(Digest(text, hash)(operation))
    {
    }
  }

  // ---- Typed state over runs ----

  lemma EmptyTyped(text: Text)
    ensures TypedState(text, EmptyState)
  {
  }

  lemma ApplyTyped(text: Text, p: Published, digest: Operation -> seq<int>, command: Command, now: int)
    requires Coherent(p.state) && TypedState(text, p.state) && FitsOperation(text, command.operation)
    ensures TypedState(text, Apply(p, digest, command, now).0.state)
  {
    hide Coherent, ApplyOnce, FitsOperation, FitsPool, TypedPromise, FitsResponse;
    if command.identity !in p.state.records && p.revision < U128_MAX {
      ApplyOnceFits(text, p.state, command.operation, now);
    }
  }

  lemma {:induction false} RunTyped(text: Text, digest: Operation -> seq<int>, requests: seq<Request>)
    requires TypedRequests(text, requests)
    ensures TypedState(text, Run(Genesis, digest, requests).state) && Invariant(Run(Genesis, digest, requests))
  {
    hide Invariant, TypedState, Apply, FitsOperation, Operation.Valid;
    TypedValid(text, requests);
    InvariantAlways(digest, requests);
    if requests == [] {
      EmptyTyped(text);
    } else {
      var n := |requests| - 1;
      RunTyped(text, digest, requests[..n]);
      InvariantFacts(Run(Genesis, digest, requests[..n]));
      ApplyTyped(text, Run(Genesis, digest, requests[..n]), digest, requests[n].command, requests[n].now);
    }
  }

  lemma InvariantFacts(p: Published)
    requires Invariant(p)
    ensures Coherent(p.state) && Ledger(p.state)
  {
    hide Coherent, Ledger, RecordsKnown;
  }

  // ---- Batches ----

  /** What a caller must see to: typed commands, and no pool returned to its value before the batch. */
  ghost predicate TypedBatch(text: Text, f: Format, p: Published, requests: seq<Request>) {
    && TypedRequests(text, requests)
    && forall j :: 0 <= j <= |requests| ==> NoReturn(p.state, f.digest, requests, j)
  }

  lemma TypedReplayable(text: Text, f: Format, p: Published, requests: seq<Request>)
    requires PayloadFormat(text, f) && Invariant(p) && TypedState(text, p.state) && TypedBatch(text, f, p, requests)
    ensures Replayable(f, p, requests)
  {
    hide Coherent, Ledger, RecordsKnown, TypedState, FitsOperation, NoReturn, PrepareUpTo, FitsTransition, PayloadCodec,
         Operation.Valid, Faithful, TypedDigest, Lossless;
    TypedValid(text, requests);
    PreparedFits(text, p.state, f.digest, requests, |requests|);
    var items := Group(f, p, requests);
    forall i | 0 <= i < |items|
      ensures Faithful(f.codec, items[i].transition)
    {
      PayloadFaithful(text, items[i].transition);
    }
  }

  // ---- Runs ----

  /** Commands are typed; a batch that appends returns no pool, and does not append in front of a stray segment. */
  ghost predicate TypedAllowed(text: Text, f: Format, target: nat, s: System, step: Step) {
    && (step.Batch? ==> TypedRequests(text, step.requests))
    && (step.Batch? && s.live.Some? && !s.live.value.poisoned && AppendsBytes(step.outcome) ==>
          && TypedBatch(text, f, s.live.value.published, step.requests)
          && (Strayed(s) ==> RotatesFirst(f, target, s, step.requests)))
  }

  /** A run from creation whose batches are typed. */
  ghost predicate RunsTyped(text: Text, f: Format, target: nat, states: seq<System>, steps: seq<Step>) {
    && |states| == |steps| + 1 && states[0] == CrashTheorems.Created
    && forall i :: 0 <= i < |steps| ==>
                     Follows(f, target, states[i], steps[i], states[i + 1])
                     && TypedAllowed(text, f, target, states[i], steps[i])
  }

  lemma {:induction false} AccountedTyped(text: Text, steps: seq<Step>, applied: seq<Request>)
    requires Accounted(steps, applied)
    requires forall i :: 0 <= i < |steps| && steps[i].Batch? ==> TypedRequests(text, steps[i].requests)
    ensures TypedRequests(text, applied)
    decreases |steps|
  {
    hide FitsOperation;
    if steps != [] {
      var n := |steps| - 1;
      var k: nat :| k <= |applied| && Accounted(steps[..n], applied[..k]) && Accounts(steps[n], applied[k..]);
      AccountedTyped(text, steps[..n], applied[..k]);
      forall r | 0 <= r < |applied|
        ensures FitsOperation(text, applied[r].command.operation) && FitsI64(applied[r].now)
      {
        if r < k {
          assert applied[r] == applied[..k][r];
        } else {
          assert applied[r] == applied[k..][r - k];
        }
      }
    }
  }

  /** A typed step from a recovered state is an allowed one. */
  lemma TypedStepAllowed(text: Text, f: Format, target: nat, s: System, step: Step, applied: seq<Request>)
    requires PayloadFormat(text, f) && Good(f, s, Run(Genesis, f.digest, applied)) && TypedRequests(text, applied)
    requires TypedAllowed(text, f, target, s, step)
    ensures Allowed(f, target, s, step)
  {
    hide PayloadFormat, TypedRequests, Invariant, Run, Opens, Recoverable, LiveSegments, Strayed, RotatesFirst,
         Replayable, TypedState, TypedBatch;
    if step.Batch? && s.live.Some? && !s.live.value.poisoned && AppendsBytes(step.outcome) {
      RunTyped(text, f.digest, applied);
      TypedReplayable(text, f, s.live.value.published, step.requests);
    }
  }

  lemma {:induction false} TypedRunsAllowed(text: Text, f: Format, target: nat, states: seq<System>, steps: seq<Step>)
    requires PayloadFormat(text, f) && RunsTyped(text, f, target, states, steps)
    ensures Runs(f, target, states, steps)
    decreases |steps|
  {
    hide *;
    TypedLength(text, f, target, states, steps);
    if steps != [] {
      TypedPrefix(text, f, target, states, steps);
      TypedRunsAllowed(text, f, target, states[..|steps|], steps[..|steps| - 1]);
      BatchesTyped(text, f, target, states, steps);
      LastAllowed(text, f, target, states, steps);
      RunsPush(f, target, states, steps);
    } else {
      NoStepsRun(f, target, states);
    }
  }

  lemma NoStepsRun(f: Format, target: nat, states: seq<System>)
    requires |states| == 1 && states[0] == CrashTheorems.Created
    ensures Runs(f, target, states, [])
  {
  }

  lemma LastAllowed(text: Text, f: Format, target: nat, states: seq<System>, steps: seq<Step>)
    requires PayloadFormat(text, f) && |states| == |steps| + 1 && steps != []
    requires Runs(f, target, states[..|steps|], steps[..|steps| - 1])
    requires TypedAllowed(text, f, target, states[|steps| - 1], steps[|steps| - 1])
    requires forall i :: 0 <= i < |steps| && steps[i].Batch? ==> TypedRequests(text, steps[i].requests)
    ensures Allowed(f, target, states[|steps| - 1], steps[|steps| - 1])
  {
    hide *;
    var n := |steps| - 1;
    FormatSound(text, f);
    var applied := EveryRunRecovers(f, target, states[..n + 1], steps[..n]);
    AccountedTyped(text, steps[..n], applied);
    TypedStepAllowed(text, f, target, states[n], steps[n], applied);
  }

  lemma FormatSound(text: Text, f: Format)
    requires PayloadFormat(text, f)
    ensures SoundHash(f.hash)
  {
    hide SoundHash, Lossless, PayloadCodec, TypedDigest;
  }

  lemma TypedPrefix(text: Text, f: Format, target: nat, states: seq<System>, steps: seq<Step>)
    requires RunsTyped(text, f, target, states, steps) && steps != []
    ensures RunsTyped(text, f, target, states[..|steps|], steps[..|steps| - 1])
    ensures TypedAllowed(text, f, target, states[|steps| - 1], steps[|steps| - 1])
  {
    hide Follows, TypedAllowed;
  }

  lemma BatchesTyped(text: Text, f: Format, target: nat, states: seq<System>, steps: seq<Step>)
    requires RunsTyped(text, f, target, states, steps)
    ensures forall i :: 0 <= i < |steps| && steps[i].Batch? ==> TypedRequests(text, steps[i].requests)
  {
    hide Follows, TypedRequests, TypedBatch;
    forall i | 0 <= i < |steps| && steps[i].Batch?
      ensures TypedRequests(text, steps[i].requests)
    {
      assert TypedAllowed(text, f, target, states[i], steps[i]);
    }
  }

  lemma RunsPush(f: Format, target: nat, states: seq<System>, steps: seq<Step>)
    requires |states| == |steps| + 1 && steps != [] && Runs(f, target, states[..|steps|], steps[..|steps| - 1])
    requires Follows(f, target, states[|steps| - 1], steps[|steps| - 1], states[|steps|])
    requires Allowed(f, target, states[|steps| - 1], steps[|steps| - 1])
    ensures Runs(f, target, states, steps)
  {
    hide Follows, Allowed;
    var n := |steps| - 1;
    forall i | 0 <= i < |steps|
      ensures Follows(f, target, states[i], steps[i], states[i + 1]) && Allowed(f, target, states[i], steps[i])
    {
      if i < n {
        assert states[..n + 1][i] == states[i] && states[..n + 1][i + 1] == states[i + 1] && steps[..n][i] == steps[i];
      }
    }
  }

  /**
   The whole stack: index, engine, payloads, records, segments and snapshots. After any run of typed
   batches, snapshots, crashes and reopenings, reopening recovers every acknowledged batch and some first
   commands of each broken one, in order, with no gap in the record sequence.
   */
  lemma TypedRunRecovers(text: Text, f: Format, target: nat, states: seq<System>, steps: seq<Step>)
    returns (applied: seq<Request>)
    requires PayloadFormat(text, f) && RunsTyped(text, f, target, states, steps)
    ensures Accounted(steps, applied) && Good(f, states[|steps|], Run(Genesis, f.digest, applied))
    ensures Opens(f, states[|steps|].disk, Run(Genesis, f.digest, applied))
  {
    hide *;
    TypedLength(text, f, target, states, steps);
    FormatSound(text, f);
    TypedRunsAllowed(text, f, target, states, steps);
    applied := EveryRunRecovers(f, target, states, steps);
  }

  lemma TypedLength(text: Text, f: Format, target: nat, states: seq<System>, steps: seq<Step>)
    requires RunsTyped(text, f, target, states, steps)
    ensures |states| == |steps| + 1 && states[0] == CrashTheorems.Created
    ensures steps != [] ==>
              Follows(f, target, states[|steps| - 1], steps[|steps| - 1], states[|steps|])
              && TypedAllowed(text, f, target, states[|steps| - 1], steps[|steps| - 1])
  {
    hide Follows, TypedAllowed;
  }
}
