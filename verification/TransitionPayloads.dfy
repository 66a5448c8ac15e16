/**
 The versioned transition payload: what a prepared transition's effects are written as, the checks
 reading makes, and that reading gives the transition back.
 */
module TransitionPayloads {
  import opened Results
  import opened Bytes
  import opened Intervals
  import opened CapacityCurves
  import opened Domain
  import opened Batches
  import opened WalRecords
  import opened Recovery
  import opened Payloads
  import opened CommandPayloads
  import opened ResponsePayloads
  import opened EntityPayloads

  const TRANSITION_FORMAT_VERSION: byte := 1

  predicate FitsDigest(digest: seq<int>) {
    |digest| == 32 && forall i :: 0 <= i < |digest| ==> 0 <= digest[i] < 256
  }

  function DigestBytes(digest: seq<int>): (bytes: seq<byte>)
    ensures |bytes| == |digest|
  {
    seq(|digest|, i requires 0 <= i < |digest| => digest[i] % 256)
  }

  lemma DigestReads(digest: seq<int>, s: seq<byte>)
    requires FitsDigest(digest) && Aligned(s, DigestBytes(digest))
    ensures Take(32, s) == Expect(digest, DigestBytes(digest), s)
  {
    assert DigestBytes(digest) == digest;
    TakeReads(DigestBytes(digest), s);
  }

  /** A command payload behind its length. */
  function NestedBytes(text: Text, command: Command): seq<byte> {
    U32Bytes(|CommandBytes(text, command)|) + CommandBytes(text, command)
  }

  function ReadNested(text: Text, s: seq<byte>): (r: Read<Command>)
    ensures NoTail(r)
  {
    var (length, rest) :- ReadU32(s);
    var (raw, rest) :- Take(length, rest);
    var command :- DecodeCommand(text, raw);
    Ok((command, rest))
  }

  lemma NestedReads(text: Text, command: Command, s: seq<byte>)
    requires Lossless(text) && FitsOperation(text, command.operation) && SizedCommand(text, command)
    requires |CommandBytes(text, command)| <= U32_MAX && Aligned(s, NestedBytes(text, command))
    ensures ReadNested(text, s) == Expect(command, NestedBytes(text, command), s)
  {
    hide Aligned, U32Bytes, ReadU32, CommandBytes, SizedCommand, FitsOperation;
    var raw := CommandBytes(text, command);
    AlignedSplit(s, U32Bytes(|raw|), raw);
    U32Reads(|raw|, s);
    CommandRoundTrip(text, command);
    if 4 <= |s| {
      TakeReads(raw, s[4..]);
    }
  }

  /** The identity, the operation's digest and the response. */
  function ReplyBytes(text: Text, t: DurableTransition): seq<byte> {
    StringBytes(text, t.identity.clientId)
    + (StringBytes(text, t.identity.key) + (DigestBytes(t.digest) + ResponseBytes(t.response)))
  }

  /** The changed entities, the new events and the final sequence. */
  function ChangeBytes(text: Text, t: DurableTransition): seq<byte> {
    PoolsBytes(text, t.pools) + (PromisesBytes(t.promises) + (EventsBytes(t.events) + U64Bytes(t.finalSequence)))
  }

  function TransitionBytes(text: Text, t: DurableTransition): seq<byte> {
    [TRANSITION_FORMAT_VERSION] + (NestedBytes(text, t.command) + (ReplyBytes(text, t) + ChangeBytes(text, t)))
  }

  /** Every value lies in its machine type and passes the check its reader makes. */
  ghost predicate FitsTransition(text: Text, t: DurableTransition) {
    && FitsOperation(text, t.command.operation) && FitsDigest(t.digest) && FitsResponse(t.response)
    && FitsPools(text, t.pools) && FitsPromises(t.promises) && FitsEvents(t.events) && FitsU64(t.finalSequence)
  }

  /** Every length fits its 32-bit prefix. */
  predicate SizedTransition(text: Text, t: DurableTransition) {
    && SizedCommand(text, t.command) && |CommandBytes(text, t.command)| <= U32_MAX
    && SizedString(text, t.identity.clientId) && SizedString(text, t.identity.key)
    && SizedResponse(t.response) && SizedPools(text, t.pools) && SizedPromises(t.promises) && SizedEvents(t.events)
  }

  function EncodeTransition(text: Text, t: DurableTransition): Result<seq<byte>, StorageError> {
    if SizedTransition(text, t) then Ok(TransitionBytes(text, t)) else Err(OversizedField)
  }

  datatype Reply = Reply(identity: Identity, digest: seq<int>, response: Response)

  datatype Changes = Changes(pools: seq<Pool>, promises: seq<Promise>, events: seq<Event>, finalSequence: int)

  function ReplyOf(t: DurableTransition): Reply {
    Reply(t.identity, t.digest, t.response)
  }

  function ChangesOf(t: DurableTransition): Changes {
    Changes(t.pools, t.promises, t.events, t.finalSequence)
  }

  function ReadReply(text: Text, s: seq<byte>): (r: Read<Reply>)
    ensures NoTail(r)
  {
    var (clientId, rest) :- ReadString(text, s);
    var (key, rest) :- ReadString(text, rest);
    var (digest, rest) :- Take(32, rest);
    var (response, rest) :- ReadResponse(rest);
    Ok((Reply(Identity(clientId, key), digest, response), rest))
  }

  function ReadChanges(text: Text, s: seq<byte>): (r: Read<Changes>)
    ensures NoTail(r)
  {
    var (pools, rest) :- ReadPools(text, s);
    var (promises, rest) :- ReadPromises(rest);
    var (events, rest) :- ReadEvents(rest);
    var (finalSequence, rest) :- ReadU64(rest);
    Ok((Changes(pools, promises, events, finalSequence), rest))
  }

  function ReadTransition(text: Text, s: seq<byte>): (r: Read<DurableTransition>)
    ensures NoTail(r)
  {
    var (version, rest) :- ReadByte(s);
    if version != TRANSITION_FORMAT_VERSION then Err(UnsupportedPayload(version))
    else
      var (command, rest) :- ReadNested(text, rest);
      var (reply, rest) :- ReadReply(text, rest);
      var (changes, rest) :- ReadChanges(text, rest);
      Ok((DurableTransition(command, reply.identity, reply.digest, reply.response, changes.pools, changes.promises,
                            changes.events, changes.finalSequence), rest))
  }

  function DecodeTransition(text: Text, bytes: seq<byte>): (r: Result<DurableTransition, StorageError>)
    ensures NoTail(r)
  {
    var (t, rest) :- ReadTransition(text, bytes);
    if rest != [] then Err(CorruptPayload("trailing transition payload bytes")) else Ok(t)
  }

  lemma ReplyReads(text: Text, t: DurableTransition, s: seq<byte>)
    requires Lossless(text) && SizedString(text, t.identity.clientId) && SizedString(text, t.identity.key)
    requires FitsDigest(t.digest) && FitsResponse(t.response) && SizedResponse(t.response)
    requires Aligned(s, ReplyBytes(text, t))
    ensures ReadReply(text, s) == Expect(ReplyOf(t), ReplyBytes(text, t), s)
  {
    hide Aligned, StringBytes, ReadString, SizedString, DigestBytes, ResponseBytes, ReadResponse, FitsResponse,
         SizedResponse, FitsDigest;
    var a := StringBytes(text, t.identity.clientId);
    var b := StringBytes(text, t.identity.key);
    var c := DigestBytes(t.digest);
    var d := ResponseBytes(t.response);
    AlignedSplit(s, a, b + (c + d));
    StringReads(text, t.identity.clientId, s);
    if |a| <= |s| {
      var s1 := s[|a|..];
      AlignedSplit(s1, b, c + d);
      StringReads(text, t.identity.key, s1);
      if |b| <= |s1| {
        var s2 := s1[|b|..];
        AlignedSplit(s2, c, d);
        DigestReads(t.digest, s2);
        if |c| <= |s2| {
          var s3 := s2[|c|..];
          ResponseReads(t.response, s3);
        }
      }
    }
  }

  lemma ChangesRead(text: Text, t: DurableTransition, s: seq<byte>)
    requires Lossless(text) && FitsPools(text, t.pools) && FitsPromises(t.promises) && FitsEvents(t.events)
    requires SizedPools(text, t.pools) && SizedPromises(t.promises) && SizedEvents(t.events) && FitsU64(t.finalSequence)
    requires Aligned(s, ChangeBytes(text, t))
    ensures ReadChanges(text, s) == Expect(ChangesOf(t), ChangeBytes(text, t), s)
  {
    hide Aligned, PoolsBytes, ReadPools, FitsPools, SizedPools, PromisesBytes, ReadPromises, FitsPromises,
         SizedPromises, EventsBytes, ReadEvents, FitsEvents, SizedEvents, U64Bytes, ReadU64;
    var a := PoolsBytes(text, t.pools);
    var b := PromisesBytes(t.promises);
    var c := EventsBytes(t.events);
    var d := U64Bytes(t.finalSequence);
    AlignedSplit(s, a, b + (c + d));
    PoolsRead(text, t.pools, s);
    if |a| <= |s| {
      var s1 := s[|a|..];
      AlignedSplit(s1, b, c + d);
      PromisesRead(t.promises, s1);
      if |b| <= |s1| {
        var s2 := s1[|b|..];
        AlignedSplit(s2, c, d);
        EventsRead(t.events, s2);
        if |c| <= |s2| {
          var s3 := s2[|c|..];
          U64Reads(t.finalSequence, s3);
        }
      }
    }
  }

  lemma TransitionReads(text: Text, t: DurableTransition, s: seq<byte>)
    requires Lossless(text) && FitsTransition(text, t) && SizedTransition(text, t)
             && Aligned(s, TransitionBytes(text, t))
    ensures ReadTransition(text, s) == Expect(t, TransitionBytes(text, t), s)
  {
    hide Aligned, ReadByte, NestedBytes, ReadNested, ReplyBytes, ReadReply, ChangeBytes, ReadChanges;
    var a := [TRANSITION_FORMAT_VERSION];
    var b := NestedBytes(text, t.command);
    var c := ReplyBytes(text, t);
    var d := ChangeBytes(text, t);
    AlignedSplit(s, a, b + (c + d));
    ByteReads(TRANSITION_FORMAT_VERSION, s);
    if |a| <= |s| {
      var s1 := s[|a|..];
      AlignedSplit(s1, b, c + d);
      NestedReads(text, t.command, s1);
      if |b| <= |s1| {
        var s2 := s1[|b|..];
        AlignedSplit(s2, c, d);
        ReplyReads(text, t, s2);
        if |c| <= |s2| {
          var s3 := s2[|c|..];
          ChangesRead(text, t, s3);
        }
      }
    }
  }

  /** Every transition survives its payload, with all of the reader's checks passing. */
  lemma TransitionRoundTrip(text: Text, t: DurableTransition)
    requires Lossless(text) && FitsTransition(text, t) && EncodeTransition(text, t).Ok?
    ensures DecodeTransition(text, EncodeTransition(text, t).value) == Ok(t)
  {
    hide ReadTransition, TransitionBytes, FitsTransition, SizedTransition;
    TransitionReads(text, t, TransitionBytes(text, t));
  }

  /** Every strict prefix of a transition's payload is truncated, whatever it is cut in. */
  lemma TransitionPrefixTruncated(text: Text, t: DurableTransition, k: nat)
    requires Lossless(text) && FitsTransition(text, t) && EncodeTransition(text, t).Ok?
    requires k < |EncodeTransition(text, t).value|
    ensures DecodeTransition(text, EncodeTransition(text, t).value[..k]) == Err(TruncatedPayload)
  {
    hide ReadTransition, TransitionBytes, FitsTransition, SizedTransition;
    TransitionReads(text, t, TransitionBytes(text, t)[..k]);
  }

  /** Encoding and decoding as recovery uses them. */
  function PayloadCodec(text: Text): TransitionCodec {
    TransitionCodec(t => EncodeTransition(text, t), bytes => DecodeTransition(text, bytes))
  }

  lemma PayloadFaithful(text: Text, t: DurableTransition)
    requires Lossless(text) && FitsTransition(text, t)
    ensures Faithful(PayloadCodec(text), t)
  {
    hide EncodeTransition, DecodeTransition, FitsTransition;
    if EncodeTransition(text, t).Ok? {
      TransitionRoundTrip(text, t);
    }
  }

  // ---- Whatever is read is well formed ----

  ghost predicate GoodSegment(segment: CapacitySegment) {
    segment.interval.Valid() && FitsU64(segment.capacity)
  }

  ghost predicate GoodClaim(claim: Claim) {
    claim.Valid()
  }

  ghost predicate GoodPool(pool: Pool) {
    ValidCurve(pool.curve)
  }

  ghost predicate GoodPromise(p: Promise) {
    ValidBundle(p.bundle)
  }

  lemma U64Fits(s: seq<byte>)
    ensures ReadU64(s).Ok? ==> FitsU64(ReadU64(s).value.0)
  {
    if 8 <= |s| {
      Limits();
      LittleEndianExact(s[..8]);
    }
  }

  lemma CurveValid(s: seq<byte>)
    requires ReadCurve(s).Ok?
    ensures ValidCurve(ReadCurve(s).value.0)
  {
    hide ReadList, FromSorted, ReadU64, ReadInterval;
    forall s' | ReadSegment(s').Ok?
      ensures GoodSegment(ReadSegment(s').value.0)
    {
      IntervalValid(s');
      U64Fits(ReadInterval(s').value.1);
    }
    ListYields(ReadSegment, GoodSegment, AnyOrder<CapacitySegment>, UNORDERED, s);
    var segments := ReadList(ReadSegment, AnyOrder<CapacitySegment>, UNORDERED, s).value.0;
    assert forall i :: 0 <= i < |segments| ==> GoodSegment(segments[i]);
    FromSortedCorrect(segments);
  }

  lemma IntervalValid(s: seq<byte>)
    ensures ReadInterval(s).Ok? ==> ReadInterval(s).value.0.Valid()
  {
    hide ReadI64;
  }

  lemma BundleValid(s: seq<byte>)
    requires ReadBundle(s).Ok?
    ensures ValidBundle(ReadBundle(s).value.0)
  {
    hide ReadList, ReadU64, ReadInterval, ReadId;
    forall s' | ReadClaim(s').Ok?
      ensures GoodClaim(ReadClaim(s').value.0)
    {
      var rest := ReadId(s').value.1;
      IntervalValid(rest);
      U64Fits(ReadInterval(rest).value.1);
    }
    ListYields(ReadClaim, GoodClaim, AnyOrder<Claim>, UNORDERED, s);
    var claims := ReadList(ReadClaim, AnyOrder<Claim>, UNORDERED, s).value.0;
    assert forall i :: 0 <= i < |claims| ==> GoodClaim(claims[i]);
  }

  lemma PoolsValid(text: Text, s: seq<byte>)
    requires ReadPools(text, s).Ok?
    ensures var pools := ReadPools(text, s).value.0;
            forall i :: 0 <= i < |pools| ==> GoodPool(pools[i])
  {
    hide ReadList, ReadCurve, ReadString, ReadUnit, ReadId;
    forall s' | PoolReader(text)(s').Ok?
      ensures GoodPool(PoolReader(text)(s').value.0)
    {
      var unitRest := ReadString(text, ReadId(s').value.1).value.1;
      CurveValid(ReadUnit(text, unitRest).value.1);
    }
    ListYields(PoolReader(text), GoodPool, PoolsAscend, POOL_ORDER, s);
  }

  lemma PromisesValid(s: seq<byte>)
    requires ReadPromises(s).Ok?
    ensures var promises := ReadPromises(s).value.0;
            forall i :: 0 <= i < |promises| ==> GoodPromise(promises[i])
  {
    hide ReadState, ReadId;
    forall s' | ReadPromise(s').Ok?
      ensures GoodPromise(ReadPromise(s').value.0)
    {
      BundleValid(ReadState(ReadId(s').value.1).value.1);
    }
    ListYields(ReadPromise, GoodPromise, PromisesAscend, PROMISE_ORDER, s);
  }

  /** Decoding any bytes yields well-formed values or an error. */
  lemma PayloadSound(text: Text)
    ensures SoundCodec(PayloadCodec(text))
  {
    hide ReadNested, ReadReply, ReadPools, ReadByte;
    forall bytes | PayloadCodec(text).decode(bytes).Ok?
      ensures WellFormedTransition(PayloadCodec(text).decode(bytes).value)
    {
      var (_, nested) := ReadByte(bytes).value;
      var (_, reply) := ReadNested(text, nested).value;
      var (_, changes) := ReadReply(text, reply).value;
      PoolsValid(text, changes);
      var (pools, promises) := ReadPools(text, changes).value;
      PromisesValid(promises);
    }
  }
}
