/** Pools, promises and events as payload fields, in the order their readers demand. */
module EntityPayloads {
  import opened Results
  import opened Bytes
  import opened Intervals
  import opened CapacityCurves
  import opened Domain
  import opened WalRecords
  import opened Payloads
  import opened CommandPayloads
  import opened ResponsePayloads

  // ---- Pools ----

  function PoolBytes(text: Text, pool: Pool): seq<byte> {
    IdBytes(pool.id) + (StringBytes(text, pool.displayName) + (UnitBytes(text, pool.unit) + CurveBytes(pool.curve)))
  }

  ghost predicate FitsPool(text: Text, pool: Pool) {
    FitsId(pool.id) && FitsUnit(text, pool.unit) && FitsCurve(pool.curve)
  }

  predicate SizedPool(text: Text, pool: Pool) {
    SizedString(text, pool.displayName) && SizedString(text, pool.unit.name) && |pool.curve| <= U32_MAX
  }

  function ReadPool(text: Text, s: seq<byte>): (r: Read<Pool>)
    ensures NoTail(r)
  {
    var (id, rest) :- ReadId(s);
    var (displayName, rest) :- ReadString(text, rest);
    var (unit, rest) :- ReadUnit(text, rest);
    var (curve, rest) :- ReadCurve(rest);
    Ok((Pool(id, displayName, unit, curve), rest))
  }

  lemma PoolReads(text: Text, pool: Pool, s: seq<byte>)
    requires Lossless(text) && FitsPool(text, pool) && SizedPool(text, pool) && Aligned(s, PoolBytes(text, pool))
    ensures ReadPool(text, s) == Expect(pool, PoolBytes(text, pool), s)
  {
    hide Aligned, IdBytes, ReadId, StringBytes, ReadString, UnitBytes, ReadUnit, CurveBytes, ReadCurve, SizedString,
         FitsUnit, FitsCurve;
    var a := IdBytes(pool.id);
    var b := StringBytes(text, pool.displayName);
    var c := UnitBytes(text, pool.unit);
    var d := CurveBytes(pool.curve);
    AlignedSplit(s, a, b + (c + d));
    IdReads(pool.id, s);
    if |a| <= |s| {
      var s1 := s[|a|..];
      AlignedSplit(s1, b, c + d);
      StringReads(text, pool.displayName, s1);
      if |b| <= |s1| {
        var s2 := s1[|b|..];
        AlignedSplit(s2, c, d);
        UnitReads(text, pool.unit, s2);
        if |c| <= |s2| {
          var s3 := s2[|c|..];
          CurveReads(pool.curve, s3);
        }
      }
    }
  }

  function PoolParts(text: Text, pools: seq<Pool>): (parts: seq<seq<byte>>)
    ensures |parts| == |pools| && forall i :: 0 <= i < |pools| ==> parts[i] == PoolBytes(text, pools[i])
  {
    seq(|pools|, i requires 0 <= i < |pools| => PoolBytes(text, pools[i]))
  }

  function PoolsBytes(text: Text, pools: seq<Pool>): seq<byte> {
    ListBytes(PoolParts(text, pools))
  }

  predicate PoolsAscend(earlier: Pool, later: Pool) {
    earlier.id < later.id
  }

  ghost predicate FitsPools(text: Text, pools: seq<Pool>) {
    && (forall i :: 0 <= i < |pools| ==> FitsPool(text, pools[i]))
    && forall i :: 0 < i < |pools| ==> PoolsAscend(pools[i - 1], pools[i])
  }

  predicate SizedPools(text: Text, pools: seq<Pool>) {
    |pools| <= U32_MAX && forall i :: 0 <= i < |pools| ==> SizedPool(text, pools[i])
  }

  function PoolReader(text: Text): seq<byte> -> Read<Pool> {
    s => ReadPool(text, s)
  }

  const POOL_ORDER: StorageError := CorruptPayload("non-canonical resource pool order")

  function ReadPools(text: Text, s: seq<byte>): (r: Read<seq<Pool>>)
    ensures NoTail(r)
  {
    ReadList(PoolReader(text), PoolsAscend, POOL_ORDER, s)
  }

  lemma PoolsRead(text: Text, pools: seq<Pool>, s: seq<byte>)
    requires Lossless(text) && FitsPools(text, pools) && SizedPools(text, pools) && Aligned(s, PoolsBytes(text, pools))
    ensures ReadPools(text, s) == Expect(pools, PoolsBytes(text, pools), s)
  {
    hide Aligned, ListBytes, ReadList, PoolBytes, ReadPool, FitsPool, SizedPool;
    forall i | 0 <= i < |pools|
      ensures Codes(PoolReader(text), pools[i], PoolParts(text, pools)[i])
    {
      forall s' | Aligned(s', PoolBytes(text, pools[i]))
        ensures PoolReader(text)(s') == Expect(pools[i], PoolBytes(text, pools[i]), s')
      {
        PoolReads(text, pools[i], s');
      }
    }
    ListReads(PoolReader(text), PoolsAscend, POOL_ORDER, pools, PoolParts(text, pools), s);
  }

  // ---- Promises ----

  function StateBytes(state: PromiseState): seq<byte> {
    match state
    case Held(expiresAt) => [1] + U64Bytes(expiresAt)
    case Committed => [2]
    case Released => [3]
    case Expired => [4]
  }

  function ReadState(s: seq<byte>): (r: Read<PromiseState>)
    ensures NoTail(r)
  {
    var (tag, rest) :- ReadByte(s);
    if tag == 1 then
      var (expiresAt, rest) :- ReadI64(rest);
      Ok((PromiseState.Held(expiresAt), rest))
    else if tag == 2 then Ok((PromiseState.Committed, rest))
    else if tag == 3 then Ok((PromiseState.Released, rest))
    else if tag == 4 then Ok((PromiseState.Expired, rest))
    else Err(InvalidTag("promise state", tag))
  }

  lemma StateReads(state: PromiseState, s: seq<byte>)
    requires state.Held? ==> FitsI64(state.expiresAt)
    requires Aligned(s, StateBytes(state))
    ensures ReadState(s) == Expect(state, StateBytes(state), s)
  {
    hide Aligned, U64Bytes, ReadI64, ReadByte;
    match state {
      case Held(expiresAt) =>
        AlignedSplit(s, [1], U64Bytes(expiresAt));
        ByteReads(1, s);
        if 1 <= |s| {
          I64Reads(expiresAt, s[1..]);
        }
      case Committed => ByteReads(2, s);
      case Released => ByteReads(3, s);
      case Expired => ByteReads(4, s);
    }
  }

  function PromiseBytes(p: Promise): seq<byte> {
    IdBytes(p.id)
    + (StateBytes(p.state)
       + (BundleBytes(p.bundle) + (U64Bytes(p.version) + (U64Bytes(p.createdSequence) + U64Bytes(p.updatedSequence)))))
  }

  /** What restoring a promise accepts. */
  predicate FitsPromise(p: Promise) {
    && FitsId(p.id) && (p.state.Held? ==> FitsI64(p.state.expiresAt)) && FitsBundle(p.bundle) && FitsVersion(p.version)
    && 1 <= p.createdSequence <= p.updatedSequence <= U64_MAX
  }

  function ReadPromise(s: seq<byte>): (r: Read<Promise>)
    ensures NoTail(r)
  {
    var (id, rest) :- ReadId(s);
    var (state, rest) :- ReadState(rest);
    var (bundle, rest) :- ReadBundle(rest);
    var (version, rest) :- ReadPromiseVersion(rest);
    var (created, rest) :- ReadU64(rest);
    var (updated, rest) :- ReadU64(rest);
    if created == 0 || updated < created then Err(InvalidValue(DomainError.InvalidPromiseHistory))
    else Ok((Promise(id, state, bundle, version, created, updated), rest))
  }

  lemma PromiseReads(p: Promise, s: seq<byte>)
    requires FitsPromise(p) && |p.bundle| <= U32_MAX && Aligned(s, PromiseBytes(p))
    ensures ReadPromise(s) == Expect(p, PromiseBytes(p), s)
  {
    hide Aligned, U64Bytes, ReadU64, IdBytes, ReadId, StateBytes, ReadState, BundleBytes, ReadBundle, FitsBundle,
         ReadPromiseVersion;
    var a := IdBytes(p.id);
    var b := StateBytes(p.state);
    var c := BundleBytes(p.bundle);
    var d := U64Bytes(p.version);
    var e := U64Bytes(p.createdSequence);
    var f := U64Bytes(p.updatedSequence);
    AlignedSplit(s, a, b + (c + (d + (e + f))));
    IdReads(p.id, s);
    if |a| <= |s| {
      var s1 := s[|a|..];
      AlignedSplit(s1, b, c + (d + (e + f)));
      StateReads(p.state, s1);
      if |b| <= |s1| {
        var s2 := s1[|b|..];
        AlignedSplit(s2, c, d + (e + f));
        BundleReads(p.bundle, s2);
        if |c| <= |s2| {
          var s3 := s2[|c|..];
          AlignedSplit(s3, d, e + f);
          PromiseVersionReads(p.version, s3);
          if |d| <= |s3| {
            var s4 := s3[|d|..];
            AlignedSplit(s4, e, f);
            U64Reads(p.createdSequence, s4);
            if |e| <= |s4| {
              var s5 := s4[|e|..];
              U64Reads(p.updatedSequence, s5);
            }
          }
        }
      }
    }
  }

  function PromiseParts(promises: seq<Promise>): (parts: seq<seq<byte>>)
    ensures |parts| == |promises| && forall i :: 0 <= i < |promises| ==> parts[i] == PromiseBytes(promises[i])
  {
    seq(|promises|, i requires 0 <= i < |promises| => PromiseBytes(promises[i]))
  }

  function PromisesBytes(promises: seq<Promise>): seq<byte> {
    ListBytes(PromiseParts(promises))
  }

  predicate PromisesAscend(earlier: Promise, later: Promise) {
    earlier.id < later.id
  }

  predicate FitsPromises(promises: seq<Promise>) {
    && (forall i :: 0 <= i < |promises| ==> FitsPromise(promises[i]))
    && forall i :: 0 < i < |promises| ==> PromisesAscend(promises[i - 1], promises[i])
  }

  predicate SizedPromises(promises: seq<Promise>) {
    |promises| <= U32_MAX && forall i :: 0 <= i < |promises| ==> |promises[i].bundle| <= U32_MAX
  }

  const PROMISE_ORDER: StorageError := CorruptPayload("non-canonical promise order")

  function ReadPromises(s: seq<byte>): (r: Read<seq<Promise>>)
    ensures NoTail(r)
  {
    ReadList(ReadPromise, PromisesAscend, PROMISE_ORDER, s)
  }

  lemma PromisesRead(promises: seq<Promise>, s: seq<byte>)
    requires FitsPromises(promises) && SizedPromises(promises) && Aligned(s, PromisesBytes(promises))
    ensures ReadPromises(s) == Expect(promises, PromisesBytes(promises), s)
  {
    hide Aligned, ListBytes, ReadList, PromiseBytes, ReadPromise, FitsPromise;
    forall i | 0 <= i < |promises|
      ensures Codes(ReadPromise, promises[i], PromiseParts(promises)[i])
    {
      forall s' | Aligned(s', PromiseBytes(promises[i]))
        ensures ReadPromise(s') == Expect(promises[i], PromiseBytes(promises[i]), s')
      {
        PromiseReads(promises[i], s');
      }
    }
    ListReads(ReadPromise, PromisesAscend, PROMISE_ORDER, promises, PromiseParts(promises), s);
  }

  // ---- Events ----

  function KindTag(kind: EventKind): byte {
    match kind
    case ResourceCreated => 1
    case CapacityChanged => 2
    case HoldCreated => 3
    case HoldCommitted => 4
    case HoldReleased => 5
    case HoldReplaced => 6
    case HoldExpiry => 7
    case DeficitCreated => 8
    case DeficitChanged => 9
    case DeficitResolved => 10
  }

  function ReadKind(s: seq<byte>): (r: Read<EventKind>)
    ensures NoTail(r)
  {
    var (tag, rest) :- ReadByte(s);
    if tag == 1 then Ok((ResourceCreated, rest))
    else if tag == 2 then Ok((CapacityChanged, rest))
    else if tag == 3 then Ok((HoldCreated, rest))
    else if tag == 4 then Ok((HoldCommitted, rest))
    else if tag == 5 then Ok((HoldReleased, rest))
    else if tag == 6 then Ok((HoldReplaced, rest))
    else if tag == 7 then Ok((HoldExpiry, rest))
    else if tag == 8 then Ok((DeficitCreated, rest))
    else if tag == 9 then Ok((DeficitChanged, rest))
    else if tag == 10 then Ok((DeficitResolved, rest))
    else Err(InvalidTag("event kind", tag))
  }

  lemma KindReads(kind: EventKind, s: seq<byte>)
    requires Aligned(s, [KindTag(kind)])
    ensures ReadKind(s) == Expect(kind, [KindTag(kind)], s)
  {
    hide Aligned, ReadByte;
    ByteReads(KindTag(kind), s);
  }

  function DataBytes(data: EventData): seq<byte> {
    match data
    case OnPool(poolId) => [1] + IdBytes(poolId)
    case OnPromise(promiseId, version) => [2] + (IdBytes(promiseId) + U64Bytes(version))
    case OnDeficit(poolId, interval, quantity, promiseIds) =>
      [3] + (IdBytes(poolId) + (IntervalBytes(interval) + (U64Bytes(quantity) + IdsBytes(promiseIds))))
  }

  predicate FitsData(data: EventData) {
    match data
    case OnPool(poolId) => FitsId(poolId)
    case OnPromise(promiseId, version) => FitsId(promiseId) && FitsVersion(version)
    case OnDeficit(poolId, interval, quantity, promiseIds) =>
      FitsId(poolId) && FitsInterval(interval) && 0 < quantity <= U64_MAX && FitsIds(promiseIds)
  }

  predicate SizedData(data: EventData) {
    data.OnDeficit? ==> |data.promiseIds| <= U32_MAX
  }

  function ReadData(s: seq<byte>): (r: Read<EventData>)
    ensures NoTail(r)
  {
    var (tag, rest) :- ReadByte(s);
    if tag == 1 then
      var (poolId, rest) :- ReadId(rest);
      Ok((OnPool(poolId), rest))
    else if tag == 2 then
      var (promiseId, rest) :- ReadId(rest);
      var (version, rest) :- ReadPromiseVersion(rest);
      Ok((OnPromise(promiseId, version), rest))
    else if tag == 3 then
      var (poolId, rest) :- ReadId(rest);
      var (interval, rest) :- ReadInterval(rest);
      var (quantity, rest) :- ReadU64(rest);
      var (promiseIds, rest) :- ReadIds(rest);
      Ok((OnDeficit(poolId, interval, quantity, promiseIds), rest))
    else Err(InvalidTag("event data", tag))
  }

  lemma OnPoolReads(data: EventData, s: seq<byte>)
    requires data.OnPool? && FitsData(data) && SizedData(data) && Aligned(s, DataBytes(data))
    ensures ReadData(s) == Expect(data, DataBytes(data), s)
  {
    hide Aligned, IdBytes, ReadId, ReadByte;
    var a := [1];
    var b := IdBytes(data.poolId);
    AlignedSplit(s, a, b);
    ByteReads(1, s);
    if |a| <= |s| {
      var s1 := s[|a|..];
      IdReads(data.poolId, s1);
    }
  }

  lemma OnPromiseReads(data: EventData, s: seq<byte>)
    requires data.OnPromise? && FitsData(data) && SizedData(data) && Aligned(s, DataBytes(data))
    ensures ReadData(s) == Expect(data, DataBytes(data), s)
  {
    hide Aligned, U64Bytes, IdBytes, ReadId, ReadByte, ReadPromiseVersion;
    var a := [2];
    var b := IdBytes(data.promiseId);
    var c := U64Bytes(data.version);
    AlignedSplit(s, a, b + c);
    ByteReads(2, s);
    if |a| <= |s| {
      var s1 := s[|a|..];
      AlignedSplit(s1, b, c);
      IdReads(data.promiseId, s1);
      if |b| <= |s1| {
        var s2 := s1[|b|..];
        PromiseVersionReads(data.version, s2);
      }
    }
  }

  lemma OnDeficitReads(data: EventData, s: seq<byte>)
    requires data.OnDeficit? && FitsData(data) && SizedData(data) && Aligned(s, DataBytes(data))
    ensures ReadData(s) == Expect(data, DataBytes(data), s)
  {
    hide Aligned, U64Bytes, ReadU64, IdBytes, ReadId, IntervalBytes, ReadInterval, IdsBytes, ReadIds, FitsIds,
         FitsInterval, ReadByte;
    var a := [3];
    var b := IdBytes(data.poolId);
    var c := IntervalBytes(data.interval);
    var d := U64Bytes(data.quantity);
    var e := IdsBytes(data.promiseIds);
    AlignedSplit(s, a, b + (c + (d + e)));
    ByteReads(3, s);
    if |a| <= |s| {
      var s1 := s[|a|..];
      AlignedSplit(s1, b, c + (d + e));
      IdReads(data.poolId, s1);
      if |b| <= |s1| {
        var s2 := s1[|b|..];
        AlignedSplit(s2, c, d + e);
        IntervalReads(data.interval, s2);
        if |c| <= |s2| {
          var s3 := s2[|c|..];
          AlignedSplit(s3, d, e);
          U64Reads(data.quantity, s3);
          if |d| <= |s3| {
            var s4 := s3[|d|..];
            IdsRead(data.promiseIds, s4);
          }
        }
      }
    }
  }

  lemma DataReads(data: EventData, s: seq<byte>)
    requires FitsData(data) && SizedData(data) && Aligned(s, DataBytes(data))
    ensures ReadData(s) == Expect(data, DataBytes(data), s)
  {
    hide *;
    match data {
      case OnPool(_) => OnPoolReads(data, s);
      case OnPromise(_, _) => OnPromiseReads(data, s);
      case OnDeficit(_, _, _, _) => OnDeficitReads(data, s);
    }
  }

  /** Kinds that say something about a pool, a promise or a deficit carry that data. */
  predicate Matches(kind: EventKind, data: EventData) {
    match kind
    case ResourceCreated => data.OnPool?
    case CapacityChanged => data.OnPool?
    case HoldCreated => data.OnPromise?
    case HoldCommitted => data.OnPromise?
    case HoldReleased => data.OnPromise?
    case HoldReplaced => data.OnPromise?
    case HoldExpiry => data.OnPromise?
    case DeficitCreated => data.OnDeficit?
    case DeficitChanged => data.OnDeficit?
    case DeficitResolved => data.OnDeficit?
  }

  function EventBytes(event: Event): seq<byte> {
    U64Bytes(event.sequence) + (U64Bytes(event.timestamp) + ([KindTag(event.kind)] + DataBytes(event.data)))
  }

  /** What restoring an event accepts. */
  predicate FitsEvent(event: Event) {
    && 0 < event.sequence <= U64_MAX && FitsI64(event.timestamp) && FitsData(event.data)
    && Matches(event.kind, event.data)
  }

  function ReadEvent(s: seq<byte>): (r: Read<Event>)
    ensures NoTail(r)
  {
    var (sequence, rest) :- ReadU64(s);
    var (timestamp, rest) :- ReadI64(rest);
    var (kind, rest) :- ReadKind(rest);
    var (data, rest) :- ReadData(rest);
    if !Matches(kind, data) || sequence == 0 || (data.OnDeficit? && data.quantity == 0)
    then Err(CorruptPayload("invalid event"))
    else Ok((Event(sequence, timestamp, kind, data), rest))
  }

  lemma EventReads(event: Event, s: seq<byte>)
    requires FitsEvent(event) && SizedData(event.data) && Aligned(s, EventBytes(event))
    ensures ReadEvent(s) == Expect(event, EventBytes(event), s)
  {
    hide Aligned, U64Bytes, ReadU64, ReadI64, KindTag, ReadKind, DataBytes, ReadData;
    var a := U64Bytes(event.sequence);
    var b := U64Bytes(event.timestamp);
    var c := [KindTag(event.kind)];
    var d := DataBytes(event.data);
    AlignedSplit(s, a, b + (c + d));
    U64Reads(event.sequence, s);
    if |a| <= |s| {
      var s1 := s[|a|..];
      AlignedSplit(s1, b, c + d);
      I64Reads(event.timestamp, s1);
      if |b| <= |s1| {
        var s2 := s1[|b|..];
        AlignedSplit(s2, c, d);
        KindReads(event.kind, s2);
        if |c| <= |s2| {
          var s3 := s2[|c|..];
          DataReads(event.data, s3);
        }
      }
    }
  }

  function EventParts(events: seq<Event>): (parts: seq<seq<byte>>)
    ensures |parts| == |events| && forall i :: 0 <= i < |events| ==> parts[i] == EventBytes(events[i])
  {
    seq(|events|, i requires 0 <= i < |events| => EventBytes(events[i]))
  }

  function EventsBytes(events: seq<Event>): seq<byte> {
    ListBytes(EventParts(events))
  }

  predicate EventsInOrder(earlier: Event, later: Event) {
    earlier.sequence <= later.sequence
  }

  predicate FitsEvents(events: seq<Event>) {
    && (forall i :: 0 <= i < |events| ==> FitsEvent(events[i]))
    && forall i :: 0 < i < |events| ==> EventsInOrder(events[i - 1], events[i])
  }

  predicate SizedEvents(events: seq<Event>) {
    |events| <= U32_MAX && forall i :: 0 <= i < |events| ==> SizedData(events[i].data)
  }

  const EVENT_ORDER: StorageError := CorruptPayload("events are not sequence ordered")

  function ReadEvents(s: seq<byte>): (r: Read<seq<Event>>)
    ensures NoTail(r)
  {
    ReadList(ReadEvent, EventsInOrder, EVENT_ORDER, s)
  }

  lemma EventsRead(events: seq<Event>, s: seq<byte>)
    requires FitsEvents(events) && SizedEvents(events) && Aligned(s, EventsBytes(events))
    ensures ReadEvents(s) == Expect(events, EventsBytes(events), s)
  {
    hide Aligned, ListBytes, ReadList, EventBytes, ReadEvent, FitsEvent;
    forall i | 0 <= i < |events|
      ensures Codes(ReadEvent, events[i], EventParts(events)[i])
    {
      forall s' | Aligned(s', EventBytes(events[i]))
        ensures ReadEvent(s') == Expect(events[i], EventBytes(events[i]), s')
      {
        EventReads(events[i], s');
      }
    }
    ListReads(ReadEvent, EventsInOrder, EVENT_ORDER, events, EventParts(events), s);
  }
}
