/** Scanning log bytes and installing their effects, stream by stream, then rebuilding the index once. */
module Recovery {
  import opened Results
  import opened Bytes
  import opened WalRecords
  import opened WalStreams
  import opened CapacityCurves
  import opened Domain
  import opened Transitions
  import opened ActiveUsage
  import opened EngineInvariants
  import opened Batches
  import opened Replay
  import opened Engines

  /** Writing and reading transition payloads. */
  datatype TransitionCodec = TransitionCodec(
    encode: DurableTransition -> Result<seq<byte>, StorageError>,
    decode: seq<byte> -> Result<DurableTransition, StorageError>)

  /** What this transition is encoded to decodes to the transition. */
  ghost predicate Faithful(codec: TransitionCodec, t: DurableTransition) {
    codec.encode(t).Ok? ==> codec.decode(codec.encode(t).value) == Ok(t)
  }

  /** The values of a transition satisfy their constructors' checks. */
  ghost predicate WellFormedTransition(t: DurableTransition) {
    && (forall i :: 0 <= i < |t.pools| ==> ValidCurve(t.pools[i].curve))
    && forall i :: 0 <= i < |t.promises| ==> ValidBundle(t.promises[i].bundle)
  }

  /** Decoding constructs its values through their checks. */
  ghost predicate SoundCodec(codec: TransitionCodec) {
    forall bytes :: codec.decode(bytes).Ok? ==> WellFormedTransition(codec.decode(bytes).value)
  }

  datatype RecoveryError =
    | StorageFailure(lastValidOffset: nat, source: StorageError)
    | TimestampMismatch(sequence: int, recordTimestamp: int, eventTimestamp: int, lastValidOffset: nat)
    | InstallFailure(record: Option<int>, lastValidOffset: nat, reason: InstallError)

  /** Engine state so far and the next record sequence. */
  datatype Recovering = Recovering(published: Published, next: Option<int>)

  /** The first event timestamp that differs from the record's. */
  function MismatchedTimestamp(events: seq<Event>, timestamp: int): Option<int> {
    if events == [] then None
    else if events[0].timestamp != timestamp then Some(events[0].timestamp)
    else MismatchedTimestamp(events[1..], timestamp)
  }

  /** Everything recovery needs to know about the format. */
  datatype Format = Format(hash: Hash, max: nat, codec: TransitionCodec, digest: Operation -> seq<int>)

  /** One record's effects, or why they cannot be installed. */
  ghost function InstallRecord(f: Format, p: Published, record: LogRecord, offset: nat)
    : Result<Published, RecoveryError>
  {
    match f.codec.decode(record.payload)
    case Err(error) => Err(StorageFailure(offset, error))
    case Ok(t) =>
      var mismatch := MismatchedTimestamp(t.events, record.timestamp);
      if mismatch.Some? then Err(TimestampMismatch(record.sequence, record.timestamp, mismatch.value, offset))
      else
        match Install(p, f.digest, t)
        case Err(error) => Err(InstallFailure(Some(record.sequence), offset, error))
        case Ok(installed) => Ok(installed)
  }

  /** Installs record after record; effects before a failure stay installed. */
  ghost function FeedFrom(f: Format, p: Published, expected: Option<int>, bytes: seq<byte>, offset: nat)
    : (Recovering, Result<nat, RecoveryError>)
    decreases |bytes|
  {
    match ReadRecord(f.hash, f.max, expected, bytes, offset)
    case Ok(None) => (Recovering(p, expected), Ok(offset))
    case Err(error) => (Recovering(p, expected), Err(StorageFailure(offset, error)))
    case Ok(Some((record, n))) =>
      var next := SequenceAfter(record.sequence);
      match InstallRecord(f, p, record, offset)
      case Err(error) => (Recovering(p, next), Err(error))
      case Ok(installed) => FeedFrom(f, installed, next, bytes[n..], offset + n)
  }

  ghost function Feed(f: Format, r: Recovering, bytes: seq<byte>): (Recovering, Result<nat, RecoveryError>) {
    if r.next.None? then (r, Err(StorageFailure(0, CorruptRecord(0, Corruption.SequenceOverflow))))
    else FeedFrom(f, r.published, r.next, bytes, 0)
  }

  // ---- Feeding framed items ----

  /** The records a batch's items are framed as. */
  function RecordsFor(codec: TransitionCodec, items: seq<Item>, first: int): (records: seq<LogRecord>)
    requires forall i :: 0 <= i < |items| ==> codec.encode(items[i].transition).Ok?
    ensures |records| == |items|
    ensures forall i :: 0 <= i < |items| ==>
                          records[i]
                          == LogRecord(first + i, items[i].timestamp, codec.encode(items[i].transition).value)
  {
    seq(|items|, i requires 0 <= i < |items| =>
      LogRecord(first + i, items[i].timestamp, codec.encode(items[i].transition).value))
  }

  /** Every event carries its item's timestamp. */
  ghost predicate TimestampsAgree(item: Item) {
    forall i :: 0 <= i < |item.transition.events| ==> item.transition.events[i].timestamp == item.timestamp
  }

  lemma {:induction false} NoMismatch(events: seq<Event>, timestamp: int)
    requires forall i :: 0 <= i < |events| ==> events[i].timestamp == timestamp
    ensures MismatchedTimestamp(events, timestamp) == None
  {
    if events != [] {
      NoMismatch(events[1..], timestamp);
    }
  }

  /** The record carries exactly this item. */
  ghost predicate Carries(f: Format, record: LogRecord, item: Item) {
    record.timestamp == item.timestamp && TimestampsAgree(item) && f.codec.decode(record.payload) == Ok(item.transition)
  }

  lemma {:induction false} InstallFirst(p: Published, digest: Operation -> seq<int>, items: seq<Item>)
    requires items != [] && InstallAll(p, digest, items).Ok?
    ensures Install(p, digest, items[0].transition).Ok?
    ensures InstallAll(p, digest, items)
            == InstallAll(Install(p, digest, items[0].transition).value, digest, items[1..])
  {
    hide Install;
    var n := |items| - 1;
    if n == 0 {
      assert items[..0] == [] && items[1..] == [];
      assert InstallAll(p, digest, items[..0]) == Ok(p);
    } else {
      InstallFirst(p, digest, items[..n]);
      assert items[..n][1..] == items[1..][..n - 1];
    }
  }

  /** Feeding bytes whose records carry installable items installs them all and stops where reading stops. */
  lemma {:induction false} FeedInstalls(f: Format, p: Published, expected: Option<int>, bytes: seq<byte>, offset: nat,
                                        items: seq<Item>)
    requires var read := ReadAll(f.hash, f.max, expected, bytes, offset);
             |read.records| == |items| && forall i :: 0 <= i < |items| ==> Carries(f, read.records[i], items[i])
    requires InstallAll(p, f.digest, items).Ok?
    ensures var read := ReadAll(f.hash, f.max, expected, bytes, offset);
            FeedFrom(f, p, expected, bytes, offset)
            == (Recovering(InstallAll(p, f.digest, items).value, read.next),
                if read.failure.Some? then Err(StorageFailure(read.offset, read.failure.value)) else Ok(read.offset))
    decreases |bytes|
  {
    hide Install;
    hide InstallAll;
    hide ReadRecord;
    hide ReadAll;
    hide FeedFrom;
    hide Carries;
    var next := ReadRecord(f.hash, f.max, expected, bytes, offset);
    if next.Ok? && next.value.Some? {
      var (record, n) := next.value.value;
      var read := ReadAll(f.hash, f.max, expected, bytes, offset);
      ReadAllStep(f.hash, f.max, expected, bytes, offset, record, n);
      assert read.records[0] == record && Carries(f, record, items[0]);
      InstallFirst(p, f.digest, items);
      FeedStep(f, p, expected, bytes, offset, record, n, items[0]);
      var rest := ReadAll(f.hash, f.max, SequenceAfter(record.sequence), bytes[n..], offset + n);
      forall i | 0 <= i < |items[1..]|
        ensures Carries(f, rest.records[i], items[1..][i])
      {
        assert read.records[i + 1] == rest.records[i];
      }
      FeedInstalls(f, Install(p, f.digest, items[0].transition).value, SequenceAfter(record.sequence), bytes[n..],
                   offset + n, items[1..]);
    } else {
      FeedEnds(f, p, expected, bytes, offset);
      assert items == [];
      NothingInstalled(p, f.digest);
    }
  }

  lemma NothingInstalled(p: Published, digest: Operation -> seq<int>)
    ensures InstallAll(p, digest, []) == Ok(p)
  {
  }

  /** One record's item installed, then the rest. */
  lemma FeedStep(f: Format, p: Published, expected: Option<int>, bytes: seq<byte>, offset: nat, record: LogRecord,
                 n: nat, item: Item)
    requires ReadRecord(f.hash, f.max, expected, bytes, offset) == Ok(Some((record, n))) && Carries(f, record, item)
    requires Install(p, f.digest, item.transition).Ok?
    ensures n <= |bytes|
    ensures FeedFrom(f, p, expected, bytes, offset)
            == FeedFrom(f, Install(p, f.digest, item.transition).value, SequenceAfter(record.sequence), bytes[n..],
                        offset + n)
  {
    hide Install;
    hide ReadRecord;
    NoMismatch(item.transition.events, record.timestamp);
  }

  lemma FeedEnds(f: Format, p: Published, expected: Option<int>, bytes: seq<byte>, offset: nat)
    requires var next := ReadRecord(f.hash, f.max, expected, bytes, offset); next.Err? || next.value.None?
    ensures var read := ReadAll(f.hash, f.max, expected, bytes, offset);
            && read.records == []
            && FeedFrom(f, p, expected, bytes, offset)
               == (Recovering(p, read.next),
                   if read.failure.Some? then Err(StorageFailure(read.offset, read.failure.value)) else Ok(read.offset))
  {
    hide Install;
    hide ReadRecord;
  }

  /** Items that a writer has encoded within the limits and whose payloads read back. */
  ghost predicate Writable(f: Format, items: seq<Item>) {
    forall i :: 0 <= i < |items| ==>
                  && FitsI64(items[i].timestamp) && TimestampsAgree(items[i])
                  && f.codec.encode(items[i].transition).Ok? && Faithful(f.codec, items[i].transition)
                  && Frameable(|f.codec.encode(items[i].transition).value|, f.max)
  }

  lemma RecordsConsecutive(f: Format, items: seq<Item>, first: int)
    requires Writable(f, items) && 1 <= first && first + |items| <= U64_MAX + 1
    ensures Consecutive(RecordsFor(f.codec, items, first), first, f.max)
  {
  }

  /** The bytes of a framed group of items. */
  ghost function GroupBytes(f: Format, items: seq<Item>, first: int): seq<byte>
    requires Writable(f, items) && 1 <= first && first + |items| <= U64_MAX + 1
  {
    RecordsConsecutive(f, items, first);
    Frames(f.hash, RecordsFor(f.codec, items, first))
  }

  /** No further item is complete before the cut. */
  ghost predicate MaximalPrefix(f: Format, items: seq<Item>, first: int, cut: nat, k: nat)
    requires Writable(f, items) && 1 <= first && first + |items| <= U64_MAX + 1 && k <= |items|
  {
    k < |items| ==> cut < |GroupBytes(f, items[..k + 1], first)|
  }

  /**
   What feeding a byte prefix of a framed group recovers: the items complete before the cut, then a clean end
   or a partial tail.
   */
  ghost predicate FedUpTo(f: Format, p: Published, items: seq<Item>, first: int, cut: nat, k: nat)
    requires Writable(f, items) && 1 <= first && first + |items| <= U64_MAX + 1
    requires k <= |items| && cut <= |GroupBytes(f, items, first)|
    requires InstallAll(p, f.digest, items[..k]).Ok?
  {
    var boundary := |GroupBytes(f, items[..k], first)|;
    && boundary <= cut && MaximalPrefix(f, items, first, cut, k)
    && var fed := FeedFrom(f, p, NextAfter(first, 0), GroupBytes(f, items, first)[..cut], 0);
       && fed.0 == Recovering(InstallAll(p, f.digest, items[..k]).value, NextAfter(first, k))
       && if cut == boundary then fed.1 == Ok(boundary)
          else fed.1.Err? && fed.1.error.StorageFailure? && fed.1.error.source.PartialTail?
               && fed.1.error.lastValidOffset == boundary
  }

  lemma {:induction false} InstallPrefix(p: Published, digest: Operation -> seq<int>, items: seq<Item>, k: nat)
    requires k <= |items| && InstallAll(p, digest, items).Ok?
    ensures InstallAll(p, digest, items[..k]).Ok?
  {
    hide Install;
    if k < |items| {
      var n := |items| - 1;
      assert items[..n][..k] == items[..k];
      InstallPrefix(p, digest, items[..n], k);
    } else {
      assert items[..k] == items;
    }
  }

  lemma RecordsPrefix(f: Format, items: seq<Item>, first: int, k: nat)
    requires Writable(f, items) && 1 <= first && first + |items| <= U64_MAX + 1 && k <= |items|
    ensures RecordsFor(f.codec, items, first)[..k] == RecordsFor(f.codec, items[..k], first)
    ensures Writable(f, items[..k])
    ensures Frames(f.hash, RecordsFor(f.codec, items, first)[..k]) == GroupBytes(f, items[..k], first)
  {
    RecordsConsecutive(f, items, first);
    assert RecordsFor(f.codec, items, first)[..k] == RecordsFor(f.codec, items[..k], first);
  }

  /** Feeding any byte prefix of a group recovers exactly its complete items. */
  lemma FeedGroupPrefix(f: Format, p: Published, items: seq<Item>, first: int, cut: nat) returns (k: nat)
    requires SoundHash(f.hash) && Writable(f, items) && 1 <= first && first + |items| <= U64_MAX + 1
    requires InstallAll(p, f.digest, items).Ok? && cut <= |GroupBytes(f, items, first)|
    ensures k <= |items| && InstallAll(p, f.digest, items[..k]).Ok? && FedUpTo(f, p, items, first, cut, k)
  {
    hide Frames;
    hide ReadAll;
    hide FeedFrom;
    hide InstallAll;
    hide Frameable;
    hide LogRecord.Valid;
    var records := RecordsFor(f.codec, items, first);
    RecordsConsecutive(f, items, first);
    k := StreamPrefix(f.hash, f.max, records, first, cut, 0);
    InstallPrefix(p, f.digest, items, k);
    RecordsPrefix(f, items, first, k);
    var read := ReadAll(f.hash, f.max, NextAfter(first, 0), GroupBytes(f, items, first)[..cut], 0);
    forall i | 0 <= i < k
      ensures Carries(f, read.records[i], items[..k][i])
    {
      assert read.records[i] == records[i];
    }
    FeedInstalls(f, p, NextAfter(first, 0), GroupBytes(f, items, first)[..cut], 0, items[..k]);
    if k < |items| {
      RecordsPrefix(f, items, first, k + 1);
    }
  }
}
