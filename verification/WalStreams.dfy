/** Streams of framed records: framing into a buffer, and reading back record by record. */
module WalStreams {
  import opened Results
  import opened Bytes
  import opened WalRecords

  // ---- Streams of frames ----

  function Frames(hash: Hash, records: seq<LogRecord>): seq<byte>
    requires forall i :: 0 <= i < |records| ==> records[i].Valid()
  {
    if records == [] then [] else Frame(hash, records[0]) + Frames(hash, records[1..])
  }

  /** Valid records with consecutive sequences from `first`, each within the size limit. */
  ghost predicate Consecutive(records: seq<LogRecord>, first: int, max: nat) {
    forall i :: 0 <= i < |records| ==>
                  records[i].Valid() && records[i].sequence == first + i && Frameable(|records[i].payload|, max)
  }

  lemma {:induction false} FramesConcat(hash: Hash, a: seq<LogRecord>, b: seq<LogRecord>)
    requires forall i :: 0 <= i < |a| ==> a[i].Valid()
    requires forall i :: 0 <= i < |b| ==> b[i].Valid()
    ensures forall i :: 0 <= i < |a + b| ==> (a + b)[i].Valid()
    ensures Frames(hash, a + b) == Frames(hash, a) + Frames(hash, b)
  {
    hide Frame;
    hide LogRecord.Valid;
    if a == [] {
      assert a + b == b;
    } else {
      FramesConcat(hash, a[1..], b);
      assert (a + b)[1..] == a[1..] + b;
    }
  }

  lemma SingleFrame(hash: Hash, r: LogRecord)
    requires r.Valid()
    ensures Frames(hash, [r]) == Frame(hash, r)
  {
    hide Frame;
    assert [r][1..] == [];
  }

  // ---- Reading a whole stream ----

  /** The records read, where reading stopped, and why unless at a clean end. */
  datatype StreamRead = StreamRead(records: seq<LogRecord>, next: Option<int>, offset: nat,
                                   failure: Option<StorageError>)

  function ReadAll(hash: Hash, max: nat, expected: Option<int>, bytes: seq<byte>, offset: nat): StreamRead
    decreases |bytes|
  {
    match ReadRecord(hash, max, expected, bytes, offset)
    case Ok(None) => StreamRead([], expected, offset, None)
    case Err(error) => StreamRead([], expected, offset, Some(error))
    case Ok(Some((record, n))) =>
      var rest := ReadAll(hash, max, SequenceAfter(record.sequence), bytes[n..], offset + n);
      rest.(records := [record] + rest.records)
  }

  /** The sequence expected after `count` records from `first`. */
  function NextAfter(first: int, count: int): Option<int> {
    if first + count > U64_MAX then None else Some(first + count)
  }

  /**
   Reading back any byte prefix of a framed stream returns exactly the records complete before the
   cut; a cut at a boundary is a clean end, any other is a partial tail at the boundary, never corruption.
   */
  lemma {:induction false} StreamPrefix(hash: Hash, max: nat, records: seq<LogRecord>, first: int, cut: nat,
                                        offset: nat)
    returns (k: nat)
    requires SoundHash(hash) && 1 <= first <= U64_MAX + 1 && Consecutive(records, first, max)
    requires cut <= |Frames(hash, records)|
    ensures CompleteBefore(hash, records, cut, k)
    ensures ReadsUpTo(hash, max, records, first, cut, offset, k)
    decreases |records|
  {
    hide Frame;
    hide LogRecord.Valid;
    hide ReadsUpTo;
    if records == [] {
      k := 0;
      NothingRead(hash, max, first, offset);
    } else {
      var n := |Frame(hash, records[0])|;
      assert records[0].Valid();
      HeadSequence(records[0]);
      if cut < n {
        k := 0;
        CutHead(hash, max, records, first, cut, offset);
      } else {
        var m := StreamPrefix(hash, max, records[1..], first + 1, cut - n, offset + n);
        k := m + 1;
        HeadComplete(hash, max, records, first, cut, offset, m);
      }
    }
  }

  /** `k` records of the stream are complete before the cut. */
  ghost predicate CompleteBefore(hash: Hash, records: seq<LogRecord>, cut: nat, k: nat)
    requires forall i :: 0 <= i < |records| ==> records[i].Valid()
  {
    && k <= |records| && |Frames(hash, records[..k])| <= cut
    && (k < |records| ==> cut < |Frames(hash, records[..k + 1])|)
  }

  /** Reading the first `cut` bytes of the framed stream gives the first `k` records and stops there. */
  ghost predicate ReadsUpTo(hash: Hash, max: nat, records: seq<LogRecord>, first: int, cut: nat, offset: nat, k: nat)
    requires forall i :: 0 <= i < |records| ==> records[i].Valid()
    requires k <= |records| && cut <= |Frames(hash, records)|
  {
    var read := ReadAll(hash, max, NextAfter(first, 0), Frames(hash, records)[..cut], offset);
    && read.records == records[..k] && read.next == NextAfter(first, k)
    && read.offset == offset + |Frames(hash, records[..k])|
    && if cut == |Frames(hash, records[..k])| then read.failure == None
       else read.failure.Some? && read.failure.value.PartialTail? && read.failure.value.offset == read.offset
  }

  lemma NothingRead(hash: Hash, max: nat, first: int, offset: nat)
    ensures CompleteBefore(hash, [], 0, 0) && ReadsUpTo(hash, max, [], first, 0, offset, 0)
  {
    EmptyRead(hash, max, NextAfter(first, 0), offset);
  }

  /** One record read, then the rest. */
  lemma ReadAllStep(hash: Hash, max: nat, expected: Option<int>, bytes: seq<byte>, offset: nat, record: LogRecord,
                    n: nat)
    requires ReadRecord(hash, max, expected, bytes, offset) == Ok(Some((record, n)))
    ensures n <= |bytes|
    ensures var rest := ReadAll(hash, max, SequenceAfter(record.sequence), bytes[n..], offset + n);
            ReadAll(hash, max, expected, bytes, offset) == rest.(records := [record] + rest.records)
  {
    hide ReadRecord;
  }

  lemma HeadCompleteBefore(hash: Hash, records: seq<LogRecord>, cut: nat, m: nat)
    requires records != [] && forall i :: 0 <= i < |records| ==> records[i].Valid()
    requires |Frame(hash, records[0])| <= cut && CompleteBefore(hash, records[1..], cut - |Frame(hash, records[0])|, m)
    ensures CompleteBefore(hash, records, cut, m + 1)
    ensures |Frames(hash, records[..m + 1])| == |Frame(hash, records[0])| + |Frames(hash, records[1..][..m])|
  {
    hide Frame;
    hide Frames;
    hide LogRecord.Valid;
    PrefixFrames(hash, records, m);
    if m < |records[1..]| {
      PrefixFrames(hash, records, m + 1);
    }
  }

  /** The first record is complete; the rest of the read continues after it. */
  lemma HeadComplete(hash: Hash, max: nat, records: seq<LogRecord>, first: int, cut: nat, offset: nat, m: nat)
    requires SoundHash(hash) && 1 <= first && Consecutive(records, first, max) && records != []
    requires |Frame(hash, records[0])| <= cut <= |Frames(hash, records)|
    requires var n := |Frame(hash, records[0])|;
             && CompleteBefore(hash, records[1..], cut - n, m)
             && ReadsUpTo(hash, max, records[1..], first + 1, cut - n, offset + n, m)
    ensures CompleteBefore(hash, records, cut, m + 1) && ReadsUpTo(hash, max, records, first, cut, offset, m + 1)
  {
    hide *;
    HeadFacts(records, first, max);
    HeadSequence(records[0]);
    HeadCompleteBefore(hash, records, cut, m);
    HeadRead(hash, max, records, cut, offset);
    CompleteCount(hash, records, cut, m + 1);
    HeadReads(hash, max, records, first, cut, offset, m);
  }

  lemma HeadFacts(records: seq<LogRecord>, first: int, max: nat)
    requires Consecutive(records, first, max) && records != []
    ensures records[0].Valid() && records[0].sequence == first && Frameable(|records[0].payload|, max)
    ensures forall i :: 0 <= i < |records| ==> records[i].Valid()
    ensures forall i :: 0 <= i < |records[1..]| ==> records[1..][i].Valid()
  {
    hide Frameable;
  }

  /** The first record in front of what the rest reads as. */
  lemma HeadReads(hash: Hash, max: nat, records: seq<LogRecord>, first: int, cut: nat, offset: nat, m: nat)
    requires records != [] && m < |records| && forall i :: 0 <= i < |records| ==> records[i].Valid()
    requires |Frame(hash, records[0])| <= cut <= |Frames(hash, records)| && NextAfter(first, 0).Some?
    requires cut - |Frame(hash, records[0])| <= |Frames(hash, records[1..])|
    requires ReadsUpTo(hash, max, records[1..], first + 1, cut - |Frame(hash, records[0])|,
                       offset + |Frame(hash, records[0])|, m)
    requires |Frames(hash, records[..m + 1])| == |Frame(hash, records[0])| + |Frames(hash, records[1..][..m])|
    requires var n := |Frame(hash, records[0])|;
             var rest := ReadAll(hash, max, NextAfter(first + 1, 0), Frames(hash, records[1..])[..cut - n], offset + n);
             ReadAll(hash, max, NextAfter(first, 0), Frames(hash, records)[..cut], offset)
             == rest.(records := [records[0]] + rest.records)
    ensures ReadsUpTo(hash, max, records, first, cut, offset, m + 1)
  {
    hide Frame;
    hide Frames;
    hide ReadAll;
    hide LogRecord.Valid;
    assert records[..m + 1] == [records[0]] + records[1..][..m];
  }

  /** Reading a prefix that holds the first record returns it and goes on behind it. */
  lemma HeadRead(hash: Hash, max: nat, records: seq<LogRecord>, cut: nat, offset: nat)
    requires SoundHash(hash) && records != [] && forall i :: 0 <= i < |records| ==> records[i].Valid()
    requires Frameable(|records[0].payload|, max)
    requires |Frame(hash, records[0])| <= cut <= |Frames(hash, records)|
    ensures var head, n := records[0], |Frame(hash, records[0])|;
            && cut - n <= |Frames(hash, records[1..])|
            && var rest :=
              ReadAll(hash, max, SequenceAfter(head.sequence), Frames(hash, records[1..])[..cut - n], offset + n);
               ReadAll(hash, max, Some(head.sequence), Frames(hash, records)[..cut], offset)
               == rest.(records := [head] + rest.records)
  {
    hide Frame;
    hide ReadAll;
    hide ReadRecord;
    hide LogRecord.Valid;
    var head, tail := records[0], records[1..];
    var n := |Frame(hash, head)|;
    assert records[0].Valid();
    var bytes := Frames(hash, records)[..cut];
    assert bytes == Frame(hash, head) + Frames(hash, tail)[..cut - n];
    assert bytes[n..] == Frames(hash, tail)[..cut - n];
    ReadFrame(hash, max, head, Frames(hash, tail)[..cut - n], offset);
    ReadAllStep(hash, max, Some(head.sequence), bytes, offset, head, n);
  }

  lemma CompleteCount(hash: Hash, records: seq<LogRecord>, cut: nat, k: nat)
    requires forall i :: 0 <= i < |records| ==> records[i].Valid()
    requires CompleteBefore(hash, records, cut, k)
    ensures k <= |records|
  {
  }

  lemma HeadSequence(head: LogRecord)
    requires head.Valid()
    ensures 1 <= head.sequence <= U64_MAX
    ensures NextAfter(head.sequence, 0) == Some(head.sequence)
    ensures SequenceAfter(head.sequence) == NextAfter(head.sequence + 1, 0)
  {
  }

  lemma EmptyRead(hash: Hash, max: nat, expected: Option<int>, offset: nat)
    ensures ReadAll(hash, max, expected, [], offset) == StreamRead([], expected, offset, None)
  {
  }

  lemma CutHead(hash: Hash, max: nat, records: seq<LogRecord>, first: int, cut: nat, offset: nat)
    requires SoundHash(hash) && records != [] && Consecutive(records, first, max)
    requires cut < |Frame(hash, records[0])| && cut <= |Frames(hash, records)|
    ensures CompleteBefore(hash, records, cut, 0) && ReadsUpTo(hash, max, records, first, cut, offset, 0)
  {
    hide Frame;
    hide ReadRecord;
    hide LogRecord.Valid;
    var head := records[0];
    assert records[0].Valid();
    HeadSequence(head);
    assert records[..0] == [] && records[..1] == [head];
    SingleFrame(hash, head);
    assert Frames(hash, records)[..cut] == Frame(hash, head)[..cut];
    if cut == 0 {
      EmptyRead(hash, max, Some(head.sequence), offset);
      assert Frame(hash, head)[..cut] == [];
    } else {
      ReadCutFrame(hash, max, head, cut, offset);
    }
  }

  lemma PrefixFrames(hash: Hash, records: seq<LogRecord>, m: nat)
    requires m < |records| && forall i :: 0 <= i < |records| ==> records[i].Valid()
    ensures |Frames(hash, records[..m + 1])| == |Frame(hash, records[0])| + |Frames(hash, records[1..][..m])|
  {
    hide Frame;
    hide LogRecord.Valid;
    var prefix := records[..m + 1];
    assert prefix[1..] == records[1..][..m];
  }

  /** Reading a complete framed stream returns exactly its records and ends cleanly. */
  lemma StreamRoundTrip(hash: Hash, max: nat, records: seq<LogRecord>, first: int)
    requires SoundHash(hash) && 1 <= first <= U64_MAX + 1 && Consecutive(records, first, max)
    ensures ReadAll(hash, max, NextAfter(first, 0), Frames(hash, records), 0)
            == StreamRead(records, NextAfter(first, |records|), |Frames(hash, records)|, None)
  {
    hide LogRecord.Valid;
    hide ReadAll;
    hide Frames;
    var bytes := Frames(hash, records);
    assert bytes[..|bytes|] == bytes;
    var k := StreamPrefix(hash, max, records, first, |bytes|, 0);
    if k < |records| {
      FramesMonotone(hash, records, k + 1);
      assert false;
    }
    assert records[..k] == records;
  }

  lemma FramesMonotone(hash: Hash, records: seq<LogRecord>, k: nat)
    requires k <= |records| && forall i :: 0 <= i < |records| ==> records[i].Valid()
    ensures |Frames(hash, records[..k])| <= |Frames(hash, records)|
  {
    hide Frame;
    hide LogRecord.Valid;
    assert records == records[..k] + records[k..];
    FramesConcat(hash, records[..k], records[k..]);
  }

  /** Whatever is read, the consumed bytes are exactly the frames of the returned records. */
  lemma {:induction false} ReadAllExact(hash: Hash, max: nat, expected: Option<int>, bytes: seq<byte>, offset: nat)
    requires SoundHash(hash)
    ensures ReadsExactly(hash, expected, bytes, offset, ReadAll(hash, max, expected, bytes, offset))
    decreases |bytes|
  {
    hide ReadsExactly;
    hide ReadRecord;
    hide ReadAll;
    hide Frame;
    var next := ReadRecord(hash, max, expected, bytes, offset);
    if next.Ok? && next.value.Some? {
      ReadExact(hash, max, expected, bytes, offset);
      var (record, n) := next.value.value;
      FrameLength(hash, record);
      ReadAllStep(hash, max, expected, bytes, offset, record, n);
      ReadAllExact(hash, max, SequenceAfter(record.sequence), bytes[n..], offset + n);
      var rest := ReadAll(hash, max, SequenceAfter(record.sequence), bytes[n..], offset + n);
      OneMoreExact(hash, expected, bytes, offset, record, rest);
    } else {
      NothingExact(hash, max, expected, bytes, offset);
    }
  }

  /** The consumed bytes are the frames of the records, whose sequences follow on from the expected one. */
  ghost predicate ReadsExactly(hash: Hash, expected: Option<int>, bytes: seq<byte>, offset: nat, read: StreamRead) {
    && (forall i :: 0 <= i < |read.records| ==> read.records[i].Valid())
    && offset + |Frames(hash, read.records)| == read.offset <= offset + |bytes|
    && bytes[..read.offset - offset] == Frames(hash, read.records)
    && (read.failure == None <==> read.offset == offset + |bytes|)
    && forall i :: 0 <= i < |read.records| ==> expected.Some? && read.records[i].sequence == expected.value + i
  }

  lemma NothingExact(hash: Hash, max: nat, expected: Option<int>, bytes: seq<byte>, offset: nat)
    requires var next := ReadRecord(hash, max, expected, bytes, offset); next.Err? || next.value.None?
    ensures ReadsExactly(hash, expected, bytes, offset, ReadAll(hash, max, expected, bytes, offset))
  {
    hide ParseHeader;
    hide ReadBody;
    assert bytes[..0] == [];
  }

  lemma OneMoreExact(hash: Hash, expected: Option<int>, bytes: seq<byte>, offset: nat, record: LogRecord,
                     rest: StreamRead)
    requires record.Valid() && expected == Some(record.sequence)
    requires |Frame(hash, record)| <= |bytes| && bytes[..|Frame(hash, record)|] == Frame(hash, record)
    requires var n := |Frame(hash, record)|;
             ReadsExactly(hash, SequenceAfter(record.sequence), bytes[n..], offset + n, rest)
    ensures ReadsExactly(hash, expected, bytes, offset, rest.(records := [record] + rest.records))
  {
    hide Frame;
    hide LogRecord.Valid;
    var n := |Frame(hash, record)|;
    var all := [record] + rest.records;
    assert all[1..] == rest.records;
    assert Frames(hash, all) == Frame(hash, record) + Frames(hash, rest.records);
    var taken := rest.offset - (offset + n);
    assert bytes[..n + taken] == bytes[..n] + bytes[n..][..taken];
    forall i | 0 <= i < |all|
      ensures all[i].Valid() && expected.Some? && all[i].sequence == expected.value + i
    {
      if i > 0 {
        assert all[i] == rest.records[i - 1];
      }
    }
  }

  // ---- Framing into a buffer ----

  /** What a payload writer appends before it finishes or fails. */
  datatype PayloadSource = PayloadSource(written: seq<byte>, failure: Option<StorageError>)

  /** The bytes with `done` written over them from `start` on. */
  ghost function Spliced(before: seq<byte>, start: nat, done: seq<byte>): seq<byte>
    requires start + |done| <= |before|
  {
    before[..start] + done + before[start + |done|..]
  }

  /** A growing byte vector shared by the framing layer and its payload writers. */
  class ByteBuffer {
    var bytes: seq<byte>

    constructor ()
      ensures bytes == []
    {
      bytes := [];
    }

    method Append(values: seq<byte>)
      modifies this
      ensures bytes == old(bytes) + values
    {
      bytes := bytes + values;
    }

    method Truncate(length: nat)
      requires length <= |bytes|
      modifies this
      ensures bytes == old(bytes)[..length]
    {
      bytes := bytes[..length];
    }

    /** Overwrites bytes in place. */
    method Patch(at: nat, values: seq<byte>)
      requires at + |values| <= |bytes|
      modifies this
      ensures bytes == old(bytes)[..at] + values + old(bytes)[at + |values|..]
    {
      bytes := bytes[..at] + values + bytes[at + |values|..];
    }

    /** Appends one framed record after the existing bytes, or leaves the buffer as it was. */
    method EncodePayloadInto(hash: Hash, sequence: int, timestamp: int, max: nat, payload: PayloadSource)
      returns (r: Result<(), StorageError>)
      requires SoundHash(hash) && LogRecord(sequence, timestamp, []).Valid()
      modifies this
      ensures r.Ok? <==> payload.failure.None? && Frameable(|payload.written|, max)
      ensures r.Ok? ==> bytes == old(bytes) + Frame(hash, LogRecord(sequence, timestamp, payload.written))
      ensures r.Err? ==> bytes == old(bytes)
      ensures r.Err? && payload.failure.Some? ==> r.error == payload.failure.value
    {
      var start := |bytes|;
      r := FrameFrom(hash, sequence, timestamp, max, payload, start);
      if r.Err? {
        Truncate(start);
      }
    }

    /** Reserves the header, writes the payload, then patches the header and appends the checksum. */
    method FrameFrom(hash: Hash, sequence: int, timestamp: int, max: nat, payload: PayloadSource, start: nat)
      returns (r: Result<(), StorageError>)
      requires SoundHash(hash) && LogRecord(sequence, timestamp, []).Valid() && start == |bytes|
      modifies this
      ensures r.Ok? <==> payload.failure.None? && Frameable(|payload.written|, max)
      ensures r.Ok? ==> bytes == old(bytes) + Frame(hash, LogRecord(sequence, timestamp, payload.written))
      ensures old(bytes) <= bytes
      ensures r.Err? && payload.failure.Some? ==> r.error == payload.failure.value
    {
      hide LittleEndian;
      Append(Zeros(HEADER_LEN));
      Append(payload.written);
      if payload.failure.Some? {
        return Err(payload.failure.value);
      }
      var payloadLen := |bytes| - (start + HEADER_LEN);
      if payloadLen > U32_MAX {
        return Err(InvalidLength(payloadLen));
      }
      var recordLen := RecordLen(payloadLen);
      if recordLen > FORMAT_MAX_RECORD_LEN {
        return Err(InvalidLength(recordLen));
      }
      if recordLen > max {
        return Err(RecordTooLarge(0, recordLen, max));
      }
      Append(Zeros(PaddingLen(payloadLen)));
      ghost var record := LogRecord(sequence, timestamp, payload.written);
      PatchHeader(start, recordLen, payloadLen, sequence, timestamp);
      assert bytes[start..] == Body(record) by {
        assert bytes[start..] == Header(record) + (payload.written + Zeros(PaddingLen(payloadLen)));
      }
      Append(hash(bytes[start..])[..CHECKSUM_LEN]);
      r := Ok(());
    }

    /** Writes each header field over its reserved range. */
    method PatchHeader(start: nat, recordLen: nat, payloadLen: nat, sequence: int, timestamp: int)
      requires start + HEADER_LEN <= |bytes| && LogRecord(sequence, timestamp, []).Valid()
      modifies this
      ensures |bytes| == old(|bytes|)
      ensures bytes == old(bytes)[..start]
                       + (Prefix(recordLen, payloadLen) + LittleEndian(sequence, 8)
                          + LittleEndian(Unsigned64(timestamp), 8))
                       + old(bytes)[start + HEADER_LEN..]
    {
      hide LittleEndian;
      ghost var before := bytes;
      ghost var done: seq<byte> := [];
      assert bytes == Spliced(before, start, done);
      done := PatchField(before, start, done, start, MAGIC);
      done := PatchField(before, start, done, start + 4, [FORMAT_VERSION]);
      done := PatchField(before, start, done, start + 5, [FORMAT_FLAGS]);
      done := PatchField(before, start, done, start + 6, LittleEndian(HEADER_LEN, 2));
      done := PatchField(before, start, done, start + 8, LittleEndian(recordLen, 4));
      done := PatchField(before, start, done, start + 12, LittleEndian(payloadLen, 4));
      done := PatchField(before, start, done, start + 16, LittleEndian(sequence, 8));
      done := PatchField(before, start, done, start + 24, LittleEndian(Unsigned64(timestamp), 8));
      assert done == Prefix(recordLen, payloadLen) + LittleEndian(sequence, 8) + LittleEndian(Unsigned64(timestamp), 8);
    }

    /** Patches the field after those already done. */
    method PatchField(ghost before: seq<byte>, ghost start: nat, ghost done: seq<byte>, at: nat, field: seq<byte>)
      returns (ghost after: seq<byte>)
      requires at == start + |done| && at + |field| <= |before| && bytes == Spliced(before, start, done)
      modifies this
      ensures after == done + field && bytes == Spliced(before, start, after)
    {
      after := done + field;
      Patch(at, field);
    }
  }

  // ---- The reader ----

  /** A bounded reader that never skips: it stops at the first record it cannot accept. */
  class RecordReader {
    const hash: Hash
    const max: nat
    const stream: seq<byte>
    var position: nat
    var offset: nat
    var expectedSequence: Option<int>

    /** The bytes not yet handed out by the underlying reader. */
    function Remaining(): seq<byte>
      requires position <= |stream|
      reads this
    {
      stream[position..]
    }

    constructor (hash: Hash, max: nat, stream: seq<byte>, expected: Option<int>)
      ensures this.hash == hash && this.max == max && this.stream == stream
      ensures position == 0 && offset == 0 && expectedSequence == expected
    {
      this.hash, this.max, this.stream := hash, max, stream;
      position, offset, expectedSequence := 0, 0, expected;
    }

    /** Takes up to `n` bytes from the underlying reader. */
    method ReadFully(n: nat) returns (bytes: seq<byte>)
      requires position <= |stream|
      modifies this`position
      ensures bytes == old(Remaining())[..Min(n, |old(Remaining())|)]
      ensures position == old(position) + |bytes| <= |stream|
    {
      var available := |stream| - position;
      var count := Min(n, available);
      bytes := stream[position..position + count];
      position := position + count;
    }

    /** Reads and validates the next record; offset and sequence advance only on success. */
    method ReadNext() returns (r: Result<Option<LogRecord>, StorageError>)
      requires SoundHash(hash) && position <= |stream|
      modifies this
      ensures position <= |stream|
      ensures match ReadRecord(hash, max, old(expectedSequence), old(Remaining()), old(offset)) {
                case Ok(None) =>
                  && r == Ok(None) && Remaining() == []
                  && offset == old(offset) && expectedSequence == old(expectedSequence)
                case Ok(Some((record, n))) =>
                  && r == Ok(Some(record)) && Remaining() == old(Remaining())[n..]
                  && offset == old(offset) + n && expectedSequence == SequenceAfter(record.sequence)
                case Err(error) =>
                  && r == Err(error) && offset == old(offset) && expectedSequence == old(expectedSequence)
              }
    {
      hide ParseHeader;
      var recordOffset := offset;
      var header := ReadFully(HEADER_LEN);
      if header == [] {
        return Ok(None);
      }
      if |header| != HEADER_LEN {
        return Err(PartialTail(recordOffset, HEADER_LEN, |header|));
      }
      var parsed :- ParseHeader(header, recordOffset, max, expectedSequence);
      ParsedLengths(header, recordOffset, max, expectedSequence);
      var remainingLen := parsed.recordLen - HEADER_LEN;
      var remainder := ReadFully(remainingLen);
      if |remainder| != remainingLen {
        return Err(PartialTail(recordOffset, parsed.recordLen, HEADER_LEN + |remainder|));
      }
      ghost var record := old(Remaining())[..parsed.recordLen];
      assert record == header + remainder;
      assert old(Remaining())[..HEADER_LEN] == header;
      var payload := CheckRemainder(header, remainder, parsed, recordOffset);
      if payload.Err? {
        return Err(payload.error);
      }
      offset := offset + parsed.recordLen;
      expectedSequence := SequenceAfter(parsed.sequence);
      r := Ok(Some(LogRecord(parsed.sequence, parsed.timestamp, payload.value)));
    }

    /** Checks padding and checksum and returns the payload. */
    method CheckRemainder(header: seq<byte>, remainder: seq<byte>, parsed: ParsedHeader, recordOffset: nat)
      returns (r: Result<seq<byte>, StorageError>)
      requires |header| == HEADER_LEN && SoundHash(hash)
      requires |header + remainder| == parsed.recordLen == RecordLen(parsed.payloadLen)
      ensures ReadBody(hash, header + remainder, recordOffset, parsed)
              == if r.Err? then Err(r.error) else Ok(LogRecord(parsed.sequence, parsed.timestamp, r.value))
    {
      var record := header + remainder;
      var checksumStart := parsed.recordLen - CHECKSUM_LEN;
      var padding := remainder[parsed.payloadLen..checksumStart - HEADER_LEN];
      assert padding == record[HEADER_LEN + parsed.payloadLen..checksumStart];
      for i := 0 to |padding|
        invariant forall j :: 0 <= j < i ==> padding[j] == 0
      {
        if padding[i] != 0 {
          PaddingFault(hash, record, recordOffset, parsed, i);
          return Err(CorruptRecord(recordOffset, NonZeroPadding(i)));
        }
      }
      var covered := header + remainder[..checksumStart - HEADER_LEN];
      assert covered == record[..checksumStart];
      assert remainder[checksumStart - HEADER_LEN..] == record[checksumStart..];
      if remainder[checksumStart - HEADER_LEN..] != hash(covered)[..CHECKSUM_LEN] {
        return Err(CorruptRecord(recordOffset, ChecksumMismatch));
      }
      assert remainder[..parsed.payloadLen] == record[HEADER_LEN..HEADER_LEN + parsed.payloadLen];
      r := Ok(remainder[..parsed.payloadLen]);
    }
  }

  lemma PaddingFault(hash: Hash, record: seq<byte>, offset: nat, parsed: ParsedHeader, i: nat)
    requires |record| == parsed.recordLen == RecordLen(parsed.payloadLen)
    requires var padding := record[HEADER_LEN + parsed.payloadLen..parsed.recordLen - CHECKSUM_LEN];
             i < |padding| && padding[i] != 0 && forall j :: 0 <= j < i ==> padding[j] == 0
    ensures ReadBody(hash, record, offset, parsed) == Err(CorruptRecord(offset, NonZeroPadding(i)))
  {
    var padding := record[HEADER_LEN + parsed.payloadLen..parsed.recordLen - CHECKSUM_LEN];
    assert FirstNonZero(padding) == i;
  }

  /** Reads every record of a stream from record one, or reports the first failure. */
  method RecoverRecords(hash: Hash, max: nat, stream: seq<byte>) returns (r: Result<seq<LogRecord>, StorageError>)
    requires SoundHash(hash)
    ensures var read := ReadAll(hash, max, Some(1), stream, 0);
            r == if read.failure.Some? then Err(read.failure.value) else Ok(read.records)
  {
    hide ReadRecord;
    var reader := new RecordReader(hash, max, stream, Some(1));
    var records: seq<LogRecord> := [];
    ghost var whole := ReadAll(hash, max, Some(1), stream, 0);
    var ended := false;
    while !ended
      invariant fresh(reader) && reader.position <= |stream|
      invariant reader.hash == hash && reader.max == max && reader.stream == stream
      invariant !ended ==>
                  var rest := ReadAll(hash, max, reader.expectedSequence, reader.Remaining(), reader.offset);
                  whole == rest.(records := records + rest.records)
      invariant ended ==> whole.failure == None && whole.records == records
      decreases !ended, |reader.Remaining()|
    {
      var next := reader.ReadNext();
      if next.Err? {
        return Err(next.error);
      }
      if next.value.None? {
        ended := true;
      } else {
        records := records + [next.value.value];
      }
    }
    r := Ok(records);
  }
}
