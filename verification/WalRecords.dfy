/** The byte format of one write-ahead-log record, and reading it back. */
module WalRecords {
  import opened Results
  import opened Bytes
  import opened Domain

  const MAGIC: seq<byte> := [80, 68, 66, 87]
  const FORMAT_VERSION: byte := 1
  const FORMAT_FLAGS: byte := 0
  const HEADER_LEN := 32
  const CHECKSUM_LEN := 16
  const MIN_RECORD_LEN := 48
  const FORMAT_MAX_RECORD_LEN := 0xffff_fff8

  /** The hash stands for the 32-byte digest function whose first half is the checksum. */
  type Hash = seq<byte> -> seq<byte>

  ghost predicate SoundHash(hash: Hash) {
    forall bytes :: |hash(bytes)| == 32
  }

  /** Logical content of one record. */
  datatype LogRecord = LogRecord(sequence: int, timestamp: int, payload: seq<byte>) {
    ghost predicate Valid() {
      1 <= sequence <= U64_MAX && FitsI64(timestamp)
    }
  }

  datatype Corruption =
    | InvalidMagic
    | UnsupportedFlags
    | InvalidHeaderLength
    | InvalidRecordLength
    | InvalidPayloadLength
    | InvalidSequence
    | SequenceMismatch(expected: int, actual: int)
    | SequenceOverflow
    | NonZeroPadding(index: nat)
    | ChecksumMismatch

  datatype StorageError =
    | PartialTail(offset: nat, expected: nat, actual: nat)
    | CorruptRecord(offset: nat, reason: Corruption)
    | UnsupportedVersion(offset: nat, version: byte)
    | RecordTooLarge(offset: nat, length: nat, max: nat)
    | InvalidLength(length: nat)
    | UnsupportedPayload(payloadVersion: byte)
    | InvalidTag(kind: string, tag: byte)
    | TruncatedPayload
    | InvalidText
    | InvalidValue(cause: DomainError)
    | CorruptPayload(detail: string)
    | OversizedField
    | SegmentLengthOverflow
    | Io

  function PaddingLen(payloadLen: nat): (n: nat)
    ensures n < 8 && (payloadLen + n) % 8 == 0
  {
    (8 - payloadLen % 8) % 8
  }

  function RecordLen(payloadLen: nat): nat {
    MIN_RECORD_LEN + payloadLen + PaddingLen(payloadLen)
  }

  function Zeros(n: nat): (zeros: seq<byte>)
    ensures |zeros| == n && forall i :: 0 <= i < n ==> zeros[i] == 0
  {
    seq(n, i => 0)
  }

  /** The payload length the format and the limit allow. */
  predicate Frameable(payloadLen: nat, max: nat) {
    payloadLen <= U32_MAX && RecordLen(payloadLen) <= FORMAT_MAX_RECORD_LEN && RecordLen(payloadLen) <= max
  }

  function Prefix(recordLen: nat, payloadLen: nat): (bytes: seq<byte>)
    ensures |bytes| == 16
  {
    MAGIC + [FORMAT_VERSION, FORMAT_FLAGS] + LittleEndian(HEADER_LEN, 2)
    + LittleEndian(recordLen, 4) + LittleEndian(payloadLen, 4)
  }

  function Header(r: LogRecord): (header: seq<byte>)
    requires r.Valid()
    ensures |header| == HEADER_LEN
  {
    Prefix(RecordLen(|r.payload|), |r.payload|)
    + LittleEndian(r.sequence, 8) + LittleEndian(Unsigned64(r.timestamp), 8)
  }

  /** Everything the checksum covers. */
  function Body(r: LogRecord): (body: seq<byte>)
    requires r.Valid()
    ensures |body| == RecordLen(|r.payload|) - CHECKSUM_LEN
  {
    Header(r) + r.payload + Zeros(PaddingLen(|r.payload|))
  }

  function Checksum(hash: Hash, body: seq<byte>): seq<byte> {
    var digest := hash(body);
    if |digest| < CHECKSUM_LEN then digest else digest[..CHECKSUM_LEN]
  }

  /** One framed record. */
  function Frame(hash: Hash, r: LogRecord): seq<byte>
    requires r.Valid()
  {
    Body(r) + Checksum(hash, Body(r))
  }

  lemma FrameLength(hash: Hash, r: LogRecord)
    requires SoundHash(hash) && r.Valid()
    ensures |Frame(hash, r)| == RecordLen(|r.payload|)
  {
  }

  // ---- Layout ----

  lemma HeaderParts(r: LogRecord)
    requires r.Valid()
    ensures var h, n := Header(r), |r.payload|;
            && h[0..4] == MAGIC && h[4] == FORMAT_VERSION && h[5] == FORMAT_FLAGS
            && h[6..8] == LittleEndian(HEADER_LEN, 2) && h[8..12] == LittleEndian(RecordLen(n), 4)
            && h[12..16] == LittleEndian(n, 4) && h[16..24] == LittleEndian(r.sequence, 8)
            && h[24..32] == LittleEndian(Unsigned64(r.timestamp), 8)
  {
    hide LittleEndian;
  }

  /** The header's fields, read back from their places. */
  ghost predicate HeaderReads(h: seq<byte>, recordLen: nat, payloadLen: nat, sequence: int, timestamp: int) {
    && |h| == 32 && h[0..4] == [80, 68, 66, 87] && h[4] == 1 && h[5] == 0
    && FromLittleEndian(h[6..8]) == 32 && FromLittleEndian(h[8..12]) == recordLen
    && FromLittleEndian(h[12..16]) == payloadLen && FromLittleEndian(h[16..24]) == sequence
    && FromLittleEndian(h[24..32]) == if timestamp < 0 then timestamp + 0x1_0000_0000_0000_0000 else timestamp
  }

  lemma HeaderValues(r: LogRecord, max: nat)
    requires r.Valid() && Frameable(|r.payload|, max)
    ensures HeaderReads(Header(r), RecordLen(|r.payload|), |r.payload|, r.sequence, r.timestamp)
  {
    hide LittleEndian, FromLittleEndian, Header;
    var n := |r.payload|;
    HeaderParts(r);
    Limits();
    LittleEndianRoundTrip(HEADER_LEN, 2);
    LittleEndianRoundTrip(RecordLen(n), 4);
    LittleEndianRoundTrip(n, 4);
    LittleEndianRoundTrip(r.sequence, 8);
    LittleEndianRoundTrip(Unsigned64(r.timestamp), 8);
  }

  /**
   The published layout of a record: `PDBW`, version, flags, and little-endian lengths, sequence and two's
   complement timestamp at fixed offsets, then payload, zero padding to eight bytes and half a digest.
   */
  lemma FrameLayout(hash: Hash, r: LogRecord, max: nat)
    requires SoundHash(hash) && r.Valid() && Frameable(|r.payload|, max)
    ensures var frame, n := Frame(hash, r), |r.payload|;
            && |frame| >= 48 && |frame| % 8 == 0 && 32 + n <= |frame| - 16 < 32 + n + 8
            && HeaderReads(frame[..32], |frame|, n, r.sequence, r.timestamp)
            && frame[32..32 + n] == r.payload && (forall i :: 32 + n <= i < |frame| - 16 ==> frame[i] == 0)
            && frame[|frame| - 16..] == hash(frame[..|frame| - 16])[..16]
  {
    hide LittleEndian, FromLittleEndian, Header, HeaderReads;
    var frame, n := Frame(hash, r), |r.payload|;
    var h, zeros := Header(r), Zeros(PaddingLen(n));
    HeaderValues(r, max);
    assert frame == h + r.payload + zeros + Checksum(hash, Body(r));
    assert frame[..|frame| - 16] == Body(r);
    assert frame[..32] == h;
  }

  // ---- Reading ----

  datatype ParsedHeader = ParsedHeader(recordLen: nat, payloadLen: nat, sequence: int, timestamp: int)

  /** The record sequence after this one, absent at the end of the sequence space. */
  function SequenceAfter(sequence: int): Option<int> {
    if sequence >= U64_MAX then None else Some(sequence + 1)
  }

  /** Structural header checks, in the order they are made. */
  function ParseHeader(header: seq<byte>, offset: nat, max: nat, expected: Option<int>)
    : Result<ParsedHeader, StorageError>
    requires |header| == HEADER_LEN
  {
    if header[..4] != MAGIC then Err(CorruptRecord(offset, InvalidMagic))
    else if header[4] != FORMAT_VERSION then Err(UnsupportedVersion(offset, header[4]))
    else if header[5] != FORMAT_FLAGS then Err(CorruptRecord(offset, UnsupportedFlags))
    else if FromLittleEndian(header[6..8]) != HEADER_LEN then Err(CorruptRecord(offset, InvalidHeaderLength))
    else
      var recordLen := FromLittleEndian(header[8..12]);
      if recordLen < MIN_RECORD_LEN || recordLen > FORMAT_MAX_RECORD_LEN || recordLen % 8 != 0
      then Err(CorruptRecord(offset, InvalidRecordLength))
      else if recordLen > max then Err(RecordTooLarge(offset, recordLen, max))
      else
        var payloadLen := FromLittleEndian(header[12..16]);
        if RecordLen(payloadLen) != recordLen then Err(CorruptRecord(offset, InvalidPayloadLength))
        else
          var sequence := FromLittleEndian(header[16..24]);
          if sequence == 0 then Err(CorruptRecord(offset, InvalidSequence))
          else if expected.None? then Err(CorruptRecord(offset, Corruption.SequenceOverflow))
          else if sequence != expected.value then Err(CorruptRecord(offset, SequenceMismatch(expected.value, sequence)))
          else
            LittleEndianExact(header[24..32]);
            Limits();
            Ok(ParsedHeader(recordLen, payloadLen, sequence, Signed64(FromLittleEndian(header[24..32]))))
  }

  /** The first nonzero padding byte, or the padding length. */
  function FirstNonZero(padding: seq<byte>): (i: nat)
    ensures i <= |padding|
    ensures i < |padding| ==> padding[i] != 0
    ensures forall j :: 0 <= j < i ==> padding[j] == 0
  {
    if padding == [] || padding[0] != 0 then 0 else 1 + FirstNonZero(padding[1..])
  }

  /** What follows a good header: padding and checksum, then the payload. */
  function ReadBody(hash: Hash, record: seq<byte>, offset: nat, parsed: ParsedHeader): Result<LogRecord, StorageError>
    requires |record| == parsed.recordLen == RecordLen(parsed.payloadLen)
  {
    var padding := record[HEADER_LEN + parsed.payloadLen..parsed.recordLen - CHECKSUM_LEN];
    if FirstNonZero(padding) < |padding| then Err(CorruptRecord(offset, NonZeroPadding(FirstNonZero(padding))))
    else if record[parsed.recordLen - CHECKSUM_LEN..] != Checksum(hash, record[..parsed.recordLen - CHECKSUM_LEN])
    then Err(CorruptRecord(offset, ChecksumMismatch))
    else Ok(LogRecord(parsed.sequence, parsed.timestamp, record[HEADER_LEN..HEADER_LEN + parsed.payloadLen]))
  }

  /** Reads the next record of the remaining bytes; no bytes at all is a clean end. */
  function ReadRecord(hash: Hash, max: nat, expected: Option<int>, bytes: seq<byte>, offset: nat)
    : (r: Result<Option<(LogRecord, nat)>, StorageError>)
    ensures r.Ok? && r.value.Some? ==> MIN_RECORD_LEN <= r.value.value.1 <= |bytes|
  {
    if bytes == [] then Ok(None)
    else if |bytes| < HEADER_LEN then Err(PartialTail(offset, HEADER_LEN, |bytes|))
    else
      var parsed :- ParseHeader(bytes[..HEADER_LEN], offset, max, expected);
      if |bytes| < parsed.recordLen then Err(PartialTail(offset, parsed.recordLen, |bytes|))
      else
        var record :- ReadBody(hash, bytes[..parsed.recordLen], offset, parsed);
        Ok(Some((record, parsed.recordLen)))
  }

  // ---- Reading inverts framing ----

  lemma HeaderFields(r: LogRecord)
    requires r.Valid()
    ensures var h := Header(r);
            && h[..4] == MAGIC && h[4] == FORMAT_VERSION && h[5] == FORMAT_FLAGS
            && h[6..8] == LittleEndian(HEADER_LEN, 2)
            && h[8..12] == LittleEndian(RecordLen(|r.payload|), 4)
            && h[12..16] == LittleEndian(|r.payload|, 4)
            && h[16..24] == LittleEndian(r.sequence, 8)
            && h[24..32] == LittleEndian(Unsigned64(r.timestamp), 8)
  {
    hide LittleEndian;
  }

  lemma HeaderParses(r: LogRecord, offset: nat, max: nat)
    requires r.Valid() && Frameable(|r.payload|, max)
    ensures ParseHeader(Header(r), offset, max, Some(r.sequence))
            == Ok(ParsedHeader(RecordLen(|r.payload|), |r.payload|, r.sequence, r.timestamp))
  {
    hide LittleEndian;
    hide FromLittleEndian;
    hide Header;
    hide Limit;
    HeaderFields(r);
    Limits();
    LittleEndianRoundTrip(HEADER_LEN, 2);
    LittleEndianRoundTrip(RecordLen(|r.payload|), 4);
    LittleEndianRoundTrip(|r.payload|, 4);
    LittleEndianRoundTrip(r.sequence, 8);
    LittleEndianRoundTrip(Unsigned64(r.timestamp), 8);
    SignedRoundTrip(r.timestamp);
  }

  lemma BodyReads(hash: Hash, r: LogRecord, offset: nat)
    requires SoundHash(hash) && r.Valid()
    ensures |Frame(hash, r)| == RecordLen(|r.payload|)
    ensures ReadBody(hash, Frame(hash, r), offset,
                     ParsedHeader(RecordLen(|r.payload|), |r.payload|, r.sequence, r.timestamp))
            == Ok(r)
  {
    hide Header;
    FrameLength(hash, r);
    var frame := Frame(hash, r);
    var n := |r.payload|;
    assert frame[..RecordLen(n) - CHECKSUM_LEN] == Body(r);
    assert frame[RecordLen(n) - CHECKSUM_LEN..] == Checksum(hash, Body(r));
    assert frame[HEADER_LEN..HEADER_LEN + n] == r.payload;
    assert frame[HEADER_LEN + n..RecordLen(n) - CHECKSUM_LEN] == Zeros(PaddingLen(n));
  }

  /** Reading at a framed record returns exactly that record. */
  lemma ReadFrame(hash: Hash, max: nat, r: LogRecord, rest: seq<byte>, offset: nat)
    requires SoundHash(hash) && r.Valid() && Frameable(|r.payload|, max)
    ensures ReadRecord(hash, max, Some(r.sequence), Frame(hash, r) + rest, offset) == Ok(Some((r, |Frame(hash, r)|)))
  {
    hide Header;
    hide ParseHeader;
    hide ReadBody;
    FrameLength(hash, r);
    HeaderParses(r, offset, max);
    BodyReads(hash, r, offset);
    var bytes := Frame(hash, r) + rest;
    assert bytes[..HEADER_LEN] == Header(r);
    assert bytes[..RecordLen(|r.payload|)] == Frame(hash, r);
  }

  /** A cut inside a framed record is a partial tail, never corruption. */
  lemma ReadCutFrame(hash: Hash, max: nat, r: LogRecord, cut: nat, offset: nat)
    requires SoundHash(hash) && r.Valid() && Frameable(|r.payload|, max)
    requires 0 < cut < |Frame(hash, r)|
    ensures var read := ReadRecord(hash, max, Some(r.sequence), Frame(hash, r)[..cut], offset);
            read.Err? && read.error.PartialTail? && read.error.offset == offset
  {
    hide Header;
    hide ParseHeader;
    hide ReadBody;
    FrameLength(hash, r);
    var bytes := Frame(hash, r)[..cut];
    if cut >= HEADER_LEN {
      HeaderParses(r, offset, max);
      assert bytes[..HEADER_LEN] == Header(r);
    }
  }

  lemma ParsedLengths(header: seq<byte>, offset: nat, max: nat, expected: Option<int>)
    requires |header| == HEADER_LEN && ParseHeader(header, offset, max, expected).Ok?
    ensures var parsed := ParseHeader(header, offset, max, expected).value;
            parsed.recordLen == RecordLen(parsed.payloadLen) <= max
  {
  }

  /** The header bytes are determined by what parsing returns. */
  lemma ParsedHeaderExact(header: seq<byte>, offset: nat, max: nat, expected: Option<int>, payload: seq<byte>)
    requires |header| == HEADER_LEN && ParseHeader(header, offset, max, expected).Ok?
    requires |payload| == ParseHeader(header, offset, max, expected).value.payloadLen
    ensures var parsed := ParseHeader(header, offset, max, expected).value;
            var r := LogRecord(parsed.sequence, parsed.timestamp, payload);
            r.Valid() && Header(r) == header && expected == Some(r.sequence) && parsed.recordLen == RecordLen(|payload|)
  {
    hide LittleEndian;
    hide FromLittleEndian;
    hide Limit;
    Limits();
    LittleEndianExact(header[6..8]);
    LittleEndianExact(header[8..12]);
    LittleEndianExact(header[12..16]);
    LittleEndianExact(header[16..24]);
    LittleEndianExact(header[24..32]);
    assert header == header[..4] + [header[4], header[5]] + header[6..8] + header[8..12] + header[12..16]
                     + header[16..24] + header[24..32];
  }

  /** A successful read consumed exactly the framing of the record it returns. */
  lemma ReadExact(hash: Hash, max: nat, expected: Option<int>, bytes: seq<byte>, offset: nat)
    requires SoundHash(hash)
    requires ReadRecord(hash, max, expected, bytes, offset).Ok?
             && ReadRecord(hash, max, expected, bytes, offset).value.Some?
    ensures var (r, n) := ReadRecord(hash, max, expected, bytes, offset).value.value;
            && r.Valid() && expected == Some(r.sequence)
            && n == |Frame(hash, r)| && bytes[..n] == Frame(hash, r)
  {
    hide ParseHeader;
    hide Header;
    var header := bytes[..HEADER_LEN];
    var parsed := ParseHeader(header, offset, max, expected).value;
    var (r, n) := ReadRecord(hash, max, expected, bytes, offset).value.value;
    var frame := bytes[..n];
    ParsedLengths(header, offset, max, expected);
    assert |r.payload| == parsed.payloadLen;
    ParsedHeaderExact(header, offset, max, expected, r.payload);
    FrameLength(hash, r);
    var end := parsed.recordLen - CHECKSUM_LEN;
    assert frame[..HEADER_LEN] == header;
    assert frame[HEADER_LEN + parsed.payloadLen..end] == Zeros(PaddingLen(parsed.payloadLen));
    assert frame[..end] == frame[..HEADER_LEN] + frame[HEADER_LEN..HEADER_LEN + parsed.payloadLen]
                           + frame[HEADER_LEN + parsed.payloadLen..end];
    assert frame == frame[..end] + frame[end..];
  }
}
