/**
 The versioned command payload: what a command is written as, and that reading gives it back, with
 every strict prefix rejected as truncated.
 */
module CommandPayloads {
  import opened Results
  import opened Bytes
  import opened Intervals
  import opened CapacityCurves
  import opened Domain
  import opened WalRecords
  import opened Payloads

  const COMMAND_FORMAT_VERSION: byte := 1

  const CREATE_POOL: byte := 1
  const REVISE_CAPACITY: byte := 2
  const HOLD: byte := 3
  const COMMIT: byte := 4
  const RELEASE: byte := 5
  const REPLACE: byte := 6
  const PROCESS_EXPIRATIONS: byte := 7
  const HOLD_ONE_OF: byte := 8
  const HOLD_FIRST_SLOT: byte := 9

  const UNORDERED: StorageError := CorruptPayload("")

  // ---- Intervals and units ----

  function IntervalBytes(interval: Interval): (bytes: seq<byte>)
    ensures |bytes| == 16
  {
    U64Bytes(interval.start) + U64Bytes(interval.end)
  }

  predicate FitsInterval(interval: Interval) {
    interval.Valid() && FitsI64(interval.start) && FitsI64(interval.end)
  }

  function ReadInterval(s: seq<byte>): (r: Read<Interval>)
    ensures NoTail(r)
  {
    var (start, rest) :- ReadI64(s);
    var (end, rest) :- ReadI64(rest);
    if start >= end then Err(InvalidValue(DomainError.InvalidInterval)) else Ok((Interval(start, end), rest))
  }

  lemma IntervalReads(interval: Interval, s: seq<byte>)
    requires FitsInterval(interval) && Aligned(s, IntervalBytes(interval))
    ensures ReadInterval(s) == Expect(interval, IntervalBytes(interval), s)
  {
    hide Aligned, U64Bytes, ReadI64;
    AlignedSplit(s, U64Bytes(interval.start), U64Bytes(interval.end));
    I64Reads(interval.start, s);
    if 8 <= |s| {
      I64Reads(interval.end, s[8..]);
    }
  }

  function UnitBytes(text: Text, unit: Unit): seq<byte> {
    StringBytes(text, unit.name) + U64Bytes(unit.subunitsPerUnit)
  }

  /** What the unit constructor accepts. */
  predicate FitsUnit(text: Text, unit: Unit) {
    !text.blank(unit.name) && 1 <= unit.subunitsPerUnit <= U64_MAX
  }

  function ReadUnit(text: Text, s: seq<byte>): (r: Read<Unit>)
    ensures NoTail(r)
  {
    var (name, rest) :- ReadString(text, s);
    var (subunits, rest) :- ReadU64(rest);
    if text.blank(name) then Err(InvalidValue(DomainError.InvalidUnitName))
    else if subunits == 0 then Err(InvalidValue(DomainError.InvalidUnitScale))
    else Ok((Unit(name, subunits), rest))
  }

  lemma UnitReads(text: Text, unit: Unit, s: seq<byte>)
    requires Lossless(text) && FitsUnit(text, unit) && SizedString(text, unit.name) && Aligned(s, UnitBytes(text, unit))
    ensures ReadUnit(text, s) == Expect(unit, UnitBytes(text, unit), s)
  {
    hide Aligned, U64Bytes, ReadU64, StringBytes, ReadString;
    var name := StringBytes(text, unit.name);
    AlignedSplit(s, name, U64Bytes(unit.subunitsPerUnit));
    StringReads(text, unit.name, s);
    if |name| <= |s| {
      U64Reads(unit.subunitsPerUnit, s[|name|..]);
    }
  }

  // ---- Curves ----

  function SegmentBytes(segment: CapacitySegment): seq<byte> {
    IntervalBytes(segment.interval) + U64Bytes(segment.capacity)
  }

  function SegmentParts(segments: seq<CapacitySegment>): (parts: seq<seq<byte>>)
    ensures |parts| == |segments| && forall i :: 0 <= i < |segments| ==> parts[i] == SegmentBytes(segments[i])
  {
    seq(|segments|, i requires 0 <= i < |segments| => SegmentBytes(segments[i]))
  }

  function CurveBytes(curve: seq<CapacitySegment>): seq<byte> {
    ListBytes(SegmentParts(curve))
  }

  ghost predicate FitsCurve(curve: seq<CapacitySegment>) {
    ValidCurve(curve) && forall i :: 0 <= i < |curve| ==> FitsInterval(curve[i].interval)
  }

  function ReadSegment(s: seq<byte>): (r: Read<CapacitySegment>)
    ensures NoTail(r)
  {
    var (interval, rest) :- ReadInterval(s);
    var (capacity, rest) :- ReadU64(rest);
    Ok((CapacitySegment(interval, capacity), rest))
  }

  function CurveFault(error: CurveError): DomainError {
    match error
    case QuantityOutOfRange => DomainError.QuantityOutOfRange
    case UnsortedCapacitySegments => DomainError.UnsortedCapacitySegments
    case OverlappingCapacitySegments => DomainError.OverlappingCapacitySegments
  }

  function ReadCurve(s: seq<byte>): (r: Read<seq<CapacitySegment>>)
    ensures NoTail(r)
  {
    var (segments, rest) :- ReadList(ReadSegment, AnyOrder<CapacitySegment>, UNORDERED, s);
    match FromSorted(segments)
    case Err(error) => Err(InvalidValue(CurveFault(error)))
    case Ok(curve) => Ok((curve, rest))
  }

  lemma SegmentReads(segment: CapacitySegment, s: seq<byte>)
    requires FitsInterval(segment.interval) && FitsU64(segment.capacity) && Aligned(s, SegmentBytes(segment))
    ensures ReadSegment(s) == Expect(segment, SegmentBytes(segment), s)
  {
    hide Aligned, U64Bytes, ReadU64, IntervalBytes, ReadInterval;
    AlignedSplit(s, IntervalBytes(segment.interval), U64Bytes(segment.capacity));
    IntervalReads(segment.interval, s);
    if 16 <= |s| {
      U64Reads(segment.capacity, s[16..]);
    }
  }

  /** Reading rests on construction being the identity on normalized curves. */
  lemma CurveReads(curve: seq<CapacitySegment>, s: seq<byte>)
    requires FitsCurve(curve) && |curve| <= U32_MAX && Aligned(s, CurveBytes(curve))
    ensures ReadCurve(s) == Expect(curve, CurveBytes(curve), s)
  {
    hide Aligned, ListBytes, ReadList, SegmentBytes, ReadSegment;
    FromSortedCorrect(curve);
    forall i | 0 <= i < |curve|
      ensures Codes(ReadSegment, curve[i], SegmentParts(curve)[i])
    {
      forall s' | Aligned(s', SegmentBytes(curve[i]))
        ensures ReadSegment(s') == Expect(curve[i], SegmentBytes(curve[i]), s')
      {
        SegmentReads(curve[i], s');
      }
    }
    ListReads(ReadSegment, AnyOrder<CapacitySegment>, UNORDERED, curve, SegmentParts(curve), s);
  }

  // ---- Claims, bundles and choices ----

  function ClaimBytes(claim: Claim): seq<byte> {
    IdBytes(claim.poolId) + (IntervalBytes(claim.interval) + U64Bytes(claim.quantity))
  }

  predicate FitsClaim(claim: Claim) {
    FitsId(claim.poolId) && FitsInterval(claim.interval) && claim.Valid()
  }

  function ReadClaim(s: seq<byte>): (r: Read<Claim>)
    ensures NoTail(r)
  {
    var (poolId, rest) :- ReadId(s);
    var (interval, rest) :- ReadInterval(rest);
    var (quantity, rest) :- ReadU64(rest);
    if quantity == 0 then Err(InvalidValue(DomainError.InvalidQuantity))
    else if quantity > MAX_QUANTITY then Err(InvalidValue(DomainError.QuantityOutOfRange))
    else Ok((Claim(poolId, interval, quantity), rest))
  }

  lemma ClaimReads(claim: Claim, s: seq<byte>)
    requires FitsClaim(claim) && Aligned(s, ClaimBytes(claim))
    ensures ReadClaim(s) == Expect(claim, ClaimBytes(claim), s)
  {
    hide Aligned, U64Bytes, ReadU64, IdBytes, ReadId, IntervalBytes, ReadInterval;
    AlignedSplit(s, IdBytes(claim.poolId), IntervalBytes(claim.interval) + U64Bytes(claim.quantity));
    IdReads(claim.poolId, s);
    if 16 <= |s| {
      AlignedSplit(s[16..], IntervalBytes(claim.interval), U64Bytes(claim.quantity));
      IntervalReads(claim.interval, s[16..]);
      if 32 <= |s| {
        U64Reads(claim.quantity, s[16..][16..]);
      }
    }
  }

  function ClaimParts(claims: seq<Claim>): (parts: seq<seq<byte>>)
    ensures |parts| == |claims| && forall i :: 0 <= i < |claims| ==> parts[i] == ClaimBytes(claims[i])
  {
    seq(|claims|, i requires 0 <= i < |claims| => ClaimBytes(claims[i]))
  }

  function BundleBytes(bundle: Bundle): seq<byte> {
    ListBytes(ClaimParts(bundle))
  }

  predicate FitsBundle(bundle: Bundle) {
    bundle != [] && forall i :: 0 <= i < |bundle| ==> FitsClaim(bundle[i])
  }

  function ReadBundle(s: seq<byte>): (r: Read<Bundle>)
    ensures NoTail(r)
  {
    var (claims, rest) :- ReadList(ReadClaim, AnyOrder<Claim>, UNORDERED, s);
    if claims == [] then Err(InvalidValue(DomainError.EmptyBundle)) else Ok((claims, rest))
  }

  lemma BundleReads(bundle: Bundle, s: seq<byte>)
    requires FitsBundle(bundle) && |bundle| <= U32_MAX && Aligned(s, BundleBytes(bundle))
    ensures ReadBundle(s) == Expect(bundle, BundleBytes(bundle), s)
  {
    hide Aligned, ListBytes, ReadList, ClaimBytes, ReadClaim, FitsClaim;
    forall i | 0 <= i < |bundle|
      ensures Codes(ReadClaim, bundle[i], ClaimParts(bundle)[i])
    {
      forall s' | Aligned(s', ClaimBytes(bundle[i]))
        ensures ReadClaim(s') == Expect(bundle[i], ClaimBytes(bundle[i]), s')
      {
        ClaimReads(bundle[i], s');
      }
    }
    ListReads(ReadClaim, AnyOrder<Claim>, UNORDERED, bundle, ClaimParts(bundle), s);
  }

  function BundleParts(choice: seq<Bundle>): (parts: seq<seq<byte>>)
    ensures |parts| == |choice| && forall i :: 0 <= i < |choice| ==> parts[i] == BundleBytes(choice[i])
  {
    seq(|choice|, i requires 0 <= i < |choice| => BundleBytes(choice[i]))
  }

  function ChoiceBytes(choice: seq<Bundle>): seq<byte> {
    ListBytes(BundleParts(choice))
  }

  predicate FitsChoice(choice: seq<Bundle>) {
    choice != [] && forall i :: 0 <= i < |choice| ==> FitsBundle(choice[i])
  }

  predicate SizedChoice(choice: seq<Bundle>) {
    |choice| <= U32_MAX && forall i :: 0 <= i < |choice| ==> |choice[i]| <= U32_MAX
  }

  function ReadChoice(s: seq<byte>): (r: Read<seq<Bundle>>)
    ensures NoTail(r)
  {
    var (alternatives, rest) :- ReadList(ReadBundle, AnyOrder<Bundle>, UNORDERED, s);
    if alternatives == [] then Err(InvalidValue(DomainError.EmptyChoice)) else Ok((alternatives, rest))
  }

  lemma ChoiceReads(choice: seq<Bundle>, s: seq<byte>)
    requires FitsChoice(choice) && SizedChoice(choice) && Aligned(s, ChoiceBytes(choice))
    ensures ReadChoice(s) == Expect(choice, ChoiceBytes(choice), s)
  {
    hide Aligned, ListBytes, ReadList, BundleBytes, ReadBundle, FitsBundle;
    forall i | 0 <= i < |choice|
      ensures Codes(ReadBundle, choice[i], BundleParts(choice)[i])
    {
      forall s' | Aligned(s', BundleBytes(choice[i]))
        ensures ReadBundle(s') == Expect(choice[i], BundleBytes(choice[i]), s')
      {
        BundleReads(choice[i], s');
      }
    }
    ListReads(ReadBundle, AnyOrder<Bundle>, UNORDERED, choice, BundleParts(choice), s);
  }

  function RelativeClaimBytes(claim: RelativeClaim): seq<byte> {
    IdBytes(claim.poolId) + (U64Bytes(claim.startOffset) + (U64Bytes(claim.endOffset) + U64Bytes(claim.quantity)))
  }

  function ReadRelativeClaim(s: seq<byte>): (r: Read<RelativeClaim>)
    ensures NoTail(r)
  {
    var (poolId, rest) :- ReadId(s);
    var (startOffset, rest) :- ReadI64(rest);
    var (endOffset, rest) :- ReadI64(rest);
    var (quantity, rest) :- ReadU64(rest);
    if startOffset >= endOffset then Err(InvalidValue(DomainError.InvalidInterval))
    else if quantity == 0 then Err(InvalidValue(DomainError.InvalidQuantity))
    else if quantity > MAX_QUANTITY then Err(InvalidValue(DomainError.QuantityOutOfRange))
    else Ok((RelativeClaim(poolId, startOffset, endOffset, quantity), rest))
  }

  lemma RelativeClaimReads(claim: RelativeClaim, s: seq<byte>)
    requires FitsId(claim.poolId) && claim.Valid() && Aligned(s, RelativeClaimBytes(claim))
    ensures ReadRelativeClaim(s) == Expect(claim, RelativeClaimBytes(claim), s)
  {
    hide Aligned, U64Bytes, ReadU64, ReadI64, IdBytes, ReadId;
    AlignedSplit(s, IdBytes(claim.poolId),
                 U64Bytes(claim.startOffset) + (U64Bytes(claim.endOffset) + U64Bytes(claim.quantity)));
    IdReads(claim.poolId, s);
    if 16 <= |s| {
      var a := s[16..];
      AlignedSplit(a, U64Bytes(claim.startOffset), U64Bytes(claim.endOffset) + U64Bytes(claim.quantity));
      I64Reads(claim.startOffset, a);
      if 8 <= |a| {
        AlignedSplit(a[8..], U64Bytes(claim.endOffset), U64Bytes(claim.quantity));
        I64Reads(claim.endOffset, a[8..]);
        if 16 <= |a| {
          U64Reads(claim.quantity, a[8..][8..]);
        }
      }
    }
  }

  function RelativeParts(claims: seq<RelativeClaim>): (parts: seq<seq<byte>>)
    ensures |parts| == |claims| && forall i :: 0 <= i < |claims| ==> parts[i] == RelativeClaimBytes(claims[i])
  {
    seq(|claims|, i requires 0 <= i < |claims| => RelativeClaimBytes(claims[i]))
  }

  function RelativeBytes(claims: seq<RelativeClaim>): seq<byte> {
    ListBytes(RelativeParts(claims))
  }

  predicate FitsRelative(claims: seq<RelativeClaim>) {
    claims != [] && forall i :: 0 <= i < |claims| ==> FitsId(claims[i].poolId) && claims[i].Valid()
  }

  function ReadRelative(s: seq<byte>): (r: Read<seq<RelativeClaim>>)
    ensures NoTail(r)
  {
    var (claims, rest) :- ReadList(ReadRelativeClaim, AnyOrder<RelativeClaim>, UNORDERED, s);
    if claims == [] then Err(InvalidValue(DomainError.EmptyRelativeBundle)) else Ok((claims, rest))
  }

  lemma RelativeReads(claims: seq<RelativeClaim>, s: seq<byte>)
    requires FitsRelative(claims) && |claims| <= U32_MAX && Aligned(s, RelativeBytes(claims))
    ensures ReadRelative(s) == Expect(claims, RelativeBytes(claims), s)
  {
    hide Aligned, ListBytes, ReadList, RelativeClaimBytes, ReadRelativeClaim;
    forall i | 0 <= i < |claims|
      ensures Codes(ReadRelativeClaim, claims[i], RelativeParts(claims)[i])
    {
      forall s' | Aligned(s', RelativeClaimBytes(claims[i]))
        ensures ReadRelativeClaim(s') == Expect(claims[i], RelativeClaimBytes(claims[i]), s')
      {
        RelativeClaimReads(claims[i], s');
      }
    }
    ListReads(ReadRelativeClaim, AnyOrder<RelativeClaim>, UNORDERED, claims, RelativeParts(claims), s);
  }

  // ---- Operations ----

  function ModeByte(mode: RevisionMode): byte {
    match mode
    case Strict => 1
    case Force => 2
  }

  function NewStateBytes(newState: ReplacementState): seq<byte> {
    match newState
    case ReplacedHeld(deadline) => [1] + U64Bytes(deadline)
    case ReplacedCommitted => [2]
  }

  function TagOf(operation: Operation): byte {
    match operation
    case CreateResourcePool(_, _, _, _) => CREATE_POOL
    case ReviseCapacity(_, _, _) => REVISE_CAPACITY
    case Hold(_, _, _) => HOLD
    case HoldOneOf(_, _, _) => HOLD_ONE_OF
    case HoldFirstSlot(_, _, _, _, _, _) => HOLD_FIRST_SLOT
    case Commit(_, _) => COMMIT
    case Release(_, _) => RELEASE
    case Replace(_, _, _, _) => REPLACE
    case ProcessExpirations => PROCESS_EXPIRATIONS
  }

  /** The fields behind the tag. */
  function FieldBytes(text: Text, operation: Operation): seq<byte> {
    match operation
    case CreateResourcePool(poolId, displayName, unit, curve) =>
      IdBytes(poolId) + (StringBytes(text, displayName) + (UnitBytes(text, unit) + CurveBytes(curve)))
    case ReviseCapacity(poolId, curve, mode) => IdBytes(poolId) + (CurveBytes(curve) + [ModeByte(mode)])
    case Hold(promiseId, bundle, expiresAt) => IdBytes(promiseId) + (BundleBytes(bundle) + U64Bytes(expiresAt))
    case HoldOneOf(promiseId, choice, expiresAt) => IdBytes(promiseId) + (ChoiceBytes(choice) + U64Bytes(expiresAt))
    case HoldFirstSlot(promiseId, relative, earliest, latest, step, expiresAt) =>
      IdBytes(promiseId)
      + (RelativeBytes(relative) + (U64Bytes(earliest) + (U64Bytes(latest) + (U64Bytes(step) + U64Bytes(expiresAt)))))
    case Commit(promiseId, expectedVersion) => IdBytes(promiseId) + U64Bytes(expectedVersion)
    case Release(promiseId, expectedVersion) => IdBytes(promiseId) + U64Bytes(expectedVersion)
    case Replace(promiseId, expectedVersion, newBundle, newState) =>
      IdBytes(promiseId) + (U64Bytes(expectedVersion) + (BundleBytes(newBundle) + NewStateBytes(newState)))
    case ProcessExpirations => []
  }

  function OperationBytes(text: Text, operation: Operation): seq<byte> {
    [TagOf(operation)] + FieldBytes(text, operation)
  }

  predicate FitsVersion(version: int) {
    1 <= version <= U64_MAX
  }

  /** The operation's values lie in their machine types and pass their constructors. */
  ghost predicate FitsOperation(text: Text, operation: Operation) {
    match operation
    case CreateResourcePool(poolId, _, unit, curve) => FitsId(poolId) && FitsUnit(text, unit) && FitsCurve(curve)
    case ReviseCapacity(poolId, curve, _) => FitsId(poolId) && FitsCurve(curve)
    case Hold(promiseId, bundle, expiresAt) => FitsId(promiseId) && FitsBundle(bundle) && FitsI64(expiresAt)
    case HoldOneOf(promiseId, choice, expiresAt) => FitsId(promiseId) && FitsChoice(choice) && FitsI64(expiresAt)
    case HoldFirstSlot(promiseId, relative, earliest, latest, step, expiresAt) =>
      && FitsId(promiseId) && FitsRelative(relative)
      && FitsI64(earliest) && FitsI64(latest) && FitsI64(step) && FitsI64(expiresAt)
    case Commit(promiseId, expectedVersion) => FitsId(promiseId) && FitsVersion(expectedVersion)
    case Release(promiseId, expectedVersion) => FitsId(promiseId) && FitsVersion(expectedVersion)
    case Replace(promiseId, expectedVersion, newBundle, newState) =>
      && FitsId(promiseId) && FitsVersion(expectedVersion) && FitsBundle(newBundle)
      && (newState.ReplacedHeld? ==> FitsI64(newState.deadline))
    case ProcessExpirations => true
  }

  /** Every length fits its 32-bit prefix. */
  predicate SizedOperation(text: Text, operation: Operation) {
    match operation
    case CreateResourcePool(_, displayName, unit, curve) =>
      SizedString(text, displayName) && SizedString(text, unit.name) && |curve| <= U32_MAX
    case ReviseCapacity(_, curve, _) => |curve| <= U32_MAX
    case Hold(_, bundle, _) => |bundle| <= U32_MAX
    case HoldOneOf(_, choice, _) => SizedChoice(choice)
    case HoldFirstSlot(_, relative, _, _, _, _) => |relative| <= U32_MAX
    case Commit(_, _) => true
    case Release(_, _) => true
    case Replace(_, _, newBundle, _) => |newBundle| <= U32_MAX
    case ProcessExpirations => true
  }

  const ZERO_VERSION: StorageError := CorruptPayload("promise version must be non-zero")

  function ReadVersion(s: seq<byte>): (r: Read<int>)
    ensures NoTail(r)
  {
    var (version, rest) :- ReadU64(s);
    if version == 0 then Err(ZERO_VERSION) else Ok((version, rest))
  }

  lemma VersionReads(version: int, s: seq<byte>)
    requires FitsVersion(version) && Aligned(s, U64Bytes(version))
    ensures ReadVersion(s) == Expect(version, U64Bytes(version), s)
  {
    U64Reads(version, s);
  }

  function ReadMode(s: seq<byte>): (r: Read<RevisionMode>)
    ensures NoTail(r)
  {
    var (tag, rest) :- ReadByte(s);
    if tag == 1 then Ok((Strict, rest)) else if tag == 2 then Ok((Force, rest))
    else Err(InvalidTag("capacity revision mode", tag))
  }

  function ReadNewState(s: seq<byte>): (r: Read<ReplacementState>)
    ensures NoTail(r)
  {
    var (tag, rest) :- ReadByte(s);
    if tag == 1 then
      var (deadline, rest) :- ReadI64(rest);
      Ok((ReplacedHeld(deadline), rest))
    else if tag == 2 then Ok((ReplacedCommitted, rest))
    else Err(InvalidTag("replacement state", tag))
  }

  lemma NewStateReads(newState: ReplacementState, s: seq<byte>)
    requires newState.ReplacedHeld? ==> FitsI64(newState.deadline)
    requires Aligned(s, NewStateBytes(newState))
    ensures ReadNewState(s) == Expect(newState, NewStateBytes(newState), s)
  {
    hide Aligned, U64Bytes, ReadI64, ReadByte;
    match newState {
      case ReplacedHeld(deadline) =>
        AlignedSplit(s, [1], U64Bytes(deadline));
        ByteReads(1, s);
        if 1 <= |s| {
          I64Reads(deadline, s[1..]);
        }
      case ReplacedCommitted => ByteReads(2, s);
    }
  }

  function ReadCreate(text: Text, s: seq<byte>): (r: Read<Operation>)
    ensures NoTail(r)
  {
    var (poolId, rest) :- ReadId(s);
    var (displayName, rest) :- ReadString(text, rest);
    var (unit, rest) :- ReadUnit(text, rest);
    var (curve, rest) :- ReadCurve(rest);
    Ok((CreateResourcePool(poolId, displayName, unit, curve), rest))
  }

  function ReadRevise(s: seq<byte>): (r: Read<Operation>)
    ensures NoTail(r)
  {
    var (poolId, rest) :- ReadId(s);
    var (curve, rest) :- ReadCurve(rest);
    var (mode, rest) :- ReadMode(rest);
    Ok((ReviseCapacity(poolId, curve, mode), rest))
  }

  function ReadHold(s: seq<byte>): (r: Read<Operation>)
    ensures NoTail(r)
  {
    var (promiseId, rest) :- ReadId(s);
    var (bundle, rest) :- ReadBundle(rest);
    var (expiresAt, rest) :- ReadI64(rest);
    Ok((Hold(promiseId, bundle, expiresAt), rest))
  }

  function ReadHoldOneOf(s: seq<byte>): (r: Read<Operation>)
    ensures NoTail(r)
  {
    var (promiseId, rest) :- ReadId(s);
    var (choice, rest) :- ReadChoice(rest);
    var (expiresAt, rest) :- ReadI64(rest);
    Ok((HoldOneOf(promiseId, choice, expiresAt), rest))
  }

  function ReadHoldFirstSlot(s: seq<byte>): (r: Read<Operation>)
    ensures NoTail(r)
  {
    var (promiseId, rest) :- ReadId(s);
    var (relative, rest) :- ReadRelative(rest);
    var (earliest, rest) :- ReadI64(rest);
    var (latest, rest) :- ReadI64(rest);
    var (step, rest) :- ReadI64(rest);
    var (expiresAt, rest) :- ReadI64(rest);
    Ok((HoldFirstSlot(promiseId, relative, earliest, latest, step, expiresAt), rest))
  }

  function ReadCommit(s: seq<byte>): (r: Read<Operation>)
    ensures NoTail(r)
  {
    var (promiseId, rest) :- ReadId(s);
    var (expectedVersion, rest) :- ReadVersion(rest);
    Ok((Commit(promiseId, expectedVersion), rest))
  }

  function ReadRelease(s: seq<byte>): (r: Read<Operation>)
    ensures NoTail(r)
  {
    var (promiseId, rest) :- ReadId(s);
    var (expectedVersion, rest) :- ReadVersion(rest);
    Ok((Release(promiseId, expectedVersion), rest))
  }

  function ReadReplace(s: seq<byte>): (r: Read<Operation>)
    ensures NoTail(r)
  {
    var (promiseId, rest) :- ReadId(s);
    var (expectedVersion, rest) :- ReadVersion(rest);
    var (newBundle, rest) :- ReadBundle(rest);
    var (newState, rest) :- ReadNewState(rest);
    Ok((Replace(promiseId, expectedVersion, newBundle, newState), rest))
  }

  function ReadFields(text: Text, tag: byte, s: seq<byte>): (r: Read<Operation>)
    ensures NoTail(r)
  {
    if tag == CREATE_POOL then ReadCreate(text, s)
    else if tag == REVISE_CAPACITY then ReadRevise(s)
    else if tag == HOLD then ReadHold(s)
    else if tag == HOLD_ONE_OF then ReadHoldOneOf(s)
    else if tag == HOLD_FIRST_SLOT then ReadHoldFirstSlot(s)
    else if tag == COMMIT then ReadCommit(s)
    else if tag == RELEASE then ReadRelease(s)
    else if tag == REPLACE then ReadReplace(s)
    else if tag == PROCESS_EXPIRATIONS then Ok((ProcessExpirations, s))
    else Err(InvalidTag("command operation", tag))
  }

  function ReadOperation(text: Text, s: seq<byte>): (r: Read<Operation>)
    ensures NoTail(r)
  {
    var (tag, rest) :- ReadByte(s);
    ReadFields(text, tag, rest)
  }

  // ---- Reading operations back ----

  lemma CreateReads(text: Text, operation: Operation, s: seq<byte>)
    requires Lossless(text) && operation.CreateResourcePool? && FitsOperation(text, operation)
             && SizedOperation(text, operation)
    requires Aligned(s, FieldBytes(text, operation))
    ensures ReadCreate(text, s) == Expect(operation, FieldBytes(text, operation), s)
  {
    hide Aligned, IdBytes, ReadId, StringBytes, ReadString, UnitBytes, ReadUnit, CurveBytes, ReadCurve;
    var a := IdBytes(operation.poolId);
    var b := StringBytes(text, operation.displayName);
    var c := UnitBytes(text, operation.unit);
    var d := CurveBytes(operation.curve);
    AlignedSplit(s, a, b + (c + d));
    IdReads(operation.poolId, s);
    if |a| <= |s| {
      var s1 := s[|a|..];
      AlignedSplit(s1, b, c + d);
      StringReads(text, operation.displayName, s1);
      if |b| <= |s1| {
        var s2 := s1[|b|..];
        AlignedSplit(s2, c, d);
        UnitReads(text, operation.unit, s2);
        if |c| <= |s2| {
          var s3 := s2[|c|..];
          CurveReads(operation.curve, s3);
        }
      }
    }
  }

  lemma ModeReads(mode: RevisionMode, s: seq<byte>)
    requires Aligned(s, [ModeByte(mode)])
    ensures ReadMode(s) == Expect(mode, [ModeByte(mode)], s)
  {
    hide Aligned, ReadByte;
    ByteReads(ModeByte(mode), s);
  }

  lemma ReviseReads(text: Text, operation: Operation, s: seq<byte>)
    requires Lossless(text) && operation.ReviseCapacity? && FitsOperation(text, operation)
             && SizedOperation(text, operation)
    requires Aligned(s, FieldBytes(text, operation))
    ensures ReadRevise(s) == Expect(operation, FieldBytes(text, operation), s)
  {
    hide Aligned, IdBytes, ReadId, CurveBytes, ReadCurve, ReadMode;
    var a := IdBytes(operation.poolId);
    var b := CurveBytes(operation.curve);
    var c := [ModeByte(operation.mode)];
    AlignedSplit(s, a, b + c);
    IdReads(operation.poolId, s);
    if |a| <= |s| {
      var s1 := s[|a|..];
      AlignedSplit(s1, b, c);
      CurveReads(operation.curve, s1);
      if |b| <= |s1| {
        var s2 := s1[|b|..];
        ModeReads(operation.mode, s2);
      }
    }
  }

  lemma HoldReads(text: Text, operation: Operation, s: seq<byte>)
    requires Lossless(text) && operation.Hold? && FitsOperation(text, operation) && SizedOperation(text, operation)
    requires Aligned(s, FieldBytes(text, operation))
    ensures ReadHold(s) == Expect(operation, FieldBytes(text, operation), s)
  {
    hide Aligned, U64Bytes, ReadI64, IdBytes, ReadId, BundleBytes, ReadBundle;
    var a := IdBytes(operation.promiseId);
    var b := BundleBytes(operation.bundle);
    var c := U64Bytes(operation.expiresAt);
    AlignedSplit(s, a, b + c);
    IdReads(operation.promiseId, s);
    if |a| <= |s| {
      var s1 := s[|a|..];
      AlignedSplit(s1, b, c);
      BundleReads(operation.bundle, s1);
      if |b| <= |s1| {
        var s2 := s1[|b|..];
        I64Reads(operation.expiresAt, s2);
      }
    }
  }

  lemma HoldOneOfReads(text: Text, operation: Operation, s: seq<byte>)
    requires Lossless(text) && operation.HoldOneOf? && FitsOperation(text, operation) && SizedOperation(text, operation)
    requires Aligned(s, FieldBytes(text, operation))
    ensures ReadHoldOneOf(s) == Expect(operation, FieldBytes(text, operation), s)
  {
    hide Aligned, U64Bytes, ReadI64, IdBytes, ReadId, ChoiceBytes, ReadChoice;
    var a := IdBytes(operation.promiseId);
    var b := ChoiceBytes(operation.choice);
    var c := U64Bytes(operation.expiresAt);
    AlignedSplit(s, a, b + c);
    IdReads(operation.promiseId, s);
    if |a| <= |s| {
      var s1 := s[|a|..];
      AlignedSplit(s1, b, c);
      ChoiceReads(operation.choice, s1);
      if |b| <= |s1| {
        var s2 := s1[|b|..];
        I64Reads(operation.expiresAt, s2);
      }
    }
  }

  lemma HoldFirstSlotReads(text: Text, operation: Operation, s: seq<byte>)
    requires Lossless(text) && operation.HoldFirstSlot? && FitsOperation(text, operation)
             && SizedOperation(text, operation)
    requires Aligned(s, FieldBytes(text, operation))
    ensures ReadHoldFirstSlot(s) == Expect(operation, FieldBytes(text, operation), s)
  {
    hide Aligned, U64Bytes, ReadI64, IdBytes, ReadId, RelativeBytes, ReadRelative;
    var a := IdBytes(operation.promiseId);
    var b := RelativeBytes(operation.relative);
    var c := U64Bytes(operation.earliest);
    var d := U64Bytes(operation.latest);
    var e := U64Bytes(operation.step);
    var f := U64Bytes(operation.expiresAt);
    AlignedSplit(s, a, b + (c + (d + (e + f))));
    IdReads(operation.promiseId, s);
    if |a| <= |s| {
      var s1 := s[|a|..];
      AlignedSplit(s1, b, c + (d + (e + f)));
      RelativeReads(operation.relative, s1);
      if |b| <= |s1| {
        var s2 := s1[|b|..];
        AlignedSplit(s2, c, d + (e + f));
        I64Reads(operation.earliest, s2);
        if |c| <= |s2| {
          var s3 := s2[|c|..];
          AlignedSplit(s3, d, e + f);
          I64Reads(operation.latest, s3);
          if |d| <= |s3| {
            var s4 := s3[|d|..];
            AlignedSplit(s4, e, f);
            I64Reads(operation.step, s4);
            if |e| <= |s4| {
              var s5 := s4[|e|..];
              I64Reads(operation.expiresAt, s5);
            }
          }
        }
      }
    }
  }

  lemma CommitReads(text: Text, operation: Operation, s: seq<byte>)
    requires Lossless(text) && operation.Commit? && FitsOperation(text, operation) && SizedOperation(text, operation)
    requires Aligned(s, FieldBytes(text, operation))
    ensures ReadCommit(s) == Expect(operation, FieldBytes(text, operation), s)
  {
    hide Aligned, U64Bytes, IdBytes, ReadId, ReadVersion;
    var a := IdBytes(operation.promiseId);
    var b := U64Bytes(operation.expectedVersion);
    AlignedSplit(s, a, b);
    IdReads(operation.promiseId, s);
    if |a| <= |s| {
      var s1 := s[|a|..];
      VersionReads(operation.expectedVersion, s1);
    }
  }

  lemma ReleaseReads(text: Text, operation: Operation, s: seq<byte>)
    requires Lossless(text) && operation.Release? && FitsOperation(text, operation) && SizedOperation(text, operation)
    requires Aligned(s, FieldBytes(text, operation))
    ensures ReadRelease(s) == Expect(operation, FieldBytes(text, operation), s)
  {
    hide Aligned, U64Bytes, IdBytes, ReadId, ReadVersion;
    var a := IdBytes(operation.promiseId);
    var b := U64Bytes(operation.expectedVersion);
    AlignedSplit(s, a, b);
    IdReads(operation.promiseId, s);
    if |a| <= |s| {
      var s1 := s[|a|..];
      VersionReads(operation.expectedVersion, s1);
    }
  }

  lemma ReplaceReads(text: Text, operation: Operation, s: seq<byte>)
    requires Lossless(text) && operation.Replace? && FitsOperation(text, operation) && SizedOperation(text, operation)
    requires Aligned(s, FieldBytes(text, operation))
    ensures ReadReplace(s) == Expect(operation, FieldBytes(text, operation), s)
  {
    hide Aligned, U64Bytes, IdBytes, ReadId, BundleBytes, ReadBundle, ReadVersion, NewStateBytes, ReadNewState;
    var a := IdBytes(operation.promiseId);
    var b := U64Bytes(operation.expectedVersion);
    var c := BundleBytes(operation.newBundle);
    var d := NewStateBytes(operation.newState);
    AlignedSplit(s, a, b + (c + d));
    IdReads(operation.promiseId, s);
    if |a| <= |s| {
      var s1 := s[|a|..];
      AlignedSplit(s1, b, c + d);
      VersionReads(operation.expectedVersion, s1);
      if |b| <= |s1| {
        var s2 := s1[|b|..];
        AlignedSplit(s2, c, d);
        BundleReads(operation.newBundle, s2);
        if |c| <= |s2| {
          var s3 := s2[|c|..];
          NewStateReads(operation.newState, s3);
        }
      }
    }
  }

  lemma FieldsRead(text: Text, operation: Operation, s: seq<byte>)
    requires Lossless(text) && FitsOperation(text, operation) && SizedOperation(text, operation)
    requires Aligned(s, FieldBytes(text, operation))
    ensures ReadFields(text, TagOf(operation), s) == Expect(operation, FieldBytes(text, operation), s)
  {
    hide *;
    TagFields(text, operation, s);
    match operation {
      case CreateResourcePool(_, _, _, _) => CreateReads(text, operation, s);
      case ReviseCapacity(_, _, _) => ReviseReads(text, operation, s);
      case Hold(_, _, _) => HoldReads(text, operation, s);
      case HoldOneOf(_, _, _) => HoldOneOfReads(text, operation, s);
      case HoldFirstSlot(_, _, _, _, _, _) => HoldFirstSlotReads(text, operation, s);
      case Commit(_, _) => CommitReads(text, operation, s);
      case Release(_, _) => ReleaseReads(text, operation, s);
      case Replace(_, _, _, _) => ReplaceReads(text, operation, s);
      case ProcessExpirations =>
    }
  }

  /** The tag selects the reader of its own operation. */
  lemma TagFields(text: Text, operation: Operation, s: seq<byte>)
    ensures ReadFields(text, TagOf(operation), s)
            == match operation
               case CreateResourcePool(_, _, _, _) => ReadCreate(text, s)
               case ReviseCapacity(_, _, _) => ReadRevise(s)
               case Hold(_, _, _) => ReadHold(s)
               case HoldOneOf(_, _, _) => ReadHoldOneOf(s)
               case HoldFirstSlot(_, _, _, _, _, _) => ReadHoldFirstSlot(s)
               case Commit(_, _) => ReadCommit(s)
               case Release(_, _) => ReadRelease(s)
               case Replace(_, _, _, _) => ReadReplace(s)
               case ProcessExpirations => Expect(ProcessExpirations, [], s)
    ensures operation.ProcessExpirations? ==> FieldBytes(text, operation) == []
  {
    hide ReadCreate, ReadRevise, ReadHold, ReadHoldOneOf, ReadHoldFirstSlot, ReadCommit, ReadRelease, ReadReplace;
  }

  lemma OperationReads(text: Text, operation: Operation, s: seq<byte>)
    requires Lossless(text) && FitsOperation(text, operation) && SizedOperation(text, operation)
    requires Aligned(s, OperationBytes(text, operation))
    ensures ReadOperation(text, s) == Expect(operation, OperationBytes(text, operation), s)
  {
    hide Aligned, ReadByte, ReadFields, FieldBytes, TagOf;
    AlignedSplit(s, [TagOf(operation)], FieldBytes(text, operation));
    ByteReads(TagOf(operation), s);
    if 1 <= |s| {
      FieldsRead(text, operation, s[1..]);
    }
  }

  // ---- Commands ----

  function CommandBytes(text: Text, command: Command): seq<byte> {
    [COMMAND_FORMAT_VERSION]
    + (StringBytes(text, command.identity.clientId)
       + (StringBytes(text, command.identity.key) + OperationBytes(text, command.operation)))
  }

  predicate SizedCommand(text: Text, command: Command) {
    && SizedString(text, command.identity.clientId) && SizedString(text, command.identity.key)
    && SizedOperation(text, command.operation)
  }

  /** A command's payload, or why a length has no prefix. */
  function EncodeCommand(text: Text, command: Command): Result<seq<byte>, StorageError> {
    if SizedCommand(text, command) then Ok(CommandBytes(text, command)) else Err(OversizedField)
  }

  /** Fixed-width integers are written least significant byte first. */
  lemma IntegersLittleEndian()
    ensures U32Bytes(0x0102_0304) == [4, 3, 2, 1]
    ensures U64Bytes(0x0102_0304_0506_0708) == [8, 7, 6, 5, 4, 3, 2, 1]
  {
    hide LittleEndian;
    NextByte(0, 1, 1);
    NextByte(0x1, 2, 2);
    NextByte(0x0102, 3, 3);
    NextByte(0x0102_03, 4, 4);
    NextByte(0x0102_0304, 5, 5);
    NextByte(0x0102_0304_05, 6, 6);
    NextByte(0x0102_0304_0506, 7, 7);
    NextByte(0x0102_0304_0506_07, 8, 8);
    NoByte();
  }

  lemma NoByte()
    ensures LittleEndian(0, 0) == []
  {
  }

  /** The least significant byte comes first. */
  lemma NextByte(rest: nat, last: byte, width: nat)
    requires width > 0
    ensures LittleEndian(256 * rest + last, width) == [last] + LittleEndian(rest, width - 1)
  {
    hide LittleEndian;
    LittleStep(256 * rest + last, width);
  }

  lemma LittleStep(value: nat, width: nat)
    requires width > 0
    ensures LittleEndian(value, width) == [value % 256] + LittleEndian(value / 256, width - 1)
  {
  }

  /** The bytes of a whole command: version, client and key behind their lengths, and the operation's tag. */
  lemma ExpirationsLayout(text: Text, client: string, key: string)
    requires |text.encode(client)| < 256 && |text.encode(key)| < 256
    ensures CommandBytes(text, Command(Identity(client, key), ProcessExpirations))
            == [1] + [|text.encode(client)|, 0, 0, 0] + text.encode(client)
               + [|text.encode(key)|, 0, 0, 0] + text.encode(key) + [7]
  {
    SmallLength(|text.encode(client)|);
    SmallLength(|text.encode(key)|);
    hide U32Bytes;
  }

  lemma SmallLength(n: nat)
    requires n < 256
    ensures U32Bytes(n) == [n, 0, 0, 0]
  {
    assert LittleEndian(0, 3) == [0, 0, 0] by {
      assert LittleEndian(0, 2) == [0, 0];
    }
  }

  function ReadCommand(text: Text, s: seq<byte>): (r: Read<Command>)
    ensures NoTail(r)
  {
    var (version, rest) :- ReadByte(s);
    if version != COMMAND_FORMAT_VERSION then Err(UnsupportedPayload(version))
    else
      var (clientId, rest) :- ReadString(text, rest);
      var (key, rest) :- ReadString(text, rest);
      var (operation, rest) :- ReadOperation(text, rest);
      Ok((Command(Identity(clientId, key), operation), rest))
  }

  /** Reads a complete command payload; trailing bytes are rejected. */
  function DecodeCommand(text: Text, bytes: seq<byte>): (r: Result<Command, StorageError>)
    ensures NoTail(r)
  {
    var (command, rest) :- ReadCommand(text, bytes);
    if rest != [] then Err(CorruptPayload("trailing command payload bytes")) else Ok(command)
  }

  lemma CommandReads(text: Text, command: Command, s: seq<byte>)
    requires Lossless(text) && FitsOperation(text, command.operation) && SizedCommand(text, command)
    requires Aligned(s, CommandBytes(text, command))
    ensures ReadCommand(text, s) == Expect(command, CommandBytes(text, command), s)
  {
    hide Aligned, ReadByte, StringBytes, ReadString, OperationBytes, ReadOperation, FitsOperation, SizedOperation,
         SizedString;
    var a := [COMMAND_FORMAT_VERSION];
    var b := StringBytes(text, command.identity.clientId);
    var c := StringBytes(text, command.identity.key);
    var d := OperationBytes(text, command.operation);
    AlignedSplit(s, a, b + (c + d));
    ByteReads(COMMAND_FORMAT_VERSION, s);
    if |a| <= |s| {
      var s1 := s[|a|..];
      AlignedSplit(s1, b, c + d);
      StringReads(text, command.identity.clientId, s1);
      if |b| <= |s1| {
        var s2 := s1[|b|..];
        AlignedSplit(s2, c, d);
        StringReads(text, command.identity.key, s2);
        if |c| <= |s2| {
          OperationReads(text, command.operation, s2[|c|..]);
        }
      }
    }
  }

  /** Every command survives its payload. */
  lemma CommandRoundTrip(text: Text, command: Command)
    requires Lossless(text) && FitsOperation(text, command.operation) && EncodeCommand(text, command).Ok?
    ensures DecodeCommand(text, EncodeCommand(text, command).value) == Ok(command)
  {
    hide ReadCommand, CommandBytes;
    CommandReads(text, command, CommandBytes(text, command));
  }

  /** Every strict prefix of a command's payload is truncated, whatever it is cut in. */
  lemma CommandPrefixTruncated(text: Text, command: Command, k: nat)
    requires Lossless(text) && FitsOperation(text, command.operation) && EncodeCommand(text, command).Ok?
    requires k < |EncodeCommand(text, command).value|
    ensures DecodeCommand(text, EncodeCommand(text, command).value[..k]) == Err(TruncatedPayload)
  {
    hide ReadCommand, CommandBytes;
    CommandReads(text, command, CommandBytes(text, command)[..k]);
  }
}
