/** Responses as payload fields: identities, conflicts, deficits, results and domain errors. */
module ResponsePayloads {
  import opened Results
  import opened Bytes
  import opened Intervals
  import opened CapacityCurves
  import opened Domain
  import opened WalRecords
  import opened Payloads
  import opened CommandPayloads

  // ---- Identities ----

  function IdParts(ids: seq<int>): (parts: seq<seq<byte>>)
    ensures |parts| == |ids| && forall i :: 0 <= i < |ids| ==> parts[i] == IdBytes(ids[i])
  {
    seq(|ids|, i requires 0 <= i < |ids| => IdBytes(ids[i]))
  }

  function IdsBytes(ids: seq<int>): seq<byte> {
    ListBytes(IdParts(ids))
  }

  predicate Below(earlier: int, later: int) {
    earlier < later
  }

  predicate FitsIds(ids: seq<int>) {
    (forall i :: 0 <= i < |ids| ==> FitsId(ids[i])) && forall i :: 0 < i < |ids| ==> Below(ids[i - 1], ids[i])
  }

  const UNSORTED_IDS: StorageError := CorruptPayload("promise IDs are not sorted and unique")

  function ReadIds(s: seq<byte>): (r: Read<seq<int>>)
    ensures NoTail(r)
  {
    ReadList(ReadId, Below, UNSORTED_IDS, s)
  }

  lemma IdsRead(ids: seq<int>, s: seq<byte>)
    requires FitsIds(ids) && |ids| <= U32_MAX && Aligned(s, IdsBytes(ids))
    ensures ReadIds(s) == Expect(ids, IdsBytes(ids), s)
  {
    hide Aligned, ListBytes, ReadList, IdBytes, ReadId;
    forall i | 0 <= i < |ids|
      ensures Codes(ReadId, ids[i], IdParts(ids)[i])
    {
      forall s' | Aligned(s', IdBytes(ids[i]))
        ensures ReadId(s') == Expect(ids[i], IdBytes(ids[i]), s')
      {
        IdReads(ids[i], s');
      }
    }
    ListReads(ReadId, Below, UNSORTED_IDS, ids, IdParts(ids), s);
  }

  // ---- Conflicts and deficits ----

  /** Required, available and missing quantities. */
  function AmountBytes(required: int, available: int, deficit: int): (bytes: seq<byte>)
    ensures |bytes| == 24
  {
    U64Bytes(required) + (U64Bytes(available) + U64Bytes(deficit))
  }

  function ReadAmounts(s: seq<byte>): (r: Read<(int, int, int)>)
    ensures NoTail(r)
  {
    var (required, rest) :- ReadU64(s);
    var (available, rest) :- ReadU64(rest);
    var (deficit, rest) :- ReadU64(rest);
    Ok(((required, available, deficit), rest))
  }

  lemma AmountsRead(required: int, available: int, deficit: int, s: seq<byte>)
    requires FitsU64(required) && FitsU64(available) && FitsU64(deficit)
    requires Aligned(s, AmountBytes(required, available, deficit))
    ensures ReadAmounts(s) == Expect((required, available, deficit), AmountBytes(required, available, deficit), s)
  {
    hide Aligned, U64Bytes, ReadU64;
    var a := U64Bytes(required);
    var b := U64Bytes(available);
    var c := U64Bytes(deficit);
    AlignedSplit(s, a, b + c);
    U64Reads(required, s);
    if |a| <= |s| {
      var s1 := s[|a|..];
      AlignedSplit(s1, b, c);
      U64Reads(available, s1);
      if |b| <= |s1| {
        var s2 := s1[|b|..];
        U64Reads(deficit, s2);
      }
    }
  }

  function ConflictBytes(conflict: AvailabilityConflict): seq<byte> {
    IdBytes(conflict.poolId)
    + (IntervalBytes(conflict.interval)
       + (AmountBytes(conflict.required, conflict.available, conflict.deficit) + IdsBytes(conflict.promiseIds)))
  }

  /** What restoring a conflict accepts. */
  predicate FitsConflict(conflict: AvailabilityConflict) {
    && FitsId(conflict.poolId) && FitsInterval(conflict.interval) && FitsIds(conflict.promiseIds)
    && FitsU64(conflict.required) && FitsU64(conflict.available) && FitsU64(conflict.deficit)
    && conflict.required > conflict.available && conflict.required - conflict.available == conflict.deficit
  }

  function ReadConflict(s: seq<byte>): (r: Read<AvailabilityConflict>)
    ensures NoTail(r)
  {
    var (poolId, rest) :- ReadId(s);
    var (interval, rest) :- ReadInterval(rest);
    var ((required, available, deficit), rest) :- ReadAmounts(rest);
    var (promiseIds, rest) :- ReadIds(rest);
    if required > available && required - available == deficit
    then Ok((AvailabilityConflict(poolId, interval, required, available, deficit, promiseIds), rest))
    else Err(CorruptPayload("invalid availability conflict"))
  }

  lemma ConflictReads(conflict: AvailabilityConflict, s: seq<byte>)
    requires FitsConflict(conflict) && |conflict.promiseIds| <= U32_MAX && Aligned(s, ConflictBytes(conflict))
    ensures ReadConflict(s) == Expect(conflict, ConflictBytes(conflict), s)
  {
    hide Aligned, AmountBytes, ReadAmounts, IdBytes, ReadId, IntervalBytes, ReadInterval, IdsBytes, ReadIds, FitsIds,
         FitsInterval;
    var a := IdBytes(conflict.poolId);
    var b := IntervalBytes(conflict.interval);
    var c := AmountBytes(conflict.required, conflict.available, conflict.deficit);
    var d := IdsBytes(conflict.promiseIds);
    AlignedSplit(s, a, b + (c + d));
    IdReads(conflict.poolId, s);
    if |a| <= |s| {
      var s1 := s[|a|..];
      AlignedSplit(s1, b, c + d);
      IntervalReads(conflict.interval, s1);
      if |b| <= |s1| {
        var s2 := s1[|b|..];
        AlignedSplit(s2, c, d);
        AmountsRead(conflict.required, conflict.available, conflict.deficit, s2);
        if |c| <= |s2| {
          var s3 := s2[|c|..];
          IdsRead(conflict.promiseIds, s3);
        }
      }
    }
  }

  function ConflictParts(conflicts: seq<AvailabilityConflict>): (parts: seq<seq<byte>>)
    ensures |parts| == |conflicts| && forall i :: 0 <= i < |conflicts| ==> parts[i] == ConflictBytes(conflicts[i])
  {
    seq(|conflicts|, i requires 0 <= i < |conflicts| => ConflictBytes(conflicts[i]))
  }

  function ConflictsBytes(conflicts: seq<AvailabilityConflict>): seq<byte> {
    ListBytes(ConflictParts(conflicts))
  }

  predicate FitsConflicts(conflicts: seq<AvailabilityConflict>) {
    conflicts != [] && forall i :: 0 <= i < |conflicts| ==> FitsConflict(conflicts[i])
  }

  predicate SizedConflicts(conflicts: seq<AvailabilityConflict>) {
    |conflicts| <= U32_MAX && forall i :: 0 <= i < |conflicts| ==> |conflicts[i].promiseIds| <= U32_MAX
  }

  function ReadConflicts(s: seq<byte>): (r: Read<seq<AvailabilityConflict>>)
    ensures NoTail(r)
  {
    var (conflicts, rest) :- ReadList(ReadConflict, AnyOrder<AvailabilityConflict>, UNORDERED, s);
    if conflicts == [] then Err(CorruptPayload("empty unavailable conflict list")) else Ok((conflicts, rest))
  }

  lemma ConflictsRead(conflicts: seq<AvailabilityConflict>, s: seq<byte>)
    requires FitsConflicts(conflicts) && SizedConflicts(conflicts) && Aligned(s, ConflictsBytes(conflicts))
    ensures ReadConflicts(s) == Expect(conflicts, ConflictsBytes(conflicts), s)
  {
    hide Aligned, ListBytes, ReadList, ConflictBytes, ReadConflict, FitsConflict;
    forall i | 0 <= i < |conflicts|
      ensures Codes(ReadConflict, conflicts[i], ConflictParts(conflicts)[i])
    {
      forall s' | Aligned(s', ConflictBytes(conflicts[i]))
        ensures ReadConflict(s') == Expect(conflicts[i], ConflictBytes(conflicts[i]), s')
      {
        ConflictReads(conflicts[i], s');
      }
    }
    ListReads(ReadConflict, AnyOrder<AvailabilityConflict>, UNORDERED, conflicts, ConflictParts(conflicts), s);
  }

  function DeficitBytes(deficit: CapacityDeficit): seq<byte> {
    IdBytes(deficit.poolId)
    + (IntervalBytes(deficit.interval) + (U64Bytes(deficit.quantity) + IdsBytes(deficit.promiseIds)))
  }

  /** What restoring a deficit accepts. */
  predicate FitsDeficit(deficit: CapacityDeficit) {
    && FitsId(deficit.poolId) && FitsInterval(deficit.interval) && FitsIds(deficit.promiseIds)
    && 0 < deficit.quantity <= U64_MAX
  }

  function ReadDeficit(s: seq<byte>): (r: Read<CapacityDeficit>)
    ensures NoTail(r)
  {
    var (poolId, rest) :- ReadId(s);
    var (interval, rest) :- ReadInterval(rest);
    var (quantity, rest) :- ReadU64(rest);
    var (promiseIds, rest) :- ReadIds(rest);
    if quantity > 0 then Ok((CapacityDeficit(poolId, interval, quantity, promiseIds), rest))
    else Err(CorruptPayload("invalid capacity deficit"))
  }

  lemma DeficitReads(deficit: CapacityDeficit, s: seq<byte>)
    requires FitsDeficit(deficit) && |deficit.promiseIds| <= U32_MAX && Aligned(s, DeficitBytes(deficit))
    ensures ReadDeficit(s) == Expect(deficit, DeficitBytes(deficit), s)
  {
    hide Aligned, U64Bytes, ReadU64, IdBytes, ReadId, IntervalBytes, ReadInterval, IdsBytes, ReadIds, FitsIds,
         FitsInterval;
    var a := IdBytes(deficit.poolId);
    var b := IntervalBytes(deficit.interval);
    var c := U64Bytes(deficit.quantity);
    var d := IdsBytes(deficit.promiseIds);
    AlignedSplit(s, a, b + (c + d));
    IdReads(deficit.poolId, s);
    if |a| <= |s| {
      var s1 := s[|a|..];
      AlignedSplit(s1, b, c + d);
      IntervalReads(deficit.interval, s1);
      if |b| <= |s1| {
        var s2 := s1[|b|..];
        AlignedSplit(s2, c, d);
        U64Reads(deficit.quantity, s2);
        if |c| <= |s2| {
          var s3 := s2[|c|..];
          IdsRead(deficit.promiseIds, s3);
        }
      }
    }
  }

  function DeficitParts(deficits: seq<CapacityDeficit>): (parts: seq<seq<byte>>)
    ensures |parts| == |deficits| && forall i :: 0 <= i < |deficits| ==> parts[i] == DeficitBytes(deficits[i])
  {
    seq(|deficits|, i requires 0 <= i < |deficits| => DeficitBytes(deficits[i]))
  }

  function DeficitsBytes(deficits: seq<CapacityDeficit>): seq<byte> {
    ListBytes(DeficitParts(deficits))
  }

  predicate FitsDeficits(deficits: seq<CapacityDeficit>) {
    forall i :: 0 <= i < |deficits| ==> FitsDeficit(deficits[i])
  }

  predicate SizedDeficits(deficits: seq<CapacityDeficit>) {
    |deficits| <= U32_MAX && forall i :: 0 <= i < |deficits| ==> |deficits[i].promiseIds| <= U32_MAX
  }

  function ReadDeficits(s: seq<byte>): (r: Read<seq<CapacityDeficit>>)
    ensures NoTail(r)
  {
    ReadList(ReadDeficit, AnyOrder<CapacityDeficit>, UNORDERED, s)
  }

  lemma DeficitsRead(deficits: seq<CapacityDeficit>, s: seq<byte>)
    requires FitsDeficits(deficits) && SizedDeficits(deficits) && Aligned(s, DeficitsBytes(deficits))
    ensures ReadDeficits(s) == Expect(deficits, DeficitsBytes(deficits), s)
  {
    hide Aligned, ListBytes, ReadList, DeficitBytes, ReadDeficit, FitsDeficit;
    forall i | 0 <= i < |deficits|
      ensures Codes(ReadDeficit, deficits[i], DeficitParts(deficits)[i])
    {
      forall s' | Aligned(s', DeficitBytes(deficits[i]))
        ensures ReadDeficit(s') == Expect(deficits[i], DeficitBytes(deficits[i]), s')
      {
        DeficitReads(deficits[i], s');
      }
    }
    ListReads(ReadDeficit, AnyOrder<CapacityDeficit>, UNORDERED, deficits, DeficitParts(deficits), s);
  }

  // ---- Alternatives of an unavailable choice ----

  function AlternativeBytes(conflict: ChoiceConflict): seq<byte> {
    U32Bytes(conflict.alternative) + ConflictsBytes(conflict.conflicts)
  }

  function AlternativeParts(alternatives: seq<ChoiceConflict>): (parts: seq<seq<byte>>)
    ensures |parts| == |alternatives|
            && forall i :: 0 <= i < |alternatives| ==> parts[i] == AlternativeBytes(alternatives[i])
  {
    seq(|alternatives|, i requires 0 <= i < |alternatives| => AlternativeBytes(alternatives[i]))
  }

  function AlternativesBytes(alternatives: seq<ChoiceConflict>): seq<byte> {
    ListBytes(AlternativeParts(alternatives))
  }

  /** Alternatives are numbered from zero, each with conflicts. */
  predicate FitsAlternatives(alternatives: seq<ChoiceConflict>) {
    && alternatives != []
    && forall i :: 0 <= i < |alternatives| ==>
                     alternatives[i].alternative == i && FitsConflicts(alternatives[i].conflicts)
  }

  predicate SizedAlternatives(alternatives: seq<ChoiceConflict>) {
    |alternatives| <= U32_MAX && forall i :: 0 <= i < |alternatives| ==> SizedConflicts(alternatives[i].conflicts)
  }

  function ReadAlternative(expected: nat, s: seq<byte>): (r: Read<ChoiceConflict>)
    ensures NoTail(r)
  {
    var (index, rest) :- ReadU32(s);
    if index != expected then Err(CorruptPayload("non-canonical choice conflict index"))
    else
      var (conflicts, rest) :- ReadConflicts(rest);
      Ok((ChoiceConflict(index, conflicts), rest))
  }

  function ReadManyAlternatives(n: nat, s: seq<byte>): (r: Read<seq<ChoiceConflict>>)
    ensures NoTail(r)
  {
    if n == 0 then Ok(([], s))
    else
      var (earlier, rest) :- ReadManyAlternatives(n - 1, s);
      var (alternative, rest) :- ReadAlternative(n - 1, rest);
      Ok((earlier + [alternative], rest))
  }

  function ReadAlternatives(s: seq<byte>): (r: Read<seq<ChoiceConflict>>)
    ensures NoTail(r)
  {
    var (n, rest) :- ReadU32(s);
    if n == 0 then Err(CorruptPayload("empty choice conflict list")) else ReadManyAlternatives(n, rest)
  }

  lemma AlternativeReads(conflict: ChoiceConflict, s: seq<byte>)
    requires 0 <= conflict.alternative <= U32_MAX && FitsConflicts(conflict.conflicts)
             && SizedConflicts(conflict.conflicts)
    requires Aligned(s, AlternativeBytes(conflict))
    ensures ReadAlternative(conflict.alternative, s) == Expect(conflict, AlternativeBytes(conflict), s)
  {
    hide Aligned, U32Bytes, ReadU32, ConflictsBytes, ReadConflicts, FitsConflicts, SizedConflicts;
    var a := U32Bytes(conflict.alternative);
    var b := ConflictsBytes(conflict.conflicts);
    AlignedSplit(s, a, b);
    U32Reads(conflict.alternative, s);
    if |a| <= |s| {
      var s1 := s[|a|..];
      ConflictsRead(conflict.conflicts, s1);
    }
  }

  lemma {:induction false} ManyAlternativesRead(alternatives: seq<ChoiceConflict>, n: nat, s: seq<byte>)
    requires FitsAlternatives(alternatives) && SizedAlternatives(alternatives) && n <= |alternatives|
    requires Aligned(s, Flatten(AlternativeParts(alternatives)[..n]))
    ensures ReadManyAlternatives(n, s) == Expect(alternatives[..n], Flatten(AlternativeParts(alternatives)[..n]), s)
  {
    hide Aligned, AlternativeBytes, ReadAlternative, FitsConflicts, SizedConflicts;
    if n > 0 {
      var parts := AlternativeParts(alternatives);
      assert parts[..n][..n - 1] == parts[..n - 1];
      var earlier := Flatten(parts[..n - 1]);
      AlignedSplit(s, earlier, parts[n - 1]);
      ManyAlternativesRead(alternatives, n - 1, s);
      if |earlier| <= |s| {
        AlternativeReads(alternatives[n - 1], s[|earlier|..]);
        assert alternatives[..n] == alternatives[..n - 1] + [alternatives[n - 1]];
      }
    }
  }

  lemma AlternativesRead(alternatives: seq<ChoiceConflict>, s: seq<byte>)
    requires FitsAlternatives(alternatives) && SizedAlternatives(alternatives)
             && Aligned(s, AlternativesBytes(alternatives))
    ensures ReadAlternatives(s) == Expect(alternatives, AlternativesBytes(alternatives), s)
  {
    hide Aligned, U32Bytes, ReadU32, Flatten, ReadManyAlternatives;
    var parts := AlternativeParts(alternatives);
    AlignedSplit(s, U32Bytes(|parts|), Flatten(parts));
    U32Reads(|parts|, s);
    if 4 <= |s| {
      assert parts[..|parts|] == parts && alternatives[..|parts|] == alternatives;
      ManyAlternativesRead(alternatives, |parts|, s[4..]);
    }
  }

  // ---- Responses ----

  /** Error tags count from one. */
  function ErrorTag(error: DomainError): byte {
    match error
    case InvalidInterval => 1
    case UnsortedCapacitySegments => 2
    case OverlappingCapacitySegments => 3
    case InvalidUnitName => 4
    case InvalidUnitScale => 5
    case InvalidQuantity => 6
    case QuantityOutOfRange => 7
    case QuantityOverflow => 8
    case IndexOverflow => 9
    case InvalidExpiration => 10
    case EmptyBundle => 11
    case EmptyRelativeBundle => 12
    case EmptyChoice => 13
    case InvalidSearchRange => 14
    case InvalidStep => 15
    case TimestampOverflow => 16
    case ResourcePoolAlreadyExists => 17
    case ResourcePoolNotFound => 18
    case CapacityExceeded => 19
    case CapacityRevisionCreatesDeficit => 20
    case PromiseAlreadyExists => 21
    case PromiseNotFound => 22
    case InvalidPromiseState => 23
    case IdempotencyConflict => 24
    case VersionConflict => 25
    case VersionOverflow => 26
    case SequenceOverflow => 27
    case SystemTimeOutOfRange => 28
    case HoldExpired => 29
    case HoldNotExpired => 30
    case InvalidPromiseHistory => 31
    case PublicationRevisionOverflow => 32
  }

  function ErrorOf(tag: byte): Option<DomainError> {
    match tag
    case 1 => Some(DomainError.InvalidInterval)
    case 2 => Some(DomainError.UnsortedCapacitySegments)
    case 3 => Some(DomainError.OverlappingCapacitySegments)
    case 4 => Some(DomainError.InvalidUnitName)
    case 5 => Some(DomainError.InvalidUnitScale)
    case 6 => Some(DomainError.InvalidQuantity)
    case 7 => Some(DomainError.QuantityOutOfRange)
    case 8 => Some(DomainError.QuantityOverflow)
    case 9 => Some(DomainError.IndexOverflow)
    case 10 => Some(DomainError.InvalidExpiration)
    case 11 => Some(DomainError.EmptyBundle)
    case 12 => Some(DomainError.EmptyRelativeBundle)
    case 13 => Some(DomainError.EmptyChoice)
    case 14 => Some(DomainError.InvalidSearchRange)
    case 15 => Some(DomainError.InvalidStep)
    case 16 => Some(DomainError.TimestampOverflow)
    case 17 => Some(DomainError.ResourcePoolAlreadyExists)
    case 18 => Some(DomainError.ResourcePoolNotFound)
    case 19 => Some(DomainError.CapacityExceeded)
    case 20 => Some(DomainError.CapacityRevisionCreatesDeficit)
    case 21 => Some(DomainError.PromiseAlreadyExists)
    case 22 => Some(DomainError.PromiseNotFound)
    case 23 => Some(DomainError.InvalidPromiseState)
    case 24 => Some(DomainError.IdempotencyConflict)
    case 25 => Some(DomainError.VersionConflict)
    case 26 => Some(DomainError.VersionOverflow)
    case 27 => Some(DomainError.SequenceOverflow)
    case 28 => Some(DomainError.SystemTimeOutOfRange)
    case 29 => Some(DomainError.HoldExpired)
    case 30 => Some(DomainError.HoldNotExpired)
    case 31 => Some(DomainError.InvalidPromiseHistory)
    case 32 => Some(DomainError.PublicationRevisionOverflow)
    case _ => None
  }

  lemma ErrorTagged(error: DomainError)
    ensures ErrorOf(ErrorTag(error)) == Some(error)
  {
  }

  function ReadError(s: seq<byte>): (r: Read<DomainError>)
    ensures NoTail(r)
  {
    var (tag, rest) :- ReadByte(s);
    if ErrorOf(tag).Some? then Ok((ErrorOf(tag).value, rest)) else Err(InvalidTag("domain error", tag))
  }

  lemma ErrorReads(error: DomainError, s: seq<byte>)
    requires Aligned(s, [ErrorTag(error)])
    ensures ReadError(s) == Expect(error, [ErrorTag(error)], s)
  {
    hide Aligned, ReadByte, ErrorTag, ErrorOf;
    ErrorTagged(error);
    ByteReads(ErrorTag(error), s);
  }

  function ResultTag(result: CommandResult): byte {
    match result
    case ResourcePoolCreated(_) => 1
    case CapacityRevised(_, _, _) => 2
    case HoldHeld(_) => 3
    case HoldUnavailable(_) => 3
    case ChoiceHeld(_, _) => 4
    case ChoiceUnavailable(_) => 4
    case SlotHeld(_, _) => 5
    case SlotUnavailable(_) => 5
    case PromiseCommitted(_, _) => 6
    case PromiseReleased(_, _) => 7
    case PromiseReplaced(_, _) => 8
    case ReplaceUnavailable(_) => 8
    case ExpirationsProcessed(_) => 9
  }

  function VersionedBytes(promiseId: int, version: int): seq<byte> {
    IdBytes(promiseId) + U64Bytes(version)
  }

  /** The fields behind a result's tag; outcomes start with a tag of their own. */
  function ResultFields(result: CommandResult): seq<byte> {
    match result
    case ResourcePoolCreated(poolId) => IdBytes(poolId)
    case CapacityRevised(sequence, deficits, promiseIds) =>
      U64Bytes(sequence) + (DeficitsBytes(deficits) + IdsBytes(promiseIds))
    case HoldHeld(promiseId) => [1] + IdBytes(promiseId)
    case HoldUnavailable(conflicts) => [2] + ConflictsBytes(conflicts)
    case ChoiceHeld(promiseId, alternative) => [1] + (IdBytes(promiseId) + U32Bytes(alternative))
    case ChoiceUnavailable(alternatives) => [2] + AlternativesBytes(alternatives)
    case SlotHeld(promiseId, start) => [1] + (IdBytes(promiseId) + U64Bytes(start))
    case SlotUnavailable(attempts) => [2] + U128Bytes(attempts)
    case PromiseCommitted(promiseId, version) => VersionedBytes(promiseId, version)
    case PromiseReleased(promiseId, version) => VersionedBytes(promiseId, version)
    case PromiseReplaced(promiseId, version) => [1] + VersionedBytes(promiseId, version)
    case ReplaceUnavailable(conflicts) => [2] + ConflictsBytes(conflicts)
    case ExpirationsProcessed(count) => U64Bytes(count)
  }

  /** What restoring a result accepts. */
  predicate FitsResult(result: CommandResult) {
    match result
    case ResourcePoolCreated(poolId) => FitsId(poolId)
    case CapacityRevised(sequence, deficits, promiseIds) =>
      0 < sequence <= U64_MAX && FitsDeficits(deficits) && FitsIds(promiseIds)
    case HoldHeld(promiseId) => FitsId(promiseId)
    case HoldUnavailable(conflicts) => FitsConflicts(conflicts)
    case ChoiceHeld(promiseId, alternative) => FitsId(promiseId) && 0 <= alternative
    case ChoiceUnavailable(alternatives) => FitsAlternatives(alternatives)
    case SlotHeld(promiseId, start) => FitsId(promiseId) && FitsI64(start)
    case SlotUnavailable(attempts) => 0 < attempts <= U128_MAX
    case PromiseCommitted(promiseId, version) => FitsId(promiseId) && FitsVersion(version)
    case PromiseReleased(promiseId, version) => FitsId(promiseId) && FitsVersion(version)
    case PromiseReplaced(promiseId, version) => FitsId(promiseId) && FitsVersion(version)
    case ReplaceUnavailable(conflicts) => FitsConflicts(conflicts)
    case ExpirationsProcessed(count) => FitsU64(count)
  }

  predicate SizedResult(result: CommandResult) {
    match result
    case CapacityRevised(_, deficits, promiseIds) => SizedDeficits(deficits) && |promiseIds| <= U32_MAX
    case HoldUnavailable(conflicts) => SizedConflicts(conflicts)
    case ChoiceHeld(_, alternative) => alternative <= U32_MAX
    case ChoiceUnavailable(alternatives) => SizedAlternatives(alternatives)
    case ReplaceUnavailable(conflicts) => SizedConflicts(conflicts)
    case _ => true
  }

  const ZERO_PROMISE_VERSION: StorageError := CorruptPayload("zero promise version")

  function ReadPromiseVersion(s: seq<byte>): (r: Read<int>)
    ensures NoTail(r)
  {
    var (version, rest) :- ReadU64(s);
    if version == 0 then Err(ZERO_PROMISE_VERSION) else Ok((version, rest))
  }

  function ReadPoolCreated(s: seq<byte>): (r: Read<CommandResult>)
    ensures NoTail(r)
  {
    var (poolId, rest) :- ReadId(s);
    Ok((ResourcePoolCreated(poolId), rest))
  }

  function ReadRevised(s: seq<byte>): (r: Read<CommandResult>)
    ensures NoTail(r)
  {
    var (sequence, rest) :- ReadU64(s);
    var (deficits, rest) :- ReadDeficits(rest);
    var (promiseIds, rest) :- ReadIds(rest);
    if sequence > 0 then Ok((CapacityRevised(sequence, deficits, promiseIds), rest))
    else Err(CorruptPayload("invalid capacity revision outcome"))
  }

  function ReadHoldResult(s: seq<byte>): (r: Read<CommandResult>)
    ensures NoTail(r)
  {
    var (tag, rest) :- ReadByte(s);
    if tag == 1 then
      var (promiseId, rest) :- ReadId(rest);
      Ok((HoldHeld(promiseId), rest))
    else if tag == 2 then
      var (conflicts, rest) :- ReadConflicts(rest);
      Ok((HoldUnavailable(conflicts), rest))
    else Err(InvalidTag("hold outcome", tag))
  }

  function ReadChoiceResult(s: seq<byte>): (r: Read<CommandResult>)
    ensures NoTail(r)
  {
    var (tag, rest) :- ReadByte(s);
    if tag == 1 then
      var (promiseId, rest) :- ReadId(rest);
      var (alternative, rest) :- ReadU32(rest);
      Ok((ChoiceHeld(promiseId, alternative), rest))
    else if tag == 2 then
      var (alternatives, rest) :- ReadAlternatives(rest);
      Ok((ChoiceUnavailable(alternatives), rest))
    else Err(InvalidTag("choice outcome", tag))
  }

  function ReadSlotResult(s: seq<byte>): (r: Read<CommandResult>)
    ensures NoTail(r)
  {
    var (tag, rest) :- ReadByte(s);
    if tag == 1 then
      var (promiseId, rest) :- ReadId(rest);
      var (start, rest) :- ReadI64(rest);
      Ok((SlotHeld(promiseId, start), rest))
    else if tag == 2 then
      var (attempts, rest) :- ReadU128(rest);
      if attempts == 0 then Err(CorruptPayload("zero slot attempts")) else Ok((SlotUnavailable(attempts), rest))
    else Err(InvalidTag("slot outcome", tag))
  }

  function ReadVersioned(s: seq<byte>): (r: Read<(int, int)>)
    ensures NoTail(r)
  {
    var (promiseId, rest) :- ReadId(s);
    var (version, rest) :- ReadPromiseVersion(rest);
    Ok(((promiseId, version), rest))
  }

  function ReadCommitted(s: seq<byte>): (r: Read<CommandResult>)
    ensures NoTail(r)
  {
    var (found, rest) :- ReadVersioned(s);
    Ok((PromiseCommitted(found.0, found.1), rest))
  }

  function ReadReleased(s: seq<byte>): (r: Read<CommandResult>)
    ensures NoTail(r)
  {
    var (found, rest) :- ReadVersioned(s);
    Ok((PromiseReleased(found.0, found.1), rest))
  }

  function ReadReplaceResult(s: seq<byte>): (r: Read<CommandResult>)
    ensures NoTail(r)
  {
    var (tag, rest) :- ReadByte(s);
    if tag == 1 then
      var (found, rest) :- ReadVersioned(rest);
      Ok((PromiseReplaced(found.0, found.1), rest))
    else if tag == 2 then
      var (conflicts, rest) :- ReadConflicts(rest);
      Ok((ReplaceUnavailable(conflicts), rest))
    else Err(InvalidTag("replace outcome", tag))
  }

  function ReadExpirations(s: seq<byte>): (r: Read<CommandResult>)
    ensures NoTail(r)
  {
    var (count, rest) :- ReadU64(s);
    Ok((ExpirationsProcessed(count), rest))
  }

  function ReadResultFields(tag: byte, s: seq<byte>): (r: Read<CommandResult>)
    ensures NoTail(r)
  {
    if tag == 1 then ReadPoolCreated(s)
    else if tag == 2 then ReadRevised(s)
    else if tag == 3 then ReadHoldResult(s)
    else if tag == 4 then ReadChoiceResult(s)
    else if tag == 5 then ReadSlotResult(s)
    else if tag == 6 then ReadCommitted(s)
    else if tag == 7 then ReadReleased(s)
    else if tag == 8 then ReadReplaceResult(s)
    else if tag == 9 then ReadExpirations(s)
    else Err(InvalidTag("command result", tag))
  }

  function ReadResult(s: seq<byte>): (r: Read<CommandResult>)
    ensures NoTail(r)
  {
    var (tag, rest) :- ReadByte(s);
    ReadResultFields(tag, rest)
  }

  function ResultBytes(result: CommandResult): seq<byte> {
    [ResultTag(result)] + ResultFields(result)
  }

  function ResponseBytes(response: Response): seq<byte> {
    match response
    case Ok(result) => [1] + ResultBytes(result)
    case Err(error) => [2] + [ErrorTag(error)]
  }

  predicate FitsResponse(response: Response) {
    response.Ok? ==> FitsResult(response.value)
  }

  predicate SizedResponse(response: Response) {
    response.Ok? ==> SizedResult(response.value)
  }

  function ReadResponse(s: seq<byte>): (r: Read<Response>)
    ensures NoTail(r)
  {
    var (tag, rest) :- ReadByte(s);
    if tag == 1 then
      var (result, rest) :- ReadResult(rest);
      Ok((Ok(result), rest))
    else if tag == 2 then
      var (error, rest) :- ReadError(rest);
      Ok((Err(error), rest))
    else Err(InvalidTag("command response", tag))
  }

  lemma PromiseVersionReads(version: int, s: seq<byte>)
    requires FitsVersion(version) && Aligned(s, U64Bytes(version))
    ensures ReadPromiseVersion(s) == Expect(version, U64Bytes(version), s)
  {
    U64Reads(version, s);
  }

  lemma VersionedReads(promiseId: int, version: int, s: seq<byte>)
    requires FitsId(promiseId) && FitsVersion(version) && Aligned(s, VersionedBytes(promiseId, version))
    ensures ReadVersioned(s) == Expect((promiseId, version), VersionedBytes(promiseId, version), s)
  {
    hide Aligned, U64Bytes, IdBytes, ReadId, ReadPromiseVersion;
    var a := IdBytes(promiseId);
    var b := U64Bytes(version);
    AlignedSplit(s, a, b);
    IdReads(promiseId, s);
    if |a| <= |s| {
      var s1 := s[|a|..];
      PromiseVersionReads(version, s1);
    }
  }

  lemma PoolCreatedReads(result: CommandResult, s: seq<byte>)
    requires result.ResourcePoolCreated? && FitsResult(result) && SizedResult(result)
             && Aligned(s, ResultFields(result))
    ensures ReadPoolCreated(s) == Expect(result, ResultFields(result), s)
  {
    hide Aligned, IdBytes, ReadId;
    var a := IdBytes(result.poolId);
    IdReads(result.poolId, s);
  }

  lemma RevisedReads(result: CommandResult, s: seq<byte>)
    requires result.CapacityRevised? && FitsResult(result) && SizedResult(result) && Aligned(s, ResultFields(result))
    ensures ReadRevised(s) == Expect(result, ResultFields(result), s)
  {
    hide Aligned, U64Bytes, ReadU64, DeficitsBytes, ReadDeficits, FitsDeficits, SizedDeficits, IdsBytes, ReadIds,
         FitsIds;
    var a := U64Bytes(result.sequence);
    var b := DeficitsBytes(result.deficits);
    var c := IdsBytes(result.promiseIds);
    AlignedSplit(s, a, b + c);
    U64Reads(result.sequence, s);
    if |a| <= |s| {
      var s1 := s[|a|..];
      AlignedSplit(s1, b, c);
      DeficitsRead(result.deficits, s1);
      if |b| <= |s1| {
        var s2 := s1[|b|..];
        IdsRead(result.promiseIds, s2);
      }
    }
  }

  lemma HoldHeldReads(result: CommandResult, s: seq<byte>)
    requires result.HoldHeld? && FitsResult(result) && SizedResult(result) && Aligned(s, ResultFields(result))
    ensures ReadHoldResult(s) == Expect(result, ResultFields(result), s)
  {
    hide Aligned, IdBytes, ReadId, ReadByte;
    var a := [1];
    var b := IdBytes(result.promiseId);
    AlignedSplit(s, a, b);
    ByteReads(1, s);
    if |a| <= |s| {
      var s1 := s[|a|..];
      IdReads(result.promiseId, s1);
    }
  }

  lemma HoldUnavailableReads(result: CommandResult, s: seq<byte>)
    requires result.HoldUnavailable? && FitsResult(result) && SizedResult(result) && Aligned(s, ResultFields(result))
    ensures ReadHoldResult(s) == Expect(result, ResultFields(result), s)
  {
    hide Aligned, ReadByte, ConflictsBytes, ReadConflicts, FitsConflicts, SizedConflicts;
    var a := [2];
    var b := ConflictsBytes(result.conflicts);
    AlignedSplit(s, a, b);
    ByteReads(2, s);
    if |a| <= |s| {
      var s1 := s[|a|..];
      ConflictsRead(result.conflicts, s1);
    }
  }

  lemma ChoiceHeldReads(result: CommandResult, s: seq<byte>)
    requires result.ChoiceHeld? && FitsResult(result) && SizedResult(result) && Aligned(s, ResultFields(result))
    ensures ReadChoiceResult(s) == Expect(result, ResultFields(result), s)
  {
    hide Aligned, IdBytes, ReadId, ReadByte, U32Bytes, ReadU32;
    var a := [1];
    var b := IdBytes(result.promiseId);
    var c := U32Bytes(result.alternative);
    AlignedSplit(s, a, b + c);
    ByteReads(1, s);
    if |a| <= |s| {
      var s1 := s[|a|..];
      AlignedSplit(s1, b, c);
      IdReads(result.promiseId, s1);
      if |b| <= |s1| {
        var s2 := s1[|b|..];
        U32Reads(result.alternative, s2);
      }
    }
  }

  lemma ChoiceUnavailableReads(result: CommandResult, s: seq<byte>)
    requires result.ChoiceUnavailable? && FitsResult(result) && SizedResult(result) && Aligned(s, ResultFields(result))
    ensures ReadChoiceResult(s) == Expect(result, ResultFields(result), s)
  {
    hide Aligned, ReadByte, AlternativesBytes, ReadAlternatives, FitsAlternatives, SizedAlternatives;
    var a := [2];
    var b := AlternativesBytes(result.alternatives);
    AlignedSplit(s, a, b);
    ByteReads(2, s);
    if |a| <= |s| {
      var s1 := s[|a|..];
      AlternativesRead(result.alternatives, s1);
    }
  }

  lemma SlotHeldReads(result: CommandResult, s: seq<byte>)
    requires result.SlotHeld? && FitsResult(result) && SizedResult(result) && Aligned(s, ResultFields(result))
    ensures ReadSlotResult(s) == Expect(result, ResultFields(result), s)
  {
    hide Aligned, U64Bytes, ReadI64, IdBytes, ReadId, ReadByte;
    var a := [1];
    var b := IdBytes(result.promiseId);
    var c := U64Bytes(result.start);
    AlignedSplit(s, a, b + c);
    ByteReads(1, s);
    if |a| <= |s| {
      var s1 := s[|a|..];
      AlignedSplit(s1, b, c);
      IdReads(result.promiseId, s1);
      if |b| <= |s1| {
        var s2 := s1[|b|..];
        I64Reads(result.start, s2);
      }
    }
  }

  lemma SlotUnavailableReads(result: CommandResult, s: seq<byte>)
    requires result.SlotUnavailable? && FitsResult(result) && SizedResult(result) && Aligned(s, ResultFields(result))
    ensures ReadSlotResult(s) == Expect(result, ResultFields(result), s)
  {
    hide Aligned, ReadByte, U128Bytes, ReadU128;
    var a := [2];
    var b := U128Bytes(result.attempts);
    AlignedSplit(s, a, b);
    ByteReads(2, s);
    if |a| <= |s| {
      var s1 := s[|a|..];
      U128Reads(result.attempts, s1);
    }
  }

  lemma CommittedReads(result: CommandResult, s: seq<byte>)
    requires result.PromiseCommitted? && FitsResult(result) && SizedResult(result) && Aligned(s, ResultFields(result))
    ensures ReadCommitted(s) == Expect(result, ResultFields(result), s)
  {
    hide Aligned, VersionedBytes, ReadVersioned;
    var a := VersionedBytes(result.promiseId, result.version);
    VersionedReads(result.promiseId, result.version, s);
  }

  lemma ReleasedReads(result: CommandResult, s: seq<byte>)
    requires result.PromiseReleased? && FitsResult(result) && SizedResult(result) && Aligned(s, ResultFields(result))
    ensures ReadReleased(s) == Expect(result, ResultFields(result), s)
  {
    hide Aligned, VersionedBytes, ReadVersioned;
    var a := VersionedBytes(result.promiseId, result.version);
    VersionedReads(result.promiseId, result.version, s);
  }

  lemma ReplacedReads(result: CommandResult, s: seq<byte>)
    requires result.PromiseReplaced? && FitsResult(result) && SizedResult(result) && Aligned(s, ResultFields(result))
    ensures ReadReplaceResult(s) == Expect(result, ResultFields(result), s)
  {
    hide Aligned, ReadByte, VersionedBytes, ReadVersioned;
    var a := [1];
    var b := VersionedBytes(result.promiseId, result.version);
    AlignedSplit(s, a, b);
    ByteReads(1, s);
    if |a| <= |s| {
      var s1 := s[|a|..];
      VersionedReads(result.promiseId, result.version, s1);
    }
  }

  lemma ReplaceUnavailableReads(result: CommandResult, s: seq<byte>)
    requires result.ReplaceUnavailable? && FitsResult(result) && SizedResult(result) && Aligned(s, ResultFields(result))
    ensures ReadReplaceResult(s) == Expect(result, ResultFields(result), s)
  {
    hide Aligned, ReadByte, ConflictsBytes, ReadConflicts, FitsConflicts, SizedConflicts;
    var a := [2];
    var b := ConflictsBytes(result.conflicts);
    AlignedSplit(s, a, b);
    ByteReads(2, s);
    if |a| <= |s| {
      var s1 := s[|a|..];
      ConflictsRead(result.conflicts, s1);
    }
  }

  lemma ExpirationsReads(result: CommandResult, s: seq<byte>)
    requires result.ExpirationsProcessed? && FitsResult(result) && SizedResult(result)
             && Aligned(s, ResultFields(result))
    ensures ReadExpirations(s) == Expect(result, ResultFields(result), s)
  {
    hide Aligned, U64Bytes, ReadU64;
    var a := U64Bytes(result.count);
    U64Reads(result.count, s);
  }

  /** The tag selects the reader of its own result. */
  lemma ResultTagReads(result: CommandResult, s: seq<byte>)
    ensures ReadResultFields(ResultTag(result), s)
            == match result
               case ResourcePoolCreated(_) => ReadPoolCreated(s)
               case CapacityRevised(_, _, _) => ReadRevised(s)
               case HoldHeld(_) => ReadHoldResult(s)
               case HoldUnavailable(_) => ReadHoldResult(s)
               case ChoiceHeld(_, _) => ReadChoiceResult(s)
               case ChoiceUnavailable(_) => ReadChoiceResult(s)
               case SlotHeld(_, _) => ReadSlotResult(s)
               case SlotUnavailable(_) => ReadSlotResult(s)
               case PromiseCommitted(_, _) => ReadCommitted(s)
               case PromiseReleased(_, _) => ReadReleased(s)
               case PromiseReplaced(_, _) => ReadReplaceResult(s)
               case ReplaceUnavailable(_) => ReadReplaceResult(s)
               case ExpirationsProcessed(_) => ReadExpirations(s)
  {
    hide ReadPoolCreated, ReadRevised, ReadHoldResult, ReadChoiceResult, ReadSlotResult, ReadCommitted, ReadReleased,
         ReadReplaceResult, ReadExpirations;
  }

  lemma ResultFieldsRead(result: CommandResult, s: seq<byte>)
    requires FitsResult(result) && SizedResult(result) && Aligned(s, ResultFields(result))
    ensures ReadResultFields(ResultTag(result), s) == Expect(result, ResultFields(result), s)
  {
    hide *;
    ResultTagReads(result, s);
    match result {
      case ResourcePoolCreated(_) => PoolCreatedReads(result, s);
      case CapacityRevised(_, _, _) => RevisedReads(result, s);
      case HoldHeld(_) => HoldHeldReads(result, s);
      case HoldUnavailable(_) => HoldUnavailableReads(result, s);
      case ChoiceHeld(_, _) => ChoiceHeldReads(result, s);
      case ChoiceUnavailable(_) => ChoiceUnavailableReads(result, s);
      case SlotHeld(_, _) => SlotHeldReads(result, s);
      case SlotUnavailable(_) => SlotUnavailableReads(result, s);
      case PromiseCommitted(_, _) => CommittedReads(result, s);
      case PromiseReleased(_, _) => ReleasedReads(result, s);
      case PromiseReplaced(_, _) => ReplacedReads(result, s);
      case ReplaceUnavailable(_) => ReplaceUnavailableReads(result, s);
      case ExpirationsProcessed(_) => ExpirationsReads(result, s);
    }
  }

  lemma ResultReads(result: CommandResult, s: seq<byte>)
    requires FitsResult(result) && SizedResult(result) && Aligned(s, ResultBytes(result))
    ensures ReadResult(s) == Expect(result, ResultBytes(result), s)
  {
    hide Aligned, ReadByte, ResultTag, ResultFields, ReadResultFields, FitsResult, SizedResult;
    var a := [ResultTag(result)];
    var b := ResultFields(result);
    AlignedSplit(s, a, b);
    ByteReads(ResultTag(result), s);
    if |a| <= |s| {
      var s1 := s[|a|..];
      ResultFieldsRead(result, s1);
    }
  }

  lemma ResponseReads(response: Response, s: seq<byte>)
    requires FitsResponse(response) && SizedResponse(response) && Aligned(s, ResponseBytes(response))
    ensures ReadResponse(s) == Expect(response, ResponseBytes(response), s)
  {
    hide Aligned, ReadByte, ResultBytes, ReadResult, ReadError, ErrorTag, FitsResult, SizedResult;
    match response {
      case Ok(result) =>
        AlignedSplit(s, [1], ResultBytes(result));
        ByteReads(1, s);
        if 1 <= |s| {
          ResultReads(result, s[1..]);
        }
      case Err(error) =>
        AlignedSplit(s, [2], [ErrorTag(error)]);
        ByteReads(2, s);
        if 1 <= |s| {
          ErrorReads(error, s[1..]);
        }
    }
  }
}
