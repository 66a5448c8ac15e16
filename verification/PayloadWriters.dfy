/** Writing payloads field by field into a growing buffer, with the command's length patched in afterwards. */
module PayloadWriters {
  import opened Results
  import opened Bytes
  import opened Intervals
  import opened CapacityCurves
  import opened Domain
  import opened Batches
  import opened WalRecords
  import opened Payloads
  import opened CommandPayloads
  import opened ResponsePayloads
  import opened EntityPayloads
  import opened TransitionPayloads

  /** A growing byte vector with the payload's own field writers. */
  class PayloadWriter {
    const text: Text
    var bytes: seq<byte>

    constructor (text: Text, bytes: seq<byte>)
      ensures this.text == text && this.bytes == bytes
    {
      this.text, this.bytes := text, bytes;
    }

    method Raw(values: seq<byte>)
      modifies this
      ensures bytes == old(bytes) + values
    {
      bytes := bytes + values;
    }

    /** A 32-bit count, if the length has one. */
    method Length(n: nat) returns (r: Result<(), StorageError>)
      modifies this
      ensures old(bytes) <= bytes && (r.Ok? <==> n <= U32_MAX) && (r.Err? ==> r.error == OversizedField)
      ensures r.Ok? ==> bytes == old(bytes) + U32Bytes(n)
    {
      if n > U32_MAX {
        return Err(OversizedField);
      }
      Raw(U32Bytes(n));
      r := Ok(());
    }

    method Text(value: string) returns (r: Result<(), StorageError>)
      modifies this
      ensures old(bytes) <= bytes && (r.Ok? <==> SizedString(text, value)) && (r.Err? ==> r.error == OversizedField)
      ensures r.Ok? ==> bytes == old(bytes) + StringBytes(text, value)
    {
      hide U32Bytes;
      var _ :- Length(|text.encode(value)|);
      Raw(text.encode(value));
      r := Ok(());
    }

    method Span(interval: Interval)
      modifies this
      ensures bytes == old(bytes) + IntervalBytes(interval)
    {
      hide U64Bytes;
      Raw(U64Bytes(interval.start));
      Raw(U64Bytes(interval.end));
    }

    method Measure(unit: Unit) returns (r: Result<(), StorageError>)
      modifies this
      ensures old(bytes) <= bytes && (r.Ok? <==> SizedString(text, unit.name)) && (r.Err? ==> r.error == OversizedField)
      ensures r.Ok? ==> bytes == old(bytes) + UnitBytes(text, unit)
    {
      hide U64Bytes, StringBytes, SizedString;
      var _ :- Text(unit.name);
      Raw(U64Bytes(unit.subunitsPerUnit));
      r := Ok(());
    }

    method OneSegment(segment: CapacitySegment)
      modifies this
      ensures bytes == old(bytes) + SegmentBytes(segment)
    {
      hide U64Bytes, IntervalBytes;
      Span(segment.interval);
      Raw(U64Bytes(segment.capacity));
    }

    method Curve(curve: seq<CapacitySegment>) returns (r: Result<(), StorageError>)
      modifies this
      ensures old(bytes) <= bytes && (r.Ok? <==> |curve| <= U32_MAX) && (r.Err? ==> r.error == OversizedField)
      ensures r.Ok? ==> bytes == old(bytes) + CurveBytes(curve)
    {
      hide U32Bytes, SegmentBytes, Flatten;
      ghost var before, parts := bytes, SegmentParts(curve);
      var _ :- Length(|curve|);
      FlattenNone(parts);
      for i := 0 to |curve|
        invariant before <= bytes && bytes == before + (U32Bytes(|curve|) + Flatten(parts[..i]))
      {
        FlattenPush(parts, i);
        OneSegment(curve[i]);
      }
      assert parts[..|parts|] == parts;
      r := Ok(());
    }

    method OneClaim(claim: Claim)
      modifies this
      ensures bytes == old(bytes) + ClaimBytes(claim)
    {
      hide IdBytes, U64Bytes, IntervalBytes;
      ghost var before := bytes;
      Raw(IdBytes(claim.poolId));
      Span(claim.interval);
      Raw(U64Bytes(claim.quantity));
      Regroup3(before, IdBytes(claim.poolId), IntervalBytes(claim.interval), U64Bytes(claim.quantity));
    }

    method ClaimBundle(bundle: Bundle) returns (r: Result<(), StorageError>)
      modifies this
      ensures old(bytes) <= bytes && (r.Ok? <==> |bundle| <= U32_MAX) && (r.Err? ==> r.error == OversizedField)
      ensures r.Ok? ==> bytes == old(bytes) + BundleBytes(bundle)
    {
      hide U32Bytes, ClaimBytes, Flatten;
      ghost var before, parts := bytes, ClaimParts(bundle);
      var _ :- Length(|bundle|);
      FlattenNone(parts);
      for i := 0 to |bundle|
        invariant before <= bytes && bytes == before + (U32Bytes(|bundle|) + Flatten(parts[..i]))
      {
        FlattenPush(parts, i);
        OneClaim(bundle[i]);
      }
      assert parts[..|parts|] == parts;
      r := Ok(());
    }

    method Alternatives(choice: seq<Bundle>) returns (r: Result<(), StorageError>)
      modifies this
      ensures old(bytes) <= bytes && (r.Ok? <==> SizedChoice(choice)) && (r.Err? ==> r.error == OversizedField)
      ensures r.Ok? ==> bytes == old(bytes) + ChoiceBytes(choice)
    {
      hide U32Bytes, BundleBytes, Flatten;
      ghost var before, parts := bytes, BundleParts(choice);
      var _ :- Length(|choice|);
      FlattenNone(parts);
      for i := 0 to |choice|
        invariant before <= bytes && bytes == before + (U32Bytes(|choice|) + Flatten(parts[..i]))
        invariant forall k :: 0 <= k < i ==> |choice[k]| <= U32_MAX
      {
        FlattenPush(parts, i);
        var _ :- ClaimBundle(choice[i]);
      }
      assert parts[..|parts|] == parts;
      r := Ok(());
    }

    method OneRelative(claim: RelativeClaim)
      modifies this
      ensures bytes == old(bytes) + RelativeClaimBytes(claim)
    {
      hide IdBytes, U64Bytes;
      ghost var before := bytes;
      Raw(IdBytes(claim.poolId));
      Raw(U64Bytes(claim.startOffset));
      Raw(U64Bytes(claim.endOffset));
      Raw(U64Bytes(claim.quantity));
      Regroup4(before, IdBytes(claim.poolId), U64Bytes(claim.startOffset), U64Bytes(claim.endOffset),
               U64Bytes(claim.quantity));
    }

    method Relative(claims: seq<RelativeClaim>) returns (r: Result<(), StorageError>)
      modifies this
      ensures old(bytes) <= bytes && (r.Ok? <==> |claims| <= U32_MAX) && (r.Err? ==> r.error == OversizedField)
      ensures r.Ok? ==> bytes == old(bytes) + RelativeBytes(claims)
    {
      hide U32Bytes, RelativeClaimBytes, Flatten;
      ghost var before, parts := bytes, RelativeParts(claims);
      var _ :- Length(|claims|);
      FlattenNone(parts);
      for i := 0 to |claims|
        invariant before <= bytes && bytes == before + (U32Bytes(|claims|) + Flatten(parts[..i]))
      {
        FlattenPush(parts, i);
        OneRelative(claims[i]);
      }
      assert parts[..|parts|] == parts;
      r := Ok(());
    }

    method CreateFields(operation: Operation) returns (r: Result<(), StorageError>)
      requires operation.CreateResourcePool?
      modifies this
      ensures old(bytes) <= bytes && (r.Ok? <==> SizedOperation(text, operation))
              && (r.Err? ==> r.error == OversizedField)
      ensures r.Ok? ==> bytes == old(bytes) + FieldBytes(text, operation)
    {
      hide U64Bytes, IdBytes, StringBytes, UnitBytes, CurveBytes, BundleBytes, ChoiceBytes, RelativeBytes,
           NewStateBytes, SizedString, SizedChoice;
      ghost var before := bytes;
      Raw(IdBytes(operation.poolId));
      var _ :- Text(operation.displayName);
      var _ :- Measure(operation.unit);
      var _ :- Curve(operation.curve);
      Regroup4(before, IdBytes(operation.poolId), StringBytes(text, operation.displayName),
               UnitBytes(text, operation.unit), CurveBytes(operation.curve));
      r := Ok(());
    }

    method ReviseFields(operation: Operation) returns (r: Result<(), StorageError>)
      requires operation.ReviseCapacity?
      modifies this
      ensures old(bytes) <= bytes && (r.Ok? <==> SizedOperation(text, operation))
              && (r.Err? ==> r.error == OversizedField)
      ensures r.Ok? ==> bytes == old(bytes) + FieldBytes(text, operation)
    {
      hide U64Bytes, IdBytes, StringBytes, UnitBytes, CurveBytes, BundleBytes, ChoiceBytes, RelativeBytes,
           NewStateBytes, SizedString, SizedChoice;
      ghost var before := bytes;
      Raw(IdBytes(operation.poolId));
      var _ :- Curve(operation.curve);
      Raw([ModeByte(operation.mode)]);
      Regroup3(before, IdBytes(operation.poolId), CurveBytes(operation.curve), [ModeByte(operation.mode)]);
      r := Ok(());
    }

    method HoldFields(operation: Operation) returns (r: Result<(), StorageError>)
      requires operation.Hold?
      modifies this
      ensures old(bytes) <= bytes && (r.Ok? <==> SizedOperation(text, operation))
              && (r.Err? ==> r.error == OversizedField)
      ensures r.Ok? ==> bytes == old(bytes) + FieldBytes(text, operation)
    {
      hide U64Bytes, IdBytes, StringBytes, UnitBytes, CurveBytes, BundleBytes, ChoiceBytes, RelativeBytes,
           NewStateBytes, SizedString, SizedChoice;
      ghost var before := bytes;
      Raw(IdBytes(operation.promiseId));
      var _ :- ClaimBundle(operation.bundle);
      Raw(U64Bytes(operation.expiresAt));
      Regroup3(before, IdBytes(operation.promiseId), BundleBytes(operation.bundle), U64Bytes(operation.expiresAt));
      r := Ok(());
    }

    method HoldOneOfFields(operation: Operation) returns (r: Result<(), StorageError>)
      requires operation.HoldOneOf?
      modifies this
      ensures old(bytes) <= bytes && (r.Ok? <==> SizedOperation(text, operation))
              && (r.Err? ==> r.error == OversizedField)
      ensures r.Ok? ==> bytes == old(bytes) + FieldBytes(text, operation)
    {
      hide U64Bytes, IdBytes, StringBytes, UnitBytes, CurveBytes, BundleBytes, ChoiceBytes, RelativeBytes,
           NewStateBytes, SizedString, SizedChoice;
      ghost var before := bytes;
      Raw(IdBytes(operation.promiseId));
      var _ :- Alternatives(operation.choice);
      Raw(U64Bytes(operation.expiresAt));
      Regroup3(before, IdBytes(operation.promiseId), ChoiceBytes(operation.choice), U64Bytes(operation.expiresAt));
      r := Ok(());
    }

    method HoldFirstSlotFields(operation: Operation) returns (r: Result<(), StorageError>)
      requires operation.HoldFirstSlot?
      modifies this
      ensures old(bytes) <= bytes && (r.Ok? <==> SizedOperation(text, operation))
              && (r.Err? ==> r.error == OversizedField)
      ensures r.Ok? ==> bytes == old(bytes) + FieldBytes(text, operation)
    {
      hide U64Bytes, IdBytes, StringBytes, UnitBytes, CurveBytes, BundleBytes, ChoiceBytes, RelativeBytes,
           NewStateBytes, SizedString, SizedChoice;
      ghost var before := bytes;
      Raw(IdBytes(operation.promiseId));
      var _ :- Relative(operation.relative);
      Raw(U64Bytes(operation.earliest));
      Raw(U64Bytes(operation.latest));
      Raw(U64Bytes(operation.step));
      Raw(U64Bytes(operation.expiresAt));
      Regroup6(before, IdBytes(operation.promiseId), RelativeBytes(operation.relative), U64Bytes(operation.earliest),
               U64Bytes(operation.latest), U64Bytes(operation.step), U64Bytes(operation.expiresAt));
      r := Ok(());
    }

    method VersionedFields(operation: Operation) returns (r: Result<(), StorageError>)
      requires operation.Commit? || operation.Release?
      modifies this
      ensures old(bytes) <= bytes && (r.Ok? <==> SizedOperation(text, operation))
              && (r.Err? ==> r.error == OversizedField)
      ensures r.Ok? ==> bytes == old(bytes) + FieldBytes(text, operation)
    {
      hide U64Bytes, IdBytes, StringBytes, UnitBytes, CurveBytes, BundleBytes, ChoiceBytes, RelativeBytes,
           NewStateBytes, SizedString, SizedChoice;
      Raw(IdBytes(operation.promiseId));
      Raw(U64Bytes(operation.expectedVersion));
      r := Ok(());
    }

    method ReplaceFields(operation: Operation) returns (r: Result<(), StorageError>)
      requires operation.Replace?
      modifies this
      ensures old(bytes) <= bytes && (r.Ok? <==> SizedOperation(text, operation))
              && (r.Err? ==> r.error == OversizedField)
      ensures r.Ok? ==> bytes == old(bytes) + FieldBytes(text, operation)
    {
      hide U64Bytes, IdBytes, StringBytes, UnitBytes, CurveBytes, BundleBytes, ChoiceBytes, RelativeBytes,
           NewStateBytes, SizedString, SizedChoice;
      ghost var before := bytes;
      Raw(IdBytes(operation.promiseId));
      Raw(U64Bytes(operation.expectedVersion));
      var _ :- ClaimBundle(operation.newBundle);
      Raw(NewStateBytes(operation.newState));
      Regroup4(before, IdBytes(operation.promiseId), U64Bytes(operation.expectedVersion),
               BundleBytes(operation.newBundle), NewStateBytes(operation.newState));
      r := Ok(());
    }

    method OneOperation(operation: Operation) returns (r: Result<(), StorageError>)
      modifies this
      ensures old(bytes) <= bytes && (r.Ok? <==> SizedOperation(text, operation))
              && (r.Err? ==> r.error == OversizedField)
      ensures r.Ok? ==> bytes == old(bytes) + OperationBytes(text, operation)
    {
      hide FieldBytes, TagOf, SizedOperation;
      Raw([TagOf(operation)]);
      match operation {
        case CreateResourcePool(_, _, _, _) => r := CreateFields(operation);
        case ReviseCapacity(_, _, _) => r := ReviseFields(operation);
        case Hold(_, _, _) => r := HoldFields(operation);
        case HoldOneOf(_, _, _) => r := HoldOneOfFields(operation);
        case HoldFirstSlot(_, _, _, _, _, _) => r := HoldFirstSlotFields(operation);
        case Commit(_, _) => r := VersionedFields(operation);
        case Release(_, _) => r := VersionedFields(operation);
        case Replace(_, _, _, _) => r := ReplaceFields(operation);
        case ProcessExpirations =>
          NothingFollows(text);
          r := Ok(());
      }
    }

    method OneCommand(command: Command) returns (r: Result<(), StorageError>)
      modifies this
      ensures old(bytes) <= bytes && (r.Ok? <==> SizedCommand(text, command)) && (r.Err? ==> r.error == OversizedField)
      ensures r.Ok? ==> bytes == old(bytes) + CommandBytes(text, command)
    {
      hide StringBytes, OperationBytes, SizedString, SizedOperation;
      ghost var before := bytes;
      Raw([COMMAND_FORMAT_VERSION]);
      var _ :- Text(command.identity.clientId);
      var _ :- Text(command.identity.key);
      var _ :- OneOperation(command.operation);
      Regroup4(before, [COMMAND_FORMAT_VERSION], StringBytes(text, command.identity.clientId),
               StringBytes(text, command.identity.key), OperationBytes(text, command.operation));
      r := Ok(());
    }

    // ---- Responses ----

    method Ids(ids: seq<int>) returns (r: Result<(), StorageError>)
      modifies this
      ensures old(bytes) <= bytes && (r.Ok? <==> |ids| <= U32_MAX) && (r.Err? ==> r.error == OversizedField)
      ensures r.Ok? ==> bytes == old(bytes) + IdsBytes(ids)
    {
      hide U32Bytes, IdBytes, Flatten;
      ghost var before, parts := bytes, IdParts(ids);
      var _ :- Length(|ids|);
      FlattenNone(parts);
      for i := 0 to |ids|
        invariant before <= bytes && bytes == before + (U32Bytes(|ids|) + Flatten(parts[..i]))
      {
        FlattenPush(parts, i);
        Raw(IdBytes(ids[i]));
      }
      assert parts[..|parts|] == parts;
      r := Ok(());
    }

    method Amounts(required: int, available: int, deficit: int)
      modifies this
      ensures bytes == old(bytes) + AmountBytes(required, available, deficit)
    {
      hide U64Bytes;
      ghost var before := bytes;
      Raw(U64Bytes(required));
      Raw(U64Bytes(available));
      Raw(U64Bytes(deficit));
      Regroup3(before, U64Bytes(required), U64Bytes(available), U64Bytes(deficit));
    }

    method Conflict(conflict: AvailabilityConflict) returns (r: Result<(), StorageError>)
      modifies this
      ensures old(bytes) <= bytes && (r.Ok? <==> |conflict.promiseIds| <= U32_MAX)
              && (r.Err? ==> r.error == OversizedField)
      ensures r.Ok? ==> bytes == old(bytes) + ConflictBytes(conflict)
    {
      hide IdBytes, AmountBytes, IntervalBytes, IdsBytes;
      ghost var before := bytes;
      Raw(IdBytes(conflict.poolId));
      Span(conflict.interval);
      Amounts(conflict.required, conflict.available, conflict.deficit);
      var _ :- Ids(conflict.promiseIds);
      Regroup4(before, IdBytes(conflict.poolId), IntervalBytes(conflict.interval),
               AmountBytes(conflict.required, conflict.available, conflict.deficit), IdsBytes(conflict.promiseIds));
      r := Ok(());
    }

    method Conflicts(conflicts: seq<AvailabilityConflict>) returns (r: Result<(), StorageError>)
      modifies this
      ensures old(bytes) <= bytes && (r.Ok? <==> SizedConflicts(conflicts)) && (r.Err? ==> r.error == OversizedField)
      ensures r.Ok? ==> bytes == old(bytes) + ConflictsBytes(conflicts)
    {
      hide U32Bytes, ConflictBytes, Flatten;
      ghost var before, parts := bytes, ConflictParts(conflicts);
      var _ :- Length(|conflicts|);
      FlattenNone(parts);
      for i := 0 to |conflicts|
        invariant before <= bytes && bytes == before + (U32Bytes(|conflicts|) + Flatten(parts[..i]))
        invariant forall k :: 0 <= k < i ==> |conflicts[k].promiseIds| <= U32_MAX
      {
        FlattenPush(parts, i);
        var _ :- Conflict(conflicts[i]);
      }
      assert parts[..|parts|] == parts;
      r := Ok(());
    }

    method Deficit(deficit: CapacityDeficit) returns (r: Result<(), StorageError>)
      modifies this
      ensures old(bytes) <= bytes && (r.Ok? <==> |deficit.promiseIds| <= U32_MAX)
              && (r.Err? ==> r.error == OversizedField)
      ensures r.Ok? ==> bytes == old(bytes) + DeficitBytes(deficit)
    {
      hide IdBytes, U64Bytes, IntervalBytes, IdsBytes;
      ghost var before := bytes;
      Raw(IdBytes(deficit.poolId));
      Span(deficit.interval);
      Raw(U64Bytes(deficit.quantity));
      var _ :- Ids(deficit.promiseIds);
      Regroup4(before, IdBytes(deficit.poolId), IntervalBytes(deficit.interval), U64Bytes(deficit.quantity),
               IdsBytes(deficit.promiseIds));
      r := Ok(());
    }

    method Deficits(deficits: seq<CapacityDeficit>) returns (r: Result<(), StorageError>)
      modifies this
      ensures old(bytes) <= bytes && (r.Ok? <==> SizedDeficits(deficits)) && (r.Err? ==> r.error == OversizedField)
      ensures r.Ok? ==> bytes == old(bytes) + DeficitsBytes(deficits)
    {
      hide U32Bytes, DeficitBytes, Flatten;
      ghost var before, parts := bytes, DeficitParts(deficits);
      var _ :- Length(|deficits|);
      FlattenNone(parts);
      for i := 0 to |deficits|
        invariant before <= bytes && bytes == before + (U32Bytes(|deficits|) + Flatten(parts[..i]))
        invariant forall k :: 0 <= k < i ==> |deficits[k].promiseIds| <= U32_MAX
      {
        FlattenPush(parts, i);
        var _ :- Deficit(deficits[i]);
      }
      assert parts[..|parts|] == parts;
      r := Ok(());
    }

    method ChoiceConflicts(alternatives: seq<ChoiceConflict>) returns (r: Result<(), StorageError>)
      requires Numbered(alternatives)
      modifies this
      ensures old(bytes) <= bytes && (r.Ok? <==> SizedAlternatives(alternatives))
              && (r.Err? ==> r.error == OversizedField)
      ensures r.Ok? ==> bytes == old(bytes) + AlternativesBytes(alternatives)
    {
      hide U32Bytes, ConflictsBytes, SizedConflicts, Flatten;
      ghost var before, parts := bytes, AlternativeParts(alternatives);
      var _ :- Length(|alternatives|);
      FlattenNone(parts);
      for i := 0 to |alternatives|
        invariant before <= bytes && bytes == before + (U32Bytes(|alternatives|) + Flatten(parts[..i]))
        invariant forall k :: 0 <= k < i ==> SizedConflicts(alternatives[k].conflicts)
      {
        FlattenPush(parts, i);
        var indexed := Length(alternatives[i].alternative);
        assert indexed.Ok?;
        var _ :- Conflicts(alternatives[i].conflicts);
      }
      assert parts[..|parts|] == parts;
      r := Ok(());
    }

    method OneResult(result: CommandResult) returns (r: Result<(), StorageError>)
      requires Indexed(result)
      modifies this
      ensures old(bytes) <= bytes && (r.Ok? <==> SizedResult(result)) && (r.Err? ==> r.error == OversizedField)
      ensures r.Ok? ==> bytes == old(bytes) + ResultBytes(result)
    {
      hide ResultFields, ResultTag, SizedResult, Indexed;
      Raw([ResultTag(result)]);
      var _ :- ResultBody(result);
      r := Ok(());
    }

    method Versioned(promiseId: int, version: int)
      modifies this
      ensures bytes == old(bytes) + VersionedBytes(promiseId, version)
    {
      hide IdBytes, U64Bytes;
      Raw(IdBytes(promiseId));
      Raw(U64Bytes(version));
    }

    method Revised(result: CommandResult) returns (r: Result<(), StorageError>)
      requires result.CapacityRevised?
      modifies this
      ensures old(bytes) <= bytes && (r.Ok? <==> SizedResult(result)) && (r.Err? ==> r.error == OversizedField)
      ensures r.Ok? ==> bytes == old(bytes) + ResultFields(result)
    {
      hide IdBytes, U64Bytes, U32Bytes, U128Bytes, VersionedBytes, ConflictsBytes, AlternativesBytes, DeficitsBytes,
           IdsBytes, SizedConflicts, SizedDeficits, SizedAlternatives;
      ghost var before := bytes;
      Raw(U64Bytes(result.sequence));
      var _ :- Deficits(result.deficits);
      var _ :- Ids(result.promiseIds);
      Regroup3(before, U64Bytes(result.sequence), DeficitsBytes(result.deficits), IdsBytes(result.promiseIds));
      r := Ok(());
    }

    method HoldOutcome(result: CommandResult) returns (r: Result<(), StorageError>)
      requires result.HoldHeld? || result.HoldUnavailable?
      modifies this
      ensures old(bytes) <= bytes && (r.Ok? <==> SizedResult(result)) && (r.Err? ==> r.error == OversizedField)
      ensures r.Ok? ==> bytes == old(bytes) + ResultFields(result)
    {
      hide IdBytes, U64Bytes, U32Bytes, U128Bytes, VersionedBytes, ConflictsBytes, AlternativesBytes, DeficitsBytes,
           IdsBytes, SizedConflicts, SizedDeficits, SizedAlternatives;
      if result.HoldHeld? {
        Raw([1]);
        Raw(IdBytes(result.promiseId));
      } else {
        Raw([2]);
        var _ :- Conflicts(result.conflicts);
      }
      r := Ok(());
    }

    method ChoiceOutcome(result: CommandResult) returns (r: Result<(), StorageError>)
      requires (result.ChoiceHeld? || result.ChoiceUnavailable?) && Indexed(result)
      modifies this
      ensures old(bytes) <= bytes && (r.Ok? <==> SizedResult(result)) && (r.Err? ==> r.error == OversizedField)
      ensures r.Ok? ==> bytes == old(bytes) + ResultFields(result)
    {
      hide IdBytes, U64Bytes, U32Bytes, U128Bytes, VersionedBytes, ConflictsBytes, AlternativesBytes, DeficitsBytes,
           IdsBytes, SizedConflicts, SizedDeficits, SizedAlternatives;
      ghost var before := bytes;
      if result.ChoiceHeld? {
        Raw([1]);
        Raw(IdBytes(result.promiseId));
        var _ :- Length(result.alternative);
        Regroup3(before, [1], IdBytes(result.promiseId), U32Bytes(result.alternative));
      } else {
        Raw([2]);
        var _ :- ChoiceConflicts(result.alternatives);
      }
      r := Ok(());
    }

    method SlotOutcome(result: CommandResult) returns (r: Result<(), StorageError>)
      requires result.SlotHeld? || result.SlotUnavailable?
      modifies this
      ensures old(bytes) <= bytes && (r.Ok? <==> SizedResult(result)) && (r.Err? ==> r.error == OversizedField)
      ensures r.Ok? ==> bytes == old(bytes) + ResultFields(result)
    {
      hide IdBytes, U64Bytes, U32Bytes, U128Bytes, VersionedBytes, ConflictsBytes, AlternativesBytes, DeficitsBytes,
           IdsBytes, SizedConflicts, SizedDeficits, SizedAlternatives;
      ghost var before := bytes;
      if result.SlotHeld? {
        Raw([1]);
        Raw(IdBytes(result.promiseId));
        Raw(U64Bytes(result.start));
        Regroup3(before, [1], IdBytes(result.promiseId), U64Bytes(result.start));
      } else {
        Raw([2]);
        Raw(U128Bytes(result.attempts));
      }
      r := Ok(());
    }

    method ReplaceOutcome(result: CommandResult) returns (r: Result<(), StorageError>)
      requires result.PromiseReplaced? || result.ReplaceUnavailable?
      modifies this
      ensures old(bytes) <= bytes && (r.Ok? <==> SizedResult(result)) && (r.Err? ==> r.error == OversizedField)
      ensures r.Ok? ==> bytes == old(bytes) + ResultFields(result)
    {
      hide IdBytes, U64Bytes, U32Bytes, U128Bytes, VersionedBytes, ConflictsBytes, AlternativesBytes, DeficitsBytes,
           IdsBytes, SizedConflicts, SizedDeficits, SizedAlternatives;
      if result.PromiseReplaced? {
        Raw([1]);
        Versioned(result.promiseId, result.version);
      } else {
        Raw([2]);
        var _ :- Conflicts(result.conflicts);
      }
      r := Ok(());
    }

    /** Results of one variant have no tag of their own. */
    method SingleOutcome(result: CommandResult)
      requires result.ResourcePoolCreated? || result.PromiseCommitted? || result.PromiseReleased?
               || result.ExpirationsProcessed?
      modifies this
      ensures bytes == old(bytes) + ResultFields(result) && SizedResult(result)
    {
      hide IdBytes, U64Bytes, VersionedBytes;
      match result {
        case ResourcePoolCreated(poolId) => Raw(IdBytes(poolId));
        case PromiseCommitted(promiseId, version) => Versioned(promiseId, version);
        case PromiseReleased(promiseId, version) => Versioned(promiseId, version);
        case ExpirationsProcessed(count) => Raw(U64Bytes(count));
      }
    }

    /** The fields behind a result's tag. */
    method ResultBody(result: CommandResult) returns (r: Result<(), StorageError>)
      requires Indexed(result)
      modifies this
      ensures old(bytes) <= bytes && (r.Ok? <==> SizedResult(result)) && (r.Err? ==> r.error == OversizedField)
      ensures r.Ok? ==> bytes == old(bytes) + ResultFields(result)
    {
      hide ResultFields, SizedResult, Indexed;
      match result {
        case CapacityRevised(_, _, _) => r := Revised(result);
        case HoldHeld(_) => r := HoldOutcome(result);
        case HoldUnavailable(_) => r := HoldOutcome(result);
        case ChoiceHeld(_, _) => r := ChoiceOutcome(result);
        case ChoiceUnavailable(_) => r := ChoiceOutcome(result);
        case SlotHeld(_, _) => r := SlotOutcome(result);
        case SlotUnavailable(_) => r := SlotOutcome(result);
        case PromiseReplaced(_, _) => r := ReplaceOutcome(result);
        case ReplaceUnavailable(_) => r := ReplaceOutcome(result);
        case _ =>
          SingleOutcome(result);
          r := Ok(());
      }
    }

    method OneResponse(response: Response) returns (r: Result<(), StorageError>)
      requires response.Ok? ==> Indexed(response.value)
      modifies this
      ensures old(bytes) <= bytes && (r.Ok? <==> SizedResponse(response)) && (r.Err? ==> r.error == OversizedField)
      ensures r.Ok? ==> bytes == old(bytes) + ResponseBytes(response)
    {
      hide ResultBytes, ErrorTag, SizedResult, Indexed;
      if response.Ok? {
        Raw([1]);
        var _ :- OneResult(response.value);
      } else {
        Raw([2]);
        Raw([ErrorTag(response.error)]);
      }
      r := Ok(());
    }

    // ---- Entities ----

    method OnePool(pool: Pool) returns (r: Result<(), StorageError>)
      modifies this
      ensures old(bytes) <= bytes && (r.Ok? <==> SizedPool(text, pool)) && (r.Err? ==> r.error == OversizedField)
      ensures r.Ok? ==> bytes == old(bytes) + PoolBytes(text, pool)
    {
      hide IdBytes, StringBytes, UnitBytes, CurveBytes, SizedString;
      ghost var before := bytes;
      Raw(IdBytes(pool.id));
      var _ :- Text(pool.displayName);
      var _ :- Measure(pool.unit);
      var _ :- Curve(pool.curve);
      Regroup4(before, IdBytes(pool.id), StringBytes(text, pool.displayName), UnitBytes(text, pool.unit),
               CurveBytes(pool.curve));
      r := Ok(());
    }

    method Pools(pools: seq<Pool>) returns (r: Result<(), StorageError>)
      modifies this
      ensures old(bytes) <= bytes && (r.Ok? <==> SizedPools(text, pools)) && (r.Err? ==> r.error == OversizedField)
      ensures r.Ok? ==> bytes == old(bytes) + PoolsBytes(text, pools)
    {
      hide U32Bytes, PoolBytes, SizedPool, Flatten;
      ghost var before, parts := bytes, PoolParts(text, pools);
      var _ :- Length(|pools|);
      FlattenNone(parts);
      for i := 0 to |pools|
        invariant before <= bytes && bytes == before + (U32Bytes(|pools|) + Flatten(parts[..i]))
        invariant forall k :: 0 <= k < i ==> SizedPool(text, pools[k])
      {
        FlattenPush(parts, i);
        var _ :- OnePool(pools[i]);
      }
      assert parts[..|parts|] == parts;
      r := Ok(());
    }

    method OnePromise(p: Promise) returns (r: Result<(), StorageError>)
      modifies this
      ensures old(bytes) <= bytes && (r.Ok? <==> |p.bundle| <= U32_MAX) && (r.Err? ==> r.error == OversizedField)
      ensures r.Ok? ==> bytes == old(bytes) + PromiseBytes(p)
    {
      hide IdBytes, StateBytes, BundleBytes, U64Bytes;
      ghost var before := bytes;
      Raw(IdBytes(p.id));
      Raw(StateBytes(p.state));
      var _ :- ClaimBundle(p.bundle);
      Raw(U64Bytes(p.version));
      Raw(U64Bytes(p.createdSequence));
      Raw(U64Bytes(p.updatedSequence));
      Regroup6(before, IdBytes(p.id), StateBytes(p.state), BundleBytes(p.bundle), U64Bytes(p.version),
               U64Bytes(p.createdSequence), U64Bytes(p.updatedSequence));
      r := Ok(());
    }

    method Promises(promises: seq<Promise>) returns (r: Result<(), StorageError>)
      modifies this
      ensures old(bytes) <= bytes && (r.Ok? <==> SizedPromises(promises)) && (r.Err? ==> r.error == OversizedField)
      ensures r.Ok? ==> bytes == old(bytes) + PromisesBytes(promises)
    {
      hide U32Bytes, PromiseBytes, Flatten;
      ghost var before, parts := bytes, PromiseParts(promises);
      var _ :- Length(|promises|);
      FlattenNone(parts);
      for i := 0 to |promises|
        invariant before <= bytes && bytes == before + (U32Bytes(|promises|) + Flatten(parts[..i]))
        invariant forall k :: 0 <= k < i ==> |promises[k].bundle| <= U32_MAX
      {
        FlattenPush(parts, i);
        var _ :- OnePromise(promises[i]);
      }
      assert parts[..|parts|] == parts;
      r := Ok(());
    }

    method Data(data: EventData) returns (r: Result<(), StorageError>)
      modifies this
      ensures old(bytes) <= bytes && (r.Ok? <==> SizedData(data)) && (r.Err? ==> r.error == OversizedField)
      ensures r.Ok? ==> bytes == old(bytes) + DataBytes(data)
    {
      hide IdBytes, U64Bytes, IntervalBytes, IdsBytes;
      ghost var before := bytes;
      match data {
        case OnPool(poolId) =>
          Raw([1]);
          Raw(IdBytes(poolId));
        case OnPromise(promiseId, version) =>
          Raw([2]);
          Raw(IdBytes(promiseId));
          Raw(U64Bytes(version));
          Regroup3(before, [2], IdBytes(promiseId), U64Bytes(version));
        case OnDeficit(poolId, interval, quantity, promiseIds) =>
          Raw([3]);
          Raw(IdBytes(poolId));
          Span(interval);
          Raw(U64Bytes(quantity));
          var _ :- Ids(promiseIds);
          Regroup5(before, [3], IdBytes(poolId), IntervalBytes(interval), U64Bytes(quantity), IdsBytes(promiseIds));
      }
      r := Ok(());
    }

    method OneEvent(event: Event) returns (r: Result<(), StorageError>)
      modifies this
      ensures old(bytes) <= bytes && (r.Ok? <==> SizedData(event.data)) && (r.Err? ==> r.error == OversizedField)
      ensures r.Ok? ==> bytes == old(bytes) + EventBytes(event)
    {
      hide U64Bytes, KindTag, DataBytes, SizedData;
      ghost var before := bytes;
      Raw(U64Bytes(event.sequence));
      Raw(U64Bytes(event.timestamp));
      Raw([KindTag(event.kind)]);
      var _ :- Data(event.data);
      Regroup4(before, U64Bytes(event.sequence), U64Bytes(event.timestamp), [KindTag(event.kind)],
               DataBytes(event.data));
      r := Ok(());
    }

    method Events(events: seq<Event>) returns (r: Result<(), StorageError>)
      modifies this
      ensures old(bytes) <= bytes && (r.Ok? <==> SizedEvents(events)) && (r.Err? ==> r.error == OversizedField)
      ensures r.Ok? ==> bytes == old(bytes) + EventsBytes(events)
    {
      hide U32Bytes, EventBytes, SizedData, Flatten;
      ghost var before, parts := bytes, EventParts(events);
      var _ :- Length(|events|);
      FlattenNone(parts);
      for i := 0 to |events|
        invariant before <= bytes && bytes == before + (U32Bytes(|events|) + Flatten(parts[..i]))
        invariant forall k :: 0 <= k < i ==> SizedData(events[k].data)
      {
        FlattenPush(parts, i);
        var _ :- OneEvent(events[i]);
      }
      assert parts[..|parts|] == parts;
      r := Ok(());
    }

    // ---- Transitions ----

    /** The command behind its length, which is written over four reserved bytes once it is known. */
    method Nested(command: Command) returns (r: Result<(), StorageError>)
      modifies this
      ensures old(bytes) <= bytes && (r.Err? ==> r.error == OversizedField)
      ensures r.Ok? <==> SizedCommand(text, command) && |CommandBytes(text, command)| <= U32_MAX
      ensures r.Ok? ==> bytes == old(bytes) + NestedBytes(text, command)
    {
      hide U32Bytes, CommandBytes, SizedCommand;
      var lengthOffset := |bytes|;
      ghost var before := bytes;
      Raw(U32Bytes(0));
      var start := |bytes|;
      var _ :- OneCommand(command);
      var length := |bytes| - start;
      if length > U32_MAX {
        return Err(OversizedField);
      }
      assert bytes == before + U32Bytes(0) + CommandBytes(text, command);
      bytes := bytes[..lengthOffset] + U32Bytes(length) + bytes[lengthOffset + 4..];
      r := Ok(());
    }

    method Reply(t: DurableTransition) returns (r: Result<(), StorageError>)
      requires (t.response.Ok? ==> Indexed(t.response.value)) && |t.digest| == 32
      modifies this
      ensures old(bytes) <= bytes && (r.Err? ==> r.error == OversizedField)
      ensures r.Ok?
              <==> SizedString(text, t.identity.clientId) && SizedString(text, t.identity.key)
                   && SizedResponse(t.response)
      ensures r.Ok? ==> bytes == old(bytes) + ReplyBytes(text, t)
    {
      hide StringBytes, DigestBytes, ResponseBytes, SizedString, SizedResponse, Indexed;
      ghost var before := bytes;
      var _ :- Text(t.identity.clientId);
      var _ :- Text(t.identity.key);
      Raw(DigestBytes(t.digest));
      var _ :- OneResponse(t.response);
      Regroup4(before, StringBytes(text, t.identity.clientId), StringBytes(text, t.identity.key), DigestBytes(t.digest),
               ResponseBytes(t.response));
      r := Ok(());
    }

    method Changes(t: DurableTransition) returns (r: Result<(), StorageError>)
      modifies this
      ensures old(bytes) <= bytes && (r.Err? ==> r.error == OversizedField)
      ensures r.Ok? <==> SizedPools(text, t.pools) && SizedPromises(t.promises) && SizedEvents(t.events)
      ensures r.Ok? ==> bytes == old(bytes) + ChangeBytes(text, t)
    {
      hide PoolsBytes, PromisesBytes, EventsBytes, U64Bytes, SizedPools, SizedPromises, SizedEvents;
      ghost var before := bytes;
      var _ :- Pools(t.pools);
      var _ :- Promises(t.promises);
      var _ :- Events(t.events);
      Raw(U64Bytes(t.finalSequence));
      Regroup4(before, PoolsBytes(text, t.pools), PromisesBytes(t.promises), EventsBytes(t.events),
               U64Bytes(t.finalSequence));
      r := Ok(());
    }

    method Fields(t: DurableTransition) returns (r: Result<(), StorageError>)
      requires (t.response.Ok? ==> Indexed(t.response.value)) && |t.digest| == 32
      modifies this
      ensures old(bytes) <= bytes && (r.Ok? <==> SizedTransition(text, t)) && (r.Err? ==> r.error == OversizedField)
      ensures r.Ok? ==> bytes == old(bytes) + TransitionBytes(text, t)
    {
      hide NestedBytes, ReplyBytes, ChangeBytes, CommandBytes, SizedCommand, SizedString, SizedResponse, SizedPools,
           SizedPromises, SizedEvents, Indexed;
      ghost var before := bytes;
      Raw([TRANSITION_FORMAT_VERSION]);
      var _ :- Nested(t.command);
      var _ :- Reply(t);
      var _ :- Changes(t);
      Regroup4(before, [TRANSITION_FORMAT_VERSION], NestedBytes(text, t.command), ReplyBytes(text, t),
               ChangeBytes(text, t));
      r := Ok(());
    }

    /** Appends a transition payload, or leaves the destination as it was. */
    method EncodeTransitionInto(t: DurableTransition) returns (r: Result<(), StorageError>)
      requires (t.response.Ok? ==> Indexed(t.response.value)) && |t.digest| == 32
      modifies this
      ensures match EncodeTransition(text, t)
              case Ok(payload) => r.Ok? && bytes == old(bytes) + payload
              case Err(error) => r == Err(error) && bytes == old(bytes)
    {
      hide TransitionBytes, SizedTransition, Indexed;
      var start := |bytes|;
      r := Fields(t);
      if r.Err? {
        bytes := bytes[..start];
      }
    }
  }

  /** Alternatives carry their positions, as every unavailable choice's do. */
  predicate Numbered(alternatives: seq<ChoiceConflict>) {
    forall i :: 0 <= i < |alternatives| ==> alternatives[i].alternative == i
  }

  /** Indices in a result are not negative and number its alternatives. */
  predicate Indexed(result: CommandResult) {
    (result.ChoiceHeld? ==> 0 <= result.alternative) && (result.ChoiceUnavailable? ==> Numbered(result.alternatives))
  }

  lemma NothingFollows(text: Text)
    ensures FieldBytes(text, ProcessExpirations) == [] && SizedOperation(text, ProcessExpirations)
  {
  }

  lemma FlattenNone(parts: seq<seq<byte>>)
    ensures Flatten(parts[..0]) == []
  {
  }

  lemma FlattenPush(parts: seq<seq<byte>>, i: nat)
    requires i < |parts|
    ensures Flatten(parts[..i + 1]) == Flatten(parts[..i]) + parts[i]
  {
    assert parts[..i + 1][..i] == parts[..i];
  }

  lemma Regroup5(s: seq<byte>, a: seq<byte>, b: seq<byte>, c: seq<byte>, d: seq<byte>, e: seq<byte>)
    ensures s + a + b + c + d + e == s + (a + (b + (c + (d + e))))
  {
    Regroup4(s + a, b, c, d, e);
    Regroup3(s, a, b + (c + (d + e)), []);
  }
}
