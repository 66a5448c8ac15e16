/** A cursor over payload bytes: every read advances it past one field or reports why it cannot. */
module PayloadReaders {
  import opened Results
  import opened Bytes
  import opened Intervals
  import opened CapacityCurves
  import opened Domain
  import opened Batches
  import opened WalRecords
  import opened Payloads
  import opened CommandPayloads
  import opened ResponsePayloads
  import opened EntityPayloads
  import opened TransitionPayloads

  /** A result with what is left to read. */
  function Outcome<T>(r: Result<T, StorageError>, rest: seq<byte>): Read<T> {
    if r.Err? then Err(r.error) else Ok((r.value, rest))
  }

  class PayloadReader {
    const text: Text
    const bytes: seq<byte>
    var offset: nat

    predicate Valid()
      reads this
    {
      offset <= |bytes|
    }

    function Remaining(): seq<byte>
      requires Valid()
      reads this
    {
      bytes[offset..]
    }

    constructor (text: Text, bytes: seq<byte>)
      ensures Valid() && this.text == text && this.bytes == bytes && Remaining() == bytes
    {
      this.text, this.bytes, offset := text, bytes, 0;
    }

    method Take(n: nat) returns (r: Result<seq<byte>, StorageError>)
      requires Valid()
      modifies this
      ensures Valid() && Outcome(r, Remaining()) == Payloads.Take(n, old(Remaining()))
    {
      if offset + n > |bytes| {
        return Err(TruncatedPayload);
      }
      var value := bytes[offset..offset + n];
      assert Remaining()[..n] == value && Remaining()[n..] == bytes[offset + n..];
      offset := offset + n;
      r := Ok(value);
    }

    method Byte() returns (r: Result<byte, StorageError>)
      requires Valid()
      modifies this
      ensures Valid() && Outcome(r, Remaining()) == ReadByte(old(Remaining()))
    {
      var raw :- Take(1);
      r := Ok(raw[0]);
    }

    method U32() returns (r: Result<nat, StorageError>)
      requires Valid()
      modifies this
      ensures Valid() && Outcome(r, Remaining()) == ReadU32(old(Remaining()))
    {
      hide FromLittleEndian;
      var raw :- Take(4);
      r := Ok(FromLittleEndian(raw));
    }

    method U64() returns (r: Result<int, StorageError>)
      requires Valid()
      modifies this
      ensures Valid() && Outcome(r, Remaining()) == ReadU64(old(Remaining()))
    {
      hide FromLittleEndian;
      var raw :- Take(8);
      r := Ok(FromLittleEndian(raw));
    }

    method U128() returns (r: Result<int, StorageError>)
      requires Valid()
      modifies this
      ensures Valid() && Outcome(r, Remaining()) == ReadU128(old(Remaining()))
    {
      hide FromLittleEndian;
      var raw :- Take(16);
      r := Ok(FromLittleEndian(raw));
    }

    method I64() returns (r: Result<int, StorageError>)
      requires Valid()
      modifies this
      ensures Valid() && Outcome(r, Remaining()) == ReadI64(old(Remaining()))
    {
      hide FromLittleEndian, LittleEndian;
      var raw :- Take(8);
      LittleEndianExact(raw);
      Limits();
      r := Ok(Signed64(FromLittleEndian(raw)));
    }

    method Id() returns (r: Result<int, StorageError>)
      requires Valid()
      modifies this
      ensures Valid() && Outcome(r, Remaining()) == ReadId(old(Remaining()))
    {
      hide FromBigEndian;
      var raw :- Take(16);
      r := Ok(FromBigEndian(raw));
    }

    method String() returns (r: Result<string, StorageError>)
      requires Valid()
      modifies this
      ensures Valid() && Outcome(r, Remaining()) == ReadString(text, old(Remaining()))
    {
      hide ReadU32, Payloads.Take;
      var length :- U32();
      var raw :- Take(length);
      var value := text.decode(raw);
      if value.None? {
        return Err(InvalidText);
      }
      r := Ok(value.value);
    }

    method OneInterval() returns (r: Result<Interval, StorageError>)
      requires Valid()
      modifies this
      ensures Valid() && Outcome(r, Remaining()) == ReadInterval(old(Remaining()))
    {
      hide ReadI64;
      var start :- I64();
      var end :- I64();
      if start >= end {
        return Err(InvalidValue(DomainError.InvalidInterval));
      }
      r := Ok(Interval(start, end));
    }

    method OneUnit() returns (r: Result<Unit, StorageError>)
      requires Valid()
      modifies this
      ensures Valid() && Outcome(r, Remaining()) == ReadUnit(text, old(Remaining()))
    {
      hide ReadString, ReadU64;
      var name :- String();
      var subunits :- U64();
      if text.blank(name) {
        return Err(InvalidValue(DomainError.InvalidUnitName));
      }
      if subunits == 0 {
        return Err(InvalidValue(DomainError.InvalidUnitScale));
      }
      r := Ok(Unit(name, subunits));
    }

    method Segment() returns (r: Result<CapacitySegment, StorageError>)
      requires Valid()
      modifies this
      ensures Valid() && Outcome(r, Remaining()) == ReadSegment(old(Remaining()))
    {
      hide ReadInterval, ReadU64;
      var interval :- OneInterval();
      var capacity :- U64();
      r := Ok(CapacitySegment(interval, capacity));
    }

    method Curve() returns (r: Result<seq<CapacitySegment>, StorageError>)
      requires Valid()
      modifies this
      ensures Valid() && Outcome(r, Remaining()) == ReadCurve(old(Remaining()))
    {
      hide ReadSegment, FromSorted, ReadU32, ReadMany;
      var count :- U32();
      ghost var start := Remaining();
      var items: seq<CapacitySegment> := [];
      ManyNone(ReadSegment, AnyOrder<CapacitySegment>, UNORDERED, start);
      for i := 0 to count
        invariant Valid()
                  && ReadMany(ReadSegment, AnyOrder<CapacitySegment>, UNORDERED, i, start) == Ok((items, Remaining()))
      {
        ManyLast(ReadSegment, AnyOrder<CapacitySegment>, UNORDERED, i, start);
        ghost var before := Remaining();
        var item := Segment();
        assert Outcome(item, Remaining()) == ReadSegment(before);
        if item.Err? {
          ManyStops(ReadSegment, AnyOrder<CapacitySegment>, UNORDERED, i + 1, count, start);
          return Err(item.error);
        }
        items := items + [item.value];
      }
      var curve := FromSorted(items);
      if curve.Err? {
        return Err(InvalidValue(CurveFault(curve.error)));
      }
      r := Ok(curve.value);
    }

    method OneClaim() returns (r: Result<Claim, StorageError>)
      requires Valid()
      modifies this
      ensures Valid() && Outcome(r, Remaining()) == ReadClaim(old(Remaining()))
    {
      hide ReadId, ReadInterval, ReadU64;
      var poolId :- Id();
      var interval :- OneInterval();
      var quantity :- U64();
      if quantity == 0 {
        return Err(InvalidValue(DomainError.InvalidQuantity));
      }
      if quantity > MAX_QUANTITY {
        return Err(InvalidValue(DomainError.QuantityOutOfRange));
      }
      r := Ok(Claim(poolId, interval, quantity));
    }

    method ClaimBundle() returns (r: Result<Bundle, StorageError>)
      requires Valid()
      modifies this
      ensures Valid() && Outcome(r, Remaining()) == ReadBundle(old(Remaining()))
    {
      hide ReadClaim, ReadU32, ReadMany;
      var count :- U32();
      ghost var start := Remaining();
      var items: seq<Claim> := [];
      ManyNone(ReadClaim, AnyOrder<Claim>, UNORDERED, start);
      for i := 0 to count
        invariant Valid() && ReadMany(ReadClaim, AnyOrder<Claim>, UNORDERED, i, start) == Ok((items, Remaining()))
      {
        ManyLast(ReadClaim, AnyOrder<Claim>, UNORDERED, i, start);
        ghost var before := Remaining();
        var item := OneClaim();
        assert Outcome(item, Remaining()) == ReadClaim(before);
        if item.Err? {
          ManyStops(ReadClaim, AnyOrder<Claim>, UNORDERED, i + 1, count, start);
          return Err(item.error);
        }
        items := items + [item.value];
      }
      if items == [] {
        return Err(InvalidValue(DomainError.EmptyBundle));
      }
      r := Ok(items);
    }

    method Choice() returns (r: Result<seq<Bundle>, StorageError>)
      requires Valid()
      modifies this
      ensures Valid() && Outcome(r, Remaining()) == ReadChoice(old(Remaining()))
    {
      hide ReadBundle, ReadU32, ReadMany;
      var count :- U32();
      ghost var start := Remaining();
      var items: seq<Bundle> := [];
      ManyNone(ReadBundle, AnyOrder<Bundle>, UNORDERED, start);
      for i := 0 to count
        invariant Valid() && ReadMany(ReadBundle, AnyOrder<Bundle>, UNORDERED, i, start) == Ok((items, Remaining()))
      {
        ManyLast(ReadBundle, AnyOrder<Bundle>, UNORDERED, i, start);
        ghost var before := Remaining();
        var item := ClaimBundle();
        assert Outcome(item, Remaining()) == ReadBundle(before);
        if item.Err? {
          ManyStops(ReadBundle, AnyOrder<Bundle>, UNORDERED, i + 1, count, start);
          return Err(item.error);
        }
        items := items + [item.value];
      }
      if items == [] {
        return Err(InvalidValue(DomainError.EmptyChoice));
      }
      r := Ok(items);
    }

    method OneRelative() returns (r: Result<RelativeClaim, StorageError>)
      requires Valid()
      modifies this
      ensures Valid() && Outcome(r, Remaining()) == ReadRelativeClaim(old(Remaining()))
    {
      hide ReadId, ReadI64, ReadU64;
      var poolId :- Id();
      var startOffset :- I64();
      var endOffset :- I64();
      var quantity :- U64();
      if startOffset >= endOffset {
        return Err(InvalidValue(DomainError.InvalidInterval));
      }
      if quantity == 0 {
        return Err(InvalidValue(DomainError.InvalidQuantity));
      }
      if quantity > MAX_QUANTITY {
        return Err(InvalidValue(DomainError.QuantityOutOfRange));
      }
      r := Ok(RelativeClaim(poolId, startOffset, endOffset, quantity));
    }

    method Relative() returns (r: Result<seq<RelativeClaim>, StorageError>)
      requires Valid()
      modifies this
      ensures Valid() && Outcome(r, Remaining()) == ReadRelative(old(Remaining()))
    {
      hide ReadRelativeClaim, ReadU32, ReadMany;
      var count :- U32();
      ghost var start := Remaining();
      var items: seq<RelativeClaim> := [];
      ManyNone(ReadRelativeClaim, AnyOrder<RelativeClaim>, UNORDERED, start);
      for i := 0 to count
        invariant Valid()
                  && ReadMany(ReadRelativeClaim, AnyOrder<RelativeClaim>, UNORDERED, i, start)
                     == Ok((items, Remaining()))
      {
        ManyLast(ReadRelativeClaim, AnyOrder<RelativeClaim>, UNORDERED, i, start);
        ghost var before := Remaining();
        var item := OneRelative();
        assert Outcome(item, Remaining()) == ReadRelativeClaim(before);
        if item.Err? {
          ManyStops(ReadRelativeClaim, AnyOrder<RelativeClaim>, UNORDERED, i + 1, count, start);
          return Err(item.error);
        }
        items := items + [item.value];
      }
      if items == [] {
        return Err(InvalidValue(DomainError.EmptyRelativeBundle));
      }
      r := Ok(items);
    }

    method Version() returns (r: Result<int, StorageError>)
      requires Valid()
      modifies this
      ensures Valid() && Outcome(r, Remaining()) == ReadVersion(old(Remaining()))
    {
      hide ReadU64;
      var version :- U64();
      if version == 0 {
        return Err(ZERO_VERSION);
      }
      r := Ok(version);
    }

    method Mode() returns (r: Result<RevisionMode, StorageError>)
      requires Valid()
      modifies this
      ensures Valid() && Outcome(r, Remaining()) == ReadMode(old(Remaining()))
    {
      hide ReadByte;
      var tag :- Byte();
      if tag == 1 {
        return Ok(Strict);
      }
      if tag == 2 {
        return Ok(Force);
      }
      r := Err(InvalidTag("capacity revision mode", tag));
    }

    method NewState() returns (r: Result<ReplacementState, StorageError>)
      requires Valid()
      modifies this
      ensures Valid() && Outcome(r, Remaining()) == ReadNewState(old(Remaining()))
    {
      hide ReadByte, ReadI64;
      var tag :- Byte();
      if tag == 1 {
        var deadline :- I64();
        return Ok(ReplacedHeld(deadline));
      }
      if tag == 2 {
        return Ok(ReplacedCommitted);
      }
      r := Err(InvalidTag("replacement state", tag));
    }

    method Create() returns (r: Result<Operation, StorageError>)
      requires Valid()
      modifies this
      ensures Valid() && Outcome(r, Remaining()) == ReadCreate(text, old(Remaining()))
    {
      hide ReadId, ReadString, ReadUnit, ReadCurve, ReadMode, ReadBundle, ReadChoice, ReadRelative, ReadI64,
           ReadVersion, ReadNewState;
      var poolId :- Id();
      var displayName :- String();
      var unit :- OneUnit();
      var curve :- Curve();
      r := Ok(CreateResourcePool(poolId, displayName, unit, curve));
    }

    method Revise() returns (r: Result<Operation, StorageError>)
      requires Valid()
      modifies this
      ensures Valid() && Outcome(r, Remaining()) == ReadRevise(old(Remaining()))
    {
      hide ReadId, ReadString, ReadUnit, ReadCurve, ReadMode, ReadBundle, ReadChoice, ReadRelative, ReadI64,
           ReadVersion, ReadNewState;
      var poolId :- Id();
      var curve :- Curve();
      var mode :- Mode();
      r := Ok(ReviseCapacity(poolId, curve, mode));
    }

    method HoldFields() returns (r: Result<Operation, StorageError>)
      requires Valid()
      modifies this
      ensures Valid() && Outcome(r, Remaining()) == ReadHold(old(Remaining()))
    {
      hide ReadId, ReadString, ReadUnit, ReadCurve, ReadMode, ReadBundle, ReadChoice, ReadRelative, ReadI64,
           ReadVersion, ReadNewState;
      var promiseId :- Id();
      var bundle :- ClaimBundle();
      var expiresAt :- I64();
      r := Ok(Hold(promiseId, bundle, expiresAt));
    }

    method HoldOneOfFields() returns (r: Result<Operation, StorageError>)
      requires Valid()
      modifies this
      ensures Valid() && Outcome(r, Remaining()) == ReadHoldOneOf(old(Remaining()))
    {
      hide ReadId, ReadString, ReadUnit, ReadCurve, ReadMode, ReadBundle, ReadChoice, ReadRelative, ReadI64,
           ReadVersion, ReadNewState;
      var promiseId :- Id();
      var choice :- Choice();
      var expiresAt :- I64();
      r := Ok(HoldOneOf(promiseId, choice, expiresAt));
    }

    method HoldFirstSlotFields() returns (r: Result<Operation, StorageError>)
      requires Valid()
      modifies this
      ensures Valid() && Outcome(r, Remaining()) == ReadHoldFirstSlot(old(Remaining()))
    {
      hide ReadId, ReadString, ReadUnit, ReadCurve, ReadMode, ReadBundle, ReadChoice, ReadRelative, ReadI64,
           ReadVersion, ReadNewState;
      var promiseId :- Id();
      var relative :- Relative();
      var earliest :- I64();
      var latest :- I64();
      var step :- I64();
      var expiresAt :- I64();
      r := Ok(HoldFirstSlot(promiseId, relative, earliest, latest, step, expiresAt));
    }

    method CommitFields() returns (r: Result<Operation, StorageError>)
      requires Valid()
      modifies this
      ensures Valid() && Outcome(r, Remaining()) == ReadCommit(old(Remaining()))
    {
      hide ReadId, ReadString, ReadUnit, ReadCurve, ReadMode, ReadBundle, ReadChoice, ReadRelative, ReadI64,
           ReadVersion, ReadNewState;
      var promiseId :- Id();
      var expectedVersion :- Version();
      r := Ok(Commit(promiseId, expectedVersion));
    }

    method ReleaseFields() returns (r: Result<Operation, StorageError>)
      requires Valid()
      modifies this
      ensures Valid() && Outcome(r, Remaining()) == ReadRelease(old(Remaining()))
    {
      hide ReadId, ReadString, ReadUnit, ReadCurve, ReadMode, ReadBundle, ReadChoice, ReadRelative, ReadI64,
           ReadVersion, ReadNewState;
      var promiseId :- Id();
      var expectedVersion :- Version();
      r := Ok(Release(promiseId, expectedVersion));
    }

    method ReplaceFields() returns (r: Result<Operation, StorageError>)
      requires Valid()
      modifies this
      ensures Valid() && Outcome(r, Remaining()) == ReadReplace(old(Remaining()))
    {
      hide ReadId, ReadString, ReadUnit, ReadCurve, ReadMode, ReadBundle, ReadChoice, ReadRelative, ReadI64,
           ReadVersion, ReadNewState;
      var promiseId :- Id();
      var expectedVersion :- Version();
      var newBundle :- ClaimBundle();
      var newState :- NewState();
      r := Ok(Replace(promiseId, expectedVersion, newBundle, newState));
    }

    method OneOperation() returns (r: Result<Operation, StorageError>)
      requires Valid()
      modifies this
      ensures Valid() && Outcome(r, Remaining()) == ReadOperation(text, old(Remaining()))
    {
      hide ReadByte, ReadCreate, ReadRevise, ReadHold, ReadHoldOneOf, ReadHoldFirstSlot, ReadCommit, ReadRelease,
           ReadReplace;
      var tag :- Byte();
      if tag == CREATE_POOL {
        r := Create();
      } else if tag == REVISE_CAPACITY {
        r := Revise();
      } else if tag == HOLD {
        r := HoldFields();
      } else if tag == HOLD_ONE_OF {
        r := HoldOneOfFields();
      } else if tag == HOLD_FIRST_SLOT {
        r := HoldFirstSlotFields();
      } else if tag == COMMIT {
        r := CommitFields();
      } else if tag == RELEASE {
        r := ReleaseFields();
      } else if tag == REPLACE {
        r := ReplaceFields();
      } else if tag == PROCESS_EXPIRATIONS {
        r := Ok(ProcessExpirations);
      } else {
        r := Err(InvalidTag("command operation", tag));
      }
    }

    method OneCommand() returns (r: Result<Command, StorageError>)
      requires Valid()
      modifies this
      ensures Valid() && Outcome(r, Remaining()) == ReadCommand(text, old(Remaining()))
    {
      hide ReadByte, ReadString, ReadOperation;
      var version :- Byte();
      if version != COMMAND_FORMAT_VERSION {
        return Err(UnsupportedPayload(version));
      }
      var clientId :- String();
      var key :- String();
      var operation :- OneOperation();
      r := Ok(Command(Identity(clientId, key), operation));
    }

    method PromiseVersion() returns (r: Result<int, StorageError>)
      requires Valid()
      modifies this
      ensures Valid() && Outcome(r, Remaining()) == ReadPromiseVersion(old(Remaining()))
    {
      hide ReadU64;
      var version :- U64();
      if version == 0 {
        return Err(ZERO_PROMISE_VERSION);
      }
      r := Ok(version);
    }

    method Ids() returns (r: Result<seq<int>, StorageError>)
      requires Valid()
      modifies this
      ensures Valid() && Outcome(r, Remaining()) == ReadIds(old(Remaining()))
    {
      hide ReadId, ReadU32, ReadMany;
      var count :- U32();
      ghost var start := Remaining();
      var items: seq<int> := [];
      ManyNone(ReadId, Below, UNSORTED_IDS, start);
      for i := 0 to count
        invariant Valid() && ReadMany(ReadId, Below, UNSORTED_IDS, i, start) == Ok((items, Remaining()))
      {
        ManyLast(ReadId, Below, UNSORTED_IDS, i, start);
        ghost var before := Remaining();
        var item := Id();
        assert Outcome(item, Remaining()) == ReadId(before);
        if item.Err? {
          ManyStops(ReadId, Below, UNSORTED_IDS, i + 1, count, start);
          return Err(item.error);
        }
        if items != [] && items[|items| - 1] >= item.value {
          ManyStops(ReadId, Below, UNSORTED_IDS, i + 1, count, start);
          return Err(UNSORTED_IDS);
        }
        items := items + [item.value];
      }
      r := Ok(items);
    }

    method Amounts() returns (r: Result<(int, int, int), StorageError>)
      requires Valid()
      modifies this
      ensures Valid() && Outcome(r, Remaining()) == ReadAmounts(old(Remaining()))
    {
      hide ReadU64;
      var required :- U64();
      var available :- U64();
      var deficit :- U64();
      r := Ok((required, available, deficit));
    }

    method Conflict() returns (r: Result<AvailabilityConflict, StorageError>)
      requires Valid()
      modifies this
      ensures Valid() && Outcome(r, Remaining()) == ReadConflict(old(Remaining()))
    {
      hide ReadId, ReadInterval, ReadAmounts, ReadIds;
      var poolId :- Id();
      var interval :- OneInterval();
      var amounts :- Amounts();
      var (required, available, deficit) := amounts;
      var promiseIds :- Ids();
      if required <= available || required - available != deficit {
        return Err(CorruptPayload("invalid availability conflict"));
      }
      r := Ok(AvailabilityConflict(poolId, interval, required, available, deficit, promiseIds));
    }

    method Conflicts() returns (r: Result<seq<AvailabilityConflict>, StorageError>)
      requires Valid()
      modifies this
      ensures Valid() && Outcome(r, Remaining()) == ReadConflicts(old(Remaining()))
    {
      hide ReadConflict, ReadU32, ReadMany;
      var count :- U32();
      ghost var start := Remaining();
      var items: seq<AvailabilityConflict> := [];
      ManyNone(ReadConflict, AnyOrder<AvailabilityConflict>, UNORDERED, start);
      for i := 0 to count
        invariant Valid()
                  && ReadMany(ReadConflict, AnyOrder<AvailabilityConflict>, UNORDERED, i, start)
                     == Ok((items, Remaining()))
      {
        ManyLast(ReadConflict, AnyOrder<AvailabilityConflict>, UNORDERED, i, start);
        ghost var before := Remaining();
        var item := Conflict();
        assert Outcome(item, Remaining()) == ReadConflict(before);
        if item.Err? {
          ManyStops(ReadConflict, AnyOrder<AvailabilityConflict>, UNORDERED, i + 1, count, start);
          return Err(item.error);
        }
        items := items + [item.value];
      }
      if items == [] {
        return Err(CorruptPayload("empty unavailable conflict list"));
      }
      r := Ok(items);
    }

    method Deficit() returns (r: Result<CapacityDeficit, StorageError>)
      requires Valid()
      modifies this
      ensures Valid() && Outcome(r, Remaining()) == ReadDeficit(old(Remaining()))
    {
      hide ReadId, ReadInterval, ReadU64, ReadIds;
      var poolId :- Id();
      var interval :- OneInterval();
      var quantity :- U64();
      var promiseIds :- Ids();
      if quantity <= 0 {
        return Err(CorruptPayload("invalid capacity deficit"));
      }
      r := Ok(CapacityDeficit(poolId, interval, quantity, promiseIds));
    }

    method Deficits() returns (r: Result<seq<CapacityDeficit>, StorageError>)
      requires Valid()
      modifies this
      ensures Valid() && Outcome(r, Remaining()) == ReadDeficits(old(Remaining()))
    {
      hide ReadDeficit, ReadU32, ReadMany;
      var count :- U32();
      ghost var start := Remaining();
      var items: seq<CapacityDeficit> := [];
      ManyNone(ReadDeficit, AnyOrder<CapacityDeficit>, UNORDERED, start);
      for i := 0 to count
        invariant Valid()
                  && ReadMany(ReadDeficit, AnyOrder<CapacityDeficit>, UNORDERED, i, start) == Ok((items, Remaining()))
      {
        ManyLast(ReadDeficit, AnyOrder<CapacityDeficit>, UNORDERED, i, start);
        ghost var before := Remaining();
        var item := Deficit();
        assert Outcome(item, Remaining()) == ReadDeficit(before);
        if item.Err? {
          ManyStops(ReadDeficit, AnyOrder<CapacityDeficit>, UNORDERED, i + 1, count, start);
          return Err(item.error);
        }
        items := items + [item.value];
      }
      r := Ok(items);
    }

    method Alternative(expected: nat) returns (r: Result<ChoiceConflict, StorageError>)
      requires Valid()
      modifies this
      ensures Valid() && Outcome(r, Remaining()) == ReadAlternative(expected, old(Remaining()))
    {
      hide ReadU32, ReadConflicts;
      var index :- U32();
      if index != expected {
        return Err(CorruptPayload("non-canonical choice conflict index"));
      }
      var conflicts :- Conflicts();
      r := Ok(ChoiceConflict(index, conflicts));
    }

    method Alternatives() returns (r: Result<seq<ChoiceConflict>, StorageError>)
      requires Valid()
      modifies this
      ensures Valid() && Outcome(r, Remaining()) == ReadAlternatives(old(Remaining()))
    {
      hide ReadU32, ReadAlternative, ReadManyAlternatives;
      var count :- U32();
      if count == 0 {
        return Err(CorruptPayload("empty choice conflict list"));
      }
      ghost var start := Remaining();
      var items: seq<ChoiceConflict> := [];
      NoAlternatives(start);
      for expected := 0 to count
        invariant Valid() && ReadManyAlternatives(expected, start) == Ok((items, Remaining()))
      {
        AlternativesLast(expected, start);
        var item := Alternative(expected);
        if item.Err? {
          AlternativesStop(expected + 1, count, start);
          return Err(item.error);
        }
        items := items + [item.value];
      }
      r := Ok(items);
    }

    method Error() returns (r: Result<DomainError, StorageError>)
      requires Valid()
      modifies this
      ensures Valid() && Outcome(r, Remaining()) == ReadError(old(Remaining()))
    {
      hide ReadByte, ErrorOf;
      var tag :- Byte();
      var error := ErrorOf(tag);
      if error.None? {
        return Err(InvalidTag("domain error", tag));
      }
      r := Ok(error.value);
    }

    method Revised() returns (r: Result<CommandResult, StorageError>)
      requires Valid()
      modifies this
      ensures Valid() && Outcome(r, Remaining()) == ReadRevised(old(Remaining()))
    {
      hide ReadByte, ReadId, ReadU64, ReadU32, ReadU128, ReadI64, ReadDeficits, ReadIds, ReadConflicts,
           ReadAlternatives, ReadPromiseVersion;
      var sequence :- U64();
      var deficits :- Deficits();
      var promiseIds :- Ids();
      if sequence <= 0 {
        return Err(CorruptPayload("invalid capacity revision outcome"));
      }
      r := Ok(CapacityRevised(sequence, deficits, promiseIds));
    }

    method HoldResult() returns (r: Result<CommandResult, StorageError>)
      requires Valid()
      modifies this
      ensures Valid() && Outcome(r, Remaining()) == ReadHoldResult(old(Remaining()))
    {
      hide ReadByte, ReadId, ReadU64, ReadU32, ReadU128, ReadI64, ReadDeficits, ReadIds, ReadConflicts,
           ReadAlternatives, ReadPromiseVersion;
      var tag :- Byte();
      if tag == 1 {
        var promiseId :- Id();
        return Ok(HoldHeld(promiseId));
      }
      if tag == 2 {
        var conflicts :- Conflicts();
        return Ok(HoldUnavailable(conflicts));
      }
      r := Err(InvalidTag("hold outcome", tag));
    }

    method ChoiceResult() returns (r: Result<CommandResult, StorageError>)
      requires Valid()
      modifies this
      ensures Valid() && Outcome(r, Remaining()) == ReadChoiceResult(old(Remaining()))
    {
      hide ReadByte, ReadId, ReadU64, ReadU32, ReadU128, ReadI64, ReadDeficits, ReadIds, ReadConflicts,
           ReadAlternatives, ReadPromiseVersion;
      var tag :- Byte();
      if tag == 1 {
        var promiseId :- Id();
        var alternative :- U32();
        return Ok(ChoiceHeld(promiseId, alternative));
      }
      if tag == 2 {
        var alternatives :- Alternatives();
        return Ok(ChoiceUnavailable(alternatives));
      }
      r := Err(InvalidTag("choice outcome", tag));
    }

    method SlotResult() returns (r: Result<CommandResult, StorageError>)
      requires Valid()
      modifies this
      ensures Valid() && Outcome(r, Remaining()) == ReadSlotResult(old(Remaining()))
    {
      hide ReadByte, ReadId, ReadU64, ReadU32, ReadU128, ReadI64, ReadDeficits, ReadIds, ReadConflicts,
           ReadAlternatives, ReadPromiseVersion;
      var tag :- Byte();
      if tag == 1 {
        var promiseId :- Id();
        var start :- I64();
        return Ok(SlotHeld(promiseId, start));
      }
      if tag == 2 {
        var attempts :- U128();
        if attempts == 0 {
          return Err(CorruptPayload("zero slot attempts"));
        }
        return Ok(SlotUnavailable(attempts));
      }
      r := Err(InvalidTag("slot outcome", tag));
    }

    method Versioned() returns (r: Result<(int, int), StorageError>)
      requires Valid()
      modifies this
      ensures Valid() && Outcome(r, Remaining()) == ReadVersioned(old(Remaining()))
    {
      hide ReadByte, ReadId, ReadU64, ReadU32, ReadU128, ReadI64, ReadDeficits, ReadIds, ReadConflicts,
           ReadAlternatives, ReadPromiseVersion;
      var promiseId :- Id();
      var version :- PromiseVersion();
      r := Ok((promiseId, version));
    }

    method ReplaceResult() returns (r: Result<CommandResult, StorageError>)
      requires Valid()
      modifies this
      ensures Valid() && Outcome(r, Remaining()) == ReadReplaceResult(old(Remaining()))
    {
      hide ReadByte, ReadId, ReadU64, ReadU32, ReadU128, ReadI64, ReadDeficits, ReadIds, ReadConflicts,
           ReadAlternatives, ReadPromiseVersion, ReadVersioned;
      var tag :- Byte();
      if tag == 1 {
        var found :- Versioned();
        return Ok(PromiseReplaced(found.0, found.1));
      }
      if tag == 2 {
        var conflicts :- Conflicts();
        return Ok(ReplaceUnavailable(conflicts));
      }
      r := Err(InvalidTag("replace outcome", tag));
    }

    method OneResult() returns (r: Result<CommandResult, StorageError>)
      requires Valid()
      modifies this
      ensures Valid() && Outcome(r, Remaining()) == ReadResult(old(Remaining()))
    {
      hide ReadByte, ReadId, ReadU64, ReadU32, ReadU128, ReadI64, ReadDeficits, ReadIds, ReadConflicts,
           ReadAlternatives, ReadPromiseVersion, ReadVersioned, ReadRevised, ReadHoldResult, ReadChoiceResult,
           ReadSlotResult, ReadReplaceResult;
      var tag :- Byte();
      match tag {
        case 1 =>
          var poolId :- Id();
          r := Ok(ResourcePoolCreated(poolId));
        case 2 => r := Revised();
        case 3 => r := HoldResult();
        case 4 => r := ChoiceResult();
        case 5 => r := SlotResult();
        case 6 =>
          var found :- Versioned();
          r := Ok(PromiseCommitted(found.0, found.1));
        case 7 =>
          var found :- Versioned();
          r := Ok(PromiseReleased(found.0, found.1));
        case 8 => r := ReplaceResult();
        case 9 =>
          var count :- U64();
          r := Ok(ExpirationsProcessed(count));
        case _ => r := Err(InvalidTag("command result", tag));
      }
    }

    method OneResponse() returns (r: Result<Response, StorageError>)
      requires Valid()
      modifies this
      ensures Valid() && Outcome(r, Remaining()) == ReadResponse(old(Remaining()))
    {
      hide ReadByte, ReadResult, ReadError;
      var tag :- Byte();
      if tag == 1 {
        var result :- OneResult();
        return Ok(Ok(result));
      }
      if tag == 2 {
        var error :- Error();
        return Ok(Err(error));
      }
      r := Err(InvalidTag("command response", tag));
    }

    method OnePool() returns (r: Result<Pool, StorageError>)
      requires Valid()
      modifies this
      ensures Valid() && Outcome(r, Remaining()) == ReadPool(text, old(Remaining()))
    {
      hide ReadId, ReadString, ReadUnit, ReadCurve;
      var id :- Id();
      var displayName :- String();
      var unit :- OneUnit();
      var curve :- Curve();
      r := Ok(Pool(id, displayName, unit, curve));
    }

    method Pools() returns (r: Result<seq<Pool>, StorageError>)
      requires Valid()
      modifies this
      ensures Valid() && Outcome(r, Remaining()) == ReadPools(text, old(Remaining()))
    {
      hide ReadPool, ReadU32, ReadMany;
      var count :- U32();
      ghost var start := Remaining();
      var items: seq<Pool> := [];
      ManyNone(PoolReader(text), PoolsAscend, POOL_ORDER, start);
      for i := 0 to count
        invariant Valid() && ReadMany(PoolReader(text), PoolsAscend, POOL_ORDER, i, start) == Ok((items, Remaining()))
      {
        ManyLast(PoolReader(text), PoolsAscend, POOL_ORDER, i, start);
        ghost var before := Remaining();
        var item := OnePool();
        assert Outcome(item, Remaining()) == PoolReader(text)(before);
        if item.Err? {
          ManyStops(PoolReader(text), PoolsAscend, POOL_ORDER, i + 1, count, start);
          return Err(item.error);
        }
        if items != [] && items[|items| - 1].id >= item.value.id {
          ManyStops(PoolReader(text), PoolsAscend, POOL_ORDER, i + 1, count, start);
          return Err(POOL_ORDER);
        }
        items := items + [item.value];
      }
      r := Ok(items);
    }

    method State() returns (r: Result<PromiseState, StorageError>)
      requires Valid()
      modifies this
      ensures Valid() && Outcome(r, Remaining()) == ReadState(old(Remaining()))
    {
      hide ReadByte, ReadI64;
      var tag :- Byte();
      match tag {
        case 1 =>
          var expiresAt :- I64();
          r := Ok(PromiseState.Held(expiresAt));
        case 2 => r := Ok(PromiseState.Committed);
        case 3 => r := Ok(PromiseState.Released);
        case 4 => r := Ok(PromiseState.Expired);
        case _ => r := Err(InvalidTag("promise state", tag));
      }
    }

    method OnePromise() returns (r: Result<Promise, StorageError>)
      requires Valid()
      modifies this
      ensures Valid() && Outcome(r, Remaining()) == ReadPromise(old(Remaining()))
    {
      hide ReadId, ReadState, ReadBundle, ReadPromiseVersion, ReadU64;
      var id :- Id();
      var state :- State();
      var bundle :- ClaimBundle();
      var version :- PromiseVersion();
      var created :- U64();
      var updated :- U64();
      if created == 0 || updated < created {
        return Err(InvalidValue(DomainError.InvalidPromiseHistory));
      }
      r := Ok(Promise(id, state, bundle, version, created, updated));
    }

    method Promises() returns (r: Result<seq<Promise>, StorageError>)
      requires Valid()
      modifies this
      ensures Valid() && Outcome(r, Remaining()) == ReadPromises(old(Remaining()))
    {
      hide ReadPromise, ReadU32, ReadMany;
      var count :- U32();
      ghost var start := Remaining();
      var items: seq<Promise> := [];
      ManyNone(ReadPromise, PromisesAscend, PROMISE_ORDER, start);
      for i := 0 to count
        invariant Valid() && ReadMany(ReadPromise, PromisesAscend, PROMISE_ORDER, i, start) == Ok((items, Remaining()))
      {
        ManyLast(ReadPromise, PromisesAscend, PROMISE_ORDER, i, start);
        ghost var before := Remaining();
        var item := OnePromise();
        assert Outcome(item, Remaining()) == ReadPromise(before);
        if item.Err? {
          ManyStops(ReadPromise, PromisesAscend, PROMISE_ORDER, i + 1, count, start);
          return Err(item.error);
        }
        if items != [] && items[|items| - 1].id >= item.value.id {
          ManyStops(ReadPromise, PromisesAscend, PROMISE_ORDER, i + 1, count, start);
          return Err(PROMISE_ORDER);
        }
        items := items + [item.value];
      }
      r := Ok(items);
    }

    method Kind() returns (r: Result<EventKind, StorageError>)
      requires Valid()
      modifies this
      ensures Valid() && Outcome(r, Remaining()) == ReadKind(old(Remaining()))
    {
      hide ReadByte;
      var tag :- Byte();
      match tag {
        case 1 => r := Ok(ResourceCreated);
        case 2 => r := Ok(CapacityChanged);
        case 3 => r := Ok(HoldCreated);
        case 4 => r := Ok(HoldCommitted);
        case 5 => r := Ok(HoldReleased);
        case 6 => r := Ok(HoldReplaced);
        case 7 => r := Ok(HoldExpiry);
        case 8 => r := Ok(DeficitCreated);
        case 9 => r := Ok(DeficitChanged);
        case 10 => r := Ok(DeficitResolved);
        case _ => r := Err(InvalidTag("event kind", tag));
      }
    }

    method Data() returns (r: Result<EventData, StorageError>)
      requires Valid()
      modifies this
      ensures Valid() && Outcome(r, Remaining()) == ReadData(old(Remaining()))
    {
      hide ReadByte, ReadId, ReadPromiseVersion, ReadInterval, ReadU64, ReadIds;
      var tag :- Byte();
      if tag == 1 {
        var poolId :- Id();
        return Ok(OnPool(poolId));
      }
      if tag == 2 {
        var promiseId :- Id();
        var version :- PromiseVersion();
        return Ok(OnPromise(promiseId, version));
      }
      if tag == 3 {
        var poolId :- Id();
        var interval :- OneInterval();
        var quantity :- U64();
        var promiseIds :- Ids();
        return Ok(OnDeficit(poolId, interval, quantity, promiseIds));
      }
      r := Err(InvalidTag("event data", tag));
    }

    method OneEvent() returns (r: Result<Event, StorageError>)
      requires Valid()
      modifies this
      ensures Valid() && Outcome(r, Remaining()) == ReadEvent(old(Remaining()))
    {
      hide ReadU64, ReadI64, ReadKind, ReadData, Matches;
      var sequence :- U64();
      var timestamp :- I64();
      var kind :- Kind();
      var data :- Data();
      if !Matches(kind, data) || sequence == 0 || (data.OnDeficit? && data.quantity == 0) {
        return Err(CorruptPayload("invalid event"));
      }
      r := Ok(Event(sequence, timestamp, kind, data));
    }

    method Events() returns (r: Result<seq<Event>, StorageError>)
      requires Valid()
      modifies this
      ensures Valid() && Outcome(r, Remaining()) == ReadEvents(old(Remaining()))
    {
      hide ReadEvent, ReadU32, ReadMany;
      var count :- U32();
      ghost var start := Remaining();
      var items: seq<Event> := [];
      ManyNone(ReadEvent, EventsInOrder, EVENT_ORDER, start);
      for i := 0 to count
        invariant Valid() && ReadMany(ReadEvent, EventsInOrder, EVENT_ORDER, i, start) == Ok((items, Remaining()))
      {
        ManyLast(ReadEvent, EventsInOrder, EVENT_ORDER, i, start);
        ghost var before := Remaining();
        var item := OneEvent();
        assert Outcome(item, Remaining()) == ReadEvent(before);
        if item.Err? {
          ManyStops(ReadEvent, EventsInOrder, EVENT_ORDER, i + 1, count, start);
          return Err(item.error);
        }
        if items != [] && items[|items| - 1].sequence > item.value.sequence {
          ManyStops(ReadEvent, EventsInOrder, EVENT_ORDER, i + 1, count, start);
          return Err(EVENT_ORDER);
        }
        items := items + [item.value];
      }
      r := Ok(items);
    }

    method NestedCommand() returns (r: Result<Command, StorageError>)
      requires Valid()
      modifies this
      ensures Valid() && Outcome(r, Remaining()) == ReadNested(text, old(Remaining()))
    {
      hide ReadU32, Payloads.Take, DecodeCommand;
      var length :- U32();
      var raw :- Take(length);
      r := DecodeCommandBytes(text, raw);
    }

    method Transition() returns (r: Result<DurableTransition, StorageError>)
      requires Valid()
      modifies this
      ensures Valid() && Outcome(r, Remaining()) == ReadTransition(text, old(Remaining()))
    {
      hide ReadByte, ReadNested, ReadString, Payloads.Take, ReadResponse, ReadPools, ReadPromises, ReadEvents,
           ReadU64;
      var version :- Byte();
      if version != TRANSITION_FORMAT_VERSION {
        return Err(UnsupportedPayload(version));
      }
      var command :- NestedCommand();
      var clientId :- String();
      var key :- String();
      var digest :- Take(32);
      var response :- OneResponse();
      var pools :- Pools();
      var promises :- Promises();
      var events :- Events();
      var finalSequence :- U64();
      r := Ok(DurableTransition(command, Identity(clientId, key), digest, response, pools, promises, events,
                                finalSequence));
    }
  }

  // ---- Whole payloads ----

  /** Decodes a command payload; trailing bytes are rejected. */
  method DecodeCommandBytes(text: Text, bytes: seq<byte>) returns (r: Result<Command, StorageError>)
    ensures r == DecodeCommand(text, bytes)
  {
    hide ReadCommand;
    var reader := new PayloadReader(text, bytes);
    var command :- reader.OneCommand();
    if reader.offset != |bytes| {
      return Err(CorruptPayload("trailing command payload bytes"));
    }
    r := Ok(command);
  }

  /** Decodes a transition payload; trailing bytes are rejected. */
  method DecodeTransitionBytes(text: Text, bytes: seq<byte>) returns (r: Result<DurableTransition, StorageError>)
    ensures r == DecodeTransition(text, bytes)
  {
    hide ReadTransition;
    var reader := new PayloadReader(text, bytes);
    var t :- reader.Transition();
    if reader.offset != |bytes| {
      return Err(CorruptPayload("trailing transition payload bytes"));
    }
    r := Ok(t);
  }

  // ---- Counting loops ----

  lemma ManyNone<T>(read: seq<byte> -> Read<T>, follows: (T, T) -> bool, fault: StorageError, start: seq<byte>)
    ensures ReadMany(read, follows, fault, 0, start) == Ok(([], start))
  {
  }

  lemma NoAlternatives(start: seq<byte>)
    ensures ReadManyAlternatives(0, start) == Ok(([], start))
  {
  }

  lemma ManyLast<T>(read: seq<byte> -> Read<T>, follows: (T, T) -> bool, fault: StorageError, i: nat, start: seq<byte>)
    requires ReadMany(read, follows, fault, i, start).Ok?
    ensures var (items, rest) := ReadMany(read, follows, fault, i, start).value;
            ReadMany(read, follows, fault, i + 1, start)
            == match read(rest)
               case Err(error) => Err(error)
               case Ok((item, rest')) =>
                 if items != [] && !follows(items[|items| - 1], item) then Err(fault) else Ok((items + [item], rest'))
  {
  }

  lemma AlternativesLast(i: nat, start: seq<byte>)
    requires ReadManyAlternatives(i, start).Ok?
    ensures var (items, rest) := ReadManyAlternatives(i, start).value;
            ReadManyAlternatives(i + 1, start)
            == match ReadAlternative(i, rest)
               case Err(error) => Err(error)
               case Ok((item, rest')) => Ok((items + [item], rest'))
  {
    hide ReadAlternative;
  }

  lemma {:induction false} AlternativesStop(k: nat, n: nat, start: seq<byte>)
    requires k <= n && ReadManyAlternatives(k, start).Err?
    ensures ReadManyAlternatives(n, start) == Err(ReadManyAlternatives(k, start).error)
  {
    hide ReadAlternative;
    if k < n {
      AlternativesStop(k, n - 1, start);
    }
  }
}
