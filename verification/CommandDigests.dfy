/** Streaming an operation into a hasher, and what its digest identifies. */
module CommandDigests {
  import opened Results
  import opened Bytes
  import opened Intervals
  import opened CapacityCurves
  import opened Domain
  import opened Transitions
  import opened WalRecords
  import opened Payloads
  import opened CommandPayloads
  import opened CanonicalBytes

  /** "promisedb-command-v1" and a zero byte. */
  const COMMAND_HASH_DOMAIN: seq<byte> :=
    [112, 114, 111, 109, 105, 115, 101, 100, 98, 45, 99, 111, 109, 109, 97, 110, 100, 45, 118, 49, 0]

  /** A hasher as the bytes it has been given. */
  class CommandHasher {
    const text: Text
    var bytes: seq<byte>

    constructor (text: Text)
      ensures this.text == text && bytes == []
    {
      this.text, bytes := text, [];
    }

    method Update(values: seq<byte>)
      modifies this
      ensures bytes == old(bytes) + values
    {
      bytes := bytes + values;
    }

    method UpdateString(value: string)
      modifies this
      ensures bytes == old(bytes) + CanonicalString(text, value)
    {
      hide U64Bytes;
      Update(U64Bytes(|text.encode(value)|));
      Update(text.encode(value));
    }

    method UpdateUnit(unit: Unit)
      modifies this
      ensures bytes == old(bytes) + CanonicalUnit(text, unit)
    {
      hide U64Bytes, CanonicalString;
      UpdateString(unit.name);
      Update(U64Bytes(unit.subunitsPerUnit));
    }

    method UpdateCurve(curve: seq<CapacitySegment>)
      modifies this
      ensures bytes == old(bytes) + CanonicalCurve(curve)
    {
      hide U64Bytes;
      ghost var before, parts := bytes, SegmentParts(curve);
      Update(U64Bytes(|curve|));
      for i := 0 to |curve|
        invariant bytes == before + (U64Bytes(|curve|) + Flatten(parts[..i]))
      {
        assert parts[..i + 1][..i] == parts[..i];
        Update(U64Bytes(curve[i].interval.start));
        Update(U64Bytes(curve[i].interval.end));
        Update(U64Bytes(curve[i].capacity));
      }
      assert parts[..|parts|] == parts;
    }

    /** Claims are hashed in canonical order, whatever order the bundle keeps. */
    method UpdateKeys(keys: seq<ClaimKey>)
      modifies this
      ensures bytes == old(bytes) + CanonicalKeys(keys)
    {
      hide U64Bytes, IdBytes, SortKeys;
      var sorted := SortKeys(keys);
      ghost var before, parts := bytes, KeyParts(sorted);
      Update(U64Bytes(|sorted|));
      for i := 0 to |sorted|
        invariant bytes == before + (U64Bytes(|sorted|) + Flatten(parts[..i]))
      {
        assert parts[..i + 1][..i] == parts[..i];
        Update(IdBytes(sorted[i].pool));
        Update(U64Bytes(sorted[i].from));
        Update(U64Bytes(sorted[i].to));
        Update(U64Bytes(sorted[i].quantity));
      }
      assert parts[..|parts|] == parts;
    }

    method UpdateChoice(choice: seq<Bundle>)
      modifies this
      ensures bytes == old(bytes) + CanonicalChoice(choice)
    {
      hide U64Bytes, CanonicalKeys;
      ghost var before, parts := bytes, CanonicalAlternatives(choice);
      Update(U64Bytes(|choice|));
      for i := 0 to |choice|
        invariant bytes == before + (U64Bytes(|choice|) + Flatten(parts[..i]))
      {
        assert parts[..i + 1][..i] == parts[..i];
        UpdateKeys(ClaimKeys(choice[i]));
      }
      assert parts[..|parts|] == parts;
    }

    method WriteCanonicalOperation(operation: Operation)
      modifies this
      ensures bytes == old(bytes) + CanonicalOperation(text, operation)
    {
      hide CanonicalFields, TagOf;
      Update([TagOf(operation)]);
      match operation {
        case CreateResourcePool(_, _, _, _) => WriteCreate(operation);
        case ReviseCapacity(_, _, _) => WriteRevise(operation);
        case Hold(_, _, _) => WriteHold(operation);
        case HoldOneOf(_, _, _) => WriteHoldOneOf(operation);
        case HoldFirstSlot(_, _, _, _, _, _) => WriteHoldFirstSlot(operation);
        case Commit(_, _) => WriteVersioned(operation);
        case Release(_, _) => WriteVersioned(operation);
        case Replace(_, _, _, _) => WriteReplace(operation);
        case ProcessExpirations => NoFields(text);
      }
    }

    method WriteCreate(operation: Operation)
      requires operation.CreateResourcePool?
      modifies this
      ensures bytes == old(bytes) + CanonicalFields(text, operation)
    {
      hide U64Bytes, IdBytes, CanonicalString, CanonicalUnit, CanonicalCurve, CanonicalKeys, CanonicalChoice,
           NewStateBytes;
      ghost var before := bytes;
      Update(IdBytes(operation.poolId));
      UpdateString(operation.displayName);
      UpdateUnit(operation.unit);
      UpdateCurve(operation.curve);
      Regroup4(before, IdBytes(operation.poolId), CanonicalString(text, operation.displayName),
               CanonicalUnit(text, operation.unit), CanonicalCurve(operation.curve));
    }

    method WriteRevise(operation: Operation)
      requires operation.ReviseCapacity?
      modifies this
      ensures bytes == old(bytes) + CanonicalFields(text, operation)
    {
      hide U64Bytes, IdBytes, CanonicalString, CanonicalUnit, CanonicalCurve, CanonicalKeys, CanonicalChoice,
           NewStateBytes;
      ghost var before := bytes;
      Update(IdBytes(operation.poolId));
      UpdateCurve(operation.curve);
      Update([ModeByte(operation.mode)]);
      Regroup3(before, IdBytes(operation.poolId), CanonicalCurve(operation.curve), [ModeByte(operation.mode)]);
    }

    method WriteHold(operation: Operation)
      requires operation.Hold?
      modifies this
      ensures bytes == old(bytes) + CanonicalFields(text, operation)
    {
      hide U64Bytes, IdBytes, CanonicalString, CanonicalUnit, CanonicalCurve, CanonicalKeys, CanonicalChoice,
           NewStateBytes;
      ghost var before := bytes;
      Update(IdBytes(operation.promiseId));
      UpdateKeys(ClaimKeys(operation.bundle));
      Update(U64Bytes(operation.expiresAt));
      Regroup3(before, IdBytes(operation.promiseId), CanonicalBundle(operation.bundle), U64Bytes(operation.expiresAt));
    }

    method WriteHoldOneOf(operation: Operation)
      requires operation.HoldOneOf?
      modifies this
      ensures bytes == old(bytes) + CanonicalFields(text, operation)
    {
      hide U64Bytes, IdBytes, CanonicalString, CanonicalUnit, CanonicalCurve, CanonicalKeys, CanonicalChoice,
           NewStateBytes;
      ghost var before := bytes;
      Update(IdBytes(operation.promiseId));
      UpdateChoice(operation.choice);
      Update(U64Bytes(operation.expiresAt));
      Regroup3(before, IdBytes(operation.promiseId), CanonicalChoice(operation.choice), U64Bytes(operation.expiresAt));
    }

    method WriteHoldFirstSlot(operation: Operation)
      requires operation.HoldFirstSlot?
      modifies this
      ensures bytes == old(bytes) + CanonicalFields(text, operation)
    {
      hide U64Bytes, IdBytes, CanonicalString, CanonicalUnit, CanonicalCurve, CanonicalKeys, CanonicalChoice,
           NewStateBytes;
      ghost var before := bytes;
      Update(IdBytes(operation.promiseId));
      UpdateKeys(RelativeKeys(operation.relative));
      Update(U64Bytes(operation.earliest));
      Update(U64Bytes(operation.latest));
      Update(U64Bytes(operation.step));
      Update(U64Bytes(operation.expiresAt));
      Regroup6(before, IdBytes(operation.promiseId), CanonicalRelative(operation.relative),
               U64Bytes(operation.earliest), U64Bytes(operation.latest), U64Bytes(operation.step),
               U64Bytes(operation.expiresAt));
    }

    method WriteVersioned(operation: Operation)
      requires operation.Commit? || operation.Release?
      modifies this
      ensures bytes == old(bytes) + CanonicalFields(text, operation)
    {
      hide U64Bytes, IdBytes, CanonicalString, CanonicalUnit, CanonicalCurve, CanonicalKeys, CanonicalChoice,
           NewStateBytes;
      Update(IdBytes(operation.promiseId));
      Update(U64Bytes(operation.expectedVersion));
    }

    method WriteReplace(operation: Operation)
      requires operation.Replace?
      modifies this
      ensures bytes == old(bytes) + CanonicalFields(text, operation)
    {
      hide U64Bytes, IdBytes, CanonicalString, CanonicalUnit, CanonicalCurve, CanonicalKeys, CanonicalChoice,
           NewStateBytes;
      ghost var before := bytes;
      Update(IdBytes(operation.promiseId));
      Update(U64Bytes(operation.expectedVersion));
      UpdateKeys(ClaimKeys(operation.newBundle));
      Update(NewStateBytes(operation.newState));
      Regroup4(before, IdBytes(operation.promiseId), U64Bytes(operation.expectedVersion),
               CanonicalBundle(operation.newBundle), NewStateBytes(operation.newState));
    }
  }

  // ---- Pieces written one after another ----

  lemma NoFields(text: Text)
    ensures CanonicalFields(text, ProcessExpirations) == []
  {
  }

  /** The digest a first-seen command is recorded under. */
  function HashOperation(text: Text, hash: Hash, operation: Operation): seq<byte> {
    hash(COMMAND_HASH_DOMAIN + CanonicalOperation(text, operation))
  }

  method HashStreamed(text: Text, hash: Hash, operation: Operation) returns (digest: seq<byte>)
    ensures digest == HashOperation(text, hash, operation)
  {
    hide CanonicalOperation;
    var hasher := new CommandHasher(text);
    hasher.Update(COMMAND_HASH_DOMAIN);
    hasher.WriteCanonicalOperation(operation);
    assert hasher.bytes == COMMAND_HASH_DOMAIN + CanonicalOperation(text, operation);
    digest := hash(hasher.bytes);
  }

  function Digest(text: Text, hash: Hash): Operation -> seq<int> {
    operation => HashOperation(text, hash, operation)
  }

  lemma SameDigest(text: Text, hash: Hash, a: Operation, b: Operation)
    requires SameOperation(a, b)
    ensures Digest(text, hash)(a) == Digest(text, hash)(b)
  {
    hide CanonicalFields, SameOperation;
    SameTags(a, b);
    SameWritten(text, a, b);
  }

  /** A retry that lists its claims in another order gets the recorded answer and changes nothing. */
  lemma RetryIgnoresClaimOrder(text: Text, hash: Hash, p: Published, first: Command, retry: Command, now: int)
    requires first.identity == retry.identity && SameOperation(first.operation, retry.operation)
    requires first.identity in p.state.records
    requires p.state.records[first.identity].digest == Digest(text, hash)(first.operation)
    ensures Apply(p, Digest(text, hash), retry, now) == (p, p.state.records[first.identity].response)
  {
    hide ApplyOnce, SameOperation, Digest;
    SameDigest(text, hash, first.operation, retry.operation);
  }

  /** The hash does not map the canonical bytes of two different operations to one digest. */
  predicate Separates(text: Text, hash: Hash, a: Operation, b: Operation) {
    HashOperation(text, hash, a) == HashOperation(text, hash, b)
    ==> CanonicalOperation(text, a) == CanonicalOperation(text, b)
  }

  /** A reused key is a retry exactly when the operations agree up to claim order; anything else conflicts. */
  lemma RetryExactly(text: Text, hash: Hash, p: Published, first: Command, retry: Command, now: int)
    requires Lossless(text) && TypedOperation(text, first.operation) && TypedOperation(text, retry.operation)
    requires Separates(text, hash, first.operation, retry.operation)
    requires first.identity == retry.identity && first.identity in p.state.records
    requires p.state.records[first.identity].digest == Digest(text, hash)(first.operation)
    ensures Apply(p, Digest(text, hash), retry, now)
            == (p, if SameOperation(first.operation, retry.operation) then p.state.records[first.identity].response
                   else Err(IdempotencyConflict))
  {
    hide ApplyOnce, SameOperation, CanonicalOperation, TypedOperation;
    CanonicalExactly(text, first.operation, retry.operation);
  }
}
