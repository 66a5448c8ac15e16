/** The active end of a segmented log: batches are checked before they are appended, and large ones rotate first. */
module SegmentedLogs {
  import opened Results
  import opened Bytes
  import opened WalRecords
  import opened WalStreams
  import opened Domain
  import opened OrderedKeys
  import opened Recovery
  import opened LogDisk
  import opened DatabaseRuns

  /** What the file system does to one append. */
  datatype AppendFault =
    | Works
    | CreateFails(created: bool)  // opening a new segment fails, before or after its file exists
    | WriteFails(cut: nat)        // only a byte prefix is written
    | SyncFails                   // all bytes are written, durability is not confirmed

  method RemoveFiles<V>(files: map<int, V>, names: seq<int>) returns (kept: map<int, V>)
    ensures kept == map k | k in files && k !in names :: files[k]
  {
    kept := files;
    for n := 0 to |names|
      invariant kept == map k | k in files && k !in names[..n] :: files[k]
    {
      assert names[..n + 1] == names[..n] + [names[n]];
      kept := kept - {names[n]};
    }
    assert names[..|names|] == names;
  }

  class SegmentedWal {
    const hash: Hash
    const max: nat
    const target: nat
    var disk: Disk
    var active: int
    var activeLen: nat
    var activeHasRecords: bool
    var expectedSequence: Option<int>

    /** The cached length and emptiness are those of the active file. */
    predicate Valid()
      reads this
    {
      && active in disk.segments && activeLen == SEGMENT_HEADER_LEN + |disk.segments[active]|
      && (activeHasRecords <==> disk.segments[active] != [])
    }

    /** Attaches to the files at an active segment. */
    constructor (hash: Hash, max: nat, target: nat, disk: Disk, active: int, expected: Option<int>)
      requires active in disk.segments
      ensures Valid() && this.hash == hash && this.max == max && this.target == target
      ensures this.disk == disk && this.active == active && expectedSequence == expected
    {
      this.hash, this.max, this.target := hash, max, target;
      this.disk, this.active, expectedSequence := disk, active, expected;
      activeLen, activeHasRecords := SEGMENT_HEADER_LEN + |disk.segments[active]|, disk.segments[active] != [];
    }

    /** The whole batch reads back, from the expected sequence on. */
    ghost predicate Inspects(bytes: seq<byte>)
      reads this
    {
      && expectedSequence.Some?
      && ReadAll(hash, max, expectedSequence, bytes, 0).failure.None?
      && ReadAll(hash, max, expectedSequence, bytes, 0).records != []
    }

    /** Reads the batch back before anything is written: its first sequence, and the one after its last record. */
    method InspectBatch(bytes: seq<byte>) returns (r: Result<(int, Option<int>), StorageError>)
      requires SoundHash(hash)
      ensures r.Ok? <==> Inspects(bytes)
      ensures var read := ReadAll(hash, max, expectedSequence, bytes, 0);
              && (r.Ok? ==> r.value == (read.records[0].sequence, read.next))
              && (expectedSequence.Some? && read.failure.Some? ==> r == Err(read.failure.value))
    {
      hide ReadRecord, ParseHeader, ReadBody;
      if expectedSequence.None? {
        return Err(CorruptRecord(0, Corruption.SequenceOverflow));
      }
      var reader := new RecordReader(hash, max, bytes, expectedSequence);
      ghost var whole := ReadAll(hash, max, expectedSequence, bytes, 0);
      var first := reader.ReadNext();
      if first.Err? {
        return Err(first.error);
      }
      if first.value.None? {
        return Err(InvalidLength(0));
      }
      ghost var seen := [first.value.value];
      var ended := false;
      while !ended
        invariant fresh(reader) && reader.position <= |bytes|
        invariant reader.hash == hash && reader.max == max && reader.stream == bytes
        invariant seen != [] && seen[0] == first.value.value
        invariant !ended ==>
                    var rest := ReadAll(hash, max, reader.expectedSequence, reader.Remaining(), reader.offset);
                    whole == rest.(records := seen + rest.records)
        invariant ended ==> whole.failure == None && whole.records == seen && whole.next == reader.expectedSequence
        decreases !ended, |reader.Remaining()|
      {
        var next := reader.ReadNext();
        if next.Err? {
          return Err(next.error);
        }
        if next.value.None? {
          ended := true;
        } else {
          seen := seen + [next.value.value];
        }
      }
      r := Ok((first.value.value.sequence, reader.expectedSequence));
    }

    /** Creates an empty segment and makes it the active one. */
    method Rotate(first: int, fault: AppendFault) returns (r: Result<(), StorageError>)
      modifies this`disk, this`active, this`activeLen, this`activeHasRecords
      ensures r.Ok? <==> !fault.CreateFails?
      ensures r.Ok?
              ==> disk == RotatedDisk(old(disk), first) && active == first && Valid() && activeLen == SEGMENT_HEADER_LEN
      ensures r.Err? ==>
                && active == old(active) && activeLen == old(activeLen) && activeHasRecords == old(activeHasRecords)
                && disk == (if fault.created then RotatedDisk(old(disk), first) else old(disk))
    {
      if fault.CreateFails? && !fault.created {
        return Err(Io);
      }
      disk := disk.(segments := disk.segments[first := []]);
      if fault.CreateFails? {
        return Err(Io);
      }
      active, activeLen, activeHasRecords := first, SEGMENT_HEADER_LEN, false;
      r := Ok(());
    }

    /** Appends whole framed records, on a new segment when this one would outgrow the target. */
    method Append(bytes: seq<byte>, fault: AppendFault) returns (r: Result<(), StorageError>)
      requires SoundHash(hash) && Valid()
      modifies this
      ensures !old(Inspects(bytes)) || old(activeLen) + |bytes| > U64_MAX ==>
                r.Err? && disk == old(disk) && active == old(active) && expectedSequence == old(expectedSequence)
      ensures old(Inspects(bytes)) && old(activeLen) + |bytes| > U64_MAX ==> r == Err(SegmentLengthOverflow)
      ensures old(Inspects(bytes)) && old(activeLen) + |bytes| <= U64_MAX ==>
                var read := ReadAll(hash, max, old(expectedSequence), bytes, 0);
                var first := read.records[0].sequence;
                var rotates := Rotates(target, old(disk), old(active), |bytes|);
                var (ready, segment) := AppendTarget(target, old(disk), old(active), first, |bytes|);
                if rotates && fault.CreateFails? then
                  && r.Err? && active == old(active)
                  && disk == (if fault.created then RotatedDisk(old(disk), first) else old(disk))
                else if fault.WriteFails? then
                  r.Err? && active == segment && disk == AppendedTo(ready, segment, bytes[..Min(fault.cut, |bytes|)])
                else
                  && r.Ok? && active == segment && disk == AppendedTo(ready, segment, bytes)
                  && expectedSequence == read.next && Valid()
    {
      hide ReadAll;
      var inspected := InspectBatch(bytes);
      if inspected.Err? {
        return Err(inspected.error);
      }
      var (first, next) := inspected.value;
      var projected := activeLen + |bytes|;
      if projected > U64_MAX {
        return Err(SegmentLengthOverflow);
      }
      var rotate := activeHasRecords && projected > target;
      var resulting := if rotate then SEGMENT_HEADER_LEN + |bytes| else projected;
      assert rotate <==> Rotates(target, disk, active, |bytes|);
      if rotate {
        var rotated := Rotate(first, fault);
        if rotated.Err? {
          return rotated;
        }
      }
      var written := if fault.WriteFails? then bytes[..Min(fault.cut, |bytes|)] else bytes;
      ghost var read := ReadAll(hash, max, old(expectedSequence), bytes, 0);
      BatchNotEmpty(hash, max, old(expectedSequence), bytes);
      disk := disk.(segments := disk.segments[active := disk.segments[active] + written]);
      if fault.WriteFails? {
        return Err(Io);
      }
      activeLen, activeHasRecords, expectedSequence := resulting, true, next;
      r := Ok(());
    }
  }

  lemma BatchNotEmpty(hash: Hash, max: nat, expected: Option<int>, bytes: seq<byte>)
    requires ReadAll(hash, max, expected, bytes, 0).records != []
    ensures bytes != []
  {
  }
}
