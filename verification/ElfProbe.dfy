/** The static AArch64 executables that the probe packaging accepts. */
module ElfProbe {
  import opened Common

  /** No slice is longer than this. */
  const SLICE_MAX := 0x7FFF_FFFF_FFFF_FFFF

  const HEADER_LEN := 64
  const PROGRAM_HEADER_LEN := 56
  const MACHINE_AARCH64 := 183
  const TYPE_EXECUTABLE := 2
  const PROGRAM_LOAD := 1
  const PROGRAM_DYNAMIC := 2
  const PROGRAM_INTERPRETER := 3

  // Little-endian reads

  function Power256(n: nat): nat {
    if n == 0 then 1 else 256 * Power256(n - 1)
  }

  /** The little-endian number in `n` bytes at an offset. */
  function Little(bytes: Bytes, offset: nat, n: nat): (v: nat)
    requires offset + n <= |bytes|
    ensures v < Power256(n)
    decreases n
  {
    if n == 0 then 0 else bytes[offset] + 256 * Little(bytes, offset + 1, n - 1)
  }

  function Read(bytes: Bytes, offset: nat, n: nat): (v: Option<nat>)
    ensures v.Some? <==> offset + n <= |bytes|
    ensures v.Some? ==> v.value < Power256(n)
  {
    if offset + n <= |bytes| then Some(Little(bytes, offset, n)) else None
  }

  lemma Widths()
    ensures Power256(2) == 0x1_0000 && Power256(4) == 0x1_0000_0000 && Power256(8) == U64_MAX + 1
  {
    assert Power256(3) == 0x100_0000;
    assert Power256(5) == 0x100_0000_0000;
    assert Power256(6) == 0x1_0000_0000_0000;
    assert Power256(7) == 0x100_0000_0000_0000;
  }

  // What an acceptable executable is

  predicate HeaderOk(bytes: Bytes) {
    && |bytes| >= HEADER_LEN
    && bytes[..4] == [0x7F, 0x45, 0x4C, 0x46] && bytes[4] == 2 && bytes[5] == 1 && bytes[6] == 1
    && Little(bytes, 16, 2) == TYPE_EXECUTABLE && Little(bytes, 18, 2) == MACHINE_AARCH64
    && Little(bytes, 24, 8) != 0
  }

  function Entry(bytes: Bytes): nat
    requires |bytes| >= HEADER_LEN
  {
    Little(bytes, 24, 8)
  }

  /** Where the program header table is: its offset, the size of a row, the number of rows. */
  datatype Table = Table(offset: nat, row: nat, count: nat)

  function TableOf(bytes: Bytes): Table
    requires |bytes| >= HEADER_LEN
  {
    Table(Little(bytes, 32, 8), Little(bytes, 54, 2), Little(bytes, 56, 2))
  }

  predicate TableOk(t: Table, length: nat) {
    t.row >= PROGRAM_HEADER_LEN && t.count > 0 && t.offset + t.row * t.count <= length
  }

  function RowAt(t: Table, i: nat): nat {
    t.offset + i * t.row
  }

  /** Every row of a table inside the file is inside the file. */
  lemma RowInside(t: Table, length: nat, i: nat)
    requires TableOk(t, length) && i < t.count
    ensures RowAt(t, i) + PROGRAM_HEADER_LEN <= length
  {
    assert (i + 1) * t.row <= t.count * t.row;
  }

  predicate LoadOk(bytes: Bytes, at: nat)
    requires at + PROGRAM_HEADER_LEN <= |bytes|
  {
    var fileOffset, address := Little(bytes, at + 8, 8), Little(bytes, at + 16, 8);
    var fileSize, memorySize := Little(bytes, at + 32, 8), Little(bytes, at + 40, 8);
    fileSize <= memorySize && fileOffset + fileSize <= |bytes| && address + memorySize <= U64_MAX
  }

  predicate RowOk(bytes: Bytes, at: nat)
    requires at + PROGRAM_HEADER_LEN <= |bytes|
  {
    var kind := Little(bytes, at, 4);
    kind != PROGRAM_INTERPRETER && kind != PROGRAM_DYNAMIC && (kind == PROGRAM_LOAD ==> LoadOk(bytes, at))
  }

  /** The row is a segment that is loaded, executable, and holds the entry point. */
  predicate RunsEntry(bytes: Bytes, at: nat, entry: nat)
    requires at + PROGRAM_HEADER_LEN <= |bytes|
  {
    && Little(bytes, at, 4) == PROGRAM_LOAD
    && Little(bytes, at + 4, 4) % 2 == 1
    && Little(bytes, at + 16, 8) <= entry < Little(bytes, at + 16, 8) + Little(bytes, at + 40, 8)
  }

  predicate RowFits(bytes: Bytes, t: Table, i: nat) {
    RowAt(t, i) + PROGRAM_HEADER_LEN <= |bytes| && RowOk(bytes, RowAt(t, i))
  }

  predicate RowRuns(bytes: Bytes, t: Table, i: nat, entry: nat) {
    RowAt(t, i) + PROGRAM_HEADER_LEN <= |bytes| && RunsEntry(bytes, RowAt(t, i), entry)
  }

  ghost predicate Acceptable(bytes: Bytes) {
    && HeaderOk(bytes)
    && TableOk(TableOf(bytes), |bytes|)
    && (forall i :: 0 <= i < TableOf(bytes).count ==> RowFits(bytes, TableOf(bytes), i))
    && (exists i :: 0 <= i < TableOf(bytes).count && RowRuns(bytes, TableOf(bytes), i, Entry(bytes)))
  }

  // The check

  datatype Reason =
    | MissingHeader | WrongClass | NotExecutable | WrongMachine | ZeroEntry
    | BadTable | TableOverflows | TableTruncated
    | Interpreter | Dynamic | FileExceedsMemory | FileRangeOverflows | FileRangeOutside | MemoryOverflows
    | NoLoad | EntryOutside
    | Truncated | TooLarge | OffsetOverflows

  /** Reasons that the checks before them rule out. */
  predicate CannotHappen(r: Reason) {
    r == Truncated || r == TooLarge || r == OffsetOverflows
  }

  /** Checks one loaded segment and says whether it runs the entry point. */
  method CheckLoad(bytes: Bytes, at: nat, entry: nat) returns (r: Result<bool, Reason>)
    requires |bytes| <= SLICE_MAX && at + PROGRAM_HEADER_LEN <= |bytes|
    requires Little(bytes, at, 4) == PROGRAM_LOAD
    ensures r.Ok? <==> LoadOk(bytes, at)
    ensures r.Ok? ==> (r.value <==> RunsEntry(bytes, at, entry))
    ensures r.Err? ==> !CannotHappen(r.error)
  {
    hide Little;
    Widths();
    var flags := Read(bytes, at + 4, 4);
    var fileOffset, address := Read(bytes, at + 8, 8), Read(bytes, at + 16, 8);
    var fileSize, memorySize := Read(bytes, at + 32, 8), Read(bytes, at + 40, 8);
    if flags.None? || fileOffset.None? || address.None? || fileSize.None? || memorySize.None? {
      return Err(Truncated);
    }
    if fileOffset.value > U64_MAX || fileSize.value > U64_MAX {
      return Err(TooLarge);
    }
    if fileSize.value > memorySize.value {
      return Err(FileExceedsMemory);
    }
    if fileOffset.value + fileSize.value > U64_MAX {
      return Err(FileRangeOverflows);
    }
    if fileOffset.value + fileSize.value > |bytes| {
      return Err(FileRangeOutside);
    }
    if address.value + memorySize.value > U64_MAX {
      return Err(MemoryOverflows);
    }
    return Ok(flags.value % 2 != 0 && memorySize.value != 0
              && entry >= address.value && entry < address.value + memorySize.value);
  }

  method CheckTable(bytes: Bytes, t: Table, entry: nat) returns (r: Result<bool, Reason>)
    requires |bytes| <= SLICE_MAX && TableOk(t, |bytes|)
    ensures r.Ok? <==>
            && (forall i :: 0 <= i < t.count ==> RowFits(bytes, t, i))
            && (exists i :: 0 <= i < t.count && RowRuns(bytes, t, i, entry))
    ensures r.Err? ==> !CannotHappen(r.error)
  {
    hide Little, LoadOk;
    var hasLoad, entryIsExecutable := false, false;
    for i := 0 to t.count
      invariant forall k :: 0 <= k < i ==> RowFits(bytes, t, k)
      invariant entryIsExecutable <==> exists k :: 0 <= k < i && RowRuns(bytes, t, k, entry)
      invariant entryIsExecutable ==> hasLoad
    {
      RowInside(t, |bytes|, i);
      if i * t.row > U64_MAX || RowAt(t, i) > U64_MAX {
        return Err(OffsetOverflows);
      }
      var at := RowAt(t, i);
      // The additions to the offset below stay within a machine word.
      assert at + 48 <= U64_MAX;
      var kind := Read(bytes, at, 4);
      if kind.None? {
        return Err(Truncated);
      }
      if kind.value == PROGRAM_INTERPRETER {
        assert !RowFits(bytes, t, i);
        return Err(Interpreter);
      }
      if kind.value == PROGRAM_DYNAMIC {
        assert !RowFits(bytes, t, i);
        return Err(Dynamic);
      }
      if kind.value == PROGRAM_LOAD {
        hasLoad := true;
        var runs := CheckLoad(bytes, at, entry);
        if runs.Err? {
          assert !RowFits(bytes, t, i);
          return Err(runs.error);
        }
        if runs.value {
          assert RowRuns(bytes, t, i, entry);
          entryIsExecutable := true;
        }
      }
    }
    if !hasLoad {
      return Err(NoLoad);
    }
    if !entryIsExecutable {
      return Err(EntryOutside);
    }
    return Ok(true);
  }

  /** Accepts exactly the acceptable executables, without ever overflowing or reading past the table. */
  method ValidateElf(bytes: Bytes) returns (r: Result<bool, Reason>)
    requires |bytes| <= SLICE_MAX
    ensures r.Ok? <==> Acceptable(bytes)
    ensures r.Err? ==> !CannotHappen(r.error)
  {
    hide Little, TableOk, RowFits, RowRuns;
    Widths();
    if |bytes| < HEADER_LEN || bytes[..4] != [0x7F, 0x45, 0x4C, 0x46] {
      return Err(MissingHeader);
    }
    if bytes[4] != 2 || bytes[5] != 1 || bytes[6] != 1 {
      return Err(WrongClass);
    }
    var kind, machine, entry := Read(bytes, 16, 2), Read(bytes, 18, 2), Read(bytes, 24, 8);
    if kind.None? || machine.None? || entry.None? {
      return Err(Truncated);
    }
    if kind.value != TYPE_EXECUTABLE {
      return Err(NotExecutable);
    }
    if machine.value != MACHINE_AARCH64 {
      return Err(WrongMachine);
    }
    if entry.value == 0 {
      return Err(ZeroEntry);
    }
    var offset, row, count := Read(bytes, 32, 8), Read(bytes, 54, 2), Read(bytes, 56, 2);
    if offset.None? || row.None? || count.None? {
      return Err(Truncated);
    }
    if offset.value > U64_MAX {
      return Err(TooLarge);
    }
    var t := Table(offset.value, row.value, count.value);
    var located := CheckPlacement(t, |bytes|);
    if located.Err? {
      return Err(located.error);
    }
    assert t == TableOf(bytes) && HeaderOk(bytes) && entry.value == Entry(bytes);
    r := CheckTable(bytes, t, entry.value);
  }

  method CheckPlacement(t: Table, length: nat) returns (r: Result<bool, Reason>)
    requires t.row < 0x1_0000 && t.count < 0x1_0000 && length <= SLICE_MAX
    ensures r.Ok? <==> TableOk(t, length)
    ensures r.Err? ==> !CannotHappen(r.error)
    ensures r == Err(TableOverflows) ==> t.offset + t.row * t.count > U64_MAX
  {
    if t.row < PROGRAM_HEADER_LEN || t.count == 0 {
      return Err(BadTable);
    }
    var size := t.row * t.count;
    // The product of two 16-bit numbers fits in a machine word.
    ProductFits(t.row, t.count);
    if t.offset + size > U64_MAX {
      return Err(TableOverflows);
    }
    if t.offset + size > length {
      return Err(TableTruncated);
    }
    return Ok(true);
  }

  lemma Scales(a: nat, c: nat, b: nat)
    requires a <= c
    ensures a * b <= c * b
  {
  }

  lemma ProductFits(a: nat, b: nat)
    requires a < 0x1_0000 && b < 0x1_0000
    ensures a * b <= U64_MAX
  {
    Scales(a, 0xFFFF, b);
  }
}
