/** Building a PFS0 header for a virtual NSP, and finding what lives at an offset of that file. */
module NspBuilder {
  import opened Bytes
  import opened PartitionFs

  const MAX_FILES: nat := 64
  const MAX_NAME_LEN: nat := 80

  datatype File = File(name: bytes, size: u64, dataOffset: u64)

  datatype Location =
    | InHeader(headerOff: nat, run: u64)
    | InEntry(index: nat, entryOff: u64, run: u64)

  /** The names a C string can carry and the builder accepts. */
  predicate NameFits(name: bytes) {
    0 < |name| < MAX_NAME_LEN && 0 !in name
  }

  ghost predicate ValidFiles(fs: seq<File>) {
    |fs| <= MAX_FILES && forall i :: 0 <= i < |fs| ==> NameFits(fs[i].name)
  }

  // ----- the layout the header describes -----

  /** Where the data of file `n` starts: the sizes of the files before it. */
  function DataOff(fs: seq<File>, n: nat): nat
    requires n <= |fs|
  {
    if n == 0 then 0 else DataOff(fs, n - 1) + fs[n - 1].size
  }

  /** Where the name of file `n` starts in the name table: the names before it, each with its terminator. */
  function NameOff(fs: seq<File>, n: nat): nat
    requires n <= |fs|
  {
    if n == 0 then 0 else NameOff(fs, n - 1) + |fs[n - 1].name| + 1
  }

  function SlotOff(i: nat): nat {
    HEADER_SIZE + i * PFS0_ENTRY_SIZE
  }

  function TableOff(fs: seq<File>): nat {
    SlotOff(|fs|)
  }

  function HeaderSize(fs: seq<File>): nat {
    TableOff(fs) + NameOff(fs, |fs|)
  }

  function TotalSize(fs: seq<File>): nat {
    HeaderSize(fs) + DataOff(fs, |fs|)
  }

  lemma {:induction false} NameOffBound(fs: seq<File>, n: nat)
    requires n <= |fs| && forall i :: 0 <= i < |fs| ==> |fs[i].name| < MAX_NAME_LEN
    ensures NameOff(fs, n) <= n * MAX_NAME_LEN
  {
    if n > 0 {
      NameOffBound(fs, n - 1);
    }
  }

  lemma {:induction false} OffsMonotone(fs: seq<File>, m: nat, n: nat)
    requires m <= n <= |fs|
    ensures DataOff(fs, m) <= DataOff(fs, n) && NameOff(fs, m) <= NameOff(fs, n)
  {
    if m < n {
      OffsMonotone(fs, m, n - 1);
    }
  }

  /** Offsets depend on names and sizes only. */
  lemma {:induction false} LayoutIsLocal(fs: seq<File>, gs: seq<File>, n: nat)
    requires n <= |fs| == |gs|
    requires forall i :: 0 <= i < |fs| ==> fs[i].name == gs[i].name && fs[i].size == gs[i].size
    ensures DataOff(fs, n) == DataOff(gs, n) && NameOff(fs, n) == NameOff(gs, n)
  {
    if n > 0 {
      LayoutIsLocal(fs, gs, n - 1);
    }
  }

  /** The fields of one entry; four bytes of padding follow them. */
  function SlotBytes(dataOff: u64, size: u64, nameOff: u32): (b: bytes)
    ensures |b| == 20
  {
    Le(dataOff, 8) + Le(size, 8) + Le(nameOff, 4)
  }

  /** Entry `i` of the table is in place. */
  ghost predicate SlotIs(fs: seq<File>, h: bytes, i: nat)
    requires i < |fs|
  {
    && DataOff(fs, i) < U64_LIMIT && NameOff(fs, i) < U32_LIMIT && SlotOff(i) + 20 <= |h|
    && h[SlotOff(i)..SlotOff(i) + 20] == SlotBytes(DataOff(fs, i), fs[i].size, NameOff(fs, i))
  }

  /** Name `i` of the table is in place, terminator included. */
  ghost predicate NameIs(fs: seq<File>, h: bytes, i: nat)
    requires i < |fs|
  {
    var at, end := TableOff(fs) + NameOff(fs, i), TableOff(fs) + NameOff(fs, i) + |fs[i].name| + 1;
    end <= |h| && h[at..end] == fs[i].name + [0]
  }

  ghost predicate EntriesWritten(fs: seq<File>, h: bytes, n: nat)
    requires n <= |fs|
  {
    forall i :: 0 <= i < n ==> SlotIs(fs, h, i) && NameIs(fs, h, i)
  }

  ghost predicate PreambleIs(fs: seq<File>, h: bytes) {
    && HEADER_SIZE <= |h|
    && h[..4] == Le(PFS0_MAGIC, 4) && h[4..8] == Le(|fs|, 4) && h[8..12] == Le(NameOff(fs, |fs|), 4)
  }

  /** `h` is the header of a PFS0 holding the files `fs` end to end. */
  ghost predicate IsHeader(fs: seq<File>, h: bytes) {
    |h| == HeaderSize(fs) && PreambleIs(fs, h) && EntriesWritten(fs, h, |fs|)
  }

  // ----- the builder -----

  class Builder {
    var files: seq<File>
    const header: array<byte>
    var headerSize: nat
    var totalSize: u64
    var finalised: bool

    ghost predicate Valid()
      reads this, header
    {
      && ValidFiles(files)
      && (finalised ==>
            && 0 < |files|
            && headerSize == HeaderSize(files) <= header.Length
            && totalSize == TotalSize(files)
            && IsHeader(files, header[..headerSize])
            && forall i :: 0 <= i < |files| ==> files[i].dataOffset == DataOff(files, i))
    }

    constructor (buffer: array<byte>)
      ensures Valid() && files == [] && !finalised && header == buffer
    {
      header := buffer;
      files := [];
      headerSize := 0;
      totalSize := 0;
      finalised := false;
    }

    method Add(name: bytes, size: u64) returns (r: Result<(), FmtError>)
      requires Valid() && 0 !in name
      modifies this
      ensures Valid() && finalised == old(finalised)
      ensures r.Ok? <==> !old(finalised) && |old(files)| < MAX_FILES && NameFits(name)
      ensures r.Err? ==> r.error == if old(finalised) then Unsupported else TooLarge
      ensures files == if r.Ok? then old(files) + [File(name, size, 0)] else old(files)
    {
      if finalised {
        return Err(Unsupported);
      }
      if |files| >= MAX_FILES {
        return Err(TooLarge);
      }
      if |name| == 0 || |name| >= MAX_NAME_LEN {
        return Err(TooLarge);
      }
      files := files + [File(name, size, 0)];
      return Ok(());
    }

    /** Writes the header and fixes every file's offset, or says why it cannot. */
    method Finalize() returns (r: Result<(), FmtError>)
      requires Valid()
      modifies this, header
      ensures Valid() && finalised == (old(finalised) || r.Ok?)
      ensures old(finalised) ==> r.Ok? && files == old(files) && header[..] == old(header[..])
      ensures !old(finalised) ==>
                r == if |old(files)| == 0 then Err(Truncated)
                     else if HeaderSize(old(files)) > header.Length then Err(TooLarge)
                     else if TotalSize(old(files)) >= U64_LIMIT then Err(Overflow)
                     else Ok(())
      ensures |files| == |old(files)|
      ensures forall i :: 0 <= i < |files| ==> files[i].name == old(files)[i].name && files[i].size == old(files)[i].size
    {
      hide IsHeader, EntriesWritten, PreambleIs;
      if finalised {
        return Ok(());
      }
      if |files| == 0 {
        return Err(Truncated);
      }
      ghost var fs := files;
      var nameTableSize := NameTableSize();
      var size := HEADER_SIZE + |files| * PFS0_ENTRY_SIZE + nameTableSize;
      if size > header.Length {
        return Err(TooLarge);
      }
      NameOffBound(files, |files|);
      WritePreamble(nameTableSize, size);
      ghost var before := header[..];
      var end := WriteEntries(nameTableSize);
      if end.None? {
        return Err(Overflow);
      }
      var total := CheckedAdd(size, end.value);
      if total.None? {
        return Err(Overflow);
      }
      headerSize := size;
      totalSize := total.value;
      finalised := true;
      HeaderWritten(fs, files, before, header[..]);
      return Ok(());
    }

    /** The name table is the concatenation of the NUL-terminated names. */
    method NameTableSize() returns (n: nat)
      ensures n == NameOff(files, |files|)
    {
      n := 0;
      for i := 0 to |files|
        invariant n == NameOff(files, i)
      {
        n := n + |files[i].name| + 1;
      }
    }

    method WritePreamble(nameTableSize: u32, size: nat)
      requires HEADER_SIZE <= size <= header.Length && |files| < U32_LIMIT
      modifies header
      ensures nameTableSize == NameOff(files, |files|) ==> PreambleIs(files, header[..])
    {
      hide Le;
      ZeroFill(header, size);
      Copy(header, 0, Le(PFS0_MAGIC, 4));
      Copy(header, 4, Le(|files|, 4));
      Copy(header, 8, Le(nameTableSize, 4));
    }

    /** Fills the entry table and the name table side by side; None when the sizes add past 64 bits. */
    method WriteEntries(nameTableSize: u32) returns (end: Option<u64>)
      requires ValidFiles(files) && nameTableSize == NameOff(files, |files|)
      requires HeaderSize(files) <= header.Length
      modifies this`files, header
      ensures |files| == |old(files)|
      ensures forall k :: 0 <= k < |files| ==> files[k].name == old(files)[k].name && files[k].size == old(files)[k].size
      ensures end == if DataOff(old(files), |files|) < U64_LIMIT then Some(DataOff(old(files), |files|)) else None
      ensures end.Some? ==> forall k :: 0 <= k < |files| ==> files[k].dataOffset == DataOff(old(files), k)
      ensures end.Some? ==> EntriesWritten(old(files), header[..], |files|)
      ensures end.Some? ==> header[..HEADER_SIZE] == old(header[..HEADER_SIZE])
    {
      hide EntriesWritten, DataOff, NameOff, HeaderSize, TableOff, ValidFiles;
      ghost var fs := files;
      NothingWritten(fs, header[..]);
      var dataOffset: u64 := 0;
      var nameOffset := 0;
      for i := 0 to |files|
        invariant |files| == |fs|
        invariant forall k :: 0 <= k < |fs| ==> files[k].name == fs[k].name && files[k].size == fs[k].size
        invariant forall k :: 0 <= k < i ==> files[k].dataOffset == DataOff(fs, k)
        invariant dataOffset == DataOff(fs, i) && nameOffset == NameOff(fs, i) <= nameTableSize
        invariant EntriesWritten(fs, header[..], i)
        invariant header[..HEADER_SIZE] == old(header[..HEADER_SIZE])
      {
        var f := files[i];
        OffsMonotone(fs, i + 1, |fs|);
        NextName(fs, i);
        WriteEntry(fs, i, dataOffset, f, nameOffset);
        files := files[i := f.(dataOffset := dataOffset)];
        var next := CheckedAdd(dataOffset, f.size);
        if next.None? {
          OffsMonotone(fs, i + 1, |fs|);
          return None;
        }
        dataOffset := next.value;
        nameOffset := nameOffset + |f.name| + 1;
      }
      return Some(dataOffset);
    }

    /** One entry and its name. */
    method WriteEntry(ghost fs: seq<File>, i: nat, dataOffset: u64, f: File, nameOffset: u32)
      requires |fs| == |files| && i < |fs| && f.name == fs[i].name && f.size == fs[i].size
      requires dataOffset == DataOff(fs, i) && nameOffset == NameOff(fs, i) && NameOff(fs, i + 1) <= NameOff(fs, |fs|)
      requires HeaderSize(fs) <= header.Length && EntriesWritten(fs, header[..], i)
      modifies header
      ensures EntriesWritten(fs, header[..], i + 1)
      ensures header[..HEADER_SIZE] == old(header[..HEADER_SIZE])
    {
      hide SlotBytes, EntriesWritten, Overwrite;
      var tableOff := HEADER_SIZE + |files| * PFS0_ENTRY_SIZE;
      ghost var h0 := header[..];
      WriteSlot(i, dataOffset, f.size, nameOffset);
      Copy(header, tableOff + nameOffset, f.name + [0]);
      EntryAdded(fs, h0, i);
      ghost var at := SlotOff(i);
      SliceKept(h0, at, SlotBytes(dataOffset, f.size, nameOffset), 0, HEADER_SIZE);
      SliceKept(Overwrite(h0, at, SlotBytes(dataOffset, f.size, nameOffset)), tableOff + nameOffset, f.name + [0], 0, HEADER_SIZE);
    }

    /** The three fields of one entry. */
    method WriteSlot(i: nat, dataOff: u64, size: u64, nameOff: u32)
      requires HEADER_SIZE + (i + 1) * PFS0_ENTRY_SIZE <= header.Length
      modifies header
      ensures header[..] == Overwrite(old(header[..]), SlotOff(i), SlotBytes(dataOff, size, nameOff))
    {
      hide Le;
      var at := SlotOff(i);
      Copy(header, at, Le(dataOff, 8));
      Copy(header, at + 8, Le(size, 8));
      Copy(header, at + 16, Le(nameOff, 4));
    }

    /**
     * Resolves an absolute offset of the virtual file. Below the total size it always succeeds and
     * names the region that holds the offset and the bytes left in it; at or past it there is nothing.
     */
    method Locate(offset: u64) returns (r: Result<Location, FmtError>)
      requires Valid()
      ensures !finalised ==> r == Err(Unsupported)
      ensures finalised ==> (r.Ok? <==> offset < totalSize) && (r.Err? ==> r.error == OutOfRange)
      ensures r.Ok? ==> LocationOf(files, offset, r.value)
    {
      hide *;
      if !finalised {
        return Err(Unsupported);
      }
      FinalisedFacts();
      ghost var fs := files;
      if offset >= totalSize {
        return Err(OutOfRange);
      }
      if offset < headerSize {
        HeaderLocation(fs, offset, headerSize - offset);
        return Ok(InHeader(offset, headerSize - offset));
      }
      var dataPos := offset - headerSize;
      EmptyPrefix(fs);
      for i := 0 to |files|
        invariant DataOff(fs, i) <= dataPos
      {
        var f := files[i];
        NextName(fs, i);
        if dataPos < f.dataOffset || dataPos >= f.dataOffset + f.size {
          continue;
        }
        OffsMonotone(fs, i + 1, |fs|);
        var entryOff := dataPos - f.dataOffset;
        EntryLocation(fs, offset, i, entryOff, f.size - entryOff);
        return Ok(InEntry(i, entryOff, f.size - entryOff));
      }
      assert false;
    }

    lemma FinalisedFacts()
      requires Valid() && finalised
      ensures headerSize == HeaderSize(files) && totalSize == headerSize + DataOff(files, |files|)
      ensures forall i :: 0 <= i < |files| ==> files[i].dataOffset == DataOff(files, i)
    {
    }
  }

  lemma EmptyPrefix(fs: seq<File>)
    ensures DataOff(fs, 0) == 0
  {
  }

  lemma HeaderLocation(fs: seq<File>, offset: nat, run: u64)
    requires offset < HeaderSize(fs) && run == HeaderSize(fs) - offset
    ensures LocationOf(fs, offset, InHeader(offset, run))
  {
    hide HeaderSize;
  }

  lemma EntryLocation(fs: seq<File>, offset: nat, i: nat, pos: u64, run: u64)
    requires i < |fs| && offset == HeaderSize(fs) + DataOff(fs, i) + pos && 0 < run && pos + run == fs[i].size
    ensures LocationOf(fs, offset, InEntry(i, pos, run))
  {
    hide HeaderSize, DataOff;
  }

  /** What an answer of Locate means: the offset lies `run` bytes before the end of that region. */
  ghost predicate LocationOf(fs: seq<File>, offset: nat, at: Location) {
    match at
    case InHeader(headerOff, run) =>
      headerOff == offset < HeaderSize(fs) && headerOff + run == HeaderSize(fs)
    case InEntry(i, entryOff, run) =>
      && i < |fs| && offset == HeaderSize(fs) + DataOff(fs, i) + entryOff
      && 0 < run && entryOff + run == fs[i].size
  }

  method ZeroFill(a: array<byte>, n: nat)
    requires n <= a.Length
    modifies a
    ensures forall k :: 0 <= k < n ==> a[k] == 0
  {
    for i := 0 to n
      invariant forall k :: 0 <= k < i ==> a[k] == 0
    {
      a[i] := 0;
    }
  }

  lemma NothingWritten(fs: seq<File>, h: bytes)
    requires HeaderSize(fs) <= |h|
    ensures EntriesWritten(fs, h, 0) && DataOff(fs, 0) == NameOff(fs, 0) == 0 && HEADER_SIZE <= HeaderSize(fs)
  {
  }

  /** Bytes written behind entry `k` and its name, or between the two, leave them as they are. */
  lemma EntryStays(fs: seq<File>, h: bytes, k: nat, at: nat, data: bytes)
    requires k < |fs| && HeaderSize(fs) <= |h| && at + |data| <= |h| && NameOff(fs, k + 1) <= NameOff(fs, |fs|)
    requires SlotIs(fs, h, k) && NameIs(fs, h, k)
    requires at + |data| <= SlotOff(k) || SlotOff(k) + 20 <= at
    requires at + |data| <= TableOff(fs) + NameOff(fs, k) || TableOff(fs) + NameOff(fs, k + 1) <= at
    ensures SlotIs(fs, Overwrite(h, at, data), k) && NameIs(fs, Overwrite(h, at, data), k)
  {
    hide SlotBytes, DataOff, Overwrite;
    SliceKept(h, at, data, SlotOff(k), SlotOff(k) + 20);
    SliceKept(h, at, data, TableOff(fs) + NameOff(fs, k), TableOff(fs) + NameOff(fs, k + 1));
  }

  /** Writing entry `i` and its name keeps the entries before it. */
  lemma EntryAdded(fs: seq<File>, h0: bytes, i: nat)
    requires i < |fs| && HeaderSize(fs) <= |h0| && EntriesWritten(fs, h0, i)
    requires DataOff(fs, i) < U64_LIMIT && NameOff(fs, i) < U32_LIMIT && NameOff(fs, i + 1) <= NameOff(fs, |fs|)
    ensures var h1 := Overwrite(h0, SlotOff(i), SlotBytes(DataOff(fs, i), fs[i].size, NameOff(fs, i)));
            var h2 := Overwrite(h1, TableOff(fs) + NameOff(fs, i), fs[i].name + [0]);
            EntriesWritten(fs, h2, i + 1)
  {
    hide SlotBytes, DataOff, Overwrite;
    var slot, name := SlotBytes(DataOff(fs, i), fs[i].size, NameOff(fs, i)), fs[i].name + [0];
    var from, at := SlotOff(i), TableOff(fs) + NameOff(fs, i);
    var h1 := Overwrite(h0, from, slot);
    var h2 := Overwrite(h1, at, name);
    forall k | 0 <= k < i
      ensures SlotIs(fs, h2, k) && NameIs(fs, h2, k)
    {
      OffsMonotone(fs, k + 1, i);
      EntryStays(fs, h0, k, from, slot);
      EntryStays(fs, h1, k, at, name);
    }
    SliceSet(h0, from, slot);
    SliceKept(h1, at, name, from, from + 20);
    SliceSet(h1, at, name);
  }

  /** What was written is the header; cutting it out and recording the offsets changes nothing it says. */
  lemma HeaderWritten(fs: seq<File>, gs: seq<File>, before: bytes, h: bytes)
    requires |fs| == |gs| && HeaderSize(fs) <= |h| == |before|
    requires PreambleIs(fs, before) && EntriesWritten(fs, h, |fs|) && before[..HEADER_SIZE] == h[..HEADER_SIZE]
    requires forall i :: 0 <= i < |fs| ==> fs[i].name == gs[i].name && fs[i].size == gs[i].size
    ensures HeaderSize(gs) == HeaderSize(fs) && TotalSize(gs) == TotalSize(fs) && IsHeader(gs, h[..HeaderSize(fs)])
    ensures forall i :: 0 <= i < |gs| ==> DataOff(gs, i) == DataOff(fs, i)
  {
    hide *;
    assert HeaderSize(gs) == HeaderSize(fs) && TotalSize(gs) == TotalSize(fs) && HEADER_SIZE <= HeaderSize(fs) by { SizesAgree(fs, gs); }
    var cut := h[..HeaderSize(fs)];
    forall i | 0 <= i < |gs|
      ensures DataOff(gs, i) == DataOff(fs, i) && SlotIs(gs, cut, i) && NameIs(gs, cut, i)
    {
      assert SlotIs(fs, h, i) && NameIs(fs, h, i) by { EntryIn(fs, h, i); }
      LayoutIsLocal(fs, gs, i);
      EntryCut(fs, gs, h, i);
    }
    SliceOfSlice(h, 0, HeaderSize(fs), 0, HEADER_SIZE);
    assert h[0..HEADER_SIZE] == h[..HEADER_SIZE] && cut[0..HEADER_SIZE] == cut[..HEADER_SIZE];
    PreambleCut(fs, gs, before, cut);
    HeaderFrom(gs, cut);
  }

  lemma EntryIn(fs: seq<File>, h: bytes, i: nat)
    requires i < |fs| && EntriesWritten(fs, h, |fs|)
    ensures SlotIs(fs, h, i) && NameIs(fs, h, i)
  {
  }

  lemma HeaderFrom(fs: seq<File>, h: bytes)
    requires |h| == HeaderSize(fs) && PreambleIs(fs, h) && forall i :: 0 <= i < |fs| ==> SlotIs(fs, h, i) && NameIs(fs, h, i)
    ensures IsHeader(fs, h)
  {
    hide PreambleIs, SlotIs, NameIs;
  }

  lemma SizesAgree(fs: seq<File>, gs: seq<File>)
    requires |fs| == |gs|
    requires forall i :: 0 <= i < |fs| ==> fs[i].name == gs[i].name && fs[i].size == gs[i].size
    ensures HeaderSize(gs) == HeaderSize(fs) && TotalSize(gs) == TotalSize(fs) && HEADER_SIZE <= HeaderSize(fs)
  {
    hide DataOff, NameOff;
    LayoutIsLocal(fs, gs, |fs|);
  }

  lemma EntryCut(fs: seq<File>, gs: seq<File>, h: bytes, i: nat)
    requires i < |fs| == |gs| && SlotIs(fs, h, i) && NameIs(fs, h, i) && HeaderSize(fs) <= |h|
    requires fs[i].name == gs[i].name && fs[i].size == gs[i].size
    requires DataOff(gs, i) == DataOff(fs, i) && NameOff(gs, i) == NameOff(fs, i)
    ensures SlotIs(gs, h[..HeaderSize(fs)], i) && NameIs(gs, h[..HeaderSize(fs)], i)
  {
    hide *;
    var end := HeaderSize(fs);
    assert SlotOff(i) + 20 <= end && TableOff(fs) + NameOff(fs, i) + |fs[i].name| + 1 <= end by { EntryInHeader(fs, i); }
    SliceOfSlice(h, 0, end, SlotOff(i), SlotOff(i) + 20);
    SlotMoved(fs, gs, h, h[..end], i);
    var at := TableOff(fs) + NameOff(fs, i);
    SliceOfSlice(h, 0, end, at, at + |fs[i].name| + 1);
    NameMoved(fs, gs, h, h[..end], i);
  }

  lemma EntryInHeader(fs: seq<File>, i: nat)
    requires i < |fs|
    ensures SlotOff(i) + 20 <= HeaderSize(fs) && TableOff(fs) + NameOff(fs, i) + |fs[i].name| + 1 <= HeaderSize(fs)
  {
    OffsMonotone(fs, i + 1, |fs|);
    NextName(fs, i);
    hide NameOff;
  }

  lemma SlotMoved(fs: seq<File>, gs: seq<File>, h: bytes, k: bytes, i: nat)
    requires i < |fs| == |gs| && SlotIs(fs, h, i) && fs[i].size == gs[i].size
    requires DataOff(gs, i) == DataOff(fs, i) && NameOff(gs, i) == NameOff(fs, i)
    requires SlotOff(i) + 20 <= |k| && SlotOff(i) + 20 <= |h| && k[SlotOff(i)..SlotOff(i) + 20] == h[SlotOff(i)..SlotOff(i) + 20]
    ensures SlotIs(gs, k, i)
  {
    hide SlotBytes, DataOff, NameOff, SlotOff;
  }

  lemma NameMoved(fs: seq<File>, gs: seq<File>, h: bytes, k: bytes, i: nat)
    requires i < |fs| == |gs| && NameIs(fs, h, i) && fs[i].name == gs[i].name && NameOff(gs, i) == NameOff(fs, i)
    requires var at, end := TableOff(fs) + NameOff(fs, i), TableOff(fs) + NameOff(fs, i) + |fs[i].name| + 1;
             end <= |k| && end <= |h| && k[at..end] == h[at..end]
    ensures NameIs(gs, k, i)
  {
    hide NameOff;
  }

  lemma PreambleCut(fs: seq<File>, gs: seq<File>, before: bytes, h: bytes)
    requires |fs| == |gs| && PreambleIs(fs, before) && HEADER_SIZE <= |h| && before[..HEADER_SIZE] == h[..HEADER_SIZE]
    requires forall i :: 0 <= i < |fs| ==> fs[i].name == gs[i].name && fs[i].size == gs[i].size
    ensures PreambleIs(gs, h)
  {
    hide Le, NameOff;
    LayoutIsLocal(fs, gs, |fs|);
    PreambleKept(before, h, 0, 4);
    PreambleKept(before, h, 4, 8);
    PreambleKept(before, h, 8, 12);
  }

  lemma PreambleKept(a: bytes, b: bytes, lo: nat, hi: nat)
    requires lo <= hi <= HEADER_SIZE <= |a| && HEADER_SIZE <= |b| && a[..HEADER_SIZE] == b[..HEADER_SIZE]
    ensures a[lo..hi] == b[lo..hi]
  {
    SliceOfSlice(a, 0, HEADER_SIZE, lo, hi);
    SliceOfSlice(b, 0, HEADER_SIZE, lo, hi);
  }

  // ----- the builder and the parser are inverse -----

  lemma HeaderFields(fs: seq<File>, h: bytes)
    requires ValidFiles(fs) && PreambleIs(fs, h)
    ensures RdU32(h, 0) == PFS0_MAGIC && RdU32(h, 4) == |fs|
    ensures NameOff(fs, |fs|) <= MAX_FILES * MAX_NAME_LEN && RdU32(h, 8) == NameOff(fs, |fs|)
  {
    hide *;
    FewFiles(fs);
    PreambleFields(fs, h);
    U32At(h, 0, PFS0_MAGIC);
    U32At(h, 4, |fs|);
    U32At(h, 8, NameOff(fs, |fs|));
  }

  lemma FewFiles(fs: seq<File>)
    requires ValidFiles(fs)
    ensures |fs| <= 64 && NameOff(fs, |fs|) <= MAX_FILES * MAX_NAME_LEN && NameOff(fs, |fs|) < 0x1_0000_0000
  {
    NameOffBound(fs, |fs|);
  }

  lemma PreambleFields(fs: seq<File>, h: bytes)
    requires PreambleIs(fs, h)
    ensures 16 <= |h| && h[0..0 + 4] == Le(PFS0_MAGIC, 4) && h[4..4 + 4] == Le(|fs|, 4) && h[8..8 + 4] == Le(NameOff(fs, |fs|), 4)
  {
    hide Le, NameOff;
    assert h[0..4] == h[..4];
  }

  lemma SlotFields(fs: seq<File>, h: bytes, i: nat)
    requires i < |fs| && SlotIs(fs, h, i) && SlotOff(i) + 24 <= |h|
    ensures var at := SlotOff(i);
            RdU64(h, at) == DataOff(fs, i) && RdU64(h, at + 8) == fs[i].size && RdU32(h, at + 16) == NameOff(fs, i)
  {
    hide DataOff, NameOff, SlotOff, Le, RdU32, RdU64;
    Fields884(h, SlotOff(i), DataOff(fs, i), fs[i].size, NameOff(fs, i));
  }

  /** A terminated name reads back as itself. */
  lemma NameAt(h: bytes, at: nat, name: bytes)
    requires at + |name| + 1 <= |h| && h[at..at + |name| + 1] == name + [0] && 0 !in name
    ensures CStr(h, at) == name && h[at + |name|] == 0
  {
    SliceOfSlice(h, at, at + |name| + 1, 0, |name|);
    assert h[at + |name|] == h[at..at + |name| + 1][|name|];
    CStrAt(h, at, name);
  }

  /**
   * Parsing a finalised header gives back the same names and sizes, in order, at cumulative offsets,
   * with the data starting where the builder put it; and the first 16 bytes predict that.
   */
  lemma ParseInvertsBuild(fs: seq<File>, h: bytes)
    requires ValidFiles(fs) && IsHeader(fs, h) && DataOff(fs, |fs|) < U64_LIMIT
    ensures Parse(h).Ok?
    ensures var ctx := Parse(h).value;
            && ctx.variant == Pfs0 && ctx.count == |fs| && ctx.headerSize == HeaderSize(fs)
            && (forall i :: 0 <= i < |fs| ==>
                  DataOff(fs, i) < U64_LIMIT && GetEntry(ctx, i) == Ok(Entry(fs[i].name, DataOff(fs, i), fs[i].size)))
    ensures PeekHeaderSize(h[..HEADER_SIZE]) == Ok((Pfs0, HeaderSize(fs)))
  {
    hide Le, RdLe;
    HeaderFields(fs, h);
    var shape := Shape(h);
    assert shape.Ok?;
    var ctx := shape.value;
    assert ctx.nameTableOff == TableOff(fs);
    forall i | 0 <= i < |fs|
      ensures NameOk(ctx, i)
      ensures DataOff(fs, i) < U64_LIMIT && GetEntry(ctx, i) == Ok(Entry(fs[i].name, DataOff(fs, i), fs[i].size))
    {
      EntryInverts(fs, ctx, i);
    }
    ParseAgreesWithPeek(h);
  }

  lemma EntryInverts(fs: seq<File>, ctx: Context, i: nat)
    requires ValidFiles(fs) && i < |fs| && SlotIs(fs, ctx.header, i) && NameIs(fs, ctx.header, i)
    requires ValidContext(ctx) && ctx.variant == Pfs0 && ctx.count == |fs|
    requires ctx.nameTableSize == NameOff(fs, |fs|) && |ctx.header| == HeaderSize(fs)
    ensures NameOk(ctx, i) && GetEntry(ctx, i) == Ok(Entry(fs[i].name, DataOff(fs, i), fs[i].size))
  {
    hide *;
    assert Slot(Pfs0, i) == SlotOff(i) && SlotOff(i) + 24 <= ctx.nameTableOff == TableOff(fs) && |ctx.header| == ctx.nameTableOff + ctx.nameTableSize by {
      SlotsAgree(fs, ctx, i);
    }
    assert NameFits(fs[i].name) by { FileFits(fs, i); }
    OffsMonotone(fs, i + 1, |fs|);
    assert NameOff(fs, i + 1) == NameOff(fs, i) + |fs[i].name| + 1 by { NextName(fs, i); }
    SlotFields(fs, ctx.header, i);
    var at := TableOff(fs) + NameOff(fs, i);
    NameIsAt(fs, ctx.header, i);
    NameInside(ctx.header, at, at + |fs[i].name|);
    EntryFrom(ctx, i, NameOff(fs, i), Entry(fs[i].name, DataOff(fs, i), fs[i].size));
  }

  lemma NextName(fs: seq<File>, i: nat)
    requires i < |fs|
    ensures NameOff(fs, i + 1) == NameOff(fs, i) + |fs[i].name| + 1 && DataOff(fs, i + 1) == DataOff(fs, i) + fs[i].size
  {
  }

  lemma FileFits(fs: seq<File>, i: nat)
    requires ValidFiles(fs) && i < |fs|
    ensures NameFits(fs[i].name)
  {
  }

  lemma SlotsAgree(fs: seq<File>, ctx: Context, i: nat)
    requires ValidContext(ctx) && ctx.variant == Pfs0 && ctx.count == |fs| && i < |fs|
    requires ctx.nameTableSize == NameOff(fs, |fs|) && |ctx.header| == HeaderSize(fs)
    ensures Slot(Pfs0, i) == SlotOff(i) && SlotOff(i) + 24 <= ctx.nameTableOff == TableOff(fs)
    ensures |ctx.header| == ctx.nameTableOff + ctx.nameTableSize
  {
    hide NameOff;
  }

  lemma NameIsAt(fs: seq<File>, h: bytes, i: nat)
    requires i < |fs| && NameIs(fs, h, i) && NameFits(fs[i].name)
    ensures var at := TableOff(fs) + NameOff(fs, i);
            at + |fs[i].name| < |h| && CStr(h, at) == fs[i].name && h[at + |fs[i].name|] == 0
  {
    hide NameOff, TableOff;
    NameAt(h, TableOff(fs) + NameOff(fs, i), fs[i].name);
  }

  /** An entry is its three fields and the string the third one points at. */
  lemma EntryFrom(ctx: Context, i: nat, nameOff: nat, e: Entry)
    requires ValidContext(ctx) && i < ctx.count
    requires RdU64(ctx.header, Slot(ctx.variant, i)) == e.offset && RdU64(ctx.header, Slot(ctx.variant, i) + 8) == e.size
    requires RdU32(ctx.header, Slot(ctx.variant, i) + 16) == nameOff < ctx.nameTableSize
    requires CStr(ctx.header, ctx.nameTableOff + nameOff) == e.name
    requires 0 in ctx.header[ctx.nameTableOff + nameOff..ctx.nameTableOff + ctx.nameTableSize]
    ensures NameOk(ctx, i) && GetEntry(ctx, i) == Ok(e)
  {
    hide RdU32, RdU64, CStr;
  }

  lemma NameInside(h: bytes, from: nat, at: nat)
    requires from <= at < |h| && h[at] == 0
    ensures 0 in h[from..|h|]
  {
    assert h[from..|h|][at - from] == 0;
  }
}
