/** PFS0 and HFS0 headers as they are written, so that reading one back is checked against it. */
module PfsFormat {
  import opened Bytes
  import opened PartitionFs

  /** One entry of the table; `rest` is carried but never looked at: padding in a PFS0, hashes in an HFS0. */
  datatype File = File(name: bytes, offset: u64, size: u64, rest: bytes)

  /** A PFS0 entry takes 0x18 bytes, an HFS0 entry 0x40. */
  function RestSize(v: Variant): nat {
    match v
    case Pfs0 => 0x18 - 0x14
    case Hfs0 => 0x40 - 0x14
  }

  /** `reserved` and `padding` are carried too: the last field of the preamble, and what follows the names in their table. */
  ghost predicate Writable(v: Variant, fs: seq<File>, reserved: bytes, padding: bytes) {
    && |fs| <= 0x1_0000 && |NameTable(fs)| + |padding| <= 0x10_0000 && |reserved| == 4
    && forall i :: 0 <= i < |fs| ==> Fits(v, fs[i])
  }

  predicate Fits(v: Variant, f: File) {
    0 !in f.name && |f.rest| == RestSize(v)
  }

  function Magic(v: Variant): bytes {
    match v
    case Pfs0 => Ascii("PFS0")
    case Hfs0 => Ascii("HFS0")
  }

  function Names(fs: seq<File>): (names: seq<bytes>)
    ensures |names| == |fs|
  {
    seq(|fs|, i requires 0 <= i < |fs| => fs[i].name + [0])
  }

  function FileFields(f: File, nameOff: nat): seq<bytes> {
    [Le(f.offset, 8), Le(f.size, 8), Le(nameOff, 4), f.rest]
  }

  /** Where the name of file `i` starts in the table of names. */
  function NameAt(fs: seq<File>, i: nat): nat
    requires i <= |fs|
  {
    FieldOff(Names(fs), i)
  }

  function EntryBytes(f: File, nameOff: nat): bytes {
    Joined(FileFields(f, nameOff))
  }

  function Table(fs: seq<File>): (slots: seq<bytes>)
    ensures |slots| == |fs|
  {
    seq(|fs|, i requires 0 <= i < |fs| => EntryBytes(fs[i], NameAt(fs, i)))
  }

  function Preamble(v: Variant, count: nat, names: nat, reserved: bytes): seq<bytes> {
    [Magic(v), Le(count, 4), Le(names, 4), reserved]
  }

  function Start(v: Variant, count: nat, names: nat, reserved: bytes): bytes {
    Joined(Preamble(v, count, names, reserved))
  }

  function Entries(fs: seq<File>): bytes {
    Joined(Table(fs))
  }

  function NameTable(fs: seq<File>): bytes {
    Joined(Names(fs))
  }

  function Write(v: Variant, fs: seq<File>, reserved: bytes, padding: bytes): bytes {
    Start(v, |fs|, |NameTable(fs)| + |padding|, reserved) + Entries(fs) + NameTable(fs) + padding
  }

  // ----- where the fields are -----

  lemma PreambleOffsets(f: seq<bytes>, v: Variant, count: nat, names: nat, reserved: bytes)
    requires f == Preamble(v, count, names, reserved) && |reserved| == 4
    ensures |f| == 4 && FieldOff(f, 0) == 0 && FieldOff(f, 1) == 4 && FieldOff(f, 2) == 8 && FieldOff(f, 3) == 12 && FieldOff(f, 4) == 16
  {
    hide Le;
    assert FieldOff(f, 1) == 4;
    assert FieldOff(f, 2) == 8;
  }

  lemma FileOffsets(v: Variant, f: File, nameOff: nat)
    requires Fits(v, f)
    ensures var fields := FileFields(f, nameOff);
            && |fields| == 4 && FieldOff(fields, 0) == 0 && FieldOff(fields, 1) == 8 && FieldOff(fields, 2) == 0x10 && FieldOff(fields, 3) == 0x14
            && FieldOff(fields, 4) == 0x14 + RestSize(v)
  {
    hide Le;
    var fields := FileFields(f, nameOff);
    assert FieldOff(fields, 1) == 8;
    assert FieldOff(fields, 2) == 0x10;
  }

  lemma EntryLength(v: Variant, f: File, nameOff: nat)
    requires Fits(v, f)
    ensures |EntryBytes(f, nameOff)| == 0x14 + RestSize(v)
  {
    hide Joined, FieldOff, FileFields;
    FileOffsets(v, f, nameOff);
    FieldsLength(FileFields(f, nameOff));
  }

  lemma TableLength(v: Variant, fs: seq<File>, i: nat)
    requires (forall k :: 0 <= k < |fs| ==> Fits(v, fs[k])) && i <= |fs|
    ensures |Entries(fs)| == EntriesBytes(v, |fs|) && FieldOff(Table(fs), i) == EntriesBytes(v, i)
    ensures forall k :: 0 <= k < |fs| ==> |Table(fs)[k]| == 0x14 + RestSize(v)
  {
    hide Joined, EntryBytes, Fits, NameAt;
    var slots := Table(fs);
    forall k | 0 <= k < |slots|
      ensures |slots[k]| == 0x14 + RestSize(v)
    {
      EntryLength(v, fs[k], NameAt(fs, k));
    }
    FieldsLength(slots);
    EqualPieces(slots, 0x14 + RestSize(v), |slots|);
    EqualPieces(slots, 0x14 + RestSize(v), i);
  }

  lemma PreambleLength(v: Variant, count: nat, names: nat, reserved: bytes)
    requires |reserved| == 4
    ensures |Start(v, count, names, reserved)| == 16
  {
    hide Joined, Preamble;
    FieldsLength(Preamble(v, count, names, reserved));
    PreambleOffsets(Preamble(v, count, names, reserved), v, count, names, reserved);
  }

  /** The size of the header: what is written, and no more. */
  lemma LengthOf(v: Variant, fs: seq<File>, reserved: bytes, padding: bytes)
    requires Writable(v, fs, reserved, padding)
    ensures |Write(v, fs, reserved, padding)| == Slot(v, |fs|) + |NameTable(fs)| + |padding|
  {
    hide Start, Entries, NameTable, Fits;
    TableLength(v, fs, 0);
    PreambleLength(v, |fs|, |NameTable(fs)| + |padding|, reserved);
  }

  // ----- reading the preamble -----

  lemma PreambleField(v: Variant, count: nat, names: nat, reserved: bytes, rest: bytes, i: nat)
    requires |reserved| == 4 && i < 4
    ensures var f := Preamble(v, count, names, reserved);
            var b := Joined(f) + rest;
            FieldOff(f, i) + |f[i]| <= 16 <= |b| && b[FieldOff(f, i)..FieldOff(f, i) + |f[i]|] == f[i]
  {
    hide Joined, FieldOff;
    var f := Preamble(v, count, names, reserved);
    PreambleOffsets(f, v, count, names, reserved);
    PreambleLength(v, count, names, reserved);
    FieldAt(f, i);
    SliceBefore(Joined(f), rest, FieldOff(f, i), FieldOff(f, i) + |f[i]|);
  }

  lemma MagicIs(v: Variant)
    ensures Magic(v) == Le(if v.Pfs0? then PFS0_MAGIC else HFS0_MAGIC, 4)
  {
    var m := if v.Pfs0? then PFS0_MAGIC else HFS0_MAGIC;
    assert m / 256 / 256 / 256 / 256 == 0;
    assert Le(m / 256 / 256 / 256, 1) == [0x30];
    assert Le(m / 256 / 256, 2) == [0x53, 0x30];
    assert Le(m / 256, 3) == [0x46, 0x53, 0x30];
  }

  lemma PreambleReads(v: Variant, count: u32, names: u32, reserved: bytes, rest: bytes)
    requires |reserved| == 4
    ensures var b := Start(v, count, names, reserved) + rest;
            |b| >= 16 && PartitionFs.Classify(RdU32(b, 0)) == Ok(v) && RdU32(b, 4) == count && RdU32(b, 8) == names
  {
    hide Joined, FieldOff, Le, RdLe, Magic;
    var f := Preamble(v, count, names, reserved);
    var b := Joined(f) + rest;
    PreambleOffsets(f, v, count, names, reserved);
    PreambleField(v, count, names, reserved, rest, 0);
    MagicIs(v);
    U32At(b, 0, if v.Pfs0? then PFS0_MAGIC else HFS0_MAGIC);
    PreambleField(v, count, names, reserved, rest, 1);
    U32At(b, 4, count);
    PreambleField(v, count, names, reserved, rest, 2);
    U32At(b, 8, names);
  }

  // ----- reading an entry -----

  /** The table behind the preamble, and the names behind the table. */
  lemma TableAndNames(v: Variant, fs: seq<File>, reserved: bytes, padding: bytes, more: bytes)
    ensures var front := Start(v, |fs|, |NameTable(fs)| + |padding|, reserved);
            && Write(v, fs, reserved, padding) + more == front + (Entries(fs) + (NameTable(fs) + padding + more))
            && Write(v, fs, reserved, padding) + more == front + Entries(fs) + (NameTable(fs) + (padding + more))
  {
    hide Start, Entries, NameTable;
    Regrouped(Start(v, |fs|, |NameTable(fs)| + |padding|, reserved), Entries(fs), NameTable(fs), padding, more);
  }

  lemma Regrouped<T>(a: seq<T>, b: seq<T>, c: seq<T>, d: seq<T>, e: seq<T>)
    ensures a + b + c + d + e == a + (b + (c + d + e)) == a + b + (c + (d + e))
  {
  }

  lemma InMiddle<T>(all: seq<T>, front: seq<T>, middle: seq<T>, rest: seq<T>, off: nat, n: nat)
    requires all == front + (middle + rest) && off + n <= |middle|
    ensures |front| + off + n <= |all| && all[|front| + off..|front| + off + n] == middle[off..off + n]
  {
    SliceBehind(front, middle + rest, off, n);
    SliceBefore(middle, rest, off, off + n);
  }

  /** Entry `i` lies where the variant's entry size puts it. */
  lemma EntryLies(v: Variant, fs: seq<File>, reserved: bytes, padding: bytes, more: bytes, i: nat)
    requires Writable(v, fs, reserved, padding) && i < |fs|
    ensures var b, at := Write(v, fs, reserved, padding) + more, Slot(v, i);
            && at + 0x14 + RestSize(v) <= |b|
            && b[at..at + 0x14 + RestSize(v)] == EntryBytes(fs[i], NameAt(fs, i))
  {
    hide Start, NameTable, EntryBytes, Fits, Write, NameAt;
    var front, all := Start(v, |fs|, |NameTable(fs)| + |padding|, reserved), Entries(fs);
    TableLength(v, fs, i);
    PreambleLength(v, |fs|, |NameTable(fs)| + |padding|, reserved);
    FieldAt(Table(fs), i);
    TableAndNames(v, fs, reserved, padding, more);
    InMiddle(Write(v, fs, reserved, padding) + more, front, all, NameTable(fs) + padding + more, EntriesBytes(v, i), 0x14 + RestSize(v));
  }

  lemma EntryReads(v: Variant, b: bytes, at: nat, f: File, nameOff: u32)
    requires Fits(v, f) && at + 0x14 + RestSize(v) <= |b| && b[at..at + 0x14 + RestSize(v)] == EntryBytes(f, nameOff)
    ensures RdU64(b, at) == f.offset && RdU64(b, at + 8) == f.size && RdU32(b, at + 0x10) == nameOff
  {
    hide Joined, FieldOff, Le, RdLe;
    var fields, end := FileFields(f, nameOff), at + 0x14 + RestSize(v);
    FileOffsets(v, f, nameOff);
    EntryLength(v, f, nameOff);
    FieldAt(fields, 0);
    SliceOfSlice(b, at, end, 0, 8);
    U64At(b, at, f.offset);
    FieldAt(fields, 1);
    SliceOfSlice(b, at, end, 8, 16);
    U64At(b, at + 8, f.size);
    FieldAt(fields, 2);
    SliceOfSlice(b, at, end, 16, 20);
    U32At(b, at + 0x10, nameOff);
  }

  // ----- reading a name -----

  lemma NameInTable(fs: seq<File>, i: nat)
    requires i < |fs|
    ensures var off, n := NameAt(fs, i), |fs[i].name| + 1;
            off + n <= |NameTable(fs)| && NameTable(fs)[off..off + n] == fs[i].name + [0]
  {
    hide Joined, FieldOff;
    FieldAt(Names(fs), i);
  }

  lemma NameLies(v: Variant, fs: seq<File>, reserved: bytes, padding: bytes, more: bytes, i: nat)
    requires Writable(v, fs, reserved, padding) && i < |fs|
    ensures var b, off := Write(v, fs, reserved, padding) + more, NameAt(fs, i);
            var at := Slot(v, |fs|) + off;
            && off + |fs[i].name| + 1 <= |NameTable(fs)| && at + |fs[i].name| + 1 <= |b|
            && b[at..at + |fs[i].name| + 1] == fs[i].name + [0]
  {
    hide Start, Entries, Fits, Write, NameAt, NameTable, Names;
    var front, names := Start(v, |fs|, |NameTable(fs)| + |padding|, reserved) + Entries(fs), NameTable(fs);
    TableLength(v, fs, 0);
    PreambleLength(v, |fs|, |names| + |padding|, reserved);
    NameInTable(fs, i);
    TableAndNames(v, fs, reserved, padding, more);
    InMiddle(Write(v, fs, reserved, padding) + more, front, names, padding + more, NameAt(fs, i), |fs[i].name| + 1);
  }

  lemma NameReads(b: bytes, at: nat, end: nat, name: bytes)
    requires at + |name| + 1 <= end <= |b| && b[at..at + |name| + 1] == name + [0] && 0 !in name
    ensures CStr(b, at) == name && 0 in b[at..end]
  {
    assert b[at + |name|] == b[at..at + |name| + 1][|name|] == 0;
    assert b[at..at + |name|] == b[at..at + |name| + 1][..|name|] == name;
    CStrAt(b, at, name);
    assert b[at..end][|name|] == 0;
  }

  // ----- reading back what was written -----

  lemma EntryIs(ctx: Context, i: nat, nameOff: nat, f: File)
    requires ValidContext(ctx) && i < ctx.count && nameOff < ctx.nameTableSize && Slot(ctx.variant, i) + 0x14 <= |ctx.header|
    requires RdU64(ctx.header, Slot(ctx.variant, i)) == f.offset && RdU64(ctx.header, Slot(ctx.variant, i) + 8) == f.size
    requires RdU32(ctx.header, Slot(ctx.variant, i) + 0x10) == nameOff
    requires CStr(ctx.header, ctx.nameTableOff + nameOff) == f.name && 0 in ctx.header[ctx.nameTableOff + nameOff..ctx.nameTableOff + ctx.nameTableSize]
    ensures NameOk(ctx, i) && GetEntry(ctx, i) == Ok(Entry(f.name, f.offset, f.size))
  {
    hide RdLe, CStr;
  }

  lemma FileInverts(v: Variant, fs: seq<File>, reserved: bytes, padding: bytes, more: bytes, ctx: Context, i: nat)
    requires Writable(v, fs, reserved, padding) && i < |fs|
    requires ValidContext(ctx) && ctx.header == Write(v, fs, reserved, padding) + more && ctx.variant == v && ctx.count == |fs|
    requires ctx.nameTableSize == |NameTable(fs)| + |padding|
    ensures NameOk(ctx, i) && GetEntry(ctx, i) == Ok(Entry(fs[i].name, fs[i].offset, fs[i].size))
  {
    hide NameTable, NameAt, EntryBytes, Write, RdU32, RdU64, CStr, NameOk, GetEntry;
    var b, off := ctx.header, NameAt(fs, i);
    assert Fits(v, fs[i]);
    EntryLies(v, fs, reserved, padding, more, i);
    NameLies(v, fs, reserved, padding, more, i);
    EntryReads(v, b, Slot(v, i), fs[i], off);
    NameReads(b, ctx.nameTableOff + off, ctx.nameTableOff + ctx.nameTableSize, fs[i].name);
    EntryIs(ctx, i, off, fs[i]);
  }

  /** Whatever follows a written header, it is parsed back: the same names, offsets and sizes, in the same order. */
  lemma ParseInvertsWrite(v: Variant, fs: seq<File>, reserved: bytes, padding: bytes, more: bytes)
    requires Writable(v, fs, reserved, padding)
    ensures var h := Write(v, fs, reserved, padding);
            var r := Parse(h + more);
            && PeekHeaderSize(h + more) == Ok((v, |h|))
            && r.Ok? && r.value.variant == v && r.value.count == |fs| && r.value.headerSize == |h|
            && forall i :: 0 <= i < |fs| ==> GetEntry(r.value, i) == Ok(Entry(fs[i].name, fs[i].offset, fs[i].size))
  {
    hide Start, Entries, NameTable, RdLe, GetEntry, NameOk, Fits, PartitionFs.Classify;
    var h, names := Write(v, fs, reserved, padding), |NameTable(fs)| + |padding|;
    LengthOf(v, fs, reserved, padding);
    var rest := Entries(fs) + NameTable(fs) + padding + more;
    assert h + more == Start(v, |fs|, names, reserved) + rest;
    PreambleReads(v, |fs|, names, reserved, rest);
    var shape := Shape(h + more);
    assert shape.Ok?;
    forall i | 0 <= i < |fs|
      ensures NameOk(shape.value, i) && GetEntry(shape.value, i) == Ok(Entry(fs[i].name, fs[i].offset, fs[i].size))
    {
      FileInverts(v, fs, reserved, padding, more, shape.value, i);
    }
  }

  // ----- what is accepted -----

  /** An entry as it stands in a header: fields at `at`, and a name that ends with a zero inside the table at `names`. */
  ghost predicate Stands(h: bytes, at: nat, names: nat, size: nat, e: Entry) {
    && at + 0x14 <= |h| && names + size <= |h|
    && e.offset == RdLe(h, at, 8) && e.size == RdLe(h, at + 8, 8)
    && var from := names + RdLe(h, at + 0x10, 4);
       from + |e.name| < names + size && h[from..from + |e.name|] == e.name && 0 !in e.name && h[from + |e.name|] == 0
  }

  /** The bytes start with a header of this kind that lists these entries. */
  ghost predicate Lists(h: bytes, v: Variant, es: seq<Entry>) {
    && |h| >= 16 && h[..4] == Magic(v) && |es| == RdLe(h, 4, 4) <= 0x1_0000 && RdLe(h, 8, 4) <= 0x10_0000
    && var names := 16 + (0x14 + RestSize(v)) * |es|;
       && names + RdLe(h, 8, 4) <= |h|
       && forall i :: 0 <= i < |es| ==> Stands(h, 16 + (0x14 + RestSize(v)) * i, names, RdLe(h, 8, 4), es[i])
  }

  lemma StartsWith(h: bytes, v: Variant)
    requires |h| >= 4
    ensures h[..4] == Magic(v) <==> RdU32(h, 0) == if v.Pfs0? then PFS0_MAGIC else HFS0_MAGIC
  {
    var a: int, b: int, c: int, d: int := h[0], h[1], h[2], h[3];
    assert RdU32(h, 0) == a + 0x100 * b + 0x1_0000 * c + 0x100_0000 * d;
    assert h[..4] == [h[0], h[1], h[2], h[3]];
    assert Magic(v) == if v.Pfs0? then [0x50, 0x46, 0x53, 0x30] else [0x48, 0x46, 0x53, 0x30];
  }

  lemma {:induction false} CStrStands(b: bytes, at: nat, end: nat)
    requires at <= end <= |b| && 0 in b[at..end]
    ensures var s := CStr(b, at); at + |s| < end && b[at..at + |s|] == s && b[at + |s|] == 0
    decreases end - at
  {
    if b[at] != 0 {
      assert b[at..end] == [b[at]] + b[at + 1..end];
      CStrStands(b, at + 1, end);
      var s := CStr(b, at + 1);
      assert b[at..at + 1 + |s|] == [b[at]] + b[at + 1..at + 1 + |s|];
    }
  }

  lemma EntryStands(ctx: Context, i: nat)
    requires ValidContext(ctx) && i < ctx.count && NameOk(ctx, i) && Slot(ctx.variant, i) + 0x14 <= |ctx.header|
    ensures Stands(ctx.header, Slot(ctx.variant, i), ctx.nameTableOff, ctx.nameTableSize, GetEntry(ctx, i).value)
  {
    hide RdLe, CStr;
    var h, at := ctx.header, Slot(ctx.variant, i);
    CStrStands(h, ctx.nameTableOff + RdU32(h, at + 0x10), ctx.nameTableOff + ctx.nameTableSize);
  }

  lemma StandsIsRead(ctx: Context, i: nat, e: Entry)
    requires ValidContext(ctx) && i < ctx.count
    requires Stands(ctx.header, Slot(ctx.variant, i), ctx.nameTableOff, ctx.nameTableSize, e)
    ensures NameOk(ctx, i) && GetEntry(ctx, i) == Ok(e)
  {
    hide RdLe, CStr;
    var h, at := ctx.header, Slot(ctx.variant, i);
    var from, end := ctx.nameTableOff + RdU32(h, at + 0x10), ctx.nameTableOff + ctx.nameTableSize;
    CStrAt(h, from, e.name);
    assert h[from..end][|e.name|] == 0;
  }

  lemma SlotIs(v: Variant, i: nat, n: nat)
    requires i <= n
    ensures Slot(v, i) == 16 + (0x14 + RestSize(v)) * i <= Slot(v, n) && (i < n ==> Slot(v, i) + 0x14 <= Slot(v, n))
  {
  }

  lemma ListedIsParsed(h: bytes, v: Variant, es: seq<Entry>)
    requires Lists(h, v, es)
    ensures Parse(h).Ok? && Parse(h).value.variant == v && Parse(h).value.count == |es|
    ensures forall i :: 0 <= i < |es| ==> GetEntry(Parse(h).value, i) == Ok(es[i])
  {
    hide RdLe, GetEntry, NameOk, Slot, EntriesBytes, Stands;
    StartsWith(h, v);
    SlotIs(v, |es|, |es|);
    SlotIsBehind(v, |es|);
    var shape := Shape(h);
    assert shape.Ok?;
    forall i | 0 <= i < |es|
      ensures NameOk(shape.value, i) && GetEntry(shape.value, i) == Ok(es[i])
    {
      SlotIs(v, i, |es|);
      StandsIsRead(shape.value, i, es[i]);
    }
  }

  lemma SlotIsBehind(v: Variant, n: nat)
    ensures Slot(v, n) == HEADER_SIZE + EntriesBytes(v, n)
  {
  }

  lemma ParsedIsListed(h: bytes)
    requires Parse(h).Ok?
    ensures var ctx := Parse(h).value; Lists(h, ctx.variant, seq(ctx.count, i requires 0 <= i < ctx.count => GetEntry(ctx, i).value))
  {
    hide RdLe, NameOk, Slot, EntriesBytes, Stands, GetEntry;
    var ctx := Parse(h).value;
    ShapeOf(h);
    StartsWith(h, ctx.variant);
    SlotIs(ctx.variant, ctx.count, ctx.count);
    forall i | 0 <= i < ctx.count
      ensures Stands(h, 16 + (0x14 + RestSize(ctx.variant)) * i, ctx.nameTableOff, ctx.nameTableSize, GetEntry(ctx, i).value)
    {
      SlotIs(ctx.variant, i, ctx.count);
      EntryStands(ctx, i);
    }
  }

  lemma ShapeOf(h: bytes)
    requires Parse(h).Ok?
    ensures var ctx := Parse(h).value;
            && |h| >= 16 && RdU32(h, 0) == (if ctx.variant.Pfs0? then PFS0_MAGIC else HFS0_MAGIC)
            && ctx.count == RdU32(h, 4) <= 0x1_0000 && ctx.nameTableSize == RdU32(h, 8) <= 0x10_0000
            && forall i :: 0 <= i < ctx.count ==> NameOk(ctx, i)
  {
    hide RdLe, NameOk, Slot;
  }

  /** A header is accepted exactly when it lists entries, and then it is these that are read from it. */
  lemma AcceptedIsListed(h: bytes)
    ensures Parse(h).Ok? <==> exists v, es :: Lists(h, v, es)
    ensures forall v, es :: Lists(h, v, es) ==>
              && Parse(h).Ok? && Parse(h).value.variant == v && Parse(h).value.count == |es|
              && forall i :: 0 <= i < |es| ==> GetEntry(Parse(h).value, i) == Ok(es[i])
  {
    hide Parse, Lists, GetEntry, ValidContext;
    if Parse(h).Ok? {
      ParsedIsListed(h);
    }
    forall v, es | Lists(h, v, es)
      ensures Parse(h).Ok? && Parse(h).value.variant == v && Parse(h).value.count == |es|
      ensures forall i :: 0 <= i < |es| ==> GetEntry(Parse(h).value, i) == Ok(es[i])
    {
      ListedIsParsed(h, v, es);
    }
  }
}
