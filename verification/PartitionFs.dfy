/** PFS0 and HFS0 headers: sizing one from its first 16 bytes, parsing it, and naming its files. */
module PartitionFs {
  import opened Bytes

  const PFS0_MAGIC: u32 := 0x30534650
  const HFS0_MAGIC: u32 := 0x30534648
  const HEADER_SIZE: nat := 0x10
  const PFS0_ENTRY_SIZE: nat := 0x18
  const HFS0_ENTRY_SIZE: nat := 0x40
  const MAX_ENTRIES: nat := 0x10000
  const MAX_NAME_TABLE: nat := 0x100000

  datatype FmtError =
    | BadMagic | Truncated | TooLarge | Overflow | BadNameTable | OutOfRange | Unsupported | NotFound

  datatype Variant = Pfs0 | Hfs0

  /** A parsed header. The header bytes are borrowed by the C context and carried here. */
  datatype Context = Context(variant: Variant, header: bytes, count: u32, nameTableSize: u32, headerSize: u64, nameTableOff: nat)

  datatype Entry = Entry(name: bytes, offset: u64, size: u64)

  function Classify(magic: u32): Result<Variant, FmtError> {
    if magic == PFS0_MAGIC then Ok(Pfs0)
    else if magic == HFS0_MAGIC then Ok(Hfs0)
    else Err(BadMagic)
  }

  /** The bytes of `count` entries. */
  function EntriesBytes(v: Variant, count: nat): nat {
    if v.Pfs0? then count * PFS0_ENTRY_SIZE else count * HFS0_ENTRY_SIZE
  }

  function ComputeHeaderSize(v: Variant, count: u32, nameTableSize: u32): (r: Result<u64, FmtError>)
    ensures r.Ok? <==> count <= MAX_ENTRIES && nameTableSize <= MAX_NAME_TABLE
    ensures r.Ok? ==> r.value == HEADER_SIZE + EntriesBytes(v, count) + nameTableSize
    ensures r.Err? ==> r.error == TooLarge
  {
    if count > MAX_ENTRIES then Err(TooLarge)
    else if nameTableSize > MAX_NAME_TABLE then Err(TooLarge)
    else
      match CheckedAdd(HEADER_SIZE, EntriesBytes(v, count))
      case None => Err(Overflow)
      case Some(total) =>
        match CheckedAdd(total, nameTableSize)
        case None => Err(Overflow)
        case Some(all) => Ok(all)
  }

  /** The variant and the whole header's size, from the first 16 bytes. */
  function PeekHeaderSize(buf: bytes): Result<(Variant, u64), FmtError> {
    if |buf| < HEADER_SIZE then Err(Truncated)
    else
      match Classify(RdU32(buf, 0))
      case Err(e) => Err(e)
      case Ok(v) =>
        match ComputeHeaderSize(v, RdU32(buf, 4), RdU32(buf, 8))
        case Err(e) => Err(e)
        case Ok(size) => Ok((v, size))
  }

  /** Offset of entry `i` in the header. */
  function Slot(v: Variant, i: nat): nat {
    HEADER_SIZE + EntriesBytes(v, i)
  }

  ghost predicate ValidContext(ctx: Context) {
    && ctx.nameTableOff == Slot(ctx.variant, ctx.count)
    && ctx.headerSize == ctx.nameTableOff + ctx.nameTableSize
    && ctx.headerSize <= |ctx.header|
  }

  /** The name offset of entry `i` lies in the name table, and the name ends there. */
  predicate NameOk(ctx: Context, i: nat)
    requires ValidContext(ctx) && i < ctx.count
  {
    var off := RdU32(ctx.header, Slot(ctx.variant, i) + 0x10);
    off < ctx.nameTableSize && 0 in ctx.header[ctx.nameTableOff + off..ctx.nameTableOff + ctx.nameTableSize]
  }

  /** What the header claims, before its names are looked at. */
  function Shape(header: bytes): (r: Result<Context, FmtError>)
    ensures r.Ok? ==> ValidContext(r.value) && r.value.header == header
  {
    match PeekHeaderSize(header)
    case Err(e) => Err(e)
    case Ok((v, size)) =>
      if |header| < size then Err(Truncated)
      else
        var count := RdU32(header, 4);
        Ok(Context(v, header, count, RdU32(header, 8), size, Slot(v, count)))
  }

  /** The parse of a whole header: the claimed shape, refused when any name is not inside the table. */
  function Parse(header: bytes): (r: Result<Context, FmtError>)
    ensures r.Ok? ==> ValidContext(r.value) && r.value.header == header
  {
    match Shape(header)
    case Err(e) => Err(e)
    case Ok(ctx) =>
      if forall i :: 0 <= i < ctx.count ==> NameOk(ctx, i) then Ok(ctx) else Err(BadNameTable)
  }

  /** The parser as written: names are checked one after the other, the first bad one ends it. */
  method Init(header: bytes) returns (r: Result<Context, FmtError>)
    ensures r == Parse(header)
  {
    var shape := Shape(header);
    if shape.Err? {
      return Err(shape.error);
    }
    var ctx := shape.value;
    for i := 0 to ctx.count
      invariant forall k :: 0 <= k < i ==> NameOk(ctx, k)
    {
      if !NameOk(ctx, i) {
        return Err(BadNameTable);
      }
    }
    return Ok(ctx);
  }

  function GetEntry(ctx: Context, i: nat): (r: Result<Entry, FmtError>)
    requires ValidContext(ctx)
    ensures r.Ok? <==> i < ctx.count
  {
    if i >= ctx.count then Err(OutOfRange)
    else
      var at := Slot(ctx.variant, i);
      Ok(Entry(CStr(ctx.header, ctx.nameTableOff + RdU32(ctx.header, at + 0x10)),
               RdU64(ctx.header, at), RdU64(ctx.header, at + 8)))
  }

  /** Exact-name lookup: the first entry of that name, or NotFound when there is none. */
  method FindEntry(ctx: Context, name: bytes) returns (r: Result<Entry, FmtError>, ghost at: nat)
    requires ValidContext(ctx)
    ensures r.Ok? ==> at < ctx.count && GetEntry(ctx, at) == r && r.value.name == name
    ensures r.Ok? ==> forall k :: 0 <= k < at ==> GetEntry(ctx, k).value.name != name
    ensures r.Err? <==> forall k :: 0 <= k < ctx.count ==> GetEntry(ctx, k).value.name != name
    ensures r.Err? ==> r.error == NotFound
  {
    at := 0;
    for i := 0 to ctx.count
      invariant forall k :: 0 <= k < i ==> GetEntry(ctx, k).value.name != name
    {
      var e := GetEntry(ctx, i);
      if e.Ok? && e.value.name == name {
        at := i;
        return e, at;
      }
    }
    return Err(NotFound), at;
  }

  /** Only the first 16 bytes matter to the predicted size. */
  lemma PeekIsLocal(h: bytes, k: bytes)
    requires |h| >= HEADER_SIZE && |k| >= HEADER_SIZE && h[..HEADER_SIZE] == k[..HEADER_SIZE]
    ensures PeekHeaderSize(h) == PeekHeaderSize(k)
  {
    hide RdLe;
    FieldIsLocal(h, k, 0);
    FieldIsLocal(h, k, 4);
    FieldIsLocal(h, k, 8);
  }

  lemma FieldIsLocal(h: bytes, k: bytes, off: nat)
    requires |h| >= HEADER_SIZE && |k| >= HEADER_SIZE && h[..HEADER_SIZE] == k[..HEADER_SIZE] && off + 4 <= HEADER_SIZE
    ensures RdU32(h, off) == RdU32(k, off)
  {
    assert h[off..off + 4] == h[..HEADER_SIZE][off..off + 4] == k[..HEADER_SIZE][off..off + 4] == k[off..off + 4];
    RdLeSlice(h, off, k, off, 4);
  }

  /** A parse succeeds only on a header the peek has sized, and with that very size. */
  lemma ParseAgreesWithPeek(h: bytes)
    requires Parse(h).Ok?
    ensures PeekHeaderSize(h[..HEADER_SIZE]) == Ok((Parse(h).value.variant, Parse(h).value.headerSize))
  {
    PeekIsLocal(h, h[..HEADER_SIZE]);
  }
}
