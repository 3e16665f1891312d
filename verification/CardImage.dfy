/** A card image: its header, the table of partitions behind it, and where the files of the secure partition lie. */
module CardImage {
  import opened Bytes
  import opened PartitionFs
  import opened XciInstall
  import PfsFormat

  const CARD_HEADER_SIZE: nat := 0x200
  const CARD_MAGIC: u32 := 0x44414548
  const HEADER_CAP: nat := 0x1_0000

  /** "secure" */
  const SECURE: bytes := [0x73, 0x65, 0x63, 0x75, 0x72, 0x65]

  datatype CardHeader = CardHeader(rootOffset: u64, rootHeaderSize: u64)

  datatype Layout = Layout(secure: Context, dataOffset: u64)

  // ----- the walk -----

  function ParseCard(buf: bytes): (r: Result<CardHeader, FmtError>)
    ensures r.Ok? ==> CARD_HEADER_SIZE <= r.value.rootOffset && r.value.rootOffset + r.value.rootHeaderSize < U64_LIMIT
  {
    if |buf| < CARD_HEADER_SIZE then Err(Truncated)
    else if RdU32(buf, 0x100) != CARD_MAGIC then Err(BadMagic)
    else
      var hdr := CardHeader(RdU64(buf, 0x130), RdU64(buf, 0x138));
      if hdr.rootOffset < CARD_HEADER_SIZE then Err(Truncated)
      else if hdr.rootHeaderSize < HEADER_SIZE || hdr.rootHeaderSize > MAX_NAME_TABLE then Err(TooLarge)
      else if CheckedAdd(hdr.rootOffset, hdr.rootHeaderSize).None? then Err(Overflow)
      else Ok(hdr)
  }

  /** The first entry of that name from the `i`-th on. */
  function FirstNamed(ctx: Context, name: bytes, i: nat): (r: Option<Entry>)
    requires ValidContext(ctx) && i <= ctx.count
    decreases ctx.count - i
  {
    if i == ctx.count then None
    else if GetEntry(ctx, i).value.name == name then Some(GetEntry(ctx, i).value)
    else FirstNamed(ctx, name, i + 1)
  }

  lemma {:induction false} FirstNamedIs(ctx: Context, name: bytes, i: nat, at: nat)
    requires ValidContext(ctx) && i <= at <= ctx.count && forall k :: i <= k < at ==> GetEntry(ctx, k).value.name != name
    requires at < ctx.count ==> GetEntry(ctx, at).value.name == name
    ensures FirstNamed(ctx, name, i) == if at < ctx.count then Some(GetEntry(ctx, at).value) else None
    decreases at - i
  {
    hide ValidContext, GetEntry;
    if i < at {
      FirstNamedIs(ctx, name, i + 1, at);
    }
  }

  /** Where a partition starts in the image; offsets in the root table count from the table's own end. */
  function FindPartition(hdr: CardHeader, root: Context, name: bytes): Result<u64, FmtError>
    requires ValidContext(root)
  {
    match FirstNamed(root, name, 0)
    case None => Err(NotFound)
    case Some(e) =>
      match CheckedAdd(hdr.rootOffset, root.headerSize)
      case None => Err(Overflow)
      case Some(base) =>
        match CheckedAdd(base, e.offset)
        case None => Err(Overflow)
        case Some(at) => if CheckedAdd(at, e.size).None? then Err(Overflow) else Ok(at)
  }

  /** A read of no bytes fails, and so does one past the end. */
  function ReadAt(image: bytes, at: nat, len: nat): (r: Option<bytes>)
    ensures r.Some? ==> |r.value| == len
  {
    if 0 < len && at + len <= |image| then Some(image[at..at + len]) else None
  }

  /** A partition's header, sized by its first 16 bytes and no longer than the cap. */
  function HeaderAt(image: bytes, at: nat): (r: Option<Context>)
    ensures r.Some? ==> ValidContext(r.value)
  {
    match ReadAt(image, at, HEADER_SIZE)
    case None => None
    case Some(prefix) =>
      match PeekHeaderSize(prefix)
      case Err(_) => None
      case Ok((v, size)) =>
        if size > HEADER_CAP then None
        else
          match ReadAt(image, at, size)
          case None => None
          case Some(header) => if Parse(header).Ok? then Some(Parse(header).value) else None
  }

  function LayoutOf(image: bytes): (r: Option<Layout>)
    ensures r.Some? ==> ValidContext(r.value.secure)
  {
    match ReadAt(image, 0, CARD_HEADER_SIZE)
    case None => None
    case Some(header) =>
      match ParseCard(header)
      case Err(_) => None
      case Ok(hdr) =>
        match HeaderAt(image, hdr.rootOffset)
        case None => None
        case Some(root) =>
          match FindPartition(hdr, root, SECURE)
          case Err(_) => None
          case Ok(at) =>
            match HeaderAt(image, at)
            case None => None
            case Some(secure) => Some(Layout(secure, Add64(at, secure.headerSize)))
  }

  // ----- the walk as it reads -----

  /** A reader of this image, any of whose reads may fail. */
  ghost predicate Reads(read: Reader, image: bytes) {
    HonestReader(read, image) && forall at: nat {:trigger read(at, 0)} :: read(at, 0).None?
  }

  lemma ReadIsThere(read: Reader, image: bytes, at: nat, len: nat)
    requires Reads(read, image)
    ensures read(at, len).Some? ==> read(at, len) == ReadAt(image, at, len)
  {
  }

  method ReadPartitionHeader(read: Reader, at: nat, ghost image: bytes) returns (r: Option<Context>)
    requires Reads(read, image)
    ensures r.Some? ==> r == HeaderAt(image, at)
    ensures (forall a: nat, n: nat {:trigger read(a, n)} :: read(a, n) == ReadAt(image, a, n)) ==> r == HeaderAt(image, at)
  {
    hide Reads, Parse, PeekHeaderSize, ReadAt;
    ReadIsThere(read, image, at, HEADER_SIZE);
    var prefix := read(at, HEADER_SIZE);
    if prefix.None? {
      return None;
    }
    var sized := PeekHeaderSize(prefix.value);
    if sized.Err? || sized.value.1 > HEADER_CAP {
      return None;
    }
    ReadIsThere(read, image, at, sized.value.1);
    var header := read(at, sized.value.1);
    if header.None? {
      return None;
    }
    var parsed := Init(header.value);
    return if parsed.Ok? then Some(parsed.value) else None;
  }

  /** The layout found is the image's; it is found whenever the image has one and every read works. */
  method ResolveLayout(read: Reader, ghost image: bytes) returns (r: Option<Layout>)
    requires Reads(read, image)
    ensures r.Some? ==> r == LayoutOf(image) && ValidContext(r.value.secure)
    ensures (forall a: nat, n: nat {:trigger read(a, n)} :: read(a, n) == ReadAt(image, a, n)) ==> r == LayoutOf(image)
  {
    hide Reads, ParseCard, HeaderAt, ReadAt, FirstNamed;
    ReadIsThere(read, image, 0, CARD_HEADER_SIZE);
    var header := read(0, CARD_HEADER_SIZE);
    if header.None? {
      return None;
    }
    var hdr := ParseCard(header.value);
    if hdr.Err? {
      return None;
    }
    var root := ReadPartitionHeader(read, hdr.value.rootOffset, image);
    if root.None? {
      return None;
    }
    var at := LocatePartition(hdr.value, root.value, SECURE);
    if at.Err? {
      return None;
    }
    var secure := ReadPartitionHeader(read, at.value, image);
    if secure.None? {
      return None;
    }
    return Some(Layout(secure.value, Add64(at.value, secure.value.headerSize)));
  }

  method LocatePartition(hdr: CardHeader, root: Context, name: bytes) returns (r: Result<u64, FmtError>)
    requires ValidContext(root)
    ensures r == FindPartition(hdr, root, name)
  {
    hide ValidContext, GetEntry;
    ghost var at;
    var e;
    e, at := FindEntry(root, name);
    FirstNamedIs(root, name, 0, if e.Ok? then at else root.count);
    if e.Err? {
      return Err(NotFound);
    }
    var base := CheckedAdd(hdr.rootOffset, root.headerSize);
    if base.None? {
      return Err(Overflow);
    }
    var absolute := CheckedAdd(base.value, e.value.offset);
    if absolute.None? {
      return Err(Overflow);
    }
    var end := CheckedAdd(absolute.value, e.value.size);
    if end.None? {
      return Err(Overflow);
    }
    return Ok(absolute.value);
  }

  // ----- an image as it is written -----

  /** What stands at a place of the image. */
  ghost predicate StandsAt(image: bytes, at: nat, data: bytes) {
    at + |data| <= |image| && image[at..at + |data|] == data
  }

  /** A partition header of at most 64 KiB that lists these files stands at `at`. */
  ghost predicate ListedAt(image: bytes, at: nat, v: Variant, fs: seq<PfsFormat.File>, header: bytes) {
    && StandsAt(image, at, header) && |header| <= 0x1_0000
    && exists reserved, padding :: PfsFormat.Writable(v, fs, reserved, padding) && header == PfsFormat.Write(v, fs, reserved, padding)
  }

  /**
   * The image of a card: "HEAD" and the place of the root table in its first 0x200 bytes, the root table there, and
   * in its first partition of the name "secure", counted from the end of the root table, the table of the files.
   */
  ghost predicate IsCard(image: bytes, rootOffset: u64, parts: seq<PfsFormat.File>, root: bytes, k: nat,
                         secureOffset: u64, v: Variant, fs: seq<PfsFormat.File>, header: bytes) {
    && |image| >= 0x200 && 0x200 <= rootOffset < |image| < U64_LIMIT
    && StandsAt(image, 0x100, Ascii("HEAD")) && StandsAt(image, 0x130, Le(rootOffset, 8)) && StandsAt(image, 0x138, Le(|root|, 8))
    && ListedAt(image, rootOffset, Hfs0, parts, root)
    && k < |parts| && parts[k].name == Ascii("secure") && (forall j :: 0 <= j < k ==> parts[j].name != Ascii("secure"))
    && secureOffset == rootOffset + |root| + parts[k].offset && secureOffset + parts[k].size < U64_LIMIT
    && ListedAt(image, secureOffset, v, fs, header)
  }

  lemma HeaderIsFound(image: bytes, at: nat, v: Variant, fs: seq<PfsFormat.File>, header: bytes)
    requires ListedAt(image, at, v, fs, header)
    ensures var r := HeaderAt(image, at);
            && r.Some? && r.value.count == |fs| && r.value.headerSize == |header| >= 0x10
            && forall i :: 0 <= i < |fs| ==> GetEntry(r.value, i) == Ok(Entry(fs[i].name, fs[i].offset, fs[i].size))
  {
    hide Parse, PeekHeaderSize, PfsFormat.Write, PfsFormat.Writable, GetEntry;
    var reserved, padding :| PfsFormat.Writable(v, fs, reserved, padding) && header == PfsFormat.Write(v, fs, reserved, padding);
    PfsFormat.ParseInvertsWrite(v, fs, reserved, padding, []);
    assert header + [] == header;
    ParseAgreesWithPeek(header);
    assert |header| >= 0x10 by { LongEnough(header); }
    SliceOfSlice(image, at, at + |header|, 0, 0x10);
    assert image[at..at + 0x10] == header[0..0x10] == header[..0x10];
  }

  lemma LongEnough(header: bytes)
    requires PeekHeaderSize(header).Ok?
    ensures |header| >= 0x10
  {
  }

  /** The walk over a card's image finds the files of its secure partition and where their bytes start. */
  lemma CardIsResolved(image: bytes, rootOffset: u64, parts: seq<PfsFormat.File>, root: bytes, k: nat,
                       secureOffset: u64, v: Variant, fs: seq<PfsFormat.File>, header: bytes)
    requires IsCard(image, rootOffset, parts, root, k, secureOffset, v, fs, header)
    ensures var r := LayoutOf(image);
            && r.Some? && r.value.dataOffset == secureOffset + |header| && r.value.secure.count == |fs|
            && forall i :: 0 <= i < |fs| ==> GetEntry(r.value.secure, i) == Ok(Entry(fs[i].name, fs[i].offset, fs[i].size))
  {
    hide ListedAt, HeaderAt, GetEntry, FirstNamed, ParseCard, ValidContext;
    HeaderIsFound(image, rootOffset, Hfs0, parts, root);
    ListedIsThere(image, rootOffset, Hfs0, parts, root);
    HeaderParses(image, rootOffset, root);
    HeaderIsFound(image, secureOffset, v, fs, header);
    assert |header| <= |image| - secureOffset by { ListedIsThere(image, secureOffset, v, fs, header); }
    assert Ascii("secure") == SECURE;
    var table := HeaderAt(image, rootOffset).value;
    FirstNamedIs(table, SECURE, 0, k);
  }

  lemma ListedIsThere(image: bytes, at: nat, v: Variant, fs: seq<PfsFormat.File>, header: bytes)
    requires ListedAt(image, at, v, fs, header)
    ensures at + |header| <= |image| && |header| <= 0x1_0000
  {
  }

  lemma HeaderParses(image: bytes, rootOffset: u64, root: bytes)
    requires |image| >= 0x200 && 0x200 <= rootOffset && rootOffset + |root| < U64_LIMIT && 0x10 <= |root| <= 0x1_0000
    requires StandsAt(image, 0x100, Ascii("HEAD")) && StandsAt(image, 0x130, Le(rootOffset, 8)) && StandsAt(image, 0x138, Le(|root|, 8))
    ensures ParseCard(image[0..0x200]) == Ok(CardHeader(rootOffset, |root|))
  {
    hide Le, RdLe;
    var b := image[0..0x200];
    SliceOfSlice(image, 0, 0x200, 0x100, 0x104);
    MagicIs();
    U32At(b, 0x100, CARD_MAGIC);
    SliceOfSlice(image, 0, 0x200, 0x130, 0x138);
    U64At(b, 0x130, rootOffset);
    SliceOfSlice(image, 0, 0x200, 0x138, 0x140);
    U64At(b, 0x138, |root|);
  }

  lemma MagicIs()
    ensures Ascii("HEAD") == Le(CARD_MAGIC, 4)
  {
    assert Le(0x44, 1) == [0x44];
    assert Le(0x4441, 2) == [0x41, 0x44];
    assert Le(0x444145, 3) == [0x45, 0x41, 0x44];
  }
}
