/**
 * A concrete container behind the condition on layouts: its two entries overlap, so the cuts decide which
 * content gets which byte. And what the header of two files says, for any two files.
 */
module ContainerWitness {
  import opened Bytes
  import opened EntryNames
  import opened InstallSpec
  import opened ChunkIndependence
  import opened CutDependence
  import opened EntryTable
  import Pfs = PartitionFs
  import Nsp = NspBuilder

  // ----- a header of two files -----

  /** Two files anywhere behind the header. */
  function HeaderFields(a: Pfs.Entry, b: Pfs.Entry): seq<bytes>
    requires |a.name| + |b.name| + 2 < U32_LIMIT
  {
    [Le(Pfs.PFS0_MAGIC, 4), Le(2, 4), Le(|a.name| + |b.name| + 2, 4), Le(0, 4),
     Nsp.SlotBytes(a.offset, a.size, 0), Le(0, 4), Nsp.SlotBytes(b.offset, b.size, |a.name| + 1), Le(0, 4),
     a.name + [0], b.name + [0]]
  }

  function HeaderOf(a: Pfs.Entry, b: Pfs.Entry): bytes
    requires |a.name| + |b.name| + 2 < U32_LIMIT
  {
    Joined(HeaderFields(a, b))
  }

  lemma HeaderSlices(a: Pfs.Entry, b: Pfs.Entry)
    requires Nsp.NameFits(a.name) && Nsp.NameFits(b.name)
    ensures var h, m := HeaderOf(a, b), 65 + |a.name|;
            && |h| == m + |b.name| + 1
            && h[0..4] == Le(Pfs.PFS0_MAGIC, 4) && h[4..8] == Le(2, 4) && h[8..12] == Le(|a.name| + |b.name| + 2, 4)
            && h[16..36] == Nsp.SlotBytes(a.offset, a.size, 0) && h[40..60] == Nsp.SlotBytes(b.offset, b.size, |a.name| + 1)
            && h[64..m] == a.name + [0] && h[m..|h|] == b.name + [0]
  {
    hide Le, Nsp.SlotBytes, Joined;
    var f := HeaderFields(a, b);
    assert FieldOff(f, 1) == 4;
    assert FieldOff(f, 2) == 8;
    assert FieldOff(f, 3) == 12;
    assert FieldOff(f, 4) == 16;
    assert FieldOff(f, 5) == 36;
    assert FieldOff(f, 6) == 40;
    assert FieldOff(f, 7) == 60;
    assert FieldOff(f, 8) == 64;
    assert FieldOff(f, 9) == 65 + |a.name|;
    assert FieldOff(f, 10) == 66 + |a.name| + |b.name|;
    FieldsLength(f);
    FieldAt(f, 0);
    FieldAt(f, 1);
    FieldAt(f, 2);
    FieldAt(f, 4);
    FieldAt(f, 6);
    FieldAt(f, 8);
    FieldAt(f, 9);
  }

  /** The parser reads the two files back. */
  lemma HeaderParses(a: Pfs.Entry, b: Pfs.Entry)
    requires Nsp.NameFits(a.name) && Nsp.NameFits(b.name)
    ensures var h := HeaderOf(a, b);
            && |h| == 66 + |a.name| + |b.name| && Pfs.PeekHeaderSize(h) == Ok((Pfs.Pfs0, |h|))
            && Pfs.Parse(h).Ok?
            && var ctx := Pfs.Parse(h).value;
               ctx.count == 2 && ctx.headerSize == |h| && Pfs.GetEntry(ctx, 0) == Ok(a) && Pfs.GetEntry(ctx, 1) == Ok(b)
  {
    hide Le, RdLe, HeaderOf, Nsp.NameFits, CStr, Pfs.GetEntry, Pfs.NameOk, RdU64;
    NamesAreShort(a, b);
    var h := HeaderOf(a, b);
    HeaderSlices(a, b);
    U32At(h, 0, Pfs.PFS0_MAGIC);
    U32At(h, 4, 2);
    U32At(h, 8, |a.name| + |b.name| + 2);
    var ctx := Pfs.Shape(h).value;
    assert Pfs.Slot(Pfs.Pfs0, 0) == 16 && Pfs.Slot(Pfs.Pfs0, 1) == 40 && Pfs.Slot(Pfs.Pfs0, 2) == 64;
    Fields884(h, 16, a.offset, a.size, 0);
    Fields884(h, 40, b.offset, b.size, |a.name| + 1);
    FileReads(ctx, 0, 0, a);
    FileReads(ctx, 1, |a.name| + 1, b);
  }

  lemma NamesAreShort(a: Pfs.Entry, b: Pfs.Entry)
    requires Nsp.NameFits(a.name) && Nsp.NameFits(b.name)
    ensures |a.name| < 80 && |b.name| < 80
  {
  }

  lemma FileReads(ctx: Pfs.Context, i: nat, nameOff: u32, e: Pfs.Entry)
    requires Pfs.ValidContext(ctx) && i < ctx.count && ctx.headerSize == |ctx.header| && Nsp.NameFits(e.name)
    requires RdU64(ctx.header, Pfs.Slot(ctx.variant, i)) == e.offset && RdU64(ctx.header, Pfs.Slot(ctx.variant, i) + 8) == e.size
    requires RdU32(ctx.header, Pfs.Slot(ctx.variant, i) + 16) == nameOff
    requires var at := ctx.nameTableOff + nameOff;
             at + |e.name| < |ctx.header| && ctx.header[at..at + |e.name| + 1] == e.name + [0]
    ensures Pfs.NameOk(ctx, i) && Pfs.GetEntry(ctx, i) == Ok(e)
  {
    hide RdU32, RdU64, Pfs.Slot;
    var at := ctx.nameTableOff + nameOff;
    var h := ctx.header;
    SliceOfSlice(h, at, at + |e.name| + 1, 0, |e.name|);
    assert (e.name + [0])[..|e.name|] == e.name;
    assert h[at + |e.name|] == h[at..at + |e.name| + 1][|e.name|] == 0;
    CStrAt(h, at, e.name);
    Nsp.NameInside(h, at, at + |e.name|);
    Nsp.EntryFrom(ctx, i, nameOff, e);
  }

  /** The installer's entry for a file. */
  function FileAt(h: bytes, i: nat, e: Pfs.Entry): Entry
    requires |h| < U64_LIMIT
  {
    var (kind, id) := Classify(e.name);
    Entry(i, kind, id, Add64(|h|, e.offset), e.size)
  }

  lemma HeaderLayout(a: Pfs.Entry, b: Pfs.Entry)
    requires Nsp.NameFits(a.name) && Nsp.NameFits(b.name)
    requires !Classify(a.name).0.Ignore? && IsMeta(Classify(b.name).0)
    requires |HeaderOf(a, b)| < U64_LIMIT
    requires Add64(|HeaderOf(a, b)|, a.offset) <= Add64(|HeaderOf(a, b)|, b.offset)
    ensures var h := HeaderOf(a, b); Layout(h) == Some(([FileAt(h, 0, a), FileAt(h, 1, b)], |h|))
    ensures |HeaderOf(a, b)| == 66 + |a.name| + |b.name|
  {
    hide HeaderOf, Classify, Pfs.PeekHeaderSize, Pfs.Parse, Pfs.GetEntry, Nsp.NameFits;
    NamesAreShort(a, b);
    var h := HeaderOf(a, b);
    HeaderParses(a, b);
    assert h[..|h|] == h;
    var ctx := Pfs.Parse(h).value;
    var first, second := FileAt(h, 0, a), FileAt(h, 1, b);
    TwoCollected(ctx, first, second);
    assert [first, second][..1] == [first] && [first][..0] == [];
    assert [first] + [second] == [first, second] && [] + [first] == [first];
    assert SortByOffset([first]) == [first];
  }

  lemma TwoCollected(ctx: Pfs.Context, first: Entry, second: Entry)
    requires Pfs.ValidContext(ctx) && ctx.count == 2 && !first.kind.Ignore? && !second.kind.Ignore?
    requires EntryFor(ctx, 0, Pfs.GetEntry(ctx, 0).value) == first && EntryFor(ctx, 1, Pfs.GetEntry(ctx, 1).value) == second
    ensures Collect(ctx, 0, []) == ([first, second], None)
  {
    hide Pfs.ValidContext, Pfs.GetEntry, EntryFor;
    assert [] + [first] == [first] && [first] + [second] == [first, second];
    assert Collect(ctx, 2, [first, second]) == ([first, second], None);
    assert Collect(ctx, 1, [first]) == Collect(ctx, 2, [first] + [second]);
  }

  // ----- entries that overlap -----

  /** A content of two bytes, and the meta content inside it. */
  function OverlappingHeader(): bytes {
    HeaderOf(Pfs.Entry(NcaName(NO_ID), 0, 2), Pfs.Entry(MetaNcaName(NO_ID), 0, 1))
  }

  lemma NamesFit(id: bytes)
    requires |id| == ID_SIZE
    ensures Nsp.NameFits(NcaName(id)) && Nsp.NameFits(MetaNcaName(id))
    ensures |NcaName(id)| == 36 && |MetaNcaName(id)| == 41
  {
    NoZeroInHex(id);
  }

  lemma {:induction false} NoZeroInHex(id: bytes)
    ensures 0 !in FormatId(id)
  {
    if id != [] {
      NoZeroInHex(id[1..]);
    }
  }

  lemma OverlapLayout()
    ensures var h := OverlappingHeader();
            && |h| == 143
            && Layout(h) == Some(([Entry(0, Nca, NO_ID, 143, 2), Entry(1, MetaNca, NO_ID, 143, 1)], 143))
            && !CalmStream(h)
  {
    hide HeaderOf, Layout, NcaName, MetaNcaName, Classify;
    var a, b := Pfs.Entry(NcaName(NO_ID), 0, 2), Pfs.Entry(MetaNcaName(NO_ID), 0, 1);
    NamesFit(NO_ID);
    NamesClassify(NO_ID);
    HeaderParses(a, b);
    HeaderLayout(a, b);
    NotCalm(Layout(OverlappingHeader()).value.0, 143);
  }

  /**
   * The second entry lies inside the first, so it ends before the stream has passed the first. Four bytes fed
   * together, or three and then one, leave the backend with different contents.
   */
  lemma OverlapCutsDecide(target: u8)
    ensures var h := OverlappingHeader();
            && Layout(h).Some? && Layout(h).value.1 == |h| && Roomy(Layout(h).value.0) && Reachable(Layout(h).value.0)
            && !CalmStream(h)
    ensures Valid(TapeEnv(target), Begin(TapeEnv(target), [], []))
    ensures !SameForCut(target, Feed(TapeEnv(target), Begin(TapeEnv(target), [], []), OverlappingHeader()), [0, 0, 0], [0])
  {
    hide OverlappingHeader, Layout, CalmStream, Feed, TapeEnv, AfterEntry, Agree;
    var h := OverlappingHeader();
    OverlapLayout();
    HeaderIsRead(TapeEnv(target), [], [], h);
    var s := Feed(TapeEnv(target), Begin(TapeEnv(target), [], []), h);
    NoTickets(s.entries, Ticket);
    NoTickets(s.entries, Cert);
    SecondIsBehind(target, s);
  }

  lemma NoTickets(es: seq<Entry>, kind: Kind)
    requires |es| == 2 && es[0].kind != kind && es[1].kind != kind
    ensures SizeOf(kind, es) == 0
  {
    var front := es[..1];
    assert front[..0] == [] && SizeOf(kind, front) == 0;
  }

  lemma SecondIsBehind(target: u8, s: State<Tape, Tape>)
    requires Between(s) && s.cursor == 0 && s.streamPos == 143
    requires s.entries == [Entry(0, Nca, NO_ID, 143, 2), Entry(1, MetaNca, NO_ID, 143, 1)]
    ensures Valid(TapeEnv(target), s) && !SameForCut(target, s, [0, 0, 0], [0])
  {
    hide Feed, TapeEnv, AfterEntry, Agree, NoneIgnored, Reachable, SizeOf, Roomy;
    var t := AfterEntry(s, Zeros(2));
    ThroughEntry(target, s, 2, [0, 0]);
    ThroughEntry(target, s, 2, [0]);
    AfterFirst(s);
    ContentCuts(target, t);
    assert Zeros(2) + [0, 0] == [0, 0, 0] + [0] && Zeros(2) + [0] == [0, 0, 0];
  }

  lemma AfterFirst(s: State<Tape, Tape>)
    requires Between(s) && s.cursor == 0 && |s.entries| == 2 && IsContent(s.entries[0].kind) && s.streamPos + 5 < U64_LIMIT
    ensures var t := AfterEntry(s, Zeros(2)); Between(t) && t.entries == s.entries && t.cursor == 1 && t.streamPos == s.streamPos + 2
  {
    hide Advance, Marks;
    AdvanceTwice(s.streamPos, 2, 0);
  }

  lemma NotCalm(es: seq<Entry>, pos: u64)
    requires |es| == 2 && EntryEnd(es[1]) < EntryEnd(es[0])
    ensures !CalmEntries(es, pos)
  {
    assert es[1..][0] == es[1];
  }
}
