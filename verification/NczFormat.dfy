/** The section table of a compressed content file as it is written, so that reading one back is checked against it. */
module NczFormat {
  import opened Bytes
  import opened Ncz
  import PartitionFs

  /** One entry of the table; `padding` is carried but never looked at. */
  datatype Row = Row(section: Section, padding: bytes)

  predicate Shaped(r: Row) {
    |r.section.key| == 16 && |r.section.nonce| == 8 && |r.padding| == 8
  }

  /** Sections that fill the file from 0x4000 to `end`, each starting where the one before it ends. */
  ghost predicate Fills(rows: seq<Row>, end: nat) {
    && rows != [] && rows[0].section.offset == 0x4000
    && forall i :: 0 <= i < |rows| ==> Fitting(rows, i, end)
  }

  ghost predicate Fitting(rows: seq<Row>, i: nat, end: nat)
    requires i < |rows|
  {
    var s := rows[i].section;
    && s.size > 0 && s.cryptoType != 2 && s.offset + s.size < 0x1_0000_0000_0000_0000
    && s.offset + s.size == if i + 1 < |rows| then rows[i + 1].section.offset else end
  }

  ghost predicate Writable(rows: seq<Row>, end: nat) {
    1 <= |rows| <= 64 && Fills(rows, end) && forall i :: 0 <= i < |rows| ==> Shaped(rows[i])
  }

  function RowFields(r: Row): seq<bytes> {
    var s := r.section;
    [Le(s.offset, 8), Le(s.size, 8), Le(s.cryptoType, 8), r.padding, s.key, s.nonce]
  }

  function Rows(rows: seq<Row>): (pieces: seq<bytes>)
    ensures |pieces| == |rows|
  {
    seq(|rows|, i requires 0 <= i < |rows| => Joined(RowFields(rows[i])))
  }

  function Preamble(count: nat): bytes {
    Ascii("NCZSECTN") + Le(count, 8)
  }

  function Write(rows: seq<Row>): bytes {
    Preamble(|rows|) + Joined(Rows(rows))
  }

  /** What stands behind a table when the blocks are listed. */
  predicate ListsBlocks(tail: bytes) {
    |tail| >= 8 && tail[..8] == Ascii("NCZBLOCK")
  }

  function SectionsOf(rows: seq<Row>): (ss: seq<Section>)
    ensures |ss| == |rows|
  {
    seq(|rows|, i requires 0 <= i < |rows| => rows[i].section)
  }

  // ----- sections that fill the file tile it -----

  lemma {:induction false} FillsIsTiling(rows: seq<Row>, i: nat, end: nat)
    requires i < |rows| && (forall k :: 0 <= k < |rows| ==> Shaped(rows[k]))
    requires forall k :: i <= k < |rows| ==> Fitting(rows, k, end)
    ensures Tiles(SectionsOf(rows)[i..], rows[i].section.offset, end)
    decreases |rows| - i
  {
    hide Shaped;
    var ss := SectionsOf(rows)[i..];
    assert Shaped(rows[i]) && Fitting(rows, i, end);
    assert ss[0] == rows[i].section && ss[1..] == SectionsOf(rows)[i + 1..];
    ShapedIs(rows[i]);
    if i + 1 < |rows| {
      FillsIsTiling(rows, i + 1, end);
    }
  }

  lemma ShapedIs(r: Row)
    requires Shaped(r)
    ensures |r.section.key| == KEY_SIZE && |r.section.nonce| == NONCE_SIZE
  {
  }

  lemma {:induction false} TilingFills(rows: seq<Row>, i: nat, start: nat, end: nat)
    requires i < |rows| && Tiles(SectionsOf(rows)[i..], start, end)
    ensures rows[i].section.offset == start && forall k :: i <= k < |rows| ==> Fitting(rows, k, end)
    decreases |rows| - i
  {
    var ss := SectionsOf(rows)[i..];
    assert ss[0] == rows[i].section && ss[1..] == SectionsOf(rows)[i + 1..];
    if i + 1 < |rows| {
      TilingFills(rows, i + 1, start + ss[0].size, end);
    }
  }

  lemma {:induction false} TilingEndsOnce(ss: seq<Section>, start: nat, end: nat, other: nat)
    requires Tiles(ss, start, end) && Tiles(ss, start, other)
    ensures end == other
    decreases |ss|
  {
    if ss != [] {
      TilingEndsOnce(ss[1..], start + ss[0].size, end, other);
    }
  }

  // ----- where the fields are -----

  lemma RowOffsets(f: seq<bytes>, r: Row)
    requires Shaped(r) && f == RowFields(r)
    ensures FieldOff(f, 0) == 0 && FieldOff(f, 1) == 8 && FieldOff(f, 2) == 0x10 && FieldOff(f, 3) == 0x18 && FieldOff(f, 4) == 0x20
            && FieldOff(f, 5) == 0x30 && FieldOff(f, 6) == 0x38
  {
    hide Le;
    assert FieldOff(f, 1) == 8;
    assert FieldOff(f, 2) == 0x10;
    assert FieldOff(f, 3) == 0x18;
    assert FieldOff(f, 4) == 0x20;
    assert FieldOff(f, 5) == 0x30;
  }

  lemma RowLength(r: Row)
    requires Shaped(r)
    ensures |Joined(RowFields(r))| == 0x38
  {
    hide Joined, RowFields, Shaped, FieldOff;
    FieldsLength(RowFields(r));
    RowOffsets(RowFields(r), r);
    SixFields(r);
  }

  lemma SixFields(r: Row)
    ensures |RowFields(r)| == 6
  {
  }

  lemma RowsLength(rows: seq<Row>, i: nat)
    requires (forall k :: 0 <= k < |rows| ==> Shaped(rows[k])) && i <= |rows|
    ensures FieldOff(Rows(rows), i) == 0x38 * i && |Joined(Rows(rows))| == 0x38 * |rows|
    ensures forall k :: 0 <= k < |rows| ==> |Rows(rows)[k]| == 0x38
  {
    hide Joined, RowFields, Shaped;
    var pieces := Rows(rows);
    forall k | 0 <= k < |pieces|
      ensures |pieces[k]| == 0x38
    {
      RowLength(rows[k]);
    }
    FieldsLength(pieces);
    EqualPieces(pieces, 0x38, |pieces|);
    EqualPieces(pieces, 0x38, i);
  }

  /** Entry `i` lies 0x38 bytes behind the one before it, the first behind the magic and the count. */
  lemma RowLies(rows: seq<Row>, tail: bytes, i: nat)
    requires (forall k :: 0 <= k < |rows| ==> Shaped(rows[k])) && i < |rows|
    ensures var at := 0x10 + 0x38 * i;
            at + 0x38 <= |Write(rows) + tail| && (Write(rows) + tail)[at..at + 0x38] == Joined(RowFields(rows[i]))
  {
    hide Joined, RowFields, Shaped, Ascii, Le;
    var pieces := Rows(rows);
    RowsLength(rows, i);
    FieldAt(pieces, i);
    var front, all := Preamble(|rows|), Joined(pieces);
    assert Write(rows) + tail == front + (all + tail);
    SliceBehind(front, all + tail, 0x38 * i, 0x38);
    SliceBefore(all, tail, 0x38 * i, 0x38 * i + 0x38);
  }

  lemma RowField(b: bytes, at: nat, r: Row, k: nat)
    requires Shaped(r) && k < 6 && at + 0x38 <= |b| && b[at..at + 0x38] == Joined(RowFields(r))
    ensures var f := RowFields(r);
            var from := at + FieldOff(f, k);
            from + |f[k]| <= |b| && b[from..from + |f[k]|] == f[k]
  {
    hide Joined, FieldOff, Shaped;
    var f := RowFields(r);
    RowOffsets(f, r);
    RowLength(r);
    FieldAt(f, k);
    SliceOfSlice(b, at, at + 0x38, FieldOff(f, k), FieldOff(f, k) + |f[k]|);
  }

  /** Where an entry's bytes stand, the entry is read. */
  lemma RowReads(b: bytes, i: nat, r: Row)
    requires Shaped(r) && TableSize(i + 1) <= |b| && b[TableSize(i)..TableSize(i + 1)] == Joined(RowFields(r))
    ensures SectionFields(b, i) == r.section
  {
    hide Joined, FieldOff, Le, RdLe;
    var f, s, at := RowFields(r), r.section, TableSize(i);
    RowOffsets(f, r);
    RowField(b, at, r, 0);
    U64At(b, at, s.offset);
    RowField(b, at, r, 1);
    U64At(b, at + 8, s.size);
    RowField(b, at, r, 2);
    U64At(b, at + 0x10, s.cryptoType);
    RowField(b, at, r, 4);
    RowField(b, at, r, 5);
  }

  lemma RowInverts(rows: seq<Row>, tail: bytes, i: nat)
    requires (forall j :: 0 <= j < |rows| ==> Shaped(rows[j])) && i < |rows|
    ensures TableSize(i + 1) <= |Write(rows) + tail|
    ensures SectionFields(Write(rows) + tail, i) == rows[i].section
  {
    hide Joined, Write, RowFields, SectionFields, Shaped;
    RowLies(rows, tail, i);
    RowReads(Write(rows) + tail, i, rows[i]);
  }

  lemma {:induction false} RowsInvert(rows: seq<Row>, tail: bytes, i: nat)
    requires (forall j :: 0 <= j < |rows| ==> Shaped(rows[j])) && i <= |rows| && TableSize(|rows|) <= |Write(rows) + tail|
    ensures SectionsIn(Write(rows) + tail, |rows|, i) == SectionsOf(rows)[i..]
    decreases |rows| - i
  {
    hide Write, Shaped, SectionFields;
    if i < |rows| {
      RowInverts(rows, tail, i);
      RowsInvert(rows, tail, i + 1);
      assert SectionsOf(rows)[i..] == [rows[i].section] + SectionsOf(rows)[i + 1..];
    }
  }

  lemma PreambleReads(count: u64, rest: bytes)
    ensures var b := Preamble(count) + rest;
            |b| >= |Preamble(count)| == 0x10 && HasMagic(b, 0, SECTION_MAGIC) && RdU64(b, MAGIC_SIZE) == count
  {
    hide Le, RdLe;
    var b := Preamble(count) + rest;
    assert b == Ascii("NCZSECTN") + (Le(count, 8) + rest);
    assert Ascii("NCZSECTN") == SECTION_MAGIC;
    assert b[0..8] == SECTION_MAGIC;
    SliceBehind(Ascii("NCZSECTN"), Le(count, 8) + rest, 0, 8);
    assert b[8..16] == Le(count, 8);
    U64At(b, 8, count);
  }

  lemma PreambleInverts(rows: seq<Row>, tail: bytes)
    requires 1 <= |rows| <= 64 && forall k :: 0 <= k < |rows| ==> Shaped(rows[k])
    ensures var b := Write(rows) + tail;
            && |b| >= 0x10 && |Write(rows)| == 0x10 + 0x38 * |rows|
            && HasMagic(b, 0, SECTION_MAGIC) && RdU64(b, MAGIC_SIZE) == |rows| && HeaderSizeFor(b) == 0x10 + 0x38 * |rows|
  {
    hide Joined, RowFields, Shaped, Preamble, RdLe, Rows;
    RowsLength(rows, 0);
    PreambleReads(|rows|, Joined(Rows(rows)) + tail);
    assert Write(rows) + tail == Preamble(|rows|) + (Joined(Rows(rows)) + tail);
  }

  lemma BlocksListed(front: bytes, tail: bytes)
    ensures HasMagic(front + tail, |front|, BLOCK_MAGIC) <==> ListsBlocks(tail)
  {
    assert Ascii("NCZBLOCK") == BLOCK_MAGIC;
    if |tail| >= 8 {
      SliceBehind(front, tail, 0, 8);
    }
  }

  // ----- reading back what was written -----

  /** Whatever 1 to 64 sections fill the file, their table is read back as it was written, unless blocks are listed behind it. */
  lemma ParseInvertsWrite(rows: seq<Row>, end: u64, tail: bytes)
    requires Writable(rows, end)
    ensures Parse(Write(rows) + tail) == if ListsBlocks(tail) then Err(PartitionFs.Unsupported)
                                         else Ok(Table(SectionsOf(rows), 0x10 + 0x38 * |rows|, end))
  {
    hide Write, SectionsIn, ParseSections, HasMagic, RdU64, Tiles, ListsBlocks, SectionsOf, Fitting;
    var b := Write(rows) + tail;
    PreambleInverts(rows, tail);
    RowsInvert(rows, tail, 0);
    BlocksListed(Write(rows), tail);
    FillsIsTiling(rows, 0, end);
    WholeSections(rows);
    SectionsTile(b, |rows|, 0, HEADER_OFFSET);
    var r := ParseSections(b, |rows|, 0, HEADER_OFFSET);
    if r.Ok? {
      TilingEndsOnce(SectionsOf(rows), HEADER_OFFSET, end, r.value.1);
    }
  }

  lemma WholeSections(rows: seq<Row>)
    ensures SectionsOf(rows)[0..] == SectionsOf(rows)
  {
  }

  // ----- tables with whole counters -----

  /** Entries of 0x40 bytes, each with all 16 bytes of its counter: the nonce and the eight bytes behind it. */
  function WideRows(rows: seq<Row>, lows: seq<bytes>): seq<bytes>
    requires |lows| == |rows|
  {
    seq(|rows|, i requires 0 <= i < |rows| => Joined(RowFields(rows[i])) + lows[i])
  }

  function WriteWide(rows: seq<Row>, lows: seq<bytes>): bytes
    requires |lows| == |rows|
  {
    Preamble(|rows|) + Joined(WideRows(rows, lows))
  }

  lemma WideStart(rows: seq<Row>, lows: seq<bytes>, tail: bytes)
    requires 1 <= |rows| == |lows| && Shaped(rows[0])
    ensures WriteWide(rows, lows) + tail
         == Preamble(|rows|) + Joined(RowFields(rows[0])) + (lows[0] + (Joined(WideRows(rows, lows)[1..]) + tail))
    ensures |Preamble(|rows|) + Joined(RowFields(rows[0]))| == 0x48
  {
    hide RowFields, Shaped, Ascii, Le;
    RowLength(rows[0]);
    var w := WideRows(rows, lows);
    assert Joined(w) == w[0] + Joined(w[1..]);
  }

  lemma WideLength(rows: seq<Row>, lows: seq<bytes>)
    requires |rows| == |lows| && forall i :: 0 <= i < |rows| ==> Shaped(rows[i]) && |lows[i]| == 8
    ensures |Joined(WideRows(rows, lows))| == 0x40 * |rows|
  {
    hide Joined, RowFields;
    var pieces := WideRows(rows, lows);
    forall i | 0 <= i < |rows|
      ensures |pieces[i]| == 0x40
    {
      RowLength(rows[i]);
    }
    FieldsLength(pieces);
    EqualPieces(pieces, 0x40, |pieces|);
  }

  lemma ListedThere(low: bytes, tail: bytes)
    requires |low| == 8
    ensures ListsBlocks(low + tail) <==> low == Ascii("NCZBLOCK")
  {
    assert (low + tail)[..8] == low;
  }

  /** A table of one section with a whole counter is accepted eight bytes short: the payload seems to start inside the counter. */
  lemma WholeCounterIsCutShort(row: Row, low: bytes, end: u64, tail: bytes)
    requires Writable([row], end) && |low| == 8
    ensures |WriteWide([row], [low])| == 0x50
    ensures Parse(WriteWide([row], [low]) + tail) == if low == Ascii("NCZBLOCK") then Err(PartitionFs.Unsupported)
                                                     else Ok(Table([row.section], 0x48, end))
  {
    hide RowFields, Le, RdLe, Preamble, Parse, HasMagic, Write, Fitting, WriteWide, ParseSections, ListsBlocks;
    OneRow([row], [low]);
    PreambleInverts([row], []);
    assert Write([row]) + low + tail == Write([row]) + (low + tail);
    assert ListsBlocks(low + tail) <==> low == Ascii("NCZBLOCK") by { ListedThere(low, tail); }
    ParseInvertsWrite([row], end, low + tail);
    assert SectionsOf([row]) == [row.section];
  }

  /**
   * A table of more sections with whole counters is refused, unless the low half of the first counter, which is
   * read as the offset of the second section, happens to be that offset.
   */
  lemma WholeCountersAreRefused(rows: seq<Row>, lows: seq<bytes>, end: u64, tail: bytes)
    requires Writable(rows, end) && 2 <= |rows| == |lows| && forall i :: 0 <= i < |rows| ==> |lows[i]| == 8
    requires RdLe(lows[0], 0, 8) != rows[1].section.offset
    ensures Parse(WriteWide(rows, lows) + tail) == Err(PartitionFs.Unsupported)
  {
    hide RowFields, Le, RdLe, Preamble, Parse, HasMagic, Fitting;
    WideStart(rows, lows, tail);
    WideLength(rows, lows);
    PreambleReads(|rows|, []);
    SecondIsLow(rows, lows, end, WriteWide(rows, lows) + tail, Joined(WideRows(rows, lows)[1..]) + tail);
  }

  lemma OneRow(rows: seq<Row>, lows: seq<bytes>)
    requires |rows| == |lows| == 1
    ensures WriteWide(rows, lows) == Write(rows) + lows[0]
  {
    hide RowFields, Preamble;
    var w, n := WideRows(rows, lows), Rows(rows);
    assert Joined(w) == w[0] + Joined(w[1..]) == w[0];
    assert Joined(n) == n[0] + Joined(n[1..]) == n[0];
  }

  lemma SecondIsLow(rows: seq<Row>, lows: seq<bytes>, end: u64, b: bytes, rest: bytes)
    requires Writable(rows, end) && 2 <= |rows| == |lows| && forall i :: 0 <= i < |rows| ==> |lows[i]| == 8
    requires b == Preamble(|rows|) + Joined(RowFields(rows[0])) + (lows[0] + rest) && |b| >= 0x10 + 0x40 * |rows|
    requires |Preamble(|rows|) + Joined(RowFields(rows[0]))| == 0x48 && RdLe(lows[0], 0, 8) != rows[1].section.offset
    ensures Parse(b) == Err(PartitionFs.Unsupported)
  {
    hide RowFields, Le, RdLe, Joined, HasMagic;
    var first := Joined(RowFields(rows[0]));
    assert b == Preamble(|rows|) + (first + (lows[0] + rest));
    PreambleReads(|rows|, first + (lows[0] + rest));
    RowLength(rows[0]);
    assert b[0x10..0x48] == first;
    RowReads(b, 0, rows[0]);
    SliceBehind(Preamble(|rows|) + first, lows[0] + rest, 0, 8);
    assert b[0x48..0x50] == lows[0][0..8];
    RdLeSlice(b, 0x48, lows[0], 0, 8);
    assert Fitting(rows, 0, end);
    RefusedAtSecond(b, |rows|);
  }

  lemma RefusedAtSecond(b: bytes, count: nat)
    requires 2 <= count && TableSize(count) <= |b|
    requires CheckSection(SectionFields(b, 0), HEADER_OFFSET).Ok? && SectionFields(b, 1).offset != SectionEnd(SectionFields(b, 0))
    ensures ParseSections(b, count, 0, HEADER_OFFSET) == Err(PartitionFs.Unsupported)
  {
    hide SectionFields, SectionEnd;
    assert ParseSections(b, count, 1, SectionEnd(SectionFields(b, 0))) == Err(PartitionFs.Unsupported);
  }

  // ----- nothing else is accepted -----

  function RowAt(buf: bytes, at: nat): Row
    requires at + 0x38 <= |buf|
  {
    Row(Section(RdU64(buf, at), RdU64(buf, at + 8), RdU64(buf, at + 0x10), buf[at + 0x20..at + 0x30], buf[at + 0x30..at + 0x38]),
        buf[at + 0x18..at + 0x20])
  }

  /** What the table at the start of a buffer says. */
  function RowsOf(buf: bytes, n: nat): (rows: seq<Row>)
    requires 0x10 + 0x38 * n <= |buf|
    ensures |rows| == n
  {
    seq(n, i requires 0 <= i < n => RowAt(buf, 0x10 + 0x38 * i))
  }

  lemma RowRestored(buf: bytes, at: nat)
    requires at + 0x38 <= |buf|
    ensures Shaped(RowAt(buf, at)) && Joined(RowFields(RowAt(buf, at))) == buf[at..at + 0x38]
  {
    hide Joined, Le, RdLe, FieldOff;
    var r := RowAt(buf, at);
    var f := RowFields(r);
    LeOfRead(buf, at, 8);
    LeOfRead(buf, at + 8, 8);
    LeOfRead(buf, at + 0x10, 8);
    RowOffsets(f, r);
    assert f[..6] == f;
    forall i | 0 <= i < 6
      ensures FieldLies(buf, at, f, i)
    {
    }
    FieldsAreSlice(buf, at, f, 6);
  }

  lemma RowsRestored(buf: bytes, n: nat)
    requires 0x10 + 0x38 * n <= |buf|
    ensures var rows := RowsOf(buf, n);
            (forall i :: 0 <= i < n ==> Shaped(rows[i])) && Joined(Rows(rows)) == buf[0x10..0x10 + 0x38 * n]
  {
    hide Joined, RdLe, RowFields, RowAt, Shaped;
    var rows := RowsOf(buf, n);
    forall i | 0 <= i < n
      ensures Shaped(rows[i]) && SliceIs(buf, 0x10, Rows(rows)[i], 0x38, i)
    {
      RowRestored(buf, 0x10 + 0x38 * i);
    }
    SlicesJoined(buf, 0x10, Rows(rows), 0x38, n);
    assert Rows(rows)[..n] == Rows(rows);
  }

  lemma PreambleRestored(buf: bytes, n: nat)
    requires |buf| >= 0x10 && HasMagic(buf, 0, SECTION_MAGIC) && RdU64(buf, MAGIC_SIZE) == n
    ensures Preamble(n) == buf[..0x10]
  {
    hide Le, RdLe;
    LeOfRead(buf, 8, 8);
    assert Ascii("NCZSECTN") == SECTION_MAGIC == buf[0..8];
    SliceBoth(buf, 0, 8, 0x10);
  }

  lemma TableIsThere(buf: bytes)
    requires Parse(buf).Ok?
    ensures 0x10 + 0x38 * |Parse(buf).value.sections| <= |buf|
  {
    hide Parse;
    ParseAcceptsTilings(buf);
  }

  lemma Restored(buf: bytes)
    requires Parse(buf).Ok?
    ensures var rows := RowsOf(buf, |Parse(buf).value.sections|);
            && Writable(rows, Parse(buf).value.decompressedSize)
            && Write(rows) == buf[..0x10 + 0x38 * |rows|] && !ListsBlocks(buf[0x10 + 0x38 * |rows|..])
  {
    hide Preamble, Joined, RdLe, RowAt, Shaped, Rows, ParseSections, SectionsIn, Tiles, ListsBlocks, HasMagic, Fitting;
    ParseAcceptsTilings(buf);
    var t := Parse(buf).value;
    var n := |t.sections|;
    var rows := RowsOf(buf, n);
    RowsRestored(buf, n);
    PreambleRestored(buf, n);
    SliceBoth(buf, 0, 0x10, 0x10 + 0x38 * n);
    var k := 0x10 + 0x38 * n;
    assert buf[..k] + buf[k..] == buf;
    BlocksListed(buf[..k], buf[k..]);
    RowsInvert(rows, buf[k..], 0);
    WholeSections(rows);
    TilingFills(rows, 0, HEADER_OFFSET, t.decompressedSize);
  }

  /** A table is accepted exactly when it is written so, from 1 to 64 sections that fill a file, and no blocks are listed behind it. */
  lemma AcceptedIsWritten(buf: bytes)
    ensures Parse(buf).Ok? <==> exists rows: seq<Row>, end: u64, tail: bytes :: Writable(rows, end) && !ListsBlocks(tail) && Write(rows) + tail == buf
  {
    hide Parse, Writable, Write, ListsBlocks, RowAt;
    if Parse(buf).Ok? {
      TableIsThere(buf);
      Restored(buf);
      var rows := RowsOf(buf, |Parse(buf).value.sections|);
      var tail := buf[0x10 + 0x38 * |rows|..];
      assert Writable(rows, Parse(buf).value.decompressedSize) && !ListsBlocks(tail) && Write(rows) + tail == buf;
    }
    forall rows: seq<Row>, end: u64, tail: bytes | Writable(rows, end) && !ListsBlocks(tail) && Write(rows) + tail == buf
      ensures Parse(buf).Ok?
    {
      ParseInvertsWrite(rows, end, tail);
    }
  }
}
