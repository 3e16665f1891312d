/**
 * A content file packed and rebuilt: what comes out of the decoder, stated in the sections, keys and nonces
 * that were written into the table.
 */
module NczPacking {
  import opened Bytes
  import opened ChunkIndependence
  import opened InstallSpec
  import opened Ncz
  import opened NczCipher
  import opened NczCuts
  import opened NczDecode
  import opened NczFormat
  import opened NczRebuild

  // ----- the cipher, section by section -----

  /**
   * Counter mode over one section: the keystream starts with the section's nonce and the index of its first
   * block. Sections of type 3 and 4 are encrypted, all others are copied.
   */
  function SealedByte(aes: BlockCipher, s: Section, i: nat, v: byte): byte {
    if s.cryptoType == 3 || s.cryptoType == 4
    then Xor(v, aes(s.key, CounterPlus(s.nonce + BigEndian(s.offset / 16, 8), i / 16), i % 16))
    else v
  }

  function Sealed(aes: BlockCipher, s: Section, data: bytes): (r: bytes)
    ensures |r| == |data|
  {
    seq(|data|, i requires 0 <= i < |data| => SealedByte(aes, s, i, data[i]))
  }

  /** The file is the other one with every section run through its cipher; the first 0x4000 bytes are the same. */
  ghost predicate SealedFile(aes: BlockCipher, rows: seq<Row>, plain: bytes, file: bytes) {
    && |file| == |plain| >= 0x4000 && file[..0x4000] == plain[..0x4000]
    && forall k :: 0 <= k < |rows| ==> SealedAt(aes, rows[k].section, plain, file)
  }

  ghost predicate SealedAt(aes: BlockCipher, s: Section, plain: bytes, file: bytes) {
    var end := s.offset + s.size;
    end <= |plain| && end <= |file| && file[s.offset..end] == Sealed(aes, s, plain[s.offset..end])
  }

  lemma RebuiltInSection(aes: BlockCipher, table: Table, s: Section, plain: bytes, o: nat)
    requires TableOk(table) && s in table.sections && |plain| == table.decompressedSize && s.offset <= o < s.offset + s.size <= |plain|
    ensures RebuiltByte(aes, table, o, plain[o]) == Sealed(aes, s, plain[s.offset..s.offset + s.size])[o - s.offset]
  {
    hide Xor, CounterPlus, BigEndian, Tiles;
    LookupIsExact(table.sections, HEADER_OFFSET, table.decompressedSize, o);
    assert Covers(s, o) by { TilesGrow(table.sections, HEADER_OFFSET, table.decompressedSize); }
  }

  /** What the decoder rebuilds is the file whose sections are run through their ciphers, and nothing else is. */
  lemma RebuiltIsSealed(aes: BlockCipher, rows: seq<Row>, table: Table, plain: bytes, file: bytes)
    requires Writable(rows, |plain|) && table.sections == SectionsOf(rows) && table.decompressedSize == |plain|
    ensures |plain| >= 0x4000
    ensures SealedFile(aes, rows, plain, file) <==> file == plain[..0x4000] + Rebuilt(aes, table, HEADER_OFFSET, plain[0x4000..])
  {
    hide RebuiltByte, Sealed, Fitting, Shaped, Tiles;
    TableIsTiling(rows, table);
    TilesGrow(table.sections, HEADER_OFFSET, |plain|);
    var body := Rebuilt(aes, table, HEADER_OFFSET, plain[0x4000..]);
    var made := plain[..0x4000] + body;
    MadeIsSealed(aes, rows, table, plain, made);
    if SealedFile(aes, rows, plain, file) {
      SealedOnce(aes, rows, table, plain, file, made);
    }
  }

  lemma TableIsTiling(rows: seq<Row>, table: Table)
    requires Writable(rows, table.decompressedSize) && table.sections == SectionsOf(rows)
    ensures TableOk(table)
  {
    hide Fitting, Tiles, Shaped;
    FillsIsTiling(rows, 0, table.decompressedSize);
    WholeSections(rows);
  }

  lemma MadeIsSealed(aes: BlockCipher, rows: seq<Row>, table: Table, plain: bytes, made: bytes)
    requires TableOk(table) && table.sections == SectionsOf(rows) && table.decompressedSize == |plain| >= 0x4000
    requires made == plain[..0x4000] + Rebuilt(aes, table, HEADER_OFFSET, plain[0x4000..])
    ensures SealedFile(aes, rows, plain, made)
  {
    hide RebuiltByte, Sealed, Tiles;
    assert made[..0x4000] == plain[..0x4000];
    forall k | 0 <= k < |rows|
      ensures SealedAt(aes, rows[k].section, plain, made)
    {
      MadeInSection(aes, rows, table, plain, made, k);
    }
  }

  lemma MadeInSection(aes: BlockCipher, rows: seq<Row>, table: Table, plain: bytes, made: bytes, k: nat)
    requires TableOk(table) && table.sections == SectionsOf(rows) && table.decompressedSize == |plain| >= 0x4000 && k < |rows|
    requires made == plain[..0x4000] + Rebuilt(aes, table, HEADER_OFFSET, plain[0x4000..])
    ensures SealedAt(aes, rows[k].section, plain, made)
  {
    hide RebuiltByte, Sealed, Tiles;
    var s := rows[k].section;
    assert s == table.sections[k];
    TilesGrow(table.sections, HEADER_OFFSET, |plain|);
    var end := s.offset + s.size;
    var out := Sealed(aes, s, plain[s.offset..end]);
    forall i | 0 <= i < s.size
      ensures made[s.offset..end][i] == out[i]
    {
      RebuiltInSection(aes, table, s, plain, s.offset + i);
      assert made[s.offset + i] == RebuiltByte(aes, table, s.offset + i, plain[s.offset + i]);
    }
  }

  /** The sections leave no byte behind the header open. */
  lemma SealedOnce(aes: BlockCipher, rows: seq<Row>, table: Table, plain: bytes, a: bytes, b: bytes)
    requires TableOk(table) && table.sections == SectionsOf(rows) && table.decompressedSize == |plain|
    requires SealedFile(aes, rows, plain, a) && SealedFile(aes, rows, plain, b)
    ensures a == b
  {
    hide Sealed, Tiles, SealedAt;
    forall o | 0 <= o < |plain|
      ensures a[o] == b[o]
    {
      if o < 0x4000 {
        assert a[o] == a[..0x4000][o] == b[..0x4000][o] == b[o];
      } else {
        LookupIsExact(table.sections, HEADER_OFFSET, table.decompressedSize, o);
        TilesGrow(table.sections, HEADER_OFFSET, table.decompressedSize);
        var s := SectionAt(table.sections, o).value;
        var k :| 0 <= k < |rows| && rows[k].section == s;
        SameInSection(aes, rows[k].section, plain, a, b, o);
      }
    }
  }

  lemma SameInSection(aes: BlockCipher, s: Section, plain: bytes, a: bytes, b: bytes, o: nat)
    requires SealedAt(aes, s, plain, a) && SealedAt(aes, s, plain, b) && s.offset <= o < s.offset + s.size
    ensures a[o] == b[o]
  {
    hide Sealed;
    var end := s.offset + s.size;
    assert a[o] == a[s.offset..end][o - s.offset] == b[s.offset..end][o - s.offset] == b[o];
  }

  /** Running the sections through their ciphers twice restores the file. */
  lemma SealingIsReversible(aes: BlockCipher, rows: seq<Row>, plain: bytes, file: bytes)
    requires Writable(rows, |plain|) && |plain| < U64_LIMIT
    ensures SealedFile(aes, rows, plain, file) <==> SealedFile(aes, rows, file, plain)
  {
    hide Writable, SealedFile, Rebuilt;
    if |file| == |plain| {
      var table := Table(SectionsOf(rows), 0, |plain|);
      RebuiltIsSealed(aes, rows, table, plain, file);
      RebuiltIsSealed(aes, rows, table, file, plain);
      ReversesBoth(aes, table, plain, file);
    } else {
      LengthsAgree(aes, rows, plain, file);
    }
  }

  lemma LengthsAgree(aes: BlockCipher, rows: seq<Row>, plain: bytes, file: bytes)
    ensures SealedFile(aes, rows, plain, file) || SealedFile(aes, rows, file, plain) ==> |file| == |plain|
  {
    hide SealedAt;
  }

  lemma ReversesBoth(aes: BlockCipher, table: Table, plain: bytes, file: bytes)
    requires |file| == |plain| >= 0x4000
    ensures file == plain[..0x4000] + Rebuilt(aes, table, HEADER_OFFSET, plain[0x4000..])
       <==> plain == file[..0x4000] + Rebuilt(aes, table, HEADER_OFFSET, file[0x4000..])
  {
    hide RebuiltByte, Rebuilt;
    var a, b := plain[0x4000..], file[0x4000..];
    RebuildingIsReversible(aes, table, HEADER_OFFSET, a);
    RebuildingIsReversible(aes, table, HEADER_OFFSET, b);
    HeadAndRest(plain, 0x4000);
    HeadAndRest(file, 0x4000);
    if file == plain[..0x4000] + Rebuilt(aes, table, HEADER_OFFSET, a) {
      assert file[..0x4000] == plain[..0x4000] && b == Rebuilt(aes, table, HEADER_OFFSET, a);
    }
    if plain == file[..0x4000] + Rebuilt(aes, table, HEADER_OFFSET, b) {
      assert file[..0x4000] == plain[..0x4000] && a == Rebuilt(aes, table, HEADER_OFFSET, b);
    }
  }

  lemma HeadAndRest(s: bytes, n: nat)
    requires n <= |s|
    ensures s[..n] + s[n..] == s
  {
  }

  // ----- an entry as it is written -----

  /** An entry: the file's first 0x4000 bytes, the table, the payload. */
  ghost predicate IsWritten(x: bytes, header: bytes, rows: seq<Row>, end: u64, packed: bytes) {
    |header| == 0x4000 && Writable(rows, end) && x == header + Write(rows) + packed
  }

  /** The decoder finds in a written entry what was written into it, as soon as 8 bytes of payload are there. */
  lemma WrittenIsRead(x: bytes, header: bytes, rows: seq<Row>, end: u64, packed: bytes)
    requires IsWritten(x, header, rows, end, packed)
    ensures EndsInPrelude(x) <==> |packed| < 8
    ensures TableBuffered(x) <==> |packed| >= 8
    ensures x[..0x4000] == header
    ensures |packed| >= 8 && !ListsBlocks(packed) ==>
              && Parse(x[HEADER_OFFSET..]) == Ok(Table(SectionsOf(rows), 0x10 + 0x38 * |rows|, end))
              && TableOf(x) == Table(SectionsOf(rows), 0x10 + 0x38 * |rows|, end) && Payload(x) == packed
    ensures ListsBlocks(packed) ==> Parse(x[HEADER_OFFSET..]).Err?
  {
    hide Parse, Write, HeaderSizeFor, SectionsOf, ListsBlocks;
    PreambleInverts(rows, packed);
    ParseInvertsWrite(rows, end, packed);
    assert x == header + (Write(rows) + packed);
    assert x[..0x4000] == header;
    assert x[0x4000..] == Write(rows) + packed;
    if |packed| >= 8 && !ListsBlocks(packed) {
      var n := HEADER_OFFSET + TableOf(x).headerBytes;
      assert |header + Write(rows)| == n;
      assert x[n..] == packed;
    }
  }

  lemma ListedIsLong(packed: bytes)
    ensures ListsBlocks(packed) ==> |packed| >= 8
  {
  }

  // ----- every cut of a written entry -----

  /** What the decompressor makes of the payload along these feeds. */
  ghost function MadeAlong<Z(!new)>(zstd: Zstd<Z>, feeds: seq<bytes>): Inflation<Z>
    requires Sound(zstd) && HistoryOf(feeds).Opened?
  {
    MadeBehind(zstd, HistoryOf(feeds).x, HistoryOf(feeds).feeds)
  }

  lemma WrittenHistory(feeds: seq<bytes>, header: bytes, rows: seq<Row>, end: u64, packed: bytes)
    requires IsWritten(Joined(feeds), header, rows, end, packed) && |packed| >= 8 && !ListsBlocks(packed)
    ensures var h := HistoryOf(feeds);
            && h.Opened? && |h.x| >= HEADER_OFFSET && Payload(h.x) + Joined(h.feeds) == packed && h.x[..HEADER_OFFSET] == header
            && Parse(h.x[HEADER_OFFSET..]) == Ok(Table(SectionsOf(rows), 0x10 + 0x38 * |rows|, end))
  {
    hide Parse, IsWritten, HeaderSizeFor, SectionsOf, ListsBlocks, Payload, TableOf, NeedFor;
    var x := Joined(feeds);
    WrittenIsRead(x, header, rows, end, packed);
    HistoryIsEntry(feeds);
    var h := HistoryOf(feeds);
    PayloadGrows(h.x, Joined(h.feeds));
  }

  /**
   * However a written entry is cut and whatever the decompressor holds back, the decoder ends well exactly when what
   * was made of the payload along the cut fills the written sections. Then the sink has been sent the file that has
   * the header as it was and each written section encrypted with its own key and nonce. An entry whose payload stops
   * short of 8 bytes ends well with nothing sent, and one that lists blocks never ends well.
   */
  lemma WrittenEntryRebuilds<Z(!new)>(zstd: Zstd<Z>, aes: BlockCipher, d: Decoder<Z>, chunks: seq<bytes>,
                                      header: bytes, rows: seq<Row>, end: u64, packed: bytes)
    requires Sound(zstd) && IsWritten(Joined(chunks), header, rows, end, packed)
    ensures var r := FeedChunks(DecoderOps(zstd, aes), Fresh(d), chunks);
            if |packed| < 8 then r.ok && EndsWell(r.user) && Flat(r.emissions) == []
            else if ListsBlocks(packed) then !(r.ok && EndsWell(r.user))
            else
              && HistoryOf(chunks).Opened?
              && Payload(HistoryOf(chunks).x) + Joined(HistoryOf(chunks).feeds) == packed
              && var f := MadeAlong(zstd, chunks);
                 && (r.ok && EndsWell(r.user) <==> f.ok && 0x4000 + |f.out| == end)
                 && (f.ok && 0x4000 + |f.out| == end ==>
                       exists file :: SealedFile(aes, rows, header + f.out, file) && Flat(r.emissions) == TagAll(end, file))
  {
    hide FeedChunks, Parse, IsWritten, EndsInPrelude, Writable, SectionsOf, Payload, SealedFile, Flat, TagAll, Rebuilt,
      EndsWell, MadeBehind;
    var x := Joined(chunks);
    EveryCutRebuilds(zstd, aes, d, chunks);
    WrittenIsRead(x, header, rows, end, packed);
    ListedIsLong(packed);
    if |packed| >= 8 {
      WrittenAlong(zstd, aes, chunks, header, rows, end, packed);
    }
  }

  lemma WrittenAlong<Z(!new)>(zstd: Zstd<Z>, aes: BlockCipher, feeds: seq<bytes>, header: bytes, rows: seq<Row>,
                              end: u64, packed: bytes)
    requires Sound(zstd) && IsWritten(Joined(feeds), header, rows, end, packed) && |packed| >= 8
    ensures ListsBlocks(packed) ==> RebuildAlong(zstd, aes, feeds).None?
    ensures !ListsBlocks(packed) ==>
              && HistoryOf(feeds).Opened?
              && Payload(HistoryOf(feeds).x) + Joined(HistoryOf(feeds).feeds) == packed
              && var f, r := MadeAlong(zstd, feeds), RebuildAlong(zstd, aes, feeds);
                 && (r.Some? <==> f.ok && 0x4000 + |f.out| == end)
                 && (r.Some? ==> r.value.size == end && SealedFile(aes, rows, header + f.out, r.value.data))
  {
    hide Parse, IsWritten, SectionsOf, Payload, SealedFile, Rebuilt, MadeBehind, ListsBlocks, NeedFor, HeaderSizeFor,
      TableBuffered;
    if ListsBlocks(packed) {
      WrittenIsRead(Joined(feeds), header, rows, end, packed);
      RefusedAlong(zstd, aes, feeds);
    } else {
      WrittenHistory(feeds, header, rows, end, packed);
      var f := MadeAlong(zstd, feeds);
      if f.ok && 0x4000 + |f.out| == end {
        var plain := header + f.out;
        WrittenRows(Joined(feeds), header, rows, end, packed);
        assert plain[..0x4000] == header && plain[0x4000..] == f.out;
        RebuiltIsSealed(aes, rows, Table(SectionsOf(rows), 0x10 + 0x38 * |rows|, end), plain, RebuildAlong(zstd, aes, feeds).value.data);
      }
    }
  }

  lemma WrittenRows(x: bytes, header: bytes, rows: seq<Row>, end: u64, packed: bytes)
    requires IsWritten(x, header, rows, end, packed)
    ensures Writable(rows, end) && |header| == 0x4000
  {
  }

  lemma RefusedAlong<Z(!new)>(zstd: Zstd<Z>, aes: BlockCipher, feeds: seq<bytes>)
    requires Sound(zstd) && TableBuffered(Joined(feeds)) && Parse(Joined(feeds)[HEADER_OFFSET..]).Err?
    ensures RebuildAlong(zstd, aes, feeds).None?
  {
    hide Parse, NeedFor;
    HistoryIsEntry(feeds);
    var h := HistoryOf(feeds);
    TableStays(h.x, Joined(h.feeds));
  }

  // ----- packing and rebuilding -----

  /** The payload means these bytes, loses nothing in any cut, and holds nothing back at its end. */
  ghost predicate PacksTo<Z(!new), Y>(zstd: Zstd<Z>, m: Meaning<Z, Y>, body: bytes, packed: bytes)
    requires Sound(zstd)
  {
    && Reads(m, m.core(zstd.start), packed).Some? && Reads(m, m.core(zstd.start), packed).value.1 == body
    && NothingFollows(zstd, m, packed) && HandedOut(zstd, m, packed)
  }

  /** An entry packed from a file: its sections decrypted, what is behind the header packed, and the table put in front. */
  ghost predicate PackedFrom<Z(!new), Y>(zstd: Zstd<Z>, m: Meaning<Z, Y>, aes: BlockCipher, rows: seq<Row>,
                                         file: bytes, plain: bytes, packed: bytes, x: bytes)
    requires Sound(zstd)
  {
    && |file| < U64_LIMIT && Writable(rows, |file|) && SealedFile(aes, rows, file, plain)
    && |packed| >= 8 && !ListsBlocks(packed) && PacksTo(zstd, m, plain[0x4000..], packed)
    && x == file[..0x4000] + Write(rows) + packed
  }

  /** The file a packed entry describes is the one it was packed from. */
  lemma PackedIsDescribed<Z(!new), Y>(zstd: Zstd<Z>, m: Meaning<Z, Y>, aes: BlockCipher, rows: seq<Row>, file: bytes,
                                      plain: bytes, packed: bytes, x: bytes)
    requires Sound(zstd) && PackedFrom(zstd, m, aes, rows, file, plain, packed, x)
    ensures Clean(zstd, m, x) && Rebuild(zstd, m, aes, x) == Some(File(|file|, file)) && !EndsInPrelude(x)
  {
    hide Parse, EndsInPrelude, Writable, SectionsOf, Payload, SealedFile, Rebuilt, Write, ListsBlocks, NothingFollows,
      HandedOut, Reads, HeaderSizeFor, NeedFor;
    StartsAlike(aes, rows, file, plain);
    WrittenIsRead(x, file[..0x4000], rows, |file|, packed);
    SealingIsReversible(aes, rows, file, plain);
    RebuiltIsSealed(aes, rows, TableOf(x), plain, file);
  }

  /**
   * The round trip: decrypt the sections of any file, pack what is behind its first 0x4000 bytes, put the table of its
   * sections in front, and cut the entry anyhow: the decoder ends well and the sink has been sent that very file.
   */
  lemma PackedFilesAreRestored<Z(!new), Y>(zstd: Zstd<Z>, m: Meaning<Z, Y>, aes: BlockCipher, d: Decoder<Z>,
                                           chunks: seq<bytes>, rows: seq<Row>,
                                           file: bytes, plain: bytes, packed: bytes)
    requires Sound(zstd) && Steady(zstd, m) && Local(zstd)
    requires PackedFrom(zstd, m, aes, rows, file, plain, packed, Joined(chunks))
    ensures var r := FeedChunks(DecoderOps(zstd, aes), Fresh(d), chunks);
            r.ok && EndsWell(r.user) && Flat(r.emissions) == TagAll(|file|, file)
  {
    hide FeedChunks, EndsInPrelude, PackedFrom, Flat, TagAll, EndsWell, Steady, Local, RebuildAlong, Rebuild, Clean;
    PackedIsDescribed(zstd, m, aes, rows, file, plain, packed, Joined(chunks));
    EveryCutRebuilds(zstd, aes, d, chunks);
    CleanCutsRebuild(zstd, m, aes, chunks);
  }

  lemma StartsAlike(aes: BlockCipher, rows: seq<Row>, file: bytes, plain: bytes)
    requires SealedFile(aes, rows, file, plain)
    ensures |file| == |plain| >= 0x4000 && file[..0x4000] == plain[..0x4000]
  {
    hide SealedAt;
  }
}
