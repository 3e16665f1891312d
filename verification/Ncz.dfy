/** The section table of a compressed content file, and the cipher counters it prescribes. */
module Ncz {
  import opened Bytes
  import opened PartitionFs

  const HEADER_OFFSET: nat := 0x4000
  const SECTION_SIZE: nat := 0x38
  const MAX_SECTIONS: nat := 64
  const KEY_SIZE: nat := 16
  const NONCE_SIZE: nat := 8
  const MAGIC_SIZE: nat := 8
  const PREAMBLE_SIZE: nat := 16

  const CRYPTO_XTS: u64 := 2
  const CRYPTO_CTR: u64 := 3
  const CRYPTO_BKTR: u64 := 4

  /** "NCZSECTN" */
  const SECTION_MAGIC: bytes := [0x4E, 0x43, 0x5A, 0x53, 0x45, 0x43, 0x54, 0x4E]

  /** "NCZBLOCK" */
  const BLOCK_MAGIC: bytes := [0x4E, 0x43, 0x5A, 0x42, 0x4C, 0x4F, 0x43, 0x4B]

  /** A run of the rebuilt file with one key, one nonce and one kind of encryption. */
  datatype Section = Section(offset: u64, size: u64, cryptoType: u64, key: bytes, nonce: bytes)

  /** An accepted table: its sections, the bytes it takes, and the size of the file it rebuilds. */
  datatype Table = Table(sections: seq<Section>, headerBytes: nat, decompressedSize: u64)

  // ----- sizing and parsing -----

  predicate HasMagic(buf: bytes, at: nat, magic: bytes) {
    at + |magic| <= |buf| && buf[at..at + |magic|] == magic
  }

  function TableSize(count: nat): nat {
    PREAMBLE_SIZE + count * SECTION_SIZE
  }

  /** What the first 16 bytes say the table takes; zero when they are not the start of one. */
  function HeaderSizeFor(preamble: bytes): nat {
    if |preamble| < PREAMBLE_SIZE then 0
    else if !HasMagic(preamble, 0, SECTION_MAGIC) then 0
    else
      var count := RdU64(preamble, MAGIC_SIZE);
      if count == 0 || count > MAX_SECTIONS then 0 else TableSize(count)
  }

  /** The fields of the `i`-th section entry. */
  function SectionFields(buf: bytes, i: nat): (s: Section)
    requires TableSize(i + 1) <= |buf|
    ensures |s.key| == KEY_SIZE && |s.nonce| == NONCE_SIZE
  {
    var at := TableSize(i);
    Section(RdU64(buf, at), RdU64(buf, at + 8), RdU64(buf, at + 0x10),
            buf[at + 0x20..at + 0x20 + KEY_SIZE], buf[at + 0x30..at + 0x30 + NONCE_SIZE])
  }

  function SectionEnd(s: Section): u64 {
    Add64(s.offset, s.size)
  }

  /** What the table check asks of one section, in the order it asks. */
  function CheckSection(s: Section, expected: u64): (r: Result<u64, FmtError>)
    ensures r.Ok? ==> r.value == expected + s.size == SectionEnd(s) && s.offset == expected && s.size > 0
  {
    if s.offset != expected then Err(Unsupported)
    else if s.size == 0 then Err(Unsupported)
    else
      match CheckedAdd(s.offset, s.size)
      case None => Err(Overflow)
      case Some(end) => if s.cryptoType == CRYPTO_XTS then Err(Unsupported) else Ok(end)
  }

  /** Reads sections from the `i`-th on; the first must start at `expected`, each other where the last one ended. */
  function ParseSections(buf: bytes, count: nat, i: nat, expected: u64): (r: Result<(seq<Section>, u64), FmtError>)
    requires i <= count && TableSize(count) <= |buf|
    ensures r.Ok? ==> |r.value.0| == count - i
    decreases count - i
  {
    if i == count then Ok(([], expected))
    else
      var s := SectionFields(buf, i);
      match CheckSection(s, expected)
      case Err(e) => Err(e)
      case Ok(end) =>
        match ParseSections(buf, count, i + 1, end)
        case Err(e) => Err(e)
        case Ok((rest, last)) => Ok(([s] + rest, last))
  }

  /** Parses a buffer that starts where the table does. */
  function Parse(buf: bytes): Result<Table, FmtError> {
    if |buf| < PREAMBLE_SIZE then Err(Truncated)
    else if !HasMagic(buf, 0, SECTION_MAGIC) then Err(BadMagic)
    else
      var count := RdU64(buf, MAGIC_SIZE);
      if count == 0 then Err(BadMagic)
      else if count > MAX_SECTIONS then Err(TooLarge)
      else if |buf| < TableSize(count) then Err(Truncated)
      else
        match ParseSections(buf, count, 0, HEADER_OFFSET)
        case Err(e) => Err(e)
        case Ok((sections, end)) =>
          if HasMagic(buf, TableSize(count), BLOCK_MAGIC) then Err(Unsupported)
          else Ok(Table(sections, TableSize(count), end))
  }

  method ParseHeader(buf: bytes) returns (r: Result<Table, FmtError>)
    ensures r == Parse(buf)
  {
    hide SectionFields, CheckSection, HasMagic, RdU64;
    if |buf| < PREAMBLE_SIZE {
      return Err(Truncated);
    }
    if !HasMagic(buf, 0, SECTION_MAGIC) {
      return Err(BadMagic);
    }
    var count := RdU64(buf, MAGIC_SIZE);
    if count == 0 {
      return Err(BadMagic);
    }
    if count > MAX_SECTIONS {
      return Err(TooLarge);
    }
    var table := TableSize(count);
    if |buf| < table {
      return Err(Truncated);
    }
    var sections: seq<Section> := [];
    var expected: u64 := HEADER_OFFSET;
    var i := 0;
    ghost var all := ParseSections(buf, count, 0, HEADER_OFFSET);
    assert all.Ok? ==> [] + all.value.0 == all.value.0;
    while i < count
      invariant i <= count && |sections| == i
      invariant all == match ParseSections(buf, count, i, expected)
                       case Err(e) => Err(e)
                       case Ok((rest, last)) => Ok((sections + rest, last))
    {
      var s := SectionFields(buf, i);
      var end := CheckSection(s, expected);
      if end.Err? {
        return Err(end.error);
      }
      var rest := ParseSections(buf, count, i + 1, end.value);
      if rest.Ok? {
        assert (sections + [s]) + rest.value.0 == sections + ([s] + rest.value.0);
      }
      sections := sections + [s];
      expected := end.value;
      i := i + 1;
    }
    assert sections + [] == sections;
    if HasMagic(buf, table, BLOCK_MAGIC) {
      return Err(Unsupported);
    }
    return Ok(Table(sections, table, expected));
  }

  // ----- an accepted table tiles the file -----

  /** The sections follow one another from `start` to `end`, none empty, none wrapping, none with the header's cipher. */
  ghost predicate Tiles(sections: seq<Section>, start: nat, end: nat) {
    if sections == [] then start == end
    else
      && sections[0].offset == start && sections[0].size > 0 && sections[0].cryptoType != CRYPTO_XTS
      && start + sections[0].size < U64_LIMIT
      && |sections[0].key| == KEY_SIZE && |sections[0].nonce| == NONCE_SIZE
      && Tiles(sections[1..], start + sections[0].size, end)
  }

  /** The `count - i` sections the buffer holds from the `i`-th on. */
  function SectionsIn(buf: bytes, count: nat, i: nat): (r: seq<Section>)
    requires i <= count && TableSize(count) <= |buf|
    ensures |r| == count - i
    decreases count - i
  {
    if i == count then [] else [SectionFields(buf, i)] + SectionsIn(buf, count, i + 1)
  }

  lemma {:induction false} SectionsTile(buf: bytes, count: nat, i: nat, expected: u64)
    requires i <= count && TableSize(count) <= |buf|
    ensures var r := ParseSections(buf, count, i, expected);
            && (r.Ok? ==> r.value.0 == SectionsIn(buf, count, i) && Tiles(r.value.0, expected, r.value.1))
            && (r.Err? ==> forall end :: !Tiles(SectionsIn(buf, count, i), expected, end))
    decreases count - i
  {
    hide SectionEnd, RdU64;
    if i < count {
      var s := SectionFields(buf, i);
      var sections := SectionsIn(buf, count, i);
      assert sections[0] == s && sections[1..] == SectionsIn(buf, count, i + 1);
      var end := CheckSection(s, expected);
      if end.Ok? {
        SectionsTile(buf, count, i + 1, end.value);
        var rest := ParseSections(buf, count, i + 1, end.value);
        if rest.Ok? {
          assert ([s] + rest.value.0)[1..] == rest.value.0;
        }
      }
    }
  }

  /** The accepted buffers are those that hold a whole table of 1 to 64 sections that tile from 0x4000 and no block list. */
  ghost predicate Acceptable(buf: bytes) {
    && HeaderSizeFor(buf) != 0
    && HeaderSizeFor(buf) <= |buf|
    && !HasMagic(buf, HeaderSizeFor(buf), BLOCK_MAGIC)
    && exists end: u64 :: Tiles(SectionsIn(buf, RdU64(buf, MAGIC_SIZE), 0), HEADER_OFFSET, end)
  }

  lemma ParseAcceptsTilings(buf: bytes)
    ensures Parse(buf).Ok? <==> Acceptable(buf)
    ensures Parse(buf).Ok? ==>
              var t := Parse(buf).value;
              && Tiles(t.sections, HEADER_OFFSET, t.decompressedSize)
              && 1 <= |t.sections| <= MAX_SECTIONS
              && t.headerBytes == TableSize(|t.sections|) == HeaderSizeFor(buf)
              && t.headerBytes <= |buf|
              && t.sections == SectionsIn(buf, |t.sections|, 0)
  {
    hide SectionsIn, ParseSections, HasMagic, RdU64, Tiles;
    if |buf| >= PREAMBLE_SIZE && HasMagic(buf, 0, SECTION_MAGIC) {
      var count := RdU64(buf, MAGIC_SIZE);
      if 0 < count <= MAX_SECTIONS && TableSize(count) <= |buf| {
        SectionsTile(buf, count, 0, HEADER_OFFSET);
        var r := ParseSections(buf, count, 0, HEADER_OFFSET);
        if r.Ok? {
          assert Tiles(SectionsIn(buf, count, 0), HEADER_OFFSET, r.value.1);
        }
      }
    }
  }

  /** The size is known from the preamble alone, before the rest of the table has arrived. */
  lemma PreamblePredictsSize(buf: bytes)
    requires PREAMBLE_SIZE <= |buf|
    ensures HeaderSizeFor(buf[..PREAMBLE_SIZE]) == HeaderSizeFor(buf)
  {
    hide RdLe;
    var p := buf[..PREAMBLE_SIZE];
    SliceOfSlice(buf, 0, PREAMBLE_SIZE, 0, MAGIC_SIZE);
    assert HasMagic(p, 0, SECTION_MAGIC) == HasMagic(buf, 0, SECTION_MAGIC);
    SliceOfSlice(buf, 0, PREAMBLE_SIZE, MAGIC_SIZE, PREAMBLE_SIZE);
    RdLeSlice(p, MAGIC_SIZE, buf, MAGIC_SIZE, 8);
  }

  lemma FieldsPrefix(buf: bytes, more: bytes, i: nat)
    requires TableSize(i + 1) <= |buf|
    ensures SectionFields(buf + more, i) == SectionFields(buf, i)
  {
    hide RdLe;
    var at := TableSize(i);
    var all := buf + more;
    assert all[..|buf|] == buf;
    FieldPrefix(buf, more, at);
    FieldPrefix(buf, more, at + 8);
    FieldPrefix(buf, more, at + 0x10);
    assert all[at + 0x20..at + 0x20 + KEY_SIZE] == buf[at + 0x20..at + 0x20 + KEY_SIZE];
    assert all[at + 0x30..at + 0x30 + NONCE_SIZE] == buf[at + 0x30..at + 0x30 + NONCE_SIZE];
  }

  lemma FieldPrefix(buf: bytes, more: bytes, at: nat)
    requires at + 8 <= |buf|
    ensures RdU64(buf + more, at) == RdU64(buf, at)
  {
    assert (buf + more)[at..at + 8] == buf[at..at + 8];
    RdLeSlice(buf + more, at, buf, at, 8);
  }

  lemma {:induction false} SectionsPrefix(buf: bytes, more: bytes, count: nat, i: nat, expected: u64)
    requires i <= count && TableSize(count) <= |buf|
    ensures ParseSections(buf + more, count, i, expected) == ParseSections(buf, count, i, expected)
    decreases count - i
  {
    hide SectionFields, CheckSection;
    if i < count {
      FieldsPrefix(buf, more, i);
      var end := CheckSection(SectionFields(buf, i), expected);
      if end.Ok? {
        SectionsPrefix(buf, more, count, i + 1, end.value);
      }
    }
  }

  /** Nothing behind the magic that follows the table changes the verdict on it. */
  lemma ParsePrefix(buf: bytes, more: bytes)
    requires |buf| >= PREAMBLE_SIZE
    ensures HeaderSizeFor(buf + more) == HeaderSizeFor(buf)
    ensures HeaderSizeFor(buf) != 0 && HeaderSizeFor(buf) + MAGIC_SIZE <= |buf| ==> Parse(buf + more) == Parse(buf)
  {
    hide RdLe, ParseSections;
    var all := buf + more;
    FieldPrefix(buf, more, MAGIC_SIZE);
    assert all[0..MAGIC_SIZE] == buf[0..MAGIC_SIZE];
    var size := HeaderSizeFor(buf);
    if size != 0 && size + MAGIC_SIZE <= |buf| {
      SectionsPrefix(buf, more, RdU64(buf, MAGIC_SIZE), 0, HEADER_OFFSET);
      assert all[size..size + MAGIC_SIZE] == buf[size..size + MAGIC_SIZE];
    }
  }

  // ----- looking a section up -----

  predicate Covers(s: Section, offset: nat) {
    s.offset <= offset < SectionEnd(s)
  }

  /** The first section that covers the offset. */
  function SectionAt(sections: seq<Section>, offset: nat): (r: Option<Section>)
    ensures r.Some? ==> r.value in sections && Covers(r.value, offset)
  {
    if sections == [] then None
    else if Covers(sections[0], offset) then Some(sections[0])
    else SectionAt(sections[1..], offset)
  }

  method FindSection(sections: seq<Section>, offset: nat) returns (r: Option<Section>)
    ensures r == SectionAt(sections, offset)
  {
    hide Covers;
    var i := 0;
    while i < |sections|
      invariant i <= |sections|
      invariant SectionAt(sections, offset) == SectionAt(sections[i..], offset)
    {
      assert sections[i..][0] == sections[i] && sections[i..][1..] == sections[i + 1..];
      if Covers(sections[i], offset) {
        return Some(sections[i]);
      }
      i := i + 1;
    }
    return None;
  }

  lemma {:induction false} TilesGrow(sections: seq<Section>, start: nat, end: nat)
    requires Tiles(sections, start, end)
    ensures start <= end
    ensures sections != [] ==> start < end < U64_LIMIT
    ensures forall s :: s in sections ==> start <= s.offset < s.offset + s.size <= end && SectionEnd(s) == s.offset + s.size
    ensures forall s :: s in sections ==> |s.key| == KEY_SIZE && |s.nonce| == NONCE_SIZE
    decreases |sections|
  {
    if sections != [] {
      TilesGrow(sections[1..], start + sections[0].size, end);
      assert sections == [sections[0]] + sections[1..];
    }
  }

  /** In a tiling the lookup succeeds exactly inside the range, and only one section covers an offset. */
  lemma {:induction false} LookupIsExact(sections: seq<Section>, start: nat, end: nat, offset: nat)
    requires Tiles(sections, start, end)
    ensures SectionAt(sections, offset).Some? <==> start <= offset < end
    ensures forall s :: s in sections && Covers(s, offset) ==> SectionAt(sections, offset) == Some(s)
    decreases |sections|
  {
    TilesGrow(sections, start, end);
    if sections != [] {
      var next := start + sections[0].size;
      TilesGrow(sections[1..], next, end);
      LookupIsExact(sections[1..], next, end, offset);
      assert sections == [sections[0]] + sections[1..];
    }
  }

  /** Where one section ends the lookup finds the next, and it starts exactly there. */
  lemma {:induction false} NextStartsAtEnd(sections: seq<Section>, start: nat, end: nat, s: Section)
    requires Tiles(sections, start, end) && s in sections && SectionEnd(s) < end
    ensures SectionAt(sections, SectionEnd(s)).Some?
    ensures SectionAt(sections, SectionEnd(s)).value.offset == SectionEnd(s)
    decreases |sections|
  {
    TilesGrow(sections, start, end);
    var next := start + sections[0].size;
    var rest := sections[1..];
    TilesGrow(rest, next, end);
    assert sections == [sections[0]] + rest;
    if s == sections[0] {
      assert rest != [] && rest[0].offset == next;
      TilesGrow(rest[1..], next + rest[0].size, end);
    } else {
      NextStartsAtEnd(rest, next, end, s);
    }
  }

  predicate IsEncrypted(s: Section) {
    s.cryptoType == CRYPTO_CTR || s.cryptoType == CRYPTO_BKTR
  }

  // ----- counters -----

  /** The `n` low-order bytes of `v`, most significant first. */
  function BigEndian(v: nat, n: nat): (b: bytes)
    ensures |b| == n
  {
    if n == 0 then [] else BigEndian(v / 256, n - 1) + [v % 256]
  }

  /** The number a big-endian byte string stands for. */
  function ValueOf(b: bytes): nat {
    if b == [] then 0 else 256 * ValueOf(b[..|b| - 1]) + b[|b| - 1]
  }

  /** The counter for an absolute offset: the section's nonce, then the index of the 16-byte block. */
  function Counter(s: Section, offset: u64): (c: bytes)
    ensures |c| == |s.nonce| + 8
  {
    s.nonce + BigEndian(offset / 16, 8)
  }

  lemma DivTwice(v: nat, p: nat)
    requires p > 0
    ensures (v / 256) / p == v / (256 * p)
  {
    var a := v / 256;
    DivParts(a, p);
    DivByBoth(v, p, a, a / p, a % p, v % 256);
  }

  lemma DivParts(a: nat, p: nat)
    requires p > 0
    ensures p * (a / p) + a % p == a && a % p < p
  {
  }

  lemma DivByBoth(v: nat, p: nat, a: nat, q: nat, r: nat, b: nat)
    requires p * q + r == a && r < p && v == 256 * a + b && b < 256
    ensures v / (256 * p) == q
  {
    Regroup(p, q, r, b);
    DivMul(256 * p, q, 256 * r + b);
  }

  lemma Regroup(p: nat, q: nat, r: nat, b: nat)
    ensures (256 * p) * q + (256 * r + b) == 256 * (p * q + r) + b
  {
    assert (256 * p) * q == 256 * (p * q);
  }

  lemma DivMul(p: nat, q: nat, r: nat)
    requires r < p
    ensures (p * q + r) / p == q
  {
    var n := p * q + r;
    DivParts(n, p);
    QuotientIsUnique(p, q, r, n / p, n % p);
  }

  lemma QuotientIsUnique(p: nat, q: nat, r: nat, x: nat, m: nat)
    requires r < p && m < p && p * q + r == p * x + m
    ensures q == x
  {
    MulOrder(p, x + 1, q);
    MulOrder(p, q + 1, x);
  }

  lemma MulOrder(p: nat, a: nat, b: nat)
    ensures a <= b ==> p * a <= p * b
  {
  }

  /** Each byte of a big-endian number, found by the shift the code uses. */
  lemma {:induction false} BigEndianAt(v: nat, n: nat, k: nat)
    requires k < n
    ensures BigEndian(v, n)[k] == (v / Pow256(n - 1 - k)) % 256
    decreases n
  {
    if k < n - 1 {
      BigEndianAt(v / 256, n - 1, k);
      DivTwice(v, Pow256(n - 2 - k));
    } else {
      assert Pow256(0) == 1;
    }
  }

  method BuildCounter(s: Section, offset: u64, out: array<byte>)
    requires |s.nonce| == NONCE_SIZE && out.Length == KEY_SIZE
    modifies out
    ensures out[..] == Counter(s, offset)
  {
    hide BigEndian, Pow256;
    for k := 0 to NONCE_SIZE
      invariant out[..k] == s.nonce[..k]
    {
      out[k] := s.nonce[k];
    }
    var block := offset / 16;
    for i := 0 to 8
      invariant out[..8] == s.nonce
      invariant out[8..8 + i] == BigEndian(block, 8)[..i]
    {
      BigEndianAt(block, 8, i);
      out[8 + i] := (block / Pow256(7 - i)) % 256;
    }
  }

  /** A counter as the cipher steps it: a 128-bit big-endian number, wrapping. */
  function CounterPlus(c: bytes, k: nat): (r: bytes)
    ensures |r| == KEY_SIZE
  {
    BigEndian(ValueOf(c) + k, KEY_SIZE)
  }

  lemma {:induction false} ValueOfBigEndian(v: nat, n: nat)
    requires v < Pow256(n)
    ensures ValueOf(BigEndian(v, n)) == v
  {
    if n > 0 {
      var b := BigEndian(v, n);
      assert b[..|b| - 1] == BigEndian(v / 256, n - 1);
      ValueOfBigEndian(v / 256, n - 1);
    }
  }

  lemma LowByte(high: nat, low: nat)
    requires low < 256
    ensures (256 * high + low) / 256 == high && (256 * high + low) % 256 == low
  {
  }

  lemma {:induction false} BigEndianOfValue(b: bytes)
    ensures BigEndian(ValueOf(b), |b|) == b && ValueOf(b) < Pow256(|b|)
    decreases |b|
  {
    if b != [] {
      var front, last := b[..|b| - 1], b[|b| - 1];
      BigEndianOfValue(front);
      assert b == front + [last];
      LowByte(ValueOf(front), last);
    }
  }

  /** A number with a low part of `m` bytes is written high part first. */
  lemma {:induction false} BigEndianJoin(high: nat, low: nat, n: nat, m: nat)
    requires low < Pow256(m)
    ensures BigEndian(high * Pow256(m) + low, n + m) == BigEndian(high, n) + BigEndian(low, m)
    decreases m
  {
    if m == 0 {
      assert high * Pow256(0) + low == high;
      assert BigEndian(low, 0) == [];
    } else {
      var p := Pow256(m - 1);
      assert high * (256 * p) == 256 * (high * p);
      var v := high * Pow256(m) + low;
      assert v / 256 == high * p + low / 256 && v % 256 == low % 256;
      BigEndianJoin(high, low / 256, n, m - 1);
    }
  }

  lemma {:induction false} ValueOfJoin(a: bytes, b: bytes)
    ensures ValueOf(a + b) == ValueOf(a) * Pow256(|b|) + ValueOf(b)
    decreases |b|
  {
    if b == [] {
      assert a + b == a;
    } else {
      var c := b[..|b| - 1];
      assert (a + b)[..|a + b| - 1] == a + c;
      ValueOfJoin(a, c);
      assert ValueOf(a) * (256 * Pow256(|c|)) == 256 * (ValueOf(a) * Pow256(|c|));
    }
  }

  /**
   * Building the counter afresh for a later block gives what stepping the cipher's 128-bit counter
   * to that block gives: the block index never carries into the nonce.
   */
  lemma CounterSteps(s: Section, offset: u64, k: nat)
    requires |s.nonce| == NONCE_SIZE && offset + 16 * k < U64_LIMIT
    ensures Counter(s, offset + 16 * k) == CounterPlus(Counter(s, offset), k)
    ensures Counter(s, offset + 16 * k)[..NONCE_SIZE] == s.nonce
  {
    hide BigEndian, ValueOf, Pow256;
    Pow256Widths();
    var block := offset / 16;
    assert (offset + 16 * k) / 16 == block + k;
    ValueOfJoin(s.nonce, BigEndian(block, 8));
    ValueOfBigEndian(block, 8);
    BigEndianOfValue(s.nonce);
    BigEndianJoin(ValueOf(s.nonce), block + k, 8, 8);
  }
}
