/**
 * Rebuilding a content file from its compressed form while it streams past.
 *
 * The first 0x4000 bytes are copied, the section table behind them is kept, and what the decompressor
 * makes of the rest is encrypted again section by section. The decompressor is any function that consumes
 * a chunk in steps; the block cipher is any function of a key and a counter block.
 */
module NczDecode {
  import opened Bytes
  import opened ChunkIndependence
  import opened InstallSpec
  import opened Ncz

  const PRELUDE_CAP: nat := HEADER_OFFSET + PREAMBLE_SIZE + MAX_SECTIONS * SECTION_SIZE + MAGIC_SIZE
  const OUT_CHUNK: nat := 0x8_0000

  // ----- what the decoder is built on -----

  /** One step of the decompressor: input consumed, bytes made, and whether a frame has just ended. */
  datatype Inflated<Z> = Inflated(used: nat, out: bytes, frameEnded: bool, failed: bool, z: Z)

  /** `start` is the state every entry begins with; `backlog` bounds the steps that only hand out what is already buffered. */
  datatype Zstd<!Z> = Zstd(start: Z, step: (Z, bytes) -> Inflated<Z>, backlog: Z -> nat)

  ghost predicate SoundStep<Z>(zstd: Zstd<Z>, z: Z, input: bytes) {
    var r := zstd.step(z, input);
    && r.used <= |input|
    && |r.out| <= OUT_CHUNK
    && (r.failed || r.used > 0 || zstd.backlog(r.z) < zstd.backlog(z))
  }

  /** What the decompressor's own interface promises: it stays in its buffers and makes progress. */
  ghost predicate Sound<Z(!new)>(zstd: Zstd<Z>) {
    forall z: Z, input: bytes {:trigger SoundStep(zstd, z, input)} :: input != [] ==> SoundStep(zstd, z, input)
  }

  /** Byte `i` of the block the cipher makes of a key and a counter block. */
  type BlockCipher = (bytes, bytes, nat) -> byte

  /** The exclusive or of the `n` low-order bits. */
  function XorBits(a: nat, b: nat, n: nat): nat {
    if n == 0 then 0 else (a % 2 + b % 2) % 2 + 2 * XorBits(a / 2, b / 2, n - 1)
  }

  function Xor(a: byte, b: byte): byte {
    XorFits(a, b);
    XorBits(a, b, 8)
  }

  lemma XorFits(a: nat, b: nat)
    ensures XorBits(a, b, 8) < 256
  {
    XorBound(a, b, 8);
    assert Pow2(8) == 2 * Pow2(7) == 4 * Pow2(6) == 8 * Pow2(5) == 16 * Pow2(4) == 32 * Pow2(3) == 64 * Pow2(2);
  }

  ghost function Pow2(n: nat): nat {
    if n == 0 then 1 else 2 * Pow2(n - 1)
  }

  lemma {:induction false} XorBound(a: nat, b: nat, n: nat)
    ensures XorBits(a, b, n) < Pow2(n)
    decreases n
  {
    if n > 0 {
      XorBound(a / 2, b / 2, n - 1);
    }
  }

  /** Byte `n` of the keystream that starts at `counter`. */
  function KeyStream(aes: BlockCipher, key: bytes, counter: bytes, n: nat): byte {
    aes(key, CounterPlus(counter, n / 16), n % 16)
  }

  /** The cipher's running state: how much of the keystream has been used. */
  datatype Cipher = Plain | Ctr(key: bytes, counter: bytes, used: nat)

  function Crypt(aes: BlockCipher, c: Cipher, data: bytes): (r: bytes)
    ensures |r| == |data|
  {
    match c
    case Plain => data
    case Ctr(key, counter, used) =>
      seq(|data|, i requires 0 <= i < |data| => Xor(data[i], KeyStream(aes, key, counter, used + i)))
  }

  // ----- encrypting again -----

  /** Where the next rebuilt byte goes, the section it is in, and that section's cipher. */
  datatype Head = Head(offset: u64, section: Option<Section>, cipher: Cipher)

  const START: Head := Head(0, None, Plain)

  function Enter(table: Table, h: Head): (r: Option<Head>)
    ensures r.Some? ==> r.value.section.Some? && r.value.offset == h.offset < SectionEnd(r.value.section.value)
  {
    if h.section.None? || h.offset >= SectionEnd(h.section.value) then
      match SectionAt(table.sections, h.offset)
      case None => None
      case Some(s) => Some(Head(h.offset, Some(s), if IsEncrypted(s) then Ctr(s.key, Counter(s, h.offset), 0) else Plain))
    else Some(h)
  }

  function Moved(h: Head, n: nat): Head
    requires h.offset + n < U64_LIMIT
  {
    Head(h.offset + n, h.section, if h.cipher.Ctr? then h.cipher.(used := h.cipher.used + n) else Plain)
  }

  /** The sink calls made for a run of decompressed bytes, and whether all of it had a section to go to. */
  datatype Emitted = Emitted(pieces: seq<bytes>, ok: bool, head: Head)

  /** A run is cut at each section end, because the key changes there. */
  function Emit(aes: BlockCipher, table: Table, h: Head, data: bytes): Emitted
    decreases |data|
  {
    if data == [] then Emitted([], true, h)
    else
      match Enter(table, h)
      case None => Emitted([], false, h)
      case Some(e) =>
        var take := Min(|data|, SectionEnd(e.section.value) - e.offset);
        var rest := Emit(aes, table, Moved(e, take), data[take..]);
        Emitted([Crypt(aes, e.cipher, data[..take])] + rest.pieces, rest.ok, rest.head)
  }

  // ----- the byte-by-byte specification -----

  /** The keystream of a section starts at its first byte with the counter of that offset, and never restarts. */
  function KeyByte(aes: BlockCipher, s: Section, offset: nat): byte
    requires s.offset <= offset
  {
    KeyStream(aes, s.key, Counter(s, s.offset), offset - s.offset)
  }

  function RebuiltByte(aes: BlockCipher, table: Table, offset: nat, plain: byte): byte {
    match SectionAt(table.sections, offset)
    case None => plain
    case Some(s) => if IsEncrypted(s) then Xor(plain, KeyByte(aes, s, offset)) else plain
  }

  /** What the decompressed bytes become when the first of them belongs at `offset`. */
  function Rebuilt(aes: BlockCipher, table: Table, offset: nat, plain: bytes): (r: bytes)
    ensures |r| == |plain|
  {
    seq(|plain|, i requires 0 <= i < |plain| => RebuiltByte(aes, table, offset + i, plain[i]))
  }

  ghost predicate TableOk(table: Table) {
    Tiles(table.sections, HEADER_OFFSET, table.decompressedSize)
  }

  function CipherIn(s: Section, offset: nat): Cipher
    requires s.offset <= offset
  {
    if IsEncrypted(s) then Ctr(s.key, Counter(s, s.offset), offset - s.offset) else Plain
  }

  /** The head after a run that ended at `offset`: still in the section of the last byte. */
  ghost function HeadAt(table: Table, offset: u64): Head {
    if offset <= HEADER_OFFSET then Head(offset, None, Plain)
    else
      match SectionAt(table.sections, offset - 1)
      case None => Head(offset, None, Plain)
      case Some(s) => Head(offset, Some(s), CipherIn(s, offset))
  }

  ghost predicate HeadOk(table: Table, h: Head) {
    HEADER_OFFSET <= h.offset <= table.decompressedSize && h == HeadAt(table, h.offset)
  }

  /** A head that has just been pointed at the section of the next byte. */
  ghost predicate Entered(table: Table, h: Head) {
    && h.section.Some?
    && h.section.value in table.sections
    && h.section.value.offset <= h.offset < SectionEnd(h.section.value)
    && h.cipher == CipherIn(h.section.value, h.offset)
  }

  lemma RebuiltSplits(aes: BlockCipher, table: Table, offset: nat, a: bytes, b: bytes)
    ensures Rebuilt(aes, table, offset, a + b) == Rebuilt(aes, table, offset, a) + Rebuilt(aes, table, offset + |a|, b)
  {
    hide RebuiltByte;
    var whole, first, second := Rebuilt(aes, table, offset, a + b), Rebuilt(aes, table, offset, a), Rebuilt(aes, table, offset + |a|, b);
    forall i | 0 <= i < |a + b|
      ensures whole[i] == (first + second)[i]
    {
    }
  }

  /** Inside one section the running cipher is the specification's keystream. */
  lemma CryptIsRebuilt(aes: BlockCipher, table: Table, h: Head, data: bytes)
    requires TableOk(table) && Entered(table, h) && h.offset + |data| <= SectionEnd(h.section.value)
    ensures Crypt(aes, h.cipher, data) == Rebuilt(aes, table, h.offset, data)
  {
    hide KeyStream, Xor, Counter, SectionEnd, IsEncrypted, SectionAt, Tiles;
    var s := h.section.value;
    forall i | 0 <= i < |data|
      ensures Crypt(aes, h.cipher, data)[i] == RebuiltByte(aes, table, h.offset + i, data[i])
    {
      LookupIsExact(table.sections, HEADER_OFFSET, table.decompressedSize, h.offset + i);
      assert Covers(s, h.offset + i);
    }
  }

  /** Entering succeeds exactly below the rebuilt size, and starts a fresh cipher only at the start of a section. */
  lemma EnterIsOk(table: Table, h: Head)
    requires TableOk(table) && HeadOk(table, h)
    ensures Enter(table, h).Some? <==> h.offset < table.decompressedSize
    ensures Enter(table, h).Some? ==> Entered(table, Enter(table, h).value)
  {
    hide Tiles, Counter, IsEncrypted, SectionEnd;
    var sections, end := table.sections, table.decompressedSize;
    TilesGrow(sections, HEADER_OFFSET, end);
    LookupIsExact(sections, HEADER_OFFSET, end, h.offset);
    if h.section.None? || h.offset >= SectionEnd(h.section.value) {
      var found := SectionAt(sections, h.offset);
      if found.Some? {
        if h.offset == HEADER_OFFSET {
          FirstStartsTheRange(sections, HEADER_OFFSET, end);
        } else {
          LookupIsExact(sections, HEADER_OFFSET, end, h.offset - 1);
          NextStartsAtEnd(sections, HEADER_OFFSET, end, h.section.value);
        }
        assert found.value.offset == h.offset;
      }
    }
  }

  lemma FirstStartsTheRange(sections: seq<Section>, start: nat, end: nat)
    requires Tiles(sections, start, end)
    ensures SectionAt(sections, start).Some? ==> SectionAt(sections, start).value.offset == start
  {
    if sections != [] {
      TilesGrow(sections[1..], start + sections[0].size, end);
    }
  }

  lemma MovedIsOk(table: Table, e: Head, n: nat)
    requires TableOk(table) && Entered(table, e) && 0 < n <= SectionEnd(e.section.value) - e.offset
    ensures HeadOk(table, Moved(e, n))
  {
    hide Tiles, Counter, IsEncrypted, SectionEnd;
    var s := e.section.value;
    SectionInside(table, s);
    LookupIsExact(table.sections, HEADER_OFFSET, table.decompressedSize, e.offset + n - 1);
    assert Covers(s, e.offset + n - 1);
  }

  ghost predicate NoEmptyPiece(pieces: seq<bytes>) {
    forall i :: 0 <= i < |pieces| ==> pieces[i] != []
  }

  lemma SectionInside(table: Table, s: Section)
    requires TableOk(table) && s in table.sections
    ensures HEADER_OFFSET <= s.offset < SectionEnd(s) <= table.decompressedSize
  {
    TilesGrow(table.sections, HEADER_OFFSET, table.decompressedSize);
  }

  function Room(table: Table, h: Head): int {
    table.decompressedSize - h.offset
  }

  /** What the sink owes to `plain`: all of it when it fits, else what fits. */
  ghost predicate Reaches(aes: BlockCipher, table: Table, h: Head, plain: bytes, pieces: seq<bytes>, after: Head) {
    && HeadOk(table, h) && HeadOk(table, after)
    && after.offset == h.offset + Min(|plain|, Room(table, h))
    && Joined(pieces) == Rebuilt(aes, table, h.offset, plain[..Min(|plain|, Room(table, h))])
    && NoEmptyPiece(pieces)
  }

  lemma ReachesNothing(aes: BlockCipher, table: Table, h: Head, plain: bytes)
    requires HeadOk(table, h) && (plain == [] || Room(table, h) == 0)
    ensures Reaches(aes, table, h, plain, [], h)
  {
  }

  /** Two runs in a row: the second is only reached when the first fits. */
  lemma ReachesBoth(aes: BlockCipher, table: Table, h: Head, a: bytes, pa: seq<bytes>, mid: Head, b: bytes,
                    pb: seq<bytes>, after: Head)
    requires Reaches(aes, table, h, a, pa, mid) && Reaches(aes, table, mid, b, pb, after) && |a| <= Room(table, h)
    ensures Reaches(aes, table, h, a + b, pa + pb, after)
  {
    hide HeadOk, Rebuilt;
    JoinedAppend(pa, pb);
    var n := Min(|b|, Room(table, mid));
    assert a[..|a|] == a;
    assert (a + b)[..|a| + n] == a + b[..n];
    RebuiltSplits(aes, table, h.offset, a, b[..n]);
  }

  /** Bytes that would come after the end leave no trace. */
  lemma ReachesCut(aes: BlockCipher, table: Table, h: Head, a: bytes, pa: seq<bytes>, mid: Head, b: bytes)
    requires Reaches(aes, table, h, a, pa, mid) && |a| >= Room(table, h)
    ensures Reaches(aes, table, h, a + b, pa, mid)
  {
    hide HeadOk, Rebuilt;
    AtTheEnd(table, h);
    assert (a + b)[..Room(table, h)] == a[..Room(table, h)];
  }

  lemma ReachesHead(aes: BlockCipher, table: Table, h: Head, plain: bytes, pieces: seq<bytes>, after: Head)
    requires Reaches(aes, table, h, plain, pieces, after)
    ensures HeadOk(table, after) && after.offset == h.offset + Min(|plain|, Room(table, h))
  {
  }

  /** One piece, inside one section. */
  lemma ReachesPiece(aes: BlockCipher, table: Table, h: Head, e: Head, data: bytes)
    requires TableOk(table) && HeadOk(table, h) && Enter(table, h) == Some(e) && Entered(table, e)
    requires data != [] && h.offset + |data| <= SectionEnd(e.section.value)
    ensures Reaches(aes, table, h, data, [Crypt(aes, e.cipher, data)], Moved(e, |data|))
    ensures |data| <= Room(table, h)
  {
    hide Crypt, TableOk, Enter, Rebuilt, HeadAt, CipherIn;
    SectionInside(table, e.section.value);
    CryptIsRebuilt(aes, table, e, data);
    MovedIsOk(table, e, |data|);
    assert data[..|data|] == data;
    var piece := Crypt(aes, e.cipher, data);
    assert Joined([piece]) == piece + Joined([]) == piece;
  }

  /** A run reaches the sink as the specification says, up to the rebuilt size, and fails exactly when it goes past it. */
  lemma {:induction false} EmitRefines(aes: BlockCipher, table: Table, h: Head, data: bytes)
    requires TableOk(table) && HeadOk(table, h)
    ensures var r := Emit(aes, table, h, data);
            && (r.ok <==> |data| <= Room(table, h))
            && Reaches(aes, table, h, data, r.pieces, r.head)
    decreases |data|
  {
    hide Crypt, Enter, TableOk, HeadOk, SectionEnd, Entered, CipherIn;
    EnterIsOk(table, h);
    var entered := Enter(table, h);
    if data == [] || entered.None? {
      AtTheEnd(table, h);
      ReachesNothing(aes, table, h, data);
    } else {
      var e := entered.value;
      var take := Min(|data|, SectionEnd(e.section.value) - e.offset);
      var m := Moved(e, take);
      ReachesPiece(aes, table, h, e, data[..take]);
      EmitRefines(aes, table, m, data[take..]);
      var rest := Emit(aes, table, m, data[take..]);
      ReachesBoth(aes, table, h, data[..take], [Crypt(aes, e.cipher, data[..take])], m, data[take..], rest.pieces, rest.head);
      assert data[..take] + data[take..] == data;
    }
  }

  lemma AtTheEnd(table: Table, h: Head)
    requires HeadOk(table, h)
    ensures Room(table, h) >= 0
  {
  }

  // ----- decompressing a buffer -----

  datatype Drained<Z> = Drained(pieces: seq<bytes>, ok: bool, head: Head, z: Z)

  /**
   * The loop over one input buffer. The one that serves a feed stops when a frame ends without output;
   * the one that serves what was buffered behind the table (`toTheEnd`) does not.
   */
  function Drain<Z(!new)>(zstd: Zstd<Z>, aes: BlockCipher, table: Table, h: Head, z: Z, input: bytes,
                          toTheEnd: bool): (r: Drained<Z>)
    requires Sound(zstd)
    decreases |input|, zstd.backlog(z)
  {
    if input == [] then Drained([], true, h, z)
    else
      assert SoundStep(zstd, z, input);
      var r := zstd.step(z, input);
      if r.failed then Drained([], false, h, r.z)
      else
        var e := Emit(aes, table, h, r.out);
        if !e.ok then Drained(e.pieces, false, e.head, r.z)
        else if r.frameEnded && r.out == [] && !toTheEnd then Drained(e.pieces, true, e.head, r.z)
        else
          var rest := Drain(zstd, aes, table, e.head, r.z, input[r.used..], toTheEnd);
          Drained(e.pieces + rest.pieces, rest.ok, rest.head, rest.z)
  }

  /** What the decompressor makes of a buffer, all steps together. */
  datatype Inflation<Z> = Inflation(out: bytes, ok: bool, z: Z)

  ghost function Inflate<Z(!new)>(zstd: Zstd<Z>, z: Z, input: bytes, toTheEnd: bool): (r: Inflation<Z>)
    requires Sound(zstd)
    decreases |input|, zstd.backlog(z)
  {
    if input == [] then Inflation([], true, z)
    else
      assert SoundStep(zstd, z, input);
      var r := zstd.step(z, input);
      if r.failed then Inflation([], false, r.z)
      else if r.frameEnded && r.out == [] && !toTheEnd then Inflation([], true, r.z)
      else
        var rest := Inflate(zstd, r.z, input[r.used..], toTheEnd);
        Inflation(r.out + rest.out, rest.ok, rest.z)
  }

  /** Draining a buffer sends the sink what the specification makes of the decompressed bytes, whatever steps they came in. */
  lemma {:induction false} DrainRefines<Z(!new)>(zstd: Zstd<Z>, aes: BlockCipher, table: Table, h: Head, z: Z,
                                                 input: bytes, toTheEnd: bool)
    requires Sound(zstd) && TableOk(table) && HeadOk(table, h)
    ensures var d := Drain(zstd, aes, table, h, z, input, toTheEnd);
            var f := Inflate(zstd, z, input, toTheEnd);
            && Reaches(aes, table, h, f.out, d.pieces, d.head)
            && (d.ok <==> f.ok && |f.out| <= Room(table, h))
            && (d.ok ==> d.z == f.z)
    decreases |input|, zstd.backlog(z)
  {
    hide Emit, TableOk, HeadOk, Reaches;
    if input == [] {
      AtTheEnd(table, h);
      ReachesNothing(aes, table, h, []);
    } else {
      assert SoundStep(zstd, z, input);
      var r := zstd.step(z, input);
      var f := Inflate(zstd, z, input, toTheEnd);
      if r.failed {
        AtTheEnd(table, h);
        ReachesNothing(aes, table, h, []);
      } else {
        EmitRefines(aes, table, h, r.out);
        var e := Emit(aes, table, h, r.out);
        if r.frameEnded && r.out == [] && !toTheEnd {
        } else {
          var rest := Inflate(zstd, r.z, input[r.used..], toTheEnd);
          if e.ok {
            ReachesHead(aes, table, h, r.out, e.pieces, e.head);
            DrainRefines(zstd, aes, table, e.head, r.z, input[r.used..], toTheEnd);
            var d := Drain(zstd, aes, table, e.head, r.z, input[r.used..], toTheEnd);
            ReachesBoth(aes, table, h, r.out, e.pieces, e.head, rest.out, d.pieces, d.head);
          } else {
            ReachesCut(aes, table, h, r.out, e.pieces, e.head, rest.out);
          }
        }
      }
    }
  }

  // ----- the decoder -----

  datatype Phase = Prelude | Stream | Broken

  /** What is buffered, how much must be (0 until the section count is known), and the state of the rebuilding. */
  datatype Decoder<Z> = Decoder(phase: Phase, prelude: bytes, need: nat, table: Table, head: Head, z: Z)

  const NO_TABLE: Table := Table([], 0, 0)

  function Fresh<Z>(d: Decoder<Z>): Decoder<Z> {
    Buffering([], 0, d.z)
  }

  function Buffering<Z>(x: bytes, need: nat, z: Z): Decoder<Z> {
    Decoder(Prelude, x, need, NO_TABLE, START, z)
  }

  function Want<Z>(d: Decoder<Z>): nat {
    if d.need > 0 then d.need else PRELUDE_CAP
  }

  /** How much of an entry must be buffered, once its preamble has arrived: one magic more than the table. */
  function NeedFor(x: bytes): nat
    requires HEADER_OFFSET + PREAMBLE_SIZE <= |x|
  {
    var size := HeaderSizeFor(x[HEADER_OFFSET..]);
    if size == 0 then 0 else HEADER_OFFSET + size + MAGIC_SIZE
  }

  /** What every decoder a run reaches satisfies. */
  ghost predicate DecoderOk<Z>(d: Decoder<Z>) {
    match d.phase
    case Prelude =>
      && d.table == NO_TABLE && d.head == START
      && |d.prelude| < Want(d)
      && if |d.prelude| < HEADER_OFFSET + PREAMBLE_SIZE then d.need == 0 else d.need == NeedFor(d.prelude) > 0
    case Stream => TableOk(d.table) && HeadOk(d.table, d.head) && d.prelude == [] && d.need == 0
    case Broken => true
  }

  function Break<Z>(d: Decoder<Z>): Decoder<Z> {
    d.(phase := Broken)
  }

  function Tagged(size: u64, pieces: seq<bytes>): (r: seq<Emission>)
    ensures |r| == |pieces|
  {
    seq(|pieces|, i requires 0 <= i < |pieces| => Emission(size, pieces[i]))
  }

  /** The whole table is buffered: the copied header goes out, and what lies behind the table is decompressed. */
  function Open<Z(!new)>(zstd: Zstd<Z>, aes: BlockCipher, z: Z, x: bytes): FeedReply<Decoder<Z>>
    requires Sound(zstd) && HEADER_OFFSET <= |x|
  {
    match Parse(x[HEADER_OFFSET..])
    case Err(_) => FeedReply([], false, Break(Buffering(x, 0, z)))
    case Ok(table) =>
      TableFits(x);
      Unpack(zstd, aes, table, x[..HEADER_OFFSET], x[HEADER_OFFSET + table.headerBytes..])
  }

  function Unpack<Z(!new)>(zstd: Zstd<Z>, aes: BlockCipher, table: Table, copied: bytes, packed: bytes): FeedReply<Decoder<Z>>
    requires Sound(zstd)
  {
    var d := Drain(zstd, aes, table, Head(HEADER_OFFSET, None, Plain), zstd.start, packed, true);
    FeedReply([Emission(table.decompressedSize, copied)] + Tagged(table.decompressedSize, d.pieces),
              d.ok, Decoder(if d.ok then Stream else Broken, [], 0, table, d.head, d.z))
  }

  lemma TableFits(x: bytes)
    requires HEADER_OFFSET <= |x| && Parse(x[HEADER_OFFSET..]).Ok?
    ensures HEADER_OFFSET + Parse(x[HEADER_OFFSET..]).value.headerBytes <= |x|
  {
    ParseAcceptsTilings(x[HEADER_OFFSET..]);
  }

  /** One visit to the prelude: buffer, size the table as soon as its preamble is in, open it once it is complete. */
  function AbsorbPrelude<Z(!new)>(zstd: Zstd<Z>, aes: BlockCipher, d: Decoder<Z>, data: bytes): (r: (FeedReply<Decoder<Z>>, nat))
    requires Sound(zstd) && DecoderOk(d) && d.phase.Prelude?
    ensures r.1 <= |data| && (data != [] ==> r.1 > 0)
  {
    var used := Min(|data|, Want(d) - |d.prelude|);
    var x := d.prelude + data[..used];
    if d.need == 0 && |x| < HEADER_OFFSET + PREAMBLE_SIZE then (FeedReply([], true, d.(prelude := x)), used)
    else
      var need := if d.need == 0 then NeedFor(x) else d.need;
      if need == 0 then (FeedReply([], false, Break(d)), used)
      else if |x| < need then (FeedReply([], true, d.(prelude := x, need := need)), used)
      else (Open(zstd, aes, d.z, x), used)
  }

  // ----- what a feed amounts to, whatever the cuts -----

  /** The observable part of a feed: the bytes sent, whether it succeeded, and the decoder if it did. */
  datatype Outcome<Z> = Outcome(sent: seq<(u64, byte)>, ok: bool, user: Decoder<Z>)

  ghost predicate Is<Z>(r: FeedReply<Decoder<Z>>, o: Outcome<Z>) {
    && (r.ok <==> o.ok)
    && (r.ok ==> r.user == o.user && Flat(r.emissions) == o.sent)
    && NoEmptyEmission(r.emissions)
  }

  function TagAll(size: u64, data: bytes): (t: seq<(u64, byte)>) {
    Tag(Emission(size, data))
  }

  ghost function StreamAt<Z>(table: Table, offset: u64, z: Z): Decoder<Z> {
    Decoder(Stream, [], 0, table, HeadAt(table, offset), z)
  }

  ghost predicate Fits<Z>(table: Table, offset: nat, f: Inflation<Z>) {
    f.ok && offset + |f.out| <= table.decompressedSize
  }

  /** The stream phase at `offset` receiving what decompresses to `f`. */
  ghost function StreamOutcome<Z>(aes: BlockCipher, table: Table, offset: u64, f: Inflation<Z>): Outcome<Z> {
    var end := if Fits(table, offset, f) then offset + |f.out| else 0;
    Outcome(TagAll(table.decompressedSize, Rebuilt(aes, table, offset, f.out)), Fits(table, offset, f), StreamAt(table, end, f.z))
  }

  /** What the decompressor makes of the start of a payload when it runs on behind a silent frame end. */
  ghost function Running<Z(!new)>(zstd: Zstd<Z>, packed: bytes): Inflation<Z>
    requires Sound(zstd)
  {
    Inflate(zstd, zstd.start, packed, true)
  }

  ghost function OpenOutcome<Z(!new)>(zstd: Zstd<Z>, aes: BlockCipher, z: Z, x: bytes): Outcome<Z>
    requires Sound(zstd) && HEADER_OFFSET <= |x|
  {
    match Parse(x[HEADER_OFFSET..])
    case Err(_) => Outcome([], false, Buffering(x, 0, z))
    case Ok(table) =>
      TableFits(x);
      Unpacked(zstd, aes, table, x[..HEADER_OFFSET], x[HEADER_OFFSET + table.headerBytes..])
  }

  /** The copied header, then what the bytes behind the table decompress to. */
  ghost function Unpacked<Z(!new)>(zstd: Zstd<Z>, aes: BlockCipher, table: Table, copied: bytes, packed: bytes): Outcome<Z>
    requires Sound(zstd)
  {
    var rest := StreamOutcome(aes, table, HEADER_OFFSET, Running(zstd, packed));
    rest.(sent := TagAll(table.decompressedSize, copied) + rest.sent)
  }

  lemma {:induction false} FlatTagged(size: u64, pieces: seq<bytes>)
    ensures Flat(Tagged(size, pieces)) == TagAll(size, Joined(pieces))
  {
    if pieces == [] {
      assert TagAll(size, []) == [];
    } else {
      FlatTagged(size, pieces[1..]);
      assert Tagged(size, pieces)[1..] == Tagged(size, pieces[1..]);
      assert TagAll(size, pieces[0]) + TagAll(size, Joined(pieces[1..])) == TagAll(size, Joined(pieces));
    }
  }

  lemma {:induction false} FlatAppend(a: seq<Emission>, b: seq<Emission>)
    ensures Flat(a + b) == Flat(a) + Flat(b)
  {
    hide Tag;
    if a == [] {
      assert a + b == b;
    } else {
      assert (a + b)[1..] == a[1..] + b;
      FlatAppend(a[1..], b);
    }
  }

  /** The stream phase is its closed form. */
  lemma DrainIsStream<Z(!new)>(zstd: Zstd<Z>, aes: BlockCipher, table: Table, offset: u64, z: Z, input: bytes, toTheEnd: bool)
    requires Sound(zstd) && TableOk(table) && HeadOk(table, HeadAt(table, offset))
    ensures var x := Drain(zstd, aes, table, HeadAt(table, offset), z, input, toTheEnd);
            var r := FeedReply(Tagged(table.decompressedSize, x.pieces), x.ok, Decoder(if x.ok then Stream else Broken, [], 0, table, x.head, x.z));
            && Is(r, StreamOutcome(aes, table, offset, Inflate(zstd, z, input, toTheEnd)))
            && (x.ok ==> HeadOk(table, x.head))
  {
    hide Drain, Inflate, Rebuilt, Flat, TagAll, TableOk;
    var h := HeadAt(table, offset);
    assert h.offset == offset;
    DrainRefines(zstd, aes, table, h, z, input, toTheEnd);
    var x, f := Drain(zstd, aes, table, h, z, input, toTheEnd), Inflate(zstd, z, input, toTheEnd);
    FlatTagged(table.decompressedSize, x.pieces);
    if x.ok {
      assert f.out[..|f.out|] == f.out;
    }
  }

  lemma FirstHead(table: Table)
    requires TableOk(table)
    ensures HeadAt(table, HEADER_OFFSET) == Head(HEADER_OFFSET, None, Plain) && HeadOk(table, HeadAt(table, HEADER_OFFSET))
  {
    TilesGrow(table.sections, HEADER_OFFSET, table.decompressedSize);
  }

  lemma UnpackIsUnpacked<Z(!new)>(zstd: Zstd<Z>, aes: BlockCipher, table: Table, copied: bytes, packed: bytes)
    requires Sound(zstd) && TableOk(table) && copied != []
    ensures var r := Unpack(zstd, aes, table, copied, packed);
            && Is(r, Unpacked(zstd, aes, table, copied, packed))
            && (r.ok ==> DecoderOk(r.user) && r.user.phase.Stream?)
  {
    hide Drain, Inflate, StreamOutcome, Tagged, Tag, TagAll, TableOk, HeadAt, HeadOk, Flat;
    FirstHead(table);
    DrainIsStream(zstd, aes, table, HEADER_OFFSET, zstd.start, packed, true);
    var d := Drain(zstd, aes, table, HeadAt(table, HEADER_OFFSET), zstd.start, packed, true);
    var streamed := FeedReply(Tagged(table.decompressedSize, d.pieces), d.ok, Decoder(if d.ok then Stream else Broken, [], 0, table, d.head, d.z));
    Prepend(Emission(table.decompressedSize, copied), streamed, StreamOutcome(aes, table, HEADER_OFFSET, Inflate(zstd, zstd.start, packed, true)));
  }

  lemma ParsedIsOk(x: bytes)
    requires Parse(x).Ok?
    ensures TableOk(Parse(x).value)
  {
    hide Parse, Tiles;
    ParseAcceptsTilings(x);
  }

  /** Opening a complete table is its closed form. */
  lemma OpenIsItsOutcome<Z(!new)>(zstd: Zstd<Z>, aes: BlockCipher, z: Z, x: bytes)
    requires Sound(zstd) && HEADER_OFFSET <= |x|
    ensures Is(Open(zstd, aes, z, x), OpenOutcome(zstd, aes, z, x))
  {
    hide Unpack, Unpacked, Parse, TableOk, DecoderOk, Is;
    var r := Parse(x[HEADER_OFFSET..]);
    if r.Ok? {
      TableFits(x);
      ParsedIsOk(x[HEADER_OFFSET..]);
      UnpackIsUnpacked(zstd, aes, r.value, x[..HEADER_OFFSET], x[HEADER_OFFSET + r.value.headerBytes..]);
    } else {
      RefusedIsNothing(Break(Buffering(x, 0, z)), Buffering(x, 0, z));
    }
  }

  lemma RefusedIsNothing<Z>(d: Decoder<Z>, e: Decoder<Z>)
    ensures Is(FeedReply([], false, d), Outcome([], false, e))
  {
  }

  lemma OpenKeeps<Z(!new)>(zstd: Zstd<Z>, aes: BlockCipher, z: Z, x: bytes)
    requires Sound(zstd) && HEADER_OFFSET <= |x|
    ensures Open(zstd, aes, z, x).ok ==> DecoderOk(Open(zstd, aes, z, x).user) && Open(zstd, aes, z, x).user.phase.Stream?
  {
    hide Unpack, Unpacked, Parse, TableOk, DecoderOk, Is;
    var r := Parse(x[HEADER_OFFSET..]);
    if r.Ok? {
      TableFits(x);
      ParsedIsOk(x[HEADER_OFFSET..]);
      UnpackIsUnpacked(zstd, aes, r.value, x[..HEADER_OFFSET], x[HEADER_OFFSET + r.value.headerBytes..]);
    }
  }

  lemma Prepend<Z>(first: Emission, r: FeedReply<Decoder<Z>>, o: Outcome<Z>)
    requires Is(r, o) && first.data != []
    ensures Is(FeedReply([first] + r.emissions, r.ok, r.user), o.(sent := TagAll(first.size, first.data) + o.sent))
  {
    hide Tag;
    FlatAppend([first], r.emissions);
    assert Flat([first]) == Tag(first) + Flat([]) == Tag(first);
  }

  lemma AbsorbKeeps<Z(!new)>(zstd: Zstd<Z>, aes: BlockCipher, d: Decoder<Z>, data: bytes)
    requires Sound(zstd) && DecoderOk(d) && d.phase.Prelude?
    ensures var (r, used) := AbsorbPrelude(zstd, aes, d, data); r.ok ==> DecoderOk(r.user) && !r.user.phase.Broken?
  {
    hide Open, HeaderSizeFor;
    var used := Min(|data|, Want(d) - |d.prelude|);
    var x := d.prelude + data[..used];
    if |x| >= HEADER_OFFSET {
      OpenKeeps(zstd, aes, d.z, x);
    }
    if |d.prelude| >= HEADER_OFFSET + PREAMBLE_SIZE {
      NeedIsStable(d.prelude, data[..used]);
    }
  }

  lemma StreamKeeps<Z(!new)>(zstd: Zstd<Z>, aes: BlockCipher, d: Decoder<Z>, data: bytes)
    requires Sound(zstd) && DecoderOk(d) && d.phase.Stream?
    ensures var r := StreamFeed(zstd, aes, d, data); r.ok ==> DecoderOk(r.user) && r.user.phase.Stream?
  {
    hide Drain, TableOk, HeadAt, Is, StreamOutcome;
    DrainIsStream(zstd, aes, d.table, d.head.offset, d.z, data, false);
  }

  lemma WantFits<Z>(d: Decoder<Z>)
    requires DecoderOk(d) && d.phase.Prelude?
    ensures |d.prelude| < Want(d) <= PRELUDE_CAP
  {
    hide HeaderSizeFor;
    if |d.prelude| >= HEADER_OFFSET + PREAMBLE_SIZE {
      NeedIsStable(d.prelude, []);
    }
  }

  /** What must be buffered is known from the preamble and does not change as more arrives. */
  lemma NeedIsStable(x: bytes, more: bytes)
    requires HEADER_OFFSET + PREAMBLE_SIZE <= |x|
    ensures NeedFor(x + more) == NeedFor(x)
    ensures NeedFor(x) <= PRELUDE_CAP
  {
    assert (x + more)[HEADER_OFFSET..] == x[HEADER_OFFSET..] + more;
    ParsePrefix(x[HEADER_OFFSET..], more);
  }

  /** Feeding: the prelude first, then the decompressor. */
  function FeedEntry<Z(!new)>(zstd: Zstd<Z>, aes: BlockCipher, d: Decoder<Z>, data: bytes): (r: FeedReply<Decoder<Z>>)
    requires Sound(zstd) && DecoderOk(d)
    decreases |data|
  {
    if d.phase.Broken? then FeedReply([], false, d)
    else if data == [] then FeedReply([], true, d)
    else if d.phase.Prelude? then
      var (r, used) := AbsorbPrelude(zstd, aes, d, data);
      if !r.ok then r
      else
        AbsorbKeeps(zstd, aes, d, data);
        var rest := FeedEntry(zstd, aes, r.user, data[used..]);
        FeedReply(r.emissions + rest.emissions, rest.ok, rest.user)
    else
      StreamFeed(zstd, aes, d, data)
  }

  function StreamFeed<Z(!new)>(zstd: Zstd<Z>, aes: BlockCipher, d: Decoder<Z>, data: bytes): (r: FeedReply<Decoder<Z>>)
    requires Sound(zstd)
  {
    var x := Drain(zstd, aes, d.table, d.head, d.z, data, false);
    FeedReply(Tagged(d.table.decompressedSize, x.pieces), x.ok, d.(head := x.head, z := x.z, phase := if x.ok then Stream else Broken))
  }

  /** The end of an entry compares what has been rebuilt with what the table describes. */
  predicate EndsWell<Z>(d: Decoder<Z>) {
    !d.phase.Broken? && d.head.offset == d.table.decompressedSize
  }
}
