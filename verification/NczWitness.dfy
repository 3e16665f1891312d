/**
 * Compressed entries and decompressors for which cutting matters: the concrete runs behind the condition on
 * silent frame ends and behind the one on output that is held back.
 */
module NczWitness {
  import opened Bytes
  import opened ChunkIndependence
  import opened InstallSpec
  import opened Ncz
  import opened NczDecode
  import opened NczRebuild
  import opened NczCuts

  // ----- the entry -----

  /** A table of one plain section of 16 bytes, and the eight bytes of payload that are buffered with it. */
  function TableFields(first: byte): seq<bytes> {
    [SECTION_MAGIC, Le(1, 8), Le(HEADER_OFFSET, 8), Le(16, 8), Le(0, 8), Zeros(0x20), [first] + Zeros(7)]
  }

  function SampleTable(first: byte): bytes {
    Joined(TableFields(first))
  }

  lemma TableSlices(first: byte)
    ensures var t := SampleTable(first);
            && |t| == 80 && t[0..8] == SECTION_MAGIC && t[8..16] == Le(1, 8) && t[16..24] == Le(HEADER_OFFSET, 8)
            && t[24..32] == Le(16, 8) && t[32..40] == Le(0, 8) && t[72..80] == [first] + Zeros(7)
  {
    hide Le, Zeros, Joined;
    var f := TableFields(first);
    assert FieldOff(f, 1) == 8;
    assert FieldOff(f, 2) == 16;
    assert FieldOff(f, 3) == 24;
    assert FieldOff(f, 4) == 32;
    assert FieldOff(f, 5) == 40;
    assert FieldOff(f, 6) == 72;
    assert FieldOff(f, 7) == 80;
    FieldsLength(f);
    FieldAt(f, 0);
    FieldAt(f, 1);
    FieldAt(f, 2);
    FieldAt(f, 3);
    FieldAt(f, 4);
    FieldAt(f, 6);
  }

  lemma TableParses(first: byte)
    requires first < 2
    ensures HeaderSizeFor(SampleTable(first)) == 72
    ensures var r := Parse(SampleTable(first)); r.Ok? && r.value.headerBytes == 72 && r.value.decompressedSize == HEADER_OFFSET + 16
  {
    hide Le, RdLe, SampleTable;
    TableSlices(first);
    var t := SampleTable(first);
    U64At(t, 8, 1);
    U64At(t, 16, HEADER_OFFSET);
    U64At(t, 24, 16);
    U64At(t, 32, 0);
    assert TableSize(1) == 72;
    assert t[72..80] != BLOCK_MAGIC by { assert ([first] + Zeros(7))[0] == first; }
    var s := SectionFields(t, 0);
    assert CheckSection(s, HEADER_OFFSET) == Ok(HEADER_OFFSET + 16);
    assert ParseSections(t, 1, 1, HEADER_OFFSET + 16) == Ok(([], HEADER_OFFSET + 16));
  }

  function SampleEntry(first: byte): bytes {
    Zeros(HEADER_OFFSET) + SampleTable(first)
  }

  lemma EntryParses(first: byte)
    requires first < 2
    ensures var x := SampleEntry(first);
            && TableBuffered(x) && Parse(x[HEADER_OFFSET..]).Ok? && |x| < PRELUDE_CAP && |x| == NeedFor(x)
            && Payload(x) == [first] + Zeros(7) && TableOf(x).decompressedSize == HEADER_OFFSET + 16
  {
    hide Parse, HeaderSizeFor, SampleTable, Zeros;
    var x := SampleEntry(first);
    assert x[HEADER_OFFSET..] == SampleTable(first);
    TableParses(first);
    TableSlices(first);
    assert SampleTable(first)[72..] == [first] + Zeros(7);
  }

  lemma HistoryOfOne(x: bytes)
    requires TableBuffered(x) && |x| < PRELUDE_CAP
    ensures HistoryOf([x]) == Opened(x, [[]])
  {
    hide TableBuffered, NeedFor;
    HistoryMore([], x);
    assert [] + [x] == [x] && [] + x == x;
    assert x[..|x|] == x && x[|x|..] == [];
  }

  /** The entry in one feed, and then the rest of its payload. */
  lemma {:induction false} HistoryAfter(x: bytes, fs: seq<bytes>)
    requires TableBuffered(x) && |x| < PRELUDE_CAP
    ensures HistoryOf([x] + fs) == Opened(x, [[]] + fs)
    decreases |fs|
  {
    hide HistoryOf, TableBuffered, NeedFor;
    if fs == [] {
      HistoryOfOne(x);
      var empty: seq<bytes> := [[]];
      assert [x] + [] == [x] && empty + [] == empty;
    } else {
      var n := |fs| - 1;
      HistoryAfter(x, fs[..n]);
      HistoryMore([x] + fs[..n], fs[n]);
      LastBehind(x, fs);
      LastBehind([], fs);
    }
  }

  /** An empty feed makes nothing. */
  lemma {:induction false} EmptyFirst<Z(!new)>(zstd: Zstd<Z>, packed: bytes, fs: seq<bytes>)
    requires Sound(zstd)
    ensures Made(zstd, packed, [[]] + fs) == Made(zstd, packed, fs)
    decreases |fs|
  {
    hide Inflate, Running, Made;
    if fs == [] {
      MadeMore(zstd, packed, [], []);
      var empty: seq<bytes> := [[]];
      assert [] + empty == empty && empty + [] == empty;
      var f := Made(zstd, packed, []);
      assert Inflate(zstd, f.z, [], false) == Inflation([], true, f.z) by { InflateNothing(zstd, f.z); }
      assert f.out + [] == f.out;
    } else {
      var n := |fs| - 1;
      EmptyFirst(zstd, packed, fs[..n]);
      MadeMore(zstd, packed, [[]] + fs[..n], fs[n]);
      MadeMore(zstd, packed, fs[..n], fs[n]);
      LastBehind([], fs);
    }
  }

  lemma LastBehind<T>(first: T, s: seq<T>)
    requires s != []
    ensures var n := |s| - 1; [first] + s[..n] + [s[n]] == [first] + s && s[..n] + [s[n]] == s
  {
  }

  lemma InflateNothing<Z(!new)>(zstd: Zstd<Z>, z: Z)
    requires Sound(zstd)
    ensures Inflate(zstd, z, [], false) == Inflation([], true, z)
  {
  }

  /** Fed the entry and then the rest, the decoder ends well exactly when sixteen bytes have been made. */
  lemma SampleEnds<Z(!new)>(zstd: Zstd<Z>, aes: BlockCipher, d: Decoder<Z>, first: byte, fs: seq<bytes>)
    requires Sound(zstd) && first < 2
    ensures var r := FeedChunks(DecoderOps(zstd, aes), Fresh(d), [SampleEntry(first)] + fs);
            var f := Made(zstd, [first] + Zeros(7), fs);
            r.ok && EndsWell(r.user) <==> f.ok && |f.out| == 16
  {
    hide SampleEntry, Made, FeedChunks, Parse, HeaderSizeFor, NeedFor, Rebuilt, Zeros, EntryOutcome, Flat, Joined;
    var x := SampleEntry(first);
    EntryParses(first);
    HistoryAfter(x, fs);
    EmptyFirst(zstd, Payload(x), fs);
    EveryCutRebuilds(zstd, aes, d, [x] + fs);
    HistoryIsEntry([x] + fs);
    NotInPrelude(Joined([x] + fs), x, Joined([[]] + fs));
  }

  lemma NotInPrelude(all: bytes, x: bytes, rest: bytes)
    requires TableBuffered(x) && all == x + rest
    ensures !EndsInPrelude(all)
  {
    hide HeaderSizeFor;
    NeedIsStable(x, rest);
  }

  // ----- bytes behind the end of a frame -----

  /** One byte a step: a one makes sixteen bytes, a zero ends a frame, a seven is an error. */
  function PickyStep(input: bytes): Inflated<()> {
    if input == [] then Inflated(0, [], false, true, ())
    else Inflated(1, if input[0] == 1 then Zeros(16) else [], input[0] == 0, input[0] == 7, ())
  }

  const Picky: Zstd<()> := Zstd((), (z: (), input: bytes) => PickyStep(input), z => 0)

  lemma PickyIsSound()
    ensures Sound(Picky)
  {
  }

  lemma PickyIsLocal()
    ensures Local(Picky)
  {
    forall z: (), input: bytes, n: nat | 0 < n <= |input|
      ensures LocalStep(Picky, z, input, n)
    {
      assert input[..n][0] == input[0];
    }
  }

  /** Running on over zeros comes to nothing. */
  lemma {:induction false} PickyRuns(n: nat)
    ensures Sound(Picky)
    ensures Inflate(Picky, (), Zeros(n), true) == Inflation([], true, ())
    decreases n
  {
    PickyIsSound();
    if n > 0 {
      PickyRuns(n - 1);
      assert Zeros(n)[1..] == Zeros(n - 1);
    }
  }

  lemma PickyStarts()
    ensures Sound(Picky) && Running(Picky, [1] + Zeros(7)) == Inflation(Zeros(16), true, ())
  {
    PickyIsSound();
    PickyRuns(7);
    assert ([1] + Zeros(7))[1..] == Zeros(7) && Zeros(16) + [] == Zeros(16);
  }

  lemma PickyStops()
    ensures Sound(Picky)
    ensures Inflate(Picky, (), [0, 7], false) == Inflation([], true, ())
    ensures Inflate(Picky, (), [0], false) == Inflation([], true, ())
    ensures Inflate(Picky, (), [7], false) == Inflation([], false, ())
  {
    PickyIsSound();
  }

  /**
   * The same entry, cut differently: when a byte that is no frame arrives in one buffer with the end of the
   * last frame it is dropped and the file is rebuilt; when it arrives alone the entry is refused.
   */
  lemma CutsDecide(aes: BlockCipher, d: Decoder<()>)
    ensures Sound(Picky) && Local(Picky)
    ensures var ops, x := DecoderOps(Picky, aes), SampleEntry(1);
            var one, two := FeedChunks(ops, Fresh(d), [x] + [[0, 7]]), FeedChunks(ops, Fresh(d), [x] + [[0], [7]]);
            && one.ok && EndsWell(one.user)
            && !(two.ok && EndsWell(two.user))
  {
    hide FeedChunks, SampleEntry, Inflate, Zeros;
    PickyIsSound();
    PickyIsLocal();
    PickyStarts();
    PickyStops();
    SampleEnds(Picky, aes, d, 1, [[0, 7]]);
    SampleEnds(Picky, aes, d, 1, [[0], [7]]);
    var p := [1] + Zeros(7);
    MadeMore(Picky, p, [], [0, 7]);
    MadeMore(Picky, p, [], [0]);
    MadeMore(Picky, p, [[0]], [7]);
    assert [] + [[0, 7]] == [[0, 7]] && [] + [[0]] == [[0]] && [[0]] + [[7]] == [[0], [7]];
    assert |Zeros(16) + []| == 16 by { SixteenZeros(); }
  }

  lemma SixteenZeros()
    ensures |Zeros(16)| == 16
  {
  }

  // ----- output that is held back -----

  function Word(z: Option<byte>, input: bytes): bytes {
    (if z.Some? then [z.value] else []) + input
  }

  /** Up to sixteen bytes a step, each meaning itself; the last of several is held back. */
  function StingyStep(z: Option<byte>, input: bytes): Inflated<Option<byte>> {
    var n := Min(|input|, 16);
    var w := Word(z, input[..n]);
    if n == 0 then Inflated(0, [], false, true, z)
    else if n == 1 then Inflated(1, w, false, false, None)
    else Inflated(n, w[..|w| - 1], false, false, Some(w[|w| - 1]))
  }

  const Stingy: Zstd<Option<byte>> := Zstd(None, (z: Option<byte>, input: bytes) => StingyStep(z, input), z => 0)

  const Itself: Meaning<Option<byte>, ()> := Meaning(
    (z: Option<byte>) => (),
    (z: Option<byte>) => Word(z, []),
    (y: (), b: byte) => Some(((), [b])),
    (y: ()) => false)

  lemma {:induction false} ReadsItself(data: bytes)
    ensures Reads(Itself, (), data) == Some(((), data))
    decreases |data|
  {
    if data != [] {
      ReadsItself(data[1..]);
      assert [data[0]] + data[1..] == data;
    }
  }

  lemma StingyIsSound()
    ensures Sound(Stingy)
  {
  }

  lemma StingyIsSteady()
    ensures Steady(Stingy, Itself) && Local(Stingy)
  {
    hide Reads;
    forall z: Option<byte>, input: bytes | input != []
      ensures SteadyStep(Stingy, Itself, z, input)
    {
      var n := Min(|input|, 16);
      ReadsItself(input[..n]);
      var w := Word(z, input[..n]);
      assert Word(z, []) + input[..n] == w;
      assert n > 1 ==> w == w[..|w| - 1] + [w[|w| - 1]];
    }
    forall z: Option<byte>, input: bytes, n: nat | 0 < n <= |input|
      ensures LocalStep(Stingy, z, input, n)
    {
      assert Min(|input|, 16) <= n ==> input[..n][..Min(|input|, 16)] == input[..Min(|input|, 16)];
    }
  }

  /** It never ends a frame, so no feed ever drops a byte. */
  lemma {:induction false} StingyDropsNothing(z: Option<byte>, input: bytes)
    ensures Sound(Stingy) && LeftOver(Stingy, z, input).None?
    decreases |input|
  {
    StingyIsSound();
    if input != [] {
      StingyDropsNothing(Stingy.step(z, input).z, input[Stingy.step(z, input).used..]);
    }
  }

  lemma StingyFollows(p: bytes)
    ensures Sound(Stingy) && NothingFollows(Stingy, Itself, p)
  {
    hide LeftOver, Made;
    StingyIsSound();
    forall packed, feeds, chunk | MAGIC_SIZE <= |packed| && packed + Joined(feeds) + chunk <= p
      ensures KeepsAll(Stingy, Itself, packed, feeds, chunk)
    {
      StingyDropsNothing(Made(Stingy, packed, feeds).z, chunk);
    }
  }

  /** A short buffer takes one step. */
  lemma StingyInflates(z: Option<byte>, input: bytes, toTheEnd: bool)
    requires 0 < |input| <= 16
    ensures Sound(Stingy)
    ensures var r := StingyStep(z, input); Inflate(Stingy, z, input, toTheEnd) == Inflation(r.out, true, r.z)
  {
    StingyIsSound();
    var r := StingyStep(z, input);
    assert input[r.used..] == [];
    assert r.out + [] == r.out;
  }

  /**
   * An entry whose payload means exactly the file its table describes, for a decompressor whose output depends on
   * the bytes alone: fed in one piece the last byte is held back and the entry is refused as too short; with the
   * last byte fed alone the file is rebuilt. All that differs is what is held back when the entry ends.
   */
  lemma HeldBackDecides(aes: BlockCipher, d: Decoder<Option<byte>>)
    ensures Sound(Stingy) && Steady(Stingy, Itself) && Local(Stingy) && AllCutsAgree(Stingy, Itself, Payload(SampleEntry(0) + Zeros(8)))
    ensures Rebuild(Stingy, Itself, aes, SampleEntry(0) + Zeros(8)).Some?
    ensures var ops, x := DecoderOps(Stingy, aes), SampleEntry(0);
            var one, two := FeedChunks(ops, Fresh(d), [x] + [Zeros(8)]), FeedChunks(ops, Fresh(d), [x] + [Zeros(7), [0]]);
            && !(one.ok && EndsWell(one.user))
            && two.ok && EndsWell(two.user)
  {
    hide FeedChunks, SampleEntry, Inflate, Made, Payload, TableBuffered, Parse, Reads;
    StingyIsSound();
    StingyIsSteady();
    var x := SampleEntry(0);
    StingyFollows(Payload(x + Zeros(8)));
    CutsAgreeIffNothingFollows(Stingy, Itself, Payload(x + Zeros(8)));
    EntryParses(0);
    PayloadGrows(x, Zeros(8));
    ReadsItself(Payload(x + Zeros(8)));
    SampleEnds(Stingy, aes, d, 0, [Zeros(8)]);
    SampleEnds(Stingy, aes, d, 0, [Zeros(7), [0]]);
    StingyMakes();
  }

  lemma StingyMakes()
    ensures Sound(Stingy)
    ensures |Made(Stingy, [0] + Zeros(7), [Zeros(8)]).out| == 15
    ensures var f := Made(Stingy, [0] + Zeros(7), [Zeros(7), [0]]); f.ok && |f.out| == 16
  {
    hide Inflate, Made, Zeros;
    StingyIsSound();
    var p := [0] + Zeros(7);
    assert |Zeros(7)| == 7 && |Zeros(8)| == 8 by { ZerosLong(); }
    MadeMore(Stingy, p, [], Zeros(8));
    MadeMore(Stingy, p, [], Zeros(7));
    MadeMore(Stingy, p, [Zeros(7)], [0]);
    assert [] + [Zeros(8)] == [Zeros(8)] && [] + [Zeros(7)] == [Zeros(7)] && [Zeros(7)] + [[0]] == [Zeros(7), [0]];
    MadeNothing(Stingy, p);
    StingyInflates(None, p, true);
    var z := StingyStep(None, p).z;
    StingyInflates(z, Zeros(8), false);
    StingyInflates(z, Zeros(7), false);
    StingyInflates(StingyStep(z, Zeros(7)).z, [0], false);
  }

  lemma ZerosLong()
    ensures |Zeros(7)| == 7 && |Zeros(8)| == 8
  {
  }

  lemma MadeNothing<Z(!new)>(zstd: Zstd<Z>, packed: bytes)
    requires Sound(zstd)
    ensures Made(zstd, packed, []) == Inflate(zstd, zstd.start, packed, true)
  {
  }
}
