/**
 * The decoder an entry deserves: it hands on what the bytes mean as soon as they arrive, so it cannot tell how
 * they are cut. Any decompressor that reads by the same meaning follows it, at most some bytes behind.
 */
module NczIdeal {
  import opened Bytes
  import opened ChunkIndependence
  import opened InstallSpec
  import opened Ncz
  import opened NczDecode
  import opened NczRebuild
  import opened NczCuts

  /** What the payload so far means. */
  ghost function Meant<Z, Y>(zstd: Zstd<Z>, m: Meaning<Z, Y>, x: bytes): Option<(Y, bytes)> {
    Reads(m, m.core(zstd.start), Payload(x))
  }

  /** The entry so far is one a decoder could still be happy with. */
  ghost predicate Sane<Z, Y>(zstd: Zstd<Z>, m: Meaning<Z, Y>, x: bytes) {
    || EndsInPrelude(x)
    || (TableBuffered(x) && Parse(x[HEADER_OFFSET..]).Ok? && Meant(zstd, m, x).Some?
        && HEADER_OFFSET + |Meant(zstd, m, x).value.1| <= TableOf(x).decompressedSize)
  }

  /** All that can be known of the file so far, announced with its size. */
  ghost function Due<Z, Y>(zstd: Zstd<Z>, m: Meaning<Z, Y>, aes: BlockCipher, x: bytes): seq<(u64, byte)> {
    if TableBuffered(x) && Parse(x[HEADER_OFFSET..]).Ok? && Meant(zstd, m, x).Some? then
      TagAll(TableOf(x).decompressedSize, x[..HEADER_OFFSET] + Rebuilt(aes, TableOf(x), HEADER_OFFSET, Meant(zstd, m, x).value.1))
    else []
  }

  lemma PreludeOwesNothing<Z, Y>(zstd: Zstd<Z>, m: Meaning<Z, Y>, aes: BlockCipher, x: bytes)
    requires EndsInPrelude(x)
    ensures Due(zstd, m, aes, x) == [] && !TableBuffered(x)
  {
    hide NeedFor;
  }

  /** As the entry arrives, more becomes due and nothing that was due changes. */
  lemma DueGrows<Z, Y>(zstd: Zstd<Z>, m: Meaning<Z, Y>, aes: BlockCipher, x: bytes, b: bytes)
    requires Sane(zstd, m, x + b)
    ensures Sane(zstd, m, x) && Due(zstd, m, aes, x) <= Due(zstd, m, aes, x + b)
  {
    hide Parse, HeaderSizeFor, NeedFor, Rebuilt, TagAll, Reads, Payload, TableOf;
    if TableBuffered(x) {
      PayloadGrows(x, b);
      LongPrelude(x + b);
      ReadsBoth(m, m.core(zstd.start), Payload(x), b);
      var table, w, more := TableOf(x), Meant(zstd, m, x).value.1, Meant(zstd, m, x + b).value.1;
      var extra := more[|w|..];
      assert more == w + extra;
      RebuiltSplits(aes, table, HEADER_OFFSET, w, extra);
      var first, second := Rebuilt(aes, table, HEADER_OFFSET, w), Rebuilt(aes, table, HEADER_OFFSET + |w|, extra);
      assert x[..HEADER_OFFSET] + (first + second) == x[..HEADER_OFFSET] + first + second;
      TagAppend(table.decompressedSize, x[..HEADER_OFFSET] + first, second);
    } else {
      ShortGrows(x, b);
    }
  }

  lemma LongPrelude(x: bytes)
    requires TableBuffered(x)
    ensures !EndsInPrelude(x)
  {
    hide NeedFor;
  }

  /** An entry whose table is not there yet is short of it, or has no table. */
  lemma ShortGrows(x: bytes, b: bytes)
    requires !TableBuffered(x) && (EndsInPrelude(x + b) || TableBuffered(x + b))
    ensures EndsInPrelude(x)
  {
    hide HeaderSizeFor;
    if |x| >= HEADER_OFFSET + PREAMBLE_SIZE {
      NeedIsStable(x, b);
    }
  }

  // ----- the ideal decoder -----

  /** It keeps the whole entry so far and hands on what has become due. */
  ghost function IdealFeed<Z, Y>(zstd: Zstd<Z>, m: Meaning<Z, Y>, aes: BlockCipher, d: Decoder<Z>,
                                 data: bytes): FeedReply<Decoder<Z>> {
    var x := d.prelude + data;
    if !Sane(zstd, m, x) then FeedReply([], false, d)
    else
      DueGrows(zstd, m, aes, d.prelude, data);
      FeedReply(Bundle(Due(zstd, m, aes, x)[|Due(zstd, m, aes, d.prelude)|..]), true, d.(prelude := x))
  }

  /** One emission for bytes announced with one size. */
  ghost function Bundle(sent: seq<(u64, byte)>): seq<Emission> {
    if sent == [] then [] else [Emission(sent[0].0, seq(|sent|, i requires 0 <= i < |sent| => sent[i].1))]
  }

  ghost predicate OneSize(sent: seq<(u64, byte)>) {
    forall i :: 0 <= i < |sent| ==> sent[i].0 == sent[0].0
  }

  lemma BundleIsFlat(sent: seq<(u64, byte)>)
    requires OneSize(sent)
    ensures Flat(Bundle(sent)) == sent && NoEmptyEmission(Bundle(sent))
  {
    if sent != [] {
      var em := Bundle(sent)[0];
      assert Tag(em) == sent;
      assert Flat([em]) == Tag(em) + Flat([]) == Tag(em);
    }
  }

  lemma DueHasOneSize<Z, Y>(zstd: Zstd<Z>, m: Meaning<Z, Y>, aes: BlockCipher, x: bytes, n: nat)
    requires n <= |Due(zstd, m, aes, x)|
    ensures OneSize(Due(zstd, m, aes, x)[n..])
  {
    hide Rebuilt, Reads, Parse, Payload;
  }

  ghost predicate Ends<Z(!new), Y>(zstd: Zstd<Z>, m: Meaning<Z, Y>, aes: BlockCipher, x: bytes) {
    Rebuild(zstd, m, aes, x).Some? || EndsInPrelude(x)
  }

  ghost function IdealOps<Z(!new), Y>(zstd: Zstd<Z>, m: Meaning<Z, Y>, aes: BlockCipher): NczOps<Decoder<Z>> {
    NczOps(
      (d: Decoder<Z>) => Reply(true, Fresh(d)),
      (d: Decoder<Z>, data: bytes) => IdealFeed(zstd, m, aes, d, data),
      (d: Decoder<Z>) => Reply(Ends(zstd, m, aes, d.prelude), d),
      (d: Decoder<Z>) => TableOf(d.prelude).decompressedSize)
  }

  lemma IdealReply<Z(!new), Y>(zstd: Zstd<Z>, m: Meaning<Z, Y>, aes: BlockCipher, d: Decoder<Z>, data: bytes)
    ensures var r := IdealOps(zstd, m, aes).feed(d, data);
            && NoEmptyEmission(r.emissions)
            && (r.ok <==> Sane(zstd, m, d.prelude + data))
            && (r.ok ==> && Sane(zstd, m, d.prelude) && r.user == d.(prelude := d.prelude + data)
                         && Due(zstd, m, aes, d.prelude + data) == Due(zstd, m, aes, d.prelude) + Flat(r.emissions))
  {
    hide Sane, Due, Bundle, Flat;
    var x := d.prelude + data;
    if Sane(zstd, m, x) {
      DueGrows(zstd, m, aes, d.prelude, data);
      DueHasOneSize(zstd, m, aes, x, |Due(zstd, m, aes, d.prelude)|);
      BundleIsFlat(Due(zstd, m, aes, x)[|Due(zstd, m, aes, d.prelude)|..]);
    }
  }

  lemma IdealIsCutFree<Z(!new), Y>(zstd: Zstd<Z>, m: Meaning<Z, Y>, aes: BlockCipher)
    ensures CutFreeDecoder(IdealOps(zstd, m, aes))
  {
    hide Sane, Due, Flat, IdealOps;
    var ops := IdealOps(zstd, m, aes);
    forall d: Decoder<Z>, a: bytes, b: bytes
      ensures FeedSplits(ops, d, a, b)
    {
      assert d.prelude + a + b == d.prelude + (a + b);
      IdealReply(zstd, m, aes, d, a);
      IdealReply(zstd, m, aes, d, a + b);
      IdealReply(zstd, m, aes, ops.feed(d, a).user, b);
      if Sane(zstd, m, d.prelude + a + b) {
        DueGrows(zstd, m, aes, d.prelude + a, b);
        Cancel(Due(zstd, m, aes, d.prelude), Flat(ops.feed(d, a + b).emissions), Flat(ops.feed(d, a).emissions), Flat(ops.feed(ops.feed(d, a).user, b).emissions));
      }
    }
    forall d: Decoder<Z>, a: bytes
      ensures NoEmptyEmission(ops.feed(d, a).emissions)
    {
      IdealReply(zstd, m, aes, d, a);
    }
  }

  lemma Cancel<T>(so: seq<T>, all: seq<T>, first: seq<T>, second: seq<T>)
    requires so + all == so + first + second
    ensures all == first + second
  {
    assert (so + all)[|so|..] == all && (so + first + second)[|so|..] == first + second;
  }

  // ----- how far behind a decoder may be -----

  /** What a real decoder has sent for these feeds is due, and a decoder that has failed has met something insane. */
  lemma SentIsDue<Z(!new), Y>(zstd: Zstd<Z>, m: Meaning<Z, Y>, aes: BlockCipher, z: Z, feeds: seq<bytes>, rest: bytes)
    requires Sound(zstd) && Steady(zstd, m) && Local(zstd) && NothingFollows(zstd, m, Payload(Joined(feeds) + rest))
    ensures var o := EntryOutcome(zstd, aes, z, feeds);
            Sane(zstd, m, Joined(feeds)) ==> o.ok && o.sent <= Due(zstd, m, aes, Joined(feeds))
  {
    hide Local, Steady, Made, Joined, Parse, HeaderSizeFor, NeedFor, Reads, NothingFollows, Rebuilt, TagAll, HeadAt, Payload;
    HistoryIsEntry(feeds);
    var h, x := HistoryOf(feeds), Joined(feeds);
    if Sane(zstd, m, x) && h.Opened? {
      TableStays(h.x, Joined(h.feeds));
      LongPrelude(x);
      PayloadGrows(h.x, Joined(h.feeds));
      PayloadGrows(x, rest);
      MadeMeans(zstd, m, Payload(x + rest), Payload(h.x), h.feeds);
      var f, w, table := MadeBehind(zstd, h.x, h.feeds), Meant(zstd, m, x).value.1, TableOf(x);
      OutAndHeld(zstd, m, Payload(x), f);
      var held := m.held(f.z);
      RebuiltSplits(aes, table, HEADER_OFFSET, f.out, held);
      var first, second := Rebuilt(aes, table, HEADER_OFFSET, f.out), Rebuilt(aes, table, HEADER_OFFSET + |f.out|, held);
      assert x[..HEADER_OFFSET] + (first + second) == x[..HEADER_OFFSET] + first + second;
      TagAppend(table.decompressedSize, x[..HEADER_OFFSET], first);
      TagAppend(table.decompressedSize, x[..HEADER_OFFSET] + first, second);
    } else if Sane(zstd, m, x) {
      AlongCases(zstd, aes, z, feeds);
      NotOpened(zstd, m, aes, z, feeds);
    }
  }

  lemma OutAndHeld<Z(!new), Y>(zstd: Zstd<Z>, m: Meaning<Z, Y>, data: bytes, f: Inflation<Z>)
    requires Steady(zstd, m) && Means(m, zstd.start, data, f) && Reads(m, m.core(zstd.start), data).Some?
    ensures f.ok && f.out + m.held(f.z) == Reads(m, m.core(zstd.start), data).value.1
  {
    hide Reads, SteadyStep;
    var w := Reads(m, m.core(zstd.start), data).value.1;
    assert [] + w == w;
  }

  /** Where nothing is held back, a real decoder has sent all that is due, if it could go well at all. */
  lemma AllIsSent<Z(!new), Y>(zstd: Zstd<Z>, m: Meaning<Z, Y>, aes: BlockCipher, z: Z, feeds: seq<bytes>, rest: bytes)
    requires Sound(zstd) && Steady(zstd, m) && Local(zstd) && NothingFollows(zstd, m, Payload(Joined(feeds) + rest))
    requires Sane(zstd, m, Joined(feeds)) && HeldBack(zstd, m, feeds) == []
    ensures EntryOutcome(zstd, aes, z, feeds).sent == Due(zstd, m, aes, Joined(feeds))
  {
    hide Local, Steady, Made, Joined, Parse, HeaderSizeFor, NeedFor, Reads, NothingFollows, Rebuilt, TagAll, HeadAt, Payload;
    HistoryIsEntry(feeds);
    var h, x := HistoryOf(feeds), Joined(feeds);
    if h.Opened? {
      TableStays(h.x, Joined(h.feeds));
      LongPrelude(x);
      PayloadGrows(h.x, Joined(h.feeds));
      PayloadGrows(x, rest);
      MadeMeans(zstd, m, Payload(x + rest), Payload(h.x), h.feeds);
      var f, table := MadeBehind(zstd, h.x, h.feeds), TableOf(x);
      OutAndHeld(zstd, m, Payload(x), f);
      assert f.out + [] == f.out;
      TagAppend(table.decompressedSize, x[..HEADER_OFFSET], Rebuilt(aes, table, HEADER_OFFSET, f.out));
    } else {
      NotOpened(zstd, m, aes, z, feeds);
    }
  }

  /** When a clean entry is over nothing is held back, and a decoder that has not failed has met nothing insane. */
  lemma CleanHoldsNothing<Z(!new), Y>(zstd: Zstd<Z>, m: Meaning<Z, Y>, aes: BlockCipher, z: Z, feeds: seq<bytes>)
    requires Sound(zstd) && Steady(zstd, m) && Local(zstd) && Clean(zstd, m, Joined(feeds))
    ensures Sane(zstd, m, Joined(feeds)) ==> HeldBack(zstd, m, feeds) == []
    ensures EntryOutcome(zstd, aes, z, feeds).ok ==> Sane(zstd, m, Joined(feeds))
  {
    hide Local, Steady, Made, Joined, Parse, HeaderSizeFor, NeedFor, Reads, NothingFollows, Payload, HandedOut,
      Rebuilt, TagAll, HeadAt;
    HistoryIsEntry(feeds);
    var h, x := HistoryOf(feeds), Joined(feeds);
    if h.Opened? {
      TableStays(h.x, Joined(h.feeds));
      LongPrelude(x);
      PayloadGrows(h.x, Joined(h.feeds));
      if Parse(h.x[HEADER_OFFSET..]).Ok? {
        MadeMeans(zstd, m, Payload(x), Payload(h.x), h.feeds);
        WholeIsOut(zstd, m, Payload(x), MadeBehind(zstd, h.x, h.feeds));
      }
    }
  }

  lemma NotOpened<Z(!new), Y>(zstd: Zstd<Z>, m: Meaning<Z, Y>, aes: BlockCipher, z: Z, feeds: seq<bytes>)
    requires Sound(zstd) && HistoryOf(feeds).Closed? && !TableBuffered(Joined(feeds))
    ensures EntryOutcome(zstd, aes, z, feeds).sent == [] == Due(zstd, m, aes, Joined(feeds))
  {
    hide Joined, NeedFor;
  }
}
