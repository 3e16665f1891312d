/**
 * What the rebuilding of a compressed entry amounts to, for every way of cutting the entry into feeds
 * and for every way the decompressor cuts its output.
 */
module NczRebuild {
  import opened Bytes
  import opened ChunkIndependence
  import opened InstallSpec
  import opened Ncz
  import opened NczDecode

  // ----- the payload of an entry -----

  ghost predicate TableBuffered(x: bytes) {
    HEADER_OFFSET + PREAMBLE_SIZE <= |x| && 0 < NeedFor(x) <= |x|
  }

  /** The section table of an entry whose table has arrived. */
  ghost function TableOf(x: bytes): Table {
    if TableBuffered(x) && Parse(x[HEADER_OFFSET..]).Ok? then Parse(x[HEADER_OFFSET..]).value else NO_TABLE
  }

  /** What lies behind the table. */
  ghost function Payload(x: bytes): bytes {
    if TableBuffered(x) && Parse(x[HEADER_OFFSET..]).Ok? then
      TableFits(x);
      x[HEADER_OFFSET + TableOf(x).headerBytes..]
    else []
  }

  /** More bytes behind a buffered table only add to the payload; its first bytes were buffered along with the table. */
  lemma PayloadGrows(x: bytes, b: bytes)
    requires TableBuffered(x)
    ensures TableBuffered(x + b) && TableOf(x + b) == TableOf(x)
    ensures Parse((x + b)[HEADER_OFFSET..]) == Parse(x[HEADER_OFFSET..])
    ensures var r := Parse(x[HEADER_OFFSET..]);
            if r.Ok? then
              && Payload(x + b) == Payload(x) + b && MAGIC_SIZE <= |Payload(x)| && HEADER_OFFSET <= r.value.decompressedSize
              && (x + b)[..HEADER_OFFSET] == x[..HEADER_OFFSET] && HEADER_OFFSET + r.value.headerBytes <= |x|
            else Payload(x + b) == Payload(x) == []
  {
    hide Parse, HeaderSizeFor, NeedFor;
    TableStays(x, b);
    if Parse(x[HEADER_OFFSET..]).Ok? {
      TableIsBehind(x);
      assert (x + b)[..HEADER_OFFSET] == x[..HEADER_OFFSET];
      BehindGrows(x, b, HEADER_OFFSET + TableOf(x).headerBytes);
    }
  }

  lemma TableStays(x: bytes, b: bytes)
    requires TableBuffered(x)
    ensures TableBuffered(x + b) && Parse((x + b)[HEADER_OFFSET..]) == Parse(x[HEADER_OFFSET..])
  {
    hide Parse, HeaderSizeFor;
    var y := x[HEADER_OFFSET..];
    assert (x + b)[HEADER_OFFSET..] == y + b;
    ParsePrefix(y, b);
  }

  lemma TableIsBehind(x: bytes)
    requires TableBuffered(x) && Parse(x[HEADER_OFFSET..]).Ok?
    ensures var table := Parse(x[HEADER_OFFSET..]).value;
            HEADER_OFFSET + table.headerBytes + MAGIC_SIZE <= |x| && HEADER_OFFSET <= table.decompressedSize
  {
    hide Parse, HeaderSizeFor, Tiles;
    var y := x[HEADER_OFFSET..];
    ParseAcceptsTilings(y);
    TilesGrow(Parse(y).value.sections, HEADER_OFFSET, Parse(y).value.decompressedSize);
  }

  lemma BehindGrows(x: bytes, b: bytes, n: nat)
    requires n <= |x|
    ensures (x + b)[n..] == x[n..] + b
  {
  }

  lemma NeedIsPast(x: bytes)
    requires HEADER_OFFSET + PREAMBLE_SIZE <= |x| && NeedFor(x) > 0
    ensures NeedFor(x) >= HEADER_OFFSET + PREAMBLE_SIZE
  {
  }

  // ----- what a cut entry makes -----

  /** What a buffer makes and then one feed after another, up to the first that fails. */
  ghost function Made<Z(!new)>(zstd: Zstd<Z>, packed: bytes, feeds: seq<bytes>): Inflation<Z>
    requires Sound(zstd)
  {
    if feeds == [] then Running(zstd, packed)
    else
      var n := |feeds| - 1;
      var f := Made(zstd, packed, feeds[..n]);
      if !f.ok then f
      else
        var g := Inflate(zstd, f.z, feeds[n], false);
        Inflation(f.out + g.out, g.ok, g.z)
  }

  lemma MadeMore<Z(!new)>(zstd: Zstd<Z>, packed: bytes, feeds: seq<bytes>, c: bytes)
    requires Sound(zstd)
    ensures var f, whole := Made(zstd, packed, feeds), Made(zstd, packed, feeds + [c]);
            if f.ok then
              var g := Inflate(zstd, f.z, c, false);
              whole == Inflation(f.out + g.out, g.ok, g.z)
            else whole == f
  {
    hide Inflate, Running;
    var n := |feeds|;
    assert (feeds + [c])[..n] == feeds && (feeds + [c])[n] == c;
  }

  /** How an entry that arrives in feeds stands: still short of its table, or opened on `x` and fed on. */
  datatype History = Closed | Opened(x: bytes, feeds: seq<bytes>)

  /** How many bytes of a chunk are buffered behind `before`. */
  function Taken(before: bytes, chunk: bytes): (n: nat)
    ensures n <= |chunk|
  {
    var want := if |before| < HEADER_OFFSET + PREAMBLE_SIZE then PRELUDE_CAP else NeedFor(before);
    Max(0, Min(|chunk|, want - |before|))
  }

  ghost function HistoryOf(feeds: seq<bytes>): History {
    if feeds == [] then Closed
    else
      var n := |feeds| - 1;
      NextHistory(HistoryOf(feeds[..n]), Joined(feeds[..n]), feeds[n])
  }

  ghost function NextHistory(h: History, before: bytes, chunk: bytes): History {
    match h
    case Opened(x, feeds) => Opened(x, feeds + [chunk])
    case Closed =>
      if TableBuffered(before + chunk) then Opened(before + chunk[..Taken(before, chunk)], [chunk[Taken(before, chunk)..]])
      else Closed
  }

  lemma HistoryMore(feeds: seq<bytes>, c: bytes)
    ensures HistoryOf(feeds + [c]) == NextHistory(HistoryOf(feeds), Joined(feeds), c)
    ensures Joined(feeds + [c]) == Joined(feeds) + c
  {
    hide NextHistory;
    var n := |feeds|;
    assert (feeds + [c])[..n] == feeds && (feeds + [c])[n] == c;
    JoinedAppend(feeds, [c]);
    assert Joined([c]) == c + Joined([]) == c;
  }

  /** What has been buffered and fed on is the entry, and it was opened on a whole table. */
  lemma {:induction false} HistoryIsEntry(feeds: seq<bytes>)
    ensures match HistoryOf(feeds)
            case Closed => !TableBuffered(Joined(feeds))
            case Opened(x, fs) => TableBuffered(x) && x + Joined(fs) == Joined(feeds)
    decreases |feeds|
  {
    hide NextHistory, TableBuffered, NeedFor;
    if feeds == [] {
      assert !TableBuffered([]) by { ShortHasNoTable([]); }
    } else {
      var n := |feeds| - 1;
      assert feeds == feeds[..n] + [feeds[n]];
      HistoryMore(feeds[..n], feeds[n]);
      HistoryIsEntry(feeds[..n]);
      NextIsEntry(HistoryOf(feeds[..n]), Joined(feeds[..n]), feeds[n]);
    }
  }

  lemma ShortHasNoTable(x: bytes)
    requires |x| < HEADER_OFFSET + PREAMBLE_SIZE
    ensures !TableBuffered(x)
  {
  }

  lemma NextIsEntry(h: History, before: bytes, chunk: bytes)
    requires match h
             case Closed => !TableBuffered(before)
             case Opened(x, fs) => TableBuffered(x) && x + Joined(fs) == before
    ensures match NextHistory(h, before, chunk)
            case Closed => !TableBuffered(before + chunk)
            case Opened(x, fs) => TableBuffered(x) && x + Joined(fs) == before + chunk
  {
    hide HeaderSizeFor;
    match h
    case Opened(x, fs) =>
      JoinedAppend(fs, [chunk]);
      assert Joined([chunk]) == chunk + Joined([]) == chunk;
      assert x + (Joined(fs) + chunk) == before + chunk;
    case Closed =>
      if TableBuffered(before + chunk) {
        var n := Taken(before, chunk);
        assert Joined([chunk[n..]]) == chunk[n..] + Joined([]) == chunk[n..];
        assert before + chunk[..n] + chunk[n..] == before + chunk;
        OpensOnTable(before, chunk);
      }
  }

  /** As soon as the whole table is there, so much of the chunk is taken that it is buffered. */
  lemma OpensOnTable(before: bytes, chunk: bytes)
    requires !TableBuffered(before) && TableBuffered(before + chunk)
    ensures TableBuffered(before + chunk[..Taken(before, chunk)])
  {
    hide HeaderSizeFor, NeedFor;
    var n := Taken(before, chunk);
    var x := before + chunk[..n];
    assert x + chunk[n..] == before + chunk;
    if |before| >= HEADER_OFFSET + PREAMBLE_SIZE {
      NeedIsStable(before, chunk);
      NeedIsStable(before, chunk[..n]);
    } else {
      NeedIsPast(before + chunk);
      NeedIsStable(before + chunk, []);
      assert before + chunk + [] == before + chunk;
      if n < |chunk| {
        NeedIsStable(x, chunk[n..]);
      } else {
        assert chunk[..n] == chunk;
      }
    }
  }

  /** A decoder that has buffered `x` and has no whole table yet. */
  ghost function PreludeOutcome<Z>(z: Z, x: bytes): Outcome<Z> {
    if |x| < HEADER_OFFSET + PREAMBLE_SIZE then Outcome([], true, Buffering(x, 0, z))
    else if NeedFor(x) == 0 then Outcome([], false, Buffering(x, 0, z))
    else Outcome([], true, Buffering(x, NeedFor(x), z))
  }

  /** What the feeds behind the table have made. */
  ghost function MadeBehind<Z(!new)>(zstd: Zstd<Z>, x: bytes, feeds: seq<bytes>): Inflation<Z>
    requires Sound(zstd)
  {
    Made(zstd, Payload(x), feeds)
  }

  /** The observable part of feeding an entry to a fresh decoder in just these feeds. */
  ghost function EntryOutcome<Z(!new)>(zstd: Zstd<Z>, aes: BlockCipher, z: Z, feeds: seq<bytes>): Outcome<Z>
    requires Sound(zstd)
  {
    match HistoryOf(feeds)
    case Closed => PreludeOutcome(z, Joined(feeds))
    case Opened(x, fs) => OpenedOutcome(zstd, aes, z, x, fs)
  }

  /** The copied header, then what has been made, encrypted again. */
  ghost function OpenedOutcome<Z(!new)>(zstd: Zstd<Z>, aes: BlockCipher, z: Z, x: bytes, feeds: seq<bytes>): Outcome<Z>
    requires Sound(zstd)
  {
    if |x| < HEADER_OFFSET || Parse(x[HEADER_OFFSET..]).Err? then Outcome([], false, Buffering(x, 0, z))
    else
      var table := Parse(x[HEADER_OFFSET..]).value;
      var rest := StreamOutcome(aes, table, HEADER_OFFSET, MadeBehind(zstd, x, feeds));
      rest.(sent := TagAll(table.decompressedSize, x[..HEADER_OFFSET]) + rest.sent)
  }

  // ----- one feed -----

  lemma FeedEmpty<Z(!new)>(zstd: Zstd<Z>, aes: BlockCipher, d: Decoder<Z>)
    requires Sound(zstd) && DecoderOk(d) && !d.phase.Broken?
    ensures FeedEntry(zstd, aes, d, []) == FeedReply([], true, d)
  {
  }

  lemma FeedInStream<Z(!new)>(zstd: Zstd<Z>, aes: BlockCipher, d: Decoder<Z>, data: bytes)
    requires Sound(zstd) && DecoderOk(d) && d.phase.Stream?
    ensures Is(FeedEntry(zstd, aes, d, data), StreamOutcome(aes, d.table, d.head.offset, Inflate(zstd, d.z, data, false)))
  {
    hide Drain, Inflate, StreamOutcome, TableOk, HeadAt, Is;
    DrainIsStream(zstd, aes, d.table, d.head.offset, d.z, data, false);
    if data == [] {
      DrainNothing(zstd, aes, d);
    }
  }

  lemma DrainNothing<Z(!new)>(zstd: Zstd<Z>, aes: BlockCipher, d: Decoder<Z>)
    requires Sound(zstd) && DecoderOk(d) && d.phase.Stream?
    ensures StreamFeed(zstd, aes, d, []) == FeedReply([], true, d)
  {
  }

  /** A visit to the prelude either takes everything and goes on buffering, fails, or opens the table. */
  lemma AbsorbCases<Z(!new)>(zstd: Zstd<Z>, aes: BlockCipher, d: Decoder<Z>, data: bytes)
    requires Sound(zstd) && DecoderOk(d) && d.phase.Prelude? && data != []
    ensures var (r, used) := AbsorbPrelude(zstd, aes, d, data);
            var x := d.prelude + data[..used];
            if TableBuffered(x) then r == Open(zstd, aes, d.z, x)
            else
              && !TableBuffered(d.prelude + data)
              && Is(r, PreludeOutcome(d.z, d.prelude + data))
              && (r.ok ==> used == |data| && r.emissions == [] && r.user.phase.Prelude?)
  {
    hide Open, HeaderSizeFor;
    var used := Min(|data|, Want(d) - |d.prelude|);
    var x := d.prelude + data[..used];
    assert data[..used] + data[used..] == data;
    assert x + data[used..] == d.prelude + data;
    if |x| >= HEADER_OFFSET + PREAMBLE_SIZE {
      NeedIsStable(x, data[used..]);
      if d.need > 0 {
        NeedIsStable(d.prelude, data[..used]);
      }
    }
    if used == |data| {
      assert data[..used] == data;
    }
  }

  // ----- one feed after another -----

  /** `whole` is `first`, then `second`, as far as what they make fits the described size. */
  ghost predicate Joins<Z>(table: Table, whole: Inflation<Z>, first: Inflation<Z>, second: Inflation<Z>) {
    && (Fits(table, HEADER_OFFSET, whole) <==> Fits(table, HEADER_OFFSET, first) && Fits(table, HEADER_OFFSET + |first.out|, second))
    && (Fits(table, HEADER_OFFSET, whole) ==> whole == Inflation(first.out + second.out, true, second.z))
  }

  /** `o` is `first`, then `second`. */
  ghost predicate Follows<Z>(o: Outcome<Z>, first: Outcome<Z>, second: Outcome<Z>) {
    && (o.ok <==> first.ok && second.ok)
    && (o.ok ==> o.sent == first.sent + second.sent && o.user == second.user)
  }

  lemma IsBoth<Z>(r: FeedReply<Decoder<Z>>, first: Outcome<Z>, q: FeedReply<Decoder<Z>>, second: Outcome<Z>, o: Outcome<Z>)
    requires Is(r, first) && r.ok && Is(q, second) && Follows(o, first, second)
    ensures Is(FeedReply(r.emissions + q.emissions, q.ok, q.user), o)
  {
    FlatAppend(r.emissions, q.emissions);
  }

  lemma TagAppend(size: u64, a: bytes, b: bytes)
    ensures TagAll(size, a + b) == TagAll(size, a) + TagAll(size, b)
  {
  }

  lemma StreamTwice<Z>(aes: BlockCipher, table: Table, whole: Inflation<Z>, f: Inflation<Z>, g: Inflation<Z>)
    requires Joins(table, whole, f, g) && HEADER_OFFSET <= table.decompressedSize
    ensures var first := StreamOutcome(aes, table, HEADER_OFFSET, f);
            Follows(StreamOutcome(aes, table, HEADER_OFFSET, whole), first, StreamOutcome(aes, table, first.user.head.offset, g))
  {
    hide Rebuilt, TagAll, HeadAt;
    HeadStays(table, if Fits(table, HEADER_OFFSET, f) then HEADER_OFFSET + |f.out| else 0);
    if Fits(table, HEADER_OFFSET, whole) {
      RebuiltSplits(aes, table, HEADER_OFFSET, f.out, g.out);
      TagAppend(table.decompressedSize, Rebuilt(aes, table, HEADER_OFFSET, f.out), Rebuilt(aes, table, HEADER_OFFSET + |f.out|, g.out));
    }
  }

  lemma HeadStays(table: Table, offset: u64)
    ensures HeadAt(table, offset).offset == offset
  {
  }

  lemma StreamUser<Z>(aes: BlockCipher, table: Table, offset: u64, f: Inflation<Z>)
    ensures var o := StreamOutcome(aes, table, offset, f);
            && o.user.phase.Stream? && o.user.table == table && o.user.z == f.z
            && (o.ok ==> o.user.head.offset == offset + |f.out| <= table.decompressedSize && f.ok)
  {
  }

  /** A feed of a decoder in the stream phase, in closed form. */
  ghost function StreamNext<Z(!new)>(zstd: Zstd<Z>, aes: BlockCipher, d: Decoder<Z>, data: bytes): Outcome<Z>
    requires Sound(zstd)
  {
    StreamOutcome(aes, d.table, d.head.offset, Inflate(zstd, d.z, data, false))
  }

  lemma StreamGoesOn<Z(!new)>(zstd: Zstd<Z>, aes: BlockCipher, d: Decoder<Z>, data: bytes)
    requires Sound(zstd) && DecoderOk(d) && d.phase.Stream?
    ensures Is(FeedEntry(zstd, aes, d, data), StreamNext(zstd, aes, d, data))
    ensures FeedEntry(zstd, aes, d, data).ok ==> DecoderOk(FeedEntry(zstd, aes, d, data).user) && FeedEntry(zstd, aes, d, data).user.phase.Stream?
  {
    hide Inflate, FeedEntry, TableOk, Flat, TagAll, Rebuilt;
    FeedInStream(zstd, aes, d, data);
    if FeedEntry(zstd, aes, d, data).ok {
      HeadStays(d.table, d.head.offset + |Inflate(zstd, d.z, data, false).out|);
    }
  }

  lemma FlatNothing()
    ensures Flat([]) == []
  {
  }

  /** A feed behind the table makes what it makes from where the feeds before it stopped. */
  lemma OpenedMore<Z(!new)>(zstd: Zstd<Z>, aes: BlockCipher, z: Z, x: bytes, feeds: seq<bytes>, c: bytes)
    requires Sound(zstd) && TableBuffered(x)
    ensures var first := OpenedOutcome(zstd, aes, z, x, feeds);
            Follows(OpenedOutcome(zstd, aes, z, x, feeds + [c]), first, StreamNext(zstd, aes, first.user, c))
  {
    hide Parse, NeedFor, Inflate, Made, TagAll, StreamOutcome;
    if Parse(x[HEADER_OFFSET..]).Ok? {
      var table, f := Parse(x[HEADER_OFFSET..]).value, MadeBehind(zstd, x, feeds);
      TableIsBehind(x);
      MadeMore(zstd, Payload(x), feeds, c);
      StreamTwice(aes, table, MadeBehind(zstd, x, feeds + [c]), f, Inflate(zstd, f.z, c, false));
      StreamUser(aes, table, HEADER_OFFSET, f);
    }
  }

  lemma OpenIsOpened<Z(!new)>(zstd: Zstd<Z>, aes: BlockCipher, z: Z, x: bytes)
    requires Sound(zstd) && TableBuffered(x)
    ensures OpenOutcome(zstd, aes, z, x) == OpenedOutcome(zstd, aes, z, x, [])
  {
    hide Parse, NeedFor, StreamOutcome, Running;
  }

  lemma OpenedStreams<Z(!new)>(zstd: Zstd<Z>, aes: BlockCipher, z: Z, x: bytes, feeds: seq<bytes>)
    requires Sound(zstd)
    ensures var o := OpenedOutcome(zstd, aes, z, x, feeds); o.ok ==> o.user.phase.Stream?
  {
    hide Made, Rebuilt, TagAll, HeadAt, Parse;
  }

  /** `d` is the decoder after just these feeds of an entry. */
  ghost predicate FedAlong<Z(!new)>(zstd: Zstd<Z>, aes: BlockCipher, d: Decoder<Z>, z: Z, feeds: seq<bytes>)
    requires Sound(zstd)
  {
    var o := EntryOutcome(zstd, aes, z, feeds);
    o.ok && o.user == d && DecoderOk(d) && !d.phase.Broken?
  }

  /** What a reply adds to what `feeds` had sent is what `all` of them have sent. */
  ghost predicate Adds<Z(!new)>(zstd: Zstd<Z>, aes: BlockCipher, z: Z, feeds: seq<bytes>, r: FeedReply<Decoder<Z>>,
                                all: seq<bytes>)
    requires Sound(zstd)
  {
    var first, whole := EntryOutcome(zstd, aes, z, feeds), EntryOutcome(zstd, aes, z, all);
    && NoEmptyEmission(r.emissions)
    && (r.ok <==> whole.ok)
    && (r.ok ==> FedAlong(zstd, aes, r.user, z, all) && whole.sent == first.sent + Flat(r.emissions))
  }

  /** Opening the table on `x` and being fed `rest`. */
  lemma OpenAndFeed<Z(!new)>(zstd: Zstd<Z>, aes: BlockCipher, z: Z, x: bytes, rest: bytes)
    requires Sound(zstd) && TableBuffered(x)
    ensures var r := Open(zstd, aes, z, x);
            if r.ok then
              && DecoderOk(r.user)
              && var q := FeedEntry(zstd, aes, r.user, rest);
                 && Is(FeedReply(r.emissions + q.emissions, q.ok, q.user), OpenedOutcome(zstd, aes, z, x, [rest]))
                 && (q.ok ==> DecoderOk(q.user) && !q.user.phase.Broken?)
            else Is(r, OpenedOutcome(zstd, aes, z, x, [rest]))
  {
    hide Open, OpenOutcome, OpenedOutcome, DecoderOk, FeedEntry, TableBuffered, StreamNext, Flat, Parse;
    TableIsLong(x);
    OpenIsItsOutcome(zstd, aes, z, x);
    OpenKeeps(zstd, aes, z, x);
    OpenIsOpened(zstd, aes, z, x);
    OpenedMore(zstd, aes, z, x, [], rest);
    assert [] + [rest] == [rest];
    var r := Open(zstd, aes, z, x);
    var first := OpenOutcome(zstd, aes, z, x);
    if r.ok {
      StreamGoesOn(zstd, aes, r.user, rest);
      IsBoth(r, first, FeedEntry(zstd, aes, r.user, rest), StreamNext(zstd, aes, first.user, rest), OpenedOutcome(zstd, aes, z, x, [rest]));
    }
  }

  lemma TableIsLong(x: bytes)
    requires TableBuffered(x)
    ensures HEADER_OFFSET <= |x|
  {
  }

  /** While the prelude lasts, the decoder has buffered the entry so far. */
  lemma PreludeIsEntry<Z(!new)>(zstd: Zstd<Z>, aes: BlockCipher, d: Decoder<Z>, z: Z, feeds: seq<bytes>, chunk: bytes)
    requires Sound(zstd) && FedAlong(zstd, aes, d, z, feeds) && !d.phase.Stream?
    ensures d.phase.Prelude? && HistoryOf(feeds).Closed? && d.prelude == Joined(feeds) && d.z == z
    ensures EntryOutcome(zstd, aes, z, feeds).sent == [] && !TableBuffered(Joined(feeds))
    ensures Min(|chunk|, Want(d) - |d.prelude|) == Taken(Joined(feeds), chunk)
  {
    hide OpenedOutcome, NeedFor, Joined;
    HistoryIsEntry(feeds);
    var h := HistoryOf(feeds);
    if h.Opened? {
      OpenedStreams(zstd, aes, z, h.x, h.feeds);
    }
  }

  lemma PreludeFed<Z(!new)>(zstd: Zstd<Z>, aes: BlockCipher, d: Decoder<Z>, z: Z, feeds: seq<bytes>, data: bytes)
    requires Sound(zstd) && FedAlong(zstd, aes, d, z, feeds) && !d.phase.Stream? && data != []
    ensures Is(FeedEntry(zstd, aes, d, data), EntryOutcome(zstd, aes, z, feeds + [data]))
    ensures FeedEntry(zstd, aes, d, data).ok ==> DecoderOk(FeedEntry(zstd, aes, d, data).user) && !FeedEntry(zstd, aes, d, data).user.phase.Broken?
  {
    hide Open, OpenedOutcome, DecoderOk, NeedFor, Is, AbsorbPrelude, FeedEntry, TableBuffered, Taken, PreludeOutcome, Want;
    PreludeIsEntry(zstd, aes, d, z, feeds, data);
    HistoryMore(feeds, data);
    AbsorbCases(zstd, aes, d, data);
    AbsorbKeeps(zstd, aes, d, data);
    FeedIsAbsorb(zstd, aes, d, data);
    var (r, used) := AbsorbPrelude(zstd, aes, d, data);
    UsedIsTaken(zstd, aes, d, data);
    var x, rest := d.prelude + data[..used], data[used..];
    if TableBuffered(x) {
      assert x + rest == d.prelude + data by { TakeAndRest(d.prelude, data, used); }
      TableStays(x, rest);
      OpenAndFeed(zstd, aes, z, x, rest);
    } else if r.ok {
      assert rest == [] && r.emissions + [] == r.emissions;
      FeedEmpty(zstd, aes, r.user);
    }
  }

  lemma TakeAndRest(front: bytes, data: bytes, n: nat)
    requires n <= |data|
    ensures front + data[..n] + data[n..] == front + data
  {
  }

  /** Feeding a prelude is absorbing and then feeding the rest. */
  lemma FeedIsAbsorb<Z(!new)>(zstd: Zstd<Z>, aes: BlockCipher, d: Decoder<Z>, data: bytes)
    requires Sound(zstd) && DecoderOk(d) && d.phase.Prelude? && data != []
    ensures var (r, used) := AbsorbPrelude(zstd, aes, d, data);
            if !r.ok then FeedEntry(zstd, aes, d, data) == r
            else
              && DecoderOk(r.user)
              && var rest := FeedEntry(zstd, aes, r.user, data[used..]);
                 FeedEntry(zstd, aes, d, data) == FeedReply(r.emissions + rest.emissions, rest.ok, rest.user)
  {
    hide AbsorbPrelude, DecoderOk, StreamFeed;
    AbsorbKeeps(zstd, aes, d, data);
  }

  lemma UsedIsTaken<Z(!new)>(zstd: Zstd<Z>, aes: BlockCipher, d: Decoder<Z>, data: bytes)
    requires Sound(zstd) && DecoderOk(d) && d.phase.Prelude?
    ensures AbsorbPrelude(zstd, aes, d, data).1 == Min(|data|, Want(d) - |d.prelude|)
  {
    hide Open, NeedFor;
  }

  /** One feed of the decoder inside an entry: what it sends, with what went before, is what the feeds come to. */
  lemma FeedAdds<Z(!new)>(zstd: Zstd<Z>, aes: BlockCipher, d: Decoder<Z>, z: Z, feeds: seq<bytes>, data: bytes)
    requires Sound(zstd) && FedAlong(zstd, aes, d, z, feeds)
    ensures Adds(zstd, aes, z, feeds, FeedEntry(zstd, aes, d, data), feeds + [data])
  {
    hide FeedEntry, DecoderOk, StreamNext, OpenedOutcome, PreludeOutcome, Flat, TableBuffered, Taken;
    HistoryMore(feeds, data);
    HistoryIsEntry(feeds);
    if d.phase.Stream? {
      var h := HistoryOf(feeds);
      assert h.Opened? by { ClosedIsPrelude(z, Joined(feeds)); }
      OpenedMore(zstd, aes, z, h.x, h.feeds, data);
      StreamGoesOn(zstd, aes, d, data);
    } else if data == [] {
      PreludeIsEntry(zstd, aes, d, z, feeds, data);
      FeedEmpty(zstd, aes, d);
      assert Joined(feeds) + [] == Joined(feeds);
      FlatNothing();
    } else {
      PreludeIsEntry(zstd, aes, d, z, feeds, data);
      PreludeFed(zstd, aes, d, z, feeds, data);
      var r := FeedEntry(zstd, aes, d, data);
      assert [] + Flat(r.emissions) == Flat(r.emissions);
    }
  }

  lemma ClosedIsPrelude<Z>(z: Z, x: bytes)
    ensures PreludeOutcome(z, x).user.phase.Prelude? && PreludeOutcome(z, x).sent == []
  {
    hide NeedFor;
  }

  // ----- the decoder as the installer's hook table -----

  /** A decoder no run reaches refuses everything. */
  ghost function DecoderOps<Z(!new)>(zstd: Zstd<Z>, aes: BlockCipher): NczOps<Decoder<Z>>
    requires Sound(zstd)
  {
    NczOps(
      (d: Decoder<Z>) => Reply(true, Fresh(d)),
      (d: Decoder<Z>, data: bytes) => if DecoderOk(d) then FeedEntry(zstd, aes, d, data) else FeedReply([], false, d),
      (d: Decoder<Z>) => Reply(EndsWell(d), if EndsWell(d) then d else Break(d)),
      (d: Decoder<Z>) => d.table.decompressedSize)
  }

  lemma FreshIsFedAlong<Z(!new)>(zstd: Zstd<Z>, aes: BlockCipher, d: Decoder<Z>)
    requires Sound(zstd)
    ensures FedAlong(zstd, aes, Fresh(d), d.z, []) && EntryOutcome(zstd, aes, d.z, []).sent == []
  {
  }

  // ----- a whole entry -----

  /** Feeding an entry chunk by chunk, up to the first feed that fails. */
  ghost function FeedChunks<D>(ops: NczOps<D>, d: D, chunks: seq<bytes>): (r: FeedReply<D>)
    decreases |chunks|
  {
    if chunks == [] then FeedReply([], true, d)
    else
      var r := ops.feed(d, chunks[0]);
      if !r.ok then r
      else
        var rest := FeedChunks(ops, r.user, chunks[1..]);
        FeedReply(r.emissions + rest.emissions, rest.ok, rest.user)
  }

  /** What has failed stays failed. */
  lemma FailsForGood<Z(!new)>(zstd: Zstd<Z>, aes: BlockCipher, z: Z, feeds: seq<bytes>, c: bytes)
    requires Sound(zstd) && !EntryOutcome(zstd, aes, z, feeds).ok
    ensures !EntryOutcome(zstd, aes, z, feeds + [c]).ok
  {
    hide OpenedOutcome, Taken, NeedFor;
    HistoryMore(feeds, c);
    HistoryIsEntry(feeds);
    match HistoryOf(feeds)
    case Opened(x, fs) => OpenedMore(zstd, aes, z, x, fs, c);
    case Closed => NeedIsStable(Joined(feeds), c);
  }

  lemma {:induction false} FailsForAll<Z(!new)>(zstd: Zstd<Z>, aes: BlockCipher, z: Z, feeds: seq<bytes>, more: seq<bytes>)
    requires Sound(zstd) && !EntryOutcome(zstd, aes, z, feeds).ok
    ensures !EntryOutcome(zstd, aes, z, feeds + more).ok
    decreases |more|
  {
    hide EntryOutcome;
    if more == [] {
      assert feeds + more == feeds;
    } else {
      FailsForGood(zstd, aes, z, feeds, more[0]);
      assert feeds + [more[0]] + more[1..] == feeds + more;
      FailsForAll(zstd, aes, z, feeds + [more[0]], more[1..]);
    }
  }

  lemma {:induction false} ChunksAdd<Z(!new)>(zstd: Zstd<Z>, aes: BlockCipher, d: Decoder<Z>, z: Z, feeds: seq<bytes>,
                                              chunks: seq<bytes>)
    requires Sound(zstd) && FedAlong(zstd, aes, d, z, feeds)
    ensures Adds(zstd, aes, z, feeds, FeedChunks(DecoderOps(zstd, aes), d, chunks), feeds + chunks)
    decreases |chunks|
  {
    hide FeedEntry, DecoderOk, EntryOutcome, Flat;
    if chunks == [] {
      assert feeds + chunks == feeds;
      FlatNothing();
      assert EntryOutcome(zstd, aes, z, feeds).sent + [] == EntryOutcome(zstd, aes, z, feeds).sent;
    } else {
      var c, rest := chunks[0], chunks[1..];
      assert feeds + [c] + rest == feeds + chunks;
      FeedAdds(zstd, aes, d, z, feeds, c);
      var first := FeedEntry(zstd, aes, d, c);
      if first.ok {
        ChunksAdd(zstd, aes, first.user, z, feeds + [c], rest);
        FlatAppend(first.emissions, FeedChunks(DecoderOps(zstd, aes), first.user, rest).emissions);
      } else {
        FailsForAll(zstd, aes, z, feeds + [c], rest);
      }
    }
  }

  /** The size, and the bytes, of the file a complete compressed entry rebuilds to. */
  datatype File = File(size: u64, data: bytes)

  /**
   * The specification of rebuilding, for the feeds an entry arrives in: the table must be acceptable, and what
   * is made behind it must be exactly as long as the table describes. The file is the copied header and each
   * byte of the rest encrypted as its section prescribes.
   */
  ghost function RebuildAlong<Z(!new)>(zstd: Zstd<Z>, aes: BlockCipher, feeds: seq<bytes>): Option<File>
    requires Sound(zstd)
  {
    match HistoryOf(feeds)
    case Closed => None
    case Opened(x, fs) =>
      if |x| < HEADER_OFFSET || Parse(x[HEADER_OFFSET..]).Err? then None
      else
        var table, f := Parse(x[HEADER_OFFSET..]).value, MadeBehind(zstd, x, fs);
        if f.ok && HEADER_OFFSET + |f.out| == table.decompressedSize
        then Some(File(table.decompressedSize, x[..HEADER_OFFSET] + Rebuilt(aes, table, HEADER_OFFSET, f.out)))
        else None
  }

  /** The entry ended before its table was complete: nothing has been rebuilt and nothing was asked for. */
  ghost predicate EndsInPrelude(x: bytes) {
    || |x| < HEADER_OFFSET + PREAMBLE_SIZE
    || |x| < NeedFor(x)
  }

  /** Feeds that end well, by cases. */
  lemma AlongCases<Z(!new)>(zstd: Zstd<Z>, aes: BlockCipher, z: Z, feeds: seq<bytes>)
    requires Sound(zstd)
    ensures var o := EntryOutcome(zstd, aes, z, feeds);
            var file := RebuildAlong(zstd, aes, feeds);
            && (o.ok && EndsWell(o.user) <==> file.Some? || EndsInPrelude(Joined(feeds)))
            && (file.Some? ==> !EndsInPrelude(Joined(feeds)) && o.ok && o.sent == TagAll(file.value.size, file.value.data)
                               && |file.value.data| == file.value.size == o.user.table.decompressedSize)
            && (EndsInPrelude(Joined(feeds)) ==> file.None? && o.ok && o.sent == [] && o.user.table.decompressedSize == 0)
  {
    hide OpenedOutcome, NeedFor, MadeBehind, Parse, Rebuilt, TagAll;
    HistoryIsEntry(feeds);
    var h := HistoryOf(feeds);
    if h.Opened? {
      TableStays(h.x, Joined(h.feeds));
      OpenedCases(zstd, aes, z, h.x, h.feeds);
    }
  }

  lemma OpenedCases<Z(!new)>(zstd: Zstd<Z>, aes: BlockCipher, z: Z, x: bytes, feeds: seq<bytes>)
    requires Sound(zstd) && TableBuffered(x)
    ensures var o := OpenedOutcome(zstd, aes, z, x, feeds);
            if Parse(x[HEADER_OFFSET..]).Err? then !o.ok
            else
              var table, f := Parse(x[HEADER_OFFSET..]).value, MadeBehind(zstd, x, feeds);
              var data := x[..HEADER_OFFSET] + Rebuilt(aes, table, HEADER_OFFSET, f.out);
              && (o.ok && EndsWell(o.user) <==> f.ok && HEADER_OFFSET + |f.out| == table.decompressedSize)
              && (f.ok && HEADER_OFFSET + |f.out| == table.decompressedSize ==>
                    && o.sent == TagAll(table.decompressedSize, data)
                    && |data| == table.decompressedSize == o.user.table.decompressedSize)
  {
    hide MadeBehind, Parse, NeedFor, Rebuilt, TagAll, HeadAt;
    if Parse(x[HEADER_OFFSET..]).Ok? {
      var table, f := Parse(x[HEADER_OFFSET..]).value, MadeBehind(zstd, x, feeds);
      HeadStays(table, if Fits(table, HEADER_OFFSET, f) then HEADER_OFFSET + |f.out| else 0);
      TagAppend(table.decompressedSize, x[..HEADER_OFFSET], Rebuilt(aes, table, HEADER_OFFSET, f.out));
    }
  }

  /**
   * However the entry is cut, and whatever the decompressor holds back between the feeds, its decoder ends well
   * exactly when what was made along those feeds has the described length, or when the entry stops short of its
   * own table. In the first case the sink has been sent the rebuilt file, announced with its size; in the second
   * it has been sent nothing. And as long as no feed fails it has been sent what has been made so far.
   */
  lemma EveryCutRebuilds<Z(!new)>(zstd: Zstd<Z>, aes: BlockCipher, d: Decoder<Z>, chunks: seq<bytes>)
    requires Sound(zstd)
    ensures var x := Joined(chunks);
            var r := FeedChunks(DecoderOps(zstd, aes), Fresh(d), chunks);
            var file := RebuildAlong(zstd, aes, chunks);
            && (r.ok && EndsWell(r.user) <==> file.Some? || EndsInPrelude(x))
            && (file.Some? ==> !EndsInPrelude(x) && r.ok && Flat(r.emissions) == TagAll(file.value.size, file.value.data)
                               && |file.value.data| == file.value.size == r.user.table.decompressedSize)
            && (EndsInPrelude(x) ==> r.ok && Flat(r.emissions) == [] && r.user.table.decompressedSize == 0)
            && (r.ok ==> Flat(r.emissions) == EntryOutcome(zstd, aes, d.z, chunks).sent)
  {
    hide EntryOutcome, RebuildAlong, Flat, TagAll, EndsInPrelude, DecoderOk;
    FreshIsFedAlong(zstd, aes, d);
    assert [] + chunks == chunks;
    ChunksAdd(zstd, aes, Fresh(d), d.z, [], chunks);
    var r := FeedChunks(DecoderOps(zstd, aes), Fresh(d), chunks);
    assert [] + Flat(r.emissions) == Flat(r.emissions);
    AlongCases(zstd, aes, d.z, chunks);
  }
}
