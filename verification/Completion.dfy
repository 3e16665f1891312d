/**
 * With a backend that accepts everything, a well-formed container installs: no call fails, and the whole
 * stream ends in the Complete stage with every content committed.
 */
module Completion {
  import opened Bytes
  import opened EntryNames
  import opened InstallSpec
  import opened InstallTrace
  import opened ChunkIndependence
  import opened EntryTable
  import opened Delivery
  import Pfs = PartitionFs

  /** The content hooks never fail. */
  ghost predicate Willing<S(!new)>(ops: BackendOps<S>) {
    && (forall s: S, id: bytes, size: u64 :: ops.contentBegin(s, id, size).ok)
    && (forall s: S, data: bytes :: ops.contentWrite(s, data).ok)
    && (forall s: S :: ops.contentCommit(s).ok)
  }

  predicate NoCompressed(es: seq<Entry>) {
    forall i :: 0 <= i < |es| ==> !IsCompressed(es[i].kind)
  }

  /** One placeholder for each content entry, in order. */
  function Contents(es: seq<Entry>, stream: bytes): seq<Placeholder> {
    if es == [] then []
    else
      var e := es[|es| - 1];
      Contents(es[..|es| - 1], stream) + (if IsContent(e.kind) then [Placeholder(e.contentId, e.size, Arrived(e, stream))] else [])
  }

  /** A container whose entries are apart and whose tickets and certificates fit their buffers. */
  ghost predicate WellFormed(stream: bytes) {
    && |stream| < U64_LIMIT
    && Layout(stream).Some?
    && var (es, size) := Layout(stream).value;
       && DisjointEntries(es, size)
       && SizeOf(Ticket, es) <= MAX_TICKET && SizeOf(Cert, es) <= MAX_CERT
  }

  /** A container that can be installed from the stream alone. */
  ghost predicate Installable(stream: bytes) {
    WellFormed(stream) && NoCompressed(Layout(stream).value.0)
  }

  // ----- closed forms -----

  lemma {:induction false} StoredIsContents(stored: seq<Placeholder>, es: seq<Entry>, stream: bytes)
    requires NoCompressed(es) && StoredIs(stored, es, stream)
    ensures stored == Contents(es, stream)
  {
    if es != [] {
      var e, rest := es[|es| - 1], es[..|es| - 1];
      if IsContent(e.kind) {
        StoredIsContents(stored[..|stored| - 1], rest, stream);
        assert stored == stored[..|stored| - 1] + [stored[|stored| - 1]];
      } else {
        StoredIsContents(stored, rest, stream);
      }
    }
  }

  lemma {:induction false} GatheredFits(kind: Kind, es: seq<Entry>, stream: bytes)
    ensures |Gathered(kind, es, stream)| <= SizeOf(kind, es)
  {
    if es != [] {
      GatheredFits(kind, es[..|es| - 1], stream);
    }
  }

  // ----- no call fails -----

  /** A run on its way through the whole stream `all`. */
  ghost predicate OnTrack<S, D>(s: State<Traced<S>, D>, stream: bytes, all: bytes) {
    && Delivered(s, stream) && stream <= all
    && (s.stage.Streaming? || s.stage.Complete? ==> Layout(all) == Some((s.entries, s.headerSize)))
  }

  lemma WillingReplies<S(!new), D>(env: Env<S, D>, u: Traced<S>)
    requires Willing(env.ops)
    ensures var ops := TracedEnv(env).ops;
            && (forall id, size :: ops.contentBegin(u, id, size).ok)
            && (forall data :: ops.contentWrite(u, data).ok)
            && ops.contentCommit(u).ok
  {
    forall id: bytes, size: u64
      ensures TracedEnv(env).ops.contentBegin(u, id, size).ok
    {
      assert env.ops.contentBegin(u.inner, id, size).ok;
    }
    forall data: bytes
      ensures TracedEnv(env).ops.contentWrite(u, data).ok
    {
      assert env.ops.contentWrite(u.inner, data).ok;
    }
    assert env.ops.contentCommit(u.inner).ok;
  }

  lemma OpenSucceeds<S(!new), D>(env: Env<S, D>, s: State<Traced<S>, D>)
    requires Willing(env.ops) && s.stage.Streaming? && s.cursor < |s.entries| && (s.nczActive ==> env.ncz.Some?)
    requires !IsCompressed(s.entries[s.cursor].kind)
    ensures !OpenEntry(TracedEnv(env), s).stage.Failed?
  {
    hide TracedOps, Willing;
    WillingReplies(env, s.user);
  }

  lemma CloseSucceeds<S(!new), D>(env: Env<S, D>, s: State<Traced<S>, D>)
    requires Willing(env.ops) && s.stage.Streaming? && s.cursor < |s.entries| && !s.nczActive
    ensures !CloseEntry(TracedEnv(env), s).stage.Failed?
  {
    hide TracedOps, Willing;
    WillingReplies(env, s.user);
  }

  lemma RouteSucceeds<S(!new), D>(env: Env<S, D>, s: State<Traced<S>, D>, stream: bytes, chunk: bytes)
    requires Willing(env.ops) && Ready(s, stream) && !IsCompressed(s.entries[s.cursor].kind)
    requires |stream| + |chunk| <= s.entries[s.cursor].absOffset + s.entries[s.cursor].size
    requires SizeOf(Ticket, s.entries) <= MAX_TICKET && SizeOf(Cert, s.entries) <= MAX_CERT
    ensures !Route(TracedEnv(env), s, chunk).stage.Failed?
  {
    hide TracedOps, Willing, InStep, InEntries, Advance, SizeOf;
    WillingReplies(env, s.user);
    var kind := s.entries[s.cursor].kind;
    if kind.Ticket? || kind.Cert? {
      RoomFor(s, stream, chunk);
    }
  }

  lemma RoomFor<S, D>(s: State<Traced<S>, D>, stream: bytes, chunk: bytes)
    requires Ready(s, stream) && |stream| + |chunk| <= s.entries[s.cursor].absOffset + s.entries[s.cursor].size
    requires SizeOf(Ticket, s.entries) <= MAX_TICKET && SizeOf(Cert, s.entries) <= MAX_CERT
    ensures s.entries[s.cursor].kind == Ticket ==> |s.tik| + |chunk| <= MAX_TICKET
    ensures s.entries[s.cursor].kind == Cert ==> |s.cert| + |chunk| <= MAX_CERT
  {
    hide Run, InStep, StoredIs, Past, DisjointEntries, OpenIs, Gathered, Arrived, SizeOf;
    var i := s.cursor;
    var e := s.entries[i];
    forall kind | e.kind == kind
      ensures |Gathered(kind, s.entries[..i + 1], stream)| + |chunk| <= SizeOf(kind, s.entries)
    {
      GatheredSplit(kind, s.entries, i, stream);
      GatheredSplit(kind, s.entries, i, stream + chunk);
      ArrivedGrows(e, stream, chunk);
      GatheredKeeps(kind, s, stream, chunk);
      GatheredFits(kind, s.entries[..i + 1], stream + chunk);
      SizeOfPrefix(kind, s.entries, i + 1);
    }
  }

  lemma GatheredKeeps<S, D>(kind: Kind, s: State<Traced<S>, D>, stream: bytes, chunk: bytes)
    requires Ready(s, stream)
    ensures Gathered(kind, s.entries[..s.cursor], stream + chunk) == Gathered(kind, s.entries[..s.cursor], stream)
  {
    hide Run, InStep, DisjointEntries, OpenIs, Gathered, Arrived, StoredIs;
    PastStays([], s.entries[..s.cursor], stream, chunk);
  }

  /** While no entry is compressed the decoder is never started. */
  lemma StaysInactive<S, D>(env: Env<S, D>, s: State<S, D>, chunk: bytes)
    requires s.stage.Streaming? && s.cursor < |s.entries| && !s.nczActive && !IsCompressed(s.entries[s.cursor].kind)
    ensures !OpenEntry(env, s).nczActive
  {
  }

  lemma EntrySucceeds<S(!new), D>(env: Env<S, D>, s: State<Traced<S>, D>, stream: bytes, chunk: bytes)
    requires Willing(env.ops) && Delivered(s, stream) && s.stage.Streaming? && !s.nczActive && !IsCompressed(s.entries[s.cursor].kind)
    requires s.entries[s.cursor].absOffset <= |stream|
    requires |stream| + |chunk| <= s.entries[s.cursor].absOffset + s.entries[s.cursor].size < U64_LIMIT
    requires SizeOf(Ticket, s.entries) <= MAX_TICKET && SizeOf(Cert, s.entries) <= MAX_CERT
    ensures !StepEntry(TracedEnv(env), s, chunk).stage.Failed? && !StepEntry(TracedEnv(env), s, chunk).nczActive
  {
    hide Willing, InStep, InEntries, MetaListed, Run, OpenEntry, Route, CloseEntry, TracedOps, Advance, SizeOf;
    OpenSucceeds(env, s);
    StaysInactive(TracedEnv(env), s, chunk);
    OpenShape(TracedEnv(env), s);
    OpenDelivered(env, s, stream);
    var t := OpenEntry(TracedEnv(env), s);
    RouteSucceeds(env, t, stream, chunk);
    RouteShape(TracedEnv(env), t, chunk);
    var u := Consume(TracedEnv(env), t, chunk);
    CloseSucceeds(env, u);
    CloseShape(TracedEnv(env), u);
  }

  lemma MagicSucceeds<S(!new), D>(env: Env<S, D>, s: State<Traced<S>, D>, stream: bytes, data: bytes, all: bytes)
    requires OnTrack(s, stream, all) && s.stage.Magic? && Valid(TracedEnv(env), s)
    requires WellFormed(all) && stream + data <= all
    ensures var (t, used) := StepMagic(TracedEnv(env), s, data); !t.stage.Failed? && t.nczActive == s.nczActive && !t.stage.Streaming? && !t.stage.Complete?
  {
    hide Delivered, TracedOps, Advance, Pfs.PeekHeaderSize, Pfs.Parse, Collect, LastMeta, SortByOffset, DisjointEntries, SizeOf;
    assert s.header == stream by { HeaderIsStream(s, stream); }
    var used := Min(|data|, Pfs.HEADER_SIZE - |s.header|);
    var h := stream + data[..used];
    if |h| == Pfs.HEADER_SIZE {
      PrefixOf(stream, data, used, all);
      PeekNeedsHeader(all);
      Pfs.PeekIsLocal(h, all);
    }
  }

  lemma HeaderIsStream<S, D>(s: State<Traced<S>, D>, stream: bytes)
    requires Delivered(s, stream) && (s.stage.Magic? || s.stage.Header?)
    ensures s.header == stream
    ensures s.stage.Header? ==> |stream| >= Pfs.HEADER_SIZE && Pfs.PeekHeaderSize(stream).Ok? && Pfs.PeekHeaderSize(stream).value.1 == s.headerSize
  {
  }

  lemma PrefixOf(stream: bytes, data: bytes, used: nat, all: bytes)
    requires stream + data <= all && used <= |data|
    ensures stream + data[..used] <= all && |stream| + used <= |all|
    ensures all[..|stream| + used] == stream + data[..used]
  {
    assert (stream + data)[..|stream| + used] == stream + data[..used];
    assert all[..|stream + data|] == stream + data;
    assert all[..|stream| + used] == all[..|stream + data|][..|stream| + used];
  }

  lemma HeaderSucceeds<S(!new), D>(env: Env<S, D>, s: State<Traced<S>, D>, stream: bytes, data: bytes, all: bytes)
    requires OnTrack(s, stream, all) && s.stage.Header? && Valid(TracedEnv(env), s)
    requires WellFormed(all) && stream + data <= all
    ensures var (t, used) := StepHeader(TracedEnv(env), s, data);
            && !t.stage.Failed? && !t.stage.Complete? && t.nczActive == s.nczActive
            && (t.stage.Streaming? ==> Layout(all) == Some((t.entries, t.headerSize)))
  {
    hide Delivered, TracedOps, Advance, Pfs.PeekHeaderSize, Pfs.Parse, Collect, LastMeta, SortByOffset, DisjointEntries, SizeOf;
    HeaderIsStream(s, stream);
    var used := Min(|data|, s.headerSize - |s.header|);
    var h := stream + data[..used];
    if |h| == s.headerSize {
      PrefixOf(stream, data, used, all);
      PeekNeedsHeader(all);
      Pfs.PeekIsLocal(stream, h);
      Pfs.PeekIsLocal(h, all);
    }
  }

  lemma StreamingSucceeds<S(!new), D>(env: Env<S, D>, s: State<Traced<S>, D>, stream: bytes, data: bytes, all: bytes)
    requires Willing(env.ops) && OnTrack(s, stream, all) && s.stage.Streaming? && Valid(TracedEnv(env), s) && !s.nczActive
    requires Installable(all) && stream + data <= all
    ensures var (t, used) := StepStreaming(TracedEnv(env), s, data);
            !t.stage.Failed? && !t.nczActive && t.entries == s.entries && t.headerSize == s.headerSize
  {
    hide Willing, InStep, InEntries, MetaListed, Run, StepEntry, TracedOps, Advance, Layout, SizeOf, DisjointEntries;
    var e := s.entries[s.cursor];
    CurrentEntry(s, stream);
    if s.streamPos >= e.absOffset {
      var take := Min(|data|, Sub64(EntryEnd(e), s.streamPos));
      EntrySucceeds(env, s, stream, data[..take]);
      EntryKeepsLayout(TracedEnv(env), s, data[..take]);
    }
  }

  lemma EntryKeepsLayout<S, D>(env: Env<S, D>, s: State<S, D>, chunk: bytes)
    requires s.stage.Streaming? && s.cursor < |s.entries| && (s.nczActive ==> env.ncz.Some?)
    ensures var t := StepEntry(env, s, chunk); t.entries == s.entries && t.headerSize == s.headerSize
  {
    hide OpenEntry, Consume, CloseEntry, EntryEnd;
    OpenShape(env, s);
    var t := OpenEntry(env, s);
    if !t.stage.Failed? {
      ConsumeShape(env, t, chunk);
      var u := Consume(env, t, chunk);
      if !u.stage.Failed? && u.streamPos >= EntryEnd(s.entries[s.cursor]) {
        CloseShape(env, u);
      }
    }
  }

  lemma {:induction false} FeedSucceeds<S(!new), D>(env: Env<S, D>, s: State<Traced<S>, D>, stream: bytes, data: bytes,
                                                    all: bytes)
    requires Willing(env.ops) && OnTrack(s, stream, all) && Valid(TracedEnv(env), s) && !s.nczActive
    requires Installable(all) && stream + data <= all
    ensures var t := Feed(TracedEnv(env), s, data); OnTrack(t, stream + data, all) && !t.nczActive
    decreases |data|, StageRank(s.stage), EntriesLeft(s)
  {
    hide OnTrack, Willing, Installable, Iter, Valid, TracedEnv;
    if data == [] {
      assert stream + data == stream;
    } else {
      NotFailed(s, stream, all);
      RoundSucceeds(env, s, stream, data, all);
      IterProgress(TracedEnv(env), s, data);
      var (t, used) := Iter(TracedEnv(env), s, data);
      assert stream + data[..used] + data[used..] == stream + data;
      FeedSucceeds(env, t, stream + data[..used], data[used..], all);
    }
  }

  lemma NotFailed<S, D>(s: State<Traced<S>, D>, stream: bytes, all: bytes)
    requires OnTrack(s, stream, all)
    ensures !s.stage.Failed? && Delivered(s, stream)
  {
  }

  lemma RoundSucceeds<S(!new), D>(env: Env<S, D>, s: State<Traced<S>, D>, stream: bytes, data: bytes, all: bytes)
    requires Willing(env.ops) && OnTrack(s, stream, all) && Valid(TracedEnv(env), s) && !s.nczActive && !s.stage.Failed?
    requires Installable(all) && stream + data <= all
    ensures var (t, used) := Iter(TracedEnv(env), s, data); OnTrack(t, stream + data[..used], all) && !t.nczActive
  {
    hide Delivered, Willing, WellFormed, StepMagic, StepHeader, StepStreaming, Valid, TracedEnv, Layout, Advance;
    assert |stream| + |data| < U64_LIMIT && DisjointStream(stream + data) by { Ahead(stream, data, all); }
    RoundDelivered(env, s, stream, data);
    match s.stage
    case Magic => MagicSucceeds(env, s, stream, data, all);
    case Header => HeaderSucceeds(env, s, stream, data, all);
    case Streaming => StreamingSucceeds(env, s, stream, data, all);
    case Complete =>
    PrefixOf(stream, data, Iter(TracedEnv(env), s, data).1, all);
  }

  lemma Ahead(stream: bytes, data: bytes, all: bytes)
    requires WellFormed(all) && stream + data <= all
    ensures |stream| + |data| < U64_LIMIT && DisjointStream(stream + data)
  {
    hide DisjointEntries, Layout, SizeOf;
    var rest := all[|stream + data|..];
    assert all == stream + data + rest;
    DisjointPrefix(stream + data, rest);
  }

  lemma {:induction false} ChunksSucceed<S(!new), D>(env: Env<S, D>, s: State<Traced<S>, D>, stream: bytes,
                                                     chunks: seq<bytes>, all: bytes)
    requires Willing(env.ops) && OnTrack(s, stream, all) && Valid(TracedEnv(env), s) && !s.nczActive
    requires Installable(all) && stream + Joined(chunks) == all
    ensures OnTrack(FeedAll(TracedEnv(env), s, chunks), all, all)
    decreases |chunks|
  {
    hide OnTrack, Willing, Installable, Feed, Valid, TracedEnv;
    if chunks == [] {
      assert stream + [] == stream;
    } else {
      var c, rest := chunks[0], Joined(chunks[1..]);
      assert stream + (c + rest) == stream + c + rest;
      assert stream + c <= all;
      FeedSucceeds(env, s, stream, c, all);
      ChunksSucceed(env, Feed(TracedEnv(env), s, c), stream + c, chunks[1..], all);
    }
  }

  // ----- when the stream is complete -----

  function LastEnd(es: seq<Entry>): nat
    requires es != []
  {
    es[|es| - 1].absOffset + es[|es| - 1].size
  }

  /** A stream that goes past the last entry, or ends it with a byte of its own, completes. */
  lemma EndReached<S, D>(s: State<Traced<S>, D>, stream: bytes)
    requires Delivered(s, stream) && (s.stage.Streaming? || s.stage.Complete?) && s.entries != []
    requires LastEnd(s.entries) < |stream| || (LastEnd(s.entries) == |stream| && s.entries[|s.entries| - 1].size > 0)
    ensures s.stage.Complete?
  {
    hide Run, InStep, StoredIs, Past, OpenIs, MetaListed, Buffered;
    if s.stage.Streaming? && s.cursor < |s.entries| - 1 {
      EndsRise(s.entries, s.headerSize, s.cursor, |s.entries| - 1);
    }
  }

  // ----- a last entry without bytes -----

  /** The stream has not gone past a last entry that has no bytes. */
  ghost predicate StopsShort(stream: bytes, all: bytes) {
    Layout(all).Some? &&
    var es := Layout(all).value.0;
    es != [] && es[|es| - 1].size == 0 && |stream| <= LastEnd(es)
  }

  /** Such an entry is not visited before a further byte arrives. */
  lemma RoundWaits<S(!new), D>(env: Env<S, D>, s: State<Traced<S>, D>, stream: bytes, data: bytes, all: bytes)
    requires Willing(env.ops) && OnTrack(s, stream, all) && Valid(TracedEnv(env), s) && !s.nczActive && !s.stage.Failed? && !s.stage.Complete?
    requires Installable(all) && stream + data <= all && StopsShort(stream + data, all) && data != []
    ensures !Iter(TracedEnv(env), s, data).0.stage.Complete?
  {
    hide Delivered, Willing, WellFormed, StepMagic, StepHeader, StepEntry, Valid, TracedEnv, Layout, Advance;
    match s.stage
    case Magic => MagicSucceeds(env, s, stream, data, all);
    case Header => HeaderSucceeds(env, s, stream, data, all);
    case Streaming =>
      StreamingIsInside(s, stream);
      assert |stream| + |data| < U64_LIMIT by { Ahead(stream, data, all); }
      var e := s.entries[s.cursor];
      if s.streamPos >= e.absOffset {
        var chunk := data[..Min(|data|, Sub64(EntryEnd(e), s.streamPos))];
        EntryMoves(TracedEnv(env), s, chunk);
      }
  }

  lemma StreamingIsInside<S, D>(s: State<Traced<S>, D>, stream: bytes)
    requires Delivered(s, stream) && s.stage.Streaming?
    ensures s.cursor < |s.entries| && s.streamPos == |stream| && |stream| <= s.entries[s.cursor].absOffset + s.entries[s.cursor].size < U64_LIMIT
  {
    hide InStep, MetaListed, Run, InEntries;
    CurrentEntry(s, stream);
  }

  lemma {:induction false} FeedWaits<S(!new), D>(env: Env<S, D>, s: State<Traced<S>, D>, stream: bytes, data: bytes, all: bytes)
    requires Willing(env.ops) && OnTrack(s, stream, all) && Valid(TracedEnv(env), s) && !s.nczActive && !s.stage.Complete?
    requires Installable(all) && stream + data <= all && StopsShort(stream + data, all)
    ensures !Feed(TracedEnv(env), s, data).stage.Complete?
    decreases |data|, StageRank(s.stage), EntriesLeft(s)
  {
    hide OnTrack, Willing, Installable, Iter, Valid, TracedEnv, StopsShort;
    if data != [] {
      NotFailed(s, stream, all);
      RoundWaits(env, s, stream, data, all);
      RoundSucceeds(env, s, stream, data, all);
      IterProgress(TracedEnv(env), s, data);
      var (t, used) := Iter(TracedEnv(env), s, data);
      assert stream + data[..used] + data[used..] == stream + data;
      FeedWaits(env, t, stream + data[..used], data[used..], all);
    }
  }

  lemma StopsEarlier(stream: bytes, all: bytes)
    requires StopsShort(all, all) && |stream| <= |all|
    ensures StopsShort(stream, all)
  {
    hide Layout;
  }

  lemma {:induction false} ChunksWait<S(!new), D>(env: Env<S, D>, s: State<Traced<S>, D>, stream: bytes,
                                                  chunks: seq<bytes>, all: bytes)
    requires Willing(env.ops) && OnTrack(s, stream, all) && Valid(TracedEnv(env), s) && !s.nczActive && !s.stage.Complete?
    requires Installable(all) && stream + Joined(chunks) == all && StopsShort(all, all)
    ensures !FeedAll(TracedEnv(env), s, chunks).stage.Complete?
    decreases |chunks|
  {
    hide OnTrack, Willing, Installable, Feed, Valid, TracedEnv, StopsShort;
    if chunks != [] {
      var c, rest := chunks[0], Joined(chunks[1..]);
      assert stream + (c + rest) == stream + c + rest;
      assert stream + c <= all;
      StopsEarlier(stream + c, all);
      FeedWaits(env, s, stream, c, all);
      FeedSucceeds(env, s, stream, c, all);
      ChunksWait(env, Feed(TracedEnv(env), s, c), stream + c, chunks[1..], all);
    }
  }

  /**
   * Streaming a well-formed container to a backend that accepts it, in chunks of any size: nothing fails,
   * and once the stream has gone past the last entry (or ended it with a byte of its own) every content
   * has been committed with its bytes, and the ticket and the certificate chain are whole.
   */
  lemma WholeStreamInstalls<S(!new), D>(env: Env<S, D>, user: S, d: D, chunks: seq<bytes>)
    requires Willing(env.ops) && Installable(Joined(chunks))
    requires var es := Layout(Joined(chunks)).value.0;
             es != [] && (LastEnd(es) < |Joined(chunks)| || (LastEnd(es) == |Joined(chunks)| && es[|es| - 1].size > 0))
    ensures var s := Begin(TracedEnv(env), Traced(user, []), d);
            && Valid(TracedEnv(env), s)
            && var t := FeedAll(TracedEnv(env), s, chunks);
               var stream := Joined(chunks);
               var es := Layout(stream).value.0;
               && t.stage.Complete? && t.entries == es && !t.contentOpen
               && Run(t.user.log).stored == Contents(es, stream) && Run(t.user.log).open.None?
               && t.tik == Gathered(Ticket, es, stream) && t.cert == Gathered(Cert, es, stream)
  {
    hide Willing, FeedAll, Run, Installable, Delivered, InStep, Joined, Layout, Valid, TracedEnv, Contents, Gathered;
    var stream := Joined(chunks);
    StartsInStep(env, user, d);
    BeginDelivered(env, user, d);
    assert [] + stream == stream;
    var s := Begin(TracedEnv(env), Traced(user, []), d);
    ChunksSucceed(env, s, [], chunks, stream);
    Ends(env, FeedAll(TracedEnv(env), s, chunks), stream);
  }

  lemma Ends<S, D>(env: Env<S, D>, t: State<Traced<S>, D>, stream: bytes)
    requires Valid(TracedEnv(env), t) && OnTrack(t, stream, stream) && Installable(stream)
    requires var es := Layout(stream).value.0;
             es != [] && (LastEnd(es) < |stream| || (LastEnd(es) == |stream| && es[|es| - 1].size > 0))
    ensures var es := Layout(stream).value.0;
            && t.stage.Complete? && t.entries == es && !t.contentOpen
            && Run(t.user.log).stored == Contents(es, stream) && Run(t.user.log).open.None?
            && t.tik == Gathered(Ticket, es, stream) && t.cert == Gathered(Cert, es, stream)
  {
    hide Run, DisjointEntries, SizeOf, InStep, StoredIs, MetaListed, OpenIs, Past, Gathered, Contents, Layout, TracedEnv;
    HeaderIsThere(env, t, stream);
    EndReached(t, stream);
    assert t.entries[..|t.entries|] == t.entries;
    OpenIsFlag(t);
    NotYetOpen(t);
    StoredIsContents(Run(t.user.log).stored, t.entries, stream);
  }

  /** A stream that holds a whole header has left the header stages. */
  lemma HeaderIsThere<S, D>(env: Env<S, D>, t: State<Traced<S>, D>, stream: bytes)
    requires Delivered(t, stream) && Valid(TracedEnv(env), t) && Layout(stream).Some?
    ensures t.stage.Streaming? || t.stage.Complete?
  {
    hide InStep, InEntries, MetaListed, TracedEnv, Layout;
    LayoutNeedsHeader(stream);
  }

  /**
   * A stream that holds every entry completes exactly when its last entry has bytes or is followed by one:
   * a last entry without bytes is only visited when a further byte arrives.
   */
  lemma CompletesIff<S(!new), D>(env: Env<S, D>, user: S, d: D, chunks: seq<bytes>)
    requires Willing(env.ops) && Installable(Joined(chunks))
    requires var es := Layout(Joined(chunks)).value.0; es != [] && LastEnd(es) <= |Joined(chunks)|
    ensures var s := Begin(TracedEnv(env), Traced(user, []), d);
            && Valid(TracedEnv(env), s)
            && var es := Layout(Joined(chunks)).value.0;
               FeedAll(TracedEnv(env), s, chunks).stage.Complete? <==>
                 es[|es| - 1].size > 0 || LastEnd(es) < |Joined(chunks)|
  {
    hide Willing, FeedAll, Run, DisjointEntries, SizeOf, Delivered, InStep, Joined, Layout, Valid, TracedEnv, Contents, Gathered;
    var all := Joined(chunks);
    var es := Layout(all).value.0;
    StartsInStep(env, user, d);
    BeginDelivered(env, user, d);
    if es[|es| - 1].size > 0 || LastEnd(es) < |all| {
      WholeStreamInstalls(env, user, d, chunks);
    } else {
      assert [] + all == all;
      ChunksWait(env, Begin(TracedEnv(env), Traced(user, []), d), [], chunks, all);
    }
  }
}
