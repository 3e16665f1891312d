/** Which content a finish takes for the title's own: the last meta entry of the container, with the size of its file. */
module MetaContent {
  import opened Bytes
  import opened EntryNames
  import opened InstallSpec
  import opened ChunkIndependence
  import opened EntryTable
  import opened Delivery
  import opened Completion
  import Pfs = PartitionFs

  /**
   * The meta content is the header's, and nothing else of the record is known yet; while nothing compressed has been
   * through, the size of the meta content is the one the header gives.
   */
  ghost predicate MetaFrom<S, D>(env: Env<S, D>, s: State<S, D>, stream: bytes) {
    match s.stage
    case Magic => Unparsed(env, s, stream)
    case Header =>
      && Unparsed(env, s, stream) && Pfs.HEADER_SIZE <= |stream|
      && Pfs.PeekHeaderSize(stream).Ok? && Pfs.PeekHeaderSize(stream).value.1 == s.headerSize
    case Failed(_) => true
    case _ => MetaKnown(env, s, stream)
  }

  ghost predicate Unparsed<S, D>(env: Env<S, D>, s: State<S, D>, stream: bytes) {
    s.header == stream && !s.nczActive && s.meta == EmptyMeta(env.target)
  }

  ghost predicate MetaKnown<S, D>(env: Env<S, D>, s: State<S, D>, stream: bytes) {
    && HeaderMeta(stream).Some? && s.metaId == HeaderMeta(stream).value.contentId && s.meta == EmptyMeta(env.target)
    && (NoCompressed(s.entries) ==> !s.nczActive && s.metaSize == HeaderMeta(stream).value.size)
  }

  lemma MagicMeta<S, D>(env: Env<S, D>, s: State<S, D>, stream: bytes, data: bytes)
    requires MetaFrom(env, s, stream) && Valid(env, s) && s.stage.Magic?
    ensures var (t, used) := StepMagic(env, s, data); MetaFrom(env, t, stream + data[..used])
  {
    hide Advance, Pfs.PeekHeaderSize;
  }

  lemma HeaderMetaFrom<S, D>(env: Env<S, D>, s: State<S, D>, stream: bytes, data: bytes)
    requires MetaFrom(env, s, stream) && Valid(env, s) && s.stage.Header?
    ensures var (t, used) := StepHeader(env, s, data); MetaFrom(env, t, stream + data[..used])
  {
    hide Advance, Pfs.PeekHeaderSize, OpenContainer, MetaKnown;
    var used := Min(|data|, s.headerSize - |s.header|);
    var h := stream + data[..used];
    Pfs.PeekIsLocal(stream, h);
    if |h| == s.headerSize {
      OpenMeta(env, Absorb(s, data[..used]), h);
    }
  }

  lemma OpenMeta<S, D>(env: Env<S, D>, s: State<S, D>, h: bytes)
    requires Unparsed(env, s, h) && s.stage.Header? && s.headerSize == |h| <= MAX_HEADER
    requires Pfs.PeekHeaderSize(h).Ok? && Pfs.PeekHeaderSize(h).value.1 == |h| && !s.hasMeta
    ensures var t := OpenContainer(env, s); t.stage.Failed? || (t.stage.Streaming? && MetaKnown(env, t, h))
  {
    hide Pfs.PeekHeaderSize, Pfs.Parse, Collect, LastMeta, SortByOffset, NoCompressed;
    assert h[..|h|] == h;
  }

  /** A visit to an entry keeps the meta content, and without a decoder its size. */
  lemma EntryKeepsMeta<S, D>(env: Env<S, D>, s: State<S, D>, chunk: bytes)
    requires s.stage.Streaming? && s.cursor < |s.entries| && (s.nczActive ==> env.ncz.Some?)
    ensures var t := StepEntry(env, s, chunk);
            && t.metaId == s.metaId && t.meta == s.meta && t.entries == s.entries
            && (!s.nczActive && !IsCompressed(s.entries[s.cursor].kind) ==> t.metaSize == s.metaSize && !t.nczActive)
  {
    hide OpenEntry, Consume, CloseEntry, EntryEnd;
    OpenShape(env, s);
    var t := OpenEntry(env, s);
    if !s.nczActive && !IsCompressed(s.entries[s.cursor].kind) {
      PlainOpen(env, s);
    }
    if !t.stage.Failed? {
      ConsumeShape(env, t, chunk);
      var u := Consume(env, t, chunk);
      if !u.stage.Failed? && u.streamPos >= EntryEnd(s.entries[s.cursor]) {
        CloseShape(env, u);
        if !u.nczActive {
          PlainClose(env, u);
        }
      }
    }
  }

  lemma PlainOpen<S, D>(env: Env<S, D>, s: State<S, D>)
    requires s.cursor < |s.entries| && !s.nczActive && !IsCompressed(s.entries[s.cursor].kind)
    ensures !OpenEntry(env, s).nczActive
  {
  }

  lemma PlainClose<S, D>(env: Env<S, D>, s: State<S, D>)
    requires s.cursor < |s.entries| && !s.nczActive
    ensures CloseEntry(env, s).metaSize == s.metaSize && !CloseEntry(env, s).nczActive
  {
  }

  lemma StreamingMeta<S, D>(env: Env<S, D>, s: State<S, D>, stream: bytes, data: bytes)
    requires MetaFrom(env, s, stream) && Valid(env, s) && s.stage.Streaming?
    ensures var (t, used) := StepStreaming(env, s, data); used <= |data| && MetaFrom(env, t, stream + data[..used])
  {
    hide Advance, StepEntry, EntryEnd, HeaderMeta, NoCompressed;
    var used := StepStreaming(env, s, data).1;
    HeaderMetaStays(stream, data[..used]);
    if s.cursor < |s.entries| && s.streamPos >= s.entries[s.cursor].absOffset {
      EntryKeepsMeta(env, s, data[..used]);
      EntryShape(env, s, data[..used]);
      assert NoCompressed(s.entries) ==> !IsCompressed(s.entries[s.cursor].kind) by { OneOfThem(s.entries, s.cursor); }
    }
  }

  lemma OneOfThem(es: seq<Entry>, i: nat)
    requires i < |es|
    ensures NoCompressed(es) ==> !IsCompressed(es[i].kind)
  {
  }

  lemma {:induction false} FeedMeta<S, D>(env: Env<S, D>, s: State<S, D>, stream: bytes, data: bytes)
    requires MetaFrom(env, s, stream) && Valid(env, s)
    ensures MetaFrom(env, Feed(env, s, data), stream + data)
    decreases |data|, StageRank(s.stage), EntriesLeft(s)
  {
    hide MetaFrom, Iter, Valid;
    if data == [] {
      assert stream + data == stream;
    } else if s.stage.Failed? {
      FailedIsFree(env, s, stream + data);
    } else {
      IterProgress(env, s, data);
      RoundMeta(env, s, stream, data);
      var (t, used) := Iter(env, s, data);
      assert stream + data[..used] + data[used..] == stream + data;
      FeedMeta(env, t, stream + data[..used], data[used..]);
    }
  }

  lemma FailedIsFree<S, D>(env: Env<S, D>, s: State<S, D>, stream: bytes)
    requires s.stage.Failed?
    ensures MetaFrom(env, s, stream)
  {
  }

  lemma RoundMeta<S, D>(env: Env<S, D>, s: State<S, D>, stream: bytes, data: bytes)
    requires MetaFrom(env, s, stream) && Valid(env, s) && !s.stage.Failed?
    ensures var (t, used) := Iter(env, s, data); MetaFrom(env, t, stream + data[..used])
  {
    hide StepMagic, StepHeader, StepStreaming, HeaderMeta, NoCompressed, Advance;
    match s.stage
    case Magic => MagicMeta(env, s, stream, data);
    case Header => HeaderMetaFrom(env, s, stream, data);
    case Streaming => StreamingMeta(env, s, stream, data);
    case Complete => HeaderMetaStays(stream, data[..|data|]);
  }

  lemma {:induction false} ChunksMeta<S, D>(env: Env<S, D>, s: State<S, D>, stream: bytes, chunks: seq<bytes>)
    requires MetaFrom(env, s, stream) && Valid(env, s)
    ensures MetaFrom(env, FeedAll(env, s, chunks), stream + Joined(chunks))
    decreases |chunks|
  {
    hide MetaFrom, Feed, Valid;
    if chunks == [] {
      assert stream + [] == stream;
    } else {
      FeedMeta(env, s, stream, chunks[0]);
      assert stream + (chunks[0] + Joined(chunks[1..])) == stream + chunks[0] + Joined(chunks[1..]);
      ChunksMeta(env, Feed(env, s, chunks[0]), stream + chunks[0], chunks[1..]);
    }
  }

  /** However the stream is cut and whatever the hooks do: once the header is through, the meta content is the last one it lists. */
  lemma MetaIsLast<S, D>(env: Env<S, D>, user: S, d: D, chunks: seq<bytes>)
    ensures var s := Begin(env, user, d);
            && Valid(env, s)
            && var t := FeedAll(env, s, chunks);
               t.stage.Streaming? || t.stage.Complete? ==> MetaKnown(env, t, Joined(chunks))
  {
    hide FeedAll, MetaKnown;
    var s := Begin(env, user, d);
    ChunksMeta(env, s, [], chunks);
    assert [] + Joined(chunks) == Joined(chunks);
  }
}
