/**
 * With a backend that accepts everything, a well-formed container installs with its compressed contents: when
 * each of them rebuilds along the pieces it arrives in, it is committed as the file it rebuilds to.
 */
module NszCompletion {
  import opened Bytes
  import opened EntryNames
  import opened InstallSpec
  import opened InstallTrace
  import opened ChunkIndependence
  import opened EntryTable
  import opened Delivery
  import opened Completion
  import opened NczDecode
  import opened NczRebuild
  import opened NczCuts
  import opened NszDelivery
  import Ncz
  import Pfs = PartitionFs

  /** Every compressed entry rebuilds along these chunks, or stops short of its own table. */
  ghost predicate Rebuildable<Z(!new)>(zstd: Zstd<Z>, aes: BlockCipher, chunks: seq<bytes>)
    requires Sound(zstd)
  {
    WellFormed(Joined(chunks)) && AllEnded(zstd, aes, Layout(Joined(chunks)).value.0, chunks)
  }

  // ----- the sink -----

  lemma SinkTakes<S(!new), D>(env: Env<S, D>, s: State<Traced<S>, D>, em: Emission)
    requires Willing(env.ops) && s.cursor < |s.entries| && em.size > 0
    ensures Sink(TracedEnv(env), s, em).1
  {
    hide TracedOps, Willing, Advance;
    WillingReplies(env, s.user);
    WillingReplies(env, OpenForSink(TracedEnv(env), s, em.size).0.user);
  }

  lemma {:induction false} RunSinkTakes<S(!new), D>(env: Env<S, D>, s: State<Traced<S>, D>, ems: seq<Emission>)
    requires Willing(env.ops) && s.cursor < |s.entries| && forall em :: em in ems ==> em.size > 0
    ensures RunSink(TracedEnv(env), s, ems).1
    decreases |ems|
  {
    hide Sink, Willing;
    if ems != [] {
      SinkTakes(env, s, ems[0]);
      SinkShape(TracedEnv(env), s, ems[0]);
      RunSinkTakes(env, Sink(TracedEnv(env), s, ems[0]).0, ems[1..]);
    }
  }

  /** Whatever a decoder sends it announces with a size. */
  lemma SizesAreAnnounced<Z(!new)>(zstd: Zstd<Z>, aes: BlockCipher, z: Z, feeds: seq<bytes>)
    requires Sound(zstd)
    ensures var o := EntryOutcome(zstd, aes, z, feeds); o.ok ==> forall p :: p in o.sent ==> p.0 > 0
  {
    hide MadeBehind, Ncz.Parse, NeedFor, Rebuilt, Joined;
    HistoryIsEntry(feeds);
    var h := HistoryOf(feeds);
    if h.Opened? && Ncz.Parse(h.x[Ncz.HEADER_OFFSET..]).Ok? {
      TableIsBehind(h.x);
    }
  }

  lemma {:induction false} FlatSizes(ems: seq<Emission>)
    requires NoEmptyEmission(ems) && forall p :: p in Flat(ems) ==> p.0 > 0
    ensures forall em :: em in ems ==> em.size > 0
  {
    if ems != [] {
      assert Tag(ems[0])[0] == (ems[0].size, ems[0].data[0]) && Flat(ems)[0] == Tag(ems[0])[0];
      assert forall p :: p in Flat(ems[1..]) ==> p in Flat(ems);
      FlatSizes(ems[1..]);
      forall em | em in ems
        ensures em == ems[0] || em in ems[1..]
      {
      }
    }
  }

  // ----- a compressed entry -----

  /** Later chunks only add feeds. */
  lemma {:induction false} FeedsPrefix(e: Entry, chunks: seq<bytes>, rest: seq<bytes>) returns (more: seq<bytes>)
    ensures FeedsOf(e, chunks + rest) == FeedsOf(e, chunks) + more
    decreases |rest|
  {
    hide FeedsOf;
    if rest == [] {
      assert chunks + rest == chunks;
      more := [];
    } else {
      var n := |rest| - 1;
      var before := FeedsPrefix(e, chunks, rest[..n]);
      FeedsMore(e, chunks + rest[..n], rest[n]);
      assert chunks + rest[..n] + [rest[n]] == chunks + rest;
      more := before + AsFeed(PieceOf(e, |Joined(chunks + rest[..n])|, rest[n]));
    }
  }

  /** What an entry takes of a chunk, with the part before it, is all the chunk brings of it. */
  ghost predicate Takes(e: Entry, done: seq<bytes>, part: bytes, data: bytes, take: nat) {
    take == |data| || (take < |data| && |Joined(done)| + |part| + take == e.absOffset + e.size)
  }

  lemma TakenFeeds(e: Entry, done: seq<bytes>, part: bytes, data: bytes, take: nat)
    requires Takes(e, done, part, data, take)
    ensures FeedsOf(e, done + [part + data]) == FeedsOf(e, done + [part + data[..take]])
  {
    if take == |data| {
      assert data[..take] == data;
    } else {
      FeedsStay(e, done, part + data[..take], data[take..]);
      assert part + data[..take] + data[take..] == part + data;
    }
  }

  /** An entry that ends well has gone well all along. */
  lemma PrefixGoesWell<Z(!new)>(zstd: Zstd<Z>, aes: BlockCipher, z: Z, e: Entry, done: seq<bytes>, part: bytes,
                                data: bytes, take: nat, rest: seq<bytes>)
    requires Sound(zstd) && IsCompressed(e.kind) && Ended(zstd, aes, e, done + [part + data] + rest) && Takes(e, done, part, data, take)
    ensures EntryOutcome(zstd, aes, z, FeedsOf(e, done + [part + data[..take]])).ok
  {
    hide EntryOutcome, RebuildAlong, EndsInPrelude, FeedsOf, Arrived, Joined;
    var all := done + [part + data] + rest;
    TakenFeeds(e, done, part, data, take);
    var more := FeedsPrefix(e, done + [part + data], rest);
    FeedsAreArrived(e, all);
    AlongCases(zstd, aes, z, FeedsOf(e, all));
    var feeds := FeedsOf(e, done + [part + data[..take]]);
    if !EntryOutcome(zstd, aes, z, feeds).ok {
      FailsForAll(zstd, aes, z, feeds, more);
    }
  }

  lemma FeedPasses<S(!new), Z(!new)>(zstd: Zstd<Z>, aes: BlockCipher, env: Env<S, Decoder<Z>>,
                                     s: State<Traced<S>, Decoder<Z>>, feeds: seq<bytes>, chunk: bytes)
    requires Sound(zstd) && Willing(env.ops) && env.ncz == Some(DecoderOps(zstd, aes)) && s.cursor < |s.entries|
    requires FedAlong(zstd, aes, s.nczUser, s.nczUser.z, feeds) && EntryOutcome(zstd, aes, s.nczUser.z, feeds + [chunk]).ok && !s.stage.Failed?
    ensures !FeedDecoder(TracedEnv(env), s, chunk).stage.Failed?
  {
    hide Willing, RunSink, TracedOps, FeedEntry, FedAlong, EntryOutcome, Flat, Fail;
    FedIsOk(zstd, aes, s.nczUser, s.nczUser.z, feeds);
    FeedAdds(zstd, aes, s.nczUser, s.nczUser.z, feeds, chunk);
    var r := FeedEntry(zstd, aes, s.nczUser, chunk);
    SizesAreAnnounced(zstd, aes, s.nczUser.z, feeds + [chunk]);
    assert forall p :: p in Flat(r.emissions) ==> p in EntryOutcome(zstd, aes, s.nczUser.z, feeds).sent + Flat(r.emissions);
    FlatSizes(r.emissions);
    RunSinkTakes(env, s, r.emissions);
    assert env.ncz.value.feed(s.nczUser, chunk) == r;
  }

  /** The chunk being fed, as far as it has been, the rest of it and what is still to come; the entry takes `take` bytes. */
  lemma CompressedConsumes<S(!new), Z(!new)>(zstd: Zstd<Z>, aes: BlockCipher, env: Env<S, Decoder<Z>>,
                                             s: State<Traced<S>, Decoder<Z>>,
                                             e: Entry, done: seq<bytes>, part: bytes, data: bytes, take: nat, rest: seq<bytes>)
    requires Sound(zstd) && Willing(env.ops) && env.ncz == Some(DecoderOps(zstd, aes))
    requires s.cursor < |s.entries| && e == s.entries[s.cursor] && IsCompressed(e.kind) && s.nczActive && !s.stage.Failed?
    requires Tracks(zstd, aes, s, e, done + [part]) && Untouched(e, done, part) && Takes(e, done, part, data, take)
    requires e.absOffset <= |Joined(done)| + |part| && |Joined(done)| + |part| + take <= e.absOffset + e.size
    requires Ended(zstd, aes, e, done + [part + data] + rest)
    ensures !Consume(TracedEnv(env), s, data[..take]).stage.Failed?
  {
    hide Willing, TracedOps, FeedDecoder, FedAlong, EntryOutcome, Ended, FeedsOf, Run, Sent, Advance, Joined;
    var chunk := data[..take];
    FeedsGrow(e, done, part, chunk);
    PrefixGoesWell(zstd, aes, s.nczUser.z, e, done, part, data, take, rest);
    if chunk != [] {
      FeedPasses(zstd, aes, env, s, FeedsOf(e, done + [part]), chunk);
    }
  }

  lemma CompressedCloses<S(!new), Z(!new)>(zstd: Zstd<Z>, aes: BlockCipher, env: Env<S, Decoder<Z>>,
                                           s: State<Traced<S>, Decoder<Z>>, e: Entry, chunks: seq<bytes>)
    requires Sound(zstd) && Willing(env.ops) && env.ncz == Some(DecoderOps(zstd, aes))
    requires s.cursor < |s.entries| && e == s.entries[s.cursor] && IsCompressed(e.kind) && s.nczActive && !s.stage.Failed?
    requires Tracks(zstd, aes, s, e, chunks) && Ended(zstd, aes, e, chunks)
    ensures !CloseEntry(TracedEnv(env), s).stage.Failed?
  {
    hide Willing, TracedOps, EntryOutcome, RebuildAlong, EndsInPrelude, Arrived, Run, Sent, DecoderOk, FeedsOf;
    FeedsAreArrived(e, chunks);
    AlongCases(zstd, aes, s.nczUser.z, FeedsOf(e, chunks));
    EndIsEndsWell(zstd, aes, s.nczUser);
    var t := EndDecoder(TracedEnv(env), s);
    assert t.user == s.user;
    WillingReplies(env, s.user);
  }

  /** Past an entry's end nothing more is said about it. */
  lemma EndedThere<Z(!new)>(zstd: Zstd<Z>, aes: BlockCipher, e: Entry, done: seq<bytes>, part: bytes, data: bytes,
                            take: nat, rest: seq<bytes>)
    requires Sound(zstd) && Takes(e, done, part, data, take) && |Joined(done)| + |part| + take == e.absOffset + e.size
    requires Ended(zstd, aes, e, done + [part + data] + rest)
    ensures Ended(zstd, aes, e, done + [part + data[..take]])
  {
    hide RebuildAlong, EndsInPrelude, FeedsOf, Arrived, Joined;
    TakenFeeds(e, done, part, data, take);
    JoinedMore(done, part + data[..take]);
    JoinedMore(done, part + data);
    var here, chunk := Joined(done + [part + data[..take]]), done + [part + data];
    assert data[..take] + data[take..] == data;
    assert Joined(chunk) == here + data[take..];
    ArrivedStays(e, here, data[take..]);
    FeedsBehind(e, chunk, rest);
  }

  lemma {:induction false} FeedsBehind(e: Entry, chunks: seq<bytes>, rest: seq<bytes>)
    requires e.absOffset + e.size <= |Joined(chunks)|
    ensures FeedsOf(e, chunks + rest) == FeedsOf(e, chunks) && Arrived(e, Joined(chunks + rest)) == Arrived(e, Joined(chunks))
    decreases |rest|
  {
    hide Arrived, FeedsOf;
    if rest == [] {
      assert chunks + rest == chunks;
    } else {
      var n := |rest| - 1;
      FeedsBehind(e, chunks, rest[..n]);
      assert chunks + rest[..n] + [rest[n]] == chunks + rest;
      JoinedAppend(chunks, rest[..n]);
      FeedsMore(e, chunks + rest[..n], rest[n]);
      ArrivedStays(e, Joined(chunks + rest[..n]), rest[n]);
      assert PieceOf(e, |Joined(chunks + rest[..n])|, rest[n]) == [];
    }
  }

  lemma CompressedPasses<S(!new), Z(!new)>(zstd: Zstd<Z>, aes: BlockCipher, env: Env<S, Decoder<Z>>,
                                           s: State<Traced<S>, Decoder<Z>>,
                                           done: seq<bytes>, part: bytes, data: bytes, take: nat, rest: seq<bytes>)
    requires Sound(zstd) && Willing(env.ops) && env.ncz == Some(DecoderOps(zstd, aes))
    requires Exact(zstd, aes, s, done + [part]) && s.stage.Streaming? && Untouched(s.entries[s.cursor], done, part)
    requires var e := s.entries[s.cursor];
             && IsCompressed(e.kind) && e.absOffset <= |Joined(done)| + |part| && Takes(e, done, part, data, take)
             && |Joined(done)| + |part| + take <= e.absOffset + e.size < U64_LIMIT && Ended(zstd, aes, e, done + [part + data] + rest)
    ensures !StepEntry(TracedEnv(env), s, data[..take]).stage.Failed?
  {
    hide Willing, Exact, Run, OpenEntry, Consume, CloseEntry, TracedOps, Tracks, Ended, Joined, Untouched, InStep;
    ExactInside(zstd, aes, s, done, part);
    var e, chunk, stream := s.entries[s.cursor], data[..take], Joined(done) + part;
    ExactTracks(zstd, aes, s, done + [part]);
    JoinedMore(done, part);
    OpenShape(TracedEnv(env), s);
    OpenTracks(zstd, aes, env, s, e, done + [part]);
    var t := OpenEntry(TracedEnv(env), s);
    CompressedConsumes(zstd, aes, env, t, e, done, part, data, take, rest);
    ConsumeShape(TracedEnv(env), t, chunk);
    var u := Consume(TracedEnv(env), t, chunk);
    if u.streamPos >= EntryEnd(e) {
      AdvanceTwice(|stream|, |chunk|, 0);
      EndedThere(zstd, aes, e, done, part, data, take, rest);
      VisitReady(env, s, stream, chunk);
      ReadyInStep(t, stream);
      ConsumeTracks(zstd, aes, env, t, e, done, part, chunk);
      CompressedCloses(zstd, aes, env, u, e, done + [part + chunk]);
    }
  }

  lemma ReadyInStep<S, D>(s: State<Traced<S>, D>, stream: bytes)
    requires Ready(s, stream)
    ensures InStep(s)
  {
    hide InStep, InEntries;
  }

  lemma ExactTracks<S, Z(!new)>(zstd: Zstd<Z>, aes: BlockCipher, s: State<Traced<S>, Decoder<Z>>, chunks: seq<bytes>)
    requires Sound(zstd) && Exact(zstd, aes, s, chunks) && s.stage.Streaming?
    ensures s.cursor < |s.entries|
    ensures IsCompressed(s.entries[s.cursor].kind) ==> Tracks(zstd, aes, s, s.entries[s.cursor], chunks)
  {
    hide InStep, InEntries, MetaListed, Run, Owed, AllEnded, Tracks, Layout, Joined;
  }

  // ----- rounds of the feed loop -----

  /** The decoder is only active inside a compressed entry. */
  ghost predicate Idle<S, D>(s: State<S, D>) {
    s.nczActive ==> s.stage.Failed? || (s.stage.Streaming? && s.cursor < |s.entries| && IsCompressed(s.entries[s.cursor].kind))
  }

  /** A run on its way through `all`, with `part` of the current chunk fed. */
  ghost predicate Going<S, Z(!new)>(zstd: Zstd<Z>, aes: BlockCipher, s: State<Traced<S>, Decoder<Z>>, done: seq<bytes>,
                                    part: bytes, all: bytes)
    requires Sound(zstd)
  {
    OnTrack(s, Joined(done) + part, all) && Exact(zstd, aes, s, done + [part]) && Idle(s)
  }

  lemma OpenStaysIdle<S, D>(env: Env<S, D>, s: State<S, D>)
    requires Idle(s) && s.stage.Streaming? && s.cursor < |s.entries| && (s.nczActive ==> env.ncz.Some?)
    ensures Idle(OpenEntry(env, s))
  {
  }

  lemma EntryStaysIdle<S, D>(env: Env<S, D>, s: State<S, D>, chunk: bytes)
    requires Idle(s) && s.stage.Streaming? && s.cursor < |s.entries| && (s.nczActive ==> env.ncz.Some?)
    ensures Idle(StepEntry(env, s, chunk))
  {
    hide OpenEntry, Consume, CloseEntry, EntryEnd;
    OpenShape(env, s);
    OpenStaysIdle(env, s);
    var o := OpenEntry(env, s);
    if !o.stage.Failed? {
      ConsumeShape(env, o, chunk);
      var u := Consume(env, o, chunk);
      if !u.stage.Failed? && u.streamPos >= EntryEnd(s.entries[s.cursor]) {
        CloseShape(env, u);
      }
    }
  }

  /** All the chunks, with the current one taken apart. */
  function AllOf(done: seq<bytes>, part: bytes, data: bytes, rest: seq<bytes>): seq<bytes> {
    done + [part + data] + rest
  }

  lemma AllIsStream(done: seq<bytes>, part: bytes, data: bytes, rest: seq<bytes>)
    ensures Joined(AllOf(done, part, data, rest)) == Joined(done) + part + data + Joined(rest)
    ensures Joined(done) + part + data <= Joined(AllOf(done, part, data, rest))
  {
    hide Joined;
    JoinedMore(done, part + data);
    JoinedAppend(done + [part + data], rest);
    assert Joined(done) + (part + data) == Joined(done) + part + data;
  }

  lemma EntryGoes<S(!new), Z(!new)>(zstd: Zstd<Z>, aes: BlockCipher, env: Env<S, Decoder<Z>>, s: State<Traced<S>, Decoder<Z>>,
                                    done: seq<bytes>, part: bytes, data: bytes, take: nat, rest: seq<bytes>)
    requires Sound(zstd) && Willing(env.ops) && env.ncz == Some(DecoderOps(zstd, aes)) && Rebuildable(zstd, aes, AllOf(done, part, data, rest))
    requires Going(zstd, aes, s, done, part, Joined(AllOf(done, part, data, rest))) && s.stage.Streaming? && Waiting(s, done, part)
    requires var e := s.entries[s.cursor];
             && e.absOffset <= |Joined(done)| + |part| && Takes(e, done, part, data, take)
             && |Joined(done)| + |part| + take <= e.absOffset + e.size < U64_LIMIT
    ensures !StepEntry(TracedEnv(env), s, data[..take]).stage.Failed?
  {
    hide Willing, Exact, Delivered, StepEntry, TracedOps, Layout, Ended, SizeOf, DisjointEntries, Joined;
    ExactInside(zstd, aes, s, done, part);
    var e, all := s.entries[s.cursor], AllOf(done, part, data, rest);
    assert e in Layout(Joined(all)).value.0 && Ended(zstd, aes, e, all);
    if IsCompressed(e.kind) {
      CompressedPasses(zstd, aes, env, s, done, part, data, take, rest);
    } else {
      EntrySucceeds(env, s, Joined(done) + part, data[..take]);
    }
  }

  lemma StreamingGoes<S(!new), Z(!new)>(zstd: Zstd<Z>, aes: BlockCipher, env: Env<S, Decoder<Z>>, s: State<Traced<S>, Decoder<Z>>,
                                        done: seq<bytes>, part: bytes, data: bytes, rest: seq<bytes>)
    requires Sound(zstd) && Willing(env.ops) && env.ncz == Some(DecoderOps(zstd, aes)) && Rebuildable(zstd, aes, AllOf(done, part, data, rest))
    requires Going(zstd, aes, s, done, part, Joined(AllOf(done, part, data, rest))) && s.stage.Streaming? && Waiting(s, done, part)
    requires Valid(TracedEnv(env), s)
    ensures var (t, used) := StepStreaming(TracedEnv(env), s, data);
            !t.stage.Failed? && t.entries == s.entries && t.headerSize == s.headerSize && Idle(t)
  {
    hide Willing, Exact, Delivered, StepEntry, TracedOps, Layout, Advance, Rebuildable, Joined, EntryEnd, OnTrack;
    ExactInside(zstd, aes, s, done, part);
    var e := s.entries[s.cursor];
    if s.streamPos >= e.absOffset {
      var take := Min(|data|, Sub64(EntryEnd(e), s.streamPos));
      EntryGoes(zstd, aes, env, s, done, part, data, take, rest);
      EntryKeepsLayout(TracedEnv(env), s, data[..take]);
      EntryStaysIdle(TracedEnv(env), s, data[..take]);
    }
  }

  lemma RoundGoes<S(!new), Z(!new)>(zstd: Zstd<Z>, aes: BlockCipher, env: Env<S, Decoder<Z>>, s: State<Traced<S>, Decoder<Z>>,
                                    done: seq<bytes>, part: bytes, data: bytes, rest: seq<bytes>)
    requires Sound(zstd) && Willing(env.ops) && env.ncz == Some(DecoderOps(zstd, aes)) && Rebuildable(zstd, aes, AllOf(done, part, data, rest))
    requires Going(zstd, aes, s, done, part, Joined(AllOf(done, part, data, rest))) && Waiting(s, done, part) && Valid(TracedEnv(env), s)
    requires !s.stage.Failed?
    ensures var (t, used) := Iter(TracedEnv(env), s, data);
            && Going(zstd, aes, t, done, part + data[..used], Joined(AllOf(done, part, data, rest)))
            && (used < |data| ==> Waiting(t, done, part + data[..used]))
  {
    hide Delivered, Exact, Willing, WellFormed, StepMagic, StepHeader, StepStreaming, Valid, TracedEnv, Layout,
      Advance, Joined, AllEnded, Waiting;
    var stream, all := Joined(done) + part, Joined(AllOf(done, part, data, rest));
    AllIsStream(done, part, data, rest);
    Ahead(stream, data, all);
    RoundDelivered(env, s, stream, data);
    RoundExact(zstd, aes, env, s, done, part, data);
    var used := Iter(TracedEnv(env), s, data).1;
    PrefixOf(stream, data, used, all);
    assert Joined(done) + (part + data[..used]) == stream + data[..used];
    match s.stage
    case Magic => MagicSucceeds(env, s, stream, data, all);
    case Header => HeaderSucceeds(env, s, stream, data, all);
    case Streaming => StreamingGoes(zstd, aes, env, s, done, part, data, rest);
    case Complete =>
  }

  lemma {:induction false} FeedGoes<S(!new), Z(!new)>(zstd: Zstd<Z>, aes: BlockCipher, env: Env<S, Decoder<Z>>,
                                                      s: State<Traced<S>, Decoder<Z>>,
                                                      done: seq<bytes>, part: bytes, data: bytes, rest: seq<bytes>)
    requires Sound(zstd) && Willing(env.ops) && env.ncz == Some(DecoderOps(zstd, aes)) && Rebuildable(zstd, aes, AllOf(done, part, data, rest))
    requires Going(zstd, aes, s, done, part, Joined(AllOf(done, part, data, rest))) && (data != [] ==> Waiting(s, done, part))
    requires Valid(TracedEnv(env), s)
    ensures Going(zstd, aes, Feed(TracedEnv(env), s, data), done, part + data, Joined(AllOf(done, part, data, rest)))
    decreases |data|, StageRank(s.stage), EntriesLeft(s)
  {
    hide OnTrack, Exact, Idle, Willing, Rebuildable, Iter, Valid, TracedEnv, Waiting, Joined;
    if data == [] {
      assert part + data == part;
    } else {
      NotFailed(s, Joined(done) + part, Joined(AllOf(done, part, data, rest)));
      RoundGoes(zstd, aes, env, s, done, part, data, rest);
      IterProgress(TracedEnv(env), s, data);
      var (t, used) := Iter(TracedEnv(env), s, data);
      assert part + data[..used] + data[used..] == part + data;
      FeedGoes(zstd, aes, env, t, done, part + data[..used], data[used..], rest);
    }
  }

  lemma {:induction false} ChunksGo<S(!new), Z(!new)>(zstd: Zstd<Z>, aes: BlockCipher, env: Env<S, Decoder<Z>>,
                                                      s: State<Traced<S>, Decoder<Z>>,
                                                      done: seq<bytes>, chunks: seq<bytes>)
    requires Sound(zstd) && Willing(env.ops) && env.ncz == Some(DecoderOps(zstd, aes)) && Rebuildable(zstd, aes, done + chunks)
    requires OnTrack(s, Joined(done), Joined(done + chunks)) && Exact(zstd, aes, s, done) && Idle(s) && Valid(TracedEnv(env), s)
    ensures var t := FeedAll(TracedEnv(env), s, chunks);
            OnTrack(t, Joined(done + chunks), Joined(done + chunks)) && Exact(zstd, aes, t, done + chunks) && Valid(TracedEnv(env), t)
    decreases |chunks|
  {
    hide OnTrack, Exact, Idle, Willing, Rebuildable, Feed, Valid, TracedEnv, Waiting, Joined;
    if chunks == [] {
      assert done + chunks == done;
    } else {
      var c, rest := chunks[0], chunks[1..];
      assert [] + c == c && AllOf(done, [], c, rest) == done + chunks && done + [c] + rest == done + chunks;
      assert Joined(done) + [] == Joined(done);
      NextChunk(zstd, aes, s, done);
      FeedGoes(zstd, aes, env, s, done, [], c, rest);
      JoinedMore(done, c);
      ChunksGo(zstd, aes, env, Feed(TracedEnv(env), s, c), done + [c], rest);
    }
  }

  lemma BeginGoes<S(!new), Z(!new)>(zstd: Zstd<Z>, aes: BlockCipher, env: Env<S, Decoder<Z>>, user: S, d: Decoder<Z>, all: bytes)
    requires Sound(zstd)
    ensures var s := Begin(TracedEnv(env), Traced(user, []), d);
            Valid(TracedEnv(env), s) && OnTrack(s, [], all) && Exact(zstd, aes, s, []) && Idle(s)
  {
    hide Delivered, Layout;
    StartsInStep(env, user, d);
    BeginDelivered(env, user, d);
  }

  /**
   * Streaming a well-formed container, compressed contents and all, to a backend that accepts it, in chunks of
   * any size: when each compressed content rebuilds along its pieces nothing fails, and once the stream is through
   * its last entry what has been committed is entry by entry the plain bytes or the rebuilt file.
   */
  lemma WholeCompressedStreamInstalls<S(!new), Z(!new)>(zstd: Zstd<Z>, aes: BlockCipher, env: Env<S, Decoder<Z>>,
                                                        user: S, d: Decoder<Z>, chunks: seq<bytes>)
    requires Sound(zstd) && Willing(env.ops) && env.ncz == Some(DecoderOps(zstd, aes)) && Rebuildable(zstd, aes, chunks)
    requires var es := Layout(Joined(chunks)).value.0;
             es != [] && (LastEnd(es) < |Joined(chunks)| || (LastEnd(es) == |Joined(chunks)| && es[|es| - 1].size > 0))
    ensures var s := Begin(TracedEnv(env), Traced(user, []), d);
            && Valid(TracedEnv(env), s)
            && var t := FeedAll(TracedEnv(env), s, chunks);
               && t.stage.Complete?
               && Run(t.user.log).stored == Owed(zstd, aes, Layout(Joined(chunks)).value.0, chunks) && Run(t.user.log).open.None?
  {
    hide Willing, FeedAll, Rebuildable, Exact, OnTrack, Idle, Joined, Layout, Valid, TracedEnv, Owed, Run, LastEnd;
    BeginGoes(zstd, aes, env, user, d, Joined(chunks));
    var s := Begin(TracedEnv(env), Traced(user, []), d);
    assert [] + chunks == chunks && Joined([]) == [] by { NothingJoined(); }
    ChunksGo(zstd, aes, env, s, [], chunks);
    GoesToTheEnd(zstd, aes, env, FeedAll(TracedEnv(env), s, chunks), chunks);
  }

  lemma NothingJoined()
    ensures Joined([]) == []
  {
  }

  lemma GoesToTheEnd<S(!new), Z(!new)>(zstd: Zstd<Z>, aes: BlockCipher, env: Env<S, Decoder<Z>>,
                                       t: State<Traced<S>, Decoder<Z>>, chunks: seq<bytes>)
    requires Sound(zstd) && Valid(TracedEnv(env), t) && Rebuildable(zstd, aes, chunks)
    requires OnTrack(t, Joined(chunks), Joined(chunks)) && Exact(zstd, aes, t, chunks)
    requires var es := Layout(Joined(chunks)).value.0;
             es != [] && (LastEnd(es) < |Joined(chunks)| || (LastEnd(es) == |Joined(chunks)| && es[|es| - 1].size > 0))
    ensures t.stage.Complete? && Run(t.user.log).stored == Owed(zstd, aes, Layout(Joined(chunks)).value.0, chunks) && Run(t.user.log).open.None?
  {
    hide Run, Delivered, Layout, TracedEnv, Owed, AllEnded, DisjointEntries, SizeOf, Tracks, Valid, Joined, SizeKnown;
    var stream := Joined(chunks);
    HeaderIsThere(env, t, stream);
    EndReached(t, stream);
    CompleteIsAll(t, stream);
    assert t.entries[..t.cursor] == t.entries;
    CompleteIsClosed(t, stream);
  }

  lemma CompleteIsClosed<S, D>(t: State<Traced<S>, D>, stream: bytes)
    requires Delivered(t, stream) && t.stage.Complete?
    ensures Run(t.user.log).open.None?
  {
    hide Run, InEntries, MetaListed;
    OpenIsFlag(t);
    NotYetOpen(t);
  }

  // ----- clean containers -----

  /** The placeholder an entry of a stream describes, or none. No cuts come into it. */
  ghost function DescribedFor<Z(!new), Y>(zstd: Zstd<Z>, m: Meaning<Z, Y>, aes: BlockCipher, e: Entry,
                                          stream: bytes): seq<Placeholder> {
    if IsCompressed(e.kind) then
      match Rebuild(zstd, m, aes, Arrived(e, stream))
      case None => []
      case Some(file) => [Placeholder(e.contentId, file.size, file.data)]
    else if IsContent(e.kind) then [Placeholder(e.contentId, e.size, Arrived(e, stream))]
    else []
  }

  ghost function Described<Z(!new), Y>(zstd: Zstd<Z>, m: Meaning<Z, Y>, aes: BlockCipher, es: seq<Entry>,
                                       stream: bytes): seq<Placeholder> {
    if es == [] then [] else Described(zstd, m, aes, es[..|es| - 1], stream) + DescribedFor(zstd, m, aes, es[|es| - 1], stream)
  }

  /** Every compressed entry is clean and describes a file, or stops short of its own table. */
  ghost predicate Describing<Z(!new), Y>(zstd: Zstd<Z>, m: Meaning<Z, Y>, aes: BlockCipher, es: seq<Entry>, stream: bytes)
    requires Sound(zstd)
  {
    forall e :: e in es && IsCompressed(e.kind) ==>
                  && Clean(zstd, m, Arrived(e, stream))
                  && (Rebuild(zstd, m, aes, Arrived(e, stream)).Some? || EndsInPrelude(Arrived(e, stream)))
  }

  lemma CleanIsOwed<Z(!new), Y>(zstd: Zstd<Z>, m: Meaning<Z, Y>, aes: BlockCipher, e: Entry, chunks: seq<bytes>)
    requires Sound(zstd) && Steady(zstd, m) && Local(zstd) && (IsCompressed(e.kind) ==> Clean(zstd, m, Arrived(e, Joined(chunks))))
    ensures OwedFor(zstd, aes, e, chunks) == DescribedFor(zstd, m, aes, e, Joined(chunks))
    ensures IsCompressed(e.kind) && Rebuild(zstd, m, aes, Arrived(e, Joined(chunks))).Some? ==> Ended(zstd, aes, e, chunks)
  {
    hide Steady, Local, Clean, Rebuild, RebuildAlong, Arrived;
    if IsCompressed(e.kind) {
      FeedsAreArrived(e, chunks);
      CleanCutsRebuild(zstd, m, aes, FeedsOf(e, chunks));
    }
  }

  lemma {:induction false} AllCleanOwed<Z(!new), Y>(zstd: Zstd<Z>, m: Meaning<Z, Y>, aes: BlockCipher, es: seq<Entry>,
                                                    chunks: seq<bytes>)
    requires Sound(zstd) && Steady(zstd, m) && Local(zstd) && Describing(zstd, m, aes, es, Joined(chunks))
    ensures Owed(zstd, aes, es, chunks) == Described(zstd, m, aes, es, Joined(chunks)) && AllEnded(zstd, aes, es, chunks)
    decreases |es|
  {
    hide Steady, Local, Clean, Rebuild, RebuildAlong, Arrived, OwedFor, DescribedFor, EndsInPrelude;
    if es != [] {
      var n := |es| - 1;
      assert es[n] in es;
      AllCleanOwed(zstd, m, aes, es[..n], chunks);
      CleanIsOwed(zstd, m, aes, es[n], chunks);
      forall i | 0 <= i < |es|
        ensures Ended(zstd, aes, es[i], chunks)
      {
        assert i < n ==> es[i] == es[..n][i];
      }
    }
  }

  /**
   * Streaming a well-formed container whose compressed entries are clean, in chunks of any size, to a backend that
   * accepts it, installs just what the container describes: nothing fails, and what has been committed depends on
   * the stream alone, whatever the decompressor holds back between the chunks.
   */
  lemma WholeCleanStreamInstalls<S(!new), Z(!new), Y>(zstd: Zstd<Z>, m: Meaning<Z, Y>, aes: BlockCipher,
                                                      env: Env<S, Decoder<Z>>, user: S, d: Decoder<Z>,
                                                      chunks: seq<bytes>)
    requires Sound(zstd) && Steady(zstd, m) && Local(zstd) && Willing(env.ops) && env.ncz == Some(DecoderOps(zstd, aes))
    requires WellFormed(Joined(chunks)) && Describing(zstd, m, aes, Layout(Joined(chunks)).value.0, Joined(chunks))
    requires var es := Layout(Joined(chunks)).value.0;
             es != [] && (LastEnd(es) < |Joined(chunks)| || (LastEnd(es) == |Joined(chunks)| && es[|es| - 1].size > 0))
    ensures var s := Begin(TracedEnv(env), Traced(user, []), d);
            && Valid(TracedEnv(env), s)
            && var t := FeedAll(TracedEnv(env), s, chunks);
               && t.stage.Complete?
               && Run(t.user.log).stored == Described(zstd, m, aes, Layout(Joined(chunks)).value.0, Joined(chunks)) && Run(t.user.log).open.None?
  {
    hide Willing, Steady, Local, FeedAll, Joined, Layout, Valid, TracedEnv, Owed, Described, Run, LastEnd, AllEnded, Describing;
    AllCleanOwed(zstd, m, aes, Layout(Joined(chunks)).value.0, chunks);
    WholeCompressedStreamInstalls(zstd, aes, env, user, d, chunks);
  }
}
