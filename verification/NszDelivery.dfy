/**
 * Installing a container with compressed contents: what is committed is, entry by entry, the plain content's
 * own bytes or the file that was rebuilt along the pieces the compressed content arrived in.
 */
module NszDelivery {
  import opened Bytes
  import opened EntryNames
  import opened InstallSpec
  import opened InstallTrace
  import opened ChunkIndependence
  import opened EntryTable
  import opened Delivery
  import opened FinishResult
  import opened Ncz
  import opened NczDecode
  import opened NczRebuild
  import Pfs = PartitionFs
  import Cnmt

  // ----- the pieces an entry arrives in -----

  function Within(x: int, n: nat): (r: nat)
    ensures r <= n
  {
    Max(0, Min(x, n))
  }

  /** The part of a chunk at stream position `pos` that belongs to the entry. */
  function PieceOf(e: Entry, pos: nat, chunk: bytes): bytes {
    chunk[Within(e.absOffset - pos, |chunk|)..Within(e.absOffset + e.size - pos, |chunk|)]
  }

  function AsFeed(piece: bytes): seq<bytes> {
    if piece == [] then [] else [piece]
  }

  /** What the chunks of a stream bring of an entry, chunk by chunk. */
  function FeedsOf(e: Entry, chunks: seq<bytes>): seq<bytes> {
    if chunks == [] then []
    else
      var n := |chunks| - 1;
      FeedsOf(e, chunks[..n]) + AsFeed(PieceOf(e, |Joined(chunks[..n])|, chunks[n]))
  }

  lemma FeedsMore(e: Entry, chunks: seq<bytes>, c: bytes)
    ensures FeedsOf(e, chunks + [c]) == FeedsOf(e, chunks) + AsFeed(PieceOf(e, |Joined(chunks)|, c))
    ensures Joined(chunks + [c]) == Joined(chunks) + c
  {
    hide PieceOf;
    var n := |chunks|;
    assert (chunks + [c])[..n] == chunks && (chunks + [c])[n] == c;
    JoinedAppend(chunks, [c]);
    assert Joined([c]) == c + Joined([]) == c;
  }

  /** Together they are what has arrived of it. */
  lemma {:induction false} FeedsAreArrived(e: Entry, chunks: seq<bytes>)
    ensures Joined(FeedsOf(e, chunks)) == Arrived(e, Joined(chunks))
    decreases |chunks|
  {
    hide PieceOf, Arrived;
    if chunks == [] {
      assert Arrived(e, []) == [] by { NothingArrives(e); }
    } else {
      var n := |chunks| - 1;
      var before, c := chunks[..n], chunks[n];
      assert chunks == before + [c];
      FeedsMore(e, before, c);
      FeedsAreArrived(e, before);
      PieceArrives(e, Joined(before), c);
      var feed := AsFeed(PieceOf(e, |Joined(before)|, c));
      JoinedAppend(FeedsOf(e, before), feed);
      JoinedFeed(PieceOf(e, |Joined(before)|, c));
    }
  }

  lemma NothingArrives(e: Entry)
    ensures Arrived(e, []) == []
  {
  }

  lemma JoinedFeed(piece: bytes)
    ensures Joined(AsFeed(piece)) == piece
  {
    assert piece + [] == piece;
  }

  lemma PieceArrives(e: Entry, before: bytes, c: bytes)
    ensures Arrived(e, before + c) == Arrived(e, before) + PieceOf(e, |before|, c)
  {
  }

  /** Chunks before an entry bring nothing of it. */
  lemma {:induction false} NothingFed(e: Entry, chunks: seq<bytes>)
    requires |Joined(chunks)| <= e.absOffset
    ensures FeedsOf(e, chunks) == []
    decreases |chunks|
  {
    if chunks != [] {
      var n := |chunks| - 1;
      assert chunks == chunks[..n] + [chunks[n]];
      FeedsMore(e, chunks[..n], chunks[n]);
      NothingFed(e, chunks[..n]);
    }
  }

  /** Growing the last chunk behind an entry's end, or before its start, changes nothing for it. */
  lemma FeedsStay(e: Entry, done: seq<bytes>, part: bytes, more: bytes)
    requires e.absOffset + e.size <= |Joined(done)| + |part| || |Joined(done)| + |part| + |more| <= e.absOffset
    ensures FeedsOf(e, done + [part + more]) == FeedsOf(e, done + [part])
  {
    hide FeedsOf, PieceOf, Joined;
    FeedsMore(e, done, part);
    FeedsMore(e, done, part + more);
    PieceStays(e, |Joined(done)|, part, more);
  }

  lemma PieceStays(e: Entry, pos: nat, part: bytes, more: bytes)
    requires e.absOffset + e.size <= pos + |part| || pos + |part| + |more| <= e.absOffset
    ensures PieceOf(e, pos, part + more) == PieceOf(e, pos, part)
  {
    if e.absOffset + e.size <= pos + |part| {
      SliceBefore(part, more, Within(e.absOffset - pos, |part|), Within(e.absOffset + e.size - pos, |part|));
    }
  }

  lemma PieceIsLast(e: Entry, pos: nat, part: bytes, chunk: bytes)
    requires e.absOffset <= pos + |part| && pos + |part| + |chunk| <= e.absOffset + e.size
    requires part == [] || pos + |part| <= e.absOffset
    ensures PieceOf(e, pos, part) == [] && PieceOf(e, pos, part + chunk) == chunk
  {
    SliceBehind(part, chunk, 0, |chunk|);
  }

  /** Growing the last chunk inside an entry it has not touched yet is one more feed. */
  lemma FeedsGrow(e: Entry, done: seq<bytes>, part: bytes, chunk: bytes)
    requires e.absOffset <= |Joined(done)| + |part| && |Joined(done)| + |part| + |chunk| <= e.absOffset + e.size
    requires part == [] || |Joined(done)| + |part| <= e.absOffset
    ensures FeedsOf(e, done + [part + chunk]) == FeedsOf(e, done + [part]) + AsFeed(chunk)
  {
    hide FeedsOf, PieceOf, Joined;
    FeedsMore(e, done, part);
    FeedsMore(e, done, part + chunk);
    PieceIsLast(e, |Joined(done)|, part, chunk);
    assert FeedsOf(e, done) + [] == FeedsOf(e, done);
  }

  // ----- what an install owes the backend -----

  /** The placeholder an entry leaves behind, or none. */
  ghost function OwedFor<Z(!new)>(zstd: Zstd<Z>, aes: BlockCipher, e: Entry, chunks: seq<bytes>): seq<Placeholder>
    requires Sound(zstd)
  {
    if IsCompressed(e.kind) then
      match RebuildAlong(zstd, aes, FeedsOf(e, chunks))
      case None => []
      case Some(file) => [Placeholder(e.contentId, file.size, file.data)]
    else if IsContent(e.kind) then [Placeholder(e.contentId, e.size, Arrived(e, Joined(chunks)))]
    else []
  }

  ghost function Owed<Z(!new)>(zstd: Zstd<Z>, aes: BlockCipher, es: seq<Entry>, chunks: seq<bytes>): seq<Placeholder>
    requires Sound(zstd)
  {
    if es == [] then [] else Owed(zstd, aes, es[..|es| - 1], chunks) + OwedFor(zstd, aes, es[|es| - 1], chunks)
  }

  /** The size the record will give the meta content: a compressed one's is that of the file it rebuilds to. */
  ghost function SizeAfter<Z(!new)>(zstd: Zstd<Z>, aes: BlockCipher, listed: u64, es: seq<Entry>, chunks: seq<bytes>): nat
    requires Sound(zstd)
  {
    if es == [] then listed
    else
      var e, so := es[|es| - 1], SizeAfter(zstd, aes, listed, es[..|es| - 1], chunks);
      if !e.kind.MetaNcz? then so
      else
        match RebuildAlong(zstd, aes, FeedsOf(e, chunks))
        case None => so
        case Some(file) => file.size
  }

  ghost predicate SizeKnown<S, Z(!new)>(zstd: Zstd<Z>, aes: BlockCipher, s: State<S, Decoder<Z>>, chunks: seq<bytes>)
    requires Sound(zstd) && s.cursor <= |s.entries|
  {
    var m := HeaderMeta(Joined(chunks));
    && m.Some? && s.metaId == m.value.contentId && s.metaSize == SizeAfter(zstd, aes, m.value.size, s.entries[..s.cursor], chunks)
    && (s.stage.Streaming? && s.cursor < |s.entries| && !IsCompressed(s.entries[s.cursor].kind) ==> !s.nczActive)
  }

  /** A compressed entry has been rebuilt, or it stopped before its own table was complete. */
  ghost predicate Ended<Z(!new)>(zstd: Zstd<Z>, aes: BlockCipher, e: Entry, chunks: seq<bytes>)
    requires Sound(zstd)
  {
    IsCompressed(e.kind) ==> RebuildAlong(zstd, aes, FeedsOf(e, chunks)).Some? || EndsInPrelude(Arrived(e, Joined(chunks)))
  }

  ghost predicate AllEnded<Z(!new)>(zstd: Zstd<Z>, aes: BlockCipher, es: seq<Entry>, chunks: seq<bytes>)
    requires Sound(zstd)
  {
    forall i :: 0 <= i < |es| ==> Ended(zstd, aes, es[i], chunks)
  }

  /** The placeholder of a compressed entry holds what the decoder has sent. */
  ghost predicate Sent(open: Option<Placeholder>, id: bytes, sent: seq<(u64, byte)>) {
    if sent == [] then open.None?
    else open == Some(Placeholder(id, sent[0].0, Untag(sent)))
  }

  function Untag(sent: seq<(u64, byte)>): (b: bytes)
    ensures |b| == |sent|
  {
    seq(|sent|, i requires 0 <= i < |sent| => sent[i].1)
  }

  /** The decoder has been given just these feeds of the entry, and the placeholder holds what came out. */
  ghost predicate Mirrors<S, Z(!new)>(zstd: Zstd<Z>, aes: BlockCipher, s: State<Traced<S>, Decoder<Z>>, e: Entry,
                                      feeds: seq<bytes>)
    requires Sound(zstd)
  {
    && FedAlong(zstd, aes, s.nczUser, s.nczUser.z, feeds)
    && Sent(Run(s.user.log).open, e.contentId, EntryOutcome(zstd, aes, s.nczUser.z, feeds).sent)
  }

  ghost predicate Tracks<S, Z(!new)>(zstd: Zstd<Z>, aes: BlockCipher, s: State<Traced<S>, Decoder<Z>>, e: Entry,
                                     chunks: seq<bytes>)
    requires Sound(zstd)
  {
    if s.nczActive then Mirrors(zstd, aes, s, e, FeedsOf(e, chunks))
    else |Joined(chunks)| <= e.absOffset && Run(s.user.log).open.None?
  }

  /** The entry table is the one the stream describes. */
  ghost predicate LaidOut<S, D>(s: State<S, D>, stream: bytes) {
    Layout(stream).Some? && Layout(stream).value.0 == s.entries
  }

  ghost predicate Exact<S, Z(!new)>(zstd: Zstd<Z>, aes: BlockCipher, s: State<Traced<S>, Decoder<Z>>, chunks: seq<bytes>)
    requires Sound(zstd)
  {
    var stream := Joined(chunks);
    && Delivered(s, stream)
    && (s.stage.Magic? || s.stage.Header? ==> !s.nczActive)
    && (s.stage.Streaming? || s.stage.Complete? ==>
          && LaidOut(s, stream)
          && Run(s.user.log).stored == Owed(zstd, aes, s.entries[..s.cursor], chunks)
          && AllEnded(zstd, aes, s.entries[..s.cursor], chunks)
          && SizeKnown(zstd, aes, s, chunks))
    && (s.stage.Streaming? && IsCompressed(s.entries[s.cursor].kind) ==> Tracks(zstd, aes, s, s.entries[s.cursor], chunks))
  }

  // ----- the sink of a compressed entry -----

  lemma SentMore(open: Option<Placeholder>, id: bytes, sent: seq<(u64, byte)>, em: Emission, after: Option<Placeholder>)
    requires Sent(open, id, sent) && em.data != []
    requires after == Some(if open.Some? then open.value.(data := open.value.data + em.data) else Placeholder(id, em.size, em.data))
    ensures Sent(after, id, sent + Tag(em))
  {
    assert Untag(sent + Tag(em)) == Untag(sent) + em.data;
    if sent == [] {
      assert Untag(sent) == [] && [] + em.data == em.data;
      assert (sent + Tag(em))[0] == (em.size, em.data[0]);
    }
  }

  lemma SinkSent<S, D>(env: Env<S, D>, s: State<Traced<S>, D>, em: Emission, sent: seq<(u64, byte)>)
    requires InStep(s) && s.stage.Streaming? && s.cursor < |s.entries| && em.data != []
    requires Sent(Run(s.user.log).open, s.entries[s.cursor].contentId, sent)
    ensures var (t, ok) := Sink(TracedEnv(env), s, em);
            ok ==> Sent(Run(t.user.log).open, s.entries[s.cursor].contentId, sent + Tag(em))
  {
    hide InStep, Run, WriteContent, TracedOps, Sent, Tag;
    OpenIsFlag(s);
    var id := s.entries[s.cursor].contentId;
    if !s.contentOpen && em.size != 0 {
      BeginRecord(env, s.user, id, em.size);
      BeginInStep(env, s, id, em.size);
    }
    var (t, open) := OpenForSink(TracedEnv(env), s, em.size);
    if open {
      OpenIsFlag(t);
      WriteRecord(env, t, em.data);
      var (u, ok) := WriteContent(TracedEnv(env), t, em.data);
      if ok {
        assert [] + em.data == em.data;
        SentMore(Run(s.user.log).open, id, sent, em, Run(u.user.log).open);
      }
    }
  }

  lemma {:induction false} RunSinkSent<S, D>(env: Env<S, D>, s: State<Traced<S>, D>, ems: seq<Emission>, sent: seq<(u64, byte)>)
    requires InStep(s) && s.stage.Streaming? && s.cursor < |s.entries| && NoEmptyEmission(ems)
    requires Sent(Run(s.user.log).open, s.entries[s.cursor].contentId, sent)
    ensures var (t, ok) := RunSink(TracedEnv(env), s, ems);
            ok ==> Sent(Run(t.user.log).open, s.entries[s.cursor].contentId, sent + Flat(ems))
    decreases |ems|
  {
    hide InStep, Run, Sink, TracedOps, Sent, Tag;
    if ems == [] {
      assert sent + Flat(ems) == sent;
    } else {
      SinkSent(env, s, ems[0], sent);
      SinkInStep(env, s, ems[0]);
      var (t, ok) := Sink(TracedEnv(env), s, ems[0]);
      if ok {
        RunSinkSent(env, t, ems[1..], sent + Tag(ems[0]));
        assert sent + Tag(ems[0]) + Flat(ems[1..]) == sent + (Tag(ems[0]) + Flat(ems[1..]));
      }
    }
  }

  // ----- the decoder of a compressed entry -----

  /** A decoder's state before the entry only shows while nothing has been decompressed. */
  lemma AlongIsOwn<Z(!new)>(zstd: Zstd<Z>, aes: BlockCipher, z: Z, feeds: seq<bytes>)
    requires Sound(zstd)
    ensures var o := EntryOutcome(zstd, aes, z, feeds);
            o.ok ==> EntryOutcome(zstd, aes, o.user.z, feeds) == o
  {
    hide NeedFor, Made, Rebuilt, TagAll, HeadAt, Parse;
  }

  /** One feed of the decoder, joined to those before it. */
  lemma FeedJoins<Z(!new)>(zstd: Zstd<Z>, aes: BlockCipher, d: Decoder<Z>, feeds: seq<bytes>, chunk: bytes)
    requires Sound(zstd) && FedAlong(zstd, aes, d, d.z, feeds)
    ensures var r := FeedEntry(zstd, aes, d, chunk);
            && NoEmptyEmission(r.emissions)
            && (r.ok ==>
                  && FedAlong(zstd, aes, r.user, r.user.z, feeds + [chunk])
                  && EntryOutcome(zstd, aes, r.user.z, feeds + [chunk]).sent == EntryOutcome(zstd, aes, d.z, feeds).sent + Flat(r.emissions))
  {
    hide FeedEntry, DecoderOk, EntryOutcome, Flat;
    FeedAdds(zstd, aes, d, d.z, feeds, chunk);
    AlongIsOwn(zstd, aes, d.z, feeds + [chunk]);
  }

  /** While an entry streams, the placeholder and the decoder stay in step. */
  lemma FeedTracks<S, Z(!new)>(zstd: Zstd<Z>, aes: BlockCipher, env: Env<S, Decoder<Z>>,
                               s: State<Traced<S>, Decoder<Z>>, e: Entry,
                               feeds: seq<bytes>, chunk: bytes)
    requires Sound(zstd) && env.ncz == Some(DecoderOps(zstd, aes))
    requires InStep(s) && s.stage.Streaming? && s.cursor < |s.entries| && e == s.entries[s.cursor]
    requires Mirrors(zstd, aes, s, e, feeds)
    ensures var t := FeedDecoder(TracedEnv(env), s, chunk); !t.stage.Failed? ==> Mirrors(zstd, aes, t, e, feeds + [chunk])
  {
    hide InStep, Run, RunSink, TracedOps, Sent, FeedEntry, FedAlong, EntryOutcome, Flat, Fail;
    FeedJoins(zstd, aes, s.nczUser, feeds, chunk);
    FedIsOk(zstd, aes, s.nczUser, s.nczUser.z, feeds);
    var r := FeedEntry(zstd, aes, s.nczUser, chunk);
    assert env.ncz.value.feed(s.nczUser, chunk) == r;
    RunSinkSent(env, s, r.emissions, EntryOutcome(zstd, aes, s.nczUser.z, feeds).sent);
    FailStage(TracedEnv(env), RunSink(TracedEnv(env), s, r.emissions).0.(nczUser := r.user));
  }

  lemma FedIsOk<Z(!new)>(zstd: Zstd<Z>, aes: BlockCipher, d: Decoder<Z>, z: Z, feeds: seq<bytes>)
    requires Sound(zstd) && FedAlong(zstd, aes, d, z, feeds)
    ensures DecoderOk(d) && EntryOutcome(zstd, aes, z, feeds).ok && EntryOutcome(zstd, aes, z, feeds).user == d
  {
    hide EntryOutcome, DecoderOk;
  }

  lemma OpenTracks<S, Z(!new)>(zstd: Zstd<Z>, aes: BlockCipher, env: Env<S, Decoder<Z>>,
                               s: State<Traced<S>, Decoder<Z>>, e: Entry, chunks: seq<bytes>)
    requires Sound(zstd) && env.ncz == Some(DecoderOps(zstd, aes))
    requires s.cursor < |s.entries| && e == s.entries[s.cursor] && IsCompressed(e.kind)
    requires Tracks(zstd, aes, s, e, chunks) && e.absOffset <= |Joined(chunks)|
    ensures var t := OpenEntry(TracedEnv(env), s); t.nczActive && t.user == s.user && t.stage == s.stage && Tracks(zstd, aes, t, e, chunks)
  {
    hide Run, TracedOps, DecoderOk, EntryOutcome, FeedEntry, Joined;
    if !s.nczActive {
      NothingFed(e, chunks);
      FreshIsFedAlong(zstd, aes, s.nczUser);
      assert env.ncz.value.begin(s.nczUser) == Reply(true, Fresh(s.nczUser));
    }
  }

  /** The current entry has taken nothing from the chunk that is being fed. */
  ghost predicate Untouched(e: Entry, done: seq<bytes>, part: bytes) {
    part == [] || |Joined(done)| + |part| <= e.absOffset
  }

  lemma ConsumeTracks<S, Z(!new)>(zstd: Zstd<Z>, aes: BlockCipher, env: Env<S, Decoder<Z>>,
                                  s: State<Traced<S>, Decoder<Z>>, e: Entry,
                                  done: seq<bytes>, part: bytes, chunk: bytes)
    requires Sound(zstd) && env.ncz == Some(DecoderOps(zstd, aes))
    requires InStep(s) && s.stage.Streaming? && s.cursor < |s.entries| && e == s.entries[s.cursor] && IsCompressed(e.kind) && s.nczActive
    requires Tracks(zstd, aes, s, e, done + [part]) && Untouched(e, done, part)
    requires e.absOffset <= |Joined(done)| + |part| && |Joined(done)| + |part| + |chunk| <= e.absOffset + e.size
    ensures var t := Consume(TracedEnv(env), s, chunk); !t.stage.Failed? ==> Tracks(zstd, aes, t, e, done + [part + chunk])
  {
    hide InStep, Run, FeedDecoder, TracedOps, Sent, DecoderOk, EntryOutcome, FeedEntry, FedAlong, Joined, Advance;
    FeedsGrow(e, done, part, chunk);
    if chunk == [] {
      assert part + chunk == part;
    } else {
      FeedTracks(zstd, aes, env, s, e, FeedsOf(e, done + [part]), chunk);
    }
  }

  /** Opening an entry and taking bytes for it commits nothing. */
  lemma VisitStores<S, D>(env: Env<S, D>, s: State<Traced<S>, D>, stream: bytes, chunk: bytes)
    requires Delivered(s, stream) && s.stage.Streaming? && (s.nczActive ==> env.ncz.Some?)
    requires s.entries[s.cursor].absOffset <= |stream|
    requires |stream| + |chunk| <= s.entries[s.cursor].absOffset + s.entries[s.cursor].size < U64_LIMIT
    ensures var t := OpenEntry(TracedEnv(env), s);
            !t.stage.Failed? ==>
              var u := Consume(TracedEnv(env), t, chunk);
              !u.stage.Failed? ==> Run(u.user.log).stored == Run(s.user.log).stored
  {
    hide InStep, InEntries, MetaListed, Run, TracedOps, Advance, FeedDecoder, WriteContent;
    VisitReady(env, s, stream, chunk);
    var e := s.entries[s.cursor];
    BeginRecord(env, s.user, e.contentId, e.size);
    var t := OpenEntry(TracedEnv(env), s);
    if !t.stage.Failed? && chunk != [] {
      OpenIsFlag(t);
      if IsCompressed(e.kind) {
        FeedRecord(env, t, chunk);
      } else if IsContent(e.kind) {
        WriteRecord(env, t, chunk);
      }
    }
  }

  // ----- the end of an entry -----

  lemma TagIsWhole(size: u64, data: bytes)
    requires data != []
    ensures TagAll(size, data) != [] && TagAll(size, data)[0].0 == size && Untag(TagAll(size, data)) == data
  {
  }

  /** The decoder ended well: its placeholder holds the rebuilt file, or nothing was owed. */
  lemma EndedExactly<S, Z(!new)>(zstd: Zstd<Z>, aes: BlockCipher, s: State<Traced<S>, Decoder<Z>>, e: Entry, chunks: seq<bytes>)
    requires Sound(zstd) && IsCompressed(e.kind) && s.nczActive && Tracks(zstd, aes, s, e, chunks) && EndsWell(s.nczUser)
    ensures Ended(zstd, aes, e, chunks)
    ensures var open := Run(s.user.log).open; OwedFor(zstd, aes, e, chunks) == if open.Some? then [open.value] else []
  {
    hide Run, EntryOutcome, TagAll, RebuildAlong, EndsInPrelude, DecoderOk, Untag, FeedsOf, Arrived;
    var feeds := FeedsOf(e, chunks);
    FeedsAreArrived(e, chunks);
    AlongCases(zstd, aes, s.nczUser.z, feeds);
    var file := RebuildAlong(zstd, aes, feeds);
    if file.Some? {
      FileIsNotEmpty(zstd, aes, feeds);
      TagIsWhole(file.value.size, file.value.data);
    }
  }

  lemma FileIsNotEmpty<Z(!new)>(zstd: Zstd<Z>, aes: BlockCipher, feeds: seq<bytes>)
    requires Sound(zstd) && RebuildAlong(zstd, aes, feeds).Some?
    ensures RebuildAlong(zstd, aes, feeds).value.data != []
  {
    hide Made, Parse, Rebuilt;
  }

  /** Closing an entry commits what is open and nothing else. */
  lemma CloseStores<S, D>(env: Env<S, D>, s: State<Traced<S>, D>)
    requires InStep(s) && s.stage.Streaming? && s.cursor < |s.entries| && (s.nczActive ==> env.ncz.Some?)
    ensures var t := CloseEntry(TracedEnv(env), s);
            var p := Run(s.user.log);
            !t.stage.Failed? ==>
              && Run(t.user.log).stored == p.stored + (if p.open.Some? then [p.open.value] else [])
              && Run(t.user.log).open.None?
              && (s.nczActive ==> env.ncz.value.end(s.nczUser).ok)
  {
    hide InStep, Run, TracedOps, Fail;
    OpenIsFlag(s);
    FailStage(TracedEnv(env), s);
    var a := if s.nczActive then EndDecoder(TracedEnv(env), s) else s;
    if s.nczActive {
      EndRecord(env, s);
      FailStage(TracedEnv(env), s.(nczUser := env.ncz.value.end(s.nczUser).user));
    }
    if !a.stage.Failed? && a.contentOpen {
      CommitLogs(env, a);
      CommitRecord(env, a.user);
    }
  }

  // ----- rounds of the feed loop -----

  /** More bytes of the current chunk change nothing that is past. */
  lemma {:induction false} OwedStays<Z(!new)>(zstd: Zstd<Z>, aes: BlockCipher, es: seq<Entry>, done: seq<bytes>,
                                              part: bytes, more: bytes)
    requires Sound(zstd) && Past(es, Joined(done) + part)
    ensures Owed(zstd, aes, es, done + [part + more]) == Owed(zstd, aes, es, done + [part])
    ensures AllEnded(zstd, aes, es, done + [part]) ==> AllEnded(zstd, aes, es, done + [part + more])
    decreases |es|
  {
    hide RebuildAlong, Arrived, EndsInPrelude, FeedsOf, Joined;
    forall i | 0 <= i < |es|
      ensures Arrived(es[i], Joined(done + [part + more])) == Arrived(es[i], Joined(done + [part]))
      ensures FeedsOf(es[i], done + [part + more]) == FeedsOf(es[i], done + [part])
    {
      EntryStays(es[i], done, part, more);
    }
    if es != [] {
      OwedStays(zstd, aes, es[..|es| - 1], done, part, more);
    }
  }

  /** Nor do they change what the meta content's size is. */
  lemma {:induction false} SizeStays<Z(!new)>(zstd: Zstd<Z>, aes: BlockCipher, listed: u64, es: seq<Entry>,
                                              done: seq<bytes>, part: bytes, more: bytes)
    requires Sound(zstd) && Past(es, Joined(done) + part)
    ensures SizeAfter(zstd, aes, listed, es, done + [part + more]) == SizeAfter(zstd, aes, listed, es, done + [part])
    decreases |es|
  {
    hide RebuildAlong, FeedsOf, Joined;
    if es != [] {
      EntryStays(es[|es| - 1], done, part, more);
      SizeStays(zstd, aes, listed, es[..|es| - 1], done, part, more);
    }
  }

  lemma KnownStays<S, Z(!new)>(zstd: Zstd<Z>, aes: BlockCipher, s: State<S, Decoder<Z>>, t: State<S, Decoder<Z>>,
                               done: seq<bytes>, part: bytes, more: bytes)
    requires Sound(zstd) && s.cursor <= |s.entries| && Past(s.entries[..s.cursor], Joined(done) + part) && SizeKnown(zstd, aes, s, done + [part])
    requires t.cursor == s.cursor && t.entries == s.entries && t.metaId == s.metaId && t.metaSize == s.metaSize && (t.stage.Streaming? ==> s.stage.Streaming?)
    requires s.cursor < |s.entries| && !IsCompressed(s.entries[s.cursor].kind) ==> (t.nczActive ==> s.nczActive)
    ensures SizeKnown(zstd, aes, t, done + [part + more])
  {
    hide Past, HeaderMeta, Joined, SizeAfter;
    JoinedParts(done, part, more);
    HeaderMetaStays(Joined(done) + part, more);
    SizeStays(zstd, aes, HeaderMeta(Joined(done) + part).value.size, s.entries[..s.cursor], done, part, more);
  }

  lemma EntryStays(e: Entry, done: seq<bytes>, part: bytes, more: bytes)
    requires e.absOffset + e.size <= |Joined(done) + part|
    ensures Arrived(e, Joined(done + [part + more])) == Arrived(e, Joined(done + [part]))
    ensures FeedsOf(e, done + [part + more]) == FeedsOf(e, done + [part])
  {
    hide Arrived, FeedsOf, Joined;
    FeedsMore(e, done, part);
    FeedsMore(e, done, part + more);
    FeedsStay(e, done, part, more);
    assert Joined(done) + (part + more) == Joined(done) + part + more;
    ArrivedStays(e, Joined(done) + part, more);
  }

  lemma OwedOneMore<Z(!new)>(zstd: Zstd<Z>, aes: BlockCipher, es: seq<Entry>, i: nat, chunks: seq<bytes>)
    requires Sound(zstd) && i < |es|
    ensures Owed(zstd, aes, es[..i + 1], chunks) == Owed(zstd, aes, es[..i], chunks) + OwedFor(zstd, aes, es[i], chunks)
    ensures AllEnded(zstd, aes, es[..i], chunks) && Ended(zstd, aes, es[i], chunks) ==> AllEnded(zstd, aes, es[..i + 1], chunks)
  {
    hide OwedFor, Ended;
    assert es[..i + 1][..i] == es[..i];
  }

  /** What a plain entry owes is what its placeholder holds. */
  lemma PlainIsOwed<S, Z(!new)>(zstd: Zstd<Z>, aes: BlockCipher, s: State<Traced<S>, Decoder<Z>>, chunks: seq<bytes>)
    requires Sound(zstd) && Ready(s, Joined(chunks)) && !IsCompressed(s.entries[s.cursor].kind)
    ensures var e, open := s.entries[s.cursor], Run(s.user.log).open;
            OwedFor(zstd, aes, e, chunks) == if open.Some? then [open.value] else []
  {
    hide Run, StoredIs, Buffered, Past, DisjointEntries, RebuildAlong, InStep, Arrived, Joined;
    assert s.contentOpen == Run(s.user.log).open.Some? by { OpenIsFlag(s); }
  }

  lemma PastNow<S, D>(s: State<Traced<S>, D>, stream: bytes)
    requires InEntries(s, stream)
    ensures Past(s.entries[..s.cursor], stream)
  {
  }

  /** The current entry has ended: its placeholder is committed and the next entry has not begun. */
  lemma CloseExact<S, Z(!new)>(zstd: Zstd<Z>, aes: BlockCipher, env: Env<S, Decoder<Z>>,
                               s: State<Traced<S>, Decoder<Z>>, chunks: seq<bytes>)
    requires Sound(zstd) && env.ncz == Some(DecoderOps(zstd, aes))
    requires Ready(s, Joined(chunks)) && |Joined(chunks)| == s.entries[s.cursor].absOffset + s.entries[s.cursor].size
    requires IsCompressed(s.entries[s.cursor].kind) ==> s.nczActive && Tracks(zstd, aes, s, s.entries[s.cursor], chunks)
    requires Run(s.user.log).stored == Owed(zstd, aes, s.entries[..s.cursor], chunks) && AllEnded(zstd, aes, s.entries[..s.cursor], chunks)
    requires SizeKnown(zstd, aes, s, chunks)
    ensures var t := CloseEntry(TracedEnv(env), s);
            !t.stage.Failed? ==>
              && t.cursor == s.cursor + 1 && t.entries == s.entries
              && SizeKnown(zstd, aes, t, chunks)
              && Run(t.user.log).stored == Owed(zstd, aes, t.entries[..t.cursor], chunks)
              && AllEnded(zstd, aes, t.entries[..t.cursor], chunks)
              && (t.stage.Streaming? ==> t.cursor < |t.entries| && Tracks(zstd, aes, t, t.entries[t.cursor], chunks))
  {
    hide InStep, InEntries, Run, TracedOps, CloseEntry, OwedFor, Ended, EntryOutcome, Joined, Tracks, Owed, AllEnded,
      EndsWell, SizeKnown, FedAlong;
    var e := s.entries[s.cursor];
    var t := CloseEntry(TracedEnv(env), s);
    DecoderRuns(zstd, aes, s, e, chunks);
    CloseSizes(zstd, aes, TracedEnv(env), s, chunks);
    CloseStores(env, s);
    CloseShape(TracedEnv(env), s);
    CloseDelivered(env, s, Joined(chunks));
    OwedOneMore(zstd, aes, s.entries, s.cursor, chunks);
    if !t.stage.Failed? {
      if IsCompressed(e.kind) {
        EndIsEndsWell(zstd, aes, s.nczUser);
        EndedExactly(zstd, aes, s, e, chunks);
      } else {
        PlainIsOwed(zstd, aes, s, chunks);
        PlainEnded(zstd, aes, e, chunks);
      }
      if t.stage.Streaming? {
        NotStarted(zstd, aes, t, chunks);
      }
    }
  }

  lemma DecoderRuns<S, Z(!new)>(zstd: Zstd<Z>, aes: BlockCipher, s: State<Traced<S>, Decoder<Z>>, e: Entry, chunks: seq<bytes>)
    requires Sound(zstd) && Ready(s, Joined(chunks)) && e == s.entries[s.cursor]
    requires IsCompressed(e.kind) ==> s.nczActive && Tracks(zstd, aes, s, e, chunks)
    requires SizeKnown(zstd, aes, s, chunks)
    ensures if IsCompressed(e.kind) then s.nczActive && FedAlong(zstd, aes, s.nczUser, s.nczUser.z, FeedsOf(e, chunks)) else !s.nczActive
  {
    hide Run, InStep, InEntries, Joined, FeedsOf, FedAlong, Sent, EntryOutcome, HeaderMeta, SizeAfter;
  }

  lemma PlainStaysOff<S, D>(env: Env<S, D>, s: State<S, D>)
    requires s.cursor < |s.entries| && (s.nczActive ==> env.ncz.Some?) && !IsCompressed(s.entries[s.cursor].kind)
    ensures OpenEntry(env, s).nczActive == s.nczActive
  {
  }

  /** The end of a compressed meta content gives the record the size of the file it rebuilt to. */
  lemma CloseSizes<S, Z(!new)>(zstd: Zstd<Z>, aes: BlockCipher, env: Env<S, Decoder<Z>>, s: State<S, Decoder<Z>>,
                               chunks: seq<bytes>)
    requires Sound(zstd) && env.ncz == Some(DecoderOps(zstd, aes)) && s.stage.Streaming? && s.cursor < |s.entries| && SizeKnown(zstd, aes, s, chunks)
    requires var e := s.entries[s.cursor];
             if IsCompressed(e.kind) then s.nczActive && FedAlong(zstd, aes, s.nczUser, s.nczUser.z, FeedsOf(e, chunks)) else !s.nczActive
    ensures var t := CloseEntry(env, s);
            !t.stage.Failed? ==> t.cursor == s.cursor + 1 && t.entries == s.entries && SizeKnown(zstd, aes, t, chunks)
  {
    hide Joined, HeaderMeta, Commit, EndDecoder, SizeAfter, FedAlong;
    var e := s.entries[s.cursor];
    CloseShape(env, s);
    var t := CloseEntry(env, s);
    if !t.stage.Failed? {
      CloseKeepsSize(env, s);
      if s.nczActive {
        EndSizes(zstd, aes, env, s, e, chunks);
      }
      OneMoreSize(zstd, aes, HeaderMeta(Joined(chunks)).value.size, s.entries, s.cursor, chunks);
    }
  }

  lemma OneMoreSize<Z(!new)>(zstd: Zstd<Z>, aes: BlockCipher, listed: u64, es: seq<Entry>, i: nat, chunks: seq<bytes>)
    requires Sound(zstd) && i < |es|
    ensures var so := SizeAfter(zstd, aes, listed, es[..i], chunks);
            var file := RebuildAlong(zstd, aes, FeedsOf(es[i], chunks));
            SizeAfter(zstd, aes, listed, es[..i + 1], chunks) == if es[i].kind.MetaNcz? && file.Some? then file.value.size else so
  {
    hide RebuildAlong, FeedsOf;
    assert es[..i + 1][..i] == es[..i];
  }

  lemma CloseKeepsSize<S, D>(env: Env<S, D>, s: State<S, D>)
    requires s.cursor < |s.entries| && (s.nczActive ==> env.ncz.Some?) && !CloseEntry(env, s).stage.Failed?
    ensures CloseEntry(env, s).metaSize == (if s.nczActive then EndDecoder(env, s) else s).metaSize
    ensures s.nczActive ==> !EndDecoder(env, s).stage.Failed?
  {
    hide EndDecoder;
  }

  lemma EndSizes<S, Z(!new)>(zstd: Zstd<Z>, aes: BlockCipher, env: Env<S, Decoder<Z>>, s: State<S, Decoder<Z>>,
                             e: Entry, chunks: seq<bytes>)
    requires Sound(zstd) && env.ncz == Some(DecoderOps(zstd, aes)) && s.stage.Streaming? && s.cursor < |s.entries| && e == s.entries[s.cursor] && IsCompressed(e.kind)
    requires FedAlong(zstd, aes, s.nczUser, s.nczUser.z, FeedsOf(e, chunks)) && !EndDecoder(env, s).stage.Failed?
    ensures var file := RebuildAlong(zstd, aes, FeedsOf(e, chunks));
            EndDecoder(env, s).metaSize == if e.kind.MetaNcz? && file.Some? then file.value.size else s.metaSize
  {
    hide RebuildAlong, FeedsOf, EntryOutcome, EndsInPrelude, Joined, DecoderOk, FeedEntry;
    var d := s.nczUser;
    EndIsEndsWell(zstd, aes, d);
    AlongCases(zstd, aes, d.z, FeedsOf(e, chunks));
    FailStage(env, s.(nczUser := env.ncz.value.end(d).user));
    RebuiltIsLong(zstd, aes, FeedsOf(e, chunks));
  }

  lemma RebuiltIsLong<Z(!new)>(zstd: Zstd<Z>, aes: BlockCipher, feeds: seq<bytes>)
    requires Sound(zstd)
    ensures RebuildAlong(zstd, aes, feeds).Some? ==> RebuildAlong(zstd, aes, feeds).value.size > 0
  {
    hide MadeBehind, Ncz.Parse, TableBuffered;
  }

  lemma EndIsEndsWell<Z(!new)>(zstd: Zstd<Z>, aes: BlockCipher, d: Decoder<Z>)
    requires Sound(zstd)
    ensures DecoderOps(zstd, aes).end(d).ok == EndsWell(d)
  {
  }

  lemma PlainEnded<Z(!new)>(zstd: Zstd<Z>, aes: BlockCipher, e: Entry, chunks: seq<bytes>)
    requires Sound(zstd) && !IsCompressed(e.kind)
    ensures Ended(zstd, aes, e, chunks)
  {
  }

  lemma NotStarted<S, Z(!new)>(zstd: Zstd<Z>, aes: BlockCipher, s: State<Traced<S>, Decoder<Z>>, chunks: seq<bytes>)
    requires Sound(zstd) && !s.nczActive && s.cursor < |s.entries| && |Joined(chunks)| <= s.entries[s.cursor].absOffset && Run(s.user.log).open.None?
    ensures Tracks(zstd, aes, s, s.entries[s.cursor], chunks)
  {
  }

  lemma EntryExact<S, Z(!new)>(zstd: Zstd<Z>, aes: BlockCipher, env: Env<S, Decoder<Z>>, s: State<Traced<S>, Decoder<Z>>,
                               done: seq<bytes>, part: bytes, chunk: bytes)
    requires Sound(zstd) && env.ncz == Some(DecoderOps(zstd, aes))
    requires Exact(zstd, aes, s, done + [part]) && s.stage.Streaming? && Untouched(s.entries[s.cursor], done, part)
    requires s.entries[s.cursor].absOffset <= |Joined(done)| + |part|
    requires |Joined(done)| + |part| + |chunk| <= s.entries[s.cursor].absOffset + s.entries[s.cursor].size < U64_LIMIT
    ensures var t := StepEntry(TracedEnv(env), s, chunk); !t.stage.Failed? ==> Exact(zstd, aes, t, done + [part + chunk])
  {
    hide InStep, InEntries, MetaListed, Run, OpenEntry, Consume, CloseEntry, TracedOps, Tracks, Owed, AllEnded, Layout,
      Joined, SizeKnown;
    var e := s.entries[s.cursor];
    var stream := Joined(done) + part;
    JoinedParts(done, part, chunk);
    LayoutStays(stream, chunk);
    EntryDelivered(env, s, stream, chunk);
    VisitReady(env, s, stream, chunk);
    VisitStores(env, s, stream, chunk);
    OpenShape(TracedEnv(env), s);
    if IsCompressed(e.kind) {
      OpenTracks(zstd, aes, env, s, e, done + [part]);
    } else {
      PlainStaysOff(TracedEnv(env), s);
    }
    var t := OpenEntry(TracedEnv(env), s);
    if !t.stage.Failed? {
      var u := Consume(TracedEnv(env), t, chunk);
      ConsumeShape(TracedEnv(env), t, chunk);
      if IsCompressed(e.kind) {
        ConsumeTracks(zstd, aes, env, t, e, done, part, chunk);
      }
      PastNow(s, stream);
      OwedStays(zstd, aes, s.entries[..s.cursor], done, part, chunk);
      KnownStays(zstd, aes, s, u, done, part, chunk);
      if !u.stage.Failed? && u.streamPos >= EntryEnd(e) {
        AdvanceTwice(|stream|, |chunk|, 0);
        CloseExact(zstd, aes, env, u, done + [part + chunk]);
      }
    }
  }

  lemma JoinedParts(done: seq<bytes>, part: bytes, more: bytes)
    ensures Joined(done + [part]) == Joined(done) + part
    ensures Joined(done + [part + more]) == Joined(done) + part + more
  {
    JoinedMore(done, part);
    JoinedMore(done, part + more);
    assert Joined(done) + (part + more) == Joined(done) + part + more;
  }

  lemma GapExact<S, Z(!new)>(zstd: Zstd<Z>, aes: BlockCipher, s: State<Traced<S>, Decoder<Z>>, done: seq<bytes>,
                             part: bytes, gap: bytes)
    requires Sound(zstd) && Exact(zstd, aes, s, done + [part]) && s.stage.Streaming?
    requires |Joined(done)| + |part| + |gap| <= s.entries[s.cursor].absOffset
    ensures Exact(zstd, aes, s.(streamPos := |Joined(done)| + |part| + |gap|), done + [part + gap])
  {
    hide Delivered, Tracks, Run, Owed, AllEnded, Layout, Joined, Past, SizeKnown;
    var stream := Joined(done) + part;
    JoinedParts(done, part, gap);
    LayoutStays(stream, gap);
    DeliveredPast(s, stream);
    GapDelivered(s, stream, gap);
    KnownStays(zstd, aes, s, s.(streamPos := |Joined(done)| + |part| + |gap|), done, part, gap);
    OwedStays(zstd, aes, s.entries[..s.cursor], done, part, gap);
    if IsCompressed(s.entries[s.cursor].kind) {
      GapTracks(zstd, aes, s, s.entries[s.cursor], done, part, gap);
    }
  }

  lemma DeliveredPast<S, D>(s: State<Traced<S>, D>, stream: bytes)
    requires Delivered(s, stream) && s.stage.Streaming?
    ensures s.cursor < |s.entries| && Past(s.entries[..s.cursor], stream)
  {
    hide InStep, MetaListed, Run, StoredIs, OpenIs, Gathered, DisjointEntries, Layout;
    PastNow(s, stream);
  }

  lemma GapTracks<S, Z(!new)>(zstd: Zstd<Z>, aes: BlockCipher, s: State<Traced<S>, Decoder<Z>>, e: Entry,
                              done: seq<bytes>, part: bytes, gap: bytes)
    requires Sound(zstd) && Tracks(zstd, aes, s, e, done + [part]) && |Joined(done)| + |part| + |gap| <= e.absOffset
    ensures Tracks(zstd, aes, s.(streamPos := |Joined(done)| + |part| + |gap|), e, done + [part + gap])
  {
    hide Run, FedAlong, Sent, Joined, FeedsOf, EntryOutcome;
    JoinedParts(done, part, gap);
    FeedsStay(e, done, part, gap);
  }

  /** Behind a round that leaves bytes of the chunk over, the current entry has taken nothing from it. */
  ghost predicate Waiting<S, D>(s: State<S, D>, done: seq<bytes>, part: bytes) {
    s.stage.Streaming? ==> s.cursor < |s.entries| && Untouched(s.entries[s.cursor], done, part)
  }

  lemma StreamingExact<S, Z(!new)>(zstd: Zstd<Z>, aes: BlockCipher, env: Env<S, Decoder<Z>>, s: State<Traced<S>, Decoder<Z>>,
                                   done: seq<bytes>, part: bytes, data: bytes)
    requires Sound(zstd) && env.ncz == Some(DecoderOps(zstd, aes))
    requires Exact(zstd, aes, s, done + [part]) && s.stage.Streaming? && Waiting(s, done, part)
    requires |Joined(done)| + |part| + |data| < U64_LIMIT
    ensures var (t, used) := StepStreaming(TracedEnv(env), s, data);
            && used <= |data|
            && (!t.stage.Failed? ==> Exact(zstd, aes, t, done + [part + data[..used]]))
            && (!t.stage.Failed? && used < |data| ==> Waiting(t, done, part + data[..used]))
  {
    hide Exact, StepEntry, TracedOps, Advance, Joined, EntryEnd;
    var e, stream := s.entries[s.cursor], Joined(done) + part;
    ExactInside(zstd, aes, s, done, part);
    if s.streamPos < e.absOffset {
      var skip := Min(|data|, e.absOffset - s.streamPos);
      AdvanceTwice(|stream|, skip, 0);
      GapExact(zstd, aes, s, done, part, data[..skip]);
    } else {
      var take := Min(|data|, Sub64(EntryEnd(e), s.streamPos));
      EntryExact(zstd, aes, env, s, done, part, data[..take]);
      if take < |data| {
        EntryLeaves(env, s, stream, data[..take]);
      }
    }
  }

  /** Where a streaming run stands. */
  lemma ExactInside<S, Z(!new)>(zstd: Zstd<Z>, aes: BlockCipher, s: State<Traced<S>, Decoder<Z>>, done: seq<bytes>, part: bytes)
    requires Sound(zstd) && Exact(zstd, aes, s, done + [part]) && s.stage.Streaming?
    ensures s.cursor < |s.entries| && s.streamPos == |Joined(done)| + |part| && Delivered(s, Joined(done) + part)
    ensures var e := s.entries[s.cursor];
            && |Joined(done)| + |part| <= e.absOffset + e.size < U64_LIMIT && EntryEnd(e) == e.absOffset + e.size
  {
    hide InStep, InEntries, Run, Owed, AllEnded, Tracks, MetaListed, Layout, Joined;
    JoinedMore(done, part);
    CurrentEntry(s, Joined(done) + part);
  }

  /** An entry that ends inside a chunk hands the rest of it to the next one. */
  lemma EntryLeaves<S, D>(env: Env<S, D>, s: State<Traced<S>, D>, stream: bytes, chunk: bytes)
    requires Delivered(s, stream) && s.stage.Streaming? && (s.nczActive ==> env.ncz.Some?) && s.entries[s.cursor].absOffset <= |stream|
    requires |stream| + |chunk| == s.entries[s.cursor].absOffset + s.entries[s.cursor].size < U64_LIMIT
    ensures var t := StepEntry(TracedEnv(env), s, chunk);
            t.stage.Streaming? ==> t.cursor < |t.entries| && |stream| + |chunk| <= t.entries[t.cursor].absOffset
  {
    hide InStep, Run, StoredIs, Buffered, Past, OpenIs, MetaListed, StepEntry, TracedOps;
    EntryMoves(TracedEnv(env), s, chunk);
  }

  lemma CompleteExact<S, Z(!new)>(zstd: Zstd<Z>, aes: BlockCipher, s: State<Traced<S>, Decoder<Z>>, done: seq<bytes>,
                                  part: bytes, data: bytes)
    requires Sound(zstd) && Exact(zstd, aes, s, done + [part]) && s.stage.Complete? && |Joined(done)| + |part| + |data| < U64_LIMIT
    ensures Exact(zstd, aes, s.(streamPos := Advance(s.streamPos, |data|)), done + [part + data])
  {
    hide InStep, InEntries, MetaListed, Run, Owed, AllEnded, Advance, Tracks, Layout, Joined, SizeKnown;
    var stream := Joined(done) + part;
    JoinedParts(done, part, data);
    LayoutStays(stream, data);
    CompleteDelivered(s, stream, data);
    PastNow(s, stream);
    KnownStays(zstd, aes, s, s.(streamPos := Advance(s.streamPos, |data|)), done, part, data);
    OwedStays(zstd, aes, s.entries[..s.cursor], done, part, data);
  }

  lemma MagicExact<S, Z(!new)>(zstd: Zstd<Z>, aes: BlockCipher, env: Env<S, Decoder<Z>>, s: State<Traced<S>, Decoder<Z>>,
                               done: seq<bytes>, part: bytes, data: bytes)
    requires Sound(zstd) && Exact(zstd, aes, s, done + [part]) && s.stage.Magic? && Valid(TracedEnv(env), s)
    requires |Joined(done)| + |part| + |data| < U64_LIMIT
    ensures var (t, used) := StepMagic(TracedEnv(env), s, data); !t.stage.Failed? ==> Exact(zstd, aes, t, done + [part + data[..used]])
    ensures var t := StepMagic(TracedEnv(env), s, data).0; !t.stage.Streaming?
  {
    hide Delivered, Run, TracedOps, Advance, Pfs.PeekHeaderSize, Owed, AllEnded, Tracks, Layout, Joined;
    var (t, used) := StepMagic(TracedEnv(env), s, data);
    JoinedParts(done, part, data[..used]);
    MagicDelivered(env, s, Joined(done) + part, data);
  }

  lemma HeaderExact<S, Z(!new)>(zstd: Zstd<Z>, aes: BlockCipher, env: Env<S, Decoder<Z>>, s: State<Traced<S>, Decoder<Z>>,
                                done: seq<bytes>, part: bytes, data: bytes)
    requires Sound(zstd) && Exact(zstd, aes, s, done + [part]) && s.stage.Header? && Valid(TracedEnv(env), s)
    requires |Joined(done)| + |part| + |data| < U64_LIMIT && DisjointStream(Joined(done) + part + data)
    ensures var (t, used) := StepHeader(TracedEnv(env), s, data);
            !t.stage.Failed? ==> Exact(zstd, aes, t, done + [part + data[..used]]) && Waiting(t, done, part + data[..used])
  {
    hide InStep, Run, TracedOps, Advance, Pfs.PeekHeaderSize, Pfs.Parse, Collect, LastMeta, SortByOffset,
      DisjointEntries, Fail, InEntries, MetaListed, Tracks, DisjointStream, Layout, Joined, HeaderMeta, SizeKnown;
    var stream := Joined(done) + part;
    var (t, used) := StepHeader(TracedEnv(env), s, data);
    JoinedParts(done, part, data[..used]);
    HeaderDelivered(env, s, stream, data);
    if !t.stage.Failed? && |s.header| + |data| >= s.headerSize {
      HeaderAhead(env, s, stream, data);
      if t.stage.Streaming? {
        assert t.entries[..0] == [];
        FirstSize(zstd, aes, t, done + [part + data[..used]]);
        NotStarted(zstd, aes, t, done + [part + data[..used]]);
      }
    }
  }

  lemma FirstSize<S, Z(!new)>(zstd: Zstd<Z>, aes: BlockCipher, s: State<S, Decoder<Z>>, chunks: seq<bytes>)
    requires Sound(zstd) && s.cursor == 0 && !s.nczActive
    requires var m := HeaderMeta(Joined(chunks)); m.Some? && s.metaId == m.value.contentId && s.metaSize == m.value.size
    ensures SizeKnown(zstd, aes, s, chunks)
  {
    hide HeaderMeta, Joined;
    assert s.entries[..0] == [];
  }

  /** When the header is complete no entry has begun, nothing is open and nothing is stored. */
  lemma HeaderAhead<S, D>(env: Env<S, D>, s: State<Traced<S>, D>, stream: bytes, data: bytes)
    requires Delivered(s, stream) && s.stage.Header? && Valid(TracedEnv(env), s) && |s.header| + |data| >= s.headerSize
    requires DisjointStream(stream + data)
    ensures var t := StepHeader(TracedEnv(env), s, data).0;
            !t.stage.Failed? ==>
              && t.stage.Streaming? && t.cursor == 0 && t.entries != []
              && LaidOut(t, stream + data[..s.headerSize - |s.header|])
              && |stream + data[..s.headerSize - |s.header|]| <= t.entries[0].absOffset
              && Run(t.user.log).stored == [] && Run(t.user.log).open.None? && t.nczActive == s.nczActive
              && var m := HeaderMeta(stream + data[..s.headerSize - |s.header|]);
                 m.Some? && t.metaId == m.value.contentId && t.metaSize == m.value.size
  {
    hide InStep, Run, TracedOps, Advance, Pfs.PeekHeaderSize, Pfs.Parse, Collect, LastMeta, SortByOffset, Fail,
      InEntries, MetaListed;
    var used := s.headerSize - |s.header|;
    var h := stream + data[..used];
    Pfs.PeekIsLocal(stream, h);
    LayoutOfHeader(stream, data, s.headerSize, h);
    TableBuilt(TracedEnv(env), s, data);
    NotYetOpen(s);
    OpenIsFlag(s);
    FailStage(TracedEnv(env), s);
  }

  lemma RoundExact<S, Z(!new)>(zstd: Zstd<Z>, aes: BlockCipher, env: Env<S, Decoder<Z>>, s: State<Traced<S>, Decoder<Z>>,
                               done: seq<bytes>, part: bytes, data: bytes)
    requires Sound(zstd) && env.ncz == Some(DecoderOps(zstd, aes))
    requires Exact(zstd, aes, s, done + [part]) && Waiting(s, done, part) && Valid(TracedEnv(env), s) && !s.stage.Failed?
    requires |Joined(done)| + |part| + |data| < U64_LIMIT && DisjointStream(Joined(done) + part + data)
    ensures var (t, used) := Iter(TracedEnv(env), s, data);
            && used <= |data|
            && (!t.stage.Failed? ==> Exact(zstd, aes, t, done + [part + data[..used]]))
            && (!t.stage.Failed? && used < |data| ==> Waiting(t, done, part + data[..used]))
  {
    hide Exact, StepMagic, StepHeader, StepStreaming, Valid, TracedEnv, DisjointStream, Advance, Joined;
    match s.stage
    case Magic => MagicExact(zstd, aes, env, s, done, part, data);
    case Header => HeaderExact(zstd, aes, env, s, done, part, data);
    case Streaming => StreamingExact(zstd, aes, env, s, done, part, data);
    case Complete =>
      CompleteExact(zstd, aes, s, done, part, data);
      assert data[..|data|] == data;
  }

  lemma {:induction false} FeedExact<S, Z(!new)>(zstd: Zstd<Z>, aes: BlockCipher, env: Env<S, Decoder<Z>>,
                                                 s: State<Traced<S>, Decoder<Z>>,
                                                 done: seq<bytes>, part: bytes, data: bytes)
    requires Sound(zstd) && env.ncz == Some(DecoderOps(zstd, aes))
    requires Exact(zstd, aes, s, done + [part]) && (data != [] ==> Waiting(s, done, part)) && Valid(TracedEnv(env), s)
    requires |Joined(done)| + |part| + |data| < U64_LIMIT && DisjointStream(Joined(done) + part + data)
    ensures var t := Feed(TracedEnv(env), s, data); !t.stage.Failed? ==> Exact(zstd, aes, t, done + [part + data])
    decreases |data|, StageRank(s.stage), EntriesLeft(s)
  {
    hide Exact, Iter, Valid, TracedEnv, DisjointStream, Joined, Waiting;
    if data == [] {
      assert part + data == part;
    } else if !s.stage.Failed? {
      RoundExact(zstd, aes, env, s, done, part, data);
      IterProgress(TracedEnv(env), s, data);
      var (t, used) := Iter(TracedEnv(env), s, data);
      if !t.stage.Failed? {
        assert part + data[..used] + data[used..] == part + data;
        assert Joined(done) + (part + data[..used]) + data[used..] == Joined(done) + part + data;
        FeedExact(zstd, aes, env, t, done, part + data[..used], data[used..]);
      } else {
        FailedFeed(TracedEnv(env), t, data[used..]);
      }
    }
  }

  /** Nothing has been fed of the next chunk yet. */
  lemma NextChunk<S, Z(!new)>(zstd: Zstd<Z>, aes: BlockCipher, s: State<Traced<S>, Decoder<Z>>, done: seq<bytes>)
    requires Sound(zstd) && Exact(zstd, aes, s, done)
    ensures Exact(zstd, aes, s, done + [[]]) && Waiting(s, done, [])
  {
    hide InStep, InEntries, Run, MetaListed, Layout, RebuildAlong, Arrived, EndsInPrelude, Joined, FedAlong, Sent,
      FeedsOf, SizeKnown, Owed, AllEnded;
    JoinedMore(done, []);
    assert Joined(done) + [] == Joined(done);
    if s.stage.Streaming? || s.stage.Complete? {
      EmptyChunkOwes(zstd, aes, s.entries[..s.cursor], done);
      EmptyChunkSizes(zstd, aes, s, done);
    }
    if s.stage.Streaming? {
      EmptyChunkFeeds(s.entries[s.cursor], done);
    }
  }

  lemma EmptyChunkSizes<S, Z(!new)>(zstd: Zstd<Z>, aes: BlockCipher, s: State<S, Decoder<Z>>, done: seq<bytes>)
    requires Sound(zstd) && s.cursor <= |s.entries| && SizeKnown(zstd, aes, s, done)
    ensures SizeKnown(zstd, aes, s, done + [[]])
  {
    hide HeaderMeta, Joined, SizeAfter;
    JoinedMore(done, []);
    assert Joined(done) + [] == Joined(done);
    EmptyChunkSize(zstd, aes, HeaderMeta(Joined(done)).value.size, s.entries[..s.cursor], done);
  }

  lemma {:induction false} EmptyChunkSize<Z(!new)>(zstd: Zstd<Z>, aes: BlockCipher, listed: u64, es: seq<Entry>, done: seq<bytes>)
    requires Sound(zstd)
    ensures SizeAfter(zstd, aes, listed, es, done + [[]]) == SizeAfter(zstd, aes, listed, es, done)
    decreases |es|
  {
    hide RebuildAlong, FeedsOf;
    if es != [] {
      EmptyChunkFeeds(es[|es| - 1], done);
      EmptyChunkSize(zstd, aes, listed, es[..|es| - 1], done);
    }
  }

  lemma EmptyChunkFeeds(e: Entry, done: seq<bytes>)
    ensures FeedsOf(e, done + [[]]) == FeedsOf(e, done)
  {
    FeedsMore(e, done, []);
  }

  lemma {:induction false} EmptyChunkOwes<Z(!new)>(zstd: Zstd<Z>, aes: BlockCipher, es: seq<Entry>, done: seq<bytes>)
    requires Sound(zstd)
    ensures Owed(zstd, aes, es, done + [[]]) == Owed(zstd, aes, es, done)
    ensures AllEnded(zstd, aes, es, done) ==> AllEnded(zstd, aes, es, done + [[]])
    decreases |es|
  {
    hide RebuildAlong, Arrived, EndsInPrelude, FeedsOf, Joined;
    JoinedMore(done, []);
    assert Joined(done) + [] == Joined(done);
    forall e: Entry
      ensures FeedsOf(e, done + [[]]) == FeedsOf(e, done)
    {
      EmptyChunkFeeds(e, done);
    }
    if es != [] {
      EmptyChunkOwes(zstd, aes, es[..|es| - 1], done);
    }
  }

  lemma {:induction false} ChunksExact<S, Z(!new)>(zstd: Zstd<Z>, aes: BlockCipher, env: Env<S, Decoder<Z>>,
                                                   s: State<Traced<S>, Decoder<Z>>,
                                                   done: seq<bytes>, chunks: seq<bytes>)
    requires Sound(zstd) && env.ncz == Some(DecoderOps(zstd, aes))
    requires Exact(zstd, aes, s, done) && Valid(TracedEnv(env), s)
    requires |Joined(done)| + |Joined(chunks)| < U64_LIMIT && DisjointStream(Joined(done) + Joined(chunks))
    ensures var t := FeedAll(TracedEnv(env), s, chunks); !t.stage.Failed? ==> Exact(zstd, aes, t, done + chunks)
    decreases |chunks|
  {
    hide Exact, Feed, Valid, TracedEnv, DisjointStream;
    if chunks == [] {
      assert done + chunks == done;
    } else {
      var c, rest := chunks[0], Joined(chunks[1..]);
      assert Joined(done) + (c + rest) == Joined(done) + c + rest;
      assert Joined(done) + [] + c == Joined(done) + c && [] + c == c;
      DisjointPrefix(Joined(done) + c, rest);
      NextChunk(zstd, aes, s, done);
      FeedExact(zstd, aes, env, s, done, [], c);
      JoinedMore(done, c);
      var t := Feed(TracedEnv(env), s, c);
      assert done + [c] + chunks[1..] == done + chunks;
      if !t.stage.Failed? {
        ChunksExact(zstd, aes, env, t, done + [c], chunks[1..]);
      } else {
        FailedStays(TracedEnv(env), t, chunks[1..]);
      }
    }
  }

  /** A run that has begun and taken these chunks. */
  lemma RunExact<S, Z(!new)>(zstd: Zstd<Z>, aes: BlockCipher, env: Env<S, Decoder<Z>>, user: S, d: Decoder<Z>, chunks: seq<bytes>)
    requires Sound(zstd) && env.ncz == Some(DecoderOps(zstd, aes))
    requires |Joined(chunks)| < U64_LIMIT && DisjointStream(Joined(chunks))
    ensures var s := Begin(TracedEnv(env), Traced(user, []), d);
            && Valid(TracedEnv(env), s)
            && var t := FeedAll(TracedEnv(env), s, chunks); !t.stage.Failed? ==> Exact(zstd, aes, t, chunks)
  {
    hide Delivered, FeedAll, DisjointStream, Owed, AllEnded, Run, Tracks, Layout;
    StartsInStep(env, user, d);
    BeginDelivered(env, user, d);
    assert [] + Joined(chunks) == Joined(chunks) && [] + chunks == chunks;
    ChunksExact(zstd, aes, env, Begin(TracedEnv(env), Traced(user, []), d), [], chunks);
  }

  /**
   * However the stream is cut, whatever the backend does and whatever the decompressor holds back between the
   * pieces: an install that has streamed every entry of a container with disjoint entries has committed, in stream
   * order, the plain contents' bytes and the files rebuilt along the pieces the compressed contents arrived in,
   * each of exactly its declared size, and nothing else. The only compressed contents that leave nothing behind
   * are those that stopped before their own section table was complete.
   */
  lemma CompressedContentsAreRebuilt<S, Z(!new)>(zstd: Zstd<Z>, aes: BlockCipher, env: Env<S, Decoder<Z>>, user: S,
                                                 d: Decoder<Z>, chunks: seq<bytes>)
    requires Sound(zstd) && env.ncz == Some(DecoderOps(zstd, aes))
    requires |Joined(chunks)| < U64_LIMIT && DisjointStream(Joined(chunks))
    ensures var s := Begin(TracedEnv(env), Traced(user, []), d);
            && Valid(TracedEnv(env), s)
            && var t := FeedAll(TracedEnv(env), s, chunks);
               t.stage.Complete? ==>
                 && Run(t.user.log).stored == Owed(zstd, aes, t.entries, chunks)
                 && AllEnded(zstd, aes, t.entries, chunks)
                 && forall i :: 0 <= i < |Run(t.user.log).stored| ==> |Run(t.user.log).stored[i].data| == Run(t.user.log).stored[i].size
  {
    hide Delivered, FeedAll, DisjointStream, Owed, AllEnded, Run, Tracks, Layout;
    RunExact(zstd, aes, env, user, d, chunks);
    var t := FeedAll(TracedEnv(env), Begin(TracedEnv(env), Traced(user, []), d), chunks);
    if t.stage.Complete? {
      CompleteIsAll(t, Joined(chunks));
      assert t.entries[..t.cursor] == t.entries;
      AllArrived(t, Joined(chunks));
      OwedIsWhole(zstd, aes, t.entries, chunks);
    }
  }

  lemma CompleteIsAll<S, D>(s: State<Traced<S>, D>, stream: bytes)
    requires Delivered(s, stream) && s.stage.Complete?
    ensures s.cursor == |s.entries|
  {
  }

  lemma AllArrived<S, D>(s: State<Traced<S>, D>, stream: bytes)
    requires Delivered(s, stream) && s.stage.Complete?
    ensures Past(s.entries, stream)
  {
    hide InStep, Run, StoredIs, Buffered, MetaListed, DisjointEntries, OpenIs;
    assert s.entries[..s.cursor] == s.entries;
  }

  /** Whatever is owed is exactly as long as it says. */
  lemma {:induction false} OwedIsWhole<Z(!new)>(zstd: Zstd<Z>, aes: BlockCipher, es: seq<Entry>, chunks: seq<bytes>)
    requires Sound(zstd) && Past(es, Joined(chunks))
    ensures forall p :: p in Owed(zstd, aes, es, chunks) ==> |p.data| == p.size
    decreases |es|
  {
    hide RebuildAlong, EndsInPrelude, FeedsOf, Joined;
    if es != [] {
      var e := es[|es| - 1];
      OwedIsWhole(zstd, aes, es[..|es| - 1], chunks);
      if IsCompressed(e.kind) && RebuildAlong(zstd, aes, FeedsOf(e, chunks)).Some? {
        AlongCases(zstd, aes, zstd.start, FeedsOf(e, chunks));
      }
    }
  }

  // ----- what a finished install has registered -----

  /** A content entry that has left something behind. */
  ghost predicate Lasting(e: Entry, stream: bytes) {
    IsContent(e.kind) && !(IsCompressed(e.kind) && EndsInPrelude(Arrived(e, stream)))
  }

  lemma OwedIffLasting<Z(!new)>(zstd: Zstd<Z>, aes: BlockCipher, e: Entry, chunks: seq<bytes>)
    requires Sound(zstd) && Ended(zstd, aes, e, chunks)
    ensures var owed := OwedFor(zstd, aes, e, chunks);
            if Lasting(e, Joined(chunks)) then |owed| == 1 && owed[0].id == e.contentId else owed == []
  {
    hide Arrived, RebuildAlong, EndsInPrelude, EntryOutcome, FeedsOf;
    FeedsAreArrived(e, chunks);
    AlongCases(zstd, aes, zstd.start, FeedsOf(e, chunks));
  }

  /** An id is owed exactly when some entry of that id was plain or reached the end of its table. */
  lemma {:induction false} OwedIdIffLasting<Z(!new)>(zstd: Zstd<Z>, aes: BlockCipher, es: seq<Entry>,
                                                     chunks: seq<bytes>, id: bytes)
    requires Sound(zstd) && AllEnded(zstd, aes, es, chunks)
    ensures IsStored(Owed(zstd, aes, es, chunks), id) <==> exists i :: 0 <= i < |es| && Lasting(es[i], Joined(chunks)) && es[i].contentId == id
    decreases |es|
  {
    hide OwedFor, Lasting, Ended, Joined;
    if es != [] {
      var n := |es| - 1;
      var rest, e := es[..n], es[n];
      OwedIffLasting(zstd, aes, e, chunks);
      OwedIdIffLasting(zstd, aes, rest, chunks, id);
      var before, last := Owed(zstd, aes, rest, chunks), OwedFor(zstd, aes, e, chunks);
      StoredInEither(before, last, id);
      if exists i :: 0 <= i < |es| && Lasting(es[i], Joined(chunks)) && es[i].contentId == id {
        var i :| 0 <= i < |es| && Lasting(es[i], Joined(chunks)) && es[i].contentId == id;
        if i < n {
          assert rest[i] == es[i];
        } else {
          assert last[0].id == id;
        }
      }
      if exists i :: 0 <= i < |rest| && Lasting(rest[i], Joined(chunks)) && rest[i].contentId == id {
        var i :| 0 <= i < |rest| && Lasting(rest[i], Joined(chunks)) && rest[i].contentId == id;
        assert rest[i] == es[i];
      }
    }
  }

  lemma StoredInEither(a: seq<Placeholder>, b: seq<Placeholder>, id: bytes)
    ensures IsStored(a + b, id) <==> IsStored(a, id) || IsStored(b, id)
  {
    if IsStored(a, id) {
      var i :| 0 <= i < |a| && a[i].id == id;
      assert (a + b)[i].id == id;
    }
    if IsStored(b, id) {
      var i :| 0 <= i < |b| && b[i].id == id;
      assert (a + b)[|a| + i].id == id;
    }
  }

  /**
   * However the stream is cut, whatever the backend does and whatever the decompressor holds back: once every entry
   * has been streamed, a content id has been committed exactly when some entry of that id was plain or reached the
   * end of its own table.
   */
  lemma CommittedIffLasting<S, Z(!new)>(zstd: Zstd<Z>, aes: BlockCipher, env: Env<S, Decoder<Z>>, user: S,
                                        d: Decoder<Z>, chunks: seq<bytes>, id: bytes)
    requires Sound(zstd) && env.ncz == Some(DecoderOps(zstd, aes))
    requires |Joined(chunks)| < U64_LIMIT && DisjointStream(Joined(chunks))
    ensures var s := Begin(TracedEnv(env), Traced(user, []), d);
            && Valid(TracedEnv(env), s)
            && var t := FeedAll(TracedEnv(env), s, chunks);
               t.stage.Complete? ==>
                 (IsStored(Run(t.user.log).stored, id)
                  <==> exists i :: 0 <= i < |t.entries| && Lasting(t.entries[i], Joined(chunks)) && t.entries[i].contentId == id)
  {
    hide FeedAll, DisjointStream, Owed, AllEnded, Run, Lasting, IsStored;
    CompressedContentsAreRebuilt(zstd, aes, env, user, d, chunks);
    var s := Begin(TracedEnv(env), Traced(user, []), d);
    var t := FeedAll(TracedEnv(env), s, chunks);
    if t.stage.Complete? {
      OwedIdIffLasting(zstd, aes, t.entries, chunks, id);
    }
  }

  /**
   * A whole run, in any cuts and on any backend. A finish that works registers only contents the container has an
   * entry for, and each of them has been committed exactly when one of its entries was plain or reached the end of
   * its own table: the installer looks for the entry, not for the committed content.
   */
  lemma FinishRegistersRebuilt<S, Z(!new)>(zstd: Zstd<Z>, aes: BlockCipher, env: Env<S, Decoder<Z>>, user: S,
                                           d: Decoder<Z>, chunks: seq<bytes>)
    requires Sound(zstd) && env.ncz == Some(DecoderOps(zstd, aes))
    requires |Joined(chunks)| < U64_LIMIT && DisjointStream(Joined(chunks))
    ensures Valid(TracedEnv(env), Begin(TracedEnv(env), Traced(user, []), d))
    ensures var s := FeedAll(TracedEnv(env), Begin(TracedEnv(env), Traced(user, []), d), chunks);
            var t := Finish(TracedEnv(env), s);
            !t.stage.Failed? ==>
              forall i :: 0 <= i < |t.meta.contents| ==>
                            var id := t.meta.contents[i].contentId;
                            && Present(s.entries, id)
                            && (IsStored(Run(s.user.log).stored, id)
                                <==> exists k :: 0 <= k < |s.entries| && Lasting(s.entries[k], Joined(chunks)) && s.entries[k].contentId == id)
  {
    hide Finish, ManifestRead, RecordOf, Delivered, Run, Owed, Present, IsStored, AllEnded, Lasting, Tracks, Layout,
      FeedAll, DisjointStream;
    RunExact(zstd, aes, env, user, d, chunks);
    var s := FeedAll(TracedEnv(env), Begin(TracedEnv(env), Traced(user, []), d), chunks);
    var t := Finish(TracedEnv(env), s);
    if !t.stage.Failed? {
      FinishCalls(env, s);
      AllStored(s, Joined(chunks));
      var m := ManifestRead(TracedEnv(env), s).value;
      forall i | 0 <= i < |t.meta.contents|
        ensures var id := t.meta.contents[i].contentId;
                && Present(s.entries, id)
                && (IsStored(Run(s.user.log).stored, id)
                    <==> exists k :: 0 <= k < |s.entries| && Lasting(s.entries[k], Joined(chunks)) && s.entries[k].contentId == id)
      {
        RecordIsPresent(s, m, t.meta, i);
        CommittedIffLasting(zstd, aes, env, user, d, chunks, t.meta.contents[i].contentId);
      }
    }
  }

  // ----- the size the record gives the meta content -----

  lemma HeaderMetaListed(stream: bytes)
    requires Layout(stream).Some?
    ensures HeaderMeta(stream).Some? && HeaderMeta(stream).value in Layout(stream).value.0 && IsMeta(HeaderMeta(stream).value.kind)
  {
    hide Pfs.PeekHeaderSize, Pfs.Parse, Collect, SortByOffset;
    var size := Pfs.PeekHeaderSize(stream).value.1;
    var es := Collect(Pfs.Parse(stream[..size]).value, 0, []).0;
    LastMetaIsMember(es);
    SortKeepsMembers(es, LastMeta(es).value);
  }

  lemma {:induction false} SizeOfOne<Z(!new)>(zstd: Zstd<Z>, aes: BlockCipher, listed: u64, es: seq<Entry>, e: Entry,
                                              chunks: seq<bytes>)
    requires Sound(zstd) && e.kind.MetaNcz? && forall i :: 0 <= i < |es| && es[i].kind.MetaNcz? ==> es[i] == e
    ensures var file := RebuildAlong(zstd, aes, FeedsOf(e, chunks));
            SizeAfter(zstd, aes, listed, es, chunks) == if e in es && file.Some? then file.value.size else listed
    decreases |es|
  {
    hide RebuildAlong, FeedsOf;
    if es != [] {
      var n := |es| - 1;
      SizeOfOne(zstd, aes, listed, es[..n], e, chunks);
      assert es == es[..n] + [es[n]];
    }
  }

  /**
   * However the stream is cut: when the container's own meta content is compressed, the record gives it the size of the
   * file it was rebuilt to, not the one it had in the container.
   */
  lemma MetaSizeIsRebuilt<S, Z(!new)>(zstd: Zstd<Z>, aes: BlockCipher, env: Env<S, Decoder<Z>>, user: S, d: Decoder<Z>,
                                      chunks: seq<bytes>, e: Entry)
    requires Sound(zstd) && env.ncz == Some(DecoderOps(zstd, aes))
    requires |Joined(chunks)| < U64_LIMIT && DisjointStream(Joined(chunks)) && e.kind.MetaNcz?
    ensures var s := Begin(TracedEnv(env), Traced(user, []), d);
            && Valid(TracedEnv(env), s)
            && var t := FeedAll(TracedEnv(env), s, chunks);
               var file := RebuildAlong(zstd, aes, FeedsOf(e, chunks));
               t.stage.Complete? && e in t.entries && (forall i :: 0 <= i < |t.entries| && IsMeta(t.entries[i].kind) ==> t.entries[i] == e) ==>
                 t.metaId == e.contentId && t.metaSize == if file.Some? then file.value.size else e.size
  {
    hide Delivered, FeedAll, DisjointStream, Owed, AllEnded, Run, Tracks, Layout, HeaderMeta, RebuildAlong, FeedsOf, SizeAfter;
    RunExact(zstd, aes, env, user, d, chunks);
    var t := FeedAll(TracedEnv(env), Begin(TracedEnv(env), Traced(user, []), d), chunks);
    if t.stage.Complete? && e in t.entries && forall i :: 0 <= i < |t.entries| && IsMeta(t.entries[i].kind) ==> t.entries[i] == e {
      CompleteIsAll(t, Joined(chunks));
      assert t.entries[..t.cursor] == t.entries;
      HeaderMetaListed(Joined(chunks));
      SizeOfOne(zstd, aes, HeaderMeta(Joined(chunks)).value.size, t.entries, e, chunks);
    }
  }
}
