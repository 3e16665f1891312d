/**
 * The cuts of a container with compressed contents do not matter, even for a decompressor that holds output back
 * between the pieces: next to each run goes one with the ideal decoder, which cannot tell the cuts, and wherever no
 * compressed content is half-way through the two stand in the same state.
 */
module NszCuts {
  import opened Bytes
  import opened EntryNames
  import opened InstallSpec
  import opened ChunkIndependence
  import opened EntryTable
  import opened Delivery
  import opened Ncz
  import opened NczDecode
  import opened NczRebuild
  import opened NczCuts
  import opened NczIdeal
  import opened NszDelivery
  import Pfs = PartitionFs

  /** Two states that differ at most in the decoder's own state. */
  ghost predicate Alike<S, D>(s: State<S, D>, t: State<S, D>) {
    t == s.(nczUser := t.nczUser)
  }

  /** The same installer with the ideal decoder in it. */
  ghost function Ideally<S, Z(!new), Y>(env: Env<S, Decoder<Z>>, zstd: Zstd<Z>, m: Meaning<Z, Y>,
                                        aes: BlockCipher): Env<S, Decoder<Z>> {
    env.(ncz := Some(IdealOps(zstd, m, aes)))
  }

  // ----- the sink does not look at the decoder -----

  lemma SinkAlike<S, D>(env: Env<S, D>, other: Env<S, D>, s: State<S, D>, d: D, pos: u64, em: Emission)
    requires s.cursor < |s.entries| && env.ops == other.ops
    ensures var (t, ok) := Sink(env, s, em);
            Sink(other, s.(nczUser := d, streamPos := pos), em) == (t.(nczUser := d, streamPos := pos), ok)
  {
    hide Advance;
  }

  lemma {:induction false} FlatAlike<S, D>(env: Env<S, D>, other: Env<S, D>, s: State<S, D>, d: D, pos: u64,
                                           sent: seq<(u64, byte)>)
    requires s.cursor < |s.entries| && env.ops == other.ops
    ensures var (t, ok) := RunFlat(env, s, sent);
            RunFlat(other, s.(nczUser := d, streamPos := pos), sent) == (t.(nczUser := d, streamPos := pos), ok)
    decreases |sent|
  {
    hide Sink;
    if sent != [] {
      var em := Emission(sent[0].0, [sent[0].1]);
      SinkAlike(env, other, s, d, pos, em);
      SinkShape(env, s, em);
      var (t, ok) := Sink(env, s, em);
      if ok {
        FlatAlike(env, other, t, d, pos, sent[1..]);
      }
    }
  }

  lemma {:induction false} FlatShape<S, D>(env: Env<S, D>, s: State<S, D>, sent: seq<(u64, byte)>)
    requires s.cursor < |s.entries|
    ensures var t := RunFlat(env, s, sent).0;
            t == s.(user := t.user, contentOpen := t.contentOpen, bytesWritten := t.bytesWritten)
    decreases |sent|
  {
    hide Sink;
    if sent != [] {
      var em := Emission(sent[0].0, [sent[0].1]);
      OneSinkShape(env, s, em);
      var (t, ok) := Sink(env, s, em);
      if ok {
        FlatShape(env, t, sent[1..]);
      }
    }
  }

  lemma OneSinkShape<S, D>(env: Env<S, D>, s: State<S, D>, em: Emission)
    requires s.cursor < |s.entries|
    ensures var t := Sink(env, s, em).0;
            t == s.(user := t.user, contentOpen := t.contentOpen, bytesWritten := t.bytesWritten)
  {
    hide Advance;
  }

  // ----- how far the ideal run is ahead -----

  /** The state the real run would be in had it sent all that is due, or nothing when that cannot be. */
  ghost function Ahead<S, Z(!new), Y>(zstd: Zstd<Z>, m: Meaning<Z, Y>, aes: BlockCipher, env: Env<S, Decoder<Z>>,
                                      s: State<S, Decoder<Z>>,
                                      x: bytes, sent: seq<(u64, byte)>): Option<State<S, Decoder<Z>>>
    requires s.cursor < |s.entries|
  {
    var due := Due(zstd, m, aes, x);
    if Sane(zstd, m, x) && sent <= due then
      var p := RunFlat(env, s, due[|sent|..]);
      if p.1 then Some(p.0) else None
    else None
  }

  /** The real run is inside a compressed entry of which it has been fed `x`; the ideal run is ahead or has failed. */
  ghost predicate Trails<S, Z(!new), Y>(zstd: Zstd<Z>, m: Meaning<Z, Y>, aes: BlockCipher, env: Env<S, Decoder<Z>>,
                                        s: State<S, Decoder<Z>>, i: State<S, Decoder<Z>>, x: bytes, feeds: seq<bytes>)
    requires Sound(zstd) && s.cursor < |s.entries|
  {
    && Joined(feeds) == x
    && FedAlong(zstd, aes, s.nczUser, s.nczUser.z, feeds)
    && match Ahead(zstd, m, aes, env, s, x, EntryOutcome(zstd, aes, s.nczUser.z, feeds).sent)
       case None => i.stage == Failed(BadNcz)
       case Some(a) => Alike(a, i) && i.nczUser.prelude == x
  }

  lemma SplitDue(due: seq<(u64, byte)>, so: nat, e: seq<(u64, byte)>, n: nat)
    requires so <= n <= |due| && e <= due[so..]
    ensures due[so..] == due[so..n] + due[n..] == e + due[so + |e|..]
  {
  }

  /** Sending `e` first and the rest of what is due later comes to the same as sending it all. */
  lemma AheadMoves<S, Z(!new), Y>(zstd: Zstd<Z>, m: Meaning<Z, Y>, aes: BlockCipher, env: Env<S, Decoder<Z>>,
                                  s: State<S, Decoder<Z>>,
                                  x: bytes, c: bytes, sent: seq<(u64, byte)>, e: seq<(u64, byte)>)
    requires s.cursor < |s.entries| && Sane(zstd, m, x + c) && sent <= Due(zstd, m, aes, x) && sent + e <= Due(zstd, m, aes, x + c)
    ensures Due(zstd, m, aes, x) <= Due(zstd, m, aes, x + c) && Sane(zstd, m, x)
    ensures var p := RunFlat(env, s, e);
            var news := Due(zstd, m, aes, x + c)[|Due(zstd, m, aes, x)|..];
            match Ahead(zstd, m, aes, env, s, x, sent)
            case None => p.1 ==> Ahead(zstd, m, aes, env, p.0, x + c, sent + e).None?
            case Some(a) =>
              var q := RunFlat(env, a, news);
              if p.1 then Ahead(zstd, m, aes, env, p.0, x + c, sent + e) == (if q.1 then Some(q.0) else None) else !q.1
  {
    hide Due, Sane, RunFlat;
    DueGrows(zstd, m, aes, x, c);
    var was, due := Due(zstd, m, aes, x), Due(zstd, m, aes, x + c);
    var so, n := |sent|, |was|;
    assert due[so..n] == was[so..];
    assert (sent + e)[so..] == e;
    SplitDue(due, so, e, n);
    RunFlatAppend(env, s, was[so..], due[n..]);
    RunFlatAppend(env, s, e, due[so + |e|..]);
  }

  /** Where a run stands has no influence on how far the ideal one is ahead. */
  lemma AheadAlike<S, Z(!new), Y>(zstd: Zstd<Z>, m: Meaning<Z, Y>, aes: BlockCipher, env: Env<S, Decoder<Z>>,
                                  s: State<S, Decoder<Z>>,
                                  d: Decoder<Z>, pos: u64, x: bytes, sent: seq<(u64, byte)>)
    requires s.cursor < |s.entries|
    ensures var a := Ahead(zstd, m, aes, env, s, x, sent);
            Ahead(zstd, m, aes, env, s.(nczUser := d, streamPos := pos), x, sent)
            == if a.Some? then Some(a.value.(nczUser := d, streamPos := pos)) else None
  {
    hide Due, Sane, RunFlat;
    if sent <= Due(zstd, m, aes, x) {
      FlatAlike(env, env, s, d, pos, Due(zstd, m, aes, x)[|sent|..]);
    }
  }

  /** The sink calls of one feed, whatever pieces they come in. */
  lemma FeedIsFlat<S(!new), D>(env: Env<S, D>, s: State<S, D>, data: bytes)
    requires CutFreeBackend(env.ops) && s.cursor < |s.entries| && env.ncz.Some? && !s.stage.Failed?
    requires NoEmptyEmission(env.ncz.value.feed(s.nczUser, data).emissions)
    ensures var r := env.ncz.value.feed(s.nczUser, data);
            var p, t := RunFlat(env, s, Flat(r.emissions)), FeedDecoder(env, s, data);
            if r.ok && p.1 then t == p.0.(nczUser := r.user) && t.stage == s.stage else t.stage == Failed(BadNcz)
  {
    hide RunFlat, RunSink, Flat, CutFreeBackend, Fail;
    var r := env.ncz.value.feed(s.nczUser, data);
    RunSinkIsFlat(env, s, r.emissions);
    FailStage(env, RunSink(env, s, r.emissions).0.(nczUser := r.user));
  }

  /** One feed of the ideal decoder. */
  lemma IdealFeeds<S(!new), Z(!new), Y>(zstd: Zstd<Z>, m: Meaning<Z, Y>, aes: BlockCipher, env: Env<S, Decoder<Z>>,
                                        i: State<S, Decoder<Z>>, chunk: bytes)
    requires CutFreeBackend(env.ops) && i.cursor < |i.entries| && !i.stage.Failed?
    ensures var x := i.nczUser.prelude;
            var j := FeedDecoder(Ideally(env, zstd, m, aes), i, chunk);
            if !Sane(zstd, m, x + chunk) then j.stage == Failed(BadNcz)
            else
              && Due(zstd, m, aes, x) <= Due(zstd, m, aes, x + chunk)
              && var q := RunFlat(env, i, Due(zstd, m, aes, x + chunk)[|Due(zstd, m, aes, x)|..]);
                 if q.1 then Alike(q.0, j) && j.nczUser.prelude == x + chunk && j.stage == i.stage else j.stage == Failed(BadNcz)
  {
    hide Sane, Due, RunFlat, Flat, IdealOps, FeedDecoder, CutFreeBackend;
    var envI, x := Ideally(env, zstd, m, aes), i.nczUser.prelude;
    IdealReply(zstd, m, aes, i.nczUser, chunk);
    FeedIsFlat(envI, i, chunk);
    var r := envI.ncz.value.feed(i.nczUser, chunk);
    FlatAlike(env, envI, i, i.nczUser, i.streamPos, Flat(r.emissions));
    FlatShape(env, i, Flat(r.emissions));
    assert i.(nczUser := i.nczUser, streamPos := i.streamPos) == i;
    if Sane(zstd, m, x + chunk) {
      var was := Due(zstd, m, aes, x);
      assert (was + Flat(r.emissions))[|was|..] == Flat(r.emissions);
    }
  }

  /** The same, of a run that is ahead of `s` in state `a`. */
  lemma AheadFeeds<S(!new), Z(!new), Y>(zstd: Zstd<Z>, m: Meaning<Z, Y>, aes: BlockCipher, env: Env<S, Decoder<Z>>,
                                        a: State<S, Decoder<Z>>, i: State<S, Decoder<Z>>, x: bytes, chunk: bytes)
    requires CutFreeBackend(env.ops) && i.cursor < |i.entries| && !i.stage.Failed? && Alike(a, i) && i.nczUser.prelude == x
    ensures var j := FeedDecoder(Ideally(env, zstd, m, aes), i, chunk);
            if !Sane(zstd, m, x + chunk) then j.stage == Failed(BadNcz)
            else
              && Due(zstd, m, aes, x) <= Due(zstd, m, aes, x + chunk)
              && var q := RunFlat(env, a, Due(zstd, m, aes, x + chunk)[|Due(zstd, m, aes, x)|..]);
                 if q.1 then Alike(q.0, j) && j.nczUser.prelude == x + chunk && j.stage == i.stage else j.stage == Failed(BadNcz)
  {
    hide Sane, Due, RunFlat, FeedDecoder, CutFreeBackend, Alike;
    AlikePlaces(a, i);
    IdealFeeds(zstd, m, aes, env, i, chunk);
    if Sane(zstd, m, x + chunk) {
      var news := Due(zstd, m, aes, x + chunk)[|Due(zstd, m, aes, x)|..];
      FlatOfAlike(env, a, i, news);
      AlikeAgain(RunFlat(env, a, news).0, RunFlat(env, i, news).0, FeedDecoder(Ideally(env, zstd, m, aes), i, chunk));
    }
  }

  lemma AlikePlaces<S, D>(s: State<S, D>, t: State<S, D>)
    requires Alike(s, t)
    ensures s.cursor == t.cursor && s.entries == t.entries && s.stage == t.stage && s.streamPos == t.streamPos && s.nczActive == t.nczActive
  {
  }

  lemma AlikeAgain<S, D>(s: State<S, D>, t: State<S, D>, u: State<S, D>)
    ensures Alike(s, t) && Alike(t, u) ==> Alike(s, u)
  {
  }

  lemma FlatOfAlike<S, D>(env: Env<S, D>, s: State<S, D>, t: State<S, D>, sent: seq<(u64, byte)>)
    requires s.cursor < |s.entries| && Alike(s, t)
    ensures t.cursor < |t.entries|
    ensures var p, q := RunFlat(env, s, sent), RunFlat(env, t, sent); p.1 == q.1 && Alike(p.0, q.0)
  {
    hide RunFlat;
    FlatAlike(env, env, s, t.nczUser, s.streamPos, sent);
    FlatShape(env, s, sent);
    assert s.(nczUser := t.nczUser, streamPos := s.streamPos) == t;
  }

  /** A run that trails is ahead of by a run in the same place, or by one that has failed. */
  lemma TrailsShape<S, Z(!new), Y>(zstd: Zstd<Z>, m: Meaning<Z, Y>, aes: BlockCipher, env: Env<S, Decoder<Z>>,
                                   s: State<S, Decoder<Z>>, i: State<S, Decoder<Z>>, x: bytes, feeds: seq<bytes>)
    requires Sound(zstd) && s.cursor < |s.entries| && !s.stage.Failed? && Trails(zstd, m, aes, env, s, i, x, feeds)
    ensures var a := Ahead(zstd, m, aes, env, s, x, EntryOutcome(zstd, aes, s.nczUser.z, feeds).sent);
            if a.None? then i.stage == Failed(BadNcz)
            else
              && i.cursor == s.cursor && i.entries == s.entries && i.stage == s.stage && i.nczActive == s.nczActive && i.streamPos == s.streamPos
              && Alike(a.value, i) && i.nczUser.prelude == x && a.value.stage == s.stage
  {
    hide Sane, Due, RunFlat, FedAlong, EntryOutcome;
    var sent := EntryOutcome(zstd, aes, s.nczUser.z, feeds).sent;
    if sent <= Due(zstd, m, aes, x) {
      FlatShape(env, s, Due(zstd, m, aes, x)[|sent|..]);
    }
  }

  /** One feed of the real decoder. */
  lemma RealFeeds<S(!new), Z(!new)>(zstd: Zstd<Z>, aes: BlockCipher, env: Env<S, Decoder<Z>>, s: State<S, Decoder<Z>>,
                                    feeds: seq<bytes>, chunk: bytes)
    requires Sound(zstd) && CutFreeBackend(env.ops) && env.ncz == Some(DecoderOps(zstd, aes))
    requires s.cursor < |s.entries| && !s.stage.Failed? && FedAlong(zstd, aes, s.nczUser, s.nczUser.z, feeds)
    ensures var r := env.ncz.value.feed(s.nczUser, chunk);
            var o, n := EntryOutcome(zstd, aes, s.nczUser.z, feeds), EntryOutcome(zstd, aes, s.nczUser.z, feeds + [chunk]);
            var p, t := RunFlat(env, s, Flat(r.emissions)), FeedDecoder(env, s, chunk);
            && (r.ok <==> n.ok)
            && (if r.ok && p.1 then
                  && t == p.0.(nczUser := r.user) && t.stage == s.stage
                  && FedAlong(zstd, aes, r.user, r.user.z, feeds + [chunk])
                  && EntryOutcome(zstd, aes, r.user.z, feeds + [chunk]).sent == o.sent + Flat(r.emissions) == n.sent
                else t.stage == Failed(BadNcz))
            && (r.ok ==> n.sent == o.sent + Flat(r.emissions))
  {
    hide RunFlat, Flat, FeedDecoder, CutFreeBackend, FedAlong, EntryOutcome, FeedEntry, DecoderOk;
    var z := s.nczUser.z;
    FedIsOk(zstd, aes, s.nczUser, z, feeds);
    FeedAdds(zstd, aes, s.nczUser, z, feeds, chunk);
    FeedJoins(zstd, aes, s.nczUser, feeds, chunk);
    assert env.ncz.value.feed(s.nczUser, chunk) == FeedEntry(zstd, aes, s.nczUser, chunk);
    FeedIsFlat(env, s, chunk);
  }

  /** A feed of the real decoder, and of the ideal one unless it has failed already. */
  lemma FeedTrails<S(!new), Z(!new), Y>(zstd: Zstd<Z>, m: Meaning<Z, Y>, aes: BlockCipher, env: Env<S, Decoder<Z>>,
                                        s: State<S, Decoder<Z>>, i: State<S, Decoder<Z>>, x: bytes, feeds: seq<bytes>, chunk: bytes, rest: bytes)
    requires Sound(zstd) && Steady(zstd, m) && Local(zstd) && CutFreeBackend(env.ops) && env.ncz == Some(DecoderOps(zstd, aes))
    requires s.cursor < |s.entries| && !s.stage.Failed? && Trails(zstd, m, aes, env, s, i, x, feeds)
    requires NothingFollows(zstd, m, Payload(x + chunk + rest))
    ensures var t, j := FeedDecoder(env, s, chunk), FeedUnless(Ideally(env, zstd, m, aes), i, chunk);
            if t.stage.Failed? then t.stage == j.stage == Failed(BadNcz)
            else Trails(zstd, m, aes, env, t, j, x + chunk, feeds + [chunk])
  {
    hide Sane, Due, RunFlat, Flat, FeedDecoder, CutFreeBackend, FedAlong, EntryOutcome, Steady, Local, NothingFollows,
      Ahead, Alike, DecoderOps;
    var z := s.nczUser.z;
    var sent := EntryOutcome(zstd, aes, z, feeds).sent;
    var a := Ahead(zstd, m, aes, env, s, x, sent);
    JoinedMore(feeds, chunk);
    assert x + chunk + rest == x + (chunk + rest);
    SentIsDue(zstd, m, aes, z, feeds, chunk + rest);
    SentIsDue(zstd, m, aes, z, feeds + [chunk], rest);
    TrailsShape(zstd, m, aes, env, s, i, x, feeds);
    RealFeeds(zstd, aes, env, s, feeds, chunk);
    if a.Some? {
      AheadFeeds(zstd, m, aes, env, a.value, i, x, chunk);
    }
    var r := env.ncz.value.feed(s.nczUser, chunk);
    var e := Flat(r.emissions);
    var p := RunFlat(env, s, e);
    if Sane(zstd, m, x + chunk) {
      DueGrows(zstd, m, aes, x, chunk);
      AheadMoves(zstd, m, aes, env, s, x, chunk, sent, e);
      if p.1 {
        AheadAlike(zstd, m, aes, env, p.0, r.user, p.0.streamPos, x + chunk, sent + e);
        Redressed(p.0, r.user);
        var b := Ahead(zstd, m, aes, env, p.0, x + chunk, sent + e);
        if b.Some? && a.Some? {
          ThenAlike(b.value, r.user, p.0.streamPos, FeedDecoder(Ideally(env, zstd, m, aes), i, chunk)) by { AheadStays(zstd, m, aes, env, p.0, x + chunk, sent + e); }
        }
      }
    } else {
      AheadNeedsSane(zstd, m, aes, env, FeedDecoder(env, s, chunk), x + chunk, sent + e);
    }
  }

  lemma Redressed<S, D>(s: State<S, D>, d: D)
    ensures s.(nczUser := d, streamPos := s.streamPos) == s.(nczUser := d)
  {
  }

  lemma ThenAlike<S, D>(s: State<S, D>, d: D, pos: u64, t: State<S, D>)
    requires s.streamPos == pos
    ensures Alike(s, t) ==> Alike(s.(nczUser := d, streamPos := pos), t)
  {
  }

  lemma AheadStays<S, Z(!new), Y>(zstd: Zstd<Z>, m: Meaning<Z, Y>, aes: BlockCipher, env: Env<S, Decoder<Z>>,
                                  s: State<S, Decoder<Z>>,
                                  x: bytes, sent: seq<(u64, byte)>)
    requires s.cursor < |s.entries|
    ensures var a := Ahead(zstd, m, aes, env, s, x, sent); a.Some? ==> a.value.streamPos == s.streamPos
  {
    hide Due, Sane, RunFlat;
    if sent <= Due(zstd, m, aes, x) {
      FlatShape(env, s, Due(zstd, m, aes, x)[|sent|..]);
    }
  }

  lemma AheadNeedsSane<S, Z(!new), Y>(zstd: Zstd<Z>, m: Meaning<Z, Y>, aes: BlockCipher, env: Env<S, Decoder<Z>>,
                                      s: State<S, Decoder<Z>>,
                                      x: bytes, sent: seq<(u64, byte)>)
    requires s.cursor < |s.entries| && !Sane(zstd, m, x)
    ensures Ahead(zstd, m, aes, env, s, x, sent).None?
  {
    hide Due, RunFlat, Sane;
  }

  // ----- where an entry ends -----

  /** A real and an ideal decoder end a clean entry alike. */
  lemma EndsAlike<Z(!new), Y>(zstd: Zstd<Z>, m: Meaning<Z, Y>, aes: BlockCipher, d: Decoder<Z>, z: Z, feeds: seq<bytes>)
    requires Sound(zstd) && Steady(zstd, m) && Local(zstd) && Clean(zstd, m, Joined(feeds)) && FedAlong(zstd, aes, d, z, feeds)
    ensures EndsWell(d) <==> Ends(zstd, m, aes, Joined(feeds))
    ensures Ends(zstd, m, aes, Joined(feeds)) ==>
              && Sane(zstd, m, Joined(feeds))
              && d.table.decompressedSize == TableOf(Joined(feeds)).decompressedSize
  {
    hide Local, Steady, Clean, EntryOutcome, RebuildAlong, Joined, Reads, Parse, NeedFor, Rebuilt, EndsInPrelude, DecoderOk;
    CleanCutsRebuild(zstd, m, aes, feeds);
    AlongCases(zstd, aes, z, feeds);
    if EndsInPrelude(Joined(feeds)) {
      PreludeOwesNothing(zstd, m, aes, Joined(feeds));
    }
  }

  /** Where nothing is held back the ideal run is in the same state. */
  lemma NothingAhead<S, Z(!new), Y>(zstd: Zstd<Z>, m: Meaning<Z, Y>, aes: BlockCipher, env: Env<S, Decoder<Z>>,
                                    s: State<S, Decoder<Z>>,
                                    feeds: seq<bytes>, rest: bytes)
    requires Sound(zstd) && Steady(zstd, m) && Local(zstd) && NothingFollows(zstd, m, Payload(Joined(feeds) + rest)) && s.cursor < |s.entries|
    requires Sane(zstd, m, Joined(feeds)) ==> HeldBack(zstd, m, feeds) == []
    ensures Ahead(zstd, m, aes, env, s, Joined(feeds), EntryOutcome(zstd, aes, s.nczUser.z, feeds).sent)
            == if Sane(zstd, m, Joined(feeds)) then Some(s) else None
  {
    hide Local, Steady, NothingFollows, EntryOutcome, Sane, Due, Joined, HeldBack;
    var x := Joined(feeds);
    if Sane(zstd, m, x) {
      AllIsSent(zstd, m, aes, s.nczUser.z, feeds, rest);
      assert Due(zstd, m, aes, x)[|Due(zstd, m, aes, x)|..] == [];
    }
  }

  lemma CommitAlike<S, D>(env: Env<S, D>, other: Env<S, D>, s: State<S, D>, t: State<S, D>)
    requires env.ops == other.ops && Alike(s, t) && !s.stage.Failed?
    ensures var p, q := Commit(env, s), Commit(other, t); p.stage == q.stage && (!p.stage.Failed? ==> Alike(p, q) && !p.contentOpen)
  {
  }

  /** Closing without a decoder. */
  lemma CloseAlike<S, D>(env: Env<S, D>, other: Env<S, D>, s: State<S, D>, t: State<S, D>)
    requires env.ops == other.ops && Alike(s, t) && s.stage.Streaming? && s.cursor < |s.entries| && !s.nczActive
    ensures t.cursor < |t.entries|
    ensures var p, q := CloseEntry(env, s), CloseEntry(other, t); p.stage == q.stage && (!p.stage.Failed? ==> Alike(p, q) && !p.nczActive)
  {
    hide Commit;
    CommitAlike(env, other, s, t);
    CommitShape(env, s);
  }

  lemma CommitShape<S, D>(env: Env<S, D>, s: State<S, D>)
    ensures var t := Commit(env, s);
            t == s.(user := t.user, contentOpen := t.contentOpen, stage := t.stage) && (t.stage.Failed? || t.stage == s.stage)
  {
  }

  /** Ending the decoder and then closing is closing. */
  lemma CloseInTwo<S, D>(env: Env<S, D>, s: State<S, D>)
    requires s.cursor < |s.entries| && s.nczActive && env.ncz.Some?
    ensures var e := EndDecoder(env, s);
            && e.cursor == s.cursor && e.entries == s.entries
            && (e.stage.Failed? ==> CloseEntry(env, s) == e)
            && (!e.stage.Failed? ==> !e.nczActive && CloseEntry(env, s) == CloseEntry(env, e) && e.stage == s.stage)
  {
    hide Commit, Fail;
    FailStage(env, s.(nczUser := env.ncz.value.end(s.nczUser).user));
  }

  lemma EndDecodersAlike<S, Z(!new), Y>(zstd: Zstd<Z>, m: Meaning<Z, Y>, aes: BlockCipher, env: Env<S, Decoder<Z>>,
                                        s: State<S, Decoder<Z>>, i: State<S, Decoder<Z>>, x: bytes)
    requires Sound(zstd) && env.ncz == Some(DecoderOps(zstd, aes)) && Alike(s, i) && i.nczUser.prelude == x
    requires s.stage.Streaming? && s.cursor < |s.entries|
    requires EndsWell(s.nczUser) <==> Ends(zstd, m, aes, x)
    requires EndsWell(s.nczUser) ==> s.nczUser.table.decompressedSize == TableOf(x).decompressedSize
    ensures i.cursor < |i.entries|
    ensures var t, j := EndDecoder(env, s), EndDecoder(Ideally(env, zstd, m, aes), i);
            if EndsWell(s.nczUser) then Alike(t, j) && t.stage.Streaming? else t.stage == j.stage == Failed(BadNcz)
  {
    hide FeedEntry, IdealFeed, TableOf, Rebuild;
  }

  lemma CloseTrails<S(!new), Z(!new), Y>(zstd: Zstd<Z>, m: Meaning<Z, Y>, aes: BlockCipher, env: Env<S, Decoder<Z>>,
                                         s: State<S, Decoder<Z>>, i: State<S, Decoder<Z>>, x: bytes, feeds: seq<bytes>)
    requires Sound(zstd) && Steady(zstd, m) && Local(zstd) && env.ncz == Some(DecoderOps(zstd, aes)) && Clean(zstd, m, x)
    requires s.stage.Streaming? && s.cursor < |s.entries| && s.nczActive && Trails(zstd, m, aes, env, s, i, x, feeds)
    ensures var t, j := CloseEntry(env, s), CloseUnless(Ideally(env, zstd, m, aes), i);
            t.stage == j.stage && (!t.stage.Failed? ==> Alike(t, j) && !t.nczActive)
  {
    hide Local, Steady, Clean, EntryOutcome, Sane, Due, Joined, FedAlong, EndDecoder, CloseEntry, Alike, Ends,
      EndsWell, TableOf, DecoderOps, IdealOps;
    TrailsShape(zstd, m, aes, env, s, i, x, feeds);
    EndsAlike(zstd, m, aes, s.nczUser, s.nczUser.z, feeds);
    assert x + [] == x;
    CleanDropsNothing(zstd, m, x);
    CleanHoldsNothing(zstd, m, aes, s.nczUser.z, feeds);
    NothingAhead(zstd, m, aes, env, s, feeds, []);
    CloseInTwo(env, s);
    EndFails(zstd, aes, env, s);
    if !i.stage.Failed? {
      var envI := Ideally(env, zstd, m, aes);
      EndDecodersAlike(zstd, m, aes, env, s, i, x);
      CloseInTwo(envI, i);
      if EndsWell(s.nczUser) {
        AlikePlaces(EndDecoder(env, s), EndDecoder(envI, i));
        CloseAlike(env, envI, EndDecoder(env, s), EndDecoder(envI, i));
      }
    }
  }

  lemma EndFails<S, Z(!new)>(zstd: Zstd<Z>, aes: BlockCipher, env: Env<S, Decoder<Z>>, s: State<S, Decoder<Z>>)
    requires Sound(zstd) && env.ncz == Some(DecoderOps(zstd, aes)) && s.cursor < |s.entries|
    ensures !EndsWell(s.nczUser) ==> EndDecoder(env, s).stage == Failed(BadNcz)
  {
    hide FeedEntry;
  }

  // ----- two runs side by side -----

  /** Where the run stands in `all`. */
  ghost predicate Placed<S, D>(s: State<S, D>, all: bytes) {
    s.streamPos <= |all| &&
    match s.stage
    case Magic => s.header == all[..s.streamPos] && !s.nczActive
    case Header =>
      && s.header == all[..s.streamPos] && !s.nczActive && Pfs.HEADER_SIZE <= |s.header|
      && Pfs.PeekHeaderSize(s.header).Ok? && Pfs.PeekHeaderSize(s.header).value.1 == s.headerSize
    case Streaming =>
      && Layout(all) == Some((s.entries, s.headerSize))
      && s.cursor < |s.entries| && s.streamPos <= s.entries[s.cursor].absOffset + s.entries[s.cursor].size
      && (!s.nczActive && IsCompressed(s.entries[s.cursor].kind) ==> s.streamPos <= s.entries[s.cursor].absOffset)
    case Complete => !s.nczActive
    case Failed(_) => true
  }

  /** What the current entry has brought so far. */
  function SoFar<S, D>(s: State<S, D>, all: bytes): bytes
    requires s.cursor < |s.entries| && s.entries[s.cursor].absOffset <= s.streamPos <= |all|
  {
    all[s.entries[s.cursor].absOffset..s.streamPos]
  }

  /** Both have failed alike, stand in the same state, or are inside the same compressed entry. */
  ghost predicate Beside<S, Z(!new), Y>(zstd: Zstd<Z>, m: Meaning<Z, Y>, aes: BlockCipher, env: Env<S, Decoder<Z>>,
                                        s: State<S, Decoder<Z>>, i: State<S, Decoder<Z>>, all: bytes)
    requires Sound(zstd)
  {
    if s.stage.Failed? then i.stage == s.stage
    else
      && Placed(s, all)
      && if !s.nczActive then Alike(s, i)
         else
           && s.stage.Streaming? && IsCompressed(s.entries[s.cursor].kind)
           && s.entries[s.cursor].absOffset <= s.streamPos < EntryEnd(s.entries[s.cursor])
           && exists feeds :: Trails(zstd, m, aes, env, s, i, SoFar(s, all), feeds)
  }

  lemma MagicAlike<S, D>(env: Env<S, D>, other: Env<S, D>, s: State<S, D>, t: State<S, D>, data: bytes)
    requires env.ops == other.ops && Alike(s, t) && |s.header| < Pfs.HEADER_SIZE
    ensures var (p, u), (q, v) := StepMagic(env, s, data), StepMagic(other, t, data);
            u == v && p.stage == q.stage && (!p.stage.Failed? ==> Alike(p, q))
  {
    hide Pfs.PeekHeaderSize, Advance;
  }

  lemma BuildAlike<S, D>(s: State<S, D>, t: State<S, D>, ctx: Pfs.Context)
    requires Pfs.ValidContext(ctx) && Alike(s, t)
    ensures var (p, v), (q, w) := BuildEntries(s, ctx), BuildEntries(t, ctx); v == w && Alike(p, q)
  {
    hide Collect, LastMeta, SortByOffset, Pfs.ValidContext;
  }

  lemma HeaderAlike<S, D>(env: Env<S, D>, other: Env<S, D>, s: State<S, D>, t: State<S, D>, data: bytes)
    requires env.ops == other.ops && Alike(s, t) && |s.header| <= s.headerSize
    ensures |t.header| <= t.headerSize
    ensures var (p, u), (q, v) := StepHeader(env, s, data), StepHeader(other, t, data);
            u == v && p.stage == q.stage && (!p.stage.Failed? ==> Alike(p, q))
  {
    hide Pfs.Parse, Advance, BuildEntries, Pfs.ValidContext;
    var used := Min(|data|, s.headerSize - |s.header|);
    var a, b := Absorb(s, data[..used]), Absorb(t, data[..used]);
    var r := Pfs.Parse(a.header);
    if r.Ok? {
      BuildAlike(a, b, r.value);
    }
  }

  /** The same round of an entry that is not compressed. */
  lemma PlainAlike<S, D>(env: Env<S, D>, other: Env<S, D>, s: State<S, D>, t: State<S, D>, chunk: bytes)
    requires env.ops == other.ops && Alike(s, t) && s.stage.Streaming? && s.cursor < |s.entries| && !s.nczActive
    requires !IsCompressed(s.entries[s.cursor].kind)
    ensures t.stage.Streaming? && t.cursor < |t.entries| && !t.nczActive
    ensures var p, q := StepEntry(env, s, chunk), StepEntry(other, t, chunk);
            p.stage == q.stage && (!p.stage.Failed? ==> Alike(p, q) && !p.nczActive)
  {
    hide CloseEntry, EntryEnd, OpenEntry, Consume;
    OpenAlike(env, other, s, t);
    OpenShape(env, s);
    var o, u := OpenEntry(env, s), OpenEntry(other, t);
    if !o.stage.Failed? {
      ConsumeAlike(env, other, o, u, chunk);
      ConsumeShape(env, o, chunk);
      var c, d := Consume(env, o, chunk), Consume(other, u, chunk);
      if !c.stage.Failed? {
        AlikePlaces(c, d);
        CloseAlike(env, other, c, d);
      }
    }
  }

  lemma OpenAlike<S, D>(env: Env<S, D>, other: Env<S, D>, s: State<S, D>, t: State<S, D>)
    requires env.ops == other.ops && Alike(s, t) && s.stage.Streaming? && s.cursor < |s.entries| && !s.nczActive
    requires !IsCompressed(s.entries[s.cursor].kind)
    ensures t.cursor < |t.entries| && !t.nczActive
    ensures var p, q := OpenEntry(env, s), OpenEntry(other, t);
            p.stage == q.stage && (!p.stage.Failed? ==> Alike(p, q) && !p.nczActive && p.stage.Streaming?)
  {
  }

  lemma ConsumeAlike<S, D>(env: Env<S, D>, other: Env<S, D>, s: State<S, D>, t: State<S, D>, chunk: bytes)
    requires env.ops == other.ops && Alike(s, t) && s.stage.Streaming? && s.cursor < |s.entries| && !s.nczActive
    requires !IsCompressed(s.entries[s.cursor].kind)
    ensures t.cursor < |t.entries|
    ensures var p, q := Consume(env, s, chunk), Consume(other, t, chunk); p.stage == q.stage && (!p.stage.Failed? ==> Alike(p, q))
  {
    hide Advance;
  }

  // ----- a compressed entry -----

  /** The ideal run does what the real one does, unless it has failed. */
  ghost function OpenUnless<S, D>(env: Env<S, D>, i: State<S, D>): State<S, D>
    requires env.ncz.Some?
  {
    if i.stage.Failed? || i.cursor >= |i.entries| then i else OpenEntry(env, i)
  }

  ghost function ConsumeUnless<S, D>(env: Env<S, D>, i: State<S, D>, chunk: bytes): State<S, D>
    requires env.ncz.Some?
  {
    if i.stage.Failed? || i.cursor >= |i.entries| then i else Consume(env, i, chunk)
  }

  ghost function FeedUnless<S, D>(env: Env<S, D>, i: State<S, D>, chunk: bytes): State<S, D>
    requires env.ncz.Some?
  {
    if i.stage.Failed? || i.cursor >= |i.entries| then i else FeedDecoder(env, i, chunk)
  }

  ghost function CloseUnless<S, D>(env: Env<S, D>, i: State<S, D>): State<S, D>
    requires env.ncz.Some?
  {
    if i.stage.Failed? || i.cursor >= |i.entries| then i else CloseEntry(env, i)
  }

  ghost function StepUnless<S, D>(env: Env<S, D>, i: State<S, D>, chunk: bytes): State<S, D>
    requires env.ncz.Some?
  {
    if !i.stage.Streaming? || i.cursor >= |i.entries| then i else StepEntry(env, i, chunk)
  }

  lemma FreshTrails<S, Z(!new), Y>(zstd: Zstd<Z>, m: Meaning<Z, Y>, aes: BlockCipher, env: Env<S, Decoder<Z>>,
                                   s: State<S, Decoder<Z>>, i: State<S, Decoder<Z>>,
                                   d: Decoder<Z>)
    requires Sound(zstd) && s.cursor < |s.entries| && s.nczUser == Fresh(d) && Alike(s, i) && i.nczUser.prelude == []
    ensures Trails(zstd, m, aes, env, s, i, [], [])
  {
    hide FedAlong, EntryOutcome, Due, Sane, Alike;
    FreshIsFedAlong(zstd, aes, d);
    ShortIsPrelude();
    PreludeOwesNothing(zstd, m, aes, []);
    assert Sane(zstd, m, []) by { PreludeIsSane(zstd, m, []); }
  }

  lemma ShortIsPrelude()
    ensures EndsInPrelude([])
  {
  }

  lemma PreludeIsSane<Z, Y>(zstd: Zstd<Z>, m: Meaning<Z, Y>, x: bytes)
    requires EndsInPrelude(x)
    ensures Sane(zstd, m, x)
  {
    hide EndsInPrelude;
  }

  /** The real run, opened at its compressed entry, and the ideal one. */
  lemma OpenTrails<S, Z(!new), Y>(zstd: Zstd<Z>, m: Meaning<Z, Y>, aes: BlockCipher, env: Env<S, Decoder<Z>>,
                                  s: State<S, Decoder<Z>>, i: State<S, Decoder<Z>>, all: bytes) returns (feeds: seq<bytes>)
    requires Sound(zstd) && env.ncz == Some(DecoderOps(zstd, aes)) && Beside(zstd, m, aes, env, s, i, all)
    requires s.stage.Streaming? && s.cursor < |s.entries| && IsCompressed(s.entries[s.cursor].kind)
    requires s.entries[s.cursor].absOffset <= s.streamPos <= |all|
    ensures var o, j := OpenEntry(env, s), OpenUnless(Ideally(env, zstd, m, aes), i);
            && o.nczActive && o.stage.Streaming? && o == s.(nczActive := true, nczUser := o.nczUser)
            && Trails(zstd, m, aes, env, o, j, SoFar(s, all), feeds)
  {
    hide Trails, DecoderOps, IdealOps, OpenEntry;
    var envI := Ideally(env, zstd, m, aes);
    BothBegin(zstd, m, aes, s.nczUser);
    BothBegin(zstd, m, aes, i.nczUser);
    OpenBegins(env, s);
    if s.nczActive {
      feeds :| Trails(zstd, m, aes, env, s, i, SoFar(s, all), feeds);
      TrailsShape(zstd, m, aes, env, s, i, SoFar(s, all), feeds);
      if !i.stage.Failed? {
        OpenBegins(envI, i);
      }
    } else {
      feeds := [];
      assert SoFar(s, all) == [];
      OpenBegins(envI, i);
      FreshTrails(zstd, m, aes, env, OpenEntry(env, s), OpenEntry(envI, i), s.nczUser);
    }
  }

  lemma BothBegin<Z(!new), Y>(zstd: Zstd<Z>, m: Meaning<Z, Y>, aes: BlockCipher, d: Decoder<Z>)
    requires Sound(zstd)
    ensures DecoderOps(zstd, aes).begin(d) == IdealOps(zstd, m, aes).begin(d) == Reply(true, Fresh(d))
  {
  }

  lemma OpenBegins<S, Z>(env: Env<S, Decoder<Z>>, s: State<S, Decoder<Z>>)
    requires s.cursor < |s.entries| && IsCompressed(s.entries[s.cursor].kind) && env.ncz.Some?
    requires env.ncz.value.begin(s.nczUser) == Reply(true, Fresh(s.nczUser))
    ensures OpenEntry(env, s) == if s.nczActive then s else s.(nczUser := Fresh(s.nczUser), nczActive := true)
  {
  }

  /** Both runs move on by the same number of bytes. */
  lemma TrailsMoves<S, Z(!new), Y>(zstd: Zstd<Z>, m: Meaning<Z, Y>, aes: BlockCipher, env: Env<S, Decoder<Z>>,
                                   s: State<S, Decoder<Z>>, i: State<S, Decoder<Z>>, pos: u64, x: bytes, feeds: seq<bytes>)
    requires Sound(zstd) && s.cursor < |s.entries| && !s.stage.Failed? && Trails(zstd, m, aes, env, s, i, x, feeds)
    ensures Trails(zstd, m, aes, env, s.(streamPos := pos), if i.stage.Failed? then i else i.(streamPos := pos), x, feeds)
  {
    hide Ahead, EntryOutcome, FedAlong;
    var sent := EntryOutcome(zstd, aes, s.nczUser.z, feeds).sent;
    TrailsShape(zstd, m, aes, env, s, i, x, feeds);
    AheadAlike(zstd, m, aes, env, s, s.nczUser, pos, x, sent);
    assert s.(nczUser := s.nczUser, streamPos := pos) == s.(streamPos := pos);
    var a := Ahead(zstd, m, aes, env, s, x, sent);
    if a.Some? {
      AheadDecoder(zstd, m, aes, env, s, x, sent);
    }
  }

  lemma AheadDecoder<S, Z(!new), Y>(zstd: Zstd<Z>, m: Meaning<Z, Y>, aes: BlockCipher, env: Env<S, Decoder<Z>>,
                                    s: State<S, Decoder<Z>>,
                                    x: bytes, sent: seq<(u64, byte)>)
    requires s.cursor < |s.entries|
    ensures var a := Ahead(zstd, m, aes, env, s, x, sent); a.Some? ==> a.value.nczUser == s.nczUser
  {
    hide Due, Sane, RunFlat;
    if sent <= Due(zstd, m, aes, x) {
      FlatShape(env, s, Due(zstd, m, aes, x)[|sent|..]);
    }
  }

  lemma RouteIsFeed<S, D>(env: Env<S, D>, s: State<S, D>, chunk: bytes)
    requires s.cursor < |s.entries| && IsCompressed(s.entries[s.cursor].kind) && env.ncz.Some? && chunk != []
    ensures var t := FeedDecoder(env, s, chunk);
            Consume(env, s, chunk) == if t.stage.Failed? then t else t.(streamPos := Advance(t.streamPos, |chunk|))
  {
    hide FeedDecoder, Advance;
  }

  lemma FeedStands<S, D>(env: Env<S, D>, s: State<S, D>, chunk: bytes)
    requires s.cursor < |s.entries| && IsCompressed(s.entries[s.cursor].kind) && env.ncz.Some?
    ensures var t := FeedDecoder(env, s, chunk);
            t.streamPos == s.streamPos && (t.stage.Failed? || t.stage == s.stage) && t.cursor == s.cursor && t.entries == s.entries && t.nczActive == s.nczActive
  {
    hide FeedDecoder;
    RouteShape(env, s, chunk);
    assert Route(env, s, chunk) == FeedDecoder(env, s, chunk);
  }

  lemma ConsumeTrails<S(!new), Z(!new), Y>(zstd: Zstd<Z>, m: Meaning<Z, Y>, aes: BlockCipher, env: Env<S, Decoder<Z>>,
                                           s: State<S, Decoder<Z>>, i: State<S, Decoder<Z>>, x: bytes, feeds: seq<bytes>, chunk: bytes, rest: bytes)
    requires Sound(zstd) && Steady(zstd, m) && Local(zstd) && CutFreeBackend(env.ops) && env.ncz == Some(DecoderOps(zstd, aes))
    requires s.cursor < |s.entries| && s.stage.Streaming? && IsCompressed(s.entries[s.cursor].kind) && chunk != []
    requires Trails(zstd, m, aes, env, s, i, x, feeds) && NothingFollows(zstd, m, Payload(x + chunk + rest))
    ensures var t, j := Consume(env, s, chunk), ConsumeUnless(Ideally(env, zstd, m, aes), i, chunk);
            if t.stage.Failed? then t.stage == j.stage else Trails(zstd, m, aes, env, t, j, x + chunk, feeds + [chunk])
  {
    hide Trails, FeedDecoder, Consume, Advance, CutFreeBackend, Steady, Local, NothingFollows, DecoderOps, IdealOps;
    var envI := Ideally(env, zstd, m, aes);
    TrailsShape(zstd, m, aes, env, s, i, x, feeds);
    FeedTrails(zstd, m, aes, env, s, i, x, feeds, chunk, rest);
    RouteIsFeed(env, s, chunk);
    FeedStands(env, s, chunk);
    var t, j := FeedDecoder(env, s, chunk), FeedUnless(envI, i, chunk);
    if !i.stage.Failed? {
      RouteIsFeed(envI, i, chunk);
      FeedStands(envI, i, chunk);
    }
    if !t.stage.Failed? {
      TrailsMoves(zstd, m, aes, env, t, j, Advance(t.streamPos, |chunk|), x + chunk, feeds + [chunk]);
    }
  }

  /** The end of a visit: an entry that is over is closed. */
  ghost function Visited<S, D>(env: Env<S, D>, i: State<S, D>, e: Entry): State<S, D>
    requires env.ncz.Some?
  {
    if i.stage.Failed? || i.streamPos < EntryEnd(e) then i else CloseUnless(env, i)
  }

  /** A visit, taken apart. */
  lemma PartsOfStep<S, D>(env: Env<S, D>, i: State<S, D>, e: Entry, chunk: bytes)
    requires env.ncz.Some? && (i.stage.Failed? || (i.stage.Streaming? && i.cursor < |i.entries| && e == i.entries[i.cursor]))
    ensures StepUnless(env, i, chunk) == Visited(env, ConsumeUnless(env, OpenUnless(env, i), chunk), e)
  {
    hide OpenEntry, Consume, CloseEntry, EntryEnd;
  }

  /** Where a run stands behind a compressed entry it has not finished. */
  lemma StillInside<S, D>(env: Env<S, D>, s: State<S, D>, all: bytes, chunk: bytes)
    requires Placed(s, all) && s.stage.Streaming? && s.nczActive && |all| < U64_LIMIT && env.ncz.Some?
    requires s.streamPos + |chunk| <= |all|
    requires s.streamPos + |chunk| <= s.entries[s.cursor].absOffset + s.entries[s.cursor].size
    ensures var t := Consume(env, s, chunk);
            !t.stage.Failed? ==>
              Placed(t, all) && t.streamPos == s.streamPos + |chunk| && t.cursor == s.cursor && t.entries == s.entries && t.nczActive && t.stage.Streaming?
  {
    hide Consume, Layout, Advance;
    ConsumeShape(env, s, chunk);
    AdvanceTwice(s.streamPos, |chunk|, 0);
  }

  /** Behind an entry the run stands before the next one. */
  lemma BehindEntry<S, D>(env: Env<S, D>, s: State<S, D>, all: bytes)
    requires Placed(s, all) && s.stage.Streaming? && DisjointStream(all) && (s.nczActive ==> env.ncz.Some?)
    requires s.streamPos == s.entries[s.cursor].absOffset + s.entries[s.cursor].size
    ensures var t := CloseEntry(env, s); !t.stage.Failed? && !t.nczActive ==> Placed(t, all)
  {
    hide CloseEntry, Layout;
    CloseShape(env, s);
  }

  /** Opening and taking a chunk, on both sides. */
  lemma VisitTrails<S(!new), Z(!new), Y>(zstd: Zstd<Z>, m: Meaning<Z, Y>, aes: BlockCipher, env: Env<S, Decoder<Z>>,
                                         s: State<S, Decoder<Z>>, i: State<S, Decoder<Z>>, all: bytes, chunk: bytes, rest: bytes) returns (feeds: seq<bytes>)
    requires Sound(zstd) && Steady(zstd, m) && Local(zstd) && CutFreeBackend(env.ops) && env.ncz == Some(DecoderOps(zstd, aes))
    requires Beside(zstd, m, aes, env, s, i, all) && s.stage.Streaming? && s.cursor < |s.entries| && IsCompressed(s.entries[s.cursor].kind)
    requires s.entries[s.cursor].absOffset <= s.streamPos <= |all| && NothingFollows(zstd, m, Payload(SoFar(s, all) + chunk + rest))
    ensures var o := OpenEntry(env, s);
            && o.nczActive && o.stage.Streaming? && o == s.(nczActive := true, nczUser := o.nczUser)
            && var envI := Ideally(env, zstd, m, aes);
               var u, ui := Consume(env, o, chunk), ConsumeUnless(envI, OpenUnless(envI, i), chunk);
               if u.stage.Failed? then u.stage == ui.stage else Trails(zstd, m, aes, env, u, ui, SoFar(s, all) + chunk, feeds)
  {
    hide Trails, OpenUnless, OpenEntry, Consume, CutFreeBackend, Steady, Local, DecoderOps, IdealOps, Placed, Alike,
      NothingFollows;
    var envI, x := Ideally(env, zstd, m, aes), SoFar(s, all);
    var before := OpenTrails(zstd, m, aes, env, s, i, all);
    var o, oi := OpenEntry(env, s), OpenUnless(envI, i);
    if chunk == [] {
      NothingConsumed(env, o);
      if !oi.stage.Failed? && oi.cursor < |oi.entries| {
        NothingConsumed(envI, oi);
      }
      assert x + chunk == x;
      feeds := before;
    } else {
      ConsumeTrails(zstd, m, aes, env, o, oi, x, before, chunk, rest);
      feeds := before + [chunk];
    }
  }

  lemma NothingConsumed<S, D>(env: Env<S, D>, s: State<S, D>)
    requires s.cursor < |s.entries| && env.ncz.Some?
    ensures Consume(env, s, []) == s
  {
  }

  lemma ArrivedInParts(e: Entry, all: bytes, pos: nat, take: nat) returns (rest: bytes)
    requires e.absOffset <= pos && pos + take <= |all| && pos + take <= e.absOffset + e.size
    ensures all[e.absOffset..pos] + all[pos..pos + take] == all[e.absOffset..pos + take]
    ensures all[e.absOffset..pos] + all[pos..pos + take] + rest == Arrived(e, all)
    ensures pos + take == e.absOffset + e.size ==> all[e.absOffset..pos + take] == Arrived(e, all)
  {
    var upTo := Min(|all|, e.absOffset + e.size);
    rest := all[pos + take..upTo];
    assert e.absOffset < |all| ==> Arrived(e, all) == all[e.absOffset..upTo];
    assert e.absOffset == |all| ==> all[e.absOffset..e.absOffset] == [];
  }

  /** What the two runs need to have in common to go on. */
  lemma BesideShape<S, Z(!new), Y>(zstd: Zstd<Z>, m: Meaning<Z, Y>, aes: BlockCipher, env: Env<S, Decoder<Z>>,
                                   s: State<S, Decoder<Z>>, i: State<S, Decoder<Z>>, all: bytes)
    requires Sound(zstd) && Beside(zstd, m, aes, env, s, i, all) && !s.stage.Failed?
    ensures Placed(s, all)
    ensures i.stage.Failed? || (i.stage == s.stage && i.cursor == s.cursor && i.entries == s.entries && i.streamPos == s.streamPos
                                && i.nczActive == s.nczActive && i.header == s.header && i.headerSize == s.headerSize)
    ensures !s.nczActive ==> Alike(s, i)
  {
    hide Trails, Layout;
    if s.nczActive {
      var feeds :| Trails(zstd, m, aes, env, s, i, SoFar(s, all), feeds);
      TrailsShape(zstd, m, aes, env, s, i, SoFar(s, all), feeds);
      TrailsHeader(zstd, m, aes, env, s, i, SoFar(s, all), feeds);
    }
  }

  lemma TrailsHeader<S, Z(!new), Y>(zstd: Zstd<Z>, m: Meaning<Z, Y>, aes: BlockCipher, env: Env<S, Decoder<Z>>,
                                    s: State<S, Decoder<Z>>, i: State<S, Decoder<Z>>, x: bytes, feeds: seq<bytes>)
    requires Sound(zstd) && s.cursor < |s.entries| && Trails(zstd, m, aes, env, s, i, x, feeds)
    ensures i.stage.Failed? || (i.header == s.header && i.headerSize == s.headerSize)
  {
    hide Sane, Due, RunFlat, FedAlong, EntryOutcome;
    var sent := EntryOutcome(zstd, aes, s.nczUser.z, feeds).sent;
    if sent <= Due(zstd, m, aes, x) {
      FlatShape(env, s, Due(zstd, m, aes, x)[|sent|..]);
    }
  }

  /** Behind an entry that has been closed the two runs are in the same state again. */
  lemma ClosedBeside<S(!new), Z(!new), Y>(zstd: Zstd<Z>, m: Meaning<Z, Y>, aes: BlockCipher, env: Env<S, Decoder<Z>>,
                                          s: State<S, Decoder<Z>>, i: State<S, Decoder<Z>>, all: bytes, x: bytes, feeds: seq<bytes>)
    requires Sound(zstd) && Steady(zstd, m) && Local(zstd) && env.ncz == Some(DecoderOps(zstd, aes)) && Clean(zstd, m, x)
    requires s.stage.Streaming? && s.cursor < |s.entries| && s.nczActive && Trails(zstd, m, aes, env, s, i, x, feeds)
    requires Placed(s, all) && DisjointStream(all) && s.streamPos == s.entries[s.cursor].absOffset + s.entries[s.cursor].size
    ensures Beside(zstd, m, aes, env, CloseUnless(env, s), CloseUnless(Ideally(env, zstd, m, aes), i), all)
  {
    hide Trails, CloseUnless, CloseEntry, Steady, Local, DecoderOps, IdealOps, Alike, Layout, DisjointStream, Clean, Placed;
    CloseTrails(zstd, m, aes, env, s, i, x, feeds);
    BehindEntry(env, s, all);
    CloseIsUnless(env, s);
  }

  lemma OpenStands<S, D>(s: State<S, D>, o: State<S, D>, all: bytes)
    requires Placed(s, all) && s.stage.Streaming? && s.cursor < |s.entries| && o == s.(nczActive := true, nczUser := o.nczUser)
    ensures Placed(o, all)
  {
    hide Layout;
  }

  /** A visit to a compressed entry keeps the two runs side by side. */
  lemma CompressedBeside<S(!new), Z(!new), Y>(zstd: Zstd<Z>, m: Meaning<Z, Y>, aes: BlockCipher, env: Env<S, Decoder<Z>>,
                                              s: State<S, Decoder<Z>>, i: State<S, Decoder<Z>>, all: bytes, take: nat)
    requires Sound(zstd) && Steady(zstd, m) && Local(zstd) && CutFreeBackend(env.ops) && env.ncz == Some(DecoderOps(zstd, aes))
    requires Beside(zstd, m, aes, env, s, i, all) && s.stage.Streaming? && s.cursor < |s.entries| && DisjointStream(all) && |all| < U64_LIMIT
    requires var e := s.entries[s.cursor];
             && IsCompressed(e.kind) && e.absOffset <= s.streamPos && s.streamPos + take <= |all|
             && s.streamPos + take <= e.absOffset + e.size < U64_LIMIT && Clean(zstd, m, Arrived(e, all))
    ensures var chunk := all[s.streamPos..s.streamPos + take];
            Beside(zstd, m, aes, env, StepEntry(env, s, chunk), StepUnless(Ideally(env, zstd, m, aes), i, chunk), all)
  {
    hide Trails, OpenUnless, ConsumeUnless, CloseUnless, StepUnless, StepEntry, OpenEntry, Consume, CloseEntry,
      CutFreeBackend, Steady, Local, DecoderOps, IdealOps;
    hide Alike, Layout, DisjointStream, NothingFollows, Arrived, Placed, Beside, Ideally, EntryEnd, Visited, Clean;
    var e, envI := s.entries[s.cursor], Ideally(env, zstd, m, aes);
    HasDecoder(env, zstd, m, aes);
    EndIsSum(e);
    var chunk, x := all[s.streamPos..s.streamPos + take], SoFar(s, all);
    var rest := ArrivedInParts(e, all, s.streamPos, take);
    CleanDropsNothing(zstd, m, x + chunk + rest);
    var feeds := VisitTrails(zstd, m, aes, env, s, i, all, chunk, rest);
    BesideShape(zstd, m, aes, env, s, i, all);
    PartsOfStep(env, s, e, chunk);
    PartsOfStep(envI, i, e, chunk);
    UnlessIsStep(env, s, chunk);
    var o := OpenEntry(env, s);
    OpenStands(s, o, all);
    StillInside(env, o, all, chunk);
    var u, ui := Consume(env, o, chunk), ConsumeUnless(envI, OpenUnless(envI, i), chunk);
    if u.stage.Failed? {
      FailedBeside(zstd, m, aes, env, u, ui, all);
      VisitedFailed(env, u, e);
      VisitedFailed(envI, ui, e);
    } else {
      VisitEnds(zstd, m, aes, env, u, ui, all, x + chunk, feeds);
    }
  }

  lemma CleanDropsNothing<Z(!new), Y>(zstd: Zstd<Z>, m: Meaning<Z, Y>, x: bytes)
    requires Sound(zstd) && Clean(zstd, m, x)
    ensures NothingFollows(zstd, m, Payload(x))
  {
    hide NothingFollows;
  }

  lemma VisitedFailed<S, D>(env: Env<S, D>, i: State<S, D>, e: Entry)
    requires env.ncz.Some? && i.stage.Failed?
    ensures Visited(env, i, e) == i
  {
  }

  lemma VisitEnds<S(!new), Z(!new), Y>(zstd: Zstd<Z>, m: Meaning<Z, Y>, aes: BlockCipher, env: Env<S, Decoder<Z>>,
                                       s: State<S, Decoder<Z>>, i: State<S, Decoder<Z>>, all: bytes, x: bytes, feeds: seq<bytes>)
    requires Sound(zstd) && Steady(zstd, m) && Local(zstd) && env.ncz == Some(DecoderOps(zstd, aes))
    requires s.stage.Streaming? && s.cursor < |s.entries| && s.nczActive && IsCompressed(s.entries[s.cursor].kind)
    requires Placed(s, all) && DisjointStream(all) && s.entries[s.cursor].absOffset <= s.streamPos <= |all| && x == SoFar(s, all)
    requires Trails(zstd, m, aes, env, s, i, x, feeds)
    requires var e := s.entries[s.cursor];
             e.absOffset + e.size < U64_LIMIT && (s.streamPos == e.absOffset + e.size ==> Clean(zstd, m, x))
    ensures var e := s.entries[s.cursor];
            Beside(zstd, m, aes, env, Visited(env, s, e), Visited(Ideally(env, zstd, m, aes), i, e), all)
  {
    hide Trails, CloseUnless, Steady, Local, DecoderOps, Alike, Layout, DisjointStream, Beside, Ideally, EntryEnd, Clean;
    var e := s.entries[s.cursor];
    HasDecoder(env, zstd, m, aes);
    EndIsSum(e);
    TrailsShape(zstd, m, aes, env, s, i, x, feeds);
    if s.streamPos < EntryEnd(e) {
      InsideBeside(zstd, m, aes, env, s, i, all, x, feeds);
    } else {
      ClosedBeside(zstd, m, aes, env, s, i, all, x, feeds);
      if i.stage.Failed? {
        FailedStands(Ideally(env, zstd, m, aes), i);
      }
    }
  }

  lemma HasDecoder<S, Z(!new), Y>(env: Env<S, Decoder<Z>>, zstd: Zstd<Z>, m: Meaning<Z, Y>, aes: BlockCipher)
    ensures Ideally(env, zstd, m, aes).ncz.Some? && Ideally(env, zstd, m, aes).ops == env.ops
  {
  }

  lemma EndIsSum(e: Entry)
    requires e.absOffset + e.size < U64_LIMIT
    ensures EntryEnd(e) == e.absOffset + e.size
  {
  }

  lemma FailedStands<S, D>(env: Env<S, D>, i: State<S, D>)
    requires env.ncz.Some? && i.stage.Failed?
    ensures CloseUnless(env, i) == i
  {
  }

  lemma FailedBeside<S, Z(!new), Y>(zstd: Zstd<Z>, m: Meaning<Z, Y>, aes: BlockCipher, env: Env<S, Decoder<Z>>,
                                    s: State<S, Decoder<Z>>, i: State<S, Decoder<Z>>, all: bytes)
    requires Sound(zstd) && s.stage.Failed? && i.stage == s.stage
    ensures Beside(zstd, m, aes, env, s, i, all)
  {
    hide Trails, Placed, Alike;
  }

  lemma InsideBeside<S, Z(!new), Y>(zstd: Zstd<Z>, m: Meaning<Z, Y>, aes: BlockCipher, env: Env<S, Decoder<Z>>,
                                    s: State<S, Decoder<Z>>, i: State<S, Decoder<Z>>, all: bytes, x: bytes, feeds: seq<bytes>)
    requires Sound(zstd) && s.stage.Streaming? && s.cursor < |s.entries| && s.nczActive && IsCompressed(s.entries[s.cursor].kind)
    requires Placed(s, all) && s.entries[s.cursor].absOffset <= s.streamPos <= |all| && s.streamPos < EntryEnd(s.entries[s.cursor])
    requires x == SoFar(s, all) && Trails(zstd, m, aes, env, s, i, x, feeds)
    ensures Beside(zstd, m, aes, env, s, i, all)
  {
    hide Trails, Placed, Alike;
  }

  lemma UnlessIsStep<S, D>(env: Env<S, D>, s: State<S, D>, chunk: bytes)
    requires env.ncz.Some? && s.stage.Streaming? && s.cursor < |s.entries|
    ensures StepUnless(env, s, chunk) == StepEntry(env, s, chunk) && OpenUnless(env, s) == OpenEntry(env, s)
    ensures var o := OpenEntry(env, s); !o.stage.Failed? ==> ConsumeUnless(env, o, chunk) == Consume(env, o, chunk)
  {
    hide StepEntry, OpenEntry, Consume;
  }

  lemma CloseIsUnless<S, D>(env: Env<S, D>, s: State<S, D>)
    requires env.ncz.Some? && !s.stage.Failed? && s.cursor < |s.entries|
    ensures CloseUnless(env, s) == CloseEntry(env, s)
  {
    hide CloseEntry;
  }

  // ----- rounds of the feed loop -----

  /** Every compressed entry of the stream is clean. */
  ghost predicate CleanStream<Z(!new), Y>(zstd: Zstd<Z>, m: Meaning<Z, Y>, stream: bytes)
    requires Sound(zstd)
  {
    Layout(stream).Some? ==>
      forall e :: e in Layout(stream).value.0 && IsCompressed(e.kind) ==> Clean(zstd, m, Arrived(e, stream))
  }

  ghost predicate Good<S(!new), Z(!new), Y>(zstd: Zstd<Z>, m: Meaning<Z, Y>, aes: BlockCipher, env: Env<S, Decoder<Z>>,
                                            all: bytes) {
    && Sound(zstd) && Steady(zstd, m) && Local(zstd) && CutFreeBackend(env.ops) && env.ncz == Some(DecoderOps(zstd, aes))
    && |all| < U64_LIMIT && DisjointStream(all) && CleanStream(zstd, m, all)
  }

  /** A round of the ideal run, unless it has failed. */
  ghost function RoundUnless<S, D>(env: Env<S, D>, i: State<S, D>, data: bytes): (State<S, D>, nat)
    requires Valid(env, i)
  {
    if i.stage.Failed? then (i, 0) else Iter(env, i, data)
  }

  lemma MagicBeside<S(!new), Z(!new), Y>(zstd: Zstd<Z>, m: Meaning<Z, Y>, aes: BlockCipher, env: Env<S, Decoder<Z>>,
                                         s: State<S, Decoder<Z>>, i: State<S, Decoder<Z>>, all: bytes, data: bytes, rest: bytes)
    requires Good(zstd, m, aes, env, all) && Beside(zstd, m, aes, env, s, i, all) && s.stage.Magic? && Valid(env, s)
    requires Inside(s, all, data + rest)
    ensures |i.header| < Pfs.HEADER_SIZE && i.stage == s.stage
    ensures var (t, u), (j, v) := StepMagic(env, s, data), StepMagic(Ideally(env, zstd, m, aes), i, data);
            u == v && Beside(zstd, m, aes, env, t, j, all) && (!t.stage.Failed? ==> t.streamPos == s.streamPos + u)
  {
    hide Pfs.PeekHeaderSize, Fail, Alike, IdealOps, CutFreeBackend, Steady, Local, CleanStream, DisjointStream;
    assert Alike(s, i);
    HeaderIsAlike(s, i);
    MagicAlike(env, Ideally(env, zstd, m, aes), s, i, data);
    MagicMoves(env, s, data);
    var used := Min(|data|, Pfs.HEADER_SIZE - |s.header|);
    PrefixGrows(all, s.streamPos, data, rest, used);
    var t := Absorb(s, data[..used]);
    FailStage(env, t);
    match Pfs.PeekHeaderSize(t.header)
    case Err(_) =>
    case Ok((_, size)) => FailStage(env, t.(headerSize := size));
  }

  lemma HeaderIsAlike<S, D>(s: State<S, D>, t: State<S, D>)
    requires Alike(s, t)
    ensures s.header == t.header && s.headerSize == t.headerSize && s.stage == t.stage
  {
  }

  lemma HeaderBeside<S(!new), Z(!new), Y>(zstd: Zstd<Z>, m: Meaning<Z, Y>, aes: BlockCipher, env: Env<S, Decoder<Z>>,
                                          s: State<S, Decoder<Z>>, i: State<S, Decoder<Z>>, all: bytes, data: bytes, rest: bytes)
    requires Good(zstd, m, aes, env, all) && Beside(zstd, m, aes, env, s, i, all) && s.stage.Header? && Valid(env, s)
    requires Inside(s, all, data + rest)
    ensures |i.header| <= i.headerSize && i.stage == s.stage
    ensures var (t, u), (j, v) := StepHeader(env, s, data), StepHeader(Ideally(env, zstd, m, aes), i, data);
            u == v && Beside(zstd, m, aes, env, t, j, all) && (!t.stage.Failed? ==> t.streamPos == s.streamPos + u)
  {
    hide Pfs.PeekHeaderSize, Pfs.Parse, Fail, Alike, IdealOps, CutFreeBackend, Steady, Local, CleanStream,
      DisjointStream, Collect, LastMeta, SortByOffset, OpenContainer, Layout;
    assert Alike(s, i);
    HeaderIsAlike(s, i);
    HeaderAlike(env, Ideally(env, zstd, m, aes), s, i, data);
    HeaderMoves(env, s, data);
    var used := Min(|data|, s.headerSize - |s.header|);
    PrefixGrows(all, s.streamPos, data, rest, used);
    HeaderPlaces(env, s, all, data, used);
  }

  /** The header leads to the table the stream describes. */
  lemma HeaderPlaces<S, D>(env: Env<S, D>, s: State<S, D>, all: bytes, data: bytes, used: nat)
    requires Valid(env, s) && s.stage.Header? && Placed(s, all) && DisjointStream(all) && |all| < U64_LIMIT
    requires used == Min(|data|, s.headerSize - |s.header|) && s.streamPos + used <= |all| && s.header + data[..used] == all[..s.streamPos + used]
    ensures var t := StepHeader(env, s, data).0; !t.stage.Failed? ==> Placed(t, all) && !t.nczActive
  {
    hide Pfs.PeekHeaderSize, Pfs.Parse, Collect, LastMeta, SortByOffset, OpenContainer, Advance, Layout;
    var h := s.header + data[..used];
    AdvanceTwice(s.streamPos, used, 0);
    Pfs.PeekIsLocal(s.header, h);
    if |h| >= s.headerSize {
      Pfs.PeekIsLocal(s.header, all);
      TableBuilt(env, s, data);
      assert h + all[|h|..] == all;
      LayoutStays(h, all[|h|..]);
    }
  }

  lemma GapBeside<S, Z(!new), Y>(zstd: Zstd<Z>, m: Meaning<Z, Y>, aes: BlockCipher, env: Env<S, Decoder<Z>>,
                                 s: State<S, Decoder<Z>>, i: State<S, Decoder<Z>>, all: bytes, pos: u64)
    requires Sound(zstd) && Beside(zstd, m, aes, env, s, i, all) && s.stage.Streaming? && s.cursor < |s.entries|
    requires s.streamPos < s.entries[s.cursor].absOffset && pos <= |all| && pos <= s.entries[s.cursor].absOffset
    ensures Alike(s, i) && Beside(zstd, m, aes, env, s.(streamPos := pos), i.(streamPos := pos), all)
  {
    hide Layout, Trails;
  }

  /** A visit to a plain entry. */
  lemma PlainBeside<S, Z(!new), Y>(zstd: Zstd<Z>, m: Meaning<Z, Y>, aes: BlockCipher, env: Env<S, Decoder<Z>>,
                                   s: State<S, Decoder<Z>>, i: State<S, Decoder<Z>>, all: bytes, take: nat)
    requires Sound(zstd) && env.ncz.Some? && Beside(zstd, m, aes, env, s, i, all) && s.stage.Streaming? && s.cursor < |s.entries|
    requires DisjointStream(all) && |all| < U64_LIMIT && s.streamPos + take <= |all|
    requires var e := s.entries[s.cursor];
             !IsCompressed(e.kind) && e.absOffset <= s.streamPos && s.streamPos + take <= e.absOffset + e.size < U64_LIMIT
    ensures var chunk := all[s.streamPos..s.streamPos + take];
            Beside(zstd, m, aes, env, StepEntry(env, s, chunk), StepUnless(Ideally(env, zstd, m, aes), i, chunk), all)
  {
    hide StepEntry, Alike, Trails, Placed, Ideally, EntryEnd, Layout, DisjointStream;
    var chunk, envI := all[s.streamPos..s.streamPos + take], Ideally(env, zstd, m, aes);
    HasDecoder(env, zstd, m, aes);
    EndIsSum(s.entries[s.cursor]);
    AlikePlaces(s, i);
    PlainAlike(env, envI, s, i, chunk);
    EntryMoves(env, s, chunk);
    UnlessIsStep(envI, i, chunk);
    PlainPlaced(env, s, all, chunk);
  }

  lemma PlainPlaced<S, D>(env: Env<S, D>, s: State<S, D>, all: bytes, chunk: bytes)
    requires Placed(s, all) && s.stage.Streaming? && s.cursor < |s.entries| && !s.nczActive && !IsCompressed(s.entries[s.cursor].kind)
    requires DisjointStream(all) && |all| < U64_LIMIT && s.streamPos + |chunk| <= |all|
    requires var e := s.entries[s.cursor];
             e.absOffset <= s.streamPos && s.streamPos + |chunk| <= e.absOffset + e.size < U64_LIMIT
    ensures var t := StepEntry(env, s, chunk); !t.stage.Failed? && !t.nczActive ==> Placed(t, all)
  {
    hide StepEntry, Layout;
    EntryMoves(env, s, chunk);
    EntryKeeps(env, s, chunk);
    EndIsSum(s.entries[s.cursor]);
  }

  lemma EntryKeeps<S, D>(env: Env<S, D>, s: State<S, D>, chunk: bytes)
    requires s.stage.Streaming? && s.cursor < |s.entries| && (s.nczActive ==> env.ncz.Some?)
    ensures var t := StepEntry(env, s, chunk); !t.stage.Failed? ==> t.headerSize == s.headerSize
  {
    hide OpenEntry, Consume, CloseEntry, EntryEnd;
    OpenShape(env, s);
    var t := OpenEntry(env, s);
    if !t.stage.Failed? {
      ConsumeShape(env, t, chunk);
      var u := Consume(env, t, chunk);
      if !u.stage.Failed? && u.streamPos >= EntryEnd(s.entries[s.cursor]) {
        CloseShape(env, u);
      }
    }
  }

  lemma CleanHere<Z(!new), Y>(zstd: Zstd<Z>, m: Meaning<Z, Y>, all: bytes, es: seq<Entry>, k: nat)
    requires Sound(zstd) && CleanStream(zstd, m, all) && Layout(all).Some? && Layout(all).value.0 == es && k < |es| && IsCompressed(es[k].kind)
    ensures Clean(zstd, m, Arrived(es[k], all))
  {
    hide Layout, Clean, Arrived;
  }

  lemma PlacedInside<S, D>(s: State<S, D>, all: bytes)
    requires Placed(s, all) && s.stage.Streaming? && DisjointStream(all)
    ensures s.cursor < |s.entries| && Layout(all).Some? && Layout(all).value.0 == s.entries
    ensures var e := s.entries[s.cursor]; s.streamPos <= e.absOffset + e.size < U64_LIMIT && EntryEnd(e) == e.absOffset + e.size
  {
    hide Layout;
  }

  /** A visit to any entry. */
  lemma VisitBeside<S(!new), Z(!new), Y>(zstd: Zstd<Z>, m: Meaning<Z, Y>, aes: BlockCipher, env: Env<S, Decoder<Z>>,
                                         s: State<S, Decoder<Z>>, i: State<S, Decoder<Z>>, all: bytes, take: nat)
    requires Good(zstd, m, aes, env, all) && Beside(zstd, m, aes, env, s, i, all) && s.stage.Streaming? && s.cursor < |s.entries|
    requires var e := s.entries[s.cursor];
             e.absOffset <= s.streamPos && s.streamPos + take <= |all| && s.streamPos + take <= e.absOffset + e.size
    ensures var chunk := all[s.streamPos..s.streamPos + take];
            Beside(zstd, m, aes, env, StepEntry(env, s, chunk), StepUnless(Ideally(env, zstd, m, aes), i, chunk), all)
  {
    hide StepEntry, StepUnless, Layout, DisjointStream, CutFreeBackend, Steady, Local, CleanStream, Beside, DecoderOps,
      Placed, Ideally, Clean, Arrived, EntryEnd;
    BesideShape(zstd, m, aes, env, s, i, all);
    PlacedInside(s, all);
    if IsCompressed(s.entries[s.cursor].kind) {
      CleanHere(zstd, m, all, s.entries, s.cursor);
      CompressedBeside(zstd, m, aes, env, s, i, all, take);
    } else {
      PlainBeside(zstd, m, aes, env, s, i, all, take);
    }
  }

  /** One round of the streaming stage, unless the run has failed. */
  ghost function StreamUnless<S, D>(env: Env<S, D>, i: State<S, D>, data: bytes): (State<S, D>, nat)
    requires env.ncz.Some?
  {
    if !i.stage.Streaming? then (i, 0) else StepStreaming(env, i, data)
  }

  /** The round, when the bytes go to the current entry. */
  lemma StreamVisits<S, D>(env: Env<S, D>, i: State<S, D>, data: bytes, take: nat)
    requires env.ncz.Some? && (i.stage.Failed? || (i.stage.Streaming? && i.cursor < |i.entries|))
    requires !i.stage.Failed? ==> i.entries[i.cursor].absOffset <= i.streamPos && take == Min(|data|, Sub64(EntryEnd(i.entries[i.cursor]), i.streamPos))
    requires take <= |data|
    ensures StreamUnless(env, i, data).0 == StepUnless(env, i, data[..take])
    ensures !i.stage.Failed? ==> StreamUnless(env, i, data).1 == take
  {
    hide StepEntry, EntryEnd;
  }

  lemma StreamingBeside<S(!new), Z(!new), Y>(zstd: Zstd<Z>, m: Meaning<Z, Y>, aes: BlockCipher, env: Env<S, Decoder<Z>>,
                                             s: State<S, Decoder<Z>>, i: State<S, Decoder<Z>>, all: bytes, data: bytes, rest: bytes)
    requires Good(zstd, m, aes, env, all) && Beside(zstd, m, aes, env, s, i, all) && s.stage.Streaming? && env.ncz.Some?
    requires Inside(s, all, data + rest)
    ensures i.stage.Failed? || i.stage.Streaming?
    ensures var (t, u), (j, v) := StreamUnless(env, s, data), StreamUnless(Ideally(env, zstd, m, aes), i, data);
            (i.stage.Failed? || u == v) && Beside(zstd, m, aes, env, t, j, all)
  {
    hide StepEntry, StepStreaming, Alike, Trails, EntryEnd, Layout, DisjointStream, CutFreeBackend, Steady, Local,
      CleanStream, Beside, Advance, DecoderOps, Placed, Ideally, StreamUnless, StepUnless;
    HasDecoder(env, zstd, m, aes);
    BesideShape(zstd, m, aes, env, s, i, all);
    PlacedInside(s, all);
    var e, envI := s.entries[s.cursor], Ideally(env, zstd, m, aes);
    if s.streamPos < e.absOffset {
      var skip := Min(|data|, e.absOffset - s.streamPos);
      GapBeside(zstd, m, aes, env, s, i, all, s.streamPos + skip);
      AlikePlaces(s, i);
      StreamSkips(env, s, data, skip);
      StreamSkips(envI, i, data, skip);
    } else {
      var take := Min(|data|, EntryEnd(e) - s.streamPos);
      ThisMuch(s, all, data, rest, take);
      StreamVisits(env, s, data, take);
      StreamVisits(envI, i, data, take);
      UnlessIsStep(env, s, data[..take]);
      VisitBeside(zstd, m, aes, env, s, i, all, take);
    }
  }

  lemma StreamSkips<S, D>(env: Env<S, D>, s: State<S, D>, data: bytes, skip: nat)
    requires env.ncz.Some? && s.stage.Streaming? && s.cursor < |s.entries| && s.streamPos < s.entries[s.cursor].absOffset
    requires skip == Min(|data|, s.entries[s.cursor].absOffset - s.streamPos) && s.streamPos + skip < U64_LIMIT
    ensures StreamUnless(env, s, data) == (s.(streamPos := s.streamPos + skip), skip)
  {
    hide StepEntry, Advance;
    AdvanceTwice(s.streamPos, skip, 0);
  }

  lemma ThisMuch<S, D>(s: State<S, D>, all: bytes, data: bytes, rest: bytes, take: nat)
    requires Inside(s, all, data + rest) && take <= |data|
    ensures data[..take] == all[s.streamPos..s.streamPos + take]
  {
    assert (data + rest)[..take] == data[..take];
  }

  lemma IdealIsValid<S, Z(!new), Y>(zstd: Zstd<Z>, m: Meaning<Z, Y>, aes: BlockCipher, env: Env<S, Decoder<Z>>,
                                    s: State<S, Decoder<Z>>, i: State<S, Decoder<Z>>, all: bytes)
    requires Sound(zstd) && Beside(zstd, m, aes, env, s, i, all) && !s.stage.Failed? && Valid(env, s) && env.ncz.Some?
    ensures Valid(Ideally(env, zstd, m, aes), i)
  {
    hide Trails, Placed;
    BesideShape(zstd, m, aes, env, s, i, all);
  }

  lemma CompleteBeside<S, Z(!new), Y>(zstd: Zstd<Z>, m: Meaning<Z, Y>, aes: BlockCipher, env: Env<S, Decoder<Z>>,
                                      s: State<S, Decoder<Z>>, i: State<S, Decoder<Z>>, all: bytes, n: nat)
    requires Sound(zstd) && Beside(zstd, m, aes, env, s, i, all) && s.stage.Complete? && s.streamPos + n <= |all| < U64_LIMIT
    ensures var pos := Advance(s.streamPos, n);
            Alike(s, i) && pos == s.streamPos + n && Beside(zstd, m, aes, env, s.(streamPos := pos), i.(streamPos := pos), all)
  {
    hide Trails, Layout;
    AdvanceTwice(s.streamPos, n, 0);
  }

  /** One round, on both sides. */
  lemma RoundBeside<S(!new), Z(!new), Y>(zstd: Zstd<Z>, m: Meaning<Z, Y>, aes: BlockCipher, env: Env<S, Decoder<Z>>,
                                         s: State<S, Decoder<Z>>, i: State<S, Decoder<Z>>, all: bytes, data: bytes, rest: bytes)
    requires Good(zstd, m, aes, env, all) && Beside(zstd, m, aes, env, s, i, all) && !s.stage.Failed? && Valid(env, s)
    requires Inside(s, all, data + rest)
    ensures Valid(Ideally(env, zstd, m, aes), i)
    ensures var (t, u), (j, v) := Iter(env, s, data), RoundUnless(Ideally(env, zstd, m, aes), i, data);
            && (i.stage.Failed? || u == v) && Beside(zstd, m, aes, env, t, j, all)
            && (!t.stage.Failed? ==> t.streamPos == s.streamPos + u)
  {
    hide StepMagic, StepHeader, StepStreaming, Beside, Trails, Placed, CutFreeBackend, Steady, Local, CleanStream,
      DisjointStream, DecoderOps, IdealOps, Layout, Advance;
    BesideShape(zstd, m, aes, env, s, i, all);
    IdealIsValid(zstd, m, aes, env, s, i, all);
    match s.stage
    case Magic => MagicBeside(zstd, m, aes, env, s, i, all, data, rest);
    case Header => HeaderBeside(zstd, m, aes, env, s, i, all, data, rest);
    case Streaming =>
      StreamingBeside(zstd, m, aes, env, s, i, all, data, rest);
      StreamingMoves(env, s, data);
    case Complete => CompleteBeside(zstd, m, aes, env, s, i, all, |data|);
  }

  lemma {:induction false} FeedBeside<S(!new), Z(!new), Y>(zstd: Zstd<Z>, m: Meaning<Z, Y>, aes: BlockCipher,
                                                           env: Env<S, Decoder<Z>>,
                                                           s: State<S, Decoder<Z>>, i: State<S, Decoder<Z>>, all: bytes, data: bytes, rest: bytes)
    requires Good(zstd, m, aes, env, all) && Beside(zstd, m, aes, env, s, i, all) && Valid(env, s) && Valid(Ideally(env, zstd, m, aes), i)
    requires !s.stage.Failed? ==> Inside(s, all, data + rest)
    ensures var t := Feed(env, s, data);
            Beside(zstd, m, aes, env, t, Feed(Ideally(env, zstd, m, aes), i, data), all) && (!t.stage.Failed? ==> Inside(t, all, rest))
    decreases |data|, StageRank(s.stage), EntriesLeft(s)
  {
    hide Iter, Valid, Beside, Good, Ideally, Inside;
    var envI := Ideally(env, zstd, m, aes);
    GoodIsSound(zstd, m, aes, env, all);
    if s.stage.Failed? {
      BothFailed(zstd, m, aes, env, s, i, all);
      FailedFeed(env, s, data);
      FailedFeed(envI, i, data);
    } else if data == [] {
      FeedNothing(envI, i);
      assert data + rest == rest;
    } else {
      RoundBeside(zstd, m, aes, env, s, i, all, data, rest);
      IterProgress(env, s, data);
      var (t, u) := Iter(env, s, data);
      var j := RoundUnless(envI, i, data).0;
      if i.stage.Failed? {
        FailedFeed(envI, i, data);
        FailedFeed(envI, i, data[u..]);
      } else {
        IterProgress(envI, i, data);
      }
      if !t.stage.Failed? {
        InsideMoves(s, t, all, data, rest, u);
      }
      FeedBeside(zstd, m, aes, env, t, j, all, data[u..], rest);
    }
  }

  lemma GoodIsSound<S(!new), Z(!new), Y>(zstd: Zstd<Z>, m: Meaning<Z, Y>, aes: BlockCipher, env: Env<S, Decoder<Z>>, all: bytes)
    requires Good(zstd, m, aes, env, all)
    ensures Sound(zstd)
  {
    hide Steady, Local, CutFreeBackend, DisjointStream, CleanStream;
  }

  lemma BothFailed<S, Z(!new), Y>(zstd: Zstd<Z>, m: Meaning<Z, Y>, aes: BlockCipher, env: Env<S, Decoder<Z>>,
                                  s: State<S, Decoder<Z>>, i: State<S, Decoder<Z>>, all: bytes)
    requires Sound(zstd) && Beside(zstd, m, aes, env, s, i, all) && s.stage.Failed?
    ensures i.stage == s.stage
  {
    hide Trails, Placed;
  }

  lemma {:induction false} ChunksBeside<S(!new), Z(!new), Y>(zstd: Zstd<Z>, m: Meaning<Z, Y>, aes: BlockCipher,
                                                             env: Env<S, Decoder<Z>>,
                                                             s: State<S, Decoder<Z>>, i: State<S, Decoder<Z>>, all: bytes, chunks: seq<bytes>)
    requires Good(zstd, m, aes, env, all) && Beside(zstd, m, aes, env, s, i, all) && Valid(env, s) && Valid(Ideally(env, zstd, m, aes), i)
    requires !s.stage.Failed? ==> Inside(s, all, Joined(chunks))
    ensures var t := FeedAll(env, s, chunks);
            && Beside(zstd, m, aes, env, t, FeedAll(Ideally(env, zstd, m, aes), i, chunks), all)
            && (!t.stage.Failed? ==> Inside(t, all, []))
    decreases |chunks|
  {
    hide Feed, Valid, Beside, Good, Ideally, Inside;
    if chunks != [] {
      FeedBeside(zstd, m, aes, env, s, i, all, chunks[0], Joined(chunks[1..]));
      ChunksBeside(zstd, m, aes, env, Feed(env, s, chunks[0]), Feed(Ideally(env, zstd, m, aes), i, chunks[0]), all, chunks[1..]);
    }
  }

  // ----- the main theorem -----

  /** Where an entry so far is clean the two runs are in the same state. */
  lemma CleanAlike<S, Z(!new), Y>(zstd: Zstd<Z>, m: Meaning<Z, Y>, aes: BlockCipher, env: Env<S, Decoder<Z>>,
                                  s: State<S, Decoder<Z>>, i: State<S, Decoder<Z>>, x: bytes, feeds: seq<bytes>)
    requires Sound(zstd) && Steady(zstd, m) && Local(zstd) && Clean(zstd, m, x)
    requires s.cursor < |s.entries| && Trails(zstd, m, aes, env, s, i, x, feeds)
    ensures Alike(s, i)
  {
    hide Local, Steady, Clean, Sane, Due, Joined, EntryOutcome, Alike, DecoderOk, HeldBack, Ahead;
    assert x + [] == x;
    CleanDropsNothing(zstd, m, x);
    CleanHoldsNothing(zstd, m, aes, s.nczUser.z, feeds);
    NothingAhead(zstd, m, aes, env, s, feeds, []);
  }

  lemma CleanIsAlike<S, Z(!new), Y>(zstd: Zstd<Z>, m: Meaning<Z, Y>, aes: BlockCipher, env: Env<S, Decoder<Z>>,
                                    s: State<S, Decoder<Z>>, i: State<S, Decoder<Z>>, all: bytes)
    requires Sound(zstd) && Steady(zstd, m) && Local(zstd) && Beside(zstd, m, aes, env, s, i, all) && !s.stage.Failed?
    requires DisjointStream(all) && CleanStream(zstd, m, all) && s.streamPos == |all|
    ensures Alike(s, i)
  {
    hide Trails, Layout, DisjointStream, Alike, Clean, Steady, Local;
    if s.nczActive {
      var e, x := s.entries[s.cursor], SoFar(s, all);
      PlacedInside(s, all);
      assert e in Layout(all).value.0;
      var feeds :| Trails(zstd, m, aes, env, s, i, x, feeds);
      assert Arrived(e, all) == x;
      CleanAlike(zstd, m, aes, env, s, i, x, feeds);
    }
  }

  /**
   * Chunk independence with the rebuilding decoder, which may hold output back between the pieces: for a backend
   * that does not look at the cuts, any two cuttings of a container with disjoint entries end in the same state
   * but for the decoder's own, or fail for the same reason. Its compressed entries must be clean as far as they
   * have arrived.
   */
  lemma CompressedCutsDoNotMatter<S(!new), Z(!new), Y>(zstd: Zstd<Z>, m: Meaning<Z, Y>, aes: BlockCipher,
                                                       env: Env<S, Decoder<Z>>, user: S, d: Decoder<Z>,
                                                       chunks: seq<bytes>, others: seq<bytes>)
    requires Sound(zstd) && Steady(zstd, m) && Local(zstd) && env.ncz == Some(DecoderOps(zstd, aes)) && CutFreeBackend(env.ops)
    requires Joined(chunks) == Joined(others) && |Joined(chunks)| < U64_LIMIT
    requires DisjointStream(Joined(chunks)) && CleanStream(zstd, m, Joined(chunks))
    ensures var s := Begin(env, user, d);
            && Valid(env, s)
            && var t, u := FeedAll(env, s, chunks), FeedAll(env, s, others);
               t.stage == u.stage && (!t.stage.Failed? ==> Alike(t, u))
  {
    hide CutFreeBackend, FeedAll, Layout, CleanStream, DisjointStream, Steady, Local, DecoderOps, IdealOps, Beside, Alike;
    var all, envI, s := Joined(chunks), Ideally(env, zstd, m, aes), Begin(env, user, d);
    BeginsBeside(zstd, m, aes, env, user, d, all);
    ChunksBeside(zstd, m, aes, env, s, s, all, chunks);
    ChunksBeside(zstd, m, aes, env, s, s, all, others);
    IdealCutsAgree(zstd, m, aes, env, user, d, chunks, others);
    RunsCompared(zstd, m, aes, env, FeedAll(env, s, chunks), FeedAll(envI, s, chunks), FeedAll(env, s, others), FeedAll(envI, s, others), all);
  }

  lemma BeginsBeside<S, Z(!new), Y>(zstd: Zstd<Z>, m: Meaning<Z, Y>, aes: BlockCipher, env: Env<S, Decoder<Z>>,
                                    user: S, d: Decoder<Z>, all: bytes)
    requires Sound(zstd) && |all| < U64_LIMIT
    ensures var s := Begin(env, user, d);
            Valid(env, s) && Valid(Ideally(env, zstd, m, aes), s) && Beside(zstd, m, aes, env, s, s, all) && Inside(s, all, all)
  {
    assert all[0..] == all && all[..0] == [];
  }

  lemma IdealCutsAgree<S(!new), Z(!new), Y>(zstd: Zstd<Z>, m: Meaning<Z, Y>, aes: BlockCipher, env: Env<S, Decoder<Z>>,
                                            user: S, d: Decoder<Z>,
                                            chunks: seq<bytes>, others: seq<bytes>)
    requires CutFreeBackend(env.ops) && Joined(chunks) == Joined(others) && |Joined(chunks)| < U64_LIMIT && DisjointStream(Joined(chunks))
    ensures var envI := Ideally(env, zstd, m, aes);
            var s := Begin(env, user, d);
            Valid(envI, s) && Agree(FeedAll(envI, s, chunks), FeedAll(envI, s, others))
  {
    hide CutFreeBackend, FeedAll, Layout, SeamlessEntries, CalmEntries, DisjointEntries, Agree, IdealOps, CutFreeDecoder;
    var stream, envI := Joined(chunks), Ideally(env, zstd, m, aes);
    IdealIsCutFree(zstd, m, aes);
    if Layout(stream).Some? {
      var (es, size) := Layout(stream).value;
      DisjointIsCalm(es, size);
      CutFreeIsSeamless(IdealOps(zstd, m, aes), es, size, stream);
    }
    ChunkBoundariesDoNotMatter(envI, user, d, chunks, others);
  }

  lemma RunsCompared<S, Z(!new), Y>(zstd: Zstd<Z>, m: Meaning<Z, Y>, aes: BlockCipher, env: Env<S, Decoder<Z>>,
                                    t: State<S, Decoder<Z>>, ti: State<S, Decoder<Z>>, u: State<S, Decoder<Z>>, ui: State<S, Decoder<Z>>, all: bytes)
    requires Sound(zstd) && Steady(zstd, m) && Local(zstd) && DisjointStream(all) && CleanStream(zstd, m, all)
    requires Beside(zstd, m, aes, env, t, ti, all) && Beside(zstd, m, aes, env, u, ui, all) && Agree(ti, ui)
    requires (!t.stage.Failed? ==> Inside(t, all, [])) && (!u.stage.Failed? ==> Inside(u, all, []))
    ensures t.stage == u.stage && (!t.stage.Failed? ==> Alike(t, u))
  {
    hide Beside, DisjointStream, CleanStream, Steady, Local, Layout;
    if t.stage.Failed? {
      BothFailed(zstd, m, aes, env, t, ti, all);
    } else {
      CleanIsAlike(zstd, m, aes, env, t, ti, all);
    }
    if u.stage.Failed? {
      BothFailed(zstd, m, aes, env, u, ui, all);
    } else {
      CleanIsAlike(zstd, m, aes, env, u, ui, all);
    }
  }
}
