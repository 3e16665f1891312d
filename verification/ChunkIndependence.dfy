/**
 * The outcome of an install does not depend on how the transport cuts the stream.
 *
 * The backend may do anything it likes with the bytes as long as it does not look at the cuts; the decoder
 * must not look at cuts inside the compressed entries of this very stream; the container may be anything as
 * long as no entry ends before the stream has reached it.
 */
module ChunkIndependence {
  import opened Bytes
  import opened EntryNames
  import opened InstallSpec
  import Pfs = PartitionFs

  // ----- hooks that do not look at the cuts -----

  /** Writing `a + b` is writing `a`, then `b`. */
  ghost predicate WriteSplits<S>(ops: BackendOps<S>, s: S, a: bytes, b: bytes) {
    var first, whole := ops.contentWrite(s, a), ops.contentWrite(s, a + b);
    var second := ops.contentWrite(first.user, b);
    && (whole.ok <==> first.ok && second.ok)
    && (whole.ok ==> whole.user == second.user)
  }

  /** The bytes a feed emits, each with the size reported along with it. */
  function Flat(ems: seq<Emission>): seq<(u64, byte)> {
    if ems == [] then [] else Tag(ems[0]) + Flat(ems[1..])
  }

  function Tag(em: Emission): (t: seq<(u64, byte)>)
    ensures |t| == |em.data|
  {
    seq(|em.data|, i requires 0 <= i < |em.data| => (em.size, em.data[i]))
  }

  ghost predicate NoEmptyEmission(ems: seq<Emission>) {
    forall i :: 0 <= i < |ems| ==> ems[i].data != []
  }

  /** Feeding `a + b` is feeding `a`, then `b`: same outcome, same decoder, same bytes out. */
  ghost predicate FeedSplits<D>(ncz: NczOps<D>, d: D, a: bytes, b: bytes) {
    var first, whole := ncz.feed(d, a), ncz.feed(d, a + b);
    var second := ncz.feed(first.user, b);
    && (whole.ok <==> first.ok && second.ok)
    && (whole.ok ==> whole.user == second.user && Flat(whole.emissions) == Flat(first.emissions) + Flat(second.emissions))
  }

  ghost predicate CutFreeBackend<S(!new)>(ops: BackendOps<S>) {
    forall s: S, a: bytes, b: bytes {:trigger WriteSplits(ops, s, a, b)} :: a != [] && b != [] ==> WriteSplits(ops, s, a, b)
  }

  /** Decoder `d` does not look at the cut between `a` and `b`. */
  ghost predicate Seam<D>(ncz: NczOps<D>, d: D, a: bytes, b: bytes) {
    && FeedSplits(ncz, d, a, b)
    && NoEmptyEmission(ncz.feed(d, a + b).emissions)
    && NoEmptyEmission(ncz.feed(d, a).emissions)
    && (ncz.feed(d, a).ok ==> NoEmptyEmission(ncz.feed(ncz.feed(d, a).user, b).emissions))
  }

  /** The decoder after the first `i` bytes of `p`. */
  function FedTo<D>(ncz: NczOps<D>, d: D, p: bytes, i: nat): D
    requires i <= |p|
  {
    if i == 0 then d else ncz.feed(d, p[..i]).user
  }

  ghost predicate SeamAt<D>(ncz: NczOps<D>, d: D, p: bytes, i: nat, j: nat, k: nat)
    requires i < j < k <= |p|
  {
    (i > 0 ==> ncz.feed(d, p[..i]).ok) ==> Seam(ncz, FedTo(ncz, d, p, i), p[i..j], p[j..k])
  }

  /** Wherever `p` is cut, the decoder does not look at the cut. */
  ghost predicate Seamless<D>(ncz: NczOps<D>, d: D, p: bytes) {
    forall i, j, k {:trigger SeamAt(ncz, d, p, i, j, k)} :: 0 <= i < j < k <= |p| ==> SeamAt(ncz, d, p, i, j, k)
  }

  /** What a seamless stretch leaves is seamless. */
  lemma SeamlessRest<D>(ncz: NczOps<D>, d: D, p: bytes, n: nat)
    requires Seamless(ncz, d, p) && 0 < n <= |p| && ncz.feed(d, p[..n]).ok
    ensures Seamless(ncz, ncz.feed(d, p[..n]).user, p[n..])
  {
    hide Seam, NoEmptyEmission;
    var e, q := ncz.feed(d, p[..n]).user, p[n..];
    forall i, j, k | 0 <= i < j < k <= |q|
      ensures SeamAt(ncz, e, q, i, j, k)
    {
      assert q[i..j] == p[n + i..n + j] && q[j..k] == p[n + j..n + k];
      assert SeamAt(ncz, d, p, n + i, n + j, n + k);
      if i > 0 {
        assert p[0..n] == p[..n] && q[..i] == p[n..n + i] && p[..n] + q[..i] == p[..n + i];
        assert SeamAt(ncz, d, p, 0, n, n + i);
        assert FeedSplits(ncz, d, p[..n], q[..i]) by { SeamSplits(ncz, d, p[..n], q[..i]); }
      }
    }
  }

  lemma SeamSplits<D>(ncz: NczOps<D>, d: D, a: bytes, b: bytes)
    requires Seam(ncz, d, a, b)
    ensures FeedSplits(ncz, d, a, b)
  {
  }

  /** Begun anew, the decoder does not look at cuts inside this entry. */
  ghost predicate SeamlessEntry<D(!new)>(ncz: NczOps<D>, p: bytes) {
    forall d: D :: ncz.begin(d).ok ==> Seamless(ncz, ncz.begin(d).user, p)
  }

  /** The stream from `from` to `to`, as far as there is one. */
  function Part(stream: bytes, from: nat, to: nat): bytes {
    if from < to && from < |stream| then stream[from..Min(to, |stream|)] else []
  }

  /** No compressed entry of `es` is decoded differently for being cut, counting from `pos` on. */
  ghost predicate SeamlessEntries<D(!new)>(ncz: NczOps<D>, es: seq<Entry>, pos: u64, stream: bytes) {
    es == [] || (&& (IsCompressed(es[0].kind) ==> SeamlessEntry(ncz, Part(stream, Max(pos, es[0].absOffset), EntryEnd(es[0]))))
                 && SeamlessEntries(ncz, es[1..], EntryEnd(es[0]), stream))
  }

  /** The compressed entries a stream describes. Without a decoder, and without such entries, this asks nothing. */
  ghost predicate SeamlessStream<D(!new)>(ncz: Option<NczOps<D>>, stream: bytes) {
    ncz.Some? && Layout(stream).Some? ==> SeamlessEntries(ncz.value, Layout(stream).value.0, Layout(stream).value.1, stream)
  }

  /** A decoder that never looks at cuts, whatever it is fed. */
  ghost predicate CutFreeDecoder<D(!new)>(ncz: NczOps<D>) {
    && (forall d: D, a: bytes, b: bytes {:trigger FeedSplits(ncz, d, a, b)} :: a != [] && b != [] ==> FeedSplits(ncz, d, a, b))
    && (forall d: D, a: bytes :: NoEmptyEmission(ncz.feed(d, a).emissions))
  }

  /** Such a decoder makes every stream seamless. */
  lemma {:induction false} CutFreeIsSeamless<D(!new)>(ncz: NczOps<D>, es: seq<Entry>, pos: u64, stream: bytes)
    requires CutFreeDecoder(ncz)
    ensures SeamlessEntries(ncz, es, pos, stream)
    decreases |es|
  {
    hide FeedSplits, NoEmptyEmission;
    if es != [] {
      CutFreeIsSeamless(ncz, es[1..], EntryEnd(es[0]), stream);
    }
  }

  /** Two runs agree: the same state, or both failed and for the same reason. */
  ghost predicate Agree<S, D>(s: State<S, D>, t: State<S, D>) {
    s == t || (s.stage.Failed? && s.stage == t.stage)
  }

  ghost predicate SameRun<S, D>(p: (State<S, D>, bool), q: (State<S, D>, bool)) {
    p.1 == q.1 && (p.1 ==> p.0 == q.0)
  }

  // ----- writing -----

  lemma WriteTwice<S(!new), D>(env: Env<S, D>, s: State<S, D>, a: bytes, b: bytes)
    requires CutFreeBackend(env.ops) && a != [] && b != []
    ensures var p := WriteContent(env, s, a);
            SameRun(WriteContent(env, s, a + b), if p.1 then WriteContent(env, p.0, b) else p)
  {
    hide Advance;
    assert WriteSplits(env.ops, s.user, a, b);
    AdvanceTwice(s.bytesWritten, |a|, |b|);
  }

  /** The sink calls of a feed, one byte at a time. */
  ghost function RunFlat<S, D>(env: Env<S, D>, s: State<S, D>, flat: seq<(u64, byte)>): (r: (State<S, D>, bool))
    requires s.cursor < |s.entries|
    ensures r.0.cursor == s.cursor && r.0.entries == s.entries
    decreases |flat|
  {
    if flat == [] then (s, true)
    else
      var (t, ok) := Sink(env, s, Emission(flat[0].0, [flat[0].1]));
      if !ok then (t, false) else RunFlat(env, t, flat[1..])
  }

  lemma {:induction false} RunFlatAppend<S, D>(env: Env<S, D>, s: State<S, D>, x: seq<(u64, byte)>, y: seq<(u64, byte)>)
    requires s.cursor < |s.entries|
    ensures var p := RunFlat(env, s, x);
            RunFlat(env, s, x + y) == if p.1 then RunFlat(env, p.0, y) else p
    decreases |x|
  {
    hide Sink;
    if x == [] {
      assert x + y == y;
    } else {
      assert (x + y)[1..] == x[1..] + y && (x + y)[0] == x[0];
      SinkShape(env, s, Emission(x[0].0, [x[0].1]));
      var (t, ok) := Sink(env, s, Emission(x[0].0, [x[0].1]));
      if ok {
        RunFlatAppend(env, t, x[1..], y);
      }
    }
  }

  lemma SinkShape<S, D>(env: Env<S, D>, s: State<S, D>, em: Emission)
    requires s.cursor < |s.entries|
    ensures var (t, ok) := Sink(env, s, em);
            t.cursor == s.cursor && t.entries == s.entries && (ok ==> t.contentOpen)
  {
  }

  /** An open sink only writes. */
  lemma OpenSink<S, D>(env: Env<S, D>, s: State<S, D>, em: Emission)
    requires s.cursor < |s.entries| && s.contentOpen
    ensures Sink(env, s, em) == WriteContent(env, s, em.data)
  {
  }

  /** Emitting `x` and then the rest is emitting all of it. */
  lemma SinkTwice<S(!new), D>(env: Env<S, D>, s: State<S, D>, size: u64, x: bytes, rest: bytes)
    requires CutFreeBackend(env.ops) && s.cursor < |s.entries| && x != [] && rest != []
    ensures var p := Sink(env, s, Emission(size, x));
            SameRun(Sink(env, s, Emission(size, x + rest)), if p.1 then Sink(env, p.0, Emission(size, rest)) else p)
  {
    hide OpenForSink, WriteContent, CutFreeBackend;
    var (t, open) := OpenForSink(env, s, size);
    if open {
      WriteTwice(env, t, x, rest);
      SinkShape(env, s, Emission(size, x));
      var p := Sink(env, s, Emission(size, x));
      if p.1 {
        OpenSink(env, p.0, Emission(size, rest));
      }
    }
  }

  lemma {:induction false} SinkIsFlat<S(!new), D>(env: Env<S, D>, s: State<S, D>, em: Emission)
    requires CutFreeBackend(env.ops) && s.cursor < |s.entries| && em.data != []
    ensures SameRun(Sink(env, s, em), RunFlat(env, s, Tag(em)))
    decreases |em.data|
  {
    hide Sink, CutFreeBackend;
    var x, rest := [em.data[0]], em.data[1..];
    var first := Emission(em.size, x);
    SinkShape(env, s, first);
    var p := Sink(env, s, first);
    assert Tag(em)[0] == (em.size, em.data[0]);
    assert Tag(em)[1..] == Tag(Emission(em.size, rest));
    if rest == [] {
      assert em.data == x;
    } else {
      assert em.data == x + rest;
      SinkTwice(env, s, em.size, x, rest);
      if p.1 {
        SinkIsFlat(env, p.0, Emission(em.size, rest));
      }
    }
  }

  /** How a feed groups its bytes into sink calls does not matter. */
  lemma {:induction false} RunSinkIsFlat<S(!new), D>(env: Env<S, D>, s: State<S, D>, ems: seq<Emission>)
    requires CutFreeBackend(env.ops) && s.cursor < |s.entries| && NoEmptyEmission(ems)
    ensures SameRun(RunSink(env, s, ems), RunFlat(env, s, Flat(ems)))
    decreases |ems|
  {
    hide Sink, CutFreeBackend, Tag;
    if ems != [] {
      SinkIsFlat(env, s, ems[0]);
      RunFlatAppend(env, s, Tag(ems[0]), Flat(ems[1..]));
      SinkShape(env, s, ems[0]);
      var (t, ok) := Sink(env, s, ems[0]);
      if ok {
        RunSinkIsFlat(env, t, ems[1..]);
      }
    }
  }

  // ----- routing -----

  /** Routing does not look at the stream position. */
  lemma RouteMoves<S, D>(env: Env<S, D>, s: State<S, D>, data: bytes, pos: u64)
    requires s.cursor < |s.entries|
    requires IsCompressed(s.entries[s.cursor].kind) ==> env.ncz.Some?
    ensures Route(env, s.(streamPos := pos), data) == Route(env, s, data).(streamPos := pos)
  {
    hide FeedDecoder, WriteContent, Fail;
    var kind := s.entries[s.cursor].kind;
    if IsCompressed(kind) {
      FeedMoves(env, s, data, pos);
    } else {
      PlainMoves(env, s, data, pos);
    }
  }

  lemma PlainMoves<S, D>(env: Env<S, D>, s: State<S, D>, data: bytes, pos: u64)
    requires s.cursor < |s.entries| && !IsCompressed(s.entries[s.cursor].kind)
    ensures Route(env, s.(streamPos := pos), data) == Route(env, s, data).(streamPos := pos)
  {
    hide Route, FeedDecoder, WriteContent, Fail, Advance;
    if IsContent(s.entries[s.cursor].kind) {
      ContentMoves(env, s, data, pos);
    } else {
      BufferMoves(env, s, data, pos);
    }
  }

  lemma ContentMoves<S, D>(env: Env<S, D>, s: State<S, D>, data: bytes, pos: u64)
    requires s.cursor < |s.entries| && !IsCompressed(s.entries[s.cursor].kind) && IsContent(s.entries[s.cursor].kind)
    ensures Route(env, s.(streamPos := pos), data) == Route(env, s, data).(streamPos := pos)
  {
    hide FeedDecoder, WriteContent, Fail, Advance;
    WriteMoves(env, s, data, pos);
    FailMoves(env, WriteContent(env, s, data).0, BackendError, pos);
  }

  lemma BufferMoves<S, D>(env: Env<S, D>, s: State<S, D>, data: bytes, pos: u64)
    requires s.cursor < |s.entries| && !IsContent(s.entries[s.cursor].kind)
    ensures Route(env, s.(streamPos := pos), data) == Route(env, s, data).(streamPos := pos)
  {
    hide FeedDecoder, WriteContent, Fail, Advance;
    FailMoves(env, s, BufferTooSmall, pos);
  }

  lemma WriteMoves<S, D>(env: Env<S, D>, s: State<S, D>, data: bytes, pos: u64)
    ensures var (t, ok) := WriteContent(env, s, data);
            WriteContent(env, s.(streamPos := pos), data) == (t.(streamPos := pos), ok)
  {
    hide Advance;
  }

  lemma FailMoves<S, D>(env: Env<S, D>, s: State<S, D>, v: Verdict, pos: u64)
    ensures Fail(env, s.(streamPos := pos), v) == Fail(env, s, v).(streamPos := pos)
  {
  }

  lemma FeedMoves<S, D>(env: Env<S, D>, s: State<S, D>, data: bytes, pos: u64)
    requires s.cursor < |s.entries| && env.ncz.Some?
    ensures FeedDecoder(env, s.(streamPos := pos), data) == FeedDecoder(env, s, data).(streamPos := pos)
  {
    hide RunSink;
    RunSinkMoves(env, s, env.ncz.value.feed(s.nczUser, data).emissions, pos);
  }

  lemma {:induction false} RunSinkMoves<S, D>(env: Env<S, D>, s: State<S, D>, ems: seq<Emission>, pos: u64)
    requires s.cursor < |s.entries|
    ensures var (t, ok) := RunSink(env, s, ems);
            RunSink(env, s.(streamPos := pos), ems) == (t.(streamPos := pos), ok)
    decreases |ems|
  {
    hide Advance;
    if ems != [] {
      var (t, ok) := Sink(env, s, ems[0]);
      if ok {
        RunSinkMoves(env, t, ems[1..], pos);
      }
    }
  }

  lemma RouteTwice<S(!new), D>(env: Env<S, D>, s: State<S, D>, a: bytes, b: bytes)
    requires CutFreeBackend(env.ops) && !s.stage.Failed? && s.cursor < |s.entries| && a != [] && b != []
    requires IsCompressed(s.entries[s.cursor].kind) ==> env.ncz.Some? && Seam(env.ncz.value, s.nczUser, a, b)
    ensures var t := Route(env, s, a);
            Agree(Route(env, s, a + b), if t.stage.Failed? then t else Route(env, t, b))
  {
    hide FeedDecoder, WriteContent, CutFreeBackend, Seam;
    var kind := s.entries[s.cursor].kind;
    if IsCompressed(kind) {
      FeedTwice(env, s, a, b);
    } else if kind.Nca? || kind.MetaNca? {
      WriteTwice(env, s, a, b);
      WriteShape(env, s, a);
      WriteShape(env, s, a + b);
      FailStage(env, WriteContent(env, s, a).0);
    } else {
      assert s.tik + a + b == s.tik + (a + b);
      assert s.cert + a + b == s.cert + (a + b);
    }
  }

  lemma FailStage<S, D>(env: Env<S, D>, s: State<S, D>)
    ensures forall v :: Fail(env, s, v).stage == Failed(v)
  {
  }

  lemma FeedTwice<S(!new), D>(env: Env<S, D>, s: State<S, D>, a: bytes, b: bytes)
    requires CutFreeBackend(env.ops) && !s.stage.Failed? && s.cursor < |s.entries| && env.ncz.Some? && Seam(env.ncz.value, s.nczUser, a, b)
    ensures var t := FeedDecoder(env, s, a);
            Agree(FeedDecoder(env, s, a + b), if t.stage.Failed? then t else FeedDecoder(env, t, b))
  {
    var ncz := env.ncz.value;
    var first, whole := ncz.feed(s.nczUser, a), ncz.feed(s.nczUser, a + b);
    var second := ncz.feed(first.user, b);
    RunSinkIsFlat(env, s, whole.emissions);
    RunSinkIsFlat(env, s, first.emissions);
    RunFlatAppend(env, s, Flat(first.emissions), Flat(second.emissions));
    var p := RunSink(env, s, first.emissions);
    if p.1 && first.ok {
      RunSinkIsFlat(env, p.0, second.emissions);
      DecoderApart(env, p.0, second.emissions, first.user);
    }
  }

  /** The sink does not look at the decoder. */
  lemma {:induction false} DecoderApart<S, D>(env: Env<S, D>, s: State<S, D>, ems: seq<Emission>, d: D)
    requires s.cursor < |s.entries|
    ensures var (t, ok) := RunSink(env, s, ems);
            RunSink(env, s.(nczUser := d), ems) == (t.(nczUser := d), ok)
    decreases |ems|
  {
    hide Advance;
    if ems != [] {
      var (t, ok) := Sink(env, s, ems[0]);
      if ok {
        DecoderApart(env, t, ems[1..], d);
      }
    }
  }

  // ----- one entry -----

  lemma ConsumeTwice<S(!new), D>(env: Env<S, D>, s: State<S, D>, a: bytes, b: bytes)
    requires CutFreeBackend(env.ops) && !s.stage.Failed? && s.cursor < |s.entries| && a != [] && b != []
    requires IsCompressed(s.entries[s.cursor].kind) ==> env.ncz.Some? && Seam(env.ncz.value, s.nczUser, a, b)
    ensures var t := Consume(env, s, a);
            Agree(Consume(env, s, a + b), if t.stage.Failed? then t else Consume(env, t, b))
  {
    hide Route, CutFreeBackend, Seam;
    RouteTwice(env, s, a, b);
    var t := Route(env, s, a);
    if !t.stage.Failed? {
      var pos := Advance(t.streamPos, |a|);
      RouteMoves(env, t, b, pos);
      RouteShape(env, s, a);
      RouteShape(env, s, a + b);
      RouteShape(env, t, b);
      AdvanceTwice(s.streamPos, |a|, |b|);
    }
  }

  /** The current entry has been started. */
  predicate Opened<S, D>(s: State<S, D>)
    requires s.cursor < |s.entries|
  {
    var kind := s.entries[s.cursor].kind;
    (IsCompressed(kind) ==> s.nczActive) && (IsContent(kind) && !IsCompressed(kind) ==> s.contentOpen)
  }

  lemma OpenOnce<S, D>(env: Env<S, D>, s: State<S, D>)
    requires s.cursor < |s.entries| && (s.nczActive ==> env.ncz.Some?) && !s.stage.Failed?
    ensures !OpenEntry(env, s).stage.Failed? ==> Opened(OpenEntry(env, s))
    ensures Opened(s) ==> OpenEntry(env, s) == s
  {
  }

  lemma StaysOpened<S, D>(env: Env<S, D>, s: State<S, D>, chunk: bytes)
    requires s.cursor < |s.entries| && Opened(s) && !s.stage.Failed?
    requires IsCompressed(s.entries[s.cursor].kind) ==> env.ncz.Some?
    ensures !Consume(env, s, chunk).stage.Failed? ==> Opened(Consume(env, s, chunk))
  {
    hide FeedDecoder, Advance;
  }

  /** The decoder of the current entry, begun if it has to be, does not look at the cut between `a` and `b`. */
  ghost predicate SeamHere<S, D>(env: Env<S, D>, s: State<S, D>, a: bytes, b: bytes)
    requires s.cursor < |s.entries| && (s.nczActive ==> env.ncz.Some?)
  {
    var o := OpenEntry(env, s);
    IsCompressed(s.entries[s.cursor].kind) && env.ncz.Some? && !o.stage.Failed? ==> Seam(env.ncz.value, o.nczUser, a, b)
  }

  /** Visiting an entry with `a` and again with `b` is visiting it with both, when `a` does not reach its end. */
  lemma EntryTwice<S(!new), D>(env: Env<S, D>, s: State<S, D>, a: bytes, b: bytes)
    requires CutFreeBackend(env.ops) && s.stage.Streaming? && s.cursor < |s.entries| && (s.nczActive ==> env.ncz.Some?)
    requires a != [] && b != [] && s.streamPos + |a| < EntryEnd(s.entries[s.cursor]) && SeamHere(env, s, a, b)
    ensures var t := StepEntry(env, s, a);
            && (t.stage.Failed? ==> StepEntry(env, s, a + b).stage == t.stage)
            && (!t.stage.Failed? ==> t.stage.Streaming? && t.cursor == s.cursor && t.entries == s.entries
                                     && t.streamPos == s.streamPos + |a| && (t.nczActive ==> env.ncz.Some?)
                                     && Agree(StepEntry(env, s, a + b), StepEntry(env, t, b)))
  {
    hide OpenEntry, Consume, CloseEntry, EntryEnd, CutFreeBackend, Opened, Seam;
    OpenOnce(env, s);
    OpenShape(env, s);
    var o := OpenEntry(env, s);
    if !o.stage.Failed? {
      ConsumeTwice(env, o, a, b);
      ConsumeShape(env, o, a);
      StaysOpened(env, o, a);
      AdvanceTwice(s.streamPos, |a|, 0);
      var u := Consume(env, o, a);
      if !u.stage.Failed? {
        OpenOnce(env, u);
      }
    }
  }

  // ----- one round -----

  /** The stream has not passed the end of the entry the cursor is at. */
  ghost predicate NotBehind<S, D>(s: State<S, D>) {
    s.stage.Streaming? && s.cursor < |s.entries| && s.streamPos >= s.entries[s.cursor].absOffset ==>
      s.streamPos <= EntryEnd(s.entries[s.cursor])
  }

  /** What a round on `a + b` and a round on `a` have in common. */
  ghost predicate RoundsMatch<S, D>(env: Env<S, D>, s: State<S, D>, a: bytes, b: bytes)
    requires Valid(env, s) && !s.stage.Failed?
  {
    var (t, used) := Iter(env, s, a + b);
    var (t1, used1) := Iter(env, s, a);
    if used <= |a| then t1 == t && used1 == used
    else
      && used1 == |a| && Valid(env, t1)
      && (t1.stage.Failed? ==> t.stage == t1.stage)
      && (!t1.stage.Failed? ==>
            var (t2, used2) := Iter(env, t1, b);
            used2 == used - |a| && Agree(t, t2))
  }

  lemma MagicRounds<S, D>(env: Env<S, D>, s: State<S, D>, a: bytes, b: bytes)
    requires Valid(env, s) && s.stage.Magic? && a != [] && b != []
    ensures RoundsMatch(env, s, a, b)
  {
    hide Pfs.PeekHeaderSize, Fail, Advance;
    var room := Pfs.HEADER_SIZE - |s.header|;
    AbsorbTwice(s, a, b, room);
  }

  lemma HeaderRounds<S, D>(env: Env<S, D>, s: State<S, D>, a: bytes, b: bytes)
    requires Valid(env, s) && s.stage.Header? && a != [] && b != []
    ensures RoundsMatch(env, s, a, b)
  {
    hide Pfs.Parse, Fail, Advance, BuildEntries;
    AbsorbTwice(s, a, b, s.headerSize - |s.header|);
  }

  /** Taking up to `room` bytes of `a + b` into the header. */
  lemma AbsorbTwice<S, D>(s: State<S, D>, a: bytes, b: bytes, room: nat)
    ensures room <= |a| ==> (a + b)[..Min(|a + b|, room)] == a[..Min(|a|, room)]
    ensures room > |a| ==> Absorb(Absorb(s, a[..Min(|a|, room)]), b[..Min(|b|, room - |a|)]) == Absorb(s, (a + b)[..Min(|a + b|, room)])
  {
    if room <= |a| {
      assert (a + b)[..room] == a[..room];
    } else {
      var k := Min(|b|, room - |a|);
      assert a[..|a|] == a;
      assert (a + b)[..|a| + k] == a + b[..k];
      AdvanceTwice(s.streamPos, |a|, k);
      assert s.header + a + b[..k] == s.header + (a + b[..k]);
    }
  }

  /** The same for every cut a round on the current entry can meet. */
  ghost predicate NoCutSeen<S, D>(env: Env<S, D>, s: State<S, D>, a: bytes, b: bytes)
    requires Valid(env, s)
  {
    s.stage.Streaming? && s.cursor < |s.entries| && s.entries[s.cursor].absOffset <= s.streamPos ==>
      forall k {:trigger b[..k]} :: 0 < k <= |b| && s.streamPos + |a| + k <= EntryEnd(s.entries[s.cursor]) ==> SeamHere(env, s, a, b[..k])
  }

  lemma StreamingRounds<S(!new), D>(env: Env<S, D>, s: State<S, D>, a: bytes, b: bytes)
    requires CutFreeBackend(env.ops) && Valid(env, s) && s.stage.Streaming? && a != [] && b != []
    requires NotBehind(s) && s.streamPos + |a| + |b| < U64_LIMIT && NoCutSeen(env, s, a, b)
    ensures RoundsMatch(env, s, a, b)
  {
    hide StepEntry, EntryEnd, CutFreeBackend, SeamHere, Advance;
    AdvanceTwice(s.streamPos, |a|, |b|);
    AdvanceTwice(s.streamPos, |a|, 0);
    if s.cursor < |s.entries| {
      var e := s.entries[s.cursor];
      if s.streamPos < e.absOffset {
        AdvanceTwice(s.streamPos, |a|, Min(|b|, Max(0, e.absOffset - s.streamPos - |a|)));
      } else {
        var left := EntryEnd(e) - s.streamPos;
        if left <= |a| {
          assert (a + b)[..left] == a[..left];
        } else {
          var k := Min(|b|, left - |a|);
          assert (a + b)[..|a| + k] == a + b[..k];
          assert a[..|a|] == a;
          EntryTwice(env, s, a, b[..k]);
          EntryShape(env, s, a);
        }
      }
    }
  }

  // ----- calm containers -----

  /** From `pos` on, no entry of `es` ends before the stream has reached it, counting as the code counts. */
  predicate CalmEntries(es: seq<Entry>, pos: u64) {
    es == [] || (Max(pos, es[0].absOffset) <= EntryEnd(es[0]) && CalmEntries(es[1..], EntryEnd(es[0])))
  }

  /** The sorted entries a stream's header describes, when it describes an installable container. */
  function Layout(stream: bytes): Option<(seq<Entry>, u64)> {
    match Pfs.PeekHeaderSize(stream)
    case Err(_) => None
    case Ok((_, size)) =>
      if size > MAX_HEADER || |stream| < size then None
      else
        match Pfs.Parse(stream[..size])
        case Err(_) => None
        case Ok(ctx) =>
          var (es, v) := Collect(ctx, 0, []);
          if v.Some? || LastMeta(es).None? then None else Some((SortByOffset(es), size))
  }

  /** A caller can check this on the header alone, before the first content byte. */
  predicate CalmStream(stream: bytes) {
    match Layout(stream)
    case None => true
    case Some((es, size)) => CalmEntries(es, size)
  }

  /** The part of that promise still ahead of a run. */
  ghost predicate Calm<S, D>(s: State<S, D>, data: bytes) {
    match s.stage
    case Magic => CalmStream(s.header + data) && |s.header| == s.streamPos
    case Header => CalmStream(s.header + data) && |s.header| == s.streamPos
                   && Pfs.HEADER_SIZE <= |s.header| && Pfs.PeekHeaderSize(s.header).Ok? && Pfs.PeekHeaderSize(s.header).value.1 == s.headerSize
    case Streaming => s.cursor <= |s.entries| && CalmEntries(s.entries[s.cursor..], s.streamPos)
    case Complete => true
    case Failed(_) => true
  }

  lemma CalmIsNotBehind<S, D>(s: State<S, D>, data: bytes)
    requires Calm(s, data)
    ensures NotBehind(s)
  {
  }

  lemma CalmHead(es: seq<Entry>, i: nat, pos: u64)
    requires i < |es|
    ensures CalmEntries(es[i..], pos) <==> Max(pos, es[i].absOffset) <= EntryEnd(es[i]) && CalmEntries(es[i + 1..], EntryEnd(es[i]))
  {
    assert es[i..][0] == es[i] && es[i..][1..] == es[i + 1..];
  }

  lemma CalmAfterStreaming<S, D>(env: Env<S, D>, s: State<S, D>, data: bytes)
    requires Valid(env, s) && s.stage.Streaming? && data != [] && Calm(s, data) && s.streamPos + |data| < U64_LIMIT
    ensures var (t, used) := StepStreaming(env, s, data); Calm(t, data[used..])
  {
    hide StepEntry, EntryEnd, Advance, CalmEntries;
    AdvanceTwice(s.streamPos, |data|, 0);
    if s.cursor < |s.entries| {
      var e := s.entries[s.cursor];
      CalmHead(s.entries, s.cursor, s.streamPos);
      if s.streamPos < e.absOffset {
        var skip := Min(|data|, e.absOffset - s.streamPos);
        AdvanceTwice(s.streamPos, skip, 0);
        CalmHead(s.entries, s.cursor, s.streamPos + skip);
      } else {
        var take := Min(|data|, EntryEnd(e) - s.streamPos);
        AdvanceTwice(s.streamPos, take, 0);
        EntryMoves(env, s, data[..take]);
        CalmHead(s.entries, s.cursor, s.streamPos + take);
      }
    }
  }

  /** How far a visit moves the stream position and the cursor. */
  lemma EntryMoves<S, D>(env: Env<S, D>, s: State<S, D>, chunk: bytes)
    requires s.stage.Streaming? && s.cursor < |s.entries| && (s.nczActive ==> env.ncz.Some?)
    requires s.streamPos + |chunk| < U64_LIMIT
    ensures var t := StepEntry(env, s, chunk);
            t.stage.Failed? ||
            (&& t.entries == s.entries && t.streamPos == s.streamPos + |chunk|
             && if t.streamPos < EntryEnd(s.entries[s.cursor]) then t.stage.Streaming? && t.cursor == s.cursor
                else t.cursor == s.cursor + 1 && t.stage == if t.cursor >= |t.entries| then Complete else Streaming)
  {
    hide OpenEntry, Consume, CloseEntry, EntryEnd;
    OpenShape(env, s);
    AdvanceTwice(s.streamPos, |chunk|, 0);
    var o := OpenEntry(env, s);
    if !o.stage.Failed? {
      ConsumeShape(env, o, chunk);
      var u := Consume(env, o, chunk);
      if !u.stage.Failed? && u.streamPos >= EntryEnd(s.entries[s.cursor]) {
        CloseShape(env, u);
      }
    }
  }

  lemma MagicMoves<S, D>(env: Env<S, D>, s: State<S, D>, data: bytes)
    requires Valid(env, s) && s.stage.Magic? && s.streamPos + |data| < U64_LIMIT
    ensures var (t, used) := StepMagic(env, s, data); !t.stage.Failed? ==> t.streamPos == s.streamPos + used
  {
    hide Pfs.PeekHeaderSize, Fail, Advance;
    AdvanceTwice(s.streamPos, Min(|data|, Pfs.HEADER_SIZE - |s.header|), 0);
    var t := Absorb(s, data[..Min(|data|, Pfs.HEADER_SIZE - |s.header|)]);
    FailStage(env, t);
    match Pfs.PeekHeaderSize(t.header)
    case Err(_) =>
    case Ok((_, size)) => FailStage(env, t.(headerSize := size));
  }

  lemma HeaderMoves<S, D>(env: Env<S, D>, s: State<S, D>, data: bytes)
    requires Valid(env, s) && s.stage.Header? && s.streamPos + |data| < U64_LIMIT
    ensures var (t, used) := StepHeader(env, s, data); !t.stage.Failed? ==> t.streamPos == s.streamPos + used
  {
    hide Pfs.Parse, Fail, Advance, BuildEntries;
    var used := Min(|data|, s.headerSize - |s.header|);
    AdvanceTwice(s.streamPos, used, 0);
    var t := Absorb(s, data[..used]);
    FailStage(env, t);
    match Pfs.Parse(t.header)
    case Err(_) =>
    case Ok(ctx) =>
      BuildShape(t, ctx);
      FailStage(env, BuildEntries(t, ctx).0);
  }

  lemma StreamingMoves<S, D>(env: Env<S, D>, s: State<S, D>, data: bytes)
    requires Valid(env, s) && s.stage.Streaming? && s.streamPos + |data| < U64_LIMIT
    ensures var (t, used) := StepStreaming(env, s, data); !t.stage.Failed? ==> t.streamPos == s.streamPos + used
  {
    hide StepEntry, Advance, EntryEnd;
    AdvanceTwice(s.streamPos, |data|, 0);
    if s.cursor < |s.entries| {
      var e := s.entries[s.cursor];
      if s.streamPos < e.absOffset {
        AdvanceTwice(s.streamPos, Min(|data|, e.absOffset - s.streamPos), 0);
      } else {
        EntryMoves(env, s, data[..Min(|data|, Sub64(EntryEnd(e), s.streamPos))]);
      }
    }
  }

  /** The promise about `a + b` survives a round on `a`. */
  lemma CalmPrefix<S, D>(env: Env<S, D>, s: State<S, D>, a: bytes, b: bytes)
    requires Valid(env, s) && !s.stage.Failed? && a != [] && Calm(s, a + b) && s.streamPos + |a| + |b| < U64_LIMIT
    ensures var (t, used) := Iter(env, s, a);
            Calm(t, (a + b)[used..]) && (!t.stage.Failed? ==> t.streamPos == s.streamPos + used)
  {
    hide StepMagic, StepHeader, StepStreaming, Advance, CalmStream, Calm;
    match s.stage
    case Magic =>
      CalmPrefixMagic(env, s, a, b);
      MagicMoves(env, s, a);
    case Header =>
      CalmPrefixHeader(env, s, a, b);
      HeaderMoves(env, s, a);
    case Streaming =>
      CalmIgnoresData(s, a + b, a);
      CalmAfterStreaming(env, s, a);
      StreamingMoves(env, s, a);
      StreamingStays(env, s, a);
      var (t, used) := StepStreaming(env, s, a);
      CalmIgnoresData(t, a[used..], (a + b)[used..]);
    case Complete =>
      AdvanceTwice(s.streamPos, |a|, 0);
      CompleteIsCalm(Iter(env, s, a).0, (a + b)[|a|..]);
  }

  lemma CompleteIsCalm<S, D>(s: State<S, D>, data: bytes)
    requires s.stage.Complete?
    ensures Calm(s, data)
  {
  }

  lemma CalmIgnoresData<S, D>(s: State<S, D>, x: bytes, y: bytes)
    requires !s.stage.Magic? && !s.stage.Header? && Calm(s, x)
    ensures Calm(s, y)
  {
  }

  lemma StreamingStays<S, D>(env: Env<S, D>, s: State<S, D>, data: bytes)
    requires Valid(env, s) && s.stage.Streaming?
    ensures var (t, used) := StepStreaming(env, s, data); !t.stage.Magic? && !t.stage.Header? && used <= |data|
  {
    hide StepEntry, Advance, EntryEnd;
    if s.cursor < |s.entries| && s.streamPos >= s.entries[s.cursor].absOffset {
      EntryShape(env, s, data[..Min(|data|, Sub64(EntryEnd(s.entries[s.cursor]), s.streamPos))]);
    }
  }

  lemma CalmPrefixMagic<S, D>(env: Env<S, D>, s: State<S, D>, a: bytes, b: bytes)
    requires Valid(env, s) && s.stage.Magic? && a != [] && Calm(s, a + b)
    ensures var (t, used) := StepMagic(env, s, a); Calm(t, (a + b)[used..])
  {
    hide Pfs.PeekHeaderSize, CalmStream;
    var used := Min(|a|, Pfs.HEADER_SIZE - |s.header|);
    AdvanceTwice(s.streamPos, used, 0);
    assert s.header + a[..used] + (a + b)[used..] == s.header + (a + b);
    FailShape(env, Absorb(s, a[..used]), BadContainer);
  }

  lemma CalmPrefixHeader<S, D>(env: Env<S, D>, s: State<S, D>, a: bytes, b: bytes)
    requires Valid(env, s) && s.stage.Header? && a != [] && Calm(s, a + b)
    ensures var (t, used) := StepHeader(env, s, a); Calm(t, (a + b)[used..])
  {
    hide Pfs.PeekHeaderSize, Pfs.Parse, Fail, CalmEntries, Advance, Collect, LastMeta, SortByOffset;
    var used := Min(|a|, s.headerSize - |s.header|);
    AdvanceTwice(s.streamPos, used, 0);
    var h := s.header + a[..used];
    assert h + (a + b)[used..] == s.header + (a + b);
    Pfs.PeekIsLocal(s.header, h);
    if |h| == s.headerSize {
      Pfs.PeekIsLocal(s.header, s.header + (a + b));
      assert (s.header + (a + b))[..s.headerSize] == h;
      var t := StepHeader(env, s, a).0;
      FailStage(env, Absorb(s, a[..used]));
      match Pfs.Parse(h)
      case Err(_) =>
      case Ok(ctx) =>
        FailStage(env, BuildEntries(Absorb(s, a[..used]), ctx).0);
        assert t.entries[0..] == t.entries;
    }
  }

  // ----- seamless streams -----

  /** The part of the decoder's promise still ahead of a run that is inside `stream`. */
  ghost predicate Along<S, D(!new)>(env: Env<S, D>, s: State<S, D>, stream: bytes) {
    env.ncz.Some? ==>
      match s.stage
      case Magic => SeamlessStream(env.ncz, stream) && !s.nczActive && s.streamPos <= |stream| && s.header == stream[..s.streamPos]
      case Header => SeamlessStream(env.ncz, stream) && !s.nczActive && s.streamPos <= |stream| && s.header == stream[..s.streamPos]
      case Streaming =>
        if s.nczActive then
          && s.cursor < |s.entries| && IsCompressed(s.entries[s.cursor].kind) && s.entries[s.cursor].absOffset <= s.streamPos
          && Seamless(env.ncz.value, s.nczUser, Part(stream, s.streamPos, EntryEnd(s.entries[s.cursor])))
          && SeamlessEntries(env.ncz.value, s.entries[s.cursor + 1..], EntryEnd(s.entries[s.cursor]), stream)
        else s.cursor <= |s.entries| && SeamlessEntries(env.ncz.value, s.entries[s.cursor..], s.streamPos, stream)
      case Complete => true
      case Failed(_) => true
  }

  /** `s` is inside `stream` with `data` still to come. */
  ghost predicate Inside<S, D>(s: State<S, D>, stream: bytes, data: bytes) {
    s.streamPos + |data| == |stream| < U64_LIMIT && stream[s.streamPos..] == data
  }

  lemma SeamlessHead<D(!new)>(ncz: NczOps<D>, es: seq<Entry>, i: nat, pos: u64, stream: bytes)
    requires i < |es|
    ensures SeamlessEntries(ncz, es[i..], pos, stream) <==>
              && (IsCompressed(es[i].kind) ==> SeamlessEntry(ncz, Part(stream, Max(pos, es[i].absOffset), EntryEnd(es[i]))))
              && SeamlessEntries(ncz, es[i + 1..], EntryEnd(es[i]), stream)
  {
    assert es[i..][0] == es[i] && es[i..][1..] == es[i + 1..];
  }

  /** A seamless stretch starts with `a`, then `b`. */
  lemma SeamOfSeamless<D>(ncz: NczOps<D>, d: D, p: bytes, a: bytes, b: bytes)
    requires Seamless(ncz, d, p) && a != [] && b != [] && a + b <= p
    ensures Seam(ncz, d, a, b)
  {
    hide Seam;
    assert SeamAt(ncz, d, p, 0, |a|, |a| + |b|);
    assert p[0..|a|] == a && p[|a|..|a| + |b|] == b;
  }

  lemma AlongSeesNoCut<S, D(!new)>(env: Env<S, D>, s: State<S, D>, stream: bytes, a: bytes, b: bytes)
    requires Valid(env, s) && Along(env, s, stream) && Inside(s, stream, a + b) && a != []
    ensures NoCutSeen(env, s, a, b)
  {
    hide Seam, Seamless, EntryEnd;
    if env.ncz.Some? && s.stage.Streaming? && s.cursor < |s.entries| && s.entries[s.cursor].absOffset <= s.streamPos
       && IsCompressed(s.entries[s.cursor].kind) {
      var e, ncz := s.entries[s.cursor], env.ncz.value;
      var p := Part(stream, s.streamPos, EntryEnd(e));
      SeamlessHead(ncz, s.entries, s.cursor, s.streamPos, stream);
      forall k | 0 < k <= |b| && s.streamPos + |a| + k <= EntryEnd(e)
        ensures SeamHere(env, s, a, b[..k])
      {
        PartStarts(stream, s.streamPos, EntryEnd(e), a, b, k);
        if !OpenEntry(env, s).stage.Failed? {
          SeamOfSeamless(ncz, OpenEntry(env, s).nczUser, p, a, b[..k]);
        }
      }
    }
  }

  lemma PartStarts(stream: bytes, from: nat, to: nat, a: bytes, b: bytes, k: nat)
    requires from <= |stream| && stream[from..] == a + b && a != [] && 0 < k <= |b| && from + |a| + k <= to
    ensures a + b[..k] <= Part(stream, from, to)
  {
    assert a + b[..k] == (a + b)[..|a| + k];
  }

  /** Taking bytes for a compressed entry feeds them to its decoder. */
  lemma ConsumeFeeds<S, D>(env: Env<S, D>, s: State<S, D>, chunk: bytes)
    requires s.cursor < |s.entries| && !s.stage.Failed? && (IsCompressed(s.entries[s.cursor].kind) ==> env.ncz.Some?)
    ensures var t := Consume(env, s, chunk);
            !t.stage.Failed? ==>
              if IsCompressed(s.entries[s.cursor].kind) && chunk != [] then
                var r := env.ncz.value.feed(s.nczUser, chunk);
                r.ok && t.nczUser == r.user
              else t.nczUser == s.nczUser
  {
    hide RunSink, Advance, WriteContent;
    var kind := s.entries[s.cursor].kind;
    if IsCompressed(kind) {
      var r := env.ncz.value.feed(s.nczUser, chunk);
      FailStage(env, RunSink(env, s, r.emissions).0.(nczUser := r.user));
    } else {
      WriteShape(env, s, chunk);
      FailStage(env, WriteContent(env, s, chunk).0);
    }
  }

  lemma AlongOpen<S, D(!new)>(env: Env<S, D>, s: State<S, D>, stream: bytes)
    requires Valid(env, s) && s.stage.Streaming? && s.cursor < |s.entries| && Along(env, s, stream)
    requires s.entries[s.cursor].absOffset <= s.streamPos
    ensures var o := OpenEntry(env, s);
            !o.stage.Failed? ==> Along(env, o, stream) && (IsCompressed(s.entries[s.cursor].kind) ==> o.nczActive)
  {
    hide EntryEnd, Seamless, SeamlessEntries;
    if env.ncz.Some? {
      SeamlessHead(env.ncz.value, s.entries, s.cursor, s.streamPos, stream);
    }
  }

  lemma AlongConsume<S, D(!new)>(env: Env<S, D>, s: State<S, D>, stream: bytes, take: nat)
    requires env.ncz.Some? && s.stage.Streaming? && s.cursor < |s.entries| && Along(env, s, stream)
    requires IsCompressed(s.entries[s.cursor].kind) ==> s.nczActive
    requires s.streamPos + take <= EntryEnd(s.entries[s.cursor]) && s.streamPos + take <= |stream| < U64_LIMIT
    requires s.entries[s.cursor].absOffset <= s.streamPos
    ensures var t := Consume(env, s, stream[s.streamPos..s.streamPos + take]); !t.stage.Failed? ==> Along(env, t, stream)
  {
    hide Consume, EntryEnd, Seamless, SeamlessEntries, Seam;
    var e, chunk := s.entries[s.cursor], stream[s.streamPos..s.streamPos + take];
    ConsumeShape(env, s, chunk);
    ConsumeFeeds(env, s, chunk);
    AdvanceTwice(s.streamPos, take, 0);
    if !Consume(env, s, chunk).stage.Failed? {
      if s.nczActive {
        if take > 0 {
          PartGoesOn(stream, s.streamPos, EntryEnd(e), take);
          SeamlessRest(env.ncz.value, s.nczUser, Part(stream, s.streamPos, EntryEnd(e)), take);
        }
      } else {
        SeamlessHead(env.ncz.value, s.entries, s.cursor, s.streamPos, stream);
        SeamlessHead(env.ncz.value, s.entries, s.cursor, s.streamPos + take, stream);
      }
    }
  }

  lemma AlongClose<S, D(!new)>(env: Env<S, D>, s: State<S, D>, stream: bytes)
    requires env.ncz.Some? && s.stage.Streaming? && s.cursor < |s.entries| && Along(env, s, stream)
    requires s.streamPos == EntryEnd(s.entries[s.cursor])
    ensures Along(env, CloseEntry(env, s), stream)
  {
    hide CloseEntry, EntryEnd, Seamless, SeamlessEntries;
    CloseShape(env, s);
    SeamlessHead(env.ncz.value, s.entries, s.cursor, s.streamPos, stream);
  }

  lemma AlongEntry<S, D(!new)>(env: Env<S, D>, s: State<S, D>, stream: bytes, take: nat)
    requires Valid(env, s) && s.stage.Streaming? && s.cursor < |s.entries| && Along(env, s, stream)
    requires s.entries[s.cursor].absOffset <= s.streamPos && s.streamPos + take <= EntryEnd(s.entries[s.cursor])
    requires s.streamPos + take <= |stream| < U64_LIMIT
    ensures Along(env, StepEntry(env, s, stream[s.streamPos..s.streamPos + take]), stream)
  {
    hide OpenEntry, Consume, CloseEntry, EntryEnd, Along;
    var chunk := stream[s.streamPos..s.streamPos + take];
    WithoutDecoder(env, StepEntry(env, s, chunk), stream);
    if env.ncz.Some? {
      AlongOpen(env, s, stream);
      OpenShape(env, s);
      var o := OpenEntry(env, s);
      if o.stage.Failed? {
        FailedIsAlong(env, o, stream);
      } else {
        AlongConsume(env, o, stream, take);
        ConsumeShape(env, o, chunk);
        AdvanceTwice(s.streamPos, take, 0);
        var u := Consume(env, o, chunk);
        if u.stage.Failed? {
          FailedIsAlong(env, u, stream);
        } else if u.streamPos >= EntryEnd(s.entries[s.cursor]) {
          AlongClose(env, u, stream);
        }
      }
    }
  }

  lemma WithoutDecoder<S, D(!new)>(env: Env<S, D>, s: State<S, D>, stream: bytes)
    ensures env.ncz.None? ==> Along(env, s, stream)
  {
  }

  lemma FailedIsAlong<S, D(!new)>(env: Env<S, D>, s: State<S, D>, stream: bytes)
    requires s.stage.Failed?
    ensures Along(env, s, stream)
  {
  }

  lemma PartGoesOn(stream: bytes, from: nat, to: nat, n: nat)
    requires 0 < n && from + n <= to && from + n <= |stream|
    ensures var p := Part(stream, from, to); n <= |p| && p[..n] == stream[from..from + n] && p[n..] == Part(stream, from + n, to)
  {
  }

  lemma AlongStreaming<S, D(!new)>(env: Env<S, D>, s: State<S, D>, stream: bytes, a: bytes, b: bytes)
    requires Valid(env, s) && s.stage.Streaming? && Calm(s, a + b) && Along(env, s, stream) && Inside(s, stream, a + b)
    ensures Along(env, StepStreaming(env, s, a).0, stream)
  {
    hide StepEntry, EntryEnd, Advance, CalmEntries, SeamlessEntry, Seamless;
    AdvanceTwice(s.streamPos, |a|, 0);
    if s.cursor < |s.entries| {
      var e := s.entries[s.cursor];
      CalmHead(s.entries, s.cursor, s.streamPos);
      if s.streamPos < e.absOffset {
        var skip := Min(|a|, e.absOffset - s.streamPos);
        AdvanceTwice(s.streamPos, skip, 0);
        if env.ncz.Some? {
          SeamlessHead(env.ncz.value, s.entries, s.cursor, s.streamPos, stream);
          SeamlessHead(env.ncz.value, s.entries, s.cursor, s.streamPos + skip, stream);
        }
      } else {
        var take := Min(|a|, EntryEnd(e) - s.streamPos);
        assert a[..take] == stream[s.streamPos..s.streamPos + take] by { assert (a + b)[..take] == a[..take]; }
        AlongEntry(env, s, stream, take);
      }
    }
  }

  lemma AlongMagic<S, D(!new)>(env: Env<S, D>, s: State<S, D>, stream: bytes, a: bytes, b: bytes)
    requires Valid(env, s) && s.stage.Magic? && Along(env, s, stream) && Inside(s, stream, a + b)
    ensures Along(env, StepMagic(env, s, a).0, stream)
  {
    hide Pfs.PeekHeaderSize, SeamlessStream, Fail;
    var used := Min(|a|, Pfs.HEADER_SIZE - |s.header|);
    AdvanceTwice(s.streamPos, used, 0);
    PrefixGrows(stream, s.streamPos, a, b, used);
    var t := Absorb(s, a[..used]);
    FailStage(env, t);
    match Pfs.PeekHeaderSize(t.header)
    case Err(_) =>
    case Ok((_, size)) => FailStage(env, t.(headerSize := size));
  }

  lemma PrefixGrows(stream: bytes, pos: nat, a: bytes, b: bytes, n: nat)
    requires pos <= |stream| && stream[pos..] == a + b && n <= |a|
    ensures pos + n <= |stream| && stream[..pos] + a[..n] == stream[..pos + n]
  {
    assert a[..n] == (a + b)[..n] == stream[pos..pos + n];
  }

  lemma AlongHeader<S, D(!new)>(env: Env<S, D>, s: State<S, D>, stream: bytes, a: bytes, b: bytes)
    requires Valid(env, s) && s.stage.Header? && Along(env, s, stream) && Inside(s, stream, a + b) && Calm(s, a + b)
    ensures Along(env, StepHeader(env, s, a).0, stream)
  {
    hide Pfs.PeekHeaderSize, Pfs.Parse, Fail, CalmStream, SeamlessEntries, Advance, Collect, LastMeta, SortByOffset;
    var used := Min(|a|, s.headerSize - |s.header|);
    AdvanceTwice(s.streamPos, used, 0);
    if env.ncz.Some? {
      PrefixGrows(stream, s.streamPos, a, b, used);
      var h := s.header + a[..used];
      if |h| == s.headerSize {
        Pfs.PeekIsLocal(s.header, stream);
        assert stream[..s.headerSize] == h;
        FailStage(env, Absorb(s, a[..used]));
        match Pfs.Parse(h)
        case Err(_) =>
        case Ok(ctx) =>
          BuildShape(Absorb(s, a[..used]), ctx);
          FailStage(env, BuildEntries(Absorb(s, a[..used]), ctx).0);
          var t := StepHeader(env, s, a).0;
          assert t.entries[0..] == t.entries;
      }
    }
  }

  /** The decoder's promise survives a round. */
  lemma AlongRound<S, D(!new)>(env: Env<S, D>, s: State<S, D>, stream: bytes, a: bytes, b: bytes)
    requires Valid(env, s) && !s.stage.Failed? && Calm(s, a + b) && Along(env, s, stream) && Inside(s, stream, a + b)
    ensures Along(env, Iter(env, s, a).0, stream)
  {
    hide StepMagic, StepHeader, StepStreaming, Advance, Calm, SeamlessStream, SeamlessEntries;
    match s.stage
    case Magic => AlongMagic(env, s, stream, a, b);
    case Header => AlongHeader(env, s, stream, a, b);
    case Streaming => AlongStreaming(env, s, stream, a, b);
    case Complete =>
  }

  lemma InsideMoves<S, D>(s: State<S, D>, t: State<S, D>, stream: bytes, a: bytes, b: bytes, used: nat)
    requires Inside(s, stream, a + b) && t.streamPos == s.streamPos + used && used <= |a|
    ensures Inside(t, stream, a[used..] + b)
  {
    assert a[used..] + b == (a + b)[used..] == stream[s.streamPos..][used..];
  }

  // ----- the main theorem -----

  /** Feeding `a + b` in one call is feeding `a`, then `b`. */
  lemma {:induction false} FeedTwiceAgrees<S(!new), D(!new)>(env: Env<S, D>, s: State<S, D>, stream: bytes, a: bytes, b: bytes)
    requires CutFreeBackend(env.ops) && Valid(env, s) && (!s.stage.Failed? ==> Calm(s, a + b) && Along(env, s, stream) && Inside(s, stream, a + b))
    ensures Agree(Feed(env, s, a + b), Feed(env, Feed(env, s, a), b))
    decreases |a|, StageRank(s.stage), EntriesLeft(s)
  {
    hide Iter, CutFreeBackend, Calm, Valid, Along, Inside;
    if a == [] {
      assert a + b == b;
    } else if b == [] {
      assert a + b == a;
    } else if !s.stage.Failed? {
      InsideFits(s, stream, a, b);
      CalmIsNotBehind(s, a + b);
      AlongSeesNoCut(env, s, stream, a, b);
      Rounds(env, s, a, b);
      CalmPrefix(env, s, a, b);
      AlongRound(env, s, stream, a, b);
      IterProgress(env, s, a);
      var (t, used) := Iter(env, s, a + b);
      var (t1, used1) := Iter(env, s, a);
      if used <= |a| {
        assert (a + b)[used..] == a[used..] + b;
        if !t.stage.Failed? {
          InsideMoves(s, t, stream, a, b, used);
        }
        FeedTwiceAgrees(env, t, stream, a[used..], b);
      } else {
        assert (a + b)[used..] == b[used - |a|..];
      }
    }
  }

  lemma InsideFits<S, D>(s: State<S, D>, stream: bytes, a: bytes, b: bytes)
    requires Inside(s, stream, a + b)
    ensures s.streamPos + |a| + |b| < U64_LIMIT
  {
  }

  lemma Rounds<S(!new), D>(env: Env<S, D>, s: State<S, D>, a: bytes, b: bytes)
    requires CutFreeBackend(env.ops) && Valid(env, s) && !s.stage.Failed? && a != [] && b != []
    requires NotBehind(s) && s.streamPos + |a| + |b| < U64_LIMIT && NoCutSeen(env, s, a, b)
    ensures RoundsMatch(env, s, a, b)
  {
    hide StepMagic, StepHeader, StepStreaming, CutFreeBackend, RoundsMatch, NoCutSeen;
    match s.stage
    case Magic => MagicRounds(env, s, a, b);
    case Header => HeaderRounds(env, s, a, b);
    case Streaming => StreamingRounds(env, s, a, b);
    case Complete => CompleteRounds(env, s, a, b);
  }

  lemma CompleteRounds<S, D>(env: Env<S, D>, s: State<S, D>, a: bytes, b: bytes)
    requires Valid(env, s) && s.stage.Complete? && a != [] && b != []
    ensures RoundsMatch(env, s, a, b)
  {
    hide Advance;
    AdvanceTwice(s.streamPos, |a|, |b|);
  }

  // ----- any two cuttings -----

  function FeedAll<S, D>(env: Env<S, D>, s: State<S, D>, chunks: seq<bytes>): (t: State<S, D>)
    requires Valid(env, s)
    ensures Valid(env, t)
    decreases |chunks|
  {
    if chunks == [] then s else FeedAll(env, Feed(env, s, chunks[0]), chunks[1..])
  }

  lemma {:induction false} FailedStays<S, D>(env: Env<S, D>, s: State<S, D>, chunks: seq<bytes>)
    requires Valid(env, s) && s.stage.Failed?
    ensures FeedAll(env, s, chunks) == s
    decreases |chunks|
  {
    hide Valid;
    if chunks != [] {
      FailedStays(env, s, chunks[1..]);
    }
  }

  /** What a run has been promised about its stream survives a feed. */
  lemma {:induction false} PromisesStay<S, D(!new)>(env: Env<S, D>, s: State<S, D>, stream: bytes, a: bytes, b: bytes)
    requires Valid(env, s) && !s.stage.Failed? && Calm(s, a + b) && Along(env, s, stream) && Inside(s, stream, a + b)
    ensures var t := Feed(env, s, a); !t.stage.Failed? ==> Calm(t, b) && Along(env, t, stream) && Inside(t, stream, b)
    decreases |a|, StageRank(s.stage), EntriesLeft(s)
  {
    hide Iter, Calm, Valid, Along, Inside;
    if a == [] {
      assert a + b == b;
    } else {
      InsideFits(s, stream, a, b);
      CalmPrefix(env, s, a, b);
      AlongRound(env, s, stream, a, b);
      IterProgress(env, s, a);
      var (t, used) := Iter(env, s, a);
      assert (a + b)[used..] == a[used..] + b;
      if !t.stage.Failed? {
        InsideMoves(s, t, stream, a, b, used);
        PromisesStay(env, t, stream, a[used..], b);
      }
    }
  }

  /** Any chunking of a stream agrees with the stream fed whole. */
  lemma {:induction false} ChunksAgree<S(!new), D(!new)>(env: Env<S, D>, s: State<S, D>, stream: bytes, chunks: seq<bytes>)
    requires CutFreeBackend(env.ops) && Valid(env, s) && !s.stage.Failed?
    requires Calm(s, Joined(chunks)) && Along(env, s, stream) && Inside(s, stream, Joined(chunks))
    ensures Agree(FeedAll(env, s, chunks), Feed(env, s, Joined(chunks)))
    decreases |chunks|
  {
    hide CutFreeBackend, Valid, Calm, Feed, Along, Inside;
    if chunks == [] {
      FeedNothing(env, s);
    } else {
      var c, rest := chunks[0], Joined(chunks[1..]);
      FeedTwiceAgrees(env, s, stream, c, rest);
      PromisesStay(env, s, stream, c, rest);
      var t := Feed(env, s, c);
      if t.stage.Failed? {
        FailedStays(env, t, chunks[1..]);
        FailedFeed(env, t, rest);
      } else {
        ChunksAgree(env, t, stream, chunks[1..]);
      }
    }
  }

  lemma FeedNothing<S, D>(env: Env<S, D>, s: State<S, D>)
    requires Valid(env, s)
    ensures Feed(env, s, []) == s
  {
    hide Valid;
  }

  lemma FailedFeed<S, D>(env: Env<S, D>, s: State<S, D>, data: bytes)
    requires Valid(env, s) && s.stage.Failed?
    ensures Feed(env, s, data) == s
  {
    hide Valid;
  }

  /**
   * Chunk boundaries are arbitrary: two transports that deliver the same stream in different pieces leave
   * the installer, the backend and the decoder in the same state, or fail for the same reason.
   */
  lemma ChunkBoundariesDoNotMatter<S(!new), D(!new)>(env: Env<S, D>, user: S, d: D, chunks: seq<bytes>, others: seq<bytes>)
    requires CutFreeBackend(env.ops) && Joined(chunks) == Joined(others) && |Joined(chunks)| < U64_LIMIT
    requires CalmStream(Joined(chunks)) && SeamlessStream(env.ncz, Joined(chunks))
    ensures var s := Begin(env, user, d);
            Valid(env, s) && Agree(FeedAll(env, s, chunks), FeedAll(env, s, others))
  {
    hide CutFreeBackend, Feed, FeedAll, CalmStream, SeamlessStream, Joined;
    var s, stream := Begin(env, user, d), Joined(chunks);
    assert [] + stream == stream && stream[..0] == [] && stream[0..] == stream;
    ChunksAgree(env, s, stream, chunks);
    ChunksAgree(env, s, stream, others);
  }
}
