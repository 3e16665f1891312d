/**
 * A backend made to agree to everything, and what its runs say about the real one: as long as it never had to make
 * anything up, the real backend goes through the very same run.
 */
module HonestRuns {
  import opened Bytes
  import opened EntryNames
  import opened InstallSpec
  import opened InstallTrace
  import opened ChunkIndependence
  import Pfs = PartitionFs
  import Cnmt

  /** `honest` is lost when a call that failed is passed off as one that worked. */
  datatype Guarded<S> = Guarded(inner: S, honest: bool)

  function Agreed<S>(g: Guarded<S>, r: Reply<S>): Reply<Guarded<S>> {
    Reply(true, if g.honest then Guarded(r.user, r.ok) else g)
  }

  /** Every call works, and the manifest read is always this one. */
  function GuardedOps<S>(ops: BackendOps<S>, manifest: bytes): BackendOps<Guarded<S>> {
    BackendOps(
      (g: Guarded<S>, id, size) => Agreed(g, ops.contentBegin(g.inner, id, size)),
      (g: Guarded<S>, data) => Agreed(g, ops.contentWrite(g.inner, data)),
      (g: Guarded<S>) => Agreed(g, ops.contentCommit(g.inner)),
      (g: Guarded<S>) => if g.honest then Guarded(ops.contentDiscard(g.inner), true) else g,
      (g: Guarded<S>, id) => var r := ops.readCnmt(g.inner, id);
        ReadReply(true, manifest, if g.honest then Guarded(r.user, r.ok && r.data == manifest) else g),
      (g: Guarded<S>, tik, cert) => Agreed(g, ops.importTicket(g.inner, tik, cert)),
      (g: Guarded<S>, m) => Agreed(g, ops.registerMeta(g.inner, m)),
      (g: Guarded<S>, m) => Agreed(g, ops.pushRecord(g.inner, m)),
      (g: Guarded<S>, m) => if g.honest then Guarded(ops.rollback(g.inner, m), true) else g)
  }

  function GuardedEnv<S, D>(env: Env<S, D>, manifest: bytes): Env<Traced<Guarded<S>>, D> {
    TracedEnv(Env(GuardedOps(env.ops, manifest), env.ncz, env.target, env.rightsIdOf))
  }

  /** The same installer, with the real backend in the place of the guarded one. */
  function Real<S, D>(s: State<Traced<Guarded<S>>, D>): State<S, D> {
    State(s.stage, s.header, s.headerSize, s.entries, s.cursor, s.contentOpen, s.tik, s.cert, s.metaId, s.hasMeta, s.metaSize, s.nczActive,
          s.streamPos, s.bytesWritten, s.meta, s.user.inner.inner, s.nczUser)
  }

  predicate Honest<S, D>(s: State<Traced<Guarded<S>>, D>) {
    s.user.inner.honest
  }

  /** When the run from `s` to `t` was honest, the real one ends in `r`. */
  ghost predicate Alike<S, D>(s: State<Traced<Guarded<S>>, D>, t: State<Traced<Guarded<S>>, D>, r: State<S, D>) {
    Honest(t) ==> Honest(s) && r == Real(t)
  }

  // ----- the hooks -----

  function Kept<S>(g: Guarded<S>, r: Reply<S>): Guarded<S> {
    if g.honest then Guarded(r.user, r.ok) else g
  }

  lemma ContentHooks<S, D>(env: Env<S, D>, manifest: bytes, u: Traced<Guarded<S>>, id: bytes, size: u64, data: bytes)
    ensures var ops, g := GuardedEnv(env, manifest).ops, u.inner;
            && ops.contentBegin(u, id, size) == Reply(true, Traced(Kept(g, env.ops.contentBegin(g.inner, id, size)), u.log + [Began(id, size, true)]))
            && ops.contentWrite(u, data) == Reply(true, Traced(Kept(g, env.ops.contentWrite(g.inner, data)), u.log + [Wrote(data, true)]))
            && ops.contentCommit(u) == Reply(true, Traced(Kept(g, env.ops.contentCommit(g.inner)), u.log + [Committed(true)]))
  {
    var ops, g := GuardedOps(env.ops, manifest), u.inner;
    assert ops.contentBegin(g, id, size) == Reply(true, Kept(g, env.ops.contentBegin(g.inner, id, size)));
    assert ops.contentWrite(g, data) == Reply(true, Kept(g, env.ops.contentWrite(g.inner, data)));
    assert TracedOps(ops).contentBegin(u, id, size) == Logged(ops.contentBegin(g, id, size), u.log, Began(id, size, true));
    assert TracedOps(ops).contentWrite(u, data) == Logged(ops.contentWrite(g, data), u.log, Wrote(data, true));
  }

  lemma FinishHooks<S, D>(env: Env<S, D>, manifest: bytes, u: Traced<Guarded<S>>, tik: bytes, cert: bytes, m: Meta)
    ensures var ops, g := GuardedEnv(env, manifest).ops, u.inner;
            && ops.importTicket(u, tik, cert) == Reply(true, Traced(Kept(g, env.ops.importTicket(g.inner, tik, cert)), u.log + [ImportedTicket(tik, cert, true)]))
            && ops.registerMeta(u, m) == Reply(true, Traced(Kept(g, env.ops.registerMeta(g.inner, m)), u.log + [RegisteredMeta(m, true)]))
            && ops.pushRecord(u, m) == Reply(true, Traced(Kept(g, env.ops.pushRecord(g.inner, m)), u.log + [PushedRecord(m, true)]))
  {
    var ops, g := GuardedOps(env.ops, manifest), u.inner;
    assert ops.importTicket(g, tik, cert) == Reply(true, Kept(g, env.ops.importTicket(g.inner, tik, cert)));
    assert ops.registerMeta(g, m) == Reply(true, Kept(g, env.ops.registerMeta(g.inner, m)));
    assert ops.pushRecord(g, m) == Reply(true, Kept(g, env.ops.pushRecord(g.inner, m)));
    assert TracedOps(ops).importTicket(u, tik, cert) == Logged(ops.importTicket(g, tik, cert), u.log, ImportedTicket(tik, cert, true));
    assert TracedOps(ops).registerMeta(u, m) == Logged(ops.registerMeta(g, m), u.log, RegisteredMeta(m, true));
    assert TracedOps(ops).pushRecord(u, m) == Logged(ops.pushRecord(g, m), u.log, PushedRecord(m, true));
  }

  lemma ReadHook<S, D>(env: Env<S, D>, manifest: bytes, u: Traced<Guarded<S>>, id: bytes)
    ensures var g := u.inner;
            var r := env.ops.readCnmt(g.inner, id);
            GuardedEnv(env, manifest).ops.readCnmt(u, id)
            == ReadReply(true, manifest, Traced(if g.honest then Guarded(r.user, r.ok && r.data == manifest) else g, u.log + [ReadManifest(id, manifest, true)]))
  {
  }

  lemma GuardedDecoder<S, D>(env: Env<S, D>, manifest: bytes)
    ensures var g := GuardedEnv(env, manifest); g.ncz == env.ncz && g.target == env.target && g.rightsIdOf == env.rightsIdOf
  {
  }

  // ----- the streaming stage -----

  lemma FailAlike<S, D>(env: Env<S, D>, manifest: bytes, s: State<Traced<Guarded<S>>, D>, v: Verdict)
    ensures Alike(s, Fail(GuardedEnv(env, manifest), s, v), Fail(env, Real(s), v))
  {
  }

  lemma WriteAlike<S, D>(env: Env<S, D>, manifest: bytes, s: State<Traced<Guarded<S>>, D>, data: bytes)
    ensures var (t, ok) := WriteContent(GuardedEnv(env, manifest), s, data);
            var (r, done) := WriteContent(env, Real(s), data);
            Alike(s, t, r) && (Honest(t) ==> ok == done)
  {
    hide Advance, GuardedEnv;
    ContentHooks(env, manifest, s.user, [], 0, data);
  }

  lemma OpenForAlike<S, D>(env: Env<S, D>, manifest: bytes, s: State<Traced<Guarded<S>>, D>, size: u64)
    requires s.cursor < |s.entries|
    ensures var (t, ok) := OpenForSink(GuardedEnv(env, manifest), s, size);
            var (r, done) := OpenForSink(env, Real(s), size);
            Alike(s, t, r) && (Honest(t) ==> ok == done) && t.cursor == s.cursor && t.entries == s.entries
  {
    hide GuardedEnv;
    ContentHooks(env, manifest, s.user, s.entries[s.cursor].contentId, size, []);
  }

  lemma SinkAlike<S, D>(env: Env<S, D>, manifest: bytes, s: State<Traced<Guarded<S>>, D>, em: Emission)
    requires s.cursor < |s.entries|
    ensures var (t, ok) := Sink(GuardedEnv(env, manifest), s, em);
            var (r, done) := Sink(env, Real(s), em);
            Alike(s, t, r) && (Honest(t) ==> ok == done)
  {
    hide GuardedEnv, OpenForSink, WriteContent;
    OpenForAlike(env, manifest, s, em.size);
    var (t, open) := OpenForSink(GuardedEnv(env, manifest), s, em.size);
    if open {
      WriteAlike(env, manifest, t, em.data);
    }
  }

  lemma {:induction false} RunSinkAlike<S, D>(env: Env<S, D>, manifest: bytes, s: State<Traced<Guarded<S>>, D>,
                                              ems: seq<Emission>)
    requires s.cursor < |s.entries|
    ensures var (t, ok) := RunSink(GuardedEnv(env, manifest), s, ems);
            var (r, done) := RunSink(env, Real(s), ems);
            Alike(s, t, r) && (Honest(t) ==> ok == done)
    decreases |ems|
  {
    hide GuardedEnv, Sink;
    if ems != [] {
      SinkAlike(env, manifest, s, ems[0]);
      var (t, ok) := Sink(GuardedEnv(env, manifest), s, ems[0]);
      if ok {
        SinkShape(GuardedEnv(env, manifest), s, ems[0]);
        RunSinkAlike(env, manifest, t, ems[1..]);
      }
    }
  }

  lemma FeedDecoderAlike<S, D>(env: Env<S, D>, manifest: bytes, s: State<Traced<Guarded<S>>, D>, data: bytes)
    requires s.cursor < |s.entries| && env.ncz.Some?
    ensures Alike(s, FeedDecoder(GuardedEnv(env, manifest), s, data), FeedDecoder(env, Real(s), data))
  {
    hide RunSink, Fail, GuardedEnv;
    GuardedDecoder(env, manifest);
    var r := env.ncz.value.feed(s.nczUser, data);
    RunSinkAlike(env, manifest, s, r.emissions);
    var t := RunSink(GuardedEnv(env, manifest), s, r.emissions).0;
    FailAlike(env, manifest, t.(nczUser := r.user), BadNcz);
  }

  lemma RouteAlike<S, D>(env: Env<S, D>, manifest: bytes, s: State<Traced<Guarded<S>>, D>, data: bytes)
    requires s.cursor < |s.entries| && (IsCompressed(s.entries[s.cursor].kind) ==> env.ncz.Some?)
    ensures Alike(s, Route(GuardedEnv(env, manifest), s, data), Route(env, Real(s), data))
  {
    hide WriteContent, FeedDecoder, Fail, GuardedEnv;
    GuardedDecoder(env, manifest);
    var kind := s.entries[s.cursor].kind;
    if IsCompressed(kind) {
      FeedDecoderAlike(env, manifest, s, data);
    } else {
      WriteAlike(env, manifest, s, data);
      FailAlike(env, manifest, WriteContent(GuardedEnv(env, manifest), s, data).0, BackendError);
      FailAlike(env, manifest, s, BufferTooSmall);
    }
  }

  lemma OpenAlike<S, D>(env: Env<S, D>, manifest: bytes, s: State<Traced<Guarded<S>>, D>)
    requires s.cursor < |s.entries| && (s.nczActive ==> env.ncz.Some?)
    ensures Alike(s, OpenEntry(GuardedEnv(env, manifest), s), OpenEntry(env, Real(s)))
  {
    hide Fail, GuardedEnv;
    GuardedDecoder(env, manifest);
    ContentHooks(env, manifest, s.user, s.entries[s.cursor].contentId, s.entries[s.cursor].size, []);
    var e := s.entries[s.cursor];
    FailAlike(env, manifest, s, NoDecompressor);
    if IsCompressed(e.kind) {
      if !s.nczActive && env.ncz.Some? {
        FailAlike(env, manifest, s.(nczUser := env.ncz.value.begin(s.nczUser).user), BadNcz);
      }
    } else {
      var r := GuardedEnv(env, manifest).ops.contentBegin(s.user, e.contentId, e.size);
      FailAlike(env, manifest, s.(user := r.user), BackendError);
    }
  }

  lemma EndAlike<S, D>(env: Env<S, D>, manifest: bytes, s: State<Traced<Guarded<S>>, D>)
    requires s.cursor < |s.entries| && env.ncz.Some?
    ensures Alike(s, EndDecoder(GuardedEnv(env, manifest), s), EndDecoder(env, Real(s)))
  {
    hide Fail, GuardedEnv;
    GuardedDecoder(env, manifest);
    FailAlike(env, manifest, s.(nczUser := env.ncz.value.end(s.nczUser).user), BadNcz);
  }

  lemma CommitAlike<S, D>(env: Env<S, D>, manifest: bytes, s: State<Traced<Guarded<S>>, D>)
    ensures Alike(s, Commit(GuardedEnv(env, manifest), s), Commit(env, Real(s)))
  {
    hide Fail, GuardedEnv;
    ContentHooks(env, manifest, s.user, [], 0, []);
    FailAlike(env, manifest, s.(user := GuardedEnv(env, manifest).ops.contentCommit(s.user).user), BackendError);
  }

  lemma CloseAlike<S, D>(env: Env<S, D>, manifest: bytes, s: State<Traced<Guarded<S>>, D>)
    requires s.cursor < |s.entries| && (s.nczActive ==> env.ncz.Some?)
    ensures Alike(s, CloseEntry(GuardedEnv(env, manifest), s), CloseEntry(env, Real(s)))
  {
    hide EndDecoder, Commit, GuardedEnv;
    GuardedDecoder(env, manifest);
    var t := if s.nczActive then EndDecoder(GuardedEnv(env, manifest), s) else s;
    if s.nczActive {
      EndAlike(env, manifest, s);
    }
    if !t.stage.Failed? && t.contentOpen {
      CommitAlike(env, manifest, t);
    }
  }

  lemma ConsumeAlike<S, D>(env: Env<S, D>, manifest: bytes, s: State<Traced<Guarded<S>>, D>, chunk: bytes)
    requires s.cursor < |s.entries| && (IsCompressed(s.entries[s.cursor].kind) ==> env.ncz.Some?)
    ensures Alike(s, Consume(GuardedEnv(env, manifest), s, chunk), Consume(env, Real(s), chunk))
  {
    hide Route, Advance, GuardedEnv;
    GuardedDecoder(env, manifest);
    RouteAlike(env, manifest, s, chunk);
  }

  lemma EntryAlike<S, D>(env: Env<S, D>, manifest: bytes, s: State<Traced<Guarded<S>>, D>, chunk: bytes)
    requires s.stage.Streaming? && s.cursor < |s.entries| && (s.nczActive ==> env.ncz.Some?)
    ensures Alike(s, StepEntry(GuardedEnv(env, manifest), s, chunk), StepEntry(env, Real(s), chunk))
  {
    hide OpenEntry, Consume, CloseEntry, EntryEnd, GuardedEnv;
    GuardedDecoder(env, manifest);
    OpenAlike(env, manifest, s);
    var t := OpenEntry(GuardedEnv(env, manifest), s);
    if !t.stage.Failed? {
      ConsumeAlike(env, manifest, t, chunk);
      var u := Consume(GuardedEnv(env, manifest), t, chunk);
      if !u.stage.Failed? && u.streamPos >= EntryEnd(s.entries[s.cursor]) {
        CloseAlike(env, manifest, u);
      }
    }
  }

  lemma StreamingAlike<S, D>(env: Env<S, D>, manifest: bytes, s: State<Traced<Guarded<S>>, D>, data: bytes)
    requires s.stage.Streaming? && (s.nczActive ==> env.ncz.Some?)
    ensures var (t, used) := StepStreaming(GuardedEnv(env, manifest), s, data);
            var (r, same) := StepStreaming(env, Real(s), data);
            Alike(s, t, r) && used == same
  {
    hide StepEntry, EntryEnd, Advance, GuardedEnv;
    GuardedDecoder(env, manifest);
    if s.cursor < |s.entries| && s.streamPos >= s.entries[s.cursor].absOffset {
      EntryAlike(env, manifest, s, data[..Min(|data|, Sub64(EntryEnd(s.entries[s.cursor]), s.streamPos))]);
    }
  }

  lemma MagicAlike<S, D>(env: Env<S, D>, manifest: bytes, s: State<Traced<Guarded<S>>, D>, data: bytes)
    requires |s.header| < Pfs.HEADER_SIZE
    ensures var (t, used) := StepMagic(GuardedEnv(env, manifest), s, data);
            var (r, same) := StepMagic(env, Real(s), data);
            Alike(s, t, r) && used == same
  {
    hide Fail, Pfs.PeekHeaderSize, Advance, GuardedEnv;
    GuardedDecoder(env, manifest);
    var t := Absorb(s, data[..Min(|data|, Pfs.HEADER_SIZE - |s.header|)]);
    FailAlike(env, manifest, t, BadContainer);
    match Pfs.PeekHeaderSize(t.header)
    case Err(_) =>
    case Ok((_, size)) => FailAlike(env, manifest, t.(headerSize := size), HeaderTooLarge);
  }

  lemma WithAlike<S, D>(s: State<Traced<Guarded<S>>, D>, es: seq<Entry>)
    ensures WithEntries(s, es).user == s.user && WithEntries(Real(s), es) == Real(WithEntries(s, es))
  {
    hide LastMeta;
  }

  lemma TableAlike<S, D>(s: State<Traced<Guarded<S>>, D>, ctx: Pfs.Context)
    requires Pfs.ValidContext(ctx)
    ensures var (t, v) := BuildEntries(s, ctx);
            var (r, w) := BuildEntries(Real(s), ctx);
            t.user == s.user && r == Real(t) && v == w
  {
    hide Collect, SortByOffset, WithEntries, Pfs.ValidContext;
    WithAlike(s, Collect(ctx, 0, []).0);
  }

  lemma ContainerAlike<S, D>(env: Env<S, D>, manifest: bytes, s: State<Traced<Guarded<S>>, D>)
    ensures Alike(s, OpenContainer(GuardedEnv(env, manifest), s), OpenContainer(env, Real(s)))
  {
    hide Fail, Pfs.Parse, BuildEntries, GuardedEnv, Pfs.ValidContext;
    FailAlike(env, manifest, s, BadContainer);
    match Pfs.Parse(s.header)
    case Err(_) =>
    case Ok(ctx) =>
      TableAlike(s, ctx);
      var (b, v) := BuildEntries(s, ctx);
      if v.Some? {
        FailAlike(env, manifest, b, v.value);
      }
  }

  lemma HeaderAlike<S, D>(env: Env<S, D>, manifest: bytes, s: State<Traced<Guarded<S>>, D>, data: bytes)
    requires |s.header| <= s.headerSize
    ensures var (t, used) := StepHeader(GuardedEnv(env, manifest), s, data);
            var (r, same) := StepHeader(env, Real(s), data);
            Alike(s, t, r) && used == same
  {
    hide OpenContainer, Advance, GuardedEnv;
    ContainerAlike(env, manifest, Absorb(s, data[..Min(|data|, s.headerSize - |s.header|)]));
  }

  lemma RoundAlike<S, D>(env: Env<S, D>, manifest: bytes, s: State<Traced<Guarded<S>>, D>, data: bytes)
    requires Valid(GuardedEnv(env, manifest), s) && !s.stage.Failed?
    ensures Valid(env, Real(s))
    ensures var (t, used) := Iter(GuardedEnv(env, manifest), s, data);
            var (r, same) := Iter(env, Real(s), data);
            Alike(s, t, r) && used == same
  {
    hide StepMagic, StepHeader, StepStreaming, GuardedEnv, Advance;
    GuardedDecoder(env, manifest);
    match s.stage
    case Magic => MagicAlike(env, manifest, s, data);
    case Header => HeaderAlike(env, manifest, s, data);
    case Streaming => StreamingAlike(env, manifest, s, data);
    case Complete =>
  }

  lemma ValidAlike<S, D>(env: Env<S, D>, manifest: bytes, s: State<Traced<Guarded<S>>, D>)
    ensures Valid(GuardedEnv(env, manifest), s) <==> Valid(env, Real(s))
  {
  }

  lemma {:induction false} FeedAlike<S, D>(env: Env<S, D>, manifest: bytes, s: State<Traced<Guarded<S>>, D>, data: bytes)
    requires Valid(GuardedEnv(env, manifest), s)
    ensures Valid(env, Real(s)) && Alike(s, Feed(GuardedEnv(env, manifest), s, data), Feed(env, Real(s), data))
    decreases |data|, StageRank(s.stage), EntriesLeft(s)
  {
    hide Valid, Iter, GuardedEnv;
    ValidAlike(env, manifest, s);
    if data != [] && !s.stage.Failed? {
      IterProgress(GuardedEnv(env, manifest), s, data);
      RoundAlike(env, manifest, s, data);
      var (t, used) := Iter(GuardedEnv(env, manifest), s, data);
      FeedAlike(env, manifest, t, data[used..]);
    }
  }

  lemma {:induction false} ChunksAlike<S, D>(env: Env<S, D>, manifest: bytes, s: State<Traced<Guarded<S>>, D>, chunks: seq<bytes>)
    requires Valid(GuardedEnv(env, manifest), s)
    ensures Valid(env, Real(s)) && Alike(s, FeedAll(GuardedEnv(env, manifest), s, chunks), FeedAll(env, Real(s), chunks))
    decreases |chunks|
  {
    hide Valid, Feed, GuardedEnv;
    ValidAlike(env, manifest, s);
    if chunks != [] {
      FeedAlike(env, manifest, s, chunks[0]);
      ChunksAlike(env, manifest, Feed(GuardedEnv(env, manifest), s, chunks[0]), chunks[1..]);
    }
  }

  // ----- finishing -----

  lemma TicketAlike<S, D>(env: Env<S, D>, manifest: bytes, s: State<Traced<Guarded<S>>, D>)
    ensures Alike(s, ImportTicket(GuardedEnv(env, manifest), s), ImportTicket(env, Real(s)))
  {
    hide Fail, GuardedEnv;
    GuardedDecoder(env, manifest);
    FinishHooks(env, manifest, s.user, s.tik, s.cert, s.meta);
    FailAlike(env, manifest, s, BufferTooSmall);
    FailAlike(env, manifest, s.(user := GuardedEnv(env, manifest).ops.importTicket(s.user, s.tik, s.cert).user), BackendError);
  }

  lemma PublishAlike<S, D>(env: Env<S, D>, manifest: bytes, s: State<Traced<Guarded<S>>, D>)
    ensures Alike(s, Publish(GuardedEnv(env, manifest), s), Publish(env, Real(s)))
  {
    hide Fail, GuardedEnv;
    FinishHooks(env, manifest, s.user, [], [], s.meta);
    FinishHooks(env, manifest, GuardedEnv(env, manifest).ops.registerMeta(s.user, s.meta).user, [], [], s.meta);
    var r := GuardedEnv(env, manifest).ops.registerMeta(s.user, s.meta);
    FailAlike(env, manifest, s.(user := r.user), BackendError);
    FailAlike(env, manifest, s.(user := GuardedEnv(env, manifest).ops.pushRecord(r.user, s.meta).user), BackendError);
  }

  /** What is listed depends on no backend. */
  lemma BuildAlike<S, D>(env: Env<S, D>, manifest: bytes, s: State<Traced<Guarded<S>>, D>, m: Cnmt.Manifest)
    requires Cnmt.ValidManifest(m)
    ensures var (t, v) := BuildMeta(GuardedEnv(env, manifest), s, m);
            var (r, w) := BuildMeta(env, Real(s), m);
            t.user == s.user && r == Real(t) && v == w
  {
    hide AddContents, Cnmt.ValidManifest, GuardedEnv;
    GuardedDecoder(env, manifest);
  }

  lemma RegisterAlike<S, D>(env: Env<S, D>, manifest: bytes, s: State<Traced<Guarded<S>>, D>)
    ensures Alike(s, Register(GuardedEnv(env, manifest), s), Register(env, Real(s)))
  {
    hide Fail, Publish, Cnmt.Parse, BuildMeta, Cnmt.ValidManifest, GuardedEnv;
    GuardedDecoder(env, manifest);
    ReadHook(env, manifest, s.user, s.metaId);
    var r := GuardedEnv(env, manifest).ops.readCnmt(s.user, s.metaId);
    var t := s.(user := r.user);
    FailAlike(env, manifest, t, BackendError);
    FailAlike(env, manifest, t, BadCnmt);
    match Cnmt.Parse(manifest)
    case Err(_) =>
    case Ok(m) =>
      BuildAlike(env, manifest, t, m);
      var (b, v) := BuildMeta(GuardedEnv(env, manifest), t, m);
      if v.Some? {
        FailAlike(env, manifest, b, v.value);
      } else {
        PublishAlike(env, manifest, b);
      }
  }

  lemma FinishAlike<S, D>(env: Env<S, D>, manifest: bytes, s: State<Traced<Guarded<S>>, D>)
    ensures Alike(s, Finish(GuardedEnv(env, manifest), s), Finish(env, Real(s)))
  {
    hide Fail, ImportTicket, Register, GuardedEnv;
    FailAlike(env, manifest, s, NotFinished);
    TicketAlike(env, manifest, s);
    RegisterAlike(env, manifest, ImportTicket(GuardedEnv(env, manifest), s));
  }

  /** An install that went through honestly is the real backend's own. */
  lemma HonestIsReal<S, D>(env: Env<S, D>, manifest: bytes, user: S, d: D, chunks: seq<bytes>)
    ensures var g, s := GuardedEnv(env, manifest), Begin(GuardedEnv(env, manifest), Traced(Guarded(user, true), []), d);
            && Valid(g, s) && Valid(env, Begin(env, user, d))
            && (Honest(FeedAll(g, s, chunks)) ==> FeedAll(env, Begin(env, user, d), chunks) == Real(FeedAll(g, s, chunks)))
            && (Honest(Finish(g, FeedAll(g, s, chunks))) ==>
                  Finish(env, FeedAll(env, Begin(env, user, d), chunks)) == Real(Finish(g, FeedAll(g, s, chunks))))
  {
    hide FeedAll, Finish;
    var g, s := GuardedEnv(env, manifest), Begin(GuardedEnv(env, manifest), Traced(Guarded(user, true), []), d);
    ChunksAlike(env, manifest, s, chunks);
    FinishAlike(env, manifest, FeedAll(g, s, chunks));
  }
}
