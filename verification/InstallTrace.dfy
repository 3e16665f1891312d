/**
 * What the backend sees. Every hook call an install makes is recorded, and the record is read by an
 * automaton that knows the order the hooks may be called in. No run ever leaves that order.
 */
module InstallTrace {
  import opened Bytes
  import opened EntryNames
  import opened InstallSpec
  import Pfs = PartitionFs
  import Cnmt

  /** One hook call with its outcome. */
  datatype Event =
    | Began(id: bytes, size: u64, ok: bool)
    | Wrote(data: bytes, ok: bool)
    | Committed(ok: bool)
    | Discarded
    | ReadManifest(id: bytes, data: bytes, ok: bool)
    | ImportedTicket(tik: bytes, cert: bytes, ok: bool)
    | RegisteredMeta(meta: Meta, ok: bool)
    | PushedRecord(meta: Meta, ok: bool)
    | RolledBack(meta: Meta)

  datatype Traced<S> = Traced(inner: S, log: seq<Event>)

  function Logged<S>(r: Reply<S>, log: seq<Event>, e: Event): Reply<Traced<S>> {
    Reply(r.ok, Traced(r.user, log + [e]))
  }

  /** The same backend, writing down every call. */
  function TracedOps<S>(ops: BackendOps<S>): BackendOps<Traced<S>> {
    BackendOps(
      (u: Traced<S>, id, size) => var r := ops.contentBegin(u.inner, id, size); Logged(r, u.log, Began(id, size, r.ok)),
      (u: Traced<S>, data) => var r := ops.contentWrite(u.inner, data); Logged(r, u.log, Wrote(data, r.ok)),
      (u: Traced<S>) => var r := ops.contentCommit(u.inner); Logged(r, u.log, Committed(r.ok)),
      (u: Traced<S>) => Traced(ops.contentDiscard(u.inner), u.log + [Discarded]),
      (u: Traced<S>, id) => var r := ops.readCnmt(u.inner, id); ReadReply(r.ok, r.data, Traced(r.user, u.log + [ReadManifest(id, r.data, r.ok)])),
      (u: Traced<S>, tik, cert) => var r := ops.importTicket(u.inner, tik, cert); Logged(r, u.log, ImportedTicket(tik, cert, r.ok)),
      (u: Traced<S>, m) => var r := ops.registerMeta(u.inner, m); Logged(r, u.log, RegisteredMeta(m, r.ok)),
      (u: Traced<S>, m) => var r := ops.pushRecord(u.inner, m); Logged(r, u.log, PushedRecord(m, r.ok)),
      (u: Traced<S>, m) => Traced(ops.rollback(u.inner, m), u.log + [RolledBack(m)]))
  }

  function TracedEnv<S, D>(env: Env<S, D>): Env<Traced<S>, D> {
    Env(TracedOps(env.ops), env.ncz, env.target, env.rightsIdOf)
  }

  // ----- the order hooks may be called in -----

  datatype Placeholder = Placeholder(id: bytes, size: u64, data: bytes)

  /**
   * `open` is the placeholder being written, `stored` what has been committed, `over` that the backend has
   * been told to roll back, and `last` the latest call of the finishing sequence.
   */
  datatype Phase = Phase(open: Option<Placeholder>, stored: seq<Placeholder>, over: bool, last: Option<Event>, legal: bool)

  const FRESH: Phase := Phase(None, [], false, None, true)

  /** Whether a call is in order. */
  predicate Allowed(p: Phase, e: Event) {
    && !p.over
    && match e
       case Began(_, _, _) => p.open.None? && p.last.None?
       case Wrote(_, _) => p.open.Some?
       case Committed(_) => p.open.Some?
       case Discarded => p.open.Some?
       case RolledBack(_) => p.open.None?
       case ImportedTicket(_, _, _) => p.open.None?
       case ReadManifest(_, _, _) => p.open.None?
       case RegisteredMeta(_, _) => p.open.None? && p.last.Some? && p.last.value.ReadManifest? && p.last.value.ok
       case PushedRecord(m, _) => p.open.None? && p.last == Some(RegisteredMeta(m, true))
  }

  function Next(p: Phase, e: Event): Phase {
    var q := p.(legal := p.legal && Allowed(p, e));
    match e
    case Began(id, size, ok) => if ok then q.(open := Some(Placeholder(id, size, []))) else q
    case Wrote(data, ok) =>
      if ok && q.open.Some? then q.(open := Some(q.open.value.(data := q.open.value.data + data))) else q
    case Committed(ok) => if ok && q.open.Some? then q.(open := None, stored := q.stored + [q.open.value]) else q
    case Discarded => q.(open := None)
    case RolledBack(_) => q.(over := true)
    case _ => q.(last := Some(e))
  }

  function Run(log: seq<Event>): Phase {
    if log == [] then FRESH else Next(Run(log[..|log| - 1]), log[|log| - 1])
  }

  lemma RunStep(log: seq<Event>, e: Event)
    ensures Run(log + [e]) == Next(Run(log), e)
  {
    assert (log + [e])[..|log|] == log;
  }

  // ----- what every reachable installer satisfies -----

  /** The automaton and the installer's own flags agree. */
  ghost predicate InStep<S, D>(s: State<Traced<S>, D>) {
    var p := Run(s.user.log);
    && p.legal
    && p.over == s.stage.Failed?
    && (s.stage.Failed? ==> !s.contentOpen)
    && p.open.Some? == s.contentOpen
    && (s.contentOpen ==> s.stage.Streaming? && s.cursor < |s.entries|)
    && (p.last.Some? ==> s.stage.Complete? || s.stage.Failed?)
  }

  lemma StartsInStep<S, D>(env: Env<S, D>, user: S, d: D)
    ensures var s := Begin(TracedEnv(env), Traced(user, []), d); InStep(s) && Valid(TracedEnv(env), s)
  {
  }

  /** Failing discards the open placeholder, rolls back once, and that is the last call. */
  lemma FailInStep<S, D>(env: Env<S, D>, s: State<Traced<S>, D>, v: Verdict)
    requires InStep(s) && !s.stage.Failed?
    ensures var t := Fail(TracedEnv(env), s, v);
            && InStep(t) && t.stage == Failed(v)
            && t.user.log == s.user.log + (if s.contentOpen then [Discarded] else []) + [RolledBack(s.meta)]
  {
    hide Run;
    RunStep(s.user.log, Discarded);
    RunStep(s.user.log + [Discarded], RolledBack(s.meta));
    RunStep(s.user.log, RolledBack(s.meta));
  }

  lemma WriteInStep<S, D>(env: Env<S, D>, s: State<Traced<S>, D>, data: bytes)
    requires InStep(s) && s.contentOpen
    ensures var (t, ok) := WriteContent(TracedEnv(env), s, data);
            InStep(t) && t.contentOpen && t.stage == s.stage && t.cursor == s.cursor && t.entries == s.entries && t.meta == s.meta
            && t.nczActive == s.nczActive
  {
    hide Run, Advance;
    RunStep(s.user.log, Wrote(data, env.ops.contentWrite(s.user.inner, data).ok));
  }

  lemma BeginInStep<S, D>(env: Env<S, D>, s: State<Traced<S>, D>, id: bytes, size: u64)
    requires InStep(s) && !s.contentOpen && s.stage.Streaming? && s.cursor < |s.entries|
    ensures var r := TracedEnv(env).ops.contentBegin(s.user, id, size);
            InStep(s.(user := r.user, contentOpen := r.ok))
  {
    hide Run;
    RunStep(s.user.log, Began(id, size, env.ops.contentBegin(s.user.inner, id, size).ok));
  }

  lemma CommitInStep<S, D>(env: Env<S, D>, s: State<Traced<S>, D>)
    requires InStep(s) && s.contentOpen
    ensures var t := Commit(TracedEnv(env), s);
            InStep(t) && (t.stage.Failed? || (!t.contentOpen && t.stage == s.stage))
  {
    hide Run, Fail;
    RunStep(s.user.log, Committed(env.ops.contentCommit(s.user.inner).ok));
    var r := TracedEnv(env).ops.contentCommit(s.user);
    if !r.ok {
      FailInStep(env, s.(user := r.user), BackendError);
    }
  }

  lemma SinkInStep<S, D>(env: Env<S, D>, s: State<Traced<S>, D>, em: Emission)
    requires InStep(s) && s.stage.Streaming? && s.cursor < |s.entries|
    ensures var (t, ok) := Sink(TracedEnv(env), s, em); InStep(t) && t.stage == s.stage && t.cursor == s.cursor && t.entries == s.entries
  {
    hide InStep, WriteContent, TracedEnv;
    if !s.contentOpen && em.size != 0 {
      BeginInStep(env, s, s.entries[s.cursor].contentId, em.size);
    }
    var (t, open) := OpenForSink(TracedEnv(env), s, em.size);
    if open {
      WriteInStep(env, t, em.data);
    }
  }

  lemma {:induction false} RunSinkInStep<S, D>(env: Env<S, D>, s: State<Traced<S>, D>, ems: seq<Emission>)
    requires InStep(s) && s.stage.Streaming? && s.cursor < |s.entries|
    ensures InStep(RunSink(TracedEnv(env), s, ems).0)
    decreases |ems|
  {
    hide InStep, Sink, TracedEnv;
    if ems != [] {
      SinkInStep(env, s, ems[0]);
      var (t, ok) := Sink(TracedEnv(env), s, ems[0]);
      if ok {
        RunSinkInStep(env, t, ems[1..]);
      }
    }
  }

  lemma DecoderInStep<S, D>(env: Env<S, D>, s: State<Traced<S>, D>, d: D, active: bool)
    requires InStep(s)
    ensures InStep(s.(nczUser := d, nczActive := active)) && InStep(s.(nczUser := d))
  {
  }

  lemma FeedDecoderInStep<S, D>(env: Env<S, D>, s: State<Traced<S>, D>, data: bytes)
    requires InStep(s) && s.stage.Streaming? && s.cursor < |s.entries| && env.ncz.Some?
    ensures InStep(FeedDecoder(TracedEnv(env), s, data))
  {
    hide InStep, RunSink, Fail, TracedOps;
    var r := env.ncz.value.feed(s.nczUser, data);
    RunSinkInStep(env, s, r.emissions);
    RunSinkShape(TracedEnv(env), s, r.emissions);
    var t := RunSink(TracedEnv(env), s, r.emissions).0;
    DecoderInStep(env, t, r.user, t.nczActive);
    FailInStep(env, t.(nczUser := r.user), BadNcz);
  }

  lemma RouteInStep<S, D>(env: Env<S, D>, s: State<Traced<S>, D>, data: bytes)
    requires InStep(s) && s.stage.Streaming? && s.cursor < |s.entries|
    requires IsCompressed(s.entries[s.cursor].kind) ==> env.ncz.Some?
    requires IsContent(s.entries[s.cursor].kind) && !IsCompressed(s.entries[s.cursor].kind) ==> s.contentOpen
    ensures InStep(Route(TracedEnv(env), s, data))
  {
    hide InStep, WriteContent, FeedDecoder, Fail, TracedOps;
    var kind := s.entries[s.cursor].kind;
    if IsCompressed(kind) {
      FeedDecoderInStep(env, s, data);
    } else if kind.Nca? || kind.MetaNca? {
      WriteInStep(env, s, data);
      FailInStep(env, WriteContent(TracedEnv(env), s, data).0, BackendError);
    } else {
      FailInStep(env, s, BufferTooSmall);
      BuffersInStep(s, s.tik + data, s.cert);
      BuffersInStep(s, s.tik, s.cert + data);
    }
  }

  lemma BuffersInStep<S, D>(s: State<Traced<S>, D>, tik: bytes, cert: bytes)
    requires InStep(s)
    ensures InStep(s.(tik := tik)) && InStep(s.(cert := cert))
  {
  }

  lemma OpenInStep<S, D>(env: Env<S, D>, s: State<Traced<S>, D>)
    requires InStep(s) && s.stage.Streaming? && s.cursor < |s.entries| && (s.nczActive ==> env.ncz.Some?)
    ensures var t := OpenEntry(TracedEnv(env), s);
            InStep(t) && (IsContent(s.entries[s.cursor].kind) && !IsCompressed(s.entries[s.cursor].kind) && !t.stage.Failed? ==> t.contentOpen)
  {
    hide InStep, Fail, TracedOps;
    var e := s.entries[s.cursor];
    FailInStep(env, s, NoDecompressor);
    if IsCompressed(e.kind) {
      if !s.nczActive && env.ncz.Some? {
        var r := env.ncz.value.begin(s.nczUser);
        DecoderInStep(env, s, r.user, true);
        FailInStep(env, s.(nczUser := r.user), BadNcz);
      }
    } else if !s.contentOpen && IsContent(e.kind) {
      BeginInStep(env, s, e.contentId, e.size);
      var r := TracedEnv(env).ops.contentBegin(s.user, e.contentId, e.size);
      var t := s.(user := r.user);
      if !r.ok {
        assert t == s.(user := r.user, contentOpen := r.ok);
        FailInStep(env, t, BackendError);
      }
    }
  }

  lemma EndInStep<S, D>(env: Env<S, D>, s: State<Traced<S>, D>)
    requires InStep(s) && s.stage.Streaming? && s.cursor < |s.entries| && env.ncz.Some?
    ensures InStep(EndDecoder(TracedEnv(env), s))
  {
    hide Fail, Run, TracedOps;
    var r := env.ncz.value.end(s.nczUser);
    FailInStep(env, s.(nczUser := r.user), BadNcz);
  }

  lemma CloseInStep<S, D>(env: Env<S, D>, s: State<Traced<S>, D>)
    requires InStep(s) && s.stage.Streaming? && s.cursor < |s.entries| && (s.nczActive ==> env.ncz.Some?)
    ensures InStep(CloseEntry(TracedEnv(env), s))
  {
    hide InStep, EndDecoder, Commit, TracedOps;
    var t := if s.nczActive then EndDecoder(TracedEnv(env), s) else s;
    if s.nczActive {
      EndInStep(env, s);
    }
    if !t.stage.Failed? {
      if s.nczActive {
        EndStage(env, s);
      }
      if t.contentOpen {
        CommitInStep(env, t);
      }
      var u := if t.contentOpen then Commit(TracedEnv(env), t) else t;
      if !u.stage.Failed? {
        MovesInStep(u);
      }
    }
  }

  lemma EndStage<S, D>(env: Env<S, D>, s: State<Traced<S>, D>)
    requires s.cursor < |s.entries| && env.ncz.Some?
    ensures var t := EndDecoder(TracedEnv(env), s); t.stage.Failed? || t.stage == s.stage
  {
  }

  /** Moving on between entries keeps step. */
  lemma MovesInStep<S, D>(s: State<Traced<S>, D>)
    requires InStep(s) && s.stage.Streaming? && !s.contentOpen
    ensures forall c, g: Stage | g.Streaming? || g.Complete? :: InStep(s.(cursor := c, stage := g))
    ensures forall p :: InStep(s.(streamPos := p))
  {
    hide Run;
  }

  lemma PosInStep<S, D>(s: State<Traced<S>, D>, pos: u64)
    requires InStep(s)
    ensures InStep(s.(streamPos := pos))
  {
  }

  lemma EntryInStep<S, D>(env: Env<S, D>, s: State<Traced<S>, D>, chunk: bytes)
    requires InStep(s) && s.stage.Streaming? && s.cursor < |s.entries| && (s.nczActive ==> env.ncz.Some?)
    ensures InStep(StepEntry(TracedEnv(env), s, chunk))
  {
    hide InStep, OpenEntry, Route, CloseEntry, EntryEnd, TracedOps, Advance;
    OpenInStep(env, s);
    OpenShape(TracedEnv(env), s);
    var t := OpenEntry(TracedEnv(env), s);
    if !t.stage.Failed? {
      if chunk != [] {
        RouteInStep(env, t, chunk);
        RouteShape(TracedEnv(env), t, chunk);
        var u := Route(TracedEnv(env), t, chunk);
        PosInStep(u, Advance(u.streamPos, |chunk|));
      }
      var u := Consume(TracedEnv(env), t, chunk);
      if !u.stage.Failed? && u.streamPos >= EntryEnd(s.entries[s.cursor]) {
        CloseInStep(env, u);
      }
    }
  }

  lemma StreamingInStep<S, D>(env: Env<S, D>, s: State<Traced<S>, D>, data: bytes)
    requires InStep(s) && Valid(TracedEnv(env), s) && s.stage.Streaming?
    ensures InStep(StepStreaming(TracedEnv(env), s, data).0)
  {
    hide StepEntry, EntryEnd, TracedOps, Advance, Run;
    if s.cursor < |s.entries| && s.streamPos >= s.entries[s.cursor].absOffset {
      var e := s.entries[s.cursor];
      EntryInStep(env, s, data[..Min(|data|, Sub64(EntryEnd(e), s.streamPos))]);
    }
  }

  /** The header stages touch no content. */
  lemma HeaderFieldsInStep<S, D>(s: State<Traced<S>, D>, t: State<Traced<S>, D>)
    requires InStep(s) && (s.stage.Magic? || s.stage.Header?)
    requires t.user == s.user && t.contentOpen == s.contentOpen && (t.stage.Magic? || t.stage.Header? || t.stage.Streaming?)
    ensures InStep(t)
  {
    hide Run;
  }

  lemma MagicInStep<S, D>(env: Env<S, D>, s: State<Traced<S>, D>, data: bytes)
    requires InStep(s) && Valid(TracedEnv(env), s) && s.stage.Magic?
    ensures InStep(StepMagic(TracedEnv(env), s, data).0)
  {
    hide InStep, Fail, Pfs.PeekHeaderSize, TracedOps, Advance;
    var t := Absorb(s, data[..Min(|data|, Pfs.HEADER_SIZE - |s.header|)]);
    HeaderFieldsInStep(s, t);
    FailInStep(env, t, BadContainer);
    match Pfs.PeekHeaderSize(t.header)
    case Err(_) =>
    case Ok((_, size)) =>
      HeaderFieldsInStep(s, t.(headerSize := size));
      HeaderFieldsInStep(s, t.(headerSize := size, stage := Header));
      FailInStep(env, t.(headerSize := size), HeaderTooLarge);
  }

  lemma HeaderInStep<S, D>(env: Env<S, D>, s: State<Traced<S>, D>, data: bytes)
    requires InStep(s) && Valid(TracedEnv(env), s) && s.stage.Header?
    ensures InStep(StepHeader(TracedEnv(env), s, data).0)
  {
    hide InStep, Fail, Pfs.Parse, BuildEntries, TracedOps, Advance;
    var t := Absorb(s, data[..Min(|data|, s.headerSize - |s.header|)]);
    HeaderFieldsInStep(s, t);
    FailInStep(env, t, BadContainer);
    match Pfs.Parse(t.header)
    case Err(_) =>
    case Ok(ctx) =>
      BuildShape(t, ctx);
      var (b, v) := BuildEntries(t, ctx);
      HeaderFieldsInStep(s, b);
      HeaderFieldsInStep(s, b.(stage := Streaming, cursor := 0));
      if v.Some? {
        FailInStep(env, b, v.value);
      }
  }

  /** Every feed, of anything, keeps the hooks in order. */
  lemma {:induction false} FeedInStep<S, D>(env: Env<S, D>, s: State<Traced<S>, D>, data: bytes)
    requires InStep(s) && Valid(TracedEnv(env), s)
    ensures InStep(Feed(TracedEnv(env), s, data))
    decreases |data|, StageRank(s.stage), EntriesLeft(s)
  {
    hide InStep, Iter, TracedEnv, Valid;
    if data != [] && !s.stage.Failed? {
      RoundInStep(env, s, data);
      IterProgress(TracedEnv(env), s, data);
      var (t, used) := Iter(TracedEnv(env), s, data);
      FeedInStep(env, t, data[used..]);
    }
  }

  lemma RoundInStep<S, D>(env: Env<S, D>, s: State<Traced<S>, D>, data: bytes)
    requires InStep(s) && Valid(TracedEnv(env), s) && !s.stage.Failed?
    ensures InStep(Iter(TracedEnv(env), s, data).0)
  {
    hide InStep, StepMagic, StepHeader, StepStreaming, TracedEnv, Valid, Advance;
    match s.stage
    case Magic => MagicInStep(env, s, data);
    case Header => HeaderInStep(env, s, data);
    case Streaming => StreamingInStep(env, s, data);
    case Complete => PosInStep(s, Advance(s.streamPos, |data|));
  }

  // ----- finishing -----

  lemma CallInStep<S, D>(s: State<Traced<S>, D>, e: Event, inner: S, m: Meta)
    requires InStep(s) && s.stage.Complete?
    requires match e
             case ImportedTicket(_, _, _) => true
             case ReadManifest(_, _, _) => true
             case RegisteredMeta(_, _) => Run(s.user.log).last.Some? && Run(s.user.log).last.value.ReadManifest? && Run(s.user.log).last.value.ok
             case PushedRecord(pm, _) => Run(s.user.log).last == Some(RegisteredMeta(pm, true))
             case _ => false
    ensures var t := s.(user := Traced(inner, s.user.log + [e]), meta := m); InStep(t) && Run(t.user.log).last == Some(e)
  {
    hide Run;
    RunStep(s.user.log, e);
  }

  lemma TicketInStep<S, D>(env: Env<S, D>, s: State<Traced<S>, D>)
    requires InStep(s) && s.stage.Complete?
    ensures var t := ImportTicket(TracedEnv(env), s); InStep(t) && (t.stage.Failed? || t.stage.Complete?)
  {
    hide InStep, Fail;
    FailInStep(env, s, BufferTooSmall);
    var r := env.ops.importTicket(s.user.inner, s.tik, s.cert);
    var e := ImportedTicket(s.tik, s.cert, r.ok);
    CallInStep(s, e, r.user, s.meta);
    var t := s.(user := Traced(r.user, s.user.log + [e]));
    FailInStep(env, t, BackendError);
    var rights := env.rightsIdOf(s.tik);
    if rights.Some? {
      CallInStep(s, e, r.user, s.meta.(hasTicket := true, rightsId := rights.value));
    }
  }

  lemma PublishInStep<S, D>(env: Env<S, D>, s: State<Traced<S>, D>)
    requires InStep(s) && s.stage.Complete?
    requires Run(s.user.log).last.Some? && Run(s.user.log).last.value.ReadManifest? && Run(s.user.log).last.value.ok
    ensures InStep(Publish(TracedEnv(env), s))
  {
    hide InStep, Fail, Run;
    var r := env.ops.registerMeta(s.user.inner, s.meta);
    var e := RegisteredMeta(s.meta, r.ok);
    CallInStep(s, e, r.user, s.meta);
    var t := s.(user := Traced(r.user, s.user.log + [e]));
    if !r.ok {
      FailInStep(env, t, BackendError);
    } else {
      var p := env.ops.pushRecord(t.user.inner, t.meta);
      var f := PushedRecord(t.meta, p.ok);
      CallInStep(t, f, p.user, t.meta);
      if !p.ok {
        FailInStep(env, t.(user := Traced(p.user, t.user.log + [f])), BackendError);
      }
    }
  }

  lemma RegisterInStep<S, D>(env: Env<S, D>, s: State<Traced<S>, D>)
    requires InStep(s) && s.stage.Complete?
    ensures InStep(Register(TracedEnv(env), s))
  {
    hide InStep, Fail, Run, BuildMeta, Publish, Cnmt.Parse;
    var r := env.ops.readCnmt(s.user.inner, s.metaId);
    var e := ReadManifest(s.metaId, r.data, r.ok);
    CallInStep(s, e, r.user, s.meta);
    var t := s.(user := Traced(r.user, s.user.log + [e]));
    if !r.ok {
      FailInStep(env, t, BackendError);
    } else {
      match Cnmt.Parse(r.data)
      case Err(_) => FailInStep(env, t, BadCnmt);
      case Ok(m) =>
        BuildMetaShape(TracedEnv(env), t, m);
        var (b, v) := BuildMeta(TracedEnv(env), t, m);
        MetaInStep(t, b.meta);
        if v.Some? {
          FailInStep(env, b, v.value);
        } else {
          PublishInStep(env, b);
        }
    }
  }

  lemma MetaInStep<S, D>(s: State<Traced<S>, D>, m: Meta)
    requires InStep(s)
    ensures InStep(s.(meta := m))
  {
  }

  lemma BuildMetaShape<S, D>(env: Env<S, D>, s: State<S, D>, m: Cnmt.Manifest)
    requires Cnmt.ValidManifest(m)
    ensures var t := BuildMeta(env, s, m).0; t == s.(meta := t.meta)
  {
    hide AddContents, Cnmt.ValidManifest, Cnmt.ExtHeader;
  }

  lemma FinishInStep<S, D>(env: Env<S, D>, s: State<Traced<S>, D>)
    requires InStep(s)
    ensures InStep(Finish(TracedEnv(env), s))
  {
    hide InStep, Fail, ImportTicket, Register, TracedEnv;
    if !s.stage.Failed? {
      FailInStep(env, s, NotFinished);
      if s.stage.Complete? {
        TicketInStep(env, s);
        var t := ImportTicket(TracedEnv(env), s);
        if !t.stage.Failed? {
          RegisterInStep(env, t);
        }
      }
    }
  }

  // ----- whole runs -----

  datatype Call = FeedCall(data: bytes) | FinishCall | AbortCall

  /** What one call of the interface does. */
  function Apply<S, D>(env: Env<S, D>, s: State<S, D>, c: Call): (t: State<S, D>)
    requires Valid(env, s)
    ensures Valid(env, t)
  {
    match c
    case FeedCall(data) => Feed(env, s, data)
    case FinishCall =>
      FinishKeepsValid(env, s);
      Finish(env, s)
    case AbortCall => Abort(env, s)
  }

  lemma FinishKeepsValid<S, D>(env: Env<S, D>, s: State<S, D>)
    requires Valid(env, s)
    ensures Valid(env, Finish(env, s))
  {
    hide Fail, ImportTicket, Register;
    if !s.stage.Failed? {
      FailShape(env, s, NotFinished);
      if s.stage.Complete? {
        TicketKeeps(env, s);
        var t := ImportTicket(env, s);
        if !t.stage.Failed? {
          RegisterKeeps(env, t);
        }
      }
    }
  }

  lemma TicketKeeps<S, D>(env: Env<S, D>, s: State<S, D>)
    requires s.stage.Complete?
    ensures var t := ImportTicket(env, s);
            t.nczActive == s.nczActive && (t.stage.Failed? || t.stage.Complete?)
            && t.entries == s.entries && t.cursor == s.cursor && t.metaId == s.metaId && t.metaSize == s.metaSize
  {
    hide Fail;
    FailShape(env, s, BufferTooSmall);
    FailShape(env, s.(user := env.ops.importTicket(s.user, s.tik, s.cert).user), BackendError);
  }

  lemma RegisterKeeps<S, D>(env: Env<S, D>, s: State<S, D>)
    requires s.stage.Complete?
    ensures var t := Register(env, s); t.nczActive == s.nczActive && (t.stage.Failed? || t.stage.Complete?)
  {
    hide BuildMeta, Cnmt.Parse;
    var r := env.ops.readCnmt(s.user, s.metaId);
    var t := s.(user := r.user);
    match Cnmt.Parse(r.data)
    case Err(_) =>
    case Ok(m) => BuildMetaShape(env, t, m);
  }

  function ApplyAll<S, D>(env: Env<S, D>, s: State<S, D>, calls: seq<Call>): (t: State<S, D>)
    requires Valid(env, s)
    decreases |calls|
  {
    if calls == [] then s else ApplyAll(env, Apply(env, s, calls[0]), calls[1..])
  }

  lemma {:induction false} CallsInStep<S, D>(env: Env<S, D>, s: State<Traced<S>, D>, calls: seq<Call>)
    requires InStep(s) && Valid(TracedEnv(env), s)
    ensures InStep(ApplyAll(TracedEnv(env), s, calls))
    decreases |calls|
  {
    hide InStep, Feed, Finish, Fail, TracedEnv, Valid;
    if calls != [] {
      match calls[0] {
        case FeedCall(data) => FeedInStep(env, s, data);
        case FinishCall => FinishInStep(env, s);
        case AbortCall =>
          if !s.stage.Failed? {
            FailInStep(env, s, Aborted);
          }
      }
      CallsInStep(env, Apply(TracedEnv(env), s, calls[0]), calls[1..]);
    }
  }

  /**
   * Over every run of the interface, whatever the bytes, the backend and the decoder do: the hooks are
   * called in order, a placeholder is open exactly while the installer says so, and the backend has been
   * rolled back exactly when the install has failed.
   */
  lemma EveryRunIsInOrder<S, D>(env: Env<S, D>, user: S, d: D, calls: seq<Call>)
    ensures var s := Begin(TracedEnv(env), Traced(user, []), d);
            && Valid(TracedEnv(env), s)
            && var t := ApplyAll(TracedEnv(env), s, calls);
               var p := Run(t.user.log);
               p.legal && p.open.Some? == t.contentOpen && p.over == t.stage.Failed?
  {
    StartsInStep(env, user, d);
    CallsInStep(env, Begin(TracedEnv(env), Traced(user, []), d), calls);
    hide Run, Begin, ApplyAll;
  }

  // ----- what a legal record looks like, without the automaton -----

  /** After a rollback no call is in order any more. */
  lemma {:induction false} AfterRollback(log: seq<Event>, i: nat)
    requires i < |log| && log[i].RolledBack?
    ensures Run(log).over && (i < |log| - 1 ==> !Run(log).legal)
    decreases |log|
  {
    var cut := log[..|log| - 1];
    if i < |cut| {
      assert cut[i] == log[i];
      AfterRollback(cut, i);
    }
  }

  /** A rollback is the last thing a backend ever sees, so there is at most one. */
  lemma RollbackIsLast(log: seq<Event>, i: nat)
    requires Run(log).legal && i < |log| && log[i].RolledBack?
    ensures i == |log| - 1
  {
    AfterRollback(log, i);
  }

  /** A record is pushed directly after the very same record has been registered. */
  lemma {:induction false} PushFollowsRegister(log: seq<Event>, i: nat)
    requires Run(log).legal && i < |log| && log[i].PushedRecord?
    ensures i > 0 && log[i - 1] == RegisteredMeta(log[i].meta, true)
    decreases |log|
  {
    var cut := log[..|log| - 1];
    hide Run;
    assert Run(cut).legal && Allowed(Run(cut), log[|log| - 1]) by { LegalStep(log); }
    if i < |cut| {
      PushFollowsRegister(cut, i);
    } else {
      LastIsLatest(cut);
    }
  }

  lemma NextIsLegal(p: Phase, e: Event)
    ensures Next(p, e).legal <==> p.legal && Allowed(p, e)
  {
    hide Allowed;
  }

  lemma LegalStep(log: seq<Event>)
    requires Run(log).legal && log != []
    ensures Run(log[..|log| - 1]).legal && Allowed(Run(log[..|log| - 1]), log[|log| - 1])
  {
    hide Allowed, Next;
    NextIsLegal(Run(log[..|log| - 1]), log[|log| - 1]);
  }

  /** Once the finishing calls have begun nothing else is called between them. */
  lemma {:induction false} LastIsLatest(log: seq<Event>)
    requires Run(log).legal && Run(log).last.Some? && !Run(log).over
    ensures Run(log).open.None? && log != [] && log[|log| - 1] == Run(log).last.value
    decreases |log|
  {
    var cut := log[..|log| - 1];
    LegalStep(log);
    if Run(cut).last.Some? {
      LastIsLatest(cut);
    }
  }

  // ----- aborting -----

  /** A record that has been rolled back ends with the rollback. */
  lemma OverEndsInRollback(log: seq<Event>)
    requires Run(log).legal && Run(log).over
    ensures log != [] && log[|log| - 1].RolledBack?
  {
    LegalStep(log);
  }

  /**
   * Aborting ends every install: nothing stays open, the backend has been rolled back once in all, as the last
   * call it will see, and aborting again changes nothing.
   */
  lemma AbortEnds<S, D>(env: Env<S, D>, s: State<Traced<S>, D>)
    requires InStep(s)
    ensures var t := Abort(TracedEnv(env), s);
            && InStep(t) && t.stage.Failed? && !t.contentOpen && Abort(TracedEnv(env), t) == t
            && forall i :: 0 <= i < |t.user.log| ==> (t.user.log[i].RolledBack? <==> i == |t.user.log| - 1)
  {
    hide Run, TracedOps, Fail;
    if !s.stage.Failed? {
      FailInStep(env, s, Aborted);
    }
    var log := Abort(TracedEnv(env), s).user.log;
    OverEndsInRollback(log);
    forall i | 0 <= i < |log| && log[i].RolledBack?
      ensures i == |log| - 1
    {
      RollbackIsLast(log, i);
    }
  }
}
