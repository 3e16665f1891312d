/**
 * From the bytes of a container to the console: what an install leaves in the content storage, the meta database and
 * the application records, when every call works.
 */
module ConsoleInstall {
  import opened Bytes
  import opened EntryNames
  import opened InstallSpec
  import opened InstallTrace
  import opened ChunkIndependence
  import opened Completion
  import opened TitleInstall
  import opened FinishRecord
  import opened CnmtFormat
  import opened Services
  import opened Horizon
  import opened AppRecords
  import opened HonestRuns
  import HookInvariant
  import HorizonSafety
  import Cnmt
  import Nsp = NspBuilder
  import VirtualNsp

  /** Every call works and every byte can be written. */
  ghost predicate AllWorks(out: Outcomes) {
    (forall call, n :: out.works(call, n)) && forall n, k :: out.takes(n, k)
  }

  // ----- the storage mirrors the calls -----

  function Padded(p: Placeholder): bytes {
    if |p.data| <= p.size then p.data + Zeros(p.size - |p.data|) else p.data
  }

  /** The storage when these placeholders have been registered, one after another, each under its id. */
  function Stored(before: map<bytes, bytes>, ps: seq<Placeholder>): map<bytes, bytes> {
    if ps == [] then before else Stored(before, ps[..|ps| - 1])[ps[|ps| - 1].id := Padded(ps[|ps| - 1])]
  }

  lemma StoredMore(before: map<bytes, bytes>, ps: seq<Placeholder>, p: Placeholder)
    ensures Stored(before, ps + [p]) == Stored(before, ps)[p.id := Padded(p)]
  {
    assert (ps + [p])[..|ps|] == ps;
  }

  /** No placeholder has been given more than its declared size. */
  ghost predicate Fitting(p: Phase) {
    && (p.open.Some? ==> |p.open.value.data| <= p.open.value.size)
    && forall i :: 0 <= i < |p.stored| ==> |p.stored[i].data| <= p.stored[i].size
  }

  /** Only contents have been streamed so far, and every call has worked. */
  ghost predicate OnlyContents(log: seq<Event>) {
    forall i :: 0 <= i < |log| ==> (log[i].Began? && log[i].ok) || (log[i].Wrote? && log[i].ok) || (log[i].Committed? && log[i].ok)
  }

  ghost predicate Mirrors(c0: Console, storageId: u8, h: Horizon, p: Phase) {
    && h.storageId == storageId && h.console.out == c0.out
    && h.console.contents == Stored(c0.contents, p.stored)
    && h.console.staged == c0.staged && h.console.persisted == c0.persisted && h.console.records == c0.records
    && (p.open.Some? ==> h.contentId == p.open.value.id && HorizonSafety.Holds(h, p.open.value.data, p.open.value.size))
  }

  /** A run in order that never overfills a placeholder has been honest, and the console mirrors it. */
  ghost predicate Agrees(c0: Console, storageId: u8, u: Traced<Guarded<Horizon>>) {
    OnlyContents(u.log) && Run(u.log).legal && Fitting(Run(u.log)) ==> u.inner.honest && Mirrors(c0, storageId, u.inner.inner, Run(u.log))
  }

  lemma BeginMirrors(c0: Console, storageId: u8, h: Horizon, p: Phase, id: bytes, size: u64)
    requires AllWorks(c0.out) && Mirrors(c0, storageId, h, p)
    ensures var r := ContentBegin(h, id, size); r.ok && Mirrors(c0, storageId, r.user, p.(open := Some(Placeholder(id, size, []))))
  {
    hide Stored, Zeros;
    var r := ContentBegin(h, id, size);
    assert r.ok;
    HorizonSafety.BeginStores(h, id, size);
    HorizonSafety.BeginHolds(h, id, size);
  }

  lemma WriteMirrors(c0: Console, storageId: u8, h: Horizon, p: Phase, data: bytes)
    requires AllWorks(c0.out) && Mirrors(c0, storageId, h, p) && p.open.Some? && |p.open.value.data + data| <= p.open.value.size
    ensures var r := ContentWrite(h, data); r.ok && Mirrors(c0, storageId, r.user, p.(open := Some(p.open.value.(data := p.open.value.data + data))))
  {
    hide Stored, Advance, Overwrite;
    assert ContentWrite(h, data).ok;
    HorizonSafety.WriteArrives(h, p.open.value.data, p.open.value.size, data);
  }

  lemma CommitMirrors(c0: Console, storageId: u8, h: Horizon, p: Phase)
    requires AllWorks(c0.out) && Mirrors(c0, storageId, h, p) && p.open.Some?
    ensures var r := ContentCommit(h); r.ok && Mirrors(c0, storageId, r.user, p.(open := None, stored := p.stored + [p.open.value]))
  {
    hide Stored, Zeros;
    StoredMore(c0.contents, p.stored, p.open.value);
    HorizonSafety.ClearedPlaceholders(h);
    HorizonSafety.ClearedStores(h);
    assert h.contentId !in Cleared(h).contents;
    var r := ContentCommit(h);
    assert r.ok;
    assert r.user.console.contents == Cleared(h).contents[h.contentId := h.console.placeholders[h.placeholder]];
    assert Cleared(h).contents[h.contentId := h.console.placeholders[h.placeholder]] == h.console.contents[h.contentId := h.console.placeholders[h.placeholder]];
  }

  lemma OnlyBefore(log: seq<Event>, e: Event)
    requires OnlyContents(log + [e])
    ensures OnlyContents(log)
  {
    forall i | 0 <= i < |log|
      ensures (log + [e])[i] == log[i]
    {
    }
  }

  lemma FittingBefore(p: Phase, e: Event)
    requires (e.Began? || e.Wrote? || e.Committed?) && e.ok && Next(p, e).legal && Fitting(Next(p, e))
    ensures p.legal && Allowed(p, e) && Fitting(p)
  {
    var q := Next(p, e);
    if e.Committed? {
      assert q.stored[|p.stored|] == p.open.value;
      assert forall i :: 0 <= i < |p.stored| ==> q.stored[i] == p.stored[i];
    }
  }

  /** One more call of a content hook. */
  lemma CallAgrees<D>(env: Env<Horizon, D>, manifest: bytes, c0: Console, storageId: u8, u: Traced<Guarded<Horizon>>,
                      e: Event, r: Reply<Horizon>, t: Traced<Guarded<Horizon>>)
    requires env.ops == HorizonOps() && AllWorks(c0.out) && Agrees(c0, storageId, u)
    requires match e
             case Began(id, size, ok) => ok && r == ContentBegin(u.inner.inner, id, size)
             case Wrote(data, ok) => ok && r == ContentWrite(u.inner.inner, data)
             case Committed(ok) => ok && r == ContentCommit(u.inner.inner)
             case _ => false
    requires t == Traced(HonestRuns.Kept(u.inner, r), u.log + [e])
    ensures Agrees(c0, storageId, t)
  {
    hide Run, Mirrors, ContentBegin, ContentWrite, ContentCommit, Allowed;
    if OnlyContents(t.log) && Run(t.log).legal && Fitting(Run(t.log)) {
      RunStep(u.log, e);
      OnlyBefore(u.log, e);
      var p, h := Run(u.log), u.inner.inner;
      FittingBefore(p, e);
      match e
      case Began(id, size, _) =>
        AllowedOpen(p, e);
        BeginMirrors(c0, storageId, h, p, id, size);
        SameMirror(c0, storageId, r.user, p.(open := Some(Placeholder(id, size, []))), Next(p, e));
      case Wrote(data, _) =>
        AllowedOpen(p, e);
        WriteMirrors(c0, storageId, h, p, data);
        SameMirror(c0, storageId, r.user, p.(open := Some(p.open.value.(data := p.open.value.data + data))), Next(p, e));
      case Committed(_) =>
        AllowedOpen(p, e);
        CommitMirrors(c0, storageId, h, p);
        SameMirror(c0, storageId, r.user, p.(open := None, stored := p.stored + [p.open.value]), Next(p, e));
    }
  }

  lemma AllowedOpen(p: Phase, e: Event)
    requires Allowed(p, e)
    ensures e.Began? ==> p.open.None?
    ensures e.Wrote? || e.Committed? ==> p.open.Some?
  {
  }

  lemma SameMirror(c0: Console, storageId: u8, h: Horizon, p: Phase, q: Phase)
    requires Mirrors(c0, storageId, h, p) && p.open == q.open && p.stored == q.stored
    ensures Mirrors(c0, storageId, h, q)
  {
  }

  lemma HooksAgree<D>(env: Env<Horizon, D>, manifest: bytes, c0: Console, storageId: u8)
    requires env.ops == HorizonOps() && AllWorks(c0.out)
    ensures HookInvariant.Kept(GuardedEnv(env, manifest).ops, (u: Traced<Guarded<Horizon>>) => Agrees(c0, storageId, u))
  {
    hide Agrees, AllWorks, GuardedEnv, ContentBegin, ContentWrite, ContentCommit;
    var ops := GuardedEnv(env, manifest).ops;
    forall u: Traced<Guarded<Horizon>>, id: bytes, size: u64 | Agrees(c0, storageId, u)
      ensures Agrees(c0, storageId, ops.contentBegin(u, id, size).user)
    {
      ContentHooks(env, manifest, u, id, size, []);
      CallAgrees(env, manifest, c0, storageId, u, Began(id, size, true), ContentBegin(u.inner.inner, id, size), ops.contentBegin(u, id, size).user);
    }
    forall u: Traced<Guarded<Horizon>>, data: bytes | Agrees(c0, storageId, u)
      ensures Agrees(c0, storageId, ops.contentWrite(u, data).user)
    {
      ContentHooks(env, manifest, u, [], 0, data);
      CallAgrees(env, manifest, c0, storageId, u, Wrote(data, true), ContentWrite(u.inner.inner, data), ops.contentWrite(u, data).user);
    }
    forall u: Traced<Guarded<Horizon>> | Agrees(c0, storageId, u)
      ensures Agrees(c0, storageId, ops.contentCommit(u).user)
    {
      ContentHooks(env, manifest, u, [], 0, []);
      CallAgrees(env, manifest, c0, storageId, u, Committed(true), ContentCommit(u.inner.inner), ops.contentCommit(u).user);
    }
  }

  lemma LogsAreContents<D>(env: Env<Horizon, D>, manifest: bytes)
    ensures HookInvariant.Kept(GuardedEnv(env, manifest).ops, (u: Traced<Guarded<Horizon>>) => OnlyContents(u.log))
  {
    hide GuardedEnv;
    var ops := GuardedEnv(env, manifest).ops;
    forall u: Traced<Guarded<Horizon>>, id: bytes, size: u64 | OnlyContents(u.log)
      ensures OnlyContents(ops.contentBegin(u, id, size).user.log)
    {
      ContentHooks(env, manifest, u, id, size, []);
    }
    forall u: Traced<Guarded<Horizon>>, data: bytes | OnlyContents(u.log)
      ensures OnlyContents(ops.contentWrite(u, data).user.log)
    {
      ContentHooks(env, manifest, u, [], 0, data);
    }
    forall u: Traced<Guarded<Horizon>> | OnlyContents(u.log)
      ensures OnlyContents(ops.contentCommit(u).user.log)
    {
      ContentHooks(env, manifest, u, [], 0, []);
    }
  }

  // ----- the streamed title -----

  ghost predicate Whole(ps: seq<Placeholder>) {
    forall i :: 0 <= i < |ps| ==> |ps[i].data| == ps[i].size
  }

  lemma StartAgrees(c0: Console, storageId: u8)
    ensures Agrees(c0, storageId, Traced(Guarded(FreshBackend(c0, storageId), true), [])) && OnlyContents([])
  {
  }

  /** A streamed container that went through has not been made up, and the console mirrors it. */
  lemma StreamIsMirrored<D>(env: Env<Horizon, D>, manifest: bytes, c0: Console, storageId: u8, d: D, chunks: seq<bytes>)
    requires env.ops == HorizonOps() && AllWorks(c0.out)
    requires var g, s := GuardedEnv(env, manifest), Begin(GuardedEnv(env, manifest), Traced(Guarded(FreshBackend(c0, storageId), true), []), d);
             && Valid(g, s)
             && var t := FeedAll(g, s, chunks);
                t.stage.Complete? && Run(t.user.log).open.None? && Whole(Run(t.user.log).stored)
    ensures var t := FeedAll(GuardedEnv(env, manifest), Begin(GuardedEnv(env, manifest), Traced(Guarded(FreshBackend(c0, storageId), true), []), d), chunks);
            t.user.inner.honest && Mirrors(c0, storageId, t.user.inner.inner, Run(t.user.log))
  {
    hide FeedAll, Agrees, Mirrors, Run, Valid, AllWorks, OnlyContents, HookInvariant.Kept, GuardedEnv, InStep;
    var g, s := GuardedEnv(env, manifest), Begin(GuardedEnv(env, manifest), Traced(Guarded(FreshBackend(c0, storageId), true), []), d);
    StartAgrees(c0, storageId);
    HooksAgree(env, manifest, c0, storageId);
    LogsAreContents(env, manifest);
    HookInvariant.EveryRunKeeps(g, (u: Traced<Guarded<Horizon>>) => Agrees(c0, storageId, u), s, chunks);
    HookInvariant.EveryRunKeeps(g, (u: Traced<Guarded<Horizon>>) => OnlyContents(u.log), s, chunks);
    var t := FeedAll(g, s, chunks);
    GuardedInOrder(env, manifest, FreshBackend(c0, storageId), d, chunks);
    AgreesIs(c0, storageId, t.user);
  }

  lemma AgreesIs(c0: Console, storageId: u8, u: Traced<Guarded<Horizon>>)
    requires Agrees(c0, storageId, u) && OnlyContents(u.log) && Run(u.log).legal && Run(u.log).open.None? && Whole(Run(u.log).stored)
    ensures u.inner.honest && Mirrors(c0, storageId, u.inner.inner, Run(u.log))
  {
    hide Run, Mirrors, OnlyContents;
  }

  // ----- the finish -----

  lemma FailedIs<S, D>(env: Env<S, D>, s: State<S, D>, v: Verdict)
    ensures Fail(env, s, v).stage.Failed?
  {
  }

  lemma TicketUser<S, D>(env: Env<S, D>, s: State<S, D>)
    requires s.stage.Complete?
    ensures var t := InstallSpec.ImportTicket(env, s);
            !t.stage.Failed? ==>
              t.stage == s.stage && t.metaId == s.metaId && t.user == if s.tik == [] then s.user else env.ops.importTicket(s.user, s.tik, s.cert).user
  {
    hide Fail;
    FailedIs(env, s, BufferTooSmall);
    FailedIs(env, s.(user := env.ops.importTicket(s.user, s.tik, s.cert).user), BackendError);
  }

  lemma PublishUser<S, D>(env: Env<S, D>, s: State<S, D>)
    ensures var t := Publish(env, s);
            !t.stage.Failed? ==> t.meta == s.meta && t.user == env.ops.pushRecord(env.ops.registerMeta(s.user, s.meta).user, s.meta).user
  {
    hide Fail;
    var u := s.(user := env.ops.registerMeta(s.user, s.meta).user);
    FailedIs(env, u, BackendError);
    FailedIs(env, u.(user := env.ops.pushRecord(u.user, u.meta).user), BackendError);
  }

  lemma RegisterUser<S, D>(env: Env<S, D>, s: State<S, D>)
    ensures var t := Register(env, s);
            !t.stage.Failed? ==>
              t.user == env.ops.pushRecord(env.ops.registerMeta(env.ops.readCnmt(s.user, s.metaId).user, t.meta).user, t.meta).user
  {
    hide Fail, Publish, AddContents, Cnmt.Parse, Cnmt.ValidManifest;
    var r := env.ops.readCnmt(s.user, s.metaId);
    var u := s.(user := r.user);
    FailedIs(env, u, BackendError);
    FailedIs(env, u, BadCnmt);
    match Cnmt.Parse(r.data)
    case Err(_) =>
    case Ok(m) =>
      var (b, v) := BuildMeta(env, u, m);
      if v.Some? {
        FailedIs(env, b, v.value);
      } else {
        PublishUser(env, b);
      }
  }

  /** What a finish that works has made of the backend. */
  lemma FinishedUser<S, D>(env: Env<S, D>, s: State<S, D>)
    requires s.stage.Complete?
    ensures var done := Finish(env, s);
            !done.stage.Failed? ==>
              var a := if s.tik == [] then s.user else env.ops.importTicket(s.user, s.tik, s.cert).user;
              done.user == env.ops.pushRecord(env.ops.registerMeta(env.ops.readCnmt(a, s.metaId).user, done.meta).user, done.meta).user
  {
    hide InstallSpec.ImportTicket, Register;
    TicketUser(env, s);
    RegisterUser(env, InstallSpec.ImportTicket(env, s));
  }

  lemma {:induction false} ChunksInStep<S, D>(env: Env<S, D>, s: State<Traced<S>, D>, chunks: seq<bytes>)
    requires InStep(s) && Valid(TracedEnv(env), s)
    ensures InStep(FeedAll(TracedEnv(env), s, chunks))
    decreases |chunks|
  {
    hide InStep, Valid, Feed, TracedEnv;
    if chunks != [] {
      FeedInStep(env, s, chunks[0]);
      ChunksInStep(env, Feed(TracedEnv(env), s, chunks[0]), chunks[1..]);
    }
  }

  lemma GuardedInOrder<D>(env: Env<Horizon, D>, manifest: bytes, user: Horizon, d: D, chunks: seq<bytes>)
    ensures var g := GuardedEnv(env, manifest);
            var s := Begin(g, Traced(Guarded(user, true), []), d);
            Valid(g, s) && Run(FeedAll(g, s, chunks).user.log).legal
  {
    hide FeedAll, Run, Valid;
    var inner := Env(GuardedOps(env.ops, manifest), env.ncz, env.target, env.rightsIdOf);
    var s := Begin(TracedEnv(inner), Traced(Guarded(user, true), []), d);
    StartsInStep(inner, Guarded(user, true), d);
    ChunksInStep(inner, s, chunks);
  }

  // ----- the console after the finish -----

  /** The real calls of a finish, on a console that mirrors the title: each works, and what they change is the record. */
  ghost predicate Registered(c0: Console, c: Console, storageId: u8, contents: map<bytes, bytes>, meta: Meta, app: u64) {
    var key := MetaKey(meta.titleId, meta.version, meta.metaType);
    && c.contents == contents
    && c.persisted == c0.persisted[key := MetaRecord(meta.extHeader, meta.contents)]
    && exists kept :: DropsTitle(Services.RecordOf(c0, app), kept, meta.titleId, meta.metaType)
                      && c.records == c0.records[app := kept + [Services.Record(key, storageId)]]
  }

  lemma RegisterWorksThere(h: Horizon, meta: Meta)
    requires AllWorks(h.console.out) && h.console.staged == h.console.persisted
    ensures var r := RegisterMeta(h, meta);
            && r.ok && r.user.storageId == h.storageId && r.user.console.out == h.console.out
            && r.user.console.contents == h.console.contents && r.user.console.records == h.console.records
            && r.user.console.persisted == h.console.persisted[MetaKey(meta.titleId, meta.version, meta.metaType) := MetaRecord(meta.extHeader, meta.contents)]
  {
  }

  lemma PushWorksThere(h: Horizon, meta: Meta, app: u64)
    requires AllWorks(h.console.out) && Belongs(meta.titleId, meta.metaType, app) && |Services.RecordOf(h.console, app)| < 320
    ensures var r := PushAppRecord(h, meta);
            && r.ok && r.user.console.contents == h.console.contents && r.user.console.persisted == h.console.persisted
            && exists kept :: DropsTitle(Services.RecordOf(h.console, app), kept, meta.titleId, meta.metaType)
                              && r.user.console.records == h.console.records[app := kept + [Services.Record(MetaKey(meta.titleId, meta.version, meta.metaType), h.storageId)]]
  {
    hide PushAppRecord, Belongs, DropsTitle;
    PushAddsTitle(h, meta, app);
  }

  lemma ReadWorksThere(h: Horizon, id: bytes, manifest: bytes)
    requires AllWorks(h.console.out) && id in h.console.contents && h.console.out.manifestOf(h.console.contents[id]) == Some(manifest)
    ensures ReadCnmt(h, id) == ReadReply(true, manifest, h.(console := Called(h.console)))
  {
  }

  /** Import, read, register and push in a row. */
  lemma CallsRegister(c0: Console, storageId: u8, h: Horizon, contents: map<bytes, bytes>, imports: bool, id: bytes,
                      manifest: bytes, meta: Meta, app: u64)
    requires AllWorks(c0.out) && c0.staged == c0.persisted && h.storageId == storageId && h.console.out == c0.out && h.console.contents == contents
    requires h.console.staged == c0.staged && h.console.persisted == c0.persisted && h.console.records == c0.records
    requires id in contents && c0.out.manifestOf(contents[id]) == Some(manifest)
    requires Belongs(meta.titleId, meta.metaType, app) && |Services.RecordOf(c0, app)| < 320
    ensures var a := if imports then TicketImport(h) else Reply(true, h);
            var b := ReadCnmt(a.user, id);
            var c := RegisterMeta(b.user, meta);
            var e := PushAppRecord(c.user, meta);
            && a.ok && b.ok && b.data == manifest && c.ok && e.ok
            && Registered(c0, e.user.console, storageId, contents, meta, app)
  {
    hide PushAppRecord, Belongs, DropsTitle, RegisterMeta, AllWorks;
    assert imports ==> TicketImport(h).ok by { ImportWorksThere(h); }
    var a := if imports then TicketImport(h) else Reply(true, h);
    ReadWorksThere(a.user, id, manifest);
    var b := ReadCnmt(a.user, id);
    RegisterWorksThere(b.user, meta);
    var c := RegisterMeta(b.user, meta);
    assert Services.RecordOf(c.user.console, app) == Services.RecordOf(c0, app);
    PushWorksThere(c.user, meta, app);
  }

  lemma ImportWorksThere(h: Horizon)
    requires AllWorks(h.console.out)
    ensures TicketImport(h).ok
  {
  }

  // ----- the whole install -----

  lemma GuardedIsWilling<S(!new)>(ops: BackendOps<S>, p: Package)
    requires Writable(p)
    ensures Willing(GuardedOps(ops, Encode(p))) && Obliging(GuardedOps(ops, Encode(p)), p)
  {
    hide Encode, Writable;
    var m := Encode(p);
    var guarded := GuardedOps(ops, m);
    forall g: Guarded<S>, id: bytes, size: u64
      ensures guarded.contentBegin(g, id, size).ok
    {
      assert guarded.contentBegin(g, id, size) == Agreed(g, ops.contentBegin(g.inner, id, size));
    }
    forall g: Guarded<S>, data: bytes
      ensures guarded.contentWrite(g, data).ok
    {
      assert guarded.contentWrite(g, data) == Agreed(g, ops.contentWrite(g.inner, data));
    }
    forall g: Guarded<S>
      ensures guarded.contentCommit(g).ok
    {
      assert guarded.contentCommit(g) == Agreed(g, ops.contentCommit(g.inner));
    }
    forall g: Guarded<S>, tik: bytes, cert: bytes
      ensures guarded.importTicket(g, tik, cert).ok
    {
      assert guarded.importTicket(g, tik, cert) == Agreed(g, ops.importTicket(g.inner, tik, cert));
    }
    forall g: Guarded<S>, id: bytes
      ensures guarded.readCnmt(g, id).ok && guarded.readCnmt(g, id).data == m
    {
    }
    forall g: Guarded<S>, x: Meta
      ensures guarded.registerMeta(g, x).ok && guarded.pushRecord(g, x).ok
    {
      assert guarded.registerMeta(g, x) == Agreed(g, ops.registerMeta(g.inner, x));
      assert guarded.pushRecord(g, x) == Agreed(g, ops.pushRecord(g.inner, x));
    }
  }

  lemma {:induction false} NamedAreWhole(fs: seq<Nsp.File>, bodies: seq<bytes>, n: nat)
    requires VirtualNsp.BodiesOf(fs, bodies) && n <= |fs|
    ensures Whole(NamedContents(fs, bodies, n))
  {
    hide IsContentFile;
    if n > 0 {
      NamedAreWhole(fs, bodies, n - 1);
    }
  }

  /** What the guarded finish has made of a console that mirrors the title. */
  lemma FinishIsHonest<D>(env: Env<Horizon, D>, manifest: bytes, c0: Console, storageId: u8,
                          t: State<Traced<Guarded<Horizon>>, D>, app: u64)
    requires env.ops == HorizonOps() && AllWorks(c0.out) && c0.staged == c0.persisted && t.stage.Complete?
    requires t.user.inner.honest && Mirrors(c0, storageId, t.user.inner.inner, Run(t.user.log))
    requires var contents := t.user.inner.inner.console.contents; t.metaId in contents && c0.out.manifestOf(contents[t.metaId]) == Some(manifest)
    requires |Services.RecordOf(c0, app)| < 320
    requires var done := Finish(GuardedEnv(env, manifest), t); !done.stage.Failed? && Belongs(done.meta.titleId, done.meta.metaType, app)
    ensures var done := Finish(GuardedEnv(env, manifest), t);
            done.user.inner.honest && Registered(c0, done.user.inner.inner.console, storageId, t.user.inner.inner.console.contents, done.meta, app)
  {
    hide Finish, Run, Belongs, AllWorks, Registered, GuardedEnv, Stored, ReadCnmt, RegisterMeta, PushAppRecord;
    var g, done, h := GuardedEnv(env, manifest), Finish(GuardedEnv(env, manifest), t), t.user.inner.inner;
    FinishedUser(g, t);
    FinishHooks(env, manifest, t.user, t.tik, t.cert, done.meta);
    var a := if t.tik == [] then t.user else g.ops.importTicket(t.user, t.tik, t.cert).user;
    ReadHook(env, manifest, a, t.metaId);
    var b := g.ops.readCnmt(a, t.metaId).user;
    FinishHooks(env, manifest, b, [], [], done.meta);
    var c := g.ops.registerMeta(b, done.meta).user;
    FinishHooks(env, manifest, c, [], [], done.meta);
    CallsRegister(c0, storageId, h, h.console.contents, t.tik != [], t.metaId, manifest, done.meta, app);
  }

  /** The record of a package whose title has its own meta content `id` of that size. */
  function RecordOfTitle(p: Package, id: bytes, size: u64): MetaRecord {
    MetaRecord(p.ext, [Content(contentId := id, size := size, attr := 0, contentType := 0, idOffset := 0)] + FinishRecord.Installable(p.infos))
  }

  /** The console holds the title: its contents, its meta record under its key, and its entry in the record of its application. */
  ghost predicate HoldsTitle(c0: Console, c: Console, storageId: u8, fs: seq<Nsp.File>, bodies: seq<bytes>, i: nat,
                             id: bytes, p: Package, app: u64)
    requires VirtualNsp.BodiesOf(fs, bodies) && i < |fs|
  {
    var key := MetaKey(p.titleId, p.version, p.metaType);
    && c.contents == Stored(c0.contents, NamedContents(fs, bodies, |fs|))
    && c.persisted == c0.persisted[key := RecordOfTitle(p, id, fs[i].size)]
    && exists kept :: DropsTitle(Services.RecordOf(c0, app), kept, p.titleId, p.metaType)
                      && c.records == c0.records[app := kept + [Services.Record(key, storageId)]]
  }

  /**
   * From the extracted container to the console, in any cuts: when every call works, the manifest that the stored meta
   * content holds can be registered, and a ticket comes with its certificates, the install succeeds. Then the storage
   * holds each content file's bytes under the id its name spells, the meta database the record the manifest spells under
   * the title's key, and the record of the title's application the title in the place of any older version of it;
   * nothing else in the three has changed.
   */
  lemma TitleLandsOnConsole<D>(env: Env<Horizon, D>, c0: Console, storageId: u8, d: D, fs: seq<Nsp.File>, h: bytes,
                               bodies: seq<bytes>, chunks: seq<bytes>,
                               i: nat, id: bytes, p: Package, app: u64)
    requires env.ops == HorizonOps() && AllWorks(c0.out) && c0.staged == c0.persisted
    requires Nsp.ValidFiles(fs) && Nsp.IsHeader(fs, h) && VirtualNsp.BodiesOf(fs, bodies) && Nsp.TotalSize(fs) < U64_LIMIT
    requires WholeTitle(fs, bodies) && LastTitle(fs, |fs|, i, id) && Joined(chunks) == VirtualNsp.File(h, bodies)
    requires Writable(p) && Registrable(fs, p) && (TicketBytes(fs, bodies, |fs|) == [] || CertBytes(fs, bodies, |fs|) != [])
    requires var contents := Stored(c0.contents, NamedContents(fs, bodies, |fs|)); id in contents && c0.out.manifestOf(contents[id]) == Some(Encode(p))
    requires Belongs(p.titleId, p.metaType, app) && |Services.RecordOf(c0, app)| < 320
    ensures i < |fs| && Valid(env, Begin(env, FreshBackend(c0, storageId), d))
    ensures var done := Finish(env, FeedAll(env, Begin(env, FreshBackend(c0, storageId), d), chunks));
            !done.stage.Failed? && HoldsTitle(c0, done.user.console, storageId, fs, bodies, i, id, p, app)
  {
    hide Willing, Obliging, FeedAll, Finish, Run, Valid, WholeTitle, LastTitle, Nsp.ValidFiles, Nsp.IsHeader, Nsp.TotalSize, VirtualNsp.File, GuardedEnv,
      NamedContents, Registrable, Writable, Encode, TicketBytes, CertBytes, Stored, Belongs, AllWorks, FinishRecord.Installable, Mirrors, GuardedRun, Begin;
    LastIsFile(fs, bodies, i, id);
    GuardedTitle(env, c0, storageId, d, fs, h, bodies, chunks, i, id, p);
    var t := GuardedRun(env, Encode(p), c0, storageId, d, chunks);
    MirroredContents(c0, storageId, t.user.inner.inner, Run(t.user.log), NamedContents(fs, bodies, |fs|));
    FinishIsHonest(env, Encode(p), c0, storageId, t, app);
    RealInstall(env, Encode(p), c0, storageId, d, chunks);
  }

  /** The run of the guarded backend on this console. */
  ghost function GuardedRun<D>(env: Env<Horizon, D>, manifest: bytes, c0: Console, storageId: u8, d: D,
                               chunks: seq<bytes>): State<Traced<Guarded<Horizon>>, D> {
    GuardedInOrder(env, manifest, FreshBackend(c0, storageId), d, chunks);
    FeedAll(GuardedEnv(env, manifest), Begin(GuardedEnv(env, manifest), Traced(Guarded(FreshBackend(c0, storageId), true), []), d), chunks)
  }

  lemma MirroredContents(c0: Console, storageId: u8, h: Horizon, p: Phase, ps: seq<Placeholder>)
    requires Mirrors(c0, storageId, h, p) && p.stored == ps
    ensures h.console.contents == Stored(c0.contents, ps)
  {
  }

  lemma RealInstall<D>(env: Env<Horizon, D>, manifest: bytes, c0: Console, storageId: u8, d: D, chunks: seq<bytes>)
    ensures Valid(env, Begin(env, FreshBackend(c0, storageId), d))
    ensures var done := Finish(GuardedEnv(env, manifest), GuardedRun(env, manifest, c0, storageId, d, chunks));
            var own := Finish(env, FeedAll(env, Begin(env, FreshBackend(c0, storageId), d), chunks));
            done.user.inner.honest ==> own.stage == done.stage && own.meta == done.meta && own.user == done.user.inner.inner
  {
    hide FeedAll, Finish, Valid, GuardedEnv, Begin;
    HonestIsReal(env, manifest, FreshBackend(c0, storageId), d, chunks);
  }

  /** The guarded run of a whole title: it goes through and finishes well, and the console mirrors it. */
  lemma GuardedTitle<D>(env: Env<Horizon, D>, c0: Console, storageId: u8, d: D, fs: seq<Nsp.File>, h: bytes,
                        bodies: seq<bytes>, chunks: seq<bytes>,
                        i: nat, id: bytes, p: Package)
    requires env.ops == HorizonOps() && AllWorks(c0.out)
    requires Nsp.ValidFiles(fs) && Nsp.IsHeader(fs, h) && VirtualNsp.BodiesOf(fs, bodies) && Nsp.TotalSize(fs) < U64_LIMIT
    requires WholeTitle(fs, bodies) && LastTitle(fs, |fs|, i, id) && Joined(chunks) == VirtualNsp.File(h, bodies)
    requires Writable(p) && Registrable(fs, p) && (TicketBytes(fs, bodies, |fs|) == [] || CertBytes(fs, bodies, |fs|) != [])
    ensures i < |fs| && fs[i].size == |bodies[i]|
    ensures var t := GuardedRun(env, Encode(p), c0, storageId, d, chunks);
            var done := Finish(GuardedEnv(env, Encode(p)), t);
            && t.stage.Complete? && t.metaId == id && t.user.inner.honest
            && Run(t.user.log).stored == NamedContents(fs, bodies, |fs|) && Mirrors(c0, storageId, t.user.inner.inner, Run(t.user.log))
            && !done.stage.Failed? && RegistersTitle(done.meta, p, id, fs[i].size)
  {
    hide Willing, Obliging, FeedAll, Finish, Run, Valid, WholeTitle, LastTitle, Nsp.ValidFiles, Nsp.IsHeader, Nsp.TotalSize, VirtualNsp.File, GuardedOps,
      TracedOps, NamedContents, Registrable, Writable, Encode, TicketBytes, CertBytes, Stored, AllWorks, FinishRecord.Installable, TitleInstall.HasContent, Mirrors;
    var manifest, user := Encode(p), FreshBackend(c0, storageId);
    var inner := Env(GuardedOps(env.ops, manifest), env.ncz, env.target, env.rightsIdOf);
    GuardedIsWilling(env.ops, p);
    LastIsFile(fs, bodies, i, id);
    ExtractedTitleArrives(inner, Guarded(user, true), d, fs, h, bodies, chunks, i, id);
    ExtractedTitleInstallsIff(inner, Guarded(user, true), d, fs, h, bodies, chunks, i, id, p);
    var t := GuardedRun(env, manifest, c0, storageId, d, chunks);
    NamedAreWhole(fs, bodies, |fs|);
    StreamIsMirrored(env, manifest, c0, storageId, d, chunks);
    MetaIsRecord(inner, t, p);
  }

  /** The record names the package's title and holds its own content and the package's. */
  ghost predicate RegistersTitle(meta: Meta, p: Package, id: bytes, size: u64) {
    && meta.titleId == p.titleId && meta.version == p.version && meta.metaType == p.metaType
    && MetaRecord(meta.extHeader, meta.contents) == RecordOfTitle(p, id, size)
  }

  /** A guarded finish that works registers the record of the package. */
  lemma MetaIsRecord<S(!new), D>(env: Env<S, D>, t: State<Traced<S>, D>, p: Package)
    requires Writable(p) && Obliging(env.ops, p) && t.stage.Complete? && !t.contentOpen && !Finish(TracedEnv(env), t).stage.Failed?
    ensures Finish(TracedEnv(env), t).meta == RecordFor(TracedEnv(env), t, p)
  {
    hide Encode, Writable, Fail, InstallSpec.ImportTicket, Register, RecordFor, SomeMissing;
    var u := InstallSpec.ImportTicket(TracedEnv(env), t);
    if u.stage.Failed? {
      LoneTicketFails(TracedEnv(env), t);
    }
    var r := env.ops.readCnmt(u.user.inner, t.metaId);
    assert r.ok && r.data == Encode(p);
    FinishRegistersPackage(env, t, p);
  }
}
