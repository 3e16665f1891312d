/**
 * What a successful finish has done: the record lists the meta content and then the manifest's contents,
 * all of them committed beforehand, and the calls came in one order.
 */
module FinishResult {
  import opened Bytes
  import opened EntryNames
  import opened InstallSpec
  import opened InstallTrace
  import opened ChunkIndependence
  import opened Delivery
  import opened Completion
  import Cnmt

  /** The manifest's installable contents, in order: everything but delta fragments. */
  function Listed(m: Cnmt.Manifest, n: nat): seq<Content>
    requires Cnmt.ValidManifest(m) && n <= m.contentCount
  {
    if n == 0 then []
    else
      var info := Cnmt.GetContentInfo(m, n - 1).value;
      Listed(m, n - 1) + (if info.contentType == Cnmt.TYPE_DELTA_FRAGMENT then [] else [ContentOf(info)])
  }

  /** Every content of a list was in the container. */
  ghost predicate AllPresent(es: seq<Entry>, cs: seq<Content>) {
    forall i :: 0 <= i < |cs| ==> Present(es, cs[i].contentId)
  }

  /** The loop succeeds exactly when everything it lists is present, and then lists it in order. */
  lemma {:induction false} AddContentsLists(m: Cnmt.Manifest, es: seq<Entry>, i: nat, first: seq<Content>)
    requires Cnmt.ValidManifest(m) && i <= m.contentCount && AllPresent(es, Listed(m, i))
    ensures var (cs, v) := AddContents(m, es, i, first + Listed(m, i));
            && (v.None? <==> AllPresent(es, Listed(m, m.contentCount)))
            && (v.None? ==> cs == first + Listed(m, m.contentCount))
            && (v.Some? ==> v.value == MissingContent)
    decreases m.contentCount - i
  {
    hide Cnmt.ValidManifest, Cnmt.GetContentInfo, Present;
    if i < m.contentCount {
      var info := Cnmt.GetContentInfo(m, i).value;
      var so := Listed(m, i);
      if info.contentType == Cnmt.TYPE_DELTA_FRAGMENT {
        assert so + [] == so;
        AddContentsLists(m, es, i + 1, first);
      } else if Present(es, info.contentId) {
        assert first + so + [ContentOf(info)] == first + (so + [ContentOf(info)]);
        AddContentsLists(m, es, i + 1, first);
      } else {
        assert (so + [ContentOf(info)])[|so|].contentId == info.contentId;
        ListedGrows(m, i + 1, m.contentCount);
        assert Listed(m, m.contentCount)[|so|] == Listed(m, i + 1)[|so|];
      }
    }
  }

  lemma {:induction false} ListedGrows(m: Cnmt.Manifest, i: nat, j: nat)
    requires Cnmt.ValidManifest(m) && i <= j <= m.contentCount
    ensures Listed(m, i) <= Listed(m, j) && |Listed(m, j)| <= j
    decreases j
  {
    hide Cnmt.ValidManifest, Cnmt.GetContentInfo;
    if i < j {
      ListedGrows(m, i, j - 1);
    } else if j > 0 {
      ListedGrows(m, j - 1, j - 1);
    }
  }

  /** The record built from a manifest, when it can be built. */
  lemma BuildMetaResult<S, D>(env: Env<S, D>, s: State<S, D>, m: Cnmt.Manifest)
    requires Cnmt.ValidManifest(m)
    ensures var (t, v) := BuildMeta(env, s, m);
            && (v.None? <==> m.extHeaderSize <= MAX_EXT_HEADER && m.contentCount < MAX_CONTENTS
                             && AllPresent(s.entries, Listed(m, m.contentCount)))
            && (v.None? ==>
                  && t.meta.contents == [Content(s.metaId, s.metaSize, 0, Cnmt.TYPE_META, 0)] + Listed(m, m.contentCount)
                  && |t.meta.contents| <= MAX_CONTENTS
                  && t.meta.titleId == m.titleId && t.meta.version == m.version && t.meta.metaType == m.metaType
                  && t.meta.storageId == env.target && t.meta.extHeader == Cnmt.ExtHeader(m)
                  && t.meta.hasTicket == s.meta.hasTicket && t.meta.rightsId == s.meta.rightsId
                  && t == s.(meta := t.meta))
            && (v.Some? ==> v.value == if m.extHeaderSize > MAX_EXT_HEADER then BadCnmt
                                       else if m.contentCount >= MAX_CONTENTS then TooManyContents
                                       else MissingContent)
  {
    hide Cnmt.ValidManifest, Cnmt.GetContentInfo, Cnmt.ExtHeader, AddContents, AllPresent, Listed;
    var first := [Content(s.metaId, s.metaSize, 0, Cnmt.TYPE_META, 0)];
    NothingListed(m, s.entries);
    assert first + [] == first;
    AddContentsLists(m, s.entries, 0, first);
    ListedGrows(m, 0, m.contentCount);
  }

  lemma NothingListed(m: Cnmt.Manifest, es: seq<Entry>)
    requires Cnmt.ValidManifest(m)
    ensures Listed(m, 0) == [] && AllPresent(es, Listed(m, 0))
  {
  }

  // ----- the calls of a finish -----

  /** The ticket's part of the calls: none without a ticket, one import with one, of the ticket and its certificates. */
  function TicketCalls(tik: bytes, cert: bytes): seq<Event> {
    if tik == [] then [] else [ImportedTicket(tik, cert, true)]
  }

  lemma TicketResult<S, D>(env: Env<S, D>, s: State<Traced<S>, D>)
    requires s.stage.Complete?
    ensures var t := ImportTicket(TracedEnv(env), s);
            !t.stage.Failed? ==>
              && t.user.log == s.user.log + TicketCalls(s.tik, s.cert)
              && t == s.(user := t.user, meta := t.meta)
              && (s.tik != [] ==> s.cert != [])
  {
    hide Fail;
    FailShape(TracedEnv(env), s, BufferTooSmall);
    var r := TracedEnv(env).ops.importTicket(s.user, s.tik, s.cert);
    FailShape(TracedEnv(env), s.(user := r.user), BackendError);
    assert s.user.log + [] == s.user.log;
    var inner := env.ops.importTicket(s.user.inner, s.tik, s.cert);
    assert r == Logged(inner, s.user.log, ImportedTicket(s.tik, s.cert, inner.ok));
  }

  lemma PublishResult<S, D>(env: Env<S, D>, s: State<Traced<S>, D>)
    requires s.stage.Complete?
    ensures var t := Publish(TracedEnv(env), s);
            !t.stage.Failed? ==>
              t == s.(user := t.user) && t.user.log == s.user.log + [RegisteredMeta(s.meta, true), PushedRecord(s.meta, true)]
  {
    hide Fail;
    var r := TracedEnv(env).ops.registerMeta(s.user, s.meta);
    var u := s.(user := r.user);
    FailShape(TracedEnv(env), u, BackendError);
    var p := TracedEnv(env).ops.pushRecord(u.user, u.meta);
    FailShape(TracedEnv(env), u.(user := p.user), BackendError);
    var inner := env.ops.registerMeta(s.user.inner, s.meta);
    assert r == Logged(inner, s.user.log, RegisteredMeta(s.meta, inner.ok));
    var pushed := env.ops.pushRecord(u.user.inner, u.meta);
    assert p == Logged(pushed, u.user.log, PushedRecord(s.meta, pushed.ok));
    assert s.user.log + [RegisteredMeta(s.meta, true)] + [PushedRecord(s.meta, true)] == s.user.log + [RegisteredMeta(s.meta, true), PushedRecord(s.meta, true)];
  }

  /** What reading the meta content back returns. */
  function DataAt<S, D>(env: Env<S, D>, s: State<S, D>): bytes {
    env.ops.readCnmt(s.user, s.metaId).data
  }

  /** What a finish reads once the ticket is in. */
  function DataRead<S, D>(env: Env<S, D>, s: State<S, D>): bytes {
    DataAt(env, ImportTicket(env, s))
  }

  /** The manifest read back from the meta content, if the read works and what it returns parses. */
  function ManifestAt<S, D>(env: Env<S, D>, s: State<S, D>): (m: Option<Cnmt.Manifest>)
    ensures m.Some? ==> Cnmt.ValidManifest(m.value)
  {
    var r := env.ops.readCnmt(s.user, s.metaId);
    match Cnmt.Parse(r.data)
    case Err(_) => None
    case Ok(m) => if r.ok then Some(m) else None
  }

  /** The manifest a finish goes by: the one read once the ticket is in. */
  function ManifestRead<S, D>(env: Env<S, D>, s: State<S, D>): (m: Option<Cnmt.Manifest>)
    ensures m.Some? ==> Cnmt.ValidManifest(m.value)
  {
    ManifestAt(env, ImportTicket(env, s))
  }

  lemma RegisterResult<S, D>(env: Env<S, D>, s: State<Traced<S>, D>)
    requires s.stage.Complete?
    ensures var t := Register(TracedEnv(env), s);
            !t.stage.Failed? ==>
              && t.user.log == s.user.log + [ReadManifest(s.metaId, DataAt(TracedEnv(env), s), true), RegisteredMeta(t.meta, true), PushedRecord(t.meta, true)]
              && ManifestAt(TracedEnv(env), s).Some?
              && RecordOf(s.entries, s.metaId, s.metaSize, ManifestAt(TracedEnv(env), s).value, t.meta)
  {
    hide Fail, BuildMeta, Publish, Cnmt.Parse, RecordOf, Cnmt.ValidManifest;
    var r := TracedEnv(env).ops.readCnmt(s.user, s.metaId);
    var u := s.(user := r.user);
    FailShape(TracedEnv(env), u, BackendError);
    FailShape(TracedEnv(env), u, BadCnmt);
    match Cnmt.Parse(r.data)
    case Err(_) =>
    case Ok(m) =>
      BuildMetaResult(TracedEnv(env), u, m);
      var (b, v) := BuildMeta(TracedEnv(env), u, m);
      if v.Some? {
        FailShape(TracedEnv(env), b, v.value);
      } else {
        PublishResult(env, b);
        RecordFrom(s.entries, s.metaId, s.metaSize, m, b.meta);
        assert r.ok ==> r.user.log == s.user.log + [ReadManifest(s.metaId, r.data, true)];
        assert s.user.log + [ReadManifest(s.metaId, r.data, true)] + [RegisteredMeta(b.meta, true), PushedRecord(b.meta, true)]
            == s.user.log + [ReadManifest(s.metaId, r.data, true), RegisteredMeta(b.meta, true), PushedRecord(b.meta, true)];
      }
  }

  /** `meta` is the record of manifest `m`: meta content first, then the listed contents, all present, at most 64. */
  ghost predicate RecordOf(es: seq<Entry>, metaId: bytes, metaSize: u64, m: Cnmt.Manifest, meta: Meta)
    requires Cnmt.ValidManifest(m)
  {
    && meta.titleId == m.titleId && meta.version == m.version && meta.metaType == m.metaType && meta.extHeader == Cnmt.ExtHeader(m)
    && meta.contents == [Content(metaId, metaSize, 0, Cnmt.TYPE_META, 0)] + Listed(m, m.contentCount)
    && |meta.contents| <= MAX_CONTENTS
    && AllPresent(es, Listed(m, m.contentCount))
  }

  lemma RecordFrom(es: seq<Entry>, metaId: bytes, metaSize: u64, m: Cnmt.Manifest, meta: Meta)
    requires Cnmt.ValidManifest(m)
    requires meta.titleId == m.titleId && meta.version == m.version && meta.metaType == m.metaType && meta.extHeader == Cnmt.ExtHeader(m)
    requires meta.contents == [Content(metaId, metaSize, 0, Cnmt.TYPE_META, 0)] + Listed(m, m.contentCount)
    requires |meta.contents| <= MAX_CONTENTS && AllPresent(es, Listed(m, m.contentCount))
    ensures RecordOf(es, metaId, metaSize, m, meta)
  {
  }

  /**
   * A finish that succeeds has imported the ticket if there was one, read the manifest of the meta content,
   * registered the record of that manifest, and pushed it last.
   */
  lemma FinishCalls<S, D>(env: Env<S, D>, s: State<Traced<S>, D>)
    ensures var t := Finish(TracedEnv(env), s);
            !t.stage.Failed? ==>
              && s.stage.Complete?
              && t.user.log == s.user.log + TicketCalls(s.tik, s.cert)
                               + [ReadManifest(s.metaId, DataRead(TracedEnv(env), s), true), RegisteredMeta(t.meta, true), PushedRecord(t.meta, true)]
              && ManifestRead(TracedEnv(env), s).Some?
              && RecordOf(s.entries, s.metaId, s.metaSize, ManifestRead(TracedEnv(env), s).value, t.meta)
  {
    hide Fail, ImportTicket, ManifestAt, Register, RecordOf, Cnmt.ValidManifest;
    if !s.stage.Failed? {
      FailShape(TracedEnv(env), s, NotFinished);
      if s.stage.Complete? {
        TicketResult(env, s);
        TicketKeeps(TracedEnv(env), s);
        var u := ImportTicket(TracedEnv(env), s);
        if !u.stage.Failed? {
          RegisterResult(env, u);
        }
      }
    }
  }

  // ----- everything registered was committed -----

  /** A placeholder of that id has been committed. */
  ghost predicate IsStored(stored: seq<Placeholder>, id: bytes) {
    exists i :: 0 <= i < |stored| && stored[i].id == id
  }

  /** Once past an entry, its content is among the stored ones. */
  lemma {:induction false} PresentIsStored(stored: seq<Placeholder>, es: seq<Entry>, stream: bytes, id: bytes)
    requires StoredIs(stored, es, stream) && NoCompressed(es) && Present(es, id)
    ensures IsStored(stored, id)
  {
    var n := |es| - 1;
    var i :| 0 <= i < |es| && IsContent(es[i].kind) && es[i].contentId == id;
    var e, rest := es[n], es[..n];
    if IsContent(e.kind) {
      if i == n {
        assert stored[|stored| - 1].id == id;
      } else {
        assert rest[i] == es[i];
        PresentIsStored(stored[..|stored| - 1], rest, stream, id);
        var k :| 0 <= k < |stored| - 1 && stored[..|stored| - 1][k].id == id;
        assert stored[k].id == id;
      }
    } else {
      assert rest[i] == es[i];
      PresentIsStored(stored, rest, stream, id);
    }
  }

  /**
   * A whole run, in any cuts and on any backend: finishing an install of a plain container registers nothing that
   * was not committed before. The record's every content, the meta content included, is stored when the finishing
   * calls begin.
   */
  lemma FinishRegistersCommitted<S, D>(env: Env<S, D>, user: S, d: D, chunks: seq<bytes>)
    requires |Joined(chunks)| < U64_LIMIT && DisjointStream(Joined(chunks))
    ensures Valid(TracedEnv(env), Begin(TracedEnv(env), Traced(user, []), d))
    ensures var s := FeedAll(TracedEnv(env), Begin(TracedEnv(env), Traced(user, []), d), chunks);
            var t := Finish(TracedEnv(env), s);
            !t.stage.Failed? && NoCompressed(s.entries) ==>
              forall i :: 0 <= i < |t.meta.contents| ==> IsStored(Run(s.user.log).stored, t.meta.contents[i].contentId)
  {
    hide Finish, ManifestRead, RecordOf, Delivered, Run, StoredIs, Present, IsStored, FeedAll, DisjointStream, NoCompressed;
    EveryByteDelivered(env, user, d, chunks);
    var s := FeedAll(TracedEnv(env), Begin(TracedEnv(env), Traced(user, []), d), chunks);
    var t := Finish(TracedEnv(env), s);
    if !t.stage.Failed? && NoCompressed(s.entries) {
      FinishCalls(env, s);
      var m := ManifestRead(TracedEnv(env), s).value;
      AllStored(s, Joined(chunks));
      forall i | 0 <= i < |t.meta.contents|
        ensures IsStored(Run(s.user.log).stored, t.meta.contents[i].contentId)
      {
        RecordIsPresent(s, m, t.meta, i);
        PresentIsStored(Run(s.user.log).stored, s.entries, Joined(chunks), t.meta.contents[i].contentId);
      }
    }
  }

  lemma AllStored<S, D>(s: State<Traced<S>, D>, stream: bytes)
    requires Delivered(s, stream) && s.stage.Complete?
    ensures StoredIs(Run(s.user.log).stored, s.entries, stream) && MetaListed(s)
  {
    hide Run, InStep, StoredIs, Past, OpenIs, DisjointEntries, MetaListed, Buffered;
    assert s.entries[..s.cursor] == s.entries;
  }

  lemma RecordIsPresent<S, D>(s: State<Traced<S>, D>, m: Cnmt.Manifest, meta: Meta, i: nat)
    requires Cnmt.ValidManifest(m) && RecordOf(s.entries, s.metaId, s.metaSize, m, meta) && MetaListed(s) && i < |meta.contents|
    ensures Present(s.entries, meta.contents[i].contentId)
  {
    hide Cnmt.ValidManifest, Listed, Cnmt.ExtHeader;
    if i == 0 {
      var e :| e in s.entries && IsMeta(e.kind) && e.contentId == s.metaId;
      var k :| 0 <= k < |s.entries| && s.entries[k] == e;
      assert IsContent(s.entries[k].kind) && s.entries[k].contentId == s.metaId;
    } else {
      assert meta.contents[i] == Listed(m, m.contentCount)[i - 1];
    }
  }
}
