/** What a finish registers, told from the bytes of the manifest it reads and the files the container held. */
module FinishRecord {
  import opened Bytes
  import opened EntryNames
  import opened InstallSpec
  import opened InstallTrace
  import opened FinishResult
  import opened CnmtFormat
  import Cnmt

  /** The contents a manifest lists for installing, field by field: all but the delta fragments, in order. */
  function Installable(infos: seq<Cnmt.ContentInfo>): seq<Content> {
    if infos == [] then []
    else
      var info := infos[|infos| - 1];
      Installable(infos[..|infos| - 1])
      + if info.contentType == 6 then []
        else [Content(contentId := info.contentId, size := info.size, attr := info.attributes, contentType := info.contentType, idOffset := info.idOffset)]
  }

  /** The record of a package: the meta content first, then what the manifest lists. */
  function Record(p: Package, target: u8, metaId: bytes, metaSize: u64, hasTicket: bool, rightsId: bytes): Meta {
    Meta(
      titleId := p.titleId, version := p.version, metaType := p.metaType, storageId := target, extHeader := p.ext,
      contents := [Content(contentId := metaId, size := metaSize, attr := 0, contentType := 0, idOffset := 0)] + Installable(p.infos),
      hasTicket := hasTicket, rightsId := rightsId)
  }

  /** The record a finish owes for a package, with the rights id its ticket parses to, if there is a ticket. */
  function RecordFor<S, D>(env: Env<S, D>, s: State<S, D>, p: Package): Meta {
    var rights := if s.tik == [] then None else env.rightsIdOf(s.tik);
    Record(p, env.target, s.metaId, s.metaSize, s.meta.hasTicket || rights.Some?, if rights.Some? then rights.value else s.meta.rightsId)
  }

  /** The container held a content of that id, plain or compressed. */
  ghost predicate HeldContent(es: seq<Entry>, id: bytes) {
    exists k :: 0 <= k < |es| && es[k].kind in {Nca, MetaNca, EntryNames.Kind.Ncz, MetaNcz} && es[k].contentId == id
  }

  /** Some content that is to be installed was not in the container. */
  ghost predicate SomeMissing(es: seq<Entry>, infos: seq<Cnmt.ContentInfo>) {
    exists i :: 0 <= i < |infos| && infos[i].contentType != 6 && !HeldContent(es, infos[i].contentId)
  }

  lemma HeldIsPresent(es: seq<Entry>, id: bytes)
    ensures HeldContent(es, id) <==> Present(es, id)
  {
    if HeldContent(es, id) {
      var k :| 0 <= k < |es| && es[k].kind in {Nca, MetaNca, EntryNames.Kind.Ncz, MetaNcz} && es[k].contentId == id;
      assert IsContent(es[k].kind);
    }
    if Present(es, id) {
      var k :| 0 <= k < |es| && IsContent(es[k].kind) && es[k].contentId == id;
      assert es[k].kind in {Nca, MetaNca, EntryNames.Kind.Ncz, MetaNcz};
    }
  }

  /** What the code lists of a parsed manifest is what its infos say. */
  lemma {:induction false} ListedIsInstallable(m: Cnmt.Manifest, infos: seq<Cnmt.ContentInfo>, n: nat)
    requires Cnmt.ValidManifest(m) && n <= |infos| == m.contentCount
    requires forall i :: 0 <= i < |infos| ==> Cnmt.GetContentInfo(m, i) == Ok(infos[i])
    ensures Listed(m, n) == Installable(infos[..n])
  {
    hide Cnmt.ValidManifest, Cnmt.GetContentInfo;
    if n > 0 {
      ListedIsInstallable(m, infos, n - 1);
      assert infos[..n][..n - 1] == infos[..n - 1];
    }
  }

  lemma MissingIsAbsent(es: seq<Entry>, infos: seq<Cnmt.ContentInfo>)
    ensures SomeMissing(es, infos) <==> !AllPresent(es, Installable(infos))
  {
    hide HeldContent, Present;
    if SomeMissing(es, infos) {
      var i :| 0 <= i < |infos| && infos[i].contentType != 6 && !HeldContent(es, infos[i].contentId);
      var k := IsInstallable(infos, i);
      HeldIsPresent(es, infos[i].contentId);
      assert Installable(infos)[k].contentId == infos[i].contentId;
    }
    if !AllPresent(es, Installable(infos)) {
      var k :| 0 <= k < |Installable(infos)| && !Present(es, Installable(infos)[k].contentId);
      var i := WasInfo(infos, k);
      HeldIsPresent(es, infos[i].contentId);
    }
  }

  lemma {:induction false} IsInstallable(infos: seq<Cnmt.ContentInfo>, i: nat) returns (k: nat)
    requires i < |infos| && infos[i].contentType != 6
    ensures k < |Installable(infos)| && Installable(infos)[k].contentId == infos[i].contentId
  {
    var n := |infos| - 1;
    if i == n {
      k := |Installable(infos[..n])|;
    } else {
      k := IsInstallable(infos[..n], i);
    }
  }

  lemma {:induction false} WasInfo(infos: seq<Cnmt.ContentInfo>, k: nat) returns (i: nat)
    requires k < |Installable(infos)|
    ensures i < |infos| && infos[i].contentType != 6 && infos[i].contentId == Installable(infos)[k].contentId
  {
    var n := |infos| - 1;
    if k == |Installable(infos[..n])| {
      i := n;
    } else {
      i := WasInfo(infos[..n], k);
    }
  }

  // ----- from the read manifest on -----

  /** Nothing is registered, and the backend is told to clean up. */
  ghost predicate Refused<S, D>(t: State<Traced<S>, D>, so: seq<Event>, v: Verdict) {
    t.stage == Failed(v) && t.user.log == so + [RolledBack(t.meta)]
  }

  /** What becomes of a package that has been read: refused for one of three reasons, or its record is registered and pushed. */
  ghost predicate Handled<S, D>(t: State<Traced<S>, D>, so: seq<Event>, es: seq<Entry>, p: Package, record: Meta) {
    if |p.ext| > 0x100 then Refused(t, so, BadCnmt)
    else if |p.infos| > 63 then Refused(t, so, TooManyContents)
    else if SomeMissing(es, p.infos) then Refused(t, so, MissingContent)
    else
      && t.meta == record
      && (|| Refused(t, so + [RegisteredMeta(record, false)], BackendError)
          || Refused(t, so + [RegisteredMeta(record, true), PushedRecord(record, false)], BackendError)
          || (t.stage.Complete? && t.user.log == so + [RegisteredMeta(record, true), PushedRecord(record, true)]))
  }

  lemma FailRefuses<S, D>(env: Env<S, D>, s: State<Traced<S>, D>, v: Verdict)
    requires !s.contentOpen
    ensures Refused(Fail(TracedEnv(env), s, v), s.user.log, v) && Fail(TracedEnv(env), s, v).meta == s.meta
  {
  }

  lemma PublishHandles<S, D>(env: Env<S, D>, s: State<Traced<S>, D>, es: seq<Entry>, p: Package)
    requires s.stage.Complete? && !s.contentOpen && |p.ext| <= 0x100 && |p.infos| <= 63 && !SomeMissing(es, p.infos)
    ensures Handled(Publish(TracedEnv(env), s), s.user.log, es, p, s.meta)
  {
    hide Fail, SomeMissing;
    var r := env.ops.registerMeta(s.user.inner, s.meta);
    var u := s.(user := Traced(r.user, s.user.log + [RegisteredMeta(s.meta, r.ok)]));
    FailRefuses(env, u, BackendError);
    var q := env.ops.pushRecord(r.user, s.meta);
    var t := s.(user := Traced(q.user, u.user.log + [PushedRecord(s.meta, q.ok)]));
    FailRefuses(env, t, BackendError);
    assert s.user.log + [RegisteredMeta(s.meta, true)] + [PushedRecord(s.meta, q.ok)] == s.user.log + [RegisteredMeta(s.meta, true), PushedRecord(s.meta, q.ok)];
  }

  /** The record for an installer whose ticket, if any, is in. */
  function RecordAt<S, D>(env: Env<S, D>, u: State<S, D>, p: Package): Meta {
    Record(p, env.target, u.metaId, u.metaSize, u.meta.hasTicket, u.meta.rightsId)
  }

  lemma BuildsRecord<S, D>(env: Env<S, D>, u: State<S, D>, p: Package)
    requires Writable(p)
    ensures Cnmt.Parse(Encode(p)).Ok?
    ensures var (b, v) := BuildMeta(env, u, Cnmt.Parse(Encode(p)).value);
            && b == u.(meta := b.meta)
            && if |p.ext| > 0x100 then v == Some(BadCnmt)
               else if |p.infos| > 63 then v == Some(TooManyContents)
               else if SomeMissing(u.entries, p.infos) then v == Some(MissingContent)
               else v == None && b.meta == RecordAt(env, u, p)
  {
    hide Cnmt.Parse, Cnmt.GetContentInfo, Cnmt.ExtHeader, Encode, SomeMissing, AllPresent, Listed, Installable;
    ParseInvertsEncode(p);
    var m := Cnmt.Parse(Encode(p)).value;
    BuildMetaResult(env, u, m);
    BuildMetaShape(env, u, m);
    ListedIsInstallable(m, p.infos, |p.infos|);
    assert p.infos[..|p.infos|] == p.infos;
    MissingIsAbsent(u.entries, p.infos);
  }

  lemma RegisterHandles<S, D>(env: Env<S, D>, u: State<Traced<S>, D>, p: Package)
    requires Writable(p) && u.stage.Complete? && !u.contentOpen
    requires var r := env.ops.readCnmt(u.user.inner, u.metaId); r.ok && r.data == Encode(p)
    ensures Handled(Register(TracedEnv(env), u), u.user.log + [ReadManifest(u.metaId, Encode(p), true)], u.entries, p, RecordAt(TracedEnv(env), u, p))
  {
    hide Fail, BuildMeta, Publish, Cnmt.Parse, SomeMissing, Encode, RecordAt, Handled;
    var r := env.ops.readCnmt(u.user.inner, u.metaId);
    var so := u.user.log + [ReadManifest(u.metaId, Encode(p), true)];
    var v := u.(user := Traced(r.user, so));
    assert TracedEnv(env).ops.readCnmt(u.user, u.metaId) == ReadReply(true, Encode(p), v.user);
    BuildsRecord(TracedEnv(env), v, p);
    assert RecordAt(TracedEnv(env), v, p) == RecordAt(TracedEnv(env), u, p) by { RecordMoves(TracedEnv(env), u, v.user, p); }
    var (b, w) := BuildMeta(TracedEnv(env), v, Cnmt.Parse(Encode(p)).value);
    if w.Some? {
      FailRefuses(env, b, w.value);
      RefusedHandled(Fail(TracedEnv(env), b, w.value), so, u.entries, p, RecordAt(TracedEnv(env), u, p), w.value);
    } else {
      PublishHandles(env, b, u.entries, p);
    }
  }

  lemma RecordMoves<S, D>(env: Env<S, D>, u: State<S, D>, user: S, p: Package)
    ensures RecordAt(env, u.(user := user), p) == RecordAt(env, u, p)
  {
  }

  lemma RefusedHandled<S, D>(t: State<Traced<S>, D>, so: seq<Event>, es: seq<Entry>, p: Package, record: Meta, v: Verdict)
    requires Refused(t, so, v)
    requires if |p.ext| > 0x100 then v == BadCnmt else if |p.infos| > 63 then v == TooManyContents else SomeMissing(es, p.infos) && v == MissingContent
    ensures Handled(t, so, es, p, record)
  {
    hide SomeMissing, Refused;
  }

  /**
   * A finish, told from the bytes: it imports the ticket and certificate bytes it gathered, reads the manifest, and then
   * either refuses it - an extended header above 0x100 bytes, more than 63 contents, or a listed content that was not
   * in the container - or registers and pushes exactly the record the manifest's fields spell.
   */
  lemma FinishRegistersPackage<S, D>(env: Env<S, D>, s: State<Traced<S>, D>, p: Package)
    requires Writable(p) && s.stage.Complete? && !s.contentOpen
    requires var u := ImportTicket(TracedEnv(env), s);
             && !u.stage.Failed?
             && env.ops.readCnmt(u.user.inner, s.metaId).ok && env.ops.readCnmt(u.user.inner, s.metaId).data == Encode(p)
    ensures Handled(Finish(TracedEnv(env), s), s.user.log + TicketCalls(s.tik, s.cert) + [ReadManifest(s.metaId, Encode(p), true)],
                    s.entries, p, RecordFor(TracedEnv(env), s, p))
  {
    hide Fail, Register, Encode, Handled, RecordFor, RecordAt, Writable;
    TicketResult(env, s);
    var u := ImportTicket(TracedEnv(env), s);
    TicketRights(TracedEnv(env), s, p);
    RegisterHandles(env, u, p);
  }

  lemma TicketRights<S, D>(env: Env<S, D>, s: State<S, D>, p: Package)
    requires s.stage.Complete?
    ensures var u := ImportTicket(env, s);
            !u.stage.Failed? ==> RecordAt(env, u, p) == RecordFor(env, s, p) && u.entries == s.entries && u.metaId == s.metaId && u.contentOpen == s.contentOpen
                                 && u.stage == s.stage
  {
    hide Fail, Installable;
    FailStage(env, s, BufferTooSmall);
    FailStage(env, s.(user := env.ops.importTicket(s.user, s.tik, s.cert).user), BackendError);
  }

  lemma FailStage<S, D>(env: Env<S, D>, s: State<S, D>, v: Verdict)
    ensures Fail(env, s, v).stage.Failed?
  {
  }

  /** A finish that works has read a package, and the record it registered is that package's: no other bytes are accepted. */
  lemma FinishReadPackage<S, D>(env: Env<S, D>, s: State<Traced<S>, D>)
    requires !s.contentOpen
    ensures var t := Finish(TracedEnv(env), s);
            !t.stage.Failed? ==>
              exists p :: && Writable(p) && t.meta == RecordFor(TracedEnv(env), s, p) && |p.ext| <= 0x100 && |p.infos| <= 63
                          && !SomeMissing(s.entries, p.infos)
                          && t.user.log == s.user.log + TicketCalls(s.tik, s.cert) + [ReadManifest(s.metaId, Encode(p), true)]
                                           + [RegisteredMeta(t.meta, true), PushedRecord(t.meta, true)]
  {
    hide Fail, Register, Encode, ImportTicket, RecordFor, Writable, SomeMissing, RecordOf, PackageOf, Cnmt.Parse;
    FinishCalls(env, s);
    if !Finish(TracedEnv(env), s).stage.Failed? {
      TicketResult(env, s);
      TicketKeeps(TracedEnv(env), s);
      var u := ImportTicket(TracedEnv(env), s);
      var r := TracedEnv(env).ops.readCnmt(u.user, u.metaId);
      AcceptedIsWritten(r.data);
      var p := PackageOf(r.data);
      FinishRegistersPackage(env, s, p);
    }
  }
}
