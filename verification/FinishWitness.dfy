/**
 * A run that finishes well although it has registered a content that was never committed: the content's
 * compressed file is one byte long, so its decoder ends before it has begun, and nothing is missed.
 */
module FinishWitness {
  import opened Bytes
  import opened EntryNames
  import opened InstallSpec
  import opened InstallTrace
  import opened ChunkIndependence
  import opened CutDependence
  import opened Delivery
  import opened FinishResult
  import opened NczDecode
  import opened NczRebuild
  import opened NszDelivery
  import opened ContainerWitness
  import Ncz
  import Pfs = PartitionFs
  import Nsp = NspBuilder
  import Cnmt

  const META_ID: bytes := [1, 1, 1, 1, 1, 1, 1, 1, 1, 1, 1, 1, 1, 1, 1, 1]

  function NczName(id: bytes): bytes {
    FormatId(id) + DOT_NCZ
  }

  lemma NczNameClassifies(id: bytes)
    requires |id| == ID_SIZE
    ensures Classify(NczName(id)) == (Ncz, id) && Nsp.NameFits(NczName(id)) && |NczName(id)| == 36
  {
    HexRoundTrip(id);
    NoZeroInHex(id);
    var s, n := FormatId(id), NczName(id);
    StemOf(s, DOT_NCZ);
    assert n[|n| - 4..] == DOT_NCZ;
    assert n[|n| - 9] == s[|s| - 5] && s[|s| - 5] in s;
    assert n[|n| - 9..][0] != DOT_CNMT_NCZ[0] && n[|n| - 1] == 0x7A;
    assert !EndsWith(n, DOT_CNMT_NCA) && !EndsWith(n, DOT_NCA) by { LastDiffers(n, DOT_CNMT_NCA); LastDiffers(n, DOT_NCA); }
  }

  lemma LastDiffers(name: bytes, suffix: bytes)
    requires name != [] && suffix != [] && name[|name| - 1] != suffix[|suffix| - 1]
    ensures !EndsWith(name, suffix)
  {
    if |name| >= |suffix| {
      assert name[|name| - |suffix|..][|suffix| - 1] == name[|name| - 1];
    }
  }

  // ----- the container -----

  /** A compressed content of one byte, then the meta content of one byte. */
  function ShortHeader(): bytes {
    HeaderOf(Pfs.Entry(NczName(NO_ID), 0, 1), Pfs.Entry(MetaNcaName(META_ID), 1, 1))
  }

  const SHORT: Entry := Entry(0, Kind.Ncz, NO_ID, 143, 1)
  const META: Entry := Entry(1, MetaNca, META_ID, 144, 1)

  lemma ShortLayout()
    ensures |ShortHeader()| == 143 && Layout(ShortHeader()) == Some(([SHORT, META], 143))
  {
    hide HeaderOf, Layout, NczName, MetaNcaName, Classify;
    NczNameClassifies(NO_ID);
    NamesClassify(META_ID);
    NamesFit(META_ID);
    HeaderParses(Pfs.Entry(NczName(NO_ID), 0, 1), Pfs.Entry(MetaNcaName(META_ID), 1, 1));
    HeaderLayout(Pfs.Entry(NczName(NO_ID), 0, 1), Pfs.Entry(MetaNcaName(META_ID), 1, 1));
  }

  /** A manifest that lists one content, the one with the id of zeros. */
  function ShortCnmt(): bytes {
    Zeros(0x10) + [1] + Zeros(0x47)
  }

  lemma CnmtParses()
    ensures var r := Cnmt.Parse(ShortCnmt());
            r.Ok? && r.value.contentCount == 1 && r.value.extHeaderSize == 0
            && Cnmt.GetContentInfo(r.value, 0).value.contentId == NO_ID && Cnmt.GetContentInfo(r.value, 0).value.contentType == 0
  {
    hide RdU64, RdU32, RdU40;
    var d := ShortCnmt();
    assert RdU16(d, 0x0E) == 0 && RdU16(d, 0x10) == 1 && RdU16(d, 0x12) == 0;
    assert d[0x40..0x50] == NO_ID;
  }

  // ----- the hooks -----

  /** A backend that accepts everything. */
  const Agreeable: BackendOps<()> := BackendOps(
    (u: (), id, size) => Reply(true, u),
    (u: (), data) => Reply(true, u),
    (u: ()) => Reply(true, u),
    (u: ()) => u,
    (u: (), id) => ReadReply(true, ShortCnmt(), u),
    (u: (), tik, cert) => Reply(true, u),
    (u: (), m) => Reply(true, u),
    (u: (), m) => Reply(true, u),
    (u: (), m) => u)

  lemma AgreeableAgrees(u: Traced<()>)
    ensures var ops := TracedOps(Agreeable);
            && (forall id, size :: ops.contentBegin(u, id, size).ok)
            && (forall data :: ops.contentWrite(u, data).ok)
            && ops.contentCommit(u).ok
            && (forall id :: ops.readCnmt(u, id).ok && ops.readCnmt(u, id).data == ShortCnmt())
            && (forall m :: ops.registerMeta(u, m).ok) && (forall m :: ops.pushRecord(u, m).ok)
  {
    hide ShortCnmt;
    forall id: bytes, size: u64
      ensures TracedOps(Agreeable).contentBegin(u, id, size).ok
    {
      assert Agreeable.contentBegin(u.inner, id, size).ok;
    }
    forall data: bytes
      ensures TracedOps(Agreeable).contentWrite(u, data).ok
    {
      assert Agreeable.contentWrite(u.inner, data).ok;
    }
    forall m: Meta
      ensures TracedOps(Agreeable).registerMeta(u, m).ok && TracedOps(Agreeable).pushRecord(u, m).ok
    {
      assert Agreeable.registerMeta(u.inner, m).ok && Agreeable.pushRecord(u.inner, m).ok;
    }
  }

  ghost function ShortEnv<Z(!new)>(zstd: Zstd<Z>, aes: BlockCipher, target: u8): Env<(), Decoder<Z>>
    requires Sound(zstd)
  {
    Env(Agreeable, Some(DecoderOps(zstd, aes)), target, _ => None)
  }

  // ----- the run -----

  /** One byte is buffered, and a decoder that has only buffered ends well. */
  lemma OneByteFed<Z(!new)>(zstd: Zstd<Z>, aes: BlockCipher, d: Decoder<Z>, b: byte)
    requires Sound(zstd)
    ensures var ops := DecoderOps(zstd, aes);
            var r := ops.feed(Fresh(d), [b]);
            r.ok && r.emissions == [] && ops.end(r.user).ok
  {
    hide FeedEntry, DecoderOk, Flat, Ncz.Parse, Inflate;
    FreshIsFedAlong(zstd, aes, d);
    assert [] + [[b]] == [[b]];
    FeedAdds(zstd, aes, Fresh(d), d.z, [], [b]);
    HistoryMore([], [b]);
    ShortHasNoTable([b]);
    assert [] + [b] == [b];
    var r := FeedEntry(zstd, aes, Fresh(d), [b]);
    assert [] + Flat(r.emissions) == Flat(r.emissions);
    if r.emissions != [] {
      SomethingSent(r.emissions);
    }
  }

  lemma SomethingSent(ems: seq<Emission>)
    requires NoEmptyEmission(ems) && ems != []
    ensures Flat(ems) != []
  {
    assert |Tag(ems[0])| == |ems[0].data| > 0;
  }

  lemma ShortEntryPasses<Z(!new)>(zstd: Zstd<Z>, aes: BlockCipher, target: u8, s: State<Traced<()>, Decoder<Z>>, b: byte)
    requires Sound(zstd) && s.stage.Streaming? && s.cursor == 0 && s.entries == [SHORT, META] && !s.contentOpen && !s.nczActive && s.streamPos == 143
    ensures var t := StepEntry(TracedEnv(ShortEnv(zstd, aes, target)), s, [b]);
            && t.stage.Streaming? && t.cursor == 1 && t.entries == s.entries && !t.contentOpen && !t.nczActive && t.streamPos == 144
  {
    hide TracedOps, DecoderOps, FeedEntry, Fail, Fresh;
    var env := TracedEnv(ShortEnv(zstd, aes, target));
    OneByteFed(zstd, aes, s.nczUser, b);
    BeginsFresh(zstd, aes, s.nczUser);
    AdvanceTwice(143, 1, 0);
  }

  lemma BeginsFresh<Z(!new)>(zstd: Zstd<Z>, aes: BlockCipher, d: Decoder<Z>)
    requires Sound(zstd)
    ensures DecoderOps(zstd, aes).begin(d) == Reply(true, Fresh(d))
  {
  }

  lemma MetaEntryPasses<Z(!new)>(zstd: Zstd<Z>, aes: BlockCipher, target: u8, s: State<Traced<()>, Decoder<Z>>, b: byte)
    requires Sound(zstd) && s.stage.Streaming? && s.cursor == 1 && s.entries == [SHORT, META] && !s.contentOpen && !s.nczActive && s.streamPos == 144
    ensures StepEntry(TracedEnv(ShortEnv(zstd, aes, target)), s, [b]).stage.Complete?
  {
    hide DecoderOps, Fail, TracedOps;
    AdvanceTwice(144, 1, 0);
    forall u: Traced<()>
      ensures TracedOps(Agreeable).contentWrite(u, [b]).ok && TracedOps(Agreeable).contentCommit(u).ok
    {
      AgreeableAgrees(u);
    }
    AgreeableAgrees(s.user);
  }

  function ShortChunks(): seq<bytes> {
    [ShortHeader(), [1], [2]]
  }

  /** The installer after the header, one byte and another. */
  ghost function ShortRun<Z(!new)>(zstd: Zstd<Z>, aes: BlockCipher, target: u8, d: Decoder<Z>): State<Traced<()>, Decoder<Z>>
    requires Sound(zstd) && Valid(TracedEnv(ShortEnv(zstd, aes, target)), Begin(TracedEnv(ShortEnv(zstd, aes, target)), Traced((), []), d))
  {
    var env := TracedEnv(ShortEnv(zstd, aes, target));
    FeedAll(env, Begin(env, Traced((), []), d), ShortChunks())
  }

  lemma ShortCompletes<Z(!new)>(zstd: Zstd<Z>, aes: BlockCipher, target: u8, d: Decoder<Z>)
    requires Sound(zstd)
    ensures var env := TracedEnv(ShortEnv(zstd, aes, target)); Valid(env, Begin(env, Traced((), []), d))
    ensures ShortRun(zstd, aes, target, d).stage.Complete?
  {
    hide Feed, Layout, ShortHeader, StepEntry, ShortEnv, TracedEnv;
    var env := TracedEnv(ShortEnv(zstd, aes, target));
    ShortLayout();
    var h := ShortHeader();
    HeaderIsRead(env, Traced((), []), d, h);
    var s := Feed(env, Begin(env, Traced((), []), d), h);
    ShortEntryPasses(zstd, aes, target, s, 1);
    OneRound(env, s, 1);
    var t := Feed(env, s, [1]);
    MetaEntryPasses(zstd, aes, target, t, 2);
    OneRound(env, t, 2);
    assert [h, [1], [2]][1..] == [[1], [2]] && [[1], [2]][1..] == [[2]] && [[2]][1..] == [];
  }

  /** A byte that ends the current entry takes one round. */
  lemma OneRound<S, D>(env: Env<S, D>, s: State<S, D>, b: byte)
    requires Valid(env, s) && s.stage.Streaming? && s.cursor < |s.entries|
    requires s.entries[s.cursor].absOffset == s.streamPos && s.streamPos + 1 == EntryEnd(s.entries[s.cursor])
    requires !StepEntry(env, s, [b]).stage.Failed?
    ensures Feed(env, s, [b]) == StepEntry(env, s, [b])
  {
    hide StepEntry, Feed;
    FeedStep(env, s, [b]);
    assert [b][..1] == [b] && [b][1..] == [];
    FeedNothing(env, Iter(env, s, [b]).0);
  }

  lemma ShortIsExact<Z(!new)>(zstd: Zstd<Z>, aes: BlockCipher, target: u8, d: Decoder<Z>)
    requires Sound(zstd)
    ensures var env := TracedEnv(ShortEnv(zstd, aes, target)); Valid(env, Begin(env, Traced((), []), d))
    ensures |Joined(ShortChunks())| == 145 && DisjointStream(Joined(ShortChunks()))
    ensures var s := ShortRun(zstd, aes, target, d); s.stage.Complete? && s.entries == [SHORT, META] && s.tik == []
  {
    hide Layout, ShortHeader, Exact, FeedAll, DecoderOps, TracedOps;
    ShortCompletes(zstd, aes, target, d);
    ShortLayout();
    var h, env := ShortHeader(), ShortEnv(zstd, aes, target);
    assert Joined([h, [1], [2]]) == h + [1, 2] by { JoinedThree(h); }
    LayoutStays(h, [1, 2]);
    RunExact(zstd, aes, env, (), d, ShortChunks());
    ExactShape(zstd, aes, ShortRun(zstd, aes, target, d), ShortChunks());
  }

  lemma JoinedThree(h: bytes)
    ensures Joined([h, [1], [2]]) == h + [1, 2]
  {
    assert [h, [1], [2]][1..] == [[1], [2]] && [[1], [2]][1..] == [[2]] && [[2]][1..] == [];
    assert Joined([[2]]) == [2] + [] && Joined([[1], [2]]) == [1] + Joined([[2]]);
  }

  lemma ExactShape<Z(!new)>(zstd: Zstd<Z>, aes: BlockCipher, s: State<Traced<()>, Decoder<Z>>, chunks: seq<bytes>)
    requires Sound(zstd) && Exact(zstd, aes, s, chunks) && s.stage.Complete?
    requires Layout(Joined(chunks)).Some? && Layout(Joined(chunks)).value.0 == [SHORT, META]
    ensures s.entries == [SHORT, META] && s.tik == []
  {
    hide Layout, Owed, AllEnded, Run, StoredIs, InStep, OpenIs, Past, DisjointEntries, MetaListed, Joined, Gathered;
    NoTicketGathered(Joined(chunks));
  }

  lemma NoTicketGathered(stream: bytes)
    ensures Gathered(Ticket, [SHORT, META], stream) == []
  {
    hide Arrived;
    assert [SHORT, META][..1] == [SHORT] && [SHORT][..0] == [];
    assert Gathered(Ticket, [SHORT], stream) == [];
  }

  // ----- the finish -----

  lemma FinishWorks<Z(!new)>(zstd: Zstd<Z>, aes: BlockCipher, target: u8, s: State<Traced<()>, Decoder<Z>>)
    requires Sound(zstd) && s.stage.Complete? && s.entries == [SHORT, META] && s.tik == []
    ensures var t := Finish(TracedEnv(ShortEnv(zstd, aes, target)), s);
            !t.stage.Failed? && |t.meta.contents| == 2 && t.meta.contents[1].contentId == NO_ID
  {
    hide DecoderOps, Fail, BuildMeta, ShortCnmt, TracedOps, Cnmt.Parse, Cnmt.ValidManifest;
    var env := TracedEnv(ShortEnv(zstd, aes, target));
    AgreeableAgrees(s.user);
    var r := env.ops.readCnmt(s.user, s.metaId);
    var u := s.(user := r.user);
    ManifestBuilds(env, u);
    var m := Cnmt.Parse(ShortCnmt()).value;
    var b := BuildMeta(env, u, m).0;
    AgreeableAgrees(b.user);
    AgreeableAgrees(env.ops.registerMeta(b.user, b.meta).user);
  }

  lemma ManifestBuilds<S, D>(env: Env<S, D>, s: State<S, D>)
    requires s.entries == [SHORT, META] && s.stage.Complete?
    ensures Cnmt.Parse(ShortCnmt()).Ok?
    ensures var (t, v) := BuildMeta(env, s, Cnmt.Parse(ShortCnmt()).value);
            v.None? && t.stage.Complete? && |t.meta.contents| == 2 && t.meta.contents[1].contentId == NO_ID
  {
    hide Cnmt.Parse, Cnmt.GetContentInfo, Cnmt.ExtHeader, BuildMeta, ShortCnmt, Present;
    CnmtParses();
    var m := Cnmt.Parse(ShortCnmt()).value;
    assert Listed(m, 0) == [];
    assert Listed(m, 1) == [ContentOf(Cnmt.GetContentInfo(m, 0).value)];
    ShortIsPresent();
    BuildMetaResult(env, s, m);
  }

  lemma ShortIsPresent()
    ensures Present([SHORT, META], NO_ID)
  {
    assert [SHORT, META][0] == SHORT;
  }

  /**
   * The whole run: header, content, meta content, finish. The finish reports success, the record it registered
   * lists the content of zeros, and no placeholder of that id was ever committed.
   */
  lemma FinishRegistersUncommitted<Z(!new)>(zstd: Zstd<Z>, aes: BlockCipher, target: u8, d: Decoder<Z>)
    requires Sound(zstd)
    ensures var env := TracedEnv(ShortEnv(zstd, aes, target)); Valid(env, Begin(env, Traced((), []), d))
    ensures var s := ShortRun(zstd, aes, target, d);
            var t := Finish(TracedEnv(ShortEnv(zstd, aes, target)), s);
            && !t.stage.Failed? && t.meta.contents != [] && (exists i :: 0 <= i < |t.meta.contents| && t.meta.contents[i].contentId == NO_ID)
            && !IsStored(Run(s.user.log).stored, NO_ID)
  {
    hide ShortRun, Finish, Run, IsStored, ShortChunks, ShortEnv, DisjointStream;
    ShortIsExact(zstd, aes, target, d);
    var s := ShortRun(zstd, aes, target, d);
    FinishWorks(zstd, aes, target, s);
    assert Finish(TracedEnv(ShortEnv(zstd, aes, target)), s).meta.contents[1].contentId == NO_ID;
    ShortNotStored(zstd, aes, target, d);
  }

  lemma ShortNotStored<Z(!new)>(zstd: Zstd<Z>, aes: BlockCipher, target: u8, d: Decoder<Z>)
    requires Sound(zstd)
    requires var env := TracedEnv(ShortEnv(zstd, aes, target)); Valid(env, Begin(env, Traced((), []), d))
    requires |Joined(ShortChunks())| == 145 && DisjointStream(Joined(ShortChunks()))
    requires var s := ShortRun(zstd, aes, target, d);
             var t := Finish(TracedEnv(ShortEnv(zstd, aes, target)), s);
             s.entries == [SHORT, META] && !t.stage.Failed? && |t.meta.contents| == 2 && t.meta.contents[1].contentId == NO_ID
    ensures !IsStored(Run(ShortRun(zstd, aes, target, d).user.log).stored, NO_ID)
  {
    hide Finish, Run, IsStored, Present, Lasting, ShortChunks, DisjointStream, FeedAll, TracedEnv, DecoderOps;
    FinishRegistersRebuilt(zstd, aes, ShortEnv(zstd, aes, target), (), d, ShortChunks());
    var t := Finish(TracedEnv(ShortEnv(zstd, aes, target)), ShortRun(zstd, aes, target, d));
    assert t.meta.contents[1].contentId == NO_ID;
    ShortDoesNotLast(Joined(ShortChunks()));
    assert META_ID[0] != NO_ID[0];
  }

  lemma ShortDoesNotLast(stream: bytes)
    requires |stream| == 145
    ensures !Lasting(SHORT, stream)
  {
    assert |Arrived(SHORT, stream)| == 1;
  }
}
