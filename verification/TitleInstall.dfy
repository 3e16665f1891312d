/**
 * Extracting a title and installing it, told in file names and bytes alone: what is committed, what is imported and what
 * is registered, without a word about how the installer tells its entries apart.
 */
module TitleInstall {
  import opened Bytes
  import opened EntryNames
  import opened InstallSpec
  import opened InstallTrace
  import opened ChunkIndependence
  import opened EntryTable
  import opened Delivery
  import opened Completion
  import opened ExtractInstall
  import opened MetaContent
  import opened FinishResult
  import opened FinishRecord
  import opened CnmtFormat
  import Cnmt
  import Pfs = PartitionFs
  import Nsp = NspBuilder
  import VirtualNsp

  // ----- what names say -----

  ghost predicate IsTicket(name: bytes) {
    HasSuffix(name, [0x2E, 0x74, 0x69, 0x6B])
  }

  ghost predicate IsCert(name: bytes) {
    HasSuffix(name, [0x2E, 0x63, 0x65, 0x72, 0x74])
  }

  ghost predicate IsPlain(name: bytes, id: bytes) {
    HasSuffix(name, [0x2E, 0x6E, 0x63, 0x61]) && NameSpells(name, id)
  }

  ghost predicate IsPacked(name: bytes, id: bytes) {
    HasSuffix(name, [0x2E, 0x6E, 0x63, 0x7A]) && NameSpells(name, id)
  }

  ghost predicate IsTitle(name: bytes, id: bytes) {
    && (|| HasSuffix(name, [0x2E, 0x63, 0x6E, 0x6D, 0x74, 0x2E, 0x6E, 0x63, 0x61])
        || HasSuffix(name, [0x2E, 0x63, 0x6E, 0x6D, 0x74, 0x2E, 0x6E, 0x63, 0x7A]))
    && NameSpells(name, id)
  }

  /** The same, kind by kind. */
  lemma NameSays(name: bytes, id: bytes)
    ensures var (kind, x) := Classify(name);
            && (kind == Ticket <==> IsTicket(name))
            && (kind == Cert <==> IsCert(name))
            && (IsContent(kind) && !IsCompressed(kind) && x == id <==> IsPlain(name, id))
            && (IsCompressed(kind) && x == id <==> IsPacked(name, id))
            && (IsMeta(kind) && x == id <==> IsTitle(name, id))
  {
    hide NameSpells, HasSuffix, Classify;
    ClassifiedByName(name, id);
    SuffixOfSuffix(name, DOT_CNMT_NCA, 5);
    SuffixOfSuffix(name, DOT_CNMT_NCZ, 5);
    assert DOT_CNMT_NCA[5..] == DOT_NCA && DOT_CNMT_NCZ[5..] == DOT_NCZ;
  }

  lemma SuffixOfSuffix(name: bytes, suffix: bytes, n: nat)
    requires n <= |suffix|
    ensures HasSuffix(name, suffix) ==> HasSuffix(name, suffix[n..])
  {
    if HasSuffix(name, suffix) {
      var stem: bytes :| name == stem + suffix;
      assert name == (stem + suffix[..n]) + suffix[n..];
    }
  }

  // ----- what a title holds -----

  ghost predicate IsContentFile(name: bytes) {
    exists id :: IsPlain(name, id) || IsPacked(name, id)
  }

  ghost predicate IsUseful(name: bytes) {
    IsContentFile(name) || IsTicket(name) || IsCert(name)
  }

  ghost function IdOf(name: bytes): (id: bytes)
    requires IsContentFile(name)
    ensures IsPlain(name, id) || IsPacked(name, id)
  {
    var id :| IsPlain(name, id) || IsPacked(name, id);
    id
  }

  /** One placeholder for each content file, in order: its id, and its own bytes in full. */
  ghost function NamedContents(fs: seq<Nsp.File>, bodies: seq<bytes>, n: nat): seq<Placeholder>
    requires VirtualNsp.BodiesOf(fs, bodies) && n <= |fs|
  {
    if n == 0 then []
    else
      NamedContents(fs, bodies, n - 1)
      + if IsContentFile(fs[n - 1].name) then [Placeholder(IdOf(fs[n - 1].name), fs[n - 1].size, bodies[n - 1])] else []
  }

  /** The bodies of the tickets, end to end. */
  ghost function TicketBytes(fs: seq<Nsp.File>, bodies: seq<bytes>, n: nat): bytes
    requires |bodies| == |fs| && n <= |fs|
  {
    if n == 0 then [] else TicketBytes(fs, bodies, n - 1) + if IsTicket(fs[n - 1].name) then bodies[n - 1] else []
  }

  /** The bodies of the certificates, end to end. */
  ghost function CertBytes(fs: seq<Nsp.File>, bodies: seq<bytes>, n: nat): bytes
    requires |bodies| == |fs| && n <= |fs|
  {
    if n == 0 then [] else CertBytes(fs, bodies, n - 1) + if IsCert(fs[n - 1].name) then bodies[n - 1] else []
  }

  lemma KindOfName(name: bytes)
    ensures Classify(name).0 == Ticket <==> IsTicket(name)
    ensures Classify(name).0 == Cert <==> IsCert(name)
    ensures IsContent(Classify(name).0) <==> IsContentFile(name)
    ensures IsContentFile(name) ==> Classify(name).1 == IdOf(name)
    ensures Classify(name).0 == Ignore <==> !IsUseful(name)
  {
    hide Classify, IsTicket, IsCert, IsPlain, IsPacked, IsTitle;
    NameSays(name, Classify(name).1);
    if IsContentFile(name) {
      NameSays(name, IdOf(name));
    }
  }

  lemma {:induction false} ContentsAreNamed(fs: seq<Nsp.File>, bodies: seq<bytes>, n: nat)
    requires VirtualNsp.BodiesOf(fs, bodies) && n <= |fs|
    ensures ContentsOf(fs, bodies, n) == NamedContents(fs, bodies, n)
  {
    hide Classify, IsContentFile, IsContent;
    if n > 0 {
      ContentsAreNamed(fs, bodies, n - 1);
      KindOfName(fs[n - 1].name);
    }
  }

  lemma {:induction false} ImportsAreNamed(fs: seq<Nsp.File>, bodies: seq<bytes>, n: nat)
    requires |bodies| == |fs| && n <= |fs|
    ensures BodiesOfKind(Ticket, fs, bodies, n) == TicketBytes(fs, bodies, n) && BodiesOfKind(Cert, fs, bodies, n) == CertBytes(fs, bodies, n)
  {
    hide Classify, IsTicket, IsCert;
    if n > 0 {
      ImportsAreNamed(fs, bodies, n - 1);
      KindOfName(fs[n - 1].name);
    }
  }

  /** A content of that id is among the files. */
  ghost predicate HasContent(fs: seq<Nsp.File>, id: bytes) {
    exists i :: 0 <= i < |fs| && (IsPlain(fs[i].name, id) || IsPacked(fs[i].name, id))
  }

  // ----- the table of a title -----

  lemma {:induction false} TableHolds(fs: seq<Nsp.File>, n: nat, id: bytes)
    requires n <= |fs| && Nsp.TotalSize(fs) < U64_LIMIT
    ensures HeldContent(TableOf(fs, n), id) <==> exists i :: 0 <= i < n && (IsPlain(fs[i].name, id) || IsPacked(fs[i].name, id))
  {
    hide Classify, IsPlain, IsPacked, Nsp.TotalSize, Nsp.HeaderSize, Nsp.DataOff;
    if n > 0 {
      var es, all, e := TableOf(fs, n - 1), TableOf(fs, n), FileEntry(fs, n - 1);
      TableHolds(fs, n - 1, id);
      NameSays(fs[n - 1].name, id);
      HeldIsPresent(es, id);
      HeldIsPresent(all, id);
      PresentGrows(es, e, id);
      assert e.kind.Ignore? ==> all == es by { NoMore(es); }
      assert IsContent(e.kind) && e.contentId == id <==> IsPlain(fs[n - 1].name, id) || IsPacked(fs[n - 1].name, id);
    }
  }

  lemma PresentGrows(es: seq<Entry>, e: Entry, id: bytes)
    ensures Present(es + [e], id) <==> Present(es, id) || (IsContent(e.kind) && e.contentId == id)
  {
    var all := es + [e];
    assert all[|es|] == e;
    if Present(es, id) {
      var i :| 0 <= i < |es| && IsContent(es[i].kind) && es[i].contentId == id;
      assert all[i] == es[i];
    }
    if Present(all, id) {
      var i :| 0 <= i < |all| && IsContent(all[i].kind) && all[i].contentId == id;
      assert i < |es| ==> es[i] == all[i];
    }
  }

  /** File `i` is the last of the title's own metas. */
  ghost predicate LastTitle(fs: seq<Nsp.File>, n: nat, i: nat, id: bytes) {
    && i < n <= |fs| && IsTitle(fs[i].name, id)
    && forall j, x :: i < j < n ==> !IsTitle(fs[j].name, x)
  }

  lemma {:induction false} TableMeta(fs: seq<Nsp.File>, n: nat, i: nat, id: bytes)
    requires n <= |fs| && Nsp.TotalSize(fs) < U64_LIMIT && LastTitle(fs, n, i, id)
    ensures LastMeta(TableOf(fs, n)) == Some(FileEntry(fs, i)) && FileEntry(fs, i).contentId == id && FileEntry(fs, i).size == fs[i].size
  {
    hide Classify, IsTitle, Nsp.TotalSize, Nsp.HeaderSize, Nsp.DataOff;
    var es, e := TableOf(fs, n - 1), FileEntry(fs, n - 1);
    NameSays(fs[i].name, id);
    NoMore(es);
    if i < n - 1 {
      NameSays(fs[n - 1].name, e.contentId);
      assert !IsTitle(fs[n - 1].name, e.contentId);
      TableMeta(fs, n - 1, i, id);
      assert !IsMeta(e.kind);
    }
    LastMetaBehind(es, e);
  }

  lemma LastMetaBehind(es: seq<Entry>, e: Entry)
    ensures LastMeta(es + [e]) == if IsMeta(e.kind) then Some(e) else LastMeta(es)
  {
    assert (es + [e])[..|es|] == es;
  }

  // ----- a title that can be installed as it is -----

  /** The files of a whole title: a meta of its own, tickets and certificates that fit their buffers, and a byte at the end. */
  ghost predicate AnyTitle(fs: seq<Nsp.File>, bodies: seq<bytes>) {
    && VirtualNsp.BodiesOf(fs, bodies)
    && (exists i, id :: 0 <= i < |fs| && IsTitle(fs[i].name, id))
    && |TicketBytes(fs, bodies, |fs|)| <= 0x1000 && |CertBytes(fs, bodies, |fs|)| <= 0x2000
    && forall i :: 0 <= i < |fs| && IsUseful(fs[i].name) ==> ByteBehind(bodies, i)
  }

  /** A whole title with nothing packed. */
  ghost predicate WholeTitle(fs: seq<Nsp.File>, bodies: seq<bytes>) {
    AnyTitle(fs, bodies) && forall i, id :: 0 <= i < |fs| ==> !IsPacked(fs[i].name, id)
  }

  ghost predicate ByteBehind(bodies: seq<bytes>, i: nat) {
    exists j :: i <= j < |bodies| && bodies[j] != []
  }

  lemma {:induction false} LastTitleIs(fs: seq<Nsp.File>, n: nat, i: nat, id: bytes) returns (k: nat, x: bytes)
    requires i < n <= |fs| && IsTitle(fs[i].name, id)
    ensures LastTitle(fs, n, k, x)
    decreases n
  {
    hide IsTitle;
    var name := fs[n - 1].name;
    if y :| IsTitle(name, y) {
      k, x := n - 1, y;
    } else {
      k, x := LastTitleIs(fs, n - 1, i, id);
    }
  }

  lemma {:induction false} TableSizes(fs: seq<Nsp.File>, bodies: seq<bytes>, n: nat)
    requires VirtualNsp.BodiesOf(fs, bodies) && n <= |fs| && Nsp.TotalSize(fs) < U64_LIMIT
    ensures SizeOf(Ticket, TableOf(fs, n)) == |TicketBytes(fs, bodies, n)| && SizeOf(Cert, TableOf(fs, n)) == |CertBytes(fs, bodies, n)|
  {
    hide Classify, IsTicket, IsCert, SizeOf, Nsp.TotalSize, Nsp.HeaderSize, Nsp.DataOff;
    NoSize();
    if n > 0 {
      var es, e := TableOf(fs, n - 1), FileEntry(fs, n - 1);
      TableSizes(fs, bodies, n - 1);
      KindOfName(fs[n - 1].name);
      NoMore(es);
      SizeBehind(Ticket, es, e);
      SizeBehind(Cert, es, e);
    }
  }

  lemma NoSize()
    ensures SizeOf(Ticket, []) == 0 && SizeOf(Cert, []) == 0
  {
  }

  lemma SizeBehind(kind: Kind, es: seq<Entry>, e: Entry)
    ensures SizeOf(kind, es + [e]) == SizeOf(kind, es) + if e.kind == kind then e.size else 0
  {
    assert (es + [e])[..|es|] == es;
  }

  lemma {:induction false} NothingPacked(fs: seq<Nsp.File>, n: nat)
    requires n <= |fs| && Nsp.TotalSize(fs) < U64_LIMIT && forall i, id :: 0 <= i < n ==> !IsPacked(fs[i].name, id)
    ensures NoCompressed(TableOf(fs, n))
  {
    hide Classify, IsPacked, Nsp.TotalSize, Nsp.HeaderSize, Nsp.DataOff;
    if n > 0 {
      NothingPacked(fs, n - 1);
      var e := FileEntry(fs, n - 1);
      NameSays(fs[n - 1].name, e.contentId);
      assert !IsPacked(fs[n - 1].name, e.contentId);
    }
  }

  /** The last entry is the last useful file's. */
  lemma {:induction false} LastUseful(fs: seq<Nsp.File>, n: nat) returns (k: nat)
    requires n <= |fs| && Nsp.TotalSize(fs) < U64_LIMIT && TableOf(fs, n) != []
    ensures k < n && IsUseful(fs[k].name) && TableOf(fs, n)[|TableOf(fs, n)| - 1] == FileEntry(fs, k)
  {
    hide Classify, IsUseful, Nsp.TotalSize, Nsp.HeaderSize, Nsp.DataOff;
    KindOfName(fs[n - 1].name);
    if FileEntry(fs, n - 1).kind.Ignore? {
      NoMore(TableOf(fs, n - 1));
      k := LastUseful(fs, n - 1);
    } else {
      k := n - 1;
    }
  }

  lemma TitleIsComplete(fs: seq<Nsp.File>, bodies: seq<bytes>)
    requires Nsp.TotalSize(fs) < U64_LIMIT && WholeTitle(fs, bodies)
    ensures TableOf(fs, |fs|) != [] && ExtractInstall.Complete(fs)
  {
    hide AnyTitle, IsPacked, Nsp.TotalSize, NoCompressed, SizeOf, TableOf, LastEnd, LastMeta;
    TitleHasTable(fs, bodies);
    NothingPacked(fs, |fs|);
  }

  lemma TitleHasTable(fs: seq<Nsp.File>, bodies: seq<bytes>)
    requires Nsp.TotalSize(fs) < U64_LIMIT && AnyTitle(fs, bodies)
    ensures var es := TableOf(fs, |fs|);
            && es != [] && LastMeta(es).Some? && SizeOf(Ticket, es) <= MAX_TICKET && SizeOf(Cert, es) <= MAX_CERT
            && (es[|es| - 1].size > 0 || LastEnd(es) < Nsp.TotalSize(fs))
  {
    hide IsTitle, IsPacked, IsUseful, TicketBytes, CertBytes, Nsp.TotalSize, Nsp.HeaderSize, Nsp.DataOff, NoCompressed,
      SizeOf, TableOf, FileEntry;
    var i, id :| 0 <= i < |fs| && IsTitle(fs[i].name, id);
    var k, x := LastTitleIs(fs, |fs|, i, id);
    TableMeta(fs, |fs|, k, x);
    assert TableOf(fs, |fs|) != [] by { SomeMeta(TableOf(fs, |fs|)); }
    TableSizes(fs, bodies, |fs|);
    var last := LastUseful(fs, |fs|);
    var j :| last <= j < |bodies| && bodies[j] != [];
    EndsBefore(fs, last, j);
  }

  lemma SomeMeta(es: seq<Entry>)
    requires LastMeta(es).Some?
    ensures es != []
  {
  }

  lemma EndsBefore(fs: seq<Nsp.File>, i: nat, j: nat)
    requires i <= j < |fs| && Nsp.TotalSize(fs) < U64_LIMIT && fs[j].size > 0
    ensures var e := FileEntry(fs, i); e.size > 0 || e.absOffset + e.size < Nsp.TotalSize(fs)
  {
    hide Classify, Nsp.HeaderSize;
    Nsp.OffsMonotone(fs, i, j);
    Nsp.OffsMonotone(fs, j + 1, |fs|);
    TotalIs(fs);
  }

  // ----- the install -----

  /** What a finished stream of a title leaves for the finish: all of it in names and bytes. */
  ghost predicate Gathers<S, D>(env: Env<Traced<S>, D>, t: State<Traced<S>, D>, fs: seq<Nsp.File>, bodies: seq<bytes>,
                                i: nat, id: bytes)
    requires VirtualNsp.BodiesOf(fs, bodies) && i < |fs|
  {
    && t.stage.Complete? && !t.contentOpen
    && t.tik == TicketBytes(fs, bodies, |fs|) && t.cert == CertBytes(fs, bodies, |fs|)
    && t.metaId == id && t.metaSize == |bodies[i]| && t.meta == EmptyMeta(env.target)
    && forall x :: HeldContent(t.entries, x) <==> HasContent(fs, x)
  }

  lemma HeaderMetaOfFiles(fs: seq<Nsp.File>, h: bytes, rest: bytes)
    requires Nsp.ValidFiles(fs) && Nsp.IsHeader(fs, h) && Nsp.TotalSize(fs) < U64_LIMIT
    ensures HeaderMeta(h + rest) == LastMeta(TableOf(fs, |fs|))
  {
    hide Nsp.ValidFiles, Nsp.IsHeader, Nsp.TotalSize, Nsp.HeaderSize, Pfs.PeekHeaderSize, Pfs.Parse, Collect, TableOf,
      SortByOffset;
    HeaderOfFiles(fs, h, rest);
    assert (h + rest)[..|h|] == h;
  }

  lemma TitleMeta<S, D>(env: Env<S, D>, user: S, d: D, fs: seq<Nsp.File>, h: bytes, bodies: seq<bytes>,
                        chunks: seq<bytes>, i: nat, id: bytes)
    requires Nsp.ValidFiles(fs) && Nsp.IsHeader(fs, h) && VirtualNsp.BodiesOf(fs, bodies) && Nsp.TotalSize(fs) < U64_LIMIT
    requires LastTitle(fs, |fs|, i, id) && Joined(chunks) == VirtualNsp.File(h, bodies)
    ensures Valid(env, Begin(env, user, d))
    ensures var t := FeedAll(env, Begin(env, user, d), chunks);
            t.stage.Complete? ==> t.metaId == id && t.meta == EmptyMeta(env.target) && (NoCompressed(t.entries) ==> t.metaSize == |bodies[i]|)
  {
    hide FeedAll, Valid, LastTitle, Nsp.ValidFiles, Nsp.IsHeader, Nsp.TotalSize, VirtualNsp.File, TableOf, FileEntry,
      HeaderMeta, NoCompressed, EmptyMeta;
    MetaIsLast(env, user, d, chunks);
    FileIs(h, bodies);
    HeaderMetaOfFiles(fs, h, VirtualNsp.Concat(bodies, |bodies|));
    TableMeta(fs, |fs|, i, id);
    LastIsFile(fs, bodies, i, id);
  }

  lemma LastIsFile(fs: seq<Nsp.File>, bodies: seq<bytes>, i: nat, id: bytes)
    requires VirtualNsp.BodiesOf(fs, bodies) && LastTitle(fs, |fs|, i, id)
    ensures i < |fs| && fs[i].size == |bodies[i]|
  {
    hide IsTitle;
  }

  lemma TitleHolds(fs: seq<Nsp.File>)
    requires Nsp.TotalSize(fs) < U64_LIMIT
    ensures forall x :: HeldContent(TableOf(fs, |fs|), x) <==> HasContent(fs, x)
  {
    hide HeldContent, TableOf, IsPlain, IsPacked, Nsp.TotalSize;
    forall x: bytes
      ensures HeldContent(TableOf(fs, |fs|), x) <==> HasContent(fs, x)
    {
      TableHolds(fs, |fs|, x);
    }
  }

  /**
   * Extract, then install, in any cuts: what has been committed is each content file's bytes under the id its name
   * spells; what has been kept for the import is the tickets' bytes and the certificates'; and the meta content is the
   * last file of that name, with the size it has.
   */
  lemma ExtractedTitleArrives<S(!new), D>(env: Env<S, D>, user: S, d: D, fs: seq<Nsp.File>, h: bytes,
                                          bodies: seq<bytes>, chunks: seq<bytes>, i: nat, id: bytes)
    requires Willing(env.ops)
    requires Nsp.ValidFiles(fs) && Nsp.IsHeader(fs, h) && VirtualNsp.BodiesOf(fs, bodies) && Nsp.TotalSize(fs) < U64_LIMIT
    requires WholeTitle(fs, bodies) && LastTitle(fs, |fs|, i, id)
    requires Joined(chunks) == VirtualNsp.File(h, bodies)
    ensures var s := Begin(TracedEnv(env), Traced(user, []), d);
            && Valid(TracedEnv(env), s)
            && var t := FeedAll(TracedEnv(env), s, chunks);
               && Run(t.user.log).stored == NamedContents(fs, bodies, |fs|) && Run(t.user.log).open.None?
               && Gathers(TracedEnv(env), t, fs, bodies, i, id)
  {
    hide Willing, FeedAll, Run, Valid, TracedEnv, WholeTitle, LastTitle, Nsp.ValidFiles, Nsp.IsHeader, Nsp.TotalSize, VirtualNsp.File,
      TableOf, NamedContents, ContentsOf, BodiesOfKind, TicketBytes, CertBytes, HeldContent, HasContent, EmptyMeta, NoCompressed, SizeOf, LastMeta;
    TitleIsComplete(fs, bodies);
    ExtractThenInstall(env, user, d, fs, h, bodies, chunks);
    ContentsAreNamed(fs, bodies, |fs|);
    ImportsAreNamed(fs, bodies, |fs|);
    TitleMeta(TracedEnv(env), Traced(user, []), d, fs, h, bodies, chunks, i, id);
    TitleHolds(fs);
  }

  lemma FileIs(h: bytes, bodies: seq<bytes>)
    ensures VirtualNsp.File(h, bodies) == h + VirtualNsp.Concat(bodies, |bodies|)
  {
  }

  // ----- the finish -----

  /** What the title's ticket adds to the calls. */
  ghost function ImportCalls(tik: bytes, cert: bytes): seq<Event> {
    if tik == [] then [] else [ImportedTicket(tik, cert, true)]
  }

  /** The record of a title: its own meta content, the manifest's contents, and the rights id of its ticket if it has one. */
  ghost function TitleRecord<S, D>(env: Env<S, D>, p: Package, id: bytes, size: u64, tik: bytes): Meta {
    var rights := if tik == [] then None else env.rightsIdOf(tik);
    Record(p, env.target, id, size, rights.Some?, if rights.Some? then rights.value else [])
  }

  /** The calls of a finish that works. */
  ghost predicate Finished<S, D>(env: Env<S, D>, so: seq<Event>, done: State<Traced<S>, D>, fs: seq<Nsp.File>,
                                 bodies: seq<bytes>, i: nat, id: bytes, p: Package)
    requires VirtualNsp.BodiesOf(fs, bodies) && i < |fs| && Writable(p)
  {
    var tik, cert := TicketBytes(fs, bodies, |fs|), CertBytes(fs, bodies, |fs|);
    var record := TitleRecord(env, p, id, fs[i].size, tik);
    && done.meta == record
    && done.user.log == so + ImportCalls(tik, cert) + [ReadManifest(id, Encode(p), true), RegisteredMeta(record, true), PushedRecord(record, true)]
  }

  /** The manifest can be registered: short enough, and every content it lists for installing is among the files. */
  ghost predicate Registrable(fs: seq<Nsp.File>, p: Package) {
    && |p.ext| <= 0x100 && |p.infos| <= 63
    && forall k :: 0 <= k < |p.infos| && p.infos[k].contentType != 6 ==> HasContent(fs, p.infos[k].contentId)
  }

  lemma RegistrableIs(es: seq<Entry>, fs: seq<Nsp.File>, p: Package)
    requires forall x :: HeldContent(es, x) <==> HasContent(fs, x)
    ensures Registrable(fs, p) <==> |p.ext| <= 0x100 && |p.infos| <= 63 && !SomeMissing(es, p.infos)
  {
    hide HeldContent, HasContent;
  }

  lemma FinishedIs<S, D>(env: Env<S, D>, t: State<Traced<S>, D>, done: State<Traced<S>, D>, fs: seq<Nsp.File>,
                         bodies: seq<bytes>, i: nat, id: bytes, p: Package)
    requires VirtualNsp.BodiesOf(fs, bodies) && i < |fs| && Writable(p) && Gathers(TracedEnv(env), t, fs, bodies, i, id)
    requires done.meta == RecordFor(TracedEnv(env), t, p)
    requires done.user.log == t.user.log + TicketCalls(t.tik, t.cert) + [ReadManifest(t.metaId, Encode(p), true)]
                              + [RegisteredMeta(done.meta, true), PushedRecord(done.meta, true)]
    ensures Finished(env, t.user.log, done, fs, bodies, i, id, p)
  {
    hide Encode, Writable, TicketBytes, CertBytes, HeldContent, HasContent, Record;
    var so := t.user.log + TicketCalls(t.tik, t.cert);
    assert so + [ReadManifest(t.metaId, Encode(p), true)] + [RegisteredMeta(done.meta, true), PushedRecord(done.meta, true)]
        == so + [ReadManifest(t.metaId, Encode(p), true), RegisteredMeta(done.meta, true), PushedRecord(done.meta, true)];
    var tik := t.tik;
    assert fs[i].size == |bodies[i]|;
    assert TracedEnv(env).rightsIdOf == env.rightsIdOf && TracedEnv(env).target == env.target;
  }

  /**
   * Whatever the hooks do: an extracted title whose install finishes well has imported its tickets' and certificates'
   * bytes, in that order, if it has a ticket, and has registered and pushed exactly the record that the manifest it
   * read spells; every content registered is among its files.
   */
  lemma ExtractedTitleRegisters<S(!new), D>(env: Env<S, D>, user: S, d: D, fs: seq<Nsp.File>, h: bytes,
                                            bodies: seq<bytes>, chunks: seq<bytes>, i: nat, id: bytes)
    requires Willing(env.ops)
    requires Nsp.ValidFiles(fs) && Nsp.IsHeader(fs, h) && VirtualNsp.BodiesOf(fs, bodies) && Nsp.TotalSize(fs) < U64_LIMIT
    requires WholeTitle(fs, bodies) && LastTitle(fs, |fs|, i, id)
    requires Joined(chunks) == VirtualNsp.File(h, bodies)
    ensures var s := Begin(TracedEnv(env), Traced(user, []), d);
            && Valid(TracedEnv(env), s)
            && var t := FeedAll(TracedEnv(env), s, chunks);
               var done := Finish(TracedEnv(env), t);
               !done.stage.Failed? ==> exists p :: Writable(p) && Registrable(fs, p) && Finished(env, t.user.log, done, fs, bodies, i, id, p)
  {
    hide Willing, FeedAll, Finish, Run, Valid, TracedEnv, WholeTitle, LastTitle, Nsp.ValidFiles, Nsp.IsHeader, Nsp.TotalSize, VirtualNsp.File,
      NamedContents, Gathers, Finished, Registrable, Writable, Encode, RecordFor, SomeMissing;
    ExtractedTitleArrives(env, user, d, fs, h, bodies, chunks, i, id);
    var t := FeedAll(TracedEnv(env), Begin(TracedEnv(env), Traced(user, []), d), chunks);
    LastIsFile(fs, bodies, i, id);
    GathersIs(TracedEnv(env), t, fs, bodies, i, id);
    FinishReadPackage(env, t);
    var done := Finish(TracedEnv(env), t);
    if !done.stage.Failed? {
      var p :| && Writable(p) && done.meta == RecordFor(TracedEnv(env), t, p) && |p.ext| <= 0x100 && |p.infos| <= 63
               && !SomeMissing(t.entries, p.infos)
               && done.user.log == t.user.log + TicketCalls(t.tik, t.cert) + [ReadManifest(t.metaId, Encode(p), true)]
                                   + [RegisteredMeta(done.meta, true), PushedRecord(done.meta, true)];
      RegistrableIs(t.entries, fs, p);
      FinishedIs(env, t, done, fs, bodies, i, id, p);
    }
  }

  lemma GathersIs<S, D>(env: Env<Traced<S>, D>, t: State<Traced<S>, D>, fs: seq<Nsp.File>, bodies: seq<bytes>, i: nat, id: bytes)
    requires VirtualNsp.BodiesOf(fs, bodies) && i < |fs| && Gathers(env, t, fs, bodies, i, id)
    ensures !t.contentOpen && t.stage.Complete? && (forall x :: HeldContent(t.entries, x) <==> HasContent(fs, x))
  {
    hide HeldContent, HasContent;
  }

  /** The finishing hooks all work, and the manifest read back is this package. */
  ghost predicate Obliging<S(!new)>(ops: BackendOps<S>, p: Package)
    requires Writable(p)
  {
    && (forall s: S, tik: bytes, cert: bytes :: ops.importTicket(s, tik, cert).ok)
    && (forall s: S, id: bytes :: ops.readCnmt(s, id).ok && ops.readCnmt(s, id).data == Encode(p))
    && (forall s: S, m: Meta :: ops.registerMeta(s, m).ok)
    && (forall s: S, m: Meta :: ops.pushRecord(s, m).ok)
  }

  lemma ImportWorks<S(!new), D>(env: Env<S, D>, t: State<Traced<S>, D>, p: Package)
    requires Writable(p) && Obliging(env.ops, p) && t.stage.Complete?
    ensures ImportTicket(TracedEnv(env), t).stage.Failed? <==> t.tik != [] && t.cert == []
  {
    hide Fail, Encode, Writable;
    FailShape(TracedEnv(env), t, BufferTooSmall);
    var r := env.ops.importTicket(t.user.inner, t.tik, t.cert);
    assert r.ok;
    assert TracedEnv(env).ops.importTicket(t.user, t.tik, t.cert) == Logged(r, t.user.log, ImportedTicket(t.tik, t.cert, r.ok));
  }

  lemma LoneTicketFails<S, D>(env: Env<S, D>, t: State<S, D>)
    requires t.stage.Complete? && ImportTicket(env, t).stage.Failed?
    ensures Finish(env, t).stage.Failed?
  {
    hide Fail;
  }

  /** When all that was read and written works, the finish has no reason to fail but three that are the title's own. */
  lemma FinishWorksIff<S(!new), D>(env: Env<S, D>, t: State<Traced<S>, D>, p: Package)
    requires Writable(p) && Obliging(env.ops, p) && t.stage.Complete? && !t.contentOpen
    ensures var done := Finish(TracedEnv(env), t);
            !done.stage.Failed? <==> && |p.ext| <= 0x100 && |p.infos| <= 63 && !SomeMissing(t.entries, p.infos) && (t.tik == [] || t.cert != [])
  {
    hide Fail, Encode, Writable, Register, SomeMissing, RecordFor, ImportTicket;
    ImportWorks(env, t, p);
    var u := ImportTicket(TracedEnv(env), t);
    if u.stage.Failed? {
      LoneTicketFails(TracedEnv(env), t);
    } else {
      var r := env.ops.readCnmt(u.user.inner, t.metaId);
      assert r.ok && r.data == Encode(p);
      FinishRegistersPackage(env, t, p);
      NeverRefused(env, t, p);
    }
  }

  /** Registering and pushing work, so no record of a finish says otherwise. */
  lemma NeverRefused<S(!new), D>(env: Env<S, D>, t: State<Traced<S>, D>, p: Package)
    requires Writable(p) && Obliging(env.ops, p) && t.stage.Complete?
    ensures !ImportTicket(TracedEnv(env), t).stage.Failed? && Finish(TracedEnv(env), t).stage.Failed? ==> Finish(TracedEnv(env), t).stage.verdict != BackendError
  {
    hide Encode, Writable, ImportTicket, Register;
    var u := ImportTicket(TracedEnv(env), t);
    if !u.stage.Failed? {
      RegisterWorks(env, u, p);
    }
  }

  lemma RegisterWorks<S(!new), D>(env: Env<S, D>, u: State<Traced<S>, D>, p: Package)
    requires Writable(p) && Obliging(env.ops, p) && !u.stage.Failed?
    ensures Register(TracedEnv(env), u).stage.Failed? ==> Register(TracedEnv(env), u).stage.verdict != BackendError
  {
    hide Encode, Writable, Cnmt.Parse, BuildMeta, Fail, Publish, SomeMissing, RecordAt;
    var r := TracedEnv(env).ops.readCnmt(u.user, u.metaId);
    assert env.ops.readCnmt(u.user.inner, u.metaId).ok;
    var v := u.(user := r.user);
    BuildsRecord(TracedEnv(env), v, p);
    var (b, w) := BuildMeta(TracedEnv(env), v, Cnmt.Parse(Encode(p)).value);
    if w.Some? {
      FailShape(TracedEnv(env), b, w.value);
    } else {
      PublishWorks(env, b, p);
    }
  }

  lemma PublishWorks<S(!new), D>(env: Env<S, D>, b: State<Traced<S>, D>, p: Package)
    requires Writable(p) && Obliging(env.ops, p)
    ensures Publish(TracedEnv(env), b).stage == b.stage
  {
    hide Encode, Writable, Fail;
    var r := env.ops.registerMeta(b.user.inner, b.meta);
    assert r.ok && env.ops.pushRecord(r.user, b.meta).ok;
  }

  /** With hooks that all work, an extracted title installs exactly when its manifest can be registered and a ticket comes with its certificates. */
  lemma ExtractedTitleInstallsIff<S(!new), D>(env: Env<S, D>, user: S, d: D, fs: seq<Nsp.File>, h: bytes,
                                              bodies: seq<bytes>, chunks: seq<bytes>, i: nat, id: bytes, p: Package)
    requires Willing(env.ops) && Writable(p) && Obliging(env.ops, p)
    requires Nsp.ValidFiles(fs) && Nsp.IsHeader(fs, h) && VirtualNsp.BodiesOf(fs, bodies) && Nsp.TotalSize(fs) < U64_LIMIT
    requires WholeTitle(fs, bodies) && LastTitle(fs, |fs|, i, id)
    requires Joined(chunks) == VirtualNsp.File(h, bodies)
    ensures var s := Begin(TracedEnv(env), Traced(user, []), d);
            && Valid(TracedEnv(env), s)
            && (!Finish(TracedEnv(env), FeedAll(TracedEnv(env), s, chunks)).stage.Failed? <==>
                  Registrable(fs, p) && (TicketBytes(fs, bodies, |fs|) == [] || CertBytes(fs, bodies, |fs|) != []))
  {
    hide Willing, FeedAll, Finish, Run, Valid, TracedEnv, WholeTitle, LastTitle, Nsp.ValidFiles, Nsp.IsHeader, Nsp.TotalSize, VirtualNsp.File,
      NamedContents, Registrable, Writable, Encode, SomeMissing, TicketBytes, CertBytes, Obliging, HeldContent, HasContent, EmptyMeta;
    ExtractedTitleArrives(env, user, d, fs, h, bodies, chunks, i, id);
    LastIsFile(fs, bodies, i, id);
    var t := FeedAll(TracedEnv(env), Begin(TracedEnv(env), Traced(user, []), d), chunks);
    RegistrableIs(t.entries, fs, p);
    FinishWorksIff(env, t, p);
  }
}
