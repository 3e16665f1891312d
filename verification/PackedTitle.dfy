/** Installing a title whose contents are packed: what is committed are the files they were packed from. */
module PackedTitle {
  import opened Bytes
  import opened EntryNames
  import opened InstallSpec
  import opened InstallTrace
  import opened ChunkIndependence
  import opened EntryTable
  import opened Delivery
  import opened Completion
  import opened ExtractInstall
  import opened TitleInstall
  import opened NczDecode
  import NczRebuild
  import opened NczCuts
  import opened NczFormat
  import opened NczPacking
  import opened NszDelivery
  import opened NszCompletion
  import Nsp = NspBuilder
  import VirtualNsp

  /** The body packs this file, or is it. */
  ghost predicate Holds<Z(!new), Y>(zstd: Zstd<Z>, m: Meaning<Z, Y>, aes: BlockCipher, name: bytes, body: bytes, file: bytes)
    requires Sound(zstd)
  {
    if exists id :: IsPacked(name, id)
    then exists rows, plain, packed :: PackedFrom(zstd, m, aes, rows, file, plain, packed, body)
    else body == file
  }

  ghost predicate Sized(fs: seq<Nsp.File>, files: seq<bytes>) {
    |files| == |fs| && forall i :: 0 <= i < |files| ==> |files[i]| < U64_LIMIT
  }

  ghost predicate AllHold<Z(!new), Y>(zstd: Zstd<Z>, m: Meaning<Z, Y>, aes: BlockCipher, fs: seq<Nsp.File>,
                                      bodies: seq<bytes>, files: seq<bytes>)
    requires Sound(zstd)
  {
    && VirtualNsp.BodiesOf(fs, bodies) && Sized(fs, files)
    && forall i :: 0 <= i < |fs| ==> Holds(zstd, m, aes, fs[i].name, bodies[i], files[i])
  }

  /** One placeholder for each content file, in order: the id its name spells, and the file packed in it. */
  ghost function Unpacked(fs: seq<Nsp.File>, files: seq<bytes>, n: nat): seq<Placeholder>
    requires Sized(fs, files) && n <= |fs|
  {
    if n == 0 then []
    else
      Unpacked(fs, files, n - 1)
      + if IsContentFile(fs[n - 1].name) then [Placeholder(IdOf(fs[n - 1].name), |files[n - 1]|, files[n - 1])] else []
  }

  lemma PackedName(name: bytes)
    ensures IsCompressed(Classify(name).0) <==> exists id :: IsPacked(name, id)
  {
    hide Classify, IsPacked, IsPlain, IsTicket, IsCert, IsTitle;
    NameSays(name, Classify(name).1);
    if id :| IsPacked(name, id) {
      NameSays(name, id);
    }
  }

  /** What one file of the title describes is the file it holds. */
  lemma FileIsDescribed<Z(!new), Y>(zstd: Zstd<Z>, m: Meaning<Z, Y>, aes: BlockCipher, fs: seq<Nsp.File>, h: bytes,
                                    bodies: seq<bytes>, files: seq<bytes>, i: nat)
    requires Sound(zstd) && AllHold(zstd, m, aes, fs, bodies, files) && |h| == Nsp.HeaderSize(fs) && Nsp.TotalSize(fs) < U64_LIMIT && i < |fs|
    ensures var e, name := FileEntry(fs, i), fs[i].name;
            var x := Arrived(e, VirtualNsp.File(h, bodies));
            && (e.kind.Ignore? ==> !IsContentFile(name))
            && (IsCompressed(e.kind) ==> Clean(zstd, m, x) && Rebuild(zstd, m, aes, x).Some?)
            && DescribedFor(zstd, m, aes, e, VirtualNsp.File(h, bodies)) == if IsContentFile(name) then [Placeholder(IdOf(name), |files[i]|, files[i])] else []
  {
    hide Classify, IsPacked, IsContentFile, IsTicket, IsCert, Nsp.TotalSize, Nsp.HeaderSize, Nsp.DataOff,
      VirtualNsp.File, Arrived, Clean, Rebuild, PackedFrom;
    BodyArrives(fs, h, bodies, i);
    KindOfName(fs[i].name);
    PackedName(fs[i].name);
    assert Holds(zstd, m, aes, fs[i].name, bodies[i], files[i]);
    if IsCompressed(FileEntry(fs, i).kind) {
      var rows, plain, packed :| PackedFrom(zstd, m, aes, rows, files[i], plain, packed, bodies[i]);
      PackedIsDescribed(zstd, m, aes, rows, files[i], plain, packed, bodies[i]);
    }
  }

  lemma {:induction false} TableIsDescribed<Z(!new), Y>(zstd: Zstd<Z>, m: Meaning<Z, Y>, aes: BlockCipher,
                                                        fs: seq<Nsp.File>, h: bytes, bodies: seq<bytes>,
                                                        files: seq<bytes>, n: nat)
    requires Sound(zstd) && AllHold(zstd, m, aes, fs, bodies, files) && |h| == Nsp.HeaderSize(fs) && Nsp.TotalSize(fs) < U64_LIMIT && n <= |fs|
    ensures Described(zstd, m, aes, TableOf(fs, n), VirtualNsp.File(h, bodies)) == Unpacked(fs, files, n)
  {
    hide Classify, IsContentFile, Nsp.TotalSize, Nsp.HeaderSize, Nsp.DataOff, VirtualNsp.File, Described, DescribedFor, Holds;
    DescribesNothing(zstd, m, aes, VirtualNsp.File(h, bodies));
    if n > 0 {
      TableIsDescribed(zstd, m, aes, fs, h, bodies, files, n - 1);
      FileIsDescribed(zstd, m, aes, fs, h, bodies, files, n - 1);
      var e, rest := FileEntry(fs, n - 1), TableOf(fs, n - 1);
      DescribedBehind(zstd, m, aes, rest, e, VirtualNsp.File(h, bodies));
      NoMore(rest);
      NoMore(Unpacked(fs, files, n - 1));
    }
  }

  lemma DescribesNothing<Z(!new), Y>(zstd: Zstd<Z>, m: Meaning<Z, Y>, aes: BlockCipher, stream: bytes)
    ensures Described(zstd, m, aes, [], stream) == []
  {
  }

  lemma DescribedBehind<Z(!new), Y>(zstd: Zstd<Z>, m: Meaning<Z, Y>, aes: BlockCipher, es: seq<Entry>, e: Entry, stream: bytes)
    ensures Described(zstd, m, aes, es + [e], stream) == Described(zstd, m, aes, es, stream) + DescribedFor(zstd, m, aes, e, stream)
  {
    hide DescribedFor;
    assert (es + [e])[..|es|] == es;
  }

  lemma EntriesAreDescribed<Z(!new), Y>(zstd: Zstd<Z>, m: Meaning<Z, Y>, aes: BlockCipher, fs: seq<Nsp.File>, h: bytes,
                                        bodies: seq<bytes>, files: seq<bytes>)
    requires Sound(zstd) && AllHold(zstd, m, aes, fs, bodies, files) && |h| == Nsp.HeaderSize(fs) && Nsp.TotalSize(fs) < U64_LIMIT
    ensures Describing(zstd, m, aes, TableOf(fs, |fs|), VirtualNsp.File(h, bodies))
  {
    hide TableOf, Nsp.TotalSize, Nsp.HeaderSize, Nsp.DataOff, VirtualNsp.File, AllHold, DescribedFor, Arrived, Clean,
      Rebuild, FileEntry, IsContentFile;
    forall e | e in TableOf(fs, |fs|) && IsCompressed(e.kind)
      ensures Clean(zstd, m, Arrived(e, VirtualNsp.File(h, bodies))) && Rebuild(zstd, m, aes, Arrived(e, VirtualNsp.File(h, bodies))).Some?
    {
      TableMembers(fs, |fs|, e);
      FileIsDescribed(zstd, m, aes, fs, h, bodies, files, e.pfsIndex);
    }
  }

  /**
   * Pack any of a title's contents, put the title in a container, and install that in any cuts: what is committed,
   * in order, is for each content the id its name spells and the very file it was before it was packed.
   */
  lemma PackedTitleInstalls<S(!new), Z(!new), Y>(zstd: Zstd<Z>, m: Meaning<Z, Y>, aes: BlockCipher,
                                                 env: Env<S, Decoder<Z>>, user: S, d: Decoder<Z>,
                                                 fs: seq<Nsp.File>, h: bytes, bodies: seq<bytes>, files: seq<bytes>, chunks: seq<bytes>)
    requires Sound(zstd) && Steady(zstd, m) && Local(zstd) && Willing(env.ops) && env.ncz == Some(NczRebuild.DecoderOps(zstd, aes))
    requires Nsp.ValidFiles(fs) && Nsp.IsHeader(fs, h) && Nsp.TotalSize(fs) < U64_LIMIT
    requires AnyTitle(fs, bodies) && AllHold(zstd, m, aes, fs, bodies, files)
    requires Joined(chunks) == VirtualNsp.File(h, bodies)
    ensures var s := Begin(TracedEnv(env), Traced(user, []), d);
            && Valid(TracedEnv(env), s)
            && var t := FeedAll(TracedEnv(env), s, chunks);
               t.stage.Complete? && Run(t.user.log).stored == Unpacked(fs, files, |fs|) && Run(t.user.log).open.None?
  {
    hide Willing, Steady, Local, FeedAll, Layout, Valid, TracedEnv, Described, Run, LastEnd, Describing, Holds, AnyTitle, TableOf, DisjointEntries, SizeOf,
      Nsp.ValidFiles, Nsp.IsHeader, Nsp.HeaderSize, Nsp.TotalSize, VirtualNsp.File, LastMeta, Unpacked;
    BodiesAreOf(fs, bodies);
    TitleHasTable(fs, bodies);
    FilesLie(fs, h, bodies);
    EntriesAreDescribed(zstd, m, aes, fs, h, bodies, files);
    TableIsDescribed(zstd, m, aes, fs, h, bodies, files, |fs|);
    WholeCleanStreamInstalls(zstd, m, aes, env, user, d, chunks);
  }

  lemma BodiesAreOf(fs: seq<Nsp.File>, bodies: seq<bytes>)
    requires AnyTitle(fs, bodies)
    ensures VirtualNsp.BodiesOf(fs, bodies)
  {
    hide IsTitle, IsUseful, TicketBytes, CertBytes;
  }
}
