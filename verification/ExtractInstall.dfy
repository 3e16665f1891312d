/**
 * Builder, parser, random-access reader and installer compose to the identity: a title extracted as a
 * virtual NSP and streamed back commits exactly its contents.
 */
module ExtractInstall {
  import opened Bytes
  import opened EntryNames
  import opened InstallSpec
  import opened InstallTrace
  import opened ChunkIndependence
  import opened EntryTable
  import opened Delivery
  import opened Completion
  import Pfs = PartitionFs
  import Nsp = NspBuilder
  import VirtualNsp

  /** The entry the installer makes of file `i`. */
  function FileEntry(fs: seq<Nsp.File>, i: nat): Entry
    requires i < |fs| && Nsp.TotalSize(fs) < U64_LIMIT
  {
    var (kind, id) := Classify(fs[i].name);
    Nsp.OffsMonotone(fs, i, |fs|);
    Entry(i, kind, id, Nsp.HeaderSize(fs) + Nsp.DataOff(fs, i), fs[i].size)
  }

  /** The useful ones of the first `n` files. */
  function TableOf(fs: seq<Nsp.File>, n: nat): (es: seq<Entry>)
    requires n <= |fs| && Nsp.TotalSize(fs) < U64_LIMIT
    ensures |es| <= n
  {
    if n == 0 then []
    else
      var e := FileEntry(fs, n - 1);
      TableOf(fs, n - 1) + (if e.kind.Ignore? then [] else [e])
  }

  /** What an install of these files must commit, file by file. */
  function ContentsOf(fs: seq<Nsp.File>, bodies: seq<bytes>, n: nat): seq<Placeholder>
    requires n <= |fs| == |bodies|
  {
    if n == 0 then []
    else
      var (kind, id) := Classify(fs[n - 1].name);
      ContentsOf(fs, bodies, n - 1) + (if IsContent(kind) then [Placeholder(id, fs[n - 1].size, bodies[n - 1])] else [])
  }

  /** The bodies of one kind of file, joined. */
  function BodiesOfKind(kind: Kind, fs: seq<Nsp.File>, bodies: seq<bytes>, n: nat): bytes
    requires n <= |fs| == |bodies|
  {
    if n == 0 then []
    else BodiesOfKind(kind, fs, bodies, n - 1) + (if Classify(fs[n - 1].name).0 == kind then bodies[n - 1] else [])
  }

  // ----- the installer's table is the builder's file list -----

  lemma {:induction false} CollectIsTable(fs: seq<Nsp.File>, ctx: Pfs.Context, i: nat)
    requires Nsp.ValidFiles(fs) && Nsp.TotalSize(fs) < U64_LIMIT && i <= |fs|
    requires Pfs.ValidContext(ctx) && ctx.count == |fs| && ctx.headerSize == Nsp.HeaderSize(fs)
    requires forall k :: 0 <= k < |fs| ==> Nsp.DataOff(fs, k) < U64_LIMIT && Pfs.GetEntry(ctx, k) == Ok(Pfs.Entry(fs[k].name, Nsp.DataOff(fs, k), fs[k].size))
    ensures Collect(ctx, i, TableOf(fs, i)) == (TableOf(fs, |fs|), None)
    decreases |fs| - i
  {
    hide Pfs.ValidContext, Pfs.GetEntry, Classify, Nsp.DataOff, Nsp.HeaderSize, Nsp.NameFits;
    if i < |fs| {
      Nsp.OffsMonotone(fs, i, |fs|);
      assert EntryFor(ctx, i, Pfs.GetEntry(ctx, i).value) == FileEntry(fs, i);
      assert TableOf(fs, i) + [] == TableOf(fs, i);
      CollectIsTable(fs, ctx, i + 1);
    }
  }

  /** Every entry lies between the header's end and the end of the data of the files so far. */
  lemma {:induction false} TableLies(fs: seq<Nsp.File>, n: nat)
    requires n <= |fs| && Nsp.TotalSize(fs) < U64_LIMIT
    ensures DisjointEntries(TableOf(fs, n), Nsp.HeaderSize(fs))
    ensures Ordered(TableOf(fs, n))
    ensures forall i :: 0 <= i < |TableOf(fs, n)| ==>
              TableOf(fs, n)[i].absOffset + TableOf(fs, n)[i].size <= Nsp.HeaderSize(fs) + Nsp.DataOff(fs, n)
  {
    hide Classify, Nsp.HeaderSize, Nsp.TotalSize;
    if n > 0 {
      TableLies(fs, n - 1);
      Nsp.OffsMonotone(fs, n, |fs|);
      Nsp.NextName(fs, n - 1);
      assert Nsp.HeaderSize(fs) + Nsp.DataOff(fs, |fs|) < U64_LIMIT by { TotalIs(fs); }
    }
  }

  lemma TotalIs(fs: seq<Nsp.File>)
    ensures Nsp.TotalSize(fs) == Nsp.HeaderSize(fs) + Nsp.DataOff(fs, |fs|)
  {
  }

  /** The header of these files is read for what it is, whatever follows it. */
  lemma HeaderOfFiles(fs: seq<Nsp.File>, h: bytes, rest: bytes)
    requires Nsp.ValidFiles(fs) && Nsp.IsHeader(fs, h) && Nsp.TotalSize(fs) < U64_LIMIT
    ensures |h| == Nsp.HeaderSize(fs) <= MAX_HEADER && Pfs.PeekHeaderSize(h + rest) == Ok((Pfs.Pfs0, Nsp.HeaderSize(fs)))
    ensures Pfs.Parse(h).Ok? && Collect(Pfs.Parse(h).value, 0, []) == (TableOf(fs, |fs|), None)
    ensures SortByOffset(TableOf(fs, |fs|)) == TableOf(fs, |fs|)
  {
    hide *;
    assert Nsp.DataOff(fs, |fs|) < U64_LIMIT && |h| == Nsp.HeaderSize(fs) by {
      TotalIs(fs);
      HeaderLength(fs, h);
    }
    Nsp.ParseInvertsBuild(fs, h);
    HeaderIsSmall(fs);
    TableOfParsed(fs, Pfs.Parse(h).value);
    SamePrefix(h, rest, Pfs.HEADER_SIZE);
    Pfs.PeekIsLocal(h[..Pfs.HEADER_SIZE], h + rest);
  }

  lemma LayoutOfFiles(fs: seq<Nsp.File>, h: bytes, rest: bytes)
    requires Nsp.ValidFiles(fs) && Nsp.IsHeader(fs, h) && Nsp.TotalSize(fs) < U64_LIMIT
    requires LastMeta(TableOf(fs, |fs|)).Some?
    ensures Layout(h + rest) == Some((TableOf(fs, |fs|), Nsp.HeaderSize(fs)))
  {
    hide *;
    HeaderOfFiles(fs, h, rest);
    LayoutFrom(h, rest, Nsp.HeaderSize(fs), TableOf(fs, |fs|));
  }

  lemma SamePrefix(h: bytes, rest: bytes, n: nat)
    requires n <= |h|
    ensures (h + rest)[..n] == h[..n] && h[..n][..n] == h[..n] && |h[..n]| == n
  {
  }

  lemma TableOfParsed(fs: seq<Nsp.File>, ctx: Pfs.Context)
    requires Nsp.ValidFiles(fs) && Nsp.TotalSize(fs) < U64_LIMIT
    requires Pfs.ValidContext(ctx) && ctx.count == |fs| && ctx.headerSize == Nsp.HeaderSize(fs)
    requires forall k :: 0 <= k < |fs| ==> Nsp.DataOff(fs, k) < U64_LIMIT && Pfs.GetEntry(ctx, k) == Ok(Pfs.Entry(fs[k].name, Nsp.DataOff(fs, k), fs[k].size))
    ensures Collect(ctx, 0, []) == (TableOf(fs, |fs|), None) && SortByOffset(TableOf(fs, |fs|)) == TableOf(fs, |fs|)
  {
    assert TableOf(fs, 0) == [];
    hide *;
    CollectIsTable(fs, ctx, 0);
    TableLies(fs, |fs|);
    SortOfOrdered(TableOf(fs, |fs|));
  }

  lemma LayoutFrom(h: bytes, rest: bytes, size: u64, es: seq<Entry>)
    requires |h| == size <= MAX_HEADER && Pfs.PeekHeaderSize(h + rest) == Ok((Pfs.Pfs0, size))
    requires Pfs.Parse(h).Ok? && Collect(Pfs.Parse(h).value, 0, []) == (es, None) && SortByOffset(es) == es && LastMeta(es).Some?
    ensures Layout(h + rest) == Some((es, size))
  {
    hide Pfs.PeekHeaderSize, Pfs.Parse, Collect, LastMeta, SortByOffset;
    assert (h + rest)[..size] == h;
  }

  lemma HeaderIsSmall(fs: seq<Nsp.File>)
    requires Nsp.ValidFiles(fs)
    ensures Pfs.HEADER_SIZE <= Nsp.HeaderSize(fs) <= MAX_HEADER
  {
    Nsp.NameOffBound(fs, |fs|);
    hide Nsp.NameOff;
  }

  // ----- what arrives is the bodies -----

  lemma BodyArrives(fs: seq<Nsp.File>, h: bytes, bodies: seq<bytes>, i: nat)
    requires VirtualNsp.BodiesOf(fs, bodies) && |h| == Nsp.HeaderSize(fs) && Nsp.TotalSize(fs) < U64_LIMIT && i < |fs|
    ensures Arrived(FileEntry(fs, i), VirtualNsp.File(h, bodies)) == bodies[i]
  {
    hide Classify, Nsp.HeaderSize, Nsp.DataOff, Nsp.TotalSize, VirtualNsp.Concat;
    VirtualNsp.FileSlice(fs, h, bodies, i, 0, fs[i].size);
    assert bodies[i][0..fs[i].size] == bodies[i];
  }

  lemma NoMore<T>(s: seq<T>)
    ensures s + [] == s
  {
  }

  lemma ContentsMore(es: seq<Entry>, e: Entry, stream: bytes)
    ensures Contents(es + [e], stream)
            == Contents(es, stream) + (if IsContent(e.kind) then [Placeholder(e.contentId, e.size, Arrived(e, stream))] else [])
  {
    hide Arrived;
    var all := es + [e];
    assert all[..|all| - 1] == es;
  }

  lemma GatheredMore(kind: Kind, es: seq<Entry>, e: Entry, stream: bytes)
    ensures Gathered(kind, es + [e], stream) == Gathered(kind, es, stream) + (if e.kind == kind then Arrived(e, stream) else [])
  {
    hide Arrived;
    var all := es + [e];
    assert all[..|all| - 1] == es;
  }

  lemma {:induction false} ContentsAreBodies(fs: seq<Nsp.File>, h: bytes, bodies: seq<bytes>, n: nat)
    requires VirtualNsp.BodiesOf(fs, bodies) && |h| == Nsp.HeaderSize(fs) && Nsp.TotalSize(fs) < U64_LIMIT && n <= |fs|
    ensures Contents(TableOf(fs, n), VirtualNsp.File(h, bodies)) == ContentsOf(fs, bodies, n)
  {
    hide Classify, Nsp.HeaderSize, Nsp.TotalSize, VirtualNsp.File, Arrived, Nsp.DataOff, Contents;
    if n == 0 {
      NothingOf(Ignore, VirtualNsp.File(h, bodies));
    } else {
      ContentsAreBodies(fs, h, bodies, n - 1);
      BodyArrives(fs, h, bodies, n - 1);
      NoMore(TableOf(fs, n - 1));
      NoMore(ContentsOf(fs, bodies, n - 1));
      ContentsMore(TableOf(fs, n - 1), FileEntry(fs, n - 1), VirtualNsp.File(h, bodies));
    }
  }

  lemma NothingOf(kind: Kind, stream: bytes)
    ensures Contents([], stream) == [] && Gathered(kind, [], stream) == []
  {
  }

  lemma {:induction false} KindIsBodies(kind: Kind, fs: seq<Nsp.File>, h: bytes, bodies: seq<bytes>, n: nat)
    requires VirtualNsp.BodiesOf(fs, bodies) && |h| == Nsp.HeaderSize(fs) && Nsp.TotalSize(fs) < U64_LIMIT && n <= |fs| && kind != Ignore
    ensures Gathered(kind, TableOf(fs, n), VirtualNsp.File(h, bodies)) == BodiesOfKind(kind, fs, bodies, n)
  {
    hide Classify, Nsp.HeaderSize, Nsp.TotalSize, VirtualNsp.File, Arrived, Nsp.DataOff, Gathered;
    if n == 0 {
      NothingOf(kind, VirtualNsp.File(h, bodies));
    } else {
      KindIsBodies(kind, fs, h, bodies, n - 1);
      BodyArrives(fs, h, bodies, n - 1);
      NoMore(TableOf(fs, n - 1));
      NoMore(BodiesOfKind(kind, fs, bodies, n - 1));
      GatheredMore(kind, TableOf(fs, n - 1), FileEntry(fs, n - 1), VirtualNsp.File(h, bodies));
    }
  }

  /** The installer's entries are the files' own. */
  lemma {:induction false} TableMembers(fs: seq<Nsp.File>, n: nat, e: Entry)
    requires n <= |fs| && Nsp.TotalSize(fs) < U64_LIMIT && e in TableOf(fs, n)
    ensures e.pfsIndex < n && e == FileEntry(fs, e.pfsIndex)
  {
    hide Classify, Nsp.HeaderSize, Nsp.DataOff;
    var last := FileEntry(fs, n - 1);
    if e != last {
      TableMembers(fs, n - 1, e);
    }
  }

  /** The files of a title that can be installed as they are. */
  ghost predicate Complete(fs: seq<Nsp.File>)
    requires Nsp.TotalSize(fs) < U64_LIMIT
  {
    var es := TableOf(fs, |fs|);
    && LastMeta(es).Some? && NoCompressed(es)
    && SizeOf(Ticket, es) <= MAX_TICKET && SizeOf(Cert, es) <= MAX_CERT
    && (es[|es| - 1].size > 0 || LastEnd(es) < Nsp.TotalSize(fs))
  }

  /** The container these files make lies in the stream as its header says. */
  lemma FilesLie(fs: seq<Nsp.File>, h: bytes, bodies: seq<bytes>)
    requires Nsp.ValidFiles(fs) && Nsp.IsHeader(fs, h) && VirtualNsp.BodiesOf(fs, bodies) && Nsp.TotalSize(fs) < U64_LIMIT
    requires TableOf(fs, |fs|) != [] && LastMeta(TableOf(fs, |fs|)).Some?
    ensures var stream, es := VirtualNsp.File(h, bodies), TableOf(fs, |fs|);
            && |h| == Nsp.HeaderSize(fs) && |stream| == Nsp.TotalSize(fs) && LastEnd(es) <= |stream|
            && Layout(stream) == Some((es, Nsp.HeaderSize(fs))) && DisjointEntries(es, Nsp.HeaderSize(fs))
  {
    hide Layout, DisjointEntries, Nsp.HeaderSize, Nsp.DataOff, TableOf, LastMeta;
    HeaderLength(fs, h);
    VirtualNsp.FileLength(fs, h, bodies);
    LayoutOfFiles(fs, h, VirtualNsp.Concat(bodies, |bodies|));
    TableLies(fs, |fs|);
    TotalIs(fs);
  }

  /**
   * Extract, then install. However the extracted file is cut into chunks, the install completes and has
   * committed exactly the title's contents: each id, in order, with its declared size and its own bytes.
   */
  lemma ExtractThenInstall<S(!new), D>(env: Env<S, D>, user: S, d: D, fs: seq<Nsp.File>, h: bytes, bodies: seq<bytes>,
                                       chunks: seq<bytes>)
    requires Willing(env.ops)
    requires Nsp.ValidFiles(fs) && Nsp.IsHeader(fs, h) && VirtualNsp.BodiesOf(fs, bodies) && Nsp.TotalSize(fs) < U64_LIMIT
    requires TableOf(fs, |fs|) != [] && Complete(fs)
    requires Joined(chunks) == VirtualNsp.File(h, bodies)
    ensures var s := Begin(TracedEnv(env), Traced(user, []), d);
            && Valid(TracedEnv(env), s)
            && var t := FeedAll(TracedEnv(env), s, chunks);
               && t.stage.Complete? && t.entries == TableOf(fs, |fs|) && !t.contentOpen
               && Run(t.user.log).stored == ContentsOf(fs, bodies, |fs|) && Run(t.user.log).open.None?
               && t.tik == BodiesOfKind(Ticket, fs, bodies, |fs|) && t.cert == BodiesOfKind(Cert, fs, bodies, |fs|)
  {
    hide Willing, FeedAll, Run, DisjointEntries, SizeOf, Joined, Layout, Valid, TracedEnv, Contents, Gathered,
      NoCompressed, LastMeta;
    hide Nsp.HeaderSize, Nsp.DataOff, Nsp.TotalSize, Nsp.IsHeader, VirtualNsp.File, TableOf, BodiesOfKind, ContentsOf;
    FilesLie(fs, h, bodies);
    WholeStreamInstalls(env, user, d, chunks);
    ContentsAreBodies(fs, h, bodies, |fs|);
    KindIsBodies(Ticket, fs, h, bodies, |fs|);
    KindIsBodies(Cert, fs, h, bodies, |fs|);
  }

  lemma HeaderLength(fs: seq<Nsp.File>, h: bytes)
    requires Nsp.IsHeader(fs, h)
    ensures |h| == Nsp.HeaderSize(fs)
  {
    hide Nsp.HeaderSize, Nsp.EntriesWritten, Nsp.PreambleIs;
  }
}
