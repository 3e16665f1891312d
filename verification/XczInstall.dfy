/** Card images whose contents are compressed: the same feed loop with the rebuilding decoder behind it. */
module XczInstall {
  import opened Bytes
  import opened EntryNames
  import opened InstallSpec
  import opened InstallTrace
  import opened ChunkIndependence
  import opened EntryTable
  import opened Delivery
  import opened Completion
  import opened ExtractInstall
  import opened NczDecode
  import NczRebuild
  import opened NszDelivery
  import opened NszCompletion
  import opened XciInstall
  import Nsp = NspBuilder
  import VirtualNsp

  /** The pieces file `i` is streamed in. */
  function PiecesOf(image: bytes, extents: seq<Extent>, i: nat): seq<bytes>
    requires i < |extents|
  {
    Cut(image, extents[i].offset, extents[i].size)
  }

  /** What an install must commit for one file: the plain bytes, or the file rebuilt along its pieces. */
  ghost function OwedFile<Z(!new)>(zstd: Zstd<Z>, aes: BlockCipher, p: Picked, image: bytes, i: nat): seq<Placeholder>
    requires Sound(zstd) && i < |p.files| == |p.extents|
  {
    var (kind, id) := Classify(p.files[i].name);
    if IsCompressed(kind) then
      match NczRebuild.RebuildAlong(zstd, aes, PiecesOf(image, p.extents, i))
      case None => []
      case Some(file) => [Placeholder(id, file.size, file.data)]
    else if IsContent(kind) then [Placeholder(id, p.files[i].size, Bodies(image, p.extents)[i])] else []
  }

  ghost function RebuiltContents<Z(!new)>(zstd: Zstd<Z>, aes: BlockCipher, p: Picked, image: bytes, n: nat): seq<Placeholder>
    requires Sound(zstd) && n <= |p.files| == |p.extents|
  {
    if n == 0 then [] else RebuiltContents(zstd, aes, p, image, n - 1) + OwedFile(zstd, aes, p, image, n - 1)
  }

  /** Every compressed file rebuilds along the pieces it is streamed in, or stops short of its own table. */
  ghost predicate AllTakeApart<Z(!new)>(zstd: Zstd<Z>, aes: BlockCipher, p: Picked, image: bytes)
    requires Sound(zstd) && |p.files| == |p.extents|
  {
    forall i :: 0 <= i < |p.files| && IsCompressed(Classify(p.files[i].name).0) ==>
                  NczRebuild.RebuildAlong(zstd, aes, PiecesOf(image, p.extents, i)).Some? || NczRebuild.EndsInPrelude(Bodies(image, p.extents)[i])
  }

  // ----- a file arrives in its own pieces -----

  /** Pieces that lie inside an entry are its feeds. */
  lemma {:induction false} InsideFeeds(e: Entry, before: seq<bytes>, pieces: seq<bytes>)
    requires e.absOffset <= |Joined(before)| && |Joined(before)| + |Joined(pieces)| <= e.absOffset + e.size
    requires forall k :: 0 <= k < |pieces| ==> pieces[k] != []
    ensures FeedsOf(e, before + pieces) == FeedsOf(e, before) + pieces
    decreases |pieces|
  {
    hide FeedsOf, PieceOf;
    if pieces == [] {
      assert before + pieces == before;
    } else {
      var n := |pieces| - 1;
      assert pieces == pieces[..n] + [pieces[n]];
      JoinedMore(pieces[..n], pieces[n]);
      InsideFeeds(e, before, pieces[..n]);
      assert before + pieces[..n] + [pieces[n]] == before + pieces;
      FeedsMore(e, before + pieces[..n], pieces[n]);
      JoinedAppend(before, pieces[..n]);
      WholePiece(e, |Joined(before + pieces[..n])|, pieces[n]);
    }
  }

  lemma WholePiece(e: Entry, pos: nat, c: bytes)
    requires e.absOffset <= pos && pos + |c| <= e.absOffset + e.size
    ensures PieceOf(e, pos, c) == c
  {
  }

  lemma {:induction false} CutAllAppend(image: bytes, a: seq<Extent>, b: seq<Extent>)
    ensures CutAll(image, a + b) == CutAll(image, a) + CutAll(image, b)
  {
    hide Cut;
    if a == [] {
      assert a + b == b;
    } else {
      assert (a + b)[1..] == a[1..] + b;
      CutAllAppend(image, a[1..], b);
    }
  }

  lemma CutOne(image: bytes, x: Extent)
    ensures CutAll(image, [x]) == Cut(image, x.offset, x.size)
  {
    hide Cut;
    assert [x][1..] == [];
  }

  lemma {:induction false} PiecesAreNotEmpty(image: bytes, at: nat, size: nat)
    requires at + size <= |image|
    ensures forall k :: 0 <= k < |Cut(image, at, size)| ==> Cut(image, at, size)[k] != []
    decreases size
  {
    if size > 0 {
      PiecesAreNotEmpty(image, at + Min(size, STREAM_CHUNK), size - Min(size, STREAM_CHUNK));
    }
  }

  /** The files before file `i` take up exactly their own space. */
  lemma {:induction false} FilesBefore(p: Picked, image: bytes, i: nat)
    requires Paired(p) && InImage(image, p.extents) && i <= |p.files|
    ensures |Joined(CutAll(image, p.extents[..i]))| == Nsp.DataOff(p.files, i)
  {
    hide Cut, Nsp.ValidFiles, IsContentName;
    if i > 0 {
      FilesBefore(p, image, i - 1);
      var before, x := p.extents[..i - 1], p.extents[i - 1];
      assert p.extents[..i] == before + [x];
      CutAllAppend(image, before, [x]);
      CutOne(image, x);
      JoinedAppend(CutAll(image, before), Cut(image, x.offset, x.size));
      CutIsSlice(image, x.offset, x.size);
    }
  }

  lemma FileArrivesInPieces(p: Picked, h: bytes, image: bytes, i: nat)
    requires Paired(p) && InImage(image, p.extents) && |h| == Nsp.HeaderSize(p.files) && Nsp.TotalSize(p.files) < U64_LIMIT && i < |p.files|
    ensures FeedsOf(FileEntry(p.files, i), Chunks(h, image, p.extents)) == PiecesOf(image, p.extents, i)
  {
    hide Cut, CutAll, Classify, Nsp.HeaderSize, Nsp.TotalSize, Nsp.DataOff, FeedsOf, Nsp.ValidFiles;
    var e, x := FileEntry(p.files, i), p.extents[i];
    var pieces := Cut(image, x.offset, x.size);
    var before, rest := [h] + CutAll(image, p.extents[..i]), CutAll(image, p.extents[i + 1..]);
    FilesBefore(p, image, i);
    HeaderFirst(h, CutAll(image, p.extents[..i]));
    ThreeParts(p.extents, i);
    CutAllAppend(image, p.extents[..i], [x] + p.extents[i + 1..]);
    CutAllAppend(image, [x], p.extents[i + 1..]);
    CutOne(image, x);
    assert Chunks(h, image, p.extents) == before + pieces + rest;
    CutIsSlice(image, x.offset, x.size);
    PiecesAreNotEmpty(image, x.offset, x.size);
    NothingFed(e, before);
    InsideFeeds(e, before, pieces);
    JoinedAppend(before, pieces);
    FeedsBehind(e, before + pieces, rest);
    assert [] + pieces == pieces;
  }

  lemma HeaderFirst(h: bytes, rest: seq<bytes>)
    ensures |Joined([h] + rest)| == |h| + |Joined(rest)|
  {
    assert ([h] + rest)[1..] == rest;
  }

  lemma ThreeParts(extents: seq<Extent>, i: nat)
    requires i < |extents|
    ensures extents == extents[..i] + ([extents[i]] + extents[i + 1..])
  {
  }

  // ----- what is owed -----

  lemma FileIsOwed<Z(!new)>(zstd: Zstd<Z>, aes: BlockCipher, p: Picked, h: bytes, image: bytes, i: nat)
    requires Sound(zstd) && Paired(p) && InImage(image, p.extents) && |h| == Nsp.HeaderSize(p.files) && Nsp.TotalSize(p.files) < U64_LIMIT
    requires i < |p.files|
    ensures OwedFile(zstd, aes, p, image, i) == OwedFor(zstd, aes, FileEntry(p.files, i), Chunks(h, image, p.extents))
    ensures FileEntry(p.files, i).kind.Ignore? ==> OwedFile(zstd, aes, p, image, i) == []
    ensures Arrived(FileEntry(p.files, i), Joined(Chunks(h, image, p.extents))) == Bodies(image, p.extents)[i]
  {
    hide Classify, Nsp.HeaderSize, Nsp.TotalSize, VirtualNsp.File, Arrived, Nsp.DataOff, NczRebuild.RebuildAlong,
      FeedsOf, Cut, Chunks, Joined;
    FileArrivesInPieces(p, h, image, i);
    StreamIsVirtualFile(h, image, p.extents);
    BodyArrives(p.files, h, Bodies(image, p.extents), i);
  }

  lemma {:induction false} OwedIsRebuilt<Z(!new)>(zstd: Zstd<Z>, aes: BlockCipher, p: Picked, h: bytes, image: bytes, n: nat)
    requires Sound(zstd) && Paired(p) && InImage(image, p.extents) && |h| == Nsp.HeaderSize(p.files) && Nsp.TotalSize(p.files) < U64_LIMIT
    requires n <= |p.files|
    ensures Owed(zstd, aes, TableOf(p.files, n), Chunks(h, image, p.extents)) == RebuiltContents(zstd, aes, p, image, n)
  {
    hide Classify, Nsp.HeaderSize, Nsp.TotalSize, Nsp.DataOff, OwedFor, OwedFile, Chunks, Paired, InImage, Joined, Arrived;
    if n > 0 {
      OwedIsRebuilt(zstd, aes, p, h, image, n - 1);
      FileIsOwed(zstd, aes, p, h, image, n - 1);
      var e, rest := FileEntry(p.files, n - 1), TableOf(p.files, n - 1);
      assert (rest + [e])[..|rest|] == rest;
      assert rest + [] == rest;
    }
  }

  /** The files of a title that can be installed from the image. */
  ghost predicate Whole<Z(!new)>(zstd: Zstd<Z>, aes: BlockCipher, p: Picked, image: bytes)
    requires Sound(zstd) && |p.files| == |p.extents| && Nsp.TotalSize(p.files) < U64_LIMIT
  {
    var es := TableOf(p.files, |p.files|);
    && es != [] && LastMeta(es).Some? && AllTakeApart(zstd, aes, p, image)
    && SizeOf(Ticket, es) <= MAX_TICKET && SizeOf(Cert, es) <= MAX_CERT
    && (es[|es| - 1].size > 0 || LastEnd(es) < Nsp.TotalSize(p.files))
  }

  lemma EntryTakesApart<Z(!new)>(zstd: Zstd<Z>, aes: BlockCipher, p: Picked, h: bytes, image: bytes, e: Entry)
    requires Sound(zstd) && Paired(p) && InImage(image, p.extents) && |h| == Nsp.HeaderSize(p.files) && Nsp.TotalSize(p.files) < U64_LIMIT
    requires AllTakeApart(zstd, aes, p, image) && e in TableOf(p.files, |p.files|)
    ensures Ended(zstd, aes, e, Chunks(h, image, p.extents))
  {
    hide Nsp.HeaderSize, Nsp.DataOff, TableOf, Classify, Arrived, NczRebuild.RebuildAlong, NczRebuild.EndsInPrelude,
      FeedsOf, Chunks, Joined, Cut, Bodies;
    TableMembers(p.files, |p.files|, e);
    FileArrivesInPieces(p, h, image, e.pfsIndex);
    FileIsOwed(zstd, aes, p, h, image, e.pfsIndex);
  }

  lemma FilesAreRebuildable<Z(!new)>(zstd: Zstd<Z>, aes: BlockCipher, p: Picked, h: bytes, image: bytes)
    requires Sound(zstd) && Paired(p) && InImage(image, p.extents) && Nsp.IsHeader(p.files, h) && Nsp.TotalSize(p.files) < U64_LIMIT
    requires Whole(zstd, aes, p, image)
    ensures Rebuildable(zstd, aes, Chunks(h, image, p.extents))
  {
    hide Layout, DisjointEntries, SizeOf, Nsp.HeaderSize, Nsp.DataOff, Nsp.TotalSize, TableOf, LastMeta, AllTakeApart,
      VirtualNsp.File, Chunks, Ended, Joined;
    StreamIsVirtualFile(h, image, p.extents);
    FilesLie(p.files, h, Bodies(image, p.extents));
    var es := TableOf(p.files, |p.files|);
    forall i | 0 <= i < |es|
      ensures Ended(zstd, aes, es[i], Chunks(h, image, p.extents))
    {
      EntryTakesApart(zstd, aes, p, h, image, es[i]);
    }
  }

  /**
   * Repackaging a card image and installing it commits exactly the image's contents, compressed ones included:
   * every plain content with the bytes at its place in the image, every compressed one as the file it rebuilds to
   * along the pieces it is streamed in.
   */
  lemma CompressedImageInstalls<S(!new), Z(!new)>(zstd: Zstd<Z>, aes: BlockCipher, env: Env<S, Decoder<Z>>, user: S,
                                                  d: Decoder<Z>,
                                                  p: Picked, h: bytes, image: bytes)
    requires Sound(zstd) && Willing(env.ops) && env.ncz == Some(NczRebuild.DecoderOps(zstd, aes))
    requires Paired(p) && InImage(image, p.extents) && Nsp.IsHeader(p.files, h) && Nsp.TotalSize(p.files) < U64_LIMIT
    requires Whole(zstd, aes, p, image)
    ensures var s := Begin(TracedEnv(env), Traced(user, []), d);
            && Valid(TracedEnv(env), s)
            && var t := FeedAll(TracedEnv(env), s, Chunks(h, image, p.extents));
               && t.stage.Complete?
               && Run(t.user.log).stored == RebuiltContents(zstd, aes, p, image, |p.files|)
  {
    hide Willing, FeedAll, Run, Joined, Valid, TracedEnv, TableOf, Nsp.IsHeader, Chunks, Nsp.TotalSize, Rebuildable,
      Layout, Owed, AllTakeApart, LastMeta, SizeOf;
    hide VirtualNsp.File, RebuiltContents, DisjointEntries, Nsp.HeaderSize;
    StreamIsVirtualFile(h, image, p.extents);
    FilesLie(p.files, h, Bodies(image, p.extents));
    FilesAreRebuildable(zstd, aes, p, h, image);
    OwedIsRebuilt(zstd, aes, p, h, image, |p.files|);
    WholeCompressedStreamInstalls(zstd, aes, env, user, d, Chunks(h, image, p.extents));
  }
}
