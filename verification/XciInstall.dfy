/**
 * Installing from a card image: the contents of the secure partition are given a PFS0 header that was never
 * in the image and streamed through the ordinary installer.
 */
module XciInstall {
  import opened Bytes
  import opened EntryNames
  import opened InstallSpec
  import opened InstallTrace
  import opened ChunkIndependence
  import opened Delivery
  import opened Completion
  import opened ExtractInstall
  import opened Installer
  import Cnmt
  import Pfs = PartitionFs
  import Nsp = NspBuilder
  import VirtualNsp

  const STREAM_CHUNK: nat := 0x10_0000

  /** Where the bytes of one added file lie in the image. */
  datatype Extent = Extent(offset: u64, size: u64)

  // ----- choosing the contents -----

  predicate IsContentName(name: bytes) {
    |name| > |DOT_NCA| && (EndsWith(name, DOT_NCA) || EndsWith(name, DOT_NCZ))
  }

  datatype Picked = Picked(files: seq<Nsp.File>, extents: seq<Extent>)

  /** The entries of the partition from `i` on that the builder takes, each with its place in the image. */
  function Pick(ctx: Pfs.Context, dataOffset: u64, i: nat, done: Picked): (r: Picked)
    requires Pfs.ValidContext(ctx) && i <= ctx.count
    decreases ctx.count - i
  {
    if i == ctx.count || |done.files| >= Nsp.MAX_FILES then done
    else
      var e := Pfs.GetEntry(ctx, i).value;
      if IsContentName(e.name) && Nsp.NameFits(e.name) then
        Pick(ctx, dataOffset, i + 1, Picked(done.files + [Nsp.File(e.name, e.size, 0)], done.extents + [Extent(Add64(dataOffset, e.offset), e.size)]))
      else Pick(ctx, dataOffset, i + 1, done)
  }

  /** Every file has its extent, of the same size. */
  ghost predicate Paired(p: Picked) {
    && Nsp.ValidFiles(p.files)
    && |p.files| == |p.extents|
    && forall k :: 0 <= k < |p.files| ==> p.extents[k].size == p.files[k].size && IsContentName(p.files[k].name)
  }

  lemma {:induction false} PickPairs(ctx: Pfs.Context, dataOffset: u64, i: nat, done: Picked)
    requires Pfs.ValidContext(ctx) && i <= ctx.count && Paired(done)
    ensures Paired(Pick(ctx, dataOffset, i, done))
    decreases ctx.count - i
  {
    hide Pfs.ValidContext, Pfs.GetEntry, IsContentName, Nsp.NameFits, Add64;
    if i < ctx.count && |done.files| < Nsp.MAX_FILES {
      var e := Pfs.GetEntry(ctx, i).value;
      if IsContentName(e.name) && Nsp.NameFits(e.name) {
        PickPairs(ctx, dataOffset, i + 1, Picked(done.files + [Nsp.File(e.name, e.size, 0)], done.extents + [Extent(Add64(dataOffset, e.offset), e.size)]));
      } else {
        PickPairs(ctx, dataOffset, i + 1, done);
      }
    }
  }

  // ----- the same choice, entry by entry -----

  /** A name of at least five and fewer than 80 characters that ends in ".nca" or ".ncz". */
  ghost predicate NamesContent(name: bytes) {
    4 < |name| < 80 && (HasSuffix(name, [0x2E, 0x6E, 0x63, 0x61]) || HasSuffix(name, [0x2E, 0x6E, 0x63, 0x7A]))
  }

  /** Which of the first `n` entries are installed: those with the name of a content, in partition order, 64 at the most. */
  ghost function Taken(ctx: Pfs.Context, n: nat): (taken: seq<nat>)
    requires Pfs.ValidContext(ctx) && n <= ctx.count
    ensures |taken| <= 64 && forall k :: 0 <= k < |taken| ==> taken[k] < n
  {
    if n == 0 then []
    else
      var before := Taken(ctx, n - 1);
      if |before| < 64 && NamesContent(Pfs.GetEntry(ctx, n - 1).value.name) then before + [n - 1] else before
  }

  ghost predicate AreEntries(ctx: Pfs.Context, taken: seq<nat>) {
    Pfs.ValidContext(ctx) && forall k :: 0 <= k < |taken| ==> taken[k] < ctx.count
  }

  /** Names and sizes, as the partition has them. */
  ghost function FilesAt(ctx: Pfs.Context, taken: seq<nat>): (fs: seq<Nsp.File>)
    requires AreEntries(ctx, taken)
    ensures |fs| == |taken|
  {
    seq(|taken|, k requires 0 <= k < |taken| =>
      var e := Pfs.GetEntry(ctx, taken[k]).value;
      Nsp.File(e.name, e.size, 0))
  }

  /** The files chosen are the entries taken, and each lies in the image where the partition's data starts plus its offset. */
  ghost predicate PicksTaken(ctx: Pfs.Context, dataOffset: u64, taken: seq<nat>, p: Picked) {
    && AreEntries(ctx, taken) && p.files == FilesAt(ctx, taken) && |p.extents| == |taken|
    && forall k :: 0 <= k < |taken| ==>
                     var e := Pfs.GetEntry(ctx, taken[k]).value;
                     p.extents[k].offset == (dataOffset + e.offset) % 0x1_0000_0000_0000_0000 && p.extents[k].size == e.size
  }

  lemma {:induction false} PickIsTaken(ctx: Pfs.Context, dataOffset: u64, i: nat, done: Picked)
    requires Pfs.ValidContext(ctx) && i <= ctx.count && PicksTaken(ctx, dataOffset, Taken(ctx, i), done)
    ensures PicksTaken(ctx, dataOffset, Taken(ctx, ctx.count), Pick(ctx, dataOffset, i, done))
    decreases ctx.count - i
  {
    hide Pfs.ValidContext, Pfs.GetEntry, IsContentName, Nsp.NameFits, Add64, NamesContent, PicksTaken;
    if |Taken(ctx, i)| >= 64 {
      NoneBehind(ctx, i);
      FilesAreTaken(ctx, dataOffset, Taken(ctx, i), done);
    } else if i < ctx.count {
      var e := Pfs.GetEntry(ctx, i).value;
      FilesAreTaken(ctx, dataOffset, Taken(ctx, i), done);
      NamesHaveNoNul(ctx, i);
      NameIsTaken(e.name);
      if NamesContent(e.name) {
        var more := Picked(done.files + [Nsp.File(e.name, e.size, 0)], done.extents + [Extent(Add64(dataOffset, e.offset), e.size)]);
        TakesOneMore(ctx, dataOffset, Taken(ctx, i), done, i);
        PickIsTaken(ctx, dataOffset, i + 1, more);
      } else {
        PickIsTaken(ctx, dataOffset, i + 1, done);
      }
    }
  }

  lemma {:induction false} NoneBehind(ctx: Pfs.Context, i: nat)
    requires Pfs.ValidContext(ctx) && i <= ctx.count && |Taken(ctx, i)| >= 64
    ensures Taken(ctx, ctx.count) == Taken(ctx, i)
    decreases ctx.count - i
  {
    hide Pfs.ValidContext, Pfs.GetEntry, NamesContent;
    if i < ctx.count {
      NoneBehind(ctx, i + 1);
    }
  }

  lemma NameIsTaken(name: bytes)
    requires 0 !in name
    ensures NamesContent(name) <==> IsContentName(name) && Nsp.NameFits(name)
  {
    hide HasSuffix, EndsWith;
    EndsIffSuffix(name, DOT_NCA);
    EndsIffSuffix(name, DOT_NCZ);
  }

  lemma FilesAreTaken(ctx: Pfs.Context, dataOffset: u64, taken: seq<nat>, p: Picked)
    requires PicksTaken(ctx, dataOffset, taken, p)
    ensures |p.files| == |taken| && AreEntries(ctx, taken)
  {
    hide Pfs.ValidContext, Pfs.GetEntry;
  }

  lemma TakesOneMore(ctx: Pfs.Context, dataOffset: u64, taken: seq<nat>, p: Picked, i: nat)
    requires PicksTaken(ctx, dataOffset, taken, p) && i < ctx.count
    ensures var e := Pfs.GetEntry(ctx, i).value;
            PicksTaken(ctx, dataOffset, taken + [i], Picked(p.files + [Nsp.File(e.name, e.size, 0)], p.extents + [Extent(Add64(dataOffset, e.offset), e.size)]))
  {
    hide Pfs.ValidContext, Pfs.GetEntry;
    var e := Pfs.GetEntry(ctx, i).value;
    assert (taken + [i])[|taken|] == i;
    assert FilesAt(ctx, taken + [i]) == FilesAt(ctx, taken) + [Nsp.File(e.name, e.size, 0)];
    WrapsOnce(dataOffset, e.offset);
  }

  lemma WrapsOnce(a: u64, b: u64)
    ensures Add64(a, b) == (a + b) % 0x1_0000_0000_0000_0000
  {
  }

  method PickContents(ctx: Pfs.Context, dataOffset: u64, builder: Nsp.Builder) returns (extents: seq<Extent>)
    requires Pfs.ValidContext(ctx) && builder.Valid() && builder.files == [] && !builder.finalised
    modifies builder
    ensures builder.Valid() && !builder.finalised
    ensures Picked(builder.files, extents) == Pick(ctx, dataOffset, 0, Picked([], []))
    ensures Paired(Picked(builder.files, extents))
    ensures PicksTaken(ctx, dataOffset, Taken(ctx, ctx.count), Picked(builder.files, extents))
  {
    hide Pfs.ValidContext, Pfs.GetEntry, IsContentName, Add64, PicksTaken;
    PickPairs(ctx, dataOffset, 0, Picked([], []));
    NothingTaken(ctx, dataOffset);
    PickIsTaken(ctx, dataOffset, 0, Picked([], []));
    extents := [];
    var i := 0;
    while i < ctx.count && |builder.files| < Nsp.MAX_FILES
      invariant i <= ctx.count && builder.Valid() && !builder.finalised
      invariant Pick(ctx, dataOffset, i, Picked(builder.files, extents)) == Pick(ctx, dataOffset, 0, Picked([], []))
    {
      var e := Pfs.GetEntry(ctx, i).value;
      NamesHaveNoNul(ctx, i);
      if IsContentName(e.name) {
        var added := builder.Add(e.name, e.size);
        if added.Ok? {
          extents := extents + [Extent(Add64(dataOffset, e.offset), e.size)];
        }
      }
      i := i + 1;
    }
  }

  lemma NothingTaken(ctx: Pfs.Context, dataOffset: u64)
    requires Pfs.ValidContext(ctx)
    ensures PicksTaken(ctx, dataOffset, Taken(ctx, 0), Picked([], []))
  {
    hide Pfs.ValidContext, Pfs.GetEntry;
  }

  lemma NamesHaveNoNul(ctx: Pfs.Context, i: nat)
    requires Pfs.ValidContext(ctx) && i < ctx.count
    ensures 0 !in Pfs.GetEntry(ctx, i).value.name
  {
  }

  // ----- the stream -----

  /** Reading the image: a read that works delivers the image's own bytes. */
  type Reader = (nat, nat) -> Option<bytes>

  ghost predicate HonestReader(read: Reader, image: bytes) {
    forall at: nat, len: nat {:trigger read(at, len)} ::
      read(at, len).Some? ==> at + len <= |image| && read(at, len).value == image[at..at + len]
  }

  function Slice(image: bytes, at: nat, len: nat): (b: bytes)
    ensures at + len <= |image| ==> |b| == len
  {
    if at + len <= |image| then image[at..at + len] else []
  }

  /** One file, in pieces of at most STREAM_CHUNK bytes. */
  function Cut(image: bytes, at: nat, size: nat): seq<bytes>
    decreases size
  {
    if size == 0 then []
    else
      var want := Min(size, STREAM_CHUNK);
      [Slice(image, at, want)] + Cut(image, at + want, size - want)
  }

  function CutAll(image: bytes, extents: seq<Extent>): seq<bytes> {
    if extents == [] then [] else Cut(image, extents[0].offset, extents[0].size) + CutAll(image, extents[1..])
  }

  function Chunks(header: bytes, image: bytes, extents: seq<Extent>): seq<bytes> {
    [header] + CutAll(image, extents)
  }

  function Bodies(image: bytes, extents: seq<Extent>): (r: seq<bytes>)
    ensures |r| == |extents|
  {
    seq(|extents|, i requires 0 <= i < |extents| => Slice(image, extents[i].offset, extents[i].size))
  }

  ghost predicate InImage(image: bytes, extents: seq<Extent>) {
    forall i :: 0 <= i < |extents| ==> extents[i].offset + extents[i].size <= |image|
  }

  lemma {:induction false} CutIsSlice(image: bytes, at: nat, size: nat)
    requires at + size <= |image|
    ensures Joined(Cut(image, at, size)) == Slice(image, at, size)
    decreases size
  {
    if size > 0 {
      var want := Min(size, STREAM_CHUNK);
      CutIsSlice(image, at + want, size - want);
      var pieces := Cut(image, at, size);
      assert pieces[0] == image[at..at + want] && pieces[1..] == Cut(image, at + want, size - want);
      assert image[at..at + want] + image[at + want..at + size] == image[at..at + size];
    }
  }

  lemma {:induction false} ConcatFirst(bodies: seq<bytes>, n: nat)
    requires 0 < n <= |bodies|
    ensures VirtualNsp.Concat(bodies, n) == bodies[0] + VirtualNsp.Concat(bodies[1..], n - 1)
  {
    if n == 1 {
      assert VirtualNsp.Concat(bodies, 0) == [] && VirtualNsp.Concat(bodies[1..], 0) == [];
      assert [] + bodies[0] == bodies[0] + [];
    } else {
      ConcatFirst(bodies, n - 1);
      assert bodies[1..][n - 2] == bodies[n - 1];
    }
  }

  lemma {:induction false} CutAllIsConcat(image: bytes, extents: seq<Extent>)
    requires InImage(image, extents)
    ensures Joined(CutAll(image, extents)) == VirtualNsp.Concat(Bodies(image, extents), |extents|)
  {
    hide Cut;
    if extents != [] {
      var x, rest := extents[0], extents[1..];
      CutIsSlice(image, x.offset, x.size);
      CutAllIsConcat(image, rest);
      JoinedAppend(Cut(image, x.offset, x.size), CutAll(image, rest));
      ConcatFirst(Bodies(image, extents), |extents|);
      assert Bodies(image, extents)[1..] == Bodies(image, rest);
    }
  }

  /** What is streamed is the file whose header is the built one and whose bodies are the image's slices. */
  lemma StreamIsVirtualFile(header: bytes, image: bytes, extents: seq<Extent>)
    requires InImage(image, extents)
    ensures Joined(Chunks(header, image, extents)) == VirtualNsp.File(header, Bodies(image, extents))
  {
    hide CutAll;
    CutAllIsConcat(image, extents);
    assert Chunks(header, image, extents)[1..] == CutAll(image, extents);
  }

  // ----- the feed loop -----

  predicate GoesOn(v: Verdict) {
    v.InProgress? || v.Success?
  }

  lemma {:induction false} FeedAllAppend<S, D>(env: Env<S, D>, s: State<S, D>, a: seq<bytes>, b: seq<bytes>)
    requires Valid(env, s)
    ensures FeedAll(env, s, a + b) == FeedAll(env, FeedAll(env, s, a), b)
    decreases |a|
  {
    hide Valid, Feed;
    if a == [] {
      assert a + b == b;
    } else {
      assert (a + b)[1..] == a[1..] + b;
      FeedAllAppend(env, Feed(env, s, a[0]), a[1..], b);
    }
  }

  lemma FeedOne<S, D>(env: Env<S, D>, s: State<S, D>, c: bytes)
    requires Valid(env, s)
    ensures FeedAll(env, s, [c]) == Feed(env, s, c)
  {
    hide Valid, Feed;
    assert [c][1..] == [];
  }

  /** No read inside the image fails. */
  ghost predicate AllReads(read: Reader, image: bytes) {
    forall at: nat, len: nat {:trigger read(at, len)} :: 0 < len && at + len <= |image| ==> read(at, len).Some?
  }

  /** Streams one file; `stop` says before which of its pieces the user cancels. */
  method StreamFile<S, D>(ins: NexusInstaller<S, D>, x: Extent, read: Reader, stop: nat -> bool,
                          ghost image: bytes) returns (v: Verdict, ghost fed: nat)
    requires ins.Shaped() && Valid(ins.env, ins.Abs()) && HonestReader(read, image)
    modifies ins, ins.header, ins.entries, ins.tik, ins.cert
    ensures ins.Shaped() && ins.env == old(ins.env) && Valid(ins.env, ins.Abs())
    ensures fed <= |Cut(image, x.offset, x.size)| && ins.Abs() == FeedAll(ins.env, old(ins.Abs()), Cut(image, x.offset, x.size)[..fed])
    ensures GoesOn(v) ==> fed == |Cut(image, x.offset, x.size)|
    ensures AllReads(read, image) && x.offset + x.size <= |image| && (forall n :: !stop(n)) && !GoesOn(v) ==> ins.Abs().stage.Failed?
  {
    hide Valid, Feed, FeedAll, HonestReader, Cut, FeedVerdict;
    var remaining: nat, at: nat := x.size, x.offset;
    ghost var was, all := ins.Abs(), Cut(image, x.offset, x.size);
    var n: nat := 0;
    v := InProgress;
    FeedNothing(ins.env, was);
    assert all[..0] == [] && all[0..] == all;
    while remaining > 0
      invariant ins.Shaped() && ins.env == old(ins.env) && Valid(ins.env, ins.Abs())
      invariant n <= |all| && all[n..] == Cut(image, at, remaining)
      invariant ins.Abs() == FeedAll(ins.env, was, all[..n])
      invariant GoesOn(v) && at + remaining == x.offset + x.size
      decreases remaining
    {
      if stop(n) {
        return Aborted, n;
      }
      var want := Min(remaining, STREAM_CHUNK);
      var chunk := read(at, want);
      if chunk.None? {
        return Aborted, n;
      }
      CutStep(image, at, remaining);
      ReadIsSlice(read, image, at, want);
      assert all[n] == all[n..][0] == chunk.value;
      assert all[n + 1..] == all[n..][1..];
      FeedNext(ins.env, was, all, n);
      ghost var before := ins.Abs();
      v := ins.FeedChunk(chunk.value);
      StopsWhenFailed(ins.env, before, chunk.value);
      n := n + 1;
      if !GoesOn(v) {
        return v, n;
      }
      at := at + want;
      remaining := remaining - want;
    }
    CutNothing(image, at);
    assert |all[n..]| == 0;
    assert all[..n] == all;
    return v, n;
  }

  lemma StopsWhenFailed<S, D>(env: Env<S, D>, s: State<S, D>, data: bytes)
    requires Valid(env, s)
    ensures var t := Feed(env, s, data); !GoesOn(FeedVerdict(s, data, t)) ==> t.stage.Failed?
  {
    hide Valid, Iter;
  }

  /** No failed finish reports a success. */
  lemma FinishSaysSo<S, D>(env: Env<S, D>, s: State<S, D>)
    ensures var t := Finish(env, s);
            (FinishVerdict(s, t) == Success <==> !t.stage.Failed?) && FinishVerdict(s, t) != InProgress
  {
    hide Register, Fail;
    FailShape(env, s, NotFinished);
    FailShape(env, s, BufferTooSmall);
    FailShape(env, s.(user := env.ops.importTicket(s.user, s.tik, s.cert).user), BackendError);
    if s.stage.Complete? && !ImportTicket(env, s).stage.Failed? {
      RegisterSaysSo(env, ImportTicket(env, s));
    }
  }

  lemma RegisterSaysSo<S, D>(env: Env<S, D>, s: State<S, D>)
    requires s.stage.Complete?
    ensures var t := Register(env, s); t.stage.Failed? ==> t.stage.verdict in {BackendError, BadCnmt, TooManyContents, MissingContent}
  {
    hide Cnmt.Parse, Cnmt.ValidManifest, BuildMeta;
    var r := env.ops.readCnmt(s.user, s.metaId);
    var t := s.(user := r.user);
    match Cnmt.Parse(r.data)
    case Err(_) =>
    case Ok(m) =>
      BuildSaysSo(env, t, m);
      BuildMetaShape(env, t, m);
  }

  lemma BuildSaysSo<S, D>(env: Env<S, D>, s: State<S, D>, m: Cnmt.Manifest)
    requires Cnmt.ValidManifest(m)
    ensures var v := BuildMeta(env, s, m).1; v.Some? ==> v.value in {BadCnmt, TooManyContents, MissingContent}
  {
    hide AddContents, Cnmt.ValidManifest;
    AddSaysSo(m, s.entries, 0, [Content(s.metaId, s.metaSize, 0, Cnmt.TYPE_META, 0)]);
  }

  lemma {:induction false} AddSaysSo(m: Cnmt.Manifest, es: seq<Entry>, i: nat, listed: seq<Content>)
    requires Cnmt.ValidManifest(m) && i <= m.contentCount
    ensures var v := AddContents(m, es, i, listed).1; v.Some? ==> v.value == MissingContent
    decreases m.contentCount - i
  {
    hide Cnmt.ValidManifest, Cnmt.GetContentInfo, Present;
    if i < m.contentCount {
      var info := Cnmt.GetContentInfo(m, i).value;
      if info.contentType == Cnmt.TYPE_DELTA_FRAGMENT {
        AddSaysSo(m, es, i + 1, listed);
      } else if Present(es, info.contentId) {
        AddSaysSo(m, es, i + 1, listed + [ContentOf(info)]);
      }
    }
  }

  lemma FeedNothing<S, D>(env: Env<S, D>, s: State<S, D>)
    requires Valid(env, s)
    ensures FeedAll(env, s, []) == s
  {
  }

  lemma CutStep(image: bytes, at: nat, size: nat)
    requires size > 0
    ensures var want := Min(size, STREAM_CHUNK);
            var c := Cut(image, at, size);
            c != [] && c[0] == Slice(image, at, want) && c[1..] == Cut(image, at + want, size - want)
  {
  }

  lemma CutNothing(image: bytes, at: nat)
    ensures Cut(image, at, 0) == []
  {
  }

  lemma ReadIsSlice(read: Reader, image: bytes, at: nat, len: nat)
    requires HonestReader(read, image) && read(at, len).Some?
    ensures read(at, len).value == Slice(image, at, len)
  {
  }

  lemma FeedNext<S, D>(env: Env<S, D>, s: State<S, D>, all: seq<bytes>, n: nat)
    requires Valid(env, s) && n < |all|
    ensures FeedAll(env, s, all[..n + 1]) == Feed(env, FeedAll(env, s, all[..n]), all[n])
  {
    hide Valid, Feed, FeedAll;
    assert all[..n + 1] == all[..n] + [all[n]];
    FeedAllAppend(env, s, all[..n], [all[n]]);
    FeedOne(env, FeedAll(env, s, all[..n]), all[n]);
  }

  /** The header, then every file; then the install is finished, or aborted when anything went wrong. */
  method RunInstall<S, D>(ins: NexusInstaller<S, D>, header: bytes, extents: seq<Extent>, read: Reader,
                          stop: (nat, nat) -> bool, ghost image: bytes)
    returns (r: Verdict, ghost fed: nat)
    requires ins.Shaped() && Valid(ins.env, ins.Abs()) && HonestReader(read, image)
    modifies ins, ins.header, ins.entries, ins.tik, ins.cert
    ensures ins.Shaped() && ins.env == old(ins.env)
    ensures fed <= |Chunks(header, image, extents)|
    ensures var t := FeedAll(ins.env, old(ins.Abs()), Chunks(header, image, extents)[..fed]);
            || ins.Abs() == Abort(ins.env, t)
            || (fed == |Chunks(header, image, extents)| && ins.Abs() == Finish(ins.env, t) && r == FinishVerdict(t, ins.Abs()))
    ensures GoesOn(r) ==> ins.Abs() == Finish(ins.env, FeedAll(ins.env, old(ins.Abs()), Chunks(header, image, extents)))
    ensures r == Success <==> !ins.Abs().stage.Failed?
    ensures AllReads(read, image) && InImage(image, extents) && (forall i, j :: !stop(i, j)) ==>
              ins.Abs() == Finish(ins.env, FeedAll(ins.env, old(ins.Abs()), Chunks(header, image, extents)))
  {
    hide Valid, Feed, FeedAll, HonestReader, AllReads, Cut, CutAll, Finish, Abort, FeedVerdict;
    ghost var was, all := ins.Abs(), Chunks(header, image, extents);
    assert all[..1] == [header];
    FeedOne(ins.env, was, header);
    r := ins.FeedChunk(header);
    StopsWhenFailed(ins.env, was, header);
    ghost var n: nat := 1;
    var i: nat := 0;
    assert all[1..] == CutAll(image, extents[0..]) by { assert extents[0..] == extents; }
    while i < |extents| && GoesOn(r)
      invariant i <= |extents| && 1 <= n <= |all|
      invariant ins.Shaped() && ins.env == old(ins.env) && Valid(ins.env, ins.Abs())
      invariant ins.Abs() == FeedAll(ins.env, was, all[..n])
      invariant GoesOn(r) ==> all[n..] == CutAll(image, extents[i..])
      invariant AllReads(read, image) && InImage(image, extents) && (forall i, j :: !stop(i, j)) && !GoesOn(r) ==> ins.Abs().stage.Failed?
    {
      var x := extents[i];
      ghost var k;
      ghost var cut := Cut(image, x.offset, x.size);
      CutAllStep(image, extents, i);
      r, k := StreamFile(ins, x, read, (j: nat) => stop(i, j), image);
      assert all[..n + k] == all[..n] + cut[..k] by { PrefixBehind(all, n, cut, k, CutAll(image, extents[i + 1..])); }
      FeedAllAppend(ins.env, was, all[..n], cut[..k]);
      if GoesOn(r) {
        assert all[n + k..] == all[n..][k..] == CutAll(image, extents[i + 1..]);
      }
      n := n + k;
      i := i + 1;
    }
    fed := n;
    if !GoesOn(r) {
      if ins.stage.Failed? {
        StaysFailed(ins.env, was, all, n);
      }
      ins.AbortInstall();
      return r, fed;
    }
    assert extents[i..] == [];
    CutAllNothing(image);
    assert all[..n] == all;
    FinishSaysSo(ins.env, ins.Abs());
    r := ins.FinishInstall();
  }

  /** A run that failed on the way ends as if it had been fed all of it, and then finished. */
  lemma StaysFailed<S, D>(env: Env<S, D>, s: State<S, D>, all: seq<bytes>, n: nat)
    requires Valid(env, s) && n <= |all| && FeedAll(env, s, all[..n]).stage.Failed?
    ensures Finish(env, FeedAll(env, s, all)) == FeedAll(env, s, all[..n])
  {
    hide Valid, FeedAll;
    assert all == all[..n] + all[n..];
    FeedAllAppend(env, s, all[..n], all[n..]);
    FailedStays(env, FeedAll(env, s, all[..n]), all[n..]);
  }

  lemma CutAllStep(image: bytes, extents: seq<Extent>, i: nat)
    requires i < |extents|
    ensures CutAll(image, extents[i..]) == Cut(image, extents[i].offset, extents[i].size) + CutAll(image, extents[i + 1..])
  {
    hide Cut;
    assert extents[i..][0] == extents[i] && extents[i..][1..] == extents[i + 1..];
  }

  lemma CutAllNothing(image: bytes)
    ensures CutAll(image, []) == []
  {
  }

  lemma PrefixBehind<T>(all: seq<T>, n: nat, cut: seq<T>, k: nat, more: seq<T>)
    requires n <= |all| && k <= |cut| && all[n..] == cut + more
    ensures n + k <= |all| && all[..n + k] == all[..n] + cut[..k]
  {
    assert |all[n..]| == |cut| + |more|;
    forall i | 0 <= i < k
      ensures all[n + i] == cut[i]
    {
      assert all[n + i] == all[n..][i] == (cut + more)[i];
    }
  }

  // ----- the identity -----

  /**
   * Repackaging a card image and installing it commits exactly the image's contents: every picked file that
   * is a content, under its id, with the bytes that lie at its place in the image.
   */
  lemma ImageInstallsItsContents<S(!new), D>(env: Env<S, D>, user: S, d: D, p: Picked, h: bytes, image: bytes)
    requires Willing(env.ops) && Paired(p) && InImage(image, p.extents)
    requires Nsp.IsHeader(p.files, h) && Nsp.TotalSize(p.files) < U64_LIMIT
    requires TableOf(p.files, |p.files|) != [] && ExtractInstall.Complete(p.files)
    ensures var s := Begin(TracedEnv(env), Traced(user, []), d);
            && Valid(TracedEnv(env), s)
            && var t := FeedAll(TracedEnv(env), s, Chunks(h, image, p.extents));
               && t.stage.Complete?
               && Run(t.user.log).stored == ContentsOf(p.files, Bodies(image, p.extents), |p.files|)
  {
    hide Willing, FeedAll, Run, Joined, Valid, TracedEnv, ExtractInstall.Complete, TableOf, Nsp.IsHeader, Chunks, Nsp.TotalSize;
    StreamIsVirtualFile(h, image, p.extents);
    ExtractThenInstall(env, user, d, p.files, h, Bodies(image, p.extents), Chunks(h, image, p.extents));
  }
}
