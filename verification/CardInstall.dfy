/** Installing a card image, told in the entries of its secure partition and the bytes of the image alone. */
module CardInstall {
  import opened Bytes
  import opened EntryNames
  import opened InstallSpec
  import opened InstallTrace
  import opened ChunkIndependence
  import opened Delivery
  import opened Completion
  import opened ExtractInstall
  import opened Installer
  import opened TitleInstall
  import opened XciInstall
  import opened CardImage
  import Pfs = PartitionFs
  import Nsp = NspBuilder
  import VirtualNsp

  // ----- what lies in the partition -----

  /** The entries taken lie in the image. */
  ghost predicate InCard(ctx: Pfs.Context, dataOffset: nat, image: bytes, taken: seq<nat>) {
    && AreEntries(ctx, taken) && |image| < U64_LIMIT
    && forall k :: 0 <= k < |taken| ==>
                     var e := Pfs.GetEntry(ctx, taken[k]).value; dataOffset + e.offset + e.size <= |image|
  }

  ghost function NameIn(ctx: Pfs.Context, taken: seq<nat>, k: nat): bytes
    requires AreEntries(ctx, taken) && k < |taken|
  {
    Pfs.GetEntry(ctx, taken[k]).value.name
  }

  /** The bytes of the entry: its offset counts from where the partition's data starts. */
  ghost function BytesIn(ctx: Pfs.Context, dataOffset: nat, image: bytes, taken: seq<nat>, k: nat): bytes
    requires InCard(ctx, dataOffset, image, taken) && k < |taken|
  {
    var e := Pfs.GetEntry(ctx, taken[k]).value;
    image[dataOffset + e.offset..dataOffset + e.offset + e.size]
  }

  ghost function BodiesIn(ctx: Pfs.Context, dataOffset: nat, image: bytes, taken: seq<nat>): (bodies: seq<bytes>)
    requires InCard(ctx, dataOffset, image, taken)
    ensures |bodies| == |taken|
  {
    seq(|taken|, k requires 0 <= k < |taken| => BytesIn(ctx, dataOffset, image, taken, k))
  }

  /** What an install of the first `n` of these entries commits: the ids their names spell and their own bytes. */
  ghost function CardContents(ctx: Pfs.Context, dataOffset: nat, image: bytes, taken: seq<nat>, n: nat): seq<Placeholder>
    requires InCard(ctx, dataOffset, image, taken) && n <= |taken|
  {
    if n == 0 then []
    else
      var name, data := NameIn(ctx, taken, n - 1), BytesIn(ctx, dataOffset, image, taken, n - 1);
      CardContents(ctx, dataOffset, image, taken, n - 1) + if IsContentFile(name) then [Placeholder(IdOf(name), |data|, data)] else []
  }

  /** A card that can be installed as it is: it has a title's own meta, nothing packed, and a byte at the end of its contents. */
  ghost predicate WholeCard(ctx: Pfs.Context, taken: seq<nat>) {
    && AreEntries(ctx, taken)
    && (exists k, id :: 0 <= k < |taken| && IsTitle(NameIn(ctx, taken, k), id))
    && (forall k, id :: 0 <= k < |taken| ==> !IsPacked(NameIn(ctx, taken, k), id))
    && forall k :: 0 <= k < |taken| && IsContentFile(NameIn(ctx, taken, k)) ==> ByteAtOrBehind(ctx, taken, k)
  }

  ghost predicate ByteAtOrBehind(ctx: Pfs.Context, taken: seq<nat>, k: nat)
    requires AreEntries(ctx, taken)
  {
    exists j :: k <= j < |taken| && Pfs.GetEntry(ctx, taken[j]).value.size > 0
  }

  // ----- the files and bodies streamed are these -----

  lemma FilesAreIn(ctx: Pfs.Context, dataOffset: nat, image: bytes, taken: seq<nat>, k: nat)
    requires InCard(ctx, dataOffset, image, taken) && k < |taken|
    ensures var f, b := FilesAt(ctx, taken)[k], BodiesIn(ctx, dataOffset, image, taken)[k];
            f.name == NameIn(ctx, taken, k) && b == BytesIn(ctx, dataOffset, image, taken, k) && |b| == f.size == Pfs.GetEntry(ctx, taken[k]).value.size
  {
    hide Pfs.ValidContext, Pfs.GetEntry;
  }

  lemma BodiesFit(ctx: Pfs.Context, dataOffset: nat, image: bytes, taken: seq<nat>)
    requires InCard(ctx, dataOffset, image, taken)
    ensures VirtualNsp.BodiesOf(FilesAt(ctx, taken), BodiesIn(ctx, dataOffset, image, taken))
  {
    hide Pfs.ValidContext, Pfs.GetEntry;
    forall k | 0 <= k < |taken|
      ensures |BodiesIn(ctx, dataOffset, image, taken)[k]| == FilesAt(ctx, taken)[k].size
    {
      FilesAreIn(ctx, dataOffset, image, taken, k);
    }
  }

  /** The extents the install reads are the entries' places. */
  lemma ExtentsAreBodies(ctx: Pfs.Context, dataOffset: u64, image: bytes, taken: seq<nat>, p: Picked)
    requires PicksTaken(ctx, dataOffset, taken, p) && InCard(ctx, dataOffset, image, taken)
    ensures InImage(image, p.extents) && Bodies(image, p.extents) == BodiesIn(ctx, dataOffset, image, taken)
  {
    hide Pfs.ValidContext, Pfs.GetEntry;
    forall k | 0 <= k < |taken|
      ensures p.extents[k].offset + p.extents[k].size <= |image| && Bodies(image, p.extents)[k] == BytesIn(ctx, dataOffset, image, taken, k)
    {
      var e := Pfs.GetEntry(ctx, taken[k]).value;
      NoWrap(dataOffset + e.offset);
    }
  }

  lemma NoWrap(n: nat)
    requires n < U64_LIMIT
    ensures n % 0x1_0000_0000_0000_0000 == n
  {
  }

  lemma {:induction false} ContentsAreCards(ctx: Pfs.Context, dataOffset: nat, image: bytes, taken: seq<nat>, n: nat)
    requires InCard(ctx, dataOffset, image, taken) && n <= |taken|
    requires VirtualNsp.BodiesOf(FilesAt(ctx, taken), BodiesIn(ctx, dataOffset, image, taken))
    ensures NamedContents(FilesAt(ctx, taken), BodiesIn(ctx, dataOffset, image, taken), n) == CardContents(ctx, dataOffset, image, taken, n)
  {
    hide InCard, AreEntries, IsContentFile, FilesAt, BodiesIn, NameIn, BytesIn;
    if n > 0 {
      ContentsAreCards(ctx, dataOffset, image, taken, n - 1);
      FilesAreIn(ctx, dataOffset, image, taken, n - 1);
    }
  }

  // ----- a whole card is a whole title -----

  lemma NotATicket(name: bytes)
    requires NamesContent(name)
    ensures !IsTicket(name) && !IsCert(name)
  {
    var n := |name|;
    assert name[n - 1] == 0x61 || name[n - 1] == 0x7A;
  }

  lemma {:induction false} TakenAreNamed(ctx: Pfs.Context, n: nat)
    requires Pfs.ValidContext(ctx) && n <= ctx.count
    ensures forall k :: 0 <= k < |Taken(ctx, n)| ==> NamesContent(NameIn(ctx, Taken(ctx, n), k))
  {
    hide Pfs.ValidContext, Pfs.GetEntry, NamesContent;
    if n > 0 {
      TakenAreNamed(ctx, n - 1);
      var before := Taken(ctx, n - 1);
      forall k | 0 <= k < |Taken(ctx, n)|
        ensures NamesContent(NameIn(ctx, Taken(ctx, n), k))
      {
        assert k < |before| ==> NameIn(ctx, Taken(ctx, n), k) == NameIn(ctx, before, k);
      }
    }
  }

  lemma {:induction false} NoTickets(fs: seq<Nsp.File>, bodies: seq<bytes>, n: nat)
    requires |bodies| == |fs| && n <= |fs| && forall k :: 0 <= k < n ==> NamesContent(fs[k].name)
    ensures TicketBytes(fs, bodies, n) == [] && CertBytes(fs, bodies, n) == []
  {
    hide NamesContent, IsTicket, IsCert;
    if n > 0 {
      NoTickets(fs, bodies, n - 1);
      NotATicket(fs[n - 1].name);
    }
  }

  lemma WholeCardIsWhole(ctx: Pfs.Context, dataOffset: nat, image: bytes, taken: seq<nat>)
    requires InCard(ctx, dataOffset, image, taken) && WholeCard(ctx, taken)
    requires forall k :: 0 <= k < |taken| ==> NamesContent(NameIn(ctx, taken, k))
    ensures WholeTitle(FilesAt(ctx, taken), BodiesIn(ctx, dataOffset, image, taken))
  {
    hide Pfs.ValidContext, Pfs.GetEntry, NamesContent, IsTitle, IsPacked, IsContentFile, IsTicket, IsCert;
    var fs, bodies := FilesAt(ctx, taken), BodiesIn(ctx, dataOffset, image, taken);
    BodiesFit(ctx, dataOffset, image, taken);
    forall k | 0 <= k < |taken|
      ensures fs[k].name == NameIn(ctx, taken, k) && |bodies[k]| == Pfs.GetEntry(ctx, taken[k]).value.size
    {
      FilesAreIn(ctx, dataOffset, image, taken, k);
    }
    NoTickets(fs, bodies, |fs|);
    var k, id :| 0 <= k < |taken| && IsTitle(NameIn(ctx, taken, k), id);
    assert IsTitle(fs[k].name, id);
    forall i | 0 <= i < |fs| && IsUseful(fs[i].name)
      ensures ByteBehind(bodies, i)
    {
      NotATicket(NameIn(ctx, taken, i));
      var j :| i <= j < |taken| && Pfs.GetEntry(ctx, taken[j]).value.size > 0;
      assert bodies[j] != [];
    }
  }

  // ----- the install -----

  /** These bytes, in any cuts, are the container that the taken entries make: its header, and their bytes one after the other. */
  ghost predicate CarriesCard(chunks: seq<bytes>, h: bytes, ctx: Pfs.Context, dataOffset: nat, image: bytes, taken: seq<nat>)
    requires InCard(ctx, dataOffset, image, taken)
  {
    && Nsp.ValidFiles(FilesAt(ctx, taken)) && Nsp.IsHeader(FilesAt(ctx, taken), h) && Nsp.TotalSize(FilesAt(ctx, taken)) < U64_LIMIT
    && Joined(chunks) == VirtualNsp.File(h, BodiesIn(ctx, dataOffset, image, taken))
  }

  /**
   * Installing a card commits, for each content entry of the secure partition that is taken, in partition order, the id
   * its name spells and the bytes that lie in the image at the partition's data plus the entry's offset. It imports no
   * ticket, and the title's meta is the last entry of such a name, with its own size.
   */
  lemma CardTitleArrives<S(!new), D>(env: Env<S, D>, user: S, d: D, ctx: Pfs.Context, dataOffset: nat, image: bytes,
                                     h: bytes, chunks: seq<bytes>, k: nat, id: bytes)
    requires Willing(env.ops) && Pfs.ValidContext(ctx) && InCard(ctx, dataOffset, image, Taken(ctx, ctx.count))
    requires var taken := Taken(ctx, ctx.count);
             && WholeCard(ctx, taken) && CarriesCard(chunks, h, ctx, dataOffset, image, taken)
             && k < |taken| && IsTitle(NameIn(ctx, taken, k), id)
             && (forall j, x :: k < j < |taken| ==> !IsTitle(NameIn(ctx, taken, j), x))
    ensures var s, taken := Begin(TracedEnv(env), Traced(user, []), d), Taken(ctx, ctx.count);
            && Valid(TracedEnv(env), s)
            && var t := FeedAll(TracedEnv(env), s, chunks);
               && t.stage.Complete? && Run(t.user.log).stored == CardContents(ctx, dataOffset, image, taken, |taken|) && Run(t.user.log).open.None?
               && t.tik == [] && t.cert == [] && t.metaId == id && t.metaSize == |BytesIn(ctx, dataOffset, image, taken, k)|
  {
    hide Willing, FeedAll, Run, Valid, TracedEnv, Nsp.ValidFiles, Nsp.IsHeader, Nsp.TotalSize, VirtualNsp.File, WholeTitle, WholeCard, LastTitle,
      Pfs.ValidContext, Pfs.GetEntry, NamesContent, InCard, IsTitle, NamedContents, CardContents, Taken, HasContent, EmptyMeta;
    var taken := Taken(ctx, ctx.count);
    var fs, bodies := FilesAt(ctx, taken), BodiesIn(ctx, dataOffset, image, taken);
    TakenAreNamed(ctx, ctx.count);
    BodiesFit(ctx, dataOffset, image, taken);
    WholeCardIsWhole(ctx, dataOffset, image, taken);
    ContentsAreCards(ctx, dataOffset, image, taken, |taken|);
    LastOfCard(ctx, dataOffset, image, taken, k, id);
    ExtractedTitleArrives(env, user, d, fs, h, bodies, chunks, k, id);
    NoTicketsIn(ctx, dataOffset, image, taken);
    FilesAreIn(ctx, dataOffset, image, taken, k);
  }

  lemma NoTicketsIn(ctx: Pfs.Context, dataOffset: nat, image: bytes, taken: seq<nat>)
    requires InCard(ctx, dataOffset, image, taken) && forall k :: 0 <= k < |taken| ==> NamesContent(NameIn(ctx, taken, k))
    ensures var fs, bodies := FilesAt(ctx, taken), BodiesIn(ctx, dataOffset, image, taken);
            TicketBytes(fs, bodies, |fs|) == [] && CertBytes(fs, bodies, |fs|) == []
  {
    hide Pfs.ValidContext, Pfs.GetEntry, NamesContent;
    var fs := FilesAt(ctx, taken);
    forall k | 0 <= k < |fs|
      ensures NamesContent(fs[k].name)
    {
      FilesAreIn(ctx, dataOffset, image, taken, k);
    }
    NoTickets(fs, BodiesIn(ctx, dataOffset, image, taken), |fs|);
  }

  lemma LastOfCard(ctx: Pfs.Context, dataOffset: nat, image: bytes, taken: seq<nat>, k: nat, id: bytes)
    requires InCard(ctx, dataOffset, image, taken) && k < |taken| && IsTitle(NameIn(ctx, taken, k), id)
    requires forall j, x :: k < j < |taken| ==> !IsTitle(NameIn(ctx, taken, j), x)
    ensures LastTitle(FilesAt(ctx, taken), |taken|, k, id)
  {
    hide Pfs.ValidContext, Pfs.GetEntry, IsTitle;
    var fs := FilesAt(ctx, taken);
    assert fs[k].name == NameIn(ctx, taken, k);
    forall j, x: bytes | k < j < |taken|
      ensures !IsTitle(fs[j].name, x)
    {
      assert fs[j].name == NameIn(ctx, taken, j);
    }
  }

  // ----- the install as it runs -----

  /** Every read inside the image works, and nobody cancels. */
  ghost predicate Unhindered(read: Reader, stop: (nat, nat) -> bool, image: bytes) {
    AllReads(read, image) && forall i, j :: !stop(i, j)
  }

  /** There is something to install, its header has room, and its size is not out of bounds. */
  ghost predicate CanBuild(ctx: Pfs.Context, taken: seq<nat>, room: nat) {
    && AreEntries(ctx, taken)
    && taken != [] && Nsp.HeaderSize(FilesAt(ctx, taken)) <= room && Nsp.TotalSize(FilesAt(ctx, taken)) < U64_LIMIT
  }

  /** The installer went from `s` to `t` by being fed the container that the taken entries make, and finishing. */
  ghost predicate InstalledSo<S, D>(env: Env<S, D>, s: State<S, D>, t: State<S, D>, chunks: seq<bytes>, h: bytes,
                                    ctx: Pfs.Context, dataOffset: nat, image: bytes)
    requires Valid(env, s) && Pfs.ValidContext(ctx)
  {
    var taken := Taken(ctx, ctx.count);
    InCard(ctx, dataOffset, image, taken) ==>
      CarriesCard(chunks, h, ctx, dataOffset, image, taken) && t == Finish(env, FeedAll(env, s, chunks))
  }

  /**
   * Chooses the contents of the secure partition, gives them a header of their own, and streams them, if a container can
   * be built of them. When the run succeeds, what the installer has been fed is that container, and it has finished; and
   * so it has whenever nothing hinders the run.
   */
  method InstallSecure<S, D>(ins: NexusInstaller<S, D>, builder: Nsp.Builder, layout: Layout, read: Reader,
                             stop: (nat, nat) -> bool, ghost image: bytes)
    returns (r: Option<Verdict>, ghost chunks: seq<bytes>, ghost h: bytes)
    requires ins.Shaped() && Valid(ins.env, ins.Abs()) && HonestReader(read, image) && Pfs.ValidContext(layout.secure)
    requires builder.Valid() && builder.files == [] && !builder.finalised
    requires builder.header !in {ins.header, ins.tik, ins.cert}
    modifies ins, ins.header, ins.entries, ins.tik, ins.cert, builder, builder.header
    ensures ins.Shaped() && ins.env == old(ins.env)
    ensures r.Some? <==> CanBuild(layout.secure, Taken(layout.secure, layout.secure.count), builder.header.Length)
    ensures if r.None? then ins.Abs() == old(ins.Abs()) else r.value == Success <==> !ins.Abs().stage.Failed?
    ensures r.Some? && (r.value == Success || Unhindered(read, stop, image)) ==>
              InstalledSo(ins.env, old(ins.Abs()), ins.Abs(), chunks, h, layout.secure, layout.dataOffset, image)
  {
    hide Valid, FeedAll, Finish, Abort, HonestReader, AllReads, Pfs.ValidContext, Pfs.GetEntry, Nsp.IsHeader, Nsp.HeaderSize, Nsp.TotalSize, Nsp.DataOff,
      VirtualNsp.File, PicksTaken, XciInstall.Chunks, InCard, Taken;
    ghost var ctx := layout.secure;
    ghost var taken := Taken(ctx, ctx.count);
    var extents := PickContents(layout.secure, layout.dataOffset, builder);
    ghost var fs := builder.files;
    PickedAre(ctx, layout.dataOffset, taken, Picked(fs, extents));
    var built := builder.Finalize();
    if |extents| == 0 || built.Err? {
      return None, [], [];
    }
    h := builder.header[..builder.headerSize];
    ghost var p := Picked(fs, extents);
    SameLayout(fs, builder.files, h);
    var verdict;
    ghost var fed;
    verdict, fed := RunInstall(ins, builder.header[..builder.headerSize], extents, read, stop, image);
    chunks := XciInstall.Chunks(h, image, extents);
    if InCard(ctx, layout.dataOffset, image, taken) {
      PickedAre(ctx, layout.dataOffset, taken, p);
      ExtentsAreBodies(ctx, layout.dataOffset, image, taken, p);
      StreamIsVirtualFile(h, image, extents);
    }
    return Some(verdict), chunks, h;
  }

  /**
   * The whole run over a card's image: whatever reads fail and wherever it is cancelled, when it succeeds it has
   * installed what the walk over the image finds; and when nothing hinders it, it has done so if there is anything to
   * find that a container can be built of.
   */
  method InstallCard<S, D>(ins: NexusInstaller<S, D>, builder: Nsp.Builder, read: Reader, stop: (nat, nat) -> bool,
                           ghost image: bytes)
    returns (r: Option<Verdict>, ghost chunks: seq<bytes>, ghost h: bytes)
    requires ins.Shaped() && Valid(ins.env, ins.Abs()) && Reads(read, image)
    requires builder.Valid() && builder.files == [] && !builder.finalised
    requires builder.header !in {ins.header, ins.tik, ins.cert}
    modifies ins, ins.header, ins.entries, ins.tik, ins.cert, builder, builder.header
    ensures ins.Shaped() && ins.env == old(ins.env)
    ensures if r.None? then ins.Abs() == old(ins.Abs()) else r.value == Success <==> !ins.Abs().stage.Failed?
    ensures Unhindered(read, stop, image) ==> (r.Some? <==> CanInstall(image, builder.header.Length))
    ensures r.Some? && (r.value == Success || Unhindered(read, stop, image)) ==>
              && LayoutOf(image).Some?
              && InstalledSo(ins.env, old(ins.Abs()), ins.Abs(), chunks, h, LayoutOf(image).value.secure, LayoutOf(image).value.dataOffset, image)
  {
    hide Valid, FeedAll, Finish, HonestReader, AllReads, Pfs.ValidContext, InCard, Taken, CanBuild, InstalledSo, LayoutOf;
    var layout := ResolveLayout(read, image);
    if Unhindered(read, stop, image) {
      AllReadsAre(read, image);
    }
    if layout.None? {
      return None, [], [];
    }
    r, chunks, h := InstallSecure(ins, builder, layout.value, read, stop, image);
  }

  /** The image has a secure partition of which a container can be built. */
  ghost predicate CanInstall(image: bytes, room: nat) {
    LayoutOf(image).Some? && var ctx := LayoutOf(image).value.secure; CanBuild(ctx, Taken(ctx, ctx.count), room)
  }

  lemma AllReadsAre(read: Reader, image: bytes)
    requires Reads(read, image) && AllReads(read, image)
    ensures forall a: nat, n: nat {:trigger read(a, n)} :: read(a, n) == ReadAt(image, a, n)
  {
    forall a: nat, n: nat
      ensures read(a, n) == ReadAt(image, a, n)
    {
      if 0 < n && a + n <= |image| {
        assert read(a, n).Some?;
      }
    }
  }

  lemma PickedAre(ctx: Pfs.Context, dataOffset: u64, taken: seq<nat>, p: Picked)
    requires PicksTaken(ctx, dataOffset, taken, p)
    ensures AreEntries(ctx, taken) && p.files == FilesAt(ctx, taken)
  {
    hide Pfs.ValidContext, Pfs.GetEntry;
  }

  /** Fixing the files' offsets changes neither header nor sizes. */
  lemma SameLayout(fs: seq<Nsp.File>, gs: seq<Nsp.File>, h: bytes)
    requires |fs| == |gs| && forall i :: 0 <= i < |fs| ==> fs[i].name == gs[i].name && fs[i].size == gs[i].size
    ensures Nsp.TotalSize(gs) == Nsp.TotalSize(fs) && (Nsp.IsHeader(gs, h) <==> Nsp.IsHeader(fs, h))
  {
    hide Nsp.DataOff, Nsp.NameOff, Nsp.SlotIs, Nsp.NameIs;
    Nsp.LayoutIsLocal(fs, gs, |fs|);
    forall i | 0 <= i < |fs|
      ensures (Nsp.SlotIs(gs, h, i) <==> Nsp.SlotIs(fs, h, i)) && (Nsp.NameIs(gs, h, i) <==> Nsp.NameIs(fs, h, i))
    {
      SameSlot(fs, gs, h, i);
    }
  }

  lemma SameSlot(fs: seq<Nsp.File>, gs: seq<Nsp.File>, h: bytes, i: nat)
    requires i < |fs| == |gs| && forall k :: 0 <= k < |fs| ==> fs[k].name == gs[k].name && fs[k].size == gs[k].size
    ensures (Nsp.SlotIs(gs, h, i) <==> Nsp.SlotIs(fs, h, i)) && (Nsp.NameIs(gs, h, i) <==> Nsp.NameIs(fs, h, i))
  {
    hide Nsp.SlotBytes, Nsp.DataOff, Nsp.NameOff;
    Nsp.LayoutIsLocal(fs, gs, i);
  }
}
