/** What the header of a container decides on its own: whether the install goes on, and with which code it fails if not. */
module HeaderVerdict {
  import opened Bytes
  import opened EntryNames
  import opened InstallSpec
  import opened ChunkIndependence
  import Pfs = PartitionFs

  datatype Ruling = Pending | Faulty(verdict: Verdict) | Sound

  /** How many of the first `n` entries have the name of a content, a ticket or a certificate. */
  ghost function Useful(ctx: Pfs.Context, n: nat): nat
    requires Pfs.ValidContext(ctx) && n <= ctx.count
  {
    if n == 0 then 0 else Useful(ctx, n - 1) + if Classify(Pfs.GetEntry(ctx, n - 1).value.name).0.Ignore? then 0 else 1
  }

  ghost predicate HasTitle(ctx: Pfs.Context)
    requires Pfs.ValidContext(ctx)
  {
    exists i :: 0 <= i < ctx.count && IsMeta(Classify(Pfs.GetEntry(ctx, i).value.name).0)
  }

  ghost function RulingOnTable(h: bytes): Ruling {
    if Pfs.Parse(h).Err? then Faulty(BadContainer)
    else if Useful(Pfs.Parse(h).value, Pfs.Parse(h).value.count) > 64 then Faulty(TooManyContents)
    else if !HasTitle(Pfs.Parse(h).value) then Faulty(NoMetaNca)
    else Sound
  }

  /** The first 16 bytes say how long the header is; a header of just 16 bytes is looked at when another byte arrives. */
  ghost function RulingOn(stream: bytes): Ruling {
    if |stream| < 16 then Pending
    else
      match Pfs.PeekHeaderSize(stream)
      case Err(_) => Faulty(BadContainer)
      case Ok((_, size)) =>
        if size > 0x4000 then Faulty(HeaderTooLarge)
        else if |stream| < size || |stream| == 16 then Pending
        else RulingOnTable(stream[..size])
  }

  /** Once given, the ruling stays. */
  lemma RulingStays(stream: bytes, more: bytes)
    requires !RulingOn(stream).Pending?
    ensures RulingOn(stream + more) == RulingOn(stream)
  {
    hide Pfs.PeekHeaderSize, RulingOnTable;
    Pfs.PeekIsLocal(stream, stream + more);
    var peek := Pfs.PeekHeaderSize(stream);
    if peek.Ok? && peek.value.1 <= |stream| {
      assert (stream + more)[..peek.value.1] == stream[..peek.value.1];
    }
  }

  // ----- the table -----

  lemma {:induction false} CollectCounts(ctx: Pfs.Context, i: nat, found: seq<Entry>)
    requires Pfs.ValidContext(ctx) && i <= ctx.count && |found| == Useful(ctx, i) <= 64
    ensures var (es, v) := Collect(ctx, i, found);
            && (v.Some? <==> Useful(ctx, ctx.count) > 64) && (v.Some? ==> v == Some(TooManyContents))
            && (v.None? ==> |es| == Useful(ctx, ctx.count))
    decreases ctx.count - i
  {
    hide Pfs.ValidContext, Pfs.GetEntry, Classify;
    if i < ctx.count {
      var e := EntryFor(ctx, i, Pfs.GetEntry(ctx, i).value);
      if e.kind.Ignore? {
        CollectCounts(ctx, i + 1, found);
      } else if |found| < 64 {
        CollectCounts(ctx, i + 1, found + [e]);
      } else {
        UsefulGrows(ctx, i + 1, ctx.count);
      }
    }
  }

  lemma {:induction false} UsefulGrows(ctx: Pfs.Context, i: nat, n: nat)
    requires Pfs.ValidContext(ctx) && i <= n <= ctx.count
    ensures Useful(ctx, i) <= Useful(ctx, n)
    decreases n - i
  {
    hide Pfs.ValidContext, Pfs.GetEntry, Classify;
    if i < n {
      UsefulGrows(ctx, i, n - 1);
    }
  }

  /** The entries of the table from `i` on that are metas are those of the container. */
  lemma {:induction false} CollectKeepsTitle(ctx: Pfs.Context, i: nat, found: seq<Entry>)
    requires Pfs.ValidContext(ctx) && i <= ctx.count && Collect(ctx, i, found).1.None?
    ensures (exists e :: e in Collect(ctx, i, found).0 && IsMeta(e.kind))
       <==> (exists e :: e in found && IsMeta(e.kind)) || (exists k :: i <= k < ctx.count && IsMeta(Classify(Pfs.GetEntry(ctx, k).value.name).0))
    decreases ctx.count - i
  {
    hide Pfs.ValidContext, Pfs.GetEntry, Classify;
    if i < ctx.count {
      var e := EntryFor(ctx, i, Pfs.GetEntry(ctx, i).value);
      if e.kind.Ignore? {
        CollectKeepsTitle(ctx, i + 1, found);
      } else {
        CollectKeepsTitle(ctx, i + 1, found + [e]);
        SomeBehind(found, e);
      }
    }
  }

  lemma SomeBehind(found: seq<Entry>, e: Entry)
    ensures (exists x :: x in found + [e] && IsMeta(x.kind)) <==> (exists x :: x in found && IsMeta(x.kind)) || IsMeta(e.kind)
  {
    if x :| x in found && IsMeta(x.kind) {
      assert x in found + [e];
    }
    assert (found + [e])[|found|] == e;
  }

  lemma {:induction false} LastMetaIsSome(es: seq<Entry>)
    ensures LastMeta(es).Some? <==> exists e :: e in es && IsMeta(e.kind)
  {
    if es != [] {
      LastMetaIsSome(es[..|es| - 1]);
      assert es == es[..|es| - 1] + [es[|es| - 1]];
      SomeBehind(es[..|es| - 1], es[|es| - 1]);
    }
  }

  lemma TableRuling<S, D>(env: Env<S, D>, s: State<S, D>)
    requires s.stage.Header? && !s.hasMeta
    ensures var t := OpenContainer(env, s);
            match RulingOnTable(s.header)
            case Pending => false
            case Faulty(v) => t.stage == Failed(v)
            case Sound => t.stage.Streaming?
  {
    hide Pfs.Parse, Collect, LastMeta, SortByOffset, Useful, HasTitle, Fail, Pfs.ValidContext;
    if Pfs.Parse(s.header).Ok? {
      var ctx := Pfs.Parse(s.header).value;
      NothingUseful(ctx);
      CollectCounts(ctx, 0, []);
      var (es, v) := Collect(ctx, 0, []);
      if v.None? {
        TitleIsListed(ctx);
        LastMetaIsSome(es);
      }
      var (b, w) := BuildEntries(s, ctx);
      if w.Some? {
        FailShape(env, b, w.value);
      }
    } else {
      FailShape(env, s, BadContainer);
    }
  }

  lemma NothingUseful(ctx: Pfs.Context)
    requires Pfs.ValidContext(ctx)
    ensures Useful(ctx, 0) == 0
  {
  }

  lemma TitleIsListed(ctx: Pfs.Context)
    requires Pfs.ValidContext(ctx) && Collect(ctx, 0, []).1.None?
    ensures HasTitle(ctx) <==> exists e :: e in Collect(ctx, 0, []).0 && IsMeta(e.kind)
  {
    hide Pfs.ValidContext, Pfs.GetEntry, Classify, Collect;
    CollectKeepsTitle(ctx, 0, []);
  }

  // ----- every cut -----

  /** The installer has gone just as far as the header rules. */
  ghost predicate Ruled<S, D>(s: State<S, D>, stream: bytes) {
    match s.stage
    case Magic => s.header == stream && |stream| < 16
    case Header =>
      && s.header == stream && 16 <= |stream| && Pfs.PeekHeaderSize(stream).Ok? && Pfs.PeekHeaderSize(stream).value.1 == s.headerSize <= 0x4000
      && (|stream| < s.headerSize || |stream| == 16)
    case Failed(v) => RulingOn(stream) == Sound || RulingOn(stream) == Faulty(v)
    case _ => RulingOn(stream) == Sound
  }

  lemma MagicRuled<S, D>(env: Env<S, D>, s: State<S, D>, stream: bytes, data: bytes)
    requires Ruled(s, stream) && Valid(env, s) && s.stage.Magic?
    ensures var (t, used) := StepMagic(env, s, data);
            Ruled(t, stream + data[..used]) && (t.stage.Failed? ==> RulingOn(stream + data[..used]) == Faulty(t.stage.verdict))
  {
    hide Advance, Pfs.PeekHeaderSize, Fail, RulingOnTable;
    var used := Min(|data|, 16 - |stream|);
    var t := Absorb(s, data[..used]);
    FailShape(env, t, BadContainer);
    var peek := Pfs.PeekHeaderSize(t.header);
    if peek.Ok? {
      FailShape(env, t.(headerSize := peek.value.1), HeaderTooLarge);
      PeekIsPositive(t.header);
    }
  }

  lemma HeaderRuled<S, D>(env: Env<S, D>, s: State<S, D>, stream: bytes, data: bytes)
    requires Ruled(s, stream) && Valid(env, s) && s.stage.Header? && data != []
    ensures var (t, used) := StepHeader(env, s, data);
            var seen := stream + if used > 0 then data[..used] else data;
            Ruled(t, seen) && (used == 0 ==> t.stage.Failed?) && (t.stage.Failed? ==> RulingOn(seen) == Faulty(t.stage.verdict))
  {
    hide Advance, Pfs.PeekHeaderSize, OpenContainer, RulingOnTable;
    var used := Min(|data|, s.headerSize - |s.header|);
    var h := stream + data[..used];
    Pfs.PeekIsLocal(stream, h);
    if |h| == s.headerSize {
      var u := Absorb(s, data[..used]);
      TableRuling(env, u);
      assert h[..|h|] == h;
      if used == 0 {
        assert h == stream;
        Pfs.PeekIsLocal(stream, stream + data);
        assert (stream + data)[..16] == stream;
        EmptyIsFaulty(stream);
      }
    }
  }

  /** A header of 16 bytes has no entries. */
  lemma EmptyIsFaulty(h: bytes)
    requires |h| == 16 && Pfs.PeekHeaderSize(h).Ok? && Pfs.PeekHeaderSize(h).value.1 == 16
    ensures RulingOnTable(h).Faulty?
  {
    hide RdLe, Classify, Pfs.GetEntry, Pfs.NameOk;
  }

  lemma StreamingRuled<S, D>(env: Env<S, D>, s: State<S, D>, stream: bytes, data: bytes)
    requires Ruled(s, stream) && Valid(env, s) && s.stage.Streaming?
    ensures var (t, used) := StepStreaming(env, s, data); used <= |data| && Ruled(t, stream + data[..used])
  {
    hide Advance, StepEntry, EntryEnd, RulingOn;
    var used := StepStreaming(env, s, data).1;
    RulingStays(stream, data[..used]);
    if s.cursor < |s.entries| && s.streamPos >= s.entries[s.cursor].absOffset {
      EntryShape(env, s, data[..used]);
    }
  }

  lemma DecidedStays<S, D>(s: State<S, D>, stream: bytes, data: bytes)
    requires Ruled(s, stream) && (s.stage.Failed? || s.stage.Complete?)
    ensures Ruled(s, stream + data)
    ensures s.stage.Complete? ==> forall t: State<S, D> :: t.stage.Complete? ==> Ruled(t, stream + data)
  {
    hide RulingOn;
    RulingStays(stream, data);
  }

  lemma {:induction false} FeedRuled<S, D>(env: Env<S, D>, s: State<S, D>, stream: bytes, data: bytes)
    requires Ruled(s, stream) && Valid(env, s)
    ensures Ruled(Feed(env, s, data), stream + data)
    decreases |data|, StageRank(s.stage), EntriesLeft(s)
  {
    hide Ruled, Iter, Valid;
    if data == [] {
      assert stream + data == stream;
    } else if s.stage.Failed? {
      DecidedStays(s, stream, data);
    } else {
      IterProgress(env, s, data);
      RoundRuled(env, s, stream, data);
      var (t, used) := Iter(env, s, data);
      if t.stage.Failed? && Ruled(t, stream + data) {
        assert Feed(env, t, data[used..]) == t;
      } else {
        assert stream + data[..used] + data[used..] == stream + data;
        FeedRuled(env, t, stream + data[..used], data[used..]);
      }
    }
  }

  lemma RoundRuled<S, D>(env: Env<S, D>, s: State<S, D>, stream: bytes, data: bytes)
    requires Ruled(s, stream) && Valid(env, s) && !s.stage.Failed? && data != []
    ensures var (t, used) := Iter(env, s, data); Ruled(t, stream + data[..used]) || (t.stage.Failed? && Ruled(t, stream + data))
  {
    hide StepMagic, StepHeader, StepStreaming, RulingOn, Advance;
    match s.stage
    case Magic => MagicRuled(env, s, stream, data);
    case Header => HeaderRuled(env, s, stream, data);
    case Streaming => StreamingRuled(env, s, stream, data);
    case Complete =>
      DecidedStays(s, stream, data);
      assert data[..|data|] == data;
  }

  lemma {:induction false} ChunksRuled<S, D>(env: Env<S, D>, s: State<S, D>, stream: bytes, chunks: seq<bytes>)
    requires Ruled(s, stream) && Valid(env, s)
    ensures Ruled(FeedAll(env, s, chunks), stream + Joined(chunks))
    decreases |chunks|
  {
    hide Ruled, Feed, Valid;
    if chunks == [] {
      assert stream + [] == stream;
    } else {
      FeedRuled(env, s, stream, chunks[0]);
      assert stream + (chunks[0] + Joined(chunks[1..])) == stream + chunks[0] + Joined(chunks[1..]);
      ChunksRuled(env, Feed(env, s, chunks[0]), stream + chunks[0], chunks[1..]);
    }
  }

  /**
   * However the stream is cut and whatever hooks and decoder do: a header that is not that of a container, is longer than
   * 0x4000 bytes, lists more than 64 useful entries or no meta content fails the install with just that code as soon
   * as that can be seen; before that the install waits; and otherwise it goes on to the contents.
   */
  lemma HeaderRules<S, D>(env: Env<S, D>, user: S, d: D, chunks: seq<bytes>)
    ensures var s := Begin(env, user, d);
            && Valid(env, s)
            && var t := FeedAll(env, s, chunks);
               match RulingOn(Joined(chunks))
               case Pending => t.stage.Magic? || t.stage.Header?
               case Faulty(v) => t.stage == Failed(v)
               case Sound => !t.stage.Magic? && !t.stage.Header?
  {
    hide FeedAll, RulingOn;
    var s := Begin(env, user, d);
    ChunksRuled(env, s, [], chunks);
    assert [] + Joined(chunks) == Joined(chunks);
    RuledIs(FeedAll(env, s, chunks), Joined(chunks));
  }

  lemma RuledIs<S, D>(s: State<S, D>, stream: bytes)
    requires Ruled(s, stream)
    ensures s.stage.Magic? || s.stage.Header? ==> RulingOn(stream).Pending?
    ensures s.stage.Failed? ==> !RulingOn(stream).Pending?
  {
    hide Pfs.PeekHeaderSize, RulingOnTable;
  }
}
