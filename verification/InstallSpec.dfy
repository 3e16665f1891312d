/**
 * The streaming install as a transition system: what each chunk of the container does to the
 * installer's fields, to the backend's state and to the decoder's state.
 *
 * The backend and the decoder are tables of hooks over an opaque user state, as in the C interface.
 * A hook may succeed or fail in any way that depends on that state.
 */
module InstallSpec {
  import opened Bytes
  import opened EntryNames
  import Pfs = PartitionFs
  import Cnmt

  const MAX_CONTENTS: nat := 64
  const MAX_HEADER: nat := 0x4000
  const MAX_TICKET: nat := 0x1000
  const MAX_CERT: nat := 0x2000
  const MAX_EXT_HEADER: nat := 0x100

  datatype Verdict =
    | Success | InProgress | BadContainer | HeaderTooLarge | NoMetaNca | TooManyContents | BadCnmt | MissingContent
    | BufferTooSmall | BackendError | NoDecompressor | BadNcz | Aborted | NotFinished

  /** The Failed stage remembers what the call that failed returned. */
  datatype Stage = Magic | Header | Streaming | Complete | Failed(verdict: Verdict)

  datatype Entry = Entry(pfsIndex: nat, kind: Kind, contentId: bytes, absOffset: u64, size: u64)

  datatype Content = Content(contentId: bytes, size: u64, attr: u8, contentType: u8, idOffset: u8)

  datatype Meta = Meta(titleId: u64, version: u32, metaType: u8, storageId: u8, extHeader: bytes,
                       contents: seq<Content>, hasTicket: bool, rightsId: bytes)

  // ----- the two hook tables -----

  datatype Reply<S> = Reply(ok: bool, user: S)

  datatype ReadReply<S> = ReadReply(ok: bool, data: bytes, user: S)

  datatype BackendOps<!S> = BackendOps(
    contentBegin: (S, bytes, u64) -> Reply<S>,
    contentWrite: (S, bytes) -> Reply<S>,
    contentCommit: S -> Reply<S>,
    contentDiscard: S -> S,
    readCnmt: (S, bytes) -> ReadReply<S>,
    importTicket: (S, bytes, bytes) -> Reply<S>,
    registerMeta: (S, Meta) -> Reply<S>,
    pushRecord: (S, Meta) -> Reply<S>,
    rollback: (S, Meta) -> S)

  /** One call of the sink from inside a decoder's feed, with the size the decoder reports at that moment. */
  datatype Emission = Emission(size: u64, data: bytes)

  /** What one feed does: the sink calls it makes, in order, and what it returns if none of them fails. */
  datatype FeedReply<D> = FeedReply(emissions: seq<Emission>, ok: bool, user: D)

  datatype NczOps<!D> = NczOps(
    begin: D -> Reply<D>,
    feed: (D, bytes) -> FeedReply<D>,
    end: D -> Reply<D>,
    size: D -> u64)

  /** Everything an installer is given: hooks, the target, and the rights id a ticket parses to. */
  datatype Env<!S, !D> = Env(ops: BackendOps<S>, ncz: Option<NczOps<D>>, target: u8, rightsIdOf: bytes -> Option<bytes>)

  datatype State<S, D> = State(
    stage: Stage,
    header: bytes,
    headerSize: u64,
    entries: seq<Entry>,
    cursor: nat,
    contentOpen: bool,
    tik: bytes,
    cert: bytes,
    metaId: bytes,
    hasMeta: bool,
    metaSize: u64,
    nczActive: bool,
    streamPos: u64,
    bytesWritten: u64,
    meta: Meta,
    user: S,
    nczUser: D)

  function EmptyMeta(target: u8): Meta {
    Meta(0, 0, 0, target, [], [], false, [])
  }

  function Begin<S, D>(env: Env<S, D>, user: S, nczUser: D): State<S, D> {
    State(Magic, [], 0, [], 0, false, [], [], NO_ID, false, 0, false, 0, 0, EmptyMeta(env.target), user, nczUser)
  }

  // ----- failing -----

  /** Drops the open placeholder, lets the backend clean up what was committed, and stays failed. */
  function Fail<S, D>(env: Env<S, D>, s: State<S, D>, v: Verdict): State<S, D> {
    var dropped := if s.contentOpen then s.(user := env.ops.contentDiscard(s.user), contentOpen := false) else s;
    dropped.(user := env.ops.rollback(dropped.user, dropped.meta), stage := Failed(v))
  }

  // ----- the header stages -----

  function Absorb<S, D>(s: State<S, D>, data: bytes): State<S, D> {
    s.(header := s.header + data, streamPos := Advance(s.streamPos, |data|))
  }

  function StepMagic<S, D>(env: Env<S, D>, s: State<S, D>, data: bytes): (State<S, D>, nat)
    requires |s.header| < Pfs.HEADER_SIZE
  {
    var used := Min(|data|, Pfs.HEADER_SIZE - |s.header|);
    var t := Absorb(s, data[..used]);
    if |t.header| < Pfs.HEADER_SIZE then (t, used)
    else
      match Pfs.PeekHeaderSize(t.header)
      case Err(_) => (Fail(env, t, BadContainer), used)
      case Ok((_, size)) =>
        if size > MAX_HEADER then (Fail(env, t.(headerSize := size), HeaderTooLarge), used)
        else (t.(headerSize := size, stage := Header), used)
  }

  function StepHeader<S, D>(env: Env<S, D>, s: State<S, D>, data: bytes): (State<S, D>, nat)
    requires |s.header| <= s.headerSize
  {
    var used := Min(|data|, s.headerSize - |s.header|);
    var t := Absorb(s, data[..used]);
    if |t.header| < s.headerSize then (t, used) else (OpenContainer(env, t), used)
  }

  /** The header is whole: parse it, build the entry table and start on the contents. */
  function OpenContainer<S, D>(env: Env<S, D>, s: State<S, D>): State<S, D> {
    match Pfs.Parse(s.header)
    case Err(_) => Fail(env, s, BadContainer)
    case Ok(ctx) =>
      var (b, v) := BuildEntries(s, ctx);
      if v.Some? then Fail(env, b, v.value) else b.(stage := Streaming, cursor := 0)
  }

  /** Where entry `e` of the container starts in the stream, as the 64-bit sum gives it. */
  function EntryFor(ctx: Pfs.Context, i: nat, e: Pfs.Entry): Entry {
    var (kind, id) := Classify(e.name);
    Entry(i, kind, id, Add64(ctx.headerSize, e.offset), e.size)
  }

  /** The useful entries from `i` on, in container order, behind those already found. */
  function Collect(ctx: Pfs.Context, i: nat, found: seq<Entry>): (r: (seq<Entry>, Option<Verdict>))
    requires Pfs.ValidContext(ctx) && i <= ctx.count
    decreases ctx.count - i
  {
    if i == ctx.count then (found, None)
    else
      var e := EntryFor(ctx, i, Pfs.GetEntry(ctx, i).value);
      if e.kind.Ignore? then Collect(ctx, i + 1, found)
      else if |found| >= MAX_CONTENTS then (found, Some(TooManyContents))
      else Collect(ctx, i + 1, found + [e])
  }

  /** The meta content is the last one of that kind. */
  function LastMeta(es: seq<Entry>): (m: Option<Entry>)
    ensures m.Some? ==> IsMeta(m.value.kind)
  {
    if es == [] then None
    else if IsMeta(es[|es| - 1].kind) then Some(es[|es| - 1])
    else LastMeta(es[..|es| - 1])
  }

  function WithEntries<S, D>(s: State<S, D>, es: seq<Entry>): State<S, D> {
    var t := s.(entries := es);
    match LastMeta(es)
    case None => t
    case Some(m) => t.(metaId := m.contentId, metaSize := m.size, hasMeta := true)
  }

  function BuildEntries<S, D>(s: State<S, D>, ctx: Pfs.Context): (State<S, D>, Option<Verdict>)
    requires Pfs.ValidContext(ctx)
  {
    var (es, v) := Collect(ctx, 0, []);
    var t := WithEntries(s, es);
    if v.Some? then (t, v)
    else if !t.hasMeta then (t, Some(NoMetaNca))
    else (t.(entries := SortByOffset(es)), None)
  }

  /** Puts `e` behind every entry of `es` that does not lie after it. */
  function Insert(es: seq<Entry>, e: Entry): (r: seq<Entry>)
    ensures |r| == |es| + 1
  {
    if es == [] || es[|es| - 1].absOffset <= e.absOffset then es + [e]
    else Insert(es[..|es| - 1], e) + [es[|es| - 1]]
  }

  function SortByOffset(es: seq<Entry>): (r: seq<Entry>)
    ensures |r| == |es|
  {
    if es == [] then [] else Insert(SortByOffset(es[..|es| - 1]), es[|es| - 1])
  }

  // ----- the streaming stage -----

  /** The sink: opens the placeholder on the first byte, then writes. */
  function Sink<S, D>(env: Env<S, D>, s: State<S, D>, em: Emission): (State<S, D>, bool)
    requires s.cursor < |s.entries|
  {
    var (t, open) := OpenForSink(env, s, em.size);
    if !open then (t, false) else WriteContent(env, t, em.data)
  }

  function OpenForSink<S, D>(env: Env<S, D>, s: State<S, D>, size: u64): (State<S, D>, bool)
    requires s.cursor < |s.entries|
  {
    if s.contentOpen then (s, true)
    else if size == 0 then (s, false)
    else
      var r := env.ops.contentBegin(s.user, s.entries[s.cursor].contentId, size);
      (s.(user := r.user, contentOpen := r.ok), r.ok)
  }

  function WriteContent<S, D>(env: Env<S, D>, s: State<S, D>, data: bytes): (State<S, D>, bool) {
    var r := env.ops.contentWrite(s.user, data);
    if r.ok then (s.(user := r.user, bytesWritten := Advance(s.bytesWritten, |data|)), true)
    else (s.(user := r.user), false)
  }

  /** The sink calls of one feed, up to the first that fails. */
  function RunSink<S, D>(env: Env<S, D>, s: State<S, D>, ems: seq<Emission>): (r: (State<S, D>, bool))
    requires s.cursor < |s.entries|
    ensures r.0.cursor == s.cursor && r.0.entries == s.entries && r.0.stage == s.stage && r.0.nczActive == s.nczActive
    decreases |ems|
  {
    if ems == [] then (s, true)
    else
      var (t, ok) := Sink(env, s, ems[0]);
      if !ok then (t, false) else RunSink(env, t, ems[1..])
  }

  /** The compressed bytes of an entry go through the decoder, which calls the sink back. */
  function FeedDecoder<S, D>(env: Env<S, D>, s: State<S, D>, data: bytes): (t: State<S, D>)
    requires s.cursor < |s.entries| && env.ncz.Some?
    ensures t.cursor == s.cursor && t.entries == s.entries && t.nczActive == s.nczActive
  {
    var r := env.ncz.value.feed(s.nczUser, data);
    var (t, taken) := RunSink(env, s, r.emissions);
    var u := t.(nczUser := r.user);
    if taken && r.ok then u else Fail(env, u, BadNcz)
  }

  /** Routes bytes that fall inside the current entry. */
  function Route<S, D>(env: Env<S, D>, s: State<S, D>, data: bytes): (t: State<S, D>)
    requires s.cursor < |s.entries|
    requires IsCompressed(s.entries[s.cursor].kind) ==> env.ncz.Some?
    ensures t.cursor == s.cursor && t.entries == s.entries && t.nczActive == s.nczActive
  {
    var kind := s.entries[s.cursor].kind;
    if kind.Nca? || kind.MetaNca? then
      var (t, ok) := WriteContent(env, s, data);
      if ok then t else Fail(env, t, BackendError)
    else if IsCompressed(kind) then FeedDecoder(env, s, data)
    else if kind.Ticket? then
      if |s.tik| + |data| > MAX_TICKET then Fail(env, s, BufferTooSmall) else s.(tik := s.tik + data)
    else if kind.Cert? then
      if |s.cert| + |data| > MAX_CERT then Fail(env, s, BufferTooSmall) else s.(cert := s.cert + data)
    else s
  }

  /** Before the first byte of an entry: start the decoder, or open the placeholder. */
  function OpenEntry<S, D>(env: Env<S, D>, s: State<S, D>): (t: State<S, D>)
    requires s.cursor < |s.entries| && (s.nczActive ==> env.ncz.Some?)
    ensures t.cursor == s.cursor && t.entries == s.entries && (t.nczActive ==> env.ncz.Some?)
    ensures t.stage == s.stage || t.stage.Failed?
    ensures t.stage.Failed? || s.stage.Failed? || !IsCompressed(s.entries[s.cursor].kind) || env.ncz.Some?
  {
    var e := s.entries[s.cursor];
    if IsCompressed(e.kind) then
      if s.nczActive then s
      else if env.ncz.None? then Fail(env, s, NoDecompressor)
      else
        var r := env.ncz.value.begin(s.nczUser);
        var t := s.(nczUser := r.user);
        if r.ok then t.(nczActive := true) else Fail(env, t, BadNcz)
    else if !s.contentOpen && IsContent(e.kind) then
      var r := env.ops.contentBegin(s.user, e.contentId, e.size);
      var t := s.(user := r.user);
      if r.ok then t.(contentOpen := true) else Fail(env, t, BackendError)
    else s
  }

  /** After the last byte of an entry: end the decoder, commit the placeholder, move on. */
  function CloseEntry<S, D>(env: Env<S, D>, s: State<S, D>): State<S, D>
    requires s.cursor < |s.entries| && (s.nczActive ==> env.ncz.Some?)
  {
    var t := if s.nczActive then EndDecoder(env, s) else s;
    if t.stage.Failed? then t
    else
      var u := if t.contentOpen then Commit(env, t) else t;
      if u.stage.Failed? then u
      else u.(cursor := u.cursor + 1, stage := if u.cursor + 1 >= |u.entries| then Complete else u.stage)
  }

  function EndDecoder<S, D>(env: Env<S, D>, s: State<S, D>): (t: State<S, D>)
    requires s.cursor < |s.entries| && env.ncz.Some?
    ensures t.cursor == s.cursor && t.entries == s.entries
  {
    var r := env.ncz.value.end(s.nczUser);
    var t := s.(nczUser := r.user);
    if !r.ok then Fail(env, t, BadNcz)
    else
      var rebuilt := env.ncz.value.size(t.nczUser);
      t.(nczActive := false,
         metaSize := if IsMeta(s.entries[s.cursor].kind) && rebuilt > 0 then rebuilt else t.metaSize)
  }

  function Commit<S, D>(env: Env<S, D>, s: State<S, D>): (t: State<S, D>)
    ensures t.cursor == s.cursor && t.entries == s.entries
  {
    var r := env.ops.contentCommit(s.user);
    var t := s.(user := r.user);
    if r.ok then t.(contentOpen := false) else Fail(env, t, BackendError)
  }

  /** The end of an entry, as the 64-bit sum gives it. */
  function EntryEnd(e: Entry): u64 {
    Add64(e.absOffset, e.size)
  }

  function StepStreaming<S, D>(env: Env<S, D>, s: State<S, D>, data: bytes): (State<S, D>, nat)
    requires s.stage.Streaming? && (s.nczActive ==> env.ncz.Some?)
  {
    if s.cursor >= |s.entries| then
      (s.(streamPos := Advance(s.streamPos, |data|), stage := Complete), |data|)
    else
      var e := s.entries[s.cursor];
      if s.streamPos < e.absOffset then
        var skip := Min(|data|, e.absOffset - s.streamPos);
        (s.(streamPos := Advance(s.streamPos, skip)), skip)
      else
        var take := Min(|data|, Sub64(EntryEnd(e), s.streamPos));
        (StepEntry(env, s, data[..take]), take)
  }

  /** One visit to the current entry with the bytes that fall inside it. */
  function StepEntry<S, D>(env: Env<S, D>, s: State<S, D>, chunk: bytes): (t: State<S, D>)
    requires s.stage.Streaming? && s.cursor < |s.entries| && (s.nczActive ==> env.ncz.Some?)
  {
    var t := OpenEntry(env, s);
    if t.stage.Failed? then t
    else
      var u := Consume(env, t, chunk);
      if u.stage.Failed? || u.streamPos < EntryEnd(s.entries[s.cursor]) then u else CloseEntry(env, u)
  }

  function Consume<S, D>(env: Env<S, D>, s: State<S, D>, chunk: bytes): (t: State<S, D>)
    requires s.cursor < |s.entries|
    requires IsCompressed(s.entries[s.cursor].kind) ==> env.ncz.Some?
    ensures t.cursor == s.cursor && t.entries == s.entries && t.nczActive == s.nczActive
  {
    if chunk == [] then s
    else
      var t := Route(env, s, chunk);
      if t.stage.Failed? then t else t.(streamPos := Advance(t.streamPos, |chunk|))
  }

  // ----- one feed -----

  /** What every reachable installer satisfies. */
  ghost predicate Valid<S, D>(env: Env<S, D>, s: State<S, D>) {
    && (s.nczActive ==> env.ncz.Some?)
    && (s.stage.Magic? || s.stage.Header? ==> s.entries == [] && !s.hasMeta)
    && (s.stage.Magic? ==> |s.header| < Pfs.HEADER_SIZE)
    && (s.stage.Header? ==> |s.header| <= s.headerSize <= MAX_HEADER && (|s.header| < s.headerSize || s.headerSize == Pfs.HEADER_SIZE))
    && (s.stage.Streaming? ==> s.cursor <= |s.entries|)
  }

  /** One round of the feed loop: the new state and the bytes it used. */
  function Iter<S, D>(env: Env<S, D>, s: State<S, D>, data: bytes): (r: (State<S, D>, nat))
    requires Valid(env, s) && !s.stage.Failed?
    ensures r.1 <= |data|
  {
    match s.stage
    case Magic => StepMagic(env, s, data)
    case Header => StepHeader(env, s, data)
    case Streaming => StepStreaming(env, s, data)
    case Complete => (s.(streamPos := Advance(s.streamPos, |data|)), |data|)
  }

  /** A round that uses no byte moves to a later stage or to a later entry. */
  ghost function StageRank(stage: Stage): nat {
    match stage
    case Magic => 4
    case Header => 3
    case Streaming => 2
    case Complete => 1
    case Failed(_) => 0
  }

  ghost function EntriesLeft<S, D>(s: State<S, D>): nat {
    if s.cursor <= |s.entries| then |s.entries| - s.cursor else 0
  }

  ghost predicate Progress<S, D>(s: State<S, D>, t: State<S, D>, used: nat) {
    || used > 0
    || StageRank(t.stage) < StageRank(s.stage)
    || (t.stage == s.stage && EntriesLeft(t) < EntriesLeft(s))
  }

  lemma IterProgress<S, D>(env: Env<S, D>, s: State<S, D>, data: bytes)
    requires Valid(env, s) && !s.stage.Failed? && data != []
    ensures var (t, used) := Iter(env, s, data); Valid(env, t) && Progress(s, t, used)
  {
    hide StepMagic, StepHeader, StepStreaming, Progress;
    match s.stage
    case Magic => MagicProgress(env, s, data);
    case Header => HeaderProgress(env, s, data);
    case Streaming => StreamingProgress(env, s, data);
    case Complete => assert Progress(s, Iter(env, s, data).0, |data|) by { CompleteProgress(s, Iter(env, s, data).0, |data|); }
  }

  lemma CompleteProgress<S, D>(s: State<S, D>, t: State<S, D>, used: nat)
    requires used > 0
    ensures Progress(s, t, used)
  {
  }

  lemma MagicProgress<S, D>(env: Env<S, D>, s: State<S, D>, data: bytes)
    requires Valid(env, s) && s.stage.Magic? && data != []
    ensures var (t, used) := StepMagic(env, s, data); Valid(env, t) && Progress(s, t, used)
  {
    hide Pfs.PeekHeaderSize, Fail;
    var used := Min(|data|, Pfs.HEADER_SIZE - |s.header|);
    var t := Absorb(s, data[..used]);
    FailShape(env, t, BadContainer);
    PeekIsPositive(t.header);
    match Pfs.PeekHeaderSize(t.header)
    case Err(_) =>
    case Ok((_, size)) => FailShape(env, t.(headerSize := size), HeaderTooLarge);
  }

  lemma PeekIsPositive(h: bytes)
    ensures Pfs.PeekHeaderSize(h).Ok? ==> Pfs.PeekHeaderSize(h).value.1 >= Pfs.HEADER_SIZE
  {
  }

  lemma FailShape<S, D>(env: Env<S, D>, s: State<S, D>, v: Verdict)
    ensures var t := Fail(env, s, v);
            t == s.(stage := Failed(v), contentOpen := false, user := t.user)
  {
  }

  lemma HeaderProgress<S, D>(env: Env<S, D>, s: State<S, D>, data: bytes)
    requires Valid(env, s) && s.stage.Header? && data != []
    ensures var (t, used) := StepHeader(env, s, data); Valid(env, t) && Progress(s, t, used)
  {
    hide Pfs.Parse, Fail, BuildEntries, Pfs.ValidContext;
    var used := Min(|data|, s.headerSize - |s.header|);
    var t := Absorb(s, data[..used]);
    FailShape(env, t, BadContainer);
    match Pfs.Parse(t.header)
    case Err(_) =>
    case Ok(ctx) =>
      BuildShape(t, ctx);
      var (b, v) := BuildEntries(t, ctx);
      if v.Some? {
        FailShape(env, b, v.value);
      }
  }

  lemma {:induction false} CollectBound(ctx: Pfs.Context, i: nat, found: seq<Entry>)
    requires Pfs.ValidContext(ctx) && i <= ctx.count && |found| <= MAX_CONTENTS
    ensures |Collect(ctx, i, found).0| <= MAX_CONTENTS
    decreases ctx.count - i
  {
    hide Pfs.ValidContext, EntryFor, Pfs.GetEntry;
    if i < ctx.count {
      var e := EntryFor(ctx, i, Pfs.GetEntry(ctx, i).value);
      if e.kind.Ignore? {
        CollectBound(ctx, i + 1, found);
      } else if |found| < MAX_CONTENTS {
        CollectBound(ctx, i + 1, found + [e]);
      }
    }
  }

  /** Building the table touches the entries and the three fields about the meta content. */
  lemma BuildShape<S, D>(s: State<S, D>, ctx: Pfs.Context)
    requires Pfs.ValidContext(ctx)
    ensures var t := BuildEntries(s, ctx).0;
            && t == s.(entries := t.entries, metaId := t.metaId, metaSize := t.metaSize, hasMeta := t.hasMeta)
            && |t.entries| <= MAX_CONTENTS
  {
    hide Collect, Pfs.ValidContext, LastMeta, SortByOffset;
    CollectBound(ctx, 0, []);
  }

  lemma StreamingProgress<S, D>(env: Env<S, D>, s: State<S, D>, data: bytes)
    requires Valid(env, s) && s.stage.Streaming? && data != []
    ensures var (t, used) := StepStreaming(env, s, data); Valid(env, t) && Progress(s, t, used)
  {
    hide StepEntry, EntryEnd;
    if s.cursor < |s.entries| && s.streamPos >= s.entries[s.cursor].absOffset {
      EntryShape(env, s, data[..Min(|data|, Sub64(EntryEnd(s.entries[s.cursor]), s.streamPos))]);
    }
  }

  /** A visit to an entry leaves the layout alone, and one that has no byte to deliver finishes the entry. */
  lemma EntryShape<S, D>(env: Env<S, D>, s: State<S, D>, chunk: bytes)
    requires s.stage.Streaming? && s.cursor < |s.entries| && (s.nczActive ==> env.ncz.Some?)
    ensures var t := StepEntry(env, s, chunk);
            && t.entries == s.entries && (t.nczActive ==> env.ncz.Some?)
            && (t.stage.Failed? || (t.stage.Streaming? && s.cursor <= t.cursor <= s.cursor + 1 <= |s.entries|) || t.stage.Complete?)
            && (chunk == [] && s.streamPos >= EntryEnd(s.entries[s.cursor]) ==> !t.stage.Streaming? || t.cursor == s.cursor + 1)
  {
    hide OpenEntry, Consume, CloseEntry, EntryEnd;
    OpenShape(env, s);
    var t := OpenEntry(env, s);
    if !t.stage.Failed? {
      ConsumeShape(env, t, chunk);
      var u := Consume(env, t, chunk);
      if !u.stage.Failed? && u.streamPos >= EntryEnd(s.entries[s.cursor]) {
        CloseShape(env, u);
      }
    }
  }

  lemma OpenShape<S, D>(env: Env<S, D>, s: State<S, D>)
    requires s.cursor < |s.entries| && (s.nczActive ==> env.ncz.Some?)
    ensures var t := OpenEntry(env, s);
            && t == s.(stage := t.stage, contentOpen := t.contentOpen, nczActive := t.nczActive, user := t.user, nczUser := t.nczUser)
  {
  }

  lemma ConsumeShape<S, D>(env: Env<S, D>, s: State<S, D>, chunk: bytes)
    requires s.cursor < |s.entries|
    requires IsCompressed(s.entries[s.cursor].kind) ==> env.ncz.Some?
    ensures var t := Consume(env, s, chunk);
            && t.header == s.header && t.headerSize == s.headerSize && t.meta == s.meta && t.metaId == s.metaId && t.metaSize == s.metaSize
            && (t.stage == s.stage || t.stage.Failed?)
            && (chunk == [] ==> t == s)
            && (!t.stage.Failed? ==> t.streamPos == Advance(s.streamPos, |chunk|))
  {
    hide Route;
    if chunk != [] {
      RouteShape(env, s, chunk);
    }
  }

  lemma RouteShape<S, D>(env: Env<S, D>, s: State<S, D>, data: bytes)
    requires s.cursor < |s.entries|
    requires IsCompressed(s.entries[s.cursor].kind) ==> env.ncz.Some?
    ensures var t := Route(env, s, data);
            && t == s.(stage := t.stage, contentOpen := t.contentOpen, bytesWritten := t.bytesWritten, tik := t.tik, cert := t.cert,
                       user := t.user, nczUser := t.nczUser)
            && (t.stage == s.stage || t.stage.Failed?)
  {
    hide FeedDecoder, WriteContent, Fail, Advance;
    var (t, ok) := WriteContent(env, s, data);
    WriteShape(env, s, data);
    FailShape(env, t, BackendError);
    FailShape(env, s, BufferTooSmall);
    if IsCompressed(s.entries[s.cursor].kind) {
      DecodeShape(env, s, data);
    }
  }

  lemma WriteShape<S, D>(env: Env<S, D>, s: State<S, D>, data: bytes)
    ensures var t := WriteContent(env, s, data).0; t == s.(user := t.user, bytesWritten := t.bytesWritten)
  {
    hide Advance;
  }

  lemma DecodeShape<S, D>(env: Env<S, D>, s: State<S, D>, data: bytes)
    requires s.cursor < |s.entries| && env.ncz.Some?
    ensures var t := FeedDecoder(env, s, data);
            && t == s.(stage := t.stage, contentOpen := t.contentOpen, bytesWritten := t.bytesWritten, user := t.user, nczUser := t.nczUser)
            && (t.stage == s.stage || t.stage.Failed?)
  {
    hide RunSink;
    RunSinkShape(env, s, env.ncz.value.feed(s.nczUser, data).emissions);
  }

  lemma {:induction false} RunSinkShape<S, D>(env: Env<S, D>, s: State<S, D>, ems: seq<Emission>)
    requires s.cursor < |s.entries|
    ensures var t := RunSink(env, s, ems).0;
            t == s.(contentOpen := t.contentOpen, bytesWritten := t.bytesWritten, user := t.user)
    decreases |ems|
  {
    hide Advance;
    if ems != [] {
      var (t, ok) := Sink(env, s, ems[0]);
      if ok {
        RunSinkShape(env, t, ems[1..]);
      }
    }
  }

  lemma CloseShape<S, D>(env: Env<S, D>, s: State<S, D>)
    requires s.cursor < |s.entries| && (s.nczActive ==> env.ncz.Some?) && s.stage.Streaming?
    ensures var t := CloseEntry(env, s);
            && t == s.(stage := t.stage, contentOpen := t.contentOpen, nczActive := t.nczActive, metaSize := t.metaSize,
                       cursor := t.cursor, user := t.user, nczUser := t.nczUser)
            && (t.nczActive ==> s.nczActive)
            && (t.stage.Failed? || (t.cursor == s.cursor + 1 && !t.contentOpen && !t.nczActive
                                    && t.stage == if t.cursor >= |t.entries| then Complete else Streaming))
  {
  }

  /** A whole feed: rounds until the chunk is used up or the install has failed. */
  function Feed<S, D>(env: Env<S, D>, s: State<S, D>, data: bytes): (t: State<S, D>)
    requires Valid(env, s)
    ensures Valid(env, t)
    decreases |data|, StageRank(s.stage), EntriesLeft(s)
  {
    if data == [] || s.stage.Failed? then s
    else
      IterProgress(env, s, data);
      var (t, used) := Iter(env, s, data);
      Feed(env, t, data[used..])
  }

  /** What the call returns. */
  function FeedVerdict<S, D>(s: State<S, D>, data: bytes, t: State<S, D>): Verdict {
    if s.stage.Failed? then Aborted
    else if data == [] then InProgress
    else
      match t.stage
      case Failed(v) => v
      case Complete => Success
      case _ => InProgress
  }

  // ----- finishing -----

  /** Every content the manifest lists must have been in the container. */
  predicate Present(es: seq<Entry>, id: bytes) {
    exists i :: 0 <= i < |es| && IsContent(es[i].kind) && es[i].contentId == id
  }

  function ContentOf(info: Cnmt.ContentInfo): Content {
    Content(info.contentId, info.size, info.attributes, info.contentType, info.idOffset)
  }

  /** Appends the manifest's contents from `i` on; delta fragments are skipped, an absent one is an error. */
  function AddContents(m: Cnmt.Manifest, es: seq<Entry>, i: nat, listed: seq<Content>): (seq<Content>, Option<Verdict>)
    requires Cnmt.ValidManifest(m) && i <= m.contentCount
    decreases m.contentCount - i
  {
    if i == m.contentCount then (listed, None)
    else
      var info := Cnmt.GetContentInfo(m, i).value;
      if info.contentType == Cnmt.TYPE_DELTA_FRAGMENT then AddContents(m, es, i + 1, listed)
      else if !Present(es, info.contentId) then (listed, Some(MissingContent))
      else AddContents(m, es, i + 1, listed + [ContentOf(info)])
  }

  /** The record to register: the meta content first, because the manifest never describes itself. */
  function BuildMeta<S, D>(env: Env<S, D>, s: State<S, D>, m: Cnmt.Manifest): (State<S, D>, Option<Verdict>)
    requires Cnmt.ValidManifest(m)
  {
    var named := s.meta.(titleId := m.titleId, version := m.version, metaType := m.metaType, storageId := env.target);
    if m.extHeaderSize > MAX_EXT_HEADER then (s.(meta := named), Some(BadCnmt))
    else
      var extended := named.(extHeader := Cnmt.ExtHeader(m));
      if m.contentCount + 1 > MAX_CONTENTS then (s.(meta := extended), Some(TooManyContents))
      else
        var (listed, v) := AddContents(m, s.entries, 0, [Content(s.metaId, s.metaSize, 0, Cnmt.TYPE_META, 0)]);
        (s.(meta := extended.(contents := listed)), v)
  }

  /** The ticket goes to the system before anything is registered. */
  function ImportTicket<S, D>(env: Env<S, D>, s: State<S, D>): State<S, D> {
    if s.tik == [] then s
    else if s.cert == [] then Fail(env, s, BufferTooSmall)
    else
      var r := env.ops.importTicket(s.user, s.tik, s.cert);
      var t := s.(user := r.user);
      if !r.ok then Fail(env, t, BackendError)
      else
        match env.rightsIdOf(s.tik)
        case None => t
        case Some(rights) => t.(meta := t.meta.(hasTicket := true, rightsId := rights))
  }

  function Finish<S, D>(env: Env<S, D>, s: State<S, D>): State<S, D> {
    if s.stage.Failed? then s
    else if !s.stage.Complete? then Fail(env, s, NotFinished)
    else
      var t := ImportTicket(env, s);
      if t.stage.Failed? then t else Register(env, t)
  }

  /** Reads the manifest back, builds the record, registers it and pushes the application record last. */
  function Register<S, D>(env: Env<S, D>, s: State<S, D>): State<S, D> {
    var r := env.ops.readCnmt(s.user, s.metaId);
    var t := s.(user := r.user);
    if !r.ok then Fail(env, t, BackendError)
    else
      match Cnmt.Parse(r.data)
      case Err(_) => Fail(env, t, BadCnmt)
      case Ok(m) =>
        var (b, v) := BuildMeta(env, t, m);
        if v.Some? then Fail(env, b, v.value) else Publish(env, b)
  }

  function Publish<S, D>(env: Env<S, D>, s: State<S, D>): State<S, D> {
    var r := env.ops.registerMeta(s.user, s.meta);
    var t := s.(user := r.user);
    if !r.ok then Fail(env, t, BackendError)
    else
      var p := env.ops.pushRecord(t.user, t.meta);
      var u := t.(user := p.user);
      if !p.ok then Fail(env, u, BackendError) else u
  }

  function FinishVerdict<S, D>(s: State<S, D>, t: State<S, D>): Verdict {
    if s.stage.Failed? then Aborted
    else if t.stage.Failed? then t.stage.verdict
    else Success
  }

  function Abort<S, D>(env: Env<S, D>, s: State<S, D>): State<S, D> {
    if s.stage.Failed? then s else Fail(env, s, Aborted)
  }
}
