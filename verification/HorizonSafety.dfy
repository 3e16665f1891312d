/**
 * An install that fails leaves the console as it was: the content storage, the persisted meta database and
 * the application records are what they were before the install began.
 */
module HorizonSafety {
  import opened Bytes
  import opened EntryNames
  import opened InstallSpec
  import opened Services
  import opened Horizon
  import opened ChunkIndependence
  import opened InstallTrace
  import Pfs = PartitionFs
  import Cnmt

  // ----- what must hold of the console -----

  /** The calls that clean up work; any other call may fail. */
  ghost predicate CleanUpWorks(out: Outcomes) {
    && (forall n :: out.works(DeleteContent(true), n))
    && (forall n :: out.works(RemoveMeta, n))
    && (forall n :: out.works(CommitMeta(true), n))
    && (forall n :: out.works(DeleteRecord(true), n))
    && (forall n :: out.works(PushRecord(true), n))
  }

  ghost predicate Restored(before: Console, c: Console) {
    c.contents == before.contents && c.persisted == before.persisted && c.records == before.records
  }

  function IdSet(ids: seq<bytes>): set<bytes> {
    set id | id in ids
  }

  /** Rolling back now would restore the console: what was committed is new and remembered, nothing else has changed. */
  ghost predicate Undoable(before: Console, h: Horizon) {
    && h.console.out == before.out
    && h.console.contents - IdSet(h.registered) == before.contents
    && (h.placeholderOpen ==> h.contentId !in before.contents)
    && h.console.persisted == before.persisted == h.console.staged
    && h.console.records == before.records
    && !h.metaCommitted && !h.recordPushed
  }

  // ----- the streaming hooks -----

  /** The stores other than the placeholders. */
  ghost predicate SameStores(c: Console, d: Console) {
    && c.contents == d.contents && c.staged == d.staged && c.persisted == d.persisted
    && c.records == d.records && c.out == d.out
  }

  lemma PlaceholdersApart(c: Console, ph: nat, size: nat)
    ensures SameStores(c, DropPlaceholder(c, ph).user) && SameStores(c, MakePlaceholder(c, ph, size).user) && SameStores(c, Called(c))
  {
  }

  lemma BeginStores(h: Horizon, id: bytes, size: u64)
    ensures var r := ContentBegin(h, id, size).user;
            && SameStores(h.console, r.console)
            && r.registered == h.registered && r.metaCommitted == h.metaCommitted && r.recordPushed == h.recordPushed
            && r.contentId == id
  {
    hide SameStores, DropPlaceholder, MakePlaceholder;
    SameStoresTrans();
    var ph := h.console.out.placeholder(h.console.calls);
    PlaceholdersApart(h.console, ph, size);
    PlaceholdersApart(Called(h.console), ph, size);
    PlaceholdersApart(DropPlaceholder(Called(h.console), ph).user, ph, size);
  }

  lemma SameStoresTrans()
    ensures forall c, d, e :: SameStores(c, d) && SameStores(d, e) ==> SameStores(c, e)
  {
  }

  lemma BeginKeeps(before: Console, h: Horizon, id: bytes, size: u64)
    requires Undoable(before, h) && id !in before.contents
    ensures var r := ContentBegin(h, id, size); Undoable(before, r.user) && r.user.registered == h.registered
  {
    hide ContentBegin, IdSet;
    BeginStores(h, id, size);
  }

  lemma WriteKeeps(before: Console, h: Horizon, data: bytes)
    requires Undoable(before, h)
    ensures var r := ContentWrite(h, data); Undoable(before, r.user) && r.user.registered == h.registered
  {
    hide Advance, Overwrite;
  }

  lemma DiscardKeeps(before: Console, h: Horizon)
    requires Undoable(before, h)
    ensures var t := ContentDiscard(h); Undoable(before, t) && t.registered == h.registered
  {
  }

  /** Taking a fresh id out, or putting it in and remembering it, leaves the rest. */
  lemma FreshId(contents: map<bytes, bytes>, registered: seq<bytes>, before: map<bytes, bytes>, id: bytes, data: bytes)
    requires contents - IdSet(registered) == before && id !in before
    ensures (contents - {id}) - IdSet(registered) == before
    ensures contents[id := data] - IdSet(registered + [id]) == before
  {
    assert IdSet(registered + [id]) == IdSet(registered) + {id};
  }

  lemma EraseStores(c: Console, id: bytes, undo: bool)
    ensures var d := EraseContent(c, id, undo).user;
            && d.staged == c.staged && d.persisted == c.persisted && d.records == c.records && d.out == c.out
            && (d.contents == c.contents || d.contents == c.contents - {id})
  {
  }

  lemma ClearedStores(h: Horizon)
    ensures var c, d := h.console, Cleared(h);
            && d.staged == c.staged && d.persisted == c.persisted && d.records == c.records && d.out == c.out
            && (d.contents == c.contents || d.contents == c.contents - {h.contentId})
  {
    hide EraseContent;
    EraseStores(Called(h.console), h.contentId, false);
  }

  lemma StoreStores(c: Console, id: bytes, ph: nat)
    ensures var r := StoreContent(c, id, ph);
            && r.user.staged == c.staged && r.user.persisted == c.persisted && r.user.records == c.records && r.user.out == c.out
            && (!r.ok ==> r.user.contents == c.contents)
            && (r.ok ==> ph in c.placeholders && r.user.contents == c.contents[id := c.placeholders[ph]])
  {
  }

  /** The content is stored, remembered, and was not there before. */
  lemma CommitKeeps(before: Console, h: Horizon)
    requires Undoable(before, h) && |h.registered| < MAX_REGISTERED
    ensures var r := ContentCommit(h);
            && Undoable(before, r.user)
            && |r.user.registered| <= |h.registered| + (if r.ok then 1 else 0)
  {
    hide IdSet, Cleared, StoreContent;
    if h.placeholderOpen {
      var c := Cleared(h);
      ClearedStores(h);
      FreshId(h.console.contents, h.registered, before.contents, h.contentId, []);
      assert c.contents - IdSet(h.registered) == before.contents;
      StoreStores(c, h.contentId, h.placeholder);
      if h.placeholder in c.placeholders {
        FreshId(c.contents, h.registered, before.contents, h.contentId, c.placeholders[h.placeholder]);
      }
    }
  }

  // ----- rolling back -----

  lemma {:induction false} DeletesAll(c: Console, ids: seq<bytes>)
    requires forall n :: c.out.works(DeleteContent(true), n)
    ensures var d := DeleteAll(c, ids);
            d.contents == c.contents - IdSet(ids) && d.persisted == c.persisted && d.records == c.records && d.out == c.out
  {
    if ids == [] {
      assert IdSet(ids) == {};
    } else {
      var n := |ids| - 1;
      DeletesAll(c, ids[..n]);
      assert ids == ids[..n] + [ids[n]];
      assert IdSet(ids) == IdSet(ids[..n]) + {ids[n]};
    }
  }

  lemma RollbackRestores(before: Console, h: Horizon, meta: Meta)
    requires Undoable(before, h) && CleanUpWorks(before.out)
    ensures Restored(before, Rollback(h, meta).console)
  {
    hide IdSet, DeleteAll;
    DiscardKeeps(before, h);
    var t := ContentDiscard(h);
    DeletesAll(t.console, t.registered);
  }

  // ----- the installer -----

  /** No content of the container is on the console yet. */
  ghost predicate AllFresh(before: Console, es: seq<Entry>) {
    forall i :: 0 <= i < |es| && IsContent(es[i].kind) ==> es[i].contentId !in before.contents
  }

  ghost predicate Clean<D>(before: Console, s: State<Horizon, D>) {
    Undoable(before, s.user) && |s.user.registered| <= s.cursor
  }

  ghost predicate Safe<D>(before: Console, s: State<Horizon, D>) {
    if s.stage.Failed? then Restored(before, s.user.console) else Clean(before, s)
  }

  lemma FailRestores<D>(env: Env<Horizon, D>, before: Console, s: State<Horizon, D>, v: Verdict)
    requires env.ops == HorizonOps() && Undoable(before, s.user) && CleanUpWorks(before.out)
    ensures Fail(env, s, v).stage == Failed(v) && Restored(before, Fail(env, s, v).user.console)
  {
    hide Undoable, Restored, Rollback, ContentDiscard, CleanUpWorks;
    DiscardKeeps(before, s.user);
    RollbackRestores(before, s.user, s.meta);
    RollbackRestores(before, ContentDiscard(s.user), s.meta);
  }

  lemma OpenSafe<D>(env: Env<Horizon, D>, before: Console, s: State<Horizon, D>)
    requires env.ops == HorizonOps() && CleanUpWorks(before.out)
    requires Clean(before, s) && !s.stage.Failed? && s.cursor < |s.entries| && (s.nczActive ==> env.ncz.Some?) && AllFresh(before, s.entries)
    ensures Safe(before, OpenEntry(env, s))
  {
    hide Undoable, Restored, Fail, CleanUpWorks, ContentBegin;
    var e := s.entries[s.cursor];
    if IsCompressed(e.kind) {
      if !s.nczActive {
        FailRestores(env, before, s, NoDecompressor);
        if env.ncz.Some? {
          FailRestores(env, before, s.(nczUser := env.ncz.value.begin(s.nczUser).user), BadNcz);
        }
      }
    } else if !s.contentOpen && IsContent(e.kind) {
      BeginKeeps(before, s.user, e.contentId, e.size);
      var r := ContentBegin(s.user, e.contentId, e.size);
      FailRestores(env, before, s.(user := r.user), BackendError);
    }
  }

  lemma SinkSafe<D>(env: Env<Horizon, D>, before: Console, s: State<Horizon, D>, em: Emission)
    requires env.ops == HorizonOps() && s.cursor < |s.entries| && IsContent(s.entries[s.cursor].kind) && AllFresh(before, s.entries)
    requires Clean(before, s)
    ensures Clean(before, Sink(env, s, em).0)
  {
    hide Undoable, ContentBegin, ContentWrite, Advance;
    if !s.contentOpen && em.size != 0 {
      BeginKeeps(before, s.user, s.entries[s.cursor].contentId, em.size);
    }
    var (t, open) := OpenForSink(env, s, em.size);
    if open {
      WriteKeeps(before, t.user, em.data);
    }
  }

  lemma {:induction false} RunSinkSafe<D>(env: Env<Horizon, D>, before: Console, s: State<Horizon, D>, ems: seq<Emission>)
    requires env.ops == HorizonOps() && s.cursor < |s.entries| && IsContent(s.entries[s.cursor].kind) && AllFresh(before, s.entries)
    requires Clean(before, s)
    ensures Clean(before, RunSink(env, s, ems).0)
    decreases |ems|
  {
    hide Clean, AllFresh, Sink;
    if ems != [] {
      SinkSafe(env, before, s, ems[0]);
      SinkShape(env, s, ems[0]);
      var (t, ok) := Sink(env, s, ems[0]);
      if ok {
        RunSinkSafe(env, before, t, ems[1..]);
      }
    }
  }

  lemma FeedDecoderSafe<D>(env: Env<Horizon, D>, before: Console, s: State<Horizon, D>, data: bytes)
    requires env.ops == HorizonOps() && CleanUpWorks(before.out) && env.ncz.Some?
    requires s.cursor < |s.entries| && IsContent(s.entries[s.cursor].kind) && AllFresh(before, s.entries)
    requires Clean(before, s) && !s.stage.Failed?
    ensures Safe(before, FeedDecoder(env, s, data))
  {
    hide Undoable, Restored, Fail, CleanUpWorks, RunSink, AllFresh;
    var r := env.ncz.value.feed(s.nczUser, data);
    RunSinkSafe(env, before, s, r.emissions);
    var (t, taken) := RunSink(env, s, r.emissions);
    FailRestores(env, before, t.(nczUser := r.user), BadNcz);
  }

  lemma RouteSafe<D>(env: Env<Horizon, D>, before: Console, s: State<Horizon, D>, data: bytes)
    requires env.ops == HorizonOps() && CleanUpWorks(before.out) && AllFresh(before, s.entries)
    requires s.cursor < |s.entries| && (IsCompressed(s.entries[s.cursor].kind) ==> env.ncz.Some?)
    requires Clean(before, s) && !s.stage.Failed?
    ensures Safe(before, Route(env, s, data))
  {
    hide Undoable, Restored, Fail, CleanUpWorks, FeedDecoder, AllFresh, ContentWrite, Advance;
    var kind := s.entries[s.cursor].kind;
    if kind.Nca? || kind.MetaNca? {
      WriteKeeps(before, s.user, data);
      FailRestores(env, before, WriteContent(env, s, data).0, BackendError);
    } else if IsCompressed(kind) {
      FeedDecoderSafe(env, before, s, data);
    } else {
      FailRestores(env, before, s, BufferTooSmall);
    }
  }

  lemma ConsumeSafe<D>(env: Env<Horizon, D>, before: Console, s: State<Horizon, D>, chunk: bytes)
    requires env.ops == HorizonOps() && CleanUpWorks(before.out) && AllFresh(before, s.entries)
    requires s.cursor < |s.entries| && (IsCompressed(s.entries[s.cursor].kind) ==> env.ncz.Some?)
    requires Clean(before, s) && !s.stage.Failed?
    ensures Safe(before, Consume(env, s, chunk))
  {
    hide Undoable, Restored, CleanUpWorks, Route, AllFresh, Advance;
    if chunk != [] {
      RouteSafe(env, before, s, chunk);
    }
  }

  lemma CloseSafe<D>(env: Env<Horizon, D>, before: Console, s: State<Horizon, D>)
    requires env.ops == HorizonOps() && CleanUpWorks(before.out)
    requires s.cursor < |s.entries| <= MAX_CONTENTS && (s.nczActive ==> env.ncz.Some?)
    requires Clean(before, s) && !s.stage.Failed?
    ensures Safe(before, CloseEntry(env, s))
  {
    hide Undoable, Restored, Fail, CleanUpWorks, ContentCommit;
    if s.nczActive {
      FailRestores(env, before, s.(nczUser := env.ncz.value.end(s.nczUser).user), BadNcz);
    }
    var t := if s.nczActive then EndDecoder(env, s) else s;
    if !t.stage.Failed? && t.contentOpen {
      CommitKeeps(before, t.user);
      FailRestores(env, before, t.(user := ContentCommit(t.user).user), BackendError);
    }
  }

  lemma EntrySafe<D>(env: Env<Horizon, D>, before: Console, s: State<Horizon, D>, chunk: bytes)
    requires env.ops == HorizonOps() && CleanUpWorks(before.out) && AllFresh(before, s.entries)
    requires s.stage.Streaming? && s.cursor < |s.entries| <= MAX_CONTENTS && (s.nczActive ==> env.ncz.Some?)
    requires Clean(before, s)
    ensures Safe(before, StepEntry(env, s, chunk))
  {
    hide Clean, Restored, CleanUpWorks, AllFresh, OpenEntry, Consume, CloseEntry;
    OpenSafe(env, before, s);
    OpenShape(env, s);
    var t := OpenEntry(env, s);
    if !t.stage.Failed? {
      ConsumeSafe(env, before, t, chunk);
      ConsumeShape(env, t, chunk);
      var u := Consume(env, t, chunk);
      if !u.stage.Failed? {
        CloseSafe(env, before, u);
      }
    }
  }

  lemma MovedStaysClean<D>(before: Console, s: State<Horizon, D>, t: State<Horizon, D>)
    requires Clean(before, s) && t.user == s.user && t.cursor == s.cursor
    ensures Clean(before, t)
  {
  }

  lemma StreamingSafe<D>(env: Env<Horizon, D>, before: Console, s: State<Horizon, D>, data: bytes)
    requires env.ops == HorizonOps() && CleanUpWorks(before.out) && AllFresh(before, s.entries)
    requires s.stage.Streaming? && |s.entries| <= MAX_CONTENTS && (s.nczActive ==> env.ncz.Some?)
    requires Clean(before, s)
    ensures Safe(before, StepStreaming(env, s, data).0)
  {
    hide Clean, Restored, CleanUpWorks, AllFresh, StepEntry, EntryEnd, Advance, Sub64;
    var t := StepStreaming(env, s, data).0;
    if s.cursor < |s.entries| && s.streamPos >= s.entries[s.cursor].absOffset {
      EntrySafe(env, before, s, data[..Min(|data|, Sub64(EntryEnd(s.entries[s.cursor]), s.streamPos))]);
    } else {
      MovedStaysClean(before, s, t);
    }
  }

  /** What every reachable install satisfies: as long as the container's contents are new, it can be undone, or has been. */
  ghost predicate Sound<D>(before: Console, s: State<Horizon, D>) {
    && |s.entries| <= MAX_CONTENTS
    && (s.stage.Magic? || s.stage.Header? ==> s.entries == [] && s.cursor == 0)
    && (AllFresh(before, s.entries) ==> Safe(before, s))
  }

  lemma NothingIsFresh(before: Console)
    ensures AllFresh(before, [])
  {
  }

  lemma MagicSound<D>(env: Env<Horizon, D>, before: Console, s: State<Horizon, D>, data: bytes)
    requires env.ops == HorizonOps() && CleanUpWorks(before.out) && Sound(before, s) && Valid(env, s) && s.stage.Magic?
    ensures Sound(before, StepMagic(env, s, data).0)
  {
    hide Undoable, Restored, CleanUpWorks, AllFresh, Fail, Pfs.PeekHeaderSize, Advance;
    NothingIsFresh(before);
    var used := Min(|data|, Pfs.HEADER_SIZE - |s.header|);
    var t := Absorb(s, data[..used]);
    FailRestores(env, before, t, BadContainer);
    FailShape(env, t, BadContainer);
    match Pfs.PeekHeaderSize(t.header)
    case Err(_) =>
    case Ok((_, size)) =>
      FailRestores(env, before, t.(headerSize := size), HeaderTooLarge);
      FailShape(env, t.(headerSize := size), HeaderTooLarge);
  }

  lemma HeaderSound<D>(env: Env<Horizon, D>, before: Console, s: State<Horizon, D>, data: bytes)
    requires env.ops == HorizonOps() && CleanUpWorks(before.out) && Sound(before, s) && Valid(env, s) && s.stage.Header?
    ensures Sound(before, StepHeader(env, s, data).0)
  {
    hide Undoable, Restored, CleanUpWorks, AllFresh, Fail, Pfs.Parse, BuildEntries, Pfs.ValidContext, Advance;
    NothingIsFresh(before);
    var used := Min(|data|, s.headerSize - |s.header|);
    var t := Absorb(s, data[..used]);
    FailRestores(env, before, t, BadContainer);
    FailShape(env, t, BadContainer);
    match Pfs.Parse(t.header)
    case Err(_) =>
    case Ok(ctx) =>
      BuildShape(t, ctx);
      var (b, v) := BuildEntries(t, ctx);
      if v.Some? {
        FailRestores(env, before, b, v.value);
        FailShape(env, b, v.value);
      }
  }

  lemma StreamingSound<D>(env: Env<Horizon, D>, before: Console, s: State<Horizon, D>, data: bytes)
    requires env.ops == HorizonOps() && CleanUpWorks(before.out) && Sound(before, s) && Valid(env, s) && s.stage.Streaming?
    ensures Sound(before, StepStreaming(env, s, data).0)
  {
    hide Safe, CleanUpWorks, AllFresh, StepEntry, EntryEnd, Advance, Sub64;
    if s.cursor < |s.entries| && s.streamPos >= s.entries[s.cursor].absOffset {
      EntryShape(env, s, data[..Min(|data|, Sub64(EntryEnd(s.entries[s.cursor]), s.streamPos))]);
    }
    if AllFresh(before, s.entries) {
      StreamingIsClean(before, s);
      StreamingSafe(env, before, s, data);
    }
  }

  lemma StreamingIsClean<D>(before: Console, s: State<Horizon, D>)
    requires Safe(before, s) && !s.stage.Failed?
    ensures Clean(before, s)
  {
  }

  lemma CompleteSound<D>(before: Console, s: State<Horizon, D>, pos: u64)
    requires Sound(before, s)
    ensures Sound(before, s.(streamPos := pos))
  {
    hide Undoable, Restored;
  }

  lemma RoundSound<D>(env: Env<Horizon, D>, before: Console, s: State<Horizon, D>, data: bytes)
    requires env.ops == HorizonOps() && CleanUpWorks(before.out) && Sound(before, s) && Valid(env, s) && !s.stage.Failed?
    ensures Sound(before, Iter(env, s, data).0)
  {
    hide Sound, CleanUpWorks, StepMagic, StepHeader, StepStreaming, Valid, Advance;
    match s.stage
    case Magic => MagicSound(env, before, s, data);
    case Header => HeaderSound(env, before, s, data);
    case Streaming => StreamingSound(env, before, s, data);
    case Complete => CompleteSound(before, s, Advance(s.streamPos, |data|));
  }

  lemma {:induction false} FeedSound<D>(env: Env<Horizon, D>, before: Console, s: State<Horizon, D>, data: bytes)
    requires env.ops == HorizonOps() && CleanUpWorks(before.out) && Sound(before, s) && Valid(env, s)
    ensures Sound(before, Feed(env, s, data))
    decreases |data|, StageRank(s.stage), EntriesLeft(s)
  {
    hide Sound, CleanUpWorks, Iter, Valid;
    if data != [] && !s.stage.Failed? {
      RoundSound(env, before, s, data);
      IterProgress(env, s, data);
      var (t, used) := Iter(env, s, data);
      FeedSound(env, before, t, data[used..]);
    }
  }

  lemma {:induction false} ChunksSound<D>(env: Env<Horizon, D>, before: Console, s: State<Horizon, D>, chunks: seq<bytes>)
    requires env.ops == HorizonOps() && CleanUpWorks(before.out) && Sound(before, s) && Valid(env, s)
    ensures Sound(before, FeedAll(env, s, chunks))
    decreases |chunks|
  {
    hide Sound, CleanUpWorks, Feed, Valid;
    if chunks != [] {
      FeedSound(env, before, s, chunks[0]);
      ChunksSound(env, before, Feed(env, s, chunks[0]), chunks[1..]);
    }
  }

  lemma BeginSound<D>(env: Env<Horizon, D>, before: Console, storageId: u8, d: D)
    requires before.staged == before.persisted
    ensures Sound(before, Begin(env, FreshBackend(before, storageId), d)) && Valid(env, Begin(env, FreshBackend(before, storageId), d))
  {
    assert before.contents - IdSet([]) == before.contents;
  }

  // ----- finishing -----

  /** Rolling back with `meta` would restore the console, also after its record has been registered or pushed. */
  ghost predicate UndoableAs(before: Console, h: Horizon, meta: Meta) {
    && h.console.out == before.out
    && h.console.contents - IdSet(h.registered) == before.contents
    && MetaUndoable(before, h, KeyOf(meta))
    && RecordUndoable(before, h, AppOf(meta))
  }

  ghost predicate MetaUndoable(before: Console, h: Horizon, key: MetaKey) {
    if h.metaCommitted then key in h.console.staged && h.console.staged - {key} == before.persisted
    else h.console.persisted == before.persisted
  }

  ghost predicate RecordUndoable(before: Console, h: Horizon, app: u64) {
    if h.recordPushed then
      && app in h.console.records && h.console.records - {app} == before.records - {app}
      && h.savedValid && h.saved == RecordOf(before, app)
    else h.console.records == before.records
  }

  /** The system never keeps an empty record. */
  ghost predicate NoEmptyRecord(c: Console) {
    forall app :: app in c.records ==> c.records[app] != []
  }

  /** The records with one application's list replaced. */
  function WithRecord(records: map<u64, seq<Record>>, app: u64, list: seq<Record>): map<u64, seq<Record>> {
    if list == [] then records - {app} else records[app := list]
  }

  /** The console as an undo can restore it when only `read` of the application's list is remembered. */
  function Kept(before: Console, app: u64, read: seq<Record>): Console {
    before.(records := WithRecord(before.records, app, read))
  }

  /** Nothing has been lost exactly when all of the list is remembered. */
  lemma KeptIffWhole(before: Console, app: u64, read: seq<Record>)
    requires NoEmptyRecord(before)
    ensures NoEmptyRecord(Kept(before, app, read)) && RecordOf(Kept(before, app, read), app) == read
    ensures Kept(before, app, read).records - {app} == before.records - {app}
    ensures Kept(before, app, read) == before <==> read == RecordOf(before, app)
    ensures Kept(before, app, read).records == before.records <==> read == RecordOf(before, app)
  {
    PutBack(before.records, app, read);
    if app in before.records {
      assert app in WithRecord(before.records, app, read) ==> WithRecord(before.records, app, read)[app] == read;
    }
  }

  /** The stores other than the records. */
  ghost predicate SameButRecords(c: Console, d: Console) {
    c.contents == d.contents && c.staged == d.staged && c.persisted == d.persisted && c.out == d.out
  }

  lemma DropStores(c: Console, app: u64, undo: bool)
    ensures var r := DropRecord(c, app, undo);
            && SameButRecords(c, r.user)
            && r.user.records == (if r.ok then c.records - {app} else c.records)
            && (r.ok ==> app in c.records)
            && (app in c.records && (forall n :: c.out.works(DeleteRecord(undo), n)) ==> r.ok)
  {
  }

  lemma PushStores(c: Console, app: u64, list: seq<Record>, undo: bool)
    ensures var r := Push(c, app, list, undo);
            && SameButRecords(c, r.user)
            && r.user.records == (if r.ok then c.records[app := list] else c.records)
            && (r.ok ==> app !in c.records && list != [])
            && (app !in c.records && list != [] && (forall n :: c.out.works(PushRecord(undo), n)) ==> r.ok)
  {
  }

  lemma PutBack<V>(m: map<u64, V>, app: u64, v: V)
    ensures m[app := v] == (m - {app})[app := v]
    ensures app in m && m[app] == v ==> m[app := v] == m
    ensures app !in m ==> m - {app} == m
  {
  }

  lemma UndoRecordRestores(before: Console, h: Horizon, meta: Meta)
    requires RecordUndoable(before, h, AppOf(meta)) && NoEmptyRecord(before) && h.console.out == before.out && CleanUpWorks(before.out)
    ensures var t := UndoRecord(h, meta);
            && t.console.records == before.records && SameButRecords(h.console, t.console)
            && t.registered == h.registered && t.metaCommitted == h.metaCommitted
  {
    hide AppOf, DropRecord, Push;
    var app := AppOf(meta);
    if h.recordPushed {
      DropStores(h.console, app, true);
      var dropped := DropRecord(h.console, app, true).user;
      PushStores(dropped, app, h.saved, true);
      PutBack(before.records, app, h.saved);
    }
  }

  lemma UndoMetaRestores(before: Console, h: Horizon, meta: Meta)
    requires MetaUndoable(before, h, KeyOf(meta)) && h.console.out == before.out && CleanUpWorks(before.out)
    ensures var t := UndoMeta(h, meta);
            && t.console.persisted == before.persisted
            && t.console.contents == h.console.contents && t.console.records == h.console.records
            && t.console.out == h.console.out && t.registered == h.registered
  {
    hide KeyOf;
  }

  lemma DiscardStores(h: Horizon)
    ensures var t := ContentDiscard(h);
            && SameStores(h.console, t.console)
            && t.registered == h.registered && t.metaCommitted == h.metaCommitted && t.recordPushed == h.recordPushed
            && t.saved == h.saved && t.savedValid == h.savedValid
  {
    hide DropPlaceholder, SameStores;
    PlaceholdersApart(h.console, h.placeholder, 0);
    SameStoresSelf(h.console);
  }

  lemma SameStoresSelf(c: Console)
    ensures SameStores(c, c)
  {
  }

  lemma RollbackRestoresAs(before: Console, h: Horizon, meta: Meta)
    requires UndoableAs(before, h, meta) && CleanUpWorks(before.out) && NoEmptyRecord(before)
    ensures Restored(before, Rollback(h, meta).console)
  {
    hide IdSet, DeleteAll, UndoRecord, UndoMeta, ContentDiscard, KeyOf, AppOf, CleanUpWorks;
    DiscardStores(h);
    var a := ContentDiscard(h);
    UndoRecordRestores(before, a, meta);
    var b := UndoRecord(a, meta);
    UndoMetaRestores(before, b, meta);
    var c := UndoMeta(b, meta);
    assert forall n :: c.console.out.works(DeleteContent(true), n) by { DeletesWork(c.console.out); }
    DeletesAll(c.console, c.registered);
  }

  lemma DeletesWork(out: Outcomes)
    requires CleanUpWorks(out)
    ensures forall n :: out.works(DeleteContent(true), n)
  {
  }

  lemma FailRestoresAs<D>(env: Env<Horizon, D>, before: Console, s: State<Horizon, D>, v: Verdict)
    requires env.ops == HorizonOps() && UndoableAs(before, s.user, s.meta) && CleanUpWorks(before.out) && NoEmptyRecord(before)
    ensures Fail(env, s, v).stage == Failed(v) && Restored(before, Fail(env, s, v).user.console)
  {
    hide Restored, Rollback, ContentDiscard, CleanUpWorks, IdSet;
    DiscardStores(s.user);
    assert UndoableAs(before, ContentDiscard(s.user), s.meta);
    RollbackRestoresAs(before, s.user, s.meta);
    RollbackRestoresAs(before, ContentDiscard(s.user), s.meta);
  }

  // ----- registering and pushing -----

  /** The record that registering is reached with, if it is reached at all. */
  function ToRegister<D>(env: Env<Horizon, D>, s: State<Horizon, D>): Option<Meta> {
    if !s.stage.Complete? then None
    else
      var t := InstallSpec.ImportTicket(env, s);
      if t.stage.Failed? then None else Built(env, t)
  }

  function Built<D>(env: Env<Horizon, D>, s: State<Horizon, D>): Option<Meta> {
    var r := env.ops.readCnmt(s.user, s.metaId);
    if !r.ok || Cnmt.Parse(r.data).Err? then None
    else
      var (b, v) := BuildMeta(env, s.(user := r.user), Cnmt.Parse(r.data).value);
      if v.Some? then None else Some(b.meta)
  }

  /** Nothing of the title version is registered yet. */
  ghost predicate NewMeta(before: Console, record: Option<Meta>) {
    record.Some? ==> KeyOf(record.value) !in before.persisted
  }

  lemma RegisterKeeps(before: Console, h: Horizon, meta: Meta)
    requires Undoable(before, h) && KeyOf(meta) !in before.persisted
    ensures var r := RegisterMeta(h, meta);
            && UndoableAs(before, r.user, meta) && !r.user.recordPushed
            && (r.ok ==> r.user.console.persisted == before.persisted[KeyOf(meta) := MetaRecord(meta.extHeader, meta.contents)])
  {
    hide IdSet, KeyOf, AppOf;
  }

  /** The record after a push: what was attached, without the same content meta, and the new entry behind it. */
  function Merged(before: Console, h: Horizon, meta: Meta): seq<Record> {
    Without(RecordOf(before, AppOf(meta)), meta.titleId, meta.metaType) + [NewRecord(h, meta)]
  }

  /**
   * A push that works leaves what was read of the old list, without the same content meta, and the new entry:
   * the merge of the whole list exactly when nothing but that content meta was left unread. One that fails
   * leaves the records as they were, exactly unless the old list had been deleted and was only read in part.
   */
  lemma PushMerges(h: Horizon, meta: Meta)
    requires NoEmptyRecord(h.console) && CleanUpWorks(h.console.out)
    ensures var r := PushAppRecord(h, meta);
            var app, c, d := AppOf(meta), h.console, r.user.console;
            var (read, after) := ReadRecords(c, app, MAX_APP_RECORDS);
            var kept, list := Without(read, meta.titleId, meta.metaType), RecordOf(c, app);
            && read <= list && SameButRecords(c, d)
            && r.user == h.(console := d, saved := read, savedValid := true, recordPushed := h.recordPushed || r.ok)
            && (r.ok ==> d.records == c.records[app := kept + [NewRecord(h, meta)]])
            && (r.ok ==> (d.records == c.records[app := Merged(c, h, meta)] <==> Without(list[|read|..], meta.titleId, meta.metaType) == []))
            && (!r.ok ==> d.records == c.records || d.records == WithRecord(c.records, app, read))
            && (!r.ok ==> (d.records == c.records <==> read == list || |kept| >= MAX_APP_RECORDS || !DropRecord(after, app, false).ok))
  {
    hide ReadRecords, Without, AppOf, KeyOf, DropRecord, Push, WithRecord;
    var app := AppOf(meta);
    ReadRecordsIs(h.console, app);
    var t := ReadSaved(h, app);
    var kept := Without(t.saved, meta.titleId, meta.metaType);
    KeptIffWhole(h.console, app, t.saved);
    PartRead(RecordOf(h.console, app), t.saved, meta.titleId, meta.metaType);
    if |kept| < MAX_APP_RECORDS {
      PushOutcome(t.console, app, kept + [NewRecord(h, meta)], t.saved);
      OneListDiffers(h.console.records, app, kept, Without(RecordOf(h.console, app), meta.titleId, meta.metaType), NewRecord(h, meta));
    }
  }

  lemma OneListDiffers(records: map<u64, seq<Record>>, app: u64, a: seq<Record>, b: seq<Record>, last: Record)
    ensures records[app := a + [last]] == records[app := b + [last]] <==> a == b
  {
    assert records[app := a + [last]][app] == a + [last] && records[app := b + [last]][app] == b + [last];
    assert (a + [last])[..|a + [last]| - 1] == a && (b + [last])[..|b + [last]| - 1] == b;
  }

  /** Replacing a record: deleted and pushed anew, or what was remembered of it is put back. */
  lemma PushOutcome(c: Console, app: u64, merged: seq<Record>, saved: seq<Record>)
    requires merged != [] && saved <= RecordOf(c, app) && CleanUpWorks(c.out)
    ensures var drop := DropRecord(c, app, false);
            var pushed := Push(drop.user, app, merged, false);
            var d := if pushed.ok then pushed.user else Push(pushed.user, app, saved, true).user;
            && SameButRecords(c, d)
            && (pushed.ok ==> d.records == c.records[app := merged])
            && (!pushed.ok ==> d.records == if drop.ok then WithRecord(c.records, app, saved) else c.records)
  {
    hide DropRecord, Push;
    DropStores(c, app, false);
    var dropped := DropRecord(c, app, false).user;
    PushStores(dropped, app, merged, false);
    var pushed := Push(dropped, app, merged, false);
    PushStores(pushed.user, app, saved, true);
    PutBack(c.records, app, saved);
    PutBack(c.records, app, merged);
  }

  /** After a push rolling back restores the console, or the console with as much of the record as was read. */
  lemma PushKeeps(before: Console, h: Horizon, meta: Meta)
    requires UndoableAs(before, h, meta) && !h.recordPushed && NoEmptyRecord(before) && CleanUpWorks(before.out)
    ensures var p := PushAppRecord(h, meta);
            && p.user.savedValid
            && (p.ok ==> UndoableAs(Kept(before, AppOf(meta), p.user.saved), p.user, meta))
            && (UndoableAs(before, p.user, meta) || UndoableAs(Kept(before, AppOf(meta), p.user.saved), p.user, meta))
  {
    hide IdSet, PushAppRecord, AppOf, KeyOf, CleanUpWorks, ReadRecords, Without, WithRecord;
    PushMerges(h, meta);
    KeptIffWhole(before, AppOf(meta), PushAppRecord(h, meta).user.saved);
  }

  // ----- the finishing calls -----

  /** Failed and restored, or still undoable. */
  ghost predicate Ended<D>(before: Console, s: State<Horizon, D>) {
    if s.stage.Failed? then Restored(before, s.user.console) else UndoableAs(before, s.user, s.meta)
  }

  lemma CalledKeeps(before: Console, h: Horizon)
    requires Undoable(before, h)
    ensures Undoable(before, h.(console := Called(h.console)))
  {
    hide IdSet;
  }

  lemma TicketSafe<D>(env: Env<Horizon, D>, before: Console, s: State<Horizon, D>)
    requires env.ops == HorizonOps() && CleanUpWorks(before.out) && Undoable(before, s.user) && !s.stage.Failed?
    ensures var t := InstallSpec.ImportTicket(env, s); if t.stage.Failed? then Restored(before, t.user.console) else Undoable(before, t.user)
  {
    hide Undoable, Restored, Fail, CleanUpWorks, Works;
    CalledKeeps(before, s.user);
    FailRestores(env, before, s, BufferTooSmall);
    FailRestores(env, before, s.(user := TicketImport(s.user).user), BackendError);
  }

  /** What the console holds once the record has been pushed. */
  ghost predicate Published(before: Console, h: Horizon, meta: Meta) {
    && h.console.records == before.records[AppOf(meta) := Merged(before, h, meta)]
    && h.console.persisted == before.persisted[KeyOf(meta) := MetaRecord(meta.extHeader, meta.contents)]
  }

  /** Ended with all of the console, or with all of it but what was not read of the application's list. */
  ghost predicate EndedAs<D>(before: Console, s: State<Horizon, D>) {
    Ended(before, s) || (s.user.savedValid && Ended(Kept(before, AppOf(s.meta), s.user.saved), s))
  }

  /** A publish that worked: undoing it is a matter of what was read, and so is whether the lists were merged. */
  ghost predicate PublishedAs<D>(before: Console, s: State<Horizon, D>) {
    var read, list := s.user.saved, RecordOf(before, AppOf(s.meta));
    && s.user.savedValid && read <= list
    && Ended(Kept(before, AppOf(s.meta), read), s)
    && (Published(before, s.user, s.meta) <==> Without(list[|read|..], s.meta.titleId, s.meta.metaType) == [])
  }

  lemma FailKeepsSaved<D>(env: Env<Horizon, D>, s: State<Horizon, D>, v: Verdict)
    requires env.ops == HorizonOps()
    ensures var t := Fail(env, s, v); t.user.saved == s.user.saved && t.user.savedValid == s.user.savedValid && t.meta == s.meta
  {
  }

  lemma PublishEnds<D>(env: Env<Horizon, D>, before: Console, s: State<Horizon, D>)
    requires env.ops == HorizonOps() && CleanUpWorks(before.out) && NoEmptyRecord(before)
    requires Undoable(before, s.user) && KeyOf(s.meta) !in before.persisted && !s.stage.Failed?
    ensures var t := Publish(env, s);
            && t.meta == s.meta && EndedAs(before, t)
            && (!t.stage.Failed? ==> PublishedAs(before, t))
  {
    hide IdSet, Restored, Fail, CleanUpWorks, RegisterMeta, PushAppRecord, UndoableAs, Kept, KeyOf, AppOf, Merged, PublishedAs;
    var r := RegisterMeta(s.user, s.meta);
    RegisterKeeps(before, s.user, s.meta);
    FailRestoresAs(env, before, s.(user := r.user), BackendError);
    FailShape(env, s.(user := r.user), BackendError);
    if r.ok {
      var p := PushAppRecord(r.user, s.meta);
      var t := s.(user := p.user);
      PushKeeps(before, r.user, s.meta);
      FailShape(env, t, BackendError);
      if p.ok {
        PushPublishes(before, s, r.user);
      } else {
        FailKeepsSaved(env, t, BackendError);
        if UndoableAs(before, p.user, s.meta) {
          FailRestoresAs(env, before, t, BackendError);
        } else {
          KeptIffWhole(before, AppOf(s.meta), p.user.saved);
          assert Kept(before, AppOf(s.meta), p.user.saved).out == before.out by { KeptOut(before, AppOf(s.meta), p.user.saved); }
          FailRestoresAs(env, Kept(before, AppOf(s.meta), p.user.saved), t, BackendError);
        }
      }
    }
  }

  lemma KeptOut(before: Console, app: u64, read: seq<Record>)
    ensures Kept(before, app, read).out == before.out
    ensures Kept(before, app, read).contents == before.contents && Kept(before, app, read).persisted == before.persisted
  {
  }

  lemma PushPublishes<D>(before: Console, s: State<Horizon, D>, h: Horizon)
    requires NoEmptyRecord(before) && CleanUpWorks(before.out)
    requires UndoableAs(before, h, s.meta) && !h.recordPushed && PushAppRecord(h, s.meta).ok && !s.stage.Failed?
    requires h.console.persisted == before.persisted[KeyOf(s.meta) := MetaRecord(s.meta.extHeader, s.meta.contents)]
    ensures PublishedAs(before, s.(user := PushAppRecord(h, s.meta).user))
  {
    hide IdSet, CleanUpWorks, PushAppRecord, ReadRecords, Without, KeyOf, AppOf, Kept, MetaUndoable;
    PushKeeps(before, h, s.meta);
    PushMerges(h, s.meta);
    MergedFrom(before, h, PushAppRecord(h, s.meta).user, s.meta);
  }

  lemma MergedFrom(before: Console, h: Horizon, t: Horizon, meta: Meta)
    requires h.console.records == before.records && t.storageId == h.storageId
    ensures Merged(h.console, h, meta) == Merged(before, t, meta)
  {
  }

  lemma RegisterEnds<D>(env: Env<Horizon, D>, before: Console, s: State<Horizon, D>)
    requires env.ops == HorizonOps() && CleanUpWorks(before.out) && NoEmptyRecord(before)
    requires Undoable(before, s.user) && !s.stage.Failed?
    requires NewMeta(before, Built(env, s))
    ensures var t := InstallSpec.Register(env, s); EndedAs(before, t) && (!t.stage.Failed? ==> PublishedAs(before, t))
  {
    hide Undoable, Restored, Fail, CleanUpWorks, Publish, BuildMeta, Cnmt.Parse, Cnmt.ValidManifest, Works, PublishedAs, KeyOf;
    CalledKeeps(before, s.user);
    var r := ReadCnmt(s.user, s.metaId);
    assert Undoable(before, r.user) by { CnmtKeeps(before, s.user, s.metaId); }
    var t := s.(user := r.user);
    FailRestores(env, before, t, BackendError);
    FailRestores(env, before, t, BadCnmt);
    match Cnmt.Parse(r.data)
    case Err(_) =>
    case Ok(m) =>
      var (b, v) := BuildMeta(env, t, m);
      BuildMetaShape(env, t, m);
      if v.Some? {
        FailRestores(env, before, b, v.value);
      } else if r.ok {
        PublishEnds(env, before, b);
      }
  }

  lemma CnmtKeeps(before: Console, h: Horizon, id: bytes)
    requires Undoable(before, h)
    ensures Undoable(before, ReadCnmt(h, id).user)
  {
    hide IdSet;
  }

  lemma FinishEnds<D>(env: Env<Horizon, D>, before: Console, s: State<Horizon, D>)
    requires env.ops == HorizonOps() && CleanUpWorks(before.out) && NoEmptyRecord(before)
    requires Undoable(before, s.user) && !s.stage.Failed? && NewMeta(before, ToRegister(env, s))
    ensures var t := Finish(env, s); EndedAs(before, t) && (!t.stage.Failed? ==> PublishedAs(before, t))
  {
    hide Undoable, Restored, Fail, CleanUpWorks, InstallSpec.Register, InstallSpec.ImportTicket, Built, PublishedAs,
      UndoableAs, Kept, KeyOf;
    FailRestores(env, before, s, NotFinished);
    TicketSafe(env, before, s);
    var u := InstallSpec.ImportTicket(env, s);
    if s.stage.Complete? && !u.stage.Failed? {
      RegisterEnds(env, before, u);
    }
  }

  // ----- the main theorem -----

  /** The whole of an application's list is remembered, if any of it is. */
  ghost predicate AllRead(before: Console, h: Horizon, meta: Meta) {
    h.savedValid ==> h.saved == RecordOf(before, AppOf(meta))
  }

  /** All of the console but one application's record is as it was. */
  ghost predicate RestoredApart(before: Console, c: Console, app: u64) {
    c.contents == before.contents && c.persisted == before.persisted && c.records - {app} == before.records - {app}
  }

  /** What a finish, or an abort behind it, does to the console. */
  ghost predicate FinishIsSafe<D>(before: Console, done: State<Horizon, D>, aborted: State<Horizon, D>) {
    var end := aborted.user.console;
    && RestoredApart(before, end, AppOf(done.meta))
    && (AllRead(before, done.user, done.meta) ==> Restored(before, end))
    && (!done.stage.Failed? ==>
          && PublishedAs(before, done)
          && (AllRead(before, done.user, done.meta) ==> Published(before, done.user, done.meta))
          && (Restored(before, end) <==> AllRead(before, done.user, done.meta)))
  }

  lemma NothingUnread(list: seq<Record>, meta: Meta)
    ensures list[|list|..] == [] && Without([], meta.titleId, meta.metaType) == []
  {
  }

  lemma EndedIsSafe<D>(env: Env<Horizon, D>, before: Console, done: State<Horizon, D>)
    requires env.ops == HorizonOps() && CleanUpWorks(before.out) && NoEmptyRecord(before)
    requires EndedAs(before, done) && (!done.stage.Failed? ==> PublishedAs(before, done))
    ensures FinishIsSafe(before, done, Abort(env, done))
  {
    hide UndoableAs, Fail, CleanUpWorks, AppOf, Kept, Published, Without;
    var app, read := AppOf(done.meta), done.user.saved;
    var kept := Kept(before, app, read);
    KeptIffWhole(before, app, read);
    KeptOut(before, app, read);
    NothingUnread(RecordOf(before, app), done.meta);
    if !done.stage.Failed? {
      FailRestoresAs(env, kept, done, Aborted);
    }
  }

  /**
   * However the stream is cut, whatever calls fail short of the clean-up itself: when the container's contents
   * are new to the console, and its title version too if registering it is reached, an install that fails while streaming or finishing, or is
   * aborted at any point, leaves content storage, meta database and every other application's record as they
   * were, and the application's own record too when all of it had been read; behind a finish that worked,
   * exactly then. A finish that worked has merged its record into what was attached.
   */
  lemma FailedInstallChangesNothing<D>(env: Env<Horizon, D>, before: Console, storageId: u8, d: D, chunks: seq<bytes>)
    requires env.ops == HorizonOps() && CleanUpWorks(before.out) && NoEmptyRecord(before) && before.staged == before.persisted
    ensures Valid(env, Begin(env, FreshBackend(before, storageId), d))
    ensures var fed := FeedAll(env, Begin(env, FreshBackend(before, storageId), d), chunks);
            var done := Finish(env, fed);
            AllFresh(before, fed.entries) ==>
              && (fed.stage.Failed? ==> Restored(before, fed.user.console))
              && Restored(before, Abort(env, fed).user.console)
              && (!fed.stage.Failed? && NewMeta(before, ToRegister(env, fed)) ==> FinishIsSafe(before, done, Abort(env, done)))
  {
    hide Undoable, Restored, Fail, CleanUpWorks, Finish, FeedAll, AllFresh, PublishedAs, EndedAs, NewMeta, ToRegister,
      FinishIsSafe, NoEmptyRecord;
    var s := Begin(env, FreshBackend(before, storageId), d);
    BeginSound(env, before, storageId, d);
    ChunksSound(env, before, s, chunks);
    var fed := FeedAll(env, s, chunks);
    if AllFresh(before, fed.entries) && !fed.stage.Failed? {
      FailRestores(env, before, fed, Aborted);
      if NewMeta(before, ToRegister(env, fed)) {
        FinishEnds(env, before, fed);
        EndedIsSafe(env, before, Finish(env, fed));
      }
    }
  }

  // ----- why the conditions are needed -----

  /** A commit that works can be undone exactly when the content was not on the console before. */
  lemma CommitUndoableIffNew(before: Console, h: Horizon)
    requires h.console.contents - IdSet(h.registered) == before.contents && |h.registered| < MAX_REGISTERED
    requires h.placeholderOpen && ContentCommit(h).ok
    ensures var t := ContentCommit(h).user;
            t.console.contents - IdSet(t.registered) == before.contents <==> h.contentId !in before.contents
  {
    hide IdSet, Cleared, StoreContent;
    var c := Cleared(h);
    ClearedStores(h);
    StoreStores(c, h.contentId, h.placeholder);
    assert IdSet(h.registered + [h.contentId]) == IdSet(h.registered) + {h.contentId} by { IdSetGrows(h.registered, h.contentId); }
    if h.contentId !in before.contents {
      FreshId(h.console.contents, h.registered, before.contents, h.contentId, []);
      FreshId(c.contents, h.registered, before.contents, h.contentId, c.placeholders[h.placeholder]);
    }
  }

  /** A console on which every call works. */
  function AllWork(): Outcomes {
    Outcomes((call, n) => true, (n, k) => true, n => 0, n => 0, data => None)
  }

  /** The failing input: a content that is already there. It is committed again, and rolling back deletes it. */
  lemma RecommitLoses(storageId: u8, id: bytes, stored: bytes, meta: Meta)
    ensures var before := Console(map[id := stored], map[], map[], map[], map[], 0, AllWork());
            var begun := ContentBegin(FreshBackend(before, storageId), id, 0);
            var done := ContentCommit(begun.user);
            begun.ok && done.ok && id !in Rollback(done.user, meta).console.contents
  {
    hide KeyOf, AppOf;
    var before := Console(map[id := stored], map[], map[], map[], map[], 0, AllWork());
    var begun := ContentBegin(FreshBackend(before, storageId), id, 0);
    var done := ContentCommit(begun.user);
    assert begun.user.console.contents == map[id := stored];
    assert Cleared(begun.user).contents == map[];
    assert done.user.registered == [id];
    LastIsDeleted(done.user.console, id);
  }

  lemma LastIsDeleted(c: Console, id: bytes)
    requires forall call, n :: c.out.works(call, n)
    ensures id !in DeleteAll(c, [id]).contents
  {
    assert [id][..0] == [];
    assert DeleteAll(c, []) == c;
  }

  lemma IdSetGrows(ids: seq<bytes>, id: bytes)
    ensures IdSet(ids + [id]) == IdSet(ids) + {id}
  {
  }

  /** Registering a title version can be undone exactly when that version was not registered before. */
  lemma RegisterUndoableIffNew(before: Console, h: Horizon, meta: Meta)
    requires Undoable(before, h) && RegisterMeta(h, meta).ok && CleanUpWorks(before.out)
    ensures UndoMeta(RegisterMeta(h, meta).user, meta).console.persisted == before.persisted <==> KeyOf(meta) !in before.persisted
  {
    hide IdSet, KeyOf, AppOf;
    var t := RegisterMeta(h, meta).user;
    var key, value := KeyOf(meta), MetaRecord(meta.extHeader, meta.contents);
    assert t.console.staged == before.persisted[key := value];
    assert UndoMeta(t, meta).console.persisted == before.persisted[key := value] - {key};
  }

  /** The failing input: a title version that is already registered. Undoing the second registration removes it. */
  lemma ReregisterLoses(storageId: u8, meta: Meta, before: MetaRecord)
    ensures var known := map[KeyOf(meta) := before];
            var r := RegisterMeta(FreshBackend(Console(map[], map[], known, known, map[], 0, AllWork()), storageId), meta);
            r.ok && KeyOf(meta) !in UndoMeta(r.user, meta).console.persisted
  {
    hide KeyOf;
  }

  /** A pushed record can be taken back exactly when all of what was attached had been read. */
  lemma PushUndoableIffRead(h: Horizon, meta: Meta)
    requires NoEmptyRecord(h.console) && CleanUpWorks(h.console.out) && PushAppRecord(h, meta).ok
    ensures UndoRecord(PushAppRecord(h, meta).user, meta).console.records == h.console.records
            <==> ReadRecords(h.console, AppOf(meta), MAX_APP_RECORDS).0 == RecordOf(h.console, AppOf(meta))
  {
    hide ReadRecords, Without, AppOf, KeyOf, DropRecord, Push, UndoRecord, PushAppRecord, WithRecord;
    var app := AppOf(meta);
    ReadRecordsIs(h.console, app);
    var read := ReadRecords(h.console, app, MAX_APP_RECORDS).0;
    PushedThenUndone(h, meta, read);
    KeptIffWhole(h.console, app, read);
  }

  /** While listing works, that is when what was attached fits the 320 entries that are remembered. */
  lemma PushUndoableIffFits(h: Horizon, meta: Meta)
    requires NoEmptyRecord(h.console) && CleanUpWorks(h.console.out) && PushAppRecord(h, meta).ok
    requires forall n :: h.console.out.works(ListRecords, n)
    ensures UndoRecord(PushAppRecord(h, meta).user, meta).console.records == h.console.records
            <==> |RecordOf(h.console, AppOf(meta))| <= MAX_APP_RECORDS
  {
    hide ReadRecords, AppOf, UndoRecord, PushAppRecord;
    PushUndoableIffRead(h, meta);
    ReadIsWhole(h.console, AppOf(meta));
  }

  /**
   * The failing input: the title version itself and 320 other records attached. The push works, the last record
   * is beyond what is remembered, and undoing the push does not bring it back.
   */
  lemma LongRecordLoses(storageId: u8, meta: Meta, other: Record)
    requires !Same(other, meta.titleId, meta.metaType)
    ensures var app, list := AppOf(meta), [Record(KeyOf(meta), storageId)] + seq(MAX_APP_RECORDS, i => other);
            var h := FreshBackend(Console(map[], map[], map[], map[], map[app := list], 0, AllWork()), storageId);
            var r := PushAppRecord(h, meta);
            r.ok && UndoRecord(r.user, meta).console.records == map[app := list[..MAX_APP_RECORDS]] && MAX_APP_RECORDS < |list|
  {
    hide AppOf, ReadFrom, UndoRecord, Without;
    var app, list := AppOf(meta), [Record(KeyOf(meta), storageId)] + seq(MAX_APP_RECORDS, i => other);
    var h := FreshBackend(Console(map[], map[], map[], map[], map[app := list], 0, AllWork()), storageId);
    var read := ReadRecords(h.console, app, MAX_APP_RECORDS).0;
    ReadRecordsIs(h.console, app);
    ReadsTheWhole(h.console, app, [], MAX_APP_RECORDS);
    assert read == list[..MAX_APP_RECORDS];
    FirstTakenOut(read, meta);
    PushedThenUndone(h, meta, read);
    assert map[app := list][app := read] == map[app := read];
  }

  lemma FirstTakenOut(read: seq<Record>, meta: Meta)
    requires read != [] && Same(read[0], meta.titleId, meta.metaType)
    ensures |Without(read, meta.titleId, meta.metaType)| < |read|
  {
    WithoutNothing(read, meta.titleId, meta.metaType);
  }

  /**
   * The failing input: a title with one other record attached, and listing calls that fail. The push works,
   * the other record is gone, and undoing the push does not bring it back.
   */
  lemma PartReadLoses(storageId: u8, meta: Meta, other: Record)
    requires !Same(other, meta.titleId, meta.metaType)
    ensures var out := Outcomes((call, n) => call != ListRecords, (n, k) => true, n => 0, n => 0, data => None);
            var h := FreshBackend(Console(map[], map[], map[], map[], map[AppOf(meta) := [other]], 0, out), storageId);
            var r := PushAppRecord(h, meta);
            && CleanUpWorks(out) && r.ok
            && r.user.console.records[AppOf(meta)] == [NewRecord(h, meta)]
            && AppOf(meta) !in UndoRecord(r.user, meta).console.records
  {
    hide AppOf, KeyOf;
    var out := Outcomes((call, n) => call != ListRecords, (n, k) => true, n => 0, n => 0, data => None);
    var h := FreshBackend(Console(map[], map[], map[], map[], map[AppOf(meta) := [other]], 0, out), storageId);
    NothingIsRead(h.console, AppOf(meta));
    var r := PushAppRecord(h, meta);
    assert Without([], meta.titleId, meta.metaType) + [NewRecord(h, meta)] == [NewRecord(h, meta)];
  }

  lemma NothingIsRead(c: Console, app: u64)
    requires !Works(c, ListRecords)
    ensures ReadRecords(c, app, MAX_APP_RECORDS) == ([], Called(c))
  {
  }

  lemma PushedThenUndone(h: Horizon, meta: Meta, saved: seq<Record>)
    requires NoEmptyRecord(h.console) && CleanUpWorks(h.console.out) && PushAppRecord(h, meta).ok
    requires ReadRecords(h.console, AppOf(meta), MAX_APP_RECORDS).0 == saved
    requires Untouched(h.console, ReadRecords(h.console, AppOf(meta), MAX_APP_RECORDS).1)
    ensures UndoRecord(PushAppRecord(h, meta).user, meta).console.records == WithRecord(h.console.records, AppOf(meta), saved)
  {
    hide ReadRecords, Without, AppOf, KeyOf, DropRecord, Push;
    var app := AppOf(meta);
    var t := ReadSaved(h, app);
    var merged := Without(saved, meta.titleId, meta.metaType) + [NewRecord(h, meta)];
    DropStores(t.console, app, false);
    var dropped := DropRecord(t.console, app, false).user;
    PushStores(dropped, app, merged, false);
    var u := PushAppRecord(h, meta).user;
    DropStores(u.console, app, true);
    PushStores(DropRecord(u.console, app, true).user, app, saved, true);
    PutBack(h.console.records, app, merged);
    PutBack(h.console.records, app, saved);
  }

  // ----- the merged record -----

  /** Merging loses no other title and leaves exactly one entry for the installed one, the new one. */
  lemma MergeKeepsOthers(list: seq<Record>, id: u64, metaType: u8, added: Record)
    requires Same(added, id, metaType)
    ensures var merged := Without(list, id, metaType) + [added];
            && (forall r :: !Same(r, id, metaType) ==> (r in merged <==> r in list))
            && (forall i :: 0 <= i < |merged| && Same(merged[i], id, metaType) ==> i == |merged| - 1)
            && |merged| <= |list| + 1
  {
    WithoutIsExact(list, id, metaType);
    var kept := Without(list, id, metaType);
    forall i | 0 <= i < |kept|
      ensures !Same(kept[i], id, metaType)
    {
      assert kept[i] in kept;
    }
  }

  /**
   * Taking the installed title out of the merged record leaves what taking it out of the old one would have
   * left, exactly when all of the merged record could be read: its entry is the last.
   */
  lemma PushThenRemove(before: Console, c: Console, h: Horizon, meta: Meta)
    requires c.records == before.records[AppOf(meta) := Merged(before, h, meta)]
    ensures var r := RemoveMetaFromRecord(c, AppOf(meta), meta.titleId, meta.metaType);
            r.ok ==>
              && r.console.records - {AppOf(meta)} == before.records - {AppOf(meta)}
              && (RecordOf(r.console, AppOf(meta)) == Without(RecordOf(before, AppOf(meta)), meta.titleId, meta.metaType)
                  <==> ReadRecords(c, AppOf(meta), MAX_APP_RECORDS).0 == Merged(before, h, meta))
  {
    hide AppOf, Without, RemoveMetaFromRecord, ReadRecords;
    var app := AppOf(meta);
    var kept, added := Without(RecordOf(before, app), meta.titleId, meta.metaType), NewRecord(h, meta);
    var merged := kept + [added];
    var read := ReadRecords(c, app, MAX_APP_RECORDS).0;
    RemovalIsExact(c, app, meta.titleId, meta.metaType);
    MergedWithout(RecordOf(before, app), meta.titleId, meta.metaType, added);
    if read == merged {
      assert merged[|read|..] == [];
    } else {
      assert read <= kept by { ProperPrefix(read, kept, added); }
      PrefixKept(RecordOf(before, app), read, meta.titleId, meta.metaType);
    }
  }

  lemma ProperPrefix(read: seq<Record>, kept: seq<Record>, added: Record)
    requires read <= kept + [added] && read != kept + [added]
    ensures read <= kept
  {
    assert |read| == |kept + [added]| ==> read == kept + [added];
    assert read == (kept + [added])[..|read|] == kept[..|read|];
  }

  lemma MergedWithout(list: seq<Record>, id: u64, metaType: u8, added: Record)
    requires Same(added, id, metaType)
    ensures var kept := Without(list, id, metaType);
            Without(kept + [added], id, metaType) == kept && Without([], id, metaType) == [] && kept != kept + [added]
  {
    var kept := Without(list, id, metaType);
    WithoutIsExact(list, id, metaType);
    WithoutNothing(kept, id, metaType);
    WithoutTwice(kept, [added], id, metaType);
    OneIsTakenOut(added, id, metaType);
    assert kept + [] == kept && |kept + [added]| == |kept| + 1;
  }

  /** What has been taken out is not in any part of the rest. */
  lemma PrefixKept(list: seq<Record>, read: seq<Record>, id: u64, metaType: u8)
    requires read <= Without(list, id, metaType)
    ensures Without(read, id, metaType) == read
  {
    WithoutIsExact(list, id, metaType);
    WithoutNothing(read, id, metaType);
    forall r | r in read
      ensures r in Without(list, id, metaType)
    {
      var i :| 0 <= i < |read| && read[i] == r;
      assert Without(list, id, metaType)[i] == r;
    }
  }

  lemma OneIsTakenOut(r: Record, id: u64, metaType: u8)
    requires Same(r, id, metaType)
    ensures Without([r], id, metaType) == []
  {
  }

  // ----- what a commit stores -----

  /** Writing a placeholder from its start, piece by piece. */
  ghost function WriteAll(h: Horizon, pieces: seq<bytes>): (r: Reply<Horizon>)
    decreases |pieces|
  {
    if pieces == [] then Reply(true, h)
    else
      var r := ContentWrite(h, pieces[0]);
      if r.ok then WriteAll(r.user, pieces[1..]) else r
  }

  /** The open placeholder holds `data`, the rest of its declared size is still zero. */
  ghost predicate Holds(h: Horizon, data: bytes, size: nat) {
    && h.placeholderOpen && h.placeholder in h.console.placeholders
    && |data| <= size < U64_LIMIT && h.writeOffset == |data|
    && h.console.placeholders[h.placeholder] == data + Zeros(size - |data|)
  }

  lemma {:induction false} WritesArrive(h: Horizon, data: bytes, size: nat, pieces: seq<bytes>)
    requires Holds(h, data, size) && WriteAll(h, pieces).ok
    ensures var t := WriteAll(h, pieces).user; Holds(t, data + Joined(pieces), size) && t.contentId == h.contentId
    decreases |pieces|
  {
    hide Advance, Zeros;
    if pieces == [] {
      assert data + [] == data;
    } else {
      var c := pieces[0];
      WriteArrives(h, data, size, c);
      WritesArrive(ContentWrite(h, c).user, data + c, size, pieces[1..]);
      assert data + c + Joined(pieces[1..]) == data + (c + Joined(pieces[1..]));
    }
  }

  lemma WriteArrives(h: Horizon, data: bytes, size: nat, c: bytes)
    requires Holds(h, data, size) && ContentWrite(h, c).ok
    ensures Holds(ContentWrite(h, c).user, data + c, size) && ContentWrite(h, c).user.contentId == h.contentId
  {
    AdvanceTwice(h.writeOffset, |c|, 0);
    assert Overwrite(data + Zeros(size - |data|), |data|, c) == data + c + Zeros(size - |data + c|);
  }

  /** Begin, write and commit store exactly the written bytes under the content's id when they fill the declared size. */
  lemma CommitStoresWritten(h: Horizon, id: bytes, size: u64, pieces: seq<bytes>)
    requires ContentBegin(h, id, size).ok
    requires WriteAll(ContentBegin(h, id, size).user, pieces).ok
    requires ContentCommit(WriteAll(ContentBegin(h, id, size).user, pieces).user).ok
    requires |Joined(pieces)| == size
    ensures var t := ContentCommit(WriteAll(ContentBegin(h, id, size).user, pieces).user).user;
            id in t.console.contents && t.console.contents[id] == Joined(pieces)
  {
    hide WriteAll, Cleared;
    var b := ContentBegin(h, id, size).user;
    assert Holds(b, [], size) && b.contentId == id by { BeginHolds(h, id, size); }
    WritesArrive(b, [], size, pieces);
    var w := WriteAll(b, pieces).user;
    assert [] + Joined(pieces) == Joined(pieces) && Joined(pieces) + Zeros(0) == Joined(pieces);
    ClearedPlaceholders(w);
  }

  lemma BeginHolds(h: Horizon, id: bytes, size: u64)
    requires ContentBegin(h, id, size).ok
    ensures Holds(ContentBegin(h, id, size).user, [], size) && ContentBegin(h, id, size).user.contentId == id
  {
    assert [] + Zeros(size) == Zeros(size);
  }

  lemma ClearedPlaceholders(h: Horizon)
    ensures Cleared(h).placeholders == h.console.placeholders
  {
  }
}
