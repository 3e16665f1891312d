/** What the three content hooks keep holds of the backend in every run, until the install fails. */
module HookInvariant {
  import opened Bytes
  import opened EntryNames
  import opened InstallSpec
  import opened ChunkIndependence
  import Pfs = PartitionFs

  ghost predicate Kept<S(!new)>(ops: BackendOps<S>, holds: S -> bool) {
    && (forall s: S, id: bytes, size: u64 {:trigger ops.contentBegin(s, id, size)} :: holds(s) ==> holds(ops.contentBegin(s, id, size).user))
    && (forall s: S, data: bytes {:trigger ops.contentWrite(s, data)} :: holds(s) ==> holds(ops.contentWrite(s, data).user))
    && (forall s: S {:trigger ops.contentCommit(s)} :: holds(s) ==> holds(ops.contentCommit(s).user))
  }

  ghost predicate Good<S, D>(s: State<S, D>, holds: S -> bool) {
    s.stage.Failed? || holds(s.user)
  }

  lemma SinkKeeps<S(!new), D>(env: Env<S, D>, holds: S -> bool, s: State<S, D>, em: Emission)
    requires Kept(env.ops, holds) && holds(s.user) && s.cursor < |s.entries|
    ensures holds(Sink(env, s, em).0.user)
  {
    hide Advance;
    var (t, open) := OpenForSink(env, s, em.size);
    assert holds(t.user) by { OpenForKeeps(env, holds, s, em.size); }
  }

  lemma OpenForKeeps<S(!new), D>(env: Env<S, D>, holds: S -> bool, s: State<S, D>, size: u64)
    requires Kept(env.ops, holds) && holds(s.user) && s.cursor < |s.entries|
    ensures holds(OpenForSink(env, s, size).0.user)
  {
  }

  lemma {:induction false} RunSinkKeeps<S(!new), D>(env: Env<S, D>, holds: S -> bool, s: State<S, D>, ems: seq<Emission>)
    requires Kept(env.ops, holds) && holds(s.user) && s.cursor < |s.entries|
    ensures holds(RunSink(env, s, ems).0.user)
    decreases |ems|
  {
    hide Kept, Sink;
    if ems != [] {
      SinkKeeps(env, holds, s, ems[0]);
      var (t, ok) := Sink(env, s, ems[0]);
      if ok {
        SinkShape(env, s, ems[0]);
        RunSinkKeeps(env, holds, t, ems[1..]);
      }
    }
  }

  lemma RouteKeeps<S(!new), D>(env: Env<S, D>, holds: S -> bool, s: State<S, D>, data: bytes)
    requires Kept(env.ops, holds) && holds(s.user) && s.cursor < |s.entries| && (IsCompressed(s.entries[s.cursor].kind) ==> env.ncz.Some?)
    ensures Good(Route(env, s, data), holds)
  {
    hide Fail, RunSink, Advance;
    if IsCompressed(s.entries[s.cursor].kind) {
      var r := env.ncz.value.feed(s.nczUser, data);
      RunSinkKeeps(env, holds, s, r.emissions);
      FailedIs(env, RunSink(env, s, r.emissions).0.(nczUser := r.user), BadNcz);
    } else {
      FailedIs(env, WriteContent(env, s, data).0, BackendError);
      FailedIs(env, s, BufferTooSmall);
    }
  }

  lemma FailedIs<S, D>(env: Env<S, D>, s: State<S, D>, v: Verdict)
    ensures Fail(env, s, v).stage.Failed?
  {
  }

  lemma OpenKeeps<S(!new), D>(env: Env<S, D>, holds: S -> bool, s: State<S, D>)
    requires Kept(env.ops, holds) && holds(s.user) && s.cursor < |s.entries| && (s.nczActive ==> env.ncz.Some?)
    ensures Good(OpenEntry(env, s), holds)
  {
    hide Fail;
    var e := s.entries[s.cursor];
    FailedIs(env, s, NoDecompressor);
    if IsCompressed(e.kind) {
      if !s.nczActive && env.ncz.Some? {
        FailedIs(env, s.(nczUser := env.ncz.value.begin(s.nczUser).user), BadNcz);
      }
    } else {
      FailedIs(env, s.(user := env.ops.contentBegin(s.user, e.contentId, e.size).user), BackendError);
    }
  }

  lemma CloseKeeps<S(!new), D>(env: Env<S, D>, holds: S -> bool, s: State<S, D>)
    requires Kept(env.ops, holds) && holds(s.user) && s.cursor < |s.entries| && (s.nczActive ==> env.ncz.Some?)
    ensures Good(CloseEntry(env, s), holds)
  {
    hide Fail;
    if s.nczActive {
      FailedIs(env, s.(nczUser := env.ncz.value.end(s.nczUser).user), BadNcz);
    }
    var t := if s.nczActive then EndDecoder(env, s) else s;
    if !t.stage.Failed? {
      FailedIs(env, t.(user := env.ops.contentCommit(t.user).user), BackendError);
    }
  }

  lemma EntryKeeps<S(!new), D>(env: Env<S, D>, holds: S -> bool, s: State<S, D>, chunk: bytes)
    requires Kept(env.ops, holds) && holds(s.user) && s.stage.Streaming? && s.cursor < |s.entries| && (s.nczActive ==> env.ncz.Some?)
    ensures Good(StepEntry(env, s, chunk), holds)
  {
    hide Kept, OpenEntry, Route, CloseEntry, EntryEnd, Advance;
    OpenKeeps(env, holds, s);
    var t := OpenEntry(env, s);
    if !t.stage.Failed? {
      if chunk != [] {
        RouteKeeps(env, holds, t, chunk);
      }
      var u := Consume(env, t, chunk);
      if !u.stage.Failed? && u.streamPos >= EntryEnd(s.entries[s.cursor]) {
        CloseKeeps(env, holds, u);
      }
    }
  }

  lemma RoundKeeps<S(!new), D>(env: Env<S, D>, holds: S -> bool, s: State<S, D>, data: bytes)
    requires Kept(env.ops, holds) && holds(s.user) && Valid(env, s) && !s.stage.Failed?
    ensures Good(Iter(env, s, data).0, holds)
  {
    hide Kept, StepEntry, EntryEnd, Advance, Fail, Pfs.PeekHeaderSize, Pfs.Parse, Pfs.ValidContext, BuildEntries;
    match s.stage
    case Magic =>
      var t := Absorb(s, data[..Min(|data|, Pfs.HEADER_SIZE - |s.header|)]);
      FailedIs(env, t, BadContainer);
      match Pfs.PeekHeaderSize(t.header) {
        case Err(_) =>
        case Ok((_, size)) => FailedIs(env, t.(headerSize := size), HeaderTooLarge);
      }
    case Header =>
      var t := Absorb(s, data[..Min(|data|, s.headerSize - |s.header|)]);
      ContainerKeeps(env, holds, t);
    case Streaming =>
      if s.cursor < |s.entries| && s.streamPos >= s.entries[s.cursor].absOffset {
        EntryKeeps(env, holds, s, data[..Min(|data|, Sub64(EntryEnd(s.entries[s.cursor]), s.streamPos))]);
      }
    case Complete =>
  }

  lemma ContainerKeeps<S(!new), D>(env: Env<S, D>, holds: S -> bool, s: State<S, D>)
    requires holds(s.user)
    ensures Good(OpenContainer(env, s), holds)
  {
    hide Fail, Pfs.Parse, Pfs.ValidContext, BuildEntries;
    FailedIs(env, s, BadContainer);
    if Pfs.Parse(s.header).Ok? {
      BuildShape(s, Pfs.Parse(s.header).value);
      var (b, v) := BuildEntries(s, Pfs.Parse(s.header).value);
      if v.Some? {
        FailedIs(env, b, v.value);
      }
    }
  }

  lemma {:induction false} FeedKeeps<S(!new), D>(env: Env<S, D>, holds: S -> bool, s: State<S, D>, data: bytes)
    requires Kept(env.ops, holds) && Good(s, holds) && Valid(env, s)
    ensures Good(Feed(env, s, data), holds)
    decreases |data|, StageRank(s.stage), EntriesLeft(s)
  {
    hide Kept, Valid, Iter;
    if data != [] && !s.stage.Failed? {
      IterProgress(env, s, data);
      RoundKeeps(env, holds, s, data);
      var (t, used) := Iter(env, s, data);
      FeedKeeps(env, holds, t, data[used..]);
    }
  }

  /** What every content hook keeps holds after any feeds, as long as none has failed. */
  lemma {:induction false} EveryRunKeeps<S(!new), D>(env: Env<S, D>, holds: S -> bool, s: State<S, D>, chunks: seq<bytes>)
    requires Kept(env.ops, holds) && Good(s, holds) && Valid(env, s)
    ensures Good(FeedAll(env, s, chunks), holds)
    decreases |chunks|
  {
    hide Kept, Valid, Feed, Good;
    if chunks != [] {
      FeedKeeps(env, holds, s, chunks[0]);
      EveryRunKeeps(env, holds, Feed(env, s, chunks[0]), chunks[1..]);
    }
  }
}
