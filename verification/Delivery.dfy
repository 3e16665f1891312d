/**
 * Where the bytes go. For a container whose entries do not overlap, what has been committed, buffered or
 * written so far is exactly the stream's own bytes, entry by entry, whatever the cuts and the backend.
 */
module Delivery {
  import opened Bytes
  import opened EntryNames
  import opened InstallSpec
  import opened InstallTrace
  import opened ChunkIndependence
  import opened EntryTable
  import Pfs = PartitionFs

  /** Entries lie behind the header, in order, apart, and inside the 64-bit range. */
  ghost predicate DisjointEntries(es: seq<Entry>, from: nat) {
    && (forall i :: 0 <= i < |es| ==> from <= es[i].absOffset && es[i].absOffset + es[i].size < U64_LIMIT)
    && (forall i :: 0 < i < |es| ==> es[i - 1].absOffset + es[i - 1].size <= es[i].absOffset)
  }

  ghost predicate DisjointStream(stream: bytes) {
    Layout(stream).Some? ==> DisjointEntries(Layout(stream).value.0, Layout(stream).value.1)
  }

  /** The bytes of entry `e` that have arrived. */
  function Arrived(e: Entry, stream: bytes): bytes {
    if |stream| <= e.absOffset then []
    else stream[e.absOffset..Min(|stream|, e.absOffset + e.size)]
  }

  /** The bytes of all entries of one kind, in stream order. */
  function Gathered(kind: Kind, es: seq<Entry>, stream: bytes): bytes {
    if es == [] then []
    else Gathered(kind, es[..|es| - 1], stream) + (if es[|es| - 1].kind == kind then Arrived(es[|es| - 1], stream) else [])
  }

  /**
   * `stored` is one placeholder for every content entry of `es`, in order: a plain one holds its id, its
   * declared size and its bytes; a compressed one holds its id, and may be missing when its decoder emitted nothing.
   */
  ghost predicate StoredIs(stored: seq<Placeholder>, es: seq<Entry>, stream: bytes) {
    if es == [] then stored == []
    else
      var e, rest := es[|es| - 1], es[..|es| - 1];
      if IsCompressed(e.kind) then
        StoredIs(stored, rest, stream)
        || (stored != [] && stored[|stored| - 1].id == e.contentId && StoredIs(stored[..|stored| - 1], rest, stream))
      else if IsContent(e.kind) then
        && stored != [] && stored[|stored| - 1] == Placeholder(e.contentId, e.size, Arrived(e, stream))
        && StoredIs(stored[..|stored| - 1], rest, stream)
      else StoredIs(stored, rest, stream)
  }

  /** All entries of `es` have arrived in full. */
  ghost predicate Past(es: seq<Entry>, stream: bytes) {
    forall i :: 0 <= i < |es| ==> es[i].absOffset + es[i].size <= |stream|
  }

  /** The placeholder of the entry being streamed holds what has arrived of it. */
  ghost predicate OpenIs(open: Option<Placeholder>, e: Entry, stream: bytes) {
    if IsCompressed(e.kind) then open.Some? ==> open.value.id == e.contentId
    else if IsContent(e.kind) then
      if open.Some? then open.value == Placeholder(e.contentId, e.size, Arrived(e, stream)) else |stream| <= e.absOffset
    else open.None?
  }

  /** The ticket or certificate buffer, with the current entry's part when it belongs there. */
  function Buffered(kind: Kind, es: seq<Entry>, cursor: nat, stream: bytes): bytes
    requires cursor <= |es|
  {
    if cursor < |es| then Gathered(kind, es[..cursor + 1], stream) else Gathered(kind, es, stream)
  }

  ghost predicate InEntries<S, D>(s: State<Traced<S>, D>, stream: bytes) {
    && DisjointEntries(s.entries, s.headerSize)
    && s.cursor <= |s.entries|
    && Past(s.entries[..s.cursor], stream)
    && StoredIs(Run(s.user.log).stored, s.entries[..s.cursor], stream)
    && s.tik == Buffered(Ticket, s.entries, s.cursor, stream)
    && s.cert == Buffered(Cert, s.entries, s.cursor, stream)
    && (s.cursor < |s.entries| ==>
          && |stream| <= s.entries[s.cursor].absOffset + s.entries[s.cursor].size
          && OpenIs(Run(s.user.log).open, s.entries[s.cursor], stream))
  }

  /** Everything a run that has not failed owes to the stream it has been fed. */
  ghost predicate Delivered<S, D>(s: State<Traced<S>, D>, stream: bytes) {
    && InStep(s)
    && s.streamPos == |stream|
    && match s.stage
       case Magic => s.header == stream && Unstarted(s)
       case Header => s.header == stream && Unstarted(s) && Pfs.HEADER_SIZE <= |stream|
                      && Pfs.PeekHeaderSize(stream).Ok? && Pfs.PeekHeaderSize(stream).value.1 == s.headerSize
       case Streaming => s.cursor < |s.entries| && InEntries(s, stream) && MetaListed(s)
                         && (|stream| < s.entries[s.cursor].absOffset + s.entries[s.cursor].size || s.entries[s.cursor].size == 0)
       case Complete => s.cursor == |s.entries| && InEntries(s, stream) && MetaListed(s)
       case Failed(_) => false
  }

  /** The meta content the installer will ask for is one of the entries. */
  ghost predicate MetaListed<S, D>(s: State<S, D>) {
    exists e :: e in s.entries && IsMeta(e.kind) && e.contentId == s.metaId
  }

  ghost predicate Unstarted<S, D>(s: State<Traced<S>, D>) {
    s.entries == [] && s.tik == [] && s.cert == [] && Run(s.user.log).stored == []
  }

  // ----- a longer stream changes nothing that has arrived -----

  lemma ArrivedStays(e: Entry, stream: bytes, more: bytes)
    requires e.absOffset + e.size <= |stream|
    ensures Arrived(e, stream + more) == Arrived(e, stream)
  {
  }

  lemma {:induction false} PastStays(stored: seq<Placeholder>, es: seq<Entry>, stream: bytes, more: bytes)
    requires Past(es, stream)
    ensures Past(es, stream + more)
    ensures StoredIs(stored, es, stream) ==> StoredIs(stored, es, stream + more)
    ensures forall kind :: Gathered(kind, es, stream + more) == Gathered(kind, es, stream)
    decreases |es|
  {
    if es != [] {
      var e, rest := es[|es| - 1], es[..|es| - 1];
      ArrivedStays(e, stream, more);
      PastStays(stored, rest, stream, more);
      if stored != [] {
        PastStays(stored[..|stored| - 1], rest, stream, more);
      }
    }
  }

  lemma ArrivedGrows(e: Entry, stream: bytes, chunk: bytes)
    requires e.absOffset <= |stream| && |stream| + |chunk| <= e.absOffset + e.size
    ensures Arrived(e, stream + chunk) == Arrived(e, stream) + chunk
  {
  }

  lemma GatheredSplit(kind: Kind, es: seq<Entry>, i: nat, stream: bytes)
    requires i < |es|
    ensures Gathered(kind, es[..i + 1], stream) ==
              Gathered(kind, es[..i], stream) + (if es[i].kind == kind then Arrived(es[i], stream) else [])
  {
    assert es[..i + 1][..i] == es[..i];
  }

  // ----- what the hooks do to the record -----

  lemma WriteRecord<S, D>(env: Env<S, D>, s: State<Traced<S>, D>, data: bytes)
    requires Run(s.user.log).open.Some?
    ensures var (t, ok) := WriteContent(TracedEnv(env), s, data);
            var p, q := Run(s.user.log), Run(t.user.log);
            && q.stored == p.stored
            && (ok ==> q.open == Some(p.open.value.(data := p.open.value.data + data)))
            && (!ok ==> q.open == p.open)
  {
    hide Run, Advance;
    RunStep(s.user.log, Wrote(data, env.ops.contentWrite(s.user.inner, data).ok));
  }

  lemma BeginRecord<S, D>(env: Env<S, D>, u: Traced<S>, id: bytes, size: u64)
    ensures var r := TracedEnv(env).ops.contentBegin(u, id, size);
            && Run(r.user.log).stored == Run(u.log).stored
            && Run(r.user.log).open == if r.ok then Some(Placeholder(id, size, [])) else Run(u.log).open
  {
    hide Run;
    RunStep(u.log, Began(id, size, env.ops.contentBegin(u.inner, id, size).ok));
  }

  lemma CommitRecord<S, D>(env: Env<S, D>, u: Traced<S>)
    requires Run(u.log).open.Some?
    ensures var r := TracedEnv(env).ops.contentCommit(u);
            r.ok ==> Run(r.user.log).stored == Run(u.log).stored + [Run(u.log).open.value] && Run(r.user.log).open.None?
  {
    hide Run;
    RunStep(u.log, Committed(env.ops.contentCommit(u.inner).ok));
  }

  /** The sink of a compressed entry stores nothing and opens a placeholder of the entry's own id only. */
  ghost predicate SinkKeeps(before: Phase, after: Phase, id: bytes) {
    && after.stored == before.stored
    && ((before.open.Some? ==> before.open.value.id == id) ==> (after.open.Some? ==> after.open.value.id == id))
  }

  lemma SinkRecord<S, D>(env: Env<S, D>, s: State<Traced<S>, D>, em: Emission)
    requires InStep(s) && s.stage.Streaming? && s.cursor < |s.entries|
    ensures SinkKeeps(Run(s.user.log), Run(Sink(TracedEnv(env), s, em).0.user.log), s.entries[s.cursor].contentId)
  {
    hide InStep, Run, WriteContent, TracedEnv;
    OpenIsFlag(s);
    if !s.contentOpen && em.size != 0 {
      BeginRecord(env, s.user, s.entries[s.cursor].contentId, em.size);
      BeginInStep(env, s, s.entries[s.cursor].contentId, em.size);
    }
    var (t, open) := OpenForSink(TracedEnv(env), s, em.size);
    if open {
      OpenIsFlag(t);
      WriteRecord(env, t, em.data);
    }
  }

  lemma OpenIsFlag<S, D>(s: State<Traced<S>, D>)
    requires InStep(s)
    ensures Run(s.user.log).open.Some? == s.contentOpen
  {
  }

  lemma {:induction false} RunSinkRecord<S, D>(env: Env<S, D>, s: State<Traced<S>, D>, ems: seq<Emission>)
    requires InStep(s) && s.stage.Streaming? && s.cursor < |s.entries|
    ensures SinkKeeps(Run(s.user.log), Run(RunSink(TracedEnv(env), s, ems).0.user.log), s.entries[s.cursor].contentId)
    decreases |ems|
  {
    hide InStep, Run, Sink, TracedEnv;
    if ems != [] {
      SinkRecord(env, s, ems[0]);
      SinkInStep(env, s, ems[0]);
      var (t, ok) := Sink(TracedEnv(env), s, ems[0]);
      if ok {
        RunSinkRecord(env, t, ems[1..]);
      }
    }
  }

  // ----- one visit to an entry -----

  /** The current entry is open for its bytes. */
  ghost predicate Ready<S, D>(s: State<Traced<S>, D>, stream: bytes) {
    && InStep(s) && s.stage.Streaming? && s.cursor < |s.entries| && InEntries(s, stream)
    && s.entries[s.cursor].absOffset <= |stream|
    && (IsContent(s.entries[s.cursor].kind) && !IsCompressed(s.entries[s.cursor].kind) ==> s.contentOpen)
  }

  /** Moving the record on without touching the rest keeps what is owed. */
  lemma SameEntries<S, D>(s: State<Traced<S>, D>, t: State<Traced<S>, D>, stream: bytes)
    requires InEntries(s, stream)
    requires t.entries == s.entries && t.headerSize == s.headerSize && t.cursor == s.cursor && t.tik == s.tik && t.cert == s.cert
    requires Run(t.user.log).stored == Run(s.user.log).stored
    requires s.cursor < |s.entries| ==> OpenIs(Run(t.user.log).open, s.entries[s.cursor], stream)
    ensures InEntries(t, stream)
  {
    hide Run, StoredIs, Buffered, Past, DisjointEntries, OpenIs;
  }

  lemma OpenDelivered<S, D>(env: Env<S, D>, s: State<Traced<S>, D>, stream: bytes)
    requires InStep(s) && s.stage.Streaming? && s.cursor < |s.entries| && InEntries(s, stream) && (s.nczActive ==> env.ncz.Some?)
    requires s.entries[s.cursor].absOffset <= |stream|
    ensures var t := OpenEntry(TracedEnv(env), s); !t.stage.Failed? ==> Ready(t, stream)
  {
    hide InStep, Run, InEntries, TracedOps;
    OpenInStep(env, s);
    OpenShape(TracedEnv(env), s);
    var e := s.entries[s.cursor];
    var t := OpenEntry(TracedEnv(env), s);
    if !t.stage.Failed? {
      if !IsCompressed(e.kind) && !s.contentOpen && IsContent(e.kind) {
        BeginRecord(env, s.user, e.contentId, e.size);
        OpenIsFlag(s);
        NothingArrived(s, stream);
      }
      OpenOf(s, stream);
      SameEntries(s, t, stream);
    }
  }

  lemma OpenOf<S, D>(s: State<Traced<S>, D>, stream: bytes)
    requires InEntries(s, stream) && s.cursor < |s.entries|
    ensures OpenIs(Run(s.user.log).open, s.entries[s.cursor], stream)
  {
    hide Run, StoredIs, Buffered, Past, DisjointEntries, OpenIs;
  }

  lemma NothingArrived<S, D>(s: State<Traced<S>, D>, stream: bytes)
    requires InEntries(s, stream) && s.cursor < |s.entries| && Run(s.user.log).open.None?
    requires s.entries[s.cursor].absOffset <= |stream|
    requires IsContent(s.entries[s.cursor].kind) && !IsCompressed(s.entries[s.cursor].kind)
    ensures var e := s.entries[s.cursor]; OpenIs(Some(Placeholder(e.contentId, e.size, [])), e, stream)
  {
    hide Run, StoredIs, Buffered, Past, DisjointEntries;
  }

  /** Bytes of a plain content, a ticket or a certificate land where they are owed. */
  lemma MoreArrives<S, D>(s: State<Traced<S>, D>, t: State<Traced<S>, D>, stream: bytes, chunk: bytes)
    requires Ready(s, stream) && |stream| + |chunk| <= s.entries[s.cursor].absOffset + s.entries[s.cursor].size
    requires t.entries == s.entries && t.headerSize == s.headerSize && t.cursor == s.cursor
    requires Run(t.user.log).stored == Run(s.user.log).stored
    requires t.tik == if s.entries[s.cursor].kind == Ticket then s.tik + chunk else s.tik
    requires t.cert == if s.entries[s.cursor].kind == Cert then s.cert + chunk else s.cert
    requires OpenIs(Run(t.user.log).open, s.entries[s.cursor], stream + chunk)
    ensures InEntries(t, stream + chunk)
  {
    hide Run, StoredIs, OpenIs, DisjointEntries, InStep, Arrived, Past, Gathered, Buffered;
    PastStays(Run(s.user.log).stored, s.entries[..s.cursor], stream, chunk);
    BufferGrows(Ticket, s.entries, s.cursor, stream, chunk);
    BufferGrows(Cert, s.entries, s.cursor, stream, chunk);
  }

  /** The current entry's bytes go to the buffer of its kind and to no other. */
  lemma BufferGrows(kind: Kind, es: seq<Entry>, i: nat, stream: bytes, chunk: bytes)
    requires i < |es| && Past(es[..i], stream) && es[i].absOffset <= |stream| && |stream| + |chunk| <= es[i].absOffset + es[i].size
    ensures Buffered(kind, es, i, stream + chunk) == if es[i].kind == kind then Buffered(kind, es, i, stream) + chunk else Buffered(kind, es, i, stream)
  {
    hide Arrived, Past, Gathered;
    PastStays([], es[..i], stream, chunk);
    GatheredSplit(kind, es, i, stream);
    GatheredSplit(kind, es, i, stream + chunk);
    ArrivedGrows(es[i], stream, chunk);
  }

  lemma RouteDelivered<S, D>(env: Env<S, D>, s: State<Traced<S>, D>, stream: bytes, chunk: bytes)
    requires Ready(s, stream) && |stream| + |chunk| <= s.entries[s.cursor].absOffset + s.entries[s.cursor].size
    requires IsCompressed(s.entries[s.cursor].kind) ==> env.ncz.Some?
    ensures var t := Route(TracedEnv(env), s, chunk); !t.stage.Failed? ==> InEntries(t, stream + chunk) && InStep(t)
  {
    hide InStep, Run, InEntries, TracedOps, WriteContent, FeedDecoder;
    RouteInStep(env, s, chunk);
    RouteShape(TracedEnv(env), s, chunk);
    var t := Route(TracedEnv(env), s, chunk);
    if !t.stage.Failed? {
      var e := s.entries[s.cursor];
      OpenIsFlag(s);
      OpenOf(s, stream);
      if IsCompressed(e.kind) {
        FeedRecord(env, s, chunk);
        FeedBuffers(TracedEnv(env), s, chunk);
        CompressedOpen(Run(s.user.log), Run(t.user.log), e, stream, chunk);
      } else if e.kind.Nca? || e.kind.MetaNca? {
        WriteRecord(env, s, chunk);
        WriteShape(TracedEnv(env), s, chunk);
        PlainOpen(Run(s.user.log).open, e, stream, chunk);
      } else {
        OtherOpen(Run(s.user.log).open, e, stream, chunk);
      }
      MoreArrives(s, t, stream, chunk);
    }
  }

  lemma FeedBuffers<S, D>(env: Env<S, D>, s: State<S, D>, chunk: bytes)
    requires s.cursor < |s.entries| && env.ncz.Some?
    ensures var t := FeedDecoder(env, s, chunk); t.tik == s.tik && t.cert == s.cert
  {
    hide RunSink;
    RunSinkShape(env, s, env.ncz.value.feed(s.nczUser, chunk).emissions);
  }

  lemma FeedRecord<S, D>(env: Env<S, D>, s: State<Traced<S>, D>, chunk: bytes)
    requires InStep(s) && s.stage.Streaming? && s.cursor < |s.entries| && env.ncz.Some?
    ensures var t := FeedDecoder(TracedEnv(env), s, chunk);
            !t.stage.Failed? ==> SinkKeeps(Run(s.user.log), Run(t.user.log), s.entries[s.cursor].contentId)
  {
    hide InStep, Run, RunSink, TracedOps, SinkKeeps;
    RunSinkRecord(env, s, env.ncz.value.feed(s.nczUser, chunk).emissions);
  }

  lemma CompressedOpen(before: Phase, after: Phase, e: Entry, stream: bytes, chunk: bytes)
    requires IsCompressed(e.kind) && OpenIs(before.open, e, stream) && SinkKeeps(before, after, e.contentId)
    ensures OpenIs(after.open, e, stream + chunk) && after.stored == before.stored
  {
  }

  lemma PlainOpen(open: Option<Placeholder>, e: Entry, stream: bytes, chunk: bytes)
    requires IsContent(e.kind) && !IsCompressed(e.kind) && OpenIs(open, e, stream) && open.Some?
    requires e.absOffset <= |stream| && |stream| + |chunk| <= e.absOffset + e.size
    ensures OpenIs(Some(open.value.(data := open.value.data + chunk)), e, stream + chunk)
  {
    ArrivedGrows(e, stream, chunk);
    hide Arrived;
  }

  lemma OtherOpen(open: Option<Placeholder>, e: Entry, stream: bytes, chunk: bytes)
    requires !IsContent(e.kind) && OpenIs(open, e, stream)
    ensures OpenIs(open, e, stream + chunk)
  {
  }

  /** A finished entry is stored, and the next one has not begun. */
  lemma CloseDelivered<S, D>(env: Env<S, D>, s: State<Traced<S>, D>, stream: bytes)
    requires Ready(s, stream) && (s.nczActive ==> env.ncz.Some?)
    requires |stream| == s.entries[s.cursor].absOffset + s.entries[s.cursor].size
    ensures var t := CloseEntry(TracedEnv(env), s);
            !t.stage.Failed? ==> InEntries(t, stream) && InStep(t) && t.cursor == s.cursor + 1
                                 && t.stage == (if t.cursor >= |t.entries| then Complete else Streaming)
                                 && (t.cursor < |t.entries| ==> |stream| <= t.entries[t.cursor].absOffset)
  {
    hide InStep, Run, InEntries, TracedOps, EndDecoder, Commit;
    CloseInStep(env, s);
    CloseShape(TracedEnv(env), s);
    OpenIsFlag(s);
    var a := if s.nczActive then EndDecoder(TracedEnv(env), s) else s;
    if s.nczActive {
      EndRecord(env, s);
    }
    if !a.stage.Failed? {
      var t := CloseEntry(TracedEnv(env), s);
      if !t.stage.Failed? {
        if a.contentOpen {
          CommitLogs(env, a);
          CommitRecord(env, a.user);
        }
        MovedOn(s, t, stream);
      }
    }
  }

  lemma EndRecord<S, D>(env: Env<S, D>, s: State<Traced<S>, D>)
    requires s.cursor < |s.entries| && env.ncz.Some?
    ensures var a := EndDecoder(TracedEnv(env), s); !a.stage.Failed? ==> a.user == s.user && a.contentOpen == s.contentOpen
  {
  }

  lemma CommitLogs<S, D>(env: Env<S, D>, s: State<Traced<S>, D>)
    ensures var r := TracedEnv(env).ops.contentCommit(s.user);
            var t := Commit(TracedEnv(env), s);
            if r.ok then t.user == r.user && t == s.(user := r.user, contentOpen := false) else t.stage.Failed?
  {
    hide TracedOps;
  }

  /** The bookkeeping of moving on: the finished entry's placeholder joins the stored ones. */
  lemma MovedOn<S, D>(s: State<Traced<S>, D>, t: State<Traced<S>, D>, stream: bytes)
    requires Ready(s, stream) && |stream| == s.entries[s.cursor].absOffset + s.entries[s.cursor].size
    requires t.entries == s.entries && t.headerSize == s.headerSize && t.cursor == s.cursor + 1 && t.tik == s.tik && t.cert == s.cert
    requires var p, q := Run(s.user.log), Run(t.user.log);
             q.open.None? && q.stored == if p.open.Some? then p.stored + [p.open.value] else p.stored
    ensures InEntries(t, stream) && (t.cursor < |t.entries| ==> |stream| <= t.entries[t.cursor].absOffset)
  {
    hide Run, StoredIs, DisjointEntries, InStep, Arrived, OpenIs, Past, Gathered;
    var i := s.cursor;
    var p := Run(s.user.log);
    assert p.open.Some? == s.contentOpen by { OpenIsFlag(s); }
    StoredOneMore(p.stored, p.open, s.entries, i, stream);
    PastOneMore(s.entries, i, stream);
    assert s.entries[..|s.entries|] == s.entries;
    if t.cursor < |t.entries| {
      NextIsAhead(s.entries, i, s.headerSize, stream);
      GatheredAhead(Ticket, s.entries, i + 1, stream);
      GatheredAhead(Cert, s.entries, i + 1, stream);
    }
  }

  lemma StoredOneMore(stored: seq<Placeholder>, open: Option<Placeholder>, es: seq<Entry>, i: nat, stream: bytes)
    requires i < |es| && StoredIs(stored, es[..i], stream) && OpenIs(open, es[i], stream)
    requires IsContent(es[i].kind) && !IsCompressed(es[i].kind) ==> open.Some?
    ensures StoredIs(if open.Some? then stored + [open.value] else stored, es[..i + 1], stream)
  {
    hide Arrived;
    assert es[..i + 1][..i] == es[..i];
    if open.Some? {
      assert (stored + [open.value])[..|stored|] == stored;
    }
  }

  lemma PastOneMore(es: seq<Entry>, i: nat, stream: bytes)
    requires i < |es| && Past(es[..i], stream) && es[i].absOffset + es[i].size <= |stream|
    ensures Past(es[..i + 1], stream)
  {
  }

  lemma NextIsAhead(es: seq<Entry>, i: nat, from: nat, stream: bytes)
    requires i + 1 < |es| && DisjointEntries(es, from) && |stream| == es[i].absOffset + es[i].size
    ensures |stream| <= es[i + 1].absOffset && OpenIs(None, es[i + 1], stream)
  {
  }

  /** An entry that has not begun adds nothing to a buffer. */
  lemma GatheredAhead(kind: Kind, es: seq<Entry>, i: nat, stream: bytes)
    requires i < |es| && |stream| <= es[i].absOffset
    ensures Gathered(kind, es[..i + 1], stream) == Gathered(kind, es[..i], stream)
  {
    GatheredSplit(kind, es, i, stream);
  }

  /** A visit leaves the entry open for its bytes, first at the stream's end, then past the chunk. */
  lemma VisitReady<S, D>(env: Env<S, D>, s: State<Traced<S>, D>, stream: bytes, chunk: bytes)
    requires Delivered(s, stream) && s.stage.Streaming? && (s.nczActive ==> env.ncz.Some?)
    requires s.entries[s.cursor].absOffset <= |stream|
    requires |stream| + |chunk| <= s.entries[s.cursor].absOffset + s.entries[s.cursor].size < U64_LIMIT
    ensures var t := OpenEntry(TracedEnv(env), s);
            !t.stage.Failed? ==>
              && Ready(t, stream)
              && var u := Consume(TracedEnv(env), t, chunk);
                 !u.stage.Failed? ==> Ready(u, stream + chunk)
  {
    hide InStep, InEntries, MetaListed, Run, OpenEntry, Route, TracedOps, Advance;
    OpenDelivered(env, s, stream);
    OpenShape(TracedEnv(env), s);
    var t := OpenEntry(TracedEnv(env), s);
    if !t.stage.Failed? {
      var u := Consume(TracedEnv(env), t, chunk);
      ConsumeShape(TracedEnv(env), t, chunk);
      if chunk == [] {
        assert stream + chunk == stream;
      } else {
        RouteDelivered(env, t, stream, chunk);
        RouteShape(TracedEnv(env), t, chunk);
        var r := Route(TracedEnv(env), t, chunk);
        if !r.stage.Failed? {
          PosInStep(r, Advance(r.streamPos, |chunk|));
          PosInEntries(r, Advance(r.streamPos, |chunk|), stream + chunk);
        }
      }
      if !u.stage.Failed? {
        StillReady(t, u, stream, chunk);
      }
    }
  }

  /** One visit delivers its chunk. */
  lemma EntryDelivered<S, D>(env: Env<S, D>, s: State<Traced<S>, D>, stream: bytes, chunk: bytes)
    requires Delivered(s, stream) && s.stage.Streaming? && (s.nczActive ==> env.ncz.Some?)
    requires s.entries[s.cursor].absOffset <= |stream|
    requires |stream| + |chunk| <= s.entries[s.cursor].absOffset + s.entries[s.cursor].size < U64_LIMIT
    ensures var t := StepEntry(TracedEnv(env), s, chunk); !t.stage.Failed? ==> Delivered(t, stream + chunk)
  {
    hide InStep, InEntries, MetaListed, Run, OpenEntry, Consume, CloseEntry, TracedOps, Advance;
    var e := s.entries[s.cursor];
    VisitReady(env, s, stream, chunk);
    OpenShape(TracedEnv(env), s);
    var t := OpenEntry(TracedEnv(env), s);
    if !t.stage.Failed? {
      var u := Consume(TracedEnv(env), t, chunk);
      ConsumeShape(TracedEnv(env), t, chunk);
      AdvanceTwice(|stream|, |chunk|, 0);
      if !u.stage.Failed? {
        MetaStays(s, u);
        if u.streamPos >= EntryEnd(e) {
          CloseDelivered(env, u, stream + chunk);
          CloseShape(TracedEnv(env), u);
          MetaStays(s, CloseEntry(TracedEnv(env), u));
        }
      }
    }
  }

  lemma MetaStays<S, D>(s: State<S, D>, t: State<S, D>)
    requires MetaListed(s) && t.entries == s.entries && t.metaId == s.metaId
    ensures MetaListed(t)
  {
  }

  lemma PosInEntries<S, D>(s: State<Traced<S>, D>, pos: u64, stream: bytes)
    requires InEntries(s, stream)
    ensures InEntries(s.(streamPos := pos), stream)
  {
    hide Run, StoredIs, Buffered, Past, DisjointEntries, OpenIs;
  }

  /** A placeholder that has been opened for a plain content stays open while its bytes come. */
  lemma StillReady<S, D>(t: State<Traced<S>, D>, u: State<Traced<S>, D>, stream: bytes, chunk: bytes)
    requires Ready(t, stream) && InEntries(u, stream + chunk) && InStep(u) && u.stage.Streaming?
    requires u.entries == t.entries && u.cursor == t.cursor
    requires chunk == [] ==> u == t
    ensures Ready(u, stream + chunk)
  {
    hide Run, StoredIs, Buffered, Past, DisjointEntries, InStep;
    assert u.contentOpen == Run(u.user.log).open.Some? by { OpenIsFlag(u); }
    OpenOf(u, stream + chunk);
    if chunk == [] {
      assert stream + chunk == stream;
    }
  }

  lemma StreamingDelivered<S, D>(env: Env<S, D>, s: State<Traced<S>, D>, stream: bytes, data: bytes)
    requires Delivered(s, stream) && s.stage.Streaming? && Valid(TracedEnv(env), s) && |stream| + |data| < U64_LIMIT
    ensures var (t, used) := StepStreaming(TracedEnv(env), s, data);
            used <= |data| && (!t.stage.Failed? ==> Delivered(t, stream + data[..used]))
  {
    hide InStep, InEntries, Run, StepEntry, TracedOps, Advance;
    var e := s.entries[s.cursor];
    CurrentEntry(s, stream);
    if s.streamPos < e.absOffset {
      var skip := Min(|data|, e.absOffset - s.streamPos);
      AdvanceTwice(|stream|, skip, 0);
      GapDelivered(s, stream, data[..skip]);
    } else {
      var take := Min(|data|, Sub64(EntryEnd(e), s.streamPos));
      EntryDelivered(env, s, stream, data[..take]);
    }
  }

  lemma CurrentEntry<S, D>(s: State<Traced<S>, D>, stream: bytes)
    requires InEntries(s, stream) && s.cursor < |s.entries|
    ensures var e := s.entries[s.cursor]; |stream| <= e.absOffset + e.size < U64_LIMIT
  {
    hide Run, StoredIs, Buffered, Past, OpenIs;
  }

  /** Padding between entries belongs to none of them. */
  lemma GapDelivered<S, D>(s: State<Traced<S>, D>, stream: bytes, gap: bytes)
    requires Delivered(s, stream) && s.stage.Streaming? && |stream| + |gap| <= s.entries[s.cursor].absOffset
    ensures Delivered(s.(streamPos := |stream| + |gap|), stream + gap)
  {
    hide Run, InStep, StoredIs, DisjointEntries, Gathered, Arrived, OpenIs;
    PosInStep(s, |stream| + |gap|);
    PastStays(Run(s.user.log).stored, s.entries[..s.cursor], stream, gap);
    GatheredAhead(Ticket, s.entries, s.cursor, stream);
    GatheredAhead(Ticket, s.entries, s.cursor, stream + gap);
    GatheredAhead(Cert, s.entries, s.cursor, stream);
    GatheredAhead(Cert, s.entries, s.cursor, stream + gap);
    OpenAhead(Run(s.user.log).open, s.entries[s.cursor], stream, gap);
  }

  lemma OpenAhead(open: Option<Placeholder>, e: Entry, stream: bytes, gap: bytes)
    requires OpenIs(open, e, stream) && |stream| + |gap| <= e.absOffset
    ensures OpenIs(open, e, stream + gap)
  {
  }

  lemma CompleteDelivered<S, D>(s: State<Traced<S>, D>, stream: bytes, data: bytes)
    requires Delivered(s, stream) && s.stage.Complete? && |stream| + |data| < U64_LIMIT
    ensures Delivered(s.(streamPos := Advance(s.streamPos, |data|)), stream + data)
  {
    hide Run, InStep, StoredIs, DisjointEntries, Arrived, OpenIs, Advance;
    AdvanceTwice(|stream|, |data|, 0);
    PosInStep(s, |stream| + |data|);
    assert s.entries[..s.cursor] == s.entries;
    PastStays(Run(s.user.log).stored, s.entries, stream, data);
  }

  /** The last meta entry the header lists, in the container's own order. */
  function HeaderMeta(stream: bytes): Option<Entry> {
    match Pfs.PeekHeaderSize(stream)
    case Err(_) => None
    case Ok((_, size)) =>
      if size > MAX_HEADER || |stream| < size then None
      else
        match Pfs.Parse(stream[..size])
        case Err(_) => None
        case Ok(ctx) => LastMeta(Collect(ctx, 0, []).0)
  }

  lemma HeaderMetaStays(stream: bytes, more: bytes)
    ensures HeaderMeta(stream).Some? ==> HeaderMeta(stream + more) == HeaderMeta(stream)
  {
    hide Pfs.PeekHeaderSize, Pfs.Parse, Collect, LastMeta;
    if HeaderMeta(stream).Some? {
      PeekNeedsHeader(stream);
      Pfs.PeekIsLocal(stream, stream + more);
      var size := Pfs.PeekHeaderSize(stream).value.1;
      assert (stream + more)[..size] == stream[..size];
    }
  }

  // ----- the header stages -----

  lemma MagicDelivered<S, D>(env: Env<S, D>, s: State<Traced<S>, D>, stream: bytes, data: bytes)
    requires Delivered(s, stream) && s.stage.Magic? && Valid(TracedEnv(env), s) && |stream| + |data| < U64_LIMIT
    ensures var (t, used) := StepMagic(TracedEnv(env), s, data); !t.stage.Failed? ==> Delivered(t, stream + data[..used])
  {
    hide InStep, Run, TracedOps, Advance, Pfs.PeekHeaderSize;
    MagicInStep(env, s, data);
    AdvanceTwice(|stream|, Min(|data|, Pfs.HEADER_SIZE - |s.header|), 0);
  }

  lemma HeaderDelivered<S, D>(env: Env<S, D>, s: State<Traced<S>, D>, stream: bytes, data: bytes)
    requires Delivered(s, stream) && s.stage.Header? && Valid(TracedEnv(env), s) && |stream| + |data| < U64_LIMIT
    requires DisjointStream(stream + data)
    ensures var (t, used) := StepHeader(TracedEnv(env), s, data); !t.stage.Failed? ==> Delivered(t, stream + data[..used])
  {
    hide InStep, Run, TracedOps, Advance, Pfs.PeekHeaderSize, Pfs.Parse, Collect, LastMeta, SortByOffset,
      DisjointEntries, Fail, InEntries, MetaListed;
    HeaderInStep(env, s, data);
    var used := Min(|data|, s.headerSize - |s.header|);
    AdvanceTwice(|stream|, used, 0);
    var h := stream + data[..used];
    Pfs.PeekIsLocal(stream, h);
    var t := StepHeader(TracedEnv(env), s, data).0;
    if !t.stage.Failed? && |h| == s.headerSize {
      LayoutOfHeader(stream, data, s.headerSize, h);
      TableBuilt(TracedEnv(env), s, data);
      if t.stage.Streaming? {
        NotYetOpen(s);
        EntriesBegin(t, h);
      }
    }
  }

  /** The header is a prefix of the stream, so the stream's layout is the header's. */
  lemma LayoutOfHeader(stream: bytes, data: bytes, size: u64, h: bytes)
    requires |stream| >= Pfs.HEADER_SIZE && Pfs.PeekHeaderSize(stream).Ok? && Pfs.PeekHeaderSize(stream).value.1 == size <= MAX_HEADER
    requires |stream| <= size <= |stream| + |data| && h == stream + data[..size - |stream|]
    ensures Layout(stream + data) == Layout(h) && |h| == size
  {
    hide Pfs.PeekHeaderSize, Pfs.Parse, Collect, LastMeta, SortByOffset;
    Pfs.PeekIsLocal(stream, stream + data);
    Pfs.PeekIsLocal(stream, h);
    assert (stream + data)[..size] == h && h[..size] == h;
  }

  /** When the header stage ends without failing, the table is the layout of the header. */
  lemma TableBuilt<S, D>(env: Env<S, D>, s: State<S, D>, data: bytes)
    requires Valid(env, s) && s.stage.Header?
    requires |s.header| + |data| >= s.headerSize
    requires var h := s.header + data[..s.headerSize - |s.header|];
             Pfs.PeekHeaderSize(h).Ok? && Pfs.PeekHeaderSize(h).value.1 == s.headerSize
    ensures var t := StepHeader(env, s, data).0;
            var h := s.header + data[..s.headerSize - |s.header|];
            !t.stage.Failed? ==>
              && t.stage.Streaming? && t.cursor == 0 && t.entries != []
              && Layout(h) == Some((t.entries, s.headerSize)) && t.headerSize == s.headerSize
              && t.tik == s.tik && t.cert == s.cert && t.user == s.user && t.contentOpen == s.contentOpen && t.nczActive == s.nczActive
              && t.streamPos == Advance(s.streamPos, s.headerSize - |s.header|)
              && MetaListed(t)
              && HeaderMeta(h).Some? && t.metaId == HeaderMeta(h).value.contentId && t.metaSize == HeaderMeta(h).value.size
  {
    hide Advance, Pfs.PeekHeaderSize, Pfs.Parse, Collect, SortByOffset;
    var h := s.header + data[..s.headerSize - |s.header|];
    assert h[..s.headerSize] == h;
    match Pfs.Parse(h)
    case Err(_) =>
    case Ok(ctx) =>
      var es := Collect(ctx, 0, []).0;
      LastMetaIsMember(es);
      if LastMeta(es).Some? {
        SortKeepsMembers(es, LastMeta(es).value);
      }
  }

  lemma EntriesBegin<S, D>(t: State<Traced<S>, D>, h: bytes)
    requires InStep(t) && t.stage.Streaming? && t.cursor == 0 && t.entries != [] && |h| == t.headerSize
    requires DisjointEntries(t.entries, t.headerSize) && t.tik == [] && t.cert == [] && Run(t.user.log).stored == [] && !t.contentOpen
    ensures InEntries(t, h) && |h| <= t.entries[0].absOffset
  {
    hide Run;
    assert t.entries[..0] == [];
    GatheredAhead(Ticket, t.entries, 0, h);
    GatheredAhead(Cert, t.entries, 0, h);
  }

  lemma NotYetOpen<S, D>(s: State<Traced<S>, D>)
    requires InStep(s) && !s.stage.Streaming?
    ensures !s.contentOpen
  {
    hide Run;
  }

  // ----- the main theorem -----

  lemma {:induction false} FeedDelivered<S, D>(env: Env<S, D>, s: State<Traced<S>, D>, stream: bytes, data: bytes)
    requires Delivered(s, stream) && Valid(TracedEnv(env), s) && |stream| + |data| < U64_LIMIT && DisjointStream(stream + data)
    ensures var t := Feed(TracedEnv(env), s, data); !t.stage.Failed? ==> Delivered(t, stream + data)
    decreases |data|, StageRank(s.stage), EntriesLeft(s)
  {
    hide Delivered, Iter, Valid, TracedEnv, DisjointStream;
    if data == [] {
      assert stream + data == stream;
    } else if !s.stage.Failed? {
      RoundDelivered(env, s, stream, data);
      IterProgress(TracedEnv(env), s, data);
      var (t, used) := Iter(TracedEnv(env), s, data);
      if !t.stage.Failed? {
        assert stream + data[..used] + data[used..] == stream + data;
        FeedDelivered(env, t, stream + data[..used], data[used..]);
      }
    }
  }

  lemma RoundDelivered<S, D>(env: Env<S, D>, s: State<Traced<S>, D>, stream: bytes, data: bytes)
    requires Delivered(s, stream) && Valid(TracedEnv(env), s) && !s.stage.Failed?
    requires |stream| + |data| < U64_LIMIT && DisjointStream(stream + data)
    ensures var (t, used) := Iter(TracedEnv(env), s, data);
            used <= |data| && (!t.stage.Failed? ==> Delivered(t, stream + data[..used]))
  {
    hide Delivered, StepMagic, StepHeader, StepStreaming, Valid, TracedEnv, DisjointStream, Advance;
    match s.stage
    case Magic => MagicDelivered(env, s, stream, data);
    case Header => HeaderDelivered(env, s, stream, data);
    case Streaming => StreamingDelivered(env, s, stream, data);
    case Complete =>
      CompleteDelivered(s, stream, data);
      assert data[..|data|] == data;
  }

  lemma {:induction false} ChunksDelivered<S, D>(env: Env<S, D>, s: State<Traced<S>, D>, stream: bytes, chunks: seq<bytes>)
    requires Delivered(s, stream) && Valid(TracedEnv(env), s)
    requires |stream| + |Joined(chunks)| < U64_LIMIT && DisjointStream(stream + Joined(chunks))
    ensures var t := FeedAll(TracedEnv(env), s, chunks); !t.stage.Failed? ==> Delivered(t, stream + Joined(chunks))
    decreases |chunks|
  {
    hide Delivered, Feed, Valid, TracedEnv, DisjointStream;
    if chunks == [] {
      assert stream + [] == stream;
    } else {
      var c, rest := chunks[0], Joined(chunks[1..]);
      assert stream + (c + rest) == stream + c + rest;
      DisjointPrefix(stream + c, rest);
      FeedDelivered(env, s, stream, c);
      var t := Feed(TracedEnv(env), s, c);
      if !t.stage.Failed? {
        ChunksDelivered(env, t, stream + c, chunks[1..]);
      } else {
        FailedStays(TracedEnv(env), t, chunks[1..]);
      }
    }
  }

  /** Once the header is there, more bytes do not change what it describes. */
  lemma LayoutStays(stream: bytes, more: bytes)
    ensures Layout(stream).Some? ==> Layout(stream + more) == Layout(stream)
  {
    hide Pfs.PeekHeaderSize, Pfs.Parse, Collect, LastMeta, SortByOffset;
    if Layout(stream).Some? {
      PeekNeedsHeader(stream);
      Pfs.PeekIsLocal(stream, stream + more);
      var size := Pfs.PeekHeaderSize(stream).value.1;
      assert (stream + more)[..size] == stream[..size];
    }
  }

  /** A stream that is cut short describes the same container, or none yet. */
  lemma DisjointPrefix(stream: bytes, more: bytes)
    requires DisjointStream(stream + more)
    ensures DisjointStream(stream)
  {
    hide DisjointEntries, Layout;
    LayoutStays(stream, more);
  }

  lemma BeginDelivered<S, D>(env: Env<S, D>, user: S, d: D)
    ensures Delivered(Begin(TracedEnv(env), Traced(user, []), d), [])
  {
    StartsInStep(env, user, d);
  }

  /**
   * However the stream is cut, whatever the backend and the decoder do, an install of a container with
   * disjoint entries that has not failed has delivered exactly the stream's bytes.
   */
  lemma EveryByteDelivered<S, D>(env: Env<S, D>, user: S, d: D, chunks: seq<bytes>)
    requires |Joined(chunks)| < U64_LIMIT && DisjointStream(Joined(chunks))
    ensures var s := Begin(TracedEnv(env), Traced(user, []), d);
            && Valid(TracedEnv(env), s)
            && var t := FeedAll(TracedEnv(env), s, chunks);
               !t.stage.Failed? ==> Delivered(t, Joined(chunks))
  {
    hide Delivered, FeedAll, DisjointStream;
    StartsInStep(env, user, d);
    BeginDelivered(env, user, d);
    assert [] + Joined(chunks) == Joined(chunks);
    ChunksDelivered(env, Begin(TracedEnv(env), Traced(user, []), d), [], chunks);
  }

  lemma {:induction false} EndsRise(es: seq<Entry>, from: nat, i: nat, j: nat)
    requires DisjointEntries(es, from) && i < j < |es|
    ensures es[i].absOffset + es[i].size <= es[j].absOffset
    decreases j - i
  {
    if i + 1 < j {
      EndsRise(es, from, i, j - 1);
    }
  }

  /** Disjoint entries are calm: chunk independence covers every container this module speaks of. */
  lemma {:induction false} DisjointIsCalm(es: seq<Entry>, from: u64)
    requires DisjointEntries(es, from)
    ensures CalmEntries(es, from)
    decreases |es|
  {
    if es != [] {
      var end := es[0].absOffset + es[0].size;
      forall i | 0 <= i < |es| - 1
        ensures end <= es[1..][i].absOffset
      {
        EndsRise(es, from, 0, i + 1);
      }
      DisjointIsCalm(es[1..], end);
    }
  }
}
