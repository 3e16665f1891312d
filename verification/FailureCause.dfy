/**
 * What made an install fail, told from its code, the calls it made and the entry it stood at; and that nothing a
 * hook refuses goes unnoticed.
 */
module FailureCause {
  import opened Bytes
  import opened EntryNames
  import opened InstallSpec
  import opened InstallTrace
  import opened ChunkIndependence
  import opened HeaderVerdict
  import opened CnmtFormat
  import opened FinishRecord
  import opened FinishResult
  import Cnmt
  import Pfs = PartitionFs

  predicate IsRefusal(e: Event) {
    match e
    case Began(_, _, ok) => !ok
    case Wrote(_, ok) => !ok
    case Committed(ok) => !ok
    case ImportedTicket(_, _, ok) => !ok
    case ReadManifest(_, _, ok) => !ok
    case RegisteredMeta(_, ok) => !ok
    case PushedRecord(_, ok) => !ok
    case _ => false
  }

  ghost predicate NoneRefused(log: seq<Event>) {
    forall e :: e in log ==> !IsRefusal(e)
  }

  /** How many bytes the backend has taken. */
  function BytesTaken(log: seq<Event>): nat {
    if log == [] then 0
    else BytesTaken(log[..|log| - 1]) + match log[|log| - 1] case Wrote(data, true) => |data| case _ => 0
  }

  /** The call before the clean-up, which drops the open placeholder, if there is one, and rolls back. */
  function LastCall(log: seq<Event>): Option<Event> {
    var n := |log|;
    if n >= 3 && log[n - 1].RolledBack? && log[n - 2].Discarded? then Some(log[n - 3])
    else if n >= 2 && log[n - 1].RolledBack? then Some(log[n - 2])
    else None
  }

  /** An install that goes on: no call was refused, no buffer holds more than it has room for, every byte taken is counted. */
  ghost predicate GoesWell<S, D>(s: State<Traced<S>, D>) {
    && NoneRefused(s.user.log) && s.bytesWritten == BytesTaken(s.user.log) % 0x1_0000_0000_0000_0000
    && |s.tik| <= 0x1000 && |s.cert| <= 0x2000
    && (s.contentOpen ==> s.cursor < |s.entries| && IsContent(s.entries[s.cursor].kind))
    && (s.nczActive ==> s.cursor < |s.entries| && IsCompressed(s.entries[s.cursor].kind))
  }

  /**
   * An install that stopped at an entry with `left` bytes before it: at a compressed one because there is no decoder,
   * because the decoder or what it handed on was refused, or the commit; at another content because its last call was
   * refused; at a ticket or certificate because there was more than its buffer holds.
   */
  ghost predicate StoppedAt<S, D>(env: Env<S, D>, s: State<Traced<S>, D>, v: Verdict, left: nat) {
    && s.cursor < |s.entries|
    && match s.entries[s.cursor].kind
       case Ticket => v == BufferTooSmall && |s.tik| <= 0x1000 < |s.tik| + left
       case Cert => v == BufferTooSmall && |s.cert| <= 0x2000 < |s.cert| + left
       case Ignore => false
       case Ncz => CompressedStop(env, s, v)
       case MetaNcz => CompressedStop(env, s, v)
       case Nca => v == BackendError && LastCall(s.user.log).Some? && IsRefusal(LastCall(s.user.log).value)
       case MetaNca => v == BackendError && LastCall(s.user.log).Some? && IsRefusal(LastCall(s.user.log).value)
  }

  ghost predicate CompressedStop<S, D>(env: Env<S, D>, s: State<Traced<S>, D>, v: Verdict) {
    if env.ncz.None? then v == NoDecompressor
    else v == BadNcz || (v == BackendError && LastCall(s.user.log) == Some(Committed(false)))
  }

  ghost predicate WentSo<S, D>(env: Env<S, D>, s: State<Traced<S>, D>, left: nat) {
    match s.stage
    case Failed(v) => StoppedAt(env, s, v, left)
    case _ => GoesWell(s)
  }

  // ----- calls -----

  lemma TakenStep(log: seq<Event>, e: Event)
    ensures BytesTaken(log + [e]) == BytesTaken(log) + match e case Wrote(data, true) => |data| case _ => 0
  {
    assert (log + [e])[..|log|] == log;
  }

  lemma FailLog<S, D>(env: Env<S, D>, s: State<Traced<S>, D>, v: Verdict)
    ensures var t := Fail(TracedEnv(env), s, v);
            t.user.log == s.user.log + (if s.contentOpen then [Discarded] else []) + [RolledBack(s.meta)]
  {
  }

  /** Failing right behind a refused call. */
  lemma RefusedStops<S, D>(env: Env<S, D>, s: State<Traced<S>, D>, v: Verdict, log: seq<Event>, e: Event)
    requires s.user.log == log + [e] && !e.Discarded?
    ensures LastCall(Fail(TracedEnv(env), s, v).user.log) == Some(e)
  {
    hide Fail, TracedEnv;
    FailLog(env, s, v);
  }

  lemma WriteGoes<S, D>(env: Env<S, D>, s: State<Traced<S>, D>, data: bytes)
    requires GoesWell(s)
    ensures var (t, ok) := WriteContent(TracedEnv(env), s, data);
            && t == s.(user := t.user, bytesWritten := t.bytesWritten)
            && (if ok then GoesWell(t) else t.user.log == s.user.log + [Wrote(data, false)])
  {
    hide BytesTaken;
    var r := env.ops.contentWrite(s.user.inner, data);
    TakenStep(s.user.log, Wrote(data, r.ok));
  }

  lemma BeginGoes<S, D>(env: Env<S, D>, s: State<Traced<S>, D>, id: bytes, size: u64)
    requires GoesWell(s) && s.cursor < |s.entries| && IsContent(s.entries[s.cursor].kind)
    ensures var r := TracedEnv(env).ops.contentBegin(s.user, id, size);
            if r.ok then GoesWell(s.(user := r.user, contentOpen := true)) else r.user.log == s.user.log + [Began(id, size, false)]
  {
    hide BytesTaken;
    TakenStep(s.user.log, Began(id, size, env.ops.contentBegin(s.user.inner, id, size).ok));
  }

  // ----- compressed entries -----

  lemma SinkGoes<S, D>(env: Env<S, D>, s: State<Traced<S>, D>, em: Emission)
    requires GoesWell(s) && s.cursor < |s.entries| && IsContent(s.entries[s.cursor].kind)
    ensures var (t, ok) := Sink(TracedEnv(env), s, em); ok ==> GoesWell(t)
  {
    hide GoesWell, WriteContent, TracedEnv;
    if !s.contentOpen && em.size != 0 {
      BeginGoes(env, s, s.entries[s.cursor].contentId, em.size);
    }
    var (t, open) := OpenForSink(TracedEnv(env), s, em.size);
    if open {
      WriteGoes(env, t, em.data);
    }
  }

  lemma {:induction false} RunSinkGoes<S, D>(env: Env<S, D>, s: State<Traced<S>, D>, ems: seq<Emission>)
    requires GoesWell(s) && s.cursor < |s.entries| && IsContent(s.entries[s.cursor].kind)
    ensures var (t, ok) := RunSink(TracedEnv(env), s, ems); ok ==> GoesWell(t)
    decreases |ems|
  {
    hide GoesWell, TracedEnv;
    if ems != [] {
      SinkGoes(env, s, ems[0]);
      var (t, ok) := Sink(TracedEnv(env), s, ems[0]);
      if ok {
        RunSinkGoes(env, t, ems[1..]);
      }
    }
  }

  lemma DecoderStateGoes<S, D>(s: State<Traced<S>, D>, d: D, active: bool)
    requires GoesWell(s) && (active ==> s.cursor < |s.entries| && IsCompressed(s.entries[s.cursor].kind))
    ensures GoesWell(s.(nczUser := d, nczActive := active))
  {
    hide BytesTaken, NoneRefused;
  }

  lemma FeedDecoderGoes<S, D>(env: Env<S, D>, s: State<Traced<S>, D>, data: bytes)
    requires GoesWell(s) && !s.stage.Failed? && s.cursor < |s.entries| && IsCompressed(s.entries[s.cursor].kind) && env.ncz.Some?
    ensures WentSo(env, FeedDecoder(TracedEnv(env), s, data), |data|)
  {
    hide GoesWell, RunSink, Fail, TracedOps, LastCall;
    var r := env.ncz.value.feed(s.nczUser, data);
    RunSinkGoes(env, s, r.emissions);
    RunSinkShape(TracedEnv(env), s, r.emissions);
    var (t, taken) := RunSink(TracedEnv(env), s, r.emissions);
    if taken && r.ok {
      DecoderStateGoes(t, r.user, t.nczActive);
    } else {
      FailShape(TracedEnv(env), t.(nczUser := r.user), BadNcz);
    }
  }

  // ----- one entry -----

  lemma BuffersGo<S, D>(s: State<Traced<S>, D>, tik: bytes, cert: bytes)
    requires GoesWell(s) && |tik| <= 0x1000 && |cert| <= 0x2000
    ensures GoesWell(s.(tik := tik, cert := cert))
  {
    hide BytesTaken, NoneRefused;
  }

  lemma RouteGoes<S, D>(env: Env<S, D>, s: State<Traced<S>, D>, data: bytes)
    requires GoesWell(s) && !s.stage.Failed? && s.cursor < |s.entries|
    requires IsCompressed(s.entries[s.cursor].kind) ==> env.ncz.Some?
    ensures WentSo(env, Route(TracedEnv(env), s, data), |data|)
  {
    hide GoesWell, WriteContent, FeedDecoder, Fail, TracedOps, LastCall, IsRefusal;
    var kind := s.entries[s.cursor].kind;
    BufferLimits(s);
    if IsCompressed(kind) {
      FeedDecoderGoes(env, s, data);
    } else if kind.Nca? || kind.MetaNca? {
      WriteGoes(env, s, data);
      var (t, ok) := WriteContent(TracedEnv(env), s, data);
      if !ok {
        RefusedWrite(data);
        RefusedStops(env, t, BackendError, s.user.log, Wrote(data, false));
        FailShape(TracedEnv(env), t, BackendError);
      }
    } else {
      FailShape(TracedEnv(env), s, BufferTooSmall);
      if kind.Ticket? && |s.tik + data| <= 0x1000 {
        BuffersGo(s, s.tik + data, s.cert);
      }
      if kind.Cert? && |s.cert + data| <= 0x2000 {
        BuffersGo(s, s.tik, s.cert + data);
      }
    }
  }

  lemma BufferLimits<S, D>(s: State<Traced<S>, D>)
    requires GoesWell(s)
    ensures |s.tik| <= 0x1000 && |s.cert| <= 0x2000
  {
  }

  lemma RefusedWrite(data: bytes)
    ensures IsRefusal(Wrote(data, false))
  {
  }

  lemma OpenGoes<S, D>(env: Env<S, D>, s: State<Traced<S>, D>)
    requires GoesWell(s) && s.stage.Streaming? && s.cursor < |s.entries| && (s.nczActive ==> env.ncz.Some?)
    ensures WentSo(env, OpenEntry(TracedEnv(env), s), 0)
  {
    hide GoesWell, Fail, TracedOps, LastCall;
    var e := s.entries[s.cursor];
    FailShape(TracedEnv(env), s, NoDecompressor);
    if IsCompressed(e.kind) {
      if !s.nczActive && env.ncz.Some? {
        var r := env.ncz.value.begin(s.nczUser);
        FailShape(TracedEnv(env), s.(nczUser := r.user), BadNcz);
        DecoderStateGoes(s, r.user, true);
      }
    } else if !s.contentOpen && IsContent(e.kind) {
      BeginGoes(env, s, e.contentId, e.size);
      var r := TracedEnv(env).ops.contentBegin(s.user, e.contentId, e.size);
      if !r.ok {
        RefusedStops(env, s.(user := r.user), BackendError, s.user.log, Began(e.contentId, e.size, false));
        FailShape(TracedEnv(env), s.(user := r.user), BackendError);
      }
    }
  }

  lemma CommitGoes<S, D>(env: Env<S, D>, s: State<Traced<S>, D>)
    requires GoesWell(s) && s.stage.Streaming? && s.contentOpen && (IsCompressed(s.entries[s.cursor].kind) ==> env.ncz.Some?)
    ensures WentSo(env, Commit(TracedEnv(env), s), 0)
  {
    hide BytesTaken, Fail, LastCall;
    var r := env.ops.contentCommit(s.user.inner);
    var t := s.(user := Traced(r.user, s.user.log + [Committed(r.ok)]));
    TakenStep(s.user.log, Committed(r.ok));
    if !r.ok {
      RefusedStops(env, t, BackendError, s.user.log, Committed(false));
      FailShape(TracedEnv(env), t, BackendError);
    }
  }

  lemma EndGoes<S, D>(env: Env<S, D>, s: State<Traced<S>, D>)
    requires GoesWell(s) && s.stage.Streaming? && s.nczActive && env.ncz.Some?
    ensures var t := EndDecoder(TracedEnv(env), s);
            WentSo(env, t, 0) && (!t.stage.Failed? ==> t == s.(nczUser := t.nczUser, nczActive := false, metaSize := t.metaSize))
  {
    hide BytesTaken, Fail, LastCall, TracedOps;
    FailShape(TracedEnv(env), s.(nczUser := env.ncz.value.end(s.nczUser).user), BadNcz);
  }

  lemma MovesOn<S, D>(s: State<Traced<S>, D>, cursor: nat, stage: Stage)
    requires GoesWell(s) && !s.contentOpen && !s.nczActive
    ensures GoesWell(s.(cursor := cursor, stage := stage))
  {
    hide BytesTaken, NoneRefused;
  }

  lemma CloseGoes<S, D>(env: Env<S, D>, s: State<Traced<S>, D>)
    requires GoesWell(s) && s.stage.Streaming? && s.cursor < |s.entries|
    requires IsCompressed(s.entries[s.cursor].kind) ==> env.ncz.Some?
    requires s.nczActive ==> env.ncz.Some?
    ensures WentSo(env, CloseEntry(TracedEnv(env), s), 0)
  {
    hide GoesWell, EndDecoder, Commit, TracedOps, StoppedAt;
    var t := if s.nczActive then EndDecoder(TracedEnv(env), s) else s;
    if s.nczActive {
      EndGoes(env, s);
    }
    if !t.stage.Failed? {
      if t.contentOpen {
        CommitGoes(env, t);
        CommitStage(TracedEnv(env), t);
      }
      var u := if t.contentOpen then Commit(TracedEnv(env), t) else t;
      if !u.stage.Failed? {
        MovesOn(u, u.cursor + 1, if u.cursor + 1 >= |u.entries| then Complete else u.stage);
      }
    }
  }

  lemma CommitStage<S, D>(env: Env<S, D>, s: State<S, D>)
    ensures var t := Commit(env, s); !t.stage.Failed? ==> t == s.(user := t.user, contentOpen := false)
  {
  }

  lemma PosGoes<S, D>(s: State<Traced<S>, D>, pos: u64)
    requires GoesWell(s)
    ensures GoesWell(s.(streamPos := pos))
  {
    hide BytesTaken, NoneRefused;
  }

  /** A stop is the same however many more bytes are left. */
  lemma MoreLeft<S, D>(env: Env<S, D>, s: State<Traced<S>, D>, v: Verdict, left: nat, more: nat)
    requires StoppedAt(env, s, v, left) && left <= more
    ensures StoppedAt(env, s, v, more)
  {
    hide LastCall, CompressedStop;
  }

  /** A visit to an entry: where the position stands afterwards, and why it stopped if it did. */
  lemma EntryGoes<S, D>(env: Env<S, D>, s: State<Traced<S>, D>, chunk: bytes)
    requires GoesWell(s) && s.stage.Streaming? && s.cursor < |s.entries| && (s.nczActive ==> env.ncz.Some?)
    ensures var t := StepEntry(TracedEnv(env), s, chunk);
            match t.stage
            case Failed(v) =>
              || (t.streamPos == s.streamPos && StoppedAt(env, t, v, |chunk|))
              || (t.streamPos == Advance(s.streamPos, |chunk|) && StoppedAt(env, t, v, 0))
            case _ => GoesWell(t) && t.streamPos == Advance(s.streamPos, |chunk|)
  {
    hide GoesWell, OpenEntry, Route, CloseEntry, EntryEnd, TracedOps, Advance, StoppedAt;
    OpenGoes(env, s);
    OpenShape(TracedEnv(env), s);
    var t := OpenEntry(TracedEnv(env), s);
    if t.stage.Failed? {
      MoreLeft(env, t, t.stage.verdict, 0, |chunk|);
    } else {
      if chunk != [] {
        RouteGoes(env, t, chunk);
        RouteShape(TracedEnv(env), t, chunk);
        var u := Route(TracedEnv(env), t, chunk);
        if !u.stage.Failed? {
          PosGoes(u, Advance(u.streamPos, |chunk|));
        }
      } else {
        NoAdvance(t.streamPos);
      }
      var u := Consume(TracedEnv(env), t, chunk);
      if !u.stage.Failed? && u.streamPos >= EntryEnd(s.entries[s.cursor]) {
        CloseGoes(env, u);
        CloseShape(TracedEnv(env), u);
      }
    }
  }

  lemma NoAdvance(pos: u64)
    ensures Advance(pos, 0) == pos
  {
  }

  // ----- the whole stream -----

  /** Where an install stands after this much of a stream. */
  ghost predicate Accounted<S, D>(env: Env<S, D>, s: State<Traced<S>, D>, stream: bytes) {
    match s.stage
    case Failed(v) =>
      || RulingOn(stream) == Faulty(v)
      || (RulingOn(stream) == Sound && s.streamPos <= |stream| && StoppedAt(env, s, v, |stream| - s.streamPos))
    case _ => GoesWell(s) && s.streamPos == |stream| % 0x1_0000_0000_0000_0000
  }

  lemma PositionMoves(n: nat, more: nat)
    ensures n % U64_LIMIT <= n && Advance(n % U64_LIMIT, more) == (n + more) % U64_LIMIT
  {
  }

  lemma StreamingAccounted<S, D>(env: Env<S, D>, s: State<Traced<S>, D>, stream: bytes, data: bytes)
    requires Accounted(env, s, stream) && RulingOn(stream) == Sound && Valid(TracedEnv(env), s) && s.stage.Streaming?
    ensures var (t, used) := StepStreaming(TracedEnv(env), s, data); used <= |data| && Accounted(env, t, stream + data[..used])
  {
    hide GoesWell, StepEntry, EntryEnd, RulingOn, TracedOps, StoppedAt, Advance;
    var (t, used) := StepStreaming(TracedEnv(env), s, data);
    PositionMoves(|stream|, used);
    if s.cursor >= |s.entries| {
      StageGoes(s, Complete);
      PosGoes(s.(stage := Complete), Advance(s.streamPos, |data|));
    } else if s.streamPos < s.entries[s.cursor].absOffset {
      PosGoes(s, Advance(s.streamPos, used));
    } else {
      assert (t, used) == (StepEntry(TracedEnv(env), s, data[..used]), used);
      VisitAccounted(env, s, stream, data[..used]);
    }
  }

  lemma VisitAccounted<S, D>(env: Env<S, D>, s: State<Traced<S>, D>, stream: bytes, chunk: bytes)
    requires Accounted(env, s, stream) && RulingOn(stream) == Sound && s.stage.Streaming? && s.cursor < |s.entries| && (s.nczActive ==> env.ncz.Some?)
    ensures Accounted(env, StepEntry(TracedEnv(env), s, chunk), stream + chunk)
  {
    hide GoesWell, StepEntry, RulingOn, TracedOps, StoppedAt, Advance;
    PositionMoves(|stream|, |chunk|);
    RulingStays(stream, chunk);
    EntryGoes(env, s, chunk);
    var t := StepEntry(TracedEnv(env), s, chunk);
    if t.stage.Failed? {
      var v := t.stage.verdict;
      MoreLeft(env, t, v, if t.streamPos == s.streamPos && StoppedAt(env, t, v, |chunk|) then |chunk| else 0, |stream + chunk| - t.streamPos);
    }
  }

  lemma StageGoes<S, D>(s: State<Traced<S>, D>, stage: Stage)
    requires GoesWell(s)
    ensures GoesWell(s.(stage := stage))
  {
    hide BytesTaken, NoneRefused;
  }

  /** The header touches neither calls nor buffers. */
  lemma HeaderGoes<S, D>(s: State<Traced<S>, D>, t: State<Traced<S>, D>)
    requires GoesWell(s) && !s.contentOpen && !s.nczActive
    requires t == s.(stage := t.stage, header := t.header, headerSize := t.headerSize, entries := t.entries, cursor := t.cursor,
                     metaId := t.metaId, hasMeta := t.hasMeta, metaSize := t.metaSize, streamPos := t.streamPos)
    ensures GoesWell(t)
  {
    hide BytesTaken, NoneRefused;
  }

  lemma MagicShape<S, D>(env: Env<S, D>, s: State<S, D>, data: bytes)
    requires |s.header| < Pfs.HEADER_SIZE && s.stage.Magic?
    ensures var (t, used) := StepMagic(env, s, data);
            && used <= |data| && (t.stage.Failed? || t.stage.Magic? || t.stage.Header?)
            && (!t.stage.Failed? ==> t == s.(stage := t.stage, header := t.header, headerSize := t.headerSize, streamPos := Advance(s.streamPos, used)))
  {
    hide Pfs.PeekHeaderSize, Advance;
  }

  lemma HeaderShape<S, D>(env: Env<S, D>, s: State<S, D>, data: bytes)
    requires |s.header| <= s.headerSize
    ensures var (t, used) := StepHeader(env, s, data);
            && used <= |data|
            && (!t.stage.Failed? ==> t == s.(stage := t.stage, header := t.header, headerSize := t.headerSize, entries := t.entries, cursor := t.cursor,
                                            metaId := t.metaId, hasMeta := t.hasMeta, metaSize := t.metaSize, streamPos := Advance(s.streamPos, used)))
  {
    hide Pfs.Parse, Pfs.ValidContext, BuildEntries, Advance;
    var h := Absorb(s, data[..Min(|data|, s.headerSize - |s.header|)]);
    if Pfs.Parse(h.header).Ok? {
      BuildShape(h, Pfs.Parse(h.header).value);
    }
  }

  lemma MagicAccounted<S, D>(env: Env<S, D>, s: State<Traced<S>, D>, stream: bytes, data: bytes)
    requires Accounted(env, s, stream) && Ruled(s, stream) && Valid(TracedEnv(env), s) && s.stage.Magic? && !s.contentOpen && !s.nczActive
    ensures var (t, used) := StepMagic(TracedEnv(env), s, data); Accounted(env, t, stream + data[..used])
  {
    hide GoesWell, StepMagic, RulingOn, Ruled, TracedEnv, StoppedAt, Advance;
    PositionMoves(|stream|, StepMagic(TracedEnv(env), s, data).1);
    MagicRuled(TracedEnv(env), s, stream, data);
    MagicShape(TracedEnv(env), s, data);
    var (t, used) := StepMagic(TracedEnv(env), s, data);
    if !t.stage.Failed? {
      HeaderGoes(s, t);
    }
  }

  lemma HeaderAccounted<S, D>(env: Env<S, D>, s: State<Traced<S>, D>, stream: bytes, data: bytes)
    requires Accounted(env, s, stream) && Ruled(s, stream) && Valid(TracedEnv(env), s) && s.stage.Header? && data != [] && !s.contentOpen && !s.nczActive
    ensures var (t, used) := StepHeader(TracedEnv(env), s, data);
            Accounted(env, t, stream + if used > 0 then data[..used] else data)
  {
    hide GoesWell, StepHeader, RulingOn, Ruled, TracedEnv, StoppedAt, Advance;
    PositionMoves(|stream|, StepHeader(TracedEnv(env), s, data).1);
    HeaderRuled(TracedEnv(env), s, stream, data);
    HeaderShape(TracedEnv(env), s, data);
    var (t, used) := StepHeader(TracedEnv(env), s, data);
    if !t.stage.Failed? {
      HeaderGoes(s, t);
    }
  }

  /** A stage that comes before the contents has nothing open. */
  ghost predicate NothingOpen<S, D>(s: State<Traced<S>, D>) {
    s.stage.Magic? || s.stage.Header? ==> !s.contentOpen && !s.nczActive
  }

  ghost predicate Told<S, D>(env: Env<S, D>, s: State<Traced<S>, D>, stream: bytes) {
    Accounted(env, s, stream) && Ruled(s, stream) && NothingOpen(s)
  }

  /** One round of the loop: its bytes are accounted for, or it has failed and all of them are. */
  lemma RoundTold<S, D>(env: Env<S, D>, s: State<Traced<S>, D>, stream: bytes, data: bytes)
    requires Told(env, s, stream) && Valid(TracedEnv(env), s) && !s.stage.Failed? && data != []
    ensures var (t, used) := Iter(TracedEnv(env), s, data);
            Told(env, t, stream + data[..used]) || (t.stage.Failed? && Told(env, t, stream + data))
  {
    hide Accounted, Ruled, StepMagic, StepHeader, StepStreaming, RulingOn, TracedEnv;
    RoundRuled(TracedEnv(env), s, stream, data);
    match s.stage
    case Magic =>
      MagicAccounted(env, s, stream, data);
      MagicShape(TracedEnv(env), s, data);
      MagicRuled(TracedEnv(env), s, stream, data);
    case Header =>
      HeaderAccounted(env, s, stream, data);
      HeaderShape(TracedEnv(env), s, data);
      HeaderRuled(TracedEnv(env), s, stream, data);
    case Streaming =>
      SoundInside(s, stream);
      StreamingAccounted(env, s, stream, data);
      StreamingRuled(TracedEnv(env), s, stream, data);
      StreamingStage(TracedEnv(env), s, data);
    case Complete =>
      DecidedStays(s, stream, data);
      CompleteAccounted(env, s, stream, data);
      assert data[..|data|] == data;
  }

  lemma SoundInside<S, D>(s: State<Traced<S>, D>, stream: bytes)
    requires Ruled(s, stream) && (s.stage.Streaming? || s.stage.Complete?)
    ensures RulingOn(stream) == Sound
  {
    hide RulingOn;
  }


  lemma StreamingStage<S, D>(env: Env<S, D>, s: State<S, D>, data: bytes)
    requires s.stage.Streaming? && (s.nczActive ==> env.ncz.Some?)
    ensures var t := StepStreaming(env, s, data).0; !t.stage.Magic? && !t.stage.Header?
  {
    hide StepEntry, EntryEnd, Advance;
    if s.cursor < |s.entries| && s.streamPos >= s.entries[s.cursor].absOffset {
      EntryShape(env, s, data[..Min(|data|, Sub64(EntryEnd(s.entries[s.cursor]), s.streamPos))]);
    }
  }

  lemma CompleteAccounted<S, D>(env: Env<S, D>, s: State<Traced<S>, D>, stream: bytes, data: bytes)
    requires Accounted(env, s, stream) && s.stage.Complete?
    ensures Accounted(env, s.(streamPos := Advance(s.streamPos, |data|)), stream + data)
  {
    hide GoesWell, RulingOn;
    PosGoes(s, Advance(s.streamPos, |data|));
  }

  lemma FailedTold<S, D>(env: Env<S, D>, s: State<Traced<S>, D>, stream: bytes, data: bytes)
    requires Told(env, s, stream) && s.stage.Failed?
    ensures Told(env, s, stream + data)
  {
    hide RulingOn, StoppedAt;
    DecidedStays(s, stream, data);
    RulingStays(stream, data);
    if RulingOn(stream) == Sound {
      MoreLeft(env, s, s.stage.verdict, |stream| - s.streamPos, |stream + data| - s.streamPos);
    }
  }

  lemma {:induction false} FeedTold<S, D>(env: Env<S, D>, s: State<Traced<S>, D>, stream: bytes, data: bytes)
    requires Told(env, s, stream) && Valid(TracedEnv(env), s)
    ensures Told(env, Feed(TracedEnv(env), s, data), stream + data)
    decreases |data|, StageRank(s.stage), EntriesLeft(s)
  {
    hide Told, Iter, TracedEnv, Valid;
    if data == [] {
      assert stream + data == stream;
    } else if s.stage.Failed? {
      FailedTold(env, s, stream, data);
    } else {
      IterProgress(TracedEnv(env), s, data);
      RoundTold(env, s, stream, data);
      var (t, used) := Iter(TracedEnv(env), s, data);
      if t.stage.Failed? && Told(env, t, stream + data) {
        assert Feed(TracedEnv(env), t, data[used..]) == t;
      } else {
        assert stream + data[..used] + data[used..] == stream + data;
        FeedTold(env, t, stream + data[..used], data[used..]);
      }
    }
  }

  lemma {:induction false} ChunksTold<S, D>(env: Env<S, D>, s: State<Traced<S>, D>, stream: bytes, chunks: seq<bytes>)
    requires Told(env, s, stream) && Valid(TracedEnv(env), s)
    ensures Told(env, FeedAll(TracedEnv(env), s, chunks), stream + Joined(chunks))
    decreases |chunks|
  {
    hide Told, Feed, Valid, TracedEnv;
    if chunks == [] {
      assert stream + [] == stream;
    } else {
      FeedTold(env, s, stream, chunks[0]);
      assert stream + (chunks[0] + Joined(chunks[1..])) == stream + chunks[0] + Joined(chunks[1..]);
      ChunksTold(env, Feed(TracedEnv(env), s, chunks[0]), stream + chunks[0], chunks[1..]);
    }
  }

  /**
   * However the stream is cut and whatever hooks and decoder do: an install that failed while streaming did so for its
   * header, or at an entry, and then with the code for it; and one that did not has had no call refused, keeps tickets
   * and certificates within their buffers, and has counted every byte the backend took.
   */
  lemma FailureHasItsCause<S, D>(env: Env<S, D>, user: S, d: D, chunks: seq<bytes>)
    ensures var s := Begin(TracedEnv(env), Traced(user, []), d);
            && Valid(TracedEnv(env), s)
            && var t := FeedAll(TracedEnv(env), s, chunks);
               match t.stage
               case Failed(v) =>
                 || RulingOn(Joined(chunks)) == Faulty(v)
                 || (RulingOn(Joined(chunks)) == Sound && t.streamPos <= |Joined(chunks)| && StoppedAt(env, t, v, |Joined(chunks)| - t.streamPos))
               case _ => GoesWell(t) && t.streamPos == |Joined(chunks)| % 0x1_0000_0000_0000_0000
  {
    hide RulingOn, StoppedAt, GoesWell;
    var s := Begin(TracedEnv(env), Traced(user, []), d);
    StartsWell(env, user, d);
    ChunksTold(env, s, [], chunks);
    assert [] + Joined(chunks) == Joined(chunks);
  }

  lemma StartsWell<S, D>(env: Env<S, D>, user: S, d: D)
    ensures Told(env, Begin(TracedEnv(env), Traced(user, []), d), [])
  {
  }

  // ----- finishing -----

  ghost predicate IsManifest(data: bytes, p: Package) {
    Writable(p) && Encode(p) == data
  }

  ghost predicate CannotRegister(es: seq<Entry>, p: Package, v: Verdict) {
    if |p.ext| > 0x100 then v == BadCnmt
    else if |p.infos| > 63 then v == TooManyContents
    else SomeMissing(es, p.infos) && v == MissingContent
  }

  /**
   * Why a finish failed: it was not complete, the ticket came without certificates, its last call was refused, or what
   * that call read is no manifest or one that cannot be registered.
   */
  ghost predicate FinishStopped<S, D>(s: State<Traced<S>, D>, v: Verdict, last: Option<Event>) {
    if !s.stage.Complete? then v == NotFinished
    else if s.tik != [] && s.cert == [] then v == BufferTooSmall
    else
      && last.Some?
      && match last.value
         case ReadManifest(_, data, true) =>
           && (forall p :: IsManifest(data, p) ==> CannotRegister(s.entries, p, v))
           && ((exists p :: IsManifest(data, p)) || v == BadCnmt)
         case e => IsRefusal(e) && v == BackendError
  }

  lemma TicketStops<S, D>(env: Env<S, D>, s: State<Traced<S>, D>)
    requires s.stage.Complete? && !s.contentOpen
    ensures var t := ImportTicket(TracedEnv(env), s);
            t.stage.Failed? ==> FinishStopped(s, t.stage.verdict, LastCall(t.user.log))
  {
    hide Fail, LastCall;
    if s.tik != [] && s.cert != [] {
      var r := env.ops.importTicket(s.user.inner, s.tik, s.cert);
      if !r.ok {
        var e := ImportedTicket(s.tik, s.cert, false);
        var u := s.(user := Traced(r.user, s.user.log + [e]));
        RefusedStops(env, u, BackendError, s.user.log, e);
        FailShape(TracedEnv(env), u, BackendError);
      }
    } else if s.tik != [] {
      FailShape(TracedEnv(env), s, BufferTooSmall);
    }
  }

  /** What is read and no manifest is refused as such. */
  lemma NoManifestStops<S, D>(env: Env<S, D>, s: State<Traced<S>, D>, u: State<Traced<S>, D>)
    requires s.stage.Complete? && u.stage.Complete? && (s.tik != [] ==> s.cert != [])
    requires var r := env.ops.readCnmt(u.user.inner, u.metaId); !r.ok || Cnmt.Parse(r.data).Err?
    ensures var t := Register(TracedEnv(env), u); t.stage.Failed? && FinishStopped(s, t.stage.verdict, LastCall(t.user.log))
  {
    hide Fail, LastCall, Cnmt.Parse, Encode, Writable, BuildMeta, Publish;
    var r := env.ops.readCnmt(u.user.inner, u.metaId);
    var e := ReadManifest(u.metaId, r.data, r.ok);
    var w := u.(user := Traced(r.user, u.user.log + [e]));
    assert TracedEnv(env).ops.readCnmt(u.user, u.metaId) == ReadReply(r.ok, r.data, w.user);
    var v := if r.ok then BadCnmt else BackendError;
    RefusedStops(env, w, v, u.user.log, e);
    FailShape(TracedEnv(env), w, v);
    if r.ok {
      NoManifest(r.data);
    }
  }

  lemma NoManifest(data: bytes)
    requires Cnmt.Parse(data).Err?
    ensures forall p :: !IsManifest(data, p)
  {
    hide Cnmt.Parse, Encode, Writable;
    AcceptedIsWritten(data);
  }

  /** A package that was refused, or its calls. */
  lemma HandledStops<S, D>(s: State<Traced<S>, D>, t: State<Traced<S>, D>, log: seq<Event>, data: bytes, p: Package, record: Meta)
    requires s.stage.Complete? && (s.tik != [] ==> s.cert != []) && t.stage.Failed?
    requires Handled(t, log + [ReadManifest(s.metaId, data, true)], s.entries, p, record)
    ensures var last := LastCall(t.user.log);
            if last == Some(ReadManifest(s.metaId, data, true)) then CannotRegister(s.entries, p, t.stage.verdict)
            else last.Some? && !last.value.ReadManifest? && IsRefusal(last.value) && t.stage.verdict == BackendError
  {
    hide SomeMissing;
    var read := ReadManifest(s.metaId, data, true);
    var said := log + [read];
    if |p.ext| <= 0x100 && |p.infos| <= 63 && !SomeMissing(s.entries, p.infos) {
      if Refused(t, said + [RegisteredMeta(record, false)], BackendError) {
        LastOf(t.user.log, said, RegisteredMeta(record, false), t.meta);
      } else {
        assert said + [RegisteredMeta(record, true), PushedRecord(record, false)] == said + [RegisteredMeta(record, true)] + [PushedRecord(record, false)];
        LastOf(t.user.log, said + [RegisteredMeta(record, true)], PushedRecord(record, false), t.meta);
      }
    } else {
      LastOf(t.user.log, log, read, t.meta);
    }
  }

  lemma LastOf(log: seq<Event>, before: seq<Event>, e: Event, m: Meta)
    requires log == before + [e] + [RolledBack(m)] && !e.Discarded?
    ensures LastCall(log) == Some(e)
  {
  }

  /** Whatever the hooks do, the code of a finish that failed says why. */
  lemma FinishHasItsCause<S, D>(env: Env<S, D>, s: State<Traced<S>, D>)
    requires !s.stage.Failed? && !s.contentOpen
    ensures var t := Finish(TracedEnv(env), s);
            t.stage.Failed? ==> FinishStopped(s, t.stage.verdict, LastCall(t.user.log))
  {
    hide Fail, LastCall, Register, Encode, Writable, Handled, CannotRegister, IsRefusal, RecordFor, Cnmt.Parse;
    if !s.stage.Complete? {
      FailShape(TracedEnv(env), s, NotFinished);
    } else {
      TicketStops(env, s);
      TicketResult(env, s);
      var u := ImportTicket(TracedEnv(env), s);
      if !u.stage.Failed? {
        ReadStops(env, s, u);
      }
    }
  }

  lemma ReadStops<S, D>(env: Env<S, D>, s: State<Traced<S>, D>, u: State<Traced<S>, D>)
    requires s.stage.Complete? && !s.contentOpen && u == ImportTicket(TracedEnv(env), s) && !u.stage.Failed?
    requires s.tik != [] ==> s.cert != []
    requires u == s.(user := u.user, meta := u.meta)
    ensures var t := Register(TracedEnv(env), u);
            t.stage.Failed? ==> FinishStopped(s, t.stage.verdict, LastCall(t.user.log))
  {
    hide Fail, LastCall, Register, Encode, Writable, Handled, CannotRegister, IsRefusal, RecordFor, Cnmt.Parse, ImportTicket;
    var r := env.ops.readCnmt(u.user.inner, u.metaId);
    if !r.ok || Cnmt.Parse(r.data).Err? {
      NoManifestStops(env, s, u);
    } else {
      AcceptedIsWritten(r.data);
      var t := Register(TracedEnv(env), u);
      assert IsManifest(r.data, PackageOf(r.data));
      if t.stage.Failed? {
        assert t == Finish(TracedEnv(env), s);
        ManifestStops(env, s, u, r.data, PackageOf(r.data));
        forall p | IsManifest(r.data, p) ensures LastCall(t.user.log) == Some(ReadManifest(s.metaId, r.data, true)) ==> CannotRegister(s.entries, p, t.stage.verdict) {
          ManifestStops(env, s, u, r.data, p);
        }
      }
    }
  }

  lemma ManifestStops<S, D>(env: Env<S, D>, s: State<Traced<S>, D>, u: State<Traced<S>, D>, data: bytes, p: Package)
    requires s.stage.Complete? && !s.contentOpen && u == ImportTicket(TracedEnv(env), s) && !u.stage.Failed? && (s.tik != [] ==> s.cert != [])
    requires IsManifest(data, p) && var r := env.ops.readCnmt(u.user.inner, s.metaId); r.ok && r.data == data
    requires Finish(TracedEnv(env), s).stage.Failed?
    ensures var t, read := Finish(TracedEnv(env), s), ReadManifest(s.metaId, data, true);
            var last := LastCall(t.user.log);
            if last == Some(read) then CannotRegister(s.entries, p, t.stage.verdict)
            else last.Some? && !last.value.ReadManifest? && IsRefusal(last.value) && t.stage.verdict == BackendError
  {
    hide Fail, LastCall, Finish, Encode, Writable, Handled, CannotRegister, IsRefusal, RecordFor, ImportTicket;
    FinishRegistersPackage(env, s, p);
    HandledStops(s, Finish(TracedEnv(env), s), s.user.log + TicketCalls(s.tik, s.cert), data, p, RecordFor(TracedEnv(env), s, p));
  }
}
