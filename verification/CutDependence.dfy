/**
 * The condition of chunk independence is exact. In a container where some entry ends before the stream has
 * reached it, the number of bytes left wraps around, the entry swallows whatever chunk comes next, and so the
 * cuts decide which entry gets which bytes.
 */
module CutDependence {
  import opened Bytes
  import opened EntryNames
  import opened InstallSpec
  import opened ChunkIndependence
  import opened EntryTable
  import Pfs = PartitionFs

  /** A backend that accepts everything and remembers it byte by byte. */
  datatype Mark = Start(id: bytes, size: u64) | Byte(b: byte) | Done | Dropped | Undone

  type Tape = seq<Mark>

  function Marks(data: bytes): (t: Tape)
    ensures |t| == |data|
  {
    seq(|data|, i requires 0 <= i < |data| => Byte(data[i]))
  }

  const TapeOps: BackendOps<Tape> := BackendOps(
    (s: Tape, id, size) => Reply(true, s + [Start(id, size)]),
    (s: Tape, data) => Reply(true, s + Marks(data)),
    (s: Tape) => Reply(true, s + [Done]),
    (s: Tape) => s + [Dropped],
    (s: Tape, id) => ReadReply(false, [], s),
    (s: Tape, tik, cert) => Reply(true, s),
    (s: Tape, m) => Reply(true, s),
    (s: Tape, m) => Reply(true, s),
    (s: Tape, m) => s + [Undone])

  /** A decoder that accepts everything, makes nothing of it and remembers it too. */
  const TapeNcz: NczOps<Tape> := NczOps(
    (d: Tape) => Reply(true, d + [Start([], 0)]),
    (d: Tape, data) => FeedReply([], true, d + Marks(data)),
    (d: Tape) => Reply(true, d + [Done]),
    (d: Tape) => 0)

  function TapeEnv(target: u8): Env<Tape, Tape> {
    Env(TapeOps, Some(TapeNcz), target, _ => None)
  }

  lemma TapeIsCutFree()
    ensures CutFreeBackend(TapeOps) && CutFreeDecoder(TapeNcz)
  {
    forall d: Tape, a: bytes, b: bytes
      ensures FeedSplits(TapeNcz, d, a, b)
    {
      assert d + Marks(a + b) == d + Marks(a) + Marks(b);
    }
    forall s: Tape, a: bytes, b: bytes
      ensures WriteSplits(TapeOps, s, a, b)
    {
      assert s + Marks(a + b) == s + Marks(a) + Marks(b);
    }
  }

  /** Files of no interest never make it into the table. */
  predicate NoneIgnored(es: seq<Entry>) {
    forall i :: 0 <= i < |es| ==> !es[i].kind.Ignore?
  }

  /** The tickets and the certificates fit their buffers, with two bytes to spare. */
  predicate Roomy(es: seq<Entry>) {
    SizeOf(Ticket, es) + 2 <= MAX_TICKET && SizeOf(Cert, es) + 2 <= MAX_CERT
  }

  /** No entry begins or ends in the last bytes of the 64-bit range, where no stream can follow. */
  predicate Reachable(es: seq<Entry>) {
    forall i :: 0 <= i < |es| ==> es[i].absOffset + 3 < U64_LIMIT && EntryEnd(es[i]) + 3 < U64_LIMIT
  }

  /** A run between two entries. */
  ghost predicate Between(s: State<Tape, Tape>) {
    && s.stage.Streaming? && s.cursor < |s.entries| && !s.contentOpen && !s.nczActive
    && NoneIgnored(s.entries) && Reachable(s.entries) && s.streamPos + 3 < U64_LIMIT
    && Roomy(s.entries) && |s.tik| <= SizeOf(Ticket, s.entries[..s.cursor]) && |s.cert| <= SizeOf(Cert, s.entries[..s.cursor])
  }

  /** Another `n` bytes fit the buffer the current entry is gathered in, if it is gathered in one. */
  predicate Room(s: State<Tape, Tape>, n: nat)
    requires s.cursor < |s.entries|
  {
    && (s.entries[s.cursor].kind.Ticket? ==> |s.tik| + n <= MAX_TICKET)
    && (s.entries[s.cursor].kind.Cert? ==> |s.cert| + n <= MAX_CERT)
  }

  lemma SizeOfNext(kind: Kind, es: seq<Entry>, i: nat)
    requires i < |es|
    ensures SizeOf(kind, es[..i + 1]) == SizeOf(kind, es[..i]) + (if es[i].kind == kind then es[i].size else 0)
    ensures SizeOf(kind, es[..i]) <= SizeOf(kind, es[..i + 1]) <= SizeOf(kind, es)
  {
    assert es[..i + 1][..i] == es[..i];
    SizeOfPrefix(kind, es, i + 1);
  }

  /** There is room for the current entry and two bytes more. */
  lemma RoomForOwn(s: State<Tape, Tape>, n: nat)
    requires Between(s) && n <= s.entries[s.cursor].size + 2
    ensures Room(s, n)
  {
    hide NoneIgnored, Reachable, SizeOf;
    SizeOfNext(Ticket, s.entries, s.cursor);
    SizeOfNext(Cert, s.entries, s.cursor);
  }

  /** And for the next entry too, when it is of the same kind. */
  lemma RoomForNext(s: State<Tape, Tape>, n: nat)
    requires Between(s) && s.cursor + 1 < |s.entries| && s.entries[s.cursor + 1].kind == s.entries[s.cursor].kind
    requires n <= s.entries[s.cursor + 1].size + 2
    ensures Room(s, n)
  {
    hide NoneIgnored, Reachable, SizeOf;
    SizeOfNext(Ticket, s.entries, s.cursor);
    SizeOfNext(Cert, s.entries, s.cursor);
    SizeOfNext(Ticket, s.entries, s.cursor + 1);
    SizeOfNext(Cert, s.entries, s.cursor + 1);
  }

  // ----- one whole entry -----

  /** The state after the current entry has been opened, filled with `body` and closed. */
  function AfterEntry(s: State<Tape, Tape>, body: bytes): State<Tape, Tape>
    requires s.cursor < |s.entries|
  {
    var e := s.entries[s.cursor];
    var t := s.(streamPos := if body == [] then s.streamPos else Advance(s.streamPos, |body|),
                cursor := s.cursor + 1,
                stage := if s.cursor + 1 >= |s.entries| then Complete else Streaming);
    if IsCompressed(e.kind) then t.(nczUser := s.nczUser + [Start([], 0)] + Marks(body) + [Done])
    else if e.kind.Ticket? then t.(tik := s.tik + body)
    else if e.kind.Cert? then t.(cert := s.cert + body)
    else
      t.(user := s.user + [Start(e.contentId, e.size)] + Marks(body) + [Done],
         bytesWritten := if body == [] then s.bytesWritten else Advance(s.bytesWritten, |body|))
  }

  lemma WholeEntry(target: u8, s: State<Tape, Tape>, body: bytes)
    requires Between(s) && Room(s, |body|)
    requires s.streamPos + |body| < U64_LIMIT && s.streamPos + |body| >= EntryEnd(s.entries[s.cursor])
    ensures StepEntry(TapeEnv(target), s, body) == AfterEntry(s, body)
  {
    hide Advance, EntryEnd, NoneIgnored, Reachable, SizeOf, StepEntry, AfterEntry, TapeEnv;
    EntryAt(s.entries, s.cursor);
    AdvanceTwice(s.streamPos, |body|, 0);
    if IsContent(s.entries[s.cursor].kind) {
      WholeContent(target, s, body);
    } else {
      WholeTicket(target, s, body);
    }
  }

  lemma WholeContent(target: u8, s: State<Tape, Tape>, body: bytes)
    requires s.stage.Streaming? && s.cursor < |s.entries| && !s.contentOpen && !s.nczActive && IsContent(s.entries[s.cursor].kind)
    requires (if body == [] then s.streamPos else Advance(s.streamPos, |body|)) >= EntryEnd(s.entries[s.cursor])
    ensures StepEntry(TapeEnv(target), s, body) == AfterEntry(s, body)
  {
    hide Advance, EntryEnd, Marks, EndDecoder, Commit;
    var e := s.entries[s.cursor];
    NoMarks();
    if IsCompressed(e.kind) {
      var begun := s.nczUser + [Start([], 0)];
      assert begun + [] == begun;
      DecoderEnds(target, Consume(TapeEnv(target), OpenEntry(TapeEnv(target), s), body));
    } else {
      var begun := s.user + [Start(e.contentId, e.size)];
      assert begun + [] == begun;
      ContentEnds(target, Consume(TapeEnv(target), OpenEntry(TapeEnv(target), s), body));
    }
  }

  lemma NoMarks()
    ensures Marks([]) == []
  {
  }

  lemma DecoderEnds(target: u8, s: State<Tape, Tape>)
    requires s.cursor < |s.entries|
    ensures EndDecoder(TapeEnv(target), s) == s.(nczUser := s.nczUser + [Done], nczActive := false)
  {
  }

  lemma ContentEnds(target: u8, s: State<Tape, Tape>)
    ensures Commit(TapeEnv(target), s) == s.(user := s.user + [Done], contentOpen := false)
  {
  }

  lemma WholeTicket(target: u8, s: State<Tape, Tape>, body: bytes)
    requires s.stage.Streaming? && s.cursor < |s.entries| && !s.contentOpen && !s.nczActive && Room(s, |body|)
    requires s.entries[s.cursor].kind.Ticket? || s.entries[s.cursor].kind.Cert?
    requires (if body == [] then s.streamPos else Advance(s.streamPos, |body|)) >= EntryEnd(s.entries[s.cursor])
    ensures StepEntry(TapeEnv(target), s, body) == AfterEntry(s, body)
  {
    hide Advance, EntryEnd;
    assert body == [] ==> s.tik + body == s.tik && s.cert + body == s.cert;
  }

  lemma EntryAt(es: seq<Entry>, i: nat)
    requires NoneIgnored(es) && i < |es|
    ensures !es[i].kind.Ignore?
  {
  }

  lemma ZerosSplit(m: nat, n: nat, r: bytes)
    ensures Zeros(m + n) + r == Zeros(m) + (Zeros(n) + r)
    ensures (Zeros(m) + r)[..m] == Zeros(m) && (Zeros(m) + r)[m..] == r
  {
  }

  /** Padding in front of an entry is skipped. */
  lemma SkipGap(target: u8, s: State<Tape, Tape>, r: bytes)
    requires Between(s) && r != [] && s.streamPos <= s.entries[s.cursor].absOffset
    ensures var e := s.entries[s.cursor];
            Valid(TapeEnv(target), s) && Valid(TapeEnv(target), s.(streamPos := e.absOffset))
            && Feed(TapeEnv(target), s, Zeros(e.absOffset - s.streamPos) + r) == Feed(TapeEnv(target), s.(streamPos := e.absOffset), r)
  {
    hide Advance, EntryEnd, NoneIgnored, Reachable, SizeOf, StepEntry, TapeEnv, Feed;
    var e := s.entries[s.cursor];
    var gap := e.absOffset - s.streamPos;
    MovedIsValid(target, s, e.absOffset);
    if gap == 0 {
      assert Zeros(0) + r == r && s.(streamPos := e.absOffset) == s;
    } else {
      ZerosSplit(gap, 0, r);
      AdvanceTwice(s.streamPos, gap, 0);
      FeedStep(TapeEnv(target), s, Zeros(gap) + r);
    }
  }

  lemma MovedIsValid(target: u8, s: State<Tape, Tape>, pos: u64)
    requires Between(s)
    ensures Valid(TapeEnv(target), s) && Valid(TapeEnv(target), s.(streamPos := pos))
  {
    hide NoneIgnored, Reachable;
  }

  /** An entry whose bytes are all there is stored, and the feed goes on behind it. */
  lemma ThroughEntry(target: u8, s: State<Tape, Tape>, n: nat, r: bytes)
    requires Between(s) && r != [] && s.streamPos >= s.entries[s.cursor].absOffset && s.streamPos + n == EntryEnd(s.entries[s.cursor])
    ensures Valid(TapeEnv(target), s) && Valid(TapeEnv(target), AfterEntry(s, Zeros(n)))
            && Feed(TapeEnv(target), s, Zeros(n) + r) == Feed(TapeEnv(target), AfterEntry(s, Zeros(n)), r)
  {
    if n > 0 {
      EndIsNear(s.entries[s.cursor], s.streamPos, n);
    }
    RoomForOwn(s, n);
    WholeEntry(target, s, Zeros(n));
    AfterIsValid(target, s, Zeros(n));
    hide Advance, EntryEnd, NoneIgnored, Reachable, SizeOf, StepEntry, TapeEnv, AfterEntry;
    ZerosSplit(n, 0, r);
    FeedStep(TapeEnv(target), s, Zeros(n) + r);
  }

  lemma AfterIsValid(target: u8, s: State<Tape, Tape>, body: bytes)
    requires Between(s)
    ensures Valid(TapeEnv(target), s) && Valid(TapeEnv(target), AfterEntry(s, body))
  {
    hide Advance, NoneIgnored, Reachable, Marks;
  }

  lemma FeedStep<S, D>(env: Env<S, D>, s: State<S, D>, data: bytes)
    requires Valid(env, s) && !s.stage.Failed? && data != []
    ensures var (t, used) := Iter(env, s, data); Valid(env, t) && Feed(env, s, data) == Feed(env, t, data[used..])
  {
    hide Iter, Valid;
    IterProgress(env, s, data);
  }

  // ----- what is recorded only grows -----

  /** A run that goes on has only added to what `s` had recorded. */
  predicate Grown(s: State<Tape, Tape>, t: State<Tape, Tape>) {
    t.stage.Failed? ||
    ((t.stage.Streaming? || t.stage.Complete?) && s.user <= t.user && s.nczUser <= t.nczUser && s.tik <= t.tik && s.cert <= t.cert && s.cursor <= t.cursor)
  }

  lemma EntryGrows(target: u8, s: State<Tape, Tape>, chunk: bytes)
    requires s.stage.Streaming? && s.cursor < |s.entries|
    ensures Grown(s, StepEntry(TapeEnv(target), s, chunk))
  {
    hide Advance, EntryEnd, Consume, CloseEntry;
    var o := OpenEntry(TapeEnv(target), s);
    ConsumeGrows(target, o, chunk);
    CloseGrows(target, Consume(TapeEnv(target), o, chunk));
  }

  lemma ConsumeGrows(target: u8, s: State<Tape, Tape>, chunk: bytes)
    requires s.stage.Streaming? && s.cursor < |s.entries|
    ensures var t := Consume(TapeEnv(target), s, chunk); Grown(s, t) && (t.stage.Failed? || t.stage == s.stage)
  {
    hide Advance, Route, TapeEnv;
    RouteGrows(target, s, chunk);
  }

  lemma RouteGrows(target: u8, s: State<Tape, Tape>, chunk: bytes)
    requires s.stage.Streaming? && s.cursor < |s.entries|
    ensures var t := Route(TapeEnv(target), s, chunk); Grown(s, t) && (t.stage.Failed? || t.stage == s.stage)
  {
    hide Advance, Marks, WriteContent, FeedDecoder;
    TapesGrow(target, s, chunk);
  }

  lemma TapesGrow(target: u8, s: State<Tape, Tape>, chunk: bytes)
    requires s.stage.Streaming? && s.cursor < |s.entries|
    ensures var (t, ok) := WriteContent(TapeEnv(target), s, chunk); ok && Grown(s, t) && t.stage == s.stage
    ensures var t := FeedDecoder(TapeEnv(target), s, chunk); Grown(s, t) && t.stage == s.stage
  {
    hide Advance, Marks;
  }

  lemma CloseGrows(target: u8, s: State<Tape, Tape>)
    requires (s.stage.Streaming? || s.stage.Failed?) && s.cursor < |s.entries|
    ensures Grown(s, CloseEntry(TapeEnv(target), s))
  {
  }

  lemma {:induction false} FeedGrows(target: u8, s: State<Tape, Tape>, data: bytes)
    requires Valid(TapeEnv(target), s) && (s.stage.Streaming? || s.stage.Complete? || s.stage.Failed?)
    ensures Grown(s, Feed(TapeEnv(target), s, data))
    decreases |data|, StageRank(s.stage), EntriesLeft(s)
  {
    hide StepEntry, Advance, EntryEnd, TapeEnv;
    if data != [] && !s.stage.Failed? {
      IterProgress(TapeEnv(target), s, data);
      var (t, used) := Iter(TapeEnv(target), s, data);
      if s.stage.Streaming? && s.cursor < |s.entries| && s.streamPos >= s.entries[s.cursor].absOffset {
        EntryGrows(target, s, data[..Min(|data|, Sub64(EntryEnd(s.entries[s.cursor]), s.streamPos))]);
      }
      FeedGrows(target, t, data[used..]);
    }
  }

  // ----- an entry behind the stream -----

  /** The current entry ends before where the stream is. */
  predicate Behind(s: State<Tape, Tape>)
    requires s.cursor < |s.entries|
  {
    s.streamPos >= s.entries[s.cursor].absOffset && s.streamPos > EntryEnd(s.entries[s.cursor])
  }

  /** The way to an entry's end is no longer than the entry. */
  lemma EndIsNear(e: Entry, pos: nat, n: nat)
    requires pos + n == EntryEnd(e) && pos + 1 >= e.absOffset && n > 0
    ensures n <= e.size + 1 && (pos >= e.absOffset ==> n <= e.size)
  {
  }

  /** It swallows any chunk whole. */
  lemma BehindSwallows(target: u8, s: State<Tape, Tape>, data: bytes)
    requires Between(s) && Behind(s) && Room(s, |data|) && data != [] && s.streamPos + |data| < U64_LIMIT
    ensures Valid(TapeEnv(target), s) && Valid(TapeEnv(target), AfterEntry(s, data))
            && Feed(TapeEnv(target), s, data) == AfterEntry(s, data)
  {
    hide Advance, EntryEnd, NoneIgnored, Reachable, SizeOf, StepEntry, TapeEnv, AfterEntry;
    AfterIsValid(target, s, data);
    WholeEntry(target, s, data);
    FeedStep(TapeEnv(target), s, data);
    assert data[..|data|] == data && data[|data|..] == [];
    FeedNothing(TapeEnv(target), AfterEntry(s, data));
  }

  /** Two bytes fed to a content together or one after the other end up differently. */
  lemma ContentCuts(target: u8, s: State<Tape, Tape>)
    requires Between(s) && Behind(s) && IsContent(s.entries[s.cursor].kind)
    ensures Valid(TapeEnv(target), s)
            && !Agree(Feed(TapeEnv(target), s, [0, 0]), Feed(TapeEnv(target), Feed(TapeEnv(target), s, [0]), [0]))
  {
    hide Advance, EntryEnd, NoneIgnored, Reachable, SizeOf, TapeEnv, AfterEntry, Feed;
    BehindSwallows(target, s, [0, 0]);
    BehindSwallows(target, s, [0]);
    AfterShape(s, [0, 0]);
    AfterShape(s, [0]);
    var one := AfterEntry(s, [0]);
    FeedGrows(target, one, [0]);
    var other := Feed(TapeEnv(target), one, [0]);
    if !other.stage.Failed? {
      TapesDiffer(s, other);
    }
  }

  lemma AfterShape(s: State<Tape, Tape>, body: bytes)
    requires Between(s)
    ensures var t := AfterEntry(s, body);
            t.entries == s.entries && t.cursor == s.cursor + 1 && t.stage == if t.cursor < |t.entries| then Streaming else Complete
  {
    hide Advance, EntryEnd, NoneIgnored, Reachable, Marks;
  }

  lemma TapesDiffer(s: State<Tape, Tape>, other: State<Tape, Tape>)
    requires s.cursor < |s.entries| && IsContent(s.entries[s.cursor].kind) && Grown(AfterEntry(s, [0]), other) && !other.stage.Failed?
    ensures AfterEntry(s, [0, 0]) != other
  {
    var one, both := AfterEntry(s, [0]), AfterEntry(s, [0, 0]);
    if IsCompressed(s.entries[s.cursor].kind) {
      var n := |s.nczUser|;
      assert one.nczUser[n + 2] == Done && both.nczUser[n + 2] == Byte(0);
    } else {
      var n := |s.user|;
      assert one.user[n + 2] == Done && both.user[n + 2] == Byte(0);
    }
  }

  // ----- a ticket or certificate behind the stream -----

  function Held(kind: Kind, s: State<Tape, Tape>): bytes {
    if kind.Ticket? then s.tik else s.cert
  }

  lemma StepCloses(target: u8, s: State<Tape, Tape>, chunk: bytes)
    requires s.stage.Streaming? && s.cursor < |s.entries|
    requires s.streamPos + |chunk| < U64_LIMIT && s.streamPos + |chunk| >= EntryEnd(s.entries[s.cursor])
    ensures var t := StepEntry(TapeEnv(target), s, chunk); t.stage.Failed? || t.cursor > s.cursor
  {
    hide EntryEnd, Advance, Route;
    AdvanceTwice(s.streamPos, |chunk|, 0);
    var o := OpenEntry(TapeEnv(target), s);
    ConsumeMoves(target, o, chunk);
  }

  lemma ConsumeMoves(target: u8, s: State<Tape, Tape>, chunk: bytes)
    requires s.cursor < |s.entries|
    ensures var t := Consume(TapeEnv(target), s, chunk);
            t.stage.Failed? || t.streamPos == if chunk == [] then s.streamPos else Advance(s.streamPos, |chunk|)
  {
    hide Advance, Marks;
  }

  /** So many bytes take a run behind its current entry. */
  function ToEnd(s: State<Tape, Tape>): nat
    requires s.cursor < |s.entries|
  {
    Max(1, EntryEnd(s.entries[s.cursor]) - s.streamPos)
  }

  lemma EntryPassed(target: u8, s: State<Tape, Tape>)
    requires s.stage.Streaming? && s.cursor < |s.entries| && s.streamPos >= s.entries[s.cursor].absOffset
    requires s.streamPos + 1 < U64_LIMIT
    ensures Valid(TapeEnv(target), s)
    ensures var t := Feed(TapeEnv(target), s, Zeros(ToEnd(s))); t.stage.Failed? || t.cursor > s.cursor
  {
    hide EntryEnd, StepEntry, TapeEnv, Feed;
    var env, data := TapeEnv(target), Zeros(ToEnd(s));
    PosIsValid(target, s);
    FeedStep(env, s, data);
    var take := Min(|data|, Sub64(EntryEnd(s.entries[s.cursor]), s.streamPos));
    StepCloses(target, s, data[..take]);
    EntryGrows(target, s, data[..take]);
    IterProgress(env, s, data);
    var t := Iter(env, s, data).0;
    FeedGrows(target, t, data[take..]);
    if t.stage.Failed? {
      FailedFeed(env, t, data[take..]);
    }
  }

  lemma PosIsValid(target: u8, s: State<Tape, Tape>)
    requires s.stage.Streaming? && s.cursor <= |s.entries|
    ensures Valid(TapeEnv(target), s)
  {
  }

  /** The next entry has other things to do with a byte, so the held bytes stay as they are or a later entry comes up. */
  lemma ByteGoesOn(target: u8, kind: Kind, t: State<Tape, Tape>)
    requires (kind.Ticket? || kind.Cert?) && t.streamPos + 1 < U64_LIMIT && !t.nczActive
    requires t.stage.Complete? || (t.stage.Streaming? && t.cursor < |t.entries| && SendsElsewhere(kind, t))
    ensures Valid(TapeEnv(target), t)
    ensures var u := Feed(TapeEnv(target), t, [0]); u.stage.Failed? || u.cursor > t.cursor || Held(kind, u) == Held(kind, t)
  {
    hide EntryEnd, StepEntry, TapeEnv, Feed, Advance;
    var env := TapeEnv(target);
    TapeValid(target, t);
    FeedStep(env, t, [0]);
    var (u, used) := Iter(env, t, [0]);
    IterProgress(env, t, [0]);
    assert [0][1..] == [];
    if t.stage.Complete? || t.streamPos < t.entries[t.cursor].absOffset {
      FeedNothing(env, u);
    } else if EntryEnd(t.entries[t.cursor]) <= t.streamPos {
      EntryPassed(target, t);
      assert Zeros(1) == [0];
    } else {
      ByteElsewhere(target, kind, t);
      FeedNothing(env, u);
    }
  }

  /** The current entry is still to come, is over already or is of another kind. */
  predicate SendsElsewhere(kind: Kind, t: State<Tape, Tape>)
    requires t.cursor < |t.entries|
  {
    var e := t.entries[t.cursor];
    t.streamPos < e.absOffset || EntryEnd(e) <= t.streamPos || e.kind != kind
  }

  lemma TapeValid(target: u8, t: State<Tape, Tape>)
    requires t.stage.Complete? || (t.stage.Streaming? && t.cursor < |t.entries|)
    ensures Valid(TapeEnv(target), t)
  {
  }

  lemma ByteElsewhere(target: u8, kind: Kind, t: State<Tape, Tape>)
    requires (kind.Ticket? || kind.Cert?) && t.stage.Streaming? && t.cursor < |t.entries| && t.entries[t.cursor].kind != kind && !t.nczActive
    requires t.streamPos >= t.entries[t.cursor].absOffset && EntryEnd(t.entries[t.cursor]) > t.streamPos
    ensures Valid(TapeEnv(target), t)
    ensures var (u, used) := Iter(TapeEnv(target), t, [0]);
            used == 1 && (u.stage.Failed? || Held(kind, u) == Held(kind, t))
  {
    hide EntryEnd, Advance, Route, Held;
    var o := OpenEntry(TapeEnv(target), t);
    RoutedElsewhere(target, kind, o, [0]);
    assert [0][..1] == [0];
    var c := Consume(TapeEnv(target), o, [0]);
    OnlyRouted(target, kind, t, c);
  }

  lemma RoutedElsewhere(target: u8, kind: Kind, t: State<Tape, Tape>, chunk: bytes)
    requires t.cursor < |t.entries| && (kind.Ticket? || kind.Cert?) && t.entries[t.cursor].kind != kind
    ensures var u := Route(TapeEnv(target), t, chunk); u.stage.Failed? || Held(kind, u) == Held(kind, t)
  {
    hide Advance, Marks;
  }

  /** Neither opening nor closing an entry, nor moving on, touches what is held. */
  lemma OnlyRouted(target: u8, kind: Kind, t: State<Tape, Tape>, c: State<Tape, Tape>)
    requires t.cursor < |t.entries| && c.cursor < |c.entries|
    ensures Held(kind, OpenEntry(TapeEnv(target), t)) == Held(kind, t)
    ensures Held(kind, CloseEntry(TapeEnv(target), c)) == Held(kind, c)
    ensures forall pos: u64 :: Held(kind, c.(streamPos := pos)) == Held(kind, c)
  {
  }

  /** The bytes behind the first that tell whether it was fed alone. */
  function Telling(s: State<Tape, Tape>): bytes
    requires s.cursor < |s.entries|
  {
    var next := s.(cursor := s.cursor + 1, streamPos := Advance(s.streamPos, 1));
    if next.cursor < |s.entries| && !SendsElsewhere(s.entries[s.cursor].kind, next) then Zeros(ToEnd(next)) else [0]
  }

  lemma TicketCuts(target: u8, s: State<Tape, Tape>)
    requires Between(s) && Behind(s) && !IsContent(s.entries[s.cursor].kind)
    ensures s.streamPos + 1 + |Telling(s)| + 1 < U64_LIMIT && Valid(TapeEnv(target), s)
            && !Agree(Feed(TapeEnv(target), s, [0] + Telling(s)), Feed(TapeEnv(target), Feed(TapeEnv(target), s, [0]), Telling(s)))
  {
    hide Advance, EntryEnd, NoneIgnored, Reachable, SizeOf, TapeEnv, AfterEntry, Feed;
    var kind, b := s.entries[s.cursor].kind, Telling(s);
    AdvanceTwice(s.streamPos, 1, 0);
    EntryAt(s.entries, s.cursor);
    TellingFits(s);
    BehindSwallows(target, s, [0]);
    BehindSwallows(target, s, [0] + b);
    AfterTicket(s, [0]);
    AfterTicket(s, [0] + b);
    var one := AfterEntry(s, [0]);
    if one.stage.Streaming? && !SendsElsewhere(kind, one) {
      EntryPassed(target, one);
    } else {
      ByteGoesOn(target, kind, one);
    }
  }

  lemma AfterTicket(s: State<Tape, Tape>, body: bytes)
    requires Between(s) && !IsContent(s.entries[s.cursor].kind) && body != []
    ensures var t := AfterEntry(s, body);
            && t.entries == s.entries && t.cursor == s.cursor + 1 && t.stage == (if t.cursor < |t.entries| then Streaming else Complete)
            && t.streamPos == Advance(s.streamPos, |body|) && !t.nczActive
            && |Held(s.entries[s.cursor].kind, t)| == |Held(s.entries[s.cursor].kind, s)| + |body|
  {
    hide Advance, EntryEnd, Reachable, Marks, SizeOf;
  }

  lemma TellingFits(s: State<Tape, Tape>)
    requires Between(s) && Behind(s)
    ensures Telling(s) != [] && s.streamPos + 1 + |Telling(s)| + 1 < U64_LIMIT && Room(s, 1 + |Telling(s)|) && Room(s, 1)
  {
    hide EntryEnd, NoneIgnored, SizeOf, Roomy;
    AdvanceTwice(s.streamPos, 1, 0);
    RoomForOwn(s, 2);
    var next := s.(cursor := s.cursor + 1, streamPos := Advance(s.streamPos, 1));
    if next.cursor < |s.entries| && !SendsElsewhere(s.entries[s.cursor].kind, next) {
      var e := s.entries[s.cursor + 1];
      EndIsNear(e, s.streamPos + 1, ToEnd(next));
      RoomForNext(s, 1 + ToEnd(next));
    }
  }

  // ----- some stream gets there -----

  /** Bytes `d` and one more, and then `b`: the feeds that tell the cuts apart. */
  ghost predicate Tells(target: u8, s: State<Tape, Tape>, d: bytes, b: bytes)
    requires Valid(TapeEnv(target), s)
  {
    var env := TapeEnv(target);
    s.streamPos + |d| + 1 + |b| < U64_LIMIT && !Agree(Feed(env, s, d + ([0] + b)), Feed(env, Feed(env, s, d + [0]), b))
  }

  lemma BehindTells(target: u8, s: State<Tape, Tape>) returns (b: bytes)
    requires Between(s) && Behind(s)
    ensures Valid(TapeEnv(target), s) && b != [] && Tells(target, s, [], b)
  {
    hide Advance, EntryEnd, NoneIgnored, Reachable, Roomy, SizeOf, TapeEnv, Feed, Agree, Telling;
    b := if IsContent(s.entries[s.cursor].kind) then [0] else Telling(s);
    TellingFits(s);
    assert [] + ([0] + b) == [0] + b && [] + [0] == [0];
    if IsContent(s.entries[s.cursor].kind) {
      ContentCuts(target, s);
      assert [0] + b == [0, 0];
    } else {
      TicketCuts(target, s);
    }
  }

  /** Wherever the first entry behind the stream is, some stream reaches it. */
  lemma {:induction false} UncalmTells(target: u8, s: State<Tape, Tape>) returns (d: bytes, b: bytes)
    requires Between(s) && !CalmEntries(s.entries[s.cursor..], s.streamPos)
    ensures Valid(TapeEnv(target), s) && b != [] && Tells(target, s, d, b)
    decreases |s.entries| - s.cursor
  {
    hide Advance, EntryEnd, NoneIgnored, StepEntry, TapeEnv, AfterEntry, CalmEntries, Feed, Valid, Agree, SizeOf, Roomy;
    var e := s.entries[s.cursor];
    MovedIsValid(target, s, e.absOffset);
    CalmHead(s.entries, s.cursor, s.streamPos);
    ReachableAt(s.entries, s.cursor);
    var gap := Max(0, e.absOffset - s.streamPos);
    var at := if gap > 0 then s.(streamPos := e.absOffset) else s;
    MovedIsBetween(s, e.absOffset);
    var rest: bytes;
    if EntryEnd(e) < at.streamPos {
      rest := [];
      b := BehindTells(target, at);
    } else {
      var n := EntryEnd(e) - at.streamPos;
      var next := AfterEntry(at, Zeros(n));
      NextBetween(at, n);
      var more;
      more, b := UncalmTells(target, next);
      rest := Zeros(n) + more;
      ThroughEntry(target, at, n, more + ([0] + b));
      ThroughEntry(target, at, n, more + [0]);
      assert rest + ([0] + b) == Zeros(n) + (more + ([0] + b)) && rest + [0] == Zeros(n) + (more + [0]);
    }
    d := Zeros(gap) + rest;
    assert d + ([0] + b) == Zeros(gap) + (rest + ([0] + b)) && d + [0] == Zeros(gap) + (rest + [0]);
    if gap > 0 {
      SkipGap(target, s, rest + ([0] + b));
      SkipGap(target, s, rest + [0]);
    } else {
      assert d == rest;
    }
  }

  lemma ReachableAt(es: seq<Entry>, i: nat)
    requires Reachable(es) && i < |es|
    ensures es[i].absOffset + 3 < U64_LIMIT && EntryEnd(es[i]) + 3 < U64_LIMIT
  {
  }

  lemma MovedIsBetween(s: State<Tape, Tape>, pos: u64)
    requires Between(s) && pos + 3 < U64_LIMIT
    ensures Between(s.(streamPos := pos))
  {
    hide NoneIgnored, Reachable;
  }

  /** Behind a calm entry the trouble is still ahead, so there is a next entry. */
  lemma NextBetween(s: State<Tape, Tape>, n: nat)
    requires Between(s) && s.streamPos >= s.entries[s.cursor].absOffset && s.streamPos + n == EntryEnd(s.entries[s.cursor])
    requires !CalmEntries(s.entries[s.cursor + 1..], EntryEnd(s.entries[s.cursor]))
    ensures var t := AfterEntry(s, Zeros(n));
            Between(t) && t.entries == s.entries && t.cursor == s.cursor + 1 && t.streamPos == EntryEnd(s.entries[s.cursor])
  {
    hide Advance, NoneIgnored, Marks, SizeOf, EntryEnd;
    AdvanceTwice(s.streamPos, n, 0);
    NothingLeftIsCalm(s.entries, EntryEnd(s.entries[s.cursor]));
    if n > 0 {
      EndIsNear(s.entries[s.cursor], s.streamPos, n);
    }
    SizeOfNext(Ticket, s.entries, s.cursor);
    SizeOfNext(Cert, s.entries, s.cursor);
  }

  lemma NothingLeftIsCalm(es: seq<Entry>, pos: u64)
    ensures CalmEntries(es[|es|..], pos)
  {
    assert es[|es|..] == [];
  }

  /**
   * The recording backend and decoder end up the same for every way of cutting every stream, if and only if
   * no entry still to come ends before the stream has reached it.
   */
  lemma CutsDoNotMatterIffCalm(target: u8, s: State<Tape, Tape>)
    requires Between(s)
    ensures Valid(TapeEnv(target), s)
    ensures (forall a: bytes, b: bytes :: s.streamPos + |a| + |b| < U64_LIMIT ==> SameForCut(target, s, a, b))
              <==> CalmEntries(s.entries[s.cursor..], s.streamPos)
  {
    hide Advance, NoneIgnored, Reachable, TapeEnv, CalmEntries, Feed, Valid, Agree;
    MovedIsValid(target, s, 0);
    if CalmEntries(s.entries[s.cursor..], s.streamPos) {
      forall a: bytes, b: bytes | s.streamPos + |a| + |b| < U64_LIMIT
        ensures SameForCut(target, s, a, b)
      {
        CalmCutsAgree(target, s, a, b);
      }
    } else {
      var d, b := UncalmTells(target, s);
      assert d + [0] + b == d + ([0] + b);
      assert !SameForCut(target, s, d + [0], b);
    }
  }

  lemma CalmCutsAgree(target: u8, s: State<Tape, Tape>, a: bytes, b: bytes)
    requires Between(s) && Valid(TapeEnv(target), s) && CalmEntries(s.entries[s.cursor..], s.streamPos) && s.streamPos + |a| + |b| < U64_LIMIT
    ensures SameForCut(target, s, a, b)
  {
    hide NoneIgnored, Reachable, CalmEntries, Feed, Agree, CutFreeBackend, CutFreeDecoder, SeamlessEntries;
    TapeIsCutFree();
    var stream := Zeros(s.streamPos) + (a + b);
    ZerosSplit(s.streamPos, 0, a + b);
    CutFreeIsSeamless(TapeNcz, s.entries[s.cursor..], s.streamPos, stream);
    FeedTwiceAgrees(TapeEnv(target), s, stream, a, b);
  }

  /** Reading a whole header takes a run to the first entry, on any hooks. */
  lemma HeaderIsRead<S, D>(env: Env<S, D>, user: S, d: D, h: bytes)
    requires Layout(h).Some? && Layout(h).value.1 == |h|
    ensures Valid(env, Begin(env, user, d))
    ensures AtFirstEntry(Feed(env, Begin(env, user, d), h), user, d, h)
  {
    hide Pfs.PeekHeaderSize, Pfs.Parse, Collect, SortByOffset, Advance, Fail, Feed;
    LayoutNeedsHeader(h);
    LayoutHasEntries(h);
    var s := Begin(env, user, d);
    var first, rest := h[..Pfs.HEADER_SIZE], h[Pfs.HEADER_SIZE..];
    AdvanceTwice(0, Pfs.HEADER_SIZE, |rest|);
    assert first + rest == h && [] + first == first;
    Pfs.PeekIsLocal(first, h);
    FeedStep(env, s, h);
    var (t, used) := Iter(env, s, h);
    assert used == Pfs.HEADER_SIZE && t.header == first && t.stage == Header && t.headerSize == |h|;
    HeaderRest(env, t, rest, h);
  }

  /** The header has been read and nothing else has happened. */
  ghost predicate AtFirstEntry<S, D>(s: State<S, D>, user: S, d: D, h: bytes)
    requires Layout(h).Some?
  {
    && s.stage.Streaming? && s.cursor == 0 && !s.contentOpen && !s.nczActive && s.streamPos == |h|
    && s.entries == Layout(h).value.0 && s.user == user && s.nczUser == d && s.tik == [] && s.cert == []
  }

  lemma HeaderRest<S, D>(env: Env<S, D>, t: State<S, D>, rest: bytes, h: bytes)
    requires Valid(env, t) && t.stage.Header? && t.headerSize == |h| && t.header + rest == h && t.streamPos == |t.header|
    requires |h| < U64_LIMIT && t.cursor == 0 && !t.contentOpen && !t.nczActive && t.tik == [] && t.cert == []
    requires Layout(h).Some? && Layout(h).value.1 == |h| && rest != []
    ensures AtFirstEntry(Feed(env, t, rest), t.user, t.nczUser, h)
  {
    hide Pfs.PeekHeaderSize, Pfs.Parse, Collect, SortByOffset, Advance, Fail, Feed;
    AdvanceTwice(t.streamPos, |rest|, 0);
    FeedStep(env, t, rest);
    assert rest[..|rest|] == rest && h[..|h|] == h && rest[|rest|..] == [];
    FeedNothing(env, Iter(env, t, rest).0);
  }

  /** The same, said of a container's header: a caller can check it before the first content byte. */
  lemma HeaderDecides(target: u8, h: bytes)
    requires Layout(h).Some? && Layout(h).value.1 == |h| && Roomy(Layout(h).value.0) && Reachable(Layout(h).value.0)
    ensures Valid(TapeEnv(target), Begin(TapeEnv(target), [], []))
    ensures var s := Feed(TapeEnv(target), Begin(TapeEnv(target), [], []), h);
            (forall a: bytes, b: bytes :: |h| + |a| + |b| < U64_LIMIT ==> SameForCut(target, s, a, b)) <==> CalmStream(h)
  {
    hide Layout, NoneIgnored, Reachable, CalmEntries, Feed, TapeEnv, SameForCut, Roomy, SizeOf;
    HeaderIsRead(TapeEnv(target), [], [], h);
    LayoutIgnoresNone(h);
    LayoutHasEntries(h);
    var s := Feed(TapeEnv(target), Begin(TapeEnv(target), [], []), h);
    LayoutIsSmall(h);
    assert s.entries[0..] == s.entries;
    CutsDoNotMatterIffCalm(target, s);
  }

  lemma {:induction false} CollectIgnoresNone(ctx: Pfs.Context, i: nat, found: seq<Entry>)
    requires Pfs.ValidContext(ctx) && i <= ctx.count && NoneIgnored(found)
    ensures NoneIgnored(Collect(ctx, i, found).0)
    decreases ctx.count - i
  {
    hide Pfs.ValidContext, EntryFor, Pfs.GetEntry;
    if i < ctx.count {
      var e := EntryFor(ctx, i, Pfs.GetEntry(ctx, i).value);
      CollectIgnoresNone(ctx, i + 1, if e.kind.Ignore? || |found| >= MAX_CONTENTS then found else found + [e]);
    }
  }

  lemma LayoutIgnoresNone(h: bytes)
    requires Layout(h).Some?
    ensures NoneIgnored(Layout(h).value.0)
  {
    hide Pfs.PeekHeaderSize, Collect, SortByOffset, LastMeta;
    var ctx := Pfs.Parse(h[..Layout(h).value.1]).value;
    CollectIgnoresNone(ctx, 0, []);
    var es, sorted := Collect(ctx, 0, []).0, Layout(h).value.0;
    SortIsStableSort(es);
    forall i | 0 <= i < |sorted|
      ensures !sorted[i].kind.Ignore?
    {
      assert sorted[i] in multiset(es);
      assert sorted[i] in es;
    }
  }

  lemma LayoutIsSmall(h: bytes)
    requires Layout(h).Some?
    ensures Layout(h).value.1 <= MAX_HEADER
  {
    hide Pfs.PeekHeaderSize, Pfs.Parse, Collect, SortByOffset, LastMeta;
  }

  ghost predicate SameForCut(target: u8, s: State<Tape, Tape>, a: bytes, b: bytes)
    requires Valid(TapeEnv(target), s)
  {
    var env := TapeEnv(target);
    Agree(Feed(env, s, a + b), Feed(env, Feed(env, s, a), b))
  }
}
