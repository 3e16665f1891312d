/** The installer as the program keeps it: one object whose fields and buffers every call updates in place. */
module Installer {
  import opened Bytes
  import opened EntryNames
  import opened InstallSpec
  import Pfs = PartitionFs
  import Cnmt

  /** Sorts the first `n` entries by offset, in place. */
  method InsertionSort(a: array<Entry>, n: nat)
    requires n <= a.Length
    modifies a
    ensures a[..n] == SortByOffset(old(a[..n]))
    ensures a[n..] == old(a[n..])
  {
    hide *;
    ghost var was := a[..];
    assert a[..0] == [] && SortByOffset(was[..0]) == [] by { SortSteps(was, 0); }
    for i := 0 to n
      invariant a[..i] == SortByOffset(was[..i])
      invariant a[i..] == was[i..]
    {
      ShiftInto(a, i);
      SortSteps(was, i);
    }
  }

  lemma SortSteps(was: seq<Entry>, i: nat)
    requires i <= |was|
    ensures was[..0] == [] && SortByOffset(was[..0]) == []
    ensures i < |was| ==> SortByOffset(was[..i + 1]) == Insert(SortByOffset(was[..i]), was[i])
  {
    if i < |was| {
      assert was[..i + 1][..i] == was[..i];
    }
  }

  /** Moves the larger entries up by one and drops entry `i` into the gap. */
  method ShiftInto(a: array<Entry>, i: nat)
    requires i < a.Length
    modifies a
    ensures a[..i + 1] == Insert(old(a[..i]), old(a[i]))
    ensures a[i + 1..] == old(a[i + 1..])
  {
    hide *;
    var key := a[i];
    ghost var sorted, rest := a[..i], a[i + 1..];
    var j := i;
    assert sorted[..i] == sorted && sorted[i..] == [];
    while j > 0 && a[j - 1].absOffset > key.absOffset
      invariant j <= i
      invariant a[..j] == sorted[..j]
      invariant a[j + 1..i + 1] == sorted[j..]
      invariant a[i + 1..] == rest
      invariant Insert(sorted, key) == Insert(sorted[..j], key) + sorted[j..]
    {
      assert a[..j][j - 1] == sorted[..j][j - 1];
      InsertShifts(sorted, j, key);
      ghost var before := a[..];
      a[j] := a[j - 1];
      Shifted(before, a[..], sorted, i, j);
      j := j - 1;
    }
    assert j > 0 ==> a[..j][j - 1] == sorted[..j][j - 1];
    InsertLands(sorted, j, key);
    ghost var before := a[..];
    a[j] := key;
    Landed(before, a[..], sorted, i, j, key);
  }

  lemma Shifted(before: seq<Entry>, after: seq<Entry>, sorted: seq<Entry>, i: nat, j: nat)
    requires 0 < j <= i < |before| && |sorted| == i && after == before[j := before[j - 1]]
    requires before[..j] == sorted[..j] && before[j + 1..i + 1] == sorted[j..]
    ensures after[..j - 1] == sorted[..j - 1] && after[j..i + 1] == sorted[j - 1..] && after[i + 1..] == before[i + 1..]
  {
    assert after[..j - 1] == before[..j][..j - 1];
    assert after[j..i + 1] == [before[..j][j - 1]] + before[j + 1..i + 1];
    assert sorted[j - 1..] == [sorted[..j][j - 1]] + sorted[j..];
  }

  lemma Landed(before: seq<Entry>, after: seq<Entry>, sorted: seq<Entry>, i: nat, j: nat, key: Entry)
    requires j <= i < |before| && |sorted| == i && after == before[j := key]
    requires before[..j] == sorted[..j] && before[j + 1..i + 1] == sorted[j..]
    ensures after[..i + 1] == sorted[..j] + [key] + sorted[j..] && after[i + 1..] == before[i + 1..]
  {
    assert after[..i + 1] == before[..j] + [key] + before[j + 1..i + 1];
  }

  lemma InsertShifts(sorted: seq<Entry>, j: nat, key: Entry)
    requires 0 < j <= |sorted| && sorted[j - 1].absOffset > key.absOffset
    ensures Insert(sorted[..j], key) + sorted[j..] == Insert(sorted[..j - 1], key) + sorted[j - 1..]
  {
    assert sorted[..j][..j - 1] == sorted[..j - 1];
    assert [sorted[j - 1]] + sorted[j..] == sorted[j - 1..];
  }

  lemma InsertLands(sorted: seq<Entry>, j: nat, key: Entry)
    requires j <= |sorted| && (j == 0 || sorted[j - 1].absOffset <= key.absOffset)
    ensures Insert(sorted[..j], key) == sorted[..j] + [key]
  {
  }

  class NexusInstaller<S, D> {
    var env: Env<S, D>
    var user: S
    var nczUser: D

    var stage: Stage
    const header: array<byte>
    var headerHave: nat
    var headerSize: u64

    const entries: array<Entry>
    var entryCount: nat
    var cursor: nat
    var contentOpen: bool

    const tik: array<byte>
    var tikLen: nat
    const cert: array<byte>
    var certLen: nat

    var metaId: bytes
    var hasMeta: bool
    var metaSize: u64
    var nczActive: bool
    var streamPos: u64
    var bytesWritten: u64
    var meta: Meta

    /** The buffers have their fixed sizes, are apart, and are filled no further than that. */
    ghost predicate Shaped()
      reads this
    {
      && header.Length == MAX_HEADER && tik.Length == MAX_TICKET && cert.Length == MAX_CERT && entries.Length == MAX_CONTENTS
      && header != tik && header != cert && tik != cert
      && headerHave <= MAX_HEADER && tikLen <= MAX_TICKET && certLen <= MAX_CERT && entryCount <= MAX_CONTENTS
    }

    /** The state these fields and buffers stand for. */
    ghost function Abs(): State<S, D>
      reads this, header, tik, cert, entries
      requires Shaped()
    {
      State(stage, header[..headerHave], headerSize, entries[..entryCount], cursor, contentOpen, tik[..tikLen], cert[..certLen],
            metaId, hasMeta, metaSize, nczActive, streamPos, bytesWritten, meta, user, nczUser)
    }

    constructor (env: Env<S, D>, user: S, nczUser: D)
      ensures Shaped() && this.env == env && Abs() == Begin(env, user, nczUser)
      ensures fresh(header) && fresh(tik) && fresh(cert) && fresh(entries)
    {
      this.env, this.user, this.nczUser := env, user, nczUser;
      stage := Magic;
      header := new byte[MAX_HEADER](_ => 0);
      tik := new byte[MAX_TICKET](_ => 0);
      cert := new byte[MAX_CERT](_ => 0);
      entries := new Entry[MAX_CONTENTS](_ => Entry(0, Ignore, NO_ID, 0, 0));
      headerHave, headerSize, entryCount, cursor, contentOpen := 0, 0, 0, 0, false;
      tikLen, certLen := 0, 0;
      metaId, hasMeta, metaSize, nczActive, streamPos, bytesWritten := NO_ID, false, 0, false, 0, 0;
      meta := EmptyMeta(env.target);
    }

    method FailWith(v: Verdict)
      requires Shaped()
      modifies this
      ensures Shaped() && env == old(env) && Abs() == Fail(env, old(Abs()), v)
      ensures stage == Failed(v) && !contentOpen
    {
      if contentOpen {
        user := env.ops.contentDiscard(user);
        contentOpen := false;
      }
      user := env.ops.rollback(user, meta);
      stage := Failed(v);
    }

    /** Takes header bytes up to `want` in all, and says how many that were. */
    method AbsorbHeader(data: bytes, want: nat) returns (used: nat)
      requires Shaped() && headerHave <= want <= MAX_HEADER
      modifies this`headerHave, this`streamPos, header
      ensures Shaped() && env == old(env) && used == Min(|data|, want - old(headerHave))
      ensures Abs() == Absorb(old(Abs()), data[..used])
    {
      hide Advance;
      used := Min(|data|, want - headerHave);
      Copy(header, headerHave, data[..used]);
      headerHave := headerHave + used;
      streamPos := Advance(streamPos, used);
    }

    method RoundMagic(data: bytes) returns (used: nat)
      requires Shaped() && Valid(env, Abs()) && stage.Magic?
      modifies this, header
      ensures Shaped() && env == old(env) && (Abs(), used) == StepMagic(env, old(Abs()), data)
    {
      hide Fail, Absorb, Pfs.PeekHeaderSize;
      used := AbsorbHeader(data, Pfs.HEADER_SIZE);
      if headerHave < Pfs.HEADER_SIZE {
        return;
      }
      var peek := Pfs.PeekHeaderSize(header[..headerHave]);
      if peek.Err? {
        FailWith(BadContainer);
        return;
      }
      headerSize := peek.value.1;
      if headerSize > MAX_HEADER {
        FailWith(HeaderTooLarge);
        return;
      }
      stage := Header;
    }

    method RoundHeader(data: bytes) returns (used: nat)
      requires Shaped() && Valid(env, Abs()) && stage.Header?
      modifies this, header, entries
      ensures Shaped() && env == old(env) && (Abs(), used) == StepHeader(env, old(Abs()), data)
    {
      hide Fail, Absorb, OpenContainer;
      used := AbsorbHeader(data, headerSize);
      if headerHave < headerSize {
        return;
      }
      StartStreaming();
    }

    /** The header is whole: parse it, build the entry table and start on the contents. */
    method StartStreaming()
      requires Shaped()
      modifies this, entries
      ensures Shaped() && env == old(env) && Abs() == OpenContainer(env, old(Abs()))
    {
      hide Fail, Pfs.Parse, BuildEntries, Pfs.ValidContext;
      var ctx := Pfs.Init(header[..headerHave]);
      if ctx.Err? {
        FailWith(BadContainer);
        return;
      }
      var v := BuildTable(ctx.value);
      if v.Some? {
        FailWith(v.value);
        return;
      }
      stage := Streaming;
      cursor := 0;
    }

    /** Builds the entry table in container order, then sorts it so one cursor can walk it. */
    method BuildTable(ctx: Pfs.Context) returns (v: Option<Verdict>)
      requires Shaped() && Pfs.ValidContext(ctx)
      modifies this`entryCount, this`metaId, this`hasMeta, this`metaSize, entries
      ensures Shaped() && (Abs(), v) == BuildEntries(old(Abs()), ctx)
    {
      hide Collect, LastMeta, SortByOffset, Pfs.ValidContext;
      v := CollectTable(ctx);
      if v.Some? {
        return;
      }
      if !hasMeta {
        return Some(NoMetaNca);
      }
      InsertionSort(entries, entryCount);
    }

    method CollectTable(ctx: Pfs.Context) returns (v: Option<Verdict>)
      requires Shaped() && Pfs.ValidContext(ctx)
      modifies this`entryCount, this`metaId, this`hasMeta, this`metaSize, entries
      ensures Shaped() && v == Collect(ctx, 0, []).1 && Abs() == WithEntries(old(Abs()), Collect(ctx, 0, []).0)
    {
      hide Collect, WithEntries, EntryFor, Pfs.ValidContext, Pfs.GetEntry, IsMeta;
      ghost var was := Abs();
      entryCount := 0;
      NoEntriesYet(was, Abs());
      for i := 0 to ctx.count
        invariant Shaped()
        invariant Abs() == WithEntries(was, entries[..entryCount])
        invariant Collect(ctx, 0, []) == Collect(ctx, i, entries[..entryCount])
      {
        CollectStep(ctx, i, entries[..entryCount]);
        var e := EntryFor(ctx, i, Pfs.GetEntry(ctx, i).value);
        if e.kind.Ignore? {
          continue;
        }
        if entryCount >= MAX_CONTENTS {
          return Some(TooManyContents);
        }
        WithOneMore(was, entries[..entryCount], e);
        AppendEntry(e);
      }
      CollectStep(ctx, ctx.count, entries[..entryCount]);
      return None;
    }

    method AppendEntry(e: Entry)
      requires Shaped() && entryCount < MAX_CONTENTS
      modifies this`entryCount, this`metaId, this`hasMeta, this`metaSize, entries
      ensures Shaped() && Abs() == Noted(old(Abs()), e)
      ensures entries[..entryCount] == old(entries[..entryCount]) + [e]
    {
      entries[entryCount] := e;
      entryCount := entryCount + 1;
      assert entries[..entryCount] == old(entries[..entryCount]) + [e];
      if IsMeta(e.kind) {
        metaId, metaSize, hasMeta := e.contentId, e.size, true;
      }
    }

    /** The sink a decoder calls back: opens the placeholder on the first byte, then writes. */
    method NczSink(em: Emission) returns (ok: bool)
      requires Shaped() && cursor < entryCount
      modifies this`user, this`contentOpen, this`bytesWritten
      ensures Shaped() && (Abs(), ok) == Sink(env, old(Abs()), em)
    {
      hide Advance;
      if !contentOpen {
        if em.size == 0 {
          return false;
        }
        var r := env.ops.contentBegin(user, entries[cursor].contentId, em.size);
        user, contentOpen := r.user, r.ok;
        if !r.ok {
          return false;
        }
      }
      var w := env.ops.contentWrite(user, em.data);
      user := w.user;
      if !w.ok {
        return false;
      }
      bytesWritten := Advance(bytesWritten, |em.data|);
      return true;
    }

    /** Hands compressed bytes to the decoder and serves the sink calls it makes. */
    method DecodeBytes(data: bytes)
      requires Shaped() && cursor < entryCount && env.ncz.Some?
      modifies this
      ensures Shaped() && env == old(env) && Abs() == FeedDecoder(env, old(Abs()), data)
    {
      hide Fail, Sink;
      var r := env.ncz.value.feed(nczUser, data);
      var taken := true;
      var i := 0;
      ghost var was := Abs();
      assert r.emissions[0..] == r.emissions;
      while i < |r.emissions| && taken
        invariant 0 <= i <= |r.emissions|
        invariant Shaped() && env == old(env) && cursor < entryCount
        invariant if taken then RunSink(env, was, r.emissions) == RunSink(env, Abs(), r.emissions[i..])
                  else RunSink(env, was, r.emissions) == (Abs(), false)
        decreases |r.emissions| - i, taken
      {
        assert r.emissions[i..][1..] == r.emissions[i + 1..];
        taken := NczSink(r.emissions[i]);
        i := i + 1;
      }
      nczUser := r.user;
      if !taken || !r.ok {
        FailWith(BadNcz);
      }
    }

    method RouteBytes(data: bytes)
      requires Shaped() && cursor < entryCount
      requires IsCompressed(entries[cursor].kind) ==> env.ncz.Some?
      modifies this, tik, cert
      ensures Shaped() && env == old(env) && Abs() == Route(env, old(Abs()), data)
    {
      hide Fail, FeedDecoder, Advance;
      var kind := entries[cursor].kind;
      assert Abs().entries[cursor] == entries[cursor];
      match kind {
        case Nca => WriteBytes(data);
        case MetaNca => WriteBytes(data);
        case Ncz => DecodeBytes(data);
        case MetaNcz => DecodeBytes(data);
        case Ticket =>
          if tikLen + |data| > MAX_TICKET {
            FailWith(BufferTooSmall);
          } else {
            Copy(tik, tikLen, data);
            tikLen := tikLen + |data|;
          }
        case Cert =>
          if certLen + |data| > MAX_CERT {
            FailWith(BufferTooSmall);
          } else {
            Copy(cert, certLen, data);
            certLen := certLen + |data|;
          }
        case Ignore =>
      }
    }

    /** Plain content goes straight into the open placeholder. */
    method WriteBytes(data: bytes)
      requires Shaped()
      modifies this
      ensures Shaped() && env == old(env)
      ensures var (t, ok) := WriteContent(env, old(Abs()), data);
              Abs() == if ok then t else Fail(env, t, BackendError)
    {
      hide Fail, Advance;
      var r := env.ops.contentWrite(user, data);
      user := r.user;
      if !r.ok {
        FailWith(BackendError);
        return;
      }
      bytesWritten := Advance(bytesWritten, |data|);
    }

    /** Before the first byte of an entry: start the decoder, or open the placeholder. */
    method BeginEntry()
      requires Shaped() && cursor < entryCount && (nczActive ==> env.ncz.Some?)
      modifies this
      ensures Shaped() && env == old(env) && Abs() == OpenEntry(env, old(Abs()))
    {
      if IsCompressed(entries[cursor].kind) {
        StartDecoder();
      } else {
        OpenPlaceholder();
      }
    }

    /** The decoder of a compressed entry, unless it runs already. */
    method StartDecoder()
      requires Shaped() && cursor < entryCount && (nczActive ==> env.ncz.Some?) && IsCompressed(entries[cursor].kind)
      modifies this
      ensures Shaped() && env == old(env) && Abs() == OpenEntry(env, old(Abs()))
    {
      hide Fail, IsCompressed, IsContent;
      assert Abs().entries[cursor] == entries[cursor];
      if nczActive {
        return;
      }
      if env.ncz.None? {
        FailWith(NoDecompressor);
        return;
      }
      var r := env.ncz.value.begin(nczUser);
      nczUser := r.user;
      if !r.ok {
        FailWith(BadNcz);
        return;
      }
      nczActive := true;
    }

    /** The placeholder of a plain content, unless it is open already. */
    method OpenPlaceholder()
      requires Shaped() && cursor < entryCount && (nczActive ==> env.ncz.Some?) && !IsCompressed(entries[cursor].kind)
      modifies this
      ensures Shaped() && env == old(env) && Abs() == OpenEntry(env, old(Abs()))
    {
      hide Fail, IsCompressed, IsContent;
      var e := entries[cursor];
      assert Abs().entries[cursor] == e;
      if contentOpen || !IsContent(e.kind) {
        return;
      }
      var r := env.ops.contentBegin(user, e.contentId, e.size);
      user := r.user;
      if !r.ok {
        FailWith(BackendError);
        return;
      }
      contentOpen := true;
    }

    /** After the last byte of an entry: end the decoder, commit the placeholder, move on. */
    method EndEntry()
      requires Shaped() && cursor < entryCount && (nczActive ==> env.ncz.Some?) && !stage.Failed?
      modifies this
      ensures Shaped() && env == old(env) && Abs() == CloseEntry(env, old(Abs()))
    {
      hide EndDecoder, Commit;
      if nczActive {
        FinishDecoder();
        if stage.Failed? {
          return;
        }
      }
      if contentOpen {
        CommitContent();
        if stage.Failed? {
          return;
        }
      }
      cursor := cursor + 1;
      if cursor >= entryCount {
        stage := Complete;
      }
    }

    method FinishDecoder()
      requires Shaped() && cursor < entryCount && env.ncz.Some?
      modifies this
      ensures Shaped() && env == old(env) && Abs() == EndDecoder(env, old(Abs())) && entryCount == old(entryCount)
    {
      hide Fail;
      var r := env.ncz.value.end(nczUser);
      nczUser := r.user;
      if !r.ok {
        FailWith(BadNcz);
        return;
      }
      var rebuilt := env.ncz.value.size(nczUser);
      assert Abs().entries[cursor] == entries[cursor];
      if IsMeta(entries[cursor].kind) && rebuilt > 0 {
        metaSize := rebuilt;
      }
      nczActive := false;
    }

    method CommitContent()
      requires Shaped()
      modifies this
      ensures Shaped() && env == old(env) && Abs() == Commit(env, old(Abs())) && entryCount == old(entryCount)
    {
      hide Fail;
      var r := env.ops.contentCommit(user);
      user := r.user;
      if !r.ok {
        FailWith(BackendError);
        return;
      }
      contentOpen := false;
    }

    /** One visit to the current entry with the bytes that fall inside it. */
    method VisitEntry(chunk: bytes)
      requires Shaped() && stage.Streaming? && cursor < entryCount && (nczActive ==> env.ncz.Some?)
      modifies this, tik, cert
      ensures Shaped() && env == old(env) && Abs() == StepEntry(env, old(Abs()), chunk)
    {
      hide OpenEntry, Route, CloseEntry, Advance;
      var end := EntryEnd(entries[cursor]);
      assert Abs().entries[cursor] == entries[cursor];
      BeginEntry();
      if stage.Failed? {
        return;
      }
      assert Abs().entries[cursor] == entries[cursor];
      if |chunk| > 0 {
        RouteBytes(chunk);
        if stage.Failed? {
          return;
        }
        streamPos := Advance(streamPos, |chunk|);
      }
      if streamPos >= end {
        EndEntry();
      }
    }

    method RoundStreaming(data: bytes) returns (used: nat)
      requires Shaped() && Valid(env, Abs()) && stage.Streaming?
      modifies this, tik, cert
      ensures Shaped() && env == old(env) && (Abs(), used) == StepStreaming(env, old(Abs()), data)
    {
      hide StepEntry, Advance;
      if cursor >= entryCount {
        streamPos := Advance(streamPos, |data|);
        stage := Complete;
        return |data|;
      }
      var e := entries[cursor];
      assert Abs().entries[cursor] == e;
      if streamPos < e.absOffset {
        used := Min(|data|, e.absOffset - streamPos);
        streamPos := Advance(streamPos, used);
        return;
      }
      used := Min(|data|, Sub64(EntryEnd(e), streamPos));
      VisitEntry(data[..used]);
    }

    /** Feeds the next chunk of the container. Chunk boundaries are arbitrary. */
    method FeedChunk(data: bytes) returns (r: Verdict)
      requires Shaped() && Valid(env, Abs())
      modifies this, header, entries, tik, cert
      ensures Shaped() && env == old(env) && Abs() == Feed(env, old(Abs()), data)
      ensures r == FeedVerdict(old(Abs()), data, Abs())
    {
      hide Valid, Iter;
      ghost var was := Abs();
      if stage.Failed? {
        return Aborted;
      }
      if |data| == 0 {
        return InProgress;
      }
      var p := 0;
      assert data[0..] == data;
      while p < |data| && !stage.Failed?
        invariant 0 <= p <= |data| && Shaped() && env == old(env) && Valid(env, Abs())
        invariant Feed(env, was, data) == Feed(env, Abs(), data[p..])
        decreases |data| - p, StageRank(stage), EntriesLeft(Abs())
      {
        IterProgress(env, Abs(), data[p..]);
        var used := Round(data[p..]);
        assert data[p..][used..] == data[p + used..];
        p := p + used;
      }
      match stage {
        case Failed(v) => r := v;
        case Complete => r := Success;
        case _ => r := InProgress;
      }
    }

    /** One round of the loop, by stage. */
    method Round(data: bytes) returns (used: nat)
      requires Shaped() && Valid(env, Abs()) && !stage.Failed?
      modifies this, header, entries, tik, cert
      ensures Shaped() && env == old(env) && (Abs(), used) == Iter(env, old(Abs()), data)
    {
      hide StepMagic, StepHeader, StepStreaming, Valid, Advance;
      match stage {
        case Magic => used := RoundMagic(data);
        case Header => used := RoundHeader(data);
        case Streaming => used := RoundStreaming(data);
        case Complete =>
          streamPos := Advance(streamPos, |data|);
          used := |data|;
      }
    }

    /** Turns the manifest into the record to register. */
    method BuildRecord(m: Cnmt.Manifest) returns (v: Option<Verdict>)
      requires Shaped() && Cnmt.ValidManifest(m)
      modifies this`meta
      ensures Shaped() && (Abs(), v) == BuildMeta(env, old(Abs()), m)
    {
      hide AddContents, Cnmt.ValidManifest, Cnmt.GetContentInfo, Cnmt.ExtHeader;
      meta := meta.(titleId := m.titleId, version := m.version, metaType := m.metaType, storageId := env.target);
      if m.extHeaderSize > MAX_EXT_HEADER {
        return Some(BadCnmt);
      }
      meta := meta.(extHeader := Cnmt.ExtHeader(m));
      if m.contentCount + 1 > MAX_CONTENTS {
        return Some(TooManyContents);
      }
      var listed := [Content(metaId, metaSize, 0, Cnmt.TYPE_META, 0)];
      ghost var es := entries[..entryCount];
      ghost var first, extended := listed, meta;
      var i := 0;
      v := None;
      while i < m.contentCount && v.None?
        invariant 0 <= i <= m.contentCount && meta == extended
        invariant AddContents(m, es, 0, first) == if v.None? then AddContents(m, es, i, listed) else (listed, v)
        decreases m.contentCount - i, v.None?
      {
        ContentStep(m, es, i, listed);
        var info := Cnmt.GetContentInfo(m, i).value;
        if info.contentType != Cnmt.TYPE_DELTA_FRAGMENT {
          var present := IsPresent(info.contentId);
          if !present {
            v := Some(MissingContent);
            continue;
          }
          listed := listed + [ContentOf(info)];
        }
        i := i + 1;
      }
      if v.None? {
        ContentStep(m, es, m.contentCount, listed);
      }
      meta := meta.(contents := listed);
    }

    /** Whether the container carried a content of that id. */
    method IsPresent(id: bytes) returns (present: bool)
      requires Shaped()
      ensures present == Present(entries[..entryCount], id)
    {
      ghost var es := entries[..entryCount];
      for j := 0 to entryCount
        invariant forall k :: 0 <= k < j ==> !(IsContent(es[k].kind) && es[k].contentId == id)
      {
        assert es[j] == entries[j];
        if IsContent(entries[j].kind) && entries[j].contentId == id {
          return true;
        }
      }
      return false;
    }

    /** Completes the install: ticket, manifest, registration and the application record, in that order. */
    method FinishInstall() returns (r: Verdict)
      requires Shaped()
      modifies this
      ensures Shaped() && env == old(env) && Abs() == Finish(env, old(Abs())) && r == FinishVerdict(old(Abs()), Abs())
    {
      hide Fail, ImportTicket, Register;
      if stage.Failed? {
        return Aborted;
      }
      if !stage.Complete? {
        FailShape(env, Abs(), NotFinished);
        FailWith(NotFinished);
        return NotFinished;
      }
      TicketStep();
      if !stage.Failed? {
        RegisterStep();
      }
      return if stage.Failed? then stage.verdict else Success;
    }

    method TicketStep()
      requires Shaped()
      modifies this
      ensures Shaped() && env == old(env) && Abs() == ImportTicket(env, old(Abs()))
    {
      hide Fail;
      if tikLen > 0 {
        if certLen == 0 {
          FailWith(BufferTooSmall);
          return;
        }
        var r := env.ops.importTicket(user, tik[..tikLen], cert[..certLen]);
        user := r.user;
        if !r.ok {
          FailWith(BackendError);
          return;
        }
        var rights := env.rightsIdOf(tik[..tikLen]);
        if rights.Some? {
          meta := meta.(hasTicket := true, rightsId := rights.value);
        }
      }
    }

    method RegisterStep()
      requires Shaped()
      modifies this
      ensures Shaped() && env == old(env) && Abs() == Register(env, old(Abs()))
    {
      hide Fail, BuildMeta, Cnmt.Parse, Publish;
      var r := env.ops.readCnmt(user, metaId);
      user := r.user;
      if !r.ok {
        FailWith(BackendError);
        return;
      }
      var m := Cnmt.Parse(r.data);
      if m.Err? {
        FailWith(BadCnmt);
        return;
      }
      var v := BuildRecord(m.value);
      if v.Some? {
        FailWith(v.value);
        return;
      }
      PublishStep();
    }

    method PublishStep()
      requires Shaped()
      modifies this
      ensures Shaped() && env == old(env) && Abs() == Publish(env, old(Abs()))
    {
      hide Fail;
      var r := env.ops.registerMeta(user, meta);
      user := r.user;
      if !r.ok {
        FailWith(BackendError);
        return;
      }
      var p := env.ops.pushRecord(user, meta);
      user := p.user;
      if !p.ok {
        FailWith(BackendError);
      }
    }

    /** Abandons an install; one that has failed already is left alone. */
    method AbortInstall()
      requires Shaped()
      modifies this
      ensures Shaped() && env == old(env) && Abs() == Abort(env, old(Abs()))
      ensures stage.Failed? && (old(stage).Failed? ==> Abs() == old(Abs()))
    {
      hide Fail;
      if !stage.Failed? {
        FailWith(Aborted);
      }
    }
  }

  lemma ContentStep(m: Cnmt.Manifest, es: seq<Entry>, i: nat, listed: seq<Content>)
    requires Cnmt.ValidManifest(m) && i <= m.contentCount
    ensures i == m.contentCount ==> AddContents(m, es, i, listed) == (listed, None)
    ensures i < m.contentCount ==>
              var info := Cnmt.GetContentInfo(m, i).value;
              AddContents(m, es, i, listed) ==
                if info.contentType == Cnmt.TYPE_DELTA_FRAGMENT then AddContents(m, es, i + 1, listed)
                else if !Present(es, info.contentId) then (listed, Some(MissingContent))
                else AddContents(m, es, i + 1, listed + [ContentOf(info)])
  {
    hide Cnmt.ValidManifest, Cnmt.GetContentInfo, Present;
  }

  lemma CollectStep(ctx: Pfs.Context, i: nat, found: seq<Entry>)
    requires Pfs.ValidContext(ctx) && i <= ctx.count
    ensures i == ctx.count ==> Collect(ctx, i, found) == (found, None)
    ensures i < ctx.count ==>
              var e := EntryFor(ctx, i, Pfs.GetEntry(ctx, i).value);
              Collect(ctx, i, found) == if e.kind.Ignore? then Collect(ctx, i + 1, found)
                                        else if |found| >= MAX_CONTENTS then (found, Some(TooManyContents))
                                        else Collect(ctx, i + 1, found + [e])
  {
    hide Pfs.ValidContext, EntryFor, Pfs.GetEntry;
  }

  /** One more entry in the table, remembered as the meta content when it is one. */
  ghost function Noted<S, D>(s: State<S, D>, e: Entry): State<S, D> {
    var t := s.(entries := s.entries + [e]);
    if IsMeta(e.kind) then t.(metaId := e.contentId, metaSize := e.size, hasMeta := true) else t
  }

  lemma NoEntriesYet<S, D>(was: State<S, D>, now: State<S, D>)
    requires now == was.(entries := [])
    ensures now == WithEntries(was, [])
  {
  }

  lemma WithOneMore<S, D>(was: State<S, D>, found: seq<Entry>, e: Entry)
    ensures WithEntries(was, found + [e]) == Noted(WithEntries(was, found), e)
  {
    LastMetaStep(found, e);
    hide LastMeta;
  }

  lemma LastMetaStep(es: seq<Entry>, e: Entry)
    ensures LastMeta(es + [e]) == if IsMeta(e.kind) then Some(e) else LastMeta(es)
  {
    assert (es + [e])[..|es|] == es;
  }
}
