/** The decoder object: its buffers, its cipher and its sink, updated in place. */
module NczDecoder {
  import opened Bytes
  import opened InstallSpec
  import opened Ncz
  import opened NczDecode
  import opened NczRebuild

  /** Handing emissions to a sink, up to the first it refuses. */
  function Hand<U>(sink: (U, Emission) -> Reply<U>, u: U, ems: seq<Emission>): (U, bool)
    decreases |ems|
  {
    if ems == [] then (u, true)
    else
      var r := sink(u, ems[0]);
      if r.ok then Hand(sink, r.user, ems[1..]) else (r.user, false)
  }

  lemma {:induction false} HandAppend<U>(sink: (U, Emission) -> Reply<U>, u: U, a: seq<Emission>, b: seq<Emission>)
    ensures var p := Hand(sink, u, a);
            Hand(sink, u, a + b) == if p.1 then Hand(sink, p.0, b) else p
    decreases |a|
  {
    if a == [] {
      assert a + b == b;
    } else {
      assert (a + b)[1..] == a[1..] + b;
      var r := sink(u, a[0]);
      if r.ok {
        HandAppend(sink, r.user, a[1..], b);
      }
    }
  }

  lemma TaggedAppend(size: u64, a: seq<bytes>, b: seq<bytes>)
    ensures Tagged(size, a + b) == Tagged(size, a) + Tagged(size, b)
  {
  }

  class NexusNczDecoder<Z(!new), U(!new)> {
    const zstd: Zstd<Z>
    const aes: BlockCipher
    const prelude: array<byte>
    const out: array<byte>
    var phase: Phase
    var preludeHave: nat
    var preludeNeed: nat
    var table: Table
    var zds: Z
    var outOffset: u64
    var section: Option<Section>
    var cipher: Cipher
    var sink: (U, Emission) -> Reply<U>
    var sinkUser: U

    ghost predicate Shaped()
      reads this
    {
      && Sound(zstd)
      && prelude != out && prelude.Length == PRELUDE_CAP && out.Length == OUT_CHUNK
      && preludeHave <= PRELUDE_CAP
    }

    function Position(): Head
      reads this
    {
      Head(outOffset, section, cipher)
    }

    /** Once the stream has started nothing reads the prelude buffer again. */
    ghost function Abs(): Decoder<Z>
      requires preludeHave <= prelude.Length
      reads this, prelude
    {
      if phase.Prelude? then Decoder(Prelude, prelude[..preludeHave], preludeNeed, table, Position(), zds)
      else Decoder(phase, [], 0, table, Position(), zds)
    }

    constructor (zstd: Zstd<Z>, aes: BlockCipher, z: Z, sink: (U, Emission) -> Reply<U>, sinkUser: U)
      requires Sound(zstd)
      ensures Shaped() && fresh(prelude) && fresh(out) && Abs() == Fresh(Abs()) && this.zstd == zstd && this.aes == aes
      ensures this.sink == sink && this.sinkUser == sinkUser
    {
      this.zstd, this.aes := zstd, aes;
      prelude := new byte[PRELUDE_CAP];
      out := new byte[OUT_CHUNK];
      phase, preludeHave, preludeNeed, table := Prelude, 0, 0, NO_TABLE;
      zds, outOffset, section, cipher := z, 0, None, Plain;
      this.sink, this.sinkUser := sink, sinkUser;
    }

    /** Forgets the previous entry: whatever it was, the decoder stands before the first byte of a new one. */
    method Begin(sink: (U, Emission) -> Reply<U>, sinkUser: U)
      requires Shaped()
      modifies this
      ensures Shaped() && Abs() == Fresh(old(Abs())) && this.sink == sink && this.sinkUser == sinkUser
      ensures FedAlong(zstd, aes, Abs(), zds, [])
    {
      hide FedAlong;
      FreshIsFedAlong(zstd, aes, Abs());
      phase, preludeHave, preludeNeed := Prelude, 0, 0;
      outOffset, section, cipher := 0, None, Plain;
      this.sink, this.sinkUser := sink, sinkUser;
      table := NO_TABLE;
    }

    /** Points the cipher at the section of the next byte when the last one has ended. */
    method EnterSection() returns (ok: bool)
      modifies this`section, this`cipher
      ensures var e := Enter(table, old(Position()));
              && (ok <==> e.Some?)
              && (ok ==> Position() == e.value)
    {
      if section.None? || outOffset >= SectionEnd(section.value) {
        var found := FindSection(table.sections, outOffset);
        if found.None? {
          return false;
        }
        section := found;
        if IsEncrypted(found.value) {
          cipher := Ctr(found.value.key, Counter(found.value, outOffset), 0);
        } else {
          cipher := Plain;
        }
      }
      return true;
    }

    /** Encrypts part of the output buffer where it lies. */
    method CryptInPlace(at: nat, take: nat)
      requires at + take <= out.Length && cipher.Ctr?
      modifies out
      ensures out[at..at + take] == Crypt(aes, cipher, old(out[at..at + take]))
      ensures out[at + take..] == old(out[at + take..])
    {
      hide KeyStream, Xor;
      for i := 0 to take
        invariant forall k :: at <= k < at + i ==> out[k] == Xor(old(out[k]), KeyStream(aes, cipher.key, cipher.counter, cipher.used + (k - at)))
        invariant forall k :: at + i <= k < out.Length ==> out[k] == old(out[k])
      {
        out[at + i] := Xor(out[at + i], KeyStream(aes, cipher.key, cipher.counter, cipher.used + i));
      }
      ghost var want := Crypt(aes, cipher, old(out[at..at + take]));
      forall k | 0 <= k < take
        ensures out[at..at + take][k] == want[k]
      {
        assert out[at..at + take][k] == out[at + k];
      }
    }

    /** Encrypts the next `take` bytes, sends them to the sink and moves on. */
    method SendPiece(at: nat, take: nat) returns (ok: bool)
      requires at + take <= out.Length && outOffset + take < U64_LIMIT
      modifies this`outOffset, this`cipher, this`sinkUser, out
      ensures var r := sink(old(sinkUser), Emission(table.decompressedSize, Crypt(aes, old(cipher), old(out[at..at + take]))));
              && ok == r.ok && sinkUser == r.user
              && (ok ==> Position() == Moved(old(Position()), take))
      ensures out[at + take..] == old(out[at + take..])
    {
      hide Crypt;
      if cipher.Ctr? {
        CryptInPlace(at, take);
      } else {
        PlainStays(out[at..at + take]);
      }
      var r := sink(sinkUser, Emission(table.decompressedSize, out[at..at + take]));
      sinkUser := r.user;
      ok := r.ok;
      outOffset := outOffset + take;
      if cipher.Ctr? {
        cipher := cipher.(used := cipher.used + take);
      }
    }

    lemma PlainStays(data: bytes)
      ensures Crypt(aes, Plain, data) == data
    {
    }

    /** Sends the first `len` bytes of the output buffer, cut at section ends. */
    method EmitOut(len: nat) returns (ok: bool)
      requires len <= out.Length
      modifies this`outOffset, this`section, this`cipher, this`phase, this`sinkUser, out
      ensures var e := Emit(aes, table, old(Position()), old(out[..len]));
              var p := Hand(sink, old(sinkUser), Tagged(table.decompressedSize, e.pieces));
              && sinkUser == p.0
              && (ok <==> p.1 && e.ok)
              && (ok ==> Position() == e.head && phase == old(phase))
              && (!ok ==> phase.Broken?)
    {
      hide Crypt, Enter, Moved, Tagged, Hand, Emit, EmitTo;
      var at := 0;
      ghost var start, user, data := Position(), sinkUser, out[..len];
      EmitToIsHand(aes, table, sink, user, start, data);
      while at < len
        invariant at <= len
        invariant EmitTo(aes, table, sink, sinkUser, Position(), out[at..len]) == EmitTo(aes, table, sink, user, start, data)
        invariant phase == old(phase)
      {
        EmitToStep(aes, table, sink, sinkUser, Position(), out[at..len]);
        var entered := EnterSection();
        if !entered {
          phase := Broken;
          return false;
        }
        var take := Min(len - at, SectionEnd(section.value) - outOffset);
        ghost var buffer := out[..];
        Parts(buffer, at, take, len);
        ok := SendPiece(at, take);
        if !ok {
          phase := Broken;
          return false;
        }
        SameTail(out[..], buffer, at + take, len);
        at := at + take;
      }
      assert out[at..len] == [];
      EmitToNothing(aes, table, sink, sinkUser, Position());
      return true;
    }

    static lemma Parts(b: bytes, at: nat, take: nat, len: nat)
      requires at + take <= len <= |b|
      ensures b[at..len][..take] == b[at..at + take] && b[at..len][take..] == b[at + take..len]
    {
    }

    static lemma SameTail(b: bytes, c: bytes, from: nat, len: nat)
      requires from <= len <= |b| == |c| && b[from..] == c[from..]
      ensures b[from..len] == c[from..len]
    {
      assert b[from..len] == b[from..][..len - from] && c[from..len] == c[from..][..len - from];
    }

    /** The loop over one input buffer, with the sink behind it. */
    method DrainBuffer(input: bytes, toTheEnd: bool) returns (ok: bool)
      requires Shaped()
      modifies this`outOffset, this`section, this`cipher, this`phase, this`sinkUser, this`zds, out
      ensures Shaped()
      ensures var d := Drain(zstd, aes, table, old(Position()), old(zds), input, toTheEnd);
              var p := Hand(sink, old(sinkUser), Tagged(table.decompressedSize, d.pieces));
              && sinkUser == p.0
              && (ok <==> p.1 && d.ok)
              && (ok ==> Position() == d.head && zds == d.z && phase == old(phase))
              && (!ok ==> phase.Broken?)
    {
      hide Emit, EmitTo, Tagged, Hand;
      var at := 0;
      ghost var start, user, z := Position(), sinkUser, zds;
      DrainToIsHand(zstd, aes, table, sink, user, start, z, input, toTheEnd);
      while at < |input|
        invariant at <= |input| && Shaped()
        invariant DrainTo(zstd, aes, table, sink, sinkUser, Position(), zds, input[at..], toTheEnd)
               == DrainTo(zstd, aes, table, sink, user, start, z, input, toTheEnd)
        invariant phase == old(phase)
        decreases |input| - at, zstd.backlog(zds)
      {
        ghost var rest := input[at..];
        assert SoundStep(zstd, zds, rest);
        var r := zstd.step(zds, input[at..]);
        zds := r.z;
        if r.failed {
          phase := Broken;
          return false;
        }
        Copy(out, 0, r.out);
        assert out[..|r.out|] == r.out;
        EmitToIsHand(aes, table, sink, sinkUser, Position(), r.out);
        var sent := EmitOut(|r.out|);
        if !sent {
          return false;
        }
        if r.frameEnded && r.out == [] && !toTheEnd {
          return true;
        }
        assert rest[r.used..] == input[at + r.used..];
        at := at + r.used;
      }
      return true;
    }

    /** The table is complete: parse it, send the copied header, decompress what lies behind. */
    method OpenTable() returns (ok: bool)
      requires Shaped() && phase.Prelude? && Position() == START && HEADER_OFFSET <= preludeHave
      modifies this`outOffset, this`section, this`cipher, this`phase, this`sinkUser, this`zds, this`table, out
      ensures Shaped()
      ensures var r := Open(zstd, aes, old(zds), old(prelude[..preludeHave]));
              var p := Hand(sink, old(sinkUser), r.emissions);
              && sinkUser == p.0
              && (ok <==> p.1 && r.ok)
              && (ok ==> Abs() == r.user)
              && (!ok ==> phase.Broken?)
    {
      hide Drain, Parse, Tagged, Hand;
      ghost var x := prelude[..preludeHave];
      assert prelude[HEADER_OFFSET..preludeHave] == x[HEADER_OFFSET..];
      var parsed := ParseHeader(prelude[HEADER_OFFSET..preludeHave]);
      HandEmpty(sink, sinkUser);
      if parsed.Err? {
        phase := Broken;
        return false;
      }
      TableFits(x);
      table := parsed.value;
      assert prelude[..HEADER_OFFSET] == x[..HEADER_OFFSET];
      ghost var start, user, z := Head(HEADER_OFFSET, None, Plain), sinkUser, zds;
      ghost var packed := x[HEADER_OFFSET + table.headerBytes..];
      ghost var d := Drain(zstd, aes, table, start, zstd.start, packed, true);
      HandHeader(sink, user, Emission(table.decompressedSize, x[..HEADER_OFFSET]), Tagged(table.decompressedSize, d.pieces));
      var sent := sink(sinkUser, Emission(table.decompressedSize, prelude[..HEADER_OFFSET]));
      sinkUser := sent.user;
      if !sent.ok {
        phase := Broken;
        return false;
      }
      outOffset := HEADER_OFFSET;
      var tableEnd := HEADER_OFFSET + table.headerBytes;
      phase := Stream;
      zds := zstd.start;
      assert prelude[tableEnd..preludeHave] == packed;
      ok := DrainBuffer(prelude[tableEnd..preludeHave], true);
    }

    /** One visit to the prelude. */
    method AbsorbPrelude(data: bytes) returns (used: nat, ok: bool)
      requires Shaped() && phase.Prelude? && DecoderOk(Abs()) && data != []
      modifies this, prelude, out
      ensures Shaped() && sink == old(sink)
      ensures var (r, n) := NczDecode.AbsorbPrelude(zstd, aes, old(Abs()), data);
              var p := Hand(sink, old(sinkUser), r.emissions);
              && sinkUser == p.0
              && (ok <==> p.1 && r.ok)
              && (ok ==> used == n && Abs() == r.user)
              && (!ok ==> phase.Broken?)
    {
      hide Open, Hand, HeaderSizeFor;
      HandEmpty(sink, sinkUser);
      WantFits(Abs());
      var want := if preludeNeed > 0 then preludeNeed else PRELUDE_CAP;
      used := Min(|data|, want - preludeHave);
      ghost var x := prelude[..preludeHave] + data[..used];
      Copy(prelude, preludeHave, data[..used]);
      preludeHave := preludeHave + used;
      assert prelude[..preludeHave] == x;
      if preludeNeed == 0 && preludeHave >= HEADER_OFFSET + PREAMBLE_SIZE {
        assert prelude[HEADER_OFFSET..preludeHave] == x[HEADER_OFFSET..];
        var size := HeaderSizeFor(prelude[HEADER_OFFSET..preludeHave]);
        if size == 0 {
          phase := Broken;
          return used, false;
        }
        preludeNeed := HEADER_OFFSET + size + MAGIC_SIZE;
      }
      if preludeNeed == 0 || preludeHave < preludeNeed {
        return used, true;
      }
      ok := OpenTable();
    }

    /**
     * Feeding: false exactly when the sink refused a piece or the entry is not what the decoder takes. Otherwise the
     * decoder is the one that has been fed this chunk behind all the others.
     */
    method Feed(data: bytes) returns (ok: bool)
      requires Shaped() && DecoderOk(Abs())
      modifies this, prelude, out
      ensures Shaped() && sink == old(sink)
      ensures var r := FeedEntry(zstd, aes, old(Abs()), data);
              var p := Hand(sink, old(sinkUser), r.emissions);
              && sinkUser == p.0
              && (ok <==> p.1 && r.ok)
              && (ok ==> Abs() == r.user)
              && (!ok ==> phase.Broken?)
      ensures forall z, feeds {:trigger FedAlong(zstd, aes, old(Abs()), z, feeds)} ::
                ok && FedAlong(zstd, aes, old(Abs()), z, feeds) ==> FedAlong(zstd, aes, Abs(), z, feeds + [data])
    {
      hide NczDecode.AbsorbPrelude, Drain, Hand, DecoderOk, FedAlong;
      if FeedEntry(zstd, aes, Abs(), data).ok {
        FedOn(zstd, aes, Abs(), data);
      }
      HandEmpty(sink, sinkUser);
      if phase.Broken? {
        return false;
      }
      var at := 0;
      ghost var start, user := Abs(), sinkUser;
      FeedToIsHand(zstd, aes, sink, user, start, data);
      assert data[0..] == data;
      while at < |data|
        invariant at <= |data| && Shaped() && DecoderOk(Abs()) && !phase.Broken? && sink == old(sink)
        invariant FeedTo(zstd, aes, sink, sinkUser, Abs(), data[at..]) == FeedTo(zstd, aes, sink, user, start, data)
      {
        ghost var rest := data[at..];
        if phase.Prelude? {
          AbsorbKeeps(zstd, aes, Abs(), rest);
          var used, absorbed := AbsorbPrelude(data[at..]);
          if !absorbed {
            return false;
          }
          assert rest[used..] == data[at + used..];
          at := at + used;
        } else {
          StreamKeeps(zstd, aes, Abs(), rest);
          var drained := DrainBuffer(data[at..], false);
          if !drained {
            return false;
          }
          at := |data|;
        }
      }
      return true;
    }

    /** The end of an entry: it has gone well exactly when what was fed rebuilds, or stops short of its own table. */
    method End() returns (ok: bool)
      requires Shaped()
      modifies this`phase
      ensures Shaped() && ok == EndsWell(old(Abs()))
      ensures phase == if ok then old(phase) else Broken
      ensures forall z, feeds {:trigger FedAlong(zstd, aes, old(Abs()), z, feeds)} ::
                FedAlong(zstd, aes, old(Abs()), z, feeds) ==>
                  (ok <==> RebuildAlong(zstd, aes, feeds).Some? || EndsInPrelude(Joined(feeds)))
    {
      hide EntryOutcome, RebuildAlong, EndsInPrelude, DecoderOk;
      ghost var d := Abs();
      forall z, feeds | FedAlong(zstd, aes, d, z, feeds)
        ensures EndsWell(d) <==> RebuildAlong(zstd, aes, feeds).Some? || EndsInPrelude(Joined(feeds))
      {
        AlongCases(zstd, aes, z, feeds);
      }
      ok := !phase.Broken? && outOffset == table.decompressedSize;
      if !ok {
        phase := Broken;
      }
    }
  }

  /** A feed that goes well is one more feed, whatever came before. */
  lemma FedOn<Z(!new)>(zstd: Zstd<Z>, aes: BlockCipher, d: Decoder<Z>, data: bytes)
    requires Sound(zstd) && DecoderOk(d) && FeedEntry(zstd, aes, d, data).ok
    ensures forall z, feeds {:trigger FedAlong(zstd, aes, d, z, feeds)} ::
              FedAlong(zstd, aes, d, z, feeds) ==> FedAlong(zstd, aes, FeedEntry(zstd, aes, d, data).user, z, feeds + [data])
  {
    hide FedAlong, DecoderOk, FeedEntry, EntryOutcome;
    forall z, feeds | FedAlong(zstd, aes, d, z, feeds)
      ensures FedAlong(zstd, aes, FeedEntry(zstd, aes, d, data).user, z, feeds + [data])
    {
      FeedAdds(zstd, aes, d, z, feeds, data);
    }
  }

  /** Draining straight into a sink. */
  function DrainTo<Z(!new), U>(zstd: Zstd<Z>, aes: BlockCipher, table: Table, sink: (U, Emission) -> Reply<U>, u: U,
                               h: Head, z: Z,
                               input: bytes, toTheEnd: bool): (r: (U, bool, Head, Z))
    requires Sound(zstd)
    decreases |input|, zstd.backlog(z)
  {
    if input == [] then (u, true, h, z)
    else
      assert SoundStep(zstd, z, input);
      var r := zstd.step(z, input);
      if r.failed then (u, false, h, r.z)
      else
        var e := EmitTo(aes, table, sink, u, h, r.out);
        if !e.1 then (e.0, false, h, r.z)
        else if r.frameEnded && r.out == [] && !toTheEnd then (e.0, true, e.2, r.z)
        else DrainTo(zstd, aes, table, sink, e.0, e.2, r.z, input[r.used..], toTheEnd)
  }

  lemma {:induction false} DrainToIsHand<Z(!new), U>(zstd: Zstd<Z>, aes: BlockCipher, table: Table,
                                                     sink: (U, Emission) -> Reply<U>, u: U,
                                                     h: Head, z: Z, input: bytes, toTheEnd: bool)
    requires Sound(zstd)
    ensures var x := DrainTo(zstd, aes, table, sink, u, h, z, input, toTheEnd);
            var d := Drain(zstd, aes, table, h, z, input, toTheEnd);
            var p := Hand(sink, u, Tagged(table.decompressedSize, d.pieces));
            x.0 == p.0 && (x.1 <==> p.1 && d.ok) && (x.1 ==> x.2 == d.head && x.3 == d.z)
    decreases |input|, zstd.backlog(z)
  {
    hide Emit, EmitTo, Tagged, Hand;
    HandNothing(sink, u, table.decompressedSize);
    if input != [] {
      assert SoundStep(zstd, z, input);
      var r := zstd.step(z, input);
      if !r.failed {
        EmitToIsHand(aes, table, sink, u, h, r.out);
        var e, x := Emit(aes, table, h, r.out), EmitTo(aes, table, sink, u, h, r.out);
        if e.ok && !(r.frameEnded && r.out == [] && !toTheEnd) {
          var rest := Drain(zstd, aes, table, e.head, r.z, input[r.used..], toTheEnd);
          TaggedAppend(table.decompressedSize, e.pieces, rest.pieces);
          HandAppend(sink, u, Tagged(table.decompressedSize, e.pieces), Tagged(table.decompressedSize, rest.pieces));
          if x.1 {
            DrainToIsHand(zstd, aes, table, sink, x.0, e.head, r.z, input[r.used..], toTheEnd);
          }
        }
      }
    }
  }

  /** Emitting straight into a sink: the first refused piece ends the run. */
  function EmitTo<U>(aes: BlockCipher, table: Table, sink: (U, Emission) -> Reply<U>, u: U, h: Head,
                     data: bytes): (r: (U, bool, Head))
    decreases |data|
  {
    if data == [] then (u, true, h)
    else
      match Enter(table, h)
      case None => (u, false, h)
      case Some(e) =>
        var take := Min(|data|, SectionEnd(e.section.value) - e.offset);
        var r := sink(u, Emission(table.decompressedSize, Crypt(aes, e.cipher, data[..take])));
        if !r.ok then (r.user, false, h) else EmitTo(aes, table, sink, r.user, Moved(e, take), data[take..])
  }

  lemma EmitToNothing<U>(aes: BlockCipher, table: Table, sink: (U, Emission) -> Reply<U>, u: U, h: Head)
    ensures EmitTo(aes, table, sink, u, h, []) == (u, true, h)
  {
  }

  /** One round: enter the section, send the next piece. */
  lemma EmitToStep<U>(aes: BlockCipher, table: Table, sink: (U, Emission) -> Reply<U>, u: U, h: Head, data: bytes)
    requires data != []
    ensures var x := EmitTo(aes, table, sink, u, h, data);
            match Enter(table, h)
            case None => x == (u, false, h)
            case Some(e) =>
              && e.section.Some? && e.offset < SectionEnd(e.section.value)
              && var take := Min(|data|, SectionEnd(e.section.value) - e.offset);
                 var r := sink(u, Emission(table.decompressedSize, Crypt(aes, e.cipher, data[..take])));
                 x == if !r.ok then (r.user, false, h) else EmitTo(aes, table, sink, r.user, Moved(e, take), data[take..])
  {
    hide Crypt;
  }

  lemma {:induction false} EmitToIsHand<U>(aes: BlockCipher, table: Table, sink: (U, Emission) -> Reply<U>, u: U,
                                           h: Head, data: bytes)
    ensures var x := EmitTo(aes, table, sink, u, h, data);
            var e := Emit(aes, table, h, data);
            var p := Hand(sink, u, Tagged(table.decompressedSize, e.pieces));
            x.0 == p.0 && (x.1 <==> p.1 && e.ok) && (x.1 ==> x.2 == e.head)
    decreases |data|
  {
    hide Crypt, Enter, SectionEnd, Moved, Tagged, Hand;
    HandNothing(sink, u, table.decompressedSize);
    var entered := Enter(table, h);
    if data != [] && entered.Some? {
      var e := entered.value;
      var take := Min(|data|, SectionEnd(e.section.value) - e.offset);
      var piece := Crypt(aes, e.cipher, data[..take]);
      var rest := Emit(aes, table, Moved(e, take), data[take..]);
      HandFirst(sink, u, table.decompressedSize, piece, rest.pieces);
      var r := sink(u, Emission(table.decompressedSize, piece));
      if r.ok {
        EmitToIsHand(aes, table, sink, r.user, Moved(e, take), data[take..]);
      }
    }
  }

  /** Feeding straight into a sink. */
  function FeedTo<Z(!new), U>(zstd: Zstd<Z>, aes: BlockCipher, sink: (U, Emission) -> Reply<U>, u: U, d: Decoder<Z>,
                              data: bytes): (r: (U, bool, Decoder<Z>))
    requires Sound(zstd) && DecoderOk(d)
    decreases |data|
  {
    if d.phase.Broken? then (u, false, d)
    else if data == [] then (u, true, d)
    else if d.phase.Prelude? then
      var (r, used) := NczDecode.AbsorbPrelude(zstd, aes, d, data);
      var p := Hand(sink, u, r.emissions);
      if !p.1 || !r.ok then (p.0, false, d)
      else
        AbsorbKeeps(zstd, aes, d, data);
        FeedTo(zstd, aes, sink, p.0, r.user, data[used..])
    else
      var r := StreamFeed(zstd, aes, d, data);
      var p := Hand(sink, u, r.emissions);
      (p.0, p.1 && r.ok, r.user)
  }

  lemma {:induction false} FeedToIsHand<Z(!new), U>(zstd: Zstd<Z>, aes: BlockCipher, sink: (U, Emission) -> Reply<U>,
                                                    u: U, d: Decoder<Z>, data: bytes)
    requires Sound(zstd) && DecoderOk(d)
    ensures var x := FeedTo(zstd, aes, sink, u, d, data);
            var r := FeedEntry(zstd, aes, d, data);
            var p := Hand(sink, u, r.emissions);
            x.0 == p.0 && (x.1 <==> p.1 && r.ok) && (x.1 ==> x.2 == r.user)
    decreases |data|
  {
    hide NczDecode.AbsorbPrelude, StreamFeed, Hand, DecoderOk;
    HandEmpty(sink, u);
    if d.phase.Prelude? && data != [] {
      AbsorbKeeps(zstd, aes, d, data);
      var (r, used) := NczDecode.AbsorbPrelude(zstd, aes, d, data);
      if r.ok {
        var rest := FeedEntry(zstd, aes, r.user, data[used..]);
        HandAppend(sink, u, r.emissions, rest.emissions);
        FeedToIsHand(zstd, aes, sink, Hand(sink, u, r.emissions).0, r.user, data[used..]);
      }
    }
  }

  lemma HandEmpty<U>(sink: (U, Emission) -> Reply<U>, u: U)
    ensures Hand(sink, u, []) == (u, true)
  {
  }

  lemma HandHeader<U>(sink: (U, Emission) -> Reply<U>, u: U, first: Emission, rest: seq<Emission>)
    ensures var r := sink(u, first);
            Hand(sink, u, [first] + rest) == if r.ok then Hand(sink, r.user, rest) else (r.user, false)
  {
    assert ([first] + rest)[1..] == rest;
  }

  lemma HandNothing<U>(sink: (U, Emission) -> Reply<U>, u: U, size: u64)
    ensures Hand(sink, u, Tagged(size, [])) == (u, true)
  {
  }

  lemma HandFirst<U>(sink: (U, Emission) -> Reply<U>, u: U, size: u64, piece: bytes, rest: seq<bytes>)
    ensures var r := sink(u, Emission(size, piece));
            Hand(sink, u, Tagged(size, [piece] + rest)) == if r.ok then Hand(sink, r.user, Tagged(size, rest)) else (r.user, false)
  {
    assert Tagged(size, [piece] + rest)[1..] == Tagged(size, rest);
  }
}
