/** Uploads that go well: what the host sends is what the store is given, and it is committed. */
module UploadRuns {
  import opened Bytes
  import opened Upload
  import Db = ObjectDb

  ghost predicate AllWorking(w: World) {
    forall n :: w.works(n)
  }

  /** The writes that hand these pieces to a store. */
  function Writes(store: u32, pieces: seq<bytes>): (es: seq<Event>)
    ensures |es| == |pieces|
  {
    seq(|pieces|, i requires 0 <= i < |pieces| => Wrote(store, pieces[i], true))
  }

  function Reads(pieces: seq<bytes>): (usb: seq<Read>)
    ensures |usb| == |pieces|
  {
    seq(|pieces|, i requires 0 <= i < |pieces| => Read(true, pieces[i]))
  }

  /** A data container's header: its length, or all ones when the host does not know it, its kind, and what is not looked at. */
  ghost predicate IsHeader(header: bytes, length: u32) {
    |header| == 12 && header[..4] == Le(length, 4) && header[4..6] == [2, 0]
  }

  predicate Sized(piece: bytes) {
    0 < |piece| <= 0x10_0000
  }

  /**
   * A host that knows the length: the header and the first bytes in one transfer, the others in transfers of up to
   * 1 MiB, and the whole exactly as long as announced.
   */
  ghost predicate SendsKnown(usb: seq<Read>, data: bytes) {
    exists header, first, rest, more ::
      && 12 + |data| < 0xFFFF_FFFF && IsHeader(header, 12 + |data|) && |header + first| <= 0x10_0000
      && (forall i :: 0 <= i < |rest| ==> Sized(rest[i]))
      && first + Joined(rest) == data && usb == [Read(true, header + first)] + Reads(rest) + more
  }

  /**
   * A host that does not: behind the transfer with the header come whole packets, and the end is a transfer that is
   * no multiple of the packet size, or an empty one.
   */
  ghost predicate SendsUnknown(usb: seq<Read>, mps: nat, data: bytes) {
    exists header, first, rest, last, more ::
      && IsHeader(header, 0xFFFF_FFFF) && |header + first| <= 0x10_0000 && mps > 0
      && (forall i :: 0 <= i < |rest| ==> Sized(rest[i]) && |rest[i]| % mps == 0)
      && (last == [] || (Sized(last) && |last| % mps != 0))
      && first + Joined(rest) + last == data && usb == [Read(true, header + first)] + Reads(rest) + [Read(true, last)] + more
  }

  // ----- what the data phase hands on -----

  /** The store has been handed the data, in some pieces, and nothing else has been asked of it. */
  ghost predicate Handed(w: World, store: u32, data: bytes, r: Received) {
    && r.ok && r.total == |data|
    && exists pieces :: Joined(pieces) == data && r.world == w.(log := w.log + Writes(store, pieces))
  }

  lemma DeliverHands(w: World, store: u32, data: bytes)
    requires AllWorking(w)
    ensures Deliver(w, store, data) == (w.(log := w.log + Writes(store, [data])), true)
  {
    assert Writes(store, [data]) == [Wrote(store, data, true)];
  }

  lemma HandedThen(w: World, store: u32, piece: bytes, v: World, data: bytes, r: Received)
    requires v == w.(log := w.log + Writes(store, [piece])) && r.ok && r.total == |piece| + |data|
    requires exists pieces :: Joined(pieces) == data && r.world == v.(log := v.log + Writes(store, pieces))
    ensures Handed(w, store, piece + data, r)
  {
    var pieces :| Joined(pieces) == data && r.world == v.(log := v.log + Writes(store, pieces));
    var all := [piece] + pieces;
    assert all[0] == piece && all[1..] == pieces;
    assert Writes(store, all) == Writes(store, [piece]) + Writes(store, pieces);
    assert w.log + (Writes(store, [piece]) + Writes(store, pieces)) == (w.log + Writes(store, [piece])) + Writes(store, pieces);
  }

  lemma HandedNothing(w: World, store: u32)
    ensures Handed(w, store, [], Received(true, 0, w))
  {
    var pieces: seq<bytes> := [];
    assert Joined(pieces) == [] && w.log + Writes(store, pieces) == w.log;
  }

  /** `r` counts from `delivered` on. */
  ghost predicate HandedOn(w: World, store: u32, data: bytes, delivered: nat, r: Received) {
    r.total >= delivered && Handed(w, store, data, r.(total := r.total - delivered))
  }

  lemma OnePieceMore(w: World, store: u32, usb: seq<Read>, piece: bytes, delivered: nat, expected: Option<nat>,
                     mps: nat, data: bytes)
    requires AllWorking(w) && usb != [] && usb[0] == Read(true, piece) && Sized(piece)
    requires expected.Some? ==> delivered + |piece| <= expected.value
    requires expected.None? && mps != 0 ==> |piece| % mps == 0
    requires HandedOn(w.(log := w.log + Writes(store, [piece])), store, data, delivered + |piece|,
                      Stream(w.(log := w.log + Writes(store, [piece])), store, usb[1..], delivered + |piece|, expected, mps))
    ensures HandedOn(w, store, piece + data, delivered, Stream(w, store, usb, delivered, expected, mps))
  {
    hide Deliver;
    DeliverHands(w, store, piece);
    assert piece[..|piece|] == piece;
    var v := w.(log := w.log + Writes(store, [piece]));
    var r := Stream(v, store, usb[1..], delivered + |piece|, expected, mps);
    assert Stream(w, store, usb, delivered, expected, mps) == r;
    HandedThen(w, store, piece, v, data, r.(total := r.total - delivered));
  }

  lemma {:induction false} KnownIsHanded(w: World, store: u32, rest: seq<bytes>, more: seq<Read>, delivered: nat, mps: nat)
    requires AllWorking(w) && forall i :: 0 <= i < |rest| ==> Sized(rest[i])
    ensures var end := delivered + |Joined(rest)|;
            HandedOn(w, store, Joined(rest), delivered, Stream(w, store, Reads(rest) + more, delivered, Some(end), mps))
    decreases |rest|
  {
    hide Deliver, HandedOn, Sized;
    var end, usb := delivered + |Joined(rest)|, Reads(rest) + more;
    if rest == [] {
      NothingMore(w, store, delivered);
      assert Stream(w, store, usb, delivered, Some(end), mps) == Received(true, delivered, w);
    } else {
      var v := w.(log := w.log + Writes(store, [rest[0]]));
      assert Sized(rest[0]);
      assert usb[0] == Read(true, rest[0]) && usb[1..] == Reads(rest[1..]) + more;
      KnownIsHanded(v, store, rest[1..], more, delivered + |rest[0]|, mps);
      OnePieceMore(w, store, usb, rest[0], delivered, Some(end), mps, Joined(rest[1..]));
    }
  }

  lemma NothingMore(w: World, store: u32, delivered: nat)
    ensures HandedOn(w, store, [], delivered, Received(true, delivered, w))
  {
    HandedNothing(w, store);
  }

  lemma {:induction false} UnknownIsHanded(w: World, store: u32, rest: seq<bytes>, last: bytes, more: seq<Read>,
                                           delivered: nat, mps: nat)
    requires AllWorking(w) && mps > 0 && forall i :: 0 <= i < |rest| ==> Sized(rest[i]) && |rest[i]| % mps == 0
    requires last == [] || (Sized(last) && |last| % mps != 0)
    ensures HandedOn(w, store, Joined(rest) + last, delivered, Stream(w, store, Reads(rest) + [Read(true, last)] + more, delivered, None, mps))
    decreases |rest|
  {
    hide Deliver, HandedOn;
    var usb := Reads(rest) + [Read(true, last)] + more;
    if rest == [] {
      assert usb[0] == Read(true, last) && Joined([]) + last == last;
      LastIsHanded(w, store, usb, last, delivered, mps);
    } else {
      var v := w.(log := w.log + Writes(store, [rest[0]]));
      assert usb[0] == Read(true, rest[0]) && usb[1..] == Reads(rest[1..]) + [Read(true, last)] + more;
      UnknownIsHanded(v, store, rest[1..], last, more, delivered + |rest[0]|, mps);
      OnePieceMore(w, store, usb, rest[0], delivered, None, mps, Joined(rest[1..]) + last);
      assert rest[0] + (Joined(rest[1..]) + last) == Joined(rest) + last;
    }
  }

  lemma LastIsHanded(w: World, store: u32, usb: seq<Read>, last: bytes, delivered: nat, mps: nat)
    requires AllWorking(w) && mps > 0 && usb != [] && usb[0] == Read(true, last) && (last == [] || (Sized(last) && |last| % mps != 0))
    ensures HandedOn(w, store, last, delivered, Stream(w, store, usb, delivered, None, mps))
  {
    hide Deliver;
    assert last[..|last|] == last;
    if last == [] {
      HandedNothing(w, store);
    } else {
      DeliverHands(w, store, last);
      var v := w.(log := w.log + Writes(store, [last]));
      HandedNothing(v, store);
      HandedThen(w, store, last, v, [], Received(true, |last|, v));
      assert last + [] == last;
    }
  }

  /** The header says how much is to come. */
  lemma HeaderReads(header: bytes, first: bytes, length: u32)
    requires IsHeader(header, length)
    ensures var got := header + first;
            && got[HEADER_SIZE..] == first && RdU16(got, 4) == DATA_CONTAINER
            && Expected(got) == if length == 0xFFFF_FFFF || length < 12 then None else Some(length - 12)
  {
    hide Le, RdLe;
    var got := header + first;
    assert got[0..4] == header[..4];
    U32At(got, 0, length);
    assert got[4..6] == header[4..6];
    Pow256Widths();
    assert Le(2, 2) == [2, 0] by { TwoIs(); }
    LeAt(got, 4, 2, 2);
  }

  lemma TwoIs()
    ensures Le(2, 2) == [2, 0]
  {
  }

  /** The bytes of the first transfer and those of the others, in one. */
  lemma FirstIsHanded(w: World, store: u32, usb: seq<Read>, mps: nat, header: bytes, first: bytes, length: u32, data: bytes)
    requires AllWorking(w) && IsHeader(header, length) && |header + first| <= 0x10_0000 && usb != [] && usb[0] == Read(true, header + first)
    requires var expected := if length == 0xFFFF_FFFF || length < 12 then None else Some(length - 12);
             var v := if first == [] then w else w.(log := w.log + Writes(store, [first]));
             HandedOn(v, store, data, |first|, Stream(v, store, usb[1..], |first|, expected, mps))
    ensures Handed(w, store, first + data, Receive(w, store, usb, mps))
  {
    hide Deliver, Stream, RdU16, Expected, Joined;
    var got := header + first;
    assert got[..|got|] == got;
    HeaderReads(header, first, length);
    if first == [] {
      assert [] + data == data;
      var r := Receive(w, store, usb, mps);
      assert r.(total := r.total - 0) == r;
    } else {
      DeliverHands(w, store, first);
      var v := w.(log := w.log + Writes(store, [first]));
      HandedThen(w, store, first, v, data, Receive(w, store, usb, mps));
    }
  }

  lemma KnownArrives(w: World, store: u32, usb: seq<Read>, mps: nat, header: bytes, first: bytes, rest: seq<bytes>,
                     more: seq<Read>, data: bytes)
    requires AllWorking(w) && 12 + |data| < 0xFFFF_FFFF && IsHeader(header, 12 + |data|) && |header + first| <= 0x10_0000
    requires (forall i :: 0 <= i < |rest| ==> Sized(rest[i])) && first + Joined(rest) == data && usb == [Read(true, header + first)] + Reads(rest) + more
    ensures Handed(w, store, data, Receive(w, store, usb, mps))
  {
    hide Receive, Handed, HandedOn, IsHeader, Sized, Stream, Joined;
    var v := if first == [] then w else w.(log := w.log + Writes(store, [first]));
    assert |data| == |first| + |Joined(rest)|;
    KnownIsHanded(v, store, rest, more, |first|, mps);
    assert usb[1..] == Reads(rest) + more;
    FirstIsHanded(w, store, usb, mps, header, first, 12 + |data|, Joined(rest));
  }

  lemma UnknownArrives(w: World, store: u32, usb: seq<Read>, mps: nat, header: bytes, first: bytes, rest: seq<bytes>,
                       last: bytes, more: seq<Read>, data: bytes)
    requires AllWorking(w) && IsHeader(header, 0xFFFF_FFFF) && |header + first| <= 0x10_0000 && mps > 0
    requires (forall i :: 0 <= i < |rest| ==> Sized(rest[i]) && |rest[i]| % mps == 0) && (last == [] || (Sized(last) && |last| % mps != 0))
    requires first + Joined(rest) + last == data && usb == [Read(true, header + first)] + Reads(rest) + [Read(true, last)] + more
    ensures Handed(w, store, data, Receive(w, store, usb, mps))
  {
    hide Receive, Handed, HandedOn, IsHeader, Sized, Stream, Joined;
    var v := if first == [] then w else w.(log := w.log + Writes(store, [first]));
    UnknownIsHanded(v, store, rest, last, more, |first|, mps);
    assert usb[1..] == Reads(rest) + [Read(true, last)] + more;
    FirstIsHanded(w, store, usb, mps, header, first, 0xFFFF_FFFF, Joined(rest) + last);
    assert first + (Joined(rest) + last) == data;
  }

  /** What a well-formed transfer carries is what a working store is handed. */
  lemma TransferArrives(w: World, store: u32, usb: seq<Read>, mps: nat, data: bytes)
    requires AllWorking(w) && (SendsKnown(usb, data) || SendsUnknown(usb, mps, data))
    ensures Handed(w, store, data, Receive(w, store, usb, mps))
  {
    hide Receive, Handed, IsHeader, Sized;
    if SendsKnown(usb, data) {
      var header, first, rest, more :|
        && 12 + |data| < 0xFFFF_FFFF && IsHeader(header, 12 + |data|) && |header + first| <= 0x10_0000
        && (forall i :: 0 <= i < |rest| ==> Sized(rest[i]))
        && first + Joined(rest) == data && usb == [Read(true, header + first)] + Reads(rest) + more;
      KnownArrives(w, store, usb, mps, header, first, rest, more, data);
    } else {
      var header, first, rest, last, more :|
        && IsHeader(header, 0xFFFF_FFFF) && |header + first| <= 0x10_0000 && mps > 0
        && (forall i :: 0 <= i < |rest| ==> Sized(rest[i]) && |rest[i]| % mps == 0)
        && (last == [] || (Sized(last) && |last| % mps != 0))
        && first + Joined(rest) + last == data && usb == [Read(true, header + first)] + Reads(rest) + [Read(true, last)] + more;
      UnknownArrives(w, store, usb, mps, header, first, rest, last, more, data);
    }
  }

  // ----- the whole upload -----

  /** The store has been asked to begin a write, handed the data in some pieces, and asked to end it. */
  ghost predicate Asked(before: World, after: World, store: u32, declared: u32, data: bytes, committed: bool) {
    exists pieces :: Joined(pieces) == data
                     && after == before.(log := before.log + [Began(store, declared, true)] + Writes(store, pieces) + [Ended(store, committed)])
  }

  /**
   * In a session, on a store that has all its operations and on which they work, with a handle to give: a file announced
   * and then sent well is begun, handed to the store in full, and ended; it is committed, the answer is Done and its
   * handle lives exactly when it was not shorter than announced.
   */
  lemma UploadArrives(s: Server, store: u32, path: bytes, parent: u32, declared: u32, room: bool, usb: seq<Read>,
                      mps: nat, data: bytes)
    requires s.sessionOpen && !s.pendingSend && AllWorking(s.world) && store in s.world.stores
    requires var ops := s.world.stores[store]; ops.canBegin && ops.canChunk && ops.canEnd
    requires Db.Intern(s.objects, store, parent, path, false, 0, room).1 != 0
    requires SendsKnown(usb, data) || SendsUnknown(usb, mps, data)
    ensures var (t, announced) := Handle(s, SendObjectInfo(store, true, File(path, parent, declared), room));
            var (u, taken) := Handle(t, SendObject(usb, mps));
            var whole := declared == 0xFFFF_FFFF || declared <= |data|;
            && announced == Done && t.pendingSend && !u.pendingSend
            && Asked(s.world, u.world, store, declared, data, whole)
            && taken == (if whole then Done else IncompleteTransfer)
            && u.objects == if whole then t.objects else Db.Invalidate(t.objects, t.pendingHandle)
  {
    hide Db.Intern, Db.Invalidate, SendsKnown, SendsUnknown, Receive;
    var t := Handle(s, SendObjectInfo(store, true, File(path, parent, declared), room)).0;
    assert t.world == s.world.(log := s.world.log + [Began(store, declared, true)]);
    TransferArrives(t.world, store, usb, mps, data);
    var r := Receive(t.world, store, usb, mps);
    var pieces :| Joined(pieces) == data && r.world == t.world.(log := t.world.log + Writes(store, pieces));
  }

  /**
   * A folder announced in a session to a store that can make one, and did: it gets a handle as a directory of no size,
   * which its path finds; or there is none to give, the answer says so, and nothing has changed.
   */
  lemma FolderIsListed(s: Server, store: u32, path: bytes, parent: u32, room: bool)
    requires s.sessionOpen && !s.pendingSend && store in s.world.stores && s.world.stores[store].canBegin && s.world.stores[store].canMkdir
    requires Db.Numbered(s.objects) && Db.Injective(s.objects)
    ensures var (t, made) := Handle(s, SendObjectInfo(store, true, Folder(path, parent, true), room));
            var h := Db.Find(t.objects, store, path);
            && t == s.(objects := t.objects)
            && if made == Done then 0 < h <= |t.objects| && t.objects[h - 1] == Db.Object(h, store, parent, path, true, 0, true)
               else made == GeneralError && t == s && (path == [] || |path| >= 0x301 || (!room && h == 0))
  {
    hide Db.Find, Db.Injective;
    Db.InternKeeps(s.objects, store, parent, path, true, 0, room);
    Db.FindIsExact(s.objects, store, path);
  }
}
