/** Random-access reads of an NSP that exists nowhere: its header is generated, its bodies are fetched. */
module VirtualNsp {
  import opened Bytes
  import opened PartitionFs
  import opened NspBuilder

  /** Where the bytes of one file come from. Reading a registered content can fail at any offset. */
  datatype Source =
    | Ticket(data: bytes)
    | Cert(data: bytes)
    | Content(read: (nat, nat) -> Option<bytes>)

  /** What one backing read delivers; None ends the read. */
  function Fetch(src: Source, off: nat, len: nat): Option<bytes> {
    match src
    case Ticket(data) => if off + len > |data| then None else Some(data[off..off + len])
    case Cert(data) => if off + len > |data| then None else Some(data[off..off + len])
    case Content(read) => read(off, len)
  }

  /** A ticket and a certificate are in memory; of a registered content, what is read is its body's, if reading works. */
  ghost predicate Honest(src: Source, body: bytes) {
    match src
    case Ticket(data) => data == body
    case Cert(data) => data == body
    case Content(read) => forall off: nat, len: nat :: off + len <= |body| && read(off, len).Some? ==> read(off, len).value == body[off..off + len]
  }

  /** No read inside the body of a registered content fails. */
  ghost predicate Available(src: Source, body: bytes) {
    src.Content? ==> forall off: nat, len: nat :: off + len <= |body| ==> src.read(off, len).Some?
  }

  /** A fetch inside a body delivers its bytes there, and fails only where reading a registered content does. */
  lemma FetchDelivers(src: Source, body: bytes, off: nat, len: nat)
    requires Honest(src, body) && off + len <= |body|
    ensures Fetch(src, off, len).Some? ==> Fetch(src, off, len).value == body[off..off + len]
    ensures Available(src, body) ==> Fetch(src, off, len).Some?
  {
  }

  // ----- the file that the offsets describe -----

  function Concat(bodies: seq<bytes>, n: nat): bytes
    requires n <= |bodies|
  {
    if n == 0 then [] else Concat(bodies, n - 1) + bodies[n - 1]
  }

  function File(header: bytes, bodies: seq<bytes>): bytes {
    header + Concat(bodies, |bodies|)
  }

  ghost predicate BodiesOf(fs: seq<NspBuilder.File>, bodies: seq<bytes>) {
    |bodies| == |fs| && forall i :: 0 <= i < |fs| ==> |bodies[i]| == fs[i].size
  }

  lemma {:induction false} ConcatLength(fs: seq<NspBuilder.File>, bodies: seq<bytes>, n: nat)
    requires BodiesOf(fs, bodies) && n <= |fs|
    ensures |Concat(bodies, n)| == DataOff(fs, n)
  {
    if n > 0 {
      ConcatLength(fs, bodies, n - 1);
    }
  }

  /** Body `i` sits in the concatenation right behind the bodies before it. */
  lemma {:induction false} ConcatSlice(fs: seq<NspBuilder.File>, bodies: seq<bytes>, i: nat, n: nat)
    requires BodiesOf(fs, bodies) && i < n <= |fs|
    ensures DataOff(fs, i) + fs[i].size <= |Concat(bodies, n)|
    ensures Concat(bodies, n)[DataOff(fs, i)..DataOff(fs, i) + fs[i].size] == bodies[i]
  {
    hide DataOff;
    ConcatLength(fs, bodies, n - 1);
    var cut, last := Concat(bodies, n - 1), bodies[n - 1];
    if i < n - 1 {
      ConcatSlice(fs, bodies, i, n - 1);
      SliceBefore(cut, last, DataOff(fs, i), DataOff(fs, i) + fs[i].size);
    } else {
      SliceBehind(cut, last, 0, |last|);
      assert last[0..|last|] == last;
    }
  }

  lemma FileLength(fs: seq<NspBuilder.File>, header: bytes, bodies: seq<bytes>)
    requires BodiesOf(fs, bodies) && |header| == HeaderSize(fs)
    ensures |File(header, bodies)| == TotalSize(fs)
  {
    ConcatLength(fs, bodies, |fs|);
  }

  /** A range inside body `i`, seen from the start of the file. */
  lemma FileSlice(fs: seq<NspBuilder.File>, header: bytes, bodies: seq<bytes>, i: nat, off: nat, len: nat)
    requires BodiesOf(fs, bodies) && |header| == HeaderSize(fs) && i < |fs| && off + len <= fs[i].size
    ensures var at := HeaderSize(fs) + DataOff(fs, i) + off;
            at + len <= |File(header, bodies)| && File(header, bodies)[at..at + len] == bodies[i][off..off + len]
  {
    hide HeaderSize, DataOff, Concat;
    ConcatSlice(fs, bodies, i, |fs|);
    PartOfSlice(header, Concat(bodies, |bodies|), DataOff(fs, i), bodies[i], off, len);
  }

  /** A part of a slice behind a front. */
  lemma PartOfSlice(front: bytes, rest: bytes, lo: nat, body: bytes, off: nat, len: nat)
    requires lo + |body| <= |rest| && rest[lo..lo + |body|] == body && off + len <= |body|
    ensures var at := |front| + lo + off; at + len <= |front + rest| && (front + rest)[at..at + len] == body[off..off + len]
  {
    SliceOfSlice(rest, lo, lo + |body|, off, off + len);
    SliceBehind(front, rest, lo + off, len);
  }

  /** The bytes one step of the read copies: header bytes from the buffer, the rest from their source. */
  function Deliver(header: bytes, srcs: seq<Source>, at: Location, chunk: nat): Option<bytes>
    requires at.InHeader? ==> at.headerOff + chunk <= |header|
    requires at.InEntry? ==> at.index < |srcs|
  {
    match at
    case InHeader(off, _) => Some(header[off..off + chunk])
    case InEntry(i, off, _) => Fetch(srcs[i], off, chunk)
  }

  ghost predicate Backed(fs: seq<NspBuilder.File>, srcs: seq<Source>, bodies: seq<bytes>) {
    BodiesOf(fs, bodies) && |srcs| == |fs| && forall i :: 0 <= i < |srcs| ==> Honest(srcs[i], bodies[i])
  }

  ghost predicate AllAvailable(srcs: seq<Source>, bodies: seq<bytes>)
    requires |srcs| == |bodies|
  {
    forall i :: 0 <= i < |srcs| ==> Available(srcs[i], bodies[i])
  }

  /** One step delivers the file's bytes at the located offset, and fails only if the source does. */
  lemma DeliverIsSlice(fs: seq<NspBuilder.File>, header: bytes, srcs: seq<Source>, bodies: seq<bytes>,
                       pos: nat, at: Location, chunk: nat)
    requires Backed(fs, srcs, bodies) && |header| == HeaderSize(fs)
    requires LocationOf(fs, pos, at) && chunk <= at.run
    ensures pos + chunk <= |File(header, bodies)|
    ensures Deliver(header, srcs, at, chunk).Some? ==>
              Deliver(header, srcs, at, chunk).value == File(header, bodies)[pos..pos + chunk]
    ensures AllAvailable(srcs, bodies) ==> Deliver(header, srcs, at, chunk).Some?
  {
    hide HeaderSize, DataOff, Concat, Fetch, Honest, Available;
    match at
    case InHeader(off, _) =>
      assert File(header, bodies)[off..off + chunk] == header[off..off + chunk];
    case InEntry(i, off, _) =>
      FileSlice(fs, header, bodies, i, off, chunk);
      FetchDelivers(srcs[i], bodies[i], off, chunk);
  }

  /** The buffer when `done` bytes of the file behind `offset` have been put in its front. */
  function Served(file: bytes, offset: nat, done: nat, before: bytes): bytes
    requires done <= |before| && (done > 0 ==> offset + done <= |file|)
  {
    (if done == 0 then [] else file[offset..offset + done]) + before[done..]
  }

  /** `data` is what the file holds at `pos`. */
  ghost predicate HeldAt(file: bytes, pos: nat, data: bytes) {
    pos + |data| <= |file| && data == file[pos..pos + |data|]
  }

  /** The buffer shows the first `done` bytes of the file behind `offset`, and behind them what was there before. */
  ghost predicate Shows(dst: array<byte>, file: bytes, offset: nat, done: nat, before: bytes)
    reads dst
  {
    && done <= |before| == dst.Length
    && (done > 0 ==> offset + done <= |file|)
    && dst[..] == Served(file, offset, done, before)
  }

  /** How much of a range of `size` bytes behind `offset` a file of this length has. */
  function InFile(length: nat, offset: nat, size: nat): nat {
    if length <= offset then 0 else Min(size, length - offset)
  }

  lemma AllServed(dst: array<byte>, file: bytes, offset: nat, done: nat, before: bytes, size: nat)
    requires Shows(dst, file, offset, done, before) && done <= size && (done == size || |file| <= offset + done)
    ensures done == InFile(|file|, offset, size)
  {
  }

  lemma ShowsInside(dst: array<byte>, file: bytes, offset: nat, done: nat, before: bytes)
    requires Shows(dst, file, offset, done, before)
    ensures done > 0 ==> offset + done <= |file|
  {
    hide Served;
  }

  lemma ShowsNothing(dst: array<byte>, file: bytes, offset: nat)
    ensures Shows(dst, file, offset, 0, dst[..])
  {
  }

  /** Writing the next run of the file behind what has been served. */
  lemma ServedMore(file: bytes, offset: nat, done: nat, run: bytes, before: bytes)
    requires HeldAt(file, offset + done, run) && done + |run| <= |before|
    ensures offset + done + |run| <= |file| && |Served(file, offset, done, before)| == |before|
    ensures Overwrite(Served(file, offset, done, before), done, run) == Served(file, offset, done + |run|, before)
  {
    hide Overwrite;
    var so, next := if done == 0 then [] else file[offset..offset + done], done + |run|;
    WrittenBehind(so, before[done..], run);
    SliceOfSlice(before, done, |before|, |run|, |before| - done);
    NextRun(file, offset, done, next);
  }

  lemma WrittenBehind(front: bytes, rest: bytes, run: bytes)
    requires |run| <= |rest|
    ensures Overwrite(front + rest, |front|, run) == front + run + rest[|run|..]
  {
    var all := front + rest;
    assert all[..|front|] == front;
    SliceBehind(front, rest, |run|, |rest| - |run|);
  }

  lemma NextRun(file: bytes, offset: nat, done: nat, next: nat)
    requires done <= next && offset + next <= |file|
    ensures (if done == 0 then [] else file[offset..offset + done]) + file[offset + done..offset + next]
            == if next == 0 then [] else file[offset..offset + next]
  {
  }

  /** The file a finished builder describes. */
  ghost function FileOf(b: Builder, bodies: seq<bytes>): bytes
    requires b.Valid() && b.finalised
    reads b, b.header
  {
    File(b.header[..b.headerSize], bodies)
  }

  /**
   * Serves a byte range. Whatever the backing reads do, the bytes delivered are the file's own bytes
   * from `offset` on; when none of them fails the range is served up to its end or the file's end.
   */
  method Read(b: Builder, srcs: seq<Source>, ghost bodies: seq<bytes>, offset: u64, size: nat, dst: array<byte>)
      returns (done: nat, ok: bool)
    requires b.Valid() && b.finalised && dst != b.header && size <= dst.Length
    requires Backed(b.files, srcs, bodies)
    modifies dst
    ensures done <= size && (ok <==> done > 0 || size == 0)
    ensures var file := FileOf(b, bodies);
            && |file| == TotalSize(b.files)
            && Shows(dst, file, offset, done, old(dst[..]))
            && (AllAvailable(srcs, bodies) ==> done == InFile(|file|, offset, size))
  {
    hide *;
    FinalisedFile(b, srcs, bodies);
    done := 0;
    ghost var file, before := FileOf(b, bodies), dst[..];
    ShowsNothing(dst, file, offset);
    while done < size
      invariant done <= size && file == FileOf(b, bodies) && Shows(dst, file, offset, done, before)
    {
      var n := ServeRun(b, srcs, bodies, offset, done, size, dst, before);
      if n == 0 {
        break;
      }
      done := done + n;
    }
    if AllAvailable(srcs, bodies) {
      AllServed(dst, file, offset, done, before, size);
    }
    ok := done > 0 || size == 0;
  }

  /** One round of the loop: the next run is copied behind what has been served, unless there is none. */
  method ServeRun(b: Builder, srcs: seq<Source>, ghost bodies: seq<bytes>, offset: u64, done: nat, size: nat,
                  dst: array<byte>, ghost before: bytes)
      returns (n: nat)
    requires b.Valid() && b.finalised && dst != b.header && Backed(b.files, srcs, bodies)
    requires done < size <= dst.Length && Shows(dst, FileOf(b, bodies), offset, done, before)
    modifies dst
    ensures done + n <= size && Shows(dst, FileOf(b, bodies), offset, done + n, before)
    ensures n == 0 && AllAvailable(srcs, bodies) ==> |FileOf(b, bodies)| <= offset + done
  {
    hide *;
    FinalisedFile(b, srcs, bodies);
    ghost var file := FileOf(b, bodies);
    ShowsInside(dst, file, offset, done, before);
    var data := ReadRun(b, srcs, bodies, offset + done, size - done);
    if data.None? {
      return 0;
    }
    Append(dst, done, data.value, file, offset, before);
    n := |data.value|;
  }

  /** Copies the next run behind what has been served. */
  method Append(dst: array<byte>, done: nat, run: bytes, ghost file: bytes, ghost offset: nat, ghost before: bytes)
    requires HeldAt(file, offset + done, run) && done + |run| <= dst.Length && Shows(dst, file, offset, done, before)
    modifies dst
    ensures Shows(dst, file, offset, done + |run|, before)
  {
    hide Overwrite, Served, HeldAt;
    ServedMore(file, offset, done, run, before);
    Copy(dst, done, run);
  }

  /** One run of the file: locate, cut at the region's end, fetch. Never crosses a region boundary. */
  method ReadRun(b: Builder, srcs: seq<Source>, ghost bodies: seq<bytes>, pos: u64, want: nat) returns (data: Option<bytes>)
    requires b.Valid() && b.finalised && Backed(b.files, srcs, bodies) && 0 < want
    ensures var file := FileOf(b, bodies);
            && (data.Some? ==> 0 < |data.value| <= want && HeldAt(file, pos, data.value))
            && (data.None? && AllAvailable(srcs, bodies) ==> |file| <= pos)
  {
    hide Backed, AllAvailable, LocationOf, Deliver, IsHeader, ValidFiles, File, HeaderSize, DataOff;
    ghost var header := b.header[..b.headerSize];
    BackedLength(b.files, srcs, bodies, header);
    var at := b.Locate(pos);
    if at.Err? {
      return None;
    }
    var chunk := Min(want, at.value.run);
    LocationInside(b.files, pos, at.value, |srcs|);
    DeliverIsSlice(b.files, header, srcs, bodies, pos, at.value, chunk);
    data := Deliver(b.header[..b.headerSize], srcs, at.value, chunk);
  }

  lemma FinalisedFile(b: Builder, srcs: seq<Source>, bodies: seq<bytes>)
    requires b.Valid() && b.finalised && Backed(b.files, srcs, bodies)
    ensures |srcs| == |bodies|
    ensures |FileOf(b, bodies)| == TotalSize(b.files) == b.totalSize
  {
    hide HeaderSize, DataOff, IsHeader;
    FileLength(b.files, b.header[..b.headerSize], bodies);
  }

  lemma BackedLength(fs: seq<NspBuilder.File>, srcs: seq<Source>, bodies: seq<bytes>, header: bytes)
    requires Backed(fs, srcs, bodies) && |header| == HeaderSize(fs)
    ensures |srcs| == |bodies| == |fs| && |File(header, bodies)| == TotalSize(fs)
  {
    FileLength(fs, header, bodies);
  }

  lemma LocationInside(fs: seq<NspBuilder.File>, pos: nat, at: Location, n: nat)
    requires LocationOf(fs, pos, at) && n == |fs|
    ensures at.run > 0
    ensures at.InHeader? ==> at.headerOff + at.run == HeaderSize(fs)
    ensures at.InEntry? ==> at.index < n
  {
    hide HeaderSize, DataOff;
  }
}
