/** Bytes, fixed-width integers and the little-endian fields every container format is made of. */
module Bytes {

  const U32_LIMIT: int := 0x1_0000_0000
  const U64_LIMIT: int := 0x1_0000_0000_0000_0000

  type byte = x: int | 0 <= x < 256
  type u8 = byte
  type u16 = x: int | 0 <= x < 0x1_0000
  type u32 = x: int | 0 <= x < 0x1_0000_0000
  type u64 = x: int | 0 <= x < 0x1_0000_0000_0000_0000
  type bytes = seq<byte>

  datatype Option<+T> = None | Some(value: T)

  datatype Result<+T, +E> = Ok(value: T) | Err(error: E)

  function Min(a: int, b: int): int {
    if a <= b then a else b
  }

  function Max(a: int, b: int): int {
    if a >= b then a else b
  }

  // ----- unsigned 64-bit arithmetic -----

  /** `a + b` as the C type computes it: the carry out of bit 63 is lost. */
  function Add64(a: u64, b: u64): u64 {
    if a + b < U64_LIMIT then a + b else a + b - U64_LIMIT
  }

  /** `a - b` as the C type computes it: a negative difference wraps to a huge one. */
  function Sub64(a: u64, b: u64): u64 {
    if a >= b then a - b else a - b + U64_LIMIT
  }

  /** A 64-bit counter moved on by a buffer's length. */
  function Advance(pos: u64, n: nat): u64 {
    (pos + n) % U64_LIMIT
  }

  lemma AdvanceTwice(pos: u64, a: nat, b: nat)
    ensures Advance(Advance(pos, a), b) == Advance(pos, a + b)
    ensures pos + a < U64_LIMIT ==> Advance(pos, a) == pos + a
  {
  }

  /** The checked addition: None exactly where the C helper reports a wrap. */
  function CheckedAdd(a: u64, b: u64): (r: Option<u64>)
    ensures r.Some? <==> a + b < U64_LIMIT
    ensures r.Some? ==> r.value == a + b
  {
    if a > U64_LIMIT - 1 - b then None else Some(a + b)
  }

  // ----- sequences of bytes -----

  function Zeros(n: nat): (z: bytes)
    ensures |z| == n
  {
    seq(n, _ => 0)
  }

  /** Chunks put end to end. */
  function Joined(chunks: seq<bytes>): bytes {
    if chunks == [] then [] else chunks[0] + Joined(chunks[1..])
  }

  lemma {:induction false} JoinedAppend(a: seq<bytes>, b: seq<bytes>)
    ensures Joined(a + b) == Joined(a) + Joined(b)
  {
    if a == [] {
      assert a + b == b;
    } else {
      assert (a + b)[1..] == a[1..] + b;
      JoinedAppend(a[1..], b);
    }
  }

  lemma JoinedMore(feeds: seq<bytes>, c: bytes)
    ensures Joined(feeds + [c]) == Joined(feeds) + c
  {
    JoinedAppend(feeds, [c]);
    assert Joined([c]) == c + Joined([]) == c;
  }

  // ----- bytes put together from fields -----

  /** Where field `i` starts when the fields are put end to end. */
  function FieldOff(fields: seq<bytes>, i: nat): nat
    requires i <= |fields|
  {
    if i == 0 then 0 else FieldOff(fields, i - 1) + |fields[i - 1]|
  }

  lemma {:induction false} FieldOffShift(fields: seq<bytes>, i: nat)
    requires 0 < i <= |fields|
    ensures FieldOff(fields, i) == |fields[0]| + FieldOff(fields[1..], i - 1)
  {
    if i > 1 {
      FieldOffShift(fields, i - 1);
    }
  }

  lemma {:induction false} FieldAt(fields: seq<bytes>, i: nat)
    requires i < |fields|
    ensures var at := FieldOff(fields, i);
            at + |fields[i]| == FieldOff(fields, i + 1) <= |Joined(fields)| && Joined(fields)[at..at + |fields[i]|] == fields[i]
    decreases i
  {
    var h, rest := fields[0], Joined(fields[1..]);
    if i > 0 {
      FieldAt(fields[1..], i - 1);
      FieldOffShift(fields, i);
      FieldOffShift(fields, i + 1);
      var at := FieldOff(fields[1..], i - 1);
      assert (h + rest)[|h| + at..|h| + at + |fields[i]|] == rest[at..at + |fields[i]|];
    }
  }

  lemma {:induction false} FieldsLength(fields: seq<bytes>)
    ensures |Joined(fields)| == FieldOff(fields, |fields|)
  {
    if fields != [] {
      FieldsLength(fields[1..]);
      FieldOffShift(fields, |fields|);
    }
  }

  /** Fields that lie end to end in a buffer, joined, are that stretch of it. */
  lemma {:induction false} FieldsAreSlice(b: bytes, at: nat, fields: seq<bytes>, n: nat)
    requires n <= |fields| && at + FieldOff(fields, n) <= |b|
    requires forall i :: 0 <= i < n ==> FieldLies(b, at, fields, i)
    ensures Joined(fields[..n]) == b[at..at + FieldOff(fields, n)]
    decreases n
  {
    hide Joined;
    if n == 0 {
      assert fields[..0] == [];
      assert Joined([]) == [] by { NothingJoined(); }
    } else {
      FieldsAreSlice(b, at, fields, n - 1);
      assert FieldLies(b, at, fields, n - 1);
      assert fields[..n] == fields[..n - 1] + [fields[n - 1]];
      JoinedMore(fields[..n - 1], fields[n - 1]);
      SliceBoth(b, at, at + FieldOff(fields, n - 1), at + FieldOff(fields, n));
    }
  }

  /** Pieces of one length put end to end. */
  lemma {:induction false} EqualPieces(pieces: seq<bytes>, n: nat, i: nat)
    requires (forall k :: 0 <= k < |pieces| ==> |pieces[k]| == n) && i <= |pieces|
    ensures FieldOff(pieces, i) == n * i
  {
    if i > 0 {
      EqualPieces(pieces, n, i - 1);
      assert n * i == n * (i - 1) + n;
    }
  }

  /** Slices of one length, end to end. */
  lemma {:induction false} SlicesJoined(data: bytes, at: nat, pieces: seq<bytes>, n: nat, k: nat)
    requires k <= |pieces| && forall i :: 0 <= i < k ==> SliceIs(data, at, pieces[i], n, i)
    requires at + n * k <= |data| && n * 0 == 0
    ensures Joined(pieces[..k]) == data[at..at + n * k]
  {
    hide Joined, SliceIs;
    if k == 0 {
      assert pieces[..0] == [];
      NothingJoined();
    } else {
      assert SliceIs(data, at, pieces[k - 1], n, k - 1);
      SliceLies(data, at, pieces[k - 1], n, k - 1);
      SlicesJoined(data, at, pieces, n, k - 1);
      assert pieces[..k] == pieces[..k - 1] + [pieces[k - 1]];
      JoinedMore(pieces[..k - 1], pieces[k - 1]);
      SliceBoth(data, at, at + n * (k - 1), at + n * k);
    }
  }

  lemma SliceLies(data: bytes, at: nat, piece: bytes, n: nat, i: nat)
    requires SliceIs(data, at, piece, n, i)
    ensures n * (i + 1) == n * i + n && at + n * i <= at + n * (i + 1) <= |data| && piece == data[at + n * i..at + n * (i + 1)]
  {
  }

  ghost predicate SliceIs(data: bytes, at: nat, piece: bytes, n: nat, i: nat) {
    at + n * i + n <= |data| && piece == data[at + n * i..at + n * i + n] && n * (i + 1) == n * i + n
  }

  lemma ByteAt(b: bytes, at: nat, v: byte)
    requires at < |b| && b[at..at + 1] == [v]
    ensures b[at] == v
  {
    assert b[at..at + 1][0] == b[at];
  }

  /** Field `i` lies in `b`, where `at` is the place of the first. */
  ghost predicate FieldLies(b: bytes, at: nat, fields: seq<bytes>, i: nat)
    requires i < |fields|
  {
    var from, to := at + FieldOff(fields, i), at + FieldOff(fields, i + 1);
    from <= to <= |b| && b[from..to] == fields[i]
  }

  lemma NothingJoined()
    ensures Joined([]) == []
  {
  }

  lemma SliceBoth<T>(s: seq<T>, i: nat, j: nat, k: nat)
    requires i <= j <= k <= |s|
    ensures s[i..j] + s[j..k] == s[i..k]
  {
  }

  /** The bytes of a text in plain characters. */
  function Ascii(s: string): (b: bytes)
    requires forall i :: 0 <= i < |s| ==> s[i] as int < 0x80
    ensures |b| == |s|
  {
    seq(|s|, i requires 0 <= i < |s| => s[i] as int)
  }

  // ----- little-endian fields -----

  function Pow256(n: nat): (p: nat)
    ensures p > 0
  {
    if n == 0 then 1 else 256 * Pow256(n - 1)
  }

  /** The `n` low-order bytes of `v`, least significant first. */
  function Le(v: nat, n: nat): (b: bytes)
    ensures |b| == n
  {
    if n == 0 then [] else [v % 256] + Le(v / 256, n - 1)
  }

  /** Reads `n` bytes at `off` as a little-endian number. */
  function RdLe(b: bytes, off: nat, n: nat): (v: nat)
    requires off + n <= |b|
    ensures v < Pow256(n)
    decreases n
  {
    if n == 0 then 0 else b[off] + 256 * RdLe(b, off + 1, n - 1)
  }

  lemma Pow256Widths()
    ensures Pow256(4) == U32_LIMIT && Pow256(8) == U64_LIMIT && Pow256(2) == 0x1_0000 && Pow256(5) == 0x100_0000_0000
  {
    assert Pow256(1) == 256;
    assert Pow256(2) == 0x1_0000;
    assert Pow256(3) == 0x100_0000;
    assert Pow256(4) == 0x1_0000_0000;
    assert Pow256(5) == 0x100_0000_0000;
    assert Pow256(6) == 0x1_0000_0000_0000;
    assert Pow256(7) == 0x100_0000_0000_0000;
  }

  function RdU16(b: bytes, off: nat): u16
    requires off + 2 <= |b|
  {
    Pow256Widths();
    RdLe(b, off, 2)
  }

  function RdU32(b: bytes, off: nat): u32
    requires off + 4 <= |b|
  {
    Pow256Widths();
    RdLe(b, off, 4)
  }

  function RdU40(b: bytes, off: nat): u64
    requires off + 5 <= |b|
  {
    Pow256Widths();
    RdLe(b, off, 5)
  }

  function RdU64(b: bytes, off: nat): u64
    requires off + 8 <= |b|
  {
    Pow256Widths();
    RdLe(b, off, 8)
  }

  /** A field depends on its own bytes only. */
  lemma {:induction false} RdLeSlice(b: bytes, off: nat, c: bytes, at: nat, n: nat)
    requires off + n <= |b| && at + n <= |c|
    requires b[off..off + n] == c[at..at + n]
    ensures RdLe(b, off, n) == RdLe(c, at, n)
    decreases n
  {
    if n > 0 {
      assert b[off] == b[off..off + n][0] == c[at..at + n][0] == c[at];
      assert b[off + 1..off + n] == b[off..off + n][1..] == c[at..at + n][1..] == c[at + 1..at + n];
      RdLeSlice(b, off + 1, c, at + 1, n - 1);
    }
  }

  /** Writing a number that fits its field and reading the field back gives the number. */
  lemma {:induction false} LeRoundTrip(v: nat, n: nat)
    requires v < Pow256(n)
    ensures RdLe(Le(v, n), 0, n) == v
  {
    if n > 0 {
      var rest := Le(v / 256, n - 1);
      LeRoundTrip(v / 256, n - 1);
      RdLeSlice(Le(v, n), 1, rest, 0, n - 1);
    }
  }

  /** Reading a field and writing the number gives the field's bytes. */
  lemma {:induction false} LeOfRead(b: bytes, off: nat, n: nat)
    requires off + n <= |b|
    ensures Le(RdLe(b, off, n), n) == b[off..off + n]
    decreases n
  {
    if n > 0 {
      LeOfRead(b, off + 1, n - 1);
      LowDigit(b[off], RdLe(b, off + 1, n - 1));
    }
  }

  lemma LowDigit(low: nat, high: nat)
    requires low < 256
    ensures (low + 256 * high) % 256 == low && (low + 256 * high) / 256 == high
  {
  }

  /** Reading back a field that was written at `off` inside a larger buffer. */
  lemma LeAt(b: bytes, off: nat, v: nat, n: nat)
    requires off + n <= |b| && b[off..off + n] == Le(v, n)
    requires v < Pow256(n)
    ensures RdLe(b, off, n) == v
  {
    LeRoundTrip(v, n);
    RdLeSlice(b, off, Le(v, n), 0, n);
  }

  lemma U32At(b: bytes, off: nat, v: u32)
    requires off + 4 <= |b| && b[off..off + 4] == Le(v, 4)
    ensures RdU32(b, off) == v
  {
    hide Le, RdLe;
    Pow256Widths();
    LeAt(b, off, v, 4);
  }

  lemma U64At(b: bytes, off: nat, v: u64)
    requires off + 8 <= |b| && b[off..off + 8] == Le(v, 8)
    ensures RdU64(b, off) == v
  {
    hide Le, RdLe;
    Pow256Widths();
    LeAt(b, off, v, 8);
  }

  /** Three adjacent fields read back separately. */
  lemma Fields884(b: bytes, at: nat, x: u64, y: u64, z: u32)
    requires at + 20 <= |b| && b[at..at + 20] == Le(x, 8) + Le(y, 8) + Le(z, 4)
    ensures RdU64(b, at) == x && RdU64(b, at + 8) == y && RdU32(b, at + 16) == z
  {
    hide *;
    Parts3(Le(x, 8), Le(y, 8), Le(z, 4));
    assert b[at..at + 8] == Le(x, 8) by { SliceOfSlice(b, at, at + 20, 0, 8); }
    U64At(b, at, x);
    var mid := at + 8;
    assert b[mid..mid + 8] == Le(y, 8) by { SliceOfSlice(b, at, at + 20, 8, 16); }
    U64At(b, mid, y);
    var end := at + 16;
    assert b[end..end + 4] == Le(z, 4) by { SliceOfSlice(b, at, at + 20, 16, 20); }
    U32At(b, end, z);
  }

  // ----- characters -----

  function HexNibble(c: byte): Option<byte> {
    if 0x30 <= c <= 0x39 then Some(c - 0x30)
    else if 0x61 <= c <= 0x66 then Some(c - 0x61 + 10)
    else if 0x41 <= c <= 0x46 then Some(c - 0x41 + 10)
    else None
  }

  /** Character `c` is a hexadecimal digit of that value, in either case. */
  predicate DigitIs(c: byte, v: nat) {
    v < 16 && (c == "0123456789abcdef"[v] as int || c == "0123456789ABCDEF"[v] as int)
  }

  lemma NibbleIsDigit(c: byte, v: nat)
    ensures HexNibble(c) == Some(v) <==> DigitIs(c, v)
  {
    var lower, upper := "0123456789abcdef", "0123456789ABCDEF";
    assert |lower| == |upper| == 16;
    if v < 10 {
      DigitRow(v);
    } else if v < 16 {
      LetterRow(v);
    }
  }

  lemma DigitRow(v: nat)
    requires v < 10
    ensures "0123456789abcdef"[v] as int == "0123456789ABCDEF"[v] as int == 0x30 + v
  {
    var row := [0, 1, 2, 3, 4, 5, 6, 7, 8, 9];
    assert row[v] == v;
  }

  lemma LetterRow(v: nat)
    requires 10 <= v < 16
    ensures "0123456789abcdef"[v] as int == 0x61 + v - 10 && "0123456789ABCDEF"[v] as int == 0x41 + v - 10
  {
    var row := [10, 11, 12, 13, 14, 15];
    assert row[v - 10] == v;
  }

  /** A byte of a UTF-8 sequence behind the first. */
  predicate IsTail(c: byte) {
    0x80 <= c < 0xC0
  }

  // ----- C strings -----

  /** The NUL-terminated string starting at `off`, without its terminator. */
  function CStr(b: bytes, off: nat): (s: bytes)
    ensures 0 !in s
    decreases |b| - off
  {
    if off >= |b| || b[off] == 0 then [] else [b[off]] + CStr(b, off + 1)
  }

  lemma {:induction false} CStrAt(b: bytes, off: nat, s: bytes)
    requires off + |s| < |b| && b[off..off + |s|] == s && b[off + |s|] == 0 && 0 !in s
    ensures CStr(b, off) == s
    decreases |s|
  {
    if s != [] {
      assert b[off] == b[off..off + |s|][0] == s[0];
      assert b[off + 1..off + 1 + |s[1..]|] == b[off..off + |s|][1..];
      CStrAt(b, off + 1, s[1..]);
    }
  }

  // ----- copying into a buffer -----

  /** The buffer `prior` with `data` written at `off`, the meaning of `memcpy`. */
  function Overwrite<T>(prior: seq<T>, off: nat, data: seq<T>): (r: seq<T>)
    requires off + |data| <= |prior|
    ensures |r| == |prior|
  {
    prior[..off] + data + prior[off + |data|..]
  }

  lemma SliceSet<T>(prior: seq<T>, off: nat, data: seq<T>)
    requires off + |data| <= |prior|
    ensures Overwrite(prior, off, data)[off..off + |data|] == data
  {
  }

  lemma SliceKept<T>(prior: seq<T>, off: nat, data: seq<T>, lo: nat, hi: nat)
    requires off + |data| <= |prior| && lo <= hi <= |prior|
    requires hi <= off || off + |data| <= lo
    ensures Overwrite(prior, off, data)[lo..hi] == prior[lo..hi]
  {
  }

  lemma SliceBefore<T>(front: seq<T>, rest: seq<T>, lo: nat, hi: nat)
    requires lo <= hi <= |front|
    ensures (front + rest)[lo..hi] == front[lo..hi]
  {
    var a, b := (front + rest)[lo..hi], front[lo..hi];
    forall k | 0 <= k < hi - lo
      ensures a[k] == b[k]
    {
      assert a[k] == (front + rest)[lo + k];
    }
  }

  lemma SliceBehind<T>(front: seq<T>, rest: seq<T>, off: nat, len: nat)
    requires off + len <= |rest|
    ensures (front + rest)[|front| + off..|front| + off + len] == rest[off..off + len]
  {
    var a, b := (front + rest)[|front| + off..|front| + off + len], rest[off..off + len];
    forall k | 0 <= k < len
      ensures a[k] == b[k]
    {
      assert a[k] == (front + rest)[|front| + off + k];
    }
  }

  lemma SliceOfSlice<T>(s: seq<T>, from: nat, to: nat, lo: nat, hi: nat)
    requires from <= to <= |s| && lo <= hi <= to - from
    ensures s[from..to][lo..hi] == s[from + lo..from + hi]
  {
    var a, b := s[from..to][lo..hi], s[from + lo..from + hi];
    assert |a| == |b| == hi - lo;
    forall k | 0 <= k < hi - lo
      ensures a[k] == b[k]
    {
      assert a[k] == s[from..to][lo + k] == s[from + lo + k];
    }
  }

  lemma Parts3<T>(a: seq<T>, b: seq<T>, c: seq<T>)
    ensures (a + b + c)[..|a|] == a
    ensures (a + b + c)[|a|..|a| + |b|] == b
    ensures (a + b + c)[|a| + |b|..|a| + |b| + |c|] == c
  {
  }

  method Copy<T>(dst: array<T>, off: nat, data: seq<T>)
    requires off + |data| <= dst.Length
    modifies dst
    ensures dst[..] == Overwrite(old(dst[..]), off, data)
  {
    for i := 0 to |data|
      invariant forall k :: 0 <= k < i ==> dst[off + k] == data[k]
      invariant forall k :: 0 <= k < dst.Length && !(off <= k < off + i) ==> dst[k] == old(dst[k])
    {
      dst[off + i] := data[i];
    }
  }
}
