/** Reading strings and numbers out of a parsed document. */
module JsonText {
  import opened Bytes
  import opened Json

  // ----- UTF-8 (section 3 of RFC 3629) -----

  const MAX_SCALAR: nat := 0x10FFFF

  predicate IsScalar(cp: nat) {
    cp <= MAX_SCALAR && !(0xD800 <= cp <= 0xDFFF)
  }

  /** The bytes of a code point. */
  function Utf8(cp: nat): (b: bytes)
    requires cp <= MAX_SCALAR
    ensures 1 <= |b| <= 4
  {
    if cp < 0x80 then [cp]
    else if cp < 0x800 then [0xC0 + cp / 0x40, 0x80 + cp % 0x40]
    else if cp < 0x1_0000 then [0xE0 + cp / 0x1000, 0x80 + cp / 0x40 % 0x40, 0x80 + cp % 0x40]
    else [0xF0 + cp / 0x4_0000, 0x80 + cp / 0x1000 % 0x40, 0x80 + cp / 0x40 % 0x40, 0x80 + cp % 0x40]
  }

  function Utf8All(cps: seq<nat>): bytes
    requires forall i :: 0 <= i < |cps| ==> cps[i] <= MAX_SCALAR
  {
    if cps == [] then [] else Utf8(cps[0]) + Utf8All(cps[1..])
  }

  /** The payload of a byte whose marker bits are `marker`. */
  function Payload(b: byte, marker: nat): nat
    requires marker <= b
  {
    b - marker
  }

  /** The code point a byte sequence starts with, and its length. */
  function FirstCodePoint(b: bytes): Option<(nat, nat)> {
    if b == [] then None
    else if b[0] < 0x80 then Some((b[0], 1))
    else if 0xC0 <= b[0] < 0xE0 && |b| >= 2 && IsTail(b[1]) then Some((Payload(b[0], 0xC0) * 0x40 + Payload(b[1], 0x80), 2))
    else if 0xE0 <= b[0] < 0xF0 && |b| >= 3 && IsTail(b[1]) && IsTail(b[2]) then
      Some((Payload(b[0], 0xE0) * 0x1000 + Payload(b[1], 0x80) * 0x40 + Payload(b[2], 0x80), 3))
    else if 0xF0 <= b[0] < 0xF8 && |b| >= 4 && IsTail(b[1]) && IsTail(b[2]) && IsTail(b[3]) then
      Some((Payload(b[0], 0xF0) * 0x4_0000 + Payload(b[1], 0x80) * 0x1000 + Payload(b[2], 0x80) * 0x40 + Payload(b[3], 0x80), 4))
    else None
  }

  /** The examples of section 7 of RFC 3629 and the ends of each row of its table. */
  lemma Utf8Examples()
    ensures Utf8(0x41) == [0x41] && Utf8(0x2262) == [0xE2, 0x89, 0xA2] && Utf8(0x0391) == [0xCE, 0x91] && Utf8(0xD55C) == [0xED, 0x95, 0x9C]
    ensures Utf8(0x233B4) == [0xF0, 0xA3, 0x8E, 0xB4]
    ensures Utf8(0x7F) == [0x7F] && Utf8(0x80) == [0xC2, 0x80] && Utf8(0x7FF) == [0xDF, 0xBF] && Utf8(0x800) == [0xE0, 0xA0, 0x80]
    ensures Utf8(0xFFFF) == [0xEF, 0xBF, 0xBF] && Utf8(0x1_0000) == [0xF0, 0x90, 0x80, 0x80] && Utf8(0x10_FFFF) == [0xF4, 0x8F, 0xBF, 0xBF]
  {
  }

  /** Encoding loses nothing: the code point is read back from its bytes, whatever follows. */
  lemma Utf8RoundTrip(cp: nat, rest: bytes)
    requires cp <= MAX_SCALAR
    ensures FirstCodePoint(Utf8(cp) + rest) == Some((cp, |Utf8(cp)|))
  {
    var b := Utf8(cp) + rest;
    if cp < 0x80 {
      assert b[0] == cp;
    } else if cp < 0x800 {
      assert b[0] == 0xC0 + cp / 0x40 && b[1] == 0x80 + cp % 0x40;
    } else if cp < 0x1_0000 {
      assert b[0] == 0xE0 + cp / 0x1000 && b[1] == 0x80 + cp / 0x40 % 0x40 && b[2] == 0x80 + cp % 0x40;
      assert cp / 0x40 / 0x40 == cp / 0x1000;
    } else {
      assert b[0] == 0xF0 + cp / 0x4_0000 && b[1] == 0x80 + cp / 0x1000 % 0x40;
      assert b[2] == 0x80 + cp / 0x40 % 0x40 && b[3] == 0x80 + cp % 0x40;
      assert cp / 0x40 / 0x40 == cp / 0x1000 && cp / 0x1000 / 0x40 == cp / 0x4_0000;
    }
  }

  // ----- escapes -----

  /** The number four hexadecimal digits stand for. */
  function Hex4(s: bytes): (r: Option<nat>)
    requires |s| >= 4
    ensures r.Some? ==> r.value < 0x1_0000
  {
    var a, b, c, d := HexNibble(s[0]), HexNibble(s[1]), HexNibble(s[2]), HexNibble(s[3]);
    if a.None? || b.None? || c.None? || d.None? then None
    else Some(a.value * 0x1000 + b.value * 0x100 + c.value * 0x10 + d.value)
  }

  const LETTER_U: byte := 0x75

  /** What a one-letter escape stands for. */
  function ShortEscape(e: byte): Option<byte> {
    if e == QUOTE || e == BACKSLASH || e == 0x2F then Some(e)
    else if e == 0x62 then Some(0x08)
    else if e == 0x66 then Some(0x0C)
    else if e == 0x6E then Some(0x0A)
    else if e == 0x72 then Some(0x0D)
    else if e == 0x74 then Some(0x09)
    else None
  }

  predicate IsHigh(cp: nat) {
    0xD800 <= cp <= 0xDBFF
  }

  predicate IsLow(cp: nat) {
    0xDC00 <= cp <= 0xDFFF
  }

  function Combine(high: nat, low: nat): (cp: nat)
    requires IsHigh(high) && IsLow(low)
    ensures 0x1_0000 <= cp <= MAX_SCALAR
  {
    0x1_0000 + (high - 0xD800) * 0x400 + (low - 0xDC00)
  }

  /** The low half that follows a high one, if there is one. */
  function LowHalf(s: bytes): (r: Option<nat>)
    requires |s| >= 6
    ensures r.Some? ==> |s| >= 12 && IsLow(r.value)
  {
    if |s| >= 12 && s[6] == BACKSLASH && s[7] == LETTER_U then
      match Hex4(s[8..])
      case None => None
      case Some(low) => if IsLow(low) then Some(low) else None
    else None
  }

  /** One unit at the front of a raw string: its bytes and how much of the text it takes. */
  function Unit(s: bytes): (r: Option<(bytes, nat)>)
    requires s != []
    ensures r.Some? ==> 1 <= r.value.1 <= |s| && 1 <= |r.value.0| <= 4
  {
    if s[0] != BACKSLASH then Some(([s[0]], 1))
    else if |s| < 2 then None
    else if s[1] == LETTER_U then
      if |s| < 6 then None
      else
        match Hex4(s[2..])
        case None => None
        case Some(cp) =>
          if IsHigh(cp) && LowHalf(s).Some? then Some((Utf8(Combine(cp, LowHalf(s).value)), 12))
          else Some((Utf8(cp), 6))
    else
      match ShortEscape(s[1])
      case None => None
      case Some(c) => Some(([c], 2))
  }

  function Decode(s: bytes): Option<bytes>
    decreases |s|
  {
    if s == [] then Some([])
    else
      match Unit(s)
      case None => None
      case Some((b, n)) =>
        match Decode(s[n..])
        case None => None
        case Some(rest) => Some(b + rest)
  }

  /** Writes the decoded string and a terminator; fails when the raw string is malformed or does not fit. */
  method GetString(src: bytes, out: array<byte>) returns (ok: bool)
    requires out.Length > 0
    modifies out
    ensures ok <==> Decode(src).Some? && |Decode(src).value| < out.Length
    ensures ok ==> var d := Decode(src).value; out[..|d|] == d && out[|d|] == 0
  {
    hide Unit;
    out[0] := 0;
    var w: nat, i: nat := 0, 0;
    ghost var whole := Decode(src);
    assert src[0..] == src;
    AfterNothing(Decode(src));
    while i < |src|
      invariant i <= |src| && w < out.Length
      invariant whole == After(out[..w], Decode(src[i..]))
      decreases |src| - i
    {
      var unit := Unit(src[i..]);
      if unit.None? {
        return false;
      }
      var (b, n) := unit.value;
      assert src[i..][n..] == src[i + n..];
      UnitJoins(out[..w], b, Decode(src[i + n..]));
      if w + |b| >= out.Length {
        return false;
      }
      ghost var done := out[..w];
      Copy(out, w, b);
      assert out[..w + |b|] == done + b;
      w := w + |b|;
      i := i + n;
    }
    out[w] := 0;
    return true;
  }

  function After(done: bytes, rest: Option<bytes>): Option<bytes> {
    match rest
    case None => None
    case Some(r) => Some(done + r)
  }

  lemma AfterNothing(o: Option<bytes>)
    ensures After([], o) == o
  {
    if o.Some? {
      assert [] + o.value == o.value;
    }
  }

  lemma UnitJoins(done: bytes, b: bytes, rest: Option<bytes>)
    ensures After(done, After(b, rest)) == After(done + b, rest)
  {
    if rest.Some? {
      assert done + (b + rest.value) == done + b + rest.value;
    }
  }

  // ----- every way of writing a string is read back -----

  /** A code point as a writer may put it into a string (section 7 of RFC 8259). */
  datatype Piece =
    | Raw(cp: nat)
    | Short(letter: char)
    | Escaped(cp: nat, digits: bytes)
    | Paired(cp: nat, high: bytes, low: bytes)

  /** The one-letter escapes and what they stand for. */
  const SHORT_ESCAPES: map<char, nat> :=
    map['\"' := 0x22, '\\' := 0x5C, '/' := 0x2F, 'b' := 0x08, 'f' := 0x0C, 'n' := 0x0A, 'r' := 0x0D, 't' := 0x09]

  /** Four hexadecimal digits, in either case, that spell the number. */
  ghost predicate SpellsHex4(digits: bytes, v: nat) {
    && |digits| == 4 && v < 0x1_0000
    && DigitIs(digits[0], v / 0x1000) && DigitIs(digits[1], v / 0x100 % 0x10) && DigitIs(digits[2], v / 0x10 % 0x10) && DigitIs(digits[3], v % 0x10)
  }

  lemma Hex4IsSpelled(digits: bytes, v: nat)
    requires SpellsHex4(digits, v)
    ensures |digits| == 4 && Hex4(digits) == Some(v)
  {
    hide HexNibble, DigitIs;
    NibbleIsDigit(digits[0], v / 0x1000);
    NibbleIsDigit(digits[1], v / 0x100 % 0x10);
    NibbleIsDigit(digits[2], v / 0x10 % 0x10);
    NibbleIsDigit(digits[3], v % 0x10);
    FourDigits(v);
  }

  lemma FourDigits(v: nat)
    requires v < 0x1_0000
    ensures v / 0x1000 * 0x1000 + v / 0x100 % 0x10 * 0x100 + v / 0x10 % 0x10 * 0x10 + v % 0x10 == v
  {
    assert v / 0x10 / 0x10 == v / 0x100 && v / 0x100 / 0x10 == v / 0x1000;
  }

  ghost predicate PieceOk(p: Piece) {
    match p
    case Raw(cp) => IsScalar(cp) && cp != 0x22 && cp != 0x5C
    case Short(letter) => letter in SHORT_ESCAPES
    case Escaped(cp, digits) => IsScalar(cp) && SpellsHex4(digits, cp)
    case Paired(cp, high, low) =>
      && 0x1_0000 <= cp <= 0x10_FFFF
      && SpellsHex4(high, 0xD800 + (cp - 0x1_0000) / 0x400) && SpellsHex4(low, 0xDC00 + (cp - 0x1_0000) % 0x400)
  }

  ghost function CodeOf(p: Piece): (cp: nat)
    requires PieceOk(p)
    ensures cp <= MAX_SCALAR
  {
    match p
    case Raw(cp) => cp
    case Short(letter) => SHORT_ESCAPES[letter]
    case Escaped(cp, _) => cp
    case Paired(cp, _, _) => cp
  }

  ghost function Written(p: Piece): bytes
    requires PieceOk(p)
  {
    match p
    case Raw(cp) => Utf8(cp)
    case Short(letter) => ['\\' as int, letter as int]
    case Escaped(_, digits) => Ascii("\\u") + digits
    case Paired(_, high, low) => Ascii("\\u") + high + Ascii("\\u") + low
  }

  ghost predicate AllOk(ps: seq<Piece>) {
    forall p :: p in ps ==> PieceOk(p)
  }

  ghost function WrittenAll(ps: seq<Piece>): bytes
    requires AllOk(ps)
  {
    if ps == [] then [] else Written(ps[0]) + WrittenAll(ps[1..])
  }

  ghost function CodesOf(ps: seq<Piece>): (cps: seq<nat>)
    requires AllOk(ps)
    ensures forall i :: 0 <= i < |cps| ==> cps[i] <= MAX_SCALAR
  {
    if ps == [] then [] else [CodeOf(ps[0])] + CodesOf(ps[1..])
  }

  /** Bytes without a backslash are copied. */
  lemma {:induction false} PlainIsCopied(b: bytes, rest: bytes)
    requires BACKSLASH !in b
    ensures Decode(b + rest) == After(b, Decode(rest))
    decreases |b|
  {
    if b == [] {
      assert b + rest == rest;
      AfterNothing(Decode(rest));
    } else {
      var s := b + rest;
      assert s[0] == b[0] && s[1..] == b[1..] + rest;
      assert b[0] in b;
      PlainIsCopied(b[1..], rest);
      assert [b[0]] + b[1..] == b;
      UnitJoins([b[0]], b[1..], Decode(rest));
    }
  }

  lemma RawHasNoBackslash(cp: nat)
    requires IsScalar(cp) && cp != BACKSLASH
    ensures BACKSLASH !in Utf8(cp)
  {
  }

  lemma HexPrefix(s: bytes, d: bytes, rest: bytes)
    requires |d| == 4 && s == d + rest
    ensures Hex4(s) == Hex4(d)
  {
    hide HexNibble;
    assert s[0] == d[0] && s[1] == d[1] && s[2] == d[2] && s[3] == d[3];
  }

  lemma PieceIsRead(p: Piece, rest: bytes)
    requires PieceOk(p)
    ensures Decode(Written(p) + rest) == After(Utf8(CodeOf(p)), Decode(rest))
  {
    match p
    case Raw(cp) =>
      RawHasNoBackslash(cp);
      PlainIsCopied(Utf8(cp), rest);
    case Short(letter) => ShortIsRead(letter, rest);
    case Escaped(cp, digits) => EscapedIsRead(cp, digits, rest);
    case Paired(cp, high, low) => PairedIsRead(cp, high, low, rest);
  }

  lemma ShortIsRead(letter: char, rest: bytes)
    requires PieceOk(Short(letter))
    ensures Decode(Written(Short(letter)) + rest) == After(Utf8(CodeOf(Short(letter))), Decode(rest))
  {
    var s := ['\\' as int, letter as int] + rest;
    assert s[2..] == rest && s[0] == BACKSLASH && s[1] == letter as int;
    assert ShortEscape(letter as int) == Some(SHORT_ESCAPES[letter]);
    assert Unit(s) == Some(([SHORT_ESCAPES[letter]], 2));
  }

  lemma LettersU()
    ensures Ascii("\\u") == [BACKSLASH, LETTER_U]
  {
  }

  lemma EscapedIsRead(cp: nat, digits: bytes, rest: bytes)
    requires PieceOk(Escaped(cp, digits))
    ensures Decode(Written(Escaped(cp, digits)) + rest) == After(Utf8(cp), Decode(rest))
  {
    hide HexNibble, Hex4, LowHalf, Utf8, ShortEscape, SpellsHex4, Ascii;
    LettersU();
    Hex4IsSpelled(digits, cp);
    var s := [BACKSLASH, LETTER_U] + digits + rest;
    assert s[0] == BACKSLASH && s[1] == LETTER_U;
    assert s[2..] == digits + rest && s[6..] == rest;
    HexPrefix(s[2..], digits, rest);
    assert Unit(s) == Some((Utf8(cp), 6));
  }

  lemma PairedIsRead(cp: nat, high: bytes, low: bytes, rest: bytes)
    requires PieceOk(Paired(cp, high, low))
    ensures Decode(Written(Paired(cp, high, low)) + rest) == After(Utf8(cp), Decode(rest))
  {
    hide HexNibble, Hex4, Utf8, ShortEscape, Decode, SpellsHex4, Ascii;
    LettersU();
    var h, l := 0xD800 + (cp - 0x1_0000) / 0x400, 0xDC00 + (cp - 0x1_0000) % 0x400;
    Hex4IsSpelled(high, h);
    Hex4IsSpelled(low, l);
    var s := [BACKSLASH, LETTER_U] + high + [BACKSLASH, LETTER_U] + low + rest;
    var tail := [BACKSLASH, LETTER_U] + low + rest;
    assert s[0] == BACKSLASH && s[1] == LETTER_U && s[6] == BACKSLASH && s[7] == LETTER_U;
    assert s[2..] == high + tail && s[8..] == low + rest && s[12..] == rest;
    HexPrefix(s[2..], high, tail);
    HexPrefix(s[8..], low, rest);
    assert LowHalf(s) == Some(l);
    assert Combine(h, l) == cp;
    assert Unit(s) == Some((Utf8(cp), 12));
    DecodeUnit(s, Utf8(cp), 12);
  }

  lemma DecodeUnit(s: bytes, b: bytes, n: nat)
    requires s != [] && Unit(s) == Some((b, n))
    ensures Decode(s) == After(b, Decode(s[n..]))
  {
    hide Unit;
  }

  /** Whatever mix of raw text, short escapes, numeric escapes and surrogate pairs a string was written with, its UTF-8 comes back. */
  lemma {:induction false} DecodingInvertsEscaping(ps: seq<Piece>)
    requires AllOk(ps)
    ensures Decode(WrittenAll(ps)) == Some(Utf8All(CodesOf(ps)))
  {
    hide Written, CodeOf, PieceOk, Utf8;
    if ps != [] {
      var p, rest := ps[0], ps[1..];
      DecodingInvertsEscaping(rest);
      PieceIsRead(p, WrittenAll(rest));
      assert CodesOf(ps)[0] == CodeOf(p) && CodesOf(ps)[1..] == CodesOf(rest);
    }
  }

  // ----- numbers -----

  predicate IsDigit(c: byte) {
    0x30 <= c <= 0x39
  }

  predicate EndsInteger(c: byte) {
    c == 0x2E || c == 0x65 || c == 0x45
  }

  function DigitOf(c: byte): nat
    requires IsDigit(c)
  {
    c - 0x30
  }

  function Decimal(d: bytes): nat
    requires forall c :: c in d ==> IsDigit(c)
  {
    if d == [] then 0 else 10 * Decimal(d[..|d| - 1]) + DigitOf(d[|d| - 1])
  }

  /** Where the digits of a number start: behind a plus sign. */
  function DigitsFrom(s: bytes): (k: nat)
    ensures k <= |s|
  {
    if s != [] && s[0] == 0x2B then 1 else 0
  }

  /** `n` is where the integer part ends: digits before it, then the end, a dot or an exponent. */
  predicate IntegerEnds(s: bytes, n: nat) {
    && DigitsFrom(s) < n <= |s|
    && (forall i :: DigitsFrom(s) <= i < n ==> IsDigit(s[i]))
    && (n < |s| ==> EndsInteger(s[n]))
  }

  lemma IntegerEndIsUnique(s: bytes, m: nat, n: nat)
    requires IntegerEnds(s, m) && IntegerEnds(s, n)
    ensures m == n
  {
  }

  function IntegerPart(s: bytes, n: nat): nat
    requires IntegerEnds(s, n)
  {
    Decimal(s[DigitsFrom(s)..n])
  }

  lemma {:induction false} DecimalGrows(d: bytes, k: nat)
    requires k <= |d| && forall c :: c in d ==> IsDigit(c)
    ensures Decimal(d[..k]) <= Decimal(d)
    decreases |d|
  {
    if k < |d| {
      assert d[..|d| - 1][..k] == d[..k];
      DecimalGrows(d[..|d| - 1], k);
      OneMoreDigit(d);
    } else {
      assert d[..k] == d;
    }
  }

  /** Reads the integer part of a number; false when there is none, when it is negative, or when it does not fit 64 bits. */
  method GetU64(s: bytes) returns (ok: bool, v: u64)
    ensures ok <==> exists n: nat :: IntegerEnds(s, n) && IntegerPart(s, n) < U64_LIMIT
    ensures ok ==> forall n: nat :: IntegerEnds(s, n) ==> v == IntegerPart(s, n)
  {
    hide Decimal;
    v := 0;
    var i := 0;
    if i < |s| && s[i] == 0x2D {
      return false, 0;
    }
    if i < |s| && s[i] == 0x2B {
      i := i + 1;
    }
    var start := i;
    assert start == DigitsFrom(s);
    EmptyIsZero();
    assert s[start..start] == [];
    while i < |s| && !EndsInteger(s[i])
      invariant start <= i <= |s|
      invariant forall k :: start <= k < i ==> IsDigit(s[k])
      invariant v == Decimal(s[start..i])
    {
      if !IsDigit(s[i]) {
        NoIntegerPast(s, i);
        return false, 0;
      }
      var d := DigitOf(s[i]);
      assert s[start..i + 1][..i - start] == s[start..i];
      OneMoreDigit(s[start..i + 1]);
      if v > (U64_LIMIT - 1 - d) / 10 {
        TooLargeStays(s, start, i + 1);
        return false, 0;
      }
      v := v * 10 + d;
      i := i + 1;
    }
    if i == start {
      NoIntegerPast(s, i);
      return false, 0;
    }
    assert IntegerEnds(s, i);
    forall n: nat | IntegerEnds(s, n)
      ensures v == IntegerPart(s, n)
    {
      IntegerEndIsUnique(s, i, n);
    }
    return true, v;
  }

  lemma EmptyIsZero()
    ensures Decimal([]) == 0
  {
  }

  lemma OneMoreDigit(d: bytes)
    requires d != [] && forall c :: c in d ==> IsDigit(c)
    ensures Decimal(d) == 10 * Decimal(d[..|d| - 1]) + DigitOf(d[|d| - 1])
  {
  }

  /** No integer part ends behind a byte that is no digit. */
  lemma NoIntegerPast(s: bytes, i: nat)
    requires DigitsFrom(s) <= i <= |s| && (forall k :: DigitsFrom(s) <= k < i ==> IsDigit(s[k]))
    requires (i < |s| && !IsDigit(s[i]) && !EndsInteger(s[i])) || (i == DigitsFrom(s) && (i == |s| || !IsDigit(s[i])))
    ensures forall n: nat :: !IntegerEnds(s, n)
  {
  }

  lemma TooLargeStays(s: bytes, start: nat, i: nat)
    requires start == DigitsFrom(s) < i <= |s| && (forall k :: start <= k < i ==> IsDigit(s[k])) && Decimal(s[start..i]) >= U64_LIMIT
    ensures forall n: nat :: IntegerEnds(s, n) ==> IntegerPart(s, n) >= U64_LIMIT
  {
    forall n: nat | IntegerEnds(s, n)
      ensures IntegerPart(s, n) >= U64_LIMIT
    {
      if n >= i {
        SliceOfSlice(s, start, n, 0, i - start);
        assert s[start..n][..i - start] == s[start..n][0..i - start];
        DecimalGrows(s[start..n], i - start);
      }
    }
  }

  // ----- every way of writing a number is read back -----

  /** A number in decimal, without leading zeros. */
  function DecimalText(v: nat): (b: bytes)
    ensures b != []
  {
    (if v < 10 then [] else DecimalText(v / 10)) + ["0123456789"[v % 10] as int]
  }

  lemma DigitRead(d: nat)
    requires d < 10
    ensures var c: byte := "0123456789"[d] as int; IsDigit(c) && DigitOf(c) == d
  {
    var row := [0, 1, 2, 3, 4, 5, 6, 7, 8, 9];
    assert row[d] == d;
  }

  lemma {:induction false} DecimalIsRead(v: nat)
    ensures (forall c :: c in DecimalText(v) ==> IsDigit(c)) && Decimal(DecimalText(v)) == v
  {
    hide IsDigit;
    DigitRead(v % 10);
    var b, c: byte := DecimalText(v), "0123456789"[v % 10] as int;
    if v < 10 {
      assert b == [c] && b[..0] == [];
    } else {
      DecimalIsRead(v / 10);
      assert b[..|b| - 1] == DecimalText(v / 10);
    }
    OneMoreDigit(b);
  }

  /** The integer part of a number as it is written, with or without a plus sign, a fraction or an exponent behind it. */
  lemma NumberIsRead(v: nat, plus: bool, rest: bytes)
    requires rest != [] ==> rest[0] == '.' as int || rest[0] == 'e' as int || rest[0] == 'E' as int
    ensures var s := (if plus then ['+' as int] else []) + DecimalText(v) + rest;
            var n := |s| - |rest|;
            IntegerEnds(s, n) && IntegerPart(s, n) == v
  {
    hide Decimal, DecimalText;
    DecimalIsRead(v);
    var sign := if plus then ['+' as int] else [];
    IntegerInside(sign, DecimalText(v), rest);
  }

  lemma IntegerInside(sign: bytes, d: bytes, rest: bytes)
    requires (sign == [] || sign == [0x2B]) && d != [] && forall c :: c in d ==> IsDigit(c)
    requires rest != [] ==> rest[0] == 0x2E || rest[0] == 0x65 || rest[0] == 0x45
    ensures var s, n := sign + d + rest, |sign| + |d|;
            IntegerEnds(s, n) && DigitsFrom(s) == |sign| && s[|sign|..n] == d
  {
    var s, k, n := sign + d + rest, |sign|, |sign| + |d|;
    assert s[k..n] == d;
    assert s[k] == d[0] && d[0] in d;
    forall i | k <= i < n
      ensures IsDigit(s[i])
    {
      assert s[i] == d[i - k] && d[i - k] in d;
    }
    assert n < |s| ==> s[n] == rest[0];
  }
}
