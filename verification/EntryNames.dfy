/** What a file name inside the container says: which kind of entry it is and which content id it carries. */
module EntryNames {
  import opened Bytes

  const ID_SIZE: nat := 0x10

  datatype Kind = Ignore | Nca | MetaNca | Ticket | Cert | Ncz | MetaNcz

  predicate IsContent(k: Kind) {
    k.Nca? || k.MetaNca? || k.Ncz? || k.MetaNcz?
  }

  predicate IsCompressed(k: Kind) {
    k.Ncz? || k.MetaNcz?
  }

  predicate IsMeta(k: Kind) {
    k.MetaNca? || k.MetaNcz?
  }

  const DOT: byte := 0x2E
  const DOT_NCA: bytes := [0x2E, 0x6E, 0x63, 0x61]
  const DOT_NCZ: bytes := [0x2E, 0x6E, 0x63, 0x7A]
  const DOT_TIK: bytes := [0x2E, 0x74, 0x69, 0x6B]
  const DOT_CERT: bytes := [0x2E, 0x63, 0x65, 0x72, 0x74]
  const DOT_CNMT_NCA: bytes := [0x2E, 0x63, 0x6E, 0x6D, 0x74, 0x2E, 0x6E, 0x63, 0x61]
  const DOT_CNMT_NCZ: bytes := [0x2E, 0x63, 0x6E, 0x6D, 0x74, 0x2E, 0x6E, 0x63, 0x7A]

  // ----- content ids -----

  function HexDigit(v: byte): (c: byte)
    requires v < 16
    ensures HexNibble(c) == Some(v) && c != DOT
  {
    if v < 10 then 0x30 + v else 0x61 + v - 10
  }

  /** The lowercase spelling of an id. */
  function FormatId(id: bytes): (s: bytes)
    ensures |s| == 2 * |id|
  {
    if id == [] then [] else [HexDigit(id[0] / 16), HexDigit(id[0] % 16)] + FormatId(id[1..])
  }

  /** Every pair of characters is a pair of hex digits. */
  predicate AllHex(s: bytes) {
    forall i :: 0 <= i < |s| ==> HexNibble(s[i]).Some?
  }

  /** The bytes that pairs of hex digits spell. */
  function HexValue(s: bytes): (id: bytes)
    requires AllHex(s) && |s| % 2 == 0
    ensures |id| == |s| / 2
  {
    if s == [] then [] else [16 * HexNibble(s[0]).value + HexNibble(s[1]).value] + HexValue(s[2..])
  }

  /** The id a 32-digit name stem spells, or None. */
  function ParseId(stem: bytes): (r: Option<bytes>)
    ensures r.Some? ==> |r.value| == ID_SIZE
  {
    if |stem| == 2 * ID_SIZE && AllHex(stem) then Some(HexValue(stem)) else None
  }

  /** The parser as written: one byte of the id from each pair of digits. */
  method ParseContentId(hex: bytes) returns (r: Option<bytes>)
    ensures r == ParseId(hex)
  {
    if |hex| != 2 * ID_SIZE {
      return None;
    }
    var out: bytes := [];
    for i := 0 to ID_SIZE
      invariant |out| == i && AllHex(hex[..2 * i]) && out == HexValue(hex[..2 * i])
    {
      var hi, lo := HexNibble(hex[2 * i]), HexNibble(hex[2 * i + 1]);
      if hi.None? {
        assert !AllHex(hex);
        return None;
      }
      if lo.None? {
        assert !AllHex(hex);
        return None;
      }
      HexValueSnoc(hex[..2 * i], hex[2 * i], hex[2 * i + 1]);
      assert hex[..2 * i] + [hex[2 * i], hex[2 * i + 1]] == hex[..2 * (i + 1)];
      out := out + [16 * hi.value + lo.value];
    }
    assert hex[..2 * ID_SIZE] == hex;
    return Some(out);
  }

  lemma {:induction false} HexValueSnoc(s: bytes, hi: byte, lo: byte)
    requires AllHex(s) && |s| % 2 == 0 && HexNibble(hi).Some? && HexNibble(lo).Some?
    ensures AllHex(s + [hi, lo])
    ensures HexValue(s + [hi, lo]) == HexValue(s) + [16 * HexNibble(hi).value + HexNibble(lo).value]
  {
    var t := s + [hi, lo];
    if s == [] {
      assert t[2..] == [];
    } else {
      HexValueSnoc(s[2..], hi, lo);
      assert t[2..] == s[2..] + [hi, lo];
    }
  }

  /** Spelling an id and reading the spelling gives the id back. */
  lemma {:induction false} HexRoundTrip(id: bytes)
    ensures AllHex(FormatId(id)) && HexValue(FormatId(id)) == id
    ensures DOT !in FormatId(id)
  {
    if id != [] {
      HexRoundTrip(id[1..]);
      var s := FormatId(id);
      assert s[2..] == FormatId(id[1..]);
      assert s == [s[0], s[1]] + s[2..];
    }
  }

  // ----- classification -----

  predicate EndsWith(name: bytes, suffix: bytes) {
    |name| >= |suffix| && name[|name| - |suffix|..] == suffix
  }

  /** The name up to its first dot. */
  function Stem(name: bytes): bytes {
    if name == [] || name[0] == DOT then [] else [name[0]] + Stem(name[1..])
  }

  const NO_ID: bytes := [0, 0, 0, 0, 0, 0, 0, 0, 0, 0, 0, 0, 0, 0, 0, 0]

  /** A content entry is used only when its stem is an id. */
  function Named(name: bytes, kind: Kind): (Kind, bytes) {
    match ParseId(Stem(name))
    case None => (Ignore, NO_ID)
    case Some(id) => (kind, id)
  }

  function Classify(name: bytes): (Kind, bytes) {
    if EndsWith(name, DOT_CNMT_NCA) then Named(name, MetaNca)
    else if EndsWith(name, DOT_NCA) then Named(name, Nca)
    else if EndsWith(name, DOT_CNMT_NCZ) then Named(name, MetaNcz)
    else if EndsWith(name, DOT_NCZ) then Named(name, Ncz)
    else if EndsWith(name, DOT_TIK) then (Ticket, NO_ID)
    else if EndsWith(name, DOT_CERT) then (Cert, NO_ID)
    else (Ignore, NO_ID)
  }

  /** The file name of a content. */
  function NcaName(id: bytes): bytes {
    FormatId(id) + DOT_NCA
  }

  function MetaNcaName(id: bytes): bytes {
    FormatId(id) + DOT_CNMT_NCA
  }

  lemma {:induction false} StemOf(s: bytes, rest: bytes)
    requires DOT !in s && rest != [] && rest[0] == DOT
    ensures Stem(s + rest) == s
  {
    if s == [] {
      assert s + rest == rest;
    } else {
      StemOf(s[1..], rest);
      assert (s + rest)[1..] == s[1..] + rest;
      assert (s + rest)[0] == s[0] && s[0] in s;
    }
  }

  /** A content's file name says its kind and id, and nothing else. */
  lemma NamesClassify(id: bytes)
    requires |id| == ID_SIZE
    ensures Classify(NcaName(id)) == (Nca, id)
    ensures Classify(MetaNcaName(id)) == (MetaNca, id)
  {
    HexRoundTrip(id);
    var s := FormatId(id);
    StemOf(s, DOT_NCA);
    StemOf(s, DOT_CNMT_NCA);
    var n := NcaName(id);
    assert n[|n| - 4..] == DOT_NCA;
    assert n[|n| - 9] == s[|s| - 5] && s[|s| - 5] in s;
    assert n[|n| - 9..][0] != DOT_CNMT_NCA[0];
    var m := MetaNcaName(id);
    assert m[|m| - 9..] == DOT_CNMT_NCA;
  }

  // ----- what a name says, character by character -----

  /** `name` is some stem and behind it `suffix`. */
  ghost predicate HasSuffix(name: bytes, suffix: bytes) {
    exists stem: bytes :: name == stem + suffix
  }

  /** Two digits a byte, the high one first. */
  ghost predicate Spells(hex: bytes, id: bytes) {
    |hex| == 2 * |id| && forall k :: 0 <= k < |id| ==> DigitIs(hex[2 * k], id[k] / 16) && DigitIs(hex[2 * k + 1], id[k] % 16)
  }

  /** The name is 32 digits that spell the id, and a dot behind them. */
  ghost predicate NameSpells(name: bytes, id: bytes) {
    |id| == 16 && |name| > 32 && Spells(name[..32], id) && name[32] == '.' as int
  }

  lemma EndsIffSuffix(name: bytes, suffix: bytes)
    ensures EndsWith(name, suffix) <==> HasSuffix(name, suffix)
  {
    if EndsWith(name, suffix) {
      assert name == name[..|name| - |suffix|] + suffix;
    }
    if HasSuffix(name, suffix) {
      var stem: bytes :| name == stem + suffix;
    }
  }

  /** A stem is read as the id it spells, and as nothing else. */
  lemma {:induction false} ValueSpells(hex: bytes)
    requires AllHex(hex) && |hex| % 2 == 0
    ensures Spells(hex, HexValue(hex))
  {
    hide DigitIs, HexNibble;
    if hex != [] {
      ValueSpells(hex[2..]);
      var id, rest := HexValue(hex), HexValue(hex[2..]);
      NibbleIsDigit(hex[0], HexNibble(hex[0]).value);
      NibbleIsDigit(hex[1], HexNibble(hex[1]).value);
      NibbleRange(hex[0]);
      NibbleRange(hex[1]);
      forall k | 0 <= k < |id|
        ensures DigitIs(hex[2 * k], id[k] / 16) && DigitIs(hex[2 * k + 1], id[k] % 16)
      {
        if k > 0 {
          assert id[k] == rest[k - 1];
          assert hex[2..][2 * (k - 1)] == hex[2 * k] && hex[2..][2 * (k - 1) + 1] == hex[2 * k + 1];
        }
      }
    }
  }

  lemma NibbleRange(c: byte)
    ensures HexNibble(c).Some? ==> HexNibble(c).value < 16
  {
  }

  lemma SpellsOnce(hex: bytes, a: bytes, b: bytes)
    requires Spells(hex, a) && Spells(hex, b)
    ensures a == b && AllHex(hex)
  {
    hide DigitIs, HexNibble;
    forall k | 0 <= k < |a|
      ensures a[k] == b[k]
    {
      SameDigit(hex[2 * k], a[k] / 16, b[k] / 16);
      SameDigit(hex[2 * k + 1], a[k] % 16, b[k] % 16);
    }
    forall i | 0 <= i < |hex|
      ensures HexNibble(hex[i]).Some?
    {
      var k := i / 2;
      NibbleIsDigit(hex[2 * k], a[k] / 16);
      NibbleIsDigit(hex[2 * k + 1], a[k] % 16);
    }
  }

  lemma SameDigit(c: byte, v: nat, w: nat)
    requires DigitIs(c, v) && DigitIs(c, w)
    ensures v == w
  {
    NibbleIsDigit(c, v);
    NibbleIsDigit(c, w);
  }

  lemma StemIsId(name: bytes, id: bytes)
    requires DOT in name
    ensures ParseId(Stem(name)) == Some(id) <==> NameSpells(name, id)
  {
    hide DigitIs, HexNibble, HexValue, Spells;
    StemAtDot(name);
    var n := |Stem(name)|;
    if ParseId(Stem(name)) == Some(id) {
      ValueSpells(Stem(name));
    }
    if NameSpells(name, id) {
      SpellsOnce(name[..32], id, id);
      HexHasNoDot(name[..32]);
      StemOf(name[..32], name[32..]);
      assert name == name[..32] + name[32..];
      ValueSpells(name[..32]);
      SpellsOnce(name[..32], id, HexValue(name[..32]));
    }
  }

  lemma {:induction false} StemAtDot(name: bytes)
    requires DOT in name
    ensures var n := |Stem(name)|; n < |name| && name[..n] == Stem(name) && name[n] == DOT
  {
    if name[0] != DOT {
      assert DOT in name[1..];
      StemAtDot(name[1..]);
      assert name == [name[0]] + name[1..];
    }
  }

  lemma HexHasNoDot(s: bytes)
    requires AllHex(s)
    ensures DOT !in s
  {
  }

  /**
   * What the names say, for every name: tickets and certificates by their ending alone, contents by their ending and
   * by 32 digits up to the first dot, which spell the id. Everything else is ignored.
   */
  lemma ClassifiedByName(name: bytes, id: bytes)
    ensures var (kind, x) := Classify(name);
            var meta := HasSuffix(name, [0x2E, 0x63, 0x6E, 0x6D, 0x74, 0x2E, 0x6E, 0x63, 0x61]);
            var metaZ := HasSuffix(name, [0x2E, 0x63, 0x6E, 0x6D, 0x74, 0x2E, 0x6E, 0x63, 0x7A]);
            && (kind == Ticket <==> HasSuffix(name, [0x2E, 0x74, 0x69, 0x6B]))
            && (kind == Cert <==> HasSuffix(name, [0x2E, 0x63, 0x65, 0x72, 0x74]))
            && ((kind, x) == (MetaNca, id) <==> meta && NameSpells(name, id))
            && ((kind, x) == (Nca, id) <==> !meta && HasSuffix(name, [0x2E, 0x6E, 0x63, 0x61]) && NameSpells(name, id))
            && ((kind, x) == (MetaNcz, id) <==> metaZ && NameSpells(name, id))
            && ((kind, x) == (Ncz, id) <==> !metaZ && HasSuffix(name, [0x2E, 0x6E, 0x63, 0x7A]) && NameSpells(name, id))
            && (!IsContent(kind) ==> x == Zeros(16))
  {
    hide NameSpells, HasSuffix, EndsWith, ParseId, Stem;
    EndsIffSuffix(name, DOT_CNMT_NCA);
    EndsIffSuffix(name, DOT_NCA);
    EndsIffSuffix(name, DOT_CNMT_NCZ);
    EndsIffSuffix(name, DOT_NCZ);
    EndsIffSuffix(name, DOT_TIK);
    EndsIffSuffix(name, DOT_CERT);
    EndingsDiffer(name);
    if EndsWith(name, DOT_NCA) || EndsWith(name, DOT_NCZ) {
      DottedName(name);
      StemIsId(name, id);
    }
  }

  lemma DottedName(name: bytes)
    requires EndsWith(name, DOT_NCA) || EndsWith(name, DOT_NCZ)
    ensures DOT in name
  {
    var at := |name| - 4;
    assert name[at] == name[at..][0];
  }

  /** No name has two of the endings, but that a `.cnmt.nca` is a `.nca` and a `.cnmt.ncz` a `.ncz`. */
  lemma EndingsDiffer(name: bytes)
    ensures EndsWith(name, DOT_CNMT_NCA) ==> EndsWith(name, DOT_NCA)
    ensures EndsWith(name, DOT_CNMT_NCZ) ==> EndsWith(name, DOT_NCZ)
    ensures EndsWith(name, DOT_NCA) ==> !EndsWith(name, DOT_NCZ) && !EndsWith(name, DOT_TIK) && !EndsWith(name, DOT_CERT)
    ensures EndsWith(name, DOT_NCZ) ==> !EndsWith(name, DOT_TIK) && !EndsWith(name, DOT_CERT)
    ensures EndsWith(name, DOT_TIK) ==> !EndsWith(name, DOT_CERT)
  {
    EndsBy(name, DOT_NCA);
    EndsBy(name, DOT_NCZ);
    EndsBy(name, DOT_TIK);
    EndsBy(name, DOT_CERT);
    ShorterEnding(name, DOT_CNMT_NCA, 5);
    ShorterEnding(name, DOT_CNMT_NCZ, 5);
    assert DOT_CNMT_NCA[5..] == DOT_NCA && DOT_CNMT_NCZ[5..] == DOT_NCZ;
  }

  lemma EndsBy(name: bytes, suffix: bytes)
    requires suffix != []
    ensures EndsWith(name, suffix) ==> name != [] && name[|name| - 1] == suffix[|suffix| - 1]
  {
    if EndsWith(name, suffix) {
      assert name[|name| - |suffix|..][|suffix| - 1] == name[|name| - 1];
    }
  }

  lemma ShorterEnding(name: bytes, suffix: bytes, n: nat)
    requires n <= |suffix|
    ensures EndsWith(name, suffix) ==> EndsWith(name, suffix[n..])
  {
    if EndsWith(name, suffix) {
      assert name[|name| - |suffix|..][n..] == name[|name| - |suffix| + n..];
    }
  }
}
