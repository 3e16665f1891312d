/** The content manifest as it is written: every field at its place, so that reading one back is checked against it. */
module CnmtFormat {
  import opened Bytes
  import opened Cnmt

  /** What a manifest says; `platform`, `attributes`, `metas` and `tail` are carried but never looked at. */
  datatype Package = Package(titleId: u64, version: u32, metaType: u8, platform: u8, ext: bytes, infos: seq<ContentInfo>,
                             metas: seq<bytes>, attributes: bytes, tail: bytes)

  predicate Fits(info: ContentInfo) {
    |info.hash| == 32 && |info.contentId| == 16 && info.size < 0x100_0000_0000
  }

  ghost predicate Writable(p: Package) {
    && |p.ext| < 0x1_0000 && |p.infos| <= 0x1000 && |p.metas| < 0x1_0000 && |p.attributes| == 12
    && (forall i :: 0 <= i < |p.infos| ==> Fits(p.infos[i]))
    && (forall i :: 0 <= i < |p.metas| ==> |p.metas[i]| == 16)
  }

  function HeaderFields(p: Package): seq<bytes>
    requires |p.ext| < 0x1_0000 && |p.infos| < 0x1_0000 && |p.metas| < 0x1_0000
  {
    [Le(p.titleId, 8), Le(p.version, 4), [p.metaType], [p.platform], Le(|p.ext|, 2), Le(|p.infos|, 2), Le(|p.metas|, 2), p.attributes]
  }

  function InfoFields(info: ContentInfo): seq<bytes> {
    [info.hash, info.contentId, Le(info.size, 5), [info.attributes], [info.contentType], [info.idOffset]]
  }

  function Infos(infos: seq<ContentInfo>): seq<bytes> {
    seq(|infos|, i requires 0 <= i < |infos| => Joined(InfoFields(infos[i])))
  }

  ghost function Encode(p: Package): bytes
    requires Writable(p)
  {
    Joined(HeaderFields(p)) + p.ext + Joined(Infos(p.infos)) + Joined(p.metas) + p.tail
  }

  // ----- where the fields are -----

  lemma InfoLength(info: ContentInfo)
    requires Fits(info)
    ensures |Joined(InfoFields(info))| == 0x38
  {
    hide Joined;
    var f := InfoFields(info);
    FieldsLength(f);
    InfoOffsets(f, info);
  }

  lemma InfoOffsets(f: seq<bytes>, info: ContentInfo)
    requires f == InfoFields(info) && Fits(info)
    ensures FieldOff(f, 0) == 0 && FieldOff(f, 1) == 0x20 && FieldOff(f, 2) == 0x30 && FieldOff(f, 3) == 0x35 && FieldOff(f, 4) == 0x36
            && FieldOff(f, 5) == 0x37 && FieldOff(f, 6) == 0x38
  {
    hide Le;
  }

  lemma HeaderOffsets(f: seq<bytes>, p: Package)
    requires |p.ext| < 0x1_0000 && |p.infos| < 0x1_0000 && |p.metas| < 0x1_0000 && |p.attributes| == 12 && f == HeaderFields(p)
    ensures |f| == 8
    ensures FieldOff(f, 0) == 0 && FieldOff(f, 1) == 8 && FieldOff(f, 2) == 0x0C && FieldOff(f, 3) == 0x0D && FieldOff(f, 4) == 0x0E
            && FieldOff(f, 5) == 0x10 && FieldOff(f, 6) == 0x12 && FieldOff(f, 7) == 0x14 && FieldOff(f, 8) == 0x20
  {
    hide Le;
    assert FieldOff(f, 1) == 8;
    assert FieldOff(f, 2) == 0x0C;
    assert FieldOff(f, 3) == 0x0D;
    assert FieldOff(f, 4) == 0x0E;
    assert FieldOff(f, 5) == 0x10;
    assert FieldOff(f, 6) == 0x12;
    assert FieldOff(f, 7) == 0x14;
  }

  /** Field `i` of the header lies at its offset in the whole. */
  lemma HeaderField(p: Package, i: nat)
    requires Writable(p) && i < |HeaderFields(p)|
    ensures var f := HeaderFields(p);
            FieldOff(f, i) + |f[i]| <= 0x20 <= |Encode(p)| && Encode(p)[FieldOff(f, i)..FieldOff(f, i) + |f[i]|] == f[i]
  {
    hide HeaderFields, Joined, FieldOff, Infos;
    var f := HeaderFields(p);
    FieldAt(f, i);
    FieldsLength(f);
    HeaderOffsets(f, p);
    var front, rest := Joined(f), p.ext + Joined(Infos(p.infos)) + Joined(p.metas) + p.tail;
    assert Encode(p) == front + rest;
    SliceBefore(front, rest, FieldOff(f, i), FieldOff(f, i) + |f[i]|);
  }

  lemma LengthOf(p: Package)
    requires Writable(p)
    ensures |Joined(HeaderFields(p))| == 0x20 && |Joined(Infos(p.infos))| == 0x38 * |p.infos| && |Joined(p.metas)| == 0x10 * |p.metas|
    ensures |Encode(p)| == 0x20 + |p.ext| + 0x38 * |p.infos| + 0x10 * |p.metas| + |p.tail|
  {
    hide HeaderFields, Joined, InfoFields;
    FieldsLength(HeaderFields(p));
    HeaderOffsets(HeaderFields(p), p);
    var pieces := Infos(p.infos);
    forall k | 0 <= k < |pieces|
      ensures |pieces[k]| == 0x38
    {
      InfoLength(p.infos[k]);
    }
    FieldsLength(pieces);
    EqualPieces(pieces, 0x38, |pieces|);
    FieldsLength(p.metas);
    EqualPieces(p.metas, 0x10, |p.metas|);
  }

  /** Content info `i` lies 0x38 bytes behind the one before it, the first behind the extended header. */
  lemma InfoLies(p: Package, i: nat)
    requires Writable(p) && i < |p.infos|
    ensures var at := 0x20 + |p.ext| + 0x38 * i;
            at + 0x38 <= |Encode(p)| && Encode(p)[at..at + 0x38] == Joined(InfoFields(p.infos[i]))
  {
    hide HeaderFields, Joined, InfoFields;
    LengthOf(p);
    var pieces := Infos(p.infos);
    forall k | 0 <= k < |pieces|
      ensures |pieces[k]| == 0x38
    {
      InfoLength(p.infos[k]);
    }
    EqualPieces(pieces, 0x38, i);
    FieldAt(pieces, i);
    var front, all, rest := Joined(HeaderFields(p)) + p.ext, Joined(pieces), Joined(p.metas) + p.tail;
    assert Encode(p) == front + (all + rest);
    SliceBehind(front, all + rest, 0x38 * i, 0x38);
    SliceBefore(all, rest, 0x38 * i, 0x38 * i + 0x38);
  }

  lemma InfoField(p: Package, i: nat, k: nat)
    requires Writable(p) && i < |p.infos| && k < 6
    ensures var f := InfoFields(p.infos[i]);
            var at := 0x20 + |p.ext| + 0x38 * i + FieldOff(f, k);
            at + |f[k]| <= |Encode(p)| && Encode(p)[at..at + |f[k]|] == f[k]
  {
    hide Joined, FieldOff, Encode;
    InfoLies(p, i);
    var f := InfoFields(p.infos[i]);
    InfoOffsets(f, p.infos[i]);
    FieldAt(f, k);
    var at := 0x20 + |p.ext| + 0x38 * i;
    SliceOfSlice(Encode(p), at, at + 0x38, FieldOff(f, k), FieldOff(f, k) + |f[k]|);
  }

  lemma InfoFits(p: Package, i: nat)
    requires Writable(p) && i < |p.infos|
    ensures Fits(p.infos[i])
  {
  }

  // ----- reading back what was written -----

  lemma HeaderInverts(p: Package)
    requires Writable(p)
    ensures var b := Encode(p);
            && |b| >= 0x20 && RdU64(b, 0) == p.titleId && RdU32(b, 8) == p.version && b[0x0C] == p.metaType
            && RdU16(b, 0x0E) == |p.ext| && RdU16(b, 0x10) == |p.infos| && RdU16(b, 0x12) == |p.metas|
  {
    hide Encode, Joined, Le, RdLe, FieldOff;
    var b, f := Encode(p), HeaderFields(p);
    HeaderOffsets(f, p);
    LengthOf(p);
    Pow256Widths();
    HeaderField(p, 0);
    LeAt(b, 0, p.titleId, 8);
    HeaderField(p, 1);
    LeAt(b, 8, p.version, 4);
    HeaderField(p, 2);
    ByteAt(b, 0x0C, p.metaType);
    HeaderField(p, 4);
    LeAt(b, 0x0E, |p.ext|, 2);
    HeaderField(p, 5);
    LeAt(b, 0x10, |p.infos|, 2);
    HeaderField(p, 6);
    LeAt(b, 0x12, |p.metas|, 2);
  }

  lemma ExtLies(p: Package)
    requires Writable(p)
    ensures 0x20 + |p.ext| <= |Encode(p)| && Encode(p)[0x20..0x20 + |p.ext|] == p.ext
  {
    hide HeaderFields, Joined;
    LengthOf(p);
    var front, rest := Joined(HeaderFields(p)), Joined(Infos(p.infos)) + Joined(p.metas) + p.tail;
    assert Encode(p) == front + (p.ext + rest);
    SliceBehind(front, p.ext + rest, 0, |p.ext|);
    SliceBefore(p.ext, rest, 0, |p.ext|);
  }

  /** Parsing what was written gives back every field that is looked at. */
  lemma ParseInvertsEncode(p: Package)
    requires Writable(p)
    ensures var r := Parse(Encode(p));
            && r.Ok? && r.value.titleId == p.titleId && r.value.version == p.version && r.value.metaType == p.metaType
            && r.value.contentCount == |p.infos| && r.value.extHeaderSize == |p.ext| && ExtHeader(r.value) == p.ext
            && forall i :: 0 <= i < |p.infos| ==> GetContentInfo(r.value, i) == Ok(p.infos[i])
  {
    hide Encode, RdU64, RdU32, RdU16, HeaderFields, Joined;
    HeaderInverts(p);
    LengthOf(p);
    ExtLies(p);
    var m := Parse(Encode(p)).value;
    forall i | 0 <= i < |p.infos|
      ensures GetContentInfo(m, i) == Ok(p.infos[i])
    {
      InfoInverts(p, m, i);
    }
  }

  lemma InfoInverts(p: Package, m: Manifest, i: nat)
    requires Writable(p) && ValidManifest(m) && m.data == Encode(p) && m.extHeaderSize == |p.ext| && m.contentCount == |p.infos| && i < |p.infos|
    ensures GetContentInfo(m, i) == Ok(p.infos[i])
  {
    hide Encode, Joined, Le, RdLe, FieldOff;
    var b, f, info, at := Encode(p), InfoFields(p.infos[i]), p.infos[i], 0x20 + |p.ext| + 0x38 * i;
    assert InfoOff(m, i) == at;
    InfoFits(p, i);
    InfoOffsets(f, info);
    Pow256Widths();
    InfoField(p, i, 0);
    InfoField(p, i, 1);
    InfoField(p, i, 2);
    LeAt(b, at + 0x30, info.size, 5);
    InfoField(p, i, 3);
    ByteAt(b, at + 0x35, info.attributes);
    InfoField(p, i, 4);
    ByteAt(b, at + 0x36, info.contentType);
    InfoField(p, i, 5);
    ByteAt(b, at + 0x37, info.idOffset);
  }

  // ----- nothing else is accepted -----

  /** What an accepted manifest says. */
  ghost function PackageOf(data: bytes): Package
    requires Parse(data).Ok?
  {
    var n, ext := RdU16(data, 0x10), RdU16(data, 0x0E);
    var at := 0x20 + ext;
    var behind := at + 0x38 * n;
    var count := RdU16(data, 0x12);
    Package(RdU64(data, 0), RdU32(data, 8), data[0x0C], data[0x0D], data[0x20..at],
            seq(n, i requires 0 <= i < n => InfoAt(data, at + 0x38 * i)),
            seq(count, i requires 0 <= i < count => data[behind + 0x10 * i..behind + 0x10 * i + 0x10]),
            data[0x14..0x20], data[behind + 0x10 * count..])
  }

  function InfoAt(data: bytes, at: nat): ContentInfo
    requires at + 0x38 <= |data|
  {
    ContentInfo(data[at..at + 0x20], data[at + 0x20..at + 0x30], RdU40(data, at + 0x30), data[at + 0x35], data[at + 0x36], data[at + 0x37])
  }

  lemma InfoRestored(data: bytes, at: nat)
    requires at + 0x38 <= |data|
    ensures Fits(InfoAt(data, at)) && Joined(InfoFields(InfoAt(data, at))) == data[at..at + 0x38]
  {
    hide Joined, Le, RdLe, FieldOff;
    var info := InfoAt(data, at);
    var f := InfoFields(info);
    Pow256Widths();
    LeOfRead(data, at + 0x30, 5);
    InfoOffsets(f, info);
    assert f[..6] == f;
    forall i | 0 <= i < 6
      ensures FieldLies(data, at, f, i)
    {
    }
    FieldsAreSlice(data, at, f, 6);
  }

  lemma HeaderRestored(data: bytes, p: Package)
    requires Parse(data).Ok? && p == PackageOf(data)
    ensures |p.ext| < 0x1_0000 && |p.infos| < 0x1_0000 && |p.metas| < 0x1_0000 && Joined(HeaderFields(p)) == data[..0x20]
  {
    hide Joined, Le, RdLe, FieldOff, InfoAt;
    var f := HeaderFields(p);
    Pow256Widths();
    LeOfRead(data, 0, 8);
    LeOfRead(data, 8, 4);
    LeOfRead(data, 0x0E, 2);
    LeOfRead(data, 0x10, 2);
    LeOfRead(data, 0x12, 2);
    HeaderOffsets(f, p);
    assert f[..8] == f;
    forall i | 0 <= i < 8
      ensures FieldLies(data, 0, f, i)
    {
    }
    FieldsAreSlice(data, 0, f, 8);
  }

  lemma InfosRestored(data: bytes, p: Package)
    requires Parse(data).Ok? && p == PackageOf(data)
    ensures (forall i :: 0 <= i < |p.infos| ==> Fits(p.infos[i])) && (forall i :: 0 <= i < |p.metas| ==> |p.metas[i]| == 16)
    ensures var at := 0x20 + |p.ext|;
            && at + 0x38 * |p.infos| + 0x10 * |p.metas| <= |data|
            && Joined(Infos(p.infos)) == data[at..at + 0x38 * |p.infos|]
            && Joined(p.metas) == data[at + 0x38 * |p.infos|..at + 0x38 * |p.infos| + 0x10 * |p.metas|]
  {
    hide Joined, RdLe, InfoFields, InfoAt, Fits;
    var at := 0x20 + |p.ext|;
    forall i | 0 <= i < |p.infos|
      ensures Fits(p.infos[i]) && SliceIs(data, at, Infos(p.infos)[i], 0x38, i)
    {
      InfoRestored(data, at + 0x38 * i);
    }
    SlicesJoined(data, at, Infos(p.infos), 0x38, |p.infos|);
    assert Infos(p.infos)[..|p.infos|] == Infos(p.infos) && p.metas[..|p.metas|] == p.metas;
    var behind := at + 0x38 * |p.infos|;
    forall i | 0 <= i < |p.metas|
      ensures SliceIs(data, behind, p.metas[i], 0x10, i)
    {
    }
    SlicesJoined(data, behind, p.metas, 0x10, |p.metas|);
  }

  lemma Restored(data: bytes)
    requires Parse(data).Ok?
    ensures Writable(PackageOf(data)) && Encode(PackageOf(data)) == data
  {
    hide Joined, RdU16, RdU32, RdU64, InfoAt, Fits, HeaderFields, Infos, Parse;
    var p := PackageOf(data);
    CountsFit(data);
    HeaderRestored(data, p);
    InfosRestored(data, p);
    var i := 0x20 + |p.ext|;
    var j := i + 0x38 * |p.infos|;
    var k := j + 0x10 * |p.metas|;
    assert p.ext == data[0x20..i] && p.tail == data[k..];
    FiveParts(data, 0x20, i, j, k);
    assert Encode(p) == data[..0x20] + data[0x20..i] + data[i..j] + data[j..k] + data[k..];
  }

  /** A manifest is accepted exactly when it is written so. */
  lemma AcceptedIsWritten(data: bytes)
    ensures Parse(data).Ok? <==> exists p :: Writable(p) && Encode(p) == data
    ensures Parse(data).Ok? ==> Writable(PackageOf(data)) && Encode(PackageOf(data)) == data
  {
    hide Parse, PackageOf, Encode;
    if Parse(data).Ok? {
      Restored(data);
    }
    forall p | Writable(p) && Encode(p) == data
      ensures Parse(data).Ok?
    {
      ParseInvertsEncode(p);
    }
  }

  lemma FiveParts(data: bytes, h: nat, i: nat, j: nat, k: nat)
    requires h <= i <= j <= k <= |data|
    ensures data[..h] + data[h..i] + data[i..j] + data[j..k] + data[k..] == data
  {
  }

  lemma CountsFit(data: bytes)
    requires Parse(data).Ok?
    ensures |data| >= 0x20 && RdU16(data, 0x10) <= 0x1000
    ensures 0x20 + RdU16(data, 0x0E) + 0x38 * RdU16(data, 0x10) + 0x10 * RdU16(data, 0x12) <= |data|
  {
  }
}
