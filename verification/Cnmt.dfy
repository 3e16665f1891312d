/** The packaged content meta: the manifest naming the contents of a title. */
module Cnmt {
  import opened Bytes
  import opened PartitionFs

  const CNMT_HEADER_SIZE: nat := 0x20
  const CONTENT_INFO_SIZE: nat := 0x38
  const META_INFO_SIZE: nat := 0x10
  const CNMT_MAX_CONTENTS: nat := 0x1000

  const TYPE_META: u8 := 0
  const TYPE_DELTA_FRAGMENT: u8 := 6

  datatype Manifest = Manifest(data: bytes, titleId: u64, version: u32, metaType: u8, extHeaderSize: u16, contentCount: u16)

  datatype ContentInfo = ContentInfo(hash: bytes, contentId: bytes, size: u64, attributes: u8, contentType: u8, idOffset: u8)

  /** Where content info `i` starts. */
  function InfoOff(m: Manifest, i: nat): nat {
    CNMT_HEADER_SIZE + m.extHeaderSize + i * CONTENT_INFO_SIZE
  }

  ghost predicate ValidManifest(m: Manifest) {
    m.contentCount <= CNMT_MAX_CONTENTS && InfoOff(m, m.contentCount) <= |m.data|
  }

  function Parse(data: bytes): (r: Result<Manifest, FmtError>)
    ensures r.Ok? ==> ValidManifest(r.value)
  {
    if |data| < CNMT_HEADER_SIZE then Err(Truncated)
    else
      var m := Manifest(data, RdU64(data, 0x00), RdU32(data, 0x08), data[0x0C], RdU16(data, 0x0E), RdU16(data, 0x10));
      var metaCount := RdU16(data, 0x12);
      if m.contentCount > CNMT_MAX_CONTENTS then Err(TooLarge)
      else if |data| < InfoOff(m, m.contentCount) + metaCount * META_INFO_SIZE then Err(Truncated)
      else Ok(m)
  }

  function GetContentInfo(m: Manifest, i: nat): (r: Result<ContentInfo, FmtError>)
    requires ValidManifest(m)
    ensures r.Ok? <==> i < m.contentCount
  {
    if i >= m.contentCount then Err(OutOfRange)
    else
      var at := InfoOff(m, i);
      Ok(ContentInfo(m.data[at..at + 0x20], m.data[at + 0x20..at + 0x30], RdU40(m.data, at + 0x30),
                     m.data[at + 0x35], m.data[at + 0x36], m.data[at + 0x37]))
  }

  /** The type-specific extended header, carried through verbatim. */
  function ExtHeader(m: Manifest): bytes
    requires ValidManifest(m)
  {
    m.data[CNMT_HEADER_SIZE..CNMT_HEADER_SIZE + m.extHeaderSize]
  }
}
