/** Fixed-size structures of a table file: block handles, the file header and the
    footer, all little-endian. */
module SstFormat {
  import opened Bytes

  const SSTABLE_MAGIC: nat := 0x5356_4B50
  const FOOTER_MAGIC: nat := 0x4654_5253_5356_4B50
  const FORMAT_VERSION: nat := 1
  const FILE_HEADER_SIZE: nat := 64
  const HEADER_REGION: nat := 4096
  const FOOTER_SIZE: nat := 64
  const BLOCK_ALIGNMENT: nat := 4096
  const HANDLE_SIZE: nat := 16
  const DEFAULT_BLOCK_SIZE: nat := 16384
  const CHECKSUMMED: nat := 1
  const ENCRYPTED: nat := 2

  // ----- handles -----

  datatype Handle = Handle(offset: nat, length: nat, checksum: nat)

  predicate HandleFits(h: Handle) {
    h.offset < U64_LIMIT && h.length < U32_LIMIT && h.checksum < U32_LIMIT
  }

  function EncodeHandle(h: Handle): (s: seq<byte>)
    ensures |s| == HANDLE_SIZE
  {
    ToLe(h.offset, 8) + (ToLe(h.length, 4) + ToLe(h.checksum, 4))
  }

  function DecodeHandle(bytes: seq<byte>): Result<Handle> {
    if |bytes| < HANDLE_SIZE then Err(InvalidFormat)
    else Ok(Handle(FromLe(bytes[0..8]), FromLe(bytes[8..12]), FromLe(bytes[12..16])))
  }

  lemma HandleRoundTrip(h: Handle, rest: seq<byte>)
    requires HandleFits(h)
    ensures DecodeHandle(EncodeHandle(h) + rest) == Ok(h)
  {
    hide ToLe, FromLe;
    var bytes := EncodeHandle(h) + rest;
    assert bytes[0..8] == ToLe(h.offset, 8);
    assert bytes[8..12] == ToLe(h.length, 4);
    assert bytes[12..16] == ToLe(h.checksum, 4);
    Pow256Values();
    LeRoundTrip(h.offset, 8);
    LeRoundTrip(h.length, 4);
    LeRoundTrip(h.checksum, 4);
  }

  // ----- file header -----

  datatype FileHeader = FileHeader(
    flags: nat, compression: byte, checksumAlg: byte,
    numEntries: nat, numBlocks: nat, minSeqno: nat, maxSeqno: nat, dataEnd: nat)

  predicate HeaderFits(h: FileHeader) {
    && h.flags < U32_LIMIT && h.numEntries < U64_LIMIT && h.numBlocks < U64_LIMIT
    && h.minSeqno < U64_LIMIT && h.maxSeqno < U64_LIMIT && h.dataEnd < U64_LIMIT
  }

  function HeaderTags(h: FileHeader): (s: seq<byte>)
    ensures |s| == 16
  {
    ToLe(SSTABLE_MAGIC, 4) + ToLe(FORMAT_VERSION, 4) + ToLe(h.flags, 4) + [h.compression, h.checksumAlg, 0, 0]
  }

  function HeaderCounts(h: FileHeader): (s: seq<byte>)
    ensures |s| == 40
  {
    ToLe(h.numEntries, 8) + ToLe(h.numBlocks, 8) + ToLe(h.minSeqno, 8) + ToLe(h.maxSeqno, 8) + ToLe(h.dataEnd, 8)
  }

  function EncodeHeader(crc: Checksum, h: FileHeader): (s: seq<byte>)
    ensures |s| == FILE_HEADER_SIZE
  {
    var signed := HeaderTags(h) + HeaderCounts(h);
    signed + (ToLe(crc(signed), 4) + ToLe(0, 4))
  }

  function DecodeHeader(crc: Checksum, s: seq<byte>): Result<FileHeader>
    requires |s| == FILE_HEADER_SIZE
  {
    if || FromLe(s[0..4]) != SSTABLE_MAGIC || FromLe(s[4..8]) != FORMAT_VERSION
       || s[14] != 0 || s[15] != 0 || FromLe(s[60..64]) != 0
       || FromLe(s[56..60]) != crc(s[..56]) then Err(Corruption)
    else
      Ok(FileHeader(FromLe(s[8..12]), s[12], s[13], FromLe(s[16..24]), FromLe(s[24..32]),
                    FromLe(s[32..40]), FromLe(s[40..48]), FromLe(s[48..56])))
  }

  lemma HeaderParts(crc: Checksum, h: FileHeader)
    ensures var s := EncodeHeader(crc, h);
      var signed := HeaderTags(h) + HeaderCounts(h);
      && s[..16] == HeaderTags(h) && s[16..56] == HeaderCounts(h) && s[..56] == signed
      && s[56..60] == ToLe(crc(signed), 4) && s[60..64] == ToLe(0, 4)
  {
    hide ToLe, HeaderTags, HeaderCounts;
  }

  lemma TagParts(h: FileHeader)
    ensures var t := HeaderTags(h);
      && t[0..4] == ToLe(SSTABLE_MAGIC, 4) && t[4..8] == ToLe(FORMAT_VERSION, 4) && t[8..12] == ToLe(h.flags, 4)
      && t[12] == h.compression && t[13] == h.checksumAlg && t[14] == 0 && t[15] == 0
  {
    hide ToLe;
  }

  lemma CountParts(h: FileHeader)
    ensures var c := HeaderCounts(h);
      && c[0..8] == ToLe(h.numEntries, 8) && c[8..16] == ToLe(h.numBlocks, 8) && c[16..24] == ToLe(h.minSeqno, 8)
      && c[24..32] == ToLe(h.maxSeqno, 8) && c[32..40] == ToLe(h.dataEnd, 8)
  {
    hide ToLe;
  }

  lemma TagSlices(s: seq<byte>)
    requires |s| == FILE_HEADER_SIZE
    ensures var t := s[..16];
      && s[0..4] == t[0..4] && s[4..8] == t[4..8] && s[8..12] == t[8..12]
      && s[12] == t[12] && s[13] == t[13] && s[14] == t[14] && s[15] == t[15]
  {
    SliceOfSlice(s, 0, 16, 0, 4);
    SliceOfSlice(s, 0, 16, 4, 8);
    SliceOfSlice(s, 0, 16, 8, 12);
  }

  lemma SliceOfSlice(s: seq<byte>, a: nat, b: nat, i: nat, j: nat)
    requires a <= b <= |s| && i <= j <= b - a
    ensures s[a..b][i..j] == s[a + i..a + j]
  {
    var x, y := s[a..b][i..j], s[a + i..a + j];
    assert |x| == |y|;
    forall k | 0 <= k < |x| ensures x[k] == y[k] {
      assert x[k] == s[a..b][i + k] == s[a + i + k];
    }
  }

  lemma CountSlices(s: seq<byte>)
    requires |s| == FILE_HEADER_SIZE
    ensures var c := s[16..56];
      && s[16..24] == c[0..8] && s[24..32] == c[8..16] && s[32..40] == c[16..24]
      && s[40..48] == c[24..32] && s[48..56] == c[32..40]
  {
    SliceOfSlice(s, 16, 56, 0, 8);
    SliceOfSlice(s, 16, 56, 8, 16);
    SliceOfSlice(s, 16, 56, 16, 24);
    SliceOfSlice(s, 16, 56, 24, 32);
    SliceOfSlice(s, 16, 56, 32, 40);
  }

  lemma HeaderRoundTrip(crc: Checksum, h: FileHeader)
    requires HeaderFits(h)
    ensures DecodeHeader(crc, EncodeHeader(crc, h)) == Ok(h)
  {
    hide ToLe, FromLe, HeaderTags, HeaderCounts, EncodeHeader;
    var s := EncodeHeader(crc, h);
    HeaderParts(crc, h);
    TagSlices(s);
    CountSlices(s);
    TagParts(h);
    CountParts(h);
    Pow256Values();
    LeRoundTrip(SSTABLE_MAGIC, 4);
    LeRoundTrip(FORMAT_VERSION, 4);
    LeRoundTrip(h.flags, 4);
    LeRoundTrip(h.numEntries, 8);
    LeRoundTrip(h.numBlocks, 8);
    LeRoundTrip(h.minSeqno, 8);
    LeRoundTrip(h.maxSeqno, 8);
    LeRoundTrip(h.dataEnd, 8);
    LeRoundTrip(crc(s[..56]), 4);
    LeRoundTrip(0, 4);
  }

  // ----- footer -----

  datatype Footer = Footer(index: Handle, filter: Handle, meta: Handle)

  predicate FooterFits(f: Footer) {
    HandleFits(f.index) && HandleFits(f.filter) && HandleFits(f.meta)
  }

  function FooterHandles(f: Footer): (s: seq<byte>)
    ensures |s| == 48
  {
    EncodeHandle(f.index) + (EncodeHandle(f.filter) + EncodeHandle(f.meta))
  }

  function EncodeFooter(crc: Checksum, f: Footer): (s: seq<byte>)
    ensures |s| == FOOTER_SIZE
  {
    var signed := FooterHandles(f) + (ToLe(FOOTER_MAGIC, 8) + ToLe(FORMAT_VERSION, 4));
    signed + ToLe(crc(signed), 4)
  }

  function DecodeFooter(crc: Checksum, s: seq<byte>): Result<Footer>
    requires |s| == FOOTER_SIZE
  {
    if FromLe(s[48..56]) != FOOTER_MAGIC || FromLe(s[56..60]) != FORMAT_VERSION || FromLe(s[60..64]) != crc(s[..60]) then Err(Corruption)
    else
      match (DecodeHandle(s[0..]), DecodeHandle(s[16..]), DecodeHandle(s[32..]))
      case (Ok(index), Ok(filter), Ok(meta)) => Ok(Footer(index, filter, meta))
      case _ => Err(InvalidFormat)
  }

  lemma FooterParts(crc: Checksum, f: Footer)
    ensures var s := EncodeFooter(crc, f);
      && s[0..] == EncodeHandle(f.index) + s[16..] && s[16..] == EncodeHandle(f.filter) + s[32..]
      && s[32..] == EncodeHandle(f.meta) + s[48..]
  {
    hide ToLe, EncodeHandle;
  }

  lemma FooterTail(crc: Checksum, f: Footer)
    ensures var s := EncodeFooter(crc, f);
      && s[48..56] == ToLe(FOOTER_MAGIC, 8) && s[56..60] == ToLe(FORMAT_VERSION, 4) && s[60..64] == ToLe(crc(s[..60]), 4)
  {
    hide ToLe, FooterHandles;
    var signed := FooterHandles(f) + (ToLe(FOOTER_MAGIC, 8) + ToLe(FORMAT_VERSION, 4));
    assert EncodeFooter(crc, f)[..60] == signed;
  }

  lemma FooterRoundTrip(crc: Checksum, f: Footer)
    requires FooterFits(f)
    ensures DecodeFooter(crc, EncodeFooter(crc, f)) == Ok(f)
  {
    hide ToLe, FromLe, EncodeHandle, DecodeHandle, EncodeFooter, HandleFits;
    var s := EncodeFooter(crc, f);
    FooterParts(crc, f);
    FooterTail(crc, f);
    Pow256Values();
    LeRoundTrip(FOOTER_MAGIC, 8);
    LeRoundTrip(FORMAT_VERSION, 4);
    LeRoundTrip(crc(s[..60]), 4);
    HandleRoundTrip(f.index, s[16..]);
    HandleRoundTrip(f.filter, s[32..]);
    HandleRoundTrip(f.meta, s[48..]);
  }
}
