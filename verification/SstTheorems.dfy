/** From bytes back to records: a finished table opens, scans to exactly what was
    added, and answers point lookups as its record list does. */
module SstTheorems {
  import opened Bytes
  import opened Records
  import opened Block
  import opened BlockTheorems
  import opened SstFormat
  import opened SstWriter
  import opened SstReader
  import Bloom

  const TAG_LEN: nat := 16

  /** Opening what was sealed for this table and offset gives the bytes back, and
      sealing adds a tag. */
  ghost predicate Lawful(c: Crypto) {
    c.Sealed? ==> forall off: nat, plain: seq<byte> ::
      c.unseal(c.id, off, c.seal(c.id, off, plain)) == Some(plain) && |c.seal(c.id, off, plain)| == |plain| + TAG_LEN
  }

  function BlockPlain(cfg: Config, blocks: seq<seq<Rec>>, i: nat): (s: seq<byte>)
    requires i < |blocks|
    ensures |s| >= TRAILER
  {
    BlockBytes(cfg.crc, blocks[i])
  }

  function BlockDisk(cfg: Config, blocks: seq<seq<Rec>>, i: nat): seq<byte>
    requires i < |blocks|
  {
    OnDisk(cfg, BlockOffset(cfg, blocks, i), BlockPlain(cfg, blocks, i))
  }

  /** Every length, count and offset fits the field that stores it. */
  predicate BlocksFit(cfg: Config, blocks: seq<seq<Rec>>) {
    forall i :: 0 <= i < |blocks| ==>
      BlockFits(blocks[i]) && |BlockDisk(cfg, blocks, i)| < U32_LIMIT && BlockOffset(cfg, blocks, i) < U64_LIMIT
  }

  predicate TableFits(cfg: Config, filter: Option<Bloom.Filter>, rs: seq<Rec>)
    requires FilterOk(filter)
  {
    var blocks := Blocks(cfg.blockSize, rs);
    && AllFit(rs) && |rs| < U64_LIMIT && |blocks| < U64_LIMIT
    && BlocksFit(cfg, blocks)
    && BlockFits(Index(cfg, blocks))
    && |FilterBytes(FilterOf(cfg, filter, rs))| < U32_LIMIT
    && |TableBytes(cfg, filter, rs)| < U64_LIMIT
  }

  /** What opening a finished table yields. */
  function ReaderOf(cfg: Config, filter: Option<Bloom.Filter>, rs: seq<Rec>): Reader
    requires FilterOk(filter)
  {
    var blocks := Blocks(cfg.blockSize, rs);
    var f := FilterOf(cfg, filter, rs);
    Reader(HeaderOf(cfg, blocks, rs), FooterOf(cfg, blocks, FilterBytes(f)), BlockBytes(cfg.crc, Index(cfg, blocks)), f,
           TableBytes(cfg, filter, rs))
  }

  // ----- where things are -----

  lemma ReadMiddle(a: seq<byte>, b: seq<byte>, c: seq<byte>)
    ensures ReadAt(a + (b + c), |a|, |b|) == Ok(b)
  {
    Assoc(a, b, c);
    SliceMiddle(a, b, c);
  }

  lemma RegionSplit(cfg: Config, blocks: seq<seq<Rec>>)
    requires blocks != []
    ensures var front := blocks[..|blocks| - 1];
      Region(cfg, blocks) == Region(cfg, front) + Padded(cfg, BlockOffset(cfg, blocks, |front|), BlockPlain(cfg, blocks, |front|))
  {
    hide Padded, BlockBytes;
  }

  lemma PaddedIsAligned(cfg: Config, off: nat, plain: seq<byte>)
    ensures (off + |Padded(cfg, off, plain)|) % BLOCK_ALIGNMENT == 0
  {
    hide OnDisk, Pad;
    var d := OnDisk(cfg, off, plain);
    assert off + |Padded(cfg, off, plain)| == (off + |d|) + Pad(off + |d|);
  }

  /** The data region ends on a page boundary, whatever is in it. */
  lemma RegionIsAligned(cfg: Config, blocks: seq<seq<Rec>>)
    ensures (HEADER_REGION + |Region(cfg, blocks)|) % BLOCK_ALIGNMENT == 0
  {
    if blocks == [] {
      assert Region(cfg, []) == [];
    } else {
      hide Region, Padded, BlockPlain;
      RegionSplit(cfg, blocks);
      PaddedIsAligned(cfg, BlockOffset(cfg, blocks, |blocks| - 1), BlockPlain(cfg, blocks, |blocks| - 1));
    }
  }

  lemma PrefixSlice(a: seq<byte>, b: seq<byte>, i: nat, j: nat)
    requires i <= j <= |a|
    ensures (a + b)[i..j] == a[i..j]
  {
  }

  /** Block `i` is where its handle says. */
  lemma {:induction false} RegionAt(cfg: Config, blocks: seq<seq<Rec>>, i: nat)
    requires i < |blocks|
    ensures var at, d := |Region(cfg, blocks[..i])|, BlockDisk(cfg, blocks, i);
      at + |d| <= |Region(cfg, blocks)| && Region(cfg, blocks)[at..at + |d|] == d
  {
    hide Region, BlockBytes, OnDisk, Pad;
    var front := blocks[..|blocks| - 1];
    var at, d := |Region(cfg, blocks[..i])|, BlockDisk(cfg, blocks, i);
    RegionSplit(cfg, blocks);
    var more := Padded(cfg, BlockOffset(cfg, blocks, |front|), BlockPlain(cfg, blocks, |front|));
    if i < |front| {
      assert front[..i] == blocks[..i];
      RegionAt(cfg, front, i);
      PrefixSlice(Region(cfg, front), more, at, at + |d|);
    } else {
      ReadMiddle(Region(cfg, front), d, Zeros(Pad(HEADER_REGION + at + |d|)));
    }
  }

  lemma OffsetStep(cfg: Config, blocks: seq<seq<Rec>>, i: nat)
    requires i < |blocks|
    ensures BlockOffset(cfg, blocks, i) + |BlockDisk(cfg, blocks, i)| <= BlockOffset(cfg, blocks, i + 1)
  {
    hide BlockBytes, OnDisk, Pad;
    assert blocks[..i + 1] == blocks[..i] + [blocks[i]];
    RegionAppend(cfg, blocks[..i], blocks[i]);
  }

  lemma {:induction false} OffsetsAscend(cfg: Config, blocks: seq<seq<Rec>>, i: nat, j: nat)
    requires i <= j <= |blocks|
    ensures BlockOffset(cfg, blocks, i) <= BlockOffset(cfg, blocks, j)
    decreases j
  {
    hide *;
    if i < j {
      OffsetsAscend(cfg, blocks, i, j - 1);
      OffsetStep(cfg, blocks, j - 1);
    }
  }

  /** Every data block starts on a page boundary after the header region and ends
      before the data end the header records. No two of them overlap. */
  lemma BlocksAreApart(cfg: Config, blocks: seq<seq<Rec>>, i: nat, j: nat)
    requires i < |blocks| && j < |blocks|
    ensures BlockOffset(cfg, blocks, i) % 4096 == 0 && 4096 <= BlockOffset(cfg, blocks, i)
    ensures BlockOffset(cfg, blocks, i) + |BlockDisk(cfg, blocks, i)| <= BlockOffset(cfg, blocks, |blocks|)
    ensures i < j ==> BlockOffset(cfg, blocks, i) + |BlockDisk(cfg, blocks, i)| <= BlockOffset(cfg, blocks, j)
  {
    hide Region, BlockDisk;
    RegionIsAligned(cfg, blocks[..i]);
    OffsetStep(cfg, blocks, i);
    OffsetsAscend(cfg, blocks, i + 1, |blocks|);
    if i < j {
      OffsetsAscend(cfg, blocks, i + 1, j);
    }
  }

  lemma DiskIsNotEmpty(cfg: Config, blocks: seq<seq<Rec>>, i: nat)
    requires Lawful(cfg.crypto) && i < |blocks|
    ensures |BlockDisk(cfg, blocks, i)| > 0
  {
    hide Region, BlockBytes;
  }

  // ----- opening -----

  lemma FileSlices(h: seq<byte>, z: seq<byte>, r: seq<byte>, f: seq<byte>, i: seq<byte>, t: seq<byte>)
    ensures var file := h + (z + (r + (f + (i + t))));
      && |file| == |h| + |z| + |r| + |f| + |i| + |t|
      && file[..|h|] == h && file[|file| - |t|..] == t
      && ReadAt(file, |h| + |z| + |r|, |f|) == Ok(f)
      && ReadAt(file, |h| + |z| + |r| + |f|, |i|) == Ok(i)
  {
    var file := h + (z + (r + (f + (i + t))));
    assert file == (h + z + r) + (f + (i + t));
    ReadMiddle(h + z + r, f, i + t);
    assert file == (h + z + r + f) + (i + t);
    ReadMiddle(h + z + r + f, i, t);
    assert file == (h + z + r + f + i) + t;
  }

  lemma ReadRegion(h: seq<byte>, z: seq<byte>, r: seq<byte>, rest: seq<byte>, at: nat, d: seq<byte>)
    requires at + |d| <= |r| && r[at..at + |d|] == d
    ensures ReadAt(h + (z + (r + rest)), |h| + |z| + at, |d|) == Ok(d)
  {
    var a, c := r[..at], r[at + |d|..];
    assert r == a + (d + c);
    assert h + (z + (r + rest)) == (h + z + a) + (d + (c + rest));
    ReadMiddle(h + z + a, d, c + rest);
  }

  /** The parts of a finished table, named. */
  datatype Parts = Parts(header: seq<byte>, zeros: seq<byte>, region: seq<byte>, filter: seq<byte>, index: seq<byte>, footer: seq<byte>)

  function PartsOf(cfg: Config, filter: Option<Bloom.Filter>, rs: seq<Rec>): (p: Parts)
    requires FilterOk(filter)
    ensures |p.header| == FILE_HEADER_SIZE && |p.zeros| == HEADER_REGION - FILE_HEADER_SIZE && |p.footer| == FOOTER_SIZE
  {
    var t := ReaderOf(cfg, filter, rs);
    Parts(EncodeHeader(cfg.crc, t.header), Zeros(HEADER_REGION - FILE_HEADER_SIZE), Region(cfg, Blocks(cfg.blockSize, rs)),
          FilterBytes(t.bloom), t.indexBytes, EncodeFooter(cfg.crc, t.footer))
  }

  function Join(p: Parts): seq<byte> {
    p.header + (p.zeros + (p.region + (p.filter + (p.index + p.footer))))
  }

  lemma PartsAre(cfg: Config, filter: Option<Bloom.Filter>, rs: seq<Rec>)
    requires FilterOk(filter)
    ensures var t, p := ReaderOf(cfg, filter, rs), PartsOf(cfg, filter, rs);
      && t.file == Join(p) == TableBytes(cfg, filter, rs) && FilterOk(t.bloom)
      && p.header == EncodeHeader(cfg.crc, t.header) && p.footer == EncodeFooter(cfg.crc, t.footer)
      && p.filter == FilterBytes(t.bloom) && p.index == t.indexBytes
      && p.region == Region(cfg, Blocks(cfg.blockSize, rs))
  {
    hide Region, BlockBytes, EncodeHeader, EncodeFooter, FilterBytes, FilterOf, Index, HeaderOf, FooterOf, Blocks, FilterOk;
  }

  lemma PartsSlices(p: Parts)
    requires |p.header| + |p.zeros| == HEADER_REGION
    ensures var file := Join(p);
      && |file| == HEADER_REGION + |p.region| + |p.filter| + |p.index| + |p.footer|
      && file[..|p.header|] == p.header && file[|file| - |p.footer|..] == p.footer
      && ReadAt(file, HEADER_REGION + |p.region|, |p.filter|) == Ok(p.filter)
      && ReadAt(file, HEADER_REGION + |p.region| + |p.filter|, |p.index|) == Ok(p.index)
  {
    hide ReadAt;
    FileSlices(p.header, p.zeros, p.region, p.filter, p.index, p.footer);
  }

  lemma HandlesPoint(cfg: Config, filter: Option<Bloom.Filter>, rs: seq<Rec>)
    requires FilterOk(filter)
    ensures var f, p := ReaderOf(cfg, filter, rs).footer, PartsOf(cfg, filter, rs);
      && f.filter.offset == HEADER_REGION + |p.region| && f.filter.length == |p.filter|
      && f.index.offset == HEADER_REGION + |p.region| + |p.filter| && f.index.length == |p.index|
      && f.filter.checksum == 0 && f.meta == Handle(f.index.offset, 0, 0) && f.index.checksum < U32_LIMIT
  {
    hide Region, BlockBytes, EncodeHeader, EncodeFooter, FilterBytes, FilterOf, Index, HeaderOf, Blocks, FilterOk, TableBytes, FromLe;
    var blocks := Blocks(cfg.blockSize, rs);
    assert blocks[..|blocks|] == blocks;
    BlockIsLong(cfg.crc, Index(cfg, blocks));
    Pow256Values();
  }

  lemma {:induction false} SeqnoBounds(rs: seq<Rec>)
    requires AllFit(rs)
    ensures LowSeqno(rs) < U64_LIMIT && HighSeqno(rs) < U64_LIMIT
  {
    if rs != [] {
      assert Fits(rs[|rs| - 1]);
      SeqnoBounds(rs[..|rs| - 1]);
    }
  }

  lemma HeaderShape(cfg: Config, filter: Option<Bloom.Filter>, rs: seq<Rec>)
    requires FilterOk(filter)
    ensures var h, p := ReaderOf(cfg, filter, rs).header, PartsOf(cfg, filter, rs);
      && h.flags <= 3 && h.numEntries == |rs| && h.numBlocks == |Blocks(cfg.blockSize, rs)|
      && h.minSeqno <= LowSeqno(rs) && h.maxSeqno == HighSeqno(rs) && h.dataEnd == HEADER_REGION + |p.region|
  {
    hide Region, BlockBytes, EncodeHeader, EncodeFooter, FilterBytes, FilterOf, Index, FooterOf, Blocks, FilterOk, TableBytes, LowSeqno, HighSeqno;
    var blocks := Blocks(cfg.blockSize, rs);
    assert blocks[..|blocks|] == blocks;
  }

  lemma FitsSizes(cfg: Config, filter: Option<Bloom.Filter>, rs: seq<Rec>)
    requires FilterOk(filter) && TableFits(cfg, filter, rs)
    ensures AllFit(rs) && |rs| < U64_LIMIT && |Blocks(cfg.blockSize, rs)| < U64_LIMIT
    ensures var t := ReaderOf(cfg, filter, rs);
      |FilterBytes(t.bloom)| < U32_LIMIT && |t.indexBytes| < U32_LIMIT && |t.file| < U64_LIMIT
    ensures BlocksFit(cfg, Blocks(cfg.blockSize, rs)) && BlockFits(Index(cfg, Blocks(cfg.blockSize, rs)))
  {
    hide BlockBytes, FilterBytes, FilterOf, Index, FooterOf, HeaderOf, Blocks, FilterOk, TableBytes, AllFit, BlocksFit, BlockFits;
    BlockLength(cfg, Blocks(cfg.blockSize, rs));
  }

  lemma TableHeaderFits(cfg: Config, filter: Option<Bloom.Filter>, rs: seq<Rec>)
    requires FilterOk(filter) && TableFits(cfg, filter, rs)
    ensures HeaderFits(ReaderOf(cfg, filter, rs).header) && FooterFits(ReaderOf(cfg, filter, rs).footer)
  {
    hide FilterOk, TableFits, AllFit, LowSeqno, HighSeqno, ReaderOf, PartsOf, Blocks, Join, FilterBytes, ReadAt, TableBytes, BlocksFit, BlockFits, Index, Region;
    FitsSizes(cfg, filter, rs);
    SeqnoBounds(rs);
    HandlesPoint(cfg, filter, rs);
    HeaderShape(cfg, filter, rs);
    PartsAre(cfg, filter, rs);
    PartsSlices(PartsOf(cfg, filter, rs));
  }

  lemma BlockLength(cfg: Config, blocks: seq<seq<Rec>>)
    requires BlockFits(Index(cfg, blocks))
    ensures |BlockBytes(cfg.crc, Index(cfg, blocks))| < U32_LIMIT
  {
    hide Index, EstimatedSize, BlockBytes;
    EstimateIsExact(cfg.crc, Index(cfg, blocks));
  }

  lemma FilterReads(file: seq<byte>, h: Handle, f: Option<Bloom.Filter>)
    requires FilterOk(f) && h.length == |FilterBytes(f)| && ReadAt(file, h.offset, h.length) == Ok(FilterBytes(f))
    ensures ReadFilter(file, h) == Ok(f)
  {
    hide ReadAt, Bloom.Encode, Bloom.Decode, Bloom.WellFormed;
    if f.Some? {
      Bloom.DecodeEncode(f.value);
      Bloom.EncodeSlices(f.value);
    }
  }

  /** A finished table opens, and its header and footer read back as written. */
  lemma OpenWritten(cfg: Config, filter: Option<Bloom.Filter>, rs: seq<Rec>)
    requires FilterOk(filter) && TableFits(cfg, filter, rs)
    ensures OpenTable(cfg, TableBytes(cfg, filter, rs)) == Ok(ReaderOf(cfg, filter, rs))
  {
    hide *;
    var t, p := ReaderOf(cfg, filter, rs), PartsOf(cfg, filter, rs);
    TableHeaderFits(cfg, filter, rs);
    PartsAre(cfg, filter, rs);
    HandlesPoint(cfg, filter, rs);
    PartsSlices(p);
    HeaderRoundTrip(cfg.crc, t.header);
    FooterRoundTrip(cfg.crc, t.footer);
    FilterReads(t.file, t.footer.filter, t.bloom);
    FlagsAgree(cfg, filter, rs);
    OpenUnfold(cfg, t.file, t.header, t.footer);
    LoadUnfold(cfg, t);
  }

  lemma FlagsAgree(cfg: Config, filter: Option<Bloom.Filter>, rs: seq<Rec>)
    requires FilterOk(filter)
    ensures (ReaderOf(cfg, filter, rs).header.flags / ENCRYPTED % 2 == 1) == cfg.crypto.Sealed?
  {
    hide Blocks, FilterOf, FilterBytes, Index, BlockBytes, TableBytes, FooterOf, LowSeqno, HighSeqno, BlockOffset;
  }

  lemma OpenUnfold(cfg: Config, file: seq<byte>, header: FileHeader, footer: Footer)
    requires |file| >= FILE_HEADER_SIZE + FOOTER_SIZE
    requires DecodeFooter(cfg.crc, file[|file| - FOOTER_SIZE..]) == Ok(footer)
    requires DecodeHeader(cfg.crc, file[..FILE_HEADER_SIZE]) == Ok(header)
    ensures OpenTable(cfg, file) == LoadTable(cfg, file, header, footer)
  {
    hide DecodeFooter, DecodeHeader, LoadTable;
  }

  lemma LoadUnfold(cfg: Config, t: Reader)
    requires (t.header.flags / ENCRYPTED % 2 == 1) == cfg.crypto.Sealed?
    requires ReadAt(t.file, t.footer.index.offset, t.footer.index.length) == Ok(t.indexBytes)
    requires ReadFilter(t.file, t.footer.filter) == Ok(t.bloom)
    ensures LoadTable(cfg, t.file, t.header, t.footer) == Ok(t)
  {
    hide ReadAt, ReadFilter;
  }
}
