/** The bytes on disk, spelled out: which bytes each structure starts with, where its
    fields are, what its checksum covers, and exactly which bytes are accepted. The
    numbers here are those of the file formats, not the constants of the code. */
module Formats {
  import opened Bytes
  import opened Records
  import opened Varint
  import WalFormat
  import WalReader
  import Batch
  import Block
  import SstFormat
  import SstWriter
  import SstReader
  import SstTheorems
  import Bloom
  import Nonces

  // ----- integers -----

  lemma LeEqual(s: seq<byte>, t: seq<byte>)
    requires |s| == |t|
    ensures FromLe(s) == FromLe(t) <==> s == t
  {
    LeUnique(s);
    LeUnique(t);
  }

  lemma LeIs(v: nat, s: seq<byte>)
    requires FromLe(s) == v
    ensures ToLe(v, |s|) == s
  {
    LeUnique(s);
  }

  /** One, two and zero as stored in four bytes. */
  lemma SmallWords()
    ensures FromLe([0, 0, 0, 0]) == 0 && FromLe([1, 0, 0, 0]) == 1
  {
    LittleEndian([0, 0, 0, 0]);
    LittleEndian([1, 0, 0, 0]);
  }

  /** Seven bits a byte, low group first. */
  lemma VarintBytes()
    ensures Leb(0) == [0] && Leb(127) == [127] && Leb(128) == [128, 1] && Leb(300) == [172, 2]
    ensures LebValue([172, 2]) == 300
  {
    assert Leb(2) == [2] && Leb(1) == [1];
    assert LebValue([2]) == 2 && [172, 2][1..] == [2];
  }

  // ----- write batches -----

  /** A put is tag 0, key and value; a delete is tag 1 and key; lengths and the count
      are varints. */
  lemma BatchBytes()
    ensures Batch.Encode([Batch.Put([97, 98], [7]), Batch.Delete([99])]) == [2, 0, 2, 97, 98, 1, 7, 1, 1, 99]
  {
    var (put, del) := (Batch.Put([97, 98], [7]), Batch.Delete([99]));
    assert Leb(1) == [1] && Leb(2) == [2];
    assert Batch.EncodeOp(put) == [0, 2, 97, 98, 1, 7];
    assert Batch.EncodeOp(del) == [1, 1, 99];
    assert Batch.EncodeOps([del]) == [1, 1, 99] by { assert [del][1..] == []; }
    assert [put, del][1..] == [del];
  }

  /** Any other tag is refused. */
  lemma UnknownTagRefused(s: seq<byte>)
    requires s != [] && s[0] >= 2
    ensures Batch.DecodeOp(s) == Err(InvalidFormat)
  {
  }

  // ----- log segments -----

  lemma SegmentMagic()
    ensures FromLe([80, 75, 87, 76]) == WalFormat.SEGMENT_MAGIC && FromLe([1, 0, 0, 0]) == WalFormat.FORMAT_VERSION
  {
    LittleEndian([80, 75, 87, 76]);
    SmallWords();
  }

  /** A segment header: "PKWL", version 1, number, first sequence number, a checksum of
      those 24 bytes, four zeros. */
  lemma SegmentHeaderBytes(crc: Checksum, id: u64, first: u64)
    ensures var h := WalFormat.SegmentHeader(crc, id, first);
      && |h| == 32 && h[..4] == [80, 75, 87, 76] && h[4..8] == [1, 0, 0, 0]
      && FromLe(h[8..16]) == id && FromLe(h[16..24]) == first
      && FromLe(h[24..28]) == crc(h[..24]) && h[28..32] == [0, 0, 0, 0]
  {
    var h := WalFormat.SegmentHeader(crc, id, first);
    WalFormat.OpenWrittenSegment(crc, id, first, []);
    assert h + [] == h;
    SegmentOpensIff(crc, h);
  }

  /** And exactly the files that start with such a header open. */
  lemma SegmentOpensIff(crc: Checksum, file: seq<byte>)
    ensures WalFormat.OpenSegment(crc, file).Ok? <==>
      && |file| >= 32 && file[..4] == [80, 75, 87, 76] && file[4..8] == [1, 0, 0, 0]
      && FromLe(file[24..28]) == crc(file[..24]) && file[28..32] == [0, 0, 0, 0]
    ensures WalFormat.OpenSegment(crc, file).Ok? ==>
      WalFormat.OpenSegment(crc, file).value == (FromLe(file[8..16]), FromLe(file[16..24]))
  {
    SegmentMagic();
    SmallWords();
    hide FromLe;
    if |file| >= 32 {
      assert file[0..4] == file[..4];
      LeEqual(file[..4], [80, 75, 87, 76]);
      LeEqual(file[4..8], [1, 0, 0, 0]);
      LeEqual(file[28..32], [0, 0, 0, 0]);
    }
  }

  /** A fragment: checksum, length, kind 1 to 4, zero, sequence number, payload. The
      checksum covers everything from the kind on. */
  lemma FragmentBytes(crc: Checksum, kind: WalFormat.Kind, seqno: u64, payload: seq<byte>)
    requires |payload| < 0x1_0000
    ensures var f := WalFormat.Fragment(crc, kind, seqno, payload);
      && |f| == 16 + |payload| && FromLe(f[0..4]) == crc(f[6..]) && FromLe(f[4..6]) == |payload|
      && f[6] == (match kind case Full => 1 case First => 2 case Middle => 3 case Last => 4) && f[7] == 0
      && FromLe(f[8..16]) == seqno && f[16..] == payload
  {
    hide ToLe, FromLe;
    var f := WalFormat.Fragment(crc, kind, seqno, payload);
    var h := WalFormat.FragmentHeader(crc, kind, seqno, payload);
    WalFormat.HeaderFields(crc, kind, seqno, payload);
    Pow256Values();
    assert f[0..4] == h[0..4] && f[4..6] == h[4..6] && f[8..16] == h[8..16];
    LeRoundTrip(|payload|, 2);
    LeRoundTrip(seqno, 8);
    assert f[6..] == [WalFormat.KindByte(kind), 0] + ToLe(seqno, 8) + payload;
    LeRoundTrip(crc(f[6..]), 4);
  }

  /** Exactly these bytes are taken as a fragment: a header that is not all zero, a
      length of at most 32752 that the file still holds, a checksum that matches what
      follows the length, and a kind from 1 to 4. A sum that differs is never accepted,
      whatever the checksum function. A zero header skips the block, an unknown kind
      under a matching sum is an error, and everything else is a torn tail. */
  lemma FragmentAccepted(crc: Checksum, area: seq<byte>, at: nat)
    requires at + 16 <= |area|
    ensures var h := area[at..at + 16];
      var n := FromLe(h[4..6]);
      WalReader.ReadFragment(crc, area, at).Got? <==>
        && h != Zeros(16) && n <= 32752 && at + 16 + n <= |area|
        && FromLe(h[0..4]) == crc(h[6..] + area[at + 16..at + 16 + n]) && 1 <= h[6] <= 4
    ensures var h := area[at..at + 16];
      var step := WalReader.ReadFragment(crc, area, at);
      step.Got? ==>
        && step.frag.payload == area[at + 16..at + 16 + FromLe(h[4..6])] && step.frag.seqno == FromLe(h[8..16])
        && h[6] == (match step.frag.kind case Full => 1 case First => 2 case Middle => 3 case Last => 4)
    ensures var h := area[at..at + 16];
      var n := FromLe(h[4..6]);
      var step := WalReader.ReadFragment(crc, area, at);
      && (step == WalReader.SkipBlock <==> h == Zeros(16))
      && (step.BadFragment? <==>
            && h != Zeros(16) && n <= 32752 && at + 16 + n <= |area|
            && FromLe(h[0..4]) == crc(h[6..] + area[at + 16..at + 16 + n]) && !(1 <= h[6] <= 4))
  {
    hide FromLe;
    var h := area[at..at + 16];
    var n := FromLe(h[4..6]);
    assert h == Zeros(16) <==> AllZero(h);
    if at + 16 + n <= |area| {
      var payload := area[at + 16..at + 16 + n];
      assert h[6..] + payload == [h[6], h[7]] + h[8..16] + payload by { assert h[6..] == [h[6], h[7]] + h[8..16]; }
    }
  }

  /** How fragments join: a record starts with a full or a first fragment and goes on
      only with middle and last ones of the same sequence number. */
  lemma FragmentsJoin(partial: Option<WalFormat.LogRecord>, f: WalReader.Frag)
    ensures var step := WalReader.Assemble(partial, f);
      var whole := if partial.None? then f.payload else partial.value.payload + f.payload;
      if partial.None? != (f.kind.Full? || f.kind.First?) || (partial.Some? && partial.value.seqno != f.seqno) then step == WalReader.BadSequence
      else if f.kind.Full? || f.kind.Last? then step == WalReader.Complete(WalFormat.LogRecord(f.seqno, whole))
      else step == WalReader.Continue(WalFormat.LogRecord(f.seqno, whole))
  {
  }

  /** Records are cut at 32 KiB: one that fits what is left of the block is one
      fragment, a longer one first fills the block to its last byte, and a tail of fewer
      than sixteen bytes is skipped with zeros. */
  lemma FrameGeometry(crc: Checksum, pos: nat, r: WalFormat.LogRecord)
    ensures var left := 32768 - pos % 32768;
      var frame := WalFormat.Frame(crc, pos, r);
      && (left >= 16 && 16 + |r.payload| <= left ==> frame == WalFormat.Fragment(crc, WalFormat.Full, r.seqno, r.payload))
      && (left >= 16 && 16 + |r.payload| > left ==>
            |frame| >= left && frame[..left] == WalFormat.Fragment(crc, WalFormat.First, r.seqno, r.payload[..left - 16]))
      && (left < 16 ==> frame == Zeros(left) + WalFormat.Frame(crc, pos + left, r))
  {
    hide WalFormat.Fragment;
    var left := 32768 - pos % 32768;
    if left < 16 {
      assert (pos + left) % 32768 == 0;
      assert WalFormat.PadLength(pos + left) == 0;
      assert Zeros(0) + WalFormat.Fragments(crc, pos + left, r.seqno, r.payload, true) == WalFormat.Fragments(crc, pos + left, r.seqno, r.payload, true);
    } else {
      assert Zeros(0) + WalFormat.Fragments(crc, pos, r.seqno, r.payload, true) == WalFormat.Fragments(crc, pos, r.seqno, r.payload, true);
    }
  }

  // ----- blocks -----

  /** One record in a block: shared and unshared key length, value length, sequence
      number, 0 for a value or 1 for a tombstone, the rest of the key, the value. */
  lemma RecordLayout(r: Rec, shared: nat)
    requires Block.Fits(r) && shared <= |r.key|
    ensures Block.RecordBytes(r, shared) ==
      Leb(shared) + Leb(|r.key| - shared) + Leb(|r.value|) + ToLe(r.seqno, 8) + [if r.op == Live then 0 else 1] + r.key[shared..] + r.value
  {
    hide Leb, ToLe;
  }

  /** A block ends with its number of restarts and the checksum of all before it. */
  lemma TrailerLayout(crc: Checksum, rs: seq<Rec>)
    requires |rs| < U32_LIMIT
    ensures var b := Block.BlockBytes(crc, rs);
      && |b| >= 8 && FromLe(b[|b| - 4..]) == crc(b[..|b| - 4]) && FromLe(b[|b| - 8..|b| - 4]) == (|rs| + 15) / 16
  {
    hide ToLe, FromLe, Block.Body, Block.RestartBytes;
    var (b, u) := (Block.BlockBytes(crc, rs), Block.Unsigned(rs));
    assert b[..|b| - 4] == u && b[|b| - 4..] == ToLe(crc(u), 4);
    assert b[|b| - 8..|b| - 4] == ToLe((|rs| + 15) / 16, 4);
    Pow256Values();
    LeRoundTrip(crc(u), 4);
    LeRoundTrip((|rs| + 15) / 16, 4);
  }

  /** A restart every sixteen records, and a record there stores its whole key. */
  lemma RestartEverySixteen(rs: seq<Rec>, i: nat)
    ensures |Block.Restarts(rs)| == (|rs| + 15) / 16
    ensures i < |Block.Restarts(rs)| ==> Block.Restarts(rs)[i] == Block.Offset(rs, 16 * i)
    ensures i < |rs| ==> Block.SharedAt(rs, i) == if i % 16 == 0 then 0 else Block.SharedPrefix(rs[i - 1].key, rs[i].key)
  {
    hide Block.Offset, Block.SharedPrefix;
  }

  /** Exactly these bytes open as a block: at least eight, the last four the checksum of
      all before them, and a restart count that the block has room for. */
  lemma BlockOpensIff(crc: Checksum, bytes: seq<byte>)
    ensures Block.OpenBlock(crc, bytes).Ok? <==>
      && |bytes| >= 8 && FromLe(bytes[|bytes| - 4..]) == crc(bytes[..|bytes| - 4])
      && 4 * FromLe(bytes[|bytes| - 8..|bytes| - 4]) + 8 <= |bytes|
    ensures Block.OpenBlock(crc, bytes).Ok? ==>
      var b := Block.OpenBlock(crc, bytes).value;
      b.records + b.restartBytes == bytes[..|bytes| - 8] && |b.restartBytes| == 4 * FromLe(bytes[|bytes| - 8..|bytes| - 4])
    ensures |bytes| >= 8 && FromLe(bytes[|bytes| - 4..]) != crc(bytes[..|bytes| - 4]) ==> Block.OpenBlock(crc, bytes) == Err(ChecksumMismatch)
  {
    hide FromLe;
  }

  // ----- tables -----

  lemma TableMagics()
    ensures FromLe([80, 75, 86, 83]) == SstFormat.SSTABLE_MAGIC && FromLe([1, 0, 0, 0]) == SstFormat.FORMAT_VERSION
    ensures FromLe([80, 75, 86, 83, 83, 82, 84, 70]) == SstFormat.FOOTER_MAGIC
  {
    hide FromLe;
    var f := [80, 75, 86, 83, 83, 82, 84, 70];
    LittleEndian([80, 75, 86, 83]);
    SmallWords();
    LittleEndian(f);
    LittleEndian([83, 82, 84, 70]);
    assert f[..4] == [80, 75, 86, 83] && f[4..] == [83, 82, 84, 70];
  }

  /** Exactly these 64 bytes are taken as a table header: "PKVS", version 1, zeros at 14,
      15 and 60 to 63, and at 56 the checksum of what is before it. */
  lemma HeaderAccepted(crc: Checksum, s: seq<byte>)
    requires |s| == 64
    ensures SstFormat.DecodeHeader(crc, s).Ok? <==>
      && s[..4] == [80, 75, 86, 83] && s[4..8] == [1, 0, 0, 0] && s[14] == 0 && s[15] == 0
      && s[60..] == [0, 0, 0, 0] && FromLe(s[56..60]) == crc(s[..56])
    ensures SstFormat.DecodeHeader(crc, s).Ok? ==>
      var h := SstFormat.DecodeHeader(crc, s).value;
      && h.flags == FromLe(s[8..12]) && h.compression == s[12] && h.checksumAlg == s[13]
      && h.numEntries == FromLe(s[16..24]) && h.numBlocks == FromLe(s[24..32])
      && h.minSeqno == FromLe(s[32..40]) && h.maxSeqno == FromLe(s[40..48]) && h.dataEnd == FromLe(s[48..56])
  {
    TableMagics();
    SmallWords();
    hide FromLe;
    assert s[0..4] == s[..4] && s[60..64] == s[60..];
    LeEqual(s[..4], [80, 75, 86, 83]);
    LeEqual(s[4..8], [1, 0, 0, 0]);
    LeEqual(s[60..], [0, 0, 0, 0]);
  }

  /** Exactly these 64 bytes are taken as a footer: index, filter and meta handle, then
      "PKVSSRTF", version 1 and the checksum of what is before it. */
  lemma FooterAccepted(crc: Checksum, s: seq<byte>)
    requires |s| == 64
    ensures SstFormat.DecodeFooter(crc, s).Ok? <==>
      s[48..56] == [80, 75, 86, 83, 83, 82, 84, 70] && s[56..60] == [1, 0, 0, 0] && FromLe(s[60..]) == crc(s[..60])
    ensures SstFormat.DecodeFooter(crc, s).Ok? ==>
      var f := SstFormat.DecodeFooter(crc, s).value;
      HandleAt(f.index, s[0..16]) && HandleAt(f.filter, s[16..32]) && HandleAt(f.meta, s[32..48])
  {
    TableMagics();
    hide FromLe;
    assert s[60..64] == s[60..];
    LeEqual(s[48..56], [80, 75, 86, 83, 83, 82, 84, 70]);
    LeEqual(s[56..60], [1, 0, 0, 0]);
    HandleIsAt(s, 0);
    HandleIsAt(s, 16);
    HandleIsAt(s, 32);
  }

  lemma HandleIsAt(s: seq<byte>, at: nat)
    requires at + 16 <= |s|
    ensures SstFormat.DecodeHandle(s[at..]).Ok? && HandleAt(SstFormat.DecodeHandle(s[at..]).value, s[at..at + 16])
  {
    hide FromLe;
    var (t, u) := (s[at..], s[at..at + 16]);
    assert u == t[..16];
    assert t[0..8] == u[..8] && t[8..12] == u[8..12] && t[12..16] == u[12..];
  }

  /** A handle is offset, length and checksum, in eight, four and four bytes. */
  predicate HandleAt(h: SstFormat.Handle, s: seq<byte>)
    requires |s| == 16
  {
    h.offset == FromLe(s[..8]) && h.length == FromLe(s[8..12]) && h.checksum == FromLe(s[12..])
  }

  /** A finished table: header, zeros up to byte 4096, data blocks, filter, index, and the
      footer in the last 64 bytes. */
  lemma TableLayout(cfg: SstWriter.Config, filter: Option<Bloom.Filter>, rs: seq<Rec>)
    requires SstWriter.FilterOk(filter)
    ensures var file := SstWriter.TableBytes(cfg, filter, rs);
      var blocks := SstWriter.Blocks(cfg.blockSize, rs);
      var region := SstWriter.Region(cfg, blocks);
      && |file| >= 4096 + |region| + 64 && file[64..4096] == Zeros(4032) && file[4096..4096 + |region|] == region
      && file[..64] == SstFormat.EncodeHeader(cfg.crc, SstWriter.HeaderOf(cfg, blocks, rs))
      && |region| % 4096 == 0
  {
    hide *;
    SstTheorems.PartsAre(cfg, filter, rs);
    var p := SstTheorems.PartsOf(cfg, filter, rs);
    PartsLayout(cfg, filter, rs);
    Slices(p.header, p.zeros, p.region, p.filter + (p.index + p.footer));
    SstTheorems.RegionIsAligned(cfg, SstWriter.Blocks(cfg.blockSize, rs));
    RegionMod(|p.region|);
  }

  lemma RegionMod(n: nat)
    requires (SstFormat.HEADER_REGION + n) % SstFormat.BLOCK_ALIGNMENT == 0
    ensures n % 4096 == 0
  {
  }

  lemma PartsLayout(cfg: SstWriter.Config, filter: Option<Bloom.Filter>, rs: seq<Rec>)
    requires SstWriter.FilterOk(filter)
    ensures var p := SstTheorems.PartsOf(cfg, filter, rs);
      var blocks := SstWriter.Blocks(cfg.blockSize, rs);
      && |p.header| == 64 && p.zeros == Zeros(4032) && |p.footer| == 64 && p.region == SstWriter.Region(cfg, blocks)
      && p.header == SstFormat.EncodeHeader(cfg.crc, SstWriter.HeaderOf(cfg, blocks, rs))
      && SstWriter.TableBytes(cfg, filter, rs) == p.header + (p.zeros + (p.region + (p.filter + (p.index + p.footer))))
  {
    hide SstWriter.Blocks, SstWriter.FilterOf, SstWriter.Region, SstFormat.EncodeHeader, SstFormat.EncodeFooter, Block.BlockBytes, SstWriter.HeaderOf, SstWriter.FooterOf, SstWriter.Index;
  }

  lemma Slices(h: seq<byte>, z: seq<byte>, r: seq<byte>, rest: seq<byte>)
    requires |h| == 64 && |z| == 4032
    ensures var file := h + (z + (r + rest));
      && |file| == 4096 + |r| + |rest| && file[..64] == h && file[64..4096] == z && file[4096..4096 + |r|] == r
  {
    assert h + (z + (r + rest)) == (h + z) + r + rest;
  }

  /** What the header says of the table: whether it is sealed, how many records and
      blocks, and where the blocks end. */
  lemma HeaderCounts(cfg: SstWriter.Config, blocks: seq<seq<Rec>>, rs: seq<Rec>)
    ensures var h := SstWriter.HeaderOf(cfg, blocks, rs);
      && h.flags == (if cfg.crypto.Sealed? then 3 else 1) && h.compression == 0 && h.checksumAlg == cfg.checksumAlg
      && h.numEntries == |rs| && h.numBlocks == |blocks| && h.dataEnd == 4096 + |SstWriter.Region(cfg, blocks)|
  {
    hide SstWriter.Region;
    assert blocks[..|blocks|] == blocks;
  }

  /** The handle of a data block: where it is, how long it is on disk, and its own
      checksum when it is in the clear. */
  lemma HandleFields(cfg: SstWriter.Config, blocks: seq<seq<Rec>>, i: nat)
    requires i < |blocks|
    ensures var h := SstWriter.BlockHandle(cfg, blocks, i);
      var plain := Block.BlockBytes(cfg.crc, blocks[i]);
      && h.offset == SstWriter.BlockOffset(cfg, blocks, i) && h.length == |SstTheorems.BlockDisk(cfg, blocks, i)|
      && h.checksum == (if cfg.crypto.Sealed? then 0 else cfg.crc(plain[..|plain| - 4]))
  {
    hide ToLe, FromLe, SstWriter.Region, Block.Body, Block.RestartBytes;
    var plain := Block.BlockBytes(cfg.crc, blocks[i]);
    var u := Block.Unsigned(blocks[i]);
    assert plain[..|plain| - 4] == u && plain[|plain| - 4..] == ToLe(cfg.crc(u), 4);
    Pow256Values();
    LeRoundTrip(cfg.crc(u), 4);
  }

  /** The index is a block of live records numbered 0, the last key of each data block
      with its handle in sixteen bytes; the filter follows the data, the index follows the
      filter, and the meta block is empty. */
  lemma IndexAndFooter(cfg: SstWriter.Config, blocks: seq<seq<Rec>>, filter: seq<byte>, i: nat)
    ensures i < |blocks| && blocks[i] != [] ==>
      var (key, h) := (blocks[i][|blocks[i]| - 1].key, SstWriter.BlockHandle(cfg, blocks, i));
      SstWriter.Index(cfg, blocks)[i] == Rec(key, 0, Live, ToLe(h.offset, 8) + ToLe(h.length, 4) + ToLe(h.checksum, 4))
    ensures var f := SstWriter.FooterOf(cfg, blocks, filter);
      var end := 4096 + |SstWriter.Region(cfg, blocks)|;
      && f.filter == SstFormat.Handle(end, |filter|, 0) && f.meta == SstFormat.Handle(end + |filter|, 0, 0)
      && f.index.offset == end + |filter| && f.index.length == |Block.BlockBytes(cfg.crc, SstWriter.Index(cfg, blocks))|
  {
    hide ToLe, FromLe, SstWriter.Region, Block.BlockBytes, SstWriter.BlockHandle;
    assert blocks[..|blocks|] == blocks;
    if i < |blocks| {
      var h := SstWriter.BlockHandle(cfg, blocks, i);
      Assoc(ToLe(h.offset, 8), ToLe(h.length, 4), ToLe(h.checksum, 4));
    }
  }

  /** A table written sealed does not open in the clear, nor the other way round. */
  lemma SealingMustMatch(cfg: SstWriter.Config, other: SstWriter.Config, filter: Option<Bloom.Filter>, rs: seq<Rec>)
    requires SstWriter.FilterOk(filter) && SstTheorems.TableFits(cfg, filter, rs) && SstTheorems.Lawful(cfg.crypto)
    requires other.crc == cfg.crc && other.crypto.Sealed? != cfg.crypto.Sealed?
    ensures SstReader.OpenTable(other, SstWriter.TableBytes(cfg, filter, rs)) == Err(InvalidFormat)
  {
    hide SstWriter.TableBytes, SstTheorems.TableFits, SstTheorems.Lawful, SstWriter.FilterOk, SstFormat.DecodeFooter, SstFormat.DecodeHeader, SstReader.ReadAt, SstReader.ReadFilter, SstTheorems.ReaderOf;
    SstTheorems.OpenWritten(cfg, filter, rs);
    var file := SstWriter.TableBytes(cfg, filter, rs);
    assert SstReader.OpenTable(cfg, file).Ok?;
  }

  // ----- filters -----

  /** Exactly these bytes are taken as a filter: the magic number, version 1, one to
      sixteen hashes, and 64 bytes for each of at least one block. */
  lemma FilterAccepted(s: seq<byte>)
    ensures Bloom.Decode(s).Ok? <==>
      && |s| >= 16 && s[..4] == [17, 15, 0, 177] && s[4] == 1 && 1 <= s[5] <= 16
      && FromLe(s[8..12]) >= 1 && |s| == 16 + 64 * FromLe(s[8..12])
    ensures Bloom.Decode(s).Ok? ==>
      var f := Bloom.Decode(s).value;
      && f.numHashes == s[5] && f.bitsPerKey == s[6] && f.numBlocks == FromLe(s[8..12]) && f.numKeys == FromLe(s[12..16])
      && f.blocks == s[16..]
  {
    LittleEndian([17, 15, 0, 177]);
    hide FromLe;
    if |s| >= 16 {
      assert s[0..4] == s[..4];
      LeEqual(s[..4], [17, 15, 0, 177]);
    }
  }

  /** The block of a key: the low half of its hash scaled to the number of blocks. */
  lemma BlockOfKey(hash: u64, numBlocks: nat)
    ensures var b := Bloom.PickBlock(hash, numBlocks);
      b * 0x1_0000_0000 <= hash % 0x1_0000_0000 * numBlocks < (b + 1) * 0x1_0000_0000
  {
  }

  /** The bits of a key: the high half of its hash, then one stride after the other. */
  lemma BitsOfKey(hash: u64, i: nat)
    ensures Bloom.BitPosition(hash, 0) == hash / 0x1_0000_0000 % 512
    ensures Bloom.BitPosition(hash, i + 1) == (Bloom.BitPosition(hash, i) + Bloom.Stride(hash / 0x1_0000_0000)) % 512
  {
    hide Bloom.Stride;
    var (high, b) := (hash / 0x1_0000_0000, Bloom.Stride(hash / 0x1_0000_0000));
    assert high + 0 * b == high;
    assert high + (i + 1) * b == (high + i * b) + b;
    ModSum(high + i * b, b);
  }

  lemma ModSum(x: nat, b: nat)
    ensures (x % 512 + b) % 512 == (x + b) % 512
  {
  }

  /** A filter has bits for every expected key, no more than one block too many, and at
      least one block. */
  lemma FilterSize(expected: nat, numHashes: nat, bitsPerKey: nat)
    requires 1 <= numHashes <= 16 && bitsPerKey < 256
    ensures var f := Bloom.NewFilter(expected, numHashes, bitsPerKey);
      var bits := (if expected == 0 then 1 else expected) * bitsPerKey;
      && f.numBlocks >= 1 && f.numHashes == numHashes && f.bitsPerKey == bitsPerKey && f.numKeys == 0
      && f.blocks == Zeros(64 * f.numBlocks)
      && (bits <= 512 * 0xFFFF_FFFF ==> bits <= 512 * f.numBlocks < bits + 512 || f.numBlocks == 1)
  {
  }

  // ----- nonces -----

  /** The associated data is the table number, then the block offset. */
  lemma AadBytes(id: u64, offset: u64)
    ensures FromLe(Nonces.BlockAad(id, offset)[..8]) == id && FromLe(Nonces.BlockAad(id, offset)[8..]) == offset
  {
    hide ToLe, FromLe;
    var a := Nonces.BlockAad(id, offset);
    assert a[..8] == ToLe(id, 8) && a[8..] == ToLe(offset, 8);
    Pow256Values();
    LeRoundTrip(id, 8);
    LeRoundTrip(offset, 8);
  }

  /** A nonce is "NOFC" and the block offset. */
  lemma NonceBytes(offset: u64)
    ensures Nonces.BlockNonce(offset)[..4] == [78, 79, 70, 67] && FromLe(Nonces.BlockNonce(offset)[4..]) == offset
  {
    LittleEndian([78, 79, 70, 67]);
    LeIs(Nonces.NONCE_FORMAT_TAG, [78, 79, 70, 67]);
    hide ToLe, FromLe;
    var n := Nonces.BlockNonce(offset);
    assert n[..4] == ToLe(Nonces.NONCE_FORMAT_TAG, 4) && n[4..] == ToLe(offset, 8);
    Pow256Values();
    LeRoundTrip(offset, 8);
  }
}
