/** The table writer: records go into blocks, blocks go to aligned offsets, and the
    filter, the index, the footer and the header describe them. */
module SstWriter {
  import opened Bytes
  import opened Records
  import opened Block
  import opened SstFormat
  import Bloom

  /** Authenticated encryption of data blocks: functions of table id, block offset
      and bytes. The key is fixed. */
  datatype Crypto =
    | Plain
    | Sealed(seal: (nat, nat, seq<byte>) -> seq<byte>, unseal: (nat, nat, seq<byte>) -> Option<seq<byte>>, id: nat)

  datatype Config = Config(crc: Checksum, hash: Bloom.Hash, crypto: Crypto, blockSize: nat, checksumAlg: byte)

  // ----- blocks -----

  /** Blocks already full, and the records of the block still open. */
  datatype Cut = Cut(full: seq<seq<Rec>>, open: seq<Rec>)

  function CutUp(blockSize: nat, rs: seq<Rec>): Cut {
    if rs == [] then Cut([], [])
    else
      var c := CutUp(blockSize, rs[..|rs| - 1]);
      var open := c.open + [rs[|rs| - 1]];
      if EstimatedSize(open) >= blockSize then Cut(c.full + [open], []) else Cut(c.full, open)
  }

  function Close(c: Cut): seq<seq<Rec>> {
    if c.open == [] then c.full else c.full + [c.open]
  }

  function Blocks(blockSize: nat, rs: seq<Rec>): seq<seq<Rec>> {
    Close(CutUp(blockSize, rs))
  }

  // ----- the data region -----

  function OnDisk(cfg: Config, off: nat, plain: seq<byte>): seq<byte> {
    match cfg.crypto
    case Plain => plain
    case Sealed(seal, _, id) => seal(id, off, plain)
  }

  /** Zeros needed to reach the next page boundary. */
  function Pad(n: nat): (p: nat)
    ensures (n + p) % BLOCK_ALIGNMENT == 0 && p < BLOCK_ALIGNMENT
  {
    (BLOCK_ALIGNMENT - n % BLOCK_ALIGNMENT) % BLOCK_ALIGNMENT
  }

  function Padded(cfg: Config, off: nat, plain: seq<byte>): seq<byte> {
    var d := OnDisk(cfg, off, plain);
    d + Zeros(Pad(off + |d|))
  }

  /** Blocks one after the other, each padded to a page. */
  function Region(cfg: Config, blocks: seq<seq<Rec>>): seq<byte> {
    if blocks == [] then []
    else
      var front := Region(cfg, blocks[..|blocks| - 1]);
      front + Padded(cfg, HEADER_REGION + |front|, BlockBytes(cfg.crc, blocks[|blocks| - 1]))
  }

  function BlockOffset(cfg: Config, blocks: seq<seq<Rec>>, i: nat): nat
    requires i <= |blocks|
  {
    HEADER_REGION + |Region(cfg, blocks[..i])|
  }

  function HandleFor(cfg: Config, off: nat, plain: seq<byte>): Handle
    requires |plain| >= 4
  {
    Handle(off, |OnDisk(cfg, off, plain)|, if cfg.crypto.Plain? then FromLe(plain[|plain| - 4..]) else 0)
  }

  function LastKey(rs: seq<Rec>): Key {
    if rs == [] then [] else rs[|rs| - 1].key
  }

  function BlockHandle(cfg: Config, blocks: seq<seq<Rec>>, i: nat): Handle
    requires i < |blocks|
  {
    HandleFor(cfg, BlockOffset(cfg, blocks, i), BlockBytes(cfg.crc, blocks[i]))
  }

  /** One index entry a block: its last key and its handle. */
  function Entries(cfg: Config, blocks: seq<seq<Rec>>): (es: seq<(Key, Handle)>)
    ensures |es| == |blocks| && forall i :: 0 <= i < |blocks| ==> es[i] == (LastKey(blocks[i]), BlockHandle(cfg, blocks, i))
  {
    seq(|blocks|, i requires 0 <= i < |blocks| => (LastKey(blocks[i]), BlockHandle(cfg, blocks, i)))
  }

  function IndexRecs(es: seq<(Key, Handle)>): (rs: seq<Rec>)
    ensures |rs| == |es| && forall i :: 0 <= i < |es| ==> rs[i] == Rec(es[i].0, 0, Live, EncodeHandle(es[i].1))
  {
    seq(|es|, i requires 0 <= i < |es| => Rec(es[i].0, 0, Live, EncodeHandle(es[i].1)))
  }

  function Index(cfg: Config, blocks: seq<seq<Rec>>): seq<Rec> {
    IndexRecs(Entries(cfg, blocks))
  }

  // ----- the whole file -----

  function Keys(rs: seq<Rec>): (ks: seq<Key>)
    ensures |ks| == |rs| && forall i :: 0 <= i < |rs| ==> ks[i] == rs[i].key
  {
    seq(|rs|, i requires 0 <= i < |rs| => rs[i].key)
  }

  predicate FilterOk(f: Option<Bloom.Filter>) {
    f.Some? ==> Bloom.WellFormed(f.value)
  }

  /** The filter after all keys of the table. */
  function FilterOf(cfg: Config, f: Option<Bloom.Filter>, rs: seq<Rec>): (g: Option<Bloom.Filter>)
    requires FilterOk(f)
    ensures FilterOk(g)
  {
    if f.None? then None else Some(Bloom.InsertAll(cfg.hash, f.value, Keys(rs)))
  }

  function FilterBytes(f: Option<Bloom.Filter>): seq<byte>
    requires FilterOk(f)
  {
    if f.None? then [] else Bloom.Encode(f.value)
  }

  /** Running minimum from the largest 64-bit value. */
  function LowSeqno(rs: seq<Rec>): nat {
    if rs == [] then U64_LIMIT - 1 else Min(LowSeqno(rs[..|rs| - 1]), rs[|rs| - 1].seqno)
  }

  function HighSeqno(rs: seq<Rec>): nat {
    if rs == [] then 0 else Max(HighSeqno(rs[..|rs| - 1]), rs[|rs| - 1].seqno)
  }

  function HeaderOf(cfg: Config, blocks: seq<seq<Rec>>, rs: seq<Rec>): FileHeader {
    FileHeader(
      if cfg.crypto.Plain? then CHECKSUMMED else CHECKSUMMED + ENCRYPTED, 0, cfg.checksumAlg,
      |rs|, |blocks|, if LowSeqno(rs) == U64_LIMIT - 1 then 0 else LowSeqno(rs), HighSeqno(rs),
      BlockOffset(cfg, blocks, |blocks|))
  }

  function FooterOf(cfg: Config, blocks: seq<seq<Rec>>, filter: seq<byte>): Footer {
    var dataEnd := BlockOffset(cfg, blocks, |blocks|);
    var at := dataEnd + |filter|;
    var index := BlockBytes(cfg.crc, Index(cfg, blocks));
    Footer(Handle(at, |index|, FromLe(index[|index| - 4..])), Handle(dataEnd, |filter|, 0), Handle(at, 0, 0))
  }

  function FileOf(cfg: Config, header: FileHeader, blocks: seq<seq<Rec>>, filter: seq<byte>): seq<byte> {
    EncodeHeader(cfg.crc, header) + (Zeros(HEADER_REGION - FILE_HEADER_SIZE) + (Region(cfg, blocks) + (filter
      + (BlockBytes(cfg.crc, Index(cfg, blocks)) + EncodeFooter(cfg.crc, FooterOf(cfg, blocks, filter))))))
  }

  /** The bytes of a finished table. */
  function TableBytes(cfg: Config, filter: Option<Bloom.Filter>, rs: seq<Rec>): seq<byte>
    requires FilterOk(filter)
  {
    var blocks := Blocks(cfg.blockSize, rs);
    FileOf(cfg, HeaderOf(cfg, blocks, rs), blocks, FilterBytes(FilterOf(cfg, filter, rs)))
  }

  // ----- the writer -----

  class TableWriter {
    const cfg: Config
    const builder: BlockBuilder
    var file: seq<byte>
    var pendingIndex: seq<(Key, Handle)>
    var lastKey: Key
    var bytesWritten: nat
    var numEntries: nat
    var numBlocks: nat
    var minSeqno: nat
    var maxSeqno: nat
    var bloom: Option<Bloom.Filter>
    ghost const filter: Option<Bloom.Filter>
    ghost var full: seq<seq<Rec>>
    ghost var recs: seq<Rec>

    /** The file holds the header region and the given full blocks. */
    ghost predicate Holds()
      reads this, builder
    {
      && builder.Valid()
      && file == Zeros(HEADER_REGION) + Region(cfg, full)
      && bytesWritten == |file| && numBlocks == |full|
      && pendingIndex == Entries(cfg, full)
      && (builder.recs != [] ==> lastKey == LastKey(builder.recs))
    }

    ghost predicate Counted()
      reads this`numEntries, this`recs, this`minSeqno, this`maxSeqno, this`bloom
    {
      && numEntries == |recs| && minSeqno == LowSeqno(recs) && maxSeqno == HighSeqno(recs)
      && FilterOk(filter) && bloom == FilterOf(cfg, filter, recs)
    }

    ghost predicate Valid()
      reads this, builder
    {
      Holds() && Counted() && Cut(full, builder.recs) == CutUp(cfg.blockSize, recs)
    }

    constructor (cfg: Config, bloom: Option<Bloom.Filter>)
      requires FilterOk(bloom)
      ensures Valid() && recs == [] && this.cfg == cfg && filter == bloom && fresh(builder)
    {
      this.cfg := cfg;
      builder := new BlockBuilder();
      file, pendingIndex, lastKey, bytesWritten := Zeros(HEADER_REGION), [], [], HEADER_REGION;
      numEntries, numBlocks, minSeqno, maxSeqno := 0, 0, U64_LIMIT - 1, 0;
      this.bloom, filter := bloom, bloom;
      full, recs := [], [];
      new;
      assert Zeros(HEADER_REGION) + [] == Zeros(HEADER_REGION);
    }

    /** Takes the next record; callers keep (key ascending, seqno descending) order. */
    method Add(key: Key, value: seq<byte>, seqno: nat, op: RecordOp)
      requires Valid()
      modifies this, builder
      ensures Valid() && recs == old(recs) + [Rec(key, seqno, op, value)]
    {
      hide Region, BlockBytes, EstimatedSize, Entries, CutUp, BlockBuilder.Valid, Counted;
      CutOne(cfg.blockSize, recs, Rec(key, seqno, op, value));
      builder.Add(key, value, seqno, op);
      Count(Rec(key, seqno, op, value));
      lastKey := key;
      var size := builder.Size();
      if size >= cfg.blockSize {
        FlushBlock();
      }
    }

    /** The totals of the header, and the filter. */
    method Count(r: Rec)
      requires Counted()
      modifies this`numEntries, this`minSeqno, this`maxSeqno, this`bloom, this`recs
      ensures Counted() && recs == old(recs) + [r]
    {
      hide Bloom.Insert, Bloom.InsertAll, Bloom.WellFormed, LowSeqno, HighSeqno;
      CountOne(cfg, filter, recs, r);
      if bloom.Some? {
        bloom := Some(Bloom.Insert(cfg.hash, bloom.value, r.key));
      }
      numEntries := numEntries + 1;
      minSeqno := Min(minSeqno, r.seqno);
      maxSeqno := Max(maxSeqno, r.seqno);
      recs := recs + [r];
    }

    /** Seals the open block, if it has records. */
    method FlushBlock()
      requires Holds()
      modifies this`file, this`pendingIndex, this`lastKey, this`bytesWritten, this`numBlocks, this`full, builder
      ensures Holds() && builder.recs == []
      ensures full == old(Close(Cut(full, builder.recs)))
    {
      hide Region, BlockBytes, Entries;
      var empty := builder.IsEmpty();
      if empty {
        return;
      }
      ghost var block := builder.recs;
      var bytes := builder.Finish(cfg.crc);
      BlockIsLong(cfg.crc, block);
      var handle := WriteBlock(bytes);
      pendingIndex := pendingIndex + [(lastKey, handle)];
      lastKey := [];
      numBlocks := numBlocks + 1;
      RegionAppend(cfg, full, block);
      EntriesAppend(cfg, full, block);
      Assoc(Zeros(HEADER_REGION), Region(cfg, full), Padded(cfg, BlockOffset(cfg, full, |full|), bytes));
      assert full[..|full|] == full;
      full := full + [block];
    }

    /** Appends one block at the current offset and pads to the next page. */
    method WriteBlock(plain: seq<byte>) returns (handle: Handle)
      requires bytesWritten == |file| && |plain| >= 4
      modifies this`file, this`bytesWritten
      ensures file == old(file) + Padded(cfg, old(|file|), plain) && bytesWritten == |file|
      ensures handle == HandleFor(cfg, old(|file|), plain)
    {
      var off := bytesWritten;
      var disk := OnDisk(cfg, off, plain);
      var checksum := if cfg.crypto.Plain? then FromLe(plain[|plain| - 4..]) else 0;
      file := file + disk;
      bytesWritten := bytesWritten + |disk|;
      handle := Handle(off, |disk|, checksum);
      AlignToBlockBoundary();
      Assoc(old(file), disk, Zeros(Pad(off + |disk|)));
    }

    method AlignToBlockBoundary()
      requires bytesWritten == |file|
      modifies this`file, this`bytesWritten
      ensures file == old(file) + Zeros(Pad(old(|file|))) && bytesWritten == |file|
    {
      var rem := bytesWritten % BLOCK_ALIGNMENT;
      if rem != 0 {
        file := file + Zeros(BLOCK_ALIGNMENT - rem);
        bytesWritten := bytesWritten + (BLOCK_ALIGNMENT - rem);
      } else {
        assert file + [] == file && Zeros(0) == [];
      }
    }

    /** Filter, index, footer, and the header written back at offset 0. */
    method Finish() returns (out: seq<byte>)
      requires Valid()
      modifies this, builder
      ensures out == TableBytes(cfg, filter, old(recs))
    {
      hide Region, BlockBytes, Entries, LowSeqno, HighSeqno, CutUp, EncodeHeader, EncodeFooter, Bloom.InsertAll, Bloom.Encode, Bloom.WellFormed;
      ghost var all := recs;
      FlushBlock();
      ghost var blocks := full;
      assert blocks == Blocks(cfg.blockSize, all);
      assert blocks[..|blocks|] == blocks;
      var dataEnd := bytesWritten;
      var filterBytes := FilterBytes(bloom);
      var index := BuildIndexBlock(cfg.crc, pendingIndex);
      BlockIsLong(cfg.crc, IndexRecs(pendingIndex));
      var at := dataEnd + |filterBytes|;
      var footer := Footer(Handle(at, |index|, FromLe(index[|index| - 4..])), Handle(dataEnd, |filterBytes|, 0), Handle(at, 0, 0));
      var flags := if cfg.crypto.Plain? then CHECKSUMMED else CHECKSUMMED + ENCRYPTED;
      var header := FileHeader(flags, 0, cfg.checksumAlg, numEntries, numBlocks,
                               if minSeqno == U64_LIMIT - 1 then 0 else minSeqno, maxSeqno, dataEnd);
      file := file + filterBytes;
      file := file + index;
      file := file + EncodeFooter(cfg.crc, footer);
      out := EncodeHeader(cfg.crc, header) + file[FILE_HEADER_SIZE..];
      assert header == HeaderOf(cfg, blocks, all) && footer == FooterOf(cfg, blocks, filterBytes);
      FileParts(EncodeHeader(cfg.crc, header), Region(cfg, blocks), filterBytes, index, EncodeFooter(cfg.crc, footer));
    }
  }

  /** The index is a block like any other. */
  method BuildIndexBlock(crc: Checksum, es: seq<(Key, Handle)>) returns (bytes: seq<byte>)
    ensures bytes == BlockBytes(crc, IndexRecs(es))
  {
    hide BlockBytes, EncodeHandle, BlockBuilder.Valid;
    var b := new BlockBuilder();
    for i := 0 to |es|
      invariant b.Valid() && fresh(b) && b.recs == IndexRecs(es)[..i]
    {
      b.Add(es[i].0, EncodeHandle(es[i].1), 0, Live);
    }
    assert IndexRecs(es)[..|es|] == IndexRecs(es);
    bytes := b.Finish(crc);
  }

  // ----- small facts for the writer -----

  lemma BlockIsLong(crc: Checksum, rs: seq<Rec>)
    ensures |BlockBytes(crc, rs)| >= TRAILER
  {
  }

  lemma RegionAppend(cfg: Config, blocks: seq<seq<Rec>>, b: seq<Rec>)
    ensures Region(cfg, blocks + [b]) ==
      Region(cfg, blocks) + Padded(cfg, HEADER_REGION + |Region(cfg, blocks)|, BlockBytes(cfg.crc, b))
  {
    hide Padded, BlockBytes;
    assert (blocks + [b])[..|blocks|] == blocks;
  }

  lemma EntriesAppend(cfg: Config, blocks: seq<seq<Rec>>, b: seq<Rec>)
    ensures |BlockBytes(cfg.crc, b)| >= 4
    ensures Entries(cfg, blocks + [b]) ==
      Entries(cfg, blocks) + [(LastKey(b), HandleFor(cfg, HEADER_REGION + |Region(cfg, blocks)|, BlockBytes(cfg.crc, b)))]
  {
    hide Region, HandleFor;
    BlockIsLong(cfg.crc, b);
    hide BlockBytes;
    var more := blocks + [b];
    forall i | 0 <= i < |blocks| ensures Entries(cfg, more)[i] == Entries(cfg, blocks)[i] {
      BlockIsLong(cfg.crc, blocks[i]);
      assert more[..i] == blocks[..i];
    }
    assert more[..|blocks|] == blocks;
  }

  lemma CountOne(cfg: Config, f: Option<Bloom.Filter>, rs: seq<Rec>, r: Rec)
    requires FilterOk(f)
    ensures LowSeqno(rs + [r]) == Min(LowSeqno(rs), r.seqno) && HighSeqno(rs + [r]) == Max(HighSeqno(rs), r.seqno)
    ensures FilterOf(cfg, f, rs + [r]) ==
      if f.None? then None else Some(Bloom.Insert(cfg.hash, FilterOf(cfg, f, rs).value, r.key))
  {
    hide Bloom.Insert, Bloom.WellFormed;
    assert (rs + [r])[..|rs|] == rs;
    var ks := Keys(rs + [r]);
    assert ks[..|rs|] == Keys(rs) && ks[|rs|] == r.key;
  }

  lemma CutOne(blockSize: nat, rs: seq<Rec>, r: Rec)
    ensures var c := CutUp(blockSize, rs);
      var open := c.open + [r];
      CutUp(blockSize, rs + [r]) == if EstimatedSize(open) >= blockSize then Cut(c.full + [open], []) else Cut(c.full, open)
  {
    hide EstimatedSize;
    assert (rs + [r])[..|rs|] == rs;
  }

  lemma FileParts(header: seq<byte>, region: seq<byte>, filter: seq<byte>, index: seq<byte>, footer: seq<byte>)
    requires |header| == FILE_HEADER_SIZE
    ensures header + (Zeros(HEADER_REGION) + region + filter + index + footer)[FILE_HEADER_SIZE..] ==
      header + (Zeros(HEADER_REGION - FILE_HEADER_SIZE) + (region + (filter + (index + footer))))
  {
    var rest := region + (filter + (index + footer));
    assert Zeros(HEADER_REGION) + region + filter + index + footer == Zeros(HEADER_REGION) + rest;
    assert (Zeros(HEADER_REGION) + rest)[FILE_HEADER_SIZE..] == Zeros(HEADER_REGION - FILE_HEADER_SIZE) + rest;
  }
}
