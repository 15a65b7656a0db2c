/** Scans and lookups of a finished table, proved from its bytes. */
module SstLookup {
  import opened Bytes
  import opened Records
  import opened Block
  import opened BlockTheorems
  import opened SstFormat
  import opened SstWriter
  import opened SstReader
  import opened SstLists
  import opened SstTheorems
  import Bloom

  // ----- header totals -----

  lemma {:induction false} HighIsMax(rs: seq<Rec>)
    ensures HighSeqno(rs) == MaxSeqno(rs)
  {
    if rs != [] {
      var front, last := rs[..|rs| - 1], rs[|rs| - 1];
      HighIsMax(front);
      var h, m := HighSeqno(rs), MaxSeqno(rs);
      assert forall i :: 0 <= i < |front| ==> front[i] == rs[i];
      if m > 0 {
        var i :| 0 <= i < |rs| && rs[i].seqno == m;
        assert i < |front| ==> front[i].seqno <= MaxSeqno(front);
      }
      if MaxSeqno(front) > 0 {
        var i :| 0 <= i < |front| && front[i].seqno == MaxSeqno(front);
        assert rs[i].seqno <= m;
      }
    }
  }

  predicate IsLeast(rs: seq<Rec>, n: nat) {
    && (exists i :: 0 <= i < |rs| && rs[i].seqno == n)
    && forall i :: 0 <= i < |rs| ==> n <= rs[i].seqno
  }

  lemma {:induction false} LowIsLeast(rs: seq<Rec>)
    requires rs != [] && AllFit(rs)
    ensures IsLeast(rs, LowSeqno(rs))
  {
    var front, last := rs[..|rs| - 1], rs[|rs| - 1];
    assert Fits(last);
    if front != [] {
      LowIsLeast(front);
      var i :| 0 <= i < |front| && front[i].seqno == LowSeqno(front);
      assert rs[i] == front[i];
      forall j | 0 <= j < |rs| ensures LowSeqno(rs) <= rs[j].seqno { assert j < |front| ==> front[j] == rs[j]; }
    } else {
      assert LowSeqno(front) == U64_LIMIT - 1;
    }
  }

  /** The header's entry count and largest sequence number are exact; its smallest one
      is exact unless every record carries the largest 64-bit value. */
  lemma HeaderIsExact(cfg: Config, blocks: seq<seq<Rec>>, rs: seq<Rec>)
    requires AllFit(rs) && rs != []
    ensures var h := HeaderOf(cfg, blocks, rs);
      && h.numEntries == |rs| && h.numBlocks == |blocks| && h.maxSeqno == MaxSeqno(rs)
      && (IsLeast(rs, h.minSeqno) <==> exists i :: 0 <= i < |rs| && rs[i].seqno != U64_LIMIT - 1)
  {
    hide BlockOffset;
    HighIsMax(rs);
    LowIsLeast(rs);
    var low := LowSeqno(rs);
    var i :| 0 <= i < |rs| && rs[i].seqno == low;
    forall j | 0 <= j < |rs| ensures Fits(rs[j]) && low <= rs[j].seqno {}
  }

  // ----- what a reader must hold for its blocks to be found -----

  /** The reader's index describes the blocks, and its file has them where it says. */
  ghost predicate Stores(cfg: Config, t: Reader, blocks: seq<seq<Rec>>) {
    && Lawful(cfg.crypto)
    && BlocksFit(cfg, blocks) && BlockFits(Index(cfg, blocks))
    && t.indexBytes == BlockBytes(cfg.crc, Index(cfg, blocks))
    && forall i :: 0 <= i < |blocks| ==> Stored(cfg, t, blocks, i)
  }

  predicate Stored(cfg: Config, t: Reader, blocks: seq<seq<Rec>>, i: nat)
    requires i < |blocks|
  {
    var d := BlockDisk(cfg, blocks, i);
    ReadAt(t.file, BlockOffset(cfg, blocks, i), |d|) == Ok(d)
  }

  lemma StoresAt(cfg: Config, t: Reader, blocks: seq<seq<Rec>>, i: nat)
    requires Stores(cfg, t, blocks) && i < |blocks|
    ensures Lawful(cfg.crypto) && Stored(cfg, t, blocks, i) && BlockFits(blocks[i])
    ensures |BlockDisk(cfg, blocks, i)| < U32_LIMIT && BlockOffset(cfg, blocks, i) < U64_LIMIT
  {
    hide Lawful, BlockFits, BlockDisk, BlockOffset, Stored, Index;
  }

  lemma IndexShape(cfg: Config, blocks: seq<seq<Rec>>)
    ensures |Index(cfg, blocks)| == |blocks|
    ensures forall i :: 0 <= i < |blocks| ==>
      Index(cfg, blocks)[i].key == LastKey(blocks[i]) && Index(cfg, blocks)[i].value == EncodeHandle(BlockHandle(cfg, blocks, i))
  {
    hide BlockHandle, EncodeHandle, LastKey;
  }

  lemma UnsealSealed(cfg: Config, off: nat, plain: seq<byte>)
    requires Lawful(cfg.crypto)
    ensures Unseal(cfg, off, OnDisk(cfg, off, plain)) == Ok(plain)
  {
  }

  lemma HandleShape(cfg: Config, blocks: seq<seq<Rec>>, i: nat)
    requires i < |blocks|
    ensures var h, d := BlockHandle(cfg, blocks, i), BlockDisk(cfg, blocks, i);
      && h.offset == BlockOffset(cfg, blocks, i) && h.length == |d| && h.checksum < U32_LIMIT
      && d == OnDisk(cfg, BlockOffset(cfg, blocks, i), BlockBytes(cfg.crc, blocks[i]))
  {
    hide BlockOffset, OnDisk, FromLe;
    BlockIsLong(cfg.crc, blocks[i]);
    hide BlockBytes;
    Pow256Values();
  }

  /** Loading a block through its handle gives the block that was written. */
  lemma LoadWritten(cfg: Config, t: Reader, blocks: seq<seq<Rec>>, i: nat)
    requires Stores(cfg, t, blocks) && i < |blocks|
    ensures LoadBlock(cfg, t, BlockHandle(cfg, blocks, i)) == Ok(Written(blocks[i]))
  {
    hide *;
    StoresAt(cfg, t, blocks, i);
    HandleShape(cfg, blocks, i);
    UnsealSealed(cfg, BlockOffset(cfg, blocks, i), BlockBytes(cfg.crc, blocks[i]));
    StoredReads(cfg, t, blocks, i);
    FitsSize(blocks[i]);
    OpenFinished(cfg.crc, blocks[i]);
    LoadUnfolds(cfg, t, BlockHandle(cfg, blocks, i), BlockDisk(cfg, blocks, i), BlockBytes(cfg.crc, blocks[i]));
  }

  lemma StoredReads(cfg: Config, t: Reader, blocks: seq<seq<Rec>>, i: nat)
    requires i < |blocks| && Stored(cfg, t, blocks, i)
    ensures ReadAt(t.file, BlockOffset(cfg, blocks, i), |BlockDisk(cfg, blocks, i)|) == Ok(BlockDisk(cfg, blocks, i))
  {
    hide ReadAt, BlockOffset, BlockDisk;
  }

  lemma FitsSize(b: seq<Rec>)
    requires BlockFits(b)
    ensures AllFit(b) && EstimatedSize(b) < U32_LIMIT
  {
    hide AllFit, EstimatedSize;
  }

  lemma LoadUnfolds(cfg: Config, t: Reader, h: Handle, disk: seq<byte>, plain: seq<byte>)
    requires ReadAt(t.file, h.offset, h.length) == Ok(disk) && Unseal(cfg, h.offset, disk) == Ok(plain)
    ensures LoadBlock(cfg, t, h) == OpenBlock(cfg.crc, plain)
  {
    hide ReadAt, Unseal, OpenBlock;
  }

  /** Opening the index gives one entry a block. */
  lemma IndexOpens(cfg: Config, t: Reader, blocks: seq<seq<Rec>>)
    requires Stores(cfg, t, blocks)
    ensures var index := Index(cfg, blocks);
      && OpenBlock(cfg.crc, t.indexBytes) == Ok(Written(index))
      && Iterate(Written(index).records, 0, []) == index && BlockFits(index)
  {
    var index := Index(cfg, blocks);
    assert t.indexBytes == BlockBytes(cfg.crc, index) && BlockFits(index) by {
      hide Lawful, BlocksFit, BlockFits, BlockBytes, Index, Stored;
    }
    hide *;
    FitsSize(index);
    OpenFinished(cfg.crc, index);
    WrittenIterates(index);
  }

  lemma WrittenIterates(b: seq<Rec>)
    requires AllFit(b)
    ensures Iterate(Written(b).records, 0, []) == b
  {
    hide Body, RestartBytes, Iterate, AllFit;
    IterationRoundTrips(b);
  }

  lemma EntryHandle(cfg: Config, t: Reader, blocks: seq<seq<Rec>>, i: nat)
    requires Stores(cfg, t, blocks) && i < |blocks|
    ensures i < |Index(cfg, blocks)| && Index(cfg, blocks)[i].key == LastKey(blocks[i])
    ensures DecodeHandle(Index(cfg, blocks)[i].value) == Ok(BlockHandle(cfg, blocks, i))
  {
    hide Stores, Index, BlockHandle, BlockDisk, BlockOffset, EncodeHandle, DecodeHandle, OnDisk, BlockBytes, Lawful, Stored, BlockFits, LastKey;
    StoresAt(cfg, t, blocks, i);
    HandleShape(cfg, blocks, i);
    IndexShape(cfg, blocks);
    var h := BlockHandle(cfg, blocks, i);
    assert HandleFits(h);
    HandleRoundTrip(h, []);
    assert EncodeHandle(h) + [] == EncodeHandle(h);
  }

  lemma BlockIterates(cfg: Config, t: Reader, blocks: seq<seq<Rec>>, i: nat)
    requires Stores(cfg, t, blocks) && i < |blocks|
    ensures BlockRecords(cfg, t, BlockHandle(cfg, blocks, i)) == Ok(blocks[i])
  {
    hide Stores, LoadBlock, Iterate, BlockHandle, Written, BlockFits, AllFit, EstimatedSize, Lawful, Stored, BlockDisk, BlockOffset;
    StoresAt(cfg, t, blocks, i);
    LoadWritten(cfg, t, blocks, i);
    FitsSize(blocks[i]);
    WrittenIterates(blocks[i]);
  }

  // ----- scanning -----

  lemma {:induction false} ScanPrefix(cfg: Config, t: Reader, blocks: seq<seq<Rec>>, n: nat)
    requires Stores(cfg, t, blocks) && n <= |blocks| == |Index(cfg, blocks)|
    ensures ScanEntries(cfg, t, Index(cfg, blocks)[..n]) == Ok(Flatten(blocks[..n]))
    decreases n
  {
    hide Index, Stores, BlockRecords, DecodeHandle, BlockHandle;
    if n > 0 {
      ScanPrefix(cfg, t, blocks, n - 1);
      EntryHandle(cfg, t, blocks, n - 1);
      BlockIterates(cfg, t, blocks, n - 1);
      var index := Index(cfg, blocks);
      assert index[..n][..n - 1] == index[..n - 1] && blocks[..n][..n - 1] == blocks[..n - 1];
    }
  }

  lemma ScanStored(cfg: Config, t: Reader, blocks: seq<seq<Rec>>)
    requires Stores(cfg, t, blocks)
    ensures Scan(cfg, t) == Ok(Flatten(blocks))
  {
    hide Stores, Index, OpenBlock, Iterate, ScanEntries, Written, Flatten, BlockFits;
    IndexShape(cfg, blocks);
    IndexOpens(cfg, t, blocks);
    ScanPrefix(cfg, t, blocks, |blocks|);
    assert Index(cfg, blocks)[..|blocks|] == Index(cfg, blocks) && blocks[..|blocks|] == blocks;
  }

  function HandlesOf(cfg: Config, blocks: seq<seq<Rec>>): (hs: seq<Handle>)
    ensures |hs| == |blocks| && forall i :: 0 <= i < |blocks| ==> hs[i] == BlockHandle(cfg, blocks, i)
  {
    seq(|blocks|, i requires 0 <= i < |blocks| => BlockHandle(cfg, blocks, i))
  }

  lemma {:induction false} HandlesPrefix(cfg: Config, t: Reader, blocks: seq<seq<Rec>>, n: nat)
    requires Stores(cfg, t, blocks) && n <= |blocks| == |Index(cfg, blocks)|
    ensures DecodeHandles(Index(cfg, blocks)[..n]) == Ok(HandlesOf(cfg, blocks)[..n])
    decreases n
  {
    hide Index, Stores, DecodeHandle, BlockHandle;
    if n > 0 {
      HandlesPrefix(cfg, t, blocks, n - 1);
      EntryHandle(cfg, t, blocks, n - 1);
      var index, hs := Index(cfg, blocks), HandlesOf(cfg, blocks);
      assert index[..n][..n - 1] == index[..n - 1];
      assert hs[..n] == hs[..n - 1] + [hs[n - 1]];
    }
  }

  lemma {:induction false} YieldSuffix(cfg: Config, t: Reader, blocks: seq<seq<Rec>>, i: nat)
    requires Stores(cfg, t, blocks) && i <= |blocks|
    ensures Yield(cfg, t, HandlesOf(cfg, blocks)[i..]) == Yielded(Flatten(blocks[i..]), None)
    decreases |blocks| - i
  {
    hide Stores, BlockRecords, BlockHandle;
    var hs := HandlesOf(cfg, blocks);
    if i < |blocks| {
      YieldSuffix(cfg, t, blocks, i + 1);
      BlockIterates(cfg, t, blocks, i);
      assert hs[i..][0] == hs[i] && hs[i..][1..] == hs[i + 1..];
      assert blocks[i..] == [blocks[i]] + blocks[i + 1..];
      FlattenFront(blocks[i], blocks[i + 1..]);
    }
  }

  lemma StreamStored(cfg: Config, t: Reader, blocks: seq<seq<Rec>>)
    requires Stores(cfg, t, blocks)
    ensures IndexHandles(cfg, t).Ok? && Yield(cfg, t, IndexHandles(cfg, t).value) == Yielded(Flatten(blocks), None)
  {
    hide Stores, Index, OpenBlock, Iterate, Yield, HandlesOf, DecodeHandles, Written, Flatten, BlockFits, BlockHandle;
    IndexShape(cfg, blocks);
    IndexOpens(cfg, t, blocks);
    HandlesPrefix(cfg, t, blocks, |blocks|);
    YieldSuffix(cfg, t, blocks, 0);
    var index, hs := Index(cfg, blocks), HandlesOf(cfg, blocks);
    assert index[..|blocks|] == index && hs[..|blocks|] == hs && hs[0..] == hs && blocks[0..] == blocks;
  }

  // ----- lookups -----

  lemma {:induction false} SameFirst(a: seq<Rec>, b: seq<Rec>, key: Key, from: nat)
    requires |a| == |b| && from <= |a| && forall i :: 0 <= i < |a| ==> a[i].key == b[i].key
    ensures FirstAtLeast(a, key, from) == FirstAtLeast(b, key, from)
    decreases |a| - from
  {
    if from < |a| && Less(a[from].key, key) { SameFirst(a, b, key, from + 1); }
  }

  /** A seek looks at keys only. */
  lemma SameSeek(a: seq<Rec>, b: seq<Rec>, key: Key)
    requires |a| == |b| && forall i :: 0 <= i < |a| ==> a[i].key == b[i].key
    ensures SeekIndex(a, key) == SeekIndex(b, key)
  {
    hide FirstAtLeast, Landing;
    assert RestartKeys(a) == RestartKeys(b);
    SameFirst(a, b, key, RESTART_INTERVAL * Land(a, key));
  }

  /** The index lookup goes to the block its last keys point at. */
  lemma LocateStored(cfg: Config, t: Reader, blocks: seq<seq<Rec>>, key: Key)
    requires Stores(cfg, t, blocks)
    ensures var i := Target(blocks, key);
      LocateBlock(cfg, t, key) == Ok(if i == |blocks| then None else Some(BlockHandle(cfg, blocks, i)))
  {
    hide Stores, Index, OpenBlock, Iterate, SeekIndex, DecodeHandle, BlockHandle, Written, Seek, BlockFits, EncodeHandle;
    var index := Index(cfg, blocks);
    IndexShape(cfg, blocks);
    IndexOpens(cfg, t, blocks);
    SeekWritten(index, key);
    SameSeek(index, LastKeys(blocks), key);
    var i := Target(blocks, key);
    if i < |blocks| { EntryHandle(cfg, t, blocks, i); }
  }

  lemma GetInBlockWritten(b: seq<Rec>, key: Key, snap: nat)
    requires BlockFits(b)
    ensures GetInBlock(Written(b), key, snap) == At(b, GetIndexInBlock(b, key, snap))
  {
    hide Body, RestartBytes, Iterate, Settle, GetIndexInBlock, SeekIndex, Seek, EstimatedSize, AllFit, At;
    IterationRoundTrips(b);
    SeekWritten(b, key);
    SettleIsIndex(b, key, snap);
  }

  lemma GetUnfolds(cfg: Config, t: Reader, key: Key, snap: nat)
    requires t.bloom.None? || Bloom.Contains(cfg.hash, t.bloom.value, key)
    ensures LocateBlock(cfg, t, key) == Ok(None) ==> Get(cfg, t, key, snap) == Ok(None)
    ensures forall h, b :: LocateBlock(cfg, t, key) == Ok(Some(h)) && LoadBlock(cfg, t, h) == Ok(b) ==>
      Get(cfg, t, key, snap) == Ok(GetInBlock(b, key, snap))
  {
    hide LocateBlock, LoadBlock, GetInBlock, Bloom.Contains;
  }

  /** Past the filter, a lookup in the bytes is the lookup in the list. */
  lemma GetStored(cfg: Config, t: Reader, blocks: seq<seq<Rec>>, key: Key, snap: nat)
    requires Stores(cfg, t, blocks) && (t.bloom.None? || Bloom.Contains(cfg.hash, t.bloom.value, key))
    ensures Get(cfg, t, key, snap) == Ok(At(Flatten(blocks), GetIndex(blocks, key, snap)))
  {
    hide Stores, Get, LocateBlock, LoadBlock, GetInBlock, BlockHandle, Written, Flatten, Start, BlockFits, Bloom.Contains, GetIndexInBlock, Target, Lawful, Stored, BlockDisk, BlockOffset;
    var i := Target(blocks, key);
    GetUnfolds(cfg, t, key, snap);
    LocateStored(cfg, t, blocks, key);
    if i < |blocks| {
      StoresAt(cfg, t, blocks, i);
      LoadWritten(cfg, t, blocks, i);
      GetInBlockWritten(blocks[i], key, snap);
      var k := GetIndexInBlock(blocks[i], key, snap);
      if k < |blocks[i]| { FlattenIndex(blocks, i, k); }
    }
  }

  /** Nothing to find means nothing is found. */
  lemma AbsentIsAbsent(blocks: seq<seq<Rec>>, key: Key, snap: nat)
    requires Sorted(Flatten(blocks)) && forall i :: 0 <= i < |Flatten(blocks)| ==> Flatten(blocks)[i].key != key
    ensures GetIndex(blocks, key, snap) == |Flatten(blocks)|
  {
    hide GetIndex, Flatten;
    GetExactAt(blocks, key, snap);
  }

  /** A key the filter refuses is in no record. */
  lemma RefusedIsAbsent(cfg: Config, filter: Option<Bloom.Filter>, rs: seq<Rec>, key: Key)
    requires FilterOk(filter) && filter.Some?
    requires !Bloom.Contains(cfg.hash, FilterOf(cfg, filter, rs).value, key)
    ensures forall i :: 0 <= i < |rs| ==> rs[i].key != key
  {
    hide Bloom.Contains, Bloom.InsertAll, Bloom.WellFormed;
    var keys := Keys(rs);
    forall i | 0 <= i < |rs| ensures rs[i].key != key {
      if rs[i].key == key {
        assert keys[i] == key;
        Bloom.NoFalseNegatives(cfg.hash, filter.value, keys, key);
      }
    }
  }

  // ----- finished tables -----

  lemma ReadBlock(cfg: Config, filter: Option<Bloom.Filter>, rs: seq<Rec>, i: nat)
    requires FilterOk(filter) && i < |Blocks(cfg.blockSize, rs)|
    ensures Stored(cfg, ReaderOf(cfg, filter, rs), Blocks(cfg.blockSize, rs), i)
  {
    hide Blocks, Region, PartsOf, ReaderOf, FilterOk, BlockDisk, Join, TableBytes, ReadAt;
    var blocks, p := Blocks(cfg.blockSize, rs), PartsOf(cfg, filter, rs);
    var at, d := |Region(cfg, blocks[..i])|, BlockDisk(cfg, blocks, i);
    PartsAre(cfg, filter, rs);
    RegionAt(cfg, blocks, i);
    ReadRegion(p.header, p.zeros, p.region, p.filter + (p.index + p.footer), at, d);
    JoinIs(p);
  }

  lemma JoinIs(p: Parts)
    ensures Join(p) == p.header + (p.zeros + (p.region + (p.filter + (p.index + p.footer))))
  {
  }

  lemma ReaderShape(cfg: Config, filter: Option<Bloom.Filter>, rs: seq<Rec>)
    requires FilterOk(filter)
    ensures var t := ReaderOf(cfg, filter, rs);
      && t.bloom == FilterOf(cfg, filter, rs) && (t.bloom.Some? <==> filter.Some?)
      && t.indexBytes == BlockBytes(cfg.crc, Index(cfg, Blocks(cfg.blockSize, rs)))
  {
    hide Blocks, Index, BlockBytes, HeaderOf, FooterOf, TableBytes, Bloom.InsertAll, FilterBytes;
  }

  /** A finished table stores its blocks. */
  lemma WrittenStores(cfg: Config, filter: Option<Bloom.Filter>, rs: seq<Rec>)
    requires FilterOk(filter) && TableFits(cfg, filter, rs) && Lawful(cfg.crypto)
    ensures Stores(cfg, ReaderOf(cfg, filter, rs), Blocks(cfg.blockSize, rs))
  {
    hide Blocks, ReaderOf, FilterOk, TableFits, Lawful, BlocksFit, BlockFits, Index, BlockBytes, Stored, FilterOf, AllFit, FilterBytes;
    var blocks := Blocks(cfg.blockSize, rs);
    FitsSizes(cfg, filter, rs);
    ReaderShape(cfg, filter, rs);
    forall i | 0 <= i < |blocks| ensures Stored(cfg, ReaderOf(cfg, filter, rs), blocks, i) { ReadBlock(cfg, filter, rs, i); }
  }

  /** Writing a table, opening it and scanning it gives back exactly the records, in
      order, both at once and as a stream. */
  lemma ScanIsIdentity(cfg: Config, filter: Option<Bloom.Filter>, rs: seq<Rec>)
    requires FilterOk(filter) && TableFits(cfg, filter, rs) && Lawful(cfg.crypto)
    ensures OpenTable(cfg, TableBytes(cfg, filter, rs)).Ok?
    ensures var t := OpenTable(cfg, TableBytes(cfg, filter, rs)).value;
      && Scan(cfg, t) == Ok(rs)
      && IndexHandles(cfg, t).Ok? && Yield(cfg, t, IndexHandles(cfg, t).value) == Yielded(rs, None)
  {
    hide *;
    OpenWritten(cfg, filter, rs);
    WrittenStores(cfg, filter, rs);
    ScanStored(cfg, ReaderOf(cfg, filter, rs), Blocks(cfg.blockSize, rs));
    StreamStored(cfg, ReaderOf(cfg, filter, rs), Blocks(cfg.blockSize, rs));
    BlocksPartition(cfg.blockSize, rs);
  }

  lemma RefusedGet(cfg: Config, t: Reader, key: Key, snap: nat)
    requires t.bloom.Some? && !Bloom.Contains(cfg.hash, t.bloom.value, key)
    ensures Get(cfg, t, key, snap) == Ok(None)
  {
    hide Bloom.Contains;
  }

  lemma AtEnd(rs: seq<Rec>)
    ensures At(rs, |rs|) == None
  {
  }

  /** Filter, index, block and the skipping loop together: a lookup in the bytes of a
      finished table gives the record at the position its list predicts. */
  lemma GetWritten(cfg: Config, filter: Option<Bloom.Filter>, rs: seq<Rec>, key: Key, snap: nat)
    requires FilterOk(filter) && TableFits(cfg, filter, rs) && Lawful(cfg.crypto) && Sorted(rs)
    ensures Get(cfg, ReaderOf(cfg, filter, rs), key, snap) == Ok(At(rs, GetIndex(Blocks(cfg.blockSize, rs), key, snap)))
  {
    hide *;
    var t, blocks := ReaderOf(cfg, filter, rs), Blocks(cfg.blockSize, rs);
    ReaderShape(cfg, filter, rs);
    BlocksPartition(cfg.blockSize, rs);
    if t.bloom.Some? && !Bloom.Contains(cfg.hash, t.bloom.value, key) {
      RefusedIsAbsent(cfg, filter, rs, key);
      AbsentIsAbsent(blocks, key, snap);
      RefusedGet(cfg, t, key, snap);
      AtEnd(rs);
    } else {
      WrittenStores(cfg, filter, rs);
      GetStored(cfg, t, blocks, key, snap);
    }
  }

  /** Every snapshot of a key is answered from the bytes of a finished table as a linear
      search over its records would, if and only if the lookup lands right. */
  lemma GetIsFindIff(cfg: Config, filter: Option<Bloom.Filter>, rs: seq<Rec>, key: Key)
    requires FilterOk(filter) && TableFits(cfg, filter, rs) && Lawful(cfg.crypto) && Sorted(rs)
    ensures (forall snap: nat :: Get(cfg, ReaderOf(cfg, filter, rs), key, snap) == Ok(Find(rs, key, snap))) <==>
            LandsRight(Blocks(cfg.blockSize, rs), key)
  {
    hide Blocks, ReaderOf, FilterOk, TableFits, Lawful, GetIndex, Flatten, NoneEmpty, Get, Find, Sorted, LandsRight, At;
    var blocks := Blocks(cfg.blockSize, rs);
    BlocksPartition(cfg.blockSize, rs);
    AnswersIff(blocks, key);
    forall snap: nat
      ensures Get(cfg, ReaderOf(cfg, filter, rs), key, snap) == Ok(At(rs, GetIndex(blocks, key, snap)))
    {
      GetWritten(cfg, filter, rs, key, snap);
    }
  }

  lemma GetIsFind(cfg: Config, filter: Option<Bloom.Filter>, rs: seq<Rec>, key: Key, snap: nat)
    requires FilterOk(filter) && TableFits(cfg, filter, rs) && Lawful(cfg.crypto) && Sorted(rs)
    requires LandsRight(Blocks(cfg.blockSize, rs), key)
    ensures Get(cfg, ReaderOf(cfg, filter, rs), key, snap) == Ok(Find(rs, key, snap))
  {
    hide *;
    GetIsFindIff(cfg, filter, rs, key);
  }

  /** Where it does not land right, some version of the key misreads at its own number. */
  lemma GetWrongAt(cfg: Config, filter: Option<Bloom.Filter>, rs: seq<Rec>, key: Key) returns (p: nat)
    requires FilterOk(filter) && TableFits(cfg, filter, rs) && Lawful(cfg.crypto) && Sorted(rs)
    requires !LandsRight(Blocks(cfg.blockSize, rs), key)
    ensures p < |rs| && rs[p].key == key
    ensures Get(cfg, ReaderOf(cfg, filter, rs), key, rs[p].seqno) != Ok(Find(rs, key, rs[p].seqno))
  {
    hide *;
    BlocksPartition(cfg.blockSize, rs);
    p := WrongAt(Blocks(cfg.blockSize, rs), key);
    GetWritten(cfg, filter, rs, key, rs[p].seqno);
  }

  /** Whatever is found is a record of the table with the key, visible at the snapshot;
      nothing visible is never found. */
  lemma GetFrom(cfg: Config, filter: Option<Bloom.Filter>, rs: seq<Rec>, key: Key, snap: nat)
    requires FilterOk(filter) && TableFits(cfg, filter, rs) && Lawful(cfg.crypto) && Sorted(rs)
    ensures var r := Get(cfg, ReaderOf(cfg, filter, rs), key, snap);
      r.Ok? && (r.value.Some? ==> r.value.value in rs && r.value.value.key == key && r.value.value.seqno <= snap)
  {
    hide Blocks, ReaderOf, FilterOk, TableFits, Lawful, GetIndex, Flatten, Get, Sorted, NoneEmpty;
    BlocksPartition(cfg.blockSize, rs);
    GetWritten(cfg, filter, rs, key, snap);
    GetIndexVisible(Blocks(cfg.blockSize, rs), key, snap);
  }

  lemma GetIndexVisible(blocks: seq<seq<Rec>>, key: Key, snap: nat)
    ensures var (all, g) := (Flatten(blocks), GetIndex(blocks, key, snap));
      g < |all| ==> Visible(all[g], key, snap)
  {
    hide Flatten, Start, SeekIndex, FindIndex;
    var i := Target(blocks, key);
    if i < |blocks| {
      var k := GetIndexInBlock(blocks[i], key, snap);
      if k < |blocks[i]| { FlattenIndex(blocks, i, k); }
    }
  }
}
