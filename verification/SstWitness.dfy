/** Why point lookup needs its hypothesis: a table holding more than sixteen versions
    of one key answers from the middle of the run. */
module SstWitness {
  import opened Bytes
  import opened Records
  import opened Varint
  import opened Block
  import opened BlockTheorems
  import opened SstFormat
  import opened SstWriter
  import opened SstReader
  import opened SstLists
  import opened SstTheorems
  import opened SstLookup
  import Bloom

  lemma GrowingEstimate(rs: seq<Rec>, r: Rec)
    ensures EstimatedSize(rs) <= EstimatedSize(rs + [r])
  {
    hide RecordBytes, Body, SharedAt;
    BodyAppend(rs, r);
  }

  /** A list below the block size is one block. */
  lemma {:induction false} SmallIsOpen(blockSize: nat, rs: seq<Rec>)
    requires EstimatedSize(rs) < blockSize
    ensures CutUp(blockSize, rs) == Cut([], rs)
  {
    hide EstimatedSize, CutUp;
    if rs == [] {
      CutOfNothing(blockSize);
    } else {
      var front, last := rs[..|rs| - 1], rs[|rs| - 1];
      assert rs == front + [last];
      GrowingEstimate(front, last);
      SmallIsOpen(blockSize, front);
      CutOne(blockSize, front, last);
    }
  }

  lemma SmallIsOneBlock(blockSize: nat, rs: seq<Rec>)
    requires rs != [] && EstimatedSize(rs) < blockSize
    ensures Blocks(blockSize, rs) == [rs]
  {
    hide EstimatedSize, CutUp;
    SmallIsOpen(blockSize, rs);
  }

  predicate OneKey(rs: seq<Rec>, key: Key, snap: nat) {
    forall i :: 0 <= i < |rs| ==> rs[i].key == key && rs[i].seqno <= snap
  }

  /** Any small table with more than sixteen versions of one key: linear search gives
      the newest, the lookup gives one from the middle. */
  lemma OneKeyTableReadsStale(cfg: Config, filter: Option<Bloom.Filter>, rs: seq<Rec>, key: Key, snap: nat)
    requires FilterOk(filter) && TableFits(cfg, filter, rs) && Lawful(cfg.crypto) && Sorted(rs)
    requires |rs| > RESTART_INTERVAL && OneKey(rs, key, snap) && EstimatedSize(rs) < cfg.blockSize
    ensures var m := RESTART_INTERVAL * (RestartCount(|rs|) / 2);
      && 0 < m < |rs| && Get(cfg, ReaderOf(cfg, filter, rs), key, snap) == Ok(Some(rs[m]))
      && Find(rs, key, snap) == Some(rs[0])
  {
    hide Blocks, ReaderOf, FilterOk, TableFits, Lawful, GetIndex, Flatten, Get, FindIndex, Sorted, EstimatedSize;
    SmallIsOneBlock(cfg.blockSize, rs);
    OneKeyTableGoesStale(rs, key, snap);
    GetWritten(cfg, filter, rs, key, snap);
  }

  // ----- a concrete table -----

  /** Versions n, n - 1, ..., 1 of the key "k", each holding its own number. */
  function Versions(n: nat): (rs: seq<Rec>)
    requires n < 256
    ensures |rs| == n && forall i :: 0 <= i < n ==> rs[i] == Rec([107], n - i, Live, [n - i])
  {
    seq(n, i requires 0 <= i < n => Rec([107], n - i, Live, [n - i]))
  }

  function PlainConfig(): Config {
    Config(_ => 0, _ => 0, Plain, DEFAULT_BLOCK_SIZE, 0)
  }

  lemma RecordBound(r: Rec, shared: nat)
    requires Fits(r) && shared <= |r.key|
    ensures |RecordBytes(r, shared)| <= 24 + |r.key| + |r.value|
  {
    hide Leb, DecodeU32, ToLe, OpByte;
    RoundTripU32(shared, []);
    RoundTripU32(|r.key| - shared, []);
    RoundTripU32(|r.value|, []);
  }

  lemma OneMore(n: nat, c: nat)
    ensures (n + 1) * c == n * c + c
  {
  }

  lemma {:induction false} BodyBound(rs: seq<Rec>, m: nat)
    requires AllFit(rs) && forall i :: 0 <= i < |rs| ==> |rs[i].key| + |rs[i].value| <= m
    ensures |Body(rs)| <= |rs| * (24 + m)
  {
    hide RecordBytes, Fits, SharedAt, Body;
    if rs == [] {
      EmptyBlock();
    } else {
      var front, last := rs[..|rs| - 1], rs[|rs| - 1];
      BodyBound(front, m);
      assert rs == front + [last];
      BodyAppend(front, last);
      RecordBound(last, SharedAt(rs, |front|));
      OneMore(|front|, 24 + m);
    }
  }

  lemma EstimateBound(rs: seq<Rec>, m: nat)
    requires AllFit(rs) && forall i :: 0 <= i < |rs| ==> |rs[i].key| + |rs[i].value| <= m
    ensures EstimatedSize(rs) <= |rs| * (24 + m) + 4 * |rs| + TRAILER
  {
    hide Body, AllFit;
    BodyBound(rs, m);
  }

  lemma VersionsFit(n: nat)
    requires n < 256
    ensures AllFit(Versions(n)) && EstimatedSize(Versions(n)) <= 30 * n + TRAILER
    ensures Sorted(Versions(n)) && OneKey(Versions(n), [107], n)
  {
    hide EstimatedSize;
    var rs := Versions(n);
    EstimateBound(rs, 2);
    LessIrreflexive([107]);
  }

  /** The sizes of a one-block table in the clear. */
  lemma OneBlockFits(cfg: Config, rs: seq<Rec>)
    requires cfg.crypto.Plain? && rs != [] && AllFit(rs) && EstimatedSize(rs) < 10000 < cfg.blockSize && |rs| < 256
    requires |LastKey(rs)| < 100
    ensures TableFits(cfg, None, rs)
  {
    hide *;
    SmallIsOneBlock(cfg.blockSize, rs);
    OneIndexFits(cfg, rs);
    OneBlocksFit(cfg, rs);
    OneBlockSize(cfg, rs);
    FitsIntro(cfg, rs);
  }

  lemma OneBlocksFit(cfg: Config, rs: seq<Rec>)
    requires cfg.crypto.Plain? && AllFit(rs) && EstimatedSize(rs) < 10000
    ensures BlocksFit(cfg, [rs])
  {
    hide EstimatedSize, AllFit, BlockBytes, BlockOffset;
    EstimateIsExact(cfg.crc, rs);
    FirstOffset(cfg, rs);
  }

  lemma FitsIntro(cfg: Config, rs: seq<Rec>)
    requires Blocks(cfg.blockSize, rs) == [rs] && AllFit(rs) && |rs| < 256
    requires BlocksFit(cfg, [rs]) && BlockFits(Index(cfg, [rs])) && |TableBytes(cfg, None, rs)| < U64_LIMIT
    ensures TableFits(cfg, None, rs)
  {
    hide Blocks, AllFit, BlocksFit, BlockFits, Index, TableBytes;
    NoFilter(cfg, rs);
  }

  lemma NoFilter(cfg: Config, rs: seq<Rec>)
    ensures FilterOf(cfg, None, rs) == None && FilterBytes(None) == []
  {
  }

  lemma FirstOffset(cfg: Config, rs: seq<Rec>)
    ensures BlockOffset(cfg, [rs], 0) == HEADER_REGION
  {
    hide BlockBytes, Padded;
    assert [rs][..0] == [];
  }

  lemma OneIndexFits(cfg: Config, rs: seq<Rec>)
    requires |LastKey(rs)| < 100
    ensures BlockFits(Index(cfg, [rs])) && EstimatedSize(Index(cfg, [rs])) < 1000
  {
    hide EstimatedSize, BlockHandle, LastKey;
    IndexShape(cfg, [rs]);
    var index := Index(cfg, [rs]);
    assert index[0].seqno == 0 by { hide EncodeHandle; }
    assert AllFit(index);
    EstimateBound(index, 116);
  }

  lemma OneBlockSize(cfg: Config, rs: seq<Rec>)
    requires cfg.crypto.Plain? && rs != [] && EstimatedSize(rs) < 10000 < cfg.blockSize
    requires EstimatedSize(Index(cfg, [rs])) < 1000
    ensures |TableBytes(cfg, None, rs)| < U64_LIMIT
  {
    hide EstimatedSize, BlockBytes, Index, EncodeHeader, EncodeFooter, HeaderOf, FooterOf, Pad;
    SmallIsOneBlock(cfg.blockSize, rs);
    hide Blocks;
    EstimateIsExact(cfg.crc, rs);
    EstimateIsExact(cfg.crc, Index(cfg, [rs]));
    NoFilter(cfg, rs);
    RegionAppend(cfg, [], rs);
    assert [] + [rs] == [rs] && Region(cfg, []) == [];
    hide Region;
  }

  /** Seventeen overwrites of one key, one flush: reading the latest snapshot returns
      the very first value written. */
  lemma SeventeenVersions()
    ensures var rs := Versions(17);
      && PlainConfig().blockSize == 16384 && TableFits(PlainConfig(), None, rs) && Sorted(rs)
      && Find(rs, [107], 17) == Some(Rec([107], 17, Live, [17]))
      && Get(PlainConfig(), ReaderOf(PlainConfig(), None, rs), [107], 17) == Ok(Some(Rec([107], 1, Live, [1])))
  {
    hide TableFits, Sorted, Find, Get, ReaderOf, EstimatedSize, AllFit, OneKey;
    var rs := Versions(17);
    VersionsFit(17);
    OneBlockFits(PlainConfig(), rs);
    OneKeyTableReadsStale(PlainConfig(), None, rs, [107], 17);
  }
}
