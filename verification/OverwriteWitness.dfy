/** A run after which a store reads an overwritten value: one key written more than
    sixteen times, then flushed to one table. */
module OverwriteWitness {
  import opened Bytes
  import opened Records
  import opened History
  import opened Layers
  import opened Engine
  import opened EngineInv
  import opened EngineTheorems
  import opened EngineWitness
  import opened StoreReads
  import opened SstTheorems
  import Block
  import SstWitness
  import SstWriter
  import SstReader
  import Batch

  /** One version per value, newest first. */
  function VersionsOf(key: Key, values: seq<seq<byte>>): (rs: seq<Rec>)
    ensures |rs| == |values| && forall i :: 0 <= i < |rs| ==> rs[i] == V(key, |rs| - i, values[|rs| - i - 1])
  {
    seq(|values|, i requires 0 <= i < |values| => V(key, |values| - i, values[|values| - i - 1]))
  }

  function Overwrites(key: Key, values: seq<seq<byte>>): seq<Event> {
    if values == [] then []
    else Overwrites(key, values[..|values| - 1]) + [DoCommit([Batch.Put(key, values[|values| - 1])])]
  }

  function OverwriteAndFlush(key: Key, values: seq<seq<byte>>): seq<Event> {
    Overwrites(key, values) + ([DoRotate, DoWriteTable] + [DoPublish])
  }

  /** A newer version of the only key goes in front. */
  lemma NewestInFront(key: Key, values: seq<seq<byte>>, value: seq<byte>)
    ensures Insert(VersionsOf(key, values), V(key, |values| + 1, value)) == VersionsOf(key, values + [value])
  {
    LessIrreflexive(key);
    var (rs, r) := (VersionsOf(key, values), V(key, |values| + 1, value));
    assert Position(rs, key, |values| + 1) == 0;
    assert Insert(rs, r) == [r] + rs;
  }

  ghost predicate Filled(w: World, key: Key, values: seq<seq<byte>>) {
    && w.db.seqno == |values| && w.db.mems == [Memtable(VersionsOf(key, values), 1)] && w.db.tables == []
    && w.db.nextFile == 2 && w.db.pending == Idle && 1 in w.db.disk.wals
  }

  lemma OneMore(w: World, key: Key, values: seq<seq<byte>>, value: seq<byte>)
    requires Filled(w, key, values)
    ensures var e := DoCommit([Batch.Put(key, value)]);
      Enabled(w, e) && Filled(Apply(w, e), key, values + [value])
  {
    hide ApplyBatch, Insert, VersionsOf;
    OnePut(VersionsOf(key, values), |values| + 1, key, value);
    NewestInFront(key, values, value);
  }

  lemma {:induction false} AfterOverwrites(key: Key, values: seq<seq<byte>>)
    ensures Possible(Start(), Overwrites(key, values)) && Filled(Run(Start(), Overwrites(key, values)), key, values)
  {
    hide Start, Apply, Enabled, Possible, Run, Filled;
    if values == [] {
      StartFilled(key);
    } else {
      var front, last := values[..|values| - 1], values[|values| - 1];
      AfterOverwrites(key, front);
      assert front + [last] == values;
      var w := Run(Start(), Overwrites(key, front));
      OneMore(w, key, front, last);
      RunMore(Start(), Overwrites(key, front), DoCommit([Batch.Put(key, last)]));
    }
  }

  lemma StartFilled(key: Key)
    ensures Possible(Start(), []) && Filled(Run(Start(), []), key, [])
  {
    hide Start;
    StartShape();
    assert VersionsOf(key, []) == [];
  }

  lemma FlushFilled(w: World, key: Key, values: seq<seq<byte>>)
    requires Filled(w, key, values)
    ensures Enabled(w, DoRotate) && Enabled(Apply(w, DoRotate), DoWriteTable)
    ensures var w' := Apply(Apply(w, DoRotate), DoWriteTable);
      Enabled(w', DoPublish) && Apply(w', DoPublish).db.tables == [Table(3, VersionsOf(key, values))]
      && Apply(w', DoPublish).db.mems == [Memtable([], 2)]
  {
    hide VersionsOf;
    assert DropWal([Memtable(VersionsOf(key, values), 1)], 1) == [];
  }

  lemma AfterFlush(key: Key, values: seq<seq<byte>>)
    ensures Possible(Start(), OverwriteAndFlush(key, values))
    ensures var w := Run(Start(), OverwriteAndFlush(key, values));
      w.db.tables == [Table(3, VersionsOf(key, values))] && w.db.mems == [Memtable([], 2)]
  {
    hide Start, Apply, Enabled, Possible, Run, Filled, VersionsOf, Overwrites;
    AfterOverwrites(key, values);
    var es := Overwrites(key, values);
    var w := Run(Start(), es);
    FlushFilled(w, key, values);
    RunTwo(Start(), es, DoRotate, DoWriteTable);
    RunMore(Start(), es + [DoRotate, DoWriteTable], DoPublish);
    Assoc(es, [DoRotate, DoWriteTable], [DoPublish]);
  }

  lemma {:induction false} OverwritesDoNotReopen(key: Key, values: seq<seq<byte>>)
    ensures NoReopen(Overwrites(key, values))
  {
    if values != [] { OverwritesDoNotReopen(key, values[..|values| - 1]); }
  }

  lemma HistoryHasLast(key: Key, values: seq<seq<byte>>, snap: nat)
    requires values != [] && snap == |values|
    ensures Possible(Start(), OverwriteAndFlush(key, values))
    ensures Newest(Run(Start(), OverwriteAndFlush(key, values)).hist, key, snap) == Some(V(key, |values|, values[|values| - 1]))
  {
    hide Start, Possible, Run, Good, Newest, Sources, Overwrites;
    AfterFlush(key, values);
    var es := OverwriteAndFlush(key, values);
    var w := Run(Start(), es);
    StartGood();
    OverwritesDoNotReopen(key, values);
    RunKeepsGood(Start(), es);
    GoodReads(w, key, snap);
    var rs := VersionsOf(key, values);
    FirstInTable(w.db, rs, key, snap);
  }

  lemma FirstInTable(s: State, rs: seq<Rec>, key: Key, snap: nat)
    requires s.mems == [Memtable([], 2)] && s.tables == [Table(3, rs)] && rs != [] && Visible(rs[0], key, snap)
    ensures FirstHit(Sources(s), key, snap) == Some(rs[0])
  {
    assert Sources(s) == [[], rs];
    assert [[], rs][1..] == [rs];
    assert Find(rs, key, snap) == Some(rs[0]);
  }

  /** However tables are written, if the versions fit one block: after more than sixteen
      overwrites and a flush, reading the latest snapshot from the table's bytes gives a
      value from the middle of the run, and not the last one written. */
  lemma OverwritesGoStale(key: Key, values: seq<seq<byte>>, o: Origin, t: SstReader.Reader)
    requires |values| > Block.RESTART_INTERVAL && Opens(o, t, VersionsOf(key, values))
    requires Block.EstimatedSize(VersionsOf(key, values)) < o.cfg.blockSize
    ensures Possible(Start(), OverwriteAndFlush(key, values))
    ensures var w := Run(Start(), OverwriteAndFlush(key, values));
      var n := |values|;
      var m := Block.RESTART_INTERVAL * (Block.RestartCount(n) / 2);
      && TableRecs(w.db.tables) == [VersionsOf(key, values)]
      && Newest(w.hist, key, n) == Some(V(key, n, values[n - 1]))
      && 0 < m < n && StoreGet(MemRecs(w.db.mems), [o], [t], key, n) == Ok(Some(V(key, n - m, values[n - m - 1])))
  {
    hide *;
    AfterFlush(key, values);
    HistoryHasLast(key, values, |values|);
    TableGoesStale(key, values, o, t);
    var w := Run(Start(), OverwriteAndFlush(key, values));
    OneTableGet(w.db, VersionsOf(key, values), o, t, key, |values|);
  }

  lemma TableGoesStale(key: Key, values: seq<seq<byte>>, o: Origin, t: SstReader.Reader)
    requires |values| > Block.RESTART_INTERVAL && Opens(o, t, VersionsOf(key, values))
    requires Block.EstimatedSize(VersionsOf(key, values)) < o.cfg.blockSize
    ensures var n := |values|;
      var m := Block.RESTART_INTERVAL * (Block.RestartCount(n) / 2);
      0 < m < n && SstReader.Get(o.cfg, t, key, n) == Ok(Some(V(key, n - m, values[n - m - 1])))
  {
    hide SstWriter.FilterOk, TableFits, Lawful, SstReader.OpenTable, SstWriter.TableBytes, Block.EstimatedSize, ReaderOf, SstReader.Get, Find, Sorted, SstWitness.OneKey, Block.RestartCount;
    var rs := VersionsOf(key, values);
    VersionsSorted(key, values);
    OpenWritten(o.cfg, o.filter, rs);
    SstWitness.OneKeyTableReadsStale(o.cfg, o.filter, rs, key, |values|);
  }

  lemma OneTableGet(s: State, rs: seq<Rec>, o: Origin, t: SstReader.Reader, key: Key, snap: nat)
    requires s.mems == [Memtable([], 2)] && s.tables == [Table(3, rs)]
    requires SstReader.Get(o.cfg, t, key, snap).Ok? && SstReader.Get(o.cfg, t, key, snap).value.Some?
    ensures TableRecs(s.tables) == [rs] && StoreGet(MemRecs(s.mems), [o], [t], key, snap) == SstReader.Get(o.cfg, t, key, snap)
  {
    hide SstReader.Get;
    assert MemRecs(s.mems) == [[]];
    assert FirstHit([[]], key, snap) == None;
  }

  lemma VersionsSorted(key: Key, values: seq<seq<byte>>)
    ensures Sorted(VersionsOf(key, values)) && SstWitness.OneKey(VersionsOf(key, values), key, |values|)
  {
    LessIrreflexive(key);
  }

  function SeventeenValues(): (values: seq<seq<byte>>)
    ensures |values| == 17
  {
    seq(17, i requires 0 <= i < 17 => [i + 1])
  }

  /** Seventeen overwrites of one key with the values 1 to 17, one flush: reading the
      latest snapshot returns the very first value written. */
  lemma SeventeenOverwrites() returns (t: SstReader.Reader)
    ensures Opens(Origin(SstWitness.PlainConfig(), None), t, VersionsOf([107], SeventeenValues()))
    ensures Possible(Start(), OverwriteAndFlush([107], SeventeenValues()))
    ensures var w := Run(Start(), OverwriteAndFlush([107], SeventeenValues()));
      && TableRecs(w.db.tables) == [VersionsOf([107], SeventeenValues())]
      && Newest(w.hist, [107], 17) == Some(V([107], 17, [17]))
      && StoreGet(MemRecs(w.db.mems), [Origin(SstWitness.PlainConfig(), None)], [t], [107], 17) == Ok(Some(V([107], 1, [1])))
  {
    hide Start, Possible, Run, Newest, OverwriteAndFlush, TableFits, SstReader.OpenTable, SstWriter.TableBytes, Block.EstimatedSize, ReaderOf, StoreGet, MemRecs, TableRecs, Block.RestartCount;
    var (rs, cfg) := (VersionsOf([107], SeventeenValues()), SstWitness.PlainConfig());
    assert rs == SstWitness.Versions(17);
    SstWitness.VersionsFit(17);
    SstWitness.OneBlockFits(cfg, rs);
    OpenWritten(cfg, None, rs);
    t := ReaderOf(cfg, None, rs);
    OverwritesGoStale([107], SeventeenValues(), Origin(cfg, None), t);
    assert Block.RestartCount(17) == 2 by { TwoRestarts(); }
  }

  lemma TwoRestarts()
    ensures Block.RestartCount(17) == 2
  {
  }
}
