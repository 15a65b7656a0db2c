/** Reopening a directory, after a crash at any step or after a clean close. */
module EngineReopen {
  import opened Bytes
  import opened Records
  import opened Merge
  import opened History
  import opened Layers
  import opened Ids
  import opened Engine
  import opened EngineInv
  import opened EngineSteps

  // ----- what the disk holds -----

  /** Opening lists the tables in the order the store keeps them. */
  lemma OpenTablesAre(disk: Disk, ts: seq<Table>)
    requires OnDisk(disk.tables, ts)
    ensures OpenTables(disk) == ts
  {
    hide Descends, Descending;
    var ids := Descending(disk.tables.Keys);
    assert forall id :: id in ids <==> id in TableIds(ts);
    DescendingIsUnique(ids, TableIds(ts));
    forall i | 0 <= i < |ts| ensures OpenTables(disk)[i] == ts[i] {
      assert ids[i] == ts[i].id;
    }
  }

  lemma TablesFaithful(s: State, h: Hist)
    requires SourcesOk(s, h)
    ensures AllFaithful(MemRecs(s.mems), h) && AllFaithful(TableRecs(s.tables), h)
  {
    hide Faithful, Complete;
    var ss := Sources(s);
    forall i | 0 <= i < |s.mems| ensures Faithful(MemRecs(s.mems)[i], h) {
      assert ss[i] == MemRecs(s.mems)[i];
    }
    forall i | 0 <= i < |s.tables| ensures Faithful(TableRecs(s.tables)[i], h) {
      assert ss[|s.mems| + i] == TableRecs(s.tables)[i];
    }
  }

  /** Every table on disk is faithful, whatever step the store was at. */
  lemma DiskTablesFaithful(s: State, h: Hist)
    requires SourcesOk(s, h) && TablesOk(s, h)
    ensures AllFaithful(TableRecs(DiskTables(s)), h)
  {
    hide Faithful, OnDisk, Merged, Has, SourcesOk;
    TablesFaithful(s, h);
    MergedIsFaithful(TableRecs(s.tables), h);
    var ts := DiskTables(s);
    forall i | 0 <= i < |ts| ensures Faithful(ts[i].recs, h) {
      match s.pending {
        case Idle =>
          assert Faithful(TableRecs(s.tables)[i], h);
        case Flushing(id) =>
          assert i == 0 ==> Faithful(MemRecs(s.mems)[|s.mems| - 1], h);
          assert i > 0 ==> Faithful(TableRecs(s.tables)[i - 1], h);
        case Compacting(id) =>
          assert i > 0 ==> Faithful(TableRecs(s.tables)[i - 1], h);
        case Unlinking(inputs) =>
          assert i < |s.tables| ==> Faithful(TableRecs(s.tables)[i], h);
          assert i >= |s.tables| ==> ts[i] == inputs[i - |s.tables|];
      }
    }
  }

  /** The live tables are all on disk. */
  lemma LiveTablesOnDisk(s: State, key: Key, n: nat)
    requires InSome(TableRecs(s.tables), key, n)
    ensures InSome(TableRecs(DiskTables(s)), key, n)
  {
    hide Has, Merged;
    var ts := DiskTables(s);
    var i :| 0 <= i < |s.tables| && Has(TableRecs(s.tables)[i], key, n);
    var j := if (s.pending.Flushing? && s.mems != []) || s.pending.Compacting? then i + 1 else i;
    assert ts[j] == s.tables[i];
    assert Has(TableRecs(ts)[j], key, n);
  }

  lemma BackedIsLogged(wals: map<nat, Segment>, ms: seq<Memtable>, m: Memtable, key: Key, n: nat)
    requires Backed(wals, ms, m) && Has(m.recs, key, n)
    ensures OnLog(wals, key, n)
  {
    hide LogHas, Has;
    var a :| Backs(wals, ms, m, a, key, n);
  }

  /** Any committed version can be found again on disk. */
  lemma DiskIsComplete(s: State, h: Hist, key: Key, n: nat)
    requires SourcesOk(s, h) && MemsOk(s) && Wrote(h, key, n)
    ensures OnLog(s.disk.wals, key, n) || InSome(TableRecs(DiskTables(s)), key, n)
  {
    hide Has, AllFaithful, Wrote, OnLog, DiskTables;
    assert InSome(MemRecs(s.mems) + TableRecs(s.tables), key, n);
    InSomeConcat(MemRecs(s.mems), TableRecs(s.tables), key, n);
    if InSome(TableRecs(s.tables), key, n) {
      LiveTablesOnDisk(s, key, n);
    } else {
      var i :| 0 <= i < |s.mems| && Has(MemRecs(s.mems)[i], key, n);
      BackedIsLogged(s.disk.wals, s.mems, s.mems[i], key, n);
    }
  }

  /** A disk is sound for a history: logs and tables hold only committed versions, and all of them. */
  ghost predicate DiskOk(disk: Disk, h: Hist) {
    && SegmentsOk(disk.wals, h)
    && AllFaithful(TableRecs(OpenTables(disk)), h)
    && forall key, n :: Wrote(h, key, n) ==> OnLog(disk.wals, key, n) || InSome(TableRecs(OpenTables(disk)), key, n)
  }

  lemma DiskAlwaysOk(w: World)
    requires Inv(w)
    ensures OpenTables(w.db.disk) == DiskTables(w.db)
    ensures DiskOk(w.db.disk, w.hist)
  {
    var (s, h) := (w.db, w.hist);
    assert SegmentsOk(s.disk.wals, h) && OnDisk(s.disk.tables, DiskTables(s));
    hide SourcesOk, MemsOk, AllFaithful, OnLog, InSome, SegmentsOk, OnDisk, OpenTables, DiskTables, Wrote, TablesOk, WalsOk, NumbersOk;
    OpenTablesAre(s.disk, DiskTables(s));
    DiskTablesFaithful(s, h);
    forall key, n | Wrote(h, key, n)
      ensures OnLog(s.disk.wals, key, n) || InSome(TableRecs(OpenTables(s.disk)), key, n)
    {
      DiskIsComplete(s, h, key, n);
    }
  }

  /** The sources of a reopened store hold exactly the history. */
  lemma RecoveredOk(disk: Disk, h: Hist)
    requires DiskOk(disk, h)
    ensures AllFaithful(RecoveredSources(disk), h) && Complete(RecoveredSources(disk), h)
  {
    hide Faithful, Has, SegmentsOk, OpenTables, Replayed, OnLog, Wrote;
    var (r, ts) := (Replayed(disk), TableRecs(OpenTables(disk)));
    ReplayedMeaning(disk, h);
    forall key, n | Wrote(h, key, n) ensures InSome([r] + ts, key, n) {
      InSomeConcat([r], ts, key, n);
      InSomeOne(r, key, n);
    }
  }

  // ----- the recovered sequence number -----

  lemma {:induction false} TopSeqnoBounds(ts: seq<Table>, wals: map<nat, Segment>, ids: seq<nat>)
    requires forall id :: id in ids ==> id in wals
    ensures var top := TopSeqno(ts, wals, ids);
      && (forall i :: 0 <= i < |ts| ==> MaxSeqno(ts[i].recs) <= top)
      && (forall i :: 0 <= i < |ids| ==> MaxLogSeqno(wals[ids[i]].log) <= top)
      && (top == 0 || (exists i :: 0 <= i < |ts| && MaxSeqno(ts[i].recs) == top)
                   || (exists i :: 0 <= i < |ids| && MaxLogSeqno(wals[ids[i]].log) == top))
    decreases |ts| + |ids|
  {
    hide MaxSeqno, MaxLogSeqno;
    var top := TopSeqno(ts, wals, ids);
    if ts != [] {
      var rest := ts[1..];
      TopSeqnoBounds(rest, wals, ids);
      assert forall i :: 0 < i < |ts| ==> ts[i] == rest[i - 1];
      if i :| 0 <= i < |rest| && MaxSeqno(rest[i].recs) == top {
        assert ts[i + 1] == rest[i];
      }
    } else if ids != [] {
      var rest := ids[1..];
      TopSeqnoBounds(ts, wals, rest);
      assert forall i :: 0 < i < |ids| ==> ids[i] == rest[i - 1];
      if i :| 0 <= i < |rest| && MaxLogSeqno(wals[rest[i]].log) == top {
        assert ids[i + 1] == rest[i];
      }
    }
  }

  lemma HasIsBounded(s: seq<Rec>, key: Key, n: nat)
    requires Has(s, key, n)
    ensures n <= MaxSeqno(s)
  {
  }

  lemma MaxIsHeld(s: seq<Rec>, h: Hist)
    requires Faithful(s, h)
    ensures MaxSeqno(s) <= |h|
  {
    var n := MaxSeqno(s);
    if n > 0 {
      var i :| 0 <= i < |s| && s[i].seqno == n;
      assert Has(s, s[i].key, n);
    }
  }

  lemma LogHasIsBounded(log: seq<LogEntry>, key: Key, n: nat)
    requires LogHas(log, key, n)
    ensures n <= MaxLogSeqno(log)
  {
  }

  lemma MaxLogIsHeld(log: seq<LogEntry>, h: Hist)
    requires LogOk(log, h)
    ensures MaxLogSeqno(log) <= |h|
  {
  }

  /** The recovered sequence number is one the history reached, and no batch above
      it wrote anything. */
  lemma RecoveredSeqno(disk: Disk, h: Hist)
    requires DiskOk(disk, h)
    ensures Open(disk).seqno <= |h|
    ensures forall key, n: nat :: Wrote(h, key, n) ==> n <= Open(disk).seqno
    ensures forall id, i :: id in disk.wals && 0 <= i < |disk.wals[id].log| ==> disk.wals[id].log[i].seqno <= Open(disk).seqno
  {
    hide Faithful, Has, LogHas, LogOk, LogBefore, MaxSeqno, MaxLogSeqno, OpenTables, TopSeqno, Wrote;
    var (ts, ids) := (OpenTables(disk), Ascending(disk.wals.Keys));
    var top := TopSeqno(ts, disk.wals, ids);
    TopSeqnoBounds(ts, disk.wals, ids);
    assert top <= |h| by {
      if i :| 0 <= i < |ts| && MaxSeqno(ts[i].recs) == top {
        assert Faithful(TableRecs(ts)[i], h);
        MaxIsHeld(ts[i].recs, h);
      } else if i :| 0 <= i < |ids| && MaxLogSeqno(disk.wals[ids[i]].log) == top {
        assert ids[i] in ids;
        MaxLogIsHeld(disk.wals[ids[i]].log, h);
      }
    }
    forall key, n: nat | Wrote(h, key, n) ensures n <= top {
      if InSome(TableRecs(ts), key, n) {
        var i :| 0 <= i < |ts| && Has(TableRecs(ts)[i], key, n);
        HasIsBounded(ts[i].recs, key, n);
      } else {
        var id :| id in disk.wals && LogHas(disk.wals[id].log, key, n);
        SegmentIndex(disk.wals, ids, id);
        LogHasIsBounded(disk.wals[id].log, key, n);
      }
    }
    forall id, i | id in disk.wals && 0 <= i < |disk.wals[id].log| ensures disk.wals[id].log[i].seqno <= top {
      SegmentIndex(disk.wals, ids, id);
      assert disk.wals[id].log[i].seqno <= MaxLogSeqno(disk.wals[id].log);
    }
  }

  lemma SegmentIndex(wals: map<nat, Segment>, ids: seq<nat>, id: nat)
    requires id in ids && forall a :: a in ids ==> a in wals
    ensures exists i :: 0 <= i < |ids| && ids[i] == id
  {
  }

  /** A shorter history that lost only empty batches answers every read the same. */
  lemma {:induction false} TrimmedHistory(h: Hist, top: nat, key: Key, snap: nat)
    requires top <= |h| && forall n: nat :: Wrote(h, key, n) ==> n <= top
    ensures Newest(h[..top], key, snap) == Newest(h, key, snap)
    decreases |h|
  {
    if top < |h| {
      var front := h[..|h| - 1];
      assert front[..top] == h[..top];
      forall n: nat | Wrote(front, key, n) ensures n <= top { assert Wrote(h, key, n); }
      assert !Wrote(h, key, |h|);
      TrimmedHistory(front, top, key, snap);
    } else {
      assert h[..top] == h;
    }
  }

  lemma FaithfulTrims(s: seq<Rec>, h: Hist, top: nat)
    requires Faithful(s, h) && top <= |h| && forall key, n: nat :: Wrote(h, key, n) ==> n <= top
    ensures Faithful(s, h[..top])
  {
    forall key, n | Has(s, key, n)
      ensures Wrote(h[..top], key, n) && Find(s, key, n) == Version(h[..top], key, n)
    {
      assert Wrote(h, key, n);
    }
  }

  lemma SegmentsTrim(wals: map<nat, Segment>, h: Hist, top: nat)
    requires SegmentsOk(wals, h) && top <= |h|
    requires forall id, i :: id in wals && 0 <= i < |wals[id].log| ==> wals[id].log[i].seqno <= top
    ensures SegmentsOk(wals, Trim(h, top))
  {
    hide LogBefore;
    forall id | id in wals ensures LogOk(wals[id].log, h[..top]) {
      assert LogOk(wals[id].log, h);
    }
  }

  // ----- reopening keeps the invariant -----

  lemma ReopenSources(disk: Disk, h: Hist)
    requires DiskOk(disk, h)
    ensures Open(disk).seqno <= |h| && SourcesOk(Open(disk), Trim(h, Open(disk).seqno))
  {
    hide Faithful, Has, OpenTables, Wrote, InSome, RecoveredSources, Open, DiskOk;
    var (ss, top) := (RecoveredSources(disk), Open(disk).seqno);
    OpenSources(disk);
    RecoveredOk(disk, h);
    RecoveredSeqno(disk, h);
    forall i | 0 <= i < |ss| ensures Faithful(ss[i], h[..top]) {
      FaithfulTrims(ss[i], h, top);
    }
    forall key, n | Wrote(h[..top], key, n) ensures InSome(ss, key, n) {
      WroteTrims(h, top, key, n);
    }
  }

  lemma WroteTrims(h: Hist, top: nat, key: Key, n: nat)
    requires top <= |h| && Wrote(h[..top], key, n)
    ensures Wrote(h, key, n)
  {
  }

  lemma OpenShape(disk: Disk)
    ensures var s := Open(disk);
      && |s.mems| == 1 && s.mems[0].recs == Replayed(disk)
      && (forall id :: id in disk.wals ==> id < s.mems[0].wal)
      && s.disk.wals == disk.wals[s.mems[0].wal := Segment(s.seqno + 1, [])]
  {
    hide OpenTables, TopSeqno, Replayed;
  }

  lemma ReopenWals(disk: Disk, h: Hist)
    requires SegmentsOk(disk.wals, h)
    ensures WalsOk(Open(disk), h) && MemsOk(Open(disk))
  {
    hide Has, LogHas, SegmentsOk, Faithful, Open, Replayed;
    var s := Open(disk);
    OpenShape(disk);
    SegmentAdded(disk.wals, s.mems[0].wal, h, s.seqno + 1);
    ReplayedMeaning(disk, h);
    var (m, wals) := (s.mems[0], s.disk.wals);
    forall key, n ensures !LogHas(wals[m.wal].log, key, n) {
      EmptyLogHas(key, n);
    }
    forall key, n | Has(m.recs, key, n)
      ensures exists a :: Backs(wals, s.mems, m, a, key, n)
    {
      var a :| a in disk.wals && LogHas(disk.wals[a].log, key, n);
      assert Backs(wals, s.mems, m, a, key, n);
    }
  }

  lemma ReopenTables(disk: Disk, ts: seq<Table>, h: Hist)
    requires OnDisk(disk.tables, ts)
    ensures TablesOk(Open(disk), h)
  {
    hide OnDisk, OpenTables, TopSeqno, Replayed;
    OpenTablesAre(disk, ts);
  }

  lemma LargestOnDisk(disk: Disk, last: nat)
    requires FileOnDisk(disk, last) && forall id: nat :: FileOnDisk(disk, id) ==> id <= last
    ensures Max(LargestOrZero(disk.wals.Keys), LargestOrZero(disk.tables.Keys)) == last
  {
    var (wals, tables) := (disk.wals.Keys, disk.tables.Keys);
    assert wals != {} ==> FileOnDisk(disk, Largest(wals));
    assert tables != {} ==> FileOnDisk(disk, Largest(tables));
    assert last in wals || last in tables;
  }

  lemma OpenNumbers(disk: Disk)
    ensures var s := Open(disk);
      var freshId := Max(LargestOrZero(disk.wals.Keys), LargestOrZero(disk.tables.Keys)) + 1;
      && s.nextFile == freshId + 1 && s.pending == Idle
      && forall id :: FileOnDisk(s.disk, id) <==> FileOnDisk(disk, id) || id == freshId
  {
    hide OpenTables, TopSeqno, Replayed, LargestOrZero;
  }

  lemma ReopenNumbers(s: State, created: seq<nat>)
    requires NumbersOk(s, created)
    ensures NumbersOk(Open(s.disk), created + [Open(s.disk).nextFile - 1])
  {
    hide Open, LargestOrZero;
    LargestOnDisk(s.disk, created[|created| - 1]);
    OpenNumbers(s.disk);
    hide FileOnDisk;
  }

  /** The history a reopened store continues from answers every read as before. */
  lemma ReopenHistory(w: World, key: Key, snap: nat)
    requires Inv(w)
    ensures Newest(Reopen(w).hist, key, snap) == Newest(w.hist, key, snap)
  {
    hide Inv, Newest, Open, Wrote;
    DiskAlwaysOk(w);
    RecoveredSeqno(w.db.disk, w.hist);
    TrimmedHistory(w.hist, Open(w.db.disk).seqno, key, snap);
  }

  lemma ReopenKeepsInv(w: World)
    requires Inv(w)
    ensures Inv(Reopen(w))
  {
    hide *;
    var (s, h) := (w.db, w.hist);
    InvParts(w);
    DiskAlwaysOk(w);
    ReopenSources(s.disk, h);
    RecoveredSeqno(s.disk, h);
    var top := Open(s.disk).seqno;
    SegmentsTrim(s.disk.wals, h, top);
    ReopenWals(s.disk, Trim(h, top));
    ReopenTables(s.disk, DiskTables(s), Trim(h, top));
    ReopenNumbers(s, w.created);
    ReopenedWorld(w);
    InvOf(Reopen(w));
  }

  lemma ReopenedWorld(w: World)
    ensures Reopen(w) == World(Open(w.db.disk), Trim(w.hist, Open(w.db.disk).seqno), w.created + [Open(w.db.disk).nextFile - 1])
  {
    hide Open, Trim;
  }

  lemma InvParts(w: World)
    requires Inv(w)
    ensures OnDisk(w.db.disk.tables, DiskTables(w.db)) && NumbersOk(w.db, w.created) && SegmentsOk(w.db.disk.wals, w.hist)
  {
  }

  lemma InvOf(w: World)
    requires SourcesOk(w.db, w.hist) && WalsOk(w.db, w.hist) && MemsOk(w.db) && TablesOk(w.db, w.hist) && NumbersOk(w.db, w.created)
    ensures Inv(w)
  {
  }
}
