/** Each step of the store keeps the invariant. */
module EngineSteps {
  import opened Bytes
  import opened Records
  import opened Merge
  import opened History
  import opened Layers
  import opened Ids
  import opened Engine
  import opened EngineInv
  import Batch

  // ----- commit -----

  lemma NothingAtNextSeqno(s: seq<Rec>, h: Hist, n: nat)
    requires Faithful(s, h) && n == |h| + 1
    ensures forall key :: !Has(s, key, n)
  {
  }

  lemma CommitSources(s: State, h: Hist, ops: Batch.Ops)
    requires SourcesOk(s, h) && s.mems != [] && s.mems[0].wal in s.disk.wals
    ensures SourcesOk(Commit(s, ops), h + [ops])
    ensures Sources(Commit(s, ops)) == Sources(s)[0 := ApplyBatch(s.mems[0].recs, |h| + 1, ops)]
    ensures Commit(s, ops).mems != [] && Commit(s, ops).mems[0].recs == ApplyBatch(s.mems[0].recs, |h| + 1, ops)
    ensures forall key, n :: Has(Commit(s, ops).mems[0].recs, key, n) <==> HasAfter(s.mems[0].recs, |h| + 1, ops, key, n)
  {
    hide Has, Faithful, ApplyBatch, Final, InSome;
    var n := |h| + 1;
    var h' := h + [ops];
    var ss, ss' := Sources(s), Sources(Commit(s, ops));
    var m := s.mems[0].recs;
    assert ss' == ss[0 := ApplyBatch(m, n, ops)];
    assert ss[0] == m;
    forall i | 0 <= i < |ss| ensures Faithful(ss[i], h') {
      FaithfulExtends(ss[i], h, [ops]);
    }
    NothingAtNextSeqno(m, h, n);
    ApplyBatchIsFaithful(m, h', n);
    forall key, k: nat ensures Has(ss'[0], key, k) <==> HasAfter(m, n, ops, key, k) {
      FaithfulSorted(m, h);
      ApplyBatchMeaning(m, n, ops, key, k);
    }
    forall key, k: nat | Wrote(h', key, k) ensures InSome(ss', key, k) {
      if k < n {
        assert Wrote(h, key, k);
        InSomeUpdate(ss, 0, ss'[0], key, k);
      } else {
        assert Has(ss'[0], key, k);
        InSomeAt(ss', 0, key, k);
      }
    }
  }

  lemma InSomeAt(ss: seq<seq<Rec>>, i: nat, key: Key, n: nat)
    requires i < |ss| && Has(ss[i], key, n)
    ensures InSome(ss, key, n)
  {
  }

  lemma InSomeUpdate(ss: seq<seq<Rec>>, i: nat, x: seq<Rec>, key: Key, n: nat)
    requires i < |ss| && InSome(ss, key, n) && (Has(ss[i], key, n) ==> Has(x, key, n))
    ensures InSome(ss[i := x], key, n)
  {
    hide Has;
    var j :| 0 <= j < |ss| && Has(ss[j], key, n);
    assert Has(ss[i := x][j], key, n);
  }

  lemma LogOkAppend(log: seq<LogEntry>, h: Hist, ops: Batch.Ops)
    requires LogOk(log, h)
    ensures LogOk(log, h + [ops]) && LogOk(log + [LogEntry(|h| + 1, ops)], h + [ops])
  {
  }

  lemma LogBeforeAppend(x: seq<LogEntry>, y: seq<LogEntry>, h: Hist, ops: Batch.Ops)
    requires LogBefore(x, y) && LogOk(x, h)
    ensures LogBefore(x, y + [LogEntry(|h| + 1, ops)])
  {
  }

  lemma SegmentAppended(wals: map<nat, Segment>, id: nat, h: Hist, ops: Batch.Ops)
    requires SegmentsOk(wals, h) && id in wals && forall a :: a in wals ==> a <= id
    ensures SegmentsOk(wals[id := wals[id].(log := wals[id].log + [LogEntry(|h| + 1, ops)])], h + [ops])
  {
    hide LogOk, LogBefore;
    var wals' := wals[id := wals[id].(log := wals[id].log + [LogEntry(|h| + 1, ops)])];
    forall a | a in wals' ensures LogOk(wals'[a].log, h + [ops]) {
      LogOkAppend(wals[a].log, h, ops);
    }
    forall a, b | a in wals' && b in wals' && a < b ensures LogBefore(wals'[a].log, wals'[b].log) {
      assert a != id;
      LogBeforeAppend(wals[a].log, wals[b].log, h, ops);
    }
  }

  lemma CommitSegments(s: State, h: Hist, ops: Batch.Ops)
    requires WalsOk(s, h) && s.seqno == |h|
    ensures WalsOk(Commit(s, ops), h + [ops])
  {
    hide SegmentsOk, ApplyBatch;
    assert forall i :: 0 <= i < |s.mems| ==> Commit(s, ops).mems[i].wal == s.mems[i].wal;
    SegmentAppended(s.disk.wals, s.mems[0].wal, h, ops);
  }

  lemma SameWals(ms: seq<Memtable>, ms': seq<Memtable>)
    requires |ms| == |ms'| && forall i :: 0 <= i < |ms| ==> ms[i].wal == ms'[i].wal
    ensures forall id :: IsLive(ms, id) <==> IsLive(ms', id)
  {
    forall id ensures IsLive(ms, id) <==> IsLive(ms', id) {
      if IsLive(ms, id) { var i :| 0 <= i < |ms| && ms[i].wal == id; assert ms'[i].wal == id; }
      if IsLive(ms', id) { var i :| 0 <= i < |ms'| && ms'[i].wal == id; assert ms[i].wal == id; }
    }
  }

  lemma CommitMems(s: State, h: Hist, ops: Batch.Ops)
    requires SourcesOk(s, h) && WalsOk(s, h) && MemsOk(s)
    ensures MemsOk(Commit(s, ops))
  {
    hide Has, LogHas, Final, AllFaithful, Complete, SegmentsOk, Sources;
    var s' := Commit(s, ops);
    var n := |h| + 1;
    var id := s.mems[0].wal;
    var (wals, wals') := (s.disk.wals, s'.disk.wals);
    var e := LogEntry(n, ops);
    CommitSources(s, h, ops);
    forall key, k ensures LogHas(wals'[id].log, key, k) <==> LogHas(wals[id].log, key, k) || (k == n && Final(ops, key, n).Some?) {
      LogHasAppend(wals[id].log, e, key, k);
    }
    SameWals(s.mems, s'.mems);
    forall i | 0 <= i < |s'.mems|
      ensures Logged(wals', s'.mems[i])
    {
      assert Logged(wals, s.mems[i]);
    }
    forall i | 0 <= i < |s'.mems|
      ensures Backed(wals', s'.mems, s'.mems[i])
    {
      assert Backed(wals, s.mems, s.mems[i]);
      forall key, k | Has(s'.mems[i].recs, key, k)
        ensures exists a :: Backs(wals', s'.mems, s'.mems[i], a, key, k)
      {
        if Has(s.mems[i].recs, key, k) {
          var a :| Backs(wals, s.mems, s.mems[i], a, key, k);
          assert Backs(wals', s'.mems, s'.mems[i], a, key, k);
        } else {
          assert Backs(wals', s'.mems, s'.mems[i], id, key, k);
        }
      }
    }
  }

  lemma CommitKeepsInv(w: World, ops: Batch.Ops)
    requires Inv(w) && Enabled(w, DoCommit(ops))
    ensures Inv(Apply(w, DoCommit(ops)))
  {
    var (s, h) := (w.db, w.hist);
    assert s.seqno == |h|;
    hide SourcesOk, WalsOk, MemsOk, Commit, TablesOk, NumbersOk, FileOnDisk;
    CommitSources(s, h, ops);
    CommitSegments(s, h, ops);
    CommitMems(s, h, ops);
    CommitRest(s, ops);
    TablesKept(s, Commit(s, ops), h, h + [ops]);
    NumbersSame(s, Commit(s, ops), w.created);
  }

  lemma NumbersSame(s: State, s': State, created: seq<nat>)
    requires NumbersOk(s, created) && s'.nextFile == s.nextFile && s'.pending == s.pending
    requires forall id :: FileOnDisk(s'.disk, id) <==> FileOnDisk(s.disk, id)
    ensures NumbersOk(s', created)
  {
  }

  lemma TablesKept(s: State, s': State, h: Hist, h': Hist)
    requires TablesOk(s, h) && s.pending.Idle? && s'.pending.Idle?
    requires s'.tables == s.tables && s'.disk.tables == s.disk.tables
    ensures TablesOk(s', h')
  {
    hide OnDisk;
  }

  // ----- file numbers -----

  /** A step that creates the file numbered `nextFile`. */
  lemma NumbersGrow(s: State, s': State, created: seq<nat>)
    requires NumbersOk(s, created)
    requires forall id :: FileOnDisk(s'.disk, id) <==> FileOnDisk(s.disk, id) || id == s.nextFile
    requires s'.nextFile == s.nextFile + 1 && (s'.pending.Flushing? ==> s'.pending.id == s.nextFile)
    ensures NumbersOk(s', created + [s.nextFile])
  {
  }

  /** A step that creates no file and removes at most older ones. */
  lemma NumbersKept(s: State, s': State, created: seq<nat>)
    requires NumbersOk(s, created) && s'.nextFile == s.nextFile
    requires forall id :: FileOnDisk(s'.disk, id) ==> FileOnDisk(s.disk, id)
    requires FileOnDisk(s'.disk, created[|created| - 1])
    requires s'.pending.Flushing? ==> s'.pending == s.pending
    ensures NumbersOk(s', created)
  {
  }

  lemma CommitRest(s: State, ops: Batch.Ops)
    requires s.mems != [] && s.mems[0].wal in s.disk.wals
    ensures forall id :: FileOnDisk(Commit(s, ops).disk, id) <==> FileOnDisk(s.disk, id)
    ensures var s' := Commit(s, ops);
      && s'.tables == s.tables && s'.pending == s.pending && s'.nextFile == s.nextFile
      && s'.disk.tables == s.disk.tables && s'.disk.wals.Keys == s.disk.wals.Keys
      && s'.mems != [] && s'.mems[0].wal == s.mems[0].wal
  {
  }

  // ----- rotate -----

  lemma RotateSources(s: State, h: Hist)
    requires SourcesOk(s, h)
    ensures SourcesOk(Rotate(s), h) && Sources(Rotate(s)) == [[]] + Sources(s)
  {
    hide Has, Faithful, Wrote;
    var ss, ss' := Sources(s), Sources(Rotate(s));
    assert ss' == [[]] + ss;
    EmptyIsFaithful(h);
    forall key, n | Wrote(h, key, n) ensures InSome(ss', key, n) {
      var i :| 0 <= i < |ss| && Has(ss[i], key, n);
      assert ss'[i + 1] == ss[i];
    }
  }

  lemma RotateWals(s: State, h: Hist)
    requires WalsOk(s, h) && forall id :: id in s.disk.wals ==> id < s.nextFile
    ensures WalsOk(Rotate(s), h)
  {
    var s' := Rotate(s);
    assert forall i :: 0 < i < |s'.mems| ==> s'.mems[i] == s.mems[i - 1];
    SegmentAdded(s.disk.wals, s.nextFile, h, s.seqno + 1);
    hide SegmentsOk;
  }

  lemma SegmentAdded(wals: map<nat, Segment>, id: nat, h: Hist, first: nat)
    requires SegmentsOk(wals, h)
    ensures SegmentsOk(wals[id := Segment(first, [])], h)
  {
    hide LogOk, LogBefore;
    assert LogOk([], h) by { EmptyLog(h, []); }
    forall x: seq<LogEntry> ensures LogBefore(x, []) && LogBefore([], x) { EmptyLog(h, x); }
  }

  lemma EmptyLog(h: Hist, x: seq<LogEntry>)
    ensures LogOk([], h) && LogBefore(x, []) && LogBefore([], x)
  {
  }

  lemma RotateMems(s: State, h: Hist)
    requires WalsOk(s, h) && MemsOk(s) && forall id :: id in s.disk.wals ==> id < s.nextFile
    ensures MemsOk(Rotate(s))
  {
    hide Has, Final, SegmentsOk;
    var s' := Rotate(s);
    var (wals, wals') := (s.disk.wals, s'.disk.wals);
    var (ms, ms') := (s.mems, s'.mems);
    assert forall i :: 0 < i < |ms'| ==> ms'[i] == ms[i - 1];
    forall id | id in wals ensures IsLive(ms, id) <==> IsLive(ms', id) {
      if IsLive(ms, id) { var i :| 0 <= i < |ms| && ms[i].wal == id; assert ms'[i + 1].wal == id; }
      if IsLive(ms', id) { var i :| 0 <= i < |ms'| && ms'[i].wal == id; assert ms[i - 1].wal == id; }
    }
    forall i | 0 <= i < |ms'|
      ensures Logged(wals', ms'[i])
    {
      assert i > 0 ==> Logged(wals, ms[i - 1]);
    }
    hide LogHas;
    forall i | 0 <= i < |ms'|
      ensures Backed(wals', ms', ms'[i])
    {
      if i == 0 {
        EmptyIsFaithful(h);
      } else {
        BackedKept(wals, wals', ms, ms', ms[i - 1]);
      }
    }
  }

  /** Backing survives when the segments it may use keep their logs and their liveness. */
  lemma BackedKept(wals: map<nat, Segment>, wals': map<nat, Segment>, ms: seq<Memtable>, ms': seq<Memtable>, m: Memtable)
    requires Backed(wals, ms, m)
    requires forall id :: id in wals && (id == m.wal || !IsLive(ms, id)) ==>
      id in wals' && wals'[id] == wals[id] && (IsLive(ms', id) ==> IsLive(ms, id))
    ensures Backed(wals', ms', m)
  {
    hide Has, LogHas, IsLive;
    forall key, n | Has(m.recs, key, n)
      ensures exists a :: Backs(wals', ms', m, a, key, n)
    {
      var a :| Backs(wals, ms, m, a, key, n);
      assert Backs(wals', ms', m, a, key, n);
    }
  }

  lemma RotateKeepsInv(w: World)
    requires Inv(w) && Enabled(w, DoRotate)
    ensures Inv(Apply(w, DoRotate))
  {
    var s := w.db;
    assert forall id :: id in s.disk.wals ==> FileOnDisk(s.disk, id);
    hide SourcesOk, MemsOk, WalsOk, OnDisk;
    RotateSources(s, w.hist);
    RotateWals(s, w.hist);
    RotateMems(s, w.hist);
    NumbersGrow(s, Rotate(s), w.created);
  }

  // ----- tables on disk -----

  lemma TableOnFront(tables: map<nat, seq<Rec>>, ts: seq<Table>, t: Table)
    requires OnDisk(tables, ts) && forall id :: id in tables ==> id < t.id
    ensures OnDisk(tables[t.id := t.recs], [t] + ts)
  {
    var ids := TableIds(ts);
    var ids' := TableIds([t] + ts);
    assert ids' == [t.id] + ids;
    assert forall i :: 0 <= i < |ids| ==> ids[i] in ids;
  }

  lemma IdsWithout(ids: seq<nat>, i: nat, id: nat)
    requires Descends(ids) && i < |ids|
    ensures Descends(ids[..i] + ids[i + 1..])
    ensures id in ids[..i] + ids[i + 1..] <==> id in ids && id != ids[i]
  {
    var left := ids[..i] + ids[i + 1..];
    if id in ids && id != ids[i] {
      var j :| 0 <= j < |ids| && ids[j] == id;
      assert left[if j < i then j else j - 1] == id;
    }
    if id in left {
      var j :| 0 <= j < |left| && left[j] == id;
      assert ids[if j < i then j else j + 1] == id;
    }
  }

  /** Removing one file from a descending list of tables. */
  lemma TableRemoved(tables: map<nat, seq<Rec>>, ts: seq<Table>, i: nat)
    requires OnDisk(tables, ts) && i < |ts|
    ensures OnDisk(tables - {ts[i].id}, ts[..i] + ts[i + 1..])
  {
    hide Descends;
    var left := ts[..i] + ts[i + 1..];
    var (ids, ids') := (TableIds(ts), TableIds(left));
    assert ids' == ids[..i] + ids[i + 1..];
    IdsWithout(ids, i, 0);
    forall id: nat ensures id in tables - {ts[i].id} <==> id in ids' {
      IdsWithout(ids, i, id);
    }
    forall j | 0 <= j < |left|
      ensures left[j].id in tables - {ts[i].id} && (tables - {ts[i].id})[left[j].id] == left[j].recs
    {
      assert left[j] == ts[if j < i then j else j + 1];
      assert ids'[j] in ids';
    }
  }

  lemma WriteTableKeepsInv(w: World)
    requires Inv(w) && Enabled(w, DoWriteTable)
    ensures Inv(Apply(w, DoWriteTable))
  {
    hide SourcesOk, MemsOk, WalsOk, OnDisk, DropWal, ApplyBatch, Merged;
    var s := w.db;
    assert forall id :: id in s.disk.tables ==> FileOnDisk(s.disk, id);
    TableOnFront(s.disk.tables, s.tables, Table(s.nextFile, s.mems[|s.mems| - 1].recs));
    SameSources(s, WriteTable(s), w.hist);
    NumbersGrow(s, WriteTable(s), w.created);
  }

  /** Steps that change neither memtables, tables nor segments keep what depends on them. */
  lemma SameSources(s: State, s': State, h: Hist)
    requires SourcesOk(s, h) && MemsOk(s) && WalsOk(s, h)
    requires s'.mems == s.mems && s'.tables == s.tables && s'.seqno == s.seqno && s'.disk.wals == s.disk.wals
    ensures SourcesOk(s', h) && MemsOk(s') && WalsOk(s', h)
  {
    hide AllFaithful, Complete, Logged, Backed, SegmentsOk;
  }

  lemma WriteMergedKeepsInv(w: World)
    requires Inv(w) && Enabled(w, DoWriteMerged)
    ensures Inv(Apply(w, DoWriteMerged))
  {
    hide SourcesOk, MemsOk, WalsOk, OnDisk, Merged;
    var s := w.db;
    assert forall id :: id in s.disk.tables ==> FileOnDisk(s.disk, id);
    TableOnFront(s.disk.tables, s.tables, Table(s.nextFile, Merged(TableRecs(s.tables))));
    SameSources(s, WriteMerged(s), w.hist);
    NumbersGrow(s, WriteMerged(s), w.created);
  }

  // ----- publish -----

  lemma {:induction false} DropLast(ms: seq<Memtable>, wal: nat)
    requires ms != [] && ms[|ms| - 1].wal == wal
    requires forall i, j :: 0 <= i < j < |ms| ==> ms[i].wal > ms[j].wal
    ensures DropWal(ms, wal) == ms[..|ms| - 1]
  {
    if |ms| == 1 {
      assert DropWal(ms[1..], wal) == [];
    } else {
      DropLast(ms[1..], wal);
      assert ms[..|ms| - 1] == [ms[0]] + ms[1..][..|ms| - 2];
    }
  }

  lemma PublishMems(s: State, h: Hist)
    requires WalsOk(s, h) && |s.mems| >= 2 && s.pending.Flushing?
    ensures Publish(s).mems == s.mems[..|s.mems| - 1]
    ensures Sources(Publish(s)) == Sources(s)
  {
    hide SegmentsOk, DropWal;
    var k := |s.mems|;
    DropLast(s.mems[1..], s.mems[k - 1].wal);
    assert [s.mems[0]] + s.mems[1..][..k - 2] == s.mems[..k - 1];
    var s' := Publish(s);
    assert MemRecs(s'.mems) == MemRecs(s.mems)[..k - 1];
    assert TableRecs(s'.tables) == [s.mems[k - 1].recs] + TableRecs(s.tables);
  }

  lemma PublishWals(s: State, h: Hist)
    requires WalsOk(s, h) && |s.mems| >= 2 && s.pending.Flushing?
    ensures WalsOk(Publish(s), h)
  {
    hide LogOk, LogBefore, DropWal;
    PublishMems(s, h);
    assert forall i :: 0 <= i < |s.mems| - 1 ==> s.mems[i].wal != s.mems[|s.mems| - 1].wal;
  }

  lemma PublishLogs(s: State, h: Hist)
    requires WalsOk(s, h) && MemsOk(s) && |s.mems| >= 2 && s.pending.Flushing?
    ensures MemsOk(Publish(s))
  {
    hide Has, LogHas, SegmentsOk, DropWal;
    var s' := Publish(s);
    PublishMems(s, h);
    var (wals, wals') := (s.disk.wals, s'.disk.wals);
    var (ms, ms') := (s.mems, s'.mems);
    var gone := ms[|ms| - 1].wal;
    assert forall i :: 0 <= i < |ms'| ==> ms'[i] == ms[i] && ms[i].wal != gone;
    assert IsLive(ms, gone);
    forall id | IsLive(ms', id) ensures IsLive(ms, id) {
      var i :| 0 <= i < |ms'| && ms'[i].wal == id;
      assert ms[i].wal == id;
    }
    forall i | 0 <= i < |ms'|
      ensures Logged(wals', ms'[i])
    {
      assert Logged(wals, ms[i]);
    }
    forall i | 0 <= i < |ms'|
      ensures Backed(wals', ms', ms'[i])
    {
      BackedKept(wals, wals', ms, ms', ms[i]);
    }
  }

  lemma PublishKeepsInv(w: World)
    requires Inv(w) && Enabled(w, DoPublish)
    ensures Inv(Apply(w, DoPublish))
  {
    var (s, h) := (w.db, w.hist);
    var s' := Publish(s);
    PublishMems(s, h);
    PublishWals(s, h);
    PublishLogs(s, h);
    hide MemsOk, WalsOk, OnDisk, AllFaithful, Complete, Sources, DropWal;
    assert SourcesOk(s', h);
    assert DiskTables(s') == DiskTables(s);
    OnDiskHead(s.disk.tables, DiskTables(s));
    NumbersKept(s, s', w.created);
  }

  lemma OnDiskHead(tables: map<nat, seq<Rec>>, ts: seq<Table>)
    requires OnDisk(tables, ts) && ts != []
    ensures ts[0].id in tables
  {
  }

  // ----- compaction -----

  /** Replacing a tail of sources by their merge. */
  lemma MergeTail(front: seq<seq<Rec>>, rs: seq<seq<Rec>>, h: Hist)
    requires AllFaithful(front + rs, h)
    ensures AllFaithful(front + [Merged(rs)], h) && AllFaithful(rs, h)
    ensures forall key, n :: InSome(front + [Merged(rs)], key, n) <==> InSome(front + rs, key, n)
  {
    hide Has, Faithful, Merged;
    var ss := front + rs;
    assert forall i :: 0 <= i < |rs| ==> rs[i] == ss[|front| + i];
    assert forall i :: 0 <= i < |front| ==> front[i] == ss[i];
    MergedIsFaithful(rs, h);
    forall key, n ensures InSome(front + [Merged(rs)], key, n) <==> InSome(ss, key, n) {
      MergedHas(rs, key, n);
      InSomeConcat(front, rs, key, n);
      InSomeConcat(front, [Merged(rs)], key, n);
      InSomeOne(Merged(rs), key, n);
    }
  }

  lemma InSomeOne(x: seq<Rec>, key: Key, n: nat)
    ensures InSome([x], key, n) <==> Has(x, key, n)
  {
    hide Has;
    assert [x][0] == x;
  }

  lemma InSomeConcat(a: seq<seq<Rec>>, b: seq<seq<Rec>>, key: Key, n: nat)
    ensures InSome(a + b, key, n) <==> InSome(a, key, n) || InSome(b, key, n)
  {
    hide Has;
    if InSome(a, key, n) {
      var i :| 0 <= i < |a| && Has(a[i], key, n);
      assert (a + b)[i] == a[i];
    }
    if InSome(b, key, n) {
      var i :| 0 <= i < |b| && Has(b[i], key, n);
      assert (a + b)[|a| + i] == b[i];
    }
  }

  lemma SwapSources(s: State, h: Hist)
    requires SourcesOk(s, h) && s.pending.Compacting?
    ensures SourcesOk(Swap(s), h)
    ensures Sources(Swap(s)) == MemRecs(s.mems) + [Merged(TableRecs(s.tables))]
    ensures AllFaithful(TableRecs(s.tables), h)
  {
    hide InSome, AllFaithful, Merged;
    var rs := TableRecs(s.tables);
    assert TableRecs(Swap(s).tables) == [Merged(rs)];
    MergeTail(MemRecs(s.mems), rs, h);
  }

  lemma SwapKeepsInv(w: World)
    requires Inv(w) && Enabled(w, DoSwap)
    ensures Inv(Apply(w, DoSwap))
  {
    hide SourcesOk, MemsOk, WalsOk, OnDisk, Merged, Faithful, Has;
    var (s, h) := (w.db, w.hist);
    var s' := Swap(s);
    SwapSources(s, h);
    assert DiskTables(s') == DiskTables(s);
    var rs := TableRecs(s.tables);
    forall i, key, n | 0 <= i < |s.tables| && Has(s.tables[i].recs, key, n)
      ensures Has(s'.tables[0].recs, key, n)
    {
      MergedHas(rs, key, n);
      assert Has(rs[i], key, n);
    }
    SwapWals(s, h);
    NumbersKept(s, s', w.created);
  }

  lemma SwapWals(s: State, h: Hist)
    requires WalsOk(s, h) && MemsOk(s) && s.pending.Compacting?
    ensures WalsOk(Swap(s), h) && MemsOk(Swap(s))
  {
    hide SegmentsOk, Logged, Backed;
  }

  lemma UnlinkOnDisk(s: State)
    requires OnDisk(s.disk.tables, DiskTables(s)) && s.pending.Unlinking? && s.pending.inputs != [] && |s.tables| == 1
    ensures OnDisk(Unlink(s).disk.tables, DiskTables(Unlink(s)))
    ensures s.pending.inputs[0].id < s.tables[0].id && s.tables[0].id in s.disk.tables
  {
    hide *;
    UnlinkShape(s);
    OnDiskOrder(s.disk.tables, s.tables + s.pending.inputs);
    TableRemoved(s.disk.tables, s.tables + s.pending.inputs, 1);
    DropSecond(s.tables, s.pending.inputs);
  }

  lemma UnlinkShape(s: State)
    requires s.pending.Unlinking? && s.pending.inputs != []
    ensures DiskTables(s) == s.tables + s.pending.inputs
    ensures DiskTables(Unlink(s)) == s.tables + s.pending.inputs[1..]
    ensures Unlink(s).disk.tables == s.disk.tables - {s.pending.inputs[0].id}
  {
    if |s.pending.inputs| == 1 { assert s.tables + s.pending.inputs[1..] == s.tables; }
  }

  lemma DropSecond(one: seq<Table>, more: seq<Table>)
    requires |one| == 1 && more != []
    ensures var ts := one + more;
      ts[0] == one[0] && ts[1] == more[0] && ts[..1] + ts[2..] == one + more[1..]
  {
  }

  lemma OnDiskOrder(tables: map<nat, seq<Rec>>, ts: seq<Table>)
    requires OnDisk(tables, ts) && |ts| >= 2
    ensures ts[1].id < ts[0].id && ts[0].id in tables
  {
    assert TableIds(ts)[0] > TableIds(ts)[1];
  }

  lemma UnlinkTables(s: State, h: Hist)
    requires TablesOk(s, h) && s.pending.Unlinking? && s.pending.inputs != []
    ensures TablesOk(Unlink(s), h)
    ensures |s.tables| == 1 && s.pending.inputs[0].id < s.tables[0].id && s.tables[0].id in s.disk.tables
  {
    hide Has, Faithful, OnDisk, DiskTables;
    UnlinkOnDisk(s);
  }

  lemma UnlinkKeepsInv(w: World)
    requires Inv(w) && Enabled(w, DoUnlink)
    ensures Inv(Apply(w, DoUnlink))
  {
    hide SourcesOk, MemsOk, WalsOk, TablesOk;
    var (s, h) := (w.db, w.hist);
    UnlinkTables(s, h);
    SameSources(s, Unlink(s), h);
    assert FileOnDisk(s.disk, s.tables[0].id);
    NumbersKept(s, Unlink(s), w.created);
  }
}
