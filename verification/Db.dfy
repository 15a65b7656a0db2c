/** The engine object. Its methods are the store's public operations; each one
    is proved to take the steps of the transition system and nothing else. */
module Db {
  import opened Bytes
  import opened Records
  import opened Merge
  import opened Range
  import opened History
  import opened Layers
  import opened Ids
  import opened Engine
  import opened EngineInv
  import opened EngineSteps
  import opened EngineTheorems
  import opened EngineLives
  import opened Client
  import opened ClientTheorems
  import Batch

  class Db {
    const threshold: nat
    var seqno: nat
    var active: seq<Rec>
    var walId: nat
    var memBytes: nat
    var immutables: seq<Memtable>
    var tables: seq<Table>
    var nextFile: nat
    var wals: map<nat, Segment>
    var files: map<nat, seq<Rec>>

    /** The state this object stands for, between operations. */
    ghost function View(): State
      reads this
    {
      State(seqno, [Memtable(active, walId)] + immutables, tables, nextFile, Disk(wals, files), Idle)
    }

    /** Opens a directory: tables newest first, every segment replayed in number order. */
    constructor (disk: Disk, threshold: nat)
      ensures View() == Open(disk) && memBytes == 0 && this.threshold == threshold
    {
      hide Open, OpenTables, Replayed, TopSeqno, LargestOrZero;
      var ids := Ascending(disk.wals.Keys);
      var found := OpenAll(disk);
      var memtable := ReplayAll(disk);
      var top := TopSeqno(found, disk.wals, ids);
      var freshId := Max(LargestOrZero(disk.wals.Keys), LargestOrZero(disk.tables.Keys)) + 1;
      this.threshold := threshold;
      seqno, active, walId, memBytes := top, memtable, freshId, 0;
      immutables, tables, nextFile := [], found, freshId + 1;
      wals, files := disk.wals[freshId := Segment(top + 1, [])], disk.tables;
      new;
      OpenView(disk);
      assert [Memtable(active, walId)] + immutables == [Memtable(active, walId)];
    }

    /** One acknowledged batch; the memtable rotates when it has grown past the threshold. */
    method CommitBatch(ops: Batch.Ops)
      requires walId in wals
      modifies this
      ensures var after := Commit(old(View()), ops);
        View() == if old(memBytes) + |Batch.Encode(ops)| >= threshold then Rotate(after) else after
      ensures memBytes == if old(memBytes) + |Batch.Encode(ops)| >= threshold then 0 else old(memBytes) + |Batch.Encode(ops)|
    {
      hide ApplyBatch, Batch.Encode;
      ghost var s := View();
      seqno := seqno + 1;
      wals := wals[walId := wals[walId].(log := wals[walId].log + [LogEntry(seqno, ops)])];
      active := ApplyOps(active, seqno, ops);
      memBytes := memBytes + |Batch.Encode(ops)|;
      assert s.mems[1..] == immutables;
      if memBytes >= threshold {
        RotateMemtable();
      }
    }

    /** Freezes the active memtable and starts a new log segment. */
    method RotateMemtable()
      modifies this
      ensures View() == Rotate(old(View())) && memBytes == 0
      ensures active == []
    {
      immutables := [Memtable(active, walId)] + immutables;
      active := [];
      walId := nextFile;
      nextFile := nextFile + 1;
      wals := wals[walId := Segment(seqno + 1, [])];
      memBytes := 0;
    }

    /** Writes one frozen memtable, the oldest, out as a table and unlinks its segment. */
    method FlushOne()
      requires immutables != []
      modifies this
      ensures View() == Publish(WriteTable(old(View())))
      ensures active == old(active) && memBytes == old(memBytes)
    {
      ghost var s := View();
      var im := immutables[|immutables| - 1];
      assert s.mems[|s.mems| - 1] == im && s.mems[1..] == immutables;
      var id := nextFile;
      nextFile := nextFile + 1;
      files := files[id := im.recs];
      tables := [Table(id, im.recs)] + tables;
      immutables := KeepOthers(immutables, im.wal);
      wals := wals - {im.wal};
    }

    /** Drains every memtable to tables. Returns the steps it took. */
    method Flush(ghost w: World) returns (ghost events: seq<Event>)
      requires Inv(w) && w.db == View()
      modifies this
      ensures Possible(w, events) && NoReopen(events)
      ensures var w' := Run(w, events); w'.db == View() && w'.hist == w.hist
      ensures active == [] && immutables == []
      ensures memBytes == if old(active) == [] then old(memBytes) else 0
    {
      hide Inv, Rotate, Publish, WriteTable;
      events := [];
      ghost var now := w;
      if active != [] {
        RotateMemtable();
        events := [DoRotate];
        now := Apply(w, DoRotate);
        assert Rotate(w.db).mems == [Memtable([], w.db.nextFile)] + w.db.mems by { RotateShape(w.db); }
        RunOne(w, DoRotate);
        RotateKeepsInv(w);
      }
      while immutables != []
        invariant Inv(now) && now.db == View() && now.hist == w.hist && active == []
        invariant memBytes == if old(active) == [] then old(memBytes) else 0
        invariant Possible(w, events) && NoReopen(events) && Run(w, events) == now
        decreases |immutables|
      {
        assert now.db.mems == [Memtable(active, walId)] + immutables;
        ghost var a := Apply(now, DoWriteTable);
        WriteTableKeepsInv(now);
        FlushShape(now);
        ghost var b := Apply(a, DoPublish);
        PublishKeepsInv(a);
        FlushOne();
        RunTwo(w, events, DoWriteTable, DoPublish);
        events := events + [DoWriteTable, DoPublish];
        now := b;
      }
    }

    /** Merges all tables into one. Returns the steps it took. */
    method CompactAll(ghost w: World) returns (ghost events: seq<Event>)
      requires Inv(w) && w.db == View()
      modifies this
      ensures Possible(w, events) && NoReopen(events)
      ensures var w' := Run(w, events); w'.db == View() && w'.hist == w.hist
      ensures |old(tables)| < 2 ==> tables == old(tables)
      ensures memBytes == old(memBytes)
      ensures |old(tables)| >= 2 ==> |tables| == 1 && tables[0].recs == Merged(TableRecs(old(tables)))
    {
      hide Inv, Merged;
      events := [];
      if |tables| < 2 {
        return;
      }
      var inputs := tables;
      var id := nextFile;
      nextFile := nextFile + 1;
      var merged := Merged(TableRecs(inputs));
      files := files[id := merged];
      ghost var a := Apply(w, DoWriteMerged);
      WriteMergedKeepsInv(w);
      tables := [Table(id, merged)] + NotIn(tables, inputs);
      NotInSelf(inputs, inputs);
      ghost var now := Apply(a, DoSwap);
      SwapKeepsInv(a);
      RunTwo(w, [], DoWriteMerged, DoSwap);
      assert [] + [DoWriteMerged, DoSwap] == [DoWriteMerged, DoSwap];
      events := [DoWriteMerged, DoSwap];
      ghost var more := UnlinkInputs(inputs, now);
      RunAppend(w, events, more);
      events := events + more;
    }

    /** Removes the files a compaction has replaced. */
    method UnlinkInputs(inputs: seq<Table>, ghost w: World) returns (ghost events: seq<Event>)
      requires inputs != [] && Inv(w) && w.db == View().(pending := Unlinking(inputs))
      modifies this`files
      ensures Possible(w, events) && NoReopen(events)
      ensures var w' := Run(w, events); w'.db == View() && w'.hist == w.hist
    {
      hide Inv;
      events := [];
      ghost var now := w;
      var i := 0;
      while i < |inputs|
        invariant i <= |inputs| && Inv(now) && now.hist == w.hist
        invariant Possible(w, events) && NoReopen(events) && Run(w, events) == now
        invariant now.db == View().(pending := if i == |inputs| then Idle else Unlinking(inputs[i..]))
      {
        ghost var next := Apply(now, DoUnlink);
        UnlinkKeepsInv(now);
        files := files - {inputs[i].id};
        assert inputs[i..][1..] == inputs[i + 1..];
        RunMore(w, events, DoUnlink);
        events := events + [DoUnlink];
        now := next;
        i := i + 1;
      }
    }

    /** Point read at a snapshot: memtables first, then tables, first hit wins. In a
        good state that is what the committed operations leave at the snapshot. */
    method GetAt(key: Key, snapshot: nat) returns (value: Option<seq<byte>>)
      ensures value == ValueOf(FirstHit(Sources(View()), key, snapshot))
      ensures forall w: World :: Good(w) && w.db == View() ==> PointRead(value, w.hist, key, snapshot)
    {
      hide FirstHit, Find, MemRecs, TableRecs, Good, PointRead;
      GoodAnswers(View(), key, snapshot);
      ghost var ss := Sources(View());
      FirstHitFrom(ss, 0, key, snapshot);
      assert ss[0] == active && ss[0..] == ss;
      var hit := Find(active, key, snapshot);
      if hit.Some? {
        return ValueOf(hit);
      }
      for i := 0 to |immutables|
        invariant FirstHit(ss, key, snapshot) == FirstHit(ss[i + 1..], key, snapshot)
      {
        FirstHitFrom(ss, i + 1, key, snapshot);
        assert ss[i + 1] == immutables[i].recs;
        hit := Find(immutables[i].recs, key, snapshot);
        if hit.Some? {
          return ValueOf(hit);
        }
      }
      for j := 0 to |tables|
        invariant FirstHit(ss, key, snapshot) == FirstHit(ss[|immutables| + 1 + j..], key, snapshot)
      {
        FirstHitFrom(ss, |immutables| + 1 + j, key, snapshot);
        assert ss[|immutables| + 1 + j] == tables[j].recs;
        hit := Find(tables[j].recs, key, snapshot);
        if hit.Some? {
          return ValueOf(hit);
        }
      }
      FirstHitFrom(ss, |ss|, key, snapshot);
      return None;
    }

    /** Range read: one bounded source per layer, merged and de-duplicated. In every
        reachable state that is what the committed operations leave within the bounds. */
    method RangeRecords(start: Bound, end: Bound, snapshot: nat) returns (out: seq<Rec>)
      requires AllSorted(Sources(View()))
      ensures out == Scan(Sources(View()), start, end, snapshot)
      ensures forall w: World :: Inv(w) && w.db == View() ==> RangeRead(out, w.hist, start, end, snapshot)
    {
      hide Inv, RangeRead;
      InvScans(View(), start, end, snapshot);
      hide AllSorted, FilterAll, Merged, Emit, Scan, MemRecs, TableRecs;
      var mems := MemRecs([Memtable(active, walId)] + immutables);
      var tableRecs := TableRecs(tables);
      assert Sources(View()) == mems + tableRecs;
      SortedParts(mems, tableRecs);
      var fromMems := MemtableSources(mems, start, end);
      var fromTables := SstableSources(tableRecs, start, end);
      FilterParts(mems, tableRecs, start, end);
      var iter := new DbRangeIter(fromMems + fromTables, end, snapshot);
      out := iter.CollectRecords();
      ScanIsEmit(Sources(View()), start, end, snapshot);
    }
  }

  lemma GoodAnswers(s: State, key: Key, snap: nat)
    ensures forall w: World :: Good(w) && w.db == s ==> PointRead(ValueOf(FirstHit(Sources(s), key, snap)), w.hist, key, snap)
  {
    hide *;
    forall w: World | Good(w) && w.db == s ensures PointRead(ValueOf(FirstHit(Sources(s), key, snap)), w.hist, key, snap) {
      PointReads(w, key, snap);
    }
  }

  lemma InvScans(s: State, start: Bound, end: Bound, snap: nat)
    ensures forall w: World :: Inv(w) && w.db == s ==> RangeRead(Scan(Sources(s), start, end, snap), w.hist, start, end, snap)
  {
    hide *;
    forall w: World | Inv(w) && w.db == s ensures RangeRead(Scan(Sources(s), start, end, snap), w.hist, start, end, snap) {
      RangeReads(w, start, end, snap);
    }
  }

  lemma SortedParts(a: seq<seq<Rec>>, b: seq<seq<Rec>>)
    requires AllSorted(a + b)
    ensures AllSorted(a) && AllSorted(b)
  {
    hide Sorted;
    forall i | 0 <= i < |a| ensures Sorted(a[i]) { assert (a + b)[i] == a[i]; }
    forall i | 0 <= i < |b| ensures Sorted(b[i]) { assert (a + b)[|a| + i] == b[i]; }
  }

  lemma FilterParts(a: seq<seq<Rec>>, b: seq<seq<Rec>>, start: Bound, end: Bound)
    ensures FilterAll(a + b, start, end) == FilterAll(a, start, end) + FilterAll(b, start, end)
  {
    hide Within;
  }

  lemma ScanIsEmit(rs: seq<seq<Rec>>, start: Bound, end: Bound, snap: nat)
    ensures Scan(rs, start, end, snap) == Emit(Merged(FilterAll(rs, start, end)), end, snap, None)
  {
    hide Emit, Merged, FilterAll;
  }

  method MemtableSources(rs: seq<seq<Rec>>, start: Bound, end: Bound) returns (out: seq<seq<Rec>>)
    requires AllSorted(rs)
    ensures out == FilterAll(rs, start, end)
  {
    hide Within, Sorted;
    out := [];
    for i := 0 to |rs|
      invariant out == FilterAll(rs, start, end)[..i]
    {
      var next := MemtableSource(rs[i], start, end);
      out := out + [next];
    }
  }

  method SstableSources(rs: seq<seq<Rec>>, start: Bound, end: Bound) returns (out: seq<seq<Rec>>)
    requires AllSorted(rs)
    ensures out == FilterAll(rs, start, end)
  {
    hide Within, Sorted;
    out := [];
    for i := 0 to |rs|
      invariant out == FilterAll(rs, start, end)[..i]
    {
      SstableSourceIsWithin(rs[i], start, end);
      out := out + [SstableSource(rs[i], start, end)];
    }
  }

  lemma FirstHitFrom(ss: seq<seq<Rec>>, k: nat, key: Key, snap: nat)
    requires k <= |ss|
    ensures k == |ss| ==> FirstHit(ss[k..], key, snap) == None
    ensures k < |ss| ==>
      FirstHit(ss[k..], key, snap) == if Find(ss[k], key, snap).Some? then Find(ss[k], key, snap) else FirstHit(ss[k + 1..], key, snap)
  {
    hide Find;
    if k < |ss| { assert ss[k..][0] == ss[k] && ss[k..][1..] == ss[k + 1..]; }
  }

  // ----- opening -----

  lemma OpenView(disk: Disk)
    ensures var ids := Ascending(disk.wals.Keys);
      var freshId := Max(LargestOrZero(disk.wals.Keys), LargestOrZero(disk.tables.Keys)) + 1;
      var top := TopSeqno(OpenTables(disk), disk.wals, ids);
      Open(disk) == State(top, [Memtable(Replayed(disk), freshId)], OpenTables(disk), freshId + 1,
                          Disk(disk.wals[freshId := Segment(top + 1, [])], disk.tables), Idle)
  {
    hide Replayed, TopSeqno, OpenTables, LargestOrZero;
  }

  /** Opens every table file, newest first. */
  method OpenAll(disk: Disk) returns (ts: seq<Table>)
    ensures ts == OpenTables(disk)
  {
    var ids := Descending(disk.tables.Keys);
    ts := [];
    for i := 0 to |ids|
      invariant ts == OpenTables(disk)[..i]
    {
      assert ids[i] in ids;
      ts := ts + [Table(ids[i], disk.tables[ids[i]])];
    }
  }

  /** Replays every segment, in number order, into one memtable. */
  method ReplayAll(disk: Disk) returns (m: seq<Rec>)
    ensures m == Replayed(disk)
  {
    hide ReplayLog, Ascending;
    var ids := Ascending(disk.wals.Keys);
    m := [];
    for i := 0 to |ids|
      invariant forall id :: id in ids[..i] ==> id in disk.wals
      invariant m == ReplaySegments(disk.wals, ids[..i])
    {
      assert ids[i] in ids;
      m := ReplayInto(m, disk.wals[ids[i]].log);
      assert ids[..i + 1][..i] == ids[..i];
    }
    assert ids[..|ids|] == ids;
  }

  // ----- loops the operations share -----

  /** Applies the operations of a batch one after the other. */
  method ApplyOps(memtable: seq<Rec>, n: nat, ops: Batch.Ops) returns (m: seq<Rec>)
    ensures m == ApplyBatch(memtable, n, ops)
  {
    m := memtable;
    var i := 0;
    assert ops[..0] == [];
    while i < |ops|
      invariant i <= |ops| && m == ApplyBatch(memtable, n, ops[..i])
    {
      match ops[i] {
        case Put(key, value) => m := Insert(m, Rec(key, n, Live, value));
        case Delete(key) => m := Insert(m, Rec(key, n, Tombstone, []));
      }
      assert ops[..i + 1][..i] == ops[..i];
      i := i + 1;
    }
    assert ops[..|ops|] == ops;
  }

  /** Replays one segment into the memtable. */
  method ReplayInto(memtable: seq<Rec>, log: seq<LogEntry>) returns (m: seq<Rec>)
    ensures m == ReplayLog(memtable, log)
  {
    m := memtable;
    var i := 0;
    assert log[..0] == [];
    while i < |log|
      invariant i <= |log| && m == ReplayLog(memtable, log[..i])
    {
      m := ApplyOps(m, log[i].seqno, log[i].ops);
      assert log[..i + 1][..i] == log[..i];
      i := i + 1;
    }
    assert log[..|log|] == log;
  }

  method KeepOthers(ms: seq<Memtable>, wal: nat) returns (kept: seq<Memtable>)
    ensures kept == DropWal(ms, wal)
  {
    kept := [];
    var i := 0;
    while i < |ms|
      invariant i <= |ms| && kept + DropWal(ms[i..], wal) == DropWal(ms, wal)
    {
      assert ms[i..][1..] == ms[i + 1..];
      if ms[i].wal != wal {
        Assoc(kept, [ms[i]], DropWal(ms[i + 1..], wal));
        kept := kept + [ms[i]];
      }
      i := i + 1;
    }
    assert ms[|ms|..] == [] && kept + [] == kept;
  }

  /** The tables that were not inputs of a compaction. */
  function NotIn(ts: seq<Table>, inputs: seq<Table>): seq<Table> {
    if ts == [] then []
    else if ts[0].id in TableIds(inputs) then NotIn(ts[1..], inputs)
    else [ts[0]] + NotIn(ts[1..], inputs)
  }

  lemma {:induction false} NotInSelf(ts: seq<Table>, inputs: seq<Table>)
    requires forall i :: 0 <= i < |ts| ==> ts[i] in inputs
    ensures NotIn(ts, inputs) == []
  {
    if ts != [] {
      var k :| 0 <= k < |inputs| && inputs[k] == ts[0];
      assert TableIds(inputs)[k] == ts[0].id;
      NotInSelf(ts[1..], inputs);
    }
  }

  // ----- shapes of steps -----

  lemma RotateShape(s: State)
    ensures Rotate(s).mems == [Memtable([], s.nextFile)] + s.mems && Rotate(s).pending == s.pending
  {
  }

  lemma FlushShape(w: World)
    requires Inv(w) && Enabled(w, DoWriteTable)
    ensures var a := Apply(w, DoWriteTable);
      && Enabled(a, DoPublish)
      && Apply(a, DoPublish).db.mems == w.db.mems[..|w.db.mems| - 1]
      && Apply(a, DoPublish).db == Publish(WriteTable(w.db)) && Apply(a, DoPublish).hist == w.hist
  {
    hide DropWal, Inv, WalsOk;
    InvWals(w);
    var a := WriteTable(w.db);
    WriteTableWals(w.db, w.hist);
    PublishMems(a, w.hist);
  }

  lemma InvWals(w: World)
    requires Inv(w)
    ensures WalsOk(w.db, w.hist)
  {
    hide WalsOk, SourcesOk, MemsOk, TablesOk, NumbersOk;
  }

  lemma WriteTableWals(s: State, h: Hist)
    requires WalsOk(s, h) && |s.mems| >= 2
    ensures WalsOk(WriteTable(s), h)
  {
    hide SegmentsOk;
  }
}
