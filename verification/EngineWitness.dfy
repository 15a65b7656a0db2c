/** A run after which a reopened store answers with a superseded value: segments
    replayed at open are never removed, and once the memtable they fed has been
    flushed together with newer writes they come back on top of the tables. */
module EngineWitness {
  import opened Bytes
  import opened Records
  import opened History
  import opened Layers
  import opened Ids
  import opened Engine
  import opened EngineInv
  import opened EngineReopen
  import opened EngineTheorems
  import Batch

  function V(key: Key, n: nat, value: seq<byte>): Rec {
    Rec(key, n, Live, value)
  }

  lemma OneId(a: nat)
    ensures Ascending({a}) == [a] && Descending({a}) == [a] && Largest({a}) == a
  {
    assert {a} - {a} == {};
  }

  lemma TwoIds(a: nat, b: nat)
    requires a < b
    ensures Ascending({a, b}) == [a, b]
  {
    assert {a, b} - {b} == {a};
    OneId(a);
  }

  lemma OnePut(m: seq<Rec>, n: nat, key: Key, value: seq<byte>)
    ensures ApplyBatch(m, n, [Batch.Put(key, value)]) == Insert(m, V(key, n, value))
  {
    var ops := [Batch.Put(key, value)];
    assert ops[..0] == [];
    assert ApplyBatch(m, n, ops[..0]) == m;
  }

  /** First life: one put, never flushed. */
  function FirstDisk(key: Key, oldValue: seq<byte>): Disk {
    Disk(map[1 := Segment(1, [LogEntry(1, [Batch.Put(key, oldValue)])])], map[])
  }

  lemma FirstLife(key: Key, oldValue: seq<byte>)
    ensures var w := Start();
      var s := w.db;
      var ops := [Batch.Put(key, oldValue)];
      && s.pending.Idle? && s.mems != [] && s.mems[0].wal in s.disk.wals
      && Commit(s, ops) == State(1, [Memtable([V(key, 1, oldValue)], 1)], [], 2, FirstDisk(key, oldValue), Idle)
  {
    StartShape();
    OnePut([], 1, key, oldValue);
    hide Start, Open, ApplyBatch;
    var (s, ops) := (Start().db, [Batch.Put(key, oldValue)]);
    assert Insert([], V(key, 1, oldValue)) == [V(key, 1, oldValue)];
    assert Commit(s, ops).mems == [Memtable([V(key, 1, oldValue)], 1)];
    assert [] + [LogEntry(1, ops)] == [LogEntry(1, ops)];
    assert Commit(s, ops).disk.wals == FirstDisk(key, oldValue).wals;
  }

  lemma ReplayOne(key: Key, oldValue: seq<byte>)
    ensures ReplayLog([], [LogEntry(1, [Batch.Put(key, oldValue)])]) == [V(key, 1, oldValue)]
  {
    var log := [LogEntry(1, [Batch.Put(key, oldValue)])];
    assert log[..0] == [];
    assert ReplayLog([], log[..0]) == [];
    OnePut([], 1, key, oldValue);
  }

  lemma ReplayOneSegment(wals: map<nat, Segment>, id: nat)
    requires id in wals
    ensures ReplaySegments(wals, [id]) == ReplayLog([], wals[id].log)
  {
    hide ReplayLog;
    assert [id][..0] == [];
    assert ReplaySegments(wals, []) == [];
  }

  lemma ReplayedIs(disk: Disk, ids: seq<nat>)
    requires Ascending(disk.wals.Keys) == ids
    ensures Replayed(disk) == ReplaySegments(disk.wals, ids)
  {
  }

  lemma FirstReplay(key: Key, oldValue: seq<byte>)
    ensures Replayed(FirstDisk(key, oldValue)) == [V(key, 1, oldValue)]
  {
    var disk := FirstDisk(key, oldValue);
    assert disk.wals.Keys == {1};
    hide Ascending, ReplayLog, ReplaySegments, Replayed;
    OneId(1);
    ReplayedIs(disk, [1]);
    ReplayOneSegment(disk.wals, 1);
    ReplayOne(key, oldValue);
  }

  lemma FirstTop(key: Key, oldValue: seq<byte>)
    ensures TopSeqno([], FirstDisk(key, oldValue).wals, [1]) == 1
  {
    var wals := FirstDisk(key, oldValue).wals;
    var log := wals[1].log;
    assert MaxLogSeqno(log) == 1 by { assert log[0].seqno == 1; }
    hide MaxLogSeqno;
    assert [1][1..] == [];
    assert TopSeqno([], wals, []) == 0;
  }

  lemma OpenIs(disk: Disk, ids: seq<nat>, ts: seq<Table>, recs: seq<Rec>, top: nat, last: nat)
    requires Ascending(disk.wals.Keys) == ids && OpenTables(disk) == ts && Replayed(disk) == recs
    requires TopSeqno(ts, disk.wals, ids) == top
    requires Max(LargestOrZero(disk.wals.Keys), LargestOrZero(disk.tables.Keys)) == last
    ensures Open(disk) == State(top, [Memtable(recs, last + 1)], ts, last + 2,
                                disk.(wals := disk.wals[last + 1 := Segment(top + 1, [])]), Idle)
  {
    hide Ascending, OpenTables, Replayed, TopSeqno, LargestOrZero;
  }

  lemma NoTables(disk: Disk)
    requires disk.tables == map[]
    ensures OpenTables(disk) == [] && LargestOrZero(disk.tables.Keys) == 0
  {
    assert disk.tables.Keys == {};
  }

  lemma OneWal(disk: Disk)
    requires disk.wals.Keys == {1}
    ensures Ascending(disk.wals.Keys) == [1] && LargestOrZero(disk.wals.Keys) == 1
  {
    OneId(1);
  }

  /** Second life: the put is replayed; its segment stays on disk. */
  lemma SecondLife(key: Key, oldValue: seq<byte>)
    ensures var disk := FirstDisk(key, oldValue);
      Open(disk) == State(1, [Memtable([V(key, 1, oldValue)], 2)], [], 3,
                          Disk(disk.wals[2 := Segment(2, [])], map[]), Idle)
  {
    var disk := FirstDisk(key, oldValue);
    assert disk.wals.Keys == {1} && disk.tables == map[];
    hide Ascending, OpenTables, Replayed, TopSeqno, LargestOrZero, FirstDisk, V, Open;
    OneWal(disk);
    NoTables(disk);
    FirstReplay(key, oldValue);
    FirstTop(key, oldValue);
    OpenIs(disk, [1], [], [V(key, 1, oldValue)], 1, 1);
  }

  /** What the second life leaves: the old segment, an empty one, and one table. */
  function LastDisk(key: Key, oldValue: seq<byte>, newValue: seq<byte>): Disk {
    Disk(map[1 := Segment(1, [LogEntry(1, [Batch.Put(key, oldValue)])]), 3 := Segment(3, [])],
         map[4 := [V(key, 2, newValue), V(key, 1, oldValue)]])
  }

  lemma FlushedLife(key: Key, oldValue: seq<byte>, newValue: seq<byte>)
    ensures var s := Open(FirstDisk(key, oldValue));
      && s.mems != [] && s.mems[0].wal in s.disk.wals
      && var s' := WriteTable(Rotate(Commit(s, [Batch.Put(key, newValue)])));
         Publish(s').disk == LastDisk(key, oldValue, newValue) && Publish(s').pending == Idle
  {
    SecondLife(key, oldValue);
    hide Open, ApplyBatch, OpenTables, TopSeqno, Replayed;
    var r := V(key, 1, oldValue);
    OnePut([r], 2, key, newValue);
    LessIrreflexive(key);
    assert Insert([r], V(key, 2, newValue)) == [V(key, 2, newValue), r];
    var s := Open(FirstDisk(key, oldValue));
    var c := Commit(s, [Batch.Put(key, newValue)]);
    assert c.mems == [Memtable([V(key, 2, newValue), r], 2)];
    var p := Publish(WriteTable(Rotate(c)));
    assert p.disk.wals == LastDisk(key, oldValue, newValue).wals;
  }

  lemma LastReplay(key: Key, oldValue: seq<byte>, newValue: seq<byte>)
    ensures Replayed(LastDisk(key, oldValue, newValue)) == [V(key, 1, oldValue)]
  {
    var disk := LastDisk(key, oldValue, newValue);
    assert disk.wals.Keys == {1, 3};
    hide Ascending, ReplayLog, Replayed;
    TwoIds(1, 3);
    ReplayedIs(disk, [1, 3]);
    assert [1, 3][..1] == [1];
    ReplayOneSegment(disk.wals, 1);
    ReplayOne(key, oldValue);
    ReplayNothing([V(key, 1, oldValue)]);
  }

  lemma ReplayNothing(m: seq<Rec>)
    ensures ReplayLog(m, []) == m
  {
  }

  lemma LastTables(disk: Disk, recs: seq<Rec>)
    requires disk.tables == map[4 := recs]
    ensures OpenTables(disk) == [Table(4, recs)]
  {
    var ts := [Table(4, recs)];
    assert TableIds(ts) == [4];
    OpenTablesAre(disk, ts);
  }

  lemma LastOpen(key: Key, oldValue: seq<byte>, newValue: seq<byte>)
    ensures RecoveredSources(LastDisk(key, oldValue, newValue)) == [[V(key, 1, oldValue)], [V(key, 2, newValue), V(key, 1, oldValue)]]
  {
    var disk := LastDisk(key, oldValue, newValue);
    var recs := [V(key, 2, newValue), V(key, 1, oldValue)];
    hide Replayed, OpenTables, V;
    LastReplay(key, oldValue, newValue);
    LastTables(disk, recs);
    assert TableRecs([Table(4, recs)]) == [recs];
  }

  /** The whole run. */
  function Events(key: Key, oldValue: seq<byte>, newValue: seq<byte>): seq<Event> {
    [DoCommit([Batch.Put(key, oldValue)]), DoReopen,
     DoCommit([Batch.Put(key, newValue)]), DoRotate, DoWriteTable, DoPublish]
  }

  lemma Unroll(w: World, e: Event, rest: seq<Event>)
    requires Enabled(w, e) && Possible(Apply(w, e), rest)
    ensures Possible(w, [e] + rest) && Run(w, [e] + rest) == Run(Apply(w, e), rest)
  {
    hide Apply, Enabled;
    assert ([e] + rest)[1..] == rest;
  }

  /** The second life, from the reopened store on. */
  lemma RunSecondLife(key: Key, oldValue: seq<byte>, newValue: seq<byte>, w: World)
    requires w.db == Open(FirstDisk(key, oldValue)) && w.hist == [[Batch.Put(key, oldValue)]]
    ensures var e := Events(key, oldValue, newValue);
      && Possible(w, e[2..]) && Run(w, e[2..]).db.disk == LastDisk(key, oldValue, newValue)
      && Run(w, e[2..]).hist == [[Batch.Put(key, oldValue)], [Batch.Put(key, newValue)]]
  {
    hide Open, Commit, LastDisk, FirstDisk;
    var e := Events(key, oldValue, newValue);
    SecondLife(key, oldValue);
    FlushedLife(key, oldValue, newValue);
    var w3 := Apply(w, e[2]);
    assert w3.db.pending == Idle && |w3.db.mems| >= 1 by { CommitShape(w.db, [Batch.Put(key, newValue)]); }
    var w4 := Apply(w3, e[3]);
    var w5 := Apply(w4, e[4]);
    var w6 := Apply(w5, e[5]);
    assert Possible(w6, []) && Run(w6, []) == w6;
    hide *;
    Unroll(w5, e[5], []);
    Unroll(w4, e[4], [e[5]]);
    Unroll(w3, e[3], [e[4]] + [e[5]]);
    Unroll(w, e[2], [e[3]] + ([e[4]] + [e[5]]));
    assert e[2..] == [e[2]] + ([e[3]] + ([e[4]] + [e[5]]));
  }

  lemma RunEvents(key: Key, oldValue: seq<byte>, newValue: seq<byte>)
    ensures Possible(Start(), Events(key, oldValue, newValue))
    ensures Run(Start(), Events(key, oldValue, newValue)).db.disk == LastDisk(key, oldValue, newValue)
    ensures Run(Start(), Events(key, oldValue, newValue)).hist == [[Batch.Put(key, oldValue)], [Batch.Put(key, newValue)]]
  {
    var e := Events(key, oldValue, newValue);
    StartShape();
    FirstLife(key, oldValue);
    SecondLife(key, oldValue);
    hide Open, Start, Commit, LastDisk, FirstDisk;
    var w0 := Start();
    assert w0.hist == [];
    var w1 := Apply(w0, e[0]);
    var w2 := Apply(w1, e[1]);
    assert w2.db == Open(FirstDisk(key, oldValue)) && w2.hist == [[Batch.Put(key, oldValue)]];
    RunSecondLife(key, oldValue, newValue, w2);
    hide *;
    Unroll(w1, e[1], e[2..]);
    Unroll(w0, e[0], [e[1]] + e[2..]);
    assert e == [e[0]] + ([e[1]] + e[2..]);
  }

  lemma CommitShape(s: State, ops: Batch.Ops)
    requires s.mems != [] && s.mems[0].wal in s.disk.wals
    ensures Commit(s, ops).pending == s.pending && |Commit(s, ops).mems| == |s.mems|
  {
  }

  /** Dropping a store without closing it, writing and flushing in the next life, and
      opening once more reads the superseded value, although the write of the new one
      was acknowledged and flushed. */
  lemma ReplayedSegmentGoesStale(key: Key, oldValue: seq<byte>, newValue: seq<byte>)
    ensures var events := Events(key, oldValue, newValue);
      && Possible(Start(), events)
      && var w := Run(Start(), events);
         && Newest(w.hist, key, 2) == Some(V(key, 2, newValue))
         && FirstHit(Sources(Open(w.db.disk)), key, 2) == Some(V(key, 1, oldValue))
  {
    RunEvents(key, oldValue, newValue);
    LastOpen(key, oldValue, newValue);
    OpenSources(LastDisk(key, oldValue, newValue));
    var h := [[Batch.Put(key, oldValue)], [Batch.Put(key, newValue)]];
    assert Final(h[1], key, 2) == Some(V(key, 2, newValue));
    assert Newest(h, key, 2) == Some(V(key, 2, newValue));
    hide Open, Run, LastDisk, Possible;
  }
}
