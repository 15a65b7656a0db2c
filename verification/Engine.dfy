/** The store as a transition system. Each step touches the disk at most once,
    so a crash can be placed between any two of them; a public operation is a
    short sequence of steps. */
module Engine {
  import opened Bytes
  import opened Records
  import opened Merge
  import opened History
  import opened Ids
  import Batch

  // ----- state -----

  datatype LogEntry = LogEntry(seqno: nat, ops: Batch.Ops)

  /** One log segment, as the records its bytes replay to. */
  datatype Segment = Segment(first: nat, log: seq<LogEntry>)

  datatype Disk = Disk(wals: map<nat, Segment>, tables: map<nat, seq<Rec>>)

  /** A memtable and the log segment that feeds it. */
  datatype Memtable = Memtable(recs: seq<Rec>, wal: nat)

  datatype Table = Table(id: nat, recs: seq<Rec>)

  /** How far a flush or a compaction has got. */
  datatype Pending =
    | Idle
    | Flushing(id: nat)                // table written, not yet published
    | Compacting(id: nat)              // merged table written, not yet swapped in
    | Unlinking(inputs: seq<Table>)    // swapped in, inputs still to remove

  /** `mems[0]` is the active memtable; the rest wait to be flushed, newest first. */
  datatype State = State(
    seqno: nat,
    mems: seq<Memtable>,
    tables: seq<Table>,
    nextFile: nat,
    disk: Disk,
    pending: Pending)

  function MemRecs(ms: seq<Memtable>): (ss: seq<seq<Rec>>)
    ensures |ss| == |ms| && forall i :: 0 <= i < |ms| ==> ss[i] == ms[i].recs
  {
    seq(|ms|, i requires 0 <= i < |ms| => ms[i].recs)
  }

  function TableRecs(ts: seq<Table>): (ss: seq<seq<Rec>>)
    ensures |ss| == |ts| && forall i :: 0 <= i < |ts| ==> ss[i] == ts[i].recs
  {
    seq(|ts|, i requires 0 <= i < |ts| => ts[i].recs)
  }

  function TableIds(ts: seq<Table>): (ids: seq<nat>)
    ensures |ids| == |ts| && forall i :: 0 <= i < |ts| ==> ids[i] == ts[i].id
  {
    seq(|ts|, i requires 0 <= i < |ts| => ts[i].id)
  }

  /** The order a read visits: memtables, then tables. */
  function Sources(s: State): (ss: seq<seq<Rec>>)
    ensures |ss| == |s.mems| + |s.tables|
  {
    MemRecs(s.mems) + TableRecs(s.tables)
  }

  // ----- steps -----

  /** Log the batch, then apply it to the active memtable. */
  function Commit(s: State, ops: Batch.Ops): State
    requires s.mems != [] && s.mems[0].wal in s.disk.wals
  {
    var n := s.seqno + 1;
    var m := s.mems[0];
    var seg := s.disk.wals[m.wal];
    s.(seqno := n,
       mems := [Memtable(ApplyBatch(m.recs, n, ops), m.wal)] + s.mems[1..],
       disk := s.disk.(wals := s.disk.wals[m.wal := seg.(log := seg.log + [LogEntry(n, ops)])]))
  }

  /** Freeze the active memtable; a fresh one gets a fresh log segment. */
  function Rotate(s: State): State {
    s.(mems := [Memtable([], s.nextFile)] + s.mems,
       nextFile := s.nextFile + 1,
       disk := s.disk.(wals := s.disk.wals[s.nextFile := Segment(s.seqno + 1, [])]))
  }

  /** Write the oldest frozen memtable out as a table. */
  function WriteTable(s: State): State
    requires |s.mems| >= 2
  {
    s.(nextFile := s.nextFile + 1,
       disk := s.disk.(tables := s.disk.tables[s.nextFile := s.mems[|s.mems| - 1].recs]),
       pending := Flushing(s.nextFile))
  }

  function DropWal(ms: seq<Memtable>, wal: nat): seq<Memtable> {
    if ms == [] then []
    else if ms[0].wal == wal then DropWal(ms[1..], wal)
    else [ms[0]] + DropWal(ms[1..], wal)
  }

  /** Register the new table in front, drop the memtable it came from, unlink its segment. */
  function Publish(s: State): State
    requires |s.mems| >= 2 && s.pending.Flushing?
  {
    var m := s.mems[|s.mems| - 1];
    s.(mems := [s.mems[0]] + DropWal(s.mems[1..], m.wal),
       tables := [Table(s.pending.id, m.recs)] + s.tables,
       disk := s.disk.(wals := s.disk.wals - {m.wal}),
       pending := Idle)
  }

  /** Merge every live table into a new one. */
  function WriteMerged(s: State): State {
    s.(nextFile := s.nextFile + 1,
       disk := s.disk.(tables := s.disk.tables[s.nextFile := Merged(TableRecs(s.tables))]),
       pending := Compacting(s.nextFile))
  }

  /** The merged table replaces its inputs. */
  function Swap(s: State): State
    requires s.pending.Compacting?
  {
    s.(tables := [Table(s.pending.id, Merged(TableRecs(s.tables)))],
       pending := Unlinking(s.tables))
  }

  /** Remove one input file. */
  function Unlink(s: State): State
    requires s.pending.Unlinking? && s.pending.inputs != []
  {
    var inputs := s.pending.inputs;
    s.(disk := s.disk.(tables := s.disk.tables - {inputs[0].id}),
       pending := if |inputs| == 1 then Idle else Unlinking(inputs[1..]))
  }

  // ----- opening a directory -----

  function ReplayLog(m: seq<Rec>, log: seq<LogEntry>): seq<Rec> {
    if log == [] then m
    else
      var last := log[|log| - 1];
      ApplyBatch(ReplayLog(m, log[..|log| - 1]), last.seqno, last.ops)
  }

  /** Replays the listed segments, one after the other, into one memtable. */
  function ReplaySegments(wals: map<nat, Segment>, ids: seq<nat>): seq<Rec>
    requires forall id :: id in ids ==> id in wals
  {
    if ids == [] then []
    else ReplayLog(ReplaySegments(wals, ids[..|ids| - 1]), wals[ids[|ids| - 1]].log)
  }

  function Replayed(disk: Disk): seq<Rec> {
    ReplaySegments(disk.wals, Ascending(disk.wals.Keys))
  }

  function OpenTables(disk: Disk): (ts: seq<Table>) {
    var ids := Descending(disk.tables.Keys);
    seq(|ids|, i requires 0 <= i < |ids| => assert ids[i] in ids; Table(ids[i], disk.tables[ids[i]]))
  }

  function MaxLogSeqno(log: seq<LogEntry>): (n: nat)
    ensures forall i :: 0 <= i < |log| ==> log[i].seqno <= n
    ensures n > 0 ==> exists i :: 0 <= i < |log| && log[i].seqno == n
  {
    if log == [] then 0
    else
      var n := MaxLogSeqno(log[1..]);
      assert n > 0 ==> exists i :: 0 <= i < |log| - 1 && log[1..][i] == log[i + 1] && log[1..][i].seqno == n;
      if n < log[0].seqno then log[0].seqno else n
  }

  /** Largest sequence number recorded by any table header or replayed log record. */
  function TopSeqno(ts: seq<Table>, wals: map<nat, Segment>, ids: seq<nat>): (n: nat)
    requires forall id :: id in ids ==> id in wals
  {
    if ts != [] then Max(MaxSeqno(ts[0].recs), TopSeqno(ts[1..], wals, ids))
    else if ids != [] then Max(MaxLogSeqno(wals[ids[0]].log), TopSeqno(ts, wals, ids[1..]))
    else 0
  }

  function LargestOrZero(s: set<nat>): nat {
    if s == {} then 0 else Largest(s)
  }

  /** Open a directory: tables newest first, every segment replayed in order, and a
      fresh segment for new writes. The replayed segments stay where they are. */
  function Open(disk: Disk): State {
    var ids := Ascending(disk.wals.Keys);
    var tables := OpenTables(disk);
    var seqno := TopSeqno(tables, disk.wals, ids);
    var freshId := Max(LargestOrZero(disk.wals.Keys), LargestOrZero(disk.tables.Keys)) + 1;
    State(seqno,
          [Memtable(Replayed(disk), freshId)],
          tables,
          freshId + 1,
          disk.(wals := disk.wals[freshId := Segment(seqno + 1, [])]),
          Idle)
  }

  /** The sources a reopened store reads. */
  function RecoveredSources(disk: Disk): seq<seq<Rec>> {
    [Replayed(disk)] + TableRecs(OpenTables(disk))
  }

  lemma OpenSources(disk: Disk)
    ensures Sources(Open(disk)) == RecoveredSources(disk)
  {
    assert MemRecs(Open(disk).mems) == [Replayed(disk)];
  }

  // ----- versions in logs -----

  predicate LogHas(log: seq<LogEntry>, key: Key, n: nat) {
    exists i :: 0 <= i < |log| && log[i].seqno == n && Final(log[i].ops, key, n).Some?
  }

  /** A log is a list of committed batches in order. */
  predicate LogOk(log: seq<LogEntry>, h: Hist) {
    && (forall i :: 0 <= i < |log| ==> 1 <= log[i].seqno <= |h| && log[i].ops == h[log[i].seqno - 1])
    && forall i, j :: 0 <= i < j < |log| ==> log[i].seqno < log[j].seqno
  }

  predicate LogBefore(x: seq<LogEntry>, y: seq<LogEntry>) {
    forall i, j :: 0 <= i < |x| && 0 <= j < |y| ==> x[i].seqno < y[j].seqno
  }

  /** Segments in number order hold batches in commit order. */
  predicate SegmentsOk(wals: map<nat, Segment>, h: Hist) {
    && (forall id :: id in wals ==> LogOk(wals[id].log, h))
    && forall a, b :: a in wals && b in wals && a < b ==> LogBefore(wals[a].log, wals[b].log)
  }

  ghost predicate AllBelow(s: seq<Rec>, bound: nat) {
    forall key, n: nat :: Has(s, key, n) ==> n < bound
  }

  ghost predicate ReplayMeans(m: seq<Rec>, log: seq<LogEntry>, r: seq<Rec>) {
    forall key, n :: Has(r, key, n) <==> Has(m, key, n) || LogHas(log, key, n)
  }

  lemma LogHasAppend(log: seq<LogEntry>, e: LogEntry, key: Key, n: nat)
    ensures LogHas(log + [e], key, n) <==> LogHas(log, key, n) || (e.seqno == n && Final(e.ops, key, n).Some?)
  {
    hide Final;
    var more := log + [e];
    if LogHas(log, key, n) {
      var i :| 0 <= i < |log| && log[i].seqno == n && Final(log[i].ops, key, n).Some?;
      assert more[i] == log[i];
    }
    assert more[|log|] == e;
  }

  /** Replaying one more log entry. */
  lemma ReplayEntry(t: seq<Rec>, e: LogEntry, h: Hist)
    requires Faithful(t, h) && AllBelow(t, e.seqno) && 1 <= e.seqno <= |h| && e.ops == h[e.seqno - 1]
    ensures var r := ApplyBatch(t, e.seqno, e.ops);
      && Faithful(r, h) && AllBelow(r, e.seqno + 1)
      && forall key, n :: Has(r, key, n) <==> Has(t, key, n) || (e.seqno == n && Final(e.ops, key, n).Some?)
  {
    hide Has, Faithful, ApplyBatch, Final;
    assert forall key :: !Has(t, key, e.seqno);
    ApplyBatchIsFaithful(t, h, e.seqno);
    FaithfulSorted(t, h);
    forall key, n: nat
      ensures Has(ApplyBatch(t, e.seqno, e.ops), key, n) <==> Has(t, key, n) || (e.seqno == n && Final(e.ops, key, n).Some?)
    {
      ApplyBatchMeaning(t, e.seqno, e.ops, key, n);
    }
  }

  /** Replaying one segment on top of older records. */
  lemma {:induction false} ReplayLogMeaning(m: seq<Rec>, log: seq<LogEntry>, h: Hist)
    requires Faithful(m, h) && LogOk(log, h) && (log != [] ==> AllBelow(m, log[0].seqno))
    ensures Faithful(ReplayLog(m, log), h) && ReplayMeans(m, log, ReplayLog(m, log))
    ensures log != [] ==> AllBelow(ReplayLog(m, log), log[|log| - 1].seqno + 1)
    decreases |log|
  {
    hide Has, Faithful, ApplyBatch, Final, LogHas;
    if log == [] {
      forall key, n ensures !LogHas(log, key, n) { EmptyLogHas(key, n); }
    } else {
      var front, last := log[..|log| - 1], log[|log| - 1];
      ReplayLogMeaning(m, front, h);
      assert front != [] ==> front[0] == log[0] && front[|front| - 1].seqno < last.seqno;
      ReplayEntry(ReplayLog(m, front), last, h);
      assert log == front + [last];
      forall key, n
        ensures LogHas(log, key, n) <==> LogHas(front, key, n) || (last.seqno == n && Final(last.ops, key, n).Some?)
      {
        LogHasAppend(front, last, key, n);
      }
    }
  }

  lemma EmptyLogHas(key: Key, n: nat)
    ensures !LogHas([], key, n)
  {
  }

  lemma FaithfulSorted(s: seq<Rec>, h: Hist)
    requires Faithful(s, h)
    ensures Sorted(s)
  {
  }

  predicate SomeLogHas(wals: map<nat, Segment>, ids: seq<nat>, key: Key, n: nat)
    requires forall id :: id in ids ==> id in wals
  {
    exists i :: 0 <= i < |ids| && LogHas(wals[ids[i]].log, key, n)
  }

  /** Replaying segments in ascending order gives a faithful memtable holding
      exactly the logged versions. */
  lemma {:induction false} ReplaySegmentsMeaning(wals: map<nat, Segment>, ids: seq<nat>, h: Hist)
    requires (forall id :: id in ids ==> id in wals) && SegmentsOk(wals, h)
    requires forall i, j :: 0 <= i < j < |ids| ==> ids[i] < ids[j]
    ensures Faithful(ReplaySegments(wals, ids), h)
    ensures forall key, n :: Has(ReplaySegments(wals, ids), key, n) <==> SomeLogHas(wals, ids, key, n)
    decreases |ids|
  {
    hide Has, LogHas, Faithful, ReplayLog, LogOk;
    if ids == [] {
      EmptyIsFaithful(h);
    } else {
      var front, last := ids[..|ids| - 1], ids[|ids| - 1];
      var m := ReplaySegments(wals, front);
      assert forall id :: id in front ==> id in ids;
      ReplaySegmentsMeaning(wals, front, h);
      var log := wals[last].log;
      forall key, n: nat | Has(m, key, n) && log != [] ensures n < log[0].seqno {
        OlderSegment(wals, front, last, h, key, n);
      }
      hide SegmentsOk;
      ReplayLogMeaning(m, log, h);
      forall key, n
        ensures SomeLogHas(wals, ids, key, n) <==> SomeLogHas(wals, front, key, n) || LogHas(log, key, n)
      {
        SomeLogHasLast(wals, ids, key, n);
      }
    }
  }

  lemma OlderSegment(wals: map<nat, Segment>, ids: seq<nat>, last: nat, h: Hist, key: Key, n: nat)
    requires (forall id :: id in ids ==> id in wals && id < last) && last in wals && SegmentsOk(wals, h)
    requires SomeLogHas(wals, ids, key, n) && wals[last].log != []
    ensures n < wals[last].log[0].seqno
  {
    var i :| 0 <= i < |ids| && LogHas(wals[ids[i]].log, key, n);
    assert ids[i] in ids;
    assert LogBefore(wals[ids[i]].log, wals[last].log);
  }

  lemma SomeLogHasLast(wals: map<nat, Segment>, ids: seq<nat>, key: Key, n: nat)
    requires ids != [] && forall id :: id in ids ==> id in wals
    ensures var front := ids[..|ids| - 1];
      SomeLogHas(wals, ids, key, n) <==> SomeLogHas(wals, front, key, n) || LogHas(wals[ids[|ids| - 1]].log, key, n)
  {
    hide LogHas;
    var front := ids[..|ids| - 1];
    if SomeLogHas(wals, ids, key, n) {
      var i :| 0 <= i < |ids| && LogHas(wals[ids[i]].log, key, n);
      assert i < |front| ==> front[i] == ids[i];
    }
    if SomeLogHas(wals, front, key, n) {
      var i :| 0 <= i < |front| && LogHas(wals[front[i]].log, key, n);
      assert front[i] == ids[i];
    }
  }

  lemma EmptyIsFaithful(h: Hist)
    ensures Faithful([], h) && forall key, n :: !Has([], key, n)
  {
  }

  /** A version is in the log of some segment on disk. */
  predicate OnLog(wals: map<nat, Segment>, key: Key, n: nat) {
    exists id :: id in wals && LogHas(wals[id].log, key, n)
  }

  /** What a reopened store finds in its memtable. */
  lemma ReplayedMeaning(disk: Disk, h: Hist)
    requires SegmentsOk(disk.wals, h)
    ensures Faithful(Replayed(disk), h)
    ensures forall key, n :: Has(Replayed(disk), key, n) <==> OnLog(disk.wals, key, n)
  {
    hide Has, LogHas, Faithful, ReplaySegments, SegmentsOk;
    var ids := Ascending(disk.wals.Keys);
    ReplaySegmentsMeaning(disk.wals, ids, h);
    forall key, n ensures SomeLogHas(disk.wals, ids, key, n) <==> OnLog(disk.wals, key, n) {
      if SomeLogHas(disk.wals, ids, key, n) {
        var i :| 0 <= i < |ids| && LogHas(disk.wals[ids[i]].log, key, n);
        assert ids[i] in ids;
      }
      if OnLog(disk.wals, key, n) {
        var id :| id in disk.wals && LogHas(disk.wals[id].log, key, n);
        assert id in ids;
      }
    }
  }
}
