/** What every step of the store keeps, over any number of lives and crashes. */
module EngineInv {
  import opened Bytes
  import opened Records
  import opened Merge
  import opened History
  import opened Layers
  import opened Ids
  import opened Engine
  import Batch

  /** A store, the batches it has acknowledged, and the file numbers it has created. */
  datatype World = World(db: State, hist: Hist, created: seq<nat>)

  // ----- the invariant, piece by piece -----

  /** Reads have everything: sources hold only committed versions, and all of them. */
  ghost predicate SourcesOk(s: State, h: Hist) {
    s.seqno == |h| && AllFaithful(Sources(s), h) && Complete(Sources(s), h)
  }

  /** Every memtable has its segment on disk, numbers descend, none is above the active one. */
  ghost predicate WalsOk(s: State, h: Hist) {
    && s.mems != []
    && SegmentsOk(s.disk.wals, h)
    && (forall i :: 0 <= i < |s.mems| ==> s.mems[i].wal in s.disk.wals)
    && (forall i, j :: 0 <= i < j < |s.mems| ==> s.mems[i].wal > s.mems[j].wal)
    && forall id :: id in s.disk.wals ==> id <= s.mems[0].wal
  }

  predicate IsLive(ms: seq<Memtable>, id: nat) {
    exists i :: 0 <= i < |ms| && ms[i].wal == id
  }

  /** What a memtable's own segment logs is in the memtable. */
  ghost predicate Logged(wals: map<nat, Segment>, m: Memtable)
    requires m.wal in wals
  {
    forall key, n :: LogHas(wals[m.wal].log, key, n) ==> Has(m.recs, key, n)
  }

  /** A version is logged by the memtable's own segment or by one left from an earlier life. */
  predicate Backs(wals: map<nat, Segment>, ms: seq<Memtable>, m: Memtable, id: nat, key: Key, n: nat) {
    id in wals && (id == m.wal || !IsLive(ms, id)) && LogHas(wals[id].log, key, n)
  }

  ghost predicate Backed(wals: map<nat, Segment>, ms: seq<Memtable>, m: Memtable) {
    forall key, n :: Has(m.recs, key, n) ==> exists id :: Backs(wals, ms, m, id, key, n)
  }

  ghost predicate MemsOk(s: State) {
    && (forall i :: 0 <= i < |s.mems| ==> s.mems[i].wal in s.disk.wals && Logged(s.disk.wals, s.mems[i]))
    && forall i :: 0 <= i < |s.mems| ==> Backed(s.disk.wals, s.mems, s.mems[i])
  }

  /** The tables that must be on disk, newest first. */
  function DiskTables(s: State): seq<Table> {
    match s.pending
    case Idle => s.tables
    case Flushing(id) => if s.mems == [] then s.tables else [Table(id, s.mems[|s.mems| - 1].recs)] + s.tables
    case Compacting(id) => [Table(id, Merged(TableRecs(s.tables)))] + s.tables
    case Unlinking(inputs) => s.tables + inputs
  }

  ghost predicate OnDisk(tables: map<nat, seq<Rec>>, ts: seq<Table>) {
    && Descends(TableIds(ts))
    && (forall id :: id in tables <==> id in TableIds(ts))
    && forall i :: 0 <= i < |ts| ==> ts[i].id in tables && tables[ts[i].id] == ts[i].recs
  }

  /** Inputs waiting to be unlinked are covered by the merged table. */
  ghost predicate Covered(s: State, h: Hist) {
    s.pending.Unlinking? ==>
      && |s.tables| == 1 && s.pending.inputs != []
      && forall i :: 0 <= i < |s.pending.inputs| ==>
        && Faithful(s.pending.inputs[i].recs, h)
        && forall key, n :: Has(s.pending.inputs[i].recs, key, n) ==> Has(s.tables[0].recs, key, n)
  }

  ghost predicate TablesOk(s: State, h: Hist) {
    && OnDisk(s.disk.tables, DiskTables(s))
    && (s.pending.Flushing? ==> |s.mems| >= 2)
    && (s.pending.Compacting? ==> |s.tables| >= 2)
    && Covered(s, h)
  }

  predicate FileOnDisk(disk: Disk, id: nat) {
    id in disk.wals || id in disk.tables
  }

  /** File numbers only grow, and the last one created is still on disk. */
  ghost predicate NumbersOk(s: State, created: seq<nat>) {
    && created != []
    && (forall i, j :: 0 <= i < j < |created| ==> created[i] < created[j])
    && FileOnDisk(s.disk, created[|created| - 1])
    && (forall id :: FileOnDisk(s.disk, id) ==> id <= created[|created| - 1])
    && s.nextFile == created[|created| - 1] + 1
    && (s.pending.Flushing? ==> s.pending.id == created[|created| - 1])
  }

  ghost predicate Inv(w: World) {
    && SourcesOk(w.db, w.hist)
    && WalsOk(w.db, w.hist)
    && MemsOk(w.db)
    && TablesOk(w.db, w.hist)
    && NumbersOk(w.db, w.created)
  }

  // ----- events -----

  datatype Event =
    | DoCommit(ops: Batch.Ops)
    | DoRotate
    | DoWriteTable
    | DoPublish
    | DoWriteMerged
    | DoSwap
    | DoUnlink
    | DoReopen      // crash, or drop without closing, then open

  /** Public operations are atomic: nothing else starts while a flush or compaction is under way. */
  predicate Enabled(w: World, e: Event) {
    var s := w.db;
    match e
    case DoCommit(ops) => s.pending.Idle? && s.mems != [] && s.mems[0].wal in s.disk.wals
    case DoRotate => s.pending.Idle?
    case DoWriteTable => s.pending.Idle? && |s.mems| >= 2
    case DoPublish => s.pending.Flushing? && |s.mems| >= 2
    case DoWriteMerged => s.pending.Idle? && |s.tables| >= 2
    case DoSwap => s.pending.Compacting?
    case DoUnlink => s.pending.Unlinking? && s.pending.inputs != []
    case DoReopen => true
  }

  function Trim(h: Hist, n: nat): Hist {
    if n <= |h| then h[..n] else h
  }

  /** Reopening forgets batch numbers above the largest one found on disk; they can
      only belong to batches without operations. */
  function Reopen(w: World): World {
    var s := Open(w.db.disk);
    World(s, Trim(w.hist, s.seqno), w.created + [s.nextFile - 1])
  }

  function Apply(w: World, e: Event): World
    requires Enabled(w, e)
  {
    var s := w.db;
    match e
    case DoCommit(ops) => World(Commit(s, ops), w.hist + [ops], w.created)
    case DoRotate => World(Rotate(s), w.hist, w.created + [s.nextFile])
    case DoWriteTable => World(WriteTable(s), w.hist, w.created + [s.nextFile])
    case DoPublish => World(Publish(s), w.hist, w.created)
    case DoWriteMerged => World(WriteMerged(s), w.hist, w.created + [s.nextFile])
    case DoSwap => World(Swap(s), w.hist, w.created)
    case DoUnlink => World(Unlink(s), w.hist, w.created)
    case DoReopen => Reopen(w)
  }

  /** Opening an empty directory. */
  function Start(): World {
    World(Open(Disk(map[], map[])), [], [1])
  }

  ghost predicate Possible(w: World, events: seq<Event>)
    decreases |events|
  {
    events == [] || (Enabled(w, events[0]) && Possible(Apply(w, events[0]), events[1..]))
  }

  ghost function Run(w: World, events: seq<Event>): World
    requires Possible(w, events)
    decreases |events|
  {
    if events == [] then w else Run(Apply(w, events[0]), events[1..])
  }
}
