/** Block encryption over whole runs: which key, nonce and associated data each
    block of each table ever written is sealed under. */
module Nonces {
  import opened Bytes
  import opened Records
  import opened Merge
  import opened History
  import opened Engine
  import opened EngineInv
  import opened EngineTheorems
  import opened SstWriter
  import opened SstTheorems

  // ----- derivation -----

  const NONCE_FORMAT_TAG: nat := 0x4346_4F4E

  /** The 96-bit nonce of a block, from its offset. */
  function BlockNonce(offset: nat): (s: seq<byte>)
    ensures |s| == 12
  {
    ToLe(NONCE_FORMAT_TAG, 4) + ToLe(offset, 8)
  }

  /** The data authenticated with a block. */
  function BlockAad(id: nat, offset: nat): (s: seq<byte>)
    ensures |s| == 16
  {
    ToLe(id, 8) + ToLe(offset, 8)
  }

  lemma LeInjective(x: nat, y: nat)
    requires x < U64_LIMIT && y < U64_LIMIT && ToLe(x, 8) == ToLe(y, 8)
    ensures x == y
  {
    Pow256Values();
    LeRoundTrip(x, 8);
    LeRoundTrip(y, 8);
  }

  lemma NonceInjective(x: nat, y: nat)
    requires x < U64_LIMIT && y < U64_LIMIT
    ensures BlockNonce(x) == BlockNonce(y) <==> x == y
  {
    hide ToLe;
    if BlockNonce(x) == BlockNonce(y) {
      assert BlockNonce(x)[4..] == ToLe(x, 8) && BlockNonce(y)[4..] == ToLe(y, 8);
      LeInjective(x, y);
    }
  }

  lemma AadInjective(a: nat, x: nat, b: nat, y: nat)
    requires a < U64_LIMIT && x < U64_LIMIT && b < U64_LIMIT && y < U64_LIMIT
    ensures BlockAad(a, x) == BlockAad(b, y) <==> a == b && x == y
  {
    hide ToLe;
    if BlockAad(a, x) == BlockAad(b, y) {
      assert BlockAad(a, x)[..8] == ToLe(a, 8) && BlockAad(b, y)[..8] == ToLe(b, 8);
      assert BlockAad(a, x)[8..] == ToLe(x, 8) && BlockAad(b, y)[8..] == ToLe(y, 8);
      LeInjective(a, b);
      LeInjective(x, y);
    }
  }

  // ----- every table ever written -----

  /** The table file one step writes, if it writes one. */
  function Written(w: World, e: Event): seq<Table>
    requires Enabled(w, e)
  {
    match e
    case DoWriteTable => [Table(w.db.nextFile, w.db.mems[|w.db.mems| - 1].recs)]
    case DoWriteMerged => [Table(w.db.nextFile, Merged(TableRecs(w.db.tables)))]
    case _ => []
  }

  /** All of them over a run, removed or superseded ones included, oldest first. */
  ghost function TablesWritten(w: World, events: seq<Event>): seq<Table>
    requires Possible(w, events)
    decreases |events|
  {
    if events == [] then []
    else Written(w, events[0]) + TablesWritten(Apply(w, events[0]), events[1..])
  }

  lemma NextIsNew(w: World)
    requires Inv(w)
    ensures w.db.nextFile !in w.db.disk.tables
  {
    hide SourcesOk, WalsOk, MemsOk, TablesOk;
    assert w.db.nextFile in w.db.disk.tables ==> FileOnDisk(w.db.disk, w.db.nextFile);
  }

  lemma ReopenTables(w: World)
    ensures Reopen(w).db.disk.tables == w.db.disk.tables
  {
    hide Replayed, OpenTables, TopSeqno;
  }

  /** A table file appears on disk exactly by being written, with that content. */
  lemma WrittenIsNew(w: World, e: Event, id: nat)
    requires Inv(w) && Enabled(w, e)
    ensures var (before, after) := (w.db.disk.tables, Apply(w, e).db.disk.tables);
      id in after && id !in before <==> exists t :: t in Written(w, e) && t.id == id
    ensures forall t :: t in Written(w, e) ==>
      var after := Apply(w, e).db.disk.tables; t.id in after && after[t.id] == t.recs
  {
    hide Inv, Reopen, Merged, DropWal, ApplyBatch;
    NextIsNew(w);
    ReopenTables(w);
    if e.DoWriteTable? || e.DoWriteMerged? {
      assert Written(w, e)[0] in Written(w, e);
      if id == w.db.nextFile {
        assert Written(w, e)[0].id == id;
      }
    }
  }

  /** File numbers only grow, reopens included. */
  lemma NextFileGrows(w: World, e: Event)
    requires Inv(w) && Enabled(w, e)
    ensures w.db.nextFile + |Written(w, e)| <= Apply(w, e).db.nextFile
    ensures forall i :: 0 <= i < |Written(w, e)| ==> Written(w, e)[i].id == w.db.nextFile + i
  {
    hide Inv, Apply, Enabled, Merged, TableRecs;
    if e.DoReopen? {
      ReopenGrows(w);
      ApplyReopens(w);
    } else {
      StepNumbers(w, e);
    }
  }

  lemma ApplyReopens(w: World)
    ensures Enabled(w, DoReopen) && Apply(w, DoReopen) == Reopen(w)
  {
    hide Reopen;
  }

  /** A step takes a new number exactly when it creates a file. */
  lemma StepNumbers(w: World, e: Event)
    requires Enabled(w, e) && !e.DoReopen?
    ensures Apply(w, e).db.nextFile == w.db.nextFile + if e.DoRotate? || e.DoWriteTable? || e.DoWriteMerged? then 1 else 0
  {
    hide Reopen, Merged, DropWal, ApplyBatch, TableRecs;
  }

  lemma ReopenGrows(w: World)
    requires Inv(w)
    ensures w.db.nextFile <= Reopen(w).db.nextFile
  {
    hide SourcesOk, WalsOk, MemsOk, TablesOk, Replayed, OpenTables, TopSeqno;
    var top := w.created[|w.created| - 1];
    assert FileOnDisk(w.db.disk, top);
  }

  predicate IdsFrom(ts: seq<Table>, n: nat) {
    && (forall i :: 0 <= i < |ts| ==> n <= ts[i].id)
    && forall i, j :: 0 <= i < j < |ts| ==> ts[i].id < ts[j].id
  }

  lemma IdsJoin(now: seq<Table>, later: seq<Table>, n: nat, next: nat)
    requires n + |now| <= next && IdsFrom(later, next)
    requires forall i :: 0 <= i < |now| ==> now[i].id == n + i
    ensures IdsFrom(now + later, n)
  {
  }

  lemma {:induction false} IdsAscend(w: World, events: seq<Event>)
    requires Inv(w) && Possible(w, events)
    ensures IdsFrom(TablesWritten(w, events), w.db.nextFile)
    decreases |events|
  {
    hide Inv, Enabled, Apply, Written, IdsFrom;
    if events == [] {
      assert IdsFrom([], w.db.nextFile) by { IdsOfNothing(w.db.nextFile); }
    } else {
      NextFileGrows(w, events[0]);
      StepKeepsInv(w, events[0]);
      var next := Apply(w, events[0]);
      IdsAscend(next, events[1..]);
      IdsJoin(Written(w, events[0]), TablesWritten(next, events[1..]), w.db.nextFile, next.db.nextFile);
    }
  }

  lemma IdsOfNothing(n: nat)
    ensures IdsFrom([], n)
  {
  }

  // ----- offsets within a table -----

  /** Every block is at its own offset. */
  lemma OffsetsDiffer(cfg: Config, blocks: seq<seq<Rec>>, i: nat, j: nat)
    requires Lawful(cfg.crypto) && i < |blocks| && j < |blocks|
    ensures BlockOffset(cfg, blocks, i) == BlockOffset(cfg, blocks, j) <==> i == j
  {
    hide Region, BlockDisk, Lawful;
    if i < j {
      DiskIsNotEmpty(cfg, blocks, i);
      BlocksAreApart(cfg, blocks, i, j);
    } else if j < i {
      DiskIsNotEmpty(cfg, blocks, j);
      BlocksAreApart(cfg, blocks, j, i);
    }
  }

  // ----- the theorem -----

  /** Every table is written under its own file number. */
  ghost predicate KeyedById(cfg: nat -> Config) {
    forall id: nat :: cfg(id).crypto.Sealed? && cfg(id).crypto.id == id && Lawful(cfg(id).crypto)
  }

  function TableBlocks(cfg: nat -> Config, t: Table): seq<seq<Rec>> {
    Blocks(cfg(t.id).blockSize, t.recs)
  }

  /** Where block `i` of a table is sealed. */
  function At(cfg: nat -> Config, t: Table, i: nat): nat
    requires i < |TableBlocks(cfg, t)|
  {
    BlockOffset(cfg(t.id), TableBlocks(cfg, t), i)
  }

  /** Over a whole run, crashes and reopens included, take any two blocks of any two
      tables ever written. They share table key and nonce only if they are the same
      block, and likewise for the associated data alone. */
  lemma NoncesNeverRepeat(events: seq<Event>, cfg: nat -> Config, a: nat, i: nat, b: nat, j: nat)
    requires Possible(Start(), events) && KeyedById(cfg)
    requires var ts := TablesWritten(Start(), events);
      && a < |ts| && i < |TableBlocks(cfg, ts[a])| && ts[a].id < U64_LIMIT && At(cfg, ts[a], i) < U64_LIMIT
      && b < |ts| && j < |TableBlocks(cfg, ts[b])| && ts[b].id < U64_LIMIT && At(cfg, ts[b], j) < U64_LIMIT
    ensures var (s, t) := (TablesWritten(Start(), events)[a], TablesWritten(Start(), events)[b]);
      && (s.id == t.id && BlockNonce(At(cfg, s, i)) == BlockNonce(At(cfg, t, j)) <==> a == b && i == j)
      && (BlockAad(s.id, At(cfg, s, i)) == BlockAad(t.id, At(cfg, t, j)) <==> a == b && i == j)
  {
    hide Start, Possible, TablesWritten, Inv, Blocks, BlockNonce, BlockAad, BlockOffset, Lawful;
    StartInv();
    IdsAscend(Start(), events);
    var ts := TablesWritten(Start(), events);
    NonceInjective(At(cfg, ts[a], i), At(cfg, ts[b], j));
    AadInjective(ts[a].id, At(cfg, ts[a], i), ts[b].id, At(cfg, ts[b], j));
    if a == b {
      OffsetsDiffer(cfg(ts[a].id), TableBlocks(cfg, ts[a]), i, j);
    }
  }
}
