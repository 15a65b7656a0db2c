/** Whole runs: what reads return, what a crash at any step leaves, and exactly
    when a reopened store reads its history. */
module EngineTheorems {
  import opened Bytes
  import opened Records
  import opened Merge
  import opened Range
  import opened History
  import opened Layers
  import opened Engine
  import opened EngineInv
  import opened EngineSteps
  import opened EngineReopen
  import Batch

  // ----- the invariant over runs -----

  /** An empty directory opens to one empty memtable fed by segment 1. */
  lemma StartShape()
    ensures var s := Start().db;
      && s == State(0, [Memtable([], 1)], [], 2, Disk(map[1 := Segment(1, [])], map[]), Idle)
      && Sources(s) == [[]] && Start().hist == []
  {
    var disk := Disk(map[], map[]);
    assert disk.wals.Keys == {} && disk.tables.Keys == {};
    assert OpenTables(disk) == [];
  }

  lemma StartInv()
    ensures Inv(Start())
  {
    StartShape();
    hide Open;
    EmptyIsFaithful([]);
    forall key, n ensures !LogHas([], key, n) { EmptyLogHas(key, n); }
    hide LogHas, Has, Faithful;
  }

  lemma StepKeepsInv(w: World, e: Event)
    requires Inv(w) && Enabled(w, e)
    ensures Inv(Apply(w, e))
  {
    hide Inv;
    match e {
      case DoCommit(ops) => CommitKeepsInv(w, ops);
      case DoRotate => RotateKeepsInv(w);
      case DoWriteTable => WriteTableKeepsInv(w);
      case DoPublish => PublishKeepsInv(w);
      case DoWriteMerged => WriteMergedKeepsInv(w);
      case DoSwap => SwapKeepsInv(w);
      case DoUnlink => UnlinkKeepsInv(w);
      case DoReopen => ReopenKeepsInv(w);
    }
  }

  lemma {:induction false} RunKeepsInv(w: World, events: seq<Event>)
    requires Inv(w) && Possible(w, events)
    ensures Inv(Run(w, events))
    decreases |events|
  {
    hide Inv, Apply, Enabled;
    if events != [] {
      StepKeepsInv(w, events[0]);
      RunKeepsInv(Apply(w, events[0]), events[1..]);
    }
  }

  /** Range scans agree with the history at every point of every run, over any
      number of crashes and reopens. */
  lemma ScansNeverStray(events: seq<Event>, start: Bound, end: Bound, snap: nat)
    requires Possible(Start(), events)
    ensures var w := Run(Start(), events);
      var out := Scan(Sources(w.db), start, end, snap);
      && KeysStrictlyAscend(out)
      && forall r :: r in out <==> InRange(r.key, start, end) && Newest(w.hist, r.key, snap) == Some(r) && r.op == Live
  {
    hide Run, Start, Scan, Newest, InRange, KeysStrictlyAscend, AllFaithful, Complete;
    StartInv();
    RunKeepsInv(Start(), events);
    var w := Run(Start(), events);
    ScanIsHistory(Sources(w.db), w.hist, start, end, snap);
  }

  /** No file number is ever used twice, reopens included: the numbers of created
      files strictly ascend over every run. */
  lemma FileNumbersAscend(events: seq<Event>)
    requires Possible(Start(), events)
    ensures var created := Run(Start(), events).created;
      forall i, j :: 0 <= i < j < |created| ==> created[i] < created[j]
  {
    hide Run, Start, SourcesOk, WalsOk, MemsOk, TablesOk;
    StartInv();
    RunKeepsInv(Start(), events);
  }

  // ----- layering over runs -----

  /** Point reads through the live layers are right. */
  ghost predicate Good(w: World) {
    Inv(w) && Shadow(Sources(w.db))
  }

  lemma GoodReads(w: World, key: Key, snap: nat)
    requires Good(w)
    ensures FirstHit(Sources(w.db), key, snap) == Newest(w.hist, key, snap)
  {
    hide FirstHit, Newest, WalsOk, MemsOk, TablesOk, NumbersOk, Shadow, AllFaithful, Complete;
    FirstHitIsNewest(Sources(w.db), w.hist, key, snap);
  }

  /** New versions on top of everything do not break the layering. */
  lemma ShadowHeadGrows(ss: seq<seq<Rec>>, x: seq<Rec>)
    requires ss != [] && Shadow(ss) && forall key, n :: Has(ss[0], key, n) ==> Has(x, key, n)
    requires forall j, key, n: nat, m: nat :: 0 < j < |ss| && Has(x, key, n) && !Has(ss[0], key, n) && Has(ss[j], key, m) ==> m <= n
    ensures Shadow(ss[0 := x])
  {
    hide Has, InSome;
    var ss' := ss[0 := x];
    forall i, j, key, n: nat, m: nat | 0 <= i < j < |ss'| && Has(ss'[i], key, n) && Has(ss'[j], key, m) && m > n
      ensures InSome(ss'[..i + 1], key, m)
    {
      assert ss'[j] == ss[j] && Has(ss[i], key, n);
      assert InSome(ss[..i + 1], key, m);
      InSomeUpdate(ss[..i + 1], 0, x, key, m);
      assert ss[..i + 1][0 := x] == ss'[..i + 1];
    }
  }

  lemma ShadowBehindEmpty(ss: seq<seq<Rec>>)
    requires Shadow(ss)
    ensures Shadow([[]] + ss)
  {
    hide Has, InSome;
    var ss' := [[]] + ss;
    EmptyIsFaithful([]);
    forall i, j, key, n: nat, m: nat | 0 <= i < j < |ss'| && Has(ss'[i], key, n) && Has(ss'[j], key, m) && m > n
      ensures InSome(ss'[..i + 1], key, m)
    {
      assert i > 0 && ss'[i] == ss[i - 1] && ss'[j] == ss[j - 1];
      assert InSome(ss[..i], key, m);
      InSomeConcat([[]], ss[..i], key, m);
      assert [[]] + ss[..i] == ss'[..i + 1];
    }
  }

  lemma ShadowMergedTail(front: seq<seq<Rec>>, rs: seq<seq<Rec>>)
    requires Shadow(front + rs)
    ensures Shadow(front + [Merged(rs)])
  {
    hide Has, Merged;
    var (ss, ss') := (front + rs, front + [Merged(rs)]);
    forall i, j, key, n: nat, m: nat | 0 <= i < j < |ss'| && Has(ss'[i], key, n) && Has(ss'[j], key, m) && m > n
      ensures InSome(ss'[..i + 1], key, m)
    {
      assert ss'[..i + 1] == ss[..i + 1] && ss'[i] == ss[i];
      if j == |front| {
        MergedHas(rs, key, m);
        var t :| 0 <= t < |rs| && Has(rs[t], key, m);
        assert ss[|front| + t] == rs[t];
      } else {
        assert ss'[j] == ss[j];
      }
    }
  }

  lemma CommitKeepsShadow(w: World, ops: Batch.Ops)
    requires Good(w) && Enabled(w, DoCommit(ops))
    ensures Shadow(Sources(Commit(w.db, ops)))
  {
    hide Has, Shadow, Final, WalsOk, MemsOk, TablesOk, NumbersOk, Complete, ApplyBatch, Commit;
    var (s, h) := (w.db, w.hist);
    var ss := Sources(s);
    var x := ApplyBatch(s.mems[0].recs, |h| + 1, ops);
    CommitSources(s, h, ops);
    forall j, key, m: nat | 0 < j < |ss| && Has(ss[j], key, m) ensures m <= |h| {
      HasIsWritten(ss[j], h, key, m);
    }
    ShadowHeadGrows(ss, x);
  }

  lemma StepKeepsGood(w: World, e: Event)
    requires Good(w) && Enabled(w, e) && !e.DoReopen?
    ensures Good(Apply(w, e))
  {
    StepKeepsInv(w, e);
    var (s, h) := (w.db, w.hist);
    assert WalsOk(s, h) && SourcesOk(s, h);
    match e {
      case DoCommit(ops) =>
        hide Shadow, Inv, Commit;
        CommitKeepsShadow(w, ops);
      case DoRotate =>
        hide Shadow, Inv, WalsOk;
        RotateSources(s, h);
        ShadowBehindEmpty(Sources(s));
      case DoPublish =>
        hide Shadow, Inv, WalsOk;
        PublishMems(s, h);
      case DoSwap =>
        hide Shadow, Inv, WalsOk, Merged;
        SwapSources(s, h);
        ShadowMergedTail(MemRecs(s.mems), TableRecs(s.tables));
      case DoWriteTable =>
      case DoWriteMerged =>
      case DoUnlink =>
    }
  }

  // ----- snapshots -----

  predicate NoReopen(events: seq<Event>) {
    forall i :: 0 <= i < |events| ==> !events[i].DoReopen?
  }

  lemma {:induction false} RunKeepsGood(w: World, events: seq<Event>)
    requires Good(w) && Possible(w, events) && NoReopen(events)
    ensures Good(Run(w, events)) && w.hist <= Run(w, events).hist
    decreases |events|
  {
    hide Good, Enabled;
    if events != [] {
      StepKeepsGood(w, events[0]);
      assert w.hist <= Apply(w, events[0]).hist;
      hide Apply;
      RunKeepsGood(Apply(w, events[0]), events[1..]);
    }
  }

  /** Without a reopen the history only grows. */
  lemma {:induction false} RunExtends(w: World, events: seq<Event>)
    requires Possible(w, events) && NoReopen(events)
    ensures w.hist <= Run(w, events).hist
    decreases |events|
  {
    hide Enabled, Reopen;
    if events != [] {
      assert w.hist <= Apply(w, events[0]).hist;
      RunExtends(Apply(w, events[0]), events[1..]);
    }
  }

  /** Range scans of a snapshot do not change under any later batches, rotations,
      flushes and compactions, whatever logs the store was opened over. */
  lemma ScansAreStable(w: World, events: seq<Event>, start: Bound, end: Bound, snap: nat)
    requires Inv(w) && Possible(w, events) && NoReopen(events) && snap <= |w.hist|
    ensures Scan(Sources(Run(w, events).db), start, end, snap) == Scan(Sources(w.db), start, end, snap)
  {
    hide *;
    RunKeepsInv(w, events);
    RunExtends(w, events);
    var later := Run(w, events);
    InvSources(w);
    InvSources(later);
    forall k ensures Newest(later.hist, k, snap) == Newest(w.hist, k, snap) {
      NewestOfPrefix(w.hist, later.hist, k, snap);
    }
    ScansAgree(Sources(later.db), Sources(w.db), later.hist, w.hist, start, end, snap);
  }

  /** In a good state point reads do not change either. */
  lemma SnapshotsAreStable(w: World, events: seq<Event>, key: Key, snap: nat)
    requires Good(w) && Possible(w, events) && NoReopen(events) && snap <= |w.hist|
    ensures FirstHit(Sources(Run(w, events).db), key, snap) == FirstHit(Sources(w.db), key, snap)
  {
    hide *;
    RunKeepsGood(w, events);
    var later := Run(w, events);
    GoodReads(w, key, snap);
    GoodReads(later, key, snap);
    NewestOfPrefix(w.hist, later.hist, key, snap);
  }

  lemma InvSources(w: World)
    requires Inv(w)
    ensures AllFaithful(Sources(w.db), w.hist) && Complete(Sources(w.db), w.hist)
  {
    hide WalsOk, MemsOk, TablesOk, NumbersOk, AllFaithful, Complete, Sources;
  }

  lemma NewestOfPrefix(h: Hist, longer: Hist, key: Key, snap: nat)
    requires h <= longer && snap <= |h|
    ensures Newest(longer, key, snap) == Newest(h, key, snap)
  {
    hide Newest;
    NewestIsStable(h, longer[|h|..], key, snap);
    assert longer == h + longer[|h|..];
  }

  // ----- crash recovery -----

  /** No log on disk is older than the tables: a logged key has no newer version in
      a table that is not logged as well. */
  ghost predicate LogsNotOlder(disk: Disk) {
    forall key, n: nat, m: nat ::
      OnLog(disk.wals, key, n) && InSome(TableRecs(OpenTables(disk)), key, m) && m > n ==> OnLog(disk.wals, key, m)
  }

  /** A newer version in a later source is in a memtable, hence logged, or in a table no later than the holder. */
  lemma LiveTablesLayered(w: World, i: nat, j: nat, key: Key, n: nat, m: nat)
    requires Good(w) && m > n
    requires i < j < |w.db.tables| && Has(w.db.tables[i].recs, key, n) && Has(w.db.tables[j].recs, key, m)
    ensures OnLog(w.db.disk.wals, key, m) || InSome(TableRecs(w.db.tables[..i + 1]), key, m)
  {
    hide Has, InSome, SourcesOk, WalsOk, TablesOk, NumbersOk, Logged, Backed;
    var s := w.db;
    var (a, ss) := (|s.mems|, Sources(s));
    assert ss[a + i] == s.tables[i].recs && ss[a + j] == s.tables[j].recs;
    assert InSome(ss[..a + i + 1], key, m);
    assert ss[..a + i + 1] == MemRecs(s.mems) + TableRecs(s.tables[..i + 1]);
    MemsOrTables(s, s.tables[..i + 1], key, m);
  }

  lemma MemsOrTables(s: State, ts: seq<Table>, key: Key, m: nat)
    requires MemsOk(s) && InSome(MemRecs(s.mems) + TableRecs(ts), key, m)
    ensures OnLog(s.disk.wals, key, m) || InSome(TableRecs(ts), key, m)
  {
    hide Has, Logged, Backed, OnLog;
    InSomeConcat(MemRecs(s.mems), TableRecs(ts), key, m);
    if InSome(MemRecs(s.mems), key, m) {
      var i :| 0 <= i < |s.mems| && Has(MemRecs(s.mems)[i], key, m);
      BackedIsLogged(s.disk.wals, s.mems, s.mems[i], key, m);
    }
  }

  /** A memtable over a table: the newer version is logged. */
  lemma MemOverTable(w: World, i: nat, j: nat, key: Key, n: nat, m: nat)
    requires Good(w) && m > n
    requires i < |w.db.mems| && j < |w.db.tables| && Has(w.db.mems[i].recs, key, n) && Has(w.db.tables[j].recs, key, m)
    ensures OnLog(w.db.disk.wals, key, m)
  {
    hide Has, InSome, SourcesOk, WalsOk, TablesOk, NumbersOk, Logged, Backed;
    var s := w.db;
    var (a, ss) := (|s.mems|, Sources(s));
    assert ss[i] == s.mems[i].recs && ss[a + j] == s.tables[j].recs;
    assert InSome(ss[..i + 1], key, m);
    assert ss[..i + 1] == MemRecs(s.mems)[..i + 1];
    InSomeConcat(MemRecs(s.mems)[..i + 1], MemRecs(s.mems)[i + 1..], key, m);
    assert MemRecs(s.mems)[..i + 1] + MemRecs(s.mems)[i + 1..] == MemRecs(s.mems) + TableRecs([]);
    MemsOrTables(s, [], key, m);
    assert !InSome(TableRecs([]), key, m) by { NothingInNone(key, m); }
  }

  lemma NothingInNone(key: Key, m: nat)
    ensures !InSome(TableRecs([]), key, m)
  {
  }

  lemma InSomeTable(ts: seq<Table>, i: nat, key: Key, n: nat)
    requires i < |ts| && Has(ts[i].recs, key, n)
    ensures InSome(TableRecs(ts), key, n)
  {
    assert Has(TableRecs(ts)[i], key, n);
  }

  lemma TablePrefix(ts: seq<Table>, more: seq<Table>, key: Key, n: nat)
    requires InSome(TableRecs(ts), key, n)
    ensures InSome(TableRecs(ts + more), key, n) && InSome(TableRecs(more + ts), key, n)
  {
    hide Has;
    var i :| 0 <= i < |ts| && Has(TableRecs(ts)[i], key, n);
    assert Has(TableRecs(ts + more)[i], key, n);
    assert Has(TableRecs(more + ts)[|more| + i], key, n);
  }

  lemma FlushingLayered(w: World, i: nat, j: nat, key: Key, n: nat, m: nat)
    requires Good(w) && m > n && w.db.pending.Flushing? && w.db.mems != []
    requires i < j < |DiskTables(w.db)| && Has(DiskTables(w.db)[i].recs, key, n) && Has(DiskTables(w.db)[j].recs, key, m)
    ensures OnLog(w.db.disk.wals, key, m) || InSome(TableRecs(DiskTables(w.db)[..i + 1]), key, m)
  {
    hide Has, InSome, OnLog, Good;
    var s := w.db;
    var ts := DiskTables(s);
    assert ts[j] == s.tables[j - 1];
    if i == 0 {
      MemOverTable(w, |s.mems| - 1, j - 1, key, n, m);
    } else {
      assert ts[i] == s.tables[i - 1];
      LiveTablesLayered(w, i - 1, j - 1, key, n, m);
      if InSome(TableRecs(s.tables[..i]), key, m) {
        TablePrefix(s.tables[..i], [ts[0]], key, m);
        assert [ts[0]] + s.tables[..i] == ts[..i + 1];
      }
    }
  }

  /** During a compaction the merged table is in front and covers the rest. */
  lemma CompactingLayered(s: State, h: Hist, i: nat, j: nat, key: Key, m: nat)
    requires (s.pending.Compacting? || s.pending.Unlinking?) && Covered(s, h)
    requires i < j < |DiskTables(s)| && Has(DiskTables(s)[j].recs, key, m)
    ensures InSome(TableRecs(DiskTables(s)[..i + 1]), key, m)
  {
    hide Has, InSome, Merged, Faithful;
    var ts := DiskTables(s);
    assert ts[..i + 1][0] == ts[0];
    if s.pending.Compacting? {
      assert ts[j] == s.tables[j - 1];
      InSomeTable(s.tables, j - 1, key, m);
      MergedHas(TableRecs(s.tables), key, m);
    } else {
      assert ts[j] == s.pending.inputs[j - 1];
    }
    assert Has(ts[0].recs, key, m);
    InSomeTable(ts[..i + 1], 0, key, m);
  }

  /** The tables on disk, at any step, are layered up to what is logged. */
  lemma DiskTablesLayered(w: World, i: nat, j: nat, key: Key, n: nat, m: nat)
    requires Good(w) && m > n
    requires i < j < |DiskTables(w.db)| && Has(DiskTables(w.db)[i].recs, key, n) && Has(DiskTables(w.db)[j].recs, key, m)
    ensures OnLog(w.db.disk.wals, key, m) || InSome(TableRecs(DiskTables(w.db)[..i + 1]), key, m)
  {
    TablesOkOf(w);
    hide Has, InSome, OnLog, Good, Merged, Covered;
    match w.db.pending {
      case Idle =>
        LiveTablesLayered(w, i, j, key, n, m);
      case Flushing(id) =>
        hide DiskTables;
        FlushingLayered(w, i, j, key, n, m);
      case Compacting(id) =>
        hide DiskTables;
        CompactingLayered(w.db, w.hist, i, j, key, m);
      case Unlinking(inputs) =>
        hide DiskTables;
        CompactingLayered(w.db, w.hist, i, j, key, m);
    }
  }

  lemma TablesOkOf(w: World)
    requires Good(w)
    ensures Covered(w.db, w.hist) && (w.db.pending.Flushing? ==> |w.db.mems| >= 2)
    ensures MemsOk(w.db) && SegmentsOk(w.db.disk.wals, w.hist) && Inv(w)
  {
  }

  lemma RecoveredHas(w: World)
    requires Good(w)
    ensures forall key, n :: Has(Replayed(w.db.disk), key, n) <==> OnLog(w.db.disk.wals, key, n)
  {
    hide Good, Has, OnLog, Replayed;
    TablesOkOf(w);
    ReplayedMeaning(w.db.disk, w.hist);
  }

  lemma RecoveredSourceAt(disk: Disk, i: nat)
    requires i < |OpenTables(disk)|
    ensures var (ss, ts) := (RecoveredSources(disk), OpenTables(disk));
      && |ss| == |ts| + 1 && ss[0] == Replayed(disk) && ss[i + 1] == ts[i].recs
      && ss[..i + 1] == [Replayed(disk)] + TableRecs(ts[..i])
      && ss == [Replayed(disk)] + TableRecs(ts)
  {
    hide Replayed, OpenTables;
  }

  /** One pair of sources of a reopened store. */
  lemma RecoveredLayered(w: World, i: nat, j: nat, key: Key, n: nat, m: nat)
    requires Good(w) && LogsNotOlder(w.db.disk) && m > n
    requires i < j < |RecoveredSources(w.db.disk)|
    requires Has(RecoveredSources(w.db.disk)[i], key, n) && Has(RecoveredSources(w.db.disk)[j], key, m)
    ensures InSome(RecoveredSources(w.db.disk)[..i + 1], key, m)
  {
    hide Has, InSome, OnLog, Good, Replayed, OpenTables, DiskTables, RecoveredSources;
    var disk := w.db.disk;
    var (ss, ts) := (RecoveredSources(disk), OpenTables(disk));
    RecoveredHas(w);
    DiskAlwaysOkGood(w);
    RecoveredLength(disk);
    RecoveredSourceAt(disk, j - 1);
    RecoveredSourceAt(disk, i);
    if i == 0 {
      InSomeTable(ts, j - 1, key, m);
    } else {
      RecoveredSourceAt(disk, i - 1);
      DiskTablesLayered(w, i - 1, j - 1, key, n, m);
    }
    InSomeConcat([Replayed(disk)], TableRecs(ts[..i]), key, m);
    InSomeOne(Replayed(disk), key, m);
  }

  lemma RecoveredLength(disk: Disk)
    ensures |RecoveredSources(disk)| == |OpenTables(disk)| + 1
    ensures RecoveredSources(disk) == [Replayed(disk)] + TableRecs(OpenTables(disk))
  {
    hide Replayed, OpenTables;
  }

  /** The recovered layering is the layering of the log over the tables. */
  lemma RecoveredShadowIff(w: World)
    requires Good(w)
    ensures Shadow(RecoveredSources(w.db.disk)) <==> LogsNotOlder(w.db.disk)
  {
    hide Has, InSome, OnLog, Good, Replayed, OpenTables, RecoveredSources;
    var disk := w.db.disk;
    var ss := RecoveredSources(disk);
    if LogsNotOlder(disk) {
      forall i, j, key, n: nat, m: nat | 0 <= i < j < |ss| && Has(ss[i], key, n) && Has(ss[j], key, m) && m > n
        ensures InSome(ss[..i + 1], key, m)
      {
        RecoveredLayered(w, i, j, key, n, m);
      }
    }
    if Shadow(ss) {
      RecoveredHas(w);
      RecoveredLength(disk);
      forall key, n: nat, m: nat | OnLog(disk.wals, key, n) && InSome(TableRecs(OpenTables(disk)), key, m) && m > n
        ensures OnLog(disk.wals, key, m)
      {
        hide Shadow;
        LogOverTable(ss, Replayed(disk), OpenTables(disk), key, n, m);
      }
    }
  }

  lemma DiskAlwaysOkGood(w: World)
    requires Good(w)
    ensures OpenTables(w.db.disk) == DiskTables(w.db) && DiskOk(w.db.disk, w.hist)
  {
    hide Inv, DiskTables, OpenTables, DiskOk, Shadow;
    DiskAlwaysOk(w);
  }

  lemma LogOverTable(ss: seq<seq<Rec>>, r: seq<Rec>, ts: seq<Table>, key: Key, n: nat, m: nat)
    requires Shadow(ss) && ss == [r] + TableRecs(ts) && Has(r, key, n) && InSome(TableRecs(ts), key, m) && m > n
    ensures Has(r, key, m)
  {
    hide Has;
    var j :| 0 <= j < |ts| && Has(TableRecs(ts)[j], key, m);
    assert ss[j + 1] == TableRecs(ts)[j] && ss[0] == r;
    assert InSome(ss[..1], key, m);
    assert ss[..1] == [r];
    InSomeOne(r, key, m);
  }

  /** A crash at any step of a well-layered life: the reopened store answers every
      point read with the history exactly when no log is older than the tables. */
  lemma CrashRecoveryIff(w: World)
    requires Good(w)
    ensures Agrees(Sources(Open(w.db.disk)), w.hist) <==> LogsNotOlder(w.db.disk)
  {
    hide Good, Agrees, Shadow, LogsNotOlder, DiskOk, RecoveredSources, Open, OpenTables, DiskTables, Sources;
    DiskAlwaysOkGood(w);
    RecoveredOk(w.db.disk, w.hist);
    OpenSources(w.db.disk);
    FirstHitIff(RecoveredSources(w.db.disk), w.hist);
    RecoveredShadowIff(w);
  }

  // ----- lives that start without logged work -----

  /** Every logged version belongs to a live memtable's own segment. */
  ghost predicate Tidy(s: State) {
    forall id, key, n :: id in s.disk.wals && LogHas(s.disk.wals[id].log, key, n) ==> IsLive(s.mems, id)
  }

  ghost predicate NothingPending(disk: Disk) {
    forall key, n :: !OnLog(disk.wals, key, n)
  }

  /** In a tidy life no log is ever older than the tables. */
  lemma TidyLogsNotOlder(w: World)
    requires Good(w) && Tidy(w.db)
    ensures LogsNotOlder(w.db.disk)
  {
    hide Good, Tidy, OnLog, InSome, OpenTables, DiskTables, DiskOk;
    DiskAlwaysOkGood(w);
    forall key, n: nat, m: nat | OnLog(w.db.disk.wals, key, n) && InSome(TableRecs(OpenTables(w.db.disk)), key, m) && m > n
      ensures OnLog(w.db.disk.wals, key, m)
    {
      TidyLogged(w, key, n, m);
    }
  }

  lemma LoggedInMemtable(s: State, key: Key, n: nat)
    requires Tidy(s) && MemsOk(s) && OnLog(s.disk.wals, key, n)
    ensures exists i :: 0 <= i < |s.mems| && Has(s.mems[i].recs, key, n)
  {
    hide Has, LogHas, Backed;
    var wals := s.disk.wals;
    var id :| id in wals && LogHas(wals[id].log, key, n);
    assert IsLive(s.mems, id);
    var i :| 0 <= i < |s.mems| && s.mems[i].wal == id;
    assert Logged(wals, s.mems[i]);
  }

  lemma TidyLogged(w: World, key: Key, n: nat, m: nat)
    requires Good(w) && Tidy(w.db) && OnLog(w.db.disk.wals, key, n) && InSome(TableRecs(DiskTables(w.db)), key, m) && m > n
    ensures OnLog(w.db.disk.wals, key, m)
  {
    hide *;
    var s := w.db;
    TablesOkOf(w);
    LoggedInMemtable(s, key, n);
    var i :| 0 <= i < |s.mems| && Has(s.mems[i].recs, key, n);
    TableIndex(DiskTables(s), key, m);
    var j :| 0 <= j < |DiskTables(s)| && Has(DiskTables(s)[j].recs, key, m);
    LiveHolder(s, w.hist, j, key, m);
    if k :| 0 <= k < |s.tables| && Has(s.tables[k].recs, key, m) {
      MemOverTable(w, i, k, key, n, m);
    } else {
      MemtableIsLogged(s, |s.mems| - 1, key, m);
    }
  }

  lemma TableIndex(ts: seq<Table>, key: Key, n: nat)
    requires InSome(TableRecs(ts), key, n)
    ensures exists j :: 0 <= j < |ts| && Has(ts[j].recs, key, n)
  {
    hide Has;
    var j :| 0 <= j < |ts| && Has(TableRecs(ts)[j], key, n);
    assert Has(ts[j].recs, key, n);
  }

  lemma MemtableIsLogged(s: State, i: nat, key: Key, n: nat)
    requires MemsOk(s) && i < |s.mems| && Has(s.mems[i].recs, key, n)
    ensures OnLog(s.disk.wals, key, n)
  {
    hide Has, OnLog, Backed, Logged;
    BackedIsLogged(s.disk.wals, s.mems, s.mems[i], key, n);
  }

  /** A version in a table on disk is in a live table, or in the memtable being flushed. */
  lemma LiveHolder(s: State, h: Hist, j: nat, key: Key, m: nat)
    requires j < |DiskTables(s)| && Has(DiskTables(s)[j].recs, key, m)
    requires Covered(s, h) && (s.pending.Flushing? ==> |s.mems| >= 2)
    ensures (exists k :: 0 <= k < |s.tables| && Has(s.tables[k].recs, key, m))
            || (s.mems != [] && Has(s.mems[|s.mems| - 1].recs, key, m))
  {
    hide Has, Merged, Faithful;
    var ts := DiskTables(s);
    match s.pending {
      case Idle =>
      case Flushing(id) =>
        assert j > 0 ==> ts[j] == s.tables[j - 1];
      case Compacting(id) =>
        if j > 0 {
          assert ts[j] == s.tables[j - 1];
        } else {
          MergedHas(TableRecs(s.tables), key, m);
          var k :| 0 <= k < |s.tables| && Has(TableRecs(s.tables)[k], key, m);
          assert Has(s.tables[k].recs, key, m);
        }
      case Unlinking(inputs) =>
        assert j >= |s.tables| ==> ts[j] == inputs[j - |s.tables|];
    }
  }

  lemma StepKeepsTidy(w: World, e: Event)
    requires Inv(w) && Tidy(w.db) && Enabled(w, e) && !e.DoReopen?
    ensures Tidy(Apply(w, e).db)
  {
    var (s, s') := (w.db, Apply(w, e).db);
    assert WalsOk(s, w.hist);
    hide Inv, SegmentsOk, LogHas, IsLive;
    match e {
      case DoCommit(ops) => CommitKeepsTidy(s, ops);
      case DoRotate => RotateKeepsTidy(s);
      case DoPublish => PublishKeepsTidy(s, w.hist);
      case DoWriteTable =>
      case DoWriteMerged =>
      case DoSwap =>
      case DoUnlink =>
    }
  }

  lemma CommitKeepsTidy(s: State, ops: Batch.Ops)
    requires Tidy(s) && s.mems != [] && s.mems[0].wal in s.disk.wals
    ensures Tidy(Commit(s, ops))
  {
    hide LogHas, ApplyBatch;
    var s' := Commit(s, ops);
    SameWals(s.mems, s'.mems);
    assert IsLive(s.mems, s.mems[0].wal);
    hide IsLive;
    forall id, key, n | id in s'.disk.wals && LogHas(s'.disk.wals[id].log, key, n) ensures IsLive(s'.mems, id) {
      assert id != s.mems[0].wal ==> s'.disk.wals[id] == s.disk.wals[id];
    }
  }

  lemma RotateKeepsTidy(s: State)
    requires Tidy(s)
    ensures Tidy(Rotate(s))
  {
    hide LogHas;
    var s' := Rotate(s);
    assert s'.mems[0].wal == s.nextFile;
    forall id, key, n | id in s'.disk.wals && LogHas(s'.disk.wals[id].log, key, n) ensures IsLive(s'.mems, id) {
      if id != s.nextFile {
        assert IsLive(s.mems, id);
        var i :| 0 <= i < |s.mems| && s.mems[i].wal == id;
        assert s'.mems[i + 1].wal == id;
      }
    }
  }

  lemma PublishKeepsTidy(s: State, h: Hist)
    requires Tidy(s) && WalsOk(s, h) && |s.mems| >= 2 && s.pending.Flushing?
    ensures Tidy(Publish(s))
  {
    hide LogHas, SegmentsOk, Sources;
    PublishMems(s, h);
    var s' := Publish(s);
    forall id, key, n | id in s'.disk.wals && LogHas(s'.disk.wals[id].log, key, n) ensures IsLive(s'.mems, id) {
      assert IsLive(s.mems, id);
      var i :| 0 <= i < |s.mems| && s.mems[i].wal == id;
      assert s'.mems[i].wal == id;
    }
  }

  /** Reopening a disk without logged work starts a tidy, well-layered life. */
  lemma CleanReopen(w: World)
    requires Good(w) && NothingPending(w.db.disk)
    ensures Good(Reopen(w)) && Tidy(Reopen(w).db)
  {
    hide Good, Open, RecoveredSources, LogHas, OnLog, Shadow;
    ReopenIsGood(w);
    OpenShape(w.db.disk);
    var s' := Open(w.db.disk);
    forall id, key, n | id in s'.disk.wals && LogHas(s'.disk.wals[id].log, key, n) ensures IsLive(s'.mems, id) {
      if id != s'.mems[0].wal {
        OnLogAt(w.db.disk.wals, id, key, n);
        assert false;
      }
    }
  }

  lemma OnLogAt(wals: map<nat, Segment>, id: nat, key: Key, n: nat)
    requires id in wals && LogHas(wals[id].log, key, n)
    ensures OnLog(wals, key, n)
  {
  }

  /** Any reopen of a disk whose logs are not older than its tables is well layered. */
  lemma ReopenIsGood(w: World)
    requires Good(w) && LogsNotOlder(w.db.disk)
    ensures Good(Reopen(w))
  {
    hide *;
    TablesOkOf(w);
    ReopenKeepsInv(w);
    RecoveredShadowIff(w);
    OpenSources(w.db.disk);
    ReopenedWorld(w);
    GoodOf(Reopen(w));
  }

  lemma GoodOf(w: World)
    requires Inv(w) && Shadow(Sources(w.db))
    ensures Good(w)
  {
  }

  /** After a flush, which leaves one empty memtable, a tidy store has no logged work left. */
  lemma FlushLeavesNothingPending(w: World)
    requires Inv(w) && Tidy(w.db) && |w.db.mems| == 1 && w.db.mems[0].recs == []
    ensures NothingPending(w.db.disk)
  {
    var (s, wals) := (w.db, w.db.disk.wals);
    assert Logged(wals, s.mems[0]);
    hide Inv, LogHas;
    assert forall key, n :: !Has([], key, n);
    assert forall id :: IsLive(s.mems, id) ==> id == s.mems[0].wal;
  }

  lemma StartGood()
    ensures Good(Start()) && Tidy(Start().db)
  {
    StartInv();
    StartShape();
    hide Inv, Start;
    var s := Start().db;
    assert forall id :: id in s.disk.wals ==> id == s.mems[0].wal;
  }

  // ----- runs step by step -----

  lemma {:induction false} RunMore(w: World, events: seq<Event>, e: Event)
    requires Possible(w, events) && Enabled(Run(w, events), e)
    ensures Possible(w, events + [e]) && Run(w, events + [e]) == Apply(Run(w, events), e)
    decreases |events|
  {
    hide Apply, Enabled;
    if events == [] {
      RunOne(w, e);
      assert events + [e] == [e];
    } else {
      RunMore(Apply(w, events[0]), events[1..], e);
      assert (events + [e])[1..] == events[1..] + [e];
    }
  }

  lemma RunOne(w: World, e: Event)
    requires Enabled(w, e)
    ensures Possible(w, [e]) && Run(w, [e]) == Apply(w, e)
  {
    hide Apply, Enabled;
    assert [e][1..] == [];
    assert Possible(Apply(w, e), []) && Run(Apply(w, e), []) == Apply(w, e);
  }

  lemma {:induction false} RunAppend(w: World, a: seq<Event>, b: seq<Event>)
    requires Possible(w, a) && Possible(Run(w, a), b)
    ensures Possible(w, a + b) && Run(w, a + b) == Run(Run(w, a), b)
    decreases |a|
  {
    hide Apply, Enabled;
    if a == [] {
      assert a + b == b;
    } else {
      RunAppend(Apply(w, a[0]), a[1..], b);
      assert (a + b)[1..] == a[1..] + b;
    }
  }

  lemma RunTwo(w: World, events: seq<Event>, a: Event, b: Event)
    requires Possible(w, events) && Enabled(Run(w, events), a) && Enabled(Apply(Run(w, events), a), b)
    ensures Possible(w, events + [a, b]) && Run(w, events + [a, b]) == Apply(Apply(Run(w, events), a), b)
  {
    hide Apply, Enabled, Run, Possible;
    RunMore(w, events, a);
    RunMore(w, events + [a], b);
    assert events + [a] + [b] == events + [a, b];
  }
}
