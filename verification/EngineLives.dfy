/** Whole runs over any number of lives: exactly when every read of every life is
    right, and what a crash at any point leaves. */
module EngineLives {
  import opened Bytes
  import opened Records
  import opened Merge
  import opened Range
  import opened History
  import opened Layers
  import opened Engine
  import opened EngineInv
  import opened EngineReopen
  import opened EngineTheorems
  import Batch

  /** A store answers every point read with the history. */
  ghost predicate Reads(s: State, h: Hist) {
    Agrees(Sources(s), h)
  }

  /** No reopen of the run finds a log older than the tables. */
  ghost predicate SafeLives(w: World, events: seq<Event>)
    requires Possible(w, events)
    decreases |events|
  {
    events == [] ||
    ((events[0].DoReopen? ==> LogsNotOlder(w.db.disk)) && SafeLives(Apply(w, events[0]), events[1..]))
  }

  /** At every point of the run, reads are right. */
  ghost predicate AlwaysReads(w: World, events: seq<Event>)
    requires Possible(w, events)
    decreases |events|
  {
    Reads(w.db, w.hist) && (events == [] || AlwaysReads(Apply(w, events[0]), events[1..]))
  }

  /** Being well layered is reading right. */
  lemma GoodIffReads(w: World)
    requires Inv(w)
    ensures Good(w) <==> Reads(w.db, w.hist)
  {
    hide Inv, Agrees, Sources, AllFaithful, Complete, Shadow;
    InvSources(w);
    FirstHitIff(Sources(w.db), w.hist);
  }

  /** A reopen is well layered exactly when no log was older than the tables. */
  lemma ReopenGoodIff(w: World)
    requires Good(w)
    ensures Inv(Reopen(w)) && (Good(Reopen(w)) <==> LogsNotOlder(w.db.disk))
  {
    assert Inv(w);
    hide Inv, Shadow, RecoveredSources, Open, LogsNotOlder, Reopen;
    ReopenKeepsInv(w);
    RecoveredShadowIff(w);
    OpenSources(w.db.disk);
    ReopenedWorld(w);
  }

  lemma StepGoodIff(w: World, e: Event)
    requires Good(w) && Enabled(w, e)
    ensures Inv(Apply(w, e))
    ensures Good(Apply(w, e)) <==> (e.DoReopen? ==> LogsNotOlder(w.db.disk))
  {
    hide *;
    ApplyReopen(w, e);
    if e.DoReopen? {
      ReopenGoodIff(w);
    } else {
      StepKeepsGood(w, e);
      GoodHasInv(Apply(w, e));
    }
  }

  lemma ApplyReopen(w: World, e: Event)
    requires Enabled(w, e)
    ensures e.DoReopen? ==> Apply(w, e) == Reopen(w)
  {
    hide Reopen;
  }

  lemma GoodHasInv(w: World)
    requires Good(w)
    ensures Inv(w)
  {
    hide Inv, Shadow;
  }

  lemma {:induction false} SafeLivesAreGood(w: World, events: seq<Event>)
    requires Good(w) && Possible(w, events) && SafeLives(w, events)
    ensures Good(Run(w, events))
    decreases |events|
  {
    hide Good, Apply, Enabled, LogsNotOlder, Inv;
    if events != [] {
      StepGoodIff(w, events[0]);
      SafeLivesAreGood(Apply(w, events[0]), events[1..]);
    }
  }

  /** Reads are right at every point of a run exactly when no reopen in it finds a log
      older than the tables. */
  lemma {:induction false} AlwaysReadsIff(w: World, events: seq<Event>)
    requires Good(w) && Possible(w, events)
    ensures AlwaysReads(w, events) <==> SafeLives(w, events)
    decreases |events|
  {
    hide Good, Apply, Enabled, LogsNotOlder, Inv, Reads;
    GoodHasInv(w);
    GoodIffReads(w);
    if events != [] {
      var next := Apply(w, events[0]);
      StepGoodIff(w, events[0]);
      if Good(next) {
        AlwaysReadsIff(next, events[1..]);
      } else {
        GoodIffReads(next);
        NotRightNow(next, events[1..]);
      }
    }
  }

  lemma NotRightNow(w: World, events: seq<Event>)
    requires Possible(w, events) && !Reads(w.db, w.hist)
    ensures !AlwaysReads(w, events)
  {
    hide Reads;
  }

  /** From an empty directory. */
  lemma RunsReadIff(events: seq<Event>)
    requires Possible(Start(), events)
    ensures AlwaysReads(Start(), events) <==> SafeLives(Start(), events)
  {
    hide Good, AlwaysReads, SafeLives, Possible, Start;
    StartGood();
    AlwaysReadsIff(Start(), events);
  }

  // ----- crash recovery -----

  lemma InvRecovered(w: World)
    requires Inv(w)
    ensures var ss := RecoveredSources(w.db.disk);
      AllFaithful(ss, w.hist) && Complete(ss, w.hist) && Sources(Open(w.db.disk)) == ss
  {
    hide *;
    DiskAlwaysOk(w);
    RecoveredOk(w.db.disk, w.hist);
    OpenSources(w.db.disk);
  }

  /** Stop any run after any step, whatever its earlier lives were, and reopen: point
      reads are right exactly when the replayed log and the tables are well layered,
      and range scans are right in any case. */
  lemma RecoveryOfAnyRun(events: seq<Event>, start: Bound, end: Bound, snap: nat)
    requires Possible(Start(), events)
    ensures var w := Run(Start(), events);
      var after := Open(w.db.disk);
      && (Reads(after, w.hist) <==> Shadow(RecoveredSources(w.db.disk)))
      && ScansExactly(after, w.hist, start, end, snap)
  {
    hide Inv, Start, Run, Open, Agrees, Shadow, RecoveredSources, AllFaithful, Complete, Sources, Possible, ScansExactly;
    StartInv();
    RunKeepsInv(Start(), events);
    var w := Run(Start(), events);
    InvRecovered(w);
    FirstHitIff(RecoveredSources(w.db.disk), w.hist);
    ScansOf(Open(w.db.disk), w.hist, start, end, snap);
  }

  /** A range scan returns exactly the live newest versions in range, in key order. */
  ghost predicate ScansExactly(s: State, h: Hist, start: Bound, end: Bound, snap: nat) {
    var out := Scan(Sources(s), start, end, snap);
    && KeysStrictlyAscend(out)
    && forall r :: r in out <==> InRange(r.key, start, end) && Newest(h, r.key, snap) == Some(r) && r.op == Live
  }

  lemma ScansOf(s: State, h: Hist, start: Bound, end: Bound, snap: nat)
    requires AllFaithful(Sources(s), h) && Complete(Sources(s), h)
    ensures ScansExactly(s, h, start, end, snap)
  {
    hide AllFaithful, Complete, Sources, Scan, Newest, InRange, KeysStrictlyAscend;
    ScanIsHistory(Sources(s), h, start, end, snap);
  }

  /** Crash recovery. Take any run from an empty directory, with any number of crashes
      and reopens none of which found a log older than the tables. Stop it after any
      step, in the middle of a flush or a compaction included, and reopen. Reads of
      the running store are those of the acknowledged history; so are reads of the
      reopened store, exactly when no log on disk is older than the tables; and range
      scans are right in any case. */
  lemma CrashRecovery(events: seq<Event>, start: Bound, end: Bound, snap: nat)
    requires Possible(Start(), events) && SafeLives(Start(), events)
    ensures var w := Run(Start(), events);
      var after := Open(w.db.disk);
      && Reads(w.db, w.hist)
      && (Reads(after, w.hist) <==> LogsNotOlder(w.db.disk))
      && ScansExactly(w.db, w.hist, start, end, snap) && ScansExactly(after, w.hist, start, end, snap)
  {
    hide Good, Start, Run, Open, Reads, LogsNotOlder, Possible, SafeLives, ScansExactly, Inv, Shadow, RecoveredSources, AllFaithful, Complete;
    StartGood();
    SafeLivesAreGood(Start(), events);
    var w := Run(Start(), events);
    GoodHasInv(w);
    GoodIffReads(w);
    RecoveryOfAnyRun(events, start, end, snap);
    RecoveredShadowIff(w);
    InvSources(w);
    ScansOf(w.db, w.hist, start, end, snap);
  }

  // ----- runs for which the condition always holds -----

  /** Every reopen in the run finds no logged work: each earlier life was closed, not dropped. */
  ghost predicate ClosedLives(w: World, events: seq<Event>)
    requires Possible(w, events)
    decreases |events|
  {
    events == [] ||
    ((events[0].DoReopen? ==> NothingPending(w.db.disk)) && ClosedLives(Apply(w, events[0]), events[1..]))
  }

  lemma NothingPendingIsSafe(disk: Disk)
    requires NothingPending(disk)
    ensures LogsNotOlder(disk)
  {
    hide OnLog, InSome, OpenTables;
  }

  lemma TidyReopen(w: World)
    requires Good(w) && NothingPending(w.db.disk)
    ensures Tidy(Apply(w, DoReopen).db)
  {
    hide *;
    CleanReopen(w);
    ReopenIsStep(w);
  }

  lemma ReopenIsStep(w: World)
    ensures Enabled(w, DoReopen) && Apply(w, DoReopen) == Reopen(w)
  {
    hide Reopen;
  }

  lemma TidyStep(w: World, e: Event)
    requires Good(w) && Tidy(w.db) && Enabled(w, e) && (e.DoReopen? ==> NothingPending(w.db.disk))
    ensures Tidy(Apply(w, e).db)
  {
    hide *;
    if e.DoReopen? {
      assert e == DoReopen;
      TidyReopen(w);
    } else {
      GoodHasInv(w);
      StepKeepsTidy(w, e);
    }
  }

  lemma {:induction false} ClosedLivesAreSafe(w: World, events: seq<Event>)
    requires Good(w) && Tidy(w.db) && Possible(w, events) && ClosedLives(w, events)
    ensures SafeLives(w, events) && Good(Run(w, events)) && Tidy(Run(w, events).db)
    decreases |events|
  {
    hide Good, Tidy, Apply, Enabled, NothingPending, LogsNotOlder, Inv;
    if events != [] {
      if events[0].DoReopen? { NothingPendingIsSafe(w.db.disk); }
      StepGoodIff(w, events[0]);
      TidyStep(w, events[0]);
      ClosedLivesAreSafe(Apply(w, events[0]), events[1..]);
    }
  }

  /** Closing every life but the last makes recovery right whatever step the last one
      stopped at. */
  lemma ClosedLivesRecover(events: seq<Event>)
    requires Possible(Start(), events) && ClosedLives(Start(), events)
    ensures SafeLives(Start(), events) && LogsNotOlder(Run(Start(), events).db.disk)
  {
    hide Good, Tidy, Start, Run, LogsNotOlder, Possible, SafeLives, ClosedLives;
    StartGood();
    ClosedLivesAreSafe(Start(), events);
    TidyLogsNotOlder(Run(Start(), events));
  }

  /** Nothing has been flushed. */
  predicate Unflushed(s: State) {
    s.disk.tables == map[] && s.tables == [] && s.pending == Idle
  }

  predicate NoFlush(events: seq<Event>) {
    forall i :: 0 <= i < |events| ==> !events[i].DoWriteTable?
  }

  lemma UnflushedStep(w: World, e: Event)
    requires Unflushed(w.db) && Enabled(w, e) && !e.DoWriteTable?
    ensures Unflushed(Apply(w, e).db) && LogsNotOlder(w.db.disk)
  {
    UnflushedOpens(w.db.disk);
    hide Open, OpenTables, OnLog, ApplyBatch;
  }

  lemma UnflushedOpens(disk: Disk)
    requires disk.tables == map[]
    ensures OpenTables(disk) == [] && Open(disk).tables == [] && Open(disk).disk.tables == map[] && Open(disk).pending == Idle
    ensures LogsNotOlder(disk)
  {
    hide Replayed, TopSeqno, OnLog;
    assert disk.tables.Keys == {};
    assert TableRecs([]) == [];
  }

  lemma {:induction false} UnflushedRun(w: World, events: seq<Event>)
    requires Unflushed(w.db) && Possible(w, events) && NoFlush(events)
    ensures SafeLives(w, events) && Unflushed(Run(w, events).db)
    decreases |events|
  {
    hide Apply, Enabled, LogsNotOlder, Unflushed;
    if events != [] {
      UnflushedStep(w, events[0]);
      UnflushedRun(Apply(w, events[0]), events[1..]);
    }
  }

  /** Runs that never flush survive any number of crashes. */
  lemma UnflushedRunsRecover(events: seq<Event>)
    requires Possible(Start(), events) && NoFlush(events)
    ensures SafeLives(Start(), events) && LogsNotOlder(Run(Start(), events).db.disk)
  {
    hide Run, LogsNotOlder, Possible, SafeLives;
    StartShape();
    hide Start;
    UnflushedRun(Start(), events);
    UnflushedOpens(Run(Start(), events).db.disk);
  }

  // ----- commits -----

  lemma CommitOnLog(w: World, ops: Batch.Ops, key: Key, n: nat)
    requires Inv(w) && Enabled(w, DoCommit(ops)) && n <= |w.hist|
    ensures OnLog(Commit(w.db, ops).disk.wals, key, n) <==> OnLog(w.db.disk.wals, key, n)
  {
    hide Inv, LogHas, Commit;
    SeqnoCounts(w);
    CommitLogs(w.db, ops);
    var (s, id) := (w.db, w.db.mems[0].wal);
    LogHasAppend(s.disk.wals[id].log, LogEntry(s.seqno + 1, ops), key, n);
    SameLogs(s.disk.wals, Commit(s, ops).disk.wals, id, key, n);
  }

  lemma SeqnoCounts(w: World)
    requires Inv(w)
    ensures w.db.seqno == |w.hist|
  {
    hide WalsOk, MemsOk, TablesOk, NumbersOk, AllFaithful, Complete, Sources;
  }

  lemma CommitLogs(s: State, ops: Batch.Ops)
    requires s.mems != [] && s.mems[0].wal in s.disk.wals
    ensures var (id, after) := (s.mems[0].wal, Commit(s, ops).disk.wals);
      && after.Keys == s.disk.wals.Keys && (forall a :: a in after && a != id ==> after[a] == s.disk.wals[a])
      && after[id].log == s.disk.wals[id].log + [LogEntry(s.seqno + 1, ops)]
  {
    hide ApplyBatch;
  }

  lemma SameLogs(wals: map<nat, Segment>, after: map<nat, Segment>, id: nat, key: Key, n: nat)
    requires id in wals && after.Keys == wals.Keys && (forall a :: a in wals && a != id ==> after[a] == wals[a])
    requires LogHas(after[id].log, key, n) <==> LogHas(wals[id].log, key, n)
    ensures OnLog(after, key, n) <==> OnLog(wals, key, n)
  {
    hide LogHas;
    if OnLog(wals, key, n) {
      var a :| a in wals && LogHas(wals[a].log, key, n);
      assert LogHas(after[a].log, key, n);
    }
    if OnLog(after, key, n) {
      var a :| a in after && LogHas(after[a].log, key, n);
      assert LogHas(wals[a].log, key, n);
    }
  }

  /** Tables hold committed versions only. */
  lemma TablesBelow(w: World, key: Key, m: nat)
    requires Inv(w) && InSome(TableRecs(OpenTables(w.db.disk)), key, m)
    ensures 1 <= m <= |w.hist|
  {
    hide Inv, Has, Faithful, OpenTables, DiskTables, Wrote;
    DiskAlwaysOk(w);
    RecoveredLength(w.db.disk);
    InvRecovered(w);
    var ts := TableRecs(OpenTables(w.db.disk));
    var i :| 0 <= i < |ts| && Has(ts[i], key, m);
    assert RecoveredSources(w.db.disk)[i + 1] == ts[i];
    HasIsWritten(ts[i], w.hist, key, m);
    WroteBounds(w.hist, key, m);
  }

  lemma WroteBounds(h: Hist, key: Key, n: nat)
    requires Wrote(h, key, n)
    ensures 1 <= n <= |h|
  {
  }

  /** A commit neither makes a log older than the tables nor mends one. */
  lemma CommitLogsNotOlder(w: World, ops: Batch.Ops)
    requires Inv(w) && Enabled(w, DoCommit(ops))
    ensures LogsNotOlder(Commit(w.db, ops).disk) <==> LogsNotOlder(w.db.disk)
  {
    var (disk, after) := (w.db.disk, Commit(w.db, ops).disk);
    assert OpenTables(after) == OpenTables(disk) by { SameTables(after, disk); }
    hide Inv, OnLog, InSome, OpenTables, Commit;
    if LogsNotOlder(disk) {
      forall key, n: nat, m: nat | OnLog(after.wals, key, n) && InSome(TableRecs(OpenTables(after)), key, m) && m > n
        ensures OnLog(after.wals, key, m)
      {
        TablesBelow(w, key, m);
        CommitOnLog(w, ops, key, n);
        CommitOnLog(w, ops, key, m);
      }
    }
    if LogsNotOlder(after) {
      forall key, n: nat, m: nat | OnLog(disk.wals, key, n) && InSome(TableRecs(OpenTables(disk)), key, m) && m > n
        ensures OnLog(disk.wals, key, m)
      {
        TablesBelow(w, key, m);
        CommitOnLog(w, ops, key, n);
        CommitOnLog(w, ops, key, m);
      }
    }
  }

  lemma SameTables(a: Disk, b: Disk)
    requires a.tables == b.tables
    ensures OpenTables(a) == OpenTables(b)
  {
  }

  // ----- numbering of logs -----

  /** The batches of a segment carry consecutive numbers from the one in its header. */
  predicate Consecutive(seg: Segment) {
    forall i :: 0 <= i < |seg.log| ==> seg.log[i].seqno == seg.first + i
  }

  /** The active segment goes on with the next number. */
  ghost predicate Numbered(s: State) {
    && (forall id :: id in s.disk.wals ==> Consecutive(s.disk.wals[id]))
    && s.mems != [] && s.mems[0].wal in s.disk.wals
    && var seg := s.disk.wals[s.mems[0].wal]; seg.first + |seg.log| == s.seqno + 1
  }

  lemma CommitNumbers(s: State, ops: Batch.Ops)
    requires Numbered(s)
    ensures Numbered(Commit(s, ops))
  {
    hide ApplyBatch;
  }

  lemma ActiveStays(w: World)
    requires Inv(w) && Enabled(w, DoPublish)
    ensures w.db.mems[|w.db.mems| - 1].wal != w.db.mems[0].wal
  {
    hide SourcesOk, MemsOk, TablesOk, NumbersOk, SegmentsOk;
  }

  lemma OpenNumbers(disk: Disk)
    requires forall id :: id in disk.wals ==> Consecutive(disk.wals[id])
    ensures Numbered(Open(disk))
  {
    hide OpenTables, TopSeqno, Replayed, LargestOrZero;
  }

  lemma StepNumbers(w: World, e: Event)
    requires Inv(w) && Numbered(w.db) && Enabled(w, e)
    ensures Numbered(Apply(w, e).db)
  {
    hide Inv, Commit, Open, Consecutive, Merged, DropWal;
    match e {
      case DoCommit(ops) => CommitNumbers(w.db, ops);
      case DoRotate => assert Consecutive(Segment(w.db.seqno + 1, [])) by { EmptyIsConsecutive(w.db.seqno + 1); }
      case DoPublish => ActiveStays(w);
      case DoReopen => OpenNumbers(w.db.disk);
      case _ =>
    }
  }

  lemma EmptyIsConsecutive(n: nat)
    ensures Consecutive(Segment(n, []))
  {
  }

  lemma {:induction false} RunNumbers(w: World, events: seq<Event>)
    requires Inv(w) && Numbered(w.db) && Possible(w, events)
    ensures Numbered(Run(w, events).db)
    decreases |events|
  {
    hide Inv, Numbered, Enabled, Apply;
    if events != [] {
      StepNumbers(w, events[0]);
      StepKeepsInv(w, events[0]);
      RunNumbers(Apply(w, events[0]), events[1..]);
    }
  }

  /** In every run, the batches of every segment on disk carry consecutive numbers from
      the first sequence number in its header, and the active one goes on from there. */
  lemma LogsAreConsecutive(events: seq<Event>)
    requires Possible(Start(), events)
    ensures Numbered(Run(Start(), events).db)
  {
    hide Inv, Run, Possible, Start;
    StartInv();
    StartShape();
    RunNumbers(Start(), events);
  }
}
