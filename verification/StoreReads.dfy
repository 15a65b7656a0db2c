/** Point reads of the whole store down to table bytes: memtables first, then each
    table file through its filter, index and blocks. */
module StoreReads {
  import opened Bytes
  import opened Records
  import opened Merge
  import opened History
  import opened Layers
  import opened Engine
  import opened EngineInv
  import opened EngineTheorems
  import opened EngineLives
  import opened SstWriter
  import opened SstReader
  import SstLists
  import opened SstTheorems
  import opened SstLookup
  import Bloom

  /** How a table file was written. */
  datatype Origin = Origin(cfg: Config, filter: Option<Bloom.Filter>)

  /** Tables newest first; the first hit or the first error ends the walk. */
  function LookupTables(origins: seq<Origin>, readers: seq<Reader>, key: Key, snap: nat): Result<Option<Rec>>
    requires |origins| == |readers|
  {
    if readers == [] then Ok(None)
    else
      match Get(origins[0].cfg, readers[0], key, snap)
      case Err(e) => Err(e)
      case Ok(Some(r)) => Ok(Some(r))
      case Ok(None) => LookupTables(origins[1..], readers[1..], key, snap)
  }

  function StoreGet(mems: seq<seq<Rec>>, origins: seq<Origin>, readers: seq<Reader>, key: Key, snap: nat): Result<Option<Rec>>
    requires |origins| == |readers|
  {
    var m := FirstHit(mems, key, snap);
    if m.Some? then Ok(m) else LookupTables(origins, readers, key, snap)
  }

  /** The reader was opened on a finished table of these records. */
  ghost predicate Opens(o: Origin, t: Reader, rs: seq<Rec>) {
    && FilterOk(o.filter) && TableFits(o.cfg, o.filter, rs) && Lawful(o.cfg.crypto)
    && OpenTable(o.cfg, TableBytes(o.cfg, o.filter, rs)) == Ok(t)
  }

  ghost predicate AllOpen(origins: seq<Origin>, readers: seq<Reader>, ts: seq<seq<Rec>>) {
    |origins| == |readers| == |ts| && forall i :: 0 <= i < |ts| ==> Opens(origins[i], readers[i], ts[i])
  }

  /** Lookups of the key land right in every table. */
  predicate AllLand(origins: seq<Origin>, ts: seq<seq<Rec>>, key: Key)
    requires |origins| == |ts|
  {
    forall i :: 0 <= i < |ts| ==> SstLists.LandsRight(Blocks(origins[i].cfg.blockSize, ts[i]), key)
  }

  /** Versions of the key in a source are all newer than those in the sources after it. */
  predicate VersionsApart(ss: seq<seq<Rec>>, key: Key) {
    forall a, b, x, y :: 0 <= a < b < |ss| && x in ss[a] && y in ss[b] && x.key == key == y.key ==> x.seqno > y.seqno
  }

  lemma OpensFinds(o: Origin, t: Reader, rs: seq<Rec>, key: Key, snap: nat)
    requires Opens(o, t, rs) && Sorted(rs)
    ensures var r := Get(o.cfg, t, key, snap);
      r.Ok? && (r.value.Some? ==> r.value.value in rs && r.value.value.key == key && r.value.value.seqno <= snap)
    ensures SstLists.LandsRight(Blocks(o.cfg.blockSize, rs), key) ==> Get(o.cfg, t, key, snap) == Ok(Find(rs, key, snap))
  {
    hide FilterOk, TableFits, Lawful, OpenTable, TableBytes, SstLists.LandsRight, Blocks, Get, Find, Sorted, ReaderOf;
    OpenWritten(o.cfg, o.filter, rs);
    GetFrom(o.cfg, o.filter, rs, key, snap);
    if SstLists.LandsRight(Blocks(o.cfg.blockSize, rs), key) {
      GetIsFind(o.cfg, o.filter, rs, key, snap);
    }
  }

  lemma {:induction false} TablesAreLists(origins: seq<Origin>, readers: seq<Reader>, ts: seq<seq<Rec>>, key: Key, snap: nat)
    requires AllOpen(origins, readers, ts) && AllSorted(ts) && AllLand(origins, ts, key)
    ensures LookupTables(origins, readers, key, snap) == Ok(FirstHit(ts, key, snap))
  {
    hide Get, Opens, Find, Sorted, SstLists.LandsRight, Blocks;
    if ts != [] {
      OpensFinds(origins[0], readers[0], ts[0], key, snap);
      TablesAreLists(origins[1..], readers[1..], ts[1..], key, snap);
    }
  }

  /** Whatever the walk finds is a record of the key from one of the tables. */
  lemma {:induction false} LookupFrom(origins: seq<Origin>, readers: seq<Reader>, ts: seq<seq<Rec>>, key: Key, snap: nat)
    requires AllOpen(origins, readers, ts) && AllSorted(ts)
    ensures var r := LookupTables(origins, readers, key, snap);
      r.Ok? && r.value.Some? ==> r.value.value.key == key && exists i :: 0 <= i < |ts| && r.value.value in ts[i]
  {
    hide Get, Opens, Find, Sorted;
    if ts != [] {
      OpensFinds(origins[0], readers[0], ts[0], key, snap);
      LookupFrom(origins[1..], readers[1..], ts[1..], key, snap);
    }
  }

  lemma WrongTable(o: Origin, t: Reader, rs: seq<Rec>, key: Key) returns (p: nat)
    requires Opens(o, t, rs) && Sorted(rs) && !SstLists.LandsRight(Blocks(o.cfg.blockSize, rs), key)
    ensures p < |rs| && rs[p].key == key && Get(o.cfg, t, key, rs[p].seqno) != Ok(Find(rs, key, rs[p].seqno))
    ensures Find(rs, key, rs[p].seqno).Some?
  {
    hide FilterOk, TableFits, Lawful, OpenTable, TableBytes, SstLists.LandsRight, Blocks, Get, Find, Sorted, ReaderOf;
    OpenWritten(o.cfg, o.filter, rs);
    p := GetWrongAt(o.cfg, o.filter, rs, key);
    FindIsNewest(rs, key, rs[p].seqno);
  }

  /** A table in which the key does not land right spoils the walk at one of the key's
      own versions. */
  lemma {:induction false} TablesGoWrong(origins: seq<Origin>, readers: seq<Reader>, ts: seq<seq<Rec>>, key: Key) returns (i: nat, p: nat)
    requires AllOpen(origins, readers, ts) && AllSorted(ts) && VersionsApart(ts, key) && !AllLand(origins, ts, key)
    ensures i < |ts| && p < |ts[i]| && ts[i][p].key == key
    ensures LookupTables(origins, readers, key, ts[i][p].seqno) != Ok(FirstHit(ts, key, ts[i][p].seqno))
  {
    hide Get, Opens, Find, Sorted, SstLists.LandsRight, Blocks;
    var os, rs, rest := origins[1..], readers[1..], ts[1..];
    assert forall k :: 0 <= k < |rest| ==> rest[k] == ts[k + 1];
    if !SstLists.LandsRight(Blocks(origins[0].cfg.blockSize, ts[0]), key) {
      i := 0;
      p := WrongTable(origins[0], readers[0], ts[0], key);
      var snap := ts[0][p].seqno;
      OpensFinds(origins[0], readers[0], ts[0], key, snap);
      LookupFrom(os, rs, rest, key, snap);
    } else {
      i, p := TablesGoWrong(os, rs, rest, key);
      var r: Rec := rest[i][p];
      assert r in rest[i];
      OpensFinds(origins[0], readers[0], ts[0], key, r.seqno);
      i := i + 1;
    }
  }

  lemma {:induction false} FirstHitOfConcat(a: seq<seq<Rec>>, b: seq<seq<Rec>>, key: Key, snap: nat)
    ensures FirstHit(a + b, key, snap) == if FirstHit(a, key, snap).Some? then FirstHit(a, key, snap) else FirstHit(b, key, snap)
  {
    hide Find;
    if a == [] {
      assert a + b == b;
    } else {
      FirstHitOfConcat(a[1..], b, key, snap);
      assert (a + b)[1..] == a[1..] + b;
    }
  }

  lemma TablesSorted(s: State, h: Hist)
    requires AllFaithful(Sources(s), h)
    ensures AllSorted(TableRecs(s.tables))
  {
    hide Faithful, Sorted, MemRecs, TableRecs;
    var (ss, ts) := (Sources(s), TableRecs(s.tables));
    forall i | 0 <= i < |ts| ensures Sorted(ts[i]) {
      assert ss[|s.mems| + i] == ts[i];
      FaithfulSorted(ts[i], h);
    }
  }

  /** The read path over table bytes finds what the record lists of the layers hold if
      lookups of the key land right in every table. If the layers hold different
      versions of the key, newest first, it does so only then. */
  lemma StoreGetIff(s: State, h: Hist, origins: seq<Origin>, readers: seq<Reader>, key: Key)
    requires AllFaithful(Sources(s), h) && AllOpen(origins, readers, TableRecs(s.tables))
    ensures |origins| == |readers| == |s.tables|
    ensures AllLand(origins, TableRecs(s.tables), key) ==>
      forall snap: nat :: StoreGet(MemRecs(s.mems), origins, readers, key, snap) == Ok(FirstHit(Sources(s), key, snap))
    ensures VersionsApart(Sources(s), key) && !AllLand(origins, TableRecs(s.tables), key) ==>
      exists snap: nat :: StoreGet(MemRecs(s.mems), origins, readers, key, snap) != Ok(FirstHit(Sources(s), key, snap))
  {
    hide AllFaithful, AllLand, AllSorted, LookupTables, FirstHit, MemRecs, TableRecs, Opens, VersionsApart;
    var mems, ts := MemRecs(s.mems), TableRecs(s.tables);
    TablesSorted(s, h);
    if AllLand(origins, ts, key) {
      forall snap: nat ensures StoreGet(mems, origins, readers, key, snap) == Ok(FirstHit(Sources(s), key, snap)) {
        TablesAreLists(origins, readers, ts, key, snap);
        FirstHitOfConcat(mems, ts, key, snap);
      }
    } else if VersionsApart(Sources(s), key) {
      ApartParts(mems, ts, key);
      var i, p := TablesGoWrong(origins, readers, ts, key);
      var r: Rec := ts[i][p];
      var snap := r.seqno;
      NewerMiss(mems, ts, key, i, p);
      FirstHitOfConcat(mems, ts, key, snap);
      assert StoreGet(mems, origins, readers, key, snap) != Ok(FirstHit(Sources(s), key, snap));
    }
  }

  lemma ApartParts(a: seq<seq<Rec>>, b: seq<seq<Rec>>, key: Key)
    requires VersionsApart(a + b, key)
    ensures VersionsApart(b, key)
  {
    forall i, j, x, y | 0 <= i < j < |b| && x in b[i] && y in b[j] && x.key == key == y.key ensures x.seqno > y.seqno {
      assert (a + b)[|a| + i] == b[i] && (a + b)[|a| + j] == b[j];
    }
  }

  lemma NewerMiss(mems: seq<seq<Rec>>, ts: seq<seq<Rec>>, key: Key, i: nat, p: nat)
    requires VersionsApart(mems + ts, key) && i < |ts| && p < |ts[i]| && ts[i][p].key == key
    ensures FirstHit(mems, key, ts[i][p].seqno) == None
  {
    var (ss, y) := (mems + ts, ts[i][p]);
    assert ss[|mems| + i] == ts[i] && y in ts[i];
    forall a, x | 0 <= a < |mems| && x in mems[a] ensures !Visible(x, key, y.seqno) {
      assert ss[a] == mems[a];
    }
    NothingVisible(mems, key, y.seqno);
  }

  lemma {:induction false} NothingVisible(ss: seq<seq<Rec>>, key: Key, snap: nat)
    requires forall a, x :: 0 <= a < |ss| && x in ss[a] ==> !Visible(x, key, snap)
    ensures FirstHit(ss, key, snap) == None
  {
    hide Find, Visible;
    if ss != [] {
      assert Find(ss[0], key, snap).None?;
      NothingVisible(ss[1..], key, snap);
    }
  }

  /** Over every run none of whose reopens found a log older than the tables: a read
      from the bytes is the newest committed version at the snapshot. */
  lemma StoreReadsAreNewest(events: seq<Event>, origins: seq<Origin>, readers: seq<Reader>, key: Key, snap: nat)
    requires Possible(Start(), events) && SafeLives(Start(), events)
    requires AllOpen(origins, readers, TableRecs(Run(Start(), events).db.tables))
    requires |origins| == |Run(Start(), events).db.tables| && AllLand(origins, TableRecs(Run(Start(), events).db.tables), key)
    ensures var w := Run(Start(), events);
      |origins| == |readers| && StoreGet(MemRecs(w.db.mems), origins, readers, key, snap) == Ok(Newest(w.hist, key, snap))
  {
    hide *;
    var w := Run(Start(), events);
    StartGood();
    SafeLivesAreGood(Start(), events);
    GoodHasInv(w);
    InvSources(w);
    StoreGetIff(w.db, w.hist, origins, readers, key);
    GoodReads(w, key, snap);
  }

  /** And after a crash at any point of such a run, if no log was older than the tables
      then either. */
  lemma ReopenedReadsAreNewest(events: seq<Event>, origins: seq<Origin>, readers: seq<Reader>, key: Key, snap: nat)
    requires Possible(Start(), events) && SafeLives(Start(), events) && LogsNotOlder(Run(Start(), events).db.disk)
    requires AllOpen(origins, readers, TableRecs(Open(Run(Start(), events).db.disk).tables))
    requires |origins| == |Open(Run(Start(), events).db.disk).tables| && AllLand(origins, TableRecs(Open(Run(Start(), events).db.disk).tables), key)
    ensures var w := Run(Start(), events); var s := Open(w.db.disk);
      |origins| == |readers| && StoreGet(MemRecs(s.mems), origins, readers, key, snap) == Ok(Newest(w.hist, key, snap))
  {
    hide *;
    var w := Run(Start(), events);
    var s := Open(w.db.disk);
    StartGood();
    SafeLivesAreGood(Start(), events);
    GoodHasInv(w);
    InvRecovered(w);
    StoreGetIff(s, w.hist, origins, readers, key);
    CrashRecoveryIff(w);
    AgreesAt(Sources(s), w.hist, key, snap);
  }

  lemma AgreesAt(ss: seq<seq<Rec>>, h: Hist, key: Key, snap: nat)
    requires Agrees(ss, h)
    ensures FirstHit(ss, key, snap) == Newest(h, key, snap)
  {
    hide FirstHit, Newest;
  }
}
