/** Whole runs with every file as bytes: log segments, and tables through their header,
    index, filter and blocks. A crash can fall on any byte of a file being written. */
module FileRuns {
  import opened Bytes
  import opened WalFormat
  import opened Records
  import opened Merge
  import opened Range
  import opened History
  import opened Layers
  import opened Ids
  import opened Engine
  import opened EngineInv
  import opened EngineTheorems
  import opened EngineLives
  import opened Recovery
  import opened ByteRuns
  import opened StoreReads
  import opened SstTheorems
  import SstFormat
  import SstWriter
  import SstReader
  import SstLookup
  import Batch
  import Bloom

  // ----- one table file -----

  /** How a store writes and reads its files: the checksum of the log, and how the
      table with a given file number is written. */
  datatype Setup = Setup(crc: Checksum, cfg: nat -> SstWriter.Config, filter: seq<Rec> -> Option<Bloom.Filter>)

  /** What the table writer demands of its caller. */
  ghost predicate Writable(su: Setup, id: nat, rs: seq<Rec>) {
    SstWriter.FilterOk(su.filter(rs)) && TableFits(su.cfg(id), su.filter(rs), rs) && Lawful(su.cfg(id).crypto)
  }

  function TableFile(su: Setup, id: nat, rs: seq<Rec>): seq<byte> {
    if SstWriter.FilterOk(su.filter(rs)) then SstWriter.TableBytes(su.cfg(id), su.filter(rs), rs) else []
  }

  /** Opens a table file and reads all of it. */
  function ReadTable(su: Setup, id: nat, file: seq<byte>): Result<seq<Rec>> {
    match SstReader.OpenTable(su.cfg(id), file)
    case Err(e) => Err(e)
    case Ok(t) => SstReader.Scan(su.cfg(id), t)
  }

  function Contents(su: Setup, id: nat, file: seq<byte>): seq<Rec> {
    match ReadTable(su, id, file)
    case Ok(rs) => rs
    case Err(_) => []
  }

  lemma TableReads(su: Setup, id: nat, rs: seq<Rec>)
    requires Writable(su, id, rs)
    ensures SstReader.OpenTable(su.cfg(id), TableFile(su, id, rs)).Ok? && Contents(su, id, TableFile(su, id, rs)) == rs
  {
    hide SstWriter.FilterOk, SstWriter.TableBytes, TableFits, Lawful, SstReader.OpenTable, SstReader.Scan;
    SstLookup.ScanIsIdentity(su.cfg(id), su.filter(rs), rs);
  }

  // ----- a directory -----

  datatype Files = Files(wals: map<nat, seq<byte>>, tables: map<nat, seq<byte>>)

  /** The directory with its tables read. */
  function ImageFrom(su: Setup, files: Files): Image {
    Image(files.wals, map id | id in files.tables :: Contents(su, id, files.tables[id]))
  }

  /** The error of the first listed table that does not open. */
  function FirstBadTable(su: Setup, tables: map<nat, seq<byte>>, ids: seq<nat>): (e: Option<Error>)
    requires forall id :: id in ids ==> id in tables
    ensures e.None? <==> forall id :: id in ids ==> SstReader.OpenTable(su.cfg(id), tables[id]).Ok?
  {
    if ids == [] then None
    else
      match SstReader.OpenTable(su.cfg(ids[0]), tables[ids[0]])
      case Err(e) => Some(e)
      case Ok(_) => FirstBadTable(su, tables, ids[1..])
  }

  /** Opening a directory: tables newest first, then log segments in order; the first
      file that does not open makes the open fail. */
  function OpenFiles(su: Setup, files: Files): Result<State> {
    match FirstBadTable(su, files.tables, Descending(files.tables.Keys))
    case Some(e) => Err(e)
    case None => OpenImage(su.crc, ImageFrom(su, files))
  }

  /** Every table file is a finished table of the records it reads as. */
  ghost predicate Finished(su: Setup, files: Files) {
    forall id :: id in files.tables ==>
      && Writable(su, id, Contents(su, id, files.tables[id]))
      && files.tables[id] == TableFile(su, id, Contents(su, id, files.tables[id]))
  }

  lemma FinishedOpens(su: Setup, files: Files)
    requires Finished(su, files)
    ensures OpenFiles(su, files) == OpenImage(su.crc, ImageFrom(su, files))
  {
    hide Writable, TableFile, Contents, SstReader.OpenTable, OpenImage, ImageFrom;
    forall id | id in files.tables ensures SstReader.OpenTable(su.cfg(id), files.tables[id]).Ok? {
      TableReads(su, id, Contents(su, id, files.tables[id]));
    }
  }

  // ----- steps -----

  datatype FileMachine = FileMachine(files: Files, w: World)

  /** The same machine with its tables read. */
  function Lift(su: Setup, m: FileMachine): Machine {
    Machine(ImageFrom(su, m.files), m.w)
  }

  /** What the readers of the live tables deliver. */
  function LiveContents(su: Setup, files: Files, ts: seq<Table>): seq<seq<Rec>> {
    seq(|ts|, i requires 0 <= i < |ts| =>
      if ts[i].id in files.tables then Contents(su, ts[i].id, files.tables[ts[i].id]) else [])
  }

  predicate WritesTable(e: Event) {
    e.DoWriteTable? || e.DoWriteMerged?
  }

  /** The records a flush or a compaction writes out: those of the oldest memtable, or
      the merge of what the live table files hold. */
  function NewTable(su: Setup, m: FileMachine, e: Event): seq<Rec> {
    if e.DoWriteMerged? then Merged(LiveContents(su, m.files, m.w.db.tables))
    else if m.w.db.mems == [] then []
    else m.w.db.mems[|m.w.db.mems| - 1].recs
  }

  function StepTables(su: Setup, m: FileMachine, e: Event): map<nat, seq<byte>>
    requires Enabled(m.w, e)
  {
    if WritesTable(e) then m.files.tables[m.w.db.nextFile := TableFile(su, m.w.db.nextFile, NewTable(su, m, e))]
    else if e.DoUnlink? then m.files.tables - {m.w.db.pending.inputs[0].id}
    else m.files.tables
  }

  function StepFiles(su: Setup, m: FileMachine, e: Event): Files
    requires Enabled(m.w, e)
  {
    Files(StepImage(su.crc, Lift(su, m), e).wals, StepTables(su, m, e))
  }

  /** The segment a freshly opened store writes to. */
  function FreshWal(s: State): nat {
    if s.mems == [] then 0 else s.mems[0].wal
  }

  function ReopenFiles(su: Setup, files: Files, hist: Hist, created: seq<nat>): Result<FileMachine> {
    match OpenFiles(su, files)
    case Err(e) => Err(e)
    case Ok(s) =>
      var id := FreshWal(s);
      Ok(FileMachine(files.(wals := files.wals[id := NewSegment(su.crc, id, s.seqno + 1)]),
                     World(s, Trim(hist, s.seqno), created + [id])))
  }

  ghost predicate FileEnabled(su: Setup, m: FileMachine, b: ByteEvent) {
    && ByteEnabled(su.crc, Lift(su, m), b)
    && (b.Whole? && WritesTable(b.e) ==> Writable(su, m.w.db.nextFile, NewTable(su, m, b.e)))
  }

  ghost function FileApply(su: Setup, m: FileMachine, b: ByteEvent): Result<FileMachine>
    requires FileEnabled(su, m, b)
  {
    match b
    case Whole(e) =>
      if e.DoReopen? then ReopenFiles(su, m.files, m.w.hist, m.w.created)
      else Ok(FileMachine(StepFiles(su, m, e), Apply(m.w, e)))
    case Torn(ops, kept) =>
      ReopenFiles(su, m.files.(wals := Appended(su.crc, Lift(su, m), ops, kept).wals),
                  HistoryAfter(su.crc, Lift(su, m), ops, kept), m.w.created)
  }

  // ----- files and tables, step by step -----

  lemma LiveOnDisk(w: World, i: nat)
    requires Inv(w) && i < |w.db.tables|
    ensures w.db.tables[i].id in w.db.disk.tables && w.db.disk.tables[w.db.tables[i].id] == w.db.tables[i].recs
  {
    hide SourcesOk, WalsOk, MemsOk, NumbersOk, Covered, Merged;
    var s := w.db;
    var ts := DiskTables(s);
    var k := if s.pending.Flushing? || s.pending.Compacting? then i + 1 else i;
    assert ts[k] == s.tables[i];
  }

  /** The live tables read as the store believes. */
  lemma LiveReads(su: Setup, m: FileMachine)
    requires Tracks(su.crc, Lift(su, m))
    ensures LiveContents(su, m.files, m.w.db.tables) == TableRecs(m.w.db.tables)
  {
    hide Tracks, Inv, Mirrors, Contents;
    TrackedParts(su.crc, Lift(su, m));
    MirrorTables(su.crc, ImageFrom(su, m.files), m.w.db.disk);
    var ts := m.w.db.tables;
    forall i | 0 <= i < |ts| ensures LiveContents(su, m.files, ts)[i] == ts[i].recs { LiveOnDisk(m.w, i); }
  }

  lemma PutTable(su: Setup, files: Files, wals: map<nat, seq<byte>>, id: nat, rs: seq<Rec>)
    requires Finished(su, files) && Writable(su, id, rs)
    ensures var after := Files(wals, files.tables[id := TableFile(su, id, rs)]);
      ImageFrom(su, after).tables == ImageFrom(su, files).tables[id := rs] && Finished(su, after)
  {
    hide Contents, Writable, TableFile;
    TableReads(su, id, rs);
  }

  lemma DropTable(su: Setup, files: Files, wals: map<nat, seq<byte>>, id: nat)
    requires Finished(su, files)
    ensures var after := Files(wals, files.tables - {id});
      ImageFrom(su, after).tables == ImageFrom(su, files).tables - {id} && Finished(su, after)
  {
    hide Contents, Writable, TableFile;
  }

  lemma StepImageTables(su: Setup, m: FileMachine, e: Event)
    requires Enabled(m.w, e) && LiveContents(su, m.files, m.w.db.tables) == TableRecs(m.w.db.tables)
    ensures var (before, s) := (ImageFrom(su, m.files).tables, m.w.db);
      StepImage(su.crc, Lift(su, m), e).tables ==
        if WritesTable(e) then before[s.nextFile := NewTable(su, m, e)]
        else if e.DoUnlink? then before - {s.pending.inputs[0].id}
        else before
  {
    hide ImageFrom, LiveContents, TableRecs, Merged, CommitBytes, Active, NewSegment;
  }

  lemma StepTablesRead(su: Setup, m: FileMachine, e: Event)
    requires Tracks(su.crc, Lift(su, m)) && Finished(su, m.files) && FileEnabled(su, m, Whole(e)) && !e.DoReopen?
    ensures Enabled(m.w, e) && ImageFrom(su, StepFiles(su, m, e)).tables == StepImage(su.crc, Lift(su, m), e).tables
    ensures Finished(su, StepFiles(su, m, e))
  {
    hide Tracks, Finished, ImageFrom, Writable, TableFile, ByteEnabled, Enabled, NewTable, LiveContents, TableRecs, StepImage;
    StepEnabled(su, m, e);
    LiveReads(su, m);
    StepImageTables(su, m, e);
    var (wals, s) := (StepFiles(su, m, e).wals, m.w.db);
    if WritesTable(e) {
      PutTable(su, m.files, wals, s.nextFile, NewTable(su, m, e));
    } else if e.DoUnlink? {
      UnlinkEnabled(m.w);
      DropTable(su, m.files, wals, s.pending.inputs[0].id);
    } else {
      SameTableFiles(su, m.files, StepFiles(su, m, e));
    }
  }

  lemma UnlinkEnabled(w: World)
    requires Enabled(w, DoUnlink)
    ensures w.db.pending.Unlinking? && w.db.pending.inputs != []
  {
  }

  lemma StepEnabled(su: Setup, m: FileMachine, e: Event)
    requires ByteEnabled(su.crc, Lift(su, m), Whole(e))
    ensures Enabled(m.w, e)
  {
    hide Open, Fits, Enabled;
  }

  lemma StepLifts(su: Setup, m: FileMachine, e: Event)
    requires Tracks(su.crc, Lift(su, m)) && Finished(su, m.files) && FileEnabled(su, m, Whole(e)) && !e.DoReopen?
    ensures var r := FileApply(su, m, Whole(e));
      r.Ok? && Ok(Lift(su, r.value)) == ByteApply(su.crc, Lift(su, m), Whole(e)) && Finished(su, r.value.files)
  {
    hide Tracks, Finished, ByteEnabled, Apply, Contents, StepImage, Writable;
    StepEnabled(su, m, e);
    StepTablesRead(su, m, e);
    assert ImageFrom(su, StepFiles(su, m, e)) == StepImage(su.crc, Lift(su, m), e);
  }

  lemma ReopenLifts(su: Setup, files: Files, hist: Hist, created: seq<nat>)
    requires Finished(su, files)
    ensures var r := ReopenFiles(su, files, hist, created);
      var q := ReopenBytes(su.crc, ImageFrom(su, files), hist, created);
      if q.Err? then r == Err(q.error) else r.Ok? && Lift(su, r.value) == q.value && Finished(su, r.value.files)
  {
    hide OpenFiles, OpenImage, Contents, Writable, TableFile, NewSegment;
    FinishedOpens(su, files);
  }

  /** One event over files is the event with the tables read. */
  lemma FileStep(su: Setup, m: FileMachine, b: ByteEvent)
    requires Tracks(su.crc, Lift(su, m)) && Finished(su, m.files) && FileEnabled(su, m, b)
    ensures var r := FileApply(su, m, b);
      var q := ByteApply(su.crc, Lift(su, m), b);
      if q.Err? then r == Err(q.error) else r.Ok? && Lift(su, r.value) == q.value && Finished(su, r.value.files)
  {
    hide Tracks, Finished, ByteEnabled, Apply, StepFiles, StepImage, ReopenFiles, ReopenBytes, Contents, Enabled, CommitBytes, NewTable, Writable;
    match b {
      case Whole(e) =>
        if e.DoReopen? {
          ReopenLifts(su, m.files, m.w.hist, m.w.created);
        } else {
          StepLifts(su, m, e);
        }
      case Torn(ops, kept) =>
        TornEnabled(su.crc, Lift(su, m), ops, kept);
        var files := m.files.(wals := Appended(su.crc, Lift(su, m), ops, kept).wals);
        SameTableFiles(su, m.files, files);
        assert ImageFrom(su, files) == Appended(su.crc, Lift(su, m), ops, kept);
        ReopenLifts(su, files, HistoryAfter(su.crc, Lift(su, m), ops, kept), m.w.created);
    }
  }

  lemma SameTableFiles(su: Setup, files: Files, after: Files)
    requires Finished(su, files) && after.tables == files.tables
    ensures Finished(su, after) && ImageFrom(su, after) == Image(after.wals, ImageFrom(su, files).tables)
  {
    hide Contents, Writable, TableFile;
  }

  // ----- whole runs -----

  ghost predicate FilePossible(su: Setup, m: FileMachine, bs: seq<ByteEvent>)
    decreases |bs|
  {
    bs == [] ||
    (FileEnabled(su, m, bs[0]) && (FileApply(su, m, bs[0]).Ok? ==> FilePossible(su, FileApply(su, m, bs[0]).value, bs[1..])))
  }

  ghost function FileRun(su: Setup, m: FileMachine, bs: seq<ByteEvent>): Result<FileMachine>
    requires FilePossible(su, m, bs)
    decreases |bs|
  {
    if bs == [] then Ok(m)
    else
      match FileApply(su, m, bs[0])
      case Err(e) => Err(e)
      case Ok(next) => FileRun(su, next, bs[1..])
  }

  /** Whole runs over files are runs over logs with the tables read: the same opens
      fail, the same store results, and every table file is always finished. */
  lemma {:induction false} FileRunLifts(su: Setup, m: FileMachine, bs: seq<ByteEvent>)
    requires Tracks(su.crc, Lift(su, m)) && Finished(su, m.files) && FilePossible(su, m, bs)
    ensures BytePossible(su.crc, Lift(su, m), bs)
    ensures var r := FileRun(su, m, bs);
      var q := ByteRun(su.crc, Lift(su, m), bs);
      if q.Err? then r == Err(q.error) else r.Ok? && Lift(su, r.value) == q.value && Finished(su, r.value.files)
    decreases |bs|
  {
    hide Tracks, Finished, Lift, ByteApply, FileApply, ByteEnabled, SmallDisk, BeforeReopen, Lower, Possible, Run;
    if bs != [] {
      assert ByteEnabled(su.crc, Lift(su, m), bs[0]);
      FileStep(su, m, bs[0]);
      ByteStep(su.crc, Lift(su, m), bs[0]);
      if FileApply(su, m, bs[0]).Ok? {
        FileRunLifts(su, FileApply(su, m, bs[0]).value, bs[1..]);
      }
    }
  }

  /** The machine that opening an empty directory gives. */
  function FirstFiles(su: Setup): FileMachine {
    FileMachine(Files(map[1 := NewSegment(su.crc, 1, 1)], map[]), Start())
  }

  lemma FirstFilesLift(su: Setup)
    ensures Lift(su, FirstFiles(su)) == Begin(su.crc) && Finished(su, FirstFiles(su).files)
    ensures Tracks(su.crc, Begin(su.crc)) && Begin(su.crc).w == Start()
    ensures ReopenFiles(su, Files(map[], map[]), [], []) == Ok(FirstFiles(su))
  {
    hide Start, NewSegment, Tracks, ReopenBytes, OpenImage, OpenFiles;
    BeginTracks(su.crc);
    var files := Files(map[], map[]);
    ReopenLifts(su, files, [], []);
    assert ImageFrom(su, files) == Image(map[], map[]);
    EmptyDirectory(su, files);
  }

  lemma EmptyDirectory(su: Setup, files: Files)
    requires files == Files(map[], map[])
    ensures ReopenFiles(su, files, [], []) == Ok(FirstFiles(su))
  {
    hide Start, NewSegment, Open, OpenImage;
    var (image, disk) := (Image(map[], map[]), Disk(map[], map[]));
    assert ImageFrom(su, files) == image;
    OpenMirror(su.crc, image, disk);
    StartIsOpen();
    StartShape();
    assert files.wals[1 := NewSegment(su.crc, 1, 1)] == FirstFiles(su).files.wals;
    assert [] + [1] == Start().created;
    assert Start() == World(Open(disk), [], [1]) by { StartWorld(); }
  }

  lemma StartWorld()
    ensures Start() == World(Open(Disk(map[], map[])), [], [1])
  {
    hide Open;
  }

  // ----- what a run reads from its files -----

  /** How the live tables were written. */
  function Origins(su: Setup, ts: seq<Table>): (os: seq<Origin>)
    ensures |os| == |ts|
  {
    seq(|ts|, i requires 0 <= i < |ts| => Origin(su.cfg(ts[i].id), su.filter(ts[i].recs)))
  }

  /** Every live table has a file that opens. */
  predicate LiveOpen(su: Setup, m: FileMachine) {
    forall t :: t in m.w.db.tables ==> t.id in m.files.tables && SstReader.OpenTable(su.cfg(t.id), m.files.tables[t.id]).Ok?
  }

  function Readers(su: Setup, m: FileMachine): (rs: seq<SstReader.Reader>)
    requires LiveOpen(su, m)
    ensures |rs| == |m.w.db.tables|
  {
    var ts := m.w.db.tables;
    seq(|ts|, i requires 0 <= i < |ts| => assert ts[i] in ts; SstReader.OpenTable(su.cfg(ts[i].id), m.files.tables[ts[i].id]).value)
  }

  /** A point read: memtables, then the live table files through filter, index and blocks. */
  function FileGet(su: Setup, m: FileMachine, key: Key, snap: nat): Result<Option<Rec>>
    requires LiveOpen(su, m)
  {
    StoreGet(MemRecs(m.w.db.mems), Origins(su, m.w.db.tables), Readers(su, m), key, snap)
  }

  /** Lookups of the key land right in every live table. */
  predicate LandsInAll(su: Setup, ts: seq<Table>, key: Key) {
    AllLand(Origins(su, ts), TableRecs(ts), key)
  }

  lemma LiveOpens(su: Setup, m: FileMachine)
    requires Tracks(su.crc, Lift(su, m)) && Finished(su, m.files)
    ensures LiveOpen(su, m) && AllOpen(Origins(su, m.w.db.tables), Readers(su, m), TableRecs(m.w.db.tables))
  {
    hide Tracks, Inv, Mirrors, SstWriter.FilterOk, SstWriter.TableBytes, TableFits, Lawful, SstReader.OpenTable, SstReader.Scan;
    TrackedParts(su.crc, Lift(su, m));
    MirrorTables(su.crc, ImageFrom(su, m.files), m.w.db.disk);
    var ts := m.w.db.tables;
    forall i | 0 <= i < |ts|
      ensures ts[i].id in m.files.tables && Writable(su, ts[i].id, ts[i].recs)
      ensures m.files.tables[ts[i].id] == TableFile(su, ts[i].id, ts[i].recs)
      ensures SstReader.OpenTable(su.cfg(ts[i].id), m.files.tables[ts[i].id]).Ok?
    {
      LiveOnDisk(m.w, i);
      assert ts[i].id in ImageFrom(su, m.files).tables;
      TableReads(su, ts[i].id, ts[i].recs);
    }
  }

  lemma LandsDecide(su: Setup, m: FileMachine, key: Key)
    requires Tracks(su.crc, Lift(su, m)) && Finished(su, m.files) && Good(m.w)
    ensures LiveOpen(su, m)
    ensures LandsInAll(su, m.w.db.tables, key) ==> forall snap: nat :: FileGet(su, m, key, snap) == Ok(Newest(m.w.hist, key, snap))
    ensures VersionsApart(Sources(m.w.db), key) && !LandsInAll(su, m.w.db.tables, key) ==>
      exists snap: nat :: FileGet(su, m, key, snap) != Ok(Newest(m.w.hist, key, snap))
  {
    hide Tracks, Finished, Good, Inv, LiveOpen, Readers, Origins, AllOpen, AllLand, VersionsApart, AllFaithful, Complete, Sources, MemRecs, TableRecs, FirstHit, Newest, StoreGet;
    LiveOpens(su, m);
    GoodHasInv(m.w);
    InvSources(m.w);
    StoreGetIff(m.w.db, m.w.hist, Origins(su, m.w.db.tables), Readers(su, m), key);
    forall snap: nat ensures FirstHit(Sources(m.w.db), key, snap) == Newest(m.w.hist, key, snap) {
      GoodReads(m.w, key, snap);
    }
  }

  /** Every run over files from an empty directory. With batches of at most 2^20
      operations no open ever fails. A run in which none failed is a run of the
      transition system; its table files deliver the records the store believes in, so
      range scans are the history at every point; and the next open fails exactly when a
      logged batch is oversized. */
  lemma FilesRead(su: Setup, bs: seq<ByteEvent>, start: Bound, end: Bound, snap: nat)
    requires FilePossible(su, FirstFiles(su), bs)
    ensures BytePossible(su.crc, Begin(su.crc), bs)
    ensures (forall i :: 0 <= i < |bs| ==> SmallBatch(bs[i])) ==> FileRun(su, FirstFiles(su), bs).Ok?
    ensures var (r, events) := (FileRun(su, FirstFiles(su), bs), LowerAll(su.crc, Begin(su.crc), bs));
      r.Ok? ==>
        var (files, w) := (r.value.files, r.value.w);
        && Possible(Start(), events) && w == Run(Start(), events)
        && MemRecs(w.db.mems) + LiveContents(su, files, w.db.tables) == Sources(w.db)
        && ScansExactly(w.db, w.hist, start, end, snap)
        && OpenFiles(su, files) == if SmallDisk(w.db.disk) then Ok(Open(w.db.disk)) else Err(InvalidFormat)
  {
    hide *;
    FirstFilesLift(su);
    FileRunLifts(su, FirstFiles(su), bs);
    BytesRead(su.crc, bs, start, end, snap);
    if FileRun(su, FirstFiles(su), bs).Ok? {
      var m := FileRun(su, FirstFiles(su), bs).value;
      ByteRunRefines(su.crc, Begin(su.crc), bs);
      LiftParts(su, m);
      LiveReads(su, m);
      FinishedOpens(su, m.files);
      assert MemRecs(m.w.db.mems) + TableRecs(m.w.db.tables) == Sources(m.w.db) by { SourceParts(m.w.db); }
    }
  }

  lemma LiftParts(su: Setup, m: FileMachine)
    ensures Lift(su, m).image == ImageFrom(su, m.files) && Lift(su, m).w == m.w
  {
    hide ImageFrom;
  }

  lemma SourceParts(s: State)
    ensures Sources(s) == MemRecs(s.mems) + TableRecs(s.tables)
  {
  }

  /** Point reads from the bytes of the files, in any run whose reopens found no log
      older than the tables: right at every snapshot of a key if its lookups land right
      in every live table, and, where the layers hold different versions of it, only if. */
  lemma FileReadsIff(su: Setup, bs: seq<ByteEvent>, key: Key)
    requires FilePossible(su, FirstFiles(su), bs) && FileRun(su, FirstFiles(su), bs).Ok?
    ensures BytePossible(su.crc, Begin(su.crc), bs) && Possible(Start(), LowerAll(su.crc, Begin(su.crc), bs))
    ensures var m := FileRun(su, FirstFiles(su), bs).value;
      LiveOpen(su, m) &&
      (SafeLives(Start(), LowerAll(su.crc, Begin(su.crc), bs)) ==>
        && (LandsInAll(su, m.w.db.tables, key) ==> forall snap: nat :: FileGet(su, m, key, snap) == Ok(Newest(m.w.hist, key, snap)))
        && (VersionsApart(Sources(m.w.db), key) && !LandsInAll(su, m.w.db.tables, key) ==>
              exists snap: nat :: FileGet(su, m, key, snap) != Ok(Newest(m.w.hist, key, snap))))
  {
    hide *;
    FirstFilesLift(su);
    FileRunLifts(su, FirstFiles(su), bs);
    ByteRunRefines(su.crc, Begin(su.crc), bs);
    var (m, events) := (FileRun(su, FirstFiles(su), bs).value, LowerAll(su.crc, Begin(su.crc), bs));
    LiftParts(su, m);
    LiveOpens(su, m);
    if SafeLives(Start(), events) {
      StartGood();
      SafeLivesAreGood(Start(), events);
      LandsDecide(su, m, key);
    }
  }

  // ----- a crash on any byte of any file -----

  /** Where a crash can fall: between two steps, or after some bytes of a file that is
      being written. */
  datatype Crash =
    | Between
    | InCommit(ops: Batch.Ops, kept: nat)    // appending a batch to the log
    | InRotate(kept: nat)                    // writing the header of a new segment
    | InOpen(kept: nat)                      // the same, while opening
    | InTable(e: Event, kept: nat)           // writing a table, up to its footer

  /** A table file before its header is filled in, which is the last write. */
  function Unfinished(file: seq<byte>): seq<byte> {
    if |file| < SstFormat.FILE_HEADER_SIZE then []
    else Zeros(SstFormat.FILE_HEADER_SIZE) + file[SstFormat.FILE_HEADER_SIZE..]
  }

  ghost predicate CanCrash(su: Setup, m: FileMachine, c: Crash) {
    match c
    case Between => true
    case InCommit(ops, kept) => ByteEnabled(su.crc, Lift(su, m), Torn(ops, kept))
    case InRotate(kept) => Enabled(m.w, DoRotate) && kept < SEGMENT_HEADER_SIZE
    case InOpen(kept) => OpenFiles(su, m.files).Ok? && kept < SEGMENT_HEADER_SIZE
    case InTable(e, kept) =>
      && WritesTable(e) && Enabled(m.w, e) && Writable(su, m.w.db.nextFile, NewTable(su, m, e))
      && kept <= |Unfinished(TableFile(su, m.w.db.nextFile, NewTable(su, m, e)))|
  }

  /** The files a crash leaves. */
  ghost function CrashFiles(su: Setup, m: FileMachine, c: Crash): Files
    requires CanCrash(su, m, c)
  {
    var (files, s) := (m.files, m.w.db);
    match c
    case Between => files
    case InCommit(ops, kept) => files.(wals := Appended(su.crc, Lift(su, m), ops, kept).wals)
    case InRotate(kept) => files.(wals := files.wals[s.nextFile := NewSegment(su.crc, s.nextFile, s.seqno + 1)[..kept]])
    case InOpen(kept) =>
      var o := OpenFiles(su, files).value;
      files.(wals := files.wals[FreshWal(o) := NewSegment(su.crc, FreshWal(o), o.seqno + 1)[..kept]])
    case InTable(e, kept) =>
      files.(tables := files.tables[s.nextFile := Unfinished(TableFile(su, s.nextFile, NewTable(su, m, e)))[..kept]])
  }

  /** The batches that count after it: one in flight exactly when all its bytes were written. */
  ghost function CrashHistory(su: Setup, m: FileMachine, c: Crash): Hist {
    if c.InCommit? then HistoryAfter(su.crc, Lift(su, m), c.ops, c.kept) else m.w.hist
  }

  /** Whether the crash left every file readable. */
  ghost predicate LeavesReadable(su: Setup, m: FileMachine, c: Crash) {
    && SmallDisk(m.w.db.disk)
    && (c.Between? || (c.InCommit? && (c.kept == |CommitBytes(su.crc, Lift(su, m), c.ops)| ==> |c.ops| <= 1_048_576)))
  }

  lemma ShortSegmentFails(su: Setup, files: Files, id: nat)
    requires id in files.wals && |files.wals[id]| < SEGMENT_HEADER_SIZE
    ensures OpenFiles(su, files).Err?
  {
    hide FirstBadTable, SstReader.OpenTable, Contents, Open;
    var image := ImageFrom(su, files);
    assert id in Ascending(image.wals.Keys);
    assert ReadSegment(su.crc, image.wals[id]).Err?;
  }

  /** A table without its header does not open, whatever else was written. */
  lemma HeaderlessFails(cfg: SstWriter.Config, file: seq<byte>, kept: nat)
    requires kept <= |Unfinished(file)|
    ensures SstReader.OpenTable(cfg, Unfinished(file)[..kept]).Err?
  {
    hide SstFormat.DecodeFooter, SstReader.LoadTable;
    var torn := Unfinished(file)[..kept];
    if kept >= SstFormat.FILE_HEADER_SIZE + SstFormat.FOOTER_SIZE {
      assert torn[..SstFormat.FILE_HEADER_SIZE] == Zeros(SstFormat.FILE_HEADER_SIZE);
      ZeroHeaderFails(cfg.crc);
    }
  }

  lemma ZeroHeaderFails(crc: Checksum)
    ensures SstFormat.DecodeHeader(crc, Zeros(SstFormat.FILE_HEADER_SIZE)).Err?
  {
    var z := Zeros(SstFormat.FILE_HEADER_SIZE);
    assert z[0..4] == [0, 0, 0, 0];
    assert FromLe([0, 0, 0, 0]) == 0 by {
      assert FromLe([0]) == 0 && FromLe([0, 0]) == 0 && FromLe([0, 0, 0]) == 0;
    }
  }

  lemma TornTableFails(su: Setup, files: Files, id: nat)
    requires id in files.tables && SstReader.OpenTable(su.cfg(id), files.tables[id]).Err?
    ensures OpenFiles(su, files).Err?
  {
    hide FirstBadTable, SstReader.OpenTable, OpenImage;
    assert id in Descending(files.tables.Keys);
  }

  /** A crash inside the creation of a file leaves a directory that does not open. */
  lemma TornCreationFails(su: Setup, m: FileMachine, c: Crash)
    requires CanCrash(su, m, c) && (c.InRotate? || c.InOpen? || c.InTable?)
    ensures OpenFiles(su, CrashFiles(su, m, c)).Err?
  {
    hide OpenFiles, NewSegment, Writable, NewTable, SstReader.OpenTable, Enabled, Unfinished, TableFile;
    var (files, s) := (CrashFiles(su, m, c), m.w.db);
    match c {
      case InRotate(kept) => ShortSegmentFails(su, files, s.nextFile);
      case InOpen(kept) => ShortSegmentFails(su, files, FreshWal(OpenFiles(su, m.files).value));
      case InTable(e, kept) =>
        HeaderlessFails(su.cfg(s.nextFile), TableFile(su, s.nextFile, NewTable(su, m, e)), kept);
        TornTableFails(su, files, s.nextFile);
      case _ => assert false;
    }
  }

  /** What reopening finds after a crash. */
  ghost predicate Survives(su: Setup, m: FileMachine, c: Crash, start: Bound, end: Bound, snap: nat)
    requires CanCrash(su, m, c)
  {
    var (r, h) := (OpenFiles(su, CrashFiles(su, m, c)), CrashHistory(su, m, c));
    && (r.Ok? <==> LeavesReadable(su, m, c))
    && (r.Ok? ==> (Reads(r.value, h) <==> Shadow(Sources(r.value))) && ScansExactly(r.value, h, start, end, snap))
  }

  lemma BetweenSurvives(su: Setup, m: FileMachine, start: Bound, end: Bound, snap: nat)
    requires Tracks(su.crc, Lift(su, m)) && Finished(su, m.files)
    ensures Survives(su, m, Between, start, end, snap)
  {
    hide Tracks, Finished, OpenFiles, OpenImage, Open, Reads, Shadow, Sources, ScansExactly, SmallDisk, Mirrors, Inv, ImageFrom;
    TrackedParts(su.crc, Lift(su, m));
    FinishedOpens(su, m.files);
    OpenMirror(su.crc, ImageFrom(su, m.files), m.w.db.disk);
    ReopenedReads(m.w, start, end, snap);
  }

  lemma InCommitSurvives(su: Setup, m: FileMachine, ops: Batch.Ops, kept: nat, start: Bound, end: Bound, snap: nat)
    requires Tracks(su.crc, Lift(su, m)) && Finished(su, m.files) && CanCrash(su, m, InCommit(ops, kept))
    ensures Survives(su, m, InCommit(ops, kept), start, end, snap)
    ensures m.w.db.mems != [] && kept <= |CommitBytes(su.crc, Lift(su, m), ops)|
    ensures OpenFiles(su, CrashFiles(su, m, InCommit(ops, kept))) == OpenImage(su.crc, Appended(su.crc, Lift(su, m), ops, kept))
  {
    hide Tracks, Finished, ByteEnabled, OpenFiles, OpenImage, Reads, Shadow, Sources, ScansExactly, SmallDisk, CommitBytes, HistoryAfter, Active, Contents;
    TornEnabled(su.crc, Lift(su, m), ops, kept);
    TornCommit(su.crc, Lift(su, m), ops, kept, start, end, snap);
    var files := CrashFiles(su, m, InCommit(ops, kept));
    SameTableFiles(su, m.files, files);
    assert ImageFrom(su, files) == Appended(su.crc, Lift(su, m), ops, kept);
    FinishedOpens(su, files);
  }

  /** In a good state point reads come down to the logs on disk. */
  lemma GoodSurvives(su: Setup, m: FileMachine, c: Crash)
    requires Tracks(su.crc, Lift(su, m)) && Finished(su, m.files) && Good(m.w) && CanCrash(su, m, c)
    ensures var r := OpenFiles(su, CrashFiles(su, m, c));
      r.Ok? ==> (Reads(r.value, CrashHistory(su, m, c)) <==> LogsNotOlder(m.w.db.disk))
  {
    hide Tracks, Finished, Good, OpenFiles, OpenImage, Open, Agrees, Sources, SmallDisk, LogsNotOlder, CommitBytes, HistoryAfter, Active, Contents, ImageFrom, ByteEnabled, Enabled, Writable, Mirrors;
    match c {
      case Between =>
        TrackedParts(su.crc, Lift(su, m));
        FinishedOpens(su, m.files);
        OpenMirror(su.crc, ImageFrom(su, m.files), m.w.db.disk);
        CrashRecoveryIff(m.w);
      case InCommit(ops, kept) =>
        InCommitSurvives(su, m, ops, kept, Unbounded, Unbounded, 0);
        TornCommitLogs(su.crc, Lift(su, m), ops, kept);
      case _ =>
        TornCreationFails(su, m, c);
    }
  }

  /** A crash at any byte of any file write of any run, over files left by any earlier
      crashes. The directory opens exactly when the crash fell between steps or inside a
      commit, and no logged batch is oversized; one inside the creation of a segment or a
      table keeps it from opening. When it opens, one history, with the batch in flight
      exactly when all its bytes were written, answers every scan, and every point read
      exactly when what was recovered is well layered. If no reopen of the run found a
      log older than the tables, that is exactly when none is now. */
  lemma CrashAnywhere(su: Setup, bs: seq<ByteEvent>, c: Crash, start: Bound, end: Bound, snap: nat)
    requires FilePossible(su, FirstFiles(su), bs) && FileRun(su, FirstFiles(su), bs).Ok?
    requires CanCrash(su, FileRun(su, FirstFiles(su), bs).value, c)
    ensures Survives(su, FileRun(su, FirstFiles(su), bs).value, c, start, end, snap)
    ensures BytePossible(su.crc, Begin(su.crc), bs) && Possible(Start(), LowerAll(su.crc, Begin(su.crc), bs))
    ensures var m := FileRun(su, FirstFiles(su), bs).value;
      var r := OpenFiles(su, CrashFiles(su, m, c));
      SafeLives(Start(), LowerAll(su.crc, Begin(su.crc), bs)) && r.Ok? ==>
        (Reads(r.value, CrashHistory(su, m, c)) <==> LogsNotOlder(m.w.db.disk))
  {
    hide *;
    FirstFilesLift(su);
    FileRunLifts(su, FirstFiles(su), bs);
    ByteRunRefines(su.crc, Begin(su.crc), bs);
    var (m, events) := (FileRun(su, FirstFiles(su), bs).value, LowerAll(su.crc, Begin(su.crc), bs));
    LiftParts(su, m);
    if SafeLives(Start(), events) {
      StartGood();
      SafeLivesAreGood(Start(), events);
      GoodSurvives(su, m, c);
    }
    match c {
      case Between => BetweenSurvives(su, m, start, end, snap);
      case InCommit(ops, kept) => InCommitSurvives(su, m, ops, kept, start, end, snap);
      case _ =>
        TornCreationFails(su, m, c);
        FailureIs(su, m, c, start, end, snap);
    }
  }

  lemma FailureIs(su: Setup, m: FileMachine, c: Crash, start: Bound, end: Bound, snap: nat)
    requires CanCrash(su, m, c) && !c.Between? && !c.InCommit? && OpenFiles(su, CrashFiles(su, m, c)).Err?
    ensures Survives(su, m, c, start, end, snap)
  {
    hide OpenFiles, CrashFiles, CanCrash, Reads, Shadow, ScansExactly, SmallDisk;
  }

  /** The smallest failing input: a first open that stops right after creating its
      segment file leaves a directory that does not open. */
  lemma FirstOpenCrash(su: Setup)
    ensures OpenFiles(su, Files(map[], map[])).Ok?
    ensures OpenFiles(su, Files(map[1 := []], map[])).Err?
  {
    hide OpenFiles;
    assert OpenFiles(su, Files(map[], map[])).Ok? by { FirstFilesLift(su); }
    ShortSegmentFails(su, Files(map[1 := []], map[]), 1);
  }
}
