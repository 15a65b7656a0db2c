/** Whole runs of the store over bytes: every commit is an append that may stop at any
    byte, every reopen reads the files as they were left, and segments torn by earlier
    crashes stay where they are. */
module ByteRuns {
  import opened Bytes
  import opened WalFormat
  import opened Records
  import opened Merge
  import opened Range
  import opened History
  import opened Layers
  import opened Engine
  import opened EngineInv
  import opened EngineReopen
  import opened EngineTheorems
  import opened EngineLives
  import opened Recovery
  import Batch

  /** A running store and the files under it. */
  datatype Machine = Machine(image: Image, w: World)

  /** What can happen: a step that runs to its end, or a commit whose append stops
      after some bytes, followed by a reopen. */
  datatype ByteEvent = Whole(e: Event) | Torn(ops: Batch.Ops, kept: nat)

  function NewSegment(crc: Checksum, id: nat, first: nat): (s: seq<byte>)
    ensures |s| == SEGMENT_HEADER_SIZE
  {
    SegmentHeader(crc, id % U64_LIMIT, first % U64_LIMIT)
  }

  function Active(m: Machine): seq<byte> {
    if m.w.db.mems != [] && m.w.db.mems[0].wal in m.image.wals then m.image.wals[m.w.db.mems[0].wal] else []
  }

  /** The bytes a commit appends to the active segment. */
  function CommitBytes(crc: Checksum, m: Machine, ops: Batch.Ops): seq<byte> {
    if |Active(m)| < SEGMENT_HEADER_SIZE then [] else AppendBytes(crc, Active(m), LogEntry(m.w.db.seqno + 1, ops))
  }

  /** The files with the first bytes of a commit written. */
  function Appended(crc: Checksum, m: Machine, ops: Batch.Ops, kept: nat): Image
    requires m.w.db.mems != [] && kept <= |CommitBytes(crc, m, ops)|
  {
    m.image.(wals := m.image.wals[m.w.db.mems[0].wal := Active(m) + CommitBytes(crc, m, ops)[..kept]])
  }

  /** What a step does to the files. */
  function StepImage(crc: Checksum, m: Machine, e: Event): Image
    requires Enabled(m.w, e)
  {
    var (image, s) := (m.image, m.w.db);
    match e
    case DoCommit(ops) => Appended(crc, m, ops, |CommitBytes(crc, m, ops)|)
    case DoRotate => image.(wals := image.wals[s.nextFile := NewSegment(crc, s.nextFile, s.seqno + 1)])
    case DoWriteTable => image.(tables := image.tables[s.nextFile := s.mems[|s.mems| - 1].recs])
    case DoPublish => image.(wals := image.wals - {s.mems[|s.mems| - 1].wal})
    case DoWriteMerged => image.(tables := image.tables[s.nextFile := Merged(TableRecs(s.tables))])
    case DoSwap => image
    case DoUnlink => image.(tables := image.tables - {s.pending.inputs[0].id})
    case DoReopen => image
  }

  /** Opening the files; the new life gets a segment of its own. */
  function ReopenBytes(crc: Checksum, image: Image, hist: Hist, created: seq<nat>): Result<Machine> {
    match OpenImage(crc, image)
    case Err(e) => Err(e)
    case Ok(s) =>
      var id := if s.mems == [] then 0 else s.mems[0].wal;
      Ok(Machine(image.(wals := image.wals[id := NewSegment(crc, id, s.seqno + 1)]),
                 World(s, Trim(hist, s.seqno), created + [id])))
  }

  /** One event. The history gains a torn batch exactly when all its bytes were written. */
  function ByteApply(crc: Checksum, m: Machine, b: ByteEvent): Result<Machine>
    requires ByteEnabled(crc, m, b)
  {
    match b
    case Whole(e) =>
      if e.DoReopen? then ReopenBytes(crc, m.image, m.w.hist, m.w.created)
      else Ok(Machine(StepImage(crc, m, e), Apply(m.w, e)))
    case Torn(ops, kept) =>
      ReopenBytes(crc, Appended(crc, m, ops, kept),
                  if kept == |CommitBytes(crc, m, ops)| then m.w.hist + [ops] else m.w.hist, m.w.created)
  }

  /** The steps of the transition system an event stands for. */
  function Lower(crc: Checksum, m: Machine, b: ByteEvent): (es: seq<Event>)
    ensures es != []
  {
    match b
    case Whole(e) => [e]
    case Torn(ops, kept) => if kept == |CommitBytes(crc, m, ops)| then [DoCommit(ops), DoReopen] else [DoReopen]
  }

  /** The world a reopening event reopens. */
  function BeforeReopen(crc: Checksum, m: Machine, b: ByteEvent): World {
    match b
    case Whole(e) => m.w
    case Torn(ops, kept) =>
      if Enabled(m.w, DoCommit(ops)) && kept == |CommitBytes(crc, m, ops)| then Apply(m.w, DoCommit(ops)) else m.w
  }

  predicate Reopens(b: ByteEvent) {
    b.Torn? || b.e.DoReopen?
  }

  predicate Fits(s: State) {
    s.seqno + 2 < U64_LIMIT && s.nextFile + 1 < U64_LIMIT
  }

  /** What the writer demands of its caller: batches it can encode, and 64-bit numbers. */
  predicate ByteEnabled(crc: Checksum, m: Machine, b: ByteEvent) {
    && Fits(m.w.db) && (Reopens(b) ==> Fits(Open(BeforeReopen(crc, m, b).db.disk)))
    && match b
       case Whole(e) => Enabled(m.w, e) && (e.DoCommit? ==> Batch.Encodable(e.ops))
       case Torn(ops, kept) =>
         Enabled(m.w, DoCommit(ops)) && Batch.Encodable(ops) && kept <= |CommitBytes(crc, m, ops)|
  }

  /** The files read back as the disk of the store, and the active segment, which this
      life created, is byte for byte what was written to it. */
  ghost predicate Tracks(crc: Checksum, m: Machine) {
    && Inv(m.w) && ValidDisk(m.w.db.disk) && Mirrors(crc, m.image, m.w.db.disk)
    && m.w.db.mems != [] && m.w.db.mems[0].wal in m.w.db.disk.wals
    && Active(m) == SegmentBytes(crc, m.w.db.mems[0].wal, m.w.db.disk.wals[m.w.db.mems[0].wal])
  }

  // ----- files and disk, step by step -----

  lemma NewSegmentReads(crc: Checksum, id: nat, first: nat)
    requires id < U64_LIMIT && first < U64_LIMIT
    ensures ValidSegment(id, Segment(first, [])) && SegmentBytes(crc, id, Segment(first, [])) == NewSegment(crc, id, first)
    ensures ReadSegment(crc, NewSegment(crc, id, first)) == ReadBack(Segment(first, []))
  {
    hide ReadSegment, SegmentHeader;
    var seg := Segment(first, []);
    assert ToRecords([]) == [] && Log(crc, []) == [];
    assert SegmentHeader(crc, id, first) + [] == SegmentHeader(crc, id, first);
    WholeSegmentOpens(crc, id, seg);
  }

  lemma MirrorsWal(crc: Checksum, image: Image, disk: Disk, id: nat, file: seq<byte>, seg: Segment)
    requires Mirrors(crc, image, disk) && ValidDisk(disk) && ReadSegment(crc, file) == ReadBack(seg) && ValidSegment(id, seg)
    ensures Mirrors(crc, image.(wals := image.wals[id := file]), disk.(wals := disk.wals[id := seg]))
    ensures ValidDisk(disk.(wals := disk.wals[id := seg]))
  {
    hide ReadSegment, ReadBack, ValidSegment;
  }

  lemma MirrorsWithout(crc: Checksum, image: Image, disk: Disk, id: nat)
    requires Mirrors(crc, image, disk) && ValidDisk(disk)
    ensures Mirrors(crc, image.(wals := image.wals - {id}), disk.(wals := disk.wals - {id}))
    ensures ValidDisk(disk.(wals := disk.wals - {id}))
  {
    hide ReadSegment, ReadBack, ValidSegment;
  }

  lemma MirrorsTables(crc: Checksum, image: Image, disk: Disk, tables: map<nat, seq<Rec>>)
    requires Mirrors(crc, image, disk) && ValidDisk(disk)
    ensures Mirrors(crc, image.(tables := tables), disk.(tables := tables)) && ValidDisk(disk.(tables := tables))
  {
    hide ReadSegment, ReadBack, ValidSegment;
  }

  lemma TrackedActive(crc: Checksum, m: Machine)
    requires Tracks(crc, m)
    ensures m.w.db.mems[0].wal in m.image.wals && Active(m) == m.image.wals[m.w.db.mems[0].wal]
    ensures |Active(m)| >= SEGMENT_HEADER_SIZE
  {
    hide Inv, ReadSegment, ReadBack, SegmentBytes, ValidDisk;
  }

  /** The disk with one more batch in a log. */
  function Grow(disk: Disk, id: nat, e: LogEntry): Disk
    requires id in disk.wals
  {
    disk.(wals := disk.wals[id := disk.wals[id].(log := disk.wals[id].log + [e])])
  }

  lemma GrowIsValid(crc: Checksum, disk: Disk, id: nat, e: LogEntry)
    requires ValidDisk(disk) && id in disk.wals && e.seqno < U64_LIMIT && Batch.Encodable(e.ops)
    ensures ValidDisk(Grow(disk, id, e)) && ValidSegment(id, disk.wals[id].(log := disk.wals[id].log + [e]))
    ensures var file := SegmentBytes(crc, id, disk.wals[id]);
      SegmentBytes(crc, id, Grow(disk, id, e).wals[id]) == file + AppendBytes(crc, file, e)
  {
    hide SegmentBytes, AppendBytes, Batch.Encodable;
    assert ValidSegment(id, disk.wals[id].(log := disk.wals[id].log + [e]));
    SegmentBytesGrow(crc, id, disk.wals[id], e);
  }

  /** An append to one segment file, cut after any byte. */
  lemma AppendOne(crc: Checksum, image: Image, disk: Disk, id: nat, e: LogEntry, kept: nat)
    requires Mirrors(crc, image, disk) && ValidDisk(disk) && id in disk.wals && e.seqno < U64_LIMIT && Batch.Encodable(e.ops)
    requires kept <= |AppendBytes(crc, SegmentBytes(crc, id, disk.wals[id]), e)|
    ensures var file := SegmentBytes(crc, id, disk.wals[id]);
      var bytes := AppendBytes(crc, file, e);
      Mirrors(crc, image.(wals := image.wals[id := file + bytes[..kept]]), if kept == |bytes| then Grow(disk, id, e) else disk)
  {
    hide ReadSegment, ReadBack, SegmentBytes, AppendBytes, Mirrors, ValidLog, Batch.Encodable;
    GrowIsValid(crc, disk, id, e);
    var seg := disk.wals[id];
    var file := SegmentBytes(crc, id, seg);
    var left := file + AppendBytes(crc, file, e)[..kept];
    TornAppend(crc, id, seg, e, kept);
    if kept == |AppendBytes(crc, file, e)| {
      MirrorsWal(crc, image, disk, id, left, seg.(log := seg.log + [e]));
    } else {
      MirrorsWal(crc, image, disk, id, left, seg);
      assert disk.wals[id := seg] == disk.wals;
    }
  }

  lemma CommitDisk(s: State, ops: Batch.Ops)
    requires s.mems != [] && s.mems[0].wal in s.disk.wals
    ensures Commit(s, ops).disk == Grow(s.disk, s.mems[0].wal, LogEntry(s.seqno + 1, ops))
    ensures Commit(s, ops).mems != [] && Commit(s, ops).mems[0].wal == s.mems[0].wal
  {
    hide ApplyBatch;
  }

  lemma MirrorTables(crc: Checksum, image: Image, disk: Disk)
    requires Mirrors(crc, image, disk)
    ensures image.tables == disk.tables
  {
    hide ReadSegment, ReadBack;
  }

  lemma TrackedParts(crc: Checksum, m: Machine)
    requires Tracks(crc, m)
    ensures m.w.db.mems != [] && m.w.db.mems[0].wal in m.w.db.disk.wals && ValidDisk(m.w.db.disk)
    ensures Inv(m.w) && Mirrors(crc, m.image, m.w.db.disk)
    ensures Active(m) == SegmentBytes(crc, m.w.db.mems[0].wal, m.w.db.disk.wals[m.w.db.mems[0].wal])
  {
    hide Inv, Mirrors, SegmentBytes, ValidDisk, Active;
  }

  /** A commit's append, cut after any byte. */
  lemma AppendMirrors(crc: Checksum, m: Machine, ops: Batch.Ops, kept: nat)
    requires Tracks(crc, m) && Fits(m.w.db) && Enabled(m.w, DoCommit(ops)) && Batch.Encodable(ops)
    requires kept <= |CommitBytes(crc, m, ops)|
    ensures Mirrors(crc, Appended(crc, m, ops, kept), BeforeReopen(crc, m, Torn(ops, kept)).db.disk)
    ensures ValidDisk(BeforeReopen(crc, m, Torn(ops, kept)).db.disk) && ValidDisk(Commit(m.w.db, ops).disk)
  {
    hide Tracks, Inv, SegmentBytes, AppendBytes, Mirrors, ValidDisk, Active, Commit, Grow, Batch.Encodable;
    TrackedParts(crc, m);
    TrackedActive(crc, m);
    var (s, e) := (m.w.db, LogEntry(m.w.db.seqno + 1, ops));
    GrowIsValid(crc, s.disk, s.mems[0].wal, e);
    AppendOne(crc, m.image, s.disk, s.mems[0].wal, e, kept);
    CommitDisk(s, ops);
  }

  lemma CommitActive(crc: Checksum, m: Machine, ops: Batch.Ops)
    requires Tracks(crc, m) && ByteEnabled(crc, m, Whole(DoCommit(ops)))
    ensures var (id, after) := (m.w.db.mems[0].wal, Commit(m.w.db, ops).disk);
      && id in after.wals && ValidDisk(after)
      && StepImage(crc, m, DoCommit(ops)).wals[id] == SegmentBytes(crc, id, after.wals[id])
  {
    hide Tracks, Inv, SegmentBytes, AppendBytes, Mirrors, ValidDisk, Active, Commit, Batch.Encodable, StepImage;
    TrackedParts(crc, m);
    TrackedActive(crc, m);
    var (s, e) := (m.w.db, LogEntry(m.w.db.seqno + 1, ops));
    GrowIsValid(crc, s.disk, s.mems[0].wal, e);
    CommitDisk(s, ops);
    CommitImage(crc, m, ops);
  }

  lemma CommitImage(crc: Checksum, m: Machine, ops: Batch.Ops)
    requires Enabled(m.w, DoCommit(ops))
    ensures var id := m.w.db.mems[0].wal;
      && id in StepImage(crc, m, DoCommit(ops)).wals
      && StepImage(crc, m, DoCommit(ops)).wals[id] == Active(m) + CommitBytes(crc, m, ops)
  {
    hide Active, CommitBytes;
    var bytes := CommitBytes(crc, m, ops);
    assert bytes[..|bytes|] == bytes;
  }

  lemma CommitTracks(crc: Checksum, m: Machine, ops: Batch.Ops)
    requires Tracks(crc, m) && ByteEnabled(crc, m, Whole(DoCommit(ops)))
    ensures Tracks(crc, Machine(StepImage(crc, m, DoCommit(ops)), Apply(m.w, DoCommit(ops))))
  {
    hide Inv, Mirrors, ValidDisk, SegmentBytes, AppendBytes, Commit;
    StepKeepsInv(m.w, DoCommit(ops));
    AppendMirrors(crc, m, ops, |CommitBytes(crc, m, ops)|);
    CommitActive(crc, m, ops);
    CommitDisk(m.w.db, ops);
  }

  lemma RotateTracks(crc: Checksum, m: Machine)
    requires Tracks(crc, m) && ByteEnabled(crc, m, Whole(DoRotate))
    ensures Tracks(crc, Machine(StepImage(crc, m, DoRotate), Apply(m.w, DoRotate)))
  {
    hide Inv, Mirrors, ValidDisk, SegmentBytes, ReadSegment, ReadBack, ValidSegment, NewSegment;
    var s := m.w.db;
    StepKeepsInv(m.w, DoRotate);
    NewSegmentReads(crc, s.nextFile, s.seqno + 1);
    MirrorsWal(crc, m.image, s.disk, s.nextFile, NewSegment(crc, s.nextFile, s.seqno + 1), Segment(s.seqno + 1, []));
  }

  lemma PublishTracks(crc: Checksum, m: Machine)
    requires Tracks(crc, m) && ByteEnabled(crc, m, Whole(DoPublish))
    ensures Tracks(crc, Machine(StepImage(crc, m, DoPublish), Apply(m.w, DoPublish)))
  {
    hide Inv, Mirrors, ValidDisk, SegmentBytes, DropWal;
    var s := m.w.db;
    OldestIsOlder(m.w);
    StepKeepsInv(m.w, DoPublish);
    MirrorsWithout(crc, m.image, s.disk, s.mems[|s.mems| - 1].wal);
    TrackedActive(crc, m);
  }

  lemma OldestIsOlder(w: World)
    requires Inv(w) && |w.db.mems| >= 2
    ensures w.db.mems[|w.db.mems| - 1].wal < w.db.mems[0].wal
  {
    hide SourcesOk, MemsOk, TablesOk, NumbersOk, SegmentsOk;
  }

  /** Steps that touch table files only. */
  lemma TableStepTracks(crc: Checksum, m: Machine, e: Event)
    requires Tracks(crc, m) && ByteEnabled(crc, m, Whole(e))
    requires e.DoWriteTable? || e.DoWriteMerged? || e.DoSwap? || e.DoUnlink?
    ensures Tracks(crc, Machine(StepImage(crc, m, e), Apply(m.w, e)))
  {
    hide Inv, Mirrors, ValidDisk, SegmentBytes, Merged;
    StepKeepsInv(m.w, e);
    TrackedActive(crc, m);
    MirrorTables(crc, m.image, m.w.db.disk);
    MirrorsTables(crc, m.image, m.w.db.disk, StepImage(crc, m, e).tables);
    assert StepImage(crc, m, e) == m.image.(tables := StepImage(crc, m, e).tables);
    assert Apply(m.w, e).db.disk == m.w.db.disk.(tables := StepImage(crc, m, e).tables);
  }

  lemma StepTracks(crc: Checksum, m: Machine, e: Event)
    requires Tracks(crc, m) && ByteEnabled(crc, m, Whole(e)) && !e.DoReopen?
    ensures Tracks(crc, Machine(StepImage(crc, m, e), Apply(m.w, e)))
  {
    hide Tracks, StepImage, Apply, Enabled;
    match e {
      case DoCommit(ops) => CommitTracks(crc, m, ops);
      case DoRotate => RotateTracks(crc, m);
      case DoPublish => PublishTracks(crc, m);
      case DoWriteTable => TableStepTracks(crc, m, e);
      case DoWriteMerged => TableStepTracks(crc, m, e);
      case DoSwap => TableStepTracks(crc, m, e);
      case DoUnlink => TableStepTracks(crc, m, e);
      case DoReopen => assert false;
    }
  }

  lemma OpenedState(disk: Disk)
    ensures var s := Open(disk);
      && s.mems != [] && s.mems[0].wal == s.nextFile - 1 && s.disk.tables == disk.tables
      && s.disk.wals == disk.wals[s.mems[0].wal := Segment(s.seqno + 1, [])]
  {
    hide OpenTables, TopSeqno, Replayed, LargestOrZero;
  }

  /** Files that read back as the disk of a world: reopening them fails exactly when a
      logged batch is oversized, and otherwise is the reopen step. */
  lemma ReopenTracks(crc: Checksum, image: Image, w: World)
    requires Inv(w) && Mirrors(crc, image, w.db.disk) && ValidDisk(w.db.disk) && Fits(Open(w.db.disk))
    ensures var r := ReopenBytes(crc, image, w.hist, w.created);
      && (!SmallDisk(w.db.disk) ==> r == Err(InvalidFormat))
      && (SmallDisk(w.db.disk) ==> r.Ok? && r.value.w == Reopen(w) && Tracks(crc, r.value))
  {
    hide Inv, Mirrors, ValidDisk, SmallDisk, SegmentBytes, ReadSegment, ReadBack, ValidSegment, NewSegment, Open, OpenImage, Trim;
    var disk := w.db.disk;
    OpenMirror(crc, image, disk);
    if SmallDisk(disk) {
      var s := Open(disk);
      OpenedState(disk);
      ReopenKeepsInv(w);
      NewSegmentReads(crc, s.mems[0].wal, s.seqno + 1);
      MirrorsWal(crc, image, disk, s.mems[0].wal, NewSegment(crc, s.mems[0].wal, s.seqno + 1), Segment(s.seqno + 1, []));
    }
  }

  // ----- one event -----

  lemma RunThroughReopen(w: World)
    ensures Possible(w, [DoReopen]) && Run(w, [DoReopen]) == Reopen(w)
  {
    hide Reopen;
    RunOne(w, DoReopen);
  }

  lemma RunThroughCommit(w: World, ops: Batch.Ops)
    requires Enabled(w, DoCommit(ops))
    ensures Possible(w, [DoCommit(ops), DoReopen]) && Run(w, [DoCommit(ops), DoReopen]) == Reopen(Apply(w, DoCommit(ops)))
  {
    hide Reopen, Commit;
    RunTwo(w, [], DoCommit(ops), DoReopen);
    assert [] + [DoCommit(ops), DoReopen] == [DoCommit(ops), DoReopen];
  }

  lemma TornStep(crc: Checksum, m: Machine, ops: Batch.Ops, kept: nat)
    requires Tracks(crc, m) && ByteEnabled(crc, m, Torn(ops, kept))
    ensures var before := BeforeReopen(crc, m, Torn(ops, kept));
      && Inv(before) && ValidDisk(before.db.disk) && Mirrors(crc, Appended(crc, m, ops, kept), before.db.disk)
      && ByteApply(crc, m, Torn(ops, kept)) == ReopenBytes(crc, Appended(crc, m, ops, kept), before.hist, before.created)
      && Possible(m.w, Lower(crc, m, Torn(ops, kept))) && Run(m.w, Lower(crc, m, Torn(ops, kept))) == Reopen(before)
  {
    TrackedParts(crc, m);
    hide Tracks, Inv, Mirrors, ValidDisk, CommitBytes, Appended, ReopenBytes, Reopen, Open, Possible, Run, Commit, Batch.Encodable;
    AppendMirrors(crc, m, ops, kept);
    if kept == |CommitBytes(crc, m, ops)| {
      StepKeepsInv(m.w, DoCommit(ops));
      RunThroughCommit(m.w, ops);
    } else {
      RunThroughReopen(m.w);
    }
  }

  /** One event over bytes does what its steps do. An event that reopens fails exactly
      when a logged batch is oversized. */
  lemma ByteStep(crc: Checksum, m: Machine, b: ByteEvent)
    requires Tracks(crc, m) && ByteEnabled(crc, m, b)
    ensures var r := ByteApply(crc, m, b);
      if Reopens(b) && !SmallDisk(BeforeReopen(crc, m, b).db.disk) then r == Err(InvalidFormat)
      else r.Ok? && Tracks(crc, r.value) && Possible(m.w, Lower(crc, m, b)) && Run(m.w, Lower(crc, m, b)) == r.value.w
  {
    TrackedParts(crc, m);
    hide Tracks, Inv, Mirrors, ValidDisk, SmallDisk, Appended, CommitBytes, Reopen, ReopenBytes, Open, Possible, Run, StepImage, Commit, Batch.Encodable;
    match b {
      case Torn(ops, kept) =>
        TornStep(crc, m, ops, kept);
        ReopenTracks(crc, Appended(crc, m, ops, kept), BeforeReopen(crc, m, b));
      case Whole(e) =>
        if e.DoReopen? {
          ReopenTracks(crc, m.image, m.w);
          RunThroughReopen(m.w);
        } else {
          StepTracks(crc, m, e);
          RunOne(m.w, e);
        }
    }
  }

  // ----- whole runs -----

  ghost predicate BytePossible(crc: Checksum, m: Machine, bs: seq<ByteEvent>)
    decreases |bs|
  {
    bs == [] ||
    (ByteEnabled(crc, m, bs[0]) && (ByteApply(crc, m, bs[0]).Ok? ==> BytePossible(crc, ByteApply(crc, m, bs[0]).value, bs[1..])))
  }

  /** A run ends in a machine, or in the error of an open that failed. */
  ghost function ByteRun(crc: Checksum, m: Machine, bs: seq<ByteEvent>): Result<Machine>
    requires BytePossible(crc, m, bs)
    decreases |bs|
  {
    if bs == [] then Ok(m)
    else
      match ByteApply(crc, m, bs[0])
      case Err(e) => Err(e)
      case Ok(next) => ByteRun(crc, next, bs[1..])
  }

  ghost function LowerAll(crc: Checksum, m: Machine, bs: seq<ByteEvent>): seq<Event>
    requires BytePossible(crc, m, bs)
    decreases |bs|
  {
    if bs == [] then []
    else
      Lower(crc, m, bs[0]) +
      (if ByteApply(crc, m, bs[0]).Ok? then LowerAll(crc, ByteApply(crc, m, bs[0]).value, bs[1..]) else [])
  }

  /** Every run over bytes is a run of the transition system, and its files always read
      back as that run's disk. */
  lemma {:induction false} ByteRunRefines(crc: Checksum, m: Machine, bs: seq<ByteEvent>)
    requires Tracks(crc, m) && BytePossible(crc, m, bs) && ByteRun(crc, m, bs).Ok?
    ensures var (r, events) := (ByteRun(crc, m, bs).value, LowerAll(crc, m, bs));
      Tracks(crc, r) && Possible(m.w, events) && Run(m.w, events) == r.w
    decreases |bs|
  {
    hide Tracks, ByteApply, ByteEnabled, Lower, Apply, Enabled, BeforeReopen, SmallDisk;
    if bs != [] {
      ByteStep(crc, m, bs[0]);
      var next := ByteApply(crc, m, bs[0]).value;
      ByteRunRefines(crc, next, bs[1..]);
      RunAppend(m.w, Lower(crc, m, bs[0]), LowerAll(crc, next, bs[1..]));
    }
  }

  predicate SmallBatch(b: ByteEvent) {
    match b
    case Whole(e) => e.DoCommit? ==> |e.ops| <= 1_048_576
    case Torn(ops, kept) => |ops| <= 1_048_576
  }

  lemma CommitSmall(s: State, ops: Batch.Ops)
    requires s.mems != [] && s.mems[0].wal in s.disk.wals && SmallDisk(s.disk) && |ops| <= 1_048_576
    ensures SmallDisk(Commit(s, ops).disk)
  {
    hide ApplyBatch;
    CommitDisk(s, ops);
  }

  lemma StepSmall(w: World, e: Event)
    requires Enabled(w, e) && SmallDisk(w.db.disk) && (e.DoCommit? ==> |e.ops| <= 1_048_576)
    ensures SmallDisk(Apply(w, e).db.disk)
  {
    OpenedState(w.db.disk);
    hide Open, ApplyBatch, Merged, DropWal;
    match e {
      case DoCommit(ops) => CommitSmall(w.db, ops);
      case _ =>
    }
  }

  predicate SmallEvents(events: seq<Event>) {
    forall i :: 0 <= i < |events| && events[i].DoCommit? ==> |events[i].ops| <= 1_048_576
  }

  lemma {:induction false} RunSmall(w: World, events: seq<Event>)
    requires Possible(w, events) && SmallDisk(w.db.disk) && SmallEvents(events)
    ensures SmallDisk(Run(w, events).db.disk)
    decreases |events|
  {
    hide Enabled, Apply, SmallDisk;
    if events != [] {
      StepSmall(w, events[0]);
      RunSmall(Apply(w, events[0]), events[1..]);
    }
  }

  lemma BeforeSmall(crc: Checksum, m: Machine, b: ByteEvent)
    requires SmallDisk(m.w.db.disk) && SmallBatch(b)
    ensures SmallDisk(BeforeReopen(crc, m, b).db.disk) && SmallEvents(Lower(crc, m, b))
  {
    hide Enabled, Apply, SmallDisk, CommitBytes;
    if b.Torn? && Enabled(m.w, DoCommit(b.ops)) {
      StepSmall(m.w, DoCommit(b.ops));
    }
  }

  lemma SmallStep(crc: Checksum, m: Machine, b: ByteEvent)
    requires Tracks(crc, m) && ByteEnabled(crc, m, b) && SmallDisk(m.w.db.disk) && SmallBatch(b)
    ensures ByteApply(crc, m, b).Ok? && SmallDisk(ByteApply(crc, m, b).value.w.db.disk)
  {
    hide *;
    ByteStep(crc, m, b);
    BeforeSmall(crc, m, b);
    RunSmall(m.w, Lower(crc, m, b));
  }

  /** As long as no batch has more than 2^20 operations, no open ever fails. */
  lemma {:induction false} SmallRunsOpen(crc: Checksum, m: Machine, bs: seq<ByteEvent>)
    requires Tracks(crc, m) && BytePossible(crc, m, bs) && SmallDisk(m.w.db.disk)
    requires forall i :: 0 <= i < |bs| ==> SmallBatch(bs[i])
    ensures ByteRun(crc, m, bs).Ok? && SmallDisk(ByteRun(crc, m, bs).value.w.db.disk)
    decreases |bs|
  {
    hide Tracks, ByteApply, ByteEnabled, Lower, Apply, Enabled, BeforeReopen, SmallDisk, SmallBatch;
    if bs != [] {
      ByteStep(crc, m, bs[0]);
      SmallStep(crc, m, bs[0]);
      SmallRunsOpen(crc, ByteApply(crc, m, bs[0]).value, bs[1..]);
    }
  }

  // ----- from an empty directory -----

  /** The machine that opening an empty directory gives. */
  function Begin(crc: Checksum): Machine {
    Machine(Image(map[1 := NewSegment(crc, 1, 1)], map[]), Start())
  }

  lemma BeginTracks(crc: Checksum)
    ensures Tracks(crc, Begin(crc)) && SmallDisk(Begin(crc).w.db.disk)
    ensures ReopenBytes(crc, Image(map[], map[]), [], []) == Ok(Begin(crc))
  {
    StartInv();
    StartShape();
    hide Inv, ReadSegment, ReadBack, NewSegment, Start, SegmentBytes, Open;
    var (image, disk) := (Image(map[], map[]), Disk(map[], map[]));
    NewSegmentReads(crc, 1, 1);
    OpenMirror(crc, image, disk);
    assert Start().db == Open(disk) by { StartIsOpen(); }
    assert image.wals[1 := NewSegment(crc, 1, 1)] == Begin(crc).image.wals;
    assert Start().created == [] + [1] by { StartIsOpen(); }
  }

  lemma StartIsOpen()
    ensures Start().db == Open(Disk(map[], map[])) && Start().created == [1]
  {
    hide Open;
  }

  /** Runs over bytes from an empty directory. Any commit may stop at any byte and any
      step may be followed by a crash; torn segments stay. With batches of at most 2^20
      operations no open ever fails. A run in which none failed is a run of the
      transition system, whose history has a batch exactly when all its bytes were
      written. So range scans are right at every point; point reads are right at every
      point exactly when no reopen found a log older than the tables; and the next open
      fails exactly when a logged batch is oversized. */
  lemma BytesRead(crc: Checksum, bs: seq<ByteEvent>, start: Bound, end: Bound, snap: nat)
    requires BytePossible(crc, Begin(crc), bs)
    ensures (forall i :: 0 <= i < |bs| ==> SmallBatch(bs[i])) ==> ByteRun(crc, Begin(crc), bs).Ok?
    ensures var (r, events) := (ByteRun(crc, Begin(crc), bs), LowerAll(crc, Begin(crc), bs));
      r.Ok? ==>
        && Possible(Start(), events) && r.value.w == Run(Start(), events)
        && (AlwaysReads(Start(), events) <==> SafeLives(Start(), events))
        && ScansExactly(r.value.w.db, r.value.w.hist, start, end, snap)
        && OpenImage(crc, r.value.image) == if SmallDisk(r.value.w.db.disk) then Ok(Open(r.value.w.db.disk)) else Err(InvalidFormat)
  {
    hide *;
    BeginTracks(crc);
    BeginStarts(crc);
    if forall i :: 0 <= i < |bs| ==> SmallBatch(bs[i]) {
      SmallRunsOpen(crc, Begin(crc), bs);
    }
    if ByteRun(crc, Begin(crc), bs).Ok? {
      ByteRunRefines(crc, Begin(crc), bs);
      var m := ByteRun(crc, Begin(crc), bs).value;
      TrackedParts(crc, m);
      OpenMirror(crc, m.image, m.w.db.disk);
      InvSources(m.w);
      ScansOf(m.w.db, m.w.hist, start, end, snap);
      RunsReadIff(LowerAll(crc, Begin(crc), bs));
    }
  }

  lemma BeginStarts(crc: Checksum)
    ensures Begin(crc).w == Start()
  {
    hide Start, NewSegment;
  }

  // ----- a crash inside one commit -----

  /** Reopening the disk of any world: scans are right, and point reads are right
      exactly when what was recovered is well layered. */
  lemma ReopenedReads(w: World, start: Bound, end: Bound, snap: nat)
    requires Inv(w)
    ensures Reads(Open(w.db.disk), w.hist) <==> Shadow(Sources(Open(w.db.disk)))
    ensures ScansExactly(Open(w.db.disk), w.hist, start, end, snap)
  {
    hide Open, Agrees, Shadow, Sources, AllFaithful, Complete, ScansExactly, Inv, RecoveredSources;
    InvRecovered(w);
    FirstHitIff(Sources(Open(w.db.disk)), w.hist);
    ScansOf(Open(w.db.disk), w.hist, start, end, snap);
  }

  /** The history after a commit of which `kept` bytes were written. */
  function HistoryAfter(crc: Checksum, m: Machine, ops: Batch.Ops, kept: nat): Hist {
    if kept == |CommitBytes(crc, m, ops)| then m.w.hist + [ops] else m.w.hist
  }

  /** What reopening finds after a commit stopped in the middle. The batch is in the
      history exactly when all its bytes were written. The directory opens unless that
      history holds an oversized batch. Then every range scan of the reopened store is
      that of the history, and so is every point read, exactly when what was recovered
      is well layered. */
  ghost predicate WholeOrAbsent(crc: Checksum, m: Machine, ops: Batch.Ops, kept: nat, start: Bound, end: Bound, snap: nat)
    requires m.w.db.mems != [] && kept <= |CommitBytes(crc, m, ops)|
  {
    var r := OpenImage(crc, Appended(crc, m, ops, kept));
    var h := HistoryAfter(crc, m, ops, kept);
    && (r.Ok? <==> SmallDisk(m.w.db.disk) && (kept == |CommitBytes(crc, m, ops)| ==> |ops| <= 1_048_576))
    && (r.Ok? ==> (Reads(r.value, h) <==> Shadow(Sources(r.value))) && ScansExactly(r.value, h, start, end, snap))
  }

  lemma TornCommit(crc: Checksum, m: Machine, ops: Batch.Ops, kept: nat, start: Bound, end: Bound, snap: nat)
    requires Tracks(crc, m) && ByteEnabled(crc, m, Torn(ops, kept))
    ensures m.w.db.mems != [] && WholeOrAbsent(crc, m, ops, kept, start, end, snap)
  {
    hide Tracks, SmallDisk, OpenImage, Appended, CommitBytes, Reads, Shadow, Sources, ScansExactly, Open, Commit, Mirrors, ValidDisk, Inv, ByteApply, ReopenBytes, Possible, Run, Reopen;
    TornStep(crc, m, ops, kept);
    var before := BeforeReopen(crc, m, Torn(ops, kept));
    OpenMirror(crc, Appended(crc, m, ops, kept), before.db.disk);
    if kept == |CommitBytes(crc, m, ops)| {
      CommitSmallIff(m.w.db, ops);
    }
    ReopenedReads(before, start, end, snap);
  }

  /** In a good state the layering comes down to the logs on disk. */
  lemma TornCommitLogs(crc: Checksum, m: Machine, ops: Batch.Ops, kept: nat)
    requires Tracks(crc, m) && Good(m.w) && ByteEnabled(crc, m, Torn(ops, kept))
    ensures m.w.db.mems != []
    ensures var r := OpenImage(crc, Appended(crc, m, ops, kept));
      r.Ok? ==> (Reads(r.value, HistoryAfter(crc, m, ops, kept)) <==> LogsNotOlder(m.w.db.disk))
  {
    hide Tracks, Good, SmallDisk, OpenImage, Appended, CommitBytes, LogsNotOlder, Agrees, Sources, Open, Commit, Mirrors, ValidDisk, Inv, ByteApply, ReopenBytes, Possible, Run, Reopen;
    TornStep(crc, m, ops, kept);
    var before := BeforeReopen(crc, m, Torn(ops, kept));
    OpenMirror(crc, Appended(crc, m, ops, kept), before.db.disk);
    GoodHasInv(m.w);
    if kept == |CommitBytes(crc, m, ops)| {
      StepGoodIff(m.w, DoCommit(ops));
      CommitLogsNotOlder(m.w, ops);
    }
    CrashRecoveryIff(before);
  }

  lemma CommitSmallIff(s: State, ops: Batch.Ops)
    requires s.mems != [] && s.mems[0].wal in s.disk.wals
    ensures SmallDisk(Commit(s, ops).disk) <==> SmallDisk(s.disk) && |ops| <= 1_048_576
  {
    hide Commit;
    CommitDisk(s, ops);
    var (before, after, id) := (s.disk.wals, Commit(s, ops).disk.wals, s.mems[0].wal);
    var (log, more) := (before[id].log, after[id].log);
    assert more[|log|].ops == ops && more[..|log|] == log;
    if SmallDisk(Commit(s, ops).disk) {
      forall a | a in before ensures SmallLog(before[a].log) {
        assert SmallLog(after[a].log);
        assert forall i :: 0 <= i < |log| ==> more[i] == log[i];
      }
    }
  }

  /** Batch atomicity over whole runs of bytes: a crash inside any commit of any life,
      over files torn by any earlier crashes. If no reopen of the run found a log older
      than the tables, point reads after this crash are right exactly when none is now. */
  lemma CrashInsideCommit(crc: Checksum, bs: seq<ByteEvent>, ops: Batch.Ops, kept: nat, start: Bound, end: Bound, snap: nat)
    requires BytePossible(crc, Begin(crc), bs) && ByteRun(crc, Begin(crc), bs).Ok?
    requires ByteEnabled(crc, ByteRun(crc, Begin(crc), bs).value, Torn(ops, kept))
    ensures var m := ByteRun(crc, Begin(crc), bs).value;
      m.w.db.mems != [] && WholeOrAbsent(crc, m, ops, kept, start, end, snap)
    ensures var (m, events) := (ByteRun(crc, Begin(crc), bs).value, LowerAll(crc, Begin(crc), bs));
      var r := OpenImage(crc, Appended(crc, m, ops, kept));
      && Possible(Start(), events)
      && (SafeLives(Start(), events) && r.Ok? ==>
            (Reads(r.value, HistoryAfter(crc, m, ops, kept)) <==> LogsNotOlder(m.w.db.disk)))
  {
    hide *;
    var (m, events) := (ByteRun(crc, Begin(crc), bs).value, LowerAll(crc, Begin(crc), bs));
    TornEnabled(crc, m, ops, kept);
    BeginTracks(crc);
    BeginStarts(crc);
    ByteRunRefines(crc, Begin(crc), bs);
    TornCommit(crc, m, ops, kept, start, end, snap);
    if SafeLives(Start(), events) {
      StartGood();
      SafeLivesAreGood(Start(), events);
      TornCommitLogs(crc, m, ops, kept);
    }
  }

  lemma TornEnabled(crc: Checksum, m: Machine, ops: Batch.Ops, kept: nat)
    requires ByteEnabled(crc, m, Torn(ops, kept))
    ensures m.w.db.mems != [] && kept <= |CommitBytes(crc, m, ops)|
  {
    hide CommitBytes, Open;
  }
}
