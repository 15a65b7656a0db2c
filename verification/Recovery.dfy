/** Recovery from bytes: the log segments a crash leaves on disk, cut anywhere
    inside an append, and what opening them finds. */
module Recovery {
  import opened Bytes
  import opened WalFormat
  import opened WalReader
  import opened WalTheorems
  import opened Records
  import opened Engine
  import opened Ids
  import Batch

  // ----- one segment -----

  /** What the writer demands: 64-bit sequence numbers and batches it can encode. */
  predicate ValidLog(log: seq<LogEntry>) {
    forall i :: 0 <= i < |log| ==> log[i].seqno < U64_LIMIT && Batch.Encodable(log[i].ops)
  }

  predicate ValidSegment(id: nat, seg: Segment) {
    id < U64_LIMIT && seg.first < U64_LIMIT && ValidLog(seg.log)
  }

  /** Every batch is one the decoder takes back. */
  predicate SmallLog(log: seq<LogEntry>) {
    forall i :: 0 <= i < |log| ==> |log[i].ops| <= 1_048_576
  }

  /** The records the engine appends: each batch encoded under its sequence number. */
  function ToRecords(log: seq<LogEntry>): (rs: seq<LogRecord>)
    requires ValidLog(log)
    ensures |rs| == |log|
  {
    seq(|log|, i requires 0 <= i < |log| => LogRecord(log[i].seqno, Batch.Encode(log[i].ops)))
  }

  function SegmentBytes(crc: Checksum, id: nat, seg: Segment): (s: seq<byte>)
    requires ValidSegment(id, seg)
    ensures |s| >= SEGMENT_HEADER_SIZE
  {
    SegmentHeader(crc, id, seg.first) + Log(crc, ToRecords(seg.log))
  }

  /** Decoding replayed records into batches; one bad batch fails the whole open. */
  function FromRecords(rs: seq<LogRecord>): Result<seq<LogEntry>> {
    if rs == [] then Ok([])
    else match Batch.Decode(rs[0].payload)
      case Err(e) => Err(e)
      case Ok(ops) =>
        match FromRecords(rs[1..])
        case Err(e) => Err(e)
        case Ok(more) => Ok([LogEntry(rs[0].seqno, ops)] + more)
  }

  /** What opening one segment file yields. */
  function ReadSegment(crc: Checksum, file: seq<byte>): Result<Segment> {
    match OpenSegment(crc, file)
    case Err(e) => Err(e)
    case Ok((id, first)) =>
      if |file| < SEGMENT_HEADER_SIZE then Err(InvalidFormat)
      else match Replay(crc, file[SEGMENT_HEADER_SIZE..], 0)
        case Err(e) => Err(e)
        case Ok((rs, outcome)) =>
          match FromRecords(rs)
          case Err(e) => Err(e)
          case Ok(log) => Ok(Segment(first, log))
  }

  /** What a segment reads back as: itself, unless it holds an oversized batch. */
  function ReadBack(seg: Segment): Result<Segment> {
    if SmallLog(seg.log) then Ok(seg) else Err(InvalidFormat)
  }

  /** Decoding the records of a log gives it back exactly when no batch is oversized. */
  lemma {:induction false} RecordsRoundTrip(log: seq<LogEntry>)
    requires ValidLog(log)
    ensures FromRecords(ToRecords(log)) == if SmallLog(log) then Ok(log) else Err(InvalidFormat)
  {
    hide Batch.Decode, Batch.Encode;
    if log != [] {
      var rs := ToRecords(log);
      Batch.RoundTripIff(log[0].ops);
      RecordsRoundTrip(log[1..]);
      assert rs[1..] == ToRecords(log[1..]);
      assert log == [log[0]] + log[1..];
      assert SmallLog(log) <==> |log[0].ops| <= 1_048_576 && SmallLog(log[1..]);
    } else {
      assert ToRecords(log) == [];
    }
  }

  /** A segment file cut anywhere after its header reads back as the entries wholly
      before the cut. */
  lemma CutSegmentOpens(crc: Checksum, id: nat, seg: Segment, cut: nat)
    requires ValidSegment(id, seg) && SEGMENT_HEADER_SIZE <= cut <= |SegmentBytes(crc, id, seg)|
    ensures var k := CompleteCount(crc, ToRecords(seg.log), cut - SEGMENT_HEADER_SIZE);
      k <= |seg.log| && ReadSegment(crc, SegmentBytes(crc, id, seg)[..cut]) == ReadBack(Segment(seg.first, seg.log[..k]))
  {
    hide Log, SegmentHeader, OpenSegment, Replay, CompleteCount, FromRecords;
    var (header, rs) := (SegmentHeader(crc, id, seg.first), ToRecords(seg.log));
    var area := Log(crc, rs);
    var c := cut - SEGMENT_HEADER_SIZE;
    var file := SegmentBytes(crc, id, seg)[..cut];
    assert file == header + area[..c];
    assert file[SEGMENT_HEADER_SIZE..] == area[..c];
    OpenWrittenSegment(crc, id, seg.first, area[..c]);
    CrashPrefix(crc, rs, c);
    var k := CompleteCount(crc, rs, c);
    assert rs[..k] == ToRecords(seg.log[..k]);
    RecordsRoundTrip(seg.log[..k]);
  }

  lemma WholeSegmentOpens(crc: Checksum, id: nat, seg: Segment)
    requires ValidSegment(id, seg)
    ensures ReadSegment(crc, SegmentBytes(crc, id, seg)) == ReadBack(seg)
  {
    hide Log, SegmentHeader, ReadSegment, CompleteCount, ReadBack;
    var file := SegmentBytes(crc, id, seg);
    assert file[..|file|] == file;
    CutSegmentOpens(crc, id, seg, |file|);
    var rs := ToRecords(seg.log);
    CompleteCountIsLargest(crc, rs, |file| - SEGMENT_HEADER_SIZE);
    var k := CompleteCount(crc, rs, |file| - SEGMENT_HEADER_SIZE);
    if k < |rs| { LogPrefix(crc, rs, k + 1); }
    assert seg.log[..|seg.log|] == seg.log;
  }

  /** The bytes one more batch adds to a segment file. */
  function AppendBytes(crc: Checksum, file: seq<byte>, e: LogEntry): (s: seq<byte>)
    requires |file| >= SEGMENT_HEADER_SIZE
    ensures |s| > 0
  {
    Frame(crc, |file| - SEGMENT_HEADER_SIZE, LogRecord(e.seqno % U64_LIMIT, Batch.Encode(e.ops)))
  }

  /** Appending a batch extends the file of its segment by exactly those bytes. */
  lemma SegmentBytesGrow(crc: Checksum, id: nat, seg: Segment, e: LogEntry)
    requires ValidSegment(id, seg) && ValidSegment(id, seg.(log := seg.log + [e]))
    ensures var file := SegmentBytes(crc, id, seg);
      SegmentBytes(crc, id, seg.(log := seg.log + [e])) == file + AppendBytes(crc, file, e)
  {
    hide Log, SegmentHeader, Frame, Batch.Encode;
    var (rs, more) := (ToRecords(seg.log), ToRecords(seg.log + [e]));
    assert (seg.log + [e])[|seg.log|] == e;
    assert more == rs + [LogRecord(e.seqno, Batch.Encode(e.ops))];
    LogStep(crc, rs, LogRecord(e.seqno, Batch.Encode(e.ops)));
    Assoc(SegmentHeader(crc, id, seg.first), Log(crc, rs), AppendBytes(crc, SegmentBytes(crc, id, seg), e));
  }

  /** A crash inside an append keeps the batch wholly or not at all: wholly exactly
      when every byte of it reached the file. */
  lemma TornAppend(crc: Checksum, id: nat, seg: Segment, e: LogEntry, kept: nat)
    requires ValidSegment(id, seg) && ValidSegment(id, seg.(log := seg.log + [e]))
    requires kept <= |AppendBytes(crc, SegmentBytes(crc, id, seg), e)|
    ensures var file := SegmentBytes(crc, id, seg);
      var bytes := AppendBytes(crc, file, e);
      ReadSegment(crc, file + bytes[..kept]) == ReadBack(if kept == |bytes| then seg.(log := seg.log + [e]) else seg)
  {
    hide Log, SegmentHeader, ReadSegment, CompleteCount, AppendBytes, ReadBack, ValidLog;
    var after := seg.(log := seg.log + [e]);
    var file := SegmentBytes(crc, id, seg);
    var cut := |file| + kept;
    var (rs, c) := (ToRecords(after.log), cut - SEGMENT_HEADER_SIZE);
    SegmentBytesGrow(crc, id, seg, e);
    PrefixOfConcat(file, AppendBytes(crc, file, e), cut);
    CutSegmentOpens(crc, id, after, cut);
    CompleteCountIsLargest(crc, rs, c);
    var k := CompleteCount(crc, rs, c);
    var n := |seg.log|;
    assert rs[..n] == ToRecords(seg.log);
    assert rs[..n + 1] == rs;
    if k < n {
      assert rs[..n][..k + 1] == rs[..k + 1];
      LogPrefix(crc, rs[..n], k + 1);
    }
    assert after.log[..n] == seg.log && after.log[..n + 1] == after.log;
  }

  // ----- the whole directory -----

  /** Segment files as bytes; table files are created in one step and kept as record lists. */
  datatype Image = Image(wals: map<nat, seq<byte>>, tables: map<nat, seq<Rec>>)

  predicate ValidDisk(disk: Disk) {
    forall id :: id in disk.wals ==> ValidSegment(id, disk.wals[id])
  }

  predicate SmallDisk(disk: Disk) {
    forall id :: id in disk.wals ==> SmallLog(disk.wals[id].log)
  }

  function ImageOf(crc: Checksum, disk: Disk): Image
    requires ValidDisk(disk)
  {
    Image(map id | id in disk.wals :: SegmentBytes(crc, id, disk.wals[id]), disk.tables)
  }

  /** The error of the first listed segment that does not read. */
  function FirstFailure(crc: Checksum, wals: map<nat, seq<byte>>, ids: seq<nat>): (e: Option<Error>)
    requires forall id :: id in ids ==> id in wals
    ensures e.None? <==> forall id :: id in ids ==> ReadSegment(crc, wals[id]).Ok?
  {
    if ids == [] then None
    else
      match ReadSegment(crc, wals[ids[0]])
      case Err(e) => Some(e)
      case Ok(_) => FirstFailure(crc, wals, ids[1..])
  }

  function Decoded(crc: Checksum, image: Image): Disk
    requires forall id :: id in image.wals ==> ReadSegment(crc, image.wals[id]).Ok?
  {
    Disk(map id | id in image.wals :: ReadSegment(crc, image.wals[id]).value, image.tables)
  }

  /** Opening from bytes: segments are read in number order, and the first that does
      not read makes the open fail. */
  function OpenImage(crc: Checksum, image: Image): Result<State> {
    match FirstFailure(crc, image.wals, Ascending(image.wals.Keys))
    case Some(e) => Err(e)
    case None =>
      assert forall id :: id in image.wals ==> id in Ascending(image.wals.Keys);
      Ok(Open(Decoded(crc, image)))
  }

  /** The bytes read back as the disk, torn tails and all. */
  ghost predicate Mirrors(crc: Checksum, image: Image, disk: Disk) {
    && image.tables == disk.tables && image.wals.Keys == disk.wals.Keys
    && forall id :: id in disk.wals ==> ReadSegment(crc, image.wals[id]) == ReadBack(disk.wals[id])
  }

  lemma WholeImageMirrors(crc: Checksum, disk: Disk)
    requires ValidDisk(disk)
    ensures Mirrors(crc, ImageOf(crc, disk), disk)
  {
    hide ReadSegment, SegmentBytes, ReadBack;
    forall id | id in disk.wals ensures ReadSegment(crc, ImageOf(crc, disk).wals[id]) == ReadBack(disk.wals[id]) {
      WholeSegmentOpens(crc, id, disk.wals[id]);
    }
  }

  lemma {:induction false} MirrorFailure(crc: Checksum, image: Image, disk: Disk, ids: seq<nat>)
    requires Mirrors(crc, image, disk) && forall id :: id in ids ==> id in disk.wals
    ensures FirstFailure(crc, image.wals, ids) ==
      if forall id :: id in ids ==> SmallLog(disk.wals[id].log) then None else Some(InvalidFormat)
  {
    hide ReadSegment, SmallLog;
    if ids != [] {
      MirrorFailure(crc, image, disk, ids[1..]);
      assert ids == [ids[0]] + ids[1..];
      assert ReadSegment(crc, image.wals[ids[0]]) == ReadBack(disk.wals[ids[0]]);
    }
  }

  /** Bytes that read back as a disk open as the store it describes exactly when no
      logged batch is oversized; otherwise they do not open at all. */
  lemma OpenMirror(crc: Checksum, image: Image, disk: Disk)
    requires Mirrors(crc, image, disk)
    ensures OpenImage(crc, image) == if SmallDisk(disk) then Ok(Open(disk)) else Err(InvalidFormat)
  {
    hide ReadSegment, SmallLog, Open, FirstFailure;
    var ids := Ascending(image.wals.Keys);
    assert forall id :: id in ids <==> id in disk.wals;
    MirrorFailure(crc, image, disk, ids);
    if SmallDisk(disk) {
      forall id | id in disk.wals ensures ReadSegment(crc, image.wals[id]) == Ok(disk.wals[id]) {}
      assert Decoded(crc, image).wals == disk.wals;
    }
  }

  /** An undamaged directory opens exactly when every logged batch has at most 2^20
      operations. */
  lemma OpenWholeImage(crc: Checksum, disk: Disk)
    requires ValidDisk(disk)
    ensures OpenImage(crc, ImageOf(crc, disk)) == if SmallDisk(disk) then Ok(Open(disk)) else Err(InvalidFormat)
  {
    hide *;
    WholeImageMirrors(crc, disk);
    OpenMirror(crc, ImageOf(crc, disk), disk);
  }

  /** An oversized batch anywhere in any log keeps the directory from opening. */
  lemma OversizeBatchBlocksOpen(crc: Checksum, image: Image, disk: Disk, id: nat, i: nat)
    requires Mirrors(crc, image, disk) && id in disk.wals && i < |disk.wals[id].log|
    requires |disk.wals[id].log[i].ops| > 1_048_576
    ensures OpenImage(crc, image) == Err(InvalidFormat)
  {
    hide OpenImage, Mirrors, Open;
    OpenMirror(crc, image, disk);
    assert !SmallLog(disk.wals[id].log);
  }
}
