/** The segment reader: fragments are checked, joined and replayed, and a torn
    tail is told apart from a clean end. */
module WalReader {
  import opened Bytes
  import opened WalFormat

  datatype Frag = Frag(kind: Kind, seqno: u64, payload: seq<byte>)

  datatype FragmentStep = Got(frag: Frag) | SkipBlock | TornFragment | BadFragment(error: Error)

  datatype AssemblyStep = Continue(partial: LogRecord) | Complete(record: LogRecord) | BadSequence

  datatype ReadOutcome = Record(record: LogRecord) | EndOfSegment | TornTail(truncateTo: nat)

  datatype ReplayOutcome = Clean | Torn(truncateTo: nat)

  /** Steps over a block tail too short for a header, unless the file ends first. */
  function SkipPadding(cursor: nat, end: nat): (c: nat)
    ensures c >= cursor
  {
    var left := BLOCK_SIZE - cursor % BLOCK_SIZE;
    if left < RECORD_HEADER_SIZE && cursor + left <= end then cursor + left else cursor
  }

  function ReadFragment(crc: Checksum, area: seq<byte>, cursor: nat): (step: FragmentStep)
    requires cursor + RECORD_HEADER_SIZE <= |area|
    ensures step.Got? ==> cursor + RECORD_HEADER_SIZE + |step.frag.payload| <= |area|
  {
    var h := area[cursor..cursor + RECORD_HEADER_SIZE];
    var at := cursor + RECORD_HEADER_SIZE;
    if AllZero(h) then SkipBlock
    else
      var len := FromLe(h[4..6]);
      if len > MAX_FRAGMENT_PAYLOAD then TornFragment
      else if at + len > |area| then TornFragment
      else
        var payload := area[at..at + len];
        if FragmentSum(crc, h[6], h[7], h[8..16], payload) != FromLe(h[0..4]) then TornFragment
        else
          Pow256Values();
          match KindFromByte(h[6])
          case None => BadFragment(InvalidFormat)
          case Some(kind) => Got(Frag(kind, FromLe(h[8..16]), payload))
  }

  /** Folds a fragment into the record being assembled. */
  function Assemble(partial: Option<LogRecord>, f: Frag): AssemblyStep {
    match (f.kind, partial)
    case (Full, None) => Complete(LogRecord(f.seqno, f.payload))
    case (Full, Some(_)) => BadSequence
    case (First, None) => Continue(LogRecord(f.seqno, f.payload))
    case (First, Some(_)) => BadSequence
    case (Middle, None) => BadSequence
    case (Middle, Some(r)) => if r.seqno != f.seqno then BadSequence else Continue(LogRecord(r.seqno, r.payload + f.payload))
    case (Last, None) => BadSequence
    case (Last, Some(r)) => if r.seqno != f.seqno then BadSequence else Complete(LogRecord(r.seqno, r.payload + f.payload))
  }

  /** No room for another fragment header: clean end or torn tail. */
  function HandleTail(area: seq<byte>, cursor: nat, partial: Option<LogRecord>, start: nat): ReadOutcome {
    if partial.Some? then TornTail(start)
    else if cursor >= |area| then EndOfSegment
    else if AllZero(area[cursor..]) then EndOfSegment
    else TornTail(start)
  }

  /** One call of the record reader: its outcome and where it leaves the cursor. */
  function Next(crc: Checksum, area: seq<byte>, cursor: nat, start: nat, partial: Option<LogRecord>):
    (r: (Result<ReadOutcome>, nat))
    ensures r.0.Ok? && r.0.value.Record? ==> cursor < r.1 <= |area|
    decreases |area| - cursor
  {
    var c := SkipPadding(cursor, |area|);
    if c + RECORD_HEADER_SIZE > |area| then (Ok(HandleTail(area, c, partial, start)), c)
    else match ReadFragment(crc, area, c)
      case SkipBlock => Next(crc, area, (c / BLOCK_SIZE + 1) * BLOCK_SIZE, start, partial)
      case TornFragment => (Ok(TornTail(start)), c)
      case BadFragment(e) => (Err(e), c)
      case Got(f) =>
        var after := c + RECORD_HEADER_SIZE + |f.payload|;
        match Assemble(partial, f)
        case Continue(more) => Next(crc, area, after, start, Some(more))
        case Complete(record) => (Ok(Record(record)), after)
        case BadSequence => (Err(Corruption), after)
  }

  /** Whole-segment replay from a cursor. */
  function Replay(crc: Checksum, area: seq<byte>, cursor: nat): (r: Result<(seq<LogRecord>, ReplayOutcome)>)
    decreases |area| - cursor
  {
    var (step, after) := Next(crc, area, cursor, cursor, None);
    match step
    case Err(e) => Err(e)
    case Ok(EndOfSegment) => Ok(([], Clean))
    case Ok(TornTail(t)) => Ok(([], Torn(t)))
    case Ok(Record(record)) =>
      match Replay(crc, area, after)
      case Err(e) => Err(e)
      case Ok((more, outcome)) => Ok(([record] + more, outcome))
  }

  function PrependRecords(done: seq<LogRecord>, r: Result<(seq<LogRecord>, ReplayOutcome)>): Result<(seq<LogRecord>, ReplayOutcome)> {
    match r
    case Err(e) => Err(e)
    case Ok((more, outcome)) => Ok((done + more, outcome))
  }

  // ----- the loops of the source -----

  class SegmentReader {
    const crc: Checksum
    const area: seq<byte>
    var cursor: nat

    /** A reader over the bytes after a segment header that `OpenSegment` accepted. */
    constructor (crc: Checksum, file: seq<byte>)
      requires OpenSegment(crc, file).Ok?
      ensures this.crc == crc && this.area == file[SEGMENT_HEADER_SIZE..] && cursor == 0
    {
      this.crc, this.area := crc, file[SEGMENT_HEADER_SIZE..];
      cursor := 0;
    }

    method NextRecord() returns (outcome: Result<ReadOutcome>)
      modifies this
      ensures (outcome, cursor) == Next(crc, area, old(cursor), old(cursor), None)
    {
      hide ReadFragment, Assemble, HandleTail;
      var partial: Option<LogRecord> := None;
      var start := cursor;
      while true
        invariant Next(crc, area, cursor, start, partial) == Next(crc, area, start, start, None)
        decreases |area| - cursor
      {
        cursor := SkipPadding(cursor, |area|);
        if cursor + RECORD_HEADER_SIZE > |area| {
          return Ok(HandleTail(area, cursor, partial, start));
        }
        match ReadFragment(crc, area, cursor) {
          case SkipBlock =>
            cursor := (cursor / BLOCK_SIZE + 1) * BLOCK_SIZE;
          case TornFragment =>
            return Ok(TornTail(start));
          case BadFragment(e) =>
            return Err(e);
          case Got(f) =>
            cursor := cursor + RECORD_HEADER_SIZE + |f.payload|;
            match Assemble(partial, f) {
              case Continue(more) => partial := Some(more);
              case Complete(record) => return Ok(Record(record));
              case BadSequence => return Err(Corruption);
            }
        }
      }
    }

    /** Drives the reader to the end of the segment. */
    method ReplayAll() returns (r: Result<(seq<LogRecord>, ReplayOutcome)>)
      modifies this
      ensures r == Replay(crc, area, old(cursor))
    {
      hide Next;
      var records: seq<LogRecord> := [];
      assert forall more: seq<LogRecord> :: [] + more == more;
      while true
        invariant PrependRecords(records, Replay(crc, area, cursor)) == Replay(crc, area, old(cursor))
        decreases |area| - cursor
      {
        ghost var rest := Replay(crc, area, cursor);
        var step := NextRecord();
        if step.Err? {
          return Err(step.error);
        }
        match step.value {
          case EndOfSegment =>
            assert records + [] == records;
            return Ok((records, Clean));
          case TornTail(t) =>
            assert records + [] == records;
            return Ok((records, Torn(t)));
          case Record(record) =>
            assert forall more: seq<LogRecord> :: records + ([record] + more) == (records + [record]) + more;
            records := records + [record];
        }
      }
    }
  }
}
