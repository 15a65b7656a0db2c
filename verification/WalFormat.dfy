/** Byte layout of a write-ahead-log segment: a 32-byte header, then records cut
    into fragments so that no fragment crosses a 32 KiB block edge. */
module WalFormat {
  import opened Bytes

  const BLOCK_SIZE: nat := 32768
  const SEGMENT_HEADER_SIZE: nat := 32
  const RECORD_HEADER_SIZE: nat := 16
  const MAX_FRAGMENT_PAYLOAD: nat := BLOCK_SIZE - RECORD_HEADER_SIZE
  const SEGMENT_MAGIC: u32 := 0x4C57_4B50
  const FORMAT_VERSION: u32 := 1

  datatype LogRecord = LogRecord(seqno: u64, payload: seq<byte>)

  datatype Kind = Full | First | Middle | Last

  function KindByte(k: Kind): byte {
    match k
    case Full => 1
    case First => 2
    case Middle => 3
    case Last => 4
  }

  function KindFromByte(b: byte): Option<Kind> {
    if b == 1 then Some(Full)
    else if b == 2 then Some(First)
    else if b == 3 then Some(Middle)
    else if b == 4 then Some(Last)
    else None
  }

  /** The kind the writer gives a fragment. */
  function KindOf(isFirst: bool, isLast: bool): Kind {
    if isFirst then if isLast then Full else First
    else if isLast then Last else Middle
  }

  // ----- one fragment -----

  /** Fragment checksum: over the kind byte, the reserved byte, the sequence number and the payload. */
  function FragmentSum(crc: Checksum, kind: byte, reserved: byte, seqno: seq<byte>, payload: seq<byte>): u32 {
    crc([kind, reserved] + seqno + payload)
  }

  function FragmentHeader(crc: Checksum, kind: Kind, seqno: u64, payload: seq<byte>): (h: seq<byte>)
    ensures |h| == RECORD_HEADER_SIZE
  {
    var sum := FragmentSum(crc, KindByte(kind), 0, ToLe(seqno, 8), payload);
    ToLe(sum, 4) + ToLe(|payload|, 2) + [KindByte(kind), 0] + ToLe(seqno, 8)
  }

  function Fragment(crc: Checksum, kind: Kind, seqno: u64, payload: seq<byte>): (s: seq<byte>)
    ensures |s| == RECORD_HEADER_SIZE + |payload|
  {
    FragmentHeader(crc, kind, seqno, payload) + payload
  }

  lemma HeaderFields(crc: Checksum, kind: Kind, seqno: u64, payload: seq<byte>)
    ensures var h := FragmentHeader(crc, kind, seqno, payload);
      && h[0..4] == ToLe(FragmentSum(crc, KindByte(kind), 0, ToLe(seqno, 8), payload), 4)
      && h[4..6] == ToLe(|payload|, 2)
      && h[6] == KindByte(kind) && h[7] == 0
      && h[8..16] == ToLe(seqno, 8)
  {
    hide ToLe, FragmentSum, KindByte;
  }

  // ----- one record -----

  /** Zero bytes needed at `pos` so that a fragment header fits in the block. */
  function PadLength(pos: nat): nat {
    var left := BLOCK_SIZE - pos % BLOCK_SIZE;
    if left < RECORD_HEADER_SIZE then left else 0
  }

  lemma PaddedHasRoom(pos: nat)
    ensures BLOCK_SIZE - (pos + PadLength(pos)) % BLOCK_SIZE >= RECORD_HEADER_SIZE
  {
  }

  /** Payload bytes that fit after a header at `pos`. */
  function Room(pos: nat): nat
    requires BLOCK_SIZE - pos % BLOCK_SIZE >= RECORD_HEADER_SIZE
  {
    BLOCK_SIZE - pos % BLOCK_SIZE - RECORD_HEADER_SIZE
  }

  /** The fragments of one record, written from position `pos` of the records area. */
  function Fragments(crc: Checksum, pos: nat, seqno: u64, payload: seq<byte>, isFirst: bool): (s: seq<byte>)
    requires BLOCK_SIZE - pos % BLOCK_SIZE >= RECORD_HEADER_SIZE
    ensures |s| >= RECORD_HEADER_SIZE
    decreases |payload|, pos % BLOCK_SIZE
  {
    var room := Room(pos);
    if |payload| <= room then Fragment(crc, KindOf(isFirst, true), seqno, payload)
    else
      var next := pos + RECORD_HEADER_SIZE + room;
      assert next % BLOCK_SIZE == 0;
      Fragment(crc, KindOf(isFirst, false), seqno, payload[..room])
      + Fragments(crc, next, seqno, payload[room..], false)
  }

  /** What is left to write once the first fragment of `payload` is out. */
  function FragmentsAfter(crc: Checksum, pos: nat, seqno: u64, payload: seq<byte>): (s: seq<byte>)
    requires BLOCK_SIZE - pos % BLOCK_SIZE >= RECORD_HEADER_SIZE
  {
    var room := Room(pos);
    if |payload| <= room then []
    else Fragments(crc, pos + RECORD_HEADER_SIZE + room, seqno, payload[room..], false)
  }

  lemma FragmentsUnfold(crc: Checksum, pos: nat, seqno: u64, payload: seq<byte>, isFirst: bool, prefix: seq<byte>)
    requires BLOCK_SIZE - pos % BLOCK_SIZE >= RECORD_HEADER_SIZE
    ensures var len := Min(|payload|, Room(pos));
      prefix + Fragments(crc, pos, seqno, payload, isFirst) ==
      (prefix + Fragment(crc, KindOf(isFirst, len == |payload|), seqno, payload[..len])) + FragmentsAfter(crc, pos, seqno, payload)
  {
    hide Fragment;
    if |payload| <= Room(pos) {
      assert payload[..|payload|] == payload;
      assert FragmentsAfter(crc, pos, seqno, payload) == [];
    } else {
      Assoc(prefix, Fragment(crc, KindOf(isFirst, false), seqno, payload[..Room(pos)]), FragmentsAfter(crc, pos, seqno, payload));
    }
  }

  /** A fragment that is not the last fills its block. */
  lemma AfterFragment(crc: Checksum, pos: nat, seqno: u64, payload: seq<byte>)
    requires BLOCK_SIZE - pos % BLOCK_SIZE >= RECORD_HEADER_SIZE
    ensures |payload| <= Room(pos) ==> FragmentsAfter(crc, pos, seqno, payload) == []
    ensures |payload| > Room(pos) ==>
      var next := pos + RECORD_HEADER_SIZE + Room(pos);
      next % BLOCK_SIZE == 0 && FragmentsAfter(crc, pos, seqno, payload) == Fragments(crc, next, seqno, payload[Room(pos)..], false)
  {
    hide Fragments;
  }

  /** All bytes an append puts at position `pos`: padding, then fragments. */
  function Frame(crc: Checksum, pos: nat, r: LogRecord): (s: seq<byte>)
    ensures |s| >= RECORD_HEADER_SIZE
  {
    PaddedHasRoom(pos);
    Zeros(PadLength(pos)) + Fragments(crc, pos + PadLength(pos), r.seqno, r.payload, true)
  }

  lemma FrameUnfold(crc: Checksum, pos: nat, r: LogRecord, prefix: seq<byte>)
    ensures BLOCK_SIZE - (pos + PadLength(pos)) % BLOCK_SIZE >= RECORD_HEADER_SIZE
    ensures prefix + Frame(crc, pos, r) ==
      (prefix + Zeros(PadLength(pos))) + Fragments(crc, pos + PadLength(pos), r.seqno, r.payload, true)
  {
    PaddedHasRoom(pos);
  }

  // ----- a whole segment -----

  /** The records area after a sequence of appends. */
  function Log(crc: Checksum, records: seq<LogRecord>): (s: seq<byte>)
  {
    if records == [] then []
    else
      var before := Log(crc, records[..|records| - 1]);
      before + Frame(crc, |before|, records[|records| - 1])
  }

  function HeaderPrefix(id: u64, firstSeqno: u64): (h: seq<byte>)
    ensures |h| == 24
  {
    ToLe(SEGMENT_MAGIC, 4) + ToLe(FORMAT_VERSION, 4) + ToLe(id, 8) + ToLe(firstSeqno, 8)
  }

  function SegmentHeader(crc: Checksum, id: u64, firstSeqno: u64): (h: seq<byte>)
    ensures |h| == SEGMENT_HEADER_SIZE
  {
    HeaderPrefix(id, firstSeqno) + ToLe(crc(HeaderPrefix(id, firstSeqno)), 4) + ToLe(0, 4)
  }

  /** Opening a segment: the identifier and first sequence number, or why not. */
  function OpenSegment(crc: Checksum, file: seq<byte>): (r: Result<(nat, nat)>)
  {
    if |file| < SEGMENT_HEADER_SIZE then Err(InvalidFormat)
    else if FromLe(file[0..4]) != SEGMENT_MAGIC then Err(InvalidFormat)
    else if FromLe(file[4..8]) != FORMAT_VERSION then Err(InvalidFormat)
    else if FromLe(file[28..32]) != 0 || FromLe(file[24..28]) != crc(file[..24]) then Err(Corruption)
    else Ok((FromLe(file[8..16]), FromLe(file[16..24])))
  }

  lemma PrefixFields(id: u64, firstSeqno: u64)
    ensures var p := HeaderPrefix(id, firstSeqno);
      && p[0..4] == ToLe(SEGMENT_MAGIC, 4) && p[4..8] == ToLe(FORMAT_VERSION, 4)
      && p[8..16] == ToLe(id, 8) && p[16..24] == ToLe(firstSeqno, 8)
  {
    hide ToLe;
    var p := HeaderPrefix(id, firstSeqno);
    var (m, v, i, f) := (ToLe(SEGMENT_MAGIC, 4), ToLe(FORMAT_VERSION, 4), ToLe(id, 8), ToLe(firstSeqno, 8));
    assert p[..16] == m + v + i;
    SliceMiddle(m + v + i, f, []);
    SliceMiddle(m + v, i, f);
  }

  lemma SegmentHeaderFields(crc: Checksum, id: u64, firstSeqno: u64, area: seq<byte>)
    ensures var p := HeaderPrefix(id, firstSeqno);
      var f := SegmentHeader(crc, id, firstSeqno) + area;
      f[..24] == p && f[24..28] == ToLe(crc(p), 4) && f[28..32] == ToLe(0, 4)
  {
    hide ToLe, HeaderPrefix;
  }

  /** A header the writer made opens, whatever follows it. */
  lemma OpenWrittenSegment(crc: Checksum, id: u64, firstSeqno: u64, area: seq<byte>)
    ensures OpenSegment(crc, SegmentHeader(crc, id, firstSeqno) + area) == Ok((id, firstSeqno))
  {
    hide ToLe, FromLe, HeaderPrefix, SegmentHeader;
    var p := HeaderPrefix(id, firstSeqno);
    var f := SegmentHeader(crc, id, firstSeqno) + area;
    PrefixFields(id, firstSeqno);
    SegmentHeaderFields(crc, id, firstSeqno, area);
    assert f[0..4] == p[0..4] && f[4..8] == p[4..8] && f[8..16] == p[8..16] && f[16..24] == p[16..24];
    Pow256Values();
    LeRoundTrip(SEGMENT_MAGIC, 4);
    LeRoundTrip(FORMAT_VERSION, 4);
    LeRoundTrip(id, 8);
    LeRoundTrip(firstSeqno, 8);
    LeRoundTrip(crc(p), 4);
    LeRoundTrip(0, 4);
  }

  // ----- how logs grow -----

  lemma LogStep(crc: Checksum, records: seq<LogRecord>, r: LogRecord)
    ensures Log(crc, records + [r]) == Log(crc, records) + Frame(crc, |Log(crc, records)|, r)
  {
    assert (records + [r])[..|records|] == records;
  }

  lemma {:induction false} LogPrefix(crc: Checksum, records: seq<LogRecord>, i: nat)
    requires i <= |records|
    ensures Log(crc, records[..i]) <= Log(crc, records)
    decreases |records|
  {
    if i < |records| {
      var front := records[..|records| - 1];
      LogPrefix(crc, front, i);
      assert front[..i] == records[..i];
    } else {
      assert records[..i] == records;
    }
  }
}
