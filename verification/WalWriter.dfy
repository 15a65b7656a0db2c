/** The segment writer: block framing done one append at a time. */
module WalWriter {
  import opened Bytes
  import opened WalFormat

  class SegmentWriter {
    const crc: Checksum
    const segmentId: u64
    const firstSeqno: u64
    var file: seq<byte>
    var blockOffset: nat
    var bytesWritten: nat
    ghost var records: seq<LogRecord>

    /** The file is the header followed by exactly the appended records. */
    ghost predicate Valid()
      reads this
    {
      && file == SegmentHeader(crc, segmentId, firstSeqno) + Log(crc, records)
      && bytesWritten == |Log(crc, records)|
      && blockOffset <= BLOCK_SIZE
      && blockOffset % BLOCK_SIZE == bytesWritten % BLOCK_SIZE
    }

    constructor Create(crc: Checksum, segmentId: u64, firstSeqno: u64)
      ensures Valid() && records == []
      ensures this.crc == crc && this.segmentId == segmentId && this.firstSeqno == firstSeqno
    {
      this.crc, this.segmentId, this.firstSeqno := crc, segmentId, firstSeqno;
      file := SegmentHeader(crc, segmentId, firstSeqno);
      blockOffset, bytesWritten, records := 0, 0, [];
    }

    method AppendRecord(seqno: u64, payload: seq<byte>) returns (start: nat)
      requires Valid()
      modifies this
      ensures Valid()
      ensures records == old(records) + [LogRecord(seqno, payload)]
      ensures start == old(bytesWritten)
    {
      hide Frame, Fragments, Log, SegmentHeader;
      start := bytesWritten;
      ghost var r := LogRecord(seqno, payload);
      ghost var frame := Frame(crc, bytesWritten, r);
      ghost var header := SegmentHeader(crc, segmentId, firstSeqno);
      FrameUnfold(crc, bytesWritten, r, file);
      PadBlock();
      WriteFragments(seqno, payload, old(file) + frame);
      records := records + [r];
      LogStep(crc, old(records), r);
      assert (header + Log(crc, old(records))) + frame == header + (Log(crc, old(records)) + frame);
    }

    /** The fragment loop of an append. */
    method WriteFragments(seqno: u64, payload: seq<byte>, ghost goal: seq<byte>)
      requires BLOCK_SIZE - blockOffset >= RECORD_HEADER_SIZE && blockOffset == bytesWritten % BLOCK_SIZE
      requires goal == file + Fragments(crc, bytesWritten, seqno, payload, true)
      modifies this`file, this`blockOffset, this`bytesWritten
      ensures file == goal
      ensures bytesWritten - |file| == old(bytesWritten - |file|)
      ensures blockOffset <= BLOCK_SIZE && blockOffset % BLOCK_SIZE == bytesWritten % BLOCK_SIZE
    {
      hide Fragments, Fragment, FragmentsAfter;
      var remaining := payload;
      var isFirst := true;
      while true
        invariant BLOCK_SIZE - blockOffset >= RECORD_HEADER_SIZE
        invariant blockOffset == bytesWritten % BLOCK_SIZE
        invariant goal == file + Fragments(crc, bytesWritten, seqno, remaining, isFirst)
        invariant bytesWritten - |file| == old(bytesWritten - |file|)
        decreases |remaining|, blockOffset
      {
        FragmentsUnfold(crc, bytesWritten, seqno, remaining, isFirst, file);
        AfterFragment(crc, bytesWritten, seqno, remaining);
        var room := BLOCK_SIZE - blockOffset - RECORD_HEADER_SIZE;
        var len := Min(|remaining|, room);
        var isLast := len == |remaining|;
        WriteFragment(KindOf(isFirst, isLast), seqno, remaining[..len]);
        remaining := remaining[len..];
        isFirst := false;
        if remaining == [] {
          break;
        }
        blockOffset := 0;
      }
    }

    /** Zero-fills a block tail too short for a fragment header. */
    method PadBlock()
      requires blockOffset <= BLOCK_SIZE && blockOffset % BLOCK_SIZE == bytesWritten % BLOCK_SIZE
      modifies this`file, this`blockOffset, this`bytesWritten
      ensures file == old(file) + Zeros(PadLength(old(bytesWritten)))
      ensures bytesWritten == old(bytesWritten) + PadLength(old(bytesWritten))
      ensures blockOffset == bytesWritten % BLOCK_SIZE
      ensures BLOCK_SIZE - blockOffset >= RECORD_HEADER_SIZE
    {
      var left := BLOCK_SIZE - blockOffset;
      if left < RECORD_HEADER_SIZE {
        file := file + Zeros(left);
        bytesWritten := bytesWritten + left;
        blockOffset := 0;
      }
    }

    /** Header and payload go out as two appends. */
    method WriteFragment(kind: Kind, seqno: u64, payload: seq<byte>)
      requires |payload| <= MAX_FRAGMENT_PAYLOAD
      modifies this`file, this`blockOffset, this`bytesWritten
      ensures file == old(file) + Fragment(crc, kind, seqno, payload)
      ensures blockOffset == old(blockOffset) + RECORD_HEADER_SIZE + |payload|
      ensures bytesWritten == old(bytesWritten) + RECORD_HEADER_SIZE + |payload|
    {
      hide FragmentHeader;
      Assoc(file, FragmentHeader(crc, kind, seqno, payload), payload);
      file := file + FragmentHeader(crc, kind, seqno, payload);
      file := file + payload;
      blockOffset := blockOffset + RECORD_HEADER_SIZE + |payload|;
      bytesWritten := bytesWritten + RECORD_HEADER_SIZE + |payload|;
    }
  }
}
