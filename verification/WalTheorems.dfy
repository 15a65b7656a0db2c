/** What a crash leaves of a log: replay of any prefix of the bytes returns
    exactly the records that were wholly written. */
module WalTheorems {
  import opened Bytes
  import opened WalFormat
  import opened WalReader

  // ----- single fragments -----

  lemma HeaderIsNotZero(crc: Checksum, kind: Kind, seqno: u64, payload: seq<byte>)
    ensures !AllZero(FragmentHeader(crc, kind, seqno, payload))
  {
    HeaderFields(crc, kind, seqno, payload);
    assert FragmentHeader(crc, kind, seqno, payload)[6] != 0;
  }

  /** A header read back from any place in the file, with whatever payload bytes follow. */
  lemma ReadHeaderAt(crc: Checksum, area: seq<byte>, cursor: nat, kind: Kind, seqno: u64, payload: seq<byte>)
    requires |payload| <= MAX_FRAGMENT_PAYLOAD
    requires cursor + RECORD_HEADER_SIZE <= |area|
    requires area[cursor..cursor + RECORD_HEADER_SIZE] == FragmentHeader(crc, kind, seqno, payload)
    ensures cursor + RECORD_HEADER_SIZE + |payload| > |area| ==> ReadFragment(crc, area, cursor) == TornFragment
    ensures cursor + RECORD_HEADER_SIZE + |payload| <= |area|
         && area[cursor + RECORD_HEADER_SIZE..cursor + RECORD_HEADER_SIZE + |payload|] == payload
         ==> ReadFragment(crc, area, cursor) == Got(Frag(kind, seqno, payload))
  {
    hide ToLe, FromLe, FragmentHeader;
    HeaderFields(crc, kind, seqno, payload);
    HeaderIsNotZero(crc, kind, seqno, payload);
    Pow256Values();
    LeRoundTrip(|payload|, 2);
    LeRoundTrip(seqno, 8);
    LeRoundTrip(FragmentSum(crc, KindByte(kind), 0, ToLe(seqno, 8), payload), 4);
  }

  /** A whole fragment is read back as written, whatever surrounds it. */
  lemma ReadWholeFragment(crc: Checksum, pre: seq<byte>, kind: Kind, seqno: u64, payload: seq<byte>, post: seq<byte>)
    requires |payload| <= MAX_FRAGMENT_PAYLOAD
    ensures var area := pre + Fragment(crc, kind, seqno, payload) + post;
      |area| >= |pre| + RECORD_HEADER_SIZE && ReadFragment(crc, area, |pre|) == Got(Frag(kind, seqno, payload))
  {
    hide FragmentHeader, ReadFragment;
    var h := FragmentHeader(crc, kind, seqno, payload);
    var area := pre + Fragment(crc, kind, seqno, payload) + post;
    assert area == pre + (h + (payload + post));
    assert area[|pre|..|pre| + RECORD_HEADER_SIZE] == h;
    ReadHeaderAt(crc, area, |pre|, kind, seqno, payload);
  }

  /** A fragment cut inside its payload is recognised as torn. */
  lemma ReadCutFragment(crc: Checksum, pre: seq<byte>, kind: Kind, seqno: u64, payload: seq<byte>, cut: nat)
    requires |payload| <= MAX_FRAGMENT_PAYLOAD
    requires RECORD_HEADER_SIZE <= cut < RECORD_HEADER_SIZE + |payload|
    ensures ReadFragment(crc, pre + Fragment(crc, kind, seqno, payload)[..cut], |pre|) == TornFragment
  {
    hide FragmentHeader, ReadFragment;
    var h := FragmentHeader(crc, kind, seqno, payload);
    var area := pre + Fragment(crc, kind, seqno, payload)[..cut];
    assert area == pre + (h + payload[..cut - RECORD_HEADER_SIZE]);
    assert area[|pre|..|pre| + RECORD_HEADER_SIZE] == h;
    ReadHeaderAt(crc, area, |pre|, kind, seqno, payload);
  }

  // ----- the fragments of one record -----

  /** What the reader has assembled before it meets the next fragment. */
  function PartialOf(isFirst: bool, seqno: u64, acc: seq<byte>): Option<LogRecord> {
    if isFirst then None else Some(LogRecord(seqno, acc))
  }

  /** Reading one fragment advances the record reader past it. */
  lemma NextOverFragment(crc: Checksum, pre: seq<byte>, isFirst: bool, isLast: bool, seqno: u64,
                         acc: seq<byte>, payload: seq<byte>, post: seq<byte>, start: nat)
    requires BLOCK_SIZE - |pre| % BLOCK_SIZE >= RECORD_HEADER_SIZE
    requires |payload| <= Room(|pre|) && (isFirst ==> acc == [])
    ensures var area := pre + Fragment(crc, KindOf(isFirst, isLast), seqno, payload) + post;
      var after := |pre| + RECORD_HEADER_SIZE + |payload|;
      Next(crc, area, |pre|, start, PartialOf(isFirst, seqno, acc)) ==
        if isLast then (Ok(Record(LogRecord(seqno, acc + payload))), after)
        else Next(crc, area, after, start, Some(LogRecord(seqno, acc + payload)))
  {
    hide Fragment, ReadFragment;
    ReadWholeFragment(crc, pre, KindOf(isFirst, isLast), seqno, payload, post);
    assert isFirst ==> acc + payload == payload;
  }

  /** All fragments of a record, joined. */
  lemma {:induction false} NextOverFragments(crc: Checksum, pre: seq<byte>, isFirst: bool, seqno: u64,
                                             acc: seq<byte>, payload: seq<byte>, post: seq<byte>, start: nat)
    requires BLOCK_SIZE - |pre| % BLOCK_SIZE >= RECORD_HEADER_SIZE
    requires isFirst ==> acc == []
    ensures var bytes := Fragments(crc, |pre|, seqno, payload, isFirst);
      Next(crc, pre + bytes + post, |pre|, start, PartialOf(isFirst, seqno, acc)) ==
        (Ok(Record(LogRecord(seqno, acc + payload))), |pre| + |bytes|)
    decreases |payload|, |pre| % BLOCK_SIZE
  {
    hide Fragment, Fragments, Next;
    var len := Min(|payload|, Room(|pre|));
    var isLast := len == |payload|;
    var f := Fragment(crc, KindOf(isFirst, isLast), seqno, payload[..len]);
    var rest := FragmentsAfter(crc, |pre|, seqno, payload);
    FragmentsUnfold(crc, |pre|, seqno, payload, isFirst, pre);
    Assoc(pre + f, rest, post);
    NextOverFragment(crc, pre, isFirst, isLast, seqno, acc, payload[..len], rest + post, start);
    assert acc + payload[..len] + payload[len..] == acc + payload;
    if isLast {
      assert payload[..len] == payload;
    } else {
      NextOverFragments(crc, pre + f, false, seqno, acc + payload[..len], payload[len..], post, start);
    }
  }

  /** What a torn record gives, never a record and never an error: a clean end when
      nothing but zeros is left of it, a torn tail otherwise. */
  function TornOutcome(zeros: bool, start: nat): Result<ReadOutcome> {
    Ok(if zeros then EndOfSegment else TornTail(start))
  }

  lemma NextWithoutHeader(crc: Checksum, area: seq<byte>, cursor: nat, start: nat, partial: Option<LogRecord>)
    requires BLOCK_SIZE - cursor % BLOCK_SIZE >= RECORD_HEADER_SIZE
    requires cursor <= |area| < cursor + RECORD_HEADER_SIZE
    ensures Next(crc, area, cursor, start, partial).0 == TornOutcome(partial.None? && AllZero(area[cursor..]), start)
  {
    hide ReadFragment;
  }

  lemma FragmentShows(crc: Checksum, kind: Kind, seqno: u64, payload: seq<byte>, rest: seq<byte>)
    ensures !AllZero(Fragment(crc, kind, seqno, payload) + rest)
    ensures forall cut :: RECORD_HEADER_SIZE <= cut <= |Fragment(crc, kind, seqno, payload)| ==>
      !AllZero(Fragment(crc, kind, seqno, payload)[..cut])
  {
    hide FragmentHeader;
    HeaderIsNotZero(crc, kind, seqno, payload);
    var h := FragmentHeader(crc, kind, seqno, payload);
    var i :| 0 <= i < |h| && h[i] != 0;
    assert (Fragment(crc, kind, seqno, payload) + rest)[i] == h[i];
    forall cut | RECORD_HEADER_SIZE <= cut <= |Fragment(crc, kind, seqno, payload)|
      ensures !AllZero(Fragment(crc, kind, seqno, payload)[..cut])
    {
      assert Fragment(crc, kind, seqno, payload)[..cut][i] == h[i];
    }
  }

  lemma NextOverCutFragment(crc: Checksum, pre: seq<byte>, kind: Kind, seqno: u64, payload: seq<byte>, cut: nat,
                            start: nat, partial: Option<LogRecord>)
    requires BLOCK_SIZE - |pre| % BLOCK_SIZE >= RECORD_HEADER_SIZE
    requires |payload| <= MAX_FRAGMENT_PAYLOAD
    requires cut < RECORD_HEADER_SIZE + |payload|
    ensures var left := Fragment(crc, kind, seqno, payload)[..cut];
      Next(crc, pre + left, |pre|, start, partial).0 == TornOutcome(partial.None? && AllZero(left), start)
  {
    hide ReadFragment, Fragment, AllZero;
    var left := Fragment(crc, kind, seqno, payload)[..cut];
    if cut < RECORD_HEADER_SIZE {
      NextWithoutHeader(crc, pre + left, |pre|, start, partial);
      assert (pre + left)[|pre|..] == left;
    } else {
      FragmentShows(crc, kind, seqno, payload, []);
      ReadCutFragment(crc, pre, kind, seqno, payload, cut);
    }
  }

  lemma PrefixOfConcat(a: seq<byte>, b: seq<byte>, cut: nat)
    requires cut <= |a + b|
    ensures (a + b)[..cut] == if cut < |a| then a[..cut] else a + b[..cut - |a|]
  {
  }

  /** Fragments cut anywhere before their end. */
  lemma {:induction false} NextOverCutFragments(crc: Checksum, pre: seq<byte>, isFirst: bool, seqno: u64,
                                                acc: seq<byte>, payload: seq<byte>, cut: nat, start: nat)
    requires BLOCK_SIZE - |pre| % BLOCK_SIZE >= RECORD_HEADER_SIZE
    requires isFirst ==> acc == []
    requires cut < |Fragments(crc, |pre|, seqno, payload, isFirst)|
    ensures var left := Fragments(crc, |pre|, seqno, payload, isFirst)[..cut];
      Next(crc, pre + left, |pre|, start, PartialOf(isFirst, seqno, acc)).0 == TornOutcome(isFirst && AllZero(left), start)
    decreases |payload|, |pre| % BLOCK_SIZE
  {
    hide Fragment, Fragments, Next, TornOutcome, AllZero;
    var len := Min(|payload|, Room(|pre|));
    var kind := KindOf(isFirst, len == |payload|);
    var f := Fragment(crc, kind, seqno, payload[..len]);
    var rest := FragmentsAfter(crc, |pre|, seqno, payload);
    var bytes := Fragments(crc, |pre|, seqno, payload, isFirst);
    FragmentsUnfold(crc, |pre|, seqno, payload, isFirst, []);
    assert [] + bytes == bytes && [] + f == f;
    PrefixOfConcat(f, rest, cut);
    if cut < |f| {
      NextOverCutFragment(crc, pre, kind, seqno, payload[..len], cut, start, PartialOf(isFirst, seqno, acc));
    } else {
      FragmentShows(crc, kind, seqno, payload[..len], rest[..cut - |f|]);
      Assoc(pre, f, rest[..cut - |f|]);
      NextOverFragment(crc, pre, isFirst, false, seqno, acc, payload[..len], rest[..cut - |f|], start);
      NextOverCutFragments(crc, pre + f, false, seqno, acc + payload[..len], payload[len..], cut - |f|, start);
    }
  }

  // ----- one record with its padding -----

  /** Stepping over padding first makes no difference to the outcome. */
  lemma NextAfterPadding(crc: Checksum, area: seq<byte>, cursor: nat, start: nat, partial: Option<LogRecord>)
    requires cursor + PadLength(cursor) <= |area|
    ensures Next(crc, area, cursor, start, partial) == Next(crc, area, cursor + PadLength(cursor), start, partial)
  {
    hide ReadFragment, HandleTail, Assemble;
    var c := SkipPadding(cursor, |area|);
    assert c == cursor + PadLength(cursor) && SkipPadding(c, |area|) == c;
  }

  /** A framed record is read back, and the cursor lands on the next one. */
  lemma NextOverFrame(crc: Checksum, pre: seq<byte>, r: LogRecord, post: seq<byte>)
    ensures var frame := Frame(crc, |pre|, r);
      Next(crc, pre + frame + post, |pre|, |pre|, None) == (Ok(Record(r)), |pre| + |frame|)
  {
    hide Frame, Fragments, Next;
    var pad := Zeros(PadLength(|pre|));
    FrameUnfold(crc, |pre|, r, pre);
    NextAfterPadding(crc, pre + Frame(crc, |pre|, r) + post, |pre|, |pre|, None);
    NextOverFragments(crc, pre + pad, true, r.seqno, [], r.payload, post, |pre|);
    assert [] + r.payload == r.payload;
  }

  lemma NextInsidePadding(crc: Checksum, pre: seq<byte>, cut: nat)
    requires cut < PadLength(|pre|)
    ensures Next(crc, pre + Zeros(cut), |pre|, |pre|, None).0 == Ok(EndOfSegment)
  {
    hide ReadFragment;
    var area := pre + Zeros(cut);
    assert area[|pre|..] == Zeros(cut);
  }

  lemma ReplayAtEnd(crc: Checksum, area: seq<byte>)
    ensures Replay(crc, area, |area|) == Ok(([], Clean))
  {
    hide ReadFragment;
    assert Next(crc, area, |area|, |area|, None).0 == Ok(EndOfSegment);
  }

  lemma ZerosInFront(n: nat, s: seq<byte>)
    ensures AllZero(Zeros(n) + s) <==> AllZero(s)
  {
    if AllZero(Zeros(n) + s) {
      forall i | 0 <= i < |s| ensures s[i] == 0 { assert (Zeros(n) + s)[n + i] == s[i]; }
    }
  }

  /** A framed record cut anywhere short of its end gives no record and no error. */
  lemma NextOverCutFrame(crc: Checksum, pre: seq<byte>, r: LogRecord, cut: nat)
    requires cut < |Frame(crc, |pre|, r)|
    ensures var left := Frame(crc, |pre|, r)[..cut];
      Next(crc, pre + left, |pre|, |pre|, None).0 == TornOutcome(AllZero(left), |pre|)
  {
    hide Frame, Fragments, Next;
    var n := PadLength(|pre|);
    var pad := Zeros(n);
    FrameUnfold(crc, |pre|, r, []);
    var frame := Frame(crc, |pre|, r);
    var rest := Fragments(crc, |pre| + n, r.seqno, r.payload, true);
    assert frame == pad + rest by { assert [] + frame == frame && [] + pad == pad; }
    if cut < n {
      assert frame[..cut] == Zeros(cut);
      NextInsidePadding(crc, pre, cut);
    } else {
      assert frame[..cut] == pad + rest[..cut - n];
      ZerosInFront(n, rest[..cut - n]);
      assert pre + frame[..cut] == (pre + pad) + rest[..cut - n];
      NextAfterPadding(crc, pre + frame[..cut], |pre|, |pre|, None);
      NextOverCutFragments(crc, pre + pad, true, r.seqno, [], r.payload, cut - n, |pre|);
    }
  }

  // ----- whole segments -----

  /** Replay walks through every written record, whatever bytes follow the log. */
  lemma {:induction false} ReplayWritten(crc: Checksum, records: seq<LogRecord>, i: nat, tail: seq<byte>)
    requires i <= |records|
    ensures var area := Log(crc, records) + tail;
      Replay(crc, area, |Log(crc, records[..i])|) == PrependRecords(records[i..], Replay(crc, area, |Log(crc, records)|))
    decreases |records| - i
  {
    hide Log, Frame, Next;
    var area := Log(crc, records) + tail;
    if i == |records| {
      assert records[..i] == records;
      assert forall more: seq<LogRecord> :: records[i..] + more == more;
    } else {
      var pre := Log(crc, records[..i]);
      var frame := Frame(crc, |pre|, records[i]);
      assert records[..i + 1] == records[..i] + [records[i]];
      LogStep(crc, records[..i], records[i]);
      LogPrefix(crc, records, i + 1);
      var post := area[|pre + frame|..];
      assert area == pre + frame + post;
      NextOverFrame(crc, pre, records[i], post);
      ReplayWritten(crc, records, i + 1, tail);
      assert records[i..] == [records[i]] + records[i + 1..];
      assert forall more: seq<LogRecord> :: records[i..] + more == [records[i]] + (records[i + 1..] + more);
    }
  }

  lemma ReplayWrittenFromStart(crc: Checksum, records: seq<LogRecord>, tail: seq<byte>)
    ensures var area := Log(crc, records) + tail;
      Replay(crc, area, 0) == PrependRecords(records, Replay(crc, area, |Log(crc, records)|))
  {
    hide Replay;
    ReplayWritten(crc, records, 0, tail);
    assert records[..0] == [] && records[0..] == records;
  }

  /** How many records lie wholly before the cut. */
  function CompleteCount(crc: Checksum, records: seq<LogRecord>, cut: nat): (k: nat)
    ensures k <= |records|
  {
    if records == [] || |Log(crc, records)| <= cut then |records|
    else CompleteCount(crc, records[..|records| - 1], cut)
  }

  lemma LogEmpty(crc: Checksum)
    ensures Log(crc, []) == []
  {
  }

  /** It is the largest count of records whose bytes all lie before the cut. */
  lemma {:induction false} CompleteCountIsLargest(crc: Checksum, records: seq<LogRecord>, cut: nat)
    ensures var k := CompleteCount(crc, records, cut);
      && |Log(crc, records[..k])| <= cut
      && (k < |records| ==> cut < |Log(crc, records[..k + 1])|)
  {
    hide Log;
    var k := CompleteCount(crc, records, cut);
    if records == [] {
      LogEmpty(crc);
      assert records[..k] == [];
    } else {
      if |Log(crc, records)| <= cut {
        assert records[..k] == records;
      } else {
        var front := records[..|records| - 1];
        CompleteCountIsLargest(crc, front, cut);
        assert front[..k] == records[..k];
        assert if k < |front| then front[..k + 1] == records[..k + 1] else records[..k + 1] == records;
      }
    }
  }

  lemma ReplayClean(crc: Checksum, records: seq<LogRecord>)
    ensures Replay(crc, Log(crc, records), 0) == Ok((records, Clean))
  {
    hide Log, Replay;
    var area := Log(crc, records);
    assert area + [] == area;
    ReplayWrittenFromStart(crc, records, []);
    ReplayAtEnd(crc, area);
    assert records + [] == records;
  }

  /** The bytes before the cut are the complete records and a proper prefix of the next frame. */
  lemma CutDecomposes(crc: Checksum, records: seq<LogRecord>, cut: nat)
    requires cut <= |Log(crc, records)|
    ensures var k := CompleteCount(crc, records, cut);
      var pre := Log(crc, records[..k]);
      && |pre| <= cut
      && if k == |records| then Log(crc, records)[..cut] == pre && cut == |pre|
         else
           var frame := Frame(crc, |pre|, records[k]);
           cut - |pre| < |frame| && Log(crc, records)[..cut] == pre + frame[..cut - |pre|]
  {
    hide Log, Frame, CompleteCount;
    var k := CompleteCount(crc, records, cut);
    CompleteCountIsLargest(crc, records, cut);
    if k == |records| {
      assert records[..k] == records;
    } else {
      assert records[..k + 1] == records[..k] + [records[k]];
      LogStep(crc, records[..k], records[k]);
      LogPrefix(crc, records, k + 1);
    }
  }

  lemma CutFrameOutcome(crc: Checksum, pre: seq<byte>, r: LogRecord, cut: nat)
    requires cut < |Frame(crc, |pre|, r)|
    ensures var left := Frame(crc, |pre|, r)[..cut];
      Replay(crc, pre + left, |pre|) == Ok(([], if AllZero(left) then Clean else Torn(|pre|)))
  {
    hide Frame, Next;
    NextOverCutFrame(crc, pre, r, cut);
  }

  /** Crash-prefix theorem. Cut the records area at any byte: replay never fails
      and returns exactly the records wholly before the cut. A torn tail is reported,
      at the end of the last of them, exactly when a byte other than zero is left
      over; truncating there leaves a log that replays cleanly to the same records. */
  lemma CrashPrefix(crc: Checksum, records: seq<LogRecord>, cut: nat)
    requires cut <= |Log(crc, records)|
    ensures var kept := records[..CompleteCount(crc, records, cut)];
      var end := |Log(crc, kept)|;
      && Log(crc, kept) <= Log(crc, records) && end <= cut
      && Replay(crc, Log(crc, records)[..cut], 0) == Ok((kept, if AllZero(Log(crc, records)[end..cut]) then Clean else Torn(end)))
      && Replay(crc, Log(crc, kept), 0) == Ok((kept, Clean))
  {
    hide Log, Frame, Replay, CompleteCount;
    var k := CompleteCount(crc, records, cut);
    var kept := records[..k];
    var pre := Log(crc, kept);
    LogPrefix(crc, records, k);
    CutDecomposes(crc, records, cut);
    ReplayClean(crc, kept);
    if k < |records| {
      var tail := Frame(crc, |pre|, records[k])[..cut - |pre|];
      ReplayWrittenFromStart(crc, kept, tail);
      CutFrameOutcome(crc, pre, records[k], cut - |pre|);
      assert kept + [] == kept;
    }
  }

  // ----- preallocated files -----

  lemma {:induction false} NextOverZeros(crc: Checksum, area: seq<byte>, cursor: nat, start: nat)
    requires forall i :: cursor <= i < |area| ==> area[i] == 0
    ensures Next(crc, area, cursor, start, None).0 == Ok(EndOfSegment)
    decreases |area| - cursor
  {
    hide Assemble;
    var c := SkipPadding(cursor, |area|);
    if c + RECORD_HEADER_SIZE <= |area| {
      assert ReadFragment(crc, area, c) == SkipBlock;
      NextOverZeros(crc, area, (c / BLOCK_SIZE + 1) * BLOCK_SIZE, start);
    }
  }

  /** A log followed by any number of zero bytes replays cleanly to the same
      records: the reader crosses whole zeroed blocks without inventing a record. */
  lemma ZeroTailIsClean(crc: Checksum, records: seq<LogRecord>, zeros: nat)
    ensures Replay(crc, Log(crc, records) + Zeros(zeros), 0) == Ok((records, Clean))
  {
    hide Log, Next;
    var area := Log(crc, records) + Zeros(zeros);
    ReplayWrittenFromStart(crc, records, Zeros(zeros));
    NextOverZeros(crc, area, |Log(crc, records)|, |Log(crc, records)|);
    assert records + [] == records;
  }
}
