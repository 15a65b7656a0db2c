/** What the readers do with bytes no writer left: which damage is skipped, which ends
    the reading quietly, and which is reported, for arbitrary files. */
module Damage {
  import opened Bytes
  import opened Records
  import opened Varint
  import opened WalFormat
  import opened WalReader
  import Batch
  import Block
  import SstFormat
  import SstWriter
  import SstReader
  import Bloom
  import StoreReads

  // ----- write batches -----

  lemma TerminatorExtends(s: seq<byte>, more: seq<byte>)
    requires Terminator(s) < |s|
    ensures Terminator(s + more) == Terminator(s)
  {
    if s[0] >= 128 {
      TerminatorExtends(s[1..], more);
      assert (s + more)[1..] == s[1..] + more;
    }
  }

  lemma VarintExtends(s: seq<byte>, more: seq<byte>)
    requires DecodeU32(s).Ok?
    ensures DecodeU32(s + more) == DecodeU32(s)
  {
    TerminatorExtends(s, more);
    var t := Terminator(s);
    assert (s + more)[..t + 1] == s[..t + 1];
  }

  lemma BlobExtends(s: seq<byte>, more: seq<byte>)
    requires Batch.TakeBlob(s).Ok?
    ensures var (b, rest) := Batch.TakeBlob(s).value; Batch.TakeBlob(s + more) == Ok((b, rest + more))
  {
    hide DecodeU32;
    VarintExtends(s, more);
    var (n, c) := DecodeU32(s).value;
    var rest := s[c..];
    assert (s + more)[c..] == rest + more;
    assert (rest + more)[..n] == rest[..n] && (rest + more)[n..] == rest[n..] + more;
  }

  lemma OpExtends(s: seq<byte>, more: seq<byte>)
    requires Batch.DecodeOp(s).Ok?
    ensures var (op, rest) := Batch.DecodeOp(s).value; Batch.DecodeOp(s + more) == Ok((op, rest + more))
  {
    hide Batch.TakeBlob;
    assert (s + more)[1..] == s[1..] + more;
    BlobExtends(s[1..], more);
    if s[0] != 1 { BlobExtends(Batch.TakeBlob(s[1..]).value.1, more); }
  }

  lemma {:induction false} OpsExtend(s: seq<byte>, count: nat, more: seq<byte>)
    requires Batch.DecodeOps(s, count).Ok?
    ensures var (ops, rest) := Batch.DecodeOps(s, count).value; Batch.DecodeOps(s + more, count) == Ok((ops, rest + more))
    decreases count
  {
    hide Batch.DecodeOp;
    if count > 0 {
      OpExtends(s, more);
      OpsExtend(Batch.DecodeOp(s).value.1, count - 1, more);
    }
  }

  lemma CountIs(ops: Batch.Ops)
    requires Batch.Encodable(ops)
    ensures DecodeU32(Batch.Encode(ops)).Ok? && DecodeU32(Batch.Encode(ops)).value.0 == |ops|
  {
    hide DecodeU32, Batch.EncodeOps;
    RoundTripU32(|ops|, Batch.EncodeOps(ops));
  }

  /** A batch cut short anywhere is refused. */
  lemma CutBatchRefused(ops: Batch.Ops, cut: nat)
    requires Batch.Encodable(ops) && cut < |Batch.Encode(ops)|
    ensures Batch.Decode(Batch.Encode(ops)[..cut]).Err?
  {
    hide DecodeU32, Batch.DecodeOps, Batch.Encode;
    var s := Batch.Encode(ops);
    var (front, more) := (s[..cut], s[cut..]);
    assert s == front + more;
    Batch.RoundTripIff(ops);
    CountIs(ops);
    if Batch.Decode(front).Ok? {
      VarintExtends(front, more);
      var (count, c) := DecodeU32(front).value;
      assert s[c..] == front[c..] + more;
      OpsExtend(front[c..], count, more);
    }
  }

  // ----- log segments -----

  /** One step of the segment reader where a header fits, on any bytes. A zero header
      skips to the next 32 KiB block. A length, checksum or end of file that does not fit
      is a torn tail at the start of the record. An unknown kind under a matching checksum
      and fragments out of order are errors. */
  lemma SegmentStep(crc: Checksum, area: seq<byte>, c: nat, start: nat, partial: Option<LogRecord>)
    requires 32768 - c % 32768 >= 16 && c + 16 <= |area|
    ensures var (next, frag) := (Next(crc, area, c, start, partial), ReadFragment(crc, area, c));
      && (frag.SkipBlock? ==> next == Next(crc, area, (c / 32768 + 1) * 32768, start, partial))
      && (frag.TornFragment? ==> next == (Ok(TornTail(start)), c))
      && (frag.BadFragment? ==> next == (Err(InvalidFormat), c))
      && (frag.Got? ==>
            var after := c + 16 + |frag.frag.payload|;
            match Assemble(partial, frag.frag)
            case Continue(more) => next == Next(crc, area, after, start, Some(more))
            case Complete(record) => next == (Ok(Record(record)), after)
            case BadSequence => next == (Err(Corruption), after))
  {
    hide Assemble;
    assert SkipPadding(c, |area|) == c;
    assert ReadFragment(crc, area, c).BadFragment? ==> ReadFragment(crc, area, c).error == InvalidFormat;
  }

  /** Replay reports the first error and ends quietly, saying so, at a torn tail. */
  lemma ReplayStep(crc: Checksum, area: seq<byte>, cursor: nat)
    ensures var (step, after) := Next(crc, area, cursor, cursor, None);
      && (step.Err? ==> Replay(crc, area, cursor) == Err(step.error))
      && (step == Ok(EndOfSegment) ==> Replay(crc, area, cursor) == Ok(([], Clean)))
      && (forall t :: step == Ok(TornTail(t)) ==> Replay(crc, area, cursor) == Ok(([], Torn(t))))
      && (forall r :: step == Ok(Record(r)) && Replay(crc, area, after).Err? ==> Replay(crc, area, cursor) == Replay(crc, area, after))
  {
    hide Next;
  }

  // ----- blocks -----

  /** Exactly these bytes are taken as a record: three lengths, eight bytes, an operation
      byte of 0 or 1, and as much key and value as the lengths say. */
  lemma RecordAccepted(rest: seq<byte>)
    ensures Block.ParseRecord(rest).Some? <==>
      && Block.ParseHead(rest).Some?
      && var h := Block.ParseHead(rest).value;
         h.size + 9 + h.unshared + h.valueLen <= |rest| && rest[h.size + 8] <= 1
    ensures Block.ParseRecord(rest).Some? ==>
      var (h, p) := (Block.ParseHead(rest).value, Block.ParseRecord(rest).value);
      && p.shared == h.shared && p.suffix == rest[h.size + 9..h.size + 9 + h.unshared] && p.seqno == FromLe(rest[h.size..h.size + 8])
      && p.op == (if rest[h.size + 8] == 0 then Live else Tombstone)
      && p.value == rest[h.size + 9 + h.unshared..p.size] && p.size == h.size + 9 + h.unshared + h.valueLen
  {
    hide Block.ParseHead, FromLe;
  }

  /** Iteration ends at the first bytes that are no record. */
  lemma IterationStops(records: seq<byte>, cursor: nat, lastKey: Key)
    requires cursor < |records| && Block.ParseRecord(records[cursor..]).None?
    ensures Block.Iterate(records, cursor, lastKey) == []
  {
  }

  /** A restart that does not store its whole key is damage, and a search that meets one
      finds nothing. */
  lemma DamagedRestart(b: Block.Opened, target: Key, lo: nat, hi: nat)
    requires lo + 1 < hi <= |b.restartBytes| / 4
    ensures var off := Block.RestartOffset(b, lo + (hi - lo) / 2);
      off < |b.records| && Block.ParseHead(b.records[off..]).Some? && Block.ParseHead(b.records[off..]).value.shared != 0 ==>
        Block.KeyAtRestart(b.records, off).None? && Block.SearchRestarts(b, target, lo, hi).None?
    ensures |b.restartBytes| / 4 > 0 && Block.SearchRestarts(b, target, 0, |b.restartBytes| / 4).None? ==> Block.Seek(b, target).None?
  {
    hide Block.ParseHead, Block.Iterate, FromLe;
  }

  // ----- tables -----

  /** Loading a block: a handle past the end of the file, a seal that does not open and a
      checksum that differs are all reported. */
  lemma LoadReports(cfg: SstWriter.Config, t: SstReader.Reader, h: SstFormat.Handle)
    ensures h.offset + h.length > |t.file| ==> SstReader.LoadBlock(cfg, t, h) == Err(UnexpectedEof)
    ensures h.offset + h.length <= |t.file| ==>
      var disk := t.file[h.offset..h.offset + h.length];
      && (cfg.crypto.Plain? ==> SstReader.LoadBlock(cfg, t, h) == Block.OpenBlock(cfg.crc, disk))
      && (cfg.crypto.Sealed? ==>
            match cfg.crypto.unseal(cfg.crypto.id, h.offset, disk)
            case None => SstReader.LoadBlock(cfg, t, h) == Err(Corruption)
            case Some(plain) => SstReader.LoadBlock(cfg, t, h) == Block.OpenBlock(cfg.crc, plain))
  {
    hide Block.OpenBlock;
  }

  /** A scan fails if any block fails to load. */
  lemma {:induction false} ScanReports(cfg: SstWriter.Config, t: SstReader.Reader, entries: seq<Rec>, i: nat)
    requires i < |entries| && SstReader.EntryRecords(cfg, t, entries[i].value).Err?
    ensures SstReader.ScanEntries(cfg, t, entries).Err?
    decreases |entries|
  {
    hide SstReader.EntryRecords;
    var front := entries[..|entries| - 1];
    if i < |front| { ScanReports(cfg, t, front, i); }
  }

  /** A lookup the filter does not refuse reports what goes wrong in the index and in the
      block; one it refuses touches neither. */
  lemma GetReports(cfg: SstWriter.Config, t: SstReader.Reader, key: Key, snap: nat)
    ensures t.bloom.Some? && !Bloom.Contains(cfg.hash, t.bloom.value, key) ==> SstReader.Get(cfg, t, key, snap) == Ok(None)
    ensures t.bloom.None? || Bloom.Contains(cfg.hash, t.bloom.value, key) ==>
      match SstReader.LocateBlock(cfg, t, key)
      case Err(e) => SstReader.Get(cfg, t, key, snap) == Err(e)
      case Ok(None) => SstReader.Get(cfg, t, key, snap) == Ok(None)
      case Ok(Some(h)) => SstReader.LoadBlock(cfg, t, h).Err? ==> SstReader.Get(cfg, t, key, snap) == Err(SstReader.LoadBlock(cfg, t, h).error)
    ensures Block.OpenBlock(cfg.crc, t.indexBytes).Err? ==>
      SstReader.LocateBlock(cfg, t, key) == Err(Block.OpenBlock(cfg.crc, t.indexBytes).error)
  {
    hide Bloom.Contains, SstReader.LoadBlock, SstReader.GetInBlock, Block.OpenBlock, Block.Seek;
  }

  /** A read of the store that no memtable answers reports the error of the first table
      that fails before one answers. */
  lemma StoreReports(origins: seq<StoreReads.Origin>, readers: seq<SstReader.Reader>, key: Key, snap: nat)
    requires |origins| == |readers| > 0
    ensures var first := SstReader.Get(origins[0].cfg, readers[0], key, snap);
      && (first.Err? ==> StoreReads.LookupTables(origins, readers, key, snap) == Err(first.error))
      && (first.Ok? && first.value.Some? ==> StoreReads.LookupTables(origins, readers, key, snap) == first)
      && (first == Ok(None) ==>
            StoreReads.LookupTables(origins, readers, key, snap) == StoreReads.LookupTables(origins[1..], readers[1..], key, snap))
  {
    hide SstReader.Get;
  }
}
