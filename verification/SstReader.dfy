/** The table reader: opening a file, scanning it whole or block by block, and
    point lookup through filter, index and block. */
module SstReader {
  import opened Bytes
  import opened Records
  import opened Block
  import opened SstFormat
  import opened SstWriter
  import Bloom

  datatype Reader = Reader(header: FileHeader, footer: Footer, indexBytes: seq<byte>, bloom: Option<Bloom.Filter>, file: seq<byte>)

  function ReadAt(file: seq<byte>, off: nat, len: nat): (r: Result<seq<byte>>)
    ensures r.Ok? ==> |r.value| == len
  {
    if off + len > |file| then Err(UnexpectedEof) else Ok(file[off..off + len])
  }

  function ReadFilter(file: seq<byte>, h: Handle): Result<Option<Bloom.Filter>> {
    if h.length == 0 then Ok(None)
    else
      match ReadAt(file, h.offset, h.length)
      case Err(e) => Err(e)
      case Ok(bytes) =>
        match Bloom.Decode(bytes)
        case Err(e) => Err(e)
        case Ok(f) => Ok(Some(f))
  }

  function LoadTable(cfg: Config, file: seq<byte>, header: FileHeader, footer: Footer): Result<Reader> {
    if (header.flags / ENCRYPTED % 2 == 1) != cfg.crypto.Sealed? then Err(InvalidFormat)
    else
      match ReadAt(file, footer.index.offset, footer.index.length)
      case Err(e) => Err(e)
      case Ok(index) =>
        match ReadFilter(file, footer.filter)
        case Err(e) => Err(e)
        case Ok(bloom) => Ok(Reader(header, footer, index, bloom, file))
  }

  /** Footer first, then header, then the index and the filter they point at. */
  function OpenTable(cfg: Config, file: seq<byte>): Result<Reader> {
    if |file| < FILE_HEADER_SIZE + FOOTER_SIZE then Err(InvalidFormat)
    else
      match DecodeFooter(cfg.crc, file[|file| - FOOTER_SIZE..])
      case Err(e) => Err(e)
      case Ok(footer) =>
        match DecodeHeader(cfg.crc, file[..FILE_HEADER_SIZE])
        case Err(e) => Err(e)
        case Ok(header) => LoadTable(cfg, file, header, footer)
  }

  function Unseal(cfg: Config, off: nat, disk: seq<byte>): Result<seq<byte>> {
    match cfg.crypto
    case Plain => Ok(disk)
    case Sealed(_, unseal, id) =>
      match unseal(id, off, disk)
      case None => Err(Corruption)
      case Some(plain) => Ok(plain)
  }

  function LoadBlock(cfg: Config, t: Reader, h: Handle): Result<Opened> {
    match ReadAt(t.file, h.offset, h.length)
    case Err(e) => Err(e)
    case Ok(disk) =>
      match Unseal(cfg, h.offset, disk)
      case Err(e) => Err(e)
      case Ok(plain) => OpenBlock(cfg.crc, plain)
  }

  function BlockRecords(cfg: Config, t: Reader, h: Handle): Result<seq<Rec>> {
    match LoadBlock(cfg, t, h)
    case Err(e) => Err(e)
    case Ok(b) => Ok(Iterate(b.records, 0, []))
  }

  function EntryRecords(cfg: Config, t: Reader, entry: seq<byte>): Result<seq<Rec>> {
    match DecodeHandle(entry)
    case Err(e) => Err(e)
    case Ok(h) => BlockRecords(cfg, t, h)
  }

  // ----- scanning -----

  function ScanEntries(cfg: Config, t: Reader, entries: seq<Rec>): Result<seq<Rec>> {
    if entries == [] then Ok([])
    else
      match ScanEntries(cfg, t, entries[..|entries| - 1])
      case Err(e) => Err(e)
      case Ok(out) =>
        match EntryRecords(cfg, t, entries[|entries| - 1].value)
        case Err(e) => Err(e)
        case Ok(rs) => Ok(out + rs)
  }

  /** Every record of the table, in order. */
  function Scan(cfg: Config, t: Reader): Result<seq<Rec>> {
    match OpenBlock(cfg.crc, t.indexBytes)
    case Err(e) => Err(e)
    case Ok(index) => ScanEntries(cfg, t, Iterate(index.records, 0, []))
  }

  lemma {:induction false} ScanStops(cfg: Config, t: Reader, entries: seq<Rec>, i: nat)
    requires i <= |entries| && ScanEntries(cfg, t, entries[..i]).Err?
    ensures ScanEntries(cfg, t, entries) == ScanEntries(cfg, t, entries[..i])
    decreases |entries|
  {
    hide EntryRecords;
    if i < |entries| {
      var front := entries[..|entries| - 1];
      assert front[..i] == entries[..i];
      ScanStops(cfg, t, front, i);
    } else {
      assert entries[..i] == entries;
    }
  }

  method ScanLoop(cfg: Config, t: Reader) returns (r: Result<seq<Rec>>)
    ensures r == Scan(cfg, t)
  {
    hide OpenBlock, Iterate, EntryRecords;
    match OpenBlock(cfg.crc, t.indexBytes) {
      case Err(e) =>
        return Err(e);
      case Ok(index) =>
        var iter := new BlockIter(index.records, 0);
        var entries := iter.Collect();
        var out: seq<Rec> := [];
        for i := 0 to |entries|
          invariant ScanEntries(cfg, t, entries[..i]) == Ok(out)
        {
          var rs := EntryRecords(cfg, t, entries[i].value);
          assert entries[..i + 1][..i] == entries[..i];
          if rs.Err? {
            ScanStops(cfg, t, entries, i + 1);
            return Err(rs.error);
          }
          out := out + rs.value;
        }
        assert entries[..|entries|] == entries;
        return Ok(out);
    }
  }

  // ----- streaming -----

  /** What a stream still yields: records, then the error that stops it, if any. */
  datatype Yielded = Yielded(recs: seq<Rec>, stop: Option<Error>)

  function Prepend(rs: seq<Rec>, y: Yielded): Yielded {
    Yielded(rs + y.recs, y.stop)
  }

  function Yield(cfg: Config, t: Reader, handles: seq<Handle>): Yielded {
    if handles == [] then Yielded([], None)
    else
      match BlockRecords(cfg, t, handles[0])
      case Err(e) => Yielded([], Some(e))
      case Ok(rs) => Prepend(rs, Yield(cfg, t, handles[1..]))
  }

  function Drop(handles: seq<Handle>, n: nat): seq<Handle> {
    if n <= |handles| then handles[n..] else []
  }

  /** One answer of a stream, given what it owed before and after. */
  predicate Delivers(before: Yielded, after: Yielded, r: Result<Option<Rec>>) {
    match r
    case Ok(None) => before == Yielded([], None)
    case Ok(Some(rec)) => before == Prepend([rec], after)
    case Err(e) => before == Yielded([], Some(e))
  }

  function DecodeHandles(entries: seq<Rec>): Result<seq<Handle>> {
    if entries == [] then Ok([])
    else
      match DecodeHandles(entries[..|entries| - 1])
      case Err(e) => Err(e)
      case Ok(hs) =>
        match DecodeHandle(entries[|entries| - 1].value)
        case Err(e) => Err(e)
        case Ok(h) => Ok(hs + [h])
  }

  /** All the handles a stream will visit. */
  function IndexHandles(cfg: Config, t: Reader): Result<seq<Handle>> {
    match OpenBlock(cfg.crc, t.indexBytes)
    case Err(e) => Err(e)
    case Ok(index) => DecodeHandles(Iterate(index.records, 0, []))
  }

  class TableStream {
    const cfg: Config
    const reader: Reader
    const handles: seq<Handle>
    var nextBlock: nat
    var current: seq<Rec>

    ghost function Pending(): Yielded
      reads this
    {
      Prepend(current, Yield(cfg, reader, Drop(handles, nextBlock)))
    }

    constructor (cfg: Config, reader: Reader, handles: seq<Handle>)
      ensures Pending() == Yield(cfg, reader, handles)
    {
      this.cfg, this.reader, this.handles := cfg, reader, handles;
      nextBlock, current := 0, [];
      new;
      assert handles[0..] == handles;
      NothingFirst(Yield(cfg, reader, handles));
    }

    /** Loads blocks until one has records; false at the end. */
    method Refill() returns (more: Result<bool>)
      requires current == []
      modifies this
      ensures more.Ok? ==> Pending() == old(Pending()) && more.value == (current != [])
      ensures more == Ok(false) ==> old(Pending()) == Yielded([], None)
      ensures more.Err? ==> old(Pending()) == Yielded([], Some(more.error))
    {
      hide BlockRecords;
      while nextBlock < |handles|
        invariant current == [] && Pending() == old(Pending())
        decreases |handles| - nextBlock
      {
        ghost var rest := handles[nextBlock..];
        var h := handles[nextBlock];
        assert rest[0] == h && rest[1..] == Drop(handles, nextBlock + 1);
        nextBlock := nextBlock + 1;
        NothingFirst(Yield(cfg, reader, rest));
        match BlockRecords(cfg, reader, h) {
          case Err(e) =>
            return Err(e);
          case Ok(rs) =>
            if rs != [] {
              current := rs;
              return Ok(true);
            }
        }
      }
      NothingFirst(Yield(cfg, reader, []));
      return Ok(false);
    }

    method NextRec() returns (r: Result<Option<Rec>>)
      modifies this
      ensures Delivers(old(Pending()), Pending(), r)
    {
      hide Yield, Drop;
      if current == [] {
        var more := Refill();
        if more.Err? {
          return Err(more.error);
        }
        if !more.value {
          return Ok(None);
        }
      }
      var rec := current[0];
      Assoc([rec], current[1..], Yield(cfg, reader, Drop(handles, nextBlock)).recs);
      assert current == [rec] + current[1..];
      current := current[1..];
      return Ok(Some(rec));
    }
  }

  lemma NothingFirst(y: Yielded)
    ensures Prepend([], y) == y
  {
    assert [] + y.recs == y.recs;
  }

  // ----- point lookup -----

  /** First record of the block with this key and a smaller sequence number. */
  function NextAfter(rs: seq<Rec>, key: Key, seqno: nat): (r: Option<Rec>)
    ensures r.Some? ==> r.value.key == key && r.value.seqno < seqno
  {
    if rs == [] then None
    else if rs[0].key == key && rs[0].seqno < seqno then Some(rs[0])
    else NextAfter(rs[1..], key, seqno)
  }

  /** From a candidate on, steps past versions that are too new. */
  function Settle(rs: seq<Rec>, key: Key, snap: nat, at: Option<Rec>): Option<Rec>
    decreases if at.Some? then at.value.seqno + 1 else 0
  {
    match at
    case None => None
    case Some(r) =>
      if r.key != key then None
      else if r.seqno <= snap then at
      else Settle(rs, key, snap, NextAfter(rs, key, r.seqno))
  }

  function LocateBlock(cfg: Config, t: Reader, key: Key): Result<Option<Handle>> {
    match OpenBlock(cfg.crc, t.indexBytes)
    case Err(e) => Err(e)
    case Ok(index) =>
      match Seek(index, key)
      case None => Ok(None)
      case Some(entry) =>
        match DecodeHandle(entry.value)
        case Err(e) => Err(e)
        case Ok(h) => Ok(Some(h))
  }

  function GetInBlock(b: Opened, key: Key, snap: nat): Option<Rec> {
    Settle(Iterate(b.records, 0, []), key, snap, Seek(b, key))
  }

  function Get(cfg: Config, t: Reader, key: Key, snap: nat): Result<Option<Rec>> {
    if t.bloom.Some? && !Bloom.Contains(cfg.hash, t.bloom.value, key) then Ok(None)
    else
      match LocateBlock(cfg, t, key)
      case Err(e) => Err(e)
      case Ok(None) => Ok(None)
      case Ok(Some(h)) =>
        match LoadBlock(cfg, t, h)
        case Err(e) => Err(e)
        case Ok(b) => Ok(GetInBlock(b, key, snap))
  }

  /** The skipping loop of a lookup. */
  method GetLoop(b: Opened, key: Key, snap: nat) returns (r: Option<Rec>)
    ensures r == GetInBlock(b, key, snap)
  {
    hide Seek, Iterate, NextAfter;
    var iter := new BlockIter(b.records, 0);
    var rs := iter.Collect();
    var at := SeekLoop(b, key);
    while at.Some?
      invariant Settle(rs, key, snap, at) == GetInBlock(b, key, snap)
      decreases if at.Some? then at.value.seqno + 1 else 0
    {
      if at.value.key != key {
        return None;
      }
      if at.value.seqno <= snap {
        return at;
      }
      at := NextAfter(rs, key, at.value.seqno);
    }
    return None;
  }
}
