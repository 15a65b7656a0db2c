/** Data blocks: prefix-compressed records with restart points, the builder that
    writes them and the reader that iterates and seeks. */
module Block {
  import opened Bytes
  import opened Records
  import opened Varint

  const RESTART_INTERVAL: nat := 16
  const TRAILER: nat := 8

  // ----- layout -----

  function OpByte(op: RecordOp): byte {
    match op
    case Live => 0
    case Tombstone => 1
  }

  function OpFromByte(b: byte): Option<RecordOp> {
    if b == 0 then Some(Live) else if b == 1 then Some(Tombstone) else None
  }

  /** The lengths and the sequence number a record field can hold. */
  predicate Fits(r: Rec) {
    |r.key| < U32_LIMIT && |r.value| < U32_LIMIT && r.seqno < U64_LIMIT
  }

  predicate AllFit(rs: seq<Rec>) {
    forall i :: 0 <= i < |rs| ==> Fits(rs[i])
  }

  /** Length of the longest common prefix. */
  function SharedPrefix(a: Key, b: Key): (n: nat)
    ensures n <= |a| && n <= |b| && a[..n] == b[..n]
    ensures n < |a| && n < |b| ==> a[n] != b[n]
  {
    if a == [] || b == [] || a[0] != b[0] then 0
    else
      var n := SharedPrefix(a[1..], b[1..]);
      assert a[..n + 1] == [a[0]] + a[1..][..n] && b[..n + 1] == [b[0]] + b[1..][..n];
      n + 1
  }

  /** Three varints; a length that does not fit its field is cut to 32 bits. */
  function HeadBytes(shared: nat, unshared: nat, valueLen: nat): seq<byte> {
    Leb(shared % U32_LIMIT) + (Leb(unshared % U32_LIMIT) + Leb(valueLen % U32_LIMIT))
  }

  function TailBytes(r: Rec, shared: nat): seq<byte>
    requires shared <= |r.key|
  {
    ToLe(r.seqno, 8) + ([OpByte(r.op)] + (r.key[shared..] + r.value))
  }

  function RecordBytes(r: Rec, shared: nat): seq<byte>
    requires shared <= |r.key|
  {
    HeadBytes(shared, |r.key| - shared, |r.value|) + TailBytes(r, shared)
  }

  /** Every 16th record stores its whole key; the others drop what they share with
      the record before. */
  function SharedAt(rs: seq<Rec>, i: nat): (n: nat)
    requires i < |rs|
    ensures n <= |rs[i].key|
  {
    if i % RESTART_INTERVAL == 0 then 0 else SharedPrefix(rs[i - 1].key, rs[i].key)
  }

  function Body(rs: seq<Rec>): seq<byte> {
    if rs == [] then []
    else Body(rs[..|rs| - 1]) + RecordBytes(rs[|rs| - 1], SharedAt(rs, |rs| - 1))
  }

  function Offset(rs: seq<Rec>, i: nat): nat
    requires i <= |rs|
  {
    |Body(rs[..i])|
  }

  function RestartCount(n: nat): nat {
    (n + RESTART_INTERVAL - 1) / RESTART_INTERVAL
  }

  function Restarts(rs: seq<Rec>): (offsets: seq<nat>)
    ensures |offsets| == RestartCount(|rs|)
    ensures forall k :: 0 <= k < |offsets| ==> offsets[k] == Offset(rs, RESTART_INTERVAL * k)
  {
    seq(RestartCount(|rs|), k requires 0 <= k < RestartCount(|rs|) => Offset(rs, RESTART_INTERVAL * k))
  }

  function RestartBytes(offsets: seq<nat>): (s: seq<byte>)
    ensures |s| == 4 * |offsets|
  {
    if offsets == [] then [] else RestartBytes(offsets[..|offsets| - 1]) + ToLe(offsets[|offsets| - 1] % U32_LIMIT, 4)
  }

  /** A finished block without its checksum. */
  function Unsigned(rs: seq<Rec>): seq<byte> {
    Body(rs) + (RestartBytes(Restarts(rs)) + ToLe(RestartCount(|rs|), 4))
  }

  function BlockBytes(crc: Checksum, rs: seq<Rec>): seq<byte> {
    Unsigned(rs) + ToLe(crc(Unsigned(rs)), 4)
  }

  /** Size estimate that decides when a block is full. */
  function EstimatedSize(rs: seq<Rec>): nat {
    |Body(rs)| + 4 * RestartCount(|rs|) + TRAILER
  }

  lemma EstimateIsExact(crc: Checksum, rs: seq<Rec>)
    ensures |BlockBytes(crc, rs)| == EstimatedSize(rs)
  {
  }

  // ----- builder -----

  method SharedPrefixLen(a: Key, b: Key) returns (n: nat)
    ensures n == SharedPrefix(a, b)
  {
    var limit := Min(|a|, |b|);
    n := 0;
    while n < limit && a[n] == b[n]
      invariant n <= limit && a[..n] == b[..n]
    {
      n := n + 1;
    }
    PrefixIsUnique(a, b, n);
  }

  lemma {:induction false} PrefixIsUnique(a: Key, b: Key, n: nat)
    requires n <= |a| && n <= |b| && a[..n] == b[..n] && (n < |a| && n < |b| ==> a[n] != b[n])
    ensures n == SharedPrefix(a, b)
  {
    if n > 0 {
      assert a[0] == a[..n][0] == b[..n][0] == b[0];
      assert a[1..][..n - 1] == a[..n][1..] == b[..n][1..] == b[1..][..n - 1];
      PrefixIsUnique(a[1..], b[1..], n - 1);
    }
  }

  class BlockBuilder {
    var buffer: seq<byte>
    var restarts: seq<nat>
    var lastKey: Key
    var counter: nat
    ghost var recs: seq<Rec>

    ghost predicate Valid()
      reads this
    {
      && buffer == Body(recs)
      && restarts == Restarts(recs)
      && lastKey == (if recs == [] then [] else recs[|recs| - 1].key)
      && counter == (if recs == [] then RESTART_INTERVAL else (|recs| - 1) % RESTART_INTERVAL + 1)
    }

    constructor ()
      ensures Valid() && recs == []
    {
      buffer, restarts, lastKey, counter := [], [], [], RESTART_INTERVAL;
      recs := [];
    }

    method Add(key: Key, value: seq<byte>, seqno: nat, op: RecordOp)
      requires Valid()
      modifies this
      ensures Valid() && recs == old(recs) + [Rec(key, seqno, op, value)]
    {
      hide Body, SharedPrefix, RecordBytes, Restarts, RestartCount;
      ghost var was := recs;
      ghost var now := recs + [Rec(key, seqno, op, value)];
      RestartsAppend(was, Rec(key, seqno, op, value));
      var shared: nat;
      if counter < RESTART_INTERVAL {
        shared := SharedPrefixLen(lastKey, key);
      } else {
        restarts := restarts + [|buffer|];
        counter := 0;
        shared := 0;
      }
      assert shared == SharedAt(now, |was|);
      buffer := buffer + RecordBytes(Rec(key, seqno, op, value), shared);
      BodyAppend(was, Rec(key, seqno, op, value));
      lastKey := key;
      counter := counter + 1;
      recs := now;
    }

    method IsEmpty() returns (empty: bool)
      requires Valid()
      ensures empty <==> recs == []
    {
      hide RecordBytes, SharedAt;
      if recs != [] {
        RecordIsNotEmpty(recs[|recs| - 1], SharedAt(recs, |recs| - 1));
      }
      empty := buffer == [];
    }

    method Size() returns (n: nat)
      requires Valid()
      ensures n == EstimatedSize(recs)
    {
      n := |buffer| + |restarts| * 4 + TRAILER;
    }

    /** Emits the block and empties the builder. */
    method Finish(crc: Checksum) returns (out: seq<byte>)
      requires Valid()
      modifies this
      ensures out == BlockBytes(crc, old(recs))
      ensures Valid() && recs == []
    {
      hide Body, Restarts, RestartBytes, RestartCount, ToLe;
      ghost var rs := recs;
      out := AppendRestarts(buffer, restarts);
      RestartsCount(rs);
      Assoc(Body(rs), RestartBytes(restarts), ToLe(|restarts|, 4));
      out := out + ToLe(|restarts|, 4);
      out := out + ToLe(crc(out), 4);
      buffer, restarts, lastKey, counter := [], [], [], RESTART_INTERVAL;
      recs := [];
      EmptyBlock();
    }
  }

  /** The restart array goes after the records, oldest restart first. */
  method AppendRestarts(body: seq<byte>, restarts: seq<nat>) returns (out: seq<byte>)
    ensures out == body + RestartBytes(restarts)
  {
    hide ToLe;
    out := body;
    assert restarts[..0] == [] && body + [] == body;
    for i := 0 to |restarts|
      invariant out == body + RestartBytes(restarts[..i])
    {
      var next := ToLe(restarts[i] % U32_LIMIT, 4);
      assert restarts[..i + 1][..i] == restarts[..i];
      Assoc(body, RestartBytes(restarts[..i]), next);
      out := out + next;
    }
    assert restarts[..|restarts|] == restarts;
  }

  lemma RestartsCount(rs: seq<Rec>)
    ensures |Restarts(rs)| == RestartCount(|rs|)
  {
    hide Body;
  }

  lemma EmptyBlock()
    ensures Body([]) == [] && Restarts([]) == []
  {
  }

  lemma BodyAppend(rs: seq<Rec>, r: Rec)
    ensures Body(rs + [r]) == Body(rs) + RecordBytes(r, SharedAt(rs + [r], |rs|))
  {
    hide RecordBytes, SharedAt;
    assert (rs + [r])[..|rs|] == rs;
  }

  lemma RestartsAppend(rs: seq<Rec>, r: Rec)
    ensures Restarts(rs + [r]) == if |rs| % RESTART_INTERVAL == 0 then Restarts(rs) + [|Body(rs)|] else Restarts(rs)
  {
    hide Body;
    var now := rs + [r];
    forall k: nat | RESTART_INTERVAL * k <= |rs|
      ensures Offset(now, RESTART_INTERVAL * k) == Offset(rs, RESTART_INTERVAL * k)
    {
      assert now[..RESTART_INTERVAL * k] == rs[..RESTART_INTERVAL * k];
    }
    assert rs[..|rs|] == rs;
  }

  lemma RecordIsNotEmpty(r: Rec, shared: nat)
    requires shared <= |r.key|
    ensures RecordBytes(r, shared) != []
  {
    hide HeadBytes;
  }

  // ----- reader -----

  /** A block whose checksum holds, cut into its records and its restart array. */
  datatype Opened = Opened(records: seq<byte>, restartBytes: seq<byte>)

  function OpenBlock(crc: Checksum, bytes: seq<byte>): Result<Opened> {
    if |bytes| < TRAILER then Err(InvalidFormat)
    else if FromLe(bytes[|bytes| - 4..]) != crc(bytes[..|bytes| - 4]) then Err(ChecksumMismatch)
    else
      var n := 4 * FromLe(bytes[|bytes| - 8..|bytes| - 4]);
      if n + TRAILER > |bytes| then Err(InvalidFormat)
      else
        var end := |bytes| - TRAILER - n;
        Ok(Opened(bytes[..end], bytes[end..|bytes| - TRAILER]))
  }

  datatype Head = Head(shared: nat, unshared: nat, valueLen: nat, size: nat)

  function ParseHead(rest: seq<byte>): (h: Option<Head>)
    ensures h.Some? ==> h.value.size <= |rest|
  {
    match DecodeU32(rest)
    case Err(_) => None
    case Ok((shared, c1)) =>
      match DecodeU32(rest[c1..])
      case Err(_) => None
      case Ok((unshared, c2)) =>
        match DecodeU32(rest[c1..][c2..])
        case Err(_) => None
        case Ok((valueLen, c3)) => Some(Head(shared, unshared, valueLen, c1 + c2 + c3))
  }

  datatype Parsed = Parsed(shared: nat, suffix: Key, seqno: nat, op: RecordOp, value: seq<byte>, size: nat)

  /** Decodes the record at the front of `rest`. */
  function ParseRecord(rest: seq<byte>): (p: Option<Parsed>)
    ensures p.Some? ==> 0 < p.value.size <= |rest|
  {
    match ParseHead(rest)
    case None => None
    case Some(h) =>
      var keyStart := h.size + 9;
      var keyEnd := keyStart + h.unshared;
      var valEnd := keyEnd + h.valueLen;
      if |rest| < keyStart || OpFromByte(rest[h.size + 8]).None? || valEnd > |rest| then None
      else
        Some(Parsed(h.shared, rest[keyStart..keyEnd], FromLe(rest[h.size..h.size + 8]),
                    OpFromByte(rest[h.size + 8]).value, rest[keyEnd..valEnd], valEnd))
  }

  /** One iteration step: the record at the cursor, and where the next one starts. */
  function NextRecord(records: seq<byte>, cursor: nat, lastKey: Key): (n: Option<(Rec, nat)>)
    ensures n.Some? ==> cursor < n.value.1 <= |records|
  {
    if cursor >= |records| then None
    else
      match ParseRecord(records[cursor..])
      case None => None
      case Some(p) =>
        Some((Rec(lastKey[..Min(p.shared, |lastKey|)] + p.suffix, p.seqno, p.op, p.value), cursor + p.size))
  }

  /** All the records an iterator yields from a cursor. */
  function Iterate(records: seq<byte>, cursor: nat, lastKey: Key): seq<Rec>
    decreases |records| - cursor
  {
    match NextRecord(records, cursor, lastKey)
    case None => []
    case Some((r, next)) => [r] + Iterate(records, next, r.key)
  }

  function KeyAtRestart(records: seq<byte>, off: nat): Option<Key> {
    if off >= |records| then None
    else
      var rest := records[off..];
      match ParseHead(rest)
      case None => None
      case Some(h) =>
        if h.shared != 0 || h.size + 9 + h.unshared > |rest| then None
        else Some(rest[h.size + 9..h.size + 9 + h.unshared])
  }

  function RestartOffset(b: Opened, i: nat): nat
    requires 4 * i + 4 <= |b.restartBytes|
  {
    FromLe(b.restartBytes[4 * i..4 * i + 4])
  }

  /** The restart the binary search settles on; `None` when it meets a damaged record. */
  function SearchRestarts(b: Opened, target: Key, lo: nat, hi: nat): (l: Option<nat>)
    requires lo < hi <= |b.restartBytes| / 4
    ensures l.Some? ==> lo <= l.value < hi
    decreases hi - lo
  {
    if lo + 1 >= hi then Some(lo)
    else
      var mid := lo + (hi - lo) / 2;
      match KeyAtRestart(b.records, RestartOffset(b, mid))
      case None => None
      case Some(k) =>
        if k == target then Some(mid)
        else if Less(k, target) then SearchRestarts(b, target, mid, hi)
        else SearchRestarts(b, target, lo, mid)
  }

  /** Index of the first record at or after `from` whose key is not below the target. */
  function FirstAtLeast(rs: seq<Rec>, target: Key, from: nat): (i: nat)
    requires from <= |rs|
    ensures from <= i <= |rs|
    ensures forall j :: from <= j < i ==> Less(rs[j].key, target)
    ensures i < |rs| ==> !Less(rs[i].key, target)
    decreases |rs| - from
  {
    if from == |rs| || !Less(rs[from].key, target) then from else FirstAtLeast(rs, target, from + 1)
  }

  function FirstRecord(rs: seq<Rec>, target: Key): Option<Rec> {
    var i := FirstAtLeast(rs, target, 0);
    if i < |rs| then Some(rs[i]) else None
  }

  function Seek(b: Opened, target: Key): Option<Rec> {
    var n := |b.restartBytes| / 4;
    if n == 0 then None
    else
      match SearchRestarts(b, target, 0, n)
      case None => None
      case Some(l) => FirstRecord(Iterate(b.records, RestartOffset(b, l), []), target)
  }

  class BlockIter {
    const records: seq<byte>
    var cursor: nat
    var lastKey: Key

    constructor (records: seq<byte>, cursor: nat)
      ensures this.records == records && this.cursor == cursor && lastKey == []
    {
      this.records := records;
      this.cursor := cursor;
      lastKey := [];
    }

    method Next() returns (r: Option<Rec>)
      modifies this
      ensures r.None? ==> Iterate(records, old(cursor), old(lastKey)) == []
      ensures r.Some? ==>
        && Iterate(records, old(cursor), old(lastKey)) == [r.value] + Iterate(records, cursor, lastKey)
        && old(cursor) < cursor <= |records|
    {
      match NextRecord(records, cursor, lastKey) {
        case None => return None;
        case Some((rec, next)) =>
          cursor, lastKey := next, rec.key;
          return Some(rec);
      }
    }

    /** Every record left. */
    method Collect() returns (out: seq<Rec>)
      modifies this
      ensures out == Iterate(records, old(cursor), old(lastKey))
    {
      hide NextRecord;
      out := [];
      ghost var goal := Iterate(records, cursor, lastKey);
      while true
        invariant out + Iterate(records, cursor, lastKey) == goal
        decreases |records| - cursor
      {
        ghost var before := Iterate(records, cursor, lastKey);
        var r := Next();
        if r.None? {
          assert out + [] == out;
          return;
        }
        Assoc(out, [r.value], Iterate(records, cursor, lastKey));
        out := out + [r.value];
      }
    }

    /** The first record left whose key is not below the target. */
    method FindFrom(target: Key) returns (found: Option<Rec>)
      modifies this
      ensures found == FirstRecord(Iterate(records, old(cursor), old(lastKey)), target)
    {
      hide NextRecord;
      ghost var all := Iterate(records, cursor, lastKey);
      ghost var k := 0;
      while true
        invariant k <= |all| && all[k..] == Iterate(records, cursor, lastKey)
        invariant forall j :: 0 <= j < k ==> Less(all[j].key, target)
        decreases |records| - cursor
      {
        var r := Next();
        if r.None? {
          return None;
        }
        assert all[k..][0] == all[k] == r.value;
        if !Less(r.value.key, target) {
          return r;
        }
        assert all[k..][1..] == all[k + 1..];
        k := k + 1;
      }
    }
  }

  /** The seek loop: binary search over restarts, then a linear scan. */
  method SeekLoop(b: Opened, target: Key) returns (r: Option<Rec>)
    ensures r == Seek(b, target)
  {
    hide KeyAtRestart, RestartOffset, Iterate, FirstRecord;
    var n := |b.restartBytes| / 4;
    if n == 0 {
      return None;
    }
    var lo, hi := 0, n;
    while lo + 1 < hi
      invariant 0 <= lo < hi <= n
      invariant SearchRestarts(b, target, lo, hi) == SearchRestarts(b, target, 0, n)
      decreases hi - lo
    {
      var mid := lo + (hi - lo) / 2;
      match KeyAtRestart(b.records, RestartOffset(b, mid)) {
        case None =>
          return None;
        case Some(k) =>
          if k == target {
            lo, hi := mid, mid + 1;
          } else if Less(k, target) {
            lo := mid;
          } else {
            hi := mid;
          }
      }
    }
    var iter := new BlockIter(b.records, RestartOffset(b, lo));
    r := iter.FindFrom(target);
  }
}
