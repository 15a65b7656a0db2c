/** What a finished block gives back: iteration is the identity, restarts are where
    they should be, and exactly when a seek finds the first record it should. */
module BlockTheorems {
  import opened Bytes
  import opened Records
  import opened Varint
  import opened Block

  /** Everything in the block fits the fields that describe it. */
  predicate BlockFits(rs: seq<Rec>) {
    AllFit(rs) && EstimatedSize(rs) < U32_LIMIT
  }

  /** The reader's view of a finished block. */
  function Written(rs: seq<Rec>): Opened {
    Opened(Body(rs), RestartBytes(Restarts(rs)))
  }

  // ----- one record -----

  lemma ParseHeadBytes(shared: u32, unshared: u32, valueLen: u32, rest: seq<byte>)
    ensures var bytes := HeadBytes(shared, unshared, valueLen);
      ParseHead(bytes + rest) == Some(Head(shared, unshared, valueLen, |bytes|))
  {
    hide DecodeU32, Leb;
    var a, b, c := Leb(shared), Leb(unshared), Leb(valueLen);
    var all := HeadBytes(shared, unshared, valueLen) + rest;
    assert all == a + (b + (c + rest));
    RoundTripU32(shared, b + (c + rest));
    assert all[|a|..] == b + (c + rest);
    RoundTripU32(unshared, c + rest);
    assert all[|a|..][|b|..] == c + rest;
    RoundTripU32(valueLen, rest);
  }

  lemma TailSlices(head: seq<byte>, r: Rec, shared: nat, rest: seq<byte>)
    requires shared <= |r.key|
    ensures var all := head + TailBytes(r, shared) + rest;
      var keyStart := |head| + 9;
      var keyEnd := keyStart + |r.key| - shared;
      var valEnd := keyEnd + |r.value|;
      && valEnd == |head + TailBytes(r, shared)| <= |all|
      && all[|head|..|head| + 8] == ToLe(r.seqno, 8)
      && all[|head| + 8] == OpByte(r.op)
      && all[keyStart..keyEnd] == r.key[shared..]
      && all[keyEnd..valEnd] == r.value
  {
    hide ToLe, OpByte;
    var n, o, k, v := ToLe(r.seqno, 8), [OpByte(r.op)], r.key[shared..], r.value;
    var all := head + TailBytes(r, shared) + rest;
    assert all == head + n + o + k + v + rest;
  }

  lemma OpRoundTrip(op: RecordOp)
    ensures OpFromByte(OpByte(op)) == Some(op)
  {
  }

  lemma ParseRecordBytes(r: Rec, shared: nat, rest: seq<byte>)
    requires Fits(r) && shared <= |r.key|
    ensures ParseRecord(RecordBytes(r, shared) + rest) ==
      Some(Parsed(shared, r.key[shared..], r.seqno, r.op, r.value, |RecordBytes(r, shared)|))
  {
    hide ParseHead, HeadBytes, TailBytes, ToLe, FromLe, OpByte, OpFromByte;
    var head := HeadBytes(shared, |r.key| - shared, |r.value|);
    var tail := TailBytes(r, shared);
    Assoc(head, tail, rest);
    ParseHeadBytes(shared, |r.key| - shared, |r.value|, tail + rest);
    TailSlices(head, r, shared, rest);
    OpRoundTrip(r.op);
    Pow256Values();
    LeRoundTrip(r.seqno, 8);
  }

  /** The key is put back together when the iterator holds the shared prefix. */
  lemma NextOverRecord(pre: seq<byte>, r: Rec, shared: nat, post: seq<byte>, last: Key)
    requires Fits(r) && shared <= |r.key| && shared <= |last| && last[..shared] == r.key[..shared]
    ensures var bytes := RecordBytes(r, shared);
      NextRecord(pre + (bytes + post), |pre|, last) == Some((r, |pre| + |bytes|))
  {
    hide ParseRecord, RecordBytes;
    var records := pre + (RecordBytes(r, shared) + post);
    assert records[|pre|..] == RecordBytes(r, shared) + post;
    ParseRecordBytes(r, shared, post);
    assert r.key == r.key[..shared] + r.key[shared..];
  }

  // ----- the body from a record on -----

  /** The bytes of record `i` and everything after it. */
  function BodyFrom(rs: seq<Rec>, i: nat): seq<byte>
    requires i <= |rs|
    decreases |rs| - i
  {
    if i == |rs| then [] else RecordBytes(rs[i], SharedAt(rs, i)) + BodyFrom(rs, i + 1)
  }

  lemma SharedAtPrefix(rs: seq<Rec>, i: nat, n: nat)
    requires i < n <= |rs|
    ensures SharedAt(rs[..n], i) == SharedAt(rs, i)
  {
  }

  lemma BodyStep(rs: seq<Rec>, i: nat)
    requires i < |rs|
    ensures Body(rs[..i + 1]) == Body(rs[..i]) + RecordBytes(rs[i], SharedAt(rs, i))
  {
    hide RecordBytes, SharedAt;
    assert rs[..i + 1][..i] == rs[..i];
    SharedAtPrefix(rs, i, i + 1);
  }

  lemma {:induction false} BodySplit(rs: seq<Rec>, i: nat)
    requires i <= |rs|
    ensures Body(rs) == Body(rs[..i]) + BodyFrom(rs, i)
    decreases |rs| - i
  {
    hide RecordBytes, SharedAt;
    if i == |rs| {
      assert rs[..i] == rs;
    } else {
      BodySplit(rs, i + 1);
      BodyStep(rs, i);
      Assoc(Body(rs[..i]), RecordBytes(rs[i], SharedAt(rs, i)), BodyFrom(rs, i + 1));
    }
  }

  /** Iterating from record `i` with the right running key gives the rest of the list. */
  lemma {:induction false} IterateFrom(rs: seq<Rec>, i: nat, last: Key)
    requires AllFit(rs) && i <= |rs|
    requires i % RESTART_INTERVAL == 0 || last == rs[i - 1].key
    ensures Iterate(Body(rs), Offset(rs, i), last) == rs[i..]
    decreases |rs| - i
  {
    hide RecordBytes, NextRecord, Body, Fits;
    BodySplit(rs, i);
    if i == |rs| {
      assert NextRecord(Body(rs), |Body(rs)|, last) == None by { EndOfRecords(Body(rs), last); }
    } else {
      var pre, post := Body(rs[..i]), BodyFrom(rs, i + 1);
      NextOverRecord(pre, rs[i], SharedAt(rs, i), post, last);
      BodyStep(rs, i);
      IterateFrom(rs, i + 1, rs[i].key);
      assert rs[i..] == [rs[i]] + rs[i + 1..];
    }
  }

  lemma EndOfRecords(records: seq<byte>, last: Key)
    ensures NextRecord(records, |records|, last) == None
  {
  }

  /** Iterating a finished block returns every record unchanged and in order. */
  lemma IterationRoundTrips(rs: seq<Rec>)
    requires AllFit(rs)
    ensures Iterate(Body(rs), 0, []) == rs
  {
    IterateFrom(rs, 0, []);
    assert rs[..0] == [];
  }

  // ----- opening -----

  lemma BlockSlices(body: seq<byte>, restarts: seq<byte>, count: seq<byte>, sum: seq<byte>)
    requires |count| == 4 && |sum| == 4
    ensures var bytes := body + (restarts + count) + sum;
      && bytes[|bytes| - 4..] == sum && bytes[..|bytes| - 4] == body + (restarts + count)
      && bytes[|bytes| - 8..|bytes| - 4] == count
      && bytes[..|body|] == body && bytes[|body|..|bytes| - 8] == restarts
  {
  }

  lemma OpenFinished(crc: Checksum, rs: seq<Rec>)
    requires EstimatedSize(rs) < U32_LIMIT
    ensures OpenBlock(crc, BlockBytes(crc, rs)) == Ok(Written(rs))
  {
    hide Body, RestartBytes, Restarts, ToLe, FromLe;
    Pow256Values();
    BlockSlices(Body(rs), RestartBytes(Restarts(rs)), ToLe(RestartCount(|rs|), 4), ToLe(crc(Unsigned(rs)), 4));
    LeRoundTrip(RestartCount(|rs|), 4);
    LeRoundTrip(crc(Unsigned(rs)), 4);
  }

  // ----- restarts -----

  lemma {:induction false} RestartBytesAt(offsets: seq<nat>, i: nat)
    requires i < |offsets| && offsets[i] < U32_LIMIT
    ensures FromLe(RestartBytes(offsets)[4 * i..4 * i + 4]) == offsets[i]
  {
    hide ToLe, FromLe;
    var front, last := offsets[..|offsets| - 1], ToLe(offsets[|offsets| - 1] % U32_LIMIT, 4);
    if i < |front| {
      RestartBytesAt(front, i);
      assert RestartBytes(offsets)[4 * i..4 * i + 4] == RestartBytes(front)[4 * i..4 * i + 4];
    } else {
      assert RestartBytes(offsets)[4 * i..4 * i + 4] == last;
      Pow256Values();
      LeRoundTrip(offsets[i], 4);
    }
  }

  /** Restart `k` points at record 16k, which stores its key in full. */
  lemma RestartLands(rs: seq<Rec>, k: nat)
    requires BlockFits(rs) && RESTART_INTERVAL * k < |rs|
    ensures 4 * k + 4 <= |Written(rs).restartBytes| && RestartOffset(Written(rs), k) == Offset(rs, RESTART_INTERVAL * k)
    ensures SharedAt(rs, RESTART_INTERVAL * k) == 0
    ensures KeyAtRestart(Body(rs), Offset(rs, RESTART_INTERVAL * k)) == Some(rs[RESTART_INTERVAL * k].key)
  {
    hide Body, RecordBytes, RestartBytes, ParseHead, ParseRecord, Fits, HeadBytes, TailBytes;
    var i := RESTART_INTERVAL * k;
    BodySplit(rs, i);
    RestartBytesAt(Restarts(rs), k);
    assert Body(rs)[Offset(rs, i)..] == BodyFrom(rs, i);
    KeyAtFront(rs[i], BodyFrom(rs, i + 1));
  }

  lemma KeyAtFront(r: Rec, rest: seq<byte>)
    requires Fits(r)
    ensures KeyAtRestart(RecordBytes(r, 0) + rest, 0) == Some(r.key) && |RecordBytes(r, 0)| > 0
  {
    hide ParseHead, HeadBytes, TailBytes, ToLe, OpByte;
    var head, tail := HeadBytes(0, |r.key|, |r.value|), TailBytes(r, 0);
    var all := RecordBytes(r, 0) + rest;
    Assoc(head, tail, rest);
    ParseHeadBytes(0, |r.key|, |r.value|, tail + rest);
    TailSlices(head, r, 0, rest);
    assert all[0..] == all && r.key[0..] == r.key;
  }

  // ----- seeking -----

  predicate KeysSorted(rs: seq<Rec>) {
    forall i, j :: 0 <= i < j < |rs| ==> !Less(rs[j].key, rs[i].key)
  }

  lemma SortedKeys(rs: seq<Rec>)
    requires Sorted(rs)
    ensures KeysSorted(rs)
  {
    forall i, j | 0 <= i < j < |rs| ensures !Less(rs[j].key, rs[i].key) {
      assert !Before(rs[j], rs[i]);
    }
  }

  /** The keys stored at the restarts. */
  function RestartKeys(rs: seq<Rec>): (keys: seq<Key>)
    ensures |keys| == RestartCount(|rs|) && forall k :: 0 <= k < |keys| ==> keys[k] == rs[RESTART_INTERVAL * k].key
  {
    seq(RestartCount(|rs|), k requires 0 <= k < RestartCount(|rs|) => rs[RESTART_INTERVAL * k].key)
  }

  /** The restart the search settles on, read off the keys. */
  function Landing(keys: seq<Key>, target: Key, lo: nat, hi: nat): (l: nat)
    requires lo < hi <= |keys|
    ensures lo <= l < hi
    decreases hi - lo
  {
    if lo + 1 >= hi then lo
    else
      var mid := lo + (hi - lo) / 2;
      if keys[mid] == target then mid
      else if Less(keys[mid], target) then Landing(keys, target, mid, hi)
      else Landing(keys, target, lo, mid)
  }

  function Land(rs: seq<Rec>, target: Key): (l: nat)
    ensures rs != [] ==> RESTART_INTERVAL * l < |rs|
    ensures rs == [] ==> l == 0
  {
    if rs == [] then 0 else Landing(RestartKeys(rs), target, 0, RestartCount(|rs|))
  }

  /** The position a seek comes to rest at, |rs| when it finds nothing. */
  function SeekIndex(rs: seq<Rec>, target: Key): (i: nat)
    ensures i <= |rs|
  {
    FirstAtLeast(rs, target, RESTART_INTERVAL * Land(rs, target))
  }

  lemma {:induction false} SearchIsLanding(rs: seq<Rec>, target: Key, lo: nat, hi: nat)
    requires BlockFits(rs) && lo < hi <= RestartCount(|rs|)
    ensures SearchRestarts(Written(rs), target, lo, hi) == Some(Landing(RestartKeys(rs), target, lo, hi))
    decreases hi - lo
  {
    hide KeyAtRestart, RestartOffset, Body, RestartBytes, BlockFits, Offset, Less;
    if lo + 1 < hi {
      var mid := lo + (hi - lo) / 2;
      RestartLands(rs, mid);
      var k := RestartKeys(rs)[mid];
      if k == target {
      } else if Less(k, target) {
        SearchIsLanding(rs, target, mid, hi);
      } else {
        SearchIsLanding(rs, target, lo, mid);
      }
    }
  }

  lemma {:induction false} FirstInSuffix(rs: seq<Rec>, target: Key, k: nat, from: nat)
    requires k <= from <= |rs|
    ensures FirstAtLeast(rs[k..], target, from - k) + k == FirstAtLeast(rs, target, from)
    decreases |rs| - from
  {
    if from < |rs| && Less(rs[from].key, target) {
      FirstInSuffix(rs, target, k, from + 1);
    }
  }

  lemma SeekUnfold(b: Opened, target: Key, l: nat)
    requires l < |b.restartBytes| / 4 && SearchRestarts(b, target, 0, |b.restartBytes| / 4) == Some(l)
    ensures Seek(b, target) == FirstRecord(Iterate(b.records, RestartOffset(b, l), []), target)
  {
    hide SearchRestarts, FirstRecord, Iterate, RestartOffset;
  }

  function At(rs: seq<Rec>, i: nat): Option<Rec> {
    if i < |rs| then Some(rs[i]) else None
  }

  lemma ScanFromRestart(rs: seq<Rec>, target: Key, at: nat)
    requires AllFit(rs) && at <= |rs| && at % RESTART_INTERVAL == 0
    ensures FirstRecord(Iterate(Body(rs), Offset(rs, at), []), target) == At(rs, FirstAtLeast(rs, target, at))
  {
    hide Body, Iterate, Offset, AllFit, FirstAtLeast;
    IterateFrom(rs, at, []);
    FirstInSuffix(rs, target, at, at);
  }

  lemma SearchWritten(rs: seq<Rec>, target: Key)
    requires BlockFits(rs) && rs != []
    ensures var b, l := Written(rs), Land(rs, target);
      l < |b.restartBytes| / 4 && SearchRestarts(b, target, 0, |b.restartBytes| / 4) == Some(l)
  {
    hide SearchRestarts, Body, RestartBytes, Landing, RestartKeys, BlockFits;
    SearchIsLanding(rs, target, 0, RestartCount(|rs|));
  }

  lemma SeekFromRestart(rs: seq<Rec>, target: Key, l: nat)
    requires BlockFits(rs) && RESTART_INTERVAL * l < |rs| && 4 * l + 4 <= |Written(rs).restartBytes|
    ensures var b := Written(rs);
      FirstRecord(Iterate(b.records, RestartOffset(b, l), []), target) == At(rs, FirstAtLeast(rs, target, RESTART_INTERVAL * l))
  {
    hide Body, Iterate, Offset, AllFit, FirstAtLeast, FirstRecord, EstimatedSize, RestartBytes, RestartOffset, At, Restarts, KeyAtRestart;
    RestartLands(rs, l);
    ScanFromRestart(rs, target, RESTART_INTERVAL * l);
  }

  /** Seeking in the bytes is seeking in the list. */
  lemma SeekWritten(rs: seq<Rec>, target: Key)
    requires BlockFits(rs)
    ensures Seek(Written(rs), target) == At(rs, SeekIndex(rs, target))
  {
    if rs == [] {
      assert RestartBytes([]) == [];
    } else {
      hide *;
      var l := Land(rs, target);
      SearchWritten(rs, target);
      SeekUnfold(Written(rs), target, l);
      SeekFromRestart(rs, target, l);
      assert SeekIndex(rs, target) == FirstAtLeast(rs, target, RESTART_INTERVAL * l) by { SeekIndexIs(rs, target); }
    }
  }

  lemma SeekIndexIs(rs: seq<Rec>, target: Key)
    ensures SeekIndex(rs, target) == FirstAtLeast(rs, target, RESTART_INTERVAL * Land(rs, target))
  {
    hide Land, FirstAtLeast;
  }

  lemma Asymmetric(a: Key, b: Key)
    ensures !(Less(a, b) && Less(b, a))
  {
    LessIrreflexive(a);
    if Less(a, b) && Less(b, a) { LessTransitive(a, b, a); }
  }

  /** Loop invariant of the search: restarts up to `lo` are below the target, those
      from `hi` on are above it. */
  lemma {:induction false} LandingMeaning(keys: seq<Key>, target: Key, lo: nat, hi: nat)
    requires lo < hi <= |keys|
    requires lo == 0 || Less(keys[lo], target)
    requires hi == |keys| || Less(target, keys[hi])
    ensures var l := Landing(keys, target, lo, hi);
      && (l == 0 || !Less(target, keys[l]))
      && (keys[l] == target || l + 1 == |keys| || Less(target, keys[l + 1]))
    decreases hi - lo
  {
    hide Less;
    LessIrreflexive(target);
    if lo + 1 < hi {
      var mid := lo + (hi - lo) / 2;
      LessTotal(keys[mid], target);
      if keys[mid] == target {
      } else if Less(keys[mid], target) {
        LandingMeaning(keys, target, mid, hi);
      } else {
        LandingMeaning(keys, target, lo, mid);
      }
    } else {
      Asymmetric(target, keys[lo]);
    }
  }

  lemma LandMeaning(rs: seq<Rec>, target: Key)
    requires rs != []
    ensures var l := Land(rs, target);
      && (l == 0 || !Less(target, rs[RESTART_INTERVAL * l].key))
      && (rs[RESTART_INTERVAL * l].key == target
          || RESTART_INTERVAL * (l + 1) >= |rs| || Less(target, rs[RESTART_INTERVAL * (l + 1)].key))
  {
    hide Less, Landing;
    var keys := RestartKeys(rs);
    LandingMeaning(keys, target, 0, |keys|);
    var l := Land(rs, target);
    assert keys[l] == rs[RESTART_INTERVAL * l].key;
    if RESTART_INTERVAL * (l + 1) < |rs| {
      assert keys[l + 1] == rs[RESTART_INTERVAL * (l + 1)].key;
    }
  }

  lemma {:induction false} FirstFrom(rs: seq<Rec>, target: Key, from: nat, k: nat)
    requires from <= k <= |rs| && forall j :: from <= j < k ==> Less(rs[j].key, target)
    ensures FirstAtLeast(rs, target, from) == FirstAtLeast(rs, target, k)
    decreases k - from
  {
    if from < k { FirstFrom(rs, target, from + 1, k); }
  }

  /** The record just before the landing restart already has the key. */
  predicate LandsInsideRun(rs: seq<Rec>, target: Key) {
    var at := RESTART_INTERVAL * Land(rs, target);
    0 < at < |rs| && rs[at - 1].key == target
  }

  /** A seek finds the first record at or above the target exactly when it does not
      land inside a run of that very key. */
  lemma SeekExactIff(rs: seq<Rec>, target: Key)
    requires KeysSorted(rs)
    ensures SeekIndex(rs, target) == FirstAtLeast(rs, target, 0) <==> !LandsInsideRun(rs, target)
    ensures LandsInsideRun(rs, target) ==> SeekIndex(rs, target) == RESTART_INTERVAL * Land(rs, target) > FirstAtLeast(rs, target, 0)
  {
    hide FirstAtLeast, Land, Less;
    var at := RESTART_INTERVAL * Land(rs, target);
    if 0 < at < |rs| {
      LandMeaning(rs, target);
      LessIrreflexive(target);
      NeighbourBelow(rs, at, target);
      if rs[at - 1].key != target {
        forall j | 0 <= j < at ensures Less(rs[j].key, target) { KeyBelow(rs, j, at - 1, target); }
        FirstFrom(rs, target, 0, at);
      }
    }
  }

  /** Next to a restart at or below the target the key is the target or below it. */
  lemma NeighbourBelow(rs: seq<Rec>, at: nat, target: Key)
    requires KeysSorted(rs) && 0 < at < |rs| && !Less(target, rs[at].key)
    ensures Less(rs[at - 1].key, target) || rs[at - 1].key == target
    ensures rs[at - 1].key == target ==> rs[at].key == target
  {
    hide Less;
    var before, here := rs[at - 1].key, rs[at].key;
    assert !Less(here, before);
    LessTotal(before, here);
    LessTotal(here, target);
    if Less(before, here) && Less(here, target) { LessTransitive(before, here, target); }
    Asymmetric(here, target);
  }

  lemma KeyBelow(rs: seq<Rec>, i: nat, j: nat, target: Key)
    requires KeysSorted(rs) && i <= j < |rs| && Less(rs[j].key, target)
    ensures Less(rs[i].key, target)
  {
    if i < j {
      assert !Less(rs[j].key, rs[i].key);
      LessTotal(rs[i].key, rs[j].key);
      if rs[i].key != rs[j].key { LessTransitive(rs[i].key, rs[j].key, target); }
    }
  }

  /** No run of equal keys crosses a restart point. */
  predicate NoRunCrossesRestart(rs: seq<Rec>) {
    forall i :: 0 < i < |rs| && i % RESTART_INTERVAL == 0 ==> rs[i].key != rs[i - 1].key
  }

  lemma SeekIsExact(rs: seq<Rec>, target: Key)
    requires KeysSorted(rs) && NoRunCrossesRestart(rs)
    ensures SeekIndex(rs, target) == FirstAtLeast(rs, target, 0)
  {
    hide Land, SeekIndex, KeysSorted;
    SeekExactIff(rs, target);
    if LandsInsideRun(rs, target) {
      LandMeaning(rs, target);
      NeighbourBelow(rs, RESTART_INTERVAL * Land(rs, target), target);
    }
  }

  /** A block full of versions of one key: the search settles on the middle restart,
      and every version before it is out of reach. */
  lemma OneKeyBlock(rs: seq<Rec>, key: Key)
    requires |rs| > RESTART_INTERVAL && forall i :: 0 <= i < |rs| ==> rs[i].key == key
    ensures SeekIndex(rs, key) == RESTART_INTERVAL * (RestartCount(|rs|) / 2) > 0 == FirstAtLeast(rs, key, 0)
  {
    LessIrreflexive(key);
  }
}
