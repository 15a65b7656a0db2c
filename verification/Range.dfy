/** Ordered range scans: bound filtering per source, a k-way merge, and a
    de-duplicating iterator on top. */
module Range {
  import opened Bytes
  import opened Records
  import opened Merge
  import opened MergeTheorems

  datatype Bound = Included(key: Key) | Excluded(key: Key) | Unbounded

  predicate BelowStart(k: Key, start: Bound) {
    match start
    case Included(b) => Less(k, b)
    case Excluded(b) => !Less(b, k)
    case Unbounded => false
  }

  predicate PastEnd(k: Key, end: Bound) {
    match end
    case Included(b) => Less(b, k)
    case Excluded(b) => !Less(k, b)
    case Unbounded => false
  }

  predicate InRange(k: Key, start: Bound, end: Bound) {
    !BelowStart(k, start) && !PastEnd(k, end)
  }

  /** Reference: keep the records whose key is in range. */
  function Within(s: seq<Rec>, start: Bound, end: Bound): (t: seq<Rec>)
    ensures forall r :: r in t ==> r in s && InRange(r.key, start, end)
  {
    if s == [] then []
    else if InRange(s[0].key, start, end) then [s[0]] + Within(s[1..], start, end)
    else Within(s[1..], start, end)
  }

  lemma KeysAscend(s: seq<Rec>, i: nat, j: nat)
    requires Sorted(s) && i <= j < |s|
    ensures !Less(s[j].key, s[i].key)
  {
    LessIrreflexive(s[i].key);
    if i < j { assert !Before(s[j], s[i]); }
  }

  lemma BoundsAreMonotone(a: Key, b: Key, bound: Bound)
    requires !Less(b, a)
    ensures PastEnd(a, bound) ==> PastEnd(b, bound)
    ensures BelowStart(b, bound) ==> BelowStart(a, bound)
  {
    if bound != Unbounded {
      LessTotal(a, b);
      LessTotal(a, bound.key);
      LessTotal(b, bound.key);
      if Less(bound.key, a) && Less(a, b) { LessTransitive(bound.key, a, b); }
      if Less(a, b) && Less(b, bound.key) { LessTransitive(a, b, bound.key); }
    }
  }

  lemma {:induction false} NothingPastEnd(s: seq<Rec>, start: Bound, end: Bound)
    requires Sorted(s) && s != [] && PastEnd(s[0].key, end)
    ensures Within(s, start, end) == []
  {
    if |s| > 1 {
      KeysAscend(s, 0, 1);
      BoundsAreMonotone(s[0].key, s[1].key, end);
      NothingPastEnd(s[1..], start, end);
    }
  }

  // ----- the two source adapters -----

  /** Memtable adapter: skip below the start, stop at the end. */
  method MemtableSource(entries: seq<Rec>, start: Bound, end: Bound) returns (items: seq<Rec>)
    requires Sorted(entries)
    ensures items == Within(entries, start, end)
  {
    items := [];
    var i := 0;
    while i < |entries|
      invariant i <= |entries|
      invariant items + Within(entries[i..], start, end) == Within(entries, start, end)
    {
      var r := entries[i];
      assert entries[i..][1..] == entries[i + 1..];
      if BelowStart(r.key, start) {
        i := i + 1;
        continue;
      }
      if PastEnd(r.key, end) {
        NothingPastEnd(entries[i..], start, end);
        break;
      }
      Assoc(items, [r], Within(entries[i + 1..], start, end));
      items := items + [r];
      i := i + 1;
    }
    assert i == |entries| ==> Within(entries[i..], start, end) == [];
    assert items + [] == items;
  }

  function SkipBelow(s: seq<Rec>, start: Bound): seq<Rec> {
    if s != [] && BelowStart(s[0].key, start) then SkipBelow(s[1..], start) else s
  }

  function TakeUpTo(s: seq<Rec>, end: Bound): seq<Rec> {
    if s == [] || PastEnd(s[0].key, end) then [] else [s[0]] + TakeUpTo(s[1..], end)
  }

  /** SSTable adapter: a skip-while followed by a take-while. */
  function SstableSource(s: seq<Rec>, start: Bound, end: Bound): seq<Rec> {
    TakeUpTo(SkipBelow(s, start), end)
  }

  lemma {:induction false} TakeIsWithin(s: seq<Rec>, start: Bound, end: Bound)
    requires Sorted(s) && (s != [] ==> !BelowStart(s[0].key, start))
    ensures TakeUpTo(s, end) == Within(s, start, end)
  {
    if s != [] {
      if PastEnd(s[0].key, end) {
        NothingPastEnd(s, start, end);
      } else {
        if |s| > 1 {
          KeysAscend(s, 0, 1);
          BoundsAreMonotone(s[0].key, s[1].key, start);
        }
        TakeIsWithin(s[1..], start, end);
      }
    }
  }

  /** Bound filtering of a sorted table loses nothing and admits nothing else. */
  lemma {:induction false} SstableSourceIsWithin(s: seq<Rec>, start: Bound, end: Bound)
    requires Sorted(s)
    ensures SstableSource(s, start, end) == Within(s, start, end)
  {
    if s != [] && BelowStart(s[0].key, start) {
      SstableSourceIsWithin(s[1..], start, end);
    } else {
      TakeIsWithin(s, start, end);
    }
  }

  lemma {:induction false} WithinIsSorted(s: seq<Rec>, start: Bound, end: Bound)
    requires Sorted(s)
    ensures Sorted(Within(s, start, end))
  {
    if s != [] {
      var rest := Within(s[1..], start, end);
      WithinIsSorted(s[1..], start, end);
      forall j | 0 <= j < |rest|
        ensures !Before(rest[j], s[0])
      {
        assert rest[j] in s[1..];
      }
    }
  }

  lemma {:induction false} FindWithin(s: seq<Rec>, start: Bound, end: Bound, key: Key, snap: nat)
    ensures Find(Within(s, start, end), key, snap) == if InRange(key, start, end) then Find(s, key, snap) else None
  {
    hide InRange, FindIndex;
    if s == [] {
      assert Find(s, key, snap) == None;
    } else {
      FindWithin(s[1..], start, end, key, snap);
      FindOfCons(s[0], s[1..], key, snap);
      FindOfCons(s[0], Within(s[1..], start, end), key, snap);
      assert s == [s[0]] + s[1..];
    }
  }

  // ----- the iterator -----

  /** What a scan still has to yield from a merged list. */
  function Emit(merged: seq<Rec>, end: Bound, snap: nat, last: Option<Key>): (out: seq<Rec>)
    ensures forall r :: r in out ==> r in merged
  {
    if merged == [] then []
    else
      var r := merged[0];
      if PastEnd(r.key, end) then []
      else if r.seqno > snap then Emit(merged[1..], end, snap, last)
      else if last == Some(r.key) then Emit(merged[1..], end, snap, last)
      else if r.op == Tombstone then Emit(merged[1..], end, snap, Some(r.key))
      else [r] + Emit(merged[1..], end, snap, Some(r.key))
  }

  class DbRangeIter {
    const end: Bound
    const snapshot: nat
    const merger: KWayMerge
    var lastKey: Option<Key>

    ghost predicate Valid()
      reads this, merger
    {
      merger.Valid()
    }

    /** Everything this iterator will still yield. */
    ghost function Pending(): seq<Rec>
      reads this, merger
    {
      Emit(Merged(merger.Remaining()), end, snapshot, lastKey)
    }

    constructor (sources: seq<seq<Rec>>, end: Bound, snapshot: nat)
      ensures Valid() && fresh(merger)
      ensures Pending() == Emit(Merged(sources), end, snapshot, None)
    {
      this.end, this.snapshot, this.lastKey := end, snapshot, None;
      var m := new KWayMerge(sources);
      this.merger := m;
    }

    /** One step: skips invisible and superseded records. */
    method Next() returns (r: Option<Rec>)
      requires Valid()
      modifies this, merger
      ensures Valid()
      ensures r.None? ==> old(Pending()) == []
      ensures r.Some? ==> old(Pending()) == [r.value] + Pending()
      ensures r.Some? ==> |Merged(merger.Remaining())| < old(|Merged(merger.Remaining())|)
    {
      hide MergeAll, AllOwed, PastEnd;
      while true
        invariant Valid() && Pending() == old(Pending())
        invariant |Merged(merger.Remaining())| <= old(|Merged(merger.Remaining())|)
        decreases |Merged(merger.Remaining())|
      {
        ghost var m := Merged(merger.Remaining());
        var next := merger.NextRecord();
        if next.None? {
          return None;
        }
        assert Merged(merger.Remaining()) == m[1..];
        var rec := next.value;
        if PastEnd(rec.key, end) {
          return None;
        }
        if rec.seqno > snapshot {
          continue;
        }
        if lastKey == Some(rec.key) {
          continue;
        }
        lastKey := Some(rec.key);
        if rec.op == Live {
          return Some(rec);
        }
      }
    }

    /** Drains the iterator. */
    method CollectRecords() returns (out: seq<Rec>)
      requires Valid()
      modifies this, merger
      ensures out == old(Pending())
    {
      out := [];
      while true
        invariant Valid() && out + Pending() == old(Pending())
        decreases |Merged(merger.Remaining())|
      {
        ghost var before := Pending();
        var r := Next();
        if r.None? {
          assert out + [] == out;
          return;
        }
        Assoc(out, [r.value], Pending());
        out := out + [r.value];
      }
    }
  }

  // ----- what a scan returns -----

  predicate KeysStrictlyAscend(out: seq<Rec>) {
    forall i, j :: 0 <= i < j < |out| ==> Less(out[i].key, out[j].key)
  }

  /** Which records a scan of a sorted list must yield. */
  predicate Wanted(merged: seq<Rec>, end: Bound, snap: nat, last: Option<Key>, r: Rec) {
    && !PastEnd(r.key, end) && last != Some(r.key)
    && Find(merged, r.key, snap) == Some(r) && r.op == Live
  }

  /** No key of the list is below the last key already handled. */
  predicate NotBelow(merged: seq<Rec>, last: Option<Key>) {
    last.Some? ==> forall i :: 0 <= i < |merged| ==> !Less(merged[i].key, last.value)
  }

  lemma NotBelowHead(merged: seq<Rec>)
    requires Sorted(merged) && merged != []
    ensures NotBelow(merged[1..], Some(merged[0].key))
  {
    forall i | 0 <= i < |merged[1..]| ensures !Less(merged[1..][i].key, merged[0].key) {
      KeysAscend(merged, 0, i + 1);
    }
  }

  lemma AllPastEnd(merged: seq<Rec>, end: Bound, snap: nat, r: Rec)
    requires Sorted(merged) && merged != [] && PastEnd(merged[0].key, end)
    requires Find(merged, r.key, snap) == Some(r)
    ensures PastEnd(r.key, end)
  {
    var i := FindIndex(merged, r.key, snap);
    KeysAscend(merged, 0, i);
    BoundsAreMonotone(merged[0].key, r.key, end);
  }

  lemma {:induction false} EmitIsWanted(merged: seq<Rec>, end: Bound, snap: nat, last: Option<Key>, r: Rec)
    requires Sorted(merged) && NotBelow(merged, last)
    ensures r in Emit(merged, end, snap, last) <==> Wanted(merged, end, snap, last, r)
    decreases |merged|
  {
    hide PastEnd, FindIndex;
    if merged == [] {
    } else {
      var h, rest := merged[0], merged[1..];
      assert merged == [h] + rest;
      FindOfCons(h, rest, r.key, snap);
      NotBelowHead(merged);
      if PastEnd(h.key, end) {
        if Find(merged, r.key, snap) == Some(r) { AllPastEnd(merged, end, snap, r); }
      } else if h.seqno > snap || last == Some(h.key) {
        EmitIsWanted(rest, end, snap, last, r);
      } else {
        EmitIsWanted(rest, end, snap, Some(h.key), r);
        if last == Some(r.key) && Find(rest, r.key, snap).Some? {
          LastKeyGone(merged, last.value, snap);
        }
      }
    }
  }

  /** Once the head has moved past the last handled key, that key cannot come back. */
  lemma LastKeyGone(merged: seq<Rec>, last: Key, snap: nat)
    requires Sorted(merged) && merged != [] && NotBelow(merged, Some(last)) && merged[0].key != last
    ensures Find(merged[1..], last, snap).None?
  {
    var i := FindIndex(merged[1..], last, snap);
    if i < |merged| - 1 {
      KeysAscend(merged, 0, i + 1);
      LessTotal(merged[0].key, last);
    }
  }

  lemma {:induction false} EmitAscends(merged: seq<Rec>, end: Bound, snap: nat, last: Option<Key>)
    requires Sorted(merged) && NotBelow(merged, last)
    ensures KeysStrictlyAscend(Emit(merged, end, snap, last))
    decreases |merged|
  {
    hide PastEnd;
    if merged != [] {
      var h, rest := merged[0], merged[1..];
      NotBelowHead(merged);
      if !PastEnd(h.key, end) {
        if h.seqno > snap || last == Some(h.key) {
          EmitAscends(rest, end, snap, last);
        } else {
          EmitAscends(rest, end, snap, Some(h.key));
          var more := Emit(rest, end, snap, Some(h.key));
          forall i | 0 <= i < |more|
            ensures Less(h.key, more[i].key)
          {
            EmitIsWanted(rest, end, snap, Some(h.key), more[i]);
            assert more[i] in rest;
            LessTotal(h.key, more[i].key);
          }
        }
      }
    }
  }

  function FilterAll(rs: seq<seq<Rec>>, start: Bound, end: Bound): (fs: seq<seq<Rec>>)
    ensures |fs| == |rs| && forall i :: 0 <= i < |rs| ==> fs[i] == Within(rs[i], start, end)
  {
    seq(|rs|, i requires 0 <= i < |rs| => Within(rs[i], start, end))
  }

  /** The whole scan: filter each source, merge, de-duplicate. */
  function Scan(rs: seq<seq<Rec>>, start: Bound, end: Bound, snap: nat): seq<Rec> {
    Emit(Merged(FilterAll(rs, start, end)), end, snap, None)
  }

  lemma FiltersSorted(rs: seq<seq<Rec>>, start: Bound, end: Bound)
    requires AllSorted(rs)
    ensures AllSorted(FilterAll(rs, start, end))
  {
    hide Within;
    forall i | 0 <= i < |rs| ensures Sorted(Within(rs[i], start, end)) {
      WithinIsSorted(rs[i], start, end);
    }
  }

  lemma BestWithin(rs: seq<seq<Rec>>, start: Bound, end: Bound, key: Key, snap: nat)
    ensures Best(FilterAll(rs, start, end), key, snap) == if InRange(key, start, end) then Best(rs, key, snap) else None
  {
    hide Within, InRange, Find;
    var fs := FilterAll(rs, start, end);
    forall i | 0 <= i < |rs|
      ensures Find(fs[i], key, snap) == if InRange(key, start, end) then Find(rs[i], key, snap) else None
    {
      FindWithin(rs[i], start, end, key, snap);
    }
    if InRange(key, start, end) {
      BestDependsOnFinds(fs, rs, key, snap);
    } else {
      BestSource(fs, key, snap);
    }
  }

  /** Range scan correctness. Over any sorted sources, bounds and snapshot the
      scan yields strictly ascending keys, and a record exactly when its key is in
      range, it is the newest version at or below the snapshot over all sources,
      and it is not a tombstone. */
  lemma ScanIsExact(rs: seq<seq<Rec>>, start: Bound, end: Bound, snap: nat)
    requires AllSorted(rs)
    ensures KeysStrictlyAscend(Scan(rs, start, end, snap))
    ensures forall r :: r in Scan(rs, start, end, snap) <==>
      InRange(r.key, start, end) && Best(rs, r.key, snap) == Some(r) && r.op == Live
  {
    hide Merged, Emit, Find, Best, FilterAll, AllSorted, PastEnd, BelowStart;
    var fs := FilterAll(rs, start, end);
    var m := Merged(fs);
    FiltersSorted(rs, start, end);
    MergeIsSorted(fs);
    EmitAscends(m, end, snap, None);
    forall r
      ensures r in Scan(rs, start, end, snap) <==>
        InRange(r.key, start, end) && Best(rs, r.key, snap) == Some(r) && r.op == Live
    {
      EmitIsWanted(m, end, snap, None, r);
      FindInMerge(fs, r.key, snap);
      BestWithin(rs, start, end, r.key, snap);
    }
  }

  /** Two scans that agree on the best version of every key agree record for record. */
  lemma {:induction false} AscendingIsUnique(a: seq<Rec>, b: seq<Rec>)
    requires KeysStrictlyAscend(a) && KeysStrictlyAscend(b)
    requires forall r :: r in a <==> r in b
    ensures a == b
  {
    assert (a != [] ==> a[0] in b) && (b != [] ==> b[0] in a);
    if a != [] && b != [] {
      AscendingHeads(a, b);
      var (x, y) := (a[1..], b[1..]);
      forall r ensures r in x <==> r in y {
        AscendingTail(a, r);
        AscendingTail(b, r);
      }
      AscendingIsUnique(x, y);
      assert a == [a[0]] + x && b == [b[0]] + y;
    }
  }

  lemma AscendingHeads(a: seq<Rec>, b: seq<Rec>)
    requires KeysStrictlyAscend(a) && KeysStrictlyAscend(b) && a != [] && b != []
    requires forall r :: r in a <==> r in b
    ensures a[0] == b[0]
  {
    assert a[0] in b && b[0] in a;
    var i :| 0 <= i < |b| && b[i] == a[0];
    var j :| 0 <= j < |a| && a[j] == b[0];
    if i > 0 && j > 0 {
      LessTransitive(b[0].key, b[i].key, b[0].key);
      LessIrreflexive(b[0].key);
    }
  }

  lemma AscendingTail(a: seq<Rec>, r: Rec)
    requires KeysStrictlyAscend(a) && a != []
    ensures r in a[1..] <==> r in a && r != a[0]
  {
    LessIrreflexive(a[0].key);
    if r in a[1..] {
      var i :| 0 <= i < |a[1..]| && a[1..][i] == r;
      assert a[i + 1] == r;
    }
  }
}
