/** Reading through layers of sources, newest first: when the first hit is the
    newest version, and when it is not. */
module Layers {
  import opened Bytes
  import opened Records
  import opened Merge
  import opened MergeTheorems
  import opened Range
  import opened History

  /** The walk of a point read: the first source with a visible version answers. */
  function FirstHit(ss: seq<seq<Rec>>, key: Key, snap: nat): Option<Rec> {
    if ss == [] then None
    else
      var r := Find(ss[0], key, snap);
      if r.Some? then r else FirstHit(ss[1..], key, snap)
  }

  ghost predicate AllFaithful(ss: seq<seq<Rec>>, h: Hist) {
    forall i :: 0 <= i < |ss| ==> Faithful(ss[i], h)
  }

  predicate InSome(ss: seq<seq<Rec>>, key: Key, n: nat) {
    exists i :: 0 <= i < |ss| && Has(ss[i], key, n)
  }

  /** Every committed version is in some source. */
  ghost predicate Complete(ss: seq<seq<Rec>>, h: Hist) {
    forall key, n :: Wrote(h, key, n) ==> InSome(ss, key, n)
  }

  /** The layering invariant: if a source holds a key, a newer version of it in a
      later source is also in that source or an earlier one. */
  ghost predicate Shadow(ss: seq<seq<Rec>>) {
    forall i, j, key, n: nat, m: nat ::
      0 <= i < j < |ss| && Has(ss[i], key, n) && Has(ss[j], key, m) && m > n ==> InSome(ss[..i + 1], key, m)
  }

  // ----- first hit -----

  /** Index of the first source with a visible version, |ss| when there is none. */
  function HitIndex(ss: seq<seq<Rec>>, key: Key, snap: nat): (i: nat)
    ensures i <= |ss|
    ensures i < |ss| ==> Find(ss[i], key, snap).Some?
    ensures forall j :: 0 <= j < i ==> Find(ss[j], key, snap).None?
    ensures FirstHit(ss, key, snap) == if i < |ss| then Find(ss[i], key, snap) else None
  {
    if ss == [] || Find(ss[0], key, snap).Some? then 0 else 1 + HitIndex(ss[1..], key, snap)
  }

  /** A committed version at or below the snapshot is visible in any source that holds it. */
  lemma VisibleWhereHeld(s: seq<Rec>, h: Hist, key: Key, snap: nat, n: nat)
    requires Faithful(s, h) && Has(s, key, n) && n <= snap
    ensures Find(s, key, snap).Some? && n <= Find(s, key, snap).value.seqno
  {
    FindHas(s, key, snap);
  }

  /** Under the layering invariant the first hit is the newest committed version. */
  lemma FirstHitIsNewest(ss: seq<seq<Rec>>, h: Hist, key: Key, snap: nat)
    requires AllFaithful(ss, h) && Complete(ss, h) && Shadow(ss)
    ensures FirstHit(ss, key, snap) == Newest(h, key, snap)
  {
    hide Find, Has, FirstHit, Faithful, Newest, Version;
    NewestWitness(h, key, snap);
    var i := HitIndex(ss, key, snap);
    var newest := Newest(h, key, snap);
    if i < |ss| {
      FaithfulFind(ss[i], h, key, snap);
      var n := Find(ss[i], key, snap).value.seqno;
      var top := newest.value.seqno;
      assert n <= top;
      if n < top {
        assert InSome(ss, key, top);
        var j :| 0 <= j < |ss| && Has(ss[j], key, top);
        VisibleWhereHeld(ss[j], h, key, snap, top);
        assert i < j;
        assert InSome(ss[..i + 1], key, top);
        var k :| 0 <= k < |ss[..i + 1]| && Has(ss[..i + 1][k], key, top);
        VisibleWhereHeld(ss[k], h, key, snap, top);
      }
    } else if newest.Some? {
      var top := newest.value.seqno;
      assert InSome(ss, key, top);
      var j :| 0 <= j < |ss| && Has(ss[j], key, top);
      VisibleWhereHeld(ss[j], h, key, snap, top);
    }
  }

  /** Where the invariant is broken some snapshot read goes wrong. */
  lemma BrokenShadowMisreads(ss: seq<seq<Rec>>, h: Hist, i: nat, j: nat, key: Key, n: nat, m: nat)
    requires AllFaithful(ss, h)
    requires i < j < |ss| && Has(ss[i], key, n) && Has(ss[j], key, m) && m > n && !InSome(ss[..i + 1], key, m)
    ensures FirstHit(ss, key, m) != Newest(h, key, m)
  {
    hide Find, Has, FirstHit, Faithful, Newest, Version;
    assert Faithful(ss[i], h) && Faithful(ss[j], h);
    HasIsWritten(ss[j], h, key, m);
    NewestIs(h, key, m, m);
    WrittenVersion(h, key, m);
    VisibleWhereHeld(ss[i], h, key, m, n);
    var f := HitIndex(ss, key, m);
    assert f <= i;
    FaithfulFind(ss[f], h, key, m);
    assert ss[..i + 1][f] == ss[f];
    assert InSome(ss[..i + 1], key, Find(ss[f], key, m).value.seqno);
  }

  lemma HasIsWritten(s: seq<Rec>, h: Hist, key: Key, n: nat)
    requires Faithful(s, h) && Has(s, key, n)
    ensures Wrote(h, key, n)
  {
  }

  lemma WrittenVersion(h: Hist, key: Key, n: nat)
    requires Wrote(h, key, n)
    ensures Version(h, key, n).Some? && Version(h, key, n).value.seqno == n
  {
  }

  /** First hit answers every point read with the history. */
  ghost predicate Agrees(ss: seq<seq<Rec>>, h: Hist) {
    forall key, snap :: FirstHit(ss, key, snap) == Newest(h, key, snap)
  }

  /** Point reads through the layers are right for every key and snapshot exactly
      when the layering invariant holds. */
  lemma FirstHitIff(ss: seq<seq<Rec>>, h: Hist)
    requires AllFaithful(ss, h) && Complete(ss, h)
    ensures Agrees(ss, h) <==> Shadow(ss)
  {
    hide FirstHit, Newest, AllFaithful, Complete, Has;
    if Shadow(ss) {
      forall key, snap ensures FirstHit(ss, key, snap) == Newest(h, key, snap) {
        FirstHitIsNewest(ss, h, key, snap);
      }
    } else {
      var i, j, key, n: nat, m: nat :| 0 <= i < j < |ss| && Has(ss[i], key, n) && Has(ss[j], key, m) && m > n && !InSome(ss[..i + 1], key, m);
      BrokenShadowMisreads(ss, h, i, j, key, n, m);
    }
  }

  // ----- best over all sources -----

  /** The best version over all sources is the newest committed one, layered well or not. */
  lemma BestIsNewest(ss: seq<seq<Rec>>, h: Hist, key: Key, snap: nat)
    requires AllFaithful(ss, h) && Complete(ss, h)
    ensures Best(ss, key, snap) == Newest(h, key, snap)
  {
    hide Find, Has, Best, Faithful, Newest, Version;
    NewestWitness(h, key, snap);
    BestSource(ss, key, snap);
    var best, newest := Best(ss, key, snap), Newest(h, key, snap);
    if newest.Some? {
      var top := newest.value.seqno;
      assert InSome(ss, key, top);
      var j :| 0 <= j < |ss| && Has(ss[j], key, top);
      VisibleWhereHeld(ss[j], h, key, snap, top);
      FaithfulFind(ss[j], h, key, snap);
      BestIsLargest(ss, key, snap, j);
    }
    if best.Some? {
      var t :| 0 <= t < |ss| && best == Find(ss[t], key, snap);
      FaithfulFind(ss[t], h, key, snap);
    }
  }

  lemma {:induction false} BestIsLargest(ss: seq<seq<Rec>>, key: Key, snap: nat, t: nat)
    requires t < |ss| && Find(ss[t], key, snap).Some?
    ensures Best(ss, key, snap).Some? && Best(ss, key, snap).value.seqno >= Find(ss[t], key, snap).value.seqno
  {
    hide Find;
    if t > 0 {
      BestIsLargest(ss[1..], key, snap, t - 1);
    }
  }

  /** A range scan over faithful, complete sources returns exactly the live keys of
      the history in range; the layering invariant is not needed. */
  lemma ScanIsHistory(ss: seq<seq<Rec>>, h: Hist, start: Bound, end: Bound, snap: nat)
    requires AllFaithful(ss, h) && Complete(ss, h)
    ensures KeysStrictlyAscend(Scan(ss, start, end, snap))
    ensures forall r :: r in Scan(ss, start, end, snap) <==>
      InRange(r.key, start, end) && Newest(h, r.key, snap) == Some(r) && r.op == Live
  {
    hide Scan, Best, Newest, InRange, Complete, Sorted;
    assert AllSorted(ss);
    ScanIsExact(ss, start, end, snap);
    forall r: Rec ensures Best(ss, r.key, snap) == Newest(h, r.key, snap) {
      BestIsNewest(ss, h, r.key, snap);
    }
  }

  /** A scan is determined by the history it reads. */
  lemma ScansAgree(a: seq<seq<Rec>>, b: seq<seq<Rec>>, g: Hist, h: Hist, start: Bound, end: Bound, snap: nat)
    requires AllFaithful(a, g) && Complete(a, g) && AllFaithful(b, h) && Complete(b, h)
    requires forall key :: Newest(g, key, snap) == Newest(h, key, snap)
    ensures Scan(a, start, end, snap) == Scan(b, start, end, snap)
  {
    hide Scan, Newest, InRange, AllFaithful, Complete, KeysStrictlyAscend;
    ScanIsHistory(a, g, start, end, snap);
    ScanIsHistory(b, h, start, end, snap);
    AscendingIsUnique(Scan(a, start, end, snap), Scan(b, start, end, snap));
  }

  // ----- what compaction does to a layer -----

  lemma {:induction false} PoolMember(rs: seq<seq<Rec>>, r: Rec)
    ensures r in Pool(rs) <==> exists i :: 0 <= i < |rs| && r in rs[i]
  {
    if rs != [] {
      PoolMember(rs[1..], r);
      if r in Pool(rs[1..]) {
        var i :| 0 <= i < |rs[1..]| && r in rs[1..][i];
        assert r in rs[i + 1];
      }
      if i :| 0 <= i < |rs| && r in rs[i] {
        assert i > 0 ==> r in rs[1..][i - 1];
      }
    }
  }

  /** The merged table holds exactly the versions of its inputs. */
  lemma MergedHas(rs: seq<seq<Rec>>, key: Key, n: nat)
    ensures Has(Merged(rs), key, n) <==> InSome(rs, key, n)
  {
    hide Merged, Pool;
    var m := Merged(rs);
    MergeIsUnion(rs);
    if Has(m, key, n) {
      var i :| 0 <= i < |m| && m[i].key == key && m[i].seqno == n;
      assert m[i] in multiset(m);
      PoolMember(rs, m[i]);
      var t :| 0 <= t < |rs| && m[i] in rs[t];
      var j :| 0 <= j < |rs[t]| && rs[t][j] == m[i];
      assert Has(rs[t], key, n);
    }
    if InSome(rs, key, n) {
      var t :| 0 <= t < |rs| && Has(rs[t], key, n);
      var j :| 0 <= j < |rs[t]| && rs[t][j].key == key && rs[t][j].seqno == n;
      PoolMember(rs, rs[t][j]);
      assert rs[t][j] in multiset(m);
    }
  }

  /** Compaction preserves meaning: the merged table is faithful to the same history. */
  lemma MergedIsFaithful(rs: seq<seq<Rec>>, h: Hist)
    requires AllFaithful(rs, h)
    ensures Faithful(Merged(rs), h)
  {
    hide Merged, Find, Has, Best, Sorted;
    assert AllSorted(rs);
    MergeIsSorted(rs);
    forall key, n | Has(Merged(rs), key, n)
      ensures Wrote(h, key, n) && Find(Merged(rs), key, n) == Version(h, key, n)
    {
      MergedHas(rs, key, n);
      var t :| 0 <= t < |rs| && Has(rs[t], key, n);
      HasIsWritten(rs[t], h, key, n);
      VisibleWhereHeld(rs[t], h, key, n, n);
      FindInMerge(rs, key, n);
      BestIsLargest(rs, key, n, t);
      BestSource(rs, key, n);
      var b :| 0 <= b < |rs| && Best(rs, key, n) == Find(rs[b], key, n);
      FaithfulFind(rs[b], h, key, n);
    }
  }

  /** ... and so, at every snapshot, the merged table answers like the first hit
      over its newest-first inputs. */
  lemma CompactionPreservesReads(rs: seq<seq<Rec>>, h: Hist, key: Key, snap: nat)
    requires AllFaithful(rs, h) && Shadow(rs)
    ensures Find(Merged(rs), key, snap) == FirstHit(rs, key, snap)
  {
    hide Merged, Find, Has, Best, FirstHit, Faithful, Version;
    SortedInputs(rs, h);
    FindInMerge(rs, key, snap);
    BestSource(rs, key, snap);
    var i := HitIndex(rs, key, snap);
    if i < |rs| {
      FaithfulFind(rs[i], h, key, snap);
      BestIsLargest(rs, key, snap, i);
      var b :| 0 <= b < |rs| && Best(rs, key, snap) == Find(rs[b], key, snap);
      FaithfulFind(rs[b], h, key, snap);
      var (n, top) := (Find(rs[i], key, snap).value.seqno, Find(rs[b], key, snap).value.seqno);
      if n < top {
        assert b != i && b > i;
        assert InSome(rs[..i + 1], key, top);
        var k :| 0 <= k < |rs[..i + 1]| && Has(rs[..i + 1][k], key, top);
        VisibleWhereHeld(rs[k], h, key, snap, top);
      }
    }
  }

  lemma SortedInputs(rs: seq<seq<Rec>>, h: Hist)
    requires AllFaithful(rs, h)
    ensures AllSorted(rs)
  {
  }
}
