/** The merge is complete, stable and sorted, and looking a key up in its output
    finds the newest version among all inputs. */
module MergeTheorems {
  import opened Bytes
  import opened Records
  import opened Merge

  // ----- completeness and stability -----

  /** The records a source contributed, in output order. */
  function Project(out: seq<Tagged>, source: nat): seq<Rec> {
    if out == [] then []
    else if out[0].source == source then [out[0].rec] + Project(out[1..], source)
    else Project(out[1..], source)
  }

  /** Every source comes out whole and in its own order. */
  lemma {:induction false} MergeKeepsSources(rs: seq<seq<Rec>>, source: nat)
    requires source < |rs|
    ensures Project(MergeAll(rs), source) == rs[source]
    decreases Total(rs)
  {
    var s := LeastSource(rs, |rs|);
    if s < |rs| {
      MergeStep(rs, s);
      var rest := rs[s := rs[s][1..]];
      TotalOfUpdate(rs, s, rs[s][1..]);
      MergeKeepsSources(rest, source);
      assert MergeAll(rs)[1..] == MergeAll(rest);
      if s == source {
        assert rs[s] == [rs[s][0]] + rs[s][1..];
      }
    }
  }

  function Pool(rs: seq<seq<Rec>>): multiset<Rec> {
    if rs == [] then multiset{} else multiset(rs[0]) + Pool(rs[1..])
  }

  lemma {:induction false} PoolOfTail(rs: seq<seq<Rec>>, s: nat)
    requires s < |rs| && rs[s] != []
    ensures Pool(rs) == multiset{rs[s][0]} + Pool(rs[s := rs[s][1..]])
  {
    var rest := rs[s := rs[s][1..]];
    if s == 0 {
      assert rs[0] == [rs[0][0]] + rs[0][1..];
      assert rest[1..] == rs[1..];
    } else {
      PoolOfTail(rs[1..], s - 1);
      assert rest[1..] == rs[1..][s - 1 := rs[1..][s - 1][1..]];
    }
  }

  lemma {:induction false} PoolOfEmpties(rs: seq<seq<Rec>>)
    requires forall i :: 0 <= i < |rs| ==> rs[i] == []
    ensures Pool(rs) == multiset{} && Total(rs) == 0
  {
    if rs != [] {
      assert forall i :: 0 <= i < |rs[1..]| ==> rs[1..][i] == rs[i + 1];
      PoolOfEmpties(rs[1..]);
    }
  }

  lemma MergedStep(rs: seq<seq<Rec>>, s: nat)
    requires s < |rs| && LeastSource(rs, |rs|) == s
    ensures rs[s] != [] && Merged(rs) == [rs[s][0]] + Merged(rs[s := rs[s][1..]])
  {
    hide MergeAll;
    MergeStep(rs, s);
  }

  /** Nothing is lost, invented or dropped as a duplicate. */
  lemma {:induction false} MergeIsUnion(rs: seq<seq<Rec>>)
    ensures multiset(Merged(rs)) == Pool(rs)
    ensures |Merged(rs)| == Total(rs)
    decreases Total(rs)
  {
    hide Merged;
    var s := LeastSource(rs, |rs|);
    if s < |rs| {
      MergedStep(rs, s);
      var rest := rs[s := rs[s][1..]];
      TotalOfUpdate(rs, s, rs[s][1..]);
      MergeIsUnion(rest);
      PoolOfTail(rs, s);
    } else {
      PoolOfEmpties(rs);
      MergedNothing(rs);
    }
  }

  lemma MergedNothing(rs: seq<seq<Rec>>)
    requires LeastSource(rs, |rs|) == |rs|
    ensures Merged(rs) == []
  {
  }

  // ----- order -----

  predicate FromSource(e: Tagged, rs: seq<seq<Rec>>) {
    e.source < |rs| && e.rec in rs[e.source]
  }

  lemma {:induction false} MergeMember(rs: seq<seq<Rec>>, e: Tagged)
    requires e in MergeAll(rs)
    ensures FromSource(e, rs)
    decreases Total(rs)
  {
    var s := LeastSource(rs, |rs|);
    MergeStep(rs, s);
    if e != Tagged(rs[s][0], s) {
      TotalOfUpdate(rs, s, rs[s][1..]);
      MergeMember(rs[s := rs[s][1..]], e);
    }
  }

  /** The least head precedes everything still owed. */
  lemma LeastHeadPrecedes(rs: seq<seq<Rec>>, e: Tagged)
    requires AllSorted(rs) && FromSource(e, rs)
    ensures var s := LeastSource(rs, |rs|);
      s < |rs| && rs[s] != [] && !EntryBefore(e, Tagged(rs[s][0], s))
  {
    hide LeastSource;
    var t := e.source;
    var s := LeastSource(rs, |rs|);
    LeastIsLeast(rs, |rs|, t);
    var i :| 0 <= i < |rs[t]| && rs[t][i] == e.rec;
    var head := Tagged(rs[t][0], t);
    BeforeIsStrict(e.rec.key, e.rec.seqno, e.rec.key, e.rec.seqno);
    assert Sorted(rs[t]);
    assert !EntryBefore(e, head);
    EntryOrder(Tagged(rs[s][0], s), head, e);
  }

  lemma TailsSorted(rs: seq<seq<Rec>>, s: nat)
    requires AllSorted(rs) && s < |rs| && rs[s] != []
    ensures AllSorted(rs[s := rs[s][1..]])
  {
  }

  predicate EntriesSorted(out: seq<Tagged>) {
    forall i, j :: 0 <= i < j < |out| ==> !EntryBefore(out[j], out[i])
  }

  /** Output order: key ascending, seqno descending, source ascending. */
  lemma {:induction false} MergeIsSorted(rs: seq<seq<Rec>>)
    requires AllSorted(rs)
    ensures EntriesSorted(MergeAll(rs)) && Sorted(Merged(rs))
    decreases Total(rs)
  {
    hide EntryBefore, AllSorted;
    var s := LeastSource(rs, |rs|);
    if s < |rs| {
      MergeStep(rs, s);
      hide MergeAll, LeastSource;
      var rest := rs[s := rs[s][1..]];
      TotalOfUpdate(rs, s, rs[s][1..]);
      TailsSorted(rs, s);
      MergeIsSorted(rest);
      var (out, more) := (MergeAll(rs), MergeAll(rest));
      forall i, j | 0 <= i < j < |out|
        ensures !EntryBefore(out[j], out[i])
      {
        assert out[j] == more[j - 1];
        if i == 0 {
          MergeMember(rest, out[j]);
          assert FromSource(out[j], rs);
          LeastHeadPrecedes(rs, out[j]);
        } else {
          assert out[i] == more[i - 1];
        }
      }
    }
    SortedWithoutTags(MergeAll(rs));
  }

  lemma SortedWithoutTags(out: seq<Tagged>)
    requires EntriesSorted(out)
    ensures Sorted(Untag(out))
  {
  }

  // ----- lookup through a merge -----

  /** Reference: the visible version with the largest sequence number over all
      sources, the lowest source winning a tie. */
  function Best(rs: seq<seq<Rec>>, key: Key, snap: nat): Option<Rec> {
    if rs == [] then None
    else
      var (a, b) := (Find(rs[0], key, snap), Best(rs[1..], key, snap));
      if b.None? || (a.Some? && a.value.seqno >= b.value.seqno) then a else b
  }

  lemma {:induction false} BestSource(rs: seq<seq<Rec>>, key: Key, snap: nat)
    ensures Best(rs, key, snap).Some? ==> exists t :: 0 <= t < |rs| && Best(rs, key, snap) == Find(rs[t], key, snap)
    ensures Best(rs, key, snap).None? ==> forall t :: 0 <= t < |rs| ==> Find(rs[t], key, snap).None?
  {
    hide Find;
    if rs != [] {
      BestSource(rs[1..], key, snap);
      var b := Best(rs[1..], key, snap);
      if Best(rs, key, snap) == b && b.Some? {
        var t :| 0 <= t < |rs[1..]| && b == Find(rs[1..][t], key, snap);
        assert rs[t + 1] == rs[1..][t];
      } else {
        assert forall t :: 0 < t < |rs| ==> rs[t] == rs[1..][t - 1];
      }
    }
  }

  /** Source `s` holds the best version: no other is newer, none before it ties. */
  predicate Wins(rs: seq<seq<Rec>>, key: Key, snap: nat, s: nat)
    requires s < |rs|
  {
    var a := Find(rs[s], key, snap);
    && a.Some?
    && forall t :: 0 <= t < |rs| ==>
      var b := Find(rs[t], key, snap);
      b.Some? ==> b.value.seqno < a.value.seqno || (b.value.seqno == a.value.seqno && t >= s)
  }

  lemma {:induction false} WinnerIsBest(rs: seq<seq<Rec>>, key: Key, snap: nat, s: nat)
    requires s < |rs| && Wins(rs, key, snap, s)
    ensures Best(rs, key, snap) == Find(rs[s], key, snap)
  {
    hide Find;
    var rest := rs[1..];
    assert forall t :: 0 <= t < |rest| ==> rest[t] == rs[t + 1];
    if s == 0 {
      BestSource(rest, key, snap);
    } else {
      assert Wins(rest, key, snap, s - 1);
      WinnerIsBest(rest, key, snap, s - 1);
    }
  }

  lemma {:induction false} BestDependsOnFinds(a: seq<seq<Rec>>, b: seq<seq<Rec>>, key: Key, snap: nat)
    requires |a| == |b| && forall t :: 0 <= t < |a| ==> Find(a[t], key, snap) == Find(b[t], key, snap)
    ensures Best(a, key, snap) == Best(b, key, snap)
  {
    hide Find;
    if a != [] {
      assert forall t :: 0 <= t < |a[1..]| ==> a[1..][t] == a[t + 1] && b[1..][t] == b[t + 1];
      BestDependsOnFinds(a[1..], b[1..], key, snap);
    }
  }

  lemma FindOfCons(r: Rec, s: seq<Rec>, key: Key, snap: nat)
    ensures Find([r] + s, key, snap) == if Visible(r, key, snap) then Some(r) else Find(s, key, snap)
  {
    assert ([r] + s)[1..] == s;
  }

  /** A visible least head wins against every source. */
  lemma VisibleHeadWins(rs: seq<seq<Rec>>, key: Key, snap: nat)
    requires AllSorted(rs) && LeastSource(rs, |rs|) < |rs|
    requires Visible(rs[LeastSource(rs, |rs|)][0], key, snap)
    ensures Wins(rs, key, snap, LeastSource(rs, |rs|))
  {
    hide LeastSource, FindIndex;
    var s := LeastSource(rs, |rs|);
    var head := rs[s][0];
    assert rs[s] == [head] + rs[s][1..];
    FindOfCons(head, rs[s][1..], key, snap);
    forall t | 0 <= t < |rs| && Find(rs[t], key, snap).Some?
      ensures var b := Find(rs[t], key, snap).value;
        b.seqno < head.seqno || (b.seqno == head.seqno && t >= s)
    {
      var b := Find(rs[t], key, snap).value;
      LeastHeadPrecedes(rs, Tagged(b, t));
    }
  }

  /** Looking a key up in the merged list finds the best version of all inputs. */
  lemma {:induction false} FindInMerge(rs: seq<seq<Rec>>, key: Key, snap: nat)
    requires AllSorted(rs)
    ensures Find(Merged(rs), key, snap) == Best(rs, key, snap)
    decreases Total(rs)
  {
    hide LeastSource, AllSorted, Merged, Wins, Best;
    var s := LeastSource(rs, |rs|);
    if s < |rs| {
      MergedStep(rs, s);
      var rest := rs[s := rs[s][1..]];
      TotalOfUpdate(rs, s, rs[s][1..]);
      TailsSorted(rs, s);
      FindInMerge(rest, key, snap);
      FindOfCons(rs[s][0], Merged(rest), key, snap);
      FindOfCons(rs[s][0], rs[s][1..], key, snap);
      assert rs[s] == [rs[s][0]] + rs[s][1..];
      if Visible(rs[s][0], key, snap) {
        VisibleHeadWins(rs, key, snap);
        WinnerIsBest(rs, key, snap, s);
      } else {
        BestDependsOnFinds(rs, rest, key, snap);
      }
    } else {
      MergedNothing(rs);
      BestSource(rs, key, snap);
      assert forall t :: 0 <= t < |rs| ==> Find(rs[t], key, snap).None?;
    }
  }
}
