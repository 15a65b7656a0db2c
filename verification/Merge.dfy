/** K-way merge of sorted streams, driven by a heap that holds one pending
    record per stream. */
module Merge {
  import opened Bytes
  import opened Records

  /** A pending record and the index of the stream it came from. */
  datatype Tagged = Tagged(rec: Rec, source: nat)

  /** Heap order: key ascending, seqno descending, then source ascending. */
  predicate EntryBefore(a: Tagged, b: Tagged) {
    Before(a.rec, b.rec) || (a.rec.key == b.rec.key && a.rec.seqno == b.rec.seqno && a.source < b.source)
  }

  lemma EntryOrder(a: Tagged, b: Tagged, c: Tagged)
    ensures !(EntryBefore(a, b) && EntryBefore(b, a))
    ensures EntryBefore(a, b) || EntryBefore(b, a) ||
            (a.rec.key == b.rec.key && a.rec.seqno == b.rec.seqno && a.source == b.source)
    ensures !EntryBefore(b, a) && !EntryBefore(c, b) ==> !EntryBefore(c, a)
  {
    BeforeIsStrict(a.rec.key, a.rec.seqno, b.rec.key, b.rec.seqno);
    BeforeIsStrict(b.rec.key, b.rec.seqno, c.rec.key, c.rec.seqno);
    BeforeIsStrict(a.rec.key, a.rec.seqno, c.rec.key, c.rec.seqno);
    if !EntryBefore(b, a) && !EntryBefore(c, b) {
      NotBeforeTransitive(a.rec.key, a.rec.seqno, b.rec.key, b.rec.seqno, c.rec.key, c.rec.seqno);
    }
  }

  // ----- reference merge -----

  function Total(rs: seq<seq<Rec>>): nat {
    if rs == [] then 0 else |rs[0]| + Total(rs[1..])
  }

  lemma {:induction false} TotalOfUpdate(rs: seq<seq<Rec>>, i: nat, s: seq<Rec>)
    requires i < |rs|
    ensures Total(rs[i := s]) == Total(rs) - |rs[i]| + |s|
  {
    if i == 0 {
      assert rs[i := s][1..] == rs[1..];
    } else {
      TotalOfUpdate(rs[1..], i - 1, s);
      assert rs[i := s][1..] == rs[1..][i - 1 := s];
    }
  }

  /** The source whose head record comes first; the number of sources when all are empty. */
  function LeastSource(rs: seq<seq<Rec>>, upTo: nat): (s: nat)
    requires upTo <= |rs|
    ensures s <= upTo
    ensures s < upTo ==> rs[s] != []
    ensures s == upTo ==> forall i :: 0 <= i < upTo ==> rs[i] == []
  {
    if upTo == 0 then 0
    else
      var i := upTo - 1;
      var s := LeastSource(rs, i);
      if rs[i] == [] then (if s == i then upTo else s)
      else if s < i && !EntryBefore(Tagged(rs[i][0], i), Tagged(rs[s][0], s)) then s
      else i
  }

  lemma {:induction false} LeastIsLeast(rs: seq<seq<Rec>>, upTo: nat, i: nat)
    requires i < upTo <= |rs| && rs[i] != []
    ensures var s := LeastSource(rs, upTo);
      s < upTo && !EntryBefore(Tagged(rs[i][0], i), Tagged(rs[s][0], s))
    decreases upTo
  {
    var last := upTo - 1;
    var s := LeastSource(rs, upTo);
    var s' := LeastSource(rs, last);
    EntryOrder(Tagged(rs[i][0], i), Tagged(rs[i][0], i), Tagged(rs[i][0], i));
    if i < last {
      LeastIsLeast(rs, last, i);
      if s == last {
        EntryOrder(Tagged(rs[last][0], last), Tagged(rs[s'][0], s'), Tagged(rs[i][0], i));
      }
    }
  }

  /** Repeatedly takes the least head. */
  function MergeAll(rs: seq<seq<Rec>>): (out: seq<Tagged>)
    decreases Total(rs)
  {
    var s := LeastSource(rs, |rs|);
    if s == |rs| then []
    else
      TotalOfUpdate(rs, s, rs[s][1..]);
      [Tagged(rs[s][0], s)] + MergeAll(rs[s := rs[s][1..]])
  }

  function Untag(out: seq<Tagged>): (s: seq<Rec>)
    ensures |s| == |out| && forall i :: 0 <= i < |out| ==> s[i] == out[i].rec
  {
    seq(|out|, i requires 0 <= i < |out| => out[i].rec)
  }

  function Merged(rs: seq<seq<Rec>>): seq<Rec> {
    Untag(MergeAll(rs))
  }

  predicate AllSorted(rs: seq<seq<Rec>>) {
    forall i :: 0 <= i < |rs| ==> Sorted(rs[i])
  }

  // ----- the heap-driven merger -----

  /** Index of the pending record of a source, |heap| when it has none. */
  function HeapSlot(heap: seq<Tagged>, source: nat): (i: nat)
    ensures i <= |heap|
    ensures i < |heap| ==> heap[i].source == source
    ensures forall j :: 0 <= j < i ==> heap[j].source != source
  {
    if heap == [] || heap[0].source == source then 0 else 1 + HeapSlot(heap[1..], source)
  }

  /** What a source still owes: its pending record, then the rest of its stream. */
  function Owed(heap: seq<Tagged>, streams: seq<seq<Rec>>, source: nat): seq<Rec>
    requires source < |streams|
  {
    var i := HeapSlot(heap, source);
    (if i < |heap| then [heap[i].rec] else []) + streams[source]
  }

  function AllOwed(heap: seq<Tagged>, streams: seq<seq<Rec>>): (rs: seq<seq<Rec>>)
    ensures |rs| == |streams| && forall i :: 0 <= i < |rs| ==> rs[i] == Owed(heap, streams, i)
  {
    seq(|streams|, i requires 0 <= i < |streams| => Owed(heap, streams, i))
  }

  /** At most one pending record per source. */
  predicate OnePerSource(heap: seq<Tagged>, sources: nat) {
    && (forall i :: 0 <= i < |heap| ==> heap[i].source < sources)
    && forall i, j :: 0 <= i < j < |heap| ==> heap[i].source != heap[j].source
  }

  /** The heap holds the head of every unexhausted source. */
  predicate HoldsHeads(heap: seq<Tagged>, streams: seq<seq<Rec>>) {
    forall s :: 0 <= s < |streams| && streams[s] != [] ==> HeapSlot(heap, s) < |heap|
  }

  lemma HeapSlotIs(heap: seq<Tagged>, sources: nat, i: nat)
    requires OnePerSource(heap, sources) && i < |heap|
    ensures HeapSlot(heap, heap[i].source) == i
  {
  }

  class KWayMerge {
    var streams: seq<seq<Rec>>
    /** The binary heap, taken as a bag from which the least entry can be popped. */
    var heap: seq<Tagged>
    var primed: bool

    ghost predicate Valid()
      reads this
    {
      && OnePerSource(heap, |streams|)
      && (if primed then HoldsHeads(heap, streams) else heap == [])
    }

    /** What every source still owes. */
    ghost function Remaining(): seq<seq<Rec>>
      reads this
    {
      AllOwed(heap, streams)
    }

    constructor (streams: seq<seq<Rec>>)
      ensures Valid() && Remaining() == streams
    {
      this.streams := streams;
      heap, primed := [], false;
      new;
      assert forall i :: 0 <= i < |streams| ==> Owed([], streams, i) == streams[i];
      assert Remaining() == streams;
    }

    /** Moves the next record of a source onto the heap. */
    method Advance(source: nat) returns (more: bool)
      requires source < |streams| && OnePerSource(heap, |streams|) && HeapSlot(heap, source) == |heap|
      modifies this`streams, this`heap
      ensures OnePerSource(heap, |streams|) && Remaining() == old(Remaining())
      ensures more == (old(streams[source]) != [])
      ensures more ==> heap == old(heap) + [Tagged(old(streams[source])[0], source)]
      ensures more ==> streams == old(streams)[source := old(streams[source])[1..]]
      ensures !more ==> heap == old(heap) && streams == old(streams)
      ensures more ==> HeapSlot(heap, source) < |heap|
      ensures forall s :: s != source && HeapSlot(old(heap), s) < |old(heap)| ==> HeapSlot(heap, s) < |heap|
    {
      if streams[source] == [] {
        return false;
      }
      ghost var heap0, streams0 := heap, streams;
      var next := streams[source][0];
      streams := streams[source := streams[source][1..]];
      heap := heap + [Tagged(next, source)];
      forall s ensures HeapSlot(heap, s) == if s == source then |heap0| else if HeapSlot(heap0, s) < |heap0| then HeapSlot(heap0, s) else |heap| {
        HeapSlotAppend(heap0, Tagged(next, source), s);
      }
      assert forall s :: 0 <= s < |streams| ==> Owed(heap, streams, s) == Owed(heap0, streams0, s);
      return true;
    }

    /** First fill: one record from every stream. */
    method Prime()
      requires Valid()
      modifies this
      ensures Valid() && primed && Remaining() == old(Remaining())
    {
      if primed {
        return;
      }
      var source := 0;
      while source < |streams|
        invariant source <= |streams| == old(|streams|)
        invariant OnePerSource(heap, |streams|) && !primed
        invariant forall i :: 0 <= i < |heap| ==> heap[i].source < source
        invariant forall s :: 0 <= s < source && streams[s] != [] ==> HeapSlot(heap, s) < |heap|
        invariant Remaining() == old(Remaining())
      {
        var _ := Advance(source);
        source := source + 1;
      }
      primed := true;
    }

    /** Removes and returns the least heap entry. */
    method PopLeast() returns (top: Tagged)
      requires OnePerSource(heap, |streams|) && heap != []
      modifies this`heap
      ensures top in old(heap) && OnePerSource(heap, |streams|)
      ensures forall e :: e in old(heap) ==> !EntryBefore(e, top)
      ensures forall s :: SlotAfterPop(old(heap), heap, top.source, s)
    {
      var best, i := 0, 1;
      EntryOrder(heap[0], heap[0], heap[0]);
      while i < |heap|
        invariant best < i <= |heap| && heap == old(heap)
        invariant forall j :: 0 <= j < i ==> !EntryBefore(heap[j], heap[best])
      {
        if EntryBefore(heap[i], heap[best]) {
          forall j | 0 <= j < i ensures !EntryBefore(heap[j], heap[i]) {
            EntryOrder(heap[i], heap[best], heap[j]);
          }
          best := i;
        }
        EntryOrder(heap[i], heap[i], heap[i]);
        i := i + 1;
      }
      top := heap[best];
      heap := heap[..best] + heap[best + 1..];
      ghost var was := old(heap);
      forall s ensures SlotAfterPop(was, heap, top.source, s) {
        SlotPop(was, heap, |streams|, best, s);
      }
      assert forall j :: 0 <= j < |heap| ==> heap[j] == was[if j < best then j else j + 1];
    }

    /** The next merged record. */
    method NextRecord() returns (r: Option<Rec>)
      requires Valid()
      modifies this
      ensures Valid()
      ensures var before := MergeAll(old(Remaining()));
        if before == [] then r == None && MergeAll(Remaining()) == []
        else r == Some(before[0].rec) && MergeAll(Remaining()) == before[1..]
    {
      hide EntryBefore, HeapSlot, MergeAll, Owed, AllOwed, OnePerSource;
      Prime();
      ghost var owed := Remaining();
      if heap == [] {
        NothingOwed(streams);
        return None;
      }
      ghost var heap0, streams0 := heap, streams;
      var top := PopLeast();
      LeastHeapEntry(heap0, streams, top);
      OwedAfterPop(heap0, heap, streams, top);
      MergeStep(owed, top.source);
      assert SlotAfterPop(heap0, heap, top.source, top.source);
      ghost var popped := heap;
      var more := Advance(top.source);
      forall s | 0 <= s < |streams| && streams[s] != []
        ensures HeapSlot(heap, s) < |heap|
      {
        assert SlotAfterPop(heap0, popped, top.source, s);
        assert s != top.source ==> streams[s] == streams0[s];
      }
      return Some(top.rec);
    }
  }

  lemma MergeStep(rs: seq<seq<Rec>>, s: nat)
    requires s < |rs| && LeastSource(rs, |rs|) == s
    ensures rs[s] != [] && MergeAll(rs) == [Tagged(rs[s][0], s)] + MergeAll(rs[s := rs[s][1..]])
  {
  }

  lemma NothingOwed(streams: seq<seq<Rec>>)
    requires HoldsHeads([], streams)
    ensures MergeAll(AllOwed([], streams)) == []
  {
    var owed := AllOwed([], streams);
    assert forall s :: 0 <= s < |owed| ==> owed[s] == [];
  }

  /** Popping the least entry takes exactly the head of its source. */
  lemma OwedAfterPop(was: seq<Tagged>, heap: seq<Tagged>, streams: seq<seq<Rec>>, top: Tagged)
    requires OnePerSource(was, |streams|) && top in was
    requires forall s :: SlotAfterPop(was, heap, top.source, s)
    ensures top.source < |streams| && AllOwed(was, streams)[top.source] == [top.rec] + streams[top.source]
    ensures AllOwed(heap, streams) == AllOwed(was, streams)[top.source := streams[top.source]]
  {
    hide HeapSlot;
    var i :| 0 <= i < |was| && was[i] == top;
    HeapSlotIs(was, |streams|, i);
    assert SlotAfterPop(was, heap, top.source, top.source);
    var (before, after) := (AllOwed(was, streams), AllOwed(heap, streams));
    assert [] + streams[top.source] == streams[top.source];
    forall s | 0 <= s < |streams|
      ensures after[s] == if s == top.source then streams[s] else before[s]
    {
      assert SlotAfterPop(was, heap, top.source, s);
    }
  }

  lemma {:induction false} HeapSlotAppend(heap: seq<Tagged>, e: Tagged, s: nat)
    ensures HeapSlot(heap + [e], s) ==
      if HeapSlot(heap, s) < |heap| then HeapSlot(heap, s) else if e.source == s then |heap| else |heap| + 1
  {
    if heap != [] {
      HeapSlotAppend(heap[1..], e, s);
      assert (heap + [e])[1..] == heap[1..] + [e];
    }
  }

  /** How popping the entry of source `gone` moves the entry of source `s`. */
  ghost predicate SlotAfterPop(was: seq<Tagged>, heap: seq<Tagged>, gone: nat, s: nat) {
    var i, j := HeapSlot(was, s), HeapSlot(heap, s);
    if s != gone && i < |was| then j < |heap| && heap[j] == was[i] else j == |heap|
  }

  lemma HeapWithout(was: seq<Tagged>, heap: seq<Tagged>, best: nat, j: nat)
    requires best < |was| && heap == was[..best] + was[best + 1..] && j < |heap|
    ensures heap[j] == if j < best then was[j] else was[j + 1]
  {
  }

  lemma SlotPop(was: seq<Tagged>, heap: seq<Tagged>, sources: nat, best: nat, s: nat)
    requires OnePerSource(was, sources) && best < |was| && heap == was[..best] + was[best + 1..]
    ensures SlotAfterPop(was, heap, was[best].source, s)
  {
    hide HeapSlot;
    var i, j := HeapSlot(was, s), HeapSlot(heap, s);
    if j < |heap| {
      HeapWithout(was, heap, best, j);
    } else if s != was[best].source && i < |was| {
      HeapWithout(was, heap, best, if i < best then i else i - 1);
    }
  }

  /** The least heap entry is the least head of what is owed. */
  lemma LeastHeapEntry(heap: seq<Tagged>, streams: seq<seq<Rec>>, top: Tagged)
    requires OnePerSource(heap, |streams|) && HoldsHeads(heap, streams) && top in heap
    requires forall e :: e in heap ==> !EntryBefore(e, top)
    ensures var owed := AllOwed(heap, streams);
      top.source < |owed| && owed[top.source] != [] && LeastSource(owed, |owed|) == top.source
  {
    var owed := AllOwed(heap, streams);
    var k :| 0 <= k < |heap| && heap[k] == top;
    HeapSlotIs(heap, |streams|, k);
    var s := LeastSource(owed, |owed|);
    LeastIsLeast(owed, |owed|, top.source);
    var i := HeapSlot(heap, s);
    assert i < |heap| && owed[s][0] == heap[i].rec;
    EntryOrder(heap[i], top, top);
  }
}
