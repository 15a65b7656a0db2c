/** The plain multi-version history every read must agree with, and what it
    means for one sorted source to be faithful to it. */
module History {
  import opened Bytes
  import opened Records
  import Batch

  /** Committed batches; batch i carries sequence number i + 1. */
  type Hist = seq<Batch.Ops>

  function RecOf(op: Batch.Op, n: nat): Rec {
    match op
    case Put(key, value) => Rec(key, n, Live, value)
    case Delete(key) => Rec(key, n, Tombstone, [])
  }

  /** What a batch finally does to a key: its last operation on it. */
  function Final(ops: Batch.Ops, key: Key, n: nat): (r: Option<Rec>)
    ensures r.Some? ==> r.value.key == key && r.value.seqno == n
  {
    if ops == [] then None
    else
      var last := ops[|ops| - 1];
      if last.key == key then Some(RecOf(last, n)) else Final(ops[..|ops| - 1], key, n)
  }

  /** Does batch number `n` of the history write `key`? */
  predicate Wrote(h: Hist, key: Key, n: nat) {
    1 <= n <= |h| && Final(h[n - 1], key, n).Some?
  }

  function Version(h: Hist, key: Key, n: nat): Option<Rec> {
    if 1 <= n <= |h| then Final(h[n - 1], key, n) else None
  }

  /** Reference read: the newest version of a key at or below a snapshot. */
  function Newest(h: Hist, key: Key, snap: nat): Option<Rec> {
    if h == [] then None
    else if |h| <= snap && Wrote(h, key, |h|) then Version(h, key, |h|)
    else Newest(h[..|h| - 1], key, snap)
  }

  lemma {:induction false} NewestIs(h: Hist, key: Key, snap: nat, n: nat)
    requires Wrote(h, key, n) && n <= snap
    requires forall m: nat :: n < m <= snap ==> !Wrote(h, key, m)
    ensures Newest(h, key, snap) == Version(h, key, n)
  {
    if n < |h| {
      var front := h[..|h| - 1];
      assert forall m :: Wrote(front, key, m) ==> Wrote(h, key, m);
      NewestIs(front, key, snap, n);
    }
  }

  /** The reference read really is the newest version at or below the snapshot. */
  lemma {:induction false} NewestWitness(h: Hist, key: Key, snap: nat)
    ensures var r := Newest(h, key, snap);
      if r.None? then forall m: nat :: m <= snap ==> !Wrote(h, key, m)
      else
        var n := r.value.seqno;
        && n <= snap && Wrote(h, key, n) && r == Version(h, key, n)
        && forall m: nat :: n < m <= snap ==> !Wrote(h, key, m)
  {
    if h != [] && !(|h| <= snap && Wrote(h, key, |h|)) {
      var front := h[..|h| - 1];
      NewestWitness(front, key, snap);
      assert forall m: nat :: m < |h| ==> Wrote(front, key, m) == Wrote(h, key, m);
    }
  }

  /** Later batches never change what a snapshot sees. */
  lemma {:induction false} NewestIsStable(h: Hist, more: Hist, key: Key, snap: nat)
    requires snap <= |h|
    ensures Newest(h + more, key, snap) == Newest(h, key, snap)
    decreases |more|
  {
    if more == [] {
      assert h + more == h;
    } else {
      var front := more[..|more| - 1];
      assert (h + more)[..|h + more| - 1] == h + front;
      NewestIsStable(h, front, key, snap);
    }
  }

  // ----- sources -----

  predicate Has(s: seq<Rec>, key: Key, n: nat) {
    exists i :: 0 <= i < |s| && s[i].key == key && s[i].seqno == n
  }

  /** Sorted, holding only committed versions, and answering for each version it
      holds with what the batch finally wrote. */
  ghost predicate Faithful(s: seq<Rec>, h: Hist) {
    && Sorted(s)
    && forall key, n :: Has(s, key, n) ==> Wrote(h, key, n) && Find(s, key, n) == Version(h, key, n)
  }

  lemma FindHas(s: seq<Rec>, key: Key, snap: nat)
    requires Sorted(s)
    ensures forall n: nat :: Has(s, key, n) && n <= snap ==> Find(s, key, snap).Some? && n <= Find(s, key, snap).value.seqno
    ensures Find(s, key, snap).Some? ==> Has(s, key, Find(s, key, snap).value.seqno)
  {
    FindIsNewest(s, key, snap);
    forall n: nat | Has(s, key, n) && n <= snap
      ensures Find(s, key, snap).Some? && n <= Find(s, key, snap).value.seqno
    {
      var i :| 0 <= i < |s| && s[i].key == key && s[i].seqno == n;
      assert Visible(s[i], key, snap);
    }
  }

  /** A faithful source answers a snapshot read with a version of the history. */
  lemma FaithfulFind(s: seq<Rec>, h: Hist, key: Key, snap: nat)
    requires Faithful(s, h) && Find(s, key, snap).Some?
    ensures var n := Find(s, key, snap).value.seqno;
      n <= snap && Has(s, key, n) && Wrote(h, key, n) && Find(s, key, snap) == Version(h, key, n)
  {
    var i := FindIndex(s, key, snap);
    var n := s[i].seqno;
    FindHas(s, key, snap);
    FindIndexIs(s, key, n, i);
  }

  /** A longer history keeps a source faithful. */
  lemma FaithfulExtends(s: seq<Rec>, h: Hist, more: Hist)
    requires Faithful(s, h)
    ensures Faithful(s, h + more)
  {
  }

  // ----- applying a batch to a memtable -----

  /** Inserts the operations one after the other. */
  function ApplyBatch(s: seq<Rec>, n: nat, ops: Batch.Ops): seq<Rec> {
    if ops == [] then s
    else Insert(ApplyBatch(s, n, ops[..|ops| - 1]), RecOf(ops[|ops| - 1], n))
  }

  /** Versions in a source, after applying a batch numbered `n`. */
  predicate HasAfter(s: seq<Rec>, n: nat, ops: Batch.Ops, key: Key, m: nat) {
    Has(s, key, m) || (m == n && Final(ops, key, n).Some?)
  }

  lemma HasAfterInsert(s: seq<Rec>, r: Rec, key: Key, m: nat)
    ensures Has(Insert(s, r), key, m) <==> Has(s, key, m) || (r.key == key && r.seqno == m)
  {
    var p := Position(s, r.key, r.seqno);
    var t := Insert(s, r);
    assert t[p] == r;
    if Has(s, key, m) {
      var i :| 0 <= i < |s| && s[i].key == key && s[i].seqno == m;
      assert t[if i < p then i else i + 1] == s[i];
    }
    if Has(t, key, m) {
      var i :| 0 <= i < |t| && t[i].key == key && t[i].seqno == m;
      assert i != p ==> t[i] == s[if i < p then i else i - 1];
    }
  }

  /** One batch applied to a source that holds nothing with its number. */
  lemma {:induction false} ApplyBatchMeaning(s: seq<Rec>, n: nat, ops: Batch.Ops, key: Key, m: nat)
    requires Sorted(s) && forall k :: !Has(s, k, n)
    ensures var t := ApplyBatch(s, n, ops);
      && Sorted(t)
      && (Has(t, key, m) <==> HasAfter(s, n, ops, key, m))
      && (Has(t, key, m) ==> Find(t, key, m) == if m == n then Final(ops, key, n) else Find(s, key, m))
    decreases |ops|
  {
    hide FindIndex, Has, Insert;
    if ops != [] {
      var front, last := ops[..|ops| - 1], ops[|ops| - 1];
      var t, r := ApplyBatch(s, n, front), RecOf(last, n);
      ApplyBatchMeaning(s, n, front, key, m);
      InsertIsSorted(t, r);
      HasAfterInsert(t, r, key, m);
      FindAfterInsert(t, r, key, m);
      FindHas(t, key, m);
      FindHas(s, key, m);
    }
  }

  lemma ApplyBatchIsFaithful(s: seq<Rec>, h: Hist, n: nat)
    requires Faithful(s, h) && 1 <= n <= |h| && forall k :: !Has(s, k, n)
    ensures Faithful(ApplyBatch(s, n, h[n - 1]), h)
  {
    hide Has, Find, Sorted;
    var t := ApplyBatch(s, n, h[n - 1]);
    ApplyBatchMeaning(s, n, h[n - 1], [], 0);
    forall key, m | Has(t, key, m)
      ensures Wrote(h, key, m) && Find(t, key, m) == Version(h, key, m)
    {
      ApplyBatchMeaning(s, n, h[n - 1], key, m);
    }
  }
}
