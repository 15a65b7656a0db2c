/** What a client is promised, told in the operations it committed and the bytes of its
    keys. The definitions here stand beside the engine's own comparison, bound tests and
    record encoding and use none of them; the lemmas say that the engine agrees. */
module Client {
  import opened Bytes
  import opened Records
  import opened Range
  import opened History
  import Batch

  // ----- keys and ranges -----

  /** Lexicographic order of byte strings. */
  ghost predicate Below(a: Key, b: Key) {
    exists n: nat :: n <= |a| && n <= |b| && a[..n] == b[..n] && ((n == |a| && n < |b|) || (n < |a| && n < |b| && a[n] < b[n]))
  }

  ghost predicate AfterStart(k: Key, start: Bound) {
    match start
    case Included(b) => k == b || Below(b, k)
    case Excluded(b) => Below(b, k)
    case Unbounded => true
  }

  ghost predicate BeforeEnd(k: Key, end: Bound) {
    match end
    case Included(b) => k == b || Below(k, b)
    case Excluded(b) => Below(k, b)
    case Unbounded => true
  }

  /** The engine's bound tests are those comparisons. */
  lemma BoundsMean(k: Key, start: Bound, end: Bound)
    ensures InRange(k, start, end) <==> AfterStart(k, start) && BeforeEnd(k, end)
  {
    hide Less, Below;
    if !start.Unbounded? { Compare(start.key, k); }
    if !end.Unbounded? { Compare(k, end.key); }
  }

  lemma Compare(a: Key, b: Key)
    ensures Less(a, b) <==> Below(a, b)
    ensures Less(b, a) <==> !(a == b || Below(a, b))
  {
    hide Less;
    LessIsLexicographic(a, b);
    LessTotal(a, b);
    LessIrreflexive(a);
    if Less(a, b) && Less(b, a) { LessTransitive(a, b, a); }
  }

  // ----- what batches do to a key -----

  ghost predicate Untouched(ops: Batch.Ops, key: Key) {
    forall i :: 0 <= i < |ops| ==> ops[i].key != key
  }

  /** This is the last operation of the batch on its key. */
  ghost predicate LastIs(ops: Batch.Ops, op: Batch.Op) {
    exists i :: 0 <= i < |ops| && ops[i] == op && forall j :: i < j < |ops| ==> ops[j].key != op.key
  }

  /** No batch after number `n`, up to the snapshot, touches the key. */
  ghost predicate QuietAfter(h: Hist, key: Key, n: nat, snap: nat) {
    forall i :: n <= i < snap && i < |h| ==> Untouched(h[i], key)
  }

  /** At the snapshot the key holds the value that batch `n` put. */
  ghost predicate PutBy(h: Hist, key: Key, snap: nat, n: nat, value: seq<byte>) {
    1 <= n <= snap && n <= |h| && LastIs(h[n - 1], Batch.Put(key, value)) && QuietAfter(h, key, n, snap)
  }

  /** At the snapshot the key is gone, deleted by batch `n`. */
  ghost predicate DeletedBy(h: Hist, key: Key, snap: nat, n: nat) {
    1 <= n <= snap && n <= |h| && LastIs(h[n - 1], Batch.Delete(key)) && QuietAfter(h, key, n, snap)
  }

  lemma {:induction false} FinalMeans(ops: Batch.Ops, key: Key, n: nat)
    ensures Final(ops, key, n) == None <==> Untouched(ops, key)
    ensures forall v :: Final(ops, key, n) == Some(Rec(key, n, Live, v)) <==> LastIs(ops, Batch.Put(key, v))
    ensures Final(ops, key, n) == Some(Rec(key, n, Tombstone, [])) <==> LastIs(ops, Batch.Delete(key))
    ensures Final(ops, key, n).Some? && Final(ops, key, n).value.op == Tombstone ==> Final(ops, key, n).value.value == []
  {
    hide LastIs;
    if ops == [] {
      forall op ensures !LastIs(ops, op) { NothingIsLast(op); }
    } else {
      var front, last := ops[..|ops| - 1], ops[|ops| - 1];
      FinalMeans(front, key, n);
      assert Untouched(ops, key) <==> last.key != key && Untouched(front, key) by { assert ops == front + [last]; }
      forall op: Batch.Op | op.key == key
        ensures LastIs(ops, op) <==> if last.key == key then last == op else LastIs(front, op)
      {
        LastStep(front, last, op);
        assert ops == front + [last];
      }
    }
  }

  lemma NothingIsLast(op: Batch.Op)
    ensures !LastIs([], op)
  {
  }

  lemma LastStep(front: Batch.Ops, last: Batch.Op, op: Batch.Op)
    ensures LastIs(front + [last], op) <==> if last.key == op.key then last == op else LastIs(front, op)
  {
    var ops := front + [last];
    assert ops[|front|] == last;
    if LastIs(ops, op) {
      var i :| 0 <= i < |ops| && ops[i] == op && forall j :: i < j < |ops| ==> ops[j].key != op.key;
      if i < |front| {
        assert front[i] == op && forall j :: i < j < |front| ==> front[j] == ops[j];
      }
    }
    if LastIs(front, op) && last.key != op.key {
      var i :| 0 <= i < |front| && front[i] == op && forall j :: i < j < |front| ==> front[j].key != op.key;
      assert ops[i] == op && forall j :: i < j < |front| ==> ops[j] == front[j];
    }
  }

  lemma WroteMeans(h: Hist, key: Key, n: nat)
    requires 1 <= n <= |h|
    ensures Wrote(h, key, n) <==> !Untouched(h[n - 1], key)
    ensures forall v :: Version(h, key, n) == Some(Rec(key, n, Live, v)) <==> LastIs(h[n - 1], Batch.Put(key, v))
    ensures Version(h, key, n) == Some(Rec(key, n, Tombstone, [])) <==> LastIs(h[n - 1], Batch.Delete(key))
    ensures Version(h, key, n).Some? && Version(h, key, n).value.op == Tombstone ==> Version(h, key, n).value.value == []
  {
    hide Final, Untouched, LastIs;
    FinalMeans(h[n - 1], key, n);
  }

  /** No later batch writes the key exactly when none touches it. */
  lemma QuietMeans(h: Hist, key: Key, n: nat, snap: nat)
    ensures QuietAfter(h, key, n, snap) <==> forall m: nat :: n < m <= snap ==> !Wrote(h, key, m)
  {
    hide Wrote, Untouched;
    forall m: nat | m <= |h| && m >= 1 ensures Wrote(h, key, m) <==> !Untouched(h[m - 1], key) { WroteMeans(h, key, m); }
    forall m: nat | m > |h| ensures !Wrote(h, key, m) { WroteInRange(h, key, m); }
    if forall m: nat :: n < m <= snap ==> !Wrote(h, key, m) {
      forall i | n <= i < snap && i < |h| ensures Untouched(h[i], key) { assert !Wrote(h, key, i + 1); }
    }
  }

  lemma WroteInRange(h: Hist, key: Key, n: nat)
    ensures Wrote(h, key, n) ==> 1 <= n <= |h|
  {
  }

  lemma NewestPut(h: Hist, key: Key, snap: nat, n: nat, v: seq<byte>)
    ensures Newest(h, key, snap) == Some(Rec(key, n, Live, v)) <==> PutBy(h, key, snap, n, v)
  {
    hide Newest, Final, QuietAfter, LastIs;
    NewestWitness(h, key, snap);
    QuietMeans(h, key, n, snap);
    if 1 <= n <= |h| {
      WroteMeans(h, key, n);
      if PutBy(h, key, snap, n, v) {
        assert Version(h, key, n) == Some(Rec(key, n, Live, v));
        NewestIs(h, key, snap, n);
      }
    }
  }

  lemma NewestDelete(h: Hist, key: Key, snap: nat, n: nat)
    ensures Newest(h, key, snap) == Some(Rec(key, n, Tombstone, [])) <==> DeletedBy(h, key, snap, n)
  {
    hide Newest, Final, QuietAfter, LastIs;
    NewestWitness(h, key, snap);
    QuietMeans(h, key, n, snap);
    if 1 <= n <= |h| {
      WroteMeans(h, key, n);
      if DeletedBy(h, key, snap, n) { NewestIs(h, key, snap, n); }
    }
  }

  /** The reference read, in operations: the value of the last put that no operation on
      the key follows, a tombstone for such a delete, nothing if the key was never touched. */
  lemma NewestMeans(h: Hist, key: Key, snap: nat)
    ensures forall n: nat, v :: Newest(h, key, snap) == Some(Rec(key, n, Live, v)) <==> PutBy(h, key, snap, n, v)
    ensures forall n: nat :: Newest(h, key, snap) == Some(Rec(key, n, Tombstone, [])) <==> DeletedBy(h, key, snap, n)
    ensures Newest(h, key, snap) == None <==> QuietAfter(h, key, 0, snap)
    ensures Newest(h, key, snap).Some? ==>
      var r := Newest(h, key, snap).value; r.key == key && (r.op == Tombstone ==> r.value == [])
  {
    hide Newest, Final, QuietAfter, PutBy, DeletedBy;
    forall n: nat, v ensures Newest(h, key, snap) == Some(Rec(key, n, Live, v)) <==> PutBy(h, key, snap, n, v) {
      NewestPut(h, key, snap, n, v);
    }
    forall n: nat ensures Newest(h, key, snap) == Some(Rec(key, n, Tombstone, [])) <==> DeletedBy(h, key, snap, n) {
      NewestDelete(h, key, snap, n);
    }
    NewestWitness(h, key, snap);
    QuietMeans(h, key, 0, snap);
    if Newest(h, key, snap).Some? {
      WroteMeans(h, key, Newest(h, key, snap).value.seqno);
    }
  }

  // ----- reads -----

  /** A point read returns the value of the last put at or below the snapshot, and
      nothing exactly when the key was never touched or its last operation is a delete. */
  ghost predicate PointRead(value: Option<seq<byte>>, h: Hist, key: Key, snap: nat) {
    && (forall v :: value == Some(v) <==> exists n: nat :: PutBy(h, key, snap, n, v))
    && (value == None <==> QuietAfter(h, key, 0, snap) || exists n: nat :: DeletedBy(h, key, snap, n))
  }

  lemma NewestIsPointRead(hit: Option<Rec>, h: Hist, key: Key, snap: nat)
    requires hit == Newest(h, key, snap)
    ensures PointRead(if hit.Some? && hit.value.op == Live then Some(hit.value.value) else None, h, key, snap)
  {
    hide Newest, QuietAfter, PutBy, DeletedBy;
    NewestMeans(h, key, snap);
    if hit.Some? {
      assert hit.value == Rec(key, hit.value.seqno, hit.value.op, hit.value.value);
    }
  }

  /** A range read lists, in ascending order of their bytes and each once, exactly the
      keys within the bounds whose last operation at or below the snapshot is a put,
      with the value put. */
  ghost predicate RangeRead(out: seq<Rec>, h: Hist, start: Bound, end: Bound, snap: nat) {
    && (forall i, j :: 0 <= i < j < |out| ==> Below(out[i].key, out[j].key))
    && forall key, v :: Lists(out, key, v) <==> AfterStart(key, start) && BeforeEnd(key, end) && exists n: nat :: PutBy(h, key, snap, n, v)
  }

  predicate Lists(out: seq<Rec>, key: Key, value: seq<byte>) {
    exists i :: 0 <= i < |out| && out[i].key == key && out[i].value == value
  }

  lemma ScanIsRangeRead(out: seq<Rec>, h: Hist, start: Bound, end: Bound, snap: nat)
    requires KeysStrictlyAscend(out)
    requires forall r :: r in out <==> InRange(r.key, start, end) && Newest(h, r.key, snap) == Some(r) && r.op == Live
    ensures RangeRead(out, h, start, end, snap)
  {
    hide Newest, PutBy, Below, Less, InRange, AfterStart, BeforeEnd;
    forall i, j | 0 <= i < j < |out| ensures Below(out[i].key, out[j].key) { Compare(out[i].key, out[j].key); }
    forall key, v
      ensures Lists(out, key, v) <==> AfterStart(key, start) && BeforeEnd(key, end) && exists n: nat :: PutBy(h, key, snap, n, v)
    {
      BoundsMean(key, start, end);
      NewestMeans(h, key, snap);
      if Lists(out, key, v) {
        var i :| 0 <= i < |out| && out[i].key == key && out[i].value == v;
        assert out[i] in out;
        assert out[i] == Rec(key, out[i].seqno, Live, v);
      }
      if n: nat :| InRange(key, start, end) && PutBy(h, key, snap, n, v) {
        assert Rec(key, n, Live, v) in out;
      }
    }
  }

  // ----- what the last batch did -----

  /** A batch just committed decides every key it touches. */
  lemma LastBatchDecides(h: Hist, ops: Batch.Ops, key: Key)
    ensures forall v :: LastIs(ops, Batch.Put(key, v)) ==> PutBy(h + [ops], key, |h| + 1, |h| + 1, v)
    ensures LastIs(ops, Batch.Delete(key)) ==> DeletedBy(h + [ops], key, |h| + 1, |h| + 1)
  {
    hide LastIs, Untouched;
    assert (h + [ops])[|h|] == ops;
  }
}
