/** The engine's results carried over to what a client sees: operations, key bytes and
    values. */
module ClientTheorems {
  import opened Bytes
  import opened Records
  import opened Range
  import opened History
  import opened Layers
  import opened Engine
  import opened EngineInv
  import opened EngineTheorems
  import opened EngineLives
  import opened Client
  import Batch

  /** The value a point read hands out, none for a tombstone. */
  function ValueOf(hit: Option<Rec>): Option<seq<byte>> {
    if hit.Some? && hit.value.op == Live then Some(hit.value.value) else None
  }

  /** A store whose point reads are those of a history serves the client's point reads. */
  lemma ReadsServe(s: State, h: Hist, key: Key, snap: nat)
    requires Reads(s, h)
    ensures PointRead(ValueOf(FirstHit(Sources(s), key, snap)), h, key, snap)
  {
    hide FirstHit, Sources, Newest, PointRead;
    NewestIsPointRead(FirstHit(Sources(s), key, snap), h, key, snap);
  }

  /** A store whose scans are those of a history serves the client's range reads. */
  lemma ScansServe(s: State, h: Hist, start: Bound, end: Bound, snap: nat)
    requires ScansExactly(s, h, start, end, snap)
    ensures RangeRead(Scan(Sources(s), start, end, snap), h, start, end, snap)
  {
    hide Scan, Sources, Newest, RangeRead, InRange, KeysStrictlyAscend;
    ScanIsRangeRead(Scan(Sources(s), start, end, snap), h, start, end, snap);
  }

  lemma PointReads(w: World, key: Key, snap: nat)
    requires Good(w)
    ensures PointRead(ValueOf(FirstHit(Sources(w.db), key, snap)), w.hist, key, snap)
  {
    hide Good, FirstHit, Sources, Newest, PointRead;
    GoodReads(w, key, snap);
    NewestIsPointRead(FirstHit(Sources(w.db), key, snap), w.hist, key, snap);
  }

  lemma RangeReads(w: World, start: Bound, end: Bound, snap: nat)
    requires Inv(w)
    ensures RangeRead(Scan(Sources(w.db), start, end, snap), w.hist, start, end, snap)
  {
    hide *;
    InvSources(w);
    ScansOf(w.db, w.hist, start, end, snap);
    ScansServe(w.db, w.hist, start, end, snap);
  }

  /** Every run from an empty directory, crashes and reopens included: range reads list
      exactly what the committed operations leave at the snapshot, and point reads return
      it if no reopen found a log older than the tables. */
  lemma RunsServeClients(events: seq<Event>, key: Key, start: Bound, end: Bound, snap: nat)
    requires Possible(Start(), events)
    ensures var w := Run(Start(), events);
      && RangeRead(Scan(Sources(w.db), start, end, snap), w.hist, start, end, snap)
      && (SafeLives(Start(), events) ==> PointRead(ValueOf(FirstHit(Sources(w.db), key, snap)), w.hist, key, snap))
  {
    hide *;
    StartInv();
    RunKeepsInv(Start(), events);
    RangeReads(Run(Start(), events), start, end, snap);
    if SafeLives(Start(), events) {
      StartGood();
      SafeLivesAreGood(Start(), events);
      PointReads(Run(Start(), events), key, snap);
    }
  }

  // ----- right after a commit -----

  /** After a batch whose last operation on a key is a put, a scan of its snapshot lists
      the key with the value put if it is within the bounds; after one whose last
      operation on it is a delete, no scan lists the key. */
  lemma CommitThenScan(w: World, ops: Batch.Ops, key: Key, start: Bound, end: Bound)
    requires Inv(w) && Enabled(w, DoCommit(ops))
    ensures var out := Scan(Sources(Apply(w, DoCommit(ops)).db), start, end, |w.hist| + 1);
      && (forall v :: LastIs(ops, Batch.Put(key, v)) && AfterStart(key, start) && BeforeEnd(key, end) ==> Lists(out, key, v))
      && (LastIs(ops, Batch.Delete(key)) ==> forall v :: !Lists(out, key, v))
  {
    hide Inv, Enabled, Apply, Scan, Sources, LastIs, AfterStart, BeforeEnd, Lists, PutBy, DeletedBy, Below;
    var (after, n) := (Apply(w, DoCommit(ops)), |w.hist| + 1);
    StepKeepsInv(w, DoCommit(ops));
    RangeReads(after, start, end, n);
    LastBatchDecides(w.hist, ops, key);
    CommitHistory(w, ops);
    if LastIs(ops, Batch.Delete(key)) {
      forall m: nat, v ensures !PutBy(after.hist, key, n, m, v) { NotBoth(after.hist, key, n, n, m, v); }
    }
  }

  /** A point read does the same. */
  lemma CommitThenGet(w: World, ops: Batch.Ops, key: Key)
    requires Good(w) && Enabled(w, DoCommit(ops))
    ensures var value := ValueOf(FirstHit(Sources(Apply(w, DoCommit(ops)).db), key, |w.hist| + 1));
      && (forall v :: LastIs(ops, Batch.Put(key, v)) ==> value == Some(v))
      && (LastIs(ops, Batch.Delete(key)) ==> value == None)
  {
    hide Good, Enabled, Apply, FirstHit, Sources, LastIs, PutBy, DeletedBy, QuietAfter, ValueOf;
    var (after, n) := (Apply(w, DoCommit(ops)), |w.hist| + 1);
    StepGoodIff(w, DoCommit(ops));
    PointReads(after, key, n);
    LastBatchDecides(w.hist, ops, key);
    CommitHistory(w, ops);
  }

  lemma CommitHistory(w: World, ops: Batch.Ops)
    requires Enabled(w, DoCommit(ops))
    ensures Apply(w, DoCommit(ops)).hist == w.hist + [ops]
  {
    hide Commit;
  }

  /** A key does not hold a value at a snapshot where it is deleted. */
  lemma NotBoth(h: Hist, key: Key, snap: nat, n: nat, m: nat, v: seq<byte>)
    requires DeletedBy(h, key, snap, n)
    ensures !PutBy(h, key, snap, m, v)
  {
    hide Newest, PutBy, DeletedBy;
    NewestDelete(h, key, snap, n);
    NewestPut(h, key, snap, m, v);
  }
}
