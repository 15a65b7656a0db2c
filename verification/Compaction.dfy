/** The two loops that write tables: a memtable flushed in order, and a compaction
    that drains a merge into a writer. */
module Compaction {
  import opened Bytes
  import opened Records
  import opened Merge
  import opened MergeTheorems
  import opened SstWriter
  import opened SstReader
  import opened SstTheorems
  import opened SstLookup
  import Bloom

  /** Flush: the memtable's records go to the writer one by one. */
  method WriteMemtable(cfg: Config, filter: Option<Bloom.Filter>, mem: seq<Rec>) returns (file: seq<byte>)
    requires FilterOk(filter)
    ensures file == TableBytes(cfg, filter, mem)
  {
    hide TableBytes, TableWriter.Valid, FilterOk;
    var w := new TableWriter(cfg, filter);
    for i := 0 to |mem|
      invariant w.Valid() && fresh(w) && fresh(w.builder) && w.cfg == cfg && w.filter == filter
      invariant w.recs == mem[..i]
    {
      w.Add(mem[i].key, mem[i].value, mem[i].seqno, mem[i].op);
    }
    assert mem[..|mem|] == mem;
    file := w.Finish();
  }

  /** Compaction: every record of every input, in merge order, into one table. */
  method CompactTables(cfg: Config, filter: Option<Bloom.Filter>, streams: seq<seq<Rec>>) returns (file: seq<byte>, emitted: nat)
    requires FilterOk(filter)
    ensures file == TableBytes(cfg, filter, Merged(streams))
    ensures emitted == Total(streams) == |Merged(streams)|
  {
    hide TableBytes, TableWriter.Valid, FilterOk, Merged, KWayMerge.Valid, KWayMerge.Remaining;
    var merger := new KWayMerge(streams);
    var w := new TableWriter(cfg, filter);
    emitted := 0;
    ghost var rest := Merged(streams);
    assert [] + rest == rest;
    while true
      invariant merger.Valid() && fresh(merger) && rest == Merged(merger.Remaining())
      invariant w.Valid() && fresh(w) && fresh(w.builder) && w.cfg == cfg && w.filter == filter
      invariant w.recs + rest == Merged(streams) && emitted == |w.recs|
      decreases |rest|
    {
      var r := PullRecord(merger, rest);
      if r.None? {
        break;
      }
      Assoc(w.recs, [r.value], rest[1..]);
      assert rest == [r.value] + rest[1..];
      rest := rest[1..];
      w.Add(r.value.key, r.value.value, r.value.seqno, r.value.op);
      emitted := emitted + 1;
    }
    assert w.recs + [] == w.recs;
    file := w.Finish();
    MergeIsUnion(streams);
  }

  /** One pull from the merger, in terms of the merged list. */
  method PullRecord(merger: KWayMerge, ghost rest: seq<Rec>) returns (r: Option<Rec>)
    requires merger.Valid() && rest == Merged(merger.Remaining())
    modifies merger
    ensures merger.Valid()
    ensures r.None? <==> rest == []
    ensures r.Some? ==> rest[0] == r.value && Merged(merger.Remaining()) == rest[1..]
  {
    hide MergeAll, AllOwed;
    r := merger.NextRecord();
  }

  /** Opening and scanning a compacted file gives the merge of its inputs: nothing is
      lost, and nothing is added. */
  lemma CompactedFileScans(cfg: Config, filter: Option<Bloom.Filter>, streams: seq<seq<Rec>>)
    requires FilterOk(filter) && TableFits(cfg, filter, Merged(streams)) && Lawful(cfg.crypto)
    ensures var table := OpenTable(cfg, TableBytes(cfg, filter, Merged(streams)));
      && table.Ok? && Scan(cfg, table.value) == Ok(Merged(streams))
      && multiset(Merged(streams)) == Pool(streams)
  {
    hide OpenTable, TableBytes, Scan, TableFits, Lawful, FilterOk, Merged, Yield, IndexHandles;
    ScanIsIdentity(cfg, filter, Merged(streams));
    MergeIsUnion(streams);
  }
}
