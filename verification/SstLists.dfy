/** Point lookup on the record lists behind a table: which record it settles on, and
    exactly when that is the record a linear search finds. */
module SstLists {
  import opened Bytes
  import opened Records
  import opened Block
  import opened BlockTheorems
  import opened SstWriter
  import opened SstReader

  // ----- blocks and the list they cut -----

  function Flatten(blocks: seq<seq<Rec>>): seq<Rec> {
    if blocks == [] then [] else Flatten(blocks[..|blocks| - 1]) + blocks[|blocks| - 1]
  }

  function Start(blocks: seq<seq<Rec>>, i: nat): nat
    requires i <= |blocks|
  {
    |Flatten(blocks[..i])|
  }

  predicate NoneEmpty(blocks: seq<seq<Rec>>) {
    forall i :: 0 <= i < |blocks| ==> blocks[i] != []
  }

  lemma FlattenAppend(blocks: seq<seq<Rec>>, b: seq<Rec>)
    ensures Flatten(blocks + [b]) == Flatten(blocks) + b
  {
    assert (blocks + [b])[..|blocks|] == blocks;
  }

  lemma {:induction false} FlattenFront(b: seq<Rec>, blocks: seq<seq<Rec>>)
    ensures Flatten([b] + blocks) == b + Flatten(blocks)
  {
    if blocks == [] {
      assert [b] + blocks == [] + [b];
      FlattenAppend([], b);
    } else {
      var front, last := blocks[..|blocks| - 1], blocks[|blocks| - 1];
      FlattenFront(b, front);
      assert [b] + blocks == ([b] + front) + [last];
      FlattenAppend([b] + front, last);
      Assoc(b, Flatten(front), last);
    }
  }

  predicate Partitions(c: Cut, rs: seq<Rec>) {
    Flatten(c.full) + c.open == rs && NoneEmpty(c.full)
  }

  lemma CutStep(c: Cut, rs: seq<Rec>, r: Rec)
    requires Partitions(c, rs)
    ensures var open := c.open + [r];
      Partitions(Cut(c.full + [open], []), rs + [r]) && Partitions(Cut(c.full, open), rs + [r])
  {
    hide Flatten;
    FlattenAppend(c.full, c.open + [r]);
    Assoc(Flatten(c.full), c.open, [r]);
  }

  lemma CutNothing(blockSize: nat)
    ensures Partitions(CutUp(blockSize, []), [])
  {
    hide EstimatedSize;
  }

  /** Cutting loses nothing, keeps the order and leaves no empty block. */
  lemma {:induction false} CutIsPartition(blockSize: nat, rs: seq<Rec>)
    ensures Partitions(CutUp(blockSize, rs), rs)
  {
    hide *;
    if rs == [] {
      CutNothing(blockSize);
    } else {
      var front, last := rs[..|rs| - 1], rs[|rs| - 1];
      CutIsPartition(blockSize, front);
      assert rs == front + [last];
      CutOne(blockSize, front, last);
      CutStep(CutUp(blockSize, front), front, last);
    }
  }

  lemma BlocksPartition(blockSize: nat, rs: seq<Rec>)
    ensures Flatten(Blocks(blockSize, rs)) == rs && NoneEmpty(Blocks(blockSize, rs))
  {
    hide CutUp;
    CutIsPartition(blockSize, rs);
    var c := CutUp(blockSize, rs);
    FlattenAppend(c.full, c.open);
  }

  /** A block that was sealed by the very record that filled it. */
  predicate JustFull(blockSize: nat, b: seq<Rec>) {
    b != [] && EstimatedSize(b) >= blockSize && (|b| > 1 ==> EstimatedSize(b[..|b| - 1]) < blockSize)
  }

  /** Blocks are sealed neither early nor late. */
  lemma {:induction false} CutIsTight(blockSize: nat, rs: seq<Rec>)
    ensures var c := CutUp(blockSize, rs);
      && (forall i :: 0 <= i < |c.full| ==> JustFull(blockSize, c.full[i]))
      && (c.open != [] ==> EstimatedSize(c.open) < blockSize)
  {
    hide EstimatedSize, CutUp;
    if rs == [] {
      CutOfNothing(blockSize);
    } else {
      var front, last := rs[..|rs| - 1], rs[|rs| - 1];
      CutIsTight(blockSize, front);
      assert rs == front + [last];
      CutOne(blockSize, front, last);
      var open := CutUp(blockSize, front).open + [last];
      assert open[..|open| - 1] == CutUp(blockSize, front).open;
    }
  }

  lemma CutOfNothing(blockSize: nat)
    ensures CutUp(blockSize, []) == Cut([], [])
  {
    hide EstimatedSize;
  }

  lemma StartStep(blocks: seq<seq<Rec>>, i: nat)
    requires i < |blocks|
    ensures Start(blocks, i + 1) == Start(blocks, i) + |blocks[i]|
  {
    assert blocks[..i + 1] == blocks[..i] + [blocks[i]];
    FlattenAppend(blocks[..i], blocks[i]);
  }

  /** Block `i` occupies its own stretch of the list. */
  lemma {:induction false} FlattenAt(blocks: seq<seq<Rec>>, i: nat)
    requires i < |blocks|
    ensures Start(blocks, i) + |blocks[i]| <= |Flatten(blocks)|
    ensures Flatten(blocks)[Start(blocks, i)..Start(blocks, i) + |blocks[i]|] == blocks[i]
  {
    var front := blocks[..|blocks| - 1];
    if i < |front| {
      FlattenAt(front, i);
      assert front[..i] == blocks[..i];
      assert Flatten(blocks)[..|Flatten(front)|] == Flatten(front);
    }
  }

  lemma FlattenIndex(blocks: seq<seq<Rec>>, i: nat, k: nat)
    requires i < |blocks| && k < |blocks[i]|
    ensures Start(blocks, i) + k < |Flatten(blocks)| && Flatten(blocks)[Start(blocks, i) + k] == blocks[i][k]
  {
    FlattenAt(blocks, i);
    assert blocks[i][k] == Flatten(blocks)[Start(blocks, i)..Start(blocks, i) + |blocks[i]|][k];
  }

  /** Every position lies in one block. */
  lemma {:induction false} Locate(blocks: seq<seq<Rec>>, at: nat) returns (i: nat)
    requires at < |Flatten(blocks)|
    ensures i < |blocks| && Start(blocks, i) <= at < Start(blocks, i) + |blocks[i]|
  {
    var front := blocks[..|blocks| - 1];
    if at < |Flatten(front)| {
      i := Locate(front, at);
      assert front[..i] == blocks[..i];
    } else {
      i := |front|;
    }
  }

  lemma {:induction false} StartMonotone(blocks: seq<seq<Rec>>, i: nat, j: nat)
    requires i <= j <= |blocks|
    ensures Start(blocks, i) <= Start(blocks, j)
    decreases j
  {
    if i < j {
      StartMonotone(blocks, i, j - 1);
      StartStep(blocks, j - 1);
    }
  }

  // ----- lookup inside one block -----

  /** Where a lookup inside a block settles, |b| when it answers "not here". */
  function GetIndexInBlock(b: seq<Rec>, key: Key, snap: nat): (i: nat)
    ensures i <= |b|
  {
    var j := SeekIndex(b, key);
    if j == |b| || b[j].key != key then |b|
    else if b[j].seqno <= snap then j
    else FindIndex(b, key, snap)
  }

  lemma {:induction false} NextAfterStep(rs: seq<Rec>, key: Key, n: nat, snap: nat)
    requires n > snap
    ensures var r := NextAfter(rs, key, n);
      && (r.None? ==> FindIndex(rs, key, snap) == |rs|)
      && (r.Some? && r.value.seqno <= snap ==> Find(rs, key, snap) == r)
  {
    if rs != [] {
      NextAfterStep(rs[1..], key, n, snap);
    }
  }

  /** Stepping past versions that are too new ends at the first visible one. */
  lemma {:induction false} SettleFinds(rs: seq<Rec>, key: Key, snap: nat, r: Rec)
    requires r.key == key && r.seqno > snap
    ensures Settle(rs, key, snap, Some(r)) == Find(rs, key, snap)
    decreases r.seqno
  {
    hide NextAfter, FindIndex;
    NextAfterStep(rs, key, r.seqno, snap);
    var next := NextAfter(rs, key, r.seqno);
    if next.Some? && next.value.seqno > snap {
      SettleFinds(rs, key, snap, next.value);
    }
  }

  lemma SettleIsIndex(b: seq<Rec>, key: Key, snap: nat)
    ensures Settle(b, key, snap, At(b, SeekIndex(b, key))) == At(b, GetIndexInBlock(b, key, snap))
  {
    hide SeekIndex, NextAfter, FindIndex;
    var j := SeekIndex(b, key);
    if j < |b| && b[j].key == key && b[j].seqno > snap {
      SettleFinds(b, key, snap, b[j]);
    }
  }

  /** At one snapshot: the seek must not come to rest after the first visible version. */
  lemma GetInBlockExactAt(b: seq<Rec>, key: Key, snap: nat)
    requires Sorted(b)
    ensures var f := FindIndex(b, key, snap);
      GetIndexInBlock(b, key, snap) == f <==> f == |b| || SeekIndex(b, key) <= f
  {
    hide FirstAtLeast, Land, FindIndex, Less;
    var f, j := FindIndex(b, key, snap), SeekIndex(b, key);
    LessIrreflexive(key);
    if f < |b| && j <= f {
      if j < f {
        assert !Before(b[f], b[j]);
        LessTotal(b[j].key, key);
      }
    } else if f < |b| && j < |b| {
      assert !Before(b[j], b[f]);
    }
  }

  /** Within a block the lookup is a linear search at every snapshot exactly when the
      binary search does not land inside the key's own run. */
  lemma GetInBlockExactIff(b: seq<Rec>, key: Key)
    requires Sorted(b)
    ensures (forall snap: nat :: GetIndexInBlock(b, key, snap) == FindIndex(b, key, snap)) <==> !LandsInsideRun(b, key)
  {
    hide FirstAtLeast, Land, FindIndex, Less, GetIndexInBlock, SeekIndex;
    SortedKeys(b);
    SeekExactIff(b, key);
    if LandsInsideRun(b, key) {
      var snap := b[RESTART_INTERVAL * Land(b, key) - 1].seqno;
      GetInBlockExactAt(b, key, snap);
      assert GetIndexInBlock(b, key, snap) != FindIndex(b, key, snap);
    } else {
      forall snap: nat ensures GetIndexInBlock(b, key, snap) == FindIndex(b, key, snap) {
        GetInBlockExactAt(b, key, snap);
        FirstNotAfter(b, key, FindIndex(b, key, snap));
      }
    }
  }

  lemma FirstNotAfter(b: seq<Rec>, key: Key, k: nat)
    requires k < |b| ==> b[k].key == key
    ensures k < |b| ==> FirstAtLeast(b, key, 0) <= k
  {
    LessIrreflexive(key);
  }

  // ----- lookup in a table -----

  /** The entry keys of the index: the last key of each block. */
  function LastKeys(blocks: seq<seq<Rec>>): (rs: seq<Rec>)
    ensures |rs| == |blocks| && forall i :: 0 <= i < |blocks| ==> rs[i] == Rec(LastKey(blocks[i]), 0, Live, [])
  {
    seq(|blocks|, i requires 0 <= i < |blocks| => Rec(LastKey(blocks[i]), 0, Live, []))
  }

  /** The block the index sends a lookup to, |blocks| when it sends it nowhere. */
  function Target(blocks: seq<seq<Rec>>, key: Key): (i: nat)
    ensures i <= |blocks|
  {
    SeekIndex(LastKeys(blocks), key)
  }

  /** Where a lookup settles in the whole list, its length when it answers "not here". */
  function GetIndex(blocks: seq<seq<Rec>>, key: Key, snap: nat): nat {
    var i := Target(blocks, key);
    if i == |blocks| then |Flatten(blocks)|
    else
      var k := GetIndexInBlock(blocks[i], key, snap);
      if k == |blocks[i]| then |Flatten(blocks)| else Start(blocks, i) + k
  }

  lemma FindInBlock(blocks: seq<seq<Rec>>, i: nat, key: Key, snap: nat)
    requires i < |blocks|
    ensures var f := FindIndex(Flatten(blocks), key, snap);
      && (f == |Flatten(blocks)| ==> FindIndex(blocks[i], key, snap) == |blocks[i]|)
      && (Start(blocks, i) <= f < Start(blocks, i) + |blocks[i]| ==>
          FindIndex(blocks[i], key, snap) == f - Start(blocks, i))
  {
    hide Flatten, FindIndex, Start;
    var all, s, b := Flatten(blocks), Start(blocks, i), blocks[i];
    var f := FindIndex(all, key, snap);
    FlattenAt(blocks, i);
    forall k | 0 <= k < |b| ensures s + k < |all| && all[s + k] == b[k] { FlattenIndex(blocks, i, k); }
    if f == |all| {
      FindIndexIs(b, key, snap, |b|);
    } else if s <= f < s + |b| {
      FindIndexIs(b, key, snap, f - s);
    }
  }

  lemma BlocksSorted(blocks: seq<seq<Rec>>, i: nat)
    requires Sorted(Flatten(blocks)) && i < |blocks|
    ensures Sorted(blocks[i])
  {
    hide Flatten, Start;
    var s := Start(blocks, i);
    forall x, y | 0 <= x < y < |blocks[i]| ensures !Before(blocks[i][y], blocks[i][x]) {
      FlattenIndex(blocks, i, x);
      FlattenIndex(blocks, i, y);
      assert !Before(Flatten(blocks)[s + y], Flatten(blocks)[s + x]);
    }
  }

  /** The seek and the block edges leave the first visible version within reach. */
  predicate WithinReach(blocks: seq<seq<Rec>>, key: Key, f: nat) {
    var i := Target(blocks, key);
    i < |blocks| && Start(blocks, i) + SeekIndex(blocks[i], key) <= f < Start(blocks, i) + |blocks[i]|
  }

  /** At one snapshot: there is nothing to find, or the first visible version is
      within reach of where the lookup lands. */
  lemma GetExactAt(blocks: seq<seq<Rec>>, key: Key, snap: nat)
    requires Sorted(Flatten(blocks))
    ensures var f := FindIndex(Flatten(blocks), key, snap);
      GetIndex(blocks, key, snap) == f <==> f == |Flatten(blocks)| || WithinReach(blocks, key, f)
  {
    hide Flatten, Start, FindIndex, SeekIndex, GetIndexInBlock, Sorted;
    var i := Target(blocks, key);
    if i < |blocks| {
      BlocksSorted(blocks, i);
      FindInBlock(blocks, i, key, snap);
      GetInBlockExactAt(blocks[i], key, snap);
      FlattenAt(blocks, i);
    }
  }

  lemma KeyOrder(rs: seq<Rec>, i: nat, j: nat)
    requires Sorted(rs) && i <= j < |rs|
    ensures rs[i].key == rs[j].key || Less(rs[i].key, rs[j].key)
    ensures rs[i].key == rs[j].key ==> rs[i].seqno >= rs[j].seqno
  {
    hide Less;
    if i < j {
      assert !Before(rs[j], rs[i]);
      LessTotal(rs[i].key, rs[j].key);
    }
  }

  /** The last record of a block, seen in the whole list. */
  lemma LastAt(blocks: seq<seq<Rec>>, i: nat)
    requires i < |blocks| && blocks[i] != []
    ensures var at := Start(blocks, i) + |blocks[i]| - 1;
      at + 1 == Start(blocks, i + 1) <= |Flatten(blocks)| && Flatten(blocks)[at] == blocks[i][|blocks[i]| - 1]
    ensures LastKeys(blocks)[i].key == Flatten(blocks)[Start(blocks, i) + |blocks[i]| - 1].key
  {
    hide Flatten, Start;
    FlattenIndex(blocks, i, |blocks[i]| - 1);
    StartStep(blocks, i);
  }

  lemma LastKeysSorted(blocks: seq<seq<Rec>>)
    requires Sorted(Flatten(blocks)) && NoneEmpty(blocks)
    ensures KeysSorted(LastKeys(blocks))
  {
    hide Flatten, Start, Less, Sorted;
    var index := LastKeys(blocks);
    forall i, j | 0 <= i < j < |index| ensures !Less(index[j].key, index[i].key) {
      LastAt(blocks, i);
      LastAt(blocks, j);
      StartMonotone(blocks, i + 1, j);
      KeyOrder(Flatten(blocks), Start(blocks, i) + |blocks[i]| - 1, Start(blocks, j) + |blocks[j]| - 1);
      Asymmetric(index[i].key, index[j].key);
      LessIrreflexive(index[i].key);
    }
  }

  /** No older version of the key lies beyond block `i`. */
  predicate NoOlderBeyond(blocks: seq<seq<Rec>>, i: nat, key: Key)
    requires i < |blocks|
  {
    forall p: nat :: Start(blocks, i) + |blocks[i]| <= p < |Flatten(blocks)| && Flatten(blocks)[p].key == key ==>
      blocks[i] != [] && blocks[i][|blocks[i]| - 1].seqno <= Flatten(blocks)[p].seqno
  }

  /** Neither the index nor the block search lands inside the run of the key, and the
      run has no older version beyond the block. */
  predicate RunInReach(blocks: seq<seq<Rec>>, key: Key) {
    var i := Target(blocks, key);
    && !LandsInsideRun(LastKeys(blocks), key)
    && (i < |blocks| ==> !LandsInsideRun(blocks[i], key) && NoOlderBeyond(blocks, i, key))
  }

  /** A version the block search cannot reach: before where it comes to rest, or past
      the end of the block with nothing as old before it. */
  lemma OutOfReach(blocks: seq<seq<Rec>>, key: Key, p: nat)
    requires Sorted(Flatten(blocks)) && NoneEmpty(blocks)
    requires p < |Flatten(blocks)| && Flatten(blocks)[p].key == key
    requires var i := Target(blocks, key);
      i == |blocks| || p < Start(blocks, i) + SeekIndex(blocks[i], key) ||
      (Start(blocks, i) + |blocks[i]| <= p && Flatten(blocks)[p].seqno < blocks[i][|blocks[i]| - 1].seqno)
    ensures var snap := Flatten(blocks)[p].seqno; GetIndex(blocks, key, snap) != FindIndex(Flatten(blocks), key, snap)
  {
    hide Flatten, Start, FindIndex, SeekIndex, GetIndex, Sorted, Less, Target;
    var (all, i) := (Flatten(blocks), Target(blocks, key));
    var snap := all[p].seqno;
    var f := FindIndex(all, key, snap);
    GetExactAt(blocks, key, snap);
    assert f <= p;
    if WithinReach(blocks, key, f) && Start(blocks, i) + SeekIndex(blocks[i], key) <= p {
      LastAt(blocks, i);
      var last := Start(blocks, i) + |blocks[i]| - 1;
      KeyOrder(all, f, last);
      KeyOrder(all, last, p);
      Asymmetric(key, all[last].key);
    }
  }

  /** Blocks before the first whose last key reaches the key do not hold it. */
  lemma NotBeforeFirst(blocks: seq<seq<Rec>>, key: Key, p: nat)
    requires Sorted(Flatten(blocks)) && NoneEmpty(blocks)
    requires p < |Flatten(blocks)| && Flatten(blocks)[p].key == key
    ensures var i := FirstAtLeast(LastKeys(blocks), key, 0); i < |blocks| && Start(blocks, i) <= p
  {
    hide Flatten, Start, Less, Sorted, FirstAtLeast;
    var i := FirstAtLeast(LastKeys(blocks), key, 0);
    var j := Locate(blocks, p);
    if j < i {
      LastAt(blocks, j);
      KeyOrder(Flatten(blocks), p, Start(blocks, j) + |blocks[j]| - 1);
      Asymmetric(LastKeys(blocks)[j].key, key);
      LessIrreflexive(key);
    } else {
      StartMonotone(blocks, i, j);
    }
  }

  /** With no older version beyond the block, the first visible one is not beyond it. */
  lemma NotBeyond(blocks: seq<seq<Rec>>, i: nat, key: Key, snap: nat)
    requires Sorted(Flatten(blocks)) && NoneEmpty(blocks) && i < |blocks|
    requires !Less(LastKeys(blocks)[i].key, key) && NoOlderBeyond(blocks, i, key)
    ensures var f := FindIndex(Flatten(blocks), key, snap); f < |Flatten(blocks)| ==> f < Start(blocks, i) + |blocks[i]|
  {
    hide Flatten, Start, FindIndex, Sorted, Less;
    var (all, last) := (Flatten(blocks), Start(blocks, i) + |blocks[i]| - 1);
    var f := FindIndex(all, key, snap);
    LastAt(blocks, i);
    if last < f < |all| {
      KeyOrder(all, last, f);
    }
  }

  lemma ReachIsEnough(blocks: seq<seq<Rec>>, key: Key, snap: nat)
    requires Sorted(Flatten(blocks)) && NoneEmpty(blocks) && RunInReach(blocks, key)
    ensures GetIndex(blocks, key, snap) == FindIndex(Flatten(blocks), key, snap)
  {
    hide Flatten, Start, FindIndex, SeekIndex, Sorted, GetIndex, FirstAtLeast, Less, LandsInsideRun, NoOlderBeyond;
    var f := FindIndex(Flatten(blocks), key, snap);
    GetExactAt(blocks, key, snap);
    if f < |Flatten(blocks)| {
      LastKeysSorted(blocks);
      SeekExactIff(LastKeys(blocks), key);
      NotBeforeFirst(blocks, key, f);
      var i := Target(blocks, key);
      NotBeyond(blocks, i, key, snap);
      BlocksSorted(blocks, i);
      SortedKeys(blocks[i]);
      SeekExactIff(blocks[i], key);
      FlattenIndex(blocks, i, f - Start(blocks, i));
      FirstNotAfter(blocks[i], key, f - Start(blocks, i));
    }
  }

  /** Otherwise some version of the key cannot be found. */
  lemma ReachIsNeeded(blocks: seq<seq<Rec>>, key: Key) returns (snap: nat)
    requires Sorted(Flatten(blocks)) && NoneEmpty(blocks) && !RunInReach(blocks, key)
    ensures GetIndex(blocks, key, snap) != FindIndex(Flatten(blocks), key, snap)
  {
    hide Flatten, Start, FindIndex, SeekIndex, Sorted, GetIndex, FirstAtLeast, Less, Land;
    var (all, i) := (Flatten(blocks), Target(blocks, key));
    var p: nat;
    LastKeysSorted(blocks);
    SeekExactIff(LastKeys(blocks), key);
    if LandsInsideRun(LastKeys(blocks), key) {
      LastAt(blocks, i - 1);
      p := Start(blocks, i) - 1;
    } else {
      BlocksSorted(blocks, i);
      SortedKeys(blocks[i]);
      SeekExactIff(blocks[i], key);
      if LandsInsideRun(blocks[i], key) {
        FlattenIndex(blocks, i, SeekIndex(blocks[i], key) - 1);
        p := Start(blocks, i) + SeekIndex(blocks[i], key) - 1;
      } else {
        p :| Start(blocks, i) + |blocks[i]| <= p < |all| && all[p].key == key && all[p].seqno < blocks[i][|blocks[i]| - 1].seqno;
      }
    }
    OutOfReach(blocks, key, p);
    snap := all[p].seqno;
  }

  /** Point lookup of a key is a linear search at every snapshot exactly when neither
      search lands inside the key's run and no older version lies beyond the block. */
  lemma GetExactIff(blocks: seq<seq<Rec>>, key: Key)
    requires Sorted(Flatten(blocks)) && NoneEmpty(blocks)
    ensures (forall snap: nat :: GetIndex(blocks, key, snap) == FindIndex(Flatten(blocks), key, snap)) <==> RunInReach(blocks, key)
  {
    hide *;
    if RunInReach(blocks, key) {
      forall snap: nat ensures GetIndex(blocks, key, snap) == FindIndex(Flatten(blocks), key, snap) {
        ReachIsEnough(blocks, key, snap);
      }
    } else {
      var snap := ReachIsNeeded(blocks, key);
    }
  }

  // ----- which record a lookup returns -----

  /** The record a lookup lands on: the first it reads in the block it is sent to. */
  function Landed(blocks: seq<seq<Rec>>, key: Key): Option<Rec> {
    var i := Target(blocks, key);
    if i < |blocks| then At(blocks[i], SeekIndex(blocks[i], key)) else None
  }

  /** The lookup lands on the first record of the whole list that is at or above the
      key, and no older version of the key lies beyond the block. */
  predicate LandsRight(blocks: seq<seq<Rec>>, key: Key) {
    var i := Target(blocks, key);
    && Landed(blocks, key) == At(Flatten(blocks), FirstAtLeast(Flatten(blocks), key, 0))
    && (i < |blocks| ==> NoOlderBeyond(blocks, i, key))
  }

  predicate LandsInside(blocks: seq<seq<Rec>>, key: Key) {
    var i := Target(blocks, key);
    LandsInsideRun(LastKeys(blocks), key) || (i < |blocks| && LandsInsideRun(blocks[i], key))
  }

  /** The lookup of a key returns, at every snapshot, the record a linear search returns. */
  ghost predicate AnswersRight(blocks: seq<seq<Rec>>, key: Key) {
    forall snap: nat :: At(Flatten(blocks), GetIndex(blocks, key, snap)) == Find(Flatten(blocks), key, snap)
  }

  /** Everything before the first record at or above the key is below it. */
  lemma BlocksBefore(blocks: seq<seq<Rec>>, key: Key, i: nat, p: nat)
    requires Sorted(Flatten(blocks)) && NoneEmpty(blocks)
    requires i <= |blocks| && (forall q :: 0 <= q < i ==> Less(LastKeys(blocks)[q].key, key))
    requires p < Start(blocks, i) <= |Flatten(blocks)|
    ensures Less(Flatten(blocks)[p].key, key)
  {
    hide Flatten, Start, Less, Sorted;
    var q := Locate(blocks, p);
    if q >= i {
      StartMonotone(blocks, i, q);
    } else {
      LastAt(blocks, q);
      KeyOrder(Flatten(blocks), p, Start(blocks, q) + |blocks[q]| - 1);
      if Flatten(blocks)[p].key != LastKeys(blocks)[q].key {
        LessTransitive(Flatten(blocks)[p].key, LastKeys(blocks)[q].key, key);
      }
    }
  }

  lemma StartOfAll(blocks: seq<seq<Rec>>)
    ensures Start(blocks, |blocks|) == |Flatten(blocks)|
  {
    assert blocks[..|blocks|] == blocks;
  }

  /** A lookup that does not land inside the run lands on the first record at or above the key. */
  lemma OutsideLands(blocks: seq<seq<Rec>>, key: Key)
    requires Sorted(Flatten(blocks)) && NoneEmpty(blocks) && !LandsInside(blocks, key)
    ensures Landed(blocks, key) == At(Flatten(blocks), FirstAtLeast(Flatten(blocks), key, 0))
  {
    hide Flatten, Start, SeekIndex, FirstAtLeast, Less, Sorted, LandsInsideRun;
    var (all, i) := (Flatten(blocks), Target(blocks, key));
    LastKeysSorted(blocks);
    SeekExactIff(LastKeys(blocks), key);
    if i == |blocks| {
      StartOfAll(blocks);
      forall p | 0 <= p < |all| ensures Less(all[p].key, key) { BlocksBefore(blocks, key, i, p); }
      FirstIsEnd(all, key);
    } else {
      var j := SeekIndex(blocks[i], key);
      BlocksSorted(blocks, i);
      SortedKeys(blocks[i]);
      SeekExactIff(blocks[i], key);
      LastAt(blocks, i);
      assert j < |blocks[i]|;
      forall p | 0 <= p < Start(blocks, i) + j ensures Less(all[p].key, key) {
        if p < Start(blocks, i) {
          BlocksBefore(blocks, key, i, p);
        } else {
          FlattenIndex(blocks, i, p - Start(blocks, i));
        }
      }
      FlattenIndex(blocks, i, j);
      FirstIs(all, key, Start(blocks, i) + j);
    }
  }

  lemma FirstIsEnd(rs: seq<Rec>, key: Key)
    requires forall j :: 0 <= j < |rs| ==> Less(rs[j].key, key)
    ensures FirstAtLeast(rs, key, 0) == |rs|
  {
  }

  lemma RunLanding(rs: seq<Rec>, key: Key)
    requires KeysSorted(rs) && LandsInsideRun(rs, key)
    ensures 0 < SeekIndex(rs, key) < |rs| && rs[SeekIndex(rs, key)].key == rs[SeekIndex(rs, key) - 1].key == key
  {
    hide FirstAtLeast, Land, Less, SeekIndex;
    SeekExactIff(rs, key);
    LandMeaning(rs, key);
    NeighbourBelow(rs, RESTART_INTERVAL * Land(rs, key), key);
  }

  /** One that does land inside lands on a version of the key that follows another. */
  lemma InsideLands(blocks: seq<seq<Rec>>, key: Key)
    requires Sorted(Flatten(blocks)) && NoneEmpty(blocks) && LandsInside(blocks, key)
    ensures var i := Target(blocks, key);
      && i < |blocks| && SeekIndex(blocks[i], key) < |blocks[i]| && blocks[i][SeekIndex(blocks[i], key)].key == key
      && 0 < Start(blocks, i) + SeekIndex(blocks[i], key) < |Flatten(blocks)|
      && Flatten(blocks)[Start(blocks, i) + SeekIndex(blocks[i], key) - 1].key == key
  {
    hide Flatten, Start, SeekIndex, FirstAtLeast, Less, Sorted, LandsInsideRun;
    var (all, i, index) := (Flatten(blocks), Target(blocks, key), LastKeys(blocks));
    LastKeysSorted(blocks);
    if LandsInsideRun(index, key) {
      RunLanding(index, key);
      LastAt(blocks, i - 1);
    }
    BlocksSorted(blocks, i);
    SortedKeys(blocks[i]);
    var j := SeekIndex(blocks[i], key);
    LastAt(blocks, i);
    var last := |blocks[i]| - 1;
    if LandsInsideRun(blocks[i], key) {
      RunLanding(blocks[i], key);
      FlattenIndex(blocks, i, j - 1);
    } else {
      SeekExactIff(blocks[i], key);
      FirstNotAfter(blocks[i], key, last);
      AllTheKey(blocks, key, i, 0);
      FirstNotAfter(blocks[i], key, 0);
    }
    FlattenIndex(blocks, i, j);
  }

  /** Between two blocks that end in the key there is nothing else. */
  lemma AllTheKey(blocks: seq<seq<Rec>>, key: Key, i: nat, k: nat)
    requires Sorted(Flatten(blocks)) && NoneEmpty(blocks) && 0 < i < |blocks| && k < |blocks[i]|
    requires LastKeys(blocks)[i - 1].key == key == LastKeys(blocks)[i].key
    ensures blocks[i][k].key == key
  {
    hide Flatten, Start, Less, Sorted;
    var all := Flatten(blocks);
    LastAt(blocks, i - 1);
    LastAt(blocks, i);
    FlattenIndex(blocks, i, k);
    KeyOrder(all, Start(blocks, i) - 1, Start(blocks, i) + k);
    KeyOrder(all, Start(blocks, i) + k, Start(blocks, i) + |blocks[i]| - 1);
    Asymmetric(key, blocks[i][k].key);
  }

  /** The first record at or above a key that occurs is its newest version. */
  lemma HeadIs(all: seq<Rec>, key: Key, p: nat)
    requires Sorted(all) && p < |all| && all[p].key == key
    ensures var h := FirstAtLeast(all, key, 0);
      h <= p && all[h].key == key && all[h].seqno >= all[p].seqno
    ensures var h := FirstAtLeast(all, key, 0);
      forall snap: nat :: snap >= all[h].seqno ==> FindIndex(all, key, snap) == h
  {
    hide FirstAtLeast, Less, FindIndex, Sorted;
    FirstNotAfter(all, key, p);
    var h := FirstAtLeast(all, key, 0);
    KeyOrder(all, h, p);
    LessIrreflexive(key);
    forall snap: nat | snap >= all[h].seqno ensures FindIndex(all, key, snap) == h { FindIndexIs(all, key, snap, h); }
  }

  /** An older version beyond the block is not found, and nothing else is. */
  lemma BeyondIsLost(blocks: seq<seq<Rec>>, key: Key, p: nat)
    requires Sorted(Flatten(blocks)) && NoneEmpty(blocks) && Target(blocks, key) < |blocks|
    requires p < |Flatten(blocks)| && Flatten(blocks)[p].key == key
    requires var i := Target(blocks, key);
      Start(blocks, i) + |blocks[i]| <= p && Flatten(blocks)[p].seqno < blocks[i][|blocks[i]| - 1].seqno
    ensures var snap := Flatten(blocks)[p].seqno;
      GetIndex(blocks, key, snap) == |Flatten(blocks)| && Find(Flatten(blocks), key, snap).Some?
  {
    hide Flatten, Start, FindIndex, SeekIndex, Sorted, Less, Target;
    var (all, i) := (Flatten(blocks), Target(blocks, key));
    var snap := all[p].seqno;
    assert FindIndex(all, key, snap) <= p;
    var k := GetIndexInBlock(blocks[i], key, snap);
    if k < |blocks[i]| {
      FlattenIndex(blocks, i, k);
      LastAt(blocks, i);
      var last := Start(blocks, i) + |blocks[i]| - 1;
      KeyOrder(all, Start(blocks, i) + k, last);
      KeyOrder(all, last, p);
      Asymmetric(key, all[last].key);
    }
  }

  /** Landing inside the run on a copy of its head does no harm. */
  lemma CopyIsEnough(blocks: seq<seq<Rec>>, key: Key, snap: nat)
    requires Sorted(Flatten(blocks)) && NoneEmpty(blocks) && LandsInside(blocks, key) && LandsRight(blocks, key)
    ensures At(Flatten(blocks), GetIndex(blocks, key, snap)) == Find(Flatten(blocks), key, snap)
  {
    hide Flatten, Start, FindIndex, SeekIndex, FirstAtLeast, Sorted, Less, Target, LandsInside, NoOlderBeyond;
    InsideLands(blocks, key);
    var (all, i) := (Flatten(blocks), Target(blocks, key));
    var j := SeekIndex(blocks[i], key);
    var at := Start(blocks, i) + j;
    HeadIs(all, key, at - 1);
    var h := FirstAtLeast(all, key, 0);
    FlattenIndex(blocks, i, j);
    FlattenAt(blocks, i);
    if snap < all[h].seqno {
      var f := FindIndex(all, key, snap);
      TooNew(all, key, h, at, snap);
      TargetReaches(blocks, key);
      NotBeyond(blocks, i, key, snap);
      FindInBlock(blocks, i, key, snap);
    }
  }

  lemma TooNew(all: seq<Rec>, key: Key, h: nat, at: nat, snap: nat)
    requires Sorted(all) && h == FirstAtLeast(all, key, 0) <= at < |all| && all[h] == all[at] && all[at].key == key && all[at].seqno > snap
    ensures FindIndex(all, key, snap) > at
  {
    hide FirstAtLeast, Less, FindIndex, Sorted;
    LessIrreflexive(key);
    forall p | 0 <= p <= at ensures !Visible(all[p], key, snap) {
      if p >= h { KeyOrder(all, p, at); }
    }
  }

  lemma TargetReaches(blocks: seq<seq<Rec>>, key: Key)
    requires Target(blocks, key) < |blocks|
    ensures !Less(LastKeys(blocks)[Target(blocks, key)].key, key)
  {
    hide Less, Land, LastKey;
  }

  /** Landing inside the run on anything else is answered wrong at the newest version. */
  lemma OtherIsWrong(blocks: seq<seq<Rec>>, key: Key)
    requires Sorted(Flatten(blocks)) && NoneEmpty(blocks) && LandsInside(blocks, key)
    requires Landed(blocks, key) != At(Flatten(blocks), FirstAtLeast(Flatten(blocks), key, 0))
    ensures var h := FirstAtLeast(Flatten(blocks), key, 0);
      && h < |Flatten(blocks)| && Flatten(blocks)[h].key == key
      && var snap := Flatten(blocks)[h].seqno;
         At(Flatten(blocks), GetIndex(blocks, key, snap)) != Find(Flatten(blocks), key, snap)
  {
    hide Flatten, Start, FindIndex, SeekIndex, FirstAtLeast, Sorted, Less, Target, LandsInside;
    InsideLands(blocks, key);
    var (all, i) := (Flatten(blocks), Target(blocks, key));
    var j := SeekIndex(blocks[i], key);
    var at := Start(blocks, i) + j;
    HeadIs(all, key, at - 1);
    FlattenIndex(blocks, i, j);
    var h := FirstAtLeast(all, key, 0);
    KeyOrder(all, h, at);
    var snap := all[h].seqno;
    assert GetIndex(blocks, key, snap) == at;
    assert Find(all, key, snap) == Some(all[h]);
  }

  /** A lookup that does not land right is wrong at one of the key's own versions. */
  lemma WrongAt(blocks: seq<seq<Rec>>, key: Key) returns (p: nat)
    requires Sorted(Flatten(blocks)) && NoneEmpty(blocks) && !LandsRight(blocks, key)
    ensures p < |Flatten(blocks)| && Flatten(blocks)[p].key == key
    ensures var snap := Flatten(blocks)[p].seqno;
      At(Flatten(blocks), GetIndex(blocks, key, snap)) != Find(Flatten(blocks), key, snap)
  {
    hide Flatten, Start, FindIndex, SeekIndex, FirstAtLeast, Sorted, Less, Target, LandsInside, GetIndex, Landed, Find;
    if !LandsInside(blocks, key) { OutsideLands(blocks, key); }
    if Landed(blocks, key) != At(Flatten(blocks), FirstAtLeast(Flatten(blocks), key, 0)) {
      OtherIsWrong(blocks, key);
      p := FirstAtLeast(Flatten(blocks), key, 0);
    } else {
      var i := Target(blocks, key);
      p :| Start(blocks, i) + |blocks[i]| <= p < |Flatten(blocks)| && Flatten(blocks)[p].key == key
        && Flatten(blocks)[p].seqno < blocks[i][|blocks[i]| - 1].seqno;
      BeyondIsLost(blocks, key, p);
    }
  }

  lemma ExactAnswers(blocks: seq<seq<Rec>>, key: Key, snap: nat)
    requires GetIndex(blocks, key, snap) == FindIndex(Flatten(blocks), key, snap)
    ensures At(Flatten(blocks), GetIndex(blocks, key, snap)) == Find(Flatten(blocks), key, snap)
  {
    hide Flatten, GetIndex, FindIndex;
  }

  /** Every snapshot of a key is answered with the record a linear search finds exactly
      when the lookup lands on the first record at or above the key, or on a copy of
      it, and no older version lies beyond the block. */
  lemma AnswersIff(blocks: seq<seq<Rec>>, key: Key)
    requires Sorted(Flatten(blocks)) && NoneEmpty(blocks)
    ensures AnswersRight(blocks, key) <==> LandsRight(blocks, key)
  {
    hide Flatten, GetIndex, Find, At, LandsInsideRun, LandsRight, Sorted, NoneEmpty;
    if LandsRight(blocks, key) {
      forall snap: nat ensures At(Flatten(blocks), GetIndex(blocks, key, snap)) == Find(Flatten(blocks), key, snap) {
        if LandsInside(blocks, key) {
          CopyIsEnough(blocks, key, snap);
        } else {
          LandsInReach(blocks, key);
          ReachIsEnough(blocks, key, snap);
          ExactAnswers(blocks, key, snap);
        }
      }
    } else {
      var p := WrongAt(blocks, key);
    }
  }

  lemma LandsInReach(blocks: seq<seq<Rec>>, key: Key)
    requires !LandsInside(blocks, key) && LandsRight(blocks, key)
    ensures RunInReach(blocks, key)
  {
    hide LandsInsideRun, NoOlderBeyond, Landed, FirstAtLeast, Target;
  }

  // ----- when nothing crosses an edge -----

  /** No run of equal keys crosses a block edge or, inside a block, a restart point. */
  predicate NoRunCrosses(blocks: seq<seq<Rec>>) {
    && (forall i :: 0 <= i < |blocks| ==> blocks[i] != [] && NoRunCrossesRestart(blocks[i]))
    && forall i :: 0 < i < |blocks| ==> LastKey(blocks[i - 1]) != blocks[i][0].key
  }

  /** The last key of a block is below everything from the next block on. */
  lemma LastKeyBelow(blocks: seq<seq<Rec>>, i: nat, at: nat)
    requires Sorted(Flatten(blocks)) && NoRunCrosses(blocks)
    requires 0 < i < |blocks| && Start(blocks, i) <= at < |Flatten(blocks)|
    ensures Less(LastKey(blocks[i - 1]), Flatten(blocks)[at].key)
  {
    hide Flatten, Less, Start, NoRunCrossesRestart, Sorted;
    var all, b := Flatten(blocks), blocks[i - 1];
    StartStep(blocks, i - 1);
    var s := Start(blocks, i);
    FlattenIndex(blocks, i - 1, |b| - 1);
    FlattenIndex(blocks, i, 0);
    assert all[s - 1].key == LastKey(b) && all[s].key == blocks[i][0].key;
    KeyOrder(all, s - 1, s);
    KeyOrder(all, s, at);
    if all[s].key != all[at].key { LessTransitive(all[s - 1].key, all[s].key, all[at].key); }
  }

  lemma LastKeysAscend(blocks: seq<seq<Rec>>, i: nat, j: nat)
    requires Sorted(Flatten(blocks)) && NoRunCrosses(blocks) && i < j < |blocks|
    ensures Less(LastKey(blocks[i]), LastKey(blocks[j]))
  {
    hide Flatten, Less, Start, NoRunCrossesRestart, Sorted;
    StartMonotone(blocks, i + 1, j);
    FlattenIndex(blocks, j, |blocks[j]| - 1);
    LastKeyBelow(blocks, i + 1, Start(blocks, j) + |blocks[j]| - 1);
  }

  /** The index then sends a lookup to the block that holds the key. */
  lemma TargetHolds(blocks: seq<seq<Rec>>, i: nat, at: nat)
    requires Sorted(Flatten(blocks)) && NoRunCrosses(blocks)
    requires i < |blocks| && Start(blocks, i) <= at < Start(blocks, i) + |blocks[i]| <= |Flatten(blocks)|
    ensures Target(blocks, Flatten(blocks)[at].key) == i
  {
    hide Flatten, Less, Start, NoRunCrossesRestart, Sorted, SeekIndex, FirstAtLeast;
    var key, index := Flatten(blocks)[at].key, LastKeys(blocks);
    forall x, y | 0 <= x < y < |index| ensures Less(index[x].key, index[y].key) { LastKeysAscend(blocks, x, y); }
    AscendingSeek(index, key);
    forall j | 0 <= j < i ensures Less(index[j].key, key) {
      StartMonotone(blocks, j + 1, i);
      LastKeyBelow(blocks, j + 1, at);
    }
    assert !Less(index[i].key, key) by {
      FlattenIndex(blocks, i, |blocks[i]| - 1);
      KeyOrder(Flatten(blocks), at, Start(blocks, i) + |blocks[i]| - 1);
      Asymmetric(key, index[i].key);
    }
    FirstIs(index, key, i);
  }

  lemma AscendingSeek(rs: seq<Rec>, key: Key)
    requires forall x, y :: 0 <= x < y < |rs| ==> Less(rs[x].key, rs[y].key)
    ensures SeekIndex(rs, key) == FirstAtLeast(rs, key, 0)
  {
    hide Less, SeekIndex, FirstAtLeast;
    forall x, y | 0 <= x < y < |rs| ensures !Less(rs[y].key, rs[x].key) { Asymmetric(rs[x].key, rs[y].key); }
    forall i | 0 < i < |rs| ensures rs[i].key != rs[i - 1].key { LessIrreflexive(rs[i].key); }
    SeekIsExact(rs, key);
  }

  lemma FirstIs(rs: seq<Rec>, key: Key, i: nat)
    requires i < |rs| && !Less(rs[i].key, key) && forall j :: 0 <= j < i ==> Less(rs[j].key, key)
    ensures FirstAtLeast(rs, key, 0) == i
  {
  }

  /** On a table where no run of equal keys crosses a restart or a block edge, point
      lookup is linear search, for every key and snapshot. */
  lemma GetIsLinear(blocks: seq<seq<Rec>>, key: Key, snap: nat)
    requires Sorted(Flatten(blocks)) && NoRunCrosses(blocks)
    ensures GetIndex(blocks, key, snap) == FindIndex(Flatten(blocks), key, snap)
  {
    hide Flatten, Start, FindIndex, SeekIndex, Sorted, GetIndex, Target, FirstAtLeast, Less, NoRunCrossesRestart;
    var all := Flatten(blocks);
    var f := FindIndex(all, key, snap);
    GetExactAt(blocks, key, snap);
    if f < |all| {
      var i := Locate(blocks, f);
      FlattenAt(blocks, i);
      TargetHolds(blocks, i, f);
      BlocksSorted(blocks, i);
      SortedKeys(blocks[i]);
      SeekIsExact(blocks[i], key);
      FirstNotAfter(blocks[i], key, f - Start(blocks, i));
    }
  }

  /** Then every key lands right. */
  lemma NoRunCrossesLands(blocks: seq<seq<Rec>>, key: Key)
    requires Sorted(Flatten(blocks)) && NoRunCrosses(blocks)
    ensures LandsRight(blocks, key)
  {
    hide Flatten, FindIndex, Sorted, GetIndex, NoRunCrossesRestart, LandsRight, Find;
    forall snap: nat ensures At(Flatten(blocks), GetIndex(blocks, key, snap)) == Find(Flatten(blocks), key, snap) {
      GetIsLinear(blocks, key, snap);
      ExactAnswers(blocks, key, snap);
    }
    AnswersIff(blocks, key);
  }

  predicate DistinctKeys(rs: seq<Rec>) {
    forall i, j :: 0 <= i < j < |rs| ==> rs[i].key != rs[j].key
  }

  /** In particular when every key occurs once. */
  lemma DistinctKeysAreFine(blocks: seq<seq<Rec>>, key: Key, snap: nat)
    requires Sorted(Flatten(blocks)) && DistinctKeys(Flatten(blocks)) && NoneEmpty(blocks)
    ensures GetIndex(blocks, key, snap) == FindIndex(Flatten(blocks), key, snap)
  {
    hide Flatten, Start, FindIndex, Sorted, GetIndex;
    var all := Flatten(blocks);
    forall i | 0 <= i < |blocks| ensures NoRunCrossesRestart(blocks[i]) {
      forall k | 0 < k < |blocks[i]| ensures blocks[i][k].key != blocks[i][k - 1].key {
        FlattenIndex(blocks, i, k);
        FlattenIndex(blocks, i, k - 1);
      }
    }
    forall i | 0 < i < |blocks| ensures LastKey(blocks[i - 1]) != blocks[i][0].key {
      StartStep(blocks, i - 1);
      FlattenIndex(blocks, i - 1, |blocks[i - 1]| - 1);
      FlattenIndex(blocks, i, 0);
    }
    GetIsLinear(blocks, key, snap);
  }

  // ----- when a run does cross -----

  /** One block with more than sixteen versions of one key: every snapshot that sees
      them all is answered from the middle of the run, not from its head. */
  lemma OneKeyTableGoesStale(rs: seq<Rec>, key: Key, snap: nat)
    requires |rs| > RESTART_INTERVAL && forall i :: 0 <= i < |rs| ==> rs[i].key == key && rs[i].seqno <= snap
    ensures Flatten([rs]) == rs && FindIndex(rs, key, snap) == 0
    ensures GetIndex([rs], key, snap) == RESTART_INTERVAL * (RestartCount(|rs|) / 2) > 0
  {
    hide *;
    OneKeyGet(rs, key, snap);
    OneBlockGet(rs, key, snap);
  }

  lemma OneKeyGet(rs: seq<Rec>, key: Key, snap: nat)
    requires |rs| > RESTART_INTERVAL && forall i :: 0 <= i < |rs| ==> rs[i].key == key && rs[i].seqno <= snap
    ensures FindIndex(rs, key, snap) == 0 && LastKey(rs) == key
    ensures GetIndexInBlock(rs, key, snap) == RESTART_INTERVAL * (RestartCount(|rs|) / 2) > 0
  {
    hide SeekIndex;
    OneKeyBlock(rs, key);
  }

  lemma OneBlockGet(rs: seq<Rec>, key: Key, snap: nat)
    requires rs != [] && LastKey(rs) == key
    ensures Flatten([rs]) == rs && GetIndex([rs], key, snap) == GetIndexInBlock(rs, key, snap)
  {
    hide GetIndexInBlock, Target, LastKey;
    FlattenAppend([], rs);
    assert [] + [rs] == [rs] && [] + rs == rs;
    assert [rs][..0] == [];
    OneEntry(rs, key);
  }

  lemma OneEntry(rs: seq<Rec>, key: Key)
    requires rs != [] && LastKey(rs) == key
    ensures Target([rs], key) == 0
  {
    LessIrreflexive(key);
    assert LastKeys([rs])[0].key == key;
  }
}
