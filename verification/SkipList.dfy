/** The memtable: a skip list whose links are walked and rewired in place. A
    pointer is the arena index of a node; node 0 is the head. */
module SkipList {
  import opened Bytes
  import opened Records

  const MAX_HEIGHT: nat := 12
  const NIL: int := -1

  /** One arena node: its record and one forward link per level. */
  datatype Node = Node(rec: Rec, next: seq<int>)

  /** The record a node carries: a tombstone keeps no value. */
  function Stored(key: Key, value: seq<byte>, seqno: nat, op: RecordOp): Rec {
    Rec(key, seqno, op, if op == Live then value else [])
  }

  // ----- the list a set of links stands for -----

  /** First index at or after `i` of a node that reaches above level `l`, |hs| when there is none. */
  function NextTall(hs: seq<nat>, i: nat, l: nat): (j: nat)
    requires i <= |hs|
    ensures i <= j <= |hs|
    ensures j < |hs| ==> hs[j] > l
    ensures forall m :: i <= m < j ==> hs[m] <= l
    decreases |hs| - i
  {
    if i == |hs| || hs[i] > l then i else NextTall(hs, i + 1, l)
  }

  lemma NextTallIs(hs: seq<nat>, i: nat, l: nat, j: nat)
    requires i <= j <= |hs| && (j < |hs| ==> hs[j] > l)
    requires forall m :: i <= m < j ==> hs[m] <= l
    ensures NextTall(hs, i, l) == j
  {
  }

  function PtrAt(order: seq<nat>, j: nat): int {
    if j < |order| then order[j] else NIL
  }

  ghost function Heights(nodes: seq<Node>, order: seq<nat>): (hs: seq<nat>)
    requires forall i :: 0 <= i < |order| ==> order[i] < |nodes|
    ensures |hs| == |order| && forall i :: 0 <= i < |hs| ==> hs[i] == |nodes[order[i]].next|
  {
    seq(|order|, i requires 0 <= i < |order| => |nodes[order[i]].next|)
  }

  /** `order` lists every node once, head first. */
  ghost predicate Enumerates(nodes: seq<Node>, order: seq<nat>) {
    && |order| == |nodes| && |order| >= 1 && order[0] == 0
    && (forall i :: 0 <= i < |order| ==> order[i] < |nodes|)
    && (forall i, j :: 0 <= i < j < |order| ==> order[i] != order[j])
  }

  /** Each link goes to the next node tall enough for its level. */
  ghost predicate Linked(nodes: seq<Node>, order: seq<nat>)
    requires Enumerates(nodes, order)
  {
    forall i, l :: 0 <= i < |order| && 0 <= l < |nodes[order[i]].next| ==>
      nodes[order[i]].next[l] == PtrAt(order, NextTall(Heights(nodes, order), i + 1, l))
  }

  ghost function EntriesOf(nodes: seq<Node>, order: seq<nat>): (s: seq<Rec>)
    requires Enumerates(nodes, order)
    ensures |s| == |order| - 1 && forall i :: 0 <= i < |s| ==> s[i] == nodes[order[i + 1]].rec
  {
    seq(|order| - 1, i requires 0 <= i < |order| - 1 => nodes[order[i + 1]].rec)
  }

  ghost predicate WellFormed(nodes: seq<Node>, order: seq<nat>, maxHeight: nat) {
    && Enumerates(nodes, order)
    && 1 <= maxHeight <= MAX_HEIGHT
    && |nodes[0].next| == MAX_HEIGHT
    && (forall p :: 1 <= p < |nodes| ==> 1 <= |nodes[p].next| <= maxHeight)
    && Linked(nodes, order)
    && Sorted(EntriesOf(nodes, order))
  }

  /** `q` is the last index before `p` whose node reaches above level `l`. */
  ghost predicate IsPred(hs: seq<nat>, p: nat, l: nat, q: nat) {
    && q < p <= |hs| && hs[q] > l
    && forall m :: q < m < p ==> hs[m] <= l
  }

  /** A pointer to that node. */
  ghost predicate PredPtr(order: seq<nat>, hs: seq<nat>, p: nat, l: nat, ptr: int) {
    exists q: nat :: IsPred(hs, p, l, q) && q < |order| && ptr == order[q]
  }

  /** Order index where (key, seqno) belongs. */
  ghost function Slot(nodes: seq<Node>, order: seq<nat>, key: Key, seqno: nat): (p: nat)
    requires Enumerates(nodes, order)
    ensures 1 <= p <= |order|
  {
    1 + Position(EntriesOf(nodes, order), key, seqno)
  }

  /** Which side of the slot a node lies on, decided by comparing keys. */
  lemma SlotSide(nodes: seq<Node>, order: seq<nat>, maxHeight: nat, key: Key, seqno: nat, j: nat)
    requires WellFormed(nodes, order, maxHeight) && 1 <= j < |order|
    ensures var r := nodes[order[j]].rec;
      KeyBefore(r.key, r.seqno, key, seqno) <==> j < Slot(nodes, order, key, seqno)
  {
    var s := EntriesOf(nodes, order);
    assert s[j - 1] == nodes[order[j]].rec;
    if j >= Slot(nodes, order, key, seqno) {
      AfterPosition(s, key, seqno, j - 1);
    }
  }

  /** What one comparison at a level tells about the slot. */
  lemma FollowLink(nodes: seq<Node>, order: seq<nat>, maxHeight: nat, key: Key, seqno: nat, c: nat, level: nat)
    requires WellFormed(nodes, order, maxHeight)
    requires c < Slot(nodes, order, key, seqno) && level < |nodes[order[c]].next|
    ensures var hs := Heights(nodes, order);
      var p := Slot(nodes, order, key, seqno);
      var j := NextTall(hs, c + 1, level);
      var link := nodes[order[c]].next[level];
      && link == PtrAt(order, j)
      && (link != NIL ==> 0 <= link < |nodes| && j < |order| && link == order[j] && hs[j] > level)
      && (link != NIL ==> (KeyBefore(nodes[link].rec.key, nodes[link].rec.seqno, key, seqno) <==> j < p))
      && (link == NIL ==> j == |order|)
      && (j >= p ==> IsPred(hs, p, level, c) && NextTall(hs, p, level) == j)
  {
    hide NextTall, Slot, KeyBefore, Sorted;
    var hs := Heights(nodes, order);
    var p := Slot(nodes, order, key, seqno);
    var j := NextTall(hs, c + 1, level);
    if j < |order| {
      SlotSide(nodes, order, maxHeight, key, seqno, j);
    }
    if j >= p {
      NextTallIs(hs, p, level, j);
    }
  }

  /** Above the tallest node only the head has links, and they are null. */
  lemma EmptyLevels(nodes: seq<Node>, order: seq<nat>, maxHeight: nat, p: nat)
    requires WellFormed(nodes, order, maxHeight) && 1 <= p <= |order|
    ensures var hs := Heights(nodes, order);
      forall l :: maxHeight <= l < MAX_HEIGHT ==> IsPred(hs, p, l, 0) && NextTall(hs, p, l) == |order|
  {
    hide NextTall;
    var hs := Heights(nodes, order);
    forall l | maxHeight <= l < MAX_HEIGHT
      ensures IsPred(hs, p, l, 0) && NextTall(hs, p, l) == |order|
    {
      assert forall m :: 1 <= m < |hs| ==> order[m] != order[0];
      NextTallIs(hs, p, l, |order|);
    }
  }

  // ----- rewiring -----

  /** Nodes after linking a new one, of the given height, between its predecessors and followers. */
  ghost predicate LinkedIn(nodes: seq<Node>, nodes': seq<Node>, r: Rec, height: nat, prev: seq<int>, following: seq<int>, done: nat) {
    var n := |nodes|;
    && |prev| == |following| == MAX_HEIGHT && done <= height <= MAX_HEIGHT
    && |nodes'| == n + 1
    && nodes'[n].rec == r && |nodes'[n].next| == height
    && (forall l :: 0 <= l < done ==> nodes'[n].next[l] == following[l])
    && forall q :: 0 <= q < n ==>
      && nodes'[q].rec == nodes[q].rec && |nodes'[q].next| == |nodes[q].next|
      && forall l :: 0 <= l < |nodes[q].next| ==>
        nodes'[q].next[l] == if l < done && prev[l] == q then n else nodes[q].next[l]
  }

  /** Predecessors and followers of a slot, level by level. */
  ghost predicate Brackets(nodes: seq<Node>, order: seq<nat>, p: nat, prev: seq<int>, following: seq<int>)
    requires Enumerates(nodes, order) && 1 <= p <= |order|
  {
    && |prev| == |following| == MAX_HEIGHT
    && forall l :: 0 <= l < MAX_HEIGHT ==>
      && PredPtr(order, Heights(nodes, order), p, l, prev[l])
      && following[l] == PtrAt(order, NextTall(Heights(nodes, order), p, l))
  }

  /** The same from a level up. */
  ghost predicate Bracketed(order: seq<nat>, hs: seq<nat>, p: nat, prev: seq<int>, following: seq<int>, from: nat) {
    && |hs| == |order| && p <= |order|
    && |prev| == |following| == MAX_HEIGHT
    && forall l :: from <= l < MAX_HEIGHT ==>
      PredPtr(order, hs, p, l, prev[l]) && following[l] == PtrAt(order, NextTall(hs, p, l))
  }

  lemma StartBrackets(nodes: seq<Node>, order: seq<nat>, maxHeight: nat, p: nat, prev: seq<int>, following: seq<int>)
    requires WellFormed(nodes, order, maxHeight) && 1 <= p <= |order|
    requires |prev| == |following| == MAX_HEIGHT
    requires forall l :: 0 <= l < MAX_HEIGHT ==> prev[l] == 0 && following[l] == NIL
    ensures Bracketed(order, Heights(nodes, order), p, prev, following, maxHeight)
  {
    hide NextTall, Linked, Sorted;
    EmptyLevels(nodes, order, maxHeight, p);
  }

  lemma BracketOne(order: seq<nat>, hs: seq<nat>, p: nat, prev: seq<int>, following: seq<int>,
                   l: nat, cur: int, link: int, c: nat)
    requires Bracketed(order, hs, p, prev, following, l + 1) && l < MAX_HEIGHT
    requires IsPred(hs, p, l, c) && c < |order| && cur == order[c] && link == PtrAt(order, NextTall(hs, p, l))
    ensures Bracketed(order, hs, p, prev[l := cur], following[l := link], l)
  {
    assert PredPtr(order, hs, p, l, cur);
    hide NextTall, IsPred, PtrAt, PredPtr;
  }

  lemma BracketsIntro(nodes: seq<Node>, order: seq<nat>, p: nat, prev: seq<int>, following: seq<int>)
    requires Enumerates(nodes, order) && 1 <= p <= |order|
    requires Bracketed(order, Heights(nodes, order), p, prev, following, 0)
    ensures Brackets(nodes, order, p, prev, following)
  {
    hide NextTall, PtrAt;
  }

  function OrderAfter(order: seq<nat>, p: nat, n: nat): (o: seq<nat>)
    requires p <= |order|
    ensures |o| == |order| + 1
  {
    order[..p] + [n] + order[p..]
  }

  /** The link a node at order index `i` must have after the insertion. */
  lemma NextTallAfterInsert(hs: seq<nat>, hs': seq<nat>, p: nat, h: nat, i: nat, l: nat)
    requires p <= |hs| && i <= |hs| && hs' == hs[..p] + [h] + hs[p..]
    ensures i >= p ==> NextTall(hs', i + 1, l) == NextTall(hs, i, l) + 1
    ensures i < p && NextTall(hs, i, l) < p ==> NextTall(hs', i, l) == NextTall(hs, i, l)
    ensures i <= p && NextTall(hs, i, l) >= p && h > l ==> NextTall(hs', i, l) == p
    ensures i <= p && NextTall(hs, i, l) >= p && h <= l ==> NextTall(hs', i, l) == NextTall(hs, i, l) + 1
  {
    hide NextTall;
    var j := NextTall(hs, i, l);
    assert forall m :: 0 <= m < p ==> hs'[m] == hs[m];
    assert hs'[p] == h;
    assert forall m :: p < m < |hs'| ==> hs'[m] == hs[m - 1];
    if i >= p {
      NextTallIs(hs', i + 1, l, j + 1);
    }
    if i < p && j < p {
      NextTallIs(hs', i, l, j);
    } else if i <= p && j >= p {
      NextTallIs(hs', i, l, if h > l then p else j + 1);
    }
  }

  lemma PtrAfter(order: seq<nat>, p: nat, n: nat, j: nat)
    requires p <= |order| && j <= |order|
    ensures var order' := OrderAfter(order, p, n);
      && PtrAt(order', p) == n
      && (j < p ==> PtrAt(order', j) == PtrAt(order, j))
      && (j >= p ==> PtrAt(order', j + 1) == PtrAt(order, j))
  {
  }

  lemma HeightsAfter(nodes: seq<Node>, nodes': seq<Node>, order: seq<nat>, p: nat, r: Rec, height: nat, prev: seq<int>, following: seq<int>)
    requires Enumerates(nodes, order) && 1 <= p <= |order|
    requires LinkedIn(nodes, nodes', r, height, prev, following, height)
    ensures Enumerates(nodes', OrderAfter(order, p, |nodes|))
    ensures var hs := Heights(nodes, order);
      Heights(nodes', OrderAfter(order, p, |nodes|)) == hs[..p] + [height] + hs[p..]
  {
  }

  /** One link after the loop. */
  lemma RelinkedAt(nodes: seq<Node>, nodes': seq<Node>, order: seq<nat>, r: Rec, height: nat,
                   p: nat, prev: seq<int>, following: seq<int>, i: nat, l: nat)
    requires Enumerates(nodes, order) && Linked(nodes, order) && 1 <= height <= MAX_HEIGHT && 1 <= p <= |order|
    requires Brackets(nodes, order, p, prev, following)
    requires LinkedIn(nodes, nodes', r, height, prev, following, height)
    requires Enumerates(nodes', OrderAfter(order, p, |nodes|))
    requires i < |order| + 1 && l < |nodes'[OrderAfter(order, p, |nodes|)[i]].next|
    ensures var order' := OrderAfter(order, p, |nodes|);
      nodes'[order'[i]].next[l] == PtrAt(order', NextTall(Heights(nodes', order'), i + 1, l))
  {
    hide NextTall, PtrAt, Linked, LinkedIn, Brackets, OrderAfter, Heights;
    var n := |nodes|;
    var order' := OrderAfter(order, p, n);
    var hs, hs' := Heights(nodes, order), Heights(nodes', order');
    HeightsAfter(nodes, nodes', order, p, r, height, prev, following);
    OrderAfterAt(order, p, n, i);
    if i == p {
      NewLink(nodes, nodes', order, r, height, p, prev, following, l);
      NextTallAfterInsert(hs, hs', p, height, i, l);
      PtrAfter(order, p, n, NextTall(hs, i, l));
    } else if i > p {
      OldLink(nodes, nodes', order, r, height, p, prev, following, i - 1, l);
      NextTallAfterInsert(hs, hs', p, height, i, l);
      PtrAfter(order, p, n, NextTall(hs, i, l));
    } else {
      OldLink(nodes, nodes', order, r, height, p, prev, following, i, l);
      NextTallAfterInsert(hs, hs', p, height, i + 1, l);
      PtrAfter(order, p, n, NextTall(hs, i + 1, l));
    }
  }

  lemma OrderAfterAt(order: seq<nat>, p: nat, n: nat, i: nat)
    requires p <= |order| && i <= |order|
    ensures OrderAfter(order, p, n)[i] == if i < p then order[i] else if i == p then n else order[i - 1]
  {
  }

  lemma NewLink(nodes: seq<Node>, nodes': seq<Node>, order: seq<nat>, r: Rec, height: nat,
                p: nat, prev: seq<int>, following: seq<int>, l: nat)
    requires Enumerates(nodes, order) && 1 <= p <= |order|
    requires Brackets(nodes, order, p, prev, following)
    requires LinkedIn(nodes, nodes', r, height, prev, following, height)
    requires l < |nodes'[|nodes|].next|
    ensures nodes'[|nodes|].next[l] == PtrAt(order, NextTall(Heights(nodes, order), p, l))
  {
    hide NextTall, PtrAt;
  }

  /** An old node keeps its link, unless it is the predecessor at a level the new node reaches. */
  lemma OldLink(nodes: seq<Node>, nodes': seq<Node>, order: seq<nat>, r: Rec, height: nat,
                p: nat, prev: seq<int>, following: seq<int>, i: nat, l: nat)
    requires Enumerates(nodes, order) && Linked(nodes, order) && 1 <= p <= |order|
    requires Brackets(nodes, order, p, prev, following)
    requires LinkedIn(nodes, nodes', r, height, prev, following, height)
    requires i < |order| && l < |nodes'[order[i]].next|
    ensures var next := NextTall(Heights(nodes, order), i + 1, l);
      nodes'[order[i]].next[l] == if i < p && l < height && next >= p then |nodes| else PtrAt(order, next)
  {
    hide NextTall, PtrAt;
    var hs := Heights(nodes, order);
    assert nodes[order[i]].next[l] == PtrAt(order, NextTall(hs, i + 1, l));
    if l < height {
      assert PredPtr(order, hs, p, l, prev[l]);
      var q: nat :| IsPred(hs, p, l, q) && q < |order| && prev[l] == order[q];
      assert hs[i] > l;
      assert i == q <==> prev[l] == order[i];
    }
  }

  /** The links after the loop are those of the list with the new node in its slot. */
  lemma RelinkedIsLinked(nodes: seq<Node>, nodes': seq<Node>, order: seq<nat>, r: Rec, height: nat,
                         p: nat, prev: seq<int>, following: seq<int>)
    requires Enumerates(nodes, order) && Linked(nodes, order) && 1 <= height <= MAX_HEIGHT && 1 <= p <= |order|
    requires Brackets(nodes, order, p, prev, following)
    requires LinkedIn(nodes, nodes', r, height, prev, following, height)
    ensures Enumerates(nodes', OrderAfter(order, p, |nodes|))
    ensures Linked(nodes', OrderAfter(order, p, |nodes|))
  {
    hide NextTall, LinkedIn, Brackets, OrderAfter;
    HeightsAfter(nodes, nodes', order, p, r, height, prev, following);
    var order' := OrderAfter(order, p, |nodes|);
    forall i, l | 0 <= i < |order'| && 0 <= l < |nodes'[order'[i]].next|
      ensures nodes'[order'[i]].next[l] == PtrAt(order', NextTall(Heights(nodes', order'), i + 1, l))
    {
      RelinkedAt(nodes, nodes', order, r, height, p, prev, following, i, l);
    }
  }

  lemma RelinkedEntries(nodes: seq<Node>, nodes': seq<Node>, order: seq<nat>, r: Rec, height: nat, prev: seq<int>, following: seq<int>)
    requires Enumerates(nodes, order) && Enumerates(nodes', OrderAfter(order, Slot(nodes, order, r.key, r.seqno), |nodes|))
    requires LinkedIn(nodes, nodes', r, height, prev, following, height)
    ensures EntriesOf(nodes', OrderAfter(order, Slot(nodes, order, r.key, r.seqno), |nodes|)) == Insert(EntriesOf(nodes, order), r)
  {
    var p := Slot(nodes, order, r.key, r.seqno);
    var order' := OrderAfter(order, p, |nodes|);
    var s, s' := EntriesOf(nodes, order), EntriesOf(nodes', order');
    forall i | 0 <= i < |s'|
      ensures s'[i] == Insert(s, r)[i]
    {
      assert s'[i] == nodes'[order'[i + 1]].rec;
    }
  }

  lemma LinkedCount(nodes: seq<Node>, nodes': seq<Node>, r: Rec, height: nat, prev: seq<int>, following: seq<int>, done: nat)
    requires LinkedIn(nodes, nodes', r, height, prev, following, done)
    ensures |nodes'| == |nodes| + 1
  {
  }

  /** Any nodes that result from linking the record in stand for the list with it inserted. */
  lemma InsertedIsFormed(nodes: seq<Node>, order: seq<nat>, maxHeight: nat, r: Rec, height: nat, prev: seq<int>, following: seq<int>)
    requires WellFormed(nodes, order, maxHeight) && 1 <= height <= MAX_HEIGHT
    requires Brackets(nodes, order, Slot(nodes, order, r.key, r.seqno), prev, following)
    ensures forall nodes' :: LinkedIn(nodes, nodes', r, height, prev, following, height) ==>
      var order' := OrderAfter(order, Slot(nodes, order, r.key, r.seqno), |nodes|);
      && WellFormed(nodes', order', Max(maxHeight, height))
      && EntriesOf(nodes', order') == Insert(EntriesOf(nodes, order), r)
  {
    hide Brackets, LinkedIn, Linked, Sorted;
    var p := Slot(nodes, order, r.key, r.seqno);
    forall nodes' | LinkedIn(nodes, nodes', r, height, prev, following, height)
      ensures var order' := OrderAfter(order, p, |nodes|);
        && WellFormed(nodes', order', Max(maxHeight, height))
        && EntriesOf(nodes', order') == Insert(EntriesOf(nodes, order), r)
    {
      RelinkedIsLinked(nodes, nodes', order, r, height, p, prev, following);
      RelinkedEntries(nodes, nodes', order, r, height, prev, following);
      InsertIsSorted(EntriesOf(nodes, order), r);
      RelinkedHeights(nodes, nodes', r, height, prev, following, maxHeight);
    }
  }

  lemma RelinkedHeights(nodes: seq<Node>, nodes': seq<Node>, r: Rec, height: nat, prev: seq<int>, following: seq<int>, maxHeight: nat)
    requires LinkedIn(nodes, nodes', r, height, prev, following, height) && nodes != [] && 1 <= height
    requires |nodes[0].next| == MAX_HEIGHT && forall q :: 1 <= q < |nodes| ==> 1 <= |nodes[q].next| <= maxHeight
    ensures |nodes'[0].next| == MAX_HEIGHT && forall q :: 1 <= q < |nodes'| ==> 1 <= |nodes'[q].next| <= Max(maxHeight, height)
  {
  }

  // ----- the structure -----

  class SkipList {
    var nodes: seq<Node>
    var maxHeight: nat
    var len: nat
    ghost var order: seq<nat>

    ghost predicate Valid()
      reads this
    {
      WellFormed(nodes, order, maxHeight) && len == |nodes| - 1
    }

    /** The sorted list the structure stands for. */
    ghost function Entries(): (s: seq<Rec>)
      reads this
      requires Valid()
      ensures Sorted(s) && |s| == len
    {
      EntriesOf(nodes, order)
    }

    constructor ()
      ensures Valid() && Entries() == []
    {
      var head := Node(Rec([], 0, Live, []), seq(MAX_HEIGHT, _ => NIL));
      nodes := [head];
      maxHeight, len, order := 1, 0, [0];
    }

    /** Predecessor and follower of (key, seqno) at every level. */
    method FindPredecessors(key: Key, seqno: nat) returns (prev: seq<int>, following: seq<int>)
      requires Valid()
      ensures Brackets(nodes, order, Slot(nodes, order, key, seqno), prev, following)
    {
      hide NextTall, Linked, Slot, EntriesOf, KeyBefore, Sorted, Bracketed, IsPred, PtrAt;
      ghost var p := Slot(nodes, order, key, seqno);
      ghost var hs := Heights(nodes, order);
      prev := seq(MAX_HEIGHT, _ => 0);
      following := seq(MAX_HEIGHT, _ => NIL);
      var level := maxHeight - 1;
      var cur := 0;
      ghost var c := 0;
      EmptyLevels(nodes, order, maxHeight, p);
      StartBrackets(nodes, order, maxHeight, p, prev, following);
      while true
        invariant 0 <= level < maxHeight && 0 <= c < p && order[c] == cur && hs[c] > level
        invariant |prev| == |following| == MAX_HEIGHT
        invariant Bracketed(order, hs, p, prev, following, level + 1)
        decreases level, |order| - c
      {
        var link := nodes[cur].next[level];
        ghost var j := NextTall(hs, c + 1, level);
        FollowLink(nodes, order, maxHeight, key, seqno, c, level);
        var goForward := false;
        if link != NIL {
          var r := nodes[link].rec;
          goForward := KeyBefore(r.key, r.seqno, key, seqno);
        }
        if goForward {
          cur, c := link, j;
        } else {
          BracketOne(order, hs, p, prev, following, level, cur, link, c);
          prev := prev[level := cur];
          following := following[level := link];
          if level == 0 {
            break;
          }
          level := level - 1;
        }
      }
      BracketsIntro(nodes, order, p, prev, following);
    }

    /** Links a node of any height into every level it reaches. */
    method InsertRecord(key: Key, value: seq<byte>, seqno: nat, op: RecordOp, height: nat)
      requires Valid() && 1 <= height <= 12
      modifies this
      ensures Valid()
      ensures op == Live ==> Entries() == Insert(old(Entries()), Rec(key, seqno, Live, value))
      ensures op == Tombstone ==> Entries() == Insert(old(Entries()), Rec(key, seqno, Tombstone, []))
      ensures len == old(len) + 1
    {
      hide WellFormed, Brackets, LinkedIn, Slot, EntriesOf, Enumerates;
      FormedOrder(nodes, order, maxHeight);
      var r := Stored(key, value, seqno, op);
      ghost var p := Slot(nodes, order, r.key, r.seqno);
      var prev, following;
      prev, following := FindPredecessors(r.key, r.seqno);
      BracketsPoint(nodes, order, p, prev, following);
      InsertedIsFormed(nodes, order, maxHeight, r, height, prev, following);
      if height > maxHeight {
        maxHeight := height;
      }
      LinkNode(r, height, prev, following);
      len := len + 1;
      order := OrderAfter(order, p, old(|nodes|));
      assert |nodes| == old(|nodes|) + 1 by { LinkedCount(old(nodes), nodes, r, height, prev, following, height); }
    }

    /** The new node goes in bottom level first; each level takes two stores. */
    method LinkNode(r: Rec, height: nat, prev: seq<int>, following: seq<int>)
      requires 1 <= height <= MAX_HEIGHT && |prev| == |following| == MAX_HEIGHT
      requires forall l :: 0 <= l < MAX_HEIGHT ==> 0 <= prev[l] < |nodes| && l < |nodes[prev[l]].next|
      modifies this`nodes
      ensures LinkedIn(old(nodes), nodes, r, height, prev, following, height)
    {
      var n := |nodes|;
      nodes := nodes + [Node(r, seq(height, _ => NIL))];
      var level := 0;
      while level < height
        invariant level <= height
        invariant LinkedIn(old(nodes), nodes, r, height, prev, following, level)
      {
        nodes := nodes[n := nodes[n].(next := nodes[n].next[level := following[level]])];
        var q := prev[level];
        nodes := nodes[q := nodes[q].(next := nodes[q].next[level := n])];
        level := level + 1;
      }
    }

    /** The newest record of `key` at or below the snapshot; on a tie the later insertion. */
    method Get(key: Key, snapshot: nat) returns (found: Option<Rec>)
      requires Valid()
      ensures found == Find(Entries(), key, snapshot)
    {
      hide NextTall;
      ghost var p := Slot(nodes, order, key, snapshot);
      ghost var hs := Heights(nodes, order);
      var level := maxHeight;
      var cur := 0;
      ghost var c := 0;
      while level > 0
        invariant 0 <= level <= maxHeight && 0 <= c < p && order[c] == cur
        invariant hs[c] > level - 1
        invariant level == 0 ==> NextTall(hs, c + 1, 0) >= p && hs[c] > 0
      {
        level := level - 1;
        while true
          invariant 0 <= c < p && order[c] == cur && hs[c] > level
          decreases |order| - c
        {
          var link := nodes[cur].next[level];
          ghost var j := NextTall(hs, c + 1, level);
          FollowLink(nodes, order, maxHeight, key, snapshot, c, level);
          if link == NIL {
            break;
          }
          var r := nodes[link].rec;
          if !KeyBefore(r.key, r.seqno, key, snapshot) {
            break;
          }
          cur, c := link, j;
        }
      }
      var candidate := nodes[cur].next[0];
      assert candidate == PtrAt(order, NextTall(hs, c + 1, 0));
      assert NextTall(hs, c + 1, 0) == p by {
        assert p < |order| ==> hs[p] > 0;
      }
      PositionFinds(Entries(), key, snapshot);
      if candidate == NIL {
        return None;
      }
      var node := nodes[candidate].rec;
      assert node == Entries()[p - 1];
      if node.key == key && node.seqno <= snapshot {
        return Some(node);
      }
      return None;
    }

    /** Walks the bottom level from end to end. */
    method Collect() returns (all: seq<Rec>)
      requires Valid()
      ensures all == Entries()
    {
      hide NextTall, Linked, Enumerates, Heights, Sorted;
      all := [];
      ghost var c := 0;
      var cur := nodes[0].next[0];
      BottomLink(nodes, order, maxHeight, 0);
      while cur != NIL
        invariant 0 <= c < |order| && cur == PtrAt(order, c + 1)
        invariant all == Entries()[..c]
        decreases |order| - c
      {
        c := c + 1;
        BottomLink(nodes, order, maxHeight, c);
        all := all + [nodes[cur].rec];
        cur := nodes[cur].next[0];
      }
    }
  }

  /** The bottom level links every node to the next one. */
  lemma BottomLink(nodes: seq<Node>, order: seq<nat>, maxHeight: nat, c: nat)
    requires WellFormed(nodes, order, maxHeight) && c < |order|
    ensures order[c] < |nodes| && |nodes[order[c]].next| > 0 && nodes[order[c]].next[0] == PtrAt(order, c + 1)
    ensures order[0] == 0
  {
    hide NextTall;
    NextTallIs(Heights(nodes, order), c + 1, 0, c + 1);
  }

  lemma BracketsPoint(nodes: seq<Node>, order: seq<nat>, p: nat, prev: seq<int>, following: seq<int>)
    requires Enumerates(nodes, order) && 1 <= p <= |order|
    requires Brackets(nodes, order, p, prev, following)
    ensures |prev| == |following| == MAX_HEIGHT
    ensures forall l :: 0 <= l < MAX_HEIGHT ==> 0 <= prev[l] < |nodes| && l < |nodes[prev[l]].next|
  {
    hide NextTall, PtrAt;
    forall l | 0 <= l < MAX_HEIGHT ensures 0 <= prev[l] < |nodes| && l < |nodes[prev[l]].next| {
      assert PredPtr(order, Heights(nodes, order), p, l, prev[l]);
      var q: nat :| IsPred(Heights(nodes, order), p, l, q) && q < |order| && prev[l] == order[q];
    }
  }

  // ----- levels -----

  /** The nodes at order index `i` or later that reach above level `l`. */
  ghost function LevelFrom(nodes: seq<Node>, order: seq<nat>, i: nat, l: nat): seq<nat>
    requires Enumerates(nodes, order) && i <= |order|
    decreases |order| - i
  {
    if i == |order| then []
    else if |nodes[order[i]].next| > l then [order[i]] + LevelFrom(nodes, order, i + 1, l)
    else LevelFrom(nodes, order, i + 1, l)
  }

  /** The nodes met by following level-`l` links from a pointer. */
  ghost function Walk(nodes: seq<Node>, ptr: int, l: nat, steps: nat): seq<nat>
    decreases steps
  {
    if steps == 0 || !(0 <= ptr < |nodes|) || l >= |nodes[ptr].next| then []
    else [ptr] + Walk(nodes, nodes[ptr].next[l], l, steps - 1)
  }

  ghost predicate Subsequence(a: seq<nat>, b: seq<nat>) {
    if a == [] then true
    else if b == [] then false
    else if a[0] == b[0] then Subsequence(a[1..], b[1..])
    else Subsequence(a, b[1..])
  }

  lemma {:induction false} LevelSkips(nodes: seq<Node>, order: seq<nat>, i: nat, l: nat)
    requires Enumerates(nodes, order) && i <= |order|
    ensures var j := NextTall(Heights(nodes, order), i, l);
      LevelFrom(nodes, order, i, l) == if j < |order| then [order[j]] + LevelFrom(nodes, order, j + 1, l) else []
    decreases |order| - i
  {
    hide LevelFrom, NextTall, Enumerates;
    HeightsAre(nodes, order);
    LevelAt(nodes, order, i, l);
    var hs := Heights(nodes, order);
    NextTallStep(hs, i, l);
    if i < |order| && hs[i] <= l {
      LevelSkips(nodes, order, i + 1, l);
    }
  }

  lemma HeightsAre(nodes: seq<Node>, order: seq<nat>)
    requires Enumerates(nodes, order)
    ensures forall i :: 0 <= i < |order| ==> order[i] < |nodes|
    ensures |Heights(nodes, order)| == |order|
  {
  }

  lemma NextTallStep(hs: seq<nat>, i: nat, l: nat)
    requires i <= |hs|
    ensures NextTall(hs, i, l) == if i == |hs| || hs[i] > l then i else NextTall(hs, i + 1, l)
  {
  }

  /** Following the links of a level visits exactly the nodes tall enough for it, in list order. */
  lemma {:induction false} WalkIsLevel(nodes: seq<Node>, order: seq<nat>, maxHeight: nat, i: nat, l: nat, steps: nat)
    requires WellFormed(nodes, order, maxHeight) && 1 <= i <= |order| && steps >= |order| - i
    ensures Walk(nodes, PtrAt(order, NextTall(Heights(nodes, order), i, l)), l, steps) == LevelFrom(nodes, order, i, l)
    decreases |order| - i
  {
    hide NextTall, WellFormed, LevelFrom;
    FormedOrder(nodes, order, maxHeight);
    LevelSkips(nodes, order, i, l);
    var j := NextTall(Heights(nodes, order), i, l);
    LevelAt(nodes, order, j, l);
    if j < |order| {
      LinkAt(nodes, order, maxHeight, j, l);
      WalkIsLevel(nodes, order, maxHeight, j + 1, l, steps - 1);
    }
  }

  lemma FormedOrder(nodes: seq<Node>, order: seq<nat>, maxHeight: nat)
    requires WellFormed(nodes, order, maxHeight)
    ensures Enumerates(nodes, order)
  {
    hide Linked, Sorted;
  }

  lemma LinkAt(nodes: seq<Node>, order: seq<nat>, maxHeight: nat, j: nat, l: nat)
    requires WellFormed(nodes, order, maxHeight) && j < |order| && l < |nodes[order[j]].next|
    ensures nodes[order[j]].next[l] == PtrAt(order, NextTall(Heights(nodes, order), j + 1, l))
  {
    hide NextTall, Sorted;
  }

  lemma LevelAt(nodes: seq<Node>, order: seq<nat>, j: nat, l: nat)
    requires Enumerates(nodes, order) && j <= |order|
    ensures j == |order| ==> LevelFrom(nodes, order, j, l) == []
    ensures j < |order| && |nodes[order[j]].next| > l ==> LevelFrom(nodes, order, j, l) == [order[j]] + LevelFrom(nodes, order, j + 1, l)
    ensures j < |order| && |nodes[order[j]].next| <= l ==> LevelFrom(nodes, order, j, l) == LevelFrom(nodes, order, j + 1, l)
  {
  }

  lemma {:induction false} LevelMember(nodes: seq<Node>, order: seq<nat>, i: nat, l: nat, x: nat)
    requires Enumerates(nodes, order) && i <= |order| && x in LevelFrom(nodes, order, i, l)
    ensures exists m :: i <= m < |order| && order[m] == x
    decreases |order| - i
  {
    if order[i] != x {
      LevelMember(nodes, order, i + 1, l, x);
    }
  }

  /** Each level is a subsequence of the level below it. */
  lemma {:induction false} LevelsNest(nodes: seq<Node>, order: seq<nat>, i: nat, l: nat)
    requires Enumerates(nodes, order) && i <= |order|
    ensures Subsequence(LevelFrom(nodes, order, i, l + 1), LevelFrom(nodes, order, i, l))
    decreases |order| - i
  {
    if i < |order| {
      LevelsNest(nodes, order, i + 1, l);
      var upper := LevelFrom(nodes, order, i + 1, l + 1);
      var lower := LevelFrom(nodes, order, i + 1, l);
      if |nodes[order[i]].next| == l + 1 && upper != [] && upper[0] == order[i] {
        LevelMember(nodes, order, i + 1, l + 1, upper[0]);
      }
      assert ([order[i]] + lower)[1..] == lower;
      assert ([order[i]] + upper)[1..] == upper;
    }
  }

  /** In a skip list every level, walked from the head, is a subsequence of the
      level below, and the bottom level visits every record in order. */
  lemma LevelsOfSkipList(nodes: seq<Node>, order: seq<nat>, maxHeight: nat, l: nat)
    requires WellFormed(nodes, order, maxHeight) && l + 1 < MAX_HEIGHT
    ensures Subsequence(Walk(nodes, nodes[0].next[l + 1], l + 1, |order|), Walk(nodes, nodes[0].next[l], l, |order|))
    ensures Walk(nodes, nodes[0].next[0], 0, |order|) == order[1..]
  {
    hide NextTall, Sorted;
    WalkIsLevel(nodes, order, maxHeight, 1, l, |order|);
    WalkIsLevel(nodes, order, maxHeight, 1, l + 1, |order|);
    LevelsNest(nodes, order, 1, l);
    WalkIsLevel(nodes, order, maxHeight, 1, 0, |order|);
    BottomLevel(nodes, order, maxHeight, 1);
    assert forall k :: 0 <= k < MAX_HEIGHT ==> nodes[order[0]].next[k] == PtrAt(order, NextTall(Heights(nodes, order), 1, k));
  }

  lemma {:induction false} BottomLevel(nodes: seq<Node>, order: seq<nat>, maxHeight: nat, i: nat)
    requires WellFormed(nodes, order, maxHeight) && i <= |order|
    ensures LevelFrom(nodes, order, i, 0) == order[i..]
    decreases |order| - i
  {
    hide Linked, Sorted;
    if i < |order| {
      BottomLevel(nodes, order, maxHeight, i + 1);
      assert order[i..] == [order[i]] + order[i + 1..];
    }
  }
}
