/** Versioned records and the order every structure keeps them in: key
    ascending, then sequence number descending. */
module Records {
  import opened Bytes

  datatype RecordOp = Live | Tombstone

  datatype Rec = Rec(key: Key, seqno: nat, op: RecordOp, value: seq<byte>)

  /** Internal-key order on (key, seqno) pairs. */
  predicate KeyBefore(k1: Key, n1: nat, k2: Key, n2: nat) {
    Less(k1, k2) || (k1 == k2 && n1 > n2)
  }

  predicate Before(a: Rec, b: Rec) {
    KeyBefore(a.key, a.seqno, b.key, b.seqno)
  }

  /** Non-decreasing; records with the same key and sequence number may repeat. */
  predicate Sorted(s: seq<Rec>) {
    forall i, j :: 0 <= i < j < |s| ==> !Before(s[j], s[i])
  }

  lemma BeforeIsStrict(k1: Key, n1: nat, k2: Key, n2: nat)
    ensures !(KeyBefore(k1, n1, k2, n2) && KeyBefore(k2, n2, k1, n1))
    ensures !KeyBefore(k1, n1, k1, n1)
    ensures KeyBefore(k1, n1, k2, n2) || KeyBefore(k2, n2, k1, n1) || (k1 == k2 && n1 == n2)
  {
    LessTotal(k1, k2);
    LessIrreflexive(k1);
    if Less(k1, k2) && Less(k2, k1) { LessTransitive(k1, k2, k1); }
  }

  lemma BeforeTransitive(k1: Key, n1: nat, k2: Key, n2: nat, k3: Key, n3: nat)
    requires KeyBefore(k1, n1, k2, n2) && KeyBefore(k2, n2, k3, n3)
    ensures KeyBefore(k1, n1, k3, n3)
  {
    if Less(k1, k2) && Less(k2, k3) { LessTransitive(k1, k2, k3); }
  }

  /** "Not before" is transitive too: the order is a weak order. */
  lemma NotBeforeTransitive(k1: Key, n1: nat, k2: Key, n2: nat, k3: Key, n3: nat)
    requires !KeyBefore(k2, n2, k1, n1) && !KeyBefore(k3, n3, k2, n2)
    ensures !KeyBefore(k3, n3, k1, n1)
  {
    BeforeIsStrict(k1, n1, k2, n2);
    BeforeIsStrict(k2, n2, k3, n3);
    if KeyBefore(k3, n3, k1, n1) {
      if KeyBefore(k1, n1, k2, n2) { BeforeTransitive(k3, n3, k1, n1, k2, n2); }
    }
  }

  // ----- lookup -----

  predicate Visible(r: Rec, key: Key, snap: nat) {
    r.key == key && r.seqno <= snap
  }

  /** Linear search: the first record of `key` at or below the snapshot, |s| when there is none. */
  function FindIndex(s: seq<Rec>, key: Key, snap: nat): (i: nat)
    ensures i <= |s|
    ensures i < |s| ==> Visible(s[i], key, snap)
    ensures forall j :: 0 <= j < i ==> !Visible(s[j], key, snap)
  {
    if s == [] || Visible(s[0], key, snap) then 0
    else 1 + FindIndex(s[1..], key, snap)
  }

  function Find(s: seq<Rec>, key: Key, snap: nat): (r: Option<Rec>)
    ensures r.Some? ==> r.value in s && Visible(r.value, key, snap)
  {
    var i := FindIndex(s, key, snap);
    if i < |s| then Some(s[i]) else None
  }

  /** In a sorted list the first visible record is the newest visible one. */
  lemma FindIsNewest(s: seq<Rec>, key: Key, snap: nat)
    requires Sorted(s)
    ensures Find(s, key, snap).None? <==> forall i :: 0 <= i < |s| ==> !Visible(s[i], key, snap)
    ensures Find(s, key, snap).Some? ==> forall i :: 0 <= i < |s| && Visible(s[i], key, snap) ==> s[i].seqno <= Find(s, key, snap).value.seqno
  {
    var f := FindIndex(s, key, snap);
    if f < |s| {
      forall i | 0 <= i < |s| && Visible(s[i], key, snap)
        ensures s[i].seqno <= s[f].seqno
      {
        assert i > f ==> !Before(s[i], s[f]);
      }
    }
  }

  /** Largest sequence number, zero for an empty list. */
  function MaxSeqno(s: seq<Rec>): (n: nat)
    ensures forall i :: 0 <= i < |s| ==> s[i].seqno <= n
    ensures n > 0 ==> exists i :: 0 <= i < |s| && s[i].seqno == n
  {
    if s == [] then 0
    else
      var n := MaxSeqno(s[1..]);
      assert n > 0 ==> exists i :: 0 <= i < |s| - 1 && s[1..][i] == s[i + 1] && s[1..][i].seqno == n;
      if n < s[0].seqno then s[0].seqno else n
  }

  // ----- sorted insertion -----

  /** Where (key, seqno) belongs: the first record that is not before it. */
  function Position(s: seq<Rec>, key: Key, seqno: nat): (p: nat)
    ensures p <= |s|
    ensures forall i :: 0 <= i < p ==> KeyBefore(s[i].key, s[i].seqno, key, seqno)
    ensures p < |s| ==> !KeyBefore(s[p].key, s[p].seqno, key, seqno)
  {
    if s == [] || !KeyBefore(s[0].key, s[0].seqno, key, seqno) then 0
    else 1 + Position(s[1..], key, seqno)
  }

  /** A later insertion goes in front of records with the same key and sequence number. */
  function Insert(s: seq<Rec>, r: Rec): (t: seq<Rec>)
    ensures |t| == |s| + 1
  {
    var p := Position(s, r.key, r.seqno);
    s[..p] + [r] + s[p..]
  }

  /** Past the position nothing is before the probe. */
  lemma AfterPosition(s: seq<Rec>, key: Key, seqno: nat, i: nat)
    requires Sorted(s) && Position(s, key, seqno) <= i < |s|
    ensures !KeyBefore(s[i].key, s[i].seqno, key, seqno)
  {
    var p := Position(s, key, seqno);
    if p < i {
      assert !Before(s[i], s[p]);
      NotBeforeTransitive(key, seqno, s[p].key, s[p].seqno, s[i].key, s[i].seqno);
    }
  }

  lemma InsertIsSorted(s: seq<Rec>, r: Rec)
    requires Sorted(s)
    ensures Sorted(Insert(s, r))
  {
    var p := Position(s, r.key, r.seqno);
    var t := Insert(s, r);
    forall i, j | 0 <= i < j < |t|
      ensures !Before(t[j], t[i])
    {
      if j == p {
        BeforeIsStrict(s[i].key, s[i].seqno, r.key, r.seqno);
      } else if i == p {
        AfterPosition(s, r.key, r.seqno, j - 1);
      } else {
        assert t[i] == s[if i < p then i else i - 1] && t[j] == s[if j < p then j else j - 1];
      }
    }
  }

  /** In a sorted list the search position answers the lookup. */
  lemma PositionFinds(s: seq<Rec>, key: Key, snap: nat)
    requires Sorted(s)
    ensures var p := Position(s, key, snap);
      FindIndex(s, key, snap) == if p < |s| && s[p].key == key then p else |s|
  {
    var p := Position(s, key, snap);
    var f := FindIndex(s, key, snap);
    LessIrreflexive(key);
    if p < |s| && s[p].key == key {
      assert Visible(s[p], key, snap);
    } else if p < f < |s| {
      LessTotal(s[p].key, key);
      assert Before(s[f], s[p]);
    }
  }

  lemma FindIndexIs(s: seq<Rec>, key: Key, snap: nat, i: nat)
    requires i <= |s| && (i < |s| ==> Visible(s[i], key, snap))
    requires forall j :: 0 <= j < i ==> !Visible(s[j], key, snap)
    ensures FindIndex(s, key, snap) == i
  {
  }

  /** Lookup after an insertion: the new record if it is visible and not older. */
  lemma FindAfterInsert(s: seq<Rec>, r: Rec, key: Key, snap: nat)
    requires Sorted(s)
    ensures var was := Find(s, key, snap);
      Find(Insert(s, r), key, snap) ==
        if Visible(r, key, snap) && (was.None? || was.value.seqno <= r.seqno) then Some(r) else was
  {
    hide FindIndex, Position;
    var p := Position(s, r.key, r.seqno);
    var t := Insert(s, r);
    var f := FindIndex(s, key, snap);
    LessIrreflexive(key);
    if Visible(r, key, snap) && f >= p {
      if f < |s| { AfterPosition(s, r.key, r.seqno, f); }
      FindIndexIs(t, key, snap, p);
    } else {
      var g := if f < p then f else f + 1;
      assert forall j :: 0 <= j < g ==> t[j] == if j < p then s[j] else if j == p then r else s[j - 1];
      FindIndexIs(t, key, snap, g);
    }
  }
}
