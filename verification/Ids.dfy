/** File numbers on disk, listed in order. */
module Ids {

  predicate Descends(ids: seq<nat>) {
    forall i, j :: 0 <= i < j < |ids| ==> ids[i] > ids[j]
  }

  lemma {:induction false} HasLargest(s: set<nat>)
    requires s != {}
    ensures exists m :: m in s && forall x :: x in s ==> x <= m
  {
    var y :| y in s;
    if s != {y} {
      var rest := s - {y};
      HasLargest(rest);
      var m :| m in rest && forall x :: x in rest ==> x <= m;
      var top := if m < y then y else m;
      assert top in s;
      forall x | x in s ensures x <= top {
        assert x == y || x in rest;
      }
    }
  }

  function Largest(s: set<nat>): (m: nat)
    requires s != {}
    ensures m in s && forall x :: x in s ==> x <= m
  {
    HasLargest(s);
    var m :| m in s && forall x :: x in s ==> x <= m;
    m
  }

  /** Largest first. */
  function Descending(s: set<nat>): (ids: seq<nat>)
    ensures Descends(ids)
    ensures forall x :: x in ids <==> x in s
    decreases |s|
  {
    if s == {} then []
    else
      var m := Largest(s);
      var rest := Descending(s - {m});
      assert forall i :: 0 <= i < |rest| ==> rest[i] in rest;
      [m] + rest
  }

  /** Smallest first. */
  function Ascending(s: set<nat>): (ids: seq<nat>)
    ensures forall i, j :: 0 <= i < j < |ids| ==> ids[i] < ids[j]
    ensures forall x :: x in ids <==> x in s
    decreases |s|
  {
    if s == {} then []
    else
      var m := Largest(s);
      var rest := Ascending(s - {m});
      assert forall i :: 0 <= i < |rest| ==> rest[i] in rest;
      rest + [m]
  }

  /** A descending list is determined by its members. */
  lemma {:induction false} DescendingIsUnique(a: seq<nat>, b: seq<nat>)
    requires Descends(a) && Descends(b) && forall x :: x in a <==> x in b
    ensures a == b
  {
    assert (a != [] ==> a[0] in b) && (b != [] ==> b[0] in a);
    if a != [] && b != [] {
      assert a[0] == b[0];
      var (x, y) := (a[1..], b[1..]);
      forall v ensures v in x <==> v in y {
        DescendingTail(a, v);
        DescendingTail(b, v);
      }
      DescendingIsUnique(x, y);
      assert a == [a[0]] + x && b == [b[0]] + y;
    }
  }

  lemma DescendingTail(a: seq<nat>, v: nat)
    requires Descends(a) && a != []
    ensures v in a[1..] <==> v in a && v != a[0]
  {
    if v in a[1..] {
      var i :| 0 <= i < |a[1..]| && a[1..][i] == v;
      assert a[i + 1] == v;
    }
  }
}
