/** Ascending enumeration of a finite set of ids: what ORDER BY id returns. */
module Ordering {
  import opened Policy

  /** Going down from any element ends at a least one. */
  lemma {:induction false} LeastBelow(s: set<Id>, a: Id)
    requires a in s
    ensures exists m :: m in s && forall x :: x in s ==> m <= x
    decreases a
  {
    if b :| b in s && b < a {
      LeastBelow(s, b);
    } else {
      assert a in s && forall x :: x in s ==> a <= x;
    }
  }

  function Least(s: set<Id>): (m: Id)
    requires s != {}
    ensures m in s
    ensures forall x :: x in s ==> m <= x
  {
    assert exists m :: m in s && forall x :: x in s ==> m <= x by {
      var a :| a in s;
      LeastBelow(s, a);
    }
    var m :| m in s && forall x :: x in s ==> m <= x;
    m
  }

  function Ascending(s: set<Id>): (r: seq<Id>)
    ensures |r| == |s|
    decreases |s|
  {
    if s == {} then [] else [Least(s)] + Ascending(s - {Least(s)})
  }

  predicate Increasing(ids: seq<Id>) {
    forall i, j :: 0 <= i < j < |ids| ==> ids[i] < ids[j]
  }

  function Take<T>(s: seq<T>, n: nat): seq<T> {
    if n <= |s| then s[..n] else s
  }

  lemma IncreasingPrepend(a: Id, ids: seq<Id>)
    requires Increasing(ids) && forall x :: x in ids ==> a < x
    ensures Increasing([a] + ids)
  {
    forall i, j | 0 <= i < j < |[a] + ids| ensures ([a] + ids)[i] < ([a] + ids)[j] {
      assert ids[j - 1] in ids;
    }
  }

  /** The enumeration has every element of the set, in increasing order. */
  lemma {:induction false} AscendingIncreases(s: set<Id>)
    ensures Increasing(Ascending(s))
    ensures forall x :: x in Ascending(s) <==> x in s
    decreases |s|
  {
    if s == {} {
    } else {
      var rest := Ascending(s - {Least(s)});
      AscendingIncreases(s - {Least(s)});
      IncreasingPrepend(Least(s), rest);
      assert forall x :: x in [Least(s)] + rest <==> x == Least(s) || x in rest;
    }
  }

  /** The increasing enumeration of a set. */
  ghost predicate Enumerates(ids: seq<Id>, s: set<Id>) {
    Increasing(ids) && forall x :: x in ids <==> x in s
  }

  /** The head of an enumeration is the least of its elements, and the tail has the others. */
  lemma EnumerationHead(s: set<Id>, ids: seq<Id>)
    requires ids != [] && Enumerates(ids, s)
    ensures s != {} && Least(s) == ids[0] && Enumerates(ids[1..], s - {ids[0]})
  {
    assert ids[0] in ids;
    forall x | x in s ensures ids[0] <= x {
      var k :| 0 <= k < |ids| && ids[k] == x;
    }
    forall x ensures x in ids[1..] <==> x in s - {ids[0]} {
      TailElements(ids, x);
    }
  }

  lemma TailElements(ids: seq<Id>, x: Id)
    requires ids != [] && Increasing(ids)
    ensures x in ids[1..] <==> x in ids && x != ids[0]
  {
    if x in ids && x != ids[0] {
      var k :| 0 <= k < |ids| && ids[k] == x;
      assert ids[1..][k - 1] == x;
    }
    if x in ids[1..] {
      var k :| 0 <= k < |ids[1..]| && ids[1..][k] == x;
      assert ids[k + 1] == x;
    }
  }

  /** A set has one increasing enumeration. */
  lemma {:induction false} AscendingIsUnique(s: set<Id>, ids: seq<Id>)
    requires Enumerates(ids, s)
    ensures ids == Ascending(s)
    decreases |ids|
  {
    if ids == [] {
      assert s == {};
    } else {
      EnumerationHead(s, ids);
      var first, rest := ids[0], ids[1..];
      AscendingIsUnique(s - {first}, rest);
      assert Ascending(s) == [first] + rest;
      assert ids == [first] + rest;
    }
  }

  predicate Distinct(ids: seq<Id>) {
    forall i, j :: 0 <= i < j < |ids| ==> ids[i] != ids[j]
  }

  lemma IncreasingJoins(a: seq<Id>, b: seq<Id>)
    requires Increasing(a) && Increasing(b) && a != []
    requires forall x :: x in b ==> x > a[|a| - 1]
    ensures Increasing(a + b)
  {
    forall i, j | 0 <= i < j < |a + b| ensures (a + b)[i] < (a + b)[j] {
      if i < |a| <= j {
        assert b[j - |a|] in b;
      }
    }
  }

  /** Cut anywhere, an increasing sequence has above the cut exactly its elements not before it. */
  lemma IncreasingCut(ids: seq<Id>, n: nat, x: Id)
    requires Increasing(ids) && 0 < n <= |ids|
    ensures x in ids[n..] <==> x in ids && x > ids[n - 1]
    ensures x in ids[..n] <==> x in ids && x <= ids[n - 1]
  {
  }

  /** Past the first n ids, what is left of the enumeration enumerates the ids above the n-th. */
  lemma AscendingAbove(s: set<Id>, n: nat)
    requires 0 < n <= |s|
    ensures Ascending(set x | x in s && x > Ascending(s)[n - 1]) == Ascending(s)[n..]
  {
    var all := Ascending(s);
    AscendingIncreases(s);
    var above := set x | x in s && x > all[n - 1];
    forall x ensures x in all[n..] <==> x in above {
      IncreasingCut(all, n, x);
    }
    AscendingIsUnique(above, all[n..]);
  }

  lemma AscendingHas(s: set<Id>, x: Id)
    ensures x in Ascending(s) <==> x in s
  {
  }

  /** Each element is either in a prefix of the ascending order or in what follows it. */
  lemma AscendingSplits(s: set<Id>, n: nat, x: Id)
    requires n <= |s|
    ensures x in Ascending(s)[n..] <==> x in Ascending(s) && x !in Ascending(s)[..n]
    ensures x in Ascending(s)[..n] ==> x in Ascending(s)
  {
    AscendingIncreases(s);
    if n > 0 {
      IncreasingCut(Ascending(s), n, x);
    } else {
      assert Ascending(s)[0..] == Ascending(s);
    }
  }
}
