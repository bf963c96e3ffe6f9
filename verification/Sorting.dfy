/** Stable sorting by a comparator: what Array.prototype.sort promises, and that it fixes the result. */
module Sorting {
  import opened Options

  ghost predicate TotalPreorder<T(!new)>(leq: (T, T) -> bool) {
    && (forall a, b :: leq(a, b) || leq(b, a))
    && (forall a, b, c :: leq(a, b) && leq(b, c) ==> leq(a, c))
  }

  predicate SortedBy<T>(leq: (T, T) -> bool, s: seq<T>) {
    forall i, j :: 0 <= i < j < |s| ==> leq(s[i], s[j])
  }

  /** The elements of `s` that tie with `c`, in order. */
  function TiesWith<T>(leq: (T, T) -> bool, c: T): T -> Option<T> {
    (x: T) => if leq(x, c) && leq(c, x) then Some(x) else None
  }

  ghost predicate SameTies<T(!new)>(leq: (T, T) -> bool, a: seq<T>, b: seq<T>) {
    forall c :: Collect(TiesWith(leq, c), a) == Collect(TiesWith(leq, c), b)
  }

  /** Sorted, with the elements of each tie in their original order. */
  ghost predicate StablySorted<T(!new)>(leq: (T, T) -> bool, sorted: seq<T>, s: seq<T>) {
    SortedBy(leq, sorted) && SameTies(leq, sorted, s)
  }

  function Insert<T>(leq: (T, T) -> bool, x: T, s: seq<T>): seq<T> {
    if s == [] || leq(x, s[0]) then [x] + s else [s[0]] + Insert(leq, x, s[1..])
  }

  function Sort<T>(leq: (T, T) -> bool, s: seq<T>): seq<T> {
    if s == [] then [] else Insert(leq, s[0], Sort(leq, s[1..]))
  }

  lemma {:induction false} InsertKeepsElements<T>(leq: (T, T) -> bool, x: T, s: seq<T>)
    ensures multiset(Insert(leq, x, s)) == multiset{x} + multiset(s)
  {
    if s != [] && !leq(x, s[0]) {
      InsertKeepsElements(leq, x, s[1..]);
      assert s == [s[0]] + s[1..];
    }
  }

  lemma {:induction false} InsertSorts<T(!new)>(leq: (T, T) -> bool, x: T, s: seq<T>)
    requires TotalPreorder(leq) && SortedBy(leq, s)
    ensures SortedBy(leq, Insert(leq, x, s))
  {
    if s == [] || leq(x, s[0]) {
      assert forall i :: 0 < i < |s| ==> leq(s[0], s[i]);
    } else {
      var rest := Insert(leq, x, s[1..]);
      InsertSorts(leq, x, s[1..]);
      InsertKeepsElements(leq, x, s[1..]);
      forall i | 0 <= i < |rest| ensures leq(s[0], rest[i]) {
        assert rest[i] in multiset(rest);
        assert rest[i] == x || rest[i] in s[1..];
      }
    }
  }

  lemma {:induction false} InsertIsStable<T(!new)>(leq: (T, T) -> bool, x: T, s: seq<T>, c: T)
    requires TotalPreorder(leq)
    ensures Collect(TiesWith(leq, c), Insert(leq, x, s)) == AsSeq(TiesWith(leq, c)(x)) + Collect(TiesWith(leq, c), s)
  {
    if s == [] || leq(x, s[0]) {
      assert ([x] + s)[1..] == s;
    } else {
      InsertIsStable(leq, x, s[1..], c);
      var rest := Insert(leq, x, s[1..]);
      assert ([s[0]] + rest)[1..] == rest;
      assert TiesWith(leq, c)(x).None? || TiesWith(leq, c)(s[0]).None?;
    }
  }

  lemma {:induction false} SortIsStable<T(!new)>(leq: (T, T) -> bool, s: seq<T>)
    requires TotalPreorder(leq)
    ensures StablySorted(leq, Sort(leq, s), s) && multiset(Sort(leq, s)) == multiset(s)
  {
    if s == [] {
    } else {
      var rest := Sort(leq, s[1..]);
      SortIsStable(leq, s[1..]);
      InsertSorts(leq, s[0], rest);
      InsertKeepsElements(leq, s[0], rest);
      assert s == [s[0]] + s[1..];
      forall c ensures Collect(TiesWith(leq, c), Sort(leq, s)) == Collect(TiesWith(leq, c), s) {
        InsertIsStable(leq, s[0], rest, c);
      }
    }
  }

  // ------------------------------------------------------------------ only one stable order

  lemma HeadTiesItself<T(!new)>(leq: (T, T) -> bool, s: seq<T>)
    requires TotalPreorder(leq) && s != []
    ensures Collect(TiesWith(leq, s[0]), s) != [] && Collect(TiesWith(leq, s[0]), s)[0] == s[0]
  {
  }

  /** The head of a sorted sequence is below everything that ties with one of its elements. */
  lemma HeadIsLeast<T(!new)>(leq: (T, T) -> bool, s: seq<T>, c: T)
    requires TotalPreorder(leq) && SortedBy(leq, s) && Collect(TiesWith(leq, c), s) != []
    ensures s != [] && leq(s[0], c)
  {
  }

  lemma HeadsAgree<T(!new)>(leq: (T, T) -> bool, a: seq<T>, b: seq<T>)
    requires TotalPreorder(leq) && SortedBy(leq, a) && SortedBy(leq, b) && SameTies(leq, a, b) && a != []
    ensures b != [] && a[0] == b[0]
  {
    HeadTiesItself(leq, a);
    HeadIsLeast(leq, b, a[0]);
    HeadTiesItself(leq, b);
    assert Collect(TiesWith(leq, b[0]), a) == Collect(TiesWith(leq, b[0]), b);
    HeadIsLeast(leq, a, b[0]);
    assert TiesWith(leq, a[0])(b[0]) == Some(b[0]);
    assert Collect(TiesWith(leq, a[0]), b)[0] == b[0];
  }

  lemma TailCollects<T, U>(f: T -> Option<U>, a: seq<T>, b: seq<T>)
    requires a != [] && b != [] && a[0] == b[0] && Collect(f, a) == Collect(f, b)
    ensures Collect(f, a[1..]) == Collect(f, b[1..])
  {
    var head := AsSeq(f(a[0]));
    assert Collect(f, a)[|head|..] == Collect(f, a[1..]);
    assert Collect(f, b)[|head|..] == Collect(f, b[1..]);
  }

  /** Whatever algorithm sorts, a stable result is this one. */
  lemma {:induction false} StableSortIsUnique<T(!new)>(leq: (T, T) -> bool, a: seq<T>, b: seq<T>)
    requires TotalPreorder(leq) && SortedBy(leq, a) && SortedBy(leq, b) && SameTies(leq, a, b)
    ensures a == b
    decreases |a|
  {
    if a == [] {
      if b != [] {
        HeadsAgree(leq, b, a);
      }
    } else {
      HeadsAgree(leq, a, b);
      forall c ensures Collect(TiesWith(leq, c), a[1..]) == Collect(TiesWith(leq, c), b[1..]) {
        TailCollects(TiesWith(leq, c), a, b);
      }
      StableSortIsUnique(leq, a[1..], b[1..]);
      assert a == [a[0]] + a[1..] && b == [b[0]] + b[1..];
    }
  }
}
