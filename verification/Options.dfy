/** Stock option type and the one filter every event-log property below is stated with. */
module Options {

  datatype Option<+T> = None | Some(value: T)

  /** The option read as a sequence of at most one element. */
  function AsSeq<T>(o: Option<T>): seq<T> {
    match o
    case Some(v) => [v]
    case None => []
  }

  /** The images of the elements `f` selects, in order. */
  function Collect<T, U>(f: T -> Option<U>, s: seq<T>): seq<U> {
    if s == [] then [] else AsSeq(f(s[0])) + Collect(f, s[1..])
  }

  lemma {:induction false} CollectConcat<T, U>(f: T -> Option<U>, a: seq<T>, b: seq<T>)
    ensures Collect(f, a + b) == Collect(f, a) + Collect(f, b)
  {
    if a == [] {
      assert a + b == b;
    } else {
      calc {
        Collect(f, a + b);
        { assert (a + b)[0] == a[0] && (a + b)[1..] == a[1..] + b; }
        AsSeq(f(a[0])) + Collect(f, a[1..] + b);
        { CollectConcat(f, a[1..], b); }
        AsSeq(f(a[0])) + (Collect(f, a[1..]) + Collect(f, b));
        AsSeq(f(a[0])) + Collect(f, a[1..]) + Collect(f, b);
        Collect(f, a) + Collect(f, b);
      }
    }
  }

  lemma CollectGrows<T, U>(f: T -> Option<U>, before: seq<T>, after: seq<T>)
    requires before <= after
    ensures Collect(f, after) == Collect(f, before) + Collect(f, after[|before|..])
  {
    CollectConcat(f, before, after[|before|..]);
    assert before + after[|before|..] == after;
  }

  lemma CollectOne<T, U>(f: T -> Option<U>, e: T)
    ensures Collect(f, [e]) == AsSeq(f(e))
  {
  }

  lemma {:induction false} CollectNothing<T, U>(f: T -> Option<U>, s: seq<T>)
    requires forall e :: e in s ==> f(e).None?
    ensures Collect(f, s) == []
  {
    if s == [] {
    } else {
      assert s[0] in s;
      CollectNothing(f, s[1..]);
    }
  }

  /** One filter after another. */
  function Through<T, U, V>(f: T -> Option<U>, g: U -> Option<V>): T -> Option<V> {
    (x: T) =>
      match f(x)
      case Some(y) => g(y)
      case None => None
  }

  lemma {:induction false} CollectThrough<T, U, V>(f: T -> Option<U>, g: U -> Option<V>, s: seq<T>)
    ensures Collect(g, Collect(f, s)) == Collect(Through(f, g), s)
  {
    if s == [] {
    } else {
      CollectThrough(f, g, s[1..]);
      CollectConcat(g, AsSeq(f(s[0])), Collect(f, s[1..]));
      assert Collect(g, AsSeq(f(s[0]))) == AsSeq(Through(f, g)(s[0]));
    }
  }

  lemma {:induction false} CollectSame<T, U>(f: T -> Option<U>, g: T -> Option<U>, s: seq<T>)
    requires forall x :: x in s ==> f(x) == g(x)
    ensures Collect(f, s) == Collect(g, s)
  {
    if s == [] {
    } else {
      assert s[0] in s;
      CollectSame(f, g, s[1..]);
    }
  }
}
