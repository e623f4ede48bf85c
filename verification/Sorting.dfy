/** Sorting by a text key, as the standard library's stable sort does. */
module Sorting {
  /** Order of text by code points, a prefix first. */
  predicate Leq(a: string, b: string) {
    a == "" || (b != "" && (a[0] < b[0] || (a[0] == b[0] && Leq(a[1..], b[1..]))))
  }

  /** The order in plain words: a prefix, or smaller at the first difference. */
  lemma {:induction false} LeqIs(a: string, b: string)
    ensures Leq(a, b) <==> a <= b || exists k :: 0 <= k < |a| && k < |b| && a[..k] == b[..k] && a[k] < b[k]
  {
    if a != "" && b != "" {
      var s, t := a[1..], b[1..];
      LeqIs(s, t);
      assert a == [a[0]] + s && b == [b[0]] + t;
      if a[0] == b[0] {
        assert a <= b <==> s <= t;
        if k :| 0 <= k < |s| && k < |t| && s[..k] == t[..k] && s[k] < t[k] {
          var j := k + 1;
          assert a[..j] == [a[0]] + s[..k] && b[..j] == [b[0]] + t[..k] && a[j] < b[j];
        }
        if j :| 0 <= j < |a| && j < |b| && a[..j] == b[..j] && a[j] < b[j] {
          var k := j - 1;
          assert s[..k] == a[..j][1..] && t[..k] == b[..j][1..] && s[k] < t[k];
        }
      } else {
        assert a[..0] == b[..0];
        forall j | 0 < j < |a| && j < |b|
          ensures a[..j] != b[..j]
        {
          assert a[..j][0] != b[..j][0];
        }
      }
    }
  }

  lemma {:induction false} LeqTotal(a: string, b: string)
    ensures Leq(a, b) || Leq(b, a)
  {
    if a != "" && b != "" && a[0] == b[0] { LeqTotal(a[1..], b[1..]); }
  }

  lemma {:induction false} LeqTransitive(a: string, b: string, c: string)
    requires Leq(a, b) && Leq(b, c)
    ensures Leq(a, c)
  {
    if a != "" && b != "" && c != "" && a[0] == b[0] == c[0] { LeqTransitive(a[1..], b[1..], c[1..]); }
  }

  lemma {:induction false} LeqAntisymmetric(a: string, b: string)
    requires Leq(a, b) && Leq(b, a)
    ensures a == b
  {
    if a != "" && b != "" {
      LeqAntisymmetric(a[1..], b[1..]);
      assert a == [a[0]] + a[1..] && b == [b[0]] + b[1..];
    }
  }

  ghost predicate SortedBy<T>(key: T -> string, xs: seq<T>) {
    forall i, j :: 0 <= i < j < |xs| ==> Leq(key(xs[i]), key(xs[j]))
  }

  /** Put `x` in front of the first element that is not smaller. */
  function Insert<T>(key: T -> string, x: T, xs: seq<T>): seq<T> {
    if xs == [] || Leq(key(x), key(xs[0])) then [x] + xs else [xs[0]] + Insert(key, x, xs[1..])
  }

  function SortBy<T>(key: T -> string, xs: seq<T>): seq<T> {
    if xs == [] then [] else Insert(key, xs[0], SortBy(key, xs[1..]))
  }

  lemma {:induction false} InsertIs<T>(key: T -> string, x: T, xs: seq<T>)
    requires SortedBy(key, xs)
    ensures multiset(Insert(key, x, xs)) == multiset(xs) + multiset{x}
    ensures SortedBy(key, Insert(key, x, xs))
  {
    if xs == [] || Leq(key(x), key(xs[0])) {
      forall j | 0 <= j < |xs|
        ensures Leq(key(x), key(xs[j]))
      {
        if j > 0 { LeqTransitive(key(x), key(xs[0]), key(xs[j])); }
      }
    } else {
      var rest := Insert(key, x, xs[1..]);
      InsertIs(key, x, xs[1..]);
      LeqTotal(key(x), key(xs[0]));
      assert xs == [xs[0]] + xs[1..];
      forall j | 0 <= j < |rest|
        ensures Leq(key(xs[0]), key(rest[j]))
      {
        assert rest[j] in multiset(rest);
        if rest[j] != x {
          assert rest[j] in multiset(xs[1..]);
          assert rest[j] in xs[1..];
        }
      }
    }
  }

  /** Sorting reorders, and orders. */
  lemma {:induction false} SortByIs<T>(key: T -> string, xs: seq<T>)
    ensures multiset(SortBy(key, xs)) == multiset(xs) && |SortBy(key, xs)| == |xs|
    ensures SortedBy(key, SortBy(key, xs))
  {
    if xs != [] {
      SortByIs(key, xs[1..]);
      InsertIs(key, xs[0], SortBy(key, xs[1..]));
      assert xs == [xs[0]] + xs[1..];
      assert |multiset(SortBy(key, xs))| == |multiset(xs)|;
    }
  }

  /** Equal keys mean equal elements. */
  ghost predicate Distinct<T>(key: T -> string, xs: seq<T>) {
    forall x, y :: x in xs && y in xs && key(x) == key(y) ==> x == y
  }

  lemma SameLeast<T>(key: T -> string, xs: seq<T>, ys: seq<T>)
    requires SortedBy(key, xs) && SortedBy(key, ys) && Distinct(key, xs)
    requires xs != [] && ys != [] && xs[0] in ys && ys[0] in xs
    ensures xs[0] == ys[0]
  {
    var i :| 0 <= i < |ys| && ys[i] == xs[0];
    var j :| 0 <= j < |xs| && xs[j] == ys[0];
    if i > 0 && j > 0 {
      LeqAntisymmetric(key(xs[0]), key(ys[0]));
    }
  }

  lemma TailMultiset<T>(xs: seq<T>)
    requires xs != []
    ensures multiset(xs[1..]) == multiset(xs) - multiset{xs[0]}
  {
    assert xs == [xs[0]] + xs[1..];
  }

  /** Two orders of the same elements with different keys are one. */
  lemma {:induction false} SortedIsUnique<T>(key: T -> string, xs: seq<T>, ys: seq<T>)
    requires SortedBy(key, xs) && SortedBy(key, ys) && multiset(xs) == multiset(ys) && Distinct(key, xs)
    ensures xs == ys
    decreases |xs|
  {
    assert |multiset(xs)| == |xs| && |multiset(ys)| == |ys|;
    if xs != [] {
      assert xs[0] in multiset(ys) && ys[0] in multiset(xs);
      SameLeast(key, xs, ys);
      TailMultiset(xs);
      TailMultiset(ys);
      SortedIsUnique(key, xs[1..], ys[1..]);
      assert xs == [xs[0]] + xs[1..] && ys == [ys[0]] + ys[1..];
    }
  }

  /** The result does not depend on the order of the input. */
  lemma SortIgnoresOrder<T>(key: T -> string, xs: seq<T>, ys: seq<T>)
    requires multiset(xs) == multiset(ys) && Distinct(key, xs)
    ensures SortBy(key, xs) == SortBy(key, ys)
  {
    SortByIs(key, xs);
    SortByIs(key, ys);
    forall x | x in SortBy(key, xs)
      ensures x in xs
    {
      assert x in multiset(SortBy(key, xs));
    }
    SortedIsUnique(key, SortBy(key, xs), SortBy(key, ys));
  }
}
