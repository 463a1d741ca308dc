/** Array.prototype.sort with a comparison that separates every two elements. */
module Sorting {
  /** `less` orders any two distinct elements of `s` in exactly one way, and consistently. */
  ghost predicate Orders<T(!new)>(less: (T, T) -> bool, s: seq<T>) {
    && (forall x | x in s :: !less(x, x))
    && (forall x, y | x in s && y in s :: x == y || less(x, y) || less(y, x))
    && (forall x, y, z | x in s && y in s && z in s && less(x, y) && less(y, z) :: less(x, z))
  }

  ghost predicate Distinct<T>(s: seq<T>) {
    forall i, j | 0 <= i < j < |s| :: s[i] != s[j]
  }

  ghost predicate Sorted<T>(less: (T, T) -> bool, s: seq<T>) {
    forall i, j | 0 <= i < j < |s| :: less(s[i], s[j])
  }

  function Inserted<T>(less: (T, T) -> bool, x: T, s: seq<T>): (r: seq<T>)
    ensures multiset(r) == multiset{x} + multiset(s)
  {
    if s == [] then [x]
    else if less(s[0], x) then
      assert s == [s[0]] + s[1..];
      [s[0]] + Inserted(less, x, s[1..])
    else [x] + s
  }

  function Sort<T>(less: (T, T) -> bool, s: seq<T>): (r: seq<T>)
    ensures multiset(r) == multiset(s)
  {
    if s == [] then []
    else
      assert s == [s[0]] + s[1..];
      Inserted(less, s[0], Sort(less, s[1..]))
  }

  lemma SameMembers<T>(a: seq<T>, b: seq<T>)
    requires multiset(a) == multiset(b)
    ensures |a| == |b| && forall x :: x in a <==> x in b
  {
    assert forall x :: x in a <==> x in multiset(a);
    assert forall x :: x in b <==> x in multiset(b);
    assert |a| == |multiset(a)| == |multiset(b)| == |b|;
  }

  /** Permuting keeps elements distinct. */
  lemma DistinctKept<T>(a: seq<T>, b: seq<T>)
    requires multiset(a) == multiset(b) && Distinct(a)
    ensures Distinct(b)
  {
    forall i, j | 0 <= i < j < |b|
      ensures b[i] != b[j]
    {
      if b[i] == b[j] {
        Twice(b, i, j);
        Once(a, b[i]);
      }
    }
  }

  lemma Twice<T>(b: seq<T>, i: int, j: int)
    requires 0 <= i < j < |b| && b[i] == b[j]
    ensures multiset(b)[b[i]] >= 2
  {
    assert b == b[..i] + [b[i]] + b[i + 1..j] + [b[j]] + b[j + 1..];
  }

  lemma {:induction false} Once<T>(a: seq<T>, x: T)
    requires Distinct(a)
    ensures multiset(a)[x] <= 1
  {
    if a != [] {
      assert a == [a[0]] + a[1..];
      Once(a[1..], x);
      if a[0] == x {
        assert x !in a[1..];
      }
    }
  }

  lemma SortedCons<T>(less: (T, T) -> bool, x: T, s: seq<T>)
    requires Sorted(less, s) && forall i | 0 <= i < |s| :: less(x, s[i])
    ensures Sorted(less, [x] + s)
  {
  }

  lemma {:induction false} InsertKeepsSorted<T(!new)>(less: (T, T) -> bool, x: T, s: seq<T>)
    requires Orders(less, [x] + s) && Sorted(less, s) && x !in s
    ensures Sorted(less, Inserted(less, x, s))
  {
    if s != [] && less(s[0], x) {
      var rest := Inserted(less, x, s[1..]);
      assert forall y | y in [x] + s[1..] :: y in [x] + s;
      InsertKeepsSorted(less, x, s[1..]);
      SameMembers(rest, [x] + s[1..]);
      forall i | 0 <= i < |rest|
        ensures less(s[0], rest[i])
      {
        assert rest[i] in [x] + s[1..];
      }
      SortedCons(less, s[0], rest);
    } else if s != [] {
      assert x in [x] + s && s[0] in [x] + s;
      assert less(x, s[0]);
      forall i | 0 <= i < |s|
        ensures less(x, s[i])
      {
        assert s[i] in [x] + s;
      }
      SortedCons(less, x, s);
    }
  }

  lemma {:induction false} SortSorts<T(!new)>(less: (T, T) -> bool, s: seq<T>)
    requires Orders(less, s) && Distinct(s)
    ensures Sorted(less, Sort(less, s))
  {
    if s != [] {
      var rest := Sort(less, s[1..]);
      SortSorts(less, s[1..]);
      SameMembers(rest, s[1..]);
      assert forall y | y in [s[0]] + rest :: y in s;
      InsertKeepsSorted(less, s[0], rest);
    }
  }

  lemma HeadsAgree<T(!new)>(less: (T, T) -> bool, a: seq<T>, b: seq<T>)
    requires Orders(less, a) && Sorted(less, a) && Sorted(less, b) && multiset(a) == multiset(b) && a != []
    ensures b != [] && a[0] == b[0]
  {
    SameMembers(a, b);
    var x, y := a[0], b[0];
    assert x in a && y in a && x in b;
    var i :| 0 <= i < |b| && b[i] == x;
    var j :| 0 <= j < |a| && a[j] == y;
    assert !(less(x, y) && less(y, x));
    assert i > 0 ==> less(y, x);
    assert j > 0 ==> less(x, y);
  }

  lemma TailsMatch<T>(a: seq<T>, b: seq<T>)
    requires a != [] && b != [] && a[0] == b[0] && multiset(a) == multiset(b)
    ensures multiset(a[1..]) == multiset(b[1..])
  {
    assert a == [a[0]] + a[1..] && b == [b[0]] + b[1..];
    assert multiset(a[1..]) == multiset(a) - multiset{a[0]};
    assert multiset(b[1..]) == multiset(b) - multiset{b[0]};
  }

  lemma TailOrdered<T(!new)>(less: (T, T) -> bool, a: seq<T>)
    requires Orders(less, a) && Sorted(less, a) && a != []
    ensures Orders(less, a[1..]) && Sorted(less, a[1..])
  {
    assert forall x | x in a[1..] :: x in a;
  }

  /** Only one arrangement of given elements is sorted. */
  lemma {:induction false} SortedUnique<T(!new)>(less: (T, T) -> bool, a: seq<T>, b: seq<T>)
    requires Orders(less, a) && Sorted(less, a) && Sorted(less, b) && multiset(a) == multiset(b)
    ensures a == b
  {
    if a == [] {
      SameMembers(a, b);
    } else {
      HeadsAgree(less, a, b);
      TailsMatch(a, b);
      TailOrdered(less, a);
      SortedUnique(less, a[1..], b[1..]);
    }
  }

  /** The result of sorting does not depend on the order the elements came in. */
  lemma SortIgnoresOrder<T(!new)>(less: (T, T) -> bool, a: seq<T>, b: seq<T>)
    requires Orders(less, a) && Distinct(a) && multiset(a) == multiset(b)
    ensures Sort(less, a) == Sort(less, b)
  {
    SameMembers(a, b);
    DistinctKept(a, b);
    SortSorts(less, a);
    SortSorts(less, b);
    SameMembers(Sort(less, a), a);
    SortedUnique(less, Sort(less, a), Sort(less, b));
  }
}
