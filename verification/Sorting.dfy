/** Sorting by a strict order: what ORDER BY and the library's sort do to a list whose elements
    the order tells apart. */
module Sorting {

  function Insert<T>(xs: seq<T>, x: T, before: (T, T) -> bool): seq<T> {
    if |xs| == 0 || before(x, xs[0]) then [x] + xs
    else [xs[0]] + Insert(xs[1..], x, before)
  }

  function Sort<T>(xs: seq<T>, before: (T, T) -> bool): seq<T> {
    if |xs| == 0 then [] else Insert(Sort(xs[..|xs| - 1], before), xs[|xs| - 1], before)
  }

  ghost predicate Ordered<T>(xs: seq<T>, before: (T, T) -> bool) {
    forall i, j :: 0 <= i < j < |xs| ==> before(xs[i], xs[j])
  }

  ghost predicate StrictOrder<T(!new)>(before: (T, T) -> bool) {
    && (forall x :: !before(x, x))
    && (forall x, y, z :: before(x, y) && before(y, z) ==> before(x, z))
  }

  /** The order decides between any two elements of the list. */
  ghost predicate ToldApart<T>(xs: seq<T>, before: (T, T) -> bool) {
    forall i, j :: 0 <= i < j < |xs| ==> before(xs[i], xs[j]) || before(xs[j], xs[i])
  }

  function SumOf<T>(xs: seq<T>, f: T -> int): int {
    if |xs| == 0 then 0 else SumOf(xs[..|xs| - 1], f) + f(xs[|xs| - 1])
  }

  lemma {:induction false} InsertKeeps<T>(xs: seq<T>, x: T, before: (T, T) -> bool)
    ensures multiset(Insert(xs, x, before)) == multiset(xs) + multiset{x}
    ensures |Insert(xs, x, before)| == |xs| + 1
  {
    if |xs| > 0 && !before(x, xs[0]) {
      InsertKeeps(xs[1..], x, before);
      assert xs == [xs[0]] + xs[1..];
    }
  }

  lemma {:induction false} InsertOrdered<T(!new)>(xs: seq<T>, x: T, before: (T, T) -> bool)
    requires StrictOrder(before) && Ordered(xs, before)
    requires forall i :: 0 <= i < |xs| ==> before(xs[i], x) || before(x, xs[i])
    ensures Ordered(Insert(xs, x, before), before)
  {
    if |xs| > 0 && !before(x, xs[0]) {
      var tail := Insert(xs[1..], x, before);
      InsertOrdered(xs[1..], x, before);
      InsertKeeps(xs[1..], x, before);
      forall i | 0 <= i < |tail| ensures before(xs[0], tail[i]) {
        assert tail[i] in multiset(tail);
        assert tail[i] == x || tail[i] in xs[1..];
      }
    }
  }

  lemma {:induction false} SortKeeps<T>(xs: seq<T>, before: (T, T) -> bool)
    ensures multiset(Sort(xs, before)) == multiset(xs)
    ensures |Sort(xs, before)| == |xs|
  {
    if |xs| > 0 {
      SortKeeps(xs[..|xs| - 1], before);
      InsertKeeps(Sort(xs[..|xs| - 1], before), xs[|xs| - 1], before);
      assert xs == xs[..|xs| - 1] + [xs[|xs| - 1]];
    }
  }

  lemma {:induction false} SortOrdered<T(!new)>(xs: seq<T>, before: (T, T) -> bool)
    requires StrictOrder(before) && ToldApart(xs, before)
    ensures Ordered(Sort(xs, before), before)
  {
    if |xs| > 0 {
      var front, last := xs[..|xs| - 1], xs[|xs| - 1];
      SortOrdered(front, before);
      SortKeeps(front, before);
      forall i | 0 <= i < |Sort(front, before)|
        ensures before(Sort(front, before)[i], last) || before(last, Sort(front, before)[i])
      {
        assert Sort(front, before)[i] in multiset(Sort(front, before));
        assert Sort(front, before)[i] in front;
      }
      InsertOrdered(Sort(front, before), last, before);
    }
  }

  /** There is only one way to put the same elements in order. */
  lemma {:induction false} OrderedUnique<T(!new)>(a: seq<T>, b: seq<T>, before: (T, T) -> bool)
    requires StrictOrder(before) && Ordered(a, before) && Ordered(b, before)
    requires multiset(a) == multiset(b)
    ensures a == b
  {
    assert |multiset(a)| == |a| && |multiset(b)| == |b|;
    if |a| > 0 {
      SameFirst(a, b, before);
      assert a == [a[0]] + a[1..] && b == [b[0]] + b[1..];
      assert multiset(a[1..]) == multiset(a) - multiset{a[0]};
      assert multiset(b[1..]) == multiset(b) - multiset{b[0]};
      OrderedUnique(a[1..], b[1..], before);
    }
  }

  lemma SameFirst<T(!new)>(a: seq<T>, b: seq<T>, before: (T, T) -> bool)
    requires StrictOrder(before) && Ordered(a, before) && Ordered(b, before)
    requires |a| > 0 && |b| > 0 && multiset(a) == multiset(b)
    ensures a[0] == b[0]
  {
    assert a[0] in multiset(a) && b[0] in multiset(b);
    var i :| 0 <= i < |b| && b[i] == a[0];
    var j :| 0 <= j < |a| && a[j] == b[0];
  }

  lemma SortIdentity<T(!new)>(xs: seq<T>, before: (T, T) -> bool)
    requires StrictOrder(before) && Ordered(xs, before)
    ensures Sort(xs, before) == xs
  {
    SortOrdered(xs, before);
    SortKeeps(xs, before);
    OrderedUnique(Sort(xs, before), xs, before);
  }

  /** The sorted list depends on the elements only, not on the order they came in. */
  lemma SortIgnoresOrder<T(!new)>(a: seq<T>, b: seq<T>, before: (T, T) -> bool)
    requires StrictOrder(before) && ToldApart(a, before) && ToldApart(b, before)
    requires multiset(a) == multiset(b)
    ensures Sort(a, before) == Sort(b, before)
  {
    SortOrdered(a, before);
    SortOrdered(b, before);
    SortKeeps(a, before);
    SortKeeps(b, before);
    OrderedUnique(Sort(a, before), Sort(b, before), before);
  }

  lemma {:induction false} SumOfFront<T>(xs: seq<T>, f: T -> int)
    requires |xs| > 0
    ensures SumOf(xs, f) == f(xs[0]) + SumOf(xs[1..], f)
  {
    if |xs| > 1 {
      SumOfFront(xs[..|xs| - 1], f);
      assert xs[..|xs| - 1][1..] == xs[1..][..|xs| - 2];
    }
  }

  lemma {:induction false} InsertSum<T>(xs: seq<T>, x: T, before: (T, T) -> bool, f: T -> int)
    ensures SumOf(Insert(xs, x, before), f) == SumOf(xs, f) + f(x)
  {
    var r := Insert(xs, x, before);
    SumOfFront(r, f);
    if |xs| > 0 && !before(x, xs[0]) {
      InsertSum(xs[1..], x, before, f);
      SumOfFront(xs, f);
      assert r[1..] == Insert(xs[1..], x, before);
    } else {
      assert r[1..] == xs;
    }
  }

  lemma {:induction false} SortSum<T>(xs: seq<T>, before: (T, T) -> bool, f: T -> int)
    ensures SumOf(Sort(xs, before), f) == SumOf(xs, f)
  {
    if |xs| > 0 {
      SortSum(xs[..|xs| - 1], before, f);
      InsertSum(Sort(xs[..|xs| - 1], before), xs[|xs| - 1], before, f);
    }
  }
}
