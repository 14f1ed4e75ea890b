/** Sorting records by a key, as `sort.Slice` does. */
module Sorting {
  import opened Names

  /** What the library sort leaves in a slice. */
  function SortBy<T(==)>(less: (T, T) -> bool, xs: seq<T>): (r: seq<T>)
    ensures multiset(r) == multiset(xs)
  {
    if xs == [] then []
    else
      assert xs == [xs[0]] + xs[1..];
      InsertBy(less, xs[0], SortBy(less, xs[1..]))
  }

  function InsertBy<T(==)>(less: (T, T) -> bool, x: T, xs: seq<T>): (r: seq<T>)
    ensures multiset(r) == multiset(xs) + multiset{x}
  {
    if xs == [] then [x]
    else if !less(xs[0], x) then [x] + xs
    else
      assert xs == [xs[0]] + xs[1..];
      [xs[0]] + InsertBy(less, x, xs[1..])
  }

  ghost predicate WeakOrder<T(!new)>(less: (T, T) -> bool) {
    && (forall a, b :: less(a, b) ==> !less(b, a))
    && (forall a, b, c :: !less(a, b) && !less(b, c) ==> !less(a, c))
  }

  ghost predicate Ordered<T>(less: (T, T) -> bool, xs: seq<T>) {
    forall i, j :: 0 <= i < j < |xs| ==> !less(xs[j], xs[i])
  }

  lemma SameMembers<T>(xs: seq<T>, ys: seq<T>)
    requires multiset(xs) == multiset(ys)
    ensures |xs| == |ys| && forall x :: x in xs <==> x in ys
  {
    assert |multiset(xs)| == |xs| && |multiset(ys)| == |ys|;
    assert forall x :: x in xs <==> x in multiset(xs);
    assert forall x :: x in ys <==> x in multiset(ys);
  }

  lemma {:induction false} InsertOrdered<T(!new)>(less: (T, T) -> bool, x: T, xs: seq<T>)
    requires WeakOrder(less) && Ordered(less, xs)
    ensures Ordered(less, InsertBy(less, x, xs))
  {
    if xs == [] {
    } else if !less(xs[0], x) {
      forall j | 0 <= j < |xs| ensures !less(xs[j], x) {
        assert j > 0 ==> !less(xs[j], xs[0]);
      }
    } else {
      InsertOrdered(less, x, xs[1..]);
      var rest := InsertBy(less, x, xs[1..]);
      SameMembers(rest, xs[1..] + [x]);
      forall j | 0 <= j < |rest| ensures !less(rest[j], xs[0]) {
        assert rest[j] in rest;
        assert rest[j] in xs[1..] + [x];
        if rest[j] != x {
          var k :| 0 <= k < |xs[1..]| && xs[1..][k] == rest[j];
          assert xs[k + 1] == rest[j];
        }
      }
    }
  }

  lemma {:induction false} SortOrdered<T(!new)>(less: (T, T) -> bool, xs: seq<T>)
    requires WeakOrder(less)
    ensures Ordered(less, SortBy(less, xs))
  {
    if xs != [] {
      SortOrdered(less, xs[1..]);
      InsertOrdered(less, xs[0], SortBy(less, xs[1..]));
    }
  }

  lemma {:induction false} SortedStays<T>(less: (T, T) -> bool, xs: seq<T>)
    requires Ordered(less, xs)
    ensures SortBy(less, xs) == xs
  {
    if xs != [] {
      SortedStays(less, xs[1..]);
      assert xs == [xs[0]] + xs[1..];
      assert |xs| > 1 ==> !less(xs[1], xs[0]);
    }
  }

  /** Elements that are not in order either way are the same. */
  ghost predicate Total<T>(less: (T, T) -> bool, xs: seq<T>) {
    forall a, b :: a in xs && b in xs && !less(a, b) && !less(b, a) ==> a == b
  }

  lemma FirstLeast<T>(less: (T, T) -> bool, xs: seq<T>, x: T)
    requires Ordered(less, xs) && x in xs
    ensures x == xs[0] || !less(x, xs[0])
  {
    var k :| 0 <= k < |xs| && xs[k] == x;
  }

  lemma FirstMember<T>(xs: seq<T>)
    ensures xs == [] || xs[0] in xs
  {
  }

  lemma RestMembers<T>(xs: seq<T>)
    requires xs != [] && Distinct(xs)
    ensures Distinct(xs[1..]) && forall x :: x in xs[1..] <==> x in xs && x != xs[0]
  {
    forall x | x in xs[1..] ensures x != xs[0] {
      var k :| 0 <= k < |xs[1..]| && xs[1..][k] == x;
      assert xs[k + 1] == x;
    }
    assert xs == [xs[0]] + xs[1..];
  }

  /** There is one ordered list of distinct members. */
  lemma {:induction false} OrderedUnique<T>(less: (T, T) -> bool, xs: seq<T>, ys: seq<T>)
    requires Ordered(less, xs) && Ordered(less, ys) && Distinct(xs) && Distinct(ys) && Total(less, xs)
    requires forall x :: x in xs <==> x in ys
    ensures xs == ys
  {
    FirstMember(xs);
    FirstMember(ys);
    if xs != [] {
      FirstLeast(less, xs, ys[0]);
      FirstLeast(less, ys, xs[0]);
      RestMembers(xs);
      RestMembers(ys);
      OrderedUnique(less, xs[1..], ys[1..]);
      assert xs == [xs[0]] + xs[1..] && ys == [ys[0]] + ys[1..];
    }
  }
}
