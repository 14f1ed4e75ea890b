/** Orders on names: the lexicographic order behind Go's `sort.Strings`, and the
    order "plain tables before join tables, then by name" that the schema differ and
    the snapshot normaliser pass to `sort.Slice`. */
module Names {

  /** `a` comes before `b` in the byte order of Go strings. */
  predicate Less(a: string, b: string) {
    b != [] && (a == [] || a[0] < b[0] || (a[0] == b[0] && Less(a[1..], b[1..])))
  }

  lemma {:induction false} LessTotal(a: string, b: string)
    ensures a == b || Less(a, b) || Less(b, a)
    ensures !(Less(a, b) && Less(b, a))
    ensures !Less(a, a)
  {
    if a != [] {
      assert a == [a[0]] + a[1..];
      if b == [] {
        LessTotal(a[1..], []);
      } else {
        assert b == [b[0]] + b[1..];
        LessTotal(a[1..], b[1..]);
      }
    }
  }

  lemma {:induction false} LessTransitive(a: string, b: string, c: string)
    requires Less(a, b) && Less(b, c)
    ensures Less(a, c)
  {
    if a != [] && a[0] == b[0] == c[0] {
      LessTransitive(a[1..], b[1..], c[1..]);
    }
  }

  /** Where the two names part, the first ends or has the smaller character. */
  ghost predicate Lexicographic(a: string, b: string) {
    exists k: nat :: PartAt(a, b, k)
  }

  ghost predicate PartAt(a: string, b: string, k: nat) {
    && k <= |a| && k < |b| && (k == |a| || a[k] < b[k])
    && forall i :: 0 <= i < k ==> a[i] == b[i]
  }

  lemma {:induction false} LessParts(a: string, b: string) returns (k: nat)
    requires Less(a, b)
    ensures PartAt(a, b, k)
  {
    if a == [] || a[0] < b[0] {
      k := 0;
    } else {
      var l := LessParts(a[1..], b[1..]);
      k := l + 1;
      forall i | 0 <= i < k ensures a[i] == b[i] {
        assert i > 0 ==> a[1..][i - 1] == b[1..][i - 1];
      }
    }
  }

  lemma {:induction false} PartsLess(a: string, b: string, k: nat)
    requires PartAt(a, b, k)
    ensures Less(a, b)
  {
    if k > 0 { PartsLess(a[1..], b[1..], k - 1); }
  }

  lemma LessIsLexicographic(a: string, b: string)
    ensures Less(a, b) <==> Lexicographic(a, b)
  {
    if Less(a, b) {
      var k := LessParts(a, b);
    } else if Lexicographic(a, b) {
      var k: nat :| PartAt(a, b, k);
      PartsLess(a, b, k);
    }
  }

  /** The order of `sort.Slice` over table names, where `joins` holds the join tables;
      with no join tables it is the order of `sort.Strings`. */
  predicate Before(joins: set<string>, a: string, b: string) {
    if (a in joins) == (b in joins) then Less(a, b) else b in joins
  }

  lemma BeforeTotal(joins: set<string>, a: string, b: string)
    ensures a == b || Before(joins, a, b) || Before(joins, b, a)
    ensures !(Before(joins, a, b) && Before(joins, b, a))
    ensures !Before(joins, a, a)
  {
    LessTotal(a, b);
    LessTotal(a, a);
  }

  lemma BeforeTransitive(joins: set<string>, a: string, b: string, c: string)
    requires Before(joins, a, b) && Before(joins, b, c)
    ensures Before(joins, a, c)
  {
    if (a in joins) == (b in joins) == (c in joins) {
      LessTransitive(a, b, c);
    }
  }

  ghost predicate Ascending(joins: set<string>, names: seq<string>) {
    forall i, j :: 0 <= i < j < |names| ==> Before(joins, names[i], names[j])
  }

  ghost predicate Distinct<T>(xs: seq<T>) {
    forall i, j :: 0 <= i < j < |xs| ==> xs[i] != xs[j]
  }

  function Insert(joins: set<string>, name: string, names: seq<string>): (r: seq<string>)
    ensures multiset(r) == multiset(names) + multiset{name}
  {
    if names == [] then [name]
    else if Before(joins, name, names[0]) then [name] + names
    else
      assert names == [names[0]] + names[1..];
      [names[0]] + Insert(joins, name, names[1..])
  }

  /** What the library sort leaves in a slice. */
  function Sort(joins: set<string>, names: seq<string>): (r: seq<string>)
    ensures multiset(r) == multiset(names)
  {
    if names == [] then []
    else
      assert names == [names[0]] + names[1..];
      Insert(joins, names[0], Sort(joins, names[1..]))
  }

  lemma MembersOfMultiset(xs: seq<string>, ys: seq<string>)
    requires multiset(xs) == multiset(ys)
    ensures |xs| == |ys|
    ensures forall x :: x in xs <==> x in ys
  {
    assert |multiset(xs)| == |xs| && |multiset(ys)| == |ys|;
    assert forall x :: x in xs <==> x in multiset(xs);
    assert forall x :: x in ys <==> x in multiset(ys);
  }

  lemma {:induction false} InsertAscending(joins: set<string>, name: string, names: seq<string>)
    requires Ascending(joins, names) && name !in names
    ensures Ascending(joins, Insert(joins, name, names))
  {
    if names == [] {
    } else if Before(joins, name, names[0]) {
      forall j | 0 <= j < |names| ensures Before(joins, name, names[j]) {
        if j > 0 { BeforeTransitive(joins, name, names[0], names[j]); }
      }
    } else {
      BeforeTotal(joins, name, names[0]);
      InsertAscending(joins, name, names[1..]);
      var rest := Insert(joins, name, names[1..]);
      forall j | 0 <= j < |rest| ensures Before(joins, names[0], rest[j]) {
        assert rest[j] in multiset(rest);
        if rest[j] != name {
          assert rest[j] in multiset(names[1..]);
          assert rest[j] in names[1..];
        }
      }
    }
  }

  lemma {:induction false} SortAscending(joins: set<string>, names: seq<string>)
    requires Distinct(names)
    ensures Ascending(joins, Sort(joins, names))
  {
    if names != [] {
      SortAscending(joins, names[1..]);
      MembersOfMultiset(Sort(joins, names[1..]), names[1..]);
      InsertAscending(joins, names[0], Sort(joins, names[1..]));
    }
  }

  /** A list that enumerates `s` in ascending order. */
  ghost predicate Enumerates(joins: set<string>, names: seq<string>, s: set<string>) {
    Ascending(joins, names) && (forall x :: x in names <==> x in s)
  }

  lemma AscendingDistinct(joins: set<string>, names: seq<string>)
    requires Ascending(joins, names)
    ensures Distinct(names)
  {
    forall i, j | 0 <= i < j < |names| ensures names[i] != names[j] {
      BeforeTotal(joins, names[i], names[j]);
    }
  }

  lemma HasMember(xs: seq<string>)
    ensures xs == [] || exists x :: x in xs
  {
    if xs != [] { assert xs[0] in xs; }
  }

  lemma {:induction false} SortedUnique(joins: set<string>, xs: seq<string>, ys: seq<string>)
    requires Ascending(joins, xs) && Ascending(joins, ys)
    requires forall x :: x in xs <==> x in ys
    ensures xs == ys
  {
    if xs == [] {
      HasMember(ys);
    } else {
      assert xs[0] in xs;
      var k :| 0 <= k < |ys| && ys[k] == xs[0];
      assert ys[0] in ys;
      var l :| 0 <= l < |xs| && xs[l] == ys[0];
      if k > 0 && l > 0 { BeforeTotal(joins, xs[0], ys[0]); }
      assert xs[0] == ys[0];
      AscendingDistinct(joins, xs);
      AscendingDistinct(joins, ys);
      forall x ensures x in xs[1..] <==> x in ys[1..] {
        if x in xs[1..] { assert x in xs && x != xs[0]; }
        if x in ys[1..] { assert x in ys && x != ys[0]; }
      }
      SortedUnique(joins, xs[1..], ys[1..]);
      assert xs == [xs[0]] + xs[1..] && ys == [ys[0]] + ys[1..];
    }
  }

  /** Some enumeration of a finite set, in the arbitrary order of a map range loop. */
  ghost function Listing(s: set<string>): (r: seq<string>)
    ensures Distinct(r)
    ensures forall x :: x in r <==> x in s
  {
    if s == {} then [] else
      var x :| x in s;
      [x] + Listing(s - {x})
  }

  lemma SortedExists(joins: set<string>, s: set<string>)
    ensures exists r :: Enumerates(joins, r, s)
  {
    var r := Sort(joins, Listing(s));
    SortAscending(joins, Listing(s));
    MembersOfMultiset(r, Listing(s));
    assert Enumerates(joins, r, s);
  }

  /** The sorted list of a set of names: by SortedUnique the only ascending list that has
      exactly these members. */
  ghost function Sorted(joins: set<string>, s: set<string>): (r: seq<string>)
    ensures Enumerates(joins, r, s)
    ensures Distinct(r)
  {
    SortedExists(joins, s);
    var r :| Enumerates(joins, r, s);
    AscendingDistinct(joins, r);
    r
  }

  /** Collects the keys of a map that satisfy `want`, in whatever order the range loop
      meets them, and sorts them. */
  method CollectSorted(keys: set<string>, joins: set<string>, want: string -> bool) returns (names: seq<string>)
    ensures names == Sorted(joins, set x | x in keys && want(x))
  {
    var todo := keys;
    names := [];
    while todo != {}
      invariant todo <= keys
      invariant Distinct(names)
      invariant forall x :: x in names <==> x in keys && x !in todo && want(x)
      decreases |todo|
    {
      var x :| x in todo;
      todo := todo - {x};
      if want(x) {
        names := names + [x];
      }
    }
    SortIsSorted(joins, names, set x | x in keys && want(x));
    names := Sort(joins, names);
  }

  /** The sorting step of the source: however the loop over the map filled `names`,
      sorting it gives the sorted list of its members. */
  lemma SortIsSorted(joins: set<string>, names: seq<string>, s: set<string>)
    requires Distinct(names)
    requires forall x :: x in names <==> x in s
    ensures Sort(joins, names) == Sorted(joins, s)
  {
    SortAscending(joins, names);
    MembersOfMultiset(Sort(joins, names), names);
    SortedUnique(joins, Sort(joins, names), Sorted(joins, s));
  }
}
