/** What sortEntityMigrations promises: every table once; referenced tables first, in the
    least such order by name, whenever there is such an order at all. */
module OrderTheorems {
  import opened Names
  import opened Entities
  import opened MigrationOrder

  /** A foreign key of the table refers to another table that is not among the first i. */
  ghost predicate Waits(entities: Plan, o: seq<string>, i: nat, t: string)
    requires i <= |o|
  {
    exists e, fk ::
      e in entities && e.table == t && fk in e.foreignKeys && fk.targetTable != t && fk.targetTable in o[i..]
  }

  /** The tables of the list, each once. */
  ghost predicate Lists(entities: Plan, o: seq<string>) {
    Distinct(o) && forall t :: t in o <==> exists e :: e in entities && e.table == t
  }

  /** An order of all tables in which every table comes after those that it refers to. */
  ghost predicate IsOrder(entities: Plan, o: seq<string>) {
    Lists(entities, o) && forall i :: 0 <= i < |o| ==> !Waits(entities, o, i, o[i])
  }

  ghost predicate ReadyOrder(entities: Plan, o: seq<string>) {
    && Distinct(o) && Members(o) == TableSet(entities)
    && forall i :: 0 <= i < |o| ==> Ready(entities, Members(o[..i]), o[i])
  }

  lemma {:induction false} TargetsAre(entities: Plan, t: string, d: string)
    ensures d in TargetsOf(entities, t) <==>
      exists e, fk :: e in entities && e.table == t && fk in e.foreignKeys && fk.targetTable == d
  {
    if entities != [] {
      var init, last := entities[..|entities| - 1], entities[|entities| - 1];
      TargetsAre(init, t, d);
      assert entities == init + [last];
      if d in Targets(last) && last.table == t {
        var k :| 0 <= k < |last.foreignKeys| && Targets(last)[k] == d;
        assert last.foreignKeys[k] in last.foreignKeys;
      }
      forall fk | fk in last.foreignKeys && last.table == t && fk.targetTable == d ensures d in Targets(last) {
        var k :| 0 <= k < |last.foreignKeys| && last.foreignKeys[k] == fk;
        assert Targets(last)[k] == d;
      }
    }
  }

  lemma ListsMembers(entities: Plan, o: seq<string>)
    ensures Lists(entities, o) <==> Distinct(o) && Members(o) == TableSet(entities)
  {
    assert forall t :: t in TableSet(entities) <==> exists e :: e in entities && e.table == t;
    if Distinct(o) && Members(o) == TableSet(entities) {
      assert forall t :: t in o <==> t in Members(o);
    } else if Lists(entities, o) {
      assert forall t :: t in Members(o) <==> t in TableSet(entities);
    }
  }

  lemma RestOfOrder(o: seq<string>, i: nat, d: string)
    requires Distinct(o) && i <= |o|
    ensures d in o[i..] <==> d in o && d !in o[..i]
  {
    assert o == o[..i] + o[i..];
    if d in o[i..] {
      var b :| 0 <= b < |o[i..]| && o[i..][b] == d;
      forall a | 0 <= a < i ensures o[..i][a] != d { assert o[a] != o[i + b]; }
    }
  }

  /** A table waits exactly if it needs one that is not there. */
  lemma WaitsIsOpen(entities: Plan, o: seq<string>, i: nat, t: string)
    requires Lists(entities, o) && i <= |o|
    ensures Waits(entities, o, i, t) <==> exists d :: Needs(entities, t, d) && d !in Members(o[..i])
  {
    ListsMembers(entities, o);
    forall d ensures d in o[i..] <==> d in TableSet(entities) && d !in Members(o[..i]) { RestOfOrder(o, i, d); }
    forall d ensures d in TargetsOf(entities, t) <==>
      exists e, fk :: e in entities && e.table == t && fk in e.foreignKeys && fk.targetTable == d
    {
      TargetsAre(entities, t, d);
    }
    hide TargetsOf, TableSet, Lists;
    if d :| Needs(entities, t, d) && d !in Members(o[..i]) {
      var e, fk :| e in entities && e.table == t && fk in e.foreignKeys && fk.targetTable == d;
      assert fk.targetTable in o[i..];
    }
  }

  lemma OrdersAgree(entities: Plan, o: seq<string>)
    ensures IsOrder(entities, o) <==> ReadyOrder(entities, o)
  {
    ListsMembers(entities, o);
    if Lists(entities, o) {
      forall i | 0 <= i < |o| ensures !Waits(entities, o, i, o[i]) <==> Ready(entities, Members(o[..i]), o[i]) {
        WaitsIsOpen(entities, o, i, o[i]);
        assert forall k :: 0 <= k < i ==> o[k] != o[i];
      }
    }
  }

  /** `a` comes no later than `b` in the dictionary order of name lists. */
  ghost predicate NoLater(a: seq<string>, b: seq<string>) {
    a == b || exists k :: 0 <= k < |a| && k < |b| && a[..k] == b[..k] && Lexicographic(a[k], b[k])
  }

  /** A set of tables each of which needs another one of the set: a reference cycle. */
  ghost predicate Knot(entities: Plan, s: set<string>) {
    && s != {} && s <= TableSet(entities)
    && forall t {:trigger NeedsOneOf(entities, t, s)} :: t in s ==> NeedsOneOf(entities, t, s)
  }

  ghost predicate NeedsOneOf(entities: Plan, t: string, s: set<string>) {
    exists e, fk :: e in entities && e.table == t && fk in e.foreignKeys && fk.targetTable != t && fk.targetTable in s
  }

  lemma NeedsOne(entities: Plan, t: string, s: set<string>)
    requires s <= TableSet(entities)
    ensures NeedsOneOf(entities, t, s) <==> exists d :: d in s && Needs(entities, t, d)
  {
    forall d ensures d in TargetsOf(entities, t) <==>
      exists e, fk :: e in entities && e.table == t && fk in e.foreignKeys && fk.targetTable == d
    {
      TargetsAre(entities, t, d);
    }
    hide TargetsOf, TableSet;
    if d :| d in s && Needs(entities, t, d) {
      var e, fk :| e in entities && e.table == t && fk in e.foreignKeys && fk.targetTable == d;
      assert fk.targetTable in s;
    }
  }

  ghost predicate Startable(entities: Plan, prefix: seq<string>) {
    && Distinct(prefix) && Members(prefix) <= TableSet(entities)
    && forall i :: 0 <= i < |prefix| ==> Ready(entities, Members(prefix[..i]), prefix[i])
  }

  lemma StartableStep(entities: Plan, prefix: seq<string>, next: string)
    requires Startable(entities, prefix) && next in ReadySet(entities, Members(prefix))
    ensures Startable(entities, prefix + [next])
    ensures |TableSet(entities) - Members(prefix + [next])| < |TableSet(entities) - Members(prefix)|
  {
    var longer := prefix + [next];
    assert TableSet(entities) - Members(longer) == TableSet(entities) - Members(prefix) - {next};
    forall i | 0 <= i < |longer| ensures Ready(entities, Members(longer[..i]), longer[i]) {
      if i < |prefix| { assert longer[..i] == prefix[..i]; } else { assert longer[..i] == prefix; }
    }
  }

  /** Greedy keeps what it has, stays legal, and stops when nothing is ready. */
  lemma {:induction false} GreedyRuns(entities: Plan, prefix: seq<string>)
    requires Startable(entities, prefix)
    ensures prefix <= Greedy(entities, prefix) && Startable(entities, Greedy(entities, prefix))
    ensures ReadySet(entities, Members(Greedy(entities, prefix))) == {}
    decreases |TableSet(entities) - Members(prefix)|
  {
    var ready := ReadySet(entities, Members(prefix));
    if ready != {} {
      SmallestIsReady(ready);
      var next := Sorted({}, ready)[0];
      StartableStep(entities, prefix, next);
      GreedyRuns(entities, prefix + [next]);
      assert prefix <= prefix + [next];
    }
  }

  lemma EmptyStartable(entities: Plan)
    ensures Startable(entities, [])
  {
  }

  /** The order has every table exactly once, whatever the references. */
  lemma KahnOrderIsComplete(entities: Plan)
    ensures Distinct(KahnOrder(entities)) && Members(KahnOrder(entities)) == TableSet(entities)
  {
    EmptyStartable(entities);
    GreedyRuns(entities, []);
    var reached := Greedy(entities, []);
    var rest := Sorted({}, TableSet(entities) - Members(reached));
    forall i, j | 0 <= i < |reached| && 0 <= j < |rest| ensures reached[i] != rest[j] {
      assert reached[i] in Members(reached) && rest[j] in rest;
    }
    assert forall x :: x in reached + rest <==> x in reached || x in rest;
  }

  lemma {:induction false} SameMultiset<T>(a: seq<T>, b: seq<T>)
    requires Distinct(a) && Distinct(b) && forall x :: x in a <==> x in b
    ensures multiset(a) == multiset(b)
  {
    forall x ensures multiset(a)[x] == multiset(b)[x] {
      DistinctCount(a, x);
      DistinctCount(b, x);
    }
  }

  lemma {:induction false} DistinctCount<T>(a: seq<T>, x: T)
    requires Distinct(a)
    ensures multiset(a)[x] == if x in a then 1 else 0
  {
    if a != [] {
      var init, last := a[..|a| - 1], a[|a| - 1];
      assert a == init + [last];
      DistinctCount(init, x);
      forall i | 0 <= i < |init| ensures init[i] != last {
        assert a[i] != a[|a| - 1];
      }
    }
  }

  /** With distinct table names the sorted plan is a permutation of the plan. */
  lemma SortedPlanIsPermutation(entities: Plan, ordered: Plan)
    requires Distinct(TablesOf(entities))
    requires TablesOf(ordered) == KahnOrder(entities) && forall e :: e in ordered ==> e in entities
    ensures multiset(ordered) == multiset(entities)
  {
    KahnOrderIsComplete(entities);
    var a, b := TablesOf(ordered), TablesOf(entities);
    forall i, j | 0 <= i < j < |ordered| ensures ordered[i] != ordered[j] {
      assert a[i] != a[j];
    }
    forall i, j | 0 <= i < j < |entities| ensures entities[i] != entities[j] {
      assert b[i] != b[j];
    }
    forall e | e in entities ensures e in ordered {
      assert e.table in Members(a);
      var i :| 0 <= i < |a| && a[i] == e.table;
      SameTable(entities, ordered[i], e);
    }
    SameMultiset(ordered, entities);
  }

  lemma SameTable(entities: Plan, x: EntityMigration, y: EntityMigration)
    requires Distinct(TablesOf(entities)) && x in entities && y in entities && x.table == y.table
    ensures x == y
  {
    var i :| 0 <= i < |entities| && entities[i] == x;
    var j :| 0 <= j < |entities| && entities[j] == y;
    assert TablesOf(entities)[i] == TablesOf(entities)[j];
  }

  /** If there is an order, some table is ready as long as one is missing. */
  lemma OrderMakesReady(entities: Plan, o: seq<string>, done: set<string>)
    requires ReadyOrder(entities, o) && done <= TableSet(entities) && done != TableSet(entities)
    ensures ReadySet(entities, done) != {}
  {
    var t :| t in TableSet(entities) && t !in done;
    assert t in Members(o);
    var k := FirstMissing(o, done);
    assert Members(o[..k]) <= done;
    assert Ready(entities, Members(o[..k]), o[k]);
    assert o[k] in Members(o);
    assert o[k] in ReadySet(entities, done);
  }

  ghost function FirstMissing(o: seq<string>, done: set<string>): (k: nat)
    requires exists t :: t in o && t !in done
    ensures k < |o| && o[k] !in done && forall i :: 0 <= i < k ==> o[i] in done
  {
    if o[0] !in done then 0
    else
      assert o == [o[0]] + o[1..];
      1 + FirstMissing(o[1..], done)
  }

  lemma ReachesAll(entities: Plan, o: seq<string>)
    requires ReadyOrder(entities, o)
    ensures ReadyOrder(entities, KahnOrder(entities)) && KahnOrder(entities) == Greedy(entities, [])
  {
    EmptyStartable(entities);
    GreedyRuns(entities, []);
    var reached := Greedy(entities, []);
    if Members(reached) != TableSet(entities) {
      OrderMakesReady(entities, o, Members(reached));
    }
    assert TableSet(entities) - Members(reached) == {};
    HasMember(Sorted({}, {}));
    assert reached + [] == reached;
  }

  /** The next table after a prefix of an order is the first ready one. */
  lemma NextAfterPrefix(entities: Plan, o: seq<string>, n: nat) returns (next: string)
    requires ReadyOrder(entities, o) && n < |o| && Startable(entities, o[..n])
    ensures next == o[n] || Less(next, o[n])
    ensures Startable(entities, o[..n] + [next])
    ensures Greedy(entities, o[..n]) == Greedy(entities, o[..n] + [next]) && o[..n] + [next] <= Greedy(entities, o[..n])
  {
    var ready := ReadySet(entities, Members(o[..n]));
    assert Ready(entities, Members(o[..n]), o[n]) && o[n] in Members(o);
    assert o[n] in ready;
    SmallestIsReady(ready);
    next := Sorted({}, ready)[0];
    StartableStep(entities, o[..n], next);
    GreedyRuns(entities, o[..n] + [next]);
  }

  lemma {:induction false} GreedyIsLeast(entities: Plan, o: seq<string>, n: nat)
    requires ReadyOrder(entities, o) && n <= |o| && Startable(entities, o[..n])
    ensures NoLater(Greedy(entities, o[..n]), o)
    decreases |o| - n
  {
    if n == |o| {
      assert o[..n] == o;
      assert ReadySet(entities, Members(o)) == {};
    } else {
      hide *;
      var next := NextAfterPrefix(entities, o, n);
      if next == o[n] {
        assert o[..n + 1] == o[..n] + [next];
        GreedyIsLeast(entities, o, n + 1);
      } else {
        EarlierAt(Greedy(entities, o[..n]), o, n, next);
      }
    }
  }

  lemma EarlierAt(g: seq<string>, o: seq<string>, n: nat, next: string)
    requires n < |o| && o[..n] + [next] <= g && Less(next, o[n])
    ensures NoLater(g, o)
  {
    LessIsLexicographic(next, o[n]);
    hide Less, Lexicographic;
    assert g[n] == (o[..n] + [next])[n] == next;
    assert g[..n] == (o[..n] + [next])[..n] == o[..n];
  }

  lemma KahnReadyIsLeast(entities: Plan, o: seq<string>)
    requires ReadyOrder(entities, o)
    ensures ReadyOrder(entities, KahnOrder(entities)) && NoLater(KahnOrder(entities), o)
  {
    ReachesAll(entities, o);
    EmptyStartable(entities);
    assert o[..0] == [];
    GreedyIsLeast(entities, o, 0);
  }

  /** Referenced tables come first whenever that is possible at all ... */
  lemma KahnOrderIsOrder(entities: Plan, o: seq<string>)
    requires IsOrder(entities, o)
    ensures IsOrder(entities, KahnOrder(entities))
  {
    hide *;
    OrdersAgree(entities, o);
    OrdersAgree(entities, KahnOrder(entities));
    ReachesAll(entities, o);
  }

  /** ... and among all such orders the result is the first in dictionary order. */
  lemma KahnOrderIsLeast(entities: Plan, o: seq<string>)
    requires IsOrder(entities, o)
    ensures IsOrder(entities, KahnOrder(entities)) && NoLater(KahnOrder(entities), o)
  {
    hide *;
    OrdersAgree(entities, o);
    OrdersAgree(entities, KahnOrder(entities));
    KahnReadyIsLeast(entities, o);
  }

  lemma KahnReadyFailsOnCycles(entities: Plan)
    ensures ReadyOrder(entities, KahnOrder(entities)) <==> !exists s :: Knot(entities, s)
  {
    EmptyStartable(entities);
    GreedyRuns(entities, []);
    var left := TableSet(entities) - Members(Greedy(entities, []));
    if left == {} {
      ReachedAll(entities);
      forall s ensures !Knot(entities, s) {
        if Knot(entities, s) { KnotBlocks(entities, KahnOrder(entities), s); }
      }
    } else {
      LeftIsKnot(entities, left);
      KnotBlocks(entities, KahnOrder(entities), left);
    }
  }

  lemma ReachedAll(entities: Plan)
    requires Startable(entities, Greedy(entities, [])) && TableSet(entities) - Members(Greedy(entities, [])) == {}
    ensures ReadyOrder(entities, KahnOrder(entities))
  {
    HasMember(Sorted({}, {}));
    assert KahnOrder(entities) == Greedy(entities, []) + [] == Greedy(entities, []);
    assert Members(Greedy(entities, [])) == TableSet(entities);
  }

  lemma LeftIsKnot(entities: Plan, left: set<string>)
    requires left != {} && left == TableSet(entities) - Members(Greedy(entities, []))
    requires ReadySet(entities, Members(Greedy(entities, []))) == {}
    ensures Knot(entities, left)
  {
    hide Greedy, TargetsOf, NeedsOneOf;
    forall t | t in left ensures NeedsOneOf(entities, t, left) {
      assert t !in ReadySet(entities, Members(Greedy(entities, [])));
      var d :| Needs(entities, t, d) && d !in Members(Greedy(entities, []));
      assert d in left;
      NeedsOne(entities, t, left);
    }
  }

  lemma KnotBlocks(entities: Plan, o: seq<string>, s: set<string>)
    requires Knot(entities, s)
    ensures !ReadyOrder(entities, o)
  {
    if Members(o) == TableSet(entities) {
      var t :| t in s;
      var others := TableSet(entities) - s;
      assert t in Members(o) && t !in others;
      var k := FirstMissing(o, others);
      assert o[k] in Members(o);
      FirstOfKnot(entities, o, s, k);
    }
  }

  /** The first table of a knot in a list is not ready there. */
  lemma FirstOfKnot(entities: Plan, o: seq<string>, s: set<string>, k: nat)
    requires Knot(entities, s) && k < |o| && o[k] in s
    requires forall i :: 0 <= i < k ==> o[i] !in s
    ensures !Ready(entities, Members(o[..k]), o[k])
  {
    assert NeedsOneOf(entities, o[k], s);
    NeedsOne(entities, o[k], s);
    var d :| d in s && Needs(entities, o[k], d);
    assert d !in Members(o[..k]);
  }

  /** The result puts referenced tables first if and only if there is no reference cycle. */
  lemma KahnOrderFailsOnCycles(entities: Plan)
    ensures IsOrder(entities, KahnOrder(entities)) <==> !exists s :: Knot(entities, s)
  {
    hide *;
    OrdersAgree(entities, KahnOrder(entities));
    KahnReadyFailsOnCycles(entities);
  }

  // The whole order, whatever the references

  /** Each table that is taken is the first by name of those that do not wait. */
  ghost predicate TakesFirst(entities: Plan, o: seq<string>, i: nat)
    requires i < |o|
  {
    && !Waits(entities, o, i, o[i])
    && forall j :: i < j < |o| && !Waits(entities, o, i, o[j]) ==> Lexicographic(o[i], o[j])
  }

  lemma {:induction false} GreedyAt(entities: Plan, prefix: seq<string>, i: nat)
    requires Startable(entities, prefix) && |prefix| <= i < |Greedy(entities, prefix)|
    ensures var g := Greedy(entities, prefix);
      ReadySet(entities, Members(g[..i])) != {} && g[i] == Sorted({}, ReadySet(entities, Members(g[..i])))[0]
    decreases |TableSet(entities) - Members(prefix)|
  {
    var ready := ReadySet(entities, Members(prefix));
    SmallestIsReady(ready);
    var next := Sorted({}, ready)[0];
    StartableStep(entities, prefix, next);
    GreedyRuns(entities, prefix + [next]);
    var g := Greedy(entities, prefix);
    hide *;
    assert prefix + [next] <= g;
    if i == |prefix| {
      assert g[..i] == prefix && g[i] == (prefix + [next])[i];
    } else {
      GreedyAt(entities, prefix + [next], i);
    }
  }

  lemma ReadyDoNotWait(entities: Plan, o: seq<string>, i: nat, t: string)
    requires Lists(entities, o) && i <= |o| && t in o[i..]
    ensures t in ReadySet(entities, Members(o[..i])) <==> !Waits(entities, o, i, t)
  {
    WaitsIsOpen(entities, o, i, t);
    RestOfOrder(o, i, t);
    ListsMembers(entities, o);
    assert t in Members(o);
  }

  lemma TakenFirst(entities: Plan, o: seq<string>, i: nat)
    requires Lists(entities, o) && i < |o|
    requires ReadySet(entities, Members(o[..i])) != {} && o[i] == Sorted({}, ReadySet(entities, Members(o[..i])))[0]
    ensures TakesFirst(entities, o, i)
  {
    var ready := ReadySet(entities, Members(o[..i]));
    SmallestIsReady(ready);
    hide ReadySet, Waits;
    assert o[i..][0] == o[i];
    ReadyDoNotWait(entities, o, i, o[i]);
    forall j | i < j < |o| && !Waits(entities, o, i, o[j]) ensures Lexicographic(o[i], o[j]) {
      assert o[i..][j - i] == o[j];
      ReadyDoNotWait(entities, o, i, o[j]);
      LessIsLexicographic(o[i], o[j]);
      assert o[j] != o[i];
    }
  }

  lemma LeftByName(s: set<string>, i: nat, j: nat)
    requires i < j < |Sorted({}, s)|
    ensures Lexicographic(Sorted({}, s)[i], Sorted({}, s)[j])
  {
    assert Before({}, Sorted({}, s)[i], Sorted({}, s)[j]);
    LessIsLexicographic(Sorted({}, s)[i], Sorted({}, s)[j]);
  }

  lemma KahnOrderLists(entities: Plan)
    ensures Lists(entities, KahnOrder(entities))
  {
    hide *;
    KahnOrderIsComplete(entities);
    ListsMembers(entities, KahnOrder(entities));
  }

  /** The first n tables are those that need not wait, each the first by name at its turn; the rest
      all wait for one another, and are in the order of their names. */
  lemma {:induction false} KahnOrderIsGreedy(entities: Plan) returns (n: nat)
    ensures var o := KahnOrder(entities);
      && Lists(entities, o) && n <= |o|
      && (forall i :: 0 <= i < n ==> TakesFirst(entities, o, i))
      && (forall i :: n <= i < |o| ==> Waits(entities, o, n, o[i]))
      && (forall i, j :: n <= i < j < |o| ==> Lexicographic(o[i], o[j]))
  {
    hide *;
    var o := KahnOrder(entities);
    var left;
    n, left := KahnOrderParts(entities);
    KahnOrderLists(entities);
    forall i | 0 <= i < n ensures TakesFirst(entities, o, i) {
      GreedyTakes(entities, o, n, i);
    }
    forall i | n <= i < |o| ensures Waits(entities, o, n, o[i]) {
      assert o[n..][i - n] == o[i];
      ReadyDoNotWait(entities, o, n, o[i]);
    }
    forall i, j | n <= i < j < |o| ensures Lexicographic(o[i], o[j]) {
      LeftByName(left, i - n, j - n);
      assert o[n..][i - n] == o[i] && o[n..][j - n] == o[j];
    }
  }

  lemma KahnOrderParts(entities: Plan) returns (n: nat, left: set<string>)
    ensures var o := KahnOrder(entities);
      && n <= |o| && o[..n] == Greedy(entities, []) && o[n..] == Sorted({}, left)
      && ReadySet(entities, Members(o[..n])) == {}
  {
    var o, reached := KahnOrder(entities), Greedy(entities, []);
    n, left := |reached|, TableSet(entities) - Members(reached);
    EmptyStartable(entities);
    GreedyRuns(entities, []);
    hide Greedy, TableSet, ReadySet;
    assert o == reached + Sorted({}, left);
  }

  lemma GreedyTakes(entities: Plan, o: seq<string>, n: nat, i: nat)
    requires Lists(entities, o) && i < n <= |o| && o[..n] == Greedy(entities, [])
    ensures TakesFirst(entities, o, i)
  {
    hide *;
    EmptyStartable(entities);
    GreedyAt(entities, [], i);
    assert o[..i] == o[..n][..i] && o[i] == o[..n][i];
    TakenFirst(entities, o, i);
  }
}
