/** sortEntityMigrations (generator/migrations.go): Kahn's algorithm with a sorted queue. */
module MigrationOrder {
  import opened Names
  import opened Entities

  type Plan = seq<EntityMigration>

  function Targets(e: EntityMigration): (r: seq<string>)
    ensures |r| == |e.foreignKeys| && forall i :: 0 <= i < |r| ==> r[i] == e.foreignKeys[i].targetTable
  {
    seq(|e.foreignKeys|, i requires 0 <= i < |e.foreignKeys| => e.foreignKeys[i].targetTable)
  }

  ghost function TableSet(entities: Plan): set<string> {
    set e | e in entities :: e.table
  }

  /** All targets of the foreign keys of table `t`. */
  function TargetsOf(entities: Plan, t: string): seq<string> {
    if entities == [] then []
    else
      var e := entities[|entities| - 1];
      TargetsOf(entities[..|entities| - 1], t) + (if e.table == t then Targets(e) else [])
  }

  // The foreign-key graph

  /** `d` must be created before `t`. References to unknown tables and to itself do not count. */
  ghost predicate Needs(entities: Plan, t: string, d: string) {
    d in TargetsOf(entities, t) && d in TableSet(entities) && d != t
  }

  ghost predicate Ready(entities: Plan, done: set<string>, t: string) {
    t !in done && forall d :: Needs(entities, t, d) ==> d in done
  }

  ghost function ReadySet(entities: Plan, done: set<string>): set<string> {
    set t | t in TableSet(entities) && Ready(entities, done, t)
  }

  ghost function Members(names: seq<string>): set<string> {
    set x | x in names
  }

  /** Repeatedly takes the first of the ready tables, by name. */
  ghost function Greedy(entities: Plan, prefix: seq<string>): (r: seq<string>)
    decreases |TableSet(entities) - Members(prefix)|
  {
    var ready := ReadySet(entities, Members(prefix));
    if ready == {} then prefix
    else
      HasMember(Sorted({}, ready));
      SmallestIsReady(ready);
      var next := Sorted({}, ready)[0];
      assert TableSet(entities) - Members(prefix + [next]) == TableSet(entities) - Members(prefix) - {next};
      Greedy(entities, prefix + [next])
  }

  lemma SmallestIsReady(s: set<string>)
    requires s != {}
    ensures |Sorted({}, s)| > 0 && Sorted({}, s)[0] in s
    ensures forall x :: x in s ==> x == Sorted({}, s)[0] || Less(Sorted({}, s)[0], x)
  {
    var names := Sorted({}, s);
    var x :| x in s;
    assert x in names;
    forall y | y in s ensures y == names[0] || Less(names[0], y) {
      var i :| 0 <= i < |names| && names[i] == y;
      assert i > 0 ==> Before({}, names[0], names[i]);
    }
  }

  /** The tables in the order of the migration: those that Kahn's algorithm reaches, then
      the rest by name. */
  ghost function KahnOrder(entities: Plan): seq<string> {
    var reached := Greedy(entities, []);
    reached + Sorted({}, TableSet(entities) - Members(reached))
  }

  // Counting the references that are still open

  function Open(targets: seq<string>, nodes: set<string>, done: set<string>, t: string): nat {
    if targets == [] then 0
    else
      var d := targets[|targets| - 1];
      Open(targets[..|targets| - 1], nodes, done, t) + (if d in nodes && d != t && d !in done then 1 else 0)
  }

  lemma {:induction false} OpenConcat(a: seq<string>, b: seq<string>, nodes: set<string>, done: set<string>, t: string)
    ensures Open(a + b, nodes, done, t) == Open(a, nodes, done, t) + Open(b, nodes, done, t)
  {
    if b == [] {
      assert a + b == a;
    } else {
      assert (a + b)[..|a + b| - 1] == a + b[..|b| - 1];
      OpenConcat(a, b[..|b| - 1], nodes, done, t);
    }
  }

  lemma {:induction false} OpenZero(targets: seq<string>, nodes: set<string>, done: set<string>, t: string)
    ensures Open(targets, nodes, done, t) == 0 <==> forall d :: d in targets && d in nodes && d != t ==> d in done
  {
    if targets != [] {
      assert targets == targets[..|targets| - 1] + [targets[|targets| - 1]];
      OpenZero(targets[..|targets| - 1], nodes, done, t);
    }
  }

  lemma {:induction false} OpenStep(targets: seq<string>, nodes: set<string>, done: set<string>, t: string, x: string)
    requires x in nodes && x !in done
    ensures Open(targets, nodes, done, t)
      == Open(targets, nodes, done + {x}, t) + (if x == t then 0 else multiset(targets)[x])
  {
    if targets != [] {
      assert targets == targets[..|targets| - 1] + [targets[|targets| - 1]];
      OpenStep(targets[..|targets| - 1], nodes, done, t, x);
    }
  }

  // The two loops that build the graph

  type Graph = map<string, seq<string>>

  function Followers(graph: Graph, x: string): seq<string> {
    if x in graph then graph[x] else []
  }

  /** How often `t` follows `x` in the graph. */
  ghost function Edges(graph: Graph, x: string, t: string): nat {
    multiset(Followers(graph, x))[t]
  }

  ghost function Occurrences(targets: seq<string>, x: string): nat {
    multiset(targets)[x]
  }

  ghost predicate FollowersIn(graph: Graph, nodes: set<string>) {
    forall x, t :: t in Followers(graph, x) ==> t in nodes
  }

  lemma AddEdge(graph: Graph, x: string, t: string, nodes: set<string>)
    requires FollowersIn(graph, nodes) && t in nodes
    ensures var g := graph[x := Followers(graph, x) + [t]];
      && FollowersIn(g, nodes)
      && forall y, u :: Edges(g, y, u) == Edges(graph, y, u) + (if y == x && u == t then 1 else 0)
  {
    var g := graph[x := Followers(graph, x) + [t]];
    forall y, u ensures Edges(g, y, u) == Edges(graph, y, u) + (if y == x && u == t then 1 else 0) {
      if y != x { assert Followers(g, y) == Followers(graph, y); }
    }
    forall y, u | u in Followers(g, y) ensures u in nodes {
      if y != x { assert Followers(g, y) == Followers(graph, y); }
    }
  }

  lemma OccurrencesSnoc(targets: seq<string>, j: nat)
    requires j < |targets|
    ensures forall x ::
      Occurrences(targets[..j + 1], x) == Occurrences(targets[..j], x) + (if x == targets[j] then 1 else 0)
  {
    assert targets[..j + 1] == targets[..j] + [targets[j]];
  }

  lemma OccurrencesConcat(a: seq<string>, b: seq<string>, x: string)
    ensures Occurrences(a + b, x) == Occurrences(a, x) + Occurrences(b, x)
  {
  }

  // The loops that build the graph

  lemma ReferenceStep(nodes: set<string>, table: string, targets: seq<string>, j: nat, graph0: Graph, graph: Graph)
    requires j < |targets| && table in nodes && FollowersIn(graph, nodes)
    requires ReferencesAdded(nodes, table, targets[..j], graph0, graph)
    ensures Open(targets[..j + 1], nodes, {}, table)
      == Open(targets[..j], nodes, {}, table) + (if targets[j] in nodes && targets[j] != table then 1 else 0)
    ensures if targets[j] in nodes && targets[j] != table
      then
        var g := graph[targets[j] := Followers(graph, targets[j]) + [table]];
        FollowersIn(g, nodes) && ReferencesAdded(nodes, table, targets[..j + 1], graph0, g)
      else ReferencesAdded(nodes, table, targets[..j + 1], graph0, graph)
  {
    assert targets[..j + 1][..j] == targets[..j];
    OccurrencesSnoc(targets, j);
    AddEdge(graph, targets[j], table, nodes);
  }

  /** The inner loop: the foreign keys of one entity. */
  method AddReferences(table: string, targets: seq<string>, nodes: set<string>, graph0: Graph,
      inDegree0: map<string, int>)
    returns (graph: Graph, inDegree: map<string, int>)
    requires table in nodes && inDegree0.Keys == nodes && FollowersIn(graph0, nodes)
    ensures inDegree.Keys == nodes && FollowersIn(graph, nodes)
    ensures inDegree == inDegree0[table := inDegree0[table] + Open(targets, nodes, {}, table)]
    ensures ReferencesAdded(nodes, table, targets, graph0, graph)
  {
    graph, inDegree := graph0, inDegree0;
    assert targets[..0] == [] && forall x :: Occurrences(targets[..0], x) == 0;
    for j := 0 to |targets|
      invariant inDegree.Keys == nodes && FollowersIn(graph, nodes)
      invariant inDegree == inDegree0[table := inDegree0[table] + Open(targets[..j], nodes, {}, table)]
      invariant ReferencesAdded(nodes, table, targets[..j], graph0, graph)
    {
      var target := targets[j];
      ReferenceStep(nodes, table, targets, j, graph0, graph);
      if target == table {
        continue;
      }
      if target !in nodes {
        continue;
      }
      graph := graph[target := Followers(graph, target) + [table]];
      inDegree := inDegree[table := inDegree[table] + 1];
    }
    assert targets[..|targets|] == targets;
  }

  /** The graph has an edge from every table to each of those that need it, once per
      foreign key, and the in-degrees count them. */
  ghost predicate GraphOf(graph: Graph, inDegree: map<string, int>, entities: Plan, nodes: set<string>) {
    && inDegree.Keys == nodes && FollowersIn(graph, nodes)
    && (forall t :: t in nodes ==> inDegree[t] == Open(TargetsOf(entities, t), nodes, {}, t))
    && (forall x, t :: x in nodes ==> Edges(graph, x, t) == if t == x then 0
      else Occurrences(TargetsOf(entities, t), x))
  }

  lemma OpenSnoc(entities: Plan, i: nat, nodes: set<string>, t: string)
    requires i < |entities|
    ensures Open(TargetsOf(entities[..i + 1], t), nodes, {}, t)
      == Open(TargetsOf(entities[..i], t), nodes, {}, t)
        + (if entities[i].table == t then Open(Targets(entities[i]), nodes, {}, t) else 0)
  {
    assert entities[..i + 1][..i] == entities[..i];
    var before := TargetsOf(entities[..i], t);
    OpenConcat(before, Targets(entities[i]), nodes, {}, t);
    assert before + [] == before;
  }

  lemma OccurrencesOfSnoc(entities: Plan, i: nat, t: string, x: string)
    requires i < |entities|
    ensures Occurrences(TargetsOf(entities[..i + 1], t), x)
      == Occurrences(TargetsOf(entities[..i], t), x)
        + (if entities[i].table == t then Occurrences(Targets(entities[i]), x) else 0)
  {
    assert entities[..i + 1][..i] == entities[..i];
    var before := TargetsOf(entities[..i], t);
    OccurrencesConcat(before, Targets(entities[i]), x);
    assert before + [] == before;
  }

  ghost predicate ReferencesAdded(nodes: set<string>, table: string, targets: seq<string>, g: Graph, g': Graph) {
    forall x, t :: x in nodes ==>
      Edges(g', x, t) == Edges(g, x, t) + (if t == table && t != x then Occurrences(targets, x) else 0)
  }

  lemma GraphStep(entities: Plan, i: nat, nodes: set<string>, g: Graph, d: map<string, int>, g': Graph,
      d': map<string, int>)
    requires i < |entities| && entities[i].table in nodes && GraphOf(g, d, entities[..i], nodes)
    requires FollowersIn(g', nodes)
    requires d'
      == d[entities[i].table := d[entities[i].table] + Open(Targets(entities[i]), nodes, {}, entities[i].table)]
    requires ReferencesAdded(nodes, entities[i].table, Targets(entities[i]), g, g')
    ensures GraphOf(g', d', entities[..i + 1], nodes)
  {
    assert d'.Keys == nodes;
    forall t | t in nodes ensures d'[t] == Open(TargetsOf(entities[..i + 1], t), nodes, {}, t) {
      OpenSnoc(entities, i, nodes, t);
    }
    forall x, t | x in nodes
      ensures Edges(g', x, t) == if t == x then 0 else Occurrences(TargetsOf(entities[..i + 1], t), x)
    {
      OccurrencesOfSnoc(entities, i, t, x);
    }
  }

  lemma GraphStart(none: Plan, nodes: set<string>, zero: map<string, int>)
    requires none == [] && zero.Keys == nodes && forall t :: t in nodes ==> zero[t] == 0
    ensures GraphOf(map[], zero, none, nodes)
  {
  }

  method BuildGraph(entities: Plan, tableIndex: map<string, nat>)
    returns (graph: Graph, inDegree: map<string, int>)
    requires tableIndex.Keys == TableSet(entities)
    ensures GraphOf(graph, inDegree, entities, TableSet(entities))
  {
    graph := map[];
    inDegree := map t | t in tableIndex :: 0;
    GraphStart(entities[..0], tableIndex.Keys, inDegree);
    for i := 0 to |entities|
      invariant GraphOf(graph, inDegree, entities[..i], tableIndex.Keys)
    {
      var g, d := AddReferences(entities[i].table, Targets(entities[i]), tableIndex.Keys, graph, inDegree);
      GraphStep(entities, i, tableIndex.Keys, graph, inDegree, g, d);
      graph, inDegree := g, d;
    }
    assert entities[..|entities|] == entities;
  }

  // The main loop

  ghost function Zeros(nodes: set<string>, inDegree: map<string, int>, done: set<string>): set<string> {
    set t | t in nodes && t in inDegree && t !in done && inDegree[t] == 0
  }

  /** Between two rounds: the in-degrees count the references that are still open, so the
      queue is the sorted set of the ready tables. */
  ghost predicate Round(entities: Plan, done: set<string>, inDegree: map<string, int>, queue: seq<string>) {
    var nodes := TableSet(entities);
    && done <= nodes && inDegree.Keys == nodes
    && (forall t :: t in nodes ==> inDegree[t] == Open(TargetsOf(entities, t), nodes, done, t))
    && (forall t :: t in done ==> inDegree[t] == 0)
    && queue == Sorted({}, Zeros(nodes, inDegree, done))
  }

  lemma ZerosAreReady(entities: Plan, done: set<string>, inDegree: map<string, int>)
    requires inDegree.Keys == TableSet(entities)
    requires forall t :: t in inDegree ==> inDegree[t] == Open(TargetsOf(entities, t), TableSet(entities), done, t)
    ensures Zeros(TableSet(entities), inDegree, done) == ReadySet(entities, done)
  {
    forall t | t in TableSet(entities) && t !in done ensures inDegree[t] == 0 <==> Ready(entities, done, t) {
      OpenZero(TargetsOf(entities, t), TableSet(entities), done, t);
      assert inDegree[t] == 0 <==> forall d :: Needs(entities, t, d) ==> d in done;
    }
  }

  /** Half way through the followers of `current`. */
  ghost predicate Releasing(entities: Plan, done: set<string>, current: string, released: seq<string>,
      inDegree: map<string, int>, queue: seq<string>)
  {
    && Degrees(entities, done, released, inDegree)
    && queue == Sorted({}, Zeros(TableSet(entities), inDegree, done + {current}))
  }

  ghost predicate Degrees(entities: Plan, done: set<string>, released: seq<string>, inDegree: map<string, int>) {
    && inDegree.Keys == TableSet(entities)
    && forall t :: t in inDegree ==>
         inDegree[t] == Open(TargetsOf(entities, t), TableSet(entities), done, t) - Occurrences(released, t)
  }

  lemma DegreesStep(entities: Plan, done: set<string>, followers: seq<string>, i: nat, inDegree: map<string, int>)
    requires i < |followers| && Degrees(entities, done, followers[..i], inDegree) && followers[i] in TableSet(entities)
    ensures Degrees(entities, done, followers[..i + 1], inDegree[followers[i] := inDegree[followers[i]] - 1])
  {
    OccurrencesSnoc(followers, i);
    assert inDegree[followers[i] := inDegree[followers[i]] - 1].Keys == TableSet(entities);
  }

  /** The follower that is released next still counts its reference to `current`. */
  lemma StillOpen(entities: Plan, done: set<string>, graph: Graph, current: string, i: nat)
    requires current in TableSet(entities) && current !in done && i < |Followers(graph, current)|
    requires forall t :: Edges(graph, current, t) == if t == current then 0
      else Occurrences(TargetsOf(entities, t), current)
    ensures var followers := Followers(graph, current);
      var t := followers[i];
      && t != current
      && Open(TargetsOf(entities, t), TableSet(entities), done, t) > Occurrences(followers[..i], t)
  {
    var followers := Followers(graph, current);
    var t := followers[i];
    assert followers == followers[..i] + [t] + followers[i + 1..];
    assert Occurrences(followers, t) >= Occurrences(followers[..i], t) + 1;
    OpenStep(TargetsOf(entities, t), TableSet(entities), done, t, current);
  }

  lemma ZerosStep(nodes: set<string>, inDegree: map<string, int>, done: set<string>, t: string)
    requires t in nodes && t in inDegree && t !in done && inDegree[t] > 0
    ensures var d := inDegree[t := inDegree[t] - 1];
      Zeros(nodes, d, done) == if d[t] == 0 then Zeros(nodes, inDegree, done) + {t} else Zeros(nodes, inDegree, done)
  {
  }

  lemma QueueStep(s: set<string>, t: string)
    requires t !in s
    ensures Sort({}, Sorted({}, s) + [t]) == Sorted({}, s + {t})
  {
    SortIsSorted({}, Sorted({}, s) + [t], s + {t});
  }

  lemma ReleaseStep(entities: Plan, done: set<string>, current: string, followers: seq<string>, i: nat,
      inDegree: map<string, int>, queue: seq<string>)
    requires i < |followers| && Releasing(entities, done, current, followers[..i], inDegree, queue)
    requires followers[i] in TableSet(entities) && followers[i] != current && followers[i] !in done
    requires Open(TargetsOf(entities, followers[i]), TableSet(entities), done, followers[i])
      > Occurrences(followers[..i], followers[i])
    ensures var t := followers[i];
      var d := inDegree[t := inDegree[t] - 1];
      Releasing(entities, done, current, followers[..i + 1], d, if d[t] == 0 then Sort({}, queue + [t]) else queue)
  {
    hide *;
    var t := followers[i];
    TakeReleasing(entities, done, current, followers[..i], inDegree, queue, t);
    DegreesStep(entities, done, followers, i, inDegree);
    ReleaseQueue(TableSet(entities), inDegree, done + {current}, t, queue);
    MakeReleasing(entities, done, current, followers[..i + 1], inDegree[t := inDegree[t] - 1],
      if inDegree[t] == 1 then Sort({}, queue + [t]) else queue);
  }

  lemma TakeReleasing(entities: Plan, done: set<string>, current: string, released: seq<string>,
      inDegree: map<string, int>, queue: seq<string>, t: string)
    requires Releasing(entities, done, current, released, inDegree, queue) && t in TableSet(entities)
    ensures Degrees(entities, done, released, inDegree)
    ensures queue == Sorted({}, Zeros(TableSet(entities), inDegree, done + {current}))
    ensures t in inDegree
    ensures inDegree[t] == Open(TargetsOf(entities, t), TableSet(entities), done, t) - Occurrences(released, t)
  {
  }

  lemma MakeReleasing(entities: Plan, done: set<string>, current: string, released: seq<string>,
      inDegree: map<string, int>, queue: seq<string>)
    requires Degrees(entities, done, released, inDegree)
    requires queue == Sorted({}, Zeros(TableSet(entities), inDegree, done + {current}))
    ensures Releasing(entities, done, current, released, inDegree, queue)
  {
  }

  lemma ReleaseQueue(nodes: set<string>, inDegree: map<string, int>, done: set<string>, t: string, queue: seq<string>)
    requires t in nodes && t in inDegree && t !in done && inDegree[t] > 0
    requires queue == Sorted({}, Zeros(nodes, inDegree, done))
    ensures var d := inDegree[t := inDegree[t] - 1];
      Sorted({}, Zeros(nodes, d, done)) == if d[t] == 0 then Sort({}, queue + [t]) else queue
  {
    ZerosStep(nodes, inDegree, done, t);
    QueueStep(Zeros(nodes, inDegree, done), t);
  }

  lemma ReleaseNext(entities: Plan, done: set<string>, graph: Graph, current: string, i: nat,
      inDegree: map<string, int>, queue: seq<string>)
    requires current in TableSet(entities) && current !in done && FollowersIn(graph, TableSet(entities))
    requires forall t :: Edges(graph, current, t) == if t == current then 0
      else Occurrences(TargetsOf(entities, t), current)
    requires forall t :: t in done ==> Open(TargetsOf(entities, t), TableSet(entities), done, t) == 0
    requires i < |Followers(graph, current)|
    requires Releasing(entities, done, current, Followers(graph, current)[..i], inDegree, queue)
    ensures var followers := Followers(graph, current);
      var t := followers[i];
      && t in inDegree
      && Releasing(entities, done, current, followers[..i + 1], inDegree[t := inDegree[t] - 1],
        if inDegree[t] == 1 then Sort({}, queue + [t]) else queue)
  {
    hide *;
    var followers := Followers(graph, current);
    StillOpen(entities, done, graph, current, i);
    FollowerIn(graph, current, i, TableSet(entities));
    TakeReleasing(entities, done, current, followers[..i], inDegree, queue, followers[i]);
    ReleaseStep(entities, done, current, followers, i, inDegree, queue);
  }

  lemma FollowerIn(graph: Graph, x: string, i: nat, nodes: set<string>)
    requires FollowersIn(graph, nodes) && i < |Followers(graph, x)|
    ensures Followers(graph, x)[i] in nodes
  {
  }

  /** The loop over the followers: decrement, and queue what has become ready. */
  method Release(ghost entities: Plan, ghost done: set<string>, graph: Graph, current: string,
      inDegree0: map<string, int>, queue0: seq<string>)
    returns (inDegree: map<string, int>, queue: seq<string>)
    requires current in TableSet(entities) && current !in done && FollowersIn(graph, TableSet(entities))
    requires forall t :: Edges(graph, current, t) == if t == current then 0
      else Occurrences(TargetsOf(entities, t), current)
    requires forall t :: t in done ==> Open(TargetsOf(entities, t), TableSet(entities), done, t) == 0
    requires Releasing(entities, done, current, [], inDegree0, queue0)
    ensures Releasing(entities, done, current, Followers(graph, current), inDegree, queue)
  {
    var followers := Followers(graph, current);
    inDegree, queue := inDegree0, queue0;
    assert followers[..0] == [];
    hide *;
    for i := 0 to |followers|
      invariant Releasing(entities, done, current, followers[..i], inDegree, queue)
    {
      var dependent := followers[i];
      ReleaseNext(entities, done, graph, current, i, inDegree, queue);
      inDegree := inDegree[dependent := inDegree[dependent] - 1];
      if inDegree[dependent] == 0 {
        queue := Sort({}, queue + [dependent]);
      }
    }
    assert followers[..|followers|] == followers;
  }

  lemma GreedyStep(entities: Plan, prefix: seq<string>, queue: seq<string>)
    requires queue == Sorted({}, ReadySet(entities, Members(prefix))) && queue != []
    ensures Greedy(entities, prefix) == Greedy(entities, prefix + [queue[0]])
    ensures queue[0] in TableSet(entities) && queue[0] !in prefix
    ensures queue[1..] == Sorted({}, ReadySet(entities, Members(prefix)) - {queue[0]})
  {
    var ready := ReadySet(entities, Members(prefix));
    assert queue[0] in queue;
    SmallestIsReady(ready);
    SortedTail(queue, ready);
  }

  lemma SortedTail(queue: seq<string>, s: set<string>)
    requires queue == Sorted({}, s) && queue != []
    ensures queue[1..] == Sorted({}, s - {queue[0]})
  {
    AscendingDistinct({}, queue);
    forall x ensures x in queue[1..] <==> x in s - {queue[0]} {
      assert queue == [queue[0]] + queue[1..];
    }
    SortedUnique({}, queue[1..], Sorted({}, s - {queue[0]}));
  }

  /** A round starts: `current` is taken from the queue. */
  lemma RoundOpens(entities: Plan, done: set<string>, inDegree: map<string, int>, queue: seq<string>)
    requires Round(entities, done, inDegree, queue) && queue != []
    ensures Releasing(entities, done, queue[0], [], inDegree, queue[1..])
  {
    OpenQueue(TableSet(entities), inDegree, done, queue);
    assert forall t :: Occurrences([], t) == 0;
  }

  lemma OpenQueue(nodes: set<string>, inDegree: map<string, int>, done: set<string>, queue: seq<string>)
    requires queue == Sorted({}, Zeros(nodes, inDegree, done)) && queue != []
    ensures queue[1..] == Sorted({}, Zeros(nodes, inDegree, done + {queue[0]}))
  {
    SortedTail(queue, Zeros(nodes, inDegree, done));
    assert Zeros(nodes, inDegree, done) - {queue[0]} == Zeros(nodes, inDegree, done + {queue[0]});
  }

  /** A round ends: all followers of `current` are released. */
  lemma RoundCloses(entities: Plan, done: set<string>, graph: Graph, current: string, inDegree: map<string, int>,
      queue: seq<string>)
    requires done <= TableSet(entities) && current in TableSet(entities) && current !in done
    requires forall t :: t in done + {current} ==> Open(TargetsOf(entities, t), TableSet(entities), done, t) == 0
    requires forall t :: Edges(graph, current, t) == if t == current then 0
      else Occurrences(TargetsOf(entities, t), current)
    requires Releasing(entities, done, current, Followers(graph, current), inDegree, queue)
    ensures Round(entities, done + {current}, inDegree, queue)
  {
    forall t | t in TableSet(entities)
      ensures inDegree[t] == Open(TargetsOf(entities, t), TableSet(entities), done + {current}, t)
    {
      OpenStep(TargetsOf(entities, t), TableSet(entities), done, t, current);
      assert Edges(graph, current, t) == Occurrences(Followers(graph, current), t);
    }
  }

  ghost function TablesOf(entities: Plan): seq<string> {
    seq(|entities|, i requires 0 <= i < |entities| => entities[i].table)
  }

  method IndexTables(entities: Plan) returns (tableIndex: map<string, nat>)
    ensures tableIndex.Keys == TableSet(entities)
    ensures forall t :: t in tableIndex ==> tableIndex[t] < |entities| && entities[tableIndex[t]].table == t
  {
    tableIndex := map[];
    for i := 0 to |entities|
      invariant tableIndex.Keys == TableSet(entities[..i])
      invariant forall t :: t in tableIndex ==> tableIndex[t] < i && entities[tableIndex[t]].table == t
    {
      assert entities[..i + 1] == entities[..i] + [entities[i]];
      tableIndex := tableIndex[entities[i].table := i];
    }
    assert entities[..|entities|] == entities;
  }

  /** The queue before the first round: the tables without open references. */
  method FirstQueue(ghost entities: Plan, ghost graph: Graph, inDegree: map<string, int>) returns (queue: seq<string>)
    requires GraphOf(graph, inDegree, entities, TableSet(entities))
    ensures Round(entities, {}, inDegree, queue)
  {
    var ready := t => t in inDegree && inDegree[t] == 0;
    queue := CollectSorted(inDegree.Keys, {}, ready);
    assert (set x | x in inDegree.Keys && ready(x)) == Zeros(TableSet(entities), inDegree, {});
  }

  /** One round: take the first ready table and release its followers. */
  method OneRound(ghost entities: Plan, ghost prefix: seq<string>, graph: Graph, inDegree0: map<string, int>,
      queue0: seq<string>)
    returns (current: string, inDegree: map<string, int>, queue: seq<string>)
    requires queue0 != [] && Round(entities, Members(prefix), inDegree0, queue0)
    requires FollowersIn(graph, TableSet(entities))
    requires forall x, t :: x in TableSet(entities) ==>
      Edges(graph, x, t) == if t == x then 0 else Occurrences(TargetsOf(entities, t), x)
    ensures current in TableSet(entities) && current !in prefix
    ensures Greedy(entities, prefix + [current]) == Greedy(entities, prefix)
    ensures Round(entities, Members(prefix + [current]), inDegree, queue)
  {
    hide *;
    NextTable(entities, prefix, inDegree0, queue0);
    current := queue0[0];
    inDegree, queue := Release(entities, Members(prefix), graph, current, inDegree0, queue0[1..]);
    RoundCloses(entities, Members(prefix), graph, current, inDegree, queue);
    MembersSnoc(prefix, current);
  }

  lemma MembersSnoc(prefix: seq<string>, x: string)
    ensures Members(prefix + [x]) == Members(prefix) + {x}
  {
  }

  /** The rounds of the algorithm: the tables that have no open reference are taken in the
      order of Greedy. A table is never queued twice, so the source's test for visited
      tables never fires. */
  method Rounds(entities: Plan, tableIndex: map<string, nat>, graph: Graph, inDegree0: map<string, int>,
      queue0: seq<string>)
    returns (ordered: Plan, visited: set<string>)
    requires forall t :: t in TableSet(entities) ==>
      t in tableIndex && tableIndex[t] < |entities| && entities[tableIndex[t]].table == t
    requires GraphOf(graph, inDegree0, entities, TableSet(entities)) && Round(entities, {}, inDegree0, queue0)
    ensures TablesOf(ordered) == Greedy(entities, []) && visited == Members(TablesOf(ordered))
    ensures forall e :: e in ordered ==> e in entities
  {
    var inDegree, queue := inDegree0, queue0;
    ordered, visited := [], {};
    ghost var names: seq<string> := [];
    RoundsStart(entities, inDegree0, queue0);
    while |queue| > 0
      invariant TablesOf(ordered) == names && visited == Members(names) && (forall e :: e in ordered ==> e in entities)
      invariant Round(entities, Members(names), inDegree, queue)
      invariant Greedy(entities, names) == Greedy(entities, [])
      decreases TableSet(entities) - Members(names)
    {
      hide *;
      var current;
      current, inDegree, queue := OneRound(entities, names, graph, inDegree, queue);
      AppendTable(entities, ordered, names, entities[tableIndex[current]]);
      MembersSnoc(names, current);
      visited := visited + {current};
      ordered := ordered + [entities[tableIndex[current]]];
      names := names + [current];
    }
    ZerosAreReady(entities, Members(names), inDegree);
    NothingReady(entities, names);
  }

  lemma RoundsStart(entities: Plan, inDegree: map<string, int>, queue: seq<string>)
    requires Round(entities, {}, inDegree, queue)
    ensures Members([]) == {} && TablesOf([]) == [] && Round(entities, Members([]), inDegree, queue)
  {
    assert Members([]) == {};
  }

  lemma AppendTable(entities: Plan, ordered: Plan, names: seq<string>, e: EntityMigration)
    requires TablesOf(ordered) == names && (forall x :: x in ordered ==> x in entities) && e in entities
    ensures TablesOf(ordered + [e]) == names + [e.table]
    ensures forall x :: x in ordered + [e] ==> x in entities
  {
  }

  lemma NextTable(entities: Plan, prefix: seq<string>, inDegree: map<string, int>, queue: seq<string>)
    requires Round(entities, Members(prefix), inDegree, queue) && queue != []
    ensures Greedy(entities, prefix) == Greedy(entities, prefix + [queue[0]])
    ensures queue[0] in TableSet(entities) && queue[0] !in prefix
    ensures queue[0] !in Members(prefix) && Members(prefix) <= TableSet(entities)
    ensures forall t :: t in Members(prefix) ==>
      Open(TargetsOf(entities, t), TableSet(entities), Members(prefix), t) == 0
    ensures Open(TargetsOf(entities, queue[0]), TableSet(entities), Members(prefix), queue[0]) == 0
    ensures Releasing(entities, Members(prefix), queue[0], [], inDegree, queue[1..])
  {
    ZerosAreReady(entities, Members(prefix), inDegree);
    GreedyStep(entities, prefix, queue);
    RoundOpens(entities, Members(prefix), inDegree, queue);
    assert queue[0] in queue;
  }

  /** Kahn's algorithm, for any list of entity migrations: the tables come in the order of
      KahnOrder, each with an entity of its name. */
  method SortEntityMigrations(entities: Plan) returns (ordered: Plan)
    ensures TablesOf(ordered) == KahnOrder(entities)
    ensures forall e :: e in ordered ==> e in entities
  {
    if |entities| <= 1 {
      SingleOrder(entities);
      return entities;
    }
    hide *;
    var tableIndex := IndexTables(entities);
    var graph, inDegree := BuildGraph(entities, tableIndex);
    var queue := FirstQueue(entities, graph, inDegree);
    var visited;
    ordered, visited := Rounds(entities, tableIndex, graph, inDegree, queue);
    var rest := Remaining(entities, tableIndex, visited);
    AppendRest(entities, ordered, rest);
    ordered := ordered + rest;
  }

  lemma AppendRest(entities: Plan, reached: Plan, rest: Plan)
    requires TablesOf(reached) == Greedy(entities, [])
    requires TablesOf(rest) == Sorted({}, TableSet(entities) - Members(TablesOf(reached)))
    requires (forall e :: e in reached ==> e in entities) && (forall e :: e in rest ==> e in entities)
    ensures TablesOf(reached + rest) == KahnOrder(entities)
    ensures forall e :: e in reached + rest ==> e in entities
  {
    assert TablesOf(reached + rest) == TablesOf(reached) + TablesOf(rest);
  }

  method Remaining(entities: Plan, tableIndex: map<string, nat>, visited: set<string>) returns (rest: Plan)
    requires tableIndex.Keys == TableSet(entities)
    requires forall t :: t in tableIndex ==> tableIndex[t] < |entities| && entities[tableIndex[t]].table == t
    ensures TablesOf(rest) == Sorted({}, TableSet(entities) - visited)
    ensures forall e :: e in rest ==> e in entities
  {
    var unvisited := t => t !in visited;
    var remaining := CollectSorted(tableIndex.Keys, {}, unvisited);
    assert (set x | x in tableIndex.Keys && unvisited(x)) == TableSet(entities) - visited;
    rest := [];
    for i := 0 to |remaining|
      invariant TablesOf(rest) == remaining[..i] && (forall e :: e in rest ==> e in entities)
    {
      assert remaining[i] in remaining;
      rest := rest + [entities[tableIndex[remaining[i]]]];
    }
  }

  lemma NothingReady(entities: Plan, reached: seq<string>)
    requires Sorted({}, ReadySet(entities, Members(reached))) == []
    ensures Greedy(entities, reached) == reached
  {
    if ReadySet(entities, Members(reached)) != {} { SmallestIsReady(ReadySet(entities, Members(reached))); }
  }

  lemma OneTable(entities: Plan, t: string)
    requires TableSet(entities) == {t}
    ensures Greedy(entities, []) == [t]
  {
    var one := ReadySet(entities, Members([]));
    assert one == {t};
    SmallestIsReady(one);
    GreedyStep(entities, [], Sorted({}, one));
    assert [] + [t] == [t] && Members([t]) == {t};
    assert ReadySet(entities, Members([t])) == {};
  }

  lemma SingleOrder(entities: Plan)
    requires |entities| <= 1
    ensures TablesOf(entities) == KahnOrder(entities)
  {
    if entities == [] {
      assert TableSet(entities) == {};
      assert ReadySet(entities, Members([])) == {};
      assert Greedy(entities, []) == [];
    } else {
      assert TableSet(entities) == {entities[0].table};
      OneTable(entities, entities[0].table);
    }
    assert Greedy(entities, []) == TablesOf(entities);
    assert TableSet(entities) - Members(TablesOf(entities)) == {} by {
      forall t | t in TableSet(entities) ensures t in TablesOf(entities) {
        assert entities[0].table == TablesOf(entities)[0];
      }
    }
    HasMember(Sorted({}, {}));
  }
}
