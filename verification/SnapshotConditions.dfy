/** The conditions for a well-formed snapshot, in terms of the entities and their edges alone. */
module SnapshotConditions {
  import opened Results
  import opened SchemaSnapshot
  import opened Entities
  import opened MigrationPlan
  import opened PlanTheorems
  import opened PlanProvenance
  import opened SnapshotNormal
  import opened SnapshotBuild
  import opened SnapshotTheorems

  /** No two entities have tables of one name, and no edge asks for a join table of that name. */
  ghost predicate TablesApart(naming: Naming, entities: seq<Entity>) {
    && (forall i, j :: 0 <= i < j < |entities| ==>
      naming.pluralize(entities[i].name) != naming.pluralize(entities[j].name))
    && (forall k :: 0 <= k < |entities| ==> !Asked(naming, entities, TableNamed(naming.pluralize(entities[k].name))))
  }

  /** The columns of indexes are declared or asked for by edges. */
  ghost predicate IndexColumnsExist(naming: Naming, entities: seq<Entity>) {
    forall k, a, c :: 0 <= k < |entities| && a in entities[k].indexes && c in a.columns ==>
      DeclaresColumn(naming, entities[k], c) || Asked(naming, entities, ColumnOn(k, c))
  }

  ghost predicate IndexNamesDistinct(entities: seq<Entity>) {
    && (forall k, i, j :: 0 <= k < |entities| && 0 <= i < j < |entities[k].indexes| ==>
      entities[k].indexes[i].name != entities[k].indexes[j].name)
    && IndexesApartIn(entities)
  }

  /** The two sides of a many-to-many edge, named after its entities and their primary columns. */
  predicate SidesDiffer(naming: Naming, entities: seq<Entity>, i: nat, j: nat)
    requires IsEdge(entities, i, j) && JoinAt(naming, entities, i, j).Some?
  {
    var source, e := entities[i], entities[i].edges[j];
    var target := entities[IndexOf(entities, e.target).value];
    naming.snake(source.name) + "_" + FieldColumn(naming, FindPrimaryField(source).value)
    != naming.snake(e.target) + "_" + FieldColumn(naming, FindPrimaryField(target).value)
  }

  /** Only the first edge to name a join table matters. */
  ghost predicate JoinSidesDiffer(naming: Naming, entities: seq<Entity>) {
    forall i: nat, j: nat :: DefinesJoin(naming, entities, i, j) ==> SidesDiffer(naming, entities, i, j)
  }

  ghost predicate DefinesJoin(naming: Naming, entities: seq<Entity>, i: nat, j: nat) {
    && IsEdge(entities, i, j) && JoinAt(naming, entities, i, j).Some?
    && AsksFirst(naming, entities, i, j, TableNamed(JoinAt(naming, entities, i, j).value.name))
  }

  ghost predicate EntitiesFit(naming: Naming, entities: seq<Entity>) {
    && TablesApart(naming, entities) && IndexNamesDistinct(entities) && IndexColumnsExist(naming, entities)
    && JoinSidesDiffer(naming, entities)
  }

  lemma TablesApartExact(naming: Naming, entities: seq<Entity>)
    ensures TableNamesDistinct(naming, entities, Walk(naming, entities, |entities|)) <==> TablesApart(naming, entities)
  {
    hide Walk, Asked;
    forall k | 0 <= k < |entities|
      ensures var name := naming.pluralize(entities[k].name);
        name in Walk(naming, entities, |entities|).joins <==> Asked(naming, entities, TableNamed(name))
    {
      JoinsComeFromEdges(naming, entities, naming.pluralize(entities[k].name));
    }
  }

  lemma IndexesFitExact(naming: Naming, entities: seq<Entity>)
    ensures IndexesFit(entities, Walk(naming, entities, |entities|))
      <==> IndexNamesDistinct(entities) && IndexColumnsExist(naming, entities)
  {
    hide Walk, Asked, DeclaresColumn;
    forall k, c | 0 <= k < |entities|
      ensures c in Walk(naming, entities, |entities|).entries[k].fieldIndex
        <==> DeclaresColumn(naming, entities[k], c) || Asked(naming, entities, ColumnOn(k, c))
    {
      ColumnsComeFromEdges(naming, entities, k, c);
    }
  }

  lemma SidesAreColumns(naming: Naming, entities: seq<Entity>, i: nat, j: nat)
    requires IsEdge(entities, i, j) && JoinAt(naming, entities, i, j).Some?
    ensures var join := JoinAt(naming, entities, i, j).value;
      join.left.column != join.right.column <==> SidesDiffer(naming, entities, i, j)
  {
    hide FindPrimaryField, IndexOf, FieldColumn;
  }

  /** The planned join tables have two columns of different names exactly if the sides of every
      edge that defines one differ. */
  lemma {:induction false} JoinColumnsExact(naming: Naming, entities: seq<Entity>)
    ensures JoinColumnsDistinct(Walk(naming, entities, |entities|)) <==> JoinSidesDiffer(naming, entities)
  {
    hide Walk, JoinAt, SidesDiffer, AsksFirst, Asked, FirstEdge;
    var joins := Walk(naming, entities, |entities|).joins;
    forall i: nat, j: nat | DefinesJoin(naming, entities, i, j)
      ensures var name := JoinAt(naming, entities, i, j).value.name;
        name in joins && (joins[name].left.column != joins[name].right.column <==> SidesDiffer(naming, entities, i, j))
    {
      JoinsComeFromEdges(naming, entities, JoinAt(naming, entities, i, j).value.name);
      FirstUnique(naming, entities, TableNamed(JoinAt(naming, entities, i, j).value.name), i, j);
      SidesAreColumns(naming, entities, i, j);
    }
    forall name | name in joins && JoinSidesDiffer(naming, entities)
      ensures joins[name].left.column != joins[name].right.column
    {
      var i, j := DefiningEdge(naming, entities, name);
      assert SidesDiffer(naming, entities, i, j);
    }
  }

  lemma DefiningEdge(naming: Naming, entities: seq<Entity>, name: string) returns (i: nat, j: nat)
    requires name in Walk(naming, entities, |entities|).joins
    ensures DefinesJoin(naming, entities, i, j)
    ensures JoinAt(naming, entities, i, j) == Some(Walk(naming, entities, |entities|).joins[name])
    ensures JoinAt(naming, entities, i, j).value.name == name
  {
    hide Walk, JoinAt, First;
    JoinsComeFromEdges(naming, entities, name);
    FirstExact(naming, entities, TableNamed(name));
    var r := First(naming, entities, TableNamed(name));
    i, j := r.value.0, r.value.1;
  }

  lemma BuildableExact(naming: Naming, entities: seq<Entity>)
    ensures Buildable(naming, entities, Walk(naming, entities, |entities|)) <==> EntitiesFit(naming, entities)
  {
    hide Walk, TableNamesDistinct, TablesApart, IndexesFit, IndexNamesDistinct, IndexColumnsExist, JoinColumnsDistinct;
    hide JoinSidesDiffer;
    TablesApartExact(naming, entities);
    IndexesFitExact(naming, entities);
    JoinColumnsExact(naming, entities);
  }

  /** The snapshot of entities with distinct columns is well formed exactly under conditions on
      their names, indexes and many-to-many edges: every column, key and reference that the plan
      adds fits. */
  lemma {:induction false} SnapshotIsWellFormed(naming: Naming, entities: seq<Entity>, order: seq<string>,
      flags: ExtensionFlags)
    requires forall k :: 0 <= k < |entities| ==> DistinctColumns(naming, entities[k])
    requires OrderOf(Walk(naming, entities, |entities|), order)
    ensures WellFormed(SnapshotOf(naming, entities, Walk(naming, entities, |entities|), order, flags)) <==>
      EntitiesFit(naming, entities)
  {
    hide *;
    BuildableExact(naming, entities);
    PlannedIsWellFormed(naming, entities, order, flags);
  }

  /** The two columns of the join table of an edge from an entity to itself have one name, so if
      the edge is the first to name the table, no snapshot of these entities is well formed. */
  lemma {:induction false} SelfJoinCollides(naming: Naming, entities: seq<Entity>, i: nat, j: nat, order: seq<string>,
      flags: ExtensionFlags)
    requires forall k :: 0 <= k < |entities| ==> DistinctColumns(naming, entities[k])
    requires OrderOf(Walk(naming, entities, |entities|), order)
    requires DistinctNames(entities) && DefinesJoin(naming, entities, i, j)
    requires entities[i].edges[j].target == entities[i].name
    ensures var join := JoinAt(naming, entities, i, j).value;
      && join.name in Walk(naming, entities, |entities|).joins
      && Walk(naming, entities, |entities|).joins[join.name] == join
      && join.left.column == join.right.column
      && !WellFormed(SnapshotOf(naming, entities, Walk(naming, entities, |entities|), order, flags))
  {
    SidesAreColumns(naming, entities, i, j);
    assert !SidesDiffer(naming, entities, i, j);
    JoinsComeFromEdges(naming, entities, JoinAt(naming, entities, i, j).value.name);
    FirstUnique(naming, entities, TableNamed(JoinAt(naming, entities, i, j).value.name), i, j);
    hide Walk, JoinAt, SidesDiffer, AsksFirst, WellFormed, SnapshotOf;
    SnapshotIsWellFormed(naming, entities, order, flags);
  }
}
