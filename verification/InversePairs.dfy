/** A pair of inverse edges in the migration plan: the edges that the inverse-edge pass adds
    (generator/parser.go) through the planner (generator/migrations.go). */
module InversePairs {
  import opened Results
  import opened SchemaSnapshot
  import opened Entities
  import opened MigrationPlan
  import opened PlanTheorems
  import opened PlanProvenance
  import opened InverseEdges

  /** Edge d of entity c was built as the inverse of edge b of entity a. */
  ghost predicate IsPair(naming: Naming, g: Graph, a: nat, b: nat, c: nat, d: nat) {
    && DistinctNames(g) && IsEdge(g, a, b) && IsEdge(g, c, d) && g[a].edges[b].target == g[c].name
    && g[c].edges[d] == BuildInverseEdge(naming, g[a], g[a].edges[b])
    && FindPrimaryField(g[a]).Some? && FindPrimaryField(g[c]).Some?
  }

  /** A to-many edge with this reference column finds it on its target k: it is there already, or
      no edge of that name leads it to another. */
  ghost predicate RefersStraight(naming: Naming, g: Graph, i: nat, j: nat, k: nat, column: string)
    requires k < |g|
  {
    || DeclaresColumn(naming, g[k], column) || AskedBefore(naming, g, i, j, ColumnOn(k, column))
    || (var named := FindEdgeByName(g[k].edges, column);
      named.None? || EdgeColumn(naming, named.value) == "" || EdgeColumn(naming, named.value) == column)
  }

  lemma IndexOfName(g: Graph, k: nat)
    requires DistinctNames(g) && k < |g|
    ensures IndexOf(g, g[k].name) == Some(k)
  {
  }

  /** What a to-many edge with a reference column asks for. */
  lemma ToManyAsks(naming: Naming, g: Graph, i: nat, j: nat, k: nat, column: string)
    requires DistinctNames(g) && IsEdge(g, i, j) && k < |g| && g[i].edges[j].target == g[k].name
    requires g[i].edges[j].kind.ToMany?
    requires FindPrimaryField(g[i]).Some? && column != ""
    requires EdgeRefColumn(naming, g[i], g[i].edges[j], FindPrimaryField(g[i]).value) == column
    ensures var e, primary, use := g[i].edges[j], FindPrimaryField(g[i]).value, UseAt(naming, g, i, j);
      && use.Some?
      && (use.value.column == column <==> e.refName == "" || RefersStraight(naming, g, i, j, k, column))
      && (use.value.column == column ==> use.value == Use(k, column, ForeignKeyField(column, primary, e),
        KeyTo(naming, naming.pluralize(g[k].name), column, g[i].name, primary, e)))
  {
    IndexOfName(g, k);
    hide Before, DeclaresColumn, AskedBefore, FindPrimaryField, IndexOf, KeyTo, ForeignKeyField, FindEdgeByName,
      EdgeColumn, DistinctNames;
    PlannedBefore(naming, g, i, j, k, column);
  }

  /** What a to-one edge asks for. */
  lemma ToOneAsks(naming: Naming, g: Graph, i: nat, j: nat, k: nat)
    requires DistinctNames(g) && IsEdge(g, i, j) && k < |g| && g[i].edges[j].target == g[k].name
    requires g[i].edges[j].kind.ToOne?
    requires FindPrimaryField(g[i]).Some? && FindPrimaryField(g[k]).Some?
    ensures var e, primary := g[i].edges[j], FindPrimaryField(g[k]).value;
      var column := EdgeColumn(naming, e);
      UseAt(naming, g, i, j) == Some(Use(i, column, ForeignKeyField(column, primary, e),
        KeyTo(naming, naming.pluralize(g[i].name), column, g[k].name, primary, e)))
  {
    IndexOfName(g, k);
    hide Before, FindPrimaryField, IndexOf, KeyTo, ForeignKeyField, DistinctNames;
  }

  /** A to-one edge that is not unique and its to-many inverse ask for the same column, field and
      key, exactly if the inverse is not led astray. */
  lemma {:induction false} ToOnePairAsksAlike(naming: Naming, g: Graph, a: nat, b: nat, c: nat, d: nat)
    requires IsPair(naming, g, a, b, c, d) && g[a].edges[b].kind.ToOne? && !g[a].edges[b].unique
    ensures var column := EdgeColumn(naming, g[a].edges[b]);
      && UseAt(naming, g, a, b).Some? && UseAt(naming, g, a, b).value.entity == a
      && UseAt(naming, g, a, b).value.column == column
      && (UseAt(naming, g, c, d) == UseAt(naming, g, a, b) <==> RefersStraight(naming, g, c, d, a, column))
  {
    var e, column := g[a].edges[b], EdgeColumn(naming, g[a].edges[b]);
    hide UseAt, RefersStraight, FindPrimaryField, DistinctNames;
    ToOneAsks(naming, g, a, b, c);
    ToManyAsks(naming, g, c, d, a, column);
  }

  /** The same for a to-many edge, which has a reference column, and its to-one inverse. */
  lemma {:induction false} ToManyPairAsksAlike(naming: Naming, g: Graph, a: nat, b: nat, c: nat, d: nat)
    requires IsPair(naming, g, a, b, c, d) && g[a].edges[b].kind.ToMany?
    requires EdgeRefColumn(naming, g[a], g[a].edges[b], FindPrimaryField(g[a]).value) != ""
    ensures var e, column := g[a].edges[b], EdgeRefColumn(naming, g[a], g[a].edges[b], FindPrimaryField(g[a]).value);
      && UseAt(naming, g, c, d).Some? && UseAt(naming, g, c, d).value.entity == c
      && UseAt(naming, g, c, d).value.column == column
      && (UseAt(naming, g, a, b) == UseAt(naming, g, c, d) <==>
        e.refName == "" || RefersStraight(naming, g, a, b, c, column))
  {
    var e, column := g[a].edges[b], EdgeRefColumn(naming, g[a], g[a].edges[b], FindPrimaryField(g[a]).value);
    hide UseAt, RefersStraight, FindPrimaryField, DistinctNames, EdgeRefColumn;
    ToManyAsks(naming, g, a, b, c, column);
    ToOneAsks(naming, g, c, d, a);
  }

  /** An inverse that is walked after its to-one edge is not led astray. */
  lemma {:induction false} LaterInverseRefersStraight(naming: Naming, g: Graph, a: nat, b: nat, c: nat, d: nat)
    requires IsPair(naming, g, a, b, c, d) && g[a].edges[b].kind.ToOne? && !g[a].edges[b].unique
    requires Precedes(g, a, b, c, d)
    ensures RefersStraight(naming, g, c, d, a, EdgeColumn(naming, g[a].edges[b]))
  {
    hide UseAt, FindPrimaryField, DistinctNames;
    ToOnePairAsksAlike(naming, g, a, b, c, d);
    assert Asks(naming, g, a, b, ColumnOn(a, EdgeColumn(naming, g[a].edges[b])));
  }

  /** Every edge that the pass adds makes a pair with an edge that was there. */
  lemma AddedIsPaired(naming: Naming, orig: Graph, g: Graph, c: nat, d: nat) returns (a: nat, b: nat)
    requires DistinctNames(orig) && Extends(orig, g) && AllAdded(naming, orig, g)
    requires c < |g| && |orig[c].edges| <= d < |g[c].edges|
    ensures IsEdge(orig, a, b) && g[a].edges[b] == orig[a].edges[b]
    ensures FindPrimaryField(g[a]).Some? && FindPrimaryField(g[c]).Some? ==> IsPair(naming, g, a, b, c, d)
  {
    assert Added(naming, orig, g[c], d);
    var i: nat, j: nat :| i < |orig| && j < |orig[i].edges| && InvertsAt(naming, orig, i, j, g[c].name, g[c].edges[d]);
    a, b := i, j;
    BuiltIsInverse(naming, g[a], g[a].edges[b], g[c].edges[d]);
    SameRefers(naming, orig[a], g[a], orig[a].edges[b], g[c].edges[d]);
    hide FindPrimaryField;
  }

  lemma SameRefers(naming: Naming, source: Entity, ent: Entity, e: Edge, added: Edge)
    requires ent.name == source.name && ent.fields == source.fields
    ensures IsInverse(naming, source, e, added) <==> IsInverse(naming, ent, e, added)
  {
  }

  ghost predicate OneKeyOn(v: Planned, column: string) {
    && (exists fk :: fk in v.foreignKeys && fk.column == column)
    && forall fk, fk' ::
      fk in v.foreignKeys && fk' in v.foreignKeys && fk.column == column && fk'.column == column ==> fk == fk'
  }

  lemma PairTakesEffect(naming: Naming, g: Graph, a: nat, b: nat, c: nat, d: nat, u: Use)
    requires IsEdge(g, a, b) && IsEdge(g, c, d) && UseAt(naming, g, a, b) == Some(u)
    requires UseAt(naming, g, c, d) == Some(u)
    ensures var v := Walk(naming, g, |g|).entries[u.entity];
      && HasColumnFor(v, u.column, g[a].edges[b]) && HasColumnFor(v, u.column, g[c].edges[d])
      && OneKeyOn(v, u.column)
      && (AsksFirst(naming, g, a, b, ColumnOn(u.entity, u.column)) ==> u.key in v.foreignKeys)
      && (AsksFirst(naming, g, c, d, ColumnOn(u.entity, u.column)) ==> u.key in v.foreignKeys)
  {
    hide UseAt, HasColumnFor, Walk, FirstKey, AsksFirst;
    var v := Walk(naming, g, |g|).entries[u.entity];
    EdgeIsPlanned(naming, g, a, b, u);
    UseTakesEffect(naming, g, c, d, u);
    FirstKeyIsOf(naming, g, a, b, u);
    FirstKeyIsOf(naming, g, c, d, u);
    var key := FirstKey(naming, g, u.entity, u.column).value;
    forall fk ensures fk in v.foreignKeys && fk.column == u.column <==> fk == key {
      KeysComeFromEdges(naming, g, u.entity, fk);
    }
  }

  /** After the inverse-edge pass, every to-many edge that it added for a to-one edge has one
      column in common with it, and one foreign key, unless an edge named like the column leads it
      to another. */
  lemma {:induction false} SynthesizedPairIsOneColumn(naming: Naming, orig: Graph, g: Graph, c: nat, d: nat)
    returns (a: nat, b: nat)
    requires DistinctNames(orig) && Extends(orig, g) && AllAdded(naming, orig, g)
    requires c < |g| && |orig[c].edges| <= d < |g[c].edges| && g[c].edges[d].kind.ToMany?
    requires forall k :: 0 <= k < |g| ==> FindPrimaryField(g[k]).Some?
    ensures IsEdge(orig, a, b) && g[a].edges[b] == orig[a].edges[b] && IsPair(naming, g, a, b, c, d)
    ensures var e, column := g[a].edges[b], EdgeColumn(naming, g[a].edges[b]);
      && e.kind.ToOne? && !e.unique
      && (UseAt(naming, g, c, d) == UseAt(naming, g, a, b) <==> RefersStraight(naming, g, c, d, a, column))
      && (RefersStraight(naming, g, c, d, a, column) ==>
        && OneKeyOn(Walk(naming, g, |g|).entries[a], column)
        && HasColumnFor(Walk(naming, g, |g|).entries[a], column, e)
        && HasColumnFor(Walk(naming, g, |g|).entries[a], column, g[c].edges[d])
        && (AsksFirst(naming, g, a, b, ColumnOn(a, column)) || AsksFirst(naming, g, c, d, ColumnOn(a, column)) ==>
          UseAt(naming, g, a, b).value.key in Walk(naming, g, |g|).entries[a].foreignKeys))
  {
    a, b := AddedIsPaired(naming, orig, g, c, d);
    hide OneKeyOn, HasColumnFor, AsksFirst, Walk, RefersStraight;
    ToOnePairAsksAlike(naming, g, a, b, c, d);
    var column := EdgeColumn(naming, g[a].edges[b]);
    if RefersStraight(naming, g, c, d, a, column) {
      PairTakesEffect(naming, g, a, b, c, d, UseAt(naming, g, a, b).value);
    }
  }

  /** Posts have an author in column author_id, and an edge of that very name in column writer. */
  function NamedLikeAColumn(naming: Naming): Graph {
    var id := Field("id", "id", "uuid", "string", true, false, false, false, "", [], false, None, false);
    var author := Edge("author", "author_id", "", "", "User", ToOne, false, false, "posts", "", "");
    var post := Entity("Post", [id], [author, author.(name := "author_id", column := "writer", inverseName := "")], []);
    [Entity("User", [id], [BuildInverseEdge(naming, post, author)], []), post]
  }

  /** The inverse is led astray: the edge User.posts asks for another column than Post.author. */
  lemma {:induction false} InverseLedAstray(naming: Naming)
    ensures var g := NamedLikeAColumn(naming);
      && IsPair(naming, g, 1, 0, 0, 0) && UseAt(naming, g, 1, 0).Some?
      && UseAt(naming, g, 1, 0).value.column == "author_id"
      && UseAt(naming, g, 0, 0) != UseAt(naming, g, 1, 0)
  {
    var g := NamedLikeAColumn(naming);
    assert IsPair(naming, g, 1, 0, 0, 0);
    assert FindEdgeByName(g[1].edges[1..], "author_id") == Some(g[1].edges[1]);
    hide UseAt;
    ToOnePairAsksAlike(naming, g, 1, 0, 0, 0);
  }
}
