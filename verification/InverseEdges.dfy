/** Closing the edges of the entities under inverses (generator/parser.go). */
module InverseEdges {
  import opened Results
  import opened Entities

  type Graph = seq<Entity>

  predicate HasEdgeNamed(edges: seq<Edge>, name: string) {
    exists e | e in edges :: e.name == name
  }

  function InverseEdgeKind(e: Edge): EdgeKind {
    match e.kind
    case ToOne => if e.unique then ToOne else ToMany
    case ToMany => ToOne
    case _ => e.kind
  }

  function EmptyField(): Field { Field("", "", "", "", false, false, false, false, "", [], false, None, false) }

  /** A zero field if the entity has none. */
  function PrimaryOrEmpty(ent: Entity): Field {
    var p := FindPrimaryField(ent);
    if p.Some? then p.value else EmptyField()
  }

  function BuildInverseEdge(naming: Naming, source: Entity, e: Edge): Edge {
    var column :=
      if e.kind.ToMany? then EdgeRefColumn(naming, source, e, PrimaryOrEmpty(source)) else "";
    var refName :=
      if e.kind.ToOne? then EdgeColumn(naming, e) else column;
    Edge(e.inverseName, column, refName, e.through, source.name, InverseEdgeKind(e), e.nullable, e.unique, e.name,
      e.onDelete, e.onUpdate)
  }

  /** A to-one edge that is not unique and a to-many edge invert each other; a unique to-one edge and
      every other kind invert themselves. The inverse of a to-one edge refers to its column; that of a
      to-many edge is stored in, and refers to, the column that the edge refers to; all else is taken
      over, with the two names exchanged. */
  ghost predicate IsInverse(naming: Naming, source: Entity, e: Edge, added: Edge) {
    && (added.kind.ToOne? <==> e.kind.ToMany? || (e.kind.ToOne? && e.unique))
    && (added.kind.ToMany? <==> e.kind.ToOne? && !e.unique)
    && (added.kind.ManyToMany? <==> e.kind.ManyToMany?)
    && added.name == e.inverseName && added.inverseName == e.name && added.target == source.name
    && added.through == e.through && added.nullable == e.nullable && added.unique == e.unique
    && added.onDelete == e.onDelete && added.onUpdate == e.onUpdate
    && (e.kind.ToMany? ==> added.refName == added.column == RefersTo(naming, source, e))
    && (e.kind.ToOne? ==>
      added.column == "" && added.refName == if e.column != "" then e.column else naming.snake(e.name) + "_id")
    && (e.kind.ManyToMany? || e.kind.OtherKind? ==> added.column == "" && added.refName == "")
  }

  /** The column of the target that a to-many edge refers to. */
  ghost function RefersTo(naming: Naming, source: Entity, e: Edge): string {
    var primary := FindPrimaryField(source);
    if e.refName != "" then e.refName
    else if primary.None? || primary.value.name == "" then ""
    else
      naming.snake(source.name) + "_"
      + if primary.value.column != "" then primary.value.column else naming.snake(primary.value.name)
  }

  lemma {:induction false} BuiltIsInverse(naming: Naming, source: Entity, e: Edge, added: Edge)
    ensures IsInverse(naming, source, e, added) <==> added == BuildInverseEdge(naming, source, e)
  {
    var built := BuildInverseEdge(naming, source, e);
    hide FindPrimaryField;
    assert EdgeRefColumn(naming, source, e, PrimaryOrEmpty(source)) == RefersTo(naming, source, e);
    assert IsInverse(naming, source, e, added) ==> added.kind == built.kind;
  }

  /** The inverse of the inverse has the kind of the edge, unless that is a unique to-many edge, and
      belongs to the same column. */
  lemma {:induction false} InverseTwice(naming: Naming, source: Entity, target: Entity, e: Edge, added: Edge,
      back: Edge)
    requires IsInverse(naming, source, e, added) && IsInverse(naming, target, added, back)
    ensures back.kind == e.kind <==> !(e.kind.ToMany? && e.unique)
    ensures back.name == e.name && back.inverseName == e.inverseName
    ensures e.kind.ToOne? && !e.unique ==> back.column == back.refName == EdgeColumn(naming, e)
    ensures e.kind.ToMany? && RefersTo(naming, source, e) != "" ==> back.refName == RefersTo(naming, source, e)
  {
  }

  /** If the edge names an inverse and its target is known, the target has an edge of that name. */
  ghost predicate Matched(g: Graph, e: Edge) {
    e.inverseName == "" || forall t :: 0 <= t < |g| && g[t].name == e.target ==> HasEdgeNamed(g[t].edges, e.inverseName)
  }

  ghost predicate Closed(g: Graph) {
    forall k, m :: 0 <= k < |g| && 0 <= m < |g[k].edges| ==> Matched(g, g[k].edges[m])
  }

  /** The entities with edges appended. */
  ghost predicate Extends(orig: Graph, g: Graph) {
    && |g| == |orig|
    && forall k :: 0 <= k < |g| ==> orig[k].edges <= g[k].edges && g[k] == orig[k].(edges := g[k].edges)
  }

  /** The edge was built as the inverse of an original edge to the entity. */
  ghost predicate Inverts(naming: Naming, orig: Graph, target: string, added: Edge) {
    exists a, b :: 0 <= a < |orig| && 0 <= b < |orig[a].edges| && InvertsAt(naming, orig, a, b, target, added)
  }

  ghost predicate InvertsAt(naming: Naming, orig: Graph, a: nat, b: nat, target: string, added: Edge)
    requires a < |orig| && b < |orig[a].edges|
  {
    orig[a].edges[b].target == target && orig[a].edges[b].inverseName != ""
      && IsInverse(naming, orig[a], orig[a].edges[b], added)
  }

  /** Edge m of an entity was added, under a name the entity did not have. */
  ghost predicate Added(naming: Naming, orig: Graph, ent: Entity, m: nat)
    requires m < |ent.edges|
  {
    Inverts(naming, orig, ent.name, ent.edges[m]) && forall n :: 0 <= n < m ==> ent.edges[n].name != ent.edges[m].name
  }

  ghost predicate AllAdded(naming: Naming, orig: Graph, g: Graph)
    requires Extends(orig, g)
  {
    forall k, m :: 0 <= k < |g| && |orig[k].edges| <= m < |g[k].edges| ==> Added(naming, orig, g[k], m)
  }

  /** Before edge j of entity i is walked. */
  ghost predicate Walked(naming: Naming, orig: Graph, g: Graph, i: nat, j: nat) {
    && Extends(orig, g) && AllAdded(naming, orig, g)
    && (Closed(orig) ==> g == orig)
    && forall k, m :: 0 <= k < |g| && 0 <= m < |g[k].edges| && (k < i || (k == i && m < j) || m >= |orig[k].edges|) ==>
      Matched(g, g[k].edges[m])
  }

  function Append(g: Graph, t: nat, e: Edge): Graph
    requires t < |g|
  {
    g[t := g[t].(edges := g[t].edges + [e])]
  }

  lemma MatchedLater(g: Graph, t: nat, added: Edge, e: Edge)
    requires t < |g| && Matched(g, e)
    ensures Matched(Append(g, t, added), e)
  {
    var g' := Append(g, t, added);
    forall u | 0 <= u < |g'| && g'[u].name == e.target && e.inverseName != ""
      ensures HasEdgeNamed(g'[u].edges, e.inverseName)
    {
      assert g[u].name == e.target && HasEdgeNamed(g[u].edges, e.inverseName);
      var x :| x in g[u].edges && x.name == e.inverseName;
      assert x in g'[u].edges;
    }
  }

  /** The added edge names the walked one as its inverse, and the other way round. */
  lemma PairMatched(naming: Naming, g: Graph, i: nat, j: nat, t: nat)
    requires DistinctNames(g) && i < |g| && j < |g[i].edges| && t < |g| && g[t].name == g[i].edges[j].target
    ensures var e := g[i].edges[j];
      var added := BuildInverseEdge(naming, g[i], e);
      Matched(Append(g, t, added), e) && Matched(Append(g, t, added), added)
  {
    var e := g[i].edges[j];
    var added := BuildInverseEdge(naming, g[i], e);
    var g' := Append(g, t, added);
    assert added in g'[t].edges && e in g'[i].edges;
    forall u | 0 <= u < |g'| && g'[u].name == e.target ensures u == t {
      assert g[u].name == g[t].name;
    }
    forall u | 0 <= u < |g'| && g'[u].name == g[i].name ensures u == i {
      assert g[u].name == g[i].name;
    }
  }

  lemma AppendAdds(naming: Naming, orig: Graph, g: Graph, i: nat, j: nat, t: nat)
    requires DistinctNames(g) && Extends(orig, g) && AllAdded(naming, orig, g)
    requires i < |g| && j < |orig[i].edges| && t < |g| && g[t].name == g[i].edges[j].target
    requires g[i].edges[j].inverseName != "" && !HasEdgeNamed(g[t].edges, g[i].edges[j].inverseName)
    ensures var g' := Append(g, t, BuildInverseEdge(naming, g[i], g[i].edges[j]));
      Extends(orig, g') && AllAdded(naming, orig, g')
  {
    var e := g[i].edges[j];
    var added := BuildInverseEdge(naming, g[i], e);
    var g' := Append(g, t, added);
    assert added == BuildInverseEdge(naming, orig[i], orig[i].edges[j]);
    BuiltIsInverse(naming, orig[i], orig[i].edges[j], added);
    hide BuildInverseEdge, IsInverse;
    assert InvertsAt(naming, orig, i, j, g[t].name, added);
    forall k, m | 0 <= k < |g'| && |orig[k].edges| <= m < |g'[k].edges| ensures Added(naming, orig, g'[k], m) {
      if m < |g[k].edges| {
        assert Added(naming, orig, g[k], m);
      } else {
        assert k == t && g'[k].edges[m] == added;
        forall n | 0 <= n < m ensures g'[k].edges[n].name != added.name {
          assert g[t].edges[n] in g[t].edges;
        }
      }
    }
  }

  lemma WalkAppends(naming: Naming, orig: Graph, g: Graph, i: nat, j: nat, t: nat)
    requires DistinctNames(g) && Walked(naming, orig, g, i, j)
    requires i < |g| && j < |orig[i].edges| && t < |g| && g[t].name == g[i].edges[j].target
    requires g[i].edges[j].inverseName != "" && !HasEdgeNamed(g[t].edges, g[i].edges[j].inverseName)
    ensures Walked(naming, orig, Append(g, t, BuildInverseEdge(naming, g[i], g[i].edges[j])), i, j + 1)
  {
    var added := BuildInverseEdge(naming, g[i], g[i].edges[j]);
    var g' := Append(g, t, added);
    AppendAdds(naming, orig, g, i, j, t);
    PairMatched(naming, g, i, j, t);
    NotClosed(orig, g, i, j, t);
    hide BuildInverseEdge, Matched, HasEdgeNamed, AllAdded, DistinctNames;
    forall k, m | 0 <= k < |g'| && 0 <= m < |g'[k].edges| && (k < i || (k == i && m < j + 1) || m >= |orig[k].edges|)
      ensures Matched(g', g'[k].edges[m])
    {
      if m == |g[k].edges| {
        assert k == t && g'[k].edges[m] == added;
      } else if k == i && m == j {
        assert g'[k].edges[m] == g[i].edges[j];
      } else {
        assert g'[k].edges[m] == g[k].edges[m];
        MatchedLater(g, t, added, g[k].edges[m]);
      }
    }
  }

  lemma NotClosed(orig: Graph, g: Graph, i: nat, j: nat, t: nat)
    requires Extends(orig, g) && i < |g| && j < |orig[i].edges| && t < |g| && g[t].name == g[i].edges[j].target
    requires g[i].edges[j].inverseName != "" && !HasEdgeNamed(g[t].edges, g[i].edges[j].inverseName)
    requires Closed(orig) ==> g == orig
    ensures !Closed(orig)
  {
    assert Closed(orig) ==> Matched(orig, orig[i].edges[j]);
  }

  lemma WalkSkips(naming: Naming, orig: Graph, g: Graph, i: nat, j: nat)
    requires Walked(naming, orig, g, i, j) && i < |g| && j < |g[i].edges| && Matched(g, g[i].edges[j])
    ensures Walked(naming, orig, g, i, j + 1)
  {
    hide Matched, AllAdded;
  }

  lemma WalkStarts(naming: Naming, g: Graph)
    ensures Walked(naming, g, g, 0, 0)
  {
  }

  /** All edges of entity i that were there when its walk began are walked; those added since
      are matched. */
  lemma WalkMovesOn(naming: Naming, orig: Graph, g: Graph, i: nat, j: nat)
    requires Walked(naming, orig, g, i, j) && i < |g| && j >= |orig[i].edges|
    ensures Walked(naming, orig, g, i + 1, 0)
  {
    hide Matched, AllAdded;
  }

  /** Afterwards every edge that names an inverse and has a known target finds it there; the
      edges that were there come first, the others are their inverses under new names; and if the
      edges were closed already, nothing changes. */
  method SynthesizeInverseEdges(naming: Naming, entities: array<Entity>)
    requires DistinctNames(entities[..])
    modifies entities
    ensures Extends(old(entities[..]), entities[..]) && AllAdded(naming, old(entities[..]), entities[..])
    ensures Closed(entities[..])
    ensures Closed(old(entities[..])) ==> entities[..] == old(entities[..])
  {
    ghost var orig := entities[..];
    WalkStarts(naming, orig);
    hide AllAdded, Matched, BuildInverseEdge, HasEdgeNamed, Walked;
    for i := 0 to entities.Length
      invariant Walked(naming, orig, entities[..], i, 0)
    {
      TakeExtends(naming, orig, entities[..], i, 0);
      var source := entities[i];
      for j := 0 to |source.edges|
        invariant Walked(naming, orig, entities[..], i, j)
        invariant source.edges <= entities[i].edges && entities[i].name == source.name
        invariant entities[i].fields == source.fields
      {
        TakeExtends(naming, orig, entities[..], i, j);
        ghost var g := entities[..];
        var edge := source.edges[j];
        if edge.inverseName == "" {
          MatchedUnless(g, edge, |g|);
          WalkSkips(naming, orig, g, i, j);
          continue;
        }
        var targetIdx := IndexOf(entities[..], edge.target);
        if targetIdx.None? {
          MatchedUnless(g, edge, |g|);
          WalkSkips(naming, orig, g, i, j);
          continue;
        }
        if HasEdgeNamed(entities[targetIdx.value].edges, edge.inverseName) {
          MatchedUnless(g, edge, targetIdx.value);
          WalkSkips(naming, orig, g, i, j);
          continue;
        }
        OnlyOriginalsAdd(naming, orig, g, i, j, targetIdx.value);
        WalkAppends(naming, orig, g, i, j, targetIdx.value);
        SameInverse(naming, source, entities[i], edge);
        var inverse := BuildInverseEdge(naming, source, edge);
        entities[targetIdx.value] := entities[targetIdx.value].(edges := entities[targetIdx.value].edges + [inverse]);
        assert entities[..] == Append(g, targetIdx.value, inverse);
      }
      TakeExtends(naming, orig, entities[..], i, |source.edges|);
      WalkMovesOn(naming, orig, entities[..], i, |source.edges|);
    }
    WalkEnds(naming, orig, entities[..]);
  }

  lemma TakeExtends(naming: Naming, orig: Graph, g: Graph, i: nat, j: nat)
    requires Walked(naming, orig, g, i, j) && DistinctNames(orig)
    ensures Extends(orig, g) && DistinctNames(g)
  {
    hide AllAdded, Matched;
  }

  lemma MatchedUnless(g: Graph, e: Edge, t: nat)
    requires e.inverseName == "" || (forall u :: 0 <= u < |g| ==> g[u].name != e.target)
      || (t < |g| && DistinctNames(g) && g[t].name == e.target && HasEdgeNamed(g[t].edges, e.inverseName))
    ensures Matched(g, e)
  {
    hide HasEdgeNamed;
  }

  lemma OnlyOriginalsAdd(naming: Naming, orig: Graph, g: Graph, i: nat, j: nat, t: nat)
    requires Walked(naming, orig, g, i, j) && i < |g| && j < |g[i].edges|
    requires t < |g| && g[t].name == g[i].edges[j].target
    requires g[i].edges[j].inverseName != "" && !HasEdgeNamed(g[t].edges, g[i].edges[j].inverseName)
    ensures j < |orig[i].edges|
  {
    assert !Matched(g, g[i].edges[j]);
    hide HasEdgeNamed, AllAdded;
  }

  lemma SameInverse(naming: Naming, source: Entity, ent: Entity, e: Edge)
    requires ent.name == source.name && ent.fields == source.fields
    ensures BuildInverseEdge(naming, source, e) == BuildInverseEdge(naming, ent, e)
  {
  }

  lemma WalkEnds(naming: Naming, orig: Graph, g: Graph)
    requires Walked(naming, orig, g, |g|, 0)
    ensures Extends(orig, g) && AllAdded(naming, orig, g) && Closed(g) && (Closed(orig) ==> g == orig)
  {
    hide AllAdded, Matched;
  }
}
