/** A bulk update (orm/runtime/bulk.go) against updating row by row. */
module BulkUpdate {
  import opened Results
  import opened SqlBuilders

  /** Row i of `data` holds the primary and the values of row i of the specification. */
  lemma DataHoldsTheRows(spec: UpdateSpec, built: Built<Update>)
    requires IsUpdate(spec, built)
    ensures WellNumbered(built) && Statement(built.statement) && |built.statement.values| == |spec.rows|
    ensures forall i :: 0 <= i < |spec.rows| ==> Data(built, i) == RowValues(spec.rows[i])
  {
    var rows, width := AllValues(spec.rows), |spec.columns| + 1;
    var values := built.statement.values;
    assert Uniform(rows, width);
    PlaceholdersInPlace(rows, values, width);
    hide Flat, AllValues;
    forall row | row in values ensures |row| == width && forall p :: p in row ==> 1 <= p <= |built.args| {
      var i :| 0 <= i < |values| && values[i] == row;
      forall p | p in row ensures 1 <= p <= |built.args| {
        var j :| 0 <= j < width && values[i][j] == p;
      }
    }
    forall i | 0 <= i < |spec.rows| ensures Data(built, i) == RowValues(spec.rows[i]) {
      assert values[i] in values;
      forall j | 0 <= j < width ensures Data(built, i)[j] == RowValues(spec.rows[i])[j] {
        assert Bound(built.args, values[i][j]) == rows[i][j];
      }
    }
  }

  /** What row i of the specification makes of the cells. */
  function SetTo(spec: UpdateSpec, i: nat, cells: Cells): Cells
    requires i < |spec.rows| && |spec.rows[i].values| == |spec.columns|
  {
    Assign(spec.columns, spec.rows[i].values, spec.columns, cells)
  }

  ghost predicate Widths(spec: UpdateSpec) {
    forall i :: 0 <= i < |spec.rows| ==> |spec.rows[i].values| == |spec.columns|
  }

  ghost predicate Names(spec: UpdateSpec, i: nat, p: Value) {
    i < |spec.rows| && spec.rows[i].primary == p
  }

  lemma ColumnsAfterPrimary(primaryColumn: string, primary: Value, columns: seq<string>, values: seq<Value>,
      cells: Cells)
    requires |values| == |columns| && primaryColumn !in columns
    ensures Column([primaryColumn] + columns, [primary] + values, primaryColumn) == primary
    ensures Assign([primaryColumn] + columns, [primary] + values, columns, cells)
      == Assign(columns, values, columns, cells)
  {
    assert ([primaryColumn] + columns)[1..] == columns && ([primary] + values)[1..] == values;
  }

  /** The statement updates each row that is named from one of the rows that name it. */
  ghost predicate Chosen(spec: UpdateSpec, t: Table, t': Table)
    requires Widths(spec)
  {
    t'.Keys == t.Keys && forall p :: p in t ==> ChosenAt(spec, p, t[p], t'[p])
  }

  ghost predicate ChosenAt(spec: UpdateSpec, p: Value, cells: Cells, cells': Cells)
    requires Widths(spec)
  {
    if exists i :: Names(spec, i, p) then exists i :: Names(spec, i, p) && cells' == SetTo(spec, i, cells)
    else cells' == cells
  }

  lemma DataMatches(spec: UpdateSpec, built: Built<Update>, i: nat, p: Value, cells: Cells)
    requires IsUpdate(spec, built) && spec.primaryColumn !in spec.columns && WellNumbered(built)
    requires Statement(built.statement)
    ensures MatchesData(built, i, p) <==> Names(spec, i, p)
    ensures Names(spec, i, p) ==>
      Assign(built.statement.columns, Data(built, i), built.statement.sets, cells) == SetTo(spec, i, cells)
  {
    DataHoldsTheRows(spec, built);
    hide Data, Numbered, Flat, AllValues, WellNumbered, Statement, Assign, Column;
    if i < |spec.rows| {
      ColumnsAfterPrimary(spec.primaryColumn, spec.rows[i].primary, spec.columns, spec.rows[i].values, cells);
    }
  }

  lemma EffectIsChosenAt(spec: UpdateSpec, built: Built<Update>, p: Value, cells: Cells, cells': Cells)
    requires IsUpdate(spec, built) && spec.primaryColumn !in spec.columns && WellNumbered(built)
    requires Statement(built.statement)
    requires Widths(spec)
    ensures EffectAt(built, p, cells, cells') <==> ChosenAt(spec, p, cells, cells')
  {
    forall i: nat
      ensures MatchesData(built, i, p) <==> Names(spec, i, p)
      ensures Names(spec, i, p) ==>
        Assign(built.statement.columns, Data(built, i), built.statement.sets, cells) == SetTo(spec, i, cells)
    {
      DataMatches(spec, built, i, p, cells);
    }
    hide IsUpdate, WellNumbered, Statement, Widths, SetTo, Assign;
    hide MatchesData;
  }

  lemma EffectIsChosen(spec: UpdateSpec, built: Built<Update>, t: Table, t': Table)
    requires IsUpdate(spec, built) && spec.primaryColumn !in spec.columns && WellNumbered(built)
    requires Statement(built.statement)
    requires Widths(spec)
    ensures Effect(built, t, t') <==> Chosen(spec, t, t')
  {
    hide IsUpdate, WellNumbered, Statement, Widths, EffectAt, ChosenAt;
    if t'.Keys == t.Keys {
      forall p | p in t ensures EffectAt(built, p, t[p], t'[p]) <==> ChosenAt(spec, p, t[p], t'[p]) {
        EffectIsChosenAt(spec, built, p, t[p], t'[p]);
      }
    }
  }

  // Row by row

  /** The last of the first n rows that names the primary. */
  function LastOf(rows: seq<UpdateRow>, p: Value): (r: Option<nat>)
    ensures r.Some? ==> r.value < |rows| && rows[r.value].primary == p
    ensures r.None? ==> forall i :: 0 <= i < |rows| ==> rows[i].primary != p
  {
    if rows == [] then None
    else if rows[|rows| - 1].primary == p then Some(|rows| - 1)
    else
      LastOf(rows[..|rows| - 1], p)
  }

  /** Assigning the same columns again leaves only the last assignment. */
  lemma AssignTwice(columns: seq<string>, row: seq<Value>, row': seq<Value>, cells: Cells)
    requires |row| == |row'| == |columns|
    ensures Assign(columns, row', columns, Assign(columns, row, columns, cells))
      == Assign(columns, row', columns, cells)
  {
    hide Column;
  }

  function LastCells(columns: seq<string>, rows: seq<UpdateRow>, p: Value, cells: Cells): Cells
    requires forall i :: 0 <= i < |rows| ==> |rows[i].values| == |columns|
  {
    var last := LastOf(rows, p);
    if last.Some? then Assign(columns, rows[last.value].values, columns, cells) else cells
  }

  /** Row by row, each row of the table ends up as the last row that names it says. */
  lemma {:induction false} RowByRowAt(columns: seq<string>, rows: seq<UpdateRow>, t: Table, p: Value)
    requires (forall i :: 0 <= i < |rows| ==> |rows[i].values| == |columns|) && p in t
    ensures p in RowByRow(columns, rows, t) && RowByRow(columns, rows, t)[p] == LastCells(columns, rows, p, t[p])
  {
    if rows != [] {
      var init, last := rows[..|rows| - 1], rows[|rows| - 1];
      RowByRowAt(columns, init, t, p);
      if LastOf(init, p).Some? {
        AssignTwice(columns, init[LastOf(init, p).value].values, last.values, t[p]);
      }
      hide Assign;
    }
  }

  lemma {:induction false} RowByRowKeys(columns: seq<string>, rows: seq<UpdateRow>, t: Table)
    requires forall i :: 0 <= i < |rows| ==> |rows[i].values| == |columns|
    ensures RowByRow(columns, rows, t).Keys == t.Keys
  {
    if rows != [] {
      RowByRowKeys(columns, rows[..|rows| - 1], t);
      hide Assign;
    }
  }

  /** Rows that name the same row of the table make the same of it. */
  ghost predicate Agree(spec: UpdateSpec, t: Table)
    requires Widths(spec)
  {
    forall p, i, j :: p in t && Names(spec, i, p) && Names(spec, j, p) ==> SetTo(spec, i, t[p]) == SetTo(spec, j, t[p])
  }

  lemma LastChoice(spec: UpdateSpec, t: Table, p: Value)
    requires Widths(spec) && p in t
    ensures p in RowByRow(spec.columns, spec.rows, t)
    ensures ChosenAt(spec, p, t[p], RowByRow(spec.columns, spec.rows, t)[p])
  {
    RowByRowAt(spec.columns, spec.rows, t, p);
    hide RowByRow, Assign;
    var last := LastOf(spec.rows, p);
    if last.Some? {
      assert Names(spec, last.value, p);
    }
  }

  lemma AgreeingChoice(spec: UpdateSpec, t: Table, t': Table)
    requires Widths(spec) && Agree(spec, t) && Chosen(spec, t, t')
    ensures t' == RowByRow(spec.columns, spec.rows, t)
  {
    RowByRowKeys(spec.columns, spec.rows, t);
    var r := RowByRow(spec.columns, spec.rows, t);
    hide RowByRow, SetTo;
    forall p | p in t ensures t'[p] == r[p] {
      LastChoice(spec, t, p);
      assert ChosenAt(spec, p, t[p], t'[p]) && ChosenAt(spec, p, t[p], r[p]);
    }
  }

  /** A choice of row i for the primary p, and of the last rows otherwise. */
  lemma OtherChoice(spec: UpdateSpec, t: Table, p: Value, i: nat)
    requires Widths(spec) && p in t && Names(spec, i, p)
    ensures Chosen(spec, t, RowByRow(spec.columns, spec.rows, t)[p := SetTo(spec, i, t[p])])
  {
    RowByRowKeys(spec.columns, spec.rows, t);
    hide SetTo;
    var r := RowByRow(spec.columns, spec.rows, t);
    hide RowByRow;
    var t' := r[p := SetTo(spec, i, t[p])];
    forall q | q in t ensures ChosenAt(spec, q, t[q], t'[q]) {
      LastChoice(spec, t, q);
    }
  }

  lemma RowByRowIsChosen(spec: UpdateSpec, t: Table)
    requires Widths(spec)
    ensures Chosen(spec, t, RowByRow(spec.columns, spec.rows, t))
  {
    RowByRowKeys(spec.columns, spec.rows, t);
    hide ChosenAt, RowByRow;
    forall p | p in t
      ensures ChosenAt(spec, p, t[p], RowByRow(spec.columns, spec.rows, t)[p])
    {
      LastChoice(spec, t, p);
    }
  }

  lemma DisagreeingChoice(spec: UpdateSpec, t: Table) returns (t': Table)
    requires Widths(spec) && !Agree(spec, t)
    ensures Chosen(spec, t, t') && t' != RowByRow(spec.columns, spec.rows, t)
  {
    var r := RowByRow(spec.columns, spec.rows, t);
    RowByRowKeys(spec.columns, spec.rows, t);
    hide SetTo, RowByRow, Chosen;
    var p, i, j :| p in t && Names(spec, i, p) && Names(spec, j, p) && SetTo(spec, i, t[p]) != SetTo(spec, j, t[p]);
    var k := if SetTo(spec, i, t[p]) != r[p] then i else j;
    OtherChoice(spec, t, p, k);
    t' := r[p := SetTo(spec, k, t[p])];
    assert t'[p] != r[p];
  }

  /** Whatever rows the database picks, the bulk update does what updating row by row does,
      exactly when rows with the same primary agree. */
  lemma BulkIsRowByRow(spec: UpdateSpec, built: Built<Update>, t: Table)
    requires IsUpdate(spec, built) && spec.primaryColumn !in spec.columns
    ensures WellNumbered(built) && Statement(built.statement) && Widths(spec)
    ensures Effect(built, t, RowByRow(spec.columns, spec.rows, t))
    ensures (forall t' :: Effect(built, t, t') ==> t' == RowByRow(spec.columns, spec.rows, t)) <==> Agree(spec, t)
  {
    DataHoldsTheRows(spec, built);
    assert Widths(spec);
    hide *;
    var r := RowByRow(spec.columns, spec.rows, t);
    RowByRowIsChosen(spec, t);
    EffectIsChosen(spec, built, t, r);
    if Agree(spec, t) {
      forall t' | Effect(built, t, t') ensures t' == r {
        EffectIsChosen(spec, built, t, t');
        AgreeingChoice(spec, t, t');
      }
    } else {
      var t' := DisagreeingChoice(spec, t);
      EffectIsChosen(spec, built, t, t');
    }
  }

  /** In particular for distinct primaries. */
  lemma DistinctPrimariesAgree(spec: UpdateSpec, t: Table)
    requires Widths(spec) && forall i, j :: 0 <= i < j < |spec.rows| ==> spec.rows[i].primary != spec.rows[j].primary
    ensures Agree(spec, t)
  {
    hide SetTo;
    forall p, i, j | p in t && Names(spec, i, p) && Names(spec, j, p)
      ensures SetTo(spec, i, t[p]) == SetTo(spec, j, t[p])
    {
      assert i == j;
    }
  }
}
