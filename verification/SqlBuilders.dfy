/** The statement builders of the ORM runtime (orm/runtime/bulk.go, orm/runtime/query.go): their
    placeholders and arguments. A statement is its structure, with a placeholder as its number. */
module SqlBuilders {
  import opened Results

  datatype Value = Text(text: string) | Number(number: int)

  datatype BuildError =
    | TableRequired
    | PrimaryColumnRequired
    | ColumnsRequired
    | RowsRequired
    | RowWidth(row: nat, got: nat, expected: nat)

  datatype InsertSpec = InsertSpec(table: string, columns: seq<string>, returning: seq<string>, rows: seq<seq<Value>>)

  datatype UpdateRow = UpdateRow(primary: Value, values: seq<Value>)

  datatype UpdateSpec = UpdateSpec(
    table: string, primaryColumn: string, columns: seq<string>, returning: seq<string>, rows: seq<UpdateRow>)

  datatype DeleteSpec = DeleteSpec(table: string, primaryColumn: string, ids: seq<Value>)

  /** INSERT INTO table (columns) VALUES (...), (...) RETURNING ... */
  datatype Insert = Insert(table: string, columns: seq<string>, values: seq<seq<nat>>, returning: seq<string>)

  /** WITH data(columns) AS (VALUES ...) UPDATE table AS t SET c = data.c, ... FROM data
      WHERE t.primary = data.primary RETURNING ... */
  datatype Update = Update(
    table: string, columns: seq<string>, values: seq<seq<nat>>, sets: seq<string>, matched: string,
    returning: seq<string>)

  /** DELETE FROM table WHERE primary IN (...) */
  datatype Delete = Delete(table: string, primaryColumn: string, ids: seq<nat>)

  datatype Built<S> = Built(statement: S, args: seq<Value>)

  /** A value list of `rows` rows of one width, numbered in reading order from 1. */
  ghost predicate Numbered(values: seq<seq<nat>>, rows: nat, width: nat) {
    && |values| == rows
    && forall i :: 0 <= i < rows ==>
      |values[i]| == width && forall j :: 0 <= j < width ==> values[i][j] == 1 + i * width + j
  }

  function Flat<T>(rows: seq<seq<T>>): seq<T> {
    if rows == [] then [] else Flat(rows[..|rows| - 1]) + rows[|rows| - 1]
  }

  ghost predicate Uniform<T>(rows: seq<seq<T>>, width: nat) {
    forall i :: 0 <= i < |rows| ==> |rows[i]| == width
  }

  lemma {:induction false} FlatLength<T>(rows: seq<seq<T>>, width: nat)
    requires Uniform(rows, width)
    ensures |Flat(rows)| == |rows| * width
  {
    if rows != [] {
      FlatLength(rows[..|rows| - 1], width);
      assert |rows| * width == (|rows| - 1) * width + width;
    }
  }

  lemma {:induction false} FlatAt<T>(rows: seq<seq<T>>, width: nat, i: nat, j: nat)
    requires Uniform(rows, width) && i < |rows| && j < width
    ensures 0 <= i * width + j < |Flat(rows)| && Flat(rows)[i * width + j] == rows[i][j]
  {
    var init := rows[..|rows| - 1];
    FlatLength(init, width);
    if i < |init| {
      FlatAt(init, width, i, j);
    }
  }

  lemma FlatMore<T>(rows: seq<seq<T>>, row: seq<T>)
    ensures Flat(rows + [row]) == Flat(rows) + row
  {
    assert (rows + [row])[..|rows|] == rows;
  }

  function RowValues(row: UpdateRow): seq<Value> { [row.primary] + row.values }

  function AllValues(rows: seq<UpdateRow>): (r: seq<seq<Value>>)
    ensures |r| == |rows| && forall i :: 0 <= i < |rows| ==> r[i] == RowValues(rows[i])
  {
    seq(|rows|, i requires 0 <= i < |rows| => RowValues(rows[i]))
  }

  ghost predicate FirstBadWidth(widths: seq<nat>, expected: nat, row: nat) {
    row < |widths| && widths[row] != expected && forall i :: 0 <= i < row ==> widths[i] == expected
  }

  method BuildBulkInsertSQL(spec: InsertSpec) returns (r: Result<Built<Insert>, BuildError>)
    ensures r == Err(TableRequired) <==> spec.table == ""
    ensures r == Err(ColumnsRequired) <==> spec.table != "" && spec.columns == []
    ensures r == Err(RowsRequired) <==> spec.table != "" && spec.columns != [] && spec.rows == []
    ensures spec.table != "" && spec.columns != [] && spec.rows != [] ==>
      if Uniform(spec.rows, |spec.columns|) then
        && r.Ok? && r.value.args == Flat(spec.rows)
        && Numbered(r.value.statement.values, |spec.rows|, |spec.columns|)
        && r.value.statement == Insert(spec.table, spec.columns, r.value.statement.values, spec.returning)
      else
        && r.Err? && r.error.RowWidth?
        && FirstBadWidth(seq(|spec.rows|, i requires 0 <= i < |spec.rows| => |spec.rows[i]|), |spec.columns|,
          r.error.row)
        && r.error == RowWidth(r.error.row, |spec.rows[r.error.row]|, |spec.columns|)
  {
    if spec.table == "" { return Err(TableRequired); }
    if |spec.columns| == 0 { return Err(ColumnsRequired); }
    if |spec.rows| == 0 { return Err(RowsRequired); }
    var width := |spec.columns|;
    hide Numbered, Flat, FirstBadWidth, Uniform;
    var args: seq<Value>, values: seq<seq<nat>>, param := [], [], 1;
    NothingNumbered(spec.rows, width);
    for i := 0 to |spec.rows|
      invariant forall k :: 0 <= k < i ==> |spec.rows[k]| == width
      invariant args == Flat(spec.rows[..i]) && param == 1 + i * width
      invariant Numbered(values, i, width)
    {
      var row := spec.rows[i];
      if |row| != width {
        BadRow(spec.rows, width, i);
        return Err(RowWidth(i, |row|, width));
      }
      var placeholders: seq<nat> := [];
      for j := 0 to width
        invariant args == Flat(spec.rows[..i]) + row[..j] && param == 1 + i * width + j
        invariant |placeholders| == j && forall k :: 0 <= k < j ==> placeholders[k] == 1 + i * width + k
      {
        placeholders := placeholders + [param];
        args := args + [row[j]];
        param := param + 1;
      }
      RowDone(spec.rows, i, values, width, placeholders);
      values := values + [placeholders];
    }
    assert spec.rows[..|spec.rows|] == spec.rows;
    AllRows(spec.rows, width);
    return Ok(Built(Insert(spec.table, spec.columns, values, spec.returning), args));
  }

  lemma AllRows(rows: seq<seq<Value>>, width: nat)
    requires forall k :: 0 <= k < |rows| ==> |rows[k]| == width
    ensures Uniform(rows, width)
  {
  }

  lemma BadRow(rows: seq<seq<Value>>, expected: nat, i: nat)
    requires i < |rows| && |rows[i]| != expected && forall k :: 0 <= k < i ==> |rows[k]| == expected
    ensures !Uniform(rows, expected) && FirstBadWidth(seq(|rows|, k requires 0 <= k < |rows| => |rows[k]|), expected, i)
  {
  }

  method BuildBulkUpdateSQL(spec: UpdateSpec) returns (r: Result<Built<Update>, BuildError>)
    ensures r == Err(TableRequired) <==> spec.table == ""
    ensures r == Err(PrimaryColumnRequired) <==> spec.table != "" && spec.primaryColumn == ""
    ensures r == Err(ColumnsRequired) <==> spec.table != "" && spec.primaryColumn != "" && spec.columns == []
    ensures r == Err(RowsRequired) <==>
      spec.table != "" && spec.primaryColumn != "" && spec.columns != [] && spec.rows == []
    ensures r.Ok? ==> IsUpdate(spec, r.value)
    ensures r.Err? && r.error.RowWidth? ==>
      && FirstBadWidth(seq(|spec.rows|, i requires 0 <= i < |spec.rows| => |spec.rows[i].values|), |spec.columns|,
        r.error.row)
      && r.error == RowWidth(r.error.row, |spec.rows[r.error.row].values|, |spec.columns|)
  {
    if spec.table == "" { return Err(TableRequired); }
    if spec.primaryColumn == "" { return Err(PrimaryColumnRequired); }
    if |spec.columns| == 0 { return Err(ColumnsRequired); }
    if |spec.rows| == 0 { return Err(RowsRequired); }
    var cols := [spec.primaryColumn] + spec.columns;
    var width := |cols|;
    hide IsUpdate, Numbered, Flat, FirstBadWidth;
    ghost var rows := AllValues(spec.rows);
    var args: seq<Value>, values: seq<seq<nat>>, param := [], [], 1;
    NothingNumbered(rows, width);
    for i := 0 to |spec.rows|
      invariant forall k :: 0 <= k < i ==> |spec.rows[k].values| == |spec.columns|
      invariant args == Flat(rows[..i]) && param == 1 + i * width
      invariant Numbered(values, i, width)
    {
      var row := spec.rows[i];
      if |row.values| != |spec.columns| {
        BadWidth(spec.rows, |spec.columns|, i);
        return Err(RowWidth(i, |row.values|, |spec.columns|));
      }
      var placeholders, more := PlaceRow(row, param);
      args := args + more;
      param := param + width;
      assert more == rows[i][..width];
      RowDone(rows, i, values, width, placeholders);
      values := values + [placeholders];
    }
    assert rows[..|spec.rows|] == rows;
    var built := Built(Update(spec.table, cols, values, spec.columns, spec.primaryColumn, spec.returning), args);
    MakeUpdate(spec, built);
    return Ok(built);
  }

  /** The inner loop: a placeholder for the primary, then one for each value. */
  method PlaceRow(row: UpdateRow, first: nat) returns (placeholders: seq<nat>, args: seq<Value>)
    ensures args == RowValues(row)
    ensures |placeholders| == |args| && forall k :: 0 <= k < |placeholders| ==> placeholders[k] == first + k
  {
    var param := first;
    placeholders := [param];
    args := [row.primary];
    param := param + 1;
    for j := 0 to |row.values|
      invariant args == [row.primary] + row.values[..j] && param == first + 1 + j
      invariant |placeholders| == j + 1 && forall k :: 0 <= k < j + 1 ==> placeholders[k] == first + k
    {
      placeholders := placeholders + [param];
      args := args + [row.values[j]];
      param := param + 1;
    }
    assert row.values[..|row.values|] == row.values;
  }

  lemma NothingNumbered(rows: seq<seq<Value>>, width: nat)
    ensures Flat(rows[..0]) == [] && Numbered([], 0, width)
  {
  }

  lemma BadWidth(rows: seq<UpdateRow>, expected: nat, i: nat)
    requires i < |rows| && |rows[i].values| != expected && forall k :: 0 <= k < i ==> |rows[k].values| == expected
    ensures FirstBadWidth(seq(|rows|, k requires 0 <= k < |rows| => |rows[k].values|), expected, i)
  {
  }

  lemma RowDone(rows: seq<seq<Value>>, i: nat, values: seq<seq<nat>>, width: nat, placeholders: seq<nat>)
    requires i < |rows| && |rows[i]| == |placeholders| == width && Numbered(values, i, width)
    requires forall k :: 0 <= k < width ==> placeholders[k] == 1 + i * width + k
    ensures Flat(rows[..i + 1]) == Flat(rows[..i]) + rows[i][..width]
    ensures Numbered(values + [placeholders], i + 1, width) && (i + 1) * width == i * width + width
  {
    assert rows[..i + 1] == rows[..i] + [rows[i]] && rows[i][..width] == rows[i];
    FlatMore(rows[..i], rows[i]);
  }

  lemma MakeUpdate(spec: UpdateSpec, built: Built<Update>)
    requires forall i :: 0 <= i < |spec.rows| ==> |spec.rows[i].values| == |spec.columns|
    requires built.args == Flat(AllValues(spec.rows))
    requires Numbered(built.statement.values, |spec.rows|, |spec.columns| + 1)
    requires built.statement
      == Update(spec.table, [spec.primaryColumn] + spec.columns, built.statement.values, spec.columns,
        spec.primaryColumn, spec.returning)
    ensures IsUpdate(spec, built)
  {
  }

  /** A statement with its arguments as built from an accepted specification. */
  ghost predicate IsUpdate(spec: UpdateSpec, built: Built<Update>) {
    var width := |spec.columns| + 1;
    && (forall i :: 0 <= i < |spec.rows| ==> |spec.rows[i].values| == |spec.columns|)
    && built.args == Flat(AllValues(spec.rows))
    && Numbered(built.statement.values, |spec.rows|, width)
    && built.statement
      == Update(spec.table, [spec.primaryColumn] + spec.columns, built.statement.values, spec.columns,
        spec.primaryColumn, spec.returning)
  }

  method BuildBulkDeleteSQL(spec: DeleteSpec) returns (r: Result<Built<Delete>, BuildError>)
    ensures r == Err(TableRequired) <==> spec.table == ""
    ensures r == Err(PrimaryColumnRequired) <==> spec.table != "" && spec.primaryColumn == ""
    ensures r == Err(RowsRequired) <==> spec.table != "" && spec.primaryColumn != "" && spec.ids == []
    ensures r.Ok? <==> spec.table != "" && spec.primaryColumn != "" && spec.ids != []
    ensures r.Ok? ==> r.value.args == spec.ids && Numbered([r.value.statement.ids], 1, |spec.ids|)
    ensures r.Ok? ==> r.value.statement == Delete(spec.table, spec.primaryColumn, r.value.statement.ids)
  {
    if spec.table == "" { return Err(TableRequired); }
    if spec.primaryColumn == "" { return Err(PrimaryColumnRequired); }
    if |spec.ids| == 0 { return Err(RowsRequired); }
    var placeholders: seq<nat>, args: seq<Value> := [], [];
    for i := 0 to |spec.ids|
      invariant args == spec.ids[..i]
      invariant |placeholders| == i && forall k :: 0 <= k < i ==> placeholders[k] == 1 + k
    {
      placeholders := placeholders + [i + 1];
      args := args + [spec.ids[i]];
    }
    assert args == spec.ids;
    return Ok(Built(Delete(spec.table, spec.primaryColumn, placeholders), args));
  }

  // What the placeholders stand for

  /** The value that a placeholder stands for. */
  function Bound(args: seq<Value>, placeholder: nat): Value
    requires 1 <= placeholder <= |args|
  {
    args[placeholder - 1]
  }

  /** Numbered in reading order, the placeholders of a value list stand for the values in place,
      and there are as many arguments as placeholders. */
  lemma PlaceholdersInPlace(rows: seq<seq<Value>>, values: seq<seq<nat>>, width: nat)
    requires Uniform(rows, width) && Numbered(values, |rows|, width)
    ensures |Flat(rows)| == |rows| * width
    ensures forall i, j {:trigger values[i][j]} :: 0 <= i < |rows| && 0 <= j < width ==>
      1 <= values[i][j] <= |Flat(rows)| && Bound(Flat(rows), values[i][j]) == rows[i][j]
  {
    FlatLength(rows, width);
    forall i, j | 0 <= i < |rows| && 0 <= j < width
      ensures 1 <= values[i][j] <= |Flat(rows)| && Bound(Flat(rows), values[i][j]) == rows[i][j]
    {
      FlatAt(rows, width, i, j);
    }
  }

  // What a bulk update does

  type Cells = map<string, Value>

  /** A table by the values of the primary column. */
  type Table = map<Value, Cells>

  /** The value of the named column in a row with the given columns. */
  function Column(columns: seq<string>, row: seq<Value>, name: string): Value
    requires name in columns && |row| == |columns|
  {
    if columns[0] == name then row[0] else Column(columns[1..], row[1..], name)
  }

  function Assign(columns: seq<string>, row: seq<Value>, names: seq<string>, cells: Cells): Cells
    requires |row| == |columns| && forall n :: n in names ==> n in columns
  {
    map n | n in cells.Keys + (set m | m in names) :: if n in names then Column(columns, row, n) else cells[n]
  }

  /** UPDATE table SET columns = values WHERE primary = row.primary */
  function UpdateOne(columns: seq<string>, row: UpdateRow, t: Table): Table
    requires |row.values| == |columns|
  {
    if row.primary in t then t[row.primary := Assign(columns, row.values, columns, t[row.primary])] else t
  }

  function RowByRow(columns: seq<string>, rows: seq<UpdateRow>, t: Table): Table
    requires forall i :: 0 <= i < |rows| ==> |rows[i].values| == |columns|
  {
    if rows == [] then t else UpdateOne(columns, rows[|rows| - 1], RowByRow(columns, rows[..|rows| - 1], t))
  }

  ghost predicate WellNumbered(built: Built<Update>) {
    forall row :: row in built.statement.values ==>
      |row| == |built.statement.columns| && forall p :: p in row ==> 1 <= p <= |built.args|
  }

  /** Row i of the relation `data`. */
  function Data(built: Built<Update>, i: nat): (r: seq<Value>)
    requires WellNumbered(built) && i < |built.statement.values|
    ensures |r| == |built.statement.columns|
  {
    var row := built.statement.values[i];
    assert row in built.statement.values;
    seq(|row|, j requires 0 <= j < |row| => assert row[j] in row; Bound(built.args, row[j]))
  }

  ghost predicate Statement(u: Update) {
    u.matched in u.columns && forall n :: n in u.sets ==> n in u.columns
  }

  ghost predicate MatchesData(built: Built<Update>, i: nat, p: Value)
    requires WellNumbered(built) && Statement(built.statement)
  {
    i < |built.statement.values| && Column(built.statement.columns, Data(built, i), built.statement.matched) == p
  }

  /** What the statement may do: a row that matches rows of `data` is updated from one of them,
      whichever the database picks; other rows stay. */
  ghost predicate Effect(built: Built<Update>, t: Table, t': Table)
    requires WellNumbered(built) && Statement(built.statement)
  {
    t'.Keys == t.Keys && forall p :: p in t ==> EffectAt(built, p, t[p], t'[p])
  }

  ghost predicate EffectAt(built: Built<Update>, p: Value, cells: Cells, cells': Cells)
    requires WellNumbered(built) && Statement(built.statement)
  {
    if exists i :: MatchesData(built, i, p) then
      exists i ::
        MatchesData(built, i, p)
          && cells' == Assign(built.statement.columns, Data(built, i), built.statement.sets, cells)
    else cells' == cells
  }
}
