/** The SELECT and aggregate builders of the ORM runtime (orm/runtime/query.go). */
module SelectBuilder {
  import opened Results
  import opened SqlBuilders

  datatype Predicate = Predicate(column: string, operator: string, value: Value)

  datatype Order = Order(column: string, direction: string)

  datatype SelectSpec = SelectSpec(
    table: string, columns: seq<string>, predicates: seq<Predicate>, orders: seq<Order>, limit: int, offset: int)

  datatype AggregateSpec = AggregateSpec(table: string, predicates: seq<Predicate>, func: string, column: string)

  /** `column operator $placeholder` */
  datatype Condition = Condition(column: string, operator: string, placeholder: nat)

  /** SELECT columns FROM table WHERE ... AND ... ORDER BY ... LIMIT $n OFFSET $m */
  datatype Select = Select(
    columns: seq<string>, table: string, where_: seq<Condition>, orders: seq<Order>, limit: Option<nat>,
    offset: Option<nat>)

  datatype AggregateQuery = AggregateQuery(func: string, column: string, table: string, where_: seq<Condition>)

  /** The placeholders of the conditions, in the order of the text. */
  function ConditionNumbers(conditions: seq<Condition>): (r: seq<nat>)
    ensures |r| == |conditions| && forall i :: 0 <= i < |r| ==> r[i] == conditions[i].placeholder
  {
    seq(|conditions|, i requires 0 <= i < |conditions| => conditions[i].placeholder)
  }

  function Given(n: Option<nat>): seq<nat> { if n.Some? then [n.value] else [] }

  /** All placeholders in the order of the text. */
  function Numbers(s: Select): seq<nat> {
    ConditionNumbers(s.where_) + Given(s.limit) + Given(s.offset)
  }

  function UpTo(n: nat): (r: seq<nat>)
    ensures |r| == n && forall i :: 0 <= i < n ==> r[i] == i + 1
  {
    seq(n, i => i + 1)
  }

  /** Each condition compares the column of its predicate with the value of its predicate. */
  ghost predicate Compares(conditions: seq<Condition>, args: seq<Value>, predicates: seq<Predicate>) {
    && |conditions| == |predicates|
    && forall i :: 0 <= i < |predicates| ==>
      && conditions[i].column == predicates[i].column && conditions[i].operator == predicates[i].operator
      && 1 <= conditions[i].placeholder <= |args| && Bound(args, conditions[i].placeholder) == predicates[i].value
  }

  /** The placeholder is there exactly for a positive number, and stands for it. */
  ghost predicate StandsFor(placeholder: Option<nat>, args: seq<Value>, n: int) {
    && (placeholder.Some? <==> n > 0)
    && (placeholder.Some? ==> 1 <= placeholder.value <= |args| && Bound(args, placeholder.value) == Number(n))
  }

  /** The WHERE clause that both builders write. */
  method Conditions(predicates: seq<Predicate>) returns (conditions: seq<Condition>, args: seq<Value>, param: nat)
    ensures Compares(conditions, args, predicates)
    ensures ConditionNumbers(conditions) == UpTo(|args|) && |args| == |predicates| && param == |args| + 1
  {
    conditions, args, param := [], [], 1;
    for i := 0 to |predicates|
      invariant |conditions| == |args| == i && param == i + 1
      invariant forall k :: 0 <= k < i ==>
        conditions[k] == Condition(predicates[k].column, predicates[k].operator, k + 1)
      invariant forall k :: 0 <= k < i ==> args[k] == predicates[k].value
    {
      conditions := conditions + [Condition(predicates[i].column, predicates[i].operator, param)];
      args := args + [predicates[i].value];
      param := param + 1;
    }
  }

  /** Placeholders number the arguments 1, 2, ... in the order of the text, each for its value. */
  method BuildSelectSQL(spec: SelectSpec) returns (s: Select, args: seq<Value>)
    ensures Numbers(s) == UpTo(|args|)
    ensures Compares(s.where_, args, spec.predicates)
    ensures StandsFor(s.limit, args, spec.limit) && StandsFor(s.offset, args, spec.offset)
    ensures s.columns == (if spec.columns == [] then ["*"] else spec.columns) && s.table == spec.table
    ensures s.orders == spec.orders
  {
    var columns := if |spec.columns| == 0 then ["*"] else spec.columns;
    var conditions, values, param := Conditions(spec.predicates);
    args := values;
    var limit, offset: Option<nat> := None, None;
    if spec.limit > 0 {
      limit := Some(param);
      args := args + [Number(spec.limit)];
      param := param + 1;
    }
    if spec.offset > 0 {
      offset := Some(param);
      args := args + [Number(spec.offset)];
    }
    s := Select(columns, spec.table, conditions, spec.orders, limit, offset);
    assert forall i :: 0 <= i < |args| ==> Numbers(s)[i] == UpTo(|args|)[i] by {
      assert forall i :: 0 <= i < |values| ==> ConditionNumbers(conditions)[i] == UpTo(|values|)[i];
    }
  }

  method BuildAggregateSQL(spec: AggregateSpec) returns (q: AggregateQuery, args: seq<Value>)
    ensures ConditionNumbers(q.where_) == UpTo(|args|)
    ensures Compares(q.where_, args, spec.predicates)
    ensures q.func == spec.func && q.column == (if spec.column == "" then "*" else spec.column) && q.table == spec.table
  {
    var column := if spec.column == "" then "*" else spec.column;
    var conditions, values, _ := Conditions(spec.predicates);
    return AggregateQuery(spec.func, column, spec.table, conditions), values;
  }
}
