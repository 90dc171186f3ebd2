/**
 buildRollupAggregationQuery of src/modules/aggregation/log-aggregation-repository.ts: the WHERE text of the
 rollup query and the values bound to its placeholders. The text is parsed by module SqlText, and its columns
 and operators are evaluated on a row of the rollup table.
 */
module RollupQuery {
  import opened Prelude
  import opened Decimal
  import opened LogEntry
  import opened MinuteRollup
  import opened LogAggregation
  import opened SqlText

  datatype Value = InstantValue(instant: int) | TextValue(text: string)

  // ---------------------------------------------------------------- evaluating the text

  function Bound(values: seq<Value>, placeholder: nat): Option<Value> {
    if 1 <= placeholder <= |values| then Some(values[placeholder - 1]) else None
  }

  /** One condition on a row of the rollup table; nothing when the database would not accept it. */
  function Eval(c: Condition, values: seq<Value>, cell: Cell): Option<bool> {
    if c.escape then None else
    match Bound(values, c.parameter.placeholder)
    case Some(InstantValue(t)) =>
      if c.column != "logs.bucket_start" || c.parameter.cast != "timestamptz" then None
      else Compare(c.operator, cell.bucketStart, t)
    case Some(TextValue(s)) =>
      if c.operator != "=" || c.parameter.cast != "" then None
      else if c.column == "logs.service" then Some(cell.service == s)
      else if c.column == "logs.level" then Some(LevelText(cell.level) == s)
      else None
    case None => None
  }

  function EvalAll(conditions: seq<Condition>, values: seq<Value>, cell: Cell): Option<bool> {
    if conditions == [] then Some(true) else
    var last := Eval(conditions[|conditions| - 1], values, cell);
    var front := EvalAll(conditions[..|conditions| - 1], values, cell);
    if last.None? || front.None? then None else Some(front.value && last.value)
  }

  function ParseWhere(where: string): Option<seq<Condition>> {
    var p := ParseConjunction(where);
    if p.NoParse? || p.rest != "" then None else Some(p.value)
  }

  /** The value of the WHERE text with its bound values on one row of the rollup table. */
  function EvalWhere(where: string, values: seq<Value>, cell: Cell): Option<bool> {
    var conditions := ParseWhere(where);
    if conditions.None? then None else EvalAll(conditions.value, values, cell)
  }

  // ---------------------------------------------------------------- what the clauses say

  /** A condition and the value bound to its placeholder hold of the cells with that property. */
  ghost predicate Says(c: Condition, values: seq<Value>, holds: Cell -> bool) {
    && IsPlainCondition(c) && c.parameter.placeholder == |values|
    && forall cell :: Eval(c, values, cell) == Some(holds(cell))
  }

  const START_AT_LEAST := Condition("logs.bucket_start", ">=", Parameter(1, "timestamptz"), false)
  const START_BEFORE := Condition("logs.bucket_start", "<", Parameter(2, "timestamptz"), false)

  lemma RangeTexts()
    ensures "logs.bucket_start >= $1::timestamptz" == PrintCondition(START_AT_LEAST)
    ensures "logs.bucket_start < $2::timestamptz" == PrintCondition(START_BEFORE)
  {
    assert Show(1) == "1" && Show(2) == "2";
  }

  lemma RangeSays(since: int, until: int)
    ensures IsPlainCondition(START_AT_LEAST) && IsPlainCondition(START_BEFORE)
    ensures Mean([START_AT_LEAST, START_BEFORE], [InstantValue(since), InstantValue(until)], since, until, None, None)
  {
    var conditions, values := [START_AT_LEAST, START_BEFORE], [InstantValue(since), InstantValue(until)];
    assert conditions[..1] == [START_AT_LEAST] && conditions[..1][..0] == [];
    forall cell: Cell ensures EvalAll(conditions, values, cell)
        == Some(since <= cell.bucketStart && cell.bucketStart < until)
    {
      OperatorsDiffer(cell.bucketStart, since);
      OperatorsDiffer(cell.bucketStart, until);
      assert EvalAll(conditions[..1], values, cell) == Some(since <= cell.bucketStart);
    }
  }

  function TextCondition(column: string, n: nat): Condition {
    Condition(column, "=", Parameter(n, ""), false)
  }

  lemma TextClause(opening: string, column: string, n: nat)
    requires opening == column + " " + "=" + " " + "$"
    ensures opening + Show(n) == PrintCondition(TextCondition(column, n))
  {
    hide Show;
    assert "$" + Show(n) + "" == "$" + Show(n);
    var text := column + " " + "=" + " " + ("$" + Show(n));
    assert text + "" == text;
  }

  lemma PlainText(column: string, n: nat)
    requires IsWord(column, ' ')
    ensures IsPlainCondition(TextCondition(column, n))
  {
  }

  lemma ServiceText(n: nat)
    ensures "logs.service = $" + Show(n) == PrintCondition(TextCondition("logs.service", n))
  {
    hide Show, PrintCondition, TextCondition;
    assert "logs.service = $" == "logs.service" + " " + "=" + " " + "$";
    TextClause("logs.service = $", "logs.service", n);
  }

  lemma LevelClause(n: nat)
    ensures "logs.level = $" + Show(n) == PrintCondition(TextCondition("logs.level", n))
  {
    hide Show, PrintCondition, TextCondition;
    assert "logs.level = $" == "logs.level" + " " + "=" + " " + "$";
    TextClause("logs.level = $", "logs.level", n);
  }

  lemma ServiceSays(values: seq<Value>, service: string)
    ensures Says(TextCondition("logs.service", |values| + 1), values + [TextValue(service)],
                 (cell: Cell) => cell.service == service)
  {
    hide LevelText, IsPlainCondition, Bound;
    PlainText("logs.service", |values| + 1);
    LastIsBound(values, TextValue(service));
  }

  lemma LevelSays(values: seq<Value>, level: Level)
    ensures Says(TextCondition("logs.level", |values| + 1), values + [TextValue(LevelText(level))],
                 (cell: Cell) => cell.level == level)
  {
    hide LevelText, IsPlainCondition, Bound;
    PlainText("logs.level", |values| + 1);
    LastIsBound(values, TextValue(LevelText(level)));
    forall cell: Cell ensures LevelText(cell.level) == LevelText(level) <==> cell.level == level {
      LevelTextIsExact(cell.level, level);
    }
  }

  lemma LastIsBound(values: seq<Value>, value: Value)
    ensures Bound(values + [value], |values| + 1) == Some(value)
  {
  }

  // ---------------------------------------------------------------- building

  /** A further value leaves the conditions built so far as they are. */
  lemma {:induction false} MoreValues(conditions: seq<Condition>, values: seq<Value>, value: Value, cell: Cell)
    requires EvalAll(conditions, values, cell).Some?
    ensures EvalAll(conditions, values + [value], cell) == EvalAll(conditions, values, cell)
  {
    hide Compare, LevelText;
    if conditions != [] {
      MoreValues(conditions[..|conditions| - 1], values, value, cell);
    }
  }

  lemma OneMoreCondition(conditions: seq<Condition>, values: seq<Value>, c: Condition, value: Value, cell: Cell,
                         holds: Cell -> bool)
    requires EvalAll(conditions, values, cell).Some? && Says(c, values + [value], holds)
    ensures EvalAll(conditions + [c], values + [value], cell)
         == Some(EvalAll(conditions, values, cell).value && holds(cell))
  {
    hide Eval;
    MoreValues(conditions, values, value, cell);
    assert (conditions + [c])[..|conditions|] == conditions;
  }

  /** The conditions hold of the cells in the range that have the service and the level, if these are given. */
  ghost predicate Mean(conditions: seq<Condition>, values: seq<Value>, since: int, until: int,
                       service: Option<string>, level: Option<Level>) {
    forall cell :: EvalAll(conditions, values, cell) ==
      Some(since <= cell.bucketStart && cell.bucketStart < until
           && (service.Some? ==> cell.service == service.value) && (level.Some? ==> cell.level == level.value))
  }

  /** The clauses pushed so far are these conditions, with placeholders $1 to $n. */
  ghost predicate Built(clauses: seq<string>, values: seq<Value>, conditions: seq<Condition>) {
    && clauses == Printed(conditions) && |conditions| == |values| && conditions != []
    && (forall c :: c in conditions ==> IsPlainCondition(c))
    && forall i :: 0 <= i < |conditions| ==> conditions[i].parameter.placeholder == i + 1
  }

  lemma BuiltRange(since: int, until: int)
    ensures Built(["logs.bucket_start >= $1::timestamptz", "logs.bucket_start < $2::timestamptz"],
                  [InstantValue(since), InstantValue(until)], [START_AT_LEAST, START_BEFORE])
  {
    hide PrintCondition;
    RangeTexts();
    RangeSays(since, until);
  }

  lemma BuiltMore(clauses: seq<string>, values: seq<Value>, conditions: seq<Condition>, c: Condition, value: Value)
    requires Built(clauses, values, conditions)
    requires IsPlainCondition(c) && c.parameter.placeholder == |values| + 1
    ensures Built(clauses + [PrintCondition(c)], values + [value], conditions + [c])
  {
    hide PrintCondition, IsPlainCondition;
  }

  /**
   The WHERE text, evaluated with its bound values, holds of exactly the cells the query asks for, and its
   placeholders are $1 to $n in order.
   */
  method BuildRollupAggregationQuery(query: Query) returns (where: string, values: seq<Value>)
    requires HasRange(query) && CanUseRollup(query.filters)
    ensures forall cell :: EvalWhere(where, values, cell) == Some(CellMatches(query, cell))
    ensures var conditions := ParseWhere(where);
            && conditions.Some? && |conditions.value| == |values|
            && forall i :: 0 <= i < |values| ==> conditions.value[i].parameter.placeholder == i + 1
  {
    hide PrintCondition, ParseWhere, EvalAll, Eval, LevelText, JoinAnd, Mean, Built, Says, TextCondition, Show;
    var filters := query.filters;
    values := [InstantValue(filters.since.value), InstantValue(filters.until.value)];
    var clauses := ["logs.bucket_start >= $1::timestamptz", "logs.bucket_start < $2::timestamptz"];
    ghost var conditions := [START_AT_LEAST, START_BEFORE];
    BuiltRange(filters.since.value, filters.until.value);
    RangeSays(filters.since.value, filters.until.value);
    if filters.service.Some? {
      ServiceMeans(clauses, values, conditions, filters.since.value, filters.until.value, filters.service.value);
      conditions := conditions + [TextCondition("logs.service", |values| + 1)];
      values := values + [TextValue(filters.service.value)];
      clauses := clauses + ["logs.service = $" + Show(|values|)];
    }
    if filters.level.Some? {
      LevelMeans(clauses, values, conditions, query);
      conditions := conditions + [TextCondition("logs.level", |values| + 1)];
      values := values + [TextValue(LevelText(filters.level.value))];
      clauses := clauses + ["logs.level = $" + Show(|values|)];
    }
    where := JoinBuilt(clauses, values, conditions);
    MeansMatches(where, conditions, values, query);
  }

  method JoinBuilt(clauses: seq<string>, values: seq<Value>, ghost conditions: seq<Condition>) returns (where: string)
    requires Built(clauses, values, conditions)
    ensures ParseWhere(where) == Some(conditions) && |conditions| == |values|
    ensures forall i :: 0 <= i < |values| ==> conditions[i].parameter.placeholder == i + 1
  {
    hide PrintCondition, ParseConjunction, JoinAnd, IsPlainCondition;
    where := JoinAnd(clauses);
    ConjunctionParses(conditions, "");
    assert where + "" == where;
  }

  lemma ServiceMeans(clauses: seq<string>, values: seq<Value>, conditions: seq<Condition>,
                     since: int, until: int, service: string)
    requires Built(clauses, values, conditions) && Mean(conditions, values, since, until, None, None)
    ensures var n, more := |values| + 1, values + [TextValue(service)];
            && Built(clauses + ["logs.service = $" + Show(n)], more, conditions + [TextCondition("logs.service", n)])
            && Mean(conditions + [TextCondition("logs.service", n)], more, since, until, Some(service), None)
  {
    hide EvalAll, Eval, Show, PrintCondition, TextCondition, Built;
    var c := TextCondition("logs.service", |values| + 1);
    ServiceSays(values, service);
    ServiceText(|values| + 1);
    PlaceholderOf("logs.service", |values| + 1);
    BuiltMore(clauses, values, conditions, c, TextValue(service));
    forall cell: Cell
      ensures EvalAll(conditions + [c], values + [TextValue(service)], cell)
           == Some(since <= cell.bucketStart && cell.bucketStart < until && cell.service == service)
    {
      OneMoreCondition(conditions, values, c, TextValue(service), cell, (cell: Cell) => cell.service == service);
    }
  }

  lemma PlaceholderOf(column: string, n: nat)
    ensures TextCondition(column, n).parameter.placeholder == n
  {
  }

  lemma LevelMeans(clauses: seq<string>, values: seq<Value>, conditions: seq<Condition>, query: Query)
    requires HasRange(query) && query.filters.level.Some? && Built(clauses, values, conditions)
    requires Mean(conditions, values, query.filters.since.value, query.filters.until.value, query.filters.service, None)
    ensures var n, more := |values| + 1, values + [TextValue(LevelText(query.filters.level.value))];
            && Built(clauses + ["logs.level = $" + Show(n)], more, conditions + [TextCondition("logs.level", n)])
            && Mean(conditions + [TextCondition("logs.level", n)], more, query.filters.since.value,
                 query.filters.until.value, query.filters.service, query.filters.level)
  {
    hide EvalAll, Eval, Show, PrintCondition, TextCondition, Built, LevelText;
    var c, level := TextCondition("logs.level", |values| + 1), query.filters.level.value;
    LevelSays(values, level);
    LevelClause(|values| + 1);
    PlaceholderOf("logs.level", |values| + 1);
    BuiltMore(clauses, values, conditions, c, TextValue(LevelText(level)));
    forall cell: Cell
      ensures EvalAll(conditions + [c], values + [TextValue(LevelText(level))], cell)
           == Some(EvalAll(conditions, values, cell).value && cell.level == level)
    {
      OneMoreCondition(conditions, values, c, TextValue(LevelText(level)), cell, (cell: Cell) => cell.level == level);
    }
  }

  lemma MeansMatches(where: string, conditions: seq<Condition>, values: seq<Value>, query: Query)
    requires HasRange(query) && ParseWhere(where) == Some(conditions)
    requires Mean(conditions, values, query.filters.since.value, query.filters.until.value, query.filters.service,
      query.filters.level)
    ensures forall cell :: EvalWhere(where, values, cell) == Some(CellMatches(query, cell))
  {
    hide EvalAll, ParseWhere;
  }
}
