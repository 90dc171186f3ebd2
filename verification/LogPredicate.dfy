/**
 src/modules/query/log-predicate-builder.ts and buildPageQuery of log-query-repository.ts: filters and
 a cursor position become the text of a WHERE clause with numbered placeholders, and the list of
 values bound to them. The text is parsed by module SqlText, and its columns, operators and casts are evaluated.
 */
module LogPredicate {
  import opened Prelude
  import opened Decimal
  import opened Text
  import opened LogEntry
  import opened LikePattern
  import opened SqlText

  /** What a bound value is after its cast. The JSON of an attribute filter is its one key and value. */
  datatype SqlValue =
    | TextValue(text: string)
    | InstantValue(instant: int)
    | JsonValue(key: string, value: string)
    | IdValue(id: nat)
    | IntegerValue(n: nat)

  datatype SqlPredicate = SqlPredicate(text: string, values: seq<SqlValue>)

  // ---------------------------------------------------------------- building

  datatype Kind = ServiceIs | LevelIs | Since | Until | AttributeIs | MessageLike

  function Opening(kind: Kind): string {
    match kind
    case ServiceIs => "service = $"
    case LevelIs => "level = $"
    case Since => "\"timestamp\" >= $"
    case Until => "\"timestamp\" < $"
    case AttributeIs => "attributes_search @> $"
    case MessageLike => "message ILIKE $"
  }

  function Closing(kind: Kind): string {
    match kind
    case ServiceIs => "::text"
    case LevelIs => "::text"
    case Since => "::timestamptz"
    case Until => "::timestamptz"
    case AttributeIs => "::jsonb"
    case MessageLike => "::text ESCAPE E'\\\\'"
  }

  function ClauseText(kind: Kind, placeholder: nat): string {
    Opening(kind) + Show(placeholder) + Closing(kind)
  }

  /** One condition of the filters with the value bound to its placeholder. */
  datatype Term = Term(kind: Kind, value: SqlValue)

  function AttributeTerms(attributes: seq<AttributeFilter>): seq<Term> {
    seq(|attributes|, i requires 0 <= i < |attributes| =>
      Term(AttributeIs, JsonValue(attributes[i].key, attributes[i].value)))
  }

  function ScalarTerms(filters: Filters): seq<Term> {
    (if filters.service.Some? then [Term(ServiceIs, TextValue(filters.service.value))] else [])
    + (if filters.level.Some? then [Term(LevelIs, TextValue(LevelText(filters.level.value)))] else [])
    + (if filters.since.Some? then [Term(Since, InstantValue(filters.since.value))] else [])
    + (if filters.until.Some? then [Term(Until, InstantValue(filters.until.value))] else [])
  }

  function Terms(filters: Filters): seq<Term> {
    ScalarTerms(filters)
    + AttributeTerms(filters.attributes)
    + (if filters.q.Some? then [Term(MessageLike, TextValue(SearchPattern(filters.q.value)))] else [])
  }

  function ClausesFrom(terms: seq<Term>, first: nat): seq<string> {
    seq(|terms|, i requires 0 <= i < |terms| => ClauseText(terms[i].kind, first + i))
  }

  function Values(terms: seq<Term>): seq<SqlValue> {
    seq(|terms|, i requires 0 <= i < |terms| => terms[i].value)
  }

  function PredicateOf(filters: Filters): SqlPredicate {
    var terms := Terms(filters);
    SqlPredicate(if terms == [] then "TRUE" else JoinAnd(ClausesFrom(terms, 1)), Values(terms))
  }

  /** The state of the builder: the clauses and values of the terms bound so far. */
  ghost predicate Bound(clauses: seq<string>, values: seq<SqlValue>, terms: seq<Term>) {
    clauses == ClausesFrom(terms, 1) && values == Values(terms)
  }

  /** `bind`: push the value, then the clause with the placeholder of that value. */
  method Bind(clauses: seq<string>, values: seq<SqlValue>, kind: Kind, value: SqlValue, ghost terms: seq<Term>)
    returns (clauses': seq<string>, values': seq<SqlValue>)
    requires Bound(clauses, values, terms)
    ensures Bound(clauses', values', terms + [Term(kind, value)])
  {
    values' := values + [value];
    clauses' := clauses + [ClauseText(kind, |values'|)];
  }

  lemma NothingBound()
    ensures Bound([], [], [])
  {
  }

  method BuildLogPredicate(filters: Filters) returns (p: SqlPredicate)
    ensures p == PredicateOf(filters)
  {
    hide ClauseText, SearchPattern, Bound, JoinAnd, LevelText;
    var clauses: seq<string>, values: seq<SqlValue> := [], [];
    ghost var terms: seq<Term> := [];
    NothingBound();
    if filters.service.Some? {
      clauses, values := Bind(clauses, values, ServiceIs, TextValue(filters.service.value), terms);
      terms := terms + [Term(ServiceIs, TextValue(filters.service.value))];
    }
    if filters.level.Some? {
      clauses, values := Bind(clauses, values, LevelIs, TextValue(LevelText(filters.level.value)), terms);
      terms := terms + [Term(LevelIs, TextValue(LevelText(filters.level.value)))];
    }
    if filters.since.Some? {
      clauses, values := Bind(clauses, values, Since, InstantValue(filters.since.value), terms);
      terms := terms + [Term(Since, InstantValue(filters.since.value))];
    }
    if filters.until.Some? {
      clauses, values := Bind(clauses, values, Until, InstantValue(filters.until.value), terms);
      terms := terms + [Term(Until, InstantValue(filters.until.value))];
    }
    assert terms == ScalarTerms(filters);
    clauses, values := BindAttributes(filters.attributes, clauses, values, terms);
    terms := terms + AttributeTerms(filters.attributes);
    if filters.q.Some? {
      clauses, values := Bind(clauses, values, MessageLike, TextValue(SearchPattern(filters.q.value)), terms);
      terms := terms + [Term(MessageLike, TextValue(SearchPattern(filters.q.value)))];
    }
    assert terms == Terms(filters);
    BoundClauses(clauses, values, terms);
    p := SqlPredicate(if |clauses| == 0 then "TRUE" else JoinAnd(clauses), values);
  }

  lemma BoundClauses(clauses: seq<string>, values: seq<SqlValue>, terms: seq<Term>)
    requires Bound(clauses, values, terms)
    ensures clauses == ClausesFrom(terms, 1) && values == Values(terms) && |clauses| == |terms|
  {
  }

  method BindAttributes(attributes: seq<AttributeFilter>, clauses: seq<string>, values: seq<SqlValue>,
                        ghost terms: seq<Term>)
    returns (clauses': seq<string>, values': seq<SqlValue>)
    requires Bound(clauses, values, terms)
    ensures Bound(clauses', values', terms + AttributeTerms(attributes))
  {
    hide Bound;
    clauses', values' := clauses, values;
    assert terms + AttributeTerms([]) == terms;
    assert attributes[..0] == [];
    for i := 0 to |attributes|
      invariant Bound(clauses', values', terms + AttributeTerms(attributes[..i]))
    {
      var value := JsonValue(attributes[i].key, attributes[i].value);
      clauses', values' := Bind(clauses', values', AttributeIs, value, terms + AttributeTerms(attributes[..i]));
      assert terms + AttributeTerms(attributes[..i + 1]) ==
        terms + AttributeTerms(attributes[..i]) + [Term(AttributeIs, value)];
    }
    assert attributes[..|attributes|] == attributes;
  }

  // ---------------------------------------------------------------- parsing the text

  datatype Where = Where(conditions: seq<Condition>, keyset: Option<RowComparison>)

  function ParseHead(text: string): Parse<seq<Condition>> {
    if StartsWith(text, "TRUE") then Parsed([], text[4..]) else ParseConjunction(text)
  }

  function ParseWhere(text: string): Option<Where> {
    var head := ParseHead(text);
    if head.NoParse? then None
    else if head.rest == "" then Some(Where(head.value, None))
    else
      var behind := Skip(head.rest, "\n  AND ");
      if behind.None? then None else
      var keyset := ParseRowComparison(behind.value);
      if keyset.NoParse? || keyset.rest != "" then None else Some(Where(head.value, Some(keyset.value)))
  }

  // ---------------------------------------------------------------- evaluating it

  function Lookup(values: seq<SqlValue>, placeholder: nat): Option<SqlValue> {
    if 1 <= placeholder <= |values| then Some(values[placeholder - 1]) else None
  }

  /** One condition on a row of the log table; nothing when the database would not accept it. */
  function EvalCondition(fold: Folding, c: Condition, values: seq<SqlValue>, log: Log): Option<bool> {
    if c.escape && c.operator != "ILIKE" then None else
    match Lookup(values, c.parameter.placeholder)
    case Some(TextValue(text)) =>
      if c.parameter.cast != "text" then None
      else if c.operator == "ILIKE" then EvalPattern(fold, c, text, log)
      else if c.operator != "=" then None
      else if c.column == "service" then Some(log.service == text)
      else if c.column == "level" then Some(LevelText(log.level) == text)
      else if c.column == "message" then Some(log.message == text)
      else None
    case Some(InstantValue(instant)) =>
      if c.column != "\"timestamp\"" || c.parameter.cast != "timestamptz" then None
      else Compare(c.operator, log.timestamp, instant)
    case Some(JsonValue(key, value)) =>
      if c.column != "attributes_search" || c.operator != "@>" || c.parameter.cast != "jsonb" then None
      else Some(HasAttribute(log, AttributeFilter(key, value)))
    case _ => None
  }

  /** ILIKE on one of the text columns. */
  function EvalPattern(fold: Folding, c: Condition, pattern: string, log: Log): Option<bool> {
    if !c.escape || !IsWellFormed(Fold(fold, pattern)) then None
    else if c.column == "message" then Some(ILike(fold, pattern, log.message))
    else if c.column == "service" then Some(ILike(fold, pattern, log.service))
    else None
  }

  function EvalAll(fold: Folding, conditions: seq<Condition>, values: seq<SqlValue>, log: Log): Option<bool> {
    if conditions == [] then Some(true) else
    var first := EvalCondition(fold, conditions[0], values, log);
    var others := EvalAll(fold, conditions[1..], values, log);
    if first.None? || others.None? then None else Some(first.value && others.value)
  }

  /** The row comparison of timestamp and id with a pair of values. */
  function EvalKeyset(keyset: Option<RowComparison>, values: seq<SqlValue>, log: Log): Option<bool> {
    if keyset.None? then Some(true) else
    var r := keyset.value;
    if r.first != "logs.\"timestamp\"" || r.second != "logs.id" then None
    else if r.left.cast != "timestamptz" || r.right.cast != "uuid" then None else
    match (Lookup(values, r.left.placeholder), Lookup(values, r.right.placeholder))
    case (Some(InstantValue(instant)), Some(IdValue(id))) =>
      if r.operator == "<" then Some(Below(KeyOfLog(log), Key(instant, id)))
      else if r.operator == ">" then Some(Below(Key(instant, id), KeyOfLog(log)))
      else None
    case _ => None
  }

  /** The value of a WHERE text with its bound values on one row. */
  function EvalWhere(fold: Folding, text: string, values: seq<SqlValue>, log: Log): Option<bool> {
    var where := ParseWhere(text);
    if where.None? then None else
    var a := EvalAll(fold, where.value.conditions, values, log);
    var b := EvalKeyset(where.value.keyset, values, log);
    if a.None? || b.None? then None else Some(a.value && b.value)
  }

  // ---------------------------------------------------------------- the page query

  /** The parts of the page statement that vary: WHERE text, LIMIT text, bound values. */
  datatype PageQuery = PageQuery(where: string, limit: string, values: seq<SqlValue>)

  const KEYSET_OPENING := "\n  AND (" + "logs.\"timestamp\"" + ", logs.id" + ") < (" + "$"
  const KEYSET_MIDDLE := "::timestamptz" + ", $"
  const KEYSET_CLOSING := "::uuid)"

  function KeysetText(first: nat): string {
    KEYSET_OPENING + Show(first) + KEYSET_MIDDLE + Show(first + 1) + KEYSET_CLOSING
  }

  function PageQueryOf(filters: Filters, limit: nat, cursor: Option<Key>): PageQuery {
    var base := PredicateOf(filters);
    var n := |base.values|;
    match cursor
    case None => PageQuery(base.text, "$" + Show(n + 1) + "::integer", base.values + [IntegerValue(limit + 1)])
    case Some(key) =>
      PageQuery(base.text + KeysetText(n + 1), "$" + Show(n + 3) + "::integer",
                base.values + [InstantValue(key.timestamp), IdValue(key.id), IntegerValue(limit + 1)])
  }

  method BuildPageQuery(filters: Filters, limit: nat, cursor: Option<Key>) returns (query: PageQuery)
    ensures query == PageQueryOf(filters, limit, cursor)
  {
    var base := BuildLogPredicate(filters);
    var values := base.values;
    var cursorClause := "";
    if cursor.Some? {
      values := values + [InstantValue(cursor.value.timestamp), IdValue(cursor.value.id)];
      cursorClause := KEYSET_OPENING + Show(|values| - 1) + KEYSET_MIDDLE + Show(|values|) + KEYSET_CLOSING;
    }
    values := values + [IntegerValue(limit + 1)];
    assert cursor.Some? ==>
        values == base.values +
          [InstantValue(cursor.value.timestamp), IdValue(cursor.value.id), IntegerValue(limit + 1)];
    assert base.text + "" == base.text;
    query := PageQuery(base.text + cursorClause, "$" + Show(|values|) + "::integer", values);
  }

  function EvalLimit(query: PageQuery): Option<nat> {
    var p := ParseParameter(query.limit);
    if p.NoParse? || p.rest != "" || p.value.cast != "integer" then None else
    match Lookup(query.values, p.value.placeholder)
    case Some(IntegerValue(limit)) => Some(limit)
    case _ => None
  }

  /** The placeholders of a page query in the order in which they stand in the text. */
  function Placeholders(query: PageQuery): seq<nat> {
    var where, limit := ParseWhere(query.where), ParseParameter(query.limit);
    if where.None? || limit.NoParse? then [] else
    ConditionPlaceholders(where.value.conditions)
    + (if where.value.keyset.Some?
       then [where.value.keyset.value.left.placeholder, where.value.keyset.value.right.placeholder] else [])
    + [limit.value.placeholder]
  }

  function ConditionPlaceholders(conditions: seq<Condition>): seq<nat> {
    seq(|conditions|, i requires 0 <= i < |conditions| => conditions[i].parameter.placeholder)
  }

  // ---------------------------------------------------------------- the text means the filters

  /** What the clause of a kind says. */
  function ConditionOf(kind: Kind, n: nat): Condition {
    match kind
    case ServiceIs => Condition("service", "=", Parameter(n, "text"), false)
    case LevelIs => Condition("level", "=", Parameter(n, "text"), false)
    case Since => Condition("\"timestamp\"", ">=", Parameter(n, "timestamptz"), false)
    case Until => Condition("\"timestamp\"", "<", Parameter(n, "timestamptz"), false)
    case AttributeIs => Condition("attributes_search", "@>", Parameter(n, "jsonb"), false)
    case MessageLike => Condition("message", "ILIKE", Parameter(n, "text"), true)
  }

  lemma OpeningIsPrinted(kind: Kind)
    ensures var c := ConditionOf(kind, 0); Opening(kind) == c.column + " " + c.operator + " " + "$"
  {
  }

  lemma ClosingIsPrinted(kind: Kind)
    ensures var c := ConditionOf(kind, 0); Closing(kind) == "::" + c.parameter.cast + if c.escape then ESCAPE else ""
  {
  }

  lemma ClauseConcat(column: string, operator: string, number: string, cast: string, escape: string)
    ensures (column + " " + operator + " " + "$") + number + ("::" + cast + escape)
         == column + " " + operator + " " + ("$" + number + ("::" + cast)) + escape
  {
  }

  lemma ConditionsAreCast(kind: Kind, n: nat)
    ensures var c := ConditionOf(kind, n);
            && c == ConditionOf(kind, 0).(parameter := Parameter(n, ConditionOf(kind, 0).parameter.cast))
            && c.parameter.cast != ""
  {
  }

  lemma ConditionsArePlain(kind: Kind, n: nat)
    ensures IsPlainCondition(ConditionOf(kind, n))
  {
  }

  lemma ClauseIsPrinted(kind: Kind, n: nat)
    ensures ClauseText(kind, n) == PrintCondition(ConditionOf(kind, n)) && IsPlainCondition(ConditionOf(kind, n))
  {
    hide Show, Opening, Closing, ConditionOf, IsPlainCondition;
    OpeningIsPrinted(kind);
    ClosingIsPrinted(kind);
    ConditionsAreCast(kind, n);
    ConditionsArePlain(kind, n);
    var c := ConditionOf(kind, n);
    ClauseConcat(c.column, c.operator, Show(n), c.parameter.cast, if c.escape then ESCAPE else "");
  }

  function ConditionsFrom(terms: seq<Term>, first: nat): seq<Condition> {
    seq(|terms|, i requires 0 <= i < |terms| => ConditionOf(terms[i].kind, first + i))
  }

  /** Joined clauses parse back to the conditions they are meant to be. */
  lemma ClausesParse(terms: seq<Term>, first: nat, rest: string)
    requires terms != [] && (rest == "" || rest[0] == '\n')
    ensures ParseConjunction(JoinAnd(ClausesFrom(terms, first)) + rest) == Parsed(ConditionsFrom(terms, first), rest)
  {
    hide ClauseText, PrintCondition, IsPlainCondition, ConditionOf, ParseConjunction, JoinAnd;
    var conditions := ConditionsFrom(terms, first);
    forall i | 0 <= i < |terms|
      ensures ClauseText(terms[i].kind, first + i) == PrintCondition(conditions[i]) && IsPlainCondition(conditions[i])
    {
      ClauseIsPrinted(terms[i].kind, first + i);
    }
    assert ClausesFrom(terms, first) == Printed(conditions);
    ConjunctionParses(conditions, rest);
  }

  function KeysetOf(first: nat): RowComparison {
    RowComparison("logs.\"timestamp\"", "logs.id", "<", Parameter(first, "timestamptz"), Parameter(first + 1, "uuid"))
  }

  lemma KeysetConcat(opening: string, a: string, middle: string, b: string, closing: string,
                     and: string, first: string, second: string, operator: string)
    requires opening == and + "(" + first + ", " + second + ") " + operator + " (" + "$"
    requires middle == "::timestamptz" + ", " + "$" && closing == "::uuid" + ")"
    ensures opening + a + middle + b + closing
         == and + ("(" + first + ", " + second + ") " + operator + " (" + ("$" + a + "::timestamptz") + ", "
                   + ("$" + b + "::uuid") + ")")
  {
    var left, right := "$" + a + "::timestamptz", "$" + b + "::uuid";
    var head := "(" + first + ", " + second + ") " + operator + " (";
    assert opening == and + head + "$";
    assert opening + a + middle == and + head + left + ", " + "$";
    assert opening + a + middle + b + closing == and + head + left + ", " + right + ")";
  }

  lemma KeysetTexts()
    ensures KEYSET_OPENING == "\n  AND " + "(" + "logs.\"timestamp\"" + ", " + "logs.id" + ") " + "<" + " (" + "$"
    ensures KEYSET_MIDDLE == "::timestamptz" + ", " + "$" && KEYSET_CLOSING == "::uuid" + ")"
  {
  }

  lemma KeysetIsPrinted(first: nat)
    ensures KeysetText(first) == "\n  AND " + PrintRowComparison(KeysetOf(first))
    ensures KeysetText(first) != "" && KeysetText(first)[0] == '\n'
  {
    hide Show;
    KeysetTexts();
    PrintedKeyset(KEYSET_OPENING, KEYSET_MIDDLE, KEYSET_CLOSING, first);
  }

  lemma PrintedKeyset(opening: string, middle: string, closing: string, first: nat)
    requires opening == "\n  AND " + "(" + "logs.\"timestamp\"" + ", " + "logs.id" + ") " + "<" + " (" + "$"
    requires middle == "::timestamptz" + ", " + "$" && closing == "::uuid" + ")"
    ensures opening + Show(first) + middle + Show(first + 1) + closing
         == "\n  AND " + PrintRowComparison(KeysetOf(first))
    ensures opening != "" && opening[0] == '\n'
  {
    hide Show;
    KeysetConcat(opening, Show(first), middle, Show(first + 1), closing,
                 "\n  AND ", "logs.\"timestamp\"", "logs.id", "<");
  }

  lemma KeysetParses(first: nat)
    ensures Skip(KeysetText(first), "\n  AND ").Some?
    ensures ParseRowComparison(Skip(KeysetText(first), "\n  AND ").value) == Parsed(KeysetOf(first), "")
    ensures KeysetText(first) != "" && KeysetText(first)[0] == '\n'
  {
    hide Show, ParseRowComparison, Skip, KeysetText, PrintRowComparison;
    KeysetIsPrinted(first);
    Skips("\n  AND ", PrintRowComparison(KeysetOf(first)));
    RowComparisonParses(KeysetOf(first));
  }

  lemma ClausesDoNotStartWithTrue(terms: seq<Term>, rest: string)
    requires terms != []
    ensures !StartsWith(JoinAnd(ClausesFrom(terms, 1)) + rest, "TRUE")
  {
    var text := JoinAnd(ClausesFrom(terms, 1)) + rest;
    assert text[0] == ClausesFrom(terms, 1)[0][0] == Opening(terms[0].kind)[0];
    StartsWithAt(text, "TRUE", 0);
  }

  lemma HeadParses(filters: Filters, rest: string)
    requires rest == "" || rest[0] == '\n'
    ensures ParseHead(PredicateOf(filters).text + rest) == Parsed(ConditionsFrom(Terms(filters), 1), rest)
  {
    hide ParseConjunction, Terms;
    var terms := Terms(filters);
    if terms == [] {
      var text := "TRUE" + rest;
      assert text[..4] == "TRUE" && text[4..] == rest;
      assert ConditionsFrom(terms, 1) == [];
    } else {
      ClausesParse(terms, 1, rest);
      ClausesDoNotStartWithTrue(terms, rest);
    }
  }

  function WhereTextOf(filters: Filters, cursor: Option<Key>): string {
    PredicateOf(filters).text + if cursor.Some? then KeysetText(|Terms(filters)| + 1) else ""
  }

  /** The WHERE text of the page query parses to one condition for each filter, and the cursor's. */
  lemma WhereParses(filters: Filters, cursor: Option<Key>)
    ensures var n := |Terms(filters)|;
            ParseWhere(WhereTextOf(filters, cursor))
            == Some(Where(ConditionsFrom(Terms(filters), 1), if cursor.Some? then Some(KeysetOf(n + 1)) else None))
  {
    hide ParseRowComparison, Skip, KeysetText, ParseHead, Terms, PredicateOf, KeysetOf;
    KeysetParses(|Terms(filters)| + 1);
    HeadParses(filters, if cursor.Some? then KeysetText(|Terms(filters)| + 1) else "");
  }

  lemma PageQueryParts(filters: Filters, limit: nat, cursor: Option<Key>)
    ensures var query, terms := PageQueryOf(filters, limit, cursor), Terms(filters);
            && query.where == WhereTextOf(filters, cursor)
            && query.values[..|terms|] == Values(terms)
            && |query.values| == |terms| + (if cursor.Some? then 3 else 1)
            && (cursor.Some? ==>
                  query.values[|terms|..|terms| + 2] ==
                    [InstantValue(cursor.value.timestamp), IdValue(cursor.value.id)])
            && query.values[|query.values| - 1] == IntegerValue(limit + 1)
            && query.limit == "$" + Show(|query.values|) + "::integer"
  {
    hide Terms, KeysetText, JoinAnd;
    assert PredicateOf(filters).text + "" == PredicateOf(filters).text;
  }

  /** The direct test a term stands for. */
  predicate TermHolds(fold: Folding, term: Term, log: Log) {
    match term
    case Term(ServiceIs, TextValue(text)) => log.service == text
    case Term(LevelIs, TextValue(text)) => LevelText(log.level) == text
    case Term(Since, InstantValue(instant)) => instant <= log.timestamp
    case Term(Until, InstantValue(instant)) => log.timestamp < instant
    case Term(AttributeIs, JsonValue(key, value)) => HasAttribute(log, AttributeFilter(key, value))
    case Term(MessageLike, TextValue(pattern)) => ILike(fold, pattern, log.message)
    case _ => false
  }

  predicate IsTyped(fold: Folding, term: Term) {
    match term.kind
    case ServiceIs => term.value.TextValue?
    case LevelIs => term.value.TextValue?
    case Since => term.value.InstantValue?
    case Until => term.value.InstantValue?
    case AttributeIs => term.value.JsonValue?
    case MessageLike => term.value.TextValue? && IsWellFormed(Fold(fold, term.value.text))
  }

  lemma ConditionEvaluates(fold: Folding, term: Term, n: nat, values: seq<SqlValue>, log: Log)
    requires Lookup(values, n) == Some(term.value) && IsTyped(fold, term)
    ensures EvalCondition(fold, ConditionOf(term.kind, n), values, log) == Some(TermHolds(fold, term, log))
  {
    hide ILike, HasAttribute, IsWellFormed, Lookup, Compare, LevelText;
    var c := ConditionOf(term.kind, n);
    assert c.operator == "=" ==> c.operator[0] != 'I';
    assert "="[0] == '=' && "ILIKE"[0] == 'I';
    if term.value.InstantValue? {
      OperatorsDiffer(log.timestamp, term.value.instant);
    }
  }

  lemma {:induction false} AllConditionsEvaluate(fold: Folding, terms: seq<Term>, first: nat, values: seq<SqlValue>,
                                                 log: Log)
    requires first >= 1 && first - 1 + |terms| <= |values|
    requires forall i :: 0 <= i < |terms| ==> values[first - 1 + i] == terms[i].value && IsTyped(fold, terms[i])
    ensures EvalAll(fold, ConditionsFrom(terms, first), values, log)
         == Some(forall i :: 0 <= i < |terms| ==> TermHolds(fold, terms[i], log))
  {
    hide ILike, HasAttribute, IsWellFormed, EvalCondition, ConditionOf, IsTyped, TermHolds;
    if terms != [] {
      AllConditionsEvaluate(fold, terms[1..], first + 1, values, log);
      assert ConditionsFrom(terms, first)[1..] == ConditionsFrom(terms[1..], first + 1);
      assert ConditionsFrom(terms, first)[0] == ConditionOf(terms[0].kind, first);
      ConditionEvaluates(fold, terms[0], first, values, log);
      assert forall i :: 1 <= i < |terms| ==> terms[i] == terms[1..][i - 1];
    }
  }

  lemma SearchTermIsTyped(fold: Folding, q: string)
    requires KeepsSpecials(fold)
    ensures IsWellFormed(Fold(fold, SearchPattern(q)))
  {
    FoldOfEscaped(fold, q);
    assert fold('%') == '%';
    assert Fold(fold, SearchPattern(q)) == SearchPattern(Fold(fold, q));
    SearchPatternIsWellFormed(Fold(fold, q));
  }

  lemma TermsAreTyped(fold: Folding, filters: Filters)
    requires KeepsSpecials(fold)
    ensures forall term :: term in Terms(filters) ==> IsTyped(fold, term)
  {
    hide SearchPattern, IsWellFormed, Fold;
    if filters.q.Some? {
      SearchTermIsTyped(fold, filters.q.value);
    }
  }

  /** All terms hold exactly on the rows the filters ask for. */
  lemma TermsMeanFilters(fold: Folding, filters: Filters, log: Log)
    requires KeepsSpecials(fold)
    ensures (forall term :: term in Terms(filters) ==> TermHolds(fold, term, log)) <==> Matches(fold, filters, log)
  {
    hide SearchPattern, ILike, Contains, HasAttribute, LevelText;
    var attributes := AttributeTerms(filters.attributes);
    assert (forall term :: term in attributes ==> TermHolds(fold, term, log))
      <==> (forall a :: a in filters.attributes ==> HasAttribute(log, a)) by {
      AttributeTermsMeanFilters(fold, filters.attributes, log);
    }
    if filters.level.Some? {
      LevelTextIsExact(log.level, filters.level.value);
    }
    if filters.q.Some? {
      LiteralSearchIsExact(fold, filters.q.value, log.message);
    }
    TermsByPart(fold, filters, log);
  }

  lemma AttributeTermsMeanFilters(fold: Folding, attributes: seq<AttributeFilter>, log: Log)
    ensures (forall term :: term in AttributeTerms(attributes) ==> TermHolds(fold, term, log))
       <==> (forall a :: a in attributes ==> HasAttribute(log, a))
  {
    hide HasAttribute;
    var terms := AttributeTerms(attributes);
    forall i | 0 <= i < |attributes| ensures TermHolds(fold, terms[i], log) <==> HasAttribute(log, attributes[i]) {
      assert attributes[i] == AttributeFilter(attributes[i].key, attributes[i].value);
    }
    assert forall i :: 0 <= i < |attributes| ==> terms[i] in terms && attributes[i] in attributes;
  }

  lemma TermsByPart(fold: Folding, filters: Filters, log: Log)
    ensures (forall term :: term in Terms(filters) ==> TermHolds(fold, term, log))
       <==> && (filters.service.Some? ==> TermHolds(fold, Term(ServiceIs, TextValue(filters.service.value)), log))
            && (filters.level.Some? ==> TermHolds(fold, Term(LevelIs, TextValue(LevelText(filters.level.value))), log))
            && (filters.since.Some? ==> TermHolds(fold, Term(Since, InstantValue(filters.since.value)), log))
            && (filters.until.Some? ==> TermHolds(fold, Term(Until, InstantValue(filters.until.value)), log))
            && (forall term :: term in AttributeTerms(filters.attributes) ==> TermHolds(fold, term, log))
            && (filters.q.Some? ==> TermHolds(fold, Term(MessageLike, TextValue(SearchPattern(filters.q.value))), log))
  {
    hide TermHolds, SearchPattern, LevelText, AttributeTerms;
  }

  /**
   The compiled statement keeps the meaning of filters and cursor: on every row its text, evaluated
   with its bound values, is the direct test of the filters together with the keyset condition, and
   its limit is one more than the page's.
   */
  lemma PageQueryKeepsMeaning(fold: Folding, filters: Filters, limit: nat, cursor: Option<Key>, log: Log)
    requires KeepsSpecials(fold)
    ensures var query := PageQueryOf(filters, limit, cursor);
            && EvalWhere(fold, query.where, query.values, log)
               == Some(Matches(fold, filters, log) && (cursor.Some? ==> Below(KeyOfLog(log), cursor.value)))
            && EvalLimit(query) == Some(limit + 1)
  {
    hide Matches, Terms, ParseWhere, Below, ParseParameter, PageQueryOf, WhereTextOf, EvalAll;
    var query, terms := PageQueryOf(filters, limit, cursor), Terms(filters);
    PageQueryParts(filters, limit, cursor);
    WhereParses(filters, cursor);
    ConditionsMeanFilters(fold, filters, query.values, log);
    if cursor.Some? {
      var pair := query.values[|terms|..|terms| + 2];
      assert query.values[|terms|] == pair[0] && query.values[|terms| + 1] == pair[1];
    }
    LimitParses(|query.values|);
  }

  lemma ConditionsMeanFilters(fold: Folding, filters: Filters, values: seq<SqlValue>, log: Log)
    requires KeepsSpecials(fold)
    requires |Terms(filters)| <= |values| && values[..|Terms(filters)|] == Values(Terms(filters))
    ensures EvalAll(fold, ConditionsFrom(Terms(filters), 1), values, log) == Some(Matches(fold, filters, log))
  {
    hide Matches, TermHolds, IsTyped, Terms;
    var terms := Terms(filters);
    TermsAreTyped(fold, filters);
    forall i | 0 <= i < |terms| ensures values[i] == terms[i].value && IsTyped(fold, terms[i]) {
      assert values[i] == values[..|terms|][i];
      assert terms[i] in terms;
    }
    AllConditionsEvaluate(fold, terms, 1, values, log);
    TermsMeanFilters(fold, filters, log);
  }

  lemma LimitParses(n: nat)
    ensures ParseParameter("$" + Show(n) + "::integer") == Parsed(Parameter(n, "integer"), "")
  {
    hide Show, ParseParameter;
    var text := PrintParameter(Parameter(n, "integer"));
    assert text == "$" + Show(n) + "::integer" && text + "" == text;
    ParameterParses(Parameter(n, "integer"), "");
  }

  /** The placeholders in the text are $1, $2, ..., $n in order, one for each bound value. */
  lemma PlaceholdersAreInBindingOrder(filters: Filters, limit: nat, cursor: Option<Key>)
    ensures var query := PageQueryOf(filters, limit, cursor);
            Placeholders(query) == seq(|query.values|, (i: nat) => i + 1)
  {
    hide ParseWhere, Terms, ParseParameter, PageQueryOf, WhereTextOf, Values;
    var query, terms := PageQueryOf(filters, limit, cursor), Terms(filters);
    PageQueryParts(filters, limit, cursor);
    WhereParses(filters, cursor);
    LimitParses(|query.values|);
    var conditions := ConditionsFrom(terms, 1);
    assert ConditionPlaceholders(conditions) == seq(|terms|, (i: nat) => i + 1);
  }

  /** The predicate alone, as the aggregation uses it, keeps the meaning of the filters too. */
  lemma PredicateKeepsMeaning(fold: Folding, filters: Filters, log: Log)
    requires KeepsSpecials(fold)
    ensures EvalWhere(fold, PredicateOf(filters).text, PredicateOf(filters).values, log) ==
      Some(Matches(fold, filters, log))
  {
    hide Matches, Terms, ParseWhere, EvalAll;
    WhereParses(filters, None);
    assert WhereTextOf(filters, None) == PredicateOf(filters).text;
    var values := Values(Terms(filters));
    assert values[..|Terms(filters)|] == values;
    ConditionsMeanFilters(fold, filters, values, log);
  }
}
