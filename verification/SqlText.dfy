/**
 The SQL of generated WHERE clauses read as text: a parser for conditions that compare a column with a numbered
 placeholder, for their conjunctions, and for the comparison of two columns with two placeholders.
 */
module SqlText {
  import opened Prelude
  import opened Decimal
  import opened Text

  datatype Parse<T> = NoParse | Parsed(value: T, rest: string)

  /** `$1::text`; the cast is empty if there is none. */
  datatype Parameter = Parameter(placeholder: nat, cast: string)

  /** `column operator $1::cast`, and whether the backslash is named as the escape character of a pattern. */
  datatype Condition = Condition(column: string, operator: string, parameter: Parameter, escape: bool)

  /** `(first, second) operator ($1::cast, $2::cast)` */
  datatype RowComparison =
    RowComparison(first: string, second: string, operator: string, left: Parameter, right: Parameter)

  // ---------------------------------------------------------------- words and parameters

  predicate IsLetter(c: char) {
    'a' <= c <= 'z'
  }

  /** The place of the first `c` from `i` on, or the end of the text. */
  function WordEnd(text: string, c: char, i: nat): (end: nat)
    requires i <= |text|
    ensures i <= end <= |text|
    decreases |text| - i
  {
    if i == |text| || text[i] == c then i else WordEnd(text, c, i + 1)
  }

  function LettersEnd(text: string, i: nat): (end: nat)
    requires i <= |text|
    ensures i <= end <= |text|
    decreases |text| - i
  {
    if i < |text| && IsLetter(text[i]) then LettersEnd(text, i + 1) else i
  }

  function ParseParameter(text: string): (p: Parse<Parameter>)
    ensures p.Parsed? ==> |p.rest| < |text|
  {
    if !StartsWith(text, "$") then NoParse else
    var end := DigitRunEnd(text, 1);
    if end == 1 then NoParse else
    var number, rest := NumberOf(text[1..end]), text[end..];
    if !StartsWith(rest, "::") then Parsed(Parameter(number, ""), rest) else
    var close := LettersEnd(rest, 2);
    Parsed(Parameter(number, rest[2..close]), rest[close..])
  }

  /** A word, and the text behind the character that ends it. */
  function ParseWord(text: string, stop: char): (p: Parse<string>)
    ensures p.Parsed? ==> |p.rest| < |text|
  {
    var end := WordEnd(text, stop, 0);
    if end == |text| then NoParse else Parsed(text[..end], text[end + 1..])
  }

  const ESCAPE := " ESCAPE E'\\\\'"

  function ParseCondition(text: string): (p: Parse<Condition>)
    ensures p.Parsed? ==> |p.rest| < |text|
  {
    var column := ParseWord(text, ' ');
    if column.NoParse? then NoParse else
    var operator := ParseWord(column.rest, ' ');
    if operator.NoParse? then NoParse else
    var parameter := ParseParameter(operator.rest);
    if parameter.NoParse? then NoParse else
    var escape := StartsWith(parameter.rest, ESCAPE);
    Parsed(Condition(column.value, operator.value, parameter.value, escape),
           if escape then parameter.rest[|ESCAPE|..] else parameter.rest)
  }

  function ParseConjunction(text: string): Parse<seq<Condition>>
    decreases |text|
  {
    var first := ParseCondition(text);
    if first.NoParse? then NoParse
    else if StartsWith(first.rest, " AND ") then
      var others := ParseConjunction(first.rest[5..]);
      if others.NoParse? then NoParse else Parsed([first.value] + others.value, others.rest)
    else Parsed([first.value], first.rest)
  }

  /** A fixed text and what follows it. */
  function Skip(text: string, fixed: string): Option<string> {
    if StartsWith(text, fixed) then Some(text[|fixed|..]) else None
  }

  function ParseRowComparison(text: string): Parse<RowComparison> {
    var opening := Skip(text, "(");
    if opening.None? then NoParse else
    var first := ParseWord(opening.value, ',');
    if first.NoParse? then NoParse else
    var between := Skip(first.rest, " ");
    if between.None? then NoParse else
    var second := ParseWord(between.value, ')');
    if second.NoParse? then NoParse else
    var behind := Skip(second.rest, " ");
    if behind.None? then NoParse else
    var operator := ParseWord(behind.value, ' ');
    if operator.NoParse? then NoParse else
    ParsePair(first.value, second.value, operator.value, operator.rest)
  }

  function ParsePair(first: string, second: string, operator: string, text: string): Parse<RowComparison> {
    var opening := Skip(text, "(");
    if opening.None? then NoParse else
    var left := ParseParameter(opening.value);
    if left.NoParse? then NoParse else
    var between := Skip(left.rest, ", ");
    if between.None? then NoParse else
    var right := ParseParameter(between.value);
    if right.NoParse? then NoParse else
    var closing := Skip(right.rest, ")");
    if closing.None? then NoParse
    else Parsed(RowComparison(first, second, operator, left.value, right.value), closing.value)
  }

  // ---------------------------------------------------------------- what the operators mean

  /** A comparison of numbers or instants, if the operator is one. */
  function Compare(operator: string, left: int, right: int): Option<bool> {
    if operator == "=" then Some(left == right)
    else if operator == "<" then Some(left < right)
    else if operator == "<=" then Some(left <= right)
    else if operator == ">" then Some(left > right)
    else if operator == ">=" then Some(left >= right)
    else None
  }

  lemma OperatorsDiffer(left: int, right: int)
    ensures Compare("=", left, right) == Some(left == right)
    ensures Compare("<", left, right) == Some(left < right)
    ensures Compare(">=", left, right) == Some(left >= right)
  {
    assert "="[0] != "<"[0];
  }

  // ---------------------------------------------------------------- printed conditions parse back

  function PrintParameter(p: Parameter): string {
    "$" + Show(p.placeholder) + if p.cast == "" then "" else "::" + p.cast
  }

  function PrintCondition(c: Condition): string {
    c.column + " " + c.operator + " " + PrintParameter(c.parameter) + if c.escape then ESCAPE else ""
  }

  function PrintRowComparison(r: RowComparison): string {
    "(" + r.first + ", " + r.second + ") " + r.operator + " (" + PrintParameter(r.left) + ", "
    + PrintParameter(r.right) + ")"
  }

  function JoinAnd(clauses: seq<string>): string
    requires clauses != []
  {
    if |clauses| == 1 then clauses[0] else clauses[0] + " AND " + JoinAnd(clauses[1..])
  }

  function Printed(conditions: seq<Condition>): seq<string> {
    seq(|conditions|, i requires 0 <= i < |conditions| => PrintCondition(conditions[i]))
  }

  predicate IsWord(word: string, stop: char) {
    stop !in word
  }

  predicate IsCast(cast: string) {
    forall i :: 0 <= i < |cast| ==> IsLetter(cast[i])
  }

  predicate IsPlainCondition(c: Condition) {
    IsWord(c.column, ' ') && IsWord(c.operator, ' ') && IsCast(c.parameter.cast)
  }

  /** What may follow a condition. */
  predicate IsTail(rest: string) {
    rest == "" || rest[0] == '\n' || StartsWith(rest, " AND ")
  }

  lemma {:induction false} WordEnds(text: string, c: char, i: nat, end: nat)
    requires i <= end < |text| && text[end] == c && forall k :: i <= k < end ==> text[k] != c
    ensures WordEnd(text, c, i) == end
    decreases end - i
  {
    if i < end {
      WordEnds(text, c, i + 1, end);
    }
  }

  lemma WordParses(word: string, stop: char, rest: string)
    requires IsWord(word, stop)
    ensures ParseWord(word + [stop] + rest, stop) == Parsed(word, rest)
  {
    var text := word + [stop] + rest;
    assert forall k :: 0 <= k < |word| ==> text[k] == word[k];
    assert text[|word|] == stop;
    WordEnds(text, stop, 0, |word|);
    assert text[..|word|] == word && text[|word| + 1..] == rest;
  }

  lemma {:induction false} LettersEndAt(text: string, i: nat, end: nat)
    requires i <= end <= |text| && (end < |text| ==> !IsLetter(text[end]))
    requires forall k :: i <= k < end ==> IsLetter(text[k])
    ensures LettersEnd(text, i) == end
    decreases end - i
  {
    if i < end {
      LettersEndAt(text, i + 1, end);
    }
  }

  /** Neither a digit, a letter nor a colon follows. */
  predicate EndsParameter(rest: string) {
    rest == "" || (!IsDigit(rest[0]) && !IsLetter(rest[0]) && rest[0] != ':')
  }

  lemma ParameterParses(p: Parameter, rest: string)
    requires IsCast(p.cast) && EndsParameter(rest)
    ensures ParseParameter(PrintParameter(p) + rest) == Parsed(p, rest)
  {
    hide Show;
    var cast := if p.cast == "" then "" else "::" + p.cast;
    var text, end := PrintParameter(p) + rest, 1 + |Show(p.placeholder)|;
    assert text[..1] == "$" && text[1..end] == Show(p.placeholder) && text[end..] == cast + rest;
    assert end < |text| ==> text[end] == (cast + rest)[0];
    DigitRunIsAll(text, 1, end);
    ShowThenNumber(p.placeholder);
    StartsWithAt(cast + rest, "::", 0);
    if p.cast == "" {
      assert cast + rest == rest;
    } else {
      var tail, close := cast + rest, 2 + |p.cast|;
      assert tail[..2] == "::" && tail[2..close] == p.cast && tail[close..] == rest;
      assert forall k :: 2 <= k < close ==> tail[k] == p.cast[k - 2];
      assert close < |tail| ==> tail[close] == rest[0];
      LettersEndAt(tail, 2, close);
    }
  }

  lemma EscapeParses(escape: bool, rest: string)
    requires IsTail(rest)
    ensures var tail := (if escape then ESCAPE else "") + rest;
            && EndsParameter(tail)
            && StartsWith(tail, ESCAPE) == escape
            && (if escape then tail[|ESCAPE|..] else tail) == rest
  {
    var tail := (if escape then ESCAPE else "") + rest;
    if escape {
      assert tail[..|ESCAPE|] == ESCAPE;
    } else {
      assert tail == rest;
      StartsWithAt(rest, ESCAPE, 0);
      StartsWithAt(rest, ESCAPE, 1);
      StartsWithAt(rest, " AND ", 0);
      StartsWithAt(rest, " AND ", 1);
    }
  }

  lemma ConditionParses(c: Condition, rest: string)
    requires IsPlainCondition(c) && IsTail(rest)
    ensures ParseCondition(PrintCondition(c) + rest) == Parsed(c, rest)
  {
    hide PrintParameter, ParseParameter, ParseWord, StartsWith, IsTail, EndsParameter;
    var tail := (if c.escape then ESCAPE else "") + rest;
    var parameter := PrintParameter(c.parameter) + tail;
    var operator := c.operator + " " + parameter;
    assert PrintCondition(c) + rest == c.column + " " + operator;
    EscapeParses(c.escape, rest);
    WordParses(c.column, ' ', operator);
    WordParses(c.operator, ' ', parameter);
    ParameterParses(c.parameter, tail);
  }

  lemma AndIsTail(tail: string)
    ensures IsTail(" AND " + tail) && StartsWith(" AND " + tail, " AND ") && (" AND " + tail)[5..] == tail
  {
    var text := " AND " + tail;
    assert text[..5] == " AND ";
  }

  /** Printed conditions joined by AND parse back to themselves. */
  lemma {:induction false} ConjunctionParses(conditions: seq<Condition>, rest: string)
    requires conditions != [] && (rest == "" || rest[0] == '\n')
    requires forall c :: c in conditions ==> IsPlainCondition(c)
    ensures ParseConjunction(JoinAnd(Printed(conditions)) + rest) == Parsed(conditions, rest)
  {
    hide PrintCondition, ParseCondition, IsPlainCondition;
    var texts := Printed(conditions);
    assert conditions[0] in conditions;
    if |conditions| == 1 {
      ConditionParses(conditions[0], rest);
      StartsWithAt(rest, " AND ", 0);
      assert conditions == [conditions[0]];
    } else {
      ConjunctionParses(conditions[1..], rest);
      assert texts[1..] == Printed(conditions[1..]);
      var tail := JoinAnd(texts[1..]) + rest;
      AndIsTail(tail);
      ConditionParses(conditions[0], " AND " + tail);
      assert JoinAnd(texts) + rest == texts[0] + (" AND " + tail);
      assert conditions == [conditions[0]] + conditions[1..];
    }
  }

  predicate IsPlainRowComparison(r: RowComparison) {
    && IsWord(r.first, ',') && IsWord(r.second, ')') && IsWord(r.operator, ' ')
    && IsCast(r.left.cast) && IsCast(r.right.cast)
  }

  lemma Skips(fixed: string, rest: string)
    ensures Skip(fixed + rest, fixed) == Some(rest)
  {
    assert (fixed + rest)[..|fixed|] == fixed;
  }

  lemma PairParses(r: RowComparison)
    requires IsPlainRowComparison(r)
    ensures ParsePair(r.first, r.second, r.operator,
                      "(" + (PrintParameter(r.left) + (", " + (PrintParameter(r.right) + ")")))) == Parsed(r, "")
  {
    hide PrintParameter, ParseParameter, Skip, IsCast;
    Skips("(", PrintParameter(r.left) + (", " + (PrintParameter(r.right) + ")")));
    ParameterParses(r.left, ", " + (PrintParameter(r.right) + ")"));
    Skips(", ", PrintParameter(r.right) + ")");
    ParameterParses(r.right, ")");
    Skips(")", "");
    assert ")" + "" == ")";
  }

  lemma RowComparisonParses(r: RowComparison)
    requires IsPlainRowComparison(r)
    ensures ParseRowComparison(PrintRowComparison(r)) == Parsed(r, "")
  {
    hide PrintParameter, ParsePair, ParseWord, Skip, IsCast;
    var pair := "(" + (PrintParameter(r.left) + (", " + (PrintParameter(r.right) + ")")));
    var operator := r.operator + " " + pair;
    var second := r.second + ")" + (" " + operator);
    var first := r.first + "," + (" " + second);
    assert PrintRowComparison(r) == "(" + first;
    Skips("(", first);
    WordParses(r.first, ',', " " + second);
    Skips(" ", second);
    WordParses(r.second, ')', " " + operator);
    Skips(" ", operator);
    WordParses(r.operator, ' ', pair);
    PairParses(r);
  }
}
