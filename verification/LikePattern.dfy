/**
 LIKE with a backslash as escape character, and the pattern the service builds from a literal
 (escapeLikeLiteral in src/modules/query/log-predicate-builder.ts).
 */
module LikePattern {
  import opened LogEntry
  import opened Text

  predicate IsSpecial(c: char) {
    c == '\\' || c == '%' || c == '_'
  }

  /** A pattern never ends in a dangling escape character (the server would raise an error). */
  predicate IsWellFormed(pattern: string) {
    if pattern == "" then true
    else if pattern[0] == '\\' then |pattern| > 1 && IsWellFormed(pattern[2..])
    else IsWellFormed(pattern[1..])
  }

  /** `text LIKE pattern ESCAPE '\'` */
  predicate Like(pattern: string, text: string)
    requires IsWellFormed(pattern)
    decreases |pattern| + |text|
  {
    if pattern == "" then text == ""
    else if pattern[0] == '%' then
      Like(pattern[1..], text) || (text != "" && Like(pattern, text[1..]))
    else if text == "" then false
    else if pattern[0] == '\\' then pattern[1] == text[0] && Like(pattern[2..], text[1..])
    else (pattern[0] == '_' || pattern[0] == text[0]) && Like(pattern[1..], text[1..])
  }

  /** `value.replace(/[\\%_]/gu, "\\$&")` */
  function EscapeLikeLiteral(value: string): string {
    if value == "" then ""
    else (if IsSpecial(value[0]) then ['\\', value[0]] else [value[0]]) + EscapeLikeLiteral(value[1..])
  }

  function SearchPattern(q: string): string {
    "%" + EscapeLikeLiteral(q) + "%"
  }

  /** Folding leaves the three special characters alone and makes no others special. */
  ghost predicate KeepsSpecials(fold: Folding) {
    forall c :: IsSpecial(c) || IsSpecial(fold(c)) ==> fold(c) == c
  }

  lemma {:induction false} EscapedIsWellFormed(q: string, rest: string)
    requires IsWellFormed(rest)
    ensures IsWellFormed(EscapeLikeLiteral(q) + rest)
  {
    var escaped := EscapeLikeLiteral(q);
    if q == "" {
      assert escaped + rest == rest;
    } else {
      EscapedIsWellFormed(q[1..], rest);
      var tail := EscapeLikeLiteral(q[1..]) + rest;
      if IsSpecial(q[0]) {
        assert (escaped + rest)[2..] == tail;
      } else {
        assert (escaped + rest)[1..] == tail;
      }
    }
  }

  lemma SearchPatternIsWellFormed(q: string)
    ensures IsWellFormed(SearchPattern(q))
  {
    assert IsWellFormed("%") by { assert "%"[1..] == ""; }
    EscapedIsWellFormed(q, "%");
    assert SearchPattern(q)[1..] == EscapeLikeLiteral(q) + "%";
  }

  lemma {:induction false} PercentMatchesAll(text: string)
    ensures IsWellFormed("%") && Like("%", text)
  {
    assert "%"[1..] == "";
    if text != "" {
      PercentMatchesAll(text[1..]);
    }
  }

  /** An escaped literal followed by `%` matches exactly the texts that start with the literal. */
  lemma {:induction false} EscapedMatchesPrefix(q: string, text: string)
    ensures IsWellFormed(EscapeLikeLiteral(q) + "%")
    ensures Like(EscapeLikeLiteral(q) + "%", text) <==> StartsWith(text, q)
    decreases |q|
  {
    PercentMatchesAll(text);
    EscapedIsWellFormed(q, "%");
    var pattern := EscapeLikeLiteral(q) + "%";
    if q == "" {
      assert pattern == "%";
    } else if text != "" {
      var rest := EscapeLikeLiteral(q[1..]) + "%";
      EscapedMatchesPrefix(q[1..], text[1..]);
      assert StartsWith(text, q) <==> text[0] == q[0] && StartsWith(text[1..], q[1..]) by { PrefixStep(text, q); }
      if IsSpecial(q[0]) {
        assert pattern[0] == '\\' && pattern[1] == q[0] && pattern[2..] == rest;
      } else {
        assert pattern[0] == q[0] && pattern[1..] == rest;
      }
    } else {
      assert pattern[0] != '%';
    }
  }

  lemma PrefixStep(text: string, q: string)
    requires text != "" && q != ""
    ensures StartsWith(text, q) <==> text[0] == q[0] && StartsWith(text[1..], q[1..])
  {
    if |q| <= |text| {
      assert text[..|q|] == [text[0]] + text[1..][..|q| - 1];
      assert q == [q[0]] + q[1..];
    }
  }

  /** A leading `%` lets the rest of the pattern match at any later place. */
  lemma {:induction false} PercentSkips(rest: string, text: string)
    requires IsWellFormed(rest) && IsWellFormed("%" + rest)
    ensures Like("%" + rest, text) <==> exists i: nat :: i <= |text| && Like(rest, text[i..])
  {
    var pattern := "%" + rest;
    assert pattern[1..] == rest;
    assert text[0..] == text;
    if text != "" {
      PercentSkips(rest, text[1..]);
      forall i: nat | i < |text| ensures text[i + 1..] == text[1..][i..] {
      }
      if Like(rest, text) {
        assert Like(rest, text[0..]);
      } else if i: nat :| i <= |text| && Like(rest, text[i..]) {
        assert i > 0 && Like(rest, text[1..][i - 1..]);
      }
      if i: nat :| i <= |text[1..]| && Like(rest, text[1..][i..]) {
        assert Like(rest, text[i + 1..]);
      }
    }
  }

  lemma {:induction false} FoldOfEscaped(fold: Folding, q: string)
    requires KeepsSpecials(fold)
    ensures Fold(fold, EscapeLikeLiteral(q)) == EscapeLikeLiteral(Fold(fold, q))
  {
    if q != "" {
      FoldOfEscaped(fold, q[1..]);
      assert Fold(fold, q)[1..] == Fold(fold, q[1..]);
      assert IsSpecial(fold(q[0])) <==> IsSpecial(q[0]);
      assert fold('\\') == '\\';
    }
  }

  /** `message ILIKE pattern ESCAPE '\'`: both sides are folded, then matched. */
  predicate ILike(fold: Folding, pattern: string, text: string) {
    IsWellFormed(Fold(fold, pattern)) && Like(Fold(fold, pattern), Fold(fold, text))
  }

  /**
   Literal search is exact: the pattern built from a query matches a message if and only if the
   folded message contains the folded query, whatever special characters either holds.
   */
  lemma LiteralSearchIsExact(fold: Folding, q: string, message: string)
    requires KeepsSpecials(fold)
    ensures ILike(fold, SearchPattern(q), message) <==> Contains(Fold(fold, message), Fold(fold, q))
  {
    hide Like, IsWellFormed;
    var text, literal := Fold(fold, message), Fold(fold, q);
    var rest := EscapeLikeLiteral(literal) + "%";
    FoldOfEscaped(fold, q);
    assert fold('%') == '%';
    assert Fold(fold, SearchPattern(q)) == SearchPattern(literal) == "%" + rest;
    SearchPatternIsWellFormed(literal);
    EscapedMatchesPrefix(literal, text);
    PercentSkips(rest, text);
    forall i: nat | i <= |text| ensures Like(rest, text[i..]) <==> OccursAt(literal, text, i) {
      EscapedMatchesPrefix(literal, text[i..]);
      if i + |literal| <= |text| {
        assert text[i..][..|literal|] == text[i..i + |literal|];
      }
    }
  }
}
