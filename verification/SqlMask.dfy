/**
 maskSqlStringsAndComments of src/database/migrations/migration-loader.ts: comments, string literals and
 dollar-quoted bodies of a SQL text are blanked before it is searched for transaction control. Texts
 are sequences of characters outside the surrogate range, where UTF-16 and characters coincide.
 */
module SqlMask {
  import opened Prelude
  import opened Text

  // ---------------------------------------------------------------- a lexer

  /** What starts at a place of the text; an unterminated comment or body runs to the end. */
  datatype Kind = Plain | LineComment | BlockComment | Quoted | DollarQuoted | Unterminated

  datatype Token = Token(kind: Kind, end: nat)

  predicate PairAt(sql: string, i: nat, a: char, b: char) {
    i + 1 < |sql| && sql[i] == a && sql[i + 1] == b
  }

  /** The place of the first line break at or after `i`, or the end of the text. */
  function LineEnd(sql: string, i: nat): (end: nat)
    requires i <= |sql|
    ensures i <= end <= |sql|
    ensures forall k :: i <= k < end ==> sql[k] != '\n'
    decreases |sql| - i
  {
    if i == |sql| || sql[i] == '\n' then i else LineEnd(sql, i + 1)
  }

  /** The end of a block comment `depth` levels deep; comments nest. */
  function BlockEnd(sql: string, cursor: nat, depth: nat): (end: Option<nat>)
    requires cursor <= |sql|
    ensures end.Some? ==> cursor <= end.value <= |sql|
    decreases |sql| - cursor
  {
    if depth == 0 then Some(cursor)
    else if cursor == |sql| then None
    else if PairAt(sql, cursor, '/', '*') then BlockEnd(sql, cursor + 2, depth + 1)
    else if PairAt(sql, cursor, '*', '/') then BlockEnd(sql, cursor + 2, depth - 1)
    else BlockEnd(sql, cursor + 1, depth)
  }

  predicate IsQuote(c: char) {
    c == '\'' || c == '"'
  }

  predicate IsWordChar(c: char) {
    'A' <= c <= 'Z' || 'a' <= c <= 'z' || '0' <= c <= '9' || c == '_' || c == '$'
  }

  /** A string literal directly after a stand-alone E has backslash escapes. */
  predicate HasBackslashEscapes(sql: string, i: nat)
    requires i < |sql|
  {
    && sql[i] == '\''
    && i >= 1 && (sql[i - 1] == 'E' || sql[i - 1] == 'e')
    && !(i >= 2 && IsWordChar(sql[i - 2]))
  }

  /** The end of a literal whose body starts at `j`; a doubled quote stands for itself. */
  function QuoteEnd(sql: string, j: nat, quote: char, escapes: bool): (end: nat)
    requires j <= |sql|
    ensures j <= end <= |sql|
    decreases |sql| - j
  {
    if j == |sql| then j
    else if escapes && sql[j] == '\\' then
      if j + 1 < |sql| then QuoteEnd(sql, j + 2, quote, escapes) else |sql|
    else if sql[j] == quote then
      if j + 1 < |sql| && sql[j + 1] == quote then QuoteEnd(sql, j + 2, quote, escapes) else j + 1
    else QuoteEnd(sql, j + 1, quote, escapes)
  }

  predicate IsTagStart(c: char) {
    'A' <= c <= 'Z' || 'a' <= c <= 'z' || c == '_'
  }

  predicate IsTagChar(c: char) {
    IsTagStart(c) || '0' <= c <= '9'
  }

  /** The place of the `$` that closes a tag whose letters run on from `i`. */
  function TagClose(sql: string, i: nat): (close: Option<nat>)
    requires i <= |sql|
    ensures close.Some? ==> i <= close.value < |sql| && sql[close.value] == '$'
    ensures close.Some? ==> forall k :: i <= k < close.value ==> IsTagChar(sql[k])
    decreases |sql| - i
  {
    if i == |sql| then None
    else if sql[i] == '$' then Some(i)
    else if IsTagChar(sql[i]) then TagClose(sql, i + 1)
    else None
  }

  /** The length of the dollar tag at `i`: `$$`, or a name between dollars; 0 if there is none. */
  function TagLength(sql: string, i: nat): (length: nat)
    requires i < |sql|
    ensures length > 0 ==> length >= 2 && i + length <= |sql| && sql[i] == '$' && sql[i + length - 1] == '$'
    ensures length > 0 ==> forall k :: i < k < i + length - 1 ==> IsTagChar(sql[k])
  {
    if sql[i] != '$' || i + 1 == |sql| then 0
    else if sql[i + 1] == '$' then 2
    else if !IsTagStart(sql[i + 1]) then 0
    else
      var close := TagClose(sql, i + 1);
      if close.None? then 0 else close.value - i + 1
  }

  /** `sql.indexOf(pattern, from)` */
  function IndexOf(sql: string, pattern: string, from: nat): (at: Option<nat>)
    requires from <= |sql|
    ensures at.Some? ==>
      from <= at.value && at.value + |pattern| <= |sql| && sql[at.value..at.value + |pattern|] == pattern
    decreases |sql| - from
  {
    if from + |pattern| > |sql| then None
    else if sql[from..from + |pattern|] == pattern then Some(from)
    else if from == |sql| then None
    else IndexOf(sql, pattern, from + 1)
  }

  function TokenAt(sql: string, i: nat): (t: Token)
    requires i < |sql|
    ensures i < t.end <= |sql|
    ensures t.kind.Plain? ==> t.end == i + 1
  {
    if PairAt(sql, i, '-', '-') then Token(LineComment, LineEnd(sql, i + 2))
    else if PairAt(sql, i, '/', '*') then
      var end := BlockEnd(sql, i + 2, 1);
      if end.None? then Token(Unterminated, |sql|) else Token(BlockComment, end.value)
    else if IsQuote(sql[i]) then
      Token(Quoted, QuoteEnd(sql, i + 1, sql[i], HasBackslashEscapes(sql, i)))
    else
      var length := TagLength(sql, i);
      if length == 0 then Token(Plain, i + 1) else
      var close := IndexOf(sql, sql[i..i + length], i + length);
      if close.None? then Token(Unterminated, |sql|) else Token(DollarQuoted, close.value + length)
  }

  // ---------------------------------------------------------------- what the mask makes of a token

  function Blanks(n: nat): (s: string)
    ensures |s| == n && forall k :: 0 <= k < n ==> s[k] == ' '
  {
    Repeat(' ', n)
  }

  /** `replaceAll(/[^\n]/gu, " ")` */
  function KeepLineBreaks(s: string): (masked: string)
    ensures |masked| == |s|
    ensures forall k :: 0 <= k < |s| ==> masked[k] == ' ' || (masked[k] == '\n' && s[k] == '\n')
  {
    seq(|s|, k requires 0 <= k < |s| => if s[k] == '\n' then '\n' else ' ')
  }

  /** The masked body of a literal: line breaks stay, except behind a backslash. */
  function QuotedText(sql: string, j: nat, quote: char, escapes: bool): (masked: string)
    requires j <= |sql|
    ensures |masked| == QuoteEnd(sql, j, quote, escapes) - j
    ensures forall k :: 0 <= k < |masked| ==> masked[k] == ' ' || (masked[k] == '\n' && sql[j + k] == '\n')
    decreases |sql| - j
  {
    if j == |sql| then ""
    else if escapes && sql[j] == '\\' then
      if j + 1 < |sql| then "  " + QuotedText(sql, j + 2, quote, escapes) else " "
    else if sql[j] == quote then
      if j + 1 < |sql| && sql[j + 1] == quote then "  " + QuotedText(sql, j + 2, quote, escapes) else " "
    else [if sql[j] == '\n' then '\n' else ' '] + QuotedText(sql, j + 1, quote, escapes)
  }

  function MaskToken(sql: string, i: nat): (masked: string)
    requires i < |sql|
    ensures |masked| == TokenAt(sql, i).end - i
  {
    var t := TokenAt(sql, i);
    match t.kind
    case Plain => [sql[i]]
    case LineComment => Blanks(t.end - i)
    case Unterminated => Blanks(t.end - i)
    case BlockComment => KeepLineBreaks(sql[i..t.end])
    case DollarQuoted => KeepLineBreaks(sql[i..t.end])
    case Quoted => " " + QuotedText(sql, i + 1, sql[i], HasBackslashEscapes(sql, i))
  }

  /** The mask: token after token. */
  function MaskFrom(sql: string, i: nat): (masked: string)
    requires i <= |sql|
    ensures |masked| == |sql| - i
    decreases |sql| - i
  {
    if i == |sql| then "" else MaskToken(sql, i) + MaskFrom(sql, TokenAt(sql, i).end)
  }

  function Mask(sql: string): string {
    MaskFrom(sql, 0)
  }

  // ---------------------------------------------------------------- the loops

  lemma MaskStep(sql: string, i: nat)
    requires i < |sql|
    ensures MaskFrom(sql, i) == MaskToken(sql, i) + MaskFrom(sql, TokenAt(sql, i).end)
  {
  }

  method FindBlockEnd(sql: string, index: nat) returns (cursor: nat, commentDepth: nat)
    requires index + 2 <= |sql|
    ensures cursor <= |sql|
    ensures BlockEnd(sql, index + 2, 1) == if commentDepth > 0 then None else Some(cursor)
  {
    commentDepth := 1;
    cursor := index + 2;
    while cursor < |sql| && commentDepth > 0
      invariant index + 2 <= cursor <= |sql|
      invariant BlockEnd(sql, cursor, commentDepth) == BlockEnd(sql, index + 2, 1)
      decreases |sql| - cursor
    {
      if PairAt(sql, cursor, '/', '*') {
        commentDepth := commentDepth + 1;
        cursor := cursor + 2;
        continue;
      }
      if PairAt(sql, cursor, '*', '/') {
        commentDepth := commentDepth - 1;
        cursor := cursor + 2;
        continue;
      }
      cursor := cursor + 1;
    }
  }

  /** One turn of the literal loop: how the masked text and the end follow from the next character. */
  lemma LiteralTurn(sql: string, j: nat, quote: char, escapes: bool)
    requires j < |sql|
    ensures var text, end := QuotedText(sql, j, quote, escapes), QuoteEnd(sql, j, quote, escapes);
            if escapes && sql[j] == '\\' then
              if j + 1 < |sql|
              then text == "  " + QuotedText(sql, j + 2, quote, escapes) && end == QuoteEnd(sql, j + 2, quote, escapes)
              else text == " " && end == |sql|
            else if sql[j] == quote then
              if j + 1 < |sql| && sql[j + 1] == quote
              then text == "  " + QuotedText(sql, j + 2, quote, escapes) && end == QuoteEnd(sql, j + 2, quote, escapes)
              else text == " " && end == j + 1
            else text == [if sql[j] == '\n' then '\n' else ' '] + QuotedText(sql, j + 1, quote, escapes)
                 && end == QuoteEnd(sql, j + 1, quote, escapes)
  {
  }

  lemma LiteralAtEnd(sql: string, quote: char, escapes: bool)
    ensures QuotedText(sql, |sql|, quote, escapes) == "" && QuoteEnd(sql, |sql|, quote, escapes) == |sql|
  {
  }

  method MaskQuoted(sql: string, start: nat) returns (masked: string, index: nat)
    requires start < |sql| && IsQuote(sql[start])
    ensures masked == " " + QuotedText(sql, start + 1, sql[start], HasBackslashEscapes(sql, start))
    ensures index == QuoteEnd(sql, start + 1, sql[start], HasBackslashEscapes(sql, start))
  {
    hide QuotedText, QuoteEnd, HasBackslashEscapes;
    var quote := sql[start];
    var escapes := HasBackslashEscapes(sql, start);
    masked := " ";
    index := start + 1;
    LiteralAtEnd(sql, quote, escapes);
    while index < |sql|
      invariant index <= |sql|
      invariant masked + QuotedText(sql, index, quote, escapes) == " " + QuotedText(sql, start + 1, quote, escapes)
      invariant QuoteEnd(sql, index, quote, escapes) == QuoteEnd(sql, start + 1, quote, escapes)
      decreases |sql| - index
    {
      LiteralTurn(sql, index, quote, escapes);
      if escapes && sql[index] == '\\' {
        // Math.min(2, sql.length - index) blanks; the index may step past the end.
        masked := masked + if index + 1 < |sql| then "  " else " ";
        index := if index + 1 < |sql| then index + 2 else |sql|;
        continue;
      }
      if sql[index] == quote {
        if index + 1 < |sql| && sql[index + 1] == quote {
          masked := masked + "  ";
          index := index + 2;
          continue;
        }
        masked := masked + " ";
        index := index + 1;
        return;
      }
      masked := masked + [if sql[index] == '\n' then '\n' else ' '];
      index := index + 1;
    }
    assert masked + "" == masked;
  }

  method MaskSqlStringsAndComments(sql: string) returns (masked: string)
    ensures masked == Mask(sql)
  {
    hide MaskToken, TokenAt, Mask;
    masked := "";
    var index := 0;
    assert masked + MaskFrom(sql, 0) == Mask(sql) by { MaskStarts(sql); }
    while index < |sql|
      invariant index <= |sql|
      invariant masked + MaskFrom(sql, index) == Mask(sql)
      decreases |sql| - index
    {
      MaskStep(sql, index);
      var piece, end := MaskOneToken(sql, index);
      ghost var before := masked;
      masked := masked + piece;
      assert masked + MaskFrom(sql, end) == before + (piece + MaskFrom(sql, end));
      index := end;
    }
    assert masked + "" == masked;
  }

  lemma MaskStarts(sql: string)
    ensures "" + MaskFrom(sql, 0) == Mask(sql)
  {
  }

  /** The body of the outer loop: what it appends, and where it goes on. */
  method MaskOneToken(sql: string, index: nat) returns (piece: string, end: nat)
    requires index < |sql|
    ensures piece == MaskToken(sql, index) && end == TokenAt(sql, index).end
  {
    hide LineEnd, BlockEnd, QuotedText, QuoteEnd, TagLength, IndexOf, HasBackslashEscapes, KeepLineBreaks;
    if PairAt(sql, index, '-', '-') {
      end := LineEnd(sql, index + 2);
      piece := Blanks(end - index);
    } else if PairAt(sql, index, '/', '*') {
      var cursor, commentDepth := FindBlockEnd(sql, index);
      if commentDepth > 0 {
        end := |sql|;
        piece := Blanks(end - index);
      } else {
        end := cursor;
        piece := KeepLineBreaks(sql[index..cursor]);
      }
    } else if IsQuote(sql[index]) {
      piece, end := MaskQuoted(sql, index);
    } else {
      var length := TagLength(sql, index);
      if length > 0 {
        var close := IndexOf(sql, sql[index..index + length], index + length);
        if close.None? {
          end := |sql|;
          piece := Blanks(end - index);
        } else {
          end := close.value + length;
          piece := KeepLineBreaks(sql[index..end]);
        }
      } else {
        piece := [sql[index]];
        end := index + 1;
      }
    }
  }

  // ---------------------------------------------------------------- what survives

  /** A masked character is a blank, a line break of the input, or code: a place where no token starts. */
  predicate IsMaskedChar(sql: string, k: nat, c: char)
    requires k < |sql|
  {
    || c == ' '
    || (c == '\n' && sql[k] == '\n')
    || (c == sql[k] && TokenAt(sql, k).kind.Plain?)
  }

  lemma TokenChars(sql: string, i: nat)
    requires i < |sql|
    ensures forall n :: 0 <= n < |MaskToken(sql, i)| ==> IsMaskedChar(sql, i + n, MaskToken(sql, i)[n])
  {
    hide BlockEnd, LineEnd, TagLength, QuotedText, QuoteEnd, IndexOf, HasBackslashEscapes;
    var t, masked := TokenAt(sql, i), MaskToken(sql, i);
    forall n | 0 <= n < |masked| ensures IsMaskedChar(sql, i + n, masked[n]) {
      if t.kind.Quoted? {
        var body := QuotedText(sql, i + 1, sql[i], HasBackslashEscapes(sql, i));
        assert n > 0 ==> masked[n] == body[n - 1];
      } else if t.kind.BlockComment? || t.kind.DollarQuoted? {
        assert sql[i..t.end][n] == sql[i + n];
      }
    }
  }

  lemma {:induction false} MaskedFrom(sql: string, i: nat)
    requires i <= |sql|
    ensures forall n :: 0 <= n < |MaskFrom(sql, i)| ==> IsMaskedChar(sql, i + n, MaskFrom(sql, i)[n])
    decreases |sql| - i
  {
    hide TokenAt, MaskToken, IsMaskedChar;
    if i < |sql| {
      var end := TokenAt(sql, i).end;
      TokenChars(sql, i);
      MaskedFrom(sql, end);
      var head, tail := MaskToken(sql, i), MaskFrom(sql, end);
      forall n | 0 <= n < |head + tail| ensures IsMaskedChar(sql, i + n, (head + tail)[n]) {
        if n < |head| {
          assert (head + tail)[n] == head[n];
        } else {
          assert (head + tail)[n] == tail[n - |head|];
          assert end + (n - |head|) == i + n;
        }
      }
    }
  }

  /**
   The mask has the length of the text, each of its characters is the character at that place or a
   blank, and no quote survives.
   */
  lemma MaskOnlyBlanks(sql: string)
    ensures |Mask(sql)| == |sql|
    ensures forall k :: 0 <= k < |sql| ==> Mask(sql)[k] == sql[k] || Mask(sql)[k] == ' '
    ensures forall k :: 0 <= k < |sql| ==> !IsQuote(Mask(sql)[k])
  {
    hide MaskFrom, BlockEnd, LineEnd, TagLength, QuoteEnd, IndexOf;
    MaskedFrom(sql, 0);
    forall k | 0 <= k < |sql|
      ensures Mask(sql)[k] == sql[k] || Mask(sql)[k] == ' '
      ensures !IsQuote(Mask(sql)[k])
    {
      assert IsMaskedChar(sql, 0 + k, MaskFrom(sql, 0)[k]);
    }
  }

  /** Agreement on the characters of a tag carries over the tag. */
  lemma {:induction false} TagCloseAgrees(a: string, b: string, i: nat)
    requires |a| == |b| && i <= |a|
    requires TagClose(a, i).Some? && forall k :: i <= k <= TagClose(a, i).value ==> a[k] == b[k]
    ensures TagClose(b, i) == TagClose(a, i)
    decreases |a| - i
  {
    if a[i] != '$' {
      TagCloseAgrees(a, b, i + 1);
    }
  }

  lemma TagAgrees(a: string, b: string, i: nat)
    requires |a| == |b| && i < |a|
    requires TagLength(a, i) > 0 && forall k :: i <= k < i + TagLength(a, i) ==> a[k] == b[k]
    ensures TagLength(b, i) > 0
  {
    hide TagClose;
    if a[i + 1] != '$' {
      TagCloseAgrees(a, b, i + 1);
    }
  }

  /** In a masked text no token starts anywhere. */
  lemma MaskedIsPlain(sql: string, i: nat)
    requires i < |Mask(sql)| == |sql|
    ensures TokenAt(Mask(sql), i).kind.Plain?
  {
    var out := Mask(sql);
    MaskedPlaces(sql);
    hide Mask, BlockEnd, LineEnd, QuoteEnd, IndexOf, TagClose;
    if out[i] == sql[i] && TokenAt(sql, i).kind.Plain? {
      assert i + 1 < |sql| && out[i + 1] != ' ' ==> out[i + 1] == sql[i + 1];
      if TagLength(out, i) > 0 {
        forall k | i <= k < i + TagLength(out, i) ensures out[k] == sql[k] {
          assert out[k] != ' ';
        }
        TagAgrees(out, sql, i);
      }
    }
  }

  lemma MaskedPlaces(sql: string)
    ensures |Mask(sql)| == |sql|
    ensures forall k :: 0 <= k < |sql| ==>
              || Mask(sql)[k] == ' '
              || Mask(sql)[k] == '\n' == sql[k]
              || (Mask(sql)[k] == sql[k] && TokenAt(sql, k).kind.Plain? && !IsQuote(Mask(sql)[k]))
  {
    MaskOnlyBlanks(sql);
    hide MaskFrom, TokenAt;
    MaskedFrom(sql, 0);
    forall k | 0 <= k < |sql|
      ensures || Mask(sql)[k] == ' '
              || Mask(sql)[k] == '\n' == sql[k]
              || (Mask(sql)[k] == sql[k] && TokenAt(sql, k).kind.Plain? && !IsQuote(Mask(sql)[k]))
    {
      assert IsMaskedChar(sql, 0 + k, MaskFrom(sql, 0)[k]);
    }
  }

  lemma {:induction false} PlainTextStays(text: string, i: nat)
    requires i <= |text| && forall k :: i <= k < |text| ==> TokenAt(text, k).kind.Plain?
    ensures MaskFrom(text, i) == text[i..]
    decreases |text| - i
  {
    hide TokenAt;
    if i < |text| {
      PlainTextStays(text, i + 1);
      assert text[i..] == [text[i]] + text[i + 1..];
    }
  }

  /** Masking twice is masking once. */
  lemma MaskIsIdempotent(sql: string)
    ensures Mask(Mask(sql)) == Mask(sql)
  {
    MaskOnlyBlanks(sql);
    hide MaskFrom, TokenAt;
    var out := Mask(sql);
    forall k | 0 <= k < |out| ensures TokenAt(out, k).kind.Plain? {
      MaskedIsPlain(sql, k);
    }
    PlainTextStays(out, 0);
  }

  // ---------------------------------------------------------------- what counts as one token

  /** Comments nest: leaving a + b levels is leaving a levels and then b more. */
  lemma {:induction false} NestingComposes(sql: string, cursor: nat, a: nat, b: nat)
    requires cursor <= |sql|
    ensures BlockEnd(sql, cursor, a + b)
         == var inner := BlockEnd(sql, cursor, a);
            if inner.None? then None else BlockEnd(sql, inner.value, b)
    decreases |sql| - cursor
  {
    if a == 0 || cursor == |sql| {
    } else if PairAt(sql, cursor, '/', '*') {
      NestingComposes(sql, cursor + 2, a + 1, b);
    } else if PairAt(sql, cursor, '*', '/') {
      NestingComposes(sql, cursor + 2, a - 1, b);
    } else {
      NestingComposes(sql, cursor + 1, a, b);
    }
  }

  function DoubleQuotes(content: string, quote: char): string {
    if content == "" then ""
    else (if content[0] == quote then [quote, quote] else [content[0]]) + DoubleQuotes(content[1..], quote)
  }

  lemma {:induction false} LiteralBodyEnds(before: string, content: string, quote: char, after: string)
    requires after == "" || after[0] != quote
    ensures var sql := before + DoubleQuotes(content, quote) + [quote] + after;
            QuoteEnd(sql, |before|, quote, false) == |before| + |DoubleQuotes(content, quote)| + 1
    decreases |content|
  {
    var body := DoubleQuotes(content, quote);
    var sql := before + body + [quote] + after;
    if content == "" {
      assert sql[|before|] == quote;
      assert |before| + 1 < |sql| ==> sql[|before| + 1] == after[0];
    } else {
      var first := if content[0] == quote then [quote, quote] else [content[0]];
      LiteralBodyEnds(before + first, content[1..], quote, after);
      assert body == first + DoubleQuotes(content[1..], quote);
      assert sql == (before + first) + DoubleQuotes(content[1..], quote) + [quote] + after;
      assert sql[|before|] == content[0];
    }
  }

  /** Whatever the content of a literal or quoted name, with its quotes doubled it is one token. */
  lemma LiteralIsOneToken(before: string, content: string, quote: char, after: string)
    requires IsQuote(quote) && (after == "" || after[0] != quote)
    requires quote == '\'' && before != "" && (before[|before| - 1] == 'E' || before[|before| - 1] == 'e') ==>
               |before| >= 2 && IsWordChar(before[|before| - 2])
    ensures var sql := before + [quote] + DoubleQuotes(content, quote) + [quote] + after;
            TokenAt(sql, |before|) == Token(Quoted, |before| + |DoubleQuotes(content, quote)| + 2)
  {
    hide QuoteEnd;
    var sql := before + [quote] + DoubleQuotes(content, quote) + [quote] + after;
    assert sql[|before|] == quote;
    assert before != "" ==> sql[|before| - 1] == before[|before| - 1];
    assert sql == (before + [quote]) + DoubleQuotes(content, quote) + [quote] + after;
    LiteralBodyEnds(before + [quote], content, quote, after);
  }

  lemma {:induction false} LineEndIsBreak(sql: string, i: nat)
    requires i <= |sql|
    ensures LineEnd(sql, i) == |sql| || sql[LineEnd(sql, i)] == '\n'
    decreases |sql| - i
  {
    if i < |sql| && sql[i] != '\n' {
      LineEndIsBreak(sql, i + 1);
    }
  }

  /** A comment runs from its two dashes up to the next line break. */
  lemma LineCommentIsOneToken(before: string, content: string, after: string)
    requires '\n' !in content && (after == "" || after[0] == '\n')
    ensures TokenAt(before + "--" + content + after, |before|) == Token(LineComment, |before| + 2 + |content|)
  {
    var sql, end := before + "--" + content + after, |before| + 2 + |content|;
    hide BlockEnd, QuoteEnd, TagLength, IndexOf, LineEnd;
    assert PairAt(sql, |before|, '-', '-');
    var found := LineEnd(sql, |before| + 2);
    LineEndIsBreak(sql, |before| + 2);
    assert forall k :: |before| + 2 <= k < end ==> sql[k] == content[k - |before| - 2];
    assert end < |sql| ==> sql[end] == after[0];
    assert found >= end;
  }

  /** The inside of a block comment: characters and whole comments. */
  datatype Body = Closed | Char(c: char, rest: Body) | Nested(inner: Body, rest: Body)

  /** A body with the mark that closes its comment. */
  function BodyText(body: Body): string {
    match body
    case Closed => "*/"
    case Char(c, rest) => [c] + BodyText(rest)
    case Nested(inner, rest) => "/*" + BodyText(inner) + BodyText(rest)
  }

  /** No character of it begins a mark. */
  predicate IsBody(body: Body) {
    match body
    case Closed => true
    case Char(c, rest) =>
      IsBody(rest) && !PairAt(BodyText(body), 0, '/', '*') && !PairAt(BodyText(body), 0, '*', '/')
    case Nested(inner, rest) => IsBody(inner) && IsBody(rest)
  }

  lemma BodyIsLong(body: Body)
    ensures |BodyText(body)| >= 2
  {
  }

  lemma {:induction false} BodyEnds(before: string, body: Body, after: string, depth: nat)
    requires IsBody(body)
    ensures BlockEnd(before + BodyText(body) + after, |before|, depth + 1)
         == BlockEnd(before + BodyText(body) + after, |before| + |BodyText(body)|, depth)
    decreases body
  {
    hide BlockEnd, BodyText;
    var sql := before + BodyText(body) + after;
    BodyStarts(before, body, after);
    BlockTurn(sql, |before|, depth + 1);
    match body
    case Closed =>
    case Char(c, rest) =>
      BodyEnds(before + [c], rest, after, depth);
      assert sql == (before + [c]) + BodyText(rest) + after;
    case Nested(inner, rest) =>
      BodyEnds(before + "/*", inner, BodyText(rest) + after, depth + 1);
      assert sql == (before + "/*") + BodyText(inner) + (BodyText(rest) + after);
      BodyEnds(before + "/*" + BodyText(inner), rest, after, depth);
      assert sql == (before + "/*" + BodyText(inner)) + BodyText(rest) + after;
  }

  lemma BodyStarts(before: string, body: Body, after: string)
    requires IsBody(body)
    ensures var sql, i := before + BodyText(body) + after, |before|;
            match body
            case Closed => BodyText(body) == "*/" && PairAt(sql, i, '*', '/') && !PairAt(sql, i, '/', '*')
            case Char(c, rest) =>
              BodyText(body) == [c] + BodyText(rest) && !PairAt(sql, i, '/', '*') && !PairAt(sql, i, '*', '/')
            case Nested(inner, rest) =>
              BodyText(body) == "/*" + BodyText(inner) + BodyText(rest) && PairAt(sql, i, '/', '*')
    ensures |before| + 2 <= |before + BodyText(body) + after|
  {
    BodyIsLong(body);
    var sql, i, text := before + BodyText(body) + after, |before|, BodyText(body);
    hide BodyText;
    assert sql[i] == text[0] && sql[i + 1] == text[1];
    BodyTextOf(body);
  }

  lemma BodyTextOf(body: Body)
    ensures match body
            case Closed => BodyText(body) == "*/"
            case Char(c, rest) => BodyText(body) == [c] + BodyText(rest)
            case Nested(inner, rest) => BodyText(body) == "/*" + BodyText(inner) + BodyText(rest)
  {
  }

  lemma BlockTurn(sql: string, cursor: nat, depth: nat)
    requires cursor < |sql| && depth >= 1
    ensures BlockEnd(sql, cursor, depth) ==
              if PairAt(sql, cursor, '/', '*') then BlockEnd(sql, cursor + 2, depth + 1)
              else if PairAt(sql, cursor, '*', '/') then BlockEnd(sql, cursor + 2, depth - 1)
              else BlockEnd(sql, cursor + 1, depth)
  {
  }

  /** A comment with any comments nested in it is one token. */
  lemma CommentIsOneToken(before: string, body: Body, after: string)
    requires IsBody(body)
    ensures TokenAt(before + "/*" + BodyText(body) + after, |before|)
         == Token(BlockComment, |before| + 2 + |BodyText(body)|)
  {
    hide LineEnd, QuoteEnd, TagLength, IndexOf, BodyText;
    var sql := before + "/*" + BodyText(body) + after;
    assert PairAt(sql, |before|, '/', '*');
    assert sql == (before + "/*") + BodyText(body) + after;
    BodyEnds(before + "/*", body, after, 0);
  }

  /** Every comment that ends is of that form. */
  lemma {:induction false} EndedCommentIsBody(sql: string, cursor: nat, depth: nat) returns (body: Body, rest: nat)
    requires cursor <= |sql| && BlockEnd(sql, cursor, depth + 1).Some?
    ensures IsBody(body) && cursor + |BodyText(body)| <= rest == cursor + |BodyText(body)| <= |sql|
    ensures sql[cursor..rest] == BodyText(body)
    ensures BlockEnd(sql, cursor, depth + 1) == BlockEnd(sql, rest, depth)
    decreases |sql| - cursor
  {
    hide BlockEnd;
    EndOfText(sql, depth + 1);
    BlockTurn(sql, cursor, depth + 1);
    if PairAt(sql, cursor, '/', '*') {
      var inner, middle := EndedCommentIsBody(sql, cursor + 2, depth + 1);
      var outer, end := EndedCommentIsBody(sql, middle, depth);
      body, rest := Nested(inner, outer), end;
      assert sql[cursor..end] == sql[cursor..cursor + 2] + sql[cursor + 2..middle] + sql[middle..end];
      assert sql[cursor..cursor + 2] == "/*";
    } else if PairAt(sql, cursor, '*', '/') {
      body, rest := Closed, cursor + 2;
      assert sql[cursor..cursor + 2] == "*/";
    } else {
      var outer, end := EndedCommentIsBody(sql, cursor + 1, depth);
      body, rest := Char(sql[cursor], outer), end;
      assert sql[cursor..end] == [sql[cursor]] + sql[cursor + 1..end];
      BodyIsLong(outer);
      assert BodyText(body)[1] == sql[cursor + 1] by { assert sql[cursor..end][1] == sql[cursor + 1]; }
    }
  }

  lemma EndOfText(sql: string, depth: nat)
    requires depth >= 1
    ensures BlockEnd(sql, |sql|, depth).None?
  {
  }

  /** A text whose quotes and backslashes are each behind a backslash. */
  function Escaped(content: string, quote: char): string {
    if content == "" then ""
    else (if content[0] == quote || content[0] == '\\' then ['\\', content[0]] else [content[0]])
         + Escaped(content[1..], quote)
  }

  lemma {:induction false} EscapedBodyEnds(before: string, content: string, quote: char, after: string)
    requires IsQuote(quote) && (after == "" || after[0] != quote)
    ensures var sql := before + Escaped(content, quote) + [quote] + after;
            QuoteEnd(sql, |before|, quote, true) == |before| + |Escaped(content, quote)| + 1
    decreases |content|
  {
    var body := Escaped(content, quote);
    var sql := before + body + [quote] + after;
    if content == "" {
      assert sql[|before|] == quote;
      assert |before| + 1 < |sql| ==> sql[|before| + 1] == after[0];
    } else {
      var first := if content[0] == quote || content[0] == '\\' then ['\\', content[0]] else [content[0]];
      EscapedBodyEnds(before + first, content[1..], quote, after);
      assert sql == (before + first) + Escaped(content[1..], quote) + [quote] + after;
      assert sql[|before|] == first[0];
    }
  }

  /** Behind a stand-alone E, a literal with backslashes before its quotes and backslashes is one token. */
  lemma EscapedLiteralIsOneToken(before: string, e: char, content: string, after: string)
    requires (e == 'E' || e == 'e') && (before == "" || !IsWordChar(before[|before| - 1]))
    requires after == "" || after[0] != '\''
    ensures var sql := before + [e] + "'" + Escaped(content, '\'') + "'" + after;
            TokenAt(sql, |before| + 1) == Token(Quoted, |before| + |Escaped(content, '\'')| + 3)
  {
    hide QuoteEnd;
    var body := Escaped(content, '\'');
    var sql := before + [e] + "'" + body + "'" + after;
    assert sql[|before| + 1] == '\'' && sql[|before|] == e;
    assert before != "" ==> sql[|before| - 1] == before[|before| - 1];
    assert sql == (before + [e] + "'") + body + ['\''] + after;
    EscapedBodyEnds(before + [e] + "'", content, '\'', after);
  }

  /** `$$` or a name between dollars. */
  predicate IsTag(tag: string) {
    && |tag| >= 2 && tag[0] == '$' && tag[|tag| - 1] == '$'
    && (|tag| > 2 ==> IsTagStart(tag[1]))
    && forall k :: 1 <= k < |tag| - 1 ==> IsTagChar(tag[k])
  }

  lemma {:induction false} TagCloses(sql: string, i: nat, end: nat)
    requires i <= end < |sql| && sql[end] == '$' && forall k :: i <= k < end ==> IsTagChar(sql[k])
    ensures TagClose(sql, i) == Some(end)
    decreases end - i
  {
    if i < end {
      TagCloses(sql, i + 1, end);
    }
  }

  lemma TagIsRead(sql: string, i: nat, tag: string)
    requires IsTag(tag) && i + |tag| <= |sql| && sql[i..i + |tag|] == tag
    ensures TagLength(sql, i) == |tag|
  {
    hide TagClose;
    assert forall k :: 0 <= k < |tag| ==> sql[i + k] == tag[k];
    if |tag| > 2 {
      TagCloses(sql, i + 1, i + |tag| - 1);
    }
  }

  lemma {:induction false} FirstOccurrence(sql: string, pattern: string, from: nat, at: nat)
    requires from <= at && OccursAt(pattern, sql, at)
    requires forall k :: from <= k < at ==> !OccursAt(pattern, sql, k)
    ensures IndexOf(sql, pattern, from) == Some(at)
    decreases at - from
  {
    if from < at {
      assert !OccursAt(pattern, sql, from);
      FirstOccurrence(sql, pattern, from + 1, at);
    }
  }

  lemma OccursBehind(before: string, text: string, after: string, pattern: string, k: nat)
    requires k + |pattern| <= |text|
    ensures OccursAt(pattern, before + text + after, |before| + k) == OccursAt(pattern, text, k)
  {
    var sql := before + text + after;
    assert sql[|before| + k..|before| + k + |pattern|] == text[k..k + |pattern|];
  }

  /** A body between two equal tags, the second at its first occurrence, is one token. */
  lemma DollarBodyIsOneToken(before: string, tag: string, body: string, after: string)
    requires IsTag(tag)
    requires forall k :: 0 <= k < |body| ==> !OccursAt(tag, body + tag, k)
    ensures TokenAt(before + tag + (body + tag) + after, |before|)
         == Token(DollarQuoted, |before| + 2 * |tag| + |body|)
  {
    var sql, start := before + tag + (body + tag) + after, |before| + |tag|;
    hide LineEnd, BlockEnd, QuoteEnd, TagLength, IndexOf, OccursAt;
    assert sql[|before|] == tag[0] == '$';
    assert sql[|before|..start] == tag;
    TagIsRead(sql, |before|, tag);
    forall k | start <= k < start + |body| ensures !OccursAt(tag, sql, k) {
      OccursBehind(before + tag, body + tag, after, tag, k - start);
    }
    OccursBehind(before + tag, body + tag, after, tag, |body|);
    assert OccursAt(tag, body + tag, |body|) by { TagAtEnd(body, tag); }
    FirstOccurrence(sql, tag, start, start + |body|);
  }

  lemma TagAtEnd(body: string, tag: string)
    ensures OccursAt(tag, body + tag, |body|)
  {
  }

  /** And every tag that is read is of that form. */
  lemma ReadTagIsTag(sql: string, i: nat)
    requires i < |sql| && TagLength(sql, i) > 0
    ensures IsTag(sql[i..i + TagLength(sql, i)])
  {
    hide TagClose;
  }

  const CAPITALS := "ABCDEFGHIJKLMNOPQRSTUVWXYZ"
  const SMALL := "abcdefghijklmnopqrstuvwxyz"
  const DIGITS := "0123456789"

  /** The characters of words and of tags, spelled out. */
  lemma CharactersSpelledOut(c: char)
    ensures IsTagStart(c) <==> c in CAPITALS || c in SMALL || c == '_'
    ensures IsTagChar(c) <==> c in CAPITALS || c in SMALL || c in DIGITS || c == '_'
    ensures IsWordChar(c) <==> c in CAPITALS || c in SMALL || c in DIGITS || c == '_' || c == '$'
  {
    CapitalsSpelledOut(c);
    SmallSpelledOut(c);
    DigitsSpelledOut(c);
  }

  lemma CapitalsSpelledOut(c: char)
    ensures 'A' <= c <= 'Z' <==> c in CAPITALS
  {
    if 'A' <= c <= 'Z' {
      assert CAPITALS[c as int - 65] == c;
    }
  }

  lemma SmallSpelledOut(c: char)
    ensures 'a' <= c <= 'z' <==> c in SMALL
  {
    if 'a' <= c <= 'z' {
      assert SMALL[c as int - 97] == c;
    }
  }

  lemma DigitsSpelledOut(c: char)
    ensures '0' <= c <= '9' <==> c in DIGITS
  {
    if '0' <= c <= '9' {
      assert DIGITS[c as int - 48] == c;
    }
  }

  // ---------------------------------------------------------------- what the mask makes of the tokens

  /** Reading token after token from `from` on comes to `i`. */
  ghost predicate ReadsTo(sql: string, from: nat, i: nat)
    requires from <= |sql|
    decreases |sql| - from
  {
    from == i || (from < |sql| && ReadsTo(sql, TokenAt(sql, from).end, i))
  }

  lemma {:induction false} MaskReads(sql: string, from: nat, i: nat)
    requires from <= |sql| && i < |sql| && ReadsTo(sql, from, i)
    ensures from <= i
    ensures MaskFrom(sql, from)[i - from..TokenAt(sql, i).end - from] == MaskToken(sql, i)
    decreases |sql| - from
  {
    hide TokenAt, MaskToken;
    if from != i {
      var end := TokenAt(sql, from).end;
      MaskReads(sql, end, i);
      var head, tail := MaskToken(sql, from), MaskFrom(sql, end);
      assert (head + tail)[i - from..TokenAt(sql, i).end - from] == tail[i - end..TokenAt(sql, i).end - end];
    }
  }

  /** What the mask shows in the place of a token: code itself, and blanks for the rest but line breaks. */
  predicate Shows(sql: string, t: Token, k: nat, c: char)
    requires k < |sql|
  {
    match t.kind
    case Plain => c == sql[k]
    case LineComment => c == ' '
    case Unterminated => c == ' '
    case BlockComment => c == if sql[k] == '\n' then '\n' else ' '
    case DollarQuoted => c == if sql[k] == '\n' then '\n' else ' '
    case Quoted => c == ' ' || (c == '\n' && sql[k] == '\n')
  }

  /** Token by token, the mask keeps the code and blanks everything else. */
  lemma MaskShowsTokens(sql: string, i: nat, k: nat)
    requires i < |sql| && ReadsTo(sql, 0, i) && i <= k < TokenAt(sql, i).end
    ensures Shows(sql, TokenAt(sql, i), k, Mask(sql)[k])
  {
    hide ReadsTo, MaskFrom, BlockEnd, LineEnd, TagLength, QuotedText, QuoteEnd, IndexOf, HasBackslashEscapes;
    MaskReads(sql, 0, i);
    var t := TokenAt(sql, i);
    assert Mask(sql)[k] == Mask(sql)[i..t.end][k - i] == MaskToken(sql, i)[k - i];
    TokenShows(sql, i, k);
  }

  lemma TokenShows(sql: string, i: nat, k: nat)
    requires i < |sql| && i <= k < TokenAt(sql, i).end
    ensures Shows(sql, TokenAt(sql, i), k, MaskToken(sql, i)[k - i])
  {
    hide TokenAt, QuotedText, KeepLineBreaks, HasBackslashEscapes;
    var t := TokenAt(sql, i);
    match t.kind
    case Plain =>
    case LineComment =>
    case Unterminated =>
    case BlockComment => LineBreaksAreKept(sql, i, t.end, k);
    case DollarQuoted => LineBreaksAreKept(sql, i, t.end, k);
    case Quoted =>
      var body := QuotedText(sql, i + 1, sql[i], HasBackslashEscapes(sql, i));
      assert k > i ==> MaskToken(sql, i)[k - i] == body[k - i - 1];
  }

  lemma LineBreaksAreKept(sql: string, i: nat, end: nat, k: nat)
    requires i <= k < end <= |sql|
    ensures KeepLineBreaks(sql[i..end])[k - i] == if sql[k] == '\n' then '\n' else ' '
  {
  }
}
