/** The JSON text of strings, optional strings and lists of string pairs, as JSON.stringify prints it. */
module JsonText {
  import opened Prelude
  import opened Decimal
  import opened Text

  function HexDigit(n: nat): (c: char)
    requires n < 16
    ensures c != '"' && c != '\\'
  {
    if n < 10 then DigitChar(n) else 'a' + (n - 10) as char
  }

  lemma HexDigitInjective(m: nat, n: nat)
    requires m < 16 && n < 16
    ensures HexDigit(m) == HexDigit(n) ==> m == n
  {
  }

  /** The letter of a two-character escape, or nothing. */
  function ShortEscape(c: char): Option<char> {
    if c == '"' then Some('"')
    else if c == '\\' then Some('\\')
    else if c == '\U{8}' then Some('b')
    else if c == '\U{c}' then Some('f')
    else if c == '\n' then Some('n')
    else if c == '\r' then Some('r')
    else if c == '\t' then Some('t')
    else None
  }

  function EscapeChar(c: char): (s: string)
    ensures s != "" && s[0] != '"'
  {
    if ShortEscape(c).Some? then ['\\', ShortEscape(c).value]
    else if c < ' ' then "\\u00" + [HexDigit(c as nat / 16), HexDigit(c as nat % 16)]
    else [c]
  }

  function Escaped(s: string): string {
    if s == "" then "" else EscapeChar(s[0]) + Escaped(s[1..])
  }

  function Quote(s: string): string {
    "\"" + Escaped(s) + "\""
  }

  /** A text without quotes, backslashes and control characters is printed as it is. */
  lemma {:induction false} PlainIsUnescaped(s: string)
    requires forall i :: 0 <= i < |s| ==> s[i] != '"' && s[i] != '\\' && s[i] >= ' '
    ensures Escaped(s) == s
  {
    if s != "" {
      PlainIsUnescaped(s[1..]);
    }
  }

  /** No escape is the beginning of another one. */
  lemma EscapeCharSplits(c: char, x: string, d: char, y: string)
    requires EscapeChar(c) + x == EscapeChar(d) + y
    ensures c == d && x == y
  {
    var text := EscapeChar(c) + x;
    assert text[0] == EscapeChar(c)[0] == EscapeChar(d)[0];
    if text[0] == '\\' {
      assert text[1] == EscapeChar(c)[1] == EscapeChar(d)[1];
      if text[1] == 'u' {
        assert text[4] == EscapeChar(c)[4] == EscapeChar(d)[4];
        assert text[5] == EscapeChar(c)[5] == EscapeChar(d)[5];
        HexDigitInjective(c as nat / 16, d as nat / 16);
        HexDigitInjective(c as nat % 16, d as nat % 16);
        assert c as nat == d as nat;
      }
    }
    PrefixCancels(EscapeChar(c), x, y);
  }

  lemma EscapedStart(s: string, x: string)
    ensures var text := Escaped(s) + ("\"" + x);
            text != "" && (text[0] == '"' <==> s == "")
  {
    hide EscapeChar;
  }

  lemma {:induction false} EscapedSplits(s: string, x: string, t: string, y: string)
    requires Escaped(s) + ("\"" + x) == Escaped(t) + ("\"" + y)
    ensures s == t && x == y
  {
    hide EscapeChar;
    var text := Escaped(s) + ("\"" + x);
    EscapedStart(s, x);
    EscapedStart(t, y);
    if s == "" {
      assert text == "\"" + x && Escaped(t) + ("\"" + y) == "\"" + y;
      PrefixCancels("\"", x, y);
    } else {
      var v, w := Escaped(s[1..]) + ("\"" + x), Escaped(t[1..]) + ("\"" + y);
      assert text == EscapeChar(s[0]) + v == EscapeChar(t[0]) + w;
      EscapeCharSplits(s[0], v, t[0], w);
      EscapedSplits(s[1..], x, t[1..], y);
      assert s == [s[0]] + s[1..] && t == [t[0]] + t[1..];
    }
  }

  /** A quoted string shows where it ends: what follows it cannot be mistaken for a part of it. */
  lemma QuoteSplits(s: string, x: string, t: string, y: string)
    requires Quote(s) + x == Quote(t) + y
    ensures s == t && x == y
  {
    hide Escaped;
    assert Quote(s) + x == "\"" + (Escaped(s) + ("\"" + x));
    assert Quote(t) + y == "\"" + (Escaped(t) + ("\"" + y));
    PrefixCancels("\"", Escaped(s) + ("\"" + x), Escaped(t) + ("\"" + y));
    EscapedSplits(s, x, t, y);
  }

  function OptionText(o: Option<string>): string {
    if o.None? then "null" else Quote(o.value)
  }

  lemma OptionSplits(o: Option<string>, x: string, p: Option<string>, y: string)
    requires OptionText(o) + x == OptionText(p) + y
    ensures o == p && x == y
  {
    assert (OptionText(o) + x)[0] == OptionText(o)[0];
    assert (OptionText(p) + y)[0] == OptionText(p)[0];
    if o.None? {
      PrefixCancels("null", x, y);
    } else {
      QuoteSplits(o.value, x, p.value, y);
    }
  }

  /** The pairs of an array, with its closing bracket. */
  function PairsText(pairs: seq<(string, string)>): (s: string)
    ensures s != ""
  {
    if pairs == [] then "]"
    else "[" + (Quote(pairs[0].0) + ("," + (Quote(pairs[0].1) + ("]" + MorePairsText(pairs[1..])))))
  }

  function MorePairsText(pairs: seq<(string, string)>): (s: string)
    ensures s != ""
  {
    if pairs == [] then "]"
    else ",[" + (Quote(pairs[0].0) + ("," + (Quote(pairs[0].1) + ("]" + MorePairsText(pairs[1..])))))
  }

  lemma PairSplits(opening: string, p: (string, string), x: string, q: (string, string), y: string)
    requires opening + (Quote(p.0) + ("," + (Quote(p.1) + ("]" + x)))) ==
      opening + (Quote(q.0) + ("," + (Quote(q.1) + ("]" + y))))
    ensures p == q && x == y
  {
    hide Quote;
    var a, b := Quote(p.1) + ("]" + x), Quote(q.1) + ("]" + y);
    PrefixCancels(opening, Quote(p.0) + ("," + a), Quote(q.0) + ("," + b));
    QuoteSplits(p.0, "," + a, q.0, "," + b);
    PrefixCancels(",", a, b);
    QuoteSplits(p.1, "]" + x, q.1, "]" + y);
    PrefixCancels("]", x, y);
  }

  lemma {:induction false} MorePairsInjective(pairs: seq<(string, string)>, others: seq<(string, string)>)
    requires MorePairsText(pairs) == MorePairsText(others)
    ensures pairs == others
  {
    hide Quote;
    assert MorePairsText(pairs)[0] == MorePairsText(others)[0];
    if pairs != [] {
      PairSplits(",[", pairs[0], MorePairsText(pairs[1..]), others[0], MorePairsText(others[1..]));
      MorePairsInjective(pairs[1..], others[1..]);
      assert pairs == [pairs[0]] + pairs[1..] && others == [others[0]] + others[1..];
    }
  }

  lemma PairsInjective(pairs: seq<(string, string)>, others: seq<(string, string)>)
    requires PairsText(pairs) == PairsText(others)
    ensures pairs == others
  {
    hide Quote;
    assert PairsText(pairs)[0] == PairsText(others)[0];
    if pairs != [] {
      PairSplits("[", pairs[0], MorePairsText(pairs[1..]), others[0], MorePairsText(others[1..]));
      MorePairsInjective(pairs[1..], others[1..]);
      assert pairs == [pairs[0]] + pairs[1..] && others == [others[0]] + others[1..];
    }
  }
}
