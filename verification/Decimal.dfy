/** Fixed-width and free-width decimal numerals: how numbers get into and out of strings. */
module Decimal {

  predicate IsDigit(c: char) {
    '0' <= c <= '9'
  }

  predicate AllDigits(s: string) {
    forall i :: 0 <= i < |s| ==> IsDigit(s[i])
  }

  function DigitValue(c: char): nat
    requires IsDigit(c)
  {
    (c - '0') as nat
  }

  function DigitChar(d: nat): (c: char)
    requires d < 10
    ensures IsDigit(c) && DigitValue(c) == d
  {
    '0' + d as char
  }

  function Pow10(n: nat): (p: nat)
    ensures p >= 1
  {
    if n == 0 then 1 else 10 * Pow10(n - 1)
  }

  /** The number a digit string denotes, `Number(match[i])`. */
  function NumberOf(s: string): nat
    requires AllDigits(s)
  {
    if s == "" then 0 else 10 * NumberOf(s[..|s| - 1]) + DigitValue(s[|s| - 1])
  }

  /** `String(n).padStart(width, "0")` for a number that fits the width. */
  function Digits(width: nat, n: nat): (s: string)
    ensures |s| == width && AllDigits(s)
  {
    if width == 0 then "" else Digits(width - 1, n / 10) + [DigitChar(n % 10)]
  }

  /** Reading back a padded numeral gives the number it was made from. */
  lemma {:induction false} DigitsThenNumber(width: nat, n: nat)
    requires n < Pow10(width)
    ensures NumberOf(Digits(width, n)) == n
  {
    if width > 0 {
      DigitsThenNumber(width - 1, n / 10);
      assert Digits(width, n)[..width - 1] == Digits(width - 1, n / 10);
    }
  }

  /** A digit string is the padded numeral of the number it denotes. */
  lemma {:induction false} NumberThenDigits(s: string)
    requires AllDigits(s)
    ensures NumberOf(s) < Pow10(|s|) && Digits(|s|, NumberOf(s)) == s
  {
    if s != "" {
      var init, last := s[..|s| - 1], s[|s| - 1];
      NumberThenDigits(init);
      var n := NumberOf(s);
      assert n == 10 * NumberOf(init) + DigitValue(last);
      assert n / 10 == NumberOf(init) && n % 10 == DigitValue(last);
      assert DigitChar(n % 10) == last;
      assert s == init + [last];
    }
  }

  /** `String(n)`: the numeral without leading zeros. */
  function Show(n: nat): (s: string)
    ensures |s| >= 1 && AllDigits(s)
  {
    if n < 10 then [DigitChar(n)] else Show(n / 10) + [DigitChar(n % 10)]
  }

  lemma {:induction false} ShowThenNumber(n: nat)
    ensures NumberOf(Show(n)) == n
  {
    if n >= 10 {
      ShowThenNumber(n / 10);
      assert Show(n)[..|Show(n)| - 1] == Show(n / 10);
    } else {
      assert Show(n)[..0] == "";
    }
  }

  /** The end of the longest run of digits that starts at `i`. */
  function DigitRunEnd(s: string, i: nat): (end: nat)
    requires i <= |s|
    ensures i <= end <= |s| && AllDigits(s[i..end])
    ensures end < |s| ==> !IsDigit(s[end])
    decreases |s| - i
  {
    if i < |s| && IsDigit(s[i]) then DigitRunEnd(s, i + 1) else i
  }

  lemma {:induction false} DigitRunIsAll(rest: string, i: nat, end: nat)
    requires i <= end <= |rest| && AllDigits(rest[i..end]) && (end < |rest| ==> !IsDigit(rest[end]))
    ensures DigitRunEnd(rest, i) == end
    decreases end - i
  {
    if i < end {
      assert rest[i] == rest[i..end][0];
      assert rest[i + 1..end] == rest[i..end][1..];
      DigitRunIsAll(rest, i + 1, end);
    }
  }
}
