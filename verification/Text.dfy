/** String operations of ECMAScript that several components share. */
module Text {

  datatype Order = Less | Equal | Greater

  /** `left < right` and `left > right` on strings compare code unit by code unit. */
  function CompareText(left: string, right: string): Order {
    if left == "" then
      if right == "" then Equal else Less
    else if right == "" then Greater
    else if left[0] < right[0] then Less
    else if left[0] > right[0] then Greater
    else CompareText(left[1..], right[1..])
  }

  function Flip(o: Order): Order {
    match o
    case Less => Greater
    case Equal => Equal
    case Greater => Less
  }

  /** The text order is total: only equal strings compare equal, and swapping flips the answer. */
  lemma {:induction false} CompareTextTotal(left: string, right: string)
    ensures CompareText(left, right) == Equal <==> left == right
    ensures CompareText(right, left) == Flip(CompareText(left, right))
  {
    if left != "" && right != "" {
      CompareTextTotal(left[1..], right[1..]);
      assert left == [left[0]] + left[1..] && right == [right[0]] + right[1..];
    }
  }

  lemma {:induction false} CompareTextTransitive(a: string, b: string, c: string)
    requires CompareText(a, b) != Greater && CompareText(b, c) != Greater
    ensures CompareText(a, c) != Greater
    ensures CompareText(a, b) == Less || CompareText(b, c) == Less ==> CompareText(a, c) == Less
  {
    if a != "" && b != "" && c != "" && a[0] == b[0] == c[0] {
      CompareTextTransitive(a[1..], b[1..], c[1..]);
    } else {
      CompareTextTotal(a, b);
      CompareTextTotal(b, c);
    }
  }

  function Repeat(c: char, n: nat): (s: string)
    ensures |s| == n && forall i :: 0 <= i < n ==> s[i] == c
  {
    seq(n, _ => c)
  }

  function PadEnd(s: string, width: nat, fill: char): string {
    if |s| >= width then s else s + Repeat(fill, width - |s|)
  }

  predicate StartsWith(text: string, prefix: string) {
    |prefix| <= |text| && text[..|prefix|] == prefix
  }

  predicate OccursAt(needle: string, text: string, i: nat) {
    i + |needle| <= |text| && text[i..i + |needle|] == needle
  }

  lemma StartsWithAt(text: string, prefix: string, i: nat)
    requires i < |prefix|
    ensures StartsWith(text, prefix) ==> i < |text| && text[i] == prefix[i]
  {
    assert StartsWith(text, prefix) ==> text[..|prefix|][i] == prefix[i];
  }

  lemma PrefixCancels(p: string, x: string, y: string)
    ensures p + x == p + y <==> x == y
  {
    assert (p + x)[|p|..] == x && (p + y)[|p|..] == y;
  }

  /** Texts joined by a character that the first parts do not contain split again in one way only. */
  lemma SplitAtFirst(separator: char, a: string, x: string, b: string, y: string)
    requires separator !in a && separator !in b
    requires a + [separator] + x == b + [separator] + y
    ensures a == b && x == y
  {
    var s := a + [separator] + x;
    assert forall i :: 0 <= i < |a| ==> s[i] == a[i];
    assert forall i :: 0 <= i < |b| ==> s[i] == b[i];
    assert s[|a|] == separator && s[|b|] == separator;
    assert |a| == |b|;
    assert s[..|a|] == a && s[..|b|] == b;
    assert s[|a| + 1..] == x && s[|b| + 1..] == y;
  }
}
