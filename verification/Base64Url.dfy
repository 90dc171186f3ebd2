/** Unpadded base64url, section 5 of RFC 4648, with the lenient decoder of Node's Buffer. */
module Base64Url {
  import opened Text

  type Byte = n: nat | n < 256 witness 0

  type Sextet = n: nat | n < 64 witness 0

  predicate IsLetter(c: char) {
    'A' <= c <= 'Z' || 'a' <= c <= 'z' || '0' <= c <= '9' || c == '-' || c == '_'
  }

  /** `/^[A-Za-z0-9_-]*$/` */
  predicate InAlphabet(s: string) {
    forall i :: 0 <= i < |s| ==> IsLetter(s[i])
  }

  function LetterOf(n: Sextet): (c: char)
    ensures IsLetter(c)
  {
    if n < 26 then 'A' + n as char
    else if n < 52 then 'a' + (n - 26) as char
    else if n < 62 then '0' + (n - 52) as char
    else if n == 62 then '-' else '_'
  }

  function ValueOf(c: char): Sextet
    requires IsLetter(c)
  {
    if 'A' <= c <= 'Z' then (c - 'A') as nat
    else if 'a' <= c <= 'z' then (c - 'a') as nat + 26
    else if '0' <= c <= '9' then (c - '0') as nat + 52
    else if c == '-' then 62 else 63
  }

  lemma LetterThenValue(n: Sextet)
    ensures ValueOf(LetterOf(n)) == n
  {
  }

  lemma ValueThenLetter(c: char)
    requires IsLetter(c)
    ensures LetterOf(ValueOf(c)) == c
  {
  }

  function Encode(bytes: seq<Byte>): (s: string)
    ensures InAlphabet(s)
    ensures bytes != [] ==> s != ""
  {
    if bytes == [] then ""
    else if |bytes| == 1 then
      [LetterOf(bytes[0] / 4), LetterOf(bytes[0] % 4 * 16)]
    else if |bytes| == 2 then
      [LetterOf(bytes[0] / 4), LetterOf(bytes[0] % 4 * 16 + bytes[1] / 16), LetterOf(bytes[1] % 16 * 4)]
    else
      [LetterOf(bytes[0] / 4), LetterOf(bytes[0] % 4 * 16 + bytes[1] / 16),
       LetterOf(bytes[1] % 16 * 4 + bytes[2] / 64), LetterOf(bytes[2] % 64)]
      + Encode(bytes[3..])
  }

  function FirstByte(a: Sextet, b: Sextet): Byte {
    a * 4 + b / 16
  }

  function SecondByte(b: Sextet, c: Sextet): Byte {
    b % 16 * 16 + c / 4
  }

  function ThirdByte(c: Sextet, d: Sextet): Byte {
    c % 4 * 64 + d
  }

  /** Left-over bits, and a single left-over letter, are dropped without complaint. */
  function Decode(s: string): seq<Byte>
    requires InAlphabet(s)
  {
    if |s| < 2 then []
    else if |s| == 2 then [FirstByte(ValueOf(s[0]), ValueOf(s[1]))]
    else if |s| == 3 then [FirstByte(ValueOf(s[0]), ValueOf(s[1])), SecondByte(ValueOf(s[1]), ValueOf(s[2]))]
    else
      [FirstByte(ValueOf(s[0]), ValueOf(s[1])), SecondByte(ValueOf(s[1]), ValueOf(s[2])),
       ThirdByte(ValueOf(s[2]), ValueOf(s[3]))]
      + Decode(s[4..])
  }

  lemma SplitBytes(x: Byte, y: Byte, z: Byte)
    ensures FirstByte(x / 4, x % 4 * 16 + y / 16) == x
    ensures SecondByte(x % 4 * 16 + y / 16, y % 16 * 4 + z / 64) == y
    ensures ThirdByte(y % 16 * 4 + z / 64, z % 64) == z
  {
    assert (x % 4 * 16 + y / 16) / 16 == x % 4 && (x % 4 * 16 + y / 16) % 16 == y / 16;
    assert (y % 16 * 4 + z / 64) / 4 == y % 16 && (y % 16 * 4 + z / 64) % 4 == z / 64;
  }

  lemma JoinSextets(a: Sextet, b: Sextet, c: Sextet, d: Sextet)
    ensures var x, y, z := FirstByte(a, b), SecondByte(b, c), ThirdByte(c, d);
            && x / 4 == a && x % 4 * 16 + y / 16 == b && y % 16 * 4 + z / 64 == c && z % 64 == d
  {
    var x, y, z := FirstByte(a, b), SecondByte(b, c), ThirdByte(c, d);
    assert x / 4 == a && x % 4 == b / 16;
    assert y / 16 == b % 16 && y % 16 == c / 4;
    assert z / 64 == c % 4 && z % 64 == d;
  }

  /** Decoding an encoding gives the bytes back. */
  lemma {:induction false} EncodeThenDecode(bytes: seq<Byte>)
    ensures Decode(Encode(bytes)) == bytes
  {
    hide LetterOf, ValueOf, FirstByte, SecondByte, ThirdByte;
    if bytes != [] {
      var x := bytes[0];
      var y := if |bytes| > 1 then bytes[1] else 0;
      var z := if |bytes| > 2 then bytes[2] else 0;
      SplitBytes(x, y, z);
      LetterThenValue(x / 4);
      LetterThenValue(x % 4 * 16 + y / 16);
      LetterThenValue(y % 16 * 4 + z / 64);
      LetterThenValue(z % 64);
      if |bytes| > 2 {
        EncodeThenDecode(bytes[3..]);
        assert Encode(bytes)[4..] == Encode(bytes[3..]);
      }
    }
  }

  /** The texts an encoder can produce: no lone letter at the end, and no stray bits. */
  predicate IsCanonical(s: string)
    requires InAlphabet(s)
  {
    match |s| % 4
    case 0 => true
    case 1 => false
    case 2 => ValueOf(s[|s| - 1]) % 16 == 0
    case _ => ValueOf(s[|s| - 1]) % 4 == 0
  }

  /** A text survives decoding and encoding exactly when it is one an encoder can produce. */
  lemma {:induction false} DecodeThenEncode(s: string)
    requires InAlphabet(s)
    ensures Encode(Decode(s)) == s <==> IsCanonical(s)
  {
    hide LetterOf, ValueOf, FirstByte, SecondByte, ThirdByte;
    if |s| >= 2 {
      var a, b := ValueOf(s[0]), ValueOf(s[1]);
      var c: Sextet := if |s| > 2 then ValueOf(s[2]) else 0;
      var d: Sextet := if |s| > 3 then ValueOf(s[3]) else 0;
      JoinSextets(a, b, c, d);
      forall i | 0 <= i < |s| ensures LetterOf(ValueOf(s[i])) == s[i] { ValueThenLetter(s[i]); }
      if |s| >= 4 {
        DecodeThenEncode(s[4..]);
        FourLetters(s);
        CanonicalTail(s);
      } else if |s| == 3 {
        ThreeLetters(a, b, c);
      } else {
        TwoLetters(a, b);
      }
    }
  }

  lemma EncodeGroup(a: Sextet, b: Sextet, c: Sextet, d: Sextet, rest: seq<Byte>)
    ensures Encode([FirstByte(a, b), SecondByte(b, c), ThirdByte(c, d)] + rest)
         == [LetterOf(a), LetterOf(b), LetterOf(c), LetterOf(d)] + Encode(rest)
  {
    hide LetterOf, FirstByte, SecondByte, ThirdByte;
    JoinSextets(a, b, c, d);
    assert ([FirstByte(a, b), SecondByte(b, c), ThirdByte(c, d)] + rest)[3..] == rest;
  }

  lemma DecodeGroup(a: Sextet, b: Sextet, c: Sextet, d: Sextet, rest: string)
    requires InAlphabet(rest)
    ensures var s := [LetterOf(a), LetterOf(b), LetterOf(c), LetterOf(d)] + rest;
            && InAlphabet(s)
            && Decode(s) == [FirstByte(a, b), SecondByte(b, c), ThirdByte(c, d)] + Decode(rest)
  {
    hide LetterOf, ValueOf, FirstByte, SecondByte, ThirdByte;
    LetterThenValue(a);
    LetterThenValue(b);
    LetterThenValue(c);
    LetterThenValue(d);
    assert ([LetterOf(a), LetterOf(b), LetterOf(c), LetterOf(d)] + rest)[4..] == rest;
  }

  lemma GroupSurvives(a: Sextet, b: Sextet, c: Sextet, d: Sextet, rest: string)
    requires InAlphabet(rest)
    ensures var s := [LetterOf(a), LetterOf(b), LetterOf(c), LetterOf(d)] + rest;
            InAlphabet(s) && (Encode(Decode(s)) == s <==> Encode(Decode(rest)) == rest)
  {
    hide LetterOf, ValueOf, FirstByte, SecondByte, ThirdByte, Encode, Decode;
    DecodeGroup(a, b, c, d, rest);
    EncodeGroup(a, b, c, d, Decode(rest));
    PrefixCancels([LetterOf(a), LetterOf(b), LetterOf(c), LetterOf(d)], Encode(Decode(rest)), rest);
  }

  lemma FourLetters(s: string)
    requires InAlphabet(s) && |s| >= 4
    ensures Encode(Decode(s)) == s <==> Encode(Decode(s[4..])) == s[4..]
  {
    hide LetterOf, ValueOf, Encode, Decode;
    SplitFour(s);
    hide InAlphabet, IsLetter;
    GroupSurvives(ValueOf(s[0]), ValueOf(s[1]), ValueOf(s[2]), ValueOf(s[3]), s[4..]);
  }

  lemma SplitFour(s: string)
    requires InAlphabet(s) && |s| >= 4
    ensures IsLetter(s[0]) && IsLetter(s[1]) && IsLetter(s[2]) && IsLetter(s[3]) && InAlphabet(s[4..])
    ensures s ==
      [LetterOf(ValueOf(s[0])), LetterOf(ValueOf(s[1])), LetterOf(ValueOf(s[2])), LetterOf(ValueOf(s[3]))] + s[4..]
  {
    hide LetterOf, ValueOf;
    ValueThenLetter(s[0]);
    ValueThenLetter(s[1]);
    ValueThenLetter(s[2]);
    ValueThenLetter(s[3]);
    assert s == [s[0], s[1], s[2], s[3]] + s[4..];
  }

  lemma CanonicalTail(s: string)
    requires InAlphabet(s) && |s| >= 4
    ensures IsCanonical(s) <==> IsCanonical(s[4..])
  {
    hide ValueOf;
    assert (|s| - 4) % 4 == |s| % 4;
    assert |s| > 4 ==> s[4..][|s| - 5] == s[|s| - 1];
  }

  lemma LetterInjective(m: Sextet, n: Sextet)
    ensures LetterOf(m) == LetterOf(n) <==> m == n
  {
    LetterThenValue(m);
    LetterThenValue(n);
  }

  lemma ThreeLetters(a: Sextet, b: Sextet, c: Sextet)
    ensures var s := [LetterOf(a), LetterOf(b), LetterOf(c)];
            Encode(Decode(s)) == s <==> c % 4 == 0
  {
    hide LetterOf, ValueOf, FirstByte, SecondByte, ThirdByte;
    LetterThenValue(a);
    LetterThenValue(b);
    LetterThenValue(c);
    JoinSextets(a, b, c, 0);
    LetterInjective(SecondByte(b, c) % 16 * 4, c);
  }

  lemma TwoLetters(a: Sextet, b: Sextet)
    ensures var s := [LetterOf(a), LetterOf(b)];
            Encode(Decode(s)) == s <==> b % 16 == 0
  {
    hide LetterOf, ValueOf, FirstByte, SecondByte, ThirdByte;
    LetterThenValue(a);
    LetterThenValue(b);
    JoinSextets(a, b, 0, 0);
    assert SecondByte(b, 0) / 16 == b % 16 by {
      SecondByteOfZero(b);
      assert b % 16 * 16 / 16 == b % 16;
    }
    LetterInjective(FirstByte(a, b) % 4 * 16, b);
  }

  lemma SecondByteOfZero(b: Sextet)
    ensures SecondByte(b, 0) == b % 16 * 16
  {
  }
}
