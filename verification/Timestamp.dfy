/**
 src/domain/timestamp.ts: from an RFC 3339 date-time (section 5.6) to a canonical UTC text, with a
 whole second and a fraction of any length.
 */
module Timestamp {
  import opened Prelude
  import opened Decimal
  import opened Text
  import opened JsDate

  datatype FailureKind = Grammar | Components

  datatype ParsedTimestamp = ParsedTimestamp(canonical: string, wholeSecondMs: int, fraction: string)

  datatype ParseResult = Accepted(value: ParsedTimestamp) | Rejected(kind: FailureKind)

  // ---------------------------------------------------------------- grammar

  /** `\d{4}-\d{2}-\d{2}T\d{2}:\d{2}:\d{2}` at the start of the text. */
  predicate HasDateTimeShape(v: string) {
    && |v| >= 19
    && AllDigits(v[0..4]) && v[4] == '-'
    && AllDigits(v[5..7]) && v[7] == '-'
    && AllDigits(v[8..10]) && v[10] == 'T'
    && AllDigits(v[11..13]) && v[13] == ':'
    && AllDigits(v[14..16]) && v[16] == ':'
    && AllDigits(v[17..19])
  }

  /** The shape the fast path takes. */
  predicate IsCanonicalMillisecondShape(v: string) {
    && |v| == 24
    && HasDateTimeShape(v)
    && v[19] == '.' && AllDigits(v[20..23]) && v[23] == 'Z'
  }

  predicate IsZone(z: string) {
    || z == "Z"
    || (|z| == 6 && (z[0] == '+' || z[0] == '-') && AllDigits(z[1..3]) && z[3] == ':' && AllDigits(z[4..6]))
  }

  datatype Match = NoMatch | Match(fraction: string, zone: string)

  /** The text after the seconds: an optional fraction of at least one digit, and the zone. */
  function MatchSuffix(rest: string): (m: Match)
    ensures m.Match? ==> AllDigits(m.fraction) && IsZone(m.zone)
  {
    if rest != "" && rest[0] == '.' then
      var end := DigitRunEnd(rest, 1);
      if end > 1 && IsZone(rest[end..]) then Match(rest[1..end], rest[end..]) else NoMatch
    else if IsZone(rest) then Match("", rest) else NoMatch
  }

  function MatchTimestamp(v: string): (m: Match)
    ensures m.Match? ==> HasDateTimeShape(v) && AllDigits(m.fraction) && IsZone(m.zone)
  {
    if HasDateTimeShape(v) then MatchSuffix(v[19..]) else NoMatch
  }

  function ReadFields(v: string): Fields
    requires HasDateTimeShape(v)
  {
    Fields(NumberOf(v[0..4]), NumberOf(v[5..7]), NumberOf(v[8..10]),
           NumberOf(v[11..13]), NumberOf(v[14..16]), NumberOf(v[17..19]), 0)
  }

  /** The zone's distance from UTC in minutes, or nothing beyond fourteen hours. */
  function OffsetMinutes(zone: string): Option<int>
    requires IsZone(zone)
  {
    if zone == "Z" then Some(0) else
    var hour, minute := NumberOf(zone[1..3]), NumberOf(zone[4..6]);
    if hour > 14 || minute > 59 || (hour == 14 && minute != 0) then None
    else Some((if zone[0] == '+' then 1 else -1) * (hour * 60 + minute))
  }

  // ---------------------------------------------------------------- both paths of the parser

  function TrimTrailingZeros(s: string): string {
    if s != "" && s[|s| - 1] == '0' then TrimTrailingZeros(s[..|s| - 1]) else s
  }

  /** At least three digits, and no trailing zero after the third. */
  function FormatCanonicalFraction(fraction: string): string {
    var padded := PadEnd(fraction, 3, '0');
    padded[..3] + TrimTrailingZeros(padded[3..])
  }

  /** `.replace(/\.000Z$/, "")` */
  function StripZeroMilliseconds(iso: string): string {
    if |iso| >= 5 && iso[|iso| - 5..] == ".000Z" then iso[..|iso| - 5] else iso
  }

  /** The component branch: grammar, calendar checks, UTC normalisation. */
  function ParseComponents(v: string): ParseResult {
    var m := MatchTimestamp(v);
    if m.NoMatch? then Rejected(Grammar) else
    var f := ReadFields(v);
    if !ValidFields(f) then Rejected(Components) else
    var offset := OffsetMinutes(m.zone);
    if offset.None? then Rejected(Components) else
    var wholeSecondMs := TimeOf(f) - offset.value * MS_PER_MINUTE;
    Accepted(ParsedTimestamp(
      StripZeroMilliseconds(ToIso(wholeSecondMs)) + "." + FormatCanonicalFraction(m.fraction) + "Z",
      wholeSecondMs, m.fraction))
  }

  /** What the host's `Date.parse` returns: a time value, or nothing for NaN. */
  type DateParse = string -> Option<int>

  /**
   `Date.parse` on texts of the canonical millisecond shape. Section 21.4.1.32 of ECMA-262 fixes the
   answer for dates that exist; for those that do not (February 30, hour 24) hosts differ, and any
   time value is allowed.
   */
  ghost predicate IsDateParse(parse: DateParse) {
    && (forall f: Fields :: ValidFields(f) && 0 <= f.year <= 9999 ==>
          parse(SecondText(f) + "." + Digits(3, f.milli) + "Z") == Some(TimeOf(f)))
    && forall s :: parse(s).Some? ==> IsTimeValue(parse(s).value)
  }

  /** The fast branch for texts that already have the canonical millisecond shape. */
  function ParseFast(parse: DateParse, v: string): ParseResult
    requires IsCanonicalMillisecondShape(v)
  {
    var epochMs := parse(v);
    if epochMs.None? || ToIso(epochMs.value) != v then Rejected(Components)
    else Accepted(ParsedTimestamp(v, epochMs.value / 1000 * 1000, v[20..23]))
  }

  function ParseCanonicalTimestamp(parse: DateParse, v: string): ParseResult {
    if IsCanonicalMillisecondShape(v) then ParseFast(parse, v) else ParseComponents(v)
  }

  // ---------------------------------------------------------------- the fast path refines the slow one

  lemma ReadFieldsOfText(f: Fields, suffix: string)
    requires ValidFields(f) && 0 <= f.year <= 9999
    ensures var v := SecondText(f) + suffix;
            && HasDateTimeShape(v) && v[..19] == SecondText(f) && v[19..] == suffix
            && ReadFields(v) == f.(milli := 0)
  {
    hide NumberOf, Digits;
    var v, tail := SecondText(f) + suffix, DateTimeTail(f);
    DateTimeTailParts(f);
    assert v[0..4] == Digits(4, f.year);
    assert v[4..19] == tail;
    assert v[5..7] == tail[1..3] && v[8..10] == tail[4..6] && v[11..13] == tail[7..9];
    assert v[14..16] == tail[10..12] && v[17..19] == tail[13..15];
    assert v[4] == tail[0] && v[7] == tail[3] && v[10] == tail[6] && v[13] == tail[9] && v[16] == tail[12];
    assert Pow10(4) == 10_000;
    assert Pow10(2) == 100;
    DigitsThenNumber(4, f.year);
    DigitsThenNumber(2, f.month);
    DigitsThenNumber(2, f.day);
    DigitsThenNumber(2, f.hour);
    DigitsThenNumber(2, f.minute);
    DigitsThenNumber(2, f.second);
  }

  lemma TextOfReadFields(v: string)
    requires HasDateTimeShape(v) && ValidFields(ReadFields(v))
    ensures 0 <= ReadFields(v).year <= 9999
    ensures v[..19] == SecondText(ReadFields(v))
  {
    hide NumberOf, Digits;
    NumberThenDigits(v[0..4]);
    NumberThenDigits(v[5..7]);
    NumberThenDigits(v[8..10]);
    NumberThenDigits(v[11..13]);
    NumberThenDigits(v[14..16]);
    NumberThenDigits(v[17..19]);
    assert Pow10(4) == 10_000;
    assert v[..19] == v[0..4] + "-" + v[5..7] + "-" + v[8..10] + "T" + v[11..13] + ":" + v[14..16] + ":" + v[17..19];
  }

  lemma SecondTextOfTime(wholeSecondMs: int)
    requires wholeSecondMs % 1000 == 0
    ensures ValidFields(FieldsOf(wholeSecondMs)) && FieldsOf(wholeSecondMs).milli == 0
    ensures StripZeroMilliseconds(ToIso(wholeSecondMs)) == SecondText(FieldsOf(wholeSecondMs))
  {
    hide FieldsOf, SecondText;
    FieldsThenTime(wholeSecondMs);
    var f, iso := FieldsOf(wholeSecondMs), ToIso(wholeSecondMs);
    WholeSecondHasNoMillis(f);
    assert Digits(3, 0) == Digits(2, 0) + "0" && Digits(2, 0) == Digits(1, 0) + "0";
    assert iso[|iso| - 5..] == ".000Z";
  }

  lemma WholeSecondHasNoMillis(f: Fields)
    requires ValidFields(f) && TimeOf(f) % 1000 == 0
    ensures f.milli == 0
  {
    hide TimeOf, TimeInDay;
    WholeSecondTime(f.(milli := 0), 0);
    assert TimeOf(f) == TimeOf(f.(milli := 0)) + f.milli by { MillisAdd(f); }
    assert TimeOf(f) == 1000 * (TimeOf(f) / 1000);
  }

  lemma MillisAdd(f: Fields)
    requires ValidFields(f)
    ensures TimeOf(f) == TimeOf(f.(milli := 0)) + f.milli
  {
  }

  lemma ShapeMatches(v: string)
    requires IsCanonicalMillisecondShape(v)
    ensures MatchTimestamp(v) == Match(v[20..23], "Z")
  {
    var rest := v[19..];
    assert rest[1] == v[20] && rest[2] == v[21] && rest[3] == v[22] && rest[4] == v[23];
    assert v[20] == v[20..23][0] && v[21] == v[20..23][1] && v[22] == v[20..23][2];
    assert DigitRunEnd(rest, 4) == 4;
    assert DigitRunEnd(rest, 2) == 4;
    assert DigitRunEnd(rest, 1) == 4;
    assert rest[4..] == "Z";
    assert rest[1..4] == v[20..23];
  }

  lemma ThreeDigitFraction(fraction: string)
    requires |fraction| == 3
    ensures FormatCanonicalFraction(fraction) == fraction
  {
    assert fraction[..3] == fraction && fraction[3..] == "";
  }

  /** A text of the shape whose ISO time value prints back to it names a date that exists. */
  lemma IsoTextIsValid(v: string, t: int)
    requires IsCanonicalMillisecondShape(v) && IsTimeValue(t) && ToIso(t) == v
    ensures ReadFields(v) == FieldsOf(t).(milli := 0) && ValidFields(ReadFields(v))
  {
    FieldsThenTime(t);
    var f := FieldsOf(t);
    var suffix := "." + Digits(3, f.milli) + "Z";
    assert v == SecondText(f) + suffix;
    ReadFieldsOfText(f, suffix);
  }

  /** A text of the fast shape, written out as the calendar fields and milliseconds it spells. */
  lemma ShapeIsIsoText(v: string, g: Fields)
    requires IsCanonicalMillisecondShape(v) && ValidFields(ReadFields(v))
    requires g == ReadFields(v).(milli := NumberOf(v[20..23]))
    ensures ValidFields(g) && 0 <= g.year <= 9999
    ensures v == SecondText(g) + "." + Digits(3, g.milli) + "Z"
  {
    TextOfReadFields(v);
    NumberThenDigits(v[20..23]);
    assert Pow10(3) == 1000;
    assert SecondText(g) == v[..19];
    assert v == v[..19] + "." + v[20..23] + "Z";
  }

  lemma ToIsoOfFields(g: Fields)
    requires ValidFields(g)
    ensures ToIso(TimeOf(g)) == SecondText(g) + "." + Digits(3, g.milli) + "Z"
  {
    hide FieldsOf, SecondText, TimeOf;
    TimeThenFields(g);
  }

  lemma ShapeParsesByComponents(v: string)
    requires IsCanonicalMillisecondShape(v)
    ensures ParseComponents(v) ==
              if !ValidFields(ReadFields(v)) then Rejected(Components)
              else Accepted(ParsedTimestamp(v, TimeOf(ReadFields(v)), v[20..23]))
  {
    hide FieldsOf, SecondText, TimeOf, ReadFields, HasDateTimeShape, NumberOf, ToIso, StripZeroMilliseconds,
      FormatCanonicalFraction;
    var f := ReadFields(v);
    ShapeMatches(v);
    if ValidFields(f) {
      TextOfReadFields(v);
      WholeSecondOfFields(f, v);
      TimeThenFields(f);
      SecondTextOfTime(TimeOf(f));
      ThreeDigitFraction(v[20..23]);
      assert v == v[..19] + "." + v[20..23] + "Z";
    }
  }

  lemma WholeSecondOfFields(f: Fields, v: string)
    requires HasDateTimeShape(v) && f == ReadFields(v) && ValidFields(f)
    ensures f.milli == 0 && TimeOf(f) % 1000 == 0
  {
    hide DayNumber, HasDateTimeShape, NumberOf;
    WholeSecondTime(f, 0);
  }

  /**
   On every text of the fast shape the two branches give the same result, whatever the host's
   `Date.parse` makes of dates that do not exist.
   */
  lemma FastPathRefinesComponents(parse: DateParse, v: string)
    requires IsDateParse(parse) && IsCanonicalMillisecondShape(v)
    ensures ParseFast(parse, v) == ParseComponents(v)
  {
    ShapeParsesByComponents(v);
    if ValidFields(ReadFields(v)) {
      var g := ReadFields(v).(milli := NumberOf(v[20..23]));
      FastPathOnValidDate(parse, v, g);
    } else if parse(v).Some? && ToIso(parse(v).value) == v {
      IsoTextIsValid(v, parse(v).value);
    }
  }

  lemma FastPathOnValidDate(parse: DateParse, v: string, g: Fields)
    requires IsDateParse(parse) && IsCanonicalMillisecondShape(v) && ValidFields(ReadFields(v))
    requires g == ReadFields(v).(milli := NumberOf(v[20..23]))
    ensures ParseFast(parse, v) == Accepted(ParsedTimestamp(v, TimeOf(ReadFields(v)), v[20..23]))
  {
    hide FieldsOf, SecondText, ToIso, TimeOf, ReadFields, HasDateTimeShape, NumberOf;
    ShapeIsIsoText(v, g);
    ToIsoOfFields(g);
    assert parse(v) == Some(TimeOf(g));
    WholeSecondOfFields(ReadFields(v), v);
    MillisAdd(g);
    assert g.(milli := 0) == ReadFields(v);
    assert TimeOf(g) / 1000 * 1000 == TimeOf(ReadFields(v));
  }

  /** So the parser is its component branch on every text, with any conforming host. */
  lemma ParserIsComponentPath(parse: DateParse, v: string)
    requires IsDateParse(parse)
    ensures ParseCanonicalTimestamp(parse, v) == ParseComponents(v)
  {
    if IsCanonicalMillisecondShape(v) {
      FastPathRefinesComponents(parse, v);
    }
  }

  // ---------------------------------------------------------------- fractions as real numbers

  /** The real number in [0, 1) that the digits after the point denote. */
  function FractionValue(s: string): (x: real)
    requires AllDigits(s)
    ensures 0.0 <= x < 1.0
  {
    if s == "" then 0.0 else (DigitValue(s[0]) as real + FractionValue(s[1..])) / 10.0
  }

  function CompareFractions(left: string, right: string): Order {
    var width := if |left| >= |right| then |left| else |right|;
    CompareText(PadEnd(left, width, '0'), PadEnd(right, width, '0'))
  }

  function CompareReals(x: real, y: real): Order {
    if x < y then Less else if x > y then Greater else Equal
  }

  lemma {:induction false} AppendZerosKeepsValue(s: string, zeros: string)
    requires AllDigits(s)
    requires forall i :: 0 <= i < |zeros| ==> zeros[i] == '0'
    ensures AllDigits(s + zeros) && FractionValue(s + zeros) == FractionValue(s)
    decreases |s|, |zeros|
  {
    if s != "" {
      AppendZerosKeepsValue(s[1..], zeros);
      assert (s + zeros)[1..] == s[1..] + zeros;
    } else if zeros != "" {
      AppendZerosKeepsValue("", zeros[1..]);
      assert (s + zeros)[1..] == "" + zeros[1..];
    } else {
      assert s + zeros == "";
    }
  }

  lemma {:induction false} EqualWidthOrder(left: string, right: string)
    requires |left| == |right| && AllDigits(left) && AllDigits(right)
    ensures CompareText(left, right) == CompareReals(FractionValue(left), FractionValue(right))
  {
    if left != "" {
      EqualWidthOrder(left[1..], right[1..]);
      assert DigitValue(left[0]) < DigitValue(right[0]) <==> left[0] < right[0];
    }
  }

  lemma PadKeepsValue(s: string, width: nat)
    requires AllDigits(s)
    ensures AllDigits(PadEnd(s, width, '0')) && FractionValue(PadEnd(s, width, '0')) == FractionValue(s)
  {
    AppendZerosKeepsValue(s, Repeat('0', if |s| >= width then 0 else width - |s|));
  }

  lemma PadIsLong(s: string, width: nat)
    ensures |PadEnd(s, width, '0')| >= width
  {
  }

  /** Comparing padded digit strings compares the fractions they denote, at any precision. */
  lemma CompareFractionsIsRealOrder(left: string, right: string)
    requires AllDigits(left) && AllDigits(right)
    ensures CompareFractions(left, right) == CompareReals(FractionValue(left), FractionValue(right))
  {
    hide FractionValue, CompareText;
    var width := if |left| >= |right| then |left| else |right|;
    PadKeepsValue(left, width);
    PadKeepsValue(right, width);
    EqualWidthOrder(PadEnd(left, width, '0'), PadEnd(right, width, '0'));
  }

  lemma {:induction false} TrimmedZeros(s: string)
    ensures exists zeros: string ::
              s == TrimTrailingZeros(s) + zeros && forall i :: 0 <= i < |zeros| ==> zeros[i] == '0'
  {
    if s != "" && s[|s| - 1] == '0' {
      var init := s[..|s| - 1];
      TrimmedZeros(init);
      var zeros: string :| init == TrimTrailingZeros(init) + zeros && forall i :: 0 <= i < |zeros| ==> zeros[i] == '0';
      assert s == TrimTrailingZeros(s) + (zeros + "0");
    } else {
      assert s == TrimTrailingZeros(s) + "";
    }
  }

  lemma {:induction false} TrimEndsInNonZero(s: string)
    ensures var t := TrimTrailingZeros(s); t != "" ==> t[|t| - 1] != '0'
  {
    if s != "" && s[|s| - 1] == '0' {
      TrimEndsInNonZero(s[..|s| - 1]);
    }
  }

  predicate IsCanonicalFraction(s: string) {
    && AllDigits(s) && |s| >= 3
    && (|s| > 3 ==> s[|s| - 1] != '0')
  }

  /** Formatting a fraction keeps its value and reaches the one canonical spelling. */
  lemma FormatKeepsValue(fraction: string)
    requires AllDigits(fraction)
    ensures var c := FormatCanonicalFraction(fraction);
            IsCanonicalFraction(c) && FractionValue(c) == FractionValue(fraction)
  {
    hide FractionValue, PadEnd, TrimTrailingZeros;
    var padded := PadEnd(fraction, 3, '0');
    PadIsLong(fraction, 3);
    PadKeepsValue(fraction, 3);
    var rest := padded[3..];
    TrimmedZeros(rest);
    TrimEndsInNonZero(rest);
    var zeros: string :| rest == TrimTrailingZeros(rest) + zeros && forall i :: 0 <= i < |zeros| ==> zeros[i] == '0';
    var c := FormatCanonicalFraction(fraction);
    assert padded == c + zeros;
    assert forall i :: 0 <= i < |c| ==> c[i] == padded[i];
    AppendZerosKeepsValue(c, zeros);
  }

  /** Padding hides only trailing zeros, and a canonical fraction has none to hide. */
  lemma PaddedEqual(c: string, d: string)
    requires IsCanonicalFraction(c) && IsCanonicalFraction(d)
    requires var width := if |c| >= |d| then |c| else |d|; PadEnd(c, width, '0') == PadEnd(d, width, '0')
    ensures c == d
  {
    if |c| > |d| {
      PaddingEndsInZero(d, c);
    } else if |d| > |c| {
      PaddingEndsInZero(c, d);
    }
  }

  lemma PaddingEndsInZero(s: string, longer: string)
    requires |s| < |longer|
    ensures PadEnd(s, |longer|, '0')[|longer| - 1] == '0'
  {
  }

  lemma CanonicalFractionUnique(c: string, d: string)
    requires IsCanonicalFraction(c) && IsCanonicalFraction(d)
    requires FractionValue(c) == FractionValue(d)
    ensures c == d
  {
    CompareFractionsIsRealOrder(c, d);
    var width := if |c| >= |d| then |c| else |d|;
    var p, q := PadEnd(c, width, '0'), PadEnd(d, width, '0');
    CompareTextTotal(p, q);
    assert p == q;
    PaddedEqual(c, d);
  }

  // ---------------------------------------------------------------- instants

  /** The point in time a parsed timestamp stands for, in seconds since the epoch. */
  function InstantOf(p: ParsedTimestamp): real
    requires AllDigits(p.fraction)
  {
    (p.wholeSecondMs / 1000) as real + FractionValue(p.fraction)
  }

  /** What every accepted parse result satisfies: the UTC fields `f` stand for its whole second. */
  ghost predicate Normalises(p: ParsedTimestamp, f: Fields) {
    && ValidFields(f) && f.milli == 0 && -1_000_000 < f.year < 1_000_000
    && p.wholeSecondMs == TimeOf(f)
    && AllDigits(p.fraction)
    && p.canonical == SecondText(f) + "." + FormatCanonicalFraction(p.fraction) + "Z"
  }

  /** A local time with a four-digit year, moved by at most fourteen hours, is a time value. */
  lemma FourDigitYearTime(f: Fields, offset: int)
    requires ValidFields(f) && 0 <= f.year <= 9999 && -840 <= offset <= 840
    ensures IsTimeValue(TimeOf(f) - offset * MS_PER_MINUTE)
  {
    YearsAscend(0, f.year);
    YearsAscend(f.year, 10_000);
    MonthsAscend(f.year, 1, f.month);
    MonthsAscend(f.year, f.month, 13);
    MonthTable(f.year);
    TimeInDayIsUnique(f);
  }

  lemma OffsetBound(zone: string)
    requires IsZone(zone) && OffsetMinutes(zone).Some?
    ensures -840 <= OffsetMinutes(zone).value <= 840
  {
  }

  lemma WholeSecondTime(f: Fields, offset: int)
    requires ValidFields(f) && f.milli == 0
    ensures (TimeOf(f) - offset * MS_PER_MINUTE) % 1000 == 0
  {
    hide DayNumber;
    var seconds := DayNumber(f.year, f.month, f.day) * 86_400 + f.hour * 3600 + f.minute * 60 + f.second - offset * 60;
    assert TimeOf(f) - offset * MS_PER_MINUTE == 1000 * seconds;
  }

  /** The UTC fields of an accepted text. */
  function UtcFields(p: ParsedTimestamp): Fields {
    FieldsOf(p.wholeSecondMs)
  }

  lemma AcceptedNormalises(v: string, p: ParsedTimestamp)
    requires ParseComponents(v) == Accepted(p)
    ensures Normalises(p, UtcFields(p))
  {
    hide FieldsOf, SecondText, TimeOf, ReadFields, OffsetMinutes, ToIso, StripZeroMilliseconds, MatchSuffix;
    var local, zone := ReadFields(v), MatchTimestamp(v).zone;
    TextOfReadFields(v);
    OffsetBound(zone);
    var offset := OffsetMinutes(zone).value;
    FourDigitYearTime(local, offset);
    WholeSecondOfFields(local, v);
    WholeSecondTime(local, offset);
    FieldsThenTime(p.wholeSecondMs);
    YearBound(p.wholeSecondMs);
    SecondTextOfTime(p.wholeSecondMs);
  }

  function CompareParsedTimestamps(left: ParsedTimestamp, right: ParsedTimestamp): Order {
    if left.wholeSecondMs < right.wholeSecondMs then Less
    else if left.wholeSecondMs > right.wholeSecondMs then Greater
    else CompareFractions(left.fraction, right.fraction)
  }

  /** Comparison is the order of the instants, for any number of fraction digits. */
  lemma CompareIsInstantOrder(v: string, w: string, p: ParsedTimestamp, q: ParsedTimestamp)
    requires ParseComponents(v) == Accepted(p) && ParseComponents(w) == Accepted(q)
    ensures AllDigits(p.fraction) && AllDigits(q.fraction)
    ensures CompareParsedTimestamps(p, q) == CompareReals(InstantOf(p), InstantOf(q))
  {
    hide FieldsOf, SecondText, InstantOf, FractionValue, ParseComponents, CompareFractions;
    AcceptedNormalises(v, p);
    AcceptedNormalises(w, q);
    WholeSecondTime(UtcFields(p), 0);
    WholeSecondTime(UtcFields(q), 0);
    CompareFractionsIsRealOrder(p.fraction, q.fraction);
    InstantOrder(p, q);
  }

  lemma InstantOrder(p: ParsedTimestamp, q: ParsedTimestamp)
    requires p.wholeSecondMs % 1000 == 0 && q.wholeSecondMs % 1000 == 0
    requires AllDigits(p.fraction) && AllDigits(q.fraction)
    ensures p.wholeSecondMs < q.wholeSecondMs ==> InstantOf(p) < InstantOf(q)
    ensures p.wholeSecondMs > q.wholeSecondMs ==> InstantOf(p) > InstantOf(q)
    ensures p.wholeSecondMs == q.wholeSecondMs ==>
              CompareReals(InstantOf(p), InstantOf(q)) ==
                CompareReals(FractionValue(p.fraction), FractionValue(q.fraction))
  {
    var m, n := p.wholeSecondMs / 1000, q.wholeSecondMs / 1000;
    assert p.wholeSecondMs == 1000 * m && q.wholeSecondMs == 1000 * n;
    assert m < n ==> m as real + 1.0 <= n as real;
    assert m > n ==> m as real >= n as real + 1.0;
  }

  lemma SecondTextHasNoPoint(f: Fields)
    requires ValidFields(f) && -1_000_000 < f.year < 1_000_000
    ensures '.' !in SecondText(f)
  {
    DateTimeTailParts(f);
    var tail := DateTimeTail(f);
    forall i | 0 <= i < 15 ensures tail[i] != '.' {
      if i in {1, 2} { assert tail[i] == tail[1..3][i - 1]; }
      else if i in {4, 5} { assert tail[i] == tail[4..6][i - 4]; }
      else if i in {7, 8} { assert tail[i] == tail[7..9][i - 7]; }
      else if i in {10, 11} { assert tail[i] == tail[10..12][i - 10]; }
      else if i in {13, 14} { assert tail[i] == tail[13..15][i - 13]; }
    }
  }

  lemma CanonicalTextSplits(p: ParsedTimestamp, f: Fields, q: ParsedTimestamp, g: Fields)
    requires Normalises(p, f) && Normalises(q, g)
    requires p.canonical == q.canonical
    ensures f == g && FormatCanonicalFraction(p.fraction) == FormatCanonicalFraction(q.fraction)
  {
    var c, d := FormatCanonicalFraction(p.fraction), FormatCanonicalFraction(q.fraction);
    SecondTextHasNoPoint(f);
    SecondTextHasNoPoint(g);
    assert p.canonical == SecondText(f) + "." + (c + "Z") && q.canonical == SecondText(g) + "." + (d + "Z");
    SplitAtFirst('.', SecondText(f), c + "Z", SecondText(g), d + "Z");
    assert c == (c + "Z")[..|c|] && d == (d + "Z")[..|d|];
    SecondTextInjective(f, g);
  }

  /** Two accepted texts have the same canonical text exactly when they denote the same instant. */
  lemma CanonicalTextIsNormalForm(v: string, w: string, p: ParsedTimestamp, q: ParsedTimestamp)
    requires ParseComponents(v) == Accepted(p) && ParseComponents(w) == Accepted(q)
    ensures AllDigits(p.fraction) && AllDigits(q.fraction)
    ensures p.canonical == q.canonical <==> InstantOf(p) == InstantOf(q)
  {
    AcceptedNormalises(v, p);
    AcceptedNormalises(w, q);
    NormalFormOfInstant(p, UtcFields(p), q, UtcFields(q));
  }

  lemma NormalFormOfInstant(p: ParsedTimestamp, f: Fields, q: ParsedTimestamp, g: Fields)
    requires Normalises(p, f) && Normalises(q, g)
    ensures p.canonical == q.canonical <==> InstantOf(p) == InstantOf(q)
  {
    FormatKeepsValue(p.fraction);
    FormatKeepsValue(q.fraction);
    WholeSecondTime(f, 0);
    WholeSecondTime(g, 0);
    InstantOrder(p, q);
    if p.canonical == q.canonical {
      CanonicalTextSplits(p, f, q, g);
    } else if InstantOf(p) == InstantOf(q) {
      TimeThenFields(f);
      TimeThenFields(g);
      CanonicalFractionUnique(FormatCanonicalFraction(p.fraction), FormatCanonicalFraction(q.fraction));
    }
  }

  /** `isParsedTimestampAfterEpochMilliseconds` for a limit in whole milliseconds. */
  predicate IsAfterEpochMilliseconds(timestamp: ParsedTimestamp, limitMs: int) {
    var limitWholeSecondMs := limitMs / 1000 * 1000;
    if timestamp.wholeSecondMs != limitWholeSecondMs then timestamp.wholeSecondMs > limitWholeSecondMs
    else CompareFractions(timestamp.fraction, Digits(3, limitMs - limitWholeSecondMs)) == Greater
  }

  lemma MillisecondFraction(n: nat)
    requires n < 1000
    ensures FractionValue(Digits(3, n)) == n as real / 1000.0
  {
    var a, b, c := n / 100, n / 10 % 10, n % 10;
    var s := Digits(3, n);
    assert Digits(1, n / 100) == [DigitChar(a)];
    assert Digits(2, n / 10) == [DigitChar(a), DigitChar(b)];
    assert s == [DigitChar(a), DigitChar(b), DigitChar(c)];
    assert s[1..] == [DigitChar(b), DigitChar(c)] && s[1..][1..] == [DigitChar(c)] && s[1..][1..][1..] == "";
    assert FractionValue(s[1..][1..]) == c as real / 10.0;
    assert FractionValue(s[1..]) == (b as real + c as real / 10.0) / 10.0;
    assert n == 100 * a + 10 * b + c;
  }

  /** The future-timestamp test compares the instant with the limit exactly, at any precision. */
  lemma IsAfterIsInstantOrder(v: string, p: ParsedTimestamp, limitMs: int)
    requires ParseComponents(v) == Accepted(p)
    ensures AllDigits(p.fraction)
    ensures IsAfterEpochMilliseconds(p, limitMs) <==> InstantOf(p) > limitMs as real / 1000.0
  {
    hide FieldsOf, SecondText, FractionValue, ParseComponents, CompareFractions;
    AcceptedNormalises(v, p);
    WholeSecondTime(UtcFields(p), 0);
    var second, millis := limitMs / 1000, limitMs % 1000;
    assert limitMs - limitMs / 1000 * 1000 == millis;
    var limit := ParsedTimestamp("", 1000 * second, Digits(3, millis));
    MillisecondFraction(millis);
    CompareFractionsIsRealOrder(p.fraction, limit.fraction);
    InstantOrder(p, limit);
    assert InstantOf(limit) == second as real + millis as real / 1000.0 == limitMs as real / 1000.0 by {
      assert limitMs == 1000 * second + millis;
      assert limitMs as real == 1000.0 * second as real + millis as real;
    }
  }

  // ---------------------------------------------------------------- what is accepted, and what it stands for

  /** A date and time, a fraction if it has digits, and a zone, as they are written. */
  function Written(f: Fields, fraction: string, zone: string): string
    requires ValidFields(f)
  {
    SecondText(f) + ((if fraction == "" then "" else "." + fraction) + zone)
  }

  function ZoneText(sign: char, hours: nat, minutes: nat): string {
    [sign] + Digits(2, hours) + ":" + Digits(2, minutes)
  }

  lemma SuffixMatches(fraction: string, zone: string)
    requires AllDigits(fraction) && IsZone(zone)
    ensures MatchSuffix((if fraction == "" then "" else "." + fraction) + zone) == Match(fraction, zone)
  {
    if fraction == "" {
      assert "" + zone == zone;
    } else {
      var suffix := "." + fraction + zone;
      assert suffix[1..|fraction| + 1] == fraction && suffix[|fraction| + 1..] == zone;
      DigitRunIsAll(suffix, 1, |fraction| + 1);
    }
  }

  lemma WrittenParses(f: Fields, fraction: string, zone: string)
    requires ValidFields(f) && 0 <= f.year <= 9999 && AllDigits(fraction) && IsZone(zone)
    ensures var r, offset := ParseComponents(Written(f, fraction, zone)), OffsetMinutes(zone);
            if offset.None? then r == Rejected(Components)
            else && r.Accepted? && r.value.fraction == fraction
                 && r.value.wholeSecondMs == TimeOf(f.(milli := 0)) - offset.value * 60_000
  {
    hide TimeOf, FieldsOf, SecondText, OffsetMinutes, ReadFields, HasDateTimeShape, MatchSuffix, IsZone;
    hide ToIso, StripZeroMilliseconds, FormatCanonicalFraction;
    SuffixMatches(fraction, zone);
    ReadFieldsOfText(f, (if fraction == "" then "" else "." + fraction) + zone);
  }

  lemma ZoneIsRead(sign: char, hours: nat, minutes: nat)
    requires (sign == '+' || sign == '-') && hours < 100 && minutes < 100
    ensures var zone := ZoneText(sign, hours, minutes);
            && IsZone(zone)
            && OffsetMinutes(zone) ==
                 if minutes > 59 || 60 * hours + minutes > 840 then None
                 else Some(if sign == '+' then 60 * hours + minutes else -(60 * hours + minutes))
  {
    hide Digits, NumberOf;
    var zone := ZoneText(sign, hours, minutes);
    assert zone[1..3] == Digits(2, hours) && zone[4..6] == Digits(2, minutes);
    assert Pow10(2) == 100;
    DigitsThenNumber(2, hours);
    DigitsThenNumber(2, minutes);
  }

  /**
   A text with an offset is accepted exactly if the offset has at most 59 minutes and is at most fourteen hours.
   It then stands for its local time less its offset, hours and minutes, and keeps its fraction.
   */
  lemma OffsetIsSubtracted(f: Fields, fraction: string, sign: char, hours: nat, minutes: nat)
    requires ValidFields(f) && 0 <= f.year <= 9999 && AllDigits(fraction)
    requires (sign == '+' || sign == '-') && hours < 100 && minutes < 100
    ensures var r := ParseComponents(Written(f, fraction, ZoneText(sign, hours, minutes)));
            && (r.Accepted? <==> minutes <= 59 && 60 * hours + minutes <= 840)
            && (!r.Accepted? ==> r == Rejected(Components))
            && (r.Accepted? ==>
                  && r.value.fraction == fraction
                  && r.value.wholeSecondMs ==
                       if sign == '+' then TimeOf(f.(milli := 0)) - (60 * hours + minutes) * 60_000
                       else TimeOf(f.(milli := 0)) + (60 * hours + minutes) * 60_000)
  {
    hide TimeOf, ParseComponents, Written, ZoneText, IsZone, OffsetMinutes;
    ZoneIsRead(sign, hours, minutes);
    WrittenParses(f, fraction, ZoneText(sign, hours, minutes));
  }

  /** A text in UTC is always accepted and stands for the time it shows. */
  lemma UtcIsKept(f: Fields, fraction: string)
    requires ValidFields(f) && 0 <= f.year <= 9999 && AllDigits(fraction)
    ensures var r := ParseComponents(Written(f, fraction, "Z"));
            r.Accepted? && r.value.fraction == fraction && r.value.wholeSecondMs == TimeOf(f.(milli := 0))
  {
    hide TimeOf, ParseComponents, Written;
    WrittenParses(f, fraction, "Z");
  }

  lemma ZoneIsWritten(zone: string) returns (sign: char, hours: nat, minutes: nat)
    requires IsZone(zone) && zone != "Z"
    ensures (sign == '+' || sign == '-') && hours < 100 && minutes < 100 && zone == ZoneText(sign, hours, minutes)
  {
    hide NumberOf, Digits;
    sign, hours, minutes := zone[0], NumberOf(zone[1..3]), NumberOf(zone[4..6]);
    NumberThenDigits(zone[1..3]);
    NumberThenDigits(zone[4..6]);
    assert Pow10(2) == 100;
    assert zone == [zone[0]] + zone[1..3] + ":" + zone[4..6];
  }

  ghost predicate IsOffsetText(zone: string) {
    exists sign, hours: nat, minutes: nat ::
      (sign == '+' || sign == '-') && hours < 100 && minutes < 100 && zone == ZoneText(sign, hours, minutes)
  }

  /** Every accepted text is a time that exists, a fraction, and UTC or an offset: the last two lemmas cover it. */
  lemma AcceptedIsWritten(v: string) returns (f: Fields, fraction: string, zone: string)
    requires ParseComponents(v).Accepted?
    ensures ValidFields(f) && 0 <= f.year <= 9999 && AllDigits(fraction) && v == Written(f, fraction, zone)
    ensures zone == "Z" || IsOffsetText(zone)
  {
    hide TimeOf, FieldsOf, SecondText, ToIso, OffsetMinutes, StripZeroMilliseconds, ReadFields;
    hide MatchSuffix, IsZone, ZoneText, FormatCanonicalFraction;
    var m := MatchTimestamp(v);
    f, fraction, zone := ReadFields(v), m.fraction, m.zone;
    TextOfReadFields(v);
    SuffixSplits(v[19..]);
    assert v == v[..19] + v[19..];
    if zone != "Z" {
      var sign, hours, minutes := ZoneIsWritten(zone);
    }
  }

  lemma SuffixSplits(rest: string)
    ensures var m := MatchSuffix(rest);
            m.Match? ==> rest == (if m.fraction == "" then "" else "." + m.fraction) + m.zone
  {
    if rest != "" && rest[0] == '.' {
      var end := DigitRunEnd(rest, 1);
      assert rest == [rest[0]] + rest[1..end] + rest[end..];
    }
  }

  // ---------------------------------------------------------------- parsing canonical texts again

  lemma CanonicalIsIdempotent(fraction: string)
    requires IsCanonicalFraction(fraction)
    ensures FormatCanonicalFraction(fraction) == fraction
  {
    FormatKeepsValue(fraction);
    CanonicalFractionUnique(FormatCanonicalFraction(fraction), fraction);
  }

  /**
   Parsing a canonical text gives the same canonical text and instant back exactly when the UTC year
   has four digits; an offset can push the year to -1 or 10000, and then the text is refused.
   */
  lemma ReparseIsFixpointIffFourDigitYear(v: string, p: ParsedTimestamp)
    requires ParseComponents(v) == Accepted(p)
    ensures if 0 <= UtcFields(p).year <= 9999
            then ParseComponents(p.canonical)
                 == Accepted(ParsedTimestamp(p.canonical, p.wholeSecondMs, FormatCanonicalFraction(p.fraction)))
            else ParseComponents(p.canonical) == Rejected(Grammar)
  {
    AcceptedNormalises(v, p);
    ReparseOfFields(p, UtcFields(p));
  }

  lemma ReparseOfFields(p: ParsedTimestamp, f: Fields)
    requires Normalises(p, f)
    ensures if 0 <= f.year <= 9999
            then ParseComponents(p.canonical)
                 == Accepted(ParsedTimestamp(p.canonical, p.wholeSecondMs, FormatCanonicalFraction(p.fraction)))
            else ParseComponents(p.canonical) == Rejected(Grammar)
  {
    hide ParseComponents, FieldsOf, TimeOf, HasDateTimeShape, FractionValue;
    var fraction := FormatCanonicalFraction(p.fraction);
    var suffix := "." + fraction + "Z";
    assert p.canonical == SecondText(f) + suffix;
    FormatKeepsValue(p.fraction);
    if 0 <= f.year <= 9999 {
      ReparseOfFourDigitYear(p, f, fraction);
    } else {
      LongYearHasNoShape(f, suffix);
      NoShapeIsRejected(p.canonical);
    }
  }

  lemma NoShapeIsRejected(v: string)
    requires !HasDateTimeShape(v)
    ensures ParseComponents(v) == Rejected(Grammar)
  {
  }

  lemma ReparseOfFourDigitYear(p: ParsedTimestamp, f: Fields, fraction: string)
    requires Normalises(p, f) && 0 <= f.year <= 9999
    requires fraction == FormatCanonicalFraction(p.fraction) && IsCanonicalFraction(fraction)
    ensures ParseComponents(p.canonical) == Accepted(ParsedTimestamp(p.canonical, p.wholeSecondMs, fraction))
  {
    hide FieldsOf, SecondText, TimeOf, ReadFields, ToIso, StripZeroMilliseconds, MatchSuffix, FormatCanonicalFraction,
      IsCanonicalFraction;
    var suffix := "." + fraction + "Z";
    assert p.canonical == SecondText(f) + suffix;
    ReadFieldsOfText(f, suffix);
    CanonicalSuffixMatches(fraction);
    TimeThenFields(f);
    WholeSecondTime(f, 0);
    SecondTextOfTime(p.wholeSecondMs);
    CanonicalIsIdempotent(fraction);
  }

  lemma LongYearHasNoShape(f: Fields, suffix: string)
    requires ValidFields(f) && !(0 <= f.year <= 9999)
    ensures !HasDateTimeShape(SecondText(f) + suffix)
  {
    var v := SecondText(f) + suffix;
    assert v[0] == YearText(f.year)[0];
    assert v[0..4][0] == v[0];
  }

  lemma CanonicalSuffixMatches(fraction: string)
    requires IsCanonicalFraction(fraction)
    ensures MatchSuffix("." + fraction + "Z") == Match(fraction, "Z")
  {
    FractionSuffixMatches(fraction);
  }

  lemma FractionSuffixMatches(fraction: string)
    requires AllDigits(fraction) && fraction != ""
    ensures MatchSuffix("." + fraction + "Z") == Match(fraction, "Z")
  {
    var suffix := "." + fraction + "Z";
    assert suffix[1..|suffix| - 1] == fraction && suffix[|suffix| - 1..] == "Z";
    DigitRunIsAll(suffix, 1, |suffix| - 1);
  }

  // ---------------------------------------------------------------- offsets that leave the four-digit years

  /** 0000-01-01T00:00:00+14:00 */
  const EARLIEST_TEXT := "00" + "00" + "-" + "01" + "-" + "01" + "T" + "00" + ":" + "00" + ":" + "00" + "+14:00"

  /** 9999-12-31T23:59:59-14:00 */
  const LATEST_TEXT := "99" + "99" + "-" + "12" + "-" + "31" + "T" + "23" + ":" + "59" + ":" + "59" + "-14:00"

  lemma OneDigit(n: nat)
    requires n < 10
    ensures Digits(1, n) == [DigitChar(n)]
  {
    hide DigitChar;
    assert n % 10 == n && Digits(0, n / 10) == "";
  }

  lemma TwoDigits(n: nat)
    requires n < 100
    ensures Digits(2, n) == [DigitChar(n / 10), DigitChar(n % 10)]
  {
    hide DigitChar;
    OneDigit(n / 10);
  }

  lemma FourDigits(n: nat)
    requires n < 10_000
    ensures Digits(4, n) == Digits(2, n / 100) + Digits(2, n % 100)
  {
    hide DigitChar;
    TwoDigits(n % 100);
    SplitFour(n);
    var hundreds := Digits(2, n / 10 / 10);
    assert Digits(4, n) == Digits(3, n / 10) + [DigitChar(n % 10)];
    assert Digits(3, n / 10) == hundreds + [DigitChar(n / 10 % 10)];
  }

  lemma SplitFour(n: nat)
    ensures n / 10 / 10 == n / 100 && n / 10 % 10 == n % 100 / 10 && n % 10 == n % 100 % 10
  {
  }

  lemma TextOfFields(f: Fields)
    requires ValidFields(f) && 0 <= f.year <= 9999
    ensures SecondText(f) ==
              Digits(2, f.year / 100) + Digits(2, f.year % 100) + "-" + Digits(2, f.month) + "-" + Digits(2, f.day)
              + "T" + Digits(2, f.hour) + ":" + Digits(2, f.minute) + ":" + Digits(2, f.second)
  {
    hide Digits;
    FourDigits(f.year);
  }

  lemma WholeHourZone(zone: string)
    requires zone == "+14:00" || zone == "-14:00"
    ensures MatchSuffix(zone) == Match("", zone) && OffsetMinutes(zone) == Some(if zone == "+14:00" then 840 else -840)
  {
    hide Digits, OffsetMinutes, MatchSuffix, IsZone, DigitChar;
    TwoDigits(14);
    TwoDigits(0);
    assert zone == ZoneText(zone[0], 14, 0);
    ZoneIsRead(zone[0], 14, 0);
    SuffixMatches("", zone);
    assert "" + zone == zone;
  }

  /** A local time fourteen hours from UTC is accepted with the UTC time as its fields. */
  lemma OffsetTextIsAccepted(f: Fields, zone: string, u: Fields)
    requires ValidFields(f) && f.milli == 0 && 0 <= f.year <= 9999 && (zone == "+14:00" || zone == "-14:00")
    requires ValidFields(u) && TimeOf(u) == TimeOf(f) - (if zone == "+14:00" then 840 else -840) * MS_PER_MINUTE
    ensures var r := ParseComponents(SecondText(f) + zone); r.Accepted? && UtcFields(r.value) == u
  {
    hide TimeOf, FieldsOf, SecondText, MatchSuffix, OffsetMinutes, ReadFields, HasDateTimeShape;
    ReadFieldsOfText(f, zone);
    WholeHourZone(zone);
    TimeThenFields(u);
  }

  lemma AcceptedTextIsRefusedAgain(v: string)
    requires ParseComponents(v).Accepted? && !(0 <= UtcFields(ParseComponents(v).value).year <= 9999)
    ensures ParseComponents(ParseComponents(v).value.canonical) == Rejected(Grammar)
  {
    ReparseIsFixpointIffFourDigitYear(v, ParseComponents(v).value);
  }

  /** Times on the two sides of a new year. */
  lemma AcrossNewYear(year: int)
    ensures DayNumber(year + 1, 1, 1) == DayNumber(year, 12, 31) + 1
  {
    hide DayFromYear;
    YearLength(year);
    MonthTable(year);
  }

  lemma TwoDigitTexts()
    ensures Digits(2, 0) == "00" && Digits(2, 1) == "01" && Digits(2, 99) == "99" && Digits(2, 12) == "12"
    ensures Digits(2, 31) == "31" && Digits(2, 23) == "23" && Digits(2, 59) == "59"
  {
    TwoDigits(0);
    TwoDigits(1);
    TwoDigits(99);
    TwoDigits(12);
    TwoDigits(31);
    TwoDigits(23);
    TwoDigits(59);
    hide Digits;
  }

  lemma EarliestText()
    ensures EARLIEST_TEXT == SecondText(Fields(0, 1, 1, 0, 0, 0, 0)) + "+14:00"
  {
    hide SecondText, Digits;
    TextOfFields(Fields(0, 1, 1, 0, 0, 0, 0));
    TwoDigitTexts();
  }

  lemma LatestText()
    ensures LATEST_TEXT == SecondText(Fields(9999, 12, 31, 23, 59, 59, 0)) + "-14:00"
  {
    hide SecondText, Digits;
    TextOfFields(Fields(9999, 12, 31, 23, 59, 59, 0));
    TwoDigitTexts();
  }

  /** Midnight of the year 0 at +14:00 is accepted, lies in the UTC year -1, and its canonical text is refused. */
  lemma EarliestTextDoesNotReparse()
    ensures var r := ParseComponents(EARLIEST_TEXT);
            && r.Accepted? && UtcFields(r.value).year == -1
            && ParseComponents(r.value.canonical) == Rejected(Grammar)
  {
    hide ParseComponents, FieldsOf, SecondText, DayNumber;
    var f, u := Fields(0, 1, 1, 0, 0, 0, 0), Fields(-1, 12, 31, 10, 0, 0, 0);
    EarliestText();
    AcrossNewYear(-1);
    OffsetTextIsAccepted(f, "+14:00", u);
    AcceptedTextIsRefusedAgain(EARLIEST_TEXT);
  }

  /** The last second of the year 9999 at -14:00 is accepted, lies in the UTC year 10000, and does not reparse. */
  lemma LatestTextDoesNotReparse()
    ensures var r := ParseComponents(LATEST_TEXT);
            && r.Accepted? && UtcFields(r.value).year == 10_000
            && ParseComponents(r.value.canonical) == Rejected(Grammar)
  {
    hide ParseComponents, FieldsOf, SecondText, DayNumber;
    var f, u := Fields(9999, 12, 31, 23, 59, 59, 0), Fields(10_000, 1, 1, 13, 59, 59, 0);
    LatestText();
    AcrossNewYear(9999);
    OffsetTextIsAccepted(f, "-14:00", u);
    AcceptedTextIsRefusedAgain(LATEST_TEXT);
  }
}
