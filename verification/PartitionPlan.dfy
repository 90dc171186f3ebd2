/**
 src/database/partitions/partition-plan.ts, and the request the retention service builds from it
 (buildRunInput, src/modules/retention/retention-service.ts) for the retention repository to validate
 (validateRequest, src/modules/retention/retention-repository.ts).
 */
module PartitionPlan {
  import opened Prelude
  import opened Decimal
  import opened JsDate
  import opened Timestamp

  datatype DailyPartition = DailyPartition(name: string, start: string, end: string)

  // ---------------------------------------------------------------- ISO texts of time values

  predicate HasFourDigitYear(t: int) {
    0 <= FieldsOf(t).year <= 9999
  }

  lemma IsoShape(t: int)
    requires HasFourDigitYear(t)
    ensures IsCanonicalMillisecondShape(ToIso(t))
    ensures ToIso(t)[..19] == SecondText(FieldsOf(t)) && ToIso(t)[20..23] == Digits(3, FieldsOf(t).milli)
    ensures ValidFields(FieldsOf(t)) && ReadFields(ToIso(t)) == FieldsOf(t).(milli := 0)
  {
    hide FieldsOf, SecondText, HasDateTimeShape, ReadFields;
    FieldsThenTime(t);
    var f := FieldsOf(t);
    var suffix := "." + Digits(3, f.milli) + "Z";
    ReadFieldsOfText(f, suffix);
    assert ToIso(t) == SecondText(f) + suffix;
    SecondTextLength(f);
    assert ToIso(t)[19..] == suffix;
    assert suffix[1..4] == Digits(3, f.milli);
    assert ToIso(t)[20..23] == suffix[1..4];
  }

  lemma SecondTextLength(f: Fields)
    requires ValidFields(f) && 0 <= f.year <= 9999
    ensures |SecondText(f)| == 19
  {
  }

  lemma LongYearHasNoDateShape(t: int)
    requires !HasFourDigitYear(t)
    ensures !HasDateTimeShape(ToIso(t))
  {
    hide FieldsOf, SecondText, HasDateTimeShape;
    FieldsThenTime(t);
    var f := FieldsOf(t);
    var suffix := "." + Digits(3, f.milli) + "Z";
    assert ToIso(t) == SecondText(f) + suffix;
    LongYearHasNoShape(f, suffix);
  }

  lemma DateParseOfIso(parse: DateParse, t: int)
    requires IsDateParse(parse) && HasFourDigitYear(t)
    ensures parse(ToIso(t)) == Some(t)
  {
    hide FieldsOf, SecondText, TimeOf;
    FieldsThenTime(t);
    var f := FieldsOf(t);
    assert ToIso(t) == SecondText(f) + "." + Digits(3, f.milli) + "Z";
  }

  /** The text of a time value parses back to it exactly when its year has four digits. */
  lemma IsoParses(parse: DateParse, t: int)
    requires IsDateParse(parse)
    ensures ParseCanonicalTimestamp(parse, ToIso(t))
         == if HasFourDigitYear(t)
            then Accepted(ParsedTimestamp(ToIso(t), t / 1000 * 1000, Digits(3, FieldsOf(t).milli)))
            else Rejected(Grammar)
  {
    hide FieldsOf, ToIso, IsDateParse, ParseComponents, HasDateTimeShape;
    if HasFourDigitYear(t) {
      IsoShape(t);
      DateParseOfIso(parse, t);
    } else {
      LongYearHasNoDateShape(t);
      NoShapeIsRejected(ToIso(t));
    }
  }

  // ---------------------------------------------------------------- one day

  /** `/^[0-9]{4}-[0-9]{2}-[0-9]{2}T00:00:00\.000Z$/` */
  predicate HasBoundaryShape(v: string) {
    && |v| == 24
    && AllDigits(v[0..4]) && v[4] == '-' && AllDigits(v[5..7]) && v[7] == '-' && AllDigits(v[8..10])
    && v[10..] == "T00:00:00.000Z"
  }

  predicate IsUtcBoundary(parse: DateParse, v: string) {
    HasBoundaryShape(v) && parse(v).Some? && ToIso(parse(v).value) == v
  }

  /** `start.slice(0, 10).replaceAll("-", "")` for a start of the right shape. */
  function DayDigits(start: string): string
    requires |start| >= 10
  {
    start[0..4] + start[5..7] + start[8..10]
  }

  /** `/^logs_[0-9]{8}$/` */
  predicate HasPartitionNameShape(name: string) {
    |name| == 13 && name[..5] == "logs_" && AllDigits(name[5..])
  }

  /** `assertDailyPartition` passes. */
  predicate IsDailyPartition(parse: DateParse, p: DailyPartition) {
    && HasPartitionNameShape(p.name)
    && IsUtcBoundary(parse, p.start) && IsUtcBoundary(parse, p.end)
    && p.name == "logs_" + DayDigits(p.start)
    && parse(p.end).value - parse(p.start).value == MS_PER_DAY
  }

  /** `partitionForTimestamp`: nothing when the result fails its own assertion. */
  function PartitionForTimestamp(parse: DateParse, timestamp: int): Option<DailyPartition> {
    var start, end := ToIso(timestamp), ToIso(timestamp + MS_PER_DAY);
    if |start| < 10 then None else
    var p := DailyPartition("logs_" + DayDigits(start), start, end);
    if IsDailyPartition(parse, p) then Some(p) else None
  }

  lemma MidnightFields(t: int)
    requires t % MS_PER_DAY == 0
    ensures var f := FieldsOf(t); f.hour == 0 && f.minute == 0 && f.second == 0 && f.milli == 0
  {
  }

  lemma MidnightText(t: int)
    requires t % MS_PER_DAY == 0 && HasFourDigitYear(t)
    ensures HasBoundaryShape(ToIso(t))
  {
    hide FieldsOf, ToIso, TimeOf;
    MidnightFields(t);
    IsoShape(t);
    var v, f := ToIso(t), FieldsOf(t);
    assert Digits(2, 0) == "00" by { assert Digits(1, 0) == "0"; }
    assert Digits(3, 0) == "000" by { assert Digits(2, 0) == "00"; }
    DateTimeTailParts(f);
    var tail := DateTimeTail(f);
    assert v[..19] == YearText(f.year) + tail;
    assert v[4..19] == tail by { assert v[..19][4..] == tail; }
    assert v[10..19] == tail[6..15] by { assert v[4..19][6..15] == v[10..19]; }
    MidnightTail(tail);
    assert v[10..] == v[10..19] + "." + v[20..23] + "Z";
  }

  lemma MidnightTail(tail: string)
    requires |tail| == 15 && tail[6] == 'T' && tail[9] == ':' && tail[12] == ':'
    requires tail[7..9] == "00" && tail[10..12] == "00" && tail[13..15] == "00"
    ensures tail[6..15] == "T00:00:00"
  {
    assert tail[6..15] == [tail[6]] + tail[7..9] + [tail[9]] + tail[10..12] + [tail[12]] + tail[13..15];
  }

  /** A midnight gives a valid partition exactly when it and the next midnight have four-digit years. */
  lemma PartitionOfMidnight(parse: DateParse, t: int)
    requires IsDateParse(parse) && t % MS_PER_DAY == 0
    ensures PartitionForTimestamp(parse, t).Some? <==> HasFourDigitYear(t) && HasFourDigitYear(t + MS_PER_DAY)
    ensures PartitionForTimestamp(parse, t).Some? ==>
              var p := PartitionForTimestamp(parse, t).value;
              p.start == ToIso(t) && p.end == ToIso(t + MS_PER_DAY) && |p.start| == 24 &&
                p.name == "logs_" + DayDigits(p.start)
  {
    hide FieldsOf, ToIso, IsDateParse, HasBoundaryShape, HasFourDigitYear;
    if HasFourDigitYear(t) && HasFourDigitYear(t + MS_PER_DAY) {
      MidnightText(t);
      MidnightText(t + MS_PER_DAY);
      DateParseOfIso(parse, t);
      DateParseOfIso(parse, t + MS_PER_DAY);
      NameShape(ToIso(t));
    } else {
      LongYearIsNoBoundary(t);
      LongYearIsNoBoundary(t + MS_PER_DAY);
    }
    BoundaryLength(ToIso(t));
  }

  lemma BoundaryLength(v: string)
    ensures HasBoundaryShape(v) ==> |v| == 24
  {
  }

  lemma NameShape(start: string)
    requires HasBoundaryShape(start)
    ensures |start| == 24 && HasPartitionNameShape("logs_" + DayDigits(start))
  {
    assert ("logs_" + DayDigits(start))[5..] == DayDigits(start);
  }

  lemma LongYearIsNoBoundary(t: int)
    requires t % MS_PER_DAY == 0
    ensures HasFourDigitYear(t) || !HasBoundaryShape(ToIso(t))
  {
    hide FieldsOf, ToIso;
    if !HasFourDigitYear(t) {
      LongYearHasNoDateShape(t);
      BoundaryIsDateShape(ToIso(t));
    }
  }

  lemma BoundaryIsDateShape(v: string)
    ensures HasBoundaryShape(v) ==> HasDateTimeShape(v)
  {
    if HasBoundaryShape(v) {
      var rest := v[10..];
      assert v[10] == rest[0] && v[13] == rest[3] && v[16] == rest[6];
      assert v[11..13] == rest[1..3] && v[14..16] == rest[4..6] && v[17..19] == rest[7..9];
    }
  }

  /** The name determines the day, whichever plan it comes from. */
  lemma NameIdentifiesDay(parse: DateParse, t: int, u: int)
    requires IsDateParse(parse) && t % MS_PER_DAY == 0 && u % MS_PER_DAY == 0
    requires PartitionForTimestamp(parse, t).Some? && PartitionForTimestamp(parse, u).Some?
    ensures PartitionForTimestamp(parse, t).value.name == PartitionForTimestamp(parse, u).value.name ==> t == u
  {
    hide FieldsOf, ToIso, IsDateParse, PartitionForTimestamp;
    PartitionOfMidnight(parse, t);
    PartitionOfMidnight(parse, u);
    var p, q := PartitionForTimestamp(parse, t).value, PartitionForTimestamp(parse, u).value;
    if p.name == q.name {
      assert DayDigits(p.start) == p.name[5..] == q.name[5..] == DayDigits(q.start);
      SameDigitsSameTime(t, u);
    }
  }

  lemma SameDigitsSameTime(t: int, u: int)
    requires t % MS_PER_DAY == 0 && u % MS_PER_DAY == 0 && HasFourDigitYear(t) && HasFourDigitYear(u)
    requires |ToIso(t)| == 24 && |ToIso(u)| == 24 && DayDigits(ToIso(t)) == DayDigits(ToIso(u))
    ensures t == u
  {
    hide FieldsOf, ToIso, TimeOf, SecondText;
    IsoShape(t);
    IsoShape(u);
    MidnightFields(t);
    MidnightFields(u);
    FieldsThenTime(t);
    FieldsThenTime(u);
    var v, w := ToIso(t), ToIso(u);
    assert v[0..4] == DayDigits(v)[0..4] && w[0..4] == DayDigits(w)[0..4];
    assert v[5..7] == DayDigits(v)[4..6] && w[5..7] == DayDigits(w)[4..6];
    assert v[8..10] == DayDigits(v)[6..8] && w[8..10] == DayDigits(w)[6..8];
    var a, b := ReadFields(v), ReadFields(w);
    assert a.year == b.year && a.month == b.month && a.day == b.day;
    assert FieldsOf(t) == FieldsOf(u);
  }

  // ---------------------------------------------------------------- the plan

  const MAX_RETENTION_DAYS := 3_650

  function FirstDay(now: int, retentionDays: int): int {
    now / MS_PER_DAY * MS_PER_DAY - retentionDays * MS_PER_DAY
  }

  /** The partitions of `count` days from `first`, or nothing if one of them is impossible. */
  function DaysFrom(parse: DateParse, first: int, count: nat): Option<seq<DailyPartition>> {
    if count == 0 then Some([]) else
    var before, last :=
      DaysFrom(parse, first, count - 1), PartitionForTimestamp(parse, first + (count - 1) * MS_PER_DAY);
    if before.None? || last.None? then None else Some(before.value + [last.value])
  }

  function PlanOf(parse: DateParse, now: int, retentionDays: int): Option<seq<DailyPartition>> {
    if !IsTimeValue(now) || retentionDays < 1 || retentionDays > MAX_RETENTION_DAYS then None
    else DaysFrom(parse, FirstDay(now, retentionDays), retentionDays + 3)
  }

  lemma {:induction false} DaysStayImpossible(parse: DateParse, first: int, count: nat, more: nat)
    requires DaysFrom(parse, first, count).None? && count <= more
    ensures DaysFrom(parse, first, more).None?
    decreases more - count
  {
    if count < more {
      DaysStayImpossible(parse, first, count + 1, more);
    }
  }

  /** `buildPartitionPlan`; nothing stands for the error. */
  method BuildPartitionPlan(parse: DateParse, now: int, retentionDays: int) returns (plan: Option<seq<DailyPartition>>)
    ensures plan == PlanOf(parse, now, retentionDays)
  {
    hide PartitionForTimestamp;
    if !IsTimeValue(now) || retentionDays < 1 || retentionDays > MAX_RETENTION_DAYS {
      return None;
    }
    var currentUtcDay := now / MS_PER_DAY * MS_PER_DAY;
    var firstDay := currentUtcDay - retentionDays * MS_PER_DAY;
    var partitions: seq<DailyPartition> := [];
    for offset := 0 to retentionDays + 3
      invariant DaysFrom(parse, firstDay, offset) == Some(partitions)
    {
      var partition := PartitionForTimestamp(parse, firstDay + offset * MS_PER_DAY);
      if partition.None? {
        DaysStayImpossible(parse, firstDay, offset + 1, retentionDays + 3);
        return None;
      }
      partitions := partitions + [partition.value];
    }
    plan := Some(partitions);
  }

  lemma {:induction false} DaysAre(parse: DateParse, first: int, count: nat)
    requires DaysFrom(parse, first, count).Some?
    ensures var days := DaysFrom(parse, first, count).value;
            && |days| == count
            && forall k :: 0 <= k < count ==> Some(days[k]) == PartitionForTimestamp(parse, first + k * MS_PER_DAY)
  {
    hide PartitionForTimestamp;
    if count > 0 {
      DaysAre(parse, first, count - 1);
    }
  }

  lemma {:induction false} DaysArePossible(parse: DateParse, first: int, count: nat)
    ensures DaysFrom(parse, first, count).Some?
       <==> forall k :: 0 <= k < count ==> PartitionForTimestamp(parse, first + k * MS_PER_DAY).Some?
  {
    hide PartitionForTimestamp;
    if count > 0 {
      DaysArePossible(parse, first, count - 1);
    }
  }

  /** The k-th day from `first` contains the instant. */
  predicate CoversInstant(first: int, k: int, instant: int) {
    first + k * MS_PER_DAY <= instant < first + (k + 1) * MS_PER_DAY
  }

  /** The days touch without a gap or an overlap, and each is a valid partition. */
  ghost predicate AreConsecutiveDays(parse: DateParse, plan: seq<DailyPartition>, first: int) {
    forall k :: 0 <= k < |plan| ==>
      && IsDailyPartition(parse, plan[k])
      && plan[k].start == ToIso(first + k * MS_PER_DAY)
      && plan[k].end == ToIso(first + (k + 1) * MS_PER_DAY)
  }

  predicate HaveDifferentNames(plan: seq<DailyPartition>) {
    forall i, k :: 0 <= i < k < |plan| ==> plan[i].name != plan[k].name
  }

  /**
   A plan tiles its window: retentionDays + 3 consecutive valid days with different names, from
   retentionDays before today's UTC midnight, so that today is the day at index retentionDays.
   */
  lemma PlanTilesWindow(parse: DateParse, now: int, retentionDays: int)
    requires IsDateParse(parse) && PlanOf(parse, now, retentionDays).Some?
    ensures var plan := PlanOf(parse, now, retentionDays).value;
            && |plan| == retentionDays + 3
            && AreConsecutiveDays(parse, plan, FirstDay(now, retentionDays))
            && HaveDifferentNames(plan)
            && CoversInstant(FirstDay(now, retentionDays), retentionDays, now)
  {
    hide IsDateParse, IsDailyPartition, PartitionForTimestamp, ToIso, DaysFrom;
    var plan, first := PlanOf(parse, now, retentionDays).value, FirstDay(now, retentionDays);
    DaysAre(parse, first, retentionDays + 3);
    forall k | 0 <= k < |plan|
      ensures IsDailyPartition(parse, plan[k])
      ensures plan[k].start == ToIso(first + k * MS_PER_DAY) && plan[k].end == ToIso(first + (k + 1) * MS_PER_DAY)
    {
      MidnightOffset(now, retentionDays, k);
      PlannedDay(parse, first + k * MS_PER_DAY, plan[k]);
    }
    forall i, k | 0 <= i < k < |plan| ensures plan[i].name != plan[k].name {
      assert Some(plan[i]) == PartitionForTimestamp(parse, first + i * MS_PER_DAY);
      assert Some(plan[k]) == PartitionForTimestamp(parse, first + k * MS_PER_DAY);
      MidnightOffset(now, retentionDays, i);
      MidnightOffset(now, retentionDays, k);
      NameIdentifiesDay(parse, first + i * MS_PER_DAY, first + k * MS_PER_DAY);
    }
  }

  lemma {:induction false} YearsAreMonotone(t: int, u: int)
    requires t <= u
    ensures FieldsOf(t).year <= FieldsOf(u).year
  {
    hide MonthFromDayInYear, YearFromDay;
    var year, later := FieldsOf(t).year, FieldsOf(u).year;
    if later < year {
      YearsAscend(later + 1, year);
    }
  }

  lemma FourDigitYearsBetween(first: int, t: int, last: int)
    requires first <= t <= last && HasFourDigitYear(first) && HasFourDigitYear(last)
    ensures HasFourDigitYear(t)
  {
    hide FieldsOf;
    YearsAreMonotone(first, t);
    YearsAreMonotone(t, last);
  }

  /** A plan exists exactly for a time value, 1 to 3650 days, and a window whose two ends have four-digit years. */
  lemma PlanExistsIff(parse: DateParse, now: int, retentionDays: int)
    requires IsDateParse(parse)
    ensures PlanOf(parse, now, retentionDays).Some? <==>
              && IsTimeValue(now) && 1 <= retentionDays <= 3650
              && HasFourDigitYear(FirstDay(now, retentionDays))
              && HasFourDigitYear(FirstDay(now, retentionDays) + (retentionDays + 3) * 86_400_000)
  {
    hide IsDateParse, HasFourDigitYear, PartitionForTimestamp, DaysFrom, IsTimeValue, FirstDay;
    if IsTimeValue(now) && 1 <= retentionDays <= MAX_RETENTION_DAYS {
      var first, count := FirstDay(now, retentionDays), retentionDays + 3;
      DaysArePossible(parse, first, count);
      forall k | 0 <= k < count
        ensures PartitionForTimestamp(parse, first + k * MS_PER_DAY).Some? <==>
                  HasFourDigitYear(first + k * MS_PER_DAY) && HasFourDigitYear(first + k * MS_PER_DAY + MS_PER_DAY)
      {
        PlannedDayExistsIff(parse, now, retentionDays, k);
      }
      WindowEnds(parse, first, count);
    }
  }

  lemma PlannedDayExistsIff(parse: DateParse, now: int, retentionDays: int, k: int)
    requires IsDateParse(parse)
    ensures var midnight := FirstDay(now, retentionDays) + k * MS_PER_DAY;
            PartitionForTimestamp(parse, midnight).Some? <==>
              HasFourDigitYear(midnight) && HasFourDigitYear(midnight + MS_PER_DAY)
  {
    hide IsDateParse, HasFourDigitYear, PartitionForTimestamp, FirstDay;
    MidnightOffset(now, retentionDays, k);
    PartitionOfMidnight(parse, FirstDay(now, retentionDays) + k * MS_PER_DAY);
  }

  lemma WindowEnds(parse: DateParse, first: int, count: nat)
    requires count > 0
    requires forall k :: 0 <= k < count ==>
               (PartitionForTimestamp(parse, first + k * MS_PER_DAY).Some? <==>
                  HasFourDigitYear(first + k * MS_PER_DAY) && HasFourDigitYear(first + k * MS_PER_DAY + MS_PER_DAY))
    ensures (forall k :: 0 <= k < count ==> PartitionForTimestamp(parse, first + k * MS_PER_DAY).Some?) <==>
              HasFourDigitYear(first) && HasFourDigitYear(first + count * MS_PER_DAY)
  {
    hide HasFourDigitYear, PartitionForTimestamp;
    var last := first + count * MS_PER_DAY;
    assert first + (count - 1) * MS_PER_DAY + MS_PER_DAY == last;
    assert PartitionForTimestamp(parse, first + 0 * MS_PER_DAY).Some? ==> HasFourDigitYear(first);
    assert PartitionForTimestamp(parse, first + (count - 1) * MS_PER_DAY).Some? ==> HasFourDigitYear(last);
    if HasFourDigitYear(first) && HasFourDigitYear(last) {
      forall k | 0 <= k < count ensures PartitionForTimestamp(parse, first + k * MS_PER_DAY).Some? {
        FourDigitYearsBetween(first, first + k * MS_PER_DAY, last);
        FourDigitYearsBetween(first, first + k * MS_PER_DAY + MS_PER_DAY, last);
      }
    }
  }

  lemma PlannedDay(parse: DateParse, midnight: int, p: DailyPartition)
    requires IsDateParse(parse) && midnight % MS_PER_DAY == 0
    requires Some(p) == PartitionForTimestamp(parse, midnight)
    ensures IsDailyPartition(parse, p) && p.start == ToIso(midnight) && p.end == ToIso(midnight + MS_PER_DAY)
  {
    hide IsDateParse, IsDailyPartition, ToIso;
  }

  /** Each instant of a window of consecutive days lies in exactly one of them. */
  lemma InstantHasOneDay(first: int, instant: int, count: nat)
    requires first <= instant < first + count * MS_PER_DAY
    ensures var k := (instant - first) / MS_PER_DAY;
            && 0 <= k < count && CoversInstant(first, k, instant)
            && forall i :: CoversInstant(first, i, instant) ==> i == k
  {
    var k := (instant - first) / MS_PER_DAY;
    assert instant - first == k * MS_PER_DAY + (instant - first) % MS_PER_DAY;
  }

  lemma MidnightOffset(now: int, retentionDays: int, k: int)
    ensures (FirstDay(now, retentionDays) + k * MS_PER_DAY) % MS_PER_DAY == 0
  {
    assert FirstDay(now, retentionDays) + k * MS_PER_DAY == (now / MS_PER_DAY - retentionDays + k) * MS_PER_DAY;
  }

  // ---------------------------------------------------------------- the retention request

  datatype RunRequest = RunRequest(referenceTime: string, cutoff: string, partitions: seq<DailyPartition>)

  /** `buildRunInput`; nothing stands for the error. */
  function BuildRunInput(parse: DateParse, now: int, retentionDays: int): Option<RunRequest> {
    var cutoff := now - retentionDays * MS_PER_DAY;
    if !IsTimeValue(now) || !IsTimeValue(cutoff) then None else
    var plan := PlanOf(parse, now, 1);
    if plan.None? || |plan.value| != 4 then None
    else Some(RunRequest(ToIso(now), ToIso(cutoff), plan.value[1..]))
  }

  /** `readCanonicalTimestamp` passes. */
  predicate IsCanonicalText(parse: DateParse, v: string) {
    var parsed := ParseCanonicalTimestamp(parse, v);
    parsed.Accepted? && parsed.value.canonical == v
  }

  function ExpectedPartitionStart(wholeSecondMs: int, offset: nat): string {
    ToIso(wholeSecondMs / MS_PER_DAY * MS_PER_DAY + offset * MS_PER_DAY)
  }

  /** `validateRequest` passes. */
  predicate IsValidRequest(parse: DateParse, r: RunRequest) {
    && IsCanonicalText(parse, r.referenceTime)
    && IsCanonicalText(parse, r.cutoff)
    && |r.partitions| == 3
    && (forall k :: 0 <= k < 3 ==> IsDailyPartition(parse, r.partitions[k]))
    && r.partitions[0].name != r.partitions[1].name
    && r.partitions[0].name != r.partitions[2].name
    && r.partitions[1].name != r.partitions[2].name
    && var whole := ParseCanonicalTimestamp(parse, r.referenceTime).value.wholeSecondMs;
       forall k :: 0 <= k < 3 ==> r.partitions[k].start == ExpectedPartitionStart(whole, k)
  }

  lemma SecondsOfDay(now: int)
    ensures now / 1000 * 1000 / MS_PER_DAY == now / MS_PER_DAY
  {
    assert now / 1000 * 1000 / 86_400_000 == now / 86_400_000;
  }

  lemma PlanDaysAreExpected(parse: DateParse, now: int)
    requires IsDateParse(parse) && PlanOf(parse, now, 1).Some?
    ensures var plan := PlanOf(parse, now, 1).value;
            |plan| == 4 && forall k :: 0 <= k < 3 ==> plan[k + 1].start == ExpectedPartitionStart(now / 1000 * 1000, k)
  {
    hide ToIso, IsDateParse, IsDailyPartition, PlanOf;
    PlanTilesWindow(parse, now, 1);
    SecondsOfDay(now);
    var plan := PlanOf(parse, now, 1).value;
    forall k | 0 <= k < 3 ensures plan[k + 1].start == ExpectedPartitionStart(now / 1000 * 1000, k) {
      assert plan[k + 1].start == ToIso(FirstDay(now, 1) + (k + 1) * MS_PER_DAY);
    }
  }

  lemma ReferenceHasFourDigitYear(parse: DateParse, now: int)
    requires IsDateParse(parse) && PlanOf(parse, now, 1).Some?
    ensures HasFourDigitYear(now)
  {
    hide ToIso, IsDateParse, FieldsOf, PartitionForTimestamp;
    DaysAre(parse, FirstDay(now, 1), 4);
    MidnightOffset(now, 1, 1);
    var midnight := FirstDay(now, 1) + 1 * MS_PER_DAY;
    assert Some(PlanOf(parse, now, 1).value[1]) == PartitionForTimestamp(parse, midnight);
    PartitionOfMidnight(parse, midnight);
    SameDaySameYear(now);
  }

  lemma SameDaySameYear(now: int)
    ensures FieldsOf(now / MS_PER_DAY * MS_PER_DAY).year == FieldsOf(now).year
  {
    assert now / MS_PER_DAY * MS_PER_DAY / MS_PER_DAY == now / MS_PER_DAY;
  }

  /**
   The repository accepts the request the service builds exactly when the cutoff's UTC year is not
   before year 0: the service checks only that the cutoff is a time value.
   */
  lemma BuiltRequestIsValidIffCutoffYear(parse: DateParse, now: int, retentionDays: int)
    requires IsDateParse(parse) && BuildRunInput(parse, now, retentionDays).Some?
    ensures IsValidRequest(parse, BuildRunInput(parse, now, retentionDays).value)
       <==> HasFourDigitYear(now - retentionDays * MS_PER_DAY)
  {
    hide ToIso, IsDateParse, FieldsOf, IsDailyPartition, PlanOf, HasFourDigitYear, ParseCanonicalTimestamp,
      ExpectedPartitionStart;
    var r, plan := BuildRunInput(parse, now, retentionDays).value, PlanOf(parse, now, 1).value;
    ReferenceHasFourDigitYear(parse, now);
    IsoParses(parse, now);
    IsoParses(parse, now - retentionDays * MS_PER_DAY);
    PlanTilesWindow(parse, now, 1);
    PlanDaysAreExpected(parse, now);
    assert r.partitions[0] == plan[1] && r.partitions[1] == plan[2] && r.partitions[2] == plan[3];
  }

  /**
   A request is built exactly for a clock and a cutoff that are time values, and a window from yesterday to the day
   after tomorrow whose two ends have four-digit years. It then shows the clock and the cutoff.
   */
  lemma RequestIsBuiltIff(parse: DateParse, now: int, retentionDays: int)
    requires IsDateParse(parse)
    ensures var r, first := BuildRunInput(parse, now, retentionDays), FirstDay(now, 1);
            && (r.Some? <==>
                  && IsTimeValue(now) && IsTimeValue(now - retentionDays * 86_400_000)
                  && HasFourDigitYear(first) && HasFourDigitYear(first + 4 * 86_400_000))
            && (r.Some? ==>
                  r.value.referenceTime == ToIso(now) && r.value.cutoff == ToIso(now - retentionDays * 86_400_000))
  {
    hide ToIso, IsDateParse, FieldsOf, PlanOf, HasFourDigitYear, FirstDay, IsTimeValue;
    PlanExistsIff(parse, now, 1);
    if PlanOf(parse, now, 1).Some? {
      PlanTilesWindow(parse, now, 1);
    }
  }

  lemma BoundaryHasFourDigitYear(t: int)
    requires HasBoundaryShape(ToIso(t))
    ensures HasFourDigitYear(t)
  {
    hide ToIso, HasFourDigitYear;
    var v := ToIso(t);
    assert v[10..][0] == 'T' && v[10..][1] == '0' && v[10..][2] == '0' && v[10..][3] == ':' && v[10..][4] == '0';
    assert v[10..][5] == '0' && v[10..][6] == ':' && v[10..][7] == '0' && v[10..][8] == '0';
    assert HasDateTimeShape(v);
    if !HasFourDigitYear(t) {
      LongYearHasNoDateShape(t);
    }
  }

  lemma DailyPartitionParts(parse: DateParse, p: DailyPartition)
    requires IsDailyPartition(parse, p)
    ensures HasBoundaryShape(p.start) && p.name == "logs_" + DayDigits(p.start)
    ensures parse(p.start).Some? && parse(p.end).Some? && ToIso(parse(p.end).value) == p.end
    ensures parse(p.end).value == parse(p.start).value + MS_PER_DAY
  {
    hide ToIso, HasBoundaryShape, DayDigits, HasPartitionNameShape;
  }

  lemma PartitionOfStart(parse: DateParse, p: DailyPartition, t: int)
    requires IsDateParse(parse) && IsDailyPartition(parse, p) && p.start == ToIso(t)
    ensures p == DailyPartition("logs_" + DayDigits(ToIso(t)), ToIso(t), ToIso(t + 86_400_000))
  {
    hide ToIso, IsDateParse, HasFourDigitYear, IsDailyPartition, HasBoundaryShape, DayDigits;
    DailyPartitionParts(parse, p);
    BoundaryHasFourDigitYear(t);
    DateParseOfIso(parse, t);
  }

  /** A valid request names three days: that of its reference time and the two behind it, and nothing else. */
  lemma ValidRequestNamesDays(parse: DateParse, r: RunRequest)
    requires IsDateParse(parse) && IsValidRequest(parse, r)
    ensures var reference := ParseCanonicalTimestamp(parse, r.referenceTime);
            var cutoff := ParseCanonicalTimestamp(parse, r.cutoff);
            && reference.Accepted? && reference.value.canonical == r.referenceTime
            && cutoff.Accepted? && cutoff.value.canonical == r.cutoff
            && var today := reference.value.wholeSecondMs / 86_400_000 * 86_400_000;
               var tomorrow, later := today + 86_400_000, today + 2 * 86_400_000;
               r.partitions ==
                 [DailyPartition("logs_" + DayDigits(ToIso(today)), ToIso(today), ToIso(tomorrow)),
                  DailyPartition("logs_" + DayDigits(ToIso(tomorrow)), ToIso(tomorrow), ToIso(later)),
                  DailyPartition("logs_" + DayDigits(ToIso(later)), ToIso(later), ToIso(later + 86_400_000))]
  {
    hide ToIso, IsDateParse, HasFourDigitYear, IsDailyPartition, ParseCanonicalTimestamp;
    var today := ParseCanonicalTimestamp(parse, r.referenceTime).value.wholeSecondMs / MS_PER_DAY * MS_PER_DAY;
    PartitionOfStart(parse, r.partitions[0], today);
    PartitionOfStart(parse, r.partitions[1], today + MS_PER_DAY);
    PartitionOfStart(parse, r.partitions[2], today + 2 * MS_PER_DAY);
  }

  /** Midnight of January 3 of year 5. */
  const EARLY_CLOCK := (DayFromYear(5) + 2) * MS_PER_DAY

  /** With 3650 days of retention and the clock in year 5, the service builds a request that is refused. */
  lemma EarlyClockIsRefused(parse: DateParse)
    requires IsDateParse(parse)
    ensures BuildRunInput(parse, EARLY_CLOCK, MAX_RETENTION_DAYS).Some?
    ensures !IsValidRequest(parse, BuildRunInput(parse, EARLY_CLOCK, MAX_RETENTION_DAYS).value)
  {
    hide IsDateParse, FieldsOf, PlanOf, IsValidRequest, HasFourDigitYear, ToIso, DayFromYear;
    EarlyClockInRange();
    EarlyDays();
    EarlyPlan(parse, EARLY_CLOCK);
    BuiltRequestIsValidIffCutoffYear(parse, EARLY_CLOCK, MAX_RETENTION_DAYS);
  }

  lemma EarlyClockInRange()
    ensures IsTimeValue(EARLY_CLOCK) && IsTimeValue(EARLY_CLOCK - MAX_RETENTION_DAYS * MS_PER_DAY)
    ensures EARLY_CLOCK % MS_PER_DAY == 0
  {
    assert DayFromYear(5) == -717_701;
  }

  lemma EarlyDays()
    ensures !HasFourDigitYear(EARLY_CLOCK - MAX_RETENTION_DAYS * MS_PER_DAY)
    ensures HasFourDigitYear(EARLY_CLOCK - MS_PER_DAY) && HasFourDigitYear(EARLY_CLOCK + 3 * MS_PER_DAY)
  {
    hide YearFromDay, MonthFromDayInYear;
    assert DayFromYear(5) == -717_701 && DayFromYear(6) == -717_336 && DayFromYear(0) == -719_528;
    var day := DayFromYear(5) + 2;
    YearsBefore(day - MAX_RETENTION_DAYS, 0);
    YearOfMidnight(day - MAX_RETENTION_DAYS);
    YearOfMidnight(day - 1);
    YearIsUnique(day - 1, 5);
    YearOfMidnight(day + 3);
    YearIsUnique(day + 3, 5);
    assert EARLY_CLOCK - MS_PER_DAY == (day - 1) * MS_PER_DAY && EARLY_CLOCK + 3 * MS_PER_DAY == (day + 3) * MS_PER_DAY;
  }

  lemma YearOfMidnight(day: int)
    ensures FieldsOf(day * MS_PER_DAY).year == YearFromDay(day)
  {
    assert day * MS_PER_DAY / MS_PER_DAY == day;
  }

  lemma YearsBefore(day: int, year: int)
    requires day < DayFromYear(year)
    ensures YearFromDay(day) < year
  {
    if year <= YearFromDay(day) {
      YearsAscend(year, YearFromDay(day));
    }
  }

  lemma EarlyPlan(parse: DateParse, now: int)
    requires IsDateParse(parse) && IsTimeValue(now) && now % MS_PER_DAY == 0
    requires HasFourDigitYear(now - MS_PER_DAY) && HasFourDigitYear(now + 3 * MS_PER_DAY)
    ensures PlanOf(parse, now, 1).Some? && |PlanOf(parse, now, 1).value| == 4
  {
    hide IsDateParse, HasFourDigitYear, PlanOf;
    assert FirstDay(now, 1) == now - MS_PER_DAY;
    PlanExistsIff(parse, now, 1);
    PlanTilesWindow(parse, now, 1);
  }
}
