/**
 src/modules/aggregation/log-aggregation-repository.ts: the aggregation query over the log table, the
 query over the rollup table that stands in for it, and when the two give the same rows.
 */
module LogAggregation {
  import opened Prelude
  import opened LogEntry
  import opened Counting
  import opened MinuteRollup
  import opened JsDate
  import opened Decimal

  datatype Bucket = OneMinute | FiveMinutes | OneHour | OneDay

  datatype GroupBy = ByService | ByLevel

  /** A parsed aggregation query; `since` and `until` are required. */
  datatype Query = Query(filters: Filters, bucket: Bucket, groupBy: Option<GroupBy>)

  predicate HasRange(query: Query) {
    query.filters.since.Some? && query.filters.until.Some?
  }

  function Minutes(bucket: Bucket): (minutes: nat)
    ensures minutes >= 1
  {
    match bucket
    case OneMinute => 1
    case FiveMinutes => 5
    case OneHour => 60
    case OneDay => 1440
  }

  /** date_bin(interval, t, epoch): the start of t's bin, at or before t on both sides of the epoch. */
  function DateBin(bucket: Bucket, t: int): int {
    var stride := Minutes(bucket) * MICROS_PER_MINUTE;
    t / stride * stride
  }

  datatype RowKey = RowKey(start: int, group: Option<string>)

  /** The rows of an aggregation result: one count for each bucket and group that occurs. */
  type Rows = map<RowKey, nat>

  function GroupValue(groupBy: Option<GroupBy>, service: string, level: Level): Option<string> {
    match groupBy
    case None => None
    case Some(ByService) => Some(service)
    case Some(ByLevel) => Some(LevelText(level))
  }

  function CanUseRollup(filters: Filters): bool {
    filters.q.None? && filters.attributes == []
  }

  // ---------------------------------------------------------------- the query over the log table

  function LogKey(query: Query, log: Log): RowKey {
    RowKey(DateBin(query.bucket, log.timestamp), GroupValue(query.groupBy, log.service, log.level))
  }

  /** SELECT date_bin(...), group, COUNT(*) FROM logs WHERE ... GROUP BY 1, 2 */
  function RawRows(fold: Folding, query: Query, logs: seq<Log>): Rows {
    var keys := set log | log in logs && Matches(fold, query.filters, log) :: LogKey(query, log);
    map key | key in keys ::
      CountWhere(logs, (log: Log) => Matches(fold, query.filters, log) && LogKey(query, log) == key)
  }

  // ---------------------------------------------------------------- the query over the rollup table

  predicate CellMatches(query: Query, cell: Cell)
    requires HasRange(query)
  {
    && query.filters.since.value <= cell.bucketStart
    && cell.bucketStart < query.filters.until.value
    && (query.filters.service.Some? ==> cell.service == query.filters.service.value)
    && (query.filters.level.Some? ==> cell.level == query.filters.level.value)
  }

  function CellKey(query: Query, cell: Cell): RowKey {
    RowKey(DateBin(query.bucket, cell.bucketStart), GroupValue(query.groupBy, cell.service, cell.level))
  }

  /** SELECT date_bin(...), group, SUM(count) FROM log_minute_aggregates WHERE ... GROUP BY 1, 2 */
  function RollupRows(query: Query, rows: seq<CellCount>): Rows
    requires HasRange(query)
  {
    var keys := set row | row in rows && CellMatches(query, row.cell) :: CellKey(query, row.cell);
    map key | key in keys ::
      SumWhere(rows, (cell: Cell) => CellMatches(query, cell) && CellKey(query, cell) == key)
  }

  /** `aggregate`: the rollup answers whenever the filters allow it. */
  function Aggregate(fold: Folding, query: Query, t: Tables): Rows
    requires HasRange(query)
  {
    if CanUseRollup(query.filters) then RollupRows(query, t.rollup) else RawRows(fold, query, t.logs)
  }

  // ---------------------------------------------------------------- what the rollup answer is

  function CeilMinute(t: int): int {
    (t + MICROS_PER_MINUTE - 1) / MICROS_PER_MINUTE * MICROS_PER_MINUTE
  }

  predicate IsMinute(t: int) {
    t % MICROS_PER_MINUTE == 0
  }

  /** The query with both bounds rounded up to the next whole minute. */
  function WholeMinutes(query: Query): Query
    requires HasRange(query)
  {
    query.(filters := query.filters.(since := Some(CeilMinute(query.filters.since.value)),
                                     until := Some(CeilMinute(query.filters.until.value))))
  }

  lemma CeilMinuteBounds(t: int)
    ensures t <= CeilMinute(t) < t + MICROS_PER_MINUTE && IsMinute(CeilMinute(t))
    ensures CeilMinute(t) == t <==> IsMinute(t)
  {
    var k := (t + MICROS_PER_MINUTE - 1) / MICROS_PER_MINUTE;
    assert CeilMinute(t) == MICROS_PER_MINUTE * k;
  }

  lemma BucketAgainstBound(t: int, bound: int)
    ensures bound <= MinuteBucketMs(t) * 1000 <==> CeilMinute(bound) <= t
  {
    BucketIsMinuteFloor(t);
    var m, k := t / MICROS_PER_MINUTE, (bound + MICROS_PER_MINUTE - 1) / MICROS_PER_MINUTE;
    assert MICROS_PER_MINUTE * m <= t < MICROS_PER_MINUTE * (m + 1);
    assert bound <= MICROS_PER_MINUTE * k < bound + MICROS_PER_MINUTE;
    assert bound <= MICROS_PER_MINUTE * m <==> k <= m;
    assert MICROS_PER_MINUTE * k <= t <==> k <= m;
  }

  lemma NestedFloor(t: int, n: nat)
    requires n >= 1
    ensures t / MICROS_PER_MINUTE / n == t / (n * MICROS_PER_MINUTE)
  {
    var m := t / MICROS_PER_MINUTE;
    var k := m / n;
    var stride := n * MICROS_PER_MINUTE;
    assert m == n * k + m % n && t == MICROS_PER_MINUTE * m + t % MICROS_PER_MINUTE;
    var rest := MICROS_PER_MINUTE * (m % n) + t % MICROS_PER_MINUTE;
    assert t == stride * k + rest;
    assert MICROS_PER_MINUTE * (m % n) <= MICROS_PER_MINUTE * (n - 1);
    assert 0 <= rest < stride;
    QuotientIs(t, stride, k, rest);
  }

  lemma QuotientIs(t: int, stride: int, k: int, rest: int)
    requires stride > 0 && t == stride * k + rest && 0 <= rest < stride
    ensures t / stride == k
  {
    var q := t / stride;
    assert stride * q <= t < stride * q + stride;
    ProductOrder(stride, q + 1, k);
    ProductOrder(stride, k + 1, q);
  }

  lemma ProductOrder(factor: int, a: int, b: int)
    requires factor > 0
    ensures a <= b ==> factor * a <= factor * b
  {
  }

  /** Binning the start of a log's minute is binning the log's own time, also before 1970. */
  lemma BinOfMinuteIsBin(bucket: Bucket, t: int)
    ensures DateBin(bucket, MinuteBucketMs(t) * 1000) == DateBin(bucket, t)
  {
    BucketIsMinuteFloor(t);
    var m, n := t / MICROS_PER_MINUTE, Minutes(bucket);
    NestedFloor(t, n);
    NestedFloor(m * MICROS_PER_MINUTE, n);
    assert m * MICROS_PER_MINUTE / MICROS_PER_MINUTE == m;
  }

  /** A stored log is in the rollup's range exactly when it is in the raw range rounded up. */
  lemma CellMatchesLog(fold: Folding, query: Query, log: Log)
    requires HasRange(query) && CanUseRollup(query.filters)
    ensures CellMatches(query, CellOf(log)) <==> Matches(fold, WholeMinutes(query).filters, log)
    ensures CellKey(query, CellOf(log)) == LogKey(WholeMinutes(query), log)
  {
    hide MinuteBucketMs, CeilMinute, DateBin;
    BucketAgainstBound(log.timestamp, query.filters.since.value);
    BucketAgainstBound(log.timestamp, query.filters.until.value);
    BinOfMinuteIsBin(query.bucket, log.timestamp);
  }

  /** A rollup table that counts some logs: over every set of cells its counts add up to the logs in them. */
  ghost predicate CountsLogs(rollup: seq<CellCount>, logs: seq<Log>) {
    && IsRollupTable(rollup)
    && forall p: Cell -> bool :: SumWhere(rollup, p) == CountWhere(logs, (log: Log) => p(CellOf(log)))
  }

  lemma KeyCountsAgree(fold: Folding, query: Query, counts: seq<CellCount>, logs: seq<Log>, key: RowKey)
    requires CountsLogs(counts, logs) && HasRange(query) && CanUseRollup(query.filters)
    ensures var raw, rollup := RawRows(fold, WholeMinutes(query), logs), RollupRows(query, counts);
            && (key in rollup <==> key in raw)
            && (key in rollup ==> rollup[key] == raw[key])
  {
    var whole := WholeMinutes(query);
    var p := (cell: Cell) => CellMatches(query, cell) && CellKey(query, cell) == key;
    var q := (log: Log) => Matches(fold, whole.filters, log) && LogKey(whole, log) == key;
    hide CellMatches, CellKey, Matches, LogKey, WholeMinutes, CellOf;
    assert SumWhere(counts, p) == CountWhere(logs, (log: Log) => p(CellOf(log)));
    forall log | log in logs ensures p(CellOf(log)) == q(log) {
      CellMatchesLog(fold, query, log);
    }
    CountAgrees(logs, (log: Log) => p(CellOf(log)), q);
    SumIsPositive(counts, p);
    CountIsPositive(logs, q);
  }

  /** The rollup query over a table that counts some logs is the raw query over them, rounded up. */
  lemma CountsAnswerWholeMinutes(fold: Folding, query: Query, counts: seq<CellCount>, logs: seq<Log>)
    requires CountsLogs(counts, logs) && HasRange(query) && CanUseRollup(query.filters)
    ensures RollupRows(query, counts) == RawRows(fold, WholeMinutes(query), logs)
  {
    hide RollupRows, RawRows, WholeMinutes, CountsLogs;
    forall key: RowKey
      ensures var raw, rollup := RawRows(fold, WholeMinutes(query), logs), RollupRows(query, counts);
              (key in rollup <==> key in raw) && (key in rollup ==> rollup[key] == raw[key])
    {
      KeyCountsAgree(fold, query, counts, logs, key);
    }
  }

  lemma HistoryCounts(calls: seq<InsertCall>)
    requires IsHistory(calls)
    ensures CountsLogs(AfterCalls(calls).rollup, AfterCalls(calls).logs)
  {
    hide AfterCalls;
    forall p: Cell -> bool
      ensures IsRollupTable(AfterCalls(calls).rollup)
      ensures SumWhere(AfterCalls(calls).rollup, p) == CountWhere(AfterCalls(calls).logs, (log: Log) => p(CellOf(log)))
    {
      RollupCountsStoredLogs(calls, p);
    }
    RollupCountsStoredLogs(calls, _ => true);
  }

  /**
   After any history of insert calls, for every bucket size, grouping and service or level filter,
   the rollup query returns exactly the rows of the raw query for `since` and `until` each rounded
   up to a whole minute.
   */
  lemma RollupAnswersWholeMinutes(fold: Folding, query: Query, calls: seq<InsertCall>)
    requires IsHistory(calls) && HasRange(query) && CanUseRollup(query.filters)
    ensures Aggregate(fold, query, AfterCalls(calls))
         == RawRows(fold, WholeMinutes(query), AfterCalls(calls).logs)
  {
    hide RollupRows, RawRows, WholeMinutes, CountsLogs, AfterCalls;
    HistoryCounts(calls);
    CountsAnswerWholeMinutes(fold, query, AfterCalls(calls).rollup, AfterCalls(calls).logs);
  }

  /** How writes were batched does not show: only which logs are stored matters. */
  lemma CoalescingDoesNotShow(fold: Folding, query: Query, calls: seq<InsertCall>, others: seq<InsertCall>)
    requires IsHistory(calls) && IsHistory(others) && HasRange(query)
    requires multiset(AfterCalls(calls).logs) == multiset(AfterCalls(others).logs)
    ensures Aggregate(fold, query, AfterCalls(calls)) == Aggregate(fold, query, AfterCalls(others))
  {
    hide AfterCalls, RollupRows, Matches, LogKey;
    var s, t := AfterCalls(calls), AfterCalls(others);
    var asked := if CanUseRollup(query.filters) then WholeMinutes(query) else query;
    if CanUseRollup(query.filters) {
      RollupAnswersWholeMinutes(fold, query, calls);
      RollupAnswersWholeMinutes(fold, query, others);
    }
    assert forall log :: log in s.logs <==> log in multiset(s.logs);
    assert forall log :: log in t.logs <==> log in multiset(t.logs);
    var a, b := RawRows(fold, asked, s.logs), RawRows(fold, asked, t.logs);
    forall key | key in a ensures a[key] == b[key] {
      CountIgnoresOrder(s.logs, t.logs,
                        (log: Log) => Matches(fold, asked.filters, log) && LogKey(asked, log) == key);
    }
  }

  // ---------------------------------------------------------------- when the rollup answer is the raw answer

  /** Something a caller can check: no instant lies in one of the two ranges and not in the other. */
  predicate RangesCoincide(query: Query)
    requires HasRange(query)
  {
    var since, until := query.filters.since.value, query.filters.until.value;
    until <= since || (IsMinute(since) && IsMinute(until))
  }

  lemma CoincidingRangesMatchAlike(fold: Folding, query: Query, log: Log)
    requires HasRange(query) && RangesCoincide(query)
    ensures Matches(fold, WholeMinutes(query).filters, log) <==> Matches(fold, query.filters, log)
  {
    hide Contains, HasAttribute, CeilMinute;
    var since, until := query.filters.since.value, query.filters.until.value;
    CeilMinuteBounds(since);
    CeilMinuteBounds(until);
    if until <= since {
      CeilIsMonotone(until, since);
    }
  }

  lemma CeilIsMonotone(a: int, b: int)
    requires a <= b
    ensures CeilMinute(a) <= CeilMinute(b)
  {
    var k, l := (a + MICROS_PER_MINUTE - 1) / MICROS_PER_MINUTE, (b + MICROS_PER_MINUTE - 1) / MICROS_PER_MINUTE;
    assert k <= l;
  }

  lemma RawRowsOfCoincidingRanges(fold: Folding, query: Query, logs: seq<Log>)
    requires HasRange(query) && RangesCoincide(query)
    ensures RawRows(fold, WholeMinutes(query), logs) == RawRows(fold, query, logs)
  {
    var whole := WholeMinutes(query);
    var a, b := RawRows(fold, whole, logs), RawRows(fold, query, logs);
    hide Matches, RangesCoincide, WholeMinutes, LogKey;
    forall log | log in logs
      ensures Matches(fold, whole.filters, log) == Matches(fold, query.filters, log)
      ensures LogKey(whole, log) == LogKey(query, log)
    {
      CoincidingRangesMatchAlike(fold, query, log);
      SameKeys(query, log);
    }
    assert a.Keys == b.Keys;
    forall key | key in a ensures a[key] == b[key] {
      CountAgrees(logs, (log: Log) => Matches(fold, whole.filters, log) && LogKey(whole, log) == key,
                  (log: Log) => Matches(fold, query.filters, log) && LogKey(query, log) == key);
    }
  }

  lemma SameKeys(query: Query, log: Log)
    requires HasRange(query)
    ensures LogKey(WholeMinutes(query), log) == LogKey(query, log)
  {
  }

  /** A filter no stored log can pass: services are never empty and never hold a NUL. */
  predicate ServiceCanMatch(query: Query) {
    query.filters.service.Some? ==> IsValidService(query.filters.service.value)
  }

  /** An instant in exactly one of the two ranges, when the bounds are not whole minutes. */
  function StrayInstant(query: Query): int
    requires HasRange(query)
  {
    var since, until := query.filters.since.value, query.filters.until.value;
    if IsMinute(since) then until else since
  }

  function StrayLog(query: Query): Log
    requires HasRange(query)
  {
    Log(StrayInstant(query), 0, if query.filters.level.Some? then query.filters.level.value else Info,
        if query.filters.service.Some? then query.filters.service.value else "a", "m", map[])
  }

  lemma StrayLogSeparates(fold: Folding, query: Query)
    requires HasRange(query) && CanUseRollup(query.filters) && !RangesCoincide(query)
    ensures Matches(fold, WholeMinutes(query).filters, StrayLog(query)) != Matches(fold, query.filters, StrayLog(query))
  {
    hide CeilMinute;
    var since, until := query.filters.since.value, query.filters.until.value;
    CeilMinuteBounds(since);
    CeilMinuteBounds(until);
  }

  lemma RowsOfOneLog(fold: Folding, query: Query, log: Log)
    ensures RawRows(fold, query, [log]) == map[] <==> !Matches(fold, query.filters, log)
  {
    hide Matches;
    assert log in [log];
    var rows := RawRows(fold, query, [log]);
    if Matches(fold, query.filters, log) {
      assert LogKey(query, log) in rows;
    } else {
      assert rows.Keys == {};
    }
  }

  /** One stored log on which an unaligned query gets a different answer from the rollup. */
  lemma UnalignedAnswerDiffers(fold: Folding, query: Query)
    requires HasRange(query) && CanUseRollup(query.filters) && ServiceCanMatch(query)
    requires !RangesCoincide(query) && IsTimeValue(StrayInstant(query) / 1000)
    ensures var history := [InsertCall([StrayLog(query)], [CellCount(CellOf(StrayLog(query)), 1)], true)];
            && IsHistory(history)
            && Aggregate(fold, query, AfterCalls(history)) != RawRows(fold, query, AfterCalls(history).logs)
  {
    var log := StrayLog(query);
    var call := InsertCall([log], [CellCount(CellOf(log), 1)], true);
    hide CellOf, Matches, RawRows, Aggregate, RangesCoincide, IsValidService;
    SingleLogGrouping(log);
    assert IsValidRecord(log) by { ValidStrayLog(query); }
    assert AfterCalls([call]).logs == [log] by { SingleCallStores(call, log); }
    RollupAnswersWholeMinutes(fold, query, [call]);
    StrayLogSeparates(fold, query);
    RowsOfOneLog(fold, query, log);
    RowsOfOneLog(fold, WholeMinutes(query), log);
  }

  lemma ValidStrayLog(query: Query)
    requires HasRange(query) && ServiceCanMatch(query) && IsTimeValue(StrayInstant(query) / 1000)
    ensures IsValidRecord(StrayLog(query))
  {
  }

  lemma SingleLogGrouping(log: Log)
    ensures IsGrouping([CellCount(CellOf(log), 1)], [log])
  {
    hide CellOf;
    var g := CellCount(CellOf(log), 1);
    assert g in [g];
    assert CountIn([log], CellOf(log)) == 1 by {
      assert CountWhere([log][1..], (r: Log) => CellOf(r) == CellOf(log)) == 0;
    }
  }

  lemma SingleCallStores(call: InsertCall, log: Log)
    requires call == InsertCall([log], [CellCount(CellOf(log), 1)], true)
    ensures AfterCalls([call]).logs == [log]
  {
    hide CellOf;
    assert [call][..0] == [];
    assert AfterCalls([]) == Tables([], []);
    assert [] + [log] == [log];
  }

  /**
   The answer of `aggregate` is the raw answer after every history if and only if the query's range is
   empty or both its bounds are whole minutes.
   */
  lemma RollupIsRawIffRangesCoincide(fold: Folding, query: Query)
    requires HasRange(query) && CanUseRollup(query.filters) && ServiceCanMatch(query)
    requires IsTimeValue(query.filters.since.value / 1000) && IsTimeValue(query.filters.until.value / 1000)
    ensures (forall calls :: IsHistory(calls) ==>
               Aggregate(fold, query, AfterCalls(calls)) == RawRows(fold, query, AfterCalls(calls).logs))
        <==> RangesCoincide(query)
  {
    hide Aggregate, RawRows, WholeMinutes, IsHistory, AfterCalls;
    if RangesCoincide(query) {
      forall calls | IsHistory(calls)
        ensures Aggregate(fold, query, AfterCalls(calls)) == RawRows(fold, query, AfterCalls(calls).logs)
      {
        RollupAnswersWholeMinutes(fold, query, calls);
        RawRowsOfCoincidingRanges(fold, query, AfterCalls(calls).logs);
      }
    } else {
      UnalignedAnswerDiffers(fold, query);
    }
  }

  // ---------------------------------------------------------------- the answer, told by the stored logs

  /** The bucket of a row, and the group it stands for, hold the log. */
  predicate FallsInto(query: Query, log: Log, key: RowKey) {
    var width := match query.bucket
      case OneMinute => 60_000_000
      case FiveMinutes => 300_000_000
      case OneHour => 3_600_000_000
      case OneDay => 86_400_000_000;
    && key.start % width == 0 && key.start <= log.timestamp < key.start + width
    && key.group ==
         match query.groupBy
         case None => None
         case Some(ByService) => Some(log.service)
         case Some(ByLevel) =>
           Some(match log.level case Debug => "debug" case Info => "info" case Warn => "warn" case Error => "error")
  }

  /**
   The test a log has to pass: the filters, and the range. Without search text and attributes it is the minute of
   the log that has to start in the range, with them it is the log itself.
   */
  predicate IsCounted(fold: Folding, query: Query, log: Log)
    requires HasRange(query)
  {
    && Matches(fold, query.filters.(since := None, until := None), log)
    && var t := if query.filters.q.None? && query.filters.attributes == []
                then log.timestamp - log.timestamp % 60_000_000 else log.timestamp;
       query.filters.since.value <= t < query.filters.until.value
  }

  lemma BinHoldsTime(bucket: Bucket, t: int, start: int)
    ensures var width := Minutes(bucket) * MICROS_PER_MINUTE;
            DateBin(bucket, t) == start <==> start % width == 0 && start <= t < start + width
  {
    var width := Minutes(bucket) * MICROS_PER_MINUTE;
    var k := t / width;
    assert t == width * k + t % width;
    if start % width == 0 && start <= t < start + width {
      var j := start / width;
      assert start == width * j;
      QuotientIs(t, width, j, t - start);
    }
    assert DateBin(bucket, t) % width == 0 by { MultipleOf(k, width); }
  }

  lemma MultipleOf(k: int, width: int)
    requires width > 0
    ensures k * width % width == 0
  {
    QuotientIs(k * width, width, k, 0);
    assert k * width == width * k;
  }

  lemma KeyHoldsLog(query: Query, log: Log, key: RowKey)
    ensures LogKey(query, log) == key <==> FallsInto(query, log, key)
  {
    BinHoldsTime(query.bucket, log.timestamp, key.start);
  }

  lemma TestInForce(fold: Folding, query: Query, log: Log)
    requires HasRange(query)
    ensures IsCounted(fold, query, log) <==>
            Matches(fold, (if CanUseRollup(query.filters) then WholeMinutes(query) else query).filters, log)
  {
    hide Contains, HasAttribute, CeilMinute;
    BucketIsMinuteFloor(log.timestamp);
    BucketAgainstBound(log.timestamp, query.filters.since.value);
    BucketAgainstBound(log.timestamp, query.filters.until.value);
    assert log.timestamp - log.timestamp % 60_000_000 == log.timestamp / 60_000_000 * 60_000_000;
  }

  /** The rows of an answer: one for each bucket and group with a log that passes the test, with their number. */
  ghost predicate AreRowsOf(rows: Rows, fold: Folding, query: Query, logs: seq<Log>)
    requires HasRange(query)
  {
    && (forall key :: key in rows <==>
          exists log :: log in logs && IsCounted(fold, query, log) && FallsInto(query, log, key))
    && forall key :: key in rows ==>
          rows[key] == CountWhere(logs, (log: Log) => IsCounted(fold, query, log) && FallsInto(query, log, key))
  }

  lemma RawRowsAreRows(fold: Folding, query: Query, asked: Query, logs: seq<Log>)
    requires HasRange(query) && asked == if CanUseRollup(query.filters) then WholeMinutes(query) else query
    ensures AreRowsOf(RawRows(fold, asked, logs), fold, query, logs)
  {
    var rows := RawRows(fold, asked, logs);
    hide Matches, LogKey, IsCounted, FallsInto, WholeMinutes;
    forall log ensures IsCounted(fold, query, log) == Matches(fold, asked.filters, log) {
      TestInForce(fold, query, log);
    }
    forall log, key ensures FallsInto(query, log, key) <==> LogKey(asked, log) == key {
      KeyHoldsLog(query, log, key);
      if CanUseRollup(query.filters) {
        SameKeys(query, log);
      }
    }
    forall key | key in rows
      ensures rows[key] == CountWhere(logs, (log: Log) => IsCounted(fold, query, log) && FallsInto(query, log, key))
    {
      CountAgrees(logs, (log: Log) => Matches(fold, asked.filters, log) && LogKey(asked, log) == key,
                  (log: Log) => IsCounted(fold, query, log) && FallsInto(query, log, key));
    }
  }

  lemma AnswerOfTables(fold: Folding, query: Query, t: Tables, counted: seq<Log>)
    requires HasRange(query)
    requires if CanUseRollup(query.filters) then CountsLogs(t.rollup, counted) else counted == t.logs
    ensures AreRowsOf(Aggregate(fold, query, t), fold, query, counted)
  {
    hide CountsLogs, RollupRows, RawRows, AreRowsOf;
    if CanUseRollup(query.filters) {
      CountsAnswerWholeMinutes(fold, query, t.rollup, counted);
    }
    RawRowsAreRows(fold, query, if CanUseRollup(query.filters) then WholeMinutes(query) else query, counted);
  }

  /**
   After any insert history every query is answered with exactly the buckets and groups that hold a stored log
   passing its test, each with the number of such logs.
   */
  lemma AnswerIsExact(fold: Folding, query: Query, calls: seq<InsertCall>)
    requires IsHistory(calls) && HasRange(query)
    ensures AreRowsOf(Aggregate(fold, query, AfterCalls(calls)), fold, query, AfterCalls(calls).logs)
  {
    hide AfterCalls, CountsLogs, AreRowsOf, Aggregate, IsHistory;
    HistoryCounts(calls);
    AnswerOfTables(fold, query, AfterCalls(calls), AfterCalls(calls).logs);
  }

  // ---------------------------------------------------------------- reading the counts

  const MAX_SAFE_INTEGER := 9_007_199_254_740_991

  /** `mapCount`: a count arrives as text; only positive safe integers without leading zero pass. */
  function MapCount(text: string): Option<nat> {
    if |text| > 16 || text == "" || !AllDigits(text) || text[0] == '0' then None
    else if NumberOf(text) > MAX_SAFE_INTEGER then None
    else Some(NumberOf(text))
  }

  lemma {:induction false} ShowHasNoLeadingZero(n: nat)
    ensures Show(n)[0] == '0' <==> n == 0
  {
    if n >= 10 {
      ShowHasNoLeadingZero(n / 10);
    }
  }

  lemma {:induction false} ShowLength(n: nat, width: nat)
    requires width >= 1
    ensures |Show(n)| <= width <==> n < Pow10(width)
  {
    if n >= 10 {
      if width == 1 {
        assert |Show(n)| == |Show(n / 10)| + 1;
      } else {
        ShowLength(n / 10, width - 1);
      }
    } else {
      assert Pow10(width) == 10 * Pow10(width - 1);
    }
  }

  /** Every count the database can send from a grouped row is read exactly, up to 2^53 - 1. */
  lemma MapCountIsExact(n: nat)
    ensures MapCount(Show(n)) == if 1 <= n <= 9_007_199_254_740_991 then Some(n) else None
  {
    ShowThenNumber(n);
    ShowHasNoLeadingZero(n);
    ShowLength(n, 16);
    assert Pow10(4) == 10_000;
    assert Pow10(8) == 100_000_000;
    assert Pow10(12) == 1_000_000_000_000;
    assert Pow10(16) == 10_000_000_000_000_000;
  }
}
