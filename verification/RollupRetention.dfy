/**
 The rollup table under retention. Dropping an expired partition or deleting expired default rows
 (migrations/0003_add_retention_routines.sql) takes rows out of the log table, and nothing takes their
 counts out of log_minute_aggregates: by how much the rollup's answer is too high, and when it is right.
 */
module RollupRetention {
  import opened LogEntry
  import opened Counting
  import opened MinuteRollup
  import opened LogAggregation
  import opened JsDate

  /** An insert call, or a retention routine that removes some of the stored rows. */
  datatype Event = Inserts(call: InsertCall) | Removes(expired: Log -> bool)

  /** The two tables, and the rows that were removed from the first of them. */
  datatype State = State(tables: Tables, removed: seq<Log>)

  ghost predicate IsLife(events: seq<Event>) {
    forall e :: e in events && e.Inserts? ==> IsInsertCall(e.call)
  }

  /** Both routines only touch rows before their cutoff. */
  ghost predicate RemovesBefore(events: seq<Event>, cutoff: int) {
    forall e, log: Log :: e in events && e.Removes? && e.expired(log) ==> log.timestamp < cutoff
  }

  function Rows(logs: seq<Log>, p: Log -> bool): seq<Log> {
    if logs == [] then [] else (if p(logs[0]) then [logs[0]] else []) + Rows(logs[1..], p)
  }

  ghost function Next(s: State, e: Event): State {
    match e
    case Inserts(call) => s.(tables := AfterCall(s.tables, call))
    case Removes(expired) =>
      State(s.tables.(logs := Rows(s.tables.logs, log => !expired(log))),
            s.removed + Rows(s.tables.logs, expired))
  }

  ghost function After(events: seq<Event>): State {
    if events == [] then State(Tables([], []), [])
    else Next(After(events[..|events| - 1]), events[|events| - 1])
  }

  // ---------------------------------------------------------------- what the rollup counts

  lemma {:induction false} RowsSplitCounts(logs: seq<Log>, expired: Log -> bool, q: Log -> bool)
    ensures CountWhere(Rows(logs, log => !expired(log)), q) + CountWhere(Rows(logs, expired), q)
         == CountWhere(logs, q)
  {
    if logs != [] {
      RowsSplitCounts(logs[1..], expired, q);
      var kept, gone := Rows(logs[1..], log => !expired(log)), Rows(logs[1..], expired);
      CountOfConcat(if expired(logs[0]) then [] else [logs[0]], kept, q);
      CountOfConcat(if expired(logs[0]) then [logs[0]] else [], gone, q);
      assert CountWhere([logs[0]], q) == if q(logs[0]) then 1 else 0;
    }
  }

  lemma InsertKeepsSum(t: Tables, call: InsertCall, removed: seq<Log>, p: Cell -> bool)
    requires IsInsertCall(call)
    requires SumWhere(t.rollup, p) == CountWhere(t.logs + removed, (log: Log) => p(CellOf(log)))
    ensures SumWhere(AfterCall(t, call).rollup, p)
         == CountWhere(AfterCall(t, call).logs + removed, (log: Log) => p(CellOf(log)))
  {
    hide CellOf, HasPrimaryKey, SumWhere, CountWhere, UpsertAll;
    var q := (log: Log) => p(CellOf(log));
    UpsertAllAddsToSum(t.rollup, call.groups, p);
    GroupsSumToRecords(call.groups, call.records, p);
    CountOfConcat(t.logs, removed, q);
    CountOfConcat(t.logs + call.records, removed, q);
    CountOfConcat(t.logs, call.records, q);
  }

  lemma RemovalKeepsSum(s: State, expired: Log -> bool, p: Cell -> bool)
    requires SumWhere(s.tables.rollup, p) == CountWhere(s.tables.logs + s.removed, (log: Log) => p(CellOf(log)))
    ensures var t := Next(s, Removes(expired));
            SumWhere(t.tables.rollup, p) == CountWhere(t.tables.logs + t.removed, (log: Log) => p(CellOf(log)))
  {
    hide CellOf, SumWhere, CountWhere, Rows;
    var q := (log: Log) => p(CellOf(log));
    var kept, gone := Rows(s.tables.logs, log => !expired(log)), Rows(s.tables.logs, expired);
    RowsSplitCounts(s.tables.logs, expired, q);
    CountOfConcat(s.tables.logs, s.removed, q);
    CountOfConcat(kept, s.removed + gone, q);
    CountOfConcat(s.removed, gone, q);
  }

  lemma CallKeepsTable(t: Tables, call: InsertCall)
    requires IsRollupTable(t.rollup) && IsInsertCall(call)
    ensures IsRollupTable(AfterCall(t, call).rollup)
  {
    UpsertAllKeepsTable(t.rollup, call.groups);
  }

  lemma NextKeepsCounts(s: State, e: Event)
    requires CountsLogs(s.tables.rollup, s.tables.logs + s.removed) && (e.Inserts? ==> IsInsertCall(e.call))
    ensures CountsLogs(Next(s, e).tables.rollup, Next(s, e).tables.logs + Next(s, e).removed)
  {
    hide CellOf, SumWhere, CountWhere, IsRollupTable, AfterCall, IsInsertCall;
    var t := Next(s, e);
    forall p: Cell -> bool
      ensures SumWhere(t.tables.rollup, p) == CountWhere(t.tables.logs + t.removed, (log: Log) => p(CellOf(log)))
    {
      match e
      case Inserts(call) => InsertKeepsSum(s.tables, call, s.removed, p);
      case Removes(expired) => RemovalKeepsSum(s, expired, p);
    }
    if e.Inserts? {
      CallKeepsTable(s.tables, e.call);
    }
  }

  /** The rollup still counts every row that was ever stored, removed or not. */
  lemma {:induction false} RollupCountsRemovedRows(events: seq<Event>)
    requires IsLife(events)
    ensures CountsLogs(After(events).tables.rollup, After(events).tables.logs + After(events).removed)
  {
    hide Next;
    if events == [] {
      NothingCounted();
    } else {
      assert events[|events| - 1] in events;
      RollupCountsRemovedRows(events[..|events| - 1]);
      NextKeepsCounts(After(events[..|events| - 1]), events[|events| - 1]);
    }
  }

  lemma NothingCounted()
    ensures After([]) == State(Tables([], []), []) && CountsLogs([], [])
  {
  }

  // ---------------------------------------------------------------- the answer

  /** The count an answer shows for a row; a row it does not hold shows nothing. */
  function CountAt(rows: map<RowKey, nat>, key: RowKey): nat {
    if key in rows then rows[key] else 0
  }

  lemma RawCountAt(fold: Folding, query: Query, logs: seq<Log>, key: RowKey)
    ensures CountAt(RawRows(fold, query, logs), key)
         == CountWhere(logs, (log: Log) => Matches(fold, query.filters, log) && LogKey(query, log) == key)
    ensures key in RawRows(fold, query, logs) ==> CountAt(RawRows(fold, query, logs), key) > 0
  {
    hide Matches, LogKey;
    CountIsPositive(logs, (log: Log) => Matches(fold, query.filters, log) && LogKey(query, log) == key);
  }

  lemma RawCountsAdd(fold: Folding, query: Query, logs: seq<Log>, more: seq<Log>, key: RowKey)
    ensures CountAt(RawRows(fold, query, logs + more), key)
         == CountAt(RawRows(fold, query, logs), key) + CountAt(RawRows(fold, query, more), key)
  {
    hide Matches, LogKey, RawRows, CountAt;
    RawCountAt(fold, query, logs, key);
    RawCountAt(fold, query, more, key);
    RawCountAt(fold, query, logs + more, key);
    CountOfConcat(logs, more, (log: Log) => Matches(fold, query.filters, log) && LogKey(query, log) == key);
  }

  lemma SameCountsSameRows(fold: Folding, query: Query, logs: seq<Log>, others: seq<Log>)
    ensures RawRows(fold, query, logs) == RawRows(fold, query, others)
       <==> forall key :: CountAt(RawRows(fold, query, logs), key) == CountAt(RawRows(fold, query, others), key)
  {
    hide RawRows;
    var a, b := RawRows(fold, query, logs), RawRows(fold, query, others);
    if forall key :: CountAt(a, key) == CountAt(b, key) {
      forall key ensures key in a <==> key in b {
        RawCountAt(fold, query, logs, key);
        RawCountAt(fold, query, others, key);
        assert CountAt(a, key) == CountAt(b, key);
      }
      forall key | key in a ensures a[key] == b[key] {
        assert CountAt(a, key) == CountAt(b, key);
      }
    }
  }

  lemma MoreRowsShowIff(fold: Folding, query: Query, logs: seq<Log>, more: seq<Log>)
    ensures RawRows(fold, query, logs + more) == RawRows(fold, query, logs)
       <==> forall log :: log in more ==> !Matches(fold, query.filters, log)
  {
    hide RawRows, Matches, LogKey, CountAt;
    SameCountsSameRows(fold, query, logs + more, logs);
    forall key ensures CountAt(RawRows(fold, query, logs + more), key)
                    == CountAt(RawRows(fold, query, logs), key) + CountAt(RawRows(fold, query, more), key)
    {
      RawCountsAdd(fold, query, logs, more, key);
    }
    forall log | log in more && Matches(fold, query.filters, log)
      ensures CountAt(RawRows(fold, query, more), LogKey(query, log)) > 0
    {
      ShownCount(fold, query, more, log);
    }
    forall key | forall log :: log in more ==> !Matches(fold, query.filters, log)
      ensures CountAt(RawRows(fold, query, more), key) == 0
    {
      UnshownCount(fold, query, more, key);
    }
  }

  lemma ShownCount(fold: Folding, query: Query, logs: seq<Log>, log: Log)
    requires log in logs && Matches(fold, query.filters, log)
    ensures CountAt(RawRows(fold, query, logs), LogKey(query, log)) > 0
  {
    hide Matches, LogKey, RawRows, CountAt;
    RawCountAt(fold, query, logs, LogKey(query, log));
    CountIsPositive(logs, (x: Log) => Matches(fold, query.filters, x) && LogKey(query, x) == LogKey(query, log));
  }

  lemma UnshownCount(fold: Folding, query: Query, logs: seq<Log>, key: RowKey)
    requires forall log :: log in logs ==> !Matches(fold, query.filters, log)
    ensures CountAt(RawRows(fold, query, logs), key) == 0
  {
    hide Matches, LogKey, RawRows, CountAt;
    RawCountAt(fold, query, logs, key);
    CountIsPositive(logs, (x: Log) => Matches(fold, query.filters, x) && LogKey(query, x) == key);
  }

  lemma AnswerHoldsRemovedRows(fold: Folding, query: Query, events: seq<Event>)
    requires IsLife(events) && HasRange(query) && CanUseRollup(query.filters)
    ensures Aggregate(fold, query, After(events).tables)
         == RawRows(fold, WholeMinutes(query), After(events).tables.logs + After(events).removed)
  {
    hide RollupRows, RawRows, WholeMinutes, CountsLogs, After;
    RollupCountsRemovedRows(events);
    CountsAnswerWholeMinutes(fold, query, After(events).tables.rollup,
      After(events).tables.logs + After(events).removed);
  }

  /**
   After any life of the tables, every count of the rollup's answer is the true count plus the number
   of removed rows that fall into it.
   */
  lemma AnswerOvercounts(fold: Folding, query: Query, events: seq<Event>, key: RowKey)
    requires IsLife(events) && HasRange(query) && CanUseRollup(query.filters)
    ensures var s, whole := After(events), WholeMinutes(query);
            var p := (log: Log) => Matches(fold, whole.filters, log) && LogKey(whole, log) == key;
            CountAt(Aggregate(fold, query, s.tables), key)
            == CountAt(RawRows(fold, whole, s.tables.logs), key) + CountWhere(s.removed, p)
  {
    hide Aggregate, RawRows, WholeMinutes, After, Matches, LogKey, CountAt, CountWhere;
    var s, whole := After(events), WholeMinutes(query);
    AnswerHoldsRemovedRows(fold, query, events);
    RawCountsAdd(fold, whole, s.tables.logs, s.removed, key);
    RawCountAt(fold, whole, s.removed, key);
  }

  /** The answer is the one for the rows that are left exactly when it could not show a removed row. */
  lemma AnswerIsRightIff(fold: Folding, query: Query, events: seq<Event>)
    requires IsLife(events) && HasRange(query) && CanUseRollup(query.filters)
    ensures var s, whole := After(events), WholeMinutes(query);
            Aggregate(fold, query, s.tables) == RawRows(fold, whole, s.tables.logs) <==>
            forall log :: log in s.removed ==> !Matches(fold, whole.filters, log)
  {
    hide Aggregate, RawRows, WholeMinutes, After, Matches;
    var s, whole := After(events), WholeMinutes(query);
    AnswerHoldsRemovedRows(fold, query, events);
    MoreRowsShowIff(fold, whole, s.tables.logs, s.removed);
  }

  /**
   After any life of the tables every query is answered as from exactly these logs: the ones that are left where
   search text or attributes are asked for, and the removed ones as well where they are not.
   */
  lemma AnswerIsFromLogs(fold: Folding, query: Query, events: seq<Event>)
    requires IsLife(events) && HasRange(query)
    ensures var s := After(events);
            AreRowsOf(Aggregate(fold, query, s.tables), fold, query,
              s.tables.logs + if query.filters.q.None? && query.filters.attributes == [] then s.removed else [])
  {
    hide CountsLogs, After, AreRowsOf, Aggregate;
    RollupCountsRemovedRows(events);
    var s := After(events);
    assert s.tables.logs + [] == s.tables.logs;
    AnswerOfTables(fold, query, s.tables,
                   if CanUseRollup(query.filters) then s.tables.logs + s.removed else s.tables.logs);
  }

  // ---------------------------------------------------------------- which queries are safe from a cutoff

  lemma {:induction false} RowsAreSelected(logs: seq<Log>, p: Log -> bool)
    ensures forall log :: log in Rows(logs, p) ==> log in logs && p(log)
  {
    if logs != [] {
      RowsAreSelected(logs[1..], p);
    }
  }

  lemma {:induction false} RemovedAreBefore(events: seq<Event>, cutoff: int)
    requires RemovesBefore(events, cutoff)
    ensures forall log :: log in After(events).removed ==> log.timestamp < cutoff
  {
    hide AfterCall, Rows;
    if events != [] {
      var before, e := events[..|events| - 1], events[|events| - 1];
      assert e in events;
      RemovedAreBefore(before, cutoff);
      if e.Removes? {
        RowsAreSelected(After(before).tables.logs, e.expired);
      }
    }
  }

  /** Something a caller can check: the range holds no instant before the cutoff. */
  predicate StartsAtCutoff(query: Query, cutoff: int)
    requires HasRange(query)
  {
    cutoff <= query.filters.since.value || query.filters.until.value <= query.filters.since.value
  }

  lemma RangeBehindCutoff(fold: Folding, query: Query, cutoff: int, log: Log)
    requires HasRange(query) && RangesCoincide(query) && StartsAtCutoff(query, cutoff) && log.timestamp < cutoff
    ensures !Matches(fold, WholeMinutes(query).filters, log)
  {
    hide CeilMinute, Contains, HasAttribute;
    CoincidingRangesMatchAlike(fold, query, log);
  }

  lemma SafeAnswer(fold: Folding, query: Query, cutoff: int, events: seq<Event>)
    requires IsLife(events) && RemovesBefore(events, cutoff) && HasRange(query) && CanUseRollup(query.filters)
    requires RangesCoincide(query) && StartsAtCutoff(query, cutoff)
    ensures Aggregate(fold, query, After(events).tables) == RawRows(fold, query, After(events).tables.logs)
  {
    hide Aggregate, RawRows, WholeMinutes, After, Matches, RangesCoincide, StartsAtCutoff, IsLife, RemovesBefore;
    var s := After(events);
    RemovedAreBefore(events, cutoff);
    forall log | log in s.removed ensures !Matches(fold, WholeMinutes(query).filters, log) {
      RangeBehindCutoff(fold, query, cutoff, log);
    }
    AnswerIsRightIff(fold, query, events);
    RawRowsOfCoincidingRanges(fold, query, s.tables.logs);
  }

  /** The log at the start of the range. */
  function FirstLog(query: Query): Log
    requires HasRange(query)
  {
    StrayLog(query).(timestamp := query.filters.since.value)
  }

  function CallOf(log: Log): InsertCall {
    InsertCall([log], [CellCount(CellOf(log), 1)], true)
  }

  lemma StoredThenRemoved(log: Log)
    requires IsValidRecord(log)
    ensures var events := [Inserts(CallOf(log)), Removes((x: Log) => x == log)];
            && IsLife(events) && RemovesBefore(events, log.timestamp + 1)
            && After(events).tables.logs == [] && After(events).removed == [log]
  {
    hide CellOf, IsValidRecord, UpsertAll, IsGrouping;
    SingleLogGrouping(log);
    var insert, remove := Inserts(CallOf(log)), Removes((x: Log) => x == log);
    var stored := After([insert]);
    NothingCounted();
    assert [insert][..0] == [];
    assert stored == Next(After([]), insert);
    assert [] + [log] == [log];
    assert HasPrimaryKey([log]) && DistinctCells(CallOf(log).groups);
    assert stored.tables.logs == [log] && stored.removed == [];
    OnlyRow(log, remove.expired);
    assert [insert, remove][..1] == [insert];
    assert After([insert, remove]) == Next(stored, remove);
  }

  lemma OnlyRow(log: Log, p: Log -> bool)
    ensures Rows([log], p) == if p(log) then [log] else []
    ensures Rows([log], x => !p(x)) == if p(log) then [] else [log]
  {
    assert [log][1..] == [];
  }

  lemma FirstLogIsShown(fold: Folding, query: Query)
    requires HasRange(query) && CanUseRollup(query.filters) && ServiceCanMatch(query)
    requires RangesCoincide(query) && query.filters.since.value < query.filters.until.value
    requires IsTimeValue(query.filters.since.value / 1000)
    ensures IsValidRecord(FirstLog(query)) && Matches(fold, WholeMinutes(query).filters, FirstLog(query))
  {
    hide CeilMinute, Contains, HasAttribute;
    CoincidingRangesMatchAlike(fold, query, FirstLog(query));
  }

  lemma ExposedAnswerDiffers(fold: Folding, query: Query)
    requires HasRange(query) && CanUseRollup(query.filters) && ServiceCanMatch(query)
    requires RangesCoincide(query) && query.filters.since.value < query.filters.until.value
    requires IsTimeValue(query.filters.since.value / 1000)
    ensures var log := FirstLog(query);
            var events := [Inserts(CallOf(log)), Removes((x: Log) => x == log)];
            Aggregate(fold, query, After(events).tables) != RawRows(fold, query, After(events).tables.logs)
  {
    hide Aggregate, RawRows, WholeMinutes, After, Matches, RangesCoincide, FirstLog, IsLife, CallOf, IsValidRecord;
    var log := FirstLog(query);
    var events := [Inserts(CallOf(log)), Removes((x: Log) => x == log)];
    FirstLogIsShown(fold, query);
    StoredThenRemoved(log);
    AnswerIsRightIff(fold, query, events);
    assert log in After(events).removed;
    RawRowsOfCoincidingRanges(fold, query, After(events).tables.logs);
  }

  lemma InsertsOnly(call: InsertCall)
    requires IsHistory([call])
    ensures IsLife([Inserts(call)]) && forall cutoff :: RemovesBefore([Inserts(call)], cutoff)
    ensures After([Inserts(call)]).tables == AfterCalls([call])
  {
    hide AfterCall, IsInsertCall;
    assert call in [call];
    assert [call][..0] == [];
    assert [Inserts(call)][..0] == [];
  }

  /**
   Whatever retention removed before the cutoff, the answer of `aggregate` is the raw answer over the
   rows that are left if and only if the range is empty, or starts at or behind the cutoff with whole
   minutes as its bounds.
   */
  lemma AnswerIsRawIffRangeIsRetained(fold: Folding, query: Query, cutoff: int)
    requires HasRange(query) && CanUseRollup(query.filters) && ServiceCanMatch(query)
    requires IsTimeValue(query.filters.since.value / 1000) && IsTimeValue(query.filters.until.value / 1000)
    ensures (forall events :: IsLife(events) && RemovesBefore(events, cutoff) ==>
               Aggregate(fold, query, After(events).tables) == RawRows(fold, query, After(events).tables.logs))
        <==> RangesCoincide(query) && StartsAtCutoff(query, cutoff)
  {
    hide Aggregate, RawRows, IsLife, RemovesBefore, After, RangesCoincide, IsHistory, AfterCalls;
    if !RangesCoincide(query) {
      var call := InsertCall([StrayLog(query)], [CellCount(CellOf(StrayLog(query)), 1)], true);
      UnalignedAnswerDiffers(fold, query);
      InsertsOnly(call);
    } else if StartsAtCutoff(query, cutoff) {
      forall events | IsLife(events) && RemovesBefore(events, cutoff)
        ensures Aggregate(fold, query, After(events).tables) == RawRows(fold, query, After(events).tables.logs)
      {
        SafeAnswer(fold, query, cutoff, events);
      }
    } else {
      var log := FirstLog(query);
      ExposedAnswerDiffers(fold, query);
      FirstLogIsShown(fold, query);
      StoredThenRemoved(log);
      EarlierCutoff([Inserts(CallOf(log)), Removes((x: Log) => x == log)], log.timestamp + 1, cutoff);
    }
  }

  lemma EarlierCutoff(events: seq<Event>, cutoff: int, later: int)
    requires RemovesBefore(events, cutoff) && cutoff <= later
    ensures RemovesBefore(events, later)
  {
  }
}
