/**
 src/modules/ingestion/ingestion-repository.ts: the insert statement that stores a batch of logs and
 adds its per-minute counts to the rollup table, and what the rollup table then holds.
 */
module MinuteRollup {
  import opened Prelude
  import opened Text
  import opened LogEntry
  import opened Counting
  import opened JsDate
  import opened Sorting

  const MICROS_PER_MINUTE := 60_000_000

  datatype Cell = Cell(bucketStart: int, service: string, level: Level)

  /** One row of log_minute_aggregates; also one group of a batch. Bucket starts are microseconds. */
  datatype CellCount = CellCount(cell: Cell, count: nat)

  // ---------------------------------------------------------------- grouping a batch by minute

  /** What entry validation guarantees about a record. */
  predicate IsValidService(service: string) {
    service != "" && '\0' !in service
  }

  predicate IsValidRecord(r: Log) {
    IsTimeValue(r.timestamp / 1000) && IsValidService(r.service)
  }

  /** `Date.parse` reads whole milliseconds; the bucket is the minute they fall in. */
  function MinuteBucketMs(timestamp: int): int {
    timestamp / 1000 / MS_PER_MINUTE * MS_PER_MINUTE
  }

  function CellOf(r: Log): Cell {
    Cell(MinuteBucketMs(r.timestamp) * 1000, r.service, r.level)
  }

  /** The minute bucket is the whole minute at or before the timestamp, also before 1970. */
  lemma BucketIsMinuteFloor(timestamp: int)
    ensures MinuteBucketMs(timestamp) * 1000 == timestamp / MICROS_PER_MINUTE * MICROS_PER_MINUTE
  {
    assert timestamp / 1000 / MS_PER_MINUTE == timestamp / MICROS_PER_MINUTE;
  }

  lemma BucketIsTimeValue(r: Log)
    requires IsValidRecord(r)
    ensures IsTimeValue(MinuteBucketMs(r.timestamp))
  {
  }

  function KeyText(bucketMs: int, service: string, level: Level): string {
    ToIso(bucketMs) + "\0" + service + "\0" + LevelText(level)
  }

  function KeyOf(r: Log): string {
    KeyText(MinuteBucketMs(r.timestamp), r.service, r.level)
  }

  lemma IsoHasNoNul(t: int)
    requires IsTimeValue(t)
    ensures '\0' !in ToIso(t)
  {
    hide FieldsOf;
    FieldsThenTime(t);
    YearBound(t);
  }

  /** The NUL-joined text identifies minute, service and level: no two cells share a key. */
  lemma KeyIsInjective(r: Log, s: Log)
    requires IsValidRecord(r) && IsValidRecord(s)
    ensures KeyOf(r) == KeyOf(s) <==> CellOf(r) == CellOf(s)
  {
    hide ToIso, LevelText, MinuteBucketMs;
    BucketIsTimeValue(r);
    BucketIsTimeValue(s);
    var m, n := MinuteBucketMs(r.timestamp), MinuteBucketMs(s.timestamp);
    if KeyOf(r) == KeyOf(s) {
      IsoHasNoNul(m);
      IsoHasNoNul(n);
      assert KeyOf(r) == ToIso(m) + "\0" + (r.service + "\0" + LevelText(r.level));
      assert KeyOf(s) == ToIso(n) + "\0" + (s.service + "\0" + LevelText(s.level));
      SplitAtFirst('\0', ToIso(m), r.service + "\0" + LevelText(r.level), ToIso(n),
        s.service + "\0" + LevelText(s.level));
      SplitAtFirst('\0', r.service, LevelText(r.level), s.service, LevelText(s.level));
      ToIsoInjective(m, n);
      LevelTextIsExact(r.level, s.level);
    }
  }

  function CountIn(records: seq<Log>, cell: Cell): nat {
    CountWhere(records, (r: Log) => CellOf(r) == cell)
  }

  ghost predicate DistinctCells(groups: seq<CellCount>) {
    forall i, j :: 0 <= i < j < |groups| ==> groups[i].cell != groups[j].cell
  }

  /** The groups of a batch: each cell that occurs, once, with the number of its records. */
  ghost predicate IsGrouping(groups: seq<CellCount>, records: seq<Log>) {
    && DistinctCells(groups)
    && (forall g :: g in groups ==> g.count > 0 && g.count == CountIn(records, g.cell))
    && forall r :: r in records ==> exists g :: g in groups && g.cell == CellOf(r)
  }

  /** The Map of the loop: every key seen so far, with the place of its group. */
  ghost predicate IsIndex(position: map<string, nat>, groups: seq<CellCount>, seen: seq<Log>) {
    && (forall r :: r in seen ==>
          && KeyOf(r) in position
          && position[KeyOf(r)] < |groups|
          && groups[position[KeyOf(r)]].cell == CellOf(r))
    && forall key :: key in position ==> exists r :: r in seen && KeyOf(r) == key
  }

  lemma IndexFindsCell(position: map<string, nat>, groups: seq<CellCount>, seen: seq<Log>, r: Log)
    requires IsIndex(position, groups, seen)
    requires IsValidRecord(r) && forall x :: x in seen ==> IsValidRecord(x)
    ensures KeyOf(r) in position ==>
              position[KeyOf(r)] < |groups| && groups[position[KeyOf(r)]].cell == CellOf(r)
    ensures KeyOf(r) !in position ==> forall x :: x in seen ==> CellOf(x) != CellOf(r)
  {
    hide KeyOf, CellOf, IsValidRecord;
    forall x | x in seen ensures KeyOf(x) == KeyOf(r) <==> CellOf(x) == CellOf(r) {
      KeyIsInjective(x, r);
    }
  }

  lemma IndexGrows(position: map<string, nat>, groups: seq<CellCount>, seen: seq<Log>, r: Log, count: nat)
    requires IsIndex(position, groups, seen) && KeyOf(r) in position
    requires position[KeyOf(r)] < |groups| && groups[position[KeyOf(r)]].cell == CellOf(r)
    ensures IsIndex(position, groups[position[KeyOf(r)] := CellCount(CellOf(r), count)], seen + [r])
  {
    hide KeyOf, CellOf;
    assert r in seen + [r];
    assert forall x :: x in seen ==> x in seen + [r];
  }

  lemma IndexExtends(position: map<string, nat>, groups: seq<CellCount>, seen: seq<Log>, r: Log)
    requires IsIndex(position, groups, seen) && KeyOf(r) !in position
    ensures IsIndex(position[KeyOf(r) := |groups|], groups + [CellCount(CellOf(r), 1)], seen + [r])
  {
    hide KeyOf, CellOf;
    assert r in seen + [r];
    assert forall x :: x in seen ==> x in seen + [r];
  }

  /** One pass over the records with a Map keyed by the joined text, which keeps insertion order. */
  method CountRecords(records: seq<Log>) returns (groups: seq<CellCount>)
    requires forall r :: r in records ==> IsValidRecord(r)
    ensures IsGrouping(groups, records)
  {
    hide KeyOf, CellOf, IsGrouping, IsIndex, IsValidRecord;
    var position: map<string, nat> := map[];
    groups := [];
    NothingGrouped();
    for n := 0 to |records|
      invariant IsGrouping(groups, records[..n])
      invariant IsIndex(position, groups, records[..n])
    {
      var r := records[n];
      var key := KeyOf(r);
      assert records[..n + 1] == records[..n] + [r];
      IndexFindsCell(position, groups, records[..n], r);
      if key in position {
        var at := position[key];
        GroupingGrows(groups, records[..n], r, at);
        IndexGrows(position, groups, records[..n], r, groups[at].count + 1);
        groups := groups[at := CellCount(groups[at].cell, groups[at].count + 1)];
      } else {
        GroupingExtends(groups, records[..n], r);
        IndexExtends(position, groups, records[..n], r);
        position := position[key := |groups|];
        groups := groups + [CellCount(CellOf(r), 1)];
      }
    }
    assert records[..|records|] == records;
  }

  /** The sort's comparator, over the locale's comparison of texts. */
  function CompareTwoGroups(collate: Comparator<string>, left: CellCount, right: CellCount): int {
    var byStart := collate(ToIso(left.cell.bucketStart / 1000), ToIso(right.cell.bucketStart / 1000));
    var byService := collate(left.cell.service, right.cell.service);
    if byStart != 0 then byStart
    else if byService != 0 then byService
    else collate(LevelText(left.cell.level), LevelText(right.cell.level))
  }

  function CompareGroups(collate: Comparator<string>): Comparator<CellCount> {
    (left: CellCount, right: CellCount) => CompareTwoGroups(collate, left, right)
  }

  lemma GroupsCompareConsistently(collate: Comparator<string>)
    requires IsConsistent(collate)
    ensures IsConsistent(CompareGroups(collate))
  {
    hide CompareTwoGroups;
    var compare := CompareGroups(collate);
    forall a, b ensures compare(a, b) < 0 <==> compare(b, a) > 0 {
      GroupsFlip(collate, a, b);
    }
    forall a, b, c | compare(a, b) <= 0 && compare(b, c) <= 0 ensures compare(a, c) <= 0 {
      GroupsChain(collate, a, b, c);
    }
  }

  /** A collation that tells texts apart tells groups apart, so their order does not depend on the records' order. */
  lemma TiesAreSameCell(collate: Comparator<string>, a: CellCount, b: CellCount)
    requires forall x, y :: collate(x, y) == 0 <==> x == y
    requires a.cell.bucketStart % 1000 == 0 && IsTimeValue(a.cell.bucketStart / 1000)
    requires b.cell.bucketStart % 1000 == 0 && IsTimeValue(b.cell.bucketStart / 1000)
    ensures CompareTwoGroups(collate, a, b) == 0 <==> a.cell == b.cell
  {
    hide ToIso, LevelText;
    if CompareTwoGroups(collate, a, b) == 0 {
      ToIsoInjective(a.cell.bucketStart / 1000, b.cell.bucketStart / 1000);
    }
    LevelTextIsExact(a.cell.level, b.cell.level);
  }

  lemma GroupsFlip(collate: Comparator<string>, a: CellCount, b: CellCount)
    requires IsConsistent(collate)
    ensures CompareTwoGroups(collate, a, b) < 0 <==> CompareTwoGroups(collate, b, a) > 0
  {
    hide ToIso, LevelText;
  }

  lemma GroupsChain(collate: Comparator<string>, a: CellCount, b: CellCount, c: CellCount)
    requires IsConsistent(collate) && CompareTwoGroups(collate, a, b) <= 0 && CompareTwoGroups(collate, b, c) <= 0
    ensures CompareTwoGroups(collate, a, c) <= 0
  {
    hide ToIso, LevelText;
    var x, y, z := ToIso(a.cell.bucketStart / 1000), ToIso(b.cell.bucketStart / 1000), ToIso(c.cell.bucketStart / 1000);
    TiesAgree(collate, x, y, z);
    if collate(x, z) == 0 {
      TiesAgree(collate, a.cell.service, b.cell.service, c.cell.service);
    }
  }

  lemma TiesAgree(collate: Comparator<string>, a: string, b: string, c: string)
    requires IsConsistent(collate) && collate(a, b) <= 0 && collate(b, c) <= 0
    ensures collate(a, c) <= 0 && (collate(a, c) == 0 <==> collate(a, b) == 0 && collate(b, c) == 0)
  {
  }

  lemma GroupingInAnyOrder(groups: seq<CellCount>, sorted: seq<CellCount>, records: seq<Log>)
    requires IsGrouping(groups, records) && multiset(sorted) == multiset(groups)
    ensures IsGrouping(sorted, records)
  {
    hide CountIn, CellOf;
    assert forall g :: g in sorted <==> g in multiset(groups);
    forall i, j | 0 <= i < j < |sorted| ensures sorted[i].cell != sorted[j].cell {
      assert sorted[i] in multiset(sorted) && sorted[j] in multiset(sorted);
      OnceInGroups(groups, sorted[i]);
      TwiceCounted(sorted, i, j);
    }
  }

  lemma {:induction false} OnceInGroups(groups: seq<CellCount>, x: CellCount)
    requires DistinctCells(groups) && x in groups
    ensures multiset(groups)[x] == 1
  {
    var k :| 0 <= k < |groups| && groups[k] == x;
    assert groups == groups[..k] + [x] + groups[k + 1..];
    assert x !in groups[..k] && x !in groups[k + 1..];
  }

  /** `groupRecordsForAggregation`: the groups of the batch, in the locale's order. */
  method GroupRecordsForAggregation(collate: Comparator<string>, records: seq<Log>) returns (groups: seq<CellCount>)
    requires forall r :: r in records ==> IsValidRecord(r)
    ensures IsGrouping(groups, records)
    ensures IsConsistent(collate) ==> IsOrdered(CompareGroups(collate), groups)
  {
    hide IsGrouping, IsValidRecord, Sort, IsOrdered;
    var counted := CountRecords(records);
    groups := Sort(CompareGroups(collate), counted);
    SortKeepsItems(CompareGroups(collate), counted);
    GroupingInAnyOrder(counted, groups, records);
    if IsConsistent(collate) {
      GroupsCompareConsistently(collate);
      SortOrders(CompareGroups(collate), counted);
    }
  }

  lemma NothingGrouped()
    ensures IsGrouping([], []) && IsIndex(map[], [], [])
  {
  }

  lemma CountInAppend(records: seq<Log>, r: Log, cell: Cell)
    ensures CountIn(records + [r], cell) == CountIn(records, cell) + if CellOf(r) == cell then 1 else 0
  {
    CountOfConcat(records, [r], (x: Log) => CellOf(x) == cell);
  }

  lemma GroupingGrows(groups: seq<CellCount>, records: seq<Log>, r: Log, at: nat)
    requires IsGrouping(groups, records)
    requires at < |groups| && groups[at].cell == CellOf(r)
    ensures IsGrouping(groups[at := CellCount(groups[at].cell, groups[at].count + 1)], records + [r])
  {
    hide CellOf;
    var grown := groups[at := CellCount(groups[at].cell, groups[at].count + 1)];
    assert forall i :: 0 <= i < |groups| ==> grown[i].cell == groups[i].cell;
    forall g | g in grown ensures g.count > 0 && g.count == CountIn(records + [r], g.cell) {
      var i :| 0 <= i < |grown| && grown[i] == g;
      assert groups[i] in groups;
      CountInAppend(records, r, g.cell);
    }
    forall x | x in records + [r] ensures exists g :: g in grown && g.cell == CellOf(x) {
      if x in records {
        var g :| g in groups && g.cell == CellOf(x);
        var i :| 0 <= i < |groups| && groups[i] == g;
        assert grown[i] in grown;
      } else {
        assert grown[at] in grown;
      }
    }
  }

  lemma GroupingExtends(groups: seq<CellCount>, records: seq<Log>, r: Log)
    requires IsGrouping(groups, records)
    requires forall x :: x in records ==> CellOf(x) != CellOf(r)
    ensures IsGrouping(groups + [CellCount(CellOf(r), 1)], records + [r])
  {
    hide CellOf;
    var cell := CellOf(r);
    var extended := groups + [CellCount(cell, 1)];
    CountIsPositive(records, (x: Log) => CellOf(x) == cell);
    assert CountIn(records, cell) == 0;
    forall g | g in groups ensures g.cell != cell {
      assert CountIn(records, g.cell) > 0;
    }
    forall g | g in extended ensures g.count > 0 && g.count == CountIn(records + [r], g.cell) {
      CountInAppend(records, r, g.cell);
    }
    forall x | x in records + [r] ensures exists g :: g in extended && g.cell == CellOf(x) {
      if x in records {
        var g :| g in groups && g.cell == CellOf(x);
        assert g in extended;
      } else {
        assert extended[|groups|] in extended;
      }
    }
  }

  // ---------------------------------------------------------------- sums of counts

  function SumWhere(rows: seq<CellCount>, p: Cell -> bool): nat {
    if rows == [] then 0 else (if p(rows[0].cell) then rows[0].count else 0) + SumWhere(rows[1..], p)
  }

  lemma {:induction false} SumOfConcat(s: seq<CellCount>, t: seq<CellCount>, p: Cell -> bool)
    ensures SumWhere(s + t, p) == SumWhere(s, p) + SumWhere(t, p)
  {
    if s == [] {
      assert s + t == t;
    } else {
      SumOfConcat(s[1..], t, p);
      assert (s + t)[1..] == s[1..] + t;
    }
  }

  function OtherCells(records: seq<Log>, cell: Cell): seq<Log> {
    if records == [] then []
    else if CellOf(records[0]) == cell then OtherCells(records[1..], cell)
    else [records[0]] + OtherCells(records[1..], cell)
  }

  lemma {:induction false} OtherCellsCount(records: seq<Log>, cell: Cell, p: Log -> bool)
    ensures CountWhere(OtherCells(records, cell), p) == CountWhere(records, (r: Log) => p(r) && CellOf(r) != cell)
    ensures forall r :: r in OtherCells(records, cell) <==> r in records && CellOf(r) != cell
  {
    if records != [] {
      var q := (r: Log) => p(r) && CellOf(r) != cell;
      OtherCellsCount(records[1..], cell, p);
      var rest := OtherCells(records[1..], cell);
      assert ([records[0]] + rest)[1..] == rest;
      assert forall r :: r in records <==> r == records[0] || r in records[1..];
    }
  }

  /** Summing the groups of a batch over any set of cells counts the batch's records in those cells. */
  lemma {:induction false} GroupsSumToRecords(groups: seq<CellCount>, records: seq<Log>, p: Cell -> bool)
    requires IsGrouping(groups, records)
    ensures SumWhere(groups, p) == CountWhere(records, (r: Log) => p(CellOf(r)))
  {
    var q := (r: Log) => p(CellOf(r));
    if groups == [] {
      CountIsPositive(records, q);
    } else {
      var g := groups[0];
      var rest := OtherCells(records, g.cell);
      OtherCellsCount(records, g.cell, q);
      forall h | h in groups[1..] ensures h.count > 0 && h.count == CountIn(rest, h.cell) && h.cell != g.cell {
        var i :| 0 < i < |groups| && groups[i] == h;
        var at := (r: Log) => CellOf(r) == h.cell;
        OtherCellsCount(records, g.cell, at);
        CountAgrees(records, at, (r: Log) => at(r) && CellOf(r) != g.cell);
        CountAgrees(rest, at, (r: Log) => CellOf(r) == h.cell);
      }
      forall r | r in rest ensures exists h :: h in groups[1..] && h.cell == CellOf(r) {
        var h :| h in groups && h.cell == CellOf(r);
        assert h in groups[1..];
      }
      GroupsSumToRecords(groups[1..], rest, p);
      var here := (r: Log) => q(r) && CellOf(r) == g.cell;
      CountIsDisjointSum(records, q, here, (r: Log) => q(r) && CellOf(r) != g.cell);
      if p(g.cell) {
        CountAgrees(records, here, (r: Log) => CellOf(r) == g.cell);
      } else {
        CountIsPositive(records, here);
      }
    }
  }

  /** The counts of a batch's groups add up to the size of the batch. */
  lemma GroupCountsSumToBatchSize(groups: seq<CellCount>, records: seq<Log>)
    requires IsGrouping(groups, records)
    ensures SumWhere(groups, _ => true) == |records|
  {
    GroupsSumToRecords(groups, records, _ => true);
    CountAll(records, (r: Log) => ((_ : Cell) => true)(CellOf(r)));
  }

  lemma {:induction false} CountAll(records: seq<Log>, p: Log -> bool)
    requires forall r :: p(r)
    ensures CountWhere(records, p) == |records|
  {
    if records != [] {
      CountAll(records[1..], p);
    }
  }

  // ---------------------------------------------------------------- the two tables

  datatype Tables = Tables(logs: seq<Log>, rollup: seq<CellCount>)

  predicate HasPrimaryKey(logs: seq<Log>) {
    forall i, j :: 0 <= i < j < |logs| ==> logs[i].timestamp != logs[j].timestamp || logs[i].id != logs[j].id
  }

  /** INSERT ... ON CONFLICT DO UPDATE SET count = count + EXCLUDED.count, for one row. */
  function Upsert(rows: seq<CellCount>, g: CellCount): seq<CellCount> {
    if rows == [] then [g]
    else if rows[0].cell == g.cell then [CellCount(g.cell, rows[0].count + g.count)] + rows[1..]
    else [rows[0]] + Upsert(rows[1..], g)
  }

  function UpsertAll(rows: seq<CellCount>, groups: seq<CellCount>): seq<CellCount>
    decreases |groups|
  {
    if groups == [] then rows else UpsertAll(Upsert(rows, groups[0]), groups[1..])
  }

  /**
   The single statement: both inserts happen or neither. It fails when a (timestamp, id) is taken or
   when one command would update the same rollup row twice.
   */
  ghost function InsertStatement(t: Tables, records: seq<Log>, groups: seq<CellCount>): Option<Tables> {
    if HasPrimaryKey(t.logs + records) && DistinctCells(groups)
    then Some(Tables(t.logs + records, UpsertAll(t.rollup, groups)))
    else None
  }

  /**
   One call of the repository's `insert`: the records of a batch, the order its groups were sent in,
   and whether the server carried the statement out (it may fail for reasons of its own).
   */
  datatype InsertCall = InsertCall(records: seq<Log>, groups: seq<CellCount>, reachesServer: bool)

  ghost predicate IsInsertCall(c: InsertCall) {
    (forall r :: r in c.records ==> IsValidRecord(r)) && IsGrouping(c.groups, c.records)
  }

  ghost function AfterCall(t: Tables, c: InsertCall): Tables {
    var result := InsertStatement(t, c.records, c.groups);
    if c.records != [] && c.reachesServer && result.Some? then result.value else t
  }

  ghost function AfterCalls(calls: seq<InsertCall>): Tables {
    if calls == [] then Tables([], []) else AfterCall(AfterCalls(calls[..|calls| - 1]), calls[|calls| - 1])
  }

  ghost predicate IsHistory(calls: seq<InsertCall>) {
    forall c :: c in calls ==> IsInsertCall(c)
  }

  /** A batch never sends the same rollup row twice, so that conflict never fails the statement. */
  lemma StatementFailsOnlyOnTakenKeys(t: Tables, c: InsertCall)
    requires IsInsertCall(c)
    ensures InsertStatement(t, c.records, c.groups).None? <==> !HasPrimaryKey(t.logs + c.records)
  {
  }

  /**
   A call that reaches the server stores its whole batch if and only if no two records of the stored logs and the
   batch together share timestamp and id. Otherwise, or if it does not reach the server, nothing changes.
   */
  lemma CallStoresIff(t: Tables, c: InsertCall)
    requires IsInsertCall(c) && c.records != []
    ensures var after, all := AfterCall(t, c), t.logs + c.records;
            if c.reachesServer && forall i, j :: 0 <= i < j < |all| ==> KeyOfLog(all[i]) != KeyOfLog(all[j])
            then after.logs == all && after.rollup == UpsertAll(t.rollup, c.groups)
            else after == t
  {
    hide HasPrimaryKey;
    PrimaryKeyIsKey(t.logs + c.records);
  }

  lemma PrimaryKeyIsKey(logs: seq<Log>)
    ensures HasPrimaryKey(logs) <==> forall i, j :: 0 <= i < j < |logs| ==> KeyOfLog(logs[i]) != KeyOfLog(logs[j])
  {
  }

  lemma {:induction false} StoredKeysAreKey(calls: seq<InsertCall>)
    ensures HasPrimaryKey(AfterCalls(calls).logs)
  {
    if calls != [] {
      hide HasPrimaryKey, UpsertAll, DistinctCells;
      StoredKeysAreKey(calls[..|calls| - 1]);
    }
  }

  /** After any history no two stored logs share timestamp and id. */
  lemma StoredKeysDiffer(calls: seq<InsertCall>)
    ensures var logs := AfterCalls(calls).logs;
            forall i, j :: 0 <= i < j < |logs| ==> KeyOfLog(logs[i]) != KeyOfLog(logs[j])
  {
    hide AfterCalls, HasPrimaryKey;
    StoredKeysAreKey(calls);
    PrimaryKeyIsKey(AfterCalls(calls).logs);
  }

  lemma {:induction false} UpsertAddsToSum(rows: seq<CellCount>, g: CellCount, p: Cell -> bool)
    ensures SumWhere(Upsert(rows, g), p) == SumWhere(rows, p) + if p(g.cell) then g.count else 0
  {
    if rows != [] {
      if rows[0].cell == g.cell {
        assert Upsert(rows, g)[1..] == rows[1..];
      } else {
        UpsertAddsToSum(rows[1..], g, p);
        assert Upsert(rows, g)[1..] == Upsert(rows[1..], g);
      }
    }
  }

  lemma {:induction false} UpsertAllAddsToSum(rows: seq<CellCount>, groups: seq<CellCount>, p: Cell -> bool)
    ensures SumWhere(UpsertAll(rows, groups), p) == SumWhere(rows, p) + SumWhere(groups, p)
    decreases |groups|
  {
    if groups != [] {
      UpsertAddsToSum(rows, groups[0], p);
      UpsertAllAddsToSum(Upsert(rows, groups[0]), groups[1..], p);
    }
  }

  /** The rollup table keeps its primary key and holds only positive counts. */
  ghost predicate IsRollupTable(rows: seq<CellCount>) {
    DistinctCells(rows) && forall r :: r in rows ==> r.count > 0
  }

  lemma {:induction false} UpsertKeepsTable(rows: seq<CellCount>, g: CellCount)
    requires IsRollupTable(rows) && g.count > 0
    ensures IsRollupTable(Upsert(rows, g))
    ensures forall u :: u in Upsert(rows, g) ==> u.cell == g.cell || exists r :: r in rows && r.cell == u.cell
  {
    if rows != [] {
      var first, rest := rows[0], rows[1..];
      if first.cell != g.cell {
        UpsertKeepsTable(rest, g);
        var upserted := Upsert(rest, g);
        forall i | 0 <= i < |upserted| ensures upserted[i].cell != first.cell {
          assert upserted[i] in upserted;
        }
      }
      assert forall r :: r in rows <==> r == first || r in rest;
    }
  }

  lemma {:induction false} UpsertAllKeepsTable(rows: seq<CellCount>, groups: seq<CellCount>)
    requires IsRollupTable(rows) && forall g :: g in groups ==> g.count > 0
    ensures IsRollupTable(UpsertAll(rows, groups))
    decreases |groups|
  {
    if groups != [] {
      UpsertKeepsTable(rows, groups[0]);
      UpsertAllKeepsTable(Upsert(rows, groups[0]), groups[1..]);
    }
  }

  /**
   After any history of insert calls, whichever of them failed, the rollup's counts over any set of
   cells add up to the number of stored logs in those cells.
   */
  lemma {:induction false} RollupCountsStoredLogs(calls: seq<InsertCall>, p: Cell -> bool)
    requires IsHistory(calls)
    ensures var t := AfterCalls(calls);
            && IsRollupTable(t.rollup)
            && SumWhere(t.rollup, p) == CountWhere(t.logs, (r: Log) => p(CellOf(r)))
  {
    if calls != [] {
      var before, c := calls[..|calls| - 1], calls[|calls| - 1];
      assert c in calls;
      RollupCountsStoredLogs(before, p);
      var t := AfterCalls(before);
      UpsertAllAddsToSum(t.rollup, c.groups, p);
      UpsertAllKeepsTable(t.rollup, c.groups);
      GroupsSumToRecords(c.groups, c.records, p);
      CountOfConcat(t.logs, c.records, (r: Log) => p(CellOf(r)));
    }
  }

  lemma {:induction false} SumOfSingleCell(rows: seq<CellCount>, row: CellCount)
    requires DistinctCells(rows) && row in rows
    ensures SumWhere(rows, (c: Cell) => c == row.cell) == row.count
  {
    var p := (c: Cell) => c == row.cell;
    if rows[0] == row {
      SumOfNone(rows[1..], p);
    } else {
      SumOfSingleCell(rows[1..], row);
      assert rows[0].cell != row.cell;
    }
  }

  lemma {:induction false} SumOfNone(rows: seq<CellCount>, p: Cell -> bool)
    requires forall r :: r in rows ==> !p(r.cell)
    ensures SumWhere(rows, p) == 0
  {
    if rows != [] {
      SumOfNone(rows[1..], p);
    }
  }

  lemma {:induction false} SumIsPositive(rows: seq<CellCount>, p: Cell -> bool)
    requires forall r :: r in rows ==> r.count > 0
    ensures SumWhere(rows, p) > 0 <==> exists r :: r in rows && p(r.cell)
  {
    if rows != [] {
      SumIsPositive(rows[1..], p);
      assert forall r :: r in rows <==> r == rows[0] || r in rows[1..];
    }
  }

  /** Every rollup cell is exactly the number of stored logs with its minute, service and level. */
  lemma CellIsExact(calls: seq<InsertCall>, cell: Cell)
    requires IsHistory(calls)
    ensures var t := AfterCalls(calls);
            && (forall r :: r in t.rollup && r.cell == cell ==> r.count == CountIn(t.logs, cell))
            && ((exists r :: r in t.rollup && r.cell == cell) <==> CountIn(t.logs, cell) > 0)
  {
    var t, p := AfterCalls(calls), (c: Cell) => c == cell;
    RollupCountsStoredLogs(calls, p);
    CountAgrees(t.logs, (r: Log) => p(CellOf(r)), (r: Log) => CellOf(r) == cell);
    SumIsPositive(t.rollup, p);
    forall r | r in t.rollup && r.cell == cell ensures r.count == CountIn(t.logs, cell) {
      SumOfSingleCell(t.rollup, r);
      SumAgrees(t.rollup, p, (c: Cell) => c == r.cell);
    }
  }

  lemma {:induction false} SumAgrees(rows: seq<CellCount>, p: Cell -> bool, q: Cell -> bool)
    requires forall r :: r in rows ==> p(r.cell) == q(r.cell)
    ensures SumWhere(rows, p) == SumWhere(rows, q)
  {
    if rows != [] {
      SumAgrees(rows[1..], p, q);
    }
  }
}
