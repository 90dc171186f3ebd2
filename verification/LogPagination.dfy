/**
 findPage (src/modules/query/log-query-repository.ts) and list (log-query-service.ts): keyset pages of a
 table that may change between requests, and what following the cursor to its end returns.
 */
module LogPagination {
  import opened Prelude
  import opened LogEntry
  import opened LikePattern
  import opened LogPredicate

  /** The log table: rows in any order, no two with the same (timestamp, id). */
  type Table = seq<Log>

  predicate IsTable(table: Table) {
    forall i, j :: 0 <= i < j < |table| ==> KeyOfLog(table[i]) != KeyOfLog(table[j])
  }

  /** Strictly descending (timestamp, id). */
  predicate Descending(rows: seq<Log>) {
    forall i, j :: 0 <= i < j < |rows| ==> Below(KeyOfLog(rows[j]), KeyOfLog(rows[i]))
  }

  // ---------------------------------------------------------------- one request

  /** FROM logs WHERE ...: the rows on which the text evaluates to true. */
  function SelectWhere(fold: Folding, where: string, values: seq<SqlValue>, table: Table): seq<Log> {
    if table == [] then []
    else (if EvalWhere(fold, where, values, table[0]) == Some(true) then [table[0]] else [])
         + SelectWhere(fold, where, values, table[1..])
  }

  function InsertDescending(row: Log, rows: seq<Log>): seq<Log> {
    if rows == [] || Below(KeyOfLog(rows[0]), KeyOfLog(row)) then [row] + rows
    else [rows[0]] + InsertDescending(row, rows[1..])
  }

  /** ORDER BY timestamp DESC, id DESC */
  function OrderDescending(rows: seq<Log>): seq<Log> {
    if rows == [] then [] else InsertDescending(rows[0], OrderDescending(rows[1..]))
  }

  function Take(rows: seq<Log>, n: nat): seq<Log> {
    if |rows| <= n then rows else rows[..n]
  }

  /** The rows the page statement returns: at most limit + 1 of them. */
  function FindPage(fold: Folding, filters: Filters, limit: nat, cursor: Option<Key>, table: Table): seq<Log> {
    var query := PageQueryOf(filters, limit, cursor);
    var rows := OrderDescending(SelectWhere(fold, query.where, query.values, table));
    var count := EvalLimit(query);
    Take(rows, if count.Some? then count.value else 0)
  }

  datatype Response = Response(logs: seq<Log>, nextCursor: Option<Key>)

  /** `list`: cut the extra row off, and point behind the last row when there was one. */
  function List(fold: Folding, filters: Filters, limit: nat, cursor: Option<Key>, table: Table): Response {
    var page := FindPage(fold, filters, limit, cursor, table);
    var hasMore := |page| > limit;
    var logs := Take(page, limit);
    Response(logs, if hasMore && logs != [] then Some(KeyOfLog(logs[|logs| - 1])) else None)
  }

  /** The rows a request may return: matching the filters, and below the cursor if there is one. */
  predicate IsWanted(fold: Folding, filters: Filters, cursor: Option<Key>, log: Log) {
    Matches(fold, filters, log) && (cursor.Some? ==> Below(KeyOfLog(log), cursor.value))
  }

  lemma {:induction false} SelectedRows(fold: Folding, filters: Filters, limit: nat, cursor: Option<Key>, table: Table)
    requires KeepsSpecials(fold)
    ensures var query := PageQueryOf(filters, limit, cursor);
            var rows := SelectWhere(fold, query.where, query.values, table);
            && (forall log :: log in rows <==> log in table && IsWanted(fold, filters, cursor, log))
            && |rows| <= |table|
    decreases |table|
  {
    hide PageQueryOf, EvalWhere, Matches, Below;
    if table != [] {
      SelectedRows(fold, filters, limit, cursor, table[1..]);
      PageQueryKeepsMeaning(fold, filters, limit, cursor, table[0]);
      assert forall log :: log in table <==> log == table[0] || log in table[1..];
    }
  }

  lemma {:induction false} SelectedRowsAreTable(fold: Folding, where: string, values: seq<SqlValue>, table: Table)
    requires IsTable(table)
    ensures IsTable(SelectWhere(fold, where, values, table))
    ensures forall log :: log in SelectWhere(fold, where, values, table) ==> log in table
  {
    hide EvalWhere;
    if table != [] {
      SelectedRowsAreTable(fold, where, values, table[1..]);
      var rest := SelectWhere(fold, where, values, table[1..]);
      forall i | 0 <= i < |rest| ensures KeyOfLog(rest[i]) != KeyOfLog(table[0]) {
        assert rest[i] in rest;
      }
    }
  }

  lemma {:induction false} InsertKeepsOrder(row: Log, rows: seq<Log>)
    requires Descending(rows) && forall r :: r in rows ==> KeyOfLog(r) != KeyOfLog(row)
    ensures Descending(InsertDescending(row, rows))
    ensures forall r :: r in InsertDescending(row, rows) <==> r == row || r in rows
    ensures |InsertDescending(row, rows)| == |rows| + 1
  {
    if rows != [] && !Below(KeyOfLog(rows[0]), KeyOfLog(row)) {
      InsertKeepsOrder(row, rows[1..]);
      var rest := InsertDescending(row, rows[1..]);
      forall i | 0 <= i < |rest| ensures Below(KeyOfLog(rest[i]), KeyOfLog(rows[0])) {
        assert rest[i] in rest;
        assert rows[0] in rows;
      }
      assert forall r :: r in rows <==> r == rows[0] || r in rows[1..];
    }
  }

  lemma {:induction false} OrderIsDescending(rows: seq<Log>)
    requires IsTable(rows)
    ensures Descending(OrderDescending(rows))
    ensures forall r :: r in OrderDescending(rows) <==> r in rows
    ensures |OrderDescending(rows)| == |rows|
  {
    if rows != [] {
      OrderIsDescending(rows[1..]);
      forall r | r in rows[1..] ensures KeyOfLog(r) != KeyOfLog(rows[0]) {
        var i :| 0 <= i < |rows[1..]| && rows[1..][i] == r;
        assert rows[i + 1] == r;
      }
      InsertKeepsOrder(rows[0], OrderDescending(rows[1..]));
      assert forall r :: r in rows <==> r == rows[0] || r in rows[1..];
    }
  }

  /** The whole answer to a request without a limit. */
  function WantedRows(fold: Folding, filters: Filters, limit: nat, cursor: Option<Key>, table: Table): seq<Log> {
    var query := PageQueryOf(filters, limit, cursor);
    OrderDescending(SelectWhere(fold, query.where, query.values, table))
  }

  lemma WantedRowsAreOrdered(fold: Folding, filters: Filters, limit: nat, cursor: Option<Key>, table: Table)
    requires KeepsSpecials(fold) && IsTable(table)
    ensures var rows := WantedRows(fold, filters, limit, cursor, table);
            && Descending(rows) && |rows| <= |table|
            && forall log :: log in rows <==> log in table && IsWanted(fold, filters, cursor, log)
  {
    hide PageQueryOf, SelectWhere, OrderDescending;
    var query := PageQueryOf(filters, limit, cursor);
    SelectedRows(fold, filters, limit, cursor, table);
    SelectedRowsAreTable(fold, query.where, query.values, table);
    OrderIsDescending(SelectWhere(fold, query.where, query.values, table));
  }

  lemma PageIsPrefix(fold: Folding, filters: Filters, limit: nat, cursor: Option<Key>, table: Table)
    requires KeepsSpecials(fold) && IsTable(table) && limit >= 1
    ensures var rows := WantedRows(fold, filters, limit, cursor, table);
            List(fold, filters, limit, cursor, table)
            == Response(Take(rows, limit), if |rows| > limit then Some(KeyOfLog(rows[limit - 1])) else None)
  {
    hide SelectWhere, OrderDescending, PageQueryOf, KeyOfLog;
    LimitIsOneMore(fold, filters, limit, cursor);
    var rows := WantedRows(fold, filters, limit, cursor, table);
    if |rows| > limit {
      assert rows[..limit + 1][..limit] == rows[..limit];
    }
  }

  lemma LimitIsOneMore(fold: Folding, filters: Filters, limit: nat, cursor: Option<Key>)
    requires KeepsSpecials(fold)
    ensures EvalLimit(PageQueryOf(filters, limit, cursor)) == Some(limit + 1)
  {
    hide PageQueryOf, EvalWhere;
    PageQueryKeepsMeaning(fold, filters, limit, cursor, Log(0, 0, Info, "", "", map[]));
  }

  /** The keys a response answers for: below its cursor and, if there is more, down to its last row. */
  predicate InWindow(cursor: Option<Key>, next: Option<Key>, key: Key) {
    (cursor.Some? ==> Below(key, cursor.value)) && (next.Some? ==> !Below(key, next.value))
  }

  /**
   A page holds exactly the table's matching rows in its window, in strictly descending order, and
   every row of the page lies between its next cursor and its cursor.
   */
  lemma PageIsWindow(fold: Folding, filters: Filters, limit: nat, cursor: Option<Key>, table: Table)
    requires KeepsSpecials(fold) && IsTable(table) && limit >= 1
    ensures var r := List(fold, filters, limit, cursor, table);
            && Descending(r.logs) && |r.logs| <= limit
            && (forall log :: log in r.logs <==>
                 log in table && Matches(fold, filters, log) && InWindow(cursor, r.nextCursor, KeyOfLog(log)))
            && (r.nextCursor.Some? ==> r.logs != [] && r.nextCursor.value == KeyOfLog(r.logs[|r.logs| - 1]))
  {
    hide List, WantedRows, Matches;
    PageIsPrefix(fold, filters, limit, cursor, table);
    WantedRowsAreOrdered(fold, filters, limit, cursor, table);
    var rows := WantedRows(fold, filters, limit, cursor, table);
    if |rows| > limit {
      PrefixIsWindow(rows, limit);
    }
  }

  /** In a descending list the first n rows are those not below the n-th. */
  lemma PrefixIsWindow(rows: seq<Log>, n: nat)
    requires Descending(rows) && 1 <= n <= |rows|
    ensures forall log :: log in rows[..n] <==> log in rows && !Below(KeyOfLog(log), KeyOfLog(rows[n - 1]))
  {
    forall log | log in rows ensures log in rows[..n] <==> !Below(KeyOfLog(log), KeyOfLog(rows[n - 1])) {
      var i :| 0 <= i < |rows| && rows[i] == log;
      if i < n {
        assert rows[..n][i] == log;
      } else {
        forall j | 0 <= j < n ensures rows[..n][j] != log {
          assert Below(KeyOfLog(rows[i]), KeyOfLog(rows[j]));
        }
      }
    }
  }

  // ---------------------------------------------------------------- following the cursor

  /** What one request finds: the table as it is then, and the limit the client asks for. */
  datatype Visit = Visit(table: Table, limit: nat)

  ghost predicate AreVisits(visits: seq<Visit>) {
    forall v :: v in visits ==> IsTable(v.table) && v.limit >= 1
  }

  /** Request page after page, passing each next_cursor on, until one is null. */
  function Traverse(fold: Folding, filters: Filters, visits: seq<Visit>, cursor: Option<Key>): seq<Response> {
    if visits == [] then [] else
    var first := List(fold, filters, visits[0].limit, cursor, visits[0].table);
    [first] + if first.nextCursor.None? then [] else Traverse(fold, filters, visits[1..], first.nextCursor)
  }

  predicate ReachedEnd(responses: seq<Response>) {
    responses != [] && responses[|responses| - 1].nextCursor.None?
  }

  function AllLogs(responses: seq<Response>): seq<Log> {
    if responses == [] then [] else responses[0].logs + AllLogs(responses[1..])
  }

  /** Keys descend strictly across all pages of a traversal, and stay below its starting cursor. */
  lemma {:induction false} TraversalDescends(fold: Folding, filters: Filters, visits: seq<Visit>, cursor: Option<Key>)
    requires KeepsSpecials(fold) && AreVisits(visits)
    ensures var logs := AllLogs(Traverse(fold, filters, visits, cursor));
            && Descending(logs)
            && forall log :: log in logs ==> IsWanted(fold, filters, cursor, log)
    decreases |visits|
  {
    hide List, Matches;
    if visits != [] {
      assert visits[0] in visits;
      PageIsWindow(fold, filters, visits[0].limit, cursor, visits[0].table);
      var first := List(fold, filters, visits[0].limit, cursor, visits[0].table);
      var responses := Traverse(fold, filters, visits, cursor);
      if first.nextCursor.Some? {
        TraversalDescends(fold, filters, visits[1..], first.nextCursor);
        var rest := AllLogs(Traverse(fold, filters, visits[1..], first.nextCursor));
        assert responses[1..] == Traverse(fold, filters, visits[1..], first.nextCursor);
        WindowsDescend(first.logs, rest, first.nextCursor.value);
        assert forall log :: log in first.logs + rest <==> log in first.logs || log in rest;
      } else {
        assert responses[1..] == [];
        assert AllLogs(responses) == first.logs + [] == first.logs;
      }
    }
  }

  lemma WindowsDescend(first: seq<Log>, rest: seq<Log>, bound: Key)
    requires Descending(first) && Descending(rest)
    requires forall log :: log in first ==> !Below(KeyOfLog(log), bound)
    requires forall log :: log in rest ==> Below(KeyOfLog(log), bound)
    ensures Descending(first + rest)
  {
    var both := first + rest;
    forall i, j | 0 <= i < j < |both| ensures Below(KeyOfLog(both[j]), KeyOfLog(both[i])) {
      if i < |first| <= j {
        assert both[i] in first && both[j] in rest;
      }
    }
  }

  /** A matching row that is in the table at every request of a finished traversal is returned. */
  lemma {:induction false} TraversalCovers(fold: Folding, filters: Filters, visits: seq<Visit>, cursor: Option<Key>,
                                           log: Log)
    requires KeepsSpecials(fold) && AreVisits(visits)
    requires ReachedEnd(Traverse(fold, filters, visits, cursor))
    requires forall i :: 0 <= i < |Traverse(fold, filters, visits, cursor)| && i < |visits| ==> log in visits[i].table
    requires IsWanted(fold, filters, cursor, log)
    ensures log in AllLogs(Traverse(fold, filters, visits, cursor))
    decreases |visits|
  {
    hide List, Matches;
    assert visits[0] in visits;
    PageIsWindow(fold, filters, visits[0].limit, cursor, visits[0].table);
    var first := List(fold, filters, visits[0].limit, cursor, visits[0].table);
    var responses := Traverse(fold, filters, visits, cursor);
    if first.nextCursor.Some? && Below(KeyOfLog(log), first.nextCursor.value) {
      var rest := Traverse(fold, filters, visits[1..], first.nextCursor);
      assert responses[1..] == rest;
      assert responses[|responses| - 1] == rest[|rest| - 1];
      forall i | 0 <= i < |rest| && i < |visits[1..]| ensures log in visits[1..][i].table {
        assert log in visits[i + 1].table;
      }
      TraversalCovers(fold, filters, visits[1..], first.nextCursor, log);
    } else {
      assert log in first.logs;
    }
  }

  lemma {:induction false} DescendingHasNoRepeats(rows: seq<Log>, log: Log)
    requires Descending(rows)
    ensures multiset(rows)[log] == if log in rows then 1 else 0
  {
    if rows != [] {
      DescendingHasNoRepeats(rows[1..], log);
      assert rows == [rows[0]] + rows[1..];
      TailMembers(rows, log);
    }
  }

  /**
   Following next_cursor from the start to null, while rows are inserted and deleted between the
   requests and each page has its own limit: keys descend strictly across all pages, no row comes
   twice, and every matching row present at all requests comes exactly once.
   */
  lemma WholeTraversal(fold: Folding, filters: Filters, visits: seq<Visit>)
    requires KeepsSpecials(fold) && AreVisits(visits)
    ensures var responses := Traverse(fold, filters, visits, None);
            var logs := AllLogs(responses);
            && Descending(logs)
            && (forall log :: multiset(logs)[log] <= 1)
            && (ReachedEnd(responses) ==>
                  forall log ::
                    && Matches(fold, filters, log)
                    && (forall i :: 0 <= i < |responses| && i < |visits| ==> log in visits[i].table)
                    ==> multiset(logs)[log] == 1)
  {
    hide Matches, Traverse, AllLogs;
    var responses := Traverse(fold, filters, visits, None);
    var logs := AllLogs(responses);
    TraversalDescends(fold, filters, visits, None);
    forall log ensures multiset(logs)[log] == if log in logs then 1 else 0 {
      DescendingHasNoRepeats(logs, log);
    }
    if ReachedEnd(responses) {
      forall log |
        && Matches(fold, filters, log)
        && forall i :: 0 <= i < |responses| && i < |visits| ==> log in visits[i].table
        ensures multiset(logs)[log] == 1
      {
        TraversalCovers(fold, filters, visits, None, log);
      }
    }
  }

  // ---------------------------------------------------------------- an unchanged table

  lemma {:induction false} DescendingIsUnique(a: seq<Log>, b: seq<Log>)
    requires Descending(a) && Descending(b)
    requires forall log :: log in a <==> log in b
    ensures a == b
  {
    DistinctCount(a);
    DistinctCount(b);
    assert (set log | log in a) == (set log | log in b);
    if a != [] {
      assert a[0] in b && b[0] in a;
      var i :| 0 <= i < |b| && b[i] == a[0];
      var j :| 0 <= j < |a| && a[j] == b[0];
      assert a[0] == b[0];
      forall log ensures log in a[1..] <==> log in b[1..] {
        TailMembers(a, log);
        TailMembers(b, log);
      }
      DescendingIsUnique(a[1..], b[1..]);
      assert a == [a[0]] + a[1..] && b == [b[0]] + b[1..];
    }
  }

  lemma TailMembers(rows: seq<Log>, log: Log)
    requires rows != [] && Descending(rows)
    ensures log in rows[1..] <==> log in rows && log != rows[0]
  {
    assert forall i :: 1 <= i < |rows| ==> rows[i] == rows[1..][i - 1] && Below(KeyOfLog(rows[i]), KeyOfLog(rows[0]));
  }

  ghost predicate AllSee(visits: seq<Visit>, table: Table) {
    forall v :: v in visits ==> v.table == table
  }

  /** On an unchanged table the pages of a finished traversal concatenate to the whole sorted answer. */
  lemma UnchangedTableConcatenates(fold: Folding, filters: Filters, visits: seq<Visit>, table: Table)
    requires KeepsSpecials(fold) && AreVisits(visits) && AllSee(visits, table) && IsTable(table)
    requires ReachedEnd(Traverse(fold, filters, visits, None))
    ensures AllLogs(Traverse(fold, filters, visits, None)) == WantedRows(fold, filters, 0, None, table)
  {
    hide Matches, WantedRows, Traverse, AllLogs;
    var logs, rows := AllLogs(Traverse(fold, filters, visits, None)), WantedRows(fold, filters, 0, None, table);
    TraversalDescends(fold, filters, visits, None);
    TraversalReturnsStored(fold, filters, visits, None, table);
    WantedRowsAreOrdered(fold, filters, 0, None, table);
    forall log | log in rows ensures log in logs {
      forall i | 0 <= i < |visits| ensures log in visits[i].table {
        assert visits[i] in visits;
      }
      TraversalCovers(fold, filters, visits, None, log);
    }
    DescendingIsUnique(logs, rows);
  }

  lemma {:induction false} TraversalReturnsStored(fold: Folding, filters: Filters, visits: seq<Visit>,
                                                  cursor: Option<Key>, table: Table)
    requires KeepsSpecials(fold) && AreVisits(visits) && AllSee(visits, table)
    ensures forall log :: log in AllLogs(Traverse(fold, filters, visits, cursor)) ==> log in table
    decreases |visits|
  {
    hide List, Matches;
    if visits != [] {
      assert visits[0] in visits;
      PageIsWindow(fold, filters, visits[0].limit, cursor, visits[0].table);
      var first := List(fold, filters, visits[0].limit, cursor, visits[0].table);
      var responses := Traverse(fold, filters, visits, cursor);
      if first.nextCursor.Some? {
        TraversalReturnsStored(fold, filters, visits[1..], first.nextCursor, table);
        assert responses[1..] == Traverse(fold, filters, visits[1..], first.nextCursor);
      } else {
        assert responses[1..] == [];
      }
    }
  }

  /** And the end is reached: each page with a next cursor holds at least one row of the answer. */
  lemma {:induction false} UnchangedTableEnds(fold: Folding, filters: Filters, visits: seq<Visit>,
                                              cursor: Option<Key>, table: Table)
    requires KeepsSpecials(fold) && AreVisits(visits) && AllSee(visits, table) && IsTable(table)
    requires |visits| > |WantedRows(fold, filters, 0, cursor, table)|
    ensures ReachedEnd(Traverse(fold, filters, visits, cursor))
    decreases |visits|
  {
    hide List, Matches, WantedRows;
    assert visits[0] in visits;
    var limit := visits[0].limit;
    PageIsWindow(fold, filters, limit, cursor, table);
    var first := List(fold, filters, limit, cursor, table);
    if first.nextCursor.Some? {
      FewerRowsRemain(fold, filters, limit, cursor, table);
      UnchangedTableEnds(fold, filters, visits[1..], first.nextCursor, table);
      var rest := Traverse(fold, filters, visits[1..], first.nextCursor);
      var responses := Traverse(fold, filters, visits, cursor);
      assert responses == [first] + rest;
    }
  }

  lemma FewerRowsRemain(fold: Folding, filters: Filters, limit: nat, cursor: Option<Key>, table: Table)
    requires KeepsSpecials(fold) && IsTable(table) && limit >= 1
    requires List(fold, filters, limit, cursor, table).nextCursor.Some?
    ensures var next := List(fold, filters, limit, cursor, table).nextCursor;
            |WantedRows(fold, filters, 0, next, table)| < |WantedRows(fold, filters, 0, cursor, table)|
  {
    hide List, Matches, WantedRows;
    PageIsWindow(fold, filters, limit, cursor, table);
    var first := List(fold, filters, limit, cursor, table);
    var next := first.nextCursor;
    WantedRowsAreOrdered(fold, filters, 0, cursor, table);
    WantedRowsAreOrdered(fold, filters, 0, next, table);
    var rows, rest := WantedRows(fold, filters, 0, cursor, table), WantedRows(fold, filters, 0, next, table);
    var last := first.logs[|first.logs| - 1];
    assert last in first.logs;
    assert last in rows && last !in rest;
    WindowsDescend([last], rest, KeyOfLog(last));
    forall log | log in rest ensures log in rows {
      assert Below(KeyOfLog(log), KeyOfLog(last));
    }
    SmallerSet(rest, rows, last);
  }

  lemma SmallerSet(few: seq<Log>, many: seq<Log>, extra: Log)
    requires Descending(few) && Descending(many)
    requires (forall log :: log in few ==> log in many) && extra in many && extra !in few
    ensures |few| < |many|
  {
    DistinctCount(few);
    DistinctCount(many);
    var a, b := set log | log in few, set log | log in many;
    assert a + {extra} <= b;
    SubsetCount(a + {extra}, b);
  }

  lemma {:induction false} DistinctCount(rows: seq<Log>)
    requires Descending(rows)
    ensures |set log | log in rows| == |rows|
  {
    var all := set log | log in rows;
    if rows == [] {
      assert all == {};
    } else {
      DistinctCount(rows[1..]);
      var rest := set log | log in rows[1..];
      forall log ensures log in rows[1..] <==> log in rows && log != rows[0] {
        TailMembers(rows, log);
      }
      assert all == rest + {rows[0]};
    }
  }

  lemma SubsetCount(a: set<Log>, b: set<Log>)
    requires a <= b
    ensures |a| <= |b|
  {
    assert b == a + (b - a);
    assert |b| == |a| + |b - a|;
  }
}
