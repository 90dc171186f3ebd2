/**
 buildInsertParameters of src/modules/ingestion/ingestion-repository.ts: records and groups laid out as the
 array parameters of one statement, which UNNEST puts together again row by row.
 */
module InsertParameters {
  import opened Prelude
  import opened LogEntry
  import opened MinuteRollup
  import opened AttributeNormalizer
  import opened Sorting

  /** A record to insert: its attributes as sent, and their search document if it has been made already. */
  datatype InsertionRecord = InsertionRecord(
    timestamp: int, id: nat, level: Level, service: string, message: string,
    attributes: seq<Property>, attributesSearch: Option<map<string, string>>)

  /** A row of the log table: the log as queries see it, and the attributes as they were sent. */
  datatype StoredRow = StoredRow(log: Log, attributes: seq<Property>)

  /** `record.attributesSearch ?? normalizeAttributes(record.attributes)`; nothing where it throws. */
  function SearchDocument(r: InsertionRecord): Option<map<string, string>> {
    if r.attributesSearch.Some? then r.attributesSearch else Document(r.attributes)
  }

  /** The row a record becomes. */
  function RowOf(r: InsertionRecord): StoredRow
    requires SearchDocument(r).Some?
  {
    StoredRow(Log(r.timestamp, r.id, r.level, r.service, r.message, SearchDocument(r).value), r.attributes)
  }

  predicate AreNormalizable(records: seq<InsertionRecord>) {
    forall i :: 0 <= i < |records| ==> SearchDocument(records[i]).Some?
  }

  function RowsOf(records: seq<InsertionRecord>): seq<StoredRow>
    requires AreNormalizable(records)
  {
    seq(|records|, i requires 0 <= i < |records| => RowOf(records[i]))
  }

  function LogsOf(rows: seq<StoredRow>): seq<Log> {
    seq(|rows|, i requires 0 <= i < |rows| => rows[i].log)
  }

  datatype LogColumns = LogColumns(
    timestamps: seq<int>, ids: seq<nat>, levels: seq<Level>, services: seq<string>, messages: seq<string>,
    attributes: seq<seq<Property>>, attributesSearch: seq<map<string, string>>)

  datatype GroupColumns = GroupColumns(
    bucketStarts: seq<int>, services: seq<string>, levels: seq<Level>, counts: seq<nat>)

  predicate AreLogColumns(c: LogColumns, n: nat) {
    && |c.timestamps| == |c.ids| == |c.levels| == |c.services| == |c.messages| == n
    && |c.attributes| == |c.attributesSearch| == n
  }

  predicate AreGroupColumns(c: GroupColumns, n: nat) {
    |c.bucketStarts| == |c.services| == |c.levels| == |c.counts| == n
  }

  function RowAt(c: LogColumns, i: nat): StoredRow
    requires AreLogColumns(c, |c.ids|) && i < |c.ids|
  {
    StoredRow(Log(c.timestamps[i], c.ids[i], c.levels[i], c.services[i], c.messages[i], c.attributesSearch[i]),
      c.attributes[i])
  }

  /** `UNNEST($1, ..., $7) AS batch` */
  function UnnestLogs(c: LogColumns): seq<StoredRow>
    requires AreLogColumns(c, |c.ids|)
  {
    seq(|c.ids|, i requires 0 <= i < |c.ids| => RowAt(c, i))
  }

  /** `UNNEST($8, ..., $11) AS agg` */
  function UnnestGroups(c: GroupColumns): seq<CellCount>
    requires AreGroupColumns(c, |c.counts|)
  {
    seq(|c.counts|, i requires 0 <= i < |c.counts| =>
      CellCount(Cell(c.bucketStarts[i], c.services[i], c.levels[i]), c.counts[i]))
  }

  predicate AreScalars(timestamp: int, id: nat, level: Level, service: string, message: string, r: InsertionRecord) {
    timestamp == r.timestamp && id == r.id && level == r.level && service == r.service && message == r.message
  }

  lemma OwnScalars(r: InsertionRecord)
    ensures AreScalars(r.timestamp, r.id, r.level, r.service, r.message, r)
  {
  }

  method FindSearchDocument(r: InsertionRecord) returns (search: Option<map<string, string>>)
    requires IsObject(r.attributes)
    ensures search == SearchDocument(r)
  {
    search := r.attributesSearch;
    if search.None? {
      search := NormalizeAttributes(r.attributes);
    }
  }

  /** The arrays of the first five parameters. The program fills these and the next two in one loop. */
  method FillScalarColumns(records: seq<InsertionRecord>)
    returns (timestamps: seq<int>, ids: seq<nat>, levels: seq<Level>, services: seq<string>, messages: seq<string>)
    ensures |timestamps| == |ids| == |levels| == |services| == |messages| == |records|
    ensures forall k :: 0 <= k < |records| ==>
      AreScalars(timestamps[k], ids[k], levels[k], services[k], messages[k], records[k])
  {
    hide AreScalars;
    var count := |records|;
    var timestampArray := new int[count];
    var idArray := new nat[count];
    var levelArray := new Level[count];
    var serviceArray := new string[count];
    var messageArray := new string[count];
    for index := 0 to count
      invariant forall k :: 0 <= k < index ==>
                  AreScalars(timestampArray[k], idArray[k], levelArray[k], serviceArray[k], messageArray[k], records[k])
    {
      var record := records[index];
      timestampArray[index] := record.timestamp;
      idArray[index] := record.id;
      levelArray[index] := record.level;
      serviceArray[index] := record.service;
      messageArray[index] := record.message;
      OwnScalars(record);
    }
    timestamps, ids, levels, services, messages :=
      timestampArray[..], idArray[..], levelArray[..], serviceArray[..], messageArray[..];
  }

  /** The arrays of the two document parameters, or nothing if a record cannot be normalised. */
  method FillDocumentColumns(records: seq<InsertionRecord>)
    returns (columns: Option<(seq<seq<Property>>, seq<map<string, string>>)>)
    requires forall i :: 0 <= i < |records| ==> IsObject(records[i].attributes)
    ensures columns.Some? <==> AreNormalizable(records)
    ensures columns.Some? ==>
              var (attributes, attributesSearch) := columns.value;
              && |attributes| == |attributesSearch| == |records|
              && forall k :: 0 <= k < |records| ==>
                   attributes[k] == records[k].attributes && SearchDocument(records[k]) == Some(attributesSearch[k])
  {
    hide SearchDocument, IsObject;
    var count := |records|;
    var attributes := new seq<Property>[count];
    var attributesSearch := new map<string, string>[count];
    for index := 0 to count
      invariant forall k :: 0 <= k < index ==>
                  attributes[k] == records[k].attributes && SearchDocument(records[k]) == Some(attributesSearch[k])
    {
      var record := records[index];
      var search := FindSearchDocument(record);
      if search.None? {
        return None;
      }
      attributes[index] := record.attributes;
      attributesSearch[index] := search.value;
    }
    return Some((attributes[..], attributesSearch[..]));
  }

  method FillLogColumns(records: seq<InsertionRecord>) returns (columns: Option<LogColumns>)
    requires forall i :: 0 <= i < |records| ==> IsObject(records[i].attributes)
    ensures columns.Some? <==> AreNormalizable(records)
    ensures columns.Some? ==> AreLogColumns(columns.value, |records|) && UnnestLogs(columns.value) == RowsOf(records)
  {
    hide SearchDocument, IsObject, UnnestLogs, RowsOf, AreNormalizable;
    var timestamps, ids, levels, services, messages := FillScalarColumns(records);
    var documents := FillDocumentColumns(records);
    if documents.None? {
      return None;
    }
    var filled := LogColumns(timestamps, ids, levels, services, messages, documents.value.0, documents.value.1);
    SameRows(filled, records);
    return Some(filled);
  }

  lemma SameRows(c: LogColumns, records: seq<InsertionRecord>)
    requires AreLogColumns(c, |records|)
    requires forall k :: 0 <= k < |records| ==>
      AreScalars(c.timestamps[k], c.ids[k], c.levels[k], c.services[k], c.messages[k], records[k])
    requires forall k :: 0 <= k < |records| ==>
               c.attributes[k] == records[k].attributes && SearchDocument(records[k]) == Some(c.attributesSearch[k])
    ensures AreNormalizable(records) && UnnestLogs(c) == RowsOf(records)
  {
    hide SearchDocument;
    assert AreNormalizable(records);
    forall k | 0 <= k < |records| ensures UnnestLogs(c)[k] == RowsOf(records)[k] {
      assert RowAt(c, k) == RowOf(records[k]);
    }
  }

  /** The arrays of the last four parameters. */
  method FillGroupColumns(groups: seq<CellCount>) returns (columns: GroupColumns)
    ensures AreGroupColumns(columns, |groups|) && UnnestGroups(columns) == groups
  {
    var groupCount := |groups|;
    var bucketStarts := new int[groupCount];
    var services := new string[groupCount];
    var levels := new Level[groupCount];
    var counts := new nat[groupCount];
    for index := 0 to groupCount
      invariant forall k :: 0 <= k < index ==>
        CellCount(Cell(bucketStarts[k], services[k], levels[k]), counts[k]) == groups[k]
    {
      var group := groups[index];
      bucketStarts[index] := group.cell.bucketStart;
      services[index] := group.cell.service;
      levels[index] := group.cell.level;
      counts[index] := group.count;
    }
    columns := GroupColumns(bucketStarts[..], services[..], levels[..], counts[..]);
    assert forall k :: 0 <= k < groupCount ==>
                         CellCount(Cell(columns.bucketStarts[k], columns.services[k], columns.levels[k]),
                           columns.counts[k]) == groups[k];
  }

  /**
   The statement's log rows are the batch's records with their search documents, and its rollup rows a
   grouping of them; it throws, and nothing is sent, exactly when a record cannot be normalised.
   */
  method BuildInsertParameters(collate: Comparator<string>, records: seq<InsertionRecord>)
    returns (parameters: Option<(LogColumns, GroupColumns)>)
    requires forall i :: 0 <= i < |records| ==> IsObject(records[i].attributes)
    requires AreNormalizable(records) ==> forall log :: log in LogsOf(RowsOf(records)) ==> IsValidRecord(log)
    ensures parameters.Some? <==> AreNormalizable(records)
    ensures parameters.Some? ==>
              var (logs, groups) := parameters.value;
              && AreLogColumns(logs, |records|) && UnnestLogs(logs) == RowsOf(records)
              && AreGroupColumns(groups, |groups.counts|) && IsGrouping(UnnestGroups(groups), LogsOf(RowsOf(records)))
  {
    hide IsGrouping, UnnestLogs, UnnestGroups, IsValidRecord, RowsOf, IsObject, AreNormalizable, IsOrdered,
      IsConsistent;
    var logs := FillLogColumns(records);
    if logs.None? {
      return None;
    }
    var counted := GroupRecordsForAggregation(collate, LogsOf(RowsOf(records)));
    var groups := FillGroupColumns(counted);
    return Some((logs.value, groups));
  }
}
