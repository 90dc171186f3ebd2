/** Stored logs and the filters of a query: src/domain/log-entry.ts and LogFilters. */
module LogEntry {
  import opened Prelude
  import opened Text

  datatype Level = Debug | Info | Warn | Error

  function LevelText(level: Level): string {
    match level
    case Debug => "debug"
    case Info => "info"
    case Warn => "warn"
    case Error => "error"
  }

  lemma LevelTextIsExact(a: Level, b: Level)
    ensures LevelText(a) == LevelText(b) <==> a == b
  {
    assert LevelText(a)[0] == 'd' <==> a.Debug?;
    assert LevelText(a)[0] == 'i' <==> a.Info?;
    assert LevelText(a)[0] == 'w' <==> a.Warn?;
  }

  /**
   A stored log. The timestamp counts microseconds since the epoch (PostgreSQL's resolution), the
   id stands for a UUID in its byte order, and the attributes are the normalised search document.
   */
  datatype Log = Log(timestamp: int, id: nat, level: Level, service: string, message: string,
                     attributes: map<string, string>)

  /** The sort key of a log and the position a cursor holds. */
  datatype Key = Key(timestamp: int, id: nat)

  function KeyOfLog(log: Log): Key {
    Key(log.timestamp, log.id)
  }

  /** Row comparison: (a.timestamp, a.id) < (b.timestamp, b.id) */
  predicate Below(a: Key, b: Key) {
    a.timestamp < b.timestamp || (a.timestamp == b.timestamp && a.id < b.id)
  }

  datatype AttributeFilter = AttributeFilter(key: string, value: string)

  datatype Filters = Filters(service: Option<string>, level: Option<Level>,
                             since: Option<int>, until: Option<int>,
                             attributes: seq<AttributeFilter>, q: Option<string>)

  /** Case folding, one character at a time. */
  type Folding = char -> char

  function Fold(fold: Folding, s: string): (folded: string)
    ensures |folded| == |s|
  {
    seq(|s|, i requires 0 <= i < |s| => fold(s[i]))
  }

  predicate Contains(text: string, needle: string) {
    exists i: nat :: i <= |text| && OccursAt(needle, text, i)
  }

  predicate HasAttribute(log: Log, filter: AttributeFilter) {
    filter.key in log.attributes && log.attributes[filter.key] == filter.value
  }

  /** The rows a query asks for, as the API documents the parameters. */
  predicate Matches(fold: Folding, filters: Filters, log: Log) {
    && (filters.service.Some? ==> log.service == filters.service.value)
    && (filters.level.Some? ==> log.level == filters.level.value)
    && (filters.since.Some? ==> filters.since.value <= log.timestamp)
    && (filters.until.Some? ==> log.timestamp < filters.until.value)
    && (forall a :: a in filters.attributes ==> HasAttribute(log, a))
    && (filters.q.Some? ==> Contains(Fold(fold, log.message), Fold(fold, filters.q.value)))
  }
}
