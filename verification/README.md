# LogStream, verified

A Dafny model of LogStream, a log service over PostgreSQL, and of what its components promise. Each file names
the source file it follows. `dafny verify dfyconfig.toml` checks the whole project.

Six parts:

- **Rollup and aggregation** (`MinuteRollup`, `InsertParameters`, `LogAggregation`, `RollupQuery`,
  `RollupRetention`). The log table and the per-minute count table are state, insert calls and the removals of
  retention are steps. Every rollup row is exact after any history of inserts, and the rollup's answer is the
  raw answer with both bounds rounded up to the minute; rows that retention removes stay counted. The
  repository's README says that aggregation uses the same filters as the log query; the code silently rounds.
  The model follows the code, and `RollupIsRawIffRangesCoincide` says exactly when the two agree.
- **Batched ingestion** (`IngestionBatching`, `IngestionDraining`, `IngestionSettlement`,
  `BatchedIngestionRepository`). The coordinator as steps and as a class with its variables and loops, each
  method proved to take the step: no lost wakeup, order, exactly-once settlement, draining in bounded steps, and
  what a resolved `close()` means.
- **Queries** (`LikePattern`, `SqlText`, `LogPredicate`, `AttributeNormalizer`, `LogPagination`, `Base64Url`,
  `JsonText`, `CursorCodec`, `CursorTraversal`). The generated SQL text is parsed into columns, operators and
  placeholders, and these are evaluated on rows; traversals run over a table that changes between requests; the
  cursor codec is a printer and parser that undo each other, and the traversal is carried over from positions to
  the texts a client passes on.
- **Timestamps** (`JsDate`, `Timestamp`). Section 5.6 of RFC 3339 in, canonical UTC out; JavaScript's Date is
  written out from section 21.4.1 of ECMA-262, and `Date.parse` is any function that agrees with it.
- **Database lifecycle** (`SqlMask`, `MigrationPlan`, `MigrationRunner`, `MigrationHistory`,
  `MigrationProgress`, `PartitionPlan`, `PartitionPreparer`, `PartitionInvariant`, `PartitionConservation`,
  `PartitionProgress`, `RetentionScheduling`, `RetentionService`, `RetentionMaintenance`, `ServerShutdown`).
  Migration runners and partition preparers interleave at every query; any query may fail, commits and unlocks
  may take effect with their reply lost, and sessions may end at any moment; left alone, both come to their end.
  Shutdown composes the retention service with the ingestion coordinator.
- **Load generator** (`TickScheduling`, `AggregationScheduler`, `SchedulerStop`, `StopMicrotasks`,
  `IngestionLoad`). Tick and row accounting, and the stop protocol of the scheduler down to single microtasks.

`Prelude`, `Text`, `Decimal`, `Sorting`, `Counting` and `LogEntry` hold what several parts share.

Step functions (`Next`, `InsertStep`, ...) are the model's reading of the code; the theorems about their runs
are the results. Where the code works on variables and arrays, a class or a method with loops is proved to take
exactly those steps.

Findings, each with its exact condition and a concrete case where one is needed:

- The rollup differs from the raw query as soon as a non-empty range has a bound inside a minute
  (`RollupIsRawIffRangesCoincide`, `UnalignedAnswerDiffers`).
- No migration takes removed rows out of the rollup, so its answer is too high by the number of removed rows in
  its range (`AnswerOvercounts`). It is right for every query that starts at or behind the cutoff on whole
  minutes, and for no other non-empty one (`AnswerIsRawIffRangeIsRetained`).
- Re-parsing a canonical timestamp fails when an offset pushed its UTC year outside 0 to 9999
  (`ReparseIsFixpointIffFourDigitYear`; `EarliestTextDoesNotReparse` and `LatestTextDoesNotReparse` are inputs);
  such a row's timestamp cannot be a cursor (`CanonicalTextsArePositions`).
- The retention service builds requests its repository refuses when the cutoff falls before year 0
  (`BuiltRequestIsValidIffCutoffYear`, `EarlyClockIsRefused`).
- A schedule call that throws and keeps no callback ends retention for good, although the service still counts
  as started (`LostScheduleIsFinal`); nothing else does (`DriverIsLostIff`).
- The load report's terminal check throws when the grace sleep after an abort wins while a request has been
  counted and not yet removed (`ReportAfterGraceSleep`), and in no other case
  (`ReportPassesUnlessGraceSleepWins`). With an instant sleep, which callers may inject, that is so exactly when
  a request in flight resolves one or two microtasks after the abort or rejects one microtask after it
  (`ReportByDelays`, `TerminalCheckCanThrow`).

## Model

| member | source | states |
|---|---|---|
| MinuteRollup.BucketIsMinuteFloor | src/modules/ingestion/ingestion-repository.ts:76-80 | the minute bucket of any timestamp, before 1970 too, is the start of the minute it lies in |
| MinuteRollup.KeyIsInjective | src/modules/ingestion/ingestion-repository.ts:87 | the NUL-joined Map key identifies minute, service and level: two records share a key exactly when they share a cell |
| MinuteRollup.CountRecords | src/modules/ingestion/ingestion-repository.ts:82-102 | one pass with a Map yields each occurring cell once, with the number of records in it |
| MinuteRollup.GroupRecordsForAggregation | src/modules/ingestion/ingestion-repository.ts:82-109 | the sorted groups are still one for each occurring cell, and stand in the order of the comparator whenever the collation is consistent |
| MinuteRollup.GroupsCompareConsistently | src/modules/ingestion/ingestion-repository.ts:104-108 | comparing minute, service and level in turn is consistent whenever the collation is |
| MinuteRollup.TiesAreSameCell | src/modules/ingestion/ingestion-repository.ts:104-108 | and compares two groups equal only if they are one cell, if the collation tells texts apart |
| MinuteRollup.GroupsSumToRecords | src/modules/ingestion/ingestion-repository.ts:82-109 | over every set of cells the groups of a batch add up to the records in those cells |
| MinuteRollup.GroupCountsSumToBatchSize | src/modules/ingestion/ingestion-repository.ts:82-109 | the counts of a batch add up to its size |
| MinuteRollup.StatementFailsOnlyOnTakenKeys | src/modules/ingestion/ingestion-repository.ts:13-61 | one batch never touches a rollup row twice, so the atomic statement fails, both parts together, only on a log key already taken |
| MinuteRollup.CallStoresIff | src/modules/ingestion/ingestion-repository.ts:170-192 | a call that reaches the server stores its whole batch if and only if no timestamp and id repeats among stored and new logs; otherwise nothing changes |
| MinuteRollup.StoredKeysDiffer | src/modules/ingestion/ingestion-repository.ts:13-61 | after any history no two stored logs share timestamp and id |
| MinuteRollup.RollupCountsStoredLogs | src/modules/ingestion/ingestion-repository.ts:13-61 | after any history of insert calls, some of them failed, the rollup sums over every set of cells equal the stored logs in them |
| MinuteRollup.CellIsExact | src/modules/ingestion/ingestion-repository.ts:170-192 | every reachable rollup row is the number of stored logs with its minute, service and level, and a row exists exactly where there is such a log |
| InsertParameters.FillScalarColumns | src/modules/ingestion/ingestion-repository.ts:111-131 | the arrays filled by index hold, place by place, the timestamps, ids, levels, services and messages of the records |
| InsertParameters.FillDocumentColumns | src/modules/ingestion/ingestion-repository.ts:132-134 | both documents of every record, the search document made from the attributes where it is missing; it throws exactly when one cannot be normalised |
| InsertParameters.FillLogColumns | src/modules/ingestion/ingestion-repository.ts:111-135 | UNNEST of the seven arrays gives the records back as rows, original attributes included, in order |
| InsertParameters.FillGroupColumns | src/modules/ingestion/ingestion-repository.ts:137-153 | UNNEST of the four group arrays gives the groups back in order |
| InsertParameters.BuildInsertParameters | src/modules/ingestion/ingestion-repository.ts:111-168 | the rows of the statement are the batch, and its rollup rows are a grouping of the batch, sorted if the collation is consistent; it throws exactly when some record cannot be normalised |
| LogAggregation.BinOfMinuteIsBin | src/modules/aggregation/log-aggregation-repository.ts:143-150 | binning the start of a minute equals binning the original time, before 1970 too, whatever the number of minutes in a bucket; AnswerIsExact fixes that number |
| LogAggregation.CellMatchesLog | src/modules/aggregation/log-aggregation-repository.ts:74-88 | a stored log counts in the rollup query exactly when it is in the raw range with both bounds rounded up to the minute, and under the same bucket and group |
| LogAggregation.CountsAnswerWholeMinutes | src/modules/aggregation/log-aggregation-repository.ts:63-120 | a table that counts some logs over every set of cells answers as the raw query over those logs, with both bounds rounded up |
| LogAggregation.RollupAnswersWholeMinutes | src/modules/aggregation/log-aggregation-repository.ts:247-288 | after any insert history the rollup answer is the raw answer for since and until each rounded up to a whole minute; AnswerIsExact says what the rows of either are |
| LogAggregation.CoalescingDoesNotShow | src/modules/aggregation/log-aggregation-repository.ts:247-288 | how requests were coalesced, and which statements failed, never shows in an answer of either query: only which logs are stored does |
| LogAggregation.RawRowsOfCoincidingRanges | src/modules/aggregation/log-aggregation-repository.ts:122-160 | a raw range that is empty or has whole-minute bounds gives the same rows as its rounded range |
| LogAggregation.UnalignedAnswerDiffers | src/modules/aggregation/log-aggregation-repository.ts:63-65 | one stored log on which a query with an unaligned bound is answered differently |
| LogAggregation.RollupIsRawIffRangesCoincide | src/modules/aggregation/log-aggregation-repository.ts:63-120 | the rollup may stand in for the raw query on every history if and only if the range is empty or both bounds are whole minutes |
| LogAggregation.AnswerIsExact | src/modules/aggregation/log-aggregation-repository.ts:247-288 | after any insert history, for every query: a row exactly for each bucket of 1, 5, 60 or 1440 minutes and each service, level text or none, that hold a log passing the test in force; its count is the number of such logs |
| RollupRetention.RollupCountsRemovedRows | migrations/0003_add_retention_routines.sql:164-320 | after any life of inserts, dropped partitions and deleted default rows the rollup still counts every row ever stored |
| RollupRetention.AnswerOvercounts | src/modules/aggregation/log-aggregation-repository.ts:247-288 | so every count of the rollup answer is the true count plus the number of removed rows that fall into it |
| RollupRetention.AnswerIsRightIff | src/modules/aggregation/log-aggregation-repository.ts:247-288 | and the answer is the raw answer over the rows that are left, with rounded bounds, if and only if no removed row lies in its range and passes its filters |
| RollupRetention.AnswerIsFromLogs | src/modules/aggregation/log-aggregation-repository.ts:247-288 | the same after any life with removals: a rollup query counts the removed logs too, any other query only those left |
| RollupRetention.AnswerIsRawIffRangeIsRetained | src/modules/aggregation/log-aggregation-repository.ts:63-120 | whatever was removed before a cutoff, the answer is the raw one if and only if the range is empty, or has whole-minute bounds and starts no earlier than the cutoff |
| LogAggregation.MapCountIsExact | src/modules/aggregation/log-aggregation-repository.ts:180-200 | a decimal count from the database is read exactly when it is 1 to 2^53 - 1 and refused otherwise |
| RollupQuery.BuildRollupAggregationQuery | src/modules/aggregation/log-aggregation-repository.ts:67-120 | the WHERE text, parsed into columns, operators and placeholders and evaluated with its bound values, holds of exactly the cells the filters ask for; the placeholders are $1 to $n |
| BatchedIngestionRepository.CombineRecords | src/modules/ingestion/batched-ingestion-repository.ts:59-71 | the array filled by index is the concatenation of the whole writes in order |
| BatchedIngestionRepository.Coordinator.constructor | src/modules/ingestion/batched-ingestion-repository.ts:73-89 | a new coordinator is idle and open |
| BatchedIngestionRepository.Coordinator.TakeBatch | src/modules/ingestion/batched-ingestion-repository.ts:101-126 | takes the prefix BatchIsLongestFittingPrefix describes and keeps the rest in order |
| BatchedIngestionRepository.Coordinator.StartWrite | src/modules/ingestion/batched-ingestion-repository.ts:150-175 | starts one underlying insert with the whole-write concatenation |
| BatchedIngestionRepository.Coordinator.ScheduleFlushIn | src/modules/ingestion/batched-ingestion-repository.ts:130-148 | a set timer is kept or made immediate, never postponed; where it may be called, it leaves the wakeup condition true: a flush is scheduled exactly while a write waits and a slot is free |
| BatchedIngestionRepository.Coordinator.StartAvailable | src/modules/ingestion/batched-ingestion-repository.ts:177-190 | the loop takes exactly the specified steps |
| BatchedIngestionRepository.Coordinator.SettleCloseWaiters | src/modules/ingestion/batched-ingestion-repository.ts:91-99 | the waiters of close are resolved all together or not at all, only when closed and drained, and none is left waiting then |
| BatchedIngestionRepository.Coordinator.Insert | src/modules/ingestion/batched-ingestion-repository.ts:193-213 | a non-empty insert is queued, behind all accepted before, if and only if the coordinator is open and no write waits or the rows fit the queue; otherwise nothing changes; the invariant is kept |
| BatchedIngestionRepository.Coordinator.FlushTimerFires | src/modules/ingestion/batched-ingestion-repository.ts:142-147 | the timer callback is the timer step and keeps the invariant |
| BatchedIngestionRepository.Coordinator.BatchEnds | src/modules/ingestion/batched-ingestion-repository.ts:156-167 | every write of the batch gets the outcome of its batch |
| BatchedIngestionRepository.Coordinator.SlotIsReleased | src/modules/ingestion/batched-ingestion-repository.ts:168-174 | the later microtask gives the slot back, wakes the queue and resolves close |
| BatchedIngestionRepository.Coordinator.GiveBack | src/modules/ingestion/batched-ingestion-repository.ts:168-174 | that microtask takes exactly the release step, in whatever state it finds |
| BatchedIngestionRepository.Coordinator.CloseAndStart | src/modules/ingestion/batched-ingestion-repository.ts:215-234 | close takes exactly the close step |
| BatchedIngestionRepository.Coordinator.Close | src/modules/ingestion/batched-ingestion-repository.ts:215-234 | the public close is the close step and keeps the invariant |
| IngestionBatching.BatchIsLongestFittingPrefix | src/modules/ingestion/batched-ingestion-repository.ts:101-126 | a batch is the longest prefix of whole writes within the row budget; a first write over it goes alone |
| IngestionBatching.InsertIsAcceptedIff | src/modules/ingestion/batched-ingestion-repository.ts:193-213 | the same of the step: accepted if and only if open and either nothing waits or the waiting and new rows are at most maxQueuedRows; AlreadyResolved exactly for no records |
| IngestionBatching.InsertStartsAtOnceIff | src/modules/ingestion/batched-ingestion-repository.ts:207-211 | an accepted insert that finds nothing waiting and a slot free starts at once, alone; any other waits and starts nothing |
| IngestionBatching.InsertNeverPostpones | src/modules/ingestion/batched-ingestion-repository.ts:130-148 | an insert that finds a timer leaves that very timer, or has the queue flushed at once |
| IngestionBatching.StartLoopIsEager | src/modules/ingestion/batched-ingestion-repository.ts:177-185 | writes are started until a slot or a whole batch is missing, at least one, and a second batch only when a whole batch was waiting or the coordinator closes |
| IngestionBatching.CloseWaitsUnlessDrained | src/modules/ingestion/batched-ingestion-repository.ts:215-234 | close closes; its promise is resolved exactly when all is drained, and waits otherwise |
| IngestionBatching.StartAvailableKeeps | src/modules/ingestion/batched-ingestion-repository.ts:177-190 | starting writes leaves a wakeup in place, and takes at least one write when it can |
| IngestionBatching.NextKeepsInvariant | src/modules/ingestion/batched-ingestion-repository.ts:130-234 | every event keeps queue accounting, the wakeup condition, order, slots, close and settlement |
| IngestionBatching.ReachableStatesAreGood | src/modules/ingestion/batched-ingestion-repository.ts:73-236 | in every reachable state a flush is scheduled if and only if a write waits and a slot is free, at once when closed or with a whole batch waiting and after the flush delay otherwise; accepted writes are the dispatched ones then the queue |
| IngestionDraining.ProgressLowersRank | src/modules/ingestion/batched-ingestion-repository.ts:130-213 | each timer, settle and release event lowers the rank |
| IngestionDraining.ProgressIsEnabled | src/modules/ingestion/batched-ingestion-repository.ts:130-213 | until all is drained some such event is possible |
| IngestionDraining.RunsDrain | src/modules/ingestion/batched-ingestion-repository.ts:130-213 | every run of such events is bounded by the rank and can only stop drained |
| IngestionSettlement.DispatchedSettlesOnce | src/modules/ingestion/batched-ingestion-repository.ts:150-175 | a dispatched write settles exactly once, with the outcome of its own batch |
| IngestionSettlement.QueuedIsUnsettled | src/modules/ingestion/batched-ingestion-repository.ts:202-212 | a queued write has not been settled |
| IngestionSettlement.DrainedMeansSettled | src/modules/ingestion/batched-ingestion-repository.ts:91-99 | in a drained state every accepted write has settled once |
| IngestionSettlement.ResolvedCloseMeansSettled | src/modules/ingestion/batched-ingestion-repository.ts:215-234 | a close promise resolves only when every write ever accepted has settled |
| IngestionSettlement.ClosedAcceptsNothing | src/modules/ingestion/batched-ingestion-repository.ts:198-200 | once closed, no insert is accepted and none changes anything |
| LogPagination.PageIsWindow | src/modules/query/log-query-service.ts:37-55 | a page holds exactly the matching rows between its cursor and its next cursor, strictly descending |
| LogPagination.TraversalDescends | src/modules/query/log-query-service.ts:37-55 | keys descend strictly across all pages while the table changes between requests |
| LogPagination.TraversalCovers | src/modules/query/log-query-service.ts:37-55 | a matching row present at every request of a finished traversal is returned |
| LogPagination.WholeTraversal | src/modules/query/log-query-service.ts:22-56 | following next positions to null, with inserts, deletes and changing limits in between: no row twice, and every row present throughout exactly once |
| LogPagination.UnchangedTableConcatenates | src/modules/query/log-query-repository.ts:118-145 | on an unchanged table the pages concatenate to the whole sorted filtered list |
| LogPagination.UnchangedTableEnds | src/modules/query/log-query-service.ts:42-54 | and the traversal ends |
| CursorTraversal.PositionRoundTrip | src/modules/query/log-query-repository.ts:84-107 | the timestamp and UUID texts a row is shown with are read back as its own microsecond and id |
| CursorTraversal.UuidV4Iff | src/modules/query/log-query-repository.ts:14 | the pattern accepts the text of a UUID exactly if its version digit is 4 and its variant bits are 10 |
| CursorTraversal.AcceptedUuidIsText | src/modules/query/log-query-repository.ts:14 | and every text it accepts is the text of its number |
| CursorTraversal.ServeIsList | src/modules/query/log-query-service.ts:23-59 | a request with the cursor text of a position answers as the request with that position, its next cursor again as a text |
| CursorTraversal.TextsFollowPositions | src/modules/query/log-query-service.ts:23-59 | following cursor texts gives, page by page, what following positions gives |
| CursorTraversal.WholeTextTraversal | src/modules/query/log-query-service.ts:23-59 | following next_cursor texts from the first page to null on a changing table: no request fails, keys descend strictly, no row comes twice, and every row present throughout comes exactly once |
| CursorTraversal.CursorOfOtherQueryIsRefused | src/modules/query/log-query-service.ts:30-36 | the next cursor of a page is refused for every other query, as long as the digest separates the two filter texts |
| LikePattern.SearchPatternIsWellFormed | src/modules/query/log-predicate-builder.ts:15-17 | the pattern built from any query is a legal LIKE pattern |
| LikePattern.EscapedMatchesPrefix | src/modules/query/log-predicate-builder.ts:15-17 | an escaped literal followed by % matches exactly the texts starting with it |
| LikePattern.LiteralSearchIsExact | src/modules/query/log-predicate-builder.ts:51-56 | the pattern matches a message if and only if the folded message contains the folded query |
| LogPredicate.BuildLogPredicate | src/modules/query/log-predicate-builder.ts:19-62 | the clauses and values pushed are the ones the meaning theorems are about |
| LogPredicate.BuildPageQuery | src/modules/query/log-query-repository.ts:110-147 | the cursor and limit are appended without renumbering |
| SqlText.ConditionParses | src/modules/query/log-predicate-builder.ts:28-55 | a printed condition parses back to its column, operator, placeholder, cast and escape, whatever they are |
| SqlText.ConjunctionParses | src/modules/query/log-predicate-builder.ts:58-61 | conditions joined by AND parse back to themselves |
| SqlText.RowComparisonParses | src/modules/query/log-query-repository.ts:122 | a printed row comparison parses back to its columns, operator and placeholders |
| LogPredicate.ClausesParse | src/modules/query/log-predicate-builder.ts:28-61 | the joined clauses parse to the column, operator and cast each filter is meant to have, with its placeholder |
| LogPredicate.WhereParses | src/modules/query/log-query-repository.ts:114-143 | the WHERE text of the page query parses to one condition for each filter and the comparison of timestamp and id with the cursor |
| LogPredicate.PredicateKeepsMeaning | src/modules/query/log-predicate-builder.ts:19-62 | on every row the generated text, its columns and operators evaluated with the bound values, is the direct test of the filters |
| LogPredicate.PageQueryKeepsMeaning | src/modules/query/log-query-repository.ts:110-147 | the same with the keyset condition, and the limit is one more than the page |
| LogPredicate.PlaceholdersAreInBindingOrder | src/modules/query/log-query-repository.ts:115-126 | the placeholders of the text are $1 to $n in binding order |
| AttributeNormalizer.NormalizeAttributes | src/domain/attribute-normalizer.ts:29-38 | the document has every key with the text of its value; it throws exactly on an unsupported value |
| AttributeNormalizer.ValueTexts | src/domain/attribute-normalizer.ts:9-27 | true and false are spelled out, negative zero is 0, texts and finite numbers keep their text, anything else throws |
| AttributeNormalizer.FilterMeansOriginalText | src/modules/query/log-predicate-builder.ts:44-49 | an attribute filter holds exactly when the original value has the text of the filter |
| JsDate.YearLength | src/domain/timestamp.ts:132-134 | section 21.4.1 of ECMA-262: consecutive years start one year length apart |
| JsDate.FieldsThenTime | src/domain/timestamp.ts:132-137 | every time value has calendar fields that lead back to it |
| JsDate.TimeThenFields | src/domain/timestamp.ts:132-137 | no two dates and times share a time value |
| JsDate.ToIsoInjective | src/domain/timestamp.ts:137 | different time values have different ISO texts, six-digit years included |
| JsDate.EpochIsZero | src/domain/timestamp.ts:132-136 | time values count from the first instant of 1970 |
| JsDate.CalendarAdvances | src/domain/timestamp.ts:132-136 | each day of the Gregorian calendar is followed by the next, leap years included |
| Timestamp.FastPathRefinesComponents | src/domain/timestamp.ts:62-79 | on every text of the millisecond shape both branches give the same result, whatever Date.parse makes of impossible dates |
| Timestamp.ParserIsComponentPath | src/domain/timestamp.ts:61-149 | so the parser is its component branch on every text |
| Timestamp.CompareFractionsIsRealOrder | src/domain/timestamp.ts:45-59 | comparing padded digits is comparing the fractions as numbers, at any precision |
| Timestamp.FormatKeepsValue | src/domain/timestamp.ts:37-43 | formatting keeps the value of a fraction and reaches its one canonical spelling |
| Timestamp.CompareIsInstantOrder | src/domain/timestamp.ts:151-161 | the comparison is the order of the instants |
| Timestamp.CanonicalTextIsNormalForm | src/domain/timestamp.ts:81-149 | two accepted texts denote the same instant if and only if their canonical texts are equal; OffsetIsSubtracted and UtcIsKept say which instant |
| Timestamp.IsAfterIsInstantOrder | src/domain/timestamp.ts:163-177 | the limit test compares the instants exactly |
| Timestamp.OffsetIsSubtracted | src/domain/timestamp.ts:112-148 | for every date and time, fraction, sign, hours and minutes: accepted exactly if the minutes are at most 59 and the offset at most fourteen hours; the instant is the local time less the whole offset |
| Timestamp.UtcIsKept | src/domain/timestamp.ts:81-148 | a text in UTC is accepted and stands for the time it shows, with its fraction |
| Timestamp.AcceptedIsWritten | src/domain/timestamp.ts:81-148 | every accepted text is of one of these two forms |
| Timestamp.ReparseIsFixpointIffFourDigitYear | src/domain/timestamp.ts:81-148 | re-parsing a canonical text gives it back exactly when its UTC year is 0 to 9999, and is refused otherwise |
| Timestamp.EarliestTextDoesNotReparse | src/domain/timestamp.ts:112-139 | 0000-01-01T00:00:00+14:00 is accepted, lies in the UTC year -1, and its canonical text is refused |
| Timestamp.LatestTextDoesNotReparse | src/domain/timestamp.ts:112-139 | 9999-12-31T23:59:59-14:00 is accepted, lies in the UTC year 10000, and its canonical text is refused |
| Base64Url.EncodeThenDecode | src/modules/query/cursor-codec.ts:106 | decoding an encoding gives the bytes back |
| Base64Url.DecodeThenEncode | src/modules/query/cursor-codec.ts:111-118 | a text survives decoding and encoding exactly when an encoder can produce it |
| JsonText.QuoteSplits | src/modules/query/cursor-codec.ts:74-81 | a quoted JSON string shows where it ends |
| JsonText.PairsInjective | src/modules/query/cursor-codec.ts:55-67 | the array of attribute pairs can be read off its text |
| CursorCodec.CanonicalFormIsExact | src/modules/query/cursor-codec.ts:54-68 | the canonical filter text is equal exactly for filters that agree up to attribute order and an empty q |
| CursorCodec.PayloadIsObject | src/modules/query/cursor-codec.ts:70-107 | the payload is the JSON text of an object with exactly the members version, timestamp, id and filterFingerprint |
| CursorCodec.EncodeThenDecode | src/modules/query/cursor-codec.ts:98-172 | under the same filters a decoded cursor is the position that was encoded |
| CursorCodec.AcceptedIsEncoding | src/modules/query/cursor-codec.ts:109-172 | every accepted text is, letter for letter, the encoding of what it decodes to |
| CursorCodec.CursorIsBoundToQuery | src/modules/query/cursor-codec.ts:158-160 | a cursor is accepted for exactly the same query, as long as the digest separates the two filter texts |
| CursorCodec.CanonicalTextsArePositions | src/modules/query/cursor-codec.ts:153-156 | the timestamp a cursor can carry is exactly a canonical one with a four-digit UTC year |
| SqlMask.FindBlockEnd | src/database/migrations/migration-loader.ts:41-58 | the loop over a block comment finds its matching end, nesting counted |
| SqlMask.MaskQuoted | src/database/migrations/migration-loader.ts:64-92 | the loop over a quoted token ends where the lexer says and blanks all of it but line breaks |
| SqlMask.MaskOneToken | src/database/migrations/migration-loader.ts:27-109 | one turn of the outer loop masks one token of the lexer |
| SqlMask.MaskSqlStringsAndComments | src/database/migrations/migration-loader.ts:22-113 | the loops terminate and compute the mask of the declarative lexer |
| SqlMask.MaskOnlyBlanks | src/database/migrations/migration-loader.ts:22-113 | the mask keeps the length, changes characters only to blanks, and no quote survives |
| SqlMask.MaskedIsPlain | src/database/migrations/migration-loader.ts:22-113 | no string, comment or dollar quote starts anywhere in a masked text |
| SqlMask.MaskIsIdempotent | src/database/migrations/migration-loader.ts:22-113 | masking twice is masking once |
| SqlMask.NestingComposes | src/database/migrations/migration-loader.ts:41-55 | leaving a + b comment levels is leaving a and then b |
| SqlMask.LiteralIsOneToken | src/database/migrations/migration-loader.ts:72-90 | any content with its quotes doubled is one literal token |
| SqlMask.LineCommentIsOneToken | src/database/migrations/migration-loader.ts:31-39 | a line comment runs from its dashes to the next line break |
| SqlMask.CommentIsOneToken | src/database/migrations/migration-loader.ts:41-62 | a block comment with comments nested to any depth is one token |
| SqlMask.EndedCommentIsBody | src/database/migrations/migration-loader.ts:41-62 | and every block comment that ends is of that form |
| SqlMask.EscapedLiteralIsOneToken | src/database/migrations/migration-loader.ts:64-92 | behind a stand-alone E, any content with its quotes and backslashes escaped is one token |
| SqlMask.DollarBodyIsOneToken | src/database/migrations/migration-loader.ts:94-106 | a dollar-quoted body ends at the first occurrence of its tag |
| SqlMask.MaskShowsTokens | src/database/migrations/migration-loader.ts:22-113 | code is kept, line comments and unterminated tokens are blank, other tokens are blank but for line breaks |
| MigrationPlan.VersionIsShown | src/database/migrations/migration-loader.ts:115-132 | an accepted file name has the four-digit version it shows |
| MigrationPlan.AcceptedIsShown | src/database/migrations/migration-loader.ts:115-132 | and every accepted name is of that form |
| MigrationPlan.SlugIsWords | src/database/migrations/migration-loader.ts:13 | a slug is lower-case words and numbers, none empty, joined by single underscores |
| MigrationPlan.FaultIsExact | src/database/migrations/migration-loader.ts:134-160 | the fault of a source is the first of name, repeated version, encoding and transaction control |
| MigrationPlan.SortedIsPlan | src/database/migrations/migration-loader.ts:163 | sorting files of distinct versions gives a strictly ascending plan of the same files |
| MigrationPlan.BuildMigrationPlan | src/database/migrations/migration-loader.ts:134-164 | the plan holds exactly the migrations of all sources in ascending order; it is refused exactly for the fault of the first faulty source |
| MigrationRunner.IndexByVersion | src/database/migrations/migration-runner.ts:255 | the Map finds the local file of a version |
| MigrationRunner.ComparisonIsExact | src/database/migrations/migration-runner.ts:251-273 | the comparison passes if and only if every history row is in version, name and checksum the row of a file, and then delivers exactly the files the history lacks, in order; otherwise it says what is wrong with the first row that is none |
| MigrationRunner.FindPendingMigrations | src/database/migrations/migration-runner.ts:251-273 | the two passes compute that comparison |
| MigrationRunner.NextKeepsInvariant | src/database/migrations/migration-runner.ts:148-345 | every query of every interleaved runner, answered, failed or with its reply lost, keeps the invariant |
| MigrationRunner.EveryRunIsConsistent | src/database/migrations/migration-runner.ts:298-345 | history rows and committed effects stay in one-to-one correspondence, no version or file name twice, and every runner has committed a prefix of its list |
| MigrationRunner.MutualExclusion | src/database/migrations/migration-runner.ts:148-185 | no two runners are at work at once |
| MigrationRunner.RunnerAccount | src/database/migrations/migration-runner.ts:310-345 | a runner commits only if every history row it read was the row of one of its files; then a version-ordered prefix of the unapplied files, all of it on success |
| MigrationRunner.CompletedRunLeavesNothing | src/database/migrations/migration-runner.ts:314-322 | right after a completed run the next one with the same files finds nothing to do |
| MigrationHistory.CompletedRunHoldsForever | src/database/migrations/migration-runner.ts:251-273 | under every later history that extends it, a comparison with the same files finds a mismatch or nothing pending |
| MigrationHistory.SuccessLeavesNothingToOthers | src/database/migrations/migration-runner.ts:298-345 | in every interleaved run, a runner with the same files that reads the history after a success commits nothing |
| MigrationProgress.UndisturbedRunEnds | src/database/migrations/migration-runner.ts:298-345 | a run that nothing disturbs ends: with all pending files committed in order and success, or with a mismatch and nothing committed; the lock is free again |
| MigrationProgress.FailureStopsWork | src/database/migrations/migration-runner.ts:275-345 | a query that fails or whose answer is lost fails the run and sends it to rollback and unlock; the database changes only by a commit whose answer was lost |
| MigrationProgress.FailureIsFinal | src/database/migrations/migration-runner.ts:321-345 | a failed run never becomes a success |
| MigrationProgress.FailedRunEnds | src/database/migrations/migration-runner.ts:288-332 | with rollback and unlock answered, a failed run leaves the database as it is and gives the lock back |
| MigrationRunner.OnlyCommitsChangeEffects | src/database/migrations/migration-runner.ts:275-296 | effects change only when the lock holder commits the next migration of its list |
| MigrationRunner.NotAppliedIsOrdered | src/database/migrations/migration-runner.ts:272 | the pending list keeps the version order |
| PartitionPlan.IsoParses | src/database/partitions/partition-plan.ts:46-47 | the text of a time value parses back to it exactly when its year has four digits |
| PartitionPlan.PartitionOfMidnight | src/database/partitions/partition-plan.ts:43-52 | a midnight gives a valid partition exactly when it and the next midnight have four-digit years |
| PartitionPlan.NameIdentifiesDay | src/database/partitions/partition-plan.ts:28-52 | the name determines the day, across plans built at different times |
| PartitionPlan.BuildPartitionPlan | src/database/partitions/partition-plan.ts:54-75 | the loop pushes the plan the theorems are about, or throws |
| PartitionPlan.PlanExistsIff | src/database/partitions/partition-plan.ts:54-75 | a plan exists if and only if the two end midnights of its window have four-digit years |
| PartitionPlan.PlanTilesWindow | src/database/partitions/partition-plan.ts:54-75 | retentionDays + 3 consecutive UTC days with different names, today at index retentionDays |
| PartitionPlan.InstantHasOneDay | src/database/partitions/partition-plan.ts:68-73 | each instant of the window lies in exactly one of its days |
| PartitionPlan.BuiltRequestIsValidIffCutoffYear | src/modules/retention/retention-repository.ts:151-194 | the request the service builds is accepted exactly when the UTC year of the cutoff is not before year 0 |
| PartitionPlan.RequestIsBuiltIff | src/modules/retention/retention-service.ts:144-171 | a request is built exactly if clock and cutoff are time values and the window of its plan has four-digit years at both ends; it shows both |
| PartitionPlan.ValidRequestNamesDays | src/modules/retention/retention-repository.ts:151-194 | a request that passes names the day of its reference time and the two behind it, with exactly their names and bounds |
| PartitionPlan.EarlyClockIsRefused | src/modules/retention/retention-service.ts:144-171 | a clock value for which the service builds a request that is refused |
| PartitionPreparer.SplitConserves | src/database/partitions/partition-preparer.ts:34-45 | the moving DELETE ... RETURNING loses nothing and adds nothing |
| PartitionConservation.CheckNames | src/database/partitions/partition-preparer.ts:215-222 | the plan is accepted exactly when no name repeats |
| PartitionPreparer.CreateAndAttachSucceed | src/database/partitions/partition-preparer.ts:176-206 | when a day is created it is not attached yet, and when it is attached the default holds no row of it |
| PartitionInvariant.NextKeepsInvariant | src/database/partitions/partition-preparer.ts:130-260 | every query of every preparer, failed, lost or answered, every session end and every arriving row keeps the invariant |
| PartitionInvariant.NextConservesRows | src/database/partitions/partition-preparer.ts:176-206 | no event loses, duplicates or changes a row |
| PartitionInvariant.OnlyCommitsAttach | src/database/partitions/partition-preparer.ts:196-198 | only a commit that took effect attaches a day, the one planned next |
| PartitionConservation.RunConservesRows | src/database/partitions/partition-preparer.ts:208-260 | after any run the rows are the old ones and the arrived ones, each in the attached partition of its day or else in the default, and no day is attached twice |
| PartitionConservation.StartIsGood | src/database/partitions/partition-preparer.ts:208-226 | well placed tables and new preparers satisfy the invariant |
| PartitionConservation.SuccessAttachesPlan | src/database/partitions/partition-preparer.ts:226-260 | a preparer that ended without error leaves every planned day attached |
| PartitionProgress.AttachesDay | src/database/partitions/partition-preparer.ts:176-206 | an undisturbed day gets a partition with exactly the rows of the default that lie in it, and the default keeps the others |
| PartitionProgress.UndisturbedRunAttachesPlan | src/database/partitions/partition-preparer.ts:208-260 | an undisturbed preparer ends without error and without locks, and exactly the days attached before and the planned days are attached |
| PartitionProgress.FailureStopsWork | src/database/partitions/partition-preparer.ts:176-260 | a query that fails or whose answer is lost fails the preparer and sends it to rollback and unlock; the tables change only by a commit whose answer was lost |
| PartitionProgress.FailedRunEnds | src/database/partitions/partition-preparer.ts:198-260 | with rollback and unlock answered, a failed preparer leaves the tables as they are and gives both locks back |
| PartitionProgress.RowArrivesUnlessHeld | src/database/partitions/partition-preparer.ts:176-206 | a row can arrive exactly if its day is attached or no preparer holds the default partition |
| RetentionScheduling.NextKeepsInvariant | src/modules/retention/retention-service.ts:202-299 | every call, timer callback and microtask keeps the invariant |
| RetentionScheduling.AtMostOneRun | src/modules/retention/retention-service.ts:245-257 | no two runs are in progress together |
| RetentionScheduling.EveryHistoryIsGood | src/modules/retention/retention-service.ts:202-299 | while started, not stopping and with no scheduling thrown there is either the timer or a run, never both, never neither |
| RetentionScheduling.StartBeginsRun | src/modules/retention/retention-service.ts:260-267 | the first start begins the first run |
| RetentionScheduling.NextRunBegins | src/modules/retention/retention-service.ts:202-257 | a started service that has not lost its schedule comes to its next run without further calls, in at most three steps |
| RetentionScheduling.StopTakesBack | src/modules/retention/retention-service.ts:268-287 | the first stop takes back the callback of a set timer and no other, aborts the run in progress and waits for it, and fails exactly if taking back threw |
| RetentionScheduling.StoppedForGood | src/modules/retention/retention-service.ts:268-297 | once stop has settled no run is in progress and none ever begins; if no timer call threw, no callback is left either |
| RetentionScheduling.StoppingBeginsNothing | src/modules/retention/retention-service.ts:268-282 | from the call of stop on no run begins, and the one in progress has been told to abort |
| RetentionScheduling.StopIsNeverStuck | src/modules/retention/retention-service.ts:282-287 | a called stop can always move towards settling |
| RetentionScheduling.StopNeverMovesBack | src/modules/retention/retention-service.ts:268-297 | and no event moves it back |
| RetentionScheduling.LostScheduleIsFinal | src/modules/retention/retention-service.ts:214-229 | a started service with neither a callback nor a run never begins one again, not even by start |
| RetentionScheduling.OnlyLosingEventsLose | src/modules/retention/retention-service.ts:202-299 | that state is entered only by the end of a run whose schedule call throws before a stop and keeps nothing, and by every such end |
| RetentionScheduling.LostIffAnEventLost | src/modules/retention/retention-service.ts:202-299 | over any history without a stop the service is lost if and only if it was before or such an event occurred |
| RetentionScheduling.DriverIsLostIff | src/modules/retention/retention-service.ts:214-243 | in every whole history of a started service that is not stopping there is exactly one of callback and run, if and only if no schedule call threw without keeping its callback |
| RetentionService.Service.constructor | src/modules/retention/retention-service.ts:202-212 | a new service has done nothing |
| RetentionService.Service.ScheduleNextRun | src/modules/retention/retention-service.ts:214-229 | nothing changes while stopping or behind a set timer; between two runs it restores the driver invariant, with exactly one callback held unless the host refused |
| RetentionService.Service.Begin | src/modules/retention/retention-service.ts:245-257 | unless stopping a run is active afterwards; none is begun while stopping or beside another, and the active run stays the one run that has not ended |
| RetentionService.Service.Start | src/modules/retention/retention-service.ts:260-267 | start is the start step and keeps the invariant |
| RetentionService.Service.TimerFires | src/modules/retention/retention-service.ts:220-224 | the callback is the timer step and keeps the invariant |
| RetentionService.Service.RunExecutes | src/modules/retention/retention-service.ts:231-234 | entering the run body is its step |
| RetentionService.Service.RunEnds | src/modules/retention/retention-service.ts:238-242 | the finally block is the end step and keeps the invariant |
| RetentionService.Service.Stop | src/modules/retention/retention-service.ts:268-283 | stop, called once or again, is the stop step and keeps the invariant |
| RetentionService.Service.StopSettles | src/modules/retention/retention-service.ts:283-296 | the promise of stop settles after the awaited run |
| RetentionMaintenance.ExecuteMaintenance | src/modules/retention/retention-repository.ts:245-309 | the three bounded loops give the one result the answers determine; they throw exactly when an answer they ask for is a failure, at the first such answer |
| RetentionMaintenance.FailureHasNoResult | src/modules/retention/retention-repository.ts:245-309 | when an answer that is asked for fails, the specification admits no result |
| RetentionMaintenance.CompletedRunSays | src/modules/retention/retention-repository.ts:245-309 | a completed run ensured every partition, made up to 32 drops until the first refusal and up to 10 deletes of up to 1000 rows until the first batch not full; its counts are those of the answers, and its flags say that a budget ran out |
| RetentionMaintenance.EnsurePartitions | src/modules/retention/retention-repository.ts:251-263 | partitions are ensured in order until done or aborted; it throws at the first bad answer and only then |
| RetentionMaintenance.DropPartitions | src/modules/retention/retention-repository.ts:265-282 | drops end with the first refusal or the budget of 32, and the budget flag says which; it throws at the first bad answer and only then |
| RetentionMaintenance.DeleteDefaultRows | src/modules/retention/retention-repository.ts:284-308 | deletes end with the first batch not full or the budget of 10, and the budget flag says which; it throws at the first bad answer and only then |
| RetentionMaintenance.MaintenanceIsDetermined | src/modules/retention/retention-repository.ts:245-309 | given the answers and the signal, the specification admits at most one result |
| RetentionMaintenance.Run | src/modules/retention/retention-repository.ts:313-384 | a session goes back to the pool only without the lock and is destroyed exactly when that is in doubt; maintenance runs only under the lock; which error is thrown is exact, the first of several |
| ServerShutdown.NextKeepsInvariant | src/server.ts:135-140 | shutdown, retention and ingestion events keep the shutdown order |
| ServerShutdown.PoolEndsLast | src/server.ts:135-140 | whenever the pool has been ended no retention run is in progress and every accepted write has settled |
| ServerShutdown.EndedPoolIsNeverUsed | src/modules/retention/retention-service.ts:301-325 | from then on no run begins, no batch starts and no write is accepted |
| ServerShutdown.ShutdownIsNeverStuck | src/server.ts:135-140 | a shutdown that has begun can always move on |
| ServerShutdown.ShutdownCompletes | src/server.ts:135-140 | and can be brought to the end of the pool from every state |
| TickScheduling.SkippedAreDue | tools/loadgen/aggregation.ts:200-210 | the ticks a late loop skips are exactly the ones already due |
| TickScheduling.DeadlinesBeforeCounts | tools/loadgen/aggregation.ts:164-174 | the closed form counts exactly the deadlines before the end |
| TickScheduling.MissedCompletes | tools/loadgen/aggregation.ts:164-174 | the stop brings the count up to every deadline before the end and not beyond |
| TickScheduling.NextKeepsInvariant | tools/loadgen/aggregation.ts:122-212 | every counted tick is started or missed, has one lag sample, its own delay, and the in-flight limit holds |
| TickScheduling.ScheduledTicksAreDeadlines | tools/loadgen/aggregation.ts:176-218 | in an unaborted run scheduledTicks is the number of deadlines before the end, plus one only if a deadline equal to the end was already counted, and equals the lag samples and started plus missed |
| TickScheduling.OutcomesAreCounted | tools/loadgen/aggregation.ts:140-155 | in every run each of the five outcome counts is the number of requests that completed with that outcome |
| SchedulerStop.NextKeepsInvariant | tools/loadgen/aggregation.ts:122-233 | every step of the loop, of a request, of the drain, of the abort and of the race keeps tick, request and report accounting |
| SchedulerStop.DrainDecides | tools/loadgen/aggregation.ts:219-228 | a check of the drain loop reports exactly if nothing is in flight, aborts exactly if something is and the timeout has passed, and changes nothing otherwise |
| SchedulerStop.StopReports | tools/loadgen/aggregation.ts:215-233 | a called stop can be brought to its report from every state |
| SchedulerStop.ReportPassesUnlessGraceSleepWins | tools/loadgen/aggregation.ts:215-233 | in every run the checks pass when the drain empties the in-flight set, or when all aborted requests settle before the grace sleep ends |
| SchedulerStop.ReportAfterGraceSleep | tools/loadgen/aggregation.ts:229-233 | in every run in which the grace sleep wins they throw if and only if some request has been counted and not removed, and then it is the terminal check |
| SchedulerStop.SettledRaceReports | tools/loadgen/aggregation.ts:229-233 | when all aborted requests have left the set, allSettled can win the race, and the report then passes |
| StopMicrotasks.ReportOfQueue | tools/loadgen/aggregation.ts:138-161 | with an instant grace sleep, for every queue of request chains at the abort, the terminal check throws if and only if some chain counts its outcome within the three rounds before the report and is removed later |
| StopMicrotasks.CaughtByDelay | tools/loadgen/aggregation.ts:138-161 | which is so for a send that resolves one or two microtasks after the abort or rejects one microtask after it |
| StopMicrotasks.ReportByDelays | tools/loadgen/aggregation.ts:226-233 | so for all delays of all requests in flight the report fails if and only if one of them settles then |
| StopMicrotasks.QueueIsRun | tools/loadgen/aggregation.ts:138-233 | the microtask queue only takes steps of the stop protocol |
| StopMicrotasks.TerminalCheckCanThrow | tools/loadgen/aggregation.ts:215-233 | a run from the start, through the drain timeout, the abort and the race, whose report throws the terminal error |
| AggregationScheduler.Scheduler.constructor | tools/loadgen/aggregation.ts:96-117 | a new scheduler has counted nothing |
| AggregationScheduler.Scheduler.DispatchTick | tools/loadgen/aggregation.ts:122-162 | one more tick is counted with its own delay as lag sample: as a started request if the requests in flight are below the limit and nothing is aborted, as a miss otherwise; right accounts stay right |
| AggregationScheduler.Scheduler.SkipDueTicks | tools/loadgen/aggregation.ts:200-210 | the catch-up loop takes its lag samples tick by tick |
| AggregationScheduler.Scheduler.LoopOnce | tools/loadgen/aggregation.ts:198-210 | one pass of the loop is the tick step and keeps the invariant |
| AggregationScheduler.Scheduler.AccountTicksMissedAtStop | tools/loadgen/aggregation.ts:164-174 | the loop at the stop counts what MissedCompletes describes |
| AggregationScheduler.Scheduler.ReturnFromLoop | tools/loadgen/aggregation.ts:193-196 | the return after a stop keeps the invariant |
| AggregationScheduler.Scheduler.StopAt | tools/loadgen/aggregation.ts:215-218 | stop records the measured end |
| AggregationScheduler.Scheduler.CountRequest | tools/loadgen/aggregation.ts:140-155 | completed requests and the sum of the five outcome counts grow by one together, and no tick or start is counted |
| AggregationScheduler.Scheduler.RequestCompletes | tools/loadgen/aggregation.ts:140-155 | the outcome handler keeps the invariant |
| AggregationScheduler.Scheduler.RequestIsRemoved | tools/loadgen/aggregation.ts:156-160 | the finally handler keeps the invariant |
| IngestionLoad.CreatedIffCounted | tools/loadgen/workload.ts:113-117 | a batch index is refused exactly when it is outside the row total |
| IngestionLoad.FirstBatchesTile | tools/loadgen/workload.ts:104-132 | the first batches hold the first rows of the range, each exactly once and in order |
| IngestionLoad.AllBatchesCoverAllRows | tools/loadgen/ingestion.ts:121 | all the batches hold all the rows |
| IngestionLoad.SuccessSplitsBatch | tools/loadgen/ingestion.ts:51-76 | a response counts as a success exactly when distinct rejected rows of the batch and the accepted ones make up the batch |
| IngestionLoad.NextKeepsInvariant | tools/loadgen/ingestion.ts:154-225 | every turn and result of every worker keeps the accounting |
| IngestionLoad.DispatchedIsPrefix | tools/loadgen/ingestion.ts:154-175 | at every moment the batches sent are a prefix of the workload and their ordinals the first rows, each once |
| IngestionLoad.AccountingNeverThrows | tools/loadgen/ingestion.ts:78-104 | when the workers have returned the accounting check passes, and without an abort every row was sent |
| IngestionLoad.ConcurrencyIsBounded | tools/loadgen/ingestion.ts:227-229 | never more requests are outstanding than the configured concurrency |
| IngestionLoad.PhaseCompletes | tools/loadgen/ingestion.ts:154-229 | from every state all workers can come to return |
| IngestionLoad.ResultsAreCounted | tools/loadgen/ingestion.ts:187-209 | in every phase the count of each status, of timeouts, transport failures and invalid responses is the number of results of that kind |
| IngestionLoad.Phase.constructor | tools/loadgen/ingestion.ts:121-152 | a new phase has sent nothing |
| IngestionLoad.Phase.SendNextBatch | tools/loadgen/ingestion.ts:157-177 | the rows sent stay exactly the first rows of the range, each once, and become more |
| IngestionLoad.Phase.WorkerTurn | tools/loadgen/ingestion.ts:155-177 | a turn of a worker is its step and keeps the invariant |
| IngestionLoad.Phase.CountResult | tools/loadgen/ingestion.ts:187-209 | requests completed and answers counted grow by one together; an answer that splits the batch puts every row of it under exactly one count |
| IngestionLoad.Phase.ResultArrives | tools/loadgen/ingestion.ts:176-209 | the result of a batch is its step and keeps the invariant |

## Left out

- LogAggregation.RollupIsRawIffRangesCoincide: speaks of bounds that are Date time values and of a service filter that can match a stored log, because no stored log can witness a difference otherwise.
- MinuteRollup.CellIsExact: takes stored timestamps as whole microseconds; for more than six fraction digits PostgreSQL rounds and JavaScript truncates, and the two minutes may differ.
- MinuteRollup.GroupRecordsForAggregation: the collation of `localeCompare` is any comparator; it orders the groups only if it is consistent, and the statement treats its rows as a set.
- InsertParameters.FillDocumentColumns: a JSON document is its value; `JSON.stringify` and its inverse in PostgreSQL are not written out.
- InsertParameters.FillLogColumns: the one loop over the records is two, for the plain columns and for the documents.
- LogAggregation.RollupAnswersWholeMinutes: histories begin when the count table is created, with no stored logs; logs stored before that migration would not be counted.
- RollupRetention.RollupCountsRemovedRows: a removal takes out any set of rows; which partition or which batch of default rows the routine chooses is not modelled, because no choice changes the count table.
- CursorTraversal.WholeTextTraversal: is about rows whose UTC year is 1 to 9999, the ones `to_char` prints with their four-digit year, and version 4 UUIDs; pages with other rows are not covered.
- CursorTraversal.PositionRoundTrip: takes PostgreSQL to read timestamps of up to six fraction digits exactly.
- LogAggregation.AnswerIsExact: an answer is a map from bucket and group to count; the order of its rows and the SQL text around the WHERE clause are not modelled.
- SqlText.ConjunctionParses: reads conditions of the form the builders write, not SQL at large.
- IngestionBatching.InsertNeverPostpones: a timer is its delay and the count of timers set, not a reading of the clock.
- IngestionDraining.RunsDrain: bounds the number of events, not the time; a batch that never settles never drains.
- LogPredicate.PredicateKeepsMeaning: takes `::text`, `::timestamptz` and `::jsonb` conversions of bound values as given; case folding is any function on characters that fixes the backslash, the percent sign and the underscore.
- CursorCodec.EncodeThenDecode: takes UTF-8, `JSON.parse` and SHA-256 as functions of the host with the laws it states.
- CursorCodec.CursorIsBoundToQuery: assumes that the digest separates the two filter texts in question.
- Timestamp.FastPathRefinesComponents: `Date.parse` may return anything for dates that do not exist, and agrees with ECMA-262 for those that do.
- SqlMask.MaskOnlyBlanks: is about text as a sequence of UTF-16 code units without surrogate pairs.
- MigrationPlan.BuildMigrationPlan: the transaction-control expression and UTF-8 decoding are functions of the host.
- MigrationRunner.NextKeepsInvariant: a migration's SQL is an indivisible effect; lock deadlines, sleeps and the connection retry of `runMigrationsWithOwnerRetry` only choose which steps happen and are not modelled.
- PartitionInvariant.NextKeepsInvariant: a partition is known by its UTC day; readers and DDL from outside the preparers are not modelled, and lock deadlines count as failures.
- RetentionScheduling.NextKeepsInvariant: the timer never calls back from inside `schedule`, as `setTimeout` does not; logging cannot fail a run because the code catches it.
- RetentionMaintenance.Run: the SQL routines that create, drop and delete are answers of the host; their effect on the rollup is in `RollupRetention`.
- ServerShutdown.PoolEndsLast: starts at `closeDatabase`; closing the HTTP application before it and the forced exit on a deadline are not modelled.
- TickScheduling.ScheduledTicksAreDeadlines: times are whole clock units, and `stop` is called with the clock's current reading, as the orchestrator does.
- SchedulerStop.NextKeepsInvariant: the stop protocol is on values, because its awaits split `stop` into callbacks of many promises; the object's own methods are in `AggregationScheduler`.
- StopMicrotasks.ReportByDelays: is about a grace sleep that has ended when it is called; a real timer only ends between queue runs, where `ReportAfterGraceSleep` gives the condition.
- IngestionLoad.AccountingNeverThrows: the sender validates its successes with `validateIngestionResponse`; callbacks that throw, latencies and the probe are not modelled.
- HTTP routes, request parsing, configuration, health checks, logging and error translation: one-branch checks or I/O.
- Row mapping of query results, UUID generation and property-descriptor checks: ids are given, distinct numbers.
- Contents of generated workload rows: only their ordinals matter to the accounting.
- Benchmarks, Docker, diagnostics and reports: process orchestration.
