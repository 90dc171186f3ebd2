/**
 list of src/modules/query/log-query-service.ts between its client and the table: cursors travel as the
 codec's texts, row positions as the texts the page statement prints and reads. Following the texts from
 page to page is following the positions.
 */
module CursorTraversal {
  import opened Prelude
  import opened Decimal
  import opened Text
  import opened JsDate
  import opened JsonText
  import opened Timestamp
  import opened LogEntry
  import opened LikePattern
  import opened CursorCodec
  import opened LogPagination

  // ---------------------------------------------------------------- UUIDs as texts

  function HexDigitValue(c: char): nat {
    if '0' <= c <= '9' then (c - '0') as nat else if 'a' <= c <= 'f' then (c - 'a') as nat + 10 else 0
  }

  function Hex(width: nat, n: nat): (s: string)
    ensures |s| == width
  {
    if width == 0 then "" else Hex(width - 1, n / 16) + [HexDigit(n % 16)]
  }

  function HexValue(s: string): nat {
    if s == "" then 0 else 16 * HexValue(s[..|s| - 1]) + HexDigitValue(s[|s| - 1])
  }

  function Pow16(n: nat): (p: nat)
    ensures p >= 1
  {
    if n == 0 then 1 else 16 * Pow16(n - 1)
  }

  lemma {:induction false} HexThenValue(width: nat, n: nat)
    requires n < Pow16(width)
    ensures HexValue(Hex(width, n)) == n
  {
    if width > 0 {
      HexThenValue(width - 1, n / 16);
      assert Hex(width, n)[..width - 1] == Hex(width - 1, n / 16);
    }
  }

  /** `id::text` */
  function UuidText(id: nat): string {
    var h := Hex(32, id);
    h[0..8] + "-" + h[8..12] + "-" + h[12..16] + "-" + h[16..20] + "-" + h[20..32]
  }

  /** `$n::uuid` */
  function UuidOf(text: string): nat {
    if |text| == 36 then HexValue(text[0..8] + text[9..13] + text[14..18] + text[19..23] + text[24..36]) else 0
  }

  lemma UuidRoundTrip(id: nat)
    requires id < Pow16(32)
    ensures UuidOf(UuidText(id)) == id
  {
    hide Hex, HexValue, Pow16;
    var h, text := Hex(32, id), UuidText(id);
    assert text[0..8] == h[0..8] && text[9..13] == h[8..12] && text[14..18] == h[12..16];
    assert text[19..23] == h[16..20] && text[24..36] == h[20..32];
    assert h == h[0..8] + h[8..12] + h[12..16] + h[16..20] + h[20..32];
    HexThenValue(32, id);
  }

  lemma {:induction false} HexAt(width: nat, n: nat, k: nat)
    requires k < width
    ensures Hex(width, n)[k] == HexDigit(n / Pow16(width - 1 - k) % 16)
  {
    if k == width - 1 {
      assert Pow16(0) == 1;
    } else {
      HexAt(width - 1, n / 16, k);
      assert Hex(width, n)[k] == Hex(width - 1, n / 16)[k];
      DivideTwice(n, Pow16(width - 2 - k));
    }
  }

  lemma DivideTwice(n: nat, d: nat)
    requires d > 0
    ensures n / 16 / d == n / (16 * d)
  {
    var q, r := n / 16, n % 16;
    var k, m := q / d, q % d;
    assert n == 16 * q + r && q == d * k + m;
    assert n == (16 * d) * k + (16 * m + r);
    assert 16 * m + r < 16 * d;
    Quotient(n, 16 * d, k, 16 * m + r);
  }

  lemma Quotient(n: nat, d: nat, k: nat, r: nat)
    requires r < d && n == d * k + r
    ensures n / d == k
  {
    var q := n / d;
    assert d * q <= n < d * q + d;
    ProductOrder(d, q + 1, k);
    ProductOrder(d, k + 1, q);
  }

  lemma ProductOrder(d: nat, a: nat, b: nat)
    ensures a <= b ==> d * a <= d * b
  {
  }

  lemma {:induction false} HexIsLower(width: nat, n: nat)
    ensures forall k :: 0 <= k < width ==> IsDigit(Hex(width, n)[k]) || 'a' <= Hex(width, n)[k] <= 'f'
  {
    if width > 0 {
      HexIsLower(width - 1, n / 16);
    }
  }

  /**
   Version 4 of RFC 9562: of its 32 hexadecimal digits the 13th is 4, and the 17th begins with the bits 10.
   */
  lemma UuidV4Iff(id: nat)
    ensures IsUuidV4(UuidText(id)) <==> id / Pow16(19) % 16 == 4 && 8 <= id / Pow16(15) % 16 <= 11
  {
    hide Hex, Pow16;
    var h, text := Hex(32, id), UuidText(id);
    HexIsLower(32, id);
    HexAt(32, id, 12);
    HexAt(32, id, 16);
    assert text[0..8] == h[0..8] && text[9..13] == h[8..12] && text[15..18] == h[13..16];
    assert text[14] == h[12] && text[19] == h[16];
    assert text[20..23] == h[17..20] && text[24..36] == h[20..32];
    assert text[8] == '-' && text[13] == '-' && text[18] == '-' && text[23] == '-';
  }

  predicate AreHexDigits(s: string) {
    forall i :: 0 <= i < |s| ==> '0' <= s[i] <= '9' || 'a' <= s[i] <= 'f'
  }

  lemma DigitThenValue(c: char)
    requires '0' <= c <= '9' || 'a' <= c <= 'f'
    ensures HexDigitValue(c) < 16 && HexDigit(HexDigitValue(c)) == c
  {
  }

  lemma HexOfMore(width: nat, n: nat, digit: nat)
    requires digit < 16
    ensures Hex(width + 1, 16 * n + digit) == Hex(width, n) + [HexDigit(digit)]
  {
    hide HexDigit;
    assert (16 * n + digit) / 16 == n && (16 * n + digit) % 16 == digit;
  }

  lemma {:induction false} ValueThenHex(s: string)
    requires AreHexDigits(s)
    ensures HexValue(s) < Pow16(|s|) && Hex(|s|, HexValue(s)) == s
  {
    hide HexDigit, HexDigitValue, Hex;
    if s == "" {
      assert Hex(0, 0) == "" by { NoHexDigits(); }
    } else {
      var front, last := s[..|s| - 1], s[|s| - 1];
      ValueThenHex(front);
      DigitThenValue(last);
      HexOfMore(|front|, HexValue(front), HexDigitValue(last));
      assert s == front + [last];
    }
  }

  lemma NoHexDigits()
    ensures Hex(0, 0) == ""
  {
  }

  /** Every text the pattern accepts is the text of its number. */
  lemma AcceptedUuidIsText(s: string)
    requires IsUuidV4(s)
    ensures UuidOf(s) < Pow16(32) && UuidText(UuidOf(s)) == s
  {
    hide Hex, HexValue, Pow16;
    var h := s[0..8] + s[9..13] + s[14..18] + s[19..23] + s[24..36];
    UuidDigits(s);
    ValueThenHex(h);
    assert h[0..8] == s[0..8] && h[8..12] == s[9..13] && h[12..16] == s[14..18];
    assert h[16..20] == s[19..23] && h[20..32] == s[24..36];
    assert s == s[0..8] + [s[8]] + s[9..13] + [s[13]] + s[14..18] + [s[18]] + s[19..23] + [s[23]] + s[24..36];
  }

  lemma UuidDigits(s: string)
    requires IsUuidV4(s)
    ensures AreHexDigits(s[0..8] + s[9..13] + s[14..18] + s[19..23] + s[24..36])
  {
    assert AreHexDigits(s[0..8]) && AreHexDigits(s[9..13]) && AreHexDigits(s[15..18]);
    assert AreHexDigits(s[20..23]) && AreHexDigits(s[24..36]);
    assert s[14..18] == [s[14]] + s[15..18] && s[19..23] == [s[19]] + s[20..23];
  }

  // ---------------------------------------------------------------- timestamps as texts

  const MICROS := 1_000_000

  function SecondMsOf(timestamp: int): int {
    timestamp / MICROS * 1000
  }

  /** to_char(..., 'YYYY-MM-DD"T"HH24:MI:SS.US"Z"') for a year from 1 to 9999. */
  function RowTimestampText(timestamp: int): string {
    SecondText(FieldsOf(SecondMsOf(timestamp))) + "." + Digits(6, timestamp % MICROS) + "Z"
  }

  predicate HasPrintedYear(timestamp: int) {
    1 <= FieldsOf(SecondMsOf(timestamp)).year <= 9999
  }

  /** `$n::timestamptz`: the microseconds PostgreSQL reads, or nothing where the cast fails. */
  type ReadTimestamp = string -> Option<int>

  function MicrosOf(p: ParsedTimestamp): int
    requires AllDigits(p.fraction) && |p.fraction| <= 6
  {
    p.wholeSecondMs * 1000 + NumberOf(Padded(p.fraction))
  }

  function Padded(fraction: string): (s: string)
    requires AllDigits(fraction)
    ensures AllDigits(s)
  {
    PadKeepsValue(fraction, 6);
    PadEnd(fraction, 6, '0')
  }

  predicate IsShortTimestamp(text: string) {
    var r := ParseComponents(text);
    r.Accepted? && AllDigits(r.value.fraction) && |r.value.fraction| <= 6 && 1 <= UtcFields(r.value).year <= 9999
  }

  /** Up to six digits of a second are read exactly. */
  ghost predicate IsReadTimestamp(read: ReadTimestamp) {
    forall text :: IsShortTimestamp(text) ==> read(text) == Some(MicrosOf(ParseComponents(text).value))
  }

  lemma RowTextParses(timestamp: int)
    requires HasPrintedYear(timestamp)
    ensures var r := ParseComponents(RowTimestampText(timestamp));
            && r.Accepted? && r.value.wholeSecondMs == SecondMsOf(timestamp)
            && r.value.fraction == Digits(6, timestamp % MICROS)
  {
    hide FieldsOf, TimeOf, SecondText, Digits, MatchSuffix, ReadFields, HasDateTimeShape, FormatCanonicalFraction;
    hide ToIso, StripZeroMilliseconds;
    var second, fraction := SecondMsOf(timestamp), Digits(6, timestamp % MICROS);
    var f, suffix := FieldsOf(second), "." + fraction + "Z";
    SecondTextOfTime(second);
    FieldsThenTime(second);
    ReadFieldsOfText(f, suffix);
    FractionSuffixMatches(fraction);
    assert RowTimestampText(timestamp) == SecondText(f) + suffix;
  }

  lemma TrimmedDigits(digits: string)
    requires AllDigits(digits) && |digits| == 6
    ensures var c := FormatCanonicalFraction(digits); |c| <= 6 && AllDigits(c) && Padded(c) == digits
  {
    hide FractionValue, TrimTrailingZeros;
    FormatKeepsValue(digits);
    assert PadEnd(digits, 3, '0') == digits;
    TrimmedZeros(digits[3..]);
    var zeros: string :| digits[3..] == TrimTrailingZeros(digits[3..]) + zeros
                         && forall i :: 0 <= i < |zeros| ==> zeros[i] == '0';
    var c := FormatCanonicalFraction(digits);
    assert digits == c + zeros;
    assert Repeat('0', |zeros|) == zeros;
  }

  /** The position a row is printed with is read back as the row's own microsecond. */
  lemma RowTextRoundTrip(host: Host, read: ReadTimestamp, timestamp: int)
    requires IsDateParse(host.dateParse) && IsReadTimestamp(read) && HasPrintedYear(timestamp)
    ensures var r := ParseCanonicalTimestamp(host.dateParse, RowTimestampText(timestamp));
            && r.Accepted? && IsCanonicalTimestamp(host, r.value.canonical)
            && read(r.value.canonical) == Some(timestamp)
  {
    hide ParseComponents, ParseCanonicalTimestamp, IsDateParse, FormatCanonicalFraction, FieldsOf, Digits, Padded;
    hide RowTimestampText, IsCanonicalTimestamp, NumberOf;
    var text := RowTimestampText(timestamp);
    var digits := Digits(6, timestamp % MICROS);
    RowTextParses(timestamp);
    var p := ParseComponents(text).value;
    ParserIsComponentPath(host.dateParse, text);
    CanonicalTextsArePositions(host, text, p);
    ReparseIsFixpointIffFourDigitYear(text, p);
    TrimmedDigits(digits);
    assert IsShortTimestamp(p.canonical);
    assert NumberOf(digits) == timestamp % MICROS by {
      assert Pow10(6) == MICROS;
      DigitsThenNumber(6, timestamp % MICROS);
    }
  }

  // ---------------------------------------------------------------- positions as texts

  /** mapRow: the position of a row as the response shows it, or nothing where it throws. */
  function PositionOf(host: Host, key: Key): Option<Position> {
    var parsed := ParseCanonicalTimestamp(host.dateParse, RowTimestampText(key.timestamp));
    if IsUuidV4(UuidText(key.id)) && parsed.Accepted? then Some(Position(parsed.value.canonical, UuidText(key.id)))
    else None
  }

  /** The keyset the statement compares with, or nothing where the cast fails. */
  function KeyOfPosition(read: ReadTimestamp, position: Position): Option<Key> {
    var timestamp := read(position.timestamp);
    if timestamp.Some? then Some(Key(timestamp.value, UuidOf(position.id))) else None
  }

  /** Rows with a year PostgreSQL prints with four digits and a version 4 UUID. */
  predicate IsPrintable(key: Key) {
    HasPrintedYear(key.timestamp) && key.id < Pow16(32) && IsUuidV4(UuidText(key.id))
  }

  ghost predicate IsPlatform(host: Host, read: ReadTimestamp) {
    Conforms(host) && IsDateParse(host.dateParse) && IsReadTimestamp(read)
  }

  lemma PositionRoundTrip(host: Host, read: ReadTimestamp, key: Key)
    requires IsPlatform(host, read) && IsPrintable(key)
    ensures var position := PositionOf(host, key);
            && position.Some? && IsPosition(host, position.value)
            && KeyOfPosition(read, position.value) == Some(key)
  {
    hide UuidText, UuidOf, IsUuidV4, RowTimestampText, ParseCanonicalTimestamp, IsCanonicalTimestamp;
    hide Conforms, IsDateParse, IsReadTimestamp, HasPrintedYear, Pow16;
    RowTextRoundTrip(host, read, key.timestamp);
    UuidRoundTrip(key.id);
  }

  // ---------------------------------------------------------------- one request

  /** A parsed query: its filters as the statement binds them and as the codec fingerprints them. */
  datatype ListQuery = ListQuery(filters: Filters, shown: CursorFilters)

  datatype Reply = Page(logs: seq<Log>, nextCursor: Option<string>) | InvalidCursor | InternalError

  function CursorText(host: Host, query: ListQuery, key: Key): Option<string> {
    var position := PositionOf(host, key);
    if position.Some? then Some(EncodeLogCursor(host, position.value, query.shown)) else None
  }

  function FindAndShow(host: Host, fold: Folding, query: ListQuery,
                       limit: nat, cursor: Option<Key>, table: Table): Reply
  {
    var page := FindPage(fold, query.filters, limit, cursor, table);
    if exists log :: log in page && PositionOf(host, KeyOfLog(log)).None? then InternalError else
    var r := List(fold, query.filters, limit, cursor, table);
    Page(r.logs, if r.nextCursor.Some? then CursorText(host, query, r.nextCursor.value) else None)
  }

  /** `list`, from the cursor's text to the text of the next cursor. */
  function Serve(host: Host, read: ReadTimestamp, fold: Folding, query: ListQuery,
                 limit: nat, cursor: Option<string>, table: Table): Reply
  {
    if cursor.None? then FindAndShow(host, fold, query, limit, None, table) else
    var position := DecodeLogCursor(host, cursor.value, query.shown);
    if position.None? then InvalidCursor else
    var key := KeyOfPosition(read, position.value);
    if key.None? then InternalError else FindAndShow(host, fold, query, limit, key, table)
  }

  /** What the client gets to see for a response that points to a key. */
  function Shown(host: Host, query: ListQuery, r: Response): Reply {
    Page(r.logs, if r.nextCursor.Some? then CursorText(host, query, r.nextCursor.value) else None)
  }

  function OptionalText(host: Host, query: ListQuery, cursor: Option<Key>): Option<string> {
    if cursor.Some? then CursorText(host, query, cursor.value) else None
  }

  ghost predicate IsPrintableTable(table: Table) {
    IsTable(table) && forall log :: log in table ==> IsPrintable(KeyOfLog(log))
  }

  lemma PageComesFromTable(fold: Folding, filters: Filters, limit: nat, cursor: Option<Key>, table: Table)
    requires KeepsSpecials(fold) && IsTable(table)
    ensures forall log :: log in FindPage(fold, filters, limit, cursor, table) ==> log in table
  {
    hide SelectWhere, OrderDescending, IsWanted;
    WantedRowsAreOrdered(fold, filters, limit, cursor, table);
  }

  lemma TableIsShown(host: Host, read: ReadTimestamp, fold: Folding, query: ListQuery,
                     limit: nat, cursor: Option<Key>, table: Table)
    requires IsPlatform(host, read) && KeepsSpecials(fold) && IsPrintableTable(table)
    ensures FindAndShow(host, fold, query, limit, cursor, table)
         == Shown(host, query, List(fold, query.filters, limit, cursor, table))
  {
    hide FindPage, List, PositionOf, IsPrintable, IsPlatform, CursorText;
    PageComesFromTable(fold, query.filters, limit, cursor, table);
    forall log | log in FindPage(fold, query.filters, limit, cursor, table)
      ensures PositionOf(host, KeyOfLog(log)).Some?
    {
      PositionRoundTrip(host, read, KeyOfLog(log));
    }
  }

  /** A request with the text of a printable position is the request with that position. */
  lemma ServeIsList(host: Host, read: ReadTimestamp, fold: Folding, query: ListQuery,
                    limit: nat, cursor: Option<Key>, table: Table)
    requires IsPlatform(host, read) && KeepsSpecials(fold) && IsPrintableTable(table)
    requires cursor.Some? ==> IsPrintable(cursor.value)
    ensures Serve(host, read, fold, query, limit, OptionalText(host, query, cursor), table)
         == Shown(host, query, List(fold, query.filters, limit, cursor, table))
    ensures cursor.Some? ==> OptionalText(host, query, cursor).Some?
  {
    hide FindAndShow, Shown, List, PositionOf, KeyOfPosition, IsPrintable, IsPrintableTable, IsPosition;
    hide EncodeLogCursor, DecodeLogCursor, IsDateParse, IsReadTimestamp, Conforms;
    TableIsShown(host, read, fold, query, limit, cursor, table);
    if cursor.Some? {
      PositionRoundTrip(host, read, cursor.value);
      EncodeThenDecode(host, PositionOf(host, cursor.value).value, query.shown);
    }
  }

  // ---------------------------------------------------------------- following the texts

  /** Request page after page, passing each next_cursor text on, until one is null or a request fails. */
  function TraverseTexts(host: Host, read: ReadTimestamp, fold: Folding, query: ListQuery,
                         visits: seq<Visit>, cursor: Option<string>): seq<Reply>
  {
    if visits == [] then [] else
    var first := Serve(host, read, fold, query, visits[0].limit, cursor, visits[0].table);
    [first] + if !first.Page? || first.nextCursor.None? then []
              else TraverseTexts(host, read, fold, query, visits[1..], first.nextCursor)
  }

  function AllShown(host: Host, query: ListQuery, responses: seq<Response>): seq<Reply> {
    seq(|responses|, i requires 0 <= i < |responses| => Shown(host, query, responses[i]))
  }

  ghost predicate ArePrintable(visits: seq<Visit>) {
    forall v :: v in visits ==> IsPrintableTable(v.table) && v.limit >= 1
  }

  lemma NextIsPrintable(fold: Folding, filters: Filters, limit: nat, cursor: Option<Key>, table: Table)
    requires KeepsSpecials(fold) && IsPrintableTable(table) && limit >= 1
    ensures var next := List(fold, filters, limit, cursor, table).nextCursor;
            next.Some? ==> IsPrintable(next.value)
  {
    hide List, IsPrintable, Matches, InWindow;
    PageIsWindow(fold, filters, limit, cursor, table);
    var r := List(fold, filters, limit, cursor, table);
    if r.nextCursor.Some? {
      assert r.logs[|r.logs| - 1] in r.logs;
    }
  }

  /** Following the texts gives, page by page, what following the positions gives. */
  lemma {:induction false} TextsFollowPositions(host: Host, read: ReadTimestamp, fold: Folding, query: ListQuery,
                                                visits: seq<Visit>, cursor: Option<Key>)
    requires IsPlatform(host, read) && KeepsSpecials(fold) && ArePrintable(visits)
    requires cursor.Some? ==> IsPrintable(cursor.value)
    ensures TraverseTexts(host, read, fold, query, visits, OptionalText(host, query, cursor))
         == AllShown(host, query, Traverse(fold, query.filters, visits, cursor))
    decreases |visits|
  {
    hide Serve, List, IsPrintable, IsPlatform, IsPrintableTable, CursorText;
    if visits != [] {
      var v := visits[0];
      assert v in visits;
      ServeIsList(host, read, fold, query, v.limit, cursor, v.table);
      NextIsPrintable(fold, query.filters, v.limit, cursor, v.table);
      var first := List(fold, query.filters, v.limit, cursor, v.table);
      if first.nextCursor.Some? {
        ServeIsList(host, read, fold, query, v.limit, first.nextCursor, v.table);
        TextsFollowPositions(host, read, fold, query, visits[1..], first.nextCursor);
      }
    }
  }

  function LogsOf(replies: seq<Reply>): seq<Log> {
    if replies == [] then [] else (if replies[0].Page? then replies[0].logs else []) + LogsOf(replies[1..])
  }

  lemma {:induction false} ShownLogs(host: Host, query: ListQuery, responses: seq<Response>)
    ensures LogsOf(AllShown(host, query, responses)) == AllLogs(responses)
  {
    if responses != [] {
      ShownLogs(host, query, responses[1..]);
      assert AllShown(host, query, responses)[1..] == AllShown(host, query, responses[1..]);
    }
  }

  /** The last page had no next cursor. */
  predicate IsFinished(replies: seq<Reply>) {
    replies != [] && replies[|replies| - 1].Page? && replies[|replies| - 1].nextCursor.None?
  }

  lemma FinishedTexts(host: Host, read: ReadTimestamp, fold: Folding, query: ListQuery, visits: seq<Visit>)
    requires IsPlatform(host, read) && KeepsSpecials(fold) && ArePrintable(visits)
    requires IsFinished(TraverseTexts(host, read, fold, query, visits, None))
    ensures ReachedEnd(Traverse(fold, query.filters, visits, None))
  {
    hide Traverse, TraverseTexts, IsPlatform, IsPrintable, CursorText;
    TextsFollowPositions(host, read, fold, query, visits, None);
    LastIsShown(host, read, fold, query, visits, None);
  }

  lemma {:induction false} LastIsShown(host: Host, read: ReadTimestamp, fold: Folding, query: ListQuery,
                                       visits: seq<Visit>, cursor: Option<Key>)
    requires IsPlatform(host, read) && KeepsSpecials(fold) && ArePrintable(visits)
    ensures forall r :: r in Traverse(fold, query.filters, visits, cursor) && r.nextCursor.Some? ==>
              Shown(host, query, r).nextCursor.Some?
    decreases |visits|
  {
    hide List, IsPrintable, IsPlatform, IsPrintableTable, PositionOf;
    if visits != [] {
      var v := visits[0];
      assert v in visits;
      NextIsPrintable(fold, query.filters, v.limit, cursor, v.table);
      var first := List(fold, query.filters, v.limit, cursor, v.table);
      if first.nextCursor.Some? {
        PositionRoundTrip(host, read, first.nextCursor.value);
        LastIsShown(host, read, fold, query, visits[1..], first.nextCursor);
      }
    }
  }

  /**
   Following next_cursor texts from the first page to null, while rows come and go and each page has its
   own limit: no request fails, keys descend strictly across all pages, no row comes twice, and every
   matching row present at all requests comes exactly once.
   */
  lemma WholeTextTraversal(host: Host, read: ReadTimestamp, fold: Folding, query: ListQuery, visits: seq<Visit>)
    requires IsPlatform(host, read) && KeepsSpecials(fold) && ArePrintable(visits)
    ensures var replies := TraverseTexts(host, read, fold, query, visits, None);
            var logs := LogsOf(replies);
            && (forall reply :: reply in replies ==> reply.Page?)
            && Descending(logs) && (forall log :: multiset(logs)[log] <= 1)
            && (IsFinished(replies) ==>
                  forall log ::
                    && Matches(fold, query.filters, log)
                    && (forall i :: 0 <= i < |replies| && i < |visits| ==> log in visits[i].table)
                    ==> multiset(logs)[log] == 1)
  {
    hide Matches, Traverse, TraverseTexts, AllLogs, LogsOf, CursorText, IsPlatform, IsPrintable;
    TextsFollowPositions(host, read, fold, query, visits, None);
    WholeTraversal(fold, query.filters, visits);
    ShownLogs(host, query, Traverse(fold, query.filters, visits, None));
    if IsFinished(TraverseTexts(host, read, fold, query, visits, None)) {
      FinishedTexts(host, read, fold, query, visits);
    }
  }

  /** The next_cursor of a page is refused for every other query, as long as the digest tells the two apart. */
  lemma CursorOfOtherQueryIsRefused(host: Host, read: ReadTimestamp, fold: Folding, query: ListQuery, other: ListQuery,
                                    key: Key, limit: nat, table: Table)
    requires IsPlatform(host, read) && IsPrintable(key) && !SameQuery(query.shown, other.shown)
    requires
      FilterFingerprint(host, query.shown) == FilterFingerprint(host, other.shown) ==>
        CanonicalFilterJson(query.shown) == CanonicalFilterJson(other.shown)
    ensures Serve(host, read, fold, other, limit, CursorText(host, query, key), table) == InvalidCursor
  {
    hide EncodeLogCursor, DecodeLogCursor, CanonicalFilterJson, SameQuery, PositionOf, IsPrintable, IsPosition;
    hide FindAndShow, Conforms, IsDateParse, IsReadTimestamp, FilterFingerprint;
    PositionRoundTrip(host, read, key);
    CursorIsBoundToQuery(host, PositionOf(host, key).value, query.shown, other.shown);
  }
}
