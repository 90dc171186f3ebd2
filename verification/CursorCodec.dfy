/**
 src/modules/query/cursor-codec.ts: a position and the fingerprint of the filters become an opaque text,
 and a text is accepted only if it is exactly the one the encoder would have produced.
 */
module CursorCodec {
  import opened Prelude
  import opened Decimal
  import opened Text
  import opened JsonText
  import opened LogEntry
  import opened Sorting
  import opened Timestamp
  import B64 = Base64Url

  /** The parts of the platform the codec calls and that are not written out here. */
  datatype Host = Host(
    utf8Encode: string -> seq<B64.Byte>,
    utf8Decode: seq<B64.Byte> -> Option<string>,   // fatal: nothing on malformed input
    jsonParse: string -> Option<Candidate>,        // nothing on a syntax error
    sha256Hex: string -> string,
    dateParse: DateParse)

  /** A JSON value, as far as the codec looks: its text tells numbers and other values apart. */
  datatype Json = Number(text: string) | String(value: string) | Other(text: string)

  datatype Candidate = Object(members: map<string, Json>) | NotAnObject

  // ---------------------------------------------------------------- filters in canonical form

  datatype CursorFilters = CursorFilters(service: Option<string>, level: Option<string>,
                                         since: Option<string>, until: Option<string>,
                                         attributes: seq<AttributeFilter>, q: Option<string>)

  function CompareAttributes(left: AttributeFilter, right: AttributeFilter): Order {
    var byKey := CompareText(left.key, right.key);
    if byKey == Equal then CompareText(left.value, right.value) else byKey
  }

  lemma CompareAttributesTotal(a: AttributeFilter, b: AttributeFilter)
    ensures CompareAttributes(a, b) == Equal <==> a == b
    ensures CompareAttributes(b, a) == Flip(CompareAttributes(a, b))
  {
    CompareTextTotal(a.key, b.key);
    CompareTextTotal(a.value, b.value);
  }

  lemma CompareAttributesTransitive(a: AttributeFilter, b: AttributeFilter, c: AttributeFilter)
    requires CompareAttributes(a, b) != Greater && CompareAttributes(b, c) != Greater
    ensures CompareAttributes(a, c) != Greater
  {
    hide CompareText;
    CompareTextTotal(a.key, b.key);
    CompareTextTotal(b.key, c.key);
    CompareTextTransitive(a.key, b.key, c.key);
    CompareTextTotal(a.key, c.key);
    if a.key == b.key == c.key {
      CompareTextTransitive(a.value, b.value, c.value);
    }
  }

  function Sign(order: Order): int {
    match order
    case Less => -1
    case Equal => 0
    case Greater => 1
  }

  function ByKeyThenValue(): Comparator<AttributeFilter> {
    (left: AttributeFilter, right: AttributeFilter) => Sign(CompareAttributes(left, right))
  }

  /** `[...attributes].sort(compareAttributes)` */
  function Sorted(attributes: seq<AttributeFilter>): seq<AttributeFilter> {
    Sort(ByKeyThenValue(), attributes)
  }

  predicate IsSorted(s: seq<AttributeFilter>) {
    forall i, j :: 0 <= i < j < |s| ==> CompareAttributes(s[i], s[j]) != Greater
  }

  lemma AttributesCompareConsistently()
    ensures IsConsistent(ByKeyThenValue())
  {
    hide CompareAttributes;
    var compare := ByKeyThenValue();
    forall a, b ensures compare(a, b) < 0 <==> compare(b, a) > 0 {
      CompareAttributesTotal(a, b);
    }
    forall a, b, c | compare(a, b) <= 0 && compare(b, c) <= 0 ensures compare(a, c) <= 0 {
      CompareAttributesTransitive(a, b, c);
    }
  }

  lemma SortedIsSorted(attributes: seq<AttributeFilter>)
    ensures IsSorted(Sorted(attributes)) && multiset(Sorted(attributes)) == multiset(attributes)
  {
    hide CompareAttributes, Sort, IsConsistent;
    AttributesCompareConsistently();
    SortKeepsItems(ByKeyThenValue(), attributes);
    SortOrders(ByKeyThenValue(), attributes);
    var sorted := Sorted(attributes);
    forall i, j | 0 <= i < j < |sorted| ensures CompareAttributes(sorted[i], sorted[j]) != Greater {
      assert ByKeyThenValue()(sorted[i], sorted[j]) <= 0;
    }
  }

  lemma HeadsAgree(s: seq<AttributeFilter>, t: seq<AttributeFilter>)
    requires s != [] && IsSorted(s) && IsSorted(t) && multiset(s) == multiset(t)
    ensures t != [] && s[0] == t[0]
  {
    hide CompareAttributes;
    assert s[0] in multiset(s) && s[0] in t;
    assert t[0] in multiset(t) && t[0] in s;
    var i :| 0 <= i < |t| && t[i] == s[0];
    var j :| 0 <= j < |s| && s[j] == t[0];
    CompareAttributesTotal(s[0], t[0]);
  }

  lemma MultisetTail(s: seq<AttributeFilter>)
    requires s != []
    ensures multiset(s[1..]) == multiset(s) - multiset{s[0]}
  {
    assert s == [s[0]] + s[1..];
  }

  lemma {:induction false} SortedIsUnique(s: seq<AttributeFilter>, t: seq<AttributeFilter>)
    requires IsSorted(s) && IsSorted(t) && multiset(s) == multiset(t)
    ensures s == t
  {
    hide CompareAttributes;
    if s == [] {
      assert |multiset(t)| == 0;
    } else {
      HeadsAgree(s, t);
      MultisetTail(s);
      MultisetTail(t);
      SortedIsUnique(s[1..], t[1..]);
      assert s == [s[0]] + s[1..] && t == [t[0]] + t[1..];
    }
  }

  function Pairs(attributes: seq<AttributeFilter>): seq<(string, string)> {
    seq(|attributes|, i requires 0 <= i < |attributes| => (attributes[i].key, attributes[i].value))
  }

  /** An empty search text counts as none. */
  function SearchText(q: Option<string>): Option<string> {
    if q.None? || q.value == "" then None else q
  }

  const CURSOR_SEMANTICS := "logstream.cursor.timestamp-desc-id-desc.v1"

  /** `canonicalFilterJson` */
  function CanonicalFilterJson(f: CursorFilters): string {
    "{\"semantics\":" + (Quote(CURSOR_SEMANTICS) + (",\"service\":" + (OptionText(f.service)
    + (",\"level\":" + (OptionText(f.level) + (",\"since\":" + (OptionText(f.since)
    + (",\"until\":" + (OptionText(f.until) + (",\"q\":" + (OptionText(SearchText(f.q))
    + (",\"attributes\":[" + (PairsText(Pairs(Sorted(f.attributes))) + "}")))))))))))))
  }

  /** The same query up to the order of attributes and an empty search text. */
  predicate SameQuery(f: CursorFilters, g: CursorFilters) {
    && f.service == g.service && f.level == g.level && f.since == g.since && f.until == g.until
    && (f.q == g.q || ((f.q.None? || f.q.value == "") && (g.q.None? || g.q.value == "")))
    && multiset(f.attributes) == multiset(g.attributes)
  }

  lemma FieldSplits(name: string, o: Option<string>, x: string, p: Option<string>, y: string)
    requires name + (OptionText(o) + x) == name + (OptionText(p) + y)
    ensures o == p && x == y
  {
    hide OptionText;
    PrefixCancels(name, OptionText(o) + x, OptionText(p) + y);
    OptionSplits(o, x, p, y);
  }

  lemma CanonicalFieldsSplit(f: CursorFilters, g: CursorFilters)
    requires CanonicalFilterJson(f) == CanonicalFilterJson(g)
    ensures f.service == g.service && f.level == g.level && f.since == g.since && f.until == g.until
    ensures SearchText(f.q) == SearchText(g.q)
    ensures PairsText(Pairs(Sorted(f.attributes))) + "}" == PairsText(Pairs(Sorted(g.attributes))) + "}"
  {
    hide OptionText, Quote, PairsText, Sorted, Pairs, SearchText;
    var a, b := PairsText(Pairs(Sorted(f.attributes))) + "}", PairsText(Pairs(Sorted(g.attributes))) + "}";
    var a5, b5 := ",\"attributes\":[" + a, ",\"attributes\":[" + b;
    var a4, b4 := ",\"q\":" + (OptionText(SearchText(f.q)) + a5), ",\"q\":" + (OptionText(SearchText(g.q)) + b5);
    var a3, b3 := ",\"until\":" + (OptionText(f.until) + a4), ",\"until\":" + (OptionText(g.until) + b4);
    var a2, b2 := ",\"since\":" + (OptionText(f.since) + a3), ",\"since\":" + (OptionText(g.since) + b3);
    var a1, b1 := ",\"level\":" + (OptionText(f.level) + a2), ",\"level\":" + (OptionText(g.level) + b2);
    var a0, b0 := ",\"service\":" + (OptionText(f.service) + a1), ",\"service\":" + (OptionText(g.service) + b1);
    PrefixCancels("{\"semantics\":", Quote(CURSOR_SEMANTICS) + a0, Quote(CURSOR_SEMANTICS) + b0);
    PrefixCancels(Quote(CURSOR_SEMANTICS), a0, b0);
    FieldSplits(",\"service\":", f.service, a1, g.service, b1);
    FieldSplits(",\"level\":", f.level, a2, g.level, b2);
    FieldSplits(",\"since\":", f.since, a3, g.since, b3);
    FieldSplits(",\"until\":", f.until, a4, g.until, b4);
    FieldSplits(",\"q\":", SearchText(f.q), a5, SearchText(g.q), b5);
    PrefixCancels(",\"attributes\":[", a, b);
  }

  lemma PairsOfSorted(s: seq<AttributeFilter>, t: seq<AttributeFilter>)
    requires Pairs(s) == Pairs(t)
    ensures s == t
  {
    assert |s| == |Pairs(s)| == |Pairs(t)| == |t|;
    forall i | 0 <= i < |s| ensures s[i] == t[i] {
      assert Pairs(s)[i] == Pairs(t)[i];
    }
  }

  lemma SameSearch(p: Option<string>, q: Option<string>)
    ensures SearchText(p) == SearchText(q) <==>
              p == q || ((p.None? || p.value == "") && (q.None? || q.value == ""))
  {
  }

  /** The canonical filter text is equal exactly for the same query. */
  lemma CanonicalFormIsExact(f: CursorFilters, g: CursorFilters)
    ensures CanonicalFilterJson(f) == CanonicalFilterJson(g) <==> SameQuery(f, g)
  {
    hide OptionText, Quote, PairsText, Sorted, Pairs, SearchText;
    SortedIsSorted(f.attributes);
    SortedIsSorted(g.attributes);
    SameSearch(f.q, g.q);
    if CanonicalFilterJson(f) == CanonicalFilterJson(g) {
      CanonicalFieldsSplit(f, g);
      var a, b := PairsText(Pairs(Sorted(f.attributes))), PairsText(Pairs(Sorted(g.attributes)));
      assert (a + "}")[..|a + "}"| - 1] == a && (b + "}")[..|b + "}"| - 1] == b;
      PairsInjective(Pairs(Sorted(f.attributes)), Pairs(Sorted(g.attributes)));
      PairsOfSorted(Sorted(f.attributes), Sorted(g.attributes));
    } else if SameQuery(f, g) {
      SortedIsUnique(Sorted(f.attributes), Sorted(g.attributes));
    }
  }

  // ---------------------------------------------------------------- encoding and decoding

  function FilterFingerprint(host: Host, f: CursorFilters): string {
    host.sha256Hex(CanonicalFilterJson(f))
  }

  function JsonOf(value: Json): string {
    match value
    case Number(text) => text
    case String(s) => Quote(s)
    case Other(text) => text
  }

  function PayloadJson(version: Json, timestamp: Json, id: Json, fingerprint: Json): string {
    "{\"version\":" + JsonOf(version) + ",\"timestamp\":" + JsonOf(timestamp)
    + ",\"id\":" + JsonOf(id) + ",\"filterFingerprint\":" + JsonOf(fingerprint) + "}"
  }

  datatype Position = Position(timestamp: string, id: string)

  predicate IsLowerHex(s: string) {
    forall i :: 0 <= i < |s| ==> IsDigit(s[i]) || 'a' <= s[i] <= 'f'
  }

  /** `/^[0-9a-f]{8}-[0-9a-f]{4}-4[0-9a-f]{3}-[89ab][0-9a-f]{3}-[0-9a-f]{12}$/` */
  predicate IsUuidV4(s: string) {
    && |s| == 36
    && IsLowerHex(s[0..8]) && s[8] == '-' && IsLowerHex(s[9..13]) && s[13] == '-'
    && s[14] == '4' && IsLowerHex(s[15..18]) && s[18] == '-'
    && s[19] in {'8', '9', 'a', 'b'} && IsLowerHex(s[20..23]) && s[23] == '-' && IsLowerHex(s[24..36])
  }

  predicate IsSha256Hex(s: string) {
    |s| == 64 && IsLowerHex(s)
  }

  predicate IsCanonicalTimestamp(host: Host, s: string) {
    var parsed := ParseCanonicalTimestamp(host.dateParse, s);
    parsed.Accepted? && parsed.value.canonical == s
  }

  function PayloadText(host: Host, position: Position, f: CursorFilters): string {
    PayloadJson(Number("1"), String(position.timestamp), String(position.id), String(FilterFingerprint(host, f)))
  }

  function EncodeLogCursor(host: Host, position: Position, f: CursorFilters): string {
    B64.Encode(host.utf8Encode(PayloadText(host, position, f)))
  }

  const PAYLOAD_KEYS := {"version", "timestamp", "id", "filterFingerprint"}

  /** The position in an accepted cursor, or nothing when the cursor is invalid. */
  function DecodeLogCursor(host: Host, cursor: string, f: CursorFilters): Option<Position> {
    if cursor == "" || !B64.InAlphabet(cursor) then None else
    var bytes := B64.Decode(cursor);
    if B64.Encode(bytes) != cursor then None else
    var json := host.utf8Decode(bytes);
    if json.None? || host.utf8Encode(json.value) != bytes then None else
    var candidate := host.jsonParse(json.value);
    if candidate.None? || candidate.value.NotAnObject? || candidate.value.members.Keys != PAYLOAD_KEYS then None else
    DecodePayload(host, json.value, candidate.value.members, f)
  }

  function DecodePayload(host: Host, json: string, members: map<string, Json>, f: CursorFilters): Option<Position>
    requires members.Keys == PAYLOAD_KEYS
  {
    var version, timestamp := members["version"], members["timestamp"];
    var id, fingerprint := members["id"], members["filterFingerprint"];
    if PayloadJson(version, timestamp, id, fingerprint) != json then None
    else if version != Number("1") || !timestamp.String? || !id.String? || !fingerprint.String? then None
    else if !IsUuidV4(id.value) || !IsSha256Hex(fingerprint.value) then None
    else if !IsCanonicalTimestamp(host, timestamp.value) then None
    else if fingerprint.value != FilterFingerprint(host, f) then None
    else Some(Position(timestamp.value, id.value))
  }

  function PayloadMembers(timestamp: string, id: string, fingerprint: string): map<string, Json> {
    map["version" := Number("1"), "timestamp" := String(timestamp), "id" := String(id),
        "filterFingerprint" := String(fingerprint)]
  }

  /** A JSON object as JSON.stringify prints it. */
  function MembersText(members: seq<(string, Json)>): string {
    if members == [] then ""
    else Quote(members[0].0) + ":" + JsonOf(members[0].1)
         + if |members| == 1 then "" else "," + MembersText(members[1..])
  }

  function MembersOf(members: seq<(string, Json)>): map<string, Json> {
    if members == [] then map[]
    else MembersOf(members[..|members| - 1])[members[|members| - 1].0 := members[|members| - 1].1]
  }

  predicate ArePrintable(members: seq<(string, Json)>) {
    forall i :: 0 <= i < |members| ==> members[i].1.String? || members[i].1 == Number("1")
  }

  /** UTF-8 decoding undoes encoding, JSON parsing undoes printing an object, a digest is 64 hex digits. */
  ghost predicate Conforms(host: Host) {
    && (forall s :: host.utf8Decode(host.utf8Encode(s)) == Some(s))
    && (forall s :: s != "" ==> host.utf8Encode(s) != [])
    && (forall members :: ArePrintable(members) ==>
          host.jsonParse("{" + MembersText(members) + "}") == Some(Object(MembersOf(members))))
    && (forall s :: IsSha256Hex(host.sha256Hex(s)))
  }

  predicate IsPosition(host: Host, position: Position) {
    IsCanonicalTimestamp(host, position.timestamp) && IsUuidV4(position.id)
  }

  function PayloadList(t: string, i: string, p: string): seq<(string, Json)> {
    [("version", Number("1")), ("timestamp", String(t)), ("id", String(i)), ("filterFingerprint", String(p))]
  }

  lemma FourMembers(a: (string, Json), b: (string, Json), c: (string, Json), d: (string, Json))
    ensures MembersText([a, b, c, d])
         == Quote(a.0) + ":" + JsonOf(a.1) + ("," + (Quote(b.0) + ":" + JsonOf(b.1) + ("," +
              (Quote(c.0) + ":" + JsonOf(c.1) + ("," + (Quote(d.0) + ":" + JsonOf(d.1)))))))
    ensures MembersOf([a, b, c, d]) == map[][a.0 := a.1][b.0 := b.1][c.0 := c.1][d.0 := d.1]
  {
    hide Quote, JsonOf;
    var last := Quote(d.0) + ":" + JsonOf(d.1);
    assert last + "" == last;
    assert [d][1..] == [] && [c, d][1..] == [d] && [b, c, d][1..] == [c, d] && [a, b, c, d][1..] == [b, c, d];
    assert [a][..0] == [] && [a, b][..1] == [a] && [a, b, c][..2] == [a, b] && [a, b, c, d][..3] == [a, b, c];
    assert MembersText([d]) == last;
    assert MembersText([c, d]) == Quote(c.0) + ":" + JsonOf(c.1) + ("," + last);
    assert MembersText([b, c, d]) == Quote(b.0) + ":" + JsonOf(b.1) + ("," + MembersText([c, d]));
    assert MembersOf([]) == map[];
    assert MembersOf([a]) == map[][a.0 := a.1];
    assert MembersOf([a, b]) == map[][a.0 := a.1][b.0 := b.1];
    assert MembersOf([a, b, c]) == map[][a.0 := a.1][b.0 := b.1][c.0 := c.1];
  }

  lemma QuotedKeys()
    ensures Quote("version") == "\"" + "version" + "\"" && Quote("timestamp") == "\"" + "timestamp" + "\""
    ensures Quote("id") == "\"" + "id" + "\"" && Quote("filterFingerprint") == "\"" + "filterFingerprint" + "\""
  {
    hide Escaped;
    PlainIsUnescaped("version");
    PlainIsUnescaped("timestamp");
    PlainIsUnescaped("id");
    PlainIsUnescaped("filterFingerprint");
  }

  lemma KeyTexts()
    ensures "{\"version\":" == "{" + ("\"" + "version" + "\"") + ":"
    ensures ",\"timestamp\":" == "," + ("\"" + "timestamp" + "\"") + ":"
    ensures ",\"id\":" == "," + ("\"" + "id" + "\"") + ":"
    ensures ",\"filterFingerprint\":" == "," + ("\"" + "filterFingerprint" + "\"") + ":"
  {
  }

  lemma PayloadConcat(v: string, w: string, x: string, y: string, a: string, b: string, c: string, d: string)
    ensures ("{" + v + ":") + a + ("," + w + ":") + b + ("," + x + ":") + c + ("," + y + ":") + d + "}"
         == "{" + (v + ":" + a + ("," + (w + ":" + b + ("," + (x + ":" + c + ("," + (y + ":" + d))))))) + "}"
  {
    var tail := y + ":" + d;
    assert ("," + y + ":") + d == "," + tail;
    var middle := x + ":" + c + ("," + tail);
    assert ("," + x + ":") + c + ("," + tail) == "," + middle;
    var front := w + ":" + b + ("," + middle);
    assert ("," + w + ":") + b + ("," + middle) == "," + front;
  }

  /** The payload is an object with exactly these four members. */
  lemma PayloadIsObject(t: string, i: string, p: string)
    ensures PayloadJson(Number("1"), String(t), String(i), String(p)) == "{" + MembersText(PayloadList(t, i, p)) + "}"
    ensures MembersOf(PayloadList(t, i, p)) == PayloadMembers(t, i, p) && ArePrintable(PayloadList(t, i, p))
  {
    hide Quote, JsonOf, MembersText, MembersOf;
    QuotedKeys();
    KeyTexts();
    FourMembers(("version", Number("1")), ("timestamp", String(t)), ("id", String(i)),
                ("filterFingerprint", String(p)));
    PayloadConcat(Quote("version"), Quote("timestamp"), Quote("id"), Quote("filterFingerprint"),
                  JsonOf(Number("1")), JsonOf(String(t)), JsonOf(String(i)), JsonOf(String(p)));
  }

  lemma PayloadDecodes(host: Host, position: Position, f: CursorFilters, g: CursorFilters)
    requires Conforms(host) && IsPosition(host, position)
    ensures DecodeLogCursor(host, EncodeLogCursor(host, position, f), g)
         == if FilterFingerprint(host, f) == FilterFingerprint(host, g) then Some(position) else None
  {
    hide PayloadJson, IsUuidV4, IsSha256Hex, IsCanonicalTimestamp, CanonicalFilterJson, MembersText, MembersOf;
    var fingerprint := FilterFingerprint(host, f);
    var json := PayloadText(host, position, f);
    assert json != "" by { PayloadIsNonEmpty(host, position, f); }
    var bytes := host.utf8Encode(json);
    B64.EncodeThenDecode(bytes);
    var members := PayloadMembers(position.timestamp, position.id, fingerprint);
    PayloadIsObject(position.timestamp, position.id, fingerprint);
    assert host.jsonParse(json) == Some(Object(members));
    assert members.Keys == PAYLOAD_KEYS;
  }

  lemma PayloadIsNonEmpty(host: Host, position: Position, f: CursorFilters)
    ensures PayloadText(host, position, f) != ""
  {
  }

  /** Under the same filters a decoded cursor is the position that was encoded. */
  lemma EncodeThenDecode(host: Host, position: Position, f: CursorFilters)
    requires Conforms(host) && IsPosition(host, position)
    ensures DecodeLogCursor(host, EncodeLogCursor(host, position, f), f) == Some(position)
  {
    PayloadDecodes(host, position, f, f);
  }

  /** Every accepted text is, letter for letter, the encoding of what it decodes to. */
  lemma AcceptedIsEncoding(host: Host, cursor: string, f: CursorFilters)
    requires DecodeLogCursor(host, cursor, f).Some?
    ensures var position := DecodeLogCursor(host, cursor, f).value;
            && IsPosition(host, position)
            && cursor == EncodeLogCursor(host, position, f)
  {
    hide PayloadJson, IsUuidV4, IsSha256Hex, IsCanonicalTimestamp, CanonicalFilterJson;
  }

  /**
   A cursor works for exactly the queries that are the same up to attribute order and an empty search
   text, as long as the digest tells the two filter texts apart.
   */
  lemma CursorIsBoundToQuery(host: Host, position: Position, f: CursorFilters, g: CursorFilters)
    requires Conforms(host) && IsPosition(host, position)
    requires FilterFingerprint(host, f) == FilterFingerprint(host, g) ==>
      CanonicalFilterJson(f) == CanonicalFilterJson(g)
    ensures DecodeLogCursor(host, EncodeLogCursor(host, position, f), g)
         == if SameQuery(f, g) then Some(position) else None
  {
    hide DecodeLogCursor, EncodeLogCursor, CanonicalFilterJson, SameQuery;
    PayloadDecodes(host, position, f, g);
    CanonicalFormIsExact(f, g);
  }

  /**
   A timestamp text whose UTC year has four digits is a position the codec can carry once it is
   canonical: the condition under which EncodeThenDecode applies to a row's timestamp.
   */
  lemma CanonicalTextsArePositions(host: Host, v: string, p: ParsedTimestamp)
    requires IsDateParse(host.dateParse) && ParseComponents(v) == Accepted(p)
    ensures IsCanonicalTimestamp(host, p.canonical) <==> 0 <= UtcFields(p).year <= 9999
  {
    hide ParseComponents, ParseCanonicalTimestamp, IsDateParse;
    ReparseIsFixpointIffFourDigitYear(v, p);
    ParserIsComponentPath(host.dateParse, p.canonical);
  }
}
