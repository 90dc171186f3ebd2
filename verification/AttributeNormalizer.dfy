/** src/domain/attribute-normalizer.ts: the search document attribute filters are matched against. */
module AttributeNormalizer {
  import opened Prelude
  import opened LogEntry

  /** A JavaScript value; a finite number carries the text JSON gives it. */
  datatype AttributeValue = Text(text: string) | Flag(flag: bool) | NegativeZero | Finite(json: string) | Unsupported

  /** An own enumerable property; no two of an object share a key. */
  datatype Property = Property(key: string, value: AttributeValue)

  predicate IsObject(properties: seq<Property>) {
    forall i, j :: 0 <= i < j < |properties| ==> properties[i].key != properties[j].key
  }

  /** None where it throws. */
  function NormalizeValue(value: AttributeValue): Option<string> {
    match value
    case Text(text) => Some(text)
    case Flag(flag) => Some(if flag then "true" else "false")
    case NegativeZero => Some("0")
    case Finite(json) => Some(json)
    case Unsupported => None
  }

  /** Flags are spelled out, zero has no sign, and everything else but texts and finite numbers throws. */
  lemma ValueTexts(value: AttributeValue)
    ensures NormalizeValue(Flag(true)) == Some("true") && NormalizeValue(Flag(false)) == Some("false")
    ensures NormalizeValue(NegativeZero) == Some("0")
    ensures NormalizeValue(value).None? <==> value.Unsupported?
    ensures value.Text? ==> NormalizeValue(value) == Some(value.text)
    ensures value.Finite? ==> NormalizeValue(value) == Some(value.json)
  {
  }

  /** The document of the properties in order, or nothing if one of them throws. */
  function Document(properties: seq<Property>): Option<map<string, string>> {
    if properties == [] then Some(map[]) else
    var front, last := Document(properties[..|properties| - 1]), properties[|properties| - 1];
    var text := NormalizeValue(last.value);
    if front.None? || text.None? then None else Some(front.value[last.key := text.value])
  }

  lemma {:induction false} DocumentStaysImpossible(properties: seq<Property>, n: nat)
    requires n <= |properties| && Document(properties[..n]).None?
    ensures Document(properties).None?
    decreases |properties| - n
  {
    if n < |properties| {
      assert properties[..n + 1][..n] == properties[..n];
      DocumentStaysImpossible(properties, n + 1);
    } else {
      assert properties[..n] == properties;
    }
  }

  predicate HasProperty(properties: seq<Property>, key: string) {
    exists i :: 0 <= i < |properties| && properties[i].key == key
  }

  /** It throws exactly on an unsupported value, and otherwise keeps every key with its value's text. */
  method NormalizeAttributes(attributes: seq<Property>) returns (normalized: Option<map<string, string>>)
    requires IsObject(attributes)
    ensures normalized == Document(attributes)
    ensures normalized.None? <==> exists i :: 0 <= i < |attributes| && attributes[i].value.Unsupported?
    ensures normalized.Some? ==>
              && (forall key :: key in normalized.value <==> HasProperty(attributes, key))
              && (forall i :: 0 <= i < |attributes| ==>
                    attributes[i].key in normalized.value &&
                      Some(normalized.value[attributes[i].key]) == NormalizeValue(attributes[i].value))
  {
    var document: map<string, string> := map[];
    for i := 0 to |attributes|
      invariant Document(attributes[..i]) == Some(document)
      invariant forall k :: 0 <= k < i ==> !attributes[k].value.Unsupported?
      invariant forall key :: key in document <==> HasProperty(attributes[..i], key)
      invariant forall k :: 0 <= k < i ==>
        attributes[k].key in document && Some(document[attributes[k].key]) == NormalizeValue(attributes[k].value)
    {
      assert attributes[..i + 1][..i] == attributes[..i];
      var text := NormalizeValue(attributes[i].value);
      if text.None? {
        DocumentStaysImpossible(attributes, i + 1);
        return None;
      }
      PropertyAdded(attributes, i);
      document := document[attributes[i].key := text.value];
    }
    assert attributes[..|attributes|] == attributes;
    return Some(document);
  }

  lemma PropertyAdded(attributes: seq<Property>, i: nat)
    requires i < |attributes|
    ensures forall key :: HasProperty(attributes[..i + 1], key) <==>
      HasProperty(attributes[..i], key) || key == attributes[i].key
  {
    forall key
      ensures HasProperty(attributes[..i + 1], key) <==>
        HasProperty(attributes[..i], key) || key == attributes[i].key
    {
      if HasProperty(attributes[..i], key) {
        var k :| 0 <= k < i && attributes[..i][k].key == key;
        assert attributes[..i + 1][k].key == key;
      }
      if key == attributes[i].key {
        assert attributes[..i + 1][i].key == key;
      }
    }
  }

  /** An attribute filter holds of a stored log exactly when the original value's text is the filter's. */
  lemma FilterMeansOriginalText(attributes: seq<Property>, log: Log, filter: AttributeFilter)
    requires IsObject(attributes)
    requires forall key :: key in log.attributes <==> HasProperty(attributes, key)
    requires forall i :: 0 <= i < |attributes| ==>
               attributes[i].key in log.attributes &&
                 Some(log.attributes[attributes[i].key]) == NormalizeValue(attributes[i].value)
    ensures HasAttribute(log, filter) <==>
              exists i :: 0 <= i < |attributes| && attributes[i].key == filter.key &&
                NormalizeValue(attributes[i].value) == Some(filter.value)
  {
    hide NormalizeValue;
    if HasAttribute(log, filter) {
      assert HasProperty(attributes, filter.key);
      var i :| 0 <= i < |attributes| && attributes[i].key == filter.key;
      assert NormalizeValue(attributes[i].value) == Some(filter.value);
    }
  }
}
