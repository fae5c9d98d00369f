/** Which values come through the marker codec as they are, and what becomes of a dictionary's
    fields. */
module Attributes {
  import opened Wrappers
  import opened Arrays
  import opened Values
  import opened Markers

  /** The field has the value of the last key of its text. */
  ghost predicate LastValue(fields: seq<(Key, Value)>, field: (string, Json))
    requires Shaped(VDict(fields))
  {
    exists i: nat | LastAt(KeyTexts(fields), field.0, i) :: field.1 == Compatible(fields[i].1)
  }

  ghost predicate HasField(fields: seq<(string, Json)>, text: string) {
    exists k | 0 <= k < |fields| :: fields[k].0 == text
  }

  ghost predicate FieldsOrdered(texts: seq<string>, fields: seq<(string, Json)>) {
    forall a, b | 0 <= a < b < |fields| :: fields[a].0 != fields[b].0 && Before(texts, fields[a].0, fields[b].0)
  }

  lemma FieldsOfSurvivors(fields: seq<(Key, Value)>)
    requires Shaped(VDict(fields))
    ensures var s, j := Survivors(KeyTexts(fields)), Compatible(VDict(fields));
            j.JObj? && |j.fields| == |s|
            && forall k | 0 <= k < |s| :: j.fields[k] == (s[k].0, Compatible(fields[s[k].1].1))
  {
  }

  lemma SameOrder(texts: seq<string>, s: seq<(string, nat)>, fields: seq<(string, Json)>)
    requires |fields| == |s| && forall k | 0 <= k < |s| :: fields[k].0 == s[k].0
    requires forall a, b | 0 <= a < b < |s| :: s[a].0 != s[b].0
    requires forall a, b | 0 <= a < b < |s| :: Before(texts, s[a].0, s[b].0)
    ensures FieldsOrdered(texts, fields)
    ensures forall text :: Listed(s, text) ==> HasField(fields, text)
  {
    forall text | Listed(s, text) ensures HasField(fields, text) {
      var k :| 0 <= k < |s| && s[k].0 == text;
      assert fields[k].0 == text;
    }
  }

  /** An encoded dictionary has one field for each key text, in order of first appearance, with
      the value of the last key of that text. */
  lemma FieldsEncoded(fields: seq<(Key, Value)>)
    requires Shaped(VDict(fields))
    ensures var j := Compatible(VDict(fields));
            && j.JObj? && FieldsOrdered(KeyTexts(fields), j.fields)
            && (forall k | 0 <= k < |j.fields| :: LastValue(fields, j.fields[k]))
            && forall i | 0 <= i < |fields| :: HasField(j.fields, fields[i].0.text)
  {
    var texts, j := KeyTexts(fields), Compatible(VDict(fields));
    var s := Survivors(texts);
    SurvivorsMeaning(texts);
    FieldsOfSurvivors(fields);
    SameOrder(texts, s, j.fields);
    forall k | 0 <= k < |j.fields| ensures LastValue(fields, j.fields[k]) {
      assert LastAt(texts, s[k].0, s[k].1);
    }
    forall i | 0 <= i < |fields| ensures HasField(j.fields, fields[i].0.text) {
      assert texts[i] in texts && Listed(s, texts[i]);
    }
  }

  ghost predicate DistinctTexts(fields: seq<(Key, Value)>) {
    forall i, j | 0 <= i < j < |fields| :: fields[i].0.text != fields[j].0.text
  }

  /** With distinct key texts that is every field in its place. */
  lemma DistinctFieldsEncoded(fields: seq<(Key, Value)>)
    requires Shaped(VDict(fields)) && DistinctTexts(fields)
    ensures var j := Compatible(VDict(fields));
            && j.JObj? && |j.fields| == |fields|
            && forall i | 0 <= i < |fields| :: j.fields[i] == (fields[i].0.text, Compatible(fields[i].1))
  {
    DistinctSurvive(KeyTexts(fields));
  }

  /** Values JSON and the markers can hold: lists, and dictionaries with distinct text keys, of
      plain values, complex numbers and bytes. */
  ghost predicate JsonLike(v: Value) {
    match v
    case VList(items) => forall i | 0 <= i < |items| :: JsonLike(items[i])
    case VDict(fields) =>
      DistinctTexts(fields) && forall i | 0 <= i < |fields| :: fields[i].0.Text? && JsonLike(fields[i].1)
    case _ => IsPlain(v) || v.VNone? || v.VStr? || v.VComplex? || v.VBytes?
  }

  lemma {:induction false} JsonLikeIsNormal(v: Value)
    requires JsonLike(v)
    ensures Shaped(v) && Normal(v) == v
  {
    match v
    case VList(items) =>
      forall i | 0 <= i < |items| ensures Shaped(items[i]) && Normal(items[i]) == items[i] {
        JsonLikeIsNormal(items[i]);
      }
    case VDict(fields) =>
      forall i | 0 <= i < |fields| ensures Shaped(fields[i].1) && Normal(fields[i].1) == fields[i].1 {
        JsonLikeIsNormal(fields[i].1);
      }
      DistinctSurvive(KeyTexts(fields));
      assert Normal(v).fields == fields;
    case _ =>
  }

  /** Decoding gives nothing else. */
  lemma {:induction false} DecodedIsJsonLike(j: Json)
    requires KeysDistinct(j)
    ensures Decode(j).Ok? ==> JsonLike(Decode(j).value)
  {
    match j
    case JList(items) =>
      forall i | 0 <= i < |items| ensures Decode(items[i]).Ok? ==> JsonLike(Decode(items[i]).value) {
        DecodedIsJsonLike(items[i]);
      }
    case JObj(fields) =>
      forall i | 0 <= i < |fields| ensures Decode(fields[i].1).Ok? ==> JsonLike(Decode(fields[i].1).value) {
        DecodedIsJsonLike(fields[i].1);
      }
    case _ =>
  }

  /** A value comes back as itself exactly when it is such a value and none of its dictionaries
      has a marker as its only key. */
  lemma ComesBackExactly(v: Value)
    requires Shaped(v)
    ensures Decode(Compatible(v)) == Ok(v) <==> JsonLike(v) && MarkerFree(v)
  {
    CompatibleKeys(v);
    DecodedIsJsonLike(Compatible(v));
    if JsonLike(v) {
      JsonLikeIsNormal(v);
      RoundTrip(v);
    }
  }

  lemma {:induction false} NestLike(shape: seq<nat>, items: seq<Value>)
    requires |items| == Prod(shape) && forall i | 0 <= i < |items| :: JsonLike(items[i])
    ensures JsonLike(Nest(shape, items, ValueList))
    decreases |shape|, 0
  {
    if shape != [] {
      RowsLike(shape[0], shape[1..], items);
    }
  }

  lemma {:induction false} RowsLike(n: nat, shape: seq<nat>, items: seq<Value>)
    requires |items| == n * Prod(shape) && forall i | 0 <= i < |items| :: JsonLike(items[i])
    ensures forall k | 0 <= k < n :: JsonLike(NestRows(n, shape, items, ValueList)[k])
    decreases |shape|, n + 1
  {
    if n > 0 {
      OneBlockMore(n, Prod(shape));
      NestLike(shape, items[..Prod(shape)]);
      RowsLike(n - 1, shape, items[Prod(shape)..]);
    }
  }

  /** Every normal form is such a value, so taking it again changes nothing. */
  lemma {:induction false} NormalIsJsonLike(v: Value)
    requires Shaped(v)
    ensures JsonLike(Normal(v))
    decreases v, 1
  {
    match v
    case VList(items) => ItemsLike(v, items);
    case VTuple(items) => ItemsLike(v, items);
    case VSet(items) => ItemsLike(v, items);
    case VDict(fields) =>
      forall i | 0 <= i < |fields| ensures JsonLike(Normal(fields[i].1)) { NormalIsJsonLike(fields[i].1); }
      SurvivorsDistinct(KeyTexts(fields));
    case VArray(shape, items) =>
      forall i | 0 <= i < |items| ensures JsonLike(Normal(items[i])) { NormalIsJsonLike(items[i]); }
      NestLike(shape, seq(|items|, i requires 0 <= i < |items| => Normal(items[i])));
    case VScalar(item) => NormalIsJsonLike(item);
    case _ =>
  }

  lemma {:induction false} ItemsLike(v: Value, items: seq<Value>)
    requires Shaped(v) && (v == VList(items) || v == VTuple(items) || v == VSet(items))
    ensures forall i | 0 <= i < |items| :: JsonLike(Normal(items[i]))
    decreases v, 0
  {
    forall i | 0 <= i < |items| ensures JsonLike(Normal(items[i])) {
      NormalIsJsonLike(items[i]);
    }
  }

  /** The values that are their own normal form are exactly those. */
  lemma OwnNormalForm(v: Value)
    requires Shaped(v)
    ensures Normal(v) == v <==> JsonLike(v)
    ensures Shaped(Normal(v)) && Normal(Normal(v)) == Normal(v)
  {
    NormalIsJsonLike(v);
    JsonLikeIsNormal(Normal(v));
    if JsonLike(v) {
      JsonLikeIsNormal(v);
    }
  }
}
