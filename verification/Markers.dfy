/** The marker codec: `json_compatible` and `decode_json_value`. */
module Markers {
  import opened Wrappers
  import opened Arrays
  import opened Values
  import Base64

  const COMPLEX_MARKER := "__qimchi_connect_complex__"
  const BYTES_MARKER := "__qimchi_connect_bytes__"

  datatype DecodeError = BadComplex | BadBytes

  function KeyTexts(fields: seq<(Key, Value)>): (texts: seq<string>)
    ensures |texts| == |fields|
  {
    seq(|fields|, i requires 0 <= i < |fields| => fields[i].0.text)
  }

  function Compatible(v: Value): Json
    requires Shaped(v)
  {
    match v
    case VNone => JNull
    case VBool(b) => JBool(b)
    case VInt(i) => JInt(i)
    case VReal(f) => JReal(f)
    case VStr(s) => JStr(s)
    case VComplex(re, im) => JObj([(COMPLEX_MARKER, JList([JReal(re), JReal(im)]))])
    case VBytes(bytes) => JObj([(BYTES_MARKER, JStr(Base64.Encode(bytes)))])
    case VDate(iso) => JStr(iso)
    case VPath(text) => JStr(text)
    case VList(items) => JList(seq(|items|, i requires 0 <= i < |items| => Compatible(items[i])))
    case VTuple(items) => JList(seq(|items|, i requires 0 <= i < |items| => Compatible(items[i])))
    case VSet(items) => JList(seq(|items|, i requires 0 <= i < |items| => Compatible(items[i])))
    case VDict(fields) =>
      var kept := Survivors(KeyTexts(fields));
      JObj(seq(|kept|, k requires 0 <= k < |kept| => (kept[k].0, Compatible(fields[kept[k].1].1))))
    case VArray(shape, items) =>
      Nest(shape, seq(|items|, i requires 0 <= i < |items| => Compatible(items[i])), JsonList)
    case VScalar(item) => Compatible(item)
  }

  function JsonList(items: seq<Json>): Json { JList(items) }

  function ValueList(items: seq<Value>): Value { VList(items) }

  /** Every array has as many items as its shape says. */
  predicate Shaped(v: Value) {
    match v
    case VList(items) => forall i | 0 <= i < |items| :: Shaped(items[i])
    case VTuple(items) => forall i | 0 <= i < |items| :: Shaped(items[i])
    case VSet(items) => forall i | 0 <= i < |items| :: Shaped(items[i])
    case VDict(fields) => forall i | 0 <= i < |fields| :: Shaped(fields[i].1)
    case VArray(shape, items) => |items| == Prod(shape) && forall i | 0 <= i < |items| :: Shaped(items[i])
    case VScalar(item) => Shaped(item)
    case _ => true
  }

  function AsFloat(j: Json): Option<Float> {
    match j
    case JReal(f) => Some(f)
    case JInt(i) => Some(FloatOf(i))
    case JBool(b) => Some(FloatOf(if b then 1 else 0))
    case _ => None
  }

  function DecodeComplex(j: Json): Result<Value, DecodeError> {
    if j.JList? && |j.items| == 2 && AsFloat(j.items[0]).Some? && AsFloat(j.items[1]).Some?
    then Ok(VComplex(AsFloat(j.items[0]).value, AsFloat(j.items[1]).value))
    else Err(BadComplex)
  }

  function DecodeBytes(j: Json): Result<Value, DecodeError> {
    if j.JStr? && Base64.Decode(j.s).Some? then Ok(VBytes(Base64.Decode(j.s).value)) else Err(BadBytes)
  }

  predicate OnlyKey<K(==), T>(fields: seq<(K, T)>, key: K) {
    |fields| == 1 && fields[0].0 == key
  }

  function Decode(j: Json): Result<Value, DecodeError> {
    match j
    case JNull => Ok(VNone)
    case JBool(b) => Ok(VBool(b))
    case JInt(i) => Ok(VInt(i))
    case JReal(f) => Ok(VReal(f))
    case JStr(s) => Ok(VStr(s))
    case JList(items) =>
      var decoded :- Collect(seq(|items|, i requires 0 <= i < |items| => Decode(items[i])));
      Ok(VList(decoded))
    case JObj(fields) =>
      if OnlyKey(fields, COMPLEX_MARKER) then DecodeComplex(fields[0].1)
      else if OnlyKey(fields, BYTES_MARKER) then DecodeBytes(fields[0].1)
      else
        var decoded :- Collect(seq(|fields|, i requires 0 <= i < |fields| => Decode(fields[i].1)));
        Ok(VDict(seq(|fields|, i requires 0 <= i < |fields| => (Text(fields[i].0), decoded[i]))))
  }

  /** What a value is after a trip through JSON at best: containers become lists, dates and
      paths their text, key texts unique strings, NumPy values plain ones. */
  function Normal(v: Value): Value
    requires Shaped(v)
  {
    match v
    case VDate(iso) => VStr(iso)
    case VPath(text) => VStr(text)
    case VList(items) => VList(seq(|items|, i requires 0 <= i < |items| => Normal(items[i])))
    case VTuple(items) => VList(seq(|items|, i requires 0 <= i < |items| => Normal(items[i])))
    case VSet(items) => VList(seq(|items|, i requires 0 <= i < |items| => Normal(items[i])))
    case VDict(fields) =>
      var kept := Survivors(KeyTexts(fields));
      VDict(seq(|kept|, k requires 0 <= k < |kept| => (Text(kept[k].0), Normal(fields[kept[k].1].1))))
    case VArray(shape, items) =>
      Nest(shape, seq(|items|, i requires 0 <= i < |items| => Normal(items[i])), ValueList)
    case VScalar(item) => Normal(item)
    case _ => v
  }

  /** No dictionary has a marker as its only key. */
  predicate MarkerFree(v: Value) {
    match v
    case VList(items) => forall i | 0 <= i < |items| :: MarkerFree(items[i])
    case VTuple(items) => forall i | 0 <= i < |items| :: MarkerFree(items[i])
    case VSet(items) => forall i | 0 <= i < |items| :: MarkerFree(items[i])
    case VDict(fields) =>
      && !OnlyKey(fields, Text(COMPLEX_MARKER)) && !OnlyKey(fields, Text(BYTES_MARKER))
      && forall i | 0 <= i < |fields| :: MarkerFree(fields[i].1)
    case VArray(_, items) => forall i | 0 <= i < |items| :: MarkerFree(items[i])
    case VScalar(item) => MarkerFree(item)
    case _ => true
  }

  ghost predicate Survives(j: Json, v: Value) {
    Decode(j) == Ok(v) <==> MarkerFree(v)
  }

  lemma ListSurvives(js: seq<Json>, vs: seq<Value>)
    requires |js| == |vs| && forall i | 0 <= i < |js| :: Survives(js[i], vs[i])
    ensures Survives(JList(js), VList(vs))
  {
    var rs := seq(|js|, i requires 0 <= i < |js| => Decode(js[i]));
    if MarkerFree(VList(vs)) {
      assert Collect(rs).Ok? && Collect(rs).value == vs;
    } else {
      var i :| 0 <= i < |vs| && !MarkerFree(vs[i]);
      assert rs[i] != Ok(vs[i]);
    }
  }

  lemma FieldsSurvive(keys: seq<string>, js: seq<Json>, vs: seq<Value>)
    requires |keys| == |js| == |vs| && forall i | 0 <= i < |js| :: Survives(js[i], vs[i])
    ensures Survives(JObj(seq(|js|, i requires 0 <= i < |js| => (keys[i], js[i]))),
                     VDict(seq(|vs|, i requires 0 <= i < |vs| => (Text(keys[i]), vs[i]))))
  {
    var fields := seq(|js|, i requires 0 <= i < |js| => (keys[i], js[i]));
    var entries := seq(|vs|, i requires 0 <= i < |vs| => (Text(keys[i]), vs[i]));
    if !OnlyKey(fields, COMPLEX_MARKER) && !OnlyKey(fields, BYTES_MARKER) {
      var rs := seq(|fields|, i requires 0 <= i < |fields| => Decode(fields[i].1));
      if MarkerFree(VDict(entries)) {
        forall i | 0 <= i < |rs| ensures rs[i] == Ok(vs[i]) {
          assert MarkerFree(entries[i].1);
        }
        assert Collect(rs).value == vs;
        assert seq(|fields|, i requires 0 <= i < |fields| => (Text(fields[i].0), vs[i])) == entries;
      } else {
        var i :| 0 <= i < |vs| && !MarkerFree(entries[i].1);
        assert rs[i] != Ok(vs[i]);
        assert Collect(rs).Ok? ==> rs[i] == Ok(Collect(rs).value[i]);
      }
    }
  }

  lemma {:induction false} NestSurvives(shape: seq<nat>, js: seq<Json>, vs: seq<Value>)
    requires |js| == |vs| == Prod(shape) && forall i | 0 <= i < |js| :: Survives(js[i], vs[i])
    ensures Survives(Nest(shape, js, JsonList), Nest(shape, vs, ValueList))
    decreases |shape|, 0
  {
    if shape != [] {
      NestRowsSurvive(shape[0], shape[1..], js, vs);
      ListSurvives(NestRows(shape[0], shape[1..], js, JsonList), NestRows(shape[0], shape[1..], vs, ValueList));
    }
  }

  lemma {:induction false} NestRowsSurvive(n: nat, shape: seq<nat>, js: seq<Json>, vs: seq<Value>)
    requires |js| == |vs| == n * Prod(shape) && forall i | 0 <= i < |js| :: Survives(js[i], vs[i])
    ensures forall k | 0 <= k < n ::
              Survives(NestRows(n, shape, js, JsonList)[k], NestRows(n, shape, vs, ValueList)[k])
    decreases |shape|, n + 1
  {
    if n > 0 {
      var p := Prod(shape);
      OneBlockMore(n, p);
      NestSurvives(shape, js[..p], vs[..p]);
      NestRowsSurvive(n - 1, shape, js[p..], vs[p..]);
    }
  }

  /** Decoding an encoded value gives its normal form exactly when no dictionary of that form
      has a marker as its only key. */
  lemma {:induction false} RoundTrip(v: Value)
    requires Shaped(v)
    ensures Decode(Compatible(v)) == Ok(Normal(v)) <==> MarkerFree(Normal(v))
    decreases v, 1
  {
    match v
    case VBytes(bytes) => Base64.RoundTrip(bytes);
    case VList(items) => ItemsSurvive(v, items);
    case VTuple(items) => ItemsSurvive(v, items);
    case VSet(items) => ItemsSurvive(v, items);
    case VScalar(item) => RoundTrip(item);
    case VArray(shape, items) => ArraySurvives(v);
    case VDict(fields) => DictSurvives(v);
    case _ =>
  }

  lemma {:induction false} ItemsSurvive(v: Value, items: seq<Value>)
    requires Shaped(v) && (v == VList(items) || v == VTuple(items) || v == VSet(items))
    ensures Survives(Compatible(v), Normal(v))
    decreases v, 0
  {
    forall i | 0 <= i < |items| ensures Survives(Compatible(items[i]), Normal(items[i])) {
      RoundTrip(items[i]);
    }
    ListSurvives(seq(|items|, i requires 0 <= i < |items| => Compatible(items[i])),
                 seq(|items|, i requires 0 <= i < |items| => Normal(items[i])));
  }

  lemma {:induction false} ArraySurvives(v: Value)
    requires v.VArray? && Shaped(v)
    ensures Survives(Compatible(v), Normal(v))
    decreases v, 0
  {
    var items := v.items;
    forall i | 0 <= i < |items| ensures Survives(Compatible(items[i]), Normal(items[i])) {
      RoundTrip(items[i]);
    }
    NestSurvives(v.shape, seq(|items|, i requires 0 <= i < |items| => Compatible(items[i])),
                 seq(|items|, i requires 0 <= i < |items| => Normal(items[i])));
  }

  lemma {:induction false} DictSurvives(v: Value)
    requires v.VDict? && Shaped(v)
    ensures Survives(Compatible(v), Normal(v))
    decreases v, 0
  {
    var fields := v.fields;
    var kept := Survivors(KeyTexts(fields));
    forall k | 0 <= k < |kept| ensures Survives(Compatible(fields[kept[k].1].1), Normal(fields[kept[k].1].1)) {
      RoundTrip(fields[kept[k].1].1);
    }
    var keys := seq(|kept|, k requires 0 <= k < |kept| => kept[k].0);
    var js := seq(|kept|, k requires 0 <= k < |kept| => Compatible(fields[kept[k].1].1));
    var vs := seq(|kept|, k requires 0 <= k < |kept| => Normal(fields[kept[k].1].1));
    FieldsSurvive(keys, js, vs);
    assert seq(|kept|, k requires 0 <= k < |kept| => (kept[k].0, Compatible(fields[kept[k].1].1)))
        == seq(|js|, i requires 0 <= i < |js| => (keys[i], js[i]));
    assert seq(|kept|, k requires 0 <= k < |kept| => (Text(kept[k].0), Normal(fields[kept[k].1].1)))
        == seq(|vs|, i requires 0 <= i < |vs| => (Text(keys[i]), vs[i]));
  }

  function CompatibleAll(items: seq<Value>): (js: seq<Json>)
    requires forall i | 0 <= i < |items| :: Shaped(items[i])
  {
    seq(|items|, i requires 0 <= i < |items| => Compatible(items[i]))
  }

  /** Walking the nested lists `tolist` gives is converting item by item: the general path
      for arrays. */
  lemma {:induction false} WalkOfNested(shape: seq<nat>, items: seq<Value>)
    requires |items| == Prod(shape) && forall i | 0 <= i < |items| :: Shaped(items[i])
    ensures Shaped(Nest(shape, items, ValueList))
    ensures Compatible(Nest(shape, items, ValueList)) == Nest(shape, CompatibleAll(items), JsonList)
    decreases |shape|, 0
  {
    if shape != [] {
      WalkOfRows(shape[0], shape[1..], items);
      assert CompatibleAll(NestRows(shape[0], shape[1..], items, ValueList))
          == NestRows(shape[0], shape[1..], CompatibleAll(items), JsonList);
    }
  }

  lemma {:induction false} WalkOfRows(n: nat, shape: seq<nat>, items: seq<Value>)
    requires |items| == n * Prod(shape) && forall i | 0 <= i < |items| :: Shaped(items[i])
    ensures forall k | 0 <= k < n :: Shaped(NestRows(n, shape, items, ValueList)[k])
    ensures CompatibleAll(NestRows(n, shape, items, ValueList)) == NestRows(n, shape, CompatibleAll(items), JsonList)
    decreases |shape|, n + 1
  {
    if n > 0 {
      var p := Prod(shape);
      OneBlockMore(n, p);
      WalkOfNested(shape, items[..p]);
      WalkOfRows(n - 1, shape, items[p..]);
      CompatibleParts(items, p);
      CompatibleCons(Nest(shape, items[..p], ValueList), NestRows(n - 1, shape, items[p..], ValueList));
    }
  }

  lemma CompatibleCons(head: Value, rest: seq<Value>)
    requires Shaped(head) && forall i | 0 <= i < |rest| :: Shaped(rest[i])
    ensures forall i | 0 <= i < |[head] + rest| :: Shaped(([head] + rest)[i])
    ensures CompatibleAll([head] + rest) == [Compatible(head)] + CompatibleAll(rest)
  {
  }

  lemma CompatibleParts(items: seq<Value>, p: nat)
    requires p <= |items| && forall i | 0 <= i < |items| :: Shaped(items[i])
    ensures CompatibleAll(items)[..p] == CompatibleAll(items[..p])
    ensures CompatibleAll(items)[p..] == CompatibleAll(items[p..])
  {
  }

  /** Plain nested lists as they are: what the shortcut hands to the JSON encoder unwalked. */
  function Direct(v: Value): Json {
    match v
    case VBool(b) => JBool(b)
    case VInt(i) => JInt(i)
    case VReal(f) => JReal(f)
    case VList(items) => JList(seq(|items|, i requires 0 <= i < |items| => Direct(items[i])))
    case _ => JNull
  }

  predicate PlainNested(v: Value) {
    IsPlain(v) || (v.VList? && forall i | 0 <= i < |v.items| :: PlainNested(v.items[i]))
  }

  lemma {:induction false} DirectAgrees(v: Value)
    requires PlainNested(v)
    ensures Shaped(v) && Direct(v) == Compatible(v)
  {
    if v.VList? {
      forall i | 0 <= i < |v.items| ensures Shaped(v.items[i]) && Direct(v.items[i]) == Compatible(v.items[i]) {
        DirectAgrees(v.items[i]);
      }
    }
  }

  lemma {:induction false} NestedIsPlain(shape: seq<nat>, items: seq<Value>)
    requires |items| == Prod(shape) && forall i | 0 <= i < |items| :: IsPlain(items[i])
    ensures PlainNested(Nest(shape, items, ValueList))
    decreases |shape|, 0
  {
    if shape != [] {
      RowsArePlain(shape[0], shape[1..], items);
    }
  }

  lemma {:induction false} RowsArePlain(n: nat, shape: seq<nat>, items: seq<Value>)
    requires |items| == n * Prod(shape) && forall i | 0 <= i < |items| :: IsPlain(items[i])
    ensures forall k | 0 <= k < n :: PlainNested(NestRows(n, shape, items, ValueList)[k])
    decreases |shape|, n + 1
  {
    if n > 0 {
      var p := Prod(shape);
      OneBlockMore(n, p);
      NestedIsPlain(shape, items[..p]);
      RowsArePlain(n - 1, shape, items[p..]);
    }
  }

  /** The shortcut for numeric and boolean arrays gives what the element walk would. */
  lemma PlainShortcutAgrees(shape: seq<nat>, items: seq<Value>)
    requires |items| == Prod(shape) && forall i | 0 <= i < |items| :: IsPlain(items[i])
    ensures Shaped(VArray(shape, items))
    ensures Direct(Nest(shape, items, ValueList)) == Compatible(VArray(shape, items))
  {
    NestedIsPlain(shape, items);
    DirectAgrees(Nest(shape, items, ValueList));
    WalkOfNested(shape, items);
  }

  /** Whatever the codec produces is an object a JSON encoder keeps whole: no key twice. */
  lemma {:induction false} CompatibleKeys(v: Value)
    requires Shaped(v)
    ensures KeysDistinct(Compatible(v))
    decreases v, 1
  {
    match v
    case VList(items) => ItemKeys(v, items);
    case VTuple(items) => ItemKeys(v, items);
    case VSet(items) => ItemKeys(v, items);
    case VDict(fields) =>
      forall i | 0 <= i < |fields| ensures KeysDistinct(Compatible(fields[i].1)) { CompatibleKeys(fields[i].1); }
      SurvivorsDistinct(KeyTexts(fields));
    case VArray(shape, items) =>
      forall i | 0 <= i < |items| ensures KeysDistinct(Compatible(items[i])) { CompatibleKeys(items[i]); }
      NestKeys(shape, CompatibleAll(items));
    case VScalar(item) => CompatibleKeys(item);
    case _ =>
  }

  lemma {:induction false} ItemKeys(v: Value, items: seq<Value>)
    requires Shaped(v) && (v == VList(items) || v == VTuple(items) || v == VSet(items))
    ensures forall i | 0 <= i < |items| :: KeysDistinct(Compatible(items[i]))
    decreases v, 0
  {
    forall i | 0 <= i < |items| ensures KeysDistinct(Compatible(items[i])) {
      CompatibleKeys(items[i]);
    }
  }

  lemma {:induction false} NestKeys(shape: seq<nat>, js: seq<Json>)
    requires |js| == Prod(shape) && forall i | 0 <= i < |js| :: KeysDistinct(js[i])
    ensures KeysDistinct(Nest(shape, js, JsonList))
    decreases |shape|, 0
  {
    if shape != [] {
      RowKeys(shape[0], shape[1..], js);
    }
  }

  lemma {:induction false} RowKeys(n: nat, shape: seq<nat>, js: seq<Json>)
    requires |js| == n * Prod(shape) && forall i | 0 <= i < |js| :: KeysDistinct(js[i])
    ensures forall k | 0 <= k < n :: KeysDistinct(NestRows(n, shape, js, JsonList)[k])
    decreases |shape|, n + 1
  {
    if n > 0 {
      OneBlockMore(n, Prod(shape));
      NestKeys(shape, js[..Prod(shape)]);
      RowKeys(n - 1, shape, js[Prod(shape)..]);
    }
  }
}
