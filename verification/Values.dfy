/** Python values as the protocol sees them, and the JSON values they become. */
module Values {
  import opened Wrappers
  import opened Base64
  import opened Arrays

  /** A floating-point number; a finite one is its sign, and mantissa times a power of two. */
  datatype Float = Finite(negative: bool, mantissa: nat, exponent: int) | PosInf | NegInf | NaN

  const ZERO := Finite(false, 0, 0)

  function FloatOf(i: int): Float {
    Finite(i < 0, if i < 0 then -i else i, 0)
  }

  datatype Json =
    | JNull
    | JBool(b: bool)
    | JInt(i: int)
    | JReal(f: Float)
    | JStr(s: string)
    | JList(items: seq<Json>)
    | JObj(fields: seq<(string, Json)>)   // keys distinct, order kept

  /** The keys of every object are distinct, as they are in a Python dictionary. */
  predicate KeysDistinct(j: Json) {
    match j
    case JList(items) => forall i | 0 <= i < |items| :: KeysDistinct(items[i])
    case JObj(fields) =>
      && (forall i, k | 0 <= i < k < |fields| :: fields[i].0 != fields[k].0)
      && forall i | 0 <= i < |fields| :: KeysDistinct(fields[i].1)
    case _ => true
  }

  /** A dictionary key, and what `str` makes of it. */
  datatype Key = Text(text: string) | Other(text: string)

  datatype Value =
    | VNone
    | VBool(b: bool)
    | VInt(i: int)
    | VReal(f: Float)
    | VStr(s: string)
    | VComplex(re: Float, im: Float)
    | VBytes(bytes: seq<byte>)
    | VDate(iso: string)
    | VPath(text: string)
    | VList(items: seq<Value>)
    | VTuple(items: seq<Value>)
    | VSet(items: seq<Value>)                          // in iteration order
    | VDict(fields: seq<(Key, Value)>)
    | VArray(shape: seq<nat>, items: seq<Value>)       // row-major
    | VScalar(item: Value)                             // a NumPy scalar and its `item()`

  predicate IsPlain(v: Value) {
    v.VBool? || v.VInt? || v.VReal?
  }

  /** Nest row-major leaves into lists, one level for each dimension, as `tolist` does. */
  function Nest<T>(shape: seq<nat>, leaves: seq<T>, list: seq<T> -> T): T
    requires |leaves| == Prod(shape)
    decreases |shape|, 0
  {
    if shape == [] then leaves[0] else list(NestRows(shape[0], shape[1..], leaves, list))
  }

  function NestRows<T>(n: nat, shape: seq<nat>, leaves: seq<T>, list: seq<T> -> T): (rows: seq<T>)
    requires |leaves| == n * Prod(shape)
    ensures |rows| == n
    decreases |shape|, n + 1
  {
    if n == 0 then []
    else
      var p := Prod(shape);
      assert |leaves| == p + (n - 1) * p;
      [Nest(shape, leaves[..p], list)] + NestRows(n - 1, shape, leaves[p..], list)
  }

  /** Which field of a dictionary comprehension survives under each key text: keys in order
      of first appearance, with the position of the last field that has that text. */
  function Survivors(keys: seq<string>): (s: seq<(string, nat)>)
    ensures forall k | 0 <= k < |s| :: s[k].1 < |keys| && s[k].0 == keys[s[k].1]
  {
    if keys == [] then []
    else
      var last := |keys| - 1;
      var front := Survivors(keys[..last]);
      if exists k | 0 <= k < |front| :: front[k].0 == keys[last]
      then seq(|front|, k requires 0 <= k < |front| => if front[k].0 == keys[last] then (keys[last], last)
          else front[k])
      else front + [(keys[last], last)]
  }

  lemma {:induction false} SurvivorsDistinct(keys: seq<string>)
    ensures forall i, k | 0 <= i < k < |Survivors(keys)| :: Survivors(keys)[i].0 != Survivors(keys)[k].0
  {
    if keys != [] {
      SurvivorsDistinct(keys[..|keys| - 1]);
    }
  }

  /** `i` is where a text is first, or last, among the keys. */
  ghost predicate FirstAt(keys: seq<string>, text: string, i: nat) {
    i < |keys| && keys[i] == text && text !in keys[..i]
  }

  ghost predicate LastAt(keys: seq<string>, text: string, i: nat) {
    i < |keys| && keys[i] == text && forall j | i < j < |keys| :: keys[j] != text
  }

  ghost predicate Listed(s: seq<(string, nat)>, text: string) {
    exists k | 0 <= k < |s| :: s[k].0 == text
  }

  /** The one text appears before the other does. */
  ghost predicate Before(keys: seq<string>, text: string, other: string) {
    forall i, j | FirstAt(keys, text, i) && FirstAt(keys, other, j) :: i < j
  }

  /** One more key adds at most itself. */
  lemma OneMoreKey(keys: seq<string>)
    requires keys != []
    ensures var s, t := Survivors(keys), Survivors(keys[..|keys| - 1]);
            && |t| <= |s| <= |t| + 1 && (forall k | 0 <= k < |t| :: s[k].0 == t[k].0)
            && (|t| < |s| ==> s[|t|].0 == keys[|keys| - 1] && !Listed(t, s[|t|].0))
  {
  }

  lemma {:induction false} SurvivorsCover(keys: seq<string>, text: string)
    ensures text in keys <==> Listed(Survivors(keys), text)
  {
    if keys != [] {
      var last := |keys| - 1;
      SurvivorsCover(keys[..last], text);
      assert keys == keys[..last] + [keys[last]];
      var s, t := Survivors(keys), Survivors(keys[..last]);
      if Listed(t, text) {
        var k :| 0 <= k < |t| && t[k].0 == text;
        assert s[k].0 == text;
      } else if text == keys[last] {
        assert s[|t|].0 == text;
      }
    }
  }

  lemma {:induction false} SurvivorsLast(keys: seq<string>, k: nat)
    requires k < |Survivors(keys)|
    ensures LastAt(keys, Survivors(keys)[k].0, Survivors(keys)[k].1)
  {
    if keys != [] {
      var front := keys[..|keys| - 1];
      if k < |Survivors(front)| {
        SurvivorsLast(front, k);
      }
    }
  }

  lemma BeforeOneMore(keys: seq<string>, text: string, other: string)
    requires keys != [] && text in keys[..|keys| - 1]
    requires other in keys[..|keys| - 1] ==> Before(keys[..|keys| - 1], text, other)
    ensures other != text ==> Before(keys, text, other)
  {
    var last := |keys| - 1;
    var front := keys[..last];
    forall i: nat, j: nat | FirstAt(keys, text, i) && FirstAt(keys, other, j) && other != text ensures i < j {
      assert i < last && keys[..i] == front[..i];
      assert FirstAt(front, text, i);
      if j < last {
        assert keys[..j] == front[..j];
        assert FirstAt(front, other, j) && front[j] == other;
      }
    }
  }

  lemma {:induction false} SurvivorsInOrder(keys: seq<string>, a: nat, b: nat)
    requires a < b < |Survivors(keys)|
    ensures Before(keys, Survivors(keys)[a].0, Survivors(keys)[b].0)
  {
    var front := keys[..|keys| - 1];
    var s, t := Survivors(keys), Survivors(front);
    OneMoreKey(keys);
    SurvivorsCover(front, s[a].0);
    SurvivorsCover(front, s[b].0);
    SurvivorsDistinct(keys);
    assert t[a].0 == s[a].0;
    if b < |t| {
      SurvivorsInOrder(front, a, b);
    }
    BeforeOneMore(keys, s[a].0, s[b].0);
  }

  /** Every key text is there once, in order of first appearance, with its last position. */
  lemma SurvivorsMeaning(keys: seq<string>)
    ensures forall text :: text in keys <==> Listed(Survivors(keys), text)
    ensures forall i, k | 0 <= i < k < |Survivors(keys)| :: Survivors(keys)[i].0 != Survivors(keys)[k].0
    ensures forall k | 0 <= k < |Survivors(keys)| :: LastAt(keys, Survivors(keys)[k].0, Survivors(keys)[k].1)
    ensures forall a, b | 0 <= a < b < |Survivors(keys)| :: Before(keys, Survivors(keys)[a].0, Survivors(keys)[b].0)
  {
    forall text ensures text in keys <==> Listed(Survivors(keys), text) { SurvivorsCover(keys, text); }
    SurvivorsDistinct(keys);
    forall k | 0 <= k < |Survivors(keys)| ensures LastAt(keys, Survivors(keys)[k].0, Survivors(keys)[k].1) {
      SurvivorsLast(keys, k);
    }
    forall a, b | 0 <= a < b < |Survivors(keys)| ensures Before(keys, Survivors(keys)[a].0, Survivors(keys)[b].0) {
      SurvivorsInOrder(keys, a, b);
    }
  }

  /** Distinct keys all survive, in their order. */
  lemma {:induction false} DistinctSurvive(keys: seq<string>)
    requires forall i, j | 0 <= i < j < |keys| :: keys[i] != keys[j]
    ensures Survivors(keys) == seq(|keys|, i requires 0 <= i < |keys| => (keys[i], i))
  {
    if keys != [] {
      DistinctSurvive(keys[..|keys| - 1]);
    }
  }

  /** All results, or the first error. */
  function Collect<T, E>(rs: seq<Result<T, E>>): (r: Result<seq<T>, E>)
    ensures r.Ok? <==> forall i | 0 <= i < |rs| :: rs[i].Ok?
    ensures r.Ok? ==> |r.value| == |rs| && forall i | 0 <= i < |rs| :: rs[i] == Ok(r.value[i])
  {
    if rs == [] then Ok([])
    else if rs[0].Err? then Err(rs[0].error)
    else
      var rest := Collect(rs[1..]);
      if rest.Err? then rest else Ok([rs[0].value] + rest.value)
  }
}
