/** A whole dataset survives the wire: payload, frame, unframe, rebuild. */
module WireTheorems {
  import opened Wrappers
  import opened Arrays
  import opened Values
  import opened Markers
  import opened Attributes
  import opened Datasets
  import opened Dicts
  import opened Framing
  import opened FramingTheorems
  import opened Payloads
  import opened Merging

  /** Attributes that come through the codec as they are. */
  ghost predicate AttrsNormal(attrs: seq<(Key, Value)>) {
    AttrsShaped(attrs) && JsonLike(VDict(attrs)) && MarkerFree(VDict(attrs))
  }

  ghost predicate Sendable(ds: Dataset) {
    && Serializable(ds) && AttrsNormal(ds.attrs)
    && forall i | 0 <= i < |ds.Vars()| :: AttrsNormal(ds.Vars()[i].attrs)
  }

  /** No dimension before the last is empty: nested lists keep such a shape. */
  predicate Nestable(shape: seq<nat>) {
    forall k | 0 <= k < |shape| - 1 :: shape[k] != 0
  }

  /** Every complex variable has a shape nested lists can carry. */
  predicate ShapesSurvive(ds: Dataset) {
    forall i | 0 <= i < |ds.Vars()| :: IsBinary(ds.Vars()[i]) || Nestable(ds.Vars()[i].shape)
  }

  /** What is left of a shape in nested lists: nothing past its first empty dimension. */
  function Inferred(shape: seq<nat>): seq<nat> {
    if shape == [] then [] else if shape[0] == 0 then [0] else [shape[0]] + Inferred(shape[1..])
  }

  lemma {:induction false} InferredExact(shape: seq<nat>)
    ensures Nestable(shape) ==> Inferred(shape) == shape
    ensures !Nestable(shape) ==> |Inferred(shape)| < |shape|
  {
    if shape != [] {
      InferredExact(shape[1..]);
      assert forall k | 0 < k < |shape| :: shape[k] == shape[1..][k - 1];
      if shape[0] == 0 {
        assert |shape| == 1 ==> shape == [0];
      } else {
        assert Nestable(shape[1..]) <==> Nestable(shape);
      }
    }
  }

  /** Nested complex numbers come back in order, with the shape nesting keeps. */
  lemma {:induction false} NestedBack(shape: seq<nat>, vs: seq<Value>)
    requires |vs| == Prod(shape) && forall i | 0 <= i < |vs| :: vs[i].VComplex?
    ensures var v := Nest(shape, vs, ValueList);
            InferShape(v) == Inferred(shape) && Regular(v) && Leaves(v) == vs && MarkerFree(v)
    decreases |shape|, 0
  {
    if shape != [] {
      RowsBack(shape[0], shape[1..], vs);
    }
  }

  lemma LeavesOneMore(head: Value, rest: seq<Value>)
    ensures LeavesOf([head] + rest) == Leaves(head) + LeavesOf(rest)
  {
    assert ([head] + rest)[1..] == rest;
  }

  lemma {:induction false} RowsBack(n: nat, shape: seq<nat>, vs: seq<Value>)
    requires |vs| == n * Prod(shape) && forall i | 0 <= i < |vs| :: vs[i].VComplex?
    ensures var rows := NestRows(n, shape, vs, ValueList);
            && LeavesOf(rows) == vs
            && forall k | 0 <= k < n ::
                InferShape(rows[k]) == Inferred(shape) && Regular(rows[k]) && MarkerFree(rows[k])
    decreases |shape|, n + 1
  {
    if n > 0 {
      var p := Prod(shape);
      OneBlockMore(n, p);
      NestedBack(shape, vs[..p]);
      RowsBack(n - 1, shape, vs[p..]);
      var head, rest := Nest(shape, vs[..p], ValueList), NestRows(n - 1, shape, vs[p..], ValueList);
      assert NestRows(n, shape, vs, ValueList) == [head] + rest;
      LeavesOneMore(head, rest);
      assert vs[..p] + vs[p..] == vs;
    }
  }

  /** A variable as the wire leaves it before its attributes are restored. */
  function Arrived(v: Var): Var {
    v.(attrs := [], shape := if IsBinary(v) then v.shape else Inferred(v.shape))
  }

  lemma ComplexItems(v: Var)
    requires VarOk(v) && !IsBinary(v)
    ensures forall i | 0 <= i < |v.items| ::
              ItemValues(v.items)[i].VComplex? && AsComplex(ItemValues(v.items)[i]) == Some(v.items[i])
  {
    assert forall i | 0 <= i < |v.items| :: Fits(v.dtype, v.items[i]);
  }

  lemma NormalOfComplex(shape: seq<nat>, vs: seq<Value>)
    requires |vs| == Prod(shape) && forall i | 0 <= i < |vs| :: vs[i].VComplex?
    ensures Shaped(VArray(shape, vs)) && Normal(VArray(shape, vs)) == Nest(shape, vs, ValueList)
  {
    assert seq(|vs|, i requires 0 <= i < |vs| => Normal(vs[i])) == vs;
  }

  lemma ComplexArrives(v: Var)
    requires VarOk(v) && !IsBinary(v)
    ensures ArrayFor(v.name, Nested(JsonOf(v)), Some(v.dtype)) == Ok((v.dtype, Inferred(v.shape), v.items))
  {
    var vs := ItemValues(v.items);
    ComplexItems(v);
    NormalOfComplex(v.shape, vs);
    NestedBack(v.shape, vs);
    Markers.RoundTrip(VArray(v.shape, vs));
    assert seq(|vs|, i requires 0 <= i < |vs| => AsComplex(vs[i]).value) == v.items;
  }

  /** The bytes and entries of the binary variables line up. */
  lemma {:induction false} BinaryParts(vars: seq<Var>)
    requires forall i | 0 <= i < |vars| :: VarOk(vars[i])
    ensures forall i | 0 <= i < |vars| && IsBinary(vars[i]) :: AllBits(vars[i].items)
    ensures Matches(BinaryVars(vars), Parts(vars))
  {
    forall i | 0 <= i < |vars| && IsBinary(vars[i]) ensures AllBits(vars[i].items) {
      assert forall j | 0 <= j < |vars[i].items| :: Fits(vars[i].dtype, vars[i].items[j]);
    }
    if vars != [] {
      var last := vars[|vars| - 1];
      BinaryParts(vars[..|vars| - 1]);
      if IsBinary(last) {
        ItemsOfBytes(last.items, ItemSize(last.dtype));
      }
    }
  }

  /** Where a binary variable's entry and bytes are. */
  lemma {:induction false} BinaryAt(vars: seq<Var>, k: nat) returns (i: nat)
    requires k < |vars| && IsBinary(vars[k])
    requires forall i | 0 <= i < |vars| && IsBinary(vars[i]) :: AllBits(vars[i].items)
    requires |BinaryVars(vars)| == |Parts(vars)|
    ensures i < |BinaryVars(vars)| && BinaryVars(vars)[i] == (vars[k].name, BinInfo(vars[k].dtype, vars[k].shape))
    ensures Parts(vars)[i] == Bytes(vars[k].items)
  {
    var front := vars[..|vars| - 1];
    if k == |front| {
      i := |BinaryVars(vars)| - 1;
    } else {
      i := BinaryAt(front, k);
    }
  }

  lemma {:induction false} JsonAt(vars: seq<Var>, k: nat) returns (i: nat)
    requires k < |vars| && !IsBinary(vars[k])
    requires Sized(vars)
    ensures i < |JsonData(vars)| && JsonData(vars)[i] == (vars[k].name, JsonOf(vars[k]))
  {
    var front := vars[..|vars| - 1];
    if k == |front| {
      i := |JsonData(vars)| - 1;
    } else {
      i := JsonAt(front, k);
    }
  }

  lemma {:induction false} EntriesDistinct(vars: seq<Var>)
    requires Distinct(Names(vars)) && Sized(vars)
    ensures Unique(BinaryVars(vars)) && Unique(JsonData(vars))
  {
    if vars != [] {
      FreshEntries(vars);
      assert Names(vars[..|vars| - 1]) == Names(vars)[..|vars| - 1];
      EntriesDistinct(vars[..|vars| - 1]);
    }
  }
}
