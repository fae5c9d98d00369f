/** Datasets: named variables with dimensions, row-major items and attributes. */
module Datasets {
  import opened Wrappers
  import opened Arrays
  import opened Values
  import opened Base64

  datatype DType = Bool | Int(size: nat) | UInt(size: nat) | Float16 | Float32 | Float64 | Complex

  /** One element: the raw bytes of a plain dtype, or the parts of a complex number. */
  datatype Item = Bits(bytes: seq<byte>) | Cplx(re: Float, im: Float)

  datatype Var = Var(
    name: string, dims: seq<string>, shape: seq<nat>, dtype: DType, items: seq<Item>, attrs: seq<(Key, Value)>)

  datatype Dataset = Dataset(coords: seq<Var>, dataVars: seq<Var>, attrs: seq<(Key, Value)>)
  {
    function Vars(): seq<Var> {
      coords + dataVars
    }
  }

  function ItemSize(dtype: DType): nat {
    match dtype
    case Bool => 1
    case Int(size) => size
    case UInt(size) => size
    case Float16 => 2
    case Float32 => 4
    case Float64 => 8
    case Complex => 16
  }

  predicate Fits(dtype: DType, item: Item) {
    if dtype.Complex? then item.Cplx? else item.Bits? && |item.bytes| == ItemSize(dtype)
  }

  /** Finite exactly when the exponent bits are not all ones (IEEE 754, little-endian). */
  predicate IsFinite(dtype: DType, item: Item)
    requires Fits(dtype, item)
  {
    match dtype
    case Float16 => (item.bytes[1] as int) % 128 / 4 != 31
    case Float32 => (item.bytes[3] as int) % 128 * 2 + (item.bytes[2] as int) / 128 != 255
    case Float64 => (item.bytes[7] as int) % 128 * 16 + (item.bytes[6] as int) / 16 != 2047
    case Complex => item.re.Finite? && item.im.Finite?
    case _ => true
  }

  /** Whether a dtype has a NaN to mark what is not written yet. */
  predicate Probeable(dtype: DType) {
    dtype.Float16? || dtype.Float32? || dtype.Float64? || dtype.Complex?
  }

  predicate Distinct<T(==)>(xs: seq<T>) {
    forall i, j | 0 <= i < j < |xs| :: xs[i] != xs[j]
  }

  ghost predicate VarOk(v: Var) {
    && |v.dims| == |v.shape| && Distinct(v.dims)
    && |v.items| == Prod(v.shape)
    && forall i | 0 <= i < |v.items| :: Fits(v.dtype, v.items[i])
  }

  /** Variables agree on the size of every dimension they share. */
  predicate SizesAgree(vars: seq<Var>) {
    forall i, j, a, b | 0 <= i < |vars| && 0 <= j < |vars|
                        && 0 <= a < |vars[i].dims| == |vars[i].shape| && 0 <= b < |vars[j].dims| == |vars[j].shape|
                        && vars[i].dims[a] == vars[j].dims[b] ::
      vars[i].shape[a] == vars[j].shape[b]
  }

  function Names(vars: seq<Var>): (names: seq<string>)
    ensures |names| == |vars|
  {
    seq(|vars|, i requires 0 <= i < |vars| => vars[i].name)
  }

  ghost predicate WellFormed(ds: Dataset) {
    && (forall i | 0 <= i < |ds.Vars()| :: VarOk(ds.Vars()[i]))
    && SizesAgree(ds.Vars())
    && Distinct(Names(ds.Vars()))
  }

  /** The position of a dimension in a list, if it is there. */
  function Axis(dims: seq<string>, dim: string): (k: Option<nat>)
    ensures k.Some? ==> k.value < |dims| && dims[k.value] == dim
    ensures k.None? ==> dim !in dims
  {
    if dims == [] then None
    else if dims[0] == dim then Some(0)
    else
      var rest := Axis(dims[1..], dim);
      if rest.Some? then Some(rest.value + 1) else None
  }

  function SizeIn(vars: seq<Var>, dim: string): nat {
    if vars == [] then 0
    else
      var k := Axis(vars[0].dims, dim);
      if k.Some? && k.value < |vars[0].shape| then vars[0].shape[k.value] else SizeIn(vars[1..], dim)
  }

  /** `dataset.sizes.get(dim, 0)`. */
  function Size(ds: Dataset, dim: string): nat {
    SizeIn(ds.Vars(), dim)
  }

  lemma {:induction false} SizeInAll(vars: seq<Var>, dim: string, i: nat, k: nat)
    requires SizesAgree(vars) && forall x | 0 <= x < |vars| :: |vars[x].dims| == |vars[x].shape|
    requires i < |vars| && k < |vars[i].dims| && vars[i].dims[k] == dim
    ensures SizeIn(vars, dim) == vars[i].shape[k]
  {
    var a := Axis(vars[0].dims, dim);
    if a.None? {
      assert forall x | 0 <= x < |vars[1..]| :: vars[1..][x] == vars[x + 1];
      SizeInAll(vars[1..], dim, i - 1, k);
    } else {
      assert vars[0].dims[a.value] == vars[i].dims[k];
    }
  }
}
