/** What counts as written, down to the bits, and where the frontier lies among the items. */
module Frontiers {
  import opened Wrappers
  import opened Base64
  import opened Arrays
  import opened Datasets
  import opened Rows
  import Merging

  /** The number a little-endian item is. */
  function LittleEndian(bytes: seq<byte>): nat {
    if bytes == [] then 0 else bytes[0] as nat + 256 * LittleEndian(bytes[1..])
  }

  /** The widths of mantissa and exponent in IEEE 754. */
  function Widths(dtype: DType): Option<(nat, nat)> {
    match dtype
    case Float16 => Some((10, 5))
    case Float32 => Some((23, 8))
    case Float64 => Some((52, 11))
    case _ => None
  }

  function PowerOfTwo(n: nat): (p: nat)
    ensures p > 0
  {
    if n == 0 then 1 else 2 * PowerOfTwo(n - 1)
  }

  /** Not an infinity and not a NaN: the exponent bits are not all ones; for a complex number, in
      neither part. */
  ghost predicate Finite(dtype: DType, item: Item) {
    match item
    case Cplx(re, im) => re.Finite? && im.Finite?
    case Bits(bytes) =>
      match Widths(dtype)
      case None => true
      case Some((p, w)) => LittleEndian(bytes) / PowerOfTwo(p) % PowerOfTwo(w) != PowerOfTwo(w) - 1
  }

  lemma Powers()
    ensures PowerOfTwo(5) == 32 && PowerOfTwo(8) == 256 && PowerOfTwo(10) == 1024 && PowerOfTwo(11) == 2048
    ensures PowerOfTwo(23) == 0x80_0000 && PowerOfTwo(52) == 0x10_0000_0000_0000
  {
    assert PowerOfTwo(8) == 256;
    PowerSum(8, 8);
    PowerSum(16, 7);
    PowerSum(16, 16);
    PowerSum(32, 16);
    PowerSum(48, 4);
  }

  lemma {:induction false} PowerSum(m: nat, n: nat)
    ensures PowerOfTwo(m + n) == PowerOfTwo(m) * PowerOfTwo(n)
  {
    if n > 0 {
      PowerSum(m, n - 1);
      assert PowerOfTwo(m) * (2 * PowerOfTwo(n - 1)) == 2 * (PowerOfTwo(m) * PowerOfTwo(n - 1));
    }
  }

  /** Dropping the low byte divides by 256. */
  lemma HighPart(bytes: seq<byte>)
    requires bytes != []
    ensures LittleEndian(bytes) / 256 == LittleEndian(bytes[1..])
  {
  }

  lemma Two(b: seq<byte>)
    requires |b| == 2
    ensures LittleEndian(b) == b[0] as nat + 256 * b[1] as nat
  {
    assert b[1..] == [b[1]] && [b[1]][1..] == [];
    assert LittleEndian([b[1]]) == b[1] as nat;
  }

  lemma DropTwo(b: seq<byte>)
    requires |b| >= 2
    ensures LittleEndian(b) / 0x1_0000 == LittleEndian(b[2..])
  {
    HighPart(b);
    HighPart(b[1..]);
    assert b[1..][1..] == b[2..];
  }

  lemma HalfBits(b: seq<byte>)
    requires |b| == 2
    ensures LittleEndian(b) / 1024 % 32 == b[1] as int % 128 / 4
  {
    Two(b);
  }

  lemma SingleBits(b: seq<byte>)
    requires |b| == 4
    ensures LittleEndian(b) / 0x80_0000 % 256 == b[3] as int % 128 * 2 + b[2] as int / 128
  {
    DropTwo(b);
    Two(b[2..]);
    TwoShifts(LittleEndian(b));
    SingleExponent(b[2], b[3]);
  }

  lemma TwoShifts(x: nat)
    ensures x / 0x80_0000 == x / 0x1_0000 / 128
  {
  }

  /** The exponent bits in the two high bytes of a single, and of a double. */
  lemma SingleExponent(low: byte, high: byte)
    ensures (low as nat + 256 * high as nat) / 128 % 256 == high as int % 128 * 2 + low as int / 128
  {
    var sign, rest := high as int / 128, high as int % 128;
    assert (low as nat + 256 * high as nat) / 128 == 2 * high as int + low as int / 128;
    assert 2 * high as int == 256 * sign + 2 * rest;
  }

  lemma DoubleExponent(low: byte, high: byte)
    ensures (low as nat + 256 * high as nat) / 16 % 2048 == high as int % 128 * 16 + low as int / 16
  {
    var sign, rest := high as int / 128, high as int % 128;
    assert (low as nat + 256 * high as nat) / 16 == 16 * high as int + low as int / 16;
    assert 16 * high as int == 2048 * sign + 16 * rest;
  }

  lemma DoubleBits(b: seq<byte>)
    requires |b| == 8
    ensures LittleEndian(b) / 0x10_0000_0000_0000 % 2048 == b[7] as int % 128 * 16 + b[6] as int / 16
  {
    HighTwo(b);
    FourShifts(LittleEndian(b));
    DoubleExponent(b[6], b[7]);
  }

  lemma HighTwo(b: seq<byte>)
    requires |b| == 8
    ensures LittleEndian(b) / 0x1_0000 / 0x1_0000 / 0x1_0000 == b[6] as nat + 256 * b[7] as nat
  {
    DropTwo(b);
    DropTwo(b[2..]);
    DropTwo(b[4..]);
    assert b[2..][2..] == b[4..] && b[4..][2..] == b[6..];
    Two(b[6..]);
  }

  lemma FourShifts(x: nat)
    ensures x / 0x10_0000_0000_0000 == x / 0x1_0000 / 0x1_0000 / 0x1_0000 / 16
  {
    assert x / 0x1_0000_0000 == x / 0x1_0000 / 0x1_0000;
    assert x / 0x1_0000_0000_0000 == x / 0x1_0000_0000 / 0x1_0000;
  }

  /** The bit test is the exponent test, for every item that fits its dtype. */
  lemma FiniteMeaning(dtype: DType, item: Item)
    requires Fits(dtype, item)
    ensures IsFinite(dtype, item) <==> Finite(dtype, item)
  {
    Powers();
    match dtype
    case Float16 => HalfBits(item.bytes);
    case Float32 => SingleBits(item.bytes);
    case Float64 => DoubleBits(item.bytes);
    case _ =>
  }

  /** A float is its sign, mantissa and exponent bits wide, a complex number two doubles, and the
      dtypes that can be probed for NaN are these and no other. */
  lemma ItemWidths(dtype: DType)
    ensures Widths(dtype).Some? ==> 8 * ItemSize(dtype) == 1 + Widths(dtype).value.0 + Widths(dtype).value.1
    ensures ItemSize(Complex) == 2 * ItemSize(Float64) && ItemSize(Bool) == 1
    ensures dtype.Int? || dtype.UInt? ==> ItemSize(dtype) == dtype.size
    ensures Probeable(dtype) <==> Widths(dtype).Some? || dtype == Complex
  {
  }

  /** The data variables all have `dim` first, and every one of them can be probed. */
  ghost predicate Swept(ds: Dataset, dim: string) {
    AppendDim(ds) == Some(dim)
    && forall v | v in ds.dataVars :: v.dtype.Float16? || v.dtype.Float32? || v.dtype.Float64? || v.dtype.Complex?
  }

  /** Some item from `lo` up to `hi` is finite. */
  ghost predicate FiniteBetween(v: Var, lo: int, hi: int) {
    exists x | 0 <= x < |v.items| && lo <= x < hi :: Finite(v.dtype, v.items[x])
  }

  /** A row on the leading axis, and all rows from one on, as stretches of the items. */
  ghost predicate FiniteInRow(v: Var, r: int) {
    v.shape != [] && FiniteBetween(v, r * Inner(v.shape, 0), (r + 1) * Inner(v.shape, 0))
  }

  ghost predicate FiniteFromRow(v: Var, r: int) {
    v.shape != [] && FiniteBetween(v, r * Inner(v.shape, 0), |v.items|)
  }

  lemma ItemsMean(v: Var, x: nat)
    requires VarOk(v) && x < |v.items|
    ensures Fits(v.dtype, v.items[x]) && (IsFinite(v.dtype, v.items[x]) <==> Finite(v.dtype, v.items[x]))
  {
    FiniteMeaning(v.dtype, v.items[x]);
  }

  lemma StretchFinite(v: Var, row: seq<Item>, lo: nat, hi: nat)
    requires VarOk(v) && lo <= hi <= |v.items| && row == v.items[lo..hi]
    ensures (exists i | 0 <= i < |row| :: Fits(v.dtype, row[i]) && IsFinite(v.dtype, row[i]))
            <==> FiniteBetween(v, lo, hi)
  {
    if i :| 0 <= i < |row| && Fits(v.dtype, row[i]) && IsFinite(v.dtype, row[i]) {
      ItemsMean(v, lo + i);
    }
    if FiniteBetween(v, lo, hi) {
      var x :| 0 <= x < |v.items| && lo <= x < hi && Finite(v.dtype, v.items[x]);
      ItemsMean(v, x);
      assert row[x - lo] == v.items[x];
    }
  }

  lemma RowIsItems(v: Var, r: nat)
    requires VarOk(v) && v.shape != [] && r < v.shape[0]
    ensures RowFinite(v, 0, r) <==> FiniteInRow(v, r)
  {
    Merging.LeadingSlice(v, r, r + 1);
    StretchFinite(v, SliceVar(v, 0, r, r + 1).items, r * Inner(v.shape, 0), (r + 1) * Inner(v.shape, 0));
  }

  /** The row an item lies in. */
  lemma {:induction false} RowOf(x: nat, rows: nat, inner: nat) returns (r: nat)
    requires x < rows * inner
    ensures r < rows && r * inner <= x < (r + 1) * inner
  {
    OneBlockMore(rows, inner);
    if (rows - 1) * inner <= x {
      r := rows - 1;
    } else {
      r := RowOf(x, rows - 1, inner);
    }
  }

  lemma RowsInOrder(r: nat, f: nat, inner: nat, x: nat)
    requires f * inner <= x < (r + 1) * inner
    ensures f <= r
  {
    if r + 1 <= f {
      Scale(r + 1, f, f, inner);
    }
  }

  /** Nothing finite lies at or past row `f` if no row from `f` on is written. */
  lemma NothingBeyond(v: Var, dim: string, f: nat)
    requires VarOk(v) && v.shape != [] && v.dims[0] == dim
    requires forall r: nat | f <= r :: !Written(v, dim, r)
    ensures !FiniteFromRow(v, f)
  {
    var inner := Inner(v.shape, 0);
    ProdSplit(v.shape, 0);
    assert Outer(v.shape, 0) == 1 && Axis(v.dims, dim) == Some(0);
    forall x | 0 <= x < |v.items| && f * inner <= x ensures !Finite(v.dtype, v.items[x]) {
      var r := RowOf(x, v.shape[0], inner);
      RowsInOrder(r, f, inner, x);
      RowIsItems(v, r);
      assert !Written(v, dim, r);
    }
  }

  lemma SweptLeads(ds: Dataset, dim: string, v: Var)
    requires WellFormed(ds) && Swept(ds, dim) && v in ds.dataVars
    ensures VarOk(v) && v.shape != [] && v.dims[0] == dim && Axis(v.dims, dim) == Some(0) && !Blocks(v, dim)
  {
    DataVarsOk(ds);
    AppendDimMeaning(ds, dim);
  }

  /** The frontier among the items themselves: something in the row before it is finite, and
      nothing in any row from it on, of any data variable. */
  lemma FrontierByPosition(ds: Dataset, dim: string)
    requires WellFormed(ds) && Swept(ds, dim)
    ensures Frontier(ds, dim) > 0 ==> exists v | v in ds.dataVars :: FiniteInRow(v, Frontier(ds, dim) - 1)
    ensures forall v | v in ds.dataVars :: v.shape != [] && !FiniteFromRow(v, Frontier(ds, dim))
  {
    var f := Frontier(ds, dim);
    FrontierMeaning(ds, dim, f);
    forall v | v in ds.dataVars ensures !Blocks(v, dim) {
      SweptLeads(ds, dim, v);
    }
    if Size(ds, dim) != 0 && f > 0 {
      var v :| v in ds.dataVars && Written(v, dim, f - 1);
      SweptLeads(ds, dim, v);
      RowIsItems(v, f - 1);
    }
    forall v | v in ds.dataVars ensures v.shape != [] && !FiniteFromRow(v, f) {
      SweptLeads(ds, dim, v);
      if Size(ds, dim) == 0 {
        EmptyDim(ds, dim);
      } else {
        NothingBeyond(v, dim, f);
      }
    }
  }

  lemma EmptyDim(ds: Dataset, dim: string)
    requires WellFormed(ds) && AppendDim(ds) == Some(dim) && Size(ds, dim) == 0
    ensures forall v | v in ds.dataVars :: v.items == []
  {
    AppendDimMeaning(ds, dim);
    forall v | v in ds.dataVars ensures v.items == [] {
      var i :| 0 <= i < |ds.dataVars| && ds.dataVars[i] == v;
      assert ds.Vars()[|ds.coords| + i] == v;
      assert VarOk(ds.Vars()[|ds.coords| + i]) && Axis(v.dims, dim) == Some(0);
      SizeEverywhere(ds, dim, |ds.coords| + i);
      ProdSplit(v.shape, 0);
    }
  }

  /** A variable with no NaN to mark what is missing makes every row count. */
  lemma FrontierOfUnprobed(ds: Dataset, dim: string, v: Var)
    requires WellFormed(ds) && v in ds.dataVars && dim in v.dims
    requires v.dtype.Bool? || v.dtype.Int? || v.dtype.UInt?
    ensures Frontier(ds, dim) == Size(ds, dim)
  {
    FrontierMeaning(ds, dim, Frontier(ds, dim));
    assert Blocks(v, dim);
  }

  /** The size of a dimension is that of every variable that has it, and zero if none has. */
  lemma SizeMeaning(ds: Dataset, dim: string, n: nat)
    requires WellFormed(ds)
    ensures Size(ds, dim) == n <==>
              if exists i, k :: 0 <= i < |ds.Vars()| && 0 <= k < |ds.Vars()[i].dims| && ds.Vars()[i].dims[k] == dim
              then forall i, k | 0 <= i < |ds.Vars()| && 0 <= k < |ds.Vars()[i].dims| && ds.Vars()[i].dims[k] == dim ::
                     k < |ds.Vars()[i].shape| && ds.Vars()[i].shape[k] == n
              else n == 0
  {
    assert forall i | 0 <= i < |ds.Vars()| :: VarOk(ds.Vars()[i]);
    forall i, k | 0 <= i < |ds.Vars()| && 0 <= k < |ds.Vars()[i].dims| && ds.Vars()[i].dims[k] == dim
      ensures k < |ds.Vars()[i].shape| && ds.Vars()[i].shape[k] == Size(ds, dim)
    {
      SizeInAll(ds.Vars(), dim, i, k);
    }
    if forall i | 0 <= i < |ds.Vars()| :: dim !in ds.Vars()[i].dims {
      NoSize(ds.Vars(), dim);
    }
  }

  lemma {:induction false} NoSize(vars: seq<Var>, dim: string)
    requires forall i | 0 <= i < |vars| :: dim !in vars[i].dims
    ensures SizeIn(vars, dim) == 0
  {
    if vars != [] {
      NoSize(vars[1..], dim);
    }
  }
}
