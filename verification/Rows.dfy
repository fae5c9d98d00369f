/** Rows along a dimension: slicing a dataset, and how far a sweep has been written. */
module Rows {
  import opened Wrappers
  import opened Arrays
  import opened Datasets

  /** Rows `lo` to `hi` of a variable along its axis `k`. */
  function SliceVar(v: Var, k: nat, lo: nat, hi: nat): (s: Var)
    requires k < |v.shape| && |v.items| == Prod(v.shape) && lo <= hi <= v.shape[k]
    ensures |s.items| == Prod(s.shape)
  {
    var n, inner := v.shape[k], Inner(v.shape, k);
    var shape := v.shape[k := hi - lo];
    ProdSplit(v.shape, k);
    ProdSplit(shape, k);
    assert Outer(shape, k) == Outer(v.shape, k) && Inner(shape, k) == inner;
    Scale(lo, hi, n, inner);
    v.(shape := shape, items := Cut(v.items, Outer(v.shape, k), n * inner, lo * inner, hi * inner))
  }

  lemma Scale(lo: nat, hi: nat, n: nat, inner: nat)
    requires lo <= hi <= n
    ensures lo * inner <= hi * inner <= n * inner && hi * inner - lo * inner == (hi - lo) * inner
  {
  }

  /** A well-formed variable with at least `hi` rows along `dim`, if it has that dimension. */
  ghost predicate Reaches(v: Var, dim: string, hi: nat) {
    VarOk(v) && (Axis(v.dims, dim).Some? ==> hi <= v.shape[Axis(v.dims, dim).value])
  }

  /** `dataset.isel({dim: slice(lo, hi)})` on one variable. */
  function IselVar(v: Var, dim: string, lo: nat, hi: nat): Var
    requires Reaches(v, dim, hi) && lo <= hi
  {
    match Axis(v.dims, dim)
    case None => v
    case Some(k) => SliceVar(v, k, lo, hi)
  }

  function IselVars(vars: seq<Var>, dim: string, lo: nat, hi: nat): (r: seq<Var>)
    requires lo <= hi && forall i | 0 <= i < |vars| :: Reaches(vars[i], dim, hi)
    ensures |r| == |vars|
  {
    seq(|vars|, i requires 0 <= i < |vars| => IselVar(vars[i], dim, lo, hi))
  }

  ghost predicate Sliceable(ds: Dataset, dim: string, hi: nat) {
    && (forall i | 0 <= i < |ds.coords| :: Reaches(ds.coords[i], dim, hi))
    && (forall i | 0 <= i < |ds.dataVars| :: Reaches(ds.dataVars[i], dim, hi))
  }

  function Isel(ds: Dataset, dim: string, lo: nat, hi: nat): Dataset
    requires Sliceable(ds, dim, hi) && lo <= hi
  {
    ds.(coords := IselVars(ds.coords, dim, lo, hi), dataVars := IselVars(ds.dataVars, dim, lo, hi))
  }

  /** The dimension a sweep grows along: the first of every data variable. */
  function AppendDim(ds: Dataset): Option<string> {
    if ds.dataVars == [] || exists i | 0 <= i < |ds.dataVars| :: ds.dataVars[i].dims == [] then None
    else
      var first := ds.dataVars[0].dims[0];
      if exists i | 0 <= i < |ds.dataVars| :: ds.dataVars[i].dims[0] != first then None else Some(first)
  }

  /** It is the one dimension that comes first in every data variable, if there is one. */
  lemma AppendDimMeaning(ds: Dataset, dim: string)
    ensures AppendDim(ds) == Some(dim) <==>
              ds.dataVars != [] && forall v | v in ds.dataVars :: v.dims != [] && v.dims[0] == dim
  {
    if AppendDim(ds) != Some(dim) && ds.dataVars != [] {
      assert ds.dataVars[0] in ds.dataVars;
      if AppendDim(ds).None? && forall i | 0 <= i < |ds.dataVars| :: ds.dataVars[i].dims != [] {
        var i :| 0 <= i < |ds.dataVars| && ds.dataVars[i].dims[0] != ds.dataVars[0].dims[0];
        assert ds.dataVars[i] in ds.dataVars;
      }
    }
  }

  /** Some item of row `r` along axis `k` is finite. */
  predicate RowFinite(v: Var, k: nat, r: nat)
    requires VarOk(v) && k < |v.shape| && r < v.shape[k]
  {
    var row := SliceVar(v, k, r, r + 1).items;
    exists i | 0 <= i < |row| :: Fits(v.dtype, row[i]) && IsFinite(v.dtype, row[i])
  }

  /** One past the last row below `n` that holds something finite. */
  function LastFinite(v: Var, k: nat, n: nat): (r: nat)
    requires VarOk(v) && k < |v.shape| && n <= v.shape[k]
    ensures r <= n
  {
    if n == 0 then 0 else if RowFinite(v, k, n - 1) then n else LastFinite(v, k, n - 1)
  }

  ghost predicate NoneFinite(v: Var, k: nat, lo: nat, hi: nat)
    requires VarOk(v) && k < |v.shape| && hi <= v.shape[k]
  {
    forall i | lo <= i < hi :: !RowFinite(v, k, i)
  }

  lemma {:induction false} LastFiniteIsLast(v: Var, k: nat, n: nat)
    requires VarOk(v) && k < |v.shape| && n <= v.shape[k]
    ensures LastFinite(v, k, n) > 0 ==> RowFinite(v, k, LastFinite(v, k, n) - 1)
    ensures NoneFinite(v, k, LastFinite(v, k, n), n)
  {
    if n == 0 {
    } else if RowFinite(v, k, n - 1) {
    } else {
      LastFiniteIsLast(v, k, n - 1);
    }
  }

  /** What one variable says has been written along `dim`; nothing if it does not have it. */
  function VarFrontier(v: Var, dim: string): nat
    requires VarOk(v)
  {
    match Axis(v.dims, dim)
    case None => 0
    case Some(k) => LastFinite(v, k, v.shape[k])
  }

  predicate Blocks(v: Var, dim: string) {
    dim in v.dims && !Probeable(v.dtype)
  }

  function Max(a: nat, b: nat): nat {
    if a < b then b else a
  }

  predicate AnyBlocks(vars: seq<Var>, dim: string) {
    exists i | 0 <= i < |vars| :: Blocks(vars[i], dim)
  }

  ghost predicate AllOk(vars: seq<Var>) {
    forall i | 0 <= i < |vars| :: VarOk(vars[i])
  }

  function MaxFrontier(vars: seq<Var>, dim: string): nat
    requires AllOk(vars)
  {
    if vars == [] then 0
    else Max(MaxFrontier(vars[..|vars| - 1], dim), VarFrontier(vars[|vars| - 1], dim))
  }

  /** How many leading rows of `dim` have been written. */
  function Frontier(ds: Dataset, dim: string): nat
    requires WellFormed(ds)
  {
    DataVarsOk(ds);
    if Size(ds, dim) == 0 then 0
    else if AnyBlocks(ds.dataVars, dim) then Size(ds, dim)
    else MaxFrontier(ds.dataVars, dim)
  }

  lemma DataVarsOk(ds: Dataset)
    requires WellFormed(ds)
    ensures AllOk(ds.dataVars) && AllOk(ds.coords)
  {
    assert forall i | 0 <= i < |ds.dataVars| :: ds.dataVars[i] == ds.Vars()[|ds.coords| + i];
    assert forall i | 0 <= i < |ds.coords| :: ds.coords[i] == ds.Vars()[i];
  }

  /** What one more variable adds. */
  lemma OneMore(vars: seq<Var>, dim: string, n: nat)
    requires n < |vars| && AllOk(vars)
    ensures AllOk(vars[..n]) && AllOk(vars[..n + 1]) && VarOk(vars[n])
    ensures MaxFrontier(vars[..n + 1], dim) == Max(MaxFrontier(vars[..n], dim), VarFrontier(vars[n], dim))
    ensures AnyBlocks(vars[..n + 1], dim) <==> AnyBlocks(vars[..n], dim) || Blocks(vars[n], dim)
    ensures Blocks(vars[n], dim) ==> AnyBlocks(vars, dim)
    ensures dim !in vars[n].dims ==> VarFrontier(vars[n], dim) == 0
  {
    assert vars[..n + 1][..n] == vars[..n];
  }

  /** The loop of `row_frontier`: a running maximum with an early return. */
  method RowFrontier(ds: Dataset, dim: string) returns (frontier: nat)
    requires WellFormed(ds)
    ensures frontier == Frontier(ds, dim)
  {
    DataVarsOk(ds);
    var total := Size(ds, dim);
    if total == 0 {
      return 0;
    }
    frontier := 0;
    var vars := ds.dataVars;
    for n := 0 to |vars|
      invariant AllOk(vars[..n]) && !AnyBlocks(vars[..n], dim)
      invariant frontier == MaxFrontier(vars[..n], dim)
    {
      OneMore(vars, dim, n);
      if dim in vars[n].dims {
        if !Probeable(vars[n].dtype) {
          return total;
        }
        var written := VarFrontier(vars[n], dim);
        if written > 0 {
          frontier := Max(frontier, written);
        }
      }
    }
    assert vars[..|vars|] == vars;
  }

  /** The variable has row `r` along `dim`, with something finite in it. */
  ghost predicate Written(v: Var, dim: string, r: nat) {
    VarOk(v) && Axis(v.dims, dim).Some? && r < v.shape[Axis(v.dims, dim).value]
    && RowFinite(v, Axis(v.dims, dim).value, r)
  }

  /** What the frontier means, variable by variable and in no particular order. */
  ghost predicate IsFrontier(ds: Dataset, dim: string, n: nat)
    requires WellFormed(ds)
  {
    if Size(ds, dim) == 0 then n == 0
    else if exists v | v in ds.dataVars :: Blocks(v, dim) then n == Size(ds, dim)
    else Reached(ds.dataVars, dim, n)
  }

  /** `n` is the least count past which no row of any variable holds anything finite. */
  ghost predicate Reached(vars: seq<Var>, dim: string, n: nat) {
    && (n > 0 ==> exists v | v in vars :: Written(v, dim, n - 1))
    && (forall v, r: nat | v in vars && n <= r :: !Written(v, dim, r))
  }

  lemma VarFrontierMeaning(v: Var, dim: string)
    requires VarOk(v)
    ensures VarFrontier(v, dim) > 0 ==> Written(v, dim, VarFrontier(v, dim) - 1)
    ensures forall r: nat | VarFrontier(v, dim) <= r :: !Written(v, dim, r)
  {
    var a := Axis(v.dims, dim);
    if a.Some? {
      LastFiniteIsLast(v, a.value, v.shape[a.value]);
    }
  }

  lemma ReachedMore(vars: seq<Var>, last: Var, dim: string, m: nat, f: nat)
    requires vars != [] && last == vars[|vars| - 1] && Reached(vars[..|vars| - 1], dim, m)
    requires f > 0 ==> Written(last, dim, f - 1)
    requires forall r: nat | f <= r :: !Written(last, dim, r)
    ensures Reached(vars, dim, Max(m, f))
  {
    var front := vars[..|vars| - 1];
    assert vars == front + [last];
    if Max(m, f) > 0 {
      if f <= m {
        var v :| v in front && Written(v, dim, m - 1);
        assert v in vars;
      } else {
        assert last in vars;
      }
    }
  }

  lemma {:induction false} MaxFrontierMeaning(vars: seq<Var>, dim: string)
    requires AllOk(vars)
    ensures Reached(vars, dim, MaxFrontier(vars, dim))
  {
    if vars != [] {
      var front, last := vars[..|vars| - 1], vars[|vars| - 1];
      MaxFrontierMeaning(front, dim);
      VarFrontierMeaning(last, dim);
      ReachedMore(vars, last, dim, MaxFrontier(front, dim), VarFrontier(last, dim));
    }
  }

  /** The loop computes the least count past which nothing is finite, and only that. */
  lemma FrontierMeaning(ds: Dataset, dim: string, n: nat)
    requires WellFormed(ds)
    ensures IsFrontier(ds, dim, n) <==> n == Frontier(ds, dim)
  {
    DataVarsOk(ds);
    MaxFrontierMeaning(ds.dataVars, dim);
    assert (exists v | v in ds.dataVars :: Blocks(v, dim)) <==> AnyBlocks(ds.dataVars, dim);
  }

  lemma ReachedIgnoresOrder(vars: seq<Var>, others: seq<Var>, dim: string, n: nat)
    requires Reached(vars, dim, n) && forall v :: v in vars <==> v in others
    ensures Reached(others, dim, n)
  {
  }

  /** The order of the data variables does not matter, nor where an early return happens. */
  lemma FrontierIgnoresOrder(ds: Dataset, other: Dataset, dim: string)
    requires WellFormed(ds) && WellFormed(other) && Size(ds, dim) == Size(other, dim)
    requires forall v :: v in ds.dataVars <==> v in other.dataVars
    ensures Frontier(ds, dim) == Frontier(other, dim)
  {
    var n := Frontier(ds, dim);
    FrontierMeaning(ds, dim, n);
    if Reached(ds.dataVars, dim, n) {
      ReachedIgnoresOrder(ds.dataVars, other.dataVars, dim, n);
    }
    FrontierMeaning(other, dim, n);
  }

  /** Every variable with the dimension has the dataset's size along it. */
  lemma SizeEverywhere(ds: Dataset, dim: string, i: nat)
    requires WellFormed(ds) && i < |ds.Vars()| && Axis(ds.Vars()[i].dims, dim).Some?
    ensures VarOk(ds.Vars()[i]) && ds.Vars()[i].shape[Axis(ds.Vars()[i].dims, dim).value] == Size(ds, dim)
  {
    SizeInAll(ds.Vars(), dim, i, Axis(ds.Vars()[i].dims, dim).value);
  }

  lemma {:induction false} MaxFrontierBounded(vars: seq<Var>, dim: string, size: nat)
    requires AllOk(vars)
    requires forall i | 0 <= i < |vars| && Axis(vars[i].dims, dim).Some? ::
             vars[i].shape[Axis(vars[i].dims, dim).value] == size
    ensures MaxFrontier(vars, dim) <= size
  {
    if vars != [] {
      MaxFrontierBounded(vars[..|vars| - 1], dim, size);
    }
  }

  /** No more rows are written than there are. */
  lemma FrontierBounded(ds: Dataset, dim: string)
    requires WellFormed(ds)
    ensures Frontier(ds, dim) <= Size(ds, dim)
  {
    DataVarsOk(ds);
    forall i | 0 <= i < |ds.dataVars| && Axis(ds.dataVars[i].dims, dim).Some?
      ensures ds.dataVars[i].shape[Axis(ds.dataVars[i].dims, dim).value] == Size(ds, dim)
    {
      assert ds.dataVars[i] == ds.Vars()[|ds.coords| + i];
      SizeEverywhere(ds, dim, |ds.coords| + i);
    }
    MaxFrontierBounded(ds.dataVars, dim, Size(ds, dim));
  }

  lemma WholeIsSliceable(ds: Dataset, dim: string, n: nat)
    requires WellFormed(ds) && n <= Size(ds, dim)
    ensures Sliceable(ds, dim, n)
  {
    forall i | 0 <= i < |ds.Vars()| ensures Reaches(ds.Vars()[i], dim, n) {
      if Axis(ds.Vars()[i].dims, dim).Some? { SizeEverywhere(ds, dim, i); }
    }
    assert forall i | 0 <= i < |ds.dataVars| :: ds.dataVars[i] == ds.Vars()[|ds.coords| + i];
    assert forall i | 0 <= i < |ds.coords| :: ds.coords[i] == ds.Vars()[i];
  }

  /** Where the items of a slice come from: block `o` of the outer axes, offset `j` in it. */
  lemma SliceItems(v: Var, k: nat, lo: nat, hi: nat, o: nat, j: nat, p: nat, q: nat)
    requires VarOk(v) && k < |v.shape| && lo <= hi <= v.shape[k]
    requires o < Outer(v.shape, k) && j < hi * Inner(v.shape, k) - lo * Inner(v.shape, k)
    requires p == o * (hi * Inner(v.shape, k) - lo * Inner(v.shape, k)) && q == o * (v.shape[k] * Inner(v.shape, k))
    ensures p + j < |SliceVar(v, k, lo, hi).items| && q + lo * Inner(v.shape, k) + j < |v.items|
    ensures SliceVar(v, k, lo, hi).items[p + j] == v.items[q + lo * Inner(v.shape, k) + j]
  {
    var inner := Inner(v.shape, k);
    ProdSplit(v.shape, k);
    Scale(lo, hi, v.shape[k], inner);
    CutAt(v.items, Outer(v.shape, k), v.shape[k] * inner, lo * inner, hi * inner, o, j, p, q);
  }
}
