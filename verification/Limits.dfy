/** Inputs on which stronger claims fail. */
module Limits {
  import opened Wrappers
  import opened Arrays
  import opened Datasets
  import opened Rows
  import opened Incremental
  import opened Merging
  import opened Values
  import opened Framing
  import opened Payloads
  import opened WireTheorems
  import opened WholeDatasets
  import opened Deltas

  const NUMBER: Item := Bits([0, 0, 0, 0, 0, 0, 0, 0])
  const MISSING: Item := Bits([0, 0, 0, 0, 0, 0, 248, 127])

  /** A variable of one row with two columns. */
  function OneRow(a: Item, b: Item): Var {
    Var("v", ["row", "column"], [1, 2], Float64, [a, b], [])
  }

  /** A single row is the whole variable. */
  lemma OnlyRowIsAll(v: Var)
    requires VarOk(v) && v.shape != [] && v.shape[0] == 1
    ensures SliceVar(v, 0, 0, 1).items == v.items
  {
    LeadingSlice(v, 0, 1);
    ProdSplit(v.shape, 0);
    var inner := Inner(v.shape, 0);
    assert Outer(v.shape, 0) == 1 && 0 * inner == 0 && 1 * inner == inner;
    assert v.items[0..inner] == v.items;
  }

  lemma ProdOfTwo(m: nat, n: nat)
    ensures Prod([m, n]) == m * n
  {
    assert [n][1..] == [];
    assert Prod([n]) == n;
    assert [m, n][1..] == [n];
  }

  lemma OneRowOk(b: Item)
    requires Fits(Float64, b)
    ensures VarOk(OneRow(NUMBER, b)) && SliceVar(OneRow(NUMBER, b), 0, 0, 1).items == [NUMBER, b]
  {
    ProdOfTwo(1, 2);
    OnlyRowIsAll(OneRow(NUMBER, b));
  }

  lemma AloneIsWellFormed(v: Var)
    requires VarOk(v)
    ensures WellFormed(Dataset([], [v], []))
  {
    assert Dataset([], [v], []).Vars() == [v];
  }

  lemma AloneFrontier(v: Var, dim: string)
    requires VarOk(v)
    ensures MaxFrontier([v], dim) == VarFrontier(v, dim)
  {
    assert [v][..0] == [];
  }

  /** The only row of a variable is written if its first item is finite. */
  lemma OnlyRowFrontier(v: Var)
    requires VarOk(v) && Probeable(v.dtype) && v.dims == ["row", "column"] && v.shape[0] == 1
    requires SliceVar(v, 0, 0, 1).items != [] && Fits(v.dtype, SliceVar(v, 0, 0, 1).items[0])
    requires IsFinite(v.dtype, SliceVar(v, 0, 0, 1).items[0])
    ensures WellFormed(Dataset([], [v], [])) && AppendDim(Dataset([], [v], [])) == Some("row")
    ensures Frontier(Dataset([], [v], []), "row") == 1
  {
    var ds := Dataset([], [v], []);
    assert ds.Vars() == [v];
    AloneIsWellFormed(v);
    assert LastFinite(v, 0, 1) == 1;
    AloneFrontier(v, "row");
  }

  /** A row completed after it was first counted is never sent again: the client that asks from
      the count it was given keeps the row as it was. */
  lemma CompletedRowsAreNotResent() returns (before: Dataset, later: Dataset)
    ensures WellFormed(before) && WellFormed(later) && AppendDim(later) == AppendDim(before) == Some("row")
    ensures Frontier(before, "row") == 1 == Frontier(later, "row")
    ensures Sliceable(later, "row", 1)
    ensures Merge(before, Respond(later, Some(1))) != Isel(later, "row", 0, 1)
  {
    var v, w := OneRow(NUMBER, MISSING), OneRow(NUMBER, NUMBER);
    OneRowOk(MISSING);
    OneRowOk(NUMBER);
    OnlyRowFrontier(v);
    OnlyRowFrontier(w);
    before, later := Dataset([], [v], []), Dataset([], [w], []);
    SameColumns(v, w);
    NotMerged(before, later, v, w);
  }

  lemma SameColumns(v: Var, w: Var)
    requires VarOk(v) && VarOk(w) && v.dims == w.dims == ["row", "column"] && v.shape == w.shape == [1, 2]
    ensures SameLayout(v, w, "row", 1) && Axis(w.dims, "row") == Some(0) && "row" in w.dims
  {
    assert w.dims[0] == "row";
  }

  lemma NotMerged(before: Dataset, later: Dataset, v: Var, w: Var)
    requires before == Dataset([], [v], []) && later == Dataset([], [w], [])
    requires WellFormed(later) && AppendDim(later) == Some("row") && Frontier(later, "row") == 1
    requires SameLayout(v, w, "row", 1) && "row" in w.dims
    requires Axis(w.dims, "row") == Some(0) && SliceVar(v, 0, 0, 1).items != SliceVar(w, 0, 0, 1).items
    ensures Sliceable(later, "row", 1) && Merge(before, Respond(later, Some(1))) != Isel(later, "row", 0, 1)
  {
    MergeExact(before, later, "row", 1);
    assert !VarAgrees(before.dataVars[0], later.dataVars[0], "row", 1);
  }

  const POINT: Item := Cplx(ZERO, ZERO)

  /** One complex number, in one row and one column. */
  function OnePoint(): Var {
    Var("z", ["row", "column"], [1, 1], Complex, [POINT], [])
  }

  lemma OnePointOk()
    ensures VarOk(OnePoint()) && SliceVar(OnePoint(), 0, 0, 1).items == [POINT]
  {
    ProdOfTwo(1, 1);
    OnlyRowIsAll(OnePoint());
  }

  lemma NoAttributes()
    ensures AttrsNormal([])
  {
  }

  lemma OnePointSendable(v: Var)
    requires v == OnePoint() && WellFormed(Dataset([], [v], []))
    ensures Sendable(Dataset([], [v], [])) && ShapesSurvive(Dataset([], [v], []))
            && NestsRows(Dataset([], [v], []), "row")
  {
    NoAttributes();
    var ds := Dataset([], [v], []);
    assert ds.Vars() == [v];
    assert v.dims[0] == "row" && Axis(v.dims, "row") == Some(0);
    assert NestsIn(ds.Vars()[0], "row");
  }

  /** A dataset that arrives whole, but whose empty delta -- all a client that is up to date is
      sent -- cannot be rebuilt. */
  lemma EmptyComplexDeltaIsLost(text: Framing.Text, id: string, source: Json) returns (ds: Dataset)
    requires Lawful(text) && KeysDistinct(source)
    ensures Sendable(ds) && ShapesSurvive(ds) && AppendDim(ds) == Some("row") && Frontier(ds, "row") == 1
    ensures Serializable(Respond(ds, Some(1)).dataset)
    ensures var answer := Respond(ds, Some(1));
            var sent := Sent(text, answer.dataset, answer.rows, id, source);
            sent.Ok? ==> Unpack(text, sent.value).Ok? && Measurement(Unpack(text, sent.value).value).Err?
  {
    var v := OnePoint();
    OnePointOk();
    OnlyRowFrontier(v);
    OnePointSendable(v);
    ds := Dataset([], [v], []);
    DeltaRoundTrip(text, ds, "row", 1, id, source);
  }
}
