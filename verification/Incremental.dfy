/** Incremental row snapshots: what the server answers to a client that holds some rows, and
    what the client's copy is after merging the answer. */
module Incremental {
  import opened Wrappers
  import opened Arrays
  import opened Datasets
  import opened Rows

  datatype RowFields = RowFields(dim: string, rowsFrom: nat, rowsWritten: nat, rowsTotal: nat)

  /** The dataset that is sent, and where it sits along the append dimension if it has one. */
  datatype Answer = Answer(dataset: Dataset, rows: Option<RowFields>)

  function FieldsOf(ds: Dataset, rowsFrom: nat): Option<RowFields>
    requires WellFormed(ds)
  {
    match AppendDim(ds)
    case None => None
    case Some(dim) => Some(RowFields(dim, rowsFrom, rowsFrom + Frontier(ds, dim), rowsFrom + Size(ds, dim)))
  }

  /** Only the rows from `since` on, or nothing when the whole snapshot should be sent. */
  function Partial(ds: Dataset, since: nat): Option<Answer>
    requires WellFormed(ds)
  {
    match AppendDim(ds)
    case None => None
    case Some(dim) =>
      var total, written := Size(ds, dim), Frontier(ds, dim);
      if since > written || since > total then None
      else
        FrontierBounded(ds, dim);
        WholeIsSliceable(ds, dim, written);
        Some(Answer(Isel(ds, dim, since, written), Some(RowFields(dim, since, written, total))))
  }

  /** The answer to a request, given the snapshot it was served from. */
  function Respond(ds: Dataset, since: Option<nat>): Answer
    requires WellFormed(ds)
  {
    var whole := Answer(ds, FieldsOf(ds, 0));
    if since.Some? && since.value > 0 && Partial(ds, since.value).Some? then Partial(ds, since.value).value else whole
  }

  /** Row counts are ordered, and comparing the request with the total adds nothing to
      comparing it with the frontier. */
  lemma RowCountsOrdered(ds: Dataset, since: nat)
    requires WellFormed(ds)
    ensures Respond(ds, Some(since)).rows.Some? ==>
              var f := Respond(ds, Some(since)).rows.value; f.rowsFrom <= f.rowsWritten <= f.rowsTotal
    ensures AppendDim(ds).Some? ==> (Partial(ds, since).Some? <==> since <= Frontier(ds, AppendDim(ds).value))
  {
    if AppendDim(ds).Some? {
      FrontierBounded(ds, AppendDim(ds).value);
    }
  }

  /** The client's side: a response from row zero replaces the copy; any other is appended to
      the rows the copy has before `rowsFrom`. */
  function Merge(copy: Dataset, answer: Answer): Dataset {
    if answer.rows.None? || answer.rows.value.rowsFrom == 0 then answer.dataset
    else
      var dim, from := answer.rows.value.dim, answer.rows.value.rowsFrom;
      answer.dataset.(coords := MergeVars(copy.coords, answer.dataset.coords, dim, from),
                      dataVars := MergeVars(copy.dataVars, answer.dataset.dataVars, dim, from))
  }

  function MergeVars(copy: seq<Var>, sent: seq<Var>, dim: string, from: nat): (r: seq<Var>)
    ensures |r| == |sent|
  {
    seq(|sent|, i requires 0 <= i < |sent| => if i < |copy| then MergeVar(copy[i], sent[i], dim, from) else sent[i])
  }

  /** The copy has at least `from` rows where the sent variable has its own. */
  predicate Mergeable(copy: Var, sent: Var, dim: string, from: nat) {
    match Axis(sent.dims, dim)
    case None => false
    case Some(k) =>
      && |copy.shape| == |sent.shape| && k < |sent.shape|
      && |copy.items| == Prod(copy.shape) && |sent.items| == Prod(sent.shape)
      && from <= copy.shape[k] && copy.shape[k := sent.shape[k]] == sent.shape
  }

  function MergeVar(copy: Var, sent: Var, dim: string, from: nat): Var {
    if !Mergeable(copy, sent, dim, from) then sent
    else
      var k := Axis(sent.dims, dim).value;
      var outer, inner := Outer(sent.shape, k), Inner(sent.shape, k);
      JoinFits(copy, sent, k, from);
      sent.(shape := sent.shape[k := from + sent.shape[k]],
            items := Join(SliceVar(copy, k, 0, from).items, sent.items, outer, from * inner, sent.shape[k] * inner))
  }

  lemma JoinFits(copy: Var, sent: Var, k: nat, from: nat)
    requires |copy.shape| == |sent.shape| && k < |sent.shape|
    requires |copy.items| == Prod(copy.shape) && |sent.items| == Prod(sent.shape)
    requires from <= copy.shape[k] && copy.shape[k := sent.shape[k]] == sent.shape
    ensures |SliceVar(copy, k, 0, from).items| == Outer(sent.shape, k) * (from * Inner(sent.shape, k))
    ensures |sent.items| == Outer(sent.shape, k) * (sent.shape[k] * Inner(sent.shape, k))
    ensures Outer(copy.shape, k) == Outer(sent.shape, k) && Inner(copy.shape, k) == Inner(sent.shape, k)
  {
    ProdSplit(sent.shape, k);
    var shape := copy.shape[k := from];
    ProdSplit(shape, k);
    assert shape[..k] == sent.shape[..k] == copy.shape[..k];
    assert shape[k + 1..] == sent.shape[k + 1..] == copy.shape[k + 1..];
  }
}
