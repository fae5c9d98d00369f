/** Incremental answers over the wire. */
module Deltas {
  import opened Wrappers
  import opened Arrays
  import opened Values
  import opened Datasets
  import opened Rows
  import opened Incremental
  import opened Framing
  import opened Payloads
  import opened WireTheorems
  import opened WholeDatasets
  import Merging

  lemma SlicedVar(v: Var, dim: string, lo: nat, hi: nat)
    requires Reaches(v, dim, hi) && lo <= hi
    ensures var s := IselVar(v, dim, lo, hi);
            VarOk(s) && s.name == v.name && s.dims == v.dims && s.attrs == v.attrs && s.dtype == v.dtype
    ensures forall a | 0 <= a < |v.dims| ::
              IselVar(v, dim, lo, hi).shape[a] == if v.dims[a] == dim then hi - lo else v.shape[a]
  {
    var k := Axis(v.dims, dim);
    if k.Some? {
      KeptItems(v, k.value, lo, hi);
    }
  }

  lemma KeptItems(v: Var, k: nat, lo: nat, hi: nat)
    requires VarOk(v) && k < |v.shape| && lo <= hi <= v.shape[k]
    ensures forall i | 0 <= i < |SliceVar(v, k, lo, hi).items| :: Fits(v.dtype, SliceVar(v, k, lo, hi).items[i])
  {
    var n, inner := v.shape[k], Inner(v.shape, k);
    ProdSplit(v.shape, k);
    Scale(lo, hi, n, inner);
    CutKeeps(v.items, Outer(v.shape, k), n * inner, lo * inner, hi * inner, v.dtype);
  }

  lemma {:induction false} CutKeeps(items: seq<Item>, outer: nat, width: nat, lo: nat, hi: nat, dtype: DType)
    requires |items| == outer * width && lo <= hi <= width && forall i | 0 <= i < |items| :: Fits(dtype, items[i])
    ensures forall i | 0 <= i < |Cut(items, outer, width, lo, hi)| :: Fits(dtype, Cut(items, outer, width, lo, hi)[i])
  {
    if outer > 0 {
      OneBlockMore(outer, width);
      CutKeeps(items[width..], outer - 1, width, lo, hi, dtype);
    }
  }

  lemma SlicedAt(ds: Dataset, dim: string, lo: nat, hi: nat, i: nat)
    requires WellFormed(ds) && Sliceable(ds, dim, hi) && lo <= hi && i < |ds.Vars()|
    ensures |Isel(ds, dim, lo, hi).Vars()| == |ds.Vars()| && Reaches(ds.Vars()[i], dim, hi)
    ensures Isel(ds, dim, lo, hi).Vars()[i] == IselVar(ds.Vars()[i], dim, lo, hi)
  {
    if i < |ds.coords| {
      assert ds.Vars()[i] == ds.coords[i];
    } else {
      assert ds.Vars()[i] == ds.dataVars[i - |ds.coords|];
    }
  }

  /** What slicing keeps of each variable, and the size it gives to `dim`. */
  ghost predicate SlicedAlike(vars: seq<Var>, sliced: seq<Var>, dim: string, size: nat) {
    && |sliced| == |vars|
    && forall i | 0 <= i < |vars| ::
         && sliced[i].name == vars[i].name && sliced[i].dims == vars[i].dims && sliced[i].attrs == vars[i].attrs
         && |vars[i].shape| == |vars[i].dims| == |sliced[i].shape|
         && forall a | 0 <= a < |vars[i].dims| ::
             sliced[i].shape[a] == if vars[i].dims[a] == dim then size else vars[i].shape[a]
  }

  lemma SlicedVars(ds: Dataset, dim: string, lo: nat, hi: nat)
    requires WellFormed(ds) && Sliceable(ds, dim, hi) && lo <= hi
    ensures SlicedAlike(ds.Vars(), Isel(ds, dim, lo, hi).Vars(), dim, hi - lo)
    ensures forall i | 0 <= i < |ds.Vars()| :: VarOk(Isel(ds, dim, lo, hi).Vars()[i])
  {
    forall i | 0 <= i < |ds.Vars()|
      ensures |Isel(ds, dim, lo, hi).Vars()| == |ds.Vars()|
      ensures Isel(ds, dim, lo, hi).Vars()[i] == IselVar(ds.Vars()[i], dim, lo, hi) && Reaches(ds.Vars()[i], dim, hi)
    {
      SlicedAt(ds, dim, lo, hi, i);
    }
    forall i | 0 <= i < |ds.Vars()|
      ensures var v, s := ds.Vars()[i], Isel(ds, dim, lo, hi).Vars()[i];
              VarOk(s) && s.name == v.name && s.dims == v.dims && s.attrs == v.attrs
              && forall a | 0 <= a < |v.dims| :: s.shape[a] == if v.dims[a] == dim then hi - lo else v.shape[a]
    {
      SlicedVar(ds.Vars()[i], dim, lo, hi);
    }
  }

  lemma SlicesAgree(vars: seq<Var>, sliced: seq<Var>, dim: string, size: nat)
    requires SlicedAlike(vars, sliced, dim, size) && SizesAgree(vars)
    ensures SizesAgree(sliced)
  {
  }

  /** Slicing rows of a sendable dataset leaves a sendable dataset. */
  lemma SlicedSendable(ds: Dataset, dim: string, lo: nat, hi: nat)
    requires Sendable(ds) && Sliceable(ds, dim, hi) && lo <= hi
    ensures Sendable(Isel(ds, dim, lo, hi))
  {
    var vars, sliced := ds.Vars(), Isel(ds, dim, lo, hi).Vars();
    SlicedVars(ds, dim, lo, hi);
    SlicesAgree(vars, sliced, dim, hi - lo);
    assert Names(sliced) == Names(vars);
    assert forall i | 0 <= i < |vars| :: AttrsNormal(vars[i].attrs) && sliced[i].attrs == vars[i].attrs;
  }

  /** Some complex variable keeps its rows before its last dimension. */
  predicate NestsRows(ds: Dataset, dim: string) {
    exists i | 0 <= i < |ds.Vars()| :: NestsIn(ds.Vars()[i], dim)
  }

  predicate NestsIn(v: Var, dim: string) {
    !IsBinary(v) && Axis(v.dims, dim).Some? && Axis(v.dims, dim).value < |v.shape| - 1
  }

  lemma SlicedNestable(v: Var, dim: string, lo: nat, hi: nat)
    requires Reaches(v, dim, hi) && lo <= hi && (IsBinary(v) || Nestable(v.shape))
    ensures IsBinary(v) || Nestable(IselVar(v, dim, lo, hi).shape) <==> lo < hi || !NestsIn(v, dim)
  {
    var s, k := IselVar(v, dim, lo, hi), Axis(v.dims, dim);
    if NestsIn(v, dim) {
      assert s.shape[k.value] == hi - lo;
    }
  }

  lemma SlicedShapesSurvive(ds: Dataset, dim: string, lo: nat, hi: nat)
    requires WellFormed(ds) && Sliceable(ds, dim, hi) && lo <= hi && ShapesSurvive(ds)
    ensures ShapesSurvive(Isel(ds, dim, lo, hi)) <==> lo < hi || !NestsRows(ds, dim)
  {
    var vars, sliced := ds.Vars(), Isel(ds, dim, lo, hi).Vars();
    forall i | 0 <= i < |vars|
      ensures |sliced| == |vars|
              && (IsBinary(sliced[i]) || Nestable(sliced[i].shape) <==> lo < hi || !NestsIn(vars[i], dim))
    {
      SlicedAt(ds, dim, lo, hi, i);
      SlicedNestable(vars[i], dim, lo, hi);
    }
  }

  /** An incremental answer arrives with its row fields and is rebuilt exactly, unless the
      client already held every written row and a complex variable keeps its rows before its
      last dimension: the empty delta then loses its shape and is rejected. */
  lemma DeltaRoundTrip(text: Text, ds: Dataset, dim: string, since: nat, id: string, source: Json)
    requires Lawful(text) && Sendable(ds) && ShapesSurvive(ds) && KeysDistinct(source)
    requires AppendDim(ds) == Some(dim) && 0 < since <= Frontier(ds, dim)
    ensures Serializable(Respond(ds, Some(since)).dataset)
    ensures var answer := Respond(ds, Some(since));
            var sent := Sent(text, answer.dataset, answer.rows, id, source);
            sent.Ok? ==>
              var unpacked := Unpack(text, sent.value);
              && unpacked.Ok?
              && unpacked.value.header.rows == answer.rows
              && (Measurement(unpacked.value) == Ok(answer.dataset) <==>
                  since < Frontier(ds, dim) || !NestsRows(ds, dim))
              && (Measurement(unpacked.value).Ok? ==> Measurement(unpacked.value) == Ok(answer.dataset))
  {
    Merging.RespondsPartially(ds, dim, since);
    var answer := Respond(ds, Some(since));
    SlicedSendable(ds, dim, since, Frontier(ds, dim));
    SlicedShapesSurvive(ds, dim, since, Frontier(ds, dim));
    if Sent(text, answer.dataset, answer.rows, id, source).Ok? {
      WholeDatasetRoundTrip(text, answer.dataset, answer.rows, id, source);
    }
  }

  /** What a client makes of the message that carries an answer, if it can be sent and rebuilt. */
  ghost function Decoded(text: Text, answer: Answer, id: string, source: Json): Option<Answer> {
    if !Serializable(answer.dataset) then None
    else
      match Sent(text, answer.dataset, answer.rows, id, source)
      case Err(_) => None
      case Ok(raw) =>
        match Unpack(text, raw)
        case Err(_) => None
        case Ok(snapshot) =>
          var rebuilt := Measurement(snapshot);
          if rebuilt.Ok? then Some(Answer(rebuilt.value, snapshot.header.rows)) else None
  }

  /** Whatever a client asks for, it decodes the server's own answer exactly when the header can be
      framed and the shapes survive nesting, and nothing otherwise. */
  lemma DecodedExactly(text: Text, ds: Dataset, since: Option<nat>, id: string, source: Json)
    requires Lawful(text) && Sendable(ds) && KeysDistinct(source)
    ensures Serializable(Respond(ds, since).dataset)
    ensures var answer := Respond(ds, since);
            Decoded(text, answer, id, source)
            == if |text.dumps(Header(PayloadOf(answer.dataset), answer.rows, id, source))| < LENGTH_LIMIT
                  && ShapesSurvive(answer.dataset)
               then Some(answer) else None
  {
    var answer := Respond(ds, since);
    AnswerSendable(ds, since);
    if Sent(text, answer.dataset, answer.rows, id, source).Ok? {
      WholeDatasetRoundTrip(text, answer.dataset, answer.rows, id, source);
    }
  }

  lemma AnswerSendable(ds: Dataset, since: Option<nat>)
    requires Sendable(ds)
    ensures Sendable(Respond(ds, since).dataset)
  {
    if since.Some? && since.value > 0 && Partial(ds, since.value).Some? {
      var dim := AppendDim(ds).value;
      Merging.RespondsPartially(ds, dim, since.value);
      SlicedSendable(ds, dim, since.value, Frontier(ds, dim));
    }
  }

  /** The delta is empty because the client asks from the last written row. */
  ghost predicate NothingNew(ds: Dataset, since: Option<nat>)
    requires WellFormed(ds)
  {
    AppendDim(ds).Some? && since.Some? && 0 < since.value == Frontier(ds, AppendDim(ds).value)
  }

  /** When the shapes of a snapshot survive nesting, so do those of every answer, except an empty
      delta of complex variables with rows before their last dimension. */
  lemma AnswerShapesSurvive(ds: Dataset, since: Option<nat>)
    requires WellFormed(ds) && ShapesSurvive(ds)
    ensures ShapesSurvive(Respond(ds, since).dataset) <==>
            !(NothingNew(ds, since) && NestsRows(ds, AppendDim(ds).value))
  {
    if AppendDim(ds).Some? && since.Some? && 0 < since.value {
      var dim := AppendDim(ds).value;
      RowCountsOrdered(ds, since.value);
      if since.value <= Frontier(ds, dim) {
        Merging.RespondsPartially(ds, dim, since.value);
        SlicedShapesSurvive(ds, dim, since.value, Frontier(ds, dim));
      }
    }
  }

  /** Over the wire and merged: the client's copy becomes the written rows of the snapshot
      exactly when it really held that snapshot's first `since` rows. */
  lemma DecodedMergeExact(text: Text, copy: Dataset, ds: Dataset, dim: string, since: nat, id: string, source: Json)
    requires Lawful(text) && Sendable(ds) && ShapesSurvive(ds) && KeysDistinct(source)
    requires AppendDim(ds) == Some(dim) && 0 < since <= Frontier(ds, dim)
    requires since < Frontier(ds, dim) || !NestsRows(ds, dim)
    requires Merging.SameLayouts(copy.coords, ds.coords, dim, since)
             && Merging.SameLayouts(copy.dataVars, ds.dataVars, dim, since)
    ensures Serializable(Respond(ds, Some(since)).dataset) && Sliceable(ds, dim, Frontier(ds, dim))
    ensures var answer := Respond(ds, Some(since));
            var sent := Sent(text, answer.dataset, answer.rows, id, source);
            sent.Ok? ==>
              var unpacked := Unpack(text, sent.value);
              && unpacked.Ok? && Measurement(unpacked.value).Ok?
              && var decoded := Answer(Measurement(unpacked.value).value, unpacked.value.header.rows);
                 Merge(copy, decoded) == Isel(ds, dim, 0, Frontier(ds, dim)) <==>
                     Merging.RowsAgree(copy, ds, dim, since)
  {
    DeltaRoundTrip(text, ds, dim, since, id, source);
    Merging.MergeExact(copy, ds, dim, since);
  }
}
