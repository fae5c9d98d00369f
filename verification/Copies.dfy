/** What is sent and what a client then holds, variable by variable and item by item, without the
    functions that slice and merge. */
module Copies {
  import opened Wrappers
  import opened Arrays
  import opened SnapshotCache
  import opened Datasets
  import opened Rows
  import opened Incremental
  import opened EndToEnd
  import Merging

  /** Of blocks of `width` items, those from `from` on are kept in blocks of `kept`: the item at
      offset `j` of block `o` is where it should be. */
  ghost predicate Kept(items: seq<Item>, all: seq<Item>, kept: nat, from: nat, width: nat, o: nat, j: nat) {
    var p, q := o * kept, o * width;
    p + j < |items| && q + from + j < |all| && items[p + j] == all[q + from + j]
  }

  ghost predicate AllKept(items: seq<Item>, all: seq<Item>, outer: nat, kept: nat, from: nat, width: nat) {
    && |items| == outer * kept
    && forall o: nat, j: nat | o < outer && j < kept :: Kept(items, all, kept, from, width, o, j)
  }

  /** `c` is `v` with its rows from `lo` to `hi` along `dim` only, and `v` itself if it does not
      have that dimension. */
  ghost predicate RowsOf(c: Var, v: Var, dim: string, lo: nat, hi: nat) {
    && c.name == v.name && c.dims == v.dims && c.dtype == v.dtype && c.attrs == v.attrs
    && (dim !in v.dims ==> c.shape == v.shape && c.items == v.items)
    && forall k: nat | k < |v.dims| && v.dims[k] == dim ::
         && k < |v.shape| && lo <= hi <= v.shape[k] && c.shape == v.shape[k := hi - lo]
         && var inner := Inner(v.shape, k);
         && lo * inner <= hi * inner
         && AllKept(c.items, v.items, Outer(v.shape, k), hi * inner - lo * inner, lo * inner, v.shape[k] * inner)
  }

  ghost predicate AllRowsOf(cs: seq<Var>, vs: seq<Var>, dim: string, lo: nat, hi: nat) {
    |cs| == |vs| && forall i | 0 <= i < |vs| :: RowsOf(cs[i], vs[i], dim, lo, hi)
  }

  /** The same of every variable; the attributes of the dataset stay. */
  ghost predicate DatasetRows(c: Dataset, ds: Dataset, dim: string, lo: nat, hi: nat) {
    && c.attrs == ds.attrs
    && AllRowsOf(c.coords, ds.coords, dim, lo, hi) && AllRowsOf(c.dataVars, ds.dataVars, dim, lo, hi)
  }

  lemma SliceKeeps(v: Var, k: nat, lo: nat, hi: nat, kept: nat, from: nat, width: nat)
    requires VarOk(v) && k < |v.shape| && lo <= hi <= v.shape[k]
    requires from == lo * Inner(v.shape, k) && from + kept == hi * Inner(v.shape, k)
    requires width == v.shape[k] * Inner(v.shape, k)
    ensures AllKept(SliceVar(v, k, lo, hi).items, v.items, Outer(v.shape, k), kept, from, width)
  {
    ProdSplit(v.shape, k);
    Scale(lo, hi, v.shape[k], Inner(v.shape, k));
    forall o: nat, j: nat | o < Outer(v.shape, k) && j < kept
      ensures Kept(SliceVar(v, k, lo, hi).items, v.items, kept, from, width, o, j)
    {
      SliceItems(v, k, lo, hi, o, j, o * kept, o * width);
    }
  }

  lemma IselKeeps(v: Var, dim: string, lo: nat, hi: nat)
    requires Reaches(v, dim, hi) && lo <= hi
    ensures RowsOf(IselVar(v, dim, lo, hi), v, dim, lo, hi)
  {
    forall k: nat | k < |v.dims| && v.dims[k] == dim
      ensures Axis(v.dims, dim) == Some(k)
    {
      assert Axis(v.dims, dim).Some?;
    }
    if Axis(v.dims, dim).Some? {
      var k := Axis(v.dims, dim).value;
      var inner := Inner(v.shape, k);
      Scale(lo, hi, v.shape[k], inner);
      SliceKeeps(v, k, lo, hi, hi * inner - lo * inner, lo * inner, v.shape[k] * inner);
    }
  }

  /** Slicing keeps the rows it names, and variables without the dimension as they are. */
  lemma IselByPosition(ds: Dataset, dim: string, lo: nat, hi: nat)
    requires Sliceable(ds, dim, hi) && lo <= hi
    ensures DatasetRows(Isel(ds, dim, lo, hi), ds, dim, lo, hi)
  {
    forall i | 0 <= i < |ds.coords| ensures RowsOf(IselVar(ds.coords[i], dim, lo, hi), ds.coords[i], dim, lo, hi) {
      IselKeeps(ds.coords[i], dim, lo, hi);
    }
    forall i | 0 <= i < |ds.dataVars|
      ensures RowsOf(IselVar(ds.dataVars[i], dim, lo, hi), ds.dataVars[i], dim, lo, hi)
    {
      IselKeeps(ds.dataVars[i], dim, lo, hi);
    }
  }

  /** An answer is the whole snapshot, or the rows the client lacks: those only if it holds some
      and no more than are written. */
  lemma AnswerByPosition(ds: Dataset, since: Option<nat>)
    requires WellFormed(ds)
    ensures var answer, dim := Respond(ds, since), AppendDim(ds);
            if dim.Some? && since.Some? && 0 < since.value <= Frontier(ds, dim.value) then
              && answer.rows == Some(RowFields(dim.value, since.value, Frontier(ds, dim.value), Size(ds, dim.value)))
              && DatasetRows(answer.dataset, ds, dim.value, since.value, Frontier(ds, dim.value))
            else
              && answer.dataset == ds
              && answer.rows == if dim.None? then None
                                else Some(RowFields(dim.value, 0, Frontier(ds, dim.value), Size(ds, dim.value)))
  {
    var dim := AppendDim(ds);
    if dim.Some? && since.Some? && 0 < since.value <= Frontier(ds, dim.value) {
      Merging.RespondsPartially(ds, dim.value, since.value);
      IselByPosition(ds, dim.value, since.value, Frontier(ds, dim.value));
    }
  }

  /** After every answered poll the client holds the snapshot itself, or of each variable with the
      append dimension the first `rowsWritten` rows and of every other one all of it. */
  lemma EveryCopyByPosition(worlds: seq<World>, moves: seq<Move>, id: Id, channel: Channel, p: Provider, n: nat)
    requires IsHistory(worlds, moves, id, channel) && OneRun(moves, id, p) && n < |worlds|
    requires p in worlds[n].server.runs
    requires FrozenRun(worlds[n].server.runs[p]) && Faithful(channel, worlds[n].server.runs[p])
    requires worlds[n].client.used.Some?
    ensures var c := worlds[n].client;
            && c.used.value in worlds[n].server.runs[p] && c.copy.Some?
            && if c.rows.None? || c.rows.value.rowsFrom == 0 then c.copy == c.used
               else DatasetRows(c.copy.value, c.used.value, c.rows.value.dim, 0, c.rows.value.rowsWritten)
  {
    EveryPollIsExact(worlds, moves, id, channel, p, n);
    var c := worlds[n].client;
    if c.rows.Some? && c.rows.value.rowsFrom > 0 {
      IselByPosition(c.used.value, c.rows.value.dim, 0, c.rows.value.rowsWritten);
    }
  }
}
