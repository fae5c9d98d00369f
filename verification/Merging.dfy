/** Merging an incremental answer gives the written rows of the snapshot it was served from. */
module Merging {
  import opened Wrappers
  import opened Arrays
  import opened Base64
  import opened Datasets
  import opened Rows
  import opened Incremental

  /** The variables differ in layout at most in how many rows they have, and both have `n`. */
  ghost predicate SameLayout(c: Var, v: Var, dim: string, n: nat) {
    dim in c.dims || dim in v.dims ==>
      && c.dims == v.dims && Axis(v.dims, dim).Some?
      && var k := Axis(v.dims, dim).value;
      && k < |v.shape| && |c.shape| == |v.shape|
      && |c.items| == Prod(c.shape) && |v.items| == Prod(v.shape)
      && c.shape[k := v.shape[k]] == v.shape
      && n <= c.shape[k] && n <= v.shape[k]
  }

  /** Both variables have the first `n` rows along `dim` and hold the same in them. */
  ghost predicate VarAgrees(c: Var, v: Var, dim: string, n: nat) {
    && SameLayout(c, v, dim, n)
    && (dim in v.dims ==>
          var k := Axis(v.dims, dim).value;
          SliceVar(c, k, 0, n).items == SliceVar(v, k, 0, n).items)
  }

  ghost predicate VarsAgree(cs: seq<Var>, vs: seq<Var>, dim: string, n: nat) {
    |cs| == |vs| && forall i | 0 <= i < |vs| :: VarAgrees(cs[i], vs[i], dim, n)
  }

  /** The datasets have the same first `n` rows of every variable along `dim`. */
  ghost predicate RowsAgree(c: Dataset, d: Dataset, dim: string, n: nat) {
    VarsAgree(c.coords, d.coords, dim, n) && VarsAgree(c.dataVars, d.dataVars, dim, n)
  }

  lemma SliceOfSlice(v: Var, k: nat, mid: nat, hi: nat)
    requires k < |v.shape| && |v.items| == Prod(v.shape) && hi <= mid <= v.shape[k]
    ensures SliceVar(SliceVar(v, k, 0, mid), k, 0, hi) == SliceVar(v, k, 0, hi)
  {
    var s := SliceVar(v, k, 0, mid);
    ProdSplit(v.shape, k);
    assert s.shape[..k] == v.shape[..k] && s.shape[k + 1..] == v.shape[k + 1..];
    var inner := Inner(v.shape, k);
    Scale(0, mid, v.shape[k], inner);
    Scale(0, hi, mid, inner);
    CutCut(v.items, Outer(v.shape, k), v.shape[k] * inner, mid * inner, hi * inner);
  }

  lemma AgreeLess(c: Var, v: Var, dim: string, n: nat, fewer: nat)
    requires VarAgrees(c, v, dim, n) && fewer <= n
    ensures VarAgrees(c, v, dim, fewer)
  {
    if dim in c.dims || dim in v.dims {
      var k := Axis(v.dims, dim).value;
      SliceOfSlice(c, k, n, fewer);
      SliceOfSlice(v, k, n, fewer);
      assert SliceVar(c, k, 0, n).shape == SliceVar(v, k, 0, n).shape;
      SameItems(SliceVar(c, k, 0, n), SliceVar(v, k, 0, n), k, 0, fewer);
    }
  }

  lemma SameItems(a: Var, b: Var, k: nat, lo: nat, hi: nat)
    requires k < |a.shape| && a.shape == b.shape && a.items == b.items && |a.items| == Prod(a.shape)
             && lo <= hi <= a.shape[k]
    ensures SliceVar(a, k, lo, hi).items == SliceVar(b, k, lo, hi).items
  {
  }

  lemma RowsAgreeLess(c: Dataset, d: Dataset, dim: string, n: nat, fewer: nat)
    requires RowsAgree(c, d, dim, n) && fewer <= n
    ensures RowsAgree(c, d, dim, fewer)
  {
    forall i | 0 <= i < |d.coords| ensures VarAgrees(c.coords[i], d.coords[i], dim, fewer) {
      AgreeLess(c.coords[i], d.coords[i], dim, n, fewer);
    }
    forall i | 0 <= i < |d.dataVars| ensures VarAgrees(c.dataVars[i], d.dataVars[i], dim, fewer) {
      AgreeLess(c.dataVars[i], d.dataVars[i], dim, n, fewer);
    }
  }

  lemma AgreeTrans(a: Var, b: Var, c: Var, dim: string, n: nat)
    requires VarAgrees(a, b, dim, n) && VarAgrees(b, c, dim, n)
    ensures VarAgrees(a, c, dim, n)
  {
  }

  lemma AgreeSym(a: Var, b: Var, dim: string, n: nat)
    requires VarAgrees(a, b, dim, n)
    ensures VarAgrees(b, a, dim, n)
  {
  }

  /** The merged variable is the joined items under the header of the longer slice. */
  lemma MergedItems(c: Var, v: Var, dim: string, k: nat, from: nat, hi: nat, m: nat, h: nat)
    requires VarOk(v) && Axis(v.dims, dim) == Some(k) && from <= hi <= v.shape[k]
    requires Mergeable(c, SliceVar(v, k, from, hi), dim, from)
    requires m == from * Inner(v.shape, k) && h == hi * Inner(v.shape, k)
    ensures m <= h <= v.shape[k] * Inner(v.shape, k)
            && |v.items| == Outer(v.shape, k) * (v.shape[k] * Inner(v.shape, k))
    ensures |SliceVar(c, k, 0, from).items| == Outer(v.shape, k) * m
    ensures |Cut(v.items, Outer(v.shape, k), v.shape[k] * Inner(v.shape, k), m, h)| == Outer(v.shape, k) * (h - m)
    ensures MergeVar(c, SliceVar(v, k, from, hi), dim, from)
         == SliceVar(v, k, 0, hi).(items :=
              Join(SliceVar(c, k, 0, from).items,
                   Cut(v.items, Outer(v.shape, k), v.shape[k] * Inner(v.shape, k), m, h), Outer(v.shape, k), m, h - m))
  {
    var sent := SliceVar(v, k, from, hi);
    ProdSplit(v.shape, k);
    assert sent.shape[..k] == v.shape[..k] && sent.shape[k + 1..] == v.shape[k + 1..];
    assert sent.shape[k := from + sent.shape[k]] == v.shape[k := hi];
    JoinFits(c, sent, k, from);
    Scale(from, hi, v.shape[k], Inner(v.shape, k));
  }

  /** Appending the rows from `from` to `hi` gives the first `hi` rows exactly when the copy
      already had the rows before `from`. */
  lemma MergeVarExact(c: Var, v: Var, dim: string, k: nat, from: nat, hi: nat)
    requires VarOk(v) && Axis(v.dims, dim) == Some(k) && from <= hi <= v.shape[k]
    requires Mergeable(c, SliceVar(v, k, from, hi), dim, from)
    ensures MergeVar(c, SliceVar(v, k, from, hi), dim, from) == SliceVar(v, k, 0, hi)
            <==> SliceVar(c, k, 0, from).items == SliceVar(v, k, 0, from).items
  {
    var m, h := from * Inner(v.shape, k), hi * Inner(v.shape, k);
    MergedItems(c, v, dim, k, from, hi, m, h);
    JoinExact(SliceVar(c, k, 0, from).items, v.items, Outer(v.shape, k), v.shape[k] * Inner(v.shape, k), m, h);
  }

  lemma JoinExact<T>(held: seq<T>, items: seq<T>, outer: nat, width: nat, mid: nat, hi: nat)
    requires |items| == outer * width && mid <= hi <= width && |held| == outer * mid
    ensures |Cut(items, outer, width, mid, hi)| == outer * (hi - mid)
    ensures Join(held, Cut(items, outer, width, mid, hi), outer, mid, hi - mid) == Cut(items, outer, width, 0, hi)
            <==> held == Cut(items, outer, width, 0, mid)
  {
    var sent := Cut(items, outer, width, mid, hi);
    JoinCuts(items, outer, width, 0, mid, hi);
    CutJoin(held, sent, outer, mid, hi - mid, hi);
    CutCut(items, outer, width, hi, mid);
  }

  ghost predicate SameLayouts(cs: seq<Var>, vs: seq<Var>, dim: string, n: nat) {
    |cs| == |vs| && forall i | 0 <= i < |vs| :: SameLayout(cs[i], vs[i], dim, n)
  }

  lemma MergeOneExact(c: Var, v: Var, dim: string, from: nat, hi: nat)
    requires Reaches(v, dim, hi) && from <= hi && SameLayout(c, v, dim, from)
    ensures MergeVar(c, IselVar(v, dim, from, hi), dim, from) == IselVar(v, dim, 0, hi) <==> VarAgrees(c, v, dim, from)
  {
    if Axis(v.dims, dim).Some? {
      var k := Axis(v.dims, dim).value;
      assert c.shape[k := hi - from] == v.shape[k := v.shape[k]][k := hi - from];
      MergeVarExact(c, v, dim, k, from, hi);
    }
  }

  lemma MergeVarsExact(cs: seq<Var>, vs: seq<Var>, dim: string, from: nat, hi: nat)
    requires from <= hi && SameLayouts(cs, vs, dim, from) && forall i | 0 <= i < |vs| :: Reaches(vs[i], dim, hi)
    ensures MergeVars(cs, IselVars(vs, dim, from, hi), dim, from) == IselVars(vs, dim, 0, hi)
            <==> VarsAgree(cs, vs, dim, from)
  {
    var merged, head := MergeVars(cs, IselVars(vs, dim, from, hi), dim, from), IselVars(vs, dim, 0, hi);
    forall i | 0 <= i < |vs| ensures merged[i] == head[i] <==> VarAgrees(cs[i], vs[i], dim, from) {
      MergeOneExact(cs[i], vs[i], dim, from, hi);
    }
    assert merged == head <==> forall i | 0 <= i < |vs| :: merged[i] == head[i];
  }

  lemma RespondsPartially(ds: Dataset, dim: string, since: nat)
    requires WellFormed(ds) && AppendDim(ds) == Some(dim) && 0 < since <= Frontier(ds, dim)
    ensures Sliceable(ds, dim, Frontier(ds, dim))
    ensures Respond(ds, Some(since)) == Answer(Isel(ds, dim, since, Frontier(ds, dim)),
                                               Some(RowFields(dim, since, Frontier(ds, dim), Size(ds, dim))))
  {
    FrontierBounded(ds, dim);
    WholeIsSliceable(ds, dim, Frontier(ds, dim));
  }

  /** An incremental answer merges to the written rows of its snapshot exactly when the rows
      the client held are that snapshot's. */
  lemma MergeExact(copy: Dataset, ds: Dataset, dim: string, since: nat)
    requires WellFormed(ds) && AppendDim(ds) == Some(dim) && 0 < since <= Frontier(ds, dim)
    requires SameLayouts(copy.coords, ds.coords, dim, since) && SameLayouts(copy.dataVars, ds.dataVars, dim, since)
    ensures Sliceable(ds, dim, Frontier(ds, dim))
    ensures Merge(copy, Respond(ds, Some(since))) == Isel(ds, dim, 0, Frontier(ds, dim))
            <==> RowsAgree(copy, ds, dim, since)
  {
    var written := Frontier(ds, dim);
    RespondsPartially(ds, dim, since);
    MergeVarsExact(copy.coords, ds.coords, dim, since, written);
    MergeVarsExact(copy.dataVars, ds.dataVars, dim, since, written);
  }

  lemma HeadAgrees(v: Var, dim: string, n: nat)
    requires Reaches(v, dim, n)
    ensures VarAgrees(IselVar(v, dim, 0, n), v, dim, n)
  {
    if Axis(v.dims, dim).Some? {
      SliceOfSlice(v, Axis(v.dims, dim).value, n, n);
    }
  }

  lemma HeadRowsAgree(ds: Dataset, dim: string, n: nat)
    requires Sliceable(ds, dim, n)
    ensures RowsAgree(Isel(ds, dim, 0, n), ds, dim, n)
  {
    forall i | 0 <= i < |ds.coords| ensures VarAgrees(IselVar(ds.coords[i], dim, 0, n), ds.coords[i], dim, n) {
      HeadAgrees(ds.coords[i], dim, n);
    }
    forall i | 0 <= i < |ds.dataVars| ensures VarAgrees(IselVar(ds.dataVars[i], dim, 0, n), ds.dataVars[i], dim, n) {
      HeadAgrees(ds.dataVars[i], dim, n);
    }
  }

  lemma RowsAgreeSelf(ds: Dataset, dim: string, n: nat)
    requires Sliceable(ds, dim, n)
    ensures RowsAgree(ds, ds, dim, n)
  {
  }

  lemma RowsAgreeSym(c: Dataset, d: Dataset, dim: string, n: nat)
    requires RowsAgree(c, d, dim, n)
    ensures RowsAgree(d, c, dim, n)
  {
    forall i | 0 <= i < |d.coords| ensures VarAgrees(d.coords[i], c.coords[i], dim, n) {
      AgreeSym(c.coords[i], d.coords[i], dim, n);
    }
    forall i | 0 <= i < |d.dataVars| ensures VarAgrees(d.dataVars[i], c.dataVars[i], dim, n) {
      AgreeSym(c.dataVars[i], d.dataVars[i], dim, n);
    }
  }

  lemma RowsAgreeTrans(a: Dataset, b: Dataset, c: Dataset, dim: string, n: nat)
    requires RowsAgree(a, b, dim, n) && RowsAgree(b, c, dim, n)
    ensures RowsAgree(a, c, dim, n)
  {
    forall i | 0 <= i < |c.coords| ensures VarAgrees(a.coords[i], c.coords[i], dim, n) {
      AgreeTrans(a.coords[i], b.coords[i], c.coords[i], dim, n);
    }
    forall i | 0 <= i < |c.dataVars| ensures VarAgrees(a.dataVars[i], c.dataVars[i], dim, n) {
      AgreeTrans(a.dataVars[i], b.dataVars[i], c.dataVars[i], dim, n);
    }
  }

  /** The bytes of plain items, in order. */
  function Bytes(items: seq<Item>): seq<byte>
    requires forall i | 0 <= i < |items| :: items[i].Bits?
  {
    if items == [] then [] else items[0].bytes + Bytes(items[1..])
  }

  lemma {:induction false} BytesConcat(a: seq<Item>, b: seq<Item>)
    requires forall i | 0 <= i < |a + b| :: (a + b)[i].Bits?
    ensures (forall i | 0 <= i < |a| :: a[i].Bits?) && (forall i | 0 <= i < |b| :: b[i].Bits?)
    ensures Bytes(a + b) == Bytes(a) + Bytes(b)
  {
    assert forall i | 0 <= i < |a| :: a[i] == (a + b)[i];
    assert forall i | 0 <= i < |b| :: b[i] == (a + b)[|a| + i];
    if a == [] {
      assert a + b == b;
    } else {
      assert (a + b)[1..] == a[1..] + b;
      BytesConcat(a[1..], b);
    }
  }

  /** On the leading axis the delta's bytes simply follow those already held: together they are
      the leading bytes of the whole array. */
  lemma DeltaBytesFollow(v: Var, since: nat, written: nat)
    requires VarOk(v) && !v.dtype.Complex? && v.shape != [] && since <= written <= v.shape[0]
    ensures forall i | 0 <= i < |SliceVar(v, 0, 0, written).items| :: SliceVar(v, 0, 0, written).items[i].Bits?
    ensures forall i | 0 <= i < |SliceVar(v, 0, 0, since).items| :: SliceVar(v, 0, 0, since).items[i].Bits?
    ensures forall i | 0 <= i < |SliceVar(v, 0, since, written).items| :: SliceVar(v, 0, since, written).items[i].Bits?
    ensures Bytes(SliceVar(v, 0, 0, since).items) + Bytes(SliceVar(v, 0, since, written).items)
         == Bytes(SliceVar(v, 0, 0, written).items)
    ensures SliceVar(v, 0, 0, written).items <= v.items
  {
    LeadingSlice(v, 0, since);
    LeadingSlice(v, since, written);
    LeadingSlice(v, 0, written);
    var a, b := SliceVar(v, 0, 0, since).items, SliceVar(v, 0, since, written).items;
    assert a + b == SliceVar(v, 0, 0, written).items;
    assert forall i | 0 <= i < |v.items| :: Fits(v.dtype, v.items[i]);
    BytesConcat(a, b);
  }

  lemma LeadingSlice(v: Var, lo: nat, hi: nat)
    requires VarOk(v) && v.shape != [] && lo <= hi <= v.shape[0]
    ensures lo * Inner(v.shape, 0) <= hi * Inner(v.shape, 0) <= |v.items|
    ensures SliceVar(v, 0, lo, hi).items == v.items[lo * Inner(v.shape, 0)..hi * Inner(v.shape, 0)]
  {
    var inner := Inner(v.shape, 0);
    ProdSplit(v.shape, 0);
    Scale(lo, hi, v.shape[0], inner);
    assert Outer(v.shape, 0) == 1;
    var width := v.shape[0] * inner;
    assert Cut(v.items[width..], 0, width, lo * inner, hi * inner) == [];
  }

  /** Plain items of one size. */
  predicate Plain(items: seq<Item>, size: nat) {
    forall i | 0 <= i < |items| :: items[i].Bits? && |items[i].bytes| == size
  }

  lemma {:induction false} BytesLength(items: seq<Item>, size: nat)
    requires Plain(items, size)
    ensures |Bytes(items)| == |items| * size
  {
    if items != [] {
      BytesLength(items[1..], size);
      OneBlockMore(|items|, size);
    }
  }

  lemma BytesSplit(items: seq<Item>, size: nat, w: nat)
    requires Plain(items, size) && w <= |items|
    ensures Plain(items[..w], size) && Plain(items[w..], size) && w * size <= |Bytes(items)|
    ensures Bytes(items)[..w * size] == Bytes(items[..w]) && Bytes(items)[w * size..] == Bytes(items[w..])
  {
    assert items[..w] + items[w..] == items;
    BytesConcat(items[..w], items[w..]);
    BytesLength(items[..w], size);
  }

  lemma PlainConcat(a: seq<Item>, b: seq<Item>, size: nat)
    requires Plain(a, size) && Plain(b, size)
    ensures Plain(a + b, size) && Bytes(a + b) == Bytes(a) + Bytes(b)
  {
    BytesConcat(a, b);
  }

  lemma JoinHead<T>(a: seq<T>, b: seq<T>, ra: seq<T>, rb: seq<T>, outer: nat, wa: nat, wb: nat)
    requires |a| == wa && |b| == wb && |ra| == outer * wa && |rb| == outer * wb
    ensures |a + ra| == (outer + 1) * wa && |b + rb| == (outer + 1) * wb
    ensures Join(a + ra, b + rb, outer + 1, wa, wb) == a + b + Join(ra, rb, outer, wa, wb)
  {
    OneBlockMore(outer + 1, wa);
    OneBlockMore(outer + 1, wb);
    assert (a + ra)[..wa] == a && (a + ra)[wa..] == ra && (b + rb)[..wb] == b && (b + rb)[wb..] == rb;
  }

  lemma BlockBytes(items: seq<Item>, outer: nat, w: nat, size: nat, p: nat)
    requires |items| == outer * w && Plain(items, size) && p == w * size
    ensures |Bytes(items)| == outer * p
  {
    BytesLength(items, size);
    MulAssoc(outer, w, size);
  }

  lemma FirstBlock(items: seq<Item>, outer: nat, w: nat, size: nat, p: nat)
    requires outer > 0 && |items| == outer * w && Plain(items, size) && p == w * size
    ensures w <= |items| && |items[w..]| == (outer - 1) * w && Plain(items[..w], size) && Plain(items[w..], size)
    ensures |Bytes(items[..w])| == p && Bytes(items) == Bytes(items[..w]) + Bytes(items[w..])
    ensures |Bytes(items[w..])| == (outer - 1) * p
  {
    OneBlockMore(outer, w);
    BytesSplit(items, size, w);
    BytesLength(items[..w], size);
    BlockBytes(items[w..], outer - 1, w, size, p);
  }

  /** The bytes of items joined block by block are the joined bytes. */
  lemma {:induction false} BytesOfJoin(
    a: seq<Item>, b: seq<Item>, outer: nat, wa: nat, wb: nat, size: nat, pa: nat, pb: nat)
    requires |a| == outer * wa && |b| == outer * wb && Plain(a, size) && Plain(b, size)
    requires pa == wa * size && pb == wb * size
    ensures Plain(Join(a, b, outer, wa, wb), size)
    ensures |Bytes(a)| == outer * pa && |Bytes(b)| == outer * pb
    ensures Bytes(Join(a, b, outer, wa, wb)) == Join(Bytes(a), Bytes(b), outer, pa, pb)
  {
    BlockBytes(a, outer, wa, size, pa);
    BlockBytes(b, outer, wb, size, pb);
    if outer > 0 {
      FirstBlock(a, outer, wa, size, pa);
      FirstBlock(b, outer, wb, size, pb);
      BytesOfJoin(a[wa..], b[wb..], outer - 1, wa, wb, size, pa, pb);
      PlainConcat(a[..wa], b[..wb], size);
      PlainConcat(a[..wa] + b[..wb], Join(a[wa..], b[wb..], outer - 1, wa, wb), size);
      JoinHead(Bytes(a[..wa]), Bytes(b[..wb]), Bytes(a[wa..]), Bytes(b[wb..]), outer - 1, pa, pb);
    }
  }

  lemma SlicePlain(v: Var, k: nat, lo: nat, hi: nat)
    requires VarOk(v) && !v.dtype.Complex? && k < |v.shape| && lo <= hi <= v.shape[k]
    ensures Plain(SliceVar(v, k, lo, hi).items, ItemSize(v.dtype))
  {
    var n, inner := v.shape[k], Inner(v.shape, k);
    ProdSplit(v.shape, k);
    Scale(lo, hi, n, inner);
    assert forall i | 0 <= i < |v.items| :: Fits(v.dtype, v.items[i]);
    CutPlain(v.items, Outer(v.shape, k), n * inner, lo * inner, hi * inner, ItemSize(v.dtype));
  }

  lemma {:induction false} CutPlain(items: seq<Item>, outer: nat, width: nat, lo: nat, hi: nat, size: nat)
    requires |items| == outer * width && lo <= hi <= width && Plain(items, size)
    ensures Plain(Cut(items, outer, width, lo, hi), size)
  {
    if outer > 0 {
      OneBlockMore(outer, width);
      CutPlain(items[width..], outer - 1, width, lo, hi, size);
    }
  }

  lemma JoinedSlices(v: Var, k: nat, since: nat, written: nat, a: nat, b: nat)
    requires VarOk(v) && k < |v.shape| && since <= written <= v.shape[k]
    requires a == since * Inner(v.shape, k) && b == written * Inner(v.shape, k)
    ensures a <= b
    ensures |SliceVar(v, k, 0, since).items| == Outer(v.shape, k) * a
    ensures |SliceVar(v, k, since, written).items| == Outer(v.shape, k) * (b - a)
    ensures Join(SliceVar(v, k, 0, since).items, SliceVar(v, k, since, written).items, Outer(v.shape, k), a, b - a)
         == SliceVar(v, k, 0, written).items
  {
    ProdSplit(v.shape, k);
    Scale(since, written, v.shape[k], Inner(v.shape, k));
    JoinCuts(v.items, Outer(v.shape, k), v.shape[k] * Inner(v.shape, k), 0, a, b);
  }

  /** On any axis the bytes of the written rows are those already held joined with the delta's,
      block by block: `a` and `b - a` items, `p` and `q` bytes, to a block.  On the leading axis
      there is one block. */
  lemma DeltaBytesJoin(v: Var, k: nat, since: nat, written: nat, a: nat, b: nat, p: nat, q: nat)
    requires VarOk(v) && !v.dtype.Complex? && k < |v.shape| && since <= written <= v.shape[k]
    requires a == since * Inner(v.shape, k) && b == written * Inner(v.shape, k) && a <= b
    requires p == a * ItemSize(v.dtype) && q == (b - a) * ItemSize(v.dtype)
    ensures Plain(SliceVar(v, k, 0, since).items, ItemSize(v.dtype))
    ensures Plain(SliceVar(v, k, since, written).items, ItemSize(v.dtype))
    ensures Plain(SliceVar(v, k, 0, written).items, ItemSize(v.dtype))
    ensures |Bytes(SliceVar(v, k, 0, since).items)| == Outer(v.shape, k) * p
    ensures |Bytes(SliceVar(v, k, since, written).items)| == Outer(v.shape, k) * q
    ensures Bytes(SliceVar(v, k, 0, written).items)
         == Join(Bytes(SliceVar(v, k, 0, since).items), Bytes(SliceVar(v, k, since, written).items),
             Outer(v.shape, k), p, q)
  {
    SlicePlain(v, k, 0, since);
    SlicePlain(v, k, since, written);
    SlicePlain(v, k, 0, written);
    JoinedSlices(v, k, since, written, a, b);
    BytesOfJoin(SliceVar(v, k, 0, since).items, SliceVar(v, k, since, written).items,
                Outer(v.shape, k), a, b - a, ItemSize(v.dtype), p, q);
  }
}
