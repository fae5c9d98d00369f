/** Row-major arrays: slicing and joining along one axis. */
module Arrays {

  function Prod(shape: seq<nat>): nat {
    if shape == [] then 1 else shape[0] * Prod(shape[1..])
  }

  /** The length of the blocks one step along axis `k` spans, and how many there are. */
  function Inner(shape: seq<nat>, k: nat): nat
    requires k < |shape|
  {
    Prod(shape[k + 1..])
  }

  function Outer(shape: seq<nat>, k: nat): nat
    requires k < |shape|
  {
    Prod(shape[..k])
  }

  lemma MulAssoc(a: nat, b: nat, c: nat)
    ensures a * (b * c) == (a * b) * c
  {
  }

  lemma {:induction false} ProdSplit(shape: seq<nat>, k: nat)
    requires k < |shape|
    ensures Prod(shape) == Outer(shape, k) * (shape[k] * Inner(shape, k))
  {
    if k > 0 {
      ProdSplit(shape[1..], k - 1);
      assert shape[1..][..k - 1] == shape[..k][1..] && shape[1..][k..] == shape[k + 1..];
      MulAssoc(shape[0], Outer(shape[1..], k - 1), shape[k] * Inner(shape, k));
    }
  }

  lemma OneBlockMore(outer: nat, width: nat)
    requires outer > 0
    ensures outer * width == width + (outer - 1) * width
  {
  }

  /** The items are `outer` blocks of `width`; keep positions `lo` to `hi` of every block. */
  function Cut<T>(items: seq<T>, outer: nat, width: nat, lo: nat, hi: nat): (r: seq<T>)
    requires |items| == outer * width && lo <= hi <= width
    ensures |r| == outer * (hi - lo)
  {
    if outer == 0 then [] else
      assert |items| == width + (outer - 1) * width;
      assert outer * (hi - lo) == (hi - lo) + (outer - 1) * (hi - lo);
      items[lo..hi] + Cut(items[width..], outer - 1, width, lo, hi)
  }

  /** Put the blocks of `b` behind those of `a`, block by block. */
  function Join<T>(a: seq<T>, b: seq<T>, outer: nat, wa: nat, wb: nat): (r: seq<T>)
    requires |a| == outer * wa && |b| == outer * wb
    ensures |r| == outer * (wa + wb)
  {
    if outer == 0 then [] else
      assert |a| == wa + (outer - 1) * wa && |b| == wb + (outer - 1) * wb;
      assert outer * (wa + wb) == (wa + wb) + (outer - 1) * (wa + wb);
      a[..wa] + b[..wb] + Join(a[wa..], b[wb..], outer - 1, wa, wb)
  }

  /** Cutting twice from the front is cutting once. */
  lemma {:induction false} CutCut<T>(items: seq<T>, outer: nat, width: nat, mid: nat, hi: nat)
    requires |items| == outer * width && hi <= mid <= width
    ensures Cut(Cut(items, outer, width, 0, mid), outer, mid, 0, hi) == Cut(items, outer, width, 0, hi)
  {
    if outer > 0 {
      assert |items| == width + (outer - 1) * width;
      var rest := Cut(items[width..], outer - 1, width, 0, mid);
      CutCut(items[width..], outer - 1, width, mid, hi);
      assert Cut(items, outer, width, 0, mid)[..hi] == items[0..hi];
      assert Cut(items, outer, width, 0, mid)[mid..] == rest;
    }
  }

  /** Adjacent cuts join to the cut they cover. */
  lemma {:induction false} JoinCuts<T>(items: seq<T>, outer: nat, width: nat, lo: nat, mid: nat, hi: nat)
    requires |items| == outer * width && lo <= mid <= hi <= width
    ensures Join(Cut(items, outer, width, lo, mid), Cut(items, outer, width, mid, hi), outer, mid - lo, hi - mid)
         == Cut(items, outer, width, lo, hi)
  {
    if outer > 0 {
      assert |items| == width + (outer - 1) * width;
      var tail := items[width..];
      JoinCuts(tail, outer - 1, width, lo, mid, hi);
      var a, b := Cut(items, outer, width, lo, mid), Cut(items, outer, width, mid, hi);
      assert a[..mid - lo] == items[lo..mid] && a[mid - lo..] == Cut(tail, outer - 1, width, lo, mid);
      assert b[..hi - mid] == items[mid..hi] && b[hi - mid..] == Cut(tail, outer - 1, width, mid, hi);
      assert items[lo..mid] + items[mid..hi] == items[lo..hi];
    }
  }

  lemma CutHead<T>(head: seq<T>, rest: seq<T>, outer: nat, width: nat, hi: nat)
    requires |head| == width && |rest| == outer * width && hi <= width
    ensures |head + rest| == (outer + 1) * width
    ensures Cut(head + rest, outer + 1, width, 0, hi) == head[..hi] + Cut(rest, outer, width, 0, hi)
  {
    OneBlockMore(outer + 1, width);
    assert (head + rest)[0..hi] == head[..hi] && (head + rest)[width..] == rest;
  }

  /** Cutting a join gives back what was joined. */
  lemma {:induction false} CutJoin<T>(a: seq<T>, b: seq<T>, outer: nat, wa: nat, wb: nat, width: nat)
    requires |a| == outer * wa && |b| == outer * wb && width == wa + wb
    ensures |Join(a, b, outer, wa, wb)| == outer * width
    ensures Cut(Join(a, b, outer, wa, wb), outer, width, 0, wa) == a
  {
    if outer > 0 {
      OneBlockMore(outer, wa);
      OneBlockMore(outer, wb);
      CutJoin(a[wa..], b[wb..], outer - 1, wa, wb, width);
      CutHead(a[..wa] + b[..wb], Join(a[wa..], b[wb..], outer - 1, wa, wb), outer - 1, width, wa);
      assert (a[..wa] + b[..wb])[..wa] == a[..wa];
      assert a[..wa] + a[wa..] == a;
    }
  }

  /** The block number `o` of `outer` blocks. */
  function Block<T>(items: seq<T>, outer: nat, width: nat, o: nat): (r: seq<T>)
    requires |items| == outer * width && o < outer
    ensures |r| == width
  {
    assert |items| == width + (outer - 1) * width;
    if o == 0 then items[..width] else Block(items[width..], outer - 1, width, o - 1)
  }

  lemma SliceOfTail<T>(items: seq<T>, k: nat, lo: nat, hi: nat)
    requires lo <= hi && k + hi <= |items|
    ensures items[k..][lo..hi] == items[k + lo..k + hi]
  {
  }

  lemma {:induction false} BlockIsSlice<T>(items: seq<T>, outer: nat, width: nat, o: nat, p: nat)
    requires |items| == outer * width && o < outer && p == o * width
    ensures p + width <= |items| && Block(items, outer, width, o) == items[p..p + width]
  {
    OneBlockMore(outer, width);
    if o > 0 {
      OneBlockMore(o, width);
      BlockIsSlice(items[width..], outer - 1, width, o - 1, p - width);
      SliceOfTail(items, width, p - width, p);
    }
  }

  lemma CutTail<T>(items: seq<T>, outer: nat, width: nat, lo: nat, hi: nat)
    requires |items| == outer * width && lo <= hi <= width && outer > 0
    ensures |items| >= width && |items[width..]| == (outer - 1) * width
    ensures Cut(items, outer, width, lo, hi)[..hi - lo] == items[lo..hi]
    ensures Cut(items, outer, width, lo, hi)[hi - lo..] == Cut(items[width..], outer - 1, width, lo, hi)
  {
    OneBlockMore(outer, width);
  }

  /** Cutting keeps the same positions of every block. */
  lemma {:induction false} CutBlock<T>(items: seq<T>, outer: nat, width: nat, lo: nat, hi: nat, o: nat)
    requires |items| == outer * width && lo <= hi <= width && o < outer
    ensures Block(Cut(items, outer, width, lo, hi), outer, hi - lo, o) == Block(items, outer, width, o)[lo..hi]
  {
    CutTail(items, outer, width, lo, hi);
    if o > 0 {
      CutBlock(items[width..], outer - 1, width, lo, hi, o - 1);
    }
  }

  /** Where each kept item came from. */
  lemma CutAt<T>(items: seq<T>, outer: nat, width: nat, lo: nat, hi: nat, o: nat, i: nat, p: nat, q: nat)
    requires |items| == outer * width && lo <= hi <= width && o < outer && i < hi - lo
    requires p == o * (hi - lo) && q == o * width
    ensures p + i < |Cut(items, outer, width, lo, hi)| && q + lo + i < |items|
    ensures Cut(items, outer, width, lo, hi)[p + i] == items[q + lo + i]
  {
    var cut := Cut(items, outer, width, lo, hi);
    CutBlock(items, outer, width, lo, hi, o);
    BlockIsSlice(items, outer, width, o, q);
    BlockIsSlice(cut, outer, hi - lo, o, p);
    AtSlices(cut, items, p, q, lo, hi - lo, width, i);
  }

  lemma AtSlices<T>(a: seq<T>, b: seq<T>, p: nat, q: nat, lo: nat, kept: nat, width: nat, i: nat)
    requires p + kept <= |a| && q + width <= |b| && lo + kept <= width && i < kept
    requires a[p..p + kept] == b[q..q + width][lo..lo + kept]
    ensures a[p + i] == b[q + lo + i]
  {
    assert a[p + i] == a[p..p + kept][i];
  }
}
