/** What any message decodes to, whoever made it: markers, frames, variables and attributes. */
module Decoding {
  import opened Wrappers
  import opened Arrays
  import opened Base64
  import opened Values
  import opened Markers
  import opened Datasets
  import opened Dicts
  import opened Framing
  import opened FramingTheorems
  import opened Payloads

  /** The JSON values Python takes for a floating-point number. */
  ghost predicate IsNumber(j: Json, f: Float) {
    match j
    case JReal(x) => f == x
    case JInt(i) => if i < 0 then f == Finite(true, -i, 0) else f == Finite(false, i, 0)
    case JBool(b) => f == Finite(false, if b then 1 else 0, 0)
    case _ => false
  }

  /** Only an object with the marker as its one key becomes a complex number or bytes. */
  lemma MarkersExactly(j: Json, re: Float, im: Float, bytes: seq<byte>)
    ensures Markers.Decode(j) == Ok(VComplex(re, im)) <==>
              exists a, b :: j == JObj([(COMPLEX_MARKER, JList([a, b]))]) && IsNumber(a, re) && IsNumber(b, im)
    ensures Markers.Decode(j) == Ok(VBytes(bytes)) <==>
              exists text :: j == JObj([(BYTES_MARKER, JStr(text))]) && Base64.Decode(text) == Some(bytes)
  {
    if j.JObj? && OnlyKey(j.fields, COMPLEX_MARKER) {
      var inner := j.fields[0].1;
      assert j.fields == [(COMPLEX_MARKER, inner)];
      if inner.JList? && |inner.items| == 2 {
        assert inner.items == [inner.items[0], inner.items[1]];
        assert j == JObj([(COMPLEX_MARKER, JList([inner.items[0], inner.items[1]]))]);
      }
    } else if j.JObj? && OnlyKey(j.fields, BYTES_MARKER) {
      var inner := j.fields[0].1;
      assert j.fields == [(BYTES_MARKER, inner)];
      if inner.JStr? {
        assert j == JObj([(BYTES_MARKER, JStr(inner.s))]);
      }
    }
  }

  /** The bytes of each array, one after the other. */
  function Slices(entries: Dict<BinInfo>, bytes: seq<byte>): (parts: seq<seq<byte>>)
    requires NeedAll(entries) <= |bytes|
    ensures Matches(entries, parts) && Concat(parts) == bytes[..NeedAll(entries)]
  {
    if entries == [] then []
    else
      var n := Need(entries[0].1);
      var rest := Slices(entries[1..], bytes[n..]);
      assert bytes[..n] + bytes[n..][..NeedAll(entries[1..])] == bytes[..NeedAll(entries)];
      [bytes[..n]] + rest
  }

  lemma {:induction false} FillShort(entries: Dict<BinInfo>, blob: seq<byte>, offset: nat, data: Dict<Content>)
    returns (j: nat)
    requires offset <= |blob| < offset + NeedAll(entries)
    ensures CutHits(entries, |blob| - offset, j)
    ensures Fill(entries, blob, offset, data)
         == Err(Truncated(entries[j].0, Need(entries[j].1), offset + NeedAll(entries[..j]),
                          |blob| - offset - NeedAll(entries[..j])))
  {
    var n := Need(entries[0].1);
    NeedOneMore(entries, 0);
    assert NeedAll(entries[..1]) == n;
    if offset + n > |blob| {
      j := 0;
    } else {
      var items := Items(blob[offset..offset + n], Prod(entries[0].1.shape), ItemSize(entries[0].1.dtype));
      var i := FillShort(entries[1..], blob, offset + n,
                         Put(data, entries[0].0, Array(entries[0].1.dtype, entries[0].1.shape, items)));
      j := i + 1;
      assert entries[..j][1..] == entries[1..][..i] && entries[..j + 1][1..] == entries[1..][..i + 1];
    }
  }

  /** Exactly when the blob is long enough every array is read, at the sum of the lengths before it;
      otherwise the error names the first that does not fit. */
  lemma FillExactly(entries: Dict<BinInfo>, blob: seq<byte>, data: Dict<Content>)
    ensures NeedAll(entries) <= |blob| ==>
              Fill(entries, blob, 0, data) == Ok(Filled(entries, Slices(entries, blob), data))
    ensures NeedAll(entries) > |blob| ==>
              exists j: nat | CutHits(entries, |blob|, j) ::
                Fill(entries, blob, 0, data) == Err(CutError(entries, |blob|, j))
  {
    if NeedAll(entries) <= |blob| {
      var parts := Slices(entries, blob);
      FillFromStart(entries, parts, blob[NeedAll(entries)..], data);
      assert Concat(parts) + blob[NeedAll(entries)..] == blob;
    } else {
      var j := FillShort(entries, blob, 0, data);
    }
  }

  /** Any bytes at all: unpacked exactly when they hold a length, a header and as many bytes as the
      header's arrays take, and refused for the first of these that is missing. */
  lemma UnpackExactly(text: Text, raw: seq<byte>)
    ensures |raw| < 4 ==> Unpack(text, raw) == Err(NoHeader)
    ensures |raw| >= 4 ==>
              var end := Least(4 + FromBigEndian(raw), |raw|);
              match text.loads(raw[4..end])
              case None => Unpack(text, raw) == Err(BadHeader)
              case Some(h) =>
                var entries, blob := h.payload.binaryVars, raw[end..];
                if NeedAll(entries) <= |blob|
                then Unpack(text, raw)
                  == Ok(Snapshot(h, Filled(entries, Slices(entries, blob), Carried(h.payload.data))))
                else exists j: nat | CutHits(entries, |blob|, j) ::
                       Unpack(text, raw) == Err(CutError(entries, |blob|, j))
  {
    if |raw| >= 4 {
      var end := Least(4 + FromBigEndian(raw), |raw|);
      var loaded := text.loads(raw[4..end]);
      if loaded.Some? {
        FillExactly(loaded.value.payload.binaryVars, raw[end..], Carried(loaded.value.payload.data));
      }
    }
  }

  /** The names that have content, in order. */
  function Present(snapshot: Snapshot, names: seq<string>): seq<string> {
    if names == [] then []
    else
      var last := names[|names| - 1];
      Present(snapshot, names[..|names| - 1]) + if Get(snapshot.data, last).Some? then [last] else []
  }

  /** A variable as the message describes it.  Without declared dimensions a vector coordinate spans
      itself, and a data variable with an axis for each coordinate spans them all. */
  ghost predicate Described(snapshot: Snapshot, v: Var, coord: bool) {
    var p := snapshot.header.payload;
    && v.attrs == []
    && (match Get(p.varDims, v.name)
        case Some(dims) => v.dims == dims
        case None =>
          if coord then v.dims == if |v.shape| == 1 then [v.name] else []
          else v.dims == if |v.shape| == |p.coords| then p.coords else [])
    && var content: Option<Content> := Get(snapshot.data, v.name);
       match content
       case None => false
       case Some(Array(dtype, shape, items)) => v.dtype == dtype && v.shape == shape && v.items == items
       case Some(Nested(json)) =>
         && Get(p.varDtypes, v.name) == Some(Complex) && v.dtype == Complex
         && Markers.Decode(json).Ok?
         && var nested := Markers.Decode(json).value;
         && v.shape == InferShape(nested) && |v.items| == |Leaves(nested)| == Prod(v.shape)
         && forall i | 0 <= i < |v.items| :: AsComplex(Leaves(nested)[i]) == Some(v.items[i])
  }

  /** Lists that agree in shape at every level hold as many values as the shape says. */
  lemma {:induction false} LeavesFill(v: Value)
    requires Regular(v)
    ensures |Leaves(v)| == Prod(InferShape(v))
    decreases v, 0
  {
    if v.VList? && v.items != [] {
      LeavesFillAll(v.items, InferShape(v.items[0]));
      assert InferShape(v)[1..] == InferShape(v.items[0]);
    }
  }

  lemma {:induction false} LeavesFillAll(vs: seq<Value>, shape: seq<nat>)
    requires forall i | 0 <= i < |vs| :: Regular(vs[i]) && InferShape(vs[i]) == shape
    ensures |LeavesOf(vs)| == |vs| * Prod(shape)
    decreases vs, 1
  {
    if vs != [] {
      LeavesFill(vs[0]);
      LeavesFillAll(vs[1..], shape);
      OneBlockMore(|vs|, Prod(shape));
    }
  }

  /** Rebuilding gives one such variable for each name that has content, in order, and fails
      exactly when one of them cannot be rebuilt. */
  lemma {:induction false} RebuiltExactly(snapshot: Snapshot, names: seq<string>, coord: bool)
    ensures RebuiltAll(snapshot, names, coord).Ok? <==>
              forall i | 0 <= i < |names| :: Rebuilt(snapshot, names[i], coord).Ok?
    ensures RebuiltAll(snapshot, names, coord).Ok? ==>
              var vars := RebuiltAll(snapshot, names, coord).value;
              && Names(vars) == Present(snapshot, names)
              && forall i | 0 <= i < |vars| :: Described(snapshot, vars[i], coord)
  {
    if names != [] {
      var front, last := names[..|names| - 1], names[|names| - 1];
      RebuiltExactly(snapshot, front, coord);
      assert Results(snapshot, names, coord)[..|names| - 1] == Results(snapshot, front, coord);
      RebuiltOne(snapshot, last, coord);
    }
  }

  lemma RebuiltOne(snapshot: Snapshot, name: string, coord: bool)
    ensures var r := Rebuilt(snapshot, name, coord);
            r.Ok? ==>
              (r.value.Some? <==> Get(snapshot.data, name).Some?)
              && (r.value.Some? ==> r.value.value.name == name && Described(snapshot, r.value.value, coord))
  {
    var content: Option<Content> := Get(snapshot.data, name);
    if content.Some? && content.value.Nested? && Rebuilt(snapshot, name, coord).Ok? {
      LeavesFill(Markers.Decode(content.value.json).value);
    }
  }

  /** The variable with the attributes the message has under its name, if it has any. */
  function Dressing(v: Var, entries: Dict<Json>): Var {
    match Get(entries, v.name)
    case None => v
    case Some(json) => if DecodeAttrs(json).Ok? then v.(attrs := DecodeAttrs(json).value) else v
  }

  ghost predicate AllDressed(vars: seq<Var>, before: seq<Var>, entries: Dict<Json>) {
    |vars| == |before| && forall i | 0 <= i < |vars| :: vars[i] == Dressing(before[i], entries)
  }

  ghost predicate EntriesDecode(ds: Dataset, entries: Dict<Json>) {
    forall i | 0 <= i < |entries| && Named(ds.Vars(), entries[i].0) :: DecodeAttrs(entries[i].1).Ok?
  }

  lemma {:induction false} NotListed(entries: Dict<Json>, name: string)
    requires forall i | 0 <= i < |entries| :: entries[i].0 != name
    ensures Get(entries, name).None?
  {
    if entries != [] {
      NotListed(entries[1..], name);
    }
  }

  lemma DressedStep(vars: seq<Var>, entries: Dict<Json>, fields: seq<(Key, Value)>)
    requires Unique(entries) && entries != [] && DecodeAttrs(entries[0].1) == Ok(fields)
    ensures forall done | AllDressed(done, WithAttrs(vars, entries[0].0, fields), entries[1..]) ::
              AllDressed(done, vars, entries)
  {
    NotListed(entries[1..], entries[0].0);
  }

  lemma NamesStay(ds: Dataset, name: string, fields: seq<(Key, Value)>)
    ensures var next := ds.(coords := WithAttrs(ds.coords, name, fields),
                            dataVars := WithAttrs(ds.dataVars, name, fields));
            forall x :: Named(next.Vars(), x) <==> Named(ds.Vars(), x)
  {
    var next := ds.(coords := WithAttrs(ds.coords, name, fields), dataVars := WithAttrs(ds.dataVars, name, fields));
    assert |next.Vars()| == |ds.Vars()| && forall i | 0 <= i < |ds.Vars()| :: next.Vars()[i].name == ds.Vars()[i].name;
  }

  lemma OwnNames(ds: Dataset)
    ensures forall i | 0 <= i < |ds.coords| :: Named(ds.Vars(), ds.coords[i].name)
    ensures forall i | 0 <= i < |ds.dataVars| :: Named(ds.Vars(), ds.dataVars[i].name)
  {
    forall i | 0 <= i < |ds.coords| ensures Named(ds.Vars(), ds.coords[i].name) {
      assert ds.Vars()[i] == ds.coords[i];
    }
    forall i | 0 <= i < |ds.dataVars| ensures Named(ds.Vars(), ds.dataVars[i].name) {
      assert ds.Vars()[|ds.coords| + i] == ds.dataVars[i];
    }
  }

  /** Each entry reaches the variables of its name only; entries under other names are skipped,
      even when they do not decode. */
  lemma {:induction false} AttributedExactly(ds: Dataset, entries: Dict<Json>)
    requires Unique(entries)
    ensures Attributed(ds, entries).Ok? <==> EntriesDecode(ds, entries)
    ensures Attributed(ds, entries).Ok? ==>
              var done := Attributed(ds, entries).value;
              && done.attrs == ds.attrs
              && AllDressed(done.coords, ds.coords, entries) && AllDressed(done.dataVars, ds.dataVars, entries)
    decreases |entries|
  {
    if entries != [] {
      var (name, json) := entries[0];
      if !Named(ds.Vars(), name) {
        AttributedExactly(ds, entries[1..]);
        OwnNames(ds);
      } else if DecodeAttrs(json).Ok? {
        var fields := DecodeAttrs(json).value;
        var next := ds.(coords := WithAttrs(ds.coords, name, fields), dataVars := WithAttrs(ds.dataVars, name, fields));
        NamesStay(ds, name, fields);
        AttributedExactly(next, entries[1..]);
        DressedStep(ds.coords, entries, fields);
        DressedStep(ds.dataVars, entries, fields);
      }
    }
  }

  /** A rebuilt variable: as the message describes it, with the attributes it lists for it. */
  ghost predicate AsSent(snapshot: Snapshot, v: Var, coord: bool) {
    && Described(snapshot, v.(attrs := []), coord) && |v.dims| == |v.shape|
    && match Get(snapshot.header.payload.varAttrs, v.name)
       case None => v.attrs == []
       case Some(json) => Markers.Decode(json) == Ok(VDict(v.attrs))
  }

  ghost predicate AllAsSent(snapshot: Snapshot, vars: seq<Var>, coord: bool) {
    forall i | 0 <= i < |vars| :: AsSent(snapshot, vars[i], coord)
  }

  lemma {:induction false} NoMismatch(vars: seq<Var>)
    requires Mismatched(vars).None?
    ensures forall i | 0 <= i < |vars| :: |vars[i].dims| == |vars[i].shape|
  {
    if vars != [] {
      NoMismatch(vars[1..]);
    }
  }

  /** What the message lists under the variables' names are attributes. */
  ghost predicate AllDecode(vars: seq<Var>, entries: Dict<Json>) {
    forall i | 0 <= i < |vars| && Get(entries, vars[i].name).Some? ::
      DecodeAttrs(Get(entries, vars[i].name).value).Ok?
  }

  lemma DressedAsSent(snapshot: Snapshot, vars: seq<Var>, done: seq<Var>, coord: bool)
    requires forall i | 0 <= i < |vars| :: Described(snapshot, vars[i], coord) && |vars[i].dims| == |vars[i].shape|
    requires AllDressed(done, vars, snapshot.header.payload.varAttrs)
    requires AllDecode(vars, snapshot.header.payload.varAttrs)
    ensures Names(done) == Names(vars) && AllAsSent(snapshot, done, coord)
  {
    forall i | 0 <= i < |done| ensures AsSent(snapshot, done[i], coord) && done[i].name == vars[i].name {
      assert done[i] == Dressing(vars[i], snapshot.header.payload.varAttrs);
      assert done[i].(attrs := []) == vars[i];
    }
  }

  lemma {:induction false} FoundDecodes(ds: Dataset, entries: Dict<Json>, name: string)
    requires EntriesDecode(ds, entries) && Named(ds.Vars(), name)
    ensures Get(entries, name).Some? ==> DecodeAttrs(Get(entries, name).value).Ok?
  {
    if entries != [] && entries[0].0 != name {
      FoundDecodes(ds, entries[1..], name);
    }
  }

  lemma OwnEntriesDecode(ds: Dataset, entries: Dict<Json>)
    requires EntriesDecode(ds, entries)
    ensures AllDecode(ds.coords, entries) && AllDecode(ds.dataVars, entries)
  {
    OwnNames(ds);
    forall i | 0 <= i < |ds.coords| && Get(entries, ds.coords[i].name).Some?
      ensures DecodeAttrs(Get(entries, ds.coords[i].name).value).Ok?
    {
      FoundDecodes(ds, entries, ds.coords[i].name);
    }
    forall i | 0 <= i < |ds.dataVars| && Get(entries, ds.dataVars[i].name).Some?
      ensures DecodeAttrs(Get(entries, ds.dataVars[i].name).value).Ok?
    {
      FoundDecodes(ds, entries, ds.dataVars[i].name);
    }
  }

  lemma SameSizes(vars: seq<Var>, others: seq<Var>)
    requires |vars| == |others| && SizesAgree(vars)
    requires forall i | 0 <= i < |vars| :: vars[i].dims == others[i].dims && vars[i].shape == others[i].shape
    ensures SizesAgree(others)
  {
  }

  ghost predicate AllDescribed(snapshot: Snapshot, vars: seq<Var>, coord: bool) {
    forall i | 0 <= i < |vars| :: Described(snapshot, vars[i], coord)
  }

  ghost predicate AxesNamed(vars: seq<Var>) {
    forall i | 0 <= i < |vars| :: |vars[i].dims| == |vars[i].shape|
  }

  lemma Constructed(coords: seq<Var>, dataVars: seq<Var>, attrs: seq<(Key, Value)>)
    ensures Construct(coords, dataVars, attrs).Ok? ==>
              && Construct(coords, dataVars, attrs).value == Dataset(coords, dataVars, attrs)
              && AxesNamed(coords) && AxesNamed(dataVars) && SizesAgree(coords + dataVars)
  {
    if Construct(coords, dataVars, attrs).Ok? {
      NoMismatch(coords + dataVars);
      assert forall i | 0 <= i < |coords| :: (coords + dataVars)[i] == coords[i];
      assert forall i | 0 <= i < |dataVars| :: (coords + dataVars)[|coords| + i] == dataVars[i];
    }
  }

  lemma AttributedAsSent(snapshot: Snapshot, bare: Dataset, done: Dataset)
    requires Unique(snapshot.header.payload.varAttrs)
    requires AllDescribed(snapshot, bare.coords, true) && AllDescribed(snapshot, bare.dataVars, false)
    requires AxesNamed(bare.coords) && AxesNamed(bare.dataVars) && SizesAgree(bare.Vars())
    requires Attributed(bare, snapshot.header.payload.varAttrs) == Ok(done)
    ensures done.attrs == bare.attrs && SizesAgree(done.Vars())
    ensures Names(done.coords) == Names(bare.coords) && AllAsSent(snapshot, done.coords, true)
    ensures Names(done.dataVars) == Names(bare.dataVars) && AllAsSent(snapshot, done.dataVars, false)
  {
    var entries := snapshot.header.payload.varAttrs;
    AttributedExactly(bare, entries);
    OwnEntriesDecode(bare, entries);
    DressedAsSent(snapshot, bare.coords, done.coords, true);
    DressedAsSent(snapshot, bare.dataVars, done.dataVars, false);
    SameSizes(bare.Vars(), done.Vars());
  }

  /** Whatever is rebuilt, from whatever message, is what the message says: a variable for each
      listed name that has content, every axis named, sizes in agreement. */
  lemma MeasurementExactly(snapshot: Snapshot)
    requires Unique(snapshot.header.payload.varAttrs)
    ensures Measurement(snapshot).Ok? ==>
              var p, ds := snapshot.header.payload, Measurement(snapshot).value;
              && Names(ds.coords) == Present(snapshot, p.coords) && AllAsSent(snapshot, ds.coords, true)
              && Names(ds.dataVars) == Present(snapshot, p.dataVars) && AllAsSent(snapshot, ds.dataVars, false)
              && Markers.Decode(p.attrs) == Ok(VDict(ds.attrs)) && SizesAgree(ds.Vars())
  {
    if Measurement(snapshot).Ok? {
      var p := snapshot.header.payload;
      RebuiltExactly(snapshot, p.coords, true);
      RebuiltExactly(snapshot, p.dataVars, false);
      var coords, dataVars := RebuiltAll(snapshot, p.coords, true).value, RebuiltAll(snapshot, p.dataVars, false).value;
      var attrs := DecodeAttrs(p.attrs).value;
      Constructed(coords, dataVars, attrs);
      AttributedAsSent(snapshot, Dataset(coords, dataVars, attrs), Measurement(snapshot).value);
    }
  }
}
