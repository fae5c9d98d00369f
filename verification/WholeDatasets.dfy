/** The round trip of whole datasets, and of the deltas sent to a following client. */
module WholeDatasets {
  import opened Wrappers
  import opened Base64
  import opened Values
  import opened Markers
  import opened Datasets
  import opened Dicts
  import opened Incremental
  import opened Framing
  import opened FramingTheorems
  import opened Payloads
  import opened WireTheorems
  import Attributes
  import Merging

  /** The unpacked message of a dataset. */
  ghost predicate Carries(snapshot: Snapshot, ds: Dataset) {
    && Sendable(ds)
    && snapshot.header.payload == PayloadOf(ds)
    && forall i | 0 <= i < |ds.Vars()| ::
         Get(snapshot.data, ds.Vars()[i].name) ==
           Some(if IsBinary(ds.Vars()[i]) then Array(ds.Vars()[i].dtype, ds.Vars()[i].shape, ds.Vars()[i].items)
                else assert VarOk(ds.Vars()[i]); Nested(JsonOf(ds.Vars()[i])))
  }

  lemma NamesDiffer(ds: Dataset, i: nat, j: nat)
    requires WellFormed(ds) && i < j < |ds.Vars()|
    ensures ds.Vars()[i].name != ds.Vars()[j].name
  {
    assert Names(ds.Vars())[i] != Names(ds.Vars())[j];
  }

  ghost predicate Ready(vars: seq<Var>) {
    Distinct(Names(vars)) && forall i | 0 <= i < |vars| :: VarOk(vars[i])
  }

  lemma {:induction false} BinaryFound(vars: seq<Var>, data: Dict<Content>, k: nat)
    requires Ready(vars) && k < |vars| && IsBinary(vars[k])
    ensures forall i | 0 <= i < |vars| && IsBinary(vars[i]) :: AllBits(vars[i].items)
    ensures Matches(BinaryVars(vars), Parts(vars))
    ensures Get(Filled(BinaryVars(vars), Parts(vars), data), vars[k].name) ==
            Some(Array(vars[k].dtype, vars[k].shape, vars[k].items))
  {
    BinaryParts(vars);
    EntriesDistinct(vars);
    var entries, v := BinaryVars(vars), vars[k];
    var i := BinaryAt(vars, k);
    FilledGet(entries, Parts(vars), data, v.name);
    assert Get(Filled(entries, Parts(vars), data), v.name) == Some(ArrayOf(entries[i].1, Parts(vars)[i]));
    BytesBack(v);
  }

  lemma BytesBack(v: Var)
    requires VarOk(v) && IsBinary(v)
    ensures AllBits(v.items) && |Merging.Bytes(v.items)| == Need(BinInfo(v.dtype, v.shape))
    ensures ArrayOf(BinInfo(v.dtype, v.shape), Merging.Bytes(v.items)) == Array(v.dtype, v.shape, v.items)
  {
    assert forall x | 0 <= x < |v.items| :: Fits(v.dtype, v.items[x]);
    ItemsOfBytes(v.items, ItemSize(v.dtype));
  }

  lemma {:induction false} JsonFound(vars: seq<Var>, k: nat)
    requires Ready(vars) && k < |vars| && !IsBinary(vars[k])
    ensures forall i | 0 <= i < |vars| && IsBinary(vars[i]) :: AllBits(vars[i].items)
    ensures Matches(BinaryVars(vars), Parts(vars))
    ensures Get(Filled(BinaryVars(vars), Parts(vars), Carried(JsonData(vars))), vars[k].name) ==
            Some(Nested(JsonOf(vars[k])))
  {
    BinaryParts(vars);
    EntriesDistinct(vars);
    var v, data := vars[k], Carried(JsonData(vars));
    JsonNamesApart(vars, k);
    FilledGet(BinaryVars(vars), Parts(vars), data, v.name);
    var i := JsonAt(vars, k);
    GetAt(data, i);
  }

  lemma {:induction false} JsonNamesApart(vars: seq<Var>, k: nat)
    requires Ready(vars) && k < |vars| && !IsBinary(vars[k])
    ensures forall i | 0 <= i < |BinaryVars(vars)| :: BinaryVars(vars)[i].0 != vars[k].name
  {
    forall i | 0 <= i < |BinaryVars(vars)| ensures BinaryVars(vars)[i].0 != vars[k].name {
      EntryNames(vars, i);
      var j :| 0 <= j < |vars| && vars[j].name == BinaryVars(vars)[i].0 && IsBinary(vars[j]);
      assert Names(vars)[j] != Names(vars)[k];
    }
  }

  lemma HeaderFields(ds: Dataset, k: nat)
    requires Serializable(ds) && k < |ds.Vars()|
    ensures Get(PayloadOf(ds).varDims, ds.Vars()[k].name) == Some(ds.Vars()[k].dims)
    ensures Get(PayloadOf(ds).varDtypes, ds.Vars()[k].name) == Some(ds.Vars()[k].dtype)
  {
    forall i, j | 0 <= i < j < |ds.Vars()| ensures ds.Vars()[i].name != ds.Vars()[j].name { NamesDiffer(ds, i, j); }
    GetAt(PayloadOf(ds).varDims, k);
    GetAt(PayloadOf(ds).varDtypes, k);
  }

  /** The message holds the variable's array and its entries in the header. */
  ghost predicate Holds(snapshot: Snapshot, v: Var) {
    && VarOk(v)
    && Get(snapshot.data, v.name) == Some(if IsBinary(v) then Array(v.dtype, v.shape, v.items) else Nested(JsonOf(v)))
    && Get(snapshot.header.payload.varDims, v.name) == Some(v.dims)
    && Get(snapshot.header.payload.varDtypes, v.name) == Some(v.dtype)
  }

  lemma HoldsEach(snapshot: Snapshot, ds: Dataset, k: nat, v: Var)
    requires Carries(snapshot, ds) && k < |ds.Vars()| && v == ds.Vars()[k]
    ensures Holds(snapshot, v)
  {
    HeaderFields(ds, k);
  }

  lemma OneRebuilt(snapshot: Snapshot, v: Var, coord: bool)
    requires Holds(snapshot, v)
    ensures Rebuilt(snapshot, v.name, coord) == Ok(Some(Arrived(v)))
  {
    if !IsBinary(v) {
      ComplexArrives(v);
    }
  }

  function ArrivedAll(vars: seq<Var>): (r: seq<Var>)
    ensures |r| == |vars|
  {
    seq(|vars|, i requires 0 <= i < |vars| => Arrived(vars[i]))
  }

  lemma {:induction false} GatherAll<T, E>(rs: seq<Result<Option<T>, E>>, values: seq<T>)
    requires |rs| == |values| && forall i | 0 <= i < |rs| :: rs[i] == Ok(Some(values[i]))
    ensures Gather(rs) == Ok(values)
  {
    if rs != [] {
      var n := |rs| - 1;
      GatherAll(rs[..n], values[..n]);
      assert values == values[..n] + [values[n]];
    }
  }

  lemma {:induction false} MismatchedExact(vars: seq<Var>)
    ensures Mismatched(vars).None? <==> forall i | 0 <= i < |vars| :: |vars[i].dims| == |vars[i].shape|
  {
    if vars != [] {
      MismatchedExact(vars[1..]);
      assert forall i | 0 < i < |vars| :: vars[i] == vars[1..][i - 1];
    }
  }

  /** The dataset with the attributes of its first `k` variables. */
  function Dressed(vars: seq<Var>, from: int, k: nat): (r: seq<Var>)
    ensures |r| == |vars|
  {
    seq(|vars|, i requires 0 <= i < |vars| => if from + i < k then vars[i] else vars[i].(attrs := []))
  }

  lemma DressOne(vars: seq<Var>, part: seq<Var>, from: nat, k: nat)
    requires Distinct(Names(vars)) && k < |vars| && from + |part| <= |vars| && part == vars[from..from + |part|]
    ensures WithAttrs(Dressed(part, from, k), vars[k].name, vars[k].attrs) == Dressed(part, from, k + 1)
  {
    forall i | 0 <= i < |part| ensures part[i].name == vars[k].name ==> from + i == k {
      assert part[i] == vars[from + i];
      assert from + i != k ==> Names(vars)[from + i] != Names(vars)[k];
    }
  }

  ghost function DressedTo(ds: Dataset, k: nat): Dataset {
    ds.(coords := Dressed(ds.coords, 0, k), dataVars := Dressed(ds.dataVars, |ds.coords|, k))
  }

  lemma AttrsBack(attrs: seq<(Key, Value)>)
    requires AttrsNormal(attrs)
    ensures DecodeAttrs(Compatible(VDict(attrs))) == Ok(attrs)
  {
    Attributes.ComesBackExactly(VDict(attrs));
  }

  lemma AttrsDecoded(ds: Dataset, k: nat)
    requires Sendable(ds) && k < |ds.Vars()|
    ensures PayloadOf(ds).varAttrs[k].0 == ds.Vars()[k].name
    ensures DecodeAttrs(PayloadOf(ds).varAttrs[k].1) == Ok(ds.Vars()[k].attrs)
    ensures Named(DressedTo(ds, k).Vars(), ds.Vars()[k].name)
  {
    assert AttrsNormal(ds.Vars()[k].attrs);
    AttrsBack(ds.Vars()[k].attrs);
    assert DressedTo(ds, k).Vars()[k].name == ds.Vars()[k].name;
  }

  lemma AttrsStep(ds: Dataset, entries: Dict<Json>, fields: seq<(Key, Value)>)
    requires entries != [] && Named(ds.Vars(), entries[0].0) && DecodeAttrs(entries[0].1) == Ok(fields)
    ensures Attributed(ds, entries)
         == Attributed(ds.(coords := WithAttrs(ds.coords, entries[0].0, fields),
                           dataVars := WithAttrs(ds.dataVars, entries[0].0, fields)), entries[1..])
  {
  }

  lemma DressBoth(ds: Dataset, k: nat)
    requires WellFormed(ds) && k < |ds.Vars()|
    ensures var v, d := ds.Vars()[k], DressedTo(ds, k);
            d.(coords := WithAttrs(d.coords, v.name, v.attrs), dataVars := WithAttrs(d.dataVars, v.name, v.attrs))
            == DressedTo(ds, k + 1)
  {
    DressOne(ds.Vars(), ds.coords, 0, k);
    DressOne(ds.Vars(), ds.dataVars, |ds.coords|, k);
  }

  lemma {:induction false} AttrsRestored(ds: Dataset, k: nat)
    requires Sendable(ds) && k <= |ds.Vars()|
    ensures Attributed(DressedTo(ds, k), PayloadOf(ds).varAttrs[k..]) == Ok(ds)
    decreases |ds.Vars()| - k
  {
    if k == |ds.Vars()| {
      assert Dressed(ds.coords, 0, k) == ds.coords && Dressed(ds.dataVars, |ds.coords|, k) == ds.dataVars;
    } else {
      var entries := PayloadOf(ds).varAttrs;
      AttrsDecoded(ds, k);
      assert entries[k..][0] == entries[k] && entries[k..][1..] == entries[k + 1..];
      AttrsStep(DressedTo(ds, k), entries[k..], ds.Vars()[k].attrs);
      DressBoth(ds, k);
      AttrsRestored(ds, k + 1);
    }
  }

  lemma ArrivedShape(v: Var)
    requires VarOk(v)
    ensures |Arrived(v).dims| == |Arrived(v).shape| <==> IsBinary(v) || Nestable(v.shape)
    ensures IsBinary(v) || Nestable(v.shape) ==> Arrived(v) == v.(attrs := [])
  {
    InferredExact(v.shape);
  }

  lemma ArrivedShapes(ds: Dataset)
    requires WellFormed(ds)
    ensures Mismatched(ArrivedAll(ds.coords) + ArrivedAll(ds.dataVars)).None? <==> ShapesSurvive(ds)
  {
    var vars := ds.Vars();
    var arrived := ArrivedAll(ds.coords) + ArrivedAll(ds.dataVars);
    MismatchedExact(arrived);
    forall i | 0 <= i < |vars|
      ensures |arrived[i].dims| == |arrived[i].shape| <==> IsBinary(vars[i]) || Nestable(vars[i].shape)
    {
      assert VarOk(vars[i]) && arrived[i] == Arrived(vars[i]);
      ArrivedShape(vars[i]);
    }
  }

  lemma ArrivedPart(vars: seq<Var>, from: nat)
    requires forall i | 0 <= i < |vars| :: VarOk(vars[i]) && (IsBinary(vars[i]) || Nestable(vars[i].shape))
    ensures ArrivedAll(vars) == Dressed(vars, from, 0)
    ensures forall i | 0 <= i < |vars| :: ArrivedAll(vars)[i] == vars[i].(attrs := [])
  {
    forall i | 0 <= i < |vars| ensures ArrivedAll(vars)[i] == vars[i].(attrs := []) {
      ArrivedShape(vars[i]);
    }
  }

  lemma ArrivedWhole(ds: Dataset)
    requires WellFormed(ds) && ShapesSurvive(ds)
    ensures ArrivedAll(ds.coords) == Dressed(ds.coords, 0, 0)
            && ArrivedAll(ds.dataVars) == Dressed(ds.dataVars, |ds.coords|, 0)
    ensures SizesAgree(ArrivedAll(ds.coords) + ArrivedAll(ds.dataVars))
  {
    assert forall i | 0 <= i < |ds.coords| :: ds.coords[i] == ds.Vars()[i];
    assert forall i | 0 <= i < |ds.dataVars| :: ds.dataVars[i] == ds.Vars()[|ds.coords| + i];
    ArrivedPart(ds.coords, 0);
    ArrivedPart(ds.dataVars, |ds.coords|);
    SizesOfDims(ds.Vars(), ArrivedAll(ds.coords) + ArrivedAll(ds.dataVars));
  }

  lemma SizesOfDims(vars: seq<Var>, arrived: seq<Var>)
    requires |arrived| == |vars| && forall i | 0 <= i < |vars| ::
             arrived[i].dims == vars[i].dims && arrived[i].shape == vars[i].shape
    ensures SizesAgree(vars) ==> SizesAgree(arrived)
  {
  }

  lemma PartRebuilt(snapshot: Snapshot, part: seq<Var>, coord: bool)
    requires forall v | v in part :: Holds(snapshot, v)
    ensures RebuiltAll(snapshot, Names(part), coord) == Ok(ArrivedAll(part))
  {
    var rs := Results(snapshot, Names(part), coord);
    forall i | 0 <= i < |part| ensures rs[i] == Ok(Some(ArrivedAll(part)[i])) {
      OneRebuilt(snapshot, part[i], coord);
    }
    GatherAll(rs, ArrivedAll(part));
  }

  lemma AllHold(snapshot: Snapshot, ds: Dataset)
    requires Carries(snapshot, ds)
    ensures forall v | v in ds.Vars() :: Holds(snapshot, v)
  {
    forall v | v in ds.Vars() ensures Holds(snapshot, v) {
      var k :| 0 <= k < |ds.Vars()| && ds.Vars()[k] == v;
      HoldsEach(snapshot, ds, k, v);
    }
  }

  lemma BothRebuilt(snapshot: Snapshot, ds: Dataset)
    requires Carries(snapshot, ds)
    ensures RebuiltAll(snapshot, Names(ds.coords), true) == Ok(ArrivedAll(ds.coords))
    ensures RebuiltAll(snapshot, Names(ds.dataVars), false) == Ok(ArrivedAll(ds.dataVars))
  {
    AllHold(snapshot, ds);
    PartRebuilt(snapshot, ds.coords, true);
    PartRebuilt(snapshot, ds.dataVars, false);
  }

  /** Rebuilding gives the dataset back exactly when its complex variables have no empty
      dimension before their last; otherwise it fails. */
  lemma RebuildExact(snapshot: Snapshot, ds: Dataset)
    requires Carries(snapshot, ds)
    ensures Measurement(snapshot) == Ok(ds) <==> ShapesSurvive(ds)
    ensures !ShapesSurvive(ds) ==> Measurement(snapshot).Err? && Measurement(snapshot).error.DimsMismatch?
  {
    BothRebuilt(snapshot, ds);
    AttrsBack(ds.attrs);
    ArrivedShapes(ds);
    if ShapesSurvive(ds) {
      ArrivedWhole(ds);
      AttrsRestored(ds, 0);
      assert PayloadOf(ds).varAttrs[0..] == PayloadOf(ds).varAttrs;
    }
  }

  /** Send a dataset: payload, header, frame. */
  ghost function Sent(text: Text, ds: Dataset, rows: Option<RowFields>, id: string, source: Json)
    : Result<seq<byte>, FrameError>
    requires Serializable(ds)
  {
    SerializableParts(ds);
    Pack(text, Header(PayloadOf(ds), rows, id, source), Parts(ds.Vars()))
  }

  lemma SerializableParts(ds: Dataset)
    requires Serializable(ds)
    ensures forall i | 0 <= i < |ds.Vars()| && IsBinary(ds.Vars()[i]) :: AllBits(ds.Vars()[i].items)
  {
    assert forall i | 0 <= i < |ds.Vars()| :: VarOk(ds.Vars()[i]);
    BinaryParts(ds.Vars());
  }

  /** The header of a dataset has no key twice. */
  lemma HeaderProper(ds: Dataset, rows: Option<RowFields>, id: string, source: Json)
    requires Serializable(ds) && KeysDistinct(source)
    ensures Proper(Header(PayloadOf(ds), rows, id, source))
  {
    var vars := ds.Vars();
    assert forall i | 0 <= i < |vars| :: VarOk(vars[i]);
    forall i, j | 0 <= i < j < |vars| ensures vars[i].name != vars[j].name { NamesDiffer(ds, i, j); }
    EntriesDistinct(vars);
    forall i | 0 <= i < |vars| ensures KeysDistinct(Compatible(VDict(vars[i].attrs))) {
      CompatibleKeys(VDict(vars[i].attrs));
    }
    JsonDataKeys(vars);
    CompatibleKeys(VDict(ds.attrs));
  }

  lemma {:induction false} JsonDataKeys(vars: seq<Var>)
    requires Sized(vars)
    ensures forall i | 0 <= i < |JsonData(vars)| :: KeysDistinct(JsonData(vars)[i].1)
  {
    if vars != [] {
      JsonDataKeys(vars[..|vars| - 1]);
      var last := vars[|vars| - 1];
      CompatibleKeys(VArray(last.shape, ItemValues(last.items)));
    }
  }

  /** Filling in the arrays of a dataset's own parts gives every variable its content. */
  lemma ArraysFound(ds: Dataset)
    requires Serializable(ds)
    ensures forall i | 0 <= i < |ds.Vars()| && IsBinary(ds.Vars()[i]) :: AllBits(ds.Vars()[i].items)
    ensures Matches(BinaryVars(ds.Vars()), Parts(ds.Vars()))
    ensures forall k | 0 <= k < |ds.Vars()| ::
              Get(Filled(BinaryVars(ds.Vars()), Parts(ds.Vars()), Carried(JsonData(ds.Vars()))), ds.Vars()[k].name) ==
                Some(if IsBinary(ds.Vars()[k]) then Array(ds.Vars()[k].dtype, ds.Vars()[k].shape, ds.Vars()[k].items)
                     else Nested(JsonOf(ds.Vars()[k])))
  {
    var vars := ds.Vars();
    assert forall i | 0 <= i < |vars| :: VarOk(vars[i]);
    BinaryParts(vars);
    forall k | 0 <= k < |vars|
      ensures Get(Filled(BinaryVars(vars), Parts(vars), Carried(JsonData(vars))), vars[k].name) ==
                Some(if IsBinary(vars[k]) then Array(vars[k].dtype, vars[k].shape, vars[k].items)
                    else Nested(JsonOf(vars[k])))
    {
      if IsBinary(vars[k]) {
        BinaryFound(vars, Carried(JsonData(vars)), k);
      } else {
        JsonFound(vars, k);
      }
    }
  }

  /** The whole-dataset round trip: whatever fits in a frame arrives, with its header, and is
      rebuilt as the very same dataset exactly when its shapes survive nesting. */
  lemma WholeDatasetRoundTrip(text: Text, ds: Dataset, rows: Option<RowFields>, id: string, source: Json)
    requires Lawful(text) && Sendable(ds) && KeysDistinct(source) && Sent(text, ds, rows, id, source).Ok?
    ensures var unpacked := Unpack(text, Sent(text, ds, rows, id, source).value);
            && unpacked.Ok?
            && unpacked.value.header == Header(PayloadOf(ds), rows, id, source)
            && (Measurement(unpacked.value) == Ok(ds) <==> ShapesSurvive(ds))
            && (!ShapesSurvive(ds) ==> Measurement(unpacked.value).Err?)
  {
    var header := Header(PayloadOf(ds), rows, id, source);
    HeaderProper(ds, rows, id, source);
    ArraysFound(ds);
    FramingRoundTrip(text, header, Parts(ds.Vars()), []);
    var raw := Sent(text, ds, rows, id, source).value;
    assert raw + [] == raw;
    RebuildExact(Unpack(text, raw).value, ds);
  }
}
