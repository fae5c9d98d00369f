/** Datasets to payloads and back: `snapshot_payload` and `measurement_from_snapshot`. */
module Payloads {
  import opened Wrappers
  import opened Arrays
  import opened Base64
  import opened Values
  import opened Markers
  import opened Datasets
  import opened Dicts
  import opened Framing
  import Merging

  predicate IsBinary(v: Var) {
    !v.dtype.Complex?
  }

  function ItemValue(item: Item): Value {
    match item
    case Cplx(re, im) => VComplex(re, im)
    case Bits(bytes) => VBytes(bytes)
  }

  function ItemValues(items: seq<Item>): (vs: seq<Value>)
    ensures |vs| == |items| && forall i | 0 <= i < |vs| :: Shaped(vs[i])
  {
    seq(|items|, i requires 0 <= i < |items| => ItemValue(items[i]))
  }

  /** Every variable has as many items as its shape says. */
  predicate Sized(vars: seq<Var>) {
    forall i | 0 <= i < |vars| :: |vars[i].items| == Prod(vars[i].shape)
  }

  /** `json_compatible` of a variable's array. */
  function JsonOf(v: Var): Json
    requires |v.items| == Prod(v.shape)
  {
    Compatible(VArray(v.shape, ItemValues(v.items)))
  }

  function BinaryVars(vars: seq<Var>): Dict<BinInfo> {
    if vars == [] then []
    else
      var last := vars[|vars| - 1];
      BinaryVars(vars[..|vars| - 1]) + if IsBinary(last) then [(last.name, BinInfo(last.dtype, last.shape))] else []
  }

  function JsonData(vars: seq<Var>): Dict<Json>
    requires Sized(vars)
  {
    if vars == [] then []
    else
      var last := vars[|vars| - 1];
      JsonData(vars[..|vars| - 1]) + if IsBinary(last) then [] else [(last.name, JsonOf(last))]
  }

  predicate AttrsShaped(attrs: seq<(Key, Value)>) {
    Shaped(VDict(attrs))
  }

  ghost predicate Serializable(ds: Dataset) {
    WellFormed(ds) && AttrsShaped(ds.attrs) && forall i | 0 <= i < |ds.Vars()| :: AttrsShaped(ds.Vars()[i].attrs)
  }

  /** The `binary=True` payload. */
  ghost function PayloadOf(ds: Dataset): Payload
    requires Serializable(ds)
  {
    var vars := ds.Vars();
    Payload(
      Names(ds.coords),
      Names(ds.dataVars),
      seq(|vars|, i requires 0 <= i < |vars| => (vars[i].name, vars[i].dims)),
      seq(|vars|, i requires 0 <= i < |vars| => (vars[i].name, Compatible(VDict(vars[i].attrs)))),
      seq(|vars|, i requires 0 <= i < |vars| => (vars[i].name, vars[i].dtype)),
      JsonData(vars),
      Compatible(VDict(ds.attrs)),
      BinaryVars(vars))
  }

  lemma {:induction false} EntryNames(vars: seq<Var>, i: nat)
    requires Sized(vars)
    ensures i < |BinaryVars(vars)| ==>
            exists k | 0 <= k < |vars| :: vars[k].name == BinaryVars(vars)[i].0 && IsBinary(vars[k])
    ensures i < |JsonData(vars)| ==>
            exists k | 0 <= k < |vars| :: vars[k].name == JsonData(vars)[i].0 && !IsBinary(vars[k])
  {
    if vars != [] {
      var front := vars[..|vars| - 1];
      EntryNames(front, i);
      assert forall k | 0 <= k < |front| :: front[k] == vars[k];
    }
  }

  /** The loop over the variables, filling two dictionaries. */
  method SnapshotPayload(ds: Dataset) returns (payload: Payload)
    requires Serializable(ds)
    ensures payload == PayloadOf(ds)
  {
    var vars := ds.Vars();
    var binaryVars: Dict<BinInfo>, data: Dict<Json> := [], [];
    assert forall i | 0 <= i < |vars| :: VarOk(vars[i]);
    for n := 0 to |vars|
      invariant Sized(vars[..n])
      invariant binaryVars == BinaryVars(vars[..n]) && data == JsonData(vars[..n])
    {
      OneMoreEntry(vars, n);
      if IsBinary(vars[n]) {
        binaryVars := Put(binaryVars, vars[n].name, BinInfo(vars[n].dtype, vars[n].shape));
      } else {
        data := Put(data, vars[n].name, JsonOf(vars[n]));
      }
    }
    assert vars[..|vars|] == vars;
    payload := Payload(
      Names(ds.coords),
      Names(ds.dataVars),
      seq(|vars|, i requires 0 <= i < |vars| => (vars[i].name, vars[i].dims)),
      seq(|vars|, i requires 0 <= i < |vars| => (vars[i].name, Compatible(VDict(vars[i].attrs)))),
      seq(|vars|, i requires 0 <= i < |vars| => (vars[i].name, vars[i].dtype)),
      data,
      Compatible(VDict(ds.attrs)),
      binaryVars);
  }

  /** What the variables before the last enter into the payload is under other names. */
  lemma FreshEntries(vars: seq<Var>)
    requires vars != [] && Distinct(Names(vars)) && Sized(vars)
    ensures var front, last := vars[..|vars| - 1], vars[|vars| - 1];
            && (forall i | 0 <= i < |BinaryVars(front)| :: BinaryVars(front)[i].0 != last.name)
            && (forall i | 0 <= i < |JsonData(front)| :: JsonData(front)[i].0 != last.name)
  {
    var front, last := vars[..|vars| - 1], vars[|vars| - 1];
    forall k | 0 <= k < |front| ensures front[k].name != last.name {
      assert Names(vars)[k] != Names(vars)[|vars| - 1];
    }
    forall i | 0 <= i < |BinaryVars(front)| ensures BinaryVars(front)[i].0 != last.name {
      EntryNames(front, i);
    }
    forall i | 0 <= i < |JsonData(front)| ensures JsonData(front)[i].0 != last.name {
      EntryNames(front, i);
    }
  }

  /** Putting the next variable's entry into its dictionary appends it. */
  lemma OneMoreEntry(vars: seq<Var>, n: nat)
    requires n < |vars| && Distinct(Names(vars)) && Sized(vars)
    ensures Sized(vars[..n]) && Sized(vars[..n + 1])
    ensures BinaryVars(vars[..n + 1]) ==
              if IsBinary(vars[n]) then Put(BinaryVars(vars[..n]), vars[n].name, BinInfo(vars[n].dtype, vars[n].shape))
              else BinaryVars(vars[..n])
    ensures JsonData(vars[..n + 1]) ==
              if IsBinary(vars[n]) then JsonData(vars[..n]) else Put(JsonData(vars[..n]), vars[n].name, JsonOf(vars[n]))
  {
    assert Names(vars[..n + 1]) == Names(vars)[..n + 1];
    FreshEntries(vars[..n + 1]);
    assert vars[..n + 1][..n] == vars[..n];
    if IsBinary(vars[n]) {
      PutNew(BinaryVars(vars[..n]), vars[n].name, BinInfo(vars[n].dtype, vars[n].shape));
    } else {
      PutNew(JsonData(vars[..n]), vars[n].name, JsonOf(vars[n]));
    }
  }

  /** The raw bytes of the binary variables, in order. */
  function Parts(vars: seq<Var>): seq<seq<byte>>
    requires forall i | 0 <= i < |vars| && IsBinary(vars[i]) :: AllBits(vars[i].items)
  {
    if vars == [] then []
    else
      var last := vars[|vars| - 1];
      Parts(vars[..|vars| - 1])
      + if IsBinary(last) then (assert AllBits(last.items); [Merging.Bytes(last.items)]) else []
  }

  predicate AllBits(items: seq<Item>) {
    forall i | 0 <= i < |items| :: items[i].Bits?
  }

  /** What a nested list turns out to be as an array: lengths down the first elements. */
  function InferShape(v: Value): seq<nat> {
    if v.VList? then
      if v.items == [] then [0] else [|v.items|] + InferShape(v.items[0])
    else []
  }

  predicate Regular(v: Value) {
    v.VList? ==> forall i | 0 <= i < |v.items| ::
        Regular(v.items[i]) && InferShape(v.items[i]) == InferShape(v.items[0])
  }

  function Leaves(v: Value): seq<Value>
    decreases v, 0
  {
    if v.VList? then LeavesOf(v.items) else [v]
  }

  function LeavesOf(vs: seq<Value>): seq<Value>
    decreases vs, 1
  {
    if vs == [] then [] else Leaves(vs[0]) + LeavesOf(vs[1..])
  }

  datatype RebuildError =
    | BadValue(error: DecodeError)
    | BadArray(name: string)
    | BadAttrs
    | DimsMismatch(name: string)
    | SizeConflict

  function AsComplex(v: Value): Option<Item> {
    match v
    case VComplex(re, im) => Some(Cplx(re, im))
    case VReal(f) => Some(Cplx(f, ZERO))
    case VInt(i) => Some(Cplx(FloatOf(i), ZERO))
    case VBool(b) => Some(Cplx(FloatOf(if b then 1 else 0), ZERO))
    case _ => None
  }

  /** One variable's array: as it is, or decoded from nested JSON into its declared dtype. */
  function ArrayFor(name: string, content: Content, dtype: Option<DType>)
    : Result<(DType, seq<nat>, seq<Item>), RebuildError>
  {
    match content
    case Array(d, shape, items) => Ok((d, shape, items))
    case Nested(json) =>
      match Markers.Decode(json)
      case Err(e) => Err(BadValue(e))
      case Ok(v) =>
        var leaves := Leaves(v);
        if dtype == Some(Complex) && Regular(v) && forall i | 0 <= i < |leaves| :: AsComplex(leaves[i]).Some?
        then Ok((Complex, InferShape(v), seq(|leaves|, i requires 0 <= i < |leaves| => AsComplex(leaves[i]).value)))
        else Err(BadArray(name))
  }

  /** A coordinate without declared dimensions spans itself, if it is a vector. */
  function CoordDims(snapshot: Snapshot, name: string, rank: nat): seq<string> {
    match Get(snapshot.header.payload.varDims, name)
    case Some(dims) => dims
    case None => if rank == 1 then [name] else []
  }

  function DataDims(snapshot: Snapshot, name: string, rank: nat): seq<string> {
    match Get(snapshot.header.payload.varDims, name)
    case Some(dims) => dims
    case None => if rank == |snapshot.header.payload.coords| then snapshot.header.payload.coords else []
  }

  function Rebuilt(snapshot: Snapshot, name: string, coord: bool): Result<Option<Var>, RebuildError> {
    match Get(snapshot.data, name)
    case None => Ok(None)
    case Some(content) =>
      var (dtype, shape, items) :- ArrayFor(name, content, Get(snapshot.header.payload.varDtypes, name));
      var dims := if coord then CoordDims(snapshot, name, |shape|) else DataDims(snapshot, name, |shape|);
      Ok(Some(Var(name, dims, shape, dtype, items, [])))
  }

  function Results(snapshot: Snapshot, names: seq<string>, coord: bool): (rs: seq<Result<Option<Var>, RebuildError>>)
    ensures |rs| == |names|
  {
    seq(|names|, i requires 0 <= i < |names| => Rebuilt(snapshot, names[i], coord))
  }

  /** The values that are there, in order, or the first error. */
  function Gather<T, E>(rs: seq<Result<Option<T>, E>>): Result<seq<T>, E> {
    if rs == [] then Ok([])
    else
      var front :- Gather(rs[..|rs| - 1]);
      var last :- rs[|rs| - 1];
      Ok(front + if last.Some? then [last.value] else [])
  }

  /** The variables of the names that have content, in order. */
  function RebuiltAll(snapshot: Snapshot, names: seq<string>, coord: bool): Result<seq<Var>, RebuildError> {
    Gather(Results(snapshot, names, coord))
  }

  /** The first variable whose dimensions do not match its array. */
  function Mismatched(vars: seq<Var>): Option<string> {
    if vars == [] then None
    else if |vars[0].dims| != |vars[0].shape| then Some(vars[0].name)
    else Mismatched(vars[1..])
  }

  /** The dataset constructor: every axis of an array needs a name, and sizes must agree. */
  function Construct(coords: seq<Var>, dataVars: seq<Var>, attrs: seq<(Key, Value)>): Result<Dataset, RebuildError> {
    if Mismatched(coords + dataVars).Some? then Err(DimsMismatch(Mismatched(coords + dataVars).value))
    else if !SizesAgree(coords + dataVars) then Err(SizeConflict)
    else Ok(Dataset(coords, dataVars, attrs))
  }

  function DecodeAttrs(json: Json): Result<seq<(Key, Value)>, RebuildError> {
    match Markers.Decode(json)
    case Err(e) => Err(BadValue(e))
    case Ok(v) => if v.VDict? then Ok(v.fields) else Err(BadAttrs)
  }

  /** `attrs.update(fields)` on a variable that has none yet. */
  function WithAttrs(vars: seq<Var>, name: string, fields: seq<(Key, Value)>): (r: seq<Var>)
    ensures |r| == |vars|
  {
    seq(|vars|, i requires 0 <= i < |vars| => if vars[i].name == name then vars[i].(attrs := fields) else vars[i])
  }

  function Named(vars: seq<Var>, name: string): bool {
    exists i | 0 <= i < |vars| :: vars[i].name == name
  }

  function Attributed(ds: Dataset, entries: Dict<Json>): Result<Dataset, RebuildError>
    decreases |entries|
  {
    if entries == [] then Ok(ds)
    else
      var (name, json) := entries[0];
      if !Named(ds.Vars(), name) then Attributed(ds, entries[1..])
      else
        var fields :- DecodeAttrs(json);
        Attributed(ds.(coords := WithAttrs(ds.coords, name, fields), dataVars := WithAttrs(ds.dataVars, name, fields)),
                   entries[1..])
  }

  function Measurement(snapshot: Snapshot): Result<Dataset, RebuildError> {
    var p := snapshot.header.payload;
    var coords :- RebuiltAll(snapshot, p.coords, true);
    var dataVars :- RebuiltAll(snapshot, p.dataVars, false);
    var attrs :- DecodeAttrs(p.attrs);
    var ds :- Construct(coords, dataVars, attrs);
    Attributed(ds, p.varAttrs)
  }

  /** One of the two loops that rebuild variables, in the order of their names. */
  method RebuildInOrder(snapshot: Snapshot, names: seq<string>, coord: bool) returns (r: Result<seq<Var>, RebuildError>)
    ensures r == RebuiltAll(snapshot, names, coord)
  {
    ghost var rs := Results(snapshot, names, coord);
    var vars: seq<Var> := [];
    for n := 0 to |names|
      invariant Gather(rs[..n]) == Ok(vars)
    {
      GatherOneMore(rs, n);
      var v := Rebuilt(snapshot, names[n], coord);
      assert rs[n] == v;
      if v.Err? {
        GatherStops(rs, n);
        return Err(v.error);
      }
      assert vars + [] == vars;
      if v.value.Some? {
        vars := vars + [v.value.value];
      }
    }
    assert rs[..|names|] == rs;
    r := Ok(vars);
  }

  /** `measurement_from_snapshot`: the two loops, the constructor, then the loop over attributes. */
  method MeasurementFromSnapshot(snapshot: Snapshot) returns (r: Result<Dataset, RebuildError>)
    ensures r == Measurement(snapshot)
  {
    var p := snapshot.header.payload;
    var coords := RebuildInOrder(snapshot, p.coords, true);
    if coords.Err? {
      return Err(coords.error);
    }
    var dataVars := RebuildInOrder(snapshot, p.dataVars, false);
    if dataVars.Err? {
      return Err(dataVars.error);
    }
    var attrs :- DecodeAttrs(p.attrs);
    var ds :- Construct(coords.value, dataVars.value, attrs);
    for n := 0 to |p.varAttrs|
      invariant Attributed(ds, p.varAttrs[n..]) == Measurement(snapshot)
    {
      var (name, json) := p.varAttrs[n];
      assert p.varAttrs[n..][0] == p.varAttrs[n] && p.varAttrs[n..][1..] == p.varAttrs[n + 1..];
      if Named(ds.Vars(), name) {
        var fields :- DecodeAttrs(json);
        ds := ds.(coords := WithAttrs(ds.coords, name, fields), dataVars := WithAttrs(ds.dataVars, name, fields));
      }
    }
    r := Ok(ds);
  }

  lemma GatherOneMore<T, E>(rs: seq<Result<Option<T>, E>>, n: nat)
    requires n < |rs|
    ensures rs[..n + 1][..n] == rs[..n] && rs[..n + 1][n] == rs[n]
  {
  }

  /** An error stops the loop with that error, whatever follows. */
  lemma {:induction false} GatherStops<T, E>(rs: seq<Result<Option<T>, E>>, n: nat)
    requires n < |rs| && Gather(rs[..n]).Ok? && rs[n].Err?
    ensures Gather(rs) == Err(rs[n].error)
    decreases |rs|
  {
    var front := rs[..|rs| - 1];
    if n == |rs| - 1 {
      assert rs[..n] == front;
    } else {
      assert front[..n] == rs[..n];
      GatherStops(front, n);
    }
  }
}
