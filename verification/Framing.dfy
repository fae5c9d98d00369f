/** The binary frame: a length-prefixed header, then the raw arrays end to end. */
module Framing {
  import opened Wrappers
  import opened Arrays
  import opened Base64
  import opened Values
  import opened Datasets
  import opened Dicts
  import opened Incremental

  datatype BinInfo = BinInfo(dtype: DType, shape: seq<nat>)

  datatype Payload = Payload(
    coords: seq<string>,
    dataVars: seq<string>,
    varDims: Dict<seq<string>>,
    varAttrs: Dict<Json>,
    varDtypes: Dict<DType>,
    data: Dict<Json>,
    attrs: Json,
    binaryVars: Dict<BinInfo>)

  /** The JSON header: the payload and the response fields around it. */
  datatype Header = Header(payload: Payload, rows: Option<RowFields>, measurementId: string, source: Json)

  /** The text of headers: some encoder and decoder. */
  datatype Text = Text(dumps: Header -> seq<byte>, loads: seq<byte> -> Option<Header>)

  /** No dictionary of the header has a key twice. */
  ghost predicate Proper(h: Header) {
    var p := h.payload;
    && Unique(p.varDims) && Unique(p.varAttrs) && Unique(p.varDtypes) && Unique(p.data) && Unique(p.binaryVars)
    && KeysDistinct(p.attrs) && KeysDistinct(h.source)
    && (forall i | 0 <= i < |p.varAttrs| :: KeysDistinct(p.varAttrs[i].1))
    && (forall i | 0 <= i < |p.data| :: KeysDistinct(p.data[i].1))
  }

  /** The one law assumed of the text: decoding what was encoded gives it back. */
  ghost predicate Lawful(text: Text) {
    forall h | Proper(h) :: text.loads(text.dumps(h)) == Some(h)
  }

  /** A variable's content after unpacking: still nested JSON, or an array over the message. */
  datatype Content = Nested(json: Json) | Array(dtype: DType, shape: seq<nat>, items: seq<Item>)

  datatype Snapshot = Snapshot(header: Header, data: Dict<Content>)

  datatype FrameError =
    | HeaderTooLong
    | NoHeader
    | BadHeader
    | Truncated(name: string, needed: nat, offset: nat, remaining: nat)

  const LENGTH_LIMIT := 0x1_0000_0000

  function BigEndian(n: nat): (r: seq<byte>)
    requires n < LENGTH_LIMIT
    ensures |r| == 4
  {
    [n / 0x100_0000, n / 0x1_0000 % 256, n / 256 % 256, n % 256]
  }

  function FromBigEndian(b: seq<byte>): nat
    requires |b| >= 4
  {
    b[0] as nat * 0x100_0000 + b[1] as nat * 0x1_0000 + b[2] as nat * 256 + b[3] as nat
  }

  lemma LengthRoundTrip(n: nat, rest: seq<byte>)
    requires n < LENGTH_LIMIT
    ensures FromBigEndian(BigEndian(n) + rest) == n
  {
    assert n / 0x1_0000 == n / 0x100_0000 * 256 + n / 0x1_0000 % 256;
    assert n / 256 == n / 0x1_0000 * 256 + n / 256 % 256;
  }

  /** The bytes a binary variable takes: the product of its shape times its item size. */
  function Need(info: BinInfo): nat {
    Prod(info.shape) * ItemSize(info.dtype)
  }

  function NeedAll(entries: Dict<BinInfo>): nat {
    if entries == [] then 0 else Need(entries[0].1) + NeedAll(entries[1..])
  }

  function Concat(parts: seq<seq<byte>>): seq<byte> {
    if parts == [] then [] else parts[0] + Concat(parts[1..])
  }

  /** `parts` are the arrays' bytes, in the order `binary_vars` lists them. */
  function Pack(text: Text, header: Header, parts: seq<seq<byte>>): Result<seq<byte>, FrameError> {
    var h := text.dumps(header);
    if |h| >= LENGTH_LIMIT then Err(HeaderTooLong) else Ok(BigEndian(|h|) + h + Concat(parts))
  }

  /** Cut bytes into items. */
  function Items(bytes: seq<byte>, count: nat, size: nat): (items: seq<Item>)
    requires |bytes| == count * size
    ensures |items| == count
  {
    if count == 0 then []
    else
      assert |bytes| == size + (count - 1) * size;
      [Bits(bytes[..size])] + Items(bytes[size..], count - 1, size)
  }

  function Fill(entries: Dict<BinInfo>, blob: seq<byte>, offset: nat, data: Dict<Content>)
    : Result<Dict<Content>, FrameError>
    requires offset <= |blob|
  {
    if entries == [] then Ok(data)
    else
      var (name, info) := entries[0];
      var nbytes := Need(info);
      if offset + nbytes > |blob| then Err(Truncated(name, nbytes, offset, |blob| - offset))
      else
        var items := Items(blob[offset..offset + nbytes], Prod(info.shape), ItemSize(info.dtype));
        Fill(entries[1..], blob, offset + nbytes, Put(data, name, Array(info.dtype, info.shape, items)))
  }

  function Carried(data: Dict<Json>): (r: Dict<Content>)
    ensures |r| == |data|
  {
    seq(|data|, i requires 0 <= i < |data| => (data[i].0, Nested(data[i].1)))
  }

  function Least(a: nat, b: nat): nat {
    if a <= b then a else b
  }

  function Unpack(text: Text, raw: seq<byte>): Result<Snapshot, FrameError> {
    if |raw| < 4 then Err(NoHeader)
    else
      var end := Least(4 + FromBigEndian(raw), |raw|);
      match text.loads(raw[4..end])
      case None => Err(BadHeader)
      case Some(header) =>
        var data :- Fill(header.payload.binaryVars, raw[end..], 0, Carried(header.payload.data));
        Ok(Snapshot(header, data))
  }

  /** The decoder: an advancing offset and a dictionary that fills up. */
  method UnpackSnapshot(text: Text, raw: seq<byte>) returns (r: Result<Snapshot, FrameError>)
    ensures r == Unpack(text, raw)
  {
    if |raw| < 4 {
      return Err(NoHeader);
    }
    var end := Least(4 + FromBigEndian(raw), |raw|);
    var loaded := text.loads(raw[4..end]);
    if loaded.None? {
      return Err(BadHeader);
    }
    var header, blob := loaded.value, raw[end..];
    var entries := header.payload.binaryVars;
    var offset: nat := 0;
    var data := Carried(header.payload.data);
    for n := 0 to |entries|
      invariant offset == NeedAll(entries[..n]) && offset <= |blob|
      invariant Fill(entries[n..], blob, offset, data) == Fill(entries, blob, 0, Carried(header.payload.data))
    {
      var (name, info) := entries[n];
      var nbytes := Need(info);
      NeedOneMore(entries, n);
      if offset + nbytes > |blob| {
        return Err(Truncated(name, nbytes, offset, |blob| - offset));
      }
      var items := Items(blob[offset..offset + nbytes], Prod(info.shape), ItemSize(info.dtype));
      data := Put(data, name, Array(info.dtype, info.shape, items));
      offset := offset + nbytes;
    }
    r := Ok(Snapshot(header, data));
  }

  lemma {:induction false} NeedOneMore(entries: Dict<BinInfo>, n: nat)
    requires n < |entries|
    ensures NeedAll(entries[..n + 1]) == NeedAll(entries[..n]) + Need(entries[n].1)
    ensures entries[n..][0] == entries[n] && entries[n..][1..] == entries[n + 1..]
  {
    if n > 0 {
      NeedOneMore(entries[1..], n - 1);
      assert entries[1..][..n] == entries[..n + 1][1..] && entries[1..][..n - 1] == entries[..n][1..];
    } else {
      assert entries[..1] == [entries[0]] && entries[..1][1..] == [];
    }
  }
}
