/** A lawful text for headers: the law the wire theorems assume can be met. */
module HeaderText {
  import opened Wrappers
  import opened Base64
  import opened Values
  import opened Datasets
  import opened Dicts
  import opened Incremental
  import opened Framing

  /** Natural numbers, seven bits to a byte, least significant first. */
  function WriteNum(n: nat): (r: seq<byte>) {
    if n < 128 then [n] else [128 + n % 128] + WriteNum(n / 128)
  }

  function ReadNum(s: seq<byte>): (r: Option<(nat, seq<byte>)>)
    ensures r.Some? ==> |r.value.1| < |s|
  {
    if s == [] then None
    else if s[0] < 128 then Some((s[0], s[1..]))
    else
      var r := ReadNum(s[1..]);
      if r.None? then None else Some((r.value.0 * 128 + (s[0] - 128), r.value.1))
  }

  lemma LowBits(n: nat)
    ensures n / 128 * 128 + n % 128 == n
  {
  }

  lemma AfterTag(tag: byte, body: seq<byte>, rest: seq<byte>)
    ensures ([tag] + body + rest)[0] == tag && ([tag] + body + rest)[1..] == body + rest
  {
  }

  lemma {:induction false} NumBack(n: nat, rest: seq<byte>)
    ensures ReadNum(WriteNum(n) + rest) == Some((n, rest))
  {
    if n < 128 {
      assert ([n] + rest)[1..] == rest;
    } else {
      NumBack(n / 128, rest);
      LowBits(n);
      AfterTag(128 + n % 128, WriteNum(n / 128), rest);
    }
  }

  function WriteChars(t: string): seq<byte> {
    if t == [] then [] else WriteNum(t[0] as nat) + WriteChars(t[1..])
  }

  function ReadChars(n: nat, s: seq<byte>): (r: Option<(string, seq<byte>)>)
    ensures r.Some? ==> |r.value.1| <= |s|
  {
    if n == 0 then Some(([], s))
    else
      var c := ReadNum(s);
      if c.None? || 0xD800 <= c.value.0 < 0xE000 || c.value.0 >= 0x11_0000 then None
      else
        var r := ReadChars(n - 1, c.value.1);
        if r.None? then None else Some(([c.value.0 as char] + r.value.0, r.value.1))
  }

  lemma {:induction false} CharsBack(t: string, rest: seq<byte>)
    ensures ReadChars(|t|, WriteChars(t) + rest) == Some((t, rest))
  {
    if t == [] {
      assert WriteChars(t) + rest == rest;
    } else {
      CharsBack(t[1..], rest);
      NumBack(t[0] as nat, WriteChars(t[1..]) + rest);
      assert WriteChars(t) + rest == WriteNum(t[0] as nat) + (WriteChars(t[1..]) + rest);
      assert t == [t[0]] + t[1..];
    }
  }

  /** A string: its length, then its characters. */
  function WriteStr(t: string): seq<byte> {
    WriteNum(|t|) + WriteChars(t)
  }

  function ReadStr(s: seq<byte>): (r: Option<(string, seq<byte>)>)
    ensures r.Some? ==> |r.value.1| < |s|
  {
    var n := ReadNum(s);
    if n.None? then None else ReadChars(n.value.0, n.value.1)
  }

  lemma StrBack(t: string, rest: seq<byte>)
    ensures ReadStr(WriteStr(t) + rest) == Some((t, rest))
  {
    assert WriteStr(t) + rest == WriteNum(|t|) + (WriteChars(t) + rest);
    NumBack(|t|, WriteChars(t) + rest);
    CharsBack(t, rest);
  }

  /** Integers: the even numbers are the naturals, the odd ones the negative integers. */
  function OfInt(i: int): nat {
    if i >= 0 then 2 * i else -2 * i - 1
  }

  function ToInt(n: nat): int {
    if n % 2 == 0 then n / 2 else -(n + 1) / 2
  }

  function OfFloat(f: Float): (nat, nat, int) {
    match f
    case Finite(negative, m, e) => (if negative then 1 else 0, m, e)
    case PosInf => (2, 0, 0)
    case NegInf => (3, 0, 0)
    case NaN => (4, 0, 0)
  }

  function ToFloat(tag: nat, m: nat, e: int): Float {
    if tag < 2 then Finite(tag == 1, m, e) else if tag == 2 then PosInf else if tag == 3 then NegInf else NaN
  }

  function WriteFloat(f: Float): seq<byte> {
    var (tag, m, e) := OfFloat(f);
    WriteNum(tag) + (WriteNum(m) + WriteNum(OfInt(e)))
  }

  function ReadFloat(s: seq<byte>): (r: Option<(Float, seq<byte>)>)
    ensures r.Some? ==> |r.value.1| < |s|
  {
    var tag := ReadNum(s);
    if tag.None? then None
    else
      var m := ReadNum(tag.value.1);
      if m.None? then None
      else
        var e := ReadNum(m.value.1);
        if e.None? then None else Some((ToFloat(tag.value.0, m.value.0, ToInt(e.value.0)), e.value.1))
  }

  lemma FloatBack(f: Float, rest: seq<byte>)
    ensures ReadFloat(WriteFloat(f) + rest) == Some((f, rest))
  {
    var (tag, m, e) := OfFloat(f);
    NumBack(OfInt(e), rest);
    NumBack(m, WriteNum(OfInt(e)) + rest);
    NumBack(tag, WriteNum(m) + (WriteNum(OfInt(e)) + rest));
    assert WriteFloat(f) + rest == WriteNum(tag) + (WriteNum(m) + (WriteNum(OfInt(e)) + rest));
  }

  /** A JSON value: a tag, then what the tag announces. */
  function Write(j: Json): seq<byte>
    decreases j, 0
  {
    match j
    case JNull => [0]
    case JBool(b) => [if b then 2 else 1]
    case JInt(i) => [3] + WriteNum(OfInt(i))
    case JReal(f) => [4] + WriteFloat(f)
    case JStr(t) => [5] + WriteStr(t)
    case JList(items) => [6] + WriteList(items)
    case JObj(fields) => [7] + WriteObj(fields)
  }

  function WriteList(items: seq<Json>): seq<byte>
    decreases items, 2
  {
    WriteNum(|items|) + WriteAll(items)
  }

  function WriteObj(fields: seq<(string, Json)>): seq<byte>
    decreases fields, 2
  {
    WriteNum(|fields|) + WriteFields(fields)
  }

  function WriteAll(items: seq<Json>): seq<byte>
    decreases items, 1
  {
    if items == [] then [] else Write(items[0]) + WriteAll(items[1..])
  }

  function WriteFields(fields: seq<(string, Json)>): seq<byte>
    decreases fields, 1
  {
    if fields == [] then []
    else
      assert fields[0].1 < fields[0];
      WriteStr(fields[0].0) + (Write(fields[0].1) + WriteFields(fields[1..]))
  }

  function Tagged<T>(r: Option<(T, seq<byte>)>, make: T -> Json): Option<(Json, seq<byte>)> {
    if r.Some? then Some((make(r.value.0), r.value.1)) else None
  }

  function Read(s: seq<byte>): (r: Option<(Json, seq<byte>)>)
    ensures r.Some? ==> |r.value.1| < |s|
    decreases |s|, 0
  {
    if s == [] then None
    else
      match s[0]
      case 0 => Some((JNull, s[1..]))
      case 1 => Some((JBool(false), s[1..]))
      case 2 => Some((JBool(true), s[1..]))
      case 3 => Tagged(ReadNum(s[1..]), n => JInt(ToInt(n)))
      case 4 => Tagged(ReadFloat(s[1..]), f => JReal(f))
      case 5 => Tagged(ReadStr(s[1..]), t => JStr(t))
      case 6 =>
        Tagged(ReadList(s[1..]), items => JList(items))
      case 7 =>
        Tagged(ReadObj(s[1..]), fields => JObj(fields))
      case _ => None
  }

  function ReadList(s: seq<byte>): (r: Option<(seq<Json>, seq<byte>)>)
    ensures r.Some? ==> |r.value.1| <= |s|
    decreases |s|, 2
  {
    var n := ReadNum(s);
    if n.None? then None else ReadAll(n.value.0, n.value.1)
  }

  function ReadObj(s: seq<byte>): (r: Option<(seq<(string, Json)>, seq<byte>)>)
    ensures r.Some? ==> |r.value.1| <= |s|
    decreases |s|, 2
  {
    var n := ReadNum(s);
    if n.None? then None else ReadFields(n.value.0, n.value.1)
  }

  function ReadAll(n: nat, s: seq<byte>): (r: Option<(seq<Json>, seq<byte>)>)
    ensures r.Some? ==> |r.value.1| <= |s|
    decreases |s|, 1
  {
    if n == 0 then Some(([], s))
    else
      var j := Read(s);
      if j.None? then None
      else
        var r := ReadAll(n - 1, j.value.1);
        if r.None? then None else Some(([j.value.0] + r.value.0, r.value.1))
  }

  function ReadFields(n: nat, s: seq<byte>): (r: Option<(seq<(string, Json)>, seq<byte>)>)
    ensures r.Some? ==> |r.value.1| <= |s|
    decreases |s|, 1
  {
    if n == 0 then Some(([], s))
    else
      var key := ReadStr(s);
      if key.None? then None
      else
        var j := Read(key.value.1);
        if j.None? then None
        else
          var r := ReadFields(n - 1, j.value.1);
          if r.None? then None else Some(([(key.value.0, j.value.0)] + r.value.0, r.value.1))
  }

  /** Reading back what was written, whatever follows it. */
  lemma {:induction false} JsonBack(j: Json, rest: seq<byte>)
    ensures Read(Write(j) + rest) == Some((j, rest))
    decreases j, 0
  {
    match j
    case JInt(i) => IntBack(i, rest);
    case JReal(f) => RealBack(f, rest);
    case JStr(t) => TextBack(t, rest);
    case JList(items) =>
      AfterTag(6, WriteList(items), rest);
      ListBack(items, rest);
    case JObj(fields) =>
      AfterTag(7, WriteObj(fields), rest);
      ObjBack(fields, rest);
    case _ =>
      assert (Write(j) + rest)[1..] == rest;
  }

  lemma IntBack(i: int, rest: seq<byte>)
    ensures Read(Write(JInt(i)) + rest) == Some((JInt(i), rest))
  {
    AfterTag(3, WriteNum(OfInt(i)), rest);
    NumBack(OfInt(i), rest);
  }

  lemma RealBack(f: Float, rest: seq<byte>)
    ensures Read(Write(JReal(f)) + rest) == Some((JReal(f), rest))
  {
    AfterTag(4, WriteFloat(f), rest);
    FloatBack(f, rest);
  }

  lemma TextBack(t: string, rest: seq<byte>)
    ensures Read(Write(JStr(t)) + rest) == Some((JStr(t), rest))
  {
    AfterTag(5, WriteStr(t), rest);
    StrBack(t, rest);
  }

  lemma {:induction false} ListBack(items: seq<Json>, rest: seq<byte>)
    ensures ReadList(WriteList(items) + rest) == Some((items, rest))
    decreases items, 2
  {
    assert WriteList(items) + rest == WriteNum(|items|) + (WriteAll(items) + rest);
    NumBack(|items|, WriteAll(items) + rest);
    AllBack(items, rest);
  }

  lemma {:induction false} ObjBack(fields: seq<(string, Json)>, rest: seq<byte>)
    ensures ReadObj(WriteObj(fields) + rest) == Some((fields, rest))
    decreases fields, 2
  {
    assert WriteObj(fields) + rest == WriteNum(|fields|) + (WriteFields(fields) + rest);
    NumBack(|fields|, WriteFields(fields) + rest);
    FieldsBack(fields, rest);
  }

  lemma WriteAllCons(items: seq<Json>, rest: seq<byte>)
    requires items != []
    ensures WriteAll(items) + rest == Write(items[0]) + (WriteAll(items[1..]) + rest)
  {
  }

  lemma WriteFieldsCons(fields: seq<(string, Json)>, rest: seq<byte>)
    requires fields != []
    ensures WriteFields(fields) + rest ==
            WriteStr(fields[0].0) + (Write(fields[0].1) + (WriteFields(fields[1..]) + rest))
  {
  }

  lemma ReadOneMore(n: nat, s: seq<byte>, j: Json, after: seq<byte>, js: seq<Json>, rest: seq<byte>)
    requires n > 0 && Read(s) == Some((j, after)) && ReadAll(n - 1, after) == Some((js, rest))
    ensures ReadAll(n, s) == Some(([j] + js, rest))
  {
  }

  lemma ReadFieldMore(n: nat, s: seq<byte>, key: string, middle: seq<byte>, j: Json, after: seq<byte>,
                      fields: seq<(string, Json)>, rest: seq<byte>)
    requires n > 0 && ReadStr(s) == Some((key, middle)) && Read(middle) == Some((j, after))
    requires ReadFields(n - 1, after) == Some((fields, rest))
    ensures ReadFields(n, s) == Some(([(key, j)] + fields, rest))
  {
  }

  lemma {:induction false} AllBack(items: seq<Json>, rest: seq<byte>)
    ensures ReadAll(|items|, WriteAll(items) + rest) == Some((items, rest))
    decreases items, 1
  {
    if items == [] {
      assert WriteAll(items) + rest == rest;
    } else {
      var after := WriteAll(items[1..]) + rest;
      JsonBack(items[0], after);
      AllBack(items[1..], rest);
      WriteAllCons(items, rest);
      ReadOneMore(|items|, WriteAll(items) + rest, items[0], after, items[1..], rest);
      assert items == [items[0]] + items[1..];
    }
  }

  lemma {:induction false} FieldsBack(fields: seq<(string, Json)>, rest: seq<byte>)
    ensures ReadFields(|fields|, WriteFields(fields) + rest) == Some((fields, rest))
    decreases fields, 1
  {
    if fields == [] {
      assert WriteFields(fields) + rest == rest;
    } else {
      assert fields[0].1 < fields[0];
      var after := WriteFields(fields[1..]) + rest;
      StrBack(fields[0].0, Write(fields[0].1) + after);
      JsonBack(fields[0].1, after);
      FieldsBack(fields[1..], rest);
      WriteFieldsCons(fields, rest);
      ReadFieldMore(|fields|, WriteFields(fields) + rest, fields[0].0, Write(fields[0].1) + after, fields[0].1, after,
                    fields[1..], rest);
      assert fields == [fields[0]] + fields[1..];
    }
  }

  function OfStrs(ts: seq<string>): Json {
    JList(seq(|ts|, i requires 0 <= i < |ts| => JStr(ts[i])))
  }

  function ToStrs(j: Json): Option<seq<string>> {
    if j.JList? && forall i | 0 <= i < |j.items| :: j.items[i].JStr?
    then Some(seq(|j.items|, i requires 0 <= i < |j.items| => j.items[i].s))
    else None
  }

  function OfDType(d: DType): Json {
    match d
    case Bool => JList([JStr("b"), JInt(1)])
    case Int(size) => JList([JStr("i"), JInt(size)])
    case UInt(size) => JList([JStr("u"), JInt(size)])
    case Float16 => JList([JStr("f"), JInt(2)])
    case Float32 => JList([JStr("f"), JInt(4)])
    case Float64 => JList([JStr("f"), JInt(8)])
    case Complex => JList([JStr("c"), JInt(16)])
  }

  function ToDType(j: Json): Option<DType> {
    if !(j.JList? && |j.items| == 2 && j.items[0].JStr? && j.items[1].JInt? && j.items[1].i >= 0) then None
    else
      var kind, size := j.items[0].s, j.items[1].i;
      if kind == "b" then Some(Bool)
      else if kind == "i" then Some(Int(size))
      else if kind == "u" then Some(UInt(size))
      else if kind == "c" then Some(Complex)
      else if kind != "f" then None
      else if size == 2 then Some(Float16) else if size == 4 then Some(Float32) else if size == 8 then Some(Float64)
      else None
  }

  function OfInfo(info: BinInfo): Json {
    JList([OfDType(info.dtype), JList(seq(|info.shape|, i requires 0 <= i < |info.shape| => JInt(info.shape[i])))])
  }

  function ToInfo(j: Json): Option<BinInfo> {
    if j.JList? && |j.items| == 2 && ToDType(j.items[0]).Some? && j.items[1].JList?
       && forall i | 0 <= i < |j.items[1].items| :: j.items[1].items[i].JInt? && j.items[1].items[i].i >= 0
    then
      var sizes := j.items[1].items;
      Some(BinInfo(ToDType(j.items[0]).value, seq(|sizes|, i requires 0 <= i < |sizes| => sizes[i].i)))
    else None
  }

  function OfDict<T>(m: Dict<T>, of: T -> Json): Json {
    JObj(seq(|m|, i requires 0 <= i < |m| => (m[i].0, of(m[i].1))))
  }

  function ToDict<T>(j: Json, to: Json -> Option<T>): Option<Dict<T>> {
    if j.JObj? && forall i | 0 <= i < |j.fields| :: to(j.fields[i].1).Some?
    then Some(seq(|j.fields|, i requires 0 <= i < |j.fields| => (j.fields[i].0, to(j.fields[i].1).value)))
    else None
  }

  lemma DictBack<T>(m: Dict<T>, of: T -> Json, to: Json -> Option<T>)
    requires forall i | 0 <= i < |m| :: to(of(m[i].1)) == Some(m[i].1)
    ensures ToDict(OfDict(m, of), to) == Some(m)
  {
    assert ToDict(OfDict(m, of), to).value == m;
  }

  lemma DictsBack(p: Payload)
    ensures ToDict(OfDict(p.varDims, OfStrs), ToStrs) == Some(p.varDims)
    ensures ToDict(OfDict(p.varDtypes, OfDType), ToDType) == Some(p.varDtypes)
    ensures ToDict(OfDict(p.binaryVars, OfInfo), ToInfo) == Some(p.binaryVars)
  {
    forall i | 0 <= i < |p.varDims|
        ensures ToStrs(OfStrs(p.varDims[i].1)) == Some(p.varDims[i].1) { StrsBack(p.varDims[i].1); }
    forall i | 0 <= i < |p.binaryVars| ensures ToInfo(OfInfo(p.binaryVars[i].1)) == Some(p.binaryVars[i].1) {
      InfoBack(p.binaryVars[i].1);
    }
    DictBack(p.varDims, OfStrs, ToStrs);
    DictBack(p.varDtypes, OfDType, ToDType);
    DictBack(p.binaryVars, OfInfo, ToInfo);
  }

  lemma StrsBack(ts: seq<string>)
    ensures ToStrs(OfStrs(ts)) == Some(ts)
  {
    assert ToStrs(OfStrs(ts)).value == ts;
  }

  lemma InfoBack(info: BinInfo)
    ensures ToInfo(OfInfo(info)) == Some(info)
  {
    assert ToInfo(OfInfo(info)).value.shape == info.shape;
  }

  function OfRows(rows: Option<RowFields>): Json {
    match rows
    case None => JNull
    case Some(f) => JList([JStr(f.dim), JInt(f.rowsFrom), JInt(f.rowsWritten), JInt(f.rowsTotal)])
  }

  function ToRows(j: Json): Option<Option<RowFields>> {
    if j.JNull? then Some(None)
    else if j.JList? && |j.items| == 4 && j.items[0].JStr?
        && (forall k | 1 <= k < 4 :: j.items[k].JInt? && j.items[k].i >= 0)
    then Some(Some(RowFields(j.items[0].s, j.items[1].i, j.items[2].i, j.items[3].i)))
    else None
  }

  /** The header as one JSON value. */
  function OfHeader(h: Header): Json {
    var p := h.payload;
    JList([OfStrs(p.coords), OfStrs(p.dataVars), OfDict(p.varDims, OfStrs), JObj(p.varAttrs),
        OfDict(p.varDtypes, OfDType),
           JObj(p.data), p.attrs, OfDict(p.binaryVars, OfInfo), OfRows(h.rows), JStr(h.measurementId), h.source])
  }

  function ToHeader(j: Json): Option<Header> {
    if !(j.JList? && |j.items| == 11 && j.items[3].JObj? && j.items[5].JObj? && j.items[9].JStr?) then None
    else
      var coords, dataVars, varDims := ToStrs(j.items[0]), ToStrs(j.items[1]), ToDict(j.items[2], ToStrs);
      var varDtypes, binaryVars, rows := ToDict(j.items[4], ToDType), ToDict(j.items[7], ToInfo), ToRows(j.items[8]);
      if coords.None? || dataVars.None? || varDims.None? || varDtypes.None? || binaryVars.None? || rows.None? then None
      else
        Some(Header(Payload(coords.value, dataVars.value, varDims.value, j.items[3].fields, varDtypes.value,
                            j.items[5].fields, j.items[6], binaryVars.value),
                    rows.value, j.items[9].s, j.items[10]))
  }

  lemma HeaderBack(h: Header)
    ensures ToHeader(OfHeader(h)) == Some(h)
  {
    StrsBack(h.payload.coords);
    StrsBack(h.payload.dataVars);
    DictsBack(h.payload);
  }

  function Loads(s: seq<byte>): Option<Header> {
    var r := Read(s);
    if r.Some? && r.value.1 == [] then ToHeader(r.value.0) else None
  }

  /** There is a lawful text: one that decodes every header it encodes. */
  lemma LawfulTextExists() returns (text: Text)
    ensures Lawful(text)
  {
    text := Framing.Text.Text(h => Write(OfHeader(h)), Loads);
    forall h ensures text.loads(text.dumps(h)) == Some(h) {
      assert Write(OfHeader(h)) + [] == Write(OfHeader(h));
      JsonBack(OfHeader(h), []);
      HeaderBack(h);
    }
  }
}
