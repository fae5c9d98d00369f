/** Unpacking inverts packing; a message cut inside its blob is always rejected. */
module FramingTheorems {
  import opened Wrappers
  import opened Arrays
  import opened Base64
  import opened Datasets
  import opened Dicts
  import opened Framing
  import Merging

  /** The arrays' bytes are as long as the header says. */
  ghost predicate Matches(entries: Dict<BinInfo>, parts: seq<seq<byte>>) {
    |parts| == |entries| && forall i | 0 <= i < |parts| :: |parts[i]| == Need(entries[i].1)
  }

  function ArrayOf(info: BinInfo, part: seq<byte>): Content
    requires |part| == Need(info)
  {
    Array(info.dtype, info.shape, Items(part, Prod(info.shape), ItemSize(info.dtype)))
  }

  /** Every array put under its name, in order. */
  ghost function Filled(entries: Dict<BinInfo>, parts: seq<seq<byte>>, data: Dict<Content>): Dict<Content>
    requires Matches(entries, parts)
  {
    if entries == [] then data
    else Filled(entries[1..], parts[1..], Put(data, entries[0].0, ArrayOf(entries[0].1, parts[0])))
  }

  lemma {:induction false} FillAll(
    entries: Dict<BinInfo>, parts: seq<seq<byte>>, before: seq<byte>, after: seq<byte>, data: Dict<Content>)
    requires Matches(entries, parts)
    ensures Fill(entries, before + Concat(parts) + after, |before|, data) == Ok(Filled(entries, parts, data))
  {
    if entries != [] {
      var blob := before + Concat(parts) + after;
      var part := parts[0];
      assert blob == (before + part) + Concat(parts[1..]) + after;
      assert blob[|before|..|before| + |part|] == part;
      FillAll(entries[1..], parts[1..], before + part, after, Put(data, entries[0].0, ArrayOf(entries[0].1, part)));
    }
  }

  lemma UnpackFrame(text: Text, header: Header, blob: seq<byte>)
    requires text.loads(text.dumps(header)) == Some(header) && |text.dumps(header)| < LENGTH_LIMIT
    ensures var raw := BigEndian(|text.dumps(header)|) + text.dumps(header) + blob;
            Unpack(text, raw) ==
              match Fill(header.payload.binaryVars, blob, 0, Carried(header.payload.data))
              case Ok(data) => Ok(Snapshot(header, data))
              case Err(e) => Err(e)
  {
    var h := text.dumps(header);
    var raw := BigEndian(|h|) + h + blob;
    assert raw == BigEndian(|h|) + (h + blob);
    LengthRoundTrip(|h|, h + blob);
    assert raw[4..4 + |h|] == h && raw[4 + |h|..] == blob;
  }

  /** Unpacking inverts packing for any header short enough to frame and any arrays as long as
      it says, and bytes appended to the message change nothing. */
  lemma FramingRoundTrip(text: Text, header: Header, parts: seq<seq<byte>>, extra: seq<byte>)
    requires Lawful(text) && Proper(header) && Matches(header.payload.binaryVars, parts)
    ensures Pack(text, header, parts).Ok? <==> |text.dumps(header)| < 0x1_0000_0000
    ensures Pack(text, header, parts).Ok? ==>
              Unpack(text, Pack(text, header, parts).value + extra)
              == Ok(Snapshot(header, Filled(header.payload.binaryVars, parts, Carried(header.payload.data))))
  {
    if |text.dumps(header)| < LENGTH_LIMIT {
      UnpackFrame(text, header, Concat(parts) + extra);
      Reassociate(BigEndian(|text.dumps(header)|) + text.dumps(header), Concat(parts), extra);
      FillFromStart(header.payload.binaryVars, parts, extra, Carried(header.payload.data));
    }
  }

  lemma Reassociate(a: seq<byte>, b: seq<byte>, c: seq<byte>)
    ensures a + b + c == a + (b + c)
  {
  }

  lemma FillFromStart(entries: Dict<BinInfo>, parts: seq<seq<byte>>, after: seq<byte>, data: Dict<Content>)
    requires Matches(entries, parts)
    ensures Fill(entries, Concat(parts) + after, 0, data) == Ok(Filled(entries, parts, data))
  {
    FillAll(entries, parts, [], after, data);
    assert [] + Concat(parts) + after == Concat(parts) + after;
  }

  /** Which variable a cut after `k` bytes of the blob hits: the first whose end lies past it. */
  ghost predicate CutHits(entries: Dict<BinInfo>, k: nat, j: nat) {
    j < |entries| && NeedAll(entries[..j]) <= k < NeedAll(entries[..j + 1])
  }

  lemma {:induction false} FillCut(
    entries: Dict<BinInfo>, parts: seq<seq<byte>>, before: seq<byte>, k: nat, data: Dict<Content>) returns (j: nat)
    requires Matches(entries, parts) && k < |Concat(parts)|
    ensures CutHits(entries, k, j)
    ensures Fill(entries, before + Concat(parts)[..k], |before|, data)
         == Err(Truncated(entries[j].0, Need(entries[j].1), |before| + NeedAll(entries[..j]),
             k - NeedAll(entries[..j])))
  {
    var part := parts[0];
    assert entries[..1] == [entries[0]] && NeedAll(entries[..1]) == Need(entries[0].1) by { NeedOneMore(entries, 0); }
    if k < |part| {
      j := 0;
    } else {
      var rest := Concat(parts[1..]);
      assert Concat(parts)[..k] == part + rest[..k - |part|];
      var blob := before + Concat(parts)[..k];
      assert blob == (before + part) + rest[..k - |part|];
      assert blob[|before|..|before| + |part|] == part;
      var i := FillCut(entries[1..], parts[1..], before + part, k - |part|,
          Put(data, entries[0].0, ArrayOf(entries[0].1, part)));
      j := i + 1;
      assert entries[..j][1..] == entries[1..][..i] && entries[..j + 1][1..] == entries[1..][..i + 1];
    }
  }

  lemma CutFrame(h: seq<byte>, blob: seq<byte>, k: nat)
    requires |h| < LENGTH_LIMIT && k < |blob|
    ensures var raw := BigEndian(|h|) + h + blob; raw[..|raw| - |blob| + k] == BigEndian(|h|) + h + blob[..k]
  {
  }

  lemma CutBlobRejected(text: Text, header: Header, h: seq<byte>, parts: seq<seq<byte>>, k: nat) returns (j: nat)
    requires h == text.dumps(header) && text.loads(h) == Some(header) && |h| < LENGTH_LIMIT
    requires Matches(header.payload.binaryVars, parts) && k < |Concat(parts)|
    ensures CutHits(header.payload.binaryVars, k, j)
    ensures Unpack(text, BigEndian(|h|) + h + Concat(parts)[..k]) == Err(CutError(header.payload.binaryVars, k, j))
  {
    UnpackFrame(text, header, Concat(parts)[..k]);
    j := FillCut(header.payload.binaryVars, parts, [], k, Carried(header.payload.data));
    assert [] + Concat(parts)[..k] == Concat(parts)[..k];
  }

  function CutError(entries: Dict<BinInfo>, k: nat, j: nat): FrameError
    requires CutHits(entries, k, j)
  {
    Truncated(entries[j].0, Need(entries[j].1), NeedAll(entries[..j]), k - NeedAll(entries[..j]))
  }

  /** A packed message cut anywhere inside its blob is rejected as truncated at the variable the
      cut hits, even when later variables are empty. */
  lemma CutMessagesAreRejected(text: Text, header: Header, parts: seq<seq<byte>>, k: nat) returns (j: nat)
    requires Lawful(text) && Proper(header) && Matches(header.payload.binaryVars, parts)
    requires Pack(text, header, parts).Ok? && k < |Concat(parts)|
    ensures CutHits(header.payload.binaryVars, k, j)
    ensures var raw := Pack(text, header, parts).value;
            Unpack(text, raw[..|raw| - |Concat(parts)| + k]) == Err(CutError(header.payload.binaryVars, k, j))
  {
    CutFrame(text.dumps(header), Concat(parts), k);
    j := CutBlobRejected(text, header, text.dumps(header), parts, k);
  }

  /** With distinct names, each array is found under its own, and what was there stays. */
  lemma {:induction false} FilledGet(entries: Dict<BinInfo>, parts: seq<seq<byte>>, data: Dict<Content>, key: string)
    requires Matches(entries, parts) && forall i, j | 0 <= i < j < |entries| :: entries[i].0 != entries[j].0
    ensures forall i | 0 <= i < |entries| && entries[i].0 == key ::
              Get(Filled(entries, parts, data), key) == Some(ArrayOf(entries[i].1, parts[i]))
    ensures (forall i | 0 <= i < |entries| :: entries[i].0 != key) ==>
            Get(Filled(entries, parts, data), key) == Get(data, key)
  {
    if entries != [] {
      var data' := Put(data, entries[0].0, ArrayOf(entries[0].1, parts[0]));
      FilledGet(entries[1..], parts[1..], data', key);
      GetPut(data, entries[0].0, ArrayOf(entries[0].1, parts[0]), key);
      assert forall i | 0 < i < |entries| :: entries[i] == entries[1..][i - 1] && parts[i] == parts[1..][i - 1];
    }
  }

  lemma ItemsOneMore(head: seq<byte>, rest: seq<byte>, count: nat, size: nat)
    requires |head| == size && |rest| == count * size
    ensures |head + rest| == (count + 1) * size
    ensures Items(head + rest, count + 1, size) == [Bits(head)] + Items(rest, count, size)
  {
    OneBlockMore(count + 1, size);
    assert (head + rest)[..size] == head && (head + rest)[size..] == rest;
  }

  /** Cutting bytes into items loses nothing. */
  lemma {:induction false} ItemsOfBytes(items: seq<Item>, size: nat)
    requires forall i | 0 <= i < |items| :: items[i].Bits? && |items[i].bytes| == size
    ensures |Merging.Bytes(items)| == |items| * size
    ensures Items(Merging.Bytes(items), |items|, size) == items
  {
    if items != [] {
      ItemsOfBytes(items[1..], size);
      ItemsOneMore(items[0].bytes, Merging.Bytes(items[1..]), |items| - 1, size);
      assert items == [Bits(items[0].bytes)] + items[1..];
    }
  }
}
