/** Base64 as in section 4 of RFC 4648. */
module Base64 {
  import opened Wrappers

  type byte = x: int | 0 <= x < 256
  type sextet = x: int | 0 <= x < 64

  function ToChar(x: sextet): char {
    if x < 26 then 'A' + x as char
    else if x < 52 then 'a' + (x - 26) as char
    else if x < 62 then '0' + (x - 52) as char
    else if x == 62 then '+' else '/'
  }

  function FromChar(c: char): Option<sextet> {
    if 'A' <= c <= 'Z' then Some(c as int - 'A' as int)
    else if 'a' <= c <= 'z' then Some(c as int - 'a' as int + 26)
    else if '0' <= c <= '9' then Some(c as int - '0' as int + 52)
    else if c == '+' then Some(62)
    else if c == '/' then Some(63)
    else None
  }

  lemma CharRoundTrip(x: sextet)
    ensures FromChar(ToChar(x)) == Some(x) && ToChar(x) != '='
  {
  }

  /** Three bytes as four sextets. */
  function Group(a: byte, b: byte, c: byte): (sextet, sextet, sextet, sextet) {
    (a / 4, a % 4 * 16 + b / 16, b % 16 * 4 + c / 64, c % 64)
  }

  function Encode(bytes: seq<byte>): string
    decreases |bytes|
  {
    if bytes == [] then ""
    else if |bytes| == 1 then
      var (w, x, y, z) := Group(bytes[0], 0, 0);
      [ToChar(w), ToChar(x), '=', '=']
    else if |bytes| == 2 then
      var (w, x, y, z) := Group(bytes[0], bytes[1], 0);
      [ToChar(w), ToChar(x), ToChar(y), '=']
    else
      var (w, x, y, z) := Group(bytes[0], bytes[1], bytes[2]);
      [ToChar(w), ToChar(x), ToChar(y), ToChar(z)] + Encode(bytes[3..])
  }

  function Ungroup(w: sextet, x: sextet, y: sextet, z: sextet): (byte, byte, byte) {
    (w * 4 + x / 16, x % 16 * 16 + y / 4, y % 4 * 64 + z)
  }

  function Decode(text: string): Option<seq<byte>>
    decreases |text|
  {
    if text == [] then Some([])
    else if |text| < 4 then None
    else
      var w, x := FromChar(text[0]), FromChar(text[1]);
      if w.None? || x.None? then None
      else if text[2] == '=' then
        if |text| == 4 && text[3] == '=' then Some([Ungroup(w.value, x.value, 0, 0).0]) else None
      else
        var y := FromChar(text[2]);
        if y.None? then None
        else if text[3] == '=' then
          var (a, b, c) := Ungroup(w.value, x.value, y.value, 0);
          if |text| == 4 then Some([a, b]) else None
        else
          var z := FromChar(text[3]);
          if z.None? then None
          else
            var (a, b, c) := Ungroup(w.value, x.value, y.value, z.value);
            var rest := Decode(text[4..]);
            if rest.None? then None else Some([a, b, c] + rest.value)
  }

  lemma GroupRoundTrip(a: byte, b: byte, c: byte)
    ensures var (w, x, y, z) := Group(a, b, c);
            Ungroup(w, x, y, z) == (a, b, c)
  {
  }

  lemma {:induction false} RoundTrip(bytes: seq<byte>)
    ensures Decode(Encode(bytes)) == Some(bytes)
    decreases |bytes|
  {
    if bytes != [] {
      var b := if |bytes| > 1 then bytes[1] else 0;
      var c := if |bytes| > 2 then bytes[2] else 0;
      var (w, x, y, z) := Group(bytes[0], b, c);
      GroupRoundTrip(bytes[0], b, c);
      CharRoundTrip(w); CharRoundTrip(x); CharRoundTrip(y); CharRoundTrip(z);
      if |bytes| == 1 {
        assert bytes == [bytes[0]];
      } else if |bytes| == 2 {
        assert bytes == [bytes[0], bytes[1]];
      } else {
        RoundTrip(bytes[3..]);
        assert Encode(bytes)[4..] == Encode(bytes[3..]);
        assert [bytes[0], bytes[1], bytes[2]] + bytes[3..] == bytes;
      }
    }
  }
}
