/** `buffer.toString('base64')`: the base 64 encoding of section 4 of
    RFC 4648 with its standard alphabet and `=` padding, and a decoder that
    reverses it. */
module Base64 {
  import opened Common

  /** The value-to-character table of the standard alphabet. */
  function Char(v: nat): (c: char)
    requires v < 64
    ensures c != '=' && c != ';' && c != ','
  {
    if v < 26 then ('A' as int + v) as char
    else if v < 52 then ('a' as int + v - 26) as char
    else if v < 62 then ('0' as int + v - 52) as char
    else if v == 62 then '+'
    else '/'
  }

  /** The value a character of the alphabet stands for. */
  function Value(c: char): (r: Option<nat>)
    ensures r.Some? ==> r.value < 64
  {
    if 'A' <= c <= 'Z' then Some(c as int - 'A' as int)
    else if 'a' <= c <= 'z' then Some(c as int - 'a' as int + 26)
    else if '0' <= c <= '9' then Some(c as int - '0' as int + 52)
    else if c == '+' then Some(62)
    else if c == '/' then Some(63)
    else None
  }

  /** Every character of the alphabet decodes to the value it encodes. */
  lemma ValueOfChar(v: nat)
    requires v < 64
    ensures Value(Char(v)) == Some(v)
  {
  }

  /** A character that can occur in an encoding. */
  predicate IsEncodingChar(c: char) {
    Value(c).Some? || c == '='
  }

  /** The four characters of one 24-bit group `a b c`. */
  function EncodeGroup(a: byte, b: byte, c: byte): string {
    [Char(a as int / 4), Char(a as int % 4 * 16 + b as int / 16), Char(b as int % 16 * 4 + c as int / 64), Char(c as int % 64)]
  }

  /** The encoding: whole groups, then a final group of one or two bytes
      padded with `==` or `=`. */
  function Encode(data: seq<byte>): (r: string)
    ensures |r| == (|data| + 2) / 3 * 4
    ensures forall i :: 0 <= i < |r| ==> IsEncodingChar(r[i])
  {
    if |data| == 0 then ""
    else if |data| == 1 then
      ValueOfChar(data[0] as int / 4);
      ValueOfChar(data[0] as int % 4 * 16);
      [Char(data[0] as int / 4), Char(data[0] as int % 4 * 16), '=', '=']
    else if |data| == 2 then
      ValueOfChar(data[0] as int / 4);
      ValueOfChar(data[0] as int % 4 * 16 + data[1] as int / 16);
      ValueOfChar(data[1] as int % 16 * 4);
      [Char(data[0] as int / 4), Char(data[0] as int % 4 * 16 + data[1] as int / 16), Char(data[1] as int % 16 * 4), '=']
    else
      ValueOfChar(data[0] as int / 4);
      ValueOfChar(data[0] as int % 4 * 16 + data[1] as int / 16);
      ValueOfChar(data[1] as int % 16 * 4 + data[2] as int / 64);
      ValueOfChar(data[2] as int % 64);
      EncodeGroup(data[0], data[1], data[2]) + Encode(data[3..])
  }

  /** The test vectors of section 10 of RFC 4648, fixing the alphabet, the
      bit order and the padding. */
  lemma EncodeTestVectors()
    ensures Encode([]) == ""
    ensures Encode([102]) == "Zg=="
    ensures Encode([102, 111]) == "Zm8="
    ensures Encode([102, 111, 111]) == "Zm9v"
    ensures Encode([102, 111, 111, 98]) == "Zm9vYg=="
    ensures Encode([102, 111, 111, 98, 97]) == "Zm9vYmE="
    ensures Encode([102, 111, 111, 98, 97, 114]) == "Zm9vYmFy"
  {
  }

  /** The bytes of a full group of four values. */
  function DecodeGroup(v0: nat, v1: nat, v2: nat, v3: nat): seq<byte>
    requires v0 < 64 && v1 < 64 && v2 < 64 && v3 < 64
  {
    [(v0 * 4 + v1 / 16) as byte, (v1 % 16 * 16 + v2 / 4) as byte, (v2 % 4 * 64 + v3) as byte]
  }

  /** The decoder: groups of four characters, padding only in the last one. */
  function Decode(s: string): Option<seq<byte>>
    decreases |s|
  {
    if s == [] then Some([])
    else if |s| < 4 || Value(s[0]).None? || Value(s[1]).None? then None
    else
      var v0, v1 := Value(s[0]).value, Value(s[1]).value;
      if |s| == 4 && s[2] == '=' && s[3] == '=' then Some([(v0 * 4 + v1 / 16) as byte])
      else if Value(s[2]).None? then None
      else
        var v2 := Value(s[2]).value;
        if |s| == 4 && s[3] == '=' then Some([(v0 * 4 + v1 / 16) as byte, (v1 % 16 * 16 + v2 / 4) as byte])
        else if Value(s[3]).None? then None
        else match Decode(s[4..])
          case None => None
          case Some(rest) => Some(DecodeGroup(v0, v1, v2, Value(s[3]).value) + rest)
  }

  lemma DecodeEncodeGroup(a: byte, b: byte, c: byte)
    ensures DecodeGroup(a as int / 4, a as int % 4 * 16 + b as int / 16, b as int % 16 * 4 + c as int / 64, c as int % 64) == [a, b, c]
  {
  }

  /** A final group of one byte, padded with `==`. */
  lemma DecodeEncodeOne(a: byte)
    ensures Decode(Encode([a])) == Some([a])
  {
    ValueOfChar(a as int / 4);
    ValueOfChar(a as int % 4 * 16);
  }

  /** A final group of two bytes, padded with `=`. */
  lemma DecodeEncodeTwo(a: byte, b: byte)
    ensures Decode(Encode([a, b])) == Some([a, b])
  {
    var x, y := a as int, b as int;
    var v0, v1, v2 := x / 4, x % 4 * 16 + y / 16, y % 16 * 4;
    ValueOfChar(v0);
    ValueOfChar(v1);
    ValueOfChar(v2);
    var s := Encode([a, b]);
    assert s == [Char(v0), Char(v1), Char(v2), '='];
    assert v0 * 4 + v1 / 16 == x;
    assert v1 % 16 * 16 + v2 / 4 == y;
    assert Decode(s) == Some([(v0 * 4 + v1 / 16) as byte, (v1 % 16 * 16 + v2 / 4) as byte]);
  }

  /** A full group is decoded in front of whatever follows it. */
  lemma DecodeGroupFirst(a: byte, b: byte, c: byte, rest: string)
    ensures Decode(EncodeGroup(a, b, c) + rest) ==
            if Decode(rest).Some? then Some([a, b, c] + Decode(rest).value) else None
  {
    var v0, v1, v2, v3 := a as int / 4, a as int % 4 * 16 + b as int / 16, b as int % 16 * 4 + c as int / 64, c as int % 64;
    ValueOfChar(v0);
    ValueOfChar(v1);
    ValueOfChar(v2);
    ValueOfChar(v3);
    var s := EncodeGroup(a, b, c) + rest;
    assert s[0] == Char(v0) && s[1] == Char(v1) && s[2] == Char(v2) && s[3] == Char(v3);
    assert s[4..] == rest;
    DecodeEncodeGroup(a, b, c);
  }

  lemma EncodeFirstGroup(data: seq<byte>)
    requires |data| >= 3
    ensures Encode(data) == EncodeGroup(data[0], data[1], data[2]) + Encode(data[3..])
  {
  }

  /** Decoding undoes encoding. */
  lemma {:induction false} DecodeEncode(data: seq<byte>)
    ensures Decode(Encode(data)) == Some(data)
  {
    if |data| == 1 {
      DecodeEncodeOne(data[0]);
      assert data == [data[0]];
    } else if |data| == 2 {
      DecodeEncodeTwo(data[0], data[1]);
      assert data == [data[0], data[1]];
    } else if |data| >= 3 {
      DecodeEncode(data[3..]);
      DecodeEncodeStep(data);
    }
  }

  /** A full group in front of a round-tripping rest round-trips. */
  lemma DecodeEncodeStep(data: seq<byte>)
    requires |data| >= 3
    requires Decode(Encode(data[3..])) == Some(data[3..])
    ensures Decode(Encode(data)) == Some(data)
  {
    var rest := data[3..];
    var e := Encode(rest);
    var g := EncodeGroup(data[0], data[1], data[2]);
    assert Encode(data) == g + e by {
      EncodeFirstGroup(data);
    }
    assert Decode(g + e) == Some([data[0], data[1], data[2]] + rest) by {
      DecodeGroupFirst(data[0], data[1], data[2], e);
    }
    FirstThree(data);
  }

  lemma FirstThree<T>(s: seq<T>)
    requires |s| >= 3
    ensures s == [s[0], s[1], s[2]] + s[3..]
  {
  }
}
