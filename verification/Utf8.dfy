/** The UTF-8 encoding of text, as section 3 of RFC 3629 defines it. */
module Utf8 {
  import opened Wrappers

  type byte = x: int | 0 <= x < 256

  function EncodeChar(c: char): (r: seq<byte>)
    ensures 1 <= |r| <= 4
    ensures c as int < 0x80 ==> r == [c as int]
  {
    var n := c as int;
    if n < 0x80 then [n]
    else if n < 0x800 then [0xC0 + n / 64, 0x80 + n % 64]
    else if n < 0x1_0000 then [0xE0 + n / 64 / 64, 0x80 + n / 64 % 64, 0x80 + n % 64]
    else [0xF0 + n / 64 / 64 / 64, 0x80 + n / 64 / 64 % 64, 0x80 + n / 64 % 64, 0x80 + n % 64]
  }

  function Encode(s: string): seq<byte> {
    if s == [] then [] else EncodeChar(s[0]) + Encode(s[1..])
  }

  predicate Continues(b: byte) { 0x80 <= b < 0xC0 }

  /** The six payload bits of a continuation byte. */
  function Low(b: byte): (r: int)
    requires Continues(b)
    ensures 0 <= r < 64
  {
    b as int - 0x80
  }

  /** The first character of `b` and how many bytes it takes; overlong forms and surrogates are refused. */
  function DecodeFirst(b: seq<byte>): (r: Option<(char, nat)>)
    requires b != []
    ensures r.Some? ==> 1 <= r.value.1 <= |b|
  {
    if b[0] < 0x80 then Some((b[0] as char, 1))
    else if 0xC2 <= b[0] < 0xE0 && |b| >= 2 && Continues(b[1]) then
      Some((((b[0] as int - 0xC0) * 64 + Low(b[1])) as char, 2))
    else if 0xE0 <= b[0] < 0xF0 && |b| >= 3 && Continues(b[1]) && Continues(b[2]) then
      var n := (b[0] as int - 0xE0) * 4096 + Low(b[1]) * 64 + Low(b[2]);
      if n < 0x800 || 0xD800 <= n < 0xE000 then None else Some((n as char, 3))
    else if 0xF0 <= b[0] < 0xF5 && |b| >= 4 && Continues(b[1]) && Continues(b[2]) && Continues(b[3]) then
      var n := (b[0] as int - 0xF0) * 262144 + Low(b[1]) * 4096 + Low(b[2]) * 64 + Low(b[3]);
      if n < 0x1_0000 || 0x11_0000 <= n then None else Some((n as char, 4))
    else None
  }

  function Decode(b: seq<byte>): Option<string> {
    if b == [] then Some([])
    else
      match DecodeFirst(b)
      case None => None
      case Some((c, n)) =>
        match Decode(b[n..])
        case None => None
        case Some(rest) => Some([c] + rest)
  }

  lemma DecodeFirstOfEncoded(c: char, rest: seq<byte>)
    ensures DecodeFirst(EncodeChar(c) + rest) == Some((c, |EncodeChar(c)|))
  {
    var n := c as int;
    var b := EncodeChar(c) + rest;
    if n < 0x800 {
    } else if n < 0x1_0000 {
      assert (b[0] as int - 0xE0) * 4096 + Low(b[1]) * 64 + Low(b[2]) == n;
    } else {
      assert (b[0] as int - 0xF0) * 262144 + Low(b[1]) * 4096 + Low(b[2]) * 64 + Low(b[3]) == n;
    }
  }

  lemma EncodeDecodedFirst(b: seq<byte>)
    requires b != [] && DecodeFirst(b).Some?
    ensures EncodeChar(DecodeFirst(b).value.0) == b[..DecodeFirst(b).value.1]
  {
    var c := DecodeFirst(b).value.0;
    if b[0] < 0x80 {
    } else if b[0] < 0xE0 {
      Shift(b[0] as int - 0xC0, Low(b[1]));
    } else if b[0] < 0xF0 {
      EncodeThree(b, c);
    } else {
      EncodeFour(b, c);
    }
  }

  lemma EncodeThree(b: seq<byte>, c: char)
    requires |b| >= 3 && 0xE0 <= b[0] < 0xF0 && DecodeFirst(b) == Some((c, 3))
    ensures EncodeChar(c) == b[..3]
  {
    var high := (b[0] as int - 0xE0) * 64 + Low(b[1]);
    Shift(b[0] as int - 0xE0, Low(b[1]));
    Shift(high, Low(b[2]));
    assert c as int == high * 64 + Low(b[2]);
    assert EncodeChar(c) == [0xE0 + high / 64, 0x80 + high % 64, 0x80 + Low(b[2])];
  }

  lemma EncodeFour(b: seq<byte>, c: char)
    requires |b| >= 4 && 0xF0 <= b[0] && DecodeFirst(b) == Some((c, 4))
    ensures EncodeChar(c) == b[..4]
  {
    var top := (b[0] as int - 0xF0) * 64 + Low(b[1]);
    var high := top * 64 + Low(b[2]);
    Shift(b[0] as int - 0xF0, Low(b[1]));
    Shift(top, Low(b[2]));
    Shift(high, Low(b[3]));
    assert c as int == high * 64 + Low(b[3]);
    assert EncodeChar(c) == [0xF0 + top / 64, 0x80 + top % 64, 0x80 + Low(b[2]), 0x80 + Low(b[3])];
  }

  lemma Shift(high: nat, low: nat)
    requires low < 64
    ensures (high * 64 + low) / 64 == high && (high * 64 + low) % 64 == low
  {}

  lemma {:induction false} DecodeEncode(s: string)
    ensures Decode(Encode(s)) == Some(s)
  {
    if s != [] {
      DecodeFirstOfEncoded(s[0], Encode(s[1..]));
      DecodeEncode(s[1..]);
      assert Encode(s)[|EncodeChar(s[0])|..] == Encode(s[1..]);
      assert s == [s[0]] + s[1..];
    }
  }

  lemma {:induction false} EncodeDecode(b: seq<byte>)
    requires Decode(b).Some?
    ensures Encode(Decode(b).value) == b
  {
    if b != [] {
      var n := DecodeFirst(b).value.1;
      EncodeDecodedFirst(b);
      EncodeDecode(b[n..]);
      assert b == b[..n] + b[n..];
    }
  }

  lemma {:induction false} AsciiBytes(s: string)
    requires forall c :: c in s ==> c as int < 0x80
    ensures |Encode(s)| == |s| && forall i :: 0 <= i < |s| ==> Encode(s)[i] == s[i] as int
  {
    if s != [] {
      assert s[0] in s && forall c :: c in s[1..] ==> c in s;
      AsciiBytes(s[1..]);
      assert Encode(s) == [s[0] as int] + Encode(s[1..]);
    }
  }
}
