/** Printing text as a JSON string, and reading one back as section 7 of RFC 8259 says. */
module Json {
  import opened Wrappers
  import opened Numbers

  function EscapeChar(c: char): (r: string)
    ensures r != []
  {
    if c == '"' then "\\\""
    else if c == '\\' then "\\\\"
    else if c as int == 8 then "\\b"
    else if c as int == 12 then "\\f"
    else if c == '\n' then "\\n"
    else if c == '\r' then "\\r"
    else if c == '\t' then "\\t"
    else if c == '<' then "\\u003c"
    else if c == '>' then "\\u003e"
    else if c == '&' then "\\u0026"
    else if c as int < 0x20 then "\\u00" + [HexDigit(c as int / 16), HexDigit(c as int % 16)]
    else [c]
  }

  function Escape(s: string): string {
    if s == [] then [] else EscapeChar(s[0]) + Escape(s[1..])
  }

  function JsonString(s: string): string {
    "\"" + Escape(s) + "\""
  }

  method PrintJsonString(value: string) returns (printed: string)
    ensures printed == JsonString(value)
  {
    var escaped := "";
    var i := 0;
    while i < |value|
      invariant 0 <= i <= |value|
      invariant escaped + Escape(value[i..]) == Escape(value)
    {
      assert value[i..][1..] == value[i + 1..];
      escaped := escaped + EscapeChar(value[i]);
      i := i + 1;
    }
    printed := "\"" + escaped + "\"";
  }

  // ----- RFC 8259, section 7 -----

  function HexQuad(s: string): (r: Option<nat>)
    ensures r.Some? ==> r.value < 0x1_0000
  {
    if |s| < 4 || !(IsHexDigit(s[0]) && IsHexDigit(s[1]) && IsHexDigit(s[2]) && IsHexDigit(s[3])) then None
    else Some(((HexDigitValue(s[0]) * 16 + HexDigitValue(s[1])) * 16 + HexDigitValue(s[2])) * 16 + HexDigitValue(s[3]))
  }

  /** The character that the two-character escape `\c` stands for. */
  function ShortEscape(c: char): Option<char> {
    if c == '"' || c == '\\' || c == '/' then Some(c)
    else if c == 'b' then Some(8 as char)
    else if c == 'f' then Some(12 as char)
    else if c == 'n' then Some('\n')
    else if c == 'r' then Some('\r')
    else if c == 't' then Some('\t')
    else None
  }

  /** The first character of a string body, and how much text spells it. */
  function FirstChar(s: string): (r: Option<(char, nat)>)
    requires s != []
    ensures r.Some? ==> 1 <= r.value.1 <= |s|
  {
    if s[0] as int < 0x20 || s[0] == '"' then None
    else if s[0] != '\\' then Some((s[0], 1))
    else if |s| < 2 then None
    else if s[1] != 'u' then
      var c :- ShortEscape(s[1]);
      Some((c, 2))
    else
      var n :- HexQuad(s[2..]);
      if n < 0xD800 || 0xE000 <= n then Some((n as char, 6))
      else if n < 0xDC00 && |s| >= 12 && s[6] == '\\' && s[7] == 'u' then
        var low :- HexQuad(s[8..]);
        if 0xDC00 <= low < 0xE000 then Some(((0x1_0000 + (n - 0xD800) * 0x400 + (low - 0xDC00)) as char, 12)) else None
      else None
  }

  /** What follows the opening quote: characters, then the closing quote and nothing more. */
  function ReadBody(s: string): Option<string> {
    if s == [] then None
    else if s[0] == '"' then (if |s| == 1 then Some([]) else None)
    else
      var first :- FirstChar(s);
      var rest :- ReadBody(s[first.1..]);
      Some([first.0] + rest)
  }

  function ReadJsonString(s: string): Option<string> {
    if s == [] || s[0] != '"' then None else ReadBody(s[1..])
  }

  lemma FirstCharOfEscape(c: char, rest: string)
    ensures FirstChar(EscapeChar(c) + rest) == Some((c, |EscapeChar(c)|))
    ensures (EscapeChar(c) + rest)[0] != '"'
  {
    var s := EscapeChar(c) + rest;
    if |EscapeChar(c)| == 6 {
      var quad := EscapeChar(c)[2..];
      assert s[2..][..4] == quad;
      if c == '<' || c == '>' || c == '&' {
        assert quad == "003c" || quad == "003e" || quad == "0026";
      } else {
        HexDigitRoundTrip(c as int / 16);
        HexDigitRoundTrip(c as int % 16);
        assert quad == ['0', '0', HexDigit(c as int / 16), HexDigit(c as int % 16)];
      }
      assert HexQuad(s[2..]) == Some(c as int);
    }
  }

  lemma ReadBodyAfter(spelled: string, c: char, rest: string, read: string)
    requires spelled != [] && (spelled + rest)[0] != '"'
    requires FirstChar(spelled + rest) == Some((c, |spelled|)) && ReadBody(rest) == Some(read)
    ensures ReadBody(spelled + rest) == Some([c] + read)
  {
    assert (spelled + rest)[|spelled|..] == rest;
  }

  lemma {:induction false} ReadBodyOfEscape(s: string)
    ensures ReadBody(Escape(s) + "\"") == Some(s)
  {
    if s == [] {
      assert Escape(s) + "\"" == "\"";
    } else {
      var rest := Escape(s[1..]) + "\"";
      assert Escape(s) + "\"" == EscapeChar(s[0]) + rest;
      FirstCharOfEscape(s[0], rest);
      ReadBodyOfEscape(s[1..]);
      ReadBodyAfter(EscapeChar(s[0]), s[0], rest, s[1..]);
      assert s == [s[0]] + s[1..];
    }
  }

  /** Every text survives being printed and read. */
  lemma JsonStringRoundTrip(s: string)
    ensures ReadJsonString(JsonString(s)) == Some(s)
  {
    ReadBodyOfEscape(s);
    assert JsonString(s)[1..] == Escape(s) + "\"";
  }

  predicate Inert(c: char) {
    c as int >= 0x20 && c != '<' && c != '>' && c != '&'
  }

  lemma {:induction false} EscapeIsInert(s: string)
    ensures forall c :: c in Escape(s) ==> Inert(c)
  {
    if s != [] {
      EscapeCharIsInert(s[0]);
      EscapeIsInert(s[1..]);
    }
  }

  lemma EscapeCharIsInert(c: char)
    ensures forall x :: x in EscapeChar(c) ==> Inert(x)
  {}

  /** Printed text holds no control character and nothing that HTML would act on. */
  lemma JsonStringIsInert(s: string)
    ensures forall c :: c in JsonString(s) ==> Inert(c)
  {
    EscapeIsInert(s);
  }
}
