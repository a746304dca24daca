/** Big-endian, decimal and hexadecimal forms of natural numbers. */
module Numbers {
  import opened Wrappers
  import opened Utf8

  const U8_MAX := 0xFF
  const U16_MAX := 0xFFFF
  const U32_MAX := 0xFFFF_FFFF
  const U64_MAX := 0xFFFF_FFFF_FFFF_FFFF

  type u16 = x: int | 0 <= x <= U16_MAX
  type u64 = x: int | 0 <= x <= U64_MAX

  function SaturatingSub(a: nat, b: nat): nat {
    if a >= b then a - b else 0
  }

  function AbsDiff(a: nat, b: nat): nat {
    if a >= b then a - b else b - a
  }

  // ----- big-endian bytes -----

  function Power256(n: nat): (r: nat)
    ensures r >= 1
  {
    if n == 0 then 1 else Power256(n - 1) * 256
  }

  /** The number that `s` spells, most significant byte first. */
  function BigEndian(s: seq<byte>): nat {
    if s == [] then 0 else BigEndian(s[..|s| - 1]) * 256 + s[|s| - 1]
  }

  lemma {:induction false} BigEndianFits(s: seq<byte>)
    ensures BigEndian(s) < Power256(|s|)
  {
    if s != [] {
      BigEndianFits(s[..|s| - 1]);
    }
  }

  lemma LastByte(high: nat, low: byte)
    ensures (high * 256 + low) / 256 == high && (high * 256 + low) % 256 == low
  {}

  /** The low `length` bytes of `n`, most significant first. */
  function ToBigEndian(n: nat, length: nat): (r: seq<byte>)
    ensures |r| == length
  {
    if length == 0 then [] else ToBigEndian(n / 256, length - 1) + [n % 256]
  }

  lemma BigEndianExtended(high: seq<byte>, low: byte)
    ensures BigEndian(high + [low]) == BigEndian(high) * 256 + low
  {
    assert (high + [low])[..|high|] == high;
  }

  lemma {:induction false} BigEndianOfBytes(n: nat, length: nat)
    requires n < Power256(length)
    ensures BigEndian(ToBigEndian(n, length)) == n
  {
    if length > 0 {
      BigEndianOfBytes(n / 256, length - 1);
      BigEndianExtended(ToBigEndian(n / 256, length - 1), n % 256);
    }
  }

  lemma {:induction false} BytesOfBigEndian(s: seq<byte>)
    ensures ToBigEndian(BigEndian(s), |s|) == s
  {
    if s != [] {
      BytesOfBigEndian(s[..|s| - 1]);
      LastByte(BigEndian(s[..|s| - 1]), s[|s| - 1]);
      assert s == s[..|s| - 1] + [s[|s| - 1]];
    }
  }

  lemma BigEndianWidths()
    ensures Power256(2) == U16_MAX + 1 && Power256(4) == U32_MAX + 1
  {
    assert Power256(1) == 256 && Power256(3) == 0x100_0000;
  }

  lemma TwoBytes(n: nat)
    requires n <= U16_MAX
    ensures ToBigEndian(n, 2) == [n / 256, n % 256]
  {
    assert ToBigEndian(n / 256, 1) == ToBigEndian(n / 256 / 256, 0) + [n / 256 % 256];
  }

  lemma FourBytes(n: nat)
    requires n <= U32_MAX
    ensures ToBigEndian(n, 4) == [n / 0x100_0000, n / 0x1_0000 % 256, n / 256 % 256, n % 256]
  {
    assert n / 256 / 256 == n / 0x1_0000 && n / 0x1_0000 / 256 == n / 0x100_0000;
    assert ToBigEndian(n / 0x1_0000, 2) == ToBigEndian(n / 0x100_0000, 1) + [n / 0x1_0000 % 256];
    assert ToBigEndian(n / 0x100_0000, 1) == ToBigEndian(n / 0x100_0000 / 256, 0) + [n / 0x100_0000 % 256];
  }

  // ----- decimal text -----

  predicate IsDigit(c: char) { '0' <= c <= '9' }

  function DigitValue(c: char): (r: nat)
    requires IsDigit(c)
    ensures r < 10
  {
    c as int - '0' as int
  }

  function Decimal(n: nat): (r: string)
    ensures r != [] && forall c :: c in r ==> IsDigit(c)
  {
    if n < 10 then [('0' as int + n) as char] else Decimal(n / 10) + [('0' as int + n % 10) as char]
  }

  function DecimalValue(s: string): nat
    requires forall c :: c in s ==> IsDigit(c)
  {
    if s == [] then 0
    else
      assert s[|s| - 1] in s;
      DecimalValue(s[..|s| - 1]) * 10 + DigitValue(s[|s| - 1])
  }

  lemma {:induction false} DecimalValueOfDecimal(n: nat)
    ensures DecimalValue(Decimal(n)) == n
  {
    if n >= 10 {
      var r := Decimal(n);
      assert r[..|r| - 1] == Decimal(n / 10);
      DecimalValueOfDecimal(n / 10);
    }
  }

  /**
   * Rust's `str::parse` for an unsigned integer whose largest value is `max`: one leading `+`
   * is allowed, and so are leading zeros.
   */
  function ParseUnsigned(s: string, max: nat): (r: Option<nat>)
    ensures r.Some? ==> r.value <= max
  {
    var digits := if |s| > 1 && s[0] == '+' then s[1..] else s;
    if digits == [] || exists c :: c in digits && !IsDigit(c) then None
    else
      var value := DecimalValue(digits);
      if value <= max then Some(value) else None
  }

  lemma ParseUnsignedOfDecimal(n: nat, max: nat)
    requires n <= max
    ensures ParseUnsigned(Decimal(n), max) == Some(n)
  {
    assert Decimal(n)[0] in Decimal(n);
    DecimalValueOfDecimal(n);
  }

  // ----- hexadecimal text -----

  function HexDigit(d: nat): (c: char)
    requires d < 16
    ensures IsHexDigit(c) && c as int < 0x80
  {
    if d < 10 then ('0' as int + d) as char else ('a' as int + d - 10) as char
  }

  predicate IsHexDigit(c: char) {
    '0' <= c <= '9' || 'a' <= c <= 'f' || 'A' <= c <= 'F'
  }

  function HexDigitValue(c: char): (r: nat)
    requires IsHexDigit(c)
    ensures r < 16
  {
    if c <= '9' then c as int - '0' as int
    else if c <= 'F' then c as int - 'A' as int + 10
    else c as int - 'a' as int + 10
  }

  /** Lower-case, two digits a byte. */
  function Hex(bytes: seq<byte>): (r: string)
    ensures |r| == 2 * |bytes|
    ensures forall c :: c in r ==> IsHexDigit(c) && c as int < 0x80
  {
    if bytes == [] then [] else [HexDigit(bytes[0] / 16), HexDigit(bytes[0] % 16)] + Hex(bytes[1..])
  }

  lemma {:induction false} HexAt(bytes: seq<byte>, i: nat)
    requires i < |bytes|
    ensures Hex(bytes)[2 * i] == HexDigit(bytes[i] / 16) && Hex(bytes)[2 * i + 1] == HexDigit(bytes[i] % 16)
  {
    if i > 0 {
      HexAt(bytes[1..], i - 1);
      assert Hex(bytes)[2..] == Hex(bytes[1..]);
    }
  }

  /** Which characters the hexadecimal form has. */
  lemma HexMeans(bytes: seq<byte>, i: nat)
    requires i < |bytes|
    ensures Hex(bytes)[2 * i] == "0123456789abcdef"[bytes[i] / 16]
    ensures Hex(bytes)[2 * i + 1] == "0123456789abcdef"[bytes[i] % 16]
  {
    HexAt(bytes, i);
    HexDigitIs(bytes[i] / 16);
    HexDigitIs(bytes[i] % 16);
  }

  lemma HexDigitIs(d: nat)
    requires d < 16
    ensures HexDigit(d) == "0123456789abcdef"[d]
  {}

  /** Rust's `u8::from_str_radix(_, 16)` on two characters, which reads `+f` as 15. */
  function ParseHexPair(first: char, second: char): Option<byte> {
    if first == '+' && IsHexDigit(second) then Some(HexDigitValue(second))
    else if IsHexDigit(first) && IsHexDigit(second) then Some(HexDigitValue(first) * 16 + HexDigitValue(second))
    else None
  }

  lemma ParseHexPairOfDigits(b: byte)
    ensures ParseHexPair(HexDigit(b / 16), HexDigit(b % 16)) == Some(b)
  {
    HexDigitRoundTrip(b / 16);
    HexDigitRoundTrip(b % 16);
  }

  lemma HexDigitRoundTrip(d: nat)
    requires d < 16
    ensures HexDigitValue(HexDigit(d)) == d && HexDigit(d) != '+'
  {}

  lemma HexInjective(a: seq<byte>, b: seq<byte>)
    requires Hex(a) == Hex(b)
    ensures a == b
  {
    assert |a| == |b|;
    forall i | 0 <= i < |a| ensures a[i] == b[i] {
      HexAt(a, i);
      HexAt(b, i);
      ParseHexPairOfDigits(a[i]);
      ParseHexPairOfDigits(b[i]);
    }
  }
}
