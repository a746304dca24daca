/** Exactly which bytes the record parsers accept: any spelling of a number, and nothing else that is not printed. */
module MessageTexts {
  import opened Wrappers
  import opened Sequences
  import opened Utf8
  import opened Numbers
  import opened Messages
  import Heartbeats

  // ----- spellings of a number -----

  function ZeroDigits(n: nat): string {
    seq(n, _ => '0')
  }

  /** A number written with an optional `+`, any number of leading zeros, and then as it is printed. */
  function Spelling(plus: bool, zeros: nat, n: nat): string {
    (if plus then "+" else "") + (ZeroDigits(zeros) + Decimal(n))
  }

  ghost predicate Spells(text: string, n: nat) {
    exists plus, zeros :: text == Spelling(plus, zeros, n)
  }

  predicate AllDigits(s: string) {
    forall c :: c in s ==> IsDigit(c)
  }

  lemma DecimalAppend(n: nat, c: char)
    requires n > 0 && IsDigit(c)
    ensures Decimal(n * 10 + DigitValue(c)) == Decimal(n) + [c]
  {}

  lemma ZeroDigitsAppend(zeros: nat)
    ensures ZeroDigits(zeros + 1) == ZeroDigits(zeros) + ['0']
  {}

  /** Any non-empty run of digits is some zeros and then the printed form of its value. */
  lemma {:induction false} DigitsAreSpelled(s: string) returns (zeros: nat)
    requires s != "" && AllDigits(s)
    ensures s == ZeroDigits(zeros) + Decimal(DecimalValue(s))
  {
    var last := s[|s| - 1];
    var front := s[..|s| - 1];
    assert s == front + [last] && last in s;
    if front == "" {
      zeros := 0;
      assert DecimalValue(s) == DigitValue(last);
    } else {
      assert forall c :: c in front ==> c in s;
      var leading := DigitsAreSpelled(front);
      var n := DecimalValue(front);
      if n > 0 {
        zeros := leading;
        DecimalAppend(n, last);
        assert s == ZeroDigits(leading) + (Decimal(n) + [last]);
      } else {
        zeros := leading + 1;
        ZeroDigitsAppend(leading);
        assert Decimal(0) == ['0'];
      }
    }
  }

  lemma {:induction false} ValueOfSpelled(zeros: nat, digits: string)
    requires AllDigits(digits)
    ensures AllDigits(ZeroDigits(zeros) + digits) && DecimalValue(ZeroDigits(zeros) + digits) == DecimalValue(digits)
  {
    var s := ZeroDigits(zeros) + digits;
    if digits != "" {
      var front := digits[..|digits| - 1];
      assert s[..|s| - 1] == ZeroDigits(zeros) + front;
      assert digits[|digits| - 1] in digits && forall c :: c in front ==> c in digits;
      ValueOfSpelled(zeros, front);
    } else {
      assert s == ZeroDigits(zeros);
      ZerosAreWorthNothing(zeros);
    }
  }

  lemma {:induction false} ZerosAreWorthNothing(zeros: nat)
    ensures DecimalValue(ZeroDigits(zeros)) == 0
  {
    if zeros > 0 {
      var s := ZeroDigits(zeros);
      assert s[..|s| - 1] == ZeroDigits(zeros - 1);
      ZerosAreWorthNothing(zeros - 1);
    }
  }

  function Digits(text: string): string {
    if |text| > 1 && text[0] == '+' then text[1..] else text
  }

  lemma DigitsOfSpelling(plus: bool, zeros: nat, n: nat)
    ensures Digits(Spelling(plus, zeros, n)) == ZeroDigits(zeros) + Decimal(n)
  {
    var body := ZeroDigits(zeros) + Decimal(n);
    assert Decimal(n)[0] in Decimal(n);
    assert body[0] != '+';
    assert ("+" + body)[1..] == body;
    assert "" + body == body;
  }

  /** Parsing an unsigned integer accepts exactly the spellings of the numbers up to the largest one. */
  lemma ParsesUnsignedIff(text: string, max: nat, n: nat)
    ensures ParseUnsigned(text, max) == Some(n) <==> n <= max && Spells(text, n)
  {
    if ParseUnsigned(text, max) == Some(n) {
      var zeros := DigitsAreSpelled(Digits(text));
      var plus := |text| > 1 && text[0] == '+';
      assert plus ==> text == "+" + text[1..];
      assert text == Spelling(plus, zeros, n);
    }
    if n <= max {
      forall plus, zeros | text == Spelling(plus, zeros, n) ensures ParseUnsigned(text, max) == Some(n) {
        DigitsOfSpelling(plus, zeros, n);
        ValueOfSpelled(zeros, Decimal(n));
        DecimalValueOfDecimal(n);
        assert Digits(text) != "";
      }
    }
  }

  lemma SpellingHasNoBar(text: string, n: nat)
    requires Spells(text, n)
    ensures '|' !in text
  {}

  // ----- records -----

  /** The fields of a record for this message, with the version and the number spelled in some way. */
  function FieldsWith(m: Message, version: string, number: string): seq<string> {
    match m
    case HandshakeInit(node, _, nonce) => ["v" + version, "handshake", "init", node, number, nonce]
    case HandshakeResponse(node, _, nonce) => ["v" + version, "handshake", "response", node, number, nonce]
    case Keepalive(node, _) => ["v" + version, "keepalive", node, number]
    case MtuProbe(node, _) => ["v" + version, "mtu", node, number]
  }

  function NumberOf(m: Message): nat {
    if m.MtuProbe? then m.mtu else m.timestamp
  }

  ghost predicate Records(input: seq<byte>, m: Message) {
    exists version, number ::
      Spells(version, 1) && Spells(number, NumberOf(m)) && input == Encode(Join(FieldsWith(m, version, number), '|'))
  }

  lemma VersionIsOneIff(field: string)
    ensures ParseVersion(field) == Ok(Done) <==> exists version :: Spells(version, 1) && field == "v" + version
  {
    if ParseVersion(field) == Ok(Done) {
      var digits := field[1..];
      ParsesUnsignedIff(digits, U8_MAX, 1);
      assert field == "v" + digits;
    }
    forall version | Spells(version, 1) && field == "v" + version ensures ParseVersion(field) == Ok(Done) {
      assert field[..1] == "v" && field[1..] == version;
      ParsesUnsignedIff(version, U8_MAX, 1);
    }
  }

  /** Another version that fits a byte is refused as such. */
  lemma OtherVersionsAreRefused(version: string, n: nat, rest: seq<string>)
    requires Spells(version, n) && n <= U8_MAX && n != 1 && rest != []
    ensures ParseFields(["v" + version] + rest) == Err(UnsupportedVersion(n))
  {
    var field := "v" + version;
    assert field[..1] == "v" && field[1..] == version;
    ParsesUnsignedIff(version, U8_MAX, n);
    assert (["v" + version] + rest)[0] == field;
  }

  lemma FieldsWithHaveNoBar(m: Message, version: string, number: string)
    requires ValidateSyntax(m).Ok? && Spells(version, 1) && Spells(number, NumberOf(m))
    ensures forall f :: f in FieldsWith(m, version, number) ==> '|' !in f
  {
    SpellingHasNoBar(version, 1);
    SpellingHasNoBar(number, NumberOf(m));
    assert '|' !in "handshake" && '|' !in "init" && '|' !in "response";
    assert '|' !in "keepalive" && '|' !in "mtu";
    assert '|' !in m.nodeId;
    assert '|' !in "v" + version;
  }

  lemma FieldsWithAreParsed(m: Message, version: string, number: string)
    requires ValidateSyntax(m).Ok? && Spells(version, 1) && Spells(number, NumberOf(m))
    ensures ParseFields(FieldsWith(m, version, number)) == Ok(m)
  {
    VersionIsOneIff("v" + version);
    ParsesUnsignedIff(number, U64_MAX, NumberOf(m));
    ParsesUnsignedIff(number, U16_MAX, NumberOf(m));
  }

  /** Where the number stands in the fields of a record for this message. */
  function NumberAt(m: Message): nat {
    if HasNonce(m) then 4 else 3
  }

  /** The fields around version and number are those of the message. */
  lemma {:induction false} ParsedFieldsFit(fields: seq<string>, m: Message)
    requires ParseFields(fields) == Ok(m)
    ensures ParseVersion(fields[0]) == Ok(Done) && |fields| == (if HasNonce(m) then 6 else 4)
    ensures ParseUnsigned(fields[NumberAt(m)], if m.MtuProbe? then U16_MAX else U64_MAX) == Some(NumberOf(m))
    ensures fields[1..NumberAt(m)] == FieldsWith(m, "", "")[1..NumberAt(m)]
    ensures HasNonce(m) ==> fields[5] == m.nonce
  {}

  lemma {:induction false} ParsedFieldsAre(fields: seq<string>, m: Message) returns (version: string, number: string)
    requires ParseFields(fields) == Ok(m)
    ensures Spells(version, 1) && Spells(number, NumberOf(m)) && fields == FieldsWith(m, version, number)
  {
    ParsedFieldsFit(fields, m);
    VersionIsOneIff(fields[0]);
    version :| Spells(version, 1) && fields[0] == "v" + version;
    number := fields[NumberAt(m)];
    ParsesUnsignedIff(number, if m.MtuProbe? then U16_MAX else U64_MAX, NumberOf(m));
    FieldsAround(fields, m, version, number);
  }

  lemma {:induction false} FieldsAround(fields: seq<string>, m: Message, version: string, number: string)
    requires |fields| == (if HasNonce(m) then 6 else 4)
    requires fields[0] == "v" + version && fields[NumberAt(m)] == number
    requires fields[1..NumberAt(m)] == FieldsWith(m, "", "")[1..NumberAt(m)]
    requires HasNonce(m) ==> fields[5] == m.nonce
    ensures fields == FieldsWith(m, version, number)
  {
    var wanted := FieldsWith(m, version, number);
    assert wanted[1..NumberAt(m)] == FieldsWith(m, "", "")[1..NumberAt(m)];
    forall i | 0 <= i < |fields| ensures fields[i] == wanted[i] {
      if 1 <= i < NumberAt(m) {
        assert fields[i] == fields[1..NumberAt(m)][i - 1];
        assert wanted[i] == wanted[1..NumberAt(m)][i - 1];
      }
    }
  }

  /**
   * Bytes are parsed to a message exactly when it is syntactically valid and they are the UTF-8 form of
   * its fields between bars, with the version one and the number in any of their spellings.
   */
  lemma ParsesMessageIff(input: seq<byte>, m: Message)
    ensures ParseMessage(input) == Ok(m) <==> ValidateSyntax(m).Ok? && Records(input, m)
  {
    if ParseMessage(input) == Ok(m) {
      ParsedIsValid(input);
      var text := Decode(input).value;
      EncodeDecode(input);
      JoinSplit(text, '|');
      var version, number := ParsedFieldsAre(Split(text, '|'), m);
    }
    if ValidateSyntax(m).Ok? && Records(input, m) {
      var version, number :| Spells(version, 1) && Spells(number, NumberOf(m))
        && input == Encode(Join(FieldsWith(m, version, number), '|'));
      var fields := FieldsWith(m, version, number);
      DecodeEncode(Join(fields, '|'));
      FieldsWithHaveNoBar(m, version, number);
      SplitJoin(fields, '|');
      FieldsWithAreParsed(m, version, number);
    }
  }

  // ----- heartbeats -----

  function HeartbeatWith(kind: string, nodeId: string, timestamp: string, sequence: string,
                         address: string): seq<string>
  {
    ["v1", kind, nodeId, timestamp, sequence, address]
  }

  ghost predicate Beats(payload: seq<byte>, kind: string, nodeId: string, timestamp: u64, sequence: u64,
                        address: string)
  {
    exists time, count ::
      && Spells(time, timestamp) && Spells(count, sequence)
      && payload == Encode(Join(HeartbeatWith(kind, nodeId, time, count, address), '|'))
  }

  /**
   * Exactly which payloads a reader understands, and as what: the UTF-8 form of six fields between bars, with
   * this kind and sender, both numbers in any of their spellings, and the time within thirty seconds.
   */
  lemma {:induction false} UnderstandsHeartbeatIff(payload: seq<byte>, kind: string, nodeId: string, now: u64,
                                                   sequence: u64, address: string)
    requires '|' !in kind && '|' !in nodeId
    ensures Heartbeats.ParseHeartbeat(payload, kind, nodeId, now) == Ok((sequence, address)) <==>
      '|' !in address && exists timestamp: u64 ::
        timestamp - 30 <= now <= timestamp + 30 && Beats(payload, kind, nodeId, timestamp, sequence, address)
  {
    if Heartbeats.ParseHeartbeat(payload, kind, nodeId, now) == Ok((sequence, address)) {
      EncodeDecode(payload);
      var text := Decode(payload).value;
      JoinSplit(text, '|');
      var fields := Split(text, '|');
      var timestamp := ParseUnsigned(fields[3], U64_MAX).value;
      ParsesUnsignedIff(fields[3], U64_MAX, timestamp);
      ParsesUnsignedIff(fields[4], U64_MAX, sequence);
      assert fields == HeartbeatWith(kind, nodeId, fields[3], fields[4], address);
      assert fields[5] in fields;
      assert Beats(payload, kind, nodeId, timestamp, sequence, address);
    }
    forall timestamp: u64 | '|' !in address && timestamp - 30 <= now <= timestamp + 30
        && Beats(payload, kind, nodeId, timestamp, sequence, address)
      ensures Heartbeats.ParseHeartbeat(payload, kind, nodeId, now) == Ok((sequence, address))
    {
      BeatIsUnderstood(payload, kind, nodeId, now, timestamp, sequence, address);
    }
  }

  lemma {:induction false} BeatIsUnderstood(payload: seq<byte>, kind: string, nodeId: string, now: u64, timestamp: u64,
                                            sequence: u64, address: string)
    requires '|' !in kind && '|' !in nodeId && '|' !in address && timestamp - 30 <= now <= timestamp + 30
    requires Beats(payload, kind, nodeId, timestamp, sequence, address)
    ensures Heartbeats.ParseHeartbeat(payload, kind, nodeId, now) == Ok((sequence, address))
  {
    var time, count :| Spells(time, timestamp) && Spells(count, sequence)
      && payload == Encode(Join(HeartbeatWith(kind, nodeId, time, count, address), '|'));
    var fields := HeartbeatWith(kind, nodeId, time, count, address);
    DecodeEncode(Join(fields, '|'));
    SpellingHasNoBar(time, timestamp);
    SpellingHasNoBar(count, sequence);
    assert '|' !in "v1";
    SplitJoin(fields, '|');
    ParsesUnsignedIff(time, U64_MAX, timestamp);
    ParsesUnsignedIff(count, U64_MAX, sequence);
  }
}
