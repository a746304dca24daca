/** The `|`-separated protocol records: printing, parsing and validation against the clock. */
module Messages {
  import opened Wrappers
  import opened Sequences
  import opened Utf8
  import opened Numbers

  const VERSION := 1
  const REPLAY_WINDOW_SECS := 300
  const MIN_MTU := 576
  const MAX_MTU := 9_000

  datatype Role = Host | Cliente

  datatype Message =
    | HandshakeInit(nodeId: string, timestamp: u64, nonce: string)
    | HandshakeResponse(nodeId: string, timestamp: u64, nonce: string)
    | Keepalive(nodeId: string, timestamp: u64)
    | MtuProbe(nodeId: string, mtu: u16)

  datatype ParseError =
    | InvalidUtf8 | InvalidFieldCount | InvalidVersion | UnsupportedVersion(version: nat) | UnknownMessage
    | InvalidTimestamp | InvalidMtu | InvalidNodeId | InvalidNonce

  datatype ValidationError =
    | InvalidNodeId | InvalidNonce | TimestampOutsideReplayWindow | ReplayDetected | WrongRole | InvalidMtu

  predicate IsAlphanumeric(c: char) {
    '0' <= c <= '9' || 'a' <= c <= 'z' || 'A' <= c <= 'Z'
  }

  predicate IsNodeChar(c: char) {
    IsAlphanumeric(c) || c == '-' || c == '_' || c == '.'
  }

  // Every accepted character is one byte long, so the byte length is |value|.
  predicate ValidNodeId(value: string) {
    1 <= |value| <= 128 && forall c :: c in value ==> IsNodeChar(c)
  }

  predicate ValidNonce(value: string) {
    16 <= |value| <= 128 && forall c :: c in value ==> IsHexDigit(c)
  }

  predicate HasNonce(m: Message) { m.HandshakeInit? || m.HandshakeResponse? }

  function ValidateSyntax(m: Message): Result<Unit, ParseError> {
    if !ValidNodeId(m.nodeId) then Err(ParseError.InvalidNodeId)
    else if HasNonce(m) && !ValidNonce(m.nonce) then Err(ParseError.InvalidNonce)
    else if m.MtuProbe? && (m.mtu < MIN_MTU || m.mtu > MAX_MTU) then Err(ParseError.InvalidMtu)
    else Ok(Done)
  }

  // ----- printing and parsing -----

  function FieldsOf(m: Message): (r: seq<string>)
    ensures |r| >= 4
  {
    match m
    case HandshakeInit(node, timestamp, nonce) => ["v1", "handshake", "init", node, Decimal(timestamp), nonce]
    case HandshakeResponse(node, timestamp, nonce) => ["v1", "handshake", "response", node, Decimal(timestamp), nonce]
    case Keepalive(node, timestamp) => ["v1", "keepalive", node, Decimal(timestamp)]
    case MtuProbe(node, mtu) => ["v1", "mtu", node, Decimal(mtu)]
  }

  function EncodeMessage(m: Message): seq<byte> {
    Encode(Join(FieldsOf(m), '|'))
  }

  function ParseVersion(field: string): Result<Unit, ParseError> {
    match StripPrefix(field, "v")
    case None => Err(InvalidVersion)
    case Some(digits) =>
      match ParseUnsigned(digits, U8_MAX)
      case None => Err(InvalidVersion)
      case Some(version) => if version != VERSION then Err(UnsupportedVersion(version)) else Ok(Done)
  }

  function ParseTimestamp(field: string): (r: Result<u64, ParseError>) {
    match ParseUnsigned(field, U64_MAX)
    case None => Err(InvalidTimestamp)
    case Some(n) => Ok(n)
  }

  function Checked(m: Message): Result<Message, ParseError> {
    var _ :- ValidateSyntax(m);
    Ok(m)
  }

  function ParseMessage(input: seq<byte>): Result<Message, ParseError> {
    match Decode(input)
    case None => Err(InvalidUtf8)
    case Some(text) => ParseFields(Split(text, '|'))
  }

  function ParseFields(fields: seq<string>): Result<Message, ParseError> {
    if |fields| < 2 then Err(InvalidFieldCount)
    else
      var _ :- ParseVersion(fields[0]);
      if fields[1] == "handshake" && |fields| == 6 then
        if fields[2] == "init" then
          var timestamp :- ParseTimestamp(fields[4]);
          Checked(HandshakeInit(fields[3], timestamp, fields[5]))
        else if fields[2] == "response" then
          var timestamp :- ParseTimestamp(fields[4]);
          Checked(HandshakeResponse(fields[3], timestamp, fields[5]))
        else Err(UnknownMessage)
      else if fields[1] == "keepalive" && |fields| == 4 then
        var timestamp :- ParseTimestamp(fields[3]);
        Checked(Keepalive(fields[2], timestamp))
      else if fields[1] == "mtu" && |fields| == 4 then
        match ParseUnsigned(fields[3], U16_MAX)
        case None => Err(ParseError.InvalidMtu)
        case Some(mtu) => Checked(MtuProbe(fields[2], mtu))
      else Err(UnknownMessage)
  }

  lemma VersionField()
    ensures ParseVersion("v1") == Ok(Done)
  {
    assert "v1"[1..] == "1" && "v1"[..1] == "v";
    assert Decimal(1) == "1";
    ParseUnsignedOfDecimal(1, U8_MAX);
  }

  lemma FieldsHaveNoBar(m: Message)
    requires ValidateSyntax(m).Ok?
    ensures forall f :: f in FieldsOf(m) ==> '|' !in f
  {
    assert '|' !in "v1" && '|' !in "handshake" && '|' !in "init" && '|' !in "response";
    assert '|' !in "keepalive" && '|' !in "mtu";
    assert '|' !in m.nodeId;
  }

  lemma ParseFieldsOf(m: Message)
    requires ValidateSyntax(m).Ok?
    ensures ParseFields(FieldsOf(m)) == Ok(m)
  {
    VersionField();
    match m {
      case HandshakeInit(_, timestamp, _) => ParseUnsignedOfDecimal(timestamp, U64_MAX);
      case HandshakeResponse(_, timestamp, _) => ParseUnsignedOfDecimal(timestamp, U64_MAX);
      case Keepalive(_, timestamp) => ParseUnsignedOfDecimal(timestamp, U64_MAX);
      case MtuProbe(_, mtu) => ParseUnsignedOfDecimal(mtu, U16_MAX);
    }
  }

  /** Exactly the syntactically valid messages survive printing and parsing. */
  lemma MessageRoundTrip(m: Message)
    ensures ParseMessage(EncodeMessage(m)) == Ok(m) <==> ValidateSyntax(m).Ok?
  {
    DecodeEncode(Join(FieldsOf(m), '|'));
    if ValidateSyntax(m).Ok? {
      FieldsHaveNoBar(m);
      SplitJoin(FieldsOf(m), '|');
      ParseFieldsOf(m);
    } else if ParseMessage(EncodeMessage(m)).Ok? {
      ParsedIsValid(EncodeMessage(m));
    }
  }

  lemma ParsedIsValid(input: seq<byte>)
    requires ParseMessage(input).Ok?
    ensures ValidateSyntax(ParseMessage(input).value).Ok?
  {}

  /**
   * Leading zeros and `+` make parsing lossy, but printing what was parsed is a normal form
   * that parses to the same message again.
   */
  lemma PrintingNormalises(input: seq<byte>)
    requires ParseMessage(input).Ok?
    ensures ParseMessage(EncodeMessage(ParseMessage(input).value)) == ParseMessage(input)
  {
    ParsedIsValid(input);
    MessageRoundTrip(ParseMessage(input).value);
  }

  /** Different valid messages never print alike. */
  lemma EncodeMessageInjective(a: Message, b: Message)
    requires ValidateSyntax(a).Ok? && ValidateSyntax(b).Ok?
    requires EncodeMessage(a) == EncodeMessage(b)
    ensures a == b
  {
    MessageRoundTrip(a);
    MessageRoundTrip(b);
  }

  // ----- validation -----

  function CheckWindow(timestamp: u64, now: u64): Result<Unit, ValidationError> {
    if AbsDiff(timestamp, now) > REPLAY_WINDOW_SECS then Err(TimestampOutsideReplayWindow) else Ok(Done)
  }

  function ValidateMessage(m: Message, now: u64, role: Role): Result<Unit, ValidationError> {
    if !ValidNodeId(m.nodeId) then Err(ValidationError.InvalidNodeId)
    else
      match m
      case HandshakeInit(_, timestamp, nonce) =>
        if role != Host then Err(WrongRole)
        else if !ValidNonce(nonce) then Err(ValidationError.InvalidNonce)
        else CheckWindow(timestamp, now)
      case HandshakeResponse(_, timestamp, nonce) =>
        if role != Cliente then Err(WrongRole)
        else if !ValidNonce(nonce) then Err(ValidationError.InvalidNonce)
        else CheckWindow(timestamp, now)
      case Keepalive(_, timestamp) => CheckWindow(timestamp, now)
      case MtuProbe(_, mtu) =>
        if mtu < MIN_MTU || mtu > MAX_MTU then Err(ValidationError.InvalidMtu) else Ok(Done)
  }

  /** The one role that may receive a handshake message. */
  function Receiver(m: Message): Role
    requires HasNonce(m)
  {
    if m.HandshakeInit? then Host else Cliente
  }

  /** Within five minutes of the timestamp, either way; a probe has none. */
  predicate InWindow(m: Message, now: u64) {
    m.MtuProbe? || m.timestamp - 300 <= now <= m.timestamp + 300
  }

  /** Validation is parsing's syntax check plus the receiver's role and the clock, and nothing else. */
  lemma ValidateMessageMeans(m: Message, now: u64, role: Role)
    ensures ValidateMessage(m, now, role).Ok? <==>
      ValidateSyntax(m).Ok? && (HasNonce(m) ==> role == Receiver(m)) && InWindow(m, now)
  {}

  lemma ValidateSyntaxMeans(m: Message)
    ensures ValidateSyntax(m).Ok? <==>
      && ValidNodeId(m.nodeId) && (HasNonce(m) ==> ValidNonce(m.nonce))
      && (m.MtuProbe? ==> 576 <= m.mtu <= 9_000)
  {}

  /** A stale message is told apart from one for the other role, and both from a malformed one. */
  lemma ValidationErrorsMean(m: Message, now: u64, role: Role)
    ensures var r := ValidateMessage(m, now, role);
      && (r == Err(WrongRole) <==> ValidNodeId(m.nodeId) && HasNonce(m) && role != Receiver(m))
      && (r == Err(TimestampOutsideReplayWindow) <==>
            ValidateSyntax(m).Ok? && (HasNonce(m) ==> role == Receiver(m)) && !InWindow(m, now))
      && r != Err(ReplayDetected)
  {}
}
