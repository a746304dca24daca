/**
 * The byte layout of the authenticated handshake envelope:
 * magic, role, node id length and text, 24-byte nonce, ciphertext length and ciphertext.
 */
module Envelopes {
  import opened Wrappers
  import opened Utf8
  import opened Numbers
  import opened Messages

  const NONCE_LEN := 24
  const TAG_LEN := 16
  const MAGIC: seq<byte> := [0x4C, 0x53, 0x56, 0x31]

  datatype CryptoError =
    | InvalidKeyLength | InvalidNodeId | AuthenticationFailed | NonceReuse | UnsafeNoncePolicy | MalformedEnvelope

  datatype ParsedEnvelope = ParsedEnvelope(role: Role, nodeId: string, nonce: seq<byte>, ciphertext: seq<byte>)

  function RoleByte(role: Role): byte {
    match role
    case Host => 0
    case Cliente => 1
  }

  /** The bytes that `seal` writes around a ciphertext. */
  function Layout(e: ParsedEnvelope): seq<byte> {
    var node := Encode(e.nodeId);
    MAGIC + [RoleByte(e.role)] + ToBigEndian(|node|, 2) + node + e.nonce + ToBigEndian(|e.ciphertext|, 4) + e.ciphertext
  }

  function ParseEnvelope(bytes: seq<byte>): Result<ParsedEnvelope, CryptoError> {
    if |bytes| < 4 + 1 + 2 + NONCE_LEN + 4 || bytes[..4] != MAGIC then Err(MalformedEnvelope)
    else if bytes[4] != 0 && bytes[4] != 1 then Err(MalformedEnvelope)
    else
      var role := if bytes[4] == 0 then Host else Cliente;
      var nonceStart := 7 + BigEndian(bytes[5..7]);
      var lengthStart := nonceStart + NONCE_LEN;
      var headerEnd := lengthStart + 4;
      if headerEnd > |bytes| then Err(MalformedEnvelope)
      else
        match Decode(bytes[7..nonceStart])
        case None => Err(MalformedEnvelope)
        case Some(nodeId) =>
          if !ValidNodeId(nodeId) then Err(MalformedEnvelope)
          else
            var length := BigEndian(bytes[lengthStart..headerEnd]);
            if length < TAG_LEN || headerEnd + length != |bytes| then Err(MalformedEnvelope)
            else Ok(ParsedEnvelope(role, nodeId, bytes[nonceStart..lengthStart], bytes[headerEnd..]))
  }

  datatype PeekError = MalformedClientEnvelope | InvalidClientNodeId

  function PeekClientId(bytes: seq<byte>): Result<string, PeekError> {
    if |bytes| < 7 then Err(MalformedClientEnvelope)
    else
      var n := BigEndian(bytes[5..7]);
      if 7 + n > |bytes| then Err(MalformedClientEnvelope)
      else
        match Decode(bytes[7..7 + n])
        case None => Err(InvalidClientNodeId)
        case Some(nodeId) => Ok(nodeId)
  }

  predicate WellFormed(e: ParsedEnvelope) {
    ValidNodeId(e.nodeId) && |e.nonce| == NONCE_LEN && TAG_LEN <= |e.ciphertext| <= U32_MAX
  }

  lemma {:induction false} FiveParts(head: seq<byte>, node: seq<byte>, nonce: seq<byte>, length: seq<byte>,
                                     rest: seq<byte>)
    ensures var b := head + node + nonce + length + rest;
      var i, j, k := |head| + |node|, |head| + |node| + |nonce|, |head| + |node| + |nonce| + |length|;
      b[..|head|] == head && b[|head|..i] == node && b[i..j] == nonce && b[j..k] == length && b[k..] == rest
  {}

  lemma {:induction false} LayoutParts(e: ParsedEnvelope)
    requires WellFormed(e)
    ensures var b := Layout(e); var n := |e.nodeId|;
      && |Encode(e.nodeId)| == n
      && |b| == 7 + n + NONCE_LEN + 4 + |e.ciphertext|
      && b[..4] == MAGIC && b[4] == RoleByte(e.role)
      && b[5..7] == ToBigEndian(n, 2)
      && b[7..7 + n] == Encode(e.nodeId)
      && b[7 + n..7 + n + NONCE_LEN] == e.nonce
      && b[7 + n + NONCE_LEN..7 + n + NONCE_LEN + 4] == ToBigEndian(|e.ciphertext|, 4)
      && b[7 + n + NONCE_LEN + 4..] == e.ciphertext
  {
    var head := MAGIC + [RoleByte(e.role)] + ToBigEndian(|Encode(e.nodeId)|, 2);
    assert |Encode(e.nodeId)| == |e.nodeId| by {
      AsciiBytes(e.nodeId);
    }
    FiveParts(head, Encode(e.nodeId), e.nonce, ToBigEndian(|e.ciphertext|, 4), e.ciphertext);
    assert Layout(e)[..7] == head;
    assert Layout(e)[5..7] == head[5..7];
  }

  /** The layout byte by byte: "LSV1", the role, two bytes of length, the id, the nonce, four bytes of length. */
  lemma LayoutBytes(e: ParsedEnvelope)
    requires WellFormed(e)
    ensures var b := Layout(e); var n, m := |e.nodeId|, |e.ciphertext|;
      && |b| == 35 + n + m && 16 <= m
      && b[..7] == [0x4C, 0x53, 0x56, 0x31, if e.role == Host then 0 else 1, n / 256, n % 256]
      && (forall i :: 0 <= i < n ==> b[7 + i] == e.nodeId[i] as int)
      && b[7 + n..31 + n] == e.nonce
      && b[31 + n..35 + n] == [m / 0x100_0000, m / 0x1_0000 % 256, m / 256 % 256, m % 256]
      && b[35 + n..] == e.ciphertext
  {
    LayoutParts(e);
    AsciiBytes(e.nodeId);
    var n := |e.nodeId|;
    FourBytes(|e.ciphertext|);
    TwoBytes(n);
    var b := Layout(e);
    assert b[..7] == b[..4] + [b[4]] + b[5..7];
    forall i | 0 <= i < n ensures b[7 + i] == e.nodeId[i] as int {
      assert b[7..7 + n][i] == b[7 + i];
    }
  }

  lemma WellFormedIsParsed(e: ParsedEnvelope)
    requires WellFormed(e)
    ensures ParseEnvelope(Layout(e)) == Ok(e)
  {
    LayoutParts(e);
    BigEndianWidths();
    BigEndianOfBytes(|e.nodeId|, 2);
    BigEndianOfBytes(|e.ciphertext|, 4);
    DecodeEncode(e.nodeId);
  }

  lemma ParsedIsWellFormed(bytes: seq<byte>)
    requires ParseEnvelope(bytes).Ok?
    ensures WellFormed(ParseEnvelope(bytes).value)
  {
    var e := ParseEnvelope(bytes).value;
    var nonceStart := 7 + BigEndian(bytes[5..7]);
    var field := bytes[nonceStart + NONCE_LEN..nonceStart + NONCE_LEN + 4];
    BigEndianWidths();
    BigEndianFits(field);
    assert |e.ciphertext| == BigEndian(field) && |field| == 4;
  }

  /** Parsing inverts the layout of every well-formed envelope, and of nothing else. */
  lemma EnvelopeRoundTrip(e: ParsedEnvelope)
    ensures ParseEnvelope(Layout(e)) == Ok(e) <==> WellFormed(e)
  {
    if WellFormed(e) {
      WellFormedIsParsed(e);
    } else if ParseEnvelope(Layout(e)) == Ok(e) {
      ParsedIsWellFormed(Layout(e));
    }
  }

  /** Laying out what was parsed gives back the identical bytes: no second encoding is accepted. */
  lemma ParsedLaysOutIdentically(bytes: seq<byte>)
    requires ParseEnvelope(bytes).Ok?
    ensures Layout(ParseEnvelope(bytes).value) == bytes
  {
    var e := ParseEnvelope(bytes).value;
    var nonceStart := 7 + BigEndian(bytes[5..7]);
    var lengthStart := nonceStart + NONCE_LEN;
    EncodeDecode(bytes[7..nonceStart]);
    BytesOfBigEndian(bytes[5..7]);
    BytesOfBigEndian(bytes[lengthStart..lengthStart + 4]);
    SevenSlices(bytes, nonceStart, lengthStart);
    assert [bytes[4]] == [RoleByte(e.role)];
  }

  lemma SevenSlices(b: seq<byte>, nonceStart: nat, lengthStart: nat)
    requires 7 <= nonceStart <= lengthStart && lengthStart + 4 <= |b|
    ensures b == b[..4] + [b[4]] + b[5..7] + b[7..nonceStart] + b[nonceStart..lengthStart]
                 + b[lengthStart..lengthStart + 4] + b[lengthStart + 4..]
  {
    assert b[..4] + [b[4]] + b[5..7] == b[..7];
    assert b[..7] + b[7..nonceStart] == b[..nonceStart];
    assert b[..nonceStart] + b[nonceStart..lengthStart] == b[..lengthStart];
    assert b[..lengthStart] + b[lengthStart..lengthStart + 4] == b[..lengthStart + 4];
  }

  /** The id read before decryption is the id the authenticated envelope carries. */
  lemma PeekAgreesWithParse(bytes: seq<byte>)
    requires ParseEnvelope(bytes).Ok?
    ensures PeekClientId(bytes) == Ok(ParseEnvelope(bytes).value.nodeId)
  {}

  /** What the cipher authenticates besides the plaintext. */
  function AssociatedData(role: Role, nodeId: string): seq<byte> {
    [0x4C, 0x53] + [VERSION] + [RoleByte(role)] + Encode(nodeId)
  }

  /** "LS", version one, the role and the characters of the id. */
  lemma AssociatedDataBytes(role: Role, nodeId: string)
    requires ValidNodeId(nodeId)
    ensures var ad := AssociatedData(role, nodeId);
      && |ad| == 4 + |nodeId| && ad[..4] == [0x4C, 0x53, 1, if role == Host then 0 else 1]
      && forall i :: 0 <= i < |nodeId| ==> ad[4 + i] == nodeId[i] as int
  {
    AsciiBytes(nodeId);
  }

  lemma AssociatedDataInjective(role1: Role, node1: string, role2: Role, node2: string)
    requires AssociatedData(role1, node1) == AssociatedData(role2, node2)
    ensures role1 == role2 && node1 == node2
  {
    var a, b := AssociatedData(role1, node1), AssociatedData(role2, node2);
    assert a[3] == RoleByte(role1) && b[3] == RoleByte(role2);
    assert a[4..] == Encode(node1) && b[4..] == Encode(node2);
    DecodeEncode(node1);
    DecodeEncode(node2);
  }
}
