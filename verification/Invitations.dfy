/** Invitations: what a Host may hand out, and when a Cliente may take it. */
module Invitations {
  import opened Wrappers
  import opened Sequences
  import opened Numbers
  import opened Messages

  const MIN_INVITATION_TTL_SECS := 60
  const MAX_INVITATION_TTL_SECS := 86_400
  const MAX_INVITATION_CLOCK_SKEW_SECS := 60
  const MAX_ENCODED_LENGTH := 4096

  predicate IsOnionChar(c: char) { 'a' <= c <= 'z' || '2' <= c <= '7' }

  predicate IsTokenChar(c: char) { IsAlphanumeric(c) || c == '-' || c == '_' }

  predicate ValidOnionHostname(value: string) {
    match StripSuffix(value, ".onion")
    case None => false
    case Some(name) => |name| == 56 && forall c :: c in name ==> IsOnionChar(c)
  }

  predicate ValidInvitationSecret(value: string) {
    16 <= |value| <= 128 && forall c :: c in value ==> IsTokenChar(c)
  }

  predicate ValidInvitationId(value: string) {
    |value| == 22 && forall c :: c in value ==> IsTokenChar(c)
  }

  /** `HostInvitation::new` succeeds. */
  predicate ValidInvitation(hostNodeId: string, endpoint: string, secret: string) {
    ValidNodeId(hostNodeId) && ValidOnionHostname(endpoint) && ValidInvitationSecret(secret)
  }

  /** `ClientConfig::client` succeeds. */
  predicate ValidClientConfig(clientNodeId: string, hostNodeId: string, endpoint: string, secret: string) {
    ValidNodeId(clientNodeId) && ValidInvitation(hostNodeId, endpoint, secret)
  }

  datatype InvitationEnvelope = InvitationEnvelope(
    version: nat, invitationId: string, hostNodeId: string, onionEndpoint: string, invitationSecret: string,
    issuedAt: u64, expiresAt: u64)

  /**
   * The text of an invitation, with the base64 and JSON layers symbolic: whether it has the prefix,
   * how long the rest is, and the envelope it decodes to, if any.
   */
  datatype Token = Token(prefixed: bool, encodedLength: nat, envelope: Option<InvitationEnvelope>)

  datatype InvitationError = InvalidRequest | InvalidTtl | InvalidInvitation | InvitationExpired

  function EnvelopeText(e: InvitationEnvelope): string {
    "{\"version\":" + Decimal(e.version) + ",\"invitation_id\":\"" + e.invitationId + "\",\"host_node_id\":\""
      + e.hostNodeId
    + "\",\"onion_endpoint\":\"" + e.onionEndpoint + "\",\"invitation_secret\":\"" + e.invitationSecret
    + "\",\"issued_at\":" + Decimal(e.issuedAt) + ",\"expires_at\":" + Decimal(e.expiresAt) + "}"
  }

  /** How many characters unpadded base64 takes for `n` bytes. */
  function Base64Length(n: nat): nat {
    (4 * n + 2) / 3
  }

  function EncodeInvitation(e: InvitationEnvelope): Token {
    Token(true, Base64Length(|EnvelopeText(e)|), Some(e))
  }

  function SaturatingAdd(a: u64, b: u64): u64 {
    if a > U64_MAX - b then U64_MAX else a + b
  }

  /** The checks on a decoded envelope, in the order and with the errors of `decode_invitation`. */
  function DecodeInvitation(token: Token, now: u64): Result<InvitationEnvelope, InvitationError> {
    if !token.prefixed || token.encodedLength > MAX_ENCODED_LENGTH || token.envelope == None then Err(InvalidInvitation)
    else
      var e := token.envelope.value;
      var skewed := SaturatingAdd(now, MAX_INVITATION_CLOCK_SKEW_SECS);
      if e.version != 1 || !ValidInvitationId(e.invitationId) || e.issuedAt > skewed || e.expiresAt <= now
         || e.expiresAt <= e.issuedAt || e.expiresAt - e.issuedAt > MAX_INVITATION_TTL_SECS
         || !ValidInvitation(e.hostNodeId, e.onionEndpoint, e.invitationSecret)
      then Err(if e.expiresAt <= now then InvitationExpired else InvalidInvitation)
      else Ok(e)
  }

  /** `invitationId` and `secret` are the random values drawn for this invitation. */
  function GenerateInvitation(nodeId: string, ttl: u64, endpoint: string, localDeviceId: string, now: u64,
                              invitationId: string, secret: string): Result<InvitationEnvelope, InvitationError>
  {
    if !(MIN_INVITATION_TTL_SECS <= ttl <= MAX_INVITATION_TTL_SECS) then Err(InvalidTtl)
    else if !ValidInvitation(nodeId, endpoint, secret) then Err(InvalidRequest)
    else if now + ttl > U64_MAX then Err(InvalidTtl)
    else Ok(InvitationEnvelope(1, invitationId, localDeviceId, endpoint, secret, now, now + ttl))
  }

  /**
   * Exactly when an invitation is generated, and that it carries this endpoint and secret, names the
   * Host's device and lives for the time asked for.
   */
  lemma GeneratesIff(nodeId: string, ttl: u64, endpoint: string, localDeviceId: string, now: u64, invitationId: string,
                     secret: string)
    ensures var r := GenerateInvitation(nodeId, ttl, endpoint, localDeviceId, now, invitationId, secret);
      && (r.Ok? <==>
            && 60 <= ttl <= 86_400 && now <= U64_MAX - ttl
            && ValidNodeId(nodeId) && ValidOnionHostname(endpoint) && ValidInvitationSecret(secret))
      && (r.Ok? ==>
            && r.value.version == 1 && r.value.invitationId == invitationId && r.value.hostNodeId == localDeviceId
            && r.value.onionEndpoint == endpoint && r.value.invitationSecret == secret
            && r.value.issuedAt == now && r.value.expiresAt == now + ttl)
  {}

  lemma {:induction false} DecimalLength(n: nat, digits: nat)
    requires digits > 0 && n < Power10(digits)
    ensures |Decimal(n)| <= digits
  {
    if n >= 10 {
      DecimalLength(n / 10, digits - 1);
    }
  }

  function Power10(n: nat): nat {
    if n == 0 then 1 else 10 * Power10(n - 1)
  }

  lemma TwentyDigitsSuffice(n: u64)
    ensures |Decimal(n)| <= 20
  {
    assert Power10(5) == 100000;
    assert Power10(10) == 10000000000;
    assert Power10(15) == 1000000000000000;
    assert Power10(20) == 100000000000000000000;
    DecimalLength(n, 20);
  }

  lemma EncodedInvitationFits(e: InvitationEnvelope)
    requires e.version == 1 && ValidInvitationId(e.invitationId)
      && ValidInvitation(e.hostNodeId, e.onionEndpoint, e.invitationSecret)
    ensures EncodeInvitation(e).encodedLength <= 4096
  {
    TwentyDigitsSuffice(e.issuedAt);
    TwentyDigitsSuffice(e.expiresAt);
    assert |Decimal(1)| == 1;
    assert |e.onionEndpoint| == 62;
    assert |EnvelopeText(e)| <= 600;
  }

  /**
   * A generated invitation can be taken from one clock skew before it was issued until it expires,
   * and at no other time, provided the Host's own device id is a valid node id; otherwise never.
   */
  lemma GeneratedInvitationDecodes(nodeId: string, ttl: u64, endpoint: string, localDeviceId: string, issued: u64,
                                   invitationId: string, secret: string, now: u64)
    requires ValidInvitationId(invitationId)
    requires GenerateInvitation(nodeId, ttl, endpoint, localDeviceId, issued, invitationId, secret).Ok?
    ensures var e := GenerateInvitation(nodeId, ttl, endpoint, localDeviceId, issued, invitationId, secret).value;
      && (DecodeInvitation(EncodeInvitation(e), now) == Ok(e) <==>
            ValidNodeId(localDeviceId) && issued - 60 <= now < issued + ttl)
      && (now >= issued + ttl && ValidNodeId(localDeviceId) ==>
        DecodeInvitation(EncodeInvitation(e), now) == Err(InvitationExpired))
  {
    var e := GenerateInvitation(nodeId, ttl, endpoint, localDeviceId, issued, invitationId, secret).value;
    if ValidNodeId(localDeviceId) {
      EncodedInvitationFits(e);
    }
  }

  /** Exactly which invitations are taken, and which of the others are called expired. */
  lemma DecodesIff(token: Token, now: u64, e: InvitationEnvelope)
    ensures DecodeInvitation(token, now) == Ok(e) <==>
      && token.prefixed && token.encodedLength <= 4096 && token.envelope == Some(e)
      && e.version == 1 && ValidInvitationId(e.invitationId)
      && e.issuedAt - 60 <= now < e.expiresAt && e.issuedAt < e.expiresAt <= e.issuedAt + 86_400
      && ValidNodeId(e.hostNodeId) && ValidOnionHostname(e.onionEndpoint) && ValidInvitationSecret(e.invitationSecret)
    ensures DecodeInvitation(token, now) == Err(InvitationExpired) <==>
      token.prefixed && token.encodedLength <= 4096 && token.envelope.Some? && token.envelope.value.expiresAt <= now
  {}

  /** An onion name is 56 characters of the base-32 alphabet and its suffix. */
  lemma OnionHostnameIff(value: string)
    ensures ValidOnionHostname(value) <==>
      && |value| == 62 && value[56..] == ".onion"
      && forall i :: 0 <= i < 56 ==> 'a' <= value[i] <= 'z' || '2' <= value[i] <= '7'
  {
    if |value| == 62 && value[56..] == ".onion" {
      assert forall i :: 0 <= i < 56 ==> value[..56][i] == value[i];
      assert forall i :: 0 <= i < 56 ==> value[i] in value[..56];
    }
  }

  /** Whatever is accepted is accepted inside its own window and names a valid Host. */
  lemma DecodedInvitationIsTimely(token: Token, now: u64)
    requires DecodeInvitation(token, now).Ok?
    ensures var e := DecodeInvitation(token, now).value;
      && token.envelope == Some(e)
      && e.issuedAt - MAX_INVITATION_CLOCK_SKEW_SECS <= now < e.expiresAt <= e.issuedAt + MAX_INVITATION_TTL_SECS
      && ValidInvitationId(e.invitationId) && ValidInvitation(e.hostNodeId, e.onionEndpoint, e.invitationSecret)
  {}
}
