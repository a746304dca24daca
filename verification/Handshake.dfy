/**
 * The two-message handshake between a Cliente and a Host. The cipher is symbolic: a sealed value
 * opens under the same key, nonce and associated data, and under nothing else.
 */
module Handshake {
  import opened Wrappers
  import opened Utf8
  import opened Numbers
  import opened Messages
  import opened Frames
  import opened Envelopes
  import opened Replay
  import opened Runs
  import opened Nonces
  import opened TransportKeys

  datatype Cipher = Sealed(key: Key, nonce: Nonce, ad: seq<byte>, plaintext: seq<byte>) | Noise

  datatype Envelope = Envelope(role: Role, nodeId: string, nonce: Nonce, cipher: Cipher)

  datatype TransportError =
    | Broken(frame: FrameError)
    | Protocol(reason: string)
    | Crypto(crypto: CryptoError)
    | Parse(parse: ParseError)
    | Validation(validation: ValidationError)

  function SealedEnvelope(key: Key, role: Role, nodeId: string, nonce: Nonce, plaintext: seq<byte>): Envelope {
    Envelope(role, nodeId, nonce, Sealed(key, nonce, AssociatedData(role, nodeId), plaintext))
  }

  function Seal(key: Key, role: Role, nodeId: string, nonce: Nonce, plaintext: seq<byte>): Result<Envelope, CryptoError>
  {
    if !ValidNodeId(nodeId) then Err(CryptoError.InvalidNodeId)
    else Ok(SealedEnvelope(key, role, nodeId, nonce, plaintext))
  }

  function Open(e: Envelope, key: Key, role: Role, nodeId: string): Result<seq<byte>, CryptoError> {
    if !ValidNodeId(nodeId) || e.role != role || e.nodeId != nodeId then Err(AuthenticationFailed)
    else
      match e.cipher
      case Sealed(k, nonce, ad, plaintext) =>
        if k == key && nonce == e.nonce && ad == AssociatedData(e.role, e.nodeId) then Ok(plaintext)
        else Err(AuthenticationFailed)
      case Noise => Err(AuthenticationFailed)
  }

  /** Only the very envelope that was sealed opens: header and nonce are authenticated with the text. */
  lemma OpensOnlyWhatWasSealed(e: Envelope, key: Key, role: Role, nodeId: string, plaintext: seq<byte>)
    ensures Open(e, key, role, nodeId) == Ok(plaintext) <==> Seal(key, role, nodeId, e.nonce, plaintext) == Ok(e)
  {}

  /** A key remembers every nonce it sealed with, for as long as it lives. */
  class CryptoKey {
    const secret: Key
    const sealingAllowed: bool
    var usedNonces: set<Nonce>

    constructor (secret: Key, sealingAllowed: bool)
      ensures this.secret == secret && this.sealingAllowed == sealingAllowed && usedNonces == {}
    {
      this.secret := secret;
      this.sealingAllowed := sealingAllowed;
      usedNonces := {};
    }

    method RecordNonce(nonce: Nonce) returns (r: Result<Unit, CryptoError>)
      modifies this
      ensures r == if nonce in old(usedNonces) then Err(NonceReuse) else Ok(Done)
      ensures usedNonces == old(usedNonces) + {nonce}
    {
      if nonce in usedNonces {
        return Err(NonceReuse);
      }
      usedNonces := usedNonces + {nonce};
      return Ok(Done);
    }

    /** Also what `seal` does with a random nonce. */
    method SealWithNonce(role: Role, nodeId: string, nonce: Nonce, plaintext: seq<byte>)
      returns (r: Result<Envelope, CryptoError>)
      modifies this
      ensures (r, usedNonces) ==
        SealStep(secret, sealingAllowed, old(usedNonces), WithNonce(role, nodeId, nonce, plaintext))
    {
      if !sealingAllowed {
        return Err(UnsafeNoncePolicy);
      }
      if !ValidNodeId(nodeId) {
        return Err(CryptoError.InvalidNodeId);
      }
      var recorded := RecordNonce(nonce);
      if recorded.Err? {
        assert usedNonces == old(usedNonces);
        return Err(recorded.error);
      }
      r := Seal(secret, role, nodeId, nonce, plaintext);
    }

    /** `supplied` is what the caller-owned allocator returned. */
    method SealWithAllocator(role: Role, nodeId: string, supplied: Result<Nonce, CryptoError>, plaintext: seq<byte>)
      returns (r: Result<Envelope, CryptoError>)
      modifies this
      ensures (r, usedNonces) ==
        SealStep(secret, sealingAllowed, old(usedNonces), WithAllocator(role, nodeId, supplied, plaintext))
    {
      if supplied.Err? {
        return Err(supplied.error);
      }
      var recorded := RecordNonce(supplied.value);
      if recorded.Err? {
        assert usedNonces == old(usedNonces);
        return Err(recorded.error);
      }
      r := Seal(secret, role, nodeId, supplied.value, plaintext);
    }
  }

  datatype SealCall =
    | WithNonce(role: Role, nodeId: string, nonce: Nonce, plaintext: seq<byte>)
    | WithAllocator(role: Role, nodeId: string, supplied: Result<Nonce, CryptoError>, plaintext: seq<byte>)

  function SealStep(secret: Key, sealingAllowed: bool, used: set<Nonce>, c: SealCall):
    (Result<Envelope, CryptoError>, set<Nonce>)
  {
    match c
    case WithNonce(role, nodeId, nonce, plaintext) =>
      if !sealingAllowed then (Err(UnsafeNoncePolicy), used)
      else if !ValidNodeId(nodeId) then (Err(CryptoError.InvalidNodeId), used)
      else if nonce in used then (Err(NonceReuse), used)
      else (Seal(secret, role, nodeId, nonce, plaintext), used + {nonce})
    case WithAllocator(role, nodeId, supplied, plaintext) =>
      if supplied.Err? then (Err(supplied.error), used)
      else if supplied.value in used then (Err(NonceReuse), used)
      else (Seal(secret, role, nodeId, supplied.value, plaintext), used + {supplied.value})
  }

  function UsedAt(secret: Key, sealingAllowed: bool, calls: seq<SealCall>, n: nat): set<Nonce>
    requires n <= |calls|
  {
    if n == 0 then {}
    else SealStep(secret, sealingAllowed, UsedAt(secret, sealingAllowed, calls, n - 1), calls[n - 1]).1
  }

  function SealedAt(secret: Key, sealingAllowed: bool, calls: seq<SealCall>, i: nat): Result<Envelope, CryptoError>
    requires i < |calls|
  {
    SealStep(secret, sealingAllowed, UsedAt(secret, sealingAllowed, calls, i), calls[i]).0
  }

  lemma SealUsesItsNonce(secret: Key, sealingAllowed: bool, used: set<Nonce>, c: SealCall)
    ensures var (r, after) := SealStep(secret, sealingAllowed, used, c);
      used <= after && (r.Ok? ==> r.value.nonce !in used && r.value.nonce in after)
  {}

  lemma {:induction false} UsedNoncesStay(secret: Key, sealingAllowed: bool, calls: seq<SealCall>, i: nat, n: nat)
    requires i < n <= |calls|
    ensures var sealed := SealedAt(secret, sealingAllowed, calls, i);
      sealed.Ok? ==> sealed.value.nonce in UsedAt(secret, sealingAllowed, calls, n)
  {
    SealUsesItsNonce(secret, sealingAllowed, UsedAt(secret, sealingAllowed, calls, n - 1), calls[n - 1]);
    if i < n - 1 {
      UsedNoncesStay(secret, sealingAllowed, calls, i, n - 1);
    }
  }

  /** Over the life of one key, no two seals that succeed share a nonce, whichever way they got it. */
  lemma SealsNeverShareNonce(secret: Key, sealingAllowed: bool, calls: seq<SealCall>, i: nat, j: nat)
    requires i < j < |calls|
    ensures var first, second := SealedAt(secret, sealingAllowed, calls, i), SealedAt(secret, sealingAllowed, calls, j);
      first.Ok? && second.Ok? ==> first.value.nonce != second.value.nonce
  {
    UsedNoncesStay(secret, sealingAllowed, calls, i, j);
    SealUsesItsNonce(secret, sealingAllowed, UsedAt(secret, sealingAllowed, calls, j), calls[j]);
  }

  function SealSupplied(key: Key, role: Role, nodeId: string, supplied: Result<Nonce, CryptoError>,
                        plaintext: seq<byte>):
    Result<Envelope, CryptoError>
  {
    var nonce :- supplied;
    Seal(key, role, nodeId, nonce, plaintext)
  }

  // ----- the Host -----

  datatype Match = Match(plaintext: seq<byte>, key: Key, tag: Option<string>)

  /** The first candidate that opens the envelope; an empty tag counts as none. */
  function FirstMatch(e: Envelope, candidates: seq<(string, Key)>, claimed: string): Option<Match> {
    if candidates == [] then None
    else
      var (tag, key) := candidates[0];
      match Open(e, key, Cliente, claimed)
      case Ok(plaintext) => Some(Match(plaintext, key, if tag == "" then None else Some(tag)))
      case Err(_) => FirstMatch(e, candidates[1..], claimed)
  }

  method OpenWithCandidates(e: Envelope, candidates: seq<(string, Key)>, claimed: string)
    returns (r: Result<Match, TransportError>)
    ensures r == match FirstMatch(e, candidates, claimed)
      case Some(found) => Ok(found)
      case None => Err(Crypto(AuthenticationFailed))
  {
    var i := 0;
    while i < |candidates|
      invariant 0 <= i <= |candidates|
      invariant FirstMatch(e, candidates, claimed) == FirstMatch(e, candidates[i..], claimed)
    {
      var (tag, key) := candidates[i];
      assert candidates[i..][1..] == candidates[i + 1..];
      var unsealed := Open(e, key, Cliente, claimed);
      if unsealed.Ok? {
        return Ok(Match(unsealed.value, key, if tag == "" then None else Some(tag)));
      }
      i := i + 1;
    }
    return Err(Crypto(AuthenticationFailed));
  }

  ghost predicate FirstToOpen(e: Envelope, candidates: seq<(string, Key)>, claimed: string, i: nat)
    requires i < |candidates|
  {
    && Open(e, candidates[i].1, Cliente, claimed).Ok?
    && forall j :: 0 <= j < i ==> Open(e, candidates[j].1, Cliente, claimed).Err?
  }

  lemma {:induction false} FirstMatchIsCandidate(e: Envelope, candidates: seq<(string, Key)>, claimed: string)
    requires FirstMatch(e, candidates, claimed).Some?
    ensures var found := FirstMatch(e, candidates, claimed).value;
      && Open(e, found.key, Cliente, claimed) == Ok(found.plaintext)
      && exists i :: 0 <= i < |candidates| && FirstToOpen(e, candidates, claimed, i) && candidates[i].1 == found.key
           && found.tag == if candidates[i].0 == "" then None else Some(candidates[i].0)
  {
    if Open(e, candidates[0].1, Cliente, claimed).Err? {
      FirstMatchIsCandidate(e, candidates[1..], claimed);
      var found := FirstMatch(e, candidates, claimed).value;
      var i :| 0 <= i < |candidates[1..]| && FirstToOpen(e, candidates[1..], claimed, i)
        && candidates[1..][i].1 == found.key
        && found.tag == if candidates[1..][i].0 == "" then None else Some(candidates[1..][i].0);
      assert candidates[i + 1] == candidates[1..][i];
      assert FirstToOpen(e, candidates, claimed, i + 1) by {
        forall j | 0 <= j < i + 1 ensures Open(e, candidates[j].1, Cliente, claimed).Err? {
          assert j > 0 ==> candidates[j] == candidates[1..][j - 1];
        }
      }
    } else {
      assert FirstToOpen(e, candidates, claimed, 0);
    }
  }

  datatype Session = Session(peerNodeId: string, matchedKeyTag: Option<string>)

  datatype HostState = HostState(nodeId: string, seen: Seen, sessions: Sessions)

  /** One connection as the Host meets it; `supplied` is the allocator's answer. */
  datatype Attempt = Attempt(gateOpen: bool, envelope: Envelope, candidates: seq<(string, Key)>, now: u64,
                             supplied: Result<Nonce, CryptoError>)

  datatype Outcome = Outcome(result: Result<Session, TransportError>, host: HostState, response: Option<Envelope>)

  function SessionNonce(nonce: Nonce): seq<byte> {
    nonce + Zeros(8)
  }

  /** The 24 bytes and eight zeros: different nonces stay different. */
  lemma SessionNonceInjective(a: Nonce, b: Nonce)
    ensures |SessionNonce(a)| == 32
    ensures SessionNonce(a) == SessionNonce(b) ==> a == b
  {
    assert SessionNonce(a)[..|a|] == a && SessionNonce(b)[..|b|] == b;
  }

  function Answer(nodeId: string, now: u64, nonceText: string): Message {
    HandshakeResponse(nodeId, now, nonceText)
  }

  function Serve(h: HostState, a: Attempt): Outcome {
    if !a.gateOpen then Outcome(Err(Protocol("peer transport revoked")), h, None)
    else
      match FirstMatch(a.envelope, a.candidates, a.envelope.nodeId)
      case None => Outcome(Err(Crypto(AuthenticationFailed)), h, None)
      case Some(found) =>
        match ParseMessage(found.plaintext)
        case Err(e) => Outcome(Err(Parse(e)), h, None)
        case Ok(init) =>
          if !init.HandshakeInit? then Outcome(Err(Protocol("expected handshake init")), h, None)
          else Admit(h, a, found, init)
  }

  function Admit(h: HostState, a: Attempt, found: Match, init: Message): Outcome
    requires init.HandshakeInit?
  {
    var (timely, seen) := MessageOutcome(h.seen, init, a.now, Host);
    if timely.Err? then Outcome(Err(Validation(timely.error)), h.(seen := seen), None)
    else
      var (single, sessions) := SessionOutcome(h.sessions, SessionNonce(a.envelope.nonce), init.nodeId, Cliente);
      var after := h.(seen := seen, sessions := sessions);
      if single.Err? then Outcome(Err(Validation(single.error)), after, None)
      else
        match SealSupplied(found.key, Host, h.nodeId, a.supplied, EncodeMessage(Answer(h.nodeId, a.now, init.nonce)))
        case Err(e) => Outcome(Err(Crypto(e)), after, None)
        case Ok(response) => Outcome(Ok(Session(init.nodeId, found.tag)), after, Some(response))
  }

  /** The init that an attempt opens to, under whatever candidate, if that is what it is. */
  function InitOf(a: Attempt): Option<Message> {
    var found :- FirstMatch(a.envelope, a.candidates, a.envelope.nodeId);
    match ParseMessage(found.plaintext)
    case Err(_) => None
    case Ok(m) => if m.HandshakeInit? then Some(m) else None
  }

  /** The map holds this nonce, from five minutes ago or less. */
  predicate Recent(seen: Seen, nonce: string, now: u64) {
    nonce in seen && now - seen[nonce] <= 300
  }

  /** Exactly which attempts a Host takes, in terms of the init, the clock and the two maps. */
  lemma AcceptsIff(h: HostState, a: Attempt)
    ensures Serve(h, a).result.Ok? <==>
      && a.gateOpen && a.supplied.Ok? && ValidNodeId(h.nodeId)
      && InitOf(a).Some? && InWindow(InitOf(a).value, a.now)
      && !Recent(h.seen, InitOf(a).value.nonce, a.now) && SessionNonce(a.envelope.nonce) !in h.sessions
  {
    if InitOf(a).Some? {
      ParsedIsValid(FirstMatch(a.envelope, a.candidates, a.envelope.nodeId).value.plaintext);
    }
  }

  /**
   * What an attempt leaves behind, also when it fails. A timely init always costs the expired nonces; if its
   * own is new, it is remembered with the Host's clock; and if its envelope is new too, the session is
   * remembered even when no response can be sealed.
   */
  lemma {:induction false} ServeLeaves(h: HostState, a: Attempt)
    ensures var outcome := Serve(h, a); var init := InitOf(a);
      && (outcome.response.Some? <==> outcome.result.Ok?)
      && (!a.gateOpen || init == None || !InWindow(init.value, a.now) ==> outcome.host == h)
      && (a.gateOpen && init.Some? && InWindow(init.value, a.now) ==>
            var recent := Prune(h.seen, a.now);
            if Recent(h.seen, init.value.nonce, a.now) then
              outcome == Outcome(Err(Validation(ReplayDetected)), h.(seen := recent), None)
            else
              && outcome.host.seen == recent[init.value.nonce := a.now]
              && outcome.host.sessions ==
                   (if SessionNonce(a.envelope.nonce) in h.sessions then h.sessions
                    else h.sessions[SessionNonce(a.envelope.nonce) := (init.value.nodeId, Cliente)]))
  {
    if InitOf(a).Some? {
      ParsedIsValid(FirstMatch(a.envelope, a.candidates, a.envelope.nodeId).value.plaintext);
      ValidateMessageMeans(InitOf(a).value, a.now, Host);
    }
  }

  lemma {:induction false} ServeAdmits(h: HostState, a: Attempt)
    ensures Serve(h, a).result.Ok? ==> a.gateOpen && InitOf(a).Some?
    ensures a.gateOpen && InitOf(a).Some? ==>
      && FirstMatch(a.envelope, a.candidates, a.envelope.nodeId).Some?
      && Serve(h, a) == Admit(h, a, FirstMatch(a.envelope, a.candidates, a.envelope.nodeId).value, InitOf(a).value)
  {}

  lemma {:induction false} AdmittedAnswers(h: HostState, a: Attempt, found: Match, init: Message)
    requires init.HandshakeInit? && Admit(h, a, found, init).result.Ok?
    ensures var response := Admit(h, a, found, init).response;
      && response.Some? && a.supplied.Ok? && response.value.nonce == a.supplied.value
      && Open(response.value, found.key, Host, h.nodeId) ==
           Ok(EncodeMessage(HandshakeResponse(h.nodeId, a.now, init.nonce)))
  {}

  /**
   * The response of a successful attempt opens, under the key that opened the init, to the Host's id and the
   * init's nonce.
   */
  lemma {:induction false} ResponseAnswersInit(h: HostState, a: Attempt)
    requires Serve(h, a).result.Ok?
    ensures var response := Serve(h, a).response; var found := FirstMatch(a.envelope, a.candidates, a.envelope.nodeId);
      && InitOf(a).Some? && found.Some? && response.Some? && response.value.nonce == a.supplied.value
      && Open(response.value, found.value.key, Host, h.nodeId) ==
           Ok(EncodeMessage(HandshakeResponse(h.nodeId, a.now, InitOf(a).value.nonce)))
  {
    var found := FirstMatch(a.envelope, a.candidates, a.envelope.nodeId).value;
    ServeAdmits(h, a);
    AdmittedAnswers(h, a, found, InitOf(a).value);
  }

  lemma {:induction false} AdmissionFails(h: HostState, a: Attempt, found: Match, init: Message)
    requires init.HandshakeInit? && ValidateSyntax(init).Ok?
    ensures var r := Admit(h, a, found, init).result;
      && (r.Err? ==> r.error.Validation? || r.error.Crypto?)
      && (r == Err(Validation(TimestampOutsideReplayWindow)) <==> !InWindow(init, a.now))
  {
    ValidateMessageMeans(init, a.now, Host);
    ValidationErrorsMean(init, a.now, Host);
  }

  /** Why an attempt fails, where the reason is none of the replay guard's. */
  lemma {:induction false} FailuresMean(h: HostState, a: Attempt)
    ensures var r := Serve(h, a).result; var found := FirstMatch(a.envelope, a.candidates, a.envelope.nodeId);
      && (r == Err(Protocol("peer transport revoked")) <==> !a.gateOpen)
      && (r == Err(Protocol("expected handshake init")) <==>
            a.gateOpen && found.Some? && ParseMessage(found.value.plaintext).Ok? && InitOf(a) == None)
      && (r.Err? && r.error.Parse? <==> a.gateOpen && found.Some? && ParseMessage(found.value.plaintext).Err?)
      && (a.gateOpen && found == None ==> r == Err(Crypto(AuthenticationFailed)))
      && (r == Err(Validation(TimestampOutsideReplayWindow)) <==>
            a.gateOpen && InitOf(a).Some? && !InWindow(InitOf(a).value, a.now))
  {
    assert |"peer transport revoked"| != |"expected handshake init"|;
    ServeAdmits(h, a);
    if a.gateOpen && InitOf(a).Some? {
      var found := FirstMatch(a.envelope, a.candidates, a.envelope.nodeId).value;
      ParsedIsValid(found.plaintext);
      AdmissionFails(h, a, found, InitOf(a).value);
    }
  }

  lemma ServeKeepsHostId(h: HostState, a: Attempt)
    ensures Serve(h, a).host.nodeId == h.nodeId
  {}

  /** A session's peer is the id in the init that was opened, its tag that of the key that opened it. */
  lemma SessionIsOpened(h: HostState, a: Attempt)
    requires Serve(h, a).result.Ok?
    ensures var found := FirstMatch(a.envelope, a.candidates, a.envelope.nodeId);
      && found.Some? && ParseMessage(found.value.plaintext).Ok?
        && ParseMessage(found.value.plaintext).value.HandshakeInit?
      && Serve(h, a).result == Ok(Session(ParseMessage(found.value.plaintext).value.nodeId, found.value.tag))
  {}

  class HostTransport {
    const nodeId: string
    const replay: ReplayGuard

    ghost function State(): HostState
      reads this, replay
    {
      HostState(nodeId, replay.seen, replay.sessions)
    }

    constructor (nodeId: string)
      ensures State() == HostState(nodeId, map[], map[]) && fresh(replay)
    {
      this.nodeId := nodeId;
      replay := new ReplayGuard();
    }

    method Accept(a: Attempt) returns (r: Result<Session, TransportError>, response: Option<Envelope>)
      modifies replay
      ensures Outcome(r, State(), response) == Serve(old(State()), a)
    {
      response := None;
      if !a.gateOpen {
        return Err(Protocol("peer transport revoked")), None;
      }
      var unsealed := OpenWithCandidates(a.envelope, a.candidates, a.envelope.nodeId);
      if unsealed.Err? {
        return Err(unsealed.error), None;
      }
      var found := unsealed.value;
      var parsed := ParseMessage(found.plaintext);
      if parsed.Err? {
        return Err(Parse(parsed.error)), None;
      }
      var init := parsed.value;
      if !init.HandshakeInit? {
        return Err(Protocol("expected handshake init")), None;
      }
      var accepted := replay.Accept(init, a.now, Host);
      if accepted.Err? {
        return Err(Validation(accepted.error)), None;
      }
      var single := replay.AcceptSession(SessionNonce(a.envelope.nonce), init.nodeId, Cliente);
      if single.Err? {
        return Err(Validation(single.error)), None;
      }
      var key := new CryptoKey(found.key, false);
      var sealed := key.SealWithAllocator(Host, nodeId, a.supplied, EncodeMessage(Answer(nodeId, a.now, init.nonce)));
      if sealed.Err? {
        return Err(Crypto(sealed.error)), None;
      }
      return Ok(Session(init.nodeId, found.tag)), Some(sealed.value);
    }

    /** From the frame on: `frame` is what the reader made of the bytes that came in. */
    method AcceptFrame(gateOpen: bool, frame: Result<seq<byte>, FrameError>, cipherOf: seq<byte> -> Cipher,
                       resolver: Resolver, now: u64,
                       supplied: Result<Nonce, CryptoError>)
      returns (r: Result<Session, TransportError>, response: Option<Envelope>)
      modifies replay
      ensures Outcome(r, State(), response) ==
        ServeFrame(old(State()), gateOpen, frame, cipherOf, resolver, now, supplied)
    {
      if !gateOpen {
        return Err(Protocol("peer transport revoked")), None;
      }
      if frame.Err? {
        return Err(Broken(frame.error)), None;
      }
      var parsed := ParseEnvelope(frame.value);
      if parsed.Err? {
        return Err(Crypto(parsed.error)), None;
      }
      ParsedIsWellFormed(frame.value);
      PeekAgreesWithParse(frame.value);
      var claimed := PeekClientId(frame.value).value;
      r, response := Accept(Attempt(gateOpen, Received(parsed.value, cipherOf), resolver(claimed), now, supplied));
    }
  }

  /** The candidates for a claimed id, as they are at this moment. */
  type Resolver = string -> seq<(string, Key)>

  function Received(parsed: ParsedEnvelope, cipherOf: seq<byte> -> Cipher): Envelope
    requires |parsed.nonce| == NONCE_LEN
  {
    Envelope(parsed.role, parsed.nodeId, parsed.nonce, cipherOf(parsed.ciphertext))
  }

  /** Accepting a connection, the errors before decryption included. */
  function ServeFrame(h: HostState, gateOpen: bool, frame: Result<seq<byte>, FrameError>,
                      cipherOf: seq<byte> -> Cipher, resolver: Resolver,
                      now: u64, supplied: Result<Nonce, CryptoError>): Outcome
  {
    if !gateOpen then Outcome(Err(Protocol("peer transport revoked")), h, None)
    else if frame.Err? then Outcome(Err(Broken(frame.error)), h, None)
    else
      match ParseEnvelope(frame.value)
      case Err(e) => Outcome(Err(Crypto(e)), h, None)
      case Ok(parsed) =>
        ParsedIsWellFormed(frame.value);
        Serve(h, Attempt(gateOpen, Received(parsed, cipherOf), resolver(parsed.nodeId), now, supplied))
  }

  /** The attempt that the bytes of this envelope stand for. */
  function Arriving(e: ParsedEnvelope, cipherOf: seq<byte> -> Cipher, resolver: Resolver, now: u64,
                    supplied: Result<Nonce, CryptoError>): Attempt
    requires WellFormed(e)
  {
    Attempt(true, Envelope(e.role, e.nodeId, e.nonce, cipherOf(e.ciphertext)), resolver(e.nodeId), now, supplied)
  }

  /**
   * A frame makes a session exactly when the gate is open, it is the layout of some well-formed envelope, and
   * that envelope, with the candidates for the id it carries, is taken. Any other frame changes nothing.
   */
  lemma {:induction false} FrameAcceptsIff(h: HostState, gateOpen: bool, frame: Result<seq<byte>, FrameError>,
                                           cipherOf: seq<byte> -> Cipher, resolver: Resolver, now: u64,
                                           supplied: Result<Nonce, CryptoError>)
    ensures var outcome := ServeFrame(h, gateOpen, frame, cipherOf, resolver, now, supplied);
      && (outcome.result.Ok? <==>
            gateOpen && frame.Ok? && exists e ::
              WellFormed(e) && frame.value == Layout(e)
                && Serve(h, Arriving(e, cipherOf, resolver, now, supplied)).result.Ok?)
      && (!gateOpen || frame.Err? || (forall e :: WellFormed(e) ==> frame.value != Layout(e)) ==>
            outcome.host == h && outcome.response == None)
      && (forall e :: gateOpen && frame.Ok? && WellFormed(e) && frame.value == Layout(e) ==>
            outcome == Serve(h, Arriving(e, cipherOf, resolver, now, supplied)))
  {
    if gateOpen && frame.Ok? {
      if ParseEnvelope(frame.value).Ok? {
        ParsedIsWellFormed(frame.value);
        ParsedLaysOutIdentically(frame.value);
      }
      forall e | WellFormed(e) && frame.value == Layout(e) ensures ParseEnvelope(frame.value) == Ok(e) {
        EnvelopeRoundTrip(e);
      }
    }
  }

  // ----- one session per envelope nonce, whatever the clock does -----

  function HostAt(start: HostState, attempts: seq<Attempt>, n: nat): HostState
    requires n <= |attempts|
  {
    Runs.StateAt(ServedHost, start, attempts, n)
  }

  function ServedHost(h: HostState, a: Attempt): HostState {
    Serve(h, a).host
  }

  predicate Succeeds(start: HostState, attempts: seq<Attempt>, i: nat)
    requires i < |attempts|
  {
    Serve(HostAt(start, attempts, i), attempts[i]).result.Ok?
  }

  lemma {:induction false} ServeRemembers(h: HostState, a: Attempt)
    ensures h.sessions.Keys <= Serve(h, a).host.sessions.Keys
    ensures Serve(h, a).result.Ok? ==>
      SessionNonce(a.envelope.nonce) !in h.sessions && SessionNonce(a.envelope.nonce) in Serve(h, a).host.sessions
  {}

  lemma {:induction false} SessionsOnlyGrow(start: HostState, attempts: seq<Attempt>, i: nat, n: nat)
    requires i < n <= |attempts| && Succeeds(start, attempts, i)
    ensures SessionNonce(attempts[i].envelope.nonce) in HostAt(start, attempts, n).sessions
  {
    var nonce := SessionNonce(attempts[i].envelope.nonce);
    ServeRemembers(HostAt(start, attempts, i), attempts[i]);
    forall h: HostState, k | i + 1 <= k < n && nonce in h.sessions
      ensures nonce in ServedHost(h, attempts[k]).sessions
    {
      ServeRemembers(h, attempts[k]);
    }
    assert HostAt(start, attempts, i + 1) == ServedHost(HostAt(start, attempts, i), attempts[i]);
    KeptBetween(ServedHost, start, attempts, i + 1, n, (h: HostState) => nonce in h.sessions);
  }

  /** Sessions come from envelopes with pairwise distinct nonces. */
  lemma SessionsHaveDistinctNonces(start: HostState, attempts: seq<Attempt>, i: nat, j: nat)
    requires i < j < |attempts|
    ensures Succeeds(start, attempts, i) && Succeeds(start, attempts, j) ==>
      attempts[i].envelope.nonce != attempts[j].envelope.nonce
  {
    if Succeeds(start, attempts, i) {
      SessionsOnlyGrow(start, attempts, i, j);
      ServeRemembers(HostAt(start, attempts, j), attempts[j]);
    }
  }

  ghost function SessionsFrom(start: HostState, attempts: seq<Attempt>, e: Envelope): set<int> {
    set i | 0 <= i < |attempts| && attempts[i].envelope == e && Succeeds(start, attempts, i)
  }

  /** Any number of delivered copies of one envelope make at most one session, however late they come. */
  lemma CopiesMakeOneSession(start: HostState, attempts: seq<Attempt>, e: Envelope)
    ensures |SessionsFrom(start, attempts, e)| <= 1
  {
    forall i, j | i in SessionsFrom(start, attempts, e) && j in SessionsFrom(start, attempts, e) ensures i == j {
      if i < j {
        SessionsHaveDistinctNonces(start, attempts, i, j);
      } else if j < i {
        SessionsHaveDistinctNonces(start, attempts, j, i);
      }
    }
    if i :| i in SessionsFrom(start, attempts, e) {
      assert SessionsFrom(start, attempts, e) == {i};
    } else {
      assert SessionsFrom(start, attempts, e) == {};
    }
  }

  // ----- the Cliente -----

  function Init(clientId: string, timestamp: u64, nonce: Nonce): Message {
    HandshakeInit(clientId, timestamp, Hex(nonce))
  }

  function Dial(key: Key, clientId: string, timestamp: u64, nonce: Nonce, supplied: Result<Nonce, CryptoError>):
    Result<Envelope, CryptoError>
  {
    SealSupplied(key, Cliente, clientId, supplied, EncodeMessage(Init(clientId, timestamp, nonce)))
  }

  /** What `connect` makes of the response: the Host's id, or the reason there is no stream. */
  function Finish(key: Key, expectedHost: string, nonce: Nonce, response: Envelope,
                  now: u64): Result<string, TransportError>
  {
    match Open(response, key, Host, expectedHost)
    case Err(e) => Err(Crypto(e))
    case Ok(plaintext) =>
      match ParseMessage(plaintext)
      case Err(e) => Err(Parse(e))
      case Ok(m) =>
        match ValidateMessage(m, now, Cliente)
        case Err(e) => Err(Validation(e))
        case Ok(_) =>
          if m.HandshakeResponse? && m.nodeId == expectedHost && m.nonce == Hex(nonce) then Ok(m.nodeId)
          else Err(Protocol("invalid handshake response"))
  }

  /**
   * Exactly when `connect` returns a stream: the response was sealed by this Host under this key, it is
   * a response that names this Host and echoes this nonce, and the clock is within its window.
   */
  lemma FinishesIff(key: Key, expectedHost: string, nonce: Nonce, response: Envelope, now: u64)
    ensures Finish(key, expectedHost, nonce, response, now).Ok? <==>
      exists plaintext, timestamp: u64 ::
        && Seal(key, Host, expectedHost, response.nonce, plaintext) == Ok(response)
        && ParseMessage(plaintext) == Ok(HandshakeResponse(expectedHost, timestamp, Hex(nonce)))
        && timestamp - 300 <= now <= timestamp + 300
    ensures Finish(key, expectedHost, nonce, response, now).Ok? ==>
      Finish(key, expectedHost, nonce, response, now).value == expectedHost
  {
    if Finish(key, expectedHost, nonce, response, now).Ok? {
      var plaintext := Open(response, key, Host, expectedHost).value;
      OpensOnlyWhatWasSealed(response, key, Host, expectedHost, plaintext);
      var timestamp := ParseMessage(plaintext).value.timestamp;
      assert ParseMessage(plaintext) == Ok(HandshakeResponse(expectedHost, timestamp, Hex(nonce)));
    }
    if plaintext, timestamp: u64 :|
        && Seal(key, Host, expectedHost, response.nonce, plaintext) == Ok(response)
        && ParseMessage(plaintext) == Ok(HandshakeResponse(expectedHost, timestamp, Hex(nonce)))
        && timestamp - 300 <= now <= timestamp + 300
    {
      OpensOnlyWhatWasSealed(response, key, Host, expectedHost, plaintext);
      ParsedIsValid(plaintext);
    }
  }

  /** `connect` sends an init exactly when its own id is valid and the allocator answers, and what it sends. */
  lemma DialsIff(key: Key, clientId: string, timestamp: u64, nonce: Nonce, supplied: Result<Nonce, CryptoError>)
    ensures var dialled := Dial(key, clientId, timestamp, nonce, supplied);
      && (dialled.Ok? <==> ValidNodeId(clientId) && supplied.Ok?)
      && (dialled.Ok? ==>
            && dialled.value.nonce == supplied.value
            && Open(dialled.value, key, Cliente, clientId) ==
                 Ok(EncodeMessage(HandshakeInit(clientId, timestamp, Hex(nonce)))))
  {}

  lemma HexNonceIsValid(nonce: Nonce)
    ensures ValidNonce(Hex(nonce))
  {}

  /** An undisturbed exchange succeeds on both sides, and each side learns the other's id. */
  lemma UndisturbedHandshakeSucceeds(h: HostState, a: Attempt, clientId: string, key: Key, timestamp: u64, nonce: Nonce,
                                     supplied: Nonce, finished: u64)
    requires ValidNodeId(clientId) && ValidNodeId(h.nodeId)
    requires Dial(key, clientId, timestamp, nonce, Ok(supplied)) == Ok(a.envelope)
    requires a.gateOpen && a.supplied.Ok? && exists i :: 0 <= i < |a.candidates| && a.candidates[i].1 == key
    requires AbsDiff(timestamp, a.now) <= REPLAY_WINDOW_SECS && AbsDiff(a.now, finished) <= REPLAY_WINDOW_SECS
    requires Hex(nonce) !in h.seen && SessionNonce(supplied) !in h.sessions
    ensures var outcome := Serve(h, a);
      && outcome.result.Ok? && outcome.result.value.peerNodeId == clientId
      && outcome.response.Some? && Finish(key, h.nodeId, nonce, outcome.response.value, finished) == Ok(h.nodeId)
  {
    FirstMatchFinds(a.envelope, a.candidates, key, EncodeMessage(Init(clientId, timestamp, nonce)));
    OpenInitIsAdmitted(h, a, clientId, timestamp, nonce);
    HexNonceIsValid(nonce);
    MessageRoundTrip(Answer(h.nodeId, a.now, Hex(nonce)));
  }

  /** An init that is opened, timely and new makes a session of the id it names. */
  lemma OpenInitIsAdmitted(h: HostState, a: Attempt, named: string, timestamp: u64, nonce: Nonce)
    requires a.gateOpen && a.supplied.Ok? && ValidNodeId(h.nodeId) && ValidNodeId(named)
    requires FirstMatch(a.envelope, a.candidates, a.envelope.nodeId).Some?
    requires FirstMatch(a.envelope, a.candidates, a.envelope.nodeId).value.plaintext ==
      EncodeMessage(Init(named, timestamp, nonce))
    requires AbsDiff(timestamp, a.now) <= REPLAY_WINDOW_SECS
    requires Hex(nonce) !in h.seen && SessionNonce(a.envelope.nonce) !in h.sessions
    ensures var outcome := Serve(h, a); var found := FirstMatch(a.envelope, a.candidates, a.envelope.nodeId).value;
      && outcome.result == Ok(Session(named, found.tag))
      && outcome.response ==
           Some(SealedEnvelope(found.key, Host, h.nodeId, a.supplied.value,
             EncodeMessage(Answer(h.nodeId, a.now, Hex(nonce)))))
  {
    HexNonceIsValid(nonce);
    MessageRoundTrip(Init(named, timestamp, nonce));
  }

  lemma {:induction false} FirstMatchFinds(e: Envelope, candidates: seq<(string, Key)>, key: Key, plaintext: seq<byte>)
    requires Open(e, key, Cliente, e.nodeId) == Ok(plaintext)
    requires exists i :: 0 <= i < |candidates| && candidates[i].1 == key
    ensures FirstMatch(e, candidates, e.nodeId).Some?
    ensures FirstMatch(e, candidates, e.nodeId).value.plaintext == plaintext
    ensures FirstMatch(e, candidates, e.nodeId).value.key == key
  {
    var i :| 0 <= i < |candidates| && candidates[i].1 == key;
    if candidates[0].1 != key {
      assert candidates[1..][i - 1].1 == key;
      FirstMatchFinds(e, candidates[1..], key, plaintext);
    }
  }
}
