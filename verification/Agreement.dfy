/**
 * Agreement between a Cliente and a Host over a network that may drop, repeat, reorder, re-label and
 * make up envelopes, with the Host restarting at any moment.
 */
module Agreement {
  import opened Wrappers
  import opened Utf8
  import opened Numbers
  import opened Messages
  import opened Envelopes
  import opened Nonces
  import opened TransportKeys
  import opened Handshake
  import Runs

  /** One Cliente, the key it shares with the Host, and the Host id it was given. */
  datatype Parties = Parties(key: Key, clientId: string, expectedHost: string)

  /** A call of `connect`; `peer` is set once it has returned a stream. */
  datatype Connect = Connect(nonce: Nonce, timestamp: u64, init: Envelope, peer: Option<string>)

  /** A call of `accept` that answered: what it opened, under which key, and what it sent. */
  datatype Served = Served(init: Envelope, key: Key, peerNodeId: string, hostId: string, time: u64, nonceText: string,
                           response: Envelope)

  datatype Network = Network(host: HostState, connects: seq<Connect>, accepts: seq<Served>)

  datatype Event =
    | Dialled(nonce: Nonce, timestamp: u64, supplied: Result<Nonce, CryptoError>)
    | Delivered(attempt: Attempt)
    | Answered(call: nat, response: Envelope, now: u64)
    | HostRestarted

  /** Somebody honest put this ciphertext on the network. */
  ghost predicate OnNetwork(n: Network, c: Cipher) {
    (exists i :: 0 <= i < |n.connects| && n.connects[i].init.cipher == c) ||
    (exists j :: 0 <= j < |n.accepts| && n.accepts[j].response.cipher == c)
  }

  /**
   * The network may drop, repeat, reorder, replay, re-label and make up envelopes, and may hold any
   * other key; without this Cliente's key it cannot make up a ciphertext sealed under it.
   */
  ghost predicate Deliverable(p: Parties, n: Network, e: Envelope) {
    e.cipher.Sealed? && e.cipher.key == p.key ==> OnNetwork(n, e.cipher)
  }

  ghost predicate Possible(p: Parties, n: Network, e: Event) {
    match e
    case Dialled(nonce, _, _) => forall i :: 0 <= i < |n.connects| ==> n.connects[i].nonce != nonce
    case Delivered(attempt) => Deliverable(p, n, attempt.envelope)
    case Answered(call, response, _) =>
      call < |n.connects| && n.connects[call].peer == None && Deliverable(p, n, response)
    case HostRestarted => true
  }

  function Record(h: HostState, a: Attempt): (r: seq<Served>)
    ensures |r| <= 1
  {
    match FirstMatch(a.envelope, a.candidates, a.envelope.nodeId)
    case None => []
    case Some(found) =>
      match ParseMessage(found.plaintext)
      case Err(_) => []
      case Ok(init) =>
        match Serve(h, a).response
        case None => []
        case Some(response) =>
          if !HasNonce(init) then []
          else [Served(a.envelope, found.key, init.nodeId, h.nodeId, a.now, init.nonce, response)]
  }

  function React(p: Parties, n: Network, e: Event): Network {
    match e
    case Dialled(nonce, timestamp, supplied) =>
      (match Dial(p.key, p.clientId, timestamp, nonce, supplied)
       case Err(_) => n
       case Ok(init) => n.(connects := n.connects + [Connect(nonce, timestamp, init, None)]))
    case Delivered(attempt) =>
      n.(host := Serve(n.host, attempt).host, accepts := n.accepts + Record(n.host, attempt))
    case Answered(call, response, now) =>
      if call >= |n.connects| then n
      else
        (match Finish(p.key, p.expectedHost, n.connects[call].nonce, response, now)
         case Err(_) => n
         case Ok(peer) => n.(connects := n.connects[call := n.connects[call].(peer := Some(peer))]))
    case HostRestarted => n.(host := n.host.(seen := map[], sessions := map[]))
  }

  /** An event that cannot happen changes nothing. */
  ghost function Proceed(p: Parties, n: Network, e: Event): Network {
    if Possible(p, n, e) then React(p, n, e) else n
  }

  ghost function Proceeding(p: Parties): (Network, Event) -> Network {
    (n, e) => Proceed(p, n, e)
  }

  ghost function NetworkAt(p: Parties, host: HostState, events: seq<Event>, n: nat): Network
    requires n <= |events|
  {
    Runs.StateAt(Proceeding(p), Network(host, [], []), events, n)
  }

  lemma NextNetwork(p: Parties, host: HostState, events: seq<Event>, n: nat)
    requires n < |events|
    ensures NetworkAt(p, host, events, n + 1) == Proceed(p, NetworkAt(p, host, events, n), events[n])
  {}

  /** This acceptance opened the init of this very call and echoed its nonce. */
  predicate Matches(p: Parties, a: Served, c: Connect) {
    a.key == p.key && a.init == c.init && a.peerNodeId == p.clientId && a.nonceText == Hex(c.nonce)
  }

  ghost predicate HasMatch(p: Parties, n: Network, c: Connect) {
    exists j :: 0 <= j < |n.accepts| && Matches(p, n.accepts[j], c)
  }

  ghost predicate ConnectInv(p: Parties, c: Connect) {
    Seal(p.key, Cliente, p.clientId, c.init.nonce, EncodeMessage(Init(p.clientId, c.timestamp, c.nonce))) == Ok(c.init)
  }

  ghost predicate ServedInv(p: Parties, n: Network, a: Served) {
    && Seal(a.key, Host, a.hostId, a.response.nonce, EncodeMessage(Answer(a.hostId, a.time, a.nonceText))) ==
      Ok(a.response)
    && ValidNonce(a.nonceText)
    && (a.key == p.key ==> exists i :: 0 <= i < |n.connects| && Matches(p, a, n.connects[i]))
  }

  ghost predicate CallsInv(p: Parties, n: Network) {
    && (forall i, j :: 0 <= i < j < |n.connects| ==> n.connects[i].nonce != n.connects[j].nonce)
    && (forall i {:trigger ConnectInv(p, n.connects[i])} :: 0 <= i < |n.connects| ==> ConnectInv(p, n.connects[i]))
  }

  ghost predicate FinishedInv(p: Parties, n: Network) {
    forall i {:trigger HasMatch(p, n, n.connects[i])} :: 0 <= i < |n.connects| && n.connects[i].peer.Some? ==>
      n.connects[i].peer == Some(p.expectedHost) && HasMatch(p, n, n.connects[i])
  }

  ghost predicate Inv(p: Parties, n: Network) {
    && CallsInv(p, n)
    && (forall j {:trigger ServedInv(p, n, n.accepts[j])} :: 0 <= j < |n.accepts| ==> ServedInv(p, n, n.accepts[j]))
    && FinishedInv(p, n)
  }

  predicate SameCall(c: Connect, d: Connect) {
    c.nonce == d.nonce && c.timestamp == d.timestamp && c.init == d.init
  }

  /** What was matched stays matched when calls and acceptances are added and calls learn their peer. */
  lemma MatchesSurvive(p: Parties, n: Network, after: Network)
    requires |n.accepts| <= |after.accepts| && forall j :: 0 <= j < |n.accepts| ==> after.accepts[j] == n.accepts[j]
    requires |n.connects| <= |after.connects|
    requires forall i :: 0 <= i < |n.connects| ==> SameCall(n.connects[i], after.connects[i])
    ensures forall j {:trigger ServedInv(p, after, after.accepts[j])} ::
      0 <= j < |n.accepts| && ServedInv(p, n, n.accepts[j]) ==> ServedInv(p, after, after.accepts[j])
    ensures forall i {:trigger HasMatch(p, after, after.connects[i])} ::
      0 <= i < |n.connects| && HasMatch(p, n, n.connects[i]) ==> HasMatch(p, after, after.connects[i])
  {
    forall j | 0 <= j < |n.accepts| && ServedInv(p, n, n.accepts[j]) ensures ServedInv(p, after, after.accepts[j]) {
      if n.accepts[j].key == p.key {
        var i :| 0 <= i < |n.connects| && Matches(p, n.accepts[j], n.connects[i]);
        assert Matches(p, after.accepts[j], after.connects[i]);
      }
    }
    forall i | 0 <= i < |n.connects| && HasMatch(p, n, n.connects[i]) ensures HasMatch(p, after, after.connects[i]) {
      var j :| 0 <= j < |n.accepts| && Matches(p, n.accepts[j], n.connects[i]);
      assert Matches(p, after.accepts[j], after.connects[i]);
    }
  }

  lemma DialKeepsInv(p: Parties, n: Network, e: Event)
    requires Inv(p, n) && e.Dialled? && Possible(p, n, e)
    ensures Inv(p, React(p, n, e))
  {
    var dialled := Dial(p.key, p.clientId, e.timestamp, e.nonce, e.supplied);
    if dialled.Ok? {
      CallingKeepsInv(p, n, Connect(e.nonce, e.timestamp, dialled.value, None));
    }
  }

  lemma CallingKeepsInv(p: Parties, n: Network, c: Connect)
    requires Inv(p, n) && ConnectInv(p, c) && c.peer == None
    requires forall i :: 0 <= i < |n.connects| ==> n.connects[i].nonce != c.nonce
    ensures Inv(p, n.(connects := n.connects + [c]))
  {
    var after := n.(connects := n.connects + [c]);
    MatchesSurvive(p, n, after);
    forall i | 0 <= i < |after.connects| ensures ConnectInv(p, after.connects[i]) {
      assert i < |n.connects| ==> ConnectInv(p, n.connects[i]);
    }
    forall j | 0 <= j < |after.accepts| ensures ServedInv(p, after, after.accepts[j]) {
      assert ServedInv(p, n, n.accepts[j]);
    }
    forall i | 0 <= i < |after.connects| && after.connects[i].peer.Some?
      ensures after.connects[i].peer == Some(p.expectedHost) && HasMatch(p, after, after.connects[i])
    {
      assert HasMatch(p, n, n.connects[i]);
    }
  }

  /** An init that opens under the Cliente's key is one that the Cliente's own calls sealed. */
  lemma OpenedInitIsDialled(p: Parties, n: Network, e: Envelope, plaintext: seq<byte>) returns (i: nat)
    requires Inv(p, n) && Deliverable(p, n, e) && Open(e, p.key, Cliente, e.nodeId) == Ok(plaintext)
    ensures i < |n.connects| && e == n.connects[i].init
    ensures plaintext == EncodeMessage(Init(p.clientId, n.connects[i].timestamp, n.connects[i].nonce))
  {
    if j :| 0 <= j < |n.accepts| && n.accepts[j].response.cipher == e.cipher {
      assert ServedInv(p, n, n.accepts[j]);
      AssociatedDataInjective(Host, n.accepts[j].hostId, Cliente, e.nodeId);
    }
    i :| 0 <= i < |n.connects| && n.connects[i].init.cipher == e.cipher;
    assert ConnectInv(p, n.connects[i]);
    AssociatedDataInjective(Cliente, p.clientId, Cliente, e.nodeId);
  }

  lemma RecordedIsServed(p: Parties, n: Network, a: Attempt)
    requires Inv(p, n) && Deliverable(p, n, a.envelope) && Record(n.host, a) != []
    ensures ServedInv(p, n, Record(n.host, a)[0])
  {
    var found := FirstMatch(a.envelope, a.candidates, a.envelope.nodeId).value;
    FirstMatchIsCandidate(a.envelope, a.candidates, a.envelope.nodeId);
    ParsedIsValid(found.plaintext);
    if found.key == p.key {
      var i := OpenedInitIsDialled(p, n, a.envelope, found.plaintext);
      var c := n.connects[i];
      assert ConnectInv(p, c);
      HexNonceIsValid(c.nonce);
      MessageRoundTrip(Init(p.clientId, c.timestamp, c.nonce));
      assert Matches(p, Record(n.host, a)[0], c);
    }
  }

  lemma ServeKeepsInv(p: Parties, n: Network, a: Attempt)
    requires Inv(p, n) && Deliverable(p, n, a.envelope)
    ensures Inv(p, React(p, n, Delivered(a)))
  {
    var record := Record(n.host, a);
    if record != [] {
      RecordedIsServed(p, n, a);
    }
    RecordingKeepsInv(p, n, Serve(n.host, a).host, record);
  }

  lemma RecordingKeepsInv(p: Parties, n: Network, host: HostState, record: seq<Served>)
    requires Inv(p, n) && |record| <= 1 && (record != [] ==> ServedInv(p, n, record[0]))
    ensures Inv(p, n.(host := host, accepts := n.accepts + record))
  {
    var after := n.(host := host, accepts := n.accepts + record);
    MatchesSurvive(p, n, after);
    forall j | 0 <= j < |after.accepts| ensures ServedInv(p, after, after.accepts[j]) {
      if j < |n.accepts| {
        assert ServedInv(p, n, n.accepts[j]);
      }
    }
    forall i | 0 <= i < |after.connects| && after.connects[i].peer.Some?
      ensures after.connects[i].peer == Some(p.expectedHost) && HasMatch(p, after, after.connects[i])
    {
      assert HasMatch(p, n, n.connects[i]);
    }
    forall i | 0 <= i < |after.connects| ensures ConnectInv(p, after.connects[i]) {
      assert ConnectInv(p, n.connects[i]);
    }
  }

  /** A response that opens under the Cliente's key is one that the Host sealed for it. */
  lemma OpenedResponseIsServed(p: Parties, n: Network, response: Envelope, plaintext: seq<byte>) returns (j: nat)
    requires Inv(p, n) && Deliverable(p, n, response) && Open(response, p.key, Host, p.expectedHost) == Ok(plaintext)
    ensures j < |n.accepts| && n.accepts[j].key == p.key && response == n.accepts[j].response
    ensures var a := n.accepts[j];
      ValidNodeId(a.hostId) && ValidNonce(a.nonceText)
        && plaintext == EncodeMessage(Answer(a.hostId, a.time, a.nonceText))
  {
    if i :| 0 <= i < |n.connects| && n.connects[i].init.cipher == response.cipher {
      assert ConnectInv(p, n.connects[i]);
      AssociatedDataInjective(Cliente, p.clientId, Host, p.expectedHost);
    }
    j :| 0 <= j < |n.accepts| && n.accepts[j].response.cipher == response.cipher;
    assert ServedInv(p, n, n.accepts[j]);
    AssociatedDataInjective(Host, n.accepts[j].hostId, Host, p.expectedHost);
  }

  lemma MatchIsUnique(p: Parties, n: Network, a: Served, call: nat)
    requires Inv(p, n) && ServedInv(p, n, a) && a.key == p.key
    requires call < |n.connects| && a.nonceText == Hex(n.connects[call].nonce)
    ensures Matches(p, a, n.connects[call])
  {
    var i :| 0 <= i < |n.connects| && Matches(p, a, n.connects[i]);
    HexInjective(n.connects[i].nonce, n.connects[call].nonce);
    assert i == call;
  }

  /** A response that completes a call was sent by an acceptance that matches this very call. */
  lemma FinishedCallIsMatched(p: Parties, n: Network, call: nat, response: Envelope, now: u64)
    requires Inv(p, n) && call < |n.connects| && Deliverable(p, n, response)
    requires Finish(p.key, p.expectedHost, n.connects[call].nonce, response, now).Ok?
    ensures Finish(p.key, p.expectedHost, n.connects[call].nonce, response, now) == Ok(p.expectedHost)
    ensures HasMatch(p, n, n.connects[call])
  {
    var plaintext := Open(response, p.key, Host, p.expectedHost).value;
    var j := OpenedResponseIsServed(p, n, response, plaintext);
    var a := n.accepts[j];
    MessageRoundTrip(Answer(a.hostId, a.time, a.nonceText));
    MatchIsUnique(p, n, a, call);
  }

  function Learn(p: Parties, n: Network, call: nat): Network
    requires call < |n.connects|
  {
    n.(connects := n.connects[call := n.connects[call].(peer := Some(p.expectedHost))])
  }

  lemma LearnKeepsCalls(p: Parties, n: Network, call: nat)
    requires CallsInv(p, n) && call < |n.connects|
    ensures CallsInv(p, Learn(p, n, call))
    ensures forall i :: 0 <= i < |n.connects| ==> SameCall(n.connects[i], Learn(p, n, call).connects[i])
  {
    forall i | 0 <= i < |n.connects| ensures ConnectInv(p, Learn(p, n, call).connects[i]) {
      assert ConnectInv(p, n.connects[i]);
    }
  }

  lemma LearnKeepsFinished(p: Parties, n: Network, call: nat)
    requires FinishedInv(p, n) && call < |n.connects| && HasMatch(p, n, n.connects[call])
    ensures FinishedInv(p, Learn(p, n, call))
  {
    var after := Learn(p, n, call);
    MatchesSurvive(p, n, after);
    forall i | 0 <= i < |after.connects| && after.connects[i].peer.Some?
      ensures after.connects[i].peer == Some(p.expectedHost) && HasMatch(p, after, after.connects[i])
    {
      assert HasMatch(p, n, n.connects[i]);
    }
  }

  lemma LearnKeepsInv(p: Parties, n: Network, call: nat)
    requires Inv(p, n) && call < |n.connects| && HasMatch(p, n, n.connects[call])
    ensures Inv(p, Learn(p, n, call))
  {
    var after := Learn(p, n, call);
    LearnKeepsCalls(p, n, call);
    LearnKeepsFinished(p, n, call);
    MatchesSurvive(p, n, after);
    forall j | 0 <= j < |after.accepts| ensures ServedInv(p, after, after.accepts[j]) {
      assert ServedInv(p, n, n.accepts[j]);
    }
  }

  lemma FinishKeepsInv(p: Parties, n: Network, call: nat, response: Envelope, now: u64)
    requires Inv(p, n) && Possible(p, n, Answered(call, response, now))
    ensures Inv(p, React(p, n, Answered(call, response, now)))
  {
    if Finish(p.key, p.expectedHost, n.connects[call].nonce, response, now).Ok? {
      FinishedCallIsMatched(p, n, call, response, now);
      LearnKeepsInv(p, n, call);
      assert React(p, n, Answered(call, response, now)) == Learn(p, n, call);
    } else {
      assert React(p, n, Answered(call, response, now)) == n;
    }
  }

  lemma RestartKeepsInv(p: Parties, n: Network)
    requires Inv(p, n)
    ensures Inv(p, React(p, n, HostRestarted))
  {
    assert n.accepts + [] == n.accepts;
    RecordingKeepsInv(p, n, n.host.(seen := map[], sessions := map[]), []);
  }

  lemma PossibleStepKeepsInv(p: Parties, n: Network, e: Event)
    requires Inv(p, n) && Possible(p, n, e)
    ensures Inv(p, React(p, n, e))
  {
    match e {
      case Dialled(_, _, _) => DialKeepsInv(p, n, e);
      case Delivered(attempt) => ServeKeepsInv(p, n, attempt);
      case Answered(call, response, now) => FinishKeepsInv(p, n, call, response, now);
      case HostRestarted => RestartKeepsInv(p, n);
    }
  }

  lemma Reachable(p: Parties, host: HostState, events: seq<Event>, n: nat)
    requires n <= |events|
    ensures Inv(p, NetworkAt(p, host, events, n))
  {
    forall net: Network, i | 0 <= i < n && Inv(p, net) ensures Inv(p, Proceeding(p)(net, events[i])) {
      if Possible(p, net, events[i]) {
        PossibleStepKeepsInv(p, net, events[i]);
      }
    }
    Runs.KeptBetween(Proceeding(p), Network(host, [], []), events, 0, n, (net: Network) => Inv(p, net));
  }

  /**
   * Agreement: whenever `connect` has returned a stream, the Host ran an `accept` that opened the
   * init of this very call under the same key, took the Cliente's own id for its peer and echoed
   * this call's nonce; and the peer is the Host the Cliente expected.
   */
  lemma HandshakeAgreement(p: Parties, host: HostState, events: seq<Event>, n: nat, call: nat)
    requires n <= |events| && call < |NetworkAt(p, host, events, n).connects|
    requires NetworkAt(p, host, events, n).connects[call].peer.Some?
    ensures var net := NetworkAt(p, host, events, n); var c := net.connects[call];
      && c.peer == Some(p.expectedHost)
      && exists j :: 0 <= j < |net.accepts| && Matches(p, net.accepts[j], c)
  {
    Reachable(p, host, events, n);
    assert HasMatch(p, NetworkAt(p, host, events, n), NetworkAt(p, host, events, n).connects[call]);
  }

  /** No acceptance answers two calls. */
  lemma AgreementIsInjective(p: Parties, host: HostState, events: seq<Event>, n: nat, call: nat, other: nat, j: nat)
    requires n <= |events|
    requires var net := NetworkAt(p, host, events, n);
      && call < |net.connects| && other < |net.connects| && j < |net.accepts|
      && Matches(p, net.accepts[j], net.connects[call]) && Matches(p, net.accepts[j], net.connects[other])
    ensures call == other
  {
    Reachable(p, host, events, n);
    var net := NetworkAt(p, host, events, n);
    HexInjective(net.connects[call].nonce, net.connects[other].nonce);
  }
}
