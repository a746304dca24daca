/**
 * The registry in use. The accept thread looks up candidates and binds in two separate steps, a request
 * for an invitation reads the address pool and adds its slot in two separate steps, and all of them
 * interleave with removals and restarts of the Host.
 */
module RegistryRuns {
  import opened Wrappers
  import opened Sequences
  import opened Utf8
  import opened Numbers
  import opened Messages
  import opened TransportKeys
  import opened Handshake
  import Nonces
  import opened HostRegistry
  import opened Runs

  /**
   * `accepted` is the session the accept thread has still to bind, `reserved` the slots of requests
   * that have read the pool and not yet added them; `ids` and `secrets` list all that were ever drawn.
   */
  datatype System = System(
    entries: seq<HostPeerEntry>, host: HostState, accepted: Option<Session>, reserved: seq<HostPeerEntry>,
    ids: set<string>, secrets: set<string>)

  /** `Abandon` is a request that ends between its two steps. */
  datatype Event =
    | Reserve(id: string, key: Key, networkPrefix: string, created: u64)
    | Add(k: nat)
    | Abandon(k: nat)
    | RemovePeer(id: string)
    | Accept(attempt: Attempt)
    | Bind
    | Restart

  function Resolved(entries: seq<HostPeerEntry>, a: Attempt): Attempt {
    a.(candidates := Keys(CandidatesFor(entries, a.envelope.nodeId)))
  }

  /** The slot that a request sets aside when it has read the pool. */
  function Slot(entries: seq<HostPeerEntry>, id: string, key: Key, networkPrefix: string, created: u64): HostPeerEntry {
    NewPending(id, StoredForm(key), Address(networkPrefix, NextOctet(entries)), created)
  }

  function Step(s: System, e: Event): System {
    match e
    case Reserve(id, key, networkPrefix, created) =>
      s.(reserved := s.reserved + [Slot(s.entries, id, key, networkPrefix, created)],
         ids := s.ids + {id}, secrets := s.secrets + {StoredForm(key)})
    case Add(k) =>
      if k >= |s.reserved| then s
      else s.(entries := s.entries + [s.reserved[k]], reserved := s.reserved[..k] + s.reserved[k + 1..])
    case Abandon(k) =>
      if k >= |s.reserved| then s else s.(reserved := s.reserved[..k] + s.reserved[k + 1..])
    case RemovePeer(id) => s.(entries := Without(s.entries, id))
    case Accept(attempt) => if s.accepted.Some? then s else Accepted(s, attempt)
    case Bind => if s.accepted == None then s else Tied(s, s.accepted.value)
    case Restart => s.(host := s.host.(seen := map[], sessions := map[]), accepted := None, reserved := [])
  }

  function Accepted(s: System, attempt: Attempt): System {
    var outcome := Serve(s.host, Resolved(s.entries, attempt));
    s.(host := outcome.host, accepted := if outcome.result.Ok? then Some(outcome.result.value) else None)
  }

  function Tied(s: System, session: Session): System {
    s.(accepted := None,
       entries := match session.matchedKeyTag
         case None => s.entries
         case Some(tag) => Bound(s.entries, tag, session.peerNodeId))
  }

  /** What opens from this envelope, under whatever key, names the id in the envelope's header. */
  predicate HonestInit(e: Envelope) {
    e.cipher.Sealed? ==>
      match ParseMessage(e.cipher.plaintext)
      case Ok(HandshakeInit(nodeId, _, _)) => nodeId == e.nodeId
      case _ => true
  }

  /** Everything `connect` sends is honest in this sense. */
  lemma DialledIsHonest(key: Key, clientId: string, timestamp: u64, nonce: Nonces.Nonce, supplied: Nonces.Nonce)
    requires Dial(key, clientId, timestamp, nonce, Ok(supplied)).Ok?
    ensures HonestInit(Dial(key, clientId, timestamp, nonce, Ok(supplied)).value)
  {
    HexNonceIsValid(nonce);
    MessageRoundTrip(Init(clientId, timestamp, nonce));
  }

  /** Ids and secrets are random and never drawn twice; inits come from `connect`. */
  predicate Possible(s: System, e: Event) {
    match e
    case Reserve(id, key, _, _) => id != "" && id !in s.ids && |key| == 32 && StoredForm(key) !in s.secrets
    case Accept(attempt) => HonestInit(attempt.envelope)
    case _ => true
  }

  function Advance(s: System, e: Event): System {
    if Possible(s, e) then Step(s, e) else s
  }

  function Start(host: HostState): System {
    System([], host, None, [], {}, {})
  }

  function SystemAt(host: HostState, events: seq<Event>, n: nat): System
    requires n <= |events|
  {
    StateAt(Advance, Start(host), events, n)
  }

  lemma NextSystem(host: HostState, events: seq<Event>, n: nat)
    requires n < |events|
    ensures SystemAt(host, events, n + 1) == Advance(SystemAt(host, events, n), events[n])
  {}

  // ----- what every step keeps -----

  predicate Apart(a: HostPeerEntry, b: HostPeerEntry) {
    && a.invitationId != b.invitationId && a.invitationSecret != b.invitationSecret
    && (a.nodeId.Some? ==> a.nodeId != b.nodeId)
  }

  /** The one spelling of a key that `StoredForm` prints; reading accepts others too. */
  predicate Canonical(secret: string) {
    KeyOfStored(secret).Some? && StoredForm(KeyOfStored(secret).value) == secret
  }

  predicate Registered(s: System, e: HostPeerEntry) {
    e.invitationId in s.ids && e.invitationId != "" && e.invitationSecret in s.secrets && !e.revoked
      && Canonical(e.invitationSecret)
  }

  ghost predicate AllApart(entries: seq<HostPeerEntry>) {
    forall i, j {:trigger entries[i], entries[j]} :: 0 <= i < j < |entries| ==> Apart(entries[i], entries[j])
  }

  ghost predicate TagFits(entries: seq<HostPeerEntry>, session: Session) {
    && session.matchedKeyTag.Some?
    && forall e :: e in entries && e.nodeId == Some(session.peerNodeId) ==>
      Some(e.invitationId) == session.matchedKeyTag
  }

  /** All slots, those of unfinished requests included. */
  function Issued(s: System): seq<HostPeerEntry> {
    s.entries + s.reserved
  }

  ghost predicate Inv(s: System) {
    && AllApart(Issued(s))
    && (forall e :: e in Issued(s) ==> Registered(s, e))
    && (forall e :: e in s.reserved ==> e.nodeId == None)
    && (s.accepted.Some? ==> TagFits(s.entries, s.accepted.value))
  }

  /** A list whose members stand at different places of a list of slots apart has its slots apart. */
  lemma ChosenAreApart(all: seq<HostPeerEntry>, chosen: seq<HostPeerEntry>, place: seq<nat>)
    requires AllApart(all) && |place| == |chosen|
    requires forall i :: 0 <= i < |place| ==> place[i] < |all| && all[place[i]] == chosen[i]
    requires forall i, j :: 0 <= i < j < |place| ==> place[i] != place[j]
    ensures AllApart(chosen)
  {
    forall i, j | 0 <= i < j < |chosen| ensures Apart(chosen[i], chosen[j]) {
      assert place[i] < place[j] || place[j] < place[i];
    }
  }

  lemma ReserveKeepsInv(s: System, e: Event)
    requires Inv(s) && e.Reserve? && Possible(s, e)
    ensures Inv(Step(s, e))
  {
    var after := Step(s, e);
    StoredKeyReadsBack(e.key);
    assert Issued(after) == Issued(s) + [after.reserved[|s.reserved|]];
    forall i, j | 0 <= i < j < |Issued(after)| ensures Apart(Issued(after)[i], Issued(after)[j]) {
      assert Issued(after)[i] in Issued(s);
    }
  }

  /** The places in `Issued` of what remains, and of the slot that moves. */
  lemma AddKeepsApart(entries: seq<HostPeerEntry>, reserved: seq<HostPeerEntry>, k: nat)
    requires AllApart(entries + reserved) && k < |reserved|
    ensures AllApart(entries + [reserved[k]] + (reserved[..k] + reserved[k + 1..]))
  {
    var n := |entries|;
    var chosen := entries + [reserved[k]] + (reserved[..k] + reserved[k + 1..]);
    var place := seq(|chosen|, i requires 0 <= i < |chosen| =>
      if i < n then i else if i == n then n + k else if i <= n + k then i - 1 else i);
    ChosenAreApart(entries + reserved, chosen, place);
  }

  lemma AbandonKeepsApart(entries: seq<HostPeerEntry>, reserved: seq<HostPeerEntry>, k: nat)
    requires AllApart(entries + reserved) && k < |reserved|
    ensures AllApart(entries + (reserved[..k] + reserved[k + 1..]))
  {
    var n := |entries|;
    var chosen := entries + (reserved[..k] + reserved[k + 1..]);
    var place := seq(|chosen|, i requires 0 <= i < |chosen| => if i < n + k then i else i + 1);
    ChosenAreApart(entries + reserved, chosen, place);
  }

  lemma AddKeepsInv(s: System, k: nat)
    requires Inv(s)
    ensures Inv(Step(s, Add(k)))
  {
    if k < |s.reserved| {
      var after := Step(s, Add(k));
      AddKeepsApart(s.entries, s.reserved, k);
      assert s.reserved[k] in s.reserved;
      forall e | e in Issued(after) ensures Registered(after, e) {
        assert e in Issued(s);
        assert Registered(s, e);
      }
    }
  }

  lemma AbandonKeepsInv(s: System, k: nat)
    requires Inv(s)
    ensures Inv(Step(s, Abandon(k)))
  {
    if k < |s.reserved| {
      var after := Step(s, Abandon(k));
      AbandonKeepsApart(s.entries, s.reserved, k);
      forall e | e in Issued(after) ensures Registered(after, e) {
        assert e in Issued(s);
        assert Registered(s, e);
      }
    }
  }

  lemma RemoveKeepsApart(entries: seq<HostPeerEntry>, reserved: seq<HostPeerEntry>, id: string)
    requires AllApart(entries + reserved)
    ensures AllApart(Without(entries, id) + reserved)
  {
    var kept := Without(entries, id);
    var all := entries + reserved;
    var chosen := kept + reserved;
    forall i, j | 0 <= i < j < |chosen| ensures Apart(chosen[i], chosen[j]) {
      if j < |kept| {
        var i', j' := FilterPairs(entries, e => Survives(e, id), i, j);
        assert Apart(all[i'], all[j']);
      } else {
        var j' := |entries| + (j - |kept|);
        assert all[j'] == chosen[j];
        if i < |kept| {
          FilterMembers(entries, e => Survives(e, id));
          assert kept[i] in entries;
          var i' :| 0 <= i' < |entries| && entries[i'] == kept[i];
          assert Apart(all[i'], all[j']);
        } else {
          assert Apart(all[|entries| + (i - |kept|)], all[j']);
        }
      }
    }
  }

  lemma RemoveKeepsInv(s: System, id: string)
    requires Inv(s)
    ensures Inv(Step(s, RemovePeer(id)))
  {
    var after := Step(s, RemovePeer(id));
    RemoveKeepsApart(s.entries, s.reserved, id);
    FilterMembers(s.entries, e => Survives(e, id));
    forall e | e in Issued(after) ensures Registered(after, e) {
      assert e in Issued(s);
      assert Registered(s, e);
    }
  }

  /** What opened an envelope is the key of an offered slot, and the tag is that slot's id. */
  lemma MatchComesFromOffer(e: Envelope, offers: seq<(string, string)>, claimed: string)
    returns (offer: (string, string))
    requires FirstMatch(e, Keys(offers), claimed).Some?
    ensures var found := FirstMatch(e, Keys(offers), claimed).value;
      && offer in offers && KeyOfStored(offer.1) == Some(found.key)
      && Open(e, found.key, Cliente, claimed) == Ok(found.plaintext)
      && found.tag == if offer.0 == "" then None else Some(offer.0)
  {
    FirstMatchIsCandidate(e, Keys(offers), claimed);
    var found := FirstMatch(e, Keys(offers), claimed).value;
    var i :| 0 <= i < |Keys(offers)| && Keys(offers)[i].1 == found.key
      && found.tag == if Keys(offers)[i].0 == "" then None else Some(Keys(offers)[i].0);
    KeysComeFromOffers(offers, i);
    offer :| offer in offers && offer.0 == Keys(offers)[i].0 && KeyOfStored(offer.1) == Some(Keys(offers)[i].1);
  }

  /** The tag of any session, honest or not, names a slot that offered the key that opened its init. */
  lemma TagComesFromOffer(s: System, a: Attempt) returns (offer: (string, string))
    requires Inv(s) && Serve(s.host, Resolved(s.entries, a)).result.Ok?
    ensures offer in CandidatesFor(s.entries, a.envelope.nodeId)
    ensures Serve(s.host, Resolved(s.entries, a)).result.value.matchedKeyTag == Some(offer.0)
    ensures a.envelope.cipher.Sealed? && KeyOfStored(offer.1) == Some(a.envelope.cipher.key)
  {
    SessionIsOpened(s.host, Resolved(s.entries, a));
    offer := MatchComesFromOffer(a.envelope, CandidatesFor(s.entries, a.envelope.nodeId), a.envelope.nodeId);
    OfferIsRegistered(s, a.envelope.nodeId, offer);
  }

  /** A session's tag names a slot that offered its key, and its peer is the id the lookup was for. */
  lemma SessionComesFromOffer(s: System, a: Attempt) returns (offer: (string, string))
    requires Inv(s) && HonestInit(a.envelope) && Serve(s.host, Resolved(s.entries, a)).result.Ok?
    ensures offer in CandidatesFor(s.entries, a.envelope.nodeId)
    ensures Serve(s.host, Resolved(s.entries, a)).result == Ok(Session(a.envelope.nodeId, Some(offer.0)))
    ensures a.envelope.cipher.Sealed? && KeyOfStored(offer.1) == Some(a.envelope.cipher.key)
  {
    offer := TagComesFromOffer(s, a);
    SessionIsOpened(s.host, Resolved(s.entries, a));
    var found := FirstMatch(a.envelope, Keys(CandidatesFor(s.entries, a.envelope.nodeId)), a.envelope.nodeId).value;
    FirstMatchIsCandidate(a.envelope, Keys(CandidatesFor(s.entries, a.envelope.nodeId)), a.envelope.nodeId);
    OpenedInitNamesHeader(a.envelope, found.key, found.plaintext);
  }

  lemma OpenedInitNamesHeader(e: Envelope, key: Key, plaintext: seq<byte>)
    requires HonestInit(e) && Open(e, key, Cliente, e.nodeId) == Ok(plaintext)
    requires ParseMessage(plaintext).Ok? && ParseMessage(plaintext).value.HandshakeInit?
    ensures ParseMessage(plaintext).value.nodeId == e.nodeId
  {}

  /** The slot behind an offer: bound to the one who asks, if any is, and pending otherwise. */
  predicate OffersTo(s: System, e: HostPeerEntry, claimed: string, offer: (string, string)) {
    && Offer(e) == offer && e.invitationId != ""
    && e.nodeId == if FindBound(s.entries, claimed).Some? then Some(claimed) else None
  }

  lemma OfferIsRegistered(s: System, claimed: string, offer: (string, string))
    requires Inv(s) && offer in CandidatesFor(s.entries, claimed)
    ensures exists e :: e in s.entries && OffersTo(s, e, claimed, offer)
  {
    match FindBound(s.entries, claimed) {
      case Some(e) =>
        assert Registered(s, e) by { assert e in Issued(s); }
        assert e in s.entries && OffersTo(s, e, claimed, offer);
      case None =>
        assert offer in PendingOffers(s.entries);
        var e :| e in s.entries && e.nodeId == None && !e.revoked && Offer(e) == offer;
        assert Registered(s, e) by { assert e in Issued(s); }
        assert OffersTo(s, e, claimed, offer);
    }
  }

  lemma SlotsAreApart(s: System, a: HostPeerEntry, b: HostPeerEntry)
    requires AllApart(Issued(s)) && a in Issued(s) && b in Issued(s)
    ensures a == b || Apart(a, b) || Apart(b, a)
  {
    var i :| 0 <= i < |Issued(s)| && Issued(s)[i] == a;
    var j :| 0 <= j < |Issued(s)| && Issued(s)[j] == b;
    assert i == j || i < j || j < i;
  }

  /** One key opens for one slot only. */
  lemma OfferOfKeyIsSlot(s: System, slot: HostPeerEntry, claimed: string, offer: (string, string), key: Key)
    requires Inv(s) && slot in s.entries && slot.invitationSecret == StoredForm(key)
    requires offer in CandidatesFor(s.entries, claimed) && KeyOfStored(offer.1) == Some(key)
    ensures offer.0 == slot.invitationId
  {
    OfferIsRegistered(s, claimed, offer);
    var x :| x in s.entries && OffersTo(s, x, claimed, offer);
    assert x in Issued(s) && slot in Issued(s);
    assert Registered(s, x);
    SlotsAreApart(s, x, slot);
  }

  lemma BoundIsFound(s: System, e: HostPeerEntry)
    requires Inv(s) && e in s.entries && e.nodeId.Some?
    ensures FindBound(s.entries, e.nodeId.value) == Some(e)
    ensures CandidatesFor(s.entries, e.nodeId.value) == [Offer(e)]
  {
    assert e in Issued(s);
    assert Registered(s, e);
    assert FindBound(s.entries, e.nodeId.value).value in Issued(s);
    SlotsAreApart(s, e, FindBound(s.entries, e.nodeId.value).value);
  }

  lemma AcceptKeepsInv(s: System, a: Attempt)
    requires Inv(s) && HonestInit(a.envelope)
    ensures Inv(Step(s, Accept(a)))
  {
    var outcome := Serve(s.host, Resolved(s.entries, a));
    if s.accepted == None && outcome.result.Ok? {
      var offer := SessionComesFromOffer(s, a);
      forall e | e in s.entries && e.nodeId == Some(a.envelope.nodeId) ensures e.invitationId == offer.0 {
        BoundIsFound(s, e);
      }
      assert TagFits(s.entries, outcome.result.value);
    }
  }

  lemma BindKeepsApart(s: System, session: Session)
    requires Inv(s) && TagFits(s.entries, session)
    ensures AllApart(Issued(Tied(s, session)))
  {
    var after := Issued(Tied(s, session));
    forall i, j | 0 <= i < j < |after| ensures Apart(after[i], after[j]) {
      assert Apart(Issued(s)[i], Issued(s)[j]);
      assert Issued(s)[i] in Issued(s) && Issued(s)[j] in Issued(s);
      assert i < |s.entries| ==> s.entries[i] in s.entries;
      assert j < |s.entries| ==> s.entries[j] in s.entries;
      assert j >= |s.entries| ==> s.reserved[j - |s.entries|] in s.reserved;
    }
  }

  lemma BindKeepsInv(s: System)
    requires Inv(s)
    ensures Inv(Step(s, Bind))
  {
    if s.accepted.Some? {
      var after := Step(s, Bind);
      BindKeepsApart(s, s.accepted.value);
      BindKeepsRegistered(s, s.accepted.value);
    }
  }

  lemma BindKeepsRegistered(s: System, session: Session)
    requires forall e :: e in Issued(s) ==> Registered(s, e)
    ensures forall e :: e in Issued(Tied(s, session)) ==> Registered(Tied(s, session), e)
  {
    var after := Tied(s, session);
    forall e | e in Issued(after) ensures Registered(after, e) {
      var i :| 0 <= i < |Issued(after)| && Issued(after)[i] == e;
      assert Issued(s)[i] in Issued(s);
      assert Registered(s, Issued(s)[i]);
    }
  }

  lemma RestartKeepsInv(s: System)
    requires Inv(s)
    ensures Inv(Step(s, Restart))
  {
    var after := Step(s, Restart);
    forall i, j | 0 <= i < j < |Issued(after)| ensures Apart(Issued(after)[i], Issued(after)[j]) {
      assert Apart(Issued(s)[i], Issued(s)[j]);
    }
    forall e | e in Issued(after) ensures Registered(after, e) {
      assert e in Issued(s);
      assert Registered(s, e);
    }
  }

  lemma AdvanceKeepsInv(s: System, e: Event)
    requires Inv(s)
    ensures Inv(Advance(s, e))
  {
    if Possible(s, e) {
      match e {
        case Reserve(_, _, _, _) => ReserveKeepsInv(s, e);
        case Add(k) => AddKeepsInv(s, k);
        case Abandon(k) => AbandonKeepsInv(s, k);
        case RemovePeer(id) => RemoveKeepsInv(s, id);
        case Accept(attempt) => AcceptKeepsInv(s, attempt);
        case Bind => BindKeepsInv(s);
        case Restart => RestartKeepsInv(s);
      }
    }
  }

  lemma Reachable(host: HostState, events: seq<Event>, n: nat)
    requires n <= |events|
    ensures Inv(SystemAt(host, events, n))
  {
    forall s: System, i | 0 <= i < n && Inv(s) ensures Inv(Advance(s, events[i])) {
      AdvanceKeepsInv(s, events[i]);
    }
    KeptBetween(Advance, Start(host), events, 0, n, (s: System) => Inv(s));
  }

  // ----- what that means for devices -----

  /** No node id is ever bound by two slots. */
  lemma OneSlotPerDevice(host: HostState, events: seq<Event>, n: nat, i: nat, j: nat)
    requires n <= |events| && i < j < |SystemAt(host, events, n).entries|
    requires SystemAt(host, events, n).entries[i].nodeId.Some?
    ensures SystemAt(host, events, n).entries[i].nodeId != SystemAt(host, events, n).entries[j].nodeId
  {
    Reachable(host, events, n);
    var s := SystemAt(host, events, n);
    assert Apart(Issued(s)[i], Issued(s)[j]);
  }

  /** `later` is `e` itself, or `e` bound since. */
  predicate SameSlot(e: HostPeerEntry, later: HostPeerEntry) {
    && later.(nodeId := e.nodeId) == e
    && (e.nodeId.Some? ==> later.nodeId == e.nodeId)
  }

  /** Every slot with this one's id is this one. */
  ghost predicate Kept(s: System, e: HostPeerEntry) {
    && e.invitationId in s.ids
    && forall x :: x in Issued(s) && x.invitationId == e.invitationId ==> SameSlot(e, x)
  }

  lemma TieKeepsSlot(s: System, session: Session, e: HostPeerEntry)
    requires Kept(s, e)
    ensures Kept(Tied(s, session), e)
  {
    var after := Tied(s, session);
    forall x | x in Issued(after) && x.invitationId == e.invitationId ensures SameSlot(e, x) {
      var i :| 0 <= i < |Issued(after)| && Issued(after)[i] == x;
      assert Issued(s)[i] in Issued(s);
      assert Issued(s)[i].invitationId == x.invitationId;
    }
  }

  lemma AdvanceKeepsSlot(s: System, event: Event, e: HostPeerEntry)
    requires Kept(s, e)
    ensures Kept(Advance(s, event), e)
  {
    match event {
      case Bind => if s.accepted.Some? { TieKeepsSlot(s, s.accepted.value, e); }
      case RemovePeer(id) =>
        FilterMembers(s.entries, x => Survives(x, id));
        FewerSlotsKept(s, Advance(s, event), e);
      case Add(k) => if k < |s.reserved| { FewerSlotsKept(s, Advance(s, event), e); }
      case Abandon(k) => if k < |s.reserved| { FewerSlotsKept(s, Advance(s, event), e); }
      case _ =>
    }
  }

  lemma FewerSlotsKept(s: System, after: System, e: HostPeerEntry)
    requires Kept(s, e) && after.ids == s.ids && forall x :: x in Issued(after) ==> x in Issued(s)
    ensures Kept(after, e)
  {}

  /** The terms of a slot never change, a binding stays until the slot is removed, and its id never comes back. */
  lemma SlotsKeepTheirTerms(host: HostState, events: seq<Event>, n: nat, m: nat, e: HostPeerEntry)
    requires n <= m <= |events| && e in Issued(SystemAt(host, events, n))
    ensures Kept(SystemAt(host, events, m), e)
  {
    Reachable(host, events, n);
    IssuedIsKept(SystemAt(host, events, n), e);
    forall s: System, i | n <= i < m && Kept(s, e) ensures Kept(Advance(s, events[i]), e) {
      AdvanceKeepsSlot(s, events[i], e);
    }
    KeptBetween(Advance, Start(host), events, n, m, (s: System) => Kept(s, e));
  }

  lemma IssuedIsKept(s: System, e: HostPeerEntry)
    requires Inv(s) && e in Issued(s)
    ensures Kept(s, e)
  {
    assert Registered(s, e);
    forall x | x in Issued(s) && x.invitationId == e.invitationId ensures SameSlot(e, x) {
      SlotsAreApart(s, x, e);
    }
  }

  /** Once bound, a slot stays exactly as it is until it is removed, and its id never comes back. */
  lemma BindingNeverChanges(host: HostState, events: seq<Event>, n: nat, m: nat, e: HostPeerEntry)
    requires n <= m <= |events| && e in SystemAt(host, events, n).entries && e.nodeId.Some?
    ensures forall x :: x in SystemAt(host, events, m).entries && x.invitationId == e.invitationId ==> x == e
    ensures e.invitationId in SystemAt(host, events, m).ids
  {
    assert e in Issued(SystemAt(host, events, n));
    SlotsKeepTheirTerms(host, events, n, m, e);
    var s := SystemAt(host, events, m);
    forall x | x in s.entries && x.invitationId == e.invitationId ensures x == e {
      assert x in Issued(s);
    }
  }

  /** A bound slot's secret and id are offered to nobody but the device it is bound to. */
  lemma BoundSecretIsPrivate(host: HostState, events: seq<Event>, n: nat, e: HostPeerEntry, claimed: string,
                             offer: (string, string))
    requires n <= |events| && e in SystemAt(host, events, n).entries && e.nodeId.Some? && e.nodeId != Some(claimed)
    requires offer in CandidatesFor(SystemAt(host, events, n).entries, claimed)
    ensures offer.0 != e.invitationId && offer.1 != e.invitationSecret
  {
    Reachable(host, events, n);
    var s := SystemAt(host, events, n);
    OfferIsRegistered(s, claimed, offer);
    var x :| x in s.entries && OffersTo(s, x, claimed, offer);
    assert x in Issued(s) && e in Issued(s);
    SlotsAreApart(s, e, x);
  }

  /** As long as its slot exists, a bound device that connects again is recognised under the same tag. */
  lemma ReconnectKeepsTag(host: HostState, events: seq<Event>, n: nat, m: nat, e: HostPeerEntry, a: Attempt)
    requires n <= m <= |events| && e in SystemAt(host, events, n).entries && e.nodeId == Some(a.envelope.nodeId)
    requires HonestInit(a.envelope)
    ensures var s := SystemAt(host, events, m);
      var result := Serve(s.host, Resolved(s.entries, a)).result;
      (exists x :: x in s.entries && x.invitationId == e.invitationId) && result.Ok? ==>
        result == Ok(Session(a.envelope.nodeId, Some(e.invitationId)))
  {
    BindingNeverChanges(host, events, n, m, e);
    Reachable(host, events, m);
    var s := SystemAt(host, events, m);
    if x :| x in s.entries && x.invitationId == e.invitationId {
      BoundDeviceKeepsTag(s, e, a);
    }
  }

  lemma BoundDeviceKeepsTag(s: System, e: HostPeerEntry, a: Attempt)
    requires Inv(s) && e in s.entries && e.nodeId == Some(a.envelope.nodeId) && HonestInit(a.envelope)
    ensures var result := Serve(s.host, Resolved(s.entries, a)).result;
      result.Ok? ==> result == Ok(Session(a.envelope.nodeId, Some(e.invitationId)))
  {
    BoundIsFound(s, e);
    if Serve(s.host, Resolved(s.entries, a)).result.Ok? {
      var offer := SessionComesFromOffer(s, a);
    }
  }

  // ----- where honesty is needed -----

  ghost predicate NodesApart(entries: seq<HostPeerEntry>) {
    forall i, j {:trigger entries[i], entries[j]} :: 0 <= i < j < |entries| && entries[i].nodeId.Some? ==>
      entries[i].nodeId != entries[j].nodeId
  }

  /**
   * Binding a pending slot gives a node id a second slot exactly when that id already has one; the
   * registry itself does not look.
   */
  lemma BindKeepsNodesApartIff(entries: seq<HostPeerEntry>, k: nat, node: string)
    requires NodesApart(entries) && k < |entries| && entries[k].nodeId == None
    requires forall i :: 0 <= i < |entries| && i != k ==> entries[i].invitationId != entries[k].invitationId
    ensures NodesApart(Bound(entries, entries[k].invitationId, node)) <==>
      forall e :: e in entries ==> e.nodeId != Some(node)
  {
    var after := Bound(entries, entries[k].invitationId, node);
    if e :| e in entries && e.nodeId == Some(node) {
      var i :| 0 <= i < |entries| && entries[i] == e;
      assert after[i].nodeId == after[k].nodeId == Some(node);
      assert i != k;
    } else {
      forall i, j | 0 <= i < j < |after| && after[i].nodeId.Some? ensures after[i].nodeId != after[j].nodeId {
        assert entries[i] in entries && entries[j] in entries;
        assert entries[i].nodeId.Some? ==> entries[i].nodeId != entries[j].nodeId;
      }
    }
  }

  lemma EntriesAreNodesApart(s: System)
    requires Inv(s)
    ensures NodesApart(s.entries)
  {
    forall i, j | 0 <= i < j < |s.entries| && s.entries[i].nodeId.Some?
      ensures s.entries[i].nodeId != s.entries[j].nodeId
    {
      assert Apart(Issued(s)[i], Issued(s)[j]);
    }
  }

  lemma FindBoundIff(s: System, node: string)
    requires Inv(s)
    ensures FindBound(s.entries, node) == None <==> forall e :: e in s.entries ==> e.nodeId != Some(node)
  {
    forall e | e in s.entries ensures !e.revoked {
      assert e in Issued(s);
      assert Registered(s, e);
    }
  }

  lemma OnlySlotOfItsId(s: System, k: nat)
    requires Inv(s) && k < |s.entries|
    ensures forall i :: 0 <= i < |s.entries| && i != k ==> s.entries[i].invitationId != s.entries[k].invitationId
  {
    forall i | 0 <= i < |s.entries| && i != k ensures s.entries[i].invitationId != s.entries[k].invitationId {
      assert i < k ==> Apart(Issued(s)[i], Issued(s)[k]);
      assert k < i ==> Apart(Issued(s)[k], Issued(s)[i]);
    }
  }

  /**
   * A session bound under its tag leaves two slots to one id exactly when its slot is pending and its peer has
   * one already.
   */
  lemma TieKeepsNodesApartIff(s: System, slot: HostPeerEntry, peer: string)
    requires Inv(s) && slot in s.entries
    ensures NodesApart(Bound(s.entries, slot.invitationId, peer)) <==>
      slot.nodeId.Some? || FindBound(s.entries, peer) == None
  {
    var k :| 0 <= k < |s.entries| && s.entries[k] == slot;
    EntriesAreNodesApart(s);
    OnlySlotOfItsId(s, k);
    if slot.nodeId.Some? {
      assert Bound(s.entries, slot.invitationId, peer) == s.entries;
    } else {
      BindKeepsNodesApartIff(s.entries, k, peer);
      FindBoundIff(s, peer);
    }
  }

  /**
   * For any attempt, honest or not: accepting and binding it leaves every id at most one slot exactly
   * when it is refused, or the id in its header has a slot, or the id in its plaintext has none.
   */
  lemma AcceptAndBindKeepNodesApartIff(s: System, a: Attempt)
    requires Inv(s) && s.accepted == None
    ensures var result := Serve(s.host, Resolved(s.entries, a)).result;
      NodesApart(Step(Step(s, Accept(a)), Bind).entries) <==>
        result.Err? || FindBound(s.entries, a.envelope.nodeId).Some?
          || FindBound(s.entries, result.value.peerNodeId) == None
  {
    EntriesAreNodesApart(s);
    var result := Serve(s.host, Resolved(s.entries, a)).result;
    if result.Ok? {
      var offer := TagComesFromOffer(s, a);
      OfferIsRegistered(s, a.envelope.nodeId, offer);
      var slot :| slot in s.entries && OffersTo(s, slot, a.envelope.nodeId, offer);
      TieKeepsNodesApartIff(s, slot, result.value.peerNodeId);
    }
  }

  /** A pending slot's key, and the moment at which an init under it arrives. */
  ghost predicate Awaits(s: System, slot: HostPeerEntry, key: Key, header: string) {
    && Inv(s) && slot in s.entries && slot.nodeId == None && slot.invitationSecret == StoredForm(key) && |key| == 32
    && ValidNodeId(header) && ValidNodeId(s.host.nodeId) && FindBound(s.entries, header) == None
  }

  predicate Fresh(h: HostState, nonce: Nonces.Nonce, supplied: Nonces.Nonce) {
    Hex(nonce) !in h.seen && SessionNonce(supplied) !in h.sessions
  }

  /**
   * The accept path does not compare the id in the plaintext with the one in the header: an init under
   * a pending slot's key, with a header new to the Host, is a session of whomever its plaintext names.
   */
  lemma RelabelledInitIsAccepted(s: System, slot: HostPeerEntry, key: Key, header: string, named: string,
                                 timestamp: u64,
                                 nonce: Nonces.Nonce, supplied: Nonces.Nonce, a: Attempt)
    requires Awaits(s, slot, key, header) && ValidNodeId(named) && Fresh(s.host, nonce, supplied)
    requires a.envelope == SealedEnvelope(key, Cliente, header, supplied, EncodeMessage(Init(named, timestamp, nonce)))
    requires a.gateOpen && a.supplied.Ok? && AbsDiff(timestamp, a.now) <= REPLAY_WINDOW_SECS
    ensures Serve(s.host, Resolved(s.entries, a)).result == Ok(Session(named, Some(slot.invitationId)))
    ensures HonestInit(a.envelope) <==> header == named
  {
    var plaintext := EncodeMessage(Init(named, timestamp, nonce));
    HexNonceIsValid(nonce);
    MessageRoundTrip(Init(named, timestamp, nonce));
    SlotIsOffered(s, slot, key, header);
    FirstMatchFinds(a.envelope, Keys(CandidatesFor(s.entries, header)), key, plaintext);
    OpenInitIsAdmitted(s.host, Resolved(s.entries, a), named, timestamp, nonce);
    var offer := TagComesFromOffer(s, a);
    OfferOfKeyIsSlot(s, slot, header, offer, key);
  }

  lemma SlotIsOffered(s: System, slot: HostPeerEntry, key: Key, header: string)
    requires Awaits(s, slot, key, header)
    ensures CandidatesFor(s.entries, header) == PendingOffers(s.entries)
    ensures var keys := Keys(CandidatesFor(s.entries, header));
      exists i :: 0 <= i < |keys| && keys[i].1 == key
  {
    assert slot in Issued(s);
    assert Registered(s, slot);
    assert Offer(slot) in PendingOffers(s.entries);
    KeyOfOffer(PendingOffers(s.entries), Offer(slot), key);
  }

  /** And when the named device has a slot of its own, binding that session gives it a second one. */
  lemma RelabelledInitSplitsDevice(s: System, slot: HostPeerEntry, victim: HostPeerEntry, key: Key, header: string,
                                   timestamp: u64,
                                   nonce: Nonces.Nonce, supplied: Nonces.Nonce, a: Attempt)
    requires Awaits(s, slot, key, header) && s.accepted == None && Fresh(s.host, nonce, supplied)
    requires victim in s.entries && victim.nodeId.Some? && ValidNodeId(victim.nodeId.value)
    requires a.envelope ==
      SealedEnvelope(key, Cliente, header, supplied, EncodeMessage(Init(victim.nodeId.value, timestamp, nonce)))
    requires a.gateOpen && a.supplied.Ok? && AbsDiff(timestamp, a.now) <= REPLAY_WINDOW_SECS
    ensures !NodesApart(Step(Step(s, Accept(a)), Bind).entries)
  {
    RelabelledInitIsAccepted(s, slot, key, header, victim.nodeId.value, timestamp, nonce, supplied, a);
    FindBoundIff(s, victim.nodeId.value);
    AcceptAndBindKeepNodesApartIff(s, a);
  }

  lemma {:induction false} KeyOfOffer(offers: seq<(string, string)>, offer: (string, string), key: Key)
    requires offer in offers && offer.1 == StoredForm(key) && |key| == 32
    ensures exists i :: 0 <= i < |Keys(offers)| && Keys(offers)[i].1 == key
  {
    StoredKeyReadsBack(key);
    if offers[0] == offer {
      assert Keys(offers)[0].1 == key;
    } else {
      KeyOfOffer(offers[1..], offer, key);
      var i :| 0 <= i < |Keys(offers[1..])| && Keys(offers[1..])[i].1 == key;
      var first := if KeyOfStored(offers[0].1).Some? then 1 else 0;
      assert Keys(offers)[first + i] == Keys(offers[1..])[i];
    }
  }
}
