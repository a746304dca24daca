/**
 * One pairing from end to end: the Host sets a slot aside and hands out its invitation; the Cliente
 * imports and approves it, restarts, and dials with what it finds in its file; and the Host binds the
 * slot, while requests, other handshakes and restarts go on around it.
 */
module Pairing {
  import opened Wrappers
  import opened Sequences
  import opened Numbers
  import opened Messages
  import opened TransportKeys
  import opened Nonces
  import opened Handshake
  import opened HostRegistry
  import RegistryRuns
  import opened PeerRecords
  import opened PeerStores
  import opened Invitations
  import opened Agent
  import AgentRuns
  import opened Runs
  import opened CleanRuns

  // ----- what the Cliente starts with -----

  /** What the Cliente's transport is started with. */
  datatype Setup = Setup(key: Key, nodeId: string, hostNodeId: string)

  const PLACEHOLDER_SECRET := "validation-secret-0001"

  /** The Cliente's start: an approved record with a readable key, two different ids and valid texts. */
  function ClienteSetup(r: PeerRecord): Option<Setup> {
    if !r.approved || r.revoked || r.role != "cliente" then None
    else
      var key :- KeyOfStored(r.invitationSecret);
      var hostNodeId :- r.hostNodeId;
      if hostNodeId == r.nodeId || !ValidClientConfig(r.nodeId, hostNodeId, r.endpoint, PLACEHOLDER_SECRET) then None
      else Some(Setup(key, r.nodeId, hostNodeId))
  }

  /** What a process that has just started dials with, if it dials at all. */
  function Started(v: View): Option<Setup> {
    if v.gate && v.storeOpen && v.store.record.Some? then ClienteSetup(v.store.record.value) else None
  }

  predicate LooksDerived(secret: string) {
    StripPrefix(secret, STORED_KEY_PREFIX).Some?
  }

  /** The key that the Cliente makes of an invitation's secret. */
  function KeyFor(secret: string, digest: Digest): Option<Key> {
    if LooksDerived(secret) then KeyOfStored(secret) else Some(digest(secret))
  }

  /** The record that an import followed by an approval leaves. */
  function ApprovedImport(request: ImportRequest, e: InvitationEnvelope, digest: Digest): PeerRecord {
    Derived(ImportedRecord(request, e), digest).(approved := true, revoked := false)
  }

  predicate Importable(v: View, request: ImportRequest, e: InvitationEnvelope, now: u64) {
    && v.storeOpen && !v.scheduled && e.invitationId !in v.store.consumed
    && ValidNodeId(request.nodeId) && DecodeInvitation(request.invitation, now) == Ok(e)
  }

  /** The agent after an import, an approval and a restart; `main` opens the gate of a new process. */
  function Paired(v: View, request: ImportRequest, now: u64, status: TransportState, digest: Digest): View {
    AgentRuns.Next(
      AgentRuns.Next(
        AgentRuns.Next(AgentRuns.Run(v, []), AgentRuns.Ask(Import(Some(request), now)), digest),
        AgentRuns.Ask(Approve), digest),
      AgentRuns.Reboot(true, status), digest).view
  }

  /** Importing and approving leaves the approved record in memory and file; the gate waits for the restart. */
  lemma ImportThenApprove(v: View, request: ImportRequest, e: InvitationEnvelope, now: u64, digest: Digest)
    requires Importable(v, request, e, now)
    ensures var after := Handle(Handle(v, Import(Some(request), now), digest).0, Approve, digest).0;
      && after.store == Written(after.store, ApprovedImport(request, e, digest))
      && !after.gate && after.restartRequired
  {
    AgentRuns.ImportTakes(v, request, e, now, digest);
    var v1 := Handle(v, Import(Some(request), now), digest).0;
    assert Handle(v1, Approve, digest) == ApprovalStep(v1, true);
  }

  lemma ApprovedImportIsChecked(request: ImportRequest, e: InvitationEnvelope, now: u64, digest: Digest)
    requires ValidNodeId(request.nodeId) && DecodeInvitation(request.invitation, now) == Ok(e)
    ensures TextsChecked(ApprovedImport(request, e, digest))
    ensures ApprovedImport(request, e, digest).virtualIp == NonBlank(request.virtualIp)
  {
    DecodedInvitationIsTimely(request.invitation, now);
    ImportedIsChecked(request, e);
    DerivedIsChecked(ImportedRecord(request, e), digest);
  }

  /** The restart finds the approved record again exactly when the address its user chose is clean. */
  lemma ImportSurvivesRestartIff(v: View, request: ImportRequest, e: InvitationEnvelope, now: u64,
                                 status: TransportState, digest: Digest)
    requires Importable(v, request, e, now)
    ensures var after := Paired(v, request, now, status, digest);
      && after.gate
      && (after.storeOpen <==> CleanAddress(NonBlank(request.virtualIp)))
      && (after.storeOpen ==> after.store.record == Some(ApprovedImport(request, e, digest)))
  {
    ImportThenApprove(v, request, e, now, digest);
    ApprovedImportIsChecked(request, e, now, digest);
    var store := Handle(Handle(v, Import(Some(request), now), digest).0, Approve, digest).0.store;
    CheckedReopens(store, ApprovedImport(request, e, digest), digest);
    OpeningForgetsMemory(store, digest);
  }

  /** A record with that key, approved, starts the transport exactly when the two ids differ and the key can be read. */
  lemma ImportStartsIff(request: ImportRequest, e: InvitationEnvelope, now: u64, digest: Digest)
    requires ValidNodeId(request.nodeId) && DecodeInvitation(request.invitation, now) == Ok(e)
    requires |digest(e.invitationSecret)| == 32
    ensures var key := KeyFor(e.invitationSecret, digest);
      ClienteSetup(ApprovedImport(request, e, digest)) ==
        if request.nodeId == e.hostNodeId || key == None then None
        else Some(Setup(key.value, request.nodeId, e.hostNodeId))
  {
    DecodedInvitationIsTimely(request.invitation, now);
    StoredKeyReadsBack(digest(e.invitationSecret));
    PlaceholderIsValid();
  }

  lemma PlaceholderIsValid()
    ensures ValidInvitationSecret(PLACEHOLDER_SECRET)
  {}

  /**
   * After import, approval and restart the Cliente dials with the invitation's key, its own name and
   * the Host's id, exactly when the chosen address is clean, the two ids differ and the key can be read.
   */
  lemma PairedStartsIff(v: View, request: ImportRequest, e: InvitationEnvelope, now: u64, status: TransportState,
                        digest: Digest)
    requires Importable(v, request, e, now) && |digest(e.invitationSecret)| == 32
    ensures var key := KeyFor(e.invitationSecret, digest);
      Started(Paired(v, request, now, status, digest)) ==
        if CleanAddress(NonBlank(request.virtualIp)) && request.nodeId != e.hostNodeId && key.Some?
        then Some(Setup(key.value, request.nodeId, e.hostNodeId)) else None
  {
    ImportSurvivesRestartIff(v, request, e, now, status, digest);
    ImportStartsIff(request, e, now, digest);
  }

  /** A configured Cliente, once approved, starts with the ids and the key of the request, if the ids differ. */
  lemma ConfiguredStartsIff(fields: Fields, digest: Digest)
    requires ConfigRecord(fields, digest).Some? && Get(fields, "role") == Some("cliente")
    requires forall secret :: |digest(secret)| == 32
    ensures "node_id" in fields && "host_node_id" in fields && "invitation_secret" in fields
      && "onion_endpoint" in fields
    ensures ConfigRecord(fields, digest).value.endpoint == fields["onion_endpoint"]
    ensures ClienteSetup(ConfigRecord(fields, digest).value.(approved := true, revoked := false)) ==
      if fields["node_id"] == fields["host_node_id"] then None
      else Some(Setup(digest(fields["invitation_secret"]), fields["node_id"], fields["host_node_id"]))
  {
    PlaceholderIsValid();
    var secret := OrEmpty(Get(fields, "invitation_secret"));
    StoredKeyReadsBack(digest(secret));
  }

  // ----- one dial -----

  /** When the dial is made and met, with the random values and nonces it takes. */
  datatype Dialling = Dialling(timestamp: u64, nonce: Nonce, supplied: Nonce, received: u64, answer: Nonce,
                               finished: u64)

  predicate Prompt(d: Dialling) {
    AbsDiff(d.timestamp, d.received) <= REPLAY_WINDOW_SECS && AbsDiff(d.received, d.finished) <= REPLAY_WINDOW_SECS
  }

  /** What the Host meets when the Cliente dials. */
  function AttemptOf(setup: Setup, d: Dialling): Attempt {
    var init := EncodeMessage(Init(setup.nodeId, d.timestamp, d.nonce));
    Attempt(true, SealedEnvelope(setup.key, Cliente, setup.nodeId, d.supplied, init), [], d.received, Ok(d.answer))
  }

  /** The Host takes the dial for a session with this name, and the Cliente takes the answer. */
  predicate Agreed(s: RegistryRuns.System, setup: Setup, d: Dialling) {
    var outcome := Serve(s.host, RegistryRuns.Resolved(s.entries, AttemptOf(setup, d)));
    && outcome.result.Ok? && outcome.result.value.peerNodeId == setup.nodeId
    && outcome.response.Some?
    && Finish(setup.key, setup.hostNodeId, d.nonce, outcome.response.value, d.finished) == Ok(setup.hostNodeId)
  }

  predicate Ready(s: RegistryRuns.System, setup: Setup, d: Dialling) {
    && ValidNodeId(setup.nodeId) && ValidNodeId(s.host.nodeId) && setup.hostNodeId == s.host.nodeId
    && Prompt(d) && RegistryRuns.Fresh(s.host, d.nonce, d.supplied)
  }

  lemma AttemptIsHonest(setup: Setup, d: Dialling)
    requires ValidNodeId(setup.nodeId)
    ensures RegistryRuns.HonestInit(AttemptOf(setup, d).envelope)
  {
    RegistryRuns.DialledIsHonest(setup.key, setup.nodeId, d.timestamp, d.nonce, d.supplied);
  }

  lemma OpenedAnswerFinishes(setup: Setup, d: Dialling)
    requires ValidNodeId(setup.hostNodeId) && Prompt(d)
    ensures var answer := EncodeMessage(Answer(setup.hostNodeId, d.received, Hex(d.nonce)));
      Finish(setup.key, setup.hostNodeId, d.nonce, SealedEnvelope(setup.key, Host, setup.hostNodeId, d.answer, answer),
        d.finished)
        == Ok(setup.hostNodeId)
  {
    HexNonceIsValid(d.nonce);
    MessageRoundTrip(Answer(setup.hostNodeId, d.received, Hex(d.nonce)));
  }

  /** A dial under a pending slot's key and a name new to the Host is a session tagged with that slot. */
  lemma RightDialIsRecognised(s: RegistryRuns.System, slot: HostPeerEntry, setup: Setup, d: Dialling)
    requires RegistryRuns.Awaits(s, slot, setup.key, setup.nodeId) && Ready(s, setup, d)
    ensures Serve(s.host, RegistryRuns.Resolved(s.entries, AttemptOf(setup, d))).result ==
      Ok(Session(setup.nodeId, Some(slot.invitationId)))
    ensures Agreed(s, setup, d)
  {
    var a := AttemptOf(setup, d);
    var candidates := Keys(CandidatesFor(s.entries, setup.nodeId));
    RegistryRuns.RelabelledInitIsAccepted(s, slot, setup.key, setup.nodeId, setup.nodeId, d.timestamp, d.nonce,
      d.supplied, a);
    RegistryRuns.SlotIsOffered(s, slot, setup.key, setup.nodeId);
    FirstMatchFinds(a.envelope, candidates, setup.key, EncodeMessage(Init(setup.nodeId, d.timestamp, d.nonce)));
    OpenInitIsAdmitted(s.host, RegistryRuns.Resolved(s.entries, a), setup.nodeId, d.timestamp, d.nonce);
    OpenedAnswerFinishes(setup, d);
  }

  /** A dial under another key, or under a name that has a slot, is never taken for this pending slot. */
  lemma WrongDialIsNotTagged(s: RegistryRuns.System, slot: HostPeerEntry, key: Key, setup: Setup, d: Dialling)
    requires RegistryRuns.Inv(s) && slot in s.entries && slot.nodeId == None
      && slot.invitationSecret == StoredForm(key) && |key| == 32
    requires setup.key != key || FindBound(s.entries, setup.nodeId).Some?
    ensures var result := Serve(s.host, RegistryRuns.Resolved(s.entries, AttemptOf(setup, d))).result;
      result.Ok? ==> result.value.matchedKeyTag != Some(slot.invitationId)
  {
    var a := AttemptOf(setup, d);
    if Serve(s.host, RegistryRuns.Resolved(s.entries, a)).result.Ok? {
      var offer := RegistryRuns.TagComesFromOffer(s, a);
      RegistryRuns.OfferIsRegistered(s, setup.nodeId, offer);
      var x :| x in s.entries && RegistryRuns.OffersTo(s, x, setup.nodeId, offer);
      assert x in RegistryRuns.Issued(s) && slot in RegistryRuns.Issued(s);
      RegistryRuns.SlotsAreApart(s, x, slot);
      StoredKeyReadsBack(key);
    }
  }

  // ----- from the dial to the bind -----

  /** What the control interface does while the accept thread is between its two steps. */
  predicate IsRequest(e: RegistryRuns.Event) {
    e.Reserve? || e.Add? || e.Abandon? || e.RemovePeer?
  }

  /** Every slot with this one's id is this very one. */
  ghost predicate Untouched(s: RegistryRuns.System, slot: HostPeerEntry) {
    && slot.invitationId in s.ids
    && forall x :: x in RegistryRuns.Issued(s) && x.invitationId == slot.invitationId ==> x == slot
  }

  lemma RequestLeavesUntouched(s: RegistryRuns.System, e: RegistryRuns.Event, slot: HostPeerEntry)
    requires Untouched(s, slot) && IsRequest(e)
    ensures Untouched(RegistryRuns.Advance(s, e), slot) && RegistryRuns.Advance(s, e).accepted == s.accepted
  {
    if e.RemovePeer? {
      FilterMembers(s.entries, x => Survives(x, e.id));
    }
  }

  lemma RequestsLeaveUntouched(host: HostState, events: seq<RegistryRuns.Event>, m: nat, k: nat, slot: HostPeerEntry)
    requires m <= k <= |events| && forall i :: m <= i < k ==> IsRequest(events[i])
    requires Untouched(RegistryRuns.SystemAt(host, events, m), slot)
    ensures Untouched(RegistryRuns.SystemAt(host, events, k), slot)
    ensures RegistryRuns.SystemAt(host, events, k).accepted == RegistryRuns.SystemAt(host, events, m).accepted
  {
    var session := RegistryRuns.SystemAt(host, events, m).accepted;
    forall s: RegistryRuns.System, i | m <= i < k && Untouched(s, slot) && s.accepted == session
      ensures Untouched(RegistryRuns.Advance(s, events[i]), slot)
        && RegistryRuns.Advance(s, events[i]).accepted == session
    {
      RequestLeavesUntouched(s, events[i], slot);
    }
    KeptBetween(RegistryRuns.Advance, RegistryRuns.Start(host), events, m, k,
                (s: RegistryRuns.System) => Untouched(s, slot) && s.accepted == session);
  }

  predicate Holds(s: RegistryRuns.System, id: string) {
    exists x :: x in s.entries && x.invitationId == id
  }

  predicate BoundTo(s: RegistryRuns.System, id: string, node: string) {
    exists x :: x in s.entries && x.invitationId == id && x.nodeId == Some(node)
  }

  /** Binding a session gives an untouched pending slot to its peer exactly when the session's tag is that slot. */
  lemma TieBindsIff(s: RegistryRuns.System, session: Session, slot: HostPeerEntry, node: string)
    requires Untouched(s, slot) && slot.nodeId == None && Holds(s, slot.invitationId)
    ensures BoundTo(RegistryRuns.Tied(s, session), slot.invitationId, node) <==>
      session.matchedKeyTag == Some(slot.invitationId) && session.peerNodeId == node
  {
    var after := RegistryRuns.Tied(s, session);
    var x :| x in s.entries && x.invitationId == slot.invitationId;
    var i :| 0 <= i < |s.entries| && s.entries[i] == x;
    assert x in RegistryRuns.Issued(s);
    if session.matchedKeyTag == Some(slot.invitationId) {
      assert after.entries[i] == slot.(nodeId := Some(session.peerNodeId));
      assert after.entries[i] in after.entries;
    }
    forall y | y in after.entries && y.invitationId == slot.invitationId
      ensures y.nodeId == if session.matchedKeyTag == Some(slot.invitationId) then Some(session.peerNodeId) else None
    {
      var j :| 0 <= j < |after.entries| && after.entries[j] == y;
      assert s.entries[j] in RegistryRuns.Issued(s) && s.entries[j].invitationId == slot.invitationId;
    }
  }

  /** One pass of the accept thread, with requests between its two steps. */
  ghost predicate Passes(host: HostState, events: seq<RegistryRuns.Event>, m: nat, k: nat, a: Attempt) {
    && m < k < |events| && events[m] == RegistryRuns.Accept(a) && events[k] == RegistryRuns.Bind
    && RegistryRuns.SystemAt(host, events, m).accepted == None
    && forall i :: m < i < k ==> IsRequest(events[i])
  }

  lemma PassEndsInTie(host: HostState, events: seq<RegistryRuns.Event>, m: nat, k: nat, a: Attempt, slot: HostPeerEntry)
    requires Passes(host, events, m, k, a) && RegistryRuns.HonestInit(a.envelope)
    requires Untouched(RegistryRuns.SystemAt(host, events, m), slot)
    ensures var s := RegistryRuns.SystemAt(host, events, m);
      var result := Serve(s.host, RegistryRuns.Resolved(s.entries, a)).result;
      var before := RegistryRuns.SystemAt(host, events, k);
      && Untouched(before, slot)
      && RegistryRuns.SystemAt(host, events, k + 1) ==
        if result.Ok? then RegistryRuns.Tied(before, result.value) else before
  {
    var s := RegistryRuns.SystemAt(host, events, m);
    RegistryRuns.NextSystem(host, events, m);
    RegistryRuns.NextSystem(host, events, k);
    assert RegistryRuns.SystemAt(host, events, m + 1) == RegistryRuns.Accepted(s, a);
    assert Untouched(RegistryRuns.SystemAt(host, events, m + 1), slot);
    RequestsLeaveUntouched(host, events, m + 1, k, slot);
  }

  /**
   * A pass over a dial makes a session and gives the pending slot to the dialler exactly when the dial
   * was made under that slot's key and under a name new to the Host.
   */
  lemma DialBindsIff(host: HostState, events: seq<RegistryRuns.Event>, m: nat, k: nat, slot: HostPeerEntry, key: Key,
                     setup: Setup, d: Dialling)
    requires Passes(host, events, m, k, AttemptOf(setup, d)) && Ready(RegistryRuns.SystemAt(host, events, m), setup, d)
    requires slot in RegistryRuns.SystemAt(host, events, m).entries && slot.nodeId == None
    requires slot.invitationSecret == StoredForm(key) && |key| == 32
    requires Holds(RegistryRuns.SystemAt(host, events, k), slot.invitationId)
    ensures Agreed(RegistryRuns.SystemAt(host, events, m), setup, d)
        && BoundTo(RegistryRuns.SystemAt(host, events, k + 1), slot.invitationId, setup.nodeId)
      <==> setup.key == key && FindBound(RegistryRuns.SystemAt(host, events, m).entries, setup.nodeId) == None
  {
    var s := RegistryRuns.SystemAt(host, events, m);
    var before := RegistryRuns.SystemAt(host, events, k);
    RegistryRuns.Reachable(host, events, m);
    SlotIsUntouched(s, slot);
    AttemptIsHonest(setup, d);
    PassEndsInTie(host, events, m, k, AttemptOf(setup, d), slot);
    var result := Serve(s.host, RegistryRuns.Resolved(s.entries, AttemptOf(setup, d))).result;
    if setup.key == key && FindBound(s.entries, setup.nodeId) == None {
      RightDialIsRecognised(s, slot, setup, d);
      TieBindsIff(before, result.value, slot, setup.nodeId);
    } else if result.Ok? {
      WrongDialIsNotTagged(s, slot, key, setup, d);
      TieBindsIff(before, result.value, slot, setup.nodeId);
    }
  }

  lemma SlotIsUntouched(s: RegistryRuns.System, slot: HostPeerEntry)
    requires RegistryRuns.Inv(s) && slot in s.entries
    ensures Untouched(s, slot)
  {
    assert slot in RegistryRuns.Issued(s);
    assert RegistryRuns.Registered(s, slot);
    forall x | x in RegistryRuns.Issued(s) && x.invitationId == slot.invitationId ensures x == slot {
      RegistryRuns.SlotsAreApart(s, x, slot);
    }
  }

  // ----- from the invitation to the dial -----

  lemma HostIdStays(host: HostState, events: seq<RegistryRuns.Event>, n: nat)
    requires n <= |events|
    ensures RegistryRuns.SystemAt(host, events, n).host.nodeId == host.nodeId
  {
    forall s: RegistryRuns.System, i | 0 <= i < n && s.host.nodeId == host.nodeId
      ensures RegistryRuns.Advance(s, events[i]).host.nodeId == host.nodeId
    {
      AdvanceKeepsHostId(s, events[i]);
    }
    KeptBetween(RegistryRuns.Advance, RegistryRuns.Start(host), events, 0, n,
      (s: RegistryRuns.System) => s.host.nodeId == host.nodeId);
  }

  lemma AdvanceKeepsHostId(s: RegistryRuns.System, e: RegistryRuns.Event)
    ensures RegistryRuns.Advance(s, e).host.nodeId == s.host.nodeId
  {
    if e.Accept? {
      ServeKeepsHostId(s.host, RegistryRuns.Resolved(s.entries, e.attempt));
    }
  }

  /** The Host read the pool for this invitation at `g`. */
  predicate HandedOut(host: HostState, events: seq<RegistryRuns.Event>, g: nat, e: InvitationEnvelope,
                      networkPrefix: string, digest: Digest)
  {
    && g < |events| && e.hostNodeId == host.nodeId
    && events[g] == RegistryRuns.Reserve(e.invitationId, digest(e.invitationSecret), networkPrefix, e.issuedAt)
    && RegistryRuns.Possible(RegistryRuns.SystemAt(host, events, g), events[g])
  }

  /** The slot of a handed-out invitation, wherever it is found later. */
  lemma SlotOfInvitation(host: HostState, events: seq<RegistryRuns.Event>, g: nat, m: nat, e: InvitationEnvelope,
                         networkPrefix: string,
                         digest: Digest, x: HostPeerEntry)
    requires HandedOut(host, events, g, e, networkPrefix, digest) && g < m <= |events|
    requires x in RegistryRuns.SystemAt(host, events, m).entries && x.invitationId == e.invitationId
    ensures x.(nodeId := None) == RegistryRuns.Slot(RegistryRuns.SystemAt(host, events, g).entries, e.invitationId,
                                                    digest(e.invitationSecret), networkPrefix, e.issuedAt)
  {
    var s := RegistryRuns.SystemAt(host, events, g);
    var slot := RegistryRuns.Slot(s.entries, e.invitationId, digest(e.invitationSecret), networkPrefix, e.issuedAt);
    var after := RegistryRuns.SystemAt(host, events, g + 1);
    RegistryRuns.NextSystem(host, events, g);
    assert after == RegistryRuns.Step(s, events[g]);
    assert after.reserved[|s.reserved|] == slot;
    assert RegistryRuns.Issued(after)[|s.entries| + |s.reserved|] == slot;
    RegistryRuns.SlotsKeepTheirTerms(host, events, g + 1, m, slot);
    assert x in RegistryRuns.Issued(RegistryRuns.SystemAt(host, events, m));
  }

  /** The moment of the dial: the invitation's slot is pending, and still there when the Host comes to bind. */
  ghost predicate DialMeetsSlot(host: HostState, events: seq<RegistryRuns.Event>, m: nat, k: nat, id: string,
                                slot: HostPeerEntry)
  {
    && m < k < |events|
    && slot in RegistryRuns.SystemAt(host, events, m).entries && slot.invitationId == id && slot.nodeId == None
    && Holds(RegistryRuns.SystemAt(host, events, k), id)
  }

  /** The pairing came about: the Cliente dialled, both sides agreed, and the slot is the Cliente's. */
  ghost predicate Complete(after: View, host: HostState, events: seq<RegistryRuns.Event>, m: nat, k: nat, id: string,
                           d: Dialling)
    requires m < k < |events|
  {
    && Started(after).Some?
    && Agreed(RegistryRuns.SystemAt(host, events, m), Started(after).value, d)
    && BoundTo(RegistryRuns.SystemAt(host, events, k + 1), id, Started(after).value.nodeId)
  }

  /**
   * The setting of a pairing: an invitation handed out at `g` and importable at the Cliente, whose slot is
   * pending when the Host meets at `m` what the restarted Cliente dials, if it dials, and binds at `k`.
   */
  ghost predicate PairingRun(v: View, request: ImportRequest, e: InvitationEnvelope, now: u64, status: TransportState,
                             digest: Digest, host: HostState, events: seq<RegistryRuns.Event>, g: nat, m: nat, k: nat,
                             networkPrefix: string, slot: HostPeerEntry, d: Dialling)
  {
    && Importable(v, request, e, now) && HandedOut(host, events, g, e, networkPrefix, digest) && g < m
    && DialMeetsSlot(host, events, m, k, e.invitationId, slot)
    && Prompt(d) && RegistryRuns.Fresh(RegistryRuns.SystemAt(host, events, m).host, d.nonce, d.supplied)
    && var setup := Started(Paired(v, request, now, status, digest));
       setup.Some? ==> Passes(host, events, m, k, AttemptOf(setup.value, d))
  }

  /**
   * From end to end, over any run of the Host in which the slot is pending when the Cliente, restarted
   * after its approval, dials: the two sides agree on a session and the slot becomes the Cliente's
   * exactly when the address its user chose is clean, its name is neither the Host's id nor already
   * registered there, and the secret is one that both sides derive the same key from.
   */
  lemma PairingCompletesIff(v: View, request: ImportRequest, e: InvitationEnvelope, now: u64, status: TransportState,
                            digest: Digest, host: HostState, events: seq<RegistryRuns.Event>, g: nat, m: nat, k: nat,
                            networkPrefix: string, slot: HostPeerEntry, d: Dialling)
    requires m < k < |events|
    ensures PairingRun(v, request, e, now, status, digest, host, events, g, m, k, networkPrefix, slot, d) ==>
      (Complete(Paired(v, request, now, status, digest), host, events, m, k, e.invitationId, d) <==>
         PairingFits(request, e, digest, host, events, m))
  {
    if PairingRun(v, request, e, now, status, digest, host, events, g, m, k, networkPrefix, slot, d) {
      CompletesIfFits(v, request, e, now, status, digest, host, events, g, m, k, networkPrefix, slot, d);
    }
  }

  /** What the user and the random secret must not get wrong. */
  predicate PairingFits(request: ImportRequest, e: InvitationEnvelope, digest: Digest, host: HostState,
                        events: seq<RegistryRuns.Event>, m: nat)
    requires m <= |events|
  {
    && CleanAddress(NonBlank(request.virtualIp))
    && request.nodeId != host.nodeId
    && FindBound(RegistryRuns.SystemAt(host, events, m).entries, request.nodeId) == None
    && KeyFor(e.invitationSecret, digest) == Some(digest(e.invitationSecret))
  }

  lemma CompletesIfFits(v: View, request: ImportRequest, e: InvitationEnvelope, now: u64, status: TransportState,
                        digest: Digest, host: HostState, events: seq<RegistryRuns.Event>, g: nat, m: nat, k: nat,
                        networkPrefix: string, slot: HostPeerEntry, d: Dialling)
    requires m < k < |events|
    requires PairingRun(v, request, e, now, status, digest, host, events, g, m, k, networkPrefix, slot, d)
    ensures Complete(Paired(v, request, now, status, digest), host, events, m, k, e.invitationId, d) <==>
      PairingFits(request, e, digest, host, events, m)
  {
    var setup := Started(Paired(v, request, now, status, digest));
    PairedStartsIff(v, request, e, now, status, digest);
    if setup.Some? {
      DecodedInvitationIsTimely(request.invitation, now);
      HostIdStays(host, events, m);
      SlotOfInvitation(host, events, g, m, e, networkPrefix, digest, slot);
      DialBindsIff(host, events, m, k, slot, digest(e.invitationSecret), setup.value, d);
    }
  }

  /** The shortest run of a new Host: an invitation, its slot, one dial under it, and the bind. */
  function ShortRun(e: InvitationEnvelope, networkPrefix: string, key: Key, setup: Setup,
                    d: Dialling): seq<RegistryRuns.Event>
  {
    [RegistryRuns.Reserve(e.invitationId, key, networkPrefix, e.issuedAt), RegistryRuns.Add(0),
     RegistryRuns.Accept(AttemptOf(setup, d)), RegistryRuns.Bind]
  }

  lemma ShortRunMeetsSlot(host: HostState, e: InvitationEnvelope, networkPrefix: string, key: Key, setup: Setup,
                          d: Dialling)
    requires e.invitationId != "" && |key| == 32
    ensures var events := ShortRun(e, networkPrefix, key, setup, d);
      var slot := RegistryRuns.Slot([], e.invitationId, key, networkPrefix, e.issuedAt);
      && RegistryRuns.SystemAt(host, events, 0) == RegistryRuns.Start(host)
      && RegistryRuns.SystemAt(host, events, 2) ==
           RegistryRuns.System([slot], host, None, [], {e.invitationId}, {StoredForm(key)})
  {
    var events := ShortRun(e, networkPrefix, key, setup, d);
    RegistryRuns.NextSystem(host, events, 0);
    RegistryRuns.NextSystem(host, events, 1);
  }

  lemma AcceptKeepsSlots(host: HostState, events: seq<RegistryRuns.Event>, m: nat)
    requires m < |events| && events[m].Accept?
    ensures RegistryRuns.SystemAt(host, events, m + 1).entries == RegistryRuns.SystemAt(host, events, m).entries
  {
    RegistryRuns.NextSystem(host, events, m);
  }

  lemma ShortRunFits(host: HostState, e: InvitationEnvelope, networkPrefix: string, digest: Digest, setup: Setup,
                     d: Dialling)
    requires e.invitationId != "" && |digest(e.invitationSecret)| == 32 && host == HostState(e.hostNodeId, map[], map[])
    ensures var key := digest(e.invitationSecret);
      var events := ShortRun(e, networkPrefix, key, setup, d);
      && HandedOut(host, events, 0, e, networkPrefix, digest)
      && DialMeetsSlot(host, events, 2, 3, e.invitationId,
        RegistryRuns.Slot([], e.invitationId, key, networkPrefix, e.issuedAt))
      && Passes(host, events, 2, 3, AttemptOf(setup, d))
      && RegistryRuns.Fresh(RegistryRuns.SystemAt(host, events, 2).host, d.nonce, d.supplied)
      && FindBound(RegistryRuns.SystemAt(host, events, 2).entries, setup.nodeId) == None
  {
    var key := digest(e.invitationSecret);
    var events := ShortRun(e, networkPrefix, key, setup, d);
    var slot := RegistryRuns.Slot([], e.invitationId, key, networkPrefix, e.issuedAt);
    ShortRunMeetsSlot(host, e, networkPrefix, key, setup, d);
    AcceptKeepsSlots(host, events, 2);
    assert slot in RegistryRuns.SystemAt(host, events, 2).entries
      && slot in RegistryRuns.SystemAt(host, events, 3).entries;
  }

  /** A pairing does come about: with a new Host and a new name, the shortest run is enough. */
  lemma FreshPairingCompletes(v: View, request: ImportRequest, e: InvitationEnvelope, now: u64,
                              status: TransportState, digest: Digest,
                              host: HostState, networkPrefix: string, d: Dialling)
    requires Importable(v, request, e, now) && |digest(e.invitationSecret)| == 32 && !LooksDerived(e.invitationSecret)
    requires CleanAddress(NonBlank(request.virtualIp)) && request.nodeId != e.hostNodeId
    requires host == HostState(e.hostNodeId, map[], map[]) && Prompt(d)
    ensures var key := digest(e.invitationSecret);
      var events := ShortRun(e, networkPrefix, key, Setup(key, request.nodeId, e.hostNodeId), d);
      Complete(Paired(v, request, now, status, digest), host, events, 2, 3, e.invitationId, d)
  {
    var key := digest(e.invitationSecret);
    var setup := Setup(key, request.nodeId, e.hostNodeId);
    var events := ShortRun(e, networkPrefix, key, setup, d);
    var slot := RegistryRuns.Slot([], e.invitationId, key, networkPrefix, e.issuedAt);
    DecodedInvitationIsTimely(request.invitation, now);
    PairedStartsIff(v, request, e, now, status, digest);
    ShortRunFits(host, e, networkPrefix, digest, setup, d);
    PairingCompletesIff(v, request, e, now, status, digest, host, events, 0, 2, 3, networkPrefix, slot, d);
  }
}
