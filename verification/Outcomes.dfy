/**
 * What each request does, in full: when it succeeds, what it answers, and everything it leaves changed.
 * And what a revocation is worth over a run.
 */
module Outcomes {
  import opened Wrappers
  import opened Sequences
  import opened Numbers
  import opened TransportKeys
  import opened PeerRecords
  import opened PeerStores
  import opened Invitations
  import opened Agent
  import AgentRuns
  import ModeTexts
  import Messages
  import opened Runs
  import GateRaces

  predicate Holding(v: View) {
    v.storeOpen && v.store.record.Some?
  }

  /** The store with this record in memory and file. */
  function Storing(s: Store, r: PeerRecord): Store {
    Store(Some(PrintRecord(r)), Some(r), s.consumed)
  }

  // ----- refusals -----

  /** A request that is not answered with success leaves everything as it was. */
  lemma {:induction false} RefusalsChangeNothing(v: View, r: Request, digest: Digest)
    ensures var (after, reply) := Handle(v, r, digest); reply != 200 && reply != 202 ==> after == v
  {
    if !v.scheduled {
      match r {
        case SetConfig(fields) => ConfigRefused(v, fields, digest);
        case SetVirtualIp(fields) => VirtualIpRefused(v, fields);
        case SetMode(mode) => ModeRefused(v, mode);
        case Import(request, now) => ImportRefused(v, request, now, digest);
        case _ =>
      }
    }
  }

  lemma {:induction false} ConfigRefused(v: View, fields: Option<Fields>, digest: Digest)
    ensures ConfigStep(v, fields, digest).1 != 200 ==> ConfigStep(v, fields, digest).0 == v
  {}

  lemma {:induction false} VirtualIpRefused(v: View, fields: Option<Fields>)
    ensures VirtualIpStep(v, fields).1 != 200 ==> VirtualIpStep(v, fields).0 == v
  {}

  lemma {:induction false} ModeRefused(v: View, mode: Option<string>)
    ensures ModeStep(v, mode).1 != 200 ==> ModeStep(v, mode).0 == v
  {}

  lemma {:induction false} ImportRefused(v: View, request: Option<ImportRequest>, now: u64, digest: Digest)
    ensures ImportStep(v, request, now, digest).1 != 200 ==> ImportStep(v, request, now, digest).0 == v
  {}

  /** Once a restart is scheduled, only that request and queries are answered; the rest is turned away. */
  lemma {:induction false} ScheduledTurnsAway(v: View, r: Request, digest: Digest)
    requires v.scheduled
    ensures Handle(v, r, digest).1 == 409 <==>
      (r != RequestRestart && r != Query) || (r == RequestRestart && !v.restartRequired)
  {}

  // ----- approving and revoking -----

  /**
   * An approval of a stored record is stored, and opens the gate exactly when no restart is required; a
   * revocation is stored and closes the gate. Nothing else changes.
   */
  lemma {:induction false} ApprovalOutcome(v: View, approved: bool, digest: Digest)
    requires !v.scheduled
    ensures var (after, reply) := Handle(v, if approved then Approve else Revoke, digest);
      && (reply == 503 <==> !v.storeOpen) && (reply == 404 <==> v.storeOpen && v.store.record == None)
      && (reply == 200 <==> Holding(v))
      && (Holding(v) ==>
            && after.store.record == Some(v.store.record.value.(approved := approved, revoked := !approved))
            && after.store == Storing(v.store, after.store.record.value)
            && after.peer == v.peer.(approved := approved, revoked := !approved)
            && (after.gate <==> approved && !v.restartRequired)
            && after.status ==
                 (if v.restartRequired then RestartRequired else if approved then Unavailable else Disabled)
            && after == v.(store := after.store, peer := after.peer, gate := after.gate, status := after.status))
  {}

  /** After a revocation the gate stays closed in that process, whatever requests follow, until an approval. */
  lemma {:induction false} RevokedStaysClosed(start: View, events: seq<AgentRuns.Event>, digest: Digest, n: nat, m: nat)
    requires n < m <= |events| && events[n] == AgentRuns.Ask(Revoke)
    requires forall k :: n < k < m ==> events[k].Ask? && events[k].request != Approve
    ensures var v := AgentRuns.RunAt(start, events, digest, n).view;
      Holding(v) && !v.scheduled ==> !AgentRuns.RunAt(start, events, digest, m).view.gate
  {
    var v := AgentRuns.RunAt(start, events, digest, n).view;
    if Holding(v) && !v.scheduled {
      var step := AgentRuns.Stepping(digest);
      forall run: AgentRuns.Run | Holding(run.view) && !run.view.scheduled ensures !step(run, events[n]).view.gate {
        ApprovalOutcome(run.view, false, digest);
      }
      forall run: AgentRuns.Run, i | n < i < m && !run.view.gate ensures !step(run, events[i]).view.gate {
        GateStaysWithoutApproval(run.view, events[i].request, digest);
      }
      KeptAfter(step, AgentRuns.Run(start, []), events, n, m,
                (run: AgentRuns.Run) => Holding(run.view) && !run.view.scheduled,
                (run: AgentRuns.Run) => !run.view.gate);
    }
  }

  lemma {:induction false} GateStaysWithoutApproval(v: View, r: Request, digest: Digest)
    requires !v.gate && r != Approve
    ensures !Handle(v, r, digest).0.gate
  {
    if Handle(v, r, digest).0.gate {
      AgentRuns.GateOpensOnlyByApproval(v, r, digest);
    }
  }

  // ----- the steps of the handlers -----

  /** The two flags that handlers running at the same time share. */
  function Flags(v: View): GateRaces.Shared {
    GateRaces.Shared(v.gate, v.restartRequired, map[])
  }

  function Ran(s: GateRaces.Shared, first: GateRaces.Event, second: GateRaces.Event): GateRaces.Shared {
    GateRaces.Step(GateRaces.Step(s, first), second)
  }

  /**
   * A handler that runs alone does to the flags what its steps do one right after the other: an approval loads
   * and stores, a change closes and raises, a reset closes, and no other request touches them.
   */
  lemma {:induction false} HandlersTakeTheirSteps(v: View, r: Request, call: nat, digest: Digest)
    requires !v.scheduled
    ensures var after := Handle(v, r, digest).0;
      if (r == Approve || r == Revoke) && Holding(v) then
        Flags(after) == Ran(Flags(v), GateRaces.Load(call, r == Approve), GateRaces.Store(call))
      else if r == Reset && v.storeOpen then
        Flags(after) == GateRaces.Step(Flags(v), GateRaces.Close)
      else
        KeepsOrCloses(v, after) && (!(r.SetConfig? || r.SetMode? || r.Import?) ==> Flags(after) == Flags(v))
  {
    match r {
      case Approve => JudgingTakesItsSteps(v, true, call, digest);
      case Revoke => JudgingTakesItsSteps(v, false, call, digest);
      case SetConfig(fields) => ConfigTakesItsSteps(v, fields, digest);
      case SetMode(mode) => ModeTakesItsSteps(v, mode);
      case Import(request, now) => ImportTakesItsSteps(v, request, now, digest);
      case SetVirtualIp(fields) => AddressTakesNoSteps(v, fields, digest);
      case _ =>
    }
  }

  lemma {:induction false} JudgingTakesItsSteps(v: View, approved: bool, call: nat, digest: Digest)
    requires !v.scheduled
    ensures Flags(Handle(v, if approved then Approve else Revoke, digest).0) ==
      if Holding(v) then Ran(Flags(v), GateRaces.Load(call, approved), GateRaces.Store(call)) else Flags(v)
  {
    assert map[call := approved && !v.restartRequired] - {call} == map[];
  }

  predicate KeepsOrCloses(v: View, after: View) {
    Flags(after) == Flags(v) || Flags(after) == Ran(Flags(v), GateRaces.Close, GateRaces.Raise)
  }

  lemma {:induction false} ConfigTakesItsSteps(v: View, fields: Option<Fields>, digest: Digest)
    ensures KeepsOrCloses(v, ConfigStep(v, fields, digest).0)
  {}

  lemma {:induction false} ModeTakesItsSteps(v: View, mode: Option<string>)
    ensures KeepsOrCloses(v, ModeStep(v, mode).0)
  {}

  lemma {:induction false} ImportTakesItsSteps(v: View, request: Option<ImportRequest>, now: u64, digest: Digest)
    ensures KeepsOrCloses(v, ImportStep(v, request, now, digest).0)
  {}

  lemma {:induction false} AddressTakesNoSteps(v: View, fields: Option<Fields>, digest: Digest)
    ensures Flags(VirtualIpStep(v, fields).0) == Flags(v)
  {}

  // ----- resetting and restarting -----

  /** A reset leaves no record, no file and a closed gate; the markers and a required restart stay. */
  lemma {:induction false} ResetOutcome(v: View, digest: Digest)
    requires !v.scheduled
    ensures var (after, reply) := Handle(v, Reset, digest);
      && reply == (if v.storeOpen then 200 else 503)
      && (v.storeOpen ==>
            && after.store == Store(None, None, v.store.consumed) && !after.gate && after.status == Disabled
            && after.peer == PeerState(false, None, None, None, None, false, false)
            && after == v.(store := after.store, peer := after.peer, gate := false, status := Disabled))
  {}

  /** A restart is scheduled exactly when one is required, and asking for it changes nothing else. */
  lemma {:induction false} RestartOutcome(v: View, digest: Digest)
    ensures var (after, reply) := Handle(v, RequestRestart, digest);
      && reply == (if v.restartRequired then 202 else 409)
      && after == v.(scheduled := v.scheduled || v.restartRequired)
  {}

  /** The peer that is shown is the record of an open store, if there is one. */
  predicate ShowsRecord(v: View) {
    if v.storeOpen && v.store.record.Some? then
      var r := v.store.record.value;
      v.peer == PeerState(true, Some(r.nodeId), r.hostNodeId, Some(r.endpoint), r.virtualIp, r.approved, r.revoked)
    else
      v.peer == PeerState(false, None, None, None, None, false, false)
  }

  lemma {:induction false} BootOutcome(opening: Result<Store, StoreError>, files: Store, roleOpen: bool,
                                       role: Option<string>, gate: bool, status: TransportState)
    ensures var after := BootedFrom(opening, files, roleOpen, role, gate, status);
      && after.gate == gate && after.status == status && !after.restartRequired && !after.scheduled
      && after.role == role && after.roleOpen == roleOpen && after.service == "running"
      && after.mode == (if roleOpen && role.Some? then role.value else "cliente")
      && (after.storeOpen <==> opening.Ok?) && after.store == (if opening.Ok? then opening.value else files)
      && ShowsRecord(after)
  {}

  /** What a process starts with: the record and approval of an open store, the stored role, and no restart due. */
  lemma {:induction false} RebootOutcome(run: AgentRuns.Run, gate: bool, status: TransportState, digest: Digest)
    ensures var v := run.view;
      var files := v.store.(record := None);
      var after := AgentRuns.Next(run, AgentRuns.Reboot(gate, status), digest).view;
      && after.gate == gate && after.status == status && !after.restartRequired && !after.scheduled
      && after.role == v.role && after.roleOpen == v.roleOpen && after.service == "running"
      && after.mode == (if v.roleOpen && v.role.Some? then v.role.value else "cliente")
      && (after.storeOpen <==> Opened(files, digest).Ok?)
      && after.store == (if Opened(files, digest).Ok? then Opened(files, digest).value else files)
      && after.store.consumed == v.store.consumed && ShowsRecord(after)
  {
    var files := AgentRuns.Files(run.view.store);
    var after := AgentRuns.Next(run, AgentRuns.Reboot(gate, status), digest).view;
    assert after == BootedFrom(Opened(files, digest), files, run.view.roleOpen, run.view.role, gate, status);
    BootOutcome(Opened(files, digest), files, run.view.roleOpen, run.view.role, gate, status);
    AgentRuns.BootKeepsMarkers(files, digest);
  }

  // ----- configuring -----

  /** A text of nothing but white space counts as none. */
  lemma NonBlankMeans(value: Option<string>)
    ensures NonBlank(value) ==
      if value.Some? && exists c :: c in value.value && !IsWhitespace(c) then value else None
  {
    if value.Some? {
      var before, after := ModeTexts.TrimLeaves(value.value);
      ModeTexts.TrimIsSolid(value.value);
    }
  }

  function Text(fields: Fields, key: string): string {
    if key in fields then fields[key] else ""
  }

  function TextOption(fields: Fields, key: string): Option<string> {
    if key in fields then Some(fields[key]) else None
  }

  /** The configuration is for one of the two roles, and its ids, endpoint and secret are valid. */
  predicate ConfigFits(fields: Fields) {
    && (Text(fields, "role") == "host" || Text(fields, "role") == "cliente")
    && Messages.ValidNodeId(Text(fields, "node_id"))
    && (Text(fields, "role") == "cliente" ==> Messages.ValidNodeId(Text(fields, "host_node_id")))
    && ValidOnionHostname(Text(fields, "onion_endpoint")) && ValidInvitationSecret(Text(fields, "invitation_secret"))
  }

  /** The record that a configuration asks for. */
  function ConfigWants(fields: Fields, digest: Digest): PeerRecord {
    PeerRecord(
      Text(fields, "role"), Text(fields, "node_id"),
      if Text(fields, "role") == "cliente" then Some(Text(fields, "host_node_id")) else None,
      Text(fields, "onion_endpoint"), "key-v1-" + Hex(digest(Text(fields, "invitation_secret"))),
      NonBlank(TextOption(fields, "virtual_ip")), false, false)
  }

  /** A new record in memory and file, unapproved, the gate closed and a restart required. */
  predicate HasNewPeer(v: View, after: View, r: PeerRecord, consumed: set<string>) {
    && after.store == Store(Some(PrintRecord(r)), Some(r), consumed)
    && after.peer == PeerState(true, Some(r.nodeId), r.hostNodeId, Some(r.endpoint), r.virtualIp, false, false)
    && !after.gate && after.restartRequired && after.status == RestartRequired
    && after ==
      v.(store := after.store, peer := after.peer, gate := false, restartRequired := true, status := RestartRequired)
  }

  lemma {:induction false} ConfigRecordIs(fields: Fields, digest: Digest)
    ensures ConfigRecord(fields, digest) == if ConfigFits(fields) then Some(ConfigWants(fields, digest)) else None
  {
    assert "host" != "cliente" by { assert |"host"| != |"cliente"|; }
  }

  lemma {:induction false} DerivedStays(r: PeerRecord, digest: Digest, key: Key)
    requires r.invitationSecret == StoredForm(key)
    ensures Derived(r, digest) == r
  {
    assert StoredForm(key)[..|STORED_KEY_PREFIX|] == STORED_KEY_PREFIX;
  }

  /**
   * A configuration is taken exactly when it is valid and the store is open; the stored record then has
   * its ids, endpoint, derived key and address. One that asks for what is stored already changes nothing,
   * not even an approval; any other is unapproved and needs a restart.
   */
  lemma {:induction false} ConfigOutcome(v: View, fields: Option<Fields>, digest: Digest)
    requires !v.scheduled
    ensures var (after, reply) := Handle(v, SetConfig(fields), digest);
      && (reply == 400 <==> fields == None || !ConfigFits(fields.value))
      && (reply == 503 <==> fields.Some? && ConfigFits(fields.value) && !v.storeOpen)
      && (reply == 200 <==> fields.Some? && ConfigFits(fields.value) && v.storeOpen)
      && (reply == 200 ==>
            var wanted := ConfigWants(fields.value, digest);
            if v.store.record.Some?
              && v.store.record.value.(approved := false, revoked := false) == wanted then after == v
            else HasNewPeer(v, after, wanted, v.store.consumed))
  {
    if fields.Some? {
      ConfigRecordIs(fields.value, digest);
      if ConfigFits(fields.value) {
        DerivedStays(ConfigWants(fields.value, digest), digest, digest(Text(fields.value, "invitation_secret")));
      }
    }
  }

  // ----- the address -----

  /** An address request changes the address in memory, file and display, and nothing else. */
  lemma {:induction false} AddressOutcome(v: View, fields: Option<Fields>, digest: Digest)
    requires !v.scheduled
    ensures var (after, reply) := Handle(v, SetVirtualIp(fields), digest);
      && (reply == 200 || reply == 400 || reply == 503)
      && (reply == 400 <==>
            fields == None ||
            var ip := NonBlank(TextOption(fields.value, "virtual_ip"));
            ip.Some? && ('|' in ip.value || '\n' in ip.value || '\r' in ip.value))
      && (reply != 400 ==> reply == (if v.storeOpen then 200 else 503))
      && (reply == 200 ==>
            var ip := NonBlank(TextOption(fields.value, "virtual_ip"));
            && after.store.record.Some?
            && after.store.record.value ==
                 (if v.store.record.Some? then v.store.record.value.(virtualIp := ip)
                  else PeerRecord("cliente", "local-node", None, "pending.onion", "unconfigured", ip, false, false))
            && after.store == Storing(v.store, after.store.record.value)
            && after == v.(store := after.store, peer := v.peer.(virtualIp := ip)))
  {}

  // ----- the mode -----

  /**
   * A mode is taken whenever it is known. When it is another role than the stored one, the peer is
   * dropped, the gate closed and a restart required; otherwise only the name of the mode changes.
   */
  lemma {:induction false} ModeOutcome(v: View, mode: Option<string>, digest: Digest)
    requires !v.scheduled
    ensures var (after, reply) := Handle(v, SetMode(mode), digest);
      && reply == (if mode.Some? then 200 else 400)
      && (mode.Some? ==>
            var role := if mode.value == "client" then "cliente" else mode.value;
            if v.roleOpen && v.role != Some(role) then
              && after.mode == mode.value && after.role == Some(role)
              && after.store == (if v.storeOpen then Store(None, None, v.store.consumed) else v.store)
              && after.peer == PeerState(false, None, None, None, None, false, false)
              && !after.gate && after.restartRequired && after.status == RestartRequired
              && after.storeOpen == v.storeOpen && after.roleOpen && !after.scheduled && after.service == v.service
            else after == v.(mode := mode.value))
  {}

  // ----- invitations -----

  /** The key text that an imported secret is stored as: derived, unless it looks like a stored key already. */
  function ImportedKey(secret: string, digest: Digest): string {
    if |secret| >= 7 && secret[..7] == "key-v1-" then secret else "key-v1-" + Hex(digest(secret))
  }

  /** The record that an import asks for. */
  function ImportWants(request: ImportRequest, e: InvitationEnvelope, digest: Digest): PeerRecord {
    PeerRecord("cliente", request.nodeId, Some(e.hostNodeId), e.onionEndpoint, ImportedKey(e.invitationSecret, digest),
               NonBlank(request.virtualIp), false, false)
  }

  lemma {:induction false} TakenIs(v: View, request: ImportRequest, e: InvitationEnvelope, digest: Digest)
    ensures HasNewPeer(v, Taken(v, request, e, digest), ImportWants(request, e, digest),
      v.store.consumed + {e.invitationId})
  {
    assert |STORED_KEY_PREFIX| == 7;
    assert Derived(ImportedRecord(request, e), digest) == ImportWants(request, e, digest);
  }

  /** Every way an import can end, in the order in which they are looked at. */
  lemma {:induction false} ImportOutcome(v: View, request: Option<ImportRequest>, now: u64, digest: Digest)
    requires !v.scheduled
    ensures var (after, reply) := Handle(v, Import(request, now), digest);
      match request
      case None => reply == 400
      case Some(request) =>
        match DecodeInvitation(request.invitation, now)
        case Err(e) => reply == (if e == InvitationExpired then 410 else 400)
        case Ok(e) =>
          if !Messages.ValidNodeId(request.nodeId) then reply == 400
          else if !v.storeOpen then reply == 503
          else if e.invitationId in v.store.consumed then reply == 409
          else
            && reply == 200
            && HasNewPeer(v, after, ImportWants(request, e, digest), v.store.consumed + {e.invitationId})
  {
    if request.Some? && DecodeInvitation(request.value.invitation, now).Ok? {
      DecodedInvitationIsTimely(request.value.invitation, now);
      TakenIs(v, request.value, DecodeInvitation(request.value.invitation, now).value, digest);
    }
  }

  // ----- the rest -----

  /** A generated invitation names this device in the display, with its own address if it was just given one. */
  lemma {:induction false} OtherOutcomes(v: View, nodeId: string, ownIp: Option<string>, service: string, reply: Reply,
                                         digest: Digest)
    requires !v.scheduled
    ensures var (after, answer) := Handle(v, Generated(nodeId, ownIp), digest);
      && answer == 200
      && after == v.(peer := v.peer.(configured := true, nodeId := Some(nodeId),
                                     virtualIp := if ownIp.Some? then ownIp else v.peer.virtualIp))
    ensures Handle(v, SetService(service), digest) == (v.(service := service), 200)
    ensures Handle(v, RemovePeer(reply), digest) == (v, reply)
    ensures Handle(v, Query, digest) == (v, 200)
  {}
}
