/** The control interface of the agent: configuring, approving, resetting, switching mode, importing. */
module Agent {
  import opened Wrappers
  import opened Sequences
  import opened Numbers
  import opened TransportKeys
  import opened PeerRecords
  import opened PeerStores
  import opened Invitations

  datatype TransportState =
    Unavailable | Connecting | Connected | Retrying | Disabled | RestartRequired | WaitingForInvitation

  datatype PeerState = PeerState(
    configured: bool, nodeId: Option<string>, hostNodeId: Option<string>, endpoint: Option<string>,
    virtualIp: Option<string>,
    approved: bool, revoked: bool)

  const NO_PEER := PeerState(false, None, None, None, None, false, false)

  /**
   * Everything the handlers touch. `storeOpen` and `roleOpen` are false when the file could not be
   * read at startup; the files themselves are still there.
   */
  datatype View = View(
    mode: string, peer: PeerState, storeOpen: bool, store: Store, roleOpen: bool, role: Option<string>,
    gate: bool, status: TransportState, restartRequired: bool, scheduled: bool, service: string)

  datatype ImportRequest = ImportRequest(nodeId: string, invitation: Token, virtualIp: Option<string>)

  type Fields = map<string, string>

  type Reply = nat

  /**
   * One request as its handler sees it; a body that does not parse for its route is `None`. The
   * registry decides the reply of `RemovePeer`.
   */
  datatype Request =
    | SetConfig(fields: Option<Fields>)
    | Approve
    | Revoke
    | Reset
    | SetVirtualIp(fields: Option<Fields>)
    | SetMode(mode: Option<string>)
    | Import(request: Option<ImportRequest>, now: u64)
    | Generated(nodeId: string, ownIp: Option<string>)
    | RemovePeer(reply: Reply)
    | SetService(service: string)
    | RequestRestart
    | Query

  /** A request as it comes in; on three routes the agent parses the text of the body itself. */
  datatype Call =
    | Config(body: string)
    | VirtualIp(body: string)
    | Mode(body: string, contract: bool)
    | Plain(request: Request)

  function Parsed(c: Call): Request {
    match c
    case Config(body) => SetConfig(ParseFields(body))
    case VirtualIp(body) => SetVirtualIp(ParseFields(body))
    case Mode(body, contract) => SetMode(ParseMode(body, contract))
    case Plain(request) => request
  }

  // ----- what each handler does -----

  function NonBlank(value: Option<string>): Option<string> {
    if value.Some? && Trim(value.value) == "" then None else value
  }

  /** The record a configuration body describes, when all its parts are valid. */
  function ConfigRecord(fields: Fields, digest: Digest): Option<PeerRecord> {
    var role, nodeId := OrEmpty(Get(fields, "role")), OrEmpty(Get(fields, "node_id"));
    var hostNodeId, endpoint := OrEmpty(Get(fields, "host_node_id")), OrEmpty(Get(fields, "onion_endpoint"));
    var secret, virtualIp := OrEmpty(Get(fields, "invitation_secret")), NonBlank(Get(fields, "virtual_ip"));
    if role == "host" && ValidInvitation(nodeId, endpoint, secret) then
      Some(PeerRecord(role, nodeId, None, endpoint, StoredForm(digest(secret)), virtualIp, false, false))
    else if role == "cliente" && ValidClientConfig(nodeId, hostNodeId, endpoint, secret) then
      Some(PeerRecord(role, nodeId, Some(hostNodeId), endpoint, StoredForm(digest(secret)), virtualIp, false, false))
    else None
  }

  predicate SamePeerConfiguration(a: PeerRecord, b: PeerRecord) {
    a.role == b.role && a.nodeId == b.nodeId && a.hostNodeId == b.hostNodeId && a.endpoint == b.endpoint
    && a.invitationSecret == b.invitationSecret && a.virtualIp == b.virtualIp
  }

  /** A new record is unapproved, closes the gate and needs a restart. */
  function PeerChanged(v: View, r: PeerRecord, digest: Digest): View {
    v.(store := Configured(v.store, r, digest),
       peer := PeerState(true, Some(r.nodeId), r.hostNodeId, Some(r.endpoint), r.virtualIp, false, false),
       gate := false, restartRequired := true, status := RestartRequired)
  }

  function ConfigStep(v: View, fields: Option<Fields>, digest: Digest): (View, Reply) {
    match fields
    case None => (v, 400)
    case Some(fields) => ReconfigureStep(v, ConfigRecord(fields, digest), digest)
  }

  function ReconfigureStep(v: View, record: Option<PeerRecord>, digest: Digest): (View, Reply) {
    match record
    case None => (v, 400)
    case Some(r) =>
      if !v.storeOpen then (v, 503)
      else if v.store.record.Some? && SamePeerConfiguration(v.store.record.value, r) then (v, 200)
      else (PeerChanged(v, r, digest), 200)
  }

  function ApprovalStep(v: View, approved: bool): (View, Reply) {
    if !v.storeOpen then (v, 503)
    else
      match Judged(v.store, approved)
      case Err(_) => (v, 404)
      case Ok(store) =>
        (v.(store := store, peer := v.peer.(approved := approved, revoked := !approved),
            gate := approved && !v.restartRequired,
            status := if v.restartRequired then RestartRequired else if approved then Unavailable else Disabled), 200)
  }

  function ResetStep(v: View): (View, Reply) {
    if !v.storeOpen then (v, 503)
    else (v.(store := Cleared(v.store), peer := NO_PEER, gate := false, status := Disabled), 200)
  }

  predicate BreaksHeartbeat(virtualIp: Option<string>) {
    virtualIp.Some? && exists c :: c in virtualIp.value && (c == '|' || c == '\n' || c == '\r')
  }

  function VirtualIpStep(v: View, fields: Option<Fields>): (View, Reply) {
    match fields
    case None => (v, 400)
    case Some(fields) => ReaddressStep(v, NonBlank(Get(fields, "virtual_ip")))
  }

  function ReaddressStep(v: View, virtualIp: Option<string>): (View, Reply) {
    if BreaksHeartbeat(virtualIp) then (v, 400)
    else if !v.storeOpen then (v, 503)
    else (v.(store := Addressed(v.store, virtualIp), peer := v.peer.(virtualIp := virtualIp)), 200)
  }

  predicate KnownMode(mode: string, contract: bool) {
    mode == "host" || mode == "cliente" || (mode == "client" && !contract)
  }

  /** `parse_mode`: exactly one member, `"mode"`, with a known value; white space between tokens is allowed. */
  function ParseMode(body: string, contract: bool): Option<string> {
    var core :- ObjectBody(body);
    var member :- StripPrefix(core, "\"");
    var (key, rest) :- SplitOnce(member, '"');
    if key != "mode" then None else ParseModeValue(rest, contract)
  }

  function ParseModeValue(rest: string, contract: bool): Option<string> {
    var value :- StripPrefix(TrimStart(rest), ":");
    var quoted :- StripPrefix(TrimStart(value), "\"");
    ReadMode(quoted, contract)
  }

  function ReadMode(quoted: string, contract: bool): Option<string> {
    var (mode, tail) :- SplitOnce(quoted, '"');
    if (exists c :: c in mode && Refused(c)) || Trim(tail) != "" || !KnownMode(mode, contract) then None else Some(mode)
  }

  function ModeStep(v: View, mode: Option<string>): (View, Reply) {
    match mode
    case None => (v, 400)
    case Some(mode) => (Switched(v, mode), 200)
  }

  /** A role that differs from the stored one drops the peer, closes the gate and needs a restart. */
  function Switched(v: View, mode: string): View {
    var persisted := if mode == "client" then "cliente" else mode;
    if !v.roleOpen || v.role == Some(persisted) then v.(mode := mode)
    else
      v.(mode := mode, role := Some(persisted), store := if v.storeOpen then Cleared(v.store) else v.store,
         peer := NO_PEER, gate := false, restartRequired := true, status := RestartRequired)
  }

  function ImportStep(v: View, request: Option<ImportRequest>, now: u64, digest: Digest): (View, Reply) {
    match request
    case None => (v, 400)
    case Some(request) => TakeStep(v, request, DecodeInvitation(request.invitation, now), digest)
  }

  function TakeStep(v: View, request: ImportRequest, decoded: Result<InvitationEnvelope, InvitationError>,
                    digest: Digest): (View, Reply)
  {
    match decoded
    case Err(e) => (v, if e == InvitationExpired then 410 else 400)
    case Ok(e) =>
      if !ValidClientConfig(request.nodeId, e.hostNodeId, e.onionEndpoint, e.invitationSecret) then (v, 400)
      else if !v.storeOpen then (v, 503)
      else if e.invitationId in v.store.consumed then (v, 409)
      else (Taken(v, request, e, digest), 200)
  }

  /** The invitation is marked before its record is stored. */
  function Taken(v: View, request: ImportRequest, e: InvitationEnvelope, digest: Digest): View {
    PeerChanged(v.(store := v.store.(consumed := v.store.consumed + {e.invitationId})), ImportedRecord(request, e),
      digest)
  }

  function ImportedRecord(request: ImportRequest, e: InvitationEnvelope): PeerRecord {
    PeerRecord("cliente", request.nodeId, Some(e.hostNodeId), e.onionEndpoint, e.invitationSecret,
               NonBlank(request.virtualIp), false, false)
  }

  function GeneratedStep(v: View, nodeId: string, ownIp: Option<string>): (View, Reply) {
    var peer := if ownIp.Some? then v.peer.(virtualIp := ownIp) else v.peer;
    (v.(peer := peer.(configured := true, nodeId := Some(nodeId))), 200)
  }

  function RestartStep(v: View): (View, Reply) {
    if !v.restartRequired then (v, 409) else (v.(scheduled := true), 202)
  }

  /** One request, handled as one step; once a restart is scheduled every other change is turned away. */
  function Handle(v: View, r: Request, digest: Digest): (View, Reply) {
    if v.scheduled && r != RequestRestart && r != Query then (v, 409)
    else
      match r
      case SetConfig(fields) => ConfigStep(v, fields, digest)
      case Approve => ApprovalStep(v, true)
      case Revoke => ApprovalStep(v, false)
      case Reset => ResetStep(v)
      case SetVirtualIp(fields) => VirtualIpStep(v, fields)
      case SetMode(mode) => ModeStep(v, mode)
      case Import(request, now) => ImportStep(v, request, now, digest)
      case Generated(nodeId, ownIp) => GeneratedStep(v, nodeId, ownIp)
      case RemovePeer(reply) => (v, reply)
      case SetService(service) => (v.(service := service), 200)
      case RequestRestart => RestartStep(v)
      case Query => (v, 200)
  }

  class AgentState {
    var mode: string
    var peer: PeerState
    const store: PeerStore
    var storeOpen: bool
    var roleOpen: bool
    var role: Option<string>
    var gate: bool
    var status: TransportState
    var restartRequired: bool
    var scheduled: bool
    var service: string

    ghost function Now(): View
      reads this, store
    {
      View(mode, peer, storeOpen, store.State(), roleOpen, role, gate, status, restartRequired, scheduled, service)
    }

    /** A process start: the gate and status come from `main`, the rest from the files. */
    constructor (file: Option<string>, consumed: set<string>, digest: Digest, roleOpen: bool, role: Option<string>,
                 gate: bool,
                 status: TransportState)
      ensures store.digest == digest
        && Now() == Booted(Store(file, None, consumed), digest, roleOpen, role, gate, status)
    {
      var peerStore := new PeerStore(file, consumed, digest);
      ghost var opening := Opened(peerStore.State(), digest);
      var read := peerStore.Open();
      var record := peerStore.record;
      assert read.Ok? <==> opening.Ok?;
      store := peerStore;
      storeOpen := read.Ok?;
      this.roleOpen, this.role, this.gate, this.status := roleOpen, role, gate, status;
      restartRequired, scheduled, service := false, false, "running";
      mode := if roleOpen && role.Some? then role.value else "cliente";
      peer := if record.Some? then PeerOf(record.value) else NO_PEER;
    }

    method MarkPeerChanged(r: PeerRecord)
      modifies this, store
      ensures Now() == PeerChanged(old(Now()), r, store.digest)
    {
      store.Configure(r);
      peer := PeerState(true, Some(r.nodeId), r.hostNodeId, Some(r.endpoint), r.virtualIp, false, false);
      gate := false;
      restartRequired := true;
      status := RestartRequired;
    }

    method SetPeerConfig(fields: Option<Fields>) returns (reply: Reply)
      modifies this, store
      ensures (Now(), reply) == ConfigStep(old(Now()), fields, store.digest)
    {
      if fields == None {
        return 400;
      }
      var r := ConfigRecord(fields.value, store.digest);
      if r == None {
        return 400;
      }
      if !storeOpen {
        return 503;
      }
      if store.record.Some? && SamePeerConfiguration(store.record.value, r.value) {
        return 200;
      }
      MarkPeerChanged(r.value);
      return 200;
    }

    method SetPeerApproval(approved: bool) returns (reply: Reply)
      modifies this, store
      ensures (Now(), reply) == ApprovalStep(old(Now()), approved)
    {
      if !storeOpen {
        return 503;
      }
      var written := store.SetApproval(approved);
      if written.Err? {
        return 404;
      }
      peer := peer.(approved := approved, revoked := !approved);
      gate := approved && !restartRequired;
      status := if restartRequired then RestartRequired else if approved then Unavailable else Disabled;
      return 200;
    }

    method ResetPeer() returns (reply: Reply)
      modifies this, store
      ensures (Now(), reply) == ResetStep(old(Now()))
    {
      if !storeOpen {
        return 503;
      }
      store.Clear();
      peer := NO_PEER;
      gate := false;
      status := Disabled;
      return 200;
    }

    method SetVirtualIp(fields: Option<Fields>) returns (reply: Reply)
      modifies this, store
      ensures (Now(), reply) == VirtualIpStep(old(Now()), fields)
    {
      if fields == None {
        return 400;
      }
      var virtualIp := NonBlank(Get(fields.value, "virtual_ip"));
      if BreaksHeartbeat(virtualIp) {
        return 400;
      }
      if !storeOpen {
        return 503;
      }
      store.SetVirtualIp(virtualIp);
      peer := peer.(virtualIp := virtualIp);
      return 200;
    }

    method Switch(parsed: string)
      modifies this, store
      ensures Now() == Switched(old(Now()), parsed)
    {
      var persisted := if parsed == "client" then "cliente" else parsed;
      var changed := roleOpen && role != Some(persisted);
      if changed {
        role := Some(persisted);
      }
      mode := parsed;
      if changed {
        if storeOpen {
          store.Clear();
        }
        peer := NO_PEER;
        gate := false;
        restartRequired := true;
        status := RestartRequired;
      }
    }

    method SetMode(parsed: Option<string>) returns (reply: Reply)
      modifies this, store
      ensures (Now(), reply) == ModeStep(old(Now()), parsed)
    {
      if parsed == None {
        return 400;
      }
      Switch(parsed.value);
      return 200;
    }

    method ImportInvitation(request: Option<ImportRequest>, now: u64) returns (reply: Reply)
      modifies this, store
      ensures (Now(), reply) == ImportStep(old(Now()), request, now, store.digest)
    {
      if request == None {
        return 400;
      }
      var decoded := DecodeInvitation(request.value.invitation, now);
      if decoded.Err? {
        return if decoded.error == InvitationExpired then 410 else 400;
      }
      var e := decoded.value;
      if !ValidClientConfig(request.value.nodeId, e.hostNodeId, e.onionEndpoint, e.invitationSecret) {
        return 400;
      }
      if !storeOpen {
        return 503;
      }
      ghost var before := Now();
      var first := store.ConsumeInvitationId(e.invitationId);
      if !first {
        assert store.consumed == before.store.consumed;
        return 409;
      }
      MarkPeerChanged(ImportedRecord(request.value, e));
      return 200;
    }

    method RequestRuntimeRestart() returns (reply: Reply)
      modifies this
      ensures (Now(), reply) == RestartStep(old(Now()))
    {
      if !restartRequired {
        return 409;
      }
      scheduled := true;
      return 202;
    }

    method Respond(r: Request) returns (reply: Reply)
      modifies this, store
      ensures (Now(), reply) == Handle(old(Now()), r, store.digest)
    {
      if scheduled && r != RequestRestart && r != Query {
        return 409;
      }
      match r {
        case SetConfig(fields) => reply := SetPeerConfig(fields);
        case Approve => reply := SetPeerApproval(true);
        case Revoke => reply := SetPeerApproval(false);
        case Reset => reply := ResetPeer();
        case SetVirtualIp(fields) => reply := this.SetVirtualIp(fields);
        case SetMode(parsed) => reply := this.SetMode(parsed);
        case Import(request, now) => reply := ImportInvitation(request, now);
        case Generated(nodeId, ownIp) =>
          if ownIp.Some? {
            peer := peer.(virtualIp := ownIp);
          }
          peer := peer.(configured := true, nodeId := Some(nodeId));
          reply := 200;
        case RemovePeer(removed) => reply := removed;
        case SetService(state) =>
          service := state;
          reply := 200;
        case RequestRestart => reply := RequestRuntimeRestart();
        case Query => reply := 200;
      }
    }

    /** A request as it comes in. */
    method Answer(c: Call) returns (reply: Reply)
      modifies this, store
      ensures (Now(), reply) == Handle(old(Now()), Parsed(c), store.digest)
    {
      match c {
        case Config(body) =>
          var fields := ParseJsonFields(body);
          reply := Respond(SetConfig(fields));
        case VirtualIp(body) =>
          var fields := ParseJsonFields(body);
          reply := Respond(Request.SetVirtualIp(fields));
        case Mode(body, contract) =>
          reply := Respond(Request.SetMode(ParseMode(body, contract)));
        case Plain(request) => reply := Respond(request);
      }
    }
  }

  function PeerOf(r: PeerRecord): PeerState {
    PeerState(true, Some(r.nodeId), r.hostNodeId, Some(r.endpoint), r.virtualIp, r.approved, r.revoked)
  }

  /** A fresh process over the files left behind. */
  function Booted(files: Store, digest: Digest, roleOpen: bool, role: Option<string>, gate: bool,
                  status: TransportState): View
    requires files.record == None
  {
    BootedFrom(Opened(files, digest), files, roleOpen, role, gate, status)
  }

  function BootedFrom(opening: Result<Store, StoreError>, files: Store, roleOpen: bool, role: Option<string>,
                      gate: bool,
                      status: TransportState): View
  {
    var mode := if roleOpen && role.Some? then role.value else "cliente";
    match opening
    case Err(_) => View(mode, NO_PEER, false, files, roleOpen, role, gate, status, false, false, "running")
    case Ok(store) =>
      var peer := if store.record.Some? then PeerOf(store.record.value) else NO_PEER;
      View(mode, peer, true, store, roleOpen, role, gate, status, false, false, "running")
  }
}
