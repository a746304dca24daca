/** The agent over whole runs: requests one after another, and process restarts on the same files. */
module AgentRuns {
  import opened Wrappers
  import opened Numbers
  import opened PeerRecords
  import opened PeerStores
  import opened Invitations
  import opened Agent
  import opened Runs

  datatype Event =
    | Ask(request: Request)
    | Reboot(gate: bool, status: TransportState)

  /** An import that was answered with success. */
  datatype Imported = Imported(id: string, issuedAt: u64, expiresAt: u64, at: u64)

  datatype Run = Run(view: View, imports: seq<Imported>)

  function NewImports(v: View, r: Request, digest: Digest): (imports: seq<Imported>)
    ensures |imports| <= 1
  {
    if r.Import? && r.request.Some? && !v.scheduled && ImportStep(v, r.request, r.now, digest).1 == 200 then
      match DecodeInvitation(r.request.value.invitation, r.now)
      case Ok(e) => [Imported(e.invitationId, e.issuedAt, e.expiresAt, r.now)]
      case Err(_) => []
    else []
  }

  function Files(s: Store): Store {
    s.(record := None)
  }

  function Next(run: Run, e: Event, digest: Digest): Run {
    match e
    case Ask(r) => Run(Handle(run.view, r, digest).0, run.imports + NewImports(run.view, r, digest))
    case Reboot(gate, status) =>
      run.(view := Booted(Files(run.view.store), digest, run.view.roleOpen, run.view.role, gate, status))
  }

  function Stepping(digest: Digest): (Run, Event) -> Run {
    (run, e) => Next(run, e, digest)
  }

  function RunAt(start: View, events: seq<Event>, digest: Digest, n: nat): Run
    requires n <= |events|
  {
    StateAt(Stepping(digest), Run(start, []), events, n)
  }

  /** No restart between the two moments. */
  ghost predicate SameProcess(events: seq<Event>, n: nat, m: nat)
    requires n <= m <= |events|
  {
    forall k :: n <= k < m ==> events[k].Ask?
  }

  function Asks(calls: seq<Call>): seq<Event> {
    seq(|calls|, i requires 0 <= i < |calls| => Ask(Parsed(calls[i])))
  }

  /** The server's loop, one request after another: what the agent is afterwards is the end of their run. */
  method Serve(agent: AgentState, calls: seq<Call>)
    modifies agent, agent.store
    ensures agent.Now() == RunAt(old(agent.Now()), Asks(calls), agent.store.digest, |calls|).view
  {
    ghost var start := agent.Now();
    ghost var events := Asks(calls);
    var i := 0;
    while i < |calls|
      invariant 0 <= i <= |calls| == |events|
      invariant agent.Now() == RunAt(start, events, agent.store.digest, i).view
    {
      assert events[i] == Ask(Parsed(calls[i]));
      StepIsNext(start, events, agent.store.digest, i);
      var reply := agent.Answer(calls[i]);
      i := i + 1;
    }
  }

  lemma StepIsNext(start: View, events: seq<Event>, digest: Digest, n: nat)
    requires n < |events|
    ensures RunAt(start, events, digest, n + 1) == Next(RunAt(start, events, digest, n), events[n], digest)
  {}

  // ----- what every request keeps -----

  /** Approval in memory is approval in the stored record; without a record there is neither. */
  predicate Agrees(v: View) {
    match v.store.record
    case None => !v.peer.approved && !v.peer.revoked
    case Some(r) => v.peer.approved == r.approved && v.peer.revoked == r.revoked
  }

  predicate Inv(v: View) {
    && Agrees(v)
    && (v.restartRequired ==> !v.gate)
    && (v.scheduled ==> v.restartRequired)
    && (!v.storeOpen ==> v.store.record == None)
  }

  lemma ChangedKeepsInv(v: View, r: PeerRecord, digest: Digest)
    requires v.storeOpen && !r.approved && !r.revoked
    ensures Inv(PeerChanged(v, r, digest))
  {
    var stored := Derived(r, digest);
    assert !stored.approved && !stored.revoked;
  }

  lemma ReconfigureKeepsInv(v: View, record: Option<PeerRecord>, digest: Digest)
    requires Inv(v) && (record.Some? ==> !record.value.approved && !record.value.revoked)
    ensures Inv(ReconfigureStep(v, record, digest).0)
  {
    if record.Some? && v.storeOpen {
      ChangedKeepsInv(v, record.value, digest);
    }
  }

  lemma ConfigKeepsInv(v: View, fields: Option<Fields>, digest: Digest)
    requires Inv(v)
    ensures Inv(ConfigStep(v, fields, digest).0)
  {
    if fields.Some? {
      ReconfigureKeepsInv(v, ConfigRecord(fields.value, digest), digest);
    }
  }

  lemma ModeKeepsInv(v: View, mode: Option<string>)
    requires Inv(v)
    ensures Inv(ModeStep(v, mode).0)
  {
    if mode.Some? {
      assert Inv(Switched(v, mode.value));
    }
  }

  lemma VirtualIpKeepsInv(v: View, fields: Option<Fields>)
    requires Inv(v)
    ensures Inv(VirtualIpStep(v, fields).0)
  {}

  lemma ImportKeepsInv(v: View, request: Option<ImportRequest>, now: u64, digest: Digest)
    requires Inv(v)
    ensures Inv(ImportStep(v, request, now, digest).0)
  {
    if ImportStep(v, request, now, digest).1 == 200 {
      var e := DecodeInvitation(request.value.invitation, now).value;
      ChangedKeepsInv(v.(store := v.store.(consumed := v.store.consumed + {e.invitationId})),
        ImportedRecord(request.value, e), digest);
    }
  }

  lemma RequestKeepsInv(v: View, r: Request, digest: Digest)
    requires Inv(v)
    ensures Inv(Handle(v, r, digest).0)
  {
    if !v.scheduled {
      match r {
        case SetConfig(fields) => ConfigKeepsInv(v, fields, digest);
        case SetMode(mode) => ModeKeepsInv(v, mode);
        case SetVirtualIp(fields) => VirtualIpKeepsInv(v, fields);
        case Import(request, now) => ImportKeepsInv(v, request, now, digest);
        case _ =>
      }
    }
  }

  lemma BootEstablishesInv(opening: Result<Store, StoreError>, files: Store, roleOpen: bool, role: Option<string>,
                           gate: bool,
                           status: TransportState)
    requires files.record == None
    ensures Inv(BootedFrom(opening, files, roleOpen, role, gate, status))
  {}

  lemma NextKeepsInv(run: Run, e: Event, digest: Digest)
    requires Inv(run.view)
    ensures Inv(Next(run, e, digest).view)
  {
    match e {
      case Ask(r) => RequestKeepsInv(run.view, r, digest);
      case Reboot(gate, status) =>
        var files := Files(run.view.store);
        BootEstablishesInv(Opened(files, digest), files, run.view.roleOpen, run.view.role, gate, status);
    }
  }

  lemma Reachable(start: View, events: seq<Event>, digest: Digest, n: nat)
    requires Inv(start) && n <= |events|
    ensures Inv(RunAt(start, events, digest, n).view)
  {
    forall run: Run, i | 0 <= i < n && Inv(run.view) ensures Inv(Stepping(digest)(run, events[i]).view) {
      NextKeepsInv(run, events[i], digest);
    }
    KeptBetween(Stepping(digest), Run(start, []), events, 0, n, (run: Run) => Inv(run.view));
  }

  /** At every moment the peer's approval in memory is the one in the stored record. */
  lemma ApprovalMatchesRecord(start: View, events: seq<Event>, digest: Digest, n: nat)
    requires Inv(start) && n <= |events|
    ensures Agrees(RunAt(start, events, digest, n).view)
  {
    Reachable(start, events, digest, n);
  }

  // ----- the transport gate -----

  /** Within a process the gate opens through approval alone, and never while a restart is due. */
  lemma GateOpensOnlyByApproval(v: View, r: Request, digest: Digest)
    requires !v.gate && Handle(v, r, digest).0.gate
    ensures r == Approve && !v.restartRequired && !v.scheduled && v.storeOpen && v.store.record.Some?
    ensures Handle(v, r, digest).0.store.record.value.approved
  {
    if r.SetMode? {
      ModeNeverOpensGate(v, r.mode);
    } else if r.SetConfig? {
      ConfigNeverOpensGate(v, r.fields, digest);
    }
  }

  lemma ModeNeverOpensGate(v: View, mode: Option<string>)
    ensures ModeStep(v, mode).0.gate ==> v.gate
  {}

  lemma ConfigNeverOpensGate(v: View, fields: Option<Fields>, digest: Digest)
    ensures ConfigStep(v, fields, digest).0.gate ==> v.gate
  {}

  lemma ConfigKeepsRestart(v: View, fields: Option<Fields>, digest: Digest)
    ensures v.restartRequired ==> ConfigStep(v, fields, digest).0.restartRequired
  {}

  lemma ModeKeepsRestart(v: View, mode: Option<string>)
    ensures v.restartRequired ==> ModeStep(v, mode).0.restartRequired
  {}

  lemma VirtualIpKeepsRestart(v: View, fields: Option<Fields>)
    ensures v.restartRequired ==> VirtualIpStep(v, fields).0.restartRequired
  {}

  lemma ImportKeepsRestart(v: View, request: Option<ImportRequest>, now: u64, digest: Digest)
    ensures v.restartRequired ==> ImportStep(v, request, now, digest).0.restartRequired
  {}

  lemma RestartStaysRequired(v: View, r: Request, digest: Digest)
    requires v.restartRequired
    ensures Handle(v, r, digest).0.restartRequired
  {
    match r {
      case SetConfig(fields) => ConfigKeepsRestart(v, fields, digest);
      case SetMode(mode) => ModeKeepsRestart(v, mode);
      case SetVirtualIp(fields) => VirtualIpKeepsRestart(v, fields);
      case Import(request, now) => ImportKeepsRestart(v, request, now, digest);
      case _ =>
    }
  }

  lemma RestartIsRequiredUntilReboot(start: View, events: seq<Event>, digest: Digest, n: nat, m: nat)
    requires n <= m <= |events| && SameProcess(events, n, m)
    ensures RunAt(start, events, digest, n).view.restartRequired ==>
      RunAt(start, events, digest, m).view.restartRequired
  {
    forall run: Run, i | n <= i < m && run.view.restartRequired
      ensures Stepping(digest)(run, events[i]).view.restartRequired
    {
      RestartStaysRequired(run.view, events[i].request, digest);
    }
    if RunAt(start, events, digest, n).view.restartRequired {
      KeptBetween(Stepping(digest), Run(start, []), events, n, m, (run: Run) => run.view.restartRequired);
    }
  }

  /** Once a restart is required, no sequence of requests opens the gate again in this process. */
  lemma GateStaysClosed(start: View, events: seq<Event>, digest: Digest, n: nat, m: nat)
    requires Inv(start) && n <= m <= |events| && SameProcess(events, n, m)
    ensures RunAt(start, events, digest, n).view.restartRequired ==>
      RunAt(start, events, digest, m).view.restartRequired && !RunAt(start, events, digest, m).view.gate
  {
    RestartIsRequiredUntilReboot(start, events, digest, n, m);
    Reachable(start, events, digest, m);
  }

  lemma ScheduledRequestChangesNothing(run: Run, r: Request, digest: Digest)
    requires run.view.scheduled && run.view.restartRequired
    ensures Next(run, Ask(r), digest) == run
  {
    assert NewImports(run.view, r, digest) == [];
    assert Handle(run.view, r, digest).0 == run.view;
  }

  /** Once a restart is scheduled, nothing changes any more: not the record, the mode or the gate. */
  lemma ScheduledRestartFreezes(start: View, events: seq<Event>, digest: Digest, n: nat, m: nat)
    requires Inv(start) && n <= m <= |events| && SameProcess(events, n, m)
    ensures RunAt(start, events, digest, n).view.scheduled ==>
      RunAt(start, events, digest, m) == RunAt(start, events, digest, n)
  {
    Reachable(start, events, digest, n);
    var frozen := RunAt(start, events, digest, n);
    if frozen.view.scheduled {
      forall i | n <= i < m ensures Stepping(digest)(frozen, events[i]) == frozen {
        ScheduledRequestChangesNothing(frozen, events[i].request, digest);
      }
      KeptBetween(Stepping(digest), Run(start, []), events, n, m, (run: Run) => run == frozen);
    }
  }

  // ----- the file -----

  /** While the store is open, memory and file say the same. */
  ghost predicate FileInv(v: View, digest: Digest) {
    v.storeOpen ==> InStep(v.store, digest)
  }

  /** A request writes the record it then holds, or clears both file and record, or touches neither. */
  ghost predicate WritesOrKeeps(v: View, after: View) {
    && after.storeOpen == v.storeOpen
    && v.store.consumed <= after.store.consumed
    && (SamePeerFile(after.store, v.store) || Emptied(after.store) || WrittenOut(after.store))
  }

  predicate SamePeerFile(s: Store, t: Store) {
    s.record == t.record && s.file == t.file
  }

  predicate Emptied(s: Store) {
    s.record == None && s.file == None
  }

  predicate WrittenOut(s: Store) {
    s.record.Some? && s == Written(s, s.record.value)
  }

  lemma ConfigWritesOrKeeps(v: View, fields: Option<Fields>, digest: Digest)
    ensures WritesOrKeeps(v, ConfigStep(v, fields, digest).0)
  {}

  lemma ModeWritesOrKeeps(v: View, mode: Option<string>)
    ensures WritesOrKeeps(v, ModeStep(v, mode).0)
  {
    if mode.Some? {
      assert WritesOrKeeps(v, Switched(v, mode.value));
    }
  }

  lemma VirtualIpWritesOrKeeps(v: View, fields: Option<Fields>)
    ensures WritesOrKeeps(v, VirtualIpStep(v, fields).0)
  {}

  lemma TakeWritesOrKeeps(v: View, request: ImportRequest, decoded: Result<InvitationEnvelope, InvitationError>,
                          digest: Digest)
    ensures WritesOrKeeps(v, TakeStep(v, request, decoded, digest).0)
  {}

  lemma ImportWritesOrKeeps(v: View, request: Option<ImportRequest>, now: u64, digest: Digest)
    ensures WritesOrKeeps(v, ImportStep(v, request, now, digest).0)
  {
    if request.Some? {
      TakeWritesOrKeeps(v, request.value, DecodeInvitation(request.value.invitation, now), digest);
    }
  }

  lemma HandleWritesOrKeeps(v: View, r: Request, digest: Digest)
    ensures WritesOrKeeps(v, Handle(v, r, digest).0)
  {
    if !v.scheduled {
      match r {
        case SetConfig(fields) => ConfigWritesOrKeeps(v, fields, digest);
        case SetMode(mode) => ModeWritesOrKeeps(v, mode);
        case SetVirtualIp(fields) => VirtualIpWritesOrKeeps(v, fields);
        case Import(request, now) => ImportWritesOrKeeps(v, request, now, digest);
        case _ =>
      }
    }
  }

  lemma WritingOrKeepingStaysInStep(v: View, after: View, digest: Digest)
    requires FileInv(v, digest) && WritesOrKeeps(v, after)
    ensures FileInv(after, digest)
  {
    if after.storeOpen && WrittenOut(after.store) {
      WrittenIsInStep(after.store, after.store.record.value, digest);
    }
  }

  lemma HandleKeepsFile(v: View, r: Request, digest: Digest)
    requires FileInv(v, digest)
    ensures FileInv(Handle(v, r, digest).0, digest)
  {
    HandleWritesOrKeeps(v, r, digest);
    WritingOrKeepingStaysInStep(v, Handle(v, r, digest).0, digest);
  }

  lemma NextKeepsFile(run: Run, e: Event, digest: Digest)
    requires FileInv(run.view, digest)
    ensures FileInv(Next(run, e, digest).view, digest)
  {
    match e {
      case Ask(r) => HandleKeepsFile(run.view, r, digest);
      case Reboot(gate, status) =>
        if Opened(Files(run.view.store), digest).Ok? {
          OpenedIsInStep(Files(run.view.store), digest);
        }
    }
  }

  lemma FileReachable(start: View, events: seq<Event>, digest: Digest, n: nat)
    requires FileInv(start, digest) && n <= |events|
    ensures FileInv(RunAt(start, events, digest, n).view, digest)
  {
    forall run: Run, i | 0 <= i < n && FileInv(run.view, digest)
      ensures FileInv(Stepping(digest)(run, events[i]).view, digest)
    {
      NextKeepsFile(run, events[i], digest);
    }
    KeptBetween(Stepping(digest), Run(start, []), events, 0, n, (run: Run) => FileInv(run.view, digest));
  }

  /** A restart resumes with the record, the approval and the role it stopped with, if the record is storable. */
  lemma RestartResumes(start: View, events: seq<Event>, digest: Digest, n: nat)
    requires Inv(start) && FileInv(start, digest) && n < |events| && events[n].Reboot?
    requires var v := RunAt(start, events, digest, n).view;
      v.storeOpen && (v.store.record.Some? ==> Storable(v.store.record.value))
    ensures var v, after := RunAt(start, events, digest, n).view, RunAt(start, events, digest, n + 1).view;
      && after.storeOpen && after.store == v.store && after.role == v.role
      && after.peer.approved == v.peer.approved && after.peer.revoked == v.peer.revoked && !after.restartRequired
  {
    Reachable(start, events, digest, n);
    FileReachable(start, events, digest, n);
    var v := RunAt(start, events, digest, n).view;
    ReopeningRestores(v.store, digest);
    assert Opened(Files(v.store), digest) == Ok(v.store);
    StepIsNext(start, events, digest, n);
  }

  // ----- invitations -----

  ghost predicate ImportInv(run: Run) {
    && (forall i :: 0 <= i < |run.imports| ==> run.imports[i].id in run.view.store.consumed && Timely(run.imports[i]))
    && (forall i, j :: 0 <= i < j < |run.imports| ==> run.imports[i].id != run.imports[j].id)
  }

  predicate Timely(i: Imported) {
    i.issuedAt - MAX_INVITATION_CLOCK_SKEW_SECS <= i.at < i.expiresAt
  }

  lemma MarkersAreKept(v: View, r: Request, digest: Digest)
    ensures v.store.consumed <= Handle(v, r, digest).0.store.consumed
  {
    HandleWritesOrKeeps(v, r, digest);
  }

  lemma NewImportIsMarked(v: View, r: Request, digest: Digest)
    ensures forall i :: i in NewImports(v, r, digest) ==>
      i.id !in v.store.consumed && i.id in Handle(v, r, digest).0.store.consumed && Timely(i)
  {
    if NewImports(v, r, digest) != [] {
      DecodedInvitationIsTimely(r.request.value.invitation, r.now);
    }
  }

  lemma NextKeepsImports(run: Run, e: Event, digest: Digest)
    requires ImportInv(run)
    ensures ImportInv(Next(run, e, digest))
  {
    if e.Ask? {
      MarkersAreKept(run.view, e.request, digest);
      var added := NewImports(run.view, e.request, digest);
      NewImportIsMarked(run.view, e.request, digest);
      ExtendImports(run, Handle(run.view, e.request, digest).0, added);
    } else {
      BootKeepsMarkers(Files(run.view.store), digest);
      ExtendImports(run, Next(run, e, digest).view, []);
      assert run.imports + [] == run.imports;
    }
  }

  lemma BootKeepsMarkers(files: Store, digest: Digest)
    ensures Opened(files, digest).Ok? ==> Opened(files, digest).value.consumed == files.consumed
  {}

  lemma ExtendImports(run: Run, view: View, added: seq<Imported>)
    requires ImportInv(run) && run.view.store.consumed <= view.store.consumed && |added| <= 1
    requires added != [] ==>
      added[0].id !in run.view.store.consumed && added[0].id in view.store.consumed && Timely(added[0])
    ensures ImportInv(Run(view, run.imports + added))
  {}

  lemma ImportsReachable(start: View, events: seq<Event>, digest: Digest, n: nat)
    requires n <= |events|
    ensures ImportInv(RunAt(start, events, digest, n))
  {
    forall run: Run, i | 0 <= i < n && ImportInv(run) ensures ImportInv(Stepping(digest)(run, events[i])) {
      NextKeepsImports(run, events[i], digest);
    }
    KeptBetween(Stepping(digest), Run(start, []), events, 0, n, (run: Run) => ImportInv(run));
  }

  /**
   * Over any run of requests, resets, mode changes and restarts on the same files, each invitation is
   * imported at most once, and only between one clock skew before its issue and its expiry.
   */
  lemma InvitationsAreUsedOnce(start: View, events: seq<Event>, digest: Digest, n: nat)
    requires n <= |events|
    ensures var imports := RunAt(start, events, digest, n).imports;
      && (forall i, j :: 0 <= i < j < |imports| ==> imports[i].id != imports[j].id)
      && (forall i :: 0 <= i < |imports| ==> Timely(imports[i]))
  {
    ImportsReachable(start, events, digest, n);
  }

  lemma ImportTakes(v: View, request: ImportRequest, e: InvitationEnvelope, now: u64, digest: Digest)
    requires v.storeOpen && !v.scheduled && e.invitationId !in v.store.consumed
    requires Messages.ValidNodeId(request.nodeId) && DecodeInvitation(request.invitation, now) == Ok(e)
    ensures Handle(v, Import(Some(request), now), digest) == (Taken(v, request, e, digest), 200)
  {
    DecodedInvitationIsTimely(request.invitation, now);
    assert TakeStep(v, request, Ok(e), digest) == (Taken(v, request, e, digest), 200);
  }

  lemma NextKeepsMarker(run: Run, e: Event, digest: Digest, id: string)
    requires id in run.view.store.consumed
    ensures id in Next(run, e, digest).view.store.consumed
  {
    match e {
      case Ask(r) => MarkersAreKept(run.view, r, digest);
      case Reboot(_, _) => BootKeepsMarkers(Files(run.view.store), digest);
    }
  }

  lemma MarkedIsRefused(v: View, request: ImportRequest, now: u64, digest: Digest)
    requires request.invitation.envelope.Some? && request.invitation.envelope.value.invitationId in v.store.consumed
    ensures Handle(v, Import(Some(request), now), digest).1 != 200
  {}

  /**
   * An invitation handed out by a Host with a valid device id, taken in its window by an open store that
   * has not seen it, is imported under any valid name; and after that, whatever requests and restarts
   * follow, no request imports one with its id again.
   */
  lemma GeneratedInvitationImportsOnce(nodeId: string, ttl: u64, endpoint: string, deviceId: string, issued: u64,
                                       id: string, secret: string,
                                       v: View, request: ImportRequest, now: u64, digest: Digest,
                                       events: seq<Event>, n: nat, again: ImportRequest, later: u64)
    requires ValidInvitationId(id) && Messages.ValidNodeId(deviceId)
    requires GenerateInvitation(nodeId, ttl, endpoint, deviceId, issued, id, secret).Ok?
    requires request.invitation ==
      EncodeInvitation(GenerateInvitation(nodeId, ttl, endpoint, deviceId, issued, id, secret).value)
    requires Messages.ValidNodeId(request.nodeId) && issued - MAX_INVITATION_CLOCK_SKEW_SECS <= now < issued + ttl
    requires v.storeOpen && !v.scheduled && id !in v.store.consumed
    requires n <= |events| && again.invitation.envelope.Some? && again.invitation.envelope.value.invitationId == id
    ensures var e := GenerateInvitation(nodeId, ttl, endpoint, deviceId, issued, id, secret).value;
      var (after, reply) := Handle(v, Import(Some(request), now), digest);
      && reply == 200 && after == Taken(v, request, e, digest)
      && Handle(RunAt(after, events, digest, n).view, Import(Some(again), later), digest).1 != 200
  {
    var e := GenerateInvitation(nodeId, ttl, endpoint, deviceId, issued, id, secret).value;
    GeneratedInvitationDecodes(nodeId, ttl, endpoint, deviceId, issued, id, secret, now);
    ImportTakes(v, request, e, now, digest);
    var after := Taken(v, request, e, digest);
    forall run: Run, i | 0 <= i < n && id in run.view.store.consumed
      ensures id in Stepping(digest)(run, events[i]).view.store.consumed
    {
      NextKeepsMarker(run, events[i], digest, id);
    }
    KeptBetween(Stepping(digest), Run(after, []), events, 0, n, (run: Run) => id in run.view.store.consumed);
    MarkedIsRefused(RunAt(after, events, digest, n).view, again, later, digest);
  }
}
