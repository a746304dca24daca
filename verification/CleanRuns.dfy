/**
 * What keeps the peer file readable: the addresses that requests carry. Everything else a handler
 * stores was checked to be made of characters that the file's parser takes.
 */
module CleanRuns {
  import opened Wrappers
  import opened Sequences
  import opened Numbers
  import Messages
  import opened TransportKeys
  import opened PeerRecords
  import opened PeerStores
  import opened Invitations
  import opened Agent
  import opened AgentRuns
  import opened Runs

  // ----- checked texts are clean -----

  lemma ValidTextsAreClean(nodeId: string, endpoint: string, secret: string)
    requires ValidInvitation(nodeId, endpoint, secret)
    ensures nodeId != "" && Clean(nodeId) && endpoint != "" && Clean(endpoint) && secret != "" && Clean(secret)
  {
    assert Clean(".onion");
    var name := StripSuffix(endpoint, ".onion").value;
    assert endpoint == name + ".onion";
    assert Clean(name);
  }

  lemma NodeIdIsClean(nodeId: string)
    requires Messages.ValidNodeId(nodeId)
    ensures nodeId != "" && Clean(nodeId)
  {}

  lemma StoredFormIsClean(key: Key)
    ensures StoredForm(key) != "" && Clean(StoredForm(key))
  {
    assert Clean(STORED_KEY_PREFIX);
    assert Clean(Hex(key));
  }

  lemma NonBlankIsNonEmpty(value: Option<string>)
    ensures NonBlank(value).Some? ==> NonBlank(value).value != ""
  {
    assert Trim("") == "";
  }

  lemma RolesAreClean()
    ensures Clean("host") && Clean("cliente")
  {}

  lemma PlaceholderTextsAreClean()
    ensures Clean("local-node") && Clean("pending.onion") && Clean("unconfigured")
  {}

  predicate CleanAddress(virtualIp: Option<string>) {
    virtualIp.Some? ==> Clean(virtualIp.value)
  }

  /** A record with checked texts, whose only unchecked part is its address. */
  predicate TextsChecked(r: PeerRecord) {
    Storable(r.(virtualIp := None)) && (r.virtualIp.Some? ==> r.virtualIp.value != "")
  }

  lemma CheckedIsStorableIff(r: PeerRecord)
    requires TextsChecked(r)
    ensures Storable(r) <==> CleanAddress(r.virtualIp)
  {}

  lemma DerivedIsChecked(r: PeerRecord, digest: Digest)
    requires TextsChecked(r)
    ensures TextsChecked(Derived(r, digest))
  {
    StoredFormIsClean(digest(r.invitationSecret));
  }

  lemma ConfiguredIsChecked(fields: Fields, digest: Digest)
    requires ConfigRecord(fields, digest).Some?
    ensures TextsChecked(ConfigRecord(fields, digest).value)
  {
    var r := ConfigRecord(fields, digest).value;
    var secret := OrEmpty(Get(fields, "invitation_secret"));
    StoredFormIsClean(digest(secret));
    NonBlankIsNonEmpty(Get(fields, "virtual_ip"));
    NodeIdIsClean(r.nodeId);
    ValidTextsAreClean(if r.hostNodeId.Some? then r.hostNodeId.value else r.nodeId, r.endpoint, secret);
    RolesAreClean();
  }

  lemma ImportedIsChecked(request: ImportRequest, e: InvitationEnvelope)
    requires ValidClientConfig(request.nodeId, e.hostNodeId, e.onionEndpoint, e.invitationSecret)
    ensures TextsChecked(ImportedRecord(request, e))
  {
    NodeIdIsClean(request.nodeId);
    ValidTextsAreClean(e.hostNodeId, e.onionEndpoint, e.invitationSecret);
    NonBlankIsNonEmpty(request.virtualIp);
    RolesAreClean();
  }

  lemma PlaceholderIsChecked()
    ensures TextsChecked(PLACEHOLDER)
  {
    RolesAreClean();
    PlaceholderTextsAreClean();
  }

  predicate HoldsChecked(s: Store) {
    HoldsTexts(s, false)
  }

  // ----- one request that sets the address -----

  /** What the next start makes of a checked record in the file: all of it, or nothing when the address is not clean. */
  lemma CheckedReopens(s: Store, r: PeerRecord, digest: Digest)
    requires TextsChecked(r)
    ensures Opened(Written(s, r), digest) ==
      if CleanAddress(r.virtualIp) then Ok(Written(s, r)) else Err(InvalidPeerStore)
  {
    CheckedIsStorableIff(r);
    WrittenReopensIff(s, r, digest);
    ReadOfPrint(r, digest);
  }

  lemma OpeningForgetsMemory(s: Store, digest: Digest)
    ensures Opened(Files(s), digest) == Opened(s, digest)
  {}

  lemma AddressedReopens(s: Store, virtualIp: Option<string>, digest: Digest)
    requires HoldsChecked(s) && virtualIp != Some("")
    ensures var after := Addressed(s, virtualIp);
      Opened(Files(after), digest) == if CleanAddress(virtualIp) then Ok(after) else Err(InvalidPeerStore)
  {
    PlaceholderIsChecked();
    var r := (if s.record.Some? then s.record.value else PLACEHOLDER).(virtualIp := virtualIp);
    CheckedReopens(s, r, digest);
    OpeningForgetsMemory(Addressed(s, virtualIp), digest);
  }

  /**
   * Success unless the address would break heartbeats; and then the next start finds the store as it
   * is, if the address is clean, and cannot read it at all otherwise.
   */
  predicate AddressSurvives(outcome: (View, Reply), virtualIp: Option<string>, digest: Digest) {
    && (outcome.1 == 200 <==> !BreaksHeartbeat(virtualIp))
    && (outcome.1 == 200 ==>
          Opened(Files(outcome.0.store), digest) ==
            if CleanAddress(virtualIp) then Ok(outcome.0.store) else Err(InvalidPeerStore))
  }

  lemma ReaddressSurvives(v: View, virtualIp: Option<string>, digest: Digest)
    requires v.storeOpen && HoldsChecked(v.store) && virtualIp != Some("")
    ensures AddressSurvives(ReaddressStep(v, virtualIp), virtualIp, digest)
  {
    AddressedReopens(v.store, virtualIp, digest);
  }

  lemma HandleReaddresses(v: View, fields: Fields, digest: Digest)
    requires !v.scheduled
    ensures Handle(v, SetVirtualIp(Some(fields)), digest) == ReaddressStep(v, NonBlank(Get(fields, "virtual_ip")))
  {}

  /**
   * So it is for every request for an address, whether it goes into the stored record or, when there
   * is none, into a placeholder.
   */
  lemma AddressSurvivesRestartIff(v: View, fields: Fields, digest: Digest)
    requires v.storeOpen && !v.scheduled && HoldsChecked(v.store)
    ensures AddressSurvives(Handle(v, SetVirtualIp(Some(fields)), digest), NonBlank(Get(fields, "virtual_ip")), digest)
  {
    NonBlankIsNonEmpty(Get(fields, "virtual_ip"));
    ReaddressSurvives(v, NonBlank(Get(fields, "virtual_ip")), digest);
    HandleReaddresses(v, fields, digest);
  }

  /** The body of a request for an address, as the control page sends it. */
  function AddressBody(virtualIp: string): string {
    "{" + QuotedItem("virtual_ip", virtualIp) + "}"
  }

  function QuotedItem(key: string, value: string): string {
    Head(Field(key, value, true)) + ("\"" + value + "\"")
  }

  lemma QuotedItemParses(key: string, value: string)
    requires PlainKey(key) && forall c :: c in value ==> !Refused(c)
    ensures ParseItem(QuotedItem(key, value)) == Some((key, value))
  {
    ParseItemAfterKey(Field(key, value, true), "\"" + value + "\"");
    QuotedTrimsToItself(value);
  }

  lemma ItemParsesAlone(item: string, key: string, value: string)
    requires ParseItem(item) == Some((key, value))
    ensures ParseItems([item], map[]) == Some(map[key := value])
  {
    assert [item][1..] == [];
  }

  lemma SoleItemParses(item: string, key: string, value: string)
    requires ParseItem(item) == Some((key, value)) && ',' !in item
    requires item != "" && !IsWhitespace(item[0]) && !IsWhitespace(item[|item| - 1])
    ensures PeerRecords.ParseFields("{" + item + "}") == Some(map[key := value])
  {
    BracedBody(item);
    SplitWithout(item, ',');
    ItemParsesAlone(item, key, value);
  }

  lemma QuotedItemEnds(key: string, value: string)
    requires PlainKey(key) && ',' !in value
    ensures var item := QuotedItem(key, value);
      item != "" && item[0] == '"' && item[|item| - 1] == '"' && ',' !in item
  {}

  lemma AddressKeyIsPlain()
    ensures PlainKey("virtual_ip")
  {}

  lemma AddressCallIs(virtualIp: string)
    requires ',' !in virtualIp && forall c :: c in virtualIp ==> !Refused(c)
    ensures Parsed(VirtualIp(AddressBody(virtualIp))) == SetVirtualIp(Some(map["virtual_ip" := virtualIp]))
  {
    AddressKeyIsPlain();
    QuotedItemParses("virtual_ip", virtualIp);
    QuotedItemEnds("virtual_ip", virtualIp);
    SoleItemParses(QuotedItem("virtual_ip", virtualIp), "virtual_ip", virtualIp);
  }

  lemma AngleIsUnclean()
    ensures NonBlank(Some(['<'])) == Some(['<']) && !Clean(['<']) && !BreaksHeartbeat(Some(['<']))
  {
    TrimSolid(['<']);
    assert '<' in ['<'] && !CleanChar('<');
  }

  /** The text `<` is accepted as an address, and the store does not open again. */
  lemma UncleanAddressIsAccepted(v: View, digest: Digest)
    requires v.storeOpen && !v.scheduled && HoldsChecked(v.store)
    ensures var (after, reply) := Handle(v, Parsed(VirtualIp(AddressBody(['<']))), digest);
      reply == 200 && Opened(Files(after.store), digest) == Err(InvalidPeerStore)
  {
    var fields := map["virtual_ip" := ['<']];
    AddressCallIs(['<']);
    assert Get(fields, "virtual_ip") == Some(['<']);
    AngleIsUnclean();
    AddressSurvivesRestartIff(v, fields, digest);
  }

  // ----- whole runs -----

  /** The address that a request would store. */
  function AddressIn(r: Request): Option<string> {
    match r
    case SetConfig(Some(fields)) => NonBlank(Get(fields, "virtual_ip"))
    case SetVirtualIp(Some(fields)) => NonBlank(Get(fields, "virtual_ip"))
    case Import(Some(request), _) => NonBlank(request.virtualIp)
    case _ => None
  }

  predicate CleanEvent(e: Event) {
    e.Ask? ==> CleanAddress(AddressIn(e.request))
  }

  predicate HoldsStorable(s: Store) {
    HoldsTexts(s, true)
  }

  /** The record has checked texts and, if asked for, a clean address. */
  predicate HoldsTexts(s: Store, clean: bool) {
    s.record.Some? ==> TextsChecked(s.record.value) && (clean ==> CleanAddress(s.record.value.virtualIp))
  }

  lemma ConfigKeepsTexts(v: View, fields: Option<Fields>, digest: Digest, clean: bool)
    requires HoldsTexts(v.store, clean) && (clean ==> CleanAddress(AddressIn(SetConfig(fields))))
    ensures HoldsTexts(ConfigStep(v, fields, digest).0.store, clean)
  {
    if fields.Some? && ConfigRecord(fields.value, digest).Some? {
      var r := ConfigRecord(fields.value, digest).value;
      ConfiguredIsChecked(fields.value, digest);
      DerivedIsChecked(r, digest);
      assert Derived(r, digest).virtualIp == NonBlank(Get(fields.value, "virtual_ip"));
    }
  }

  lemma VirtualIpKeepsTexts(v: View, fields: Option<Fields>, clean: bool)
    requires HoldsTexts(v.store, clean) && (clean ==> CleanAddress(AddressIn(SetVirtualIp(fields))))
    ensures HoldsTexts(VirtualIpStep(v, fields).0.store, clean)
  {
    if fields.Some? {
      NonBlankIsNonEmpty(Get(fields.value, "virtual_ip"));
      PlaceholderIsChecked();
    }
  }

  lemma TakingKeepsTexts(v: View, request: ImportRequest, e: InvitationEnvelope, digest: Digest, clean: bool)
    requires ValidClientConfig(request.nodeId, e.hostNodeId, e.onionEndpoint, e.invitationSecret)
    requires clean ==> CleanAddress(NonBlank(request.virtualIp))
    ensures HoldsTexts(Taken(v, request, e, digest).store, clean)
  {
    ImportedIsChecked(request, e);
    DerivedIsChecked(ImportedRecord(request, e), digest);
  }

  lemma TakeKeepsTexts(v: View, request: ImportRequest, decoded: Result<InvitationEnvelope, InvitationError>,
                       digest: Digest, clean: bool)
    requires HoldsTexts(v.store, clean) && (clean ==> CleanAddress(NonBlank(request.virtualIp)))
    ensures HoldsTexts(TakeStep(v, request, decoded, digest).0.store, clean)
  {
    if TakeStep(v, request, decoded, digest).1 == 200 {
      TakingKeepsTexts(v, request, decoded.value, digest, clean);
    }
  }

  lemma ImportKeepsTexts(v: View, request: Option<ImportRequest>, now: u64, digest: Digest, clean: bool)
    requires HoldsTexts(v.store, clean) && (clean ==> CleanAddress(AddressIn(Import(request, now))))
    ensures HoldsTexts(ImportStep(v, request, now, digest).0.store, clean)
  {
    if request.Some? {
      TakeKeepsTexts(v, request.value, DecodeInvitation(request.value.invitation, now), digest, clean);
    }
  }

  lemma ModeKeepsTexts(v: View, mode: Option<string>, clean: bool)
    requires HoldsTexts(v.store, clean)
    ensures HoldsTexts(ModeStep(v, mode).0.store, clean)
  {}

  lemma HandleKeepsTexts(v: View, r: Request, digest: Digest, clean: bool)
    requires HoldsTexts(v.store, clean) && (clean ==> CleanAddress(AddressIn(r)))
    ensures HoldsTexts(Handle(v, r, digest).0.store, clean)
  {
    if !v.scheduled {
      match r {
        case SetConfig(fields) => ConfigKeepsTexts(v, fields, digest, clean);
        case SetVirtualIp(fields) => VirtualIpKeepsTexts(v, fields, clean);
        case Import(request, now) => ImportKeepsTexts(v, request, now, digest, clean);
        case SetMode(mode) => ModeKeepsTexts(v, mode, clean);
        case _ =>
      }
    }
  }

  /** The store is open, in step with its file, and holds nothing that the file could not. */
  ghost predicate Readable(v: View, digest: Digest) {
    v.storeOpen && InStep(v.store, digest) && HoldsStorable(v.store)
  }

  lemma ReadableReopens(s: Store, digest: Digest)
    requires InStep(s, digest) && HoldsStorable(s)
    ensures Opened(Files(s), digest) == Ok(s)
  {
    if s.record.Some? {
      CheckedIsStorableIff(s.record.value);
    }
    ReopeningRestores(s, digest);
    assert Opened(Files(s), digest) == Opened(s, digest);
  }

  lemma NextKeepsReadable(run: Run, e: Event, digest: Digest)
    requires Readable(run.view, digest) && CleanEvent(e)
    ensures Readable(Next(run, e, digest).view, digest)
  {
    match e {
      case Ask(r) =>
        HandleKeepsTexts(run.view, r, digest, true);
        HandleWritesOrKeeps(run.view, r, digest);
        WritingOrKeepingStaysInStep(run.view, Handle(run.view, r, digest).0, digest);
      case Reboot(_, _) => ReadableReopens(run.view.store, digest);
    }
  }

  /** As long as the addresses in requests are clean, the store stays open and readable, restarts included. */
  lemma CleanRunsStayReadable(start: View, events: seq<Event>, digest: Digest, n: nat)
    requires Readable(start, digest) && n <= |events| && forall i :: 0 <= i < n ==> CleanEvent(events[i])
    ensures Readable(RunAt(start, events, digest, n).view, digest)
  {
    forall run: Run, i | 0 <= i < n && Readable(run.view, digest)
      ensures Readable(Stepping(digest)(run, events[i]).view, digest)
    {
      NextKeepsReadable(run, events[i], digest);
    }
    KeptBetween(Stepping(digest), Run(start, []), events, 0, n, (run: Run) => Readable(run.view, digest));
  }

  lemma RebootResumes(run: Run, e: Event, digest: Digest)
    requires e.Reboot? && Readable(run.view, digest) && Agrees(run.view)
    ensures var after := Next(run, e, digest).view;
      && after.storeOpen && after.store == run.view.store && after.role == run.view.role
      && after.peer.approved == run.view.peer.approved && after.peer.revoked == run.view.peer.revoked
      && !after.restartRequired && !after.scheduled
  {
    ReadableReopens(run.view.store, digest);
  }

  /** And every restart of such a run resumes with the record, the approval and the role it stopped with. */
  lemma CleanRunsResume(start: View, events: seq<Event>, digest: Digest, n: nat)
    requires Inv(start) && Readable(start, digest) && n < |events| && forall i :: 0 <= i < n ==> CleanEvent(events[i])
    requires events[n].Reboot?
    ensures var v, after := RunAt(start, events, digest, n).view, RunAt(start, events, digest, n + 1).view;
      && after.storeOpen && after.store == v.store && after.role == v.role
      && after.peer.approved == v.peer.approved && after.peer.revoked == v.peer.revoked
      && !after.restartRequired && !after.scheduled
  {
    Reachable(start, events, digest, n);
    CleanRunsStayReadable(start, events, digest, n);
    RebootResumes(RunAt(start, events, digest, n), events[n], digest);
    StepIsNext(start, events, digest, n);
  }
}
