/**
 * The peer store over runs with any addresses in their requests: what an open store holds was checked
 * but for its address, and a store that does not open never opens again.
 */
module ClosedStores {
  import opened Wrappers
  import opened Numbers
  import opened PeerRecords
  import opened PeerStores
  import opened Invitations
  import opened Agent
  import opened AgentRuns
  import opened CleanRuns
  import opened Runs

  /** An open store is in step with its file and holds checked texts; a closed one has a file that does not open. */
  ghost predicate Sound(v: View, digest: Digest) {
    if v.storeOpen then InStep(v.store, digest) && HoldsChecked(v.store) else Opened(Files(v.store), digest).Err?
  }

  // ----- while the store is closed -----

  predicate SameStore(v: View, after: View) {
    after.storeOpen == v.storeOpen && after.store == v.store
  }

  lemma ConfigLeavesClosed(v: View, fields: Option<Fields>, digest: Digest)
    requires !v.storeOpen
    ensures SameStore(v, ConfigStep(v, fields, digest).0)
  {}

  lemma VirtualIpLeavesClosed(v: View, fields: Option<Fields>)
    requires !v.storeOpen
    ensures SameStore(v, VirtualIpStep(v, fields).0)
  {}

  lemma ModeLeavesClosed(v: View, mode: Option<string>)
    requires !v.storeOpen
    ensures SameStore(v, ModeStep(v, mode).0)
  {}

  lemma TakeLeavesClosed(v: View, request: ImportRequest, decoded: Result<InvitationEnvelope, InvitationError>,
                         digest: Digest)
    requires !v.storeOpen
    ensures SameStore(v, TakeStep(v, request, decoded, digest).0)
  {}

  lemma ImportLeavesClosed(v: View, request: Option<ImportRequest>, now: u64, digest: Digest)
    requires !v.storeOpen
    ensures SameStore(v, ImportStep(v, request, now, digest).0)
  {
    if request.Some? {
      TakeLeavesClosed(v, request.value, DecodeInvitation(request.value.invitation, now), digest);
    }
  }

  /** No handler touches the file or the markers of a store that is not open. */
  lemma HandleLeavesClosed(v: View, r: Request, digest: Digest)
    requires !v.storeOpen
    ensures SameStore(v, Handle(v, r, digest).0)
  {
    if !v.scheduled {
      match r {
        case SetConfig(fields) => ConfigLeavesClosed(v, fields, digest);
        case SetVirtualIp(fields) => VirtualIpLeavesClosed(v, fields);
        case Import(request, now) => ImportLeavesClosed(v, request, now, digest);
        case SetMode(mode) => ModeLeavesClosed(v, mode);
        case _ =>
      }
    }
  }

  lemma ClosedStaysClosed(run: Run, e: Event, digest: Digest)
    requires !run.view.storeOpen && Opened(Files(run.view.store), digest).Err?
    ensures var after := Next(run, e, digest).view; !after.storeOpen && Opened(Files(after.store), digest).Err?
  {
    match e {
      case Ask(r) => HandleLeavesClosed(run.view, r, digest);
      case Reboot(_, _) => assert Files(Files(run.view.store)) == Files(run.view.store);
    }
  }

  // ----- while it is open -----

  /** A restart finds checked texts again, if it finds anything. */
  lemma ReopenedIsChecked(s: Store, digest: Digest)
    requires InStep(s, digest) && HoldsChecked(s) && Opened(Files(s), digest).Ok?
    ensures HoldsChecked(Opened(Files(s), digest).value)
  {
    OpeningForgetsMemory(s, digest);
    if s.record.Some? && s.file == Some(PrintRecord(s.record.value)) {
      CheckedReopens(s, s.record.value, digest);
      assert s == Written(s, s.record.value);
    }
  }

  lemma BootIsSound(opening: Result<Store, StoreError>, files: Store, roleOpen: bool, role: Option<string>, gate: bool,
                    status: TransportState, digest: Digest)
    requires opening == Opened(Files(files), digest) && files == Files(files)
    requires opening.Ok? ==> InStep(opening.value, digest) && HoldsChecked(opening.value)
    ensures Sound(BootedFrom(opening, files, roleOpen, role, gate, status), digest)
  {}

  lemma RebootKeepsSound(run: Run, e: Event, digest: Digest)
    requires e.Reboot? && Sound(run.view, digest)
    ensures Sound(Next(run, e, digest).view, digest)
  {
    var files := Files(run.view.store);
    if Opened(files, digest).Ok? {
      OpenedIsInStep(files, digest);
      ReopenedIsChecked(run.view.store, digest);
    }
    BootIsSound(Opened(files, digest), files, run.view.roleOpen, run.view.role, e.gate, e.status, digest);
  }

  lemma HandleKeepsSound(v: View, r: Request, digest: Digest)
    requires v.storeOpen && Sound(v, digest)
    ensures Sound(Handle(v, r, digest).0, digest)
  {
    HandleKeepsTexts(v, r, digest, false);
    HandleWritesOrKeeps(v, r, digest);
    WritingOrKeepingStaysInStep(v, Handle(v, r, digest).0, digest);
  }

  lemma NextKeepsSound(run: Run, e: Event, digest: Digest)
    requires Sound(run.view, digest)
    ensures Sound(Next(run, e, digest).view, digest)
  {
    if !run.view.storeOpen {
      ClosedStaysClosed(run, e, digest);
    } else if e.Ask? {
      HandleKeepsSound(run.view, e.request, digest);
    } else {
      RebootKeepsSound(run, e, digest);
    }
  }

  // ----- whole runs -----

  /**
   * Whatever the requests carry, an open store stays in step with its file and holds nothing unchecked but its
   * address.
   */
  lemma SoundReachable(start: View, events: seq<Event>, digest: Digest, n: nat)
    requires Sound(start, digest) && n <= |events|
    ensures Sound(RunAt(start, events, digest, n).view, digest)
  {
    forall run: Run, i | 0 <= i < n && Sound(run.view, digest)
      ensures Sound(Stepping(digest)(run, events[i]).view, digest)
    {
      NextKeepsSound(run, events[i], digest);
    }
    KeptBetween(Stepping(digest), Run(start, []), events, 0, n, (run: Run) => Sound(run.view, digest));
  }

  ghost predicate ClosedFile(v: View, digest: Digest) {
    !v.storeOpen && Opened(Files(v.store), digest).Err?
  }

  /** Once the store has not opened, no requests and restarts that follow ever open it. */
  lemma ClosedForever(start: View, events: seq<Event>, digest: Digest, n: nat, m: nat)
    requires Sound(start, digest) && n <= m <= |events|
    ensures !RunAt(start, events, digest, n).view.storeOpen ==> !RunAt(start, events, digest, m).view.storeOpen
  {
    SoundReachable(start, events, digest, n);
    if ClosedFile(RunAt(start, events, digest, n).view, digest) {
      forall run: Run, i | n <= i < m && ClosedFile(run.view, digest)
        ensures ClosedFile(Stepping(digest)(run, events[i]).view, digest)
      {
        ClosedStaysClosed(run, events[i], digest);
      }
      KeptBetween(Stepping(digest), Run(start, []), events, n, m, (run: Run) => ClosedFile(run.view, digest));
    }
  }

  /**
   * At every moment of every run, a request for an address survives the next start exactly when the address is
   * clean.
   */
  lemma AddressSurvivesAlongRuns(start: View, events: seq<Event>, digest: Digest, n: nat, fields: Fields)
    requires Sound(start, digest) && n <= |events|
    ensures var v := RunAt(start, events, digest, n).view;
      v.storeOpen && !v.scheduled ==>
        AddressSurvives(Handle(v, SetVirtualIp(Some(fields)), digest), NonBlank(Get(fields, "virtual_ip")), digest)
  {
    SoundReachable(start, events, digest, n);
    var v := RunAt(start, events, digest, n).view;
    if v.storeOpen && !v.scheduled {
      AddressSurvivesRestartIff(v, fields, digest);
    }
  }

  lemma UncleanAddressIsStored(run: Run, fields: Fields, digest: Digest)
    requires Sound(run.view, digest) && run.view.storeOpen && !run.view.scheduled
    requires !CleanAddress(NonBlank(Get(fields, "virtual_ip"))) && !BreaksHeartbeat(NonBlank(Get(fields, "virtual_ip")))
    ensures Lost(Next(run, Ask(SetVirtualIp(Some(fields))), digest).view, digest)
  {
    AddressSurvivesRestartIff(run.view, fields, digest);
    assert Next(run, Ask(SetVirtualIp(Some(fields))), digest).view ==
      Handle(run.view, SetVirtualIp(Some(fields)), digest).0;
  }

  ghost predicate Lost(v: View, digest: Digest) {
    Opened(Files(v.store), digest).Err?
  }

  lemma FailedBootIsClosed(run: Run, e: Event, digest: Digest)
    requires e.Reboot? && Lost(run.view, digest)
    ensures ClosedFile(Next(run, e, digest).view, digest)
  {
    assert Files(Files(run.view.store)) == Files(run.view.store);
  }

  ghost predicate Writable(v: View, digest: Digest) {
    Sound(v, digest) && v.storeOpen && !v.scheduled
  }

  /** An unclean address that is accepted, followed by a restart, closes the store for good. */
  lemma UncleanAddressClosesForever(start: View, events: seq<Event>, digest: Digest, n: nat, m: nat, fields: Fields)
    requires Sound(start, digest) && n + 2 <= m <= |events|
    requires events[n] == Ask(SetVirtualIp(Some(fields))) && events[n + 1].Reboot?
    requires !CleanAddress(NonBlank(Get(fields, "virtual_ip"))) && !BreaksHeartbeat(NonBlank(Get(fields, "virtual_ip")))
    ensures var v := RunAt(start, events, digest, n).view;
      v.storeOpen && !v.scheduled ==> !RunAt(start, events, digest, m).view.storeOpen
  {
    SoundReachable(start, events, digest, n);
    if Writable(RunAt(start, events, digest, n).view, digest) {
      forall run: Run | Writable(run.view, digest) ensures Lost(Stepping(digest)(run, events[n]).view, digest) {
        UncleanAddressIsStored(run, fields, digest);
      }
      forall run: Run | Lost(run.view, digest) ensures ClosedFile(Stepping(digest)(run, events[n + 1]).view, digest) {
        FailedBootIsClosed(run, events[n + 1], digest);
      }
      forall run: Run, i | n + 1 < i < m && ClosedFile(run.view, digest)
        ensures ClosedFile(Stepping(digest)(run, events[i]).view, digest)
      {
        ClosedStaysClosed(run, events[i], digest);
      }
      KeptAfterTwo(Stepping(digest), Run(start, []), events, n, m, (run: Run) => Writable(run.view, digest),
                   (run: Run) => Lost(run.view, digest), (run: Run) => ClosedFile(run.view, digest));
    }
  }
}
