/** The peer store: the record in memory, its file, and the markers of consumed invitations. */
module PeerStores {
  import opened Wrappers
  import opened Sequences
  import opened TransportKeys
  import opened Numbers
  import opened PeerRecords

  /** The markers are files of their own; nothing ever removes them. */
  datatype Store = Store(file: Option<string>, record: Option<PeerRecord>, consumed: set<string>)

  function Written(s: Store, r: PeerRecord): Store {
    s.(file := Some(PrintRecord(r)), record := Some(r))
  }

  /** A raw secret is replaced by its derived key; one that looks derived already is kept. */
  function Derived(r: PeerRecord, digest: Digest): PeerRecord {
    if StripPrefix(r.invitationSecret, STORED_KEY_PREFIX).Some? then r
    else r.(invitationSecret := StoredForm(digest(r.invitationSecret)))
  }

  const PLACEHOLDER := PeerRecord("cliente", "local-node", None, "pending.onion", "unconfigured", None, false, false)

  /** Opening reads the file; one that still held a raw secret is written again without it. */
  function Opened(s: Store, digest: Digest): Result<Store, StoreError> {
    match s.file
    case None => Ok(s.(record := None))
    case Some(text) =>
      match ReadRecord(text, digest)
      case Err(e) => Err(e)
      case Ok((r, legacy)) => Ok(if legacy then Written(s, r) else s.(record := Some(r)))
  }

  function Configured(s: Store, r: PeerRecord, digest: Digest): Store {
    Written(s, Derived(r, digest))
  }

  function Cleared(s: Store): Store {
    s.(file := None, record := None)
  }

  function Judged(s: Store, approved: bool): Result<Store, StoreError> {
    match s.record
    case None => Err(PeerNotConfigured)
    case Some(r) => Ok(Written(s, r.(approved := approved, revoked := !approved)))
  }

  function Addressed(s: Store, virtualIp: Option<string>): Store {
    Written(s, (if s.record.Some? then s.record.value else PLACEHOLDER).(virtualIp := virtualIp))
  }

  class PeerStore {
    const digest: Digest
    var file: Option<string>
    var record: Option<PeerRecord>
    var consumed: set<string>

    ghost function State(): Store
      reads this
    {
      Store(file, record, consumed)
    }

    constructor (file: Option<string>, consumed: set<string>, digest: Digest)
      ensures State() == Store(file, None, consumed) && this.digest == digest
    {
      this.file, this.record, this.consumed, this.digest := file, None, consumed, digest;
    }

    method WriteRecord(r: PeerRecord)
      modifies this`file
      ensures file == Some(PrintRecord(r))
    {
      file := Some(PrintRecord(r));
    }

    method Open() returns (result: Result<Unit, StoreError>)
      modifies this
      ensures match Opened(old(State()), digest)
        case Err(e) => result == Err(e) && State() == old(State())
        case Ok(after) => result == Ok(Done) && State() == after
    {
      if file == None {
        record := None;
        return Ok(Done);
      }
      var read := ReadRecord(file.value, digest);
      if read.Err? {
        return Err(read.error);
      }
      var (r, legacy) := read.value;
      record := Some(r);
      if legacy {
        WriteRecord(r);
      }
      return Ok(Done);
    }

    method Configure(r: PeerRecord)
      modifies this
      ensures State() == Configured(old(State()), r, digest)
    {
      var kept := r;
      if StripPrefix(r.invitationSecret, STORED_KEY_PREFIX) == None {
        kept := r.(invitationSecret := StoredForm(digest(r.invitationSecret)));
      }
      WriteRecord(kept);
      record := Some(kept);
    }

    method Clear()
      modifies this
      ensures State() == Cleared(old(State()))
    {
      file := None;
      record := None;
    }

    method SetApproval(approved: bool) returns (result: Result<Unit, StoreError>)
      modifies this
      ensures match Judged(old(State()), approved)
        case Err(e) => result == Err(e) && State() == old(State())
        case Ok(after) => result == Ok(Done) && State() == after
    {
      if record == None {
        return Err(PeerNotConfigured);
      }
      var r := record.value.(approved := approved, revoked := !approved);
      WriteRecord(r);
      record := Some(r);
      return Ok(Done);
    }

    method SetVirtualIp(virtualIp: Option<string>)
      modifies this
      ensures State() == Addressed(old(State()), virtualIp)
    {
      var r := PLACEHOLDER;
      if record.Some? {
        r := record.value;
      }
      r := r.(virtualIp := virtualIp);
      WriteRecord(r);
      record := Some(r);
    }

    /** Creating the marker fails when it exists: each id is consumed once. */
    method ConsumeInvitationId(id: string) returns (first: bool)
      modifies this`consumed
      ensures first <==> id !in old(consumed)
      ensures consumed == old(consumed) + {id}
    {
      first := id !in consumed;
      consumed := consumed + {id};
    }
  }

  /** What is in the file is what is in memory, as written by us or as read from it. */
  ghost predicate InStep(s: Store, digest: Digest) {
    match s.record
    case None => s.file == None
    case Some(r) =>
      s.file == Some(PrintRecord(r)) || (s.file.Some? && ReadRecord(s.file.value, digest) == Ok((r, false)))
  }

  lemma OpenedIsInStep(s: Store, digest: Digest)
    requires Opened(s, digest).Ok?
    ensures InStep(Opened(s, digest).value, digest)
  {}

  lemma WrittenIsInStep(s: Store, r: PeerRecord, digest: Digest)
    ensures InStep(Written(s, r), digest)
  {}

  /** A store in step opens again to the very record it had, if that record is storable. */
  lemma ReopeningRestores(s: Store, digest: Digest)
    requires InStep(s, digest) && (s.record.Some? ==> Storable(s.record.value))
    ensures Opened(s, digest) == Ok(s)
  {
    if s.record.Some? {
      RecordRoundTrip(s.record.value, digest);
    }
  }

  /** What the store writes opens to the record it wrote exactly when that record is storable. */
  lemma WrittenReopensIff(s: Store, r: PeerRecord, digest: Digest)
    ensures Opened(Written(s, r), digest) == Ok(Written(s, r)) <==> Storable(r)
  {
    RecordRoundTrip(r, digest);
    if Opened(Written(s, r), digest) == Ok(Written(s, r)) {
      ReadsNoLegacy(r, digest);
    }
  }

  /** A file of the old format: a raw secret where the stored key belongs, and the other required texts. */
  predicate IsOldFile(text: string) {
    ParseFields(text).Some? &&
    var fields := ParseFields(text).value;
    && "invitation_secret" in fields && "transport_key" !in fields
    && Required(fields, "role").Some? && Required(fields, "node_id").Some? && Required(fields, "endpoint").Some?
  }

  /**
   * An old file opens: its record holds the key derived from the secret, which the next start can read,
   * and is written back without the secret. It opens as not approved and revoked unless it says otherwise.
   */
  lemma OldFileIsMigrated(s: Store, digest: Digest)
    requires s.file.Some? && IsOldFile(s.file.value)
    ensures var fields := ParseFields(s.file.value).value;
      var migrated := Opened(s, digest);
      && migrated.Ok? && migrated.value.record.Some? && migrated.value.consumed == s.consumed
      && var r := migrated.value.record.value;
         && migrated.value.file == Some(PrintRecord(r))
         && r.invitationSecret == "key-v1-" + Hex(digest(fields["invitation_secret"]))
         && (|digest(fields["invitation_secret"])| == 32 ==>
               KeyOfStored(r.invitationSecret) == Some(digest(fields["invitation_secret"])))
         && (r.approved <==> Get(fields, "approved") == Some("true"))
         && (r.revoked <==> "revoked" !in fields || fields["revoked"] == "true")
  {
    ReadMeans(s.file.value, digest);
    var secret := ParseFields(s.file.value).value["invitation_secret"];
    if |digest(secret)| == 32 {
      StoredKeyReadsBack(digest(secret));
    }
  }

  /** And the next start finds the same store, not in the old format any more, exactly when its texts are clean. */
  lemma MigratedFileReopensIff(s: Store, digest: Digest)
    requires s.file.Some? && IsOldFile(s.file.value)
    ensures var migrated := Opened(s, digest).value;
      && (Opened(migrated, digest) == Ok(migrated) <==> Storable(migrated.record.value))
      && (ParseFields(migrated.file.value).Some? ==> "invitation_secret" !in ParseFields(migrated.file.value).value)
  {
    OldFileIsMigrated(s, digest);
    var migrated := Opened(s, digest).value;
    WrittenReopensIff(migrated, migrated.record.value, digest);
    assert migrated == Written(migrated, migrated.record.value);
    RecordKeysAreDistinct(migrated.record.value);
    ParseOfPrint(RecordFields(migrated.record.value));
    PrintedRecordMap(migrated.record.value);
  }

  /** Printed records never look like the old format. */
  lemma ReadsNoLegacy(r: PeerRecord, digest: Digest)
    ensures ReadRecord(PrintRecord(r), digest).Ok? ==> !ReadRecord(PrintRecord(r), digest).value.1
  {
    ReadOfPrint(r, digest);
    RecordOfPrinted(r, digest);
  }
}
