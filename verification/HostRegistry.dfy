/**
 * The Host's registry of invited devices: a slot is pending until a handshake with its secret binds
 * it to a node id, and holds a virtual address until it is removed.
 */
module HostRegistry {
  import opened Wrappers
  import opened Sequences
  import opened Numbers
  import Messages
  import opened TransportKeys
  import opened Handshake

  datatype HostPeerEntry = HostPeerEntry(
    invitationId: string, nodeId: Option<string>, invitationSecret: string, virtualIp: string, revoked: bool,
    createdUnix: u64)

  const PENDING_PREFIX := "convite-pendente-"

  function NewPending(id: string, secret: string, ip: string, created: u64): HostPeerEntry {
    HostPeerEntry(id, None, secret, ip, false, created)
  }

  predicate IsPendingSlot(e: HostPeerEntry, id: string) {
    e.invitationId == id && e.nodeId == None
  }

  function Bound(entries: seq<HostPeerEntry>, id: string, node: string): (r: seq<HostPeerEntry>)
    ensures |r| == |entries|
    ensures forall i :: 0 <= i < |entries| ==>
      r[i] == if IsPendingSlot(entries[i], id) then entries[i].(nodeId := Some(node)) else entries[i]
  {
    seq(|entries|, i requires 0 <= i < |entries| =>
      if IsPendingSlot(entries[i], id) then entries[i].(nodeId := Some(node)) else entries[i])
  }

  /** Whether removing `id` leaves this entry: `id` is a node id, or the display form of a pending entry. */
  predicate Survives(e: HostPeerEntry, id: string) {
    && e.nodeId != Some(id)
    && (e.nodeId == None ==>
      match StripPrefix(id, PENDING_PREFIX)
      case None => true
      case Some(prefix) => prefix == "" || !IsPrefix(prefix, e.invitationId))
  }

  function Without(entries: seq<HostPeerEntry>, id: string): seq<HostPeerEntry> {
    Filter(entries, e => Survives(e, id))
  }

  function FindBound(entries: seq<HostPeerEntry>, claimed: string): (r: Option<HostPeerEntry>)
    ensures r.Some? ==> r.value in entries && r.value.nodeId == Some(claimed) && !r.value.revoked
    ensures r == None ==> forall e :: e in entries && e.nodeId == Some(claimed) ==> e.revoked
  {
    if entries == [] then None
    else if entries[0].nodeId == Some(claimed) && !entries[0].revoked then Some(entries[0])
    else FindBound(entries[1..], claimed)
  }

  function Offer(e: HostPeerEntry): (string, string) {
    (e.invitationId, e.invitationSecret)
  }

  function PendingOffers(entries: seq<HostPeerEntry>): (r: seq<(string, string)>)
    ensures forall o :: o in r <==> exists e :: e in entries && e.nodeId == None && !e.revoked && Offer(e) == o
  {
    if entries == [] then []
    else
      (if entries[0].nodeId == None && !entries[0].revoked then [Offer(entries[0])] else [])
      + PendingOffers(entries[1..])
  }

  predicate Offered(e: HostPeerEntry) {
    e.nodeId == None && !e.revoked
  }

  /** Which entries are offered, in the order in which their keys are tried. */
  lemma {:induction false} OffersKeepOrder(entries: seq<HostPeerEntry>)
    ensures PendingOffers(entries) == Offers(Filter(entries, Offered))
  {
    if entries != [] {
      OffersKeepOrder(entries[1..]);
    }
  }

  function Offers(entries: seq<HostPeerEntry>): seq<(string, string)> {
    seq(|entries|, i requires 0 <= i < |entries| => Offer(entries[i]))
  }

  function CandidatesFor(entries: seq<HostPeerEntry>, claimed: string): seq<(string, string)> {
    match FindBound(entries, claimed)
    case Some(e) => [Offer(e)]
    case None => PendingOffers(entries)
  }

  ghost predicate FirstLive(entries: seq<HostPeerEntry>, claimed: string, i: nat)
    requires i < |entries|
  {
    && entries[i].nodeId == Some(claimed) && !entries[i].revoked
    && forall j :: 0 <= j < i ==> entries[j].nodeId != Some(claimed) || entries[j].revoked
  }

  lemma {:induction false} FirstLiveIsFound(entries: seq<HostPeerEntry>, claimed: string)
    ensures match FindBound(entries, claimed)
      case None => forall e :: e in entries ==> e.nodeId != Some(claimed) || e.revoked
      case Some(e) => exists i :: 0 <= i < |entries| && FirstLive(entries, claimed, i) && e == entries[i]
  {
    if entries != [] {
      if entries[0].nodeId == Some(claimed) && !entries[0].revoked {
        assert FirstLive(entries, claimed, 0);
      } else {
        FirstLiveIsFound(entries[1..], claimed);
        if FindBound(entries, claimed).Some? {
          var i :| 0 <= i < |entries[1..]| && FirstLive(entries[1..], claimed, i)
            && FindBound(entries, claimed).value == entries[1..][i];
          assert forall j :: 1 <= j < i + 1 ==> entries[j] == entries[1..][j - 1];
          assert FirstLive(entries, claimed, i + 1);
        }
      }
    }
  }

  /**
   * A device that is bound and not revoked is offered its own secret and no other; any other claimant is
   * offered the secrets of all open slots, in registry order.
   */
  lemma CandidatesAre(entries: seq<HostPeerEntry>, claimed: string)
    ensures (forall i :: 0 <= i < |entries| && FirstLive(entries, claimed, i) ==>
        CandidatesFor(entries, claimed) == [(entries[i].invitationId, entries[i].invitationSecret)])
    ensures (forall e :: e in entries ==> e.nodeId != Some(claimed) || e.revoked) ==>
      CandidatesFor(entries, claimed) == Offers(Filter(entries, Offered))
  {
    FirstLiveIsFound(entries, claimed);
    OffersKeepOrder(entries);
    forall i | 0 <= i < |entries| && FirstLive(entries, claimed, i)
      ensures CandidatesFor(entries, claimed) == [(entries[i].invitationId, entries[i].invitationSecret)]
    {
      assert entries[i] in entries;
      var k :| 0 <= k < |entries| && FirstLive(entries, claimed, k) && FindBound(entries, claimed) == Some(entries[k]);
      assert k == i;
    }
  }

  // ----- addresses -----

  function LastSegment(ip: string): string {
    var segments := Split(ip, '.');
    segments[|segments| - 1]
  }

  function Octet(e: HostPeerEntry): Option<nat> {
    ParseUnsigned(LastSegment(e.virtualIp), U8_MAX)
  }

  predicate Uses(entries: seq<HostPeerEntry>, octet: nat) {
    exists e :: e in entries && Octet(e) == Some(octet)
  }

  function Address(networkPrefix: string, octet: nat): string {
    networkPrefix + "." + Decimal(octet)
  }

  /** The printed address carries its octet, whatever the prefix looks like. */
  lemma AddressOctet(e: HostPeerEntry, networkPrefix: string, octet: nat)
    requires e.virtualIp == Address(networkPrefix, octet) && octet <= U8_MAX
    ensures Octet(e) == Some(octet)
  {
    SplitConcat(networkPrefix, '.', Decimal(octet));
    assert '.' !in Decimal(octet);
    SplitWithout(Decimal(octet), '.');
    ParseUnsignedOfDecimal(octet, U8_MAX);
  }

  /** The least number in 2..254 that is not used, or 254 when all are. */
  ghost predicate IsFirstFree(used: nat -> bool, octet: nat) {
    && 2 <= octet <= 254
    && (forall c :: 2 <= c < octet ==> used(c))
    && (used(octet) ==> octet == 254)
  }

  function FirstFree(used: nat -> bool, low: nat): nat
    decreases 254 - low
  {
    if low >= 254 || !used(low) then low else FirstFree(used, low + 1)
  }

  lemma {:induction false} SearchFindsFirstFree(used: nat -> bool, low: nat)
    requires 2 <= low <= 254 && forall c :: 2 <= c < low ==> used(c)
    ensures IsFirstFree(used, FirstFree(used, low))
    decreases 254 - low
  {
    if low < 254 && used(low) {
      SearchFindsFirstFree(used, low + 1);
    }
  }

  lemma FirstFreeIsUnique(used: nat -> bool, a: nat, b: nat)
    requires IsFirstFree(used, a) && IsFirstFree(used, b)
    ensures a == b
  {
    assert a < b ==> used(a);
    assert b < a ==> used(b);
  }

  lemma SomeIsFreeIff(used: nat -> bool, octet: nat)
    requires IsFirstFree(used, octet)
    ensures (exists c :: 2 <= c <= 254 && !used(c)) <==> !used(octet)
  {
    if c :| 2 <= c <= 254 && !used(c) {
      assert octet <= c;
    }
  }

  function UsedBy(entries: seq<HostPeerEntry>): nat -> bool {
    (octet: nat) => Uses(entries, octet)
  }

  lemma UsedByIs(entries: seq<HostPeerEntry>)
    ensures forall octet: nat :: UsedBy(entries)(octet) <==> Uses(entries, octet)
  {}

  /** Freeing numbers moves the first free one exactly when one below it is freed. */
  lemma FreeingMovesFirstFreeIff(used: nat -> bool, after: nat -> bool)
    requires forall c: nat :: after(c) ==> used(c)
    ensures FirstFree(after, 2) != FirstFree(used, 2) <==> exists c :: 2 <= c < FirstFree(used, 2) && !after(c)
  {
    SearchFindsFirstFree(used, 2);
    SearchFindsFirstFree(after, 2);
    if forall c :: 2 <= c < FirstFree(used, 2) ==> after(c) {
      FirstFreeIsUnique(after, FirstFree(used, 2), FirstFree(after, 2));
    }
  }

  /** The next octet to hand out: the least one in 2..254 that no entry uses, or 254 when all are used. */
  function NextOctet(entries: seq<HostPeerEntry>): nat {
    FirstFree(UsedBy(entries), 2)
  }

  lemma NextOctetIsFirstFree(entries: seq<HostPeerEntry>)
    ensures IsFirstFree(UsedBy(entries), NextOctet(entries))
  {
    SearchFindsFirstFree(UsedBy(entries), 2);
  }

  function OctetsOf(entries: seq<HostPeerEntry>): set<nat> {
    set e | e in entries && Octet(e).Some? :: Octet(e).value
  }

  lemma OctetsAreUsed(entries: seq<HostPeerEntry>)
    ensures forall octet: nat :: octet in OctetsOf(entries) <==> Uses(entries, octet)
  {}

  lemma LeastMissingIsNext(entries: seq<HostPeerEntry>, octet: nat)
    requires 2 <= octet <= 254 && forall c: nat :: 2 <= c < octet ==> c in OctetsOf(entries)
    requires octet in OctetsOf(entries) ==> octet == 254
    ensures octet == NextOctet(entries)
  {
    OctetsAreUsed(entries);
    UsedByIs(entries);
    NextOctetIsFirstFree(entries);
    FirstFreeIsUnique(UsedBy(entries), octet, NextOctet(entries));
  }

  class HostPeerRegistry {
    var entries: seq<HostPeerEntry>

    constructor ()
      ensures entries == []
    {
      entries := [];
    }

    method AddPending(id: string, secret: string, ip: string, created: u64)
      modifies this
      ensures entries == old(entries) + [NewPending(id, secret, ip, created)]
    {
      entries := entries + [HostPeerEntry(id, None, secret, ip, false, created)];
    }

    /** The result tells whether anything changed, that is, whether the file is written again. */
    method Bind(id: string, node: string) returns (changed: bool)
      modifies this
      ensures entries == Bound(old(entries), id, node)
      ensures changed <==> entries != old(entries)
    {
      changed := false;
      ghost var before := entries;
      ghost var target := Bound(before, id, node);
      var i := 0;
      while i < |entries|
        invariant 0 <= i <= |entries| == |before|
        invariant |entries| == |before| && forall k :: 0 <= k < i ==> entries[k] == target[k]
        invariant forall k :: i <= k < |before| ==> entries[k] == before[k]
        invariant changed <==> exists k :: 0 <= k < i && before[k] != target[k]
      {
        assert entries[i] == before[i];
        if entries[i].invitationId == id && entries[i].nodeId == None {
          entries := entries[i := entries[i].(nodeId := Some(node))];
          changed := true;
        }
        i := i + 1;
      }
    }

    method Remove(id: string) returns (changed: bool)
      modifies this
      ensures entries == Without(old(entries), id)
      ensures changed <==> |entries| != |old(entries)|
    {
      var before := |entries|;
      entries := Filter(entries, e => Survives(e, id));
      changed := |entries| != before;
    }

    method NextFreeVirtualIp(networkPrefix: string) returns (ip: string)
      ensures ip == Address(networkPrefix, NextOctet(entries))
    {
      var used := OctetsOf(entries);
      var candidate: nat := 2;
      while candidate <= 254
        invariant 2 <= candidate <= 255
        invariant forall c: nat :: 2 <= c < candidate ==> c in used
      {
        if candidate !in used {
          LeastMissingIsNext(entries, candidate);
          return networkPrefix + "." + Decimal(candidate);
        }
        candidate := candidate + 1;
      }
      LeastMissingIsNext(entries, 254);
      return networkPrefix + "." + Decimal(254);
    }
  }

  // ----- pigeonhole -----

  ghost function UsedOctets(entries: seq<HostPeerEntry>): set<nat> {
    if entries == [] then {}
    else UsedOctets(entries[1..]) + (if Octet(entries[0]).Some? then {Octet(entries[0]).value} else {})
  }

  lemma {:induction false} UsedOctetsAreUsed(entries: seq<HostPeerEntry>)
    ensures |UsedOctets(entries)| <= |entries|
    ensures forall c :: Uses(entries, c) ==> c in UsedOctets(entries)
  {
    if entries != [] {
      UsedOctetsAreUsed(entries[1..]);
      assert entries == [entries[0]] + entries[1..];
      forall c | Uses(entries, c) ensures c in UsedOctets(entries) {
        assert Octet(entries[0]) == Some(c) || Uses(entries[1..], c);
      }
    }
  }

  ghost function Range(low: nat, count: nat): (r: set<nat>)
    ensures |r| == count
    ensures forall c :: c in r <==> low <= c < low + count
  {
    if count == 0 then {} else Range(low, count - 1) + {low + count - 1}
  }

  lemma SubsetIsSmaller(a: set<nat>, b: set<nat>)
    requires a <= b
    ensures |a| <= |b|
  {
    if a != {} {
      var x :| x in a;
      SubsetIsSmaller(a - {x}, b - {x});
    }
  }

  /** With fewer than 253 entries some octet in 2..254 is free. */
  lemma FreeOctetExists(entries: seq<HostPeerEntry>)
    requires |entries| < 253
    ensures exists c :: 2 <= c <= 254 && !Uses(entries, c)
  {
    if forall c :: 2 <= c <= 254 ==> Uses(entries, c) {
      UsedOctetsAreUsed(entries);
      SubsetIsSmaller(Range(2, 253), UsedOctets(entries));
    }
  }

  // ----- keys of the registered secrets -----

  /** The resolver turns offers into keys and drops those that spell none. */
  function Keys(offers: seq<(string, string)>): seq<(string, Key)> {
    if offers == [] then []
    else
      (match KeyOfStored(offers[0].1)
       case None => []
       case Some(key) => [(offers[0].0, key)]) + Keys(offers[1..])
  }

  lemma {:induction false} KeysComeFromOffers(offers: seq<(string, string)>, i: nat)
    requires i < |Keys(offers)|
    ensures exists o :: o in offers && o.0 == Keys(offers)[i].0 && KeyOfStored(o.1) == Some(Keys(offers)[i].1)
  {
    var first := if KeyOfStored(offers[0].1).Some? then 1 else 0;
    if i >= first {
      KeysComeFromOffers(offers[1..], i - first);
    } else {
      assert offers[0] in offers;
    }
  }

  /** The candidate keys are those that the offered secrets spell, each under the id of its slot. */
  lemma {:induction false} KeyIsTriedIff(offers: seq<(string, string)>, tag: string, key: Key)
    ensures (tag, key) in Keys(offers) <==> exists o :: o in offers && o.0 == tag && KeyOfStored(o.1) == Some(key)
    ensures |Keys(offers)| <= |offers|
  {
    if offers != [] {
      KeyIsTriedIff(offers[1..], tag, key);
      assert offers == [offers[0]] + offers[1..];
    }
  }

  // ----- the display form used by the device list -----

  function DisplayId(e: HostPeerEntry): string {
    match e.nodeId
    case Some(node) => node
    case None => PENDING_PREFIX + e.invitationId[..if |e.invitationId| < 8 then |e.invitationId| else 8]
  }

  /** No bound device has a name that describes a pending slot it is not shown as. */
  predicate NameDescribesNoOther(entries: seq<HostPeerEntry>, e: HostPeerEntry) {
    e.nodeId == None || StripPrefix(e.nodeId.value, PENDING_PREFIX) == None ||
    var rest := StripPrefix(e.nodeId.value, PENDING_PREFIX).value;
    rest == "" || |rest| == 8 || forall x :: x in entries && x.nodeId == None ==> !IsPrefix(rest, x.invitationId)
  }

  lemma PendingDisplay(x: HostPeerEntry)
    requires x.nodeId == None && |x.invitationId| >= 8
    ensures DisplayId(x) == PENDING_PREFIX + x.invitationId[..8]
    ensures StripPrefix(DisplayId(x), PENDING_PREFIX) == Some(x.invitationId[..8])
  {
    assert DisplayId(x)[|PENDING_PREFIX|..] == x.invitationId[..8];
  }

  /**
   * A pending slot goes under the id of another entry as it should, unless that id is a name that describes it
   * wrongly.
   */
  lemma PendingSurvivesIff(x: HostPeerEntry, id: string)
    requires x.nodeId == None && |x.invitationId| >= 8
    ensures (Survives(x, id) <==> DisplayId(x) != id) <==>
      match StripPrefix(id, PENDING_PREFIX)
      case None => true
      case Some(rest) => rest == "" || |rest| == 8 || !IsPrefix(rest, x.invitationId)
  {
    PendingDisplay(x);
    if StripPrefix(id, PENDING_PREFIX).Some? {
      var rest := id[|PENDING_PREFIX|..];
      assert id == PENDING_PREFIX + rest;
      assert DisplayId(x) == id <==> x.invitationId[..8] == rest by {
        assert DisplayId(x)[|PENDING_PREFIX|..] == x.invitationId[..8];
      }
    }
  }

  /**
   * Removing what the device list shows takes away exactly the entries shown under that id, exactly
   * when the id is not the name of a bound device that describes some pending slot wrongly. (An
   * invitation id has 22 characters.)
   */
  lemma RemovingDisplayedEntryIff(entries: seq<HostPeerEntry>, e: HostPeerEntry)
    requires e in entries && forall x :: x in entries ==> |x.invitationId| >= 8
    ensures (forall x :: x in entries ==> (x in Without(entries, DisplayId(e)) <==> DisplayId(x) != DisplayId(e)))
      <==> NameDescribesNoOther(entries, e)
  {
    var id := DisplayId(e);
    FilterMembers(entries, x => Survives(x, id));
    forall x | x in entries && x.nodeId.Some? ensures Survives(x, id) <==> DisplayId(x) != id {}
    forall x | x in entries && x.nodeId == None
      ensures (Survives(x, id) <==> DisplayId(x) != id) <==>
        match StripPrefix(id, PENDING_PREFIX)
        case None => true
        case Some(rest) => rest == "" || |rest| == 8 || !IsPrefix(rest, x.invitationId)
    {
      PendingSurvivesIff(x, id);
    }
    if e.nodeId == None {
      PendingDisplay(e);
    }
  }

  /**
   * A device may bind under a valid name that begins like the display form of pending slots. Removing
   * it then also removes a pending slot that is shown under another id.
   */
  lemma RemovingTakesMoreThanDisplayed(e: HostPeerEntry, p: HostPeerEntry)
    requires e.nodeId == Some(PENDING_PREFIX + ['A']) && p.nodeId == None && |p.invitationId| >= 8
      && p.invitationId[0] == 'A'
    ensures Messages.ValidNodeId(e.nodeId.value) && DisplayId(p) != DisplayId(e)
    ensures Without([e, p], DisplayId(e)) == []
  {
    var id := DisplayId(e);
    assert StripPrefix(id, PENDING_PREFIX) == Some(['A']) by {
      assert id[|PENDING_PREFIX|..] == ['A'];
    }
    assert p.invitationId[..1] == ['A'];
    PendingDisplay(p);
    NoneKept([e, p], x => Survives(x, id));
  }
}
