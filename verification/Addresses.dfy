/**
 * Whole addresses over every interleaving of requests. An address is a network prefix and an octet;
 * the pool looks at octets only, and the prefix is whatever the Host's own address has at the time.
 */
module Addresses {
  import opened Wrappers
  import opened Sequences
  import opened Numbers
  import opened TransportKeys
  import opened Handshake
  import opened HostRegistry
  import opened RegistryRuns
  import opened AddressPool
  import opened Runs

  predicate Given(entries: seq<HostPeerEntry>, ip: string) {
    exists e :: e in entries && e.virtualIp == ip
  }

  ghost predicate AddressesApart(entries: seq<HostPeerEntry>) {
    forall i, j {:trigger entries[i], entries[j]} ::
      0 <= i < j < |entries| ==> entries[i].virtualIp != entries[j].virtualIp
  }

  lemma AppendKeepsApartIff(entries: seq<HostPeerEntry>, e: HostPeerEntry)
    requires AddressesApart(entries)
    ensures AddressesApart(entries + [e]) <==> !Given(entries, e.virtualIp)
  {
    var after := entries + [e];
    if x :| x in entries && x.virtualIp == e.virtualIp {
      var i :| 0 <= i < |entries| && entries[i] == x;
      assert after[i].virtualIp == after[|entries|].virtualIp;
    } else {
      forall i, j | 0 <= i < j < |after| ensures after[i].virtualIp != after[j].virtualIp {
        assert entries[i] in entries;
        assert j < |entries| ==> after[j] == entries[j];
      }
    }
  }

  /** Adding a reserved slot keeps all addresses different exactly when no slot has its address by then. */
  lemma AddKeepsAddressesIff(s: System, k: nat)
    requires AddressesApart(s.entries) && k < |s.reserved|
    ensures AddressesApart(Step(s, Add(k)).entries) <==> !Given(s.entries, s.reserved[k].virtualIp)
  {
    AppendKeepsApartIff(s.entries, s.reserved[k]);
  }

  // ----- a request that nothing interrupts -----

  /** An address that is given has its octet used. */
  lemma GivenUsesOctet(entries: seq<HostPeerEntry>, networkPrefix: string, octet: nat)
    requires octet <= U8_MAX && Given(entries, Address(networkPrefix, octet))
    ensures Uses(entries, octet)
  {
    var e :| e in entries && e.virtualIp == Address(networkPrefix, octet);
    AddressOctet(e, networkPrefix, octet);
  }

  /**
   * When nothing comes between a request's two steps, its address is new exactly when an octet in
   * 2..254 is free or no slot is at its prefix with octet 254.
   */
  lemma GenerateKeepsAddressesIff(entries: seq<HostPeerEntry>, id: string, key: Key, networkPrefix: string,
                                  created: u64)
    requires AddressesApart(entries)
    ensures AddressesApart(entries + [Slot(entries, id, key, networkPrefix, created)]) <==>
      (exists c :: 2 <= c <= 254 && !Uses(entries, c)) || !Given(entries, Address(networkPrefix, 254))
  {
    var octet := NextOctet(entries);
    AppendKeepsApartIff(entries, Slot(entries, id, key, networkPrefix, created));
    NextOctetIsFirstFree(entries);
    UsedByIs(entries);
    FreeOctetIff(entries);
    if Given(entries, Address(networkPrefix, octet)) {
      GivenUsesOctet(entries, networkPrefix, octet);
    }
  }

  // ----- every interleaving -----

  lemma RemoveKeepsAddresses(entries: seq<HostPeerEntry>, id: string)
    requires AddressesApart(entries)
    ensures AddressesApart(Without(entries, id))
  {
    var after := Without(entries, id);
    forall i, j | 0 <= i < j < |after| ensures after[i].virtualIp != after[j].virtualIp {
      var i', j' := FilterPairs(entries, e => Survives(e, id), i, j);
    }
  }

  lemma BindKeepsAddresses(entries: seq<HostPeerEntry>, id: string, node: string)
    requires AddressesApart(entries)
    ensures AddressesApart(Bound(entries, id, node))
  {
    assert forall i :: 0 <= i < |entries| ==> Bound(entries, id, node)[i].virtualIp == entries[i].virtualIp;
  }

  /** If this event adds a slot, no other slot has its address. */
  predicate AddsNewAddress(s: System, e: Event) {
    e.Add? && e.k < |s.reserved| ==> !Given(s.entries, s.reserved[e.k].virtualIp)
  }

  lemma AdvanceKeepsAddressesIff(s: System, e: Event)
    requires AddressesApart(s.entries)
    ensures AddressesApart(Advance(s, e).entries) <==> AddsNewAddress(s, e)
  {
    match e {
      case Add(k) =>
        if k < |s.reserved| {
          AddKeepsAddressesIff(s, k);
        }
      case RemovePeer(id) => RemoveKeepsAddresses(s.entries, id);
      case Bind =>
        if s.accepted.Some? && s.accepted.value.matchedKeyTag.Some? {
          BindKeepsAddresses(s.entries, s.accepted.value.matchedKeyTag.value, s.accepted.value.peerNodeId);
        }
      case _ =>
    }
  }

  /** Whether all addresses are different after so many events. */
  ghost function ApartAfter(host: HostState, events: seq<Event>): nat -> bool {
    (i: nat) => i <= |events| && AddressesApart(SystemAt(host, events, i).entries)
  }

  /** Whether the event at that place, if it adds a slot, adds a new address. */
  function NewAt(host: HostState, events: seq<Event>): nat -> bool {
    (i: nat) => i < |events| && AddsNewAddress(SystemAt(host, events, i), events[i])
  }

  lemma StepKeepsAddressesIff(host: HostState, events: seq<Event>, i: nat)
    requires i < |events| && ApartAfter(host, events)(i)
    ensures ApartAfter(host, events)(i + 1) <==> NewAt(host, events)(i)
  {
    NextSystem(host, events, i);
    AdvanceKeepsAddressesIff(SystemAt(host, events, i), events[i]);
  }

  lemma NoAddressesAtFirst(host: HostState, events: seq<Event>)
    ensures ApartAfter(host, events)(0)
  {}

  /**
   * For every interleaving of requests, whatever prefixes they read: all addresses are different at
   * all times exactly when no add meets a slot that has its address already.
   */
  lemma AddressesDifferIff(host: HostState, events: seq<Event>, n: nat)
    requires n <= |events|
    ensures (forall i: nat :: i <= n ==> ApartAfter(host, events)(i)) <==>
      (forall i: nat :: i < n ==> NewAt(host, events)(i))
  {
    forall i: nat | i < n && ApartAfter(host, events)(i)
      ensures ApartAfter(host, events)(i + 1) <==> NewAt(host, events)(i)
    {
      StepKeepsAddressesIff(host, events, i);
    }
    NoAddressesAtFirst(host, events);
    HoldsThroughoutIff(ApartAfter(host, events), NewAt(host, events), n);
  }

  // ----- requests that overlap -----

  lemma AddressInjective(prefix1: string, prefix2: string, octet: nat)
    requires Address(prefix1, octet) == Address(prefix2, octet)
    ensures prefix1 == prefix2
  {
    var tail := "." + Decimal(octet);
    assert Address(prefix1, octet) == prefix1 + tail && Address(prefix2, octet) == prefix2 + tail;
    assert prefix1 == (prefix1 + tail)[..|prefix1|] && prefix2 == (prefix2 + tail)[..|prefix2|];
  }

  /**
   * Two requests that read the pool one right after the other reserve one octet; once both have added,
   * all addresses differ exactly when the two read different prefixes and neither address was given.
   */
  lemma OverlappingGeneratesCollideIff(s: System, first: Event, second: Event)
    requires first.Reserve? && second.Reserve? && s.reserved == [] && AddressesApart(s.entries)
    ensures AddressesApart(Step(Step(Step(Step(s, first), second), Add(0)), Add(0)).entries) <==>
      && first.networkPrefix != second.networkPrefix
      && !Given(s.entries, Address(first.networkPrefix, NextOctet(s.entries)))
      && !Given(s.entries, Address(second.networkPrefix, NextOctet(s.entries)))
  {
    var octet := NextOctet(s.entries);
    var reserved := Step(Step(s, first), second);
    var a, b := reserved.reserved[0], reserved.reserved[1];
    assert a.virtualIp == Address(first.networkPrefix, octet) && b.virtualIp == Address(second.networkPrefix, octet);
    var added := Step(reserved, Add(0));
    assert added.entries == s.entries + [a] && added.reserved == [b];
    AppendTwoKeepsApartIff(s.entries, a, b);
    if a.virtualIp == b.virtualIp {
      AddressInjective(first.networkPrefix, second.networkPrefix, octet);
    }
  }

  lemma AppendTwoKeepsApartIff(entries: seq<HostPeerEntry>, a: HostPeerEntry, b: HostPeerEntry)
    requires AddressesApart(entries)
    ensures AddressesApart(entries + [a] + [b]) <==>
      a.virtualIp != b.virtualIp && !Given(entries, a.virtualIp) && !Given(entries, b.virtualIp)
  {
    var two := entries + [a] + [b];
    AppendKeepsApartIff(entries, a);
    if AddressesApart(entries + [a]) {
      AppendKeepsApartIff(entries + [a], b);
      assert Given(entries + [a], b.virtualIp) <==> Given(entries, b.virtualIp) || a.virtualIp == b.virtualIp by {
        assert a in entries + [a];
        assert forall e :: e in entries ==> e in entries + [a];
      }
    } else if AddressesApart(two) {
      forall i, j | 0 <= i < j < |entries + [a]| ensures (entries + [a])[i].virtualIp != (entries + [a])[j].virtualIp {
        assert two[i].virtualIp != two[j].virtualIp;
      }
    }
  }
}
