/**
 * The address pool over whole runs of the registry, as far as last octets go. A request for an
 * invitation reads the pool in one step and adds its slot in another, so what it read can be out of
 * date. Whole addresses, prefix included, are in `Addresses`.
 */
module AddressPool {
  import opened Wrappers
  import opened Sequences
  import opened Numbers
  import opened TransportKeys
  import opened Handshake
  import opened HostRegistry
  import opened RegistryRuns
  import opened Runs

  predicate InPool(e: HostPeerEntry) {
    Octet(e).Some? && 2 <= Octet(e).value <= 254
  }

  /** All last octets lie in 2..254 and differ. */
  ghost predicate PoolInv(entries: seq<HostPeerEntry>) {
    && (forall e :: e in entries ==> InPool(e))
    && (forall i, j {:trigger entries[i], entries[j]} :: 0 <= i < j < |entries| ==>
      Octet(entries[i]) != Octet(entries[j]))
  }

  lemma FreeOctetExtendsPool(entries: seq<HostPeerEntry>, e: HostPeerEntry)
    requires PoolInv(entries) && InPool(e) && !Uses(entries, Octet(e).value)
    ensures PoolInv(entries + [e])
  {
    var after := entries + [e];
    forall i, j | 0 <= i < j < |after| ensures Octet(after[i]) != Octet(after[j]) {
      assert entries[i] in entries;
      assert j < |entries| ==> after[j] == entries[j];
    }
  }

  lemma UsedOctetSpoilsPool(entries: seq<HostPeerEntry>, e: HostPeerEntry)
    requires Octet(e).Some? && Uses(entries, Octet(e).value)
    ensures !PoolInv(entries + [e])
  {
    var x :| x in entries && Octet(x) == Octet(e);
    var i :| 0 <= i < |entries| && entries[i] == x;
    var after := entries + [e];
    assert Octet(after[i]) == Octet(after[|entries|]);
  }

  // ----- one add -----

  /** Adding a reserved slot keeps all last octets different exactly when its own is still unused by then. */
  lemma AddKeepsOctetsIff(s: System, k: nat)
    requires PoolInv(s.entries) && k < |s.reserved| && InPool(s.reserved[k])
    ensures PoolInv(Step(s, Add(k)).entries) <==> !Uses(s.entries, Octet(s.reserved[k]).value)
  {
    if Uses(s.entries, Octet(s.reserved[k]).value) {
      UsedOctetSpoilsPool(s.entries, s.reserved[k]);
    } else {
      FreeOctetExtendsPool(s.entries, s.reserved[k]);
    }
  }

  lemma SlotOctet(entries: seq<HostPeerEntry>, id: string, key: Key, networkPrefix: string, created: u64)
    ensures Octet(Slot(entries, id, key, networkPrefix, created)) == Some(NextOctet(entries))
    ensures InPool(Slot(entries, id, key, networkPrefix, created))
  {
    NextOctetIsFirstFree(entries);
    AddressOctet(Slot(entries, id, key, networkPrefix, created), networkPrefix, NextOctet(entries));
  }

  lemma FreeOctetIff(entries: seq<HostPeerEntry>)
    ensures (exists c :: 2 <= c <= 254 && !Uses(entries, c)) <==> !Uses(entries, NextOctet(entries))
  {
    NextOctetIsFirstFree(entries);
    SomeIsFreeIff(UsedBy(entries), NextOctet(entries));
    UsedByIs(entries);
  }

  /**
   * When nothing comes between a request's two steps, last octets stay different exactly when one in 2..254 is
   * free.
   */
  lemma GenerateKeepsOctetsIff(entries: seq<HostPeerEntry>, id: string, key: Key, networkPrefix: string, created: u64)
    requires PoolInv(entries)
    ensures PoolInv(entries + [Slot(entries, id, key, networkPrefix, created)]) <==>
      exists c :: 2 <= c <= 254 && !Uses(entries, c)
  {
    var slot := Slot(entries, id, key, networkPrefix, created);
    SlotOctet(entries, id, key, networkPrefix, created);
    FreeOctetIff(entries);
    if Uses(entries, NextOctet(entries)) {
      UsedOctetSpoilsPool(entries, slot);
    } else {
      FreeOctetExtendsPool(entries, slot);
    }
  }

  // ----- the other steps -----

  lemma {:induction false} RemovalFreesOnly(entries: seq<HostPeerEntry>, id: string, octet: nat)
    ensures Uses(Without(entries, id), octet) ==> Uses(entries, octet)
  {
    FilterMembers(entries, e => Survives(e, id));
  }

  lemma RemoveKeepsPool(entries: seq<HostPeerEntry>, id: string)
    requires PoolInv(entries)
    ensures PoolInv(Without(entries, id))
  {
    var after := Without(entries, id);
    FilterMembers(entries, e => Survives(e, id));
    forall i, j | 0 <= i < j < |after| ensures Octet(after[i]) != Octet(after[j]) {
      var i', j' := FilterPairs(entries, e => Survives(e, id), i, j);
    }
  }

  lemma BindKeepsOctets(entries: seq<HostPeerEntry>, id: string, node: string)
    ensures |Bound(entries, id, node)| == |entries|
    ensures forall i :: 0 <= i < |entries| ==> Octet(Bound(entries, id, node)[i]) == Octet(entries[i])
  {}

  lemma BindKeepsUses(entries: seq<HostPeerEntry>, id: string, node: string, octet: nat)
    ensures Uses(Bound(entries, id, node), octet) ==> Uses(entries, octet)
  {
    var after := Bound(entries, id, node);
    BindKeepsOctets(entries, id, node);
    if e :| e in after && Octet(e) == Some(octet) {
      var i :| 0 <= i < |after| && after[i] == e;
      assert entries[i] in entries;
    }
  }

  lemma BindKeepsPool(entries: seq<HostPeerEntry>, id: string, node: string)
    requires PoolInv(entries)
    ensures PoolInv(Bound(entries, id, node))
  {
    var after := Bound(entries, id, node);
    BindKeepsOctets(entries, id, node);
    forall e | e in after ensures InPool(e) {
      var i :| 0 <= i < |after| && after[i] == e;
      assert InPool(entries[i]);
    }
  }

  // ----- every interleaving -----

  ghost predicate ReservedInPool(s: System) {
    forall e :: e in s.reserved ==> InPool(e)
  }

  lemma AdvanceKeepsReserved(s: System, e: Event)
    requires ReservedInPool(s)
    ensures ReservedInPool(Advance(s, e))
  {
    if e.Reserve? {
      SlotOctet(s.entries, e.id, e.key, e.networkPrefix, e.created);
    }
  }

  lemma ReservedStayInPool(host: HostState, events: seq<Event>, n: nat)
    requires n <= |events|
    ensures ReservedInPool(SystemAt(host, events, n))
  {
    forall s: System, i | 0 <= i < n && ReservedInPool(s) ensures ReservedInPool(Advance(s, events[i])) {
      AdvanceKeepsReserved(s, events[i]);
    }
    KeptBetween(Advance, Start(host), events, 0, n, (s: System) => ReservedInPool(s));
  }

  /** If this event adds a slot, the octet it read is still unused. */
  predicate TimelyAdd(s: System, e: Event) {
    e.Add? && e.k < |s.reserved| && InPool(s.reserved[e.k]) ==> !Uses(s.entries, Octet(s.reserved[e.k]).value)
  }

  lemma AdvanceKeepsOctetsIff(s: System, e: Event)
    requires PoolInv(s.entries) && ReservedInPool(s)
    ensures PoolInv(Advance(s, e).entries) <==> TimelyAdd(s, e)
  {
    match e {
      case Add(k) =>
        if k < |s.reserved| {
          assert s.reserved[k] in s.reserved;
          AddKeepsOctetsIff(s, k);
        }
      case RemovePeer(id) => RemoveKeepsPool(s.entries, id);
      case Bind =>
        if s.accepted.Some? && s.accepted.value.matchedKeyTag.Some? {
          BindKeepsPool(s.entries, s.accepted.value.matchedKeyTag.value, s.accepted.value.peerNodeId);
        }
      case _ =>
    }
  }

  /** Whether all last octets are different after so many events. */
  ghost function OctetsAfter(host: HostState, events: seq<Event>): nat -> bool {
    (i: nat) => i <= |events| && PoolInv(SystemAt(host, events, i).entries)
  }

  /** Whether the event at that place, if it adds a slot, finds the octet that its request read still unused. */
  function TimelyAt(host: HostState, events: seq<Event>): nat -> bool {
    (i: nat) => i < |events| && TimelyAdd(SystemAt(host, events, i), events[i])
  }

  /**
   * For every interleaving of requests: all last octets are different at all times exactly when every
   * add finds the octet that its request read still unused.
   */
  lemma OctetsDifferIff(host: HostState, events: seq<Event>, n: nat)
    requires n <= |events|
    ensures (forall i: nat :: i <= n ==> OctetsAfter(host, events)(i)) <==>
      (forall i: nat :: i < n ==> TimelyAt(host, events)(i))
  {
    forall i: nat | i < n && OctetsAfter(host, events)(i)
      ensures OctetsAfter(host, events)(i + 1) <==> TimelyAt(host, events)(i)
    {
      StepKeepsOctetsIff(host, events, i);
    }
    EmptyPool(host, events);
    HoldsThroughoutIff(OctetsAfter(host, events), TimelyAt(host, events), n);
  }

  lemma EmptyPool(host: HostState, events: seq<Event>)
    ensures OctetsAfter(host, events)(0)
  {}

  lemma StepKeepsOctetsIff(host: HostState, events: seq<Event>, i: nat)
    requires i < |events| && OctetsAfter(host, events)(i)
    ensures OctetsAfter(host, events)(i + 1) <==> TimelyAt(host, events)(i)
  {
    ReservedStayInPool(host, events, i);
    NextSystem(host, events, i);
    AdvanceKeepsOctetsIff(SystemAt(host, events, i), events[i]);
  }

  // ----- requests that do not overlap -----

  /** At most one request has read the pool without adding yet, and those that read it found fewer than 253 slots. */
  predicate OneAtATime(host: HostState, events: seq<Event>, i: nat)
    requires i < |events|
  {
    && |SystemAt(host, events, i + 1).reserved| <= 1
    && (events[i].Reserve? ==> |SystemAt(host, events, i).entries| < 253)
  }

  ghost predicate FreshPool(s: System) {
    PoolInv(s.entries) && forall e :: e in s.reserved ==> InPool(e) && !Uses(s.entries, Octet(e).value)
  }

  lemma ReserveKeepsFresh(s: System, e: Event)
    requires FreshPool(s) && e.Reserve? && |s.entries| < 253
    ensures FreshPool(Step(s, e))
  {
    FreeOctetExists(s.entries);
    FreeOctetIff(s.entries);
    SlotOctet(s.entries, e.id, e.key, e.networkPrefix, e.created);
  }

  lemma AddKeepsFresh(s: System, k: nat)
    requires FreshPool(s) && |s.reserved| <= 1
    ensures FreshPool(Step(s, Add(k)))
  {
    if k < |s.reserved| {
      assert s.reserved[k] in s.reserved;
      FreeOctetExtendsPool(s.entries, s.reserved[k]);
    }
  }

  lemma RemoveKeepsFresh(s: System, id: string)
    requires FreshPool(s)
    ensures FreshPool(Step(s, RemovePeer(id)))
  {
    RemoveKeepsPool(s.entries, id);
    forall e | e in s.reserved ensures !Uses(Without(s.entries, id), Octet(e).value) {
      RemovalFreesOnly(s.entries, id, Octet(e).value);
    }
  }

  lemma TieKeepsFresh(s: System, session: Session)
    requires FreshPool(s)
    ensures FreshPool(Tied(s, session))
  {
    if session.matchedKeyTag.Some? {
      BindKeepsPool(s.entries, session.matchedKeyTag.value, session.peerNodeId);
      forall e | e in s.reserved ensures !Uses(Tied(s, session).entries, Octet(e).value) {
        BindKeepsUses(s.entries, session.matchedKeyTag.value, session.peerNodeId, Octet(e).value);
      }
    }
  }

  lemma AdvanceKeepsFresh(s: System, e: Event)
    requires FreshPool(s) && |s.reserved| <= 1 && (e.Reserve? ==> |s.entries| < 253)
    ensures FreshPool(Advance(s, e))
  {
    match e {
      case Reserve(_, _, _, _) => ReserveKeepsFresh(s, e);
      case Add(k) => AddKeepsFresh(s, k);
      case RemovePeer(id) => RemoveKeepsFresh(s, id);
      case Bind => if s.accepted.Some? { TieKeepsFresh(s, s.accepted.value); }
      case _ =>
    }
  }

  ghost function FreshAfter(host: HostState, events: seq<Event>): nat -> bool {
    (i: nat) => i <= |events| && FreshPool(SystemAt(host, events, i)) && |SystemAt(host, events, i).reserved| <= 1
  }

  lemma FreshStep(host: HostState, events: seq<Event>, i: nat)
    requires i < |events| && OneAtATime(host, events, i) && FreshAfter(host, events)(i)
    ensures FreshAfter(host, events)(i + 1)
  {
    NextSystem(host, events, i);
    AdvanceKeepsFresh(SystemAt(host, events, i), events[i]);
  }

  lemma FreshAtFirst(host: HostState, events: seq<Event>)
    ensures FreshAfter(host, events)(0)
  {}

  lemma FreshPoolReachable(host: HostState, events: seq<Event>, n: nat)
    requires n <= |events| && forall i :: 0 <= i < n ==> OneAtATime(host, events, i)
    ensures FreshAfter(host, events)(n)
  {
    FreshAtFirst(host, events);
    forall i: nat | i < n && FreshAfter(host, events)(i) ensures FreshAfter(host, events)(i + 1) {
      FreshStep(host, events, i);
    }
    HoldsFromThenOn(FreshAfter(host, events), n);
  }

  /** Over any such run, with any removals and handshakes in between, all addresses differ and lie in 2..254. */
  lemma AddressesNeverCollide(host: HostState, events: seq<Event>, n: nat, i: nat, j: nat)
    requires n <= |events| && forall k :: 0 <= k < n ==> OneAtATime(host, events, k)
    requires i < j < |SystemAt(host, events, n).entries|
    ensures var a, b := SystemAt(host, events, n).entries[i], SystemAt(host, events, n).entries[j];
      InPool(a) && InPool(b) && Octet(a) != Octet(b) && a.virtualIp != b.virtualIp
  {
    FreshPoolReachable(host, events, n);
    var s := SystemAt(host, events, n);
    assert s.entries[i] in s.entries && s.entries[j] in s.entries;
  }

  // ----- requests that overlap -----

  /** Two requests that read the pool one right after the other reserve one octet, whatever their prefixes. */
  lemma OverlappingReadsReserveOneOctet(s: System, first: Event, second: Event)
    requires first.Reserve? && second.Reserve? && s.reserved == []
    ensures var reserved := Step(Step(s, first), second);
      && Octet(reserved.reserved[0]) == Octet(reserved.reserved[1])
      && !PoolInv(Step(Step(reserved, Add(0)), Add(0)).entries)
  {
    SlotOctet(s.entries, first.id, first.key, first.networkPrefix, first.created);
    SlotOctet(s.entries, second.id, second.key, second.networkPrefix, second.created);
    var reserved := Step(Step(s, first), second);
    var added := Step(reserved, Add(0));
    assert added.reserved == [reserved.reserved[1]];
    assert reserved.reserved[0] in added.entries;
    UsedOctetSpoilsPool(added.entries, added.reserved[0]);
  }

  /** A removal between the two reads makes them differ exactly when it frees an octet below the first. */
  lemma RemovalMovesNextOctetIff(entries: seq<HostPeerEntry>, id: string)
    ensures NextOctet(Without(entries, id)) != NextOctet(entries) <==>
      exists c :: 2 <= c < NextOctet(entries) && !Uses(Without(entries, id), c)
  {
    var after := Without(entries, id);
    UsedByIs(entries);
    UsedByIs(after);
    forall octet: nat | UsedBy(after)(octet) ensures UsedBy(entries)(octet) {
      RemovalFreesOnly(entries, id, octet);
    }
    FreeingMovesFirstFreeIff(UsedBy(entries), UsedBy(after));
  }
}
