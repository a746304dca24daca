/**
 * One init accepted twice. Within the life of a Host the session map forbids it; a restart forgets the
 * map, and then only the clock stands in the way.
 */
module Reacceptance {
  import opened Wrappers
  import opened Numbers
  import opened Messages
  import opened Replay
  import opened Handshake
  import opened Agreement
  import opened Runs

  /** The event delivers this attempt to the Host, and the Host takes it. */
  ghost predicate AcceptedAt(p: Parties, host: HostState, events: seq<Event>, i: nat)
    requires i < |events|
  {
    && events[i].Delivered? && Possible(p, NetworkAt(p, host, events, i), events[i])
    && Serve(NetworkAt(p, host, events, i).host, events[i].attempt).result.Ok?
  }

  lemma ReactKeepsSession(p: Parties, n: Network, e: Event, nonce: seq<Utf8.byte>)
    requires nonce in n.host.sessions && !e.HostRestarted?
    ensures nonce in React(p, n, e).host.sessions
  {
    if e.Delivered? {
      ServeRemembers(n.host, e.attempt);
    }
  }

  /** While the Host is not restarted it forgets no session. */
  lemma SessionsKept(p: Parties, host: HostState, events: seq<Event>, i: nat, j: nat, nonce: seq<Utf8.byte>)
    requires i <= j <= |events| && forall k :: i <= k < j ==> !events[k].HostRestarted?
    requires nonce in NetworkAt(p, host, events, i).host.sessions
    ensures nonce in NetworkAt(p, host, events, j).host.sessions
  {
    forall net: Network, k | i <= k < j && nonce in net.host.sessions
      ensures nonce in Proceeding(p)(net, events[k]).host.sessions
    {
      ReactKeepsSession(p, net, events[k], nonce);
    }
    KeptBetween(Proceeding(p), Network(host, [], []), events, i, j, (net: Network) => nonce in net.host.sessions);
  }

  lemma AcceptedIsRemembered(p: Parties, host: HostState, events: seq<Event>, i: nat)
    requires i < |events| && AcceptedAt(p, host, events, i)
    ensures SessionNonce(events[i].attempt.envelope.nonce) !in NetworkAt(p, host, events, i).host.sessions
    ensures SessionNonce(events[i].attempt.envelope.nonce) in NetworkAt(p, host, events, i + 1).host.sessions
  {
    ServeRemembers(NetworkAt(p, host, events, i).host, events[i].attempt);
    NextNetwork(p, host, events, i);
  }

  lemma {:induction false} ForgettingNeedsRestart(p: Parties, host: HostState, events: seq<Event>, i: nat, j: nat,
                                                  nonce: seq<Utf8.byte>)
    requires i <= j <= |events|
    ensures var before, after := NetworkAt(p, host, events, i), NetworkAt(p, host, events, j);
      nonce in before.host.sessions && nonce !in after.host.sessions ==>
        exists k :: i <= k < j && events[k].HostRestarted?
  {
    if nonce in NetworkAt(p, host, events, i).host.sessions && forall k :: i <= k < j ==> !events[k].HostRestarted? {
      SessionsKept(p, host, events, i, j, nonce);
    }
  }

  /** A second acceptance of an envelope nonce needs a restart of the Host in between. */
  lemma {:induction false} SecondAcceptanceNeedsRestart(p: Parties, host: HostState, events: seq<Event>, i: nat, j: nat)
    requires i < j < |events| && events[i].Delivered? && events[j].Delivered?
    requires events[i].attempt.envelope.nonce == events[j].attempt.envelope.nonce
    ensures AcceptedAt(p, host, events, i) && AcceptedAt(p, host, events, j) ==>
      exists k :: i < k < j && events[k].HostRestarted?
  {
    if AcceptedAt(p, host, events, i) && AcceptedAt(p, host, events, j) {
      AcceptedIsRemembered(p, host, events, i);
      AcceptedIsRemembered(p, host, events, j);
      ForgettingNeedsRestart(p, host, events, i + 1, j, SessionNonce(events[i].attempt.envelope.nonce));
    }
  }

  lemma ReactKeepsHostId(p: Parties, n: Network, e: Event)
    ensures React(p, n, e).host.nodeId == n.host.nodeId
  {
    if e.Delivered? {
      ServeKeepsHostId(n.host, e.attempt);
    }
  }

  lemma HostIdStays(p: Parties, host: HostState, events: seq<Event>, n: nat)
    requires n <= |events|
    ensures NetworkAt(p, host, events, n).host.nodeId == host.nodeId
  {
    forall net: Network, k | 0 <= k < n && net.host.nodeId == host.nodeId
      ensures Proceeding(p)(net, events[k]).host.nodeId == host.nodeId
    {
      ReactKeepsHostId(p, net, events[k]);
    }
    KeptBetween(Proceeding(p), Network(host, [], []), events, 0, n, (net: Network) => net.host.nodeId == host.nodeId);
  }

  /** The Host remembers nothing that speaks against this attempt. */
  predicate Forgotten(h: HostState, a: Attempt) {
    InitOf(a).Some? ==> !Recent(h.seen, InitOf(a).value.nonce, a.now) && SessionNonce(a.envelope.nonce) !in h.sessions
  }

  /**
   * An init that was accepted once and comes again, opening to the same, is accepted again exactly when
   * the gate is open, the allocator answers, the clock is within the window of its timestamp, and the
   * Host has forgotten it.
   */
  lemma ReacceptedIff(p: Parties, host: HostState, events: seq<Event>, i: nat, j: nat)
    requires i < j < |events| && events[i].Delivered? && events[j].Delivered?
    requires InitOf(events[j].attempt) == InitOf(events[i].attempt)
    ensures var again := events[j].attempt;
      AcceptedAt(p, host, events, i) && Possible(p, NetworkAt(p, host, events, j), events[j]) ==>
      && InitOf(again).Some?
      && (AcceptedAt(p, host, events, j) <==>
            && again.gateOpen && again.supplied.Ok?
            && AbsDiff(InitOf(again).value.timestamp, again.now) <= REPLAY_WINDOW_SECS
            && Forgotten(NetworkAt(p, host, events, j).host, again))
  {
    HostIdStays(p, host, events, i);
    HostIdStays(p, host, events, j);
    AcceptsIff(NetworkAt(p, host, events, i).host, events[i].attempt);
    AcceptsIff(NetworkAt(p, host, events, j).host, events[j].attempt);
  }

  /** Right after a restart the Host has forgotten everything, so only gate, allocator and clock decide. */
  lemma RestartForgets(p: Parties, host: HostState, events: seq<Event>, j: nat)
    requires 0 < j < |events| && events[j - 1].HostRestarted? && events[j].Delivered?
    ensures Forgotten(NetworkAt(p, host, events, j).host, events[j].attempt)
  {
    NextNetwork(p, host, events, j - 1);
  }
}
