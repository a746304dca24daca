/** Liveness records and the ping/pong loops of the Cliente and the Host on one connection. */
module Heartbeats {
  import opened Wrappers
  import opened Sequences
  import opened Utf8
  import opened Numbers

  const STALE_AFTER_SECS := 30

  datatype HeartbeatError = InvalidEncoding | InvalidHeartbeat | StaleHeartbeat

  function HeartbeatFields(kind: string, nodeId: string, timestamp: u64, sequence: u64, virtualIp: string): seq<string>
  {
    ["v1", kind, nodeId, Decimal(timestamp), Decimal(sequence), virtualIp]
  }

  function HeartbeatFrame(kind: string, nodeId: string, timestamp: u64, sequence: u64, virtualIp: string): seq<byte> {
    Encode(Join(HeartbeatFields(kind, nodeId, timestamp, sequence, virtualIp), '|'))
  }

  function ParseHeartbeat(payload: seq<byte>, kind: string, nodeId: string, now: u64):
    Result<(u64, string), HeartbeatError>
  {
    match Decode(payload)
    case None => Err(InvalidEncoding)
    case Some(text) =>
      var fields := Split(text, '|');
      if |fields| != 6 || fields[0] != "v1" || fields[1] != kind || fields[2] != nodeId then Err(InvalidHeartbeat)
      else
        match (ParseUnsigned(fields[3], U64_MAX), ParseUnsigned(fields[4], U64_MAX))
        case (Some(timestamp), Some(sequence)) =>
          if AbsDiff(now, timestamp) > STALE_AFTER_SECS then Err(StaleHeartbeat) else Ok((sequence, fields[5]))
        case _ => Err(InvalidHeartbeat)
  }

  /**
   * A heartbeat is understood exactly by a reader that expects its kind and its sender, while it is
   * fresh, and only if the advertised address holds no `|`; what is understood is what was sent.
   */
  lemma HeartbeatRoundTrip(kind: string, nodeId: string, timestamp: u64, sequence: u64, virtualIp: string,
                           expectedKind: string, expectedNode: string, now: u64)
    requires '|' !in kind && '|' !in nodeId
    ensures var frame := HeartbeatFrame(kind, nodeId, timestamp, sequence, virtualIp);
      var r := ParseHeartbeat(frame, expectedKind, expectedNode, now);
      && (r.Ok? <==>
            && kind == expectedKind && nodeId == expectedNode
            && '|' !in virtualIp && timestamp - 30 <= now <= timestamp + 30)
      && (r.Ok? ==> r.value == (sequence, virtualIp))
  {
    var fields := HeartbeatFields(kind, nodeId, timestamp, sequence, virtualIp);
    DecodeEncode(Join(fields, '|'));
    ParseUnsignedOfDecimal(timestamp, U64_MAX);
    ParseUnsignedOfDecimal(sequence, U64_MAX);
    assert fields[5] == virtualIp;
    if '|' in virtualIp {
      SplitJoinCount(fields, '|');
    } else {
      assert '|' !in "v1";
      SplitJoin(fields, '|');
    }
  }

  // ----- the two loops -----

  datatype ClientePoint = Ready | Awaiting | ClienteStopped

  datatype HostPoint = Listening | Replying(sequence: u64) | Replied | HostStopped

  /** `messages` is the activity counter of `PeerTransportStatus`, `remote` the address it shows. */
  datatype Status = Status(messages: u64, remote: Option<string>)

  /**
   * One connection. `pings` and `pongs` are the inboxes; `pingAddresses` and `pongAddresses` list
   * every address a side has advertised; `rejected` is set where a pong had the wrong sequence.
   */
  datatype Link = Link(
    clientePoint: ClientePoint, sequence: u64, cliente: Status, completed: nat,
    hostPoint: HostPoint, host: Status, answered: nat, recorded: nat,
    pings: seq<seq<byte>>, pongs: seq<seq<byte>>,
    pingAddresses: seq<string>, pongAddresses: seq<string>, rejected: bool)

  /** The ids of the two sides; each expects the other's. */
  datatype Ends = Ends(clienteId: string, hostId: string)

  /** A stop is any way out of a loop: gate closed, write failed, timeout. */
  datatype Event =
    | SendPing(now: u64, address: string)
    | ReceivePong(now: u64)
    | StopCliente
    | ReceivePing(now: u64)
    | SendPong(now: u64, address: string)
    | RecordActivity
    | StopHost

  function WrappingAdd(a: u64, b: u64): u64 {
    if a + b > U64_MAX then a + b - U64_MAX - 1 else a + b
  }

  /** `set_remote_virtual_ip`: an empty address counts as unknown. */
  function Learned(address: string): Option<string> {
    if address == "" then None else Some(address)
  }

  function Step(ends: Ends, s: Link, e: Event): Link {
    match e
    case SendPing(now, address) =>
      if s.clientePoint != Ready then s
      else
        var sequence := WrappingAdd(s.sequence, 1);
        s.(clientePoint := Awaiting, sequence := sequence, pingAddresses := s.pingAddresses + [address],
           pings := s.pings + [HeartbeatFrame("ping", ends.clienteId, now, sequence, address)])
    case ReceivePong(now) =>
      if s.clientePoint != Awaiting || s.pongs == [] then s
      else ClienteTakes(ends, s.(pongs := s.pongs[1..]), s.pongs[0], now)
    case StopCliente => s.(clientePoint := ClienteStopped)
    case ReceivePing(now) =>
      if s.hostPoint != Listening || s.pings == [] then s
      else HostTakes(ends, s.(pings := s.pings[1..]), s.pings[0], now)
    case SendPong(now, address) =>
      if !s.hostPoint.Replying? then s
      else
        s.(hostPoint := Replied, answered := s.answered + 1, pongAddresses := s.pongAddresses + [address],
           pongs := s.pongs + [HeartbeatFrame("pong", ends.hostId, now, s.hostPoint.sequence, address)])
    case RecordActivity =>
      if s.hostPoint != Replied then s
      else s.(hostPoint := Listening, host := s.host.(messages := WrappingAdd(s.host.messages, 2)),
        recorded := s.recorded + 1)
    case StopHost => s.(hostPoint := HostStopped)
  }

  function ClienteTakes(ends: Ends, s: Link, pong: seq<byte>, now: u64): Link {
    match ParseHeartbeat(pong, "pong", ends.hostId, now)
    case Err(_) => s.(clientePoint := ClienteStopped)
    case Ok((sequence, address)) =>
      if sequence != s.sequence then s.(clientePoint := ClienteStopped, rejected := true)
      else
        s.(clientePoint := Ready, completed := s.completed + 1,
           cliente := Status(WrappingAdd(s.cliente.messages, 2), Learned(address)))
  }

  function HostTakes(ends: Ends, s: Link, ping: seq<byte>, now: u64): Link {
    match ParseHeartbeat(ping, "ping", ends.clienteId, now)
    case Err(_) => s.(hostPoint := HostStopped)
    case Ok((sequence, address)) => s.(hostPoint := Replying(sequence), host := s.host.(remote := Learned(address)))
  }

  /** A new connection. The Cliente keeps its status from one connection to the next; the Host starts a new one. */
  function Connected(before: Status): Link {
    Link(Ready, 0, before, 0, Listening, Status(0, None), 0, 0, [], [], [], [], false)
  }

  function LinkAt(ends: Ends, before: Status, events: seq<Event>, n: nat): Link
    requires n <= |events|
  {
    if n == 0 then Connected(before) else Step(ends, LinkAt(ends, before, events, n - 1), events[n - 1])
  }

  // ----- lockstep -----

  function Outstanding(s: Link): nat {
    |s.pings| + (if s.hostPoint.Replying? then 1 else 0) + |s.pongs|
  }

  ghost predicate Carries(frame: seq<byte>, kind: string, nodeId: string, sequence: u64, addresses: seq<string>) {
    exists now: u64, address :: address in addresses && frame == HeartbeatFrame(kind, nodeId, now, sequence, address)
  }

  predicate Shown(remote: Option<string>, addresses: seq<string>) {
    remote.Some? ==> remote.value in addresses
  }

  /** The counter after so many exchanges of two messages each. */
  function Counted(before: u64, exchanges: nat): u64 {
    (before + 2 * exchanges) % (U64_MAX + 1)
  }

  /** What is on its way, and that it is what the receiver waits for. */
  ghost predicate InFlight(ends: Ends, s: Link) {
    && Outstanding(s) <= 1 && (s.clientePoint == Ready ==> Outstanding(s) == 0)
    && (s.pings != [] ==> Carries(s.pings[0], "ping", ends.clienteId, s.sequence, s.pingAddresses))
    && (s.pongs != [] ==> Carries(s.pongs[0], "pong", ends.hostId, s.sequence, s.pongAddresses))
    && (s.hostPoint.Replying? ==> s.hostPoint.sequence == s.sequence)
    && !s.rejected
  }

  /** What the two sides show and count. */
  predicate Reported(before: Status, s: Link) {
    && (s.cliente.remote == before.remote || Shown(s.cliente.remote, s.pongAddresses))
      && Shown(s.host.remote, s.pingAddresses)
    && s.cliente.messages == Counted(before.messages, s.completed) && s.host.messages == Counted(0, s.recorded)
  }

  predicate InStep(s: Link) {
    && s.completed + |s.pongs| <= s.answered
    && s.answered + Outstanding(s) - |s.pongs| <= |s.pingAddresses| <= s.completed
      + (if s.clientePoint == Ready then 0 else 1)
    && s.recorded <= s.answered <= s.recorded + 1
    && (s.hostPoint.Listening? || s.hostPoint.Replying? ==> s.recorded == s.answered)
    && (s.hostPoint.Replied? ==> s.recorded + 1 == s.answered)
  }

  ghost predicate Inv(ends: Ends, before: Status, s: Link) {
    InFlight(ends, s) && Reported(before, s) && InStep(s)
  }

  lemma CountedStep(before: u64, exchanges: nat)
    ensures Counted(before, exchanges + 1) == WrappingAdd(Counted(before, exchanges), 2)
  {}

  /** A carried heartbeat that is understood at all yields its sequence and an advertised address. */
  lemma CarriedIsUnderstood(frame: seq<byte>, kind: string, nodeId: string, sequence: u64, addresses: seq<string>,
                            now: u64)
    requires '|' !in kind && '|' !in nodeId && Carries(frame, kind, nodeId, sequence, addresses)
    ensures var r := ParseHeartbeat(frame, kind, nodeId, now);
      r.Ok? ==> r.value.0 == sequence && r.value.1 in addresses
  {
    var then': u64, address :| address in addresses && frame == HeartbeatFrame(kind, nodeId, then', sequence, address);
    HeartbeatRoundTrip(kind, nodeId, then', sequence, address, kind, nodeId, now);
  }

  predicate PipeFree(ends: Ends) {
    '|' !in ends.clienteId && '|' !in ends.hostId
  }

  lemma SendPingKeepsInv(ends: Ends, before: Status, s: Link, now: u64, address: string)
    requires Inv(ends, before, s)
    ensures Inv(ends, before, Step(ends, s, SendPing(now, address)))
  {
    if s.clientePoint == Ready {
      var after := Step(ends, s, SendPing(now, address));
      assert address in after.pingAddresses;
      assert after.pings[0] == HeartbeatFrame("ping", ends.clienteId, now, after.sequence, address);
    }
  }

  lemma SendPongKeepsInv(ends: Ends, before: Status, s: Link, now: u64, address: string)
    requires Inv(ends, before, s)
    ensures Inv(ends, before, Step(ends, s, SendPong(now, address)))
  {
    if s.hostPoint.Replying? {
      var after := Step(ends, s, SendPong(now, address));
      assert address in after.pongAddresses;
      assert after.pongs[0] == HeartbeatFrame("pong", ends.hostId, now, s.sequence, address);
    }
  }

  lemma ReceivePongKeepsInv(ends: Ends, before: Status, s: Link, now: u64)
    requires PipeFree(ends) && Inv(ends, before, s)
    ensures Inv(ends, before, Step(ends, s, ReceivePong(now)))
  {
    if s.clientePoint == Awaiting && s.pongs != [] {
      assert '|' !in "pong";
      CarriedIsUnderstood(s.pongs[0], "pong", ends.hostId, s.sequence, s.pongAddresses, now);
      CountedStep(before.messages, s.completed);
    }
  }

  lemma ReceivePingKeepsInv(ends: Ends, before: Status, s: Link, now: u64)
    requires PipeFree(ends) && Inv(ends, before, s)
    ensures Inv(ends, before, Step(ends, s, ReceivePing(now)))
  {
    if s.hostPoint == Listening && s.pings != [] {
      assert '|' !in "ping";
      CarriedIsUnderstood(s.pings[0], "ping", ends.clienteId, s.sequence, s.pingAddresses, now);
    }
  }

  lemma RecordKeepsInv(ends: Ends, before: Status, s: Link)
    requires Inv(ends, before, s)
    ensures Inv(ends, before, Step(ends, s, RecordActivity))
  {
    CountedStep(0, s.recorded);
  }

  lemma StopKeepsInv(ends: Ends, before: Status, s: Link, e: Event)
    requires Inv(ends, before, s) && (e.StopCliente? || e.StopHost?)
    ensures Inv(ends, before, Step(ends, s, e))
  {}

  lemma StepKeepsInv(ends: Ends, before: Status, s: Link, e: Event)
    requires PipeFree(ends) && Inv(ends, before, s)
    ensures Inv(ends, before, Step(ends, s, e))
  {
    match e {
      case SendPing(now, address) => SendPingKeepsInv(ends, before, s, now, address);
      case ReceivePong(now) => ReceivePongKeepsInv(ends, before, s, now);
      case StopCliente => StopKeepsInv(ends, before, s, e);
      case ReceivePing(now) => ReceivePingKeepsInv(ends, before, s, now);
      case SendPong(now, address) => SendPongKeepsInv(ends, before, s, now, address);
      case RecordActivity => RecordKeepsInv(ends, before, s);
      case StopHost => StopKeepsInv(ends, before, s, e);
    }
  }

  lemma {:induction false} Reachable(ends: Ends, before: Status, events: seq<Event>, n: nat)
    requires PipeFree(ends) && n <= |events|
    ensures Inv(ends, before, LinkAt(ends, before, events, n))
  {
    if n > 0 {
      Reachable(ends, before, events, n - 1);
      StepKeepsInv(ends, before, LinkAt(ends, before, events, n - 1), events[n - 1]);
    }
  }

  /**
   * Whatever the two loops and the clock do, at most one ping is unanswered, no pong is ever refused
   * for its sequence, and an address one side shows is one the other side sent (or, at the Cliente,
   * still the one of an earlier connection).
   */
  lemma Lockstep(ends: Ends, before: Status, events: seq<Event>, n: nat)
    requires PipeFree(ends) && n <= |events|
    ensures var s := LinkAt(ends, before, events, n);
      && Outstanding(s) <= 1 && (s.clientePoint == Ready ==> Outstanding(s) == 0)
      && !s.rejected
      && (s.cliente.remote == before.remote || Shown(s.cliente.remote, s.pongAddresses))
      && Shown(s.host.remote, s.pingAddresses)
  {
    Reachable(ends, before, events, n);
  }

  /**
   * Each side counts exactly two messages per exchange, and the two sides never drift further than one
   * exchange apart.
   */
  lemma ActivityCountsExchanges(ends: Ends, before: Status, events: seq<Event>, n: nat)
    requires PipeFree(ends) && n <= |events|
    ensures var s := LinkAt(ends, before, events, n);
      && s.cliente.messages == Counted(before.messages, s.completed) && s.host.messages == Counted(0, s.recorded)
      && s.completed <= s.answered <= s.completed + 1 && s.recorded <= s.answered <= s.recorded + 1
  {
    Reachable(ends, before, events, n);
  }

  // ----- one exchange -----

  /** When the two heartbeats of an exchange are sent and taken, and the addresses they carry. */
  datatype Exchange = Exchange(pingedAt: u64, pinged: string, pingTakenAt: u64, pongedAt: u64, ponged: string,
                               pongTakenAt: u64)

  /** The heartbeat is fresh when it is taken, and its address does not break it. */
  predicate Understood(sentAt: u64, takenAt: u64, address: string) {
    '|' !in address && AbsDiff(takenAt, sentAt) <= STALE_AFTER_SECS
  }

  /** An empty address is shown as none, any other as it is. */
  predicate Shows(remote: Option<string>, address: string) {
    if address == "" then remote == None else remote == Some(address)
  }

  function Pinged(ends: Ends, s: Link, x: Exchange): Link {
    Step(ends, Step(ends, s, SendPing(x.pingedAt, x.pinged)), ReceivePing(x.pingTakenAt))
  }

  function Exchanged(ends: Ends, s: Link, x: Exchange): Link {
    Step(ends, Step(ends, Step(ends, Pinged(ends, s, x), SendPong(x.pongedAt, x.ponged)), ReceivePong(x.pongTakenAt)),
      RecordActivity)
  }

  lemma PingIsTakenIff(ends: Ends, before: Status, s: Link, x: Exchange)
    requires PipeFree(ends) && Inv(ends, before, s) && s.clientePoint == Ready && s.hostPoint == Listening
    ensures var after := Pinged(ends, s, x); var sequence := WrappingAdd(s.sequence, 1);
      && after.clientePoint == Awaiting && after.sequence == sequence && after.pings == [] && after.pongs == []
      && after.completed == s.completed && after.recorded == s.recorded
      && after.hostPoint ==
        (if Understood(x.pingedAt, x.pingTakenAt, x.pinged) then Replying(sequence) else HostStopped)
      && (after.hostPoint.Replying? ==> Shows(after.host.remote, x.pinged))
  {
    var sequence := WrappingAdd(s.sequence, 1);
    assert '|' !in "ping";
    HeartbeatRoundTrip("ping", ends.clienteId, x.pingedAt, sequence, x.pinged, "ping", ends.clienteId, x.pingTakenAt);
    assert s.pings == [];
    assert Step(ends, s, SendPing(x.pingedAt, x.pinged)).pings ==
      [HeartbeatFrame("ping", ends.clienteId, x.pingedAt, sequence, x.pinged)];
  }

  lemma PongIsTakenIff(ends: Ends, s: Link, x: Exchange)
    requires PipeFree(ends) && s.clientePoint == Awaiting && s.pongs == [] && s.hostPoint == Replying(s.sequence)
    ensures var after := Step(ends, Step(ends, s, SendPong(x.pongedAt, x.ponged)), ReceivePong(x.pongTakenAt));
      var understood := Understood(x.pongedAt, x.pongTakenAt, x.ponged);
      && after.clientePoint == (if understood then Ready else ClienteStopped)
      && after.completed == s.completed + (if understood then 1 else 0)
      && after.hostPoint == Replied && after.recorded == s.recorded && after.host == s.host
      && (understood ==> Shows(after.cliente.remote, x.ponged))
  {
    assert '|' !in "pong";
    HeartbeatRoundTrip("pong", ends.hostId, x.pongedAt, s.sequence, x.ponged, "pong", ends.hostId, x.pongTakenAt);
    assert Step(ends, s, SendPong(x.pongedAt, x.ponged)).pongs ==
      [HeartbeatFrame("pong", ends.hostId, x.pongedAt, s.sequence, x.ponged)];
  }

  /**
   * An exchange completes exactly when both heartbeats are fresh on arrival and carry clean addresses;
   * then both sides are ready for the next one and show each other's address.
   */
  lemma ExchangeCompletesIff(ends: Ends, before: Status, s: Link, x: Exchange)
    requires PipeFree(ends) && Inv(ends, before, s) && s.clientePoint == Ready && s.hostPoint == Listening
    ensures var after := Exchanged(ends, s, x);
      var understood := Understood(x.pingedAt, x.pingTakenAt, x.pinged)
        && Understood(x.pongedAt, x.pongTakenAt, x.ponged);
      && (after.completed == s.completed + 1 <==> understood)
      && (understood ==>
            && after.clientePoint == Ready && after.hostPoint == Listening && after.recorded == s.recorded + 1
            && (if x.ponged == "" then after.cliente.remote == None else after.cliente.remote == Some(x.ponged))
            && (if x.pinged == "" then after.host.remote == None else after.host.remote == Some(x.pinged)))
  {
    PingIsTakenIff(ends, before, s, x);
    if Understood(x.pingedAt, x.pingTakenAt, x.pinged) {
      PongIsTakenIff(ends, Pinged(ends, s, x), x);
    }
  }
}
