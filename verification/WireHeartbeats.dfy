/**
 * The heartbeat loops over the wire: each direction is a multiplexed stream with any number of packet
 * senders beside the heartbeat sender, of which only part may have arrived, and a loop takes the next
 * heartbeat of what its reader has read.
 */
module WireHeartbeats {
  import opened Wrappers
  import opened Sequences
  import opened Utf8
  import opened Numbers
  import opened Frames
  import Multiplexer
  import opened Heartbeats
  import opened Runs

  /** One direction: the writers and their bytes, how many have arrived, how many heartbeats were taken. */
  datatype Lane = Lane(writers: Multiplexer.State, arrived: nat, taken: nat)

  /** The two loops, whose inboxes are left empty: they take their heartbeats from the lanes. */
  datatype Wire = Wire(loops: Link, toHost: Lane, toCliente: Lane)

  /** What the reader of a lane has put into its heartbeat inbox so far. */
  function Inbox(l: Lane): seq<seq<byte>> {
    var reached := if l.arrived <= |l.writers.wire| then l.writers.wire[..l.arrived] else l.writers.wire;
    Multiplexer.Channel(WholeFrames(reached), Multiplexer.HEARTBEAT)
  }

  /** What was sent on the heartbeat channel, the frame under way included. */
  function Sent(l: Lane): seq<seq<byte>> {
    Multiplexer.Channel(l.writers.sent + Multiplexer.Pending(l.writers), Multiplexer.HEARTBEAT)
  }

  /** `Writers` is anything the writers of a lane do but begin a heartbeat. */
  datatype WireEvent =
    | Beat(event: Event)
    | Writers(toHost: bool, action: Multiplexer.Action)
    | Arrive(toHost: bool, count: nat)

  predicate BeginsHeartbeat(a: Multiplexer.Action) {
    a.Lock? && a.framed != [] && a.framed[0] == Multiplexer.HEARTBEAT
  }

  function Framed(heartbeat: seq<byte>): seq<byte> {
    [Multiplexer.HEARTBEAT] + heartbeat
  }

  const HEARTBEAT_SENDER: nat := 0

  /** The heartbeat sender takes the mutex. */
  function Begin(l: Lane, heartbeat: seq<byte>): Lane
    requires l.writers.owner == None
  {
    l.(writers := Multiplexer.Step(l.writers, Multiplexer.Lock(HEARTBEAT_SENDER, Framed(heartbeat))))
  }

  function Write(l: Lane, a: Multiplexer.Action): Lane {
    if !Multiplexer.Enabled(l.writers, a) || BeginsHeartbeat(a) then l
    else l.(writers := Multiplexer.Step(l.writers, a))
  }

  function Arrived(l: Lane, count: nat): Lane {
    if l.arrived + count <= |l.writers.wire| then l.(arrived := l.arrived + count) else l
  }

  function Ping(ends: Ends, s: Link, now: u64, address: string): seq<byte> {
    HeartbeatFrame("ping", ends.clienteId, now, WrappingAdd(s.sequence, 1), address)
  }

  function Pong(ends: Ends, s: Link, now: u64, address: string): seq<byte>
    requires s.hostPoint.Replying?
  {
    HeartbeatFrame("pong", ends.hostId, now, s.hostPoint.sequence, address)
  }

  /** A heartbeat too long for a frame is not sent, and ends its loop. */
  function WireStep(ends: Ends, w: Wire, e: WireEvent): Wire {
    match e
    case Writers(toHost, action) =>
      if toHost then w.(toHost := Write(w.toHost, action)) else w.(toCliente := Write(w.toCliente, action))
    case Arrive(toHost, count) =>
      if toHost then w.(toHost := Arrived(w.toHost, count)) else w.(toCliente := Arrived(w.toCliente, count))
    case Beat(event) =>
      match event
      case SendPing(now, address) =>
        if w.loops.clientePoint != Ready || w.toHost.writers.owner.Some? then w
        else if !Fits(Framed(Ping(ends, w.loops, now, address))) then w.(loops := Step(ends, w.loops, StopCliente))
        else
          w.(loops := Step(ends, w.loops, event).(pings := []),
            toHost := Begin(w.toHost, Ping(ends, w.loops, now, address)))
      case SendPong(now, address) =>
        if !w.loops.hostPoint.Replying? || w.toCliente.writers.owner.Some? then w
        else if !Fits(Framed(Pong(ends, w.loops, now, address))) then w.(loops := Step(ends, w.loops, StopHost))
        else
          w.(loops := Step(ends, w.loops, event).(pongs := []),
            toCliente := Begin(w.toCliente, Pong(ends, w.loops, now, address)))
      case ReceivePing(now) =>
        if w.loops.hostPoint != Listening || w.toHost.taken >= |Inbox(w.toHost)| then w
        else
          w.(loops := HostTakes(ends, w.loops, Inbox(w.toHost)[w.toHost.taken], now),
            toHost := w.toHost.(taken := w.toHost.taken + 1))
      case ReceivePong(now) =>
        if w.loops.clientePoint != Awaiting || w.toCliente.taken >= |Inbox(w.toCliente)| then w
        else
          w.(loops := ClienteTakes(ends, w.loops, Inbox(w.toCliente)[w.toCliente.taken], now),
             toCliente := w.toCliente.(taken := w.toCliente.taken + 1))
      case _ => w.(loops := Step(ends, w.loops, event))
  }

  // ----- what a lane delivers -----

  ghost predicate LaneInv(l: Lane) {
    Multiplexer.Inv(l.writers) && l.arrived <= |l.writers.wire| && l.taken <= |Sent(l)|
  }

  /** The heartbeats that were sent and not yet taken. */
  function Queue(l: Lane): seq<seq<byte>>
    requires l.taken <= |Sent(l)|
  {
    Sent(l)[l.taken..]
  }

  /** The inbox is an in-order prefix of what was sent, so the next heartbeat to take is the head of the queue. */
  lemma InboxIsPrefix(l: Lane)
    requires LaneInv(l)
    ensures IsPrefix(Inbox(l), Sent(l))
  {
    Multiplexer.ArrivedIsPrefixOfSent(l.writers, l.arrived, Multiplexer.HEARTBEAT);
  }

  lemma BeginQueues(l: Lane, heartbeat: seq<byte>)
    requires LaneInv(l) && l.writers.owner == None && Fits(Framed(heartbeat))
    ensures LaneInv(Begin(l, heartbeat)) && Queue(Begin(l, heartbeat)) == Queue(l) + [heartbeat]
  {
    var a := Multiplexer.Lock(HEARTBEAT_SENDER, Framed(heartbeat));
    Multiplexer.StepKeepsInv(l.writers, a);
    assert l.writers.sent + Multiplexer.Pending(l.writers) == l.writers.sent;
    Multiplexer.ChannelConcat(l.writers.sent, [Framed(heartbeat)], Multiplexer.HEARTBEAT);
    SingleChannel(heartbeat);
    assert Sent(Begin(l, heartbeat)) == Sent(l) + [heartbeat];
  }

  lemma SingleChannel(heartbeat: seq<byte>)
    ensures Multiplexer.Channel([Framed(heartbeat)], Multiplexer.HEARTBEAT) == [heartbeat]
  {
    assert Framed(heartbeat)[1..] == heartbeat;
    assert Multiplexer.Channel([Framed(heartbeat)][1..], Multiplexer.HEARTBEAT) == [];
  }

  lemma WriteKeepsSent(l: Lane, a: Multiplexer.Action)
    requires Multiplexer.Inv(l.writers)
    ensures Sent(Write(l, a)) == Sent(l)
  {
    if Multiplexer.Enabled(l.writers, a) && a.Lock? && !BeginsHeartbeat(a) {
      assert l.writers.sent + Multiplexer.Pending(l.writers) == l.writers.sent;
      if Fits(a.framed) {
        Multiplexer.OtherFramesChangeNothing(l.writers.sent, a.framed, [], Multiplexer.HEARTBEAT);
        assert l.writers.sent + [a.framed] + [] == l.writers.sent + [a.framed];
        assert l.writers.sent + [] == l.writers.sent;
      } else {
        assert l.writers.sent + [] == l.writers.sent;
      }
    } else if Multiplexer.Enabled(l.writers, a) && a.Unlock? {
      UnlockKeepsSent(l.writers, a);
    }
  }

  lemma UnlockKeepsSent(s: Multiplexer.State, a: Multiplexer.Action)
    requires Multiplexer.Enabled(s, a) && a.Unlock?
    ensures var after := Multiplexer.Step(s, a);
      after.sent + Multiplexer.Pending(after) == s.sent + Multiplexer.Pending(s)
  {
    if Fits(s.current) {
      assert s.sent + [s.current] + [] == s.sent + [s.current];
    }
  }

  lemma WriteKeepsLane(l: Lane, a: Multiplexer.Action)
    requires LaneInv(l)
    ensures LaneInv(Write(l, a)) && Queue(Write(l, a)) == Queue(l)
  {
    WriteKeepsSent(l, a);
    if Multiplexer.Enabled(l.writers, a) {
      Multiplexer.StepKeepsInv(l.writers, a);
      Multiplexer.WireOnlyGrows(l.writers, a);
    }
  }

  /** Taking what the inbox holds takes the head of the queue. */
  lemma TakeTakesHead(l: Lane)
    requires LaneInv(l) && l.taken < |Inbox(l)|
    ensures Queue(l) != [] && Inbox(l)[l.taken] == Queue(l)[0]
    ensures LaneInv(l.(taken := l.taken + 1)) && Queue(l.(taken := l.taken + 1)) == Queue(l)[1..]
  {
    InboxIsPrefix(l);
  }

  // ----- the loops over the wire are the loops over their queues -----

  ghost predicate WireInv(w: Wire) {
    LaneInv(w.toHost) && LaneInv(w.toCliente) && w.loops.pings == [] && w.loops.pongs == []
  }

  /** The connection as the loops see it: what is on its way in each direction is a queue. */
  function View(w: Wire): Link
    requires w.toHost.taken <= |Sent(w.toHost)| && w.toCliente.taken <= |Sent(w.toCliente)|
  {
    w.loops.(pings := Queue(w.toHost), pongs := Queue(w.toCliente))
  }

  /** What the loops see of an event, if anything. */
  function Seen(ends: Ends, w: Wire, e: WireEvent): Option<Event> {
    if !e.Beat? then None
    else
      match e.event
      case SendPing(now, address) =>
        if w.loops.clientePoint != Ready || w.toHost.writers.owner.Some? then None
        else if !Fits(Framed(Ping(ends, w.loops, now, address))) then Some(StopCliente) else Some(e.event)
      case SendPong(now, address) =>
        if !w.loops.hostPoint.Replying? || w.toCliente.writers.owner.Some? then None
        else if !Fits(Framed(Pong(ends, w.loops, now, address))) then Some(StopHost) else Some(e.event)
      case ReceivePing(_) =>
        if w.loops.hostPoint != Listening || w.toHost.taken >= |Inbox(w.toHost)| then None else Some(e.event)
      case ReceivePong(_) =>
        if w.loops.clientePoint != Awaiting || w.toCliente.taken >= |Inbox(w.toCliente)| then None else Some(e.event)
      case _ => Some(e.event)
  }

  ghost predicate Refines(ends: Ends, w: Wire, e: WireEvent)
    requires WireInv(w)
  {
    var after := WireStep(ends, w, e);
    WireInv(after) &&
    View(after) == match Seen(ends, w, e)
      case None => View(w)
      case Some(event) => Step(ends, View(w), event)
  }

  lemma LanesRefine(ends: Ends, w: Wire, e: WireEvent)
    requires WireInv(w) && !e.Beat?
    ensures Refines(ends, w, e)
  {
    match e {
      case Writers(toHost, action) => WriteKeepsLane(if toHost then w.toHost else w.toCliente, action);
      case Arrive(_, _) =>
    }
  }

  lemma SendPingRefines(ends: Ends, w: Wire, now: u64, address: string)
    requires WireInv(w)
    ensures Refines(ends, w, Beat(SendPing(now, address)))
  {
    if w.loops.clientePoint == Ready && w.toHost.writers.owner == None
      && Fits(Framed(Ping(ends, w.loops, now, address))) {
      BeginQueues(w.toHost, Ping(ends, w.loops, now, address));
    }
  }

  lemma SendPongRefines(ends: Ends, w: Wire, now: u64, address: string)
    requires WireInv(w)
    ensures Refines(ends, w, Beat(SendPong(now, address)))
  {
    if w.loops.hostPoint.Replying? && w.toCliente.writers.owner == None
      && Fits(Framed(Pong(ends, w.loops, now, address))) {
      BeginQueues(w.toCliente, Pong(ends, w.loops, now, address));
    }
  }

  /** What a side makes of a heartbeat does not depend on the queues. */
  lemma {:induction false} QueuesDoNotMatter(ends: Ends, s: Link, frame: seq<byte>, now: u64, pings: seq<seq<byte>>,
                                             pongs: seq<seq<byte>>)
    ensures HostTakes(ends, s.(pings := pings, pongs := pongs), frame, now) ==
      HostTakes(ends, s, frame, now).(pings := pings, pongs := pongs)
    ensures ClienteTakes(ends, s.(pings := pings, pongs := pongs), frame, now) ==
      ClienteTakes(ends, s, frame, now).(pings := pings, pongs := pongs)
    ensures HostTakes(ends, s, frame, now).pings == s.pings && HostTakes(ends, s, frame, now).pongs == s.pongs
    ensures ClienteTakes(ends, s, frame, now).pings == s.pings && ClienteTakes(ends, s, frame, now).pongs == s.pongs
  {}

  lemma {:induction false} ReceivePingRefines(ends: Ends, w: Wire, now: u64)
    requires WireInv(w)
    ensures Refines(ends, w, Beat(ReceivePing(now)))
  {
    if w.loops.hostPoint == Listening && w.toHost.taken < |Inbox(w.toHost)| {
      TakeTakesHead(w.toHost);
      QueuesDoNotMatter(ends, w.loops, Queue(w.toHost)[0], now, Queue(w.toHost)[1..], Queue(w.toCliente));
    }
  }

  lemma {:induction false} ReceivePongRefines(ends: Ends, w: Wire, now: u64)
    requires WireInv(w)
    ensures Refines(ends, w, Beat(ReceivePong(now)))
  {
    if w.loops.clientePoint == Awaiting && w.toCliente.taken < |Inbox(w.toCliente)| {
      TakeTakesHead(w.toCliente);
      QueuesDoNotMatter(ends, w.loops, Queue(w.toCliente)[0], now, Queue(w.toHost), Queue(w.toCliente)[1..]);
    }
  }

  lemma WireStepRefines(ends: Ends, w: Wire, e: WireEvent)
    requires WireInv(w)
    ensures Refines(ends, w, e)
  {
    if !e.Beat? {
      LanesRefine(ends, w, e);
    } else {
      match e.event {
        case SendPing(now, address) => SendPingRefines(ends, w, now, address);
        case SendPong(now, address) => SendPongRefines(ends, w, now, address);
        case ReceivePing(now) => ReceivePingRefines(ends, w, now);
        case ReceivePong(now) => ReceivePongRefines(ends, w, now);
        case _ =>
      }
    }
  }

  // ----- whole connections -----

  const EMPTY_LANE := Lane(Multiplexer.IDLE, 0, 0)

  function Stepping(ends: Ends): (Wire, WireEvent) -> Wire {
    (w, e) => WireStep(ends, w, e)
  }

  function WireAt(ends: Ends, before: Status, events: seq<WireEvent>, n: nat): Wire
    requires n <= |events|
  {
    StateAt(Stepping(ends), Wire(Connected(before), EMPTY_LANE, EMPTY_LANE), events, n)
  }

  ghost predicate Sound(ends: Ends, before: Status, w: Wire) {
    WireInv(w) && Heartbeats.Inv(ends, before, View(w))
  }

  lemma OpeningIsSound(ends: Ends, before: Status)
    ensures Sound(ends, before, Wire(Connected(before), EMPTY_LANE, EMPTY_LANE))
  {
    assert View(Wire(Connected(before), EMPTY_LANE, EMPTY_LANE)) == Connected(before);
  }

  lemma WireStepKeepsSound(ends: Ends, before: Status, w: Wire, e: WireEvent)
    requires PipeFree(ends) && Sound(ends, before, w)
    ensures Sound(ends, before, WireStep(ends, w, e))
  {
    WireStepRefines(ends, w, e);
    if Seen(ends, w, e).Some? {
      Heartbeats.StepKeepsInv(ends, before, View(w), Seen(ends, w, e).value);
    }
  }

  lemma Reachable(ends: Ends, before: Status, events: seq<WireEvent>, n: nat)
    requires PipeFree(ends) && n <= |events|
    ensures Sound(ends, before, WireAt(ends, before, events, n))
  {
    OpeningIsSound(ends, before);
    forall w: Wire, i | 0 <= i < n && Sound(ends, before, w) ensures Sound(ends, before, Stepping(ends)(w, events[i])) {
      WireStepKeepsSound(ends, before, w, events[i]);
    }
    KeptBetween(Stepping(ends), Wire(Connected(before), EMPTY_LANE, EMPTY_LANE), events, 0, n,
                (w: Wire) => Sound(ends, before, w));
  }

  /** How many heartbeats are on their way, sent and not taken, or taken and not answered. */
  function Outstanding(w: Wire): nat
    requires w.toHost.taken <= |Sent(w.toHost)| && w.toCliente.taken <= |Sent(w.toCliente)|
  {
    |Queue(w.toHost)| + (if w.loops.hostPoint.Replying? then 1 else 0) + |Queue(w.toCliente)|
  }

  /**
   * Over the bytes of a connection, whatever packets are sent beside the heartbeats, however the writers
   * interleave and whatever part has arrived: at most one ping is unanswered, no pong is refused for its
   * sequence, each address shown is one the other side sent, and the counters count exchanges.
   */
  lemma LockstepOverTheWire(ends: Ends, before: Status, events: seq<WireEvent>, n: nat)
    requires PipeFree(ends) && n <= |events|
    ensures var w := WireAt(ends, before, events, n);
      && w.toHost.taken <= |Sent(w.toHost)| && w.toCliente.taken <= |Sent(w.toCliente)|
      && Outstanding(w) <= 1 && (w.loops.clientePoint == Ready ==> Outstanding(w) == 0)
      && !w.loops.rejected
      && (w.loops.cliente.remote == before.remote || Shown(w.loops.cliente.remote, w.loops.pongAddresses))
      && Shown(w.loops.host.remote, w.loops.pingAddresses)
      && w.loops.cliente.messages == Counted(before.messages, w.loops.completed)
      && w.loops.host.messages == Counted(0, w.loops.recorded)
      && w.loops.completed <= w.loops.answered <= w.loops.completed + 1
  {
    Reachable(ends, before, events, n);
  }
}
