/**
 * Two kinds of traffic on one stream: every frame starts with a kind byte, writers take turns
 * under a mutex, and one reader hands each payload to the inbox of its kind.
 */
module Multiplexer {
  import opened Wrappers
  import opened Utf8
  import opened Sequences
  import opened Frames

  const HEARTBEAT: byte := 1
  const PACKET: byte := 2

  /** The payloads of the frames of one kind, in order; empty frames and other kinds drop out. */
  function Channel(frames: seq<seq<byte>>, kind: byte): seq<seq<byte>> {
    if frames == [] then []
    else (if frames[0] != [] && frames[0][0] == kind then [frames[0][1..]] else []) + Channel(frames[1..], kind)
  }

  lemma {:induction false} ChannelConcat(a: seq<seq<byte>>, b: seq<seq<byte>>, kind: byte)
    ensures Channel(a + b, kind) == Channel(a, kind) + Channel(b, kind)
  {
    if a == [] {
      assert a + b == b;
    } else {
      assert (a + b)[1..] == a[1..] + b;
      ChannelConcat(a[1..], b, kind);
    }
  }

  /** A frame that is empty or of another kind changes nothing, wherever it stands. */
  lemma OtherFramesChangeNothing(before: seq<seq<byte>>, frame: seq<byte>, after: seq<seq<byte>>, kind: byte)
    requires frame == [] || frame[0] != kind
    ensures Channel(before + [frame] + after, kind) == Channel(before + after, kind)
  {
    ChannelConcat(before + [frame], after, kind);
    ChannelConcat(before, [frame], kind);
    ChannelConcat(before, after, kind);
  }

  /** A frame that begins with byte one is a heartbeat, with byte two a packet, and comes out where it went in. */
  lemma FrameGoesToItsChannel(before: seq<seq<byte>>, payload: seq<byte>, after: seq<seq<byte>>)
    ensures Channel(before + [[1] + payload] + after, HEARTBEAT) ==
      Channel(before, HEARTBEAT) + [payload] + Channel(after, HEARTBEAT)
    ensures Channel(before + [[2] + payload] + after, PACKET) ==
      Channel(before, PACKET) + [payload] + Channel(after, PACKET)
  {
    ChannelConcat(before + [[1] + payload], after, HEARTBEAT);
    ChannelConcat(before, [[1] + payload], HEARTBEAT);
    ChannelConcat(before + [[2] + payload], after, PACKET);
    ChannelConcat(before, [[2] + payload], PACKET);
    assert ([1] + payload)[1..] == payload && ([2] + payload)[1..] == payload;
  }

  /** What has been delivered so far and what is still to come make up the whole channel. */
  ghost predicate Delivered(received: seq<byte>, unread: seq<byte>, inbox: seq<seq<byte>>, kind: byte) {
    Channel(WholeFrames(received), kind) == inbox + Channel(WholeFrames(unread), kind)
  }

  function Received(inbox: seq<seq<byte>>, frame: seq<byte>, kind: byte): seq<seq<byte>> {
    if frame != [] && frame[0] == kind then inbox + [frame[1..]] else inbox
  }

  lemma DeliverNext(received: seq<byte>, unread: seq<byte>, frame: seq<byte>, inbox: seq<seq<byte>>, kind: byte)
    requires Delivered(received, unread, inbox, kind) && TakeFrame(unread) == Taken(frame)
    ensures Delivered(received, unread[4 + |frame|..], Received(inbox, frame, kind), kind)
  {}

  lemma DeliveredAll(received: seq<byte>, unread: seq<byte>, inbox: seq<seq<byte>>, kind: byte)
    requires Delivered(received, unread, inbox, kind) && !TakeFrame(unread).Taken?
    ensures inbox == Channel(WholeFrames(received), kind)
  {}

  /** The reader thread, run on all the bytes that arrived before the stream ended or broke. */
  method Demultiplex(received: seq<byte>) returns (heartbeats: seq<seq<byte>>, packets: seq<seq<byte>>)
    ensures heartbeats == Channel(WholeFrames(received), HEARTBEAT)
    ensures packets == Channel(WholeFrames(received), PACKET)
  {
    heartbeats, packets := [], [];
    var reader := new FrameReader(received);
    assert reader.Unread() == received;
    while true
      invariant reader.Valid() && reader.received == received
      invariant Delivered(received, reader.Unread(), heartbeats, HEARTBEAT)
      invariant Delivered(received, reader.Unread(), packets, PACKET)
      decreases |received| - reader.position
    {
      ghost var unread := reader.Unread();
      var framed := reader.ReadFrame();
      if framed.Err? {
        DeliveredAll(received, unread, heartbeats, HEARTBEAT);
        DeliveredAll(received, unread, packets, PACKET);
        return;
      }
      DeliverNext(received, unread, framed.value, heartbeats, HEARTBEAT);
      DeliverNext(received, unread, framed.value, packets, PACKET);
      if framed.value == [] {
        continue;
      }
      var kind, payload := framed.value[0], framed.value[1..];
      if kind == HEARTBEAT {
        heartbeats := heartbeats + [payload];
      } else if kind == PACKET {
        packets := packets + [payload];
      }
    }
  }

  // ----- the writers -----

  /** `current` is what the owner of the mutex is sending, `written` how much of its frame is out. */
  datatype State = State(owner: Option<nat>, current: seq<byte>, written: nat, wire: seq<byte>, sent: seq<seq<byte>>)

  /** `Write` puts any number of bytes on the wire; `Unlock` ends the call and drops the guard. */
  datatype Action =
    | Lock(sender: nat, framed: seq<byte>)
    | Write(sender: nat, count: nat)
    | Unlock(sender: nat)

  const IDLE := State(None, [], 0, [], [])

  /** A call with an oversized payload takes the mutex, fails to encode and writes nothing. */
  function Outgoing(framed: seq<byte>): seq<byte> {
    match EncodeFrame(framed)
    case Ok(frame) => frame
    case Err(_) => []
  }

  predicate Enabled(s: State, a: Action) {
    match a
    case Lock(_, _) => s.owner == None
    case Write(sender, count) => s.owner == Some(sender) && s.written + count <= |Outgoing(s.current)|
    case Unlock(sender) => s.owner == Some(sender) && s.written == |Outgoing(s.current)|
  }

  function Step(s: State, a: Action): State
    requires Enabled(s, a)
  {
    match a
    case Lock(sender, framed) => s.(owner := Some(sender), current := framed, written := 0)
    case Write(_, count) =>
      s.(written := s.written + count, wire := s.wire + Outgoing(s.current)[s.written..s.written + count])
    case Unlock(_) =>
      s.(owner := None, sent := if Fits(s.current) then s.sent + [s.current] else s.sent)
  }

  /** The state after the first `n` attempts; an attempt that must wait changes nothing. */
  function StateAt(actions: seq<Action>, n: nat): State
    requires n <= |actions|
  {
    if n == 0 then IDLE
    else
      var s := StateAt(actions, n - 1);
      if Enabled(s, actions[n - 1]) then Step(s, actions[n - 1]) else s
  }

  /** What was sent: the sendable payloads of the calls that got the mutex, in that order. */
  function Begun(actions: seq<Action>, n: nat): seq<seq<byte>>
    requires n <= |actions|
  {
    if n == 0 then []
    else
      var a := actions[n - 1];
      Begun(actions, n - 1) +
      (if a.Lock? && Enabled(StateAt(actions, n - 1), a) && Fits(a.framed) then [a.framed] else [])
  }

  function Pending(s: State): seq<seq<byte>> {
    if s.owner.Some? && Fits(s.current) then [s.current] else []
  }

  ghost predicate Inv(s: State) {
    && (forall p :: p in s.sent ==> Fits(p))
    && (s.owner.Some? ==> s.written <= |Outgoing(s.current)|)
    && s.wire == Stream(s.sent) + (if s.owner.Some? then Outgoing(s.current)[..s.written] else [])
  }

  lemma StepKeepsInv(s: State, a: Action)
    requires Inv(s) && Enabled(s, a)
    ensures Inv(Step(s, a))
  {
    match a {
      case Lock(_, framed) =>
        assert Outgoing(framed)[..0] == [];
      case Write(_, count) =>
        var out := Outgoing(s.current);
        assert out[..s.written] + out[s.written..s.written + count] == out[..s.written + count];
      case Unlock(_) =>
        var out := Outgoing(s.current);
        assert out[..|out|] == out;
        FrameRoundTrip(s.current);
        if Fits(s.current) {
          StreamAppend(s.sent, s.current);
        }
    }
  }

  /** At every moment the wire holds whole frames, then a prefix of the frame of the mutex's owner. */
  lemma {:induction false} WireShape(actions: seq<Action>, n: nat)
    requires n <= |actions|
    ensures Inv(StateAt(actions, n))
    ensures Begun(actions, n) == StateAt(actions, n).sent + Pending(StateAt(actions, n))
  {
    if n > 0 {
      WireShape(actions, n - 1);
      var s := StateAt(actions, n - 1);
      if Enabled(s, actions[n - 1]) {
        StepKeepsInv(s, actions[n - 1]);
      }
    }
  }

  lemma WireIsStreamPrefix(s: State)
    requires Inv(s)
    ensures forall p :: p in s.sent + Pending(s) ==> Fits(p)
    ensures IsPrefix(s.wire, Stream(s.sent + Pending(s)))
  {
    if Pending(s) == [] {
      assert s.sent + [] == s.sent;
      if s.owner.Some? {
        FrameRoundTrip(s.current);
      }
    } else {
      StreamAppend(s.sent, s.current);
    }
  }

  /**
   * However the writers interleave and however much of the wire has arrived, each inbox is an
   * in-order prefix of what was sent on its channel, and the reader waits for more, refusing nothing.
   */
  lemma InboxIsPrefixOfSent(actions: seq<Action>, n: nat, arrived: nat, kind: byte)
    requires n <= |actions| && arrived <= |StateAt(actions, n).wire|
    ensures IsPrefix(Channel(WholeFrames(StateAt(actions, n).wire[..arrived]), kind), Channel(Begun(actions, n), kind))
    ensures TakeFrame(Leftover(StateAt(actions, n).wire[..arrived])) == Starved
  {
    WireShape(actions, n);
    ArrivedIsPrefixOfSent(StateAt(actions, n), arrived, kind);
  }

  /** The same of a single state, for what was sent and what is being sent. */
  lemma ArrivedIsPrefixOfSent(s: State, arrived: nat, kind: byte)
    requires Inv(s) && arrived <= |s.wire|
    ensures IsPrefix(Channel(WholeFrames(s.wire[..arrived]), kind), Channel(s.sent + Pending(s), kind))
    ensures TakeFrame(Leftover(s.wire[..arrived])) == Starved
  {
    var all := s.sent + Pending(s);
    WireIsStreamPrefix(s);
    assert s.wire[..arrived] == Stream(all)[..arrived];
    var count := WholeFramesOfPrefix(all, arrived);
    assert all == all[..count] + all[count..];
    ChannelConcat(all[..count], all[count..], kind);
  }

  lemma WireOnlyGrows(s: State, a: Action)
    requires Enabled(s, a)
    ensures |s.wire| <= |Step(s, a).wire|
  {}

  /** Once no call is under way and everything has arrived, nothing sent is missing. */
  lemma NothingIsLost(actions: seq<Action>, n: nat, kind: byte)
    requires n <= |actions| && StateAt(actions, n).owner == None
    ensures Channel(WholeFrames(StateAt(actions, n).wire), kind) == Channel(Begun(actions, n), kind)
  {
    var s := StateAt(actions, n);
    WireShape(actions, n);
    assert s.wire == Stream(s.sent) && Begun(actions, n) == s.sent;
    WholeFramesOfStream(s.sent);
  }
}
