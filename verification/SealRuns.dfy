/**
 * Envelopes of many processes that share one counter file. Each process starts with keys that have
 * sealed nothing, so only the file keeps their nonces apart.
 */
module SealRuns {
  import opened Wrappers
  import opened Numbers
  import opened Messages
  import opened Envelopes
  import opened TransportKeys
  import opened Nonces
  import opened Handshake

  datatype World = World(counter: System, sealed: seq<Envelope>)

  /**
   * `Accepting` and `Dialling` are the return of a call of `allocate`, used at once for an envelope; the
   * Host state is whatever that process has. A return under `Counting` is one whose envelope was never
   * sealed.
   */
  datatype Event =
    | Counting(action: Action)
    | Accepting(process: nat, host: HostState, attempt: Attempt)
    | Dialling(process: nat, key: Key, clientId: string, timestamp: u64, nonce: Nonce)

  /** The nonce that this process gets by returning from its call, if it is at that point. */
  function Allocated(s: System, process: nat): Option<Nonce> {
    match s.holder
    case Some((holder, Renamed(value))) => if holder == process then Some(value) else None
    case _ => None
  }

  function SealedWith(e: Event, value: Nonce): Option<Envelope> {
    match e
    case Counting(_) => None
    case Accepting(_, host, attempt) => Serve(host, attempt.(supplied := Ok(value))).response
    case Dialling(_, key, clientId, timestamp, nonce) =>
      match Dial(key, clientId, timestamp, nonce, Ok(value))
      case Ok(envelope) => Some(envelope)
      case Err(_) => None
  }

  function Step(w: World, e: Event): World {
    match e
    case Counting(action) => w.(counter := Nonces.Step(w.counter, action))
    case _ =>
      var after := w.(counter := Nonces.Step(w.counter, Return(e.process)));
      match Allocated(w.counter, e.process)
      case None => after
      case Some(value) =>
        match SealedWith(e, value)
        case None => after
        case Some(envelope) => after.(sealed := w.sealed + [envelope])
  }

  function WorldAt(file: Option<string>, events: seq<Event>, n: nat): World
    requires n <= |events|
  {
    if n == 0 then World(System(file, None, []), []) else Step(WorldAt(file, events, n - 1), events[n - 1])
  }

  ghost predicate Inv(w: World) {
    && Nonces.Inv(w.counter)
    && (forall i :: 0 <= i < |w.sealed| ==> w.sealed[i].nonce in w.counter.returned)
    && (forall i, j :: 0 <= i < j < |w.sealed| ==> BigEndian(w.sealed[i].nonce) < BigEndian(w.sealed[j].nonce))
  }

  /** Whatever is sealed carries the allocated nonce. */
  lemma SealedCarriesNonce(e: Event, value: Nonce)
    requires SealedWith(e, value).Some?
    ensures SealedWith(e, value).value.nonce == value
  {}

  lemma ReturnedGrows(s: System, a: Action)
    ensures forall nonce :: nonce in s.returned ==> nonce in Nonces.Step(s, a).returned
  {}

  lemma ReturnIsAppended(s: System, process: nat)
    requires Allocated(s, process).Some?
    ensures Nonces.Step(s, Return(process)).returned == s.returned + [Allocated(s, process).value]
  {}

  lemma AllocatedIsAbove(s: System, process: nat)
    requires Nonces.Inv(s) && Allocated(s, process).Some?
    ensures forall nonce :: nonce in s.returned ==> BigEndian(nonce) < BigEndian(Allocated(s, process).value)
  {
    var value := Allocated(s, process).value;
    assert AboveReturned(value, s.returned);
    forall nonce | nonce in s.returned ensures BigEndian(nonce) < BigEndian(value) {
      var i :| 0 <= i < |s.returned| && s.returned[i] == nonce;
    }
  }

  lemma CountingKeepsInv(w: World, a: Action)
    requires Inv(w)
    ensures Inv(w.(counter := Nonces.Step(w.counter, a)))
  {
    Nonces.StepKeepsInv(w.counter, a);
    ReturnedGrows(w.counter, a);
  }

  lemma SealingKeepsInv(w: World, process: nat, envelope: Envelope)
    requires Inv(w) && Allocated(w.counter, process) == Some(envelope.nonce)
    ensures Inv(World(Nonces.Step(w.counter, Return(process)), w.sealed + [envelope]))
  {
    Nonces.StepKeepsInv(w.counter, Return(process));
    ReturnedGrows(w.counter, Return(process));
    ReturnIsAppended(w.counter, process);
    AllocatedIsAbove(w.counter, process);
  }

  lemma StepKeepsInv(w: World, e: Event)
    requires Inv(w)
    ensures Inv(Step(w, e))
  {
    if e.Counting? {
      CountingKeepsInv(w, e.action);
    } else if Allocated(w.counter, e.process).Some? && SealedWith(e, Allocated(w.counter, e.process).value).Some? {
      var value := Allocated(w.counter, e.process).value;
      SealedCarriesNonce(e, value);
      SealingKeepsInv(w, e.process, SealedWith(e, value).value);
    } else {
      CountingKeepsInv(w, Return(e.process));
    }
  }

  lemma {:induction false} Reachable(file: Option<string>, events: seq<Event>, n: nat)
    requires n <= |events|
    ensures Inv(WorldAt(file, events, n))
  {
    if n == 0 {
      Nonces.Reachable(file, [], 0);
    } else {
      Reachable(file, events, n - 1);
      StepKeepsInv(WorldAt(file, events, n - 1), events[n - 1]);
    }
  }

  /**
   * Over any interleaving of processes on one counter file, with crashes anywhere and each process with
   * fresh keys and its own Host state, no two envelopes have the same nonce, under whatever keys.
   */
  lemma EnvelopesNeverShareNonce(file: Option<string>, events: seq<Event>, n: nat, i: nat, j: nat)
    requires n <= |events| && i < j < |WorldAt(file, events, n).sealed|
    ensures WorldAt(file, events, n).sealed[i].nonce != WorldAt(file, events, n).sealed[j].nonce
  {
    Reachable(file, events, n);
  }
}
