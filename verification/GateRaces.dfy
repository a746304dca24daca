/**
 * The transport gate under handlers that run at the same time. An approval loads the restart flag in
 * one step and stores the gate in another; a change closes the gate in one step and raises the flag in
 * another. Each step is atomic, the handlers are not.
 */
module GateRaces {
  import opened Wrappers
  import opened Runs

  /** The shared flags, and for every approval under way the value it is going to store. */
  datatype Shared = Shared(gate: bool, restart: bool, pending: map<nat, bool>)

  /** `approved` is false for a revocation; a reset closes the gate without raising the flag. */
  datatype Event =
    | Load(call: nat, approved: bool)
    | Store(call: nat)
    | Close
    | Raise

  function Step(s: Shared, e: Event): Shared {
    match e
    case Load(call, approved) => s.(pending := s.pending[call := approved && !s.restart])
    case Store(call) =>
      if call in s.pending then s.(gate := s.pending[call], pending := s.pending - {call}) else s
    case Close => s.(gate := false)
    case Raise => s.(restart := true)
  }

  function At(gate: bool, events: seq<Event>, n: nat): Shared
    requires n <= |events|
  {
    StateAt(Step, Shared(gate, false, map[]), events, n)
  }

  lemma NextAt(gate: bool, events: seq<Event>, n: nat)
    requires n < |events|
    ensures At(gate, events, n + 1) == Step(At(gate, events, n), events[n])
  {}

  // ----- what the flags say about the events so far -----

  ghost predicate RaisedBefore(events: seq<Event>, n: nat)
    requires n <= |events|
  {
    exists r :: 0 <= r < n && events[r].Raise?
  }

  predicate Touches(e: Event, call: nat) {
    (e.Load? || e.Store?) && e.call == call
  }

  /** This call loaded the flag at `l` and has done nothing since. */
  ghost predicate LoadedAt(events: seq<Event>, l: nat, n: nat, call: nat)
    requires n <= |events|
  {
    l < n && events[l].Load? && events[l].call == call && forall k :: l < k < n ==> !Touches(events[k], call)
  }

  /** And found no restart required. */
  ghost predicate LoadedClearAt(events: seq<Event>, l: nat, n: nat, call: nat)
    requires n <= |events|
  {
    LoadedAt(events, l, n, call) && events[l].approved && !RaisedBefore(events, l)
  }

  predicate WritesGate(e: Event) {
    e.Close? || e.Store?
  }

  /** Every store belongs to a load of the same call. */
  ghost predicate Orderly(events: seq<Event>) {
    forall w {:trigger events[w]} :: 0 <= w < |events| && events[w].Store? ==>
      exists l :: LoadedAt(events, l, w, events[w].call)
  }

  /** The write at `w` opens the gate: an approval that had found no restart required. */
  ghost predicate OpensAt(events: seq<Event>, w: nat)
    requires w < |events|
  {
    events[w].Store? && exists l :: LoadedClearAt(events, l, w, events[w].call)
  }

  ghost predicate LastWrite(events: seq<Event>, w: nat, n: nat)
    requires n <= |events|
  {
    w < n && WritesGate(events[w]) && forall k :: w < k < n ==> !WritesGate(events[k])
  }

  ghost predicate NoWrite(events: seq<Event>, n: nat)
    requires n <= |events|
  {
    forall k :: 0 <= k < n ==> !WritesGate(events[k])
  }

  ghost predicate RestartSays(gate: bool, events: seq<Event>, n: nat)
    requires n <= |events|
  {
    At(gate, events, n).restart <==> RaisedBefore(events, n)
  }

  lemma {:induction false} RestartMeans(gate: bool, events: seq<Event>, n: nat)
    requires n <= |events|
    ensures RestartSays(gate, events, n)
  {
    if n > 0 {
      RestartMeans(gate, events, n - 1);
      NextAt(gate, events, n - 1);
      assert RaisedBefore(events, n) <==> RaisedBefore(events, n - 1) || events[n - 1].Raise?;
    }
  }

  ghost predicate PendingSays(s: Shared, events: seq<Event>, n: nat, call: nat)
    requires n <= |events|
  {
    && (call in s.pending <==> exists l :: LoadedAt(events, l, n, call))
    && (call in s.pending && s.pending[call] <==> exists l :: LoadedClearAt(events, l, n, call))
  }

  /** A call that an event does not touch is where it was. */
  lemma UntouchedStays(events: seq<Event>, n: nat, after: nat, call: nat)
    requires after == n + 1 <= |events| && !Touches(events[n], call)
    ensures forall l :: LoadedAt(events, l, after, call) <==> LoadedAt(events, l, n, call)
    ensures forall l :: LoadedClearAt(events, l, after, call) <==> LoadedClearAt(events, l, n, call)
  {}

  lemma LoadIsLast(events: seq<Event>, n: nat, after: nat)
    requires after == n + 1 <= |events| && events[n].Load?
    ensures forall l :: LoadedAt(events, l, after, events[n].call) <==> l == n
    ensures forall l :: LoadedClearAt(events, l, after, events[n].call) <==>
      l == n && events[n].approved && !RaisedBefore(events, n)
  {}

  lemma StoreEndsCall(events: seq<Event>, n: nat, after: nat)
    requires after == n + 1 <= |events| && events[n].Store?
    ensures forall l :: !LoadedAt(events, l, after, events[n].call)
  {}

  lemma PendingStep(gate: bool, events: seq<Event>, n: nat, call: nat)
    requires n < |events| && PendingSays(At(gate, events, n), events, n, call)
    ensures PendingSays(At(gate, events, n + 1), events, n + 1, call)
  {
    NextAt(gate, events, n);
    RestartMeans(gate, events, n);
    if !Touches(events[n], call) {
      UntouchedStays(events, n, n + 1, call);
    } else if events[n].Load? {
      LoadIsLast(events, n, n + 1);
      assert LoadedAt(events, n, n + 1, call);
      assert LoadedClearAt(events, n, n + 1, call) <==> events[n].approved && !RaisedBefore(events, n);
    } else {
      StoreEndsCall(events, n, n + 1);
    }
  }

  lemma {:induction false} PendingMeans(gate: bool, events: seq<Event>, n: nat, call: nat)
    requires n <= |events|
    ensures PendingSays(At(gate, events, n), events, n, call)
  {
    if n > 0 {
      PendingMeans(gate, events, n - 1, call);
      PendingStep(gate, events, n - 1, call);
    }
  }

  // ----- the gate -----

  ghost predicate Opened(gate: bool, events: seq<Event>, n: nat)
    requires n <= |events|
  {
    (gate && NoWrite(events, n)) || exists w :: LastWrite(events, w, n) && OpensAt(events, w)
  }

  lemma LastWriteStep(events: seq<Event>, n: nat, after: nat)
    requires after == n + 1 <= |events|
    ensures WritesGate(events[n]) ==> forall w :: LastWrite(events, w, after) <==> w == n
    ensures !WritesGate(events[n]) ==> forall w :: LastWrite(events, w, after) <==> LastWrite(events, w, n)
    ensures NoWrite(events, after) <==> NoWrite(events, n) && !WritesGate(events[n])
  {}

  lemma {:induction false} GateMeans(gate: bool, events: seq<Event>, n: nat)
    requires Orderly(events) && n <= |events|
    ensures At(gate, events, n).gate <==> Opened(gate, events, n)
  {
    if n > 0 {
      GateMeans(gate, events, n - 1);
      NextAt(gate, events, n - 1);
      LastWriteStep(events, n - 1, n);
      if events[n - 1].Store? {
        PendingMeans(gate, events, n - 1, events[n - 1].call);
        assert LastWrite(events, n - 1, n);
      }
    }
  }

  /** Every change closes the gate before it raises the flag. */
  ghost predicate ClosesFirst(events: seq<Event>) {
    forall r {:trigger events[r]} :: 0 <= r < |events| && events[r].Raise? ==>
      exists q :: 0 <= q < r && events[q].Close?
  }

  /**
   * However handlers interleave, the gate is open while a restart is required exactly when a change has
   * raised the flag and the last write to the gate is an approval's that had loaded the flag before any
   * change raised it.
   */
  lemma LeftOpenIff(gate: bool, events: seq<Event>, n: nat)
    requires Orderly(events) && ClosesFirst(events) && n <= |events|
    ensures At(gate, events, n).gate && At(gate, events, n).restart <==>
      RaisedBefore(events, n) && exists w :: LastWrite(events, w, n) && OpensAt(events, w)
  {
    GateMeans(gate, events, n);
    RestartMeans(gate, events, n);
    if r :| 0 <= r < n && events[r].Raise? {
      var q :| 0 <= q < r && events[q].Close?;
      assert WritesGate(events[q]);
    }
  }

  /**
   * So only an approval that overlaps a change leaves it open: it loads before the change raises, and stores
   * after it closes.
   */
  lemma OnlyOverlapsLeaveOpen(gate: bool, events: seq<Event>, n: nat) returns (l: nat, w: nat, q: nat, r: nat)
    requires Orderly(events) && ClosesFirst(events) && n <= |events|
    requires At(gate, events, n).gate && At(gate, events, n).restart
    ensures l < r < n && q < w < n && l < w && q < r
    ensures events[l].Load? && events[l].approved && events[w] == Store(events[l].call)
    ensures events[q].Close? && events[r].Raise?
  {
    LeftOpenIff(gate, events, n);
    r :| 0 <= r < n && events[r].Raise?;
    q :| 0 <= q < r && events[q].Close?;
    w :| LastWrite(events, w, n) && OpensAt(events, w);
    l :| LoadedClearAt(events, l, w, events[w].call);
    assert WritesGate(events[q]);
    assert !RaisedBefore(events, l);
  }

  /**
   * One approval and one change: of all their interleavings, exactly those leave the gate open in which they
   * overlap so.
   */
  lemma OneApprovalAndOneChange(gate: bool, events: seq<Event>, call: nat, l: nat, w: nat, q: nat, r: nat)
    requires |events| == 4 && l < w < 4 && q < r < 4 && l != q && l != r && w != q && w != r
    requires events[l] == Load(call, true) && events[w] == Store(call) && events[q] == Close && events[r] == Raise
    ensures At(gate, events, 4).restart
    ensures At(gate, events, 4).gate <==> l < r && q < w
  {
    assert LoadedAt(events, l, w, call);
    assert Orderly(events);
    LeftOpenIff(gate, events, 4);
    RestartMeans(gate, events, 4);
    assert RaisedBefore(events, 4);
    assert RaisedBefore(events, l) <==> r < l;
    if l < r && q < w {
      assert LoadedClearAt(events, l, w, call);
      assert LastWrite(events, w, 4) && OpensAt(events, w);
    }
  }
}
