/** Replay protection: a pruned map of recent handshake nonces and a map of sessions that only grows. */
module Replay {
  import opened Wrappers
  import opened Utf8
  import opened Numbers
  import opened Messages

  type Seen = map<string, u64>
  type Sessions = map<seq<byte>, (string, Role)>

  // ----- one call -----

  function Prune(seen: Seen, now: u64): Seen {
    map nonce | nonce in seen && SaturatingSub(now, seen[nonce]) <= REPLAY_WINDOW_SECS :: seen[nonce]
  }

  function MessageOutcome(seen: Seen, m: Message, now: u64, role: Role): (Result<Unit, ValidationError>, Seen) {
    match ValidateMessage(m, now, role)
    case Err(e) => (Err(e), seen)
    case Ok(_) =>
      var recent := Prune(seen, now);
      if !HasNonce(m) then (Ok(Done), recent)
      else if m.nonce in recent then (Err(ReplayDetected), recent)
      else (Ok(Done), recent[m.nonce := now])
  }

  function SessionOutcome(sessions: Sessions, nonce: seq<byte>, peer: string, role: Role):
    (Result<Unit, ValidationError>, Sessions)
  {
    if !ValidNodeId(peer) then (Err(ValidationError.InvalidNodeId), sessions)
    else if nonce in sessions then
      (Err(if sessions[nonce] != (peer, role) then WrongRole else ReplayDetected), sessions)
    else (Ok(Done), sessions[nonce := (peer, role)])
  }

  class ReplayGuard {
    var seen: Seen
    var sessions: Sessions

    constructor ()
      ensures seen == map[] && sessions == map[]
    {
      seen, sessions := map[], map[];
    }

    method Accept(m: Message, now: u64, role: Role) returns (r: Result<Unit, ValidationError>)
      modifies this`seen
      ensures (r, seen) == MessageOutcome(old(seen), m, now, role)
    {
      var valid := ValidateMessage(m, now, role);
      if valid.Err? {
        return valid;
      }
      seen := map nonce | nonce in seen && SaturatingSub(now, seen[nonce]) <= REPLAY_WINDOW_SECS :: seen[nonce];
      if HasNonce(m) {
        if m.nonce in seen {
          return Err(ReplayDetected);
        }
        seen := seen[m.nonce := now];
      }
      return Ok(Done);
    }

    method AcceptSession(nonce: seq<byte>, peer: string, role: Role) returns (r: Result<Unit, ValidationError>)
      modifies this`sessions
      ensures (r, sessions) == SessionOutcome(old(sessions), nonce, peer, role)
    {
      if !ValidNodeId(peer) {
        return Err(ValidationError.InvalidNodeId);
      }
      if nonce in sessions {
        var (existingPeer, existingRole) := sessions[nonce];
        if existingPeer != peer || existingRole != role {
          return Err(WrongRole);
        }
        return Err(ReplayDetected);
      }
      sessions := sessions[nonce := (peer, role)];
      return Ok(Done);
    }
  }

  // ----- runs of one guard -----

  datatype Call = Call(message: Message, now: u64, role: Role)

  predicate Validates(c: Call) {
    ValidateMessage(c.message, c.now, c.role).Ok?
  }

  function SeenAt(calls: seq<Call>, n: nat): Seen
    requires n <= |calls|
  {
    if n == 0 then map[]
    else MessageOutcome(SeenAt(calls, n - 1), calls[n - 1].message, calls[n - 1].now, calls[n - 1].role).1
  }

  predicate Accepted(calls: seq<Call>, i: nat)
    requires i < |calls|
  {
    MessageOutcome(SeenAt(calls, i), calls[i].message, calls[i].now, calls[i].role).0.Ok?
  }

  /** Call `j` was accepted and used this nonce. */
  predicate AcceptedWith(calls: seq<Call>, j: nat, nonce: string)
    requires j < |calls|
  {
    HasNonce(calls[j].message) && calls[j].message.nonce == nonce && Accepted(calls, j)
  }

  /** Some valid call among those after `j` and before `n` came more than the window later. */
  ghost predicate Expired(calls: seq<Call>, j: nat, n: nat)
    requires j < n <= |calls|
  {
    exists k :: j < k < n && Validates(calls[k]) && calls[k].now > calls[j].now + REPLAY_WINDOW_SECS
  }

  ghost predicate NonDecreasing(calls: seq<Call>) {
    forall i, j :: 0 <= i <= j < |calls| ==> calls[i].now <= calls[j].now
  }

  ghost predicate Remembered(calls: seq<Call>, n: nat, nonce: string, time: u64)
    requires n <= |calls|
  {
    exists j :: 0 <= j < n && AcceptedWith(calls, j, nonce) && !Expired(calls, j, n) && calls[j].now == time
  }

  /** Whatever the clock did, the map holds exactly the accepted nonces that no later call has expired. */
  lemma {:induction false} SeenMeans(calls: seq<Call>, n: nat)
    requires n <= |calls|
    ensures forall nonce, time: u64 :: Remembered(calls, n, nonce, time) <==>
      nonce in SeenAt(calls, n) && SeenAt(calls, n)[nonce] == time
  {
    if n > 0 {
      SeenMeans(calls, n - 1);
      forall nonce, time: u64
        ensures Remembered(calls, n, nonce, time) <==> nonce in SeenAt(calls, n) && SeenAt(calls, n)[nonce] == time
      {
        SeenStep(calls, n - 1, nonce, time);
      }
    }
  }

  lemma ExpiredStep(calls: seq<Call>, j: nat, n: nat)
    requires j < n < |calls|
    ensures Expired(calls, j, n + 1) <==>
      Expired(calls, j, n) || (Validates(calls[n]) && calls[n].now > calls[j].now + REPLAY_WINDOW_SECS)
  {}

  /** One more call keeps what it does not expire and adds its own nonce when it accepts. */
  lemma RememberedStep(calls: seq<Call>, n: nat, nonce: string, time: u64)
    requires n < |calls|
    ensures Remembered(calls, n + 1, nonce, time) <==>
      (Remembered(calls, n, nonce, time) && (Validates(calls[n]) ==> calls[n].now <= time + REPLAY_WINDOW_SECS))
      || (AcceptedWith(calls, n, nonce) && calls[n].now == time)
  {
    if Remembered(calls, n + 1, nonce, time) {
      var j :| 0 <= j < n + 1 && AcceptedWith(calls, j, nonce) && !Expired(calls, j, n + 1) && calls[j].now == time;
      if j < n {
        ExpiredStep(calls, j, n);
      }
    }
    if Remembered(calls, n, nonce, time) {
      var j :| 0 <= j < n && AcceptedWith(calls, j, nonce) && !Expired(calls, j, n) && calls[j].now == time;
      ExpiredStep(calls, j, n);
    }
    assert !Expired(calls, n, n + 1);
  }

  lemma SeenStep(calls: seq<Call>, n: nat, nonce: string, time: u64)
    requires n < |calls|
    requires Remembered(calls, n, nonce, time) <==> nonce in SeenAt(calls, n) && SeenAt(calls, n)[nonce] == time
    ensures Remembered(calls, n + 1, nonce, time) <==>
      nonce in SeenAt(calls, n + 1) && SeenAt(calls, n + 1)[nonce] == time
  {
    RememberedStep(calls, n, nonce, time);
  }

  /**
   * The guard's pruned map decides as the whole history would: a call is accepted exactly when it
   * is valid and every earlier acceptance of its nonce has been expired by some valid call so far.
   */
  lemma AcceptsAsHistoryDoes(calls: seq<Call>, i: nat)
    requires i < |calls|
    ensures Accepted(calls, i) <==>
      Validates(calls[i]) &&
      (HasNonce(calls[i].message) ==>
        forall j | 0 <= j < i :: AcceptedWith(calls, j, calls[i].message.nonce) ==> Expired(calls, j, i + 1))
  {
    SeenMeans(calls, i);
    var c := calls[i];
    if Validates(c) && HasNonce(c.message) {
      var nonce := c.message.nonce;
      var seen := SeenAt(calls, i);
      assert forall j :: 0 <= j < i ==>
        (Expired(calls, j, i + 1) <==> Expired(calls, j, i) || c.now > calls[j].now + REPLAY_WINDOW_SECS);
      if nonce in Prune(seen, c.now) {
        assert Remembered(calls, i, nonce, seen[nonce]);
      } else {
        forall j | 0 <= j < i && AcceptedWith(calls, j, nonce) ensures Expired(calls, j, i + 1) {
          assert !Expired(calls, j, i) ==> Remembered(calls, i, nonce, calls[j].now);
        }
      }
    }
  }

  /** With a clock that never goes back, only acceptances in the last window stand in the way. */
  lemma AcceptsUnlessRecent(calls: seq<Call>, i: nat)
    requires i < |calls| && NonDecreasing(calls)
    ensures Accepted(calls, i) <==>
      Validates(calls[i]) &&
      (HasNonce(calls[i].message) ==>
        forall j | 0 <= j < i :: AcceptedWith(calls, j, calls[i].message.nonce) ==>
          calls[i].now - calls[j].now > REPLAY_WINDOW_SECS)
  {
    AcceptsAsHistoryDoes(calls, i);
    if Validates(calls[i]) {
      forall j | 0 <= j < i ensures Expired(calls, j, i + 1) <==> calls[i].now - calls[j].now > REPLAY_WINDOW_SECS {
        if calls[i].now - calls[j].now > REPLAY_WINDOW_SECS {
          assert j < i < i + 1 && Validates(calls[i]);
        }
      }
    }
  }

  lemma ExampleCallsValidate(nonce: string)
    requires nonce == seq(16, _ => '0')
    ensures Validates(Call(HandshakeInit("n", 1000, nonce), 1000, Host))
      && Validates(Call(MtuProbe("n", 1500), 1301, Host))
  {
    assert forall c :: c in nonce ==> IsHexDigit(c);
    assert forall c :: c in "n" ==> IsNodeChar(c);
  }

  /** A clock that goes back can undo the protection: an expired nonce becomes acceptable at once. */
  lemma BackwardClockReadmits()
    ensures exists calls: seq<Call> ::
      |calls| == 3 && calls[0] == calls[2] && HasNonce(calls[0].message) && Accepted(calls, 0) && Accepted(calls, 2)
  {
    var nonce := seq(16, _ => '0');
    var first := Call(HandshakeInit("n", 1000, nonce), 1000, Host);
    var later := Call(MtuProbe("n", 1500), 1301, Host);
    var calls := [first, later, first];
    ExampleCallsValidate(nonce);
    AcceptsAsHistoryDoes(calls, 0);
    AcceptsAsHistoryDoes(calls, 2);
    assert Expired(calls, 0, 3) by {
      assert Validates(calls[1]) && calls[1].now > calls[0].now + REPLAY_WINDOW_SECS;
    }
    assert !AcceptedWith(calls, 1, nonce);
  }

  // ----- runs of session calls -----

  datatype SessionCall = SessionCall(nonce: seq<byte>, peer: string, role: Role)

  function SessionsAt(calls: seq<SessionCall>, n: nat): Sessions
    requires n <= |calls|
  {
    if n == 0 then map[]
    else SessionOutcome(SessionsAt(calls, n - 1), calls[n - 1].nonce, calls[n - 1].peer, calls[n - 1].role).1
  }

  function SessionAnswer(calls: seq<SessionCall>, i: nat): Result<Unit, ValidationError>
    requires i < |calls|
  {
    SessionOutcome(SessionsAt(calls, i), calls[i].nonce, calls[i].peer, calls[i].role).0
  }

  /** The first call before `n` with this nonce and a valid peer. */
  ghost predicate FirstUse(calls: seq<SessionCall>, j: nat, n: nat, nonce: seq<byte>)
    requires n <= |calls|
  {
    && j < n && calls[j].nonce == nonce && ValidNodeId(calls[j].peer)
    && forall k :: 0 <= k < j && calls[k].nonce == nonce ==> !ValidNodeId(calls[k].peer)
  }

  ghost predicate UsedBefore(calls: seq<SessionCall>, n: nat, nonce: seq<byte>)
    requires n <= |calls|
  {
    exists k :: 0 <= k < n && calls[k].nonce == nonce && ValidNodeId(calls[k].peer)
  }

  lemma {:induction false} SessionsAre(calls: seq<SessionCall>, n: nat, nonce: seq<byte>)
    requires n <= |calls|
    ensures nonce in SessionsAt(calls, n) <==> UsedBefore(calls, n, nonce)
    ensures forall j: nat :: FirstUse(calls, j, n, nonce) ==>
      nonce in SessionsAt(calls, n) && SessionsAt(calls, n)[nonce] == (calls[j].peer, calls[j].role)
  {
    if n > 0 {
      SessionsAre(calls, n - 1, nonce);
      forall j: nat | FirstUse(calls, j, n, nonce)
        ensures nonce in SessionsAt(calls, n) && SessionsAt(calls, n)[nonce] == (calls[j].peer, calls[j].role)
      {
        assert j < n - 1 ==> FirstUse(calls, j, n - 1, nonce);
      }
    }
  }

  lemma {:induction false} FirstUseExists(calls: seq<SessionCall>, n: nat, nonce: seq<byte>) returns (j: nat)
    requires n <= |calls| && UsedBefore(calls, n, nonce)
    ensures FirstUse(calls, j, n, nonce)
  {
    if UsedBefore(calls, n - 1, nonce) {
      j := FirstUseExists(calls, n - 1, nonce);
    } else {
      j := n - 1;
    }
  }

  /**
   * Over any run of session calls, a nonce is taken exactly once; a later call is a replay when it names the
   * peer and role of that first use, and a conflict when it names others.
   */
  lemma SessionAnswersMean(calls: seq<SessionCall>, i: nat)
    requires i < |calls|
    ensures var c := calls[i];
      && (SessionAnswer(calls, i).Ok? <==> ValidNodeId(c.peer) && !UsedBefore(calls, i, c.nonce))
      && (SessionAnswer(calls, i) == Err(ReplayDetected) <==>
            ValidNodeId(c.peer) && exists j: nat ::
              FirstUse(calls, j, i, c.nonce) && calls[j].peer == c.peer && calls[j].role == c.role)
      && (SessionAnswer(calls, i) == Err(WrongRole) <==>
            ValidNodeId(c.peer) && exists j: nat ::
              FirstUse(calls, j, i, c.nonce) && (calls[j].peer != c.peer || calls[j].role != c.role))
  {
    var c := calls[i];
    SessionsAre(calls, i, c.nonce);
    if UsedBefore(calls, i, c.nonce) {
      var j := FirstUseExists(calls, i, c.nonce);
      assert FirstUse(calls, j, i, c.nonce);
    } else {
      assert forall j: nat :: !FirstUse(calls, j, i, c.nonce);
    }
  }

  // ----- how often one message can get through -----

  ghost function Acceptances(calls: seq<Call>, m: Message): set<int> {
    set i | 0 <= i < |calls| && calls[i].message == m && Accepted(calls, i)
  }

  lemma AcceptancesAreApart(calls: seq<Call>, m: Message, i: nat, j: nat)
    requires NonDecreasing(calls) && HasNonce(m)
    requires i < j && i in Acceptances(calls, m) && j in Acceptances(calls, m)
    ensures calls[j].now - calls[i].now > REPLAY_WINDOW_SECS
    ensures m.timestamp - REPLAY_WINDOW_SECS <= calls[i].now < calls[j].now <= m.timestamp + REPLAY_WINDOW_SECS
  {
    AcceptsUnlessRecent(calls, i);
    AcceptsUnlessRecent(calls, j);
    assert AcceptedWith(calls, i, m.nonce);
    ValidateMessageMeans(m, calls[i].now, calls[i].role);
    ValidateMessageMeans(m, calls[j].now, calls[j].role);
  }

  lemma NoThirdAcceptance(calls: seq<Call>, m: Message, i: nat, j: nat, k: nat)
    requires NonDecreasing(calls) && HasNonce(m) && i < j < k
    requires i in Acceptances(calls, m) && j in Acceptances(calls, m)
    ensures k !in Acceptances(calls, m)
  {
    if k in Acceptances(calls, m) {
      AcceptancesAreApart(calls, m, i, j);
      AcceptancesAreApart(calls, m, j, k);
    }
  }

  lemma NotThree(calls: seq<Call>, m: Message, a: nat, b: nat, c: nat)
    requires NonDecreasing(calls) && HasNonce(m)
    requires a in Acceptances(calls, m) && b in Acceptances(calls, m) && c in Acceptances(calls, m)
    ensures a == b || b == c || a == c
  {
    var low := if a < b then a else b;
    var high := if a < b then b else a;
    if low < high {
      if c < low {
        NoThirdAcceptance(calls, m, c, low, high);
      } else if low < c < high {
        NoThirdAcceptance(calls, m, low, c, high);
      } else if high < c {
        NoThirdAcceptance(calls, m, low, high, c);
      }
    }
  }

  /** The two windows together let one handshake message through at most twice, however long the run. */
  lemma AcceptedAtMostTwice(calls: seq<Call>, m: Message)
    requires NonDecreasing(calls) && HasNonce(m)
    ensures |Acceptances(calls, m)| <= 2
  {
    var all := Acceptances(calls, m);
    if |all| > 2 {
      var a :| a in all;
      var rest := all - {a};
      assert |rest| == |all| - 1;
      var b :| b in rest;
      assert |rest - {b}| == |rest| - 1;
      var c :| c in rest - {b};
      NotThree(calls, m, a, b, c);
    }
  }

  /** A message that was not ahead of the clock when first accepted is never accepted again. */
  lemma AcceptedOnceUnlessFutureDated(calls: seq<Call>, m: Message, i: nat)
    requires NonDecreasing(calls) && HasNonce(m)
    requires i in Acceptances(calls, m) && m.timestamp <= calls[i].now
    requires forall j :: j in Acceptances(calls, m) ==> i <= j
    ensures Acceptances(calls, m) == {i}
  {
    forall j | j in Acceptances(calls, m) ensures j == i {
      if j > i {
        AcceptancesAreApart(calls, m, i, j);
      }
    }
  }

  lemma {:induction false} SamePrefix(a: seq<Call>, b: seq<Call>, n: nat)
    requires n <= |a| && n <= |b| && a[..n] == b[..n]
    ensures SeenAt(a, n) == SeenAt(b, n)
    ensures forall i :: 0 <= i < n ==> (Accepted(a, i) <==> Accepted(b, i))
  {
    if n > 0 {
      assert a[..n - 1] == a[..n][..n - 1] == b[..n - 1];
      assert a[n - 1] == a[..n][n - 1] == b[n - 1];
      SamePrefix(a, b, n - 1);
    }
  }

  /**
   * Exactly when can the message just accepted be replayed? Right after its first acceptance, some
   * later moment lets it through again if and only if its timestamp is ahead of the clock (and the
   * clock itself can still advance past the window).
   */
  lemma ReplayableIffFutureDated(calls: seq<Call>, m: Message)
    requires NonDecreasing(calls) && HasNonce(m) && calls != []
    requires Acceptances(calls, m) == {|calls| - 1}
    ensures (exists again: Call ::
               again.message == m && NonDecreasing(calls + [again]) && Accepted(calls + [again], |calls|))
      <==> m.timestamp > calls[|calls| - 1].now && calls[|calls| - 1].now + REPLAY_WINDOW_SECS < U64_MAX
  {
    var last := |calls| - 1;
    var now := calls[last].now;
    assert last in Acceptances(calls, m);
    ghost var canWait := now + REPLAY_WINDOW_SECS < U64_MAX;
    forall again: Call | again.message == m && NonDecreasing(calls + [again]) && Accepted(calls + [again], |calls|)
      ensures m.timestamp > now && canWait
    {
      var run := calls + [again];
      SamePrefix(calls, run, |calls|);
      assert last in Acceptances(run, m) && |calls| in Acceptances(run, m);
      AcceptancesAreApart(run, m, last, |calls|);
    }
    if m.timestamp > now && canWait {
      var again := Call(m, now + REPLAY_WINDOW_SECS + 1, calls[last].role);
      var run := calls + [again];
      SamePrefix(calls, run, |calls|);
      AcceptsUnlessRecent(calls, last);
      ValidateMessageMeans(m, now, calls[last].role);
      ValidateMessageMeans(m, again.now, again.role);
      assert NonDecreasing(run);
      AcceptsUnlessRecent(run, |calls|);
      forall j | 0 <= j < |calls| && AcceptedWith(run, j, m.nonce) ensures again.now - run[j].now > REPLAY_WINDOW_SECS {
        assert calls[j].now <= now;
      }
      assert Accepted(calls + [again], |calls|);
    }
  }
}
