/** Runs of a system that takes one step per event. */
module Runs {
  function StateAt<S, E>(step: (S, E) -> S, start: S, events: seq<E>, n: nat): S
    requires n <= |events|
  {
    if n == 0 then start else step(StateAt(step, start, events, n - 1), events[n - 1])
  }

  /** What every event between two moments keeps holds at the second if it holds at the first. */
  lemma {:induction false} KeptBetween<S(!new), E>(step: (S, E) -> S, start: S, events: seq<E>, n: nat, m: nat,
                                                   kept: S -> bool)
    requires n <= m <= |events| && kept(StateAt(step, start, events, n))
    requires forall s, i {:trigger step(s, events[i])} :: n <= i < m && kept(s) ==> kept(step(s, events[i]))
    ensures kept(StateAt(step, start, events, m))
  {
    if m > n {
      KeptBetween(step, start, events, n, m - 1, kept);
    }
  }

  /** What one event brings about, and what the later ones keep, holds from then on. */
  lemma {:induction false} KeptAfter<S(!new), E>(step: (S, E) -> S, start: S, events: seq<E>, n: nat, m: nat,
                                                 before: S -> bool, kept: S -> bool)
    requires n < m <= |events| && before(StateAt(step, start, events, n))
    requires forall s {:trigger step(s, events[n])} :: before(s) ==> kept(step(s, events[n]))
    requires forall s, i {:trigger step(s, events[i])} :: n < i < m && kept(s) ==> kept(step(s, events[i]))
    ensures kept(StateAt(step, start, events, m))
  {
    assert StateAt(step, start, events, n + 1) == step(StateAt(step, start, events, n), events[n]);
    KeptBetween(step, start, events, n + 1, m, kept);
  }

  /** The same for two events one after the other. */
  lemma {:induction false} KeptAfterTwo<S(!new), E>(step: (S, E) -> S, start: S, events: seq<E>, n: nat, m: nat,
                                                    before: S -> bool, between: S -> bool, kept: S -> bool)
    requires n + 1 < m <= |events| && before(StateAt(step, start, events, n))
    requires forall s {:trigger step(s, events[n])} :: before(s) ==> between(step(s, events[n]))
    requires forall s {:trigger step(s, events[n + 1])} :: between(s) ==> kept(step(s, events[n + 1]))
    requires forall s, i {:trigger step(s, events[i])} :: n + 1 < i < m && kept(s) ==> kept(step(s, events[i]))
    ensures kept(StateAt(step, start, events, m))
  {
    assert StateAt(step, start, events, n + 1) == step(StateAt(step, start, events, n), events[n]);
    KeptAfter(step, start, events, n + 1, m, between, kept);
  }

  lemma {:induction false} HoldsFromThenOn(holds: nat -> bool, n: nat)
    requires holds(0) && forall i: nat :: i < n && holds(i) ==> holds(i + 1)
    ensures holds(n)
  {
    if n > 0 {
      HoldsFromThenOn(holds, n - 1);
    }
  }

  /**
   * A condition that holds at first, and that each step keeps exactly when the step fits, holds
   * throughout exactly when all steps fit.
   */
  lemma {:induction false} HoldsThroughoutIff(holds: nat -> bool, fits: nat -> bool, n: nat)
    requires holds(0) && forall i: nat :: i < n && holds(i) ==> (holds(i + 1) <==> fits(i))
    ensures (forall i: nat :: i <= n ==> holds(i)) <==> (forall i: nat :: i < n ==> fits(i))
  {
    if n > 0 {
      HoldsThroughoutIff(holds, fits, n - 1);
      if forall i: nat :: i <= n ==> holds(i) {
        assert holds(n) && holds(n - 1);
        assert fits(n - 1);
      }
      if forall i: nat :: i < n ==> fits(i) {
        assert fits(n - 1) && holds(n - 1);
      }
    }
  }
}
