/** Runs of a state machine: a list of events, folded over its step function. */
module Runs {
  function Fold<S, E>(step: (S, E) -> S, s: S, events: seq<E>): S
    decreases |events|
  {
    if events == [] then s else Fold(step, step(s, events[0]), events[1..])
  }

  /** What every step keeps, every run keeps. */
  lemma {:induction false} Keeps<S(!new), E(!new)>(step: (S, E) -> S, inv: S -> bool, s: S, events: seq<E>)
    requires inv(s) && forall t, e :: inv(t) ==> inv(step(t, e))
    ensures inv(Fold(step, s, events))
    decreases |events|
  {
    if events != [] {
      Keeps(step, inv, step(s, events[0]), events[1..]);
    }
  }

  /** A run and one more event. */
  lemma {:induction false} OneMore<S, E>(step: (S, E) -> S, s: S, events: seq<E>, e: E)
    ensures Fold(step, s, events + [e]) == step(Fold(step, s, events), e)
    decreases |events|
  {
    if events == [] {
      assert events + [e] == [e] && [e][1..] == [];
      assert Fold(step, step(s, e), []) == step(s, e);
    } else {
      assert (events + [e])[1..] == events[1..] + [e];
      OneMore(step, step(s, events[0]), events[1..], e);
    }
  }

  /** A run continued by another one. */
  lemma {:induction false} Continued<S, E>(step: (S, E) -> S, s: S, events: seq<E>, more: seq<E>)
    ensures Fold(step, s, events + more) == Fold(step, Fold(step, s, events), more)
    decreases |more|
  {
    if more == [] {
      assert events + more == events;
    } else {
      OneMore(step, s, events, more[0]);
      assert events + more == events + [more[0]] + more[1..];
      Continued(step, s, events + [more[0]], more[1..]);
    }
  }
}
