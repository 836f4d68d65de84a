/** Runs of a step machine, whatever its steps are. */
module Runs {

  function Fold<S, E>(step: (S, E) -> S, s: S, es: seq<E>): S
    decreases |es|
  {
    if es == [] then s else step(Fold(step, s, es[..|es| - 1]), es[|es| - 1])
  }

  /** A run can be cut anywhere. */
  lemma {:induction false} FoldAppend<S, E>(step: (S, E) -> S, s: S, a: seq<E>, b: seq<E>)
    ensures Fold(step, s, a + b) == Fold(step, Fold(step, s, a), b)
    decreases |b|
  {
    if b == [] {
      assert a + b == a;
    } else {
      FoldAppend(step, s, a, b[..|b| - 1]);
      assert (a + b)[..|a + b| - 1] == a + b[..|b| - 1];
    }
  }

  /** No step of the run is a bad one for the state it is taken in. */
  predicate Never<S, E>(step: (S, E) -> S, bad: (S, E) -> bool, s: S, es: seq<E>)
    decreases |es|
  {
    es == [] || (var before := es[..|es| - 1];
                 Never(step, bad, s, before) && !bad(Fold(step, s, before), es[|es| - 1]))
  }

  lemma {:induction false} NeverAppend<S, E>(step: (S, E) -> S, bad: (S, E) -> bool, s: S, a: seq<E>, b: seq<E>)
    requires Never(step, bad, s, a) && Never(step, bad, Fold(step, s, a), b)
    ensures Never(step, bad, s, a + b)
    decreases |b|
  {
    if b == [] {
      assert a + b == a;
    } else {
      var before := b[..|b| - 1];
      NeverAppend(step, bad, s, a, before);
      assert (a + b)[..|a + b| - 1] == a + before;
      FoldAppend(step, s, a, before);
    }
  }
}
