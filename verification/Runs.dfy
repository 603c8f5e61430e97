/** Runs of a state machine that is given by a function from states and commands to states. */
module Runs {

  /** The state after the first k commands. */
  ghost function At<S, X>(step: (S, X) -> S, s: S, xs: seq<X>, k: nat): S
    requires k <= |xs|
  {
    if k == 0 then s else step(At(step, s, xs, k - 1), xs[k - 1])
  }

  /** Every command keeps the invariant. */
  ghost predicate Keeps<S(!new), X(!new)>(step: (S, X) -> S, inv: S -> bool) {
    forall s, x | inv(s) :: inv(step(s, x))
  }

  lemma AtStart<S, X>(step: (S, X) -> S, s: S, xs: seq<X>)
    ensures At(step, s, xs, 0) == s
  {
  }

  lemma Goes<S, X>(step: (S, X) -> S, s: S, xs: seq<X>, k: nat)
    requires k < |xs|
    ensures At(step, s, xs, k + 1) == step(At(step, s, xs, k), xs[k])
  {
  }

  lemma {:induction false} AlwaysHolds<S(!new), X(!new)>(step: (S, X) -> S, inv: S -> bool, s: S, xs: seq<X>, k: nat)
    requires Keeps(step, inv) && inv(s) && k <= |xs|
    ensures inv(At(step, s, xs, k))
  {
    if k > 0 {
      AlwaysHolds(step, inv, s, xs, k - 1);
      Goes(step, s, xs, k - 1);
    }
  }

  /** A good state stays good under exactly the commands that do not spoil it. */
  ghost predicate Exact<S(!new), X(!new)>(step: (S, X) -> S, inv: S -> bool, good: S -> bool, spoils: (S, X) -> bool) {
    forall s, x | inv(s) && good(s) :: good(step(s, x)) <==> !spoils(s, x)
  }

  lemma NextIsGood<S(!new), X(!new)>(step: (S, X) -> S, inv: S -> bool, good: S -> bool, spoils: (S, X) -> bool,
                                     s: S, xs: seq<X>, k: nat)
    requires Keeps(step, inv) && Exact(step, inv, good, spoils) && inv(s) && k < |xs| && good(At(step, s, xs, k))
    ensures good(At(step, s, xs, k + 1)) <==> !spoils(At(step, s, xs, k), xs[k])
  {
    hide Keeps, At;
    AlwaysHolds(step, inv, s, xs, k);
    Goes(step, s, xs, k);
  }

  /** All states of a run are good. */
  ghost predicate Always<S, X>(step: (S, X) -> S, good: S -> bool, s: S, xs: seq<X>) {
    forall k: nat | k <= |xs| :: good(At(step, s, xs, k))
  }

  /** No command of a run spoils the state that it finds. */
  ghost predicate Never<S, X>(step: (S, X) -> S, spoils: (S, X) -> bool, s: S, xs: seq<X>) {
    forall k: nat | k < |xs| :: !spoils(At(step, s, xs, k), xs[k])
  }

  /** From a good state, all states of a run are good if and only if no command of it spoils one. */
  lemma Throughout<S(!new), X(!new)>(step: (S, X) -> S, inv: S -> bool, good: S -> bool, spoils: (S, X) -> bool,
                                     s: S, xs: seq<X>)
    requires Keeps(step, inv) && Exact(step, inv, good, spoils) && inv(s) && good(s)
    ensures Always(step, good, s, xs) <==> Never(step, spoils, s, xs)
  {
    hide Keeps, Exact, At;
    if Never(step, spoils, s, xs) {
      forall k: nat | k <= |xs|
        ensures good(At(step, s, xs, k))
      {
        GoodUntil(step, inv, good, spoils, s, xs, k);
      }
    }
    if Always(step, good, s, xs) {
      forall k: nat | k < |xs|
        ensures !spoils(At(step, s, xs, k), xs[k])
      {
        assert good(At(step, s, xs, k)) && good(At(step, s, xs, k + 1));
        NextIsGood(step, inv, good, spoils, s, xs, k);
      }
    }
  }

  lemma {:induction false} GoodUntil<S(!new), X(!new)>(step: (S, X) -> S, inv: S -> bool, good: S -> bool,
                                                       spoils: (S, X) -> bool, s: S, xs: seq<X>, k: nat)
    requires Keeps(step, inv) && Exact(step, inv, good, spoils) && inv(s) && good(s) && k <= |xs|
    requires Never(step, spoils, s, xs)
    ensures good(At(step, s, xs, k))
  {
    hide Keeps, Exact;
    if k > 0 {
      GoodUntil(step, inv, good, spoils, s, xs, k - 1);
      NextIsGood(step, inv, good, spoils, s, xs, k - 1);
      hide At;
    }
  }

  /** In good states nothing but the other property decides whether the next one is good. */
  ghost predicate Decides<S(!new), X(!new)>(step: (S, X) -> S, inv: S -> bool, good: S -> bool, other: S -> bool) {
    && (forall s | inv(s) && good(s) :: other(s))
    && (forall s, x | inv(s) && good(s) && other(step(s, x)) :: good(step(s, x)))
  }

  /** Then all states of a run are good if and only if all have the other property. */
  lemma AlwaysBoth<S(!new), X(!new)>(step: (S, X) -> S, inv: S -> bool, good: S -> bool, other: S -> bool,
                                     s: S, xs: seq<X>)
    requires Keeps(step, inv) && Decides(step, inv, good, other) && inv(s) && good(s)
    ensures Always(step, good, s, xs) <==> Always(step, other, s, xs)
  {
    hide Keeps, Decides, At;
    forall k: nat | k <= |xs|
      ensures good(At(step, s, xs, k)) ==> other(At(step, s, xs, k))
      ensures Always(step, other, s, xs) ==> good(At(step, s, xs, k))
    {
      AlwaysHolds(step, inv, s, xs, k);
      GoodIsOther(step, inv, good, other, At(step, s, xs, k));
      if Always(step, other, s, xs) {
        GoodWhileOther(step, inv, good, other, s, xs, k);
      }
    }
  }

  lemma GoodIsOther<S(!new), X(!new)>(step: (S, X) -> S, inv: S -> bool, good: S -> bool, other: S -> bool, s: S)
    requires Decides(step, inv, good, other) && inv(s)
    ensures good(s) ==> other(s)
  {
  }

  lemma {:induction false} GoodWhileOther<S(!new), X(!new)>(step: (S, X) -> S, inv: S -> bool, good: S -> bool,
                                                            other: S -> bool, s: S, xs: seq<X>, k: nat)
    requires Keeps(step, inv) && Decides(step, inv, good, other) && inv(s) && good(s) && k <= |xs|
    requires Always(step, other, s, xs)
    ensures good(At(step, s, xs, k))
  {
    hide Keeps;
    if k > 0 {
      GoodWhileOther(step, inv, good, other, s, xs, k - 1);
      AlwaysHolds(step, inv, s, xs, k - 1);
      assert other(At(step, s, xs, k));
      Goes(step, s, xs, k - 1);
      hide At;
    }
  }

  /** Two machines that differ in bad commands only go the same way as long as there are none. */
  lemma SameRuns<S(!new), X(!new)>(step: (S, X) -> S, other: (S, X) -> S, bad: (S, X) -> bool, s: S, xs: seq<X>)
    requires (forall s, x | !bad(s, x) :: other(s, x) == step(s, x)) && Never(step, bad, s, xs)
    ensures forall k: nat | k <= |xs| :: At(other, s, xs, k) == At(step, s, xs, k)
  {
    forall k: nat | k <= |xs|
      ensures At(other, s, xs, k) == At(step, s, xs, k)
    {
      SameUntil(step, other, bad, s, xs, k);
    }
  }

  lemma {:induction false} SameUntil<S(!new), X(!new)>(step: (S, X) -> S, other: (S, X) -> S, bad: (S, X) -> bool,
                                                       s: S, xs: seq<X>, k: nat)
    requires (forall s, x | !bad(s, x) :: other(s, x) == step(s, x)) && Never(step, bad, s, xs) && k <= |xs|
    ensures At(other, s, xs, k) == At(step, s, xs, k)
  {
    if k > 0 {
      SameUntil(step, other, bad, s, xs, k - 1);
    }
  }
}
