/**
 The life of a registration that survives a rehash, shared by user modes, channel modes, client
 capabilities and module data: an entry owns an identifier (a bit or a slot), may be marked as
 unloaded, is revived when its name is registered again, and is removed by the commit otherwise.
 */
module Registry {
  import opened Runs

  /** An entry's identifier (NONE when it owns none) and whether it is marked as unloaded. */
  datatype Slot = Slot(id: int, marked: bool)

  const NONE: int := -1

  /** No two names own the same identifier. */
  ghost predicate Distinct<K(!new)>(s: map<K, Slot>) {
    forall n, n' | n in s && n' in s && n != n' && s[n].id == s[n'].id :: s[n].id == NONE
  }

  ghost predicate Unused<K(!new)>(s: map<K, Slot>, id: int) {
    id == NONE || forall n | n in s :: s[n].id != id
  }

  datatype Op<K> =
    | Reject
    | Register(name: K, id: int)
    | Revive(name: K)
    | Mark(name: K)
    | Remove(name: K)
    | CommitAll

  /** What each operation does to the table. A marked entry still owns its identifier. */
  ghost predicate Step<K(!new)>(s: map<K, Slot>, op: Op<K>, s': map<K, Slot>) {
    match op
    case Reject => s' == s
    case Register(n, id) => n !in s && Unused(s, id) && s' == s[n := Slot(id, false)]
    case Revive(n) => n in s && s[n].marked && s' == s[n := Slot(s[n].id, false)]
    case Mark(n) => n in s && s' == s[n := Slot(s[n].id, true)]
    case Remove(n) => n in s && s' == s - {n}
    case CommitAll => s' == Committed(s)
  }

  /** A run: states joined by operations. */
  ghost predicate IsRun<K(!new)>(states: seq<map<K, Slot>>, ops: seq<Op<K>>) {
    && |states| == |ops| + 1
    && forall i | 0 <= i < |ops| :: Step(states[i], ops[i], states[i + 1])
  }

  // The registries are state machines. view gives the table that a state stands for, and op the operation
  // that a command comes to.

  ghost predicate Implements<S(!new), X(!new), K(!new)>(step: (S, X) -> S, inv: S -> bool, view: S -> map<K, Slot>,
                                                        op: (S, X) -> Op<K>) {
    forall s, x | inv(s) :: Step(view(s), op(s, x), view(step(s, x)))
  }

  /** The tables of a run. */
  ghost function Tables<S, X, K>(step: (S, X) -> S, view: S -> map<K, Slot>, s: S, xs: seq<X>): seq<map<K, Slot>> {
    seq(|xs| + 1, k requires 0 <= k <= |xs| => view(At(step, s, xs, k)))
  }

  /** The operations of a run. */
  ghost function Ops<S, X, K>(step: (S, X) -> S, op: (S, X) -> Op<K>, s: S, xs: seq<X>): seq<Op<K>> {
    seq(|xs|, k requires 0 <= k < |xs| => op(At(step, s, xs, k), xs[k]))
  }

  /** Every run of a registry is a run of the table. */
  lemma RunIsRun<S(!new), X(!new), K(!new)>(step: (S, X) -> S, inv: S -> bool, view: S -> map<K, Slot>,
                                            op: (S, X) -> Op<K>, s: S, xs: seq<X>)
    requires Keeps(step, inv) && Implements(step, inv, view, op) && inv(s)
    ensures IsRun(Tables(step, view, s, xs), Ops(step, op, s, xs))
  {
    hide Keeps, Step, At;
    forall k: nat | k < |xs|
      ensures Step(view(At(step, s, xs, k)), op(At(step, s, xs, k), xs[k]), view(At(step, s, xs, k + 1)))
    {
      AlwaysHolds(step, inv, s, xs, k);
      Goes(step, s, xs, k);
    }
  }

  lemma StepKeepsDistinct<K(!new)>(s: map<K, Slot>, op: Op<K>, s': map<K, Slot>)
    requires Step(s, op, s') && Distinct(s)
    ensures Distinct(s')
    ensures forall n | n in s && n in s' :: s'[n].id == s[n].id
  {
  }

  /** No two entries ever share an identifier. */
  lemma {:induction false} RunKeepsDistinct<K(!new)>(states: seq<map<K, Slot>>, ops: seq<Op<K>>, i: nat)
    requires IsRun(states, ops) && Distinct(states[0]) && i < |states|
    ensures Distinct(states[i])
  {
    if i > 0 {
      RunKeepsDistinct(states, ops, i - 1);
      StepKeepsDistinct(states[i - 1], ops[i - 1], states[i]);
    }
  }

  /** A name keeps its identifier for as long as it is in the table, through marking and revival. */
  lemma {:induction false} NameKeepsId<K(!new)>(states: seq<map<K, Slot>>, ops: seq<Op<K>>, i: nat, j: nat, n: K)
    requires IsRun(states, ops) && Distinct(states[0]) && i <= j < |states|
    requires forall k | i <= k <= j :: n in states[k]
    ensures states[i][n].id == states[j][n].id
    decreases j
  {
    if i < j {
      NameKeepsId(states, ops, i, j - 1, n);
      RunKeepsDistinct(states, ops, j - 1);
      StepKeepsDistinct(states[j - 1], ops[j - 1], states[j]);
    }
  }

  /** Until the commit removes an entry, marked or not, nobody else is given its identifier. */
  lemma IdStaysReserved<K(!new)>(states: seq<map<K, Slot>>, ops: seq<Op<K>>, i: nat, j: nat, n: K, other: K)
    requires IsRun(states, ops) && Distinct(states[0]) && i <= j < |states|
    requires forall k | i <= k <= j :: n in states[k]
    requires states[i][n].id != NONE && other != n && other in states[j]
    ensures states[j][other].id != states[i][n].id
  {
    NameKeepsId(states, ops, i, j, n);
    RunKeepsDistinct(states, ops, j);
  }

  /** The entries that survive the commit after a rehash. */
  ghost function Committed<K(!new)>(s: map<K, Slot>): map<K, Slot> {
    map n | n in s && !s[n].marked :: s[n]
  }
}
