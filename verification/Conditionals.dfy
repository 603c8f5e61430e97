/**
 Conditional configuration (@if blocks, `src/conf_preprocessor.c`): what a list of conditions resolves
 to in each preprocessing phase, and the pruning of a configuration tree by it.
 */
module Conditionals {
  import opened Options

  datatype Phase = Initial | Secondary | Modules

  datatype Op = EQ | NE | GT | GE | LT | LE {
    predicate Accepts(cmp: int) {
      match this
      case EQ => cmp == 0
      case NE => cmp != 0
      case GT => cmp > 0
      case GE => cmp >= 0
      case LT => cmp < 0
      case LE => cmp <= 0
    }
  }

  datatype Comparison = Comparison(op: Op, operand: string)

  datatype Test =
    | ModuleLoaded(name: string)
    | ModuleVersion(name: string, version: Option<Comparison>)
    | ModuleExists(name: string)
    | MinimumVersion(name: string)
    | FileExists(name: string)
    | Defined(name: string)
    | Environment(name: string, content: Option<Comparison>)
    | Value(name: string, value: Comparison)

  datatype Condition = Condition(negative: bool, test: Test)

  /** Everything the conditions ask about; `compare` is the natural order on strings. */
  datatype World = World(
    loaded: set<string>,
    blacklisted: set<string>,
    moduleVersions: map<string, string>,
    moduleFiles: set<string>,
    version: string,
    files: set<string>,
    defines: map<string, string>,
    environment: map<string, string>,
    compare: (string, string) -> int)

  predicate Compares(w: World, known: map<string, string>, name: string, c: Comparison) {
    name in known && c.op.Accepts(w.compare(known[name], c.operand))
  }

  /** One condition, before negation. The tests on modules get placeholders in the early phases. */
  predicate Passes(w: World, phase: Phase, t: Test) {
    match t
    case ModuleLoaded(name) =>
      phase == Initial || (if phase == Secondary then name !in w.blacklisted else name in w.loaded)
    case ModuleVersion(name, None) => phase != Modules || name in w.moduleVersions
    case ModuleVersion(name, Some(c)) => phase != Modules || Compares(w, w.moduleVersions, name, c)
    case ModuleExists(name) => name in w.moduleFiles
    case MinimumVersion(name) => w.compare(w.version, name) >= 0
    case FileExists(name) => name in w.files
    case Defined(name) => name in w.defines
    case Environment(name, None) => name in w.environment
    case Environment(name, Some(c)) => Compares(w, w.environment, name, c)
    case Value(name, c) => Compares(w, w.defines, name, c)
  }

  /** The order that the comparisons are made by: exchanging the strings exchanges less and greater. */
  ghost predicate IsOrder(w: World) {
    forall a, b :: w.compare(a, b) < 0 <==> w.compare(b, a) > 0
  }

  predicate Less(w: World, a: string, b: string) {
    w.compare(a, b) < 0
  }

  /** What the operators say about a known variable: at most one string is less than the other, and each
      operator is the opposite of another one. */
  lemma Comparisons(w: World, known: map<string, string>, name: string, operand: string)
    requires IsOrder(w) && name in known
    ensures var value := known[name];
      && (Compares(w, known, name, Comparison(LT, operand)) <==> Less(w, value, operand))
      && (Compares(w, known, name, Comparison(GE, operand)) <==> !Less(w, value, operand))
      && (Compares(w, known, name, Comparison(GT, operand)) <==> Less(w, operand, value))
      && (Compares(w, known, name, Comparison(LE, operand)) <==> !Less(w, operand, value))
      && (Compares(w, known, name, Comparison(EQ, operand)) <==> !Less(w, value, operand) && !Less(w, operand, value))
      && (Compares(w, known, name, Comparison(NE, operand)) <==> Less(w, value, operand) || Less(w, operand, value))
      && !(Less(w, value, operand) && Less(w, operand, value))
  {
    assert w.compare(known[name], operand) < 0 <==> w.compare(operand, known[name]) > 0;
    assert w.compare(operand, known[name]) < 0 <==> w.compare(known[name], operand) > 0;
  }

  /** The minimum version is a comparison of the server's version, with "at least" as operator. */
  lemma MinimumIsGE(w: World, phase: Phase, name: string, minimum: string)
    ensures Passes(w, phase, MinimumVersion(minimum)) <==>
      Compares(w, map[name := w.version], name, Comparison(GE, minimum))
    ensures Passes(w, phase, MinimumVersion(minimum)) <==> !Less(w, w.version, minimum)
  {
  }

  /** What each of the other tests asks about: it passes when the name is there, and not when it is not, whatever
      else there is; before the module phase the tests on modules do not look at modules. */
  lemma TestsAsk(w: World, phase: Phase, name: string, text: string)
    ensures Passes(w.(files := w.files + {name}), phase, FileExists(name))
    ensures !Passes(w.(files := w.files - {name}), phase, FileExists(name))
    ensures Passes(w.(moduleFiles := w.moduleFiles + {name}), phase, ModuleExists(name))
    ensures !Passes(w.(moduleFiles := w.moduleFiles - {name}), phase, ModuleExists(name))
    ensures Passes(w.(defines := w.defines[name := text]), phase, Defined(name))
    ensures !Passes(w.(defines := w.defines - {name}), phase, Defined(name))
    ensures Passes(w.(environment := w.environment[name := text]), phase, Environment(name, None))
    ensures !Passes(w.(environment := w.environment - {name}), phase, Environment(name, None))
    ensures Passes(w.(loaded := w.loaded + {name}), Modules, ModuleLoaded(name))
    ensures !Passes(w.(loaded := w.loaded - {name}), Modules, ModuleLoaded(name))
    ensures !Passes(w.(blacklisted := w.blacklisted + {name}), Secondary, ModuleLoaded(name))
    ensures Passes(w.(blacklisted := w.blacklisted - {name}), Secondary, ModuleLoaded(name))
    ensures Passes(w, Initial, ModuleLoaded(name))
    ensures Passes(w.(moduleVersions := w.moduleVersions[name := text]), Modules, ModuleVersion(name, None))
    ensures !Passes(w.(moduleVersions := w.moduleVersions - {name}), Modules, ModuleVersion(name, None))
    ensures phase != Modules ==> forall c :: Passes(w, phase, ModuleVersion(name, c))
  {
  }

  /** A comparison fails for a name that is not there, and otherwise compares what is there. */
  lemma ComparesValue(w: World, phase: Phase, name: string, text: string, op: Op, operand: string)
    ensures var known := w.defines[name := text]; var c := Comparison(op, operand);
      && (Passes(w.(defines := known), phase, Value(name, c)) <==> Compares(w, known, name, c))
      && !Passes(w.(defines := known - {name}), phase, Value(name, c))
      && (Passes(w.(environment := known), phase, Environment(name, Some(c))) <==> Compares(w, known, name, c))
      && !Passes(w.(environment := known - {name}), phase, Environment(name, Some(c)))
      && (Passes(w.(moduleVersions := known), Modules, ModuleVersion(name, Some(c))) <==> Compares(w, known, name, c))
      && !Passes(w.(moduleVersions := known - {name}), Modules, ModuleVersion(name, Some(c)))
  {
  }

  predicate Holds(w: World, phase: Phase, c: Condition) {
    Passes(w, phase, c.test) != c.negative
  }

  predicate AllHold(w: World, phase: Phase, conds: seq<Condition>) {
    forall k | 0 <= k < |conds| :: Holds(w, phase, conds[k])
  }

  /** A comparison with a variable that is defined without a value; the source then has no string to compare. */
  predicate NoValue(w: World, t: Test) {
    t.Value? && t.name in w.defines && w.defines[t.name] == ""
  }

  /** A condition that fails stands before every such comparison. */
  predicate Guarded(w: World, phase: Phase, conds: seq<Condition>) {
    forall k | 0 <= k < |conds| && NoValue(w, conds[k].test) ::
      exists j | 0 <= j < k :: !Holds(w, phase, conds[j])
  }

  /** preprocessor_resolve_if; sound says that every comparison has two strings. */
  method ResolveIf(w: World, conds: seq<Condition>, phase: Phase) returns (r: bool, ghost sound: bool)
    ensures r == AllHold(w, phase, conds)
    ensures sound <==> Guarded(w, phase, conds)
  {
    sound := true;
    var i: nat := 0;
    while i < |conds|
      invariant i <= |conds|
      invariant forall k | 0 <= k < i :: Holds(w, phase, conds[k])
      invariant sound <==> forall k | 0 <= k < i :: !NoValue(w, conds[k].test)
    {
      sound := sound && !NoValue(w, conds[i].test);
      var result := Passes(w, phase, conds[i].test);
      if conds[i].negative {
        result := !result;
      }
      if !result {
        r := false;
        return;
      }
      i := i + 1;
    }
    r := true;
  }

  /** preprocessor_cc_duplicate_list: each copy is put in front, so the copied list runs backwards. */
  method DuplicateList(conds: seq<Condition>) returns (out: seq<Condition>)
    ensures |out| == |conds| && forall i | 0 <= i < |out| :: out[i] == conds[|conds| - 1 - i]
  {
    out := [];
    var i: nat := 0;
    while i < |conds|
      invariant i == |out| <= |conds|
      invariant forall k | 0 <= k < i :: out[k] == conds[i - 1 - k]
    {
      out := [conds[i]] + out;
      i := i + 1;
    }
  }

  /** Which does not change what the conditions resolve to. */
  lemma DuplicateMeansTheSame(w: World, phase: Phase, conds: seq<Condition>, out: seq<Condition>)
    requires |out| == |conds| && forall i | 0 <= i < |out| :: out[i] == conds[|conds| - 1 - i]
    ensures AllHold(w, phase, out) <==> AllHold(w, phase, conds)
  {
    hide Holds;
    assert forall i | 0 <= i < |conds| :: conds[i] == out[|conds| - 1 - i];
  }

  /** But a comparison that a failing condition guards comes first in the copy. */
  lemma DuplicateUnguards(w: World, phase: Phase, file: string, name: string, c: Comparison)
    requires file !in w.files && name in w.defines && w.defines[name] == ""
    ensures var a, b := Condition(false, FileExists(file)), Condition(false, Value(name, c));
      Guarded(w, phase, [a, b]) && !Guarded(w, phase, [b, a])
  {
    var a, b := Condition(false, FileExists(file)), Condition(false, Value(name, c));
    assert !Holds(w, phase, [a, b][0]);
    assert NoValue(w, [b, a][0].test);
  }

  // ---------------------------------------------------------------------
  // Pruning, on values.

  datatype Entry = Entry(name: string, conds: seq<Condition>, items: seq<Entry>)

  /** The entries, at every depth, whose conditions hold in each of the phases. */
  function Pruned(w: World, phases: set<Phase>, es: seq<Entry>): seq<Entry>
    decreases es
  {
    if es == [] then []
    else
      var rest := Pruned(w, phases, es[1..]);
      if forall p | p in phases :: AllHold(w, p, es[0].conds)
      then [es[0].(items := Pruned(w, phases, es[0].items))] + rest
      else rest
  }

  /** Pruning goes entry by entry, in order: an entry stays, with its name and conditions and its items pruned, or
      goes, with all its items. */
  lemma {:induction false} PrunedIs(w: World, phases: set<Phase>, a: seq<Entry>, e: Entry, b: seq<Entry>)
    ensures Pruned(w, phases, a + [e] + b) ==
      Pruned(w, phases, a) +
      (if forall p, c | p in phases && c in e.conds :: Passes(w, p, c.test) != c.negative
       then [Entry(e.name, e.conds, Pruned(w, phases, e.items))] else []) +
      Pruned(w, phases, b)
    decreases |a|
  {
    hide Passes;
    var all := a + [e] + b;
    if a == [] {
      assert all[0] == e && all[1..] == b;
      forall p | p in phases
        ensures AllHold(w, p, e.conds) <==> forall c | c in e.conds :: Passes(w, p, c.test) != c.negative
      {
        AllHoldIs(w, p, e.conds);
      }
    } else {
      assert all[0] == a[0] && all[1..] == a[1..] + [e] + b;
      PrunedIs(w, phases, a[1..], e, b);
    }
  }

  lemma AllHoldIs(w: World, phase: Phase, conds: seq<Condition>)
    ensures AllHold(w, phase, conds) <==> forall c | c in conds :: Passes(w, phase, c.test) != c.negative
  {
    hide Passes;
    if AllHold(w, phase, conds) {
      forall c | c in conds
        ensures Passes(w, phase, c.test) != c.negative
      {
        var k :| 0 <= k < |conds| && conds[k] == c;
        assert Holds(w, phase, conds[k]);
      }
    }
  }

  /** Pruning twice is pruning once by both sets of phases; in particular pruning is idempotent. */
  lemma {:induction false} PrunedTwice(w: World, ps: set<Phase>, qs: set<Phase>, es: seq<Entry>)
    ensures Pruned(w, qs, Pruned(w, ps, es)) == Pruned(w, ps + qs, es)
    decreases es
  {
    hide AllHold;
    if es != [] {
      PrunedTwice(w, ps, qs, es[0].items);
      PrunedTwice(w, ps, qs, es[1..]);
      var first := Pruned(w, ps, es);
      if forall p | p in ps :: AllHold(w, p, es[0].conds) {
        assert first[1..] == Pruned(w, ps, es[1..]);
      }
    }
  }

  lemma Idempotent(w: World, phase: Phase, es: seq<Entry>)
    ensures Pruned(w, {phase}, Pruned(w, {phase}, es)) == Pruned(w, {phase}, es)
  {
    PrunedTwice(w, {phase}, {phase}, es);
    assert {phase} + {phase} == {phase};
  }

  // ---------------------------------------------------------------------
  // Three phases against the last one alone.

  /** A condition that an early phase rejects although the module phase accepts it. */
  predicate RejectedEarly(w: World, c: Condition) {
    if c.negative then c.test.ModuleLoaded? || c.test.ModuleVersion?
    else c.test.ModuleLoaded? && c.test.name in w.blacklisted
  }

  /** No entry that the module phase keeps carries such a condition. */
  predicate EarlySafe(w: World, es: seq<Entry>)
    decreases es
  {
    forall i | 0 <= i < |es| && AllHold(w, Modules, es[i].conds) ::
      (forall c | c in es[i].conds :: !RejectedEarly(w, c)) && EarlySafe(w, es[i].items)
  }

  lemma EarlyAgrees(w: World, conds: seq<Condition>)
    requires AllHold(w, Modules, conds)
    ensures AllHold(w, Initial, conds) && AllHold(w, Secondary, conds)
      <==> forall c | c in conds :: !RejectedEarly(w, c)
  {
    forall c | c in conds
      ensures Holds(w, Initial, c) && Holds(w, Secondary, c) <==> !RejectedEarly(w, c)
    {
      assert Holds(w, Modules, c);
    }
  }

  lemma {:induction false} FewerPhasesKeepMore(w: World, ps: set<Phase>, qs: set<Phase>, es: seq<Entry>)
    requires qs <= ps
    ensures |Pruned(w, ps, es)| <= |Pruned(w, qs, es)|
  {
    hide AllHold;
    if es != [] {
      FewerPhasesKeepMore(w, ps, qs, es[1..]);
    }
  }

  const ALL_PHASES := {Initial, Secondary, Modules}

  lemma AllPhases(w: World, conds: seq<Condition>)
    ensures (forall p | p in ALL_PHASES :: AllHold(w, p, conds))
      <==> AllHold(w, Modules, conds) && forall c | c in conds :: !RejectedEarly(w, c)
  {
    hide AllHold, RejectedEarly;
    if AllHold(w, Modules, conds) {
      EarlyAgrees(w, conds);
    }
  }

  lemma EarlySafeCons(w: World, es: seq<Entry>)
    requires es != []
    ensures EarlySafe(w, es) <==>
      && EarlySafe(w, es[1..])
      && (AllHold(w, Modules, es[0].conds) ==>
            (forall c | c in es[0].conds :: !RejectedEarly(w, c)) && EarlySafe(w, es[0].items))
  {
    hide AllHold, RejectedEarly;
    assert forall i | 0 <= i < |es[1..]| :: es[1..][i] == es[i + 1];
    assert forall i | 0 < i < |es| :: es[i] == es[1..][i - 1];
  }

  /** All three phases together keep what the module phase alone keeps, if and only if no entry that the
      module phase keeps has a condition that an early phase rejects. */
  lemma {:induction false} ThreePhases(w: World, es: seq<Entry>)
    ensures Pruned(w, ALL_PHASES, es) == Pruned(w, {Modules}, es) <==> EarlySafe(w, es)
    decreases es
  {
    hide AllHold, RejectedEarly, EarlySafe;
    if es != [] {
      ThreePhases(w, es[0].items);
      ThreePhases(w, es[1..]);
      AllPhases(w, es[0].conds);
      EarlySafeCons(w, es);
      FewerPhasesKeepMore(w, ALL_PHASES, {Modules}, es[1..]);
      var all, one := Pruned(w, ALL_PHASES, es), Pruned(w, {Modules}, es);
      if AllHold(w, Modules, es[0].conds) {
        assert one[1..] == Pruned(w, {Modules}, es[1..]);
        if forall c | c in es[0].conds :: !RejectedEarly(w, c) {
          assert all[1..] == Pruned(w, ALL_PHASES, es[1..]);
        }
      }
    } else {
      EarlySafeEmpty(w);
    }
  }

  lemma EarlySafeEmpty(w: World)
    ensures EarlySafe(w, [])
  {
  }

  /** The phases one after the other, the way the configuration is loaded. */
  lemma PhasesInOrder(w: World, es: seq<Entry>)
    ensures var r := Pruned(w, {Modules}, Pruned(w, {Secondary}, Pruned(w, {Initial}, es)));
      && r == Pruned(w, ALL_PHASES, es)
      && (r == Pruned(w, {Modules}, es) <==> EarlySafe(w, es))
  {
    hide Pruned, EarlySafe;
    PrunedTwice(w, {Initial}, {Secondary}, es);
    PrunedTwice(w, {Initial} + {Secondary}, {Modules}, es);
    assert {Initial} + {Secondary} + {Modules} == ALL_PHASES;
    ThreePhases(w, es);
  }

  /** Without negated module conditions, and with no loaded module blacklisted, nothing is lost early. */
  lemma {:induction false} NotNegated(w: World, es: seq<Entry>)
    requires w.loaded !! w.blacklisted
    requires NoNegatedModules(es)
    ensures EarlySafe(w, es)
    decreases es
  {
    forall i | 0 <= i < |es| && AllHold(w, Modules, es[i].conds)
      ensures (forall c | c in es[i].conds :: !RejectedEarly(w, c)) && EarlySafe(w, es[i].items)
    {
      NotNegated(w, es[i].items);
      assert forall c | c in es[i].conds :: Holds(w, Modules, c);
    }
  }

  predicate NoNegatedModules(es: seq<Entry>)
    decreases es
  {
    forall i | 0 <= i < |es| ::
      && (forall c | c in es[i].conds && c.negative :: !c.test.ModuleLoaded? && !c.test.ModuleVersion?)
      && NoNegatedModules(es[i].items)
  }

  /** `@if !module-loaded("x")` around an entry: with x not loaded the module phase would keep the
      entry, but the initial phase has already dropped it. */
  lemma NegatedModuleIsLost(w: World, x: string)
    requires x !in w.loaded
    ensures var es := [Entry("e", [Condition(true, ModuleLoaded(x))], [])];
      Pruned(w, {Modules}, es) == es && Pruned(w, {Initial}, es) == []
  {
    var c := Condition(true, ModuleLoaded(x));
    assert AllHold(w, Modules, [c]);
    assert !Holds(w, Initial, [c][0]);
  }
}
