/**
 The configuration tree as it lies in memory: entries linked through `next`, each with the list of its
 own items, pruned in place (`preprocessor_resolve_conditionals_ce` in `src/conf_preprocessor.c`).
 */
module ConfigTree {
  import opened Conditionals
  import Seqs

  class ConfigEntry {
    const name: string
    const conds: seq<Condition>
    var next: ConfigEntry?
    var items: ConfigEntry?

    constructor (name: string, conds: seq<Condition>)
      ensures this.name == name && this.conds == conds && next == null && items == null
    {
      this.name, this.conds, next, items := name, conds, null, null;
    }
  }

  /** The shape of a list: its entries in order, each with the shape of its items. */
  datatype Shape = Shape(ce: ConfigEntry, kids: seq<Shape>)

  function ToEntry(n: Shape): Entry
    decreases n
  {
    Entry(n.ce.name, n.ce.conds, ToTree(n.kids))
  }

  function ToTree(ns: seq<Shape>): seq<Entry>
    decreases ns
  {
    if ns == [] then [] else [ToEntry(ns[0])] + ToTree(ns[1..])
  }

  ghost function Own(n: Shape): set<ConfigEntry>
    decreases n
  {
    {n.ce} + Objs(n.kids)
  }

  ghost function Objs(ns: seq<Shape>): set<ConfigEntry>
    decreases ns
  {
    set i, x | 0 <= i < |ns| && x in Own(ns[i]) :: x
  }

  /** No entry occurs twice. */
  ghost predicate NoAlias(ns: seq<Shape>)
    decreases ns
  {
    && (forall i, j | 0 <= i < j < |ns| :: Own(ns[i]) !! Own(ns[j]))
    && (forall i | 0 <= i < |ns| :: ns[i].ce !in Objs(ns[i].kids) && NoAlias(ns[i].kids))
  }

  ghost function HeadOf(ns: seq<Shape>, i: nat): ConfigEntry? {
    if i < |ns| then ns[i].ce else null
  }

  /** The entries are linked in the order of the shape, at every level. */
  ghost predicate Linked(head: ConfigEntry?, ns: seq<Shape>)
    reads Objs(ns)
    decreases ns
  {
    && head == HeadOf(ns, 0)
    && forall i | 0 <= i < |ns| ::
         ns[i].ce in Own(ns[i]) && Objs(ns[i].kids) <= Own(ns[i]) <= Objs(ns) &&
         ns[i].ce.next == HeadOf(ns, i + 1) && Linked(ns[i].ce.items, ns[i].kids)
  }

  // ---------------------------------------------------------------------
  // Shapes of lists that lose or replace an entry.

  ghost function Cut(ns: seq<Shape>, k: nat): seq<Shape>
    requires k < |ns|
  {
    ns[..k] + ns[k + 1..]
  }

  lemma CutAt(ns: seq<Shape>, k: nat)
    requires k < |ns|
    ensures |Cut(ns, k)| == |ns| - 1
    ensures forall i | 0 <= i < k :: Cut(ns, k)[i] == ns[i]
    ensures forall i | k <= i < |ns| - 1 :: Cut(ns, k)[i] == ns[i + 1]
  {
  }

  lemma CutObjs(ns: seq<Shape>, k: nat)
    requires k < |ns| && NoAlias(ns)
    ensures NoAlias(Cut(ns, k))
    ensures Objs(ns) == Objs(Cut(ns, k)) + Own(ns[k]) && Objs(Cut(ns, k)) !! Own(ns[k])
  {
    CutNoAlias(ns, k);
    CutUnion(ns, k);
    CutApart(ns, k);
  }

  lemma CutNoAlias(ns: seq<Shape>, k: nat)
    requires k < |ns| && NoAlias(ns)
    ensures NoAlias(Cut(ns, k))
  {
    hide Own, Objs;
    CutAt(ns, k);
  }

  lemma CutUnion(ns: seq<Shape>, k: nat)
    requires k < |ns|
    ensures Objs(ns) == Objs(Cut(ns, k)) + Own(ns[k])
  {
    hide Own;
    CutAt(ns, k);
    var c := Cut(ns, k);
    forall x | x in Objs(ns)
      ensures x in Objs(c) || x in Own(ns[k])
    {
      var i :| 0 <= i < |ns| && x in Own(ns[i]);
      if i < k {
        assert x in Own(c[i]);
      } else if i > k {
        assert x in Own(c[i - 1]);
      }
    }
  }

  lemma CutApart(ns: seq<Shape>, k: nat)
    requires k < |ns| && NoAlias(ns)
    ensures Objs(Cut(ns, k)) !! Own(ns[k])
  {
    hide Own;
    CutAt(ns, k);
    var c := Cut(ns, k);
    forall x | x in Objs(c)
      ensures x !in Own(ns[k])
    {
      var i :| 0 <= i < |c| && x in Own(c[i]);
      assert c[i] == ns[if i < k then i else i + 1];
    }
  }

  lemma ReplaceObjs(ns: seq<Shape>, k: nat, n: Shape)
    requires k < |ns| && NoAlias(ns)
    requires n.ce !in Objs(n.kids) && NoAlias(n.kids) && Own(n) <= Own(ns[k])
    ensures NoAlias(ns[k := n])
    ensures Objs(ns) == Objs(ns[k := n]) + Own(ns[k])
    ensures Objs(ns[k := n]) !! Own(ns[k]) - Own(n)
  {
    hide Own;
    var c := ns[k := n];
    forall x | x in Objs(ns)
      ensures x in Objs(c) || x in Own(ns[k])
    {
      var i :| 0 <= i < |ns| && x in Own(ns[i]);
      if i != k {
        assert x in Own(c[i]);
      }
    }
    forall x | x in Objs(c)
      ensures x in Objs(ns)
    {
      var i :| 0 <= i < |c| && x in Own(c[i]);
      assert x in Own(ns[i]);
    }
  }

  lemma OwnParts(ns: seq<Shape>, i: nat)
    requires i < |ns|
    ensures ns[i].ce in Own(ns[i]) && Objs(ns[i].kids) <= Own(ns[i]) <= Objs(ns)
  {
  }

  /** Entry k lies in no other entry's part of the tree, and not among its own items. */
  lemma Separate(cur: seq<Shape>, k: nat)
    requires k < |cur| && NoAlias(cur)
    ensures forall j | 0 <= j < |cur| :: cur[k].ce !in Objs(cur[j].kids)
    ensures forall j | 0 <= j < |cur| && j != k :: cur[j].ce != cur[k].ce && Own(cur[j]) !! Own(cur[k])
  {
    hide Objs, Own;
    forall j | 0 <= j < |cur|
      ensures cur[k].ce !in Objs(cur[j].kids) && (j != k ==> cur[j].ce != cur[k].ce)
    {
      OwnParts(cur, j);
      OwnParts(cur, k);
    }
  }

  /** The list with entry k bridged over. */
  lemma CutLinked(cur: seq<Shape>, k: nat)
    requires k < |cur|
    requires forall j | 0 <= j < |cur| ::
      && Linked(cur[j].ce.items, cur[j].kids)
      && cur[j].ce.next == if j == k - 1 then HeadOf(cur, k + 1) else HeadOf(cur, j + 1)
    ensures Linked(HeadOf(Cut(cur, k), 0), Cut(cur, k))
  {
    hide Own, Objs, Cut;
    CutAt(cur, k);
    var c := Cut(cur, k);
    forall i | 0 <= i < |c|
      ensures c[i].ce in Own(c[i]) && Objs(c[i].kids) <= Own(c[i]) <= Objs(c)
      ensures c[i].ce.next == HeadOf(c, i + 1) && Linked(c[i].ce.items, c[i].kids)
    {
      OwnParts(c, i);
      assert c[i] == cur[if i < k then i else i + 1];
    }
  }

  /** The list whose entry k got a new list of items. */
  lemma ReplaceLinked(cur: seq<Shape>, k: nat, kids: seq<Shape>)
    requires k < |cur| && Linked(cur[k].ce.items, kids)
    requires forall j | 0 <= j < |cur| ::
      && (j != k ==> Linked(cur[j].ce.items, cur[j].kids))
      && cur[j].ce.next == HeadOf(cur, j + 1)
    ensures Linked(HeadOf(cur, 0), cur[k := Shape(cur[k].ce, kids)])
  {
    hide Own, Objs;
    var c := cur[k := Shape(cur[k].ce, kids)];
    forall i | 0 <= i < |c|
      ensures c[i].ce in Own(c[i]) && Objs(c[i].kids) <= Own(c[i]) <= Objs(c)
      ensures c[i].ce.next == HeadOf(c, i + 1) && Linked(c[i].ce.items, c[i].kids)
    {
      OwnParts(c, i);
    }
  }

  // ---------------------------------------------------------------------
  // How far pruning has come: the first k entries are done.

  ghost predicate Progress(w: World, phase: Phase, cur: seq<Shape>, k: nat, ns: seq<Shape>) {
    && k <= |cur|
    && ToTree(cur[..k]) + Pruned(w, {phase}, ToTree(cur[k..])) == Pruned(w, {phase}, ToTree(ns))
  }

  lemma {:induction false} TreeAppend(ns: seq<Shape>, n: Shape)
    ensures ToTree(ns + [n]) == ToTree(ns) + [ToEntry(n)]
  {
    if ns != [] {
      TreeAppend(ns[1..], n);
      assert (ns + [n])[1..] == ns[1..] + [n];
    }
  }

  lemma PruneFirst(w: World, phase: Phase, ns: seq<Shape>)
    requires ns != []
    ensures Pruned(w, {phase}, ToTree(ns)) ==
      (if AllHold(w, phase, ns[0].ce.conds)
       then [Entry(ns[0].ce.name, ns[0].ce.conds, Pruned(w, {phase}, ToTree(ns[0].kids)))] else [])
      + Pruned(w, {phase}, ToTree(ns[1..]))
  {
    hide AllHold;
    var t := ToTree(ns);
    assert t[0] == ToEntry(ns[0]) && t[1..] == ToTree(ns[1..]);
    Seqs.EmptyUnits(Pruned(w, {phase}, t[1..]));
  }

  lemma EntryDropped(w: World, phase: Phase, cur: seq<Shape>, k: nat, ns: seq<Shape>)
    requires k < |cur| && Progress(w, phase, cur, k, ns) && !AllHold(w, phase, cur[k].ce.conds)
    ensures Progress(w, phase, Cut(cur, k), k, ns)
  {
    hide ToTree, Pruned, AllHold;
    PruneFirst(w, phase, cur[k..]);
    Seqs.EmptyUnits(Pruned(w, {phase}, ToTree(cur[k..][1..])));
    assert cur[k..][1..] == cur[k + 1..];
    var c := Cut(cur, k);
    assert c[..k] == cur[..k] && c[k..] == cur[k + 1..];
  }

  lemma EntryKept(w: World, phase: Phase, cur: seq<Shape>, k: nat, kids: seq<Shape>, ns: seq<Shape>)
    requires k < |cur| && Progress(w, phase, cur, k, ns) && AllHold(w, phase, cur[k].ce.conds)
    requires ToTree(kids) == Pruned(w, {phase}, ToTree(cur[k].kids))
    ensures Progress(w, phase, cur[k := Shape(cur[k].ce, kids)], k + 1, ns)
  {
    hide ToTree, Pruned, AllHold;
    PruneFirst(w, phase, cur[k..]);
    assert cur[k..][1..] == cur[k + 1..];
    var n := Shape(cur[k].ce, kids);
    var c := cur[k := n];
    TreeAppend(cur[..k], n);
    assert c[..k + 1] == cur[..k] + [n] && c[k + 1..] == cur[k + 1..];
    Seqs.Assoc(ToTree(cur[..k]), [ToEntry(n)], Pruned(w, {phase}, ToTree(cur[k + 1..])));
  }

  lemma ProgressStart(w: World, phase: Phase, ns: seq<Shape>)
    ensures Progress(w, phase, ns, 0, ns)
  {
    assert ns[0..] == ns;
    Seqs.EmptyUnits(Pruned(w, {phase}, ToTree(ns)));
  }

  lemma ProgressEnd(w: World, phase: Phase, cur: seq<Shape>, ns: seq<Shape>)
    requires Progress(w, phase, cur, |cur|, ns)
    ensures ToTree(cur) == Pruned(w, {phase}, ToTree(ns))
  {
    assert cur[..|cur|] == cur;
    Seqs.EmptyUnits(ToTree(cur));
  }

  // ---------------------------------------------------------------------
  // The operation.

  lemma LinkedAt(head: ConfigEntry?, ns: seq<Shape>, i: nat)
    requires Linked(head, ns) && i < |ns|
    ensures ns[i].ce in Objs(ns) && Objs(ns[i].kids) <= Objs(ns)
    ensures ns[i].ce.next == HeadOf(ns, i + 1) && Linked(ns[i].ce.items, ns[i].kids)
  {
    OwnParts(ns, i);
  }

  lemma KidsUnaliased(ns: seq<Shape>, i: nat)
    requires NoAlias(ns) && i < |ns|
    ensures NoAlias(ns[i].kids)
  {
  }

  lemma CutTail(cur: seq<Shape>, k: nat)
    requires k < |cur|
    ensures |Cut(cur, k)| == |cur| - 1 && Cut(cur, k)[k..] == cur[k..][1..]
    ensures HeadOf(Cut(cur, k), k) == HeadOf(cur, k + 1)
    ensures k > 0 ==> Cut(cur, k)[k - 1] == cur[k - 1]
  {
  }

  lemma ReplaceTail(cur: seq<Shape>, k: nat, n: Shape)
    requires k < |cur|
    ensures cur[k := n][k + 1..] == cur[k..][1..]
    ensures HeadOf(cur[k := n], k + 1) == HeadOf(cur, k + 1)
    ensures n.ce == cur[k].ce ==> HeadOf(cur[k := n], 0) == HeadOf(cur, 0)
  {
  }

  /** Takes entry k out of the list: a new head, or its predecessor linked past it. */
  method DropEntry(w: World, phase: Phase, head: ConfigEntry?, ce: ConfigEntry, prev: ConfigEntry?,
                   next: ConfigEntry?, ghost cur: seq<Shape>, ghost k: nat, ghost ns: seq<Shape>, ghost m: nat,
                   ghost freed: set<ConfigEntry>)
    returns (newHead: ConfigEntry?)
    requires Walking(w, phase, ns, m, head, cur, k, freed) && k < |cur| && m < |ns|
    requires ce == cur[k].ce && next == HeadOf(cur, k + 1) && !AllHold(w, phase, ce.conds)
    requires prev == if k == 0 then null else cur[k - 1].ce
    modifies if prev == null then {} else {prev}
    ensures Walking(w, phase, ns, m + 1, newHead, Cut(cur, k), k, freed + Own(cur[k]))
  {
    hide Linked, NoAlias, Own, Objs, Cut, AllHold, Progress;
    Separate(cur, k);
    CutAt(cur, k);
    forall j | 0 <= j < |cur|
      ensures Linked(cur[j].ce.items, cur[j].kids) && cur[j].ce.next == HeadOf(cur, j + 1)
    {
      LinkedAt(head, cur, j);
    }
    if ce == head {
      newHead := next;
    } else {
      Separate(cur, k - 1);
      prev.next := next;
      newHead := head;
    }
    CutLinked(cur, k);
    WalkDropped(w, phase, ns, m, newHead, cur, k, freed);
  }

  /** Prunes the items of entry k. */
  method ResolveItems(w: World, ce: ConfigEntry, phase: Phase, ghost head: ConfigEntry?, ghost cur: seq<Shape>,
                      ghost k: nat, ghost ns: seq<Shape>, ghost m: nat, ghost freed: set<ConfigEntry>)
    returns (ghost kids: seq<Shape>, ghost gone: set<ConfigEntry>)
    requires Walking(w, phase, ns, m, head, cur, k, freed) && k < |cur| && m < |ns|
    requires ce == cur[k].ce && AllHold(w, phase, ce.conds)
    modifies Own(cur[k])
    ensures Walking(w, phase, ns, m + 1, head, cur[k := Shape(ce, kids)], k + 1, freed + gone)
    ensures ce.next == old(ce.next)
    decreases cur[k]
  {
    hide Linked, NoAlias, Own, Objs, Pruned, ToTree, AllHold, Progress;
    Separate(cur, k);
    forall j | 0 <= j < |cur|
      ensures Linked(cur[j].ce.items, cur[j].kids) && cur[j].ce.next == HeadOf(cur, j + 1)
      ensures cur[j].ce in Own(cur[j]) && Objs(cur[j].kids) <= Own(cur[j])
    {
      LinkedAt(head, cur, j);
      OwnParts(cur, j);
    }
    KidsUnaliased(cur, k);
    assert forall j | 0 <= j < |cur| :: allocated(Objs(cur[j].kids));
    var items;
    items, kids, gone := ResolveConditionals(w, ce.items, phase, cur[k].kids);
    ReplacedItems(cur, k, kids, gone);
    assert ce !in Objs(kids);
    ce.items := items;
    assert Linked(ce.items, kids);
    ReplaceLinked(cur, k, kids);
    WalkKept(w, phase, ns, m, head, cur, k, freed, kids, gone);
  }

  lemma ReplacedItems(cur: seq<Shape>, k: nat, kids: seq<Shape>, gone: set<ConfigEntry>)
    requires k < |cur| && NoAlias(cur) && NoAlias(kids)
    requires Objs(cur[k].kids) == Objs(kids) + gone && Objs(kids) !! gone
    ensures var c := cur[k := Shape(cur[k].ce, kids)];
      NoAlias(c) && Objs(cur) == Objs(c) + gone && Objs(c) !! gone
  {
    hide Objs;
    var n := Shape(cur[k].ce, kids);
    assert cur[k].ce !in Objs(cur[k].kids);
    assert Own(cur[k]) == Own(n) + gone && Own(n) !! gone;
    ReplaceObjs(cur, k, n);
    OwnParts(cur[k := n], k);
  }

  /** The state of the walk: the first k entries of `cur` are done, the others are those of `ns` from
      m on, and `freed` has left the list. */
  ghost predicate Walking(w: World, phase: Phase, ns: seq<Shape>, m: nat,
                          head: ConfigEntry?, cur: seq<Shape>, k: nat, freed: set<ConfigEntry>)
    reads Objs(cur)
  {
    && k <= |cur| && m <= |ns| && cur[k..] == ns[m..]
    && head == HeadOf(cur, 0) && Linked(head, cur) && NoAlias(cur)
    && Objs(ns) == Objs(cur) + freed && Objs(cur) !! freed
    && Progress(w, phase, cur, k, ns)
  }

  lemma WalkStart(w: World, phase: Phase, ns: seq<Shape>, head: ConfigEntry?)
    requires Linked(head, ns) && NoAlias(ns)
    ensures head == HeadOf(ns, 0) && Walking(w, phase, ns, 0, head, ns, 0, {})
  {
    hide Progress, NoAlias, Objs;
    ProgressStart(w, phase, ns);
  }

  lemma WalkEnd(w: World, phase: Phase, ns: seq<Shape>, m: nat,
                head: ConfigEntry?, cur: seq<Shape>, k: nat, freed: set<ConfigEntry>)
    requires Walking(w, phase, ns, m, head, cur, k, freed) && HeadOf(cur, k) == null
    ensures Linked(head, cur) && NoAlias(cur) && Objs(ns) == Objs(cur) + freed && Objs(cur) !! freed
    ensures ToTree(cur) == Pruned(w, {phase}, ToTree(ns))
  {
    hide Progress, Linked, NoAlias, Objs;
    ProgressEnd(w, phase, cur, ns);
  }

  lemma WalkAt(w: World, phase: Phase, ns: seq<Shape>, m: nat,
               head: ConfigEntry?, cur: seq<Shape>, k: nat, freed: set<ConfigEntry>)
    requires Walking(w, phase, ns, m, head, cur, k, freed) && k < |cur|
    ensures m < |ns| && cur[k] == ns[m] && head == HeadOf(cur, 0)
    ensures cur[k].ce.next == HeadOf(cur, k + 1) && Own(cur[k]) <= Objs(ns) && Objs(cur) <= Objs(ns)
    ensures k > 0 ==> cur[k - 1].ce in Objs(ns)
  {
    hide Progress, Linked, NoAlias, Objs, Own;
    assert cur[k] == cur[k..][0];
    LinkedAt(head, cur, k);
    OwnParts(cur, k);
    if k > 0 {
      LinkedAt(head, cur, k - 1);
    }
  }

  lemma WalkDropped(w: World, phase: Phase, ns: seq<Shape>, m: nat,
                    head: ConfigEntry?, cur: seq<Shape>, k: nat, freed: set<ConfigEntry>)
    requires k < |cur| && m < |ns| && cur[k..] == ns[m..] && NoAlias(cur)
    requires Objs(ns) == Objs(cur) + freed && Objs(cur) !! freed
    requires Progress(w, phase, cur, k, ns) && !AllHold(w, phase, cur[k].ce.conds)
    requires head == HeadOf(Cut(cur, k), 0) && Linked(head, Cut(cur, k))
    ensures Walking(w, phase, ns, m + 1, head, Cut(cur, k), k, freed + Own(cur[k]))
  {
    hide Progress, Linked, NoAlias, Objs, Own, Cut, AllHold;
    CutObjs(cur, k);
    EntryDropped(w, phase, cur, k, ns);
    CutTail(cur, k);
  }

  lemma WalkKept(w: World, phase: Phase, ns: seq<Shape>, m: nat, head: ConfigEntry?, cur: seq<Shape>, k: nat,
                 freed: set<ConfigEntry>, kids: seq<Shape>, gone: set<ConfigEntry>)
    requires k < |cur| && m < |ns| && cur[k..] == ns[m..] && head == HeadOf(cur, 0)
    requires Objs(ns) == Objs(cur) + freed && Objs(cur) !! freed
    requires Progress(w, phase, cur, k, ns) && AllHold(w, phase, cur[k].ce.conds)
    requires ToTree(kids) == Pruned(w, {phase}, ToTree(cur[k].kids))
    requires var c := cur[k := Shape(cur[k].ce, kids)];
      && Linked(head, c) && NoAlias(c) && Objs(cur) == Objs(c) + gone && Objs(c) !! gone
    ensures Walking(w, phase, ns, m + 1, head, cur[k := Shape(cur[k].ce, kids)], k + 1, freed + gone)
  {
    hide Progress, Linked, NoAlias, Objs, Own, AllHold, ToTree, Pruned;
    EntryKept(w, phase, cur, k, kids, ns);
    ReplaceTail(cur, k, Shape(cur[k].ce, kids));
  }

  /** preprocessor_resolve_conditionals_ce: the list is relinked in place into the list of the pruned
      tree; what is left out is freed, once. */
  method ResolveConditionals(w: World, head: ConfigEntry?, phase: Phase, ghost ns: seq<Shape>)
    returns (newHead: ConfigEntry?, ghost cur: seq<Shape>, ghost freed: set<ConfigEntry>)
    requires Linked(head, ns) && NoAlias(ns)
    modifies Objs(ns)
    ensures Linked(newHead, cur) && NoAlias(cur)
    ensures ToTree(cur) == Pruned(w, {phase}, ToTree(ns))
    ensures Objs(ns) == Objs(cur) + freed && Objs(cur) !! freed
    decreases ns
  {
    hide Linked, NoAlias, Own, Objs, Pruned, ToTree, AllHold, Progress, Cut, Walking;
    newHead, cur, freed := head, ns, {};
    ghost var k: nat, m: nat := 0, 0;
    var ce, prev: ConfigEntry? := head, null;
    WalkStart(w, phase, ns, head);
    while ce != null
      invariant k <= |cur| && m <= |ns|
      invariant ce == HeadOf(cur, k) && prev == (if k == 0 then null else cur[k - 1].ce)
      invariant Walking(w, phase, ns, m, newHead, cur, k, freed)
      decreases |ns| - m
    {
      WalkAt(w, phase, ns, m, newHead, cur, k, freed);
      var next := ce.next;
      assert allocated(Objs(cur));
      var keep, _ := ResolveIf(w, ce.conds, phase);
      if !keep {
        newHead := DropEntry(w, phase, newHead, ce, prev, next, cur, k, ns, m, freed);
        CutTail(cur, k);
        freed := freed + Own(cur[k]);
        cur := Cut(cur, k);
      } else {
        ghost var kids, gone := ResolveItems(w, ce, phase, newHead, cur, k, ns, m, freed);
        ReplaceTail(cur, k, Shape(ce, kids));
        prev := ce;
        freed := freed + gone;
        cur, k := cur[k := Shape(ce, kids)], k + 1;
      }
      m := m + 1;
      ce := next;
    }
    WalkEnd(w, phase, ns, m, newHead, cur, k, freed);
  }

  /** The three phases, the way the configuration is loaded, on the tree in memory. */
  method ResolvePhases(w: World, head: ConfigEntry?, ghost ns: seq<Shape>)
    returns (newHead: ConfigEntry?, ghost cur: seq<Shape>)
    requires Linked(head, ns) && NoAlias(ns)
    modifies Objs(ns)
    ensures Linked(newHead, cur) && NoAlias(cur) && Objs(cur) <= Objs(ns)
    ensures ToTree(cur) == Pruned(w, ALL_PHASES, ToTree(ns))
    ensures ToTree(cur) == Pruned(w, {Modules}, ToTree(ns)) <==> EarlySafe(w, ToTree(ns))
  {
    hide Linked, NoAlias, Objs, Pruned, ToTree, EarlySafe;
    ghost var freed;
    newHead, cur, freed := ResolveConditionals(w, head, Initial, ns);
    newHead, cur, freed := ResolveConditionals(w, newHead, Secondary, cur);
    newHead, cur, freed := ResolveConditionals(w, newHead, Modules, cur);
    PhasesInOrder(w, ToTree(ns));
  }
}
