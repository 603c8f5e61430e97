/**
 The circular doubly linked list of `include/list.h`. A list is its head and the sequence of its
 entries; every operation is proved to perform the operation on that sequence.
 */
module Ring {
  import opened Seqs

  class Node {
    var next: Node
    var prev: Node
    const owner: object?  // the struct that this list_head is a member of

    /** INIT_LIST_HEAD, for a new node. */
    constructor (owner: object?)
      ensures next == prev == this && this.owner == owner
    {
      next, prev := this, this;
      this.owner := owner;
    }
  }

  ghost predicate Link(x: Node, y: Node)
    reads x, y
  {
    x.next == y && y.prev == x
  }

  /** The node before position j of s, where x comes before s. */
  ghost function Before(x: Node, s: seq<Node>, j: nat): Node
    requires j <= |s|
  {
    if j == 0 then x else s[j - 1]
  }

  ghost function Last(x: Node, s: seq<Node>): Node {
    Before(x, s, |s|)
  }

  /** From x one gets through all of s, and back. */
  ghost predicate Path(x: Node, s: seq<Node>)
    reads x, s
  {
    forall j | 0 <= j < |s| :: Link(Before(x, s, j), s[j])
  }

  /** The list with this head has the entries s: they are linked in a circle in that order. */
  ghost predicate Ring(head: Node, s: seq<Node>)
    reads head, s
  {
    head !in s && NoDup(s) && Path(head, s + [head])
  }

  lemma PathConcat(x: Node, a: seq<Node>, b: seq<Node>)
    ensures Path(x, a + b) <==> Path(x, a) && Path(Last(x, a), b)
    ensures Last(x, a + b) == Last(Last(x, a), b)
  {
    var s := a + b;
    assert forall j | 0 <= j < |a| :: s[j] == a[j] && Before(x, s, j) == Before(x, a, j);
    assert forall j | 0 <= j < |b| :: s[|a| + j] == b[j] && Before(x, s, |a| + j) == Before(Last(x, a), b, j);
    if Path(x, a) && Path(Last(x, a), b) {
      forall j | 0 <= j < |s|
        ensures Link(Before(x, s, j), s[j])
      {
        if j >= |a| {
          assert s[j] == b[j - |a|];
        }
      }
    }
  }

  predicate Disjoint(a: seq<Node>, b: seq<Node>) {
    forall i, j | 0 <= i < |a| && 0 <= j < |b| :: a[i] != b[j]
  }

  lemma NoDupConcat(a: seq<Node>, b: seq<Node>)
    ensures NoDup(a + b) <==> NoDup(a) && NoDup(b) && Disjoint(a, b)
  {
    var s := a + b;
    assert forall j | 0 <= j < |a| :: s[j] == a[j];
    assert forall j | 0 <= j < |b| :: s[|a| + j] == b[j];
    if NoDup(s) {
      forall i, j | 0 <= i < |a| && 0 <= j < |b|
        ensures a[i] != b[j]
      {
        assert s[i] != s[|a| + j];
      }
    } else {
      var i, k :| 0 <= i < k < |s| && s[i] == s[k];
      if i < |a| <= k {
        assert a[i] == b[k - |a|];
      } else if |a| <= i {
        assert b[i - |a|] == b[k - |a|];
      } else {
        assert a[i] == a[k];
      }
    }
  }

  /** next and prev undo each other on every node of a list. */
  lemma MutualInverses(head: Node, s: seq<Node>, x: Node)
    requires Ring(head, s) && x in s + [head]
    ensures x.next in s + [head] && x.prev in s + [head] && x.next.prev == x && x.prev.next == x
  {
    hide NoDup;
    var r := s + [head];
    var i: nat :| i < |r| && r[i] == x;
    var k := if i + 1 < |r| then i + 1 else 0;
    InverseAt(head, s, i);
    InverseAt(head, s, k);
  }

  lemma InverseAt(head: Node, s: seq<Node>, i: nat)
    requires Ring(head, s) && i <= |s|
    ensures var r := s + [head]; var y := if i == 0 then head else r[i - 1];
      y in r && r[i].prev == y && y.next == r[i]
  {
    hide NoDup;
    var r := s + [head];
    assert r[|s|] == head;
    assert Link(Before(head, r, i), r[i]);
  }

  // ---------------------------------------------------------------------
  // Single entries.

  /** INIT_LIST_HEAD */
  method InitListHead(list: Node)
    modifies list
    ensures Ring(list, [])
  {
    list.next := list;
    list.prev := list;
  }

  ghost function First(s: seq<Node>, y: Node): Node {
    if s == [] then y else s[0]
  }

  /** All different from each other and from x. */
  ghost predicate Apart(x: Node, s: seq<Node>) {
    NoDup(s) && x !in s
  }

  /** A list in two parts, around the link from the last of a to the first of b or to the head. */
  ghost predicate Parts(head: Node, a: seq<Node>, b: seq<Node>)
    reads head, a, b
  {
    && Apart(head, a) && Apart(head, b) && Disjoint(a, b)
    && Path(head, a) && Path(Last(head, a), b) && Link(Last(Last(head, a), b), head)
  }

  lemma RingWhole(head: Node, s: seq<Node>)
    ensures Ring(head, s) <==> Apart(head, s) && Path(head, s) && Link(Last(head, s), head)
  {
    PathConcat(head, s, [head]);
    assert Path(Last(head, s), [head]) <==> Link(Last(head, s), [head][0]);
  }

  lemma RingParts(head: Node, a: seq<Node>, b: seq<Node>)
    ensures Ring(head, a + b) <==> Parts(head, a, b)
  {
    hide Path, Link, NoDup, Ring;
    RingWhole(head, a + b);
    PathConcat(head, a, b);
    NoDupConcat(a, b);
    assert head !in a + b <==> head !in a && head !in b;
  }

  /** __list_add */
  method AddBetween(x: Node, prev: Node, next: Node, ghost head: Node, ghost a: seq<Node>, ghost b: seq<Node>)
    requires Ring(head, a + b) && x !in a && x !in b && x != head
    requires prev == Last(head, a) && next == First(b, head)
    modifies x, prev, next
    ensures Ring(head, a + ([x] + b))
  {
    hide Ring;
    RingParts(head, a, b);
    next.prev := x;
    x.next := next;
    x.prev := prev;
    prev.next := x;
    assert Path(head, a);
    assert Path(x, b);
    PathConcat(prev, [x], b);
    NoDupConcat([x], b);
    RingParts(head, a, [x] + b);
  }

  /** list_add */
  method ListAdd(x: Node, head: Node, ghost s: seq<Node>)
    requires Ring(head, s) && x !in s && x != head
    modifies x, head, head.next
    ensures Ring(head, [x] + s)
  {
    hide Ring;
    EmptyUnits(s);
    LengthTests(head, s);
    AddBetween(x, head, head.next, head, [], s);
    EmptyUnits([x] + s);
  }

  /** list_add_tail */
  method ListAddTail(x: Node, head: Node, ghost s: seq<Node>)
    requires Ring(head, s) && x !in s && x != head
    modifies x, head, head.prev
    ensures Ring(head, s + [x])
  {
    hide Ring;
    EmptyUnits(s);
    LengthTests(head, s);
    AddBetween(x, head.prev, head, head, s, []);
    EmptyUnits([x]);
  }

  /** list_del: the entry leaves the list and becomes an empty list of its own. */
  method ListDel(entry: Node, ghost head: Node, ghost a: seq<Node>, ghost b: seq<Node>)
    requires Ring(head, a + ([entry] + b))
    modifies entry, entry.prev, entry.next
    ensures Ring(head, a + b) && Ring(entry, [])
  {
    hide Ring;
    RingParts(head, a, [entry] + b);
    Around(head, a, entry, b);
    var prev, next := entry.prev, entry.next;
    next.prev := prev;
    prev.next := next;
    assert Path(head, a);
    assert Path(prev, b);
    RingParts(head, a, b);
    InitListHead(entry);
  }

  /** What is around an entry. */
  lemma Around(head: Node, a: seq<Node>, x: Node, b: seq<Node>)
    requires Parts(head, a, [x] + b)
    ensures Link(Last(head, a), x) && Link(x, First(b, head)) && Path(x, b) && Link(Last(x, b), head)
    ensures Apart(x, a) && Apart(x, b) && Apart(head, b) && x != head
    ensures Disjoint(a, b)
  {
    hide NoDup, Disjoint, Path, Link, Last;
    PathAround(Last(head, a), x, b, head);
    NoDupConcat([x], b);
    OneApart(x, b);
    DisjointCons(a, x, b);
    assert x in [x] + b && forall y | y in b :: y in [x] + b;
  }

  lemma PathAround(y: Node, x: Node, b: seq<Node>, z: Node)
    requires Path(y, [x] + b) && Link(Last(y, [x] + b), z)
    ensures Link(y, x) && Link(x, First(b, z)) && Path(x, b) && Link(Last(x, b), z)
  {
    hide Link;
    PathConcat(y, [x], b);
    assert Link(Before(y, [x], 0), [x][0]);
    assert b != [] ==> Link(Before(x, b, 0), b[0]);
  }

  lemma OneApart(x: Node, b: seq<Node>)
    ensures Disjoint([x], b) <==> x !in b
  {
    assert [x][0] == x;
  }

  lemma DisjointCons(a: seq<Node>, x: Node, b: seq<Node>)
    ensures Disjoint(a, [x] + b) <==> x !in a && Disjoint(a, b)
  {
    var c := [x] + b;
    assert c[0] == x && forall j | 0 <= j < |b| :: c[j + 1] == b[j];
    assert forall j | 0 < j < |c| :: c[j] == b[j - 1];
  }

  // ---------------------------------------------------------------------
  // Whole lists.

  /** list_empty */
  predicate ListEmpty(head: Node)
    reads head
  {
    head.next == head
  }

  /** list_is_singular */
  predicate ListIsSingular(head: Node)
    reads head
  {
    !ListEmpty(head) && head.next == head.prev
  }

  /** The two tests tell lists of length 0 and 1. */
  lemma LengthTests(head: Node, s: seq<Node>)
    requires Ring(head, s)
    ensures ListEmpty(head) <==> |s| == 0
    ensures ListIsSingular(head) <==> |s| == 1
    ensures head.next == First(s, head) && head.prev == Last(head, s)
  {
    var r := s + [head];
    assert Link(head, r[0]) && Link(Before(head, r, |s|), r[|s|]);
    assert forall j | 0 <= j < |s| :: r[j] == s[j];
  }

  lemma NotHead(head: Node, s: seq<Node>)
    requires Ring(head, s)
    ensures head !in s
  {
  }

  /** __list_cut_position */
  method CutPosition(list: Node, head: Node, entry: Node, ghost a: seq<Node>, ghost b: seq<Node>)
    requires Ring(head, a + b) && list != head && list !in a && list !in b
    requires a != [] && entry == a[|a| - 1]
    modifies list, head, head.next, entry, entry.next
    ensures Ring(list, a) && Ring(head, b)
  {
    hide Ring;
    RingParts(head, a, b);
    assert Link(head, a[0]) && Link(entry, First(b, head));
    CutLinks(list, head, entry);
    assert Path(list, a);
    assert Path(head, b);
    RingWhole(list, a);
    RingWhole(head, b);
  }

  /** The assignments of __list_cut_position. */
  method CutLinks(list: Node, head: Node, entry: Node)
    requires list !in {head, entry, head.next, entry.next} && entry != head && entry.next != head.next
    modifies list, head, head.next, entry, entry.next
    ensures forall n | n in {list, head, entry, old(head.next), old(entry.next)} ::
      && n.next == (if n == list then old(head.next) else if n == entry then list
                    else if n == head then old(entry.next) else old(n.next))
      && n.prev == (if n == list then entry else if n == old(head.next) then list
                    else if n == old(entry.next) then head else old(n.prev))
  {
    var newFirst := entry.next;
    list.next := head.next;
    list.next.prev := list;
    list.prev := entry;
    entry.next := list;
    head.next := newFirst;
    newFirst.prev := head;
  }

  /** list_cut_position: the entries up to and including `entry` move to `list`, whatever that was; a list
      that is empty, or has one entry which is not `entry`, is left alone. */
  method ListCutPosition(list: Node, head: Node, entry: Node, ghost a: seq<Node>, ghost b: seq<Node>)
    requires Ring(head, a + b) && list != head && list !in a && list !in b
    requires a + b == [] || (if a == [] then entry == head || (|b| == 1 && entry !in b) else entry == a[|a| - 1])
    modifies list, head, head.next, entry, entry.next
    ensures a != [] ==> Ring(list, a) && Ring(head, b)
    ensures a == [] ==> Ring(head, b) && (if b != [] && entry == head then Ring(list, []) else unchanged(list))
  {
    hide Ring;
    LengthTests(head, a + b);
    EmptyUnits(b);
    if ListEmpty(head) {
      assert a == [] && b == [];
      return;
    }
    if ListIsSingular(head) && head.next != entry && head != entry {
      assert a == [];
      return;
    }
    if entry == head {
      NotHead(head, a + b);
      InitListHead(list);
    } else {
      CutPosition(list, head, entry, a, b);
    }
  }

  /** Only the first node of a list comes first, and only its last comes last. */
  lemma EndsApart(x: Node, s: seq<Node>)
    requires Apart(x, s)
    ensures forall j | 0 <= j < |s| :: Before(x, s, j) != Last(x, s) && (j > 0 ==> s[j] != s[0])
  {
  }

  /** __list_splice: the entries of `list` go between two neighbours. */
  method SpliceBetween(list: Node, prev: Node, next: Node, ghost c: seq<Node>,
                       ghost head: Node, ghost a: seq<Node>, ghost b: seq<Node>)
    requires Ring(list, c) && c != [] && Ring(head, a + b)
    requires list != head && list !in a && list !in b && head !in c
    requires Disjoint(c, a) && Disjoint(c, b)
    requires prev == Last(head, a) && next == First(b, head)
    modifies list.next, list.prev, prev, next
    ensures Ring(head, a + (c + b))
  {
    hide Ring, NoDup;
    LengthTests(list, c);
    EmptyUnits(c);
    RingParts(list, c, []);
    RingParts(head, a, b);
    EndsApart(head, a);
    EndsApart(list, c);
    EndsApart(head, b);
    var first, last := list.next, list.prev;
    assert Link(Last(head, a), First(b, head));
    SpliceLinks(first, last, prev, next);
    assert Path(head, a);
    assert Path(prev, c);
    assert Path(last, b);
    Spliced(head, a, c, b);
  }

  /** The assignments of __list_splice. */
  method SpliceLinks(first: Node, last: Node, prev: Node, next: Node)
    requires prev != last && first != next
    modifies first, last, prev, next
    ensures forall n | n in {first, last, prev, next} ::
      && n.next == (if n == prev then first else if n == last then next else old(n.next))
      && n.prev == (if n == first then prev else if n == next then last else old(n.prev))
  {
    first.prev := prev;
    prev.next := first;
    last.next := next;
    next.prev := last;
  }

  lemma Spliced(head: Node, a: seq<Node>, c: seq<Node>, b: seq<Node>)
    requires Apart(head, a) && Apart(head, c) && Apart(head, b)
    requires Disjoint(a, b) && Disjoint(c, a) && Disjoint(c, b)
    requires Path(head, a) && Path(Last(head, a), c) && Path(Last(Last(head, a), c), b)
    requires Link(Last(Last(Last(head, a), c), b), head)
    ensures Ring(head, a + (c + b))
  {
    hide Path, Link, Ring, NoDup;
    PathConcat(Last(head, a), c, b);
    NoDupConcat(c, b);
    assert Disjoint(a, c + b);
    RingParts(head, a, c + b);
  }

  /** list_splice */
  method ListSplice(list: Node, head: Node, ghost c: seq<Node>, ghost s: seq<Node>)
    requires Ring(list, c) && Ring(head, s)
    requires list != head && list !in s && head !in c && Disjoint(c, s)
    modifies list.next, list.prev, head, head.next
    ensures Ring(head, c + s)
  {
    hide Ring;
    LengthTests(list, c);
    LengthTests(head, s);
    EmptyUnits(s);
    EmptyUnits(c + s);
    if !ListEmpty(list) {
      SpliceBetween(list, head, head.next, c, head, [], s);
    }
  }

  /** list_splice_tail */
  method ListSpliceTail(list: Node, head: Node, ghost c: seq<Node>, ghost s: seq<Node>)
    requires Ring(list, c) && Ring(head, s)
    requires list != head && list !in s && head !in c && Disjoint(c, s)
    modifies list.next, list.prev, head, head.prev
    ensures Ring(head, s + c)
  {
    hide Ring;
    LengthTests(list, c);
    LengthTests(head, s);
    EmptyUnits(s);
    EmptyUnits(c);
    EmptyUnits([head]);
    if !ListEmpty(list) {
      SpliceBetween(list, head.prev, head, c, head, s, []);
    }
  }

  /** list_splice_init: the spliced list is empty afterwards. */
  method ListSpliceInit(list: Node, head: Node, ghost c: seq<Node>, ghost s: seq<Node>)
    requires Ring(list, c) && Ring(head, s)
    requires list != head && list !in s && head !in c && Disjoint(c, s)
    modifies list, list.next, list.prev, head, head.next
    ensures Ring(head, c + s) && Ring(list, [])
  {
    hide Ring;
    LengthTests(list, c);
    LengthTests(head, s);
    EmptyUnits(s);
    EmptyUnits(c + s);
    NotHead(list, c);
    if !ListEmpty(list) {
      SpliceBetween(list, head, head.next, c, head, [], s);
      InitListHead(list);
    }
  }

  /** Cutting a list at any of its entries into an empty list and splicing that back in front restores
      the original order. */
  method CutThenSplice(list: Node, head: Node, entry: Node, ghost s: seq<Node>, ghost i: nat)
    requires Ring(head, s) && Ring(list, []) && list != head && list !in s
    requires i <= |s| && entry == if i == 0 then head else s[i - 1]
    modifies list, head, s
    ensures Ring(head, s) && Ring(list, [])
  {
    hide Ring, NoDup, Disjoint;
    ghost var a, b := s[..i], s[i..];
    CutFacts(list, head, entry, s, i);
    ListCutPosition(list, head, entry, a, b);
    LengthTests(list, a);
    LengthTests(head, b);
    ListSpliceInit(list, head, a, b);
  }

  lemma CutFacts(list: Node, head: Node, entry: Node, s: seq<Node>, i: nat)
    requires Ring(head, s) && Ring(list, []) && list != head && list !in s
    requires i <= |s| && entry == if i == 0 then head else s[i - 1]
    ensures var a, b := s[..i], s[i..];
      && a + b == s && Ring(head, a + b) && Disjoint(a, b)
      && head !in a && list !in a && list !in b
      && head.next in s + [head] && entry.next in s + [head]
      && First(a, list) in s + [list] && Last(list, a) in s + [list] && First(b, head) in s + [head]
  {
    hide Ring, NoDup, Disjoint;
    TakeDrop(s, i);
    RingParts(head, s[..i], s[i..]);
    MutualInverses(head, s, head);
    MutualInverses(head, s, entry);
  }
}
