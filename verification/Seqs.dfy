/** Sequence laws and lists without duplicates, shared by the other modules. */
module Seqs {

  lemma Assoc<T>(a: seq<T>, b: seq<T>, c: seq<T>)
    ensures a + (b + c) == a + b + c
  {
  }

  lemma DropConcat<T>(s: seq<T>, t: seq<T>, n: nat)
    requires n <= |s|
    ensures (s + t)[n..] == s[n..] + t
  {
  }

  lemma TakeConcat<T>(s: seq<T>, t: seq<T>, n: nat)
    requires n <= |s|
    ensures (s + t)[..n] == s[..n]
  {
  }

  lemma DropDrop<T>(s: seq<T>, a: nat, b: nat)
    requires a + b <= |s|
    ensures s[a..][b..] == s[a + b..]
  {
  }

  lemma TakeDrop<T>(s: seq<T>, n: nat)
    requires n <= |s|
    ensures s[..n] + s[n..] == s
  {
  }

  lemma TakeAll<T>(s: seq<T>)
    ensures s[..|s|] == s
  {
  }

  lemma FirstRest<T>(s: seq<T>)
    requires s != []
    ensures [s[0]] + s[1..] == s
  {
  }

  lemma TakeOneMore<T>(s: seq<T>, n: nat)
    requires n < |s|
    ensures s[..n] + [s[n]] == s[..n + 1]
  {
  }

  lemma EmptyUnits<T>(s: seq<T>)
    ensures s + [] == s && [] + s == s
  {
  }

  predicate NoDup<T(==)>(s: seq<T>) {
    forall i, j | 0 <= i < j < |s| :: s[i] != s[j]
  }

  lemma NoDupCons<T>(x: T, s: seq<T>)
    requires NoDup(s) && x !in s
    ensures NoDup([x] + s)
  {
  }

  lemma {:induction false} SeqToSet<T>(s: seq<T>, elements: set<T>)
    requires NoDup(s) && elements == set x | x in s
    ensures |elements| == |s|
  {
    if s != [] {
      var rest := set x | x in s[1..];
      SeqToSet(s[1..], rest);
      forall x | x in elements
        ensures x == s[0] || x in rest
      {
        var i :| 0 <= i < |s| && s[i] == x;
        assert i > 0 ==> s[1..][i - 1] == x;
      }
      assert s[0] !in rest && elements == {s[0]} + rest;
    }
  }

  /** s without its first x: what DelListItem makes of a list. */
  function Removed<T(==)>(s: seq<T>, x: T): seq<T> {
    if s == [] then [] else if s[0] == x then s[1..] else [s[0]] + Removed(s[1..], x)
  }

  lemma {:induction false} RemovedIs<T>(s: seq<T>, x: T)
    requires NoDup(s) && x in s
    ensures var r := Removed(s, x);
      && NoDup(r) && |r| == |s| - 1 && x !in r
      && (forall y | y in r :: y in s)
      && (forall y | y in s && y != x :: y in r)
  {
    if s[0] != x {
      RemovedIs(s[1..], x);
      assert s == [s[0]] + s[1..];
      NoDupCons(s[0], Removed(s[1..], x));
    } else {
      assert s == [s[0]] + s[1..];
    }
  }

  lemma {:induction false} RemovedAt<T>(s: seq<T>, i: nat)
    requires i < |s| && NoDup(s)
    ensures Removed(s, s[i]) == s[..i] + s[i + 1..]
  {
    if i > 0 {
      assert s[1..][i - 1] == s[i];
      RemovedAt(s[1..], i - 1);
      assert s[..i] == [s[0]] + s[1..][..i - 1];
      assert s[i + 1..] == s[1..][i..];
      Assoc([s[0]], s[1..][..i - 1], s[i + 1..]);
    } else {
      EmptyUnits(s[1..]);
    }
  }

  // ---------------------------------------------------------------------
  // Inserting and removing at a position.

  function InsertAt<T>(s: seq<T>, i: nat, x: T): (r: seq<T>)
    requires i <= |s|
    ensures |r| == |s| + 1
  {
    s[..i] + [x] + s[i..]
  }

  lemma InsertAtHas<T>(s: seq<T>, i: nat, x: T)
    requires i <= |s|
    ensures var r := InsertAt(s, i, x);
      && x in r && (forall y | y in s :: y in r) && (forall y | y in r :: y in s || y == x)
      && (NoDup(s) && x !in s ==> NoDup(r))
  {
    hide NoDup, InsertAt;
    InsertAtIs(s, i, x);
  }

  lemma InsertAtIs<T>(s: seq<T>, i: nat, x: T)
    requires i <= |s|
    ensures var r := InsertAt(s, i, x);
      && |r| == |s| + 1
      && (forall k | 0 <= k < |r| :: r[k] == if k < i then s[k] else if k == i then x else s[k - 1])
      && x in r && (forall y | y in s :: y in r) && (forall y | y in r :: y in s || y == x)
      && (NoDup(s) && x !in s ==> NoDup(r))
  {
    var r := InsertAt(s, i, x);
    assert r[i] == x;
    forall y | y in s ensures y in r {
      var k :| 0 <= k < |s| && s[k] == y;
      assert r[if k < i then k else k + 1] == y;
    }
  }

  function CutOut<T>(s: seq<T>, i: nat): (r: seq<T>)
    requires i < |s|
    ensures |r| == |s| - 1
  {
    s[..i] + s[i + 1..]
  }

  lemma CutOutIs<T>(s: seq<T>, i: nat)
    requires i < |s|
    ensures var r := CutOut(s, i);
      && |r| == |s| - 1
      && (forall k | 0 <= k < |r| :: r[k] == s[if k < i then k else k + 1])
      && (forall k | 0 <= k < |s| && k != i :: s[k] in r)
      && (forall y | y in r :: exists k :: 0 <= k < |s| && k != i && s[k] == y)
  {
    var r := CutOut(s, i);
    forall k | 0 <= k < |s| && k != i ensures s[k] in r {
      assert r[if k < i then k else k - 1] == s[k];
    }
  }

  // ---------------------------------------------------------------------
  // Keeping some of the elements.

  function Filter<T>(keep: T -> bool, s: seq<T>): seq<T> {
    if s == [] then []
    else
      var n := |s| - 1;
      Filter(keep, s[..n]) + if keep(s[n]) then [s[n]] else []
  }

  lemma {:induction false} FilterIs<T>(keep: T -> bool, s: seq<T>)
    ensures forall x | x in Filter(keep, s) :: x in s && keep(x)
    ensures forall x | x in s && keep(x) :: x in Filter(keep, s)
  {
    if s != [] {
      var n := |s| - 1;
      FilterIs(keep, s[..n]);
      assert s == s[..n] + [s[n]];
    }
  }

  /** What holds of any two elements in order still does. */
  lemma {:induction false} FilterPairs<T>(keep: T -> bool, s: seq<T>, rel: (T, T) -> bool)
    requires forall i, j | 0 <= i < j < |s| :: rel(s[i], s[j])
    ensures forall i, j | 0 <= i < j < |Filter(keep, s)| :: rel(Filter(keep, s)[i], Filter(keep, s)[j])
  {
    if s != [] {
      var n := |s| - 1;
      FilterPairs(keep, s[..n], rel);
      FilterIs(keep, s[..n]);
      var r := Filter(keep, s[..n]);
      forall i | 0 <= i < |r|
        ensures rel(r[i], s[n])
      {
        assert r[i] in r;
        var k :| 0 <= k < n && s[..n][k] == r[i];
        assert s[k] == r[i];
      }
      var all := Filter(keep, s);
      forall i, j | 0 <= i < j < |all|
        ensures rel(all[i], all[j])
      {
        assert all[i] == r[i];
        assert j < |r| ==> all[j] == r[j];
      }
    }
  }

  /** A list in the course of pruning: the first j elements have been looked at. */
  ghost function Pruning<T>(keep: T -> bool, s: seq<T>, j: nat): seq<T>
    requires j <= |s|
  {
    Filter(keep, s[..j]) + s[j..]
  }

  lemma PruningStarts<T>(keep: T -> bool, s: seq<T>)
    ensures Pruning(keep, s, 0) == s && |Filter(keep, s[..0])| == 0
  {
  }

  /** The next element stays, or is cut out. */
  lemma PruningStep<T>(keep: T -> bool, s: seq<T>, j: nat)
    requires j < |s|
    ensures var now, i := Pruning(keep, s, j), |Filter(keep, s[..j])|;
      && i < |now| && now[i] == s[j]
      && Pruning(keep, s, j + 1) == (if keep(s[j]) then now else CutOut(now, i))
      && |Filter(keep, s[..j + 1])| == if keep(s[j]) then i + 1 else i
  {
    assert s[..j + 1][..j] == s[..j];
    assert s[j..] == [s[j]] + s[j + 1..];
    assert Filter(keep, s[..j + 1]) == Filter(keep, s[..j]) + if keep(s[j]) then [s[j]] else [];
    hide Filter;
    var f := Filter(keep, s[..j]);
    assert CutOut(f + s[j..], |f|) == f + s[j + 1..];
    Assoc(f, [s[j]], s[j + 1..]);
  }

  lemma PruningEnds<T>(keep: T -> bool, s: seq<T>)
    ensures Pruning(keep, s, |s|) == Filter(keep, s)
  {
    assert s[..|s|] == s;
  }
}
