/** The order in which mode lists are kept, and insertion by it. */
module LetterOrder {
  import Seqs

  predicate IsLower(c: char) {
    'a' <= c <= 'z'
  }

  predicate IsUpper(c: char) {
    'A' <= c <= 'Z'
  }

  predicate IsBetween(c: char) {
    'Z' < c < 'a'
  }

  /** sort_character_lowercase_before_uppercase */
  predicate SortsBefore(x: char, y: char) {
    if IsLower(x) && IsUpper(y) then true
    else if IsUpper(x) && IsLower(y) then false
    else x < y
  }

  /** All small letters come before all capitals, and the order is otherwise that of the codes. */
  lemma OrderIs(x: char, y: char)
    ensures 'a' <= x <= 'z' && 'A' <= y <= 'Z' ==> SortsBefore(x, y) && !SortsBefore(y, x)
    ensures !('a' <= x <= 'z' && 'A' <= y <= 'Z') && !('A' <= x <= 'Z' && 'a' <= y <= 'z') ==>
      (SortsBefore(x, y) <==> x as int < y as int)
  {
  }

  /** Where usermode_add_sorted and channelmode_add_sorted put a letter: before the first one that
      sorts behind it. */
  function SortedPosition(letters: string, letter: char): (i: nat)
    ensures i <= |letters| && (i < |letters| ==> SortsBefore(letter, letters[i]))
    ensures forall k | 0 <= k < i :: !SortsBefore(letter, letters[k])
  {
    if letters == "" || SortsBefore(letter, letters[0]) then 0 else 1 + SortedPosition(letters[1..], letter)
  }

  predicate Sorted(letters: string) {
    forall i, j | 0 <= i < j < |letters| :: SortsBefore(letters[i], letters[j])
  }

  /** Lower case, upper case and a character between Z and a, all at once. */
  predicate Mixed(letters: string) {
    && (exists c :: c in letters && IsLower(c))
    && (exists c :: c in letters && IsUpper(c))
    && (exists c :: c in letters && IsBetween(c))
  }

  /** On such letters the comparison goes in a circle. */
  lemma OrderHasACycle()
    ensures SortsBefore('a', 'A') && SortsBefore('A', '_') && SortsBefore('_', 'a')
  {
  }

  /** So no order of them is sorted. */
  lemma MixedIsUnsorted(letters: string)
    requires Mixed(letters)
    ensures !Sorted(letters)
  {
    var i :| 0 <= i < |letters| && IsLower(letters[i]);
    var j :| 0 <= j < |letters| && IsUpper(letters[j]);
    var k :| 0 <= k < |letters| && IsBetween(letters[k]);
  }

  /** On letters that are not mixed the comparison is a linear order. */
  lemma Linear(letters: string, x: char, y: char, z: char)
    requires !Mixed(letters) && x in letters && y in letters && z in letters
    ensures SortsBefore(x, y) && SortsBefore(y, z) ==> SortsBefore(x, z)
    ensures x != y ==> (SortsBefore(x, y) <==> !SortsBefore(y, x))
  {
    assert (IsLower(x) || IsLower(y) || IsLower(z)) && (IsUpper(x) || IsUpper(y) || IsUpper(z)) ==>
        !IsBetween(x) && !IsBetween(y) && !IsBetween(z);
  }

  /** Inserting a new letter into a sorted list keeps it sorted if and only if the letters are then not
      mixed. */
  lemma InsertKeepsSorted(letters: string, c: char)
    requires Sorted(letters) && c !in letters
    ensures Sorted(Seqs.InsertAt(letters, SortedPosition(letters, c), c)) <==> !Mixed(letters + [c])
  {
    var i := SortedPosition(letters, c);
    var r := Seqs.InsertAt(letters, i, c);
    hide SortsBefore, SortedPosition, Mixed, Sorted, AllBefore, AllBehind;
    if Mixed(letters + [c]) {
      MixedStays(letters + [c], r);
      MixedIsUnsorted(r);
    } else {
      PositionSplits(letters, c);
      Seqs.TakeDrop(letters, i);
      SortedAround(letters[..i], c, letters[i..]);
    }
  }

  lemma MixedStays(a: string, b: string)
    requires Mixed(a) && forall c | c in a :: c in b
    ensures Mixed(b)
  {
    var l :| l in a && IsLower(l);
    var u :| u in a && IsUpper(u);
    var x :| x in a && IsBetween(x);
    assert l in b && u in b && x in b;
  }

  predicate AllBefore(letters: string, c: char) {
    forall k | 0 <= k < |letters| :: SortsBefore(letters[k], c)
  }

  predicate AllBehind(letters: string, c: char) {
    forall k | 0 <= k < |letters| :: SortsBefore(c, letters[k])
  }

  lemma PositionSplits(letters: string, c: char)
    requires Sorted(letters) && c !in letters && !Mixed(letters + [c])
    ensures var i := SortedPosition(letters, c);
      AllBefore(letters[..i], c) && AllBehind(letters[i..], c)
  {
    hide SortsBefore, Mixed;
    var all, i := letters + [c], SortedPosition(letters, c);
    assert c in all;
    forall k | 0 <= k < |letters|
      ensures if k < i then SortsBefore(letters[k], c) else SortsBefore(c, letters[k])
    {
      assert letters[k] in letters && letters[k] in all;
      Linear(all, letters[k], c, c);
      if k > i {
        assert letters[i] in letters && letters[i] in all;
        Linear(all, c, letters[i], letters[k]);
      }
    }
  }

  lemma SortedAround(a: string, c: char, b: string)
    requires Sorted(a + b)
    requires AllBefore(a, c) && AllBehind(b, c)
    ensures Sorted(a + [c] + b)
  {
    hide SortsBefore;
    var r, s := a + [c] + b, a + b;
    forall i, j | 0 <= i < j < |r|
      ensures SortsBefore(r[i], r[j])
    {
      if i == |a| {
        assert r[j] == b[j - |a| - 1];
      } else if j == |a| {
        assert r[i] == a[i];
      } else {
        assert r[i] == s[if i < |a| then i else i - 1];
        assert r[j] == s[if j < |a| then j else j - 1];
      }
    }
  }

  /** Taking a letter out keeps a list sorted. */
  lemma RemoveKeepsSorted(letters: string, i: nat)
    requires Sorted(letters) && i < |letters|
    ensures Sorted(Seqs.CutOut(letters, i))
  {
    hide SortsBefore;
    var r := Seqs.CutOut(letters, i);
    assert forall k | 0 <= k < |r| :: r[k] == letters[if k < i then k else k + 1];
  }

  /** So a list that has become longer is sorted unless its letters are mixed. */
  lemma SortedOrMixed(letters: string, c: char)
    requires Sorted(letters) && c !in letters
    ensures var r := Seqs.InsertAt(letters, SortedPosition(letters, c), c);
      Sorted(r) || Mixed(r)
  {
    hide Mixed, Sorted;
    InsertKeepsSorted(letters, c);
    var r := Seqs.InsertAt(letters, SortedPosition(letters, c), c);
    if Mixed(letters + [c]) {
      MixedStays(letters + [c], r);
    }
  }
}
