/** ASCII case folding, as toupper() and the comparisons built on it do. */
module Casemap {

  function ToUpper(c: char): char {
    if 'a' <= c <= 'z' then c - 'a' + 'A' else c
  }

  /** Two names are the same to mycmp() and strcasecmp() exactly when their folds are equal. */
  function Fold(s: string): (r: string)
    ensures |r| == |s|
  {
    seq(|s|, i requires 0 <= i < |s| => ToUpper(s[i]))
  }

  /** The same letter, or the small and the capital form of one of the 26. */
  predicate SameLetter(c: char, d: char) {
    c == d || ('a' <= c <= 'z' && c as int == d as int + 32) || ('A' <= c <= 'Z' && d as int == c as int + 32)
  }

  /** Folds are equal exactly when the names are the same letter by letter. */
  lemma FoldIsSame(a: string, b: string)
    ensures Fold(a) == Fold(b) <==> |a| == |b| && forall i | 0 <= i < |a| :: SameLetter(a[i], b[i])
  {
    if |a| == |b| {
      assert forall i | 0 <= i < |a| :: Fold(a)[i] == ToUpper(a[i]) && Fold(b)[i] == ToUpper(b[i]);
      if Fold(a) == Fold(b) {
        forall i | 0 <= i < |a|
          ensures SameLetter(a[i], b[i])
        {
          assert Fold(a)[i] == Fold(b)[i];
        }
      }
    }
  }
}
