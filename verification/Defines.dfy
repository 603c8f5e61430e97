/**
 Expansion of $VARIABLES in configuration items (`preprocessor_replace_defines` in
 `src/conf_preprocessor.c`): one pass over the item into a fixed buffer with a running budget.
 */
module Defines {
  import opened CStrings
  import Seqs

  const BUF_SIZE := 4096
  const VARNAME_SIZE := 512
  const BUDGET := BUF_SIZE - 2

  type Table = map<string, string>

  /** ValidVarCharacter */
  predicate ValidVarChar(c: char) {
    'A' <= c <= 'Z' || '0' <= c <= '9' || c == '_'
  }

  /** Length of the leading run of variable characters. */
  function NameLength(s: string): (n: nat)
    ensures n <= |s| && (forall k | 0 <= k < n :: ValidVarChar(s[k])) && (n < |s| ==> !ValidVarChar(s[n]))
  {
    if s == "" || !ValidVarChar(s[0]) then 0 else 1 + NameLength(s[1..])
  }

  // ---------------------------------------------------------------------
  // Reference: the full substitution.

  /** The text a variable stands for: its value, or itself when it is not defined. */
  function Value(t: Table, name: string): string {
    if name in t then t[name] else "$" + name
  }

  /** $$ becomes $, defined names become their values, everything else stays. */
  function Substitute(t: Table, s: string): string
    decreases |s|
  {
    if s == "" then ""
    else if s[0] != '$' then [s[0]] + Substitute(t, s[1..])
    else if |s| > 1 && s[1] == '$' then "$" + Substitute(t, s[2..])
    else
      var n := NameLength(s[1..]);
      Value(t, s[1..][..n]) + Substitute(t, s[1..][n..])
  }

  /** Every variable name in s fits the name buffer, with its dollar sign and terminator. */
  predicate NamesFit(s: string)
    decreases |s|
  {
    s == "" ||
    (if s[0] != '$' then NamesFit(s[1..])
     else if |s| > 1 && s[1] == '$' then NamesFit(s[2..])
     else
       var n := NameLength(s[1..]);
       n + 2 <= VARNAME_SIZE && NamesFit(s[1..][n..]))
  }

  // ---------------------------------------------------------------------
  // What the code does, piece by piece.

  /** A plain character, or the text of an expansion. */
  datatype Piece = Plain(c: char) | Expansion(text: string) {
    function Text(): string {
      if Plain? then [c] else text
    }

    /** What the piece takes from the budget. */
    function Cost(): (n: nat)
      ensures n >= 1
    {
      if Plain? then 1 else |text| + 1
    }
  }

  /** get_config_define finds nothing for a variable that was defined without a value: add_nvplist stores none. */
  predicate HasValue(t: Table, name: string) {
    name in t && t[name] != ""
  }

  /** The text of the variable whose name is the first n characters of s; the name buffer cuts it. */
  function Lookup(t: Table, s: string, n: nat): (text: string)
    requires n <= |s|
    ensures text != ""
  {
    var varname := Cut("$" + s[..n], VARNAME_SIZE - 1);
    if HasValue(t, varname[1..]) then t[varname[1..]] else varname
  }

  /** The first piece of s, and how many characters it takes up. */
  function FirstPiece(t: Table, s: string): (r: (Piece, nat))
    requires s != ""
    ensures 1 <= r.1 <= |s| && r.0.Text() != ""
    ensures if s[0] == '$' then r.0.Expansion? else r == (Plain(s[0]), 1)
  {
    if s[0] != '$' then (Plain(s[0]), 1)
    else if |s| > 1 && s[1] == '$' then (Expansion("$"), 2)
    else
      var n := NameLength(s[1..]);
      (Expansion(Lookup(t, s[1..], n)), 1 + n)
  }

  function Pieces(t: Table, s: string): seq<Piece>
    decreases |s|
  {
    if s == "" then []
    else
      var (p, n) := FirstPiece(t, s);
      [p] + Pieces(t, s[n..])
  }

  function Texts(ps: seq<Piece>): string {
    if ps == [] then "" else ps[0].Text() + Texts(ps[1..])
  }

  function Costs(ps: seq<Piece>): nat {
    if ps == [] then 0 else ps[0].Cost() + Costs(ps[1..])
  }

  /** The pieces written out until the budget is used up. */
  function Emit(ps: seq<Piece>, budget: nat): string
    decreases ps
  {
    if ps == [] || budget == 0 then ""
    else if ps[0].Cost() <= budget then ps[0].Text() + Emit(ps[1..], budget - ps[0].Cost())
    else ps[0].Text()[..budget - 1]
  }

  /** Copies text to position o of the buffer. */
  method Write(buf: array<char>, o: nat, text: string)
    requires o + |text| <= buf.Length
    modifies buf
    ensures buf[..o + |text|] == old(buf[..o]) + text
  {
    forall k | 0 <= k < |text| {
      buf[o + k] := text[k];
    }
  }

  /** What a piece adds to the output when n > 0 of the budget is left. */
  function Written(p: Piece, n: nat): string
    requires n > 0
  {
    if p.Cost() <= n then p.Text() else p.Text()[..n - 1]
  }

  function Left(p: Piece, n: nat): nat {
    if p.Cost() <= n then n - p.Cost() else 0
  }

  /** One round of the loop of preprocessor_replace_defines: a plain character, or the text of an expansion. */
  method PutPiece(buf: array<char>, o: nat, n: nat, p: Piece) returns (o': nat, n': nat)
    requires n > 0 && o + n <= BUDGET < buf.Length
    modifies buf
    ensures n' == Left(p, n) && o' + n' <= BUDGET
    ensures buf[..o'] == old(buf[..o]) + Written(p, n)
  {
    if p.Plain? {
      Write(buf, o, [p.c]);
      return o + 1, n - 1;
    }
    var limit := |p.text| + 1;
    if limit > n {
      limit := n;
    }
    assert p.text[..|p.text|] == p.text;
    Write(buf, o, p.text[..limit - 1]);
    return o + limit - 1, n - limit;
  }

  /** preprocessor_replace_defines, writing through the fixed buffer. */
  method ReplaceDefines(t: Table, item: string) returns (r: string)
    ensures r == if '$' !in item then item else Emit(Pieces(t, item), BUDGET)
  {
    hide Pieces, Emit, FirstPiece, Written, Left;
    if '$' !in item {
      return item;
    }
    var buf := new char[BUF_SIZE];
    var o: nat, n: nat, i: nat := 0, BUDGET, 0;
    ghost var done := "";
    while i < |item| && n > 0
      invariant i <= |item| && o + n <= BUDGET
      invariant buf[..o] == done
      invariant done + Emit(Pieces(t, item[i..]), n) == Emit(Pieces(t, item), BUDGET)
      decreases |item| - i
    {
      var (p, used) := FirstPiece(t, item[i..]);
      EmitStep(t, item, i, n, done);
      done := done + Written(p, n);
      o, n := PutPiece(buf, o, n, p);
      i := i + used;
    }
    EmitNothing(t, item[i..], n);
    Seqs.EmptyUnits(done);
    buf[o] := '\0';
    return buf[..o];
  }

  lemma EmitNothing(t: Table, s: string, n: nat)
    requires s == "" || n == 0
    ensures Emit(Pieces(t, s), n) == ""
  {
  }

  lemma EmitStep(t: Table, item: string, i: nat, n: nat, done: string)
    requires i < |item| && n > 0
    ensures var (p, used) := FirstPiece(t, item[i..]);
      done + Emit(Pieces(t, item[i..]), n)
        == done + Written(p, n) + Emit(Pieces(t, item[i + used..]), Left(p, n))
  {
    hide Emit, FirstPiece, Written, Left;
    var s := item[i..];
    var (p, used) := FirstPiece(t, s);
    Seqs.DropDrop(item, i, used);
    var rest := Pieces(t, s[used..]);
    assert Pieces(t, s)[0] == p && Pieces(t, s)[1..] == rest;
    hide Pieces;
    EmitFirst(Pieces(t, s), n);
    Seqs.Assoc(done, Written(p, n), Emit(rest, Left(p, n)));
  }

  lemma EmitFirst(ps: seq<Piece>, n: nat)
    requires ps != [] && n > 0
    ensures Emit(ps, n) == Written(ps[0], n) + Emit(ps[1..], Left(ps[0], n))
  {
    Seqs.EmptyUnits(Written(ps[0], n));
  }

  // ---------------------------------------------------------------------
  // The output against the pieces.

  lemma {:induction false} EmitIsPrefix(ps: seq<Piece>, budget: nat)
    ensures Emit(ps, budget) <= Texts(ps) && |Emit(ps, budget)| <= budget
  {
    if ps != [] && budget > 0 {
      EmitIsPrefix(ps[1..], if ps[0].Cost() <= budget then budget - ps[0].Cost() else 0);
    }
  }

  lemma {:induction false} PiecesHaveText(t: Table, s: string)
    ensures forall p | p in Pieces(t, s) :: p.Text() != ""
    decreases |s|
  {
    if s != "" {
      PiecesHaveText(t, s[FirstPiece(t, s).1..]);
    }
  }

  /** Nothing is lost exactly when the budget covers every piece. */
  lemma {:induction false} EmitComplete(ps: seq<Piece>, budget: nat)
    requires forall p | p in ps :: p.Text() != ""
    ensures Emit(ps, budget) == Texts(ps) <==> Costs(ps) <= budget
  {
    if ps != [] {
      var cost := ps[0].Cost();
      assert ps[0] in ps;
      if cost <= budget {
        EmitComplete(ps[1..], budget - cost);
        SameRest(ps[0].Text(), Emit(ps[1..], budget - cost), Texts(ps[1..]));
      } else {
        assert |Texts(ps)| >= |ps[0].Text()|;
      }
    }
  }

  lemma SameRest(a: string, b: string, c: string)
    ensures a + b == a + c <==> b == c
  {
    assert (a + b)[|a|..] == b && (a + c)[|a|..] == c;
  }

  // ---------------------------------------------------------------------
  // Variables without a value.

  /** The names a @define line can carry: the directive is read through a 512 byte buffer. */
  predicate ShortNames(t: Table) {
    forall name | name in t :: |name| < VARNAME_SIZE - 2
  }

  /** s starts with a variable. */
  predicate StartsVariable(s: string) {
    s != "" && s[0] == '$' && !(|s| > 1 && s[1] == '$')
  }

  function FirstName(s: string): string
    requires StartsVariable(s)
  {
    s[1..][..NameLength(s[1..])]
  }

  /** s starts with a variable that is defined without a value. */
  predicate StartsEmpty(t: Table, s: string) {
    StartsVariable(s) && FirstName(s) in t && t[FirstName(s)] == ""
  }

  /** The item from its first variable without a value on. */
  function Rest(t: Table, s: string): string
    decreases |s|
  {
    if s == "" || StartsEmpty(t, s) then s else Rest(t, s[FirstPiece(t, s).1..])
  }

  /** What the part before it takes from the budget. */
  function CostBefore(t: Table, s: string): nat
    decreases |s|
  {
    if s == "" || StartsEmpty(t, s) then 0
    else FirstPiece(t, s).0.Cost() + CostBefore(t, s[FirstPiece(t, s).1..])
  }

  predicate FirstNameFits(s: string) {
    StartsVariable(s) ==> |FirstName(s)| + 2 <= VARNAME_SIZE
  }

  /** Every variable name in the part before it fits the name buffer. */
  predicate FitBefore(t: Table, s: string)
    decreases |s|
  {
    s == "" || StartsEmpty(t, s) || (FirstNameFits(s) && FitBefore(t, s[FirstPiece(t, s).1..]))
  }

  /** Nothing but variables without a value. */
  predicate OnlyEmpty(t: Table, s: string)
    decreases |s|
  {
    s == "" || (StartsEmpty(t, s) && OnlyEmpty(t, s[FirstPiece(t, s).1..]))
  }

  /** A variable without a value is reached while the budget still has room for a character. */
  predicate EmptyReached(t: Table, s: string, budget: nat) {
    Rest(t, s) != "" && CostBefore(t, s) + 2 <= budget
  }

  /** The part of the full substitution that comes from the first piece. */
  function FirstValue(t: Table, s: string): string
    requires s != ""
  {
    if StartsVariable(s) then Value(t, FirstName(s)) else [s[0]]
  }

  /** The pieces and the full substitution, one piece on. */
  lemma OnePiece(t: Table, s: string)
    requires s != "" && ShortNames(t)
    ensures var (p, n) := FirstPiece(t, s);
      && Pieces(t, s) != [] && Pieces(t, s)[0] == p && Pieces(t, s)[1..] == Pieces(t, s[n..])
      && Substitute(t, s) == FirstValue(t, s) + Substitute(t, s[n..])
      && (NamesFit(s) <==> FirstNameFits(s) && NamesFit(s[n..]))
      && (StartsEmpty(t, s) ==> FirstValue(t, s) == "" && p.Text() == "$" + FirstName(s))
      && (!StartsEmpty(t, s) ==> FirstValue(t, s) != "")
      && (FirstNameFits(s) && !StartsEmpty(t, s) ==> p.Text() == FirstValue(t, s))
      && (!FirstNameFits(s) ==>
            |p.Text()| == VARNAME_SIZE - 1 < |FirstValue(t, s)| && p.Text() == FirstValue(t, s)[..VARNAME_SIZE - 1])
  {
    hide NameLength, Substitute, NamesFit, FirstPiece, FirstValue, StartsEmpty, FirstNameFits, StartsVariable;
    var (p, n) := FirstPiece(t, s);
    assert Pieces(t, s) == [p] + Pieces(t, s[n..]);
    hide Pieces;
    OneSubstitution(t, s);
    FirstText(t, s);
  }

  lemma FirstText(t: Table, s: string)
    requires s != "" && ShortNames(t)
    ensures var text, v := FirstPiece(t, s).0.Text(), FirstValue(t, s);
      && (StartsEmpty(t, s) ==> FirstNameFits(s) && v == "" && text == "$" + FirstName(s))
      && (!StartsEmpty(t, s) ==> v != "")
      && (FirstNameFits(s) && !StartsEmpty(t, s) ==> text == v)
      && (!FirstNameFits(s) ==> |text| == VARNAME_SIZE - 1 < |v| && text == v[..VARNAME_SIZE - 1])
  {
    hide NameLength;
    if StartsVariable(s) {
      var name := FirstName(s);
      assert ("$" + name)[1..] == name;
    }
  }

  lemma OneSubstitution(t: Table, s: string)
    requires s != ""
    ensures var n := FirstPiece(t, s).1;
      && Substitute(t, s) == FirstValue(t, s) + Substitute(t, s[n..])
      && (NamesFit(s) <==> FirstNameFits(s) && NamesFit(s[n..]))
  {
    if StartsVariable(s) {
      Seqs.DropDrop(s, 1, NameLength(s[1..]));
    }
  }

  /** The substitution is empty exactly when there is nothing but variables without a value. */
  lemma {:induction false} OnlyEmptyVanishes(t: Table, s: string)
    requires ShortNames(t)
    ensures Substitute(t, s) == "" <==> OnlyEmpty(t, s)
    decreases |s|
  {
    if s != "" {
      hide FirstPiece, FirstValue, FirstNameFits, StartsEmpty, Substitute;
      OnePiece(t, s);
      OnlyEmptyVanishes(t, s[FirstPiece(t, s).1..]);
    }
  }

  lemma RestStep(t: Table, s: string)
    requires s != "" && !StartsEmpty(t, s)
    ensures var (p, n) := FirstPiece(t, s);
      && Rest(t, s) == Rest(t, s[n..]) && CostBefore(t, s) == p.Cost() + CostBefore(t, s[n..])
      && (FitBefore(t, s) <==> FirstNameFits(s) && FitBefore(t, s[n..]))
  {
  }

  /** As long as no variable without a value is reached, the output is not longer than the substitution. */
  lemma {:induction false} EmitNotLonger(t: Table, s: string, budget: nat)
    requires ShortNames(t) && !EmptyReached(t, s, budget)
    ensures |Emit(Pieces(t, s), budget)| <= |Substitute(t, s)|
    decreases |s|
  {
    hide FirstPiece, FirstValue, FirstNameFits, Substitute, Pieces, NameLength, Emit;
    if s != "" && budget > 0 {
      var (p, n) := FirstPiece(t, s);
      FirstNotLonger(t, s, budget);
      if StartsEmpty(t, s) {
        EmitAtEmpty(t, s, budget);
      } else {
        RestStep(t, s);
        hide Rest, CostBefore, StartsEmpty;
        if p.Cost() <= budget {
          EmitNotLonger(t, s[n..], budget - p.Cost());
        }
      }
    } else {
      EmitNothing(t, s, budget);
    }
  }

  lemma FirstNotLonger(t: Table, s: string, budget: nat)
    requires ShortNames(t) && s != "" && budget > 0
    ensures var (p, n) := FirstPiece(t, s);
      && (!StartsEmpty(t, s) ==> |p.Text()| <= |FirstValue(t, s)|)
      && |Substitute(t, s)| == |FirstValue(t, s)| + |Substitute(t, s[n..])|
      && (if p.Cost() <= budget
          then |Emit(Pieces(t, s), budget)| == |p.Text()| + |Emit(Pieces(t, s[n..]), budget - p.Cost())|
          else |Emit(Pieces(t, s), budget)| == budget - 1 < |p.Text()|)
  {
    hide FirstPiece, FirstValue, FirstNameFits, StartsEmpty, Substitute, Pieces;
    OnePiece(t, s);
  }

  lemma EmitAtEmpty(t: Table, s: string, budget: nat)
    requires ShortNames(t) && StartsEmpty(t, s) && budget < 2
    ensures Emit(Pieces(t, s), budget) == "" && (Substitute(t, s) == "" <==> OnlyEmpty(t, s))
  {
    hide FirstPiece, Substitute, OnlyEmpty, Pieces, NameLength;
    OnePiece(t, s);
    OnlyEmptyVanishes(t, s);
  }

  /** While no variable without a value is reached, the output is the full substitution exactly when the part
      before the first one fits, and nothing but such variables follows. */
  lemma {:induction false} EmitBefore(t: Table, s: string, budget: nat)
    requires ShortNames(t) && !EmptyReached(t, s, budget)
    ensures Emit(Pieces(t, s), budget) == Substitute(t, s) <==>
            FitBefore(t, s) && CostBefore(t, s) <= budget && OnlyEmpty(t, Rest(t, s))
    decreases |s|, 1
  {
    if s != "" {
      if StartsEmpty(t, s) {
        EmitAtEmpty(t, s, budget);
      } else {
        EmitBeforeStep(t, s, budget);
      }
    }
  }

  lemma {:induction false} EmitBeforeStep(t: Table, s: string, budget: nat)
    requires ShortNames(t) && !EmptyReached(t, s, budget) && s != "" && !StartsEmpty(t, s)
    ensures Emit(Pieces(t, s), budget) == Substitute(t, s) <==>
            FitBefore(t, s) && CostBefore(t, s) <= budget && OnlyEmpty(t, Rest(t, s))
    decreases |s|, 0
  {
    hide FirstPiece, FirstValue, FirstNameFits, StartsEmpty, Substitute, Pieces, OnlyEmpty, Rest, CostBefore, FitBefore;
    OnePiece(t, s);
    RestStep(t, s);
    var (p, n) := FirstPiece(t, s);
    if p.Cost() <= budget {
      var rest := budget - p.Cost();
      EmitBefore(t, s[n..], rest);
      EmitNotLonger(t, s[n..], rest);
      SameRest(p.Text(), Emit(Pieces(t, s[n..]), rest), Substitute(t, s[n..]));
    }
  }

  // ---------------------------------------------------------------------
  // Dollar signs: a variable without a value adds one to the output that the substitution does not have.

  function Dollars(s: string): nat {
    if s == "" then 0 else (if s[0] == '$' then 1 else 0) + Dollars(s[1..])
  }

  lemma {:induction false} DollarsConcat(a: string, b: string)
    ensures Dollars(a + b) == Dollars(a) + Dollars(b)
  {
    if a == "" {
      assert a + b == b;
    } else {
      DollarsConcat(a[1..], b);
      assert (a + b)[1..] == a[1..] + b;
    }
  }

  lemma {:induction false} NoDollars(s: string)
    requires forall k | 0 <= k < |s| :: ValidVarChar(s[k])
    ensures Dollars(s) == 0
  {
    if s != "" {
      NoDollars(s[1..]);
    }
  }

  lemma FirstDollars(t: Table, s: string)
    requires s != "" && ShortNames(t)
    ensures Dollars(FirstPiece(t, s).0.Text()) >= Dollars(FirstValue(t, s)) + if StartsEmpty(t, s) then 1 else 0
  {
    hide FirstPiece, NameLength, Substitute, Pieces;
    OnePiece(t, s);
    if StartsVariable(s) && !HasValue(t, FirstName(s)) {
      var name, text := FirstName(s), FirstPiece(t, s).0.Text();
      NoDollars(name);
      assert ("$" + name)[1..] == name;
      assert text[0] == '$';
    }
  }

  lemma {:induction false} EmptyAddsDollar(t: Table, s: string)
    requires ShortNames(t)
    ensures Dollars(Texts(Pieces(t, s))) >= Dollars(Substitute(t, s)) + if Rest(t, s) != "" then 1 else 0
    decreases |s|
  {
    if s != "" {
      hide FirstPiece, FirstValue, StartsEmpty, Substitute, Pieces, Dollars, FirstNameFits;
      OnePiece(t, s);
      FirstDollars(t, s);
      var (p, n) := FirstPiece(t, s);
      EmptyAddsDollar(t, s[n..]);
      DollarsConcat(p.Text(), Texts(Pieces(t, s[n..])));
      DollarsConcat(FirstValue(t, s), Substitute(t, s[n..]));
    }
  }

  // ---------------------------------------------------------------------
  // The output against the full substitution.

  /** Without variables that have no value, the part before the first one is everything. */
  lemma {:induction false} BeforeIsAll(t: Table, s: string)
    requires ShortNames(t) && Rest(t, s) == ""
    ensures CostBefore(t, s) == Costs(Pieces(t, s)) && (FitBefore(t, s) <==> NamesFit(s))
    decreases |s|
  {
    if s != "" {
      hide FirstPiece, FirstValue, StartsEmpty, Substitute, Pieces, NamesFit, FirstNameFits;
      OnePiece(t, s);
      BeforeIsAll(t, s[FirstPiece(t, s).1..]);
    }
  }

  /** The pieces spell out the full substitution if and only if every name fits the name buffer and every
      variable that is defined has a value. */
  lemma PiecesSubstitute(t: Table, s: string)
    requires ShortNames(t)
    ensures Texts(Pieces(t, s)) == Substitute(t, s) <==> NamesFit(s) && Rest(t, s) == ""
  {
    hide Emit, Texts, NamesFit, Pieces, Substitute, Rest, Dollars, CostBefore, FitBefore;
    EmptyAddsDollar(t, s);
    if Rest(t, s) == "" {
      BeforeIsAll(t, s);
      EmitBefore(t, s, Costs(Pieces(t, s)));
      PiecesHaveText(t, s);
      EmitComplete(Pieces(t, s), Costs(Pieces(t, s)));
    }
  }

  // Where the output is cut, and up to where it agrees with the full substitution.

  /** How many expansions are begun before the budget is used up. */
  function Begun(ps: seq<Piece>, budget: nat): nat
    decreases ps
  {
    if ps == [] || budget == 0 then 0
    else
      (if ps[0].Plain? then 0 else 1) + if ps[0].Cost() <= budget then Begun(ps[1..], budget - ps[0].Cost()) else 0
  }

  /** Each of them costs a byte more than it puts out; so much of the output there is. */
  function OutLength(ps: seq<Piece>, budget: nat): int {
    if Costs(ps) <= budget then |Texts(ps)| else budget - Begun(ps, budget)
  }

  lemma {:induction false} CutFalls(ps: seq<Piece>, budget: nat)
    ensures |Emit(ps, budget)| == OutLength(ps, budget)
  {
    if ps != [] && budget > 0 && ps[0].Cost() <= budget {
      CutFalls(ps[1..], budget - ps[0].Cost());
    }
  }

  /** Length of the longest common prefix. */
  function Common(a: string, b: string): (n: nat)
    ensures n <= |a| && n <= |b| && a[..n] == b[..n]
    ensures n < |a| && n < |b| ==> a[n] != b[n]
  {
    if a == "" || b == "" || a[0] != b[0] then 0
    else
      var n := 1 + Common(a[1..], b[1..]);
      assert a[..n] == [a[0]] + a[1..][..n - 1] && b[..n] == [b[0]] + b[1..][..n - 1];
      n
  }

  lemma AgreeUpTo(a: string, b: string, n: nat)
    requires n <= |a|
    ensures a[..n] <= b <==> n <= Common(a, b)
  {
    hide Common;
    var k := Common(a, b);
    if n <= k {
      assert a[..n] == a[..k][..n] && b[..n] == b[..k][..n];
    } else if k < |b| {
      assert a[..n][k] == a[k] != b[k];
    }
  }

  lemma {:induction false} CommonConcat(a: string, b: string, c: string)
    ensures Common(a + b, a + c) == |a| + Common(b, c)
  {
    if a == "" {
      Seqs.EmptyUnits(b);
      Seqs.EmptyUnits(c);
    } else {
      CommonConcat(a[1..], b, c);
      Seqs.DropConcat(a, b, 1);
      Seqs.DropConcat(a, c, 1);
    }
  }

  /** s starts with a variable without a value, or with a name that does not fit. */
  predicate StartsTrouble(t: Table, s: string) {
    StartsEmpty(t, s) || !FirstNameFits(s)
  }

  /** The item from the first of these on, and what the part before it stands for. */
  function Trouble(t: Table, s: string): string
    decreases |s|
  {
    if s == "" || StartsTrouble(t, s) then s else Trouble(t, s[FirstPiece(t, s).1..])
  }

  function Clear(t: Table, s: string): string
    decreases |s|
  {
    if s == "" || StartsTrouble(t, s) then "" else FirstValue(t, s) + Clear(t, s[FirstPiece(t, s).1..])
  }

  /** Up to there the output and the full substitution are the same. */
  lemma {:induction false} SameUntilTrouble(t: Table, s: string)
    requires ShortNames(t)
    ensures Texts(Pieces(t, s)) == Clear(t, s) + Texts(Pieces(t, Trouble(t, s)))
    ensures Substitute(t, s) == Clear(t, s) + Substitute(t, Trouble(t, s))
    ensures Trouble(t, s) == "" || StartsTrouble(t, Trouble(t, s))
    decreases |s|
  {
    if s == "" || StartsTrouble(t, s) {
      Seqs.EmptyUnits(Texts(Pieces(t, s)));
      Seqs.EmptyUnits(Substitute(t, s));
    } else {
      hide FirstPiece, FirstValue, FirstNameFits, StartsEmpty, Substitute, Pieces;
      OnePiece(t, s);
      var (p, n) := FirstPiece(t, s);
      SameUntilTrouble(t, s[n..]);
      Seqs.Assoc(p.Text(), Clear(t, s[n..]), Texts(Pieces(t, Trouble(t, s[n..]))));
      Seqs.Assoc(p.Text(), Clear(t, s[n..]), Substitute(t, Trouble(t, s[n..])));
    }
  }

  /** How far the uncut output and the full substitution agree. */
  function Agreed(t: Table, s: string): nat {
    Common(Texts(Pieces(t, s)), Substitute(t, s))
  }

  /** They agree throughout if there is no trouble; at least up to the trouble otherwise, and 511 bytes further if
      it is a long name. A variable without a value ends the agreement there, unless what follows it starts with a
      dollar sign, too. */
  lemma AgreedExact(t: Table, s: string)
    requires ShortNames(t)
    ensures var rest := Trouble(t, s);
      if rest == "" then Agreed(t, s) == |Texts(Pieces(t, s))| == |Substitute(t, s)|
      else if !StartsEmpty(t, rest) then Agreed(t, s) >= |Clear(t, s)| + VARNAME_SIZE - 1
      else if Substitute(t, rest) != "" && Substitute(t, rest)[0] == '$' then Agreed(t, s) > |Clear(t, s)|
      else Agreed(t, s) == |Clear(t, s)|
  {
    var rest := Trouble(t, s);
    SameUntilTrouble(t, s);
    var a, b := Texts(Pieces(t, rest)), Substitute(t, rest);
    CommonConcat(Clear(t, s), a, b);
    if rest != "" {
      hide FirstPiece, Substitute, Pieces, Clear, Trouble, FirstValue, NameLength, Common;
      TroubleStarts(t, rest);
      AgreeUpTo(a, b, if StartsEmpty(t, rest) then 1 else VARNAME_SIZE - 1);
    }
  }

  lemma TroubleStarts(t: Table, s: string)
    requires ShortNames(t) && s != "" && StartsTrouble(t, s)
    ensures var a, b := Texts(Pieces(t, s)), Substitute(t, s);
      if StartsEmpty(t, s) then a != "" && a[0] == '$'
      else |a| >= VARNAME_SIZE - 1 && a[..VARNAME_SIZE - 1] <= b
  {
    hide FirstPiece, Substitute, Pieces, FirstValue, NameLength;
    OnePiece(t, s);
    var (p, n) := FirstPiece(t, s);
    var v := FirstValue(t, s);
    Seqs.TakeConcat(p.Text(), Texts(Pieces(t, s[n..])), |p.Text()|);
    if !StartsEmpty(t, s) {
      assert v[..VARNAME_SIZE - 1] <= v + Substitute(t, s[n..]);
    }
  }

  /** The result fits the buffer, and its length is known. It is a prefix of the full substitution if and only if
      it ends where the two still agree, and all of it if and only if it also ends where that ends. Unless a
      variable without a value is reached, the latter comes to this: the names and the output up to the first such
      variable fit, and nothing but such variables follows. When one is reached, it takes a cut. */
  lemma ReplaceIsSubstitution(t: Table, item: string)
    requires ShortNames(t)
    ensures var out, full, pieces := Emit(Pieces(t, item), BUDGET), Substitute(t, item), Pieces(t, item);
      var n := OutLength(pieces, BUDGET);
      && |out| == n < BUF_SIZE
      && (out <= full <==> n <= Agreed(t, item))
      && (out == full <==> n == |full| == Agreed(t, item))
      && (!EmptyReached(t, item, BUDGET) ==>
            (out == full <==>
             FitBefore(t, item) && CostBefore(t, item) <= BUDGET && OnlyEmpty(t, Rest(t, item))))
      && (EmptyReached(t, item, BUDGET) && Costs(pieces) <= BUDGET ==> out != full)
  {
    hide Emit, Texts, NamesFit, Pieces, Substitute, Rest, CostBefore, FitBefore, OnlyEmpty, OutLength, Common;
    var pieces, full := Pieces(t, item), Substitute(t, item);
    CutFalls(pieces, BUDGET);
    EmitIsPrefix(pieces, BUDGET);
    AgreeUpTo(Texts(pieces), full, OutLength(pieces, BUDGET));
    if EmptyReached(t, item, BUDGET) {
      PiecesSubstitute(t, item);
      PiecesHaveText(t, item);
      EmitComplete(pieces, BUDGET);
    } else {
      EmitBefore(t, item, BUDGET);
    }
  }

  /** When every variable that is used and defined has a value: the full substitution if and only if the names
      and the output fit. */
  lemma ReplaceWithValues(t: Table, item: string)
    requires ShortNames(t) && Rest(t, item) == ""
    ensures Emit(Pieces(t, item), BUDGET) == Substitute(t, item) <==>
            NamesFit(item) && Costs(Pieces(t, item)) <= BUDGET
  {
    hide Emit, Costs, NamesFit, Pieces, Substitute, Rest, CostBefore, FitBefore;
    BeforeIsAll(t, item);
    EmitBefore(t, item, BUDGET);
  }

  /** A variable that is defined as "" is put out as it is, although it stands for nothing. */
  lemma EmptyStays()
    ensures var t := map["X" := ""]; Substitute(t, "$X") == "" && Emit(Pieces(t, "$X"), BUDGET) == "$X"
  {
    var t := map["X" := ""];
    assert NameLength("X") == 1 && "$X"[1..] == "X" && "X"[..1] == "X" && "X"[1..] == "";
    assert Lookup(t, "X", 1) == "$X" by {
      assert Cut("$" + "X", VARNAME_SIZE - 1) == "$X";
    }
    assert FirstPiece(t, "$X") == (Expansion("$X"), 2);
    assert Pieces(t, "$X") == [Expansion("$X")];
  }

  function Repeated(s: string, k: nat): string {
    if k == 0 then "" else s + Repeated(s, k - 1)
  }

  /** Escaped dollar signs, each with an X. */
  lemma {:induction false} RepeatedEscapes(t: Table, k: nat, tail: string, budget: nat)
    ensures Emit(Pieces(t, Repeated("$$X", k) + tail), 3 * k + budget)
         == Repeated("$X", k) + Emit(Pieces(t, tail), budget)
    ensures Substitute(t, Repeated("$$X", k) + tail) == Repeated("$X", k) + Substitute(t, tail)
  {
    hide Emit, Pieces, Substitute;
    if k == 0 {
      assert "" + tail == tail;
    } else {
      var rest := Repeated("$$X", k - 1) + tail;
      assert Repeated("$$X", k) + tail == "$$X" + rest;
      EscapePieces(t, rest);
      EmitEscape(Pieces(t, rest), 3 * (k - 1) + budget);
      RepeatedEscapes(t, k - 1, tail, budget);
      Seqs.Assoc("$X", Repeated("$X", k - 1), Emit(Pieces(t, tail), budget));
      Seqs.Assoc("$X", Repeated("$X", k - 1), Substitute(t, tail));
    }
  }

  lemma PlainStep(t: Table, c: char, rest: string)
    requires c != '$'
    ensures Pieces(t, [c] + rest) == [Plain(c)] + Pieces(t, rest)
    ensures Substitute(t, [c] + rest) == [c] + Substitute(t, rest)
  {
    assert ([c] + rest)[1..] == rest;
  }

  lemma EscapeStep(t: Table, rest: string)
    ensures Pieces(t, "$$" + rest) == [Expansion("$")] + Pieces(t, rest)
    ensures Substitute(t, "$$" + rest) == "$" + Substitute(t, rest)
  {
    assert ("$$" + rest)[2..] == rest;
  }

  lemma EscapePieces(t: Table, rest: string)
    ensures Pieces(t, "$$X" + rest) == [Expansion("$"), Plain('X')] + Pieces(t, rest)
    ensures Substitute(t, "$$X" + rest) == "$X" + Substitute(t, rest)
  {
    hide Pieces, Substitute;
    PlainStep(t, 'X', rest);
    EscapeStep(t, "X" + rest);
    assert "$$" + "X" == "$$X" && "$" + "X" == "$X" && ['X'] == "X";
    assert [Expansion("$")] + [Plain('X')] == [Expansion("$"), Plain('X')];
    Seqs.Assoc("$$", "X", rest);
    Seqs.Assoc([Expansion("$")], [Plain('X')], Pieces(t, rest));
    Seqs.Assoc("$", "X", Substitute(t, rest));
  }

  /** A variable without a value in front of a dollar sign. */
  lemma EmptyStep(t: Table, rest: string)
    requires t == map["X" := ""] && rest != "" && rest[0] == '$'
    ensures Pieces(t, "$X" + rest) == [Expansion("$X")] + Pieces(t, rest)
    ensures Substitute(t, "$X" + rest) == Substitute(t, rest)
  {
    var s := "$X" + rest;
    assert s[1..] == "X" + rest && ("X" + rest)[1..] == rest && s[2..] == rest;
    assert NameLength(rest) == 0 && NameLength("X" + rest) == 1;
    assert ("X" + rest)[..1] == "X";
    assert Cut("$" + "X", VARNAME_SIZE - 1) == "$X" && "$X"[1..] == "X";
    assert FirstPiece(t, s) == (Expansion("$X"), 2);
    Seqs.EmptyUnits(Substitute(t, rest));
  }

  lemma {:induction false} RepeatedShift(s: string, k: nat)
    ensures s + Repeated(s, k) == Repeated(s, k) + s
  {
    if k == 0 {
      Seqs.EmptyUnits(s);
    } else {
      RepeatedShift(s, k - 1);
      Seqs.Assoc(s, Repeated(s, k - 1), s);
    }
  }

  lemma EmitEscape(ps: seq<Piece>, budget: nat)
    ensures Emit([Expansion("$"), Plain('X')] + ps, 3 + budget) == "$X" + Emit(ps, budget)
  {
    var one, two := [Plain('X')] + ps, [Expansion("$"), Plain('X')] + ps;
    assert two[1..] == one && one[1..] == ps;
    EmitFirst(one, 1 + budget);
    EmitFirst(two, 3 + budget);
    Seqs.Assoc("$", "X", Emit(ps, budget));
  }

  /** A variable without a value, and then escaped dollar signs, up to where the budget ends. */
  function AgreeingItem(): string {
    "$X" + (Repeated("$$X", 1363) + "$$X$$")
  }

  /** The cut hides the difference: what is put out for the variable stands in for what is missing at the end. */
  lemma CutWhereTheyAgree()
    ensures var t := map["X" := ""]; Emit(Pieces(t, AgreeingItem()), BUDGET) == Substitute(t, AgreeingItem())
  {
    hide Emit, Pieces, Substitute, Repeated;
    var t, xs := map["X" := ""], Repeated("$X", 1363);
    var tail := Repeated("$$X", 1363) + "$$X$$";
    assert tail[0] == '$' by {
      RepeatedStarts("$$X", 1363);
    }
    EmptyStep(t, tail);
    EmitFirst([Expansion("$X")] + Pieces(t, tail), BUDGET);
    RepeatedEscapes(t, 1363, "$$X$$", 2);
    LastEscape(t);
    Seqs.Assoc("$X", xs, "$");
    RepeatedShift("$X", 1363);
    Seqs.Assoc(xs, "$X", "$");
  }

  lemma RepeatedStarts(s: string, k: nat)
    requires s != "" && k > 0
    ensures Repeated(s, k) != "" && Repeated(s, k)[0] == s[0]
  {
  }

  lemma LastEscape(t: Table)
    ensures Emit(Pieces(t, "$$X$$"), 2) == "$" && Substitute(t, "$$X$$") == "$X" + "$"
  {
    EscapePieces(t, "$$");
    EscapeStep(t, "");
    assert "$$X" + "$$" == "$$X$$" && "$$" + "" == "$$";
    hide Pieces;
    EmitFirst([Expansion("$"), Plain('X')] + Pieces(t, "$$"), 2);
  }

  /** Items without a dollar sign, which are returned as they are, are their own substitution. */
  lemma {:induction false} NothingToSubstitute(t: Table, item: string)
    requires '$' !in item
    ensures Substitute(t, item) == item
  {
    if item != "" {
      NothingToSubstitute(t, item[1..]);
    }
  }

  // ---------------------------------------------------------------------
  // What the full substitution makes of an item that is written part by part.

  /** A character other than the dollar sign, an escaped dollar sign, or a variable. */
  datatype Part = Letter(c: char) | Dollar | Variable(name: string)

  function Source(parts: seq<Part>): string {
    if parts == [] then ""
    else
      (match parts[0]
       case Letter(c) => [c]
       case Dollar => "$$"
       case Variable(name) => "$" + name) + Source(parts[1..])
  }

  /** What it stands for: a defined variable is its value, and another one is left as it is. */
  function Meaning(t: Table, parts: seq<Part>): string {
    if parts == [] then ""
    else
      (match parts[0]
       case Letter(c) => [c]
       case Dollar => "$"
       case Variable(name) => if name in t then t[name] else "$" + name) + Meaning(t, parts[1..])
  }

  predicate Readable(parts: seq<Part>) {
    parts == [] ||
    ((match parts[0]
      case Letter(c) => c != '$'
      case Dollar => true
      case Variable(name) => Ends(name, parts[1..])) &&
     Readable(parts[1..]))
  }

  /** A name is of capitals, digits and underscores, and what follows it cannot continue it. */
  predicate Ends(name: string, parts: seq<Part>) {
    && (forall k | 0 <= k < |name| :: InNames(name[k]))
    && (parts == [] || if parts[0].Letter? then !InNames(parts[0].c) else name != "")
  }

  /** The ASCII codes of capitals, digits and the underscore. */
  predicate InNames(c: char) {
    var n := c as int;
    65 <= n <= 90 || 48 <= n <= 57 || n == 95
  }

  /** The full substitution replaces exactly the variables. */
  lemma {:induction false} SubstituteParts(t: Table, parts: seq<Part>)
    requires Readable(parts)
    ensures Substitute(t, Source(parts)) == Meaning(t, parts)
  {
    if parts != [] {
      SubstituteParts(t, parts[1..]);
      var s, rest := Source(parts), Source(parts[1..]);
      match parts[0]
      case Letter(c) => assert s[1..] == rest;
      case Dollar => assert s[2..] == rest;
      case Variable(name) => SubstituteVariable(t, name, parts[1..]);
    }
  }

  lemma SubstituteVariable(t: Table, name: string, parts: seq<Part>)
    requires Ends(name, parts) && Readable(parts)
    ensures Substitute(t, "$" + name + Source(parts)) ==
            (if name in t then t[name] else "$" + name) + Substitute(t, Source(parts))
  {
    VariableEnds(name, parts);
    hide Source, Ends, Readable;
    SubstituteName(t, name, Source(parts));
  }

  lemma SubstituteName(t: Table, name: string, rest: string)
    requires NameLength(name + rest) == |name| && (name + rest != "" ==> (name + rest)[0] != '$')
    ensures Substitute(t, "$" + name + rest) == Value(t, name) + Substitute(t, rest)
  {
    hide NameLength;
    var s := "$" + name + rest;
    assert s[1..] == name + rest;
    assert (name + rest)[..|name|] == name && (name + rest)[|name|..] == rest;
  }

  /** The name is read to its end, and no further. */
  lemma VariableEnds(name: string, parts: seq<Part>)
    requires Ends(name, parts) && Readable(parts)
    ensures NameLength(name + Source(parts)) == |name|
    ensures name + Source(parts) != "" ==> (name + Source(parts))[0] != '$'
  {
    var rest := Source(parts);
    if parts != [] {
      assert rest[0] == if parts[0].Letter? then parts[0].c else '$';
    }
    NameLengthIs(name, rest);
  }

  lemma {:induction false} NameLengthIs(name: string, rest: string)
    requires (forall k | 0 <= k < |name| :: ValidVarChar(name[k])) && (rest != "" ==> !ValidVarChar(rest[0]))
    ensures NameLength(name + rest) == |name|
  {
    if name == "" {
      Seqs.EmptyUnits(rest);
    } else {
      Seqs.DropConcat(name, rest, 1);
      NameLengthIs(name[1..], rest);
    }
  }
}
