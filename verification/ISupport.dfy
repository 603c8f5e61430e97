/**
 The 005 (ISUPPORT) tokens of `src/api-isupport.c`: a list sorted by name, packed into the lines that
 are sent to clients.
 */
module ISupport {
  import opened CStrings
  import opened Casemap
  import opened Options
  import opened Packing
  import Seqs

  const MAXISUPPORTLINES := 10
  const MAX_NAME := 20

  datatype Token = Token(name: string, value: Option<string>)

  /** What a token contributes to a line; the temporary buffer cuts it. */
  function Text(t: Token): string {
    match t.value
    case None => Cut(t.name, ISUPPORTLEN - 1)
    case Some(v) => Cut(t.name + "=" + v, ISUPPORTLEN - 1)
  }

  function Texts(ts: seq<Token>): (r: seq<string>)
    ensures |r| == |ts|
  {
    seq(|ts|, i requires 0 <= i < |ts| => Text(ts[i]))
  }

  // ---------------------------------------------------------------------
  // The order of names.

  /** strcmp(a, b) < 0 */
  predicate Less(a: string, b: string) {
    b != "" && (a == "" || a[0] < b[0] || (a[0] == b[0] && Less(a[1..], b[1..])))
  }

  lemma {:induction false} LessIsStrict(a: string, b: string)
    ensures !(Less(a, b) && Less(b, a))
    ensures a != b ==> Less(a, b) || Less(b, a)
    ensures !Less(a, a)
  {
    if a != "" && b != "" && a[0] == b[0] {
      LessIsStrict(a[1..], b[1..]);
      assert a == [a[0]] + a[1..] && b == [b[0]] + b[1..];
    }
    if a != "" {
      LessIsStrict(a[1..], a[1..]);
    }
  }

  lemma {:induction false} LessIsTransitive(a: string, b: string, c: string)
    requires Less(a, b) && Less(b, c)
    ensures Less(a, c)
  {
    if a != "" && a[0] == b[0] == c[0] {
      LessIsTransitive(a[1..], b[1..], c[1..]);
    }
  }

  /** In order of names, and no name twice. */
  predicate Sorted(ts: seq<Token>) {
    forall i, j | 0 <= i < j < |ts| :: Less(ts[i].name, ts[j].name)
  }

  /** Where a token goes: before the first one with a greater name. */
  function Position(ts: seq<Token>, name: string): (i: nat)
    ensures i <= |ts| && (i < |ts| ==> Less(name, ts[i].name))
    ensures forall k | 0 <= k < i :: !Less(name, ts[k].name)
  {
    if ts == [] || Less(name, ts[0].name) then 0 else 1 + Position(ts[1..], name)
  }

  predicate AllBelow(ts: seq<Token>, name: string) {
    forall k | 0 <= k < |ts| :: Less(ts[k].name, name)
  }

  predicate AllAbove(ts: seq<Token>, name: string) {
    forall k | 0 <= k < |ts| :: Less(name, ts[k].name)
  }

  lemma PositionSplits(ts: seq<Token>, name: string)
    requires Sorted(ts) && forall k | 0 <= k < |ts| :: ts[k].name != name
    ensures AllBelow(ts[..Position(ts, name)], name) && AllAbove(ts[Position(ts, name)..], name)
  {
    hide Less;
    var p := Position(ts, name);
    forall k | 0 <= k < |ts|
      ensures if k < p then Less(ts[k].name, name) else Less(name, ts[k].name)
    {
      LessIsStrict(ts[k].name, name);
      if k > p {
        LessIsTransitive(name, ts[p].name, ts[k].name);
      }
    }
  }

  lemma InsertKeepsSorted(ts: seq<Token>, t: Token)
    requires Sorted(ts) && forall k | 0 <= k < |ts| :: ts[k].name != t.name
    ensures Sorted(Seqs.InsertAt(ts, Position(ts, t.name), t))
  {
    PositionSplits(ts, t.name);
    hide Less, Position, Sorted, AllBelow, AllAbove;
    var p := Position(ts, t.name);
    Seqs.TakeDrop(ts, p);
    SortedAround(ts[..p], t, ts[p..]);
  }

  lemma SortedAround(a: seq<Token>, t: Token, b: seq<Token>)
    requires Sorted(a + b)
    requires AllBelow(a, t.name) && AllAbove(b, t.name)
    ensures Sorted(a + [t] + b)
  {
    hide Less;
    var r, s := a + [t] + b, a + b;
    forall i, j | 0 <= i < j < |r|
      ensures Less(r[i].name, r[j].name)
    {
      if i == |a| {
        assert r[j] == b[j - |a| - 1];
      } else if j == |a| {
        assert r[i] == a[i];
      } else {
        assert r[i] == s[if i < |a| then i else i - 1];
        assert r[j] == s[if j < |a| then j else j - 1];
      }
    }
  }

  /** A sorted list is determined by its tokens: the order in which they were added leaves no trace. */
  lemma {:induction false} SortedIsCanonical(a: seq<Token>, b: seq<Token>)
    requires Sorted(a) && Sorted(b) && forall t :: t in a <==> t in b
    ensures a == b
  {
    BothEmpty(a, b);
    if a != [] {
      SameFirst(a, b);
      SameRest(a, b);
      SortedIsCanonical(a[1..], b[1..]);
      assert a == [a[0]] + a[1..] && b == [b[0]] + b[1..];
    }
  }

  lemma BothEmpty(a: seq<Token>, b: seq<Token>)
    requires forall t :: t in a <==> t in b
    ensures a == [] <==> b == []
  {
    assert a != [] ==> a[0] in a;
    assert b != [] ==> b[0] in b;
  }

  lemma SameFirst(a: seq<Token>, b: seq<Token>)
    requires Sorted(a) && Sorted(b) && a != [] && b != [] && forall t :: t in a <==> t in b
    ensures a[0] == b[0]
  {
    hide Less;
    assert a[0] in b && b[0] in a;
    var i :| 0 <= i < |b| && b[i] == a[0];
    var j :| 0 <= j < |a| && a[j] == b[0];
    LessIsStrict(a[0].name, b[0].name);
  }

  lemma SameRest(a: seq<Token>, b: seq<Token>)
    requires Sorted(a) && Sorted(b) && a != [] && b != [] && a[0] == b[0] && forall t :: t in a <==> t in b
    ensures Sorted(a[1..]) && Sorted(b[1..]) && forall t :: t in a[1..] <==> t in b[1..]
  {
    hide Less;
    LessIsStrict(a[0].name, a[0].name);
    forall t
      ensures t in a[1..] <==> t in a && t != a[0]
      ensures t in b[1..] <==> t in b && t != a[0]
    {
      assert a == [a[0]] + a[1..] && b == [b[0]] + b[1..];
    }
  }

  // ---------------------------------------------------------------------
  // The table.

  predicate IsAlnum(c: char) {
    '0' <= c <= '9' || 'A' <= c <= 'Z' || 'a' <= c <= 'z'
  }

  predicate ValidName(name: string) {
    0 < |name| <= MAX_NAME && forall i | 0 <= i < |name| :: IsAlnum(name[i]) || name[i] == '/'
  }

  predicate ValidValue(value: Option<string>) {
    value.Some? ==> forall i | 0 <= i < |value.value| :: '!' <= value.value[i] <= '~'
  }

  datatype Outcome = Exists | Invalid | Done | TooManyLines

  /** The lines that stand for the tokens. */
  predicate Shows(lines: seq<string>, ts: seq<Token>) {
    var groups := Greedy(Texts(ts), []);
    |lines| == |groups| && forall k | 0 <= k < |lines| :: lines[k] == Join(groups[k])
  }

  predicate Has(ts: seq<Token>, name: string) {
    exists i :: 0 <= i < |ts| && Fold(ts[i].name) == Fold(name)
  }

  /** Names are valid, in order, and no two are the same in any case. */
  predicate WellKept(ts: seq<Token>) {
    && Sorted(ts)
    && (forall i | 0 <= i < |ts| :: ValidName(ts[i].name))
    && (forall i, j | 0 <= i < j < |ts| :: Fold(ts[i].name) != Fold(ts[j].name))
  }

  /** A token whose text needs no cut and has no space. */
  predicate Readable(t: Token) {
    t.value.Some? ==> SpaceFree(t.value.value) && |t.name| + 1 + |t.value.value| < ISUPPORTLEN
  }

  /** What a client makes of a word: what is behind the first equals sign is the value. */
  function ReadToken(w: string): Token {
    if '=' in w then var k := EqualsAt(w); Token(w[..k], Some(w[k + 1..])) else Token(w, None)
  }

  function EqualsAt(w: string): (k: nat)
    requires '=' in w
    ensures k < |w| && w[k] == '=' && '=' !in w[..k]
  {
    if w[0] == '=' then 0
    else
      var k := 1 + EqualsAt(w[1..]);
      assert w[..k] == [w[0]] + w[1..][..k - 1];
      k
  }

  /** What a client makes of the words of all lines. */
  function ReadAll(lines: seq<string>): seq<Token> {
    var words := SplitAll(lines);
    seq(|words|, i requires 0 <= i < |words| => ReadToken(words[i]))
  }

  class Table {
    var tokens: seq<Token>
    /** The lines, and how many of them are in use. */
    const strings: array<string>
    var used: nat

    ghost predicate Valid()
      reads this
    {
      && strings.Length == MAXISUPPORTLINES + 1 && used <= MAXISUPPORTLINES
      && WellKept(tokens)
    }

    constructor ()
      ensures Valid() && fresh(strings) && tokens == []
    {
      strings := new string[MAXISUPPORTLINES + 1](_ => "");
      tokens, used := [], 0;
    }

    /** make_isupportstrings; it gives up the process when the lines do not suffice. */
    method MakeStrings() returns (ok: bool)
      requires Valid()
      modifies this`used, strings
      ensures Valid()
      ensures ok <==> |Greedy(Texts(tokens), [])| <= MAXISUPPORTLINES
      ensures ok ==> Shows(strings[..used], tokens)
      ensures ok && (forall t | t in tokens :: Readable(t)) ==> ReadAll(strings[..used]) == tokens
    {
      hide Greedy, Join, Readable, ReadToken, Overflows, Texts, Text, Sorted, ValidName, Fold, Strlcat, Words, Shows;
      ghost var ws := Texts(tokens);
      ghost var done: seq<seq<string>>, cur: seq<string> := [], [];
      TextsAreWords(tokens);
      GreedyStarts(ws);
      var i: nat, tokcnt: nat, k: nat := 0, 0, 0;
      strings[0] := "";
      while k < |tokens|
        invariant used == old(used)
        invariant k <= |tokens| && |done| == i < MAXISUPPORTLINES && tokcnt == |cur|
        invariant forall j | 0 <= j < i :: strings[j] == Join(done[j])
        invariant strings[i] == Join(cur) && (cur == [] <==> strings[i] == "")
        invariant done + Greedy(ws[k..], cur) == Greedy(ws, [])
      {
        var tmp := Text(tokens[k]);
        TextsAt(tokens, ws, k);
        GreedyStep(ws, k, done, cur);
        OverflowsIs(cur, tmp);
        tokcnt := tokcnt + 1;
        if |strings[i]| + |tmp| + 1 >= ISUPPORTLEN || tokcnt == MAX_WORDS + 1 {
          i := i + 1;
          strings[i] := "";
          tokcnt := 1;
          done, cur := done + [cur], [];
          if i == MAXISUPPORTLINES {
            TooMany(ws, k, done);
            return false;
          }
        }
        AppendWord(cur, tmp);
        if strings[i] != "" {
          strings[i] := Strlcat(strings[i], " ", ISUPPORTLEN);
        }
        strings[i] := Strlcat(strings[i], tmp, ISUPPORTLEN);
        cur := cur + [tmp];
        k := k + 1;
      }
      GreedyEnds(ws, done, cur);
      used := i + 1;
      assert strings[..used] == strings[..i] + [strings[i]];
      LinesShow(strings[..used], tokens, done, cur);
      TokensReadBack(strings[..used], tokens);
      return true;
    }

    /** ISupportFind */
    method Find(name: string) returns (r: Option<nat>)
      ensures r.Some? ==> r.value < |tokens| && Fold(tokens[r.value].name) == Fold(name)
      ensures r.None? ==> !Has(tokens, name)
    {
      var i: nat := 0;
      while i < |tokens|
        invariant i <= |tokens| && forall k | 0 <= k < i :: Fold(tokens[k].name) != Fold(name)
      {
        if Fold(name) == Fold(tokens[i].name) {
          return Some(i);
        }
        i := i + 1;
      }
      return None;
    }

    /** isupport_add_sorted */
    method AddSorted(t: Token)
      requires Valid() && ValidName(t.name) && !Has(tokens, t.name)
      modifies this`tokens
      ensures Valid() && tokens == Seqs.InsertAt(old(tokens), Position(old(tokens), t.name), t)
    {
      hide ValidName, Less, Sorted;
      InsertedKeeps(tokens, t);
      var i: nat := 0;
      while i < |tokens| && !Less(t.name, tokens[i].name)
        invariant i <= Position(tokens, t.name)
      {
        i := i + 1;
      }
      tokens := Seqs.InsertAt(tokens, i, t);
    }

    /** ISupportAdd, for tokens of the server itself. */
    method Add(name: string, value: Option<string>) returns (r: Outcome)
      requires Valid()
      modifies this, strings
      ensures Valid()
      ensures r.Exists? <==> Has(old(tokens), name)
      ensures r.Invalid? <==> !Has(old(tokens), name) && !(ValidName(name) && ValidValue(value))
      ensures var all := Seqs.InsertAt(old(tokens), Position(old(tokens), name), Token(name, value));
        && (r.TooManyLines? ==> |Greedy(Texts(all), [])| > MAXISUPPORTLINES)
        && (r.Done? ==> tokens == all && Shows(strings[..used], all))
        && (r.Done? && (forall t | t in all :: Readable(t)) ==> ReadAll(strings[..used]) == all)
        && (r.Exists? || r.Invalid? ==> tokens == old(tokens) && used == old(used) && strings[..] == old(strings[..]))
    {
      hide Greedy, Texts, Position, Shows, Readable, ReadToken, Less, Sorted;
      var found := Find(name);
      if found.Some? {
        return Exists;
      }
      var i: nat := 0;
      while i < |name|
        invariant i <= |name| && forall k | 0 <= k < i :: IsAlnum(name[k]) || name[k] == '/'
      {
        if !IsAlnum(name[i]) && name[i] != '/' {
          return Invalid;
        }
        i := i + 1;
      }
      if name == "" || i > MAX_NAME {
        return Invalid;
      }
      if value.Some? {
        i := 0;
        while i < |value.value|
          invariant i <= |value.value| && forall k | 0 <= k < i :: '!' <= value.value[k] <= '~'
        {
          if value.value[i] < '!' || value.value[i] > '~' {
            return Invalid;
          }
          i := i + 1;
        }
      }
      AddSorted(Token(name, value));
      var ok := MakeStrings();
      return if ok then Done else TooManyLines;
    }

    /** ISupportSetValue, for the token at position k. */
    method SetValue(k: nat, value: Option<string>) returns (ok: bool)
      requires Valid() && k < |tokens|
      modifies this, strings
      ensures Valid() && tokens == old(tokens)[k := old(tokens)[k].(value := value)]
      ensures ok <==> |Greedy(Texts(tokens), [])| <= MAXISUPPORTLINES
      ensures ok ==> Shows(strings[..used], tokens)
      ensures ok && (forall t | t in tokens :: Readable(t)) ==> ReadAll(strings[..used]) == tokens
    {
      hide Greedy, Texts, Shows, Readable, ReadToken, Less;
      tokens := tokens[k := tokens[k].(value := value)];
      ok := MakeStrings();
    }

    /** ISupportDel, for the token at position k. */
    method Del(k: nat) returns (ok: bool)
      requires Valid() && k < |tokens|
      modifies this, strings
      ensures Valid() && tokens == Seqs.CutOut(old(tokens), k)
      ensures ok <==> |Greedy(Texts(tokens), [])| <= MAXISUPPORTLINES
      ensures ok ==> Shows(strings[..used], tokens)
      ensures ok && (forall t | t in tokens :: Readable(t)) ==> ReadAll(strings[..used]) == tokens
    {
      hide Greedy, Texts, Shows, Readable, ReadToken, Less, ValidName;
      Seqs.CutOutIs(tokens, k);
      tokens := Seqs.CutOut(tokens, k);
      ok := MakeStrings();
    }
  }

  lemma TextsAreWords(ts: seq<Token>)
    requires forall i | 0 <= i < |ts| :: ValidName(ts[i].name)
    ensures Words(Texts(ts))
  {
  }

  lemma TextsAt(ts: seq<Token>, ws: seq<string>, k: nat)
    requires k < |ts| && ws == Texts(ts) && Words(ws)
    ensures ws[k] == Text(ts[k]) && 0 < |ws[k]| <= LINE_MAX
  {
  }

  lemma TooMany(ws: seq<string>, k: nat, done: seq<seq<string>>)
    requires k < |ws|
    ensures |done + Greedy(ws[k + 1..], [] + [ws[k]])| > |done|
  {
  }

  lemma LinesShow(lines: seq<string>, ts: seq<Token>, done: seq<seq<string>>, cur: seq<string>)
    requires done + [cur] == Greedy(Texts(ts), []) && |lines| == |done| + 1
    requires forall j | 0 <= j < |done| :: lines[j] == Join(done[j])
    requires lines[|done|] == Join(cur)
    ensures Shows(lines, ts)
  {
    hide Greedy, Texts, Join;
  }

  lemma GreedyStarts(ws: seq<string>)
    ensures [] + Greedy(ws[0..], []) == Greedy(ws, []) && Join([]) == ""
  {
    assert ws[0..] == ws;
  }

  lemma GreedyStep(ws: seq<string>, k: nat, done: seq<seq<string>>, cur: seq<string>)
    requires k < |ws|
    ensures done + Greedy(ws[k..], cur) ==
      if Overflows(cur, ws[k]) then done + [cur] + Greedy(ws[k + 1..], [] + [ws[k]])
      else done + Greedy(ws[k + 1..], cur + [ws[k]])
  {
    hide Overflows;
    assert ws[k..][1..] == ws[k + 1..];
    Seqs.EmptyUnits([ws[k]]);
    if Overflows(cur, ws[k]) {
      Seqs.Assoc(done, [cur], Greedy(ws[k + 1..], [ws[k]]));
    }
  }

  lemma GreedyEnds(ws: seq<string>, done: seq<seq<string>>, cur: seq<string>)
    ensures done + Greedy(ws[|ws|..], cur) == done + [cur]
  {
  }

  lemma OverflowsIs(cur: seq<string>, w: string)
    ensures Overflows(cur, w) <==> |Join(cur)| + |w| + 1 >= ISUPPORTLEN || |cur| + 1 == MAX_WORDS + 1
  {
  }

  /** Adding a word to a line does not cut anything off. */
  lemma AppendWord(cur: seq<string>, w: string)
    requires 0 < |w| <= LINE_MAX && (cur != [] ==> Join(cur) != "" && !Overflows(cur, w))
    ensures var line := Join(cur);
      var spaced := if line != "" then Strlcat(line, " ", ISUPPORTLEN) else line;
      Strlcat(spaced, w, ISUPPORTLEN) == Join(cur + [w]) && Join(cur + [w]) != ""
  {
    JoinAppend(cur, w);
    Seqs.EmptyUnits(w);
  }

  lemma InsertedKeeps(ts: seq<Token>, t: Token)
    requires WellKept(ts) && ValidName(t.name) && !Has(ts, t.name)
    ensures WellKept(Seqs.InsertAt(ts, Position(ts, t.name), t))
  {
    hide Less, ValidName, Position, Fold;
    var p := Position(ts, t.name);
    var r := Seqs.InsertAt(ts, p, t);
    assert forall k | 0 <= k < |ts| :: Fold(ts[k].name) != Fold(t.name);
    InsertKeepsSorted(ts, t);
    hide Sorted;
    assert forall k | 0 <= k < |r| :: r[k] == if k < p then ts[k] else if k == p then t else ts[k - 1];
  }

  // ---------------------------------------------------------------------
  // What clients read.

  /** No line is longer than its buffer or has too many tokens, and reading all lines gives back the
      texts of all tokens, in order, when there are no spaces in them. */
  lemma LinesReadBack(lines: seq<string>, ts: seq<Token>)
    requires Shows(lines, ts) && forall i | 0 <= i < |ts| :: ValidName(ts[i].name)
    ensures forall k | 0 <= k < |lines| :: |lines[k]| <= LINE_MAX
    ensures (forall w | w in Texts(ts) :: SpaceFree(w)) ==>
      && SplitAll(lines) == Texts(ts)
      && forall k | 0 <= k < |lines| :: |Split(lines[k])| <= MAX_WORDS
  {
    hide Greedy, Join, Texts, Split, ValidName, SpaceFree;
    TextsAreWords(ts);
    var ws := Texts(ts);
    var gs := Greedy(ws, []);
    GreedyFits(ws);
    if forall w | w in ws :: SpaceFree(w) {
      assert forall w | w in Flatten(gs) :: w != "" && SpaceFree(w);
      SplitLines(gs, lines);
      forall k | 0 <= k < |lines|
        ensures |Split(lines[k])| <= MAX_WORDS
      {
        FlattenHas(gs, k);
        SplitLine(gs[k]);
      }
    }
  }

  /** Clients read back every token, with its name and its value; and a word has an equals sign exactly when
      its token has a value. */
  lemma TokensReadBack(lines: seq<string>, ts: seq<Token>)
    requires Shows(lines, ts) && forall i | 0 <= i < |ts| :: ValidName(ts[i].name)
    ensures (forall t | t in ts :: Readable(t)) ==>
      && ReadAll(lines) == ts
      && forall i | 0 <= i < |ts| :: '=' in SplitAll(lines)[i] <==> ts[i].value.Some?
  {
    LinesReadBack(lines, ts);
    hide Shows, Readable, SplitAll, ReadToken, ValidName;
    var ws := Texts(ts);
    if forall t | t in ts :: Readable(t) {
      forall i | 0 <= i < |ts|
        ensures SpaceFree(ws[i]) && ReadToken(ws[i]) == ts[i] && ('=' in ws[i] <==> ts[i].value.Some?)
      {
        assert ts[i] in ts;
        TextReadBack(ts[i]);
      }
    }
  }

  lemma TextReadBack(t: Token)
    requires ValidName(t.name) && Readable(t)
    ensures SpaceFree(Text(t)) && ReadToken(Text(t)) == t && ('=' in Text(t) <==> t.value.Some?)
  {
    assert '=' !in t.name && ' ' !in t.name;
    if t.value.Some? {
      EqualsIs(t.name, t.value.value);
    }
  }

  lemma {:induction false} EqualsIs(a: string, b: string)
    requires '=' !in a
    ensures (a + "=" + b)[|a|] == '=' && EqualsAt(a + "=" + b) == |a|
  {
    var w := a + "=" + b;
    assert w[|a|] == '=';
    if a != "" {
      assert w[0] == a[0] && w[1..] == a[1..] + "=" + b;
      EqualsIs(a[1..], b);
    }
  }

  /** What is accepted as a token, by the codes of its characters; and that clients read all of it back unless it is
      too long. */
  lemma AcceptedTokens(name: string, value: string)
    ensures ValidName(name) <==>
      && 1 <= |name| <= 20
      && forall i | 0 <= i < |name| :: var n := name[i] as int; 47 <= n <= 57 || 65 <= n <= 90 || 97 <= n <= 122
    ensures ValidValue(Some(value)) <==> forall i | 0 <= i < |value| :: 33 <= value[i] as int <= 126
    ensures ValidValue(None)
    ensures ValidName(name) && ValidValue(Some(value)) ==>
      (Readable(Token(name, Some(value))) <==> |name| + |value| < 379)
  {
    assert ValidValue(Some(value)) ==> SpaceFree(value);
  }

  /** A text that is too long is cut: without spaces, every word is the name, or the name, an equals sign and
      the value, as far as there is room on a line. */
  lemma WordsAreTokens(lines: seq<string>, ts: seq<Token>)
    requires Shows(lines, ts) && forall i | 0 <= i < |ts| :: ValidName(ts[i].name)
    requires forall i | 0 <= i < |ts| :: ts[i].value.Some? ==> SpaceFree(ts[i].value.value)
    ensures |SplitAll(lines)| == |ts|
    ensures forall i | 0 <= i < |ts| ::
      var w, t := SplitAll(lines)[i], ts[i];
      if t.value.None? then w == t.name
      else
        && w <= t.name + "=" + t.value.value
        && (|w| == LINE_MAX || w == t.name + "=" + t.value.value)
  {
    LinesReadBack(lines, ts);
    hide Shows, SplitAll;
    var ws := Texts(ts);
    forall i | 0 <= i < |ts|
      ensures SpaceFree(ws[i])
    {
      assert ' ' !in ts[i].name;
      var full := if ts[i].value.None? then ts[i].name else ts[i].name + "=" + ts[i].value.value;
      assert ' ' !in full;
      assert ws[i] <= full;
    }
  }

  lemma {:induction false} FlattenHas(gs: seq<seq<string>>, k: nat)
    requires k < |gs|
    ensures forall i | 0 <= i < |gs[k]| :: gs[k][i] in Flatten(gs)
  {
    if k > 0 {
      FlattenHas(gs[1..], k - 1);
    }
  }

  lemma GreedyFits(ws: seq<string>)
    requires Words(ws)
    ensures Flatten(Greedy(ws, [])) == ws
    ensures forall k | 0 <= k < |Greedy(ws, [])| :: Fits(Greedy(ws, [])[k])
  {
    var gs := Greedy(ws, []);
    if ws == [] {
      FlattenOne([]);
    } else {
      GreedyIsBest(ws);
      if SkipsFirstLine(ws) {
        Seqs.EmptyUnits(Flatten(gs[1..]));
        assert forall k | 0 < k < |gs| :: gs[k] == gs[1..][k - 1];
      }
    }
  }

  /** The lines suffice if and only if the texts can be packed at all into that many, or one fewer when
      the first of them is as long as a line. */
  lemma LinesSuffice(ts: seq<Token>)
    requires ts != [] && forall i | 0 <= i < |ts| :: ValidName(ts[i].name)
    ensures var ws := Texts(ts); var spare := if SkipsFirstLine(ws) then 1 else 0;
      |Greedy(ws, [])| <= MAXISUPPORTLINES <==>
      exists gs :: IsPacking(gs, ws) && |gs| + spare <= MAXISUPPORTLINES
  {
    hide Greedy, IsPacking, Texts, ValidName;
    TextsAreWords(ts);
    var ws := Texts(ts);
    GreedyIsBest(ws);
    var lines := Greedy(ws, []);
    var best := if SkipsFirstLine(ws) then lines[1..] else lines;
    assert IsPacking(best, ws);
  }
}
