/**
 Packing words into lines, in order: at most MAX_WORDS words and LINE_MAX bytes a line. The greedy
 packing of `make_isupportstrings` in `src/api-isupport.c`, against all packings there are.
 */
module Packing {
  import opened Seqs

  const ISUPPORTLEN := 380
  const LINE_MAX := ISUPPORTLEN - 1
  const MAX_WORDS := 12

  /** The words with a space between them. */
  function Join(g: seq<string>): string {
    if g == [] then "" else if |g| == 1 then g[0] else Join(g[..|g| - 1]) + " " + g[|g| - 1]
  }

  function Flatten(gs: seq<seq<string>>): seq<string> {
    if gs == [] then [] else gs[0] + Flatten(gs[1..])
  }

  predicate Fits(g: seq<string>) {
    |g| <= MAX_WORDS && |Join(g)| <= LINE_MAX
  }

  /** Words as they come: not empty, and cut to the length of a line. */
  predicate Words(ws: seq<string>) {
    forall i | 0 <= i < |ws| :: 0 < |ws[i]| <= LINE_MAX
  }

  /** Non-empty groups that fit, holding all the words in order. */
  predicate IsPacking(gs: seq<seq<string>>, ws: seq<string>) {
    Flatten(gs) == ws && forall i | 0 <= i < |gs| :: gs[i] != [] && Fits(gs[i])
  }

  /** The test of the code for starting a new line. */
  predicate Overflows(cur: seq<string>, w: string) {
    |Join(cur)| + |w| + 1 >= ISUPPORTLEN || |cur| + 1 == MAX_WORDS + 1
  }

  /** The lines that come out when cur is in the current line and ws are still to be placed. */
  function Greedy(ws: seq<string>, cur: seq<string>): (r: seq<seq<string>>)
    ensures |r| >= 1
  {
    if ws == [] then [cur]
    else if Overflows(cur, ws[0]) then [cur] + Greedy(ws[1..], [ws[0]])
    else Greedy(ws[1..], cur + [ws[0]])
  }

  lemma JoinAppend(g: seq<string>, w: string)
    ensures Join(g + [w]) == if g == [] then w else Join(g) + " " + w
  {
    assert (g + [w])[..|g|] == g;
  }

  /** Length of a line: one space between words. */
  lemma {:induction false} JoinConcat(a: seq<string>, b: seq<string>)
    ensures |Join(a + b)| == |Join(a)| + |Join(b)| + (if a == [] || b == [] then 0 else 1)
  {
    if b == [] {
      assert a + b == a;
    } else {
      var c, w := b[..|b| - 1], b[|b| - 1];
      assert b == c + [w];
      assert a + b == (a + c) + [w];
      JoinConcat(a, c);
      JoinAppend(a + c, w);
      JoinAppend(c, w);
    }
  }

  /** Parts of a group that fits fit. */
  lemma PartFits(a: seq<string>, b: seq<string>, c: seq<string>)
    requires Fits(a + b + c)
    ensures Fits(b)
  {
    JoinConcat(a + b, c);
    JoinConcat(a, b);
  }

  /** On a line that has words, the test of the code says exactly whether the next word still fits. */
  lemma OverflowsExact(cur: seq<string>, w: string)
    requires cur != [] && Fits(cur)
    ensures Overflows(cur, w) <==> !Fits(cur + [w])
  {
    JoinAppend(cur, w);
  }

  // ---------------------------------------------------------------------
  // What comes out is a packing.

  lemma {:induction false} GreedyPacks(ws: seq<string>, cur: seq<string>)
    requires Words(ws) && Fits(cur) && cur != []
    ensures IsPacking(Greedy(ws, cur), cur + ws)
    decreases |ws|
  {
    hide Fits, Overflows;
    if ws == [] {
      EmptyUnits(cur);
      FlattenOne(cur);
    } else {
      OverflowsExact(cur, ws[0]);
      assert Words(ws[1..]);
      if Overflows(cur, ws[0]) {
        OneWordFits(ws[0]);
        GreedyPacks(ws[1..], [ws[0]]);
        var rest := Greedy(ws[1..], [ws[0]]);
        var all := [cur] + rest;
        assert all[1..] == rest;
        assert [ws[0]] + ws[1..] == ws;
        assert forall i | 0 < i < |all| :: all[i] == rest[i - 1];
      } else {
        GreedyPacks(ws[1..], cur + [ws[0]]);
        assert cur + [ws[0]] + ws[1..] == cur + ws;
      }
    }
  }

  /** And each line has as many words as fit: the first word of the next line does not. */
  lemma {:induction false} GreedyFills(ws: seq<string>, cur: seq<string>)
    requires Words(ws) && Fits(cur) && cur != []
    ensures var gs := Greedy(ws, cur);
      && cur <= gs[0] && (forall k | 0 <= k < |gs| :: gs[k] != [])
      && forall k | 0 <= k < |gs| - 1 :: !Fits(gs[k] + [gs[k + 1][0]])
    decreases |ws|
  {
    hide Fits, Overflows;
    if ws != [] {
      OverflowsExact(cur, ws[0]);
      assert Words(ws[1..]);
      if Overflows(cur, ws[0]) {
        OneWordFits(ws[0]);
        GreedyFills(ws[1..], [ws[0]]);
        var rest := Greedy(ws[1..], [ws[0]]);
        var all := [cur] + rest;
        assert all[1][0] == ws[0];
        assert forall k | 0 < k < |all| :: all[k] == rest[k - 1];
      } else {
        GreedyFills(ws[1..], cur + [ws[0]]);
      }
    }
  }

  lemma FlattenOne(g: seq<string>)
    ensures Flatten([g]) == g
  {
    assert [g][1..] == [];
    EmptyUnits(g);
  }

  lemma OneWordFits(w: string)
    requires |w| <= LINE_MAX
    ensures Fits([w])
  {
  }

  // ---------------------------------------------------------------------
  // No packing has fewer lines.

  /** Another packing, stopped where ws are still to be placed: `done` is in its current line, x will
      still go there, and the lines `more` follow. */
  ghost predicate Stopped(ws: seq<string>, done: seq<string>, x: seq<string>, more: seq<seq<string>>) {
    && x + Flatten(more) == ws
    && Fits(done + x)
    && forall i | 0 <= i < |more| :: more[i] != [] && Fits(more[i])
  }

  ghost predicate IsSuffix(a: seq<string>, b: seq<string>) {
    |a| <= |b| && b[|b| - |a|..] == a
  }

  /** Placing one more word of the other packing. */
  lemma Advance(ws: seq<string>, done: seq<string>, x: seq<string>, more: seq<seq<string>>)
    returns (done': seq<string>, x': seq<string>, more': seq<seq<string>>)
    requires ws != [] && Stopped(ws, done, x, more)
    ensures Stopped(ws[1..], done', x', more')
    ensures if x != [] then done' == done + [ws[0]] && more' == more && Fits(done + [ws[0]])
            else done' == [ws[0]] && |more'| + 1 == |more|
  {
    hide Fits, Flatten, Stopped;
    if x != [] {
      AdvanceInLine(ws, done, x, more);
      done', x', more' := done + [ws[0]], x[1..], more;
    } else {
      AdvanceToNext(ws, done, more);
      done', x', more' := [ws[0]], more[0][1..], more[1..];
    }
  }

  lemma AdvanceInLine(ws: seq<string>, done: seq<string>, x: seq<string>, more: seq<seq<string>>)
    requires ws != [] && Stopped(ws, done, x, more) && x != []
    ensures Stopped(ws[1..], done + [ws[0]], x[1..], more) && Fits(done + [ws[0]])
  {
    hide Fits, Flatten;
    assert x == [ws[0]] + x[1..];
    assert done + [ws[0]] + x[1..] == done + x;
    assert ws[1..] == x[1..] + Flatten(more);
    assert [] + (done + [ws[0]]) + x[1..] == done + x;
    PartFits([], done + [ws[0]], x[1..]);
  }

  lemma AdvanceToNext(ws: seq<string>, done: seq<string>, more: seq<seq<string>>)
    requires ws != [] && Stopped(ws, done, [], more)
    ensures more != [] && more[0] != [] && Stopped(ws[1..], [ws[0]], more[0][1..], more[1..])
  {
    hide Fits;
    EmptyUnits(Flatten(more));
    var x := more[0][1..];
    assert ws == more[0] + Flatten(more[1..]);
    hide Flatten;
    assert more[0] == [ws[0]] + x;
    assert ws[1..] == x + Flatten(more[1..]);
  }

  lemma SuffixGrows(a: seq<string>, b: seq<string>, w: string)
    requires IsSuffix(a, b)
    ensures IsSuffix(a + [w], b + [w])
    ensures Fits(b + [w]) ==> Fits(a + [w])
  {
    hide Fits;
    var front := b[..|b| - |a|];
    assert b == front + a;
    assert front + (a + [w]) + [] == b + [w];
    if Fits(b + [w]) {
      PartFits(front, a + [w], []);
    }
  }

  /** The greedy packing stays ahead: as long as it has used no more lines than the other one and its
      current line begins no earlier, or it has used fewer. */
  lemma {:induction false} StaysAhead(ws: seq<string>, cur: seq<string>, done: seq<string>, x: seq<string>,
                                      more: seq<seq<string>>, fewer: bool)
    requires Words(ws) && cur != [] && Fits(cur) && Stopped(ws, done, x, more)
    requires fewer || IsSuffix(cur, done)
    ensures |Greedy(ws, cur)| <= 1 + |more| + if fewer then 1 else 0
    decreases |ws|
  {
    if ws != [] {
      hide Fits, Overflows, Stopped, IsSuffix;
      var w := ws[0];
      assert Words(ws[1..]);
      OneWordFits(w);
      OverflowsExact(cur, w);
      var done', x', more' := Advance(ws, done, x, more);
      if Overflows(cur, w) {
        if !fewer {
          SuffixGrows(cur, done, w);
          assert x == [];
        }
        LastIsSuffix(done, w);
        StaysAhead(ws[1..], [w], done', x', more', false);
      } else if x != [] && !fewer {
        SuffixGrows(cur, done, w);
        StaysAhead(ws[1..], cur + [w], done', x', more', false);
      } else {
        StaysAhead(ws[1..], cur + [w], done', x', more', true);
      }
    }
  }

  lemma LastIsSuffix(done: seq<string>, w: string)
    ensures IsSuffix([w], done + [w]) && IsSuffix([w], [w])
  {
  }

  /** The first word may be so long that the code leaves the first line empty. */
  predicate SkipsFirstLine(ws: seq<string>) {
    ws != [] && |ws[0]| == LINE_MAX
  }

  /** The lines for a list of words: an empty first line if the first word is as long as a line, and then
      a packing of the words with as few lines as any. */
  lemma GreedyIsBest(ws: seq<string>)
    requires Words(ws) && ws != []
    ensures var lines := Greedy(ws, []); var best := if SkipsFirstLine(ws) then lines[1..] else lines;
      && (SkipsFirstLine(ws) ==> lines[0] == [])
      && IsPacking(best, ws)
      && forall gs | IsPacking(gs, ws) :: |best| <= |gs|
  {
    hide Fits, IsPacking, Greedy;
    var w, rest := ws[0], Greedy(ws[1..], [ws[0]]);
    FirstWord(ws);
    assert ([[]] + rest)[0] == [] && ([[]] + rest)[1..] == rest;
    EmptyUnits(rest);
    OneWordFits(w);
    GreedyPacks(ws[1..], [w]);
    assert [w] + ws[1..] == ws;
    forall gs | IsPacking(gs, ws)
      ensures |rest| <= |gs|
    {
      AnyPacking(gs, ws);
    }
  }

  lemma FirstWord(ws: seq<string>)
    requires ws != [] && Words(ws)
    ensures Words(ws[1..])
    ensures Greedy(ws, []) == (if SkipsFirstLine(ws) then [[]] else []) + Greedy(ws[1..], [ws[0]])
  {
    EmptyUnits([ws[0]]);
    EmptyUnits(Greedy(ws[1..], [ws[0]]));
  }

  lemma AnyPacking(gs: seq<seq<string>>, ws: seq<string>)
    requires Words(ws) && ws != [] && IsPacking(gs, ws)
    ensures |Greedy(ws[1..], [ws[0]])| <= |gs|
  {
    hide Fits, Greedy;
    var w := ws[0];
    assert gs != [];
    var x, more := gs[0][1..], gs[1..];
    assert gs[0] == [w] + x;
    assert ws[1..] == x + Flatten(more);
    OneWordFits(w);
    LastIsSuffix([], w);
    StaysAhead(ws[1..], [w], [w], x, more, false);
  }

  // ---------------------------------------------------------------------
  // Reading the lines back.

  /** The maximal runs of characters other than space; w is the run that has been read last. */
  function SplitFrom(s: string, w: string): seq<string> {
    if s == "" then (if w == "" then [] else [w])
    else if s[0] == ' ' then (if w == "" then [] else [w]) + SplitFrom(s[1..], "")
    else SplitFrom(s[1..], w + [s[0]])
  }

  function Split(s: string): seq<string> {
    SplitFrom(s, "")
  }

  predicate SpaceFree(w: string) {
    ' ' !in w
  }

  lemma {:induction false} SplitWord(w: string, s: string, v: string)
    requires SpaceFree(w)
    ensures SplitFrom(w + s, v) == SplitFrom(s, v + w)
    decreases w
  {
    if w == "" {
      EmptyUnits(s);
      EmptyUnits(v);
    } else {
      SplitWord(w[1..], s, v + [w[0]]);
      assert (w + s)[1..] == w[1..] + s;
      assert v + [w[0]] + w[1..] == v + w;
    }
  }

  /** Splitting a line, whatever words its text is followed by. */
  lemma {:induction false} SplitJoin(g: seq<string>, s: string)
    requires forall i | 0 <= i < |g| :: g[i] != "" && SpaceFree(g[i])
    requires s == "" || s[0] == ' '
    ensures Split(Join(g) + s) == g + Split(s)
  {
    if g == [] {
      EmptyUnits(s);
      EmptyUnits(Split(s));
    } else {
      var c, w := g[..|g| - 1], g[|g| - 1];
      assert g == c + [w];
      if c == [] {
        SplitWord(w, s, "");
        EmptyUnits(w);
        SplitEnd(w, s);
      } else {
        SplitJoin(c, " " + w + s);
        Assoc(Join(c), " " + w, s);
        assert Join(g) + s == Join(c) + (" " + w + s);
        assert (" " + w + s)[1..] == w + s;
        SplitWord(w, s, "");
        EmptyUnits(w);
        SplitEnd(w, s);
        EmptyUnits(Split(w + s));
        Assoc(c, [w], Split(s));
      }
    }
  }

  lemma SplitEnd(w: string, s: string)
    requires w != "" && (s == "" || s[0] == ' ')
    ensures SplitFrom(s, w) == [w] + Split(s)
  {
    if s == "" {
      EmptyUnits([w]);
    } else {
      EmptyUnits(SplitFrom(s[1..], ""));
    }
  }

  /** The words of all lines, in order. */
  function SplitAll(lines: seq<string>): seq<string> {
    if lines == [] then [] else Split(lines[0]) + SplitAll(lines[1..])
  }

  /** Splitting all lines gives back the words, in order. */
  lemma {:induction false} SplitLines(gs: seq<seq<string>>, lines: seq<string>)
    requires |lines| == |gs| && forall k | 0 <= k < |gs| :: lines[k] == Join(gs[k])
    requires forall w | w in Flatten(gs) :: w != "" && SpaceFree(w)
    ensures SplitAll(lines) == Flatten(gs)
  {
    hide Split, Join, SpaceFree;
    if gs != [] {
      assert forall w | w in gs[0] :: w in Flatten(gs);
      assert forall w | w in Flatten(gs[1..]) :: w in Flatten(gs);
      SplitLines(gs[1..], lines[1..]);
      SplitLine(gs[0]);
    }
  }

  lemma SplitLine(g: seq<string>)
    requires forall w | w in g :: w != "" && SpaceFree(w)
    ensures Split(Join(g)) == g
  {
    hide Join, SpaceFree;
    SplitJoin(g, "");
    EmptyUnits(Join(g));
    EmptyUnits(g);
  }
}
