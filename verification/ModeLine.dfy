/**
 Mode lines (`src/channel.c`): channel_modes prints the modes of a channel as letters and
 parameters, parse_chanmode is the resumable iterator that reads such a line back
 (MODE syntax, section 4.2.3.1 of RFC 1459).
 */
module ModeLine {
  import opened CStrings
  import opened Cmode
  import opened MemberModes
  import opened Options
  import Seqs

  // ---------------------------------------------------------------------
  // Printing.

  /** What a channel has set: mode bits, and the parameter of each parameter mode. */
  datatype Settings = Settings(bits: set<nat>, params: map<char, string>)

  /** cm_getparameter */
  function Param(s: Settings, letter: char): string {
    if letter in s.params then s.params[letter] else ""
  }

  predicate IsShown(m: Mode, s: Settings, hideLocal: bool) {
    m.letter != NUL && !(hideLocal && m.local) && m.bit != 0 && m.bit in s.bits
  }

  /** The modes printed, in registry order. */
  function Shown(modes: seq<Mode>, s: Settings, hideLocal: bool): seq<Mode> {
    if modes == [] then []
    else
      var n := |modes| - 1;
      Shown(modes[..n], s, hideLocal) + if IsShown(modes[n], s, hideLocal) then [modes[n]] else []
  }

  /** Buffer contents. */
  datatype Line = Line(mbuf: string, pbuf: string)

  /** One round of the loop of channel_modes. */
  function PrintOne(line: Line, m: Mode, s: Settings, show: bool, mbufSize: nat, pbufSize: nat): Line {
    Line(StrlcatLetter(line.mbuf, m.letter, mbufSize),
         if m.paracount > 0 && show then Strlcat(Strlcat(line.pbuf, Param(s, m.letter), pbufSize), " ", pbufSize)
         else line.pbuf)
  }

  function PrintAll(shown: seq<Mode>, s: Settings, show: bool, mbufSize: nat, pbufSize: nat): Line {
    if shown == [] then Line(if mbufSize < 2 then "" else "+", "")
    else
      var n := |shown| - 1;
      PrintOne(PrintAll(shown[..n], s, show, mbufSize, pbufSize), shown[n], s, show, mbufSize, pbufSize)
  }

  /** Drops the trailing byte, which is a space unless the buffer was too small. */
  function Trimmed(pbuf: string): string {
    if pbuf == "" then "" else pbuf[..|pbuf| - 1]
  }

  function Print(modes: seq<Mode>, s: Settings, show: bool, hideLocal: bool, mbufSize: nat, pbufSize: nat): Line {
    var line := PrintAll(Shown(modes, s, hideLocal), s, show, mbufSize, pbufSize);
    Line(line.mbuf, Trimmed(line.pbuf))
  }

  /** channel_modes, for a client that may see parameters iff show. With a size of 0 nothing is written. */
  method ChannelModes(modes: seq<Mode>, s: Settings, show: bool, hideLocal: bool, mbufSize: nat, pbufSize: nat)
    returns (r: Option<Line>)
    ensures r == if mbufSize == 0 || pbufSize == 0 then None
                 else Some(Print(modes, s, show, hideLocal, mbufSize, pbufSize))
  {
    if mbufSize == 0 || pbufSize == 0 {
      return None;
    }
    var mbuf := if mbufSize < 2 then "" else "+";
    var pbuf := "";
    var i := 0;
    while i < |modes|
      invariant i <= |modes|
      invariant Line(mbuf, pbuf) == PrintAll(Shown(modes[..i], s, hideLocal), s, show, mbufSize, pbufSize)
    {
      hide Shown, PrintAll;
      var cm := modes[i];
      PrintStep(modes, i, s, show, hideLocal, mbufSize, pbufSize);
      if cm.letter != NUL && !(hideLocal && cm.local) && cm.bit != 0 && cm.bit in s.bits {
        mbuf := StrlcatLetter(mbuf, cm.letter, mbufSize);
        if cm.paracount > 0 && show {
          pbuf := Strlcat(pbuf, Param(s, cm.letter), pbufSize);
          pbuf := Strlcat(pbuf, " ", pbufSize);
        }
      }
      i := i + 1;
    }
    assert modes[..i] == modes;
    if pbuf != "" {
      pbuf := pbuf[..|pbuf| - 1];
    }
    return Some(Line(mbuf, pbuf));
  }

  lemma PrintStep(modes: seq<Mode>, i: nat, s: Settings, show: bool, hideLocal: bool, mbufSize: nat, pbufSize: nat)
    requires i < |modes|
    ensures var line := PrintAll(Shown(modes[..i], s, hideLocal), s, show, mbufSize, pbufSize);
      PrintAll(Shown(modes[..i + 1], s, hideLocal), s, show, mbufSize, pbufSize) ==
      if IsShown(modes[i], s, hideLocal) then PrintOne(line, modes[i], s, show, mbufSize, pbufSize) else line
  {
    var before := Shown(modes[..i], s, hideLocal);
    assert modes[..i + 1][..i] == modes[..i];
    Seqs.EmptyUnits(before);
    Seqs.TakeConcat(before, [modes[i]], |before|);
  }

  // ---------------------------------------------------------------------
  // Parsing.

  const PARSE_BUF := 512

  /** One result of the iterator: MODE_ADD or MODE_DEL, the letter, its parameter and its handler. */
  datatype Item = Item(add: bool, letter: char, param: Option<string>, mode: Option<Mode>)

  /** The core list modes, which always take a parameter. */
  predicate IsCoreLetter(c: char) {
    c == 'b' || c == 'e' || c == 'I'
  }

  function SkipSpaces(s: string): string {
    if s != "" && s[0] == ' ' then SkipSpaces(s[1..]) else s
  }

  /** Position of the first space, or |s|. */
  function WordEnd(s: string): (n: nat)
    ensures n <= |s| && ' ' !in s[..n] && (n < |s| ==> s[n] == ' ')
  {
    if s == "" || s[0] == ' ' then 0
    else
      var n := 1 + WordEnd(s[1..]);
      assert s[..n] == [s[0]] + s[1..][..n - 1];
      n
  }

  /** stripcrlf */
  function StripCrlf(s: string): string {
    if s == "" || s[0] == '\n' || s[0] == '\r' then "" else [s[0]] + StripCrlf(s[1..])
  }

  /** The next parameter, if any, and the cursor behind it. */
  function TakeParam(parabuf: string): (r: (Option<string>, string)) {
    var start := SkipSpaces(parabuf);
    if start == "" then (None, "")
    else
      var n := WordEnd(start);
      if n < |start| then (Some(StripCrlf(Cut(start[..n], PARSE_BUF))), start[n + 1..])
      else (Some(StripCrlf(Cut(start, PARSE_BUF - 1))), "")
  }

  /** How many bytes the copy of the next parameter takes up in the parse buffer, terminator included. */
  function StoredBytes(parabuf: string): nat {
    var start := SkipSpaces(parabuf);
    if start == "" then 0
    else
      var n := WordEnd(start);
      if n < |start| then |Cut(start[..n], PARSE_BUF)| + 1 else |Cut(start, PARSE_BUF - 1)| + 1
  }

  /** The next parameter is as long as the parse buffer, or longer, and a space follows it. */
  predicate LongWord(parabuf: string) {
    var start := SkipSpaces(parabuf);
    PARSE_BUF <= WordEnd(start) < |start|
  }

  /** The copy fits the buffer if and only if it is not of such a word. */
  lemma StoredFits(parabuf: string)
    ensures StoredBytes(parabuf) <= PARSE_BUF <==> !LongWord(parabuf)
  {
  }

  /** Whether a letter takes a parameter; None for a letter nobody handles. */
  function EatsParam(modes: seq<Mode>, add: bool, letter: char): Option<bool> {
    if IsCoreLetter(letter) then Some(true)
    else
      match FindHandler(modes, letter)
      case None => None
      case Some(cm) => Some(cm.paracount == 1 && (add || cm.unsetWithParam))
  }

  function HandlerOf(modes: seq<Mode>, letter: char): Option<Mode> {
    if IsCoreLetter(letter) then None else FindHandler(modes, letter)
  }

  /** All items a line yields. */
  function ParseAll(modes: seq<Mode>, add: bool, modebuf: string, parabuf: string): seq<Item>
    decreases modebuf
  {
    if modebuf == "" then []
    else if modebuf[0] == '+' then ParseAll(modes, true, modebuf[1..], parabuf)
    else if modebuf[0] == '-' then ParseAll(modes, false, modebuf[1..], parabuf)
    else
      var c := modebuf[0];
      match EatsParam(modes, add, c)
      case None => ParseAll(modes, add, modebuf[1..], parabuf)
      case Some(false) =>
        [Item(add, c, None, HandlerOf(modes, c))] + ParseAll(modes, add, modebuf[1..], parabuf)
      case Some(true) =>
        var (param, rest) := TakeParam(parabuf);
        if param.None? then ParseAll(modes, add, modebuf[1..], rest)
        else [Item(add, c, param, HandlerOf(modes, c))] + ParseAll(modes, add, modebuf[1..], rest)
  }

  /** No parameter that the line takes is a long word. */
  predicate NoLongWord(modes: seq<Mode>, add: bool, modebuf: string, parabuf: string)
    decreases modebuf
  {
    if modebuf == "" then true
    else if modebuf[0] == '+' then NoLongWord(modes, true, modebuf[1..], parabuf)
    else if modebuf[0] == '-' then NoLongWord(modes, false, modebuf[1..], parabuf)
    else if EatsParam(modes, add, modebuf[0]) == Some(true) then
      !LongWord(parabuf) && NoLongWord(modes, add, modebuf[1..], TakeParam(parabuf).1)
    else NoLongWord(modes, add, modebuf[1..], parabuf)
  }

  /** What the first character of a line does. */
  lemma FirstLetter(modes: seq<Mode>, add: bool, modebuf: string, parabuf: string)
    requires modebuf != ""
    ensures var c, rest := modebuf[0], modebuf[1..];
      var items, fine := ParseAll(modes, add, modebuf, parabuf), NoLongWord(modes, add, modebuf, parabuf);
      var eat, (param, left) := EatsParam(modes, add, c), TakeParam(parabuf);
      if c == '+' || c == '-' then
        items == ParseAll(modes, c == '+', rest, parabuf) && fine == NoLongWord(modes, c == '+', rest, parabuf)
      else if eat != Some(true) then
        && items == (if eat.None? then [] else [Item(add, c, None, HandlerOf(modes, c))])
                    + ParseAll(modes, add, rest, parabuf)
        && fine == NoLongWord(modes, add, rest, parabuf)
      else
        && items == (if param.None? then [] else [Item(add, c, param, HandlerOf(modes, c))])
                    + ParseAll(modes, add, rest, left)
        && fine == (!LongWord(parabuf) && NoLongWord(modes, add, rest, left))
  {
  }

  lemma EmptyLine(modes: seq<Mode>, add: bool, parabuf: string)
    ensures ParseAll(modes, add, "", parabuf) == [] && NoLongWord(modes, add, "", parabuf)
  {
  }

  lemma {:induction false} SkipShortens(s: string)
    ensures |SkipSpaces(s)| <= |s|
  {
    if s != "" && s[0] == ' ' {
      SkipShortens(s[1..]);
    }
  }

  /** Parameters of no more than PARSE_BUF bytes in all cannot hold one. */
  lemma {:induction false} ShortParams(modes: seq<Mode>, add: bool, modebuf: string, parabuf: string)
    requires |parabuf| <= PARSE_BUF
    ensures NoLongWord(modes, add, modebuf, parabuf)
    decreases modebuf
  {
    if modebuf != "" {
      SkipShortens(parabuf);
      ShortParams(modes, true, modebuf[1..], parabuf);
      ShortParams(modes, false, modebuf[1..], parabuf);
      ShortParams(modes, add, modebuf[1..], TakeParam(parabuf).1);
    }
  }

  /** The cursor of parse_chanmode. */
  class ParseMode {
    const modes: seq<Mode>
    var add: bool
    var modechar: char
    var param: Option<string>
    var extm: Option<Mode>
    var modebuf: string
    var parabuf: string
    /** Whether every copy into the parse buffer so far stayed inside it. */
    ghost var inside: bool

    /** The first call's initialisation. */
    constructor (modes: seq<Mode>, modebuf: string, parabuf: string)
      ensures this.modes == modes && add && this.modebuf == modebuf && this.parabuf == parabuf && inside
    {
      this.modes, inside := modes, true;
      add, modechar, param, extm := true, NUL, None, None;
      this.modebuf, this.parabuf := modebuf, parabuf;
    }

    /** The items still to come. */
    ghost function Rest(): seq<Item>
      reads this
    {
      ParseAll(modes, add, modebuf, parabuf)
    }

    /** The parse buffer is respected up to the end of the line. */
    ghost predicate StaysInside()
      reads this
    {
      inside && NoLongWord(modes, add, modebuf, parabuf)
    }

    /** parse_chanmode: delivers the next item, or returns false at the end of the line. */
    method Next() returns (more: bool)
      modifies this
      ensures StaysInside() == old(StaysInside()) && (!more ==> inside == StaysInside())
      ensures more <==> old(Rest()) != []
      ensures more ==> old(Rest()) == [Item(add, modechar, param, extm)] + Rest()
      ensures |modebuf| <= |old(modebuf)| && (more ==> |modebuf| < |old(modebuf)|)
    {
      hide ParseAll, NoLongWord;
      while modebuf != ""
        invariant Rest() == old(Rest()) && |modebuf| <= |old(modebuf)| && StaysInside() == old(StaysInside())
        decreases |modebuf|
      {
        var item := Letter();
        if item {
          return true;
        }
      }
      EmptyLine(modes, add, parabuf);
      return false;
    }

    /** One character of the line: a sign, a letter that yields an item, or one that does not. */
    method Letter() returns (item: bool)
      requires modebuf != ""
      modifies this
      ensures modebuf == old(modebuf)[1..] && StaysInside() == old(StaysInside())
      ensures old(Rest()) == if item then [Item(add, modechar, param, extm)] + Rest() else Rest()
    {
      hide ParseAll, NoLongWord, TakeParam, LongWord, StoredBytes, EatsParam, HandlerOf;
      FirstLetter(modes, add, modebuf, parabuf);
      var c := modebuf[0];
      modebuf := modebuf[1..];
      Seqs.EmptyUnits(ParseAll(modes, add, modebuf, parabuf));
      if c == '+' || c == '-' {
        add := c == '+';
        return false;
      }
      modechar, param, extm := c, None, None;
      var eat := EatsParam(modes, add, c);
      if eat.None? {
        return false;
      }
      extm := HandlerOf(modes, c);
      if eat.value {
        var (p, rest) := TakeParam(parabuf);
        StoredFits(parabuf);
        inside := inside && StoredBytes(parabuf) <= PARSE_BUF;
        parabuf := rest;
        Seqs.EmptyUnits(ParseAll(modes, add, modebuf, parabuf));
        if p.None? {
          return false;
        }
        param := p;
      }
      return true;
    }

    /** The loop of parse_chanmode's callers: all items, and no byte stored outside the parse buffer if and
        only if no parameter is a long word. */
    method All() returns (items: seq<Item>)
      modifies this
      ensures items == old(Rest())
      ensures inside <==> old(inside) && NoLongWord(modes, old(add), old(modebuf), old(parabuf))
    {
      items := [];
      var more := Next();
      while more
        invariant more ==> old(Rest()) == items + [Item(add, modechar, param, extm)] + Rest()
        invariant !more ==> old(Rest()) == items
        invariant StaysInside() == old(StaysInside()) && (!more ==> inside == StaysInside())
        decreases more, |modebuf|
      {
        ghost var rest := Rest();
        items := items + [Item(add, modechar, param, extm)];
        more := Next();
        if more {
          Seqs.Assoc(items, [Item(add, modechar, param, extm)], Rest());
        }
      }
    }
  }

  // ---------------------------------------------------------------------
  // Reading back what was printed.

  /** A parameter that survives the trip: not empty, one word, one line, fits the parse buffer. */
  predicate GoodParam(p: string) {
    0 < |p| < PARSE_BUF && ' ' !in p && '\n' !in p && '\r' !in p
  }

  /** Registries and settings the trip is promised for. */
  predicate Printable(modes: seq<Mode>, s: Settings, hideLocal: bool) {
    && UniqueLetters(modes)
    && (forall m | m in modes :: m.paracount <= 1 && m.letter != '+' && m.letter != '-' && !IsCoreLetter(m.letter))
    && (forall m | m in Shown(modes, s, hideLocal) && m.paracount == 1 :: GoodParam(Param(s, m.letter)))
  }

  /** The parameters printed, in order. */
  function ShownParams(shown: seq<Mode>, s: Settings): seq<string> {
    if shown == [] then []
    else (if shown[0].paracount > 0 then [Param(s, shown[0].letter)] else []) + ShownParams(shown[1..], s)
  }

  /** What reading back must yield: every mode as an addition, with its own parameter. Modes whose
      parameter was withheld cannot be read back. */
  function Expected(shown: seq<Mode>, s: Settings, show: bool): seq<Item> {
    if shown == [] then []
    else
      var m := shown[0];
      (if m.paracount == 0 then [Item(true, m.letter, None, Some(m))]
       else if show then [Item(true, m.letter, Some(Param(s, m.letter)), Some(m))]
       else []) + Expected(shown[1..], s, show)
  }

  function Letters(shown: seq<Mode>): (r: string)
    ensures |r| == |shown|
  {
    if shown == [] then "" else [shown[0].letter] + Letters(shown[1..])
  }

  /** Words separated by single spaces. */
  function Words(ps: seq<string>): string {
    if ps == [] then "" else if |ps| == 1 then ps[0] else ps[0] + " " + Words(ps[1..])
  }

  lemma SkipNothing(s: string)
    requires s == "" || s[0] != ' '
    ensures SkipSpaces(s) == s
  {
  }

  lemma {:induction false} WordEndIs(p: string, rest: string)
    requires ' ' !in p && (rest == "" || rest[0] == ' ')
    ensures WordEnd(p + rest) == |p|
  {
    if p != "" {
      WordEndIs(p[1..], rest);
      Seqs.DropConcat(p, rest, 1);
    } else {
      Seqs.EmptyUnits(rest);
    }
  }

  /** A ban of 512 bytes with a space behind it: its copy takes 513 bytes of the 512. */
  lemma LongBan(modes: seq<Mode>)
    ensures var parabuf := seq(PARSE_BUF, i => 'a') + " ";
      StoredBytes(parabuf) == PARSE_BUF + 1 && !NoLongWord(modes, true, "+b", parabuf)
  {
    var word := seq(PARSE_BUF, i => 'a');
    var parabuf := word + " ";
    assert parabuf[0] == 'a';
    SkipNothing(parabuf);
    WordEndIs(word, " ");
    StoredFits(parabuf);
    assert LongWord(parabuf);
    hide WordEnd, SkipSpaces;
    FirstLetter(modes, true, "+b", parabuf);
    FirstLetter(modes, true, "b", parabuf);
  }

  lemma {:induction false} StripNothing(p: string)
    requires '\n' !in p && '\r' !in p
    ensures StripCrlf(p) == p
  {
    if p != "" {
      StripNothing(p[1..]);
    }
  }

  /** The iterator takes the words of a parameter line one by one. */
  lemma TakeFirstWord(ps: seq<string>)
    requires ps != [] && forall p | p in ps :: GoodParam(p)
    ensures TakeParam(Words(ps)) == (Some(ps[0]), Words(ps[1..]))
  {
    assert GoodParam(ps[0]);
    if |ps| == 1 {
      TakeLastWord(ps[0]);
    } else {
      TakeWord(ps[0], Words(ps[1..]));
    }
  }

  lemma TakeLastWord(p: string)
    requires GoodParam(p)
    ensures TakeParam(p) == (Some(p), "")
  {
    StripNothing(p);
    SkipNothing(p);
    WordEndIs(p, "");
    Seqs.EmptyUnits(p);
  }

  lemma TakeWord(p: string, rest: string)
    requires GoodParam(p)
    ensures TakeParam(p + " " + rest) == (Some(p), rest)
  {
    hide SkipSpaces, StripCrlf, WordEnd;
    StripNothing(p);
    var tail := " " + rest;
    Seqs.Assoc(p, " ", rest);
    SkipNothing(p + tail);
    WordEndIs(p, tail);
    Seqs.TakeConcat(p, tail, |p|);
    DropWord(p, rest);
  }

  /** Any word, up to a CR or LF in it: 512 characters are taken of one with a space behind it, and 511 of the last
      one. */
  lemma TakeAnyWord(p: string, rest: string)
    requires p != "" && ' ' !in p && '\n' !in p && '\r' !in p
    ensures TakeParam(p + " " + rest) == (Some(if |p| <= 512 then p else p[..512]), rest)
    ensures TakeParam(p) == (Some(if |p| <= 511 then p else p[..511]), "")
  {
    hide SkipSpaces, StripCrlf, WordEnd;
    StripNothing(Cut(p, 512));
    StripNothing(Cut(p, 511));
    var tail := " " + rest;
    Seqs.Assoc(p, " ", rest);
    SkipNothing(p + tail);
    SkipNothing(p);
    WordEndIs(p, tail);
    WordEndIs(p, "");
    Seqs.EmptyUnits(p);
    Seqs.TakeConcat(p, tail, |p|);
    DropWord(p, rest);
  }

  /** What is behind a CR or LF is no part of a parameter. */
  lemma {:induction false} StripBehind(p: string, eol: char, rest: string)
    requires '\n' !in p && '\r' !in p && eol in {'\n', '\r'}
    ensures StripCrlf(p + [eol] + rest) == p
  {
    var s := p + [eol] + rest;
    if p == "" {
      assert s[0] == eol;
    } else {
      assert s[0] == p[0] && s[1..] == p[1..] + [eol] + rest;
      StripBehind(p[1..], eol, rest);
    }
  }

  lemma DropWord(p: string, rest: string)
    ensures (p + (" " + rest))[|p| + 1..] == rest
  {
    Seqs.Assoc(p, " ", rest);
  }

  lemma TakeNothing()
    ensures TakeParam("") == (None, "")
  {
  }

  /** Reading the letters of registered modes against their parameters. */
  lemma {:induction false} ReadBack(modes: seq<Mode>, shown: seq<Mode>, s: Settings, show: bool)
    requires UniqueLetters(modes) && forall m | m in shown :: m in modes
    requires forall m | m in modes :: m.paracount <= 1 && m.letter != '+' && m.letter != '-' && !IsCoreLetter(m.letter)
    requires forall m | m in shown && m.paracount == 1 :: GoodParam(Param(s, m.letter))
    ensures ParseAll(modes, true, Letters(shown), if show then Words(ShownParams(shown, s)) else "")
         == Expected(shown, s, show)
    decreases shown, 1
  {
    if shown != [] {
      ReadBackOne(modes, shown, s, show);
    }
  }

  lemma {:induction false} ReadBackOne(modes: seq<Mode>, shown: seq<Mode>, s: Settings, show: bool)
    requires shown != [] && UniqueLetters(modes) && forall m | m in shown :: m in modes
    requires forall m | m in modes :: m.paracount <= 1 && m.letter != '+' && m.letter != '-' && !IsCoreLetter(m.letter)
    requires forall m | m in shown && m.paracount == 1 :: GoodParam(Param(s, m.letter))
    ensures ParseAll(modes, true, Letters(shown), if show then Words(ShownParams(shown, s)) else "")
         == Expected(shown, s, show)
    decreases shown, 0
  {
    hide Words, TakeParam, FindHandler, GoodParam;
    var m := shown[0];
    assert m in shown;
    ReadBack(modes, shown[1..], s, show);
    HandlerIs(modes, m);
    assert Letters(shown)[1..] == Letters(shown[1..]);
    var ps := ShownParams(shown, s);
    TakeNothing();
    if m.paracount == 1 {
      assert ps[1..] == ShownParams(shown[1..], s);
      ShownParamsGood(shown, s);
      TakeFirstWord(ps);
    } else {
      Seqs.EmptyUnits(ShownParams(shown[1..], s));
    }
    Seqs.EmptyUnits(Expected(shown[1..], s, show));
  }

  lemma {:induction false} ShownParamsGood(shown: seq<Mode>, s: Settings)
    requires forall m | m in shown && m.paracount > 0 :: GoodParam(Param(s, m.letter))
    ensures forall p | p in ShownParams(shown, s) :: GoodParam(p)
  {
    if shown != [] {
      assert shown[0] in shown;
      ShownParamsGood(shown[1..], s);
    }
  }

  /** Each word followed by a space. */
  function Spaced(ps: seq<string>): string {
    if ps == [] then "" else Spaced(ps[..|ps| - 1]) + ps[|ps| - 1] + " "
  }

  lemma StrlcatIsCut(x: string, y: string, size: nat)
    requires size > 0
    ensures Strlcat(Cut(x, size - 1), y, size) == Cut(x + y, size - 1)
  {
    if |x| <= size - 1 < |x + y| {
      assert (x + y)[..size - 1] == x + y[..size - 1 - |x|];
    } else if |x| > size - 1 {
      Seqs.TakeConcat(x, y, size - 1);
      Seqs.EmptyUnits(x[..size - 1]);
    }
  }

  lemma {:induction false} ShownParamsSnoc(shown: seq<Mode>, m: Mode, s: Settings)
    ensures ShownParams(shown + [m], s) == ShownParams(shown, s) + if m.paracount > 0 then [Param(s, m.letter)] else []
  {
    if shown == [] {
      assert [m][1..] == [];
    } else {
      Seqs.DropConcat(shown, [m], 1);
      ShownParamsSnoc(shown[1..], m, s);
      var first := if shown[0].paracount > 0 then [Param(s, shown[0].letter)] else [];
      Seqs.Assoc(first, ShownParams(shown[1..], s), if m.paracount > 0 then [Param(s, m.letter)] else []);
    }
  }

  lemma {:induction false} LettersSnoc(shown: seq<Mode>, m: Mode)
    ensures Letters(shown + [m]) == Letters(shown) + [m.letter]
  {
    if shown != [] {
      Seqs.DropConcat(shown, [m], 1);
      LettersSnoc(shown[1..], m);
    } else {
      assert [m][1..] == [];
    }
  }

  /** The buffers hold the full texts, cut to their sizes. */
  lemma {:induction false} PrintIsCut(shown: seq<Mode>, s: Settings, show: bool, mbufSize: nat, pbufSize: nat)
    requires mbufSize > 0 && pbufSize > 0
    ensures var line := PrintAll(shown, s, show, mbufSize, pbufSize);
      && line.mbuf == Cut("+" + Letters(shown), mbufSize - 1)
      && line.pbuf == if show then Cut(Spaced(ShownParams(shown, s)), pbufSize - 1) else ""
  {
    if shown == [] {
      Seqs.EmptyUnits("+");
    } else {
      var n := |shown| - 1;
      var m := shown[n];
      assert shown == shown[..n] + [m];
      hide Strlcat, StrlcatLetter, Cut, Letters, Spaced, ShownParams;
      PrintIsCut(shown[..n], s, show, mbufSize, pbufSize);
      PrintLetterIsCut(shown[..n], m, mbufSize);
      PrintParamIsCut(shown[..n], m, s, pbufSize);
    }
  }

  lemma PrintLetterIsCut(shown: seq<Mode>, m: Mode, mbufSize: nat)
    requires mbufSize > 0
    ensures StrlcatLetter(Cut("+" + Letters(shown), mbufSize - 1), m.letter, mbufSize) ==
            Cut("+" + Letters(shown + [m]), mbufSize - 1)
  {
    var x := "+" + Letters(shown);
    LettersSnoc(shown, m);
    Seqs.Assoc("+", Letters(shown), [m.letter]);
    StrlcatIsCut(x, [m.letter], mbufSize);
  }

  lemma PrintParamIsCut(shown: seq<Mode>, m: Mode, s: Settings, pbufSize: nat)
    requires pbufSize > 0
    ensures var before := Cut(Spaced(ShownParams(shown, s)), pbufSize - 1);
      Cut(Spaced(ShownParams(shown + [m], s)), pbufSize - 1) ==
      if m.paracount > 0 then Strlcat(Strlcat(before, Param(s, m.letter), pbufSize), " ", pbufSize) else before
  {
    hide Strlcat, Cut;
    ShownParamsSnoc(shown, m, s);
    var ps := ShownParams(shown, s);
    Seqs.EmptyUnits(ps);
    if m.paracount > 0 {
      var p := Param(s, m.letter);
      Seqs.TakeConcat(ps, [p], |ps|);
      StrlcatIsCut(Spaced(ps), p, pbufSize);
      StrlcatIsCut(Spaced(ps) + p, " ", pbufSize);
    }
  }

  lemma {:induction false} SpacedIsWords(ps: seq<string>)
    ensures ps != [] ==> Spaced(ps) == Words(ps) + " "
  {
    if |ps| == 1 {
      assert ps[..0] == [];
      Seqs.EmptyUnits(ps[0]);
    } else if |ps| > 1 {
      SpacedCons(ps);
      SpacedIsWords(ps[1..]);
      Seqs.Assoc(ps[0] + " ", Words(ps[1..]), " ");
    }
  }

  lemma {:induction false} SpacedCons(ps: seq<string>)
    requires ps != []
    ensures Spaced(ps) == ps[0] + " " + Spaced(ps[1..])
  {
    var n := |ps| - 1;
    if n == 0 {
      assert ps[..0] == [];
      Seqs.EmptyUnits(ps[0]);
      Seqs.EmptyUnits(ps[0] + " ");
    } else {
      SpacedCons(ps[..n]);
      assert ps[..n][1..] == ps[1..][..n - 1];
      var mid := Spaced(ps[1..][..n - 1]);
      assert Spaced(ps[1..]) == mid + ps[n] + " ";
      Seqs.Assoc(ps[0] + " ", mid, ps[n]);
      Seqs.Assoc(ps[0] + " ", mid + ps[n], " ");
    }
  }

  /** The buffers are large enough for everything that is printed, and the trailing space. */
  predicate Fits(modes: seq<Mode>, s: Settings, hideLocal: bool, mbufSize: nat, pbufSize: nat) {
    var shown := Shown(modes, s, hideLocal);
    shown == [] || (|shown| + 2 <= mbufSize && |Spaced(ShownParams(shown, s))| < pbufSize)
  }

  lemma {:induction false} ShownAreRegistered(modes: seq<Mode>, s: Settings, hideLocal: bool)
    ensures forall m | m in Shown(modes, s, hideLocal) :: m in modes
  {
    if modes != [] {
      ShownAreRegistered(modes[..|modes| - 1], s, hideLocal);
    }
  }

  /** Printing a channel and reading the line back yields exactly the set modes in registry order,
      all as additions, each with its own parameter. */
  lemma PrintThenParse(modes: seq<Mode>, s: Settings, show: bool, hideLocal: bool, mbufSize: nat, pbufSize: nat)
    requires Printable(modes, s, hideLocal) && mbufSize > 0 && pbufSize > 0
    requires Fits(modes, s, hideLocal, mbufSize, pbufSize)
    ensures var line := Print(modes, s, show, hideLocal, mbufSize, pbufSize);
      ParseAll(modes, true, line.mbuf, line.pbuf) == Expected(Shown(modes, s, hideLocal), s, show)
  {
    var shown := Shown(modes, s, hideLocal);
    var ps := ShownParams(shown, s);
    var line := Print(modes, s, show, hideLocal, mbufSize, pbufSize);
    assert line.mbuf == Cut("+" + Letters(shown), mbufSize - 1)
        && line.pbuf == Trimmed(if show then Cut(Spaced(ps), pbufSize - 1) else "") by {
      PrintIsCut(shown, s, show, mbufSize, pbufSize);
    }
    assert ParseAll(modes, true, line.mbuf, line.pbuf) == ParseAll(modes, true, Letters(shown), line.pbuf) by {
      ParsePlus(modes, Letters(shown), line.pbuf, mbufSize);
    }
    assert line.pbuf == if show then Words(ps) else "" by {
      SpacedIsWords(ps);
      TrimSpace(Words(ps));
    }
    ShownAreRegistered(modes, s, hideLocal);
    ReadBack(modes, shown, s, show);
  }

  lemma TrimSpace(w: string)
    ensures Trimmed(w + " ") == w
  {
  }

  /** A leading plus sign changes nothing. */
  lemma ParsePlus(modes: seq<Mode>, letters: string, parabuf: string, mbufSize: nat)
    requires mbufSize > 0 && (letters == "" || |letters| + 2 <= mbufSize)
    ensures ParseAll(modes, true, Cut("+" + letters, mbufSize - 1), parabuf) == ParseAll(modes, true, letters, parabuf)
  {
    assert ("+" + letters)[1..] == letters;
  }

  // ---------------------------------------------------------------------
  // With parameters shown, too small a buffer always spoils the line.

  function NonSpaces(s: string): nat {
    if s == "" then 0 else (if s[0] == ' ' then 0 else 1) + NonSpaces(s[1..])
  }

  lemma {:induction false} NonSpacesConcat(a: string, b: string)
    ensures NonSpaces(a + b) == NonSpaces(a) + NonSpaces(b)
  {
    if a == "" {
      Seqs.EmptyUnits(b);
    } else {
      Seqs.DropConcat(a, b, 1);
      NonSpacesConcat(a[1..], b);
    }
  }

  lemma {:induction false} NonSpacesOfWord(p: string)
    ensures NonSpaces(p) <= |p|
    ensures ' ' !in p ==> NonSpaces(p) == |p|
  {
    if p != "" {
      NonSpacesOfWord(p[1..]);
    }
  }

  function ParamBytes(items: seq<Item>): nat {
    if items == [] then 0
    else (if items[0].param.Some? then |items[0].param.value| else 0) + ParamBytes(items[1..])
  }

  lemma {:induction false} SkipKeepsNonSpaces(s: string)
    ensures NonSpaces(SkipSpaces(s)) == NonSpaces(s)
  {
    if s != "" && s[0] == ' ' {
      SkipKeepsNonSpaces(s[1..]);
    }
  }

  lemma {:induction false} StripShortens(s: string)
    ensures |StripCrlf(s)| <= |s|
  {
    if s != "" && s[0] != '\n' && s[0] != '\r' {
      StripShortens(s[1..]);
    }
  }

  /** A parameter is paid for with the non-space bytes it consumes. */
  lemma TakeParamPays(parabuf: string)
    ensures var (p, rest) := TakeParam(parabuf);
      (if p.Some? then |p.value| else 0) + NonSpaces(rest) <= NonSpaces(parabuf)
  {
    hide SkipSpaces, StripCrlf, WordEnd;
    var start := SkipSpaces(parabuf);
    SkipKeepsNonSpaces(parabuf);
    var n := WordEnd(start);
    var word := start[..n];
    NonSpacesOfWord(word);
    if n < |start| {
      StripShortens(Cut(word, PARSE_BUF));
      Seqs.TakeDrop(start, n);
      NonSpacesConcat(word, start[n..]);
      assert start[n..][1..] == start[n + 1..];
    } else {
      assert word == start;
      StripShortens(Cut(start, PARSE_BUF - 1));
    }
  }

  /** A line yields at most one item per letter and at most the non-space bytes as parameters. */
  lemma {:induction false} ParseBounds(modes: seq<Mode>, add: bool, modebuf: string, parabuf: string)
    ensures var items := ParseAll(modes, add, modebuf, parabuf);
      |items| <= |modebuf| && ParamBytes(items) <= NonSpaces(parabuf)
    decreases modebuf
  {
    hide TakeParam, NonSpaces, EatsParam, HandlerOf;
    if modebuf != "" {
      var rest := TakeParam(parabuf).1;
      TakeParamPays(parabuf);
      ParseBounds(modes, true, modebuf[1..], parabuf);
      ParseBounds(modes, false, modebuf[1..], parabuf);
      ParseBounds(modes, add, modebuf[1..], rest);
    }
  }

  lemma {:induction false} ExpectedSizes(shown: seq<Mode>, s: Settings)
    requires forall m | m in shown :: m.paracount <= 1
    requires forall m | m in shown && m.paracount == 1 :: GoodParam(Param(s, m.letter))
    ensures |Expected(shown, s, true)| == |shown|
    ensures ParamBytes(Expected(shown, s, true)) == NonSpaces(Spaced(ShownParams(shown, s)))
  {
    if shown != [] {
      hide Spaced, GoodParam;
      var m := shown[0];
      assert m in shown;
      ExpectedSizes(shown[1..], s);
      assert Expected(shown, s, true)[1..] == Expected(shown[1..], s, true);
      var ps := ShownParams(shown, s);
      Seqs.EmptyUnits(ShownParams(shown[1..], s));
      if m.paracount == 1 {
        assert ps[1..] == ShownParams(shown[1..], s);
        SpacedCons(ps);
        SpacedPays(ps);
      }
    }
  }

  lemma SpacedPays(ps: seq<string>)
    requires ps != [] && GoodParam(ps[0])
    ensures NonSpaces(Spaced(ps)) == |ps[0]| + NonSpaces(Spaced(ps[1..]))
  {
    SpacedCons(ps);
    NonSpacesConcat(ps[0] + " ", Spaced(ps[1..]));
    NonSpacesConcat(ps[0], " ");
    NonSpacesOfWord(ps[0]);
    NonSpacesOfWord(" ");
  }

  /** Cutting a spaced text by two bytes or more loses a byte of its last word. */
  lemma CutLosesWord(ps: seq<string>, n: nat)
    requires ps != [] && (forall p | p in ps :: GoodParam(p)) && n + 2 <= |Spaced(ps)|
    ensures NonSpaces(Spaced(ps)[..n]) < NonSpaces(Spaced(ps))
  {
    var t := Spaced(ps);
    var last := ps[|ps| - 1];
    assert last in ps;
    var k := |t| - 2;
    assert t[k] == last[|last| - 1];
    Seqs.TakeDrop(t, n);
    NonSpacesConcat(t[..n], t[n..]);
    var tail := t[n..];
    Seqs.TakeDrop(tail, k - n);
    NonSpacesConcat(tail[..k - n], tail[k - n..]);
    assert tail[k - n..][0] == t[k];
  }

  /** With parameters shown, a printed line reads back as the set modes if and only if the buffers
      were large enough. */
  lemma PrintThenParseExact(modes: seq<Mode>, s: Settings, hideLocal: bool, mbufSize: nat, pbufSize: nat)
    requires Printable(modes, s, hideLocal) && mbufSize > 0 && pbufSize > 0
    ensures var line := Print(modes, s, true, hideLocal, mbufSize, pbufSize);
      ParseAll(modes, true, line.mbuf, line.pbuf) == Expected(Shown(modes, s, hideLocal), s, true)
      <==> Fits(modes, s, hideLocal, mbufSize, pbufSize)
  {
    if Fits(modes, s, hideLocal, mbufSize, pbufSize) {
      PrintThenParse(modes, s, true, hideLocal, mbufSize, pbufSize);
    } else {
      TooSmall(modes, s, hideLocal, mbufSize, pbufSize);
    }
  }

  lemma TooSmall(modes: seq<Mode>, s: Settings, hideLocal: bool, mbufSize: nat, pbufSize: nat)
    requires Printable(modes, s, hideLocal) && mbufSize > 0 && pbufSize > 0
    requires !Fits(modes, s, hideLocal, mbufSize, pbufSize)
    ensures var line := Print(modes, s, true, hideLocal, mbufSize, pbufSize);
      ParseAll(modes, true, line.mbuf, line.pbuf) != Expected(Shown(modes, s, hideLocal), s, true)
  {
    hide ParseAll, Expected, NonSpaces, ParamBytes, Spaced, PrintAll;
    var shown := Shown(modes, s, hideLocal);
    var ps := ShownParams(shown, s);
    var line := Print(modes, s, true, hideLocal, mbufSize, pbufSize);
    PrintIsCut(shown, s, true, mbufSize, pbufSize);
    ShownAreRegistered(modes, s, hideLocal);
    ExpectedSizes(shown, s);
    if |shown| + 2 > mbufSize {
      ParseFewer(modes, Letters(shown), line.pbuf, mbufSize);
    } else {
      ParseBounds(modes, true, line.mbuf, line.pbuf);
      ShownParamsGood(shown, s);
      NoWords();
      var n := if pbufSize < 2 then 0 else pbufSize - 2;
      assert line.pbuf == Spaced(ps)[..n];
      SpacedLength(ps);
      CutLosesWord(ps, n);
    }
  }

  lemma NoWords()
    ensures Spaced([]) == ""
  {
  }

  lemma SpacedLength(ps: seq<string>)
    requires forall p | p in ps :: GoodParam(p)
    ensures ps != [] ==> |Spaced(ps)| >= 2
  {
    if ps != [] {
      assert ps[|ps| - 1] in ps;
    }
  }

  /** A letter buffer that is too small yields too few items. */
  lemma ParseFewer(modes: seq<Mode>, letters: string, parabuf: string, mbufSize: nat)
    requires mbufSize > 0 && |letters| + 2 > mbufSize && letters != ""
    ensures |ParseAll(modes, true, Cut("+" + letters, mbufSize - 1), parabuf)| < |letters|
  {
    var cut := Cut("+" + letters, mbufSize - 1);
    if cut != "" {
      assert cut[0] == '+';
      ParseBounds(modes, true, cut[1..], parabuf);
    }
  }

  // ---------------------------------------------------------------------
  // What comes back, in terms of the channel alone.

  /** One mode stands before another in the registry. */
  ghost predicate Before(modes: seq<Mode>, m: Mode, n: Mode) {
    exists a, b :: 0 <= a < b < |modes| && modes[a] == m && modes[b] == n
  }

  lemma {:induction false} ShownExact(modes: seq<Mode>, s: Settings, hideLocal: bool)
    requires forall m | m in modes :: m.letter != NUL
    ensures var shown := Shown(modes, s, hideLocal);
      && (forall m :: m in shown <==> m in modes && m.bit != 0 && m.bit in s.bits && !(hideLocal && m.local))
      && (forall i, j | 0 <= i < j < |shown| :: Before(modes, shown[i], shown[j]))
  {
    if modes != [] {
      var n := |modes| - 1;
      ShownExact(modes[..n], s, hideLocal);
      assert modes == modes[..n] + [modes[n]];
      OrderGrows(modes, Shown(modes[..n], s, hideLocal), Shown(modes, s, hideLocal));
    }
  }

  lemma OrderGrows(modes: seq<Mode>, before: seq<Mode>, shown: seq<Mode>)
    requires modes != [] && (shown == before || shown == before + [modes[|modes| - 1]])
    requires forall m | m in before :: m in modes[..|modes| - 1]
    requires forall i, j | 0 <= i < j < |before| :: Before(modes[..|modes| - 1], before[i], before[j])
    ensures forall i, j | 0 <= i < j < |shown| :: Before(modes, shown[i], shown[j])
  {
    var n := |modes| - 1;
    forall i, j | 0 <= i < j < |shown|
      ensures Before(modes, shown[i], shown[j])
    {
      assert shown[i] == before[i];
      if j < |before| {
        assert Before(modes[..n], before[i], before[j]);
        var a, b :| 0 <= a < b < n && modes[..n][a] == before[i] && modes[..n][b] == before[j];
        assert modes[a] == before[i] && modes[b] == before[j];
      } else {
        assert before[i] in before;
        var a :| 0 <= a < n && modes[..n][a] == before[i];
        assert modes[a] == before[i] && modes[n] == shown[j];
      }
    }
  }

  /** An item is an addition of a mode, with the parameter of the channel if the mode takes one. */
  predicate IsAddition(item: Item, s: Settings) {
    && item.add && item.mode.Some? && item.letter == item.mode.value.letter
    && if item.mode.value.paracount == 0 then item.param.None?
       else item.letter in s.params && item.param == Some(s.params[item.letter])
  }

  /** Where the mode of an item stands among those shown. */
  lemma {:induction false} ExpectedAt(shown: seq<Mode>, s: Settings, show: bool, k: nat) returns (p: nat)
    requires forall m | m in shown && m.paracount > 0 :: GoodParam(Param(s, m.letter))
    requires k < |Expected(shown, s, show)|
    ensures p < |shown| && Expected(shown, s, show)[k].mode == Some(shown[p])
    ensures IsAddition(Expected(shown, s, show)[k], s) && (shown[p].paracount == 0 || show)
  {
    assert shown[0] in shown;
    var d := |Expected(shown, s, show)| - |Expected(shown[1..], s, show)|;
    if k < d {
      p := 0;
    } else {
      p := ExpectedAt(shown[1..], s, show, k - d);
      p := p + 1;
    }
  }

  lemma {:induction false} ExpectedOrder(shown: seq<Mode>, s: Settings, show: bool, i: nat, j: nat)
    returns (p: nat, q: nat)
    requires forall m | m in shown && m.paracount > 0 :: GoodParam(Param(s, m.letter))
    requires i < j < |Expected(shown, s, show)|
    ensures p < q < |shown|
    ensures Expected(shown, s, show)[i].mode == Some(shown[p]) && Expected(shown, s, show)[j].mode == Some(shown[q])
  {
    var d := |Expected(shown, s, show)| - |Expected(shown[1..], s, show)|;
    if i < d {
      p := 0;
      q := ExpectedAt(shown[1..], s, show, j - d);
    } else {
      p, q := ExpectedOrder(shown[1..], s, show, i - d, j - d);
      p := p + 1;
    }
    q := q + 1;
  }

  lemma {:induction false} ExpectedHas(shown: seq<Mode>, s: Settings, show: bool, m: Mode) returns (k: nat)
    requires m in shown && (m.paracount == 0 || show)
    ensures k < |Expected(shown, s, show)| && Expected(shown, s, show)[k].mode == Some(m)
  {
    if m == shown[0] {
      k := 0;
    } else {
      k := ExpectedHas(shown[1..], s, show, m);
      k := k + |Expected(shown, s, show)| - |Expected(shown[1..], s, show)|;
    }
  }

  lemma ExpectedExact(modes: seq<Mode>, shown: seq<Mode>, s: Settings, show: bool)
    requires forall m | m in shown && m.paracount > 0 :: GoodParam(Param(s, m.letter))
    requires forall i, j | 0 <= i < j < |shown| :: Before(modes, shown[i], shown[j])
    ensures var items := Expected(shown, s, show);
      && (forall k | 0 <= k < |items| :: IsAddition(items[k], s))
      && (forall m :: (exists k :: 0 <= k < |items| && items[k].mode == Some(m)) <==>
            m in shown && (m.paracount == 0 || show))
      && (forall i, j | 0 <= i < j < |items| :: Before(modes, items[i].mode.value, items[j].mode.value))
  {
    hide Before, GoodParam, Expected;
    var items := Expected(shown, s, show);
    forall k | 0 <= k < |items|
      ensures IsAddition(items[k], s)
      ensures items[k].mode.value in shown && (items[k].mode.value.paracount == 0 || show)
    {
      var p := ExpectedAt(shown, s, show, k);
    }
    forall m | m in shown && (m.paracount == 0 || show)
      ensures exists k :: 0 <= k < |items| && items[k].mode == Some(m)
    {
      var k := ExpectedHas(shown, s, show, m);
    }
    forall i, j | 0 <= i < j < |items|
      ensures Before(modes, items[i].mode.value, items[j].mode.value)
    {
      var p, q := ExpectedOrder(shown, s, show, i, j);
    }
  }

  /** Reading a printed line gives additions, in registry order, of exactly the registered modes whose bit is set
      on the channel, without local ones if these are hidden, and without parameter modes if parameters are; each
      parameter mode has the parameter of the channel. */
  lemma PrintedAreSet(modes: seq<Mode>, s: Settings, show: bool, hideLocal: bool, mbufSize: nat, pbufSize: nat)
    requires Printable(modes, s, hideLocal) && mbufSize > 0 && pbufSize > 0
    requires Fits(modes, s, hideLocal, mbufSize, pbufSize)
    ensures var line := Print(modes, s, show, hideLocal, mbufSize, pbufSize);
      var items := ParseAll(modes, true, line.mbuf, line.pbuf);
      && (forall k | 0 <= k < |items| :: IsAddition(items[k], s))
      && (forall m :: (exists k :: 0 <= k < |items| && items[k].mode == Some(m)) <==>
            && m in modes && m.bit != 0 && m.bit in s.bits
            && !(hideLocal && m.local) && (m.paracount == 0 || show))
      && (forall i, j | 0 <= i < j < |items| :: Before(modes, items[i].mode.value, items[j].mode.value))
  {
    PrintThenParse(modes, s, show, hideLocal, mbufSize, pbufSize);
    ShownExact(modes, s, hideLocal);
    hide Fits, Print, Shown, Before, ParseAll, GoodParam, IsAddition, Expected;
    var shown := Shown(modes, s, hideLocal);
    ExpectedExact(modes, shown, s, show);
  }

  // ---------------------------------------------------------------------
  // Lines with both signs.

  /** A change of a mode, with its parameter. */
  datatype Change = Change(add: bool, letter: char, param: Option<string>)

  /** It has a parameter if it is one of b, e and I; if it adds a mode that takes one; and if it deletes one that
      is unset with one. */
  ghost predicate Proper(modes: seq<Mode>, c: Change) {
    && c.letter != '+' && c.letter != '-' && (c.param.Some? ==> GoodParam(c.param.value))
    && if c.letter in {'b', 'e', 'I'} then c.param.Some?
       else exists m :: m in modes && m.letter == c.letter &&
                        (c.param.Some? <==> m.paracount == 1 && (c.add || m.unsetWithParam))
  }

  /** The letters, with a sign where it changes. */
  function Signed(cs: seq<Change>, add: bool): string {
    if cs == [] then ""
    else
      (if cs[0].add == add then "" else if cs[0].add then "+" else "-") + [cs[0].letter] + Signed(cs[1..], cs[0].add)
  }

  /** The parameters, in order. */
  function ParamsOf(cs: seq<Change>): seq<string> {
    if cs == [] then [] else (if cs[0].param.Some? then [cs[0].param.value] else []) + ParamsOf(cs[1..])
  }

  /** An item is the change, with the handler of its letter unless it is one of b, e and I. */
  predicate IsChange(modes: seq<Mode>, item: Item, c: Change) {
    && item.add == c.add && item.letter == c.letter && item.param == c.param
    && if c.letter in {'b', 'e', 'I'} then item.mode.None?
       else item.mode.Some? && item.mode.value in modes && item.mode.value.letter == c.letter
  }

  /** Any list of changes, written as a line, is read back as it was. */
  lemma {:induction false} ChangesReadBack(modes: seq<Mode>, add: bool, cs: seq<Change>)
    requires UniqueLetters(modes) && forall c | c in cs :: Proper(modes, c)
    ensures var items := ParseAll(modes, add, Signed(cs, add), Words(ParamsOf(cs)));
      |items| == |cs| && forall k | 0 <= k < |cs| :: IsChange(modes, items[k], cs[k])
    decreases cs
  {
    hide UniqueLetters, Words, Proper, IsChange;
    if cs != [] {
      assert cs[0] in cs;
      ChangesReadBack(modes, cs[0].add, cs[1..]);
      FirstChange(modes, add, cs);
      hide ParseAll, Signed, ParamsOf;
      var items := ParseAll(modes, add, Signed(cs, add), Words(ParamsOf(cs)));
      assert forall k | 0 < k < |cs| :: cs[k] == cs[1..][k - 1] && items[k] == items[1..][k - 1];
    }
  }

  lemma FirstChange(modes: seq<Mode>, add: bool, cs: seq<Change>)
    requires cs != [] && UniqueLetters(modes) && forall c | c in cs :: Proper(modes, c)
    ensures var items := ParseAll(modes, add, Signed(cs, add), Words(ParamsOf(cs)));
      && items != [] && IsChange(modes, items[0], cs[0])
      && items[1..] == ParseAll(modes, cs[0].add, Signed(cs[1..], cs[0].add), Words(ParamsOf(cs[1..])))
  {
    var c := cs[0];
    var rest := Signed(cs[1..], c.add);
    assert c in cs;
    SkipSign(modes, add, c, rest, Words(ParamsOf(cs)));
    hide UniqueLetters, Words, ParseAll;
    FirstParam(modes, cs);
    TakesItsParam(modes, c);
    assert ([c.letter] + rest)[1..] == rest;
    FirstLetter(modes, c.add, [c.letter] + rest, Words(ParamsOf(cs)));
  }

  lemma SkipSign(modes: seq<Mode>, add: bool, c: Change, rest: string, parabuf: string)
    requires c.letter != '+' && c.letter != '-'
    ensures var sign := if c.add == add then "" else if c.add then "+" else "-";
      ParseAll(modes, add, sign + [c.letter] + rest, parabuf) == ParseAll(modes, c.add, [c.letter] + rest, parabuf)
  {
    var sign := if c.add == add then "" else if c.add then "+" else "-";
    Seqs.Assoc(sign, [c.letter], rest);
    if c.add == add {
      Seqs.EmptyUnits([c.letter] + rest);
    } else {
      assert (sign + ([c.letter] + rest))[1..] == [c.letter] + rest;
    }
  }

  lemma FirstParam(modes: seq<Mode>, cs: seq<Change>)
    requires cs != [] && forall c | c in cs :: Proper(modes, c)
    ensures if cs[0].param.Some? then TakeParam(Words(ParamsOf(cs))) == (cs[0].param, Words(ParamsOf(cs[1..])))
            else ParamsOf(cs) == ParamsOf(cs[1..])
  {
    hide Words, TakeParam;
    var ps := ParamsOf(cs);
    ParamsGood(modes, cs);
    Seqs.EmptyUnits(ParamsOf(cs[1..]));
    if cs[0].param.Some? {
      assert ps[1..] == ParamsOf(cs[1..]);
      TakeFirstWord(ps);
    }
  }

  lemma {:induction false} ParamsGood(modes: seq<Mode>, cs: seq<Change>)
    requires forall c | c in cs :: Proper(modes, c)
    ensures forall p | p in ParamsOf(cs) :: GoodParam(p)
  {
    if cs != [] {
      assert cs[0] in cs;
      ParamsGood(modes, cs[1..]);
    }
  }

  /** A letter takes a parameter exactly when a proper change of it has one. */
  lemma TakesItsParam(modes: seq<Mode>, c: Change)
    requires UniqueLetters(modes) && Proper(modes, c)
    ensures EatsParam(modes, c.add, c.letter) == Some(c.param.Some?)
    ensures IsChange(modes, Item(c.add, c.letter, c.param, HandlerOf(modes, c.letter)), c)
  {
    hide UniqueLetters, FindHandler;
    if c.letter !in {'b', 'e', 'I'} {
      var m :| m in modes && m.letter == c.letter &&
               (c.param.Some? <==> m.paracount == 1 && (c.add || m.unsetWithParam));
      HandlerIs(modes, m);
    }
  }

  /** A letter that nobody handles is passed over, and so is one that takes a parameter when there is none. */
  lemma PassedOver(modes: seq<Mode>, add: bool, letter: char, rest: string, parabuf: string)
    requires letter !in {'+', '-', 'b', 'e', 'I'}
    ensures (forall m | m in modes :: m.letter != letter) ==>
      ParseAll(modes, add, [letter] + rest, parabuf) == ParseAll(modes, add, rest, parabuf)
    ensures UniqueLetters(modes) && (forall k | 0 <= k < |parabuf| :: parabuf[k] == ' ') &&
            (exists m :: m in modes && m.letter == letter && m.paracount == 1 && (add || m.unsetWithParam)) ==>
      ParseAll(modes, add, [letter] + rest, parabuf) == ParseAll(modes, add, rest, "")
  {
    assert ([letter] + rest)[1..] == rest;
    FirstLetter(modes, add, [letter] + rest, parabuf);
    hide ParseAll, UniqueLetters, FindHandler;
    if forall k | 0 <= k < |parabuf| :: parabuf[k] == ' ' {
      OnlySpaces(parabuf);
    }
    if UniqueLetters(modes) {
      forall m | m in modes && m.letter == letter
        ensures FindHandler(modes, letter) == Some(m)
      {
        HandlerIs(modes, m);
      }
    }
    Seqs.EmptyUnits(ParseAll(modes, add, rest, parabuf));
    Seqs.EmptyUnits(ParseAll(modes, add, rest, ""));
  }

  lemma {:induction false} OnlySpaces(s: string)
    requires forall k | 0 <= k < |s| :: s[k] == ' '
    ensures SkipSpaces(s) == "" && TakeParam(s) == (None, "")
  {
    if s != "" {
      OnlySpaces(s[1..]);
    }
  }
}
