/**
 The mode string of a channel member, such as "qao" (`src/api-channelmode.c`): kept sorted
 from high to low rank in a buffer of MEMBERMODESLEN bytes, and tested against a string of
 all modes that rank at least as high as the ones asked for.
 */
module MemberModes {
  import opened CStrings
  import opened Cmode
  import opened Options
  import opened Runs
  import Seqs

  const MEMBERMODESLEN := 8
  const INT_MAX := 0x7fff_ffff

  // ---------------------------------------------------------------------
  // Adding and deleting letters.

  /** Where addlettertomstring stops: the first position whose mode ranks lower. */
  function InsertPosition(modes: seq<Mode>, s: string, rank: int): (i: nat)
    ensures i <= |s|
  {
    if s == [] then 0
    else
      var h := FindHandler(modes, s[0]);
      if h.Some? && h.value.rank < rank then 0 else 1 + InsertPosition(modes, s[1..], rank)
  }

  /** addlettertomstring, as a function of the string. */
  function WithLetter(modes: seq<Mode>, s: string, letter: char): string {
    var h := FindHandler(modes, letter);
    if h.None? || h.value.kind != MEMBER || |s| >= MEMBERMODESLEN - 1 then s
    else
      var i := InsertPosition(modes, s, h.value.rank);
      s[..i] + [letter] + s[i..]
  }

  /** delletterfromstring: removes the first occurrence. */
  function WithoutLetter(s: string, letter: char): string {
    var i := IndexOf(s, letter);
    if i == |s| then s else s[..i] + s[i + 1..]
  }

  /** Position of the first occurrence, or |s|. */
  function IndexOf(s: string, letter: char): (i: nat)
    ensures i <= |s| && letter !in s[..i]
    ensures i < |s| ==> s[i] == letter
    ensures i == |s| <==> letter !in s
  {
    if s == [] || s[0] == letter then 0
    else
      var i := 1 + IndexOf(s[1..], letter);
      assert s[..i] == [s[0]] + s[1..][..i - 1];
      i
  }

  /** The buffer holds the string and its terminator. */
  ghost predicate HoldsString(buf: array<char>, s: string)
    reads buf
  {
    |s| < buf.Length && buf[..|s|] == s && buf[|s|] == NUL && NUL !in s
  }

  /** strlen */
  method Strlen(buf: array<char>, ghost s: string) returns (n: nat)
    requires HoldsString(buf, s)
    ensures n == |s|
  {
    assert forall k | 0 <= k < |s| :: buf[k] == s[k] && s[k] in s;
    n := 0;
    while buf[n] != NUL
      invariant n <= |s|
      decreases |s| - n
    {
      n := n + 1;
    }
  }

  /** addlettertomstring, in the buffer of a member. */
  method AddLetterToBuffer(modes: seq<Mode>, buf: array<char>, letter: char, ghost s: string)
    requires buf.Length == MEMBERMODESLEN && HoldsString(buf, s) && UniqueLetters(modes)
    modifies buf
    ensures HoldsString(buf, WithLetter(modes, s, letter))
  {
    var h := FindHandler(modes, letter);
    if h.None? || h.value.kind != MEMBER {
      return;
    }
    var rank := h.value.rank;
    var n := Strlen(buf, s);
    if n >= MEMBERMODESLEN - 1 {
      return;
    }
    hide FindHandler, UniqueLetters;
    var p := PlaceInBuffer(modes, buf, rank, s);
    InsertInBuffer(buf, p, letter, s);
  }

  /** Its loop over the letters. */
  method PlaceInBuffer(modes: seq<Mode>, buf: array<char>, rank: int, ghost s: string) returns (p: nat)
    requires HoldsString(buf, s)
    ensures p == InsertPosition(modes, s, rank)
  {
    hide FindHandler;
    assert forall k | 0 <= k < |s| :: buf[k] == s[k] && s[k] in s;
    p := 0;
    while buf[p] != NUL
      invariant p <= |s|
      invariant InsertPosition(modes, s, rank) == p + InsertPosition(modes, s[p..], rank)
      decreases |s| - p
    {
      var cm := FindHandler(modes, buf[p]);
      if cm.Some? && cm.value.rank < rank {
        return;
      }
      assert s[p..][1..] == s[p + 1..];
      p := p + 1;
    }
  }

  /** The memmove of the rest, with its terminator, and the letter before it; at the end of the string this
      is only the letter and a terminator. */
  method InsertInBuffer(buf: array<char>, p: nat, letter: char, ghost s: string)
    requires HoldsString(buf, s) && p <= |s| && |s| + 1 < buf.Length && letter != NUL
    modifies buf
    ensures HoldsString(buf, s[..p] + [letter] + s[p..])
  {
    var n := Strlen(buf, s);
    forall k | p < k <= n + 1 {
      buf[k] := buf[k - 1];
    }
    buf[p] := letter;
    assert buf[..n + 1] == s[..p] + [letter] + s[p..];
  }

  /** addlettertomstring */
  method AddLetterToString(modes: seq<Mode>, s: string, letter: char) returns (r: string)
    ensures r == WithLetter(modes, s, letter)
  {
    var h := FindHandler(modes, letter);
    if h.None? || h.value.kind != MEMBER {
      return s;
    }
    var rank := h.value.rank;
    if |s| >= MEMBERMODESLEN - 1 {
      return s;
    }
    var p := 0;
    while p < |s|
      invariant p <= |s|
      invariant InsertPosition(modes, s, rank) == p + InsertPosition(modes, s[p..], rank)
    {
      var cm := FindHandler(modes, s[p]);
      if cm.Some? && cm.value.rank < rank {
        return s[..p] + [letter] + s[p..];
      }
      assert s[p..][1..] == s[p + 1..];
      p := p + 1;
    }
    return s[..p] + [letter] + s[p..];
  }

  /** A string that only member modes made: letters of member modes, high ranks first, in bounds. */
  ghost predicate WellRanked(modes: seq<Mode>, s: string) {
    && |s| <= MEMBERMODESLEN - 1
    && (forall c | c in s :: IsMemberLetter(modes, c))
    && (forall i, j | 0 <= i < j < |s| :: ModeToRank(modes, s[i]) >= ModeToRank(modes, s[j]))
  }

  lemma MemberHandler(modes: seq<Mode>, letter: char)
    requires UniqueLetters(modes) && IsMemberLetter(modes, letter)
    ensures var h := FindHandler(modes, letter);
      h.Some? && h.value.kind == MEMBER && h.value.rank == ModeToRank(modes, letter)
  {
    var m :| m in modes && m.kind == MEMBER && m.letter == letter;
    HandlerIs(modes, m);
    RankIs(modes, letter);
  }

  /** Everything before the insert position ranks at least as high, everything from it on lower. */
  lemma {:induction false} InsertPositionSplits(modes: seq<Mode>, s: string, rank: int)
    requires UniqueLetters(modes) && forall c | c in s :: IsMemberLetter(modes, c)
    requires forall i, j | 0 <= i < j < |s| :: ModeToRank(modes, s[i]) >= ModeToRank(modes, s[j])
    ensures var p := InsertPosition(modes, s, rank);
      && (forall i | 0 <= i < p :: ModeToRank(modes, s[i]) >= rank)
      && (forall i | p <= i < |s| :: ModeToRank(modes, s[i]) < rank)
  {
    if s != [] {
      MemberHandler(modes, s[0]);
      if ModeToRank(modes, s[0]) >= rank {
        InsertPositionSplits(modes, s[1..], rank);
        var p := InsertPosition(modes, s[1..], rank);
        assert forall i | 1 <= i < |s| :: s[i] == s[1..][i - 1];
      }
    }
  }

  /** Adding a member mode inserts that one letter behind all modes of its rank or higher. */
  lemma AddKeepsRanking(modes: seq<Mode>, s: string, letter: char)
    requires UniqueLetters(modes) && WellRanked(modes, s)
    ensures WellRanked(modes, WithLetter(modes, s, letter))
    ensures multiset(WithLetter(modes, s, letter)) ==
            if IsMemberLetter(modes, letter) && |s| < MEMBERMODESLEN - 1 then multiset(s) + multiset{letter}
            else multiset(s)
  {
    hide InsertPosition, FindHandler, ModeToRank;
    var h := FindHandler(modes, letter);
    if IsMemberLetter(modes, letter) {
      MemberHandler(modes, letter);
      if |s| < MEMBERMODESLEN - 1 {
        InsertPositionSplits(modes, s, h.value.rank);
        var p := InsertPosition(modes, s, h.value.rank);
        Seqs.TakeDrop(s, p);
      }
    }
  }

  /** Deleting a letter removes one occurrence and keeps the order of the rest. */
  lemma DeleteKeepsRanking(modes: seq<Mode>, s: string, letter: char)
    requires WellRanked(modes, s)
    ensures WellRanked(modes, WithoutLetter(s, letter))
    ensures multiset(WithoutLetter(s, letter)) == multiset(s) - multiset{letter}
  {
    hide ModeToRank, IndexOf, IsMemberLetter;
    DeleteOne(s, letter);
    var i := IndexOf(s, letter);
    var r := WithoutLetter(s, letter);
    assert forall k | 0 <= k < |r| :: r[k] == s[if k < i then k else k + 1];
  }

  lemma DeleteOne(s: string, letter: char)
    ensures multiset(WithoutLetter(s, letter)) == multiset(s) - multiset{letter}
  {
    hide IndexOf;
    var i := IndexOf(s, letter);
    if i < |s| {
      var a, b := s[..i], s[i + 1..];
      Seqs.TakeOneMore(s, i);
      Seqs.TakeDrop(s, i + 1);
      assert multiset(s[..i + 1] + b) == multiset(a + [letter]) + multiset(b);
      assert multiset(a + b) == multiset(a) + multiset(b);
    }
  }

  /** The handler of a letter ranks below. */
  predicate RanksBelow(modes: seq<Mode>, letter: char, rank: int) {
    exists m :: m in modes && m.letter == letter && m.rank < rank
  }

  /** A string of any letters: a member mode goes in before the first one that ranks below it, if there is room,
      and nothing else goes in. */
  lemma AddGoesBefore(modes: seq<Mode>, s: string, letter: char)
    requires UniqueLetters(modes)
    ensures var r := WithLetter(modes, s, letter);
      if !IsMemberLetter(modes, letter) || |s| >= 7 then r == s
      else exists i ::
        && 0 <= i <= |s| && r == s[..i] + [letter] + s[i..]
        && (forall k | 0 <= k < i :: !RanksBelow(modes, s[k], ModeToRank(modes, letter)))
        && (i < |s| ==> RanksBelow(modes, s[i], ModeToRank(modes, letter)))
  {
    if IsMemberLetter(modes, letter) {
      MemberHandler(modes, letter);
      PositionIsFirst(modes, s, ModeToRank(modes, letter));
    }
  }

  lemma {:induction false} PositionIsFirst(modes: seq<Mode>, s: string, rank: int)
    requires UniqueLetters(modes)
    ensures var i := InsertPosition(modes, s, rank);
      && (forall k | 0 <= k < i :: !RanksBelow(modes, s[k], rank))
      && (i < |s| ==> RanksBelow(modes, s[i], rank))
  {
    hide UniqueLetters, FindHandler;
    if s != "" {
      HandlerRanks(modes, s[0], rank);
      PositionIsFirst(modes, s[1..], rank);
      assert forall k | 0 < k < |s| :: s[k] == s[1..][k - 1];
    }
  }

  lemma HandlerRanks(modes: seq<Mode>, letter: char, rank: int)
    requires UniqueLetters(modes)
    ensures var h := FindHandler(modes, letter); RanksBelow(modes, letter, rank) <==> h.Some? && h.value.rank < rank
  {
    forall m | m in modes && m.letter == letter
      ensures FindHandler(modes, letter) == Some(m)
    {
      HandlerIs(modes, m);
    }
  }

  /** The first of these letters is deleted, if there is one. */
  lemma DeleteFirst(s: string, letter: char)
    ensures var r := WithoutLetter(s, letter);
      if letter !in s then r == s
      else exists i :: 0 <= i < |s| && s[i] == letter && letter !in s[..i] && r == s[..i] + s[i + 1..]
  {
  }

  datatype Edit = Add(letter: char) | Del(letter: char)

  function Apply(modes: seq<Mode>, s: string, edit: Edit): string {
    match edit
    case Add(c) => WithLetter(modes, s, c)
    case Del(c) => WithoutLetter(s, c)
  }

  function Edited(modes: seq<Mode>, s: string, edits: seq<Edit>): string
    decreases edits
  {
    if edits == [] then s else Edited(modes, Apply(modes, s, edits[0]), edits[1..])
  }

  /** Adding the letters of a string one after the other. */
  function Adds(letters: string): (edits: seq<Edit>)
    ensures |edits| == |letters|
  {
    seq(|letters|, i requires 0 <= i < |letters| => Add(letters[i]))
  }

  /** Under a fixed registry, no run of additions and deletions breaks the ranking or the bound. */
  lemma {:induction false} EditsKeepRanking(modes: seq<Mode>, s: string, edits: seq<Edit>)
    requires UniqueLetters(modes) && WellRanked(modes, s)
    ensures WellRanked(modes, Edited(modes, s, edits))
    decreases edits
  {
    if edits != [] {
      match edits[0] {
        case Add(c) => AddKeepsRanking(modes, s, c);
        case Del(c) => DeleteKeepsRanking(modes, s, c);
      }
      EditsKeepRanking(modes, Apply(modes, s, edits[0]), edits[1..]);
    }
  }

  // What a join makes of the letters that are asked for.

  /** The letters of member modes, in the order asked. */
  function MemberLetters(modes: seq<Mode>, letters: string): string {
    if letters == "" then ""
    else (if IsMemberLetter(modes, letters[0]) then [letters[0]] else "") + MemberLetters(modes, letters[1..])
  }

  /** The letters of one rank, in order. */
  function OfRank(modes: seq<Mode>, s: string, rank: int): string {
    if s == "" then "" else (if ModeToRank(modes, s[0]) == rank then [s[0]] else "") + OfRank(modes, s[1..], rank)
  }

  lemma {:induction false} OfRankConcat(modes: seq<Mode>, a: string, b: string, rank: int)
    ensures OfRank(modes, a + b, rank) == OfRank(modes, a, rank) + OfRank(modes, b, rank)
  {
    if a == "" {
      Seqs.EmptyUnits(b);
    } else {
      OfRankConcat(modes, a[1..], b, rank);
      Seqs.DropConcat(a, b, 1);
    }
  }

  lemma {:induction false} NoneOfRank(modes: seq<Mode>, s: string, rank: int)
    requires forall k | 0 <= k < |s| :: ModeToRank(modes, s[k]) != rank
    ensures OfRank(modes, s, rank) == ""
  {
    if s != "" {
      NoneOfRank(modes, s[1..], rank);
    }
  }

  /** An added letter comes last among those of its rank. */
  lemma AddKeepsAsked(modes: seq<Mode>, s: string, letter: char, rank: int)
    requires UniqueLetters(modes) && WellRanked(modes, s) && |s| < MEMBERMODESLEN - 1 && IsMemberLetter(modes, letter)
    ensures OfRank(modes, WithLetter(modes, s, letter), rank) == OfRank(modes, s + [letter], rank)
  {
    hide InsertPosition, FindHandler, ModeToRank, UniqueLetters, OfRank;
    MemberHandler(modes, letter);
    var own := ModeToRank(modes, letter);
    InsertPositionSplits(modes, s, own);
    var p := InsertPosition(modes, s, own);
    Seqs.TakeDrop(s, p);
    var a, b := s[..p], s[p..];
    if rank == own {
      assert forall k | 0 <= k < |b| :: b[k] == s[p + k];
      NoneOfRank(modes, b, rank);
    } else {
      NoneOfRank(modes, [letter], rank);
    }
    hide WellRanked, IsMemberLetter;
    AddAround(modes, a, letter, b, rank);
  }

  lemma AddAround(modes: seq<Mode>, a: string, letter: char, b: string, rank: int)
    requires OfRank(modes, [letter], rank) == "" || OfRank(modes, b, rank) == ""
    ensures OfRank(modes, a + [letter] + b, rank) == OfRank(modes, a + b + [letter], rank)
  {
    hide OfRank;
    OfRankConcat(modes, a, [letter], rank);
    OfRankConcat(modes, a + [letter], b, rank);
    OfRankConcat(modes, a, b, rank);
    OfRankConcat(modes, a + b, [letter], rank);
  }

  /** The letters asked for so far, as far as there is room. */
  function Admitted(modes: seq<Mode>, s: string, letters: string): string {
    Cut(s + MemberLetters(modes, letters), MEMBERMODESLEN - 1)
  }

  /** Letters that are added one after the other end up sorted by rank, those of one rank in the order asked;
      they are the member modes among them, as many as there is room for. */
  lemma {:induction false} AddedLetters(modes: seq<Mode>, s: string, asked: string, letters: string)
    requires UniqueLetters(modes) && WellRanked(modes, s) && |asked| <= MEMBERMODESLEN - 1
    requires multiset(s) == multiset(asked) && forall rank :: OfRank(modes, s, rank) == OfRank(modes, asked, rank)
    ensures var r := Edited(modes, s, Adds(letters));
      && WellRanked(modes, r) && multiset(r) == multiset(Admitted(modes, asked, letters))
      && forall rank :: OfRank(modes, r, rank) == OfRank(modes, Admitted(modes, asked, letters), rank)
    decreases letters
  {
    hide UniqueLetters, WellRanked, WithLetter, OfRank, IsMemberLetter;
    if letters == "" {
      Seqs.EmptyUnits(asked);
    } else {
      var c := letters[0];
      assert |s| == |multiset(s)| == |multiset(asked)| == |asked|;
      FirstAdd(modes, s, letters);
      AddKeepsRanking(modes, s, c);
      NotAdded(modes, s, c);
      if IsMemberLetter(modes, c) && |s| < MEMBERMODESLEN - 1 {
        forall rank
          ensures OfRank(modes, WithLetter(modes, s, c), rank) == OfRank(modes, asked + [c], rank)
        {
          AddKeepsAsked(modes, s, c, rank);
          OfRankConcat(modes, s, [c], rank);
          OfRankConcat(modes, asked, [c], rank);
        }
        AddedLetters(modes, WithLetter(modes, s, c), asked + [c], letters[1..]);
        Seqs.Assoc(asked, [c], MemberLetters(modes, letters[1..]));
      } else {
        AddedLetters(modes, s, asked, letters[1..]);
        NoMoreRoom(modes, asked, letters);
      }
    }
  }

  lemma FirstAdd(modes: seq<Mode>, s: string, letters: string)
    requires letters != ""
    ensures Edited(modes, s, Adds(letters)) == Edited(modes, WithLetter(modes, s, letters[0]), Adds(letters[1..]))
  {
    hide WithLetter;
    assert Adds(letters)[1..] == Adds(letters[1..]);
  }

  lemma NotAdded(modes: seq<Mode>, s: string, c: char)
    requires UniqueLetters(modes)
    ensures !IsMemberLetter(modes, c) || |s| >= MEMBERMODESLEN - 1 ==> WithLetter(modes, s, c) == s
  {
    hide UniqueLetters, InsertPosition;
    var h := FindHandler(modes, c);
    assert h.Some? && h.value.kind == MEMBER ==> IsMemberLetter(modes, c);
  }

  lemma NoMoreRoom(modes: seq<Mode>, asked: string, letters: string)
    requires letters != "" && |asked| <= MEMBERMODESLEN - 1
    requires !IsMemberLetter(modes, letters[0]) || |asked| == MEMBERMODESLEN - 1
    ensures Admitted(modes, asked, letters) == Admitted(modes, asked, letters[1..])
  {
    hide IsMemberLetter;
    var rest := MemberLetters(modes, letters[1..]);
    Seqs.EmptyUnits(rest);
    if |asked| == MEMBERMODESLEN - 1 {
      FullIsFull(asked, MemberLetters(modes, letters));
      FullIsFull(asked, rest);
    }
  }

  lemma FullIsFull(a: string, b: string)
    ensures Cut(a + b, |a|) == a
  {
    Seqs.EmptyUnits(a);
    assert (a + b)[..|a|] == a;
  }

  /** The member modes among the letters, at most MEMBERMODESLEN - 1, sorted by rank and then as asked. */
  ghost predicate IsRankedChoice(modes: seq<Mode>, letters: string, r: string) {
    var asked := Cut(MemberLetters(modes, letters), MEMBERMODESLEN - 1);
    && WellRanked(modes, r) && multiset(r) == multiset(asked)
    && forall rank :: OfRank(modes, r, rank) == OfRank(modes, asked, rank)
  }

  /** The mode string of a new member. */
  lemma JoinedLetters(modes: seq<Mode>, letters: string)
    ensures UniqueLetters(modes) ==> IsRankedChoice(modes, letters, Edited(modes, "", Adds(letters)))
  {
    hide UniqueLetters, Edited, Adds, OfRank, MemberLetters;
    if UniqueLetters(modes) {
      JoinedFromNothing(modes, letters);
    }
  }

  lemma JoinedFromNothing(modes: seq<Mode>, letters: string)
    requires UniqueLetters(modes)
    ensures IsRankedChoice(modes, letters, Edited(modes, "", Adds(letters)))
  {
    hide UniqueLetters, Edited, Adds, OfRank, MemberLetters;
    AddedLetters(modes, "", "", letters);
    Seqs.EmptyUnits(MemberLetters(modes, letters));
  }

  /** What a network keeps of the mode strings: they are well ranked, if no two modes share a letter. */
  ghost predicate Ranked(modes: seq<Mode>, s: string) {
    UniqueLetters(modes) ==> WellRanked(modes, s)
  }

  lemma EditedIsRanked(modes: seq<Mode>, edits: seq<Edit>)
    ensures Ranked(modes, Edited(modes, "", edits))
  {
    hide UniqueLetters, Edited;
    if UniqueLetters(modes) {
      EditsKeepRanking(modes, "", edits);
    }
  }

  lemma ApplyIsRanked(modes: seq<Mode>, s: string, edit: Edit)
    requires Ranked(modes, s)
    ensures Ranked(modes, Apply(modes, s, edit))
  {
    hide UniqueLetters, WellRanked, WithLetter, WithoutLetter;
    if UniqueLetters(modes) {
      match edit
      case Add(c) => AddKeepsRanking(modes, s, c);
      case Del(c) => DeleteKeepsRanking(modes, s, c);
    }
  }

  // Letters that are held twice: an addition does not look whether the letter is there.

  /** A mode string under a registry, so that the edits are a state machine. */
  datatype Held = Held(modes: seq<Mode>, letters: string)

  function AfterEdit(h: Held, edit: Edit): Held {
    h.(letters := Apply(h.modes, h.letters, edit))
  }

  ghost predicate WellHeld(h: Held) {
    UniqueLetters(h.modes) && WellRanked(h.modes, h.letters)
  }

  ghost predicate NoneTwice(h: Held) {
    Seqs.NoDup(h.letters)
  }

  /** A letter is added that is held, while there is room. */
  predicate AddsAgain(h: Held, edit: Edit) {
    edit.Add? && edit.letter in h.letters && |h.letters| < MEMBERMODESLEN - 1
  }

  lemma {:induction false} CountsAreSingle(s: string)
    ensures Seqs.NoDup(s) <==> forall c :: multiset(s)[c] <= 1
  {
    if s != [] {
      CountsAreSingle(s[1..]);
      FirstAgain(s);
      assert s == [s[0]] + s[1..];
      hide Seqs.NoDup;
      forall c
        ensures multiset(s)[c] == multiset(s[1..])[c] + if c == s[0] then 1 else 0
      {
      }
      assert s[0] in s[1..] <==> multiset(s[1..])[s[0]] >= 1;
    }
  }

  lemma FirstAgain(s: string)
    requires s != []
    ensures Seqs.NoDup(s) <==> s[0] !in s[1..] && Seqs.NoDup(s[1..])
  {
    assert forall i | 0 < i < |s| :: s[i] == s[1..][i - 1];
  }

  lemma EditOnce(h: Held, edit: Edit)
    requires WellHeld(h)
    ensures WellHeld(AfterEdit(h, edit))
    ensures NoneTwice(h) ==> (NoneTwice(AfterEdit(h, edit)) <==> !AddsAgain(h, edit))
  {
    var after := AfterEdit(h, edit);
    CountsAreSingle(h.letters);
    CountsAreSingle(after.letters);
    hide Seqs.NoDup, UniqueLetters, WellRanked, WithLetter, WithoutLetter;
    match edit
    case Add(c) =>
      AddKeepsRanking(h.modes, h.letters, c);
      HeldIsMember(h.modes, h.letters, c);
      if AddsAgain(h, edit) {
        assert multiset(after.letters)[c] > 1;
      }
    case Del(c) => DeleteKeepsRanking(h.modes, h.letters, c);
  }

  lemma HeldIsMember(modes: seq<Mode>, s: string, c: char)
    requires WellRanked(modes, s)
    ensures c in s ==> IsMemberLetter(modes, c)
  {
  }

  /** Over every run of edits no letter is held twice if and only if none is added that is held. */
  lemma NoneTwiceInRuns(h: Held, edits: seq<Edit>)
    requires WellHeld(h) && NoneTwice(h)
    ensures Always(AfterEdit, NoneTwice, h, edits) <==> Never(AfterEdit, AddsAgain, h, edits)
  {
    forall h, edit | WellHeld(h)
      ensures WellHeld(AfterEdit(h, edit))
      ensures NoneTwice(h) ==> (NoneTwice(AfterEdit(h, edit)) <==> !AddsAgain(h, edit))
    {
      EditOnce(h, edit);
    }
    hide WellHeld, NoneTwice, AfterEdit, AddsAgain, Always, Never;
    Throughout(AfterEdit, WellHeld, NoneTwice, AddsAgain, h, edits);
  }

  /** A deletion takes the mode away if and only if it is held at most once. */
  lemma DeleteTakesAway(s: string, letter: char)
    ensures letter !in WithoutLetter(s, letter) <==> multiset(s)[letter] <= 1
  {
    hide WithoutLetter;
    DeleteOne(s, letter);
    assert letter in WithoutLetter(s, letter) <==> letter in multiset(WithoutLetter(s, letter));
  }

  /** Added twice and deleted once, as with a doubled prefix in SJOIN: the mode is still held. */
  lemma AddedTwiceStays(modes: seq<Mode>, letter: char)
    requires UniqueLetters(modes) && IsMemberLetter(modes, letter)
    ensures letter in Edited(modes, "", [Add(letter), Add(letter), Del(letter)])
  {
    hide UniqueLetters, WithLetter, WithoutLetter, IsMemberLetter;
    var one := WithLetter(modes, "", letter);
    var two := WithLetter(modes, one, letter);
    AddKeepsRanking(modes, "", letter);
    assert |one| == |multiset(one)| == 1;
    AddKeepsRanking(modes, one, letter);
    hide WellRanked;
    DeleteTakesAway(two, letter);
    ThreeEdits(modes, Add(letter), Add(letter), Del(letter));
  }

  lemma ThreeEdits(modes: seq<Mode>, a: Edit, b: Edit, c: Edit)
    ensures Edited(modes, "", [a, b, c]) == Apply(modes, Apply(modes, Apply(modes, "", a), b), c)
  {
    hide Apply;
    assert [a, b, c][1..] == [b, c] && [b, c][1..] == [c] && [c][1..] == [];
    var x := Apply(modes, "", a);
    var y := Apply(modes, x, b);
    assert Edited(modes, y, [c]) == Apply(modes, y, c);
    assert Edited(modes, x, [b, c]) == Edited(modes, y, [c]);
  }

  /** Adding a letter the member does not hold and deleting it again changes nothing. */
  lemma AddThenDelete(modes: seq<Mode>, s: string, letter: char)
    requires letter !in s
    ensures WithoutLetter(WithLetter(modes, s, letter), letter) == s
  {
    hide FindHandler, InsertPosition, IndexOf;
    var r := WithLetter(modes, s, letter);
    var i := IndexOf(r, letter);
    if i < |r| {
      var p := InsertPosition(modes, s, FindHandler(modes, letter).value.rank);
      assert r[p] == letter;
      assert p >= i;
      assert r[..p] == s[..p];
      assert i == p;
      assert r[..p] + r[p + 1..] == s;
    }
  }

  // ---------------------------------------------------------------------
  // Access checks.

  /** check_channel_access_string: does the member hold any of the modes? */
  predicate CheckAccess(held: string, modes: string) {
    exists c :: c in held && c in modes
  }

  /** The lowest rank among the letters asked for, INT_MAX when there is none. */
  function LowestRank(modes: seq<Mode>, asked: string): int {
    if asked == [] then INT_MAX
    else
      var rest := LowestRank(modes, asked[..|asked| - 1]);
      var rank := ModeToRank(modes, asked[|asked| - 1]);
      if rank < rest then rank else rest
  }

  /** Letters of the member modes that rank at least as high, in registry order. */
  function RankedAtLeast(modes: seq<Mode>, rank: int): string {
    if modes == [] then []
    else
      var n := |modes| - 1;
      RankedAtLeast(modes[..n], rank)
      + if modes[n].kind == MEMBER && modes[n].rank >= rank then [modes[n].letter] else []
  }

  /** strlcat_letter */
  function StrlcatLetter(buf: string, c: char, size: nat): string {
    if size == 0 || |buf| >= size - 1 then buf else buf + [c]
  }

  /** lowest_ranking_mode */
  method LowestRankingMode(modes: seq<Mode>, asked: string) returns (c: char)
    ensures var low := LowestRank(modes, asked);
      c == if low == INT_MAX then NUL else RankToMode(modes, low)
  {
    var winning := INT_MAX;
    var p := 0;
    while p < |asked|
      invariant p <= |asked|
      invariant winning == LowestRank(modes, asked[..p])
    {
      var rank := ModeToRank(modes, asked[p]);
      assert asked[..p + 1][..p] == asked[..p];
      if rank < winning {
        winning := rank;
      }
      p := p + 1;
    }
    assert asked[..p] == asked;
    if winning == INT_MAX {
      return NUL;
    }
    return RankToMode(modes, winning);
  }

  /** What channel_member_modes_generate_equal_or_greater computes when the buffer is large enough. */
  function EqualOrGreater(modes: seq<Mode>, asked: string): string {
    var low := LowestRank(modes, asked);
    var rank := ModeToRank(modes, if low == INT_MAX then NUL else RankToMode(modes, low));
    if rank == 0 then [] else RankedAtLeast(modes, rank)
  }

  /** What fits a buffer of that size. */
  function Generated(modes: seq<Mode>, asked: string, size: nat): string {
    if size == 0 then [] else Cut(EqualOrGreater(modes, asked), size - 1)
  }

  lemma RankedNone(rank: int)
    ensures RankedAtLeast([], rank) == []
  {
  }

  lemma RankedStep(modes: seq<Mode>, i: nat, rank: int)
    requires i < |modes|
    ensures RankedAtLeast(modes[..i + 1], rank) ==
      RankedAtLeast(modes[..i], rank)
      + if modes[i].kind == MEMBER && modes[i].rank >= rank then [modes[i].letter] else []
  {
    assert modes[..i + 1][..i] == modes[..i];
  }

  /** channel_member_modes_generate_equal_or_greater */
  method GenerateEqualOrGreater(modes: seq<Mode>, asked: string, size: nat) returns (buf: string)
    ensures buf == Generated(modes, asked, size)
  {
    hide ModeToRank, RankToMode, LowestRank, RankedAtLeast;
    buf := [];
    var mode := LowestRankingMode(modes, asked);
    var rank := ModeToRank(modes, mode);
    if rank == 0 {
      return;
    }
    RankedNone(rank);
    var i := 0;
    while i < |modes|
      invariant i <= |modes|
      invariant buf == if size == 0 then [] else Cut(RankedAtLeast(modes[..i], rank), size - 1)
    {
      RankedStep(modes, i, rank);
      if modes[i].kind == MEMBER && modes[i].rank >= rank {
        buf := StrlcatLetter(buf, modes[i].letter, size);
      }
      i := i + 1;
    }
    assert modes[..i] == modes;
  }

  lemma {:induction false} RankedAtLeastIs(modes: seq<Mode>, rank: int)
    ensures forall c :: c in RankedAtLeast(modes, rank) <==>
      exists m :: m in modes && m.kind == MEMBER && m.letter == c && m.rank >= rank
  {
    if modes != [] {
      var n := |modes| - 1;
      RankedAtLeastIs(modes[..n], rank);
      assert modes == modes[..n] + [modes[n]];
    }
  }

  /** They are listed in registry order. */
  lemma {:induction false} RankedInOrder(a: seq<Mode>, m: Mode, b: seq<Mode>, rank: int)
    ensures RankedAtLeast(a + [m] + b, rank) ==
      RankedAtLeast(a, rank) + (if m.kind == MEMBER && m.rank >= rank then [m.letter] else "") + RankedAtLeast(b, rank)
    decreases |b|
  {
    var all := a + [m] + b;
    if b == [] {
      assert all[..|all| - 1] == a;
    } else {
      var n := |b| - 1;
      RankedInOrder(a, m, b[..n], rank);
      assert all[..|all| - 1] == a + [m] + b[..n];
    }
  }

  lemma {:induction false} LowestRankIs(modes: seq<Mode>, asked: string)
    ensures var low := LowestRank(modes, asked);
      && low <= INT_MAX
      && (forall c | c in asked :: low <= ModeToRank(modes, c))
      && (low < INT_MAX ==> exists c :: c in asked && ModeToRank(modes, c) == low)
  {
    if asked != [] {
      var n := |asked| - 1;
      LowestRankIs(modes, asked[..n]);
      assert asked == asked[..n] + [asked[n]];
      if LowestRank(modes, asked) < INT_MAX && LowestRank(modes, asked) == LowestRank(modes, asked[..n]) {
        var c :| c in asked[..n] && ModeToRank(modes, c) == LowestRank(modes, asked[..n]);
        assert c in asked;
      }
    }
  }

  /** CmodeAdd demands a rank other than 0; ranks are ints. */
  predicate RanksOk(modes: seq<Mode>) {
    forall m | m in modes && m.kind == MEMBER :: m.rank != 0 && m.rank <= INT_MAX
  }

  lemma {:induction false} RankRoundTrip(modes: seq<Mode>, rank: int)
    requires UniqueLetters(modes) && RanksOk(modes)
    ensures ModeToRank(modes, RankToMode(modes, rank)) ==
            if exists m :: m in modes && m.kind == MEMBER && m.rank == rank then rank else 0
  {
    RankToModeIs(modes, rank);
    RankIs(modes, RankToMode(modes, rank));
  }

  /** Of several member modes of a rank the first one is found. */
  lemma {:induction false} FirstOfRank(modes: seq<Mode>, i: nat)
    requires i < |modes| && modes[i].kind == MEMBER
    requires forall k | 0 <= k < i :: modes[k].kind == MEMBER ==> modes[k].rank != modes[i].rank
    ensures RankToMode(modes, modes[i].rank) == modes[i].letter
  {
    if i > 0 {
      assert modes[1..][i - 1] == modes[i];
      FirstOfRank(modes[1..], i - 1);
    }
  }

  lemma {:induction false} RankToModeIs(modes: seq<Mode>, rank: int)
    ensures (exists m :: m in modes && m.kind == MEMBER && m.rank == rank) ==>
      exists m :: m in modes && m.kind == MEMBER && m.rank == rank && m.letter == RankToMode(modes, rank)
  {
    if modes != [] {
      RankToModeIs(modes[1..], rank);
      assert modes == [modes[0]] + modes[1..];
    }
  }

  /** Testing against the uncut string succeeds exactly when the member holds a member mode of rank at
      least the lowest rank asked for; and never when nothing is asked for, or only modes of the highest
      possible rank, or when that lowest rank is the 0 of an unknown letter. */
  lemma AccessUncut(modes: seq<Mode>, asked: string, held: string)
    requires UniqueLetters(modes) && RanksOk(modes)
    ensures var low := LowestRank(modes, asked);
      CheckAccess(held, EqualOrGreater(modes, asked)) <==>
        && low != 0 && low < INT_MAX
        && exists c :: c in held && IsMemberLetter(modes, c) && ModeToRank(modes, c) >= low
  {
    hide LowestRank, ModeToRank, RankToMode, RankedAtLeast;
    var low := LowestRank(modes, asked);
    RankOfAsked(modes, asked);
    RankedAtLeastIs(modes, low);
    forall c
      ensures (exists m :: m in modes && m.kind == MEMBER && m.letter == c && m.rank >= low) <==>
              IsMemberLetter(modes, c) && ModeToRank(modes, c) >= low
    {
      RankIs(modes, c);
    }
  }

  lemma RankOfAsked(modes: seq<Mode>, asked: string)
    requires UniqueLetters(modes) && RanksOk(modes)
    ensures var low := LowestRank(modes, asked);
      && low <= INT_MAX
      && ModeToRank(modes, if low == INT_MAX then NUL else RankToMode(modes, low)) == if low == INT_MAX then 0 else low
  {
    hide LowestRank, ModeToRank, RankToMode;
    var low := LowestRank(modes, asked);
    LowestRankIs(modes, asked);
    RankIs(modes, NUL);
    RankRoundTrip(modes, low);
    if low < INT_MAX && low != 0 {
      var c :| c in asked && ModeToRank(modes, c) == low;
      RankIs(modes, c);
    }
  }

  /** The buffer is large enough for all letters, or there are none. */
  predicate BufferSuffices(modes: seq<Mode>, asked: string, size: nat) {
    |EqualOrGreater(modes, asked)| < size || EqualOrGreater(modes, asked) == []
  }

  /** The string in the buffer gives the same access to everybody if and only if the buffer suffices. */
  lemma CutExact(modes: seq<Mode>, asked: string, size: nat)
    requires UniqueLetters(modes)
    ensures (forall held ::
              CheckAccess(held, Generated(modes, asked, size)) <==> CheckAccess(held, EqualOrGreater(modes, asked)))
      <==> BufferSuffices(modes, asked, size)
  {
    var all := EqualOrGreater(modes, asked);
    LettersDiffer(modes, asked);
    hide EqualOrGreater;
    if BufferSuffices(modes, asked, size) {
      assert Generated(modes, asked, size) == all;
    } else {
      var lost := all[if size == 0 then 0 else size - 1];
      assert CheckAccess([lost], all) by {
        assert lost in [lost];
      }
      assert !CheckAccess([lost], Generated(modes, asked, size));
    }
  }

  lemma LettersDiffer(modes: seq<Mode>, asked: string)
    requires UniqueLetters(modes)
    ensures Seqs.NoDup(EqualOrGreater(modes, asked))
  {
    hide LowestRank, ModeToRank, RankToMode, RankedAtLeast, UniqueLetters;
    var low := LowestRank(modes, asked);
    RankedLettersDiffer(modes, ModeToRank(modes, if low == INT_MAX then NUL else RankToMode(modes, low)));
  }

  lemma {:induction false} RankedLettersDiffer(modes: seq<Mode>, rank: int)
    requires UniqueLetters(modes)
    ensures Seqs.NoDup(RankedAtLeast(modes, rank))
  {
    if modes != [] {
      var n := |modes| - 1;
      var front := RankedAtLeast(modes[..n], rank);
      assert forall m | m in modes[..n] :: m in modes;
      RankedLettersDiffer(modes[..n], rank);
      RankedAtLeastIs(modes[..n], rank);
      assert modes[n].letter !in front;
    }
  }

  /** Testing against the string in the buffer, when that suffices: it succeeds exactly when the member holds
      a member mode of rank at least the lowest rank asked for, and that is not 0 or the highest possible. */
  lemma AccessExact(modes: seq<Mode>, asked: string, size: nat, held: string)
    requires UniqueLetters(modes) && RanksOk(modes) && BufferSuffices(modes, asked, size)
    ensures var low := LowestRank(modes, asked);
      CheckAccess(held, Generated(modes, asked, size)) <==>
        && low != 0 && low < INT_MAX
        && exists c :: c in held && IsMemberLetter(modes, c) && ModeToRank(modes, c) >= low
  {
    hide LowestRank, ModeToRank, RankToMode, RankedAtLeast, EqualOrGreater, Generated;
    CutExact(modes, asked, size);
    AccessUncut(modes, asked, held);
  }

  /** When only member modes are asked for, an unknown letter cannot spoil the check. */
  lemma AccessForMemberModes(modes: seq<Mode>, asked: string, size: nat, held: string)
    requires UniqueLetters(modes) && RanksOk(modes) && BufferSuffices(modes, asked, size)
    requires forall c | c in asked :: IsMemberLetter(modes, c)
    ensures CheckAccess(held, Generated(modes, asked, size)) <==>
      exists c, a :: c in held && a in asked && IsMemberLetter(modes, c) &&
        ModeToRank(modes, c) >= ModeToRank(modes, a) && ModeToRank(modes, a) < INT_MAX
  {
    hide LowestRank, ModeToRank, RankToMode, RankedAtLeast, EqualOrGreater, Generated, BufferSuffices, CheckAccess;
    AccessExact(modes, asked, size, held);
    LowestRankIs(modes, asked);
    var low := LowestRank(modes, asked);
    forall c | c in asked ensures ModeToRank(modes, c) != 0 {
      RankIs(modes, c);
    }
    if low < INT_MAX {
      var a :| a in asked && ModeToRank(modes, a) == low;
    }
  }
}
