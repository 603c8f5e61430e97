/** Channel mode records (`struct Cmode`) and the read-only queries over the mode list. */
module Cmode {
  import opened Options

  datatype Kind = NORMAL | MEMBER

  /** bit is 0 for member modes; rank and unused fields are 0 for normal modes. */
  datatype Mode = Mode(
    letter: char,
    kind: Kind,
    bit: nat,
    rank: int,
    paracount: nat,
    unsetWithParam: bool,
    local: bool,
    unloaded: bool,
    paramSlot: nat)

  const NUL: char := '\0'

  /** find_channel_mode_handler: the first entry with this letter. */
  function FindHandler(modes: seq<Mode>, letter: char): (r: Option<Mode>)
    ensures r.None? <==> forall m | m in modes :: m.letter != letter
    ensures r.Some? ==> r.value in modes && r.value.letter == letter
  {
    if modes == [] then None
    else if modes[0].letter == letter then Some(modes[0])
    else FindHandler(modes[1..], letter)
  }

  /** mode_to_rank: the rank of a member mode, 0 when there is no such member mode. */
  function ModeToRank(modes: seq<Mode>, letter: char): int {
    if modes == [] then 0
    else if modes[0].kind == MEMBER && modes[0].letter == letter then modes[0].rank
    else ModeToRank(modes[1..], letter)
  }

  /** rank_to_mode: the first member mode of this rank, NUL when there is none. */
  function RankToMode(modes: seq<Mode>, rank: int): (c: char)
    ensures (forall m | m in modes :: m.kind == MEMBER ==> m.rank != rank) ==> c == NUL
  {
    if modes == [] then NUL
    else if modes[0].kind == MEMBER && modes[0].rank == rank then modes[0].letter
    else RankToMode(modes[1..], rank)
  }

  /** Letters are unique and never NUL. */
  predicate UniqueLetters(modes: seq<Mode>) {
    && (forall m | m in modes :: m.letter != NUL)
    && (forall i, j | 0 <= i < j < |modes| :: modes[i].letter != modes[j].letter)
  }

  /** valid_channel_access_mode_letter */
  predicate IsMemberLetter(modes: seq<Mode>, letter: char) {
    exists m :: m in modes && m.kind == MEMBER && m.letter == letter
  }

  lemma {:induction false} HandlerIs(modes: seq<Mode>, m: Mode)
    requires UniqueLetters(modes) && m in modes
    ensures FindHandler(modes, m.letter) == Some(m)
  {
    if modes[0] != m {
      var i :| 0 <= i < |modes| && modes[i] == m;
      assert m == modes[1..][i - 1];
      HandlerIs(modes[1..], m);
    }
  }

  lemma {:induction false} RankIs(modes: seq<Mode>, letter: char)
    requires UniqueLetters(modes)
    ensures forall m | m in modes && m.kind == MEMBER && m.letter == letter :: ModeToRank(modes, letter) == m.rank
    ensures !IsMemberLetter(modes, letter) ==> ModeToRank(modes, letter) == 0
  {
    if modes != [] {
      assert modes == [modes[0]] + modes[1..];
      RankIs(modes[1..], letter);
      forall m | m in modes && m.kind == MEMBER && m.letter == letter
        ensures ModeToRank(modes, letter) == m.rank
      {
        var i :| 0 <= i < |modes| && modes[i] == m;
        if i > 0 {
          assert modes[1..][i - 1] == m;
        }
      }
      if !IsMemberLetter(modes, letter) {
        assert modes[0] in modes;
        assert forall m | m in modes[1..] :: m in modes;
      }
    }
  }
}
