/**
 What channel modes leave on the channels (`src/api-channelmode.c`): the bits that are set, the
 parameter structs that are pointed to, and the mode strings of the members.
 */
module ChannelState {
  import opened Cmode
  import opened MemberModes
  import opened Options

  const MAXPARAMMODES := 16

  predicate TakesSlot(m: Mode) {
    m.kind == NORMAL && m.paracount == 1
  }

  /** A struct may have been freed, or belong to a mode that is gone. */
  datatype Status = LIVE | FREED | ORPHANED

  datatype Param = Param(text: string, status: Status)

  /** A channel: mode bits, pointers to parameter structs by slot, and mode strings of its members. */
  datatype Chan = Chan(bits: set<nat>, params: seq<Option<Param>>, members: seq<string>)

  /** The bits belong to registered modes; a live struct is in the slot of a registered mode, and a mode that
      is set has a struct. */
  ghost predicate ChanOk(c: Chan, modes: seq<Mode>) {
    && |c.params| == MAXPARAMMODES + 1
    && (forall b | b in c.bits :: BitOwned(modes, b))
    && (forall k | 0 <= k < |c.params| && c.params[k].Some? && c.params[k].value.status == LIVE :: SlotOwned(modes, k))
    && (forall m | m in modes && TakesSlot(m) && m.bit in c.bits ::
          m.paramSlot < MAXPARAMMODES && c.params[m.paramSlot].Some?)
  }

  ghost predicate BitOwned(modes: seq<Mode>, b: nat) {
    exists m :: m in modes && m.kind == NORMAL && m.bit == b
  }

  ghost predicate SlotOwned(modes: seq<Mode>, k: nat) {
    exists m :: m in modes && TakesSlot(m) && m.paramSlot == k
  }

  ghost predicate ChansOk(cs: seq<Chan>, modes: seq<Mode>) {
    forall i | 0 <= i < |cs| :: ChanOk(cs[i], modes)
  }

  /** No channel points to a struct that has been freed or belongs to nobody. */
  predicate AllClean(cs: seq<Chan>) {
    forall i | 0 <= i < |cs| :: Clean(cs[i])
  }

  predicate Clean(c: Chan) {
    forall k | 0 <= k < |c.params| && c.params[k].Some? :: c.params[k].value.status == LIVE
  }

  /** Some channel has a struct in the slot. */
  predicate PointedTo(cs: seq<Chan>, slot: nat) {
    exists i :: 0 <= i < |cs| && Points(cs[i], slot)
  }

  predicate Points(c: Chan, slot: nat) {
    slot < |c.params| && c.params[slot].Some?
  }

  // ---------------------------------------------------------------------
  // Removal of a mode.

  /** A struct that is left behind: freed where the mode is set, and otherwise without an owner. */
  function LeftBehind(p: Option<Param>, set_: bool): Option<Param> {
    match p
    case None => None
    case Some(x) => Some(x.(status := if set_ then FREED else if x.status == LIVE then ORPHANED else x.status))
  }

  /** unload_extcmode_commit, for one channel: a normal mode is unset, its struct freed but still pointed to;
      a member mode is taken from the members. */
  function AfterCommit(c: Chan, cm: Mode): Chan {
    if cm.kind == MEMBER then c.(members := AllWithout(c.members, cm.letter))
    else Chan(c.bits - {cm.bit},
              if cm.paracount != 0 && cm.paramSlot < |c.params|
              then c.params[cm.paramSlot := LeftBehind(c.params[cm.paramSlot], cm.bit in c.bits)] else c.params,
              c.members)
  }

  function AllAfterCommit(cs: seq<Chan>, cm: Mode): (r: seq<Chan>)
    ensures |r| == |cs| && forall i | 0 <= i < |cs| :: r[i] == AfterCommit(cs[i], cm)
  {
    seq(|cs|, i requires 0 <= i < |cs| => AfterCommit(cs[i], cm))
  }

  function AllWithout(members: seq<string>, letter: char): (r: seq<string>)
    ensures |r| == |members| && forall j | 0 <= j < |r| :: r[j] == WithoutLetter(members[j], letter)
  {
    seq(|members|, j requires 0 <= j < |members| => WithoutLetter(members[j], letter))
  }

  /** Bits are unique among normal modes. */
  ghost predicate BitsUnique(modes: seq<Mode>) {
    forall a, b | a in modes && b in modes && a.kind == NORMAL && b.kind == NORMAL && a.bit == b.bit :: a == b
  }

  /** Slots are unique among the modes that take one. */
  ghost predicate SlotsUnique(modes: seq<Mode>) {
    forall a, b | a in modes && b in modes && TakesSlot(a) && TakesSlot(b) && a.paramSlot == b.paramSlot :: a == b
  }

  lemma CommitKeepsChan(c: Chan, modes: seq<Mode>, cm: Mode, rest: seq<Mode>)
    requires ChanOk(c, modes) && BitsUnique(modes) && cm in modes && (cm.kind == NORMAL ==> cm.paracount <= 1)
    requires (forall m | m in rest :: m in modes && m != cm) && forall m | m in modes && m != cm :: m in rest
    requires SlotsUnique(modes)
    ensures ChanOk(AfterCommit(c, cm), rest)
  {
    var d := AfterCommit(c, cm);
    forall b | b in d.bits
      ensures BitOwned(rest, b)
    {
      assert BitOwned(modes, b);
      var m :| m in modes && m.kind == NORMAL && m.bit == b;
    }
    forall k | 0 <= k < |d.params| && d.params[k].Some? && d.params[k].value.status == LIVE
      ensures SlotOwned(rest, k)
    {
      assert SlotOwned(modes, k);
      var m :| m in modes && TakesSlot(m) && m.paramSlot == k;
    }
  }

  /** A removal leaves a struct behind if and only if the mode takes a parameter and some channel has one. */
  lemma CommitLeavesStale(cs: seq<Chan>, cm: Mode)
    requires cm.kind == NORMAL ==> cm.paracount <= 1
    ensures AllClean(AllAfterCommit(cs, cm)) <==> AllClean(cs) && !(TakesSlot(cm) && PointedTo(cs, cm.paramSlot))
  {
    var ds := AllAfterCommit(cs, cm);
    hide AllAfterCommit, AfterCommit;
    forall i | 0 <= i < |cs|
      ensures Clean(ds[i]) <==> Clean(cs[i]) && !(TakesSlot(cm) && Points(cs[i], cm.paramSlot))
    {
      CleanAfterCommit(cs[i], cm);
    }
    hide Clean, Points;
    if AllClean(ds) {
      forall i | 0 <= i < |cs|
        ensures Clean(cs[i]) && !(TakesSlot(cm) && Points(cs[i], cm.paramSlot))
      {
        assert Clean(ds[i]);
      }
    }
  }

  lemma CleanAfterCommit(c: Chan, cm: Mode)
    requires cm.kind == NORMAL ==> cm.paracount <= 1
    ensures Clean(AfterCommit(c, cm)) <==> Clean(c) && !(TakesSlot(cm) && Points(c, cm.paramSlot))
  {
    var d := AfterCommit(c, cm);
    if TakesSlot(cm) && Points(c, cm.paramSlot) {
      assert d.params[cm.paramSlot].Some? && d.params[cm.paramSlot].value.status != LIVE;
    } else if cm.kind == NORMAL {
      assert d.params == c.params;
    }
  }

  /** Pointers stay where they are. */
  lemma CommitKeepsPointers(cs: seq<Chan>, cm: Mode, slot: nat)
    ensures PointedTo(AllAfterCommit(cs, cm), slot) <==> PointedTo(cs, slot)
  {
    var ds := AllAfterCommit(cs, cm);
    assert forall i | 0 <= i < |cs| :: Points(ds[i], slot) <==> Points(cs[i], slot);
  }

  // ---------------------------------------------------------------------
  // A slot that no mode owns.

  /** Such a slot is empty on every channel unless a struct has been left behind in it. */
  lemma UnownedSlot(c: Chan, modes: seq<Mode>, k: nat)
    requires ChanOk(c, modes) && k < MAXPARAMMODES && !SlotOwned(modes, k)
    ensures c.params[k].Some? ==> c.params[k].value.status != LIVE
    ensures Clean(c) ==> c.params[k].None?
  {
  }

  // ---------------------------------------------------------------------
  // Registration, and setting and unsetting of modes.

  /** A new mode, whose bit no other mode has, is set nowhere. */
  lemma InsertKeepsChan(c: Chan, modes: seq<Mode>, n: Mode, more: seq<Mode>)
    requires ChanOk(c, modes) && (forall m | m in modes :: m in more) && forall m | m in more :: m in modes || m == n
    requires n.kind == NORMAL ==> forall m | m in modes && m.kind == NORMAL :: m.bit != n.bit
    ensures ChanOk(c, more)
  {
    forall b | BitOwned(modes, b)
      ensures BitOwned(more, b)
    {
      var m :| m in modes && m.kind == NORMAL && m.bit == b;
      assert m in more;
    }
    forall k: nat | SlotOwned(modes, k)
      ensures SlotOwned(more, k)
    {
      var m :| m in modes && TakesSlot(m) && m.paramSlot == k;
      assert m in more;
    }
    assert n.kind == NORMAL ==> !BitOwned(modes, n.bit);
    hide BitOwned, SlotOwned;
  }

  /** Marking or reviving a mode, with kind, bit and slot kept. */
  lemma ReplaceKeepsChan(c: Chan, modes: seq<Mode>, m: Mode, n: Mode, after: seq<Mode>)
    requires ChanOk(c, modes) && m in modes && n in after
    requires n.kind == m.kind && n.bit == m.bit && n.paracount == m.paracount && n.paramSlot == m.paramSlot
    requires (forall x | x in modes && x != m :: x in after) && forall x | x in after :: x == n || x in modes
    ensures ChanOk(c, after)
  {
    forall b | BitOwned(modes, b)
      ensures BitOwned(after, b)
    {
      var x :| x in modes && x.kind == NORMAL && x.bit == b;
      assert (if x == m then n else x) in after;
    }
    forall k: nat | SlotOwned(modes, k)
      ensures SlotOwned(after, k)
    {
      var x :| x in modes && TakesSlot(x) && x.paramSlot == k;
      assert (if x == m then n else x) in after;
    }
    hide BitOwned, SlotOwned;
  }

  /** Setting a mode; put_param writes through the pointer that is there, if any. */
  function SetOn(c: Chan, m: Mode, text: string): Chan {
    Chan(c.bits + {m.bit},
         if TakesSlot(m) && m.paramSlot < |c.params|
         then
           var p := c.params[m.paramSlot];
           c.params[m.paramSlot := Some(Param(text, if p.Some? then p.value.status else LIVE))]
         else c.params,
         c.members)
  }

  /** Unsetting a mode; cm_freeparameter clears the pointer too, unless free_param keeps the struct. */
  function UnsetOn(c: Chan, m: Mode, kept: bool): Chan {
    if m.bit !in c.bits then c
    else Chan(c.bits - {m.bit},
              if TakesSlot(m) && m.paramSlot < |c.params| && !kept then c.params[m.paramSlot := None] else c.params,
              c.members)
  }

  lemma SetKeepsChan(c: Chan, modes: seq<Mode>, m: Mode, text: string)
    requires ChanOk(c, modes) && BitsUnique(modes) && m in modes && m.kind == NORMAL
    requires TakesSlot(m) ==> m.paramSlot < MAXPARAMMODES
    ensures ChanOk(SetOn(c, m, text), modes) && (Clean(SetOn(c, m, text)) <==> Clean(c))
  {
    var d := SetOn(c, m, text);
    assert BitOwned(modes, m.bit) && (TakesSlot(m) ==> SlotOwned(modes, m.paramSlot));
    hide BitOwned, SlotOwned;
    assert forall k | 0 <= k < |c.params| && c.params[k].Some? ::
      d.params[k].Some? && d.params[k].value.status == c.params[k].value.status;
  }

  lemma UnsetKeepsChan(c: Chan, modes: seq<Mode>, m: Mode, kept: bool)
    requires ChanOk(c, modes) && BitsUnique(modes) && SlotsUnique(modes) && m in modes && m.kind == NORMAL
    ensures ChanOk(UnsetOn(c, m, kept), modes) && (Clean(c) ==> Clean(UnsetOn(c, m, kept)))
  {
    hide BitOwned, SlotOwned;
  }

  function EmptyChan(): Chan {
    Chan({}, seq(MAXPARAMMODES + 1, _ => None), [])
  }

  lemma EmptyChanOk(modes: seq<Mode>)
    ensures ChanOk(EmptyChan(), modes) && Clean(EmptyChan())
  {
  }

  lemma MembersDoNotMatter(c: Chan, d: Chan, modes: seq<Mode>)
    requires c.bits == d.bits && c.params == d.params
    ensures ChanOk(c, modes) ==> ChanOk(d, modes)
    ensures Clean(c) <==> Clean(d)
  {
  }

  lemma AppendClean(cs: seq<Chan>, c: Chan)
    ensures AllClean(cs + [c]) <==> AllClean(cs) && Clean(c)
  {
    hide Clean;
    var ds := cs + [c];
    assert forall k | 0 <= k < |cs| :: ds[k] == cs[k];
    if AllClean(ds) {
      assert Clean(ds[|cs|]);
      forall k | 0 <= k < |cs|
        ensures Clean(cs[k])
      {
        assert Clean(ds[k]);
      }
    }
  }

  // ---------------------------------------------------------------------
  // The letters of the members.

  /** Every letter is that of a member mode. */
  ghost predicate LettersKnown(letters: string, modes: seq<Mode>) {
    forall c | c in letters :: IsMemberLetter(modes, c)
  }

  ghost predicate MembersKnown(members: seq<string>, modes: seq<Mode>) {
    forall j | 0 <= j < |members| :: LettersKnown(members[j], modes)
  }

  ghost predicate AllKnown(cs: seq<Chan>, modes: seq<Mode>) {
    forall i | 0 <= i < |cs| :: MembersKnown(cs[i].members, modes)
  }

  /** Some member has the letter twice. */
  ghost predicate HeldTwice(cs: seq<Chan>, letter: char) {
    exists i :: 0 <= i < |cs| && TwiceIn(cs[i].members, letter)
  }

  ghost predicate TwiceIn(members: seq<string>, letter: char) {
    exists j :: 0 <= j < |members| && multiset(members[j])[letter] > 1
  }

  /** The member modes without the one that is removed. */
  ghost predicate OneLess(modes: seq<Mode>, cm: Mode, rest: seq<Mode>) {
    && (cm.kind == MEMBER ==> IsMemberLetter(modes, cm.letter))
    && forall c :: IsMemberLetter(rest, c) <==> IsMemberLetter(modes, c) && !(cm.kind == MEMBER && c == cm.letter)
  }

  lemma LettersAfter(letters: string, modes: seq<Mode>, cm: Mode, rest: seq<Mode>)
    requires OneLess(modes, cm, rest) && cm.kind == MEMBER
    ensures LettersKnown(WithoutLetter(letters, cm.letter), rest) <==>
            LettersKnown(letters, modes) && multiset(letters)[cm.letter] <= 1
  {
    hide WithoutLetter, IsMemberLetter;
    DeleteOne(letters, cm.letter);
    var after := WithoutLetter(letters, cm.letter);
    assert forall c :: c in after <==> c in multiset(after);
    assert forall c :: c in letters <==> c in multiset(letters);
  }

  lemma MembersAfter(members: seq<string>, modes: seq<Mode>, cm: Mode, rest: seq<Mode>)
    requires OneLess(modes, cm, rest) && cm.kind == MEMBER
    ensures MembersKnown(AllWithout(members, cm.letter), rest) <==>
            MembersKnown(members, modes) && !TwiceIn(members, cm.letter)
  {
    forall j | 0 <= j < |members|
      ensures LettersKnown(WithoutLetter(members[j], cm.letter), rest) <==>
              LettersKnown(members[j], modes) && multiset(members[j])[cm.letter] <= 1
    {
      LettersAfter(members[j], modes, cm, rest);
    }
    hide LettersKnown, OneLess, WithoutLetter;
    var after := AllWithout(members, cm.letter);
    if MembersKnown(after, rest) {
      forall j | 0 <= j < |members|
        ensures LettersKnown(members[j], modes) && multiset(members[j])[cm.letter] <= 1
      {
        assert LettersKnown(after[j], rest);
      }
    }
  }

  lemma SameKnown(members: seq<string>, modes: seq<Mode>, rest: seq<Mode>)
    requires forall c :: IsMemberLetter(rest, c) <==> IsMemberLetter(modes, c)
    ensures MembersKnown(members, rest) <==> MembersKnown(members, modes)
  {
    hide IsMemberLetter;
    assert forall j | 0 <= j < |members| :: LettersKnown(members[j], rest) <==> LettersKnown(members[j], modes);
  }

  /** A removal leaves a letter behind if and only if it is that of a member mode and some member has it twice. */
  lemma CommitLeavesLetters(cs: seq<Chan>, modes: seq<Mode>, cm: Mode, rest: seq<Mode>)
    requires OneLess(modes, cm, rest)
    ensures AllKnown(AllAfterCommit(cs, cm), rest) <==>
            AllKnown(cs, modes) && !(cm.kind == MEMBER && HeldTwice(cs, cm.letter))
  {
    var ds := AllAfterCommit(cs, cm);
    forall i | 0 <= i < |cs|
      ensures MembersKnown(ds[i].members, rest) <==>
              MembersKnown(cs[i].members, modes) && !(cm.kind == MEMBER && TwiceIn(cs[i].members, cm.letter))
    {
      if cm.kind == MEMBER {
        MembersAfter(cs[i].members, modes, cm, rest);
      } else {
        SameKnown(cs[i].members, modes, rest);
      }
    }
    hide MembersKnown, OneLess, TwiceIn, AfterCommit;
    if AllKnown(ds, rest) {
      forall i | 0 <= i < |cs|
        ensures MembersKnown(cs[i].members, modes) && !(cm.kind == MEMBER && TwiceIn(cs[i].members, cm.letter))
      {
        assert MembersKnown(ds[i].members, rest);
      }
    }
  }

  /** It does not change how often other letters are held. */
  lemma CommitKeepsCounts(cs: seq<Chan>, cm: Mode, letter: char)
    requires cm.kind == MEMBER ==> letter != cm.letter
    ensures HeldTwice(AllAfterCommit(cs, cm), letter) <==> HeldTwice(cs, letter)
  {
    var ds := AllAfterCommit(cs, cm);
    forall i | 0 <= i < |cs|
      ensures TwiceIn(ds[i].members, letter) <==> TwiceIn(cs[i].members, letter)
    {
      MemberCounts(cs[i].members, cm.letter, letter);
    }
    hide TwiceIn;
  }

  lemma MemberCounts(members: seq<string>, gone: char, letter: char)
    ensures letter != gone ==> (TwiceIn(AllWithout(members, gone), letter) <==> TwiceIn(members, letter))
  {
    hide WithoutLetter;
    forall j | 0 <= j < |members|
      ensures letter != gone ==> multiset(WithoutLetter(members[j], gone))[letter] == multiset(members[j])[letter]
    {
      DeleteOne(members[j], gone);
    }
  }

  /** Additions put in letters of member modes only. */
  lemma {:induction false} EditedKnown(modes: seq<Mode>, letters: string, edits: seq<Edit>)
    requires LettersKnown(letters, modes)
    ensures LettersKnown(Edited(modes, letters, edits), modes)
    decreases edits
  {
    if edits != [] {
      ApplyKnown(modes, letters, edits[0]);
      hide LettersKnown, Apply;
      EditedKnown(modes, Apply(modes, letters, edits[0]), edits[1..]);
    }
  }

  lemma ApplyKnown(modes: seq<Mode>, letters: string, edit: Edit)
    requires LettersKnown(letters, modes)
    ensures LettersKnown(Apply(modes, letters, edit), modes)
  {
    hide InsertPosition, IndexOf;
  }

  lemma MoreKnown(cs: seq<Chan>, modes: seq<Mode>, more: seq<Mode>)
    requires forall c | IsMemberLetter(modes, c) :: IsMemberLetter(more, c)
    ensures AllKnown(cs, modes) ==> AllKnown(cs, more)
  {
    hide IsMemberLetter;
    forall i, j | 0 <= i < |cs| && 0 <= j < |cs[i].members|
      ensures LettersKnown(cs[i].members[j], modes) ==> LettersKnown(cs[i].members[j], more)
    {
    }
    hide LettersKnown;
  }
}
