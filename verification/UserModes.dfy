/**
 The user mode registry (`src/api-usermode.c`): a list of modes sorted by letter, each owning one
 bit, an index from letters to handlers, the string of all letters, and the modes of the users.
 */
module UserModes {
  import opened Registry
  import opened Bits
  import opened LetterOrder
  import opened Runs
  import Seqs

  // LONG_MAX / 2 with a 64-bit long: the first bit that is not handed out is 2^62.
  const BIT_LIMIT: nat := 0x3fff_ffff_ffff_ffff
  const MAX_BITS := 62
  const UMODETABLESZ := 64
  const NUL := '\0'

  datatype Error = EXISTS | NOSPACE
  datatype Result = Added(bit: nat) | Failed(error: Error)

  // ---------------------------------------------------------------------
  // The state.

  /** A mode; global says whether it was last registered as one that is sent to other servers. */
  datatype Mode = Mode(letter: char, bit: nat, unloaded: bool, unsetOnDeoper: bool, global: bool)

  /** A user of this server, or of another one. */
  datatype User = User(local: bool, bits: set<nat>)

  /** The modes, the users, and AllUmodes and SendUmodes as sets of bits. */
  datatype State = State(modes: seq<Mode>, users: seq<User>, all: set<nat>, send: set<nat>)

  predicate Apart(a: Mode, b: Mode) {
    a.letter != b.letter && a.bit != b.bit
  }

  predicate Unique(modes: seq<Mode>) {
    forall i, j | 0 <= i < j < |modes| :: Apart(modes[i], modes[j])
  }

  ghost predicate ModesOk(modes: seq<Mode>) {
    Unique(modes) && forall m | m in modes :: m.letter != NUL && InRange(m.bit, 0, BIT_LIMIT)
  }

  ghost predicate Owned(modes: seq<Mode>, bit: nat) {
    exists m :: m in modes && m.bit == bit
  }

  ghost predicate UserOk(u: User, modes: seq<Mode>) {
    forall b | b in u.bits :: Owned(modes, b)
  }

  /** Local users hold only bits of registered modes, and the two sets have all bits they should have. */
  ghost predicate Valid(s: State) {
    && ModesOk(s.modes)
    && (forall k | 0 <= k < |s.users| && s.users[k].local :: UserOk(s.users[k], s.modes))
    && (forall m | m in s.modes :: m.bit in s.all && (m.global ==> m.bit in s.send))
  }

  function LettersOf(modes: seq<Mode>): (r: string)
    ensures |r| == |modes|
  {
    seq(|modes|, i requires 0 <= i < |modes| => modes[i].letter)
  }

  function SlotOf(m: Mode): Slot {
    Slot(m.bit, m.unloaded)
  }

  ghost function View(modes: seq<Mode>): (v: map<char, Slot>)
    ensures Unique(modes) ==> forall m | m in modes :: m.letter in v && v[m.letter] == SlotOf(m)
    ensures forall c | c in v :: exists m :: m in modes && m.letter == c
  {
    if modes == [] then map[]
    else
      var v := View(modes[1..])[modes[0].letter := SlotOf(modes[0])];
      assert modes == [modes[0]] + modes[1..];
      v
  }

  // ---------------------------------------------------------------------
  // What the operations do, on values.

  datatype Command =
    | AddCommand(letter: char, global: bool, unsetOnDeoper: bool)
    | DelCommand(position: nat, rehashing: bool)
    | UnloadCommand
    | UserCommand(local: bool)
    | QuitCommand(user: nat)
    | SetCommand(user: nat, letter: char, on: bool)

  /** The first mode with this letter, or the length. */
  function Find(modes: seq<Mode>, letter: char): (i: nat)
    ensures i <= |modes| && (i < |modes| ==> modes[i].letter == letter)
    ensures forall k | 0 <= k < i :: modes[k].letter != letter
  {
    if modes == [] || modes[0].letter == letter then 0 else 1 + Find(modes[1..], letter)
  }

  function UsedBits(modes: seq<Mode>): set<nat> {
    set m | m in modes :: m.bit
  }

  function Position(modes: seq<Mode>, letter: char): (i: nat)
    ensures i <= |modes|
  {
    SortedPosition(LettersOf(modes), letter)
  }

  function Inserted(modes: seq<Mode>, n: Mode): seq<Mode> {
    Seqs.InsertAt(modes, Position(modes, n.letter), n)
  }

  function Without(modes: seq<Mode>, i: nat): seq<Mode>
    requires i < |modes|
  {
    Seqs.CutOut(modes, i)
  }

  /** The two sets with a mode that has been registered. */
  function WithBit(s: State, bit: nat, global: bool): State {
    s.(all := s.all + {bit}, send := if global then s.send + {bit} else s.send)
  }

  /** UmodeAdd: a marked mode of this letter is revived with its bit; otherwise a new mode gets the lowest bit
      that no mode, marked or not, owns. */
  function Registered(s: State, letter: char, global: bool, unsetOnDeoper: bool): (State, Result) {
    var i := Find(s.modes, letter);
    if i < |s.modes| then
      if !s.modes[i].unloaded then (s, Failed(EXISTS))
      else
        var n := Mode(letter, s.modes[i].bit, false, unsetOnDeoper, global);
        (WithBit(s, n.bit, global).(modes := s.modes[i := n]), Added(n.bit))
    else
      var bit := FreeBit(UsedBits(s.modes), 0, BIT_LIMIT);
      if bit == 0 then (s, Failed(NOSPACE))
      else
        var n := Mode(letter, bit, false, unsetOnDeoper, global);
        (WithBit(s, bit, global).(modes := Inserted(s.modes, n)), Added(bit))
  }

  /** The first loop of unload_usermode_commit, for one user. */
  function AfterCommit(u: User, bit: nat): User {
    if u.local then u.(bits := u.bits - {bit}) else u
  }

  function Cleared(users: seq<User>, bit: nat): (r: seq<User>)
    ensures |r| == |users| && forall k | 0 <= k < |users| :: r[k] == AfterCommit(users[k], bit)
  {
    seq(|users|, k requires 0 <= k < |users| => AfterCommit(users[k], bit))
  }

  /** unload_usermode_commit: the mode is gone, and its bit from every local user. */
  function Removed(s: State, i: nat): State
    requires i < |s.modes|
  {
    s.(modes := Without(s.modes, i), users := Cleared(s.users, s.modes[i].bit))
  }

  /** unload_all_unused_umodes, from position i on. */
  function Unloaded(s: State, i: nat): State
    decreases |s.modes| - i
  {
    if i >= |s.modes| then s
    else if s.modes[i].unloaded then Unloaded(Removed(s, i), i)
    else Unloaded(s, i + 1)
  }

  /** find_user_mode */
  function BitOf(modes: seq<Mode>, letter: char): nat {
    var i := Find(modes, letter);
    if i < |modes| then modes[i].bit else 0
  }

  function WithMode(u: User, bit: nat, on: bool): User {
    if bit == 0 then u else u.(bits := if on then u.bits + {bit} else u.bits - {bit})
  }

  function After(s: State, x: Command): State {
    match x
    case AddCommand(letter, global, unsetOnDeoper) =>
      if letter == NUL then s else Registered(s, letter, global, unsetOnDeoper).0
    case DelCommand(i, rehashing) =>
      if i >= |s.modes| then s
      else if rehashing then s.(modes := s.modes[i := s.modes[i].(unloaded := true)])
      else Removed(s, i)
    case UnloadCommand => Unloaded(s, 0)
    case UserCommand(local) => s.(users := s.users + [User(local, {})])
    case QuitCommand(k) => if k < |s.users| then s.(users := Seqs.CutOut(s.users, k)) else s
    case SetCommand(k, letter, on) =>
      if k < |s.users| then s.(users := s.users[k := WithMode(s.users[k], BitOf(s.modes, letter), on)]) else s
  }

  /** The same as an operation of the registry. */
  function OpOf(s: State, x: Command): Op<char> {
    match x
    case AddCommand(letter, global, unsetOnDeoper) =>
      var i := Find(s.modes, letter);
      var bit := FreeBit(UsedBits(s.modes), 0, BIT_LIMIT);
      if letter == NUL then Reject
      else if i < |s.modes| then if s.modes[i].unloaded then Revive(letter) else Reject
      else if bit == 0 then Reject
      else Register(letter, bit)
    case DelCommand(i, rehashing) =>
      if i >= |s.modes| then Reject
      else if rehashing then Mark(s.modes[i].letter)
      else Op.Remove(s.modes[i].letter)
    case UnloadCommand => CommitAll
    case _ => Reject
  }

  ghost function TableOf(s: State): map<char, Slot> {
    View(s.modes)
  }

  // ---------------------------------------------------------------------
  // The registry object.

  class Umode {
    const letter: char
    const mode: nat
    var unloaded: bool
    var unsetOnDeoper: bool
    ghost var global: bool  // as it was last registered

    constructor (letter: char, mode: nat, unsetOnDeoper: bool, ghost global: bool)
      ensures Value() == Mode(letter, mode, false, unsetOnDeoper, global)
    {
      this.letter, this.mode, this.unsetOnDeoper := letter, mode, unsetOnDeoper;
      this.unloaded, this.global := false, global;
    }

    ghost function Value(): Mode
      reads this
    {
      Mode(letter, mode, unloaded, unsetOnDeoper, global)
    }
  }

  function Letters(ums: seq<Umode>): (s: string)
    ensures |s| == |ums|
  {
    seq(|ums|, i requires 0 <= i < |ums| => ums[i].letter)
  }

  ghost function ValuesOf(ums: seq<Umode>): (r: seq<Mode>)
    reads ums
    ensures |r| == |ums| && forall i | 0 <= i < |r| :: r[i] == ums[i].Value()
  {
    seq(|ums|, i requires 0 <= i < |ums| reads ums => ums[i].Value())
  }

  lemma LettersStep(ums: seq<Umode>, i: nat)
    requires i < |ums|
    ensures Letters(ums)[..i + 1] == Letters(ums)[..i] + [ums[i].letter]
  {
  }

  ghost predicate Points(handler: map<char, Umode>, um: Umode) {
    um.letter in handler && handler[um.letter] == um
  }

  /** The index points at listed entries only. */
  ghost predicate Sound(handler: map<char, Umode>, ums: seq<Umode>) {
    forall c | c in handler :: handler[c] in ums && handler[c].letter == c
  }

  /** Pointing the index at an entry leaves the others alone. */
  lemma PointTo(handler: map<char, Umode>, ums: seq<Umode>, i: nat)
    requires i < |ums| && Sound(handler, ums)
    requires forall j, k | 0 <= j < k < |ums| :: ums[j].letter != ums[k].letter
    ensures var h := handler[ums[i].letter := ums[i]];
      && Sound(h, ums) && Points(h, ums[i])
      && (forall k | 0 <= k < |ums| && Points(handler, ums[k]) :: Points(h, ums[k]))
      && (Points(handler, ums[i]) ==> h == handler)
  {
    assert ums[i] in ums;
  }

  /** The index points at every entry and at nothing else. */
  ghost predicate Indexed(handler: map<char, Umode>, ums: seq<Umode>) {
    && (forall i, j | 0 <= i < j < |ums| :: ums[i].letter != ums[j].letter)
    && Sound(handler, ums)
    && (forall k | 0 <= k < |ums| :: Points(handler, ums[k]))
  }

  lemma IndexedParts(handler: map<char, Umode>, ums: seq<Umode>)
    requires Indexed(handler, ums)
    ensures Sound(handler, ums) && forall k | 0 <= k < |ums| :: Points(handler, ums[k])
    ensures forall i, j | 0 <= i < j < |ums| :: ums[i].letter != ums[j].letter
  {
  }

  lemma InsertIndexed(handler: map<char, Umode>, ums: seq<Umode>, p: nat, um: Umode)
    requires Indexed(handler, ums) && p <= |ums| && forall k | 0 <= k < |ums| :: ums[k].letter != um.letter
    ensures Indexed(handler[um.letter := um], Seqs.InsertAt(ums, p, um))
  {
    Seqs.InsertAtHas(ums, p, um);
    InsertLetters(ums, p, um);
    hide Seqs.InsertAt, Seqs.NoDup;
  }

  lemma InsertValues(ums: seq<Umode>, p: nat, um: Umode)
    requires p <= |ums|
    ensures ValuesOf(Seqs.InsertAt(ums, p, um)) == Seqs.InsertAt(ValuesOf(ums), p, um.Value())
  {
  }

  lemma CutValues(ums: seq<Umode>, i: nat)
    requires i < |ums|
    ensures ValuesOf(Seqs.CutOut(ums, i)) == Seqs.CutOut(ValuesOf(ums), i)
  {
  }

  lemma InsertLetters(ums: seq<Umode>, p: nat, um: Umode)
    requires p <= |ums| && forall k | 0 <= k < |ums| :: ums[k].letter != um.letter
    requires forall i, j | 0 <= i < j < |ums| :: ums[i].letter != ums[j].letter
    ensures var r := Seqs.InsertAt(ums, p, um);
      forall i, j | 0 <= i < j < |r| :: r[i].letter != r[j].letter
  {
    var r := Seqs.InsertAt(ums, p, um);
    assert forall k | 0 <= k < p :: r[k] == ums[k];
    assert forall k | p < k < |r| :: r[k] == ums[k - 1];
  }

  lemma CutIndexed(handler: map<char, Umode>, ums: seq<Umode>, i: nat)
    requires Indexed(handler, ums) && i < |ums|
    ensures Indexed(handler - {ums[i].letter}, Seqs.CutOut(ums, i))
    ensures forall um | um in Seqs.CutOut(ums, i) :: um in ums
  {
    var r, h := Seqs.CutOut(ums, i), handler - {ums[i].letter};
    assert forall k | 0 <= k < |r| :: r[k] == ums[if k < i then k else k + 1];
    forall c | c in h
      ensures h[c] in r && h[c].letter == c
    {
      var k :| 0 <= k < |ums| && ums[k] == handler[c];
      assert r[if k < i then k else k - 1] == ums[k];
    }
  }

  class Table {
    var usermodes: seq<Umode>
    var handler: map<char, Umode>      // umode_letter_to_handler, without the empty places
    var umodestring: string
    var users: seq<User>
    var allUmodes: set<nat>
    var sendUmodes: set<nat>

    ghost function Entries(): set<Umode>
      reads this`usermodes
    {
      set um | um in usermodes
    }

    /** The list as a value. */
    ghost function Values(): (r: seq<Mode>)
      reads this`usermodes, usermodes
      ensures |r| == |usermodes| && forall i | 0 <= i < |r| :: r[i] == usermodes[i].Value()
    {
      ValuesOf(usermodes)
    }

    ghost function St(): State
      reads this, usermodes
    {
      State(Values(), users, allUmodes, sendUmodes)
    }

    /** The index points at every entry and at nothing else, and the string lists all letters. */
    ghost predicate Linked()
      reads this`usermodes, this`handler, this`umodestring
    {
      Indexed(handler, usermodes) && umodestring == Letters(usermodes)
    }

    constructor ()
      ensures St() == State([], [], {}, {}) && Linked() && Valid(St()) && NoStale(St()) && SendExact(St())
    {
      usermodes, handler, umodestring, users, allUmodes, sendUmodes := [], map[], "", [], {}, {};
    }

    /** The search loop of UmodeAdd. */
    method FindEntry(letter: char) returns (i: nat)
      ensures i == Find(Values(), letter)
    {
      i := 0;
      while i < |usermodes|
        invariant i <= |usermodes| && Find(Values(), letter) == i + Find(Values()[i..], letter)
      {
        if usermodes[i].letter == letter {
          return;
        }
        Seqs.DropDrop(Values(), i, 1);
        i := i + 1;
      }
    }

    /** make_umodestr: rewrites the string and points the index at every entry not marked. */
    method MakeString()
      requires Sound(handler, usermodes)
      requires forall j, k | 0 <= j < k < |usermodes| :: usermodes[j].letter != usermodes[k].letter
      requires forall k | 0 <= k < |usermodes| && usermodes[k].unloaded :: Points(handler, usermodes[k])
      modifies this`umodestring, this`handler
      ensures Linked()
    {
      hide Sound, Points, Letters;
      umodestring := "";
      var i: nat := 0;
      while i < |usermodes|
        invariant i <= |usermodes| && umodestring == Letters(usermodes)[..i]
        invariant Sound(handler, usermodes)
        invariant forall k | 0 <= k < |usermodes| && (k < i || usermodes[k].unloaded) :: Points(handler, usermodes[k])
      {
        var um := usermodes[i];
        LettersStep(usermodes, i);
        umodestring := umodestring + [um.letter];
        PointTo(handler, usermodes, i);
        if !um.unloaded {
          handler := handler[um.letter := um];
        }
        i := i + 1;
      }
      assert Letters(usermodes)[..i] == Letters(usermodes);
    }

    /** The loop of usermode_add_sorted. */
    method FindPosition(letter: char) returns (i: nat)
      ensures i == Position(Values(), letter)
    {
      i := 0;
      ghost var letters := LettersOf(Values());
      while i < |usermodes|
        invariant i <= |usermodes|
        invariant SortedPosition(letters, letter) == i + SortedPosition(letters[i..], letter)
      {
        if SortsBefore(letter, usermodes[i].letter) {
          return;
        }
        Seqs.DropDrop(letters, i, 1);
        i := i + 1;
      }
    }

    method NoteBit(bit: nat, global: bool)
      modifies this`allUmodes, this`sendUmodes
      ensures St() == WithBit(old(St()), bit, global)
    {
      allUmodes := allUmodes + {bit};
      if global {
        sendUmodes := sendUmodes + {bit};
      }
    }

    /** UmodeAdd */
    method Add(letter: char, global: bool, unsetOnDeoper: bool) returns (r: Result)
      requires Linked() && letter != NUL  // usermode_add_sorted aborts when it meets this letter
      modifies this, Entries()
      ensures Linked() && fresh(Entries() - old(Entries()))
      ensures St() == Registered(old(St()), letter, global, unsetOnDeoper).0
      ensures r == Registered(old(St()), letter, global, unsetOnDeoper).1
    {
      hide Find, FreeBit, Linked, Inserted, UsedBits;
      var i := FindEntry(letter);
      var bit: nat;
      if i < |usermodes| {
        if !usermodes[i].unloaded {
          return Failed(EXISTS);
        }
        bit := usermodes[i].mode;
        Revive(i, global, unsetOnDeoper);
      } else {
        bit := FreeModeBit();
        if bit == 0 {
          return Failed(NOSPACE);
        }
        Create(letter, bit, global, unsetOnDeoper);
      }
      NoteBit(bit, global);
      return Added(bit);
    }

    /** The lowest bit that no mode owns. */
    method FreeModeBit() returns (bit: nat)
      ensures bit == FreeBit(UsedBits(Values()), 0, BIT_LIMIT)
    {
      hide FreeBit;
      var used := set um | um in usermodes :: um.mode;
      assert used == UsedBits(Values()) by {
        assert forall i | 0 <= i < |usermodes| :: Values()[i] in Values() && Values()[i].bit == usermodes[i].mode;
        assert forall m | m in Values() :: exists i :: 0 <= i < |usermodes| && Values()[i] == m;
      }
      bit := FirstFreeBit(used, 0, BIT_LIMIT);
    }

    /** The revival branch of UmodeAdd. */
    method Revive(i: nat, ghost global: bool, unsetOnDeoper: bool)
      requires Linked() && i < |usermodes|
      modifies this`handler, this`umodestring, usermodes[i]
      ensures Linked()
      ensures Values() == old(Values())[i := Mode(usermodes[i].letter, usermodes[i].mode, false, unsetOnDeoper, global)]
    {
      hide Sound, Points, Letters;
      var um := usermodes[i];
      um.unloaded := false;
      PointTo(handler, usermodes, i);
      handler := handler[um.letter := um];
      um.unsetOnDeoper := unsetOnDeoper;
      um.global := global;
      MakeString();
    }

    /** The creation branch of UmodeAdd. */
    method Create(letter: char, bit: nat, ghost global: bool, unsetOnDeoper: bool)
      requires Linked() && Find(Values(), letter) == |usermodes|
      modifies this`usermodes, this`handler, this`umodestring
      ensures Linked() && fresh(Entries() - old(Entries()))
      ensures Values() == Inserted(old(Values()), Mode(letter, bit, false, unsetOnDeoper, global))
    {
      hide Letters, Position, Find, Indexed;
      var um := new Umode(letter, bit, unsetOnDeoper, global);
      assert forall k | 0 <= k < |usermodes| :: Values()[k].letter == usermodes[k].letter != letter;
      var p := FindPosition(letter);
      InsertIndexed(handler, usermodes, p, um);
      InsertValues(usermodes, p, um);
      Seqs.InsertAtHas<Umode>(usermodes, p, um);
      handler := handler[letter := um];
      usermodes := Seqs.InsertAt<Umode>(usermodes, p, um);
      IndexedParts(handler, usermodes);
      MakeString();
    }

    /** Clears a bit from every local user: the first loop of unload_usermode_commit. */
    method ClearFromUsers(bit: nat)
      modifies this`users
      ensures users == Cleared(old(users), bit)
    {
      var i := 0;
      while i < |users|
        invariant i <= |users| == |old(users)|
        invariant forall k | 0 <= k < i :: users[k] == AfterCommit(old(users)[k], bit)
        invariant forall k | i <= k < |users| :: users[k] == old(users)[k]
      {
        if users[i].local {
          users := users[i := users[i].(bits := users[i].bits - {bit})];
        }
        i := i + 1;
      }
    }

    /** unload_usermode_commit */
    method Commit(i: nat)
      requires Linked() && i < |usermodes|
      modifies this`usermodes, this`handler, this`umodestring, this`users
      ensures Linked() && Entries() <= old(Entries())
      ensures St() == Removed(old(St()), i)
    {
      hide Letters, Cleared, Indexed;
      var um := usermodes[i];
      ClearFromUsers(um.mode);
      CutIndexed(handler, usermodes, i);
      CutValues(usermodes, i);
      handler := handler - {um.letter};
      usermodes := Seqs.CutOut<Umode>(usermodes, i);
      IndexedParts(handler, usermodes);
      MakeString();
    }

    /** UmodeDel: during a rehash the mode is only marked, otherwise it is removed at once. */
    method Del(i: nat, rehashing: bool)
      requires Linked() && i < |usermodes|
      modifies this, Entries()
      ensures Linked() && Entries() <= old(Entries())
      ensures St() == After(old(St()), DelCommand(i, rehashing))
    {
      hide Removed, Letters, Sound, Points;
      if rehashing {
        usermodes[i].unloaded := true;
        assert Values() == old(Values())[i := old(Values())[i].(unloaded := true)];
      } else {
        Commit(i);
      }
    }

    /** unload_all_unused_umodes */
    method UnloadAllUnused()
      requires Linked()
      modifies this`usermodes, this`handler, this`umodestring, this`users
      ensures Linked() && Entries() <= old(Entries())
      ensures St() == Unloaded(old(St()), 0)
    {
      hide Linked, Removed;
      var i: nat := 0;
      while i < |usermodes|
        invariant Linked() && Entries() <= old(Entries())
        invariant Unloaded(old(St()), 0) == Unloaded(St(), i)
        decreases |usermodes| - i
      {
        if usermodes[i].unloaded {
          RemovedPrefix(St(), i);
          Commit(i);
        } else {
          i := i + 1;
        }
      }
    }

    /** find_user_mode: the fast lookup through the index. */
    function FindUserMode(letter: char): nat
      reads this
    {
      if letter in handler then handler[letter].mode else 0
    }

    lemma IndexFinds(letter: char)
      requires Linked()
      ensures FindUserMode(letter) == BitOf(Values(), letter)
    {
      hide Letters, Find;
      var i := Find(Values(), letter);
      if letter in handler {
        var k :| 0 <= k < |usermodes| && usermodes[k] == handler[letter];
        assert Values()[k].letter == letter;
      }
      if i < |usermodes| {
        assert Points(handler, usermodes[i]);
      }
    }

    /** A mode is set on or taken from a user. */
    method SetOnUser(k: nat, letter: char, on: bool)
      requires Linked() && k < |users|
      modifies this`users
      ensures users == old(users)[k := WithMode(old(users)[k], BitOf(Values(), letter), on)]
    {
      IndexFinds(letter);
      var bit := FindUserMode(letter);
      users := users[k := WithMode(users[k], bit, on)];
    }

    method Perform(x: Command)
      requires Linked()
      modifies this, Entries()
      ensures Linked() && fresh(Entries() - old(Entries()))
      ensures St() == After(old(St()), x)
    {
      hide Linked, Registered, Removed, Unloaded, WithMode, BitOf;
      match x
      case AddCommand(letter, global, unsetOnDeoper) =>
        if letter != NUL {
          var _ := Add(letter, global, unsetOnDeoper);
        }
      case DelCommand(i, rehashing) =>
        if i < |usermodes| {
          Del(i, rehashing);
        }
      case UnloadCommand => UnloadAllUnused();
      case UserCommand(local) => users := users + [User(local, {})];
      case QuitCommand(k) =>
        if k < |users| {
          users := Seqs.CutOut(users, k);
        }
      case SetCommand(k, letter, on) =>
        if k < |users| {
          SetOnUser(k, letter, on);
        }
    }

    /** Every run of the object is a run of the state machine. */
    method Run(commands: seq<Command>)
      requires Linked()
      modifies this, Entries()
      ensures Linked() && St() == At(After, old(St()), commands, |commands|)
    {
      hide Linked, After, St;
      for k := 0 to |commands|
        invariant Linked() && fresh(Entries() - old(Entries()))
        invariant St() == At(After, old(St()), commands, k)
      {
        Perform(commands[k]);
      }
    }

    /** find_user_mode as compiled for debugging: the first unmarked entry of the list. */
    method FindByScan(letter: char) returns (mode: nat)
      requires Linked()
      ensures mode == ScanBit(Values(), letter)
    {
      var i := 0;
      ghost var values := Values();
      while i < |usermodes|
        invariant i <= |usermodes|
        invariant ScanBit(values, letter) == ScanBit(values[i..], letter)
      {
        if usermodes[i].letter == letter && !usermodes[i].unloaded {
          return usermodes[i].mode;
        }
        Seqs.DropDrop(values, i, 1);
        i := i + 1;
      }
      return 0;
    }

    /** Bits run out before the letter string does. */
    lemma StringFits()
      requires Linked() && Valid(St())
      ensures |umodestring| <= MAX_BITS < UMODETABLESZ + 1
    {
      var bits := seq(|usermodes|, i requires 0 <= i < |usermodes| reads this => usermodes[i].mode);
      Pow2Values();
      assert forall i | 0 <= i < |bits| :: Values()[i] in Values() && bits[i] == Values()[i].bit;
      forall b | b in bits ensures InRange(b, 0, Pow2(0 + MAX_BITS)) {
        var i :| 0 <= i < |bits| && bits[i] == b;
      }
      forall i, j | 0 <= i < j < |bits|
        ensures bits[i] != bits[j]
      {
        assert Apart(Values()[i], Values()[j]);
      }
      AtMost(bits, 0, MAX_BITS);
    }
  }

  /** The bit of the first unmarked mode with this letter, or 0. */
  function ScanBit(modes: seq<Mode>, letter: char): nat {
    if modes == [] then 0
    else if modes[0].letter == letter && !modes[0].unloaded then modes[0].bit
    else ScanBit(modes[1..], letter)
  }

  /** The two lookups agree on a letter if and only if its mode is not marked as unloaded; so they agree on
      every letter once the unused modes are committed. */
  lemma LookupsAgree(modes: seq<Mode>, letter: char)
    requires ModesOk(modes)
    ensures var i := Find(modes, letter);
      BitOf(modes, letter) == ScanBit(modes, letter) <==> !(i < |modes| && modes[i].unloaded)
  {
    var i := Find(modes, letter);
    ScanIs(modes, letter);
    if i < |modes| {
      assert modes[i] in modes;
      var k: nat :| modes[i].bit == Pow2(k);
    }
  }

  lemma {:induction false} ScanIs(modes: seq<Mode>, letter: char)
    requires Unique(modes)
    ensures var i := Find(modes, letter);
      ScanBit(modes, letter) == if i < |modes| && !modes[i].unloaded then modes[i].bit else 0
  {
    if modes != [] {
      ScanIs(modes[1..], letter);
      forall k | 0 < k < |modes|
        ensures modes[k].letter != modes[0].letter
      {
        assert Apart(modes[0], modes[k]);
      }
    }
  }

  // ---------------------------------------------------------------------
  // Every command keeps the state valid and is an operation of the registry.

  /** Every bit that a user has belongs to a mode. */
  ghost predicate NoStale(s: State) {
    forall k | 0 <= k < |s.users| :: UserOk(s.users[k], s.modes)
  }

  /** A user of another server has the bit. */
  predicate HeldElsewhere(s: State, bit: nat) {
    exists k :: 0 <= k < |s.users| && HasElsewhere(s.users[k], bit)
  }

  predicate HasElsewhere(u: User, bit: nat) {
    !u.local && bit in u.bits
  }

  /** A removal of a mode that a user of another server has: its bit stays there. */
  predicate LeavesStale(s: State, x: Command) {
    match x
    case DelCommand(i, rehashing) => i < |s.modes| && !rehashing && HeldElsewhere(s, s.modes[i].bit)
    case UnloadCommand => MarkedHeld(s)
    case _ => false
  }

  predicate MarkedHeld(s: State) {
    exists m :: m in s.modes && m.unloaded && HeldElsewhere(s, m.bit)
  }

  /** SendUmodes has exactly the bits of the global modes. */
  ghost predicate SendExact(s: State) {
    forall b | b in s.send :: GlobalBit(s.modes, b)
  }

  ghost predicate GlobalBit(modes: seq<Mode>, b: nat) {
    exists m :: m in modes && m.global && m.bit == b
  }

  /** A global mode is removed, or revived as a local one: its bit stays in SendUmodes. */
  predicate SpoilsSend(s: State, x: Command) {
    match x
    case AddCommand(letter, global, unsetOnDeoper) =>
      var i := Find(s.modes, letter);
      letter != NUL && !global && i < |s.modes| && s.modes[i].unloaded && s.modes[i].global
    case DelCommand(i, rehashing) => i < |s.modes| && !rehashing && s.modes[i].global
    case UnloadCommand => MarkedGlobal(s)
    case _ => false
  }

  predicate MarkedGlobal(s: State) {
    exists m :: m in s.modes && m.unloaded && m.global
  }

  ghost predicate GoodStep(s: State, x: Command) {
    && Valid(After(s, x))
    && Step(TableOf(s), OpOf(s, x), TableOf(After(s, x)))
    && (NoStale(s) ==> (NoStale(After(s, x)) <==> !LeavesStale(s, x)))
    && (SendExact(s) ==> (SendExact(After(s, x)) <==> !SpoilsSend(s, x)))
  }

  // ---------------------------------------------------------------------
  // Registration.

  lemma NotInView(modes: seq<Mode>, letter: char)
    requires forall k | 0 <= k < |modes| :: modes[k].letter != letter
    ensures letter !in View(modes)
  {
    hide View;
  }

  lemma InsertOk(modes: seq<Mode>, n: Mode)
    requires ModesOk(modes) && n.letter != NUL && InRange(n.bit, 0, BIT_LIMIT) && !n.unloaded
    requires n.bit !in UsedBits(modes) && forall k | 0 <= k < |modes| :: modes[k].letter != n.letter
    ensures ModesOk(Inserted(modes, n))
    ensures Step(View(modes), Register(n.letter, n.bit), View(Inserted(modes, n)))
    ensures forall b :: Owned(Inserted(modes, n), b) <==> Owned(modes, b) || b == n.bit
    ensures forall b :: GlobalBit(Inserted(modes, n), b) <==> GlobalBit(modes, b) || (n.global && b == n.bit)
    ensures forall m | m in Inserted(modes, n) :: m in modes || m == n
  {
    hide InRange, View, Position;
    var r := Inserted(modes, n);
    Seqs.InsertAtHas(modes, Position(modes, n.letter), n);
    InsertUnique(modes, Position(modes, n.letter), n);
    InsertView(modes, n, r);
    InsertBits(modes, n, r);
  }

  lemma InsertBits(modes: seq<Mode>, n: Mode, r: seq<Mode>)
    requires n in r && (forall m | m in modes :: m in r) && forall m | m in r :: m in modes || m == n
    ensures forall b :: Owned(r, b) <==> Owned(modes, b) || b == n.bit
    ensures forall b :: GlobalBit(r, b) <==> GlobalBit(modes, b) || (n.global && b == n.bit)
  {
    forall b
      ensures Owned(r, b) <==> Owned(modes, b) || b == n.bit
      ensures GlobalBit(r, b) <==> GlobalBit(modes, b) || (n.global && b == n.bit)
    {
      if Owned(modes, b) {
        var m :| m in modes && m.bit == b;
        assert m in r;
      }
      if GlobalBit(modes, b) {
        var m :| m in modes && m.global && m.bit == b;
        assert m in r;
      }
    }
  }

  lemma InsertUnique(modes: seq<Mode>, i: nat, n: Mode)
    requires Unique(modes) && i <= |modes|
    requires n.bit !in UsedBits(modes) && forall k | 0 <= k < |modes| :: modes[k].letter != n.letter
    ensures Unique(Seqs.InsertAt(modes, i, n))
  {
    var r := Seqs.InsertAt(modes, i, n);
    assert forall k | 0 <= k < |modes| :: modes[k] in modes && modes[k].bit in UsedBits(modes);
    assert forall k | 0 <= k < |modes| :: Apart(modes[k], n) && Apart(n, modes[k]);
    hide UsedBits, Apart;
    forall a, b | 0 <= a < b < |r|
      ensures Apart(r[a], r[b])
    {
      if b == i {
        assert r[a] == modes[a];
      } else if a == i {
        assert r[b] == modes[b - 1];
      } else {
        assert r[a] == modes[if a < i then a else a - 1] && r[b] == modes[if b < i then b else b - 1];
      }
    }
  }

  lemma InsertView(modes: seq<Mode>, n: Mode, r: seq<Mode>)
    requires Unique(modes) && Unique(r) && !n.unloaded && n.bit !in UsedBits(modes)
    requires forall k | 0 <= k < |modes| :: modes[k].letter != n.letter
    requires n in r && (forall m | m in modes :: m in r) && forall m | m in r :: m in modes || m == n
    ensures Step(View(modes), Register(n.letter, n.bit), View(r))
  {
    hide View, Unique;
    NotInView(modes, n.letter);
    var v, v' := View(modes), View(r);
    forall c | c in v
      ensures c in v' && v'[c] == v[c] && v[c].id != n.bit
    {
      var m :| m in modes && m.letter == c;
      assert m.bit in UsedBits(modes);
    }
    forall c | c in v'
      ensures c in v || c == n.letter
    {
      var m :| m in r && m.letter == c;
    }
  }

  lemma ReplaceOk(modes: seq<Mode>, i: nat, n: Mode)
    requires ModesOk(modes) && i < |modes| && n.letter == modes[i].letter && n.bit == modes[i].bit
    ensures ModesOk(modes[i := n])
    ensures n.letter in View(modes) && View(modes)[n.letter] == SlotOf(modes[i])
    ensures View(modes[i := n]) == View(modes)[n.letter := SlotOf(n)]
    ensures forall b :: Owned(modes[i := n], b) <==> Owned(modes, b)
    ensures forall m | m in modes[i := n] :: m in modes || m == n
  {
    hide InRange, View;
    var r := modes[i := n];
    assert modes[i] in modes && r[i] in r;
    assert forall k | 0 <= k < |r| && k != i :: r[k] == modes[k];
    assert Unique(r);
    ReplaceView(modes, i, n);
    ReplaceBits(modes, i, n);
  }

  lemma ReplaceBits(modes: seq<Mode>, i: nat, n: Mode)
    requires i < |modes| && n.bit == modes[i].bit
    ensures forall b :: Owned(modes[i := n], b) <==> Owned(modes, b)
  {
    forall b
      ensures Owned(modes[i := n], b) <==> Owned(modes, b)
    {
      if Owned(modes, b) {
        var k :| 0 <= k < |modes| && modes[k].bit == b;
        assert modes[i := n][k] in modes[i := n];
      }
      if Owned(modes[i := n], b) {
        var k :| 0 <= k < |modes| && modes[i := n][k].bit == b;
        assert modes[k] in modes;
      }
    }
  }

  lemma ReplaceView(modes: seq<Mode>, i: nat, n: Mode)
    requires i < |modes| && Unique(modes) && Unique(modes[i := n]) && n.letter == modes[i].letter
    ensures View(modes[i := n]) == View(modes)[n.letter := SlotOf(n)]
  {
    hide View;
    var r := modes[i := n];
    assert r[i] in r && modes[i] in modes;
    var v, v' := View(modes), View(r);
    forall c | c in v
      ensures c in v' && (c != n.letter ==> v'[c] == v[c])
    {
      var k :| 0 <= k < |modes| && modes[k].letter == c;
      assert modes[k] in modes && r[k] in r;
    }
    forall c | c in v'
      ensures c in v
    {
      var k :| 0 <= k < |r| && r[k].letter == c;
      assert modes[k] in modes;
    }
  }

  lemma SameUsers(s: State, t: State)
    requires t.users == s.users && forall b :: Owned(s.modes, b) ==> Owned(t.modes, b)
    ensures forall k | 0 <= k < |s.users| && UserOk(s.users[k], s.modes) :: UserOk(t.users[k], t.modes)
  {
    hide Owned;
  }

  lemma AddStep(s: State, letter: char, global: bool, unsetOnDeoper: bool)
    requires Valid(s)
    ensures GoodStep(s, AddCommand(letter, global, unsetOnDeoper))
  {
    if letter == NUL {
      hide View;
    } else if Find(s.modes, letter) == |s.modes| {
      AddNewStep(s, letter, global, unsetOnDeoper);
    } else {
      AddKnownStep(s, letter, global, unsetOnDeoper);
    }
  }

  lemma AddNewStep(s: State, letter: char, global: bool, unsetOnDeoper: bool)
    requires Valid(s) && letter != NUL && Find(s.modes, letter) == |s.modes|
    ensures GoodStep(s, AddCommand(letter, global, unsetOnDeoper))
  {
    hide InRange, View, Find, FreeBit, Step, UserOk, Owned, Unique, GlobalBit, Inserted;
    var x := AddCommand(letter, global, unsetOnDeoper);
    var bit := FreeBit(UsedBits(s.modes), 0, BIT_LIMIT);
    FreeBitIs(UsedBits(s.modes), 0, BIT_LIMIT);
    if bit != 0 {
      var n := Mode(letter, bit, false, unsetOnDeoper, global);
      InsertOk(s.modes, n);
      SameUsers(s, After(s, x));
    } else {
      RejectIs(TableOf(s));
    }
  }

  lemma RejectIs(v: map<char, Slot>)
    ensures Step(v, Reject, v)
  {
  }

  lemma AddKnownStep(s: State, letter: char, global: bool, unsetOnDeoper: bool)
    requires Valid(s) && letter != NUL && Find(s.modes, letter) < |s.modes|
    ensures GoodStep(s, AddCommand(letter, global, unsetOnDeoper))
  {
    hide InRange, View, Find, UserOk, Owned, Unique, GlobalBit;
    var x, i := AddCommand(letter, global, unsetOnDeoper), Find(s.modes, letter);
    var m := s.modes[i];
    assert m in s.modes;
    if m.unloaded {
      var n := Mode(letter, m.bit, false, unsetOnDeoper, global);
      ReplaceOk(s.modes, i, n);
      SameUsers(s, After(s, x));
      GlobalReplaced(s.modes, i, n);
    }
  }

  lemma GlobalReplaced(modes: seq<Mode>, i: nat, n: Mode)
    requires Unique(modes) && i < |modes| && n.bit == modes[i].bit
    ensures forall b :: GlobalBit(modes[i := n], b) <==> if b == n.bit then n.global else GlobalBit(modes, b)
    ensures GlobalBit(modes, modes[i].bit) <==> modes[i].global
  {
    var r := modes[i := n];
    assert r[i] in r && modes[i] in modes;
    forall b
      ensures GlobalBit(r, b) <==> if b == n.bit then n.global else GlobalBit(modes, b)
    {
      if GlobalBit(r, b) {
        var k :| 0 <= k < |r| && r[k].global && r[k].bit == b;
        SameIndex(modes, i, k);
        assert k != i ==> modes[k] in modes;
      }
      if GlobalBit(modes, b) && b != n.bit {
        var k :| 0 <= k < |modes| && modes[k].global && modes[k].bit == b;
        assert r[k] in r;
      }
    }
    if GlobalBit(modes, modes[i].bit) {
      var k :| 0 <= k < |modes| && modes[k].global && modes[k].bit == modes[i].bit;
      SameIndex(modes, i, k);
    }
  }

  lemma SameIndex(modes: seq<Mode>, i: nat, k: nat)
    requires Unique(modes) && i < |modes| && k < |modes|
    ensures modes[i].bit == modes[k].bit ==> i == k
  {
    assert forall a, b | 0 <= a < b < |modes| :: Apart(modes[a], modes[b]);
  }

  // ---------------------------------------------------------------------
  // Removal.

  lemma RemoveOk(modes: seq<Mode>, i: nat)
    requires ModesOk(modes) && i < |modes|
    ensures var r := Without(modes, i);
      && ModesOk(r) && Step(View(modes), Op.Remove(modes[i].letter), View(r))
      && (forall b :: Owned(r, b) <==> Owned(modes, b) && b != modes[i].bit)
      && (forall b :: GlobalBit(r, b) <==> GlobalBit(modes, b) && b != modes[i].bit)
      && (forall m | m in r :: m in modes && m != modes[i]) && (forall m | m in modes && m != modes[i] :: m in r)
  {
    hide InRange, View;
    var r := Without(modes, i);
    Seqs.CutOutIs(modes, i);
    assert forall k | 0 <= k < |r| :: r[k] == modes[if k < i then k else k + 1];
    assert Unique(r);
    RemoveMembers(modes, i);
    hide Without, Unique;
    RemoveView(modes, i);
    RemoveBits(modes, i);
  }

  lemma RemoveMembers(modes: seq<Mode>, i: nat)
    requires Unique(modes) && i < |modes|
    ensures var r := Without(modes, i);
      && (forall m | m in r :: m in modes && m.letter != modes[i].letter && m.bit != modes[i].bit)
      && (forall m | m in modes && m != modes[i] :: m in r)
  {
    Seqs.CutOutIs(modes, i);
    var r := Without(modes, i);
    hide Without;
    forall m | m in r
      ensures m in modes && m.letter != modes[i].letter && m.bit != modes[i].bit
    {
      var k :| 0 <= k < |modes| && k != i && modes[k] == m;
      assert if k < i then Apart(modes[k], modes[i]) else Apart(modes[i], modes[k]);
    }
  }

  lemma RemoveView(modes: seq<Mode>, i: nat)
    requires Unique(modes) && i < |modes| && Unique(Without(modes, i))
    ensures modes[i].letter in View(modes) && View(Without(modes, i)) == View(modes) - {modes[i].letter}
  {
    hide View, Unique, Without;
    assert modes[i] in modes;
    forall c
      ensures c in View(Without(modes, i)) <==> c in View(modes) && c != modes[i].letter
      ensures c in View(Without(modes, i)) ==> c in View(modes) && View(Without(modes, i))[c] == View(modes)[c]
    {
      RemoveFromView(modes, i, c);
    }
  }

  lemma RemoveFromView(modes: seq<Mode>, i: nat, c: char)
    requires Unique(modes) && i < |modes| && Unique(Without(modes, i))
    ensures var v, v' := View(modes), View(Without(modes, i));
      && (c in v' <==> c in v && c != modes[i].letter) && (c in v' ==> v'[c] == v[c])
  {
    RemoveMembers(modes, i);
    hide View, Unique, Without;
    if c in View(modes) {
      var m :| m in modes && m.letter == c;
    }
    if c in View(Without(modes, i)) {
      var m :| m in Without(modes, i) && m.letter == c;
    }
  }

  lemma RemoveBits(modes: seq<Mode>, i: nat)
    requires Unique(modes) && i < |modes|
    ensures var r := Without(modes, i);
      && (forall b :: Owned(r, b) <==> Owned(modes, b) && b != modes[i].bit)
      && (forall b :: GlobalBit(r, b) <==> GlobalBit(modes, b) && b != modes[i].bit)
  {
    RemoveMembers(modes, i);
    hide Without, Unique;
    var r := Without(modes, i);
    forall b
      ensures Owned(r, b) <==> Owned(modes, b) && b != modes[i].bit
      ensures GlobalBit(r, b) <==> GlobalBit(modes, b) && b != modes[i].bit
    {
      if Owned(modes, b) && b != modes[i].bit {
        var m :| m in modes && m.bit == b;
        assert m in r;
      }
      if GlobalBit(modes, b) && b != modes[i].bit {
        var m :| m in modes && m.global && m.bit == b;
        assert m in r;
      }
    }
  }

  lemma RemovedIs(s: State, i: nat)
    requires Valid(s) && i < |s.modes|
    ensures Valid(Removed(s, i)) && Step(TableOf(s), Op.Remove(s.modes[i].letter), TableOf(Removed(s, i)))
    ensures NoStale(Removed(s, i)) <==> NoStale(s) && !HeldElsewhere(s, s.modes[i].bit)
    ensures forall b :: HeldElsewhere(Removed(s, i), b) <==> HeldElsewhere(s, b)
    ensures SendExact(Removed(s, i)) <==> SendExact(s) && s.modes[i].bit !in s.send
  {
    var m, t := s.modes[i], Removed(s, i);
    RemoveOk(s.modes, i);
    assert m in s.modes;
    hide InRange, View, Owned, GlobalBit, Without, Unique, Step;
    RemovedUsers(s, i);
    assert SendExact(t) <==> SendExact(s) && m.bit !in s.send;
  }

  lemma RemovedUsers(s: State, i: nat)
    requires Valid(s) && i < |s.modes|
    requires forall b :: Owned(Without(s.modes, i), b) <==> Owned(s.modes, b) && b != s.modes[i].bit
    ensures var t := Removed(s, i);
      && (forall k | 0 <= k < |t.users| && t.users[k].local :: UserOk(t.users[k], t.modes))
      && (NoStale(t) <==> NoStale(s) && !HeldElsewhere(s, s.modes[i].bit))
      && (forall b :: HeldElsewhere(t, b) <==> HeldElsewhere(s, b))
  {
    hide ModesOk, Owned, Without;
    var bit, t := s.modes[i].bit, Removed(s, i);
    forall k | 0 <= k < |s.users|
      ensures t.users[k].local == s.users[k].local
      ensures s.users[k].local ==> UserOk(t.users[k], t.modes)
      ensures !s.users[k].local ==>
        (UserOk(t.users[k], t.modes) <==> UserOk(s.users[k], s.modes) && bit !in s.users[k].bits)
      ensures forall b :: HasElsewhere(t.users[k], b) <==> HasElsewhere(s.users[k], b)
    {
    }
    assert forall k | 0 <= k < |s.users| :: s.users[k].local ==> UserOk(s.users[k], s.modes);
    hide UserOk, Removed;
    if NoStale(t) {
      forall k | 0 <= k < |s.users|
        ensures UserOk(s.users[k], s.modes) && !HasElsewhere(s.users[k], bit)
      {
        assert UserOk(t.users[k], t.modes);
      }
    }
  }

  lemma DelStep(s: State, i: nat, rehashing: bool)
    requires Valid(s)
    ensures GoodStep(s, DelCommand(i, rehashing))
  {
    if i >= |s.modes| {
      hide View;
    } else if rehashing {
      MarkStep(s, i);
    } else {
      RemovedIs(s, i);
      SendKnows(s, s.modes[i]);
      hide Valid, Removed, NoStale, SendExact, HeldElsewhere, Step;
    }
  }

  /** A bit of a listed mode is in SendUmodes exactly when the mode is global, if the set is exact. */
  lemma SendKnows(s: State, m: Mode)
    requires Valid(s) && m in s.modes
    ensures SendExact(s) ==> (m.bit in s.send <==> m.global)
  {
    hide InRange;
    if SendExact(s) && m.bit in s.send {
      var x :| x in s.modes && x.global && x.bit == m.bit;
      var i, k :| 0 <= i < |s.modes| && s.modes[i] == m && 0 <= k < |s.modes| && s.modes[k] == x;
      SameIndex(s.modes, i, k);
    }
  }

  lemma MarkStep(s: State, i: nat)
    requires Valid(s) && i < |s.modes|
    ensures GoodStep(s, DelCommand(i, true))
  {
    hide InRange, View, UserOk, Owned, Unique, GlobalBit;
    var n := s.modes[i].(unloaded := true);
    assert s.modes[i] in s.modes;
    ReplaceOk(s.modes, i, n);
    SameUsers(s, After(s, DelCommand(i, true)));
    SameUsers(After(s, DelCommand(i, true)), s);
    GlobalReplaced(s.modes, i, n);
  }

  /** The removal of all marked modes, when none before position i is marked. */
  lemma {:induction false} UnloadIs(s: State, i: nat)
    requires Valid(s) && i <= |s.modes| && forall k | 0 <= k < i :: !s.modes[k].unloaded
    ensures Valid(Unloaded(s, i)) && TableOf(Unloaded(s, i)) == Committed(TableOf(s))
    ensures NoStale(Unloaded(s, i)) <==> NoStale(s) && !MarkedHeld(s)
    ensures SendExact(Unloaded(s, i)) <==> SendExact(s) && !MarkedInSend(s)
    decreases |s.modes| - i
  {
    hide Valid, Removed, NoStale, HeldElsewhere, SendExact;
    if i >= |s.modes| {
      NoneMarked(s);
    } else if s.modes[i].unloaded {
      RemovedIs(s, i);
      RemovedPrefix(s, i);
      UnloadIs(Removed(s, i), i);
      MarkedRemoved(s, i);
    } else {
      UnloadIs(s, i + 1);
    }
  }

  predicate MarkedInSend(s: State) {
    exists m :: m in s.modes && m.unloaded && m.bit in s.send
  }

  lemma RemovedPrefix(s: State, i: nat)
    requires i < |s.modes|
    ensures Removed(s, i).modes == Without(s.modes, i) && |Removed(s, i).modes| == |s.modes| - 1
    ensures Removed(s, i).send == s.send && forall k | 0 <= k < i :: Removed(s, i).modes[k] == s.modes[k]
  {
    hide Cleared;
  }

  lemma NoneMarked(s: State)
    requires Valid(s) && forall k | 0 <= k < |s.modes| :: !s.modes[k].unloaded
    ensures TableOf(s) == Committed(TableOf(s)) && !MarkedHeld(s) && !MarkedInSend(s)
  {
    hide InRange, UserOk, Unique, View, HeldElsewhere;
    var v := View(s.modes);
    forall c | c in v
      ensures !v[c].marked
    {
      var m :| m in s.modes && m.letter == c;
    }
  }

  lemma MarkedRemoved(s: State, i: nat)
    requires Valid(s) && i < |s.modes| && s.modes[i].unloaded
    requires Step(TableOf(s), Op.Remove(s.modes[i].letter), TableOf(Removed(s, i)))
    requires forall b :: HeldElsewhere(Removed(s, i), b) <==> HeldElsewhere(s, b)
    ensures Committed(TableOf(Removed(s, i))) == Committed(TableOf(s))
    ensures MarkedHeld(s) <==> MarkedHeld(Removed(s, i)) || HeldElsewhere(s, s.modes[i].bit)
    ensures MarkedInSend(s) <==> MarkedInSend(Removed(s, i)) || s.modes[i].bit in s.send
  {
    hide Removed, HeldElsewhere, View, InRange, UserOk;
    assert s.modes[i] in s.modes;
    CommitsNothingNew(TableOf(s), s.modes[i].letter, TableOf(Removed(s, i)));
    RemoveMembers(s.modes, i);
    RemovedPrefix(s, i);
    hide Unique, Without, Step, Committed;
    if MarkedHeld(s) && !HeldElsewhere(s, s.modes[i].bit) {
      var x :| x in s.modes && x.unloaded && HeldElsewhere(s, x.bit);
      assert x in Removed(s, i).modes;
    }
    if MarkedInSend(s) && s.modes[i].bit !in s.send {
      var x :| x in s.modes && x.unloaded && x.bit in s.send;
      assert x in Removed(s, i).modes;
    }
  }

  lemma CommitsNothingNew(v: map<char, Slot>, c: char, v': map<char, Slot>)
    requires Step(v, Op.Remove(c), v') && v[c].marked
    ensures Committed(v') == Committed(v)
  {
  }

  lemma UnloadStep(s: State)
    requires Valid(s)
    ensures GoodStep(s, UnloadCommand)
  {
    hide Valid, Unloaded, NoStale, MarkedHeld, MarkedGlobal, MarkedInSend, SendExact, Committed, TableOf;
    hide Registered, Removed, Find, FreeBit, WithMode, UsedBits;
    UnloadIs(s, 0);
    MarkedSent(s);
  }

  lemma MarkedSent(s: State)
    requires Valid(s)
    ensures SendExact(s) ==> (MarkedInSend(s) <==> MarkedGlobal(s))
  {
    forall m | m in s.modes
      ensures SendExact(s) ==> (m.bit in s.send <==> m.global)
    {
      SendKnows(s, m);
    }
    hide Valid, SendExact;
  }

  lemma UserStep(s: State, x: Command)
    requires Valid(s) && (x.UserCommand? || x.QuitCommand? || x.SetCommand?)
    ensures GoodStep(s, x)
  {
    hide ModesOk, View, Find;
    var t := After(s, x);
    match x
    case UserCommand(local) =>
      hide Owned;
      assert forall k | 0 <= k < |s.users| :: t.users[k] == s.users[k];
      if NoStale(t) {
        forall k | 0 <= k < |s.users|
          ensures UserOk(s.users[k], s.modes)
        {
          assert UserOk(t.users[k], t.modes);
        }
      }
    case QuitCommand(k) =>
      hide UserOk;
      if k < |s.users| {
        assert forall j | 0 <= j < |t.users| :: t.users[j] == s.users[if j < k then j else j + 1];
      }
    case SetCommand(k, letter, on) =>
      if k < |s.users| {
        SetUserOk(s.modes, s.users[k], letter, on);
        hide UserOk, WithMode, BitOf;
        assert forall j | 0 <= j < |s.users| && j != k :: t.users[j] == s.users[j];
      }
  }

  lemma SetUserOk(modes: seq<Mode>, u: User, letter: char, on: bool)
    ensures var v := WithMode(u, BitOf(modes, letter), on);
      v.local == u.local && (UserOk(u, modes) ==> UserOk(v, modes))
  {
    var i := Find(modes, letter);
    if i < |modes| {
      assert modes[i] in modes && Owned(modes, modes[i].bit);
    }
  }

  lemma AnyStep(s: State, x: Command)
    requires Valid(s)
    ensures GoodStep(s, x)
  {
    hide GoodStep, Valid;
    match x
    case AddCommand(letter, global, unsetOnDeoper) => AddStep(s, letter, global, unsetOnDeoper);
    case DelCommand(i, rehashing) => DelStep(s, i, rehashing);
    case UnloadCommand => UnloadStep(s);
    case _ => UserStep(s, x);
  }

  lemma AllSteps()
    ensures Keeps(After, Valid) && Implements(After, Valid, TableOf, OpOf)
    ensures Exact(After, Valid, NoStale, LeavesStale) && Exact(After, Valid, SendExact, SpoilsSend)
  {
    hide Valid, Step, NoStale, LeavesStale, SendExact, SpoilsSend;
    forall s, x | Valid(s)
      ensures Valid(After(s, x)) && Step(TableOf(s), OpOf(s, x), TableOf(After(s, x)))
      ensures NoStale(s) ==> (NoStale(After(s, x)) <==> !LeavesStale(s, x))
      ensures SendExact(s) ==> (SendExact(After(s, x)) <==> !SpoilsSend(s, x))
    {
      AnyStep(s, x);
    }
    hide After, OpOf, TableOf;
  }

  // ---------------------------------------------------------------------
  // Runs.

  /** Every run is a run of the registry, through valid states. */
  lemma RunsAreRuns(s: State, xs: seq<Command>)
    requires Valid(s)
    ensures forall k: nat | k <= |xs| :: Valid(At(After, s, xs, k))
    ensures IsRun(Tables(After, TableOf, s, xs), Ops(After, OpOf, s, xs))
  {
    hide Valid, After, OpOf, TableOf, IsRun, Tables, Ops, Keeps, Implements, Exact;
    AllSteps();
    RunIsRun(After, Valid, TableOf, OpOf, s, xs);
    forall k: nat | k <= |xs|
      ensures Valid(At(After, s, xs, k))
    {
      AlwaysHolds(After, Valid, s, xs, k);
    }
  }

  /** Without bits of former modes on any user at the beginning, there never are any if and only if no removal
      on the way leaves one with a user of another server. */
  lemma StaleInRuns(s: State, xs: seq<Command>)
    requires Valid(s) && NoStale(s)
    ensures Always(After, NoStale, s, xs) <==> Never(After, LeavesStale, s, xs)
  {
    hide Valid, After, NoStale, LeavesStale, Keeps, Implements, Exact, Always, Never;
    AllSteps();
    Throughout(After, Valid, NoStale, LeavesStale, s, xs);
  }

  /** A bit that is handed out is then on no user at all. */
  lemma NewBitIsUnset(s: State)
    requires Valid(s) && NoStale(s)
    ensures var bit := FreeBit(UsedBits(s.modes), 0, BIT_LIMIT);
      bit != 0 ==> forall k | 0 <= k < |s.users| :: bit !in s.users[k].bits
  {
    hide FreeBit, InRange, ModesOk;
    FreeBitIs(UsedBits(s.modes), 0, BIT_LIMIT);
    assert forall b | Owned(s.modes, b) :: b in UsedBits(s.modes);
    assert forall k | 0 <= k < |s.users| :: UserOk(s.users[k], s.modes);
  }

  /** SendUmodes has exactly the bits of the global modes throughout if and only if no global mode is removed,
      or revived as a local one. */
  lemma SendInRuns(s: State, xs: seq<Command>)
    requires Valid(s) && SendExact(s)
    ensures Always(After, SendExact, s, xs) <==> Never(After, SpoilsSend, s, xs)
  {
    hide Valid, After, SendExact, SpoilsSend, Keeps, Implements, Exact, Always, Never;
    AllSteps();
    Throughout(After, Valid, SendExact, SpoilsSend, s, xs);
  }

  /** A user of another server sets a global mode, that is removed, and another one registered as local. */
  function RemovalStory(first: char, second: char): seq<Command> {
    [AddCommand(first, true, false), UserCommand(false), SetCommand(0, first, true), DelCommand(0, false),
     AddCommand(second, false, false)]
  }

  /** The user then has the second mode, and the local mode is sent to other servers. */
  lemma SecondIsSet(first: char, second: char)
    requires first != NUL && second != NUL
    ensures var s := At(After, State([], [], {}, {}), RemovalStory(first, second), 5);
      s == State([Mode(second, 1, false, false, false)], [User(false, {1})], {1}, {1})
  {
    var xs, s0 := RemovalStory(first, second), State([], [], {}, {});
    var m := Mode(first, 1, false, false, true);
    assert Pow2(0) == 1;
    assert FreeBit({}, 0, BIT_LIMIT) == 1;
    assert UsedBits([]) == {};
    assert forall n :: Inserted([], n) == [n];
    assert After(s0, xs[0]) == State([m], [], {1}, {1});
    assert After(State([m], [], {1}, {1}), xs[1]) == State([m], [User(false, {})], {1}, {1});
    assert BitOf([m], first) == 1 && WithMode(User(false, {}), 1, true) == User(false, {1});
    assert After(State([m], [User(false, {})], {1}, {1}), xs[2]) == State([m], [User(false, {1})], {1}, {1});
    assert After(State([m], [User(false, {1})], {1}, {1}), xs[3]) == State([], [User(false, {1})], {1}, {1});
    var n := Mode(second, 1, false, false, false);
    assert {1} + {1} == {1};
    assert After(State([], [User(false, {1})], {1}, {1}), xs[4]) == State([n], [User(false, {1})], {1}, {1});
    hide After;
    Goes(After, s0, xs, 0);
    Goes(After, s0, xs, 1);
    Goes(After, s0, xs, 2);
    Goes(After, s0, xs, 3);
    Goes(After, s0, xs, 4);
  }

  ghost predicate SortedList(s: State) {
    Sorted(LettersOf(s.modes))
  }

  ghost predicate NotMixed(s: State) {
    !Mixed(LettersOf(s.modes))
  }

  /** A sorted list stays sorted as long as its letters are not mixed. */
  lemma StepSorts(s: State, x: Command)
    requires SortedList(s) && NotMixed(After(s, x))
    ensures SortedList(After(s, x))
  {
    hide Mixed, Sorted, Find, FreeBit, SortedPosition, LettersOf, Inserted, Removed, Unloaded;
    match x
    case AddCommand(letter, global, unsetOnDeoper) =>
      var i := Find(s.modes, letter);
      if letter != NUL {
        if i < |s.modes| {
          SameLetters(s.modes, i, Mode(letter, s.modes[i].bit, false, unsetOnDeoper, global));
        } else {
          InsertSorts(s.modes, Mode(letter, FreeBit(UsedBits(s.modes), 0, BIT_LIMIT), false, unsetOnDeoper, global));
        }
      }
    case DelCommand(i, rehashing) =>
      if i < |s.modes| {
        if rehashing {
          SameLetters(s.modes, i, s.modes[i].(unloaded := true));
        } else {
          RemovalSorts(s, i);
        }
      }
    case UnloadCommand => UnloadSorts(s, 0);
    case _ =>
  }

  lemma SameLetters(modes: seq<Mode>, i: nat, n: Mode)
    requires i < |modes| && n.letter == modes[i].letter
    ensures LettersOf(modes[i := n]) == LettersOf(modes)
  {
  }

  lemma InsertSorts(modes: seq<Mode>, n: Mode)
    requires Sorted(LettersOf(modes)) && forall k | 0 <= k < |modes| :: modes[k].letter != n.letter
    ensures Sorted(LettersOf(Inserted(modes, n))) || Mixed(LettersOf(Inserted(modes, n)))
  {
    hide Mixed, Sorted, SortedPosition;
    var letters := LettersOf(modes);
    SortedOrMixed(letters, n.letter);
    assert LettersOf(Inserted(modes, n)) == Seqs.InsertAt(letters, SortedPosition(letters, n.letter), n.letter);
  }

  lemma RemovalSorts(s: State, i: nat)
    requires i < |s.modes| && SortedList(s)
    ensures SortedList(Removed(s, i))
  {
    hide Sorted, Cleared;
    RemoveKeepsSorted(LettersOf(s.modes), i);
    assert LettersOf(Without(s.modes, i)) == Seqs.CutOut(LettersOf(s.modes), i);
  }

  lemma {:induction false} UnloadSorts(s: State, i: nat)
    requires SortedList(s)
    ensures SortedList(Unloaded(s, i))
    decreases |s.modes| - i
  {
    hide SortedList, Removed;
    if i < |s.modes| {
      if s.modes[i].unloaded {
        RemovalSorts(s, i);
        RemovedPrefix(s, i);
        UnloadSorts(Removed(s, i), i);
      } else {
        UnloadSorts(s, i + 1);
      }
    }
  }

  /** The lists of a run are all sorted if and only if none of them is mixed. */
  lemma SortedInRuns(s: State, xs: seq<Command>)
    requires Valid(s) && SortedList(s)
    ensures Always(After, SortedList, s, xs) <==> Always(After, NotMixed, s, xs)
  {
    hide Valid, After, Implements, Exact, NoStale, LeavesStale, SendExact, SpoilsSend, Sorted, Mixed;
    AllSteps();
    forall s | SortedList(s)
      ensures NotMixed(s)
    {
      if !NotMixed(s) {
        MixedIsUnsorted(LettersOf(s.modes));
      }
    }
    forall s, x | SortedList(s) && NotMixed(After(s, x))
      ensures SortedList(After(s, x))
    {
      StepSorts(s, x);
    }
    hide SortedList, NotMixed, Always;
    AlwaysBoth(After, Valid, SortedList, NotMixed, s, xs);
  }

  // ---------------------------------------------------------------------
  // What requests come to.

  /** After a registration the letter has an entry with what was asked for, its bit is in the sets it belongs to,
      and nothing else has changed. */
  lemma AddedAsRequested(s: State, letter: char, global: bool, unsetOnDeoper: bool)
    requires Registered(s, letter, global, unsetOnDeoper).1.Added?
    ensures var (t, r) := Registered(s, letter, global, unsetOnDeoper);
      && (exists k :: 0 <= k < |t.modes| && t.modes[k] == Mode(letter, r.bit, false, unsetOnDeoper, global))
      && (forall m: Mode | m.letter != letter :: m in t.modes <==> m in s.modes)
      && (forall b | b != r.bit :: (b in t.all <==> b in s.all) && (b in t.send <==> b in s.send))
      && r.bit in t.all && (global ==> r.bit in t.send) && (!global ==> t.send == s.send) && t.users == s.users
  {
    hide FreeBit, Position;
    var i := Find(s.modes, letter);
    var t := Registered(s, letter, global, unsetOnDeoper).0;
    if i < |s.modes| {
      assert t.modes[i].letter == letter;
      ReplacedHas(s.modes, i, t.modes[i]);
    } else {
      var bit := FreeBit(UsedBits(s.modes), 0, BIT_LIMIT);
      Seqs.InsertAtIs(s.modes, Position(s.modes, letter), Mode(letter, bit, false, unsetOnDeoper, global));
    }
  }

  lemma ReplacedHas(modes: seq<Mode>, i: nat, n: Mode)
    requires i < |modes| && n.letter == modes[i].letter
    ensures forall m: Mode | m.letter != n.letter :: m in modes[i := n] <==> m in modes
  {
    var after := modes[i := n];
    forall m: Mode | m.letter != n.letter
      ensures m in after <==> m in modes
    {
      if m in modes {
        var k :| 0 <= k < |modes| && modes[k] == m;
        assert after[k] == m;
      }
    }
  }

  /** When registrations are refused, and that this changes nothing. */
  lemma AddOutcome(s: State, letter: char, global: bool, unsetOnDeoper: bool)
    requires Unique(s.modes)
    ensures var (t, r) := Registered(s, letter, global, unsetOnDeoper);
      && (r == Failed(EXISTS) <==> exists m :: m in s.modes && m.letter == letter && !m.unloaded)
      && (r == Failed(NOSPACE) <==>
            (forall m | m in s.modes :: m.letter != letter) &&
            forall b: nat | InRange(b, 0, BIT_LIMIT) :: exists m :: m in s.modes && m.bit == b)
      && (r.Failed? ==> t == s)
      && (forall m | m in s.modes && m.letter == letter && m.unloaded :: r == Added(m.bit))
  {
    hide FreeBit, InRange, Inserted;
    var used := UsedBits(s.modes);
    FreeBitIs(used, 0, BIT_LIMIT);
    assert forall b: nat :: b in used <==> exists m :: m in s.modes && m.bit == b;
    var i := Find(s.modes, letter);
    if i < |s.modes| {
      forall m | m in s.modes && m.letter == letter
        ensures m == s.modes[i]
      {
        var k :| 0 <= k < |s.modes| && s.modes[k] == m;
      }
      assert s.modes[i] in s.modes;
    } else {
      forall m | m in s.modes
        ensures m.letter != letter
      {
        var k :| 0 <= k < |s.modes| && s.modes[k] == m;
      }
    }
  }

  /** A user has a mode after it is set, and not after it is taken away; nothing else changes. */
  lemma SetTakesEffect(s: State, k: nat, m: Mode, on: bool)
    requires ModesOk(s.modes) && k < |s.users| && m in s.modes
    ensures var t := After(s, SetCommand(k, m.letter, on));
      && t.modes == s.modes && t.all == s.all && t.send == s.send && |t.users| == |s.users|
      && (forall j | 0 <= j < |s.users| && j != k :: t.users[j] == s.users[j])
      && t.users[k].local == s.users[k].local && (m.bit in t.users[k].bits <==> on)
      && forall b | b != m.bit :: b in t.users[k].bits <==> b in s.users[k].bits
  {
    var i := Find(s.modes, m.letter);
    var j :| 0 <= j < |s.modes| && s.modes[j] == m;
    assert i <= j;
    assert i == j || Apart(s.modes[i], s.modes[j]);
    assert InRange(m.bit, 0, BIT_LIMIT);
  }

  /** After a removal exactly that mode is gone from the list, and its bit from exactly the local users; during a
      rehash it is only marked. Nothing else changes. */
  lemma RemoveTakesEffect(s: State, i: nat)
    requires i < |s.modes|
    ensures var t := After(s, DelCommand(i, false));
      t.modes == s.modes[..i] + s.modes[i + 1..] && LoseBits(s, t, {s.modes[i].bit})
    ensures var t := After(s, DelCommand(i, true));
      && LoseBits(s, t, {}) && |t.modes| == |s.modes|
      && t.modes[i] == s.modes[i].(unloaded := true)
      && forall k | 0 <= k < |s.modes| && k != i :: t.modes[k] == s.modes[k]
  {
  }

  /** Local users lose these bits, and nothing else happens to users and bit sets. */
  ghost predicate LoseBits(s: State, t: State, gone: set<nat>) {
    && t.all == s.all && t.send == s.send && |t.users| == |s.users|
    && forall k | 0 <= k < |s.users| ::
         && t.users[k].local == s.users[k].local
         && forall b :: b in t.users[k].bits <==> b in s.users[k].bits && !(s.users[k].local && b in gone)
  }

  function MarkedBits(modes: seq<Mode>): set<nat> {
    set m | m in modes && m.unloaded :: m.bit
  }

  /** After an unload exactly the marked modes are gone from the list, and their bits from exactly the local
      users. */
  lemma {:induction false} UnloadTakesEffect(s: State, i: nat)
    requires i <= |s.modes| && forall k | 0 <= k < i :: !s.modes[k].unloaded
    ensures var t := Unloaded(s, i);
      && (forall m :: m in t.modes <==> m in s.modes && !m.unloaded)
      && LoseBits(s, t, MarkedBits(s.modes))
    decreases |s.modes| - i
  {
    if i == |s.modes| {
      NoneIsMarked(s.modes);
    } else if s.modes[i].unloaded {
      var t := Removed(s, i);
      RemoveTakesEffect(s, i);
      Seqs.CutOutIs(s.modes, i);
      UnloadTakesEffect(t, i);
      assert MarkedBits(s.modes) == MarkedBits(t.modes) + {s.modes[i].bit} by {
        CutMarked(s.modes, i, t.modes);
      }
    } else {
      UnloadTakesEffect(s, i + 1);
    }
  }

  lemma NoneIsMarked(modes: seq<Mode>)
    requires forall k | 0 <= k < |modes| :: !modes[k].unloaded
    ensures MarkedBits(modes) == {} && forall m | m in modes :: !m.unloaded
  {
    forall m | m in modes
      ensures !m.unloaded
    {
      var k :| 0 <= k < |modes| && modes[k] == m;
    }
  }

  lemma CutMarked(modes: seq<Mode>, i: nat, rest: seq<Mode>)
    requires i < |modes| && modes[i].unloaded && rest == Seqs.CutOut(modes, i)
    ensures MarkedBits(modes) == MarkedBits(rest) + {modes[i].bit}
    ensures forall m :: m in rest && !m.unloaded <==> m in modes && !m.unloaded
  {
    Seqs.CutOutIs(modes, i);
    forall m: Mode
      ensures m in modes <==> m in rest || m == modes[i]
    {
      if m in modes {
        var k :| 0 <= k < |modes| && modes[k] == m;
      }
    }
  }
}
