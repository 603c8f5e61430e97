/**
 The channel mode registry (`src/api-channelmode.c`): normal modes own a bit and, when they take a
 parameter, one of MAXPARAMMODES parameter slots; member modes own a rank.
 */
module ChannelModes {
  import opened Bits
  import opened ChannelState
  import opened Cmode
  import opened LetterOrder
  import opened MemberModes
  import opened Options
  import opened Registry
  import opened Runs
  import Seqs

  // ULLONG_MAX / 2: the first bit that is not handed out is 2^63.
  const BIT_LIMIT: nat := 0x7fff_ffff_ffff_ffff
  const MAX_BITS := 63
  const ROW_SIZE := 64  // bytes in a row of extchmstr

  /** The parts of a CmodeInfo that matter here; hasPrefixes stands for a prefix and a SJOIN prefix. */
  datatype Request = Request(letter: char, kind: Kind, rank: int, paracount: nat, unsetWithParam: bool,
                             local: bool, hasPrefixes: bool)

  datatype Error = EXISTS | NOSPACE | INVALID
  datatype Result = Added(bit: nat) | Failed(error: Error)

  // ---------------------------------------------------------------------
  // The state.

  /** The mode list, slot to handler (by letter), letter to slot, and the channels. */
  datatype State = State(modes: seq<Mode>, paramTable: seq<Option<char>>, slotOf: map<char, nat>, channels: seq<Chan>)

  function SlotView(m: Mode): Slot {
    Slot(if m.kind == NORMAL then m.bit else NONE, m.unloaded)
  }

  ghost function View(modes: seq<Mode>): (v: map<char, Slot>)
    ensures UniqueLetters(modes) ==> forall m | m in modes :: m.letter in v && v[m.letter] == SlotView(m)
    ensures forall c | c in v :: exists m :: m in modes && m.letter == c
  {
    var v := map c | c in (set m | m in modes :: m.letter) :: SlotView(FindHandler(modes, c).value);
    assert UniqueLetters(modes) ==> forall m | m in modes :: v[m.letter] == SlotView(m) by {
      if UniqueLetters(modes) {
        ViewDefined(modes);
      }
    }
    v
  }

  lemma ViewDefined(modes: seq<Mode>)
    requires UniqueLetters(modes)
    ensures forall m | m in modes :: FindHandler(modes, m.letter) == Some(m)
  {
    forall m | m in modes ensures FindHandler(modes, m.letter) == Some(m) {
      HandlerIs(modes, m);
    }
  }

  ghost predicate ModeOk(m: Mode) {
    && (!TakesSlot(m) ==> m.paramSlot == 0)
    && if m.kind == NORMAL then InRange(m.bit, 0, BIT_LIMIT) && m.paracount <= 1
       else m.bit == 0 && m.rank != 0 && m.paracount != 0 && m.unsetWithParam
  }

  /** Letters and bits are unique and in range. */
  ghost predicate ModesOk(modes: seq<Mode>) {
    && UniqueLetters(modes)
    && (forall m | m in modes :: ModeOk(m))
    && BitsUnique(modes)
  }

  /** Letter to slot and slot to handler are inverse to each other. */
  ghost predicate SlotsOk(s: State) {
    && |s.paramTable| == MAXPARAMMODES + 1 && s.paramTable[MAXPARAMMODES].None?
    && (forall m | m in s.modes && TakesSlot(m) ::
          && m.paramSlot < MAXPARAMMODES && s.paramTable[m.paramSlot] == Some(m.letter)
          && m.letter in s.slotOf && s.slotOf[m.letter] == m.paramSlot)
    && (forall i | 0 <= i < MAXPARAMMODES && s.paramTable[i].Some? ::
          exists m :: m in s.modes && TakesSlot(m) && m.letter == s.paramTable[i].value && m.paramSlot == i)
  }

  ghost predicate Ok(s: State) {
    ModesOk(s.modes) && SlotsOk(s)
  }

  ghost predicate Valid(s: State) {
    Ok(s) && ChansOk(s.channels, s.modes)
  }

  function LettersOf(modes: seq<Mode>): (s: string)
    ensures |s| == |modes|
  {
    seq(|modes|, i requires 0 <= i < |modes| => modes[i].letter)
  }

  // ---------------------------------------------------------------------
  // What the operations do, on values.

  datatype Command =
    | AddCommand(req: Request)
    | DelCommand(position: nat, rehashing: bool)
    | UnloadCommand
    | ChannelCommand
    | DestroyCommand(channel: nat)
    | SetCommand(channel: nat, letter: char, text: string)
    | UnsetCommand(channel: nat, letter: char, kept: bool)
    | MemberCommand(channel: nat, change: Change)

  /** A member comes, with these letters, is given or loses one, or goes. */
  datatype Change = Joins(letters: string) | Edits(member: nat, edit: Edit) | Parts(member: nat)

  /** A record filled from a request. */
  function Filled(req: Request, bit: nat, slot: nat): Mode {
    Mode(req.letter, req.kind, bit, req.rank, req.paracount, req.unsetWithParam, req.local, false, slot)
  }

  function UsedBits(modes: seq<Mode>): set<nat> {
    set m | m in modes && m.kind == NORMAL :: m.bit
  }

  /** Where a new mode goes. */
  function Position(modes: seq<Mode>, letter: char): (i: nat)
    ensures i <= |modes|
  {
    SortedPosition(LettersOf(modes), letter)
  }

  /** The first mode with this letter, or the length. */
  function Find(modes: seq<Mode>, letter: char): (i: nat)
    ensures i <= |modes| && (i < |modes| ==> modes[i].letter == letter)
    ensures forall k | 0 <= k < i :: modes[k].letter != letter
  {
    if modes == [] || modes[0].letter == letter then 0 else 1 + Find(modes[1..], letter)
  }

  /** The lowest free parameter slot, or MAXPARAMMODES. */
  function FreeSlot(paramTable: seq<Option<char>>, k: nat): (slot: nat)
    requires k <= MAXPARAMMODES < |paramTable|
    ensures k <= slot <= MAXPARAMMODES && (slot < MAXPARAMMODES ==> paramTable[slot].None?)
    decreases MAXPARAMMODES - k
  {
    if k < MAXPARAMMODES && paramTable[k].Some? then FreeSlot(paramTable, k + 1) else k
  }

  function Inserted(modes: seq<Mode>, i: nat, n: Mode): (r: seq<Mode>)
    requires i <= |modes|
  {
    Seqs.InsertAt(modes, i, n)
  }

  function Without(modes: seq<Mode>, i: nat): (r: seq<Mode>)
    requires i < |modes|
  {
    Seqs.CutOut(modes, i)
  }

  /** The maps between slots and letters with a mode entered. */
  function WithSlot(s: State, n: Mode): State {
    if TakesSlot(n) && n.paramSlot < |s.paramTable|
    then s.(paramTable := s.paramTable[n.paramSlot := Some(n.letter)], slotOf := s.slotOf[n.letter := n.paramSlot])
    else s
  }

  /** channelmode_add_sorted, and the maps. */
  function Enter(s: State, n: Mode): State {
    WithSlot(s, n).(modes := Inserted(s.modes, Position(s.modes, n.letter), n))
  }

  /** The marked entry i is filled in anew, and keeps its bit and slot. */
  function Revival(s: State, i: nat, req: Request): State
    requires i < |s.modes|
  {
    var n := Filled(req, s.modes[i].bit, s.modes[i].paramSlot);
    WithSlot(s, n).(modes := s.modes[i := n])
  }

  /** An entry that is listed, but not filled in. */
  function Bare(letter: char, bit: nat): Mode {
    Mode(letter, NORMAL, bit, 0, 0, false, false, false, 0)
  }

  /** CmodeAdd. A new mode is entered at its sorted position, with the lowest free bit. When a new parameter
      mode finds no parameter slot, the call fails but the bare entry stays. */
  function Registered(s: State, req: Request): (State, Result) {
    var i := Find(s.modes, req.letter);
    if i < |s.modes| then
      if s.modes[i].unloaded then (Revival(s, i, req), Added(s.modes[i].bit)) else (s, Failed(EXISTS))
    else if req.kind == MEMBER then
      if LacksInfo(req) then (s, Failed(INVALID)) else (Enter(s, Filled(req, 0, 0)), Added(0))
    else
      var bit := FreeBit(UsedBits(s.modes), 0, BIT_LIMIT);
      if bit == 0 then (s, Failed(NOSPACE))
      else if req.paracount != 1 || |s.paramTable| <= MAXPARAMMODES then (Enter(s, Filled(req, bit, 0)), Added(bit))
      else
        var slot := FreeSlot(s.paramTable, 0);
        if slot == MAXPARAMMODES then (Enter(s, Bare(req.letter, bit)), Failed(NOSPACE))
        else (Enter(s, Filled(req, bit, slot)), Added(bit))
  }

  /** What CmodeAdd demands of a member mode is missing. */
  predicate LacksInfo(req: Request) {
    !req.hasPrefixes || req.paracount == 0 || !req.unsetWithParam || req.rank == 0
  }

  /** unload_extcmode_commit: the entry at i and its slot are gone, and every channel is as after the commit
      of that mode. */
  function Removed(s: State, i: nat): State
    requires i < |s.modes|
  {
    var m := s.modes[i];
    var t := if m.kind == NORMAL && m.paracount != 0 && m.paramSlot < |s.paramTable|
             then s.(paramTable := s.paramTable[m.paramSlot := None], slotOf := s.slotOf[m.letter := 0]) else s;
    t.(modes := Without(s.modes, i), channels := AllAfterCommit(s.channels, m))
  }

  /** unload_all_unused_extcmodes, from position i on. */
  function Unloaded(s: State, i: nat): State
    decreases |s.modes| - i
  {
    if i >= |s.modes| then s
    else if s.modes[i].unloaded then Unloaded(Removed(s, i), i)
    else Unloaded(s, i + 1)
  }

  function WithChannel(s: State, k: nat, c: Chan): State
    requires k < |s.channels|
  {
    s.(channels := s.channels[k := c])
  }

  /** The normal mode of this letter. */
  function NormalMode(modes: seq<Mode>, letter: char): (r: Option<Mode>)
    ensures r.Some? ==> r.value in modes && r.value.kind == NORMAL
  {
    var h := FindHandler(modes, letter);
    if h.Some? && h.value.kind == NORMAL then h else None
  }

  function After(s: State, x: Command): State {
    match x
    case AddCommand(req) => Registered(s, req).0
    case DelCommand(i, rehashing) =>
      if i >= |s.modes| then s
      else if rehashing then s.(modes := s.modes[i := s.modes[i].(unloaded := true)])
      else Removed(s, i)
    case UnloadCommand => Unloaded(s, 0)
    case ChannelCommand => s.(channels := s.channels + [EmptyChan()])
    case DestroyCommand(k) => if k < |s.channels| then s.(channels := Seqs.CutOut(s.channels, k)) else s
    case SetCommand(k, letter, text) =>
      var h := NormalMode(s.modes, letter);
      if k < |s.channels| && h.Some? then WithChannel(s, k, SetOn(s.channels[k], h.value, text)) else s
    case UnsetCommand(k, letter, kept) =>
      var h := NormalMode(s.modes, letter);
      if k < |s.channels| && h.Some? then WithChannel(s, k, UnsetOn(s.channels[k], h.value, kept)) else s
    case MemberCommand(k, change) =>
      if k < |s.channels|
      then WithChannel(s, k, s.channels[k].(members := WithMembers(s.channels[k].members, s.modes, change))) else s
  }

  function WithMembers(members: seq<string>, modes: seq<Mode>, x: Change): seq<string> {
    match x
    case Joins(letters) => members + [Edited(modes, "", Adds(letters))]
    case Edits(j, edit) => if j < |members| then members[j := Apply(modes, members[j], edit)] else members
    case Parts(j) => if j < |members| then Seqs.CutOut(members, j) else members
  }

  /** A registration that leaves tables or channels out of order. */
  predicate Disallowed(s: State, x: Command) {
    x.AddCommand? && !Allowed(s, x.req)
  }

  /** The same machine without these. */
  function Orderly(s: State, x: Command): State {
    if Disallowed(s, x) then s else After(s, x)
  }

  /** The same as an operation of the registry. */
  function OpOf(s: State, x: Command): Op<char> {
    match x
    case AddCommand(req) =>
      var i := Find(s.modes, req.letter);
      var bit := FreeBit(UsedBits(s.modes), 0, BIT_LIMIT);
      if !Allowed(s, req) then Reject
      else if i < |s.modes| then if s.modes[i].unloaded then Revive(req.letter) else Reject
      else if req.kind == MEMBER then if LacksInfo(req) then Reject else Register(req.letter, NONE)
      else if bit == 0 then Reject
      else Register(req.letter, bit)
    case DelCommand(i, rehashing) =>
      if i >= |s.modes| then Reject
      else if rehashing then Mark(s.modes[i].letter)
      else Op.Remove(s.modes[i].letter)
    case UnloadCommand => CommitAll
    case _ => Reject
  }

  ghost function TableOf(s: State): map<char, Slot> {
    View(s.modes)
  }

  /** No channel points to a struct that has been freed or belongs to nobody. */
  predicate NoStale(s: State) {
    AllClean(s.channels)
  }

  /** The mode takes a parameter, and some channel has a struct for it. */
  predicate HasStructs(s: State, m: Mode) {
    TakesSlot(m) && PointedTo(s.channels, m.paramSlot)
  }

  /** All letters that members have are those of member modes. */
  ghost predicate NoStaleLetters(s: State) {
    AllKnown(s.channels, s.modes)
  }

  /** It is a member mode, and some member has its letter twice. */
  ghost predicate HasTwice(s: State, m: Mode) {
    m.kind == MEMBER && HeldTwice(s.channels, m.letter)
  }

  /** A removal that leaves a letter behind. */
  ghost predicate LeavesLetters(s: State, x: Command) {
    match x
    case DelCommand(i, rehashing) => i < |s.modes| && !rehashing && HasTwice(s, s.modes[i])
    case UnloadCommand => MarkedHasTwice(s)
    case _ => false
  }

  ghost predicate MarkedHasTwice(s: State) {
    exists m :: m in s.modes && m.unloaded && HasTwice(s, m)
  }

  /** A removal that leaves a struct behind. */
  predicate LeavesStale(s: State, x: Command) {
    match x
    case DelCommand(i, rehashing) => i < |s.modes| && !rehashing && HasStructs(s, s.modes[i])
    case UnloadCommand => MarkedHasStructs(s)
    case _ => false
  }

  predicate MarkedHasStructs(s: State) {
    exists m :: m in s.modes && m.unloaded && HasStructs(s, m)
  }

  // ---------------------------------------------------------------------
  // Which registrations are safe. CmodeAdd fills in the record of a marked mode and keeps bit and slot, without
  // looking at what they were.

  /** The revival asks for the same kind, and for as many parameters; or for a parameter where there was
      none, and slot 0, which a mode without parameter has in its record, is free. */
  predicate Revivable(s: State, m: Mode, req: Request) {
    && req.kind == m.kind
    && if req.kind == MEMBER then req.rank != 0 && req.paracount != 0 && req.unsetWithParam
       else req.paracount == m.paracount ||
            (m.paracount == 0 && req.paracount == 1 && |s.paramTable| > 0 && s.paramTable[0].None?)
  }

  /** A mode that had no parameter before and is set on a channel needs something in its slot there. */
  predicate SetWithParam(cs: seq<Chan>, m: Mode, req: Request) {
    m.kind == NORMAL && m.paracount == 0 && req.paracount == 1 ==>
      forall k | 0 <= k < |cs| && m.bit in cs[k].bits :: Points(cs[k], 0)
  }

  /** A known letter: it is not marked, or can be revived. A new one: it is refused, or is a letter and has at
      most one parameter. */
  predicate Allowed(s: State, req: Request) {
    var i := Find(s.modes, req.letter);
    if i < |s.modes| then
      s.modes[i].unloaded ==> Revivable(s, s.modes[i], req) && SetWithParam(s.channels, s.modes[i], req)
    else
      || (if req.kind == MEMBER then LacksInfo(req) else FreeBit(UsedBits(s.modes), 0, BIT_LIMIT) == 0)
      || (req.letter != NUL && (req.kind == NORMAL ==> req.paracount <= 1))
  }

  // ---------------------------------------------------------------------
  // The registry object.

  class Table {
    var channelmodes: seq<Mode>
    var paramTable: seq<Option<char>>  // ParamTable, handlers by their letter
    var slotOf: map<char, nat>         // param_to_slot_mapping, 0 where absent
    var channels: seq<Chan>

    function St(): State
      reads this
    {
      State(channelmodes, paramTable, slotOf, channels)
    }

    /** extcmode_init */
    constructor ()
      ensures St() == Start() && Valid(St()) && NoStale(St())
    {
      channelmodes, slotOf, channels := [], map[], [];
      paramTable := seq(MAXPARAMMODES + 1, _ => None);
    }

    /** The search loop of CmodeAdd. */
    method FindIndex(letter: char) returns (i: nat)
      ensures i == Find(channelmodes, letter)
    {
      i := 0;
      while i < |channelmodes|
        invariant i <= |channelmodes| && Find(channelmodes, letter) == i + Find(channelmodes[i..], letter)
      {
        if channelmodes[i].letter == letter {
          return;
        }
        Seqs.DropDrop(channelmodes, i, 1);
        i := i + 1;
      }
    }

    /** The loop that allocates a parameter slot: the lowest free one below MAXPARAMMODES. */
    method AllocateSlot() returns (slot: nat)
      requires |paramTable| > MAXPARAMMODES
      ensures slot == FreeSlot(paramTable, 0)
    {
      slot := 0;
      while slot < MAXPARAMMODES && paramTable[slot].Some?
        invariant slot <= MAXPARAMMODES && FreeSlot(paramTable, 0) == FreeSlot(paramTable, slot)
      {
        slot := slot + 1;
      }
    }

    /** The loop of channelmode_add_sorted. */
    method FindPosition(letter: char) returns (i: nat)
      ensures i == Position(channelmodes, letter)
    {
      i := 0;
      ghost var letters := LettersOf(channelmodes);
      while i < |channelmodes|
        invariant i <= |channelmodes|
        invariant SortedPosition(letters, letter) == i + SortedPosition(letters[i..], letter)
      {
        if SortsBefore(letter, channelmodes[i].letter) {
          return;
        }
        Seqs.DropDrop(letters, i, 1);
        i := i + 1;
      }
    }

    /** CmodeAdd */
    method Add(req: Request) returns (r: Result)
      requires |paramTable| > MAXPARAMMODES
      modifies this`channelmodes, this`paramTable, this`slotOf
      ensures (St(), r) == Registered(old(St()), req)
    {
      hide Find, FreeBit, FreeSlot, Enter;
      var i := FindIndex(req.letter);
      if i < |channelmodes| {
        var m := channelmodes[i];
        if !m.unloaded {
          return Failed(EXISTS);
        }
        var n := Filled(req, m.bit, m.paramSlot);
        channelmodes := channelmodes[i := n];
        AddSlot(n);
        return Added(n.bit);
      }
      if req.kind == MEMBER {
        if LacksInfo(req) {
          return Failed(INVALID);
        }
        AddSorted(Filled(req, 0, 0));
        return Added(0);
      }
      r := AddNormal(req);
    }

    /** CmodeAdd, for a new mode that is not one of members. */
    method AddNormal(req: Request) returns (r: Result)
      requires |paramTable| > MAXPARAMMODES && req.kind == NORMAL && Find(channelmodes, req.letter) == |channelmodes|
      modifies this`channelmodes, this`paramTable, this`slotOf
      ensures (St(), r) == Registered(old(St()), req)
    {
      hide Find, FreeBit, FreeSlot, Enter;
      var l := FirstFreeBit(UsedBits(channelmodes), 0, BIT_LIMIT);
      if l == 0 {
        return Failed(NOSPACE);
      }
      var slot := 0;
      if req.paracount == 1 {
        slot := AllocateSlot();
        if slot == MAXPARAMMODES {
          AddSorted(Bare(req.letter, l));
          return Failed(NOSPACE);
        }
      }
      AddSorted(Filled(req, l, slot));
      return Added(l);
    }

    /** channelmode_add_sorted, and the maps between slots and letters. */
    method AddSorted(n: Mode)
      modifies this`channelmodes, this`paramTable, this`slotOf
      ensures St() == Enter(old(St()), n)
    {
      hide SortedPosition, Inserted;
      var i := FindPosition(n.letter);
      channelmodes := Inserted(channelmodes, i, n);
      AddSlot(n);
    }

    /** extcmode_para_addslot */
    method AddSlot(n: Mode)
      modifies this`paramTable, this`slotOf
      ensures St() == WithSlot(old(St()), n)
    {
      if TakesSlot(n) && n.paramSlot < |paramTable| {
        paramTable := paramTable[n.paramSlot := Some(n.letter)];
        slotOf := slotOf[n.letter := n.paramSlot];
      }
    }

    /** The loops of unload_extcmode_commit over the channels: a normal mode is unset, and its struct freed
        but still pointed to; a member mode is taken from every member. No struct is freed a second time if
        and only if none that a channel has for the mode has been left behind before. */
    method ClearFromChannels(cm: Mode) returns (ghost sound: bool)
      modifies this`channels
      ensures channels == AllAfterCommit(old(channels), cm)
      ensures sound <==> FreesOnce(old(channels), cm)
    {
      var i: nat := 0;
      sound := true;
      while i < |channels|
        invariant i <= |channels| == |old(channels)|
        invariant forall k | 0 <= k < i :: channels[k] == AfterCommit(old(channels)[k], cm)
        invariant forall k | i <= k < |channels| :: channels[k] == old(channels)[k]
        invariant sound <==> FreesOnce(old(channels)[..i], cm)
      {
        OneMoreChannel(old(channels), i, cm);
        var c := channels[i];
        if cm.kind == MEMBER {
          var members := TakeFromMembers(c.members, cm.letter);
          c := c.(members := members);
        } else {
          sound := sound && FreesLive(c, cm);
          if cm.paracount != 0 && cm.paramSlot < |c.params| {
            c := c.(params := c.params[cm.paramSlot := LeftBehind(c.params[cm.paramSlot], cm.bit in c.bits)]);
          }
          c := c.(bits := c.bits - {cm.bit});
        }
        channels := channels[i := c];
        i := i + 1;
      }
      Seqs.TakeAll(old(channels));
    }

    static method TakeFromMembers(members: seq<string>, letter: char) returns (r: seq<string>)
      ensures r == AllWithout(members, letter)
    {
      r := members;
      var j: nat := 0;
      while j < |r|
        invariant j <= |r| == |members|
        invariant forall k | 0 <= k < j :: r[k] == WithoutLetter(members[k], letter)
        invariant forall k | j <= k < |r| :: r[k] == members[k]
      {
        if letter in r[j] {
          r := r[j := WithoutLetter(r[j], letter)];
        }
        j := j + 1;
      }
    }

    /** unload_extcmode_commit */
    method Commit(i: nat) returns (ghost sound: bool)
      requires i < |channelmodes|
      modifies this
      ensures St() == Removed(old(St()), i)
      ensures sound <==> FreesOnce(old(channels), old(channelmodes)[i])
    {
      hide FreesOnce, AllAfterCommit;
      var cm := channelmodes[i];
      sound := ClearFromChannels(cm);
      if cm.kind == NORMAL && cm.paracount != 0 && cm.paramSlot < |paramTable| {
        paramTable := paramTable[cm.paramSlot := None];
        slotOf := slotOf[cm.letter := 0];
      }
      channelmodes := Without(channelmodes, i);
    }

    /** CmodeDel: during a rehash the mode is only marked, otherwise it is removed at once. */
    method Del(i: nat, rehashing: bool)
      requires i < |channelmodes|
      modifies this
      ensures St() == After(old(St()), DelCommand(i, rehashing))
    {
      hide Removed;
      if rehashing {
        channelmodes := channelmodes[i := channelmodes[i].(unloaded := true)];
      } else {
        ghost var _ := Commit(i);
      }
    }

    /** unload_all_unused_extcmodes */
    method UnloadAllUnused()
      modifies this
      ensures St() == Unloaded(old(St()), 0)
    {
      var i: nat := 0;
      while i < |channelmodes|
        invariant Unloaded(old(St()), 0) == Unloaded(St(), i)
        decreases |channelmodes| - i
      {
        if channelmodes[i].unloaded {
          ghost var _ := Commit(i);
        } else {
          i := i + 1;
        }
      }
    }

    // -------------------------------------------------------------------
    // Changes of the channels.

    /** The end of a channel, with extcmode_free_paramlist: nothing is freed a second time if and only if the
        list is safe to follow. */
    method DropChannel(k: nat) returns (ghost sound: bool)
      requires Valid(St()) && k < |channels|
      modifies this`channels
      ensures St() == After(old(St()), DestroyCommand(k))
      ensures |old(channels)[k].params| == MAXPARAMMODES + 1
      ensures sound <==> SafeToFollow(paramTable, old(channels)[k].params)
    {
      hide Ok;
      assert ChanOk(channels[k], channelmodes);
      var _, s := FreeParams(channels[k].params);
      sound := s;
      channels := Seqs.CutOut(channels, k);
    }

    /** A normal mode is set on a channel, with its parameter (cm_putparameter). */
    method SetMode(k: nat, letter: char, text: string)
      requires k < |channels|
      modifies this`channels
      ensures St() == After(old(St()), SetCommand(k, letter, text))
    {
      hide SetOn;
      var h := NormalMode(channelmodes, letter);
      if h.Some? {
        channels := channels[k := SetOn(channels[k], h.value, text)];
      }
    }

    /** A normal mode is unset on a channel (cm_freeparameter); the handler says whether it keeps the struct. A
        struct that was left behind is freed again if and only if it is in the slot and the mode is set. */
    method UnsetMode(k: nat, letter: char, kept: bool) returns (ghost sound: bool)
      requires k < |channels|
      modifies this`channels
      ensures St() == After(old(St()), UnsetCommand(k, letter, kept))
      ensures var h := NormalMode(channelmodes, letter);
        sound <==> (h.Some? ==> FreesLive(old(channels)[k], h.value))
    {
      hide UnsetOn;
      var h := NormalMode(channelmodes, letter);
      sound := true;
      if h.Some? {
        sound := FreesLive(channels[k], h.value);
        channels := channels[k := UnsetOn(channels[k], h.value, kept)];
      }
    }

    method Perform(x: Command)
      requires Valid(St())
      modifies this
      ensures St() == After(old(St()), x)
    {
      SlotsCount(St());
      hide Valid, Registered, Removed, Unloaded, SetOn, UnsetOn, NormalMode, EmptyChan, WithMembers;
      match x
      case AddCommand(req) => var _ := Add(req);
      case DelCommand(i, rehashing) =>
        if i < |channelmodes| {
          Del(i, rehashing);
        }
      case UnloadCommand => UnloadAllUnused();
      case ChannelCommand => channels := channels + [EmptyChan()];
      case DestroyCommand(k) =>
        if k < |channels| {
          ghost var _ := DropChannel(k);
        }
      case SetCommand(k, letter, text) =>
        if k < |channels| {
          SetMode(k, letter, text);
        }
      case UnsetCommand(k, letter, kept) =>
        if k < |channels| {
          ghost var _ := UnsetMode(k, letter, kept);
        }
      case MemberCommand(k, change) =>
        if k < |channels| {
          ChangeMembers(k, change);
        }
    }

    /** add_user_to_channel, add_member_mode, del_member_mode and remove_user_from_channel, as far as the strings
        of the members are concerned. */
    method ChangeMembers(k: nat, x: Change)
      requires k < |channels|
      modifies this`channels
      ensures St() == After(old(St()), MemberCommand(k, x))
    {
      hide Edited, Adds, Apply;
      var c := channels[k];
      match x
      case Joins(letters) =>
        channels := channels[k := c.(members := c.members + [Edited(channelmodes, "", Adds(letters))])];
      case Edits(j, edit) =>
        if j < |c.members| {
          channels := channels[k := c.(members := c.members[j := Apply(channelmodes, c.members[j], edit)])];
        }
      case Parts(j) =>
        if j < |c.members| {
          channels := channels[k := c.(members := Seqs.CutOut(c.members, j))];
        }
    }

    /** Every run of the object is a run of the state machine, up to and with the first registration that leaves
        the tables out of order. */
    method Run(commands: seq<Command>) returns (n: nat)
      requires Valid(St())
      modifies this
      ensures n <= |commands| && St() == At(After, old(St()), commands, n)
      ensures forall k: nat | k + 1 < n :: !Disallowed(At(After, old(St()), commands, k), commands[k])
      ensures n < |commands| ==> n > 0 && Disallowed(At(After, old(St()), commands, n - 1), commands[n - 1])
      ensures n == 0 || !Disallowed(At(After, old(St()), commands, n - 1), commands[n - 1]) ==> Valid(St())
    {
      hide Valid, After, Disallowed, At;
      AtStart(After, St(), commands);
      n := 0;
      while n < |commands|
        invariant n <= |commands| && Valid(St()) && St() == At(After, old(St()), commands, n)
        invariant forall k: nat | k < n :: !Disallowed(At(After, old(St()), commands, k), commands[k])
      {
        Goes(After, old(St()), commands, n);
        var bad := Disallowed(St(), commands[n]);
        if !bad {
          AnyStep(St(), commands[n]);
          StepIsValid(St(), commands[n]);
        }
        Perform(commands[n]);
        n := n + 1;
        if bad {
          return;
        }
      }
    }

    /** extcmode_duplicate_paramlist: every parameter set in xi by a registered mode is copied; only structs
        of its own are read if and only if the list is safe to follow. */
    method DuplicateParams(xi: seq<Option<Param>>, xo: seq<Option<Param>>)
      returns (out: seq<Option<Param>>, ghost sound: bool)
      requires Valid(St()) && |xi| == |xo| == MAXPARAMMODES + 1
      ensures |out| == |xo|
      ensures forall m | m in channelmodes && TakesSlot(m) ::
        m.paramSlot < |xi| &&
        out[m.paramSlot] == if xi[m.paramSlot].Some? then Some(Param(xi[m.paramSlot].value.text, LIVE))
                            else xo[m.paramSlot]
      ensures forall k | 0 <= k < |xo| && paramTable[k].None? :: out[k] == xo[k]
      ensures sound <==> SafeToFollow(paramTable, xi)
    {
      hide UniqueLetters, InRange, ChansOk;
      out, sound := xo, true;
      for i := 0 to MAXPARAMMODES
        invariant |out| == |xo|
        invariant forall k | 0 <= k < i && paramTable[k].Some? ::
          out[k] == if xi[k].Some? then Some(Param(xi[k].value.text, LIVE)) else xo[k]
        invariant forall k | 0 <= k < |xo| && (k >= i || paramTable[k].None?) :: out[k] == xo[k]
        invariant sound <==> forall k | 0 <= k < i && paramTable[k].Some? && xi[k].Some? :: xi[k].value.status == LIVE
      {
        if paramTable[i].Some? {
          var slot := HandlerSlot(i);
          if xi[slot].Some? {
            sound := sound && xi[slot].value.status == LIVE;
            out := out[slot := Some(Param(xi[slot].value.text, LIVE))];
          }
        }
      }
    }

    /** extcmode_free_paramlist: the parameter of every registered mode is freed and cleared; nothing is freed
        a second time if and only if the list is safe to follow. */
    method FreeParams(ar: seq<Option<Param>>) returns (out: seq<Option<Param>>, ghost sound: bool)
      requires Valid(St()) && |ar| == MAXPARAMMODES + 1
      ensures |out| == |ar|
      ensures forall m | m in channelmodes && TakesSlot(m) :: m.paramSlot < |out| && out[m.paramSlot].None?
      ensures forall k | 0 <= k < |ar| && paramTable[k].None? :: out[k] == ar[k]
      ensures sound <==> SafeToFollow(paramTable, ar)
    {
      hide UniqueLetters, InRange, ChansOk;
      out, sound := ar, true;
      for i := 0 to MAXPARAMMODES
        invariant |out| == |ar|
        invariant forall k | 0 <= k < i && paramTable[k].Some? :: out[k].None?
        invariant forall k | 0 <= k < |ar| && (k >= i || paramTable[k].None?) :: out[k] == ar[k]
        invariant sound <==> forall k | 0 <= k < i && paramTable[k].Some? && ar[k].Some? :: ar[k].value.status == LIVE
      {
        if paramTable[i].Some? {
          var slot := HandlerSlot(i);
          sound := sound && (ar[slot].Some? ==> ar[slot].value.status == LIVE);
          out := out[slot := None];
        }
      }
    }

    /** Lists of channels without structs that were left behind are safe to follow. */
    lemma CleanIsSafe(k: nat)
      requires Valid(St()) && k < |channels| && NoStale(St())
      ensures |channels[k].params| == MAXPARAMMODES + 1 && SafeToFollow(paramTable, channels[k].params)
    {
      assert ChanOk(channels[k], channelmodes) && Clean(channels[k]);
    }

    /** handler->param_slot, for the handler found through slot i: always i again. */
    method HandlerSlot(i: nat) returns (slot: nat)
      requires Valid(St()) && i < MAXPARAMMODES && paramTable[i].Some?
      ensures slot == i
    {
      hide ChansOk, InRange, BitsUnique, Find;
      var k := FindIndex(paramTable[i].value);
      ghost var m :| m in channelmodes && TakesSlot(m) && m.letter == paramTable[i].value && m.paramSlot == i;
      ghost var j: nat :| j < |channelmodes| && channelmodes[j] == m;
      assert k == j;
      return channelmodes[k].paramSlot;
    }

    /** make_extcmodestr: rows 2, 3 and 4 of CHANMODES, with room for the terminator. */
    method MakeRows() returns (rows: (string, string, string))
      requires Valid(St())
      ensures rows == (Row(channelmodes, 1), Row(channelmodes, 2), Row(channelmodes, 3))
      ensures |rows.0| < ROW_SIZE && |rows.1| < ROW_SIZE && |rows.2| < ROW_SIZE
    {
      var a, b, c := "", "", "";
      for i := 0 to |channelmodes|
        invariant a == Row(channelmodes[..i], 1) && b == Row(channelmodes[..i], 2) && c == Row(channelmodes[..i], 3)
      {
        var cm := channelmodes[i];
        assert channelmodes[..i + 1][..i] == channelmodes[..i];
        if cm.paracount > 0 && cm.unsetWithParam && cm.kind != MEMBER {
          a := a + [cm.letter];
        }
        if cm.paracount > 0 && !cm.unsetWithParam {
          b := b + [cm.letter];
        }
        if cm.paracount == 0 {
          c := c + [cm.letter];
        }
      }
      assert channelmodes[..|channelmodes|] == channelmodes;
      RowFits(channelmodes, 1);
      RowFits(channelmodes, 2);
      RowFits(channelmodes, 3);
      return (a, b, c);
    }
  }

  function Start(): State {
    State([], seq(MAXPARAMMODES + 1, _ => None), map[], [])
  }

  /** No registered mode would follow a pointer to a struct that was left behind. */
  predicate SafeToFollow(paramTable: seq<Option<char>>, params: seq<Option<Param>>) {
    forall k | 0 <= k < MAXPARAMMODES && k < |paramTable| && k < |params| && paramTable[k].Some? && params[k].Some? ::
      params[k].value.status == LIVE
  }

  /** Freeing the struct of a mode on a channel where it is set frees one that is live. */
  predicate FreesLive(c: Chan, cm: Mode) {
    cm.kind == NORMAL && cm.paracount != 0 && cm.bit in c.bits && Points(c, cm.paramSlot) ==>
      c.params[cm.paramSlot].value.status == LIVE
  }

  predicate FreesOnce(cs: seq<Chan>, cm: Mode) {
    forall k | 0 <= k < |cs| :: FreesLive(cs[k], cm)
  }

  lemma OneMoreChannel(cs: seq<Chan>, i: nat, cm: Mode)
    requires i < |cs|
    ensures FreesOnce(cs[..i + 1], cm) <==> FreesOnce(cs[..i], cm) && FreesLive(cs[i], cm)
  {
    hide FreesLive;
    if FreesOnce(cs[..i + 1], cm) {
      assert FreesLive(cs[..i + 1][i], cm);
      forall k | 0 <= k < i
        ensures FreesLive(cs[..i][k], cm)
      {
        assert FreesLive(cs[..i + 1][k], cm);
      }
    }
  }

  /** Something is freed twice if and only if a channel that has the mode set points, in the slot of the mode, to a
      struct that was left behind. */
  lemma FreedTwiceExact(cs: seq<Chan>, cm: Mode)
    requires cm.kind == NORMAL && cm.paracount > 0
    ensures !FreesOnce(cs, cm) <==>
      exists k ::
        && 0 <= k < |cs| && cm.bit in cs[k].bits && cm.paramSlot < |cs[k].params|
        && cs[k].params[cm.paramSlot].Some? && cs[k].params[cm.paramSlot].value.status in {FREED, ORPHANED}
  {
    if !FreesOnce(cs, cm) {
      var k :| 0 <= k < |cs| && !FreesLive(cs[k], cm);
    }
  }

  /** Without structs that were left behind, nothing is freed twice. */
  lemma CleanFreesOnce(s: State, cm: Mode)
    requires NoStale(s)
    ensures FreesOnce(s.channels, cm)
  {
    assert forall k | 0 <= k < |s.channels| :: Clean(s.channels[k]);
  }

  lemma SlotsCount(s: State)
    requires Valid(s)
    ensures |s.paramTable| == MAXPARAMMODES + 1
  {
  }

  // ---------------------------------------------------------------------
  // What the list operations do to the set of modes.

  lemma InsertIs(modes: seq<Mode>, i: nat, n: Mode)
    requires UniqueLetters(modes) && i <= |modes| && n.letter != NUL
    requires forall m | m in modes :: m.letter != n.letter
    ensures var r := Inserted(modes, i, n);
      && UniqueLetters(r) && n in r
      && (forall m | m in modes :: m in r) && (forall m | m in r :: m in modes || m == n)
  {
    InsertUnique(modes, i, n);
    hide UniqueLetters;
    Seqs.InsertAtIs(modes, i, n);
  }

  lemma InsertUnique(modes: seq<Mode>, i: nat, n: Mode)
    requires UniqueLetters(modes) && i <= |modes| && n.letter != NUL
    requires forall m | m in modes :: m.letter != n.letter
    ensures UniqueLetters(Inserted(modes, i, n))
  {
    assert forall k | 0 <= k < |modes| :: modes[k] in modes;
    Seqs.TakeDrop(modes, i);
    UniqueAround(modes[..i], n, modes[i..]);
  }

  lemma UniqueAround(a: seq<Mode>, n: Mode, b: seq<Mode>)
    requires UniqueLetters(a + b) && n.letter != NUL
    requires forall k | 0 <= k < |a + b| :: (a + b)[k].letter != n.letter
    ensures UniqueLetters(a + [n] + b)
  {
    var r, s := a + [n] + b, a + b;
    forall i, j | 0 <= i < j < |r|
      ensures r[i].letter != r[j].letter
    {
      if i != |a| {
        assert r[i] == s[if i < |a| then i else i - 1];
      }
      if j != |a| {
        assert r[j] == s[if j < |a| then j else j - 1];
      }
    }
    forall i | 0 <= i < |r|
      ensures r[i].letter != NUL
    {
      if i != |a| {
        assert r[i] == s[if i < |a| then i else i - 1];
      }
    }
  }

  lemma ReplaceIs(modes: seq<Mode>, i: nat, n: Mode)
    requires UniqueLetters(modes) && i < |modes| && n.letter == modes[i].letter
    ensures var r := modes[i := n];
      && UniqueLetters(r) && n in r
      && (forall m | m in modes && m != modes[i] :: m in r)
      && (forall m | m in r :: m == n || (m in modes && m != modes[i]))
  {
    var r := modes[i := n];
    assert modes[i] in modes && r[i] in r;
    forall m | m in modes && m != modes[i] ensures m in r {
      var k :| 0 <= k < |modes| && modes[k] == m;
      assert r[k] == m;
    }
    forall m | m in r && m != n ensures m in modes && m != modes[i] {
      var k :| 0 <= k < |r| && r[k] == m;
      assert modes[k] == m;
    }
  }

  lemma WithoutIs(modes: seq<Mode>, i: nat)
    requires UniqueLetters(modes) && i < |modes|
    ensures var r := Without(modes, i);
      && UniqueLetters(r)
      && (forall m | m in modes && m != modes[i] :: m in r)
      && (forall m | m in r :: m in modes && m.letter != modes[i].letter)
  {
    Seqs.CutOutIs(modes, i);
    var r := Without(modes, i);
    assert forall k | 0 <= k < |r| :: r[k] == modes[if k < i then k else k + 1];
  }

  // ---------------------------------------------------------------------
  // Registration.

  lemma EnterOk(s: State, n: Mode)
    requires Ok(s) && n.letter != NUL && ModeOk(n) && !n.unloaded
    requires forall m | m in s.modes ::
      m.letter != n.letter && (m.kind == NORMAL && n.kind == NORMAL ==> m.bit != n.bit)
    requires TakesSlot(n) ==> n.paramSlot < MAXPARAMMODES && s.paramTable[n.paramSlot].None?
    ensures Ok(Enter(s, n)) && (ChansOk(s.channels, s.modes) ==> Valid(Enter(s, n)))
    ensures Step(View(s.modes), Register(n.letter, SlotView(n).id), View(Enter(s, n).modes))
  {
    hide InRange, Inserted, UniqueLetters, View, SlotsOk, Step, SlotView, Position, ChansOk;
    var i := Position(s.modes, n.letter);
    InsertIs(s.modes, i, n);
    EnterSlots(s, n);
    EnterView(s.modes, i, n);
    if ChansOk(s.channels, s.modes) {
      InsertKeepsChans(s.channels, s.modes, i, n);
    }
  }

  lemma EnterSlots(s: State, n: Mode)
    requires Ok(s) && n.letter != NUL
    requires forall m | m in s.modes :: m.letter != n.letter
    requires TakesSlot(n) ==> n.paramSlot < MAXPARAMMODES && s.paramTable[n.paramSlot].None?
    ensures SlotsOk(Enter(s, n))
  {
    hide InRange, Inserted, UniqueLetters, ModeOk, Position;
    InsertIs(s.modes, Position(s.modes, n.letter), n);
  }

  lemma EnterView(modes: seq<Mode>, i: nat, n: Mode)
    requires ModesOk(modes) && i <= |modes| && n.letter != NUL && ModeOk(n) && !n.unloaded
    requires forall m | m in modes :: m.letter != n.letter && (m.kind == NORMAL && n.kind == NORMAL ==> m.bit != n.bit)
    ensures UniqueLetters(Inserted(modes, i, n))
    ensures Step(View(modes), Register(n.letter, SlotView(n).id), View(Inserted(modes, i, n)))
  {
    hide InRange, Inserted, UniqueLetters, View;
    InsertIs(modes, i, n);
    var v, v' := View(modes), View(Inserted(modes, i, n));
    assert forall c | c in v :: c in v' && v'[c] == v[c];
    assert v' == v[n.letter := SlotView(n)];
  }

  /** Marking or reviving entry i: nothing but the flag changes for the registry. */
  lemma ReplaceOk(s: State, i: nat, n: Mode)
    requires Ok(s) && i < |s.modes| && ModeOk(n)
    requires var m := s.modes[i];
      && n.letter == m.letter && n.kind == m.kind && n.bit == m.bit && n.paramSlot == m.paramSlot
      && (n.kind == MEMBER || n.paracount == m.paracount)
    ensures Ok(s.(modes := s.modes[i := n]))
    ensures View(s.modes[i := n]) == View(s.modes)[n.letter := SlotView(n)]
    ensures n.letter in View(s.modes) && View(s.modes)[n.letter] == SlotView(s.modes[i])
  {
    hide InRange, UniqueLetters, View, SlotsOk;
    ReplaceIs(s.modes, i, n);
    assert s.modes[i] in s.modes;
    ReplaceSlots(s, i, n);
    ReplaceView(s.modes, i, n);
  }

  lemma ReplaceSlots(s: State, i: nat, n: Mode)
    requires Ok(s) && i < |s.modes|
    requires var m := s.modes[i];
      && n.letter == m.letter && n.kind == m.kind && n.paramSlot == m.paramSlot
      && (n.kind == MEMBER || n.paracount == m.paracount)
    ensures SlotsOk(s.(modes := s.modes[i := n]))
  {
    hide InRange, UniqueLetters, ModeOk;
    ReplaceIs(s.modes, i, n);
    assert s.modes[i] in s.modes;
    var modes' := s.modes[i := n];
    forall j | 0 <= j < MAXPARAMMODES && s.paramTable[j].Some?
      ensures exists m :: m in modes' && TakesSlot(m) && m.letter == s.paramTable[j].value && m.paramSlot == j
    {
      var m :| m in s.modes && TakesSlot(m) && m.letter == s.paramTable[j].value && m.paramSlot == j;
      assert (if m == s.modes[i] then n else m) in modes';
    }
  }

  lemma ReplaceView(modes: seq<Mode>, i: nat, n: Mode)
    requires UniqueLetters(modes) && i < |modes| && n.letter == modes[i].letter
    ensures UniqueLetters(modes[i := n])
    ensures View(modes[i := n]) == View(modes)[n.letter := SlotView(n)]
  {
    hide UniqueLetters, View;
    ReplaceIs(modes, i, n);
    assert modes[i] in modes;
    var v, v' := View(modes), View(modes[i := n]);
    assert forall c | c in v :: c in v' && (c != n.letter ==> v'[c] == v[c]);
    assert forall c | c in v' :: c in v;
  }

  lemma InsertKeepsChans(cs: seq<Chan>, modes: seq<Mode>, i: nat, n: Mode)
    requires ChansOk(cs, modes) && UniqueLetters(modes) && i <= |modes| && n.letter != NUL
    requires forall m | m in modes :: m.letter != n.letter
    requires n.kind == NORMAL ==> forall m | m in modes && m.kind == NORMAL :: m.bit != n.bit
    ensures ChansOk(cs, Inserted(modes, i, n))
  {
    hide ChanOk, Inserted, UniqueLetters;
    InsertIs(modes, i, n);
    forall k | 0 <= k < |cs|
      ensures ChanOk(cs[k], Inserted(modes, i, n))
    {
      InsertKeepsChan(cs[k], modes, n, Inserted(modes, i, n));
    }
  }

  lemma ReplaceKeepsChans(cs: seq<Chan>, modes: seq<Mode>, i: nat, n: Mode)
    requires ChansOk(cs, modes) && UniqueLetters(modes) && i < |modes| && n.letter == modes[i].letter
    requires var m := modes[i];
      n.kind == m.kind && n.bit == m.bit && n.paracount == m.paracount && n.paramSlot == m.paramSlot
    ensures ChansOk(cs, modes[i := n])
  {
    hide ChanOk, UniqueLetters;
    ReplaceIs(modes, i, n);
    assert modes[i] in modes;
    forall k | 0 <= k < |cs|
      ensures ChanOk(cs[k], modes[i := n])
    {
      ReplaceKeepsChan(cs[k], modes, modes[i], n, modes[i := n]);
    }
  }

  /** A new letter is entered. */
  lemma EnterNew(s: State, req: Request)
    requires Valid(s) && Find(s.modes, req.letter) == |s.modes| && Allowed(s, req)
    ensures Valid(Registered(s, req).0)
    ensures Step(TableOf(s), OpOf(s, AddCommand(req)), TableOf(Registered(s, req).0))
  {
    hide UniqueLetters, InRange, View, ChansOk, Find, FreeBit, Step, Enter, BitsUnique;
    assert forall m | m in s.modes :: m.letter != req.letter;
    if req.kind == MEMBER {
      if !LacksInfo(req) {
        EnterOk(s, Filled(req, 0, 0));
      } else {
        RejectIs(TableOf(s));
      }
    } else {
      var bit := FreeBit(UsedBits(s.modes), 0, BIT_LIMIT);
      FreeBitIs(UsedBits(s.modes), 0, BIT_LIMIT);
      if bit != 0 {
        assert forall m | m in s.modes && m.kind == NORMAL :: m.bit in UsedBits(s.modes);
        EnterOk(s, NewNormal(s, req, bit));
        assert Registered(s, req).0 == Enter(s, NewNormal(s, req, bit));
      } else {
        RejectIs(TableOf(s));
      }
    }
  }

  /** The record of a new normal mode. */
  function NewNormal(s: State, req: Request, bit: nat): Mode {
    if req.paracount != 1 || |s.paramTable| <= MAXPARAMMODES then Filled(req, bit, 0)
    else if FreeSlot(s.paramTable, 0) == MAXPARAMMODES then Bare(req.letter, bit)
    else Filled(req, bit, FreeSlot(s.paramTable, 0))
  }

  lemma RejectIs(v: map<char, Slot>)
    ensures Step(v, Reject, v)
  {
  }

  /** A new letter is entered that cannot be one, or has too many parameters. */
  lemma EnterWrong(s: State, req: Request)
    requires Valid(s) && Find(s.modes, req.letter) == |s.modes| && !Allowed(s, req)
    ensures !Valid(Registered(s, req).0)
  {
    hide InRange, View, ChansOk, Find, FreeBit, BitsUnique, SlotsOk;
    var n := if req.kind == MEMBER then Filled(req, 0, 0)
             else NewNormal(s, req, FreeBit(UsedBits(s.modes), 0, BIT_LIMIT));
    Seqs.InsertAtHas(s.modes, Position(s.modes, n.letter), n);
    assert n in Registered(s, req).0.modes;
    assert n.letter == NUL || !ModeOk(n);
  }

  // ---------------------------------------------------------------------
  // Revival.

  /** A revival keeps the tables in order if and only if kind and parameters allow it. */
  lemma RevivalExact(s: State, i: nat, req: Request)
    requires Ok(s) && i < |s.modes| && req.letter == s.modes[i].letter
    ensures Ok(Revival(s, i, req)) <==> Revivable(s, s.modes[i], req)
  {
    hide UniqueLetters, InRange, View;
    var m := s.modes[i];
    assert m in s.modes;
    var n := Filled(req, m.bit, m.paramSlot);
    ReplaceIs(s.modes, i, n);
    if Revivable(s, m, req) {
      if req.kind == MEMBER || req.paracount == m.paracount {
        RevivalSame(s, i, req);
      } else {
        RevivalTakesSlot(s, i, req);
      }
    } else {
      RevivalBreaks(s, i, req);
    }
  }

  lemma RevivalSame(s: State, i: nat, req: Request)
    requires Ok(s) && i < |s.modes| && req.letter == s.modes[i].letter && Revivable(s, s.modes[i], req)
    requires req.kind == MEMBER || req.paracount == s.modes[i].paracount
    ensures Ok(Revival(s, i, req))
  {
    hide UniqueLetters, InRange, View;
    var m := s.modes[i];
    assert m in s.modes;
    var n := Filled(req, m.bit, m.paramSlot);
    ReplaceOk(s, i, n);
    if TakesSlot(m) {
      ReviveKeepsSlots(s, m);
    }
  }

  lemma RevivalTakesSlot(s: State, i: nat, req: Request)
    requires Ok(s) && i < |s.modes| && req.letter == s.modes[i].letter && s.modes[i].kind == NORMAL == req.kind
    requires s.modes[i].paracount == 0 && req.paracount == 1 && s.paramTable[0].None?
    ensures Ok(Revival(s, i, req))
  {
    hide UniqueLetters, InRange, View;
    var m := s.modes[i];
    assert m in s.modes;
    var n := Filled(req, m.bit, m.paramSlot);
    ReplaceIs(s.modes, i, n);
    var t := Revival(s, i, req);
    DifferentLetters(s.modes, m);
    forall k | 0 <= k < MAXPARAMMODES && t.paramTable[k].Some?
      ensures exists x :: x in t.modes && TakesSlot(x) && x.letter == t.paramTable[k].value && x.paramSlot == k
    {
      if k != 0 {
        var x :| x in s.modes && TakesSlot(x) && x.letter == s.paramTable[k].value && x.paramSlot == k;
        assert x in t.modes;
      } else {
        assert n in t.modes;
      }
    }
  }

  lemma DifferentLetters(modes: seq<Mode>, m: Mode)
    requires UniqueLetters(modes) && m in modes
    ensures forall x | x in modes && x != m :: x.letter != m.letter
  {
    forall x | x in modes && x != m
      ensures x.letter != m.letter
    {
      HandlerIs(modes, x);
      HandlerIs(modes, m);
    }
  }

  lemma RevivalBreaks(s: State, i: nat, req: Request)
    requires Ok(s) && i < |s.modes| && req.letter == s.modes[i].letter
    requires !Revivable(s, s.modes[i], req)
    ensures !Ok(Revival(s, i, req))
  {
    hide UniqueLetters, View;
    var m := s.modes[i];
    assert m in s.modes;
    var n := Filled(req, m.bit, m.paramSlot);
    ReplaceIs(s.modes, i, n);
    var t := Revival(s, i, req);
    assert n in t.modes;
    if ModeOk(n) {
      BitsPositive();
      DifferentLetters(s.modes, m);
      if TakesSlot(m) {
        assert t.paramTable[m.paramSlot] == Some(m.letter);
        assert forall x | x in t.modes && TakesSlot(x) :: x in s.modes && x != m;
      } else {
        var o :| o in s.modes && TakesSlot(o) && o.letter == s.paramTable[0].value && o.paramSlot == 0;
        assert o in t.modes;
      }
    }
  }

  lemma BitsPositive()
    ensures forall b: nat | InRange(b, 0, BIT_LIMIT) :: b != 0
  {
  }

  /** The channels are in order after it if and only if those that have the mode set have a parameter for
      it, when it takes one. */
  lemma RevivalChannels(cs: seq<Chan>, s: State, i: nat, req: Request)
    requires Ok(s) && ChansOk(cs, s.modes) && i < |s.modes| && req.letter == s.modes[i].letter
    requires Revivable(s, s.modes[i], req)
    ensures ChansOk(cs, Revival(s, i, req).modes) <==> SetWithParam(cs, s.modes[i], req)
  {
    var m := s.modes[i];
    assert m in s.modes && ModeOk(m);
    hide UniqueLetters, View, InRange, ModeOk, SlotsOk;
    var n := Filled(req, m.bit, m.paramSlot);
    ReplaceIs(s.modes, i, n);
    forall k | 0 <= k < |cs|
      ensures ChanOk(cs[k], s.modes[i := n]) <==>
        !(!TakesSlot(m) && TakesSlot(n) && m.bit in cs[k].bits && !Points(cs[k], 0))
    {
      RevivalChannel(cs[k], s.modes, m, n, s.modes[i := n]);
    }
    hide ChanOk;
    if ChansOk(cs, s.modes[i := n]) {
      assert forall k | 0 <= k < |cs| :: ChanOk(cs[k], s.modes[i := n]);
    }
  }

  lemma RevivalChannel(c: Chan, modes: seq<Mode>, m: Mode, n: Mode, after: seq<Mode>)
    requires ChanOk(c, modes) && m in modes && n in after
    requires n.kind == m.kind && n.bit == m.bit && n.paramSlot == m.paramSlot
    requires n.kind == MEMBER || n.paracount == m.paracount || (!TakesSlot(m) && TakesSlot(n) && m.paramSlot == 0)
    requires (forall x | x in modes && x != m :: x in after) && forall x | x in after :: x == n || x in modes
    ensures ChanOk(c, after) <==> !(!TakesSlot(m) && TakesSlot(n) && m.bit in c.bits && !Points(c, 0))
  {
    forall b | BitOwned(modes, b)
      ensures BitOwned(after, b)
    {
      var x :| x in modes && x.kind == NORMAL && x.bit == b;
      assert (if x == m then n else x) in after;
    }
    forall k: nat | SlotOwned(modes, k)
      ensures SlotOwned(after, k)
    {
      var x :| x in modes && TakesSlot(x) && x.paramSlot == k;
      assert (if x == m then n else x) in after;
    }
    hide BitOwned, SlotOwned;
  }

  lemma ReviveStep(s: State, i: nat, req: Request)
    requires Ok(s) && i < |s.modes| && req.letter == s.modes[i].letter && s.modes[i].unloaded
    requires Revivable(s, s.modes[i], req)
    ensures Step(TableOf(s), Revive(req.letter), TableOf(Revival(s, i, req)))
  {
    hide View, UniqueLetters, InRange, SlotsOk;
    var m := s.modes[i];
    assert m in s.modes;
    ReplaceView(s.modes, i, Filled(req, m.bit, m.paramSlot));
  }

  /** Entering the slot of a mode again changes neither table. */
  lemma ReviveKeepsSlots(s: State, m: Mode)
    requires Ok(s) && m in s.modes && TakesSlot(m)
    ensures m.paramSlot < |s.paramTable| && s.paramTable[m.paramSlot := Some(m.letter)] == s.paramTable
    ensures s.slotOf[m.letter := m.paramSlot] == s.slotOf
  {
  }

  /** CmodeAdd keeps everything in order if and only if the request is allowed. */
  lemma AddExact(s: State, req: Request)
    requires Valid(s)
    ensures Valid(Registered(s, req).0) <==> Allowed(s, req)
  {
    hide Ok, ChansOk, Revivable, SetWithParam, Revival;
    var i := Find(s.modes, req.letter);
    if i < |s.modes| {
      if s.modes[i].unloaded {
        RevivalExact(s, i, req);
        if Revivable(s, s.modes[i], req) {
          RevivalChannels(s.channels, s, i, req);
          RevivalKeepsChannels(s, i, req);
        }
      }
    } else if Allowed(s, req) {
      hide Valid, Registered;
      EnterNew(s, req);
    } else {
      hide Valid, Registered;
      EnterWrong(s, req);
    }
  }

  lemma RevivalKeepsChannels(s: State, i: nat, req: Request)
    requires i < |s.modes|
    ensures Revival(s, i, req).channels == s.channels
  {
  }

  lemma AddStep(s: State, req: Request)
    requires Valid(s) && Allowed(s, req)
    ensures GoodStep(s, AddCommand(req))
  {
    AddExact(s, req);
    AddKeepsChannels(s, req);
    hide Valid, View, Revival, Enter, Step, Registered;
    var i := Find(s.modes, req.letter);
    if i < |s.modes| {
      if s.modes[i].unloaded {
        AddRevives(s, i, req);
      } else {
        AddNothing(s, i, req);
      }
    } else {
      EnterNew(s, req);
    }
  }

  lemma AddRevives(s: State, i: nat, req: Request)
    requires Valid(s) && Allowed(s, req) && i == Find(s.modes, req.letter) < |s.modes| && s.modes[i].unloaded
    ensures Step(TableOf(s), Revive(req.letter), TableOf(Registered(s, req).0))
  {
    hide View, Step, Revival, Ok, ChansOk, Revivable, SetWithParam;
    ReviveStep(s, i, req);
  }

  lemma AddNothing(s: State, i: nat, req: Request)
    requires i == Find(s.modes, req.letter) < |s.modes| && !s.modes[i].unloaded
    ensures Registered(s, req).0 == s && Step(TableOf(s), Reject, TableOf(s))
  {
    hide View;
  }

  lemma AddKeepsChannels(s: State, req: Request)
    ensures Registered(s, req).0.channels == s.channels
  {
    hide Find, FreeBit, FreeSlot, Position, Inserted;
  }

  // ---------------------------------------------------------------------
  // Removal.

  ghost predicate GoodStep(s: State, x: Command) {
    && Valid(After(s, x))
    && Step(TableOf(s), OpOf(s, x), TableOf(After(s, x)))
    && (NoStale(s) ==> (NoStale(After(s, x)) <==> !LeavesStale(s, x)))
  }

  lemma StepIsValid(s: State, x: Command)
    requires GoodStep(s, x)
    ensures Valid(After(s, x))
  {
  }

  /** Removal of one mode. */
  lemma RemovedIs(s: State, i: nat)
    requires Valid(s) && i < |s.modes|
    ensures Valid(Removed(s, i)) && Step(TableOf(s), Op.Remove(s.modes[i].letter), TableOf(Removed(s, i)))
    ensures NoStale(Removed(s, i)) <==> NoStale(s) && !HasStructs(s, s.modes[i])
    ensures forall m | m in Removed(s, i).modes :: HasStructs(Removed(s, i), m) <==> HasStructs(s, m)
  {
    var cm := s.modes[i];
    assert cm in s.modes && ModeOk(cm);
    hide InRange, View, UniqueLetters, BitsUnique, Without, AllAfterCommit, AllClean, PointedTo, Step, ModeOk, SlotsOk;
    WithoutIs(s.modes, i);
    RemovedSlots(s, i);
    LeaveView(s.modes, i);
    RemovedChans(s, i);
    CommitLeavesStale(s.channels, cm);
    forall m | m in Without(s.modes, i)
      ensures HasStructs(Removed(s, i), m) <==> HasStructs(s, m)
    {
      CommitKeepsPointers(s.channels, cm, m.paramSlot);
    }
    LeaveUnique(s.modes, i);
  }

  lemma LeaveUnique(modes: seq<Mode>, i: nat)
    requires ModesOk(modes) && i < |modes|
    ensures ModesOk(Without(modes, i))
  {
    hide InRange, Without;
    WithoutIs(modes, i);
  }

  lemma RemovedSlots(s: State, i: nat)
    requires Ok(s) && i < |s.modes|
    ensures SlotsOk(Removed(s, i))
  {
    var gone := s.modes[i];
    assert gone in s.modes && ModeOk(gone);
    hide InRange, Without, UniqueLetters, ModeOk, AllAfterCommit;
    WithoutIs(s.modes, i);
    var s' := Removed(s, i);
    forall m | m in s'.modes && TakesSlot(m)
      ensures m.paramSlot < MAXPARAMMODES && s'.paramTable[m.paramSlot] == Some(m.letter)
        && m.letter in s'.slotOf && s'.slotOf[m.letter] == m.paramSlot
    {
      assert m in s.modes && m.letter != gone.letter;
    }
  }

  lemma RemovedChans(s: State, i: nat)
    requires Valid(s) && i < |s.modes|
    ensures ChansOk(AllAfterCommit(s.channels, s.modes[i]), Without(s.modes, i))
  {
    WithoutIs(s.modes, i);
    SlotsAreUnique(s);
    assert s.modes[i] in s.modes && ModeOk(s.modes[i]);
    hide ChanOk, UniqueLetters, AfterCommit, Without, SlotsOk, SlotsUnique, BitsUnique, ModeOk;
    forall k | 0 <= k < |s.channels|
      ensures ChanOk(AfterCommit(s.channels[k], s.modes[i]), Without(s.modes, i))
    {
      CommitKeepsChan(s.channels[k], s.modes, s.modes[i], Without(s.modes, i));
    }
  }

  lemma LeaveView(modes: seq<Mode>, i: nat)
    requires UniqueLetters(modes) && i < |modes|
    ensures UniqueLetters(Without(modes, i))
    ensures Step(View(modes), Remove(modes[i].letter), View(Without(modes, i)))
  {
    hide Without, UniqueLetters, View;
    WithoutIs(modes, i);
    assert modes[i] in modes;
    var v, v' := View(modes), View(Without(modes, i));
    assert forall c | c in v' :: c in v && c != modes[i].letter && v'[c] == v[c];
    assert forall c | c in v && c != modes[i].letter :: c in v';
  }

  lemma SlotsAreUnique(s: State)
    requires Ok(s)
    ensures SlotsUnique(s.modes)
  {
    hide InRange, ModeOk;
    forall a, b | a in s.modes && b in s.modes && TakesSlot(a) && TakesSlot(b) && a.paramSlot == b.paramSlot
      ensures a == b
    {
      HandlerIs(s.modes, a);
      HandlerIs(s.modes, b);
    }
  }

  lemma DelStep(s: State, i: nat, rehashing: bool)
    requires Valid(s)
    ensures GoodStep(s, DelCommand(i, rehashing))
  {
    if i < |s.modes| {
      if rehashing {
        MarkStep(s, i);
      } else {
        hide Valid, NoStale, HasStructs, Removed, Step;
        RemovedIs(s, i);
      }
    } else {
      hide Valid, View;
    }
  }

  lemma MarkStep(s: State, i: nat)
    requires Valid(s) && i < |s.modes|
    ensures GoodStep(s, DelCommand(i, true))
  {
    hide UniqueLetters, InRange, View, SlotsOk, ChansOk, AllClean, HasStructs, Removed, BitsUnique;
    var n := s.modes[i].(unloaded := true);
    assert s.modes[i] in s.modes;
    ReplaceOk(s, i, n);
    ReplaceKeepsChans(s.channels, s.modes, i, n);
  }

  /** The removal of all marked modes, when none before position i is marked. */
  lemma {:induction false} UnloadIs(s: State, i: nat)
    requires Valid(s) && i <= |s.modes| && forall k | 0 <= k < i :: !s.modes[k].unloaded
    ensures Valid(Unloaded(s, i)) && TableOf(Unloaded(s, i)) == Committed(TableOf(s))
    ensures NoStale(Unloaded(s, i)) <==> NoStale(s) && !MarkedHasStructs(s)
    decreases |s.modes| - i
  {
    hide Valid, Removed, NoStale, HasStructs;
    if i >= |s.modes| {
      NoneMarked(s);
    } else if s.modes[i].unloaded {
      RemovedIs(s, i);
      RemovedPrefix(s, i);
      UnloadIs(Removed(s, i), i);
      MarkedRemoved(s, i);
    } else {
      UnloadIs(s, i + 1);
    }
  }

  lemma RemovedPrefix(s: State, i: nat)
    requires i < |s.modes|
    ensures Removed(s, i).modes == Without(s.modes, i) && |Removed(s, i).modes| == |s.modes| - 1
    ensures forall k | 0 <= k < i :: Removed(s, i).modes[k] == s.modes[k]
  {
    hide AllAfterCommit;
  }

  lemma NoneMarked(s: State)
    requires Valid(s) && forall k | 0 <= k < |s.modes| :: !s.modes[k].unloaded
    ensures TableOf(s) == Committed(TableOf(s)) && !MarkedHasStructs(s)
  {
    hide InRange, SlotsOk, ChansOk, ModeOk, UniqueLetters, View, HasStructs;
    var v := View(s.modes);
    forall c | c in v
      ensures !v[c].marked
    {
      var m :| m in s.modes && m.letter == c;
    }
  }

  lemma MarkedRemoved(s: State, i: nat)
    requires Valid(s) && i < |s.modes| && s.modes[i].unloaded
    requires Step(TableOf(s), Op.Remove(s.modes[i].letter), TableOf(Removed(s, i)))
    requires forall m | m in Removed(s, i).modes :: HasStructs(Removed(s, i), m) <==> HasStructs(s, m)
    ensures Committed(TableOf(Removed(s, i))) == Committed(TableOf(s))
    ensures MarkedHasStructs(s) <==> MarkedHasStructs(Removed(s, i)) || HasStructs(s, s.modes[i])
  {
    hide Removed, HasStructs, View, InRange, SlotsOk, ChansOk, ModeOk;
    assert s.modes[i] in s.modes;
    CommitsNothingNew(TableOf(s), s.modes[i].letter, TableOf(Removed(s, i)));
    WithoutIs(s.modes, i);
    RemovedPrefix(s, i);
    hide UniqueLetters, Without, Step, Committed;
    if MarkedHasStructs(s) && !HasStructs(s, s.modes[i]) {
      var x :| x in s.modes && x.unloaded && HasStructs(s, x);
      assert x in Removed(s, i).modes;
    }
  }

  lemma CommitsNothingNew(v: map<char, Slot>, c: char, v': map<char, Slot>)
    requires Step(v, Op.Remove(c), v') && v[c].marked
    ensures Committed(v') == Committed(v)
  {
  }

  lemma UnloadStep(s: State)
    requires Valid(s)
    ensures GoodStep(s, UnloadCommand)
  {
    hide Valid, Unloaded, NoStale, MarkedHasStructs;
    UnloadIs(s, 0);
  }

  // ---------------------------------------------------------------------
  // Changes of the channels.

  lemma ChannelStep(s: State, x: Command)
    requires Valid(s) && !x.AddCommand? && !x.DelCommand? && !x.UnloadCommand?
    ensures GoodStep(s, x)
  {
    hide Ok, View, ChanOk, Clean, SetOn, UnsetOn, EmptyChan, NormalMode, WithMembers;
    match x
    case ChannelCommand =>
      ChannelsDoNotMatter(s, s.channels + [EmptyChan()]);
      EmptyChanOk(s.modes);
      AppendClean(s.channels, EmptyChan());
    case DestroyCommand(k) =>
      if k < |s.channels| {
        var ds := Seqs.CutOut(s.channels, k);
        ChannelsDoNotMatter(s, ds);
        assert forall j | 0 <= j < |ds| :: ds[j] == s.channels[if j < k then j else j + 1];
      }
    case SetCommand(k, letter, text) =>
      var h := NormalMode(s.modes, letter);
      if k < |s.channels| && h.Some? {
        ModeIsOk(s, h.value);
        SetKeepsChan(s.channels[k], s.modes, h.value, text);
        ReplaceChannel(s, k, SetOn(s.channels[k], h.value, text));
      }
    case UnsetCommand(k, letter, kept) =>
      var h := NormalMode(s.modes, letter);
      if k < |s.channels| && h.Some? {
        ModeIsOk(s, h.value);
        UnsetKeepsChan(s.channels[k], s.modes, h.value, kept);
        ReplaceChannel(s, k, UnsetOn(s.channels[k], h.value, kept));
      }
    case MemberCommand(k, change) =>
      if k < |s.channels| {
        var c := s.channels[k];
        var d := c.(members := WithMembers(c.members, s.modes, change));
        MembersDoNotMatter(c, d, s.modes);
        ReplaceChannel(s, k, d);
      }
  }

  lemma ChannelsDoNotMatter(s: State, cs: seq<Chan>)
    ensures Ok(s.(channels := cs)) <==> Ok(s)
  {
    hide ModesOk;
  }

  lemma ModeIsOk(s: State, m: Mode)
    requires Ok(s) && m in s.modes
    ensures BitsUnique(s.modes) && SlotsUnique(s.modes) && (TakesSlot(m) ==> m.paramSlot < MAXPARAMMODES)
  {
    SlotsAreUnique(s);
  }

  lemma ReplaceChannel(s: State, k: nat, c: Chan)
    requires Valid(s) && k < |s.channels| && ChanOk(c, s.modes) && (Clean(s.channels[k]) ==> Clean(c))
    ensures Valid(WithChannel(s, k, c)) && (NoStale(s) ==> NoStale(WithChannel(s, k, c)))
  {
    hide Ok, ChanOk, Clean;
    ChannelsDoNotMatter(s, s.channels[k := c]);
  }

  lemma AnyStep(s: State, x: Command)
    requires Valid(s) && !Disallowed(s, x)
    ensures GoodStep(s, x)
  {
    hide GoodStep, Valid, Allowed;
    match x
    case AddCommand(req) => AddStep(s, req);
    case DelCommand(i, rehashing) => DelStep(s, i, rehashing);
    case UnloadCommand => UnloadStep(s);
    case _ => ChannelStep(s, x);
  }

  lemma AllSteps()
    ensures Keeps(Orderly, Valid) && Implements(Orderly, Valid, TableOf, OpOf)
    ensures Exact(Orderly, Valid, NoStale, LeavesStale)
  {
    hide Valid, Step, NoStale, LeavesStale, After, OpOf, TableOf, Allowed;
    forall s, x | Valid(s)
      ensures Valid(Orderly(s, x)) && Step(TableOf(s), OpOf(s, x), TableOf(Orderly(s, x)))
      ensures NoStale(s) ==> (NoStale(Orderly(s, x)) <==> !LeavesStale(s, x))
    {
      if Disallowed(s, x) {
        SkipStep(s, x);
      } else {
        AnyStep(s, x);
      }
    }
    hide Orderly;
  }

  lemma SkipStep(s: State, x: Command)
    requires Disallowed(s, x)
    ensures Step(TableOf(s), OpOf(s, x), TableOf(s)) && !LeavesStale(s, x)
  {
    hide TableOf, Allowed;
    RejectIs(TableOf(s));
  }

  // ---------------------------------------------------------------------
  // Runs.

  predicate Any(s: State) {
    true
  }

  /** All states of a run are valid if and only if every registration on the way is allowed. */
  lemma ValidInRuns(s: State, xs: seq<Command>)
    requires Valid(s)
    ensures Always(After, Valid, s, xs) <==> Never(After, Disallowed, s, xs)
  {
    hide Valid, Registered, Allowed;
    forall s, x | Any(s) && Valid(s)
      ensures Valid(After(s, x)) <==> !Disallowed(s, x)
    {
      if x.AddCommand? {
        AddExact(s, x.req);
      } else {
        AnyStep(s, x);
        StepIsValid(s, x);
      }
    }
    hide After, Disallowed, Always, Never;
    Throughout(After, Any, Valid, Disallowed, s, xs);
  }

  /** Such a run is one of the machine without registrations that are not allowed. */
  lemma OrderlyRun(s: State, xs: seq<Command>)
    requires Never(After, Disallowed, s, xs)
    ensures forall k: nat | k <= |xs| :: At(Orderly, s, xs, k) == At(After, s, xs, k)
  {
    hide After, Disallowed;
    SameRuns(After, Orderly, Disallowed, s, xs);
  }

  /** Every such run is a run of the registry, through valid states. */
  lemma RunsAreRuns(s: State, xs: seq<Command>)
    requires Valid(s) && Never(After, Disallowed, s, xs)
    ensures forall k: nat | k <= |xs| :: Valid(At(After, s, xs, k))
    ensures IsRun(Tables(After, TableOf, s, xs), Ops(After, OpOf, s, xs))
  {
    hide Valid, After, Orderly, OpOf, TableOf, IsRun, Keeps, Implements, Exact, Disallowed, At;
    AllSteps();
    RunIsRun(Orderly, Valid, TableOf, OpOf, s, xs);
    OrderlyRun(s, xs);
    assert Tables(After, TableOf, s, xs) == Tables(Orderly, TableOf, s, xs);
    assert Ops(After, OpOf, s, xs) == Ops(Orderly, OpOf, s, xs);
    ValidInRuns(s, xs);
  }

  /** Without structs that were left behind at the beginning, there never are any if and only if no removal on
      the way leaves one. */
  lemma StaleInRuns(s: State, xs: seq<Command>)
    requires Valid(s) && NoStale(s) && Never(After, Disallowed, s, xs)
    ensures Always(After, NoStale, s, xs) <==> Never(After, LeavesStale, s, xs)
  {
    hide Valid, After, Orderly, NoStale, LeavesStale, Keeps, Implements, Exact, At, Disallowed;
    AllSteps();
    Throughout(Orderly, Valid, NoStale, LeavesStale, s, xs);
    OrderlyRun(s, xs);
  }

  // ---------------------------------------------------------------------
  // Letters that members keep.

  lemma RemovedLetters(s: State, i: nat)
    requires Valid(s) && i < |s.modes|
    ensures NoStaleLetters(Removed(s, i)) <==> NoStaleLetters(s) && !HasTwice(s, s.modes[i])
    ensures forall m | m in Removed(s, i).modes :: HasTwice(Removed(s, i), m) <==> HasTwice(s, m)
  {
    var cm, rest := s.modes[i], Without(s.modes, i);
    WithoutIs(s.modes, i);
    MembersLess(s.modes, i);
    hide Ok, ChansOk, Without, AllAfterCommit, AllKnown, HeldTwice, OneLess;
    CommitLeavesLetters(s.channels, s.modes, cm, rest);
    forall m | m in rest
      ensures HasTwice(Removed(s, i), m) <==> HasTwice(s, m)
    {
      CommitKeepsCounts(s.channels, cm, m.letter);
    }
  }

  lemma MembersLess(modes: seq<Mode>, i: nat)
    requires UniqueLetters(modes) && i < |modes|
    ensures OneLess(modes, modes[i], Without(modes, i))
  {
    hide UniqueLetters, Without;
    WithoutIs(modes, i);
    assert modes[i] in modes;
  }

  lemma {:induction false} UnloadLetters(s: State, i: nat)
    requires Valid(s) && i <= |s.modes| && forall k | 0 <= k < i :: !s.modes[k].unloaded
    ensures NoStaleLetters(Unloaded(s, i)) <==> NoStaleLetters(s) && !MarkedHasTwice(s)
    decreases |s.modes| - i
  {
    hide Valid, Removed, NoStaleLetters, HasTwice;
    if i >= |s.modes| {
      NoneMarkedTwice(s);
    } else if s.modes[i].unloaded {
      RemovedIs(s, i);
      RemovedLetters(s, i);
      RemovedPrefix(s, i);
      UnloadLetters(Removed(s, i), i);
      MarkedTwiceRemoved(s, i);
    } else {
      UnloadLetters(s, i + 1);
    }
  }

  lemma NoneMarkedTwice(s: State)
    requires forall k | 0 <= k < |s.modes| :: !s.modes[k].unloaded
    ensures !MarkedHasTwice(s)
  {
  }

  lemma MarkedTwiceRemoved(s: State, i: nat)
    requires Valid(s) && i < |s.modes| && s.modes[i].unloaded
    requires forall m | m in Removed(s, i).modes :: HasTwice(Removed(s, i), m) <==> HasTwice(s, m)
    ensures MarkedHasTwice(s) <==> MarkedHasTwice(Removed(s, i)) || HasTwice(s, s.modes[i])
  {
    hide Removed, HasTwice, InRange, SlotsOk, ChansOk, ModeOk;
    assert s.modes[i] in s.modes;
    WithoutIs(s.modes, i);
    RemovedPrefix(s, i);
    hide UniqueLetters, Without;
    if MarkedHasTwice(s) && !HasTwice(s, s.modes[i]) {
      var x :| x in s.modes && x.unloaded && HasTwice(s, x);
      assert x in Removed(s, i).modes;
    }
  }

  lemma LettersStep(s: State, x: Command)
    requires Valid(s) && NoStaleLetters(s) && !Disallowed(s, x)
    ensures NoStaleLetters(After(s, x)) <==> !LeavesLetters(s, x)
  {
    match x
    case AddCommand(req) =>
      AddKeepsMembers(s, req);
      AddKeepsChannels(s, req);
      hide Valid, Registered;
      MoreKnown(s.channels, s.modes, After(s, x).modes);
    case DelCommand(i, rehashing) =>
      if i < |s.modes| {
        if rehashing {
          SameMembers(s.modes, i, s.modes[i].(unloaded := true));
          hide Valid, IsMemberLetter;
          MoreKnown(s.channels, s.modes, After(s, x).modes);
        } else {
          hide Valid, Removed, NoStaleLetters, HasTwice;
          RemovedLetters(s, i);
        }
      }
    case UnloadCommand =>
      hide Valid, Unloaded, NoStaleLetters, MarkedHasTwice;
      UnloadLetters(s, 0);
    case _ =>
      hide Valid;
      ChannelLetters(s, x);
  }

  lemma SameMembers(modes: seq<Mode>, i: nat, n: Mode)
    requires i < |modes| && n.letter == modes[i].letter && n.kind == modes[i].kind
    ensures forall c | IsMemberLetter(modes, c) :: IsMemberLetter(modes[i := n], c)
  {
    forall c | IsMemberLetter(modes, c)
      ensures IsMemberLetter(modes[i := n], c)
    {
      var k :| 0 <= k < |modes| && modes[k].kind == MEMBER && modes[k].letter == c;
      assert modes[i := n][k] in modes[i := n];
    }
  }

  lemma EnterMembers(s: State, n: Mode)
    ensures forall c | IsMemberLetter(s.modes, c) :: IsMemberLetter(Enter(s, n).modes, c)
  {
    hide Position;
    Seqs.InsertAtHas(s.modes, Position(s.modes, n.letter), n);
    forall c | IsMemberLetter(s.modes, c)
      ensures IsMemberLetter(Enter(s, n).modes, c)
    {
      var m :| m in s.modes && m.kind == MEMBER && m.letter == c;
      assert m in Enter(s, n).modes;
    }
  }

  lemma AddKeepsMembers(s: State, req: Request)
    requires Allowed(s, req)
    ensures forall c | IsMemberLetter(s.modes, c) :: IsMemberLetter(Registered(s, req).0.modes, c)
  {
    hide IsMemberLetter, Enter, FreeBit, FreeSlot, Find;
    var i := Find(s.modes, req.letter);
    if i < |s.modes| {
      if s.modes[i].unloaded {
        SameMembers(s.modes, i, Filled(req, s.modes[i].bit, s.modes[i].paramSlot));
      }
    } else if req.kind == MEMBER {
      EnterMembers(s, Filled(req, 0, 0));
    } else {
      EnterMembers(s, NewNormal(s, req, FreeBit(UsedBits(s.modes), 0, BIT_LIMIT)));
    }
  }

  lemma ChannelLetters(s: State, x: Command)
    requires NoStaleLetters(s) && !x.AddCommand? && !x.DelCommand? && !x.UnloadCommand?
    ensures NoStaleLetters(After(s, x))
  {
    hide LettersKnown, Edited, Adds, Apply, NormalMode;
    match x
    case ChannelCommand =>
      assert forall k | 0 <= k < |s.channels| :: After(s, x).channels[k] == s.channels[k];
    case DestroyCommand(k) =>
      if k < |s.channels| {
        var ds := Seqs.CutOut(s.channels, k);
        assert forall j | 0 <= j < |ds| :: ds[j] == s.channels[if j < k then j else j + 1];
      }
    case SetCommand(k, letter, text) =>
    case UnsetCommand(k, letter, kept) =>
    case MemberCommand(k, change) =>
      if k < |s.channels| {
        assert MembersKnown(s.channels[k].members, s.modes);
        WithMembersKnown(s.channels[k].members, s.modes, change);
      }
  }

  lemma WithMembersKnown(members: seq<string>, modes: seq<Mode>, x: Change)
    requires MembersKnown(members, modes)
    ensures MembersKnown(WithMembers(members, modes, x), modes)
  {
    match x
    case Joins(letters) =>
      EditedKnown(modes, "", Adds(letters));
      hide LettersKnown, Edited, Adds;
    case Edits(j, edit) =>
      if j < |members| {
        assert LettersKnown(members[j], modes);
        ApplyKnown(modes, members[j], edit);
        hide LettersKnown, Apply;
      }
    case Parts(j) =>
      hide LettersKnown;
      if j < |members| {
        var r := Seqs.CutOut(members, j);
        assert forall k | 0 <= k < |r| :: r[k] == members[if k < j then k else k + 1];
      }
  }

  /** Without letters of former modes at the beginning, members never have any if and only if no member mode is
      removed whose letter some member has twice. */
  lemma LettersInRuns(s: State, xs: seq<Command>)
    requires Valid(s) && NoStaleLetters(s) && Never(After, Disallowed, s, xs)
    ensures Always(After, NoStaleLetters, s, xs) <==> Never(After, LeavesLetters, s, xs)
  {
    hide Valid, After, NoStaleLetters, LeavesLetters, Implements, NoStale, LeavesStale, At, Allowed;
    AllSteps();
    forall s, x | Valid(s) && NoStaleLetters(s)
      ensures NoStaleLetters(Orderly(s, x)) <==> !LeavesLetters(s, x)
    {
      if Disallowed(s, x) {
        SkipLetters(s, x);
      } else {
        LettersStep(s, x);
      }
    }
    hide Orderly, Disallowed, Keeps;
    Throughout(Orderly, Valid, NoStaleLetters, LeavesLetters, s, xs);
    OrderlyRun(s, xs);
  }

  lemma SkipLetters(s: State, x: Command)
    requires x.AddCommand?
    ensures !LeavesLetters(s, x)
  {
  }

  ghost predicate SortedList(s: State) {
    Sorted(LettersOf(s.modes))
  }

  ghost predicate NotMixed(s: State) {
    !Mixed(LettersOf(s.modes))
  }

  /** A sorted list stays sorted as long as its letters are not mixed. */
  lemma StepSorts(s: State, x: Command)
    requires SortedList(s) && NotMixed(After(s, x))
    ensures SortedList(After(s, x))
  {
    hide Mixed, Sorted, Find, FreeBit, FreeSlot, SortedPosition;
    match x
    case AddCommand(req) => AddSorts(s, req);
    case DelCommand(i, rehashing) =>
      if i < |s.modes| {
        if rehashing {
          SameLetters(s.modes, i, s.modes[i].(unloaded := true));
        } else {
          RemovalSorts(s, i);
        }
      }
    case UnloadCommand => UnloadSorts(s, 0);
    case _ =>
  }

  lemma AddSorts(s: State, req: Request)
    requires SortedList(s) && !Mixed(LettersOf(Registered(s, req).0.modes))
    ensures SortedList(Registered(s, req).0)
  {
    var i := Find(s.modes, req.letter);
    hide Mixed, Sorted, FreeBit, FreeSlot, Enter, LettersOf, Find;
    if i < |s.modes| {
      SameLetters(s.modes, i, Filled(req, s.modes[i].bit, s.modes[i].paramSlot));
    } else if req.kind == MEMBER {
      EnterSorts(s, Filled(req, 0, 0));
    } else {
      EnterSorts(s, NewNormal(s, req, FreeBit(UsedBits(s.modes), 0, BIT_LIMIT)));
    }
  }

  lemma SameLetters(modes: seq<Mode>, i: nat, n: Mode)
    requires i < |modes| && n.letter == modes[i].letter
    ensures LettersOf(modes[i := n]) == LettersOf(modes)
  {
  }

  lemma EnterSorts(s: State, n: Mode)
    requires SortedList(s) && forall k | 0 <= k < |s.modes| :: s.modes[k].letter != n.letter
    ensures SortedList(Enter(s, n)) || Mixed(LettersOf(Enter(s, n).modes))
  {
    hide Mixed, Sorted, SortedPosition;
    var letters := LettersOf(s.modes);
    SortedOrMixed(letters, n.letter);
    assert LettersOf(Enter(s, n).modes) == Seqs.InsertAt(letters, SortedPosition(letters, n.letter), n.letter);
  }

  lemma RemovalSorts(s: State, i: nat)
    requires i < |s.modes| && SortedList(s)
    ensures SortedList(Removed(s, i))
  {
    hide Sorted, AllAfterCommit;
    RemoveKeepsSorted(LettersOf(s.modes), i);
    assert LettersOf(Without(s.modes, i)) == Seqs.CutOut(LettersOf(s.modes), i);
  }

  lemma {:induction false} UnloadSorts(s: State, i: nat)
    requires SortedList(s)
    ensures SortedList(Unloaded(s, i))
    decreases |s.modes| - i
  {
    hide SortedList, Removed;
    if i < |s.modes| {
      if s.modes[i].unloaded {
        RemovalSorts(s, i);
        RemovedPrefix(s, i);
        UnloadSorts(Removed(s, i), i);
      } else {
        UnloadSorts(s, i + 1);
      }
    }
  }

  /** The lists of a run are all sorted if and only if none of them is mixed. */
  lemma SortedInRuns(s: State, xs: seq<Command>)
    requires SortedList(s)
    ensures Always(After, SortedList, s, xs) <==> Always(After, NotMixed, s, xs)
  {
    hide After, Sorted, Mixed;
    forall s | SortedList(s)
      ensures NotMixed(s)
    {
      if !NotMixed(s) {
        MixedIsUnsorted(LettersOf(s.modes));
      }
    }
    forall s, x | SortedList(s) && NotMixed(After(s, x))
      ensures SortedList(After(s, x))
    {
      StepSorts(s, x);
    }
    hide SortedList, NotMixed, Always;
    AlwaysBoth(After, Any, SortedList, NotMixed, s, xs);
  }

  // ---------------------------------------------------------------------
  // Slots that are handed out.

  /** A slot that is free to be handed out holds nothing on any channel but, at most, structs that were left
      behind. */
  lemma FreeSlotIsEmpty(s: State, slot: nat)
    requires Valid(s) && slot < MAXPARAMMODES && s.paramTable[slot].None?
    ensures forall k | 0 <= k < |s.channels| && Points(s.channels[k], slot) ::
      s.channels[k].params[slot].value.status != LIVE
    ensures NoStale(s) ==> !PointedTo(s.channels, slot)
  {
    assert !SlotOwned(s.modes, slot);
    hide UniqueLetters, ModesOk, SlotOwned, SlotsOk;
    forall k | 0 <= k < |s.channels|
      ensures Points(s.channels[k], slot) ==> s.channels[k].params[slot].value.status != LIVE
      ensures Clean(s.channels[k]) ==> !Points(s.channels[k], slot)
    {
      UnownedSlot(s.channels[k], s.modes, slot);
    }
  }

  function ParamMode(letter: char): Request {
    Request(letter, NORMAL, 0, 1, false, false, false)
  }

  /** A parameter mode is set on a channel, removed, and another one registered. */
  function RemovalStory(first: char, second: char, text: string): seq<Command> {
    [ChannelCommand, AddCommand(ParamMode(first)), SetCommand(0, first, text), DelCommand(0, false),
     AddCommand(ParamMode(second))]
  }

  /** The second mode then owns the slot in which the channel still points to the freed struct of the first:
      copying or freeing the channel's list is not sound. */
  lemma SecondFollowsFreed(first: char, second: char, text: string)
    requires first != NUL && second != NUL
    ensures var s := At(After, Start(), RemovalStory(first, second, text), 5);
      && |s.channels| == 1 && Points(s.channels[0], 0) && s.channels[0].params[0] == Some(Param(text, FREED))
      && !SafeToFollow(s.paramTable, s.channels[0].params)
  {
    var xs, s0 := RemovalStory(first, second, text), Start();
    var s1 := s0.(channels := [EmptyChan()]);
    assert After(s0, xs[0]) == s1;
    AddOnEmpty(s1, first);
    var s2, m := After(s1, xs[1]), TheMode(first);
    var c := SetOn(EmptyChan(), m, text);
    assert After(s2, xs[2]) == s2.(channels := [c]);
    var s4 := After(s2.(channels := [c]), xs[3]);
    assert s4.modes == [] && s4.paramTable[0].None? && s4.channels == [AfterCommit(c, m)];
    AddOnEmpty(s4, second);
    hide After;
    Goes(After, s0, xs, 0);
    Goes(After, s0, xs, 1);
    Goes(After, s0, xs, 2);
    Goes(After, s0, xs, 3);
    Goes(After, s0, xs, 4);
  }

  function TheMode(letter: char): Mode {
    Mode(letter, NORMAL, 1, 0, 1, false, false, false, 0)
  }

  lemma AddOnEmpty(s: State, letter: char)
    requires s.modes == [] && |s.paramTable| == MAXPARAMMODES + 1 && s.paramTable[0].None? && letter != NUL
    ensures After(s, AddCommand(ParamMode(letter))) ==
      s.(modes := [TheMode(letter)], paramTable := s.paramTable[0 := Some(letter)], slotOf := s.slotOf[letter := 0])
  {
    assert UsedBits([]) == {};
    assert Pow2(0) == 1 && FreeBit({}, 0, BIT_LIMIT) == 1;
    assert Inserted([], 0, TheMode(letter)) == [TheMode(letter)];
  }

  function MemberMode(letter: char): Request {
    Request(letter, MEMBER, 1, 1, true, false, true)
  }

  /** A member joins with the same prefix twice, and the mode is removed. */
  function PrefixStory(letter: char): seq<Command> {
    [ChannelCommand, AddCommand(MemberMode(letter)), MemberCommand(0, Joins([letter, letter])), DelCommand(0, false)]
  }

  /** The member then has the letter of a mode that is gone. */
  lemma LetterStays(letter: char)
    ensures var s := At(After, Start(), PrefixStory(letter), 4);
      s.modes == [] && |s.channels| == 1 && s.channels[0].members == [[letter]]
  {
    var xs, s0 := PrefixStory(letter), Start();
    var s1, m := s0.(channels := [EmptyChan()]), Filled(MemberMode(letter), 0, 0);
    assert After(s0, xs[0]) == s1;
    assert Inserted([], 0, m) == [m];
    var s2 := s1.(modes := [m]);
    assert After(s1, xs[1]) == s2;
    TwoLetters([m], letter);
    var c := EmptyChan().(members := [[letter, letter]]);
    assert WithMembers([], [m], Joins([letter, letter])) == [[letter, letter]];
    assert [EmptyChan()][0 := c] == [c];
    assert After(s2, xs[2]) == s2.(channels := [c]);
    var s4 := After(s2.(channels := [c]), xs[3]);
    assert AllWithout([[letter, letter]], letter) == [[letter]] by {
      assert WithoutLetter([letter, letter], letter) == [letter];
    }
    assert s4.modes == [] && s4.channels == [EmptyChan().(members := [[letter]])];
    hide After;
    Goes(After, s0, xs, 0);
    Goes(After, s0, xs, 1);
    Goes(After, s0, xs, 2);
    Goes(After, s0, xs, 3);
  }

  lemma TwoLetters(modes: seq<Mode>, letter: char)
    requires modes == [Filled(MemberMode(letter), 0, 0)]
    ensures Edited(modes, "", Adds([letter, letter])) == [letter, letter]
  {
    assert FindHandler(modes, letter) == Some(modes[0]);
    assert Adds([letter, letter]) == [Add(letter), Add(letter)];
    assert [Add(letter), Add(letter)][1..] == [Add(letter)];
    assert WithLetter(modes, "", letter) == [letter];
    assert WithLetter(modes, [letter], letter) == [letter, letter];
    assert Edited(modes, [letter], [Add(letter)]) == [letter, letter];
  }

  /** A parameter mode is marked in a rehash, and registered again without a parameter. */
  function RevivalStory(letter: char): seq<Command> {
    [AddCommand(ParamMode(letter)), DelCommand(0, true), AddCommand(ParamMode(letter).(paracount := 0))]
  }

  /** The record then keeps the slot of the parameter that the mode no longer takes. */
  lemma RevivedOutOfOrder(letter: char)
    requires letter != NUL
    ensures var xs := RevivalStory(letter);
      && Disallowed(At(After, Start(), xs, 2), xs[2]) && !Valid(At(After, Start(), xs, 3))
  {
    var xs, s0 := RevivalStory(letter), Start();
    AddOnEmpty(s0, letter);
    var s1, m := After(s0, xs[0]), TheMode(letter);
    var s2 := s1.(modes := [m.(unloaded := true)]);
    assert After(s1, xs[1]) == s2;
    assert Find(s2.modes, letter) == 0;
    Goes(After, s0, xs, 0);
    Goes(After, s0, xs, 1);
    Goes(After, s0, xs, 2);
    assert !Disallowed(s0, xs[0]) && !Disallowed(s1, xs[1]);
    assert Valid(s0);
    hide After, Valid, Allowed;
    AnyStep(s0, xs[0]);
    StepIsValid(s0, xs[0]);
    AnyStep(s1, xs[1]);
    StepIsValid(s1, xs[1]);
    NowInvalid(s2, xs[2].req);
  }

  lemma NowInvalid(s: State, req: Request)
    requires Valid(s) && !Allowed(s, req)
    ensures !Valid(After(s, AddCommand(req)))
  {
    hide Valid, Registered, Allowed;
    AddExact(s, req);
  }

  // ---------------------------------------------------------------------
  // The rows of CHANMODES.

  predicate InRow(m: Mode, row: nat) {
    if row == 1 then m.paracount > 0 && m.unsetWithParam && m.kind != MEMBER
    else if row == 2 then m.paracount > 0 && !m.unsetWithParam
    else m.paracount == 0
  }

  function Row(modes: seq<Mode>, row: nat): string {
    if modes == [] then ""
    else
      var n := |modes| - 1;
      Row(modes[..n], row) + if InRow(modes[n], row) then [modes[n].letter] else ""
  }

  /** The modes of a row are listed in order. */
  lemma {:induction false} RowIs(a: seq<Mode>, m: Mode, b: seq<Mode>, row: nat)
    ensures Row(a + [m] + b, row) == Row(a, row) + (if InRow(m, row) then [m.letter] else "") + Row(b, row)
    decreases |b|
  {
    var all := a + [m] + b;
    if b == [] {
      assert all[..|all| - 1] == a;
    } else {
      var n := |b| - 1;
      RowIs(a, m, b[..n], row);
      assert all[..|all| - 1] == a + [m] + b[..n];
    }
  }

  /** Every normal mode is in exactly one row: that of modes unset with their parameter, of those set with one only,
      or of those without. Member modes are in none. */
  lemma RowsPartition(modes: seq<Mode>, m: Mode)
    requires ModesOk(modes) && m in modes
    ensures m.letter in Row(modes, 1) <==> m.kind == NORMAL && m.paracount == 1 && m.unsetWithParam
    ensures m.letter in Row(modes, 2) <==> m.kind == NORMAL && m.paracount == 1 && !m.unsetWithParam
    ensures m.letter in Row(modes, 3) <==> m.kind == NORMAL && m.paracount == 0
  {
    hide Row, UniqueLetters, InRange, BitsUnique;
    assert ModeOk(m);
    forall row: nat
      ensures m.letter in Row(modes, row) <==> InRow(m, row)
    {
      RowHas(modes, m, row);
    }
  }

  lemma RowHas(modes: seq<Mode>, m: Mode, row: nat)
    requires UniqueLetters(modes) && m in modes
    ensures m.letter in Row(modes, row) <==> InRow(m, row)
  {
    hide Row, InRow;
    var i :| 0 <= i < |modes| && modes[i] == m;
    var a, b := modes[..i], modes[i + 1..];
    assert modes == a + [m] + b;
    RowIs(a, m, b, row);
    RowLetters(a, row);
    RowLetters(b, row);
    assert forall k | 0 <= k < |a| :: a[k] == modes[k];
    assert forall k | 0 <= k < |b| :: b[k] == modes[i + 1 + k];
  }

  lemma {:induction false} RowLetters(modes: seq<Mode>, row: nat)
    ensures forall c | c in Row(modes, row) :: exists k :: 0 <= k < |modes| && modes[k].letter == c
  {
    if modes != [] {
      var n := |modes| - 1;
      RowLetters(modes[..n], row);
      forall c | c in Row(modes, row)
        ensures exists k :: 0 <= k < |modes| && modes[k].letter == c
      {
        if c in Row(modes[..n], row) {
          var k :| 0 <= k < n && modes[..n][k].letter == c;
          assert modes[k].letter == c;
        } else {
          assert modes[n].letter == c;
        }
      }
    }
  }

  /** The bits of the modes in a row. */
  function RowBits(modes: seq<Mode>, row: nat): seq<nat> {
    if modes == [] then []
    else
      var n := |modes| - 1;
      RowBits(modes[..n], row) + if InRow(modes[n], row) then [modes[n].bit] else []
  }

  /** A row lists normal modes only, and bits run out before the row does. */
  lemma RowFits(modes: seq<Mode>, row: nat)
    requires ModesOk(modes)
    ensures |Row(modes, row)| < ROW_SIZE
  {
    hide UniqueLetters, ModeOk, Row, RowBits;
    RowBitsOk(modes, row);
    Pow2Values();
    AtMost(RowBits(modes, row), 0, MAX_BITS);
  }

  lemma {:induction false} RowBitsOk(modes: seq<Mode>, row: nat)
    requires ModesOk(modes)
    ensures |RowBits(modes, row)| == |Row(modes, row)|
    ensures forall b | b in RowBits(modes, row) :: exists m :: m in modes && m.kind == NORMAL && m.bit == b
    ensures forall i, j | 0 <= i < j < |RowBits(modes, row)| :: RowBits(modes, row)[i] != RowBits(modes, row)[j]
    ensures forall b | b in RowBits(modes, row) :: InRange(b, 0, BIT_LIMIT)
  {
    if modes != [] {
      hide InRange;
      var n := |modes| - 1;
      var front := modes[..n];
      assert forall m | m in front :: m in modes;
      RowBitsOk(front, row);
      assert modes[n] in modes;
      forall m | m in front ensures m != modes[n] {
        var k :| 0 <= k < n && front[k] == m;
        assert modes[k] == m;
      }
      forall b | b in RowBits(modes, row) ensures exists m :: m in modes && m.kind == NORMAL && m.bit == b {
        if b in RowBits(front, row) {
          var m :| m in front && m.kind == NORMAL && m.bit == b;
          assert m in modes;
        }
      }
      var before := RowBits(front, row);
      forall k | 0 <= k < |before| && InRow(modes[n], row) ensures before[k] != modes[n].bit {
        assert before[k] in before;
        var m :| m in front && m.kind == NORMAL && m.bit == before[k];
      }
    }
  }

  // ---------------------------------------------------------------------
  // What requests come to.

  /** An entry with everything that a request asks for. */
  predicate Answers(m: Mode, req: Request) {
    && m.letter == req.letter && m.kind == req.kind && m.rank == req.rank && m.paracount == req.paracount
    && m.unsetWithParam == req.unsetWithParam && m.local == req.local && !m.unloaded
  }

  /** The first entry of a letter is the one that handles it. */
  lemma {:induction false} FirstHandles(modes: seq<Mode>, i: nat)
    requires i < |modes| && forall k | 0 <= k < i :: modes[k].letter != modes[i].letter
    ensures FindHandler(modes, modes[i].letter) == Some(modes[i])
  {
    if i > 0 {
      assert modes[1..][i - 1] == modes[i];
      FirstHandles(modes[1..], i - 1);
    }
  }

  /** After a registration the handler of the letter is as requested, has the bit handed out and, if it takes one,
      a slot that both maps know; nothing else has changed. */
  lemma AddedAsRequested(s: State, req: Request)
    requires Registered(s, req).1.Added?
    ensures var (t, r) := Registered(s, req); var h := FindHandler(t.modes, req.letter);
      h.Some? && Answers(h.value, req) && h.value.bit == r.bit && OnlyEntered(s, t, h.value)
  {
    hide FreeBit, FreeSlot, FindHandler, Find, OnlyEntered, Enter, Revival;
    var i := Find(s.modes, req.letter);
    if i < |s.modes| {
      RevivalEnters(s, i, req);
    } else {
      var bit := FreeBit(UsedBits(s.modes), 0, BIT_LIMIT);
      EnterEnters(s, Filled(req, 0, 0));
      EnterEnters(s, Filled(req, bit, 0));
      if |s.paramTable| > MAXPARAMMODES {
        EnterEnters(s, Filled(req, bit, FreeSlot(s.paramTable, 0)));
      }
    }
  }

  /** Nothing but the entry of this letter has changed, and its slot is entered. */
  predicate OnlyEntered(s: State, t: State, m: Mode) {
    && SlotEntered(s, t, m) && t.channels == s.channels
    && (forall x | x in t.modes :: x in s.modes || x.letter == m.letter)
    && (forall x | x in s.modes :: x in t.modes || x.letter == m.letter)
  }

  lemma EnterEnters(s: State, n: Mode)
    requires forall k | 0 <= k < |s.modes| :: s.modes[k].letter != n.letter
    ensures var t := Enter(s, n); FindHandler(t.modes, n.letter) == Some(n) && OnlyEntered(s, t, n)
  {
    hide FindHandler, SlotEntered, WithSlot, Position;
    var t, p := Enter(s, n), Position(s.modes, n.letter);
    Seqs.InsertAtIs(s.modes, p, n);
    hide Seqs.InsertAt;
    FirstHandles(t.modes, p);
    WithSlotEnters(s, n, t.modes);
  }

  lemma RevivalEnters(s: State, i: nat, req: Request)
    requires i < |s.modes| && s.modes[i].letter == req.letter
    requires forall k | 0 <= k < i :: s.modes[k].letter != req.letter
    ensures var t, n := Revival(s, i, req), Filled(req, s.modes[i].bit, s.modes[i].paramSlot);
      FindHandler(t.modes, req.letter) == Some(n) && OnlyEntered(s, t, n)
  {
    hide FindHandler, SlotEntered, WithSlot;
    var t := Revival(s, i, req);
    FirstHandles(t.modes, i);
    ReplacedHas(s.modes, i, t.modes[i]);
    WithSlotEnters(s, t.modes[i], t.modes);
  }

  /** A mode that takes a slot has it in both maps, and the maps are otherwise the same. */
  predicate SlotEntered(s: State, t: State, m: Mode) {
    && |t.paramTable| == |s.paramTable|
    && (TakesSlot(m) && m.paramSlot < |s.paramTable| ==>
          t.paramTable[m.paramSlot] == Some(m.letter) && m.letter in t.slotOf && t.slotOf[m.letter] == m.paramSlot)
    && (forall k | 0 <= k < |s.paramTable| && !(TakesSlot(m) && k == m.paramSlot) :: t.paramTable[k] == s.paramTable[k])
    && t.slotOf - {m.letter} == s.slotOf - {m.letter}
  }

  lemma WithSlotEnters(s: State, m: Mode, modes: seq<Mode>)
    ensures var t := WithSlot(s, m).(modes := modes); SlotEntered(s, t, m) && t.channels == s.channels
  {
    assert s.slotOf[m.letter := m.paramSlot] - {m.letter} == s.slotOf - {m.letter};
  }

  lemma ReplacedHas(modes: seq<Mode>, i: nat, n: Mode)
    requires i < |modes| && n.letter == modes[i].letter
    ensures forall m: Mode | m.letter != n.letter :: m in modes[i := n] <==> m in modes
  {
    var after := modes[i := n];
    forall m: Mode | m.letter != n.letter
      ensures m in after <==> m in modes
    {
      if m in modes {
        var k :| 0 <= k < |modes| && modes[k] == m;
        assert after[k] == m;
      }
    }
  }

  /** When registrations are refused. This changes nothing, unless slots have run out: then an entry of a mode
      without parameter stays. */
  lemma AddOutcome(s: State, req: Request)
    requires UniqueLetters(s.modes) && |s.paramTable| == MAXPARAMMODES + 1
    ensures var (t, r) := Registered(s, req);
      var known, bitsLeft := !(forall m | m in s.modes :: m.letter != req.letter), HasBitsLeft(s.modes);
      var slotsLeft := !(forall k | 0 <= k < MAXPARAMMODES :: s.paramTable[k].Some?);
      && (r == Failed(EXISTS) <==> exists m :: m in s.modes && m.letter == req.letter && !m.unloaded)
      && (r == Failed(INVALID) <==>
            !known && req.kind == MEMBER &&
            !(req.hasPrefixes && req.paracount > 0 && req.unsetWithParam && req.rank != 0))
      && (r == Failed(NOSPACE) <==>
            !known && req.kind == NORMAL && (!bitsLeft || (req.paracount == 1 && !slotsLeft)))
      && (r.Failed? && !(r.error == NOSPACE && bitsLeft) ==> t == s)
      && (r == Failed(NOSPACE) && bitsLeft ==>
            && t.paramTable == s.paramTable && t.slotOf == s.slotOf && t.channels == s.channels
            && (exists bit: nat :: Mode(req.letter, NORMAL, bit, 0, 0, false, false, false, 0) in t.modes)
            && forall m: Mode | m.letter != req.letter :: m in t.modes <==> m in s.modes)
      && (forall m | m in s.modes && m.letter == req.letter && m.unloaded :: r == Added(m.bit))
  {
    hide FreeBit, FreeSlot, Position, InRange;
    var i := Find(s.modes, req.letter);
    BitsLeft(s.modes);
    SlotsLeft(s.paramTable, 0);
    if i < |s.modes| {
      forall m | m in s.modes && m.letter == req.letter
        ensures m == s.modes[i]
      {
        var k :| 0 <= k < |s.modes| && s.modes[k] == m;
      }
      assert s.modes[i] in s.modes;
    } else {
      forall m | m in s.modes
        ensures m.letter != req.letter
      {
        var k :| 0 <= k < |s.modes| && s.modes[k] == m;
      }
      var bit := FreeBit(UsedBits(s.modes), 0, BIT_LIMIT);
      Seqs.InsertAtIs(s.modes, Position(s.modes, req.letter), Bare(req.letter, bit));
    }
  }

  /** Some bit is not that of a normal mode. */
  ghost predicate HasBitsLeft(modes: seq<Mode>) {
    exists b: nat :: InRange(b, 0, BIT_LIMIT) && forall m | m in modes && m.kind == NORMAL :: m.bit != b
  }

  lemma BitsLeft(modes: seq<Mode>)
    ensures HasBitsLeft(modes) <==> FreeBit(UsedBits(modes), 0, BIT_LIMIT) != 0
  {
    hide FreeBit, InRange;
    FreeBitIs(UsedBits(modes), 0, BIT_LIMIT);
  }

  lemma {:induction false} SlotsLeft(paramTable: seq<Option<char>>, k: nat)
    requires k <= MAXPARAMMODES < |paramTable|
    ensures FreeSlot(paramTable, k) == MAXPARAMMODES <==> forall j | k <= j < MAXPARAMMODES :: paramTable[j].Some?
    decreases MAXPARAMMODES - k
  {
    if k < MAXPARAMMODES && paramTable[k].Some? {
      SlotsLeft(paramTable, k + 1);
    }
  }

  /** After a mode is set on a channel, its bit is there and its slot has the text; nothing else changes. */
  lemma SetTakesEffect(s: State, k: nat, m: Mode, text: string)
    requires Valid(s) && k < |s.channels| && m in s.modes && m.kind == NORMAL
    ensures var t := After(s, SetCommand(k, m.letter, text));
      && OnlyChannel(s, t, k)
      && m.bit in t.channels[k].bits
      && (forall b | b != m.bit :: b in t.channels[k].bits <==> b in s.channels[k].bits)
      && (m.paracount == 1 ==> HasText(t.channels[k], m.paramSlot, text))
      && (forall j | 0 <= j < |s.channels[k].params| && (m.paracount == 0 || j != m.paramSlot) ::
            t.channels[k].params[j] == s.channels[k].params[j])
  {
    HandlerIs(s.modes, m);
    hide FindHandler, UniqueLetters, InRange;
    assert ChanOk(s.channels[k], s.modes) && ModeOk(m);
  }

  /** After it is unset, its bit is not there, and its slot is empty unless the mode keeps the struct; nothing
      else changes, and nothing at all if it was not set. */
  lemma UnsetTakesEffect(s: State, k: nat, m: Mode, kept: bool)
    requires Valid(s) && k < |s.channels| && m in s.modes && m.kind == NORMAL
    ensures var t := After(s, UnsetCommand(k, m.letter, kept));
      && OnlyChannel(s, t, k)
      && m.bit !in t.channels[k].bits
      && (forall b | b != m.bit :: b in t.channels[k].bits <==> b in s.channels[k].bits)
      && (m.bit in s.channels[k].bits && m.paracount == 1 && !kept ==> t.channels[k].params[m.paramSlot].None?)
      && (forall j | 0 <= j < |s.channels[k].params| && (m.bit !in s.channels[k].bits || m.paracount == 0 || kept ||
                                                         j != m.paramSlot) ::
            t.channels[k].params[j] == s.channels[k].params[j])
  {
    HandlerIs(s.modes, m);
    hide FindHandler, UniqueLetters, InRange;
    assert ChanOk(s.channels[k], s.modes) && ModeOk(m);
  }

  predicate HasText(c: Chan, slot: nat, text: string) {
    slot < |c.params| && c.params[slot].Some? && c.params[slot].value.text == text
  }

  /** Nothing but one channel's bits and parameters has changed. */
  predicate OnlyChannel(s: State, t: State, k: nat) {
    && t.modes == s.modes && t.paramTable == s.paramTable && t.slotOf == s.slotOf
    && k < |s.channels| == |t.channels| && |t.channels[k].params| == |s.channels[k].params|
    && t.channels[k].members == s.channels[k].members
    && forall j | 0 <= j < |s.channels| && j != k :: t.channels[j] == s.channels[j]
  }

  /** After a removal exactly that mode is gone from the list, and its slot from the maps; during a rehash it is
      only marked. */
  lemma RemoveTakesEffect(s: State, i: nat)
    requires i < |s.modes|
    ensures var t, m := After(s, DelCommand(i, false)), s.modes[i];
      && t.modes == s.modes[..i] + s.modes[i + 1..]
      && |t.paramTable| == |s.paramTable| && |t.channels| == |s.channels|
      && (forall k | 0 <= k < |s.paramTable| ::
            t.paramTable[k] ==
            if m.kind == NORMAL && m.paracount > 0 && k == m.paramSlot then None else s.paramTable[k])
      && (forall c | c != m.letter :: c in t.slotOf <==> c in s.slotOf)
      && (forall c | c in s.slotOf && c != m.letter :: t.slotOf[c] == s.slotOf[c])
      && (m.kind == NORMAL && m.paracount > 0 && m.paramSlot < |s.paramTable| ==>
            m.letter in t.slotOf && t.slotOf[m.letter] == 0)
      && (forall k | 0 <= k < |s.channels| :: LosesMode(s.channels[k], t.channels[k], m))
    ensures After(s, DelCommand(i, true)) ==
      s.(modes := s.modes[..i] + [s.modes[i].(unloaded := true)] + s.modes[i + 1..])
  {
    hide LosesMode;
    var m := s.modes[i];
    assert s.modes[i := m.(unloaded := true)] == s.modes[..i] + [m.(unloaded := true)] + s.modes[i + 1..];
    forall k | 0 <= k < |s.channels|
      ensures LosesMode(s.channels[k], AfterCommit(s.channels[k], m), m)
    {
      CommitLosesMode(s.channels[k], m);
    }
  }

  /** A channel loses the bit of a normal mode, and a struct in its slot is freed if the bit was set and has no
      owner otherwise, but is still there; of a member mode every member loses one letter. */
  ghost predicate LosesMode(c: Chan, d: Chan, m: Mode) {
    && |d.params| == |c.params| && |d.members| == |c.members|
    && (forall b :: b in d.bits <==> b in c.bits && !(m.kind == NORMAL && b == m.bit))
    && (forall k | 0 <= k < |c.params| :: d.params[k].Some? <==> c.params[k].Some?)
    && (forall k | 0 <= k < |c.params| && c.params[k].Some? ::
          && d.params[k].value.text == c.params[k].value.text
          && d.params[k].value.status ==
             if !(m.kind == NORMAL && m.paracount > 0 && k == m.paramSlot) then c.params[k].value.status
             else if m.bit in c.bits then FREED
             else if c.params[k].value.status == LIVE then ORPHANED else c.params[k].value.status)
    && (forall j | 0 <= j < |c.members| ::
          if m.kind == MEMBER then LosesLetter(c.members[j], d.members[j], m.letter) else d.members[j] == c.members[j])
  }

  /** The first of these letters is gone. */
  ghost predicate LosesLetter(a: string, b: string, letter: char) {
    if letter in a then exists i :: 0 <= i < |a| && a[i] == letter && letter !in a[..i] && b == a[..i] + a[i + 1..]
    else b == a
  }

  lemma CommitLosesMode(c: Chan, m: Mode)
    ensures LosesMode(c, AfterCommit(c, m), m)
  {
    forall j | 0 <= j < |c.members|
      ensures LosesLetter(c.members[j], WithoutLetter(c.members[j], m.letter), m.letter)
    {
    }
    hide WithoutLetter, LosesLetter;
  }
}
