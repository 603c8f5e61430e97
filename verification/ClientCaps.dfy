/**
 Client capabilities (`src/api-clicap.c`): a list of names, most of which own a bit, the bits that clients
 have set, and the clearing of the bits of capabilities that disappear in a rehash.
 */
module ClientCaps {
  import opened Registry
  import opened Bits
  import opened Casemap
  import opened Runs
  import Seqs

  // v <<= 1 reaches 0 behind the last bit of a 64-bit long; the first bit is reserved.
  const FIRST_BIT := 1
  const BIT_LIMIT: nat := 0x1_0000_0000_0000_0000
  const MAXCLICAPS := 8 * 8 - 1 + 16
  const INT_SIGN := 0x8000_0000

  /** bit is 0 for a capability that is only advertised. */
  datatype Cap = Cap(name: string, bit: nat, unloaded: bool)

  /** A capability in the lists that are kept over a rehash. */
  datatype Saved = Saved(name: string, proto: nat)

  datatype Error = EXISTS | NOSPACE
  /** Aborted: the call has ended the server. */
  datatype Result = Added(bit: nat) | Failed(error: Error) | Aborted

  function SlotView(c: Cap): Slot {
    Slot(if c.bit == 0 then NONE else c.bit, c.unloaded)
  }

  /** Names, compared without case, and bits are unique. */
  predicate Unique(caps: seq<Cap>) {
    forall i, j | 0 <= i < j < |caps| :: Apart(caps[i], caps[j])
  }

  predicate Apart(a: Cap, b: Cap) {
    Fold(a.name) != Fold(b.name) && (a.bit == b.bit ==> a.bit == 0)
  }

  ghost predicate CapsOk(caps: seq<Cap>) {
    Unique(caps) && forall c | c in caps && c.bit != 0 :: InRange(c.bit, FIRST_BIT, BIT_LIMIT)
  }

  ghost function View(caps: seq<Cap>): (v: map<string, Slot>)
    ensures Unique(caps) ==> forall c | c in caps :: Fold(c.name) in v && v[Fold(c.name)] == SlotView(c)
    ensures forall n | n in v :: exists c :: c in caps && Fold(c.name) == n
  {
    if caps == [] then map[]
    else
      var v := View(caps[1..])[Fold(caps[0].name) := SlotView(caps[0])];
      assert caps == [caps[0]] + caps[1..];
      v
  }

  function UsedBits(caps: seq<Cap>): set<nat> {
    set c | c in caps :: c.bit
  }

  function Without(caps: seq<Cap>, i: nat): seq<Cap>
    requires i < |caps|
  {
    Seqs.CutOut(caps, i)
  }

  // ---------------------------------------------------------------------
  // What the operations do, on values.

  /** The capabilities, the bits that each local client has set, and the lists that are kept over a rehash. */
  datatype State = State(caps: seq<Cap>, clients: seq<set<nat>>, saved: seq<Saved>)

  datatype Command =
    | AddCommand(name: string, wantsBit: bool)
    | DelCommand(position: nat, rehashing: bool)
    | UnloadCommand
    | SaveCommand
    | CheckCommand
    | ConnectCommand
    | QuitCommand(client: nat)
    | SetCommand(client: nat, token: string, on: bool)

  ghost predicate Valid(s: State) {
    CapsOk(s.caps) && forall k, b | 0 <= k < |s.clients| && b in s.clients[k] :: InRange(b, FIRST_BIT, BIT_LIMIT)
  }

  /** ClientCapabilityFindReal: the first with this name, or the length. */
  function Find(caps: seq<Cap>, token: string): (i: nat)
    ensures i <= |caps| && (i < |caps| ==> Fold(caps[i].name) == Fold(token))
    ensures forall k | 0 <= k < i :: Fold(caps[k].name) != Fold(token)
  {
    if caps == [] || Fold(caps[0].name) == Fold(token) then 0 else 1 + Find(caps[1..], token)
  }

  /** ClientCapabilityAdd. A marked capability is revived with the bit it had, which is none if it was only
      advertised before; reviving one with a bit without wanting a bit aborts. A new capability gets the
      lowest free bit if it wants one. */
  function Registered(caps: seq<Cap>, name: string, wantsBit: bool): (seq<Cap>, Result) {
    var i := Find(caps, name);
    if i < |caps| then
      if !caps[i].unloaded then (caps, Failed(EXISTS))
      else (caps[i := caps[i].(unloaded := false)],
            if caps[i].bit != 0 && !wantsBit then Aborted else Added(caps[i].bit))
    else
      var bit := if wantsBit then FreeBit(UsedBits(caps), FIRST_BIT, BIT_LIMIT) else 0;
      if wantsBit && bit == 0 then (caps, Failed(NOSPACE))
      else ([Cap(name, bit, false)] + caps, Added(bit))
  }

  predicate Loaded(c: Cap) {
    !c.unloaded
  }

  /** clicap_pre_rehash: names and bits are saved, as many as there is room for. */
  function SavedOf(caps: seq<Cap>): (r: seq<Saved>)
    ensures |r| == if |caps| < MAXCLICAPS then |caps| else MAXCLICAPS
    ensures forall i | 0 <= i < |r| :: r[i] == Saved(caps[i].name, caps[i].bit)
  {
    var n := if |caps| < MAXCLICAPS then |caps| else MAXCLICAPS;
    seq(n, i requires 0 <= i < n => Saved(caps[i].name, caps[i].bit))
  }

  function Names(caps: seq<Cap>): set<string> {
    set c | c in caps :: c.name
  }

  /** clear_cap_for_users with the saved value of a bit clears the other bit; nothing is done for 0. */
  predicate Clears(proto: nat, bit: nat) {
    proto != 0 && (if proto < INT_SIGN then bit == proto else proto == INT_SIGN && bit >= INT_SIGN)
  }

  function WithoutBits(bits: set<nat>, proto: nat): set<nat> {
    set b | b in bits && !Clears(proto, b)
  }

  /** A saved capability that is gone clears the bit. */
  predicate Cleared(saved: seq<Saved>, names: set<string>, bit: nat) {
    exists x :: x in saved && x.name !in names && Clears(x.proto, bit)
  }

  /** The first loop of clicap_check_for_changes: what a client still has set. */
  function Checked(bits: set<nat>, saved: seq<Saved>, names: set<string>): set<nat> {
    set b | b in bits && !Cleared(saved, names, b)
  }

  function CheckedAll(clients: seq<set<nat>>, saved: seq<Saved>, names: set<string>): (r: seq<set<nat>>)
    ensures |r| == |clients| && forall k | 0 <= k < |r| :: r[k] == Checked(clients[k], saved, names)
  {
    seq(|clients|, k requires 0 <= k < |clients| => Checked(clients[k], saved, names))
  }

  /** ClientCapabilityBit */
  function BitOf(caps: seq<Cap>, token: string): nat {
    var i := Find(caps, token);
    if i < |caps| then caps[i].bit else 0
  }

  /** SetCapability and ClearCapability */
  function WithBit(bits: set<nat>, bit: nat, on: bool): set<nat> {
    if bit == 0 then bits else if on then bits + {bit} else bits - {bit}
  }

  function After(s: State, x: Command): State {
    match x
    case AddCommand(name, wantsBit) => s.(caps := Registered(s.caps, name, wantsBit).0)
    case DelCommand(i, rehashing) =>
      if i >= |s.caps| then s
      else if rehashing then s.(caps := s.caps[i := s.caps[i].(unloaded := true)])
      else s.(caps := Without(s.caps, i))
    case UnloadCommand => s.(caps := Seqs.Filter(Loaded, s.caps))
    case SaveCommand => s.(saved := SavedOf(s.caps))
    case CheckCommand => s.(clients := CheckedAll(s.clients, s.saved, Names(s.caps)), saved := [])
    case ConnectCommand => s.(clients := s.clients + [{}])
    case QuitCommand(k) => if k < |s.clients| then s.(clients := Seqs.CutOut(s.clients, k)) else s
    case SetCommand(k, token, on) =>
      if k < |s.clients| then s.(clients := s.clients[k := WithBit(s.clients[k], BitOf(s.caps, token), on)]) else s
  }

  /** The same as an operation of the registry. */
  function OpOf(s: State, x: Command): Op<string> {
    match x
    case AddCommand(name, wantsBit) =>
      var i := Find(s.caps, name);
      var bit := if wantsBit then FreeBit(UsedBits(s.caps), FIRST_BIT, BIT_LIMIT) else 0;
      if i < |s.caps| then if s.caps[i].unloaded then Revive(Fold(name)) else Reject
      else if wantsBit && bit == 0 then Reject
      else Register(Fold(name), if bit == 0 then NONE else bit)
    case DelCommand(i, rehashing) =>
      if i >= |s.caps| then Reject
      else if rehashing then Mark(Fold(s.caps[i].name))
      else Op.Remove(Fold(s.caps[i].name))
    case UnloadCommand => CommitAll
    case _ => Reject
  }

  ghost function TableOf(s: State): map<string, Slot> {
    View(s.caps)
  }

  // ---------------------------------------------------------------------
  // The registry object.

  class Table {
    var clicaps: seq<Cap>
    var clients: seq<set<nat>>  // the capability bits of each local client
    var saved: seq<Saved>       // old_caps and old_caps_proto, as far as they are filled

    function St(): State
      reads this
    {
      State(clicaps, clients, saved)
    }

    constructor ()
      ensures St() == State([], [], []) && Valid(St()) && NoStale(St())
    {
      clicaps, clients, saved := [], [], [];
    }

    /** ClientCapabilityFindReal */
    method FindReal(token: string) returns (i: nat)
      ensures i == Find(clicaps, token)
    {
      i := 0;
      while i < |clicaps|
        invariant i <= |clicaps| && Find(clicaps, token) == i + Find(clicaps[i..], token)
      {
        if Fold(clicaps[i].name) == Fold(token) {
          return;
        }
        assert clicaps[i..][1..] == clicaps[i + 1..];
        i := i + 1;
      }
    }

    /** ClientCapabilityAdd */
    method Add(name: string, wantsBit: bool) returns (r: Result)
      modifies this`clicaps
      ensures (clicaps, r) == Registered(old(clicaps), name, wantsBit)
    {
      hide Find, Fold, FreeBit;
      var i := FindReal(name);
      if i < |clicaps| {
        var c := clicaps[i];
        if !c.unloaded {
          return Failed(EXISTS);
        }
        clicaps := clicaps[i := c.(unloaded := false)];
        if c.bit != 0 && !wantsBit {
          return Aborted;
        }
        return Added(c.bit);
      }
      var v := 0;
      if wantsBit {
        v := FirstFreeBit(UsedBits(clicaps), FIRST_BIT, BIT_LIMIT);
        if v == 0 {
          return Failed(NOSPACE);
        }
      }
      clicaps := [Cap(name, v, false)] + clicaps;
      return Added(v);
    }

    /** unload_clicap_commit: the bit stays on the clients. */
    method Commit(i: nat)
      requires i < |clicaps|
      modifies this`clicaps
      ensures clicaps == Without(old(clicaps), i)
    {
      clicaps := Without(clicaps, i);
    }

    /** ClientCapabilityDel */
    method Del(i: nat, rehashing: bool)
      requires i < |clicaps|
      modifies this`clicaps
      ensures St() == After(old(St()), DelCommand(i, rehashing))
    {
      if rehashing {
        clicaps := clicaps[i := clicaps[i].(unloaded := true)];
      } else {
        Commit(i);
      }
    }

    /** unload_all_unused_caps */
    method UnloadAllUnused()
      modifies this`clicaps
      ensures clicaps == Seqs.Filter(Loaded, old(clicaps))
    {
      hide Seqs.Pruning, Seqs.Filter;
      ghost var before := clicaps;
      Seqs.PruningStarts(Loaded, before);
      var i: nat := 0;
      ghost var j := 0;
      while i < |clicaps|
        invariant j <= |before| && clicaps == Seqs.Pruning(Loaded, before, j)
        invariant i == |Seqs.Filter(Loaded, before[..j])| <= |clicaps|
        invariant |clicaps| - i == |before| - j
        decreases |before| - j
      {
        Seqs.PruningStep(Loaded, before, j);
        if clicaps[i].unloaded {
          Commit(i);
        } else {
          i := i + 1;
        }
        j := j + 1;
      }
      Seqs.PruningEnds(Loaded, before);
    }

    /** clicap_pre_rehash */
    method PreRehash()
      modifies this`saved
      ensures saved == SavedOf(clicaps)
    {
      saved := [];
      var i: nat := 0;
      while i < |clicaps| && i < MAXCLICAPS
        invariant i <= |clicaps| && i <= MAXCLICAPS && |saved| == i
        invariant forall k | 0 <= k < i :: saved[k] == Saved(clicaps[k].name, clicaps[k].bit)
      {
        saved := saved + [Saved(clicaps[i].name, clicaps[i].bit)];
        i := i + 1;
      }
    }

    /** clicap_check_for_changes: the bits of saved capabilities that are gone are cleared for all clients, and
        the lists are freed. */
    method CheckForChanges()
      modifies this`clients, this`saved
      ensures clients == CheckedAll(old(clients), old(saved), Names(clicaps)) && saved == []
    {
      hide Clears, Cleared;
      var i: nat := 0;
      NothingSaved(clients, saved, Names(clicaps));
      while i < |saved|
        invariant i <= |saved| && saved == old(saved)
        invariant clients == CheckedAll(old(clients), saved[..i], Names(clicaps))
      {
        if saved[i].name !in Names(clicaps) {
          ClearForUsers(saved[i].proto);
        }
        OneMoreSaved(old(clients), saved, i, Names(clicaps), clients);
        i := i + 1;
      }
      Seqs.TakeAll(saved);
      saved := [];
    }

    /** clear_cap_for_users */
    method ClearForUsers(proto: nat)
      modifies this`clients
      ensures |clients| == |old(clients)|
      ensures forall k | 0 <= k < |clients| :: clients[k] == WithoutBits(old(clients)[k], proto)
    {
      if proto == 0 {
        return;
      }
      var k: nat := 0;
      while k < |clients|
        invariant k <= |clients| == |old(clients)|
        invariant forall j | 0 <= j < k :: clients[j] == WithoutBits(old(clients)[j], proto)
        invariant forall j | k <= j < |clients| :: clients[j] == old(clients)[j]
      {
        clients := clients[k := WithoutBits(clients[k], proto)];
        k := k + 1;
      }
    }

    /** SetCapability and ClearCapability */
    method SetCapability(k: nat, token: string, on: bool)
      requires k < |clients|
      modifies this`clients
      ensures clients == old(clients)[k := WithBit(old(clients)[k], BitOf(clicaps, token), on)]
    {
      hide Find, Fold;
      var i := FindReal(token);
      var bit := if i < |clicaps| then clicaps[i].bit else 0;
      clients := clients[k := WithBit(clients[k], bit, on)];
    }

    method Perform(x: Command)
      modifies this
      ensures St() == After(old(St()), x)
    {
      hide Registered, SavedOf, CheckedAll, WithBit, BitOf, Seqs.Filter;
      match x
      case AddCommand(name, wantsBit) => var _ := Add(name, wantsBit);
      case DelCommand(i, rehashing) =>
        if i < |clicaps| {
          Del(i, rehashing);
        }
      case UnloadCommand => UnloadAllUnused();
      case SaveCommand => PreRehash();
      case CheckCommand => CheckForChanges();
      case ConnectCommand => clients := clients + [{}];
      case QuitCommand(k) =>
        if k < |clients| {
          clients := Seqs.CutOut(clients, k);
        }
      case SetCommand(k, token, on) =>
        if k < |clients| {
          SetCapability(k, token, on);
        }
    }

    /** Every run of the object is a run of the state machine. */
    method Run(commands: seq<Command>)
      modifies this
      ensures St() == At(After, old(St()), commands, |commands|)
    {
      hide After;
      for k := 0 to |commands|
        invariant St() == At(After, old(St()), commands, k)
      {
        Perform(commands[k]);
      }
    }
  }

  lemma NothingSaved(clients: seq<set<nat>>, saved: seq<Saved>, names: set<string>)
    ensures CheckedAll(clients, saved[..0], names) == clients
  {
    assert forall k | 0 <= k < |clients| :: Checked(clients[k], saved[..0], names) == clients[k];
  }

  lemma OneMoreSaved(clients: seq<set<nat>>, saved: seq<Saved>, i: nat, names: set<string>, now: seq<set<nat>>)
    requires i < |saved| && |now| == |clients|
    requires forall k | 0 <= k < |now| ::
      var before := Checked(clients[k], saved[..i], names);
      now[k] == if saved[i].name in names then before else WithoutBits(before, saved[i].proto)
    ensures now == CheckedAll(clients, saved[..i + 1], names)
  {
    hide Clears;
    assert saved[..i + 1] == saved[..i] + [saved[i]];
    forall b: nat
      ensures Cleared(saved[..i + 1], names, b) <==>
        Cleared(saved[..i], names, b) || (saved[i].name !in names && Clears(saved[i].proto, b))
    {
      assert saved[i] in saved[..i + 1];
    }
    hide Cleared;
    forall k | 0 <= k < |now|
      ensures now[k] == Checked(clients[k], saved[..i + 1], names)
    {
    }
  }

  lemma NotInView(caps: seq<Cap>, name: string)
    requires forall k | 0 <= k < |caps| :: Fold(caps[k].name) != Fold(name)
    ensures Fold(name) !in View(caps)
  {
    hide View, Fold;
  }

  lemma PrependOk(caps: seq<Cap>, n: Cap)
    requires Unique(caps) && !n.unloaded && forall k | 0 <= k < |caps| :: Fold(caps[k].name) != Fold(n.name)
    requires n.bit == 0 || n.bit !in UsedBits(caps)
    ensures Unique([n] + caps)
    ensures Step(View(caps), Register(Fold(n.name), SlotView(n).id), View([n] + caps))
  {
    hide Unique, View, Fold;
    PrependView(caps, n);
    BitUnused(caps, n.bit);
  }

  lemma BitUnused(caps: seq<Cap>, bit: nat)
    requires Unique(caps) && (bit == 0 || bit !in UsedBits(caps))
    ensures bit != 0 ==> Unused(View(caps), bit)
  {
    hide Unique, View, Fold;
    forall n | n in View(caps) && bit != 0 ensures View(caps)[n].id != bit {
      var c :| c in caps && Fold(c.name) == n;
      assert c.bit in UsedBits(caps);
    }
  }

  lemma PrependView(caps: seq<Cap>, n: Cap)
    requires Unique(caps) && forall k | 0 <= k < |caps| :: Fold(caps[k].name) != Fold(n.name)
    requires n.bit == 0 || n.bit !in UsedBits(caps)
    ensures Unique([n] + caps) && Fold(n.name) !in View(caps)
    ensures View([n] + caps) == View(caps)[Fold(n.name) := SlotView(n)]
  {
    hide Unique, Fold, UsedBits, SlotView;
    PrependUnique(caps, n);
    NotInView(caps, n.name);
    assert ([n] + caps)[1..] == caps;
  }

  lemma PrependUnique(caps: seq<Cap>, n: Cap)
    requires Unique(caps) && forall k | 0 <= k < |caps| :: Fold(caps[k].name) != Fold(n.name)
    requires n.bit == 0 || n.bit !in UsedBits(caps)
    ensures Unique([n] + caps)
  {
    hide Fold;
    assert forall k | 0 <= k < |caps| :: caps[k] in caps && caps[k].bit in UsedBits(caps);
  }

  lemma ReplaceOk(caps: seq<Cap>, i: nat, n: Cap)
    requires Unique(caps) && i < |caps| && n.name == caps[i].name && n.bit == caps[i].bit
    ensures Unique(caps[i := n])
    ensures forall c | c in caps[i := n] :: c == n || c in caps
    ensures Fold(n.name) in View(caps) && View(caps)[Fold(n.name)] == SlotView(caps[i])
    ensures View(caps[i := n]) == View(caps)[Fold(n.name) := SlotView(n)]
  {
    hide Unique, View, Fold;
    ReplaceIs(caps, i, n);
    assert caps[i] in caps;
    var v, v' := View(caps), View(caps[i := n]);
    assert forall x | x in v :: x in v' && (x != Fold(n.name) ==> v'[x] == v[x]);
    assert forall x | x in v' :: x in v;
  }

  lemma ReplaceIs(caps: seq<Cap>, i: nat, n: Cap)
    requires Unique(caps) && i < |caps| && n.name == caps[i].name && n.bit == caps[i].bit
    ensures var r := caps[i := n];
      && Unique(r) && n in r
      && (forall c | c in r :: c == n || (c in caps && Fold(c.name) != Fold(n.name)))
      && (forall c | c in caps && Fold(c.name) != Fold(n.name) :: c in r)
  {
    hide Fold;
    var r := caps[i := n];
    assert r[i] in r;
    forall c | c in r && c != n ensures c in caps && Fold(c.name) != Fold(n.name) {
      var k :| 0 <= k < |r| && r[k] == c;
      assert caps[k] == c;
    }
    forall c | c in caps && Fold(c.name) != Fold(n.name) ensures c in r {
      var k :| 0 <= k < |caps| && caps[k] == c;
      assert r[k] == c;
    }
  }

  lemma RemoveOk(caps: seq<Cap>, i: nat)
    requires Unique(caps) && i < |caps|
    ensures var r := Without(caps, i);
      && Unique(r) && (forall c | c in r :: c in caps)
      && Step(View(caps), Remove(Fold(caps[i].name)), View(r))
  {
    hide Unique, View, Fold, Without;
    RemoveIs(caps, i);
    var v, v' := View(caps), View(Without(caps, i));
    assert caps[i] in caps;
    assert forall n | n in v' :: n in v && n != Fold(caps[i].name) && v'[n] == v[n];
    assert forall n | n in v && n != Fold(caps[i].name) :: n in v';
  }

  lemma RemoveIs(caps: seq<Cap>, i: nat)
    requires Unique(caps) && i < |caps|
    ensures var r := Without(caps, i);
      && Unique(r)
      && (forall c | c in r :: c in caps && Fold(c.name) != Fold(caps[i].name))
      && (forall c | c in caps && Fold(c.name) != Fold(caps[i].name) :: c in r)
  {
    hide Fold;
    Seqs.CutOutIs(caps, i);
    var r := Without(caps, i);
    assert forall k | 0 <= k < |r| :: r[k] == caps[if k < i then k else k + 1];
  }

  // ---------------------------------------------------------------------
  // Every command keeps the state valid and is an operation of the registry.

  ghost predicate GoodStep(s: State, x: Command) {
    Valid(After(s, x)) && Step(TableOf(s), OpOf(s, x), TableOf(After(s, x)))
  }

  lemma AddStep(s: State, name: string, wantsBit: bool)
    requires Valid(s)
    ensures GoodStep(s, AddCommand(name, wantsBit))
  {
    hide View, Unique, Fold, FreeBit, InRange, Find;
    var caps := s.caps;
    var i := Find(caps, name);
    if i < |caps| {
      if caps[i].unloaded {
        ReplaceOk(caps, i, caps[i].(unloaded := false));
        assert caps[i] in caps;
      }
    } else {
      NotInView(caps, name);
      var bit := if wantsBit then FreeBit(UsedBits(caps), FIRST_BIT, BIT_LIMIT) else 0;
      FreeBitIs(UsedBits(caps), FIRST_BIT, BIT_LIMIT);
      if !wantsBit || bit != 0 {
        PrependOk(caps, Cap(name, bit, false));
      }
    }
  }

  lemma DelStep(s: State, i: nat, rehashing: bool)
    requires Valid(s)
    ensures GoodStep(s, DelCommand(i, rehashing))
  {
    hide View, Unique, Fold, InRange, Without;
    if i < |s.caps| {
      assert s.caps[i] in s.caps;
      if rehashing {
        ReplaceOk(s.caps, i, s.caps[i].(unloaded := true));
      } else {
        RemoveOk(s.caps, i);
      }
    }
  }

  lemma UnloadStep(s: State)
    requires Valid(s)
    ensures GoodStep(s, UnloadCommand)
  {
    hide View, Unique, Fold, InRange, Seqs.Filter;
    Seqs.FilterIs(Loaded, s.caps);
    FilterUnique(s.caps);
    FilterView(s.caps);
  }

  lemma FilterUnique(caps: seq<Cap>)
    requires Unique(caps)
    ensures Unique(Seqs.Filter(Loaded, caps))
  {
    hide Seqs.Filter, Apart;
    Seqs.FilterPairs(Loaded, caps, Apart);
  }

  lemma FilterView(caps: seq<Cap>)
    requires Unique(caps) && Unique(Seqs.Filter(Loaded, caps))
    ensures View(Seqs.Filter(Loaded, caps)) == Committed(View(caps))
  {
    hide View, Unique, Fold, Seqs.Filter;
    Seqs.FilterIs(Loaded, caps);
    var r := Seqs.Filter(Loaded, caps);
    var v, c := View(r), Committed(View(caps));
    forall n | n in v
      ensures n in c && v[n] == c[n]
    {
      var e :| e in r && Fold(e.name) == n;
    }
    forall n | n in c
      ensures n in v
    {
      var e :| e in caps && Fold(e.name) == n;
      assert e in r;
    }
  }

  lemma ClientStep(s: State, x: Command)
    requires Valid(s) && !x.AddCommand? && !x.DelCommand? && !x.UnloadCommand?
    ensures GoodStep(s, x)
  {
    hide View, Unique, Fold, InRange, Find;
    var t := After(s, x);
    assert t.caps == s.caps;
    match x
    case QuitCommand(k) =>
      if k < |s.clients| {
        assert forall j | 0 <= j < |t.clients| :: t.clients[j] == s.clients[if j < k then j else j + 1];
      }
    case SetCommand(k, token, on) =>
      var i := Find(s.caps, token);
      if i < |s.caps| {
        assert s.caps[i] in s.caps;
      }
    case ConnectCommand =>
      assert forall j | 0 <= j < |s.clients| :: t.clients[j] == s.clients[j];
    case CheckCommand =>
      assert forall j | 0 <= j < |s.clients| :: t.clients[j] <= s.clients[j];
    case _ =>
  }

  lemma AnyStep(s: State, x: Command)
    requires Valid(s)
    ensures GoodStep(s, x)
  {
    hide GoodStep, Valid;
    match x
    case AddCommand(name, wantsBit) => AddStep(s, name, wantsBit);
    case DelCommand(i, rehashing) => DelStep(s, i, rehashing);
    case UnloadCommand => UnloadStep(s);
    case _ => ClientStep(s, x);
  }

  lemma AllSteps()
    ensures Keeps(After, Valid) && Implements(After, Valid, TableOf, OpOf)
  {
    hide Valid, Step;
    forall s, x | Valid(s)
      ensures Valid(After(s, x)) && Step(TableOf(s), OpOf(s, x), TableOf(After(s, x)))
    {
      AnyStep(s, x);
    }
    hide After, OpOf, TableOf;
  }

  /** Every run is a run of the registry, through valid states. */
  lemma RunsAreRuns(s: State, xs: seq<Command>)
    requires Valid(s)
    ensures forall k: nat | k <= |xs| :: Valid(At(After, s, xs, k))
    ensures IsRun(Tables(After, TableOf, s, xs), Ops(After, OpOf, s, xs))
  {
    hide Valid, After, OpOf, TableOf, IsRun, Tables, Ops, Keeps, Implements;
    AllSteps();
    RunIsRun(After, Valid, TableOf, OpOf, s, xs);
    forall k: nat | k <= |xs|
      ensures Valid(At(After, s, xs, k))
    {
      AlwaysHolds(After, Valid, s, xs, k);
    }
  }

  // ---------------------------------------------------------------------
  // Clearing bits after a rehash.

  /** A long stored in an int and read back as a long. */
  function ThroughInt(cap: bv64): bv64 {
    var low := cap & 0xffff_ffff;
    if low & 0x8000_0000 != 0 then low | 0xffff_ffff_0000_0000 else low
  }

  /** clear_cap_for_users, for one client. */
  function Minus(caps: bv64, cap: bv64): bv64 {
    caps & !cap
  }

  predicate Has(caps: bv64, cap: bv64) {
    caps & cap != 0
  }

  predicate SingleBit(cap: bv64) {
    cap != 0 && cap & (cap - 1) == 0
  }

  /** The saved copy of a capability's bit clears exactly that bit, whatever else the client has, if
      and only if the bit fits an int without its sign: the lower half loses nothing, bit 31 takes all
      higher bits with it, and bits above are never cleared. */
  lemma ClearingExact(cap: bv64)
    requires SingleBit(cap)
    ensures (forall caps: bv64 :: Minus(caps, ThroughInt(cap)) == Minus(caps, cap)) <==> cap < 0x8000_0000
  {
    if cap < 0x8000_0000 {
      assert ThroughInt(cap) == cap;
    } else {
      var all: bv64 := 0xffff_ffff_ffff_ffff;
      assert Minus(all, ThroughInt(cap)) != Minus(all, cap);
    }
  }

  /** Which bits it clears instead, by their numbers: all from 31 on for bit 31, and none for a higher bit. */
  predicate ClearsNumber(k: bv64, j: bv64) {
    if k < 31 then j == k else k == 31 && j >= 31
  }

  lemma ThroughIntClears(k: bv64, j: bv64)
    requires k < 64 && j < 64
    ensures Has(ThroughInt(1 << k), 1 << j) <==> ClearsNumber(k, j)
  {
  }

  /** So what a client has afterwards: the bits it had, without those. */
  lemma ClearedBits(caps: bv64, k: bv64, j: bv64)
    requires k < 64 && j < 64
    ensures Has(Minus(caps, ThroughInt(1 << k)), 1 << j) <==>
      Has(caps, 1 << j) && !(if k < 31 then j == k else k == 31 && j >= 31)
  {
    hide ThroughInt, Minus, Has;
    ThroughIntClears(k, j);
    AllOrNothing(ThroughInt(1 << k), j);
    ClearsBit(caps, ThroughInt(1 << k), 1 << j);
  }

  lemma AllOrNothing(cap: bv64, j: bv64)
    requires j < 64
    ensures 1 << j != 0 as bv64 && (cap & (1 << j) == 0 || cap & (1 << j) == 1 << j)
  {
  }

  lemma ClearsBit(caps: bv64, cap: bv64, bit: bv64)
    requires bit != 0 && (cap & bit == 0 || cap & bit == bit)
    ensures Has(Minus(caps, cap), bit) <==> Has(caps, bit) && !Has(cap, bit)
  {
    hide Minus;
    Uncleared(caps, cap, bit);
  }

  lemma Uncleared(caps: bv64, cap: bv64, bit: bv64)
    ensures cap & bit == 0 ==> Minus(caps, cap) & bit == caps & bit
    ensures cap & bit == bit ==> Minus(caps, cap) & bit == 0
  {
  }

  /** The same relation on bits as numbers, as the state machine has it. */
  lemma ClearsByNumber(k: nat, j: nat)
    requires k < 64 && j < 64
    ensures Clears(Pow2(k), Pow2(j)) <==> if k < 31 then j == k else k == 31 && j >= 31
  {
    hide Pow2;
    Pow2Values();
    Pow2Compare(k, 31);
    Pow2Compare(j, 31);
    Pow2Compare(k, j);
  }

  // ---------------------------------------------------------------------
  // A whole rehash.

  /** What modules do during a rehash; removals only mark. */
  datatype Change = Adding(name: string, wantsBit: bool) | Removing(position: nat)

  function CommandOf(c: Change): Command {
    match c
    case Adding(name, wantsBit) => AddCommand(name, wantsBit)
    case Removing(i) => DelCommand(i, true)
  }

  /** The capabilities after these changes. */
  function Changed(caps: seq<Cap>, cs: seq<Change>): seq<Cap> {
    if cs == [] then caps
    else
      var n := |cs| - 1;
      After(State(Changed(caps, cs[..n]), [], []), CommandOf(cs[n])).caps
  }

  /** The state after a rehash: what is marked at the end is gone, and clients lose what the comparison with
      the saved list finds gone. */
  function Rehashed(s: State, cs: seq<Change>): State {
    var caps := Seqs.Filter(Loaded, Changed(s.caps, cs));
    State(caps, CheckedAll(s.clients, SavedOf(s.caps), Names(caps)), [])
  }

  function RehashOf(cs: seq<Change>): seq<Command> {
    [SaveCommand] + seq(|cs|, k requires 0 <= k < |cs| => CommandOf(cs[k])) + [UnloadCommand, CheckCommand]
  }

  /** That is what the commands of a rehash come to. */
  lemma RehashIsRun(s: State, cs: seq<Change>)
    ensures |RehashOf(cs)| == |cs| + 3
    ensures At(After, s, RehashOf(cs), |cs| + 3) == Rehashed(s, cs)
  {
    var xs, n := RehashOf(cs), |cs|;
    ChangesAreRun(s, cs, n);
    assert cs[..n] == cs;
    assert xs[n + 1] == UnloadCommand && xs[n + 2] == CheckCommand;
    Goes(After, s, xs, n + 1);
    Goes(After, s, xs, n + 2);
  }

  lemma {:induction false} ChangesAreRun(s: State, cs: seq<Change>, k: nat)
    requires k <= |cs|
    ensures At(After, s, RehashOf(cs), k + 1) == s.(caps := Changed(s.caps, cs[..k]), saved := SavedOf(s.caps))
  {
    var xs := RehashOf(cs);
    if k == 0 {
      assert xs[0] == SaveCommand;
      Goes(After, s, xs, 0);
    } else {
      ChangesAreRun(s, cs, k - 1);
      assert xs[k] == CommandOf(cs[k - 1]);
      OneMoreChange(s.caps, cs, k);
      hide RehashOf, After, Changed, At;
      Goes(After, s, xs, k);
      ChangeOnCaps(s.(caps := Changed(s.caps, cs[..k - 1]), saved := SavedOf(s.caps)), cs[k - 1]);
    }
  }

  lemma OneMoreChange(caps: seq<Cap>, cs: seq<Change>, k: nat)
    requires 0 < k <= |cs|
    ensures Changed(caps, cs[..k]) == After(State(Changed(caps, cs[..k - 1]), [], []), CommandOf(cs[k - 1])).caps
  {
    hide After;
    assert cs[..k][..k - 1] == cs[..k - 1];
  }

  lemma ChangeOnCaps(s: State, c: Change)
    ensures After(s, CommandOf(c)) == s.(caps := After(State(s.caps, [], []), CommandOf(c)).caps)
  {
    hide Registered;
  }

  /** During the changes every capability stays in the list, with its name and bit. */
  lemma {:induction false} ChangesKeepCaps(caps: seq<Cap>, cs: seq<Change>)
    requires CapsOk(caps)
    ensures CapsOk(Changed(caps, cs))
    ensures forall c | c in caps :: StillIn(c, Changed(caps, cs))
  {
    hide CapsOk, StillIn;
    if cs != [] {
      var n := |cs| - 1;
      var before := Changed(caps, cs[..n]);
      ChangesKeepCaps(caps, cs[..n]);
      ChangeKeepsCaps(before, cs[n]);
      forall c | c in caps
        ensures StillIn(c, Changed(caps, cs))
      {
        StaysIn(c, before, Changed(caps, cs));
      }
    } else {
      forall c | c in caps
        ensures StillIn(c, caps)
      {
        IsIn(c, caps);
      }
    }
  }

  ghost predicate StillIn(c: Cap, caps: seq<Cap>) {
    exists d :: d in caps && d.name == c.name && d.bit == c.bit
  }

  lemma IsIn(c: Cap, caps: seq<Cap>)
    requires c in caps
    ensures StillIn(c, caps)
  {
  }

  lemma StaysIn(c: Cap, before: seq<Cap>, caps: seq<Cap>)
    requires StillIn(c, before) && forall d | d in before :: StillIn(d, caps)
    ensures StillIn(c, caps)
  {
    var d :| d in before && d.name == c.name && d.bit == c.bit;
    assert StillIn(d, caps);
  }

  lemma ChangeKeepsCaps(caps: seq<Cap>, c: Change)
    requires CapsOk(caps)
    ensures var r := After(State(caps, [], []), CommandOf(c)).caps;
      CapsOk(r) && forall d | d in caps :: StillIn(d, r)
  {
    hide CapsOk, StillIn;
    var s := State(caps, [], []);
    AnyStep(s, CommandOf(c));
    match c
    case Adding(name, wantsBit) => AddKeepsIn(caps, name, wantsBit);
    case Removing(i) =>
      if i < |caps| {
        ReplaceKeepsIn(caps, i, caps[i].(unloaded := true));
      } else {
        NothingLeaves(caps);
      }
  }

  lemma NothingLeaves(caps: seq<Cap>)
    ensures forall d | d in caps :: StillIn(d, caps)
  {
  }

  lemma ReplaceKeepsIn(caps: seq<Cap>, i: nat, n: Cap)
    requires i < |caps| && n.name == caps[i].name && n.bit == caps[i].bit
    ensures forall d | d in caps :: StillIn(d, caps[i := n])
  {
    var r := caps[i := n];
    forall d | d in caps
      ensures StillIn(d, r)
    {
      var k :| 0 <= k < |caps| && caps[k] == d;
      assert r[k] in r;
    }
  }

  lemma AddKeepsIn(caps: seq<Cap>, name: string, wantsBit: bool)
    ensures forall d | d in caps :: StillIn(d, Registered(caps, name, wantsBit).0)
  {
    hide StillIn, Fold, Find, FreeBit;
    var i := Find(caps, name);
    NothingLeaves(caps);
    if i < |caps| {
      ReplaceKeepsIn(caps, i, caps[i].(unloaded := false));
    } else {
      var r := Registered(caps, name, wantsBit).0;
      forall d | d in caps
        ensures StillIn(d, r)
      {
        IsIn(d, r);
      }
    }
  }

  /** A name or a bit identifies a capability. */
  lemma SameCap(caps: seq<Cap>, c: Cap, d: Cap)
    requires Unique(caps) && c in caps && d in caps && (c.name == d.name || c.bit == d.bit != 0)
    ensures c == d
  {
    hide Fold;
    var i, j :| 0 <= i < |caps| && caps[i] == c && 0 <= j < |caps| && caps[j] == d;
  }

  /** A capability is gone after the rehash if and only if it was still marked at the end. */
  lemma GoneIsMarked(caps: seq<Cap>, d: Cap)
    requires Unique(caps) && d in caps
    ensures d.name !in Names(Seqs.Filter(Loaded, caps)) <==> d.unloaded
  {
    var r := Seqs.Filter(Loaded, caps);
    Seqs.FilterIs(Loaded, caps);
    hide Seqs.Filter, Fold, Unique;
    if d.name in Names(r) {
      var e :| e in r && e.name == d.name;
      SameCap(caps, d, e);
    }
  }

  // ---------------------------------------------------------------------
  // Bits that are left on clients.

  ghost predicate Owned(caps: seq<Cap>, bit: nat) {
    exists c :: c in caps && c.bit == bit
  }

  /** Every bit that a client has set belongs to a capability. */
  ghost predicate NoStale(s: State) {
    forall k, b | 0 <= k < |s.clients| && b in s.clients[k] :: Owned(s.caps, b)
  }

  predicate Held(clients: seq<set<nat>>, bit: nat) {
    exists k :: 0 <= k < |clients| && bit in clients[k]
  }

  /** Something that happens outside a rehash, or a whole rehash. */
  datatype Event = Outside(x: Command) | Rehash(changes: seq<Change>)

  predicate Ordinary(x: Command) {
    match x
    case DelCommand(i, rehashing) => !rehashing
    case UnloadCommand => false
    case SaveCommand => false
    case CheckCommand => false
    case _ => true
  }

  function AfterEvent(s: State, e: Event): State {
    match e
    case Outside(x) => if Ordinary(x) then After(s, x) else s
    case Rehash(cs) => Rehashed(s, cs)
  }

  /** A removal outside a rehash of a capability that some client has set, or a rehash in which one is gone
      that some client has set, and was not saved, or has a bit from 2^31 on while no saved one with bit 2^31 is
      gone. */
  predicate LeavesStale(s: State, e: Event) {
    match e
    case Outside(x) =>
      x.DelCommand? && !x.rehashing && x.position < |s.caps| && Held(s.clients, s.caps[x.position].bit)
    case Rehash(cs) =>
      var names := Names(Rehashed(s, cs).caps);
      exists i :: 0 <= i < |s.caps| && s.caps[i].name !in names && Held(s.clients, s.caps[i].bit) &&
                  if s.caps[i].bit < INT_SIGN then i >= MAXCLICAPS else !SignGone(s.caps, names)
  }

  /** The same through what the code clears. */
  predicate LeavesUncleared(s: State, cs: seq<Change>) {
    var names := Names(Rehashed(s, cs).caps);
    exists c :: c in s.caps && c.name !in names && Held(s.clients, c.bit) && !Cleared(SavedOf(s.caps), names, c.bit)
  }

  lemma UnclearedExact(s: State, cs: seq<Change>)
    requires Valid(s)
    ensures LeavesUncleared(s, cs) <==> LeavesStale(s, Rehash(cs))
  {
    hide Rehashed, Names, Cleared, SavedOf, Fold, SignGone;
    var names := Names(Rehashed(s, cs).caps);
    forall i | 0 <= i < |s.caps| && s.caps[i].name !in names && Held(s.clients, s.caps[i].bit)
      ensures !Cleared(SavedOf(s.caps), names, s.caps[i].bit) <==>
              if s.caps[i].bit < INT_SIGN then i >= MAXCLICAPS else !SignGone(s.caps, names)
    {
      HeldIsBit(s, s.caps[i].bit);
      RightIsCleared(s.caps, i, names);
    }
    hide Valid, Held;
    if LeavesUncleared(s, cs) {
      var c :| c in s.caps && c.name !in names && Held(s.clients, c.bit) && !Cleared(SavedOf(s.caps), names, c.bit);
      var i :| 0 <= i < |s.caps| && s.caps[i] == c;
    }
    if LeavesStale(s, Rehash(cs)) {
      var i :| 0 <= i < |s.caps| && s.caps[i].name !in names && Held(s.clients, s.caps[i].bit) &&
               if s.caps[i].bit < INT_SIGN then i >= MAXCLICAPS else !SignGone(s.caps, names);
      assert s.caps[i] in s.caps;
    }
  }

  lemma HeldIsBit(s: State, bit: nat)
    requires Valid(s) && Held(s.clients, bit)
    ensures bit != 0
  {
    hide CapsOk;
    var k: nat :| k < |s.clients| && bit in s.clients[k];
    assert InRange(bit, FIRST_BIT, BIT_LIMIT);
  }

  lemma OutsideStep(s: State, x: Command)
    requires Valid(s) && NoStale(s) && Ordinary(x)
    ensures NoStale(After(s, x)) <==> !LeavesStale(s, Outside(x))
  {
    hide View, Fold, InRange, Find, FreeBit, Unique;
    var t := After(s, x);
    match x
    case AddCommand(name, wantsBit) => AddKeepsOwned(s.caps, name, wantsBit);
    case DelCommand(i, rehashing) =>
      if i < |s.caps| {
        DelOutside(s, i);
      }
    case QuitCommand(k) =>
      hide Owned;
      if k < |s.clients| {
        assert forall j | 0 <= j < |t.clients| :: t.clients[j] == s.clients[if j < k then j else j + 1];
      }
    case SetCommand(k, token, on) =>
      var i := Find(s.caps, token);
      if i < |s.caps| {
        assert s.caps[i] in s.caps && Owned(s.caps, s.caps[i].bit);
      }
    case ConnectCommand =>
      hide Owned;
      assert forall j | 0 <= j < |s.clients| :: t.clients[j] == s.clients[j];
  }

  lemma DelOutside(s: State, i: nat)
    requires Valid(s) && NoStale(s) && i < |s.caps|
    ensures NoStale(After(s, DelCommand(i, false))) <==> !Held(s.clients, s.caps[i].bit)
  {
    var bit, rest := s.caps[i].bit, Without(s.caps, i);
    RemoveOwned(s.caps, i);
    forall k, b | 0 <= k < |s.clients| && b in s.clients[k]
      ensures Owned(rest, b) <==> b != bit
    {
      BitIsSet(s, k, b);
    }
    hide Owned, Without, Valid;
    var t := After(s, DelCommand(i, false));
    assert t.clients == s.clients && t.caps == rest;
    if Held(s.clients, bit) {
      var k :| 0 <= k < |s.clients| && bit in s.clients[k];
      assert !Owned(t.caps, bit);
    }
  }

  lemma BitIsSet(s: State, k: nat, b: nat)
    requires Valid(s) && k < |s.clients| && b in s.clients[k]
    ensures b != 0
  {
    assert InRange(b, FIRST_BIT, BIT_LIMIT);
  }

  lemma AddKeepsOwned(caps: seq<Cap>, name: string, wantsBit: bool)
    ensures forall b :: Owned(caps, b) ==> Owned(Registered(caps, name, wantsBit).0, b)
  {
    hide Fold, Find, FreeBit;
    var r := Registered(caps, name, wantsBit).0;
    forall b | Owned(caps, b)
      ensures Owned(r, b)
    {
      var k :| 0 <= k < |caps| && caps[k].bit == b;
      if |r| == |caps| {
        assert r[k] in r && r[k].bit == b;
      } else {
        assert r[k + 1] in r && r[k + 1].bit == b;
      }
    }
  }

  lemma RemoveOwned(caps: seq<Cap>, i: nat)
    requires Unique(caps) && i < |caps|
    ensures forall b | b != 0 :: Owned(Without(caps, i), b) <==> Owned(caps, b) && b != caps[i].bit
  {
    hide Fold;
    Seqs.CutOutIs(caps, i);
    hide Without;
    forall b | b != 0
      ensures Owned(Without(caps, i), b) <==> Owned(caps, b) && b != caps[i].bit
    {
      if Owned(Without(caps, i), b) {
        var c :| c in Without(caps, i) && c.bit == b;
        var k :| 0 <= k < |caps| && k != i && caps[k] == c;
        assert Apart(caps[if i < k then i else k], caps[if i < k then k else i]);
      }
      if Owned(caps, b) && b != caps[i].bit {
        var k :| 0 <= k < |caps| && caps[k].bit == b;
        assert caps[k] in Without(caps, i);
      }
    }
  }

  lemma RehashStep(s: State, cs: seq<Change>)
    requires Valid(s) && NoStale(s)
    ensures NoStale(Rehashed(s, cs)) <==> !LeavesStale(s, Rehash(cs))
  {
    hide Valid, NoStale, Rehashed, Names, Cleared, SavedOf, Held;
    UnclearedExact(s, cs);
    hide LeavesStale;
    if LeavesUncleared(s, cs) {
      var names := Names(Rehashed(s, cs).caps);
      var c :| c in s.caps && c.name !in names && Held(s.clients, c.bit) && !Cleared(SavedOf(s.caps), names, c.bit);
      RehashLeaves(s, cs, c);
    } else {
      RehashCleans(s, cs);
    }
  }

  lemma RehashLeaves(s: State, cs: seq<Change>, c: Cap)
    requires Valid(s) && c in s.caps && c.name !in Names(Rehashed(s, cs).caps) && Held(s.clients, c.bit)
    requires !Cleared(SavedOf(s.caps), Names(Rehashed(s, cs).caps), c.bit)
    ensures !NoStale(Rehashed(s, cs))
  {
    ChangesKeepCaps(s.caps, cs);
    hide Changed, Seqs.Filter, Cleared, SavedOf, CapsOk, StillIn, Owned, Names, Valid, InRange;
    var k: nat :| k < |s.clients| && c.bit in s.clients[k];
    BitIsSet(s, k, c.bit);
    GoneIsUnowned(Changed(s.caps, cs), c);
    hide Rehashed;
    ClientAfter(s, cs, k);
    StaleAt(Rehashed(s, cs), k, c.bit);
  }

  lemma ClientAfter(s: State, cs: seq<Change>, k: nat)
    requires k < |s.clients|
    ensures var t := Rehashed(s, cs);
      t.caps == Seqs.Filter(Loaded, Changed(s.caps, cs)) && k < |t.clients| &&
      forall b :: b in t.clients[k] <==> b in s.clients[k] && !Cleared(SavedOf(s.caps), Names(t.caps), b)
  {
    hide Changed, Seqs.Filter, Cleared, SavedOf, Names;
  }

  lemma StaleAt(s: State, k: nat, b: nat)
    requires k < |s.clients| && b in s.clients[k] && !Owned(s.caps, b)
    ensures !NoStale(s)
  {
    hide Owned;
  }

  lemma RehashCleans(s: State, cs: seq<Change>)
    requires Valid(s) && NoStale(s) && !LeavesUncleared(s, cs)
    ensures NoStale(Rehashed(s, cs))
  {
    hide Changed, Seqs.Filter, Cleared, SavedOf, CapsOk, StillIn, Owned, Names;
    ChangesKeepCaps(s.caps, cs);
    var t := Rehashed(s, cs);
    forall k, b | 0 <= k < |t.clients| && b in t.clients[k]
      ensures Owned(t.caps, b)
    {
      assert b in s.clients[k];
      var c := OwnerOf(s.caps, b);
      assert Held(s.clients, c.bit);
      StaysOwned(Changed(s.caps, cs), c);
    }
  }

  lemma OwnerOf(caps: seq<Cap>, bit: nat) returns (c: Cap)
    requires Owned(caps, bit)
    ensures c in caps && c.bit == bit
  {
    c :| c in caps && c.bit == bit;
  }

  lemma StaysOwned(caps: seq<Cap>, c: Cap)
    requires CapsOk(caps) && StillIn(c, caps) && c.name in Names(Seqs.Filter(Loaded, caps))
    ensures Owned(Seqs.Filter(Loaded, caps), c.bit)
  {
    hide Fold, Unique, InRange;
    var d :| d in caps && d.name == c.name && d.bit == c.bit;
    GoneIsMarked(caps, d);
    Seqs.FilterIs(Loaded, caps);
    hide Seqs.Filter;
  }

  lemma GoneIsUnowned(caps: seq<Cap>, c: Cap)
    requires CapsOk(caps) && StillIn(c, caps) && c.bit != 0 && c.name !in Names(Seqs.Filter(Loaded, caps))
    ensures !Owned(Seqs.Filter(Loaded, caps), c.bit)
  {
    hide Fold, InRange, Unique;
    var d :| d in caps && d.name == c.name && d.bit == c.bit;
    var r := Seqs.Filter(Loaded, caps);
    Seqs.FilterIs(Loaded, caps);
    GoneIsMarked(caps, d);
    hide Seqs.Filter;
    if Owned(r, d.bit) {
      var e :| e in r && e.bit == d.bit;
      SameCap(caps, d, e);
    }
  }

  lemma EventStep(s: State, e: Event)
    requires Valid(s)
    ensures Valid(AfterEvent(s, e)) && (NoStale(s) ==> (NoStale(AfterEvent(s, e)) <==> !LeavesStale(s, e)))
  {
    hide Valid, NoStale, LeavesStale, After, Rehashed, GoodStep;
    match e
    case Outside(x) =>
      AnyStep(s, x);
      GoodIsValid(s, x);
      if NoStale(s) {
        if Ordinary(x) {
          OutsideStep(s, x);
        } else {
          NothingHappens(s, x);
        }
      }
    case Rehash(cs) =>
      RehashIsValid(s, cs);
      if NoStale(s) {
        RehashStep(s, cs);
      }
  }

  lemma GoodIsValid(s: State, x: Command)
    requires GoodStep(s, x)
    ensures Valid(After(s, x))
  {
  }

  lemma NothingHappens(s: State, x: Command)
    requires !Ordinary(x)
    ensures !LeavesStale(s, Outside(x))
  {
  }

  lemma RehashIsValid(s: State, cs: seq<Change>)
    requires Valid(s)
    ensures Valid(Rehashed(s, cs))
  {
    hide Valid, After;
    RunsAreRuns(s, RehashOf(cs));
    RehashIsRun(s, cs);
  }

  /** Without bits of former capabilities on clients at the beginning, there never are any if and only if no
      removal and no rehash on the way leaves one. */
  lemma StaleInRuns(s: State, es: seq<Event>)
    requires Valid(s) && NoStale(s)
    ensures Always(AfterEvent, NoStale, s, es) <==> Never(AfterEvent, LeavesStale, s, es)
  {
    hide Valid, NoStale, LeavesStale, AfterEvent, Always, Never;
    forall s, e | Valid(s)
      ensures Valid(AfterEvent(s, e)) && (NoStale(s) ==> (NoStale(AfterEvent(s, e)) <==> !LeavesStale(s, e)))
    {
      EventStep(s, e);
    }
    Throughout(AfterEvent, Valid, NoStale, LeavesStale, s, es);
  }

  /** A bit that is handed out is then on no client. */
  lemma NewBitIsUnset(s: State)
    requires Valid(s) && NoStale(s)
    ensures var bit := FreeBit(UsedBits(s.caps), FIRST_BIT, BIT_LIMIT);
      bit != 0 ==> !Held(s.clients, bit)
  {
    hide FreeBit, InRange, CapsOk;
    FreeBitIs(UsedBits(s.caps), FIRST_BIT, BIT_LIMIT);
    assert forall b | Owned(s.caps, b) :: b in UsedBits(s.caps);
  }

  /** A client sets a capability, that is removed, and another one registered. */
  function RemovalStory(first: string, second: string): seq<Command> {
    [AddCommand(first, true), ConnectCommand, SetCommand(0, first, true), DelCommand(0, false),
     AddCommand(second, true)]
  }

  /** The client then has the second one set. */
  lemma SecondIsSet(first: string, second: string)
    ensures var s := At(After, State([], [], []), RemovalStory(first, second), 5);
      s.caps == [Cap(second, 2, false)] && s.clients == [{2}]
  {
    var xs, s0 := RemovalStory(first, second), State([], [], []);
    var a := Cap(first, 2, false);
    assert Pow2(1) == 2;
    assert FreeBit({}, FIRST_BIT, BIT_LIMIT) == 2;
    assert UsedBits([]) == {};
    assert [a] + [] == [a];
    assert After(s0, xs[0]) == State([a], [], []);
    assert After(State([a], [], []), xs[1]) == State([a], [{}], []);
    assert BitOf([a], first) == 2 && WithBit({}, 2, true) == {2} && [{}][0 := {2}] == [{2}];
    assert After(State([a], [{}], []), xs[2]) == State([a], [{2}], []);
    assert After(State([a], [{2}], []), xs[3]) == State([], [{2}], []);
    assert After(State([], [{2}], []), xs[4]) == State([Cap(second, 2, false)], [{2}], []);
    hide After;
    Goes(After, s0, xs, 0);
    Goes(After, s0, xs, 1);
    Goes(After, s0, xs, 2);
    Goes(After, s0, xs, 3);
    Goes(After, s0, xs, 4);
  }

  // ---------------------------------------------------------------------
  // What a client loses in a rehash.

  /** When all saved bits fit an int, a client keeps a bit if and only if every saved capability with it is still
      there. Capabilities that are only advertised are saved as 0. */
  lemma RehashClearsGone(bits: set<nat>, saved: seq<Saved>, names: set<string>, bit: nat)
    requires forall x | x in saved :: x.proto < INT_SIGN
    ensures bit in Checked(bits, saved, names) <==>
      bit in bits && forall x | x in saved && x.proto == bit && bit != 0 :: x.name in names
  {
    if bit in bits && bit !in Checked(bits, saved, names) {
      var x :| x in saved && x.name !in names && Clears(x.proto, bit);
      assert x.proto == bit;
    }
  }

  /** The bits of the capabilities that are gone. */
  function Gone(caps: seq<Cap>, names: set<string>): set<nat> {
    set c | c in caps && c.name !in names :: c.bit
  }

  /** The saved capability with bit 31, which takes all higher bits with it, is gone. */
  predicate SignGone(caps: seq<Cap>, names: set<string>) {
    exists k :: 0 <= k < |caps| && k < MAXCLICAPS && caps[k].bit == INT_SIGN && caps[k].name !in names
  }

  /** A capability that is gone is cleared: it was saved with a lower bit, or goes with bit 31. One that stays
      does not go with bit 31. */
  predicate ClearedRight(caps: seq<Cap>, i: nat, names: set<string>)
    requires i < |caps|
  {
    var c := caps[i];
    if c.name in names then c.bit >= INT_SIGN ==> !SignGone(caps, names)
    else if c.bit < INT_SIGN then i < MAXCLICAPS
    else SignGone(caps, names)
  }

  /** Only bits of these capabilities. */
  ghost predicate OwnBits(bits: set<nat>, caps: seq<Cap>) {
    forall b | b in bits :: b != 0 && Owned(caps, b)
  }

  /** Every client, whichever capabilities it has set, loses exactly those that are gone, if and only if each
      capability with a bit is cleared or kept as it should be. */
  lemma RehashExact(caps: seq<Cap>, names: set<string>)
    requires Unique(caps)
    ensures (forall bits | OwnBits(bits, caps) :: Checked(bits, SavedOf(caps), names) == bits - Gone(caps, names)) <==>
      forall i | 0 <= i < |caps| && caps[i].bit != 0 :: ClearedRight(caps, i, names)
  {
    hide Unique, Cleared, Clears, SavedOf, SignGone, Owned;
    if forall i | 0 <= i < |caps| && caps[i].bit != 0 :: ClearedRight(caps, i, names) {
      forall bits | OwnBits(bits, caps)
        ensures Checked(bits, SavedOf(caps), names) == bits - Gone(caps, names)
      {
        RightForAll(caps, names, bits);
      }
    } else {
      var i: nat :| i < |caps| && caps[i].bit != 0 && !ClearedRight(caps, i, names);
      WrongForOne(caps, names, i);
    }
  }

  /** Whether a capability's bit is cleared, by the condition. */
  lemma RightIsCleared(caps: seq<Cap>, i: nat, names: set<string>)
    requires Unique(caps) && i < |caps| && caps[i].bit != 0
    ensures ClearedRight(caps, i, names) <==> (Cleared(SavedOf(caps), names, caps[i].bit) <==> caps[i].name !in names)
  {
    hide Fold;
    var saved, c := SavedOf(caps), caps[i];
    assert Cleared(saved, names, c.bit) <==>
      exists k :: 0 <= k < |saved| && saved[k].name !in names && Clears(saved[k].proto, c.bit);
    if c.bit < INT_SIGN {
      LowBitCleared(caps, i, names);
    } else {
      assert Cleared(saved, names, c.bit) <==> SignGone(caps, names) by {
        if SignGone(caps, names) {
          var k :| 0 <= k < |caps| && k < MAXCLICAPS && caps[k].bit == INT_SIGN && caps[k].name !in names;
          assert saved[k] in saved && Clears(saved[k].proto, c.bit);
        }
      }
    }
  }

  lemma SameIndex(caps: seq<Cap>, i: nat, k: nat)
    requires Unique(caps) && i < |caps| && k < |caps| && caps[i].bit == caps[k].bit != 0
    ensures i == k
  {
    hide Fold;
  }

  lemma LowBitCleared(caps: seq<Cap>, i: nat, names: set<string>)
    requires Unique(caps) && i < |caps| && 0 < caps[i].bit < INT_SIGN
    ensures Cleared(SavedOf(caps), names, caps[i].bit) <==> i < MAXCLICAPS && caps[i].name !in names
  {
    hide Fold;
    var saved, c := SavedOf(caps), caps[i];
    if i < MAXCLICAPS && c.name !in names {
      assert saved[i] in saved && Clears(saved[i].proto, c.bit);
    }
    if Cleared(saved, names, c.bit) {
      var k: nat :| k < |saved| && saved[k].name !in names && Clears(saved[k].proto, c.bit);
      SameIndex(caps, i, k);
    }
  }

  lemma RightForAll(caps: seq<Cap>, names: set<string>, bits: set<nat>)
    requires Unique(caps) && OwnBits(bits, caps)
    requires forall i | 0 <= i < |caps| && caps[i].bit != 0 :: ClearedRight(caps, i, names)
    ensures Checked(bits, SavedOf(caps), names) == bits - Gone(caps, names)
  {
    hide Cleared, SavedOf, ClearedRight, Unique;
    forall b | b in bits
      ensures Cleared(SavedOf(caps), names, b) <==> b in Gone(caps, names)
    {
      assert Owned(caps, b);
      var i: nat :| i < |caps| && caps[i].bit == b;
      RightIsCleared(caps, i, names);
      GoneAt(caps, i, names);
    }
  }

  lemma GoneAt(caps: seq<Cap>, i: nat, names: set<string>)
    requires Unique(caps) && i < |caps| && caps[i].bit != 0
    ensures caps[i].bit in Gone(caps, names) <==> caps[i].name !in names
  {
    hide Fold;
    assert caps[i] in caps;
    if caps[i].bit in Gone(caps, names) {
      var k: nat :| k < |caps| && caps[k].name !in names && caps[k].bit == caps[i].bit;
      SameIndex(caps, i, k);
    }
  }

  /** A client that has just this capability set keeps or loses it wrongly. */
  lemma WrongForOne(caps: seq<Cap>, names: set<string>, i: nat)
    requires Unique(caps) && i < |caps| && caps[i].bit != 0 && !ClearedRight(caps, i, names)
    ensures OwnBits({caps[i].bit}, caps)
    ensures Checked({caps[i].bit}, SavedOf(caps), names) != {caps[i].bit} - Gone(caps, names)
  {
    hide Cleared, SavedOf, ClearedRight, Unique;
    RightIsCleared(caps, i, names);
    GoneAt(caps, i, names);
    assert caps[i] in caps && Owned(caps, caps[i].bit);
    var b := caps[i].bit;
    assert b in Checked({b}, SavedOf(caps), names) <==> !Cleared(SavedOf(caps), names, b);
    assert b in {b} - Gone(caps, names) <==> b !in Gone(caps, names);
  }

  // ---------------------------------------------------------------------
  // What requests come to.

  /** After a registration the name has an entry that is not marked, with the bit handed out, and nothing else has
      changed. A new one comes first, under the very name that was asked for. */
  lemma AddedAsRequested(caps: seq<Cap>, name: string, wantsBit: bool)
    requires Registered(caps, name, wantsBit).1.Added?
    ensures var (t, r) := Registered(caps, name, wantsBit);
      && (exists k :: 0 <= k < |t| && Fold(t[k].name) == Fold(name) && t[k].bit == r.bit && !t[k].unloaded)
      && (forall c: Cap | Fold(c.name) != Fold(name) :: c in t <==> c in caps)
      && (if forall c | c in caps :: Fold(c.name) != Fold(name)
          then t == [Cap(name, r.bit, false)] + caps && (r.bit == 0 <==> !wantsBit)
          else |t| == |caps|)
  {
    hide FreeBit, Fold;
    var i := Find(caps, name);
    var t := Registered(caps, name, wantsBit).0;
    if i < |caps| {
      assert caps[i] in caps && Fold(t[i].name) == Fold(name) && !t[i].unloaded;
      forall c: Cap | Fold(c.name) != Fold(name)
        ensures c in t <==> c in caps
      {
        if c in caps {
          var k :| 0 <= k < |caps| && caps[k] == c;
          assert t[k] == c;
        }
      }
    } else {
      assert t[0].name == name && t[1..] == caps;
    }
  }

  /** When registrations are refused, or end the server. */
  lemma AddOutcome(caps: seq<Cap>, name: string, wantsBit: bool)
    requires Unique(caps)
    ensures var (t, r) := Registered(caps, name, wantsBit);
      && (r == Failed(EXISTS) <==> exists c :: c in caps && Fold(c.name) == Fold(name) && !c.unloaded)
      && (r == Failed(NOSPACE) <==>
            wantsBit && (forall c | c in caps :: Fold(c.name) != Fold(name)) &&
            forall b: nat | InRange(b, FIRST_BIT, BIT_LIMIT) :: exists c :: c in caps && c.bit == b)
      && (r == Aborted <==>
            !wantsBit && exists c :: c in caps && Fold(c.name) == Fold(name) && c.unloaded && c.bit != 0)
      && (r.Failed? ==> t == caps)
      && (forall c | c in caps && Fold(c.name) == Fold(name) && c.unloaded && r != Aborted :: r == Added(c.bit))
  {
    hide FreeBit, InRange, Fold;
    var used := UsedBits(caps);
    FreeBitIs(used, FIRST_BIT, BIT_LIMIT);
    assert forall b: nat :: b in used <==> exists c :: c in caps && c.bit == b;
    var i := Find(caps, name);
    if i < |caps| {
      forall c | c in caps && Fold(c.name) == Fold(name)
        ensures c == caps[i]
      {
        var k :| 0 <= k < |caps| && caps[k] == c;
        assert i <= k;
        assert i == k || Apart(caps[i], caps[k]);
      }
      assert caps[i] in caps;
    } else {
      forall c | c in caps
        ensures Fold(c.name) != Fold(name)
      {
        var k :| 0 <= k < |caps| && caps[k] == c;
      }
    }
  }

  /** A client has a capability that owns a bit after it is set, and not after it is cleared; nothing else
      changes. */
  lemma SetTakesEffect(s: State, k: nat, c: Cap, on: bool)
    requires Unique(s.caps) && k < |s.clients| && c in s.caps && c.bit != 0
    ensures var t := After(s, SetCommand(k, c.name, on));
      && t.caps == s.caps && t.saved == s.saved && |t.clients| == |s.clients|
      && (forall j | 0 <= j < |s.clients| && j != k :: t.clients[j] == s.clients[j])
      && (c.bit in t.clients[k] <==> on)
      && forall b | b != c.bit :: b in t.clients[k] <==> b in s.clients[k]
  {
    hide Fold;
    var i := Find(s.caps, c.name);
    var j :| 0 <= j < |s.caps| && s.caps[j] == c;
    assert i <= j;
    assert i == j || Apart(s.caps[i], s.caps[j]);
  }

  /** After a removal exactly that capability is gone, and during a rehash it is only marked; an unload takes
      exactly the marked ones. The clients keep what they have. */
  lemma RemoveTakesEffect(s: State, i: nat)
    requires i < |s.caps|
    ensures After(s, DelCommand(i, false)) == s.(caps := s.caps[..i] + s.caps[i + 1..])
    ensures After(s, DelCommand(i, true)) == s.(caps := s.caps[..i] + [s.caps[i].(unloaded := true)] + s.caps[i + 1..])
    ensures var t := After(s, UnloadCommand);
      && t.clients == s.clients && t.saved == s.saved
      && forall c :: c in t.caps <==> c in s.caps && !c.unloaded
  {
    Seqs.FilterIs(Loaded, s.caps);
    assert s.caps[i := s.caps[i].(unloaded := true)] == s.caps[..i] + [s.caps[i].(unloaded := true)] + s.caps[i + 1..];
  }

  ghost predicate HasName(caps: seq<Cap>, name: string) {
    exists c :: c in caps && c.name == name
  }

  /** A check leaves with every client the bits that no saved capability whose name is gone clears, and nothing of
      the saved lists. */
  lemma CheckTakesEffect(s: State)
    ensures var t := After(s, CheckCommand);
      && t.caps == s.caps && t.saved == [] && |t.clients| == |s.clients|
      && forall k, b | 0 <= k < |s.clients| ::
           b in t.clients[k] <==>
           b in s.clients[k] && forall x | x in s.saved && Clears(x.proto, b) :: HasName(s.caps, x.name)
  {
    hide Clears;
    forall k, b: nat | 0 <= k < |s.clients|
      ensures b in Checked(s.clients[k], s.saved, Names(s.caps)) <==>
        b in s.clients[k] && forall x | x in s.saved && Clears(x.proto, b) :: HasName(s.caps, x.name)
    {
    }
  }
}
