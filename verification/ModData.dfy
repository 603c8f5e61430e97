/**
 Module data slots (`src/api-moddata.c`): for each type of object a list of registrations, ordered
 by priority, each owning a slot in that type's array.
 */
module ModData {
  import opened Holders
  import opened Registry
  import opened Runs
  import Seqs

  /** The array that holds the data of a type. */
  function ArrayLength(t: Type): nat {
    match t
    case LOCAL_VARIABLE => 500
    case GLOBAL_VARIABLE => 500
    case CLIENT => 24
    case LOCAL_CLIENT => 24
    case CHANNEL => 8
    case MEMBER => 4
    case MEMBERSHIP => 4
  }

  /** The limit in moddatatypelimits; the membership row holds the type's number, not its array's length. */
  function Limit(t: Type): nat {
    if t == MEMBERSHIP then 7 else ArrayLength(t)
  }

  datatype Error = EXISTS | NOSPACE
  datatype Result = Added(slot: nat) | Failed(error: Error)

  predicate Unique(es: seq<Entry>) {
    forall i, j | 0 <= i < j < |es| :: es[i].name != es[j].name && es[i].slot != es[j].slot
  }

  /** Names and slots are unique, and slots respect the limit. */
  predicate Ok(es: seq<Entry>, limit: nat) {
    Unique(es) && forall e | e in es :: e.slot < limit
  }

  /** The first entry with this name, or the length. */
  function Find(es: seq<Entry>, name: string): (i: nat)
    ensures i <= |es| && (i < |es| ==> es[i].name == name)
    ensures forall k | 0 <= k < i :: es[k].name != name
  {
    if es == [] || es[0].name == name then 0 else 1 + Find(es[1..], name)
  }

  lemma FindIs(es: seq<Entry>, i: nat)
    requires Unique(es) && i < |es|
    ensures Find(es, es[i].name) == i
  {
  }

  ghost function View(es: seq<Entry>): (v: map<string, Slot>)
    ensures Unique(es) ==> forall e | e in es :: e.name in v && v[e.name] == Slot(e.slot, e.unloaded)
    ensures forall n | n in v :: exists e :: e in es && e.name == n
  {
    var v := map n | n in (set e | e in es :: e.name) :: SlotOf(es, n);
    assert Unique(es) ==> forall e | e in es :: v[e.name] == Slot(e.slot, e.unloaded) by {
      if Unique(es) {
        forall e | e in es
          ensures SlotOf(es, e.name) == Slot(e.slot, e.unloaded)
        {
          var i: nat :| i < |es| && es[i] == e;
          FindIs(es, i);
        }
      }
    }
    v
  }

  function SlotOf(es: seq<Entry>, name: string): Slot {
    var i := Find(es, name);
    if i < |es| then Slot(es[i].slot, es[i].unloaded) else Slot(NONE, false)
  }

  /** One more than the highest slot in use. */
  function NextSlot(es: seq<Entry>): nat {
    if es == [] then 0
    else
      var k := |es| - 1;
      var n := NextSlot(es[..k]);
      if es[k].slot + 1 > n then es[k].slot + 1 else n
  }

  lemma {:induction false} NextSlotIs(es: seq<Entry>)
    ensures forall e | e in es :: e.slot < NextSlot(es)
    ensures NextSlot(es) > 0 ==> exists e :: e in es && e.slot == NextSlot(es) - 1
  {
    if es != [] {
      var k := |es| - 1;
      NextSlotIs(es[..k]);
      assert es == es[..k] + [es[k]];
      if es[k].slot + 1 <= NextSlot(es[..k]) {
        var e :| e in es[..k] && e.slot == NextSlot(es[..k]) - 1;
        assert e in es;
      } else {
        assert es[k] in es;
      }
    }
  }

  /** add_ListItemPrio inserts before the first item of the same or a higher priority. */
  function PriorityPosition(es: seq<Entry>, priority: int): (i: nat)
    ensures i <= |es|
  {
    if es == [] || es[0].priority >= priority then 0 else 1 + PriorityPosition(es[1..], priority)
  }

  function Inserted(es: seq<Entry>, e: Entry): seq<Entry> {
    Seqs.InsertAt(es, PriorityPosition(es, e.priority), e)
  }

  function Without(es: seq<Entry>, i: nat): seq<Entry>
    requires i < |es|
  {
    Seqs.CutOut(es, i)
  }

  datatype Command =
    | AddCommand(name: string, priority: int)
    | DelCommand(position: nat, rehashing: bool)
    | UnloadCommand
    | ObjectCommand(place: Place)
    | MoveCommand(object: nat, place: Place)
    | FreeCommand(object: nat)
    | WriteCommand(object: nat, position: nat, value: int)

  // ---------------------------------------------------------------------
  // What the operations do, on values.

  /** The registrations and the objects of one type. */
  datatype State = State(t: Type, entries: seq<Entry>, objects: seq<Holder>)

  ghost predicate Valid(s: State) {
    Ok(s.entries, Limit(s.t)) && HoldersOk(s.t, s.objects, s.entries)
  }

  /** No data of a former registration is left anywhere. */
  ghost predicate NoStale(s: State) {
    AllTidy(s.objects, s.entries)
  }

  /** ModDataAdd: a marked entry of this name is revived with its slot; a new one gets the slot above the
      highest in use, if that is below the limit. */
  function Registered(es: seq<Entry>, name: string, priority: int, limit: nat): (seq<Entry>, Result) {
    var i := Find(es, name);
    if i < |es| then
      if es[i].unloaded then (es[i := es[i].(unloaded := false, priority := priority)], Added(es[i].slot))
      else (es, Failed(EXISTS))
    else if NextSlot(es) >= limit then (es, Failed(NOSPACE))
    else (Inserted(es, Entry(name, NextSlot(es), false, priority)), Added(NextSlot(es)))
  }

  /** unload_moddata_commit: the entry is gone, and its slot is zero on the objects that are reached. */
  function Removed(s: State, i: nat): State
    requires i < |s.entries|
  {
    s.(entries := Without(s.entries, i), objects := Zeroed(s.t, s.objects, {s.entries[i].slot}))
  }

  predicate Loaded(e: Entry) {
    !e.unloaded
  }

  function MarkedSlots(es: seq<Entry>): set<nat> {
    set e | e in es && e.unloaded :: e.slot
  }

  /** unload_all_unused_moddata, for one type: the marked entries are gone, one after the other. */
  function Unloaded(s: State): State {
    s.(entries := Seqs.Filter(Loaded, s.entries), objects := Zeroed(s.t, s.objects, MarkedSlots(s.entries)))
  }

  function Written(h: Holder, slot: nat, value: int): Holder {
    h.(data := if value == 0 then h.data - {slot} else h.data[slot := value])
  }

  function After(s: State, x: Command): State {
    match x
    case AddCommand(name, priority) => s.(entries := Registered(s.entries, name, priority, Limit(s.t)).0)
    case DelCommand(i, rehashing) =>
      if i >= |s.entries| then s
      else if rehashing then s.(entries := s.entries[i := s.entries[i].(unloaded := true)])
      else Removed(s, i)
    case UnloadCommand => Unloaded(s)
    case ObjectCommand(place) =>
      if Starts(s.t, place) then s.(objects := s.objects + [Holder(place, map[])]) else s
    case MoveCommand(k, place) =>
      if k < |s.objects| && Moves(s.objects[k].place, place)
      then s.(objects := s.objects[k := s.objects[k].(place := place)]) else s
    case FreeCommand(k) => if k < |s.objects| then s.(objects := Seqs.CutOut(s.objects, k)) else s
    case WriteCommand(k, i, value) =>
      if k < |s.objects| && i < |s.entries|
      then s.(objects := s.objects[k := Written(s.objects[k], s.entries[i].slot, value)]) else s
  }

  /** The same as an operation of the registry. */
  function OpOf(s: State, x: Command): Op<string> {
    match x
    case AddCommand(name, priority) =>
      var i := Find(s.entries, name);
      if i < |s.entries| then if s.entries[i].unloaded then Revive(name) else Reject
      else if NextSlot(s.entries) >= Limit(s.t) then Reject
      else Register(name, NextSlot(s.entries))
    case DelCommand(i, rehashing) =>
      if i >= |s.entries| then Reject
      else if rehashing then Mark(s.entries[i].name)
      else Op.Remove(s.entries[i].name)
    case UnloadCommand => CommitAll
    case _ => Reject
  }

  /** A removal that leaves stale data: something in the slot is out of reach. */
  predicate LeavesStale(s: State, x: Command) {
    match x
    case DelCommand(i, rehashing) =>
      i < |s.entries| && !rehashing && OutOfReach(s.t, s.objects, {s.entries[i].slot})
    case UnloadCommand => OutOfReach(s.t, s.objects, MarkedSlots(s.entries))
    case _ => false
  }

  ghost function TableOf(s: State): map<string, Slot> {
    View(s.entries)
  }

  /** An object after one loop over a list, and after several. */
  function AfterWalk(h: Holder, list: List, slot: nat): Holder {
    if list in Lists(h.place) then h.(data := h.data - {slot}) else h
  }

  function AfterWalks(h: Holder, lists: seq<List>, slot: nat): Holder {
    if lists == [] then h
    else
      var n := |lists| - 1;
      AfterWalk(AfterWalks(h, lists[..n], slot), lists[n], slot)
  }

  lemma OneMoreWalk(h: Holder, lists: seq<List>, n: nat, slot: nat)
    requires n < |lists|
    ensures AfterWalks(h, lists[..n + 1], slot) == AfterWalk(AfterWalks(h, lists[..n], slot), lists[n], slot)
  {
    assert lists[..n + 1][..n] == lists[..n];
  }

  /** It is zeroed if and only if it is on one of the lists. */
  lemma {:induction false} WalksZero(h: Holder, lists: seq<List>, slot: nat)
    ensures AfterWalks(h, lists, slot) ==
      if exists list :: list in lists && list in Lists(h.place) then h.(data := h.data - {slot}) else h
  {
    if lists != [] {
      hide Lists;
      var n := |lists| - 1;
      WalksZero(h, lists[..n], slot);
      assert lists == lists[..n] + [lists[n]];
      assert h.data - {slot} - {slot} == h.data - {slot};
    }
  }

  lemma AllWalks(t: Type, h: Holder, slot: nat)
    ensures AfterWalks(h, Walked(t), slot) == AfterCommit(t, h, {slot})
  {
    hide Walked, Lists;
    WalksZero(h, Walked(t), slot);
  }

  // ---------------------------------------------------------------------
  // The registry object.

  class Table {
    const t: Type
    const limit: nat
    var entries: seq<Entry>
    var objects: seq<Holder>

    function St(): State
      reads this
    {
      State(t, entries, objects)
    }

    constructor (t: Type)
      ensures St() == State(t, [], []) && limit == Limit(t) && Valid(St()) && NoStale(St())
    {
      this.t, limit := t, Limit(t);
      entries, objects := [], [];
    }

    /** ModDataAdd */
    method Add(name: string, priority: int) returns (r: Result)
      requires limit == Limit(t)
      modifies this`entries
      ensures (entries, r) == Registered(old(entries), name, priority, Limit(t))
    {
      var i, slotav := Hunt(name);
      hide NextSlot, Find;
      if i < |entries| {
        if entries[i].unloaded {
          r := Added(entries[i].slot);
          entries := entries[i := entries[i].(unloaded := false, priority := priority)];
          return;
        }
        return Failed(EXISTS);
      }
      if slotav >= limit {
        return Failed(NOSPACE);
      }
      entries := Inserted(entries, Entry(name, slotav, false, priority));
      return Added(slotav);
    }

    /** The loop of ModDataAdd: the entry with this name, or the slot above the highest in use. */
    method Hunt(name: string) returns (i: nat, slotav: nat)
      ensures i == Find(entries, name) && (i == |entries| ==> slotav == NextSlot(entries))
    {
      i, slotav := 0, 0;
      while i < |entries|
        invariant i <= |entries| && slotav == NextSlot(entries[..i])
        invariant Find(entries, name) == i + Find(entries[i..], name)
      {
        if entries[i].name == name {
          return;
        }
        assert entries[..i + 1][..i] == entries[..i];
        assert entries[i..][1..] == entries[i + 1..];
        slotav := if entries[i].slot + 1 > slotav then entries[i].slot + 1 else slotav;
        i := i + 1;
      }
      assert entries[..i] == entries;
    }

    /** ModDataDel: during a rehash the entry is only marked, otherwise it is removed at once. */
    method Del(i: nat, rehashing: bool)
      requires i < |entries|
      modifies this`entries, this`objects
      ensures St() == After(old(St()), DelCommand(i, rehashing))
    {
      if rehashing {
        entries := entries[i := entries[i].(unloaded := true)];
      } else {
        Commit(i);
      }
    }

    /** One loop of unload_moddata_commit: the slot is zeroed on every object of a list. */
    method ZeroOnList(list: List, slot: nat)
      modifies this`objects
      ensures |objects| == |old(objects)|
      ensures forall j | 0 <= j < |objects| :: objects[j] == AfterWalk(old(objects)[j], list, slot)
    {
      var k: nat := 0;
      while k < |objects|
        invariant k <= |objects| == |old(objects)|
        invariant forall j | 0 <= j < k :: objects[j] == AfterWalk(old(objects)[j], list, slot)
        invariant forall j | k <= j < |objects| :: objects[j] == old(objects)[j]
      {
        if list in Lists(objects[k].place) {
          objects := objects[k := objects[k].(data := objects[k].data - {slot})];
        }
        k := k + 1;
      }
    }

    /** All its loops, for one type. */
    method ZeroSlot(slot: nat)
      modifies this`objects
      ensures objects == Zeroed(t, old(objects), {slot})
    {
      hide Lists, Zeroed, AfterWalk;
      var lists := Walked(t);
      var n: nat := 0;
      while n < |lists|
        invariant n <= |lists| && |objects| == |old(objects)|
        invariant forall j | 0 <= j < |objects| :: objects[j] == AfterWalks(old(objects)[j], lists[..n], slot)
      {
        assert forall j | 0 <= j < |objects| ::
          AfterWalk(objects[j], lists[n], slot) == AfterWalks(old(objects)[j], lists[..n + 1], slot) by {
          forall j | 0 <= j < |objects| {
            OneMoreWalk(old(objects)[j], lists, n, slot);
          }
        }
        ZeroOnList(lists[n], slot);
        n := n + 1;
      }
      assert lists[..n] == lists;
      forall j | 0 <= j < |objects|
        ensures objects[j] == AfterCommit(t, old(objects)[j], {slot})
      {
        AllWalks(t, old(objects)[j], slot);
      }
    }

    /** unload_moddata_commit */
    method Commit(i: nat)
      requires i < |entries|
      modifies this`entries, this`objects
      ensures St() == Removed(old(St()), i)
    {
      ZeroSlot(entries[i].slot);
      entries := Without(entries, i);
    }

    /** unload_all_unused_moddata, for one type */
    method UnloadAllUnused()
      modifies this`entries, this`objects
      ensures St() == Unloaded(old(St()))
    {
      hide Seqs.Pruning, Seqs.Filter, Zeroed, MarkedSlots;
      ghost var before := entries;
      Seqs.PruningStarts(Loaded, before);
      NoSlots();
      ZeroedTwice(t, objects, {}, {});
      var i: nat := 0;
      ghost var j := 0;
      while i < |entries|
        invariant j <= |before| && entries == Seqs.Pruning(Loaded, before, j)
        invariant i == |Seqs.Filter(Loaded, before[..j])| <= |entries|
        invariant |entries| - i == |before| - j
        invariant objects == Zeroed(t, old(objects), MarkedSlots(before[..j]))
        decreases |before| - j
      {
        Seqs.PruningStep(Loaded, before, j);
        MarkedStep(before, j);
        if entries[i].unloaded {
          ZeroedTwice(t, old(objects), MarkedSlots(before[..j]), {before[j].slot});
          Commit(i);
        } else {
          i := i + 1;
        }
        j := j + 1;
      }
      Seqs.PruningEnds(Loaded, before);
      Seqs.TakeAll(before);
    }

    /** An object comes, with all slots zero. */
    method NewObject(place: Place)
      modifies this`objects
      ensures objects == old(objects) + [Holder(place, map[])]
    {
      objects := objects + [Holder(place, map[])];
    }

    /** A client leaves the handshake, with its data. */
    method MoveObject(k: nat, place: Place)
      requires k < |objects|
      modifies this`objects
      ensures objects == old(objects)[k := old(objects)[k].(place := place)]
    {
      objects := objects[k := objects[k].(place := place)];
    }

    /** An object goes. */
    method FreeObject(k: nat)
      requires k < |objects|
      modifies this`objects
      ensures objects == Seqs.CutOut(old(objects), k)
    {
      objects := Seqs.CutOut(objects, k);
    }

    /** The module of entry i writes a value into its slot of an object. */
    method Write(k: nat, i: nat, value: int)
      requires k < |objects| && i < |entries|
      modifies this`objects
      ensures objects == old(objects)[k := Written(old(objects)[k], entries[i].slot, value)]
    {
      objects := objects[k := Written(objects[k], entries[i].slot, value)];
    }

    method Perform(x: Command)
      requires limit == Limit(t)
      modifies this
      ensures St() == After(old(St()), x)
    {
      hide Registered, Unloaded, Removed, Written, Starts, Moves;
      match x
      case AddCommand(name, priority) => var _ := Add(name, priority);
      case DelCommand(i, rehashing) =>
        if i < |entries| {
          Del(i, rehashing);
        }
      case UnloadCommand => UnloadAllUnused();
      case ObjectCommand(place) =>
        if Starts(t, place) {
          NewObject(place);
        }
      case MoveCommand(k, place) =>
        if k < |objects| && Moves(objects[k].place, place) {
          MoveObject(k, place);
        }
      case FreeCommand(k) =>
        if k < |objects| {
          FreeObject(k);
        }
      case WriteCommand(k, i, value) =>
        if k < |objects| && i < |entries| {
          Write(k, i, value);
        }
    }

    /** Every run of the object is a run of the state machine. */
    method Run(commands: seq<Command>)
      requires limit == Limit(t)
      modifies this
      ensures St() == At(After, old(St()), commands, |commands|)
    {
      hide After;
      for k := 0 to |commands|
        invariant St() == At(After, old(St()), commands, k)
      {
        Perform(commands[k]);
      }
    }
  }

  lemma NoSlots()
    ensures forall es: seq<Entry> :: MarkedSlots(es[..0]) == {}
  {
  }

  lemma MarkedStep(es: seq<Entry>, j: nat)
    requires j < |es|
    ensures MarkedSlots(es[..j + 1]) ==
      if es[j].unloaded then MarkedSlots(es[..j]) + {es[j].slot} else MarkedSlots(es[..j])
  {
    assert es[..j + 1] == es[..j] + [es[j]];
  }

  // ---------------------------------------------------------------------
  // Every command keeps the state valid, is an operation of the registry, and leaves stale data exactly when
  // something is out of reach.

  ghost predicate GoodStep(s: State, x: Command) {
    && Valid(After(s, x))
    && Step(TableOf(s), OpOf(s, x), TableOf(After(s, x)))
    && (NoStale(s) ==> (NoStale(After(s, x)) <==> !LeavesStale(s, x)))
  }

  lemma AddStep(s: State, name: string, priority: int)
    requires Valid(s)
    ensures GoodStep(s, AddCommand(name, priority))
  {
    hide HoldersOk, AllTidy, View, NextSlot, Unique;
    var es := s.entries;
    var i := Find(es, name);
    if i < |es| {
      if es[i].unloaded {
        var e := es[i].(unloaded := false, priority := priority);
        ReplaceOk(es, i, e, Limit(s.t));
        ReplaceKeepsHolders(s.t, s.objects, es, i, e);
      }
    } else {
      NotInView(es, name);
      if NextSlot(es) < Limit(s.t) {
        var e := Entry(name, NextSlot(es), false, priority);
        InsertOk(es, e, Limit(s.t));
        InsertKeepsHolders(s.t, s.objects, es, e);
      }
    }
  }

  lemma DelStep(s: State, i: nat, rehashing: bool)
    requires Valid(s)
    ensures GoodStep(s, DelCommand(i, rehashing))
  {
    hide HoldersOk, AllTidy, View, Unique, OutOfReach, Without, Zeroed;
    if i < |s.entries| {
      if rehashing {
        var e := s.entries[i].(unloaded := true);
        ReplaceOk(s.entries, i, e, Limit(s.t));
        ReplaceKeepsHolders(s.t, s.objects, s.entries, i, e);
      } else {
        RemoveOk(s.entries, i, Limit(s.t));
        RemoveOwned(s.entries, i, Limit(s.t));
        CommitKeepsHolders(s.t, s.objects, s.entries, {s.entries[i].slot}, Without(s.entries, i));
      }
    }
  }

  lemma UnloadStep(s: State)
    requires Valid(s)
    ensures GoodStep(s, UnloadCommand)
  {
    hide HoldersOk, AllTidy, View, Unique, OutOfReach, Zeroed, Seqs.Filter, MarkedSlots;
    FilterOk(s.entries, Limit(s.t));
    FilterOwned(s.entries);
    CommitKeepsHolders(s.t, s.objects, s.entries, MarkedSlots(s.entries), Seqs.Filter(Loaded, s.entries));
  }

  lemma ObjectStep(s: State, x: Command)
    requires Valid(s) && (x.ObjectCommand? || x.MoveCommand? || x.FreeCommand? || x.WriteCommand?)
    ensures GoodStep(s, x)
  {
    hide View, Reached, Starts, Moves, Possible;
    var hs, gs, es := s.objects, After(s, x).objects, s.entries;
    match x
    case ObjectCommand(place) =>
      hide Ok, Owned;
      if Starts(s.t, place) {
        StartsPossible(s.t, place);
        assert forall k | 0 <= k < |hs| :: gs[k] == hs[k];
        if NoStale(After(s, x)) {
          assert forall k | 0 <= k < |hs| :: Tidy(gs[k], es);
        }
      }
    case MoveCommand(k, place) =>
      hide Ok, Owned;
      if k < |hs| && Moves(hs[k].place, place) {
        MissedStays(s.t, hs[k].place, place);
        assert Tidy(gs[k], es);
        assert forall j | 0 <= j < |hs| && j != k :: gs[j] == hs[j];
      }
    case FreeCommand(k) =>
      hide Ok, Tidy;
      if k < |hs| {
        assert forall j | 0 <= j < |gs| :: gs[j] == hs[if j < k then j else j + 1];
      }
    case WriteCommand(k, i, value) =>
      hide Ok;
      if k < |hs| && i < |es| {
        WriteTidy(hs[k], es, i, value);
        hide Tidy, Written;
        assert forall j | 0 <= j < |hs| && j != k :: gs[j] == hs[j];
      }
  }

  lemma StartsPossible(t: Type, p: Place)
    requires Starts(t, p)
    ensures Possible(t, p)
  {
  }

  lemma WriteTidy(h: Holder, es: seq<Entry>, i: nat, value: int)
    requires i < |es|
    ensures Tidy(Written(h, es[i].slot, value), es) <==> Tidy(h, es)
    ensures Written(h, es[i].slot, value).place == h.place
  {
    var slot, g := es[i].slot, Written(h, es[i].slot, value);
    assert es[i] in es && Owned(es, slot);
    hide Owned;
    assert forall s | s in h.data :: s == slot || s in g.data;
  }

  lemma AnyStep(s: State, x: Command)
    requires Valid(s)
    ensures GoodStep(s, x)
  {
    hide GoodStep, Valid;
    match x
    case AddCommand(name, priority) => AddStep(s, name, priority);
    case DelCommand(i, rehashing) => DelStep(s, i, rehashing);
    case UnloadCommand => UnloadStep(s);
    case _ => ObjectStep(s, x);
  }

  lemma AllSteps()
    ensures Keeps(After, Valid) && Implements(After, Valid, TableOf, OpOf) && Exact(After, Valid, NoStale, LeavesStale)
  {
    hide Valid, Step, NoStale;
    forall s, x | Valid(s)
      ensures Valid(After(s, x)) && Step(TableOf(s), OpOf(s, x), TableOf(After(s, x)))
      ensures NoStale(s) ==> (NoStale(After(s, x)) <==> !LeavesStale(s, x))
    {
      AnyStep(s, x);
    }
    hide After, OpOf, TableOf, LeavesStale;
  }

  // ---------------------------------------------------------------------
  // Runs.

  /** Every run is a run of the registry, through valid states. */
  lemma RunsAreRuns(s: State, xs: seq<Command>)
    requires Valid(s)
    ensures forall k: nat | k <= |xs| :: Valid(At(After, s, xs, k))
    ensures IsRun(Tables(After, TableOf, s, xs), Ops(After, OpOf, s, xs))
  {
    hide Valid, After, OpOf, TableOf, IsRun, Tables, Ops, Keeps, Implements, Exact;
    AllSteps();
    RunIsRun(After, Valid, TableOf, OpOf, s, xs);
    forall k: nat | k <= |xs|
      ensures Valid(At(After, s, xs, k))
    {
      AlwaysHolds(After, Valid, s, xs, k);
    }
  }

  /** Without stale data at the beginning, there never is any if and only if no removal on the way leaves
      some. */
  lemma StaleInRuns(s: State, xs: seq<Command>)
    requires Valid(s) && NoStale(s)
    ensures Always(After, NoStale, s, xs) <==> Never(After, LeavesStale, s, xs)
  {
    hide Valid, After, NoStale, LeavesStale, Keeps, Implements, Exact, Always, Never;
    AllSteps();
    Throughout(After, Valid, NoStale, LeavesStale, s, xs);
  }

  /** The slot that a new name gets is zero on all objects if and only if none out of reach holds something
      in it. */
  lemma NewSlotIsZero(s: State)
    requires Valid(s)
    ensures var slot := NextSlot(s.entries);
      && ((forall k | 0 <= k < |s.objects| :: slot !in s.objects[k].data) <==> !OutOfReach(s.t, s.objects, {slot}))
      && (NoStale(s) ==> forall k | 0 <= k < |s.objects| :: slot !in s.objects[k].data)
      && (AllWalked(s.t) ==> forall k | 0 <= k < |s.objects| :: slot !in s.objects[k].data)
  {
    hide HoldersOk, AllTidy, OutOfReach, Unique, NextSlot;
    var slot := NextSlot(s.entries);
    NextSlotIs(s.entries);
    assert !Owned(s.entries, slot);
    UnownedSlotIsZero(s.t, s.objects, s.entries, slot);
    if AllWalked(s.t) {
      AllReached(s.t, s.objects, s.entries, {slot});
    }
  }

  lemma InsertOk(es: seq<Entry>, e: Entry, limit: nat)
    requires Ok(es, limit) && e.slot == NextSlot(es) < limit && !e.unloaded
    requires forall k | 0 <= k < |es| :: es[k].name != e.name
    ensures Ok(Inserted(es, e), limit)
    ensures Step(View(es), Register(e.name, e.slot), View(Inserted(es, e)))
  {
    hide View, Inserted, NextSlot, Unique;
    InsertIs(es, e, limit);
    var v, v' := View(es), View(Inserted(es, e));
    assert forall n | n in v :: n in v' && v'[n] == v[n];
    assert v' == v[e.name := Slot(e.slot, false)];
  }

  lemma InsertIs(es: seq<Entry>, e: Entry, limit: nat)
    requires Ok(es, limit) && e.slot == NextSlot(es) < limit
    requires forall k | 0 <= k < |es| :: es[k].name != e.name
    ensures var r := Inserted(es, e);
      && Ok(r, limit) && e in r
      && (forall x | x in es :: x in r && x.name != e.name && x.slot != e.slot)
      && (forall x | x in r :: x in es || x == e)
  {
    NextSlotIs(es);
    hide NextSlot, Unique;
    var i := PriorityPosition(es, e.priority);
    assert forall k | 0 <= k < |es| :: es[k] in es;
    InsertUnique(es, i, e);
    Seqs.InsertAtIs(es, i, e);
  }

  lemma InsertUnique(es: seq<Entry>, i: nat, e: Entry)
    requires Unique(es) && i <= |es|
    requires forall k | 0 <= k < |es| :: es[k].name != e.name && es[k].slot != e.slot
    ensures Unique(Seqs.InsertAt(es, i, e))
  {
    Seqs.InsertAtIs(es, i, e);
    var r := Seqs.InsertAt(es, i, e);
    assert forall k | 0 <= k < |r| :: r[k] == if k < i then es[k] else if k == i then e else es[k - 1];
  }

  lemma ReplaceOk(es: seq<Entry>, i: nat, e: Entry, limit: nat)
    requires Ok(es, limit) && i < |es| && e.name == es[i].name && e.slot == es[i].slot
    ensures Ok(es[i := e], limit)
    ensures e.name in View(es) && View(es)[e.name] == Slot(es[i].slot, es[i].unloaded)
    ensures View(es[i := e]) == View(es)[e.name := Slot(e.slot, e.unloaded)]
  {
    hide View;
    ReplaceIs(es, i, e, limit);
    assert es[i] in es;
    var v, v' := View(es), View(es[i := e]);
    assert forall n | n in v :: n in v' && (n != e.name ==> v'[n] == v[n]);
    assert forall n | n in v' :: n in v;
  }

  lemma ReplaceIs(es: seq<Entry>, i: nat, e: Entry, limit: nat)
    requires Ok(es, limit) && i < |es| && e.name == es[i].name && e.slot == es[i].slot
    ensures var r := es[i := e];
      && Ok(r, limit) && e in r
      && (forall x | x in r :: x == e || (x in es && x.name != e.name))
      && (forall x | x in es && x.name != e.name :: x in r)
  {
    var r := es[i := e];
    assert es[i] in es && r[i] in r;
    forall x | x in r && x != e ensures x in es && x.name != e.name {
      var k :| 0 <= k < |r| && r[k] == x;
      assert es[k] == x;
    }
    forall x | x in es && x.name != e.name ensures x in r {
      var k :| 0 <= k < |es| && es[k] == x;
      assert r[k] == x;
    }
  }

  lemma RemoveOk(es: seq<Entry>, i: nat, limit: nat)
    requires Ok(es, limit) && i < |es|
    ensures var r := Without(es, i);
      Ok(r, limit) && Step(View(es), Remove(es[i].name), View(r))
  {
    hide View, Unique, Without;
    RemoveIs(es, i, limit);
    var v, v' := View(es), View(Without(es, i));
    assert es[i] in es;
    assert forall n | n in v' :: n in v && n != es[i].name && v'[n] == v[n];
    assert forall n | n in v && n != es[i].name :: n in v';
  }

  lemma RemoveIs(es: seq<Entry>, i: nat, limit: nat)
    requires Ok(es, limit) && i < |es|
    ensures var r := Without(es, i);
      && Ok(r, limit)
      && (forall x | x in r :: x in es && x.name != es[i].name)
      && (forall x | x in es && x.name != es[i].name :: x in r)
  {
    Seqs.CutOutIs(es, i);
    var r := Without(es, i);
    assert forall k | 0 <= k < |r| :: r[k] == es[if k < i then k else k + 1];
  }

  lemma NotInView(es: seq<Entry>, name: string)
    requires forall k | 0 <= k < |es| :: es[k].name != name
    ensures name !in View(es)
  {
    hide View;
  }

  lemma RemoveOwned(es: seq<Entry>, i: nat, limit: nat)
    requires Ok(es, limit) && i < |es|
    ensures forall s :: Owned(Without(es, i), s) <==> Owned(es, s) && s !in {es[i].slot}
  {
    RemoveIs(es, i, limit);
    SlotsDiffer(es, i);
    hide Unique, Without;
    forall s
      ensures Owned(Without(es, i), s) <==> Owned(es, s) && s != es[i].slot
    {
      if Owned(es, s) && s != es[i].slot {
        var x :| x in es && x.slot == s;
        assert x in Without(es, i);
      }
    }
  }

  lemma FilterOk(es: seq<Entry>, limit: nat)
    requires Ok(es, limit)
    ensures var r := Seqs.Filter(Loaded, es);
      Ok(r, limit) && View(r) == Committed(View(es))
  {
    hide Unique, View, Seqs.Filter;
    FilterUnique(es);
    FilterView(es);
    Seqs.FilterIs(Loaded, es);
  }

  lemma FilterUnique(es: seq<Entry>)
    requires Unique(es)
    ensures Unique(Seqs.Filter(Loaded, es))
  {
    hide Seqs.Filter;
    Seqs.FilterPairs(Loaded, es, Apart);
  }

  lemma FilterView(es: seq<Entry>)
    requires Unique(es) && Unique(Seqs.Filter(Loaded, es))
    ensures View(Seqs.Filter(Loaded, es)) == Committed(View(es))
  {
    hide View, Unique, Seqs.Filter;
    Seqs.FilterIs(Loaded, es);
    var r := Seqs.Filter(Loaded, es);
    var v, c := View(r), Committed(View(es));
    forall n | n in v
      ensures n in c && v[n] == c[n]
    {
      var e :| e in r && e.name == n;
    }
    forall n | n in c
      ensures n in v
    {
      var e :| e in es && e.name == n;
      assert e in r;
    }
  }

  predicate Apart(a: Entry, b: Entry) {
    a.name != b.name && a.slot != b.slot
  }

  lemma FilterOwned(es: seq<Entry>)
    requires Unique(es)
    ensures forall s :: Owned(Seqs.Filter(Loaded, es), s) <==> Owned(es, s) && s !in MarkedSlots(es)
  {
    var r := Seqs.Filter(Loaded, es);
    Seqs.FilterIs(Loaded, es);
    hide Seqs.Filter;
    forall s
      ensures Owned(r, s) <==> Owned(es, s) && s !in MarkedSlots(es)
    {
      if Owned(r, s) {
        var x :| x in r && x.slot == s;
        if s in MarkedSlots(es) {
          var y :| y in es && y.unloaded && y.slot == s;
          var i: nat :| i < |es| && es[i] == y;
          SlotsDiffer(es, i);
        }
      }
      if Owned(es, s) && s !in MarkedSlots(es) {
        var x :| x in es && x.slot == s;
        assert x in r;
      }
    }
  }

  lemma SlotsDiffer(es: seq<Entry>, i: nat)
    requires Unique(es) && i < |es|
    ensures forall x | x in es && x != es[i] :: x.slot != es[i].slot && x.name != es[i].name
  {
    forall x | x in es && x != es[i]
      ensures x.slot != es[i].slot && x.name != es[i].name
    {
      var k: nat :| k < |es| && es[k] == x;
    }
  }

  lemma WithoutPrefix(es: seq<Entry>, i: nat)
    requires i < |es|
    ensures |Without(es, i)| == |es| - 1
    ensures forall k | 0 <= k < i :: Without(es, i)[k] == es[k]
  {
  }

  lemma InsertKeepsHolders(t: Type, hs: seq<Holder>, es: seq<Entry>, e: Entry)
    requires HoldersOk(t, hs, es)
    ensures HoldersOk(t, hs, Inserted(es, e)) && (AllTidy(hs, es) ==> AllTidy(hs, Inserted(es, e)))
  {
    var more := Inserted(es, e);
    Seqs.InsertAtIs(es, PriorityPosition(es, e.priority), e);
    forall s | Owned(es, s)
      ensures Owned(more, s)
    {
      var x :| x in es && x.slot == s;
      assert x in more;
    }
    hide HoldersOk, AllTidy, Inserted;
    MoreOwned(t, hs, es, more);
  }

  lemma ReplaceKeepsHolders(t: Type, hs: seq<Holder>, es: seq<Entry>, i: nat, e: Entry)
    requires HoldersOk(t, hs, es) && i < |es| && e.slot == es[i].slot
    ensures HoldersOk(t, hs, es[i := e]) && (AllTidy(hs, es) ==> AllTidy(hs, es[i := e]))
  {
    var after := es[i := e];
    forall s | Owned(es, s)
      ensures Owned(after, s)
    {
      var k :| 0 <= k < |es| && es[k].slot == s;
      assert after[k] in after && after[k].slot == s;
    }
    hide HoldersOk, AllTidy;
    MoreOwned(t, hs, es, after);
  }

  // ---------------------------------------------------------------------
  // Do slots fit the arrays?

  /** Every slot the limit admits fits the array, for every type but memberships. */
  lemma SlotsFitArray(t: Type, es: seq<Entry>)
    requires Ok(es, Limit(t))
    ensures t != MEMBERSHIP ==> forall e | e in es :: e.slot < ArrayLength(t)
    ensures Limit(t) <= ArrayLength(t) <==> t != MEMBERSHIP
  {
  }

  /** A new name is handed a slot outside the array if and only if the slot above the highest in use is
      outside, but below the limit. */
  lemma NewSlotOutside(t: Type, es: seq<Entry>)
    requires Ok(es, Limit(t))
    ensures NextSlot(es) < Limit(t) && NextSlot(es) >= ArrayLength(t) <==>
      t == MEMBERSHIP && NextSlot(es) < Limit(t) && exists e :: e in es && e.slot >= ArrayLength(t) - 1
  {
    hide Unique;
    NextSlotIs(es);
    if exists e :: e in es && e.slot >= ArrayLength(t) - 1 {
      var e :| e in es && e.slot >= ArrayLength(t) - 1;
    }
  }

  /** All slots fit the array. */
  predicate Fits(s: State) {
    forall e | e in s.entries :: e.slot < ArrayLength(s.t)
  }

  /** The last place of the array, or one behind it, is taken. */
  predicate AtTheEnd(s: State) {
    exists e :: e in s.entries && e.slot >= ArrayLength(s.t) - 1
  }

  /** A new name is registered although the last place of the array is taken. */
  predicate RegistersAtTheEnd(s: State, x: Command) {
    OpOf(s, x).Register? && AtTheEnd(s)
  }

  lemma StepFits(s: State, x: Command)
    requires Valid(s) && Fits(s)
    ensures Fits(After(s, x)) <==> !RegistersAtTheEnd(s, x)
  {
    hide HoldersOk, Unique, NextSlot;
    var es := s.entries;
    match x
    case AddCommand(name, priority) =>
      var i := Find(es, name);
      if i == |es| && NextSlot(es) < Limit(s.t) {
        NextSlotIs(es);
        Seqs.InsertAtHas(es, PriorityPosition(es, priority), Entry(name, NextSlot(es), false, priority));
        assert AtTheEnd(s) <==> NextSlot(es) >= ArrayLength(s.t);
      }
    case DelCommand(i, rehashing) =>
      if i < |es| && !rehashing {
        RemoveIs(es, i, Limit(s.t));
      }
    case UnloadCommand => Seqs.FilterIs(Loaded, es);
    case _ =>
  }

  /** Over every run all slots fit the array if and only if nothing is ever registered when its last place is
      taken. */
  lemma SlotsFitThroughout(s: State, xs: seq<Command>)
    requires Valid(s) && Fits(s)
    ensures Always(After, Fits, s, xs) <==> Never(After, RegistersAtTheEnd, s, xs)
  {
    hide Implements, NoStale, LeavesStale;
    AllSteps();
    forall s, x | Valid(s) && Fits(s)
      ensures Fits(After(s, x)) <==> !RegistersAtTheEnd(s, x)
    {
      StepFits(s, x);
    }
    hide Valid, After, Fits, RegistersAtTheEnd, Keeps, Always, Never;
    Throughout(After, Valid, Fits, RegistersAtTheEnd, s, xs);
  }

  /** A hole below the highest slot is not filled again. */
  lemma HoleStays(es: seq<Entry>, i: nat, limit: nat)
    requires Ok(es, limit) && i < |es| && es[i].slot + 1 != NextSlot(es)
    ensures NextSlot(Without(es, i)) == NextSlot(es)
  {
    assert es[i] in es;
    NextSlotIs(es);
    var top :| top in es && top.slot == NextSlot(es) - 1;
    RemoveIs(es, i, limit);
    SlotsDiffer(es, i);
    hide Unique, Without, NextSlot;
    NextIs(Without(es, i), NextSlot(es), top);
  }

  /** Four names are enough to leave an array of four: after any four registrations there is one whose
      removal lets the next name, again the fourth, get slot 4. */
  lemma FourNamesOverflow(names: seq<string>, name: string) returns (i: nat)
    requires |names| == 4 && forall i, j | 0 <= i < j < |names| :: names[i] != names[j]
    ensures i < |AfterAdds(names)|
    ensures var three := Without(AfterAdds(names), i);
      var e := Entry(name, NextSlot(three), false, 0);
      |Inserted(three, e)| == 4 && ArrayLength(MEMBERSHIP) == 4 == e.slot < Limit(MEMBERSHIP)
  {
    hide NextSlot, AfterAdds, Unique, Inserted, Without;
    var es := AfterAdds(names);
    AddsFillSlots(names);
    AddsCount(names);
    TwoSlots(es);
    i := if es[0].slot == 3 then 1 else 0;
    HoleStays(es, i, 4);
    WithoutPrefix(es, i);
    InsertedLength(Without(es, i), Entry(name, 4, false, 0));
  }

  lemma TwoSlots(es: seq<Entry>)
    requires Unique(es) && |es| >= 2
    ensures es[0].slot != es[1].slot
  {
  }

  lemma InsertedLength(es: seq<Entry>, e: Entry)
    ensures |Inserted(es, e)| == |es| + 1
  {
  }

  lemma {:induction false} AddsCount(names: seq<string>)
    ensures |AfterAdds(names)| == |names|
  {
    if names != [] {
      AddsCount(names[..|names| - 1]);
    }
  }

  lemma NextIs(es: seq<Entry>, n: nat, top: Entry)
    requires (forall e | e in es :: e.slot < n) && top in es && top.slot == n - 1
    ensures NextSlot(es) == n
  {
    NextSlotIs(es);
  }

  // ---------------------------------------------------------------------
  // Data that the next name sees.

  /** An object comes and is written to, becomes something else if it is in the handshake, the registration is
      removed, and another one made. */
  function RemovalStory(start: Place, place: Place, first: string, second: string, value: int): seq<Command> {
    [ObjectCommand(start), AddCommand(first, 0), WriteCommand(0, 0, value), MoveCommand(0, place),
     DelCommand(0, false), AddCommand(second, 0)]
  }

  /** If the object is then out of reach, the second name finds the value that was written for the first. */
  lemma SecondNameSeesData(t: Type, start: Place, place: Place, first: string, second: string, value: int)
    requires value != 0 && Starts(t, start) && (place == start || Moves(start, place)) && !Reached(t, place)
    ensures var xs := RemovalStory(start, place, first, second, value);
      && At(After, State(t, [], []), xs, 5) == State(t, [], [Holder(place, map[0 := value])])
      && At(After, State(t, [], []), xs, 6) ==
         State(t, [Entry(second, 0, false, 0)], [Holder(place, map[0 := value])])
  {
    StoryBegins(t, start, first, value);
    StoryEnds(t, start, place, first, second, value);
    hide Reached, Starts, Moves, After;
    var xs, s0 := RemovalStory(start, place, first, second, value), State(t, [], []);
    Goes(After, s0, xs, 0);
    Goes(After, s0, xs, 1);
    Goes(After, s0, xs, 2);
    Goes(After, s0, xs, 3);
    Goes(After, s0, xs, 4);
    Goes(After, s0, xs, 5);
  }

  lemma StoryBegins(t: Type, start: Place, first: string, value: int)
    requires value != 0 && Starts(t, start)
    ensures var h, g, e := Holder(start, map[]), Holder(start, map[0 := value]), Entry(first, 0, false, 0);
      && After(State(t, [], []), ObjectCommand(start)) == State(t, [], [h])
      && After(State(t, [], [h]), AddCommand(first, 0)) == State(t, [e], [h])
      && After(State(t, [e], [h]), WriteCommand(0, 0, value)) == State(t, [e], [g])
  {
    hide Starts;
    FirstEntry(t, first);
    assert [Holder(start, map[])][0 := Holder(start, map[0 := value])] == [Holder(start, map[0 := value])];
  }

  lemma FirstEntry(t: Type, name: string)
    ensures Registered([], name, 0, Limit(t)).0 == [Entry(name, 0, false, 0)]
  {
    assert Inserted([], Entry(name, 0, false, 0)) == [Entry(name, 0, false, 0)];
  }

  lemma StoryEnds(t: Type, start: Place, place: Place, first: string, second: string, value: int)
    requires (place == start || Moves(start, place)) && !Reached(t, place)
    ensures var g, m, e := Holder(start, map[0 := value]), Holder(place, map[0 := value]), Entry(first, 0, false, 0);
      && After(State(t, [e], [g]), MoveCommand(0, place)) == State(t, [e], [m])
      && After(State(t, [e], [m]), DelCommand(0, false)) == State(t, [], [m])
      && After(State(t, [], [m]), AddCommand(second, 0)) == State(t, [Entry(second, 0, false, 0)], [m])
  {
    hide Reached, Moves, Registered;
    var e, m := Entry(first, 0, false, 0), Holder(place, map[0 := value]);
    FirstEntry(t, second);
    assert [Holder(start, m.data)][0 := m] == [m];
    assert Without([e], 0) == [];
    assert Zeroed(t, [m], {0}) == [m];
  }

  /** A client whose handshake a module noted, as creationtime does, becomes a server. */
  lemma ServerKeepsData(first: string, second: string, value: int)
    requires value != 0
    ensures var xs := RemovalStory(HANDSHAKE, LINKED_SERVER, first, second, value);
      At(After, State(CLIENT, [], []), xs, 6) ==
      State(CLIENT, [Entry(second, 0, false, 0)], [Holder(LINKED_SERVER, map[0 := value])])
  {
    ReachedExact(CLIENT, LINKED_SERVER);
    hide Reached, After, At;
    SecondNameSeesData(CLIENT, HANDSHAKE, LINKED_SERVER, first, second, value);
  }

  // ---------------------------------------------------------------------
  // Which types can have stale data at all.

  /** How an object gets out of reach, for a type where that is possible. */
  function Start(t: Type): Place {
    if t == MEMBERSHIP then REMOTE_USER else HANDSHAKE
  }

  function End(t: Type): Place {
    match t
    case CLIENT => LINKED_SERVER
    case LOCAL_CLIENT => CONTROL
    case _ => REMOTE_USER
  }

  /** No run from the beginning ever has stale data if and only if the walks reach all objects of the type:
      variables, channels and members. */
  lemma NeverStaleExact(t: Type)
    ensures (forall xs :: Always(After, NoStale, State(t, [], []), xs)) <==> AllWalked(t)
  {
    var s0 := State(t, [], []);
    if AllWalked(t) {
      forall xs
        ensures Always(After, NoStale, s0, xs)
      {
        WalkedIsNeverStale(s0, xs);
      }
    } else {
      StaleStory(t);
    }
  }

  lemma WalkedIsNeverStale(s: State, xs: seq<Command>)
    requires Valid(s) && AllWalked(s.t)
    ensures Always(After, NoStale, s, xs)
  {
    RunsAreRuns(s, xs);
    forall k: nat | k <= |xs|
      ensures NoStale(At(After, s, xs, k))
    {
      SameType(s, xs, k);
      var u := At(After, s, xs, k);
      assert Valid(u);
      hide At, After;
      AllReached(u.t, u.objects, u.entries, {});
    }
  }

  lemma StepType(s: State, x: Command)
    ensures After(s, x).t == s.t
  {
    hide Registered, Written, Starts, Moves, Zeroed, Without;
  }

  lemma {:induction false} SameType(s: State, xs: seq<Command>, k: nat)
    requires k <= |xs|
    ensures At(After, s, xs, k).t == s.t
  {
    hide After;
    if k > 0 {
      SameType(s, xs, k - 1);
      StepType(At(After, s, xs, k - 1), xs[k - 1]);
    }
  }

  lemma StaleStory(t: Type)
    requires !AllWalked(t)
    ensures var xs := RemovalStory(Start(t), End(t), "a", "b", 1);
      !Always(After, NoStale, State(t, [], []), xs)
  {
    var xs, s0 := RemovalStory(Start(t), End(t), "a", "b", 1), State(t, [], []);
    ReachedExact(t, End(t));
    hide Reached, After, At;
    SecondNameSeesData(t, Start(t), End(t), "a", "b", 1);
    var h := Holder(End(t), map[0 := 1]);
    assert 0 in h.data && !Owned([], 0);
    assert !Tidy([h][0], []);
    assert !NoStale(At(After, s0, xs, 5));
  }

  // ---------------------------------------------------------------------
  // Registrations alone.

  /** The list after new names have been registered one after the other. */
  function AfterAdds(names: seq<string>): seq<Entry> {
    if names == [] then []
    else
      var n := |names| - 1;
      var before := AfterAdds(names[..n]);
      Inserted(before, Entry(names[n], NextSlot(before), false, 0))
  }

  lemma {:induction false} AddsFillSlots(names: seq<string>)
    requires forall i, j | 0 <= i < j < |names| :: names[i] != names[j]
    ensures NextSlot(AfterAdds(names)) == |names|
    ensures Ok(AfterAdds(names), |names|) && forall e | e in AfterAdds(names) :: e.name in names
    decreases |names|, 1
  {
    if names != [] {
      AddFillsSlot(names);
    }
  }

  lemma {:induction false} AddFillsSlot(names: seq<string>)
    requires names != [] && forall i, j | 0 <= i < j < |names| :: names[i] != names[j]
    ensures NextSlot(AfterAdds(names)) == |names|
    ensures Ok(AfterAdds(names), |names|) && forall e | e in AfterAdds(names) :: e.name in names
    decreases |names|, 0
  {
    hide Unique, NextSlot, Inserted;
    var n := |names| - 1;
    var before := AfterAdds(names[..n]);
    AddsFillSlots(names[..n]);
    var e := Entry(names[n], NextSlot(before), false, 0);
    assert AfterAdds(names) == Inserted(before, e);
    hide AfterAdds;
    assert forall k | 0 <= k < |before| :: before[k] in before && before[k].name in names[..n];
    InsertIs(before, e, |names|);
    NextIs(Inserted(before, e), |names|, e);
    assert forall x | x in names[..n] :: x in names;
  }

  /** Without removals, the slots of memberships fit if and only if there are no more names than places. */
  lemma MembershipAddsOnly(names: seq<string>)
    requires forall i, j | 0 <= i < j < |names| :: names[i] != names[j]
    requires |names| <= Limit(MEMBERSHIP)
    ensures Ok(AfterAdds(names), Limit(MEMBERSHIP))
    ensures (forall e | e in AfterAdds(names) :: e.slot < ArrayLength(MEMBERSHIP))
            <==> |names| <= ArrayLength(MEMBERSHIP)
  {
    hide AfterAdds, NextSlot, Unique;
    AddsFillSlots(names);
    NextSlotIs(AfterAdds(names));
  }

  // ---------------------------------------------------------------------
  // What requests come to.

  /** After a registration the name has an entry with the priority that was asked for and the slot handed out, and
      nothing else has changed. */
  lemma AddedAsRequested(es: seq<Entry>, name: string, priority: int, limit: nat)
    requires Registered(es, name, priority, limit).1.Added?
    ensures var (t, r) := Registered(es, name, priority, limit);
      && (exists k :: 0 <= k < |t| && t[k] == Entry(name, r.slot, false, priority))
      && (forall e: Entry | e.name != name :: e in t <==> e in es)
      && ((forall e | e in es :: e.name != name) ==> r.slot < limit && forall e | e in es :: e.slot < r.slot)
  {
    hide NextSlot, PriorityPosition;
    NextSlotIs(es);
    var i := Find(es, name);
    var t := Registered(es, name, priority, limit).0;
    if i < |es| {
      assert es[i] in es && t[i].name == name;
      forall e: Entry | e.name != name
        ensures e in t <==> e in es
      {
        if e in es {
          var k :| 0 <= k < |es| && es[k] == e;
          assert t[k] == e;
        }
      }
    } else {
      Seqs.InsertAtIs(es, PriorityPosition(es, priority), Entry(name, NextSlot(es), false, priority));
    }
  }

  /** When registrations are refused, and that this changes nothing. */
  lemma AddOutcome(es: seq<Entry>, name: string, priority: int, limit: nat)
    requires Unique(es) && limit > 0
    ensures var (t, r) := Registered(es, name, priority, limit);
      && (r == Failed(EXISTS) <==> exists e :: e in es && e.name == name && !e.unloaded)
      && (r == Failed(NOSPACE) <==>
            (forall e | e in es :: e.name != name) && exists e :: e in es && e.slot + 1 >= limit)
      && (r.Failed? ==> t == es)
      && (forall e | e in es && e.name == name && e.unloaded :: r == Added(e.slot))
  {
    hide NextSlot, Inserted;
    NextSlotIs(es);
    var i := Find(es, name);
    if i < |es| {
      forall e | e in es && e.name == name
        ensures e == es[i]
      {
        var k :| 0 <= k < |es| && es[k] == e;
      }
      assert es[i] in es;
    } else {
      forall e | e in es
        ensures e.name != name
      {
        var k :| 0 <= k < |es| && es[k] == e;
      }
    }
  }

  /** What a holder has in a slot. */
  function ValueIn(h: Holder, slot: nat): int {
    if slot in h.data then h.data[slot] else 0
  }

  /** What is written to an object under an entry is in its slot afterwards, and nothing else changes. */
  lemma WriteTakesEffect(s: State, k: nat, i: nat, value: int)
    requires k < |s.objects| && i < |s.entries|
    ensures var t := After(s, WriteCommand(k, i, value));
      && t.entries == s.entries && t.t == s.t && |t.objects| == |s.objects|
      && (forall j | 0 <= j < |s.objects| && j != k :: t.objects[j] == s.objects[j])
      && t.objects[k].place == s.objects[k].place
      && ValueIn(t.objects[k], s.entries[i].slot) == value
      && forall n: nat | n != s.entries[i].slot :: ValueIn(t.objects[k], n) == ValueIn(s.objects[k], n)
  {
  }

  /** After a removal exactly that entry is gone, and its slot is zero on the objects that are reached; during a
      rehash it is only marked. Nothing else changes. */
  lemma RemoveTakesEffect(s: State, i: nat)
    requires i < |s.entries|
    ensures var t := After(s, DelCommand(i, false));
      t.entries == s.entries[..i] + s.entries[i + 1..] && LoseSlots(s, t, {s.entries[i].slot})
    ensures After(s, DelCommand(i, true)) ==
      s.(entries := s.entries[..i] + [s.entries[i].(unloaded := true)] + s.entries[i + 1..])
  {
    var e := s.entries[i].(unloaded := true);
    assert s.entries[i := e] == s.entries[..i] + [e] + s.entries[i + 1..];
  }

  /** The objects that are reached have zero in these slots, and nothing else happens to objects. */
  ghost predicate LoseSlots(s: State, t: State, gone: set<nat>) {
    && t.t == s.t && |t.objects| == |s.objects|
    && forall k | 0 <= k < |s.objects| ::
         && t.objects[k].place == s.objects[k].place
         && forall n: nat :: ValueIn(t.objects[k], n) ==
              if n in gone && Reached(s.t, s.objects[k].place) then 0 else ValueIn(s.objects[k], n)
  }

  /** An unload does the same for exactly the marked entries. */
  lemma UnloadTakesEffect(s: State)
    ensures var t := After(s, UnloadCommand);
      && (forall e :: e in t.entries <==> e in s.entries && !e.unloaded)
      && LoseSlots(s, t, set e | e in s.entries && e.unloaded :: e.slot)
  {
    hide Reached;
    Seqs.FilterIs(Loaded, s.entries);
  }

  // ---------------------------------------------------------------------
  // The order by priority.

  predicate ByPriority(es: seq<Entry>) {
    forall i, j | 0 <= i < j < |es| :: es[i].priority <= es[j].priority
  }

  predicate InOrder(s: State) {
    ByPriority(s.entries)
  }

  /** A marked entry gets a priority that is out of order between its neighbours; it is not moved. */
  predicate Misplaces(s: State, x: Command) {
    && x.AddCommand?
    && var i := Find(s.entries, x.name);
       && i < |s.entries| && s.entries[i].unloaded
       && ((i > 0 && s.entries[i - 1].priority > x.priority) ||
           (i + 1 < |s.entries| && s.entries[i + 1].priority < x.priority))
  }

  /** A new entry comes behind exactly those of lower priority, in a list that is in order. */
  lemma {:induction false} PrioritySplits(es: seq<Entry>, priority: int)
    requires ByPriority(es)
    ensures var i := PriorityPosition(es, priority);
      && (forall k | 0 <= k < i :: es[k].priority < priority)
      && (forall k | i <= k < |es| :: es[k].priority >= priority)
  {
    if es != [] {
      assert forall k | 0 < k < |es| :: es[k] == es[1..][k - 1];
      PrioritySplits(es[1..], priority);
    }
  }

  lemma InsertInOrder(es: seq<Entry>, e: Entry)
    requires ByPriority(es)
    ensures ByPriority(Inserted(es, e))
  {
    hide PriorityPosition;
    var i := PriorityPosition(es, e.priority);
    PrioritySplits(es, e.priority);
    Seqs.InsertAtIs(es, i, e);
  }

  lemma ReviveInOrder(es: seq<Entry>, i: nat, e: Entry)
    requires ByPriority(es) && i < |es|
    ensures ByPriority(es[i := e]) <==>
      (i > 0 ==> es[i - 1].priority <= e.priority) && (i + 1 < |es| ==> es[i + 1].priority >= e.priority)
  {
    var after := es[i := e];
    if ByPriority(after) {
      assert i > 0 ==> after[i - 1].priority <= after[i].priority;
      assert i + 1 < |es| ==> after[i].priority <= after[i + 1].priority;
    }
  }

  lemma CutInOrder(es: seq<Entry>, i: nat)
    requires ByPriority(es) && i < |es|
    ensures ByPriority(Seqs.CutOut(es, i))
  {
  }

  lemma MarkInOrder(es: seq<Entry>, i: nat)
    requires ByPriority(es) && i < |es|
    ensures ByPriority(es[i := es[i].(unloaded := true)])
  {
  }

  predicate NotAbove(a: Entry, b: Entry) {
    a.priority <= b.priority
  }

  lemma StepInOrder(s: State, x: Command)
    requires InOrder(s)
    ensures InOrder(After(s, x)) <==> !Misplaces(s, x)
  {
    hide ByPriority, Find, Inserted;
    var es := s.entries;
    match x
    case AddCommand(name, priority) =>
      var i := Find(es, name);
      InsertInOrder(es, Entry(name, NextSlot(es), false, priority));
      if i < |es| {
        ReviveInOrder(es, i, es[i].(unloaded := false, priority := priority));
      }
    case DelCommand(i, rehashing) =>
      if i < |es| {
        CutInOrder(es, i);
        MarkInOrder(es, i);
      }
    case UnloadCommand => UnloadInOrder(es);
    case _ =>
  }

  lemma UnloadInOrder(es: seq<Entry>)
    requires ByPriority(es)
    ensures ByPriority(Seqs.Filter(Loaded, es))
  {
    Seqs.FilterPairs(Loaded, es, NotAbove);
  }

  /** Over every run the entries are in order of priority if and only if none is registered again with a priority
      that is out of order where it stands. */
  lemma OrderedInRuns(s: State, xs: seq<Command>)
    requires Valid(s) && InOrder(s)
    ensures Always(After, InOrder, s, xs) <==> Never(After, Misplaces, s, xs)
  {
    hide Implements, NoStale, LeavesStale;
    AllSteps();
    forall s, x | InOrder(s)
      ensures InOrder(After(s, x)) <==> !Misplaces(s, x)
    {
      StepInOrder(s, x);
    }
    hide Valid, After, InOrder, Misplaces, Keeps, Always, Never;
    Throughout(After, Valid, InOrder, Misplaces, s, xs);
  }

  /** A run after which they are not: the first of two names is registered again with the highest priority. */
  lemma RevivedOutOfOrder(t: Type, a: string, b: string)
    requires a != b
    ensures var xs := [AddCommand(a, 0), AddCommand(b, 1), DelCommand(0, true), AddCommand(a, 2)];
      At(After, State(t, [], []), xs, 4).entries == [Entry(a, 0, false, 2), Entry(b, 1, false, 1)]
  {
    var xs := [AddCommand(a, 0), AddCommand(b, 1), DelCommand(0, true), AddCommand(a, 2)];
    var s0 := State(t, [], []);
    FirstEntry(t, a);
    TwoEntries(t, a, b);
    AtStart(After, s0, xs);
    Goes(After, s0, xs, 0);
    Goes(After, s0, xs, 1);
    Goes(After, s0, xs, 2);
    Goes(After, s0, xs, 3);
  }

  lemma TwoEntries(t: Type, a: string, b: string)
    requires a != b
    ensures var x, y, z := Entry(a, 0, false, 0), Entry(b, 1, false, 1), Entry(a, 0, false, 2);
      && Registered([x], b, 1, Limit(t)).0 == [x, y]
      && [x, y][0 := x.(unloaded := true)] == [x.(unloaded := true), y]
      && Registered([x.(unloaded := true), y], a, 2, Limit(t)).0 == [z, y]
  {
    var x, y := Entry(a, 0, false, 0), Entry(b, 1, false, 1);
    assert [x][..0] == [] && [x][1..] == [];
    assert NextSlot([]) == 0 && NextSlot([x]) == 1 && Find([x], b) == 1;
    assert PriorityPosition([x], 1) == 1 && Inserted([x], y) == [x, y];
    assert Find([x.(unloaded := true), y], a) == 0;
  }
}
