/**
 The data that modules attach to objects (`src/api-moddata.c`), by slot, and what the removal of
 registrations does to it.
 */
module Holders {

  datatype Type = LOCAL_VARIABLE | GLOBAL_VARIABLE | CLIENT | LOCAL_CLIENT | CHANNEL | MEMBER | MEMBERSHIP

  datatype Entry = Entry(name: string, slot: nat, unloaded: bool, priority: int)

  /** What an object is: something on its own list, such as a channel, or a client, or the membership of one. */
  datatype Place =
    | OWN
    | HANDSHAKE
    | LOCAL_USER
    | REMOTE_USER
    | LINKED_SERVER
    | REMOTE_SERVER
    | CONTROL
    | THIS_SERVER
    | REMOTE_RPC

  datatype List =
    | OWN_LIST
    | CLIENT_LIST
    | UNKNOWN_LIST
    | LCLIENT_LIST
    | CONTROL_LIST
    | GLOBAL_SERVER_LIST
    | RPC_REMOTE_LIST

  /** The lists that it is on. */
  function Lists(p: Place): set<List> {
    match p
    case OWN => {OWN_LIST}
    case HANDSHAKE => {CLIENT_LIST, UNKNOWN_LIST}
    case LOCAL_USER => {CLIENT_LIST, LCLIENT_LIST}
    case REMOTE_USER => {CLIENT_LIST}
    case LINKED_SERVER => {GLOBAL_SERVER_LIST, LCLIENT_LIST}
    case REMOTE_SERVER => {GLOBAL_SERVER_LIST}
    case CONTROL => {CLIENT_LIST, CONTROL_LIST}
    case THIS_SERVER => {GLOBAL_SERVER_LIST}
    case REMOTE_RPC => {RPC_REMOTE_LIST}
  }

  /** The lists that unload_moddata_commit walks over, in order. Memberships are found through their clients. */
  function Walked(t: Type): seq<List> {
    match t
    case CLIENT => [CLIENT_LIST, UNKNOWN_LIST]
    case LOCAL_CLIENT => [LCLIENT_LIST, UNKNOWN_LIST]
    case MEMBERSHIP => [LCLIENT_LIST]
    case _ => [OWN_LIST]
  }

  /** The walks get to it. */
  predicate Reached(t: Type, p: Place) {
    exists list :: list in Walked(t) && list in Lists(p)
  }

  /** How an object of a type comes into being: clients in the handshake, except those of other servers and
      the ones that stand for servers; only local clients have LOCAL_CLIENT data, only users memberships. */
  predicate Starts(t: Type, p: Place) {
    match t
    case CLIENT => p in {HANDSHAKE, REMOTE_USER, REMOTE_SERVER, THIS_SERVER, REMOTE_RPC}
    case LOCAL_CLIENT => p in {HANDSHAKE, THIS_SERVER}
    case MEMBERSHIP => p in {LOCAL_USER, REMOTE_USER}
    case _ => p == OWN
  }

  /** A client leaves the handshake: it becomes a user, a server or a control client. */
  predicate Moves(p: Place, q: Place) {
    p == HANDSHAKE && q in {LOCAL_USER, LINKED_SERVER, CONTROL}
  }

  /** What an object of a type can be. */
  predicate Possible(t: Type, p: Place) {
    Starts(t, p) || (Starts(t, HANDSHAKE) && Moves(HANDSHAKE, p))
  }

  /** Which objects the walks miss: for clients all servers, for the data of local clients those on the control
      list and this server, and memberships of users of other servers. */
  predicate Missed(t: Type, p: Place) {
    match t
    case CLIENT => p in {LINKED_SERVER, REMOTE_SERVER, THIS_SERVER, REMOTE_RPC}
    case LOCAL_CLIENT => p in {CONTROL, THIS_SERVER}
    case MEMBERSHIP => p == REMOTE_USER
    case _ => false
  }

  lemma ReachedExact(t: Type, p: Place)
    requires Possible(t, p)
    ensures Reached(t, p) <==> !Missed(t, p)
  {
    match t
    case CLIENT => assert CLIENT_LIST in Walked(t) && UNKNOWN_LIST in Walked(t);
    case LOCAL_CLIENT => assert LCLIENT_LIST in Walked(t) && UNKNOWN_LIST in Walked(t);
    case MEMBERSHIP => assert LCLIENT_LIST in Walked(t);
    case _ => assert OWN_LIST in Walked(t);
  }

  /** Only what is reached moves: nothing that is missed is ever reached later. */
  lemma MissedStays(t: Type, p: Place, q: Place)
    requires Possible(t, p) && Moves(p, q)
    ensures Possible(t, q) && Reached(t, p)
  {
    ReachedExact(t, p);
  }

  /** The types of which all objects are reached. */
  predicate AllWalked(t: Type) {
    t in {LOCAL_VARIABLE, GLOBAL_VARIABLE, CHANNEL, MEMBER}
  }

  lemma AllWalkedExact(t: Type)
    ensures AllWalked(t) <==> forall p | Possible(t, p) :: Reached(t, p)
  {
    forall p | Possible(t, p)
      ensures Reached(t, p) <==> !Missed(t, p)
    {
      ReachedExact(t, p);
    }
    assert Possible(CLIENT, REMOTE_SERVER) && Missed(CLIENT, REMOTE_SERVER);
    assert Possible(LOCAL_CLIENT, CONTROL) && Missed(LOCAL_CLIENT, CONTROL);
    assert Possible(MEMBERSHIP, REMOTE_USER) && Missed(MEMBERSHIP, REMOTE_USER);
  }

  /** An object with the slots that are not zero. */
  datatype Holder = Holder(place: Place, data: map<nat, int>)

  ghost predicate Owned(es: seq<Entry>, slot: nat) {
    exists e :: e in es && e.slot == slot
  }

  /** Everything in the object belongs to a registration. */
  ghost predicate Tidy(h: Holder, es: seq<Entry>) {
    forall s | s in h.data :: Owned(es, s)
  }

  /** All objects are what they can be, and those that are reached are tidy. */
  ghost predicate HoldersOk(t: Type, hs: seq<Holder>, es: seq<Entry>) {
    forall k | 0 <= k < |hs| :: Possible(t, hs[k].place) && (Reached(t, hs[k].place) ==> Tidy(hs[k], es))
  }

  /** No data of a former registration is left anywhere. */
  ghost predicate AllTidy(hs: seq<Holder>, es: seq<Entry>) {
    forall k | 0 <= k < |hs| :: Tidy(hs[k], es)
  }

  /** An object that is not reached holds data in one of the slots. */
  predicate OutOfReach(t: Type, hs: seq<Holder>, slots: set<nat>) {
    exists k :: 0 <= k < |hs| && HoldsOutOfReach(t, hs[k], slots)
  }

  predicate HoldsOutOfReach(t: Type, h: Holder, slots: set<nat>) {
    !Reached(t, h.place) && exists s :: s in slots && s in h.data
  }

  /** An object after the removal of registrations with these slots. */
  function AfterCommit(t: Type, h: Holder, slots: set<nat>): Holder {
    if Reached(t, h.place) then h.(data := h.data - slots) else h
  }

  function Zeroed(t: Type, hs: seq<Holder>, slots: set<nat>): (r: seq<Holder>)
    ensures |r| == |hs| && forall k | 0 <= k < |hs| :: r[k] == AfterCommit(t, hs[k], slots)
  {
    seq(|hs|, k requires 0 <= k < |hs| => AfterCommit(t, hs[k], slots))
  }

  lemma ZeroedTwice(t: Type, hs: seq<Holder>, a: set<nat>, b: set<nat>)
    ensures Zeroed(t, Zeroed(t, hs, a), b) == Zeroed(t, hs, a + b)
    ensures Zeroed(t, hs, {}) == hs
  {
    assert forall h: Holder :: h.data - a - b == h.data - (a + b);
    assert forall h: Holder :: h.data - {} == h.data;
  }

  /** Where all objects are reached, none is out of reach. */
  lemma AllReached(t: Type, hs: seq<Holder>, es: seq<Entry>, slots: set<nat>)
    requires HoldersOk(t, hs, es) && AllWalked(t)
    ensures AllTidy(hs, es) && !OutOfReach(t, hs, slots)
  {
    AllWalkedExact(t);
    hide Reached, Possible, Tidy;
  }

  /** A slot that no registration owns is zero on every reached object, and on all objects if and only if
      none out of reach holds something in it. */
  lemma UnownedSlotIsZero(t: Type, hs: seq<Holder>, es: seq<Entry>, slot: nat)
    requires HoldersOk(t, hs, es) && !Owned(es, slot)
    ensures forall k | 0 <= k < |hs| && Reached(t, hs[k].place) :: slot !in hs[k].data
    ensures (forall k | 0 <= k < |hs| :: slot !in hs[k].data) <==> !OutOfReach(t, hs, {slot})
    ensures AllTidy(hs, es) ==> forall k | 0 <= k < |hs| :: slot !in hs[k].data
  {
    hide Owned, Possible, Reached;
    assert forall k | 0 <= k < |hs| && Reached(t, hs[k].place) :: Tidy(hs[k], es);
    forall k | 0 <= k < |hs| && !Reached(t, hs[k].place)
      ensures HoldsOutOfReach(t, hs[k], {slot}) <==> slot in hs[k].data
    {
      assert slot in {slot};
    }
    hide HoldsOutOfReach, Tidy;
  }

  /** Removal keeps reached objects tidy; it leaves stale data if and only if an object out of reach holds
      something in one of the slots. */
  lemma CommitKeepsHolders(t: Type, hs: seq<Holder>, es: seq<Entry>, slots: set<nat>, rest: seq<Entry>)
    requires HoldersOk(t, hs, es) && forall s :: Owned(rest, s) <==> Owned(es, s) && s !in slots
    ensures HoldersOk(t, Zeroed(t, hs, slots), rest)
    ensures AllTidy(Zeroed(t, hs, slots), rest) <==> AllTidy(hs, es) && !OutOfReach(t, hs, slots)
  {
    hide Owned, Possible, Reached;
    var gs := Zeroed(t, hs, slots);
    forall k | 0 <= k < |hs|
      ensures gs[k].place == hs[k].place
      ensures Reached(t, hs[k].place) && Tidy(hs[k], es) ==> Tidy(gs[k], rest)
      ensures Reached(t, hs[k].place) ==> !HoldsOutOfReach(t, hs[k], slots)
      ensures !Reached(t, hs[k].place) ==> (Tidy(gs[k], rest) <==> Tidy(hs[k], es) && !HoldsOutOfReach(t, hs[k], slots))
    {
    }
    hide Tidy, AfterCommit, Reached, HoldsOutOfReach, Zeroed;
    if AllTidy(gs, rest) {
      forall k | 0 <= k < |hs|
        ensures Tidy(hs[k], es) && !HoldsOutOfReach(t, hs[k], slots)
      {
        assert Tidy(gs[k], rest);
      }
    }
  }

  /** More registrations, or the same with other marks and priorities, do no harm. */
  lemma MoreOwned(t: Type, hs: seq<Holder>, es: seq<Entry>, more: seq<Entry>)
    requires HoldersOk(t, hs, es) && forall s :: Owned(es, s) ==> Owned(more, s)
    ensures HoldersOk(t, hs, more) && (AllTidy(hs, es) ==> AllTidy(hs, more))
  {
    hide Owned, Possible, Reached;
    assert forall k | 0 <= k < |hs| && Tidy(hs[k], es) :: Tidy(hs[k], more);
  }
}
