/**
 Channels, their members and the clients' memberships (`src/channel.c`).

 A join makes a Member (listed by the channel), a Membership (listed by the client) and, for a
 local client, a LocalMember (listed by the channel as well). The three point at each other and
 "must be kept synchronized 100% at all times" (`include/struct.h`). Member and Membership
 structs come from free lists. A channel disappears from the channel list and the name table
 when its last user leaves, unless a hook vetoes that.
 */
module Channels {
  import opened Cmode
  import opened MemberModes
  import opened Casemap
  import opened Runs
  import opened Seqs

  const CHANNELLEN := 32
  // Structs per allocation: 4072 bytes by the size of a Member and of a Membership.
  const MEMBERS_PER_BATCH := 46
  const MEMBERSHIPS_PER_BATCH := 50

  class Client {
    const isUser: bool
    const isLocal: bool
    var channels: seq<Membership>
    var joined: int

    constructor (isUser: bool, isLocal: bool)
      ensures this.isUser == isUser && this.isLocal == isLocal && channels == [] && joined == 0
    {
      this.isUser, this.isLocal := isUser, isLocal;
      channels, joined := [], 0;
    }
  }

  class Member {
    var client: Client?
    var modes: string
    var related: Membership?
    var localMember: LocalMember?
    var invisible: bool

    constructor ()
      ensures Zeroed()
    {
      client, modes, related, localMember, invisible := null, "", null, null, false;
    }

    ghost predicate Zeroed()
      reads this
    {
      client == null && modes == "" && related == null && localMember == null && !invisible
    }

    method Clear()
      modifies this
      ensures Zeroed()
    {
      client, modes, related, localMember, invisible := null, "", null, null, false;
    }
  }

  class Membership {
    var channel: Channel?
    var modes: string
    var related: Member?
    var invisible: bool

    constructor ()
      ensures Zeroed()
    {
      channel, modes, related, invisible := null, "", null, false;
    }

    ghost predicate Zeroed()
      reads this
    {
      channel == null && modes == "" && related == null && !invisible
    }

    method Clear()
      modifies this
      ensures Zeroed()
    {
      channel, modes, related, invisible := null, "", null, false;
    }
  }

  class LocalMember {
    var ptr: Member

    constructor (m: Member)
      ensures ptr == m
    {
      ptr := m;
    }
  }

  class Channel {
    const name: string
    var users: int
    var members: seq<Member>
    var localMembers: seq<LocalMember>

    constructor (name: string)
      ensures this.name == name && users == 0 && members == [] && localMembers == []
    {
      this.name := name;
      users, members, localMembers := 0, [], [];
    }
  }

  /** A client, a channel and the two structs that link them. */
  datatype Join = Join(c: Channel, cl: Client, m: Member, mb: Membership)

  /** Clients are named by their position in the order of their arrival. */
  datatype Command =
    | ConnectCommand(isUser: bool, isLocal: bool)
    | JoinCommand(client: nat, name: string, modes: string)
    | PartCommand(client: nat, name: string, shouldDestroy: bool)
    | ModeCommand(client: nat, name: string, edit: Edit)
    | InvisibleCommand(client: nat, name: string, invisible: bool)

  // ---------------------------------------------------------------------
  // The graph as a value.

  /** What a client has in a channel. */
  datatype Seat = Seat(modes: string, invisible: bool)

  /** A client, with its seats by folded channel name. */
  datatype Person = Person(isUser: bool, isLocal: bool, seats: map<string, Seat>)

  /** All clients, and the names of the channels, the latest first. */
  datatype Graph = Graph(registry: seq<Mode>, people: seq<Person>, names: seq<string>)

  /** There is a channel of that folded name. */
  predicate Exists(names: seq<string>, n: string) {
    exists k :: 0 <= k < |names| && Fold(names[k]) == n
  }

  function WithoutName(names: seq<string>, n: string): seq<string> {
    if names == [] then [] else if Fold(names[0]) == n then names[1..] else [names[0]] + WithoutName(names[1..], n)
  }

  predicate Nobody(people: seq<Person>, n: string) {
    forall k | 0 <= k < |people| :: n !in people[k].seats
  }

  predicate HasSeat(g: Graph, i: nat, n: string) {
    i < |g.people| && n in g.people[i].seats
  }

  function WithSeats(g: Graph, i: nat, seats: map<string, Seat>): Graph
    requires i < |g.people|
  {
    g.(people := g.people[i := g.people[i].(seats := seats)])
  }

  function WithSeat(g: Graph, i: nat, n: string, seat: Seat): Graph
    requires i < |g.people|
  {
    WithSeats(g, i, g.people[i].seats[n := seat])
  }

  /** make_channel */
  function Made(g: Graph, name: string): Graph {
    if name == "" || Exists(g.names, Fold(Network.CleanName(name))) then g
    else g.(names := [Network.CleanName(name)] + g.names)
  }

  /** add_user_to_channel, for a user who is not in the channel yet. */
  function Seated(g: Graph, i: nat, n: string, modes: string): Graph
    requires i < |g.people|
  {
    if n in g.people[i].seats || !g.people[i].isUser then g
    else WithSeat(g, i, n, Seat(Edited(g.registry, "", Adds(modes)), false))
  }

  /** remove_user_from_channel: the channel goes with its last user, unless that is vetoed. */
  function Parted(g: Graph, i: nat, n: string, shouldDestroy: bool): Graph
    requires i < |g.people|
  {
    if n !in g.people[i].seats then g
    else
      var after := WithSeats(g, i, g.people[i].seats - {n});
      if shouldDestroy && Nobody(after.people, n) then after.(names := WithoutName(g.names, n)) else after
  }

  /** add_member_mode and del_member_mode */
  function Changed(g: Graph, i: nat, n: string, edit: Edit): Graph {
    if !HasSeat(g, i, n) then g
    else
      var seat := g.people[i].seats[n];
      WithSeat(g, i, n, seat.(modes := Apply(g.registry, seat.modes, edit)))
  }

  /** set_user_invisible */
  function Flagged(g: Graph, i: nat, n: string, invisible: bool): Graph {
    if !HasSeat(g, i, n) then g else WithSeat(g, i, n, g.people[i].seats[n].(invisible := invisible))
  }

  function After(g: Graph, x: Command): Graph {
    match x
    case ConnectCommand(isUser, isLocal) => g.(people := g.people + [Person(isUser, isLocal, map[])])
    case JoinCommand(i, name, modes) =>
      if i < |g.people| && name != "" then Seated(Made(g, name), i, Fold(Network.CleanName(name)), modes) else g
    case PartCommand(i, name, shouldDestroy) =>
      if i < |g.people| then Parted(g, i, Fold(name), shouldDestroy) else g
    case ModeCommand(i, name, edit) => Changed(g, i, Fold(name), edit)
    case InvisibleCommand(i, name, invisible) => Flagged(g, i, Fold(name), invisible)
  }

  // ---------------------------------------------------------------------
  // How long channels last.

  predicate DistinctNames(names: seq<string>) {
    forall i, j | 0 <= i < j < |names| :: Fold(names[i]) != Fold(names[j])
  }

  /** Names are distinct, and seats are in channels. */
  predicate GraphOk(g: Graph) {
    DistinctNames(g.names) && forall i, n | 0 <= i < |g.people| && n in g.people[i].seats :: Exists(g.names, n)
  }

  /** There is somebody in every channel. */
  predicate NoneEmpty(g: Graph) {
    forall k | 0 <= k < |g.names| :: !Nobody(g.people, Fold(g.names[k]))
  }

  predicate NobodyElse(people: seq<Person>, i: nat, n: string) {
    forall k | 0 <= k < |people| && k != i :: n !in people[k].seats
  }

  /** A channel is made that nobody joins, or the last user leaves and the hook keeps it. */
  predicate LeavesEmpty(g: Graph, x: Command) {
    match x
    case JoinCommand(i, name, modes) =>
      && i < |g.people| && name != "" && !g.people[i].isUser && !Exists(g.names, Fold(Network.CleanName(name)))
    case PartCommand(i, name, shouldDestroy) =>
      HasSeat(g, i, Fold(name)) && !shouldDestroy && NobodyElse(g.people, i, Fold(name))
    case _ => false
  }

  ghost predicate GoodStep(g: Graph, x: Command) {
    GraphOk(After(g, x)) && (NoneEmpty(g) ==> (NoneEmpty(After(g, x)) <==> !LeavesEmpty(g, x)))
  }

  /** Same channels, and the same people in them. */
  lemma SameSeats(g: Graph, h: Graph)
    requires GraphOk(g) && h.names == g.names && |h.people| == |g.people|
    requires forall k | 0 <= k < |g.people| :: h.people[k].seats.Keys == g.people[k].seats.Keys
    ensures GraphOk(h) && (NoneEmpty(h) <==> NoneEmpty(g))
  {
    hide Exists, DistinctNames, Fold;
    forall n
      ensures Nobody(h.people, n) <==> Nobody(g.people, n)
    {
      assert forall k | 0 <= k < |g.people| :: n in h.people[k].seats <==> n in g.people[k].seats;
    }
  }

  lemma ConnectStep(g: Graph, isUser: bool, isLocal: bool)
    requires GraphOk(g)
    ensures GoodStep(g, ConnectCommand(isUser, isLocal))
  {
    hide Exists, DistinctNames, Fold;
    var h := After(g, ConnectCommand(isUser, isLocal));
    forall n
      ensures Nobody(h.people, n) <==> Nobody(g.people, n)
    {
      assert forall k | 0 <= k < |g.people| :: h.people[k] == g.people[k];
    }
  }

  /** There is somebody in every channel but this one. */
  predicate OthersInUse(g: Graph, n: string) {
    forall k | 0 <= k < |g.names| && Fold(g.names[k]) != n :: !Nobody(g.people, Fold(g.names[k]))
  }

  /** A new channel without anybody in it. */
  lemma MadeStep(g: Graph, name: string)
    requires GraphOk(g) && name != ""
    ensures var h, n := Made(g, name), Fold(Network.CleanName(name));
      && GraphOk(h) && Exists(h.names, n) && h.people == g.people
      && (Exists(g.names, n) ==> h == g)
      && (!Exists(g.names, n) ==> Nobody(g.people, n))
      && (NoneEmpty(h) <==> NoneEmpty(g) && Exists(g.names, n))
      && (NoneEmpty(g) ==> OthersInUse(h, n))
  {
    hide Fold, Network.CleanName;
    var h, c := Made(g, name), Network.CleanName(name);
    if !Exists(g.names, Fold(c)) {
      assert h.names[0] == c && forall k | 0 < k < |h.names| :: h.names[k] == g.names[k - 1];
      assert Nobody(g.people, Fold(c));
      forall n | Exists(g.names, n)
        ensures Exists(h.names, n)
      {
        var k :| 0 <= k < |g.names| && Fold(g.names[k]) == n;
        assert Fold(h.names[k + 1]) == n;
      }
      if NoneEmpty(g) {
        forall k | 0 < k < |h.names|
          ensures !Nobody(g.people, Fold(h.names[k]))
        {
          assert !Nobody(g.people, Fold(g.names[k - 1]));
        }
      }
    }
  }

  lemma JoinStep(g: Graph, i: nat, name: string, modes: string)
    requires GraphOk(g)
    ensures GoodStep(g, JoinCommand(i, name, modes))
  {
    hide Fold, Exists, DistinctNames, Edited, Adds, Network.CleanName, Made;
    if i < |g.people| && name != "" {
      var n := Fold(Network.CleanName(name));
      MadeStep(g, name);
      SeatedStep(Made(g, name), i, n, modes);
      hide GraphOk, NoneEmpty, Seated;
    }
  }

  lemma SeatedStep(g: Graph, i: nat, n: string, modes: string)
    requires GraphOk(g) && i < |g.people| && Exists(g.names, n)
    ensures var h := Seated(g, i, n, modes);
      && GraphOk(h)
      && (g.people[i].isUser && OthersInUse(g, n) ==> NoneEmpty(h))
      && (!g.people[i].isUser ==> h == g)
  {
    hide Fold, Exists, DistinctNames, Edited, Adds;
    var h := Seated(g, i, n, modes);
    assert g.people[i].isUser ==> n in h.people[i].seats;
    forall k | 0 <= k < |g.people|
      ensures g.people[k].seats.Keys <= h.people[k].seats.Keys
    {
    }
    forall m | !Nobody(g.people, m)
      ensures !Nobody(h.people, m)
    {
      var k :| 0 <= k < |g.people| && m in g.people[k].seats;
      assert m in h.people[k].seats;
    }
  }

  lemma {:induction false} WithoutNameIs(names: seq<string>, n: string)
    requires DistinctNames(names)
    ensures var r := WithoutName(names, n);
      && DistinctNames(r) && (forall m :: Exists(r, m) <==> Exists(names, m) && m != n)
      && forall x | x in r :: x in names
  {
    hide Fold;
    if names != [] {
      WithoutNameIs(names[1..], n);
      FirstName(names);
      if Fold(names[0]) != n {
        var r := WithoutName(names[1..], n);
        forall x | x in r
          ensures Fold(x) != Fold(names[0])
        {
          var k :| 0 <= k < |names[1..]| && names[1..][k] == x;
          assert names[k + 1] == x;
        }
        ConsDistinct(names[0], r);
        FirstName([names[0]] + r);
        assert ([names[0]] + r)[1..] == r;
      }
    }
  }

  lemma ConsDistinct(x: string, names: seq<string>)
    requires DistinctNames(names) && forall y | y in names :: Fold(y) != Fold(x)
    ensures DistinctNames([x] + names)
  {
    hide Fold;
    assert forall k | 0 <= k < |names| :: names[k] in names;
  }

  lemma FirstName(names: seq<string>)
    requires names != []
    ensures forall m :: Exists(names, m) <==> Fold(names[0]) == m || Exists(names[1..], m)
    ensures DistinctNames(names) ==> DistinctNames(names[1..]) && !Exists(names[1..], Fold(names[0]))
  {
    hide Fold;
    assert forall k | 0 < k < |names| :: names[k] == names[1..][k - 1];
    forall m
      ensures Exists(names, m) <==> Fold(names[0]) == m || Exists(names[1..], m)
    {
      if Exists(names[1..], m) {
        var k :| 0 <= k < |names[1..]| && Fold(names[1..][k]) == m;
        assert Fold(names[k + 1]) == m;
      }
    }
  }

  lemma NoneEmptyIs(g: Graph)
    ensures NoneEmpty(g) <==> forall n | Exists(g.names, n) :: !Nobody(g.people, n)
  {
    hide Fold, Nobody;
    if forall n | Exists(g.names, n) :: !Nobody(g.people, n) {
      forall k | 0 <= k < |g.names|
        ensures !Nobody(g.people, Fold(g.names[k]))
      {
        assert Exists(g.names, Fold(g.names[k]));
      }
    }
  }

  lemma PartStep(g: Graph, i: nat, name: string, shouldDestroy: bool)
    requires GraphOk(g)
    ensures GoodStep(g, PartCommand(i, name, shouldDestroy))
  {
    var n := Fold(name);
    hide Fold, Exists, DistinctNames, WithoutName;
    if HasSeat(g, i, n) {
      var h := Parted(g, i, n, shouldDestroy);
      LeftAre(g, i, n);
      WithoutNameIs(g.names, n);
      NoneEmptyIs(g);
      NoneEmptyIs(h);
      hide NoneEmpty, Nobody, NobodyElse;
      assert Exists(g.names, n);
    }
  }

  lemma LeftAre(g: Graph, i: nat, n: string)
    requires HasSeat(g, i, n)
    ensures var people := WithSeats(g, i, g.people[i].seats - {n}).people;
      && (Nobody(people, n) <==> NobodyElse(g.people, i, n))
      && (forall m | m != n :: Nobody(people, m) <==> Nobody(g.people, m))
  {
    var people := WithSeats(g, i, g.people[i].seats - {n}).people;
    assert forall k | 0 <= k < |people| && k != i :: people[k] == g.people[k];
    assert n !in people[i].seats;
    forall m | m != n
      ensures Nobody(people, m) <==> Nobody(g.people, m)
    {
      assert forall k | 0 <= k < |people| :: m in people[k].seats <==> m in g.people[k].seats;
    }
  }

  lemma AnyStep(g: Graph, x: Command)
    requires GraphOk(g)
    ensures GoodStep(g, x)
  {
    hide GraphOk, NoneEmpty, GoodStep;
    match x
    case ConnectCommand(isUser, isLocal) => ConnectStep(g, isUser, isLocal);
    case JoinCommand(i, name, modes) => JoinStep(g, i, name, modes);
    case PartCommand(i, name, shouldDestroy) => PartStep(g, i, name, shouldDestroy);
    case _ => ChangeStep(g, x);
  }

  lemma ChangeStep(g: Graph, x: Command)
    requires GraphOk(g) && (x.ModeCommand? || x.InvisibleCommand?)
    ensures GoodStep(g, x)
  {
    hide Fold, Apply, GraphOk, NoneEmpty;
    SameSeats(g, After(g, x));
  }

  /** Over every run there is somebody in every channel, which so exists exactly as long as it is used, if and only
      if no channel is made that nobody joins, and none is kept by the hook when its last user leaves. */
  lemma NoneEmptyInRuns(g: Graph, xs: seq<Command>)
    requires GraphOk(g) && NoneEmpty(g)
    ensures forall k: nat | k <= |xs| :: GraphOk(At(After, g, xs, k))
    ensures Always(After, NoneEmpty, g, xs) <==> Never(After, LeavesEmpty, g, xs)
  {
    hide GraphOk, NoneEmpty, LeavesEmpty;
    forall g, x | GraphOk(g)
      ensures GraphOk(After(g, x)) && (NoneEmpty(g) ==> (NoneEmpty(After(g, x)) <==> !LeavesEmpty(g, x)))
    {
      AnyStep(g, x);
    }
    hide After, Always, Never;
    Throughout(After, GraphOk, NoneEmpty, LeavesEmpty, g, xs);
    forall k: nat | k <= |xs|
      ensures GraphOk(At(After, g, xs, k))
    {
      AlwaysHolds(After, GraphOk, g, xs, k);
    }
  }

  function NamesOf(cs: seq<Channel>): (r: seq<string>)
    ensures |r| == |cs| && forall k | 0 <= k < |cs| :: r[k] == cs[k].name
  {
    seq(|cs|, k requires 0 <= k < |cs| => cs[k].name)
  }

  /** The folded name of the channel of a membership. */
  ghost function NameOf(mb: Membership): string
    reads mb
  {
    if mb.channel == null then "" else Fold(mb.channel.name)
  }

  /** A membership as a value. */
  datatype Row = Row(name: string, seat: Seat)

  ghost function RowOf(mb: Membership): Row
    reads mb
  {
    Row(NameOf(mb), Seat(mb.modes, mb.invisible))
  }

  ghost function RowsOf(mbs: seq<Membership>): (r: seq<Row>)
    reads mbs
    ensures |r| == |mbs| && forall k | 0 <= k < |mbs| :: r[k] == RowOf(mbs[k])
  {
    seq(|mbs|, k requires 0 <= k < |mbs| reads mbs => RowOf(mbs[k]))
  }

  function SeatsOf(rows: seq<Row>): map<string, Seat> {
    if rows == [] then map[] else SeatsOf(rows[1..])[rows[0].name := rows[0].seat]
  }

  predicate Distinct(rows: seq<Row>) {
    forall i, j | 0 <= i < j < |rows| :: rows[i].name != rows[j].name
  }

  ghost function PersonOf(cl: Client): Person
    reads cl, cl.channels
  {
    Person(cl.isUser, cl.isLocal, SeatsOf(RowsOf(cl.channels)))
  }

  lemma {:induction false} SeatsAre(rows: seq<Row>)
    requires Distinct(rows)
    ensures forall k | 0 <= k < |rows| :: rows[k].name in SeatsOf(rows) && SeatsOf(rows)[rows[k].name] == rows[k].seat
    ensures forall n | n in SeatsOf(rows) :: exists k :: 0 <= k < |rows| && rows[k].name == n
  {
    if rows != [] {
      SeatsAre(rows[1..]);
      assert forall k | 0 < k < |rows| :: rows[k] == rows[1..][k - 1];
    }
  }

  lemma SeatsCons(row: Row, rows: seq<Row>)
    ensures SeatsOf([row] + rows) == SeatsOf(rows)[row.name := row.seat]
  {
    assert ([row] + rows)[1..] == rows;
  }

  lemma FirstIsNamedOnce(rows: seq<Row>)
    requires Distinct(rows) && rows != []
    ensures Distinct(rows[1..]) && rows[0].name !in SeatsOf(rows[1..])
  {
    SeatsAre(rows[1..]);
    assert forall k | 0 < k < |rows| :: rows[k] == rows[1..][k - 1];
  }

  lemma MinusUpdate(m: map<string, Seat>, a: string, seat: Seat, b: string)
    ensures a != b ==> m[a := seat] - {b} == (m - {b})[a := seat]
    ensures a !in m ==> m[a := seat] - {a} == m
  {
  }

  lemma FirstSeat(rows: seq<Row>)
    requires rows != []
    ensures SeatsOf(rows) == SeatsOf(rows[1..])[rows[0].name := rows[0].seat]
  {
  }

  /** One membership less. */
  lemma {:induction false} SeatsWithout(rows: seq<Row>, k: nat)
    requires Distinct(rows) && k < |rows|
    ensures SeatsOf(CutOut(rows, k)) == SeatsOf(rows) - {rows[k].name}
  {
    FirstIsNamedOnce(rows);
    FirstSeat(rows);
    MinusUpdate(SeatsOf(rows[1..]), rows[0].name, rows[0].seat, rows[k].name);
    hide Distinct, SeatsOf;
    if k == 0 {
      assert CutOut(rows, 0) == rows[1..];
    } else {
      SeatsWithout(rows[1..], k - 1);
      assert CutOut(rows, k) == [rows[0]] + CutOut(rows[1..], k - 1);
      SeatsCons(rows[0], CutOut(rows[1..], k - 1));
      OtherName(rows, k);
    }
  }

  lemma OtherName(rows: seq<Row>, k: nat)
    requires Distinct(rows) && 0 < k < |rows|
    ensures rows[0].name != rows[k].name
  {
  }

  /** The values of one membership change. */
  lemma {:induction false} SeatsChanged(rows: seq<Row>, k: nat, seat: Seat)
    requires Distinct(rows) && k < |rows|
    ensures SeatsOf(rows[k := Row(rows[k].name, seat)]) == SeatsOf(rows)[rows[k].name := seat]
  {
    var r := rows[k := Row(rows[k].name, seat)];
    if k == 0 {
      assert r[1..] == rows[1..];
    } else {
      FirstIsNamedOnce(rows);
      SeatsChanged(rows[1..], k - 1, seat);
      assert r[1..] == rows[1..][k - 1 := Row(rows[k].name, seat)];
      OtherName(rows, k);
    }
  }

  lemma {:induction false} NamesWithout(cs: seq<Channel>, c: Channel)
    requires c in cs && forall i, j | 0 <= i < j < |cs| :: Fold(cs[i].name) != Fold(cs[j].name)
    ensures NamesOf(Removed(cs, c)) == WithoutName(NamesOf(cs), Fold(c.name))
  {
    hide Fold;
    assert NamesOf(cs)[1..] == NamesOf(cs[1..]);
    if cs[0] != c {
      InRest(cs, c);
      NamesWithout(cs[1..], c);
      hide NamesOf;
      NamesCons(cs[0], Removed(cs[1..], c));
    }
  }

  lemma InRest(cs: seq<Channel>, c: Channel)
    requires c in cs && cs[0] != c && forall i, j | 0 <= i < j < |cs| :: Fold(cs[i].name) != Fold(cs[j].name)
    ensures c in cs[1..] && Fold(cs[0].name) != Fold(c.name)
  {
    var k :| 0 < k < |cs| && cs[k] == c;
    assert cs[1..][k - 1] == c;
  }

  lemma PartedValue(g: Graph, i: nat, n: string, shouldDestroy: bool, after: Graph)
    requires i < |g.people| && n in g.people[i].seats && after.registry == g.registry
    requires after.people == WithSeats(g, i, g.people[i].seats - {n}).people
    requires after.names == if shouldDestroy && Nobody(after.people, n) then WithoutName(g.names, n) else g.names
    ensures after == Parted(g, i, n, shouldDestroy)
  {
    hide Nobody, WithoutName;
  }

  lemma NamesCons(c: Channel, cs: seq<Channel>)
    ensures NamesOf([c] + cs) == [c.name] + NamesOf(cs)
  {
  }

  class Network {
    const registry: seq<Mode>
    var clients: seq<Client>
    var channels: seq<Channel>
    var table: map<string, Channel>
    var channelCount: int
    var freeMembers: seq<Member>
    var freeMemberships: seq<Membership>
    ghost var allMembers: set<Member>          // every Member ever allocated
    ghost var allMemberships: set<Membership>  // every Membership ever allocated
    ghost var repr: set<object>

    // -------------------------------------------------------------------
    // The invariant.

    /** m, listed by c, and its Membership agree and point at each other. */
    ghost predicate MemberOk(c: Channel, m: Member)
      reads this, repr
    {
      && c in repr && m in repr && m in allMembers
      && m.client != null && m.client in clients && m.client in repr && m.client.isUser
      && m.related != null && m.related in repr && m.related in m.client.channels
      && m.related.related == m && m.related.channel == c
      && m.modes == m.related.modes && Ranked(registry, m.modes) && m.invisible == m.related.invisible
      && (m.localMember != null <==> m.client.isLocal)
      && (m.localMember != null ==>
            m.localMember in repr && m.localMember in c.localMembers && m.localMember.ptr == m)
    }

    ghost predicate ChannelOk(c: Channel)
      reads this, repr
    {
      && c in repr
      && c.users == |c.members|
      && NoDup(c.members) && NoDup(c.localMembers)
      && (forall m | m in c.members :: MemberOk(c, m))
      && (forall lm | lm in c.localMembers ::
            lm in repr && lm.ptr in repr && lm.ptr in c.members && lm.ptr.localMember == lm)
    }

    /** mb, listed by cl, belongs to a listed Member of a listed channel. */
    ghost predicate MembershipOk(cl: Client, mb: Membership)
      reads this, repr
    {
      && cl in repr && mb in repr && mb in allMemberships
      && mb.channel != null && mb.channel in channels && mb.channel in repr
      && mb.related != null && mb.related in repr && mb.related in mb.channel.members
      && mb.related.related == mb && mb.related.client == cl
    }

    ghost predicate ClientOk(cl: Client)
      reads this, repr
    {
      && cl in repr
      && cl.joined == |cl.channels|
      && NoDup(cl.channels)
      && (forall mb | mb in cl.channels :: MembershipOk(cl, mb))
      && (forall mb, mb' | mb in cl.channels && mb' in cl.channels && mb != mb' :: mb.channel != mb'.channel)
    }

    /** The channel list, its count and the name table agree. */
    ghost predicate ListsOk()
      reads this, repr
    {
      && NoDup(channels) && NoDup(clients)
      && channelCount == |channels|
      && (forall c | c in channels :: c in repr && Fold(c.name) in table && table[Fold(c.name)] == c)
      && (forall n | n in table :: table[n] in channels && Fold(table[n].name) == n)
    }

    ghost predicate Live(m: Member)
      reads this, repr
    {
      && m in repr && m.related != null && m.related in repr
      && m.related.channel != null && m.related.channel in channels && m.related.channel in repr
      && m in m.related.channel.members
    }

    /** Every Member struct is on the free list, zeroed, or live. */
    ghost predicate MemberPoolOk()
      reads this, repr
    {
      && NoDup(freeMembers)
      && (forall m | m in freeMembers :: m in repr && m in allMembers && m.Zeroed())
      && (forall m | m in allMembers :: m in repr && (m in freeMembers || Live(m)))
    }

    ghost predicate LiveMembership(mb: Membership)
      reads this, repr
    {
      && mb in repr && mb.related != null && mb.related in repr
      && mb.related.client != null && mb.related.client in clients && mb.related.client in repr
      && mb in mb.related.client.channels
    }

    ghost predicate MembershipPoolOk()
      reads this, repr
    {
      && NoDup(freeMemberships)
      && (forall mb | mb in freeMemberships :: mb in repr && mb in allMemberships && mb.Zeroed())
      && (forall mb | mb in allMemberships :: mb in repr && (mb in freeMemberships || LiveMembership(mb)))
    }

    ghost predicate Valid()
      reads this, repr
    {
      && this !in repr
      && (forall c | c in channels :: ChannelOk(c))
      && (forall cl | cl in clients :: ClientOk(cl))
      && ListsOk() && MemberPoolOk() && MembershipPoolOk()
    }

    constructor (registry: seq<Mode>)
      ensures Valid() && this.registry == registry && clients == [] && channels == []
      ensures repr == {}
    {
      this.registry := registry;
      clients, channels, table, channelCount := [], [], map[], 0;
      freeMembers, freeMemberships := [], [];
      allMembers, allMemberships, repr := {}, {}, {};
    }

    // -------------------------------------------------------------------
    // Joining.

    /** The parts of the invariant that one list or pool does not affect. */
    twostate predicate Kept()
      reads this, repr
    {
      && old(repr) <= repr && this !in repr
      && old(allMembers) <= allMembers && old(allMemberships) <= allMemberships
      && (forall cl | cl in old(clients) :: cl in clients)
      && (forall o: object | o in old(repr) :: unchanged(o))
    }

    twostate predicate NoChannelLost()
      reads this
    {
      forall c | c in old(channels) :: c in channels
    }

    twostate lemma ChannelKept(c: Channel)
      requires old(ChannelOk(c)) && Kept()
      ensures ChannelOk(c)
    {
      assert unchanged(c);
      forall m | m in c.members ensures MemberOk(c, m) {
        assert old(MemberOk(c, m));
        assert unchanged(m) && unchanged(m.related) && unchanged(m.client);
        if m.localMember != null {
          assert unchanged(m.localMember);
        }
      }
      forall lm | lm in c.localMembers
        ensures lm in repr && lm.ptr in repr && lm.ptr in c.members && lm.ptr.localMember == lm
      {
        assert unchanged(lm) && unchanged(old(lm.ptr));
      }
    }

    twostate lemma ClientKept(cl: Client)
      requires old(ClientOk(cl)) && Kept() && NoChannelLost()
      ensures ClientOk(cl)
    {
      assert unchanged(cl);
      forall mb | mb in cl.channels ensures MembershipOk(cl, mb) {
        assert old(MembershipOk(cl, mb));
        assert unchanged(mb) && unchanged(mb.related) && unchanged(mb.channel);
      }
    }

    twostate lemma MembershipPoolKept()
      requires old(MembershipPoolOk()) && Kept()
      requires freeMemberships == old(freeMemberships) && allMemberships == old(allMemberships)
      ensures MembershipPoolOk()
    {
      forall mb | mb in allMemberships && mb !in freeMemberships ensures LiveMembership(mb) {
        assert old(LiveMembership(mb));
        assert unchanged(mb) && unchanged(mb.related) && unchanged(mb.related.client);
      }
    }

    twostate lemma MemberPoolGrown(new m: Member)
      requires old(MemberPoolOk()) && Kept() && NoChannelLost()
      requires m !in old(repr) && m in repr && m.Zeroed()
      requires freeMembers == [m] + old(freeMembers) && allMembers == old(allMembers) + {m}
      ensures MemberPoolOk()
    {
      forall m' | m' in old(allMembers) && m' !in freeMembers ensures Live(m') {
        assert old(Live(m'));
        assert unchanged(m') && unchanged(m'.related) && unchanged(m'.related.channel);
      }
    }

    twostate lemma MemberPoolKept()
      requires old(MemberPoolOk()) && Kept() && NoChannelLost()
      requires freeMembers == old(freeMembers) && allMembers == old(allMembers)
      ensures MemberPoolOk()
    {
      forall m | m in allMembers && m !in freeMembers ensures Live(m) {
        assert old(Live(m));
        assert unchanged(m) && unchanged(m.related) && unchanged(m.related.channel);
      }
    }

    twostate lemma MembershipPoolGrown(new mb: Membership)
      requires old(MembershipPoolOk()) && Kept()
      requires mb !in old(repr) && mb in repr && mb.Zeroed()
      requires freeMemberships == [mb] + old(freeMemberships) && allMemberships == old(allMemberships) + {mb}
      ensures MembershipPoolOk()
    {
      forall mb' | mb' in old(allMemberships) && mb' !in freeMemberships ensures LiveMembership(mb') {
        assert old(LiveMembership(mb'));
        assert unchanged(mb') && unchanged(mb'.related) && unchanged(mb'.related.client);
      }
    }

    /** The batch allocation of make_member. */
    method RefillMembers()
      requires Valid()
      modifies this`freeMembers, this`allMembers, this`repr
      ensures Valid() && freeMembers != [] && fresh(repr - old(repr)) && Kept()
    {
      var i := 1;
      while i <= MEMBERS_PER_BATCH
        invariant Valid() && fresh(repr - old(repr)) && Kept()
        invariant i > 1 ==> freeMembers != []
      {
        NewFreeMember();
        i := i + 1;
      }
    }

    method NewFreeMember()
      requires Valid()
      modifies this`freeMembers, this`allMembers, this`repr
      ensures Valid() && freeMembers != [] && fresh(repr - old(repr)) && Kept()
    {
      hide Valid;
      NotInRepr();
      var m := new Member();
      freeMembers := [m] + freeMembers;
      allMembers, repr := allMembers + {m}, repr + {m};
      MemberGrown(m);
    }

    twostate lemma MemberGrown(new m: Member)
      requires old(Valid()) && Kept() && clients == old(clients) && channels == old(channels)
      requires table == old(table) && channelCount == old(channelCount)
      requires freeMemberships == old(freeMemberships) && allMemberships == old(allMemberships)
      requires m !in old(repr) && m in repr && m.Zeroed()
      requires freeMembers == [m] + old(freeMembers) && allMembers == old(allMembers) + {m}
      ensures Valid()
    {
      hide ChannelOk, ClientOk, MemberPoolOk, MembershipPoolOk;
      forall c | c in channels ensures ChannelOk(c) { ChannelKept(c); }
      forall cl | cl in clients ensures ClientOk(cl) { ClientKept(cl); }
      MembershipPoolKept();
      MemberPoolGrown(m);
    }

    /** The batch allocation of make_membership. */
    method RefillMemberships()
      requires Valid()
      modifies this`freeMemberships, this`allMemberships, this`repr
      ensures Valid() && freeMemberships != [] && fresh(repr - old(repr)) && Kept()
    {
      var i := 1;
      while i <= MEMBERSHIPS_PER_BATCH
        invariant Valid() && fresh(repr - old(repr)) && Kept()
        invariant i > 1 ==> freeMemberships != []
      {
        NewFreeMembership();
        i := i + 1;
      }
    }

    method NewFreeMembership()
      requires Valid()
      modifies this`freeMemberships, this`allMemberships, this`repr
      ensures Valid() && freeMemberships != [] && fresh(repr - old(repr)) && Kept()
    {
      hide Valid;
      NotInRepr();
      var mb := new Membership();
      freeMemberships := [mb] + freeMemberships;
      allMemberships, repr := allMemberships + {mb}, repr + {mb};
      MembershipGrown(mb);
    }

    twostate lemma MembershipGrown(new mb: Membership)
      requires old(Valid()) && Kept() && clients == old(clients) && channels == old(channels)
      requires table == old(table) && channelCount == old(channelCount)
      requires freeMembers == old(freeMembers) && allMembers == old(allMembers)
      requires mb !in old(repr) && mb in repr && mb.Zeroed()
      requires freeMemberships == [mb] + old(freeMemberships) && allMemberships == old(allMemberships) + {mb}
      ensures Valid()
    {
      hide ChannelOk, ClientOk, MemberPoolOk, MembershipPoolOk;
      forall c | c in channels ensures ChannelOk(c) { ChannelKept(c); }
      forall cl | cl in clients ensures ClientOk(cl) { ClientKept(cl); }
      MemberPoolKept();
      MembershipPoolGrown(mb);
    }

    /** What a join changes, and that it changes nothing else. */
    twostate predicate JoinStep(k: Join)
      reads this, repr, k.c, k.cl, k.m, k.mb, k.m.localMember
    {
      var Join(c, cl, m, mb) := k;
      var lm := m.localMember;
      && old(freeMembers) != [] && m == old(freeMembers)[0] && freeMembers == old(freeMembers)[1..]
      && old(freeMemberships) != [] && mb == old(freeMemberships)[0] && freeMemberships == old(freeMemberships)[1..]
      && clients == old(clients) && channels == old(channels)
      && table == old(table) && channelCount == old(channelCount)
      && allMembers == old(allMembers) && allMemberships == old(allMemberships)
      && c.members == [m] + old(c.members) && c.users == old(c.users) + 1
      && cl.channels == [mb] + old(cl.channels) && cl.joined == old(cl.joined) + 1
      && m.client == cl && m.related == mb
      && mb.channel == c && mb.related == m
      && m.modes == mb.modes && Ranked(registry, m.modes) && m.invisible == mb.invisible
      && (lm != null <==> cl.isLocal)
      && (if lm == null then repr == old(repr) && c.localMembers == old(c.localMembers)
          else repr == old(repr) + {lm} && lm !in old(repr) && lm.ptr == m
               && c.localMembers == [lm] + old(c.localMembers))
      && (forall o: object | o in old(repr) && o != c && o != cl && o != m && o != mb :: unchanged(o))
    }

    /** A join may link client cl into channel c. */
    ghost predicate MayJoin(c: Channel, cl: Client)
      reads this, repr
    {
      && Valid() && c in channels && c in repr && cl in clients && cl in repr && cl.isUser
      && forall mb | mb in cl.channels :: mb in repr && mb.channel != c
    }

    twostate lemma JoinOtherChannel(k: Join, new c': Channel)
      requires old(MayJoin(k.c, k.cl)) && JoinStep(k) && c' in channels && c' != k.c
      ensures ChannelOk(c')
    {
      var Join(c, cl, m, mb) := k;
      assert old(ChannelOk(c'));
      assert unchanged(c');
      forall m' | m' in c'.members ensures MemberOk(c', m') {
        assert old(MemberOk(c', m'));
        assert unchanged(m') && unchanged(m'.related);
        if m'.localMember != null {
          assert unchanged(m'.localMember);
        }
      }
      forall l | l in c'.localMembers
        ensures l in repr && l.ptr in repr && l.ptr in c'.members && l.ptr.localMember == l
      {
        assert unchanged(l) && old(MemberOk(c', l.ptr)) && unchanged(old(l.ptr));
      }
    }

    twostate lemma JoinThisChannel(k: Join)
      requires old(MayJoin(k.c, k.cl)) && JoinStep(k)
      ensures ChannelOk(k.c)
    {
      var Join(c, cl, m, mb) := k;
      var lm := m.localMember;
      assert old(ChannelOk(c));
      assert m !in old(c.members) by {
        assert forall m' | m' in old(c.members) :: old(MemberOk(c, m'));
      }
      NoDupCons(m, old(c.members));
      if lm != null {
        NoDupCons(lm, old(c.localMembers));
      }
      forall m' | m' in c.members ensures MemberOk(c, m') {
        if m' != m {
          assert m' in old(c.members) && old(MemberOk(c, m'));
          assert unchanged(m') && unchanged(m'.related);
          if m'.localMember != null {
            assert unchanged(m'.localMember);
          }
        }
      }
      forall l | l in c.localMembers
        ensures l in repr && l.ptr in repr && l.ptr in c.members && l.ptr.localMember == l
      {
        if l != lm {
          assert l in old(c.localMembers);
          assert unchanged(l) && old(MemberOk(c, l.ptr)) && unchanged(old(l.ptr));
        }
      }
    }

    twostate lemma JoinOtherClient(k: Join, new cl': Client)
      requires old(MayJoin(k.c, k.cl)) && JoinStep(k) && cl' in clients && cl' != k.cl
      ensures ClientOk(cl')
    {
      var Join(c, cl, m, mb) := k;
      assert old(ClientOk(cl'));
      assert unchanged(cl');
      forall mb' | mb' in cl'.channels ensures MembershipOk(cl', mb') {
        assert old(MembershipOk(cl', mb'));
        assert unchanged(mb') && unchanged(mb'.related);
      }
    }

    twostate lemma JoinThisClient(k: Join)
      requires old(MayJoin(k.c, k.cl)) && JoinStep(k)
      ensures ClientOk(k.cl)
    {
      var Join(c, cl, m, mb) := k;
      assert old(ClientOk(cl));
      assert mb !in old(cl.channels) by {
        assert forall mb' | mb' in old(cl.channels) :: old(MembershipOk(cl, mb'));
      }
      NoDupCons(mb, old(cl.channels));
      forall mb' | mb' in cl.channels ensures MembershipOk(cl, mb') && (mb' != mb ==> mb'.channel == old(mb'.channel)) {
        if mb' != mb {
          assert mb' in old(cl.channels) && old(MembershipOk(cl, mb'));
          assert unchanged(mb') && unchanged(mb'.related);
        }
      }
    }

    twostate lemma JoinMemberPool(k: Join)
      requires old(MayJoin(k.c, k.cl)) && JoinStep(k)
      ensures MemberPoolOk()
    {
      var Join(c, cl, m, mb) := k;
      forall m' | m' in freeMembers ensures m' in repr && m'.Zeroed() {
        assert m' in old(freeMembers) && m' != m;
        assert unchanged(m');
      }
      forall m' | m' in allMembers && m' !in freeMembers ensures Live(m') {
        if m' != m {
          assert m' !in old(freeMembers);
          assert old(Live(m')) && unchanged(m') && unchanged(m'.related);
        }
      }
    }

    twostate lemma JoinMembershipPool(k: Join)
      requires old(MayJoin(k.c, k.cl)) && JoinStep(k)
      ensures MembershipPoolOk()
    {
      var Join(c, cl, m, mb) := k;
      forall mb' | mb' in freeMemberships ensures mb' in repr && mb'.Zeroed() {
        assert mb' in old(freeMemberships) && mb' != mb;
        assert unchanged(mb');
      }
      forall mb' | mb' in allMemberships && mb' !in freeMemberships ensures LiveMembership(mb') {
        if mb' != mb {
          assert mb' !in old(freeMemberships);
          assert old(LiveMembership(mb')) && unchanged(mb') && unchanged(mb'.related);
        }
      }
    }

    twostate lemma JoinChannel(k: Join, new c': Channel)
      requires old(MayJoin(k.c, k.cl)) && JoinStep(k) && c' in channels
      ensures ChannelOk(c')
    {
      if c' == k.c {
        JoinThisChannel(k);
      } else {
        JoinOtherChannel(k, c');
      }
    }

    twostate lemma JoinClient(k: Join, new cl': Client)
      requires old(MayJoin(k.c, k.cl)) && JoinStep(k) && cl' in clients
      ensures ClientOk(cl')
    {
      if cl' == k.cl {
        JoinThisClient(k);
      } else {
        JoinOtherClient(k, cl');
      }
    }

    twostate lemma JoinKeepsValid(k: Join)
      requires old(MayJoin(k.c, k.cl)) && JoinStep(k) && this !in repr
      ensures Valid()
    {
      hide ChannelOk, ClientOk, MemberPoolOk, MembershipPoolOk;
      forall c' | c' in channels ensures ChannelOk(c') {
        JoinChannel(k, c');
      }
      forall cl' | cl' in clients ensures ClientOk(cl') {
        JoinClient(k, cl');
      }
      JoinMemberPool(k);
      JoinMembershipPool(k);
    }

    /** All other structs are as they were. */
    twostate predicate OthersKept(new c: Channel, new cl: Client, new m: Member, new mb: Membership)
      reads this, repr
    {
      old(repr) <= repr &&
      forall o: object | o in old(repr) && o != c && o != cl && o != m && o != mb :: unchanged(o)
    }

    /** add_user_to_channel. The new Member is returned for the contract only. */
    method AddUser(c: Channel, cl: Client, modes: string) returns (ghost m: Member?)
      requires Valid() && c in channels && cl in clients
      requires forall mb | mb in cl.channels :: mb.channel != c
      modifies this`freeMembers, this`freeMemberships, this`allMembers, this`allMemberships, this`repr, repr
      ensures Valid() && fresh(repr - old(repr)) && old(repr) <= repr
      ensures !cl.isUser ==> m == null && unchanged(this) && unchanged(old(repr))
      ensures cl.isUser ==>
        && m != null && m.client == cl && m.related != null && m.related.channel == c
        && c.members == [m] + old(c.members) && cl.channels == [m.related] + old(cl.channels)
        && m.modes == Edited(registry, "", Adds(modes)) && !m.invisible
        && (UniqueLetters(registry) ==> IsRankedChoice(registry, modes, m.modes))
        && OthersKept(c, cl, m, m.related)
    {
      m := null;
      if !cl.isUser {
        return;
      }
      NotJoined(c, cl);
      hide Valid, MayJoin, UniqueLetters, IsRankedChoice, Edited, Adds;
      JoinedLetters(registry, modes);
      FillPools();
      MayStillJoin(c, cl);
      m := Link(c, cl, modes);
    }

    /** The allocation tests at the start of make_member and make_membership. */
    method FillPools()
      requires Valid()
      modifies this`freeMembers, this`freeMemberships, this`allMembers, this`allMemberships, this`repr
      ensures Valid() && freeMembers != [] && freeMemberships != []
      ensures fresh(repr - old(repr)) && Kept()
    {
      hide ChannelOk, ClientOk, ListsOk, MemberPoolOk, MembershipPoolOk;
      if freeMembers == [] {
        RefillMembers();
      }
      if freeMemberships == [] {
        RefillMemberships();
      }
    }

    /** A client that lists no membership of c may join it. */
    lemma NotJoined(c: Channel, cl: Client)
      requires Valid() && c in channels && cl in clients && cl.isUser
      requires forall mb | mb in cl.channels :: mb.channel != c
      ensures MayJoin(c, cl)
    {
      assert ChannelOk(c) && ClientOk(cl);
      assert forall mb | mb in cl.channels :: MembershipOk(cl, mb);
    }

    twostate lemma MayStillJoin(c: Channel, new cl: Client)
      requires cl in old(clients) && old(MayJoin(c, cl)) && Valid() && Kept() && channels == old(channels)
      ensures MayJoin(c, cl)
    {
      assert unchanged(cl);
      assert forall mb | mb in cl.channels :: unchanged(mb);
    }

    lemma LinkFacts(c: Channel, cl: Client)
      requires MayJoin(c, cl) && freeMembers != [] && freeMemberships != []
      ensures this !in repr && c in repr && cl in repr
      ensures freeMembers[0] in repr && freeMembers[0].Zeroed()
      ensures freeMemberships[0] in repr && freeMemberships[0].Zeroed()
    {
    }

    /** The loops over add_member_mode_fast: both mode strings take every letter. */
    method AddModes(m: Member, mb: Membership, letters: string)
      requires m.modes == mb.modes
      modifies m`modes, mb`modes
      ensures m.modes == mb.modes == Edited(registry, old(m.modes), Adds(letters))
    {
      var p := 0;
      assert letters[0..] == letters;
      while p < |letters|
        invariant p <= |letters| && m.modes == mb.modes
        invariant Edited(registry, m.modes, Adds(letters[p..])) == Edited(registry, old(m.modes), Adds(letters))
      {
        assert Adds(letters[p..])[1..] == Adds(letters[p + 1..]);
        AddModeFast(m, mb, letters[p]);
        p := p + 1;
      }
    }

    /** add_member_mode_fast */
    method AddModeFast(m: Member, mb: Membership, letter: char)
      modifies m`modes, mb`modes
      ensures m.modes == WithLetter(registry, old(m.modes), letter)
      ensures mb.modes == WithLetter(registry, old(mb.modes), letter)
    {
      m.modes := AddLetterToString(registry, m.modes, letter);
      mb.modes := AddLetterToString(registry, mb.modes, letter);
    }

    /** Takes structs off the free lists and links them. */
    method Link(c: Channel, cl: Client, modes: string) returns (m: Member)
      requires MayJoin(c, cl) && freeMembers != [] && freeMemberships != []
      modifies this`freeMembers, this`freeMemberships, this`repr, c, cl, freeMembers[0], freeMemberships[0]
      ensures Valid() && fresh(repr - old(repr)) && old(repr) <= repr
      ensures m == old(freeMembers[0]) && m.related == old(freeMemberships[0])
      ensures c.members == [m] + old(c.members) && cl.channels == [m.related] + old(cl.channels)
      ensures m.modes == Edited(registry, "", Adds(modes))
      ensures m.client == cl && m.related != null && m.related.channel == c
      ensures !m.invisible
    {
      LinkFacts(c, cl);
      hide MayJoin, Valid, Edited, Adds;
      m := TakeAndLink(c, cl, modes);
      JoinKeepsValid(Join(c, cl, m, m.related));
    }

    method TakeAndLink(c: Channel, cl: Client, modes: string) returns (m: Member)
      requires this !in repr && c in repr && cl in repr && freeMembers != [] && freeMemberships != []
      requires freeMembers[0] in repr && freeMembers[0].Zeroed()
      requires freeMemberships[0] in repr && freeMemberships[0].Zeroed()
      modifies this`freeMembers, this`freeMemberships, this`repr, c, cl, freeMembers[0], freeMemberships[0]
      ensures this !in repr && fresh(repr - old(repr)) && old(repr) <= repr
      ensures m == old(freeMembers[0]) && m.related == old(freeMemberships[0])
      ensures JoinStep(Join(c, cl, m, m.related))
      ensures m.modes == Edited(registry, "", Adds(modes)) && !m.invisible
    {
      hide Edited, Adds, Ranked;
      EditedIsRanked(registry, Adds(modes));
      m := freeMembers[0];
      var mb := freeMemberships[0];
      SetLinks(c, cl, m, mb, modes);
      freeMembers, freeMemberships := freeMembers[1..], freeMemberships[1..];
      repr := repr + if m.localMember == null then {} else {m.localMember};
    }

    /** Lists the two structs and points them at each other. */
    method SetLinks(c: Channel, cl: Client, m: Member, mb: Membership, modes: string)
      requires m.modes == mb.modes == ""
      modifies c`members, c`users, c`localMembers, cl`channels, cl`joined,
               m`client, m`related, m`localMember, m`modes, mb`channel, mb`related, mb`modes
      ensures m.modes == mb.modes == Edited(registry, "", Adds(modes))
      ensures c.members == [m] + old(c.members) && c.users == old(c.users) + 1
      ensures cl.channels == [mb] + old(cl.channels) && cl.joined == old(cl.joined) + 1
      ensures m.client == cl && m.related == mb && mb.channel == c && mb.related == m
      ensures if cl.isLocal then
                m.localMember != null && fresh(m.localMember) && m.localMember.ptr == m &&
                c.localMembers == [m.localMember] + old(c.localMembers)
              else m.localMember == null && c.localMembers == old(c.localMembers)
    {
      m.client := cl;
      c.members := [m] + c.members;
      c.users := c.users + 1;
      var lm: LocalMember? := null;
      if cl.isLocal {
        var l := new LocalMember(m);
        lm := l;
        c.localMembers := [l] + c.localMembers;
      }
      mb.channel := c;
      cl.channels := [mb] + cl.channels;
      cl.joined := cl.joined + 1;
      m.related, m.localMember, mb.related := mb, lm, m;
      AddModes(m, mb, modes);
    }

    // -------------------------------------------------------------------
    // Leaving.

    /** The structs that link cl to c. */
    ghost predicate Joined(k: Join)
      reads this, repr, k.m, k.mb, k.cl
    {
      && Valid() && k.cl in clients && k.mb in k.cl.channels
      && k.mb.related == k.m && k.mb.channel == k.c
    }

    /** What a departure changes, and that it changes nothing else. */
    twostate predicate LeaveStep(k: Join)
      reads this, repr, k.c, k.cl, k.m, k.mb
    {
      var Join(c, cl, m, mb) := k;
      && freeMembers == [m] + old(freeMembers) && freeMemberships == [mb] + old(freeMemberships)
      && clients == old(clients) && channels == old(channels)
      && table == old(table) && channelCount == old(channelCount)
      && allMembers == old(allMembers) && allMemberships == old(allMemberships) && repr == old(repr)
      && c.members == Removed(old(c.members), m) && c.users == old(c.users) - 1
      && cl.channels == Removed(old(cl.channels), mb) && cl.joined == old(cl.joined) - 1
      && c.localMembers == (if old(m.localMember) == null then old(c.localMembers)
                            else Removed<LocalMember>(old(c.localMembers), old(m.localMember)))
      && m.Zeroed() && mb.Zeroed()
      && (forall o: object | o in old(repr) && o != c && o != cl && o != m && o != mb :: unchanged(o))
    }

    /** Everything Joined implies about the structs. */
    lemma JoinedFacts(k: Join)
      requires Joined(k)
      ensures k.c in channels && k.c in repr && k.cl in repr && k.m in repr && k.mb in repr && this !in repr
      ensures ChannelOk(k.c) && ClientOk(k.cl) && MemberOk(k.c, k.m) && MembershipOk(k.cl, k.mb)
      ensures k.m in k.c.members && k.m !in freeMembers && k.mb !in freeMemberships
    {
      assert MembershipOk(k.cl, k.mb);
      assert MemberOk(k.c, k.m);
    }

    twostate lemma LeaveOtherChannel(k: Join, new c': Channel)
      requires old(Joined(k)) && LeaveStep(k) && c' in channels && c' != k.c
      ensures ChannelOk(c')
    {
      hide Removed;
      var Join(c, cl, m, mb) := k;
      assert old(MembershipOk(cl, mb)) && old(ClientOk(cl)) && old(ChannelOk(c'));
      RemovedIs(old(cl.channels), mb);
      assert unchanged(c');
      forall m' | m' in c'.members ensures MemberOk(c', m') {
        assert old(MemberOk(c', m'));
        assert unchanged(m') && unchanged(m'.related);
        if m'.localMember != null {
          assert unchanged(m'.localMember);
        }
      }
      forall l | l in c'.localMembers
        ensures l in repr && l.ptr in repr && l.ptr in c'.members && l.ptr.localMember == l
      {
        assert unchanged(l) && old(MemberOk(c', l.ptr)) && unchanged(old(l.ptr));
      }
    }

    twostate lemma LeaveThisChannel(k: Join)
      requires old(Joined(k)) && LeaveStep(k)
      ensures ChannelOk(k.c)
    {
      hide Removed;
      var Join(c, cl, m, mb) := k;
      assert old(MembershipOk(cl, mb)) && old(ClientOk(cl)) && old(ChannelOk(c)) && old(MemberOk(c, m));
      RemovedIs(old(cl.channels), mb);
      RemovedIs(old(c.members), m);
      if old(m.localMember) != null {
        RemovedIs<LocalMember>(old(c.localMembers), old(m.localMember));
      }
      forall m' | m' in c.members ensures MemberOk(c, m') {
        assert old(MemberOk(c, m'));
        assert unchanged(m') && unchanged(m'.related);
        if m'.localMember != null {
          assert unchanged(m'.localMember);
        }
      }
      forall l | l in c.localMembers
        ensures l in repr && l.ptr in repr && l.ptr in c.members && l.ptr.localMember == l
      {
        assert l in old(c.localMembers);
        assert unchanged(l) && old(MemberOk(c, l.ptr)) && unchanged(old(l.ptr));
      }
    }

    twostate lemma LeaveOtherClient(k: Join, new cl': Client)
      requires old(Joined(k)) && LeaveStep(k) && cl' in clients && cl' != k.cl
      ensures ClientOk(cl')
    {
      hide Removed;
      var Join(c, cl, m, mb) := k;
      assert old(MembershipOk(cl, mb)) && old(ClientOk(cl')) && old(ChannelOk(c));
      RemovedIs(old(c.members), m);
      assert unchanged(cl');
      forall mb' | mb' in cl'.channels ensures MembershipOk(cl', mb') {
        assert old(MembershipOk(cl', mb'));
        assert unchanged(mb') && unchanged(mb'.related);
      }
    }

    twostate lemma LeaveThisClient(k: Join)
      requires old(Joined(k)) && LeaveStep(k)
      ensures ClientOk(k.cl)
    {
      hide Removed;
      var Join(c, cl, m, mb) := k;
      assert old(MembershipOk(cl, mb)) && old(ClientOk(cl)) && old(ChannelOk(c));
      RemovedIs(old(c.members), m);
      RemovedIs(old(cl.channels), mb);
      forall mb' | mb' in cl.channels ensures MembershipOk(cl, mb') && mb'.channel == old(mb'.channel) {
        assert old(MembershipOk(cl, mb'));
        assert unchanged(mb') && unchanged(mb'.related);
      }
    }

    twostate lemma LeaveMemberPool(k: Join)
      requires old(Joined(k)) && LeaveStep(k)
      ensures MemberPoolOk()
    {
      hide Removed;
      var Join(c, cl, m, mb) := k;
      assert old(MembershipOk(cl, mb)) && old(ChannelOk(c)) && old(MemberOk(c, m));
      RemovedIs(old(c.members), m);
      NoDupCons(m, old(freeMembers));
      forall m' | m' in allMembers && m' !in freeMembers ensures Live(m') {
        assert old(Live(m')) && old(ChannelOk(m'.related.channel)) && old(MemberOk(m'.related.channel, m'));
        assert unchanged(m') && unchanged(m'.related);
      }
    }

    twostate lemma LeaveMembershipPool(k: Join)
      requires old(Joined(k)) && LeaveStep(k)
      ensures MembershipPoolOk()
    {
      hide Removed;
      var Join(c, cl, m, mb) := k;
      assert old(MembershipOk(cl, mb)) && old(ClientOk(cl)) && old(MemberOk(c, m));
      RemovedIs(old(cl.channels), mb);
      NoDupCons(mb, old(freeMemberships));
      forall mb' | mb' in allMemberships && mb' !in freeMemberships ensures LiveMembership(mb') {
        assert old(LiveMembership(mb')) && old(ClientOk(mb'.related.client));
        assert old(MembershipOk(mb'.related.client, mb'));
        assert unchanged(mb') && unchanged(mb'.related);
      }
    }

    twostate lemma LeaveChannel(k: Join, new c': Channel)
      requires old(Joined(k)) && LeaveStep(k) && c' in channels
      ensures ChannelOk(c')
    {
      if c' == k.c {
        LeaveThisChannel(k);
      } else {
        LeaveOtherChannel(k, c');
      }
    }

    twostate lemma LeaveClient(k: Join, new cl': Client)
      requires old(Joined(k)) && LeaveStep(k) && cl' in clients
      ensures ClientOk(cl')
    {
      if cl' == k.cl {
        LeaveThisClient(k);
      } else {
        LeaveOtherClient(k, cl');
      }
    }

    twostate lemma LeaveKeepsValid(k: Join)
      requires old(Joined(k)) && LeaveStep(k)
      ensures Valid()
    {
      hide ChannelOk, ClientOk, MemberPoolOk, MembershipPoolOk, Removed;
      forall c' | c' in channels ensures ChannelOk(c') {
        LeaveChannel(k, c');
      }
      forall cl' | cl' in clients ensures ClientOk(cl') {
        LeaveClient(k, cl');
      }
      LeaveMemberPool(k);
      LeaveMembershipPool(k);
    }

    /** The unlinking half of remove_user_from_channel_withmb, with sub1_from_channel's count. */
    method Unlink(k: Join)
      requires Joined(k)
      modifies this`freeMembers, this`freeMemberships, k.c, k.cl, k.m, k.mb
      ensures Valid() && LeaveStep(k)
    {
      JoinedFacts(k);
      hide Valid, Joined;
      ClearLinks(k);
      freeMembers, freeMemberships := [k.m] + freeMembers, [k.mb] + freeMemberships;
      LeaveKeepsValid(k);
    }

    static method ClearLinks(k: Join)
      modifies k.c`members, k.c`users, k.c`localMembers, k.cl`channels, k.cl`joined, k.m, k.mb
      ensures k.c.members == Removed(old(k.c.members), k.m) && k.c.users == old(k.c.users) - 1
      ensures k.cl.channels == Removed(old(k.cl.channels), k.mb) && k.cl.joined == old(k.cl.joined) - 1
      ensures k.c.localMembers == (if old(k.m.localMember) == null then old(k.c.localMembers)
                                   else Removed<LocalMember>(old(k.c.localMembers), old(k.m.localMember)))
      ensures k.m.Zeroed() && k.mb.Zeroed()
    {
      hide Removed;
      var Join(c, cl, m, mb) := k;
      if m.localMember != null {
        var lm: LocalMember := m.localMember;
        c.localMembers := Removed<LocalMember>(c.localMembers, lm);
      }
      c.members := Removed(c.members, m);
      m.Clear();
      cl.channels := Removed(cl.channels, mb);
      mb.Clear();
      cl.joined := cl.joined - 1;
      c.users := c.users - 1;
    }

    /** What destroying a channel changes. */
    twostate predicate DestroyStep(c: Channel)
      reads this, repr
    {
      && channels == Removed(old(channels), c) && channelCount == old(channelCount) - 1
      && table == old(table) - {Fold(c.name)}
      && clients == old(clients) && freeMembers == old(freeMembers) && freeMemberships == old(freeMemberships)
      && allMembers == old(allMembers) && allMemberships == old(allMemberships) && repr == old(repr)
      && (forall o: object | o in old(repr) :: unchanged(o))
    }

    twostate lemma DestroyKeepsValid(c: Channel)
      requires old(Valid()) && c in old(channels) && old(c.members) == [] && DestroyStep(c)
      ensures Valid()
    {
      RemovedIs(old(channels), c);
      forall c' | c' in channels ensures ChannelOk(c') {
        assert old(ChannelOk(c'));
        ChannelKept(c');
      }
      forall cl | cl in clients ensures ClientOk(cl) {
        DestroyClient(c, cl);
      }
      DestroyPools(c);
      DestroyLists(c);
    }

    twostate lemma DestroyClient(c: Channel, new cl: Client)
      requires old(Valid()) && c in old(channels) && old(c.members) == [] && DestroyStep(c) && cl in clients
      ensures ClientOk(cl)
    {
      RemovedIs(old(channels), c);
      assert old(ClientOk(cl)) && unchanged(cl);
      forall mb | mb in cl.channels ensures MembershipOk(cl, mb) {
        assert old(MembershipOk(cl, mb));
        assert unchanged(mb) && unchanged(mb.related) && unchanged(mb.channel);
      }
    }

    twostate lemma DestroyPools(c: Channel)
      requires old(Valid()) && c in old(channels) && old(c.members) == [] && DestroyStep(c)
      ensures MemberPoolOk() && MembershipPoolOk()
    {
      RemovedIs(old(channels), c);
      forall m | m in allMembers && m !in freeMembers ensures Live(m) {
        assert old(Live(m));
        assert unchanged(m) && unchanged(m.related) && unchanged(m.related.channel);
      }
      forall mb | mb in allMemberships && mb !in freeMemberships ensures LiveMembership(mb) {
        assert old(LiveMembership(mb));
        assert unchanged(mb) && unchanged(mb.related) && unchanged(mb.related.client);
      }
    }

    twostate lemma DestroyLists(c: Channel)
      requires old(Valid()) && c in old(channels) && DestroyStep(c)
      ensures ListsOk()
    {
      RemovedIs(old(channels), c);
      forall c' | c' in channels ensures c' in repr && Fold(c'.name) in table && table[Fold(c'.name)] == c' {
        assert c' in old(channels);
      }
    }

    /** The destroying half of sub1_from_channel. */
    method Destroy(c: Channel)
      requires Valid() && c in channels && c.members == []
      modifies this`channels, this`table, this`channelCount
      ensures Valid() && DestroyStep(c)
    {
      channels := Removed(channels, c);
      table := table - {Fold(c.name)};
      channelCount := channelCount - 1;
      DestroyKeepsValid(c);
    }

    /** remove_user_from_channel_withmb: unlinks the user; an emptied channel is destroyed unless
        the hook's answer shouldDestroy vetoes that. Returns whether the channel was destroyed. */
    method RemoveUserWithMembership(cl: Client, c: Channel, mb: Membership, shouldDestroy: bool)
      returns (destroyed: bool)
      requires Valid() && cl in clients && mb in cl.channels && mb.channel == c
      modifies this`freeMembers, this`freeMemberships, this`channels, this`table, this`channelCount, repr
      ensures Valid() && repr == old(repr)
      ensures cl.channels == Removed(old(cl.channels), mb)
      ensures old(mb.related) != null && c.members == Removed<Member>(old(c.members), old(mb.related))
      ensures destroyed <==> c.members == [] && shouldDestroy
      ensures destroyed <==> c !in channels
      ensures channels == if destroyed then Removed(old(channels), c) else old(channels)
      ensures table == if destroyed then old(table) - {Fold(c.name)} else old(table)
      ensures forall o: object | o in old(repr) && o != c && o != cl && o != mb && o != old(mb.related) :: unchanged(o)
    {
      assert ClientOk(cl) && MembershipOk(cl, mb);
      ghost var k := Join(c, cl, mb.related, mb);
      JoinedFacts(k);
      hide ChannelOk, ClientOk, MemberPoolOk, MembershipPoolOk, Removed;
      Unlink(Join(c, cl, mb.related, mb));
      UsersIsLength(c);
      destroyed := false;
      if c.users > 0 {
        return;
      }
      if !shouldDestroy {
        return;
      }
      RemovedIs(channels, c);
      Destroy(c);
      destroyed := true;
    }

    lemma UsersIsLength(c: Channel)
      requires Valid() && c in channels
      ensures c.users == |c.members|
    {
      assert ChannelOk(c);
    }

    /** find_membership_link, on a client's list: a client has at most one membership of a channel. */
    method FindMembership(cl: Client, c: Channel) returns (mb: Membership?)
      requires Valid() && cl in clients
      ensures mb == null ==> forall x | x in cl.channels :: x.channel != c
      ensures mb != null ==>
        mb in cl.channels && mb.channel == c && forall x | x in cl.channels && x.channel == c :: x == mb
    {
      assert ClientOk(cl);
      var i := 0;
      while i < |cl.channels|
        invariant i <= |cl.channels|
        invariant forall j | 0 <= j < i :: cl.channels[j].channel != c
      {
        if cl.channels[i].channel == c {
          return cl.channels[i];
        }
        i := i + 1;
      }
      return null;
    }

    /** remove_user_from_channel: nothing happens when the client is not in the channel. */
    method RemoveUser(cl: Client, c: Channel, shouldDestroy: bool)
      returns (destroyed: bool, ghost mb: Membership?)
      requires Valid() && cl in clients
      modifies this`freeMembers, this`freeMemberships, this`channels, this`table, this`channelCount, repr
      ensures Valid() && repr == old(repr)
      ensures forall x | x in cl.channels :: x in repr && x.channel != c
      ensures mb == null ==> unchanged(this) && unchanged(repr) && !destroyed
      ensures mb != null ==>
        && mb in old(cl.channels) && old(mb.channel) == c && old(mb.related) != null
        && cl.channels == Removed<Membership>(old(cl.channels), mb)
        && c.members == Removed<Member>(old(c.members), old(mb.related))
        && (destroyed <==> c.members == [] && shouldDestroy) && (destroyed <==> c !in channels)
        && channels == (if destroyed then Removed(old(channels), c) else old(channels))
        && table == (if destroyed then old(table) - {Fold(c.name)} else old(table))
        && forall o: object | o in repr && o != c && o != cl && o != mb && o != old(mb.related) :: unchanged(o)
    {
      MembershipsInRepr(cl);
      var found := FindMembership(cl, c);
      mb := found;
      if found == null {
        return false, null;
      }
      ghost var before := cl.channels;
      RemovedIs<Membership>(before, mb);
      hide Valid, Removed;
      destroyed := RemoveUserWithMembership(cl, c, found, shouldDestroy);
      forall x | x in cl.channels ensures x in repr && x.channel != c {
        assert x in before && x != mb;
        assert x in old(repr);
      }
    }

    lemma MembershipsInRepr(cl: Client)
      requires Valid() && cl in clients
      ensures cl in repr && NoDup(cl.channels)
      ensures forall mb | mb in cl.channels ::
        mb in repr && mb.related != null && mb.related in repr && mb.channel != null
    {
      assert ClientOk(cl) && forall x | x in cl.channels :: MembershipOk(cl, x);
    }

    // -------------------------------------------------------------------
    // Changing modes and invisibility.

    /** Only the modes and invisible flag of the two structs change, and in the same way. */
    twostate predicate RelabelStep(k: Join)
      reads this, repr, k.m, k.mb
    {
      && unchanged(this)
      && k.m.client == old(k.m.client) && k.m.related == old(k.m.related) && k.m.localMember == old(k.m.localMember)
      && k.mb.channel == old(k.mb.channel) && k.mb.related == old(k.mb.related)
      && k.m.modes == k.mb.modes && Ranked(registry, k.m.modes) && k.m.invisible == k.mb.invisible
      && (forall o: object | o in old(repr) && o != k.m && o != k.mb :: unchanged(o))
    }

    twostate lemma RelabelChannel(k: Join, new c: Channel)
      requires old(Joined(k)) && RelabelStep(k) && c in channels
      ensures ChannelOk(c)
    {
      assert old(MembershipOk(k.cl, k.mb)) && old(ChannelOk(c)) && unchanged(c);
      forall m | m in c.members ensures MemberOk(c, m) {
        assert old(MemberOk(c, m));
        if m != k.m {
          assert unchanged(m) && unchanged(m.related);
        }
        if m.localMember != null {
          assert unchanged(m.localMember);
        }
      }
      forall l | l in c.localMembers
        ensures l in repr && l.ptr in repr && l.ptr in c.members && l.ptr.localMember == l
      {
        assert unchanged(l) && old(MemberOk(c, l.ptr));
        if l.ptr != k.m {
          assert unchanged(old(l.ptr));
        }
      }
    }

    twostate lemma RelabelClient(k: Join, new cl: Client)
      requires old(Joined(k)) && RelabelStep(k) && cl in clients
      ensures ClientOk(cl)
    {
      assert old(MembershipOk(k.cl, k.mb)) && old(ClientOk(cl)) && unchanged(cl);
      forall mb | mb in cl.channels ensures MembershipOk(cl, mb) && mb.channel == old(mb.channel) {
        assert old(MembershipOk(cl, mb));
        if mb != k.mb {
          assert unchanged(mb) && unchanged(mb.related);
        }
      }
    }

    twostate lemma RelabelPools(k: Join)
      requires old(Joined(k)) && RelabelStep(k)
      ensures MemberPoolOk() && MembershipPoolOk()
    {
      assert old(MembershipOk(k.cl, k.mb)) && old(MemberOk(k.c, k.m));
      forall m | m in freeMembers ensures m in repr && m.Zeroed() {
        assert m != k.m && unchanged(m);
      }
      forall mb | mb in freeMemberships ensures mb in repr && mb.Zeroed() {
        assert mb != k.mb && unchanged(mb);
      }
      forall m | m in allMembers && m !in freeMembers ensures Live(m) {
        assert old(Live(m));
      }
      forall mb | mb in allMemberships && mb !in freeMemberships ensures LiveMembership(mb) {
        assert old(LiveMembership(mb));
      }
    }

    twostate lemma RelabelKeepsValid(k: Join)
      requires old(Joined(k)) && RelabelStep(k)
      ensures Valid()
    {
      hide ChannelOk, ClientOk, MemberPoolOk, MembershipPoolOk;
      forall c | c in channels ensures ChannelOk(c) {
        RelabelChannel(k, c);
      }
      forall cl | cl in clients ensures ClientOk(cl) {
        RelabelClient(k, cl);
      }
      RelabelPools(k);
    }

    /** add_member_mode and del_member_mode */
    method ChangeMemberMode(cl: Client, c: Channel, edit: Edit) returns (ghost mb: Membership?)
      requires Valid() && cl in clients
      modifies repr
      ensures Valid()
      ensures mb == null ==> unchanged(repr) && forall x | x in cl.channels :: x.channel != c
      ensures mb != null ==>
        && mb in cl.channels && mb.channel == old(mb.channel) == c
        && mb.related != null && mb.related == old(mb.related)
        && mb.modes == mb.related.modes == Apply(registry, old(mb.modes), edit)
        && mb.invisible == mb.related.invisible == old(mb.invisible)
        && forall o: object | o in repr && o != mb && o != mb.related :: unchanged(o)
    {
      SameModes(cl);
      var mbs := FindMembership(cl, c);
      mb := mbs;
      if mbs == null {
        return;
      }
      var m: Member := mbs.related;
      ghost var k := Join(c, cl, m, mbs);
      JoinedFacts(k);
      hide Valid, Joined, Apply, Ranked;
      ApplyIsRanked(registry, mbs.modes, edit);
      EditModes(m, mbs, edit);
      RelabelKeepsValid(k);
    }

    lemma SameModes(cl: Client)
      requires Valid() && cl in clients
      ensures forall mb | mb in cl.channels ::
        && mb in repr && mb.related != null && mb.related in repr && mb.modes == mb.related.modes
        && mb.invisible == mb.related.invisible && Ranked(registry, mb.modes)
    {
      assert ClientOk(cl);
      forall mb | mb in cl.channels
        ensures mb in repr && mb.related != null && mb.related in repr && mb.modes == mb.related.modes
          && mb.invisible == mb.related.invisible && Ranked(registry, mb.modes)
      {
        assert MembershipOk(cl, mb);
        assert MemberOk(mb.channel, mb.related);
      }
    }

    method EditModes(m: Member, mb: Membership, edit: Edit)
      modifies m`modes, mb`modes
      ensures m.modes == Apply(registry, old(m.modes), edit)
      ensures mb.modes == Apply(registry, old(mb.modes), edit)
    {
      match edit
      case Add(letter) => AddModeFast(m, mb, letter);
      case Del(letter) => DelModeFast(m, mb, letter);
    }

    /** del_member_mode_fast */
    method DelModeFast(m: Member, mb: Membership, letter: char)
      modifies m`modes, mb`modes
      ensures m.modes == WithoutLetter(old(m.modes), letter)
      ensures mb.modes == WithoutLetter(old(mb.modes), letter)
    {
      m.modes := WithoutLetter(m.modes, letter);
      mb.modes := WithoutLetter(mb.modes, letter);
    }

    static method SetFlags(m: Member, mb: Membership, invisible: bool)
      modifies m`invisible, mb`invisible
      ensures m.invisible == mb.invisible == invisible
    {
      mb.invisible := invisible;
      m.invisible := invisible;
    }

    /** set_user_invisible */
    method SetInvisible(cl: Client, c: Channel, invisible: bool) returns (ghost mb: Membership?)
      requires Valid() && cl in clients
      modifies repr
      ensures Valid()
      ensures mb == null ==> unchanged(repr) && (cl.isUser ==> forall x | x in cl.channels :: x.channel != c)
      ensures mb != null ==>
        && mb in cl.channels && mb.channel == old(mb.channel) == c
        && mb.related != null && mb.related == old(mb.related)
        && mb.invisible == mb.related.invisible == invisible
        && mb.modes == mb.related.modes == old(mb.modes)
        && forall o: object | o in repr && o != mb && o != mb.related :: unchanged(o)
    {
      mb := null;
      SameModes(cl);
      if !cl.isUser {
        return;
      }
      var m := FindMembership(cl, c);
      mb := m;
      if m == null {
        return;
      }
      var related: Member := m.related;
      ghost var k := Join(c, cl, related, m);
      JoinedFacts(k);
      hide Valid, Joined, Ranked;
      SetFlags(related, m, invisible);
      RelabelKeepsValid(k);
    }

    // -------------------------------------------------------------------
    // New clients and channels.

    /** A new client, linked to nothing yet. */
    method AddClient(isUser: bool, isLocal: bool) returns (cl: Client)
      requires Valid()
      modifies this`clients, this`repr
      ensures Valid() && fresh(repr - old(repr)) && Kept()
      ensures clients == old(clients) + [cl] && cl.isUser == isUser && cl.isLocal == isLocal && cl.channels == []
    {
      hide ChannelOk, ClientOk, MemberPoolOk, MembershipPoolOk, ListsOk;
      cl := new Client(isUser, isLocal);
      clients, repr := clients + [cl], repr + {cl};
      forall c | c in channels ensures ChannelOk(c) {
        ChannelKept(c);
      }
      forall cl' | cl' in clients ensures ClientOk(cl') {
        ClientKeptOrNew(cl, cl');
      }
      MemberPoolKept();
      MembershipPoolKept();
      NewClientLists(cl);
    }

    twostate lemma ClientKeptOrNew(new cl: Client, new cl': Client)
      requires forall x | x in old(clients) :: old(ClientOk(x))
      requires Kept() && channels == old(channels) && clients == old(clients) + [cl] && cl' in clients
      requires cl in repr && cl.channels == [] && cl.joined == 0
      ensures ClientOk(cl')
    {
      if cl' != cl {
        ClientKept(cl');
      }
    }

    twostate lemma NewClientLists(new cl: Client)
      requires old(ListsOk()) && Kept() && clients == old(clients) + [cl] && cl !in old(clients)
      requires channels == old(channels) && table == old(table) && channelCount == old(channelCount)
      ensures ListsOk()
    {
    }

    static predicate BadNameChar(c: char) {
      c < '!' || c == ',' || c == ':'
    }

    /** The name make_channel works with: cut to CHANNELLEN and at the first illegal character. */
    static function CleanName(name: string): (r: string)
      ensures r <= name && |r| <= CHANNELLEN && forall c | c in r :: !BadNameChar(c)
      ensures |r| == |name| || |r| == CHANNELLEN || BadNameChar(name[|r|])
      decreases |name|
    {
      if |name| > CHANNELLEN then
        var r := CleanName(name[..CHANNELLEN]);
        r
      else if name == "" then ""
      else
        var n := |name| - 1;
        var r := CleanName(name[..n]);
        if |r| < n || BadNameChar(name[n]) then r else name
    }

    /** make_channel: the existing channel of that name, or a new one at the front of the list. */
    method MakeChannel(name: string) returns (c: Channel?)
      requires Valid()
      modifies this`channels, this`table, this`channelCount, this`repr
      ensures Valid() && fresh(repr - old(repr)) && Kept() && clients == old(clients)
      ensures c == null <==> name == ""
      ensures c == null ==> unchanged(this)
      ensures c != null ==>
        && c in channels && Fold(c.name) == Fold(CleanName(name)) && table[Fold(c.name)] == c
        && (if Fold(CleanName(name)) in old(table) then unchanged(this) && c == old(table)[Fold(CleanName(name))]
            else channels == [c] + old(channels) && fresh(c) && c.name == CleanName(name) && c.members == [])
    {
      if name == "" {
        return null;
      }
      var cleaned := CleanName(name);
      if Fold(cleaned) in table {
        return table[Fold(cleaned)];
      }
      c := NewChannel(cleaned);
    }

    method NewChannel(name: string) returns (c: Channel)
      requires Valid() && Fold(name) !in table
      modifies this`channels, this`table, this`channelCount, this`repr
      ensures Valid() && fresh(repr - old(repr)) && Kept() && clients == old(clients)
      ensures channels == [c] + old(channels) && fresh(c) && c.name == name && c.members == []
      ensures table == old(table)[Fold(name) := c]
    {
      hide ChannelOk, ClientOk, MemberPoolOk, MembershipPoolOk, ListsOk, Fold;
      c := new Channel(name);
      channels, repr := [c] + channels, repr + {c};
      table := table[Fold(name) := c];
      channelCount := channelCount + 1;
      forall c' | c' in channels ensures ChannelOk(c') {
        ChannelKeptOrNew(c, c');
      }
      forall cl | cl in clients ensures ClientOk(cl) {
        ClientKept(cl);
      }
      MemberPoolKept();
      MembershipPoolKept();
      NewChannelLists(c);
    }

    twostate lemma ChannelKeptOrNew(new c: Channel, new c': Channel)
      requires forall x | x in old(channels) :: old(ChannelOk(x))
      requires Kept() && channels == [c] + old(channels) && c' in channels
      requires c in repr && c.members == [] && c.localMembers == [] && c.users == 0
      ensures ChannelOk(c')
    {
      if c' != c {
        ChannelKept(c');
      }
    }

    twostate lemma NewChannelLists(new c: Channel)
      requires old(ListsOk()) && Kept() && clients == old(clients) && c !in old(repr) && c in repr
      requires channels == [c] + old(channels) && channelCount == old(channelCount) + 1
      requires Fold(c.name) !in old(table) && table == old(table)[Fold(c.name) := c]
      ensures ListsOk()
    {
      assert c !in old(channels);
      NoDupCons(c, old(channels));
    }

    // -------------------------------------------------------------------
    // The value of the graph.

    /** The graph as a value. */
    ghost function Value(): Graph
      requires Valid()
      reads this, repr
    {
      Graph(registry, People(), NamesOf(channels))
    }

    ghost function People(): (r: seq<Person>)
      requires Valid()
      reads this, repr
      ensures |r| == |clients| && forall k | 0 <= k < |clients| :: r[k] == PersonOf(clients[k])
    {
      InRepr();
      PeopleFrom(clients)
    }

    lemma InRepr()
      requires Valid()
      ensures forall cl | cl in clients :: cl in repr && forall mb | mb in cl.channels :: mb in repr
    {
      hide ListsOk, MemberPoolOk, MembershipPoolOk, ChannelOk;
      forall cl | cl in clients
        ensures cl in repr && forall mb | mb in cl.channels :: mb in repr
      {
        assert ClientOk(cl) && forall mb | mb in cl.channels :: MembershipOk(cl, mb);
      }
    }

    ghost function PeopleFrom(cls: seq<Client>): (r: seq<Person>)
      requires forall cl | cl in cls :: cl in repr && forall mb | mb in cl.channels :: mb in repr
      reads this, repr
      ensures |r| == |cls| && forall k | 0 <= k < |cls| :: r[k] == PersonOf(cls[k])
    {
      if cls == [] then [] else PeopleFrom(cls[..|cls| - 1]) + [PersonOf(cls[|cls| - 1])]
    }

    /** A client's memberships are of channels with different names, each in the table. */
    lemma ClientRows(cl: Client)
      requires Valid() && cl in clients
      ensures Distinct(RowsOf(cl.channels))
      ensures forall mb | mb in cl.channels ::
        && mb.channel != null && NameOf(mb) == Fold(mb.channel.name)
        && NameOf(mb) in table && table[NameOf(mb)] == mb.channel
    {
      hide Fold, MemberPoolOk, MembershipPoolOk;
      assert ClientOk(cl);
      forall mb | mb in cl.channels
        ensures mb.channel != null && NameOf(mb) in table && table[NameOf(mb)] == mb.channel
      {
        assert MembershipOk(cl, mb);
      }
      forall a, b | 0 <= a < b < |cl.channels|
        ensures NameOf(cl.channels[a]) != NameOf(cl.channels[b])
      {
        assert cl.channels[a] in cl.channels && cl.channels[b] in cl.channels;
      }
    }

    /** A client has a seat in a channel if and only if it lists a membership of it. */
    lemma SeatIff(cl: Client, c: Channel)
      requires Valid() && cl in clients && c in channels
      ensures Fold(c.name) in PersonOf(cl).seats <==> exists mb :: mb in cl.channels && mb.channel == c
    {
      ClientRows(cl);
      TableHas(c);
      hide Valid, Fold, SeatsOf, Distinct;
      SeatsAre(RowsOf(cl.channels));
      if mb :| mb in cl.channels && mb.channel == c {
        var k :| 0 <= k < |cl.channels| && cl.channels[k] == mb;
        assert RowsOf(cl.channels)[k].name == Fold(c.name);
      }
      if Fold(c.name) in PersonOf(cl).seats {
        var k :| 0 <= k < |cl.channels| && RowsOf(cl.channels)[k].name == Fold(c.name);
        assert cl.channels[k] in cl.channels;
      }
    }

    lemma TableHas(c: Channel)
      requires Valid() && c in channels
      ensures Fold(c.name) in table && table[Fold(c.name)] == c
    {
    }

    lemma ExistsIff(n: string)
      requires Valid()
      ensures Exists(NamesOf(channels), n) <==> n in table
      ensures n in table ==> table[n] in channels && Fold(table[n].name) == n
      ensures forall i, j | 0 <= i < j < |channels| :: Fold(channels[i].name) != Fold(channels[j].name)
    {
      hide Fold, ChannelOk, ClientOk, MemberPoolOk, MembershipPoolOk;
      if n in table {
        var k :| 0 <= k < |channels| && channels[k] == table[n];
        assert Fold(NamesOf(channels)[k]) == n;
      }
      forall i, j | 0 <= i < j < |channels|
        ensures Fold(channels[i].name) != Fold(channels[j].name)
      {
        assert channels[i] in channels && channels[j] in channels;
      }
    }

    /** The values of valid graphs are in order. */
    lemma ValueOk()
      requires Valid()
      ensures GraphOk(Value())
    {
      ExistsIff("");
      forall k, n | 0 <= k < |clients| && n in PersonOf(clients[k]).seats
        ensures Exists(NamesOf(channels), n)
      {
        ExistsIff(n);
        if n !in table {
          NoSeat(clients[k], n);
        }
      }
      hide Valid, Fold, Exists, PersonOf;
    }

    /** Nobody has a seat in a channel if and only if its member list is empty. */
    lemma NobodyIff(c: Channel)
      requires Valid() && c in channels
      ensures Nobody(People(), Fold(c.name)) <==> c.members == []
    {
      forall k | 0 <= k < |clients|
        ensures Fold(c.name) in PersonOf(clients[k]).seats <==>
                exists mb :: mb in clients[k].channels && mb.channel == c
      {
        SeatIff(clients[k], c);
      }
      hide Fold, PersonOf, MemberPoolOk, MembershipPoolOk, ListsOk;
      assert ChannelOk(c);
      if c.members != [] {
        var m := c.members[0];
        assert MemberOk(c, m);
        var k :| 0 <= k < |clients| && clients[k] == m.client;
        assert m.related in clients[k].channels && m.related.channel == c;
        assert Fold(c.name) in PersonOf(clients[k]).seats;
      }
      if !Nobody(People(), Fold(c.name)) {
        var k :| 0 <= k < |clients| && Fold(c.name) in People()[k].seats;
        var mb :| mb in clients[k].channels && mb.channel == c;
        assert ClientOk(clients[k]) && MembershipOk(clients[k], mb);
      }
    }

    twostate lemma SamePerson(cl: Client)
      requires unchanged(cl) && forall mb | mb in old(cl.channels) :: unchanged(mb)
      ensures PersonOf(cl) == old(PersonOf(cl))
    {
      forall k | 0 <= k < |cl.channels|
        ensures RowOf(cl.channels[k]) == old(RowOf(cl.channels[k]))
      {
        assert cl.channels[k] in old(cl.channels);
      }
      assert RowsOf(cl.channels) == old(RowsOf(cl.channels));
    }

    /** Nothing that there was has changed. */
    twostate lemma SamePeople()
      requires old(Valid()) && Valid() && clients == old(clients) && forall o: object | o in old(repr) :: unchanged(o)
      ensures People() == old(People())
    {
      hide PersonOf;
      forall k | 0 <= k < |clients|
        ensures PersonOf(clients[k]) == old(PersonOf(clients[k]))
      {
        assert old(ClientOk(clients[k]));
        assert forall mb | mb in old(clients[k].channels) :: old(MembershipOk(clients[k], mb));
        SamePerson(clients[k]);
      }
    }

    /** Only client i, and one membership that is no other client's, have changed. */
    twostate lemma OtherPeople(i: nat, new mb: Membership)
      requires old(Valid()) && Valid() && clients == old(clients) && i < |clients|
      requires forall k | 0 <= k < |clients| && k != i :: mb !in old(clients[k].channels)
      requires forall k | 0 <= k < |clients| && k != i :: unchanged(clients[k])
      requires forall x: Membership | x in old(repr) && x != mb :: unchanged(x)
      ensures People() == old(People())[i := PersonOf(clients[i])]
    {
      hide PersonOf;
      forall k | 0 <= k < |clients| && k != i
        ensures PersonOf(clients[k]) == old(PersonOf(clients[k]))
      {
        assert old(ClientOk(clients[k]));
        assert forall x | x in old(clients[k].channels) :: old(MembershipOk(clients[k], x));
        SamePerson(clients[k]);
      }
    }

    // -------------------------------------------------------------------
    // Whole runs and what holds in every reachable state.

    /** Any sequence of arrivals, joins, departures, mode changes and invisibility changes is the run of the
        graph as a value. */
    method Run(commands: seq<Command>)
      requires Valid()
      modifies this, repr
      ensures Valid() && fresh(repr - old(repr)) && old(clients) <= clients
      ensures Value() == At(After, old(Value()), commands, |commands|)
    {
      hide Valid, Value, After;
      for i := 0 to |commands|
        invariant Valid() && fresh(repr - old(repr)) && old(clients) <= clients
        invariant Value() == At(After, old(Value()), commands, i)
      {
        Step(commands[i]);
      }
    }

    method Step(x: Command)
      requires Valid()
      modifies this, repr
      ensures Valid() && fresh(repr - old(repr)) && old(clients) <= clients
      ensures Value() == After(old(Value()), x)
    {
      hide Valid, Seated, Made, Parted, Fold;
      if x.ConnectCommand? {
        var cl := AddClient(x.isUser, x.isLocal);
        SeenClient(cl);
      } else if x.client < |clients| {
        match x
        case JoinCommand(i, name, modes) => JoinByName(i, name, modes);
        case PartCommand(i, name, shouldDestroy) => PartByName(i, Fold(name), shouldDestroy);
        case ModeCommand(i, name, edit) => ChangeMode(i, Fold(name), edit);
        case InvisibleCommand(i, name, invisible) => ChangeInvisible(i, Fold(name), invisible);
      }
    }

    twostate lemma SeenClient(new cl: Client)
      requires old(Valid()) && Valid() && Kept() && channels == old(channels)
      requires clients == old(clients) + [cl] && cl.channels == []
      ensures Value() == old(Value()).(people := old(Value()).people + [Person(cl.isUser, cl.isLocal, map[])])
    {
      assert RowsOf(cl.channels) == [];
      assert PersonOf(cl) == Person(cl.isUser, cl.isLocal, map[]);
      hide PersonOf, MemberPoolOk, MembershipPoolOk, ChannelOk;
      forall k | 0 <= k < |old(clients)|
        ensures PersonOf(clients[k]) == old(PersonOf(clients[k]))
      {
        assert old(ClientOk(clients[k]));
        assert forall mb | mb in old(clients[k].channels) :: old(MembershipOk(clients[k], mb));
        SamePerson(clients[k]);
      }
    }

    /** JOIN, or a user in an SJOIN. */
    method JoinByName(i: nat, name: string, modes: string)
      requires Valid() && i < |clients|
      modifies this, repr
      ensures Valid() && fresh(repr - old(repr)) && clients == old(clients)
      ensures Value() == After(old(Value()), JoinCommand(i, name, modes))
    {
      hide Valid, Seated, Fold;
      ExistsIff(Fold(CleanName(name)));
      var c := MakeChannel(name);
      MadeIs(name, c);
      if c != null {
        Enter(c, i, modes);
      }
    }

    twostate lemma MadeIs(name: string, new c: Channel?)
      requires old(Valid()) && Valid() && Kept() && clients == old(clients) && (c == null <==> name == "")
      requires old(Exists(NamesOf(channels), Fold(CleanName(name)))) <==> Fold(CleanName(name)) in old(table)
      requires if name == "" || Fold(CleanName(name)) in old(table) then channels == old(channels)
               else channels == [c] + old(channels) && c.name == CleanName(name)
      ensures Value() == Made(old(Value()), name)
    {
      SamePeople();
      hide Valid, Fold, People;
      if channels != old(channels) {
        NamesCons(c, old(channels));
      }
    }

    /** add_user_to_channel, unless the client is there already. */
    method Enter(c: Channel, i: nat, modes: string)
      requires Valid() && i < |clients| && c in channels
      modifies this, repr
      ensures Valid() && fresh(repr - old(repr)) && old(repr) <= repr && clients == old(clients)
      ensures Value() == Seated(old(Value()), i, Fold(c.name), modes)
    {
      hide Valid, Fold, Edited, Adds, WithSeat, Value, Seated, PersonOf;
      NotInRepr();
      SeatIff(clients[i], c);
      SeatedIs(i, Fold(c.name), modes);
      var mb := FindMembership(clients[i], c);
      if mb == null && clients[i].isUser {
        TakeSeat(c, i, modes);
      }
    }

    lemma NotInRepr()
      requires Valid()
      ensures this !in repr
    {
    }

    lemma SeatedIs(i: nat, n: string, modes: string)
      requires Valid() && i < |clients|
      ensures Seated(Value(), i, n, modes) ==
        if n in PersonOf(clients[i]).seats || !clients[i].isUser then Value()
        else WithSeat(Value(), i, n, Seat(Edited(registry, "", Adds(modes)), false))
    {
      hide Valid, Edited, Adds, WithSeat;
    }

    method TakeSeat(c: Channel, i: nat, modes: string)
      requires Valid() && this !in repr && i < |clients| && c in channels && clients[i].isUser
      requires forall mb | mb in clients[i].channels :: mb.channel != c
      modifies this`freeMembers, this`freeMemberships, this`allMembers, this`allMemberships, this`repr, repr
      ensures Valid() && fresh(repr - old(repr)) && old(repr) <= repr
      ensures Value() == WithSeat(old(Value()), i, Fold(c.name), Seat(Edited(registry, "", Adds(modes)), false))
    {
      hide Valid, Fold, Edited, Adds, WithSeat, Value, OthersKept;
      ghost var m := AddUser(c, clients[i], modes);
      JoinedIs(c, i, m, modes);
    }

    twostate lemma JoinedIs(new c: Channel, i: nat, new m: Member, new modes: string)
      requires old(Valid()) && Valid() && clients == old(clients) && channels == old(channels) && i < |clients|
      requires m.client == clients[i] && m.related != null && m.related.channel == c && c in channels
      requires c.members == [m] + old(c.members) && clients[i].channels == [m.related] + old(clients[i].channels)
      requires m.modes == Edited(registry, "", Adds(modes)) && !m.invisible
      requires OthersKept(c, clients[i], m, m.related)
      ensures Value() == WithSeat(old(Value()), i, Fold(c.name), Seat(Edited(registry, "", Adds(modes)), false))
    {
      JoinedOnce(c, i, m);
      OtherPeople(i, m.related);
      hide Valid, Fold, Edited, Adds, People, OthersKept, PersonOf;
      RowsJoined(i, m.related);
    }

    twostate lemma RowsJoined(i: nat, new mb: Membership)
      requires clients == old(clients) && i < |clients| && mb.channel != null
      requires clients[i].channels == [mb] + old(clients[i].channels)
      requires forall x | x in old(clients[i].channels) :: unchanged(x)
      ensures PersonOf(clients[i]) == old(PersonOf(clients[i])).(
        seats := old(PersonOf(clients[i])).seats[Fold(mb.channel.name) := Seat(mb.modes, mb.invisible)])
    {
      hide Fold;
      var mbs := old(clients[i].channels);
      forall k | 0 <= k < |mbs|
        ensures RowOf(mbs[k]) == old(RowOf(mbs[k]))
      {
        assert mbs[k] in mbs;
      }
      assert RowsOf(clients[i].channels) == [RowOf(mb)] + old(RowsOf(clients[i].channels));
      SeatsCons(RowOf(mb), old(RowsOf(clients[i].channels)));
    }

    /** The new pair agrees, and is no other client's. */
    twostate lemma JoinedOnce(new c: Channel, i: nat, new m: Member)
      requires old(Valid()) && Valid() && clients == old(clients) && i < |clients|
      requires m.related != null && c in channels && m in c.members && m.related in clients[i].channels
      requires OthersKept(c, clients[i], m, m.related)
      requires clients[i].channels == [m.related] + old(clients[i].channels)
      ensures m.modes == m.related.modes && m.invisible == m.related.invisible
      ensures forall k | 0 <= k < |clients| && k != i :: m.related !in old(clients[k].channels)
      ensures forall k | 0 <= k < |clients| && k != i :: unchanged(clients[k])
      ensures forall x | x in old(clients[i].channels) :: x != m.related && unchanged(x)
    {
      hide MemberPoolOk, MembershipPoolOk;
      assert ChannelOk(c) && MemberOk(c, m) && ClientOk(clients[i]);
      assert MembershipOk(clients[i], m.related);
      forall k | 0 <= k < |clients| && k != i
        ensures m.related !in old(clients[k].channels) && unchanged(clients[k])
      {
        assert old(ClientOk(clients[k])) && clients[k] != clients[i];
        assert unchanged(clients[k]) && ClientOk(clients[k]);
        SameClient(clients[i], clients[k], m.related);
      }
      forall x | x in old(clients[i].channels)
        ensures x != m.related && unchanged(x)
      {
        assert old(ClientOk(clients[i])) && old(MembershipOk(clients[i], x));
        var k :| 0 <= k < |old(clients[i].channels)| && old(clients[i].channels)[k] == x;
        assert clients[i].channels[k + 1] == x && clients[i].channels[0] == m.related;
      }
    }

    lemma SameClient(a: Client, b: Client, mb: Membership)
      requires ClientOk(a) && ClientOk(b) && mb in a.channels
      ensures mb in b.channels ==> a == b
    {
      assert MembershipOk(a, mb);
      assert mb in b.channels ==> MembershipOk(b, mb);
    }

    /** PART, KICK or QUIT, from one channel. */
    method PartByName(i: nat, n: string, shouldDestroy: bool)
      requires Valid() && i < |clients|
      modifies this, repr
      ensures Valid() && fresh(repr - old(repr)) && clients == old(clients)
      ensures Value() == Parted(old(Value()), i, n, shouldDestroy)
    {
      hide Valid, Fold, PersonOf, People;
      ExistsIff(n);
      var cl := clients[i];
      if n in table {
        var c := table[n];
        SeatIff(cl, c);
        ClientRows(cl);
        var destroyed, mb := RemoveUser(cl, c, shouldDestroy);
        if mb != null {
          PartedIs(c, i, mb, shouldDestroy, destroyed);
        } else {
          SamePeople();
        }
      } else {
        NoSeat(cl, n);
      }
    }

    lemma NoSeat(cl: Client, n: string)
      requires Valid() && cl in clients && n !in table
      ensures n !in PersonOf(cl).seats
    {
      ClientRows(cl);
      hide Valid, Distinct, SeatsOf;
      SeatsAre(RowsOf(cl.channels));
      assert forall k | 0 <= k < |cl.channels| :: cl.channels[k] in cl.channels;
    }

    twostate lemma PartedIs(new c: Channel, new i: nat, mb: Membership, new shouldDestroy: bool,
                           new destroyed: bool)
      requires old(Valid()) && Valid() && clients == old(clients) && i < |clients| && c in old(channels)
      requires mb in old(clients[i].channels) && old(mb.channel) == c && old(mb.related) != null
      requires clients[i].channels == Removed<Membership>(old(clients[i].channels), mb)
      requires destroyed <==> c.members == [] && shouldDestroy
      requires channels == if destroyed then Removed(old(channels), c) else old(channels)
      requires table == if destroyed then old(table) - {Fold(c.name)} else old(table)
      requires OthersKept(c, clients[i], old(mb.related), mb)
      requires old(Distinct(RowsOf(clients[i].channels)))
      requires forall a, b | 0 <= a < b < |old(channels)| :: Fold(old(channels)[a].name) != Fold(old(channels)[b].name)
      requires Fold(c.name) in old(Value()).people[i].seats
      ensures Value() == Parted(old(Value()), i, Fold(c.name), shouldDestroy)
    {
      hide Valid, OthersKept, Fold, People, PersonOf, Removed, Nobody;
      hide NamesOf, WithoutName, Distinct, WithSeats, Parted;
      PartedPeople(i, mb);
      NobodyAfter(c, destroyed);
      NamesWithout(old(channels), c);
      PartedValue(old(Value()), i, Fold(c.name), shouldDestroy, Value());
    }

    twostate lemma PartedPeople(new i: nat, mb: Membership)
      requires old(Valid()) && Valid() && clients == old(clients) && i < |clients|
      requires mb in old(clients[i].channels) && old(mb.channel) != null && old(mb.related) != null
      requires clients[i].channels == Removed<Membership>(old(clients[i].channels), mb)
      requires OthersKept(old(mb.channel), clients[i], old(mb.related), mb)
      requires old(Distinct(RowsOf(clients[i].channels)))
      ensures People() == WithSeats(old(Value()), i, old(Value()).people[i].seats - {Fold(old(mb.channel).name)}).people
    {
      PartedOnce(i, mb);
      OtherPeople(i, mb);
      RowsWithout(i, mb);
      hide Valid, Fold, Removed, Distinct, SeatsOf, RowsOf;
    }

    /** The membership is no other client's. */
    twostate lemma PartedOnce(new i: nat, mb: Membership)
      requires old(Valid()) && clients == old(clients) && i < |clients| && mb in old(clients[i].channels)
      requires old(mb.channel) != null && old(mb.related) != null
      requires OthersKept(old(mb.channel), clients[i], old(mb.related), mb)
      ensures forall k | 0 <= k < |clients| && k != i :: mb !in old(clients[k].channels) && unchanged(clients[k])
    {
      hide MemberPoolOk, MembershipPoolOk, ChannelOk;
      assert old(ClientOk(clients[i])) && old(MembershipOk(clients[i], mb));
      forall k | 0 <= k < |clients| && k != i
        ensures mb !in old(clients[k].channels) && unchanged(clients[k])
      {
        assert old(ClientOk(clients[k])) && clients[k] != clients[i];
        assert mb in old(clients[k].channels) ==> old(MembershipOk(clients[k], mb));
      }
    }

    twostate lemma RowsWithout(new i: nat, mb: Membership)
      requires old(Valid()) && clients == old(clients) && i < |clients| && mb in old(clients[i].channels)
      requires clients[i].channels == Removed<Membership>(old(clients[i].channels), mb)
      requires forall x: Membership | x in old(repr) && x != mb :: unchanged(x)
      requires old(Distinct(RowsOf(clients[i].channels)))
      ensures PersonOf(clients[i])
           == old(PersonOf(clients[i])).(seats := old(PersonOf(clients[i])).seats - {old(NameOf(mb))})
    {
      var mbs := old(clients[i].channels);
      assert old(ClientOk(clients[i]));
      assert forall x | x in mbs :: old(MembershipOk(clients[i], x));
      var k: nat :| k < |mbs| && mbs[k] == mb;
      RemovedAt<Membership>(mbs, k);
      hide Valid, Removed, Distinct, SeatsOf, NameOf;
      var rows := old(RowsOf(clients[i].channels));
      SeatsWithout(rows, k);
      RowsCut(mbs, k);
    }

    twostate lemma RowsCut(mbs: seq<Membership>, new k: nat)
      requires k < |mbs| && NoDup(mbs) && forall x | x in mbs && x != mbs[k] :: unchanged(x)
      ensures RowsOf(CutOut<Membership>(mbs, k)) == CutOut(old(RowsOf(mbs)), k)
    {
      var r := CutOut<Membership>(mbs, k);
      forall j | 0 <= j < |r|
        ensures RowOf(r[j]) == old(RowOf(mbs[if j < k then j else j + 1]))
      {
        assert r[j] == mbs[if j < k then j else j + 1];
        assert r[j] in mbs && r[j] != mbs[k];
      }
    }

    /** Whether anybody is left in a channel. */
    lemma NobodyAfter(c: Channel, destroyed: bool)
      requires Valid() && if destroyed then Fold(c.name) !in table else c in channels
      ensures Nobody(People(), Fold(c.name)) <==> destroyed || c.members == []
    {
      if destroyed {
        hide Valid, Fold, PersonOf;
        forall k | 0 <= k < |clients|
          ensures Fold(c.name) !in PersonOf(clients[k]).seats
        {
          NoSeat(clients[k], Fold(c.name));
        }
      } else {
        NobodyIff(c);
      }
    }

    /** The modes and flags of a client's memberships are those of its seats. */
    lemma SeatsKnown(cl: Client)
      requires Valid() && cl in clients
      ensures Distinct(RowsOf(cl.channels))
      ensures forall mb | mb in cl.channels ::
        NameOf(mb) in PersonOf(cl).seats && PersonOf(cl).seats[NameOf(mb)] == Seat(mb.modes, mb.invisible)
    {
      ClientRows(cl);
      hide Valid, Distinct, SeatsOf;
      SeatsAre(RowsOf(cl.channels));
      forall mb | mb in cl.channels
        ensures NameOf(mb) in PersonOf(cl).seats && PersonOf(cl).seats[NameOf(mb)] == Seat(mb.modes, mb.invisible)
      {
        var k :| 0 <= k < |cl.channels| && cl.channels[k] == mb;
        assert RowsOf(cl.channels)[k] == RowOf(mb);
      }
    }

    /** A membership gets other values. */
    twostate lemma ChangedIs(new i: nat, mb: Membership)
      requires old(Valid()) && Valid() && unchanged(this) && i < |clients| && mb in old(clients[i].channels)
      requires old(mb.related) != null && mb.channel == old(mb.channel) != null
      requires forall o: object | o in old(repr) && o != mb && o != old(mb.related) :: unchanged(o)
      requires old(Distinct(RowsOf(clients[i].channels)))
      ensures Value() == WithSeat(old(Value()), i, old(NameOf(mb)), Seat(mb.modes, mb.invisible))
    {
      assert old(ClientOk(clients[i]));
      PartedOnce(i, mb);
      OtherPeople(i, mb);
      RowsChanged(i, mb);
      hide Valid, Fold, People, PersonOf;
    }

    twostate lemma RowsChanged(new i: nat, mb: Membership)
      requires old(Valid()) && clients == old(clients) && i < |clients| && mb in old(clients[i].channels)
      requires unchanged(clients[i]) && mb.channel == old(mb.channel)
      requires forall x: Membership | x in old(repr) && x != mb :: unchanged(x)
      requires old(Distinct(RowsOf(clients[i].channels)))
      ensures PersonOf(clients[i]) == old(PersonOf(clients[i])).(
        seats := old(PersonOf(clients[i])).seats[old(NameOf(mb)) := Seat(mb.modes, mb.invisible)])
    {
      var mbs := clients[i].channels;
      assert old(ClientOk(clients[i]));
      assert forall x | x in mbs :: old(MembershipOk(clients[i], x));
      var k: nat :| k < |mbs| && mbs[k] == mb;
      hide Valid, Distinct, SeatsOf;
      var rows := old(RowsOf(clients[i].channels));
      forall j | 0 <= j < |mbs|
        ensures RowOf(mbs[j]) == if j == k then Row(rows[k].name, Seat(mb.modes, mb.invisible)) else rows[j]
      {
        assert mbs[j] in mbs && (mbs[j] != mb ==> unchanged(mbs[j]));
      }
      assert RowsOf(mbs) == rows[k := Row(rows[k].name, Seat(mb.modes, mb.invisible))];
      SeatsChanged(rows, k, Seat(mb.modes, mb.invisible));
    }

    method ChangeMode(i: nat, n: string, edit: Edit)
      requires Valid() && i < |clients|
      modifies repr
      ensures unchanged(this) && Valid()
      ensures Value() == Changed(old(Value()), i, n, edit)
    {
      hide Valid, Fold, PersonOf, People, Apply, Distinct;
      NotInRepr();
      ExistsIff(n);
      var cl := clients[i];
      if n in table {
        var c := table[n];
        SeatIff(cl, c);
        SeatsKnown(cl);
        ghost var mb := ChangeMemberMode(cl, c, edit);
        if mb != null {
          ChangedIs(i, mb);
        } else {
          SamePeople();
        }
      } else {
        NoSeat(cl, n);
      }
    }

    method ChangeInvisible(i: nat, n: string, invisible: bool)
      requires Valid() && i < |clients|
      modifies repr
      ensures unchanged(this) && Valid()
      ensures Value() == Flagged(old(Value()), i, n, invisible)
    {
      hide Valid, Fold, PersonOf, People, Distinct;
      NotInRepr();
      ExistsIff(n);
      var cl := clients[i];
      if n in table {
        var c := table[n];
        SeatIff(cl, c);
        SeatsKnown(cl);
        OnlyUsers(cl);
        ghost var mb := SetInvisible(cl, c, invisible);
        if mb != null {
          ChangedIs(i, mb);
        } else {
          SamePeople();
        }
      } else {
        NoSeat(cl, n);
      }
    }

    /** Only users have memberships. */
    lemma OnlyUsers(cl: Client)
      requires Valid() && cl in clients
      ensures cl.channels != [] ==> cl.isUser
    {
      hide MemberPoolOk, MembershipPoolOk;
      assert ClientOk(cl);
      if cl.channels != [] {
        var mb := cl.channels[0];
        assert MembershipOk(cl, mb) && ChannelOk(mb.channel) && MemberOk(mb.channel, mb.related);
      }
    }

    ghost function MembersOf(cs: seq<Channel>): set<Member>
      reads cs
    {
      set c, m | c in cs && m in c.members :: m
    }

    ghost function MembershipsOf(cls: seq<Client>): set<Membership>
      reads cls
    {
      set cl, mb | cl in cls && mb in cl.channels :: mb
    }

    ghost function SumUsers(cs: seq<Channel>): int
      reads cs
    {
      if cs == [] then 0 else cs[0].users + SumUsers(cs[1..])
    }

    ghost function SumJoined(cls: seq<Client>): int
      reads cls
    {
      if cls == [] then 0 else cls[0].joined + SumJoined(cls[1..])
    }

    lemma {:induction false} UsersAreMembers(cs: seq<Channel>)
      requires NoDup(cs) && forall c | c in cs :: ChannelOk(c)
      ensures |MembersOf(cs)| == SumUsers(cs)
    {
      if cs != [] {
        var first := set m | m in cs[0].members;
        FirstMembers(cs, first);
        hide ChannelOk, MembersOf;
        UsersAreMembers(cs[1..]);
      }
    }

    /** The members of the first channel are those of no other. */
    lemma FirstMembers(cs: seq<Channel>, first: set<Member>)
      requires cs != [] && NoDup(cs) && (forall c | c in cs :: ChannelOk(c)) && first == set m | m in cs[0].members
      ensures |first| == cs[0].users && NoDup(cs[1..])
      ensures MembersOf(cs) == first + MembersOf(cs[1..]) && first !! MembersOf(cs[1..])
    {
      hide MemberOk;
      assert cs[0] in cs && ChannelOk(cs[0]);
      SeqToSet(cs[0].members, first);
      assert cs == [cs[0]] + cs[1..];
      forall m | m in MembersOf(cs[1..])
        ensures m !in first
      {
        var c :| c in cs[1..] && m in c.members;
        assert c in cs && ChannelOk(c) && MemberOk(c, m);
        if m in first {
          OneChannel(c, cs[0], m);
        }
      }
    }

    lemma OneChannel(c: Channel, d: Channel, m: Member)
      requires MemberOk(c, m) && MemberOk(d, m)
      ensures c == d
    {
    }

    lemma {:induction false} JoinedAreMemberships(cls: seq<Client>)
      requires NoDup(cls) && forall cl | cl in cls :: ClientOk(cl)
      ensures |MembershipsOf(cls)| == SumJoined(cls)
    {
      if cls != [] {
        var first := set mb | mb in cls[0].channels;
        FirstMemberships(cls, first);
        hide ClientOk, MembershipsOf;
        JoinedAreMemberships(cls[1..]);
      }
    }

    /** The memberships of the first client are those of no other. */
    lemma FirstMemberships(cls: seq<Client>, first: set<Membership>)
      requires cls != [] && NoDup(cls) && (forall cl | cl in cls :: ClientOk(cl))
      requires first == set mb | mb in cls[0].channels
      ensures |first| == cls[0].joined && NoDup(cls[1..])
      ensures MembershipsOf(cls) == first + MembershipsOf(cls[1..]) && first !! MembershipsOf(cls[1..])
    {
      hide MembershipOk;
      assert cls[0] in cls && ClientOk(cls[0]);
      SeqToSet(cls[0].channels, first);
      assert cls == [cls[0]] + cls[1..];
      forall mb | mb in MembershipsOf(cls[1..])
        ensures mb !in first
      {
        var cl :| cl in cls[1..] && mb in cl.channels;
        assert cl in cls && ClientOk(cl) && MembershipOk(cl, mb);
        if mb in first {
          OneClient(cl, cls[0], mb);
        }
      }
    }

    lemma OneClient(a: Client, b: Client, mb: Membership)
      requires MembershipOk(a, mb) && MembershipOk(b, mb)
      ensures a == b
    {
    }

    /** Sets that are matched through `related` are equally large. */
    lemma {:induction false} SameSize(ms: set<Member>, mbs: set<Membership>)
      requires forall m | m in ms :: m.related != null && m.related in mbs && m.related.related == m
      requires forall mb | mb in mbs :: mb.related != null && mb.related in ms && mb.related.related == mb
      ensures |ms| == |mbs|
      decreases ms
    {
      if m :| m in ms {
        var mb: Membership := m.related;
        SameSize(ms - {m}, mbs - {mb});
        assert |ms - {m}| == |ms| - 1 && |mbs - {mb}| == |mbs| - 1;
      } else {
        assert ms == {} && mbs == {};
      }
    }

    /** In every reachable state `related` matches the members of all channels with the memberships of all
        clients one to one, and matched structs agree on client, channel, modes and invisibility. */
    lemma MatchedOneToOne()
      requires Valid()
      ensures forall m | m in MembersOf(channels) ::
        && m.related != null && m.related in MembershipsOf(clients) && m.related.related == m
        && m.modes == m.related.modes && m.invisible == m.related.invisible
      ensures forall mb | mb in MembershipsOf(clients) ::
        mb.related != null && mb.related in MembersOf(channels) && mb.related.related == mb
      ensures forall a, b | a in MembersOf(channels) && b in MembersOf(channels) && a.related == b.related :: a == b
      ensures forall a, b | a in MembershipsOf(clients) && b in MembershipsOf(clients) ::
        a.related == b.related ==> a == b
      ensures |MembersOf(channels)| == |MembershipsOf(clients)|
    {
      MembersMatch();
      MembershipsMatch();
      hide Valid, MembersOf, MembershipsOf;
      SameSize(MembersOf(channels), MembershipsOf(clients));
    }

    /** In every reachable state the mode string of every member is well ranked and fits its buffer. */
    lemma MembersRanked()
      requires Valid() && UniqueLetters(registry)
      ensures forall m | m in MembersOf(channels) :: WellRanked(registry, m.modes)
    {
      hide UniqueLetters, WellRanked, ListsOk, MemberPoolOk, MembershipPoolOk;
      forall m | m in MembersOf(channels)
        ensures WellRanked(registry, m.modes)
      {
        var c :| c in channels && m in c.members;
        assert MemberOk(c, m);
      }
    }

    lemma MembersMatch()
      requires Valid()
      ensures forall m | m in MembersOf(channels) ::
        && m.related != null && m.related in MembershipsOf(clients) && m.related.related == m
        && m.modes == m.related.modes && m.invisible == m.related.invisible
    {
      hide ListsOk, MemberPoolOk, MembershipPoolOk;
      forall m | m in MembersOf(channels)
        ensures m.related != null && m.related in MembershipsOf(clients) && m.related.related == m
        ensures m.modes == m.related.modes && m.invisible == m.related.invisible
      {
        var c :| c in channels && m in c.members;
        assert MemberOk(c, m);
      }
    }

    lemma MembershipsMatch()
      requires Valid()
      ensures forall mb | mb in MembershipsOf(clients) ::
        mb.related != null && mb.related in MembersOf(channels) && mb.related.related == mb
    {
      hide ListsOk, MemberPoolOk, MembershipPoolOk;
      forall mb | mb in MembershipsOf(clients)
        ensures mb.related != null && mb.related in MembersOf(channels) && mb.related.related == mb
      {
        var cl :| cl in clients && mb in cl.channels;
        assert MembershipOk(cl, mb);
      }
    }

    /** The channels' user counts and the clients' join counts add up to the same number. */
    lemma UsersEqualJoined()
      requires Valid()
      ensures SumUsers(channels) == SumJoined(clients)
    {
      MatchedOneToOne();
      hide MemberPoolOk, MembershipPoolOk, MembersOf, MembershipsOf;
      UsersAreMembers(channels);
      JoinedAreMemberships(clients);
    }

    /** No struct is lost or used twice: the Member structs ever allocated are the free ones and the
        listed ones, and these are disjoint; likewise for Membership structs. */
    lemma PoolsConserve()
      requires Valid()
      ensures allMembers == (set m | m in freeMembers) + MembersOf(channels)
      ensures |allMembers| == |freeMembers| + SumUsers(channels)
      ensures allMemberships == (set mb | mb in freeMemberships) + MembershipsOf(clients)
      ensures |allMemberships| == |freeMemberships| + SumJoined(clients)
    {
      MembersConserve();
      MembershipsConserve();
    }

    lemma MembersConserve()
      requires Valid()
      ensures allMembers == (set m | m in freeMembers) + MembersOf(channels)
      ensures |allMembers| == |freeMembers| + SumUsers(channels)
    {
      var free := set m | m in freeMembers;
      var live := MembersOf(channels);
      UsersAreMembers(channels);
      SeqToSet(freeMembers, free);
      forall m | m in live ensures m in allMembers && m !in free {
        var c :| c in channels && m in c.members;
        assert MemberOk(c, m);
      }
      assert allMembers == free + live;
    }

    lemma MembershipsConserve()
      requires Valid()
      ensures allMemberships == (set mb | mb in freeMemberships) + MembershipsOf(clients)
      ensures |allMemberships| == |freeMemberships| + SumJoined(clients)
    {
      var free := set mb | mb in freeMemberships;
      var live := MembershipsOf(clients);
      JoinedAreMemberships(clients);
      SeqToSet(freeMemberships, free);
      forall mb | mb in live ensures mb in allMemberships && mb !in free {
        var cl :| cl in clients && mb in cl.channels;
        assert MembershipOk(cl, mb);
      }
      assert allMemberships == free + live;
    }

    /** local_members lists each member with a local client once, and nobody else. */
    lemma LocalMembersExact(c: Channel)
      requires Valid() && c in channels
      ensures forall m | m in c.members ::
        && m.client != null
        && (m.client.isLocal <==> exists lm :: lm in c.localMembers && lm.ptr == m)
      ensures forall lm | lm in c.localMembers :: lm.ptr in c.members
      ensures forall i, j | 0 <= i < j < |c.localMembers| :: c.localMembers[i].ptr != c.localMembers[j].ptr
    {
      assert ChannelOk(c);
      assert forall m | m in c.members :: MemberOk(c, m);
    }
  }

  // ---------------------------------------------------------------------
  // What commands come to.

  /** Nobody else's seats have changed, nor any other of this client. */
  predicate OnlySeat(g: Graph, h: Graph, i: nat, n: string) {
    && h.registry == g.registry && i < |g.people| == |h.people|
    && (forall k | 0 <= k < |g.people| && k != i :: h.people[k] == g.people[k])
    && h.people[i].isUser == g.people[i].isUser && h.people[i].isLocal == g.people[i].isLocal
    && h.people[i].seats - {n} == g.people[i].seats - {n}
  }

  /** A user who joins gets a seat with the modes asked for, visible, unless there is one already; a channel that
      is new comes first. */
  lemma JoinTakesEffect(g: Graph, i: nat, name: string, modes: string)
    requires i < |g.people| && name != ""
    ensures var h, clean := After(g, JoinCommand(i, name, modes)), Network.CleanName(name);
      var n := Fold(clean);
      && OnlySeat(g, h, i, n)
      && h.names == (if exists k :: 0 <= k < |g.names| && Fold(g.names[k]) == n then g.names else [clean] + g.names)
      && (n in h.people[i].seats <==> n in g.people[i].seats || g.people[i].isUser)
      && (n in g.people[i].seats ==> h.people[i].seats[n] == g.people[i].seats[n])
      && (n !in g.people[i].seats && g.people[i].isUser ==>
            && !h.people[i].seats[n].invisible
            && (UniqueLetters(g.registry) ==> IsRankedChoice(g.registry, modes, h.people[i].seats[n].modes)))
  {
    hide Fold, Network.CleanName, Edited, Adds, IsRankedChoice, UniqueLetters;
    JoinedLetters(g.registry, modes);
    var n := Fold(Network.CleanName(name));
    var seats := g.people[i].seats;
    var seat := Seat(Edited(g.registry, "", Adds(modes)), false);
    assert seats[n := seat] - {n} == seats - {n};
  }

  /** Who leaves has no seat there any more, and the name of the channel goes if nobody else has one and the hook
      does not keep it. */
  lemma PartTakesEffect(g: Graph, i: nat, name: string, shouldDestroy: bool)
    requires GraphOk(g) && i < |g.people|
    ensures var h, n := After(g, PartCommand(i, name, shouldDestroy)), Fold(name);
      && OnlySeat(g, h, i, n) && n !in h.people[i].seats
      && if n in g.people[i].seats && shouldDestroy && NobodyElse(g.people, i, n)
         then exists k :: 0 <= k < |g.names| && Fold(g.names[k]) == n && h.names == g.names[..k] + g.names[k + 1..]
         else h.names == g.names
  {
    var n := Fold(name);
    hide Fold, WithoutName, DistinctNames;
    if n in g.people[i].seats {
      assert Exists(g.names, n);
      var k := NameAt(g.names, n);
      var after := WithSeats(g, i, g.people[i].seats - {n});
      assert Nobody(after.people, n) <==> NobodyElse(g.people, i, n) by {
        assert forall j | 0 <= j < |g.people| && j != i :: after.people[j] == g.people[j];
      }
      assert g.people[i].seats - {n} - {n} == g.people[i].seats - {n};
    }
  }

  lemma {:induction false} NameAt(names: seq<string>, n: string) returns (k: nat)
    requires Exists(names, n)
    ensures k < |names| && Fold(names[k]) == n && WithoutName(names, n) == names[..k] + names[k + 1..]
  {
    hide Fold;
    if Fold(names[0]) == n {
      k := 0;
    } else {
      var j :| 0 <= j < |names| && Fold(names[j]) == n;
      assert names[1..][j - 1] == names[j];
      k := NameAt(names[1..], n);
      k := k + 1;
      assert names[..k] == [names[0]] + names[1..][..k - 1] && names[k + 1..] == names[1..][k..];
    }
  }

  /** A mode change edits the modes of the seat, and a change of visibility its flag, and nothing else; without a
      seat nothing happens. */
  lemma ChangeTakesEffect(g: Graph, i: nat, name: string, edit: Edit, invisible: bool)
    ensures var h, j := After(g, ModeCommand(i, name, edit)), After(g, InvisibleCommand(i, name, invisible));
      var n := Fold(name);
      if i < |g.people| && n in g.people[i].seats then
        var seat := g.people[i].seats[n];
        && OnlySeat(g, h, i, n) && h.names == g.names && n in h.people[i].seats
        && h.people[i].seats[n] == Seat(Apply(g.registry, seat.modes, edit), seat.invisible)
        && OnlySeat(g, j, i, n) && j.names == g.names && n in j.people[i].seats
        && j.people[i].seats[n] == Seat(seat.modes, invisible)
      else h == g && j == g
  {
    hide Fold, Apply;
  }

  /** A client who connects comes last, as what it is, and is in no channel. */
  lemma ConnectTakesEffect(g: Graph, isUser: bool, isLocal: bool)
    ensures var h, n := After(g, ConnectCommand(isUser, isLocal)), |g.people|;
      && |h.people| == n + 1 && h.people[..n] == g.people && h.names == g.names && h.registry == g.registry
      && h.people[n].isUser == isUser && h.people[n].isLocal == isLocal && h.people[n].seats.Keys == {}
  {
  }

  /** A character that may be in the name of a channel, by its code. */
  predicate InNames(c: char) {
    c as int > 32 && c as int != 44 && c as int != 58
  }

  /** A name ends before the first character that may not be in it, and after 32. */
  lemma CleanNameIs(name: string, c: char, rest: string)
    requires |name| <= 32 && forall k | 0 <= k < |name| :: InNames(name[k])
    ensures Network.CleanName(name) == name
    ensures |name| == 32 || !InNames(c) ==> Network.CleanName(name + [c] + rest) == name
  {
    CleanUpTo(name, name);
    if |name| == 32 || !InNames(c) {
      CleanUpTo(name + [c] + rest, name);
    }
  }

  lemma CleanUpTo(all: string, name: string)
    requires name <= all && |name| <= 32 && forall k | 0 <= k < |name| :: InNames(name[k])
    requires |name| == |all| || |name| == 32 || !InNames(all[|name|])
    ensures Network.CleanName(all) == name
  {
    var r := Network.CleanName(all);
    assert forall k | 0 <= k < |name| :: all[k] == name[k];
    assert forall k | 0 <= k < |r| :: all[k] == r[k] && r[k] in r;
    assert |r| == |name|;
  }
}
