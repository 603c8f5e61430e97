/**
 The list modes of a channel (bans, exempts, invite exceptions): `add_listmode_ex` and `del_listmode` in
 `src/channel.c`. The older of two identical masks wins, which makes the lists of servers that exchange
 their entries converge.
 */
module ListModes {
  import opened Casemap
  import opened CStrings
  import Seqs

  const MAXBANLEN := 200
  const SETTERLEN := 30 + 10 + 63 + 4 - 1

  datatype Ban = Ban(banstr: string, who: string, when: int)

  /** What is stored of a ban: both strings are cut to their limits. */
  function Stored(b: Ban): Ban {
    Ban(Cut(b.banstr, MAXBANLEN), Cut(b.who, SETTERLEN), b.when)
  }

  /** identical_ban */
  predicate Identical(a: string, b: string) {
    Fold(a) == Fold(b)
  }

  /** The first entry identical to the mask, or the length of the list. */
  function Position(l: seq<Ban>, mask: string): (i: nat)
    ensures i <= |l| && (i < |l| ==> Identical(l[i].banstr, mask))
    ensures forall k | 0 <= k < i :: !Identical(l[k].banstr, mask)
  {
    if l == [] || Identical(l[0].banstr, mask) then 0 else 1 + Position(l[1..], mask)
  }

  /** A list of length n takes no new entry: the limit counts for local clients and this server only,
      except that an empty list does not take any when the limit is below 1. */
  predicate Full(n: nat, limited: bool, maxBans: int) {
    if n == 0 then maxBans < 1 else limited && n >= maxBans
  }

  /** The list after an add, and the outcome: 1 added, 0 updated, -1 neither. */
  function Added(l: seq<Ban>, b: Ban, limited: bool, maxBans: int): (seq<Ban>, int) {
    var i := Position(l, b.banstr);
    if i < |l| then
      if l[i].when > 0 && b.when >= l[i].when then (l, -1) else (l[i := Stored(b)], 0)
    else if Full(|l|, limited, maxBans) then (l, -1)
    else ([Stored(b)] + l, 1)
  }

  function Deleted(l: seq<Ban>, mask: string): seq<Ban> {
    var i := Position(l, mask);
    if i < |l| then Seqs.CutOut(l, i) else l
  }

  /** The entry at h is identical to the mask, and none before it is. */
  predicate IsFirst(l: seq<Ban>, mask: string, h: int) {
    0 <= h < |l| && Identical(l[h].banstr, mask) && forall k | 0 <= k < h :: !Identical(l[k].banstr, mask)
  }

  predicate IsAbsent(l: seq<Ban>, mask: string) {
    forall k | 0 <= k < |l| :: !Identical(l[k].banstr, mask)
  }

  /** The entry at h has the mask and the setter, as far as there is room for them, and the time. */
  predicate IsEntry(l: seq<Ban>, h: int, banid: string, setby: string, seton: int) {
    && 0 <= h < |l| && l[h].when == seton
    && l[h].banstr <= banid && |l[h].banstr| == (if |banid| < MAXBANLEN then |banid| else MAXBANLEN)
    && l[h].who <= setby && |l[h].who| == (if |setby| < SETTERLEN then |setby| else SETTERLEN)
  }

  /** Only the entry at h differs. */
  predicate ChangedAt(l: seq<Ban>, m: seq<Ban>, h: int) {
    |l| == |m| && forall k | 0 <= k < |l| && k != h :: m[k] == l[k]
  }

  lemma PositionIsFirst(l: seq<Ban>, mask: string)
    ensures var i := Position(l, mask); if i < |l| then IsFirst(l, mask, i) else IsAbsent(l, mask)
    ensures forall h | IsFirst(l, mask, h) :: h == Position(l, mask)
    ensures IsAbsent(l, mask) ==> Position(l, mask) == |l|
  {
    hide Identical;
  }

  class BanList {
    var bans: seq<Ban>

    constructor ()
      ensures bans == []
    {
      bans := [];
    }

    /** add_listmode_ex; limited is true for local users and for this server itself. */
    method Add(limited: bool, maxBans: int, banid: string, setby: string, seton: int) returns (r: int)
      modifies this
      ensures (bans, r) == Added(old(bans), Ban(banid, setby, seton), limited, maxBans)
      ensures (exists h :: IsFirst(old(bans), banid, h)) || IsAbsent(old(bans), banid)
      ensures forall h | IsFirst(old(bans), banid, h) ::
        if old(bans)[h].when > 0 && seton >= old(bans)[h].when then r == -1 && bans == old(bans)
        else r == 0 && IsEntry(bans, h, banid, setby, seton) && ChangedAt(old(bans), bans, h)
      ensures IsAbsent(old(bans), banid) ==>
        if (if old(bans) == [] then maxBans < 1 else limited && |old(bans)| >= maxBans)
        then r == -1 && bans == old(bans)
        else r == 1 && IsEntry(bans, 0, banid, setby, seton) && bans[1..] == old(bans)
    {
      hide Identical;
      PositionIsFirst(bans, banid);
      var cnt, i: nat := 0, 0;
      var doNotAdd, isNew := false, false;
      if bans == [] && maxBans < 1 {
        doNotAdd := true;
      }
      ghost var p := Position(bans, banid);
      while i < |bans|
        invariant i <= p
        invariant cnt == if limited then i else 0
        invariant doNotAdd == if bans == [] then maxBans < 1 else cnt > 0 && cnt >= maxBans
      {
        if limited {
          cnt := cnt + 1;
          if cnt >= maxBans {
            doNotAdd := true;
          }
        }
        if Identical(bans[i].banstr, banid) {
          break;
        }
        i := i + 1;
      }
      assert i == p;
      var ban: Ban;
      if i == |bans| {
        if doNotAdd {
          return -1;
        }
        ban := Ban("", "", 0);
        bans := [ban] + bans;
        i := 0;
        isNew := true;
      } else {
        ban := bans[i];
      }
      if ban.when > 0 && seton >= ban.when {
        return -1;
      }
      assert isNew ==> bans[0 := Stored(Ban(banid, setby, seton))] == [Stored(Ban(banid, setby, seton))] + old(bans);
      bans := bans[i := Ban(Cut(banid, MAXBANLEN), Cut(setby, SETTERLEN), seton)];
      return if isNew then 1 else 0;
    }

    /** del_listmode */
    method Del(banid: string) returns (r: int)
      modifies this
      ensures bans == Deleted(old(bans), banid)
      ensures (exists h :: IsFirst(old(bans), banid, h)) || IsAbsent(old(bans), banid)
      ensures forall h | IsFirst(old(bans), banid, h) :: r == 0 && bans == old(bans)[..h] + old(bans)[h + 1..]
      ensures IsAbsent(old(bans), banid) ==> r == -1 && bans == old(bans)
    {
      hide Fold;
      PositionIsFirst(bans, banid);
      var i: nat := 0;
      while i < |bans|
        invariant i <= Position(bans, banid)
      {
        if Identical(banid, bans[i].banstr) {
          bans := Seqs.CutOut(bans, i);
          return 0;
        }
        i := i + 1;
      }
      return -1;
    }
  }

  // ---------------------------------------------------------------------
  // Merging is order independent.

  /** An entry the way the servers exchange it: it has a time, and its mask fits. */
  predicate Proper(b: Ban) {
    b.when > 0 && |b.banstr| <= MAXBANLEN
  }

  /** No two entries have identical masks. */
  predicate Unique(l: seq<Ban>) {
    forall i, j | 0 <= i < j < |l| :: !Identical(l[i].banstr, l[j].banstr)
  }

  ghost predicate HasSource(e: Ban, src: multiset<Ban>) {
    exists b :: b in src && e == Stored(b)
  }

  predicate Covers(e: Ban, b: Ban) {
    Identical(e.banstr, b.banstr) && e.when <= b.when
  }

  ghost predicate IsCovered(b: Ban, l: seq<Ban>) {
    exists e :: e in l && Covers(e, b)
  }

  /** l is what merging the bans of src gives: one entry per mask, stored from a ban of src, and none of
      src older than it. */
  ghost predicate Merged(l: seq<Ban>, src: multiset<Ban>) {
    && Unique(l)
    && (forall e | e in l :: Proper(e) && HasSource(e, src))
    && (forall b | b in src :: Proper(b) && IsCovered(b, l))
  }

  lemma MergeStep(l: seq<Ban>, src: multiset<Ban>, b: Ban, maxBans: int)
    requires Merged(l, src) && Proper(b) && maxBans >= 1
    ensures Merged(Added(l, b, false, maxBans).0, src + multiset{b})
  {
    hide Merged, Fold;
    var i := Position(l, b.banstr);
    if i == |l| {
      MergeNew(l, src, b);
    } else {
      TimesPositive(l, src, i);
      if b.when >= l[i].when {
        MergeOlder(l, src, b, i);
      } else {
        MergeUpdate(l, src, b, i);
      }
    }
  }

  lemma TimesPositive(l: seq<Ban>, src: multiset<Ban>, i: nat)
    requires Merged(l, src) && i < |l|
    ensures l[i].when > 0
  {
    hide Unique, HasSource, IsCovered;
    assert l[i] in l;
  }

  /** Sources stay sources, and the new ban is one. */
  lemma Sources(e: Ban, src: multiset<Ban>, b: Ban)
    requires HasSource(e, src) || e == Stored(b)
    ensures HasSource(e, src + multiset{b})
  {
    var c :| (c in src || c == b) && e == Stored(c);
    assert c in src + multiset{b};
  }

  /** What was covered stays covered when entries only get older. */
  lemma StaysCovered(c: Ban, l: seq<Ban>, m: seq<Ban>)
    requires IsCovered(c, l)
    requires forall e | e in l :: exists f :: f in m && Identical(f.banstr, e.banstr) && f.when <= e.when
    ensures IsCovered(c, m)
  {
    hide Fold;
    var e :| e in l && Covers(e, c);
    var f :| f in m && Identical(f.banstr, e.banstr) && f.when <= e.when;
    assert Covers(f, c);
  }

  lemma MergeNew(l: seq<Ban>, src: multiset<Ban>, b: Ban)
    requires Merged(l, src) && Proper(b) && forall k | 0 <= k < |l| :: !Identical(l[k].banstr, b.banstr)
    ensures Merged([Stored(b)] + l, src + multiset{b})
  {
    hide Fold, HasSource, IsCovered;
    var m := [Stored(b)] + l;
    assert Unique(m) by {
      assert forall k | 0 < k < |m| :: m[k] == l[k - 1];
    }
    forall e | e in m
      ensures Proper(e) && HasSource(e, src + multiset{b})
    {
      assert e == Stored(b) || e in l;
      Sources(e, src, b);
    }
    forall c | c in src
      ensures IsCovered(c, m)
    {
      assert forall e | e in l :: e in m;
      StaysCovered(c, l, m);
    }
    assert m[0] == Stored(b);
    CoversItself(b, m);
  }

  lemma CoversItself(b: Ban, m: seq<Ban>)
    requires Proper(b) && Stored(b) in m
    ensures IsCovered(b, m)
  {
    assert Covers(Stored(b), b);
  }

  lemma MergeOlder(l: seq<Ban>, src: multiset<Ban>, b: Ban, i: nat)
    requires Merged(l, src) && Proper(b) && i < |l| && Covers(l[i], b)
    ensures Merged(l, src + multiset{b})
  {
    hide Fold, HasSource, Unique;
    forall e | e in l
      ensures HasSource(e, src + multiset{b})
    {
      Sources(e, src, b);
    }
    assert l[i] in l && IsCovered(b, l);
  }

  lemma MergeUpdate(l: seq<Ban>, src: multiset<Ban>, b: Ban, i: nat)
    requires Merged(l, src) && Proper(b) && i < |l|
    requires Identical(l[i].banstr, b.banstr) && b.when < l[i].when
    ensures Merged(l[i := Stored(b)], src + multiset{b})
  {
    hide Fold, HasSource, IsCovered;
    var m := l[i := Stored(b)];
    assert m[i] == Stored(b) && Stored(b) in m;
    forall e | e in m
      ensures Proper(e) && HasSource(e, src + multiset{b})
    {
      assert e == Stored(b) || e in l;
      Sources(e, src, b);
    }
    forall e | e in l
      ensures exists f :: f in m && Identical(f.banstr, e.banstr) && f.when <= e.when
    {
      var k :| 0 <= k < |l| && l[k] == e;
      assert m[k] in m;
    }
    forall c | c in src
      ensures IsCovered(c, m)
    {
      StaysCovered(c, l, m);
    }
    CoversItself(b, m);
  }

  /** The adds one after the other, without the limit for local clients. */
  function AddAll(l: seq<Ban>, adds: seq<Ban>, maxBans: int): seq<Ban>
    decreases adds
  {
    if adds == [] then l else AddAll(Added(l, adds[0], false, maxBans).0, adds[1..], maxBans)
  }

  lemma {:induction false} AddAllMerges(l: seq<Ban>, src: multiset<Ban>, adds: seq<Ban>, maxBans: int)
    requires Merged(l, src) && maxBans >= 1 && forall k | 0 <= k < |adds| :: Proper(adds[k])
    ensures Merged(AddAll(l, adds, maxBans), src + multiset(adds))
    decreases adds
  {
    hide Merged, Added, Proper;
    if adds != [] {
      MergeStep(l, src, adds[0], maxBans);
      AddAllMerges(Added(l, adds[0], false, maxBans).0, src + multiset{adds[0]}, adds[1..], maxBans);
      assert adds == [adds[0]] + adds[1..];
      assert src + multiset{adds[0]} + multiset(adds[1..]) == src + multiset(adds);
    } else {
      assert src + multiset(adds) == src;
    }
  }

  /** The times tell bans with identical masks apart. */
  ghost predicate TimesDistinct(src: multiset<Ban>) {
    forall b, c | b in src && c in src && Identical(b.banstr, c.banstr) && b.when == c.when :: Stored(b) == Stored(c)
  }

  predicate Matches(e: Ban, f: Ban, exact: bool) {
    Identical(e.banstr, f.banstr) && e.when == f.when && (exact ==> e == f)
  }

  /** For each entry of l, m has one with the same mask and time, and the very same entry if exact. */
  ghost predicate Agree(l: seq<Ban>, m: seq<Ban>, exact: bool) {
    forall e | e in l :: exists f :: f in m && Matches(e, f, exact)
  }

  lemma MergedAgree(l: seq<Ban>, m: seq<Ban>, src: multiset<Ban>)
    requires Merged(l, src) && Merged(m, src)
    ensures Agree(l, m, TimesDistinct(src))
  {
    hide Merged, Matches, TimesDistinct;
    forall e | e in l
      ensures exists f :: f in m && Matches(e, f, TimesDistinct(src))
    {
      var f := Partner(l, m, src, e);
    }
  }

  lemma Partner(l: seq<Ban>, m: seq<Ban>, src: multiset<Ban>, e: Ban) returns (f: Ban)
    requires Merged(l, src) && Merged(m, src) && e in l
    ensures f in m && Matches(e, f, TimesDistinct(src))
  {
    hide Fold, Merged, Stored, TimesDistinct;
    var b := SourceOf(l, src, e);
    f := CoverOf(m, src, b);
    var c := SourceOf(m, src, f);
    var g := CoverOf(l, src, c);
    UniqueMask(l, src, e, g);
    if TimesDistinct(src) {
      TimesDecide(src, b, c);
    }
  }

  lemma TimesDecide(src: multiset<Ban>, b: Ban, c: Ban)
    requires TimesDistinct(src) && b in src && c in src && Identical(b.banstr, c.banstr) && b.when == c.when
    ensures Stored(b) == Stored(c)
  {
  }

  lemma SourceOf(l: seq<Ban>, src: multiset<Ban>, e: Ban) returns (b: Ban)
    requires Merged(l, src) && e in l
    ensures b in src && e == Stored(b) && e.banstr == b.banstr && e.when == b.when
  {
    hide Unique, IsCovered;
    assert HasSource(e, src);
    b :| b in src && e == Stored(b);
    StoredIs(b);
  }

  lemma CoverOf(l: seq<Ban>, src: multiset<Ban>, b: Ban) returns (e: Ban)
    requires Merged(l, src) && b in src
    ensures e in l && Covers(e, b)
  {
    hide Unique, HasSource;
    assert IsCovered(b, l);
    e :| e in l && Covers(e, b);
  }

  lemma StoredIs(b: Ban)
    requires Proper(b)
    ensures Stored(b).banstr == b.banstr && Stored(b).when == b.when
  {
  }

  lemma UniqueMask(l: seq<Ban>, src: multiset<Ban>, e: Ban, f: Ban)
    requires Merged(l, src) && e in l && f in l && Identical(e.banstr, f.banstr)
    ensures e == f
  {
    hide Fold, HasSource, IsCovered;
    var i: nat :| i < |l| && l[i] == e;
    var j: nat :| j < |l| && l[j] == f;
  }

  /** Adding the same bans in any order gives lists that agree. */
  lemma OrderDoesNotMatter(adds: seq<Ban>, others: seq<Ban>, maxBans: int)
    requires maxBans >= 1 && multiset(adds) == multiset(others)
    requires forall k | 0 <= k < |adds| :: Proper(adds[k])
    ensures var l, m := AddAll([], adds, maxBans), AddAll([], others, maxBans);
      var exact := TimesDistinct(multiset(adds));
      Unique(l) && Unique(m) && |l| == |m| && Agree(l, m, exact) && Agree(m, l, exact)
  {
    hide Merged, AddAll, Proper, TimesDistinct, Agree;
    var src := multiset(adds);
    forall k | 0 <= k < |others|
      ensures Proper(others[k])
    {
      assert others[k] in multiset(others);
    }
    NothingMerged();
    AddAllMerges([], multiset{}, adds, maxBans);
    AddAllMerges([], multiset{}, others, maxBans);
    assert multiset{} + src == src;
    var l, m := AddAll([], adds, maxBans), AddAll([], others, maxBans);
    MergedAgree(l, m, src);
    MergedAgree(m, l, src);
    SameLength(l, m, src);
    SameLength(m, l, src);
  }

  lemma NothingMerged()
    ensures Merged([], multiset{})
  {
  }

  /** Different entries of l have different partners in m. */
  lemma {:induction false} SameLength(l: seq<Ban>, m: seq<Ban>, src: multiset<Ban>)
    requires Merged(l, src) && Merged(m, src)
    ensures |l| <= |m| && Unique(l)
  {
    hide Fold;
    var masks := Masks(l);
    MasksCount(l);
    MasksCount(m);
    forall x | x in Masks(l)
      ensures x in Masks(m)
    {
      var e :| e in l && Fold(e.banstr) == x;
      var f := Partner(l, m, src, e);
    }
    Subset(Masks(l), Masks(m));
  }

  function Masks(l: seq<Ban>): set<string> {
    set e | e in l :: Fold(e.banstr)
  }

  lemma MasksCons(l: seq<Ban>)
    requires l != []
    ensures Masks(l) == {Fold(l[0].banstr)} + Masks(l[1..])
  {
    hide Fold;
    assert l == [l[0]] + l[1..];
  }

  lemma {:induction false} MasksCount(l: seq<Ban>)
    requires Unique(l)
    ensures |Masks(l)| == |l|
  {
    hide Fold;
    if l != [] {
      var rest := l[1..];
      MasksCount(rest);
      assert forall i | 0 <= i < |rest| :: rest[i] == l[i + 1];
      MasksCons(l);
    }
  }

  lemma {:induction false} Subset(a: set<string>, b: set<string>)
    requires a <= b
    ensures |a| <= |b|
  {
    if a != {} {
      var x :| x in a;
      Subset(a - {x}, b - {x});
    }
  }

  /** An entry carries the smallest time among all bans that were added with its mask. */
  lemma OldestWins(adds: seq<Ban>, maxBans: int, e: Ban, b: Ban)
    requires maxBans >= 1 && forall k | 0 <= k < |adds| :: Proper(adds[k])
    requires e in AddAll([], adds, maxBans) && b in adds && Identical(e.banstr, b.banstr)
    ensures e.when <= b.when && exists c :: c in adds && e == Stored(c)
  {
    hide Fold, Merged, AddAll, Stored;
    NothingMerged();
    AddAllMerges([], multiset{}, adds, maxBans);
    var l, src := AddAll([], adds, maxBans), multiset(adds);
    assert multiset{} + src == src;
    var f := CoverOf(l, src, b);
    UniqueMask(l, src, e, f);
    var c := SourceOf(l, src, e);
  }

  /** A list as a server holds it. */
  predicate Settled(l: seq<Ban>) {
    Unique(l) && forall e | e in l :: Proper(e) && |e.who| <= SETTERLEN
  }

  lemma SettledIsMerged(l: seq<Ban>)
    requires Settled(l)
    ensures Merged(l, multiset(l))
  {
    hide Fold, Unique;
    forall e | e in l
      ensures HasSource(e, multiset(l)) && IsCovered(e, l)
    {
      assert e in multiset(l) && e == Stored(e);
      assert Covers(e, e);
    }
  }

  /** Two servers that send each other their lists end up with lists that agree. */
  lemma ServersConverge(l: seq<Ban>, m: seq<Ban>, maxBans: int)
    requires Settled(l) && Settled(m) && maxBans >= 1
    ensures var a, b := AddAll(l, m, maxBans), AddAll(m, l, maxBans);
      var exact := TimesDistinct(multiset(l) + multiset(m));
      Unique(a) && Unique(b) && |a| == |b| && Agree(a, b, exact) && Agree(b, a, exact)
  {
    hide Fold, Merged, AddAll, Unique, TimesDistinct, Agree;
    SettledIsMerged(l);
    SettledIsMerged(m);
    AddAllMerges(l, multiset(l), m, maxBans);
    AddAllMerges(m, multiset(m), l, maxBans);
    var a, b, src := AddAll(l, m, maxBans), AddAll(m, l, maxBans), multiset(l) + multiset(m);
    assert multiset(m) + multiset(l) == src;
    MergedAgree(a, b, src);
    MergedAgree(b, a, src);
    SameLength(a, b, src);
    SameLength(b, a, src);
  }

  // ---------------------------------------------------------------------
  // Runs of adds and deletions.

  datatype Op = AddOp(b: Ban, limited: bool) | DelOp(mask: string)

  function Apply(l: seq<Ban>, op: Op, maxBans: int): seq<Ban> {
    match op
    case AddOp(b, limited) => Added(l, b, limited, maxBans).0
    case DelOp(mask) => Deleted(l, mask)
  }

  function Run(l: seq<Ban>, ops: seq<Op>, maxBans: int): seq<Ban>
    decreases ops
  {
    if ops == [] then l else Run(Apply(l, ops[0], maxBans), ops[1..], maxBans)
  }

  /** Local clients never push a list past the limit. */
  lemma {:induction false} LimitHolds(l: seq<Ban>, ops: seq<Op>, maxBans: int)
    requires forall k | 0 <= k < |ops| :: ops[k].AddOp? ==> ops[k].limited
    ensures |Run(l, ops, maxBans)| <= if |l| > maxBans then |l| else maxBans
    decreases ops
  {
    hide Fold, Stored;
    if ops != [] {
      LimitHolds(Apply(l, ops[0], maxBans), ops[1..], maxBans);
    }
  }

  /** The masks of all entries fit, and no two are identical. */
  predicate WellKept(l: seq<Ban>) {
    Unique(l) && forall i | 0 <= i < |l| :: |l[i].banstr| <= MAXBANLEN
  }

  /** As long as the added masks fit, no run makes two entries with identical masks. */
  lemma {:induction false} RunKeepsUnique(l: seq<Ban>, ops: seq<Op>, maxBans: int)
    requires WellKept(l) && forall k | 0 <= k < |ops| :: ops[k].AddOp? ==> |ops[k].b.banstr| <= MAXBANLEN
    ensures WellKept(Run(l, ops, maxBans))
    decreases ops
  {
    hide Fold, WellKept;
    if ops != [] {
      ApplyKeepsUnique(l, ops[0], maxBans);
      RunKeepsUnique(Apply(l, ops[0], maxBans), ops[1..], maxBans);
    }
  }

  lemma ApplyKeepsUnique(l: seq<Ban>, op: Op, maxBans: int)
    requires WellKept(l) && (op.AddOp? ==> |op.b.banstr| <= MAXBANLEN)
    ensures WellKept(Apply(l, op, maxBans))
  {
    hide Fold;
    var m := Apply(l, op, maxBans);
    if op.AddOp? {
      var i := Position(l, op.b.banstr);
      if i == |l| {
        assert |m| > |l| ==> forall k | 0 < k < |m| :: m[k] == l[k - 1];
      }
    } else {
      var i := Position(l, op.mask);
      if i < |l| {
        Seqs.CutOutIs(l, i);
      }
    }
  }

  predicate MasksFit(l: seq<Ban>) {
    forall i | 0 <= i < |l| :: |l[i].banstr| <= MAXBANLEN
  }

  /** A mask that is too long is stored cut, so that it is never found again. */
  lemma LongNotFound(l: seq<Ban>, mask: string)
    requires MasksFit(l) && |mask| > MAXBANLEN
    ensures Position(l, mask) == |l|
  {
    assert forall s: string {:trigger Identical(s, mask)} | Identical(s, mask) :: |Fold(s)| == |Fold(mask)|;
  }

  /** Adding a ban a second time makes a second entry if and only if its mask is too long. */
  lemma AddedTwice(l: seq<Ban>, b: Ban, maxBans: int)
    requires MasksFit(l) && maxBans >= 1
    ensures var once := Added(l, b, false, maxBans).0;
      Added(once, b, false, maxBans).1 == 1 <==> |b.banstr| > MAXBANLEN
  {
    hide Fold;
    var once := Added(l, b, false, maxBans).0;
    if |b.banstr| > MAXBANLEN {
      LongNotFound(l, b.banstr);
      assert MasksFit(once) by {
        assert forall k | 0 < k < |once| :: once[k] == l[k - 1];
      }
      LongNotFound(once, b.banstr);
    } else {
      var i := Position(l, b.banstr);
      var j := if i < |l| then i else 0;
      assert Identical(once[j].banstr, b.banstr);
    }
  }

  /** Deleting a ban that was just added gives back the list if and only if its mask was not too long. */
  lemma AddThenDelete(l: seq<Ban>, b: Ban, limited: bool, maxBans: int)
    requires MasksFit(l) && Added(l, b, limited, maxBans).1 == 1
    ensures Deleted(Added(l, b, limited, maxBans).0, b.banstr) == l <==> |b.banstr| <= MAXBANLEN
  {
    hide Fold;
    var m := Added(l, b, limited, maxBans).0;
    if |b.banstr| > MAXBANLEN {
      assert MasksFit(m) by {
        assert forall k | 0 < k < |m| :: m[k] == l[k - 1];
      }
      LongNotFound(m, b.banstr);
    } else {
      assert Position(m, b.banstr) == 0;
      assert Seqs.CutOut(m, 0) == l;
    }
  }

  /** After a deletion the mask is gone, in a list without duplicates. */
  lemma DeletedIsGone(l: seq<Ban>, mask: string)
    requires Unique(l)
    ensures Position(Deleted(l, mask), mask) == |Deleted(l, mask)|
  {
    hide Fold;
    var i := Position(l, mask);
    if i < |l| {
      Seqs.CutOutIs(l, i);
      var d := Deleted(l, mask);
      forall k | 0 <= k < |d|
        ensures !Identical(d[k].banstr, mask)
      {
        assert d[k] == l[if k < i then k else k + 1];
      }
    }
  }
}
