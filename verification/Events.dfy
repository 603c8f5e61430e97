/**
 The event loop of `src/api-event.c`. Callbacks may add, delete and modify events while the list is
 walked; deleted events are only marked, and removed after the walk.
 */
module Events {
  import opened Options
  import Seqs

  // ---------------------------------------------------------------------
  // Time.

  datatype Timeval = Timeval(sec: int, usec: int)

  /** Division of C: towards zero. */
  function Quot(a: int, b: int): int
    requires b > 0
  {
    if a >= 0 then a / b else -((-a) / b)
  }

  /** Milliseconds between two times, as minimum_msec_since_last_run computes them. */
  function Msecs(from: Timeval, to: Timeval): int {
    (to.sec - from.sec) * 1000 + Quot(to.usec - from.usec, 1000)
  }

  function Elapsed(from: Timeval, to: Timeval): int {
    (to.sec - from.sec) * 1000000 + (to.usec - from.usec)
  }

  /** What the division rounds up by, when the microseconds have wrapped. */
  function Rounding(from: Timeval, to: Timeval): (r: int)
    ensures 0 <= r < 1000
  {
    if to.usec >= from.usec then 0 else (from.usec - to.usec) % 1000
  }

  /** An interval counts as over exactly when the elapsed microseconds, rounded up by less than one
      millisecond if the microseconds have wrapped, reach it. */
  lemma IntervalOver(from: Timeval, to: Timeval, msecs: int)
    ensures Msecs(from, to) >= msecs <==> Elapsed(from, to) + Rounding(from, to) >= msecs * 1000
  {
    var d := to.usec - from.usec;
    if d < 0 {
      assert -d == 1000 * ((-d) / 1000) + (-d) % 1000;
    } else {
      assert d == 1000 * (d / 1000) + d % 1000;
    }
  }

  /** So an interval of a second can count as over 999 microseconds early. */
  lemma EarlyByRounding()
    ensures var a, b := Timeval(5, 999), Timeval(6, 0);
      Msecs(a, b) >= 1000 && Elapsed(a, b) == 1000000 - 999
  {
  }

  /** minimum_msec_since_last_run: whether it is time, and the new time of the last run. */
  function MinimumMsec(last: Timeval, now: Timeval, msecs: int): (bool, Timeval) {
    if last.sec == 0 then (false, now)
    else if Msecs(last, now) >= msecs then (true, now)
    else (false, last)
  }

  // ---------------------------------------------------------------------
  // Events.

  /** The state of an event at one time. */
  datatype State = State(count: int, everyMsec: int, lastRun: Timeval, deleted: bool, modified: bool, runs: nat)

  class Event {
    var count: int
    var everyMsec: int
    var lastRun: Timeval
    var deleted: bool

    /** History: the count it was added with, whether it was modified, how often it ran, and how often it
        had run when it was deleted. */
    ghost const total: int
    ghost var modified: bool
    ghost var runs: nat
    ghost var runsWhenDeleted: nat

    constructor (everyMsec: int, count: int, now: Timeval)
      ensures this.count == count == total && this.everyMsec == everyMsec && lastRun == now
      ensures !deleted && !modified && runs == 0
    {
      this.count, this.everyMsec, lastRun, deleted := count, everyMsec, now, false;
      total, modified, runs, runsWhenDeleted := count, false, 0, 0;
    }

    ghost function View(): State
      reads this
    {
      State(count, everyMsec, lastRun, deleted, modified, runs)
    }

    /** A deleted event has not run since; an event that was added with a count and not modified has as
        many runs left as its count says, and is deleted when none is left. While its callback is
        running, that run is not yet counted down. */
    ghost predicate Ok(running: bool)
      reads `count, `deleted, `modified, `runs, `runsWhenDeleted
    {
      && (deleted ==> runs == runsWhenDeleted)
      && (!modified ==>
            if total == 0 then count == 0
            else
              && 0 <= count <= total
              && runs + count == total + (if running then 1 else 0)
              && (count == 0 ==> deleted)
              && (running ==> count > 0))
    }

    /** EventDel: only a mark. */
    method Mark()
      modifies `deleted, `runsWhenDeleted
      ensures deleted && runsWhenDeleted == if old(deleted) then old(runsWhenDeleted) else runs
    {
      if !deleted {
        runsWhenDeleted := runs;
      }
      deleted := true;
    }
  }

  /** What a callback may do; events are named by their position in the list. */
  datatype Action =
    | AddEvent(everyMsec: int, count: int)
    | DelEvent(position: nat)
    | ModEvent(position: nat, newEvery: Option<int>, newCount: Option<int>)

  /** A round of the main loop: the time, and what other code does to the events before. */
  datatype Pass = Pass(now: Timeval, actions: seq<Action>)

  /** What other code may do to an event: its runs are its own. */
  ghost predicate Touched(a: State, b: State) {
    && b.runs == a.runs && b.lastRun == a.lastRun
    && (a.deleted ==> b.deleted)
    && (a.modified ==> b.modified)
    && (!b.modified ==> b.count == a.count && b.everyMsec == a.everyMsec)
  }

  /** What EventMod does: only what is given changes. */
  ghost predicate Modified(a: State, every: Option<int>, count: Option<int>, b: State) {
    b == a.(everyMsec := if every.Some? then every.value else a.everyMsec,
            count := if count.Some? then count.value else a.count,
            modified := a.modified || every.Some? || count.Some?)
  }

  predicate Due(last: Timeval, now: Timeval, everyMsec: int) {
    everyMsec == 0 || MinimumMsec(last, now, everyMsec).0
  }

  /** What the walk does to an event when it comes to it. */
  ghost predicate Visited(a: State, b: State, now: Timeval) {
    && (a.deleted ==> b.deleted && b.runs == a.runs)
    && (a.modified ==> b.modified)
    && (!b.modified ==> b.everyMsec == a.everyMsec)
    && a.runs <= b.runs <= a.runs + 1
    && (!b.modified && b.runs == a.runs + 1 ==> Due(a.lastRun, now, a.everyMsec))
    && (!b.modified && !b.deleted && b.runs == a.runs ==> !Due(a.lastRun, now, a.everyMsec))
    && (!b.modified && !b.deleted ==>
          b.lastRun == if a.everyMsec == 0 then a.lastRun else MinimumMsec(a.lastRun, now, a.everyMsec).1)
  }

  class Scheduler {
    var events: seq<Event>
    var now: Timeval
    /** What the coming callbacks will do. */
    var script: seq<seq<Action>>
    /** All events there ever were. */
    ghost var repr: set<Event>

    ghost predicate Good(running: Event?)
      reads `events, `repr, repr`count, repr`deleted, repr`modified, repr`runs, repr`runsWhenDeleted
    {
      && (forall i, j | 0 <= i < j < |events| :: events[i] != events[j])
      && (forall i | 0 <= i < |events| :: events[i] in repr)
      && (forall e | e in repr :: e.Ok(e == running))
      && (forall e | e in repr && e !in events :: e.deleted)
    }

    ghost predicate Valid()
      reads `events, `repr, repr`count, repr`deleted, repr`modified, repr`runs, repr`runsWhenDeleted
    {
      Good(null)
    }

    constructor (now: Timeval, script: seq<seq<Action>>)
      ensures Valid() && events == [] && repr == {}
    {
      this.now, this.script, events, repr := now, script, [], {};
    }

    /** EventAdd: at the front of the list. */
    method EventAdd(everyMsec: int, count: int, ghost running: Event?) returns (e: Event?)
      requires Good(running) && (running != null ==> running in repr)
      modifies this`events, this`repr
      ensures Good(running)
      ensures e == null <==> everyMsec < 0 || count < 0
      ensures e == null ==> events == old(events) && repr == old(repr)
      ensures e != null ==> fresh(e) && events == [e] + old(events) && repr == old(repr) + {e}
      ensures e != null ==> e.total == count && e.View() == State(count, everyMsec, now, false, false, 0)
    {
      if everyMsec < 0 || count < 0 {
        return null;
      }
      e := new Event(everyMsec, count, now);
      events := [e] + events;
      repr := repr + {e};
    }

    method EventDel(e: Event, ghost running: Event?)
      requires Good(running) && e in repr
      modifies e`deleted, e`runsWhenDeleted
      ensures Good(running) && e.deleted
    {
      e.Mark();
    }

    /** EventMod: the fields that are flagged get new values. */
    method EventMod(e: Event, every: Option<int>, count: Option<int>, ghost running: Event?)
      requires Good(running) && e in repr
      modifies e`everyMsec, e`count, e`modified
      ensures Good(running) && Modified(old(e.View()), every, count, e.View())
      ensures e.everyMsec == (if every.Some? then every.value else old(e.everyMsec))
      ensures e.count == (if count.Some? then count.value else old(e.count))
    {
      if every.Some? {
        e.everyMsec := every.value;
        e.modified := true;
      }
      if count.Some? {
        e.count := count.value;
        e.modified := true;
      }
    }

    /** The events in `added` have come in front of the list, and have not run. */
    ghost predicate Grown(olds: seq<Event>, oldRepr: set<Event>, added: seq<Event>)
      reads `events, `repr, added
    {
      && events == added + olds
      && repr == oldRepr + (set e | e in added)
      && forall e | e in added :: e !in oldRepr && e.runs == 0
    }

    lemma NothingGrown()
      ensures Grown(events, repr, [])
    {
    }

    lemma OneGrown(olds: seq<Event>, oldRepr: set<Event>, e: Event)
      requires events == [e] + olds && repr == oldRepr + {e} && e !in oldRepr && e.runs == 0
      ensures Grown(olds, oldRepr, [e])
    {
    }

    lemma TouchedAtFirst(es: seq<Event>)
      ensures forall x | x in repr :: Walked(es, 0, x.View(), x.View(), x, now)
    {
    }

    lemma EventOk(e: Event, running: Event?)
      requires Good(running) && e in repr
      ensures e.Ok(e == running)
    {
    }

    lemma ListedInRepr(running: Event?)
      requires Good(running)
      ensures forall i | 0 <= i < |events| :: events[i] in repr
      ensures forall i, j | 0 <= i < j < |events| :: events[i] != events[j]
    {
    }

    /** One action of a callback. */
    method Perform(a: Action, ghost running: Event?) returns (ghost added: seq<Event>)
      requires Good(running) && (running != null ==> running in repr)
      modifies this`events, this`repr, repr
      ensures Good(running) && Grown(old(events), old(repr), added)
      ensures fresh(repr - old(repr)) && old(repr) <= repr
      ensures forall e | e in old(repr) :: Touched(old(e.View()), e.View())
      ensures a.AddEvent? ==> |added| == if a.everyMsec < 0 || a.count < 0 then 0 else 1
      ensures a.DelEvent? && a.position < |old(events)| ==> old(events)[a.position].deleted
      ensures a.ModEvent? && a.position < |old(events)| ==>
        var e := old(events)[a.position]; Modified(old(e.View()), a.newEvery, a.newCount, e.View())
    {
      hide Good, Grown;
      added := [];
      match a
      case AddEvent(everyMsec, count) =>
        var e := EventAdd(everyMsec, count, running);
        if e == null {
          NothingGrown();
        } else {
          added := [e];
          OneGrown(old(events), old(repr), e);
        }
      case DelEvent(i) => DelAt(i, running);
      case ModEvent(i, every, count) => ModAt(i, every, count, running);
    }

    method DelAt(i: nat, ghost running: Event?)
      requires Good(running)
      modifies repr
      ensures Good(running) && Grown(old(events), old(repr), [])
      ensures forall e | e in old(repr) :: Touched(old(e.View()), e.View())
      ensures i < |events| ==> events[i].deleted
    {
      hide Good, Grown;
      NothingGrown();
      ListedInRepr(running);
      if i < |events| {
        EventDel(events[i], running);
      }
    }

    method ModAt(i: nat, every: Option<int>, count: Option<int>, ghost running: Event?)
      requires Good(running)
      modifies repr
      ensures Good(running) && Grown(old(events), old(repr), [])
      ensures forall e | e in old(repr) :: Touched(old(e.View()), e.View())
      ensures i < |events| ==> Modified(old(events[i].View()), every, count, events[i].View())
    {
      hide Good, Grown;
      NothingGrown();
      ListedInRepr(running);
      if i < |events| {
        EventMod(events[i], every, count, running);
      }
    }

    /** A callback: it runs the next part of the script. */
    method Callback(ghost running: Event) returns (ghost added: seq<Event>)
      requires Good(running) && running in repr
      modifies this`events, this`repr, this`script, repr
      ensures Good(running) && Grown(old(events), old(repr), added) && fresh(repr - old(repr))
      ensures forall e | e in old(repr) :: Touched(old(e.View()), e.View())
    {
      hide Good, Grown;
      added := [];
      NothingGrown();
      ghost var es, first := events, Snapshot(repr);
      if script == [] {
        return;
      }
      var actions := script[0];
      script := script[1..];
      var k: nat := 0;
      hide Touched;
      while k < |actions|
        invariant k <= |actions| && first.Keys <= repr
        invariant Good(running) && Grown(es, first.Keys, added) && fresh(repr - old(repr))
        invariant forall e | e in first :: Touched(first[e], e.View())
      {
        added := PerformNext(actions[k], running, es, first, added);
        k := k + 1;
      }
    }

    /** An action after others, which have added some events. */
    method PerformNext(a: Action, ghost running: Event, ghost es: seq<Event>, ghost first: map<Event, State>,
                       ghost added: seq<Event>)
      returns (ghost all: seq<Event>)
      requires Good(running) && running in repr && Grown(es, first.Keys, added)
      requires forall x | x in first :: x in repr && Touched(first[x], x.View())
      modifies this`events, this`repr, repr
      ensures Good(running) && Grown(es, first.Keys, all) && fresh(repr - old(repr)) && first.Keys <= repr
      ensures forall x | x in first :: Touched(first[x], x.View())
    {
      hide Good, Touched, Grown;
      GrownParts(es, first.Keys, added);
      ghost var mid, midRepr, before := events, repr, Snapshot(repr);
      ghost var more := Perform(a, running);
      forall x | x in added
        ensures x.runs == 0
      {
        SameRuns(before[x], x.View());
      }
      GrownOn(es, first.Keys, added, mid, midRepr, more);
      forall x | x in first
        ensures Touched(first[x], x.View())
      {
        TouchedTwice(first[x], before[x], x.View());
      }
      all := more + added;
    }

    /** Calls the callback of an event whose time has come, and counts down. */
    method RunEvent(e: Event) returns (ghost added: seq<Event>)
      requires Valid() && e in repr && !e.deleted
      modifies this`events, this`repr, this`script, repr
      ensures Valid() && Grown(old(events), old(repr), added) && fresh(repr - old(repr))
      ensures forall x | x in old(repr) && x != e :: Touched(old(x.View()), x.View())
      ensures e.runs == old(e.runs) + 1 && (old(e.modified) ==> e.modified)
      ensures e.lastRun == old(e.lastRun) && (!e.modified ==> e.everyMsec == old(e.everyMsec))
      ensures !e.modified && old(e.count) > 0 ==> e.count == old(e.count) - 1 && (e.count == 0 ==> e.deleted)
      ensures !e.modified && old(e.count) <= 0 ==> e.count == old(e.count)
    {
      hide Good;
      BeginRun(e);
      added := Callback(e);
      CountDown(e);
    }

    ghost method BeginRun(e: Event)
      requires Valid() && e in repr && !e.deleted
      modifies e`runs
      ensures Good(e) && e.runs == old(e.runs) + 1
    {
      e.runs := e.runs + 1;
    }

    method CountDown(e: Event)
      requires Good(e) && e in repr
      modifies e`count, e`deleted, e`runsWhenDeleted
      ensures Valid()
      ensures e.count == (if old(e.count) > 0 then old(e.count) - 1 else old(e.count))
      ensures e.deleted == (old(e.deleted) || old(e.count) == 1)
    {
      if e.count > 0 {
        e.count := e.count - 1;
        if e.count == 0 {
          e.Mark();
        }
      }
    }

    /** One event of the walk: it may run, and count down. */
    method Visit(e: Event) returns (ghost added: seq<Event>)
      requires Valid() && e in repr
      modifies this`events, this`repr, this`script, repr
      ensures Valid() && Grown(old(events), old(repr), added) && fresh(repr - old(repr))
      ensures forall x | x in old(repr) && x != e :: Touched(old(x.View()), x.View())
      ensures Visited(old(e.View()), e.View(), now)
    {
      hide Good;
      added := [];
      assert [] + events == events;
      if e.deleted {
        return;
      }
      EventOk(e, null);
      if e.count == -1 {
        EventDel(e, null);
        return;
      }
      var due := e.everyMsec == 0;
      if !due {
        var (over, last) := MinimumMsec(e.lastRun, now, e.everyMsec);
        e.lastRun := last;
        due := over;
      }
      if due {
        added := RunEvent(e);
      }
    }

    /** The walk of DoEvents. Events that callbacks add come before the ones the walk still has to visit,
        so it does not reach them; none is removed. */
    method Walk() returns (ghost added: seq<Event>)
      requires Valid()
      modifies this`events, this`repr, this`script, repr
      ensures Valid() && Grown(old(events), old(repr), added) && fresh(repr - old(repr))
      ensures forall x | x in old(repr) && x !in old(events) :: Touched(old(x.View()), x.View())
      ensures forall x | x in old(events) :: Visited(old(x.View()), x.View(), now)
    {
      hide Good, Touched, Visited, Grown;
      added := [];
      NothingGrown();
      ListedInRepr(null);
      ghost var es, first := events, Snapshot(repr);
      TouchedAtFirst(es);
      var left: nat := |events|;
      while left > 0
        invariant left <= |es|
        invariant Valid() && Grown(es, old(repr), added) && fresh(repr - old(repr))
        invariant old(repr) <= repr
        invariant forall x | x in old(repr) :: Walked(es, |es| - left, first[x], x.View(), x, now)
      {
        added := VisitNext(es, left, first, added);
        left := left - 1;
      }
    }

    /** The next event of the walk, `left` events before the end of the list. */
    method VisitNext(ghost es: seq<Event>, left: nat, ghost first: map<Event, State>, ghost added: seq<Event>)
      returns (ghost all: seq<Event>)
      requires 0 < left <= |es| && Valid() && Grown(es, first.Keys, added)
      requires forall i, j | 0 <= i < j < |es| :: es[i] != es[j]
      requires forall i | 0 <= i < |es| :: es[i] in first
      requires forall x | x in first :: Walked(es, |es| - left, first[x], x.View(), x, now)
      modifies this`events, this`repr, this`script, repr
      ensures Valid() && Grown(es, first.Keys, all) && fresh(repr - old(repr)) && first.Keys <= repr
      ensures forall x | x in first :: Walked(es, |es| - left + 1, first[x], x.View(), x, now)
    {
      hide Good, Touched, Visited, Walked, Grown;
      ListedInRepr(null);
      GrownParts(es, first.Keys, added);
      var e := events[|events| - left];
      assert e == es[|es| - left];
      ghost var mid, midRepr, before := events, repr, Snapshot(repr);
      ghost var more := Visit(e);
      forall x | x in added
        ensures x.runs == 0
      {
        SameRuns(before[x], x.View());
      }
      GrownOn(es, first.Keys, added, mid, midRepr, more);
      forall x | x in first
        ensures Walked(es, |es| - left + 1, first[x], x.View(), x, now)
      {
        WalkedOn(es, |es| - left, first[x], before[x], x.View(), x, now);
      }
      all := more + added;
    }

    lemma GrownParts(es: seq<Event>, keys: set<Event>, added: seq<Event>)
      requires Grown(es, keys, added)
      ensures events == added + es && repr == keys + (set x | x in added)
      ensures forall x | x in added :: x !in keys && x.runs == 0
    {
    }

    lemma GrownOn(es: seq<Event>, keys: set<Event>, added: seq<Event>,
                  mid: seq<Event>, midRepr: set<Event>, more: seq<Event>)
      requires mid == added + es && midRepr == keys + (set x | x in added)
      requires forall x | x in added :: x !in keys && x.runs == 0
      requires Grown(mid, midRepr, more)
      ensures Grown(es, keys, more + added) && keys <= repr
    {
      assert more + (added + es) == more + added + es;
    }

    /** CleanupEvents: the marked events leave the list. */
    method CleanupEvents()
      requires Valid()
      modifies `events
      ensures Valid() && events == Unmarked(old(events))
    {
      hide Good, Unmarked, Seqs.CutOut;
      var i: nat := 0;
      ghost var all := events;
      ghost var unmarked := Unmarked(all);
      Seqs.EmptyUnits(unmarked);
      assert events[0..] == events;
      while i < |events|
        invariant i <= |events| && Valid()
        invariant events[..i] + Unmarked(events[i..]) == unmarked == Unmarked(all)
        decreases |events| - i
      {
        UnmarkedStep(events, i);
        if events[i].deleted {
          assert allocated(events[i + 1..]);
          EventDelReal(i);
        } else {
          i := i + 1;
        }
      }
      NothingUnmarked(events);
    }

    /** EventDelReal, for the event at position i. */
    method EventDelReal(i: nat)
      requires Valid() && i < |events| && events[i].deleted
      modifies `events
      ensures Valid() && events == Seqs.CutOut(old(events), i)
    {
      Seqs.CutOutIs<Event>(events, i);
      events := Seqs.CutOut(events, i);
      assert forall k | 0 <= k < |events| :: events[k] == old(events)[if k < i then k else k + 1];
    }

    /** DoEvents */
    method DoEvents() returns (ghost added: seq<Event>)
      requires Valid()
      modifies this`events, this`repr, this`script, repr
      ensures Valid() && fresh(repr - old(repr)) && old(repr) <= repr
      ensures events == Unmarked(added + old(events)) && repr == old(repr) + (set x | x in added)
      ensures forall x | x in added :: x.runs == 0
      ensures forall x | x in old(repr) && x !in old(events) :: Touched(old(x.View()), x.View())
      ensures forall x | x in old(events) :: Visited(old(x.View()), x.View(), now)
      ensures forall x | x in events :: !x.deleted && (!x.modified && x.total > 0 ==> x.runs < x.total)
    {
      hide Good, Unmarked, Touched, Visited;
      added := Walk();
      ghost var all := events;
      CleanupEvents();
      ListedInRepr(null);
      forall x | x in events
        ensures !x.deleted && (!x.modified && x.total > 0 ==> x.runs < x.total)
      {
        UnmarkedIs(all, x);
        EventOk(x, null);
      }
    }

    /** The main loop: at each time some code of the server acts, and then the events are done. An event
        that is deleted never runs again. */
    method Loop(passes: seq<Pass>)
      requires Valid()
      modifies this, repr
      ensures Valid() && fresh(repr - old(repr)) && old(repr) <= repr
      ensures forall x | x in old(repr) && old(x.deleted) :: x.deleted && x.runs == old(x.runs)
    {
      hide Good, Unmarked, Grown;
      var k: nat := 0;
      while k < |passes|
        invariant k <= |passes| && Valid() && fresh(repr - old(repr)) && old(repr) <= repr
        invariant forall x | x in old(repr) && old(x.deleted) :: x.deleted && x.runs == old(x.runs)
      {
        now := passes[k].now;
        var actions := passes[k].actions;
        var j: nat := 0;
        while j < |actions|
          invariant j <= |actions| && Valid() && fresh(repr - old(repr)) && old(repr) <= repr
          invariant forall x | x in old(repr) && old(x.deleted) :: x.deleted && x.runs == old(x.runs)
        {
          ghost var more := Perform(actions[j], null);
          j := j + 1;
        }
        ghost var added := DoEvents();
        k := k + 1;
      }
    }

    /** In every reachable state: an event that was added with a count and never modified has run at most
        that often; once it has, it is deleted. */
    lemma CountBound(e: Event)
      requires Valid() && e in repr && !e.modified && e.total > 0
      ensures e.runs <= e.total && (e.runs == e.total ==> e.deleted)
    {
      EventOk(e, null);
    }
  }

  lemma UnmarkedStep(es: seq<Event>, i: nat)
    requires i < |es|
    ensures es[..i] + Unmarked(es[i..]) ==
      (if es[i].deleted then es[..i] else es[..i + 1]) + Unmarked(es[i + 1..])
    ensures Seqs.CutOut(es, i)[..i] == es[..i] && Seqs.CutOut(es, i)[i..] == es[i + 1..]
  {
    assert es[i..][1..] == es[i + 1..];
    var rest := Unmarked(es[i + 1..]);
    if es[i].deleted {
      Seqs.EmptyUnits(rest);
    } else {
      assert es[..i + 1] == es[..i] + [es[i]];
      Seqs.Assoc(es[..i], [es[i]], rest);
    }
  }

  lemma NothingUnmarked(es: seq<Event>)
    ensures es[..|es|] + Unmarked(es[|es|..]) == es
  {
    Seqs.EmptyUnits(es);
  }

  lemma {:induction false} UnmarkedIs(es: seq<Event>, e: Event)
    ensures e in Unmarked(es) <==> e in es && !e.deleted
  {
    if es != [] {
      UnmarkedIs(es[1..], e);
      assert es == [es[0]] + es[1..];
    }
  }

  ghost function Snapshot(repr: set<Event>): (m: map<Event, State>)
    reads repr
    ensures m.Keys == repr
  {
    map x | x in repr :: x.View()
  }

  /** How an event has changed since the walk began, when n of the events have been visited. */
  ghost predicate Walked(es: seq<Event>, n: nat, a: State, b: State, x: Event, now: Timeval) {
    n <= |es| && if x in es[..n] then Visited(a, b, now) else Touched(a, b)
  }

  lemma SameRuns(a: State, b: State)
    requires Touched(a, b)
    ensures a.runs == b.runs
  {
  }

  lemma TouchedTwice(a: State, b: State, c: State)
    requires Touched(a, b) && Touched(b, c)
    ensures Touched(a, c)
  {
  }

  lemma WalkedOn(es: seq<Event>, n: nat, a: State, b: State, c: State, x: Event, now: Timeval)
    requires n < |es| && (forall i, j | 0 <= i < j < |es| :: es[i] != es[j])
    requires Walked(es, n, a, b, x, now)
    requires if x == es[n] then Visited(b, c, now) else Touched(b, c)
    ensures Walked(es, n + 1, a, c, x, now)
  {
    assert es[..n + 1] == es[..n] + [es[n]];
  }

  /** The events that are not marked, in order. */
  ghost function Unmarked(es: seq<Event>): seq<Event>
    reads es
  {
    if es == [] then [] else (if es[0].deleted then [] else [es[0]]) + Unmarked(es[1..])
  }

  // ---------------------------------------------------------------------
  // How far apart the runs of an event are.

  /** An event with an interval that nobody modifies runs only when the time since its last run has reached the
      interval, and a run starts that time anew. */
  lemma RunsOnTime(a: State, b: State, now: Timeval)
    requires Visited(a, b, now) && !b.modified && a.everyMsec > 0
    ensures b.runs > a.runs ==>
      a.lastRun.sec != 0 && Elapsed(a.lastRun, now) + Rounding(a.lastRun, now) >= a.everyMsec * 1000
    ensures !b.deleted && b.runs == a.runs ==>
      a.lastRun.sec == 0 || Elapsed(a.lastRun, now) + Rounding(a.lastRun, now) < a.everyMsec * 1000
    ensures !b.deleted ==> b.lastRun == if b.runs > a.runs || a.lastRun.sec == 0 then now else a.lastRun
  {
    hide Msecs, Rounding;
    IntervalOver(a.lastRun, now, a.everyMsec);
  }

  /** What happens to an event between two states: other code acts on it, or the walk comes to it at a time. */
  datatype Step = Other | Walk(now: Timeval)

  ghost predicate IsHistory(states: seq<State>, steps: seq<Step>) {
    && |states| == |steps| + 1
    && forall k | 0 <= k < |steps| ::
         match steps[k]
         case Other => Touched(states[k], states[k + 1])
         case Walk(now) => Visited(states[k], states[k + 1], now)
  }

  /** What holds in a state holds in those before: not modified, and not deleted; and runs are not undone. */
  lemma {:induction false} Earlier(states: seq<State>, steps: seq<Step>, i: nat, j: nat)
    requires IsHistory(states, steps) && i <= j < |states|
    ensures !states[j].modified ==> !states[i].modified && states[i].everyMsec == states[j].everyMsec
    ensures !states[j].deleted ==> !states[i].deleted
    ensures states[i].runs <= states[j].runs
    decreases j - i
  {
    if i < j {
      hide Due, MinimumMsec;
      Earlier(states, steps, i, j - 1);
      assert steps[j - 1].Other? ==> Touched(states[j - 1], states[j]);
    }
  }

  /** Since the run at step i the time of the last run has been that of a walk, the one of step i unless its
      seconds are 0. */
  lemma {:induction false} LastRunSince(states: seq<State>, steps: seq<Step>, i: nat, j: nat) returns (h: nat)
    requires IsHistory(states, steps) && i < j < |states| && steps[i].Walk?
    requires !states[j].modified && !states[j].deleted && states[j].everyMsec > 0
    requires states[i].runs < states[i + 1].runs == states[j].runs
    ensures i <= h < j && steps[h].Walk? && states[j].lastRun == steps[h].now
    ensures steps[i].now.sec != 0 ==> h == i
    decreases j
  {
    hide Visited, Touched;
    Earlier(states, steps, j - 1, j);
    if j == i + 1 {
      h := i;
      RunsOnTime(states[i], states[j], steps[i].now);
    } else {
      Earlier(states, steps, i + 1, j - 1);
      h := LastRunSince(states, steps, i, j - 1);
      match steps[j - 1]
      case Other => SameLastRun(states[j - 1], states[j]);
      case Walk(now) =>
        RunsOnTime(states[j - 1], states[j], now);
        if states[j - 1].lastRun.sec == 0 {
          h := j - 1;
        }
    }
  }

  lemma SameLastRun(a: State, b: State)
    requires Touched(a, b)
    ensures a.lastRun == b.lastRun
  {
  }

  /** Between a run of such an event and the next one, whatever else happens, its interval passes. */
  lemma RunsApart(states: seq<State>, steps: seq<Step>, i: nat, j: nat)
    requires IsHistory(states, steps) && i < j < |steps| && steps[i].Walk? && steps[j].Walk?
    requires !states[j + 1].modified && states[j].everyMsec > 0 && steps[i].now.sec != 0
    requires states[i].runs < states[i + 1].runs == states[j].runs < states[j + 1].runs
    ensures var from, to := steps[i].now, steps[j].now;
      Elapsed(from, to) + Rounding(from, to) >= states[j].everyMsec * 1000
  {
    hide Touched, Elapsed, Rounding;
    assert Visited(states[j], states[j + 1], steps[j].now);
    Earlier(states, steps, j, j + 1);
    var h := LastRunSince(states, steps, i, j);
    RunsOnTime(states[j], states[j + 1], steps[j].now);
  }
}
