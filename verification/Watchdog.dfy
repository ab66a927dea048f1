/** The task watchdog's registry: generation-tagged records and a two-phase unregister. */
module Watchdog {

  const MAX_TASKS := 32
  const STALE_MS := 10000
  const MODULUS := 0x1_0000_0000

  type Handle = nat

  /** A slot is live when `registered`. */
  datatype Record = Record(
    handle: Handle,
    registered: bool,
    twdtSubscribed: bool,
    generation: nat,
    lastFeedMs: int,
    feedCount: nat)

  const VACANT := Record(0, false, false, 0, 0, 0)

  // ---------------------------------------------------------------- the table

  predicate LiveAt(t: seq<Record>, i: int, h: Handle) {
    0 <= i < |t| && t[i].registered && t[i].handle == h
  }

  predicate IsLive(t: seq<Record>, h: Handle) {
    exists i :: 0 <= i < |t| && t[i].registered && t[i].handle == h
  }

  /** No two live records share a handle or a generation, and every generation was issued. */
  predicate Consistent(t: seq<Record>, issued: nat) {
    && (forall i :: 0 <= i < |t| && t[i].registered ==> 0 < t[i].generation <= issued)
    && (forall i, j :: 0 <= i < j < |t| && t[i].registered && t[j].registered ==>
          t[i].handle != t[j].handle && t[i].generation != t[j].generation)
  }

  predicate DistinctHandles(t: seq<Record>) {
    forall i, j :: 0 <= i < j < |t| && t[i].registered && t[j].registered ==> t[i].handle != t[j].handle
  }

  /** `++counter`, skipping zero when it wraps. */
  function NextGeneration(counter: nat): nat {
    if (counter + 1) % MODULUS == 0 then 1 else (counter + 1) % MODULUS
  }

  /** A heartbeat of the record's task. */
  function Beaten(r: Record, now: int): Record {
    r.(lastFeedMs := now, feedCount := (r.feedCount + 1) % MODULUS)
  }

  predicate Stale(r: Record, now: int) {
    r.registered && (now - r.lastFeedMs) % MODULUS > STALE_MS
  }

  predicate HasRecord(t: seq<Record>, h: Handle, generation: nat) {
    exists i :: 0 <= i < |t| && t[i].registered && t[i].handle == h && t[i].generation == generation
  }

  // ---------------------------------------------------------------- interleavings

  /** An unregister by task `caller` between its two critical sections: it saw (handle, generation) live
      when `asOf` registrations had been made. */
  datatype Pending = Pending(caller: Handle, handle: Handle, generation: nat, asOf: nat)

  /** `serials[i]` remembers which registration slot i holds. */
  datatype System = System(
    table: seq<Record>,
    counter: nat,
    issued: nat,
    serials: seq<nat>,
    pendings: set<Pending>)

  datatype Action =
    | Registered(h: Handle, twdt: bool, slot: nat, at: int)
    | Fed(h: Handle, slot: nat, at: int)
    | Looked(caller: Handle, h: Handle, generation: nat)
    | Abandoned(p: Pending)
    | Removed(p: Pending, slot: nat)
    | FoundNothing(p: Pending)

  function Boot(): System {
    System(seq(MAX_TASKS, _ => VACANT), 0, 0, seq(MAX_TASKS, _ => 0), {})
  }

  /** One critical section by some task; the ESP watchdog calls between them are the environment. */
  predicate Step(s: System, a: Action, t: System) {
    match a
    case Registered(h, twdt, slot, at) =>
      && slot < |s.table| && !s.table[slot].registered && !IsLive(s.table, h) && |s.serials| == |s.table|
      && t == s.(table := s.table[slot := Record(h, true, twdt, NextGeneration(s.counter), at, 0)],
                 counter := NextGeneration(s.counter), issued := s.issued + 1,
                 serials := s.serials[slot := s.issued + 1])
    case Fed(h, slot, at) =>
      && LiveAt(s.table, slot, h)
      && t == s.(table := s.table[slot := Beaten(s.table[slot], at)])
    case Looked(caller, h, generation) =>
      && HasRecord(s.table, h, generation)
      && t == s.(pendings := s.pendings + {Pending(caller, h, generation, s.issued)})
    case Abandoned(p) => p in s.pendings && t == s.(pendings := s.pendings - {p})
    case Removed(p, slot) =>
      && p in s.pendings && LiveAt(s.table, slot, p.handle) && s.table[slot].generation == p.generation
      && t == s.(table := s.table[slot := VACANT], pendings := s.pendings - {p})
    case FoundNothing(p) =>
      && p in s.pendings && !HasRecord(s.table, p.handle, p.generation)
      && t == s.(pendings := s.pendings - {p})
  }

  predicate Behaves(states: seq<System>, actions: seq<Action>) {
    && |states| == |actions| + 1 && states[0] == Boot()
    && forall i :: 0 <= i < |actions| ==> Step(states[i], actions[i], states[i + 1])
  }

  lemma BehavesOn(states: seq<System>, actions: seq<Action>, a: Action, t: System)
    requires Behaves(states, actions) && Step(states[|actions|], a, t)
    ensures Behaves(states + [t], actions + [a])
  {
    var longer, more := states + [t], actions + [a];
    forall i | 0 <= i < |more|
      ensures Step(longer[i], more[i], longer[i + 1])
    {
      assert i < |actions| ==> Step(states[i], actions[i], states[i + 1]);
    }
  }

  predicate Invariant(s: System) {
    && |s.table| == MAX_TASKS == |s.serials|
    && s.counter == s.issued < MODULUS
    && Consistent(s.table, s.issued)
    && (forall i :: 0 <= i < MAX_TASKS && s.table[i].registered ==> s.serials[i] == s.table[i].generation)
    && (forall p :: p in s.pendings ==> p.generation <= p.asOf <= s.issued)
  }

  lemma StepKeepsInvariant(s: System, a: Action, t: System)
    requires Invariant(s) && Step(s, a, t) && t.issued < MODULUS
    ensures Invariant(t) && s.issued <= t.issued
  {
  }

  /** As long as fewer than 2^32 registrations have been made, live records have distinct handles
      and distinct nonzero generations in every interleaving. */
  lemma {:induction false} EveryInterleavingIsConsistent(states: seq<System>, actions: seq<Action>)
    requires Behaves(states, actions) && states[|actions|].issued < MODULUS
    ensures Invariant(states[|actions|])
    ensures forall i :: 0 <= i <= |actions| ==> states[i].issued <= states[|actions|].issued
    decreases |actions|
  {
    var n := |actions|;
    if n > 0 {
      assert Step(states[n - 1], actions[n - 1], states[n]);
      assert states[n - 1].issued <= states[n].issued;
      EveryInterleavingIsConsistent(states[..n], actions[..n - 1]);
      StepKeepsInvariant(states[n - 1], actions[n - 1], states[n]);
    }
  }

  /** What an unregister removes was already registered when it looked: a record registered again
      under the same handle afterwards is never the one removed. */
  lemma UnregisterRemovesWhatItSaw(states: seq<System>, actions: seq<Action>)
    requires Behaves(states, actions) && |actions| > 0 && states[|actions|].issued < MODULUS
    requires actions[|actions| - 1].Removed?
    ensures var a, s := actions[|actions| - 1], states[|actions| - 1];
            a.slot < |s.serials| && s.serials[a.slot] <= a.p.asOf && s.serials[a.slot] == a.p.generation
  {
    var n := |actions|;
    assert Step(states[n - 1], actions[n - 1], states[n]);
    EveryInterleavingIsConsistent(states[..n], actions[..n - 1]);
  }

  // ---------------------------------------------------------------- heartbeats

  /** When the task in `slot` was last heard of, in the first n actions: its registration or its last feed. */
  function LastHeard(actions: seq<Action>, slot: nat, n: nat): int
    requires n <= |actions|
  {
    if n == 0 then 0
    else match actions[n - 1]
      case Registered(_, _, i, at) => if i == slot then at else LastHeard(actions, slot, n - 1)
      case Fed(_, i, at) => if i == slot then at else LastHeard(actions, slot, n - 1)
      case _ => LastHeard(actions, slot, n - 1)
  }

  /** How often the task in `slot` has fed since its registration, in the first n actions. */
  function FeedsSince(actions: seq<Action>, slot: nat, n: nat): nat
    requires n <= |actions|
  {
    if n == 0 then 0
    else match actions[n - 1]
      case Registered(_, _, i, _) => if i == slot then 0 else FeedsSince(actions, slot, n - 1)
      case Fed(_, i, _) => FeedsSince(actions, slot, n - 1) + (if i == slot then 1 else 0)
      case _ => FeedsSince(actions, slot, n - 1)
  }

  lemma OneMoreFeed(feeds: nat)
    ensures (feeds % MODULUS + 1) % MODULUS == (feeds + 1) % MODULUS
  {
  }

  lemma {:induction false} HeartbeatIsRemembered(states: seq<System>, actions: seq<Action>, slot: nat, n: nat)
    requires Behaves(states, actions) && n <= |actions| && slot < MAX_TASKS
    ensures |states[n].table| == MAX_TASKS
    ensures states[n].table[slot].registered ==>
              states[n].table[slot].lastFeedMs == LastHeard(actions, slot, n)
              && states[n].table[slot].feedCount == FeedsSince(actions, slot, n) % MODULUS
    decreases n
  {
    if n > 0 {
      assert Step(states[n - 1], actions[n - 1], states[n]);
      HeartbeatIsRemembered(states, actions, slot, n - 1);
      OneMoreFeed(FeedsSince(actions, slot, n - 1));
    }
  }

  /** In every interleaving a registered task counts as stale exactly when more than 10 s have passed since its
      registration or its last feed, whatever the other tasks did. */
  lemma StaleExactlyWhen(states: seq<System>, actions: seq<Action>, slot: nat, n: nat, now: int)
    requires Behaves(states, actions) && n <= |actions| && slot < MAX_TASKS
    requires 0 <= now - LastHeard(actions, slot, n) < MODULUS
    ensures |states[n].table| == MAX_TASKS
    ensures Stale(states[n].table[slot], now) <==> states[n].table[slot].registered && now - LastHeard(actions, slot, n) > 10_000
    ensures states[n].table[slot].registered ==> states[n].table[slot].feedCount == FeedsSince(actions, slot, n) % MODULUS
  {
    HeartbeatIsRemembered(states, actions, slot, n);
  }

  // ---------------------------------------------------------------- the critical sections

  class Registry {
    const records: array<Record>
    var counter: nat
    /** The run so far, as the system above sees it. */
    ghost var states: seq<System>
    ghost var actions: seq<Action>

    ghost predicate Valid()
      reads this, records
    {
      && records.Length == MAX_TASKS && counter < MODULUS && DistinctHandles(records[..])
      && |states| == |actions| + 1 && Shows(states[|actions|])
      && Behaves(states, actions)
    }

    ghost predicate Shows(s: System)
      reads this, records
    {
      s.table == records[..] && s.counter == counter && |s.serials| == |s.table|
    }

    ghost function World(): System
      reads this, records
      requires Valid()
    {
      states[|actions|]
    }

    constructor ()
      ensures Valid() && fresh(records) && World() == Boot() && actions == []
    {
      records := new Record[MAX_TASKS](_ => VACANT);
      counter := 0;
      states, actions := [Boot()], [];
      new;
      assert records[..] == Boot().table;
    }

    ghost method Note(a: Action, t: System)
      requires |states| == |actions| + 1 && Behaves(states, actions) && Step(states[|actions|], a, t)
      modifies this`states, this`actions
      ensures actions == old(actions) + [a] && states == old(states) + [t] && Behaves(states, actions)
    {
      BehavesOn(states, actions, a, t);
      states, actions := states + [t], actions + [a];
    }

    /** find_record_locked: the first live slot of the handle, or -1. */
    method FindRecord(h: Handle) returns (index: int)
      ensures index >= 0 ==> LiveAt(records[..], index, h) && forall k :: 0 <= k < index ==> !LiveAt(records[..], k, h)
      ensures index < 0 ==> index == -1 && !IsLive(records[..], h)
    {
      index := 0;
      while index < records.Length
        invariant 0 <= index <= records.Length
        invariant forall k :: 0 <= k < index ==> !(records[k].registered && records[k].handle == h)
      {
        if records[index].registered && records[index].handle == h {
          return;
        }
        index := index + 1;
      }
      index := -1;
    }

    /** record_health_registration by task `h`. */
    method Register(h: Handle, twdt: bool, now: int) returns (ok: bool, ghost slot: nat)
      requires Valid()
      modifies this, records
      ensures Valid()
      ensures ok ==> actions == old(actions) + [Registered(h, twdt, slot, now)] && states == old(states) + [World()]
      ensures ok ==> Step(old(World()), Registered(h, twdt, slot, now), World())
      ensures !ok ==> actions == old(actions) && states == old(states) && records[..] == old(records[..])
      ensures !ok ==> IsLive(records[..], h) || forall i :: 0 <= i < MAX_TASKS ==> records[i].registered
    {
      ok, slot := false, 0;
      var index := FindRecord(h);
      if index >= 0 {
        return;
      }
      var i := 0;
      while i < records.Length && records[i].registered
        invariant 0 <= i <= records.Length
        invariant forall k :: 0 <= k < i ==> records[k].registered
      {
        i := i + 1;
      }
      if i == records.Length {
        return;
      }
      ghost var s := World();
      counter := if (counter + 1) % MODULUS == 0 then 1 else (counter + 1) % MODULUS;
      records[i] := Record(h, true, twdt, counter, now, 0);
      ok, slot := true, i;
      NewcomerIsDistinct(s.table, i, records[i]);
      Note(Registered(h, twdt, i, now),
           s.(table := records[..], counter := counter, issued := s.issued + 1, serials := s.serials[i := s.issued + 1]));
    }

    /** update_health_heartbeat. */
    method Feed(h: Handle, now: int) returns (updated: bool, ghost slot: nat)
      requires Valid()
      modifies this, records
      ensures Valid()
      ensures updated <==> IsLive(old(records[..]), h)
      ensures updated ==> actions == old(actions) + [Fed(h, slot, now)] && states == old(states) + [World()]
      ensures updated ==> Step(old(World()), Fed(h, slot, now), World())
      ensures !updated ==> actions == old(actions) && states == old(states) && records[..] == old(records[..])
    {
      var index := FindRecord(h);
      updated, slot := index >= 0, 0;
      if updated {
        ghost var s := World();
        slot := index;
        records[index] := Beaten(records[index], now);
        SameOwnersStayDistinct(s.table, index, records[index]);
        Note(Fed(h, slot, now), s.(table := records[..]));
      }
    }

    /** First critical section of task_watchdog_unregister_task_generation. */
    method Matches(caller: Handle, h: Handle, generation: nat) returns (found: bool, twdt: bool)
      requires Valid()
      modifies this`states, this`actions
      ensures Valid() && (found <==> HasRecord(records[..], h, generation))
      ensures found ==> actions == old(actions) + [Looked(caller, h, generation)] && states == old(states) + [World()]
      ensures found ==> Step(old(World()), Looked(caller, h, generation), World())
      ensures !found ==> actions == old(actions) && states == old(states)
    {
      var index := FindRecord(h);
      found := index >= 0 && records[index].generation == generation;
      twdt := found && records[index].twdtSubscribed;
      assert !found ==> !HasRecord(records[..], h, generation);
      if found {
        ghost var s := World();
        assert HasRecord(s.table, h, generation);
        Note(Looked(caller, h, generation), s.(pendings := s.pendings + {Pending(caller, h, generation, s.issued)}));
      }
    }

    /** Second critical section: removes the record only if it is still that registration. */
    method RemoveIfStill(ghost p: Pending, h: Handle, generation: nat) returns (removed: bool, ghost slot: nat)
      requires Valid() && p in World().pendings && p.handle == h && p.generation == generation
      modifies this, records
      ensures Valid() && states == old(states) + [World()]
      ensures removed <==> HasRecord(old(records[..]), h, generation)
      ensures actions == old(actions) + [if removed then Removed(p, slot) else FoundNothing(p)]
      ensures Step(old(World()), actions[|actions| - 1], World())
    {
      ghost var s := World();
      var index := FindRecord(h);
      removed, slot := index >= 0 && records[index].generation == generation, 0;
      if removed {
        slot := index;
        assert HasRecord(s.table, h, generation);
        records[index] := VACANT;
        VacantKeepsDistinct(s.table, index);
        Note(Removed(p, slot), s.(table := records[..], pendings := s.pendings - {p}));
      } else {
        assert !HasRecord(s.table, h, generation);
        Note(FoundNothing(p), s.(pendings := s.pendings - {p}));
      }
    }

    /** Whatever tasks other than `self` do to the registry meanwhile; for the table, an unregister of
        theirs that removes something is as good as one that looked just before. */
    method OtherTasksRun(self: Handle, ghost p: Pending)
      requires Valid() && p in World().pendings && p.caller == self
      modifies this, records
      ensures Valid() && old(actions) <= actions && old(states) <= states && p in World().pendings
    {
      var turns: nat := *;
      while turns > 0
        invariant Valid() && old(actions) <= actions && old(states) <= states && p in World().pendings
      {
        var choice: nat, task: Handle, h: Handle, twdt: bool, generation: nat, now: int := *, *, *, *, *, *;
        if choice == 0 {
          var ok, slot := Register(task, twdt, now);
        } else if choice == 1 {
          var ok, slot := Feed(task, now);
        } else if task != self {
          ghost var q := Pending(task, h, generation, World().issued);
          var found, subscribed := Matches(task, h, generation);
          if found && choice == 2 {
            var removed, slot := RemoveIfStill(q, h, generation);
          }
        }
        turns := turns - 1;
      }
    }

    /** task_watchdog_unregister_task_generation, with the ESP watchdog's answer as `deleted`. */
    method UnregisterGeneration(caller: Handle, h: Handle, generation: nat, deleted: bool) returns (removed: bool, ghost slot: nat)
      requires Valid()
      modifies this, records
      ensures Valid() && old(actions) <= actions && old(states) <= states
      ensures removed ==> |actions| > 0 && actions[|actions| - 1] == Removed(Pending(caller, h, generation, old(World()).issued), slot)
      ensures !HasRecord(old(records[..]), h, generation) || generation == 0 ==> !removed && actions == old(actions)
      // otherwise it removes the record, unless it is gone by then or the ESP watchdog refuses
      ensures HasRecord(old(records[..]), h, generation) && generation != 0 && !removed ==>
        var p := Pending(caller, h, generation, old(World()).issued);
        |actions| > 0 && (actions[|actions| - 1] == FoundNothing(p) || (!deleted && actions[|actions| - 1] == Abandoned(p)))
    {
      removed, slot := false, 0;
      if generation == 0 {
        return;
      }
      var found, twdt := Matches(caller, h, generation);
      if !found {
        return;
      }
      ghost var p := Pending(caller, h, generation, old(World()).issued);
      OtherTasksRun(caller, p);
      if twdt && !deleted {
        Note(Abandoned(p), World().(pendings := World().pendings - {p}));
        return;
      }
      removed, slot := RemoveIfStill(p, h, generation);
    }

    /** task_watchdog_all_healthy, with the unsigned difference of two millisecond clocks. */
    method AllHealthy(now: int) returns (healthy: bool)
      ensures healthy <==> forall i :: 0 <= i < records.Length ==> !Stale(records[i], now)
    {
      healthy := true;
      var i := 0;
      while i < records.Length
        invariant 0 <= i <= records.Length && healthy
        invariant forall k :: 0 <= k < i ==> !Stale(records[k], now)
      {
        if Stale(records[i], now) {
          return false;
        }
        i := i + 1;
      }
    }
  }

  lemma NewcomerIsDistinct(t: seq<Record>, i: nat, r: Record)
    requires DistinctHandles(t) && i < |t| && !IsLive(t, r.handle)
    ensures DistinctHandles(t[i := r])
  {
    assert forall k :: 0 <= k < |t| && t[k].registered ==> t[k].handle != r.handle;
  }

  lemma SameOwnersStayDistinct(t: seq<Record>, i: nat, r: Record)
    requires DistinctHandles(t) && i < |t| && t[i].registered && r.handle == t[i].handle
    ensures DistinctHandles(t[i := r])
  {
  }

  lemma VacantKeepsDistinct(t: seq<Record>, i: nat)
    requires DistinctHandles(t) && i < |t|
    ensures DistinctHandles(t[i := VACANT])
  {
  }
}
