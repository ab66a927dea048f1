/** The admission token that serialises radio transitions: requesters take it by compare-and-swap,
    hand it to the worker through a queue of length one, and the worker gives it back. */
module WifiAdmission {

  const QUEUE_LENGTH := 1

  type Task = nat

  /** A toggle carries the wanted state, a mode change the wanted mode. */
  datatype Request = Toggle(sender: Task, enabled: bool) | ModeChange(sender: Task, mode: nat)

  /** `holders` have won the flag and not sent yet; `executing` maps each busy worker to the
      request whose radio transition it runs. */
  datatype System = System(
    admitted: nat,
    holders: set<Task>,
    queue: seq<Request>,
    executing: map<Task, Request>)

  datatype Action =
    | Admit(r: Task)
    | Rejected(r: Task)
    | Send(r: Task, q: Request)
    | SendFailed(r: Task)
    | Receive(w: Task)
    | Finish(w: Task)

  const INITIAL := System(0, {}, [], map[])

  /** The atomic steps of app_wifi_request_enabled, app_services_wifi_mode_edit_confirm and
      app_wifi_toggle_task. A task that already holds the token is inside the same call. */
  predicate Step(s: System, a: Action, t: System) {
    match a
    case Admit(r) => s.admitted == 0 && r !in s.holders && t == s.(admitted := 1, holders := s.holders + {r})
    case Rejected(r) => s.admitted != 0 && t == s
    case Send(r, q) =>
      && r in s.holders && q.sender == r && |s.queue| < QUEUE_LENGTH
      && t == s.(holders := s.holders - {r}, queue := s.queue + [q])
    case SendFailed(r) =>
      && r in s.holders && |s.queue| >= QUEUE_LENGTH
      && t == s.(holders := s.holders - {r}, admitted := 0)
    case Receive(w) =>
      && |s.queue| > 0 && w !in s.executing
      && t == s.(queue := s.queue[1..], executing := s.executing[w := s.queue[0]])
    case Finish(w) => w in s.executing && t == s.(executing := s.executing - {w}, admitted := 0)
  }

  predicate Behaves(states: seq<System>, actions: seq<Action>) {
    && |states| == |actions| + 1 && states[0] == INITIAL
    && forall i :: 0 <= i < |actions| ==> Step(states[i], actions[i], states[i + 1])
  }

  /** How many requests are held by a requester, queued, or executing. */
  function Live(s: System): nat {
    |s.holders| + |s.queue| + |s.executing|
  }

  predicate Invariant(s: System) {
    s.admitted <= 1 && Live(s) == s.admitted
  }

  lemma StepKeepsInvariant(s: System, a: Action, t: System)
    requires Invariant(s) && Step(s, a, t)
    ensures Invariant(t) && !a.SendFailed?
  {
    match a
    case Admit(r) => assert |s.holders + {r}| == |s.holders| + 1;
    case Rejected(r) =>
    case Send(r, q) =>
      HoldersCount(s.holders, r);
      assert |s.holders - {r}| == |s.holders| - 1;
    case SendFailed(r) => HoldersCount(s.holders, r);
    case Receive(w) => assert |s.executing[w := s.queue[0]]| == |s.executing| + 1;
    case Finish(w) =>
      assert (s.executing - {w}).Keys == s.executing.Keys - {w};
      assert |(s.executing - {w}).Keys| == |s.executing.Keys| - 1;
  }

  lemma HoldersCount(holders: set<Task>, r: Task)
    requires r in holders
    ensures |holders| >= 1 && |holders - {r}| == |holders| - 1
  {
  }

  /** In every interleaving, with any number of requesters and workers, the flag is 1 exactly while
      one request is live, and an admitted send never finds the queue full. */
  lemma {:induction false} FlagCountsTheLiveRequest(states: seq<System>, actions: seq<Action>)
    requires Behaves(states, actions)
    ensures forall i :: 0 <= i <= |actions| ==> Invariant(states[i])
    ensures forall i :: 0 <= i < |actions| ==> !actions[i].SendFailed?
    decreases |actions|
  {
    var n := |actions|;
    if n > 0 {
      assert Step(states[n - 1], actions[n - 1], states[n]);
      FlagCountsTheLiveRequest(states[..n], actions[..n - 1]);
      assert states[..n][n - 1] == states[n - 1];
      StepKeepsInvariant(states[n - 1], actions[n - 1], states[n]);
      forall i | 0 <= i <= n
        ensures Invariant(states[i])
      {
        assert i < n ==> states[..n][i] == states[i];
      }
      forall i | 0 <= i < n
        ensures !actions[i].SendFailed?
      {
        assert i < n - 1 ==> actions[..n - 1][i] == actions[i];
      }
    }
  }

  /** So two radio transitions never overlap, and nothing waits while one runs. */
  lemma TransitionsNeverOverlap(states: seq<System>, actions: seq<Action>, i: nat, v: Task, w: Task)
    requires Behaves(states, actions) && i <= |actions|
    requires v in states[i].executing && w in states[i].executing
    ensures v == w && states[i].queue == [] && states[i].holders == {} && states[i].admitted == 1
  {
    FlagCountsTheLiveRequest(states, actions);
    var keys := states[i].executing.Keys;
    assert Invariant(states[i]);
    assert |keys| == |states[i].executing|;
    assert {v, w} <= keys;
    CardinalityGrows({v, w}, keys);
    assert |keys| <= 1;
    assert v != w ==> |{v, w}| == 2;
    CardinalityGrows({v}, keys);
  }

  lemma {:induction false} CardinalityGrows(a: set<Task>, b: set<Task>)
    requires a <= b
    ensures |a| <= |b|
    decreases a
  {
    if a != {} {
      var x :| x in a;
      CardinalityGrows(a - {x}, b - {x});
    }
  }

  // ---------------------------------------------------------------- the tasks

  lemma BehavesOn(states: seq<System>, actions: seq<Action>, a: Action, t: System)
    requires Behaves(states, actions) && Step(states[|actions|], a, t)
    ensures Behaves(states + [t], actions + [a])
  {
    var longer, more := states + [t], actions + [a];
    forall i | 0 <= i < |more|
      ensures Step(longer[i], more[i], longer[i + 1])
    {
      assert i < |actions| ==> Step(states[i], actions[i], states[i + 1]);
    }
  }

  /** The admission flag and the request queue, and the run of the tasks that use them. */
  class Gate {
    var admitted: nat
    var queue: seq<Request>
    ghost var states: seq<System>
    ghost var actions: seq<Action>

    ghost predicate Valid()
      reads this
    {
      && |states| == |actions| + 1 && Behaves(states, actions)
      && states[|actions|].admitted == admitted && states[|actions|].queue == queue
    }

    ghost function World(): System
      reads this
      requires Valid()
    {
      states[|actions|]
    }

    constructor ()
      ensures Valid() && World() == INITIAL
    {
      admitted, queue, states, actions := 0, [], [INITIAL], [];
    }

    ghost method Note(a: Action, t: System)
      requires |states| == |actions| + 1 && Behaves(states, actions) && Step(states[|actions|], a, t)
      modifies this`states, this`actions
      ensures actions == old(actions) + [a] && states == old(states) + [t] && Behaves(states, actions)
    {
      BehavesOn(states, actions, a, t);
      states, actions := states + [t], actions + [a];
    }

    /** The compare-and-swap on the flag. */
    method TryAdmit(r: Task) returns (won: bool)
      requires Valid() && r !in World().holders
      modifies this
      ensures Valid() && (won <==> old(admitted) == 0) && admitted == (if won then 1 else old(admitted))
      ensures Step(old(World()), if won then Admit(r) else Rejected(r), World())
    {
      ghost var s := World();
      won := admitted == 0;
      if won {
        admitted := 1;
        Note(Admit(r), s.(admitted := 1, holders := s.holders + {r}));
      } else {
        Note(Rejected(r), s);
      }
    }

    /** The send without waiting; a full queue gives the token back. */
    method SendAdmitted(r: Task, q: Request) returns (sent: bool)
      requires Valid() && r in World().holders && q.sender == r
      modifies this
      ensures Valid() && (sent <==> |old(queue)| < QUEUE_LENGTH)
      ensures queue == (if sent then old(queue) + [q] else old(queue)) && admitted == (if sent then old(admitted) else 0)
      ensures Step(old(World()), if sent then Send(r, q) else SendFailed(r), World())
    {
      ghost var s := World();
      sent := |queue| < QUEUE_LENGTH;
      if sent {
        queue := queue + [q];
        Note(Send(r, q), s.(holders := s.holders - {r}, queue := queue));
      } else {
        admitted := 0;
        Note(SendFailed(r), s.(holders := s.holders - {r}, admitted := 0));
      }
    }

    /** Whatever requesters and workers other than `self` try between its admission and its send. */
    method OtherTasksRun(self: Task)
      requires Valid() && self in World().holders
      modifies this
      ensures Valid() && self in World().holders
    {
      var turns: nat := *;
      while turns > 0
        invariant Valid() && self in World().holders
      {
        var task: Task, requests: bool := *, *;
        FlagCountsTheLiveRequest(states, actions);
        OneHolder(World(), self);
        if requests && task != self {
          var won := TryAdmit(task);
        } else if !requests {
          var found, q := Receive(task);
        }
        turns := turns - 1;
      }
    }

    /** app_wifi_request_enabled and app_services_wifi_mode_edit_confirm, from the admission on. */
    method RequestTransition(q: Request) returns (accepted: bool)
      requires Valid() && q.sender !in World().holders
      modifies this
      ensures Valid() && (accepted <==> old(admitted) == 0)
      ensures accepted ==> queue == [q] && admitted == 1
      ensures !accepted ==> queue == old(queue) && admitted == old(admitted)
    {
      accepted := TryAdmit(q.sender);
      if accepted {
        OtherTasksRun(q.sender);
        FlagCountsTheLiveRequest(states, actions);
        OneHolder(World(), q.sender);
        accepted := SendAdmitted(q.sender, q);
      }
    }

    /** app_wifi_toggle_task picks up a request, if there is one... */
    method Receive(w: Task) returns (found: bool, q: Request)
      requires Valid() && w !in World().executing
      modifies this
      ensures Valid() && admitted == old(admitted) && (found <==> |old(queue)| > 0)
      ensures found ==> [q] + queue == old(queue) && Step(old(World()), Action.Receive(w), World()) && World().executing[w] == q
      ensures !found ==> queue == old(queue) && World() == old(World())
    {
      found, q := |queue| > 0, Toggle(0, false);
      if found {
        ghost var s := World();
        q := queue[0];
        queue := queue[1..];
        Note(Action.Receive(w), s.(queue := queue, executing := s.executing[w := q]));
      }
    }

    /** ... and gives the token back once the radio transition is over. */
    method Finish(w: Task)
      requires Valid() && w in World().executing
      modifies this
      ensures Valid() && admitted == 0 && queue == [] && World().executing == map[]
      ensures Step(old(World()), Action.Finish(w), World())
    {
      ghost var s := World();
      FlagCountsTheLiveRequest(states, actions);
      assert Invariant(s);
      OneWorker(s, w);
      admitted := 0;
      Note(Action.Finish(w), s.(executing := s.executing - {w}, admitted := 0));
    }
  }

  /** While a requester holds the token it is alone: no queue, no transition. */
  lemma OneHolder(s: System, self: Task)
    requires Invariant(s) && self in s.holders
    ensures s.admitted == 1 && s.holders == {self} && s.queue == [] && s.executing == map[]
  {
    HoldersCount(s.holders, self);
    CardinalityGrows({self}, s.holders);
    assert |s.holders - {self}| == 0;
    assert s.holders == {self} + (s.holders - {self});
  }

  lemma OneWorker(s: System, w: Task)
    requires Invariant(s) && w in s.executing
    ensures s.queue == [] && s.executing - {w} == map[]
  {
    CardinalityGrows({w}, s.executing.Keys);
    assert |s.executing.Keys| == 1;
    assert |s.executing.Keys - {w}| == 0;
  }
}
