/** The pending Wi-Fi operation and its generation, as critical sections of the requesters, the
    status callback, the watcher's poll and its timeout. */
module WifiOperation {

  const WRAP := 0x1_0000_0000
  /** 30000 ms and 900 ms at 100 ticks per second. */
  const TIMEOUT_TICKS := 3000
  const DISCONNECT_MIN_TICKS := 90

  datatype Kind = Enable | ConnectSaved | Disable | Disconnect | Provision | ModeChange

  datatype Current = NoOperation | Operation(kind: Kind)

  type Task = nat

  /** What a callback or poll carries from its first critical section to its last: the operation it
      saw, as the 32-bit generation it copied. `id` is the begin it came from. */
  datatype Capture = Capture(kind: Kind, generation: nat, id: nat)

  /** Between its steps a task holds a capture, or has ended its operation and is about to say so. */
  datatype Local = Watching(seen: Capture) | Reporting(id: nat)

  /** The mutex-protected state. `bumps` counts every increment of the generation, whose stored value
      is that count modulo 2^32; `id` is the begin that set the current operation and `idBumps` the
      count right after it; `reports` lists the begins reported finished, in order. */
  datatype System = System(
    current: Current,
    startedTick: nat,
    bumps: nat,
    id: nat,
    idBumps: nat,
    nextId: nat,
    tick: nat,
    locals: map<Task, Local>,
    reports: seq<nat>)

  const INITIAL := System(NoOperation, 0, 0, 0, 0, 1, 0, map[], [])

  function Generation(s: System): nat { s.bumps % WRAP }

  /** The unsigned 32-bit tick difference the code computes. */
  function Age(s: System): nat { (s.tick - s.startedTick) % WRAP }

  /** app_wifi_begin_operation. It may replace an operation that is still pending. */
  function Begin(s: System, kind: Kind): System {
    s.(current := Operation(kind), bumps := s.bumps + 1, idBumps := s.bumps + 1, id := s.nextId,
       nextId := s.nextId + 1, startedTick := s.tick)
  }

  /** app_wifi_end_operation: whatever is pending. */
  function End(s: System): System {
    s.(current := NoOperation)
  }

  /** app_wifi_end_operation_if_generation succeeds. */
  predicate EndMatches(s: System, generation: nat) {
    s.current.Operation? && Generation(s) == generation &&
    !(s.current.kind.Disconnect? && Age(s) < DISCONNECT_MIN_TICKS)
  }

  predicate TimedOut(s: System) {
    s.current.Operation? && Age(s) >= TIMEOUT_TICKS
  }

  /** An unconditional end is issued by the requester whose begin failed, or for no begin at all, by a
      disconnect request that finds the station not connected. */
  datatype Answer = ForBegin(id: nat) | ForNone

  datatype Action =
    | Tick
    | BeginOp(kind: Kind)
    | EndOp(answer: Answer)
    | Observe(task: Task)
    | Ignore(task: Task)
    | EndIf(task: Task)
    | Timeout(task: Task)
    | Report(task: Task)

  predicate Issuable(s: System, answer: Answer) {
    answer.ForBegin? ==> 0 < answer.id < s.nextId
  }

  /** Status events and live polls decide freely when a captured operation looks finished. */
  predicate Step(s: System, a: Action, t: System) {
    match a
    case Tick => t == s.(tick := s.tick + 1)
    case BeginOp(kind) => t == Begin(s, kind)
    case EndOp(answer) => Issuable(s, answer) && t == End(s)
    case Observe(task) =>
      && task !in s.locals && s.current.Operation?
      && t == s.(locals := s.locals[task := Watching(Capture(s.current.kind, Generation(s), s.id))])
    case Ignore(task) =>
      && task in s.locals && s.locals[task].Watching? && t == s.(locals := s.locals - {task})
    case EndIf(task) =>
      && task in s.locals && s.locals[task].Watching?
      && t == (if EndMatches(s, s.locals[task].seen.generation)
               then End(s).(locals := s.locals[task := Reporting(s.locals[task].seen.id)])
               else s.(locals := s.locals - {task}))
    case Timeout(task) =>
      && task !in s.locals && TimedOut(s)
      && t == s.(current := NoOperation, bumps := s.bumps + 1, locals := s.locals[task := Reporting(s.id)])
    case Report(task) =>
      && task in s.locals && s.locals[task].Reporting?
      && t == s.(locals := s.locals - {task}, reports := s.reports + [s.locals[task].id])
  }

  /** A capture is used before 2^32 further generations have passed. */
  predicate Recent(s: System, a: Action, captures: map<Task, nat>) {
    a.EndIf? && a.task in captures ==> s.bumps - captures[a.task] < WRAP
  }

  /** The generation count at which each watching task made its capture. */
  function CapturedAt(captures: map<Task, nat>, s: System, a: Action): map<Task, nat> {
    if a.Observe? then captures[a.task := s.bumps] else captures
  }

  /** Any interleaving, however long a capture is kept. */
  predicate Runs(states: seq<System>, actions: seq<Action>) {
    && |states| == |actions| + 1 && states[0] == INITIAL
    && forall i :: 0 <= i < |actions| ==> Step(states[i], actions[i], states[i + 1])
  }

  /** An interleaving in which every capture is used in time. */
  predicate Behaves(states: seq<System>, actions: seq<Action>, captures: seq<map<Task, nat>>) {
    && |states| == |captures| == |actions| + 1 && states[0] == INITIAL && captures[0] == map[]
    && forall i :: 0 <= i < |actions| ==>
         && Step(states[i], actions[i], states[i + 1])
         && captures[i + 1] == CapturedAt(captures[i], states[i], actions[i])
         && Recent(states[i], actions[i], captures[i])
  }

  // ---------------------------------------------------------------- the invariant

  predicate WatchingIsSound(s: System, captures: map<Task, nat>, task: Task)
    requires task in s.locals && s.locals[task].Watching?
  {
    var seen := s.locals[task].seen;
    && task in captures && captures[task] <= s.bumps && seen.generation == captures[task] % WRAP
    && 0 < seen.id < s.nextId
    // either the captured operation is still the latest one begun, or the generation has moved on
    && (captures[task] == s.bumps ==> seen.id == s.id && (s.current.Operation? ==> seen.kind == s.current.kind))
  }

  predicate Watchers(s: System, captures: map<Task, nat>) {
    && s.id < s.nextId && (s.current.Operation? ==> s.idBumps == s.bumps && s.id > 0)
    && forall task :: task in s.locals && s.locals[task].Watching? ==> WatchingIsSound(s, captures, task)
  }

  /** The begins that have been reported, or that a task is about to report. */
  predicate Finished(s: System, id: nat) {
    id in s.reports || exists task :: task in s.locals && s.locals[task] == Reporting(id)
  }

  /** No begin is reported, or about to be reported, twice, nor while it is still pending. */
  predicate Reports(s: System) {
    && s.id < s.nextId
    && (forall i :: 0 <= i < |s.reports| ==> s.reports[i] < s.nextId)
    && (forall i, j :: 0 <= i < j < |s.reports| ==> s.reports[i] != s.reports[j])
    && (forall x :: x in s.locals && s.locals[x].Reporting? ==> s.locals[x].id !in s.reports && s.locals[x].id < s.nextId)
    && (forall x, y :: x in s.locals && y in s.locals && x != y && s.locals[x].Reporting? && s.locals[y].Reporting? ==>
          s.locals[x].id != s.locals[y].id)
    && (s.current.Operation? ==> !Finished(s, s.id))
  }

  predicate Invariant(s: System, captures: map<Task, nat>) {
    Watchers(s, captures) && Reports(s)
  }

  /** A generation that still matches was captured from the operation now pending. */
  lemma MatchMeansSameOperation(s: System, captures: map<Task, nat>, task: Task)
    requires Watchers(s, captures) && task in s.locals && s.locals[task].Watching?
    requires Recent(s, EndIf(task), captures) && EndMatches(s, s.locals[task].seen.generation)
    ensures s.locals[task].seen.id == s.id && s.locals[task].seen.kind == s.current.kind
  {
    assert WatchingIsSound(s, captures, task);
    SameResidue(captures[task], s.bumps);
  }

  lemma SameResidue(a: nat, b: nat)
    requires a <= b < a + WRAP && a % WRAP == b % WRAP
    ensures a == b
  {
  }

  lemma StepKeepsWatchers(s: System, a: Action, t: System, captures: map<Task, nat>)
    requires Watchers(s, captures) && Step(s, a, t)
    ensures Watchers(t, CapturedAt(captures, s, a))
  {
    var after := CapturedAt(captures, s, a);
    forall task | task in t.locals && t.locals[task].Watching?
      ensures WatchingIsSound(t, after, task)
    {
      assert task in s.locals && s.locals[task] == t.locals[task] ==> WatchingIsSound(s, captures, task);
    }
  }

  /** A task that ends the pending operation takes over the duty to report it. */
  lemma TakingOverKeepsReports(s: System, t: System, task: Task)
    requires Reports(s) && s.current.Operation? && t.current.NoOperation?
    requires task in s.locals ==> s.locals[task].Watching?
    requires t.locals == s.locals[task := Reporting(s.id)] && t.reports == s.reports && t.id == s.id && t.nextId == s.nextId
    ensures Reports(t)
  {
    forall x | x in s.locals && s.locals[x].Reporting?
      ensures s.locals[x].id != s.id
    {
      assert s.locals[x] == Reporting(s.locals[x].id);
    }
  }

  lemma ReportingKeepsReports(s: System, t: System, task: Task)
    requires Reports(s) && Step(s, Report(task), t)
    ensures Reports(t)
  {
    var id := s.locals[task].id;
    assert s.locals[task] == Reporting(id) && Finished(s, id);
    assert forall x :: x in t.locals ==> x in s.locals && t.locals[x] == s.locals[x];
  }

  /** A step that leaves the reports alone and turns no task into a reporter. */
  lemma OthersKeepReports(s: System, t: System)
    requires Reports(s) && t.reports == s.reports && s.nextId <= t.nextId && t.id < t.nextId
    requires forall x :: x in t.locals && t.locals[x].Reporting? ==> x in s.locals && s.locals[x] == t.locals[x]
    requires t.current.Operation? ==> (s.current.Operation? && t.id == s.id) || t.id >= s.nextId
    ensures Reports(t)
  {
    assert t.current.Operation? && t.id == s.id ==> (Finished(t, t.id) ==> Finished(s, s.id));
  }

  lemma StepKeepsInvariant(s: System, a: Action, t: System, captures: map<Task, nat>)
    requires Invariant(s, captures) && Step(s, a, t) && Recent(s, a, captures)
    ensures Invariant(t, CapturedAt(captures, s, a))
  {
    StepKeepsWatchers(s, a, t, captures);
    match a
    case EndIf(task) =>
      if EndMatches(s, s.locals[task].seen.generation) {
        MatchMeansSameOperation(s, captures, task);
        TakingOverKeepsReports(s, t, task);
      } else {
        OthersKeepReports(s, t);
      }
    case Timeout(task) => TakingOverKeepsReports(s, t, task);
    case Report(task) => ReportingKeepsReports(s, t, task);
    case _ => OthersKeepReports(s, t);
  }

  // ---------------------------------------------------------------- theorems over whole runs

  lemma {:induction false} InvariantHolds(states: seq<System>, actions: seq<Action>, captures: seq<map<Task, nat>>, n: nat)
    requires Behaves(states, actions, captures) && n <= |actions|
    ensures Invariant(states[n], captures[n])
    decreases n
  {
    if n > 0 {
      InvariantHolds(states, actions, captures, n - 1);
      assert Step(states[n - 1], actions[n - 1], states[n]);
      StepKeepsInvariant(states[n - 1], actions[n - 1], states[n], captures[n - 1]);
    }
  }

  /** In every interleaving a captured generation can end only the operation it was captured from. */
  lemma CaptureEndsOnlyItsOwn(states: seq<System>, actions: seq<Action>, captures: seq<map<Task, nat>>, i: nat)
    requires Behaves(states, actions, captures) && i < |actions| && actions[i].EndIf?
    requires states[i].current.Operation? && states[i + 1].current.NoOperation?
    ensures actions[i].task in states[i].locals && states[i].locals[actions[i].task].Watching?
    ensures states[i].locals[actions[i].task].seen.id == states[i].id
    ensures states[i].locals[actions[i].task].seen.kind == states[i].current.kind
  {
    InvariantHolds(states, actions, captures, i);
    assert Step(states[i], actions[i], states[i + 1]) && Recent(states[i], actions[i], captures[i]);
    MatchMeansSameOperation(states[i], captures[i], actions[i].task);
  }

  /** Each begun operation is reported finished at most once, by a callback, a poll or a timeout. */
  lemma ReportedAtMostOnce(states: seq<System>, actions: seq<Action>, captures: seq<map<Task, nat>>, n: nat, i: nat, j: nat)
    requires Behaves(states, actions, captures) && n <= |actions|
    requires i < j < |states[n].reports|
    ensures states[n].reports[i] != states[n].reports[j]
  {
    InvariantHolds(states, actions, captures, n);
  }

  /** A disconnect is never ended by generation in its first 900 ms. */
  lemma DisconnectStaysVisible(s: System, a: Action, t: System)
    requires Step(s, a, t) && a.EndIf? && s.current == Operation(Disconnect) && s.tick - s.startedTick < DISCONNECT_MIN_TICKS
    requires s.startedTick <= s.tick
    ensures t.current == s.current
  {
  }

  // ---------------------------------------------------------------- the unconditional end

  /** The operation begun by action j is pending from then on, up to moment i. */
  predicate StillPending(states: seq<System>, actions: seq<Action>, j: nat, i: nat)
    requires |states| == |actions| + 1 && i <= |actions|
  {
    && j < i && actions[j].BeginOp?
    && forall l :: j < l <= i ==> states[l].current.Operation? && states[l].id == states[j].nextId
  }

  /** What is pending is always the latest operation begun, and has been since its begin. */
  lemma {:induction false} PendingSinceItsBegin(states: seq<System>, actions: seq<Action>, i: nat)
    requires Runs(states, actions) && i <= |actions|
    ensures states[i].id < states[i].nextId && (states[i].current.Operation? ==> states[i].id == states[i].nextId - 1)
    ensures states[i].current.Operation? ==> exists j: nat :: StillPending(states, actions, j, i) && states[i].id == states[j].nextId
    decreases i
  {
    if i > 0 {
      PendingSinceItsBegin(states, actions, i - 1);
      var s, a, t := states[i - 1], actions[i - 1], states[i];
      assert Step(s, a, t);
      if a.BeginOp? {
        assert StillPending(states, actions, i - 1, i);
      } else if t.current.Operation? {
        var j: nat :| StillPending(states, actions, j, i - 1) && s.id == states[j].nextId;
        assert StillPending(states, actions, j, i);
      }
    }
  }

  /** In every interleaving an end issued for begin `id` clears an operation other than `id` if and only
      if another begin came after that one and its operation is still pending. */
  lemma EndClearsAnotherExactlyWhen(states: seq<System>, actions: seq<Action>, i: nat, id: nat)
    requires Runs(states, actions) && i < |actions| && actions[i] == EndOp(ForBegin(id))
    ensures states[i].current.Operation? && states[i].id != id && states[i + 1].current.NoOperation? <==>
            exists j: nat :: StillPending(states, actions, j, i) && states[j].nextId > id
  {
    PendingSinceItsBegin(states, actions, i);
    assert Step(states[i], actions[i], states[i + 1]);
  }

  /** An end that answers no begin clears an operation if and only if one is pending, whoever began it. */
  lemma EndForNoneClearsExactlyWhen(states: seq<System>, actions: seq<Action>, i: nat)
    requires Runs(states, actions) && i < |actions| && actions[i] == EndOp(ForNone)
    ensures states[i].current.Operation? && states[i + 1].current.NoOperation? <==>
            exists j: nat :: StillPending(states, actions, j, i)
  {
    PendingSinceItsBegin(states, actions, i);
    assert Step(states[i], actions[i], states[i + 1]);
  }

  /** A reconnect that fails after a disconnect was begun takes the disconnect off the screen. */
  lemma UnconditionalEndMayClearANewerOperation(states: seq<System>, actions: seq<Action>)
    requires var first := Begin(INITIAL, ConnectSaved); var second := Begin(first, Disconnect);
             states == [INITIAL, first, second, End(second)]
    requires actions == [BeginOp(ConnectSaved), BeginOp(Disconnect), EndOp(ForBegin(1))]
    ensures Runs(states, actions)
    ensures states[2].current == Operation(Disconnect) && states[2].id == 2 && states[3].current.NoOperation?
  {
    forall i | 0 <= i < |actions|
      ensures Step(states[i], actions[i], states[i + 1])
    {
      if i == 0 {
      } else if i == 1 {
      } else {
        assert i == 2;
      }
    }
  }

  // ---------------------------------------------------------------- what must happen

  /** The ticks that pass with the actions from j up to i. */
  function Ticks(actions: seq<Action>, j: nat, i: nat): nat
    requires j <= i <= |actions|
    decreases i
  {
    if j == i then 0 else Ticks(actions, j, i - 1) + (if actions[i - 1].Tick? then 1 else 0)
  }

  lemma StaysPending(s: System, a: Action, t: System)
    requires Step(s, a, t) && s.current.Operation? && t.current.Operation? && t.id == s.id < s.nextId
    ensures t.startedTick == s.startedTick && t.current == s.current && t.tick == s.tick + (if a.Tick? then 1 else 0)
  {
  }

  lemma {:induction false} PendingForTicks(states: seq<System>, actions: seq<Action>, j: nat, i: nat)
    requires Runs(states, actions) && i <= |actions| && StillPending(states, actions, j, i)
    ensures states[i].tick - states[i].startedTick == Ticks(actions, j, i) && states[i].current == Operation(actions[j].kind)
    decreases i
  {
    var s, a, t := states[i - 1], actions[i - 1], states[i];
    assert Step(s, a, t);
    if j + 1 < i {
      assert StillPending(states, actions, j, i - 1);
      PendingForTicks(states, actions, j, i - 1);
      PendingSinceItsBegin(states, actions, i - 1);
      StaysPending(s, a, t);
    } else {
      assert Ticks(actions, j, j) == 0;
    }
  }

  predicate Expired(ticks: nat) { ticks % WRAP >= TIMEOUT_TICKS }

  lemma PendingTimesOut(states: seq<System>, actions: seq<Action>, j: nat, i: nat)
    requires Runs(states, actions) && i <= |actions| && StillPending(states, actions, j, i)
    ensures TimedOut(states[i]) <==> Expired(Ticks(actions, j, i))
  {
    PendingForTicks(states, actions, j, i);
  }

  /** At any moment of any run the watcher's check times out if and only if an operation has been pending for
      30 s since its begin, on the 32-bit tick counter. */
  lemma TimesOutExactlyWhen(states: seq<System>, actions: seq<Action>, i: nat)
    requires Runs(states, actions) && i <= |actions|
    ensures TimedOut(states[i]) <==> exists j: nat :: StillPending(states, actions, j, i) && Expired(Ticks(actions, j, i))
  {
    if TimedOut(states[i]) {
      PendingSinceItsBegin(states, actions, i);
      var j: nat :| StillPending(states, actions, j, i);
      PendingTimesOut(states, actions, j, i);
    } else if j: nat :| StillPending(states, actions, j, i) && Expired(Ticks(actions, j, i)) {
      PendingTimesOut(states, actions, j, i);
    }
  }

  /** Action k ends what is pending on behalf of begin `id`: by its timeout, or by a capture made of it. */
  predicate EndsFor(states: seq<System>, actions: seq<Action>, k: nat, id: nat)
    requires |states| == |actions| + 1 && k < |actions|
  {
    && states[k].current.Operation? && states[k + 1].current.NoOperation?
    && match actions[k]
       case Timeout(_) => states[k].id == id
       case EndIf(task) => task in states[k].locals && states[k].locals[task].Watching? && states[k].locals[task].seen.id == id
       case _ => false
  }

  lemma OneStepFinishes(s: System, a: Action, t: System, id: nat)
    requires Step(s, a, t)
    ensures Finished(t, id) <==> Finished(s, id) || EndsFor([s, t], [a], 0, id)
  {
    if x :| x in s.locals && s.locals[x] == Reporting(id) {
      assert (x in t.locals && t.locals[x] == Reporting(id)) || id in t.reports;
    }
    if x :| x in t.locals && t.locals[x] == Reporting(id) {
      assert (x in s.locals && s.locals[x] == Reporting(id)) || EndsFor([s, t], [a], 0, id);
    }
    if EndsFor([s, t], [a], 0, id) {
      assert a.task in t.locals && t.locals[a.task] == Reporting(id);
    }
  }

  /** In every interleaving a begin is reported, or about to be, if and only if a timeout or a capture of it
      has ended what was pending: no report is lost and none is made up. */
  lemma {:induction false} FinishedExactlyWhen(states: seq<System>, actions: seq<Action>, n: nat, id: nat)
    requires Runs(states, actions) && n <= |actions|
    ensures Finished(states[n], id) <==> exists k :: 0 <= k < n && EndsFor(states, actions, k, id)
    decreases n
  {
    if n > 0 {
      FinishedExactlyWhen(states, actions, n - 1, id);
      assert Step(states[n - 1], actions[n - 1], states[n]);
      OneStepFinishes(states[n - 1], actions[n - 1], states[n], id);
      assert EndsFor([states[n - 1], states[n]], [actions[n - 1]], 0, id) <==> EndsFor(states, actions, n - 1, id);
    }
  }

  // ---------------------------------------------------------------- captures kept for too long

  /** How often the generation is advanced by the actions from i up to j. */
  function Increments(actions: seq<Action>, i: nat, j: nat): nat
    requires i <= j <= |actions|
    decreases j
  {
    if i == j then 0
    else Increments(actions, i, j - 1) + (if actions[j - 1].BeginOp? || actions[j - 1].Timeout? then 1 else 0)
  }

  lemma {:induction false} IncrementsAreCounted(states: seq<System>, actions: seq<Action>, i: nat, j: nat)
    requires Runs(states, actions) && i <= j <= |actions|
    ensures states[j].bumps == states[i].bumps + Increments(actions, i, j)
    ensures Increments(actions, i, j) == 0 ==> states[j].id == states[i].id
    decreases j
  {
    if i < j {
      IncrementsAreCounted(states, actions, i, j - 1);
      assert Step(states[j - 1], actions[j - 1], states[j]);
    }
  }

  /** A begin takes a new id and notes the count it has brought the generation to. */
  lemma {:induction false} LaterPendingIsNew(states: seq<System>, actions: seq<Action>, i: nat, j: nat)
    requires Runs(states, actions) && i <= j <= |actions|
    ensures states[i].nextId <= states[j].nextId && (states[j].current.Operation? ==> states[j].idBumps == states[j].bumps)
    ensures states[j].id >= states[i].nextId || (states[j].id == states[i].id && states[j].idBumps == states[i].idBumps)
    decreases j
  {
    if j > 0 {
      assert Step(states[j - 1], actions[j - 1], states[j]);
      LaterPendingIsNew(states, actions, if i < j then i else j - 1, j - 1);
    }
  }

  /** The task copies the pending operation at moment i and still holds that copy at moment j. */
  predicate HoldsCapture(states: seq<System>, actions: seq<Action>, i: nat, j: nat, task: Task)
    requires |states| == |actions| + 1 && j <= |actions|
  {
    && i < j && actions[i] == Observe(task)
    && task in states[i + 1].locals && states[i + 1].locals[task].Watching?
    && task in states[j].locals && states[j].locals[task] == states[i + 1].locals[task]
  }

  /** In every interleaving, however long the capture was kept, it ends the pending operation if and only
      if the generation has been advanced a multiple of 2^32 times since, an operation is pending, and it
      is not a disconnect still to be kept visible. */
  lemma CaptureMatchesExactlyWhen(states: seq<System>, actions: seq<Action>, i: nat, j: nat, task: Task)
    requires Runs(states, actions) && j < |actions| && actions[j] == EndIf(task) && HoldsCapture(states, actions, i, j, task)
    ensures states[j].current.Operation? && states[j + 1].current.NoOperation? <==>
            && states[j].current.Operation? && Increments(actions, i, j) % WRAP == 0
            && !(states[j].current.kind.Disconnect? && Age(states[j]) < DISCONNECT_MIN_TICKS)
  {
    assert Step(states[i], actions[i], states[i + 1]);
    assert Step(states[j], actions[j], states[j + 1]);
    IncrementsAreCounted(states, actions, i, j);
    SameResidueExactlyWhen(states[i].bumps, Increments(actions, i, j));
  }

  lemma SameResidueExactlyWhen(a: nat, d: nat)
    ensures (a + d) % WRAP == a % WRAP <==> d % WRAP == 0
  {
  }

  /** So what it ends is not the operation it was captured from exactly when that multiple is not zero. */
  lemma StaleCaptureEndsAnotherExactlyWhen(states: seq<System>, actions: seq<Action>, i: nat, j: nat, task: Task)
    requires Runs(states, actions) && j < |actions| && actions[j] == EndIf(task) && HoldsCapture(states, actions, i, j, task)
    requires states[j].current.Operation? && states[j + 1].current.NoOperation?
    ensures Increments(actions, i, j) % WRAP == 0
    ensures states[j].id != states[j].locals[task].seen.id <==> Increments(actions, i, j) >= WRAP
  {
    CaptureMatchesExactlyWhen(states, actions, i, j, task);
    assert Step(states[i], actions[i], states[i + 1]);
    IncrementsAreCounted(states, actions, i, j);
    LaterPendingIsNew(states, actions, i, i);
    LaterPendingIsNew(states, actions, i, j);
    PendingSinceItsBegin(states, actions, i);
    MultipleBelowIsZero(Increments(actions, i, j));
  }

  lemma MultipleBelowIsZero(d: nat)
    requires d % WRAP == 0
    ensures d == 0 || d >= WRAP
  {
  }

  // ---------------------------------------------------------------- the critical sections

  /** The mutex-protected operation, generation and start tick; each method is one critical section
      and performs one step of the system. */
  class Guard {
    var current: Current
    var generation: nat
    var startedTick: nat
    ghost var world: System

    ghost predicate Valid()
      reads this
    {
      && world.current == current && generation == Generation(world) && startedTick == world.startedTick % WRAP
      && world.startedTick <= world.tick
    }

    constructor ()
      ensures Valid() && world == INITIAL
    {
      current, generation, startedTick, world := NoOperation, 0, 0, INITIAL;
    }

    /** app_wifi_begin_operation at tick `now`. */
    method BeginOperation(kind: Kind, now: nat)
      requires Valid() && now == world.tick % WRAP
      modifies this
      ensures Valid() && Step(old(world), BeginOp(kind), world)
    {
      current := Operation(kind);
      generation := (generation + 1) % WRAP;
      startedTick := now;
      world := Begin(world, kind);
    }

    /** app_wifi_end_operation; the code does not know which begin it answers. */
    method EndOperation(ghost answer: Answer)
      requires Valid() && Issuable(world, answer)
      modifies this
      ensures Valid() && Step(old(world), EndOp(answer), world)
    {
      current := NoOperation;
      world := End(world);
    }

    /** The copy that the status callback and the watcher's poll take first. */
    method Copy(task: Task) returns (operation: Current, seen: nat)
      requires Valid() && task !in world.locals
      modifies this`world
      ensures Valid() && operation == current && seen == generation
      ensures operation.NoOperation? ==> world == old(world)
      ensures operation.Operation? ==>
        Step(old(world), Observe(task), world) && world.locals[task] == Watching(Capture(operation.kind, seen, world.id))
    {
      operation, seen := current, generation;
      if operation.Operation? {
        world := world.(locals := world.locals[task := Watching(Capture(operation.kind, seen, world.id))]);
      }
    }

    /** app_wifi_end_operation_if_generation: true means the caller goes on to report. */
    method EndIfGeneration(task: Task, seen: nat, now: nat) returns (matches: bool)
      requires Valid() && now == world.tick % WRAP
      requires task in world.locals && world.locals[task].Watching? && world.locals[task].seen.generation == seen
      modifies this
      ensures Valid() && Step(old(world), EndIf(task), world)
      ensures matches <==> old(current).Operation? && current.NoOperation?
      ensures matches <==> task in world.locals
    {
      matches := current.Operation? && generation == seen;
      AgeFromCounters(world, now, startedTick);
      if matches && current.kind.Disconnect? && (now - startedTick) % WRAP < DISCONNECT_MIN_TICKS {
        matches := false;
      }
      if matches {
        current := NoOperation;
        world := End(world).(locals := world.locals[task := Reporting(world.locals[task].seen.id)]);
      } else {
        world := world.(locals := world.locals - {task});
      }
    }

    /** The watcher's timeout section. */
    method CheckTimeout(task: Task, now: nat) returns (timedOut: bool)
      requires Valid() && now == world.tick % WRAP && task !in world.locals
      modifies this
      ensures Valid() && (timedOut <==> TimedOut(old(world)))
      ensures if timedOut then Step(old(world), Timeout(task), world) else world == old(world)
    {
      AgeFromCounters(world, now, startedTick);
      timedOut := current.Operation? && (now - startedTick) % WRAP >= TIMEOUT_TICKS;
      if timedOut {
        current := NoOperation;
        generation := (generation + 1) % WRAP;
        world := world.(current := NoOperation, bumps := world.bumps + 1, locals := world.locals[task := Reporting(world.id)]);
      }
    }
  }

  /** The difference of the 32-bit counters is the age modulo 2^32. */
  lemma AgeFromCounters(s: System, now: nat, started: nat)
    requires now == s.tick % WRAP && started == s.startedTick % WRAP
    ensures (now - started) % WRAP == Age(s)
  {
  }
}
