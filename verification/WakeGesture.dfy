/** The latch that consumes the whole gesture that wakes the display. */
module WakeGesture {
  import opened Button
  import opened ButtonGesture

  const BTN_COUNT := 5

  function Index(b: ButtonId): (i: nat)
    ensures i < BTN_COUNT
  {
    match b
    case Power => 0
    case Enter => 1
    case Up => 2
    case Down => 3
    case Back => 4
  }

  /** One event of one button at the latch: is the display asleep (standby or a transient
      fault screen) at that moment? */
  datatype Arrival = Arrival(event: Event, asleep: bool)

  datatype LatchResult = LatchResult(swallowing: bool, consumed: bool, woke: bool)

  /** consume_display_wakeup_event for the button's own entry of the swallow array. */
  function Latch(swallowing: bool, a: Arrival): LatchResult {
    if swallowing && !IsFresh(a.event) then LatchResult(true, true, false)
    else if a.asleep then LatchResult(true, true, true)
    else LatchResult(false, false, false)
  }

  class WakeLatch {
    /** s_wake_gesture_swallow, one entry per button. */
    const swallow: array<bool>
    /** Everything that has reached the latch, oldest first. */
    ghost var arrivals: seq<Arrival>

    ghost predicate Valid()
      reads this, swallow
    {
      swallow.Length == BTN_COUNT && forall b: ButtonId :: swallow[Index(b)] == Swallowing(arrivals, b)
    }

    constructor ()
      ensures fresh(swallow) && Valid() && arrivals == []
    {
      swallow := new bool[BTN_COUNT](_ => false);
      arrivals := [];
    }

    /** consume_display_wakeup_event. */
    method ConsumeDisplayWakeupEvent(event: Event, asleep: bool) returns (consumed: bool)
      requires Valid()
      modifies this`arrivals, swallow
      ensures Valid() && arrivals == old(arrivals) + [Arrival(event, asleep)]
      ensures consumed <==> asleep || InWakingGesture(arrivals, |arrivals| - 1)
    {
      arrivals := arrivals + [Arrival(event, asleep)];
      ConsumedExactlyWhen(arrivals, |arrivals| - 1);
      assert arrivals[..|arrivals| - 1] == old(arrivals);
      var b := Index(event.button);
      if swallow[b] {
        if !event.kind.Press? || event.clicks > 0 {
          return true;
        }
        swallow[b] := false;
      }
      if !asleep {
        return false;
      }
      swallow[b] := true;
      return true;
    }
  }

  // ---------------------------------------------------------------- runs of the latch

  /** The entry of button `b` after the events of all buttons so far. */
  function Swallowing(arrivals: seq<Arrival>, b: ButtonId): bool
    decreases |arrivals|
  {
    if |arrivals| == 0 then false
    else
      var before, last := Swallowing(arrivals[..|arrivals| - 1], b), arrivals[|arrivals| - 1];
      if last.event.button == b then Latch(before, last).swallowing else before
  }

  function ResultAt(arrivals: seq<Arrival>, i: nat): LatchResult
    requires i < |arrivals|
  {
    Latch(Swallowing(arrivals[..i], arrivals[i].event.button), arrivals[i])
  }

  // ---------------------------------------------------------------- what is consumed

  /** Event `k` found the display asleep, and its button has not started a new gesture in (k, upTo). */
  predicate WokeSince(arrivals: seq<Arrival>, k: nat, upTo: nat)
    requires k < upTo <= |arrivals|
  {
    arrivals[k].asleep && forall j :: k < j < upTo ==> !StartsGesture(arrivals, j, arrivals[k].event.button)
  }

  /** An earlier event of its button found the display asleep, and the button has not started a new gesture
      since, event `i` included. */
  predicate InWakingGesture(arrivals: seq<Arrival>, i: nat)
    requires i < |arrivals|
  {
    exists k :: 0 <= k < i && arrivals[k].event.button == arrivals[i].event.button && WokeSince(arrivals, k, i + 1)
  }

  lemma {:induction false} SwallowingExactlyWhen(arrivals: seq<Arrival>, n: nat, b: ButtonId)
    requires n <= |arrivals|
    ensures Swallowing(arrivals[..n], b) <==>
            exists k :: 0 <= k < n && arrivals[k].event.button == b && WokeSince(arrivals, k, n)
    decreases n
  {
    if n > 0 {
      SwallowingExactlyWhen(arrivals, n - 1, b);
      var last := arrivals[n - 1];
      assert arrivals[..n][..n - 1] == arrivals[..n - 1];
      if last.event.button != b || (!IsFresh(last.event) && !last.asleep) {
        assert forall k :: 0 <= k < n - 1 && arrivals[k].event.button == b ==>
          (WokeSince(arrivals, k, n) <==> WokeSince(arrivals, k, n - 1) && !StartsGesture(arrivals, n - 1, b));
      } else if last.asleep {
        assert WokeSince(arrivals, n - 1, n);
      } else {
        assert StartsGesture(arrivals, n - 1, b);
      }
    }
  }

  /** For any interleaving of the buttons: the latch consumes an event exactly when the display is asleep at
      it, or it belongs to a gesture an earlier event of which found the display asleep. It wakes the display
      exactly in the first case without the second. */
  lemma ConsumedExactlyWhen(arrivals: seq<Arrival>, i: nat)
    requires i < |arrivals|
    ensures ResultAt(arrivals, i).consumed <==> arrivals[i].asleep || InWakingGesture(arrivals, i)
    ensures ResultAt(arrivals, i).woke <==> arrivals[i].asleep && !InWakingGesture(arrivals, i)
  {
    var b := arrivals[i].event.button;
    SwallowingExactlyWhen(arrivals, i, b);
    assert forall k :: 0 <= k < i && arrivals[k].event.button == b ==>
      (WokeSince(arrivals, k, i + 1) <==> WokeSince(arrivals, k, i) && !StartsGesture(arrivals, i, b));
  }

  /** While the display is never asleep every event passes. */
  lemma AwakeConsumesNothing(arrivals: seq<Arrival>, i: nat)
    requires i < |arrivals| && forall k :: 0 <= k <= i ==> !arrivals[k].asleep
    ensures !ResultAt(arrivals, i).consumed
  {
    ConsumedExactlyWhen(arrivals, i);
  }

  predicate StartsGesture(arrivals: seq<Arrival>, i: nat, b: ButtonId)
    requires i < |arrivals|
  {
    arrivals[i].event.button == b && IsFresh(arrivals[i].event)
  }

  /** Until the button starts a new gesture its latch stays set. */
  lemma {:induction false} LatchHolds(arrivals: seq<Arrival>, k: nat, m: nat)
    requires k < m <= |arrivals| && ResultAt(arrivals, k).consumed
    requires forall j :: k < j < m ==> !StartsGesture(arrivals, j, arrivals[k].event.button)
    ensures Swallowing(arrivals[..m], arrivals[k].event.button)
    decreases m
  {
    var b := arrivals[k].event.button;
    assert arrivals[..m][..m - 1] == arrivals[..m - 1] && arrivals[..m][m - 1] == arrivals[m - 1];
    if k + 1 < m {
      LatchHolds(arrivals, k, m - 1);
      assert !StartsGesture(arrivals, m - 1, b);
    }
  }

  /** After a wake by button b at moment k, whatever the other buttons and the screen do, every event
      of b is consumed up to its next fresh PRESS; the first one to pass is such a PRESS. */
  lemma WakeConsumesUpToFreshPress(arrivals: seq<Arrival>, k: nat, m: nat)
    requires k < m < |arrivals| && ResultAt(arrivals, k).woke
    requires arrivals[m].event.button == arrivals[k].event.button
    requires forall j :: k < j < m && arrivals[j].event.button == arrivals[k].event.button ==> ResultAt(arrivals, j).consumed
    ensures !ResultAt(arrivals, m).consumed ==> IsFresh(arrivals[m].event)
    ensures (forall j :: k < j <= m ==> !StartsGesture(arrivals, j, arrivals[k].event.button)) ==> ResultAt(arrivals, m).consumed
  {
    var b := arrivals[k].event.button;
    if forall j :: k < j <= m ==> !StartsGesture(arrivals, j, b) {
      LatchHolds(arrivals, k, m);
      assert !StartsGesture(arrivals, m, b);
    } else {
      var p := LastFresh(arrivals, k, m, b);
      if p < m {
        assert ResultAt(arrivals, p).consumed;
        LatchHolds(arrivals, p, m);
      }
    }
  }

  lemma LastFresh(arrivals: seq<Arrival>, k: nat, m: nat, b: ButtonId) returns (p: nat)
    requires k < m < |arrivals| && exists j :: k < j <= m && StartsGesture(arrivals, j, b)
    ensures k < p <= m && StartsGesture(arrivals, p, b)
    ensures forall j :: p < j <= m ==> !StartsGesture(arrivals, j, b)
  {
    p := m;
    while !StartsGesture(arrivals, p, b)
      invariant k < p <= m
      invariant exists j :: k < j <= p && StartsGesture(arrivals, j, b)
      invariant forall j :: p < j <= m ==> !StartsGesture(arrivals, j, b)
      decreases p
    {
      p := p - 1;
    }
  }

  // ---------------------------------------------------------------- composition with the button task

  /** How many gestures the button has started up to and including event `i`. */
  function GestureOf(trace: seq<Event>, i: nat): nat
    requires i <= |trace|
  {
    if i == 0 then 0 else GestureOf(trace, i - 1) + (if IsFresh(trace[i - 1]) then 1 else 0)
  }

  lemma {:induction false} GestureGrows(trace: seq<Event>, i: nat, j: nat)
    requires i <= j <= |trace|
    ensures GestureOf(trace, i) <= GestureOf(trace, j)
    ensures GestureOf(trace, i) == GestureOf(trace, j) <==> forall n :: i <= n < j ==> !IsFresh(trace[n])
    decreases j
  {
    if i < j {
      GestureGrows(trace, i, j - 1);
    }
  }

  lemma ClickReportsItsGesture(cfg: Config, trace: seq<Event>, m: nat)
    requires cfg.multiClick && Legal(cfg, trace) && m < |trace| && IsClick(trace[m].kind)
    ensures trace[m].clicks == Cap(PressesSince(trace, m)) && PressesSince(trace, m) > 0
  {
    LegalAt(cfg, trace, m);
    ChainIsGesture(cfg, trace[..m]);
    GestureCountsPresses(cfg, trace, m);
  }

  /** The events of a trace that reach the latch: the handlers drop some before it, at start-up and while
      a flash message blocks input. */
  predicate Chosen(chosen: seq<nat>, n: nat) {
    && (forall i :: 0 <= i < |chosen| ==> chosen[i] < n)
    && (forall i, j :: 0 <= i < j < |chosen| ==> chosen[i] < chosen[j])
  }

  function ChosenArrivals(trace: seq<Event>, chosen: seq<nat>, asleep: seq<bool>): (r: seq<Arrival>)
    requires Chosen(chosen, |trace|) && |asleep| == |chosen|
    ensures |r| == |chosen| && forall i :: 0 <= i < |r| ==> r[i] == Arrival(trace[chosen[i]], asleep[i])
  {
    seq(|chosen|, i requires 0 <= i < |chosen| => Arrival(trace[chosen[i]], asleep[i]))
  }

  lemma ChosenGestureIsConsumed(cfg: Config, trace: seq<Event>, chosen: seq<nat>, asleep: seq<bool>, k: nat, m: nat)
    requires Legal(cfg, trace) && Chosen(chosen, |trace|) && |asleep| == |chosen| && k < m < |chosen|
    requires GestureOf(trace, chosen[k] + 1) == GestureOf(trace, chosen[m] + 1)
    requires ResultAt(ChosenArrivals(trace, chosen, asleep), k).woke
    ensures ResultAt(ChosenArrivals(trace, chosen, asleep), m).consumed
  {
    GestureGrows(trace, chosen[k] + 1, chosen[m] + 1);
    OneButton(cfg, trace);
    var arrivals := ChosenArrivals(trace, chosen, asleep);
    forall j | k < j <= m
      ensures !IsFresh(arrivals[j].event)
    {
      assert chosen[k] < chosen[j] <= chosen[m];
      assert !IsFresh(trace[chosen[j]]);
    }
    LatchHolds(arrivals, k, m);
  }

  /** For any of the events of one button in any run, whichever of them reach the latch: none of the gesture
      during which the button woke the display passes it; and a click event reports exactly the presses of
      its own gesture, so the presses joined to the waking one go unreported with it. */
  lemma WholeGestureIsConsumed(cfg: Config, level: Level, inputs: seq<Input>, chosen: seq<nat>, asleep: seq<bool>, k: nat, m: nat)
    requires !LevelIsPressed(cfg, level) && Clocked(inputs)
    requires Chosen(chosen, |Exec(cfg, Created(level), inputs).events|) && |asleep| == |chosen| && k < m < |chosen|
    requires var trace := Exec(cfg, Created(level), inputs).events;
             && GestureOf(trace, chosen[k] + 1) == GestureOf(trace, chosen[m] + 1)
             && ResultAt(ChosenArrivals(trace, chosen, asleep), k).woke
    ensures var trace := Exec(cfg, Created(level), inputs).events;
            && ResultAt(ChosenArrivals(trace, chosen, asleep), m).consumed
            && (cfg.multiClick && IsClick(trace[chosen[m]].kind) ==>
                  trace[chosen[m]].clicks == Cap(PressesSince(trace, chosen[m])) && PressesSince(trace, chosen[m]) > 0)
  {
    var trace := Exec(cfg, Created(level), inputs).events;
    RunIsSound(cfg, level, inputs);
    ChosenGestureIsConsumed(cfg, trace, chosen, asleep, k, m);
    if cfg.multiClick && IsClick(trace[chosen[m]].kind) {
      ClickReportsItsGesture(cfg, trace, chosen[m]);
    }
  }

  lemma OneButton(cfg: Config, trace: seq<Event>)
    requires Legal(cfg, trace)
    ensures forall i :: 0 <= i < |trace| ==> trace[i].button == cfg.id
  {
    forall i | 0 <= i < |trace|
      ensures trace[i].button == cfg.id
    {
      LegalAt(cfg, trace, i);
    }
  }

  /** The PRESS events from the last fresh one on, before event `n`. */
  function PressesSince(trace: seq<Event>, n: nat): nat
    requires n <= |trace|
  {
    if n == 0 then 0
    else if IsFresh(trace[n - 1]) then 1
    else PressesSince(trace, n - 1) + (if trace[n - 1].kind.Press? then 1 else 0)
  }

  lemma {:induction false} GestureCountsPresses(cfg: Config, trace: seq<Event>, n: nat)
    requires Legal(cfg, trace) && n <= |trace|
    ensures Account(trace[..n]).gesture == PressesSince(trace, n)
    decreases n
  {
    if n > 0 {
      GestureCountsPresses(cfg, trace, n - 1);
      assert trace[..n][..n - 1] == trace[..n - 1];
    }
  }
}
