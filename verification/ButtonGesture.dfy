/** What a whole run of one button emits: an account kept from the event trace alone, and the
    proof that every trace the button task can produce balances it. */
module ButtonGesture {
  import opened Button

  // ---------------------------------------------------------------- runs

  /** The clock runs forward from a positive start. */
  predicate Clocked(inputs: seq<Input>) {
    forall i :: 0 <= i < |inputs| ==> 0 < inputs[i].now && (i > 0 ==> inputs[i - 1].now <= inputs[i].now)
  }

  function Exec(cfg: Config, s: State, inputs: seq<Input>): Output
    decreases |inputs|
  {
    if |inputs| == 0 then Output(s, [])
    else
      var before := Exec(cfg, s, inputs[..|inputs| - 1]);
      Then(before, Poll(cfg, before.state, inputs[|inputs| - 1]))
  }

  /** The loop of button_task, as seen by one button over `inputs`. */
  method ButtonTask(c: Controller, inputs: seq<Input>)
    modifies c
    ensures c.Snapshot() == Exec(c.config, old(c.Snapshot()), inputs).state
    ensures c.emitted == old(c.emitted) + Exec(c.config, old(c.Snapshot()), inputs).events
  {
    ghost var start, before := c.Snapshot(), c.emitted;
    ghost var done := Output(start, []);
    var i := 0;
    while i < |inputs|
      invariant 0 <= i <= |inputs|
      invariant done == Exec(c.config, start, inputs[..i])
      invariant c.Snapshot() == done.state && c.emitted == before + done.events
    {
      ghost var turn := Poll(c.config, done.state, inputs[i]);
      c.Turn(inputs[i]);
      ExecStep(c.config, start, inputs, i);
      done := Appended(done, turn, before);
      i := i + 1;
    }
    assert inputs[..|inputs|] == inputs;
  }

  ghost function Appended(a: Output, b: Output, before: seq<Event>): (r: Output)
    ensures r == Then(a, b) && before + r.events == before + a.events + b.events
  {
    assert before + (a.events + b.events) == before + a.events + b.events;
    Then(a, b)
  }

  lemma ExecStep(cfg: Config, s: State, inputs: seq<Input>, i: nat)
    requires i < |inputs|
    ensures var before := Exec(cfg, s, inputs[..i]);
            Exec(cfg, s, inputs[..i + 1]) == Then(before, Poll(cfg, before.state, inputs[i]))
  {
    assert inputs[..i + 1][..i] == inputs[..i];
  }

  // ---------------------------------------------------------------- the account

  /** Where the button is in its press: `Reported` is the moment between the CLICK and the
      RELEASE of a button without multi-click. */
  datatype Phase = Idle | Held | HeldLong | Reported

  /** `lastHeldMs` is how long the press before was held, and `repeatedAt` how long this one had been held at
      its last REPEAT, 0 before it. Presses sorted by their fate: `chain` counts short presses awaiting a click event;
      `lostLate` chains a late press discarded, `lostLong` chains a long press discarded. */
  datatype Ledger = Ledger(
    phase: Phase,
    chain: nat,
    repeats: nat,
    repeatedAt: nat,
    gesture: nat,
    pressedAt: int,
    releasedAt: int,
    lastHeldMs: nat,
    presses: nat,
    longs: nat,
    reported: nat,
    lostLate: nat,
    lostLong: nat)

  const OPENING := Ledger(Idle, 0, 0, 0, 0, 0, 0, 0, 0, 0, 0, 0, 0)

  predicate IsClick(kind: EventKind) {
    kind.Click? || kind.DoubleClick? || kind.TripleClick? || kind.MultiClick?
  }

  /** A press that starts a new gesture. */
  predicate IsFresh(e: Event) { e.kind.Press? && e.clicks == 0 }

  /** Booking one event, from the event alone. */
  function Book(l: Ledger, e: Event): Ledger {
    match e.kind
    case Press =>
      if IsFresh(e) then l.(phase := Held, repeats := 0, repeatedAt := 0, presses := l.presses + 1, gesture := 1,
                            pressedAt := e.at, chain := 0, lostLate := l.lostLate + l.chain)
      else l.(phase := Held, repeats := 0, repeatedAt := 0, presses := l.presses + 1, gesture := l.gesture + 1, pressedAt := e.at)
    case LongPress => l.(phase := HeldLong, longs := l.longs + 1, chain := 0, lostLong := l.lostLong + l.chain)
    case Repeat => l.(repeats := l.repeats + 1, repeatedAt := e.durationMs)
    case Release => l.(phase := Idle, chain := l.chain + (if l.phase.Held? then 1 else 0), releasedAt := e.at,
                            lastHeldMs := e.durationMs)
    case _ =>
      if l.phase.Held? then l.(phase := Reported, reported := l.reported + 1)
      else l.(chain := 0, reported := l.reported + l.chain)
  }

  function Account(trace: seq<Event>): Ledger
    decreases |trace|
  {
    if |trace| == 0 then OPENING else Book(Account(trace[..|trace| - 1]), trace[|trace| - 1])
  }

  /** The shortest repeat period in use up to a hold of `heldMs`. */
  function ShortestPeriod(cfg: Config, heldMs: nat): nat {
    if RepeatPeriod(cfg, heldMs) < cfg.holdRepeatMs then RepeatPeriod(cfg, heldMs) else cfg.holdRepeatMs
  }

  /** How many whole repeat periods a hold of `heldMs` has lasted beyond the long press. */
  function Due(cfg: Config, heldMs: nat): nat {
    if cfg.holdRepeatMs == 0 || heldMs < cfg.longPressMs then 0 else (heldMs - cfg.longPressMs) / RepeatPeriod(cfg, heldMs)
  }

  /** The event's duration is the time since the PRESS it belongs to. */
  predicate HeldTime(l: Ledger, e: Event) { e.durationMs == ElapsedMs(e.at, l.pressedAt) }

  /** When an event may follow a trace with this account, and what it must carry. */
  predicate Admissible(cfg: Config, l: Ledger, e: Event) {
    e.button == cfg.id &&
    match e.kind
    case Press =>
      // a press joins the pending chain exactly when it comes within the double-click window
      && l.phase.Idle? && e.durationMs == 0
      && (l.chain > 0 ==> (IsFresh(e) <==> ElapsedMs(e.at, l.releasedAt) > cfg.doubleClickMs))
      && (!IsFresh(e) ==> cfg.multiClick && l.chain > 0 && e.clicks == Cap(l.chain))
    case LongPress => l.phase.Held? && HeldTime(l, e) && e.durationMs >= cfg.longPressMs && e.clicks == 0
    case Repeat =>
      && l.phase.HeldLong? && HeldTime(l, e) && cfg.holdRepeatMs > 0 && e.clicks == 0 && e.durationMs >= cfg.longPressMs
      // at most floor((held - long press) / period) repeats so far
      && (l.repeats + 1) * ShortestPeriod(cfg, e.durationMs) <= e.durationMs - cfg.longPressMs
    case Release =>
      && !l.phase.Idle? && HeldTime(l, e)
      && (cfg.multiClick ==> e.clicks == if l.phase.Held? then Cap(l.chain + 1) else 0)
      && (!cfg.multiClick ==> !l.phase.Held? && e.clicks == 0)
    case _ =>
      if cfg.multiClick
      then // one click event for the whole chain, its length capped, once the window has closed
        && l.phase.Idle? && l.chain > 0 && e.clicks == Cap(l.chain) && e.kind == ClickKind(e.clicks)
        && ElapsedMs(e.at, l.releasedAt) >= cfg.doubleClickMs && e.durationMs == l.lastHeldMs
      else l.phase.Held? && HeldTime(l, e) && e.kind.Click? && e.clicks == 1
  }

  predicate Legal(cfg: Config, trace: seq<Event>)
    decreases |trace|
  {
    |trace| > 0 ==>
      Legal(cfg, trace[..|trace| - 1]) && Admissible(cfg, Account(trace[..|trace| - 1]), trace[|trace| - 1])
  }

  // ---------------------------------------------------------------- the invariant of a run

  /** The controller's fields mirror the account of what it has emitted. */
  predicate Mirrors(cfg: Config, s: State, l: Ledger) {
    && (s.isPressed <==> LevelIsPressed(cfg, s.stableLevel))
    && !l.phase.Reported? && (s.isPressed <==> !l.phase.Idle?)
    && (s.isPressed ==> s.pressStart == l.pressedAt && (s.longTriggered <==> l.phase.HeldLong?))
    && s.clickCount == Cap(l.chain) && (!cfg.multiClick ==> l.chain == 0)
    && (l.phase.HeldLong? ==> l.chain == 0)
    && (l.chain > 0 ==> s.lastRelease > 0 && s.lastRelease == l.releasedAt && s.lastClickMs == l.lastHeldMs)
    && l.repeats <= s.repeatCount && (s.isPressed ==> s.repeatCount == Due(cfg, l.repeatedAt))
    && (l.chain > 0 || l.phase.Held? ==> l.gesture == l.chain + (if l.phase.Held? then 1 else 0))
  }

  /** At the last poll no pending chain has outlived its window, and no hold its long-press time. */
  predicate Settled(cfg: Config, s: State, now: int) {
    && (!s.isPressed && s.clickCount > 0 ==> ElapsedMs(now, s.lastRelease) < cfg.doubleClickMs)
    && (s.isPressed && !s.longTriggered ==> ElapsedMs(now, s.pressStart) < cfg.longPressMs)
  }

  predicate Sound(cfg: Config, s: State, trace: seq<Event>) {
    Legal(cfg, trace) && Mirrors(cfg, s, Account(trace))
  }

  lemma LegalExtends(cfg: Config, trace: seq<Event>, e: Event)
    requires Legal(cfg, trace) && Admissible(cfg, Account(trace), e)
    ensures Legal(cfg, trace + [e]) && Account(trace + [e]) == Book(Account(trace), e)
  {
    assert (trace + [e])[..|trace|] == trace;
  }

  lemma PressSound(cfg: Config, s: State, trace: seq<Event>, level: Level, now: int)
    requires Sound(cfg, s, trace) && !s.isPressed && LevelIsPressed(cfg, level) && now > 0
    ensures var o := PressAccepted(cfg, s, level, now); Sound(cfg, o.state, trace + o.events)
  {
    LegalExtends(cfg, trace, PressAccepted(cfg, s, level, now).events[0]);
  }

  lemma ReleaseSound(cfg: Config, s: State, trace: seq<Event>, level: Level, now: int)
    requires Sound(cfg, s, trace) && s.isPressed && !LevelIsPressed(cfg, level) && now > 0
    ensures var o := ReleaseAccepted(cfg, s, level, now); Sound(cfg, o.state, trace + o.events)
  {
    var o := ReleaseAccepted(cfg, s, level, now);
    LegalExtends(cfg, trace, o.events[0]);
    if |o.events| == 2 {
      LegalExtends(cfg, trace + [o.events[0]], o.events[1]);
      assert trace + o.events == trace + [o.events[0]] + [o.events[1]];
    } else {
      assert trace + o.events == trace + [o.events[0]];
    }
  }

  lemma SettleSound(cfg: Config, s: State, trace: seq<Event>, now: int)
    requires Sound(cfg, s, trace) && now > 0
    ensures var o := Settle(cfg, s, now); Sound(cfg, o.state, trace + o.events)
  {
    var o := Settle(cfg, s, now);
    if o.events == [] {
      assert trace + [] == trace;
    } else if LevelIsPressed(cfg, s.rawLevel) {
      PressSound(cfg, s, trace, s.rawLevel, now);
    } else {
      ReleaseSound(cfg, s, trace, s.rawLevel, now);
    }
  }

  lemma LongPressSound(cfg: Config, s: State, trace: seq<Event>, now: int)
    requires Sound(cfg, s, trace) && s.isPressed
    ensures var o := LongPressStep(cfg, s, now); Sound(cfg, o.state, trace + o.events) && o.state.isPressed
  {
    var o := LongPressStep(cfg, s, now);
    if o.events == [] {
      assert trace + [] == trace;
    } else {
      LegalExtends(cfg, trace, o.events[0]);
    }
  }

  lemma ProductGrows(x: nat, y: nat, z: nat)
    requires x <= y
    ensures x * z <= y * z
  {
  }

  /** `count` periods fit into `over`, so fewer repeats of a shorter period do. */
  lemma BudgetHolds(n: nat, r: nat, count: nat, period: nat, over: nat)
    requires 0 < period && period <= over && (over - period) / period + 1 == count && n <= count && r <= period
    ensures n * r <= over
  {
    assert (over - period) / period * period <= over - period;
    assert count * period == (over - period) / period * period + period;
    ProductGrows(r, period, n);
    ProductGrows(n, count, period);
    assert n * r == r * n && n * period == period * n;
  }

  lemma QuotientIs(x: nat, period: nat, q: nat)
    requires period > 0 && q * period <= x < q * period + period
    ensures x / period == q
  {
    var d := x / period;
    assert x == d * period + x % period;
    if d < q {
      ProductGrows(d + 1, q, period);
    } else if q < d {
      ProductGrows(q + 1, d, period);
    }
  }

  lemma OnePeriodLess(x: nat, period: nat)
    requires period > 0
    ensures x / period == if x < period then 0 else (x - period) / period + 1
  {
    if x < period {
      QuotientIs(x, period, 0);
    } else {
      var q := (x - period) / period;
      assert x - period == q * period + (x - period) % period;
      assert (q + 1) * period == q * period + period;
      QuotientIs(x, period, q + 1);
    }
  }

  /** A held button repeats exactly when more periods are due than at the last repeat. */
  lemma RepeatsWhenDue(cfg: Config, s: State, now: int)
    ensures var o, heldMs := RepeatStep(cfg, s, now), ElapsedMs(now, s.pressStart);
            if s.longTriggered && cfg.holdRepeatMs > 0 && Due(cfg, heldMs) > s.repeatCount
            then o.state == s.(repeatCount := Due(cfg, heldMs)) && o.events == [Event(Repeat, cfg.id, 0, now, heldMs)]
            else o == Output(s, [])
  {
    var heldMs := ElapsedMs(now, s.pressStart);
    if cfg.holdRepeatMs > 0 && heldMs >= cfg.longPressMs {
      OnePeriodLess(heldMs - cfg.longPressMs, RepeatPeriod(cfg, heldMs));
    }
  }

  lemma RepeatSound(cfg: Config, s: State, trace: seq<Event>, now: int)
    requires Sound(cfg, s, trace) && s.isPressed
    ensures var o := RepeatStep(cfg, s, now); Sound(cfg, o.state, trace + o.events) && o.state.isPressed
  {
    var o := RepeatStep(cfg, s, now);
    if o.events == [] {
      assert trace + [] == trace;
    } else {
      var heldMs := ElapsedMs(now, s.pressStart);
      RepeatsWhenDue(cfg, s, now);
      BudgetHolds(Account(trace).repeats + 1, ShortestPeriod(cfg, heldMs), o.state.repeatCount,
                  RepeatPeriod(cfg, heldMs), heldMs - cfg.longPressMs);
      RepeatAdmissible(cfg, s, Account(trace), now);
      LegalExtends(cfg, trace, o.events[0]);
    }
  }

  lemma RepeatAdmissible(cfg: Config, s: State, l: Ledger, now: int)
    requires Mirrors(cfg, s, l) && s.isPressed && RepeatStep(cfg, s, now).events != []
    requires (l.repeats + 1) * ShortestPeriod(cfg, ElapsedMs(now, s.pressStart)) <= ElapsedMs(now, s.pressStart) - cfg.longPressMs
    ensures var o := RepeatStep(cfg, s, now);
            Admissible(cfg, l, o.events[0]) && Mirrors(cfg, o.state, Book(l, o.events[0]))
  {
    RepeatsWhenDue(cfg, s, now);
  }

  lemma FinalizeSound(cfg: Config, s: State, trace: seq<Event>, now: int)
    requires Sound(cfg, s, trace) && !s.isPressed
    ensures var o := Finalize(cfg, s, now); Sound(cfg, o.state, trace + o.events) && Settled(cfg, o.state, now)
  {
    var o := Finalize(cfg, s, now);
    if o.events == [] {
      assert trace + [] == trace;
    } else {
      LegalExtends(cfg, trace, o.events[0]);
    }
  }

  lemma DeadlinesSound(cfg: Config, s: State, trace: seq<Event>, now: int)
    requires Sound(cfg, s, trace)
    ensures var o := Deadlines(cfg, s, now); Sound(cfg, o.state, trace + o.events) && Settled(cfg, o.state, now)
  {
    if s.isPressed {
      LongPressSound(cfg, s, trace, now);
      var long := LongPressStep(cfg, s, now);
      RepeatSound(cfg, long.state, trace + long.events, now);
      var o := Deadlines(cfg, s, now);
      assert trace + o.events == trace + long.events + RepeatStep(cfg, long.state, now).events;
    } else {
      FinalizeSound(cfg, s, trace, now);
    }
  }

  lemma SeenSound(cfg: Config, s: State, trace: seq<Event>, input: Input)
    requires Sound(cfg, s, trace)
    ensures Sound(cfg, Seen(s, input), trace)
  {
  }

  lemma PollSplits(cfg: Config, s: State, trace: seq<Event>, input: Input)
    ensures var settled := Settle(cfg, Seen(s, input), input.now);
            var due := Deadlines(cfg, settled.state, input.now);
            Poll(cfg, s, input).state == due.state && trace + Poll(cfg, s, input).events == trace + settled.events + due.events
  {
    var settled := Settle(cfg, Seen(s, input), input.now);
    assert Poll(cfg, s, input) == Then(settled, Deadlines(cfg, settled.state, input.now));
  }

  lemma PollSound(cfg: Config, s: State, trace: seq<Event>, input: Input)
    requires Sound(cfg, s, trace) && input.now > 0
    ensures Sound(cfg, Poll(cfg, s, input).state, trace + Poll(cfg, s, input).events)
    ensures Settled(cfg, Poll(cfg, s, input).state, input.now)
  {
    SeenSound(cfg, s, trace, input);
    SettleSound(cfg, Seen(s, input), trace, input.now);
    var settled := Settle(cfg, Seen(s, input), input.now);
    DeadlinesSound(cfg, settled.state, trace + settled.events, input.now);
    PollSplits(cfg, s, trace, input);
  }

  // ---------------------------------------------------------------- theorems over whole runs

  /** Every run from a button created released keeps `isPressed` equal to the debounced level and
      emits only admissible events: PRESS and RELEASE alternate, LONG_PRESS at most once a press,
      REPEAT only after it and within the repeat budget, clicks only for chains of short presses. */
  lemma {:induction false} RunIsSound(cfg: Config, level: Level, inputs: seq<Input>)
    requires !LevelIsPressed(cfg, level) && Clocked(inputs)
    ensures var o := Exec(cfg, Created(level), inputs);
            && Sound(cfg, o.state, o.events)
            && (|inputs| > 0 ==> Settled(cfg, o.state, inputs[|inputs| - 1].now))
    decreases |inputs|
  {
    if |inputs| > 0 {
      var front := inputs[..|inputs| - 1];
      RunIsSound(cfg, level, front);
      var before := Exec(cfg, Created(level), front);
      PollSound(cfg, before.state, before.events, inputs[|inputs| - 1]);
    }
  }

  /** The same, event by event and for the state between polls. */
  lemma EveryEventIsAdmissible(cfg: Config, level: Level, inputs: seq<Input>, i: nat)
    requires !LevelIsPressed(cfg, level) && Clocked(inputs)
    requires i < |Exec(cfg, Created(level), inputs).events|
    ensures var o := Exec(cfg, Created(level), inputs);
            && (o.state.isPressed <==> LevelIsPressed(cfg, o.state.stableLevel))
            && Admissible(cfg, Account(o.events[..i]), o.events[i])
  {
    RunIsSound(cfg, level, inputs);
    LegalAt(cfg, Exec(cfg, Created(level), inputs).events, i);
  }

  /** Every accepted press has exactly one fate: still held, long, pending in a chain, reported
      in a click event, or in one of the two discarded classes. */
  lemma {:induction false} PressesBalance(cfg: Config, trace: seq<Event>)
    requires Legal(cfg, trace)
    ensures var l := Account(trace);
            l.presses == (if l.phase.Held? then 1 else 0) + l.longs + l.chain + l.reported + l.lostLate + l.lostLong
    decreases |trace|
  {
    if |trace| > 0 {
      PressesBalance(cfg, trace[..|trace| - 1]);
    }
  }

  lemma {:induction false} LegalPrefix(cfg: Config, trace: seq<Event>, n: nat)
    requires Legal(cfg, trace) && n <= |trace|
    ensures Legal(cfg, trace[..n])
    decreases |trace|
  {
    if n < |trace| {
      LegalPrefix(cfg, trace[..|trace| - 1], n);
      assert trace[..|trace| - 1][..n] == trace[..n];
    } else {
      assert trace[..n] == trace;
    }
  }

  lemma LegalAt(cfg: Config, trace: seq<Event>, i: nat)
    requires Legal(cfg, trace) && i < |trace|
    ensures Legal(cfg, trace[..i]) && Admissible(cfg, Account(trace[..i]), trace[i])
  {
    LegalPrefix(cfg, trace, i + 1);
    assert trace[..i + 1][..i] == trace[..i];
  }

  /** Conservation and click lengths for the events of any run with multi-click on. */
  lemma EveryPressIsAccountedFor(cfg: Config, level: Level, inputs: seq<Input>)
    requires cfg.multiClick && !LevelIsPressed(cfg, level) && Clocked(inputs)
    ensures var o := Exec(cfg, Created(level), inputs); var l := Account(o.events);
            && l.presses == (if l.phase.Held? then 1 else 0) + l.longs + l.chain + l.reported + l.lostLate + l.lostLong
            && o.state.clickCount == Cap(l.chain)
            && (forall i :: 0 <= i < |o.events| && IsClick(o.events[i].kind) ==>
                  ReportsChain(Account(o.events[..i]), o.events[i]))
  {
    RunIsSound(cfg, level, inputs);
    var o := Exec(cfg, Created(level), inputs);
    PressesBalance(cfg, o.events);
    forall i | 0 <= i < |o.events| && IsClick(o.events[i].kind)
      ensures ReportsChain(Account(o.events[..i]), o.events[i])
    {
      ClickReportsChain(cfg, o.events, i);
    }
  }

  /** The click event carries the length of the unbroken chain before it, which is the whole gesture. */
  predicate ReportsChain(before: Ledger, e: Event) {
    && before.chain > 0 && before.chain == before.gesture
    && e.clicks == Cap(before.chain) && e.kind == ClickKind(Cap(before.chain))
  }

  lemma ClickReportsChain(cfg: Config, trace: seq<Event>, i: nat)
    requires cfg.multiClick && Legal(cfg, trace) && i < |trace| && IsClick(trace[i].kind)
    ensures ReportsChain(Account(trace[..i]), trace[i])
  {
    LegalAt(cfg, trace, i);
    ChainIsGesture(cfg, trace[..i]);
  }

  /** A pending chain consists of all the presses of its gesture. */
  lemma {:induction false} ChainIsGesture(cfg: Config, trace: seq<Event>)
    requires Legal(cfg, trace)
    ensures var l := Account(trace);
            && (l.chain > 0 || l.phase.Held? || l.phase.Reported? ==>
                  l.gesture == l.chain + (if l.phase.Held? || l.phase.Reported? then 1 else 0))
            && (l.phase.HeldLong? ==> l.chain == 0) && (l.phase.Reported? ==> l.chain == 0)
            && (!cfg.multiClick ==> l.chain == 0)
    decreases |trace|
  {
    if |trace| > 0 {
      ChainIsGesture(cfg, trace[..|trace| - 1]);
    }
  }

  /** A poll of a button with a pending chain reports a fresh press only once the window has closed. */
  lemma FreshPressIsLate(cfg: Config, s: State, input: Input, e: Event)
    requires s.clickCount > 0 && e in Poll(cfg, s, input).events && IsFresh(e)
    ensures !s.isPressed && cfg.doubleClickMs < ElapsedMs(input.now, s.lastRelease)
  {
    var settled := Settle(cfg, Seen(s, input), input.now);
    assert Poll(cfg, s, input) == Then(settled, Deadlines(cfg, settled.state, input.now));
    DeadlinesNeverPress(cfg, settled.state, input.now);
  }

  lemma DeadlinesNeverPress(cfg: Config, s: State, now: int)
    ensures forall e :: e in Deadlines(cfg, s, now).events ==> !e.kind.Press?
  {
  }

  /** A chain is only ever discarded as late by the first poll that sees its window closed. */
  lemma LateDiscardNeedsAGap(cfg: Config, level: Level, inputs: seq<Input>, input: Input, e: Event)
    requires !LevelIsPressed(cfg, level) && Clocked(inputs) && |inputs| > 0
    requires var o := Exec(cfg, Created(level), inputs);
             Account(o.events).chain > 0 && e in Poll(cfg, o.state, input).events && IsFresh(e)
    ensures var s := Exec(cfg, Created(level), inputs).state;
            ElapsedMs(inputs[|inputs| - 1].now, s.lastRelease) < cfg.doubleClickMs < ElapsedMs(input.now, s.lastRelease)
  {
    RunIsSound(cfg, level, inputs);
    FreshPressIsLate(cfg, Exec(cfg, Created(level), inputs).state, input, e);
  }

  /** A button created while held never emits anything, whatever happens to it. */
  lemma {:induction false} CreatedHeldIsDeaf(cfg: Config, level: Level, inputs: seq<Input>)
    requires LevelIsPressed(cfg, level)
    ensures var o := Exec(cfg, Created(level), inputs);
            o.events == [] && !o.state.isPressed && o.state.stableLevel == level && o.state.clickCount == 0
    decreases |inputs|
  {
    if |inputs| > 0 {
      CreatedHeldIsDeaf(cfg, level, inputs[..|inputs| - 1]);
    }
  }

  /** A button can ever report anything exactly when it was created released. */
  lemma WorksExactlyWhenCreatedReleased(cfg: Config, level: Level)
    requires ValidConfig(cfg)
    ensures (exists inputs :: Clocked(inputs) && Exec(cfg, Created(level), inputs).events != [])
            <==> !LevelIsPressed(cfg, level)
  {
    if LevelIsPressed(cfg, level) {
      forall inputs: seq<Input>
        ensures Exec(cfg, Created(level), inputs).events == []
      {
        CreatedHeldIsDeaf(cfg, level, inputs);
      }
    } else {
      var down: Level := 1 - level;
      var first, second := Input(NoEdge, down, 1), Input(NoEdge, down, 1_000_001);
      var s := Created(level);
      var once := Exec(cfg, s, [first]);
      assert [first][..0] == [];
      assert Exec(cfg, s, []) == Output(s, []);
      assert once == Then(Output(s, []), Poll(cfg, s, first));
      assert once.state == s.(rawLevel := down, lastEdge := 1);
      assert [first, second][..1] == [first];
      assert Exec(cfg, s, [first, second]) == Then(once, Poll(cfg, once.state, second));
      assert ElapsedMs(1_000_001, 1) == 1000;
      assert Settle(cfg, once.state, 1_000_001).events != [];
      assert Clocked([first, second]);
    }
  }
}
