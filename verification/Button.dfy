/** One debounced button: the per-poll step of the shared button task, and the class that
    performs it field by field. Times are microseconds since boot. */
module Button {

  const MAX_CLICK_COUNT := 5
  const REPEAT_ACCELERATION_START_MS := 3000
  const UINT32_MAX := 0xFFFF_FFFF

  datatype ButtonId = Power | Enter | Up | Down | Back

  datatype Config = Config(
    id: ButtonId,
    debounceMs: nat,
    longPressMs: nat,
    doubleClickMs: nat,
    holdRepeatMs: nat,
    activeLow: bool,
    multiClick: bool)

  /** button_controller_validate_config. */
  predicate ValidConfig(cfg: Config) {
    && 0 < cfg.debounceMs <= 1000 && 0 < cfg.longPressMs <= 30000
    && 0 < cfg.doubleClickMs <= 5000 && cfg.holdRepeatMs <= 5000
  }

  datatype EventKind = Press | Click | DoubleClick | TripleClick | MultiClick | Release | LongPress | Repeat

  datatype Event = Event(kind: EventKind, button: ButtonId, clicks: nat, at: int, durationMs: nat)

  type Level = l: int | l == 0 || l == 1

  /** The controller's fields that events depend on. */
  datatype State = State(
    isPressed: bool,
    rawLevel: Level,
    stableLevel: Level,
    lastEdge: int,
    pressStart: int,
    lastRelease: int,
    lastClickMs: nat,
    repeatCount: nat,
    clickCount: nat,
    longTriggered: bool)

  datatype Edge = NoEdge | Edge(level: Level, at: int)

  /** What one turn of the task sees: an edge from the interrupt queue, the sampled pin, the clock. */
  datatype Input = Input(edge: Edge, sampled: Level, now: int)

  datatype Output = Output(state: State, events: seq<Event>)

  /** reset_controller followed by the sampling of the pin in button_controller_create. */
  function Created(level: Level): State {
    State(false, level, level, 0, 0, 0, 0, 0, 0, false)
  }

  predicate LevelIsPressed(cfg: Config, level: Level) {
    if cfg.activeLow then level == 0 else level != 0
  }

  function ElapsedMs(now: int, start: int): (ms: nat)
    ensures ms <= UINT32_MAX
  {
    if start <= 0 || now <= start then 0
    else if (now - start) / 1000 > UINT32_MAX then UINT32_MAX else (now - start) / 1000
  }

  function Cap(n: nat): nat {
    if n < MAX_CLICK_COUNT then n else MAX_CLICK_COUNT
  }

  function ClickKind(clicks: nat): EventKind {
    match clicks
    case 1 => Click
    case 2 => DoubleClick
    case 3 => TripleClick
    case _ => MultiClick
  }

  function Finalize(cfg: Config, s: State, now: int): Output {
    if s.clickCount == 0 || s.lastRelease <= 0 || ElapsedMs(now, s.lastRelease) < cfg.doubleClickMs
    then Output(s, [])
    else Output(s.(clickCount := 0), [Event(ClickKind(s.clickCount), cfg.id, s.clickCount, now, s.lastClickMs)])
  }

  predicate Accelerates(cfg: Config, heldMs: nat) {
    (cfg.id.Up? || cfg.id.Down?) && heldMs >= REPEAT_ACCELERATION_START_MS
  }

  /** Holding up or down for three seconds halves a period above 50 ms, and makes any other 50 ms. */
  function RepeatPeriod(cfg: Config, heldMs: nat): (p: nat)
    ensures cfg.holdRepeatMs > 0 ==> p > 0
    ensures !Accelerates(cfg, heldMs) ==> p == cfg.holdRepeatMs
    ensures Accelerates(cfg, heldMs) ==> if cfg.holdRepeatMs > 50 then cfg.holdRepeatMs - 1 <= 2 * p <= cfg.holdRepeatMs else p == 50
  {
    if Accelerates(cfg, heldMs)
    then (if cfg.holdRepeatMs > 50 then cfg.holdRepeatMs / 2 else 50)
    else cfg.holdRepeatMs
  }

  function LongPressStep(cfg: Config, s: State, now: int): Output {
    var heldMs := ElapsedMs(now, s.pressStart);
    if !s.longTriggered && heldMs >= cfg.longPressMs
    then Output(s.(longTriggered := true, clickCount := 0), [Event(LongPress, cfg.id, 0, now, heldMs)])
    else Output(s, [])
  }

  function RepeatStep(cfg: Config, s: State, now: int): Output {
    var heldMs := ElapsedMs(now, s.pressStart);
    if !s.longTriggered || cfg.holdRepeatMs == 0 then Output(s, [])
    else
      var period := RepeatPeriod(cfg, heldMs);
      var first := cfg.longPressMs + period;
      if heldMs >= first && (heldMs - first) / period >= s.repeatCount
      then Output(s.(repeatCount := (heldMs - first) / period + 1), [Event(Repeat, cfg.id, 0, now, heldMs)])
      else Output(s, [])
  }

  function Then(a: Output, b: Output): Output {
    Output(b.state, a.events + b.events)
  }

  function Deadlines(cfg: Config, s: State, now: int): Output {
    if s.isPressed then
      var long := LongPressStep(cfg, s, now);
      Then(long, RepeatStep(cfg, long.state, now))
    else Finalize(cfg, s, now)
  }

  function PressAccepted(cfg: Config, s: State, level: Level, now: int): Output {
    var clicks := if s.lastRelease > 0 && ElapsedMs(now, s.lastRelease) > cfg.doubleClickMs then 0 else s.clickCount;
    Output(s.(isPressed := true, stableLevel := level, clickCount := clicks, pressStart := now,
              repeatCount := 0, longTriggered := false),
           [Event(Press, cfg.id, clicks, now, 0)])
  }

  function ReleaseAccepted(cfg: Config, s: State, level: Level, now: int): Output {
    var ms := ElapsedMs(now, s.pressStart);
    var r := s.(isPressed := false, stableLevel := level, lastRelease := now, lastClickMs := ms);
    if s.longTriggered then
      Output(r.(clickCount := 0), [Event(Release, cfg.id, 0, now, ms)])
    else if cfg.multiClick then
      var clicks := if s.clickCount < MAX_CLICK_COUNT then s.clickCount + 1 else MAX_CLICK_COUNT;
      Output(r.(clickCount := clicks), [Event(Release, cfg.id, clicks, now, ms)])
    else
      Output(r.(clickCount := 0), [Event(Click, cfg.id, 1, now, ms), Event(Release, cfg.id, 0, now, ms)])
  }

  function StableLevel(cfg: Config, s: State, level: Level, now: int): Output {
    if LevelIsPressed(cfg, level) == s.isPressed then Output(s, [])
    else if LevelIsPressed(cfg, level) then PressAccepted(cfg, s, level, now)
    else ReleaseAccepted(cfg, s, level, now)
  }

  function Observe(s: State, level: Level, at: int): State {
    if level == s.rawLevel then s else s.(rawLevel := level, lastEdge := at)
  }

  /** The raw level after a queued edge and after reconciling it with the sampled pin. */
  function Seen(s: State, input: Input): State {
    Observe(if input.edge.NoEdge? then s else Observe(s, input.edge.level, input.edge.at), input.sampled, input.now)
  }

  function Settle(cfg: Config, s: State, now: int): Output {
    if s.rawLevel != s.stableLevel && ElapsedMs(now, s.lastEdge) >= cfg.debounceMs
    then StableLevel(cfg, s, s.rawLevel, now)
    else Output(s, [])
  }

  /** One turn of button_task for one running button. */
  function Poll(cfg: Config, s: State, input: Input): Output {
    var settled := Settle(cfg, Seen(s, input), input.now);
    Then(settled, Deadlines(cfg, settled.state, input.now))
  }

  // ---------------------------------------------------------------- the controller object

  class Controller {
    const config: Config
    var isPressed: bool
    var rawLevel: Level
    var stableLevel: Level
    var lastEdge: int
    var pressStart: int
    var lastRelease: int
    var lastClickMs: nat
    var repeatCount: nat
    var clickCount: nat
    var longTriggered: bool
    /** Everything handed to the event callback, oldest first. */
    var emitted: seq<Event>

    function Snapshot(): State
      reads this
    {
      State(isPressed, rawLevel, stableLevel, lastEdge, pressStart, lastRelease, lastClickMs,
            repeatCount, clickCount, longTriggered)
    }

    /** button_controller_create with the pin at `level`, then button_controller_start. */
    constructor (cfg: Config, level: Level)
      requires ValidConfig(cfg)
      ensures config == cfg && Snapshot() == Created(level) && emitted == []
    {
      config := cfg;
      isPressed, rawLevel, stableLevel := false, level, level;
      lastEdge, pressStart, lastRelease, lastClickMs := 0, 0, 0, 0;
      repeatCount, clickCount, longTriggered, emitted := 0, 0, false, [];
    }

    method EmitEvent(kind: EventKind, now: int, durationMs: nat, clicks: nat)
      modifies this`emitted
      ensures emitted == old(emitted) + [Event(kind, config.id, clicks, now, durationMs)]
    {
      emitted := emitted + [Event(kind, config.id, clicks, now, durationMs)];
    }

    method FinalizeClicks(now: int)
      modifies this
      ensures Output(Snapshot(), emitted) == Then(Output(old(Snapshot()), old(emitted)), Finalize(config, old(Snapshot()), now))
    {
      if clickCount == 0 || lastRelease <= 0 {
        return;
      }
      if ElapsedMs(now, lastRelease) < config.doubleClickMs {
        return;
      }
      EmitEvent(ClickKind(clickCount), now, lastClickMs, clickCount);
      clickCount := 0;
    }

    method ProcessDeadlines(now: int)
      modifies this
      ensures Output(Snapshot(), emitted) == Then(Output(old(Snapshot()), old(emitted)), Deadlines(config, old(Snapshot()), now))
    {
      if isPressed {
        var heldMs := ElapsedMs(now, pressStart);
        if !longTriggered && heldMs >= config.longPressMs {
          longTriggered := true;
          clickCount := 0;
          EmitEvent(LongPress, now, heldMs, 0);
        }
        if longTriggered && config.holdRepeatMs > 0 {
          var repeatMs := RepeatPeriod(config, heldMs);
          var firstRepeatMs := config.longPressMs + repeatMs;
          if heldMs >= firstRepeatMs {
            var repeatsElapsed := (heldMs - firstRepeatMs) / repeatMs;
            if repeatsElapsed >= repeatCount {
              repeatCount := repeatsElapsed + 1;
              EmitEvent(Repeat, now, heldMs, 0);
            }
          }
        }
      } else {
        FinalizeClicks(now);
      }
    }

    method ProcessStableLevel(level: Level, now: int)
      modifies this
      ensures Output(Snapshot(), emitted) == Then(Output(old(Snapshot()), old(emitted)), StableLevel(config, old(Snapshot()), level, now))
    {
      var pressed := LevelIsPressed(config, level);
      if pressed == isPressed {
        return;
      }
      isPressed := pressed;
      stableLevel := level;
      if pressed {
        if lastRelease > 0 && ElapsedMs(now, lastRelease) > config.doubleClickMs {
          clickCount := 0;
        }
        pressStart := now;
        repeatCount := 0;
        longTriggered := false;
        EmitEvent(Press, now, 0, clickCount);
      } else {
        var durationMs := ElapsedMs(now, pressStart);
        lastRelease := now;
        lastClickMs := durationMs;
        if longTriggered {
          clickCount := 0;
        } else {
          clickCount := if clickCount < MAX_CLICK_COUNT then clickCount + 1 else MAX_CLICK_COUNT;
          if !config.multiClick {
            EmitEvent(Click, now, durationMs, 1);
            clickCount := 0;
          }
        }
        EmitEvent(Release, now, durationMs, clickCount);
      }
    }

    method ObserveLevels(input: Input)
      modifies this
      ensures Snapshot() == Seen(old(Snapshot()), input) && emitted == old(emitted)
    {
      if input.edge.Edge? && rawLevel != input.edge.level {
        rawLevel := input.edge.level;
        lastEdge := input.edge.at;
      }
      if input.sampled != rawLevel {
        rawLevel := input.sampled;
        lastEdge := input.now;
      }
    }

    method Debounce(now: int)
      modifies this
      ensures Output(Snapshot(), emitted) == Then(Output(old(Snapshot()), old(emitted)), Settle(config, old(Snapshot()), now))
    {
      if rawLevel != stableLevel && ElapsedMs(now, lastEdge) >= config.debounceMs {
        ProcessStableLevel(rawLevel, now);
      }
    }

    /** The per-button part of one turn of button_task. */
    method Turn(input: Input)
      modifies this
      ensures Snapshot() == Poll(config, old(Snapshot()), input).state
      ensures emitted == old(emitted) + Poll(config, old(Snapshot()), input).events
    {
      ObserveLevels(input);
      ghost var seen := Snapshot();
      Debounce(input.now);
      ghost var settled := Settle(config, seen, input.now);
      assert Snapshot() == settled.state && emitted == old(emitted) + settled.events;
      ProcessDeadlines(input.now);
      ghost var due := Deadlines(config, settled.state, input.now);
      assert emitted == (old(emitted) + settled.events) + due.events;
      assert (old(emitted) + settled.events) + due.events == old(emitted) + (settled.events + due.events);
    }
  }
}
