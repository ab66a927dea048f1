/** What a button must emit and when: every poll of any run, told from its inputs and the events so far. */
module ButtonDue {
  import opened Button
  import opened ButtonGesture

  // ---------------------------------------------------------------- the levels a run has seen

  datatype Sight = Sight(level: Level, at: int)

  /** The pin levels in the order the task learns of them: a queued edge with its own time stamp, then the
      sampled pin at the time of the poll. */
  function Sights(inputs: seq<Input>): seq<Sight>
    decreases |inputs|
  {
    if |inputs| == 0 then []
    else
      var last := inputs[|inputs| - 1];
      var before := Sights(inputs[..|inputs| - 1]);
      (if last.edge.Edge? then before + [Sight(last.edge.level, last.edge.at)] else before) + [Sight(last.sampled, last.now)]
  }

  /** The level seen before sight `k`, starting from the level at the create. */
  function LevelBefore(created: Level, sights: seq<Sight>, k: nat): Level
    requires k <= |sights|
  {
    if k == 0 then created else sights[k - 1].level
  }

  /** The level changed at sight `k` and not since. */
  predicate ChangedLast(created: Level, sights: seq<Sight>, k: nat)
    requires k < |sights|
  {
    sights[k].level != LevelBefore(created, sights, k) && forall j :: k < j < |sights| ==> sights[j].level == sights[k].level
  }

  /** At the last poll the level seen has not changed for at least `ms`. */
  predicate SteadyFor(created: Level, inputs: seq<Input>, ms: nat)
    requires |inputs| > 0
  {
    var sights := Sights(inputs);
    exists k :: 0 <= k < |sights| && ChangedLast(created, sights, k) && ElapsedMs(inputs[|inputs| - 1].now, sights[k].at) >= ms
  }

  predicate NeverChanged(created: Level, sights: seq<Sight>) {
    forall j :: 0 <= j < |sights| ==> sights[j].level == created
  }

  /** The controller's raw level and last edge are those of the sights. */
  predicate Tracks(created: Level, sights: seq<Sight>, s: State) {
    && s.rawLevel == LevelBefore(created, sights, |sights|)
    && if NeverChanged(created, sights) then s.stableLevel == created
       else exists k :: 0 <= k < |sights| && ChangedLast(created, sights, k) && s.lastEdge == sights[k].at
  }

  lemma SightTracked(created: Level, sights: seq<Sight>, s: State, level: Level, at: int)
    requires Tracks(created, sights, s)
    ensures Tracks(created, sights + [Sight(level, at)], Observe(s, level, at))
  {
    var longer := sights + [Sight(level, at)];
    if level != s.rawLevel {
      assert ChangedLast(created, longer, |sights|);
      assert !NeverChanged(created, longer) by {
        assert level == created ==> |sights| > 0 && longer[|sights| - 1].level != created;
      }
    } else if NeverChanged(created, sights) {
      assert NeverChanged(created, longer);
    } else {
      var k :| 0 <= k < |sights| && ChangedLast(created, sights, k) && s.lastEdge == sights[k].at;
      assert ChangedLast(created, longer, k);
      assert !NeverChanged(created, longer) by {
        var j :| 0 <= j < |sights| && sights[j].level != created;
        assert longer[j] == sights[j];
      }
    }
  }

  lemma SeenTracks(created: Level, inputs: seq<Input>, s: State, input: Input)
    requires Tracks(created, Sights(inputs), s)
    ensures Tracks(created, Sights(inputs + [input]), Seen(s, input))
  {
    assert (inputs + [input])[..|inputs|] == inputs;
    var before := Sights(inputs);
    if input.edge.Edge? {
      SightTracked(created, before, s, input.edge.level, input.edge.at);
      before := before + [Sight(input.edge.level, input.edge.at)];
      SightTracked(created, before, Observe(s, input.edge.level, input.edge.at), input.sampled, input.now);
    } else {
      SightTracked(created, before, s, input.sampled, input.now);
    }
  }

  /** Once the level has changed, the debounced level may follow it. */
  lemma PollTracks(cfg: Config, created: Level, inputs: seq<Input>, s: State, input: Input)
    requires Tracks(created, Sights(inputs), s)
    ensures Tracks(created, Sights(inputs + [input]), Poll(cfg, s, input).state)
  {
    SeenTracks(created, inputs, s, input);
    PollKeepsSeen(cfg, s, input);
    var sights := Sights(inputs + [input]);
    if NeverChanged(created, sights) {
      assert LevelBefore(created, sights, |sights|) == created;
    }
  }

  lemma PollKeepsSeen(cfg: Config, s: State, input: Input)
    ensures var t, seen := Poll(cfg, s, input).state, Seen(s, input);
            && t.rawLevel == seen.rawLevel && t.lastEdge == seen.lastEdge
            && (t.stableLevel == seen.stableLevel || t.stableLevel == seen.rawLevel)
  {
    var seen := Seen(s, input);
    SettleKeepsSeen(cfg, seen, input.now);
    DeadlinesKeepSeen(cfg, Settle(cfg, seen, input.now).state, input.now);
  }

  lemma SettleKeepsSeen(cfg: Config, s: State, now: int)
    ensures var t := Settle(cfg, s, now).state;
            && t.rawLevel == s.rawLevel && t.lastEdge == s.lastEdge
            && (t.stableLevel == s.stableLevel || t.stableLevel == s.rawLevel)
  {
  }

  lemma DeadlinesKeepSeen(cfg: Config, s: State, now: int)
    ensures var t := Deadlines(cfg, s, now).state;
            t.rawLevel == s.rawLevel && t.lastEdge == s.lastEdge && t.stableLevel == s.stableLevel
  {
  }

  lemma {:induction false} RunTracks(cfg: Config, created: Level, inputs: seq<Input>)
    ensures Tracks(created, Sights(inputs), Exec(cfg, Created(created), inputs).state)
    decreases |inputs|
  {
    if |inputs| > 0 {
      var front := inputs[..|inputs| - 1];
      RunTracks(cfg, created, front);
      PollTracks(cfg, created, front, Exec(cfg, Created(created), front).state, inputs[|inputs| - 1]);
      assert front + [inputs[|inputs| - 1]] == inputs;
    }
  }

  lemma OneLastChange(created: Level, sights: seq<Sight>, j: nat, k: nat)
    requires j < |sights| && k < |sights| && ChangedLast(created, sights, j) && ChangedLast(created, sights, k)
    ensures j == k
  {
  }

  /** The debounce test of a poll, told from its inputs. */
  lemma SettlesExactlyWhen(cfg: Config, created: Level, inputs: seq<Input>, input: Input)
    ensures var seen := Seen(Exec(cfg, Created(created), inputs).state, input);
            && seen.rawLevel == input.sampled
            && (Settles(cfg, seen, input.now) <==>
                  input.sampled != seen.stableLevel && SteadyFor(created, inputs + [input], cfg.debounceMs))
  {
    var s, sights := Exec(cfg, Created(created), inputs).state, Sights(inputs + [input]);
    var seen := Seen(s, input);
    RunTracks(cfg, created, inputs);
    SeenTracks(created, inputs, s, input);
    assert sights[|sights| - 1] == Sight(input.sampled, input.now);
    if !NeverChanged(created, sights) {
      var k :| 0 <= k < |sights| && ChangedLast(created, sights, k) && seen.lastEdge == sights[k].at;
      forall j | 0 <= j < |sights| && ChangedLast(created, sights, j)
        ensures j == k
      {
        OneLastChange(created, sights, j, k);
      }
    }
  }

  predicate Settles(cfg: Config, s: State, now: int) {
    s.rawLevel != s.stableLevel && ElapsedMs(now, s.lastEdge) >= cfg.debounceMs
  }

  // ---------------------------------------------------------------- what one poll emits

  predicate Emits(events: seq<Event>, kind: EventKind) {
    exists i :: 0 <= i < |events| && events[i].kind == kind
  }

  lemma EmitsConcat(a: seq<Event>, b: seq<Event>, kind: EventKind)
    ensures Emits(a + b, kind) <==> Emits(a, kind) || Emits(b, kind)
  {
    if i :| 0 <= i < |a| && a[i].kind == kind {
      assert (a + b)[i] == a[i];
    }
    if i :| 0 <= i < |b| && b[i].kind == kind {
      assert (a + b)[|a| + i] == b[i];
    }
  }

  lemma SettleEmits(cfg: Config, s: State, now: int)
    requires s.isPressed <==> LevelIsPressed(cfg, s.stableLevel)
    ensures var o := Settle(cfg, s, now);
            && (Emits(o.events, Press) <==> Settles(cfg, s, now) && !s.isPressed)
            && (Emits(o.events, Release) <==> Settles(cfg, s, now) && s.isPressed)
            && !Emits(o.events, Repeat)
            && (if Settles(cfg, s, now)
                then o.state.isPressed == !s.isPressed
                     && (o.state.isPressed ==> o.state.pressStart == now && o.state.repeatCount == 0 && !o.state.longTriggered)
                else o.state == s)
  {
    var o := Settle(cfg, s, now);
    if Settles(cfg, s, now) {
      assert o.events[|o.events| - 1].kind == if s.isPressed then Release else Press;
    }
  }

  lemma DeadlinesEmit(cfg: Config, s: State, now: int)
    ensures var o, heldMs := Deadlines(cfg, s, now), ElapsedMs(now, s.pressStart);
            && !Emits(o.events, Press) && !Emits(o.events, Release)
            && o.state.isPressed == s.isPressed && o.state.pressStart == s.pressStart
            && (s.isPressed ==> (o.state.longTriggered <==> s.longTriggered || heldMs >= cfg.longPressMs))
            && (Emits(o.events, Repeat) <==>
                  s.isPressed && o.state.longTriggered && cfg.holdRepeatMs > 0 && Due(cfg, heldMs) > s.repeatCount)
  {
    if s.isPressed {
      var long := LongPressStep(cfg, s, now);
      RepeatsWhenDue(cfg, long.state, now);
      var repeated := RepeatStep(cfg, long.state, now);
      EmitsConcat(long.events, repeated.events, Press);
      EmitsConcat(long.events, repeated.events, Release);
      EmitsConcat(long.events, repeated.events, Repeat);
      assert repeated.events != [] ==> repeated.events[0].kind == Repeat;
    }
  }

  lemma PollEmits(cfg: Config, s: State, input: Input)
    requires s.isPressed <==> LevelIsPressed(cfg, s.stableLevel)
    ensures var o, settles := Poll(cfg, s, input), Settles(cfg, Seen(s, input), input.now);
            && (Emits(o.events, Press) <==> settles && !s.isPressed)
            && (Emits(o.events, Release) <==> settles && s.isPressed)
            && (Emits(o.events, Repeat) <==>
                  s.isPressed && !settles && o.state.longTriggered && cfg.holdRepeatMs > 0
                  && Due(cfg, ElapsedMs(input.now, s.pressStart)) > s.repeatCount)
            && (o.state.isPressed <==> if settles then !s.isPressed else s.isPressed)
  {
    var seen := Seen(s, input);
    SettleEmits(cfg, seen, input.now);
    var settled := Settle(cfg, seen, input.now);
    DeadlinesEmit(cfg, settled.state, input.now);
    var due := Deadlines(cfg, settled.state, input.now);
    EmitsConcat(settled.events, due.events, Press);
    EmitsConcat(settled.events, due.events, Release);
    EmitsConcat(settled.events, due.events, Repeat);
    NothingDueAtOnce(cfg, input.now);
  }

  /** A press accepted in this poll has not been held for any period yet. */
  lemma NothingDueAtOnce(cfg: Config, now: int)
    ensures Due(cfg, ElapsedMs(now, now)) == 0
  {
    if cfg.holdRepeatMs > 0 && cfg.longPressMs == 0 {
      QuotientIs(0, RepeatPeriod(cfg, 0), 0);
    }
  }

  // ---------------------------------------------------------------- theorems over whole runs

  /** In any run from a button created released, with `input` its next poll: the poll accepts a PRESS or a
      RELEASE exactly when the level it sees contradicts what it has reported so far and has been steady for
      the debounce time. */
  lemma DebouncesExactlyWhen(cfg: Config, created: Level, inputs: seq<Input>, input: Input)
    requires !LevelIsPressed(cfg, created) && Clocked(inputs)
    ensures var o := Exec(cfg, Created(created), inputs);
            var polled, idle := Poll(cfg, o.state, input).events, Account(o.events).phase.Idle?;
            var steady, pressed := SteadyFor(created, inputs + [input], cfg.debounceMs), LevelIsPressed(cfg, input.sampled);
            && (Emits(polled, Press) <==> idle && pressed && steady)
            && (Emits(polled, Release) <==> !idle && !pressed && steady)
  {
    RunIsSound(cfg, created, inputs);
    var s := Exec(cfg, Created(created), inputs).state;
    PollEmits(cfg, s, input);
    SettlesExactlyWhen(cfg, created, inputs, input);
  }

  /** No poll leaves a hold that has reached the long-press time without its LONG_PRESS, or a chain whose
      window has closed without its click event. */
  lemma NothingIsOverdue(cfg: Config, created: Level, inputs: seq<Input>)
    requires !LevelIsPressed(cfg, created) && Clocked(inputs) && |inputs| > 0
    ensures var l, now := Account(Exec(cfg, Created(created), inputs).events), inputs[|inputs| - 1].now;
            && (l.phase.Held? ==> ElapsedMs(now, l.pressedAt) < cfg.longPressMs)
            && (l.phase.Idle? && l.chain > 0 ==> ElapsedMs(now, l.releasedAt) < cfg.doubleClickMs)
  {
    RunIsSound(cfg, created, inputs);
  }

  /** A poll repeats exactly when the button is still held after its long press, repeats are on, and more
      whole periods have passed since the long press than at the last REPEAT. */
  lemma RepeatsExactlyWhen(cfg: Config, created: Level, inputs: seq<Input>, input: Input)
    requires !LevelIsPressed(cfg, created) && Clocked(inputs + [input])
    ensures var o := Exec(cfg, Created(created), inputs);
            var l, polled := Account(o.events), Poll(cfg, o.state, input).events;
            Emits(polled, Repeat) <==>
              && !l.phase.Idle? && Account(o.events + polled).phase.HeldLong? && cfg.holdRepeatMs > 0
              && Due(cfg, ElapsedMs(input.now, l.pressedAt)) > Due(cfg, l.repeatedAt)
  {
    assert Clocked(inputs) by {
      assert forall i :: 0 <= i < |inputs| ==> (inputs + [input])[i] == inputs[i];
    }
    assert (inputs + [input])[|inputs|] == input;
    RunIsSound(cfg, created, inputs);
    var o := Exec(cfg, Created(created), inputs);
    PollEmits(cfg, o.state, input);
    PollSound(cfg, o.state, o.events, input);
  }

  /** Every event of a poll carries the time of that poll. */
  lemma EventsAreStamped(cfg: Config, s: State, input: Input, i: nat)
    requires i < |Poll(cfg, s, input).events|
    ensures Poll(cfg, s, input).events[i].at == input.now
  {
    var settled := Settle(cfg, Seen(s, input), input.now);
    var due := Deadlines(cfg, settled.state, input.now);
    assert forall k :: 0 <= k < |settled.events| ==> settled.events[k].at == input.now;
    assert forall k :: 0 <= k < |due.events| ==> due.events[k].at == input.now;
  }
}
