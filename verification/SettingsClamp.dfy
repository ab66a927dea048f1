/** validate_and_clamp_settings: range and cross-field repair of whatever was loaded. */
module SettingsClamp {
  import opened BatteryProfile

  const MARGIN := 0.3
  const HEATSINK_TEMP_MAX := 85.0
  const MIN_FREQUENCY := 50.0
  const MAX_FREQUENCY := 200.0
  const MIN_OFF_TIME_MS := 5000
  const MAX_TIMEOUT_MS := 600000
  const DEFAULT_SCROLL_SPEED := 3

  /** The fields the function reads or repairs, with voltages and limits as reals. */
  datatype State = State(
    buzzerVolume: nat,
    profile: Profile,
    currentLimit: real,
    temperatureLimit: real,
    outputVoltage: real,
    voltageThreshold: real,
    outputFrequency: real,
    frequencyRange: real,
    systemTimeout: nat,
    savedTimeout: int,
    scrollSpeed: nat,
    backlightTimeout: int,
    brightness: int)

  function ClampReal(x: real, low: real, high: real): real {
    if x < low then low else if x > high then high else x
  }

  /** The three repairs that replace the whole profile. */
  function RepairedProfile(p: Profile): Profile {
    var p1 := if ValidVoltage(p.nominalVoltage) then p
              else
                var t := if ValidType(p.profileId) then p.profileId else AGM;
                var c := if ValidCapacity(p.capacityAh) then Nearest(p.capacityAh) else CAPACITY_DEFAULT;
                var g := Generate(t, 12, c);
                if g.Made? then g.profile else p;
    var p2 := if ValidType(p1.profileId) then p1
              else
                var g := Generate(AGM, 12, CAPACITY_DEFAULT);
                if g.Made? then g.profile else p1;
    if ValidCapacity(p2.capacityAh) then p2
    else
      var g := Generate(p2.profileId, p2.nominalVoltage, CAPACITY_DEFAULT);
      if g.Made? then g.profile else p2
  }

  /** Cutoff and recharge after the floor, the ceiling and the margin between them are enforced. */
  function OrderedVoltages(p: Profile): Profile {
    var cutoff := if p.cutoff < p.cutoffMin then p.cutoffMin else p.cutoff;
    var recharge := if p.recharge > p.highBattery then p.highBattery else p.recharge;
    if cutoff < recharge - MARGIN then p.(cutoff := cutoff, recharge := recharge)
    else if cutoff + MARGIN <= p.highBattery then p.(cutoff := cutoff, recharge := cutoff + MARGIN)
    else p.(cutoff := p.highBattery - MARGIN, recharge := p.highBattery)
  }

  function ClampTimeout(t: nat): nat {
    if t < MIN_OFF_TIME_MS then MIN_OFF_TIME_MS else if t > MAX_TIMEOUT_MS then MAX_TIMEOUT_MS else t
  }

  function Clamped(s: State): State {
    State(
      if s.buzzerVolume > 100 then 100 else s.buzzerVolume,
      OrderedVoltages(RepairedProfile(s.profile)),
      ClampReal(s.currentLimit, 1.0, 50.0),
      ClampReal(s.temperatureLimit, 40.0, HEATSINK_TEMP_MAX),
      ClampReal(s.outputVoltage, 100.0, 240.0),
      ClampReal(s.voltageThreshold, 100.0, 240.0),
      ClampReal(s.outputFrequency, 45.0, 65.0),
      ClampReal(s.frequencyRange, MIN_FREQUENCY, MAX_FREQUENCY),
      ClampTimeout(s.systemTimeout),
      if s.systemTimeout == ClampTimeout(s.systemTimeout) then s.savedTimeout else ClampTimeout(s.systemTimeout),
      if 1 <= s.scrollSpeed <= 10 then s.scrollSpeed else DEFAULT_SCROLL_SPEED,
      if 0 < s.backlightTimeout < 5 then 5 else s.backlightTimeout,
      if s.brightness < 0 then 0 else if s.brightness > 255 then 255 else s.brightness)
  }

  predicate SameLimits(a: State, b: State) {
    && a.currentLimit == b.currentLimit && a.temperatureLimit == b.temperatureLimit
    && a.outputVoltage == b.outputVoltage && a.voltageThreshold == b.voltageThreshold
    && a.outputFrequency == b.outputFrequency && a.frequencyRange == b.frequencyRange
  }

  predicate SameCounts(a: State, b: State) {
    && a.systemTimeout == b.systemTimeout && a.savedTimeout == b.savedTimeout && a.scrollSpeed == b.scrollSpeed
    && a.backlightTimeout == b.backlightTimeout && a.brightness == b.brightness
  }

  /** One range check and its clamp. */
  method Limit(x: real, low: real, high: real) returns (r: real, corrected: bool)
    requires low <= high
    ensures r == ClampReal(x, low, high) && (corrected <==> r != x)
  {
    r, corrected := x, false;
    if x < low || x > high {
      r := ClampReal(x, low, high);
      corrected := true;
    }
  }

  /** The function's result: every branch that touches a value also raises the flag, and so does a
      cutoff exactly at the margin, which is rewritten with the value it has. */
  predicate Corrects(s: State) {
    Clamped(s) != s || s.profile.cutoff >= s.profile.recharge - MARGIN
  }

  class Settings {
    var buzzerVolume: nat
    var profile: Profile
    var currentLimit: real
    var temperatureLimit: real
    var outputVoltage: real
    var voltageThreshold: real
    var outputFrequency: real
    var frequencyRange: real
    var systemTimeout: nat
    var savedTimeout: int
    var scrollSpeed: nat
    var backlightTimeout: int
    var brightness: int
    /** Copies kept in step with the profile by sync_battery_voltage_state. */
    var inverterVoltage: int
    var systemVoltage: int
    var batteryCutoff: real

    function Snapshot(): State
      reads this
    {
      State(buzzerVolume, profile, currentLimit, temperatureLimit, outputVoltage, voltageThreshold, outputFrequency,
            frequencyRange, systemTimeout, savedTimeout, scrollSpeed, backlightTimeout, brightness)
    }

    method RepairProfile() returns (corrected: bool)
      modifies this`profile
      ensures profile == RepairedProfile(old(profile))
      ensures !corrected ==> profile == old(profile)
      ensures corrected ==> profile != old(profile)
    {
      corrected := false;
      ghost var p0 := profile;
      if !ValidVoltage(profile.nominalVoltage) {
        var batteryType := if ValidType(profile.profileId) then profile.profileId else AGM;
        var capacity := if ValidCapacity(profile.capacityAh) then Nearest(profile.capacityAh) else CAPACITY_DEFAULT;
        var g := Generate(batteryType, 12, capacity);
        if g.Made? {
          profile := g.profile;
        }
        corrected := true;
      }
      if !ValidType(profile.profileId) {
        var g := Generate(AGM, 12, CAPACITY_DEFAULT);
        if g.Made? {
          profile := g.profile;
        }
        corrected := true;
      }
      if !ValidCapacity(profile.capacityAh) {
        var g := Generate(profile.profileId, profile.nominalVoltage, CAPACITY_DEFAULT);
        if g.Made? {
          profile := g.profile;
          corrected := true;
        }
      }
      RepairChangesInvalid(p0);
    }

    method OrderVoltages() returns (corrected: bool)
      modifies this`profile
      ensures profile == OrderedVoltages(old(profile))
      ensures corrected <==> profile != old(profile) || old(profile.cutoff >= profile.recharge - MARGIN)
    {
      corrected := false;
      if profile.cutoff < profile.cutoffMin {
        profile := profile.(cutoff := profile.cutoffMin);
        corrected := true;
      }
      var ceiling := profile.highBattery;
      if profile.recharge > ceiling {
        profile := profile.(recharge := ceiling);
        corrected := true;
      }
      if profile.cutoff >= profile.recharge - MARGIN {
        profile := profile.(recharge := profile.cutoff + MARGIN);
        if profile.recharge > ceiling {
          profile := profile.(recharge := ceiling, cutoff := ceiling - MARGIN);
        }
        corrected := true;
      }
    }

    method ClampLimits() returns (corrected: bool)
      modifies this`currentLimit, this`temperatureLimit, this`outputVoltage, this`voltageThreshold, this`outputFrequency, this`frequencyRange
      ensures currentLimit == ClampReal(old(currentLimit), 1.0, 50.0)
      ensures temperatureLimit == ClampReal(old(temperatureLimit), 40.0, HEATSINK_TEMP_MAX)
      ensures outputVoltage == ClampReal(old(outputVoltage), 100.0, 240.0)
      ensures voltageThreshold == ClampReal(old(voltageThreshold), 100.0, 240.0)
      ensures outputFrequency == ClampReal(old(outputFrequency), 45.0, 65.0)
      ensures frequencyRange == ClampReal(old(frequencyRange), MIN_FREQUENCY, MAX_FREQUENCY)
      ensures corrected <==> !SameLimits(Snapshot(), old(Snapshot()))
    {
      corrected := false;
      var out: bool;
      currentLimit, out := Limit(currentLimit, 1.0, 50.0);
      corrected := corrected || out;
      temperatureLimit, out := Limit(temperatureLimit, 40.0, HEATSINK_TEMP_MAX);
      corrected := corrected || out;
      outputVoltage, out := Limit(outputVoltage, 100.0, 240.0);
      corrected := corrected || out;
      voltageThreshold, out := Limit(voltageThreshold, 100.0, 240.0);
      corrected := corrected || out;
      outputFrequency, out := Limit(outputFrequency, 45.0, 65.0);
      corrected := corrected || out;
      frequencyRange, out := Limit(frequencyRange, MIN_FREQUENCY, MAX_FREQUENCY);
      corrected := corrected || out;
    }

    method ClampCounts() returns (corrected: bool)
      modifies this`systemTimeout, this`savedTimeout, this`scrollSpeed, this`backlightTimeout, this`brightness
      ensures systemTimeout == Clamped(old(Snapshot())).systemTimeout && savedTimeout == Clamped(old(Snapshot())).savedTimeout
      ensures scrollSpeed == Clamped(old(Snapshot())).scrollSpeed
      ensures backlightTimeout == Clamped(old(Snapshot())).backlightTimeout && brightness == Clamped(old(Snapshot())).brightness
      ensures corrected <==> !SameCounts(Snapshot(), old(Snapshot()))
    {
      corrected := false;
      if systemTimeout < MIN_OFF_TIME_MS || systemTimeout > MAX_TIMEOUT_MS {
        systemTimeout := if systemTimeout < MIN_OFF_TIME_MS then MIN_OFF_TIME_MS else MAX_TIMEOUT_MS;
        savedTimeout := systemTimeout;
        corrected := true;
      }
      if scrollSpeed < 1 || scrollSpeed > 10 {
        scrollSpeed := DEFAULT_SCROLL_SPEED;
        corrected := true;
      }
      if backlightTimeout > 0 && backlightTimeout < 5 {
        backlightTimeout := 5;
        corrected := true;
      }
      if brightness < 0 || brightness > 255 {
        brightness := if brightness < 0 then 0 else 255;
        corrected := true;
      }
    }

    /** The profile section: selectors first, then the voltages. */
    method ClampProfile() returns (corrected: bool)
      modifies this`profile
      ensures profile == OrderedVoltages(RepairedProfile(old(profile)))
      ensures corrected <==> profile != old(profile) || old(profile.cutoff >= profile.recharge - MARGIN)
    {
      ghost var p := profile;
      var repaired := RepairProfile();
      var ordered := OrderVoltages();
      ProfileFlag(p, repaired, ordered);
      corrected := repaired || ordered;
    }

    /** The sections after the profile. */
    method ClampRest() returns (limited: bool, counted: bool)
      modifies this`currentLimit, this`temperatureLimit, this`outputVoltage, this`voltageThreshold, this`outputFrequency, this`frequencyRange
      modifies this`systemTimeout, this`savedTimeout, this`scrollSpeed, this`backlightTimeout, this`brightness
      ensures SameLimits(Snapshot(), Clamped(old(Snapshot()))) && SameCounts(Snapshot(), Clamped(old(Snapshot())))
      ensures limited <==> !SameLimits(Snapshot(), old(Snapshot()))
      ensures counted <==> !SameCounts(Snapshot(), old(Snapshot()))
    {
      limited := ClampLimits();
      counted := ClampCounts();
    }

    /** validate_and_clamp_settings. */
    method ValidateAndClamp() returns (corrected: bool)
      modifies this
      ensures Snapshot() == Clamped(old(Snapshot()))
      ensures corrected <==> Corrects(old(Snapshot()))
      ensures inverterVoltage == systemVoltage == profile.nominalVoltage && batteryCutoff == profile.cutoff
    {
      ghost var s := Snapshot();
      corrected := false;
      if buzzerVolume > 100 {
        buzzerVolume := 100;
        corrected := true;
      }
      var profiled := ClampProfile();
      ghost var m := Snapshot();
      assert m == s.(buzzerVolume := m.buzzerVolume, profile := m.profile);
      RestIgnoresProfile(s, m);
      var limited, counted := ClampRest();
      FlagAddsUp(s, Snapshot(), profiled, limited, counted);
      corrected := corrected || profiled || limited || counted;
      inverterVoltage, systemVoltage, batteryCutoff := profile.nominalVoltage, profile.nominalVoltage, profile.cutoff;
    }
  }

  // ---------------------------------------------------------------- facts the method uses

  lemma NearestInRange(c: real)
    requires ValidCapacity(c)
    ensures CAPACITY_MIN <= Nearest(c) <= CAPACITY_MAX
  {
  }

  /** After the repair the profile's selectors are valid; an already valid profile is left alone. */
  lemma RepairChangesInvalid(p: Profile)
    ensures var r := RepairedProfile(p);
            ValidVoltage(r.nominalVoltage) && ValidType(r.profileId) && ValidCapacity(r.capacityAh)
    ensures ValidVoltage(p.nominalVoltage) && ValidType(p.profileId) && ValidCapacity(p.capacityAh) <==> RepairedProfile(p) == p
  {
    if ValidCapacity(p.capacityAh) {
      NearestInRange(p.capacityAh);
    }
  }

  lemma ProfileFlag(p: Profile, repaired: bool, ordered: bool)
    requires repaired <==> RepairedProfile(p) != p
    requires var r := RepairedProfile(p); ordered <==> OrderedVoltages(r) != r || r.cutoff >= r.recharge - MARGIN
    ensures repaired || ordered <==> OrderedVoltages(RepairedProfile(p)) != p || p.cutoff >= p.recharge - MARGIN
  {
    RepairChangesInvalid(p);
    var r := RepairedProfile(p);
    OrderingKeepsSelectors(r);
  }

  lemma RestIgnoresProfile(s: State, m: State)
    requires m == s.(buzzerVolume := m.buzzerVolume, profile := m.profile)
    ensures SameLimits(Clamped(m), Clamped(s)) && SameCounts(Clamped(m), Clamped(s))
    ensures SameLimits(m, s) && SameCounts(m, s)
  {
  }

  lemma FlagAddsUp(s: State, t: State, profiled: bool, limited: bool, counted: bool)
    requires t.buzzerVolume == Clamped(s).buzzerVolume && t.profile == Clamped(s).profile
    requires SameLimits(t, Clamped(s)) && SameCounts(t, Clamped(s))
    requires profiled <==> t.profile != s.profile || s.profile.cutoff >= s.profile.recharge - MARGIN
    requires limited <==> !SameLimits(t, s)
    requires counted <==> !SameCounts(t, s)
    ensures t == Clamped(s)
    ensures Corrects(s) <==> s.buzzerVolume > 100 || profiled || limited || counted
  {
  }

  lemma OrderingKeepsSelectors(r: Profile)
    ensures var o := OrderedVoltages(r); o == r.(cutoff := o.cutoff, recharge := o.recharge)
  {
  }

  // ---------------------------------------------------------------- what the clamp achieves

  predicate VoltagesOrdered(p: Profile) {
    p.cutoffMin <= p.cutoff <= p.recharge - MARGIN && p.recharge <= p.highBattery
  }

  predicate OtherFieldsInRange(s: State) {
    && s.buzzerVolume <= 100
    && ValidVoltage(s.profile.nominalVoltage) && ValidType(s.profile.profileId) && ValidCapacity(s.profile.capacityAh)
    && 1.0 <= s.currentLimit <= 50.0 && 40.0 <= s.temperatureLimit <= HEATSINK_TEMP_MAX
    && 100.0 <= s.outputVoltage <= 240.0 && 100.0 <= s.voltageThreshold <= 240.0
    && 45.0 <= s.outputFrequency <= 65.0 && MIN_FREQUENCY <= s.frequencyRange <= MAX_FREQUENCY
    && MIN_OFF_TIME_MS <= s.systemTimeout <= MAX_TIMEOUT_MS
    && 1 <= s.scrollSpeed <= 10 && !(0 < s.backlightTimeout < 5) && 0 <= s.brightness <= 255
  }

  /** The voltages end in order exactly when the (repaired) profile's ceiling is at least its floor
      plus the margin; every other clamped field ends in range regardless. */
  lemma ClampOrdersExactlyWhen(s: State)
    ensures OtherFieldsInRange(Clamped(s))
    ensures VoltagesOrdered(Clamped(s).profile) <==>
            RepairedProfile(s.profile).highBattery >= RepairedProfile(s.profile).cutoffMin + MARGIN
  {
    RepairChangesInvalid(s.profile);
  }

  function Distance(x: real, y: real): real { if x < y then y - x else x - y }

  /** `r` is the number between `low` and `high` nearest to `x`. */
  ghost predicate NearestWithin(x: real, low: real, high: real, r: real) {
    low <= r <= high && forall y: real :: low <= y <= high ==> Distance(x, r) <= Distance(x, y)
  }

  lemma ClampIsNearest(x: real, low: real, high: real)
    requires low <= high
    ensures NearestWithin(x, low, high, ClampReal(x, low, high))
  {
  }

  /** Each limit ends as near to what was loaded as its range allows. */
  lemma LimitsMoveLeast(s: State)
    ensures var t := Clamped(s);
            && NearestWithin(s.currentLimit, 1.0, 50.0, t.currentLimit)
            && NearestWithin(s.temperatureLimit, 40.0, 85.0, t.temperatureLimit)
            && NearestWithin(s.outputVoltage, 100.0, 240.0, t.outputVoltage)
            && NearestWithin(s.voltageThreshold, 100.0, 240.0, t.voltageThreshold)
            && NearestWithin(s.outputFrequency, 45.0, 65.0, t.outputFrequency)
            && NearestWithin(s.frequencyRange, 50.0, 200.0, t.frequencyRange)
            && NearestWithin(s.systemTimeout as real, 5000.0, 600000.0, t.systemTimeout as real)
            && NearestWithin(s.buzzerVolume as real, 0.0, 100.0, t.buzzerVolume as real)
            && NearestWithin(s.brightness as real, 0.0, 255.0, t.brightness as real)
  {
    ClampIsNearest(s.currentLimit, 1.0, 50.0);
    ClampIsNearest(s.temperatureLimit, 40.0, 85.0);
    ClampIsNearest(s.outputVoltage, 100.0, 240.0);
    ClampIsNearest(s.voltageThreshold, 100.0, 240.0);
    ClampIsNearest(s.outputFrequency, 45.0, 65.0);
    ClampIsNearest(s.frequencyRange, 50.0, 200.0);
    ClampIsNearest(s.systemTimeout as real, 5000.0, 600000.0);
    ClampIsNearest(s.buzzerVolume as real, 0.0, 100.0);
    ClampIsNearest(s.brightness as real, 0.0, 255.0);
  }

  /** A count in range stays; a scroll speed out of range becomes 3, a backlight time of 1 to 4 s becomes 5 s,
      and the saved timeout is touched only together with the one in use. */
  lemma CountsAreRepaired(s: State)
    ensures var t := Clamped(s);
            && t.scrollSpeed == (if s.scrollSpeed in {1, 2, 3, 4, 5, 6, 7, 8, 9, 10} then s.scrollSpeed else 3)
            && (if s.backlightTimeout in {1, 2, 3, 4} then t.backlightTimeout == 5 else t.backlightTimeout == s.backlightTimeout)
            && (if t.systemTimeout == s.systemTimeout then t.savedTimeout == s.savedTimeout else t.savedTimeout == t.systemTimeout)
  {
  }

  /** A profile with valid selectors stays. Any other is generated anew: of its own type if that was valid,
      otherwise AGM; at its own voltage if type and voltage were valid, otherwise 12 V; with its own capacity
      to the nearest ampere-hour only if that was valid and the voltage was not, otherwise 200 Ah. */
  lemma RepairRegenerates(p: Profile)
    ensures var voltageOk, typeOk, capacityOk := ValidVoltage(p.nominalVoltage), ValidType(p.profileId), ValidCapacity(p.capacityAh);
            var g := Generate(if typeOk then p.profileId else 1, if voltageOk && typeOk then p.nominalVoltage else 12,
                              if capacityOk && !voltageOk then Nearest(p.capacityAh) else 200);
            if voltageOk && typeOk && capacityOk then RepairedProfile(p) == p
            else g.Made? && RepairedProfile(p) == g.profile
  {
    if ValidCapacity(p.capacityAh) {
      NearestInRange(p.capacityAh);
    }
  }

  /** Where the ceiling allows it, the cutoff ends nearest to what it was between floor and ceiling less the
      margin, and the recharge voltage nearest to what it was between there and the ceiling. */
  lemma VoltagesMoveLeast(s: State)
    requires RepairedProfile(s.profile).highBattery >= RepairedProfile(s.profile).cutoffMin + MARGIN
    ensures var r, o := RepairedProfile(s.profile), Clamped(s).profile;
            && NearestWithin(r.cutoff, r.cutoffMin, r.highBattery - 0.3, o.cutoff)
            && NearestWithin(r.recharge, o.cutoff + 0.3, r.highBattery, o.recharge)
            && o == r.(cutoff := o.cutoff, recharge := o.recharge)
  {
    var r, o := RepairedProfile(s.profile), Clamped(s).profile;
    ClampIsNearest(r.cutoff, r.cutoffMin, r.highBattery - 0.3);
    ClampIsNearest(r.recharge, o.cutoff + 0.3, r.highBattery);
    assert o.cutoff == ClampReal(r.cutoff, r.cutoffMin, r.highBattery - 0.3);
    assert o.recharge == ClampReal(r.recharge, o.cutoff + 0.3, r.highBattery);
  }

  /** A second run changes no value... */
  lemma SecondRunChangesNothing(s: State)
    ensures Clamped(Clamped(s)) == Clamped(s)
  {
    RepairChangesInvalid(s.profile);
    OrderingKeepsSelectors(RepairedProfile(s.profile));
    var t := Clamped(s).profile;
    RepairChangesInvalid(t);
    OrderingIsIdempotent(RepairedProfile(s.profile));
  }

  lemma OrderingIsIdempotent(r: Profile)
    ensures OrderedVoltages(OrderedVoltages(r)) == OrderedVoltages(r)
  {
  }

  /** ... yet it reports a correction exactly when the first run had to set recharge and cutoff the margin
      apart: when, of the profile the first run starts from, the cutoff raised to its floor is not below
      the recharge lowered to its ceiling by more than the margin. */
  lemma SecondRunReportsExactlyWhen(s: State)
    ensures var r := RepairedProfile(s.profile);
            Corrects(Clamped(s)) <==>
            (if r.cutoff < r.cutoffMin then r.cutoffMin else r.cutoff)
            >= (if r.recharge > r.highBattery then r.highBattery else r.recharge) - MARGIN
    ensures Corrects(Clamped(s)) <==> Clamped(s).profile.cutoff == Clamped(s).profile.recharge - MARGIN
  {
    SecondRunChangesNothing(s);
    var r := RepairedProfile(s.profile);
    assert Clamped(s).profile == OrderedVoltages(r);
  }

  /** So for the default battery a run straight after the first still reports a correction. */
  lemma DefaultBatteryIsReportedAgain(s: State)
    requires s.profile == Generate(AGM, 12, CAPACITY_DEFAULT).profile
    ensures Corrects(Clamped(s)) && Clamped(Clamped(s)) == Clamped(s)
  {
    SecondRunChangesNothing(s);
    SecondRunReportsExactlyWhen(s);
  }

  /** Of the six chemistries only lead-acid generates a ceiling the clamp can work with. */
  lemma OnlyLeadAcidHasACeiling(batteryType: int, voltage: int, capacity: int)
    requires Generate(batteryType, voltage, capacity).Made?
    ensures var p := Generate(batteryType, voltage, capacity).profile;
            p.highBattery >= p.cutoffMin + MARGIN <==> batteryType == LEAD_ACID
  {
  }

  /** The default battery (AGM, 12 V, 200 Ah) ends with a negative cutoff and a recharge of zero. */
  lemma DefaultBatteryLosesItsCutoff(s: State)
    requires s.profile == Generate(AGM, 12, CAPACITY_DEFAULT).profile
    ensures Clamped(s).profile.cutoff == -0.3 && Clamped(s).profile.recharge == 0.0
    ensures !VoltagesOrdered(Clamped(s).profile)
  {
  }
}
