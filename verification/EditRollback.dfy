/** The value editor's transaction: what the apply functions change, and what a failed save restores. */
module EditRollback {
  import opened SettingsCodec
  import opened SettingsTable
  import BatteryProfile
  import SettingsRuntime

  /** The editors with a persistent setting. */
  datatype Editor = VoltageEditor | FrequencyEditor | CurrentEditor | TemperatureEditor | CutoffEditor | TimeoutEditor
    | AutoShutdownEditor | ScrollEnableEditor | ScrollSpeedEditor | BatteryTypeEditor | CapacityEditor
    | VoltageSystemEditor | SoundEnableEditor | SoundVolumeEditor | QuietEnableEditor | QuietStartEditor
    | QuietEndEditor | UtcOffsetEditor | HourEditor | MinuteEditor | BluetoothEditor | AutoReconnectEditor | AutoOnEditor

  /** settings_index_for_editor. */
  function IndexOf(e: Editor): (i: nat)
    ensures i < COUNT
  {
    match e
    case VoltageEditor => 25
    case FrequencyEditor => 28
    case CurrentEditor => 26
    case TemperatureEditor => 27
    case CutoffEditor => CUTOFF
    case TimeoutEditor => 29
    case AutoShutdownEditor => 11
    case ScrollEnableEditor => 12
    case ScrollSpeedEditor => 22
    case BatteryTypeEditor => PROFILE_ID
    case CapacityEditor => CAPACITY
    case VoltageSystemEditor => INVERTER_VOLTAGE
    case SoundEnableEditor => 13
    case SoundVolumeEditor => 14
    case QuietEnableEditor => 15
    case QuietStartEditor => 16
    case QuietEndEditor => 17
    case UtcOffsetEditor => 18
    case HourEditor => 19
    case MinuteEditor => 20
    case BluetoothEditor => 31
    case AutoReconnectEditor => 32
    case AutoOnEditor => 33
  }

  predicate SetsTheClock(e: Editor) { e.HourEditor? || e.MinuteEditor? }

  /** The value in the editor: a float, and its bit pattern for the one integer row that is laid
      over a float field (frequency_range). */
  datatype EditValue = EditValue(value: real, bits: int)

  /** The fields the table's rows point at, and the runtime state kept beside them. Rows 2 to 8
      together with `nominalVoltage` and `cutoffMin` are the battery profile. */
  datatype State = State(
    fields: seq<Field>,
    nominalVoltage: int,
    cutoffMin: real,
    currentLimit: real,
    temperatureLimit: real,
    systemTimeout: int,
    batteryCutoff: real,
    cutoffVoltage: real,
    batteryVoltageSystem: int)

  predicate Fitting(fields: seq<Field>) {
    |fields| == COUNT && forall i :: 0 <= i < COUNT ==> Fits(KindAt(i), fields[i])
  }

  function Encoded(fields: seq<Field>): (t: seq<int>)
    requires Fitting(fields)
    ensures |t| == COUNT
  {
    seq(COUNT, i requires 0 <= i < COUNT => Encode(KindAt(i), fields[i]))
  }

  /** The values a save of these fields would capture. */
  lemma EncodedIsCapture(fields: seq<Field>)
    requires Fitting(fields)
    ensures SettingsRuntime.FieldsFit(Table(), fields) && SettingsRuntime.CaptureTable(Table(), fields) == Encoded(fields)
  {
    forall i | 0 <= i < COUNT
      ensures KindOf(Table()[i]) == KindAt(i)
    {
      KindOfRow(i);
    }
  }

  // ---------------------------------------------------------------- helpers the apply functions share

  function Byte(x: int): int { x % 256 }

  function SetRow(s: State, i: nat, f: Field): State
    requires |s.fields| == COUNT && i < COUNT
  {
    s.(fields := s.fields[i := f])
  }

  function RealAt(s: State, i: nat): real
    requires |s.fields| == COUNT && i < COUNT
  {
    if s.fields[i].RealField? then s.fields[i].value else 0.0
  }

  function CellAt(s: State, i: nat): int
    requires |s.fields| == COUNT && i < COUNT
  {
    if s.fields[i].IntField? then s.fields[i].cell else 0
  }

  /** The whole profile is replaced. */
  function WithProfile(s: State, p: BatteryProfile.Profile): State
    requires |s.fields| == COUNT
  {
    s.(fields := s.fields[..PROFILE_ID] + [IntField(p.profileId), RealField(p.capacityAh), RealField(p.maxCharge),
                 RealField(p.maxDischarge), RealField(p.highBattery), RealField(p.cutoff), RealField(p.recharge)]
                 + s.fields[RECHARGE + 1..],
       nominalVoltage := p.nominalVoltage, cutoffMin := p.cutoffMin)
  }

  /** The two copies of the system voltage, as uint8_t. */
  function SyncVoltage(s: State): State
    requires |s.fields| == COUNT
  {
    SetRow(s, INVERTER_VOLTAGE, IntField(Byte(s.nominalVoltage))).(batteryVoltageSystem := Byte(s.nominalVoltage))
  }

  function SetOutputVoltage(s: State, v: real): State
    requires |s.fields| == COUNT
  {
    if v != 0.0 && (v < 100.0 || v > 240.0) then s else SetRow(s, OUTPUT_VOLTAGE, RealField(v))
  }

  function SetOutputFrequency(s: State, v: real): State
    requires |s.fields| == COUNT
  {
    if v < 45.0 || v > 65.0 then s else SetRow(s, OUTPUT_FREQUENCY, RealField(v))
  }

  /** A limit whose voltage over the placeholder load exceeds the setpoint raises the setpoint. */
  function SetCurrentLimit(s: State, v: real): State
    requires |s.fields| == COUNT
  {
    if v != 0.0 && (v < 1.0 || v > 50.0) then s
    else
      var raised := if v * 10.0 > RealAt(s, OUTPUT_VOLTAGE) then SetOutputVoltage(s, v * 10.0) else s;
      raised.(currentLimit := v)
  }

  function SetCutoff(s: State, v: real): State
    requires |s.fields| == COUNT
  {
    if v < s.cutoffMin || v >= RealAt(s, RECHARGE) || v > RealAt(s, HIGH_BATTERY) then s
    else SetRow(s, CUTOFF, RealField(v)).(batteryCutoff := v, cutoffVoltage := v)
  }

  function VoltageOption(index: int): int
    requires 0 <= index < 3
  {
    if index == 0 then 12 else if index == 1 then 24 else 48
  }

  function ApplyBatteryType(s: State, v: real): State
    requires |s.fields| == COUNT
  {
    if v < 0.0 || v >= BatteryProfile.TYPE_COUNT as real then s
    else
      var g := BatteryProfile.Generate(BatteryProfile.Nearest(v), s.nominalVoltage, Trunc(RealAt(s, CAPACITY)));
      if g.NoProfile? then s else SyncVoltage(WithProfile(s, g.profile))
  }

  function ApplyCapacity(s: State, v: real): State
    requires |s.fields| == COUNT
  {
    if v < BatteryProfile.CAPACITY_MIN as real || v > BatteryProfile.CAPACITY_MAX as real then s
    else
      var g := BatteryProfile.Generate(CellAt(s, PROFILE_ID), s.nominalVoltage, BatteryProfile.Nearest(v));
      if g.NoProfile? then s
      else
        var previous, p := RealAt(s, CUTOFF), g.profile;
        var kept := if previous >= p.cutoffMin && previous <= p.recharge - 0.3 && previous <= p.highBattery
                    then p.(cutoff := previous) else p;
        SyncVoltage(WithProfile(s, kept)).(batteryCutoff := kept.cutoff)
  }

  function ApplyVoltageSystem(s: State, v: real): State
    requires |s.fields| == COUNT
  {
    if Trunc(v) < 0 || Trunc(v) >= 3 then s
    else
      var g := BatteryProfile.Generate(CellAt(s, PROFILE_ID), VoltageOption(Trunc(v)), Trunc(RealAt(s, CAPACITY)));
      if g.NoProfile? then s else SyncVoltage(WithProfile(s, g.profile))
  }

  /** The editor's apply function. Conversions wrap as the integer type's modulus. */
  function Apply(s: State, e: Editor, v: EditValue): State
    requires |s.fields| == COUNT
  {
    match e
    case VoltageEditor => SetOutputVoltage(SetRow(s, 25, RealField(v.value)), v.value)
    case FrequencyEditor => SetOutputFrequency(SetRow(s, 28, IntField(v.bits)), v.value)
    case CurrentEditor => SetCurrentLimit(SetRow(s, 26, RealField(v.value)).(currentLimit := v.value), v.value)
    case TemperatureEditor => SetRow(s, 27, RealField(v.value)).(temperatureLimit := v.value)
    case CutoffEditor => SetCutoff(SetRow(s, CUTOFF, RealField(v.value)).(batteryCutoff := v.value), v.value)
    case TimeoutEditor => SetRow(s, 29, IntField(Trunc(v.value))).(systemTimeout := Trunc(v.value))
    case AutoShutdownEditor => SetRow(s, 11, FlagField(Byte(Trunc(v.value)) != 0))
    case ScrollEnableEditor => SetRow(s, 12, FlagField(Byte(Trunc(v.value)) != 0))
    case ScrollSpeedEditor => SetRow(s, 22, IntField(Byte(Trunc(v.value))))
    case BatteryTypeEditor => ApplyBatteryType(s, v.value)
    case CapacityEditor => ApplyCapacity(s, v.value)
    case VoltageSystemEditor => ApplyVoltageSystem(s, v.value)
    case SoundEnableEditor => SetRow(s, 13, FlagField(v.value != 0.0))
    case SoundVolumeEditor =>
      SetRow(s, 14, IntField(if v.value < 0.0 then 0 else if v.value > 100.0 then 100 else BatteryProfile.Nearest(v.value)))
    case QuietEnableEditor => SetRow(s, 15, FlagField(v.value != 0.0))
    case QuietStartEditor => SetRow(s, 16, IntField(Byte(Trunc(v.value))))
    case QuietEndEditor => SetRow(s, 17, IntField(Byte(Trunc(v.value))))
    case UtcOffsetEditor => SetRow(s, 18, IntField(Byte(Trunc(v.value) + 128) - 128))
    case HourEditor => SetRow(SetRow(s, 19, IntField(Byte(Trunc(v.value)))), TIME_SET, FlagField(true))
    case MinuteEditor => SetRow(SetRow(s, 20, IntField(Byte(Trunc(v.value)))), TIME_SET, FlagField(true))
    case BluetoothEditor => SetRow(s, 31, FlagField(v.value != 0.0))
    case AutoReconnectEditor => SetRow(s, 32, FlagField(v.value != 0.0))
    case AutoOnEditor => SetRow(s, 33, FlagField(v.value != 0.0))
  }

  /** Live updates while navigating, then the final apply. */
  function ApplyAll(s: State, e: Editor, vs: seq<EditValue>): (r: State)
    requires |s.fields| == COUNT
    ensures |r.fields| == COUNT
    decreases |vs|
  {
    if |vs| == 0 then s else Apply(ApplyAll(s, e, vs[..|vs| - 1]), e, vs[|vs| - 1])
  }

  // ---------------------------------------------------------------- the edit session

  /** What opening an editor remembers: the encoded value of its own row, and the runtime state. */
  datatype Session = Session(index: nat, value: int, runtime: State)

  function Open(s: State, e: Editor): Session
    requires Fitting(s.fields)
  {
    Session(IndexOf(e), Encode(KindAt(IndexOf(e)), s.fields[IndexOf(e)]), s)
  }

  /** The rows of the battery profile and the two output rows, taken from the snapshot. */
  function RuntimeRows(fields: seq<Field>, snapshot: seq<Field>): (r: seq<Field>)
    requires |fields| == COUNT == |snapshot|
    ensures |r| == COUNT
    ensures forall i :: 0 <= i < COUNT ==> r[i] == if RuntimeRow(i) && i != INVERTER_VOLTAGE then snapshot[i] else fields[i]
  {
    var withProfile := fields[..PROFILE_ID] + snapshot[PROFILE_ID..RECHARGE + 1] + fields[RECHARGE + 1..];
    withProfile[OUTPUT_VOLTAGE := snapshot[OUTPUT_VOLTAGE]][OUTPUT_FREQUENCY := snapshot[OUTPUT_FREQUENCY]]
  }

  /** settings_runtime_snapshot_restore. */
  function RestoreRuntime(s: State, r: State): State
    requires |s.fields| == COUNT == |r.fields|
  {
    var cutoff := RealAt(r, CUTOFF);
    SyncVoltage(s.(fields := RuntimeRows(s.fields, r.fields),
                   nominalVoltage := r.nominalVoltage, cutoffMin := r.cutoffMin, currentLimit := r.currentLimit,
                   temperatureLimit := r.temperatureLimit, batteryCutoff := cutoff, cutoffVoltage := cutoff))
  }

  /** settings_restore_current_snapshot. */
  function Restore(s: State, x: Session): State
    requires |s.fields| == COUNT == |x.runtime.fields| && x.index < COUNT
    requires Assignable(KindAt(x.index), s.fields[x.index])
  {
    var own := SetRow(s, x.index, Assign(KindAt(x.index), x.value, s.fields[x.index]));
    var synced := SyncVoltage(own).(batteryCutoff := RealAt(own, CUTOFF));
    var restored := RestoreRuntime(synced, x.runtime);
    restored.(systemTimeout := CellAt(restored, 29))
  }

  class EditSession {
    var state: State
    var session: Session
    var editing: bool

    constructor (s: State)
      requires Fitting(s.fields)
      ensures state == s && !editing
    {
      state, session, editing := s, Session(0, 0, s), false;
    }

    /** begin_setting_edit: captures one row and the runtime state. */
    method Begin(e: Editor)
      requires Fitting(state.fields)
      modifies this
      ensures state == old(state) && session == Open(state, e) && editing
    {
      var index := IndexOf(e);
      session := Session(index, Encode(KindAt(index), state.fields[index]), state);
      editing := true;
    }

    /** A live update while navigating, or the apply step of ENTER. */
    method ApplyValue(e: Editor, v: EditValue)
      requires OnlyEdits(e, state.fields, state.fields)
      modifies this`state
      ensures state == Apply(old(state), e, v) && OnlyEdits(e, old(state.fields), state.fields)
      ensures TakesEffect(old(state), e, v, state)
      ensures old(Synced(state)) ==> Synced(state)
    {
      ApplyOnlyEdits(state, e, v);
      EveryEditTakesEffect(state, e, v);
      if Synced(state) {
        ApplyKeepsSynced(state, e, v);
      }
      state := Apply(state, e, v);
    }

    /** The end of exit_value_edit_mode after a save: keeps the edit or takes it back. */
    method Finish(saved: bool)
      requires editing && |state.fields| == COUNT == |session.runtime.fields| && session.index < COUNT
      requires Assignable(KindAt(session.index), state.fields[session.index])
      modifies this
      ensures state == (if saved then old(state) else Restore(old(state), old(session))) && !editing
    {
      if !saved {
        var i := session.index;
        state := SetRow(state, i, Assign(KindAt(i), session.value, state.fields[i]));
        state := SyncVoltage(state).(batteryCutoff := RealAt(state, CUTOFF));
        state := RestoreRuntime(state, session.runtime);
        state := state.(systemTimeout := CellAt(state, 29));
      }
      editing := false;
    }
  }

  // ---------------------------------------------------------------- what an edit may touch

  /** Rows restored from the runtime snapshot, or recomputed from it. */
  predicate RuntimeRow(i: int) {
    i == INVERTER_VOLTAGE || PROFILE_ID <= i <= RECHARGE || i == OUTPUT_VOLTAGE || i == OUTPUT_FREQUENCY
  }

  /** An edit changes its own row, runtime rows and, for the clock editors, the time-set flag. */
  predicate OnlyEdits(e: Editor, a: seq<Field>, b: seq<Field>) {
    && |a| == COUNT == |b|
    && (forall i :: 0 <= i < COUNT && !RuntimeRow(i) && i != IndexOf(e) && i != TIME_SET ==> b[i] == a[i])
    && (b[TIME_SET] == a[TIME_SET] || (SetsTheClock(e) && b[TIME_SET] == FlagField(true)))
    && (KindAt(IndexOf(e)).Unsigned8? ==> b[IndexOf(e)].IntField? && IsInt32(b[IndexOf(e)].cell))
  }

  lemma ProfileEditsOnly(s: State, p: BatteryProfile.Profile)
    requires |s.fields| == COUNT
    ensures var t := SyncVoltage(WithProfile(s, p));
            |t.fields| == COUNT && forall i :: 0 <= i < COUNT && !RuntimeRow(i) ==> t.fields[i] == s.fields[i]
    ensures SyncVoltage(WithProfile(s, p)).fields[PROFILE_ID] == IntField(p.profileId)
    ensures SyncVoltage(WithProfile(s, p)).fields[INVERTER_VOLTAGE] == IntField(Byte(p.nominalVoltage))
  {
  }

  predicate EditsProfile(e: Editor) { e.BatteryTypeEditor? || e.CapacityEditor? || e.VoltageSystemEditor? }

  lemma BatteryTypeOnlyEdits(s: State, v: real)
    requires |s.fields| == COUNT
    ensures OnlyEdits(BatteryTypeEditor, s.fields, ApplyBatteryType(s, v).fields) || ApplyBatteryType(s, v) == s
  {
    if 0.0 <= v < BatteryProfile.TYPE_COUNT as real {
      var g := BatteryProfile.Generate(BatteryProfile.Nearest(v), s.nominalVoltage, Trunc(RealAt(s, CAPACITY)));
      if g.Made? {
        GeneratedType(BatteryProfile.Nearest(v), s.nominalVoltage, Trunc(RealAt(s, CAPACITY)));
        ProfileEditsOnly(s, g.profile);
      }
    }
  }

  lemma GeneratedType(batteryType: int, voltage: int, capacity: int)
    requires BatteryProfile.Generate(batteryType, voltage, capacity).Made?
    ensures BatteryProfile.Generate(batteryType, voltage, capacity).profile.profileId == batteryType && 0 <= batteryType < 6
    ensures BatteryProfile.Generate(batteryType, voltage, capacity).profile.nominalVoltage == voltage
  {
  }

  lemma CapacityOnlyEdits(s: State, v: real)
    requires |s.fields| == COUNT
    ensures OnlyEdits(CapacityEditor, s.fields, ApplyCapacity(s, v).fields) || ApplyCapacity(s, v) == s
  {
    if BatteryProfile.CAPACITY_MIN as real <= v <= BatteryProfile.CAPACITY_MAX as real {
      var g := BatteryProfile.Generate(CellAt(s, PROFILE_ID), s.nominalVoltage, BatteryProfile.Nearest(v));
      if g.Made? {
        ProfileEditsOnly(s, g.profile);
        ProfileEditsOnly(s, g.profile.(cutoff := RealAt(s, CUTOFF)));
      }
    }
  }

  lemma VoltageSystemOnlyEdits(s: State, v: real)
    requires |s.fields| == COUNT
    ensures OnlyEdits(VoltageSystemEditor, s.fields, ApplyVoltageSystem(s, v).fields) || ApplyVoltageSystem(s, v) == s
  {
    if 0 <= Trunc(v) < 3 {
      var g := BatteryProfile.Generate(CellAt(s, PROFILE_ID), VoltageOption(Trunc(v)), Trunc(RealAt(s, CAPACITY)));
      if g.Made? {
        ProfileEditsOnly(s, g.profile);
      }
    }
  }

  lemma ProfileEditorsOnlyEdit(s: State, e: Editor, v: EditValue)
    requires OnlyEdits(e, s.fields, s.fields) && EditsProfile(e)
    ensures OnlyEdits(e, s.fields, Apply(s, e, v).fields)
  {
    match e
    case BatteryTypeEditor => BatteryTypeOnlyEdits(s, v.value);
    case CapacityEditor => CapacityOnlyEdits(s, v.value);
    case VoltageSystemEditor => VoltageSystemOnlyEdits(s, v.value);
  }

  lemma OtherEditorsOnlyEdit(s: State, e: Editor, v: EditValue)
    requires OnlyEdits(e, s.fields, s.fields) && !EditsProfile(e)
    ensures OnlyEdits(e, s.fields, Apply(s, e, v).fields)
    ensures SetsTheClock(e) ==> Apply(s, e, v).fields[TIME_SET] == FlagField(true)
  {
  }

  lemma ApplyOnlyEdits(s: State, e: Editor, v: EditValue)
    requires OnlyEdits(e, s.fields, s.fields)
    ensures OnlyEdits(e, s.fields, Apply(s, e, v).fields)
    ensures SetsTheClock(e) ==> Apply(s, e, v).fields[TIME_SET] == FlagField(true)
  {
    if EditsProfile(e) {
      ProfileEditorsOnlyEdit(s, e, v);
    } else {
      OtherEditorsOnlyEdit(s, e, v);
    }
  }

  lemma {:induction false} ApplyAllOnlyEdits(s: State, e: Editor, vs: seq<EditValue>)
    requires OnlyEdits(e, s.fields, s.fields)
    ensures OnlyEdits(e, s.fields, ApplyAll(s, e, vs).fields)
    ensures SetsTheClock(e) && |vs| > 0 ==> ApplyAll(s, e, vs).fields[TIME_SET] == FlagField(true)
    decreases |vs|
  {
    if |vs| > 0 {
      ApplyAllOnlyEdits(s, e, vs[..|vs| - 1]);
      ApplyOnlyEdits(ApplyAll(s, e, vs[..|vs| - 1]), e, vs[|vs| - 1]);
    }
  }

  /** What the restore leaves in row i. */
  function RestoredField(s: State, x: Session, i: nat): Field
    requires |s.fields| == COUNT == |x.runtime.fields| && i < COUNT
    requires Assignable(KindAt(i), s.fields[i]) || i != x.index
  {
    if i == INVERTER_VOLTAGE then IntField(Byte(x.runtime.nominalVoltage))
    else if RuntimeRow(i) then x.runtime.fields[i]
    else if i == x.index then Assign(KindAt(i), x.value, s.fields[i])
    else s.fields[i]
  }

  lemma RestoreRow(s: State, x: Session, i: nat)
    requires |s.fields| == COUNT == |x.runtime.fields| && x.index < COUNT && i < COUNT
    requires Assignable(KindAt(x.index), s.fields[x.index])
    ensures |Restore(s, x).fields| == COUNT && Restore(s, x).fields[i] == RestoredField(s, x, i)
  {
  }

  /** The row `f` left by the restore, against the table the editor opened on. */
  predicate RowIsBack(s: State, edited: State, i: nat, f: Field)
    requires Fitting(s.fields) && |edited.fields| == COUNT && i < COUNT
  {
    if i == TIME_SET then f == edited.fields[i]
    else
      && Fits(KindAt(i), f)
      && if i == INVERTER_VOLTAGE then f == IntField(Byte(s.nominalVoltage)) else Encode(KindAt(i), f) == Encode(KindAt(i), s.fields[i])
  }

  /** The editor's own row is restored from its encoded value alone. */
  lemma OwnRowIsBack(s: State, e: Editor, edited: State)
    requires Fitting(s.fields) && OnlyEdits(e, s.fields, edited.fields)
    ensures Assignable(KindAt(IndexOf(e)), edited.fields[IndexOf(e)])
    ensures var i := IndexOf(e);
            i != TIME_SET && (!RuntimeRow(i) ==> RowIsBack(s, edited, i, RestoredField(edited, Open(s, e), i)))
  {
    var i := IndexOf(e);
    EncodeHolds(KindAt(i), s.fields[i]);
    AssignEncodes(KindAt(i), Encode(KindAt(i), s.fields[i]), edited.fields[i]);
  }

  lemma OtherRowIsBack(s: State, e: Editor, edited: State, i: nat)
    requires Fitting(s.fields) && OnlyEdits(e, s.fields, edited.fields) && i < COUNT && (i != IndexOf(e) || RuntimeRow(i))
    requires Assignable(KindAt(IndexOf(e)), edited.fields[IndexOf(e)])
    ensures RowIsBack(s, edited, i, RestoredField(edited, Open(s, e), i))
  {
  }

  lemma EveryRowIsBack(s: State, e: Editor, edited: State, i: nat)
    requires Fitting(s.fields) && OnlyEdits(e, s.fields, edited.fields) && i < COUNT
    ensures Assignable(KindAt(IndexOf(e)), edited.fields[IndexOf(e)])
    ensures var r := Restore(edited, Open(s, e)).fields; |r| == COUNT && RowIsBack(s, edited, i, r[i])
  {
    OwnRowIsBack(s, e, edited);
    RestoreRow(edited, Open(s, e), i);
    if i != IndexOf(e) || RuntimeRow(i) {
      OtherRowIsBack(s, e, edited, i);
    }
  }

  // ---------------------------------------------------------------- what an edit does

  predicate EntersHundredths(e: Editor) {
    e.VoltageEditor? || e.CurrentEditor? || e.TemperatureEditor? || e.CutoffEditor?
  }

  predicate EntersByte(e: Editor) {
    e.ScrollSpeedEditor? || e.QuietStartEditor? || e.QuietEndEditor? || SetsTheClock(e)
  }

  predicate EntersTruncatedFlag(e: Editor) { e.AutoShutdownEditor? || e.ScrollEnableEditor? }

  predicate EntersFlag(e: Editor) {
    e.SoundEnableEditor? || e.QuietEnableEditor? || e.BluetoothEditor? || e.AutoReconnectEditor? || e.AutoOnEditor?
  }

  /** The values the editor's row can take; a profile editor also needs the rest of the profile to be valid. */
  predicate Accepts(s: State, e: Editor, v: EditValue)
    requires |s.fields| == COUNT
  {
    if EntersHundredths(e) then -20_000_000.0 <= v.value <= 20_000_000.0
    else if EntersByte(e) || EntersTruncatedFlag(e) then -1.0 < v.value < 256.0
    else match e
      case FrequencyEditor => IsInt32(v.bits)
      case TimeoutEditor => -2_147_483_649.0 < v.value < 2_147_483_648.0
      case UtcOffsetEditor => -129.0 < v.value < 128.0
      case BatteryTypeEditor => 0.0 <= v.value < 5.5 && BatteryProfile.ValidVoltage(s.nominalVoltage) && CapacityUsable(s)
      case CapacityEditor => 1.0 <= v.value <= 10000.0 && BatteryProfile.ValidVoltage(s.nominalVoltage) && TypeUsable(s)
      case VoltageSystemEditor => -1.0 < v.value < 3.0 && TypeUsable(s) && CapacityUsable(s)
      case _ => true
  }

  predicate TypeUsable(s: State)
    requires |s.fields| == COUNT
  {
    0 <= CellAt(s, PROFILE_ID) < 6
  }

  predicate CapacityUsable(s: State)
    requires |s.fields| == COUNT
  {
    1.0 <= RealAt(s, CAPACITY) < 10001.0
  }

  /** `n` is what the row of the editor encodes once `v` has been entered. */
  predicate Enters(e: Editor, v: EditValue, n: int) {
    if EntersHundredths(e) then IsNearest(n, v.value * 100.0)
    else if EntersByte(e) then IsWholePart(n, v.value)
    else if EntersTruncatedFlag(e) then n == if v.value >= 1.0 then 1 else 0
    else if EntersFlag(e) then n == if v.value != 0.0 then 1 else 0
    else match e
      case FrequencyEditor => n == v.bits
      case TimeoutEditor => IsWholePart(n, v.value)
      case UtcOffsetEditor => IsWholePart(n, v.value)
      case SoundVolumeEditor => 0 <= n <= 100 && (0.0 <= v.value <= 100.0 ==> IsNearest(n, v.value))
                                && (v.value < 0.0 ==> n == 0) && (v.value > 100.0 ==> n == 100)
      case VoltageSystemEditor => (v.value < 1.0 ==> n == 12) && (1.0 <= v.value < 2.0 ==> n == 24) && (v.value >= 2.0 ==> n == 48)
      case _ => IsNearest(n, v.value)
  }

  /** The row of the editor takes an acceptable value; the profile editors refuse any other. */
  predicate RowTakes(s: State, e: Editor, v: EditValue, t: State)
    requires |s.fields| == COUNT == |t.fields|
  {
    var kind, f := KindAt(IndexOf(e)), t.fields[IndexOf(e)];
    if Accepts(s, e, v) then Fits(kind, f) && Enters(e, v, Encode(kind, f)) else EditsProfile(e) ==> t == s
  }

  /** The runtime state that goes with the row. */
  predicate RuntimeFollows(s: State, e: Editor, v: EditValue, t: State)
    requires |s.fields| == COUNT == |t.fields|
  {
    match e
    case VoltageEditor => t.fields[OUTPUT_VOLTAGE] == SetpointAfter(s.fields[OUTPUT_VOLTAGE], v.value)
    case FrequencyEditor =>
      t.fields[OUTPUT_FREQUENCY] == if 45.0 <= v.value <= 65.0 then RealField(v.value) else s.fields[OUTPUT_FREQUENCY]
    case CurrentEditor =>
      t.currentLimit == v.value
      && t.fields[OUTPUT_VOLTAGE] == if (v.value == 0.0 || 1.0 <= v.value <= 50.0) && v.value * 10.0 > RealAt(s, OUTPUT_VOLTAGE)
                                     then SetpointAfter(s.fields[OUTPUT_VOLTAGE], v.value * 10.0) else s.fields[OUTPUT_VOLTAGE]
    case TemperatureEditor => t.temperatureLimit == v.value
    case TimeoutEditor => IsWholePart(t.systemTimeout, v.value)
    case CutoffEditor =>
      t.batteryCutoff == v.value
      && t.cutoffVoltage == if s.cutoffMin <= v.value <= RealAt(s, HIGH_BATTERY) && v.value < RealAt(s, RECHARGE)
                            then v.value else s.cutoffVoltage
    case _ => true
  }

  /** An output voltage outside 100..240 V, other than 0, is refused. */
  function SetpointAfter(f: Field, v: real): Field {
    if v == 0.0 || 100.0 <= v <= 240.0 then RealField(v) else f
  }

  /** The rows besides its own that an editor may write. */
  predicate AlsoWrites(e: Editor, i: int) {
    || (SetsTheClock(e) && i == TIME_SET)
    || (EditsProfile(e) && (i == INVERTER_VOLTAGE || PROFILE_ID <= i <= RECHARGE))
    || ((e.VoltageEditor? || e.CurrentEditor?) && i == OUTPUT_VOLTAGE)
    || (e.FrequencyEditor? && i == OUTPUT_FREQUENCY)
  }

  /** Everything an editor is not about stays. */
  predicate LeavesTheRest(s: State, e: Editor, t: State) {
    && |s.fields| == COUNT == |t.fields|
    && (forall i :: 0 <= i < COUNT && i != IndexOf(e) && !AlsoWrites(e, i) ==> t.fields[i] == s.fields[i])
    && (!EditsProfile(e) ==> t.nominalVoltage == s.nominalVoltage && t.cutoffMin == s.cutoffMin
                             && t.batteryVoltageSystem == s.batteryVoltageSystem)
    && (!e.CurrentEditor? ==> t.currentLimit == s.currentLimit)
    && (!e.TemperatureEditor? ==> t.temperatureLimit == s.temperatureLimit)
    && (!e.TimeoutEditor? ==> t.systemTimeout == s.systemTimeout)
    && (!e.CutoffEditor? ==> t.cutoffVoltage == s.cutoffVoltage)
    && (!e.CutoffEditor? && !e.CapacityEditor? ==> t.batteryCutoff == s.batteryCutoff)
  }

  /** A profile editor changes one of type, capacity and voltage and keeps the other two, a capacity to its
      whole part; the stored voltage follows. */
  predicate ProfileFollows(s: State, e: Editor, t: State)
    requires |s.fields| == COUNT == |t.fields|
  {
    && (!e.BatteryTypeEditor? ==> CellAt(t, PROFILE_ID) == CellAt(s, PROFILE_ID))
    && (!e.CapacityEditor? ==> t.fields[CAPACITY].RealField? && IsWhole(RealAt(t, CAPACITY))
                               && IsWholePart(RealAt(t, CAPACITY).Floor, RealAt(s, CAPACITY)))
    && (!e.VoltageSystemEditor? ==> t.nominalVoltage == s.nominalVoltage)
    && t.fields[INVERTER_VOLTAGE] == IntField(t.nominalVoltage) && t.batteryVoltageSystem == t.nominalVoltage
    && (e.CapacityEditor? ==>
          t.batteryCutoff == RealAt(t, CUTOFF)
          && (t.cutoffMin <= RealAt(s, CUTOFF) <= RealAt(t, HIGH_BATTERY) && RealAt(s, CUTOFF) <= RealAt(t, RECHARGE) - 0.3
              ==> RealAt(t, CUTOFF) == RealAt(s, CUTOFF)))
  }

  predicate TakesEffect(s: State, e: Editor, v: EditValue, t: State) {
    && LeavesTheRest(s, e, t)
    && RowTakes(s, e, v, t)
    && RuntimeFollows(s, e, v, t)
    && (EditsProfile(e) && Accepts(s, e, v) ==> ProfileFollows(s, e, t))
    && (SetsTheClock(e) ==> t.fields[TIME_SET] == FlagField(true))
  }

  lemma VoltageTakesEffect(s: State, v: EditValue)
    requires |s.fields| == COUNT
    ensures TakesEffect(s, VoltageEditor, v, Apply(s, VoltageEditor, v))
  {
    RoundAndTrunc(v.value * 100.0);
  }

  lemma CutoffTakesEffect(s: State, v: EditValue)
    requires |s.fields| == COUNT
    ensures TakesEffect(s, CutoffEditor, v, Apply(s, CutoffEditor, v))
  {
    RoundAndTrunc(v.value * 100.0);
  }

  lemma CurrentTakesEffect(s: State, v: EditValue)
    requires |s.fields| == COUNT
    ensures TakesEffect(s, CurrentEditor, v, Apply(s, CurrentEditor, v))
  {
    RoundAndTrunc(v.value * 100.0);
  }

  lemma TemperatureTakesEffect(s: State, v: EditValue)
    requires |s.fields| == COUNT
    ensures TakesEffect(s, TemperatureEditor, v, Apply(s, TemperatureEditor, v))
  {
    RoundAndTrunc(v.value * 100.0);
  }

  lemma FrequencyTakesEffect(s: State, v: EditValue)
    requires |s.fields| == COUNT
    ensures TakesEffect(s, FrequencyEditor, v, Apply(s, FrequencyEditor, v))
  {
  }

  lemma TimeoutTakesEffect(s: State, v: EditValue)
    requires |s.fields| == COUNT
    ensures TakesEffect(s, TimeoutEditor, v, Apply(s, TimeoutEditor, v))
  {
    RoundAndTrunc(v.value);
  }

  /** The editors without runtime state. */
  predicate EditsOneRow(e: Editor) {
    EntersByte(e) || EntersTruncatedFlag(e) || EntersFlag(e) || e.UtcOffsetEditor? || e.SoundVolumeEditor?
  }

  lemma OneRowTakesEffect(s: State, e: Editor, v: EditValue, f: Field, t: State)
    requires |s.fields| == COUNT && EditsOneRow(e)
    requires var u := SetRow(s, IndexOf(e), f); t == if SetsTheClock(e) then SetRow(u, TIME_SET, FlagField(true)) else u
    requires Accepts(s, e, v) ==> Fits(KindAt(IndexOf(e)), f) && Enters(e, v, Encode(KindAt(IndexOf(e)), f))
    ensures TakesEffect(s, e, v, t)
  {
    OneRowLeavesTheRest(s, e, f, t);
    assert t.fields[IndexOf(e)] == f;
  }

  lemma OneRowLeavesTheRest(s: State, e: Editor, f: Field, t: State)
    requires |s.fields| == COUNT && EditsOneRow(e)
    requires var u := SetRow(s, IndexOf(e), f); t == if SetsTheClock(e) then SetRow(u, TIME_SET, FlagField(true)) else u
    ensures LeavesTheRest(s, e, t) && t.fields[IndexOf(e)] == f && (SetsTheClock(e) ==> t.fields[TIME_SET] == FlagField(true))
  {
  }

  lemma ByteOfEntered(x: real)
    requires -1.0 < x < 256.0
    ensures Byte(Trunc(x)) == Trunc(x) && IsWholePart(Byte(Trunc(x)), x) && 0 <= Byte(Trunc(x)) < 256
    ensures Byte(Trunc(x)) != 0 <==> x >= 1.0
  {
    RoundAndTrunc(x);
  }

  lemma ByteEditTakesEffect(s: State, e: Editor, v: EditValue)
    requires |s.fields| == COUNT && EntersByte(e)
    ensures TakesEffect(s, e, v, Apply(s, e, v))
  {
    if Accepts(s, e, v) {
      ByteOfEntered(v.value);
    }
    OneRowTakesEffect(s, e, v, IntField(Byte(Trunc(v.value))), Apply(s, e, v));
  }

  lemma TruncatedFlagTakesEffect(s: State, e: Editor, v: EditValue)
    requires |s.fields| == COUNT && EntersTruncatedFlag(e)
    ensures TakesEffect(s, e, v, Apply(s, e, v))
  {
    if Accepts(s, e, v) {
      ByteOfEntered(v.value);
    }
    OneRowTakesEffect(s, e, v, FlagField(Byte(Trunc(v.value)) != 0), Apply(s, e, v));
  }

  lemma FlagEditTakesEffect(s: State, e: Editor, v: EditValue)
    requires |s.fields| == COUNT && EntersFlag(e)
    ensures TakesEffect(s, e, v, Apply(s, e, v))
  {
    OneRowTakesEffect(s, e, v, FlagField(v.value != 0.0), Apply(s, e, v));
  }

  lemma SmallOffset(x: real)
    requires -129.0 < x < 128.0
    ensures Byte(Trunc(x) + 128) - 128 == Trunc(x) && IsWholePart(Trunc(x), x) && -128 <= Trunc(x) < 128
  {
    RoundAndTrunc(x);
  }

  lemma OffsetTakesEffect(s: State, v: EditValue)
    requires |s.fields| == COUNT
    ensures TakesEffect(s, UtcOffsetEditor, v, Apply(s, UtcOffsetEditor, v))
  {
    if Accepts(s, UtcOffsetEditor, v) {
      SmallOffset(v.value);
    }
    OneRowTakesEffect(s, UtcOffsetEditor, v, IntField(Byte(Trunc(v.value) + 128) - 128), Apply(s, UtcOffsetEditor, v));
  }

  lemma VolumeEntered(x: real)
    ensures var n := if x < 0.0 then 0 else if x > 100.0 then 100 else BatteryProfile.Nearest(x);
            0 <= n <= 100 && Byte(n) == n && (0.0 <= x <= 100.0 ==> IsNearest(n, x))
  {
    RoundAndTrunc(x);
  }

  lemma VolumeTakesEffect(s: State, v: EditValue)
    requires |s.fields| == COUNT
    ensures TakesEffect(s, SoundVolumeEditor, v, Apply(s, SoundVolumeEditor, v))
  {
    VolumeEntered(v.value);
    var n := if v.value < 0.0 then 0 else if v.value > 100.0 then 100 else BatteryProfile.Nearest(v.value);
    OneRowTakesEffect(s, SoundVolumeEditor, v, IntField(n), Apply(s, SoundVolumeEditor, v));
  }

  /** The whole profile is `p`, the stored voltage with it, and nothing else has changed but perhaps the
      copy of the cutoff. */
  predicate ProfileSet(s: State, p: BatteryProfile.Profile, t: State) {
    && |s.fields| == COUNT == |t.fields|
    && (forall i :: 0 <= i < COUNT && i != INVERTER_VOLTAGE && !(PROFILE_ID <= i <= RECHARGE) ==> t.fields[i] == s.fields[i])
    && t.fields[INVERTER_VOLTAGE] == IntField(p.nominalVoltage) && t.fields[PROFILE_ID] == IntField(p.profileId)
    && t.fields[CAPACITY] == RealField(p.capacityAh) && t.fields[CUTOFF] == RealField(p.cutoff)
    && t.fields[HIGH_BATTERY] == RealField(p.highBattery) && t.fields[RECHARGE] == RealField(p.recharge)
    && t.nominalVoltage == p.nominalVoltage && t.batteryVoltageSystem == p.nominalVoltage && t.cutoffMin == p.cutoffMin
    && t.currentLimit == s.currentLimit && t.temperatureLimit == s.temperatureLimit
    && t.systemTimeout == s.systemTimeout && t.cutoffVoltage == s.cutoffVoltage
  }

  lemma ReplacingSetsProfile(s: State, p: BatteryProfile.Profile)
    requires |s.fields| == COUNT && BatteryProfile.ValidVoltage(p.nominalVoltage)
    ensures ProfileSet(s, p, SyncVoltage(WithProfile(s, p))) && SyncVoltage(WithProfile(s, p)).batteryCutoff == s.batteryCutoff
  {
    ProfileEditsOnly(s, p);
    assert Byte(p.nominalVoltage) == p.nominalVoltage;
  }

  /** A generated profile has the type, voltage and capacity asked for. */
  lemma GeneratedAsAsked(batteryType: int, voltage: int, capacity: int)
    ensures var g := BatteryProfile.Generate(batteryType, voltage, capacity);
            if 0 <= batteryType < 6 && BatteryProfile.ValidVoltage(voltage) && 1 <= capacity <= 10000
            then g.Made? && g.profile.profileId == batteryType && g.profile.nominalVoltage == voltage && g.profile.capacityAh == capacity as real
            else g.NoProfile?
  {
  }

  lemma BatteryTypeTakesEffect(s: State, v: EditValue)
    requires |s.fields| == COUNT
    ensures TakesEffect(s, BatteryTypeEditor, v, Apply(s, BatteryTypeEditor, v))
  {
    var t, n, capacity := ApplyBatteryType(s, v.value), BatteryProfile.Nearest(v.value), Trunc(RealAt(s, CAPACITY));
    RoundAndTrunc(v.value);
    RoundAndTrunc(RealAt(s, CAPACITY));
    GeneratedAsAsked(n, s.nominalVoltage, capacity);
    if Accepts(s, BatteryTypeEditor, v) {
      var p := BatteryProfile.Generate(n, s.nominalVoltage, capacity).profile;
      ReplacingSetsProfile(s, p);
      ProfileEditEffect(s, BatteryTypeEditor, v, p, t);
    } else {
      assert t == s;
    }
  }

  lemma CapacityTakesEffect(s: State, v: EditValue)
    requires |s.fields| == COUNT
    ensures TakesEffect(s, CapacityEditor, v, Apply(s, CapacityEditor, v))
  {
    var t, n, id := ApplyCapacity(s, v.value), BatteryProfile.Nearest(v.value), CellAt(s, PROFILE_ID);
    RoundAndTrunc(v.value);
    GeneratedAsAsked(id, s.nominalVoltage, n);
    if Accepts(s, CapacityEditor, v) {
      var g := BatteryProfile.Generate(id, s.nominalVoltage, n).profile;
      var keeps := g.cutoffMin <= RealAt(s, CUTOFF) <= g.recharge - 0.3 && RealAt(s, CUTOFF) <= g.highBattery;
      var p := if keeps then g.(cutoff := RealAt(s, CUTOFF)) else g;
      ReplacingSetsProfile(s, p);
      assert t == SyncVoltage(WithProfile(s, p)).(batteryCutoff := p.cutoff);
      ProfileEditEffect(s, CapacityEditor, v, p, t);
    } else {
      assert t == s;
    }
  }

  lemma VoltageSystemTakesEffect(s: State, v: EditValue)
    requires |s.fields| == COUNT
    ensures TakesEffect(s, VoltageSystemEditor, v, Apply(s, VoltageSystemEditor, v))
  {
    var t, n, capacity := ApplyVoltageSystem(s, v.value), Trunc(v.value), Trunc(RealAt(s, CAPACITY));
    RoundAndTrunc(v.value);
    RoundAndTrunc(RealAt(s, CAPACITY));
    if Accepts(s, VoltageSystemEditor, v) {
      GeneratedAsAsked(CellAt(s, PROFILE_ID), VoltageOption(n), capacity);
      var p := BatteryProfile.Generate(CellAt(s, PROFILE_ID), VoltageOption(n), capacity).profile;
      ReplacingSetsProfile(s, p);
      ProfileEditEffect(s, VoltageSystemEditor, v, p, t);
    } else {
      if 0 <= n < 3 {
        GeneratedAsAsked(CellAt(s, PROFILE_ID), VoltageOption(n), capacity);
      }
      assert t == s;
    }
  }

  /** What a profile editor asked for, in terms of the profile it set. */
  predicate AsksFor(s: State, e: Editor, v: EditValue, p: BatteryProfile.Profile, t: State)
    requires |s.fields| == COUNT
  {
    && BatteryProfile.ValidVoltage(p.nominalVoltage) && 0 <= p.profileId < 6
    && IsWhole(p.capacityAh) && 1.0 <= p.capacityAh <= 10000.0
    && (if e.BatteryTypeEditor? then IsNearest(p.profileId, v.value) else p.profileId == CellAt(s, PROFILE_ID))
    && (if e.CapacityEditor? then IsNearest(p.capacityAh.Floor, v.value) else IsWholePart(p.capacityAh.Floor, RealAt(s, CAPACITY)))
    && (if e.VoltageSystemEditor? then Enters(e, v, p.nominalVoltage) else p.nominalVoltage == s.nominalVoltage)
    && (if e.CapacityEditor? then t.batteryCutoff == p.cutoff else t.batteryCutoff == s.batteryCutoff)
    && (e.CapacityEditor? && p.cutoffMin <= RealAt(s, CUTOFF) <= p.recharge - 0.3 && RealAt(s, CUTOFF) <= p.highBattery
        ==> p.cutoff == RealAt(s, CUTOFF))
  }

  lemma ProfileEditEffect(s: State, e: Editor, v: EditValue, p: BatteryProfile.Profile, t: State)
    requires |s.fields| == COUNT && EditsProfile(e) && Accepts(s, e, v)
    requires ProfileSet(s, p, t) && AsksFor(s, e, v, p, t)
    ensures TakesEffect(s, e, v, t)
  {
    if e.CapacityEditor? {
      CapacityRowTakes(s, v, p.capacityAh, t);
    } else {
      ByteRowTakes(s, e, v, if e.BatteryTypeEditor? then p.profileId else p.nominalVoltage, t);
    }
    ProfileRestFollows(s, e, v, p, t);
  }

  lemma ByteRowTakes(s: State, e: Editor, v: EditValue, n: int, t: State)
    requires |s.fields| == COUNT == |t.fields| && (e.BatteryTypeEditor? || e.VoltageSystemEditor?) && Accepts(s, e, v)
    requires t.fields[IndexOf(e)] == IntField(n) && 0 <= n < 256 && Enters(e, v, n)
    ensures RowTakes(s, e, v, t)
  {
    assert Encode(KindAt(IndexOf(e)), IntField(n)) == n;
  }

  lemma CapacityRowTakes(s: State, v: EditValue, capacity: real, t: State)
    requires |s.fields| == COUNT == |t.fields| && Accepts(s, CapacityEditor, v)
    requires t.fields[CAPACITY] == RealField(capacity) && IsWhole(capacity) && 1.0 <= capacity <= 10000.0
    requires IsNearest(capacity.Floor, v.value)
    ensures RowTakes(s, CapacityEditor, v, t)
  {
    RoundAndTrunc(capacity);
    assert Encode(KindAt(CAPACITY), RealField(capacity)) == capacity.Floor;
  }

  lemma ProfileRestFollows(s: State, e: Editor, v: EditValue, p: BatteryProfile.Profile, t: State)
    requires |s.fields| == COUNT && EditsProfile(e)
    requires ProfileSet(s, p, t) && AsksFor(s, e, v, p, t)
    ensures LeavesTheRest(s, e, t) && ProfileFollows(s, e, t)
  {
  }

  /** Every edit puts into its row what was entered, told from the value alone, and its runtime copy with it,
      and leaves everything it is not about. */
  lemma EveryEditTakesEffect(s: State, e: Editor, v: EditValue)
    requires |s.fields| == COUNT
    ensures TakesEffect(s, e, v, Apply(s, e, v))
  {
    match e
    case VoltageEditor => VoltageTakesEffect(s, v);
    case FrequencyEditor => FrequencyTakesEffect(s, v);
    case CurrentEditor => CurrentTakesEffect(s, v);
    case TemperatureEditor => TemperatureTakesEffect(s, v);
    case CutoffEditor => CutoffTakesEffect(s, v);
    case TimeoutEditor => TimeoutTakesEffect(s, v);
    case BatteryTypeEditor => BatteryTypeTakesEffect(s, v);
    case CapacityEditor => CapacityTakesEffect(s, v);
    case VoltageSystemEditor => VoltageSystemTakesEffect(s, v);
    case SoundVolumeEditor => VolumeTakesEffect(s, v);
    case UtcOffsetEditor => OffsetTakesEffect(s, v);
    case _ =>
      if EntersByte(e) {
        ByteEditTakesEffect(s, e, v);
      } else if EntersTruncatedFlag(e) {
        TruncatedFlagTakesEffect(s, e, v);
      } else {
        FlagEditTakesEffect(s, e, v);
      }
  }

  /** After any series of edits with one editor, a save captures in its row the value last entered, and in the
      rows the editor does not write what it would have captured before. */
  lemma {:induction false} SaveCapturesLastEdit(s: State, e: Editor, vs: seq<EditValue>, edited: State)
    requires Fitting(s.fields) && |vs| > 0 && edited == ApplyAll(s, e, vs) && Fitting(edited.fields)
    requires Accepts(ApplyAll(s, e, vs[..|vs| - 1]), e, vs[|vs| - 1])
    ensures SettingsRuntime.FieldsFit(Table(), s.fields) && SettingsRuntime.FieldsFit(Table(), edited.fields)
    ensures var captured := SettingsRuntime.CaptureTable(Table(), edited.fields);
            && Enters(e, vs[|vs| - 1], captured[IndexOf(e)])
            && forall i :: 0 <= i < COUNT && i != IndexOf(e) && !AlsoWrites(e, i)
                 ==> captured[i] == SettingsRuntime.CaptureTable(Table(), s.fields)[i]
  {
    EncodedIsCapture(s.fields);
    EncodedIsCapture(edited.fields);
    EveryEditTakesEffect(ApplyAll(s, e, vs[..|vs| - 1]), e, vs[|vs| - 1]);
    EditsLeaveTheRest(s, e, vs);
  }

  lemma {:induction false} EditsLeaveTheRest(s: State, e: Editor, vs: seq<EditValue>)
    requires |s.fields| == COUNT
    ensures forall i :: 0 <= i < COUNT && i != IndexOf(e) && !AlsoWrites(e, i) ==> ApplyAll(s, e, vs).fields[i] == s.fields[i]
    decreases |vs|
  {
    if |vs| > 0 {
      EditsLeaveTheRest(s, e, vs[..|vs| - 1]);
      EveryEditTakesEffect(ApplyAll(s, e, vs[..|vs| - 1]), e, vs[|vs| - 1]);
    }
  }

  // ---------------------------------------------------------------- the two copies of the system voltage

  /** The stored system voltage is the profile's. */
  predicate Synced(s: State)
    requires |s.fields| == COUNT
  {
    s.fields[INVERTER_VOLTAGE] == IntField(Byte(s.nominalVoltage))
  }

  /** sync_battery_voltage_state, which boot calls after the load, makes them agree... */
  lemma SyncMakesSynced(s: State)
    requires |s.fields| == COUNT
    ensures Synced(SyncVoltage(s))
  {
  }

  /** ... every editor keeps it so... */
  lemma ApplyKeepsSynced(s: State, e: Editor, v: EditValue)
    requires |s.fields| == COUNT && Synced(s)
    ensures Synced(Apply(s, e, v))
  {
  }

  lemma {:induction false} ApplyAllKeepsSynced(s: State, e: Editor, vs: seq<EditValue>)
    requires |s.fields| == COUNT && Synced(s)
    ensures Synced(ApplyAll(s, e, vs))
    decreases |vs|
  {
    if |vs| > 0 {
      ApplyAllKeepsSynced(s, e, vs[..|vs| - 1]);
      ApplyKeepsSynced(ApplyAll(s, e, vs[..|vs| - 1]), e, vs[|vs| - 1]);
    }
  }

  /** ... and so does a restore. */
  lemma RestoreMakesSynced(s: State, x: Session)
    requires |s.fields| == COUNT == |x.runtime.fields| && x.index < COUNT
    requires Assignable(KindAt(x.index), s.fields[x.index])
    ensures |Restore(s, x).fields| == COUNT && Synced(Restore(s, x))
  {
  }

  // ---------------------------------------------------------------- what a failed save gives back

  /** The byte stored for the system voltage is the profile's nominal voltage. */
  predicate VoltagesAgree(s: State)
    requires Fitting(s.fields)
  {
    Encode(KindAt(INVERTER_VOLTAGE), s.fields[INVERTER_VOLTAGE]) == Byte(s.nominalVoltage)
  }

  /** The runtime state beside the fields is that of `s`. */
  predicate SameRuntime(s: State, r: State) {
    && r.nominalVoltage == s.nominalVoltage && r.cutoffMin == s.cutoffMin && r.currentLimit == s.currentLimit
    && r.temperatureLimit == s.temperatureLimit && r.systemTimeout == s.systemTimeout
    && r.batteryCutoff == s.batteryCutoff && r.cutoffVoltage == s.cutoffVoltage
    && r.batteryVoltageSystem == s.batteryVoltageSystem
  }

  /** The runtime copies agree with the fields they are copies of. */
  predicate CopiesAgree(s: State)
    requires |s.fields| == COUNT
  {
    && s.batteryCutoff == RealAt(s, CUTOFF) && s.cutoffVoltage == RealAt(s, CUTOFF)
    && s.systemTimeout == CellAt(s, IndexOf(TimeoutEditor)) && s.batteryVoltageSystem == Byte(s.nominalVoltage)
  }

  lemma RestoredRuntime(edited: State, x: Session, r: State)
    requires |edited.fields| == COUNT == |x.runtime.fields| && x.index < COUNT
    requires Assignable(KindAt(x.index), edited.fields[x.index]) && r == Restore(edited, x)
    ensures |r.fields| == COUNT && r.fields[CUTOFF] == x.runtime.fields[CUTOFF]
    ensures CopiesAgree(r) && SameSources(x.runtime, r)
  {
    RestoreRow(edited, x, CUTOFF);
  }

  /** The runtime state that is not a copy of a field. */
  predicate SameSources(s: State, r: State) {
    && r.nominalVoltage == s.nominalVoltage && r.cutoffMin == s.cutoffMin && r.currentLimit == s.currentLimit
    && r.temperatureLimit == s.temperatureLimit
  }

  lemma SameExactlyWhenCopiesAgree(s: State, r: State)
    requires |s.fields| == COUNT == |r.fields| && SameSources(s, r) && CopiesAgree(r)
    requires r.fields[CUTOFF] == s.fields[CUTOFF] && r.fields[IndexOf(TimeoutEditor)] == s.fields[IndexOf(TimeoutEditor)]
    ensures SameRuntime(s, r) <==> CopiesAgree(s)
  {
  }

  lemma CellIsBack(s: State, edited: State, i: nat, f: Field)
    requires Fitting(s.fields) && |edited.fields| == COUNT && i < COUNT && KindAt(i).Signed32? && RowIsBack(s, edited, i, f)
    ensures f == s.fields[i]
  {
  }

  /** The timeout row, an int32, is back cell for cell. */
  lemma TimeoutIsBack(s: State, e: Editor, edited: State, r: State)
    requires Fitting(s.fields) && OnlyEdits(e, s.fields, edited.fields)
    requires Assignable(KindAt(IndexOf(e)), edited.fields[IndexOf(e)]) && r == Restore(edited, Open(s, e))
    ensures |r.fields| == COUNT && r.fields[IndexOf(TimeoutEditor)] == s.fields[IndexOf(TimeoutEditor)]
  {
    var i := IndexOf(TimeoutEditor);
    EveryRowIsBack(s, e, edited, i);
    CellIsBack(s, edited, i, r.fields[i]);
  }

  /** A failed save also gives the runtime state back, exactly when its copies agreed with the fields as the
      editor opened; afterwards they do. */
  lemma {:induction false} RuntimeIsBackExactlyWhen(s: State, e: Editor, vs: seq<EditValue>, edited: State)
    requires Fitting(s.fields) && edited == ApplyAll(s, e, vs)
    ensures |edited.fields| == COUNT && Assignable(KindAt(IndexOf(e)), edited.fields[IndexOf(e)])
    ensures var r := Restore(edited, Open(s, e));
            |r.fields| == COUNT && CopiesAgree(r) && (SameRuntime(s, r) <==> CopiesAgree(s))
  {
    ApplyAllOnlyEdits(s, e, vs);
    OwnRowIsBack(s, e, edited);
    var r := Restore(edited, Open(s, e));
    RestoredRuntime(edited, Open(s, e), r);
    TimeoutIsBack(s, e, edited, r);
    SameExactlyWhenCopiesAgree(s, r);
  }

  /** After boot: if persisting an edit fails, every encoded value in the table is what it was when the
      editor opened, exactly when the editor is not a clock editor or the time had been set by hand. */
  lemma RollbackAfterBootExactlyWhen(s: State, e: Editor, vs: seq<EditValue>, edited: State)
    requires Fitting(s.fields) && Synced(s) && |vs| > 0 && edited == ApplyAll(s, e, vs)
    ensures Assignable(KindAt(IndexOf(e)), edited.fields[IndexOf(e)]) && Synced(edited)
    ensures var r := Restore(edited, Open(s, e));
            && Fitting(r.fields) && Synced(r)
            && (Encoded(r.fields) == Encoded(s.fields) <==> !SetsTheClock(e) || s.fields[TIME_SET] == FlagField(true))
  {
    ApplyAllKeepsSynced(s, e, vs);
    RollbackRestoresExactlyWhen(s, e, vs, edited);
    RestoreMakesSynced(edited, Open(s, e));
    ByteOfByte(s.nominalVoltage);
  }

  lemma ByteOfByte(x: int)
    ensures Byte(Byte(x)) == Byte(x)
  {
  }

  /** The fields as restored defaults leave them, with a 12 V profile. */
  function DefaultFields(): (f: seq<Field>)
    ensures |f| == COUNT
  {
    seq(COUNT, i requires 0 <= i < COUNT => Assign(KindAt(i), DefaultEncoded(Row(i)), IntField(0)))
  }

  lemma DefaultFieldsFit(fields: seq<Field>)
    requires fields == DefaultFields()
    ensures Fitting(fields)
  {
    forall i | 0 <= i < COUNT
      ensures Fits(KindAt(i), fields[i])
    {
      KindOfRow(i);
      DefaultOfRow(i);
      AssignEncodes(KindAt(i), DefaultEncoded(Row(i)), IntField(0));
    }
  }

  lemma DefaultRows(voltage: nat, time: nat)
    requires voltage == INVERTER_VOLTAGE && time == TIME_SET
    ensures DefaultFields()[voltage] == IntField(12) && DefaultFields()[time] == FlagField(false)
  {
    KindOfRow(voltage);
    KindOfRow(time);
  }

  lemma SyncedAtTwelve(s: State)
    requires |s.fields| == COUNT && s.nominalVoltage == 12 && s.fields[INVERTER_VOLTAGE] == IntField(12)
    ensures Synced(s)
  {
  }

  /** Set Hour on the defaults, where the time has never been set: the failed save leaves the flag set. */
  lemma SetHourIsNotTakenBack(s: State, edited: State)
    requires s.fields == DefaultFields() && s.nominalVoltage == 12
    requires edited == ApplyAll(s, HourEditor, [EditValue(7.0, 0)])
    ensures Fitting(s.fields) && Synced(s)
    ensures |edited.fields| == COUNT && Assignable(KindAt(IndexOf(HourEditor)), edited.fields[IndexOf(HourEditor)])
    ensures var r := Restore(edited, Open(s, HourEditor)).fields; Fitting(r) && Encoded(r) != Encoded(s.fields)
  {
    DefaultFieldsFit(s.fields);
    DefaultRows(INVERTER_VOLTAGE, TIME_SET);
    SyncedAtTwelve(s);
    var vs := [EditValue(7.0, 0)];
    RollbackAfterBootExactlyWhen(s, HourEditor, vs, edited);
  }

  /** From any state: if persisting an edit fails, every encoded value in the table is what it was when the
      editor opened, exactly when the stored system voltage agreed with the profile's and, for the two
      clock editors, the time had been set by hand before. */
  lemma {:induction false} RollbackRestoresExactlyWhen(s: State, e: Editor, vs: seq<EditValue>, edited: State)
    requires Fitting(s.fields) && |vs| > 0 && edited == ApplyAll(s, e, vs)
    ensures OnlyEdits(e, s.fields, edited.fields)
    ensures Assignable(KindAt(IndexOf(e)), edited.fields[IndexOf(e)])
    ensures var r := Restore(edited, Open(s, e)).fields;
            Fitting(r) &&
            (Encoded(r) == Encoded(s.fields) <==>
             VoltagesAgree(s) &&
             (SetsTheClock(e) ==> s.fields[TIME_SET] == FlagField(true)))
  {
    ApplyAllOnlyEdits(s, e, vs);
    RestoreIsExactlyWhen(s, e, edited);
  }

  lemma RestoreIsExactlyWhen(s: State, e: Editor, edited: State)
    requires Fitting(s.fields) && OnlyEdits(e, s.fields, edited.fields)
    ensures Assignable(KindAt(IndexOf(e)), edited.fields[IndexOf(e)])
    ensures var r := Restore(edited, Open(s, e)).fields;
            Fitting(r) &&
            (Encoded(r) == Encoded(s.fields) <==>
             VoltagesAgree(s) && edited.fields[TIME_SET] == s.fields[TIME_SET])
  {
    OwnRowIsBack(s, e, edited);
    var r := Restore(edited, Open(s, e)).fields;
    forall i | 0 <= i < COUNT
      ensures |r| == COUNT && RowIsBack(s, edited, i, r[i])
    {
      EveryRowIsBack(s, e, edited, i);
    }
    SameTableExactlyWhen(s, edited, r);
  }

  lemma SameTableExactlyWhen(s: State, edited: State, r: seq<Field>)
    requires Fitting(s.fields) && |edited.fields| == COUNT == |r|
    requires edited.fields[TIME_SET] == s.fields[TIME_SET] || edited.fields[TIME_SET] == FlagField(true)
    requires forall i :: 0 <= i < COUNT ==> RowIsBack(s, edited, i, r[i])
    ensures Fitting(r)
    ensures Encoded(r) == Encoded(s.fields) <==>
            VoltagesAgree(s) && edited.fields[TIME_SET] == s.fields[TIME_SET]
  {
    assert Fitting(r) by {
      assert forall i :: 0 <= i < COUNT ==> RowIsBack(s, edited, i, r[i]) && Fits(KindAt(i), s.fields[i]);
    }
    assert RowIsBack(s, edited, INVERTER_VOLTAGE, r[INVERTER_VOLTAGE]) && RowIsBack(s, edited, TIME_SET, r[TIME_SET]);
    assert Encoded(r)[INVERTER_VOLTAGE] == Byte(s.nominalVoltage);
    assert Encoded(r)[TIME_SET] == Encoded(s.fields)[TIME_SET] <==> edited.fields[TIME_SET] == s.fields[TIME_SET];
    if Encoded(r)[INVERTER_VOLTAGE] == Encoded(s.fields)[INVERTER_VOLTAGE] && edited.fields[TIME_SET] == s.fields[TIME_SET] {
      forall i | 0 <= i < COUNT
        ensures Encoded(r)[i] == Encoded(s.fields)[i]
      {
        assert RowIsBack(s, edited, i, r[i]);
      }
    }
  }
}
