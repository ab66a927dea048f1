/** The settings table of the firmware, row by row, and its storage kinds. */
module SettingsTable {
  import opened SettingsCodec
  import opened SettingsTransaction

  const COUNT := 34

  /** g_settings, row by row: key, size, default, scaled float, signed 8-bit, bool. */
  function Row(i: nat): Setting
    requires i < COUNT
  {
    if i == 0 then Setting("inv_bat_volt", 1, 12.0, false, false, false)
    else if i == 1 then Setting("inverter_active", 1, 0.0, false, false, true)
    else if i == 2 then Setting("bat_type", 1, 1.0, false, false, false)
    else if i == 3 then Setting("bat_capacity", 4, 200.0, false, false, false)
    else if i == 4 then Setting("bat_charge_cur", 4, 0.0, true, false, false)
    else if i == 5 then Setting("bat_disc_cur", 4, 0.0, true, false, false)
    else if i == 6 then Setting("bat_full_volt", 4, 0.0, true, false, false)
    else if i == 7 then Setting("bat_cutoff_volt", 4, 10.5, true, false, false)
    else if i == 8 then Setting("bat_rech_volt", 4, 14.8, true, false, false)
    else if i == 9 then Setting("brightness", 4, 100.0, false, false, false)
    else if i == 10 then Setting("backlight_time", 4, 30.0, false, false, false)
    else if i == 11 then Setting("auto_shutdown", 1, 0.0, false, false, true)
    else if i == 12 then Setting("scroll_en", 1, 0.0, false, false, true)
    else if i == 13 then Setting("sound_en", 1, 1.0, false, false, true)
    else if i == 14 then Setting("sound_vol", 1, 50.0, false, false, false)
    else if i == 15 then Setting("quiet_en", 1, 0.0, false, false, true)
    else if i == 16 then Setting("quiet_start", 1, 22.0, false, false, false)
    else if i == 17 then Setting("quiet_end", 1, 6.0, false, false, false)
    else if i == 18 then Setting("utc_offset", 1, 0.0, false, true, false)
    else if i == 19 then Setting("man_hour", 1, 0.0, false, false, false)
    else if i == 20 then Setting("man_min", 1, 0.0, false, false, false)
    else if i == 21 then Setting("time_set", 1, 0.0, false, false, true)
    else if i == 22 then Setting("scroll_spd", 1, 3.0, false, false, false)
    else if i == 23 then Setting("out_volt", 4, 220.0, true, false, false)
    else if i == 24 then Setting("out_freq", 4, 50.0, true, false, false)
    else if i == 25 then Setting("volt_threshold", 4, 220.0, true, false, false)
    else if i == 26 then Setting("current_limit", 4, 50.0, true, false, false)
    else if i == 27 then Setting("temp_alarm", 4, 70.0, true, false, false)
    else if i == 28 then Setting("frequency_range", 4, 50.0, false, false, false)
    else if i == 29 then Setting("system_timeout", 4, 300000.0, false, false, false)
    else if i == 30 then Setting("security_en", 1, 1.0, false, false, true)
    else if i == 31 then Setting("bluetooth_en", 1, 0.0, false, false, true)
    else if i == 32 then Setting("wifi_auto_rec", 1, 1.0, false, false, true)
    else Setting("wifi_auto_on", 1, 0.0, false, false, true)
  }

  function Table(): (t: seq<Setting>)
    ensures |t| == COUNT && forall i :: 0 <= i < COUNT ==> t[i] == Row(i)
  {
    seq(COUNT, i requires 0 <= i < COUNT => Row(i))
  }

  // Rows that live in the battery profile or are written through runtime state.
  const INVERTER_VOLTAGE := 0
  const PROFILE_ID := 2
  const CAPACITY := 3
  const MAX_CHARGE := 4
  const MAX_DISCHARGE := 5
  const HIGH_BATTERY := 6
  const CUTOFF := 7
  const RECHARGE := 8
  const TIME_SET := 21
  const OUTPUT_VOLTAGE := 23
  const OUTPUT_FREQUENCY := 24

  /** The storage kind of each row, read off the flags. */
  function KindAt(i: nat): Kind
    requires i < COUNT
  {
    if i == 1 || 11 <= i <= 13 || i == 15 || i == 21 || i >= 30 then Flag
    else if 4 <= i <= 8 || 23 <= i <= 27 then Scaled
    else if i == 18 then Signed8
    else if i == 3 then Unsigned16
    else if i == 9 || i == 10 || i == 28 || i == 29 then Signed32
    else Unsigned8
  }

  lemma KindOfRow(i: nat)
    requires i < COUNT
    ensures KindOf(Row(i)) == KindAt(i)
  {
    assert |CAPACITY_KEY| == 12;
  }

  /** The row a key belongs to, told by its length and a character or two; COUNT for no row. */
  function Position(key: string): nat {
    match |key|
    case 7 => 20
    case 8 =>
      if key[0] == 'b' then PROFILE_ID
      else if key[0] == 's' then 13
      else if key[0] == 'q' then 15
      else if key[0] == 'm' then 19
      else if key[0] == 't' then TIME_SET
      else if key[4] == 'v' then OUTPUT_VOLTAGE
      else OUTPUT_FREQUENCY
    case 9 => if key[0] == 'q' then 17 else if key[1] == 'c' then 12 else 14
    case 10 =>
      if key[0] == 'b' then 9
      else if key[0] == 'u' then 18
      else if key[0] == 't' then 27
      else if key[1] == 'c' then 22
      else COUNT
    case 11 => if key[0] == 'q' then 16 else if key[2] == 'c' then 30 else COUNT
    case 12 =>
      if key[0] == 'i' then INVERTER_VOLTAGE
      else if key[0] == 'w' then 33
      else if key[1] == 'l' then 31
      else if key[4] == 'c' then CAPACITY
      else MAX_DISCHARGE
    case 13 =>
      if key[0] == 'a' then 11
      else if key[0] == 'c' then 26
      else if key[0] == 'w' then 32
      else if key[4] == 'f' then HIGH_BATTERY
      else RECHARGE
    case 14 =>
      if key[0] == 'v' then 25
      else if key[0] == 's' then 29
      else if key[4] == 'c' then MAX_CHARGE
      else 10
    case 15 => if key[0] == 'i' then 1 else if key[0] == 'f' then 28 else CUTOFF
    case _ => COUNT
  }

  lemma PositionOfEarlyRow(i: nat)
    requires i < 12
    ensures Position(Row(i).key) == i
  {
  }

  lemma PositionOfMiddleRow(i: nat)
    requires 12 <= i < 23
    ensures Position(Row(i).key) == i
  {
  }

  lemma PositionOfLateRow(i: nat)
    requires 23 <= i < COUNT
    ensures Position(Row(i).key) == i
  {
  }

  /** No two rows share a key. */
  lemma PositionOfRow(i: nat)
    requires i < COUNT
    ensures Position(Row(i).key) == i
  {
    if i < 12 {
      PositionOfEarlyRow(i);
    } else if i < 23 {
      PositionOfMiddleRow(i);
    } else {
      PositionOfLateRow(i);
    }
  }

  lemma DefaultOfRow(i: nat)
    requires i < COUNT
    ensures DefaultFits(Row(i))
  {
    KindOfRow(i);
  }

  /** The number an encoded value stands for: hundredths for a scaled row, 0 or 1 for a flag. */
  function Meaning(kind: Kind, encoded: int): real {
    if kind.Scaled? then encoded as real / 100.0 else encoded as real
  }

  /** Every default of the firmware is exactly what its encoding means. */
  lemma DefaultIsExact(i: nat)
    requires i < COUNT
    ensures Meaning(KindAt(i), DefaultEncoded(Row(i))) == Row(i).defaultValue
  {
    KindOfRow(i);
    RoundAndTrunc(Row(i).defaultValue);
    RoundAndTrunc(Row(i).defaultValue * 100.0);
  }

  /** The firmware's table meets everything the transaction theorems ask of a table. */
  lemma TableIsWellFormed()
    ensures WellFormed(Table())
  {
    assert Position(VALID_KEY) == Position(GEN_KEY) == Position(CRC_KEY) == COUNT;
    forall i | 0 <= i < COUNT
      ensures DefaultFits(Row(i)) && Position(Row(i).key) == i
    {
      DefaultOfRow(i);
      PositionOfRow(i);
    }
    forall i, j | 0 <= i < j < COUNT
      ensures Table()[i].key != Table()[j].key
    {
      assert Position(Row(i).key) == i && Position(Row(j).key) == j;
    }
  }

  /** A snapshot survives storage exactly when its battery capacity fits 16 bits. */
  lemma SurvivesExactlyWhen(values: seq<int>)
    requires Snapshot(Table(), values)
    ensures WrittenTable(Table(), values) == values <==> 0 <= values[CAPACITY] < 0x1_0000
  {
    forall i | 0 <= i < COUNT
      ensures WrittenTable(Table(), values)[i] == values[i] <==> (i == CAPACITY ==> 0 <= values[i] < 0x1_0000)
    {
      KindOfRow(i);
      StoredRoundTrip(KindAt(i), values[i]);
    }
  }
}
