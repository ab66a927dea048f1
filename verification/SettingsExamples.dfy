/** Saves of the firmware's own table that a power cut or a failed write turns into something else. */
module SettingsExamples {
  import opened SettingsCodec
  import opened SettingsTable
  import opened SettingsTransaction
  import Fingerprint

  const QUIET_START := 16
  const QUIET_END := 17

  /** A table with two byte rows i and j whose defaults survive storage. */
  predicate TwoByteRows(table: seq<Setting>, i: nat, j: nat) {
    && WellFormed(table) && i < j < |table| && KindOf(table[i]).Unsigned8? && KindOf(table[j]).Unsigned8?
    && Snapshot(table, DefaultTable(table)) && WrittenTable(table, DefaultTable(table)) == DefaultTable(table)
  }

  /** The defaults but for the two rows. */
  function Values(table: seq<Setting>, i: nat, j: nat, x: int, y: int): (v: seq<int>)
    requires i < j < |table|
    ensures |v| == |table|
  {
    DefaultTable(table)[i := x][j := y]
  }

  lemma ValuesHeld(table: seq<Setting>, i: nat, j: nat, x: int, y: int)
    requires TwoByteRows(table, i, j) && 0 <= x < 256 && 0 <= y < 256
    ensures Snapshot(table, Values(table, i, j, x, y))
    ensures WrittenTable(table, Values(table, i, j, x, y)) == Values(table, i, j, x, y)
  {
    var v, d := Values(table, i, j, x, y), DefaultTable(table);
    assert Snapshot(table, v) by {
      assert forall k :: 0 <= k < |table| && k != i && k != j ==> v[k] == d[k];
    }
    forall k | 0 <= k < |table|
      ensures WrittenTable(table, v)[k] == v[k]
    {
      if k == i || k == j {
        StoredRoundTrip(KindOf(table[k]), v[k]);
      } else {
        assert WrittenTable(table, d)[k] == d[k];
      }
    }
  }

  /** A namespace that holds every row, a marker and a fingerprint. */
  ghost function Flash(table: seq<Setting>, values: seq<int>, marker: int, crc: int): Store
    requires WellFormed(table) && Snapshot(table, values)
  {
    KeysDistinct(table);
    map[VALID_KEY := U8(marker), CRC_KEY := U32(crc)] +
    (map k | 0 <= k < |table| :: table[k].key := Stored(KindOf(table[k]), values[k]))
  }

  lemma FlashReads(table: seq<Setting>, values: seq<int>, marker: int, crc: int)
    requires WellFormed(table) && Snapshot(table, values)
    ensures var s := Flash(table, values, marker, crc);
            LoadedTable(table, s) == WrittenTable(table, values) && MarkerIs(s, marker) && CrcIs(s, crc)
  {
    var s := Flash(table, values, marker, crc);
    KeysDistinct(table);
    assert VALID_KEY[8] != CRC_KEY[8];
    assert AllWritten(table, values, s) by {
      assert forall k :: 0 <= k < |table| ==> table[k].key in s;
    }
    LoadedFromWritten(table, values, s);
  }

  /** Flash that mixes an old and a new table under an unchanged seal is what a save of the new one can leave. */
  lemma MixtureIsACut(table: seq<Setting>, was: seq<int>, values: seq<int>, mixed: seq<int>, marker: int, crc: int)
    requires WellFormed(table) && Snapshot(table, was) && Snapshot(table, values) && Snapshot(table, mixed)
    requires WrittenTable(table, was) == was && WrittenTable(table, values) == values && WrittenTable(table, mixed) == mixed
    requires MixOf(was, values, mixed)
    ensures UnderOldSeal(table, Flash(table, was, marker, crc), values, Flash(table, mixed, marker, crc))
  {
    FlashReads(table, was, marker, crc);
    FlashReads(table, mixed, marker, crc);
    MixedTable(table, Flash(table, was, marker, crc), values, Flash(table, mixed, marker, crc));
  }

  /** What the flash that holds given values of the two rows reads as. */
  lemma QuietFlash(table: seq<Setting>, i: nat, j: nat, x: int, y: int, marker: int, crc: int)
    requires TwoByteRows(table, i, j) && 0 <= x < 256 && 0 <= y < 256
    ensures Snapshot(table, Values(table, i, j, x, y))
    ensures var s := Flash(table, Values(table, i, j, x, y), marker, crc);
            LoadedTable(table, s) == Values(table, i, j, x, y) && MarkerIs(s, marker) && CrcIs(s, crc)
  {
    ValuesHeld(table, i, j, x, y);
    FlashReads(table, Values(table, i, j, x, y), marker, crc);
  }

  lemma QuietCut(table: seq<Setting>, i: nat, j: nat, x0: int, y0: int, x1: int, y1: int, x: int, y: int, marker: int, crc: int)
    requires TwoByteRows(table, i, j) && 0 <= x0 < 256 && 0 <= y0 < 256 && 0 <= x1 < 256 && 0 <= y1 < 256
    requires (x == x0 || x == x1) && (y == y0 || y == y1)
    ensures Snapshot(table, Values(table, i, j, x0, y0)) && Snapshot(table, Values(table, i, j, x1, y1))
    ensures Snapshot(table, Values(table, i, j, x, y))
    ensures WrittenTable(table, Values(table, i, j, x1, y1)) == Values(table, i, j, x1, y1)
    ensures UnderOldSeal(table, Flash(table, Values(table, i, j, x0, y0), marker, crc), Values(table, i, j, x1, y1),
                         Flash(table, Values(table, i, j, x, y), marker, crc))
  {
    ValuesHeld(table, i, j, x0, y0);
    ValuesHeld(table, i, j, x1, y1);
    ValuesHeld(table, i, j, x, y);
    MixtureIsACut(table, Values(table, i, j, x0, y0), Values(table, i, j, x1, y1), Values(table, i, j, x, y), marker, crc);
  }

  // ---------------------------------------------------------------- the firmware's table

  /** Two byte rows that default to 22 and 6, as the quiet hours do. */
  predicate HasQuietHours(table: seq<Setting>, i: nat, j: nat) {
    TwoByteRows(table, i, j) && DefaultTable(table)[i] == 22 && DefaultTable(table)[j] == 6
  }

  lemma DefaultSurvives(row: Setting)
    requires DefaultFits(row)
    ensures Holds(KindOf(row), DefaultEncoded(row)) && WrittenValue(row, DefaultEncoded(row)) == DefaultEncoded(row)
  {
    StoredRoundTrip(KindOf(row), DefaultEncoded(row));
  }

  /** The examples below are about any such table; rows 16 and 17 of the firmware's 34 make it one. */
  lemma FirmwareHasQuietHours(i: nat, j: nat)
    requires i == QUIET_START && j == QUIET_END
    ensures HasQuietHours(Table(), i, j)
  {
    TableIsWellFormed();
    var table, d := Table(), DefaultTable(Table());
    forall k | 0 <= k < |table|
      ensures Holds(KindOf(table[k]), d[k]) && WrittenValue(table[k], d[k]) == d[k]
    {
      DefaultSurvives(table[k]);
    }
    assert Snapshot(table, d);
    assert WrittenTable(table, d) == d;
    KindOfRow(i);
    KindOfRow(j);
  }

  // ---------------------------------------------------------------- a migration

  const SOUND_VOLUME := 14

  /** A namespace of schema 3 that has no volume yet boots with the default of 50; so do all rows it lacks. */
  lemma OldSchemaBootsTheDefaultVolume(volume: nat, flash: Store)
    requires volume == SOUND_VOLUME && MarkerIs(flash, 3) && Row(volume).key !in flash
    ensures Outcome(Table(), flash)[volume] == 50
  {
    DefaultIsExact(volume);
    KindOfRow(volume);
  }

  // ---------------------------------------------------------------- the marker left at 0

  lemma MarkerZeroBootsTheRows(table: seq<Setting>, s: Store)
    requires MarkerIs(s, 0)
    ensures Outcome(table, s) == LoadedTable(table, s)
  {
  }

  /** One cut has left the marker at 0; a second, after the first row of the next save, boots a mixture. */
  lemma SecondCutBootsAMixture(table: seq<Setting>, i: nat, j: nat, crc: int)
    requires HasQuietHours(table, i, j)
    ensures Snapshot(table, Values(table, i, j, 20, 5)) && Snapshot(table, Values(table, i, j, 21, 5))
    ensures Snapshot(table, Values(table, i, j, 21, 7))
    ensures var before, s := Flash(table, Values(table, i, j, 20, 5), 0, crc), Flash(table, Values(table, i, j, 21, 5), 0, crc);
            && CutState(table, before, Values(table, i, j, 21, 7), s) && Outcome(table, s) == Values(table, i, j, 21, 5)
            && !Acceptable(table, before, Values(table, i, j, 21, 7), Outcome(table, s))
  {
    QuietCut(table, i, j, 20, 5, 21, 7, 21, 5, 0, crc);
    QuietFlash(table, i, j, 20, 5, 0, crc);
    QuietFlash(table, i, j, 21, 5, 0, crc);
    MarkerZeroBootsTheRows(table, Flash(table, Values(table, i, j, 20, 5), 0, crc));
    MarkerZeroBootsTheRows(table, Flash(table, Values(table, i, j, 21, 5), 0, crc));
    ValuesDiffer(table, i, j, 21, 5, 20, 5);
    ValuesDiffer(table, i, j, 21, 5, 21, 7);
    ValuesDiffer(table, i, j, 21, 5, 22, 6);
  }

  /** Tables that differ in one of the two rows are different; with 22 and 6 they are the defaults. */
  lemma ValuesDiffer(table: seq<Setting>, i: nat, j: nat, x0: int, y0: int, x1: int, y1: int)
    requires HasQuietHours(table, i, j)
    ensures Values(table, i, j, x0, y0) == Values(table, i, j, x1, y1) <==> x0 == x1 && y0 == y1
    ensures Values(table, i, j, 22, 6) == DefaultTable(table)
  {
    assert Values(table, i, j, x0, y0)[i] == x0 && Values(table, i, j, x0, y0)[j] == y0;
    assert Values(table, i, j, x1, y1)[i] == x1 && Values(table, i, j, x1, y1)[j] == y1;
  }

  lemma ThroughTheDefaults(table: seq<Setting>, i: nat, j: nat)
    requires HasQuietHours(table, i, j)
    ensures PassesThroughDefaults(Values(table, i, j, 20, 6), Values(table, i, j, 22, 7), DefaultTable(table), i, j)
  {
  }

  /** Passing through the defaults helps a clean save only: here the first write fails, the second goes
      through, and the next boot shows a mixture. */
  lemma FailedRowBootsAMixture(table: seq<Setting>, i: nat, j: nat, crc: int)
    requires HasQuietHours(table, i, j)
    ensures Snapshot(table, Values(table, i, j, 20, 6)) && Snapshot(table, Values(table, i, j, 20, 7))
    ensures Snapshot(table, Values(table, i, j, 22, 7))
    ensures PassesThroughDefaults(Values(table, i, j, 20, 6), Values(table, i, j, 22, 7), DefaultTable(table), i, j)
    ensures LoadedTable(table, Flash(table, Values(table, i, j, 20, 6), 0, crc)) == Values(table, i, j, 20, 6)
    ensures WrittenTable(table, Values(table, i, j, 22, 7)) == Values(table, i, j, 22, 7)
    ensures var before, s := Flash(table, Values(table, i, j, 20, 6), 0, crc), Flash(table, Values(table, i, j, 20, 7), 0, crc);
            && CutState(table, before, Values(table, i, j, 22, 7), s)
            && !Acceptable(table, before, Values(table, i, j, 22, 7), Outcome(table, s))
  {
    ThroughTheDefaults(table, i, j);
    QuietCut(table, i, j, 20, 6, 22, 7, 20, 7, 0, crc);
    QuietFlash(table, i, j, 20, 6, 0, crc);
    QuietFlash(table, i, j, 20, 7, 0, crc);
    MarkerZeroBootsTheRows(table, Flash(table, Values(table, i, j, 20, 6), 0, crc));
    MarkerZeroBootsTheRows(table, Flash(table, Values(table, i, j, 20, 7), 0, crc));
    ValuesDiffer(table, i, j, 20, 7, 20, 6);
    ValuesDiffer(table, i, j, 20, 7, 22, 7);
    ValuesDiffer(table, i, j, 20, 7, 22, 6);
  }

  // ---------------------------------------------------------------- a save after a failed save

  lemma OneRowIsDetected(table: seq<Setting>, i: nat, j: nat)
    requires HasQuietHours(table, i, j)
    ensures Fingerprint.Of(Values(table, i, j, 21, 5)) != Fingerprint.Of(Values(table, i, j, 20, 5))
  {
    Fingerprint.ByteSettingDetected(Values(table, i, j, 21, 5), Values(table, i, j, 20, 5), i);
  }

  /** [20, 5] is sealed, and a save of [21, 5] fails after its first row: what is left boots the defaults. */
  lemma FailedSaveBootsDefaults(table: seq<Setting>, i: nat, j: nat, crc: int)
    requires HasQuietHours(table, i, j) && crc == Fingerprint.Of(Values(table, i, j, 20, 5))
    ensures Snapshot(table, Values(table, i, j, 20, 5)) && Snapshot(table, Values(table, i, j, 21, 5))
    ensures var sealed, left := Flash(table, Values(table, i, j, 20, 5), TXN_VERSION, crc),
                                Flash(table, Values(table, i, j, 21, 5), TXN_VERSION, crc);
            && Judge(table, sealed).Sealed? && Outcome(table, sealed) == Values(table, i, j, 20, 5)
            && UnderOldSeal(table, sealed, Values(table, i, j, 21, 5), left) && Outcome(table, left) == DefaultTable(table)
  {
    QuietCut(table, i, j, 20, 5, 21, 5, 21, 5, TXN_VERSION, crc);
    QuietFlash(table, i, j, 20, 5, TXN_VERSION, crc);
    QuietFlash(table, i, j, 21, 5, TXN_VERSION, crc);
    OneRowIsDetected(table, i, j);
    var sealed, left := Flash(table, Values(table, i, j, 20, 5), TXN_VERSION, crc),
                        Flash(table, Values(table, i, j, 21, 5), TXN_VERSION, crc);
    OldSealVerdict(table, sealed, sealed);
    OldSealVerdict(table, left, left);
  }

  /** The next save, of [20, 7], is cut after its first row: the boot shows [20, 5] again, trusted. That is
      the table last sealed, but not what a boot just before this save would have shown. */
  lemma SaveAfterAFailedSave(table: seq<Setting>, i: nat, j: nat, crc: int, before: Store, s: Store)
    requires HasQuietHours(table, i, j) && crc == Fingerprint.Of(Values(table, i, j, 20, 5))
    requires Snapshot(table, Values(table, i, j, 20, 5)) && Snapshot(table, Values(table, i, j, 21, 5))
    requires before == Flash(table, Values(table, i, j, 21, 5), TXN_VERSION, crc)
    requires s == Flash(table, Values(table, i, j, 20, 5), TXN_VERSION, crc)
    ensures Snapshot(table, Values(table, i, j, 20, 7)) && CutState(table, before, Values(table, i, j, 20, 7), s)
    ensures Judge(table, s).Sealed? && Outcome(table, s) == Values(table, i, j, 20, 5)
    ensures !Acceptable(table, before, Values(table, i, j, 20, 7), Outcome(table, s))
    ensures !NoTornCollision(table, before, Values(table, i, j, 20, 7))
  {
    FailedSaveBootsDefaults(table, i, j, crc);
    QuietCut(table, i, j, 21, 5, 20, 7, 20, 5, TXN_VERSION, crc);
    QuietFlash(table, i, j, 21, 5, TXN_VERSION, crc);
    ValuesDiffer(table, i, j, 20, 5, 20, 7);
    ValuesDiffer(table, i, j, 20, 5, 22, 6);
    TornCut(table, before, Values(table, i, j, 20, 7), s);
  }

  lemma TornCut(table: seq<Setting>, before: Store, values: seq<int>, s: Store)
    requires WellFormed(table) && Snapshot(table, values) && MarkerIs(before, TXN_VERSION)
    requires CutState(table, before, values, s) && !Acceptable(table, before, values, Outcome(table, s))
    ensures !NoTornCollision(table, before, values)
  {
    SealedSaveIsAtomicExactlyWhen(table, before, values);
  }
}
