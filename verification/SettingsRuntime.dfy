/** The save and load paths, step by step over flash that may fail or lose power at any point. */
module SettingsRuntime {
  import opened SettingsCodec
  import opened SettingsTransaction
  import Fingerprint

  datatype NvsError = Done | NotFound | TypeMismatch | Failed

  class Runtime {
    const table: seq<Setting>
    /** Live fields the rows point at; other tasks write them too. */
    var fields: seq<Field>
    var store: Store
    /** Every state of the live fields and of the flash so far, oldest first. */
    ghost var lives: seq<seq<Field>>
    ghost var history: seq<Store>
    /** How many flash operations have failed. */
    ghost var faults: nat

    ghost predicate Valid()
      reads this`fields, this`store, this`lives, this`history
    {
      && WellFormed(table)
      && FieldsFit(table, fields)
      && ValidStore(store)
      && |lives| > 0 && lives[|lives| - 1] == fields
      && |history| > 0 && history[|history| - 1] == store
    }

    constructor (rows: seq<Setting>, live: seq<Field>, flash: Store)
      requires WellFormed(rows) && FieldsFit(rows, live) && ValidStore(flash)
      ensures Valid() && table == rows && fields == live && store == flash
      ensures lives == [live] && history == [flash]
    {
      table, fields, store := rows, live, flash;
      lives, history, faults := [live], [flash], 0;
    }

    /** Anything the other tasks may do to the live fields between two steps. */
    method OtherTasksRun()
      requires Valid()
      modifies this`fields, this`lives
      ensures Valid() && old(lives) <= lives
    {
      var next: seq<Field> := *;
      if FieldsFit(table, next) {
        fields := next;
        lives := lives + [fields];
      }
    }

    // ------------------------------------------------------------ flash primitives

    /** nvs_set_*: a key keeps the type it was created with. A failure that is not a
        type conflict may or may not have reached the flash. Other tasks run meanwhile. */
    method NvsSet(key: string, item: Entry) returns (err: NvsError)
      requires Valid() && InRange(item)
      modifies this
      ensures Valid() && history == old(history) + [store] && old(lives) <= lives
      ensures err == Done ==> store == old(store)[key := item]
      ensures err == TypeMismatch ==> store == old(store) && key in store && !SameType(store[key], item)
      ensures store == old(store) || store == old(store)[key := item]
      ensures key in old(store) && !SameType(old(store)[key], item) ==> store == old(store)
      ensures old(faults) <= faults
      ensures faults == old(faults) ==> err == if Conflicts(old(store), key, item) then TypeMismatch else Done
    {
      var healthy: bool, reached: bool := *, *;
      faults := if healthy then faults else faults + 1;
      if key in store && !SameType(store[key], item) {
        err := if healthy then TypeMismatch else Failed;
      } else {
        err := if healthy then Done else Failed;
        if healthy || reached {
          store := store[key := item];
        }
      }
      history := history + [store];
      OtherTasksRun();
    }

    method NvsEraseKey(key: string) returns (err: NvsError)
      requires Valid()
      modifies this
      ensures Valid() && history == old(history) + [store] && old(lives) <= lives
      ensures store == old(store) || store == old(store) - {key}
      ensures err == Done || err == NotFound ==> key !in store
      ensures old(faults) <= faults && (faults == old(faults) ==> err == Done || err == NotFound)
    {
      var healthy: bool, reached: bool := *, *;
      faults := if healthy then faults else faults + 1;
      if !healthy {
        err := Failed;
        if reached {
          store := store - {key};
        }
      } else if key in store {
        err := Done;
        store := store - {key};
      } else {
        err := NotFound;
      }
      history := history + [store];
      OtherTasksRun();
    }

    // ------------------------------------------------------------ load

    /** settings_snapshot_capture: one row after another, other tasks running in between. */
    method Capture(snapshot: array<int>) returns (ghost taken: seq<int>, ghost seen: seq<nat>)
      requires Valid() && snapshot.Length == |table|
      modifies snapshot, this`fields, this`lives
      ensures Valid() && old(lives) <= lives && snapshot[..] == taken && Snapshot(table, taken)
      ensures CapturedFrom(table, lives, taken, seen)
      ensures forall i :: 0 <= i < |seen| ==> |old(lives)| - 1 <= seen[i]
    {
      taken, seen := [], [];
      var i := 0;
      while i < snapshot.Length
        invariant 0 <= i <= snapshot.Length && |taken| == i
        invariant Valid() && old(lives) <= lives
        invariant forall k :: 0 <= k < i ==> snapshot[k] == taken[k]
        invariant CapturedSoFar(table, lives, taken, seen, |old(lives)| - 1)
      {
        ghost var at: nat;
        snapshot[i], at := CaptureRow(i, taken, seen, |old(lives)| - 1);
        taken, seen := taken + [snapshot[i]], seen + [at];
        i := i + 1;
      }
    }

    /** One row of the snapshot, and what other tasks do before the next. */
    method CaptureRow(i: nat, ghost taken: seq<int>, ghost seen: seq<nat>, ghost start: nat)
      returns (value: int, ghost at: nat)
      requires Valid() && i == |taken| < |table| && start < |lives| && CapturedSoFar(table, lives, taken, seen, start)
      modifies this`fields, this`lives
      ensures Valid() && old(lives) <= lives
      ensures CapturedSoFar(table, lives, taken + [value], seen + [at], start)
    {
      value := Encode(KindOf(table[i]), fields[i]);
      at := |lives| - 1;
      CaptureGrows(table, lives, taken, seen, start);
      ghost var before := lives;
      OtherTasksRun();
      CaptureSurvivesSoFar(table, before, lives, taken + [value], seen + [at], start);
    }

    /** nvs_load_all. */
    method LoadAll()
      requires WellFormed(table) && FieldsFit(table, fields) && ValidStore(store)
      modifies this`fields
      ensures FieldsFit(table, fields) && CaptureTable(table, fields) == LoadedTable(table, store)
      ensures forall i :: 0 <= i < |table| ==> RowLoaded(table[i], store, old(fields)[i], fields[i])
    {
      ghost var was := fields;
      var i := 0;
      while i < |table|
        invariant 0 <= i <= |table| && FieldsFit(table, fields)
        invariant forall k :: 0 <= k < i ==> RowLoaded(table[k], store, was[k], fields[k])
        invariant forall k :: i <= k < |table| ==> fields[k] == was[k]
        invariant forall k :: 0 <= k < i ==> Encode(KindOf(table[k]), fields[k]) == LoadedValue(table[k], store)
      {
        var row := table[i];
        var value := DefaultEncoded(row);
        if row.key in store && Readable(KindOf(row), store[row.key]) {
          value := ReadBack(KindOf(row), store[row.key]);
        }
        LoadedHolds(row, store);
        AssignEncodes(KindOf(row), value, fields[i]);
        LoadedShows(row, store, fields[i]);
        fields := fields[i := Assign(KindOf(row), value, fields[i])];
        i := i + 1;
      }
    }

    /** settings_fingerprint: of the live fields as they are now. */
    method LiveFingerprint() returns (fingerprint: int)
      requires FieldsFit(table, fields)
      ensures fingerprint == Fingerprint.Of(CaptureTable(table, fields))
    {
      var snapshot := new int[|table|];
      var i := 0;
      while i < |table|
        invariant 0 <= i <= |table|
        invariant forall k :: 0 <= k < i ==> snapshot[k] == Encode(KindOf(table[k]), fields[k])
      {
        snapshot[i] := Encode(KindOf(table[i]), fields[i]);
        i := i + 1;
      }
      fingerprint := Fingerprint.FromSnapshot(snapshot);
      assert snapshot[..] == CaptureTable(table, fields);
    }

    /** load_settings down to the restore of defaults. Runs at boot, before other tasks
        write the fields. */
    method LoadSettings() returns (verdict: Verdict)
      requires Valid()
      modifies this`fields, this`lives
      ensures Valid()
      ensures verdict == Judge(table, store)
      ensures CaptureTable(table, fields) == Outcome(table, store)
      ensures RowsBooted(verdict, table, store, old(fields), fields)
    {
      ghost var before := lives;
      verdict := LoadFields();
      ghost var loaded := fields;
      lives := before + [loaded];
      assert fields == loaded && lives[|lives| - 1] == loaded;
    }

    /** The load and the verdict on the transaction metadata. */
    method LoadFields() returns (verdict: Verdict)
      requires WellFormed(table) && FieldsFit(table, fields) && ValidStore(store)
      modifies this`fields
      ensures FieldsFit(table, fields) && verdict == Judge(table, store)
      ensures CaptureTable(table, fields) == Outcome(table, store)
      ensures RowsBooted(verdict, table, store, old(fields), fields)
    {
      LoadAll();
      var fingerprint := LiveFingerprint();
      if VALID_KEY in store && store[VALID_KEY].U8? {
        var marker := store[VALID_KEY].v;
        if marker != TXN_VERSION {
          verdict := OtherVersion(marker);
        } else if !(CRC_KEY in store && store[CRC_KEY].U32?) || store[CRC_KEY].v != fingerprint {
          ApplyDefaults();
          verdict := Damaged;
        } else {
          verdict := Sealed;
        }
      } else {
        verdict := NoMarker;
      }
    }

    /** nvs_apply_defaults. */
    method ApplyDefaults()
      requires WellFormed(table) && FieldsFit(table, fields)
      modifies this`fields
      ensures FieldsFit(table, fields) && CaptureTable(table, fields) == DefaultTable(table)
      ensures forall i :: 0 <= i < |table| ==> RowRestored(table[i], old(fields)[i], fields[i])
    {
      ghost var was := fields;
      var i := 0;
      while i < |table|
        invariant 0 <= i <= |table| && FieldsFit(table, fields)
        invariant forall k :: 0 <= k < i ==> RowRestored(table[k], was[k], fields[k])
        invariant forall k :: i <= k < |table| ==> fields[k] == was[k]
        invariant forall k :: 0 <= k < i ==> Encode(KindOf(table[k]), fields[k]) == DefaultEncoded(table[k])
      {
        var row := table[i];
        DefaultIsHeld(row, fields[i]);
        var restored := if KindOf(row).Scaled? || KindOf(row).Unsigned16?
                        then RealField(row.defaultValue)
                        else Assign(KindOf(row), DefaultEncoded(row), fields[i]);
        fields := fields[i := restored];
        i := i + 1;
      }
      assert CaptureTable(table, fields) == DefaultTable(table);
    }

    // ------------------------------------------------------------ save

    /** One row of nvs_save_snapshot: a key of a legacy type is erased and written again. */
    method WriteRow(i: nat, encoded: int) returns (err: NvsError)
      requires Valid() && i < |table| && IsInt32(encoded)
      modifies this
      ensures Valid() && old(history) < history && old(lives) <= lives
      ensures forall t :: |old(history)| <= t < |history| ==> RowStep(table[i], encoded, old(store), history[t])
      ensures RowStep(table[i], encoded, old(store), store)
      ensures err == Done ==> table[i].key in store && store[table[i].key] == Stored(KindOf(table[i]), encoded)
      ensures old(faults) <= faults && (faults == old(faults) ==> err == Done)
    {
      var key, item := table[i].key, Stored(KindOf(table[i]), encoded);
      err := NvsSet(key, item);
      RowStepWrites(table[i], encoded, old(store), old(store), store);
      if err == TypeMismatch {
        var eraseErr := NvsEraseKey(key);
        RowStepErases(table[i], encoded, old(store), store);
        if eraseErr == Done || eraseErr == NotFound {
          ghost var erased := store;
          err := NvsSet(key, item);
          RowStepWrites(table[i], encoded, old(store), erased, store);
        } else {
          err := eraseErr;
        }
      }
    }

    /** The loop body of nvs_save_snapshot: the first error is kept. */
    method SaveRow(i: nat, encoded: int, errSoFar: NvsError, ghost before: Store, ghost values: seq<int>, ghost start: nat)
      returns (firstErr: NvsError)
      requires Valid() && Snapshot(table, values) && i < |table| && encoded == values[i] && start < |history|
      requires Progress(table, before, values, i, store, start, history, errSoFar == Done)
      modifies this
      ensures Valid() && old(history) <= history && old(lives) <= lives
      ensures Progress(table, before, values, i + 1, store, start, history, firstErr == Done)
      ensures SameItem(old(store), store, GEN_KEY)
      ensures old(faults) <= faults && (faults == old(faults) && errSoFar == Done ==> firstErr == Done)
    {
      ghost var from, passed := store, history;
      var err := WriteRow(i, encoded);
      RowAdvances(table, before, values, i, from, store, start, passed, history, errSoFar == Done, err == Done);
      firstErr := if errSoFar == Done then err else errSoFar;
    }

    /** nvs_save_snapshot: goes on after a failed row and reports the first error. */
    method SaveSnapshot(snapshot: array<int>, ghost values: seq<int>) returns (firstErr: NvsError)
      requires Valid() && Snapshot(table, values) && snapshot[..] == values
      modifies this
      ensures Valid() && old(history) <= history && old(lives) <= lives
      ensures HistoryUnderOldSeal(table, old(store), values, |old(history)|, history)
      ensures UnderOldSeal(table, old(store), values, store)
      ensures firstErr == Done ==> AllWritten(table, values, store)
      ensures firstErr == Done ==> CleanRun(table, old(store), values, |old(history)| - 1, history)
      ensures SameItem(old(store), store, GEN_KEY)
      ensures old(faults) <= faults && (faults == old(faults) ==> firstErr == Done)
    {
      ghost var before, start := store, |history| - 1;
      firstErr := Done;
      PrefixZero(table, before, values, start, history);
      var i := 0;
      while i < snapshot.Length
        invariant 0 <= i <= |table| && snapshot[..] == values
        invariant Valid() && old(history) <= history && old(lives) <= lives
        invariant Progress(table, before, values, i, store, start, history, firstErr == Done)
        invariant SameItem(before, store, GEN_KEY)
        invariant old(faults) <= faults && (faults == old(faults) ==> firstErr == Done)
      {
        firstErr := SaveRow(i, snapshot[i], firstErr, before, values, start);
        i := i + 1;
      }
      ProgressAtTheEnd(table, before, values, store, start, history, firstErr == Done);
    }

    /** One metadata write; the caller shows that both its outcomes are legitimate. */
    method SetMeta(key: string, item: Entry, ghost before: Store, ghost values: seq<int>, ghost start: nat)
      returns (err: NvsError)
      requires Valid() && InRange(item) && Snapshot(table, values)
      requires CutState(table, before, values, store) && CutState(table, before, values, store[key := item])
      requires AllWritten(table, values, store) && AllWritten(table, values, store[key := item])
      requires HistoryCut(table, before, values, start, history)
      modifies this
      ensures Valid() && old(history) <= history && old(lives) <= lives
      ensures HistoryCut(table, before, values, start, history)
      ensures HistoryWritten(table, values, |old(history)|, history)
      ensures err == Done ==> store == old(store)[key := item]
      ensures old(faults) <= faults && (faults == old(faults) ==> (err == Done <==> !Conflicts(old(store), key, item)))
    {
      err := NvsSet(key, item);
    }

    /** The metadata stage of save_settings_locked: break the seal and write the generation... */
    method BreakSeal(ghost before: Store, ghost values: seq<int>, ghost start: nat) returns (err: NvsError)
      requires Valid() && Snapshot(table, values) && AllWritten(table, values, store)
      requires UnderOldSeal(table, before, values, store) && HistoryCut(table, before, values, start, history)
      modifies this
      ensures Valid() && old(history) <= history && old(lives) <= lives
      ensures HistoryCut(table, before, values, start, history)
      ensures HistoryWritten(table, values, |old(history)|, history)
      ensures err == Done ==> AllWritten(table, values, store) && MarkerIs(store, 0) && SameItem(old(store), store, CRC_KEY)
      ensures old(faults) <= faults
      ensures faults == old(faults) ==> (err == Done <==> MarkerTyped(old(store)) && GenerationTyped(old(store)))
    {
      var generation := if GEN_KEY in store && store[GEN_KEY].U32? then store[GEN_KEY].v else 0;
      OtherKeyKeepsWritten(table, values, store, VALID_KEY, U8(0));
      err := SetMeta(VALID_KEY, U8(0), before, values, start);
      if err == Done {
        OtherKeyKeepsWritten(table, values, store, GEN_KEY, U32((generation + 1) % 0x1_0000_0000));
        err := SetMeta(GEN_KEY, U32((generation + 1) % 0x1_0000_0000), before, values, start);
      }
    }

    /** ... then write the fingerprint and seal again. */
    method Reseal(expected: array<int>, ghost values: seq<int>, ghost before: Store, ghost start: nat) returns (err: NvsError)
      requires Valid() && Snapshot(table, values) && expected[..] == values && AllWritten(table, values, store)
      requires MarkerIs(store, 0) && HistoryCut(table, before, values, start, history)
      modifies this
      ensures Valid() && old(history) <= history && old(lives) <= lives
      ensures HistoryCut(table, before, values, start, history)
      ensures HistoryWritten(table, values, |old(history)|, history)
      ensures err == Done ==> MarkerIs(store, TXN_VERSION) && CrcIs(store, Fingerprint.Of(values)) && AllWritten(table, values, store)
      ensures old(faults) <= faults && (faults == old(faults) ==> (err == Done <==> CrcTyped(old(store))))
    {
      var crc := Fingerprint.FromSnapshot(expected);
      OtherKeyKeepsWritten(table, values, store, CRC_KEY, U32(crc));
      err := SetMeta(CRC_KEY, U32(crc), before, values, start);
      if err == Done {
        OtherKeyKeepsWritten(table, values, store, VALID_KEY, U8(TXN_VERSION));
        err := SetMeta(VALID_KEY, U8(TXN_VERSION), before, values, start);
      }
    }

    /** save_settings_locked. `captured` is the snapshot, row i taken from the live state `taken[seen[i]]`;
        it stays empty if the namespace does not open. */
    method SaveSettingsLocked()
      returns (saved: bool, ghost captured: seq<int>, ghost taken: seq<seq<Field>>, ghost seen: seq<nat>)
      requires Valid()
      modifies this
      ensures Valid() && old(history) <= history && old(lives) <= taken <= lives
      // what was taken, while other tasks ran
      ensures saved ==> CapturedFrom(table, taken, captured, seen)
      ensures forall i :: 0 <= i < |seen| ==> |old(lives)| - 1 <= seen[i]
      // a reported success boots exactly the snapshot, trusted
      ensures saved ==> Judge(table, store).Sealed? && Outcome(table, store) == captured
      // every state a power cut can leave
      ensures history == old(history) || Snapshot(table, captured)
      ensures Snapshot(table, captured) ==> HistoryCut(table, old(store), captured, |old(history)|, history)
      ensures saved ==> CleanRun(table, old(store), captured, |old(history)| - 1, history)
      // if no flash operation fails it succeeds, except over metadata of other types or if a cast loses a value
      ensures faults == old(faults) ==>
                Snapshot(table, captured)
                && (saved <==> MetadataTyped(old(store)) && WrittenTable(table, captured) == captured)
    {
      saved, captured, taken, seen := false, [], lives, [];
      var handleOk: bool := *;
      if handleOk {
        var expected := new int[|table|];
        ghost var before, start := store, |history| - 1;
        captured, seen := Capture(expected);
        taken := lives;
        saved := WriteAndVerify(expected, captured, before, start);
      } else {
        faults := faults + 1;
      }
    }

    /** Everything after the capture. */
    method WriteAndVerify(expected: array<int>, ghost values: seq<int>, ghost before: Store, ghost start: nat)
      returns (saved: bool)
      requires Valid() && Snapshot(table, values) && expected[..] == values && before == store && start == |history| - 1
      modifies this
      ensures Valid() && old(history) <= history && old(lives) <= lives
      ensures saved ==> Judge(table, store).Sealed? && Outcome(table, store) == values
      ensures HistoryCut(table, before, values, start + 1, history)
      ensures saved ==> CleanRun(table, before, values, start, history)
      ensures old(faults) <= faults
      ensures faults == old(faults) ==> (saved <==> MetadataTyped(before) && WrittenTable(table, values) == values)
    {
      saved := WriteTransaction(expected, values);
      if saved {
        OtherTasksRun();
        saved := CommitAndVerify(expected, values);
      }
    }

    /** The commit and the read-back: the flash stays as the writes left it. */
    method CommitAndVerify(expected: array<int>, ghost values: seq<int>) returns (saved: bool)
      requires Snapshot(table, values) && expected[..] == values && AllWritten(table, values, store)
      requires MarkerIs(store, TXN_VERSION) && CrcIs(store, Fingerprint.Of(values))
      modifies this`faults
      ensures old(faults) <= faults
      ensures saved ==> Judge(table, store).Sealed? && Outcome(table, store) == values
      ensures faults == old(faults) ==> (saved <==> WrittenTable(table, values) == values)
    {
      saved := false;
      var committed: bool, reopened: bool := *, *;
      if !committed || !reopened {
        faults := faults + 1;
        return;
      }
      saved := VerifySettings(expected, values);
      VerifiedExactlyWhen(table, values, store, saved);
    }

    /** Rows first, then the metadata; stops before the metadata if any row failed. */
    method WriteTransaction(expected: array<int>, ghost values: seq<int>) returns (ok: bool)
      requires Valid() && Snapshot(table, values) && expected[..] == values
      modifies this
      ensures Valid() && old(history) <= history && old(lives) <= lives
      ensures HistoryCut(table, old(store), values, |old(history)|, history)
      ensures ok ==> MarkerIs(store, TXN_VERSION) && CrcIs(store, Fingerprint.Of(values))
      ensures ok ==> CleanRun(table, old(store), values, |old(history)| - 1, history) && AllWritten(table, values, store)
      ensures old(faults) <= faults && (faults == old(faults) ==> (ok <==> MetadataTyped(old(store))))
    {
      ok := false;
      var err := SaveSnapshot(expected, values);
      ghost var written := history;
      UnderOldSealIsCut(table, old(store), values, |old(history)|, history);
      var healthy: bool := *;
      faults := if healthy then faults else faults + 1;
      if err == Done && healthy && GenerationTyped(store) {
        ok := SealAgain(expected, values, old(store), |old(history)|);
        CleanRunPersists(table, old(store), values, |old(history)| - 1, written, history);
      }
    }

    /** The metadata stage: break the seal, then write the new one. */
    method SealAgain(expected: array<int>, ghost values: seq<int>, ghost before: Store, ghost start: nat) returns (ok: bool)
      requires Valid() && Snapshot(table, values) && expected[..] == values && AllWritten(table, values, store)
      requires UnderOldSeal(table, before, values, store) && HistoryCut(table, before, values, start, history)
      modifies this
      ensures Valid() && old(history) <= history && old(lives) <= lives
      ensures HistoryCut(table, before, values, start, history)
      ensures HistoryWritten(table, values, |old(history)|, history)
      ensures ok ==> MarkerIs(store, TXN_VERSION) && CrcIs(store, Fingerprint.Of(values)) && AllWritten(table, values, store)
      ensures old(faults) <= faults && (faults == old(faults) ==> (ok <==> MetadataTyped(old(store))))
    {
      var err := BreakSeal(before, values, start);
      if err == Done {
        err := Reseal(expected, values, before, start);
      }
      ok := err == Done;
    }

    /** nvs_verify_settings. */
    method VerifySettings(expected: array<int>, ghost values: seq<int>) returns (ok: bool)
      requires |values| == |table| && expected[..] == values
      ensures ok <==> AllRead(table, store, values)
    {
      var i := 0;
      while i < expected.Length
        invariant 0 <= i <= |table|
        invariant forall k :: 0 <= k < i ==> ReadsAs(table[k], store, values[k])
      {
        var row := table[i];
        if row.key !in store || !Readable(KindOf(row), store[row.key])
           || ReadBack(KindOf(row), store[row.key]) != expected[i] {
          assert !ReadsAs(row, store, values[i]);
          return false;
        }
        i := i + 1;
      }
      return true;
    }
  }

  // ---------------------------------------------------------------- vocabulary of the contracts

  /** The key exists with another type, which only erasing it would change. */
  predicate Conflicts(store: Store, key: string, item: Entry) {
    key in store && !SameType(store[key], item)
  }

  predicate MarkerTyped(store: Store) { VALID_KEY in store ==> store[VALID_KEY].U8? }

  predicate GenerationTyped(store: Store) { GEN_KEY in store ==> store[GEN_KEY].U32? }

  predicate CrcTyped(store: Store) { CRC_KEY in store ==> store[CRC_KEY].U32? }

  /** A save migrates rows of other types, but not the transaction keys. */
  predicate MetadataTyped(store: Store) {
    MarkerTyped(store) && GenerationTyped(store) && CrcTyped(store)
  }

  lemma WrittenReadsExactlyWhen(table: seq<Setting>, values: seq<int>, store: Store)
    requires Snapshot(table, values) && AllWritten(table, values, store)
    ensures AllRead(table, store, values) <==> WrittenTable(table, values) == values
  {
    forall i | 0 <= i < |table|
      ensures ReadsAs(table[i], store, values[i]) <==> WrittenTable(table, values)[i] == values[i]
    {
      StoredRoundTrip(KindOf(table[i]), values[i]);
    }
  }

  lemma VerifiedExactlyWhen(table: seq<Setting>, values: seq<int>, store: Store, verified: bool)
    requires Snapshot(table, values) && AllWritten(table, values, store)
    requires MarkerIs(store, TXN_VERSION) && CrcIs(store, Fingerprint.Of(values))
    requires verified <==> AllRead(table, store, values)
    ensures verified <==> WrittenTable(table, values) == values
    ensures verified ==> Judge(table, store).Sealed? && Outcome(table, store) == values
  {
    WrittenReadsExactlyWhen(table, values, store);
    if verified {
      SealedOutcome(table, values, store);
    }
  }

  /** What a load makes of one row: the item, or the default when it is missing or of another type. */
  predicate RowLoaded(row: Setting, store: Store, was: Field, f: Field) {
    && KeepsUpperBytes(KindOf(row), was, f)
    && if row.key in store && HasItsType(KindOf(row), store[row.key])
       then ShowsItem(KindOf(row), store[row.key], f) else ShowsDefault(row, f)
  }

  predicate RowRestored(row: Setting, was: Field, f: Field) {
    KeepsUpperBytes(KindOf(row), was, f) && HoldsDefault(row, f)
  }

  predicate RowBooted(verdict: Verdict, row: Setting, store: Store, was: Field, f: Field) {
    if verdict.Damaged? then RowRestored(row, was, f) else RowLoaded(row, store, was, f)
  }

  predicate RowsBooted(verdict: Verdict, table: seq<Setting>, store: Store, was: seq<Field>, fields: seq<Field>) {
    && |was| == |table| == |fields|
    && forall i :: 0 <= i < |table| ==> RowBooted(verdict, table[i], store, was[i], fields[i])
  }

  lemma LoadedShows(row: Setting, store: Store, f: Field)
    requires DefaultFits(row) && ValidStore(store) && Assignable(KindOf(row), f)
    ensures RowLoaded(row, store, f, Assign(KindOf(row), LoadedValue(row, store), f))
  {
    if row.key in store && HasItsType(KindOf(row), store[row.key]) {
      AssignShowsItem(KindOf(row), store[row.key], f);
    } else {
      AssignShowsDefault(row, f);
    }
  }

  lemma DefaultIsHeld(row: Setting, f: Field)
    requires DefaultFits(row) && Assignable(KindOf(row), f)
    ensures var g := if KindOf(row).Scaled? || KindOf(row).Unsigned16? then RealField(row.defaultValue)
                     else Assign(KindOf(row), DefaultEncoded(row), f);
            Fits(KindOf(row), g) && Encode(KindOf(row), g) == DefaultEncoded(row) && RowRestored(row, f, g)
  {
    DefaultHolds(row);
    AssignEncodes(KindOf(row), DefaultEncoded(row), f);
    AssignShowsDefault(row, f);
  }

  predicate FieldsFit(table: seq<Setting>, fields: seq<Field>) {
    |fields| == |table| && forall i :: 0 <= i < |table| ==> Fits(KindOf(table[i]), fields[i])
  }

  function CaptureTable(table: seq<Setting>, fields: seq<Field>): (t: seq<int>)
    requires FieldsFit(table, fields)
    ensures |t| == |table|
  {
    seq(|table|, i requires 0 <= i < |table| => Encode(KindOf(table[i]), fields[i]))
  }

  /** Row i of the snapshot is the encoding of the live field at moment `seen[i]`. */
  ghost predicate CapturedFrom(table: seq<Setting>, lives: seq<seq<Field>>, values: seq<int>, seen: seq<nat>) {
    && |values| == |seen| == |table|
    && (forall i :: 0 <= i < |seen| ==> seen[i] < |lives| && FieldsFit(table, lives[seen[i]]))
    && (forall i :: 0 <= i < |seen| ==> values[i] == Encode(KindOf(table[i]), lives[seen[i]][i]))
  }

  /** The same for the first |values| rows, none of them taken before moment `start`. */
  ghost predicate CapturedSoFar(table: seq<Setting>, lives: seq<seq<Field>>, values: seq<int>, seen: seq<nat>, start: nat) {
    && |values| == |seen| <= |table|
    && (forall i :: 0 <= i < |seen| ==> start <= seen[i] < |lives|)
    && (forall i :: 0 <= i < |seen| ==> TakenAt(table, lives[seen[i]], values[i], i))
  }

  predicate TakenAt(table: seq<Setting>, live: seq<Field>, value: int, i: nat) {
    FieldsFit(table, live) && i < |table| && value == Encode(KindOf(table[i]), live[i]) && Holds(KindOf(table[i]), value)
  }

  lemma CaptureGrows(table: seq<Setting>, lives: seq<seq<Field>>, values: seq<int>, seen: seq<nat>, start: nat)
    requires CapturedSoFar(table, lives, values, seen, start) && |values| < |table| && start < |lives|
    requires FieldsFit(table, lives[|lives| - 1])
    ensures CapturedSoFar(table, lives, values + [Encode(KindOf(table[|values|]), lives[|lives| - 1][|values|])],
                          seen + [|lives| - 1], start)
  {
    var i := |values|;
    EncodeHolds(KindOf(table[i]), lives[|lives| - 1][i]);
    assert TakenAt(table, lives[|lives| - 1], Encode(KindOf(table[i]), lives[|lives| - 1][i]), i);
  }

  lemma CaptureSurvivesSoFar(table: seq<Setting>, lives: seq<seq<Field>>, longer: seq<seq<Field>>, values: seq<int>,
                             seen: seq<nat>, start: nat)
    requires CapturedSoFar(table, lives, values, seen, start) && lives <= longer
    ensures CapturedSoFar(table, longer, values, seen, start)
  {
    assert forall i :: 0 <= i < |seen| ==> longer[seen[i]] == lives[seen[i]];
  }

  /** What writing one row may do: nothing, or lose an item of another type, or store the new item. */
  ghost predicate RowStep(row: Setting, encoded: int, before: Store, after: Store)
    requires IsInt32(encoded)
  {
    && (forall k :: k != row.key ==> SameItem(before, after, k))
    && (|| SameItem(before, after, row.key)
        || (row.key in after && after[row.key] == Stored(KindOf(row), encoded))
        || (row.key !in after && row.key in before && !Readable(KindOf(row), before[row.key])))
  }

  lemma RowStepWrites(row: Setting, encoded: int, before: Store, from: Store, after: Store)
    requires IsInt32(encoded) && (from == before || RowStep(row, encoded, before, from))
    requires after == from || after == from[row.key := Stored(KindOf(row), encoded)]
    ensures RowStep(row, encoded, before, after)
  {
    forall k | k != row.key
      ensures SameItem(before, after, k)
    {
      assert from == before || SameItem(before, from, k);
    }
  }

  lemma RowStepErases(row: Setting, encoded: int, before: Store, after: Store)
    requires IsInt32(encoded) && row.key in before && !SameType(before[row.key], Stored(KindOf(row), encoded))
    requires after == before || after == before - {row.key}
    ensures RowStep(row, encoded, before, after)
  {
  }

  /** At `moments[n]`, from `start` on, the flash holds exactly the first n new rows. */
  ghost predicate PassedAt(table: seq<Setting>, before: Store, values: seq<int>, last: nat, start: nat, history: seq<Store>,
                           moments: seq<nat>)
    requires Snapshot(table, values) && last <= |table|
  {
    && |moments| == last + 1
    && (forall n :: 0 <= n <= last ==> start <= moments[n] < |history|)
    && (forall n :: 0 <= n <= last ==> PrefixState(table, before, values, n, history[moments[n]]))
  }

  ghost predicate PassedUpTo(table: seq<Setting>, before: Store, values: seq<int>, last: nat, start: nat, history: seq<Store>)
    requires Snapshot(table, values) && last <= |table|
  {
    exists moments: seq<nat> :: PassedAt(table, before, values, last, start, history, moments)
  }

  /** The flash holds the first n new rows and the others as before, or all of them under the new metadata. */
  ghost predicate CleanState(table: seq<Setting>, before: Store, values: seq<int>, s: Store)
    requires Snapshot(table, values)
  {
    AllWritten(table, values, s) || exists n: nat :: n <= |table| && PrefixState(table, before, values, n, s)
  }

  /** Every state from moment `start` on is clean. */
  ghost predicate HistoryClean(table: seq<Setting>, before: Store, values: seq<int>, start: nat, history: seq<Store>)
    requires Snapshot(table, values)
    decreases |history|
  {
    |history| > start ==>
      CleanState(table, before, values, history[|history| - 1]) &&
      HistoryClean(table, before, values, start, history[..|history| - 1])
  }

  lemma {:induction false} CleanAt(table: seq<Setting>, before: Store, values: seq<int>, start: nat, history: seq<Store>, t: nat)
    requires Snapshot(table, values) && HistoryClean(table, before, values, start, history) && start <= t < |history|
    ensures CleanState(table, before, values, history[t])
    decreases |history|
  {
    if t < |history| - 1 {
      CleanAt(table, before, values, start, history[..|history| - 1], t);
    }
  }

  /** A clean history stays clean when clean states are added. */
  lemma {:induction false} CleanOn(table: seq<Setting>, before: Store, values: seq<int>, start: nat, history: seq<Store>, longer: seq<Store>)
    requires Snapshot(table, values) && HistoryClean(table, before, values, start, history) && history <= longer
    requires forall t :: |history| <= t < |longer| ==> CleanState(table, before, values, longer[t])
    ensures HistoryClean(table, before, values, start, longer)
    decreases |longer|
  {
    if |history| < |longer| {
      CleanOn(table, before, values, start, history, longer[..|longer| - 1]);
    } else {
      assert longer == history;
    }
  }

  predicate HistoryWritten(table: seq<Setting>, values: seq<int>, start: nat, history: seq<Store>)
    requires Snapshot(table, values)
  {
    forall t :: start <= t < |history| ==> AllWritten(table, values, history[t])
  }

  /** A save none of whose rows failed, from moment `start`: it passes through every prefix of the rows,
      and through no other state before they are all written. */
  ghost predicate CleanRun(table: seq<Setting>, before: Store, values: seq<int>, start: nat, history: seq<Store>) {
    && Snapshot(table, values) && start < |history| && history[start] == before
    && PassedUpTo(table, before, values, |table|, start, history)
    && HistoryClean(table, before, values, start + 1, history)
  }

  /** The same after the first n rows, with the flash now in state `s`. */
  ghost predicate CleanSoFar(table: seq<Setting>, before: Store, values: seq<int>, n: nat, s: Store, start: nat, history: seq<Store>)
    requires Snapshot(table, values) && n <= |table|
  {
    && WrittenUpTo(table, values, n, s) && PrefixState(table, before, values, n, s)
    && PassedUpTo(table, before, values, n, start, history) && HistoryClean(table, before, values, start + 1, history)
  }

  /** What the row loop has done after n rows; `clean` tells that no row has failed. */
  ghost predicate Progress(table: seq<Setting>, before: Store, values: seq<int>, n: nat, s: Store, start: nat,
                           history: seq<Store>, clean: bool)
    requires Snapshot(table, values) && n <= |table|
  {
    && UnderOldSeal(table, before, values, s) && HistoryUnderOldSeal(table, before, values, start + 1, history)
    && (clean ==> CleanSoFar(table, before, values, n, s, start, history))
  }

  lemma RowAdvances(table: seq<Setting>, before: Store, values: seq<int>, i: nat, from: Store, after: Store,
                    start: nat, history: seq<Store>, longer: seq<Store>, clean: bool, done: bool)
    requires WellFormed(table) && Snapshot(table, values) && i < |table|
    requires history < longer && start < |history| && longer[|longer| - 1] == after
    requires Progress(table, before, values, i, from, start, history, clean) && RowStep(table[i], values[i], from, after)
    requires forall t :: |history| <= t < |longer| ==> RowStep(table[i], values[i], from, longer[t])
    requires done ==> table[i].key in after && after[table[i].key] == Stored(KindOf(table[i]), values[i])
    ensures Progress(table, before, values, i + 1, after, start, longer, clean && done)
  {
    RowStepsStayUnderOldSeal(table, before, values, i, from, after, start + 1, history, longer);
    if clean && done {
      RowKeepsClean(table, before, values, i, from, after, start, history, longer);
    }
  }

  lemma ProgressAtTheEnd(table: seq<Setting>, before: Store, values: seq<int>, s: Store, start: nat, history: seq<Store>, clean: bool)
    requires Snapshot(table, values) && start < |history| && history[start] == before
    requires Progress(table, before, values, |table|, s, start, history, clean)
    ensures clean ==> AllWritten(table, values, s) && CleanRun(table, before, values, start, history)
  {
  }

  lemma RowKeepsClean(table: seq<Setting>, before: Store, values: seq<int>, i: nat, from: Store, after: Store,
                      start: nat, history: seq<Store>, longer: seq<Store>)
    requires WellFormed(table) && Snapshot(table, values) && i < |table|
    requires history < longer && start < |history| && longer[|longer| - 1] == after
    requires UnderOldSeal(table, before, values, from) && RowStep(table[i], values[i], from, after)
    requires CleanSoFar(table, before, values, i, from, start, history)
    requires forall t :: |history| <= t < |longer| ==> RowStep(table[i], values[i], from, longer[t])
    requires table[i].key in after && after[table[i].key] == Stored(KindOf(table[i]), values[i])
    ensures CleanSoFar(table, before, values, i + 1, after, start, longer)
  {
    RowWritten(table, before, values, i, from, after, start, history, longer);
    RowStepsStayClean(table, before, values, i, from, start + 1, history, longer);
  }

  lemma RowStepsStayClean(table: seq<Setting>, before: Store, values: seq<int>, i: nat, from: Store,
                          start: nat, history: seq<Store>, longer: seq<Store>)
    requires WellFormed(table) && Snapshot(table, values) && i < |table| && history <= longer
    requires UnderOldSeal(table, before, values, from) && PrefixState(table, before, values, i, from)
    requires HistoryClean(table, before, values, start, history)
    requires forall t :: |history| <= t < |longer| ==> RowStep(table[i], values[i], from, longer[t])
    ensures HistoryClean(table, before, values, start, longer)
  {
    forall t | |history| <= t < |longer|
      ensures CleanState(table, before, values, longer[t])
    {
      RowStepIsClean(table, before, values, i, from, longer[t]);
    }
    CleanOn(table, before, values, start, history, longer);
  }

  /** Whatever a row write does to the flash, the row reads as before or as new. */
  lemma RowStepIsClean(table: seq<Setting>, before: Store, values: seq<int>, i: nat, from: Store, after: Store)
    requires WellFormed(table) && Snapshot(table, values) && i < |table|
    requires UnderOldSeal(table, before, values, from) && PrefixState(table, before, values, i, from)
    requires RowStep(table[i], values[i], from, after)
    ensures CleanState(table, before, values, after)
  {
    RowStepMixes(table, before, values, i, from, after);
    if table[i].key in after && after[table[i].key] == Stored(KindOf(table[i]), values[i]) {
      RowStepExtends(table, before, values, i, from, after);
      assert PrefixState(table, before, values, i + 1, after);
    } else {
      RowStepLeavesPrefix(table, from, i, after);
      assert PrefixState(table, before, values, i, after);
    }
  }

  lemma RowStepLeavesPrefix(table: seq<Setting>, from: Store, i: nat, after: Store)
    requires i < |table|
    requires forall k :: 0 <= k < |table| && k != i ==> SameItem(from, after, table[k].key)
    requires || SameItem(from, after, table[i].key)
             || (table[i].key !in after && table[i].key in from && !Readable(KindOf(table[i]), from[table[i].key]))
    ensures LoadedTable(table, after) == LoadedTable(table, from)
  {
    forall k | 0 <= k < |table|
      ensures LoadedValue(table[k], after) == LoadedValue(table[k], from)
    {
    }
  }

  lemma CleanRunPersists(table: seq<Setting>, before: Store, values: seq<int>, start: nat, history: seq<Store>, longer: seq<Store>)
    requires CleanRun(table, before, values, start, history) && history <= longer
    requires HistoryWritten(table, values, |history|, longer)
    ensures CleanRun(table, before, values, start, longer)
  {
    PassedPersists(table, before, values, |table|, start, history, longer);
    CleanOn(table, before, values, start + 1, history, longer);
  }

  predicate WrittenUpTo(table: seq<Setting>, values: seq<int>, n: nat, s: Store)
    requires Snapshot(table, values)
  {
    forall k :: 0 <= k < n && k < |table| ==> table[k].key in s && s[table[k].key] == Stored(KindOf(table[k]), values[k])
  }

  /** From moment `start` on the flash has stayed under the old seal. */
  predicate HistoryUnderOldSeal(table: seq<Setting>, before: Store, values: seq<int>, start: nat, history: seq<Store>)
    requires Snapshot(table, values)
  {
    forall t :: start <= t < |history| ==> UnderOldSeal(table, before, values, history[t])
  }

  /** From moment `start` on every state of the flash is a legitimate cut of the save. */
  predicate HistoryCut(table: seq<Setting>, before: Store, values: seq<int>, start: nat, history: seq<Store>)
    requires Snapshot(table, values)
  {
    forall t :: start <= t < |history| ==> CutState(table, before, values, history[t])
  }

  /** nvs_read_setting succeeds on the row and gives this value. */
  predicate ReadsAs(row: Setting, store: Store, value: int) {
    row.key in store && Readable(KindOf(row), store[row.key]) && ReadBack(KindOf(row), store[row.key]) == value
  }

  predicate AllRead(table: seq<Setting>, store: Store, values: seq<int>) {
    |values| == |table| && forall i :: 0 <= i < |table| ==> ReadsAs(table[i], store, values[i])
  }

  /** A sealed namespace whose rows read back as the snapshot boots that snapshot, trusted. */
  lemma SealedOutcome(table: seq<Setting>, values: seq<int>, store: Store)
    requires AllRead(table, store, values)
    requires MarkerIs(store, TXN_VERSION) && CrcIs(store, Fingerprint.Of(values))
    ensures Judge(table, store).Sealed? && Outcome(table, store) == values
  {
    assert LoadedTable(table, store) == values by {
      assert forall i :: 0 <= i < |table| ==> ReadsAs(table[i], store, values[i]);
    }
  }

  lemma DefaultHolds(row: Setting)
    requires DefaultFits(row)
    ensures Holds(KindOf(row), DefaultEncoded(row))
  {
  }

  lemma LoadedHolds(row: Setting, store: Store)
    requires DefaultFits(row) && ValidStore(store)
    ensures Holds(KindOf(row), LoadedValue(row, store))
  {
  }

  lemma RowStepMixes(table: seq<Setting>, before: Store, values: seq<int>, i: nat, from: Store, after: Store)
    requires WellFormed(table) && Snapshot(table, values) && i < |table|
    requires UnderOldSeal(table, before, values, from)
    requires RowStep(table[i], values[i], from, after)
    ensures UnderOldSeal(table, before, values, after)
    ensures forall k :: 0 <= k < |table| && k != i ==> SameItem(from, after, table[k].key)
  {
    StoredRoundTrip(KindOf(table[i]), values[i]);
    assert SameItem(from, after, VALID_KEY) && SameItem(from, after, CRC_KEY);
    forall k | 0 <= k < |table| && k != i
      ensures SameItem(from, after, table[k].key)
    {
      assert table[k].key != table[i].key by {
        if k < i { assert table[k].key != table[i].key; } else { assert table[i].key != table[k].key; }
      }
    }
  }

  lemma PrefixZero(table: seq<Setting>, before: Store, values: seq<int>, start: nat, history: seq<Store>)
    requires Snapshot(table, values) && start < |history| && history[start] == before
    ensures PrefixState(table, before, values, 0, before)
    ensures PassedUpTo(table, before, values, 0, start, history)
  {
    var moments: seq<nat> := [start];
    assert PassedAt(table, before, values, 0, start, history, moments);
  }

  lemma RowStepExtends(table: seq<Setting>, before: Store, values: seq<int>, i: nat, from: Store, after: Store)
    requires WellFormed(table) && Snapshot(table, values) && i < |table|
    requires PrefixState(table, before, values, i, from) && SameSeal(before, after)
    requires forall k :: 0 <= k < |table| && k != i ==> SameItem(from, after, table[k].key)
    requires table[i].key in after && after[table[i].key] == Stored(KindOf(table[i]), values[i])
    ensures PrefixState(table, before, values, i + 1, after)
  {
    StoredRoundTrip(KindOf(table[i]), values[i]);
    var was, will := LoadedTable(table, before), WrittenTable(table, values);
    forall k | 0 <= k < |table|
      ensures LoadedTable(table, after)[k] == PrefixTable(was, will, i + 1)[k]
    {
      assert LoadedTable(table, from)[k] == PrefixTable(was, will, i)[k];
      if k != i {
        assert SameItem(from, after, table[k].key);
      }
    }
  }

  lemma PassedPersists(table: seq<Setting>, before: Store, values: seq<int>, last: nat, start: nat,
                       history: seq<Store>, longer: seq<Store>)
    requires Snapshot(table, values) && last <= |table| && history <= longer
    requires PassedUpTo(table, before, values, last, start, history)
    ensures PassedUpTo(table, before, values, last, start, longer)
  {
    var moments: seq<nat> :| PassedAt(table, before, values, last, start, history, moments);
    assert forall n :: 0 <= n <= last ==> longer[moments[n]] == history[moments[n]];
    assert PassedAt(table, before, values, last, start, longer, moments);
  }

  lemma PassesOneMore(table: seq<Setting>, before: Store, values: seq<int>, n: nat, start: nat, history: seq<Store>, t: nat)
    requires Snapshot(table, values) && n < |table| && PassedUpTo(table, before, values, n, start, history)
    requires start <= t < |history| && PrefixState(table, before, values, n + 1, history[t])
    ensures PassedUpTo(table, before, values, n + 1, start, history)
  {
    var moments: seq<nat> :| PassedAt(table, before, values, n, start, history, moments);
    assert PassedAt(table, before, values, n + 1, start, history, moments + [t]);
  }

  lemma UnderOldSealIsCut(table: seq<Setting>, before: Store, values: seq<int>, start: nat, history: seq<Store>)
    requires Snapshot(table, values) && HistoryUnderOldSeal(table, before, values, start, history)
    ensures HistoryCut(table, before, values, start, history)
  {
  }

  lemma RowStepsStayUnderOldSeal(table: seq<Setting>, before: Store, values: seq<int>, i: nat, from: Store, after: Store,
                                 start: nat, history: seq<Store>, longer: seq<Store>)
    requires WellFormed(table) && Snapshot(table, values) && i < |table| && history <= longer
    requires UnderOldSeal(table, before, values, from)
    requires HistoryUnderOldSeal(table, before, values, start, history)
    requires forall t :: |history| <= t < |longer| ==> RowStep(table[i], values[i], from, longer[t])
    requires RowStep(table[i], values[i], from, after)
    ensures HistoryUnderOldSeal(table, before, values, start, longer)
    ensures UnderOldSeal(table, before, values, after)
  {
    forall t | start <= t < |longer|
      ensures UnderOldSeal(table, before, values, longer[t])
    {
      if t < |history| {
        assert longer[t] == history[t];
      } else {
        RowStepMixes(table, before, values, i, from, longer[t]);
      }
    }
    RowStepMixes(table, before, values, i, from, after);
  }

  lemma RowWritten(table: seq<Setting>, before: Store, values: seq<int>, i: nat, from: Store, after: Store,
                   start: nat, history: seq<Store>, longer: seq<Store>)
    requires WellFormed(table) && Snapshot(table, values) && i < |table| && history <= longer
    requires UnderOldSeal(table, before, values, from) && RowStep(table[i], values[i], from, after)
    requires WrittenUpTo(table, values, i, from) && PrefixState(table, before, values, i, from)
    requires PassedUpTo(table, before, values, i, start, history) && start <= |history|
    requires |history| < |longer| && longer[|longer| - 1] == after
    requires table[i].key in after && after[table[i].key] == Stored(KindOf(table[i]), values[i])
    ensures WrittenUpTo(table, values, i + 1, after) && PrefixState(table, before, values, i + 1, after)
    ensures PassedUpTo(table, before, values, i + 1, start, longer)
  {
    RowStepMixes(table, before, values, i, from, after);
    RowStepExtends(table, before, values, i, from, after);
    PassedPersists(table, before, values, i, start, history, longer);
    PassesOneMore(table, before, values, i, start, longer, |longer| - 1);
  }

  lemma OtherKeyKeepsWritten(table: seq<Setting>, values: seq<int>, s: Store, key: string, item: Entry)
    requires WellFormed(table) && Snapshot(table, values) && AllWritten(table, values, s)
    requires key == VALID_KEY || key == GEN_KEY || key == CRC_KEY
    ensures AllWritten(table, values, s[key := item])
  {
  }

  // ---------------------------------------------------------------- crash theorems over a save

  /** While the marker is current, a power cut after any prefix of a save, or the failure of any
      of its writes, leaves a namespace that boots the old table, the new table or the defaults. */
  lemma SaveIsCrashAtomic(table: seq<Setting>, before: Store, values: seq<int>, start: nat, history: seq<Store>)
    requires Snapshot(table, values) && HistoryCut(table, before, values, start, history)
    requires MarkerIs(before, TXN_VERSION) && NoTornCollision(table, before, values)
    ensures forall t :: start <= t < |history| ==> Acceptable(table, before, values, Outcome(table, history[t]))
  {
    forall t | start <= t < |history|
      ensures Acceptable(table, before, values, Outcome(table, history[t]))
    {
      CutIsAtomic(table, before, values, history[t]);
    }
  }

  /** The same counted from the table that was last sealed, however many saves have failed under its seal
      since: every state of the flash boots that table, the new table or the defaults. */
  lemma SaveAfterFailuresIsCrashAtomic(table: seq<Setting>, stores: seq<Store>, attempts: seq<seq<int>>, sealed: seq<int>,
                                       values: seq<int>, start: nat, history: seq<Store>)
    requires FailedSaves(table, stores, attempts) && Snapshot(table, values)
    requires SealedWith(stores[0], sealed) && LoadedTable(table, stores[0]) == sealed
    requires var all := attempts + [values];
             (forall m :: 0 <= m < |all| ==> Snapshot(table, all[m])) && OnlySealedMatches(table, sealed, all)
    requires HistoryCut(table, stores[|attempts|], values, start, history)
    ensures forall t :: start <= t < |history| ==> BootsOneOf(table, history[t], sealed, WrittenTable(table, values))
  {
    forall t | start <= t < |history|
      ensures BootsOneOf(table, history[t], sealed, WrittenTable(table, values))
    {
      SaveAfterFailedSaves(table, stores, attempts, sealed, values, history[t]);
    }
  }

  predicate BootsOneOf(table: seq<Setting>, s: Store, sealed: seq<int>, written: seq<int>) {
    Outcome(table, s) == sealed || Outcome(table, s) == written || Outcome(table, s) == DefaultTable(table)
  }

  /** A save that changes at most one row of the flash is crash-atomic whatever the marker says. */
  lemma SingleChangeIsCrashAtomic(table: seq<Setting>, before: Store, values: seq<int>, start: nat, history: seq<Store>)
    requires Snapshot(table, values) && HistoryCut(table, before, values, start, history)
    requires AtMostOneChange(LoadedTable(table, before), WrittenTable(table, values))
    ensures forall t :: start <= t < |history| ==> Acceptable(table, before, values, Outcome(table, history[t]))
  {
    if MarkerIs(before, TXN_VERSION) {
      SingleChangeNeverTears(table, before, values);
      SaveIsCrashAtomic(table, before, values, start, history);
    } else {
      forall t | start <= t < |history|
        ensures Acceptable(table, before, values, Outcome(table, history[t]))
      {
        OneChangeIsAcceptable(table, before, values, history[t]);
      }
    }
  }

  /** Without a current marker (after an interrupted save it is 0) even a save none of whose writes fails
      is at the mercy of a power cut: all the states it passes through are acceptable exactly when at
      most one row changes, or two rows by way of the defaults. */
  lemma UnsealedCleanSaveExactlyWhen(table: seq<Setting>, before: Store, values: seq<int>, start: nat, history: seq<Store>)
    requires CleanRun(table, before, values, start, history) && !MarkerIs(before, TXN_VERSION)
    ensures var a, b := LoadedTable(table, before), WrittenTable(table, values);
            (forall t :: start < t < |history| ==> Acceptable(table, before, values, Outcome(table, history[t])))
            <==> AtMostOneChange(a, b) || exists i, j :: PassesThroughDefaults(a, b, DefaultTable(table), i, j)
  {
    var a, b, d := LoadedTable(table, before), WrittenTable(table, values), DefaultTable(table);
    if EveryPrefixAcceptable(a, b, d) {
      forall t | start < t < |history|
        ensures Acceptable(table, before, values, Outcome(table, history[t]))
      {
        CleanAt(table, before, values, start + 1, history, t);
        CleanStateIsAcceptable(table, before, values, history[t]);
      }
    } else if forall t :: start < t < |history| ==> Acceptable(table, before, values, Outcome(table, history[t])) {
      UnsealedSaveTears(table, before, values, start, history);
    }
    PrefixesAreAcceptableExactlyWhen(a, b, d);
  }

  lemma CleanStateIsAcceptable(table: seq<Setting>, before: Store, values: seq<int>, s: Store)
    requires Snapshot(table, values) && CleanState(table, before, values, s) && !MarkerIs(before, TXN_VERSION)
    requires EveryPrefixAcceptable(LoadedTable(table, before), WrittenTable(table, values), DefaultTable(table))
    ensures Acceptable(table, before, values, Outcome(table, s))
  {
    if AllWritten(table, values, s) {
      WrittenCutIsAcceptable(table, before, values, s);
    } else {
      var n: nat :| n <= |table| && PrefixState(table, before, values, n, s);
      PrefixAcceptableExactlyWhen(table, before, values, n, s);
      PrefixIsAcceptable(LoadedTable(table, before), WrittenTable(table, values), DefaultTable(table), n);
    }
  }

  /** One prefix among them all. */
  predicate AcceptablePrefix(a: seq<int>, b: seq<int>, defaults: seq<int>, n: nat)
    requires |a| == |b| == |defaults| && n <= |a|
  {
    var t := PrefixTable(a, b, n);
    t == a || t == b || t == defaults
  }

  lemma PrefixIsAcceptable(a: seq<int>, b: seq<int>, defaults: seq<int>, n: nat)
    requires |a| == |b| == |defaults| && n <= |a| && EveryPrefixAcceptable(a, b, defaults)
    ensures AcceptablePrefix(a, b, defaults, n)
  {
  }

  /** A state that holds the first n new rows boots an acceptable table if and only if that prefix is one. */
  lemma PrefixAcceptableExactlyWhen(table: seq<Setting>, before: Store, values: seq<int>, n: nat, s: Store)
    requires Snapshot(table, values) && n <= |table| && PrefixState(table, before, values, n, s) && !MarkerIs(before, TXN_VERSION)
    ensures Acceptable(table, before, values, Outcome(table, s)) <==>
            AcceptablePrefix(LoadedTable(table, before), WrittenTable(table, values), DefaultTable(table), n)
  {
    UnsealedBootsTheRows(table, before, s);
  }

  /** A save that passes through every prefix and shows no torn table has only legitimate prefixes. */
  lemma UnsealedSaveTears(table: seq<Setting>, before: Store, values: seq<int>, start: nat, history: seq<Store>)
    requires CleanRun(table, before, values, start, history) && !MarkerIs(before, TXN_VERSION)
    requires forall t :: start < t < |history| ==> Acceptable(table, before, values, Outcome(table, history[t]))
    ensures EveryPrefixAcceptable(LoadedTable(table, before), WrittenTable(table, values), DefaultTable(table))
  {
    var a, b, d := LoadedTable(table, before), WrittenTable(table, values), DefaultTable(table);
    var moments: seq<nat> :| PassedAt(table, before, values, |table|, start, history, moments);
    forall n | 0 <= n <= |table|
      ensures AcceptablePrefix(a, b, d, n)
    {
      PassedPrefixIsAcceptable(table, before, values, start, history, n, moments[n]);
    }
    EachPrefixAcceptable(a, b, d);
  }

  lemma EachPrefixAcceptable(a: seq<int>, b: seq<int>, defaults: seq<int>)
    requires |a| == |b| == |defaults| && forall n :: 0 <= n <= |a| ==> AcceptablePrefix(a, b, defaults, n)
    ensures EveryPrefixAcceptable(a, b, defaults)
  {
    forall n | 0 <= n <= |a|
      ensures var t := PrefixTable(a, b, n); t == a || t == b || t == defaults
    {
      assert AcceptablePrefix(a, b, defaults, n);
    }
  }

  lemma PassedPrefixIsAcceptable(table: seq<Setting>, before: Store, values: seq<int>, start: nat, history: seq<Store>, n: nat, t: nat)
    requires Snapshot(table, values) && n <= |table| && start <= t < |history| && history[start] == before
    requires PrefixState(table, before, values, n, history[t]) && !MarkerIs(before, TXN_VERSION)
    requires t > start ==> Acceptable(table, before, values, Outcome(table, history[t]))
    ensures AcceptablePrefix(LoadedTable(table, before), WrittenTable(table, values), DefaultTable(table), n)
  {
    PrefixAcceptableExactlyWhen(table, before, values, n, history[t]);
  }
}
