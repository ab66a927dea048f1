# A verified model of the inverter firmware's stateful core

The firmware runs an ESP32 inverter: it keeps its settings in flash, drives a character LCD over
I2C, starts and stops Wi-Fi, and turns five push buttons into gestures. This project models the parts
in which a protocol, a transaction or a queue has to stay correct over every run, and proves that it
does, or says exactly when it does not.

| file | what it models |
|---|---|
| `SettingsCodec`, `SettingsTable`, `SettingsTransaction`, `SettingsRuntime`, `SettingsExamples` | the settings table, its NVS representation, the save transaction with any flash write failing or cut off, the loader, and saves of the firmware's own table that go wrong |
| `Fingerprint` | the 32-bit FNV-1a fingerprint that seals the transaction (section 2 of draft-eastlake-fnv) |
| `EditRollback` | the value editors, what each edit does, and what a failed save restores |
| `BatteryProfile`, `SettingsClamp` | profile generation and the cross-field repair of loaded settings |
| `Hd44780`, `LcdLink` | the display controller, and the nibble link with its error latch and resynchronisation (Figure 24 of the Hitachi HD44780U datasheet) |
| `Button`, `ButtonGesture`, `ButtonDue`, `WakeGesture` | debouncing and click chains, the account of every press, which events every poll owes, and the latch that consumes the gesture that wakes the display |
| `FlashQueue` | the bounded priority queue of flash messages |
| `WifiAdmission`, `WifiOperation` | the admission token of radio transitions, and the generation-tagged pending operation |
| `Watchdog` | the generation-tagged task registry with its two-phase unregister |
| `LcdIntegrity` | the CRC-8 over the screen rows |
| `ErrorLogScroll`, `FaultDefinitions` | word wrap of a fault definition, its pages, and the definitions themselves |
| `LabelSort` | the label order and the two insertion sorts built on it |

Code that changes state in place is a class or a method over an array, specified by a function of the
old state; the theorems are lemmas about those functions. Tasks that share state are modelled as atomic
steps: the machine says what one step may do, the class methods are proved to take such steps, and the
theorems quantify over all runs of the machine.

## What the proofs found

- **Crash atomicity needs a current marker.** A save writes all values before it touches the
  transaction marker, so a power cut leaves a mixture under the old marker. The loader checks the
  fingerprint only while that marker is 4. If an earlier cut left it at 0 (or none was ever written),
  the loader keeps whatever it decodes, and a second cut boots a mixture of two tables
  (`SecondCutBootsAMixture`). Without a current marker every state a save can leave is acceptable
  exactly when the save changes at most one row (`UnsealedSaveIsAtomicExactlyWhen`), because the rows
  after a failed one are still written (`FailedRowBootsAMixture`). A save none of whose writes fails is
  slightly luckier: it also survives a power cut when exactly two rows change by way of the defaults.
- **Under a current marker "old table" has two meanings.** After a failed save the flash holds a mixture
  under the old seal, which boots the defaults (`FailedSaveBootsDefaults`), and a cut in the next save may
  bring the sealed table back (`SaveAfterAFailedSave`, with no hash collision in it). So measured by what a
  boot before the save would have shown, a save is atomic exactly when no mixture other than the rows in
  flash, the new table and the defaults has the fingerprint in flash (`SealedSaveIsAtomicExactlyWhen`), and
  a save after a failed one can miss that. Measured by the table last sealed it is atomic however many
  saves have failed since: every boot shows the sealed table, the new table or the defaults
  (`SaveAfterFailuresIsCrashAtomic`). Here the assumption is only that no other table assembled from the
  sealed one and the attempted ones has its fingerprint, which is exactly what is needed
  (`FailedSavesAreHarmlessExactlyWhen`), and none is needed while the same change of one setting is retried
  (`NextRetryIsAtomic`) or different values of one byte-sized setting are tried (`ByteRowNeedsNoAssumption`).
- **A save fails exactly when something fails or does not fit.** If no flash operation fails, a save succeeds
  exactly when the captured capacity fits 16 bits and none of the three transaction keys is stored with
  another type: rows of a legacy type are erased and written again, the transaction keys are not
  (`SaveSettingsLocked`, `SurvivesExactlyWhen`).
- **Only lead-acid survives the clamp.** Five of the six chemistries leave `high_battery_voltage_v` at
  0, so the recharge ceiling is 0. The clamp orders the voltages exactly when the ceiling is at least the
  floor plus 0.3 V; the default AGM battery ends with a cutoff of -0.3 V and a recharge voltage of 0 V.
- **The clamp can report a correction after it has corrected everything.** A second run changes no
  value, but it still reports one exactly when the first run had to set cutoff and recharge 0.3 V apart
  or found them so. This is a statement about reals: where recharge was raised to cutoff + 0.3, `float`
  rounding may leave it a hair above or below; where it was lowered to the ceiling, as for the default
  battery, cutoff is computed by the same subtraction the second run makes.
- **A failed save does not take back the time-set flag.** After boot every encoded value is what it was
  when the editor opened, except exactly for Set Hour and Set Minute while the time had never been set by
  hand; Set Hour on the restored defaults shows it (`SetHourIsNotTakenBack`). The restore also rewrites
  the stored system voltage from the profile; boot makes the two agree, and every editor and every
  restore keeps them so, which is why this loses nothing.
- **A button created while held is deaf** until it is created again, whatever happens to it.
- **The unconditional Wi-Fi end has no generation check.** An end issued for one begin clears another
  operation exactly when a begin came after that one and its operation is still pending; an end for no
  begin, by a disconnect request while not connected, clears whatever is pending. An end by generation
  matches exactly when the generation has been advanced a multiple of 2^32 times since the capture (and
  an operation is pending and may be ended), so it clears another operation exactly when that multiple
  is not zero.
- **A seventh wrapped line is not shown on 20 columns** unless it repeats another; on 16 columns all seven are. None of
  the 13 definitions the firmware has is that long: each wraps into at most five lines on either display
  and is shown whole (`DefinitionsAreShown`).
- **The snapshot of a screen row reads 16 characters even past the terminator.** The comment says it
  pads shorter rows; it stores the padded string exactly when only terminators and blanks follow the
  string within the 16 bytes (`PadsTextExactlyWhen`), and a byte left behind the terminator is stored as
  if it belonged to the string (`LeftoverByteIsStored`). The firmware never gets there: both callers
  (src/lcd_task.c:147 and 178) pass rows padded to 16 or 20 columns, or still all zero, and these meet the
  condition. A row shorter than 16 bytes would be read past
  its end, so the model takes rows of at least 16.
- **One row is laid over a field of another type.** `frequency_range` is a float whose bits the table
  treats as an int32, so its default of 50 is a bit pattern, not 50 Hz. The model stores the bits. The
  rows for the battery type and the inverter voltage own only the low byte of a wider integer.
- **A capacity outside 0..65535 does not survive storage**, the only storage kind that loses a value
  (`StoredRoundTrip`); such a save is caught by the read-back.

## Model

| member | source | states |
|---|---|---|
| SettingsCodec.AssignEncodes | src/app_runtime.c:1981-2079 | for all six storage kinds, assigning an encoded value to a field and encoding the field again gives the value back, even where a one-byte row is laid over a wider integer |
| SettingsCodec.EncodeHolds | src/app_runtime.c:1981-2011 | the encoded value of any field with the row's type is one its row can hold |
| SettingsCodec.StoredRoundTrip | src/app_runtime.c:2155-2219 | writing a value as its typed NVS item and reading it back is the identity, except exactly for a capacity outside 0..65535 |
| SettingsCodec.AssignShowsItem | src/app_runtime.c:2308-2385 | a loaded field shows what its item says, in hundredths for a scaled row, and a one-byte row keeps the other bytes of its cell |
| SettingsCodec.AssignShowsDefault | src/app_runtime.c:2308-2385 | a field loaded without an item shows the row's default: a flag whether it is nonzero, a scaled row its nearest hundredth, an integer row its whole part |
| SettingsCodec.EncodedAgainShows | src/app_runtime.c:1981-2079 | encoding a field and assigning it again moves a scaled one by at most 0.005, truncates a capacity, and changes nothing else |
| SettingsTable.KindOfRow | src/app_runtime.c:1837-1872 | the storage kind each of the 34 rows gets from its flags, size and key |
| SettingsTable.PositionOfRow | src/app_runtime.c:1837-1872 | the key of each row leads back to that row, so no two rows share a key |
| SettingsTable.TableIsWellFormed | src/app_runtime.c:1837-1872 | the firmware's own table has distinct keys, none of them a transaction key, and defaults that fit: the transaction theorems apply to it |
| SettingsTable.DefaultIsExact | src/app_runtime.c:1837-1872 | all 34 defaults are exactly what their encodings mean |
| SettingsTable.SurvivesExactlyWhen | src/app_runtime.c:2221-2246 | a snapshot of the firmware's table reads back as written if and only if its capacity fits 16 bits |
| Fingerprint.FromSnapshot | src/app_runtime.c:2088-2104 | the nested loops compute the fingerprint function the detection lemmas are about |
| Fingerprint.HashOfA | src/app_runtime.c:2088-2104 | the octet loop gives the published 32-bit FNV-1a hash of "a", 0xE40C292C |
| Fingerprint.FingerprintOfTwoZeros | src/app_runtime.c:2088-2104 | the fingerprint of two zero settings, with their indices and the version in it |
| Fingerprint.TimesUndone | src/app_runtime.c:2098-2102 | multiplication by 16777619 modulo 2^32 is undone by multiplication by 899433627 |
| Fingerprint.XorUndoes | src/app_runtime.c:2097-2103 | xor with the same bits twice gives the value back |
| Fingerprint.AbsorbInjective | src/app_runtime.c:2095-2102 | one hash step is injective in the running hash and in the octet |
| Fingerprint.OneOctetChangesHash | src/app_runtime.c:2095-2099 | changing one octet of a setting changes the running hash after it |
| Fingerprint.SplitPersists | src/app_runtime.c:2091-2102 | two running hashes that differ stay different over equal settings |
| Fingerprint.OneOctetDetected | src/app_runtime.c:2088-2104 | two tables whose encoded images differ in exactly one octet never share a fingerprint |
| Fingerprint.ByteSettingDetected | src/app_runtime.c:2088-2104 | any change of one bool or unsigned 8-bit setting changes the fingerprint |
| SettingsTransaction.LoadedFromWritten | src/app_runtime.c:2308-2394 | a namespace in which every row was written loads as the written table |
| SettingsTransaction.EmptyNamespaceBootsDefaults | src/app_runtime.c:2308-2394 | a namespace without rows boots the default table, whatever its seal |
| SettingsTransaction.MissingRowBootsItsDefault | src/app_runtime.c:2706-2737 | a namespace that lacks one row, or holds it with another type, boots the stored rows and that one default, unless a current marker comes with another fingerprint |
| SettingsTransaction.CutIsAtomic | src/app_runtime.c:2706-2737 | under a current marker every namespace a cut save can leave boots what a boot before the save would have shown, the new table or the defaults, if no mixture other than the rows in flash, the new table and the defaults has the fingerprint in flash |
| SettingsTransaction.SealedSaveIsAtomicExactlyWhen | src/app_runtime.c:2706-2737 | that condition is exact: every cut of the save is acceptable if and only if it holds |
| SettingsTransaction.EveryMixtureIsACut | src/app_runtime.c:2254-2299 | any set of rows may be the ones of a save that reach the flash |
| SettingsTransaction.FailedSavesBootTheSealedTable | src/app_runtime.c:2939-2995 | however many saves have failed since a table was sealed, a boot under that seal shows that table or the defaults, if no other assembled table has its fingerprint |
| SettingsTransaction.FailedSavesAreHarmlessExactlyWhen | src/app_runtime.c:2939-2995 | over every way the writes of any series of saves can fail, the boot after them shows the sealed table or the defaults if and only if no other table assembled from the sealed and the attempted ones has its fingerprint |
| SettingsTransaction.EveryAssemblyIsReached | src/app_runtime.c:2254-2299 | every assembled table is what some series of failed saves leaves in flash |
| SettingsTransaction.SaveAfterFailedSaves | src/app_runtime.c:2939-2995 | every cut of the save after any number of failed ones boots the sealed table, the new table or the defaults |
| SettingsTransaction.ByteRowNeedsNoAssumption | src/app_runtime.c:2088-2104 | saves that try different values of one bool or unsigned byte cannot collide with the sealed table |
| SettingsTransaction.RetriedChangeIsAtomic | src/app_runtime.c:2939-2995 | with no assumption: however often one changed setting is tried again, every boot shows the sealed table, that change or the defaults |
| SettingsTransaction.NextRetryIsAtomic | src/app_runtime.c:2939-2995 | with no assumption: so does every boot after a cut of the next try |
| SettingsTransaction.SingleChangeNeverTears | src/app_runtime.c:2947-2995 | a save that changes at most one setting needs no assumption about collisions |
| SettingsTransaction.UnsealedPrefixBoots | src/app_runtime.c:2706-2724 | without a current marker the loader keeps the first n new rows over the old ones |
| SettingsTransaction.UnsealedSaveIsAtomicExactlyWhen | src/app_runtime.c:2254-2299 | without a current marker every state a save can leave, failed writes included, boots what a boot before it would have shown, the new table or the defaults if and only if at most one row changes |
| SettingsTransaction.PrefixesAreAcceptableExactlyWhen | src/app_runtime.c:2706-2724 | a power cut with no failed write before it is harmless at every point if and only if at most one row changes, or two by way of the defaults |
| SettingsRuntime.Runtime.NvsSet | src/app_runtime.c:2155-2180 | the flash primitive: a key keeps its type, a failed write may or may not have happened, other tasks run meanwhile |
| SettingsRuntime.Runtime.Capture | src/app_runtime.c:2013-2019 | each snapshot row is the encoding of the live field at some moment of the capture, whatever other tasks wrote in between |
| SettingsRuntime.Runtime.LoadAll | src/app_runtime.c:2308-2394 | after the load every field shows its item, or its default where the item is missing or of another type, and keeps the bytes it does not own; the fields re-encode to the loaded table |
| SettingsRuntime.Runtime.LiveFingerprint | src/app_runtime.c:2108-2113 | the fingerprint of the fields as they are now |
| SettingsRuntime.Runtime.ApplyDefaults | src/app_runtime.c:2115-2145 | every field holds its row's default, and the fields re-encode to the default table |
| SettingsRuntime.Runtime.LoadSettings | src/app_runtime.c:2653-2737 | the verdict on the namespace, the encoded table in force after boot, and field by field the item or the default it shows |
| SettingsRuntime.Runtime.WriteRow | src/app_runtime.c:2263-2283 | every state of the flash while one row is written, including the erase of an item of a legacy type |
| SettingsRuntime.Runtime.SaveRow | src/app_runtime.c:2263-2297 | one turn of the loop keeps all of that, and the first error is the one kept |
| SettingsRuntime.Runtime.SaveSnapshot | src/app_runtime.c:2254-2299 | all states stay under the old seal; a success has written every row, passed through every prefix and through no other state |
| SettingsRuntime.Runtime.BreakSeal | src/app_runtime.c:2958-2975 | the marker is 0 only once all rows are written |
| SettingsRuntime.Runtime.Reseal | src/app_runtime.c:2976-2985 | the marker is current only once rows and fingerprint are written |
| SettingsRuntime.Runtime.VerifySettings | src/app_runtime.c:2221-2246 | true exactly when every row reads back as the snapshot |
| SettingsRuntime.Runtime.WriteAndVerify | src/app_runtime.c:2947-3033 | what follows the capture: a true result means the namespace is trusted and reads back as the snapshot, and without a failed flash operation only a transaction key of another type or a lost value makes it false |
| SettingsRuntime.Runtime.SaveSettingsLocked | src/app_runtime.c:2915-3034 | a true result means the next load trusts the table and its fields re-encode to exactly the snapshot; every state on the way, failed or not, is a legitimate cut; and if no flash operation fails the result is true exactly when no transaction key has another type and the snapshot survives storage |
| SettingsRuntime.SealedOutcome | src/app_runtime.c:2729-2737 | a resealed namespace that reads back as the snapshot boots that snapshot, trusted |
| SettingsRuntime.SaveIsCrashAtomic | src/app_runtime.c:2939-2995 | along any save over a current marker, every state of the flash boots what a boot before the save would have shown, the new table or the defaults, under the condition of CutIsAtomic |
| SettingsRuntime.SaveAfterFailuresIsCrashAtomic | src/app_runtime.c:2915-3034 | along a save after any number of failed ones, every state of the flash boots the table last sealed, the new table or the defaults |
| SettingsRuntime.SingleChangeIsCrashAtomic | src/app_runtime.c:2939-2995 | the first of these for a save that changes one row of the flash, with no assumption and whatever the marker |
| SettingsRuntime.UnsealedSaveTears | src/app_runtime.c:2706-2724 | over a marker that is not current, a save without failed writes all of whose states are acceptable has only acceptable prefixes |
| SettingsRuntime.UnsealedCleanSaveExactlyWhen | src/app_runtime.c:2706-2724 | all states of such a save are acceptable if and only if at most one row changed, or two by way of the defaults |
| SettingsExamples.FirmwareHasQuietHours | src/app_runtime.c:1837-1872 | the quiet hours of the firmware's 34 rows make its table one the examples are about |
| SettingsExamples.OldSchemaBootsTheDefaultVolume | src/app_runtime.c:2706-2724 | a namespace of schema 3 without `sound_vol` boots with the volume 50 |
| SettingsExamples.SecondCutBootsAMixture | src/app_runtime.c:2706-2724 | the concrete failure: marker 0 after one cut, a second cut after the first of two changed rows boots a mixture |
| SettingsExamples.FailedRowBootsAMixture | src/app_runtime.c:2254-2299 | a concrete save by way of the defaults whose first write fails and whose second goes through boots a mixture |
| SettingsExamples.FailedSaveBootsDefaults | src/app_runtime.c:2729-2737 | a save that fails after its first row leaves the sealed table damaged, and the boot shows the defaults |
| SettingsExamples.SaveAfterAFailedSave | src/app_runtime.c:2939-2995 | a cut in the save after that boots the table sealed before both, which a boot between them would not have shown |
| EditRollback.EncodedIsCapture | src/app_runtime.c:2013-2019 | the encoded table the rollback theorem compares is the one a save captures |
| EditRollback.EditSession.Begin | src/app_runtime.c:7380-7436 | opening an editor records its row and the runtime state and changes nothing |
| EditRollback.EditSession.ApplyValue | src/app_runtime.c:4090-4338 | an edit takes effect as EveryEditTakesEffect says, and keeps the two voltages in agreement |
| EditRollback.EditSession.Finish | src/app_runtime.c:2032-2082 | a failed save leaves the restored state, a successful one the edited state |
| EditRollback.ProfileEditorsOnlyEdit | src/app_runtime.c:4234-4338 | the battery editors change only profile rows and the stored voltage |
| EditRollback.ApplyOnlyEdits | src/app_runtime.c:4090-4338 | what each of the 23 editors may change: its row, runtime rows, and the time-set flag for the clock editors |
| EditRollback.EveryEditTakesEffect | src/app_runtime.c:4090-4338 | for each of the 23 editors: what its row encodes to, told from the value entered alone; the runtime copy and output setpoint that follow; a profile editor refuses exactly the values out of range or over an invalid profile, keeps the other two selectors, and keeps a cutoff still safe; nothing else changes |
| EditRollback.SaveCapturesLastEdit | src/app_runtime.c:2013-2019 | after any series of edits a save captures the value last entered, and in the rows the editor does not write what it would have captured before |
| EditRollback.RestoreRow | src/app_runtime.c:2032-2082 | row by row, where the restored value comes from |
| EditRollback.SyncMakesSynced | src/app_runtime.c:4209-4215 | the boot-time sync makes the stored voltage agree with the profile |
| EditRollback.ApplyKeepsSynced | src/app_runtime.c:4090-4338 | each of the 23 editors keeps them in agreement |
| EditRollback.RestoreMakesSynced | src/app_runtime.c:2032-2082 | a restore leaves them in agreement |
| EditRollback.RollbackRestoresExactlyWhen | src/app_runtime.c:5518-5641 | from any state, after any series of edits and a failed save, every encoded value is what it was if and only if stored and nominal voltage agreed and, for the clock editors, the time was already set |
| EditRollback.RollbackAfterBootExactlyWhen | src/app_runtime.c:5518-5641 | after boot every encoded value is back if and only if the editor is not a clock editor or the time was already set |
| EditRollback.RuntimeIsBackExactlyWhen | src/app_runtime.c:2032-2082 | after a failed save the runtime copies agree with the fields, and the runtime state is what it was if and only if they did when the editor opened |
| EditRollback.SetHourIsNotTakenBack | src/app_runtime.c:4177-4183 | Set Hour on the restored defaults: the failed save leaves the table changed |
| SettingsClamp.Settings.RepairProfile | src/app_runtime.c:6305-6374 | the selectors are repaired and the flag tells whether anything changed |
| SettingsClamp.Settings.OrderVoltages | src/app_runtime.c:6376-6419 | floor, ceiling and margin are enforced in the code's order |
| SettingsClamp.Settings.ValidateAndClamp | src/app_runtime.c:6293-6517 | the whole repair, when it reports a correction, and the synchronised copies |
| SettingsClamp.ClampOrdersExactlyWhen | src/app_runtime.c:6376-6419 | floor <= cutoff <= recharge - 0.3 and recharge <= ceiling if and only if ceiling >= floor + 0.3; all other fields end in range |
| SettingsClamp.LimitsMoveLeast | src/app_runtime.c:6421-6517 | every limit ends at the number in its range nearest to what was loaded |
| SettingsClamp.CountsAreRepaired | src/app_runtime.c:6421-6517 | scroll speed and backlight time end as loaded or at their replacements, and the saved timeout moves only with the one in use |
| SettingsClamp.RepairRegenerates | src/app_runtime.c:6305-6374 | which of its own selectors a regenerated profile keeps, for every combination of invalid ones |
| SettingsClamp.VoltagesMoveLeast | src/app_runtime.c:6376-6419 | where the ceiling allows it, cutoff and then recharge end nearest to what they were |
| BatteryProfile.GeneratedScales | src/app_runtime.c:418-470 | generated voltages scale with the system voltage and currents with the capacity |
| BatteryProfile.GeneratedIsOrdered | src/app_runtime.c:343-407 | every generated profile cuts off between its floor and its recharge voltage |
| SettingsClamp.SecondRunChangesNothing | src/app_runtime.c:6293-6517 | the repair is idempotent |
| SettingsClamp.SecondRunReportsExactlyWhen | src/app_runtime.c:6396-6419 | a second run reports a correction if and only if, in the profile the first run starts from, cutoff raised to its floor is at least recharge lowered to its ceiling minus 0.3; equivalently the first run ends with them 0.3 apart |
| SettingsClamp.DefaultBatteryIsReportedAgain | src/app_runtime.c:6396-6419 | for the default battery a second run reports a correction and changes nothing |
| SettingsClamp.OnlyLeadAcidHasACeiling | src/app_runtime.c:343-407 | of the generated profiles exactly the lead-acid ones meet the condition |
| SettingsClamp.DefaultBatteryLosesItsCutoff | src/app_runtime.c:6376-6419 | the AGM default ends with cutoff -0.3 and recharge 0 |
| Hd44780.ResetReachesAligned | src/lcd.c:308-333 | three 0x3 nibbles and one 0x2 lead from any mode and any pending nibble to an aligned 4-bit interface |
| Hd44780.TwoResetsDoNotSuffice | src/lcd.c:313-326 | with only two reset nibbles the interface can stay 8 bits wide |
| Hd44780.TwoNibblesMakeTheByte | src/lcd.c:176-183 | the controller executes exactly the byte whose two nibbles arrive |
| LcdLink.Lcd.WriteRaw | src/lcd.c:96-111 | refused while the latch is set; otherwise it fails exactly when the bus write does, which sets the latch, counts, and may have reached the expander; a success leaves the byte with the backlight bit on the pins |
| LcdLink.Lcd.PulseEnable | src/lcd.c:134-152 | one falling edge on success, at most one on failure, none while latched |
| LcdLink.Lcd.SendNibble | src/lcd.c:164-169 | the pulse carries the upper nibble, and its lower bits never reach the control lines |
| LcdLink.Lcd.SendByte | src/lcd.c:176-183 | an aligned display decodes exactly the byte; on failure it decodes the byte or nothing; it fails exactly when a bus write does, and keeps the backlight as set |
| LcdLink.Lcd.BringUp | src/lcd.c:308-373 | success from any state of the display ends aligned, having decoded the bring-up bytes last |
| LcdLink.Lcd.Init | src/lcd.c:375-425 | the same after the address is known, whatever the clearing write did |
| LcdLink.Lcd.Resync | src/lcd.c:437-464 | clears the latch, then realigns, or sets it again exactly when a bus write fails |
| LcdLink.Lcd.SetBacklight | src/lcd.c:584-589 | the backlight line follows, and what the display decodes is never disturbed |
| LcdLink.DecodesExactlyTheGiven | src/lcd.c:96-183 | at any moment of any run at which the latch is clear, the display is aligned and the bytes decoded since the last resynchronisation are exactly those given since |
| LcdLink.LatchFreezesTheDisplay | src/lcd.c:96-111 | while the latch is set, the last resynchronisation failed or some call since set it: the display has the bytes given in between, perhaps that call's own, and nothing has reached it since |
| LcdLink.ExactAgainAfterResync | src/lcd.c:437-464 | after a successful resynchronisation, whatever failed before, the display decodes the bring-up bytes and then exactly the bytes given |
| LcdLink.BringUpMakesUsable | src/lcd.c:308-373 | from any state the bring-up bytes leave the panel on, with two lines, moving right from the first position, and blank exactly if they clear it or it was |
| LcdLink.UsableAfterResync | src/lcd.c:437-464 | after a successful resynchronisation the panel shows what the bytes given since make of such a panel |
| Button.RepeatPeriod | src/button_controller.c:192-197 | never zero when repeats are on; after three seconds of up or down a period above 50 ms is halved and any other becomes 50 ms |
| Button.Controller.constructor | src/button_controller.c:546-597 | the fields after create, with the pin at any level |
| Button.Controller.FinalizeClicks | src/button_controller.c:144-173 | the click event of a chain whose window has closed |
| Button.Controller.ProcessDeadlines | src/button_controller.c:175-213 | long press, repeats and chain deadline of one poll |
| Button.Controller.ProcessStableLevel | src/button_controller.c:215-264 | the accepted press or release and its events |
| Button.Controller.Turn | src/button_controller.c:302-364 | one button's part of a poll: edge, sampled level, debounce, deadlines |
| ButtonGesture.ButtonTask | src/button_controller.c:289-366 | the button task's loop emits exactly the events of the run function |
| ButtonGesture.RunIsSound | src/button_controller.c:175-264 | from a create with the button released, every run keeps is_pressed equal to the debounced level and emits only admissible events |
| ButtonGesture.EveryEventIsAdmissible | src/button_controller.c:175-264 | PRESS and RELEASE alternate, at most one LONG_PRESS a press, REPEATs only after it and at most floor((held - long_press_ms)/shortest period) of them, where held is the time since the accepted PRESS; durations and click counts are those of the presses they report |
| ButtonGesture.PressesBalance | src/button_controller.c:144-264 | every accepted press is held, long, pending, reported once, or in one of the two discarded classes |
| ButtonGesture.EveryPressIsAccountedFor | src/button_controller.c:144-264 | the balance for every run with multi-click on; each click event carries the length of its unbroken chain, capped at 5 |
| ButtonGesture.ChainIsGesture | src/button_controller.c:227-258 | a pending chain consists of all the presses of its gesture |
| ButtonGesture.LateDiscardNeedsAGap | src/button_controller.c:230-234 | a late press discards a chain only in the first poll that sees the window closed |
| ButtonGesture.CreatedHeldIsDeaf | src/button_controller.c:223-228 | a button created while held never emits anything |
| ButtonGesture.WorksExactlyWhenCreatedReleased | src/button_controller.c:223-228 | some run emits something if and only if the button was created released |
| ButtonDue.SettlesExactlyWhen | src/button_controller.c:302-364 | the debounce test, told from the inputs: the sampled level differs from the debounced one and the levels seen, edges included, have not changed for the debounce time |
| ButtonDue.DebouncesExactlyWhen | src/button_controller.c:302-364 | in any run a poll emits PRESS or RELEASE if and only if the level it sees contradicts what was reported so far and has been steady for the debounce time |
| ButtonDue.NothingIsOverdue | src/button_controller.c:175-213 | no poll leaves a hold that has reached the long-press time without LONG_PRESS, or a chain whose window has closed without its click event |
| ButtonDue.RepeatsExactlyWhen | src/button_controller.c:190-209 | a poll emits REPEAT if and only if the button is still held after its long press, repeats are on, and more whole periods have passed than at the last REPEAT |
| ButtonDue.EventsAreStamped | src/button_controller.c:95-264 | every event of a poll carries the time of that poll |
| WakeGesture.WakeLatch.ConsumeDisplayWakeupEvent | src/app_input.c:395-443 | after any events of any buttons: consumed if and only if the display is asleep, or an earlier event of the button found it asleep and the button has not started a new gesture since |
| WakeGesture.ConsumedExactlyWhen | src/app_input.c:404-442 | the same condition over any interleaving of events, and which of them wake the display |
| WakeGesture.AwakeConsumesNothing | src/app_input.c:425-428 | while the display is never asleep every event passes |
| WakeGesture.WakeConsumesUpToFreshPress | src/app_input.c:404-418 | after a wake the first event of that button to pass is a PRESS that starts a new chain |
| WakeGesture.WholeGestureIsConsumed | src/app_input.c:395-443 | in any run of the button, whichever of its events the handlers let through to the latch, none of the waking press or of a press joined to its chain passes it |
| FlashQueue.Queue.FindInsertPos | src/lcd_flash_queue.c:200-208 | the first position with a lower priority |
| FlashQueue.Queue.InsertAt | src/lcd_flash_queue.c:175-182 | the array shifted in place holds the list with the entry inserted |
| FlashQueue.Queue.RemoveAt | src/lcd_flash_queue.c:187-193 | the array shifted in place holds the list without the entry |
| FlashQueue.Queue.Enqueue | src/lcd_flash_queue.c:281-304 | insertion, replacement of the tail and rejection are all the first 16 of the list with the message inserted |
| FlashQueue.Queue.Dequeue | src/lcd_flash_queue.c:332-362 | yields the head and leaves the tail, or reports an empty queue |
| FlashQueue.Queue.PurgeBelow | src/lcd_flash_queue.c:396-413 | removing from tail to head is the filter |
| FlashQueue.CutCommutesWithInsert | src/lcd_flash_queue.c:281-304 | cutting the list to 16 before an insertion loses nothing the cut after it would keep |
| FlashQueue.QueueIsTopOfStableSort | src/lcd_flash_queue.c:281-304 | with enqueues only, the queue is the first 16 of the stable sort of everything offered |
| FlashQueue.SortIsStable | src/lcd_flash_queue.c:195-208 | that sort is a permutation by priority descending, then arrival |
| FlashQueue.EveryRunIsRanked | src/lcd_flash_queue.c:281-413 | under any mix of operations at most 16 messages wait, ranked by priority and then age |
| FlashQueue.DequeueYieldsOldestOfHighest | src/lcd_flash_queue.c:332-362 | so a dequeue yields the oldest of the highest priority |
| WifiAdmission.Gate.TryAdmit | src/app_services.c:2608-2621 | the compare-and-swap is one step: admission or rejection |
| WifiAdmission.Gate.SendAdmitted | src/app_services.c:2643-2656 | the send or, on a full queue, the return of the token |
| WifiAdmission.Gate.RequestTransition | src/app_services.c:2815-2838 | whatever other tasks do in between, a request is accepted exactly when the token was free, and its send never fails |
| WifiAdmission.Gate.Receive | src/app_services.c:1190-1196 | the worker takes the one queued request |
| WifiAdmission.Gate.Finish | src/app_services.c:1200-1239 | the token is free again once the transition is over |
| WifiAdmission.StepKeepsInvariant | src/app_services.c:1185-1239 | every step keeps the flag equal to the number of live requests |
| WifiAdmission.FlagCountsTheLiveRequest | src/app_services.c:2600-2653 | in every interleaving the flag is 1 exactly while one request is held, queued or executing, and no admitted send fails |
| WifiAdmission.TransitionsNeverOverlap | src/app_services.c:1228-1239 | two radio transitions never overlap |
| WifiOperation.Guard.BeginOperation | src/app_services.c:704-724 | a begin is one step that replaces the operation and advances the generation, wrapping at 2^32 |
| WifiOperation.Guard.EndOperation | src/app_services.c:726-738 | the unconditional end is one step, whichever begin it answers |
| WifiOperation.Guard.Copy | src/app_services.c:1407-1417 | the copy a callback or poll starts from |
| WifiOperation.Guard.EndIfGeneration | src/app_services.c:743-773 | ends the operation only if the generation matches and a disconnect has been visible for 900 ms |
| WifiOperation.Guard.CheckTimeout | src/app_services.c:537-556 | times out exactly at 30 s on 32-bit tick differences, and advances the generation |
| WifiOperation.MatchMeansSameOperation | src/app_services.c:751-752 | a generation that matches within 2^32 begins was captured from the operation now pending |
| WifiOperation.CaptureEndsOnlyItsOwn | src/app_services.c:740-773 | in every interleaving a captured generation ends only the operation it was captured from |
| WifiOperation.ReportedAtMostOnce | src/app_services.c:497-556 | each begun operation is reported finished at most once by callback, poll or timeout |
| WifiOperation.DisconnectStaysVisible | src/app_services.c:753-760 | no generation ends a disconnect in its first 900 ms |
| WifiOperation.PendingSinceItsBegin | src/app_services.c:704-738 | what is pending is always the latest operation begun and has been pending since |
| WifiOperation.EndClearsAnotherExactlyWhen | src/app_services.c:3480-3488 | in every interleaving an end issued for one begin clears another operation if and only if a begin came after it and is still pending |
| WifiOperation.EndForNoneClearsExactlyWhen | src/app_services.c:3494-3500 | an end that answers no begin clears an operation if and only if one is pending |
| WifiOperation.UnconditionalEndMayClearANewerOperation | src/app_services.c:3480-3506 | the concrete run: a reconnect fails after a disconnect was begun and clears it |
| WifiOperation.TimesOutExactlyWhen | src/app_services.c:537-556 | at any moment of any run the check times out if and only if an operation has been pending for 30 s since its begin, on 32-bit ticks |
| WifiOperation.FinishedExactlyWhen | src/app_services.c:497-556 | in every interleaving a begin is reported, or about to be, if and only if its timeout or a capture of it ended what was pending |
| WifiOperation.CaptureMatchesExactlyWhen | src/app_services.c:751-752 | in every interleaving, however long the capture was kept, it ends the pending operation if and only if the generation was advanced a multiple of 2^32 times, one is pending, and it is not a disconnect still to be shown |
| WifiOperation.StaleCaptureEndsAnotherExactlyWhen | src/app_services.c:743-773 | what it ends is another operation if and only if that multiple is not zero |
| Watchdog.Registry.FindRecord | src/task_watchdog.c:60-68 | the first live record of the handle; -1 exactly when there is none |
| Watchdog.Registry.Register | src/task_watchdog.c:70-126 | one step that fills a vacant slot with the next nonzero generation, refused for a live handle or a full table |
| Watchdog.Registry.Feed | src/task_watchdog.c:206-221 | one step that touches only the feeding task's record |
| Watchdog.Registry.Matches | src/task_watchdog.c:230-239 | the first section finds exactly a live record of handle and generation |
| Watchdog.Registry.RemoveIfStill | src/task_watchdog.c:251-260 | the second section removes exactly that registration, if it is still there |
| Watchdog.Registry.UnregisterGeneration | src/task_watchdog.c:223-262 | with any activity of other tasks between the sections, a removal is of the registration seen in the first, and a registration seen is removed unless it is gone by then or the ESP watchdog refuses |
| Watchdog.Registry.AllHealthy | src/task_watchdog.c:388-403 | false exactly when a live record is stale by the wrapping difference |
| Watchdog.StepKeepsInvariant | src/task_watchdog.c:60-126 | every step keeps handles and generations of live records distinct |
| Watchdog.EveryInterleavingIsConsistent | src/task_watchdog.c:60-261 | in every interleaving with fewer than 2^32 registrations, live records have distinct handles and distinct nonzero generations |
| Watchdog.StaleExactlyWhen | src/task_watchdog.c:388-403 | in every interleaving a registered task is stale exactly when its registration or last feed is more than 10 s ago, and its feeds are counted from its registration |
| Watchdog.UnregisterRemovesWhatItSaw | src/task_watchdog.c:223-262 | an unregister never removes a record registered again under the same handle after it looked |
| LcdIntegrity.Crc8 | src/lcd_integrity.c:18-33 | the nested loops compute the CRC function the lemmas are about |
| LcdIntegrity.CrcOfOneBit | src/lcd_integrity.c:18-33 | the CRC of the byte 1 is the polynomial 0x07, that of 0x80 is 0x89 |
| LcdIntegrity.CrcLinear | src/lcd_integrity.c:18-33 | the CRC of the xor of two equal-length blocks is the xor of their CRCs |
| LcdIntegrity.BurstDetected | src/lcd_integrity.c:18-33 | blocks of any length that differ only within 8 consecutive bits have different CRCs |
| LcdIntegrity.ChangedByteDetected | src/lcd_integrity.c:18-33 | a single changed byte is always noticed |
| LcdIntegrity.Snapshot.Take | src/lcd_integrity.c:71-88 | the stored rows, when each is the given string padded with blanks, and the CRC of both |
| LcdIntegrity.CopyRow | src/lcd_integrity.c:75-79 | one row as the snapshot stores it, and when that is the given string padded with blanks |
| LcdIntegrity.PadsTextExactlyWhen | src/lcd_integrity.c:73-79 | the stored row is the string before the terminator padded with blanks if and only if only terminators and blanks follow it within 16 bytes |
| LcdIntegrity.LeftoverByteIsStored | src/lcd_integrity.c:73-79 | a byte behind the terminator is stored as if it belonged to the string |
| ErrorLogScroll.FindStarts | src/error_log_scroll.c:137-147 | the wrapping loop finds the line starts, at most seven |
| ErrorLogScroll.RowText | src/error_log_scroll.c:154-160 | a row drops exactly the trailing blanks and is clipped to the width |
| ErrorLogScroll.WrapDefinition | src/error_log_scroll.c:134-162 | the two rows of a page are the wrapped lines PagesShowTheLines and LineIsReachableExactlyWhen speak of |
| ErrorLogScroll.LineFits | src/error_log_scroll.c:141-145 | a line split at a blank or at the full width needs no clipping |
| ErrorLogScroll.StartsBreakBetweenWords | src/error_log_scroll.c:141-146 | every line but the last ends at the last blank that lets it fit, and a word is broken only if it has no such blank before it |
| ErrorLogScroll.WrapLosesNothing | src/error_log_scroll.c:134-162 | for every text that wraps into as many lines as the pages show, no row exceeds the width and every non-blank character appears in order exactly once |
| ErrorLogScroll.WrapsIntoPieces | src/error_log_scroll.c:137-146 | greedy wrapping needs no more lines than any other way to break the text at blanks |
| ErrorLogScroll.WrapsMonotone | src/error_log_scroll.c:141-145 | a text wraps into no more lines from a later start or on a wider display |
| ErrorLogScroll.Reader.Scroll | src/error_log_scroll.c:81-86 | the page after one scroll command |
| ErrorLogScroll.ScrollsAreInverse | src/error_log_scroll.c:81-86 | scrolling back undoes scrolling forward and the other way round |
| ErrorLogScroll.LineIsReachableExactlyWhen | src/error_log_scroll.c:81-86 | some scrolling puts the text of a line on a returned row if and only if a line among the first six (seven on 16 columns) has that text |
| ErrorLogScroll.PagesShowTheLines | src/error_log_scroll.c:81-162 | the returned rows, page after page, are the wrapped lines in order, each once, then empty rows |
| ErrorLogScroll.PagesLoseNothing | src/error_log_scroll.c:134-162 | for every text that wraps into as many lines as the pages show, the rows of all pages together hold every non-blank character in order exactly once, within the width |
| FaultDefinitions.DefinitionsWrap | src/error_log_scroll.c:18-36 | each of the 13 definitions wraps into at most five lines on 16 columns or more |
| FaultDefinitions.DefinitionsAreShown | src/error_log_scroll.c:18-36 | so some scrolling shows each line of every definition on a returned row, and the rows of all pages together hold all of its text |
| LabelSort.LabelCompare | src/app_menu.c:151-166 | the character loop computes the folded lexicographic comparison |
| LabelSort.CompareIgnoresCase | src/app_menu.c:151-166 | labels compare equal if and only if they differ at most in ASCII case |
| LabelSort.FoldedAlikeExactlyWhen | src/app_menu.c:155-162 | two characters fold alike if and only if they are equal or one ASCII letter in both cases |
| LabelSort.FirstDifferenceDecides | src/app_menu.c:151-166 | after a common beginning the smaller folded character, or the shorter label, comes first |
| LabelSort.TotalPreorder | src/app_menu.c:151-166 | the comparison is reflexive, total and transitive |
| LabelSort.StableOrderIsPermutation | src/app_runtime.c:4655-4678 | a stable order lists every position exactly once |
| LabelSort.StableOrderIsUnique | src/app_menu.c:170-184 | there is only one stable order, so the sorts have no freedom left |
| LabelSort.PrefixGrows | src/app_menu.c:176-183 | one insertion keeps the sorted part sorted and stable |
| LabelSort.OpenGap | src/app_menu.c:176-182 | the inner loop shifts exactly the greater entries up by one |
| LabelSort.InsertEntry | src/app_menu.c:174-183 | the loop body moves one menu entry in place to after its equals |
| LabelSort.SettingsMenuSort | src/app_menu.c:170-184 | the menu becomes the stable sort of itself, each label keeping its own editor |
| LabelSort.InsertIndex | src/app_runtime.c:4662-4676 | the inner loop moves one index in place to after its equals |
| LabelSort.SettingsViewOrderBuild | src/app_runtime.c:4655-4678 | the view order is the stable order of the table's shown labels |

## Left out

- Floating point: voltages, currents and scaled floats are exact reals, so rounding of `float` arithmetic
  and non-finite values are not modelled; `roundf`, `lroundf` and truncation are.
- ESP-IDF, FreeRTOS, NVS and driver internals: flash, bus, clocks and other tasks are free choices; an
  NVS write that fails may or may not have happened, and `nvs_commit` only succeeds or fails.
- `battery_save_configuration`, which writes three of the same keys outside the transaction.
- The rest of `load_settings` after line 2737: runtime copies and the regenerated profile. Its boolean
  result and read errors other than a missing or mistyped item are not modelled either.
- SettingsTransaction.CutIsAtomic: assumes that no mixture other than the rows in flash, the new table and the
  defaults carries the fingerprint in flash. A 32-bit hash cannot exclude that, and after a failed save it
  fails without any collision; SealedSaveIsAtomicExactlyWhen proves the condition exact. A save of one changed
  row is proved without it.
- SettingsTransaction.SaveAfterFailedSaves: counts from the table last sealed and assumes that no other table
  assembled from it and the attempts carries its fingerprint, which a 32-bit hash cannot exclude either.
  A failed save that got as far as clearing the marker has written every row and leaves the case without a
  current marker.
- EditRollback: the apply functions are modelled on values, one function for each, because they only
  overwrite global fields; the protection and estimator notifications they send are not part of this
  model. Conversions that C leaves undefined wrap around, except that a capacity above 65535 counts as out of range.
- LcdLink.Lcd.SendByte: requires that the byte is not a function-set for 8 bits, which no caller sends;
  `lcd_i2c_probe`, which bypasses the latch, delays and the address scan are not modelled.
- Button: `stop`, `current_state` and the statistics are not modelled, and the ring of edges is one
  optional edge per poll. The wake latch's screen is a free boolean per event.
- FlashQueue: the active message, and the text and return screen of an entry, which the queue only carries.
- EditRollback.RollbackAfterBootExactlyWhen: asks that every field fits its row when the editor opens; a value
  an earlier edit made too large to convert is not followed further.
- WifiOperation.ReportedAtMostOnce: counts reports by callback, poll and timeout; what the toggle worker
  shows on its own after its unconditional end is not a report. The SSID and RSSI fields are not modelled.
- WifiAdmission: the lazy creation of the queue and the worker task.
- Watchdog: names, stack figures and snapshots of a record, and the ESP task watchdog itself.
- LcdIntegrity: the periodic comparison that uses the snapshot.
- SettingsClamp: the normalisation of the two display flags to 0 or 1, and the repair of a scroll speed of
  0 that the check before it makes unreachable.
- Menu rendering, screens, button handlers beyond the wake latch, OTA, cloud, security, telemetry and the
  protection engine: no invariant of their own in the modelled code.
