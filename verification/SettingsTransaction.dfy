/** What a boot makes of an NVS namespace, and which namespaces a save can leave behind. */
module SettingsTransaction {
  import opened SettingsCodec
  import Fingerprint

  const VALID_KEY := "set_txn_ok"
  const GEN_KEY := "set_txn_gen"
  const CRC_KEY := "set_txn_crc"
  const TXN_VERSION := 4

  type Store = map<string, Entry>

  predicate WellFormed(table: seq<Setting>) {
    && (forall i :: 0 <= i < |table| ==> DefaultFits(table[i]))
    && (forall i :: 0 <= i < |table| ==> table[i].key != VALID_KEY && table[i].key != GEN_KEY && table[i].key != CRC_KEY)
    && (forall i, j :: 0 <= i < j < |table| ==> table[i].key != table[j].key)
  }

  predicate ValidStore(store: Store) {
    forall k :: k in store ==> InRange(store[k])
  }

  predicate Snapshot(table: seq<Setting>, values: seq<int>) {
    |values| == |table| && forall i :: 0 <= i < |table| ==> Holds(KindOf(table[i]), values[i])
  }

  // ---------------------------------------------------------------- the loader

  /** The value a row takes when loaded: a missing or mistyped item reads as the default. */
  function LoadedValue(s: Setting, store: Store): int {
    if s.key in store && Readable(KindOf(s), store[s.key])
    then ReadBack(KindOf(s), store[s.key])
    else DefaultEncoded(s)
  }

  function LoadedTable(table: seq<Setting>, store: Store): (t: seq<int>)
    ensures |t| == |table|
  {
    seq(|table|, i requires 0 <= i < |table| => LoadedValue(table[i], store))
  }

  function DefaultTable(table: seq<Setting>): (t: seq<int>)
    ensures |t| == |table|
  {
    seq(|table|, i requires 0 <= i < |table| => DefaultEncoded(table[i]))
  }

  datatype Verdict = NoMarker | OtherVersion(marker: int) | Damaged | Sealed

  predicate MarkerPresent(store: Store) {
    VALID_KEY in store && store[VALID_KEY].U8?
  }

  predicate MarkerIs(store: Store, marker: int) {
    VALID_KEY in store && store[VALID_KEY] == U8(marker)
  }

  predicate CrcIs(store: Store, crc: int) {
    CRC_KEY in store && store[CRC_KEY] == U32(crc)
  }

  function Judge(table: seq<Setting>, store: Store): Verdict {
    if !MarkerPresent(store) then NoMarker
    else if store[VALID_KEY].v != TXN_VERSION then OtherVersion(store[VALID_KEY].v)
    else if CrcIs(store, Fingerprint.Of(LoadedTable(table, store))) then Sealed
    else Damaged
  }

  /** The encoded table in force after a boot. */
  function Outcome(table: seq<Setting>, store: Store): (t: seq<int>)
    ensures |t| == |table|
  {
    if Judge(table, store).Damaged? then DefaultTable(table) else LoadedTable(table, store)
  }

  /** Without any row, whatever the seal says, a boot shows the default table. */
  lemma EmptyNamespaceBootsDefaults(table: seq<Setting>, store: Store)
    requires forall i :: 0 <= i < |table| ==> table[i].key !in store
    ensures Outcome(table, store) == DefaultTable(table)
  {
  }

  /** With one row missing or of another type, as after a migration, a boot shows the stored rows and that one
      default; under a current marker only if that table has the fingerprint in flash. */
  lemma MissingRowBootsItsDefault(table: seq<Setting>, values: seq<int>, i: nat, store: Store)
    requires Snapshot(table, values) && i < |table|
    requires table[i].key !in store || !HasItsType(KindOf(table[i]), store[table[i].key])
    requires forall k :: 0 <= k < |table| && k != i ==>
               table[k].key in store && store[table[k].key] == Stored(KindOf(table[k]), values[k])
    ensures var t := WrittenTable(table, values)[i := DefaultTable(table)[i]];
            Outcome(table, store) == if MarkerIs(store, TXN_VERSION) && !CrcIs(store, Fingerprint.Of(t)) then DefaultTable(table) else t
  {
    var t := WrittenTable(table, values)[i := DefaultTable(table)[i]];
    forall k | 0 <= k < |table|
      ensures LoadedTable(table, store)[k] == t[k]
    {
      if k != i {
        StoredRoundTrip(KindOf(table[k]), values[k]);
      }
    }
    assert LoadedTable(table, store) == t;
  }

  // ---------------------------------------------------------------- states a save passes through

  /** A row as it reads back once its item has been written. */
  function WrittenValue(s: Setting, encoded: int): int
    requires IsInt32(encoded)
  {
    ReadBack(KindOf(s), Stored(KindOf(s), encoded))
  }

  function WrittenTable(table: seq<Setting>, values: seq<int>): (t: seq<int>)
    requires Snapshot(table, values)
    ensures |t| == |table|
  {
    seq(|table|, i requires 0 <= i < |table| => WrittenValue(table[i], values[i]))
  }

  predicate SameItem(a: Store, b: Store, key: string) {
    (key in a <==> key in b) && (key in a ==> a[key] == b[key])
  }

  predicate SameSeal(a: Store, b: Store) {
    SameItem(a, b, VALID_KEY) && SameItem(a, b, CRC_KEY)
  }

  /** Every row reads as before the save or as the new snapshot. */
  predicate Mixture(table: seq<Setting>, before: Store, values: seq<int>, s: Store)
    requires Snapshot(table, values)
  {
    forall i :: 0 <= i < |table| ==>
      LoadedValue(table[i], s) == LoadedValue(table[i], before) ||
      LoadedValue(table[i], s) == WrittenValue(table[i], values[i])
  }

  predicate AllWritten(table: seq<Setting>, values: seq<int>, s: Store)
    requires Snapshot(table, values)
  {
    forall i :: 0 <= i < |table| ==> table[i].key in s && s[table[i].key] == Stored(KindOf(table[i]), values[i])
  }

  /** Still under the old seal. */
  predicate UnderOldSeal(table: seq<Setting>, before: Store, values: seq<int>, s: Store)
    requires Snapshot(table, values)
  {
    SameSeal(before, s) && Mixture(table, before, values, s)
  }

  /** The states a save of `values` over `before` can leave: still under the old seal,
      all values written with the seal broken, or resealed. */
  predicate CutState(table: seq<Setting>, before: Store, values: seq<int>, s: Store)
    requires Snapshot(table, values)
  {
    || UnderOldSeal(table, before, values, s)
    || (AllWritten(table, values, s) && MarkerIs(s, 0))
    || (AllWritten(table, values, s) && MarkerIs(s, TXN_VERSION) && CrcIs(s, Fingerprint.Of(values)))
  }

  /** The loaded table after the first `n` rows of the new snapshot replaced the old ones. */
  function PrefixTable(before: seq<int>, after: seq<int>, n: nat): seq<int>
    requires |before| == |after| && n <= |after|
  {
    after[..n] + before[n..]
  }

  /** A store under the old seal holding exactly the first `n` new rows. */
  predicate PrefixState(table: seq<Setting>, before: Store, values: seq<int>, n: nat, s: Store)
    requires Snapshot(table, values) && n <= |table|
  {
    SameSeal(before, s) &&
    LoadedTable(table, s) == PrefixTable(LoadedTable(table, before), WrittenTable(table, values), n)
  }

  // ---------------------------------------------------------------- crash atomicity

  /** Each row comes from one of two tables. */
  predicate MixOf(a: seq<int>, b: seq<int>, t: seq<int>)
    requires |a| == |b|
  {
    |t| == |a| && forall i :: 0 <= i < |t| ==> t[i] == a[i] || t[i] == b[i]
  }

  /** A mixture that carries the fingerprint in flash is what the rows in flash read as, the new table or
      the defaults. */
  ghost predicate NoTornCollision(table: seq<Setting>, before: Store, values: seq<int>)
    requires Snapshot(table, values)
  {
    forall t: seq<int> ::
      MixOf(LoadedTable(table, before), WrittenTable(table, values), t) && CrcIs(before, Fingerprint.Of(t))
      ==> t == LoadedTable(table, before) || t == WrittenTable(table, values) || t == DefaultTable(table)
  }

  /** What the next boot may show: what a boot before the save would have shown, the new table, or the
      defaults. */
  predicate Acceptable(table: seq<Setting>, before: Store, values: seq<int>, t: seq<int>)
    requires Snapshot(table, values)
  {
    t == Outcome(table, before) || t == WrittenTable(table, values) || t == DefaultTable(table)
  }

  lemma LoadedFromWritten(table: seq<Setting>, values: seq<int>, s: Store)
    requires Snapshot(table, values) && AllWritten(table, values, s)
    ensures LoadedTable(table, s) == WrittenTable(table, values)
  {
    forall i | 0 <= i < |table|
      ensures LoadedTable(table, s)[i] == WrittenTable(table, values)[i]
    {
      assert table[i].key in s && s[table[i].key] == Stored(KindOf(table[i]), values[i]);
      StoredRoundTrip(KindOf(table[i]), values[i]);
    }
  }

  /** Under a current marker every cut of a save boots what a boot before the save would have shown, the
      new table or the defaults. */
  lemma CutIsAtomic(table: seq<Setting>, before: Store, values: seq<int>, s: Store)
    requires Snapshot(table, values) && CutState(table, before, values, s)
    requires MarkerIs(before, TXN_VERSION) && NoTornCollision(table, before, values)
    ensures Acceptable(table, before, values, Outcome(table, s))
  {
    if UnderOldSeal(table, before, values, s) {
      MixedTable(table, before, values, s);
      OldSealVerdict(table, before, s);
      OldSealVerdict(table, before, before);
    } else {
      LoadedFromWritten(table, values, s);
    }
  }

  /** Under an unchanged current seal a table is trusted exactly when it has the sealed fingerprint. */
  lemma OldSealVerdict(table: seq<Setting>, before: Store, s: Store)
    requires MarkerIs(before, TXN_VERSION) && SameSeal(before, s)
    ensures Judge(table, s).Sealed? <==> CrcIs(before, Fingerprint.Of(LoadedTable(table, s)))
    ensures Outcome(table, s) == if CrcIs(before, Fingerprint.Of(LoadedTable(table, s))) then LoadedTable(table, s) else DefaultTable(table)
  {
  }

  lemma MixedTable(table: seq<Setting>, before: Store, values: seq<int>, s: Store)
    requires Snapshot(table, values)
    ensures Mixture(table, before, values, s) <==> MixOf(LoadedTable(table, before), WrittenTable(table, values), LoadedTable(table, s))
  {
    var a, b, t := LoadedTable(table, before), WrittenTable(table, values), LoadedTable(table, s);
    assert forall i :: 0 <= i < |table| ==>
      t[i] == LoadedValue(table[i], s) && a[i] == LoadedValue(table[i], before) && b[i] == WrittenValue(table[i], values[i]);
  }

  /** At most one row of the two tables differs. */
  predicate AtMostOneChange(a: seq<int>, b: seq<int>)
    requires |a| == |b|
  {
    forall i, j :: 0 <= i < |a| && 0 <= j < |a| && a[i] != b[i] && a[j] != b[j] ==> i == j
  }

  /** A save that changes a single setting needs no assumption about collisions. */
  lemma SingleChangeNeverTears(table: seq<Setting>, before: Store, values: seq<int>)
    requires Snapshot(table, values)
    requires AtMostOneChange(LoadedTable(table, before), WrittenTable(table, values))
    ensures NoTornCollision(table, before, values)
  {
    var a, b := LoadedTable(table, before), WrittenTable(table, values);
    forall t: seq<int> | MixOf(a, b, t)
      ensures t == a || t == b
    {
      OneOfTwo(a, b, t);
    }
  }

  lemma OneOfTwo(a: seq<int>, b: seq<int>, t: seq<int>)
    requires |a| == |b| && AtMostOneChange(a, b) && MixOf(a, b, t)
    ensures t == a || t == b
  {
    if i :| 0 <= i < |t| && t[i] != a[i] {
      assert forall j :: 0 <= j < |t| && a[j] != b[j] ==> i == j;
      assert t == b;
    } else {
      assert t == a;
    }
  }

  /** The items of exactly those rows that `t` takes from the new table. */
  ghost function RowsTaken(table: seq<Setting>, before: Store, values: seq<int>, t: seq<int>): Store
    requires WellFormed(table) && Snapshot(table, values) && |t| == |table|
  {
    KeysDistinct(table);
    map i | 0 <= i < |table| && t[i] != LoadedValue(table[i], before) :: table[i].key := Stored(KindOf(table[i]), values[i])
  }

  lemma KeysDistinct(table: seq<Setting>)
    requires WellFormed(table)
    ensures forall i, j :: 0 <= i < |table| && 0 <= j < |table| && table[i].key == table[j].key ==> i == j
  {
  }

  lemma RowTakenReads(table: seq<Setting>, before: Store, values: seq<int>, t: seq<int>, k: nat)
    requires WellFormed(table) && Snapshot(table, values) && k < |table|
    requires MixOf(LoadedTable(table, before), WrittenTable(table, values), t)
    ensures LoadedValue(table[k], before + RowsTaken(table, before, values, t)) == t[k]
  {
    KeysDistinct(table);
    var taken := RowsTaken(table, before, values, t);
    assert t[k] == LoadedTable(table, before)[k] || t[k] == WrittenTable(table, values)[k];
    StoredRoundTrip(KindOf(table[k]), values[k]);
    if t[k] != LoadedValue(table[k], before) {
      assert table[k].key in taken && taken[table[k].key] == Stored(KindOf(table[k]), values[k]);
    } else {
      assert table[k].key !in taken;
    }
  }

  lemma RowsTakenKeepSeal(table: seq<Setting>, before: Store, values: seq<int>, t: seq<int>)
    requires WellFormed(table) && Snapshot(table, values) && |t| == |table|
    ensures SameSeal(before, before + RowsTaken(table, before, values, t))
  {
    assert forall i :: 0 <= i < |table| ==> table[i].key != VALID_KEY && table[i].key != CRC_KEY;
  }

  /** Every mixture is what some cut of the save leaves, under the old seal: exactly the writes of these
      rows went through. */
  lemma EveryMixtureIsACut(table: seq<Setting>, before: Store, values: seq<int>, t: seq<int>) returns (s: Store)
    requires WellFormed(table) && Snapshot(table, values) && MixOf(LoadedTable(table, before), WrittenTable(table, values), t)
    ensures UnderOldSeal(table, before, values, s) && LoadedTable(table, s) == t
  {
    s := before + RowsTaken(table, before, values, t);
    RowsTakenKeepSeal(table, before, values, t);
    forall k | 0 <= k < |table|
      ensures LoadedTable(table, s)[k] == t[k]
    {
      RowTakenReads(table, before, values, t, k);
    }
    assert LoadedTable(table, s) == t;
    MixedTable(table, before, values, s);
  }

  ghost predicate EveryCutAcceptable(table: seq<Setting>, before: Store, values: seq<int>)
    requires Snapshot(table, values)
  {
    forall s: Store :: CutState(table, before, values, s) ==> Acceptable(table, before, values, Outcome(table, s))
  }

  /** Under a current marker every cut boots the table a boot before the save would have shown, the new
      table or the defaults, exactly when no other mixture has the fingerprint in flash. */
  lemma SealedSaveIsAtomicExactlyWhen(table: seq<Setting>, before: Store, values: seq<int>)
    requires WellFormed(table) && Snapshot(table, values) && MarkerIs(before, TXN_VERSION)
    ensures EveryCutAcceptable(table, before, values) <==> NoTornCollision(table, before, values)
  {
    if NoTornCollision(table, before, values) {
      forall s: Store | CutState(table, before, values, s)
        ensures Acceptable(table, before, values, Outcome(table, s))
      {
        CutIsAtomic(table, before, values, s);
      }
    }
    if EveryCutAcceptable(table, before, values) {
      forall t: seq<int> | MixOf(LoadedTable(table, before), WrittenTable(table, values), t) && CrcIs(before, Fingerprint.Of(t))
        ensures t == LoadedTable(table, before) || t == WrittenTable(table, values) || t == DefaultTable(table)
      {
        var s := EveryMixtureIsACut(table, before, values, t);
        OldSealVerdict(table, before, s);
        OldSealVerdict(table, before, before);
        assert CutState(table, before, values, s);
      }
    }
  }

  // ---------------------------------------------------------------- saves that failed under the same seal

  /** The namespace is sealed with the fingerprint of `sealed`, whatever its rows hold by now. */
  predicate SealedWith(s: Store, sealed: seq<int>) {
    MarkerIs(s, TXN_VERSION) && CrcIs(s, Fingerprint.Of(sealed))
  }

  /** Each row comes from the sealed table or from one of the attempted saves. */
  predicate Assembled(table: seq<Setting>, sealed: seq<int>, attempts: seq<seq<int>>, t: seq<int>)
    requires |sealed| == |table| && forall m :: 0 <= m < |attempts| ==> Snapshot(table, attempts[m])
  {
    |t| == |table| && forall i :: 0 <= i < |table| ==> FromSome(table, sealed, attempts, t[i], i)
  }

  predicate FromSome(table: seq<Setting>, sealed: seq<int>, attempts: seq<seq<int>>, value: int, i: nat)
    requires i < |table| == |sealed| && forall m :: 0 <= m < |attempts| ==> Snapshot(table, attempts[m])
  {
    value == sealed[i] || exists m :: 0 <= m < |attempts| && value == WrittenTable(table, attempts[m])[i]
  }

  /** No other table that can be assembled has the fingerprint of the sealed one, except perhaps the defaults. */
  ghost predicate OnlySealedMatches(table: seq<Setting>, sealed: seq<int>, attempts: seq<seq<int>>)
    requires |sealed| == |table| && forall m :: 0 <= m < |attempts| ==> Snapshot(table, attempts[m])
  {
    forall t: seq<int> :: Assembled(table, sealed, attempts, t) && Fingerprint.Of(t) == Fingerprint.Of(sealed)
                     ==> t == sealed || t == DefaultTable(table)
  }

  /** Saves, cut off or failed one after the other, none of which got as far as breaking the seal. */
  predicate FailedSaves(table: seq<Setting>, stores: seq<Store>, attempts: seq<seq<int>>) {
    && |stores| == |attempts| + 1
    && (forall m :: 0 <= m < |attempts| ==> Snapshot(table, attempts[m]))
    && forall m :: 0 <= m < |attempts| ==> UnderOldSeal(table, stores[m], attempts[m], stores[m + 1])
  }

  lemma {:induction false} FailedSavesKeepTheSeal(table: seq<Setting>, stores: seq<Store>, attempts: seq<seq<int>>,
                                                  sealed: seq<int>, m: nat)
    requires FailedSaves(table, stores, attempts) && m <= |attempts|
    requires SealedWith(stores[0], sealed) && LoadedTable(table, stores[0]) == sealed
    ensures SealedWith(stores[m], sealed) && Assembled(table, sealed, attempts, LoadedTable(table, stores[m]))
    decreases m
  {
    if m > 0 {
      FailedSavesKeepTheSeal(table, stores, attempts, sealed, m - 1);
      AssembledOn(table, sealed, attempts, stores[m - 1], m - 1, stores[m]);
    }
  }

  lemma AssembledOn(table: seq<Setting>, sealed: seq<int>, attempts: seq<seq<int>>, before: Store, m: nat, s: Store)
    requires |sealed| == |table| && (forall k :: 0 <= k < |attempts| ==> Snapshot(table, attempts[k])) && m < |attempts|
    requires Assembled(table, sealed, attempts, LoadedTable(table, before)) && Mixture(table, before, attempts[m], s)
    ensures Assembled(table, sealed, attempts, LoadedTable(table, s))
  {
    MixedTable(table, before, attempts[m], s);
    var a, t := LoadedTable(table, before), LoadedTable(table, s);
    forall i | 0 <= i < |table|
      ensures FromSome(table, sealed, attempts, t[i], i)
    {
      assert FromSome(table, sealed, attempts, a[i], i);
    }
  }

  /** However many saves have failed since a table was sealed, a boot under that seal shows that table,
      trusted, or the defaults. */
  lemma FailedSavesBootTheSealedTable(table: seq<Setting>, stores: seq<Store>, attempts: seq<seq<int>>, sealed: seq<int>, m: nat)
    requires FailedSaves(table, stores, attempts) && m <= |attempts|
    requires SealedWith(stores[0], sealed) && LoadedTable(table, stores[0]) == sealed
    requires OnlySealedMatches(table, sealed, attempts)
    ensures Outcome(table, stores[m]) == sealed || Outcome(table, stores[m]) == DefaultTable(table)
  {
    FailedSavesKeepTheSeal(table, stores, attempts, sealed, m);
    OldSealVerdict(table, stores[m], stores[m]);
  }

  /** And every cut of the next save boots the sealed table, the new table or the defaults. */
  lemma SaveAfterFailedSaves(table: seq<Setting>, stores: seq<Store>, attempts: seq<seq<int>>, sealed: seq<int>,
                             values: seq<int>, s: Store)
    requires FailedSaves(table, stores, attempts) && Snapshot(table, values)
    requires SealedWith(stores[0], sealed) && LoadedTable(table, stores[0]) == sealed
    requires var all := attempts + [values];
             (forall m :: 0 <= m < |all| ==> Snapshot(table, all[m])) && OnlySealedMatches(table, sealed, all)
    requires CutState(table, stores[|attempts|], values, s)
    ensures var t := Outcome(table, s); t == sealed || t == WrittenTable(table, values) || t == DefaultTable(table)
  {
    if UnderOldSeal(table, stores[|attempts|], values, s) {
      OneMoreFailure(table, stores, attempts, values, s);
      FailedSavesBootTheSealedTable(table, stores + [s], attempts + [values], sealed, |attempts| + 1);
    } else {
      LoadedFromWritten(table, values, s);
    }
  }

  lemma OneMoreFailure(table: seq<Setting>, stores: seq<Store>, attempts: seq<seq<int>>, values: seq<int>, s: Store)
    requires FailedSaves(table, stores, attempts) && Snapshot(table, values)
    requires UnderOldSeal(table, stores[|attempts|], values, s)
    ensures FailedSaves(table, stores + [s], attempts + [values])
  {
    var longer, more := stores + [s], attempts + [values];
    forall m | 0 <= m < |more|
      ensures Snapshot(table, more[m]) && UnderOldSeal(table, longer[m], more[m], longer[m + 1])
    {
      assert m < |attempts| ==> UnderOldSeal(table, stores[m], attempts[m], stores[m + 1]);
    }
  }

  /** Whatever the flash refuses in these saves, the boot after them shows the sealed table or the defaults. */
  ghost predicate EveryFailureHarmless(table: seq<Setting>, before: Store, sealed: seq<int>, attempts: seq<seq<int>>) {
    forall stores: seq<Store> :: FailedSaves(table, stores, attempts) && stores[0] == before
      ==> Outcome(table, stores[|attempts|]) == sealed || Outcome(table, stores[|attempts|]) == DefaultTable(table)
  }

  /** The assumption of the two lemmas above is exactly what they need. */
  lemma FailedSavesAreHarmlessExactlyWhen(table: seq<Setting>, before: Store, sealed: seq<int>, attempts: seq<seq<int>>)
    requires WellFormed(table) && forall m :: 0 <= m < |attempts| ==> Snapshot(table, attempts[m])
    requires SealedWith(before, sealed) && LoadedTable(table, before) == sealed
    ensures EveryFailureHarmless(table, before, sealed, attempts) <==> OnlySealedMatches(table, sealed, attempts)
  {
    if OnlySealedMatches(table, sealed, attempts) {
      forall stores: seq<Store> | FailedSaves(table, stores, attempts) && stores[0] == before
        ensures Outcome(table, stores[|attempts|]) == sealed || Outcome(table, stores[|attempts|]) == DefaultTable(table)
      {
        FailedSavesBootTheSealedTable(table, stores, attempts, sealed, |attempts|);
      }
    }
    if EveryFailureHarmless(table, before, sealed, attempts) {
      forall t: seq<int> | Assembled(table, sealed, attempts, t) && Fingerprint.Of(t) == Fingerprint.Of(sealed)
        ensures t == sealed || t == DefaultTable(table)
      {
        var stores := EveryAssemblyIsReached(table, before, sealed, attempts, t);
        FailedSavesKeepTheSeal(table, stores, attempts, sealed, |attempts|);
        OldSealVerdict(table, stores[|attempts|], stores[|attempts|]);
      }
    }
  }

  /** Every assembled table is what some series of failures leaves in flash. */
  lemma {:induction false} EveryAssemblyIsReached(table: seq<Setting>, before: Store, sealed: seq<int>, attempts: seq<seq<int>>,
                                                  t: seq<int>) returns (stores: seq<Store>)
    requires WellFormed(table) && forall m :: 0 <= m < |attempts| ==> Snapshot(table, attempts[m])
    requires LoadedTable(table, before) == sealed && Assembled(table, sealed, attempts, t)
    ensures FailedSaves(table, stores, attempts) && stores[0] == before && LoadedTable(table, stores[|attempts|]) == t
    decreases |attempts|
  {
    if |attempts| == 0 {
      stores := [before];
      assert forall i :: 0 <= i < |table| ==> FromSome(table, sealed, attempts, t[i], i);
      assert t == sealed;
    } else {
      var earlier, values := attempts[..|attempts| - 1], attempts[|attempts| - 1];
      assert earlier + [values] == attempts;
      var u := WithoutLast(table, sealed, earlier, values, t);
      stores := EveryAssemblyIsReached(table, before, sealed, earlier, u);
      var s := EveryMixtureIsACut(table, stores[|earlier|], values, t);
      OneMoreFailure(table, stores, earlier, values, s);
      stores := stores + [s];
    }
  }

  /** What has to be in flash before the last save for that save to leave `t`. */
  lemma WithoutLast(table: seq<Setting>, sealed: seq<int>, earlier: seq<seq<int>>, values: seq<int>, t: seq<int>)
    returns (u: seq<int>)
    requires |sealed| == |table| && Snapshot(table, values) && forall m :: 0 <= m < |earlier| ==> Snapshot(table, earlier[m])
    requires Assembled(table, sealed, earlier + [values], t)
    ensures Assembled(table, sealed, earlier, u) && MixOf(u, WrittenTable(table, values), t)
  {
    u := seq(|table|, i requires 0 <= i < |table| => if FromSome(table, sealed, earlier, t[i], i) then t[i] else sealed[i]);
    forall i | 0 <= i < |table|
      ensures t[i] == u[i] || t[i] == WrittenTable(table, values)[i]
    {
      assert FromSome(table, sealed, earlier + [values], t[i], i);
    }
  }

  /** Every attempt changes the same row of the sealed table, or none. */
  predicate OnlyRowChanges(table: seq<Setting>, sealed: seq<int>, attempts: seq<seq<int>>, row: nat)
    requires |sealed| == |table| && forall m :: 0 <= m < |attempts| ==> Snapshot(table, attempts[m])
  {
    forall m, i :: 0 <= m < |attempts| && 0 <= i < |table| && i != row ==> WrittenTable(table, attempts[m])[i] == sealed[i]
  }

  lemma AssembledAgrees(table: seq<Setting>, sealed: seq<int>, attempts: seq<seq<int>>, row: nat, t: seq<int>)
    requires |sealed| == |table| && (forall m :: 0 <= m < |attempts| ==> Snapshot(table, attempts[m]))
    requires OnlyRowChanges(table, sealed, attempts, row) && Assembled(table, sealed, attempts, t)
    ensures forall i :: 0 <= i < |table| && i != row ==> t[i] == sealed[i]
  {
    forall i | 0 <= i < |table| && i != row
      ensures t[i] == sealed[i]
    {
      assert FromSome(table, sealed, attempts, t[i], i);
    }
  }

  /** Trying different values of one setting, over and over, needs no assumption if it is a bool or an
      unsigned byte. */
  lemma ByteRowNeedsNoAssumption(table: seq<Setting>, sealed: seq<int>, attempts: seq<seq<int>>, row: nat)
    requires Snapshot(table, sealed) && (forall m :: 0 <= m < |attempts| ==> Snapshot(table, attempts[m])) && row < |table|
    requires OnlyRowChanges(table, sealed, attempts, row) && (KindOf(table[row]).Flag? || KindOf(table[row]).Unsigned8?)
    ensures OnlySealedMatches(table, sealed, attempts)
  {
    forall t: seq<int> | Assembled(table, sealed, attempts, t) && t != sealed
      ensures Fingerprint.Of(t) != Fingerprint.Of(sealed)
    {
      AssembledAgrees(table, sealed, attempts, row, t);
      ByteRowHolds(table, sealed, attempts, row, t);
      assert t[row] != sealed[row] by {
        assert t[row] == sealed[row] ==> t == sealed;
      }
      Fingerprint.ByteSettingDetected(t, sealed, row);
    }
  }

  lemma ByteRowHolds(table: seq<Setting>, sealed: seq<int>, attempts: seq<seq<int>>, row: nat, t: seq<int>)
    requires Snapshot(table, sealed) && (forall m :: 0 <= m < |attempts| ==> Snapshot(table, attempts[m])) && row < |table|
    requires Assembled(table, sealed, attempts, t) && (KindOf(table[row]).Flag? || KindOf(table[row]).Unsigned8?)
    ensures 0 <= t[row] < 256 && 0 <= sealed[row] < 256
  {
    assert FromSome(table, sealed, attempts, t[row], row);
    if t[row] != sealed[row] {
      var m :| 0 <= m < |attempts| && t[row] == WrittenTable(table, attempts[m])[row];
      StoredRoundTrip(KindOf(table[row]), attempts[m][row]);
    }
  }

  /** Trying the same change of one setting, of any kind, over and over needs no assumption either: every
      boot under the seal shows the sealed table, the one change made, or the defaults. */
  lemma RetriedChangeIsAtomic(table: seq<Setting>, stores: seq<Store>, attempts: seq<seq<int>>, sealed: seq<int>,
                              changed: seq<int>, m: nat)
    requires FailedSaves(table, stores, attempts) && m <= |attempts|
    requires SealedWith(stores[0], sealed) && LoadedTable(table, stores[0]) == sealed
    requires |changed| == |table| && AtMostOneChange(sealed, changed)
    requires forall k :: 0 <= k < |attempts| ==> WrittenTable(table, attempts[k]) == changed
    ensures var t := Outcome(table, stores[m]); t == sealed || t == changed || t == DefaultTable(table)
  {
    FailedSavesKeepTheSeal(table, stores, attempts, sealed, m);
    var t := LoadedTable(table, stores[m]);
    forall i | 0 <= i < |t|
      ensures t[i] == sealed[i] || t[i] == changed[i]
    {
      assert FromSome(table, sealed, attempts, t[i], i);
    }
    OneOfTwo(sealed, changed, t);
    OldSealVerdict(table, stores[m], stores[m]);
  }

  /** So a cut of the next try boots one of the three as well. */
  lemma NextRetryIsAtomic(table: seq<Setting>, stores: seq<Store>, attempts: seq<seq<int>>, sealed: seq<int>,
                          values: seq<int>, s: Store)
    requires FailedSaves(table, stores, attempts) && Snapshot(table, values)
    requires SealedWith(stores[0], sealed) && LoadedTable(table, stores[0]) == sealed
    requires AtMostOneChange(sealed, WrittenTable(table, values))
    requires forall k :: 0 <= k < |attempts| ==> WrittenTable(table, attempts[k]) == WrittenTable(table, values)
    requires CutState(table, stores[|attempts|], values, s)
    ensures var t := Outcome(table, s); t == sealed || t == WrittenTable(table, values) || t == DefaultTable(table)
  {
    if UnderOldSeal(table, stores[|attempts|], values, s) {
      OneMoreFailure(table, stores, attempts, values, s);
      RetriedChangeIsAtomic(table, stores + [s], attempts + [values], sealed, WrittenTable(table, values), |attempts| + 1);
    } else {
      LoadedFromWritten(table, values, s);
    }
  }

  // ---------------------------------------------------------------- without a current marker

  /** The rows that change are exactly `i` and `j`. */
  predicate ChangesExactly(a: seq<int>, b: seq<int>, i: nat, j: nat)
    requires |a| == |b|
  {
    i < j < |a| && a[i] != b[i] && a[j] != b[j] && forall k :: 0 <= k < |a| && k != i && k != j ==> a[k] == b[k]
  }

  /** Two rows change, and the one state between them happens to be the default table. */
  predicate PassesThroughDefaults(a: seq<int>, b: seq<int>, defaults: seq<int>, i: nat, j: nat)
    requires |a| == |b| == |defaults|
  {
    ChangesExactly(a, b, i, j) && b[i] == defaults[i] && a[j] == defaults[j] &&
    forall k :: 0 <= k < |a| && k != i && k != j ==> a[k] == defaults[k]
  }

  predicate EveryPrefixAcceptable(a: seq<int>, b: seq<int>, defaults: seq<int>)
    requires |a| == |b| == |defaults|
  {
    forall n :: 0 <= n <= |a| ==> var t := PrefixTable(a, b, n); t == a || t == b || t == defaults
  }

  lemma FirstChange(a: seq<int>, b: seq<int>, from: nat, known: nat) returns (i: nat)
    requires |a| == |b| && from <= known < |a| && a[known] != b[known]
    ensures from <= i <= known && a[i] != b[i] && forall k :: from <= k < i ==> a[k] == b[k]
  {
    i := from;
    while a[i] == b[i]
      invariant from <= i <= known
      invariant forall k :: from <= k < i ==> a[k] == b[k]
      decreases known - i
    {
      i := i + 1;
    }
  }

  /** A state strictly between two changed rows is neither table, so it must be the defaults. */
  lemma BetweenChangesIsDefault(a: seq<int>, b: seq<int>, defaults: seq<int>, i: nat, n: nat, j: nat)
    requires |a| == |b| == |defaults| && EveryPrefixAcceptable(a, b, defaults)
    requires i < n <= j < |a| && a[i] != b[i] && a[j] != b[j]
    ensures forall m :: 0 <= m < |a| ==> defaults[m] == if m < n then b[m] else a[m]
  {
    var t := PrefixTable(a, b, n);
    assert t[i] == b[i] && t[j] == a[j];
  }

  lemma PrefixesForceDefaults(a: seq<int>, b: seq<int>, defaults: seq<int>)
    requires |a| == |b| == |defaults| && EveryPrefixAcceptable(a, b, defaults) && !AtMostOneChange(a, b)
    ensures exists i, j :: PassesThroughDefaults(a, b, defaults, i, j)
  {
    var p, q :| 0 <= p < q < |a| && a[p] != b[p] && a[q] != b[q];
    var i := FirstChange(a, b, 0, p);
    var j := FirstChange(a, b, i + 1, q);
    BetweenChangesIsDefault(a, b, defaults, i, i + 1, j);
    forall k | j < k < |a|
      ensures a[k] == b[k]
    {
      if a[k] != b[k] {
        BetweenChangesIsDefault(a, b, defaults, i, j + 1, k);
      }
    }
    assert PassesThroughDefaults(a, b, defaults, i, j);
  }

  /** A power cut with no failed write before it leaves a prefix of the rows; every such prefix is
      legitimate exactly when at most one row changes, or two rows by way of the defaults. */
  lemma PrefixesAreAcceptableExactlyWhen(a: seq<int>, b: seq<int>, defaults: seq<int>)
    requires |a| == |b| == |defaults|
    ensures EveryPrefixAcceptable(a, b, defaults) <==>
            AtMostOneChange(a, b) || exists i, j :: PassesThroughDefaults(a, b, defaults, i, j)
  {
    if AtMostOneChange(a, b) {
      AtMostOneIsAcceptable(a, b, defaults);
    } else if i, j :| PassesThroughDefaults(a, b, defaults, i, j) {
      ThroughDefaultsIsAcceptable(a, b, defaults, i, j);
    } else if EveryPrefixAcceptable(a, b, defaults) {
      PrefixesForceDefaults(a, b, defaults);
    }
  }

  lemma AtMostOneIsAcceptable(a: seq<int>, b: seq<int>, defaults: seq<int>)
    requires |a| == |b| == |defaults| && AtMostOneChange(a, b)
    ensures EveryPrefixAcceptable(a, b, defaults)
  {
    forall n | 0 <= n <= |a| ensures PrefixTable(a, b, n) == a || PrefixTable(a, b, n) == b {
      if i :| 0 <= i < n && a[i] != b[i] {
        assert PrefixTable(a, b, n) == b;
      } else {
        assert PrefixTable(a, b, n) == a;
      }
    }
  }

  lemma ThroughDefaultsIsAcceptable(a: seq<int>, b: seq<int>, defaults: seq<int>, i: nat, j: nat)
    requires |a| == |b| == |defaults| && PassesThroughDefaults(a, b, defaults, i, j)
    ensures EveryPrefixAcceptable(a, b, defaults)
  {
    forall n | 0 <= n <= |a|
      ensures PrefixTable(a, b, n) == a || PrefixTable(a, b, n) == b || PrefixTable(a, b, n) == defaults
    {
      if n <= i {
        assert PrefixTable(a, b, n) == a;
      } else if n <= j {
        assert PrefixTable(a, b, n) == defaults;
      } else {
        assert PrefixTable(a, b, n) == b;
      }
    }
  }

  /** Without a current marker the loader keeps whatever it decodes. */
  lemma UnsealedPrefixBoots(table: seq<Setting>, before: Store, values: seq<int>, n: nat, s: Store)
    requires Snapshot(table, values) && n <= |table|
    requires !MarkerIs(before, TXN_VERSION) && PrefixState(table, before, values, n, s)
    ensures Outcome(table, s) == PrefixTable(Outcome(table, before), WrittenTable(table, values), n)
  {
  }

  /** A cut that is not under the old seal has every row written, so it boots the new table or,
      if a row did not survive its cast and the fingerprint tells, the defaults. */
  lemma WrittenCutIsAcceptable(table: seq<Setting>, before: Store, values: seq<int>, s: Store)
    requires Snapshot(table, values) && AllWritten(table, values, s)
    ensures Acceptable(table, before, values, Outcome(table, s))
  {
    LoadedFromWritten(table, values, s);
  }

  lemma UnsealedBootsTheRows(table: seq<Setting>, before: Store, s: Store)
    requires !MarkerIs(before, TXN_VERSION) && SameSeal(before, s)
    ensures Outcome(table, before) == LoadedTable(table, before) && Outcome(table, s) == LoadedTable(table, s)
  {
  }

  /** Nothing protects a save made while the marker is not current: the rows go on being written
      after one has failed, so every cut is acceptable exactly when at most one row changes. */
  lemma UnsealedSaveIsAtomicExactlyWhen(table: seq<Setting>, before: Store, values: seq<int>)
    requires WellFormed(table) && Snapshot(table, values) && !MarkerIs(before, TXN_VERSION)
    ensures EveryCutAcceptable(table, before, values) <==> AtMostOneChange(LoadedTable(table, before), WrittenTable(table, values))
  {
    if AtMostOneChange(LoadedTable(table, before), WrittenTable(table, values)) {
      forall s: Store | CutState(table, before, values, s)
        ensures Acceptable(table, before, values, Outcome(table, s))
      {
        OneChangeIsAcceptable(table, before, values, s);
      }
    } else if EveryCutAcceptable(table, before, values) {
      TwoChangesTear(table, before, values);
    }
  }

  lemma OneChangeIsAcceptable(table: seq<Setting>, before: Store, values: seq<int>, s: Store)
    requires Snapshot(table, values) && !MarkerIs(before, TXN_VERSION) && CutState(table, before, values, s)
    requires AtMostOneChange(LoadedTable(table, before), WrittenTable(table, values))
    ensures Acceptable(table, before, values, Outcome(table, s))
  {
    if UnderOldSeal(table, before, values, s) {
      UnsealedBootsTheRows(table, before, s);
      MixedTable(table, before, values, s);
      OneOfTwo(LoadedTable(table, before), WrittenTable(table, values), LoadedTable(table, s));
    } else {
      WrittenCutIsAcceptable(table, before, values, s);
    }
  }

  /** Of two changed rows, either may be the only one that reaches the flash: both tables would have
      to be the defaults, and they differ. */
  lemma TwoChangesTear(table: seq<Setting>, before: Store, values: seq<int>)
    requires WellFormed(table) && Snapshot(table, values) && !MarkerIs(before, TXN_VERSION)
    requires !AtMostOneChange(LoadedTable(table, before), WrittenTable(table, values))
    ensures !EveryCutAcceptable(table, before, values)
  {
    var a, b := LoadedTable(table, before), WrittenTable(table, values);
    var i, j :| 0 <= i < |a| && 0 <= j < |a| && a[i] != b[i] && a[j] != b[j] && i != j;
    assert a[i := b[i]][i] != a[j := b[j]][i];
    if EveryCutAcceptable(table, before, values) {
      OnlyRowForcesDefaults(table, before, values, i, j);
      OnlyRowForcesDefaults(table, before, values, j, i);
    }
  }

  lemma OnlyRowForcesDefaults(table: seq<Setting>, before: Store, values: seq<int>, i: nat, j: nat)
    requires WellFormed(table) && Snapshot(table, values) && !MarkerIs(before, TXN_VERSION)
    requires EveryCutAcceptable(table, before, values)
    requires i < |table| && j < |table| && i != j
    requires var a, b := LoadedTable(table, before), WrittenTable(table, values); a[i] != b[i] && a[j] != b[j]
    ensures LoadedTable(table, before)[i := WrittenTable(table, values)[i]] == DefaultTable(table)
  {
    var a, b := LoadedTable(table, before), WrittenTable(table, values);
    var s := EveryMixtureIsACut(table, before, values, a[i := b[i]]);
    UnsealedBootsTheRows(table, before, s);
    assert CutState(table, before, values, s);
    assert a[i := b[i]][i] != a[i] && a[i := b[i]][j] != b[j];
  }
}
