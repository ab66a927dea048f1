/** The table of persistent settings, its live fields, and their NVS representation. */
module SettingsCodec {

  predicate IsInt32(v: int) { -0x8000_0000 <= v < 0x8000_0000 }

  /** One row of the settings table; the flags select the storage kind. */
  datatype Setting = Setting(
    key: string,
    size: nat,
    defaultValue: real,
    isScaledFloat: bool,
    isSigned8: bool,
    isBool: bool)

  /** How a row is stored: the branch order shared by every codec function. */
  datatype Kind = Flag | Scaled | Signed8 | Unsigned8 | Unsigned16 | Signed32

  const CAPACITY_KEY := "bat_capacity"

  function KindOf(s: Setting): Kind {
    if s.isBool then Flag
    else if s.isScaledFloat then Scaled
    else if s.isSigned8 then Signed8
    else if s.size == 1 then Unsigned8
    else if s.key == CAPACITY_KEY then Unsigned16
    else Signed32
  }

  /** The C object a row points at. An integer row of one unsigned byte may point
      into a wider integer (an enum or an int), of which it owns the low byte. */
  datatype Field = FlagField(flag: bool) | RealField(value: real) | IntField(cell: int)

  /** roundf: to nearest, halves away from zero. */
  function Round(x: real): int {
    if x >= 0.0 then (x + 0.5).Floor else -((0.5 - x).Floor)
  }

  /** Conversion of a float to an integer type: truncation toward zero. */
  function Trunc(x: real): int {
    if x >= 0.0 then x.Floor else -((-x).Floor)
  }

  /** The field has the row's C type and its conversion to int32_t is defined. */
  predicate Fits(kind: Kind, f: Field) {
    match kind
    case Flag => f.FlagField?
    case Scaled => f.RealField? && IsInt32(Round(f.value * 100.0))
    case Signed8 => f.IntField? && -128 <= f.cell < 128
    case Unsigned8 => f.IntField? && IsInt32(f.cell)
    case Unsigned16 => f.RealField? && IsInt32(Trunc(f.value))
    case Signed32 => f.IntField? && IsInt32(f.cell)
  }

  /** The canonical int32_t value of a live field. */
  function Encode(kind: Kind, f: Field): (v: int)
    requires Fits(kind, f)
    ensures IsInt32(v)
  {
    match kind
    case Flag => if f.flag then 1 else 0
    case Scaled => Round(f.value * 100.0)
    case Signed8 => f.cell
    case Unsigned8 => f.cell % 256
    case Unsigned16 => Trunc(f.value)
    case Signed32 => f.cell
  }

  /** A typed NVS item. */
  datatype Entry = U8(v: int) | I8(v: int) | U16(v: int) | U32(v: int) | I32(v: int)

  predicate SameType(a: Entry, b: Entry) {
    a.U8? == b.U8? && a.I8? == b.I8? && a.U16? == b.U16? && a.U32? == b.U32? && a.I32? == b.I32?
  }

  predicate InRange(e: Entry) {
    match e
    case U8(v) => 0 <= v < 0x100
    case I8(v) => -128 <= v < 128
    case U16(v) => 0 <= v < 0x1_0000
    case U32(v) => 0 <= v < 0x1_0000_0000
    case I32(v) => IsInt32(v)
  }

  /** The item nvs_write_encoded stores for an encoded value, casts included. */
  function Stored(kind: Kind, encoded: int): (e: Entry)
    requires IsInt32(encoded)
    ensures InRange(e)
  {
    match kind
    case Flag => U8(if encoded != 0 then 1 else 0)
    case Scaled => I32(encoded)
    case Signed8 => I8((encoded + 128) % 256 - 128)
    case Unsigned8 => U8(encoded % 256)
    case Unsigned16 => U16(encoded % 0x1_0000)
    case Signed32 => I32(encoded)
  }

  /** An item of this type is what a typed read of the row accepts. */
  predicate Readable(kind: Kind, e: Entry) {
    SameType(e, Stored(kind, 0))
  }

  /** nvs_read_setting on an item of the right type. */
  function ReadBack(kind: Kind, e: Entry): int
    requires Readable(kind, e)
  {
    if kind.Flag? then (if e.v != 0 then 1 else 0) else e.v
  }

  /** The value the cast of a row's default gives; the table's defaults all fit their types. */
  function DefaultEncoded(s: Setting): int {
    match KindOf(s)
    case Flag => if s.defaultValue != 0.0 then 1 else 0
    case Scaled => Round(s.defaultValue * 100.0)
    case _ => Trunc(s.defaultValue)
  }

  predicate DefaultFits(s: Setting) {
    InRange(match KindOf(s)
            case Flag => U8(DefaultEncoded(s))
            case Scaled => I32(DefaultEncoded(s))
            case Signed8 => I8(DefaultEncoded(s))
            case Unsigned8 => U8(DefaultEncoded(s))
            case Unsigned16 => U16(DefaultEncoded(s))
            case Signed32 => I32(DefaultEncoded(s)))
  }

  /** Only a one-byte row depends on what its cell held before. */
  predicate Assignable(kind: Kind, f: Field) {
    kind.Unsigned8? ==> f.IntField? && IsInt32(f.cell)
  }

  /** Assigns an encoded value to a live field, as nvs_load_all and the edit
      rollback do: a one-byte row replaces only the low byte of its cell. */
  function Assign(kind: Kind, encoded: int, f: Field): Field
    requires Assignable(kind, f)
  {
    match kind
    case Flag => FlagField(encoded != 0)
    case Scaled => RealField(encoded as real / 100.0)
    case Unsigned8 => IntField(f.cell - f.cell % 256 + encoded)
    case Unsigned16 => RealField(encoded as real)
    case _ => IntField(encoded)
  }

  /** A value the row can hold. */
  predicate Holds(kind: Kind, encoded: int) {
    match kind
    case Flag => encoded == 0 || encoded == 1
    case Signed8 => -128 <= encoded < 128
    case Unsigned8 => 0 <= encoded < 256
    case _ => IsInt32(encoded)
  }

  lemma RoundHundredths(n: int)
    ensures Round(n as real / 100.0 * 100.0) == n && Trunc(n as real) == n
  {
    assert n as real / 100.0 * 100.0 == n as real;
  }

  lemma ScaledEncodes(encoded: int)
    requires IsInt32(encoded)
    ensures IsInt32(Round(encoded as real / 100.0 * 100.0)) && Round(encoded as real / 100.0 * 100.0) == encoded
  {
    RoundHundredths(encoded);
  }

  /** The low byte is replaced, the rest of the cell kept. */
  lemma LowByteEncodes(cell: int, encoded: int)
    requires IsInt32(cell) && 0 <= encoded < 256
    ensures IsInt32(cell - cell % 256 + encoded) && (cell - cell % 256 + encoded) % 256 == encoded
  {
    assert cell - cell % 256 == 256 * (cell / 256);
  }

  /** Decoding a held value and encoding it again gives it back, for every storage kind. */
  lemma AssignEncodes(kind: Kind, encoded: int, f: Field)
    requires Assignable(kind, f) && Holds(kind, encoded)
    ensures Fits(kind, Assign(kind, encoded, f)) && Encode(kind, Assign(kind, encoded, f)) == encoded
  {
    match kind
    case Flag =>
    case Scaled => ScaledEncodes(encoded);
    case Signed8 =>
    case Unsigned8 => LowByteEncodes(f.cell, encoded);
    case Unsigned16 => RoundHundredths(encoded);
    case Signed32 =>
  }

  lemma EncodeHolds(kind: Kind, f: Field)
    requires Fits(kind, f)
    ensures Holds(kind, Encode(kind, f))
  {
  }

  /** What survives the cast to the stored type; only a capacity outside 0..65535 does not. */
  lemma StoredRoundTrip(kind: Kind, encoded: int)
    requires Holds(kind, encoded)
    ensures Readable(kind, Stored(kind, encoded))
    ensures ReadBack(kind, Stored(kind, encoded)) == encoded
            <==> (kind.Unsigned16? ==> 0 <= encoded < 0x1_0000)
  {
    match kind
    case Flag =>
    case Scaled =>
    case Signed8 =>
    case Unsigned8 =>
    case Unsigned16 =>
    case Signed32 =>
  }

  // ---------------------------------------------------------------- what the numbers mean

  predicate IsWhole(x: real) { x.Floor as real == x }

  /** `n` is the whole part of `x`. */
  predicate IsWholePart(n: int, x: real) {
    if x >= 0.0 then 0 <= n && n as real <= x < n as real + 1.0 else n <= 0 && n as real - 1.0 < x <= n as real
  }

  /** `n` is nearest to `x`, the one farther from zero if there are two. */
  predicate IsNearest(n: int, x: real) {
    if x >= 0.0 then n as real - 0.5 <= x < n as real + 0.5 else n as real - 0.5 < x <= n as real + 0.5
  }

  lemma RoundAndTrunc(x: real)
    ensures IsNearest(Round(x), x) && IsWholePart(Trunc(x), x)
  {
  }

  /** The item has the row's NVS type. */
  predicate HasItsType(kind: Kind, item: Entry) {
    match kind
    case Flag => item.U8?
    case Scaled => item.I32?
    case Signed8 => item.I8?
    case Unsigned8 => item.U8?
    case Unsigned16 => item.U16?
    case Signed32 => item.I32?
  }

  /** The field shows what the item says: a scaled one in hundredths, a one-byte row in its low byte. */
  predicate ShowsItem(kind: Kind, item: Entry, f: Field) {
    match kind
    case Flag => f == FlagField(item.v != 0)
    case Scaled => f.RealField? && f.value * 100.0 == item.v as real
    case Signed8 => f == IntField(item.v)
    case Unsigned8 => f.IntField? && f.cell % 256 == item.v
    case Unsigned16 => f == RealField(item.v as real)
    case Signed32 => f == IntField(item.v)
  }

  /** The field shows the row's default: a scaled one to the nearest hundredth, an integer one its whole part. */
  predicate ShowsDefault(row: Setting, f: Field) {
    match KindOf(row)
    case Flag => f == FlagField(row.defaultValue != 0.0)
    case Scaled => f.RealField? && IsWhole(f.value * 100.0) && IsNearest((f.value * 100.0).Floor, row.defaultValue * 100.0)
    case Signed8 => f.IntField? && IsWholePart(f.cell, row.defaultValue)
    case Unsigned8 => f.IntField? && IsWholePart(f.cell % 256, row.defaultValue)
    case Unsigned16 => f.RealField? && IsWhole(f.value) && IsWholePart(f.value.Floor, row.defaultValue)
    case Signed32 => f.IntField? && IsWholePart(f.cell, row.defaultValue)
  }

  /** The field holds the default itself, where it is a float. */
  predicate HoldsDefault(row: Setting, f: Field) {
    if KindOf(row).Scaled? || KindOf(row).Unsigned16? then f == RealField(row.defaultValue) else ShowsDefault(row, f)
  }

  /** Only a one-byte row leaves anything of its cell: the bytes it does not own. */
  predicate KeepsUpperBytes(kind: Kind, was: Field, f: Field) {
    kind.Unsigned8? ==> was.IntField? && f.IntField? && f.cell / 256 == was.cell / 256
  }

  lemma LowByteOnly(cell: int, encoded: int)
    requires 0 <= encoded < 256
    ensures (cell - cell % 256 + encoded) % 256 == encoded && (cell - cell % 256 + encoded) / 256 == cell / 256
  {
    assert cell - cell % 256 == 256 * (cell / 256);
  }

  /** Assigning what an item reads as makes the field show the item. */
  lemma AssignShowsItem(kind: Kind, item: Entry, f: Field)
    requires Assignable(kind, f) && InRange(item) && HasItsType(kind, item)
    ensures Readable(kind, item) && Holds(kind, ReadBack(kind, item))
    ensures ShowsItem(kind, item, Assign(kind, ReadBack(kind, item), f))
    ensures KeepsUpperBytes(kind, f, Assign(kind, ReadBack(kind, item), f))
  {
    if kind.Unsigned8? {
      LowByteOnly(f.cell, item.v);
    }
  }

  /** Assigning the encoded default makes the field show the default. */
  lemma AssignShowsDefault(row: Setting, f: Field)
    requires Assignable(KindOf(row), f) && DefaultFits(row)
    ensures ShowsDefault(row, Assign(KindOf(row), DefaultEncoded(row), f))
    ensures KeepsUpperBytes(KindOf(row), f, Assign(KindOf(row), DefaultEncoded(row), f))
  {
    RoundAndTrunc(row.defaultValue * 100.0);
    RoundAndTrunc(row.defaultValue);
    if KindOf(row).Unsigned8? {
      LowByteOnly(f.cell, DefaultEncoded(row));
    }
  }

  /** A field encoded and assigned again: a scaled one moves by at most half a hundredth, a float stored as a
      whole number keeps its whole part, and nothing else changes. */
  lemma EncodedAgainShows(kind: Kind, f: Field)
    requires Fits(kind, f)
    ensures var g := Assign(kind, Encode(kind, f), f);
            match kind
            case Scaled => g.RealField? && -0.005 <= g.value - f.value <= 0.005
            case Unsigned16 => g.RealField? && IsWhole(g.value) && IsWholePart(g.value.Floor, f.value)
            case _ => g == f
  {
    if kind.Scaled? {
      RoundAndTrunc(f.value * 100.0);
    } else if kind.Unsigned16? {
      RoundAndTrunc(f.value);
    }
  }
}
